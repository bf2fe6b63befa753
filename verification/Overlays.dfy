/** Detection overlays: `OverlayBuilds` of src/llm_redact/authorization.py. */
module Overlays {
  import opened Wrappers

  datatype Mode = Warn | Redact | Block

  /** `_STRICTNESS` */
  function Strictness(m: Mode): nat {
    match m case Warn => 0 case Redact => 1 case Block => 2
  }

  function Stricter(a: Mode, b: Mode): Mode {
    if Strictness(a) >= Strictness(b) then a else b
  }

  /** What a generation of detection objects fixes: the configured type-keyed modes, the type each
      rule emits, and the types that some built rule emits. */
  datatype Policy = Policy(modes: map<string, Mode>, typeByRule: map<string, string>, builtTypes: set<string>)

  datatype Pair = Pair(rule: string, mode: string)

  datatype Overlay = Overlay(modes: seq<Pair>, deny: seq<string>)

  /** What a gate answers: an overlay, or something `_require_shape` refuses. */
  datatype Answer = Shaped(overlay: Overlay) | Misshapen

  /** deny is None when no deny detector is added. */
  datatype OverlayBuild = OverlayBuild(modes: map<string, Mode>, deny: Option<seq<string>>, finalBlocks: set<string>)

  /** An entry that has no effect, with the configured mode. */
  datatype Moot = Moot(pair: Pair, configured: Mode)

  /** `modes.get(kind, "redact")` */
  function ModeOf(modes: map<string, Mode>, kind: string): Mode {
    if kind in modes then modes[kind] else Redact
  }

  // ---- the specification of a tightening ----

  predicate GoodPair(policy: Policy, pair: Pair) {
    (pair.mode == "redact" || pair.mode == "block") && pair.rule in policy.typeByRule
  }

  predicate GoodPairs(policy: Policy, pairs: seq<Pair>) {
    forall p :: p in pairs ==> GoodPair(policy, p)
  }

  function PairMode(pair: Pair): Mode {
    if pair.mode == "block" then Block else Redact
  }

  /** Some entry asks for the mode on a rule that emits the kind. */
  predicate Asks(policy: Policy, pairs: seq<Pair>, kind: string, mode: Mode) {
    exists p :: p in pairs && GoodPair(policy, p) && policy.typeByRule[p.rule] == kind && PairMode(p) == mode
  }

  /** The strictest mode the entries ask for on a kind. */
  function Asked(policy: Policy, pairs: seq<Pair>, kind: string): Mode {
    if Asks(policy, pairs, kind, Block) then Block
    else if Asks(policy, pairs, kind, Redact) then Redact
    else Warn
  }

  /** The mode a kind should have: the strictest of the configured one and all the entries ask for
      when a built rule emits the kind, else the configured one. */
  function Strictest(policy: Policy, pairs: seq<Pair>, kind: string): Mode {
    var configured := ModeOf(policy.modes, kind);
    if kind in policy.builtTypes then Stricter(configured, Asked(policy, pairs, kind)) else configured
  }

  /** Kinds that keep their configured mode are stored as configured; of the others only the
      blocked ones are stored, since redact is the default. */
  predicate IsStored(policy: Policy, pairs: seq<Pair>, kind: string) {
    if Strictest(policy, pairs, kind) == ModeOf(policy.modes, kind) then kind in policy.modes
    else Strictest(policy, pairs, kind) == Block
  }

  /** The type-keyed modes with the entries applied. */
  function TightenedModes(policy: Policy, pairs: seq<Pair>): map<string, Mode> {
    map kind | kind in policy.modes.Keys + policy.typeByRule.Values && IsStored(policy, pairs, kind)
      :: Strictest(policy, pairs, kind)
  }

  predicate IsMoot(policy: Policy, pair: Pair) {
    GoodPair(policy, pair)
    && Strictness(PairMode(pair)) <= Strictness(ModeOf(policy.modes, policy.typeByRule[pair.rule]))
  }

  /** The entries not stricter than the configured mode, in order. */
  function MootEntries(policy: Policy, pairs: seq<Pair>): seq<Moot> {
    if pairs == [] then []
    else
      var last := pairs[|pairs| - 1];
      MootEntries(policy, pairs[..|pairs| - 1])
      + if IsMoot(policy, last) then [Moot(last, ModeOf(policy.modes, policy.typeByRule[last.rule]))] else []
  }

  // ---- one more entry ----

  lemma AskedMore(policy: Policy, pairs: seq<Pair>, pair: Pair, kind: string)
    requires GoodPair(policy, pair)
    ensures Asked(policy, pairs + [pair], kind)
      == if policy.typeByRule[pair.rule] == kind then Stricter(Asked(policy, pairs, kind), PairMode(pair))
         else Asked(policy, pairs, kind)
  {
    assert forall p :: p in pairs + [pair] <==> p in pairs || p == pair;
    forall mode
      ensures Asks(policy, pairs + [pair], kind, mode)
        <==> Asks(policy, pairs, kind, mode) || (policy.typeByRule[pair.rule] == kind && PairMode(pair) == mode)
    {
      if policy.typeByRule[pair.rule] == kind && PairMode(pair) == mode {
        assert pair in pairs + [pair];
      }
    }
  }

  /** What the entries so far have made of the configured modes; None while nothing tightens. */
  ghost predicate IsTightened(policy: Policy, pairs: seq<Pair>, tightened: Option<map<string, Mode>>) {
    var modes := if tightened.Some? then tightened.value else policy.modes;
    && (forall kind :: ModeOf(modes, kind) == Strictest(policy, pairs, kind))
    && (forall kind :: kind in modes <==> IsStored(policy, pairs, kind))
    && (tightened.Some? ==> exists kind :: ModeOf(modes, kind) != ModeOf(policy.modes, kind))
  }

  lemma NothingTightened(policy: Policy)
    ensures IsTightened(policy, [], None)
  {
    forall kind ensures Strictest(policy, [], kind) == ModeOf(policy.modes, kind) {
      assert !Asks(policy, [], kind, Block) && !Asks(policy, [], kind, Redact);
    }
  }

  /** An entry that changes nothing. */
  lemma TightenedStays(policy: Policy, pairs: seq<Pair>, pair: Pair, tightened: Option<map<string, Mode>>)
    requires IsTightened(policy, pairs, tightened) && GoodPair(policy, pair)
    requires var kind := policy.typeByRule[pair.rule];
      kind !in policy.builtTypes || Strictness(PairMode(pair)) <= Strictness(Strictest(policy, pairs, kind))
    ensures IsTightened(policy, pairs + [pair], tightened)
  {
    hide Asked, PairMode;
    forall kind
      ensures Strictest(policy, pairs + [pair], kind) == Strictest(policy, pairs, kind)
      ensures IsStored(policy, pairs + [pair], kind) == IsStored(policy, pairs, kind)
    {
      AskedMore(policy, pairs, pair, kind);
    }
  }

  /** An entry that tightens its kind. */
  lemma TightenedMore(policy: Policy, pairs: seq<Pair>, pair: Pair, tightened: Option<map<string, Mode>>,
                      next: map<string, Mode>)
    requires IsTightened(policy, pairs, tightened) && GoodPair(policy, pair)
    requires var kind := policy.typeByRule[pair.rule];
      && kind in policy.builtTypes && Strictness(PairMode(pair)) > Strictness(Strictest(policy, pairs, kind))
      && var modes := if tightened.Some? then tightened.value else policy.modes;
        next == if PairMode(pair) == Redact then modes - {kind} else modes[kind := PairMode(pair)]
    ensures IsTightened(policy, pairs + [pair], Some(next))
  {
    hide Asked;
    var modes := if tightened.Some? then tightened.value else policy.modes;
    var kind := policy.typeByRule[pair.rule];
    forall k
      ensures k == kind ==> Strictest(policy, pairs + [pair], k) == PairMode(pair)
      ensures k != kind ==> Strictest(policy, pairs + [pair], k) == Strictest(policy, pairs, k)
      ensures ModeOf(next, k) == Strictest(policy, pairs + [pair], k)
      ensures k in next <==> IsStored(policy, pairs + [pair], k)
    {
      AskedMore(policy, pairs, pair, k);
      assert ModeOf(modes, k) == Strictest(policy, pairs, k);
      assert k in modes <==> IsStored(policy, pairs, k);
    }
    assert ModeOf(next, kind) != ModeOf(policy.modes, kind);
  }

  /** A redact entry tightens only a kind that is stored, as warn: there is a key to delete. */
  lemma DeleteFindsItsKey(policy: Policy, pairs: seq<Pair>, tightened: Option<map<string, Mode>>, kind: string)
    requires IsTightened(policy, pairs, tightened)
    requires Strictness(Strictest(policy, pairs, kind)) < Strictness(Redact)
    ensures kind in if tightened.Some? then tightened.value else policy.modes
  {
    hide Strictest, IsStored;
    var modes := if tightened.Some? then tightened.value else policy.modes;
    assert ModeOf(modes, kind) == Warn;
  }

  lemma TightenedIs(policy: Policy, pairs: seq<Pair>, tightened: Option<map<string, Mode>>)
    requires IsTightened(policy, pairs, tightened)
    ensures (if tightened.Some? then tightened.value else policy.modes) == TightenedModes(policy, pairs)
    ensures tightened.None? <==> TightenedModes(policy, pairs) == policy.modes
  {
    hide Strictest;
    var modes := if tightened.Some? then tightened.value else policy.modes;
    forall kind | kind in modes ensures kind in policy.modes.Keys + policy.typeByRule.Values {
      StoredKinds(policy, pairs, kind);
    }
    assert modes.Keys == TightenedModes(policy, pairs).Keys;
    forall kind | kind in modes ensures modes[kind] == TightenedModes(policy, pairs)[kind] {
      assert ModeOf(modes, kind) == Strictest(policy, pairs, kind);
    }
  }

  lemma StoredKinds(policy: Policy, pairs: seq<Pair>, kind: string)
    requires IsStored(policy, pairs, kind)
    ensures kind in policy.modes.Keys + policy.typeByRule.Values
  {
    if kind !in policy.modes {
      assert Asks(policy, pairs, kind, Block);
      var p :| p in pairs && GoodPair(policy, p) && policy.typeByRule[p.rule] == kind && PairMode(p) == Block;
    }
  }

  /** `_tightened`: the new modes, or None when nothing tightens, and the moot entries. */
  method Tighten(policy: Policy, pairs: seq<Pair>) returns (r: Result<(Option<map<string, Mode>>, seq<Moot>)>)
    ensures r.Ok? <==> GoodPairs(policy, pairs)
    ensures r.Ok? ==>
      && IsTightened(policy, pairs, r.value.0)
      && r.value.1 == MootEntries(policy, pairs)
  {
    hide IsTightened, Strictest, Asked;
    var tightened: Option<map<string, Mode>>, moot: seq<Moot> := None, [];
    NothingTightened(policy);
    for i := 0 to |pairs|
      invariant GoodPairs(policy, pairs[..i]) && IsTightened(policy, pairs[..i], tightened)
      invariant moot == MootEntries(policy, pairs[..i])
    {
      var pair := pairs[i];
      assert pair in pairs;
      assert pairs[..i + 1] == pairs[..i] + [pair] && pairs[..i + 1][..i] == pairs[..i];
      if pair.mode != "redact" && pair.mode != "block" {
        return Failed;
      }
      if pair.rule !in policy.typeByRule {
        return Failed;
      }
      var kind, mode := policy.typeByRule[pair.rule], PairMode(pair);
      var configured := ModeOf(policy.modes, kind);
      var current := ModeOf(if tightened.Some? then tightened.value else policy.modes, kind);
      CurrentIs(policy, pairs[..i], tightened, kind);
      if Strictness(mode) <= Strictness(configured) {
        moot := moot + [Moot(pair, configured)];
        TightenedStays(policy, pairs[..i], pair, tightened);
        continue;
      }
      if kind !in policy.builtTypes || Strictness(mode) <= Strictness(current) {
        TightenedStays(policy, pairs[..i], pair, tightened);
        continue;
      }
      ghost var before := tightened;
      if tightened.None? {
        tightened := Some(policy.modes);
      }
      if mode == Redact {
        DeleteFindsItsKey(policy, pairs[..i], before, kind);
        assert kind in tightened.value;
        tightened := Some(tightened.value - {kind});
      } else {
        tightened := Some(tightened.value[kind := mode]);
      }
      TightenedMore(policy, pairs[..i], pair, before, tightened.value);
    }
    assert pairs[..|pairs|] == pairs;
    return Ok((tightened, moot));
  }

  lemma CurrentIs(policy: Policy, pairs: seq<Pair>, tightened: Option<map<string, Mode>>, kind: string)
    requires IsTightened(policy, pairs, tightened)
    ensures var modes := if tightened.Some? then tightened.value else policy.modes;
      ModeOf(modes, kind) == Strictest(policy, pairs, kind)
    ensures Strictness(ModeOf(policy.modes, kind)) <= Strictness(Strictest(policy, pairs, kind))
  {
    hide Asked, IsStored;
  }

  // ---- one build ----

  predicate GoodDeny(value: string) {
    value != "" && '«' !in value && '»' !in value
  }

  /** `dict.fromkeys`: each string once, where it first stands. */
  function Distinct(values: seq<string>): (r: seq<string>)
    ensures forall v :: v in r <==> v in values
    ensures forall i, j :: 0 <= i < j < |r| ==> r[i] != r[j]
  {
    if values == [] then []
    else
      var last := values[|values| - 1];
      var before := Distinct(values[..|values| - 1]);
      if last in before then before else before + [last]
  }

  /** The kinds whose block mode an overlay added. */
  function AddedBlocks(policy: Policy, pairs: seq<Pair>): set<string> {
    set kind | kind in policy.builtTypes && Asks(policy, pairs, kind, Block) && ModeOf(policy.modes, kind) != Block
  }

  /** What an overlay builds: None when it changes nothing. */
  function Built(policy: Policy, overlay: Overlay): Result<Option<OverlayBuild>> {
    if !GoodPairs(policy, overlay.modes) || exists v :: v in overlay.deny && !GoodDeny(v) then Failed
    else
      var modes := TightenedModes(policy, overlay.modes);
      if overlay.deny == [] && modes == policy.modes then Ok(None)
      else
        var deny := if overlay.deny == [] then None else Some(Distinct(overlay.deny));
        Ok(Some(OverlayBuild(modes, deny, AddedBlocks(policy, overlay.modes))))
  }

  /** The kinds blocked now and not as configured, as `_build` computes them. */
  function FinalBlocks(policy: Policy, modes: map<string, Mode>): set<string> {
    set kind | kind in modes && modes[kind] == Block && !(kind in policy.modes && policy.modes[kind] == Block)
  }

  lemma FinalBlocksAreAdded(policy: Policy, pairs: seq<Pair>)
    ensures FinalBlocks(policy, TightenedModes(policy, pairs)) == AddedBlocks(policy, pairs)
  {
    hide Asks;
    var modes := TightenedModes(policy, pairs);
    forall kind ensures kind in FinalBlocks(policy, modes) <==> kind in AddedBlocks(policy, pairs) {
      if kind in AddedBlocks(policy, pairs) {
        StoredKinds(policy, pairs, kind);
      }
    }
  }

  /** `_build` */
  method Make(policy: Policy, overlay: Overlay) returns (r: Result<Option<OverlayBuild>>)
    ensures r == Built(policy, overlay)
  {
    hide TightenedModes, AddedBlocks, FinalBlocks, GoodDeny, Distinct, IsTightened;
    var tight := Tighten(policy, overlay.modes);
    if tight.Failed? {
      return Failed;
    }
    for i := 0 to |overlay.deny|
      invariant forall j :: 0 <= j < i ==> GoodDeny(overlay.deny[j])
    {
      if !GoodDeny(overlay.deny[i]) {
        assert overlay.deny[i] in overlay.deny;
        return Failed;
      }
    }
    var tightened := tight.value.0;
    TightenedIs(policy, overlay.modes, tightened);
    FinalBlocksAreAdded(policy, overlay.modes);
    var modes := if tightened.Some? then tightened.value else policy.modes;
    var final := FinalBlocks(policy, modes);
    if overlay.deny == [] {
      return Ok(if tightened.None? then None else Some(OverlayBuild(modes, None, final)));
    }
    return Ok(Some(OverlayBuild(modes, Some(Distinct(overlay.deny)), final)));
  }

  // ---- the tightening is a join ----

  lemma ModeOfTightened(policy: Policy, pairs: seq<Pair>, kind: string)
    ensures ModeOf(TightenedModes(policy, pairs), kind) == Strictest(policy, pairs, kind)
    ensures kind in TightenedModes(policy, pairs) <==> IsStored(policy, pairs, kind)
  {
    hide Asked;
    if IsStored(policy, pairs, kind) {
      StoredKinds(policy, pairs, kind);
    }
  }

  /** An overlay never loosens a kind, and no mode below the given one is at least as strict as the
      configured mode and all that is asked for: the strictest is the least upper bound. */
  lemma NeverLooser(policy: Policy, pairs: seq<Pair>, kind: string)
    requires GoodPairs(policy, pairs)
    ensures var given := ModeOf(TightenedModes(policy, pairs), kind);
      && Strictness(ModeOf(policy.modes, kind)) <= Strictness(given)
      && (kind in policy.builtTypes ==>
            forall p :: p in pairs && policy.typeByRule[p.rule] == kind ==>
              Strictness(PairMode(p)) <= Strictness(given))
      && (given == ModeOf(policy.modes, kind)
          || (kind in policy.builtTypes
              && exists p :: p in pairs && policy.typeByRule[p.rule] == kind && PairMode(p) == given))
  {
    hide TightenedModes, IsStored;
    ModeOfTightened(policy, pairs, kind);
    forall p | p in pairs && policy.typeByRule[p.rule] == kind
      ensures Strictness(PairMode(p)) <= Strictness(Asked(policy, pairs, kind))
    {
      assert Asks(policy, pairs, kind, PairMode(p));
    }
  }

  /** Neither the order nor the repetition of the entries matters. */
  lemma OrderDoesNotMatter(policy: Policy, a: seq<Pair>, b: seq<Pair>)
    requires forall p :: p in a <==> p in b
    ensures TightenedModes(policy, a) == TightenedModes(policy, b) && AddedBlocks(policy, a) == AddedBlocks(policy, b)
  {
    hide TightenedModes;
    forall kind, mode ensures Asks(policy, a, kind, mode) <==> Asks(policy, b, kind, mode) {
      assert forall p :: p in a <==> p in b;
    }
    forall kind
      ensures Strictest(policy, a, kind) == Strictest(policy, b, kind)
      ensures IsStored(policy, a, kind) == IsStored(policy, b, kind)
    {
    }
    SameModes(policy, a, policy, b);
  }

  /** Equal modes follow from the mode and the storing of each kind. */
  lemma SameModes(p: Policy, a: seq<Pair>, q: Policy, b: seq<Pair>)
    requires forall kind ::
      Strictest(p, a, kind) == Strictest(q, b, kind) && IsStored(p, a, kind) == IsStored(q, b, kind)
    ensures TightenedModes(p, a) == TightenedModes(q, b)
  {
    hide Strictest, IsStored;
    var m, n := TightenedModes(p, a), TightenedModes(q, b);
    forall kind ensures kind in m <==> kind in n
      ensures kind in m ==> m[kind] == n[kind]
    {
      ModeOfTightened(p, a, kind);
      ModeOfTightened(q, b, kind);
    }
  }

  lemma AsksBoth(policy: Policy, a: seq<Pair>, b: seq<Pair>, kind: string, mode: Mode)
    ensures Asks(policy, a + b, kind, mode) <==> Asks(policy, a, kind, mode) || Asks(policy, b, kind, mode)
  {
    assert forall p :: p in a + b <==> p in a || p in b;
  }

  /** Tightening the tightened policy by more entries is tightening by all of them at once; so a
      second overlay can only add to the first, and applying one twice changes nothing. */
  lemma TightenTwice(policy: Policy, a: seq<Pair>, b: seq<Pair>)
    ensures TightenedModes(policy.(modes := TightenedModes(policy, a)), b) == TightenedModes(policy, a + b)
    ensures TightenedModes(policy.(modes := TightenedModes(policy, a)), a) == TightenedModes(policy, a)
  {
    hide TightenedModes;
    var next := policy.(modes := TightenedModes(policy, a));
    forall kind
      ensures Strictest(next, b, kind) == Strictest(policy, a + b, kind)
      ensures IsStored(next, b, kind) == IsStored(policy, a + b, kind)
    {
      TightenOnce(policy, a, b, kind);
    }
    SameModes(next, b, policy, a + b);
    forall kind
      ensures Strictest(next, a, kind) == Strictest(policy, a + a, kind)
      ensures IsStored(next, a, kind) == IsStored(policy, a + a, kind)
    {
      TightenOnce(policy, a, a, kind);
    }
    SameModes(next, a, policy, a + a);
    OrderDoesNotMatter(policy, a + a, a);
  }

  lemma TightenOnce(policy: Policy, a: seq<Pair>, b: seq<Pair>, kind: string)
    ensures var next := policy.(modes := TightenedModes(policy, a));
      && Strictest(next, b, kind) == Strictest(policy, a + b, kind)
      && IsStored(next, b, kind) == IsStored(policy, a + b, kind)
  {
    hide TightenedModes, Asks;
    var next := policy.(modes := TightenedModes(policy, a));
    ModeOfTightened(policy, a, kind);
    AsksBoth(policy, a, b, kind, Block);
    AsksBoth(policy, a, b, kind, Redact);
    SameAsks(policy, next.modes, b, kind, Block);
    SameAsks(policy, next.modes, b, kind, Redact);
  }

  lemma SameAsks(policy: Policy, modes: map<string, Mode>, pairs: seq<Pair>, kind: string, mode: Mode)
    ensures Asks(policy.(modes := modes), pairs, kind, mode) == Asks(policy, pairs, kind, mode)
  {
    assert forall p :: GoodPair(policy.(modes := modes), p) == GoodPair(policy, p);
  }
}
