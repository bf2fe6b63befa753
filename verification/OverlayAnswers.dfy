/** What the entries and strings of an overlay do, in the words they are written in
    (src/llm_redact/authorization.py). */
module OverlayAnswers {
  import opened Wrappers
  import opened Overlays
  import opened OverlayCache

  /** Some entry names a rule that emits the kind. */
  predicate Named(policy: Policy, pairs: seq<Pair>, kind: string) {
    exists p :: p in pairs && p.rule in policy.typeByRule && policy.typeByRule[p.rule] == kind
  }

  /** Some such entry says "block". */
  predicate SaysBlock(policy: Policy, pairs: seq<Pair>, kind: string) {
    exists p :: p in pairs && p.mode == "block" && p.rule in policy.typeByRule && policy.typeByRule[p.rule] == kind
  }

  lemma AsksIs(policy: Policy, pairs: seq<Pair>, kind: string)
    requires GoodPairs(policy, pairs)
    ensures Asks(policy, pairs, kind, Block) <==> SaysBlock(policy, pairs, kind)
    ensures Asks(policy, pairs, kind, Block) || Asks(policy, pairs, kind, Redact) <==> Named(policy, pairs, kind)
    ensures !Asks(policy, pairs, kind, Warn)
  {
    forall p | p in pairs ensures GoodPair(policy, p) {
    }
  }

  /** The mode a kind is given, in words: of a kind some built rule emits, block when it is configured
      so or an entry says "block", warn when it is configured so and no entry names the kind, and
      else redact; of any other, what is configured. A kind that is not configured is redacted. */
  lemma ModeGiven(policy: Policy, pairs: seq<Pair>, kind: string)
    requires GoodPairs(policy, pairs)
    ensures var given := ModeOf(TightenedModes(policy, pairs), kind);
      && (kind in policy.builtTypes ==>
            && (given == Block
                <==> (kind in policy.modes && policy.modes[kind] == Block) || SaysBlock(policy, pairs, kind))
            && (given == Warn
                <==> kind in policy.modes && policy.modes[kind] == Warn && !Named(policy, pairs, kind)))
      && (kind !in policy.builtTypes ==> given == if kind in policy.modes then policy.modes[kind] else Redact)
  {
    ModeOfTightened(policy, pairs, kind);
    AsksIs(policy, pairs, kind);
  }

  /** A kind whose mode stays is stored as it was; one that is newly blocked is stored as blocked, and
      one that is newly redacted is taken out, as redact is what a kind not stored means. */
  lemma StoredModes(policy: Policy, pairs: seq<Pair>, kind: string)
    requires GoodPairs(policy, pairs)
    ensures kind in TightenedModes(policy, pairs) && TightenedModes(policy, pairs)[kind] == Warn
      <==> && kind in policy.modes && policy.modes[kind] == Warn
           && (kind in policy.builtTypes ==> !Named(policy, pairs, kind))
    ensures kind in TightenedModes(policy, pairs) && TightenedModes(policy, pairs)[kind] == Redact
      <==> && kind in policy.modes && policy.modes[kind] == Redact
           && (kind in policy.builtTypes ==> !SaysBlock(policy, pairs, kind))
    ensures kind in TightenedModes(policy, pairs) && TightenedModes(policy, pairs)[kind] == Block
      <==> || (kind in policy.modes && policy.modes[kind] == Block)
           || (kind in policy.builtTypes && SaysBlock(policy, pairs, kind))
  {
    hide SaysBlock, Named, GoodPairs;
    ModeOfTightened(policy, pairs, kind);
    AsksIs(policy, pairs, kind);
    ModeGiven(policy, pairs, kind);
  }

  /** An entry without effect: "redact" where the kind is not configured as warn, or "block" where it
      is configured as block. */
  lemma MootMeans(policy: Policy, pair: Pair)
    requires (pair.mode == "redact" || pair.mode == "block") && pair.rule in policy.typeByRule
    ensures var kind := policy.typeByRule[pair.rule];
      IsMoot(policy, pair)
      <==> || (pair.mode == "redact" && !(kind in policy.modes && policy.modes[kind] == Warn))
           || (pair.mode == "block" && kind in policy.modes && policy.modes[kind] == Block)
  {
  }

  /** The moot entries are listed in order, each with the mode configured for its kind. */
  lemma {:induction false} MootInOrder(policy: Policy, pairs: seq<Pair>) returns (at: seq<nat>)
    ensures |at| == |MootEntries(policy, pairs)|
    ensures forall i, j :: 0 <= i < j < |at| ==> at[i] < at[j]
    ensures forall i :: 0 <= i < |at| ==>
      && at[i] < |pairs| && IsMoot(policy, pairs[at[i]])
      && MootEntries(policy, pairs)[i].pair == pairs[at[i]]
      && MootEntries(policy, pairs)[i].configured == ModeOf(policy.modes, policy.typeByRule[pairs[at[i]].rule])
    ensures forall k :: 0 <= k < |pairs| && IsMoot(policy, pairs[k]) ==> k in at
  {
    if pairs == [] {
      at := [];
    } else {
      var n := |pairs| - 1;
      at := MootInOrder(policy, pairs[..n]);
      if IsMoot(policy, pairs[n]) {
        at := at + [n];
      }
    }
  }

  /** `dict.fromkeys` keeps each string where it first stands. */
  lemma {:induction false} FirstPlaces(values: seq<string>) returns (at: seq<nat>)
    ensures |at| == |Distinct(values)|
    ensures forall i, j :: 0 <= i < j < |at| ==> at[i] < at[j]
    ensures forall i :: 0 <= i < |at| ==>
      at[i] < |values| && Distinct(values)[i] == values[at[i]] && values[at[i]] !in values[..at[i]]
  {
    if values == [] {
      at := [];
    } else {
      var n := |values| - 1;
      at := FirstPlaces(values[..n]);
      forall i | 0 <= i < |at| ensures values[..n][..at[i]] == values[..at[i]] {
      }
      if values[n] !in values[..n] {
        at := at + [n];
      }
    }
  }

  /** An entry that changes the modes: it says "block" or "redact" on a kind some built rule emits and
      configured less strictly. */
  predicate Tightens(policy: Policy, pair: Pair) {
    && pair.rule in policy.typeByRule
    && var kind := policy.typeByRule[pair.rule];
      && kind in policy.builtTypes
      && (if pair.mode == "block" then !(kind in policy.modes && policy.modes[kind] == Block)
          else kind in policy.modes && policy.modes[kind] == Warn)
  }

  lemma SameExactlyWhenNoneTightens(policy: Policy, pairs: seq<Pair>)
    requires GoodPairs(policy, pairs)
    ensures TightenedModes(policy, pairs) == policy.modes <==> forall p :: p in pairs ==> !Tightens(policy, p)
  {
    var modes := TightenedModes(policy, pairs);
    if modes == policy.modes {
      forall p | p in pairs ensures !Tightens(policy, p) {
        if Tightens(policy, p) {
          GoodOnes(policy, pairs, p);
          ModeGiven(policy, pairs, policy.typeByRule[p.rule]);
        }
      }
    }
    if forall p :: p in pairs ==> !Tightens(policy, p) {
      forall kind ensures Strictest(policy, pairs, kind) == ModeOf(policy.modes, kind) {
        NoneTightens(policy, pairs, kind);
      }
      forall kind ensures kind in modes <==> kind in policy.modes {
        ModeOfTightened(policy, pairs, kind);
      }
      assert modes == policy.modes;
    }
  }

  lemma GoodOnes(policy: Policy, pairs: seq<Pair>, p: Pair)
    requires GoodPairs(policy, pairs) && p in pairs
    ensures GoodPair(policy, p)
  {
  }

  lemma NoneTightens(policy: Policy, pairs: seq<Pair>, kind: string)
    requires GoodPairs(policy, pairs) && forall p :: p in pairs ==> !Tightens(policy, p)
    ensures Strictest(policy, pairs, kind) == ModeOf(policy.modes, kind)
  {
    hide Strictest, GoodPairs;
    ModeGiven(policy, pairs, kind);
    ModeOfTightened(policy, pairs, kind);
    if kind in policy.builtTypes {
      AsksIs(policy, pairs, kind);
      if SaysBlock(policy, pairs, kind) {
        var p :| p in pairs && p.mode == "block" && p.rule in policy.typeByRule && policy.typeByRule[p.rule] == kind;
        assert !Tightens(policy, p);
      } else if Named(policy, pairs, kind) {
        var p :| p in pairs && p.rule in policy.typeByRule && policy.typeByRule[p.rule] == kind;
        GoodOnes(policy, pairs, p);
        assert !Tightens(policy, p);
      }
    }
  }

  /** What a gate's answer builds. It is refused when it has no shape, or an entry's mode is neither
      "redact" nor "block" or its rule unknown, or a deny string is empty or holds a guillemet. It
      changes nothing when it holds no deny string and no entry tightens. Else the build holds the
      modes given, each deny string, and as final blocks the kinds that an entry blocks and the
      configuration does not. */
  lemma WhatIsBuilt(policy: Policy, overlay: Overlay)
    ensures Uncached(policy, Misshapen).Failed?
    ensures var r := Uncached(policy, Shaped(overlay));
      && (r.Failed?
          <==> || (exists p :: p in overlay.modes
                               && ((p.mode != "redact" && p.mode != "block") || p.rule !in policy.typeByRule))
               || (exists v :: v in overlay.deny && (v == "" || '«' in v || '»' in v)))
      && (r.Ok? ==>
            && (r.value.None? <==> overlay.deny == [] && forall p :: p in overlay.modes ==> !Tightens(policy, p))
            && (r.value.Some? ==>
                  var build := r.value.value;
                    && build.modes == TightenedModes(policy, overlay.modes)
                    && (build.deny.None? <==> overlay.deny == [])
                    && (build.deny.Some? ==> forall v :: v in build.deny.value <==> v in overlay.deny)
                    && forall kind ::
                         kind in build.finalBlocks
                         <==> && kind in policy.builtTypes && SaysBlock(policy, overlay.modes, kind)
                              && !(kind in policy.modes && policy.modes[kind] == Block)))
  {
    hide TightenedModes, Asks, SaysBlock, Named, Distinct, Tightens;
    FailsWhen(policy, overlay);
    if GoodPairs(policy, overlay.modes) {
      SameExactlyWhenNoneTightens(policy, overlay.modes);
      forall kind ensures Asks(policy, overlay.modes, kind, Block) <==> SaysBlock(policy, overlay.modes, kind) {
        AsksIs(policy, overlay.modes, kind);
      }
    }
  }

  lemma FailsWhen(policy: Policy, overlay: Overlay)
    ensures GoodPairs(policy, overlay.modes)
      <==> !exists p :: p in overlay.modes
                        && ((p.mode != "redact" && p.mode != "block") || p.rule !in policy.typeByRule)
    ensures (exists v :: v in overlay.deny && !GoodDeny(v))
      <==> exists v :: v in overlay.deny && (v == "" || '«' in v || '»' in v)
  {
  }

  /** What the cache keeps: an overlay that holds an entry or a deny string, and that builds. */
  lemma KeptMeans(policy: Policy, answer: Answer)
    ensures Keeps(policy, answer)
      <==> && answer.Shaped? && (answer.overlay.modes != [] || answer.overlay.deny != [])
           && Uncached(policy, answer).Ok?
  {
    hide Built;
  }
}
