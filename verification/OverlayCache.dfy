/** The bounded cache of overlay builds: `OverlayBuilds.build` of src/llm_redact/authorization.py. */
module OverlayCache {
  import opened Wrappers
  import opened Overlays

  predicate IsEmpty(overlay: Overlay) {
    overlay.modes == [] && overlay.deny == []
  }

  /** What a call answers when nothing is kept. */
  function Uncached(policy: Policy, answer: Answer): Result<Option<OverlayBuild>> {
    if answer.Misshapen? then Failed
    else if IsEmpty(answer.overlay) then Ok(None)
    else Built(policy, answer.overlay)
  }

  /** The call asks for an overlay whose build is kept. */
  predicate Keeps(policy: Policy, answer: Answer) {
    answer.Shaped? && !IsEmpty(answer.overlay) && Built(policy, answer.overlay).Ok?
  }

  datatype Entry = Entry(key: Overlay, build: Option<OverlayBuild>)

  function Keys(cache: seq<Entry>): (r: seq<Overlay>)
    ensures |r| == |cache| && forall i :: 0 <= i < |r| ==> r[i] == cache[i].key
  {
    seq(|cache|, i requires 0 <= i < |cache| => cache[i].key)
  }

  lemma KeysOfMoved(cache: seq<Entry>, i: nat)
    requires i < |cache|
    ensures Keys(cache[..i] + cache[i + 1..] + [cache[i]]) == Keys(cache)[..i] + Keys(cache)[i + 1..] + [cache[i].key]
  {
  }

  lemma KeysOfGrown(cache: seq<Entry>, e: Entry)
    ensures Keys(cache + [e]) == Keys(cache) + [e.key]
    ensures Keys((cache + [e])[1..]) == (Keys(cache) + [e.key])[1..]
  {
  }

  // ---- the order of last use ----

  function Without(s: seq<Overlay>, x: Overlay): (r: seq<Overlay>)
    ensures forall y :: y in r <==> y in s && y != x
  {
    if s == [] then []
    else if s[0] == x then Without(s[1..], x)
    else [s[0]] + Without(s[1..], x)
  }

  /** The kept overlays of some calls, each once, in the order of their last use. */
  function Recents(policy: Policy, calls: seq<Answer>): seq<Overlay> {
    if calls == [] then []
    else
      var last := calls[|calls| - 1];
      var before := Recents(policy, calls[..|calls| - 1]);
      if Keeps(policy, last) then Without(before, last.overlay) + [last.overlay] else before
  }

  function LastOf(s: seq<Overlay>, n: nat): (r: seq<Overlay>) {
    if |s| <= n then s else s[|s| - n..]
  }

  predicate NoRepeats(s: seq<Overlay>) {
    forall i, j :: 0 <= i < j < |s| ==> s[i] != s[j]
  }

  lemma {:induction false} WithoutAbsent(s: seq<Overlay>, x: Overlay)
    requires x !in s
    ensures Without(s, x) == s
  {
    if s != [] {
      WithoutAbsent(s[1..], x);
    }
  }

  lemma {:induction false} WithoutAt(a: seq<Overlay>, x: Overlay, b: seq<Overlay>)
    requires x !in a && x !in b
    ensures Without(a + [x] + b, x) == a + b
  {
    if a == [] {
      assert (a + [x] + b)[1..] == b;
      WithoutAbsent(b, x);
    } else {
      assert (a + [x] + b)[1..] == a[1..] + [x] + b;
      WithoutAt(a[1..], x, b);
    }
  }

  lemma SplitAt(s: seq<Overlay>, x: Overlay) returns (a: seq<Overlay>, b: seq<Overlay>)
    requires NoRepeats(s) && x in s
    ensures s == a + [x] + b && x !in a && x !in b
  {
    var i :| 0 <= i < |s| && s[i] == x;
    a, b := s[..i], s[i + 1..];
  }

  lemma NoRepeatsMoved(a: seq<Overlay>, x: Overlay, b: seq<Overlay>)
    requires NoRepeats(a + [x] + b)
    ensures NoRepeats(a + b + [x])
  {
    var s, t := a + [x] + b, a + b + [x];
    forall i, j | 0 <= i < j < |t| ensures t[i] != t[j] {
      var i' := if i < |a| then i else i + 1;
      var j' := if j < |a| then j else if j < |a| + |b| then j + 1 else |a|;
      assert t[i] == s[i'] && t[j] == s[j'];
    }
  }

  lemma NoRepeatsMore(s: seq<Overlay>, x: Overlay)
    requires NoRepeats(s) && x !in s
    ensures NoRepeats(s + [x])
  {
  }

  lemma {:induction false} RecentsHold(policy: Policy, calls: seq<Answer>)
    ensures NoRepeats(Recents(policy, calls))
    ensures forall o :: o in Recents(policy, calls) <==> Shaped(o) in calls && Keeps(policy, Shaped(o))
  {
    hide NoRepeats, Keeps;
    if calls == [] {
      NoneRepeated();
    } else {
      var last, rest := calls[|calls| - 1], calls[..|calls| - 1];
      assert calls == rest + [last];
      RecentsHold(policy, rest);
      var before := Recents(policy, rest);
      if Keeps(policy, last) {
        OnlyShapedKeeps(policy, last);
        var o := last.overlay;
        if o in before {
          var a, b := SplitAt(before, o);
          WithoutAt(a, o, b);
          NoRepeatsMoved(a, o, b);
        } else {
          WithoutAbsent(before, o);
          NoRepeatsMore(before, o);
        }
      }
    }
  }

  lemma NoneRepeated()
    ensures NoRepeats([])
  {
  }

  lemma OnlyShapedKeeps(policy: Policy, answer: Answer)
    requires Keeps(policy, answer)
    ensures answer.Shaped?
  {
  }

  lemma LastSplits(s: seq<Overlay>, size: nat) returns (first: seq<Overlay>)
    ensures s == first + LastOf(s, size)
    ensures |LastOf(s, size)| == size || (first == [] && |LastOf(s, size)| < size)
  {
    first := s[..|s| - |LastOf(s, size)|];
  }

  lemma LastOfSum(first: seq<Overlay>, last: seq<Overlay>, size: nat)
    requires |last| == size || (first == [] && |last| <= size)
    ensures LastOf(first + last, size) == last
  {
    assert first + last == last || (first + last)[|first|..] == last;
  }

  lemma CutAt(first: seq<Overlay>, last: seq<Overlay>, i: nat)
    requires i < |last| && NoRepeats(first + last)
    ensures first + last == (first + last[..i]) + [last[i]] + last[i + 1..]
    ensures last[i] !in first + last[..i] && last[i] !in last[i + 1..]
  {
    var s := first + last;
    assert s[|first| + i] == last[i];
    assert s[..|first| + i] == first + last[..i];
    assert s[|first| + i + 1..] == last[i + 1..];
  }

  lemma Regroup(a: seq<Overlay>, b: seq<Overlay>, c: seq<Overlay>, d: seq<Overlay>)
    ensures a + b + c + d == a + (b + c + d) == a + (b + c) + d
  {
  }

  /** A kept overlay found among the most recent moves to their end. */
  lemma RecentsAfterHit(s: seq<Overlay>, size: nat, o: Overlay, i: nat)
    requires NoRepeats(s) && i < |LastOf(s, size)| && LastOf(s, size)[i] == o
    ensures var last := LastOf(s, size);
      LastOf(Without(s, o) + [o], size) == last[..i] + last[i + 1..] + [o]
  {
    hide *;
    var last := LastOf(s, size);
    var first := LastSplits(s, size);
    CutAt(first, last, i);
    WithoutAt(first + last[..i], o, last[i + 1..]);
    Regroup(first, last[..i], last[i + 1..], [o]);
    LastOfSum(first, last[..i] + last[i + 1..] + [o], size);
  }

  /** A kept overlay not among the most recent pushes the oldest of them out when they are full. */
  lemma RecentsAfterMiss(s: seq<Overlay>, size: nat, o: Overlay)
    requires NoRepeats(s) && o !in LastOf(s, size)
    ensures var grown := LastOf(s, size) + [o];
      LastOf(Without(s, o) + [o], size) == if |grown| > size then grown[1..] else grown
  {
    hide *;
    var last := LastOf(s, size);
    var first := LastSplits(s, size);
    var first' := WithoutInFirst(first, last, o);
    Regroup(first', [], last, [o]);
    assert [] + last == last;
    GrownLast(first', last + [o], size);
  }

  lemma WithoutInFirst(first: seq<Overlay>, last: seq<Overlay>, o: Overlay) returns (first': seq<Overlay>)
    requires NoRepeats(first + last) && o !in last
    ensures Without(first + last, o) == first' + last && (first == [] ==> first' == [])
  {
    hide *;
    if o in first {
      var a, b := SplitAt(first + last, o);
      var i := |a|;
      OneInFirst(a, b, first, last, o);
      WithoutAt(a, o, b);
      first' := a + first[i + 1..];
      assert a + (first[i + 1..] + last) == first' + last;
    } else {
      WithoutAbsent(first + last, o);
      first' := first;
    }
  }

  lemma OneInFirst(a: seq<Overlay>, b: seq<Overlay>, first: seq<Overlay>, last: seq<Overlay>, o: Overlay)
    requires first + last == a + [o] + b && o !in last
    ensures |a| < |first| && b == first[|a| + 1..] + last
  {
    assert (a + [o] + b)[|a|] == o;
    assert (first + last)[|a| + 1..] == b;
  }

  lemma GrownLast(first: seq<Overlay>, grown: seq<Overlay>, size: nat)
    requires |grown| == size + 1 || (first == [] && |grown| <= size)
    ensures LastOf(first + grown, size) == if |grown| > size then grown[1..] else grown
  {
    hide LastOf;
    if |grown| > size {
      assert first + grown == (first + grown[..1]) + grown[1..];
      LastOfSum(first + grown[..1], grown[1..], size);
    } else {
      LastOfSum(first, grown, size);
    }
  }

  lemma RecentsMore(policy: Policy, calls: seq<Answer>, call: Answer)
    ensures Recents(policy, calls + [call])
      == if Keeps(policy, call) then Without(Recents(policy, calls), call.overlay) + [call.overlay]
         else Recents(policy, calls)
  {
    hide Keeps;
    assert (calls + [call])[..|calls|] == calls;
    if Keeps(policy, call) {
      OnlyShapedKeeps(policy, call);
    }
  }

  // ---- the cache ----

  /** One of the rules emits the kind. */
  predicate Emits(typeByRule: map<string, string>, rules: set<string>, kind: string) {
    exists rule :: rule in rules && rule in typeByRule && typeByRule[rule] == kind
  }

  class OverlayBuilds {
    const policy: Policy
    const size: nat
    /** `_cache`, an ordered dictionary: the least recently used entry first. */
    var cache: seq<Entry>
    /** Every call so far. */
    ghost var history: seq<Answer>

    /** Each kept build is the uncached one, and the cache holds the most recently used overlays. */
    ghost predicate Valid()
      reads this
    {
      && (forall e :: e in cache ==> Uncached(policy, Shaped(e.key)) == Ok(e.build))
      && Keys(cache) == LastOf(Recents(policy, history), size)
    }

    /** `__init__`: the types of all rules, and of the rules that are built. */
    constructor (modes: map<string, Mode>, builtinTypes: map<string, string>, customTypes: map<string, string>,
                 activeRules: set<string>, size: nat)
      requires activeRules <= (builtinTypes + customTypes).Keys
      ensures Valid() && history == [] && this.size == size && policy.modes == modes
      ensures forall rule :: rule in policy.typeByRule <==> rule in builtinTypes || rule in customTypes
      ensures forall rule :: rule in customTypes ==> policy.typeByRule[rule] == customTypes[rule]
      ensures forall rule :: rule in builtinTypes && rule !in customTypes ==>
        policy.typeByRule[rule] == builtinTypes[rule]
      ensures forall kind :: kind in policy.builtTypes <==>
        Emits(policy.typeByRule, activeRules + customTypes.Keys, kind)
    {
      var typeByRule := builtinTypes + customTypes;
      policy := Policy(modes, typeByRule, (set rule | rule in activeRules :: typeByRule[rule]) + customTypes.Values);
      this.size := size;
      cache := [];
      history := [];
      new;
      assert Recents(policy, []) == [];
    }

    /** `build` */
    method Build(answer: Answer) returns (r: Result<Option<OverlayBuild>>)
      requires Valid()
      modifies this
      ensures Valid() && history == old(history) + [answer]
      ensures r == Uncached(policy, answer)
      ensures !Keeps(policy, answer) ==> cache == old(cache)
    {
      hide Built, Recents, LastOf, Without, NoRepeats;
      history := history + [answer];
      RecentsMore(policy, old(history), answer);
      if answer.Misshapen? {
        return Failed;
      }
      var overlay := answer.overlay;
      if IsEmpty(overlay) {
        return Ok(None);
      }
      RecentsHold(policy, old(history));
      var i := Find(overlay);
      if i < |cache| {
        assert cache[i] in cache;
        RecentsAfterHit(Recents(policy, old(history)), size, overlay, i);
        var entry := cache[i];
        KeysOfMoved(cache, i);
        cache := cache[..i] + cache[i + 1..] + [entry];
        return Ok(entry.build);
      }
      var built := Make(policy, overlay);
      if built.Failed? {
        return Failed;
      }
      RecentsAfterMiss(Recents(policy, old(history)), size, overlay);
      KeysOfGrown(cache, Entry(overlay, built.value));
      cache := cache + [Entry(overlay, built.value)];
      if |cache| > size {
        cache := cache[1..];
      }
      return built;
    }

    /** `checked in self._cache`: where the key is, or the length of the cache. */
    method Find(key: Overlay) returns (i: nat)
      ensures i <= |cache| && (i < |cache| ==> cache[i].key == key)
      ensures i == |cache| ==> key !in Keys(cache)
    {
      for k := 0 to |cache|
        invariant forall j :: 0 <= j < k ==> cache[j].key != key
      {
        if cache[k].key == key {
          return k;
        }
      }
      return |cache|;
    }
  }

  /** A run of calls: every answer is the uncached one, whatever was kept or dropped before. */
  method BuildAll(builds: OverlayBuilds, answers: seq<Answer>) returns (r: seq<Result<Option<OverlayBuild>>>)
    requires builds.Valid()
    modifies builds
    ensures builds.Valid() && builds.history == old(builds.history) + answers
    ensures |r| == |answers| && forall i :: 0 <= i < |r| ==> r[i] == Uncached(builds.policy, answers[i])
  {
    hide Uncached, Recents, LastOf;
    r := [];
    for i := 0 to |answers|
      invariant builds.Valid() && builds.history == old(builds.history) + answers[..i]
      invariant |r| == i && forall j :: 0 <= j < i ==> r[j] == Uncached(builds.policy, answers[j])
    {
      var build := builds.Build(answers[i]);
      r := r + [build];
      assert answers[..i + 1] == answers[..i] + [answers[i]];
    }
    assert answers[..|answers|] == answers;
  }

  // ---- what the cache holds ----

  /** The calls after the last one for an overlay. */
  function Since(calls: seq<Answer>, o: Overlay): (r: seq<Answer>) {
    if calls == [] || calls[|calls| - 1] == Shaped(o) then []
    else Since(calls[..|calls| - 1], o) + [calls[|calls| - 1]]
  }

  /** The distinct kept overlays used since an overlay was last used. */
  function UsedSince(policy: Policy, calls: seq<Answer>, o: Overlay): set<Overlay> {
    set c | c in Since(calls, o) && Keeps(policy, c) :: c.overlay
  }

  function Elements(s: seq<Overlay>): set<Overlay> {
    set x | x in s
  }

  lemma {:induction false} DistinctCount(s: seq<Overlay>)
    requires NoRepeats(s)
    ensures |Elements(s)| == |s|
  {
    if s != [] {
      DistinctCount(s[1..]);
      assert s == [s[0]] + s[1..];
      assert Elements(s) == {s[0]} + Elements(s[1..]);
      assert s[0] !in s[1..];
    }
  }

  lemma UsedSinceMore(policy: Policy, calls: seq<Answer>, call: Answer, o: Overlay)
    ensures UsedSince(policy, calls + [call], o)
      == if call == Shaped(o) then {}
         else if Keeps(policy, call) then UsedSince(policy, calls, o) + {call.overlay}
         else UsedSince(policy, calls, o)
  {
    hide Keeps;
    assert (calls + [call])[..|calls|] == calls;
    if Keeps(policy, call) {
      OnlyShapedKeeps(policy, call);
    }
    if call != Shaped(o) {
      assert forall c :: c in Since(calls + [call], o) <==> c in Since(calls, o) || c == call;
    }
  }

  /** What stands after an overlay in the order of last use is what was used since. */
  lemma {:induction false} RecentsAreUsedSince(policy: Policy, calls: seq<Answer>, o: Overlay, a: seq<Overlay>,
                                               b: seq<Overlay>)
    requires Recents(policy, calls) == a + [o] + b
    ensures Elements(b) == UsedSince(policy, calls, o)
    decreases |calls|
  {
    hide Keeps, NoRepeats, Without, UsedSince;
    var last, rest := calls[|calls| - 1], calls[..|calls| - 1];
    assert calls == rest + [last];
    var before := Recents(policy, rest);
    UsedSinceMore(policy, rest, last, o);
    RecentsHold(policy, calls);
    RecentsHold(policy, rest);
    if Keeps(policy, last) {
      OnlyShapedKeeps(policy, last);
      LastOfThree(a, o, b, Without(before, last.overlay), last.overlay);
      if last.overlay == o {
        EndIsUnique(a, o, b);
      } else {
        var a', b' := SplitAt(before, o);
        WithoutAround(a', o, b', last.overlay);
        var b'' := Without(b', last.overlay) + [last.overlay];
        assert a + [o] + b == Without(a', last.overlay) + [o] + b'';
        SplitIsUnique(a, b, Without(a', last.overlay), b'', o);
        RecentsAreUsedSince(policy, rest, o, a', b');
        assert Elements(b) == Elements(b') + {last.overlay};
      }
    } else {
      assert last == Shaped(o) ==> o in a + [o] + b;
      RecentsAreUsedSince(policy, rest, o, a, b);
    }
  }

  lemma LastOfThree(a: seq<Overlay>, o: Overlay, b: seq<Overlay>, s: seq<Overlay>, last: Overlay)
    requires a + [o] + b == s + [last]
    ensures (a + [o] + b)[|a| + |b|] == last && (last != o ==> o in s)
  {
    if last != o {
      assert (a + [o] + b)[|a|] == o;
      assert (s + [last])[|a|] == o;
    }
  }

  lemma EndIsUnique(a: seq<Overlay>, o: Overlay, b: seq<Overlay>)
    requires NoRepeats(a + [o] + b) && (a + [o] + b)[|a| + |b|] == o
    ensures b == []
  {
    assert (a + [o] + b)[|a|] == o;
  }

  lemma {:induction false} WithoutAround(a: seq<Overlay>, o: Overlay, b: seq<Overlay>, x: Overlay)
    requires o != x
    ensures Without(a + [o] + b, x) == Without(a, x) + [o] + Without(b, x)
  {
    if a == [] {
      assert (a + [o] + b)[1..] == b;
    } else {
      assert (a + [o] + b)[1..] == a[1..] + [o] + b;
      WithoutAround(a[1..], o, b, x);
    }
  }

  lemma SplitIsUnique(a: seq<Overlay>, b: seq<Overlay>, a': seq<Overlay>, b': seq<Overlay>, o: Overlay)
    requires a + [o] + b == a' + [o] + b' && NoRepeats(a + [o] + b)
    ensures a == a' && b == b'
  {
    var s := a + [o] + b;
    assert s[|a|] == o && (a' + [o] + b')[|a'|] == o;
    assert a == s[..|a|] && a' == (a' + [o] + b')[..|a'|];
    assert b == s[|a| + 1..] && b' == (a' + [o] + b')[|a'| + 1..];
  }

  /** After any run the cache holds exactly the overlays that were asked for, are not empty, do
      build, and since whose last use fewer than `size` others of that kind were used. */
  lemma CacheHoldsTheMostRecent(policy: Policy, calls: seq<Answer>, size: nat, o: Overlay)
    ensures o in LastOf(Recents(policy, calls), size)
      <==> Shaped(o) in calls && Keeps(policy, Shaped(o)) && |UsedSince(policy, calls, o)| < size
    ensures |LastOf(Recents(policy, calls), size)| <= size
  {
    hide *;
    var s := Recents(policy, calls);
    RecentsHold(policy, calls);
    var first := LastSplits(s, size);
    if o in s {
      var a, b := SplitAt(s, o);
      RecentsAreUsedSince(policy, calls, o, a, b);
      NoRepeatsAfter(a + [o], b);
      DistinctCount(b);
      InLast(a, o, b, size);
    }
  }

  lemma NoRepeatsAfter(a: seq<Overlay>, b: seq<Overlay>)
    requires NoRepeats(a + b)
    ensures NoRepeats(b)
  {
    assert forall i | 0 <= i < |b| :: b[i] == (a + b)[|a| + i];
  }

  lemma InLast(a: seq<Overlay>, o: Overlay, b: seq<Overlay>, size: nat)
    requires o !in a && o !in b
    ensures o in LastOf(a + [o] + b, size) <==> |b| < size
  {
    var s := a + [o] + b;
    if |b| < size {
      var k := if |s| <= size then |a| else |a| - (|s| - size);
      assert LastOf(s, size)[k] == o;
    } else {
      assert LastOf(s, size) == b[|b| - size..];
    }
  }
}
