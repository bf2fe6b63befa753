/** Propagating tagged values to their repeats: `_occurrences`, `_types`, `_propagate` and
    `untagged_repeats` of scripts/pii_corpus/grounding.py. `alnum` stands for str.isalnum. */
module Propagation {
  import opened Wrappers

  datatype Span = Span(start: int, end: int, kind: string)

  /** A place in the text: [start, end). */
  datatype Place = Place(start: int, end: int)

  datatype Tag = Tag(value: string, kind: string)

  // ---- places and spans ----

  predicate InText(text: string, spans: seq<Span>) {
    forall s :: s in spans ==> 0 <= s.start < s.end <= |text|
  }

  predicate Apart(a: Span, b: Span) {
    a.end <= b.start || b.end <= a.start
  }

  predicate Disjoint(spans: seq<Span>) {
    forall i, j :: 0 <= i < j < |spans| ==> Apart(spans[i], spans[j])
  }

  /** `_overlaps` */
  predicate Overlaps(p: Place, spans: seq<Span>) {
    exists i :: 0 <= i < |spans| && p.start < spans[i].end && spans[i].start < p.end
  }

  /** `_inside` */
  predicate Inside(p: Place, spans: seq<Span>) {
    exists i :: 0 <= i < |spans| && spans[i].start <= p.start && p.end <= spans[i].end
  }

  function ValueAt(text: string, s: Span): string
    requires 0 <= s.start <= s.end <= |text|
  {
    text[s.start..s.end]
  }

  // ---- occurrences ----

  /** `whole_token`: no letter, digit or underscore on either side. */
  predicate WholeToken(alnum: char -> bool, text: string, p: Place)
    requires 0 <= p.start <= p.end <= |text|
  {
    var before := if p.start > 0 then text[p.start - 1] else ' ';
    var after := if p.end < |text| then text[p.end] else ' ';
    !(alnum(before) || before == '_' || alnum(after) || after == '_')
  }

  predicate OccursAt(text: string, value: string, i: int) {
    0 <= i && i + |value| <= |text| && text[i..i + |value|] == value
  }

  /** `text.find(value, from)` */
  function Find(text: string, value: string, from: nat): (i: int)
    ensures i == -1 || (from <= i && OccursAt(text, value, i))
    decreases |text| - from
  {
    if from + |value| > |text| then -1
    else if OccursAt(text, value, from) then from
    else Find(text, value, from + 1)
  }

  /** The whole-token occurrences `_occurrences` yields from a position on: each search starts at
      the end of the occurrence before, whole token or not. */
  function Occurrences(alnum: char -> bool, text: string, value: string, from: nat): seq<Place>
    requires value != ""
    decreases |text| + 1 - from
  {
    var i := Find(text, value, from);
    if i == -1 then []
    else
      var p := Place(i, i + |value|);
      (if WholeToken(alnum, text, p) then [p] else []) + Occurrences(alnum, text, value, p.end)
  }

  lemma OccurrencesStep(alnum: char -> bool, text: string, value: string, from: nat, before: seq<Place>)
    requires value != ""
    ensures var i := Find(text, value, from);
      before + Occurrences(alnum, text, value, from)
      == if i == -1 then before
         else (if WholeToken(alnum, text, Place(i, i + |value|)) then before + [Place(i, i + |value|)] else before)
              + Occurrences(alnum, text, value, i + |value|)
  {
    hide WholeToken, Find, OccursAt;
    var i := Find(text, value, from);
    if i == -1 {
      assert before + [] == before;
    } else {
      var p, rest := Place(i, i + |value|), Occurrences(alnum, text, value, i + |value|);
      assert before + ([p] + rest) == before + [p] + rest && before + ([] + rest) == before + rest;
    }
  }

  /** A whole-token occurrence of the value. */
  predicate IsRepeat(alnum: char -> bool, text: string, value: string, p: Place) {
    OccursAt(text, value, p.start) && p.end == p.start + |value| && WholeToken(alnum, text, p)
  }

  lemma {:induction false} OccurrencesAreRepeats(alnum: char -> bool, text: string, value: string, from: nat)
    requires value != ""
    ensures forall p :: p in Occurrences(alnum, text, value, from) ==>
      from <= p.start && IsRepeat(alnum, text, value, p)
    decreases |text| + 1 - from
  {
    hide WholeToken, Find;
    var i := Find(text, value, from);
    if i != -1 {
      OccurrencesAreRepeats(alnum, text, value, i + |value|);
    }
  }

  lemma {:induction false} FindIsFirst(text: string, value: string, from: nat)
    ensures var i := Find(text, value, from);
      forall j :: from <= j && (i == -1 || j < i) ==> !OccursAt(text, value, j)
    decreases |text| - from
  {
    if from + |value| <= |text| && !OccursAt(text, value, from) {
      FindIsFirst(text, value, from + 1);
    }
  }

  /** `_occurrences`, with the places it yields gathered in a list. */
  method FindOccurrences(alnum: char -> bool, text: string, value: string) returns (r: seq<Place>)
    requires value != ""
    ensures r == Occurrences(alnum, text, value, 0)
  {
    hide Occurrences, WholeToken, Find;
    r := [];
    var start := Find(text, value, 0);
    ghost var from := 0;
    assert [] + Occurrences(alnum, text, value, 0) == Occurrences(alnum, text, value, 0);
    while start != -1
      invariant from <= |text| && start == Find(text, value, from)
      invariant Occurrences(alnum, text, value, 0) == r + Occurrences(alnum, text, value, from)
      decreases |text| - from
    {
      OccurrencesStep(alnum, text, value, from, r);
      var end := start + |value|;
      if WholeToken(alnum, text, Place(start, end)) {
        r := r + [Place(start, end)];
      }
      start := Find(text, value, end);
      from := end;
    }
    OccurrencesStep(alnum, text, value, from, r);
  }

  // ---- the type of each tagged value ----

  /** The kind a value has among the tags, as a dictionary lookup. */
  function KindOf(tags: seq<Tag>, value: string): Option<string> {
    if tags == [] then None
    else if tags[0].value == value then Some(tags[0].kind)
    else KindOf(tags[1..], value)
  }

  /** `_types` from some tags on; None is TWO_TYPES. */
  function TypesFrom(text: string, spans: seq<Span>, tags: seq<Tag>): Option<seq<Tag>>
    requires InText(text, spans)
    decreases |spans|
  {
    if spans == [] then Some(tags)
    else
      var value := ValueAt(text, spans[0]);
      var kind := KindOf(tags, value);
      if kind.None? then TypesFrom(text, spans[1..], tags + [Tag(value, spans[0].kind)])
      else if kind.value != spans[0].kind then None
      else TypesFrom(text, spans[1..], tags)
  }

  /** `_types` */
  method FindTypes(text: string, spans: seq<Span>) returns (r: Option<seq<Tag>>)
    requires InText(text, spans)
    ensures r == TypesFrom(text, spans, [])
  {
    var tags: seq<Tag> := [];
    for i := 0 to |spans|
      invariant TypesFrom(text, spans, []) == TypesFrom(text, spans[i..], tags)
    {
      assert spans[i..][1..] == spans[i + 1..];
      var value := ValueAt(text, spans[i]);
      var kind := KindOf(tags, value);
      if kind.None? {
        tags := tags + [Tag(value, spans[i].kind)];
      } else if kind.value != spans[i].kind {
        return None;
      }
    }
    return Some(tags);
  }

  // ---- the propagation ----

  /** `sorted(..., key=lambda item: -len(item[0]))`: stable, longer values first. */
  function LongerFirst(tags: seq<Tag>): (r: seq<Tag>)
    ensures forall t :: t in r <==> t in tags
  {
    if tags == [] then [] else InsertTag(tags[0], LongerFirst(tags[1..]))
  }

  function InsertTag(t: Tag, sorted: seq<Tag>): (r: seq<Tag>)
    ensures forall x :: x in r <==> x == t || x in sorted
  {
    if sorted == [] || |t.value| >= |sorted[0].value| then [t] + sorted
    else [sorted[0]] + InsertTag(t, sorted[1..])
  }

  predicate Before(a: Span, b: Span) {
    a.start < b.start || (a.start == b.start && a.end <= b.end)
  }

  /** `sorted(..., key=lambda s: (s.start, s.end))` */
  function SortSpans(spans: seq<Span>): (r: seq<Span>)
    ensures |r| == |spans|
    ensures forall s :: s in r <==> s in spans
  {
    if spans == [] then [] else InsertSpan(spans[0], SortSpans(spans[1..]))
  }

  function InsertSpan(s: Span, sorted: seq<Span>): (r: seq<Span>)
    ensures |r| == |sorted| + 1
    ensures forall x :: x in r <==> x == s || x in sorted
  {
    if sorted == [] || Before(s, sorted[0]) then [s] + sorted else [sorted[0]] + InsertSpan(s, sorted[1..])
  }

  /** The spans after the places of one value: None is CONFLICT. */
  function Cover(covered: seq<Span>, places: seq<Place>, kind: string): (r: Option<seq<Span>>)
    ensures r.Some? ==> covered <= r.value
    decreases |places|
  {
    if places == [] then Some(covered)
    else if Inside(places[0], covered) then Cover(covered, places[1..], kind)
    else if Overlaps(places[0], covered) then None
    else Cover(covered + [Span(places[0].start, places[0].end, kind)], places[1..], kind)
  }

  /** The spans after the occurrences of each tagged value in turn. */
  function CoverAll(alnum: char -> bool, text: string, covered: seq<Span>, tags: seq<Tag>): (r: Option<seq<Span>>)
    requires forall t :: t in tags ==> t.value != ""
    ensures r.Some? ==> covered <= r.value
    decreases |tags|
  {
    if tags == [] then Some(covered)
    else
      var next := Cover(covered, Occurrences(alnum, text, tags[0].value, 0), tags[0].kind);
      if next.None? then None else CoverAll(alnum, text, next.value, tags[1..])
  }

  /** `_propagate`: the sorted spans and how many were added, or None for CONFLICT. */
  method Propagate(alnum: char -> bool, text: string, spans: seq<Span>, tags: seq<Tag>)
    returns (r: Option<(seq<Span>, nat)>)
    requires forall t :: t in tags ==> t.value != ""
    ensures r == Propagated(alnum, text, spans, tags)
  {
    hide Cover, Occurrences, LongerFirst;
    var added: seq<Span> := [];
    var order := LongerFirst(tags);
    assert spans + [] == spans;
    for i := 0 to |order|
      invariant CoverAll(alnum, text, spans, order) == CoverAll(alnum, text, spans + added, order[i..])
    {
      assert order[i..][1..] == order[i + 1..];
      var ok;
      ok, added := AddOccurrences(alnum, text, spans, added, order[i]);
      if !ok {
        return None;
      }
    }
    return Some((SortSpans(spans + added), |added|));
  }

  /** The inner loop of `_propagate`. */
  method AddOccurrences(alnum: char -> bool, text: string, spans: seq<Span>, added0: seq<Span>, tag: Tag)
    returns (ok: bool, added: seq<Span>)
    requires tag.value != ""
    ensures var r := Cover(spans + added0, Occurrences(alnum, text, tag.value, 0), tag.kind);
      ok == r.Some? && (ok ==> r.value == spans + added)
  {
    hide Inside, Overlaps, Occurrences;
    added := added0;
    var places := FindOccurrences(alnum, text, tag.value);
    for i := 0 to |places|
      invariant Cover(spans + added0, places, tag.kind) == Cover(spans + added, places[i..], tag.kind)
    {
      var p := places[i];
      assert places[i..][0] == p && places[i..][1..] == places[i + 1..];
      var covered := spans + added;
      if Inside(p, covered) {
        continue;
      }
      if Overlaps(p, covered) {
        return false, added;
      }
      added := added + [Span(p.start, p.end, tag.kind)];
      assert spans + added == covered + [Span(p.start, p.end, tag.kind)];
    }
    ok := true;
  }

  function Propagated(alnum: char -> bool, text: string, spans: seq<Span>, tags: seq<Tag>): Option<(seq<Span>, nat)>
    requires forall t :: t in tags ==> t.value != ""
  {
    var covered := CoverAll(alnum, text, spans, LongerFirst(tags));
    if covered.None? then None
    else Some((SortSpans(covered.value), |covered.value| - |spans|))
  }

  // ---- what one value's places do to the spans ----

  lemma OverlapsMeans(p: Place, spans: seq<Span>, kind: string)
    requires !Overlaps(p, spans) && Disjoint(spans)
    ensures Disjoint(spans + [Span(p.start, p.end, kind)])
  {
    var s := Span(p.start, p.end, kind);
    forall i, j | 0 <= i < j < |spans + [s]| ensures Apart((spans + [s])[i], (spans + [s])[j]) {
    }
  }

  lemma InsideMore(p: Place, a: seq<Span>, b: seq<Span>)
    requires Inside(p, a) && forall s :: s in a ==> s in b
    ensures Inside(p, b)
  {
    var i :| 0 <= i < |a| && a[i].start <= p.start && p.end <= a[i].end;
    assert a[i] in b;
    var j :| 0 <= j < |b| && b[j] == a[i];
  }

  lemma InsideAppended(p: Place, spans: seq<Span>, kind: string)
    ensures Inside(p, spans + [Span(p.start, p.end, kind)])
  {
    assert (spans + [Span(p.start, p.end, kind)])[|spans|] == Span(p.start, p.end, kind);
  }

  /** On success every place is inside a span, spans stay apart, and each new span is a place. */
  lemma {:induction false} CoverHolds(covered: seq<Span>, places: seq<Place>, kind: string)
    requires Disjoint(covered) && Cover(covered, places, kind).Some?
    ensures var r := Cover(covered, places, kind).value;
      && Disjoint(r)
      && (forall p :: p in places ==> Inside(p, r))
      && (forall s :: s in r ==> s in covered || (s.kind == kind && Place(s.start, s.end) in places))
    decreases |places|
  {
    hide Inside, Overlaps, Disjoint;
    if places != [] {
      var p := places[0];
      var r := Cover(covered, places, kind).value;
      var next := if Inside(p, covered) then covered else covered + [Span(p.start, p.end, kind)];
      if !Inside(p, covered) {
        OverlapsMeans(p, covered, kind);
        InsideAppended(p, covered, kind);
      }
      CoverHolds(next, places[1..], kind);
      InsideMore(p, next, r);
      assert forall q :: q in places <==> q == p || q in places[1..];
    }
  }

  /** A conflict is a place that overlaps a span without lying inside one; the span was there, or
      is a place of the same value. */
  lemma {:induction false} CoverConflict(covered: seq<Span>, places: seq<Place>, kind: string)
    returns (p: Place, s: Span)
    requires Cover(covered, places, kind).None?
    ensures p in places && p.start < s.end && s.start < p.end && !(s.start <= p.start && p.end <= s.end)
    ensures s in covered || Place(s.start, s.end) in places
    decreases |places|
  {
    var q := places[0];
    if !Inside(q, covered) && Overlaps(q, covered) {
      var i :| 0 <= i < |covered| && q.start < covered[i].end && covered[i].start < q.end;
      p, s := q, covered[i];
    } else {
      var next := if Inside(q, covered) then covered else covered + [Span(q.start, q.end, kind)];
      p, s := CoverConflict(next, places[1..], kind);
    }
  }

  // ---- all values ----

  /** The place is one that the scan of some tag yields. */
  ghost predicate Scanned(alnum: char -> bool, text: string, tags: seq<Tag>, p: Place)
    requires forall t :: t in tags ==> t.value != ""
  {
    exists t :: t in tags && p in Occurrences(alnum, text, t.value, 0)
  }

  ghost predicate ScannedWith(alnum: char -> bool, text: string, tags: seq<Tag>, s: Span)
    requires forall t :: t in tags ==> t.value != ""
  {
    exists t :: t in tags && t.kind == s.kind && Place(s.start, s.end) in Occurrences(alnum, text, t.value, 0)
  }

  lemma {:induction false} CoverAllHolds(alnum: char -> bool, text: string, covered: seq<Span>, tags: seq<Tag>)
    requires forall t :: t in tags ==> t.value != ""
    requires Disjoint(covered) && CoverAll(alnum, text, covered, tags).Some?
    ensures var r := CoverAll(alnum, text, covered, tags).value;
      && Disjoint(r)
      && (forall p :: Scanned(alnum, text, tags, p) ==> Inside(p, r))
      && (forall s :: s in r ==> s in covered || ScannedWith(alnum, text, tags, s))
    decreases |tags|
  {
    hide Inside, Disjoint, Occurrences, Cover;
    if tags != [] {
      var places := Occurrences(alnum, text, tags[0].value, 0);
      var next := Cover(covered, places, tags[0].kind).value;
      var r := CoverAll(alnum, text, covered, tags).value;
      CoverHolds(covered, places, tags[0].kind);
      CoverAllHolds(alnum, text, next, tags[1..]);
      forall p | Scanned(alnum, text, tags, p) ensures Inside(p, r) {
        var t :| t in tags && p in Occurrences(alnum, text, t.value, 0);
        if t == tags[0] {
          InsideMore(p, next, r);
        } else {
          assert t in tags[1..];
          assert Scanned(alnum, text, tags[1..], p);
        }
      }
      forall s | s in r ensures s in covered || ScannedWith(alnum, text, tags, s) {
        if s !in covered && s !in next {
          assert ScannedWith(alnum, text, tags[1..], s);
          var t :| t in tags[1..] && t.kind == s.kind && Place(s.start, s.end) in Occurrences(alnum, text, t.value, 0);
          assert t in tags;
        }
      }
    }
  }

  predicate Descending(tags: seq<Tag>) {
    forall i, j :: 0 <= i < j < |tags| ==> |tags[i].value| >= |tags[j].value|
  }

  lemma {:induction false} InsertKeepsDescending(t: Tag, sorted: seq<Tag>)
    requires Descending(sorted)
    ensures Descending(InsertTag(t, sorted))
  {
    if sorted != [] && |t.value| < |sorted[0].value| {
      InsertKeepsDescending(t, sorted[1..]);
      var rest := InsertTag(t, sorted[1..]);
      forall j | 0 <= j < |rest| ensures |rest[j].value| <= |sorted[0].value| {
        assert rest[j] in rest;
      }
    }
  }

  lemma {:induction false} LongerFirstIsDescending(tags: seq<Tag>)
    ensures Descending(LongerFirst(tags))
  {
    if tags != [] {
      LongerFirstIsDescending(tags[1..]);
      InsertKeepsDescending(tags[0], LongerFirst(tags[1..]));
    }
  }

  /** s lies inside the place p. */
  predicate Within(s: Span, p: Place) {
    p.start <= s.start && s.end <= p.end
  }

  lemma {:induction false} AddedAreLongest(alnum: char -> bool, text: string, covered: seq<Span>, tags: seq<Tag>)
    requires forall t :: t in tags ==> t.value != ""
    requires Descending(tags) && Disjoint(covered) && CoverAll(alnum, text, covered, tags).Some?
    ensures var r := CoverAll(alnum, text, covered, tags).value;
      forall s, p :: s in r && s !in covered && Scanned(alnum, text, tags, p) && Within(s, p) ==>
        p == Place(s.start, s.end)
    decreases |tags|
  {
    hide Disjoint, Occurrences, Cover;
    if tags != [] {
      var places := Occurrences(alnum, text, tags[0].value, 0);
      var next := Cover(covered, places, tags[0].kind).value;
      var r := CoverAll(alnum, text, covered, tags).value;
      CoverHolds(covered, places, tags[0].kind);
      CoverAllHolds(alnum, text, next, tags[1..]);
      AddedAreLongest(alnum, text, next, tags[1..]);
      forall s, p | s in r && s !in covered && Scanned(alnum, text, tags, p) && Within(s, p)
        ensures p == Place(s.start, s.end)
      {
        var t :| t in tags && p in Occurrences(alnum, text, t.value, 0);
        PlaceLength(alnum, text, t.value, p);
        if s in next {
          PlaceLength(alnum, text, tags[0].value, Place(s.start, s.end));
          var i :| 0 <= i < |tags| && tags[i] == t;
          assert |tags[0].value| >= |t.value|;
        } else {
          var u :| u in tags[1..] && u.kind == s.kind && Place(s.start, s.end) in Occurrences(alnum, text, u.value, 0);
          PlaceLength(alnum, text, u.value, Place(s.start, s.end));
          if t == tags[0] {
            LaterSpanIsApart(next, r, p, s);
          } else {
            assert t in tags[1..];
            assert Scanned(alnum, text, tags[1..], p);
          }
        }
      }
    }
  }

  lemma PlaceLength(alnum: char -> bool, text: string, value: string, p: Place)
    requires value != "" && p in Occurrences(alnum, text, value, 0)
    ensures 0 <= p.start < p.end == p.start + |value| <= |text|
  {
    OccurrencesAreRepeats(alnum, text, value, 0);
  }

  lemma LaterSpanIsApart(next: seq<Span>, r: seq<Span>, p: Place, s: Span)
    requires next <= r && Disjoint(r) && Inside(p, next) && s in r && s !in next && s.start < s.end
    ensures !Within(s, p)
  {
    var i :| 0 <= i < |next| && next[i].start <= p.start && p.end <= next[i].end;
    var j :| 0 <= j < |r| && r[j] == s;
    assert r[i] == next[i] && j >= |next|;
    assert Apart(r[i], r[j]);
  }

  // ---- sorting the spans ----

  predicate Sorted(spans: seq<Span>) {
    forall i, j :: 0 <= i < j < |spans| ==> Before(spans[i], spans[j])
  }

  lemma {:induction false} InsertSpanHolds(s: Span, sorted: seq<Span>)
    requires Sorted(sorted)
    ensures Sorted(InsertSpan(s, sorted))
    ensures Disjoint(sorted) && (forall x :: x in sorted ==> Apart(s, x)) ==> Disjoint(InsertSpan(s, sorted))
  {
    if sorted != [] && !Before(s, sorted[0]) {
      InsertSpanHolds(s, sorted[1..]);
      var rest := InsertSpan(s, sorted[1..]);
      forall j | 0 <= j < |rest|
        ensures Before(sorted[0], rest[j])
        ensures Disjoint(sorted) && (forall x :: x in sorted ==> Apart(s, x)) ==> Apart(sorted[0], rest[j])
      {
        assert rest[j] in rest && sorted[0] in sorted;
        if rest[j] != s {
          var k :| 0 <= k < |sorted[1..]| && sorted[1..][k] == rest[j];
          assert sorted[k + 1] == rest[j];
        }
      }
    }
  }

  lemma {:induction false} SortSpansHolds(spans: seq<Span>)
    ensures Sorted(SortSpans(spans)) && (Disjoint(spans) ==> Disjoint(SortSpans(spans)))
  {
    if spans != [] {
      SortSpansHolds(spans[1..]);
      InsertSpanHolds(spans[0], SortSpans(spans[1..]));
      if Disjoint(spans) {
        assert Disjoint(spans[1..]);
        forall x | x in SortSpans(spans[1..]) ensures Apart(spans[0], x) {
          var k :| 0 <= k < |spans[1..]| && spans[1..][k] == x;
          assert spans[k + 1] == x;
        }
      }
    }
  }

  lemma {:induction false} SortSorted(spans: seq<Span>)
    requires Sorted(spans)
    ensures SortSpans(spans) == spans
  {
    if spans != [] {
      SortSorted(spans[1..]);
      assert spans == [spans[0]] + spans[1..];
    }
  }

  // ---- the types ----

  predicate DistinctValues(tags: seq<Tag>) {
    forall i, j :: 0 <= i < j < |tags| ==> tags[i].value != tags[j].value
  }

  lemma {:induction false} KindOfHolds(tags: seq<Tag>, value: string)
    ensures KindOf(tags, value).Some? ==> Tag(value, KindOf(tags, value).value) in tags
    ensures KindOf(tags, value).None? ==> forall t :: t in tags ==> t.value != value
    ensures DistinctValues(tags) ==> forall t :: t in tags && t.value == value ==> KindOf(tags, value) == Some(t.kind)
  {
    if tags != [] {
      KindOfHolds(tags[1..], value);
      if DistinctValues(tags) {
        forall t | t in tags && t.value == value ensures KindOf(tags, value) == Some(t.kind) {
          var k :| 0 <= k < |tags| && tags[k] == t;
          assert k > 0 ==> t == tags[1..][k - 1];
        }
      }
    }
  }

  ghost predicate TagOf(text: string, spans: seq<Span>, t: Tag)
    requires InText(text, spans)
  {
    exists i :: 0 <= i < |spans| && t == Tag(ValueAt(text, spans[i]), spans[i].kind)
  }

  /** `_types` succeeds exactly when no value has two kinds, and then gives each value its kind. */
  lemma {:induction false} TypesHold(text: string, spans: seq<Span>, tags: seq<Tag>)
    requires InText(text, spans) && DistinctValues(tags)
    ensures var r := TypesFrom(text, spans, tags);
      r.Some? ==> DistinctValues(r.value) && forall t :: t in r.value <==> t in tags || TagOf(text, spans, t)
    ensures TypesFrom(text, spans, tags).None? ==>
      exists t, u :: && (t in tags || TagOf(text, spans, t)) && (u in tags || TagOf(text, spans, u))
                     && t.value == u.value && t.kind != u.kind
    decreases |spans|
  {
    hide KindOf;
    if spans != [] {
      var t := Tag(ValueAt(text, spans[0]), spans[0].kind);
      var kind := KindOf(tags, t.value);
      KindOfHolds(tags, t.value);
      assert TagOf(text, spans, t);
      var next := if kind.None? then tags + [t] else tags;
      if kind.Some? && kind.value != t.kind {
        var u := Tag(t.value, kind.value);
        assert t.value == u.value && t.kind != u.kind && u in tags;
      } else {
        TypesHold(text, spans[1..], next);
        forall x ensures x in next || TagOf(text, spans[1..], x) <==> x in tags || TagOf(text, spans, x) {
          TagOfCons(text, spans, x);
        }
      }
    }
  }

  lemma TagOfCons(text: string, spans: seq<Span>, t: Tag)
    requires InText(text, spans) && spans != []
    ensures TagOf(text, spans, t) <==> t == Tag(ValueAt(text, spans[0]), spans[0].kind) || TagOf(text, spans[1..], t)
  {
    if TagOf(text, spans, t) {
      var i :| 0 <= i < |spans| && t == Tag(ValueAt(text, spans[i]), spans[i].kind);
      assert i > 0 ==> spans[1..][i - 1] == spans[i];
    }
    if TagOf(text, spans[1..], t) {
      var i :| 0 <= i < |spans[1..]| && t == Tag(ValueAt(text, spans[1..][i]), spans[1..][i].kind);
      assert spans[i + 1] == spans[1..][i];
    }
  }

  // ---- the propagated spans ----

  /** A tagged text as `ground` hands it to `_propagate`. */
  ghost predicate Tagged(text: string, spans: seq<Span>, tags: seq<Tag>) {
    InText(text, spans) && Disjoint(spans) && TypesFrom(text, spans, []) == Some(tags)
  }

  lemma TagsAreValues(text: string, spans: seq<Span>, tags: seq<Tag>)
    requires Tagged(text, spans, tags)
    ensures DistinctValues(tags) && forall t :: t in tags ==> t.value != ""
    ensures forall t :: t in tags <==> TagOf(text, spans, t)
  {
    hide KindOf, Disjoint;
    TypesHold(text, spans, []);
  }

  /** The tagged values. */
  function Values(text: string, spans: seq<Span>): set<string>
    requires InText(text, spans)
  {
    set s | s in spans :: ValueAt(text, s)
  }

  /** `untagged_repeats`, as the places it counts. */
  ghost function UntaggedRepeats(alnum: char -> bool, text: string, spans: seq<Span>): set<(string, Place)>
    requires InText(text, spans)
  {
    set v, p | v in Values(text, spans) && p in Occurrences(alnum, text, v, 0) && !Inside(p, spans) :: (v, p)
  }

  /** What a successful propagation gives: the spans sorted and apart; every input span; every
      added one a scanned repeat with its own value's kind, and lying in no longer repeat; and
      every scanned repeat of a tagged value inside a span, so that none is left untagged. */
  lemma PropagationHolds(alnum: char -> bool, text: string, spans: seq<Span>, tags: seq<Tag>)
    requires Tagged(text, spans, tags)
    ensures forall t :: t in tags ==> t.value != ""
    ensures var r := Propagated(alnum, text, spans, tags);
      r.Some? ==>
        var (result, added) := r.value;
        && Sorted(result) && Disjoint(result) && InText(text, result)
        && |result| == |spans| + added
        && (forall s :: s in spans ==> s in result)
        && (forall s :: s in result ==> Tag(ValueAt(text, s), s.kind) in tags)
        && (forall s :: s in result && s !in spans ==> ScannedWith(alnum, text, tags, s))
        && (forall s, p :: s in result && s !in spans && Scanned(alnum, text, tags, p) && Within(s, p)
              ==> p == Place(s.start, s.end))
        && UntaggedRepeats(alnum, text, result) == {}
  {
    hide *;
    TagsAreValues(text, spans, tags);
    var r := Propagated(alnum, text, spans, tags);
    if r.Some? {
      var order := LongerFirst(tags);
      PropagatedIs(alnum, text, spans, tags);
      var covered := CoverAll(alnum, text, spans, order).value;
      var result := r.value.0;
      TaggedIs(text, spans, tags);
      LongerFirstIsDescending(tags);
      CoverAllHolds(alnum, text, spans, order);
      AddedAreLongest(alnum, text, spans, order);
      SortSpansHolds(covered);
      SameScans(alnum, text, tags, order);
      AddedAreTagged(alnum, text, spans, tags, result);
      NoneUntagged(alnum, text, spans, tags, covered, result);
    }
  }

  lemma PropagatedIs(alnum: char -> bool, text: string, spans: seq<Span>, tags: seq<Tag>)
    requires forall t :: t in tags ==> t.value != ""
    requires Propagated(alnum, text, spans, tags).Some?
    ensures var covered := CoverAll(alnum, text, spans, LongerFirst(tags));
      && covered.Some? && spans <= covered.value
      && Propagated(alnum, text, spans, tags) == Some((SortSpans(covered.value), |covered.value| - |spans|))
  {
    hide CoverAll, LongerFirst, SortSpans;
  }

  lemma TaggedIs(text: string, spans: seq<Span>, tags: seq<Tag>)
    requires Tagged(text, spans, tags)
    ensures InText(text, spans) && Disjoint(spans) && TypesFrom(text, spans, []) == Some(tags)
  {
  }

  lemma SameScans(alnum: char -> bool, text: string, a: seq<Tag>, b: seq<Tag>)
    requires (forall t :: t in a ==> t.value != "") && forall t :: t in a <==> t in b
    ensures forall p :: Scanned(alnum, text, a, p) <==> Scanned(alnum, text, b, p)
    ensures forall s :: ScannedWith(alnum, text, a, s) <==> ScannedWith(alnum, text, b, s)
  {
    hide Occurrences;
  }

  lemma AddedAreTagged(alnum: char -> bool, text: string, spans: seq<Span>, tags: seq<Tag>, result: seq<Span>)
    requires Tagged(text, spans, tags) && forall t :: t in tags ==> t.value != ""
    requires forall t :: t in tags <==> TagOf(text, spans, t)
    requires forall s :: s in result ==> s in spans || ScannedWith(alnum, text, tags, s)
    ensures InText(text, result) && forall s :: s in result ==> Tag(ValueAt(text, s), s.kind) in tags
  {
    hide Occurrences, Disjoint, KindOf, TypesFrom, WholeToken;
    forall s | s in result ensures 0 <= s.start < s.end <= |text| && Tag(ValueAt(text, s), s.kind) in tags {
      if s in spans {
        var i :| 0 <= i < |spans| && spans[i] == s;
        assert TagOf(text, spans, Tag(ValueAt(text, s), s.kind));
      } else {
        var t :| t in tags && t.kind == s.kind && Place(s.start, s.end) in Occurrences(alnum, text, t.value, 0);
        OccurrencesAreRepeats(alnum, text, t.value, 0);
        assert t == Tag(ValueAt(text, s), s.kind);
      }
    }
  }

  lemma NoneUntagged(alnum: char -> bool, text: string, spans: seq<Span>, tags: seq<Tag>, covered: seq<Span>,
                     result: seq<Span>)
    requires InText(text, result) && forall t :: t in tags ==> t.value != ""
    requires forall s :: s in result ==> Tag(ValueAt(text, s), s.kind) in tags
    requires forall p :: Scanned(alnum, text, tags, p) ==> Inside(p, covered)
    requires forall s :: s in covered ==> s in result
    ensures UntaggedRepeats(alnum, text, result) == {}
    ensures forall p :: Scanned(alnum, text, tags, p) ==> Inside(p, result)
  {
    hide Occurrences, Inside;
    forall p | Scanned(alnum, text, tags, p) ensures Inside(p, result) {
      InsideMore(p, covered, result);
    }
    forall v, p | v in Values(text, result) && p in Occurrences(alnum, text, v, 0) ensures Inside(p, result) {
      var s :| s in result && ValueAt(text, s) == v;
      assert Tag(v, s.kind) in tags;
      assert Scanned(alnum, text, tags, p);
    }
  }

  // ---- propagating again ----

  lemma {:induction false} CoverNothing(covered: seq<Span>, places: seq<Place>, kind: string)
    requires forall p :: p in places ==> Inside(p, covered)
    ensures Cover(covered, places, kind) == Some(covered)
    decreases |places|
  {
    hide Inside;
    if places != [] {
      assert places[0] in places;
      CoverNothing(covered, places[1..], kind);
    }
  }

  lemma {:induction false} CoverAllNothing(alnum: char -> bool, text: string, covered: seq<Span>, tags: seq<Tag>)
    requires forall t :: t in tags ==> t.value != ""
    requires forall p :: Scanned(alnum, text, tags, p) ==> Inside(p, covered)
    ensures CoverAll(alnum, text, covered, tags) == Some(covered)
    decreases |tags|
  {
    hide Inside, Occurrences, Cover;
    if tags != [] {
      var places := Occurrences(alnum, text, tags[0].value, 0);
      forall p | p in places ensures Inside(p, covered) {
        assert tags[0] in tags && Scanned(alnum, text, tags, p);
      }
      CoverNothing(covered, places, tags[0].kind);
      forall p | Scanned(alnum, text, tags[1..], p) ensures Inside(p, covered) {
        assert Scanned(alnum, text, tags, p);
      }
      CoverAllNothing(alnum, text, covered, tags[1..]);
    }
  }

  /** The propagated spans tag the same values with the same kinds. */
  lemma SameTags(text: string, spans: seq<Span>, tags: seq<Tag>, result: seq<Span>)
    requires Tagged(text, spans, tags) && InText(text, result)
    requires forall s :: s in spans ==> s in result
    requires forall s :: s in result ==> Tag(ValueAt(text, s), s.kind) in tags
    ensures TypesFrom(text, result, []).Some?
    ensures forall t :: t in TypesFrom(text, result, []).value <==> t in tags
    ensures forall t :: t in tags ==> t.value in Values(text, result)
  {
    hide KindOf, Disjoint, TypesFrom;
    TaggedIs(text, spans, tags);
    TagsAreValues(text, spans, tags);
    TypesHold(text, result, []);
    var again := TypesFrom(text, result, []);
    forall t, u | TagOf(text, result, t) && TagOf(text, result, u) && t.value == u.value ensures t.kind == u.kind {
      KindOfHolds(tags, t.value);
    }
    forall t ensures t in again.value <==> t in tags {
      if t in tags {
        var i :| 0 <= i < |spans| && t == Tag(ValueAt(text, spans[i]), spans[i].kind);
        assert spans[i] in result;
        var j :| 0 <= j < |result| && result[j] == spans[i];
        assert TagOf(text, result, t);
      }
    }
  }

  /** Propagating the propagated spans succeeds, adds nothing and changes nothing. */
  lemma PropagateTwice(alnum: char -> bool, text: string, spans: seq<Span>, tags: seq<Tag>)
    requires Tagged(text, spans, tags)
    ensures forall t :: t in tags ==> t.value != ""
    ensures Propagated(alnum, text, spans, tags).Some? ==>
      var result := Propagated(alnum, text, spans, tags).value.0;
      && InText(text, result) && TypesFrom(text, result, []).Some?
      && (forall t :: t in TypesFrom(text, result, []).value ==> t.value != "")
      && Propagated(alnum, text, result, TypesFrom(text, result, []).value) == Some((result, 0))
  {
    hide *;
    PropagationHolds(alnum, text, spans, tags);
    if Propagated(alnum, text, spans, tags).Some? {
      var result := Propagated(alnum, text, spans, tags).value.0;
      SameTags(text, spans, tags, result);
      var again := TypesFrom(text, result, []).value;
      AllScannedInside(alnum, text, tags, result);
      SameScans(alnum, text, tags, again);
      SameScans(alnum, text, again, LongerFirst(again));
      CoverAllNothing(alnum, text, result, LongerFirst(again));
      SortSorted(result);
      PropagatedOf(alnum, text, result, again, result);
    }
  }

  lemma AllScannedInside(alnum: char -> bool, text: string, tags: seq<Tag>, result: seq<Span>)
    requires InText(text, result) && forall t :: t in tags ==> t.value != ""
    requires UntaggedRepeats(alnum, text, result) == {}
    requires forall t :: t in tags ==> t.value in Values(text, result)
    ensures forall p :: Scanned(alnum, text, tags, p) ==> Inside(p, result)
  {
    hide Inside, Occurrences, Values;
    forall p | Scanned(alnum, text, tags, p) ensures Inside(p, result) {
      var t :| t in tags && p in Occurrences(alnum, text, t.value, 0);
      assert (t.value, p) !in UntaggedRepeats(alnum, text, result);
    }
  }

  lemma PropagatedOf(alnum: char -> bool, text: string, spans: seq<Span>, tags: seq<Tag>, covered: seq<Span>)
    requires forall t :: t in tags ==> t.value != ""
    requires CoverAll(alnum, text, spans, LongerFirst(tags)) == Some(covered) && |covered| == |spans|
    ensures Propagated(alnum, text, spans, tags) == Some((SortSpans(covered), 0))
  {
    hide CoverAll, LongerFirst, SortSpans;
  }

  // ---- repeats the scan skips ----

  /** What the module's documentation promises of a kept row: every other whole-token occurrence of
      a tagged value is gold, or lies inside a span. */
  ghost predicate EveryRepeatCovered(alnum: char -> bool, text: string, tags: seq<Tag>, result: seq<Span>) {
    forall t, p :: t in tags && IsRepeat(alnum, text, t.value, p) ==> Inside(p, result)
  }

  /** p lies inside a tagged span or a repeat the scan yields: known before propagating. */
  ghost predicate Accounted(alnum: char -> bool, text: string, spans: seq<Span>, tags: seq<Tag>, p: Place)
    requires forall t :: t in tags ==> t.value != ""
  {
    || Inside(p, spans)
    || exists q :: Scanned(alnum, text, tags, q) && q.start <= p.start && p.end <= q.end
  }

  /** The scan of a value goes on from the end of each occurrence, so it skips one that overlaps an
      earlier one. The promise holds exactly when each repeat it skips lies inside a tagged span or
      a repeat it does yield. */
  lemma SkippedRepeats(alnum: char -> bool, text: string, spans: seq<Span>, tags: seq<Tag>)
    requires Tagged(text, spans, tags)
    ensures forall t :: t in tags ==> t.value != ""
    ensures Propagated(alnum, text, spans, tags).Some? ==>
      (EveryRepeatCovered(alnum, text, tags, Propagated(alnum, text, spans, tags).value.0)
       <==> forall t, p :: t in tags && IsRepeat(alnum, text, t.value, p) && p !in Occurrences(alnum, text, t.value, 0)
                           ==> Accounted(alnum, text, spans, tags, p))
  {
    hide Propagated, Tagged, Disjoint, TypesFrom, Occurrences, IsRepeat, Sorted;
    PropagationHolds(alnum, text, spans, tags);
    var r := Propagated(alnum, text, spans, tags);
    if r.Some? {
      var result := r.value.0;
      SameTagValues(alnum, text, spans, tags, result);
      AllScannedInside(alnum, text, tags, result);
      forall p ensures Inside(p, result) <==> Accounted(alnum, text, spans, tags, p) {
        InsideIsAccounted(alnum, text, spans, tags, result, p);
      }
    }
  }

  lemma SameTagValues(alnum: char -> bool, text: string, spans: seq<Span>, tags: seq<Tag>, result: seq<Span>)
    requires Tagged(text, spans, tags) && InText(text, result)
    requires forall s :: s in spans ==> s in result
    requires forall s :: s in result ==> Tag(ValueAt(text, s), s.kind) in tags
    ensures forall t :: t in tags ==> t.value in Values(text, result)
  {
    hide *;
    SameTags(text, spans, tags, result);
  }

  lemma InsideIsAccounted(alnum: char -> bool, text: string, spans: seq<Span>, tags: seq<Tag>, result: seq<Span>,
                          p: Place)
    requires forall t :: t in tags ==> t.value != ""
    requires forall s :: s in spans ==> s in result
    requires forall s :: s in result && s !in spans ==> ScannedWith(alnum, text, tags, s)
    requires forall q :: Scanned(alnum, text, tags, q) ==> Inside(q, result)
    ensures Inside(p, result) <==> Accounted(alnum, text, spans, tags, p)
  {
    hide Occurrences;
    if Inside(p, result) {
      var i :| 0 <= i < |result| && result[i].start <= p.start && p.end <= result[i].end;
      var s := result[i];
      if s in spans {
        var j :| 0 <= j < |spans| && spans[j] == s;
      } else {
        var q := Place(s.start, s.end);
        assert Scanned(alnum, text, tags, q);
      }
    }
    if Inside(p, spans) {
      InsideMore(p, spans, result);
    } else if Accounted(alnum, text, spans, tags, p) {
      var q :| Scanned(alnum, text, tags, q) && q.start <= p.start && p.end <= q.end;
      var i :| 0 <= i < |result| && result[i].start <= q.start && q.end <= result[i].end;
    }
  }

  lemma FindIs(text: string, value: string, from: nat, i: nat)
    requires from <= i && OccursAt(text, value, i)
    requires forall j :: from <= j < i ==> !OccursAt(text, value, j)
    ensures Find(text, value, from) == i
  {
    FindIsFirst(text, value, from);
    var k := Find(text, value, from);
    assert k == -1 || k > i ==> !OccursAt(text, value, i);
  }

  lemma DiffersAt(text: string, value: string, j: nat, k: nat)
    requires k < |value| && j + k < |text| && text[j + k] != value[k]
    ensures !OccursAt(text, value, j)
  {
    hide OccursAt;
    if OccursAt(text, value, j) {
      OccursChar(text, value, j, k);
      assert false;
    }
  }

  lemma OccursChar(text: string, value: string, j: nat, k: nat)
    requires OccursAt(text, value, j) && k < |value|
    ensures j + k < |text| && text[j + k] == value[k]
  {
    assert text[j..j + |value|][k] == text[j + k];
  }

  lemma NoneFound(text: string, value: string, from: nat)
    requires from + |value| > |text|
    ensures Find(text, value, from) == -1
  {
  }

  lemma OccurrencesIs(alnum: char -> bool, text: string, value: string, from: nat)
    requires value != ""
    ensures var i := Find(text, value, from);
      Occurrences(alnum, text, value, from)
      == if i == -1 then []
         else
           (if WholeToken(alnum, text, Place(i, i + |value|)) then [Place(i, i + |value|)] else [])
           + Occurrences(alnum, text, value, i + |value|)
  {
    hide Find, WholeToken, OccursAt;
  }

  lemma WholeAt(alnum: char -> bool, text: string, p: Place)
    requires text == "a a.xa a a" && alnum('x') && !alnum('.') && !alnum(' ')
    requires p in {Place(0, 3), Place(5, 8), Place(7, 10)}
    ensures 0 <= p.start <= p.end <= |text| && (WholeToken(alnum, text, p) <==> p != Place(5, 8))
  {
    assert |text| == 10 && text[3] == '.' && text[4] == 'x' && text[6] == ' ';
  }

  lemma ExampleScan(alnum: char -> bool, text: string)
    requires text == "a a.xa a a" && alnum('x') && !alnum('.') && !alnum(' ')
    ensures Occurrences(alnum, text, "a a", 0) == [Place(0, 3)]
    ensures IsRepeat(alnum, text, "a a", Place(7, 10))
  {
    hide Occurrences, Find, WholeToken;
    var v := "a a";
    assert |text| == 10 && |v| == 3 && text[3] == '.' && text[4] == 'x' && v[0] == 'a';
    assert text[0..3] == v && text[5..8] == v && text[7..10] == v;
    FindIs(text, v, 0, 0);
    DiffersAt(text, v, 3, 0);
    DiffersAt(text, v, 4, 0);
    FindIs(text, v, 3, 5);
    NoneFound(text, v, 8);
    WholeAt(alnum, text, Place(0, 3));
    WholeAt(alnum, text, Place(5, 8));
    WholeAt(alnum, text, Place(7, 10));
    OccurrencesIs(alnum, text, v, 0);
    OccurrencesIs(alnum, text, v, 3);
    OccurrencesIs(alnum, text, v, 8);
  }

  /** A row the promise fails for: the last three characters are a whole-token "a a" that the scan
      skips, because it overlaps the "a a" inside "xa a". */
  lemma SkippedRepeatExample(alnum: char -> bool)
    requires alnum('x') && !alnum('.') && !alnum(' ')
    ensures var text := "a a.xa a a";
      var spans, tags := [Span(0, 3, "PERSON")], [Tag("a a", "PERSON")];
      && Tagged(text, spans, tags)
      && Propagated(alnum, text, spans, tags) == Some((spans, 0))
      && !EveryRepeatCovered(alnum, text, tags, spans)
  {
    var text := "a a.xa a a";
    var span, tag := Span(0, 3, "PERSON"), Tag("a a", "PERSON");
    hide *;
    ExampleScan(alnum, text);
    assert text[0..3] == "a a";
    OneSpan(text, span, tag);
    OneTag(alnum, text, span, tag);
    PropagatedOf(alnum, text, [span], [tag], [span]);
    OneSpanAway(alnum, text, span, tag, Place(7, 10));
  }

  /** A single tagged span has one tag, and is sorted. */
  lemma OneSpan(text: string, span: Span, tag: Tag)
    requires 0 <= span.start < span.end <= |text| && tag == Tag(text[span.start..span.end], span.kind)
    ensures Tagged(text, [span], [tag]) && SortSpans([span]) == [span]
  {
    assert [span][1..] == [] && [] + [tag] == [tag];
    assert SortSpans([]) == [];
    assert KindOf([], tag.value) == None;
    assert TypesFrom(text, [span], []) == TypesFrom(text, [span][1..], [tag]) == Some([tag]);
  }

  /** One tag whose only scanned place is its own span. */
  lemma OneTag(alnum: char -> bool, text: string, span: Span, tag: Tag)
    requires tag.value != ""
    requires Occurrences(alnum, text, tag.value, 0) == [Place(span.start, span.end)]
    ensures forall t :: t in [tag] ==> t.value != ""
    ensures CoverAll(alnum, text, [span], LongerFirst([tag])) == Some([span])
  {
    hide Occurrences, Cover, Inside;
    var p := Place(span.start, span.end);
    assert LongerFirst([tag][1..]) == [];
    assert LongerFirst([tag]) == [tag];
    InsideAppended(p, [], span.kind);
    assert [] + [span] == [span];
    CoverNothing([span], [p], tag.kind);
    assert CoverAll(alnum, text, [span], [tag][1..]) == Some([span]);
  }

  lemma OneSpanAway(alnum: char -> bool, text: string, span: Span, tag: Tag, p: Place)
    requires IsRepeat(alnum, text, tag.value, p) && span.end <= p.start < p.end
    ensures !EveryRepeatCovered(alnum, text, [tag], [span])
  {
    hide IsRepeat;
    assert tag in [tag] && !Inside(p, [span]);
  }

  // ---- conflicts ----

  /** p overlaps s without lying inside it. */
  predicate PartlyOverlaps(p: Place, s: Span) {
    p.start < s.end && s.start < p.end && !(s.start <= p.start && p.end <= s.end)
  }

  /** A row dropped for a conflict holds a scanned repeat that partly overlaps a tagged span or
      another scanned repeat. */
  lemma {:induction false} ConflictIsReal(alnum: char -> bool, text: string, covered: seq<Span>, tags: seq<Tag>)
    returns (p: Place, s: Span)
    requires forall t :: t in tags ==> t.value != ""
    requires CoverAll(alnum, text, covered, tags).None?
    ensures Scanned(alnum, text, tags, p) && PartlyOverlaps(p, s)
    ensures s in covered || Scanned(alnum, text, tags, Place(s.start, s.end))
    decreases |tags|
  {
    hide Occurrences, Cover;
    var places := Occurrences(alnum, text, tags[0].value, 0);
    var next := Cover(covered, places, tags[0].kind);
    if next.None? {
      p, s := CoverConflict(covered, places, tags[0].kind);
      assert tags[0] in tags;
    } else {
      p, s := ConflictIsReal(alnum, text, next.value, tags[1..]);
      ScannedByMore(alnum, text, tags, p);
      ScannedByMore(alnum, text, tags, Place(s.start, s.end));
      if s in next.value && s !in covered {
        NewSpansAreScanned(covered, places, tags[0].kind, s);
        assert tags[0] in tags;
      }
    }
  }

  lemma ScannedByMore(alnum: char -> bool, text: string, tags: seq<Tag>, p: Place)
    requires tags != [] && forall t :: t in tags ==> t.value != ""
    ensures Scanned(alnum, text, tags[1..], p) ==> Scanned(alnum, text, tags, p)
  {
    hide Occurrences;
  }

  lemma {:induction false} NewSpansAreScanned(covered: seq<Span>, places: seq<Place>, kind: string, s: Span)
    requires Cover(covered, places, kind).Some? && s in Cover(covered, places, kind).value && s !in covered
    ensures Place(s.start, s.end) in places
    decreases |places|
  {
    hide Inside, Overlaps;
    if places != [] {
      var p := places[0];
      var next := if Inside(p, covered) then covered else covered + [Span(p.start, p.end, kind)];
      if s !in next {
        NewSpansAreScanned(next, places[1..], kind, s);
      }
    }
  }

  /** A scanned repeat that partly overlaps a tagged span always drops the row. */
  lemma OverlapIsAConflict(alnum: char -> bool, text: string, spans: seq<Span>, tags: seq<Tag>, p: Place, s: Span)
    requires Tagged(text, spans, tags) && forall t :: t in tags ==> t.value != ""
    requires Scanned(alnum, text, tags, p) && s in spans && PartlyOverlaps(p, s)
    ensures Propagated(alnum, text, spans, tags).None?
  {
    hide *;
    PropagationHolds(alnum, text, spans, tags);
    if Propagated(alnum, text, spans, tags).Some? {
      var result := Propagated(alnum, text, spans, tags).value.0;
      SameTagValues(alnum, text, spans, tags, result);
      AllScannedInside(alnum, text, tags, result);
      NotInside(result, p, s);
      assert false;
    }
  }

  lemma NotInside(spans: seq<Span>, p: Place, s: Span)
    requires Disjoint(spans) && s in spans && PartlyOverlaps(p, s)
    ensures !Inside(p, spans)
  {
    var j :| 0 <= j < |spans| && spans[j] == s;
    forall i | 0 <= i < |spans| ensures !(spans[i].start <= p.start && p.end <= spans[i].end) {
      assert i < j ==> Apart(spans[i], spans[j]);
      assert j < i ==> Apart(spans[j], spans[i]);
    }
  }
}
