/** Exactly when `_propagate` drops a row, and a plain condition under which its scan skips nothing
    (scripts/pii_corpus/grounding.py). */
module PropagationExact {
  import opened Wrappers
  import opened Propagation

  // ---- when a row is dropped ----

  /** The place p lies in q. */
  predicate Contains(q: Place, p: Place) {
    q.start <= p.start && p.end <= q.end
  }

  /** A scanned repeat that lies in no tagged span and in no other scanned repeat. */
  ghost predicate Outermost(alnum: char -> bool, text: string, spans: seq<Span>, tags: seq<Tag>, p: Place)
    requires forall t :: t in tags ==> t.value != ""
  {
    && Scanned(alnum, text, tags, p) && !Inside(p, spans)
    && forall q :: Scanned(alnum, text, tags, q) && Contains(q, p) ==> q == p
  }

  predicate PlacesApart(p: Place, q: Place) {
    p.end <= q.start || q.end <= p.start
  }

  /** No outermost repeat overlaps a tagged span or another outermost repeat. */
  ghost predicate Compatible(alnum: char -> bool, text: string, spans: seq<Span>, tags: seq<Tag>)
    requires forall t :: t in tags ==> t.value != ""
  {
    && (forall p, s :: Outermost(alnum, text, spans, tags, p) && s in spans ==> PlacesApart(p, Place(s.start, s.end)))
    && forall p, q :: Outermost(alnum, text, spans, tags, p) && Outermost(alnum, text, spans, tags, q) && p != q ==>
         PlacesApart(p, q)
  }

  /** What is covered while the values are scanned: tagged spans and outermost repeats. */
  ghost predicate CoveredRight(alnum: char -> bool, text: string, spans: seq<Span>, tags: seq<Tag>, covered: seq<Span>)
    requires forall t :: t in tags ==> t.value != ""
  {
    && spans <= covered
    && forall s :: s in covered ==> s in spans || Outermost(alnum, text, spans, tags, Place(s.start, s.end))
  }

  lemma ScannedIs(alnum: char -> bool, text: string, tags: seq<Tag>, p: Place)
    requires forall t :: t in tags ==> t.value != ""
    requires Scanned(alnum, text, tags, p)
    ensures 0 <= p.start < p.end <= |text|
    ensures exists t :: t in tags && p.end - p.start == |t.value| && p in Occurrences(alnum, text, t.value, 0)
  {
    hide Occurrences;
    var t :| t in tags && p in Occurrences(alnum, text, t.value, 0);
    PlaceLength(alnum, text, t.value, p);
  }

  lemma OverlapsIs(p: Place, covered: seq<Span>)
    ensures Overlaps(p, covered) <==> exists s :: s in covered && p.start < s.end && s.start < p.end
    ensures Inside(p, covered) <==> exists s :: s in covered && s.start <= p.start && p.end <= s.end
  {
    if s :| s in covered && p.start < s.end && s.start < p.end {
      var i :| 0 <= i < |covered| && covered[i] == s;
    }
    if s :| s in covered && s.start <= p.start && p.end <= s.end {
      var i :| 0 <= i < |covered| && covered[i] == s;
    }
    if Overlaps(p, covered) {
      var i :| 0 <= i < |covered| && p.start < covered[i].end && covered[i].start < p.end;
      assert covered[i] in covered;
    }
    if Inside(p, covered) {
      var i :| 0 <= i < |covered| && covered[i].start <= p.start && p.end <= covered[i].end;
      assert covered[i] in covered;
    }
  }

  /** An outermost repeat that lies in nothing covered overlaps nothing covered. */
  lemma OutermostIsFree(alnum: char -> bool, text: string, spans: seq<Span>, tags: seq<Tag>, covered: seq<Span>,
                        p: Place)
    requires forall t :: t in tags ==> t.value != ""
    requires Compatible(alnum, text, spans, tags) && CoveredRight(alnum, text, spans, tags, covered)
    requires Outermost(alnum, text, spans, tags, p) && !Inside(p, covered)
    ensures !Overlaps(p, covered)
  {
    hide Outermost, Inside, Overlaps;
    OverlapsIs(p, covered);
    forall s | s in covered ensures !(p.start < s.end && s.start < p.end) {
      assert PlacesApart(p, Place(s.start, s.end));
    }
  }

  /** Something is covered that p lies in, or p is outermost: a longer repeat round it was scanned
      before. */
  lemma OutermostOrInside(alnum: char -> bool, text: string, spans: seq<Span>, tags: seq<Tag>, covered: seq<Span>,
                          p: Place)
    requires forall t :: t in tags ==> t.value != ""
    requires spans <= covered && Scanned(alnum, text, tags, p)
    requires forall q :: Scanned(alnum, text, tags, q) && q.end - q.start > p.end - p.start ==> Inside(q, covered)
    ensures Inside(p, covered) || Outermost(alnum, text, spans, tags, p)
  {
    hide Inside, Scanned;
    if Inside(p, spans) {
      InsideMore(p, spans, covered);
    } else if q :| Scanned(alnum, text, tags, q) && Contains(q, p) && q != p {
      InsideContained(q, p, covered);
    }
  }

  lemma InsideContained(q: Place, p: Place, covered: seq<Span>)
    requires Contains(q, p) && Inside(q, covered)
    ensures Inside(p, covered)
  {
    var i :| 0 <= i < |covered| && covered[i].start <= q.start && q.end <= covered[i].end;
  }

  lemma CoveredMore(alnum: char -> bool, text: string, spans: seq<Span>, tags: seq<Tag>, covered: seq<Span>, p: Place,
                    kind: string)
    requires forall t :: t in tags ==> t.value != ""
    requires CoveredRight(alnum, text, spans, tags, covered) && Outermost(alnum, text, spans, tags, p)
    ensures CoveredRight(alnum, text, spans, tags, covered + [Span(p.start, p.end, kind)])
  {
    hide Outermost;
  }

  /** The places of one value can all be covered. */
  lemma {:induction false} CoverSucceeds(alnum: char -> bool, text: string, spans: seq<Span>, tags: seq<Tag>,
                                         covered: seq<Span>, places: seq<Place>, kind: string, n: nat)
    requires forall t :: t in tags ==> t.value != ""
    requires Compatible(alnum, text, spans, tags) && CoveredRight(alnum, text, spans, tags, covered)
    requires forall p :: p in places ==> Scanned(alnum, text, tags, p) && p.end - p.start == n
    requires forall q :: Scanned(alnum, text, tags, q) && q.end - q.start > n ==> Inside(q, covered)
    ensures var r := Cover(covered, places, kind); r.Some? && CoveredRight(alnum, text, spans, tags, r.value)
    decreases |places|
  {
    hide Inside, Overlaps, Scanned, Outermost, Compatible, CoveredRight;
    if places != [] {
      var p := places[0];
      assert p in places;
      CoveredHasSpans(alnum, text, spans, tags, covered);
      var next := covered;
      if !Inside(p, covered) {
        OutermostOrInside(alnum, text, spans, tags, covered, p);
        OutermostIsFree(alnum, text, spans, tags, covered, p);
        CoveredMore(alnum, text, spans, tags, covered, p, kind);
        next := covered + [Span(p.start, p.end, kind)];
        forall q | Scanned(alnum, text, tags, q) && q.end - q.start > n ensures Inside(q, next) {
          InsideMore(q, covered, next);
        }
      }
      CoverSucceeds(alnum, text, spans, tags, next, places[1..], kind, n);
    }
  }

  lemma CoveredHasSpans(alnum: char -> bool, text: string, spans: seq<Span>, tags: seq<Tag>, covered: seq<Span>)
    requires forall t :: t in tags ==> t.value != ""
    requires CoveredRight(alnum, text, spans, tags, covered)
    ensures spans <= covered
  {
  }

  /** The values from the i-th on can all be covered, the longer ones having been before. */
  lemma {:induction false} CoverAllSucceeds(alnum: char -> bool, text: string, spans: seq<Span>, tags: seq<Tag>,
                                            covered: seq<Span>, i: nat)
    requires i <= |tags| && Descending(tags) && forall t :: t in tags ==> t.value != ""
    requires Compatible(alnum, text, spans, tags) && CoveredRight(alnum, text, spans, tags, covered)
    requires forall j, p :: 0 <= j < i && p in Occurrences(alnum, text, tags[j].value, 0) ==> Inside(p, covered)
    requires Disjoint(covered)
    ensures CoverAll(alnum, text, covered, tags[i..]).Some?
    decreases |tags| - i
  {
    hide Inside, Scanned, Outermost, Compatible, CoveredRight, Occurrences, Cover, Disjoint;
    if i < |tags| {
      var tag := tags[i];
      var places := Occurrences(alnum, text, tag.value, 0);
      assert tag in tags && tags[i..][0] == tag && tags[i..][1..] == tags[i + 1..];
      forall p | p in places ensures Scanned(alnum, text, tags, p) && p.end - p.start == |tag.value| {
        PlaceLength(alnum, text, tag.value, p);
        ScannedBy(alnum, text, tags, tag, p);
      }
      forall q | Scanned(alnum, text, tags, q) && q.end - q.start > |tag.value| ensures Inside(q, covered) {
        LongerIsBefore(alnum, text, tags, i, q);
      }
      CoverSucceeds(alnum, text, spans, tags, covered, places, tag.kind, |tag.value|);
      var next := Cover(covered, places, tag.kind).value;
      CoverHolds(covered, places, tag.kind);
      forall j, p | 0 <= j < i + 1 && p in Occurrences(alnum, text, tags[j].value, 0) ensures Inside(p, next) {
        if j < i {
          InsideMore(p, covered, next);
        }
      }
      CoverAllSucceeds(alnum, text, spans, tags, next, i + 1);
    }
  }

  lemma ScannedBy(alnum: char -> bool, text: string, tags: seq<Tag>, t: Tag, p: Place)
    requires (forall x :: x in tags ==> x.value != "") && t in tags && p in Occurrences(alnum, text, t.value, 0)
    ensures Scanned(alnum, text, tags, p)
  {
    hide Occurrences;
  }

  /** A repeat longer than the i-th value was scanned for a value before it. */
  lemma LongerIsBefore(alnum: char -> bool, text: string, tags: seq<Tag>, i: nat, q: Place)
    requires i < |tags| && Descending(tags) && forall t :: t in tags ==> t.value != ""
    requires Scanned(alnum, text, tags, q) && q.end - q.start > |tags[i].value|
    ensures exists j :: 0 <= j < i && q in Occurrences(alnum, text, tags[j].value, 0)
  {
    hide Occurrences, Scanned;
    assert forall m | i <= m < |tags| :: |tags[m].value| <= |tags[i].value|;
    ScannedIs(alnum, text, tags, q);
    var t :| t in tags && q.end - q.start == |t.value| && q in Occurrences(alnum, text, t.value, 0);
    var j :| 0 <= j < |tags| && tags[j] == t;
  }

  /** Whether repeats are outermost does not depend on the order of the values. */
  lemma SameOutermost(alnum: char -> bool, text: string, spans: seq<Span>, a: seq<Tag>, b: seq<Tag>)
    requires (forall t :: t in a ==> t.value != "") && forall t :: t in a <==> t in b
    ensures Compatible(alnum, text, spans, a) <==> Compatible(alnum, text, spans, b)
  {
    hide Scanned, Inside;
    SameScans(alnum, text, a, b);
    assert forall p :: Outermost(alnum, text, spans, a, p) <==> Outermost(alnum, text, spans, b, p);
  }

  /** After a successful propagation every outermost repeat is a span of its own. */
  lemma OutermostIsSpan(alnum: char -> bool, text: string, spans: seq<Span>, tags: seq<Tag>, result: seq<Span>,
                        p: Place)
    returns (s: Span)
    requires forall t :: t in tags ==> t.value != ""
    requires Inside(p, result) && Outermost(alnum, text, spans, tags, p)
    requires forall s :: s in result && s !in spans ==> ScannedWith(alnum, text, tags, s)
    ensures s in result && Place(s.start, s.end) == p
  {
    hide Occurrences, Inside;
    OverlapsIs(p, result);
    OverlapsIs(p, spans);
    s :| s in result && s.start <= p.start && p.end <= s.end;
    assert s !in spans;
    assert Scanned(alnum, text, tags, Place(s.start, s.end));
  }

  lemma DistinctSpansApart(spans: seq<Span>, a: Span, b: Span)
    requires Disjoint(spans) && a in spans && b in spans && Place(a.start, a.end) != Place(b.start, b.end)
    ensures PlacesApart(Place(a.start, a.end), Place(b.start, b.end))
  {
    var i :| 0 <= i < |spans| && spans[i] == a;
    var j :| 0 <= j < |spans| && spans[j] == b;
    assert if i < j then Apart(spans[i], spans[j]) else Apart(spans[j], spans[i]);
  }

  lemma CompatibleAfter(alnum: char -> bool, text: string, spans: seq<Span>, tags: seq<Tag>, result: seq<Span>)
    requires (forall t :: t in tags ==> t.value != "") && Disjoint(result)
    requires forall s :: s in spans ==> s in result
    requires forall s :: s in result && s !in spans ==> ScannedWith(alnum, text, tags, s)
    requires forall p :: Scanned(alnum, text, tags, p) ==> Inside(p, result)
    ensures Compatible(alnum, text, spans, tags)
  {
    hide Scanned, ScannedWith, Inside, Disjoint;
    forall p, s | Outermost(alnum, text, spans, tags, p) && s in spans ensures PlacesApart(p, Place(s.start, s.end)) {
      var a := OutermostIsSpan(alnum, text, spans, tags, result, p);
      if p == Place(s.start, s.end) {
        OverlapsIs(p, spans);
        assert false;
      }
      DistinctSpansApart(result, a, s);
    }
    forall p, q | Outermost(alnum, text, spans, tags, p) && Outermost(alnum, text, spans, tags, q) && p != q
      ensures PlacesApart(p, q)
    {
      var a := OutermostIsSpan(alnum, text, spans, tags, result, p);
      var b := OutermostIsSpan(alnum, text, spans, tags, result, q);
      DistinctSpansApart(result, a, b);
    }
  }

  lemma StartsRight(alnum: char -> bool, text: string, spans: seq<Span>, tags: seq<Tag>)
    requires forall t :: t in tags ==> t.value != ""
    ensures CoveredRight(alnum, text, spans, tags, spans)
  {
    hide Outermost;
  }

  /** A row is kept exactly when no outermost repeat overlaps a tagged span or another outermost
      repeat: those are the only conflicts, whatever the order the values are scanned in. */
  lemma KeptExactlyWhenCompatible(alnum: char -> bool, text: string, spans: seq<Span>, tags: seq<Tag>)
    requires Tagged(text, spans, tags)
    ensures forall t :: t in tags ==> t.value != ""
    ensures Propagated(alnum, text, spans, tags).Some? <==> Compatible(alnum, text, spans, tags)
  {
    hide *;
    TaggedIs(text, spans, tags);
    TagsAreValues(text, spans, tags);
    PropagationHolds(alnum, text, spans, tags);
    var order := LongerFirst(tags);
    if Propagated(alnum, text, spans, tags).Some? {
      var result := Propagated(alnum, text, spans, tags).value.0;
      SameTagValues(alnum, text, spans, tags, result);
      AllScannedInside(alnum, text, tags, result);
      CompatibleAfter(alnum, text, spans, tags, result);
    }
    if Compatible(alnum, text, spans, tags) {
      LongerFirstIsDescending(tags);
      SameOutermost(alnum, text, spans, tags, order);
      StartsRight(alnum, text, spans, order);
      CoverAllSucceeds(alnum, text, spans, order, spans, 0);
      assert order[0..] == order;
      CoveredIsPropagated(alnum, text, spans, tags);
    }
  }

  lemma CoveredIsPropagated(alnum: char -> bool, text: string, spans: seq<Span>, tags: seq<Tag>)
    requires forall t :: t in tags ==> t.value != ""
    requires CoverAll(alnum, text, spans, LongerFirst(tags)).Some?
    ensures Propagated(alnum, text, spans, tags).Some?
  {
    hide CoverAll, LongerFirst, SortSpans;
  }

  // ---- when the scan skips nothing ----

  /** No proper prefix of the value is also its suffix, so it never overlaps itself. */
  predicate Unbordered(value: string) {
    forall k :: 0 < k < |value| ==> value[..k] != value[|value| - k..]
  }

  /** Two places of an unbordered value never overlap. */
  lemma NoOverlap(text: string, value: string, i: nat, j: nat)
    requires Unbordered(value) && OccursAt(text, value, i) && OccursAt(text, value, j) && i < j
    ensures i + |value| <= j
  {
    if j < i + |value| {
      SharedPart(text, value, i, j);
      assert false;
    }
  }

  /** Where two places of a value overlap, its end is its beginning. */
  lemma SharedPart(text: string, value: string, i: nat, j: nat)
    requires OccursAt(text, value, i) && OccursAt(text, value, j) && i < j < i + |value|
    ensures var k := i + |value| - j; value[..k] == value[|value| - k..]
  {
    var k := i + |value| - j;
    assert value[..k] == text[j..j + |value|][..k] == text[j..j + k];
    assert value[|value| - k..] == text[i..i + |value|][|value| - k..] == text[j..j + k];
  }

  /** The scan of an unbordered value yields every whole-token repeat. */
  lemma {:induction false} AllYielded(alnum: char -> bool, text: string, value: string, from: nat, p: Place)
    requires value != "" && Unbordered(value) && from <= p.start && IsRepeat(alnum, text, value, p)
    ensures p in Occurrences(alnum, text, value, from)
    decreases |text| + 1 - from
  {
    hide Occurrences, WholeToken, Find, Unbordered, OccursAt;
    OccurrencesIs(alnum, text, value, from);
    FindIsFirst(text, value, from);
    var i := Find(text, value, from);
    FoundOrNot(text, value, from, p.start);
    if i < p.start {
      NoOverlap(text, value, i, p.start);
      AllYielded(alnum, text, value, i + |value|, p);
    }
  }

  lemma FoundOrNot(text: string, value: string, from: nat, at: int)
    requires from <= at && OccursAt(text, value, at)
    ensures var i := Find(text, value, from); from <= i <= at && OccursAt(text, value, i) && i + |value| <= |text|
  {
    hide Find;
    FindIsFirst(text, value, from);
  }

  /** When no tagged value can overlap itself, a kept row has every whole-token repeat of a tagged
      value in a gold span, as the documentation promises. */
  lemma UnborderedValuesAreCovered(alnum: char -> bool, text: string, spans: seq<Span>, tags: seq<Tag>)
    requires Tagged(text, spans, tags) && forall t :: t in tags ==> Unbordered(t.value)
    ensures forall t :: t in tags ==> t.value != ""
    ensures Propagated(alnum, text, spans, tags).Some? ==>
      EveryRepeatCovered(alnum, text, tags, Propagated(alnum, text, spans, tags).value.0)
  {
    hide *;
    TagsAreValues(text, spans, tags);
    SkippedRepeats(alnum, text, spans, tags);
    forall t, p | t in tags && IsRepeat(alnum, text, t.value, p) ensures p in Occurrences(alnum, text, t.value, 0) {
      RepeatStarts(alnum, text, t.value, p);
      AllYielded(alnum, text, t.value, 0, p);
    }
  }

  lemma RepeatStarts(alnum: char -> bool, text: string, value: string, p: Place)
    requires IsRepeat(alnum, text, value, p)
    ensures 0 <= p.start
  {
  }
}
