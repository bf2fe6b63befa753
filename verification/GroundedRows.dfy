/** Rows that `ground` keeps, printed by `tagged` and read by `_parse` again
    (scripts/pii_corpus/grounding.py). */
module GroundedRows {
  import opened Wrappers
  import Propagation
  import opened GroundingTags

  // ---- where a text may not be cut ----

  predicate IsCut(spans: seq<Span>, x: int) {
    exists s :: s in spans && (s.start == x || s.end == x)
  }

  /** Where the letters of a marker at k end. */
  function MarkerEnd(text: string, k: nat): nat
    requires k + 1 < |text|
  {
    if text[k + 1] == '/' then k + 5 else k + 4
  }

  /** The letters of a marker stand at k. */
  predicate MarkerLetters(text: string, k: nat) {
    && k + 1 < |text| && text[k] == '<' && MarkerEnd(text, k) <= |text|
    && var e := MarkerEnd(text, k);
      (text[e - 3] == 'p' || text[e - 3] == 'P') && IsI(text[e - 2]) && IsI(text[e - 1])
  }

  predicate IsWord(alnum: char -> bool, c: char) {
    alnum(c) || c == '_'
  }

  /** Once the text is cut at the spans, a marker stands at k. */
  ghost predicate MarkerBetween(alnum: char -> bool, text: string, spans: seq<Span>, k: nat) {
    && MarkerLetters(text, k)
    && var e := MarkerEnd(text, k);
      && (forall x :: k < x < e ==> !IsCut(spans, x))
      && (e == |text| || IsCut(spans, e) || !IsWord(alnum, text[e]))
  }

  /** A marker of one slice, seen in the whole text. */
  lemma MarkerOfSlice(alnum: char -> bool, text: string, a: nat, b: nat, k: nat)
    requires a <= k < b <= |text|
    ensures MarkerAt(alnum, text[a..b], k - a)
      <==> MarkerLetters(text, k)
           && (MarkerEnd(text, k) == b || (MarkerEnd(text, k) < b && !IsWord(alnum, text[MarkerEnd(text, k)])))
  {
    hide IsI;
    var s, i := text[a..b], k - a;
    assert forall j | 0 <= j < b - a :: s[j] == text[a + j];
    if k + 1 < b {
      assert s[i + 1] == text[k + 1];
    }
  }

  /** The slice that ends at the first cut after its start holds no marker exactly when none
      stands there in the cut text. */
  lemma CleanSlice(alnum: char -> bool, text: string, spans: seq<Span>, a: nat, b: nat)
    requires a <= b <= |text| && (b == |text| || IsCut(spans, b)) && forall x :: a < x < b ==> !IsCut(spans, x)
    ensures Clean(alnum, text[a..b]) <==> forall k: nat :: a <= k < b ==> !MarkerBetween(alnum, text, spans, k)
  {
    hide MarkerAt, IsCut, MarkerLetters, IsWord;
    forall k: nat | a <= k < b
      ensures MarkerAt(alnum, text[a..b], k - a) <==> MarkerBetween(alnum, text, spans, k)
    {
      MarkerOfSlice(alnum, text, a, b, k);
      if MarkerLetters(text, k) {
        MarkerEndsInText(text, k);
        assert MarkerEnd(text, k) > b ==> !(forall x :: k < x < MarkerEnd(text, k) ==> !IsCut(spans, x));
      }
    }
    forall i: nat | i < b - a
      ensures MarkerAt(alnum, text[a..b], i) <==> MarkerBetween(alnum, text, spans, a + i)
    {
      assert MarkerAt(alnum, text[a..b], (a + i) - a) <==> MarkerBetween(alnum, text, spans, a + i);
    }
    forall k: nat | a <= k < b && Clean(alnum, text[a..b]) ensures !MarkerBetween(alnum, text, spans, k) {
      var i: nat := k - a;
      assert !MarkerAt(alnum, text[a..b], i);
    }
  }

  lemma MarkerEndsInText(text: string, k: nat)
    requires MarkerLetters(text, k)
    ensures k + 1 < |text| && MarkerEnd(text, k) <= |text|
  {
  }

  lemma {:induction false} CutsAreLater(text: string, spans: seq<Span>, from: int)
    requires Chained(text, spans, from)
    ensures forall s :: s in spans ==> from <= s.start <= s.end <= |text|
  {
    if spans != [] {
      CutsAreLater(text, spans[1..], spans[0].end);
      ChainedInText(text, spans[1..], spans[0].end);
      assert spans == [spans[0]] + spans[1..];
    }
  }

  lemma CutsOfCons(spans: seq<Span>, x: int)
    requires spans != []
    ensures IsCut(spans, x) <==> x == spans[0].start || x == spans[0].end || IsCut(spans[1..], x)
  {
    assert spans == [spans[0]] + spans[1..];
    assert forall s :: s in spans <==> s == spans[0] || s in spans[1..];
    if x == spans[0].start || x == spans[0].end {
      assert spans[0] in spans;
    }
  }

  /** Past the first span, its cuts do not matter. */
  lemma MarkersPast(alnum: char -> bool, text: string, spans: seq<Span>, k: nat)
    requires spans != [] && spans[0].start <= spans[0].end <= k
    ensures MarkerBetween(alnum, text, spans, k) <==> MarkerBetween(alnum, text, spans[1..], k)
  {
    hide IsCut, MarkerLetters, IsWord;
    forall x | x > k ensures IsCut(spans, x) <==> IsCut(spans[1..], x) {
      CutsOfCons(spans, x);
    }
  }

  /** Cutting a text gives clean pieces exactly when no marker stands in the cut text. */
  lemma {:induction false} CleanCut(alnum: char -> bool, text: string, spans: seq<Span>, from: nat)
    requires Chained(text, spans, from)
    ensures from <= |text|
    ensures CleanPieces(alnum, Cut(text, spans, from).0) && Clean(alnum, Cut(text, spans, from).1)
      <==> forall k: nat :: from <= k < |text| ==> !MarkerBetween(alnum, text, spans, k)
    decreases |spans|
  {
    hide *;
    ChainedInText(text, spans, from);
    CutsAreLater(text, spans, from);
    if spans == [] {
      CutIsRest(text, spans, from);
      assert forall x :: !IsCut(spans, x) by { NoCuts(spans); }
      CleanSlice(alnum, text, spans, from, |text|);
    } else {
      var s, more := spans[0], spans[1..];
      CutIs(text, spans, from);
      CutsAreLater(text, more, s.end);
      forall x ensures IsCut(spans, x) <==> x == s.start || x == s.end || IsCut(more, x) {
        CutsOfCons(spans, x);
      }
      forall x | x < s.end ensures !IsCut(more, x) {
        NoEarlyCut(more, s.end, x);
      }
      CleanSlice(alnum, text, spans, from, s.start);
      CleanSlice(alnum, text, spans, s.start, s.end);
      CleanCut(alnum, text, more, s.end);
      CleanCons(alnum, Piece(text[from..s.start], false, s.kind, text[s.start..s.end]), Cut(text, more, s.end).0);
      forall k: nat | s.end <= k
        ensures MarkerBetween(alnum, text, spans, k) <==> MarkerBetween(alnum, text, more, k)
      {
        MarkersPast(alnum, text, spans, k);
      }
    }
  }

  lemma CutIsRest(text: string, spans: seq<Span>, from: nat)
    requires Chained(text, spans, from) && spans == []
    ensures from <= |text| && Cut(text, spans, from) == ([], text[from..|text|])
    ensures forall alnum :: CleanPieces(alnum, [])
  {
    assert text[from..] == text[from..|text|];
  }

  lemma NoCuts(spans: seq<Span>)
    requires spans == []
    ensures forall x :: !IsCut(spans, x)
  {
  }

  lemma NoEarlyCut(spans: seq<Span>, from: int, x: int)
    requires x < from && forall s :: s in spans ==> from <= s.start <= s.end
    ensures !IsCut(spans, x)
  {
  }

  // ---- kept rows ----

  /** Repeats added as gold cut the text at whole tokens only, where no marker can appear. */
  lemma NoNewMarker(alnum: char -> bool, text: string, spans: seq<Span>, result: seq<Span>, k: nat)
    requires forall c :: IsI(c) ==> alnum(c)
    requires forall s :: s in spans ==> s in result
    requires forall s :: s in result && s !in spans ==>
      0 <= s.start <= s.end <= |text| && Propagation.WholeToken(alnum, text, Propagation.Place(s.start, s.end))
    requires !MarkerBetween(alnum, text, spans, k)
    ensures !MarkerBetween(alnum, text, result, k)
  {
    hide IsI;
    if MarkerLetters(text, k) {
      var e := MarkerEnd(text, k);
      forall x | IsCut(spans, x) ensures IsCut(result, x) {
        var s :| s in spans && (s.start == x || s.end == x);
        assert s in result;
      }
      if e < |text| && IsWord(alnum, text[e]) && !IsCut(spans, e) {
        assert alnum(text[e - 1]);
        forall s | s in result ensures s.start != e && s.end != e {
          if s in spans {
          } else if s.start == e || s.end == e {
            WholeTokenEdges(alnum, text, s);
            assert false;
          }
        }
      }
    }
  }

  lemma WholeTokenEdges(alnum: char -> bool, text: string, s: Span)
    requires 0 <= s.start <= s.end <= |text|
    requires Propagation.WholeToken(alnum, text, Propagation.Place(s.start, s.end))
    ensures s.start > 0 ==> !alnum(text[s.start - 1])
    ensures s.end < |text| ==> !IsWord(alnum, text[s.end])
  {
  }

  lemma {:induction false} ChainedIsDisjoint(text: string, spans: seq<Span>, from: int)
    requires Chained(text, spans, from)
    ensures Propagation.Disjoint(spans)
  {
    if spans != [] {
      ChainedIsDisjoint(text, spans[1..], spans[0].end);
      CutsAreLater(text, spans[1..], spans[0].end);
      forall i, j | 0 <= i < j < |spans| ensures Propagation.Apart(spans[i], spans[j]) {
        assert spans[j] == spans[1..][j - 1];
        if i > 0 {
          assert spans[i] == spans[1..][i - 1];
        }
      }
    }
  }

  /** Spans that are sorted and apart are in the order `tagged` prints them in. */
  lemma SortedSpansChain(text: string, spans: seq<Span>)
    requires Propagation.InText(text, spans) && Propagation.Disjoint(spans) && Propagation.Sorted(spans)
    ensures Chained(text, spans, 0) && ByStart(spans) == spans
  {
    hide ByStart, Chained;
    assert InOrder(spans);
    ChainOf(text, spans, 0);
    ByStartSorted(spans, text, 0);
  }

  lemma KindsFit(text: string, spans: seq<Span>, tags: seq<Propagation.Tag>, result: seq<Span>)
    requires Propagation.InText(text, spans) && Propagation.InText(text, result)
    requires forall s :: s in spans ==> IsKind(s.kind)
    requires forall t :: t in tags <==> Propagation.TagOf(text, spans, t)
    requires forall s :: s in result ==> Propagation.Tag(Propagation.ValueAt(text, s), s.kind) in tags
    ensures forall s :: s in result ==> IsKind(s.kind)
  {
    hide IsKind, Propagation.ValueAt;
    forall s | s in result ensures IsKind(s.kind) {
      var t := Propagation.Tag(Propagation.ValueAt(text, s), s.kind);
      assert Propagation.TagOf(text, spans, t);
      var i :| 0 <= i < |spans| && t == Propagation.Tag(Propagation.ValueAt(text, spans[i]), spans[i].kind);
      assert spans[i] in spans;
    }
  }

  lemma AddedAreWhole(alnum: char -> bool, text: string, tags: seq<Propagation.Tag>, s: Span)
    requires forall t :: t in tags ==> t.value != ""
    requires Propagation.ScannedWith(alnum, text, tags, s)
    ensures 0 <= s.start <= s.end <= |text| && Propagation.WholeToken(alnum, text, Propagation.Place(s.start, s.end))
  {
    hide Propagation.Occurrences, Propagation.WholeToken;
    var t :| t in tags && Propagation.Place(s.start, s.end) in Propagation.Occurrences(alnum, text, t.value, 0);
    Propagation.OccurrencesAreRepeats(alnum, text, t.value, 0);
  }

  /** A row kept with its repeats added can be printed, and the printed form parses to that row:
      adding gold never makes a row the reviewer's editor could not read back. */
  lemma KeptRowReadsBack(alnum: char -> bool, answer: string, tags: seq<Propagation.Tag>)
    requires !alnum('>') && !alnum(' ') && forall c :: IsI(c) ==> alnum(c)
    requires Parsed(alnum, answer).Some?
    requires Propagation.InText(Parsed(alnum, answer).value.0, Parsed(alnum, answer).value.1)
    requires var (text, spans) := Parsed(alnum, answer).value; Propagation.TypesFrom(text, spans, []) == Some(tags)
    ensures forall t :: t in tags ==> t.value != ""
    ensures var (text, spans) := Parsed(alnum, answer).value;
      var kept := Propagation.Propagated(alnum, text, spans, tags);
      kept.Some? ==>
        Chained(text, ByStart(kept.value.0), 0)
        && Parsed(alnum, TaggedText(text, kept.value.0)) == Some((text, kept.value.0))
  {
    hide *;
    var (text, spans) := Parsed(alnum, answer).value;
    ParsedIsPrintable(alnum, answer);
    ChainedIsDisjoint(text, spans, 0);
    TaggedHolds(text, spans, tags);
    Propagation.PropagationHolds(alnum, text, spans, tags);
    Propagation.TagsAreValues(text, spans, tags);
    var kept := Propagation.Propagated(alnum, text, spans, tags);
    if kept.Some? {
      var result := kept.value.0;
      SortedSpansChain(text, result);
      PrintableIs(alnum, text, spans);
      PrintableIs(alnum, text, result);
      CleanCut(alnum, text, spans, 0);
      CleanCut(alnum, text, result, 0);
      KindsFit(text, spans, tags, result);
      forall s | s in result && s !in spans
        ensures 0 <= s.start <= s.end <= |text|
        ensures Propagation.WholeToken(alnum, text, Propagation.Place(s.start, s.end))
      {
        AddedAreWhole(alnum, text, tags, s);
      }
      forall k: nat | k < |text| ensures !MarkerBetween(alnum, text, result, k) {
        NoNewMarker(alnum, text, spans, result, k);
      }
      ParsedOfTagged(alnum, text, result);
    }
  }

  lemma TaggedHolds(text: string, spans: seq<Span>, tags: seq<Propagation.Tag>)
    requires Propagation.InText(text, spans) && Propagation.Disjoint(spans)
    requires Propagation.TypesFrom(text, spans, []) == Some(tags)
    ensures Propagation.Tagged(text, spans, tags)
  {
  }

  lemma PrintableIs(alnum: char -> bool, text: string, spans: seq<Span>)
    requires Chained(text, spans, 0)
    ensures Printable(alnum, text, spans)
      <==> && (forall s :: s in spans ==> IsKind(s.kind))
           && CleanPieces(alnum, Cut(text, spans, 0).0) && Clean(alnum, Cut(text, spans, 0).1)
  {
    hide IsKind, Cut, CleanPieces, Clean;
  }
}
