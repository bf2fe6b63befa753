/** Tags, markers and whole tokens character by character (scripts/pii_corpus/grounding.py). */
module GroundingForms {
  import opened Wrappers
  import Propagation
  import opened GroundingTags

  type Place = Propagation.Place

  // ---- whole tokens and repeats ----

  predicate InWord(alnum: char -> bool, c: char) {
    alnum(c) || c == '_'
  }

  /** A whole token: nothing, or no letter, digit or underscore, stands right before it and right
      after it. */
  lemma WholeTokenMeans(alnum: char -> bool, text: string, p: Place)
    requires !alnum(' ') && 0 <= p.start <= p.end <= |text|
    ensures Propagation.WholeToken(alnum, text, p)
      <==> && (p.start == 0 || !InWord(alnum, text[p.start - 1]))
           && (p.end == |text| || !InWord(alnum, text[p.end]))
  {
  }

  /** What is counted as an untagged repeat: a place that the scan of the value of some span yields,
      and that lies in no span. */
  lemma UntaggedMeans(alnum: char -> bool, text: string, spans: seq<Span>, value: string, p: Place)
    requires Propagation.InText(text, spans)
    ensures (value, p) in Propagation.UntaggedRepeats(alnum, text, spans)
      <==> && (exists s :: s in spans && text[s.start..s.end] == value)
           && value != "" && p in Propagation.Occurrences(alnum, text, value, 0)
           && forall s :: s in spans ==> !(s.start <= p.start && p.end <= s.end)
  {
    if s: Span :| s in spans && text[s.start..s.end] == value {
      assert value == Propagation.ValueAt(text, s) && value in Propagation.Values(text, spans);
    }
    if value in Propagation.Values(text, spans) {
      var s :| s in spans && value == Propagation.ValueAt(text, s);
      assert text[s.start..s.end] == value;
    }
    if Propagation.Inside(p, spans) {
      var i :| 0 <= i < |spans| && spans[i].start <= p.start && p.end <= spans[i].end;
      assert spans[i] in spans;
    }
  }

  /** The spans of a kept row come in reading order: each ends before the next one starts. */
  lemma InReadingOrder(alnum: char -> bool, text: string, spans: seq<Span>, tags: seq<Propagation.Tag>)
    requires Propagation.Tagged(text, spans, tags)
    ensures forall t :: t in tags ==> t.value != ""
    ensures var r := Propagation.Propagated(alnum, text, spans, tags);
      r.Some? ==> forall i, j :: 0 <= i < j < |r.value.0| ==> r.value.0[i].end <= r.value.0[j].start
  {
    hide Propagation.Tagged, Propagation.Propagated, Propagation.ScannedWith, Propagation.Scanned,
         Propagation.UntaggedRepeats;
    Propagation.PropagationHolds(alnum, text, spans, tags);
    var r := Propagation.Propagated(alnum, text, spans, tags);
    if r.Some? {
      var result := r.value.0;
      forall i, j | 0 <= i < j < |result| ensures result[i].end <= result[j].start {
        assert result[i] in result && result[j] in result;
        assert Propagation.Apart(result[i], result[j]) && Propagation.Before(result[i], result[j]);
      }
    }
  }

  // ---- tags ----

  /** A type: a capital letter and at most 27 more capitals, figures and underscores. */
  lemma KindMeans(kind: string)
    ensures IsKind(kind)
      <==> && 0 < |kind| < 29 && 65 <= kind[0] as int <= 90
           && forall i :: 1 <= i < |kind| ==>
                65 <= kind[i] as int <= 90 || 48 <= kind[i] as int <= 57 || kind[i] as int == 95
  {
  }

  /** The tags: with plain quotes, or with both quotes escaped. */
  lemma TagMeans(kind: string)
    ensures OpenTag(false, kind) == "<pii type=\"" + kind + "\">"
    ensures OpenTag(true, kind) == "<pii type=\\\"" + kind + "\\\">"
    ensures CLOSE == "</pii>"
  {
    assert "" + ("\"" + (kind + ("" + "\">"))) == "\"" + kind + "\">";
    assert "<pii type=" + ("\"" + kind + "\">") == "<pii type=\"" + kind + "\">";
    assert "\\" + ("\"" + (kind + ("\\" + "\">"))) == "\\\"" + kind + "\\\">";
    assert "<pii type=" + ("\\\"" + kind + "\\\">") == "<pii type=\\\"" + kind + "\\\">";
  }

  /** The four characters that match an i when case is ignored: i, I, and the Turkish two. */
  predicate AnyI(c: char) {
    var n := c as int;
    n == 105 || n == 73 || n == 304 || n == 305
  }

  /** The letters of a marker: <pii or </pii in any case, and then no character of a word. */
  ghost predicate IsMarker(alnum: char -> bool, s: string) {
    exists slash, p, i, j, rest :: AreMarkerParts(alnum, s, slash, p, i, j, rest)
  }

  predicate AreMarkerParts(alnum: char -> bool, s: string, slash: string, p: char, i: char, j: char, rest: string) {
    && s == "<" + slash + [p, i, j] + rest
    && (slash == "" || slash == "/") && (p == 'p' || p == 'P') && AnyI(i) && AnyI(j)
    && (rest == "" || !InWord(alnum, rest[0]))
  }

  lemma MarkerParts(alnum: char -> bool, s: string, k: nat)
    requires MarkerAt(alnum, s, k)
    ensures k <= |s| && IsMarker(alnum, s[k..])
  {
    var t := s[k..];
    var slash := if s[k + 1] == '/' then "/" else "";
    var name := 1 + |slash|;
    var rest := t[name + 3..];
    assert t[name] == s[k + name] && t[name + 1] == s[k + name + 1] && t[name + 2] == s[k + name + 2];
    assert t == "<" + slash + [t[name], t[name + 1], t[name + 2]] + rest;
    assert rest != "" ==> rest[0] == s[k + name + 3];
    assert AreMarkerParts(alnum, t, slash, t[name], t[name + 1], t[name + 2], rest);
  }

  lemma PartsOfMarker(alnum: char -> bool, s: string, k: nat, slash: string, p: char, i: char, j: char, rest: string)
    requires k <= |s| && AreMarkerParts(alnum, s[k..], slash, p, i, j, rest)
    ensures MarkerAt(alnum, s, k)
  {
    var t, name := s[k..], 1 + |slash|;
    assert |t| == name + 3 + |rest|;
    assert t[0] == '<' && t[name] == p && t[name + 1] == i && t[name + 2] == j;
    assert slash == "/" ==> t[1] == '/';
    assert rest != "" ==> t[name + 3] == rest[0];
    assert s[k] == t[0] && s[k + 1] == t[1] && s[k + name] == t[name] && s[k + name + 1] == t[name + 1];
    assert s[k + name + 2] == t[name + 2] && (rest != "" ==> s[k + name + 3] == t[name + 3]);
  }

  lemma MarkerMeans(alnum: char -> bool, s: string, k: nat)
    requires k <= |s|
    ensures MarkerAt(alnum, s, k) <==> IsMarker(alnum, s[k..])
  {
    hide MarkerAt, AreMarkerParts;
    if MarkerAt(alnum, s, k) {
      MarkerParts(alnum, s, k);
    }
    if IsMarker(alnum, s[k..]) {
      var slash, p, i, j, rest :| AreMarkerParts(alnum, s[k..], slash, p, i, j, rest);
      PartsOfMarker(alnum, s, k, slash, p, i, j, rest);
    }
  }

  /** A text with one tag, with plain or escaped quotes: the tag's value and its place in the text
      without the tag. */
  lemma OneTagReads(alnum: char -> bool, before: string, kind: string, value: string, after: string)
    requires !alnum('>') && !alnum(' ') && IsKind(kind)
    requires Clean(alnum, before) && Clean(alnum, value) && Clean(alnum, after)
    ensures var row := Some((before + value + after, [Propagation.Span(|before|, |before| + |value|, kind)]));
      && Parsed(alnum, before + ("<pii type=\"" + kind + "\">" + (value + ("</pii>" + after)))) == row
      && Parsed(alnum, before + ("<pii type=\\\"" + kind + "\\\">" + (value + ("</pii>" + after)))) == row
  {
    hide *;
    TagMeans(kind);
    OnePieceReads(alnum, Piece(before, false, kind, value), after);
    OnePieceReads(alnum, Piece(before, true, kind, value), after);
  }

  lemma OnePieceReads(alnum: char -> bool, p: Piece, after: string)
    requires !alnum('>') && !alnum(' ') && IsKind(p.kind)
    requires Clean(alnum, p.before) && Clean(alnum, p.value) && Clean(alnum, after)
    ensures Parsed(alnum, p.before + (OpenTag(p.escaped, p.kind) + (p.value + (CLOSE + after))))
      == Some((p.before + p.value + after, [Propagation.Span(|p.before|, |p.before| + |p.value|, p.kind)]))
  {
    hide Clean, IsKind, OpenTag, Pieces, CleanPieces, FitPieces, SpansOf, TextOf, Raw;
    assert [p] + [] == [p];
    NoPieces(alnum, after);
    RawIs(p, [], after);
    CleanCons(alnum, p, []);
    FitCons(p, []);
    PiecesOfPrinted(alnum, [p], after);
    TextOfCons(p, [], 0);
    assert p.before + p.value + "" == p.before + p.value;
    var span := Propagation.Span(|p.before|, |p.before| + |p.value|, p.kind);
    assert [span] + [] == [span];
    assert SpansOf([], span.end) == [];
  }

  lemma NoPieces(alnum: char -> bool, after: string)
    ensures Raw([], after) == after && CleanPieces(alnum, []) && FitPieces([]) && TextOf([]) == ""
    ensures forall n :: SpansOf([], n) == []
  {
  }

  /** A span printed: the text before it, its tag, its value, the closing tag, and the text after it. */
  lemma OneSpanPrints(text: string, a: nat, b: nat, kind: string)
    requires a <= b <= |text|
    ensures var s := Propagation.Span(a, b, kind);
      && Chained(text, ByStart([s]), 0)
      && TaggedText(text, [s])
         == text[..a] + ("<pii type=\"" + kind + "\">" + (text[a..b] + ("</pii>" + text[b..])))
  {
    hide OpenTag, Cut, Raw, Chained;
    TagMeans(kind);
    var s := Propagation.Span(a, b, kind);
    assert [s][1..] == [];
    assert ByStart([s]) == [s];
    OneChained(text, s);
    CutIs(text, [s], 0);
    CutEmpty(text, [], b);
    var p := Piece(text[..a], false, kind, text[a..b]);
    assert text[0..a] == text[..a] && [p] + [] == [p];
    RawIs(p, [], text[b..]);
    RawNothing(text[b..]);
  }

  lemma OneChained(text: string, s: Span)
    requires 0 <= s.start <= s.end <= |text|
    ensures Chained(text, [s], 0) && Chained(text, [], s.end)
  {
    assert [s][1..] == [];
  }

  /** Spans are sorted by start, and those that start together by end. */
  lemma SortedMeans(spans: seq<Span>)
    ensures var r := Propagation.SortSpans(spans);
      forall i, j :: 0 <= i < j < |r| ==> r[i].start < r[j].start || (r[i].start == r[j].start && r[i].end <= r[j].end)
  {
    Propagation.SortSpansHolds(spans);
    var r := Propagation.SortSpans(spans);
    forall i, j | 0 <= i < j < |r|
      ensures r[i].start < r[j].start || (r[i].start == r[j].start && r[i].end <= r[j].end)
    {
      assert Propagation.Before(r[i], r[j]);
    }
  }
}
