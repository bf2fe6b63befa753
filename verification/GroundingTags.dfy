/** The inline tags of a teacher's answer: `_parse`, `tagged` and the two expressions they rest on,
    in scripts/pii_corpus/grounding.py. `alnum` stands for str.isalnum. */
module GroundingTags {
  import opened Wrappers
  import Propagation

  type Span = Propagation.Span

  const CLOSE := "</pii>"

  // ---- the tag grammar ----

  predicate IsUpper(c: char) {
    'A' <= c <= 'Z'
  }

  predicate IsKindChar(c: char) {
    IsUpper(c) || '0' <= c <= '9' || c == '_'
  }

  /** `[A-Z][A-Z0-9_]{0,27}` */
  predicate IsKind(kind: string) {
    1 <= |kind| <= 28 && IsUpper(kind[0]) && forall i :: 0 <= i < |kind| ==> IsKindChar(kind[i])
  }

  function Escape(escaped: bool): string {
    if escaped then "\\" else ""
  }

  /** The opening tag, with the quotes round its type escaped or not. */
  function OpenTag(escaped: bool, kind: string): string {
    "<pii type=" + (Escape(escaped) + ("\"" + (kind + (Escape(escaped) + "\">"))))
  }

  function KindRun(s: string): (n: nat)
    ensures n <= |s|
  {
    if s != "" && IsKindChar(s[0]) then 1 + KindRun(s[1..]) else 0
  }

  /** The opening tag a text starts with. */
  function Head(s: string): Option<(bool, string)> {
    if !("<pii type=" <= s) then None
    else
      var escaped := |s| > 10 && s[10] == '\\';
      var quote := if escaped then 11 else 10;
      if quote >= |s| then None
      else
        var kind := s[quote + 1..][..KindRun(s[quote + 1..])];
        if IsKind(kind) && OpenTag(escaped, kind) <= s then Some((escaped, kind)) else None
  }

  lemma {:induction false} KindRunOf(kind: string, rest: string)
    requires forall i :: 0 <= i < |kind| ==> IsKindChar(kind[i])
    requires rest != "" && !IsKindChar(rest[0])
    ensures KindRun(kind + rest) == |kind|
  {
    hide IsKindChar;
    if kind == "" {
      assert kind + rest == rest;
    } else {
      assert (kind + rest)[1..] == kind[1..] + rest;
      KindRunOf(kind[1..], rest);
    }
  }

  /** The text starts with an opening tag exactly when the expression's first part matches there,
      and only one escape and one type can match. */
  lemma HeadIsTheTag(s: string, escaped: bool, kind: string)
    ensures Head(s) == Some((escaped, kind)) <==> IsKind(kind) && OpenTag(escaped, kind) <= s
  {
    hide OpenTag, IsKind, KindRun;
    if IsKind(kind) && OpenTag(escaped, kind) <= s {
      OpenTagParts(s, escaped, kind);
      var quote := 10 + |Escape(escaped)|;
      assert s[quote + 1..][..|kind|] == kind;
    }
  }

  lemma OpenTagParts(s: string, escaped: bool, kind: string)
    requires IsKind(kind) && OpenTag(escaped, kind) <= s
    ensures var quote := 10 + |Escape(escaped)|;
      && "<pii type=" <= s && quote + 1 + |kind| < |s| && (escaped <==> s[10] == '\\')
      && KindRun(s[quote + 1..]) == |kind| && kind <= s[quote + 1..]
  {
    hide IsKindChar, KindRun;
    var quote, after := 10 + |Escape(escaped)|, s[|OpenTag(escaped, kind)|..];
    var rest := (Escape(escaped) + "\">") + after;
    assert s == OpenTag(escaped, kind) + after;
    assert s[10] == OpenTag(escaped, kind)[10];
    assert s == "<pii type=" + (Escape(escaped) + ("\"" + (kind + rest)));
    assert s[quote + 1..] == kind + rest;
    KindChars();
    KindRunOf(kind, rest);
  }

  lemma KindChars()
    ensures !IsKindChar('"') && !IsKindChar('\\')
  {
  }

  /** One match of TAG_RE and the text before it. */
  datatype Piece = Piece(before: string, escaped: bool, kind: string, value: string) {
    function Length(): nat {
      |before| + |OpenTag(escaped, kind)| + |value| + |CLOSE|
    }
  }

  /** TAG_RE matched at the start of a text: the value ends at the first closing tag. */
  function MatchHere(s: string): (r: Option<Piece>)
    ensures r.Some? ==> r.value.before == "" && 6 <= r.value.Length() <= |s|
  {
    var head := Head(s);
    if head.None? then None
    else
      var open := |OpenTag(head.value.0, head.value.1)|;
      var end := Propagation.Find(s, CLOSE, open);
      if end == -1 then None else Some(Piece("", head.value.0, head.value.1, s[open..end]))
  }

  /** `TAG_RE.search` from a position on: where it matches. */
  function Search(s: string, from: nat): (r: Option<nat>)
    requires from <= |s|
    ensures r.Some? ==> from <= r.value <= |s| && MatchHere(s[r.value..]).Some?
    decreases |s| - from
  {
    if MatchHere(s[from..]).Some? then Some(from)
    else if from == |s| then None
    else Search(s, from + 1)
  }

  /** `TAG_RE.finditer`: the matches with the text before each, and the text after the last. */
  function Pieces(answer: string): (r: (seq<Piece>, string))
    decreases |answer|
  {
    var at := Search(answer, 0);
    if at.None? then ([], answer)
    else
      var piece := MatchHere(answer[at.value..]).value.(before := answer[..at.value]);
      var (pieces, rest) := Pieces(answer[piece.Length()..]);
      ([piece] + pieces, rest)
  }

  // ---- markers ----

  /** What the letter i of an expression that ignores case matches. */
  predicate IsI(c: char) {
    c == 'i' || c == 'I' || c == '\U{130}' || c == '\U{131}'
  }

  /** `_OPEN_OR_CLOSE` matched at a position. */
  predicate MarkerAt(alnum: char -> bool, s: string, i: nat) {
    && i + 1 < |s| && s[i] == '<'
    && var name := if s[i + 1] == '/' then i + 2 else i + 1;
      && name + 3 <= |s| && (s[name] == 'p' || s[name] == 'P') && IsI(s[name + 1]) && IsI(s[name + 2])
      && (name + 3 == |s| || !(alnum(s[name + 3]) || s[name + 3] == '_'))
  }

  predicate Clean(alnum: char -> bool, s: string) {
    forall i: nat :: i < |s| ==> !MarkerAt(alnum, s, i)
  }

  predicate CleanPieces(alnum: char -> bool, pieces: seq<Piece>) {
    forall p :: p in pieces ==> Clean(alnum, p.before) && Clean(alnum, p.value)
  }

  // ---- the parser ----

  /** The text of the pieces, without their tags. */
  function TextOf(pieces: seq<Piece>): string {
    if pieces == [] then "" else pieces[0].before + pieces[0].value + TextOf(pieces[1..])
  }

  /** The span of each piece's value, with `length` characters before the first. */
  function SpansOf(pieces: seq<Piece>, length: nat): seq<Span> {
    if pieces == [] then []
    else
      var start := length + |pieces[0].before|;
      var end := start + |pieces[0].value|;
      [Propagation.Span(start, end, pieces[0].kind)] + SpansOf(pieces[1..], end)
  }

  /** What `_parse` answers; None is MALFORMED. */
  function Parsed(alnum: char -> bool, answer: string): Option<(string, seq<Span>)> {
    var (pieces, rest) := Pieces(answer);
    if CleanPieces(alnum, pieces) && Clean(alnum, rest)
    then Some((TextOf(pieces) + rest, SpansOf(pieces, 0)))
    else None
  }

  /** What is still to come after some pieces read well. */
  ghost predicate Resumes(alnum: char -> bool, answer: string, position: nat, text: string, spans: seq<Span>) {
    && position <= |answer|
    && var (pieces, rest) := Pieces(answer[position..]);
      Parsed(alnum, answer)
      == if CleanPieces(alnum, pieces) && Clean(alnum, rest)
         then Some((text + (TextOf(pieces) + rest), spans + SpansOf(pieces, |text|)))
         else None
  }

  lemma ResumesAtStart(alnum: char -> bool, answer: string)
    ensures Resumes(alnum, answer, 0, "", [])
  {
    hide Pieces, CleanPieces, Clean;
    assert answer[0..] == answer;
    var (pieces, rest) := Pieces(answer);
    assert "" + (TextOf(pieces) + rest) == TextOf(pieces) + rest;
    assert [] + SpansOf(pieces, 0) == SpansOf(pieces, 0);
  }

  lemma PiecesStep(answer: string, position: nat, at: nat, piece: Piece)
    requires position <= |answer| && Search(answer[position..], 0) == Some(at)
    requires MatchHere(answer[position..][at..]) == Some(piece.(before := ""))
    requires piece.before == answer[position..][..at]
    ensures position + piece.Length() <= |answer|
    ensures Pieces(answer[position..])
      == ([piece] + Pieces(answer[position + piece.Length()..]).0, Pieces(answer[position + piece.Length()..]).1)
  {
    hide MatchHere, Search, OpenTag;
    assert answer[position..][piece.Length()..] == answer[position + piece.Length()..];
  }

  lemma CleanCons(alnum: char -> bool, piece: Piece, pieces: seq<Piece>)
    ensures CleanPieces(alnum, [piece] + pieces)
      <==> Clean(alnum, piece.before) && Clean(alnum, piece.value) && CleanPieces(alnum, pieces)
  {
    hide Clean;
    assert forall p :: p in [piece] + pieces <==> p == piece || p in pieces;
  }

  lemma ResumesStep(alnum: char -> bool, answer: string, position: nat, at: nat, piece: Piece, text: string,
                    spans: seq<Span>)
    requires Resumes(alnum, answer, position, text, spans)
    requires Search(answer[position..], 0) == Some(at)
    requires MatchHere(answer[position..][at..]) == Some(piece.(before := ""))
    requires piece.before == answer[position..][..at]
    ensures Clean(alnum, piece.before) && Clean(alnum, piece.value) ==>
      var start := |text| + |piece.before|;
      Resumes(alnum, answer, position + piece.Length(), text + piece.before + piece.value,
              spans + [Propagation.Span(start, start + |piece.value|, piece.kind)])
    ensures !(Clean(alnum, piece.before) && Clean(alnum, piece.value)) ==> Parsed(alnum, answer).None?
  {
    hide MatchHere, Search, Pieces, Clean, CleanPieces, Parsed, OpenTag;
    PiecesStep(answer, position, at, piece);
    var (pieces, rest) := Pieces(answer[position + piece.Length()..]);
    CleanCons(alnum, piece, pieces);
    var start := |text| + |piece.before|;
    var span := Propagation.Span(start, start + |piece.value|, piece.kind);
    assert ([piece] + pieces)[1..] == pieces;
    assert text + (piece.before + piece.value + TextOf(pieces) + rest)
        == text + piece.before + piece.value + (TextOf(pieces) + rest);
    assert spans + ([span] + SpansOf(pieces, span.end)) == spans + [span] + SpansOf(pieces, span.end);
  }

  /** `_parse` */
  method Parse(alnum: char -> bool, answer: string) returns (r: Option<(string, seq<Span>)>)
    ensures r == Parsed(alnum, answer)
  {
    hide *;
    var text, spans, position := "", [], 0;
    ResumesAtStart(alnum, answer);
    var at := Search(answer, 0);
    assert answer[0..] == answer;
    while at.Some?
      invariant position <= |answer| && at == Search(answer[position..], 0)
      invariant Resumes(alnum, answer, position, text, spans)
      decreases |answer| - position
    {
      var found := MatchHere(answer[position..][at.value..]).value;
      var piece := found.(before := answer[position..][..at.value]);
      assert found == piece.(before := "");
      ResumesStep(alnum, answer, position, at.value, piece, text, spans);
      PiecesStep(answer, position, at.value, piece);
      if !Clean(alnum, piece.before) || !Clean(alnum, piece.value) {
        return None;
      }
      var start := |text| + |piece.before|;
      text := text + piece.before + piece.value;
      spans := spans + [Propagation.Span(start, start + |piece.value|, piece.kind)];
      PieceIsLong(piece);
      position := position + piece.Length();
      at := Search(answer[position..], 0);
    }
    var rest := answer[position..];
    ResumesAtEnd(alnum, answer, position, text, spans);
    if !Clean(alnum, rest) {
      return None;
    }
    return Some((text + rest, spans));
  }

  lemma PieceIsLong(piece: Piece)
    ensures piece.Length() >= 6
  {
  }

  lemma ResumesAtEnd(alnum: char -> bool, answer: string, position: nat, text: string, spans: seq<Span>)
    requires Resumes(alnum, answer, position, text, spans) && Search(answer[position..], 0).None?
    ensures Parsed(alnum, answer)
      == if Clean(alnum, answer[position..]) then Some((text + answer[position..], spans)) else None
  {
    hide MatchHere, Search, Clean, Parsed;
    assert Pieces(answer[position..]) == ([], answer[position..]);
    assert "" + answer[position..] == answer[position..];
    assert spans + [] == spans;
  }

  // ---- the printer ----

  /** The pieces written out again. */
  function Raw(pieces: seq<Piece>, rest: string): string {
    if pieces == [] then rest
    else
      var p := pieces[0];
      p.before + (OpenTag(p.escaped, p.kind) + (p.value + (CLOSE + Raw(pieces[1..], rest))))
  }

  /** Spans of a text in order, none starting before the one before has ended. */
  predicate Chained(text: string, spans: seq<Span>, from: int) {
    if spans == [] then 0 <= from <= |text|
    else 0 <= from <= spans[0].start <= spans[0].end && Chained(text, spans[1..], spans[0].end)
  }

  lemma {:induction false} ChainedInText(text: string, spans: seq<Span>, from: int)
    requires Chained(text, spans, from)
    ensures 0 <= from <= |text|
  {
    if spans != [] {
      ChainedInText(text, spans[1..], spans[0].end);
    }
  }

  /** The text from a position on, cut at the spans. */
  function Cut(text: string, spans: seq<Span>, from: nat): (seq<Piece>, string)
    requires Chained(text, spans, from)
  {
    ChainedInText(text, spans, from);
    if spans == [] then ([], text[from..])
    else
      var s := spans[0];
      ChainedInText(text, spans[1..], s.end);
      var (pieces, rest) := Cut(text, spans[1..], s.end);
      ([Piece(text[from..s.start], false, s.kind, text[s.start..s.end])] + pieces, rest)
  }

  /** `sorted(spans, key=lambda s: s.start)`: stable. */
  function ByStart(spans: seq<Span>): (r: seq<Span>)
    ensures |r| == |spans| && forall s :: s in r <==> s in spans
  {
    if spans == [] then [] else InsertByStart(spans[0], ByStart(spans[1..]))
  }

  function InsertByStart(s: Span, sorted: seq<Span>): (r: seq<Span>)
    ensures |r| == |sorted| + 1 && forall x :: x in r <==> x == s || x in sorted
  {
    if sorted == [] || s.start <= sorted[0].start then [s] + sorted
    else [sorted[0]] + InsertByStart(s, sorted[1..])
  }

  /** What `tagged` prints. */
  function TaggedText(text: string, spans: seq<Span>): string
    requires Chained(text, ByStart(spans), 0)
  {
    var (pieces, rest) := Cut(text, ByStart(spans), 0);
    Raw(pieces, rest)
  }

  lemma RawIs(p: Piece, pieces: seq<Piece>, rest: string)
    ensures Raw([p] + pieces, rest)
      == p.before + (OpenTag(p.escaped, p.kind) + (p.value + (CLOSE + Raw(pieces, rest))))
  {
    hide OpenTag;
    assert ([p] + pieces)[1..] == pieces;
  }

  lemma CutIs(text: string, spans: seq<Span>, from: nat)
    requires Chained(text, spans, from) && spans != []
    ensures var s := spans[0];
      && from <= s.start <= s.end <= |text| && Chained(text, spans[1..], s.end)
      && Cut(text, spans, from)
         == ([Piece(text[from..s.start], false, s.kind, text[s.start..s.end])] + Cut(text, spans[1..], s.end).0,
             Cut(text, spans[1..], s.end).1)
  {
    ChainedInText(text, spans[1..], spans[0].end);
  }

  lemma Regroup(a: string, b: string, c: string, d: string, e: string, f: string)
    ensures a + (b + (c + (d + (e + f)))) == a + b + (c + d + e) + f
  {
  }

  lemma RawCons(text: string, spans: seq<Span>, from: nat, printed: string)
    requires Chained(text, spans, from) && spans != []
    ensures from <= spans[0].start <= spans[0].end <= |text| && Chained(text, spans[1..], spans[0].end)
    ensures var s := spans[0];
      var (pieces, rest) := Cut(text, spans, from);
      var (pieces', rest') := Cut(text, spans[1..], s.end);
      printed + Raw(pieces, rest)
      == printed + text[from..s.start] + (OpenTag(false, s.kind) + text[s.start..s.end] + CLOSE) + Raw(pieces', rest')
  {
    hide *;
    var s := spans[0];
    CutIs(text, spans, from);
    var (pieces, rest) := Cut(text, spans[1..], s.end);
    RawIs(Piece(text[from..s.start], false, s.kind, text[s.start..s.end]), pieces, rest);
    Regroup(printed, text[from..s.start], OpenTag(false, s.kind), text[s.start..s.end], CLOSE, Raw(pieces, rest));
  }

  /** `tagged` */
  method PrintTagged(text: string, spans: seq<Span>) returns (r: string)
    requires Chained(text, ByStart(spans), 0)
    ensures r == TaggedText(text, spans)
  {
    hide *;
    var order, position := ByStart(spans), 0;
    r := "";
    TaggedTextIs(text, spans);
    assert order[0..] == order;
    for i := 0 to |order|
      invariant position >= 0 && Chained(text, order[i..], position)
      invariant TaggedText(text, spans)
        == r + Raw(Cut(text, order[i..], position).0, Cut(text, order[i..], position).1)
    {
      RawCons(text, order[i..], position, r);
      assert order[i..][1..] == order[i + 1..];
      var s := order[i];
      r := r + text[position..s.start] + (OpenTag(false, s.kind) + text[s.start..s.end] + CLOSE);
      position := s.end;
    }
    ChainedInText(text, order[|order|..], position);
    CutNothing(text, position, order[|order|..]);
    r := r + text[position..];
  }

  lemma TaggedTextIs(text: string, spans: seq<Span>)
    requires Chained(text, ByStart(spans), 0)
    ensures TaggedText(text, spans) == "" + Raw(Cut(text, ByStart(spans), 0).0, Cut(text, ByStart(spans), 0).1)
  {
    hide Raw, Cut, Chained, ByStart;
  }

  lemma CutNothing(text: string, from: nat, spans: seq<Span>)
    requires Chained(text, spans, from) && spans == [] && from <= |text|
    ensures Raw(Cut(text, spans, from).0, Cut(text, spans, from).1) == text[from..]
  {
  }

  // ---- what the pieces of an answer are ----

  predicate FitPieces(pieces: seq<Piece>) {
    forall p :: p in pieces ==> IsKind(p.kind)
  }

  lemma FitCons(p: Piece, pieces: seq<Piece>)
    ensures FitPieces([p] + pieces) <==> IsKind(p.kind) && FitPieces(pieces)
  {
    hide IsKind;
    assert forall x :: x in [p] + pieces <==> x == p || x in pieces;
  }

  lemma PiecesIs(answer: string)
    ensures var at := Search(answer, 0);
      if at.None? then Pieces(answer) == ([], answer)
      else
        && MatchHere(answer[at.value..]).Some?
        && var piece := MatchHere(answer[at.value..]).value.(before := answer[..at.value]);
          && piece.Length() == at.value + MatchHere(answer[at.value..]).value.Length()
          && 0 < piece.Length() <= |answer|
          && Pieces(answer) == ([piece] + Pieces(answer[piece.Length()..]).0, Pieces(answer[piece.Length()..]).1)
  {
    hide Search, MatchHere, OpenTag;
  }

  /** A text put together again round a part of it. */
  lemma Assembled(s: string, a: nat, b: nat, open: string, value: string, close: string)
    requires a <= b <= |s| && s[a..b] == open + (value + close)
    ensures s[..a] + (open + (value + (close + s[b..]))) == s
  {
    assert open + (value + (close + s[b..])) == s[a..b] + s[b..];
  }

  /** The first match and the text before it, printed in front of what follows, are the answer. */
  lemma FirstPiece(answer: string, pieces: seq<Piece>, rest: string)
    requires Search(answer, 0).Some? && MatchHere(answer[Search(answer, 0).value..]).Some?
    requires var at := Search(answer, 0).value;
      var p := MatchHere(answer[at..]).value.(before := answer[..at]);
      p.Length() <= |answer| && Raw(pieces, rest) == answer[p.Length()..]
    ensures var at := Search(answer, 0).value;
      var p := MatchHere(answer[at..]).value.(before := answer[..at]);
      IsKind(p.kind) && Raw([p] + pieces, rest) == answer
  {
    hide *;
    var at := Search(answer, 0).value;
    var found := MatchHere(answer[at..]).value;
    var p := found.(before := answer[..at]);
    MatchIs(answer[at..]);
    PieceLength(found, answer[..at]);
    SliceOfSuffix(answer, at, found.Length());
    RawIs(p, pieces, rest);
    Assembled(answer, at, p.Length(), OpenTag(p.escaped, p.kind), p.value, CLOSE);
  }

  lemma PieceLength(found: Piece, before: string)
    ensures found.(before := before).Length() == |before| + found.(before := "").Length()
  {
    hide OpenTag;
  }

  lemma SliceOfSuffix(s: string, a: nat, b: nat)
    requires a + b <= |s|
    ensures s[a..][..b] == s[a..a + b]
  {
  }

  /** The matches lose and invent no character, and each has a fitting type. */
  lemma {:induction false} PiecesAreTheAnswer(answer: string)
    ensures var (pieces, rest) := Pieces(answer);
      Raw(pieces, rest) == answer && FitPieces(pieces)
    decreases |answer|
  {
    hide *;
    PiecesIs(answer);
    var at := Search(answer, 0);
    if at.Some? {
      var piece := MatchHere(answer[at.value..]).value.(before := answer[..at.value]);
      var (pieces, rest) := Pieces(answer[piece.Length()..]);
      PiecesAreTheAnswer(answer[piece.Length()..]);
      FirstPiece(answer, pieces, rest);
      FitCons(piece, pieces);
    } else {
      RawNothing(answer);
    }
  }

  lemma RawNothing(rest: string)
    ensures Raw([], rest) == rest && FitPieces([])
  {
  }

  lemma MatchIs(s: string)
    requires MatchHere(s).Some?
    ensures var p := MatchHere(s).value;
      && p.before == "" && IsKind(p.kind) && p.Length() <= |s|
      && s[..p.Length()] == OpenTag(p.escaped, p.kind) + (p.value + CLOSE)
  {
    hide OpenTag, IsKind, Head, Propagation.Find;
    var p := MatchHere(s).value;
    HeadIsTheTag(s, p.escaped, p.kind);
    var open := |OpenTag(p.escaped, p.kind)|;
    var end := Propagation.Find(s, CLOSE, open);
    ThreeSlices(s, open, end, end + 6);
  }

  lemma ThreeSlices(s: string, a: nat, b: nat, c: nat)
    requires a <= b <= c <= |s|
    ensures s[..c] == s[..a] + (s[a..b] + s[b..c])
  {
  }

  // ---- printing and reading again ----

  /** An opening tag is a marker. */
  lemma TagStarts(s: string)
    requires Head(s).Some?
    ensures |s| > 5 && s[0] == '<' && s[1] == 'p' && s[2] == 'i' && s[3] == 'i' && s[4] == ' '
  {
    hide IsKind, KindRun;
    assert "<pii type="[0] == '<' && "<pii type="[4] == ' ';
  }

  /** No tag starts in a clean text that ends where a tag starts, or where the text ends. */
  lemma NoTagInClean(alnum: char -> bool, s: string, n: nat, i: nat)
    requires !alnum(' ') && i < n <= |s| && Clean(alnum, s[..n]) && (n == |s| || s[n] == '<')
    ensures MatchHere(s[i..]).None?
  {
    hide Head, OpenTag, IsKind;
    if Head(s[i..]).Some? {
      TagStarts(s[i..]);
      assert s[i..][1] == s[i + 1] && s[i..][2] == s[i + 2] && s[i..][3] == s[i + 3] && s[i..][4] == s[i + 4];
      assert !MarkerAt(alnum, s[..n], i);
    }
  }

  lemma {:induction false} SearchIs(s: string, from: nat, n: nat)
    requires from <= n <= |s| && MatchHere(s[n..]).Some?
    requires forall i :: from <= i < n ==> MatchHere(s[i..]).None?
    ensures Search(s, from) == Some(n)
    decreases n - from
  {
    hide MatchHere;
    if from < n {
      SearchIs(s, from + 1, n);
    }
  }

  lemma {:induction false} SearchNone(s: string, from: nat)
    requires from <= |s| && forall i :: from <= i <= |s| ==> MatchHere(s[i..]).None?
    ensures Search(s, from) == None
    decreases |s| - from
  {
    hide MatchHere;
    if from < |s| {
      SearchNone(s, from + 1);
    }
  }

  lemma CloseChars(s: string, j: nat)
    requires Propagation.OccursAt(s, CLOSE, j)
    ensures j + 6 <= |s| && s[j] == '<' && s[j + 1] == '/' && s[j + 2] == 'p' && s[j + 3] == 'i' && s[j + 4] == 'i'
    ensures s[j + 5] == '>'
  {
    var c := s[j..j + 6];
    assert c[0] == s[j] && c[1] == s[j + 1] && c[2] == s[j + 2] && c[3] == s[j + 3];
    assert c[4] == s[j + 4] && c[5] == s[j + 5];
    assert c == CLOSE && CLOSE[0] == '<' && CLOSE[1] == '/' && CLOSE[2] == 'p' && CLOSE[3] == 'i' && CLOSE[4] == 'i';
    assert CLOSE[5] == '>';
  }

  /** No closing tag starts in a clean value. */
  lemma NoCloseInClean(alnum: char -> bool, s: string, start: nat, end: nat, j: nat)
    requires !alnum('>') && start <= j < end < |s| && Clean(alnum, s[start..end]) && s[end] == '<'
    ensures !Propagation.OccursAt(s, CLOSE, j)
  {
    hide Propagation.OccursAt, Clean;
    if Propagation.OccursAt(s, CLOSE, j) {
      CloseChars(s, j);
      var v, k := s[start..end], j - start;
      assert j + 6 <= end;
      assert v[k] == s[j] && v[k + 1] == s[j + 1] && v[k + 2] == s[j + 2] && v[k + 3] == s[j + 3];
      assert v[k + 4] == s[j + 4] && v[k + 5] == s[j + 5];
      MarkerIsDirt(alnum, v, k);
      assert false;
    }
  }

  lemma MarkerIsDirt(alnum: char -> bool, s: string, i: nat)
    requires MarkerAt(alnum, s, i)
    ensures !Clean(alnum, s)
  {
  }

  /** A printed tag is matched whole. */
  lemma MatchOfPrinted(alnum: char -> bool, s: string, p: Piece, more: string)
    requires !alnum('>') && IsKind(p.kind) && Clean(alnum, p.value) && p.before == ""
    requires s == OpenTag(p.escaped, p.kind) + (p.value + (CLOSE + more))
    ensures MatchHere(s) == Some(p) && s[p.Length()..] == more
  {
    hide OpenTag, IsKind, Head, Clean;
    var open := |OpenTag(p.escaped, p.kind)|;
    var end := open + |p.value|;
    assert s[..open] == OpenTag(p.escaped, p.kind) && s[open..end] == p.value;
    HeadIsTheTag(s, p.escaped, p.kind);
    assert s[end..end + 6] == CLOSE && CLOSE[0] == '<';
    assert s[end] == s[end..end + 6][0];
    forall j | open <= j < end ensures !Propagation.OccursAt(s, CLOSE, j) {
      NoCloseInClean(alnum, s, open, end, j);
    }
    Propagation.FindIs(s, CLOSE, open, end);
  }

  /** The first match of printed pieces is the first piece. */
  lemma SearchOfPrinted(alnum: char -> bool, p: Piece, more: string)
    requires !alnum('>') && !alnum(' ') && IsKind(p.kind) && Clean(alnum, p.before) && Clean(alnum, p.value)
    ensures var s := p.before + (OpenTag(p.escaped, p.kind) + (p.value + (CLOSE + more)));
      var n := |p.before|;
      && Search(s, 0) == Some(n) && MatchHere(s[n..]) == Some(p.(before := ""))
      && s[..n] == p.before && s[p.Length()..] == more
  {
    hide *;
    var n := |p.before|;
    var tag := OpenTag(p.escaped, p.kind) + (p.value + (CLOSE + more));
    var s := p.before + tag;
    Parts(p.before, tag);
    OpenTagStarts(p.escaped, p.kind);
    assert tag[0] == '<' && s[n] == tag[0];
    forall i | 0 <= i < n ensures MatchHere(s[i..]).None? {
      NoTagInClean(alnum, s, n, i);
    }
    MatchOfPrinted(alnum, tag, p.(before := ""), more);
    SearchIs(s, 0, n);
    PieceLength(p, p.before);
    PieceLength(p, "");
    DropMore(p.before, tag, p.(before := "").Length());
  }

  lemma Parts(a: string, b: string)
    ensures (a + b)[..|a|] == a && (a + b)[|a|..] == b
  {
  }

  lemma DropMore(a: string, b: string, n: nat)
    requires n <= |b|
    ensures (a + b)[|a| + n..] == b[n..]
  {
  }

  /** Pieces printed and read again come back, escapes and all. */
  lemma {:induction false} PiecesOfPrinted(alnum: char -> bool, pieces: seq<Piece>, rest: string)
    requires !alnum('>') && !alnum(' ') && FitPieces(pieces) && CleanPieces(alnum, pieces) && Clean(alnum, rest)
    ensures Pieces(Raw(pieces, rest)) == (pieces, rest)
    decreases |pieces|
  {
    hide *;
    if pieces == [] {
      NothingAfter(alnum, rest);
      RawNothing(rest);
      PiecesIs(rest);
    } else {
      var p, others := pieces[0], pieces[1..];
      assert pieces == [p] + others;
      FitCons(p, others);
      CleanCons(alnum, p, others);
      PiecesOfPrinted(alnum, others, rest);
      SearchOfPrinted(alnum, p, Raw(others, rest));
      RawIs(p, others, rest);
      PiecesIs(Raw(pieces, rest));
    }
  }

  lemma OpenTagStarts(escaped: bool, kind: string)
    ensures |OpenTag(escaped, kind)| > 0 && OpenTag(escaped, kind)[0] == '<'
  {
  }

  lemma NothingAfter(alnum: char -> bool, rest: string)
    requires !alnum(' ') && Clean(alnum, rest)
    ensures Search(rest, 0) == None
  {
    hide Search, Clean;
    forall i | 0 <= i <= |rest| ensures MatchHere(rest[i..]).None? {
      if i < |rest| {
        assert rest[..|rest|] == rest;
        NoTagInClean(alnum, rest, |rest|, i);
      }
    }
    SearchNone(rest, 0);
  }

  // ---- spans and pieces ----

  lemma TextOfCons(p: Piece, pieces: seq<Piece>, length: nat)
    ensures TextOf([p] + pieces) == p.before + p.value + TextOf(pieces)
    ensures var start := length + |p.before|;
      SpansOf([p] + pieces, length)
      == [Propagation.Span(start, start + |p.value|, p.kind)] + SpansOf(pieces, start + |p.value|)
  {
    assert ([p] + pieces)[1..] == pieces;
  }

  /** Cutting a text at its spans keeps both. */
  lemma {:induction false} CutHolds(text: string, spans: seq<Span>, from: nat)
    requires Chained(text, spans, from)
    ensures from <= |text|
    ensures var (pieces, rest) := Cut(text, spans, from);
      && TextOf(pieces) + rest == text[from..] && SpansOf(pieces, from) == spans
      && |pieces| == |spans| && forall i :: 0 <= i < |spans| ==> pieces[i].kind == spans[i].kind && !pieces[i].escaped
  {
    hide *;
    if spans == [] {
      CutEmpty(text, spans, from);
    } else {
      var s := spans[0];
      CutIs(text, spans, from);
      CutHolds(text, spans[1..], s.end);
      var (pieces, rest) := Cut(text, spans[1..], s.end);
      var p := Piece(text[from..s.start], false, s.kind, text[s.start..s.end]);
      TextOfCons(p, pieces, from);
      ThreeParts(text, from, s.start, s.end);
      assert p.before + p.value + TextOf(pieces) + rest == p.before + p.value + (TextOf(pieces) + rest);
      assert spans == [s] + spans[1..];
    }
  }

  lemma CutEmpty(text: string, spans: seq<Span>, from: nat)
    requires Chained(text, spans, from) && spans == []
    ensures from <= |text| && Cut(text, spans, from) == ([], text[from..])
    ensures TextOf([]) + text[from..] == text[from..] && SpansOf([], from) == []
  {
  }

  lemma ThreeParts(text: string, a: nat, b: nat, c: nat)
    requires a <= b <= c <= |text|
    ensures text[a..] == text[a..b] + text[b..c] + text[c..]
  {
  }

  function Unescaped(pieces: seq<Piece>): seq<Piece> {
    seq(|pieces|, i requires 0 <= i < |pieces| => pieces[i].(escaped := false))
  }

  lemma UnescapedCons(p: Piece, pieces: seq<Piece>)
    ensures Unescaped([p] + pieces) == [p.(escaped := false)] + Unescaped(pieces)
  {
  }

  lemma ChainedCons(text: string, s: Span, spans: seq<Span>, from: int)
    requires 0 <= from <= s.start <= s.end && Chained(text, spans, s.end)
    ensures Chained(text, [s] + spans, from)
  {
    assert ([s] + spans)[1..] == spans;
  }

  /** The text and spans of any pieces, cut again, are those pieces without their escapes. */
  lemma {:induction false} CutOfPieces(before: string, pieces: seq<Piece>, rest: string)
    ensures var text := before + (TextOf(pieces) + rest);
      && Chained(text, SpansOf(pieces, |before|), |before|)
      && Cut(text, SpansOf(pieces, |before|), |before|) == (Unescaped(pieces), rest)
    decreases |pieces|
  {
    hide Cut, TextOf, SpansOf, Chained, Unescaped;
    var text := before + (TextOf(pieces) + rest);
    if pieces == [] {
      CutOfNothing(before, rest);
    } else {
      var p, more := pieces[0], pieces[1..];
      assert pieces == [p] + more;
      var before' := before + p.before + p.value;
      CutOfPieces(before', more, rest);
      TextOfCons(p, more, |before|);
      Regroup5(before, p.before, p.value, TextOf(more), rest);
      var s := Propagation.Span(|before + p.before|, |before'|, p.kind);
      var spans := SpansOf(more, |before'|);
      ChainedCons(text, s, spans, |before|);
      assert ([s] + spans)[1..] == spans;
      CutIs(text, [s] + spans, |before|);
      UnescapedCons(p, more);
      Slices(before, p.before, p.value, TextOf(more) + rest);
    }
  }

  lemma CutOfNothing(before: string, rest: string)
    ensures var text := before + (TextOf([]) + rest);
      && Chained(text, SpansOf([], |before|), |before|)
      && Cut(text, SpansOf([], |before|), |before|) == (Unescaped([]), rest)
  {
    assert TextOf([]) + rest == rest && SpansOf([], |before|) == [] && Unescaped([]) == [];
    assert (before + rest)[|before|..] == rest;
  }

  lemma Regroup5(a: string, b: string, c: string, d: string, e: string)
    ensures a + (b + c + d + e) == a + b + c + (d + e)
  {
  }

  lemma Slices(a: string, b: string, c: string, d: string)
    ensures var s := a + b + c + d;
      && s[|a|..|a + b|] == b && s[|a + b|..|a + b + c|] == c
  {
  }

  // ---- the main results ----

  /** Types that fit the grammar, and no marker in a gap or a value on its own. */
  predicate Printable(alnum: char -> bool, text: string, spans: seq<Span>)
    requires Chained(text, spans, 0)
  {
    var (pieces, rest) := Cut(text, spans, 0);
    (forall s :: s in spans ==> IsKind(s.kind)) && CleanPieces(alnum, pieces) && Clean(alnum, rest)
  }

  lemma {:induction false} ByStartSorted(spans: seq<Span>, text: string, from: int)
    requires Chained(text, spans, from)
    ensures ByStart(spans) == spans
  {
    if spans != [] {
      ByStartSorted(spans[1..], text, spans[0].end);
      assert spans == [spans[0]] + spans[1..];
    }
  }

  /** A tagged text that parses, parses to spans in order that can be printed; and printing them
      undoes the escapes and changes nothing else. */
  lemma ParsedIsPrintable(alnum: char -> bool, answer: string)
    requires Parsed(alnum, answer).Some?
    ensures var (text, spans) := Parsed(alnum, answer).value;
      && Chained(text, spans, 0) && ByStart(spans) == spans && Printable(alnum, text, spans)
      && TaggedText(text, spans) == Raw(Unescaped(Pieces(answer).0), Pieces(answer).1)
  {
    hide Pieces, Clean, IsKind, Raw, Cut, ByStart;
    var (text, spans) := Parsed(alnum, answer).value;
    var (pieces, rest) := Pieces(answer);
    PiecesAreTheAnswer(answer);
    CutOfPieces("", pieces, rest);
    assert "" + (TextOf(pieces) + rest) == text;
    ByStartSorted(spans, text, 0);
    CutHolds(text, spans, 0);
    forall s | s in spans ensures IsKind(s.kind) {
      var i :| 0 <= i < |spans| && spans[i] == s;
      assert pieces[i] in pieces && Unescaped(pieces)[i].kind == pieces[i].kind;
    }
    forall p | p in Unescaped(pieces) ensures Clean(alnum, p.before) && Clean(alnum, p.value) {
      var i :| 0 <= i < |pieces| && Unescaped(pieces)[i] == p;
      assert pieces[i] in pieces;
    }
  }

  /** Reading the printed form gives back the text and the sorted spans exactly when the types fit
      the grammar and no gap and no value holds a marker on its own. */
  lemma ParsedOfTagged(alnum: char -> bool, text: string, spans: seq<Span>)
    requires !alnum('>') && !alnum(' ') && Chained(text, ByStart(spans), 0)
    ensures Parsed(alnum, TaggedText(text, spans)) == Some((text, ByStart(spans)))
      <==> Printable(alnum, text, ByStart(spans))
  {
    hide Pieces, Clean, IsKind, Raw, Cut, ByStart;
    var order := ByStart(spans);
    if Printable(alnum, text, order) {
      var (pieces, rest) := Cut(text, order, 0);
      CutHolds(text, order, 0);
      forall p | p in pieces ensures IsKind(p.kind) {
        var i :| 0 <= i < |pieces| && pieces[i] == p;
        assert order[i] in order;
      }
      PiecesOfPrinted(alnum, pieces, rest);
      assert text[0..] == text;
    }
    if Parsed(alnum, TaggedText(text, spans)) == Some((text, order)) {
      ParsedIsPrintable(alnum, TaggedText(text, spans));
    }
  }

  /** Printing what was parsed is a normal form: it parses to the same row, and printing that row
      gives the same text again. */
  lemma NormalForm(alnum: char -> bool, answer: string)
    requires !alnum('>') && !alnum(' ') && Parsed(alnum, answer).Some?
    ensures var (text, spans) := Parsed(alnum, answer).value;
      Chained(text, ByStart(spans), 0) && Parsed(alnum, TaggedText(text, spans)) == Parsed(alnum, answer)
  {
    hide *;
    var (text, spans) := Parsed(alnum, answer).value;
    ParsedIsPrintable(alnum, answer);
    ParsedOfTagged(alnum, text, spans);
  }

  /** Non-empty spans of a text that do not overlap, in any order, can be printed. */
  lemma DisjointSpansChain(text: string, spans: seq<Span>)
    requires Propagation.InText(text, spans) && Propagation.Disjoint(spans)
    ensures Chained(text, ByStart(spans), 0)
  {
    hide ByStart;
    ByStartHolds(spans);
    ChainOf(text, ByStart(spans), 0);
  }

  /** In order of start, and each ended before the next one starts. */
  predicate InOrder(spans: seq<Span>) {
    forall i, j :: 0 <= i < j < |spans| ==> spans[i].start <= spans[j].start && Propagation.Apart(spans[i], spans[j])
  }

  lemma {:induction false} ByStartHolds(spans: seq<Span>)
    requires Propagation.Disjoint(spans)
    ensures InOrder(ByStart(spans))
  {
    if spans != [] {
      assert Propagation.Disjoint(spans[1..]);
      ByStartHolds(spans[1..]);
      forall x | x in ByStart(spans[1..]) ensures Propagation.Apart(spans[0], x) {
        var k :| 0 <= k < |spans[1..]| && spans[1..][k] == x;
        assert spans[k + 1] == x;
      }
      InsertByStartHolds(spans[0], ByStart(spans[1..]));
    }
  }

  lemma {:induction false} InsertByStartHolds(s: Span, sorted: seq<Span>)
    requires InOrder(sorted) && forall x :: x in sorted ==> Propagation.Apart(s, x)
    ensures InOrder(InsertByStart(s, sorted))
  {
    if sorted != [] && s.start > sorted[0].start {
      InsertByStartHolds(s, sorted[1..]);
      var rest := InsertByStart(s, sorted[1..]);
      forall j | 0 <= j < |rest|
        ensures sorted[0].start <= rest[j].start && Propagation.Apart(sorted[0], rest[j])
      {
        assert rest[j] in rest && sorted[0] in sorted;
        if rest[j] != s {
          var k :| 0 <= k < |sorted[1..]| && sorted[1..][k] == rest[j];
          assert sorted[k + 1] == rest[j];
        }
      }
    }
  }

  lemma {:induction false} ChainOf(text: string, spans: seq<Span>, from: nat)
    requires InOrder(spans) && from <= |text|
    requires forall s :: s in spans ==> from <= s.start < s.end <= |text|
    ensures Chained(text, spans, from)
  {
    if spans != [] {
      forall s | s in spans[1..] ensures spans[0].end <= s.start {
        var k :| 0 <= k < |spans[1..]| && spans[1..][k] == s;
        assert Propagation.Apart(spans[0], spans[k + 1]) && spans[k + 1] in spans;
      }
      ChainOf(text, spans[1..], spans[0].end);
    }
  }
}
