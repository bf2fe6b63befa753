/** The text `_emit_table` of src/llm_redact/config_write.py writes, and reading that text back. */
module TomlEmit {
  import opened Wrappers
  import opened TomlText
  import opened TomlTables

  // ---- lines as text ----

  /** A header's dotted path, as it grows from table to nested table. */
  function PathText(path: seq<string>): string {
    if path == [] then ""
    else if |path| == 1 then KeyText(path[0])
    else PathText(path[..|path| - 1]) + "." + KeyText(path[|path| - 1])
  }

  predicate Printable(line: Line) {
    match line
    case Header(path, _) => path != []
    case Pair(e) => HasText(e.value) && WellFormed(e.value)
  }

  /** One string appended to `lines`: a header brings an empty line before it. */
  function LineText(line: Line): string
    requires Printable(line)
  {
    match line
    case Header(path, isArray) => if isArray then "\n[[" + PathText(path) + "]]" else "\n[" + PathText(path) + "]"
    case Pair(e) => PairText(e)
  }

  function LineTexts(lines: seq<Line>): seq<string>
    requires forall l :: l in lines ==> Printable(l)
  {
    seq(|lines|, i requires 0 <= i < |lines| => LineText(lines[i]))
  }

  /** The strings joined with line breaks, and a last one at the end. */
  function TextOf(texts: seq<string>): string {
    if texts == [] then "" else texts[0] + "\n" + TextOf(texts[1..])
  }

  // ---- reading text ----

  /** A dotted path at the head of s, and the text after it. */
  function ReadPath(s: string): (r: Option<(seq<string>, string)>)
    ensures r.Some? ==> r.value.0 != [] && |r.value.1| < |s|
    decreases |s|
  {
    var k := ReadKey(s);
    if k.None? then None
    else if StartsWith(k.value.1, '.') then
      var more := ReadPath(k.value.1[1..]);
      if more.Some? then Some(([k.value.0] + more.value.0, more.value.1)) else None
    else Some(([k.value.0], k.value.1))
  }

  /** One physical line: a header, a pair, or nothing. */
  function ReadOneLine(d: Doc, s: string): Option<Doc> {
    if s == "" then Some(d)
    else if "[[" <= s then
      var p := ReadPath(s[2..]);
      if p.Some? && p.value.1 == "]]" then ReadLine(d, Header(p.value.0, true)) else None
    else if "[" <= s then
      var p := ReadPath(s[1..]);
      if p.Some? && p.value.1 == "]" then ReadLine(d, Header(p.value.0, false)) else None
    else
      var e := ReadPair(s);
      if e.Some? && e.value.1 == "" then ReadLine(d, Pair(e.value.0)) else None
  }

  /** How far the first line of s reaches. */
  function LineEnd(s: string): (n: nat)
    ensures n <= |s|
  {
    if s == "" || s[0] == '\n' then 0 else 1 + LineEnd(s[1..])
  }

  /** A whole text, line after line. */
  function ReadText(d: Doc, s: string): Option<Doc>
    decreases |s|
  {
    var n := LineEnd(s);
    var next := ReadOneLine(d, s[..n]);
    if next.None? || n == |s| then next else ReadText(next.value, s[n + 1..])
  }

  // ---- the text of emitted lines reads as those lines ----

  lemma {:induction false} PathTextFront(path: seq<string>)
    requires |path| > 1
    ensures PathText(path) == KeyText(path[0]) + "." + PathText(path[1..])
    decreases |path|
  {
    hide KeyText;
    var front, last := path[..|path| - 1], KeyText(path[|path| - 1]);
    if |path| > 2 {
      PathTextFront(front);
      assert front[1..] == path[1..][..|path| - 2];
      assert PathText(path[1..]) == PathText(front[1..]) + "." + last;
      assert KeyText(path[0]) + "." + PathText(front[1..]) + "." + last
          == KeyText(path[0]) + "." + (PathText(front[1..]) + "." + last);
    } else {
      assert front == [path[0]] && path[1..] == [path[1]];
    }
  }

  lemma {:induction false} PathIsOneLine(path: seq<string>)
    ensures '\n' !in PathText(path)
    decreases |path|
  {
    hide KeyText;
    if path != [] {
      ReadPrintedKey(path[|path| - 1], "");
      PathIsOneLine(path[..|path| - 1]);
    }
  }

  lemma {:induction false} ReadPrintedPath(path: seq<string>, rest: string)
    requires path != [] && StartsWith(rest, ']')
    ensures ReadPath(PathText(path) + rest) == Some((path, rest))
    ensures PathText(path) != "" && PathText(path)[0] != '['
    decreases |path|
  {
    hide KeyText, ReadKey;
    var key := path[0];
    if |path| == 1 {
      ReadPrintedKey(key, rest);
      assert path == [key];
    } else {
      PathTextFront(path);
      var more := PathText(path[1..]) + rest;
      ReadPrintedPath(path[1..], rest);
      ReadPrintedKey(key, "." + more);
      assert PathText(path) + rest == KeyText(key) + ("." + more);
      assert ("." + more)[1..] == more;
      assert path == [key] + path[1..];
    }
  }

  lemma {:induction false} LineEndOf(s: string, more: string)
    requires '\n' !in s
    ensures LineEnd(s + "\n" + more) == |s|
  {
    if s == "" {
      assert s + "\n" + more == "\n" + more;
    } else {
      assert (s + "\n" + more)[1..] == s[1..] + "\n" + more;
      LineEndOf(s[1..], more);
    }
  }

  lemma ReadTextStep(d: Doc, s: string, more: string)
    requires '\n' !in s
    ensures var next := ReadOneLine(d, s);
      ReadText(d, s + "\n" + more) == if next.Some? then ReadText(next.value, more) else None
  {
    hide ReadOneLine;
    LineEndOf(s, more);
    var text := s + "\n" + more;
    assert text[..|s|] == s && text[|s| + 1..] == more;
  }

  lemma ReadHeaderText(d: Doc, path: seq<string>, isArray: bool)
    requires path != []
    ensures var s := (if isArray then "[[" else "[") + PathText(path) + (if isArray then "]]" else "]");
      ReadOneLine(d, s) == ReadLine(d, Header(path, isArray)) && '\n' !in s
  {
    hide ReadPath, PathText, ReadLine, ReadPair;
    PathIsOneLine(path);
    var text := PathText(path);
    if isArray {
      ReadPrintedPath(path, "]]");
      var s := "[[" + text + "]]";
      assert s[2..] == text + "]]";
    } else {
      ReadPrintedPath(path, "]");
      var s := "[" + text + "]";
      assert s[1..] == text + "]" && s[1] == text[0];
    }
  }

  lemma ReadPairText(d: Doc, e: Entry)
    requires HasText(e.value) && WellFormed(e.value)
    ensures ReadOneLine(d, PairText(e)) == ReadLine(d, Pair(e)) && '\n' !in PairText(e)
  {
    hide ReadPath, PairText, ReadLine, ReadPair, HasText, WellFormed;
    ReadPrintedPair(e, "");
    assert PairText(e) + "" == PairText(e);
    ReadableIs(PairText(e));
  }

  /** A string of `lines` and its line break read as the line it was printed for. */
  lemma ReadLineText(d: Doc, line: Line, more: string)
    requires Printable(line)
    ensures var next := ReadLine(d, line);
      ReadText(d, LineText(line) + "\n" + more) == if next.Some? then ReadText(next.value, more) else None
  {
    hide *;
    match line
    case Header(path, isArray) =>
      PrintableIs(line);
      ReadHeaderText(d, path, isArray);
      var s := (if isArray then "[[" else "[") + PathText(path) + (if isArray then "]]" else "]");
      HeaderTextIs(path, isArray);
      assert LineText(line) + "\n" + more == "" + "\n" + (s + "\n" + more);
      ReadTextStep(d, "", s + "\n" + more);
      NothingOnLine(d);
      ReadTextStep(d, s, more);
    case Pair(e) =>
      PrintableIs(line);
      ReadPairText(d, e);
      ReadTextStep(d, PairText(e), more);
  }

  lemma PrintableIs(line: Line)
    requires Printable(line)
    ensures line.Header? ==> line.path != []
    ensures line.Pair? ==> HasText(line.e.value) && WellFormed(line.e.value) && LineText(line) == PairText(line.e)
  {
    hide HasText, WellFormed, PairText;
  }

  lemma HeaderTextIs(path: seq<string>, isArray: bool)
    requires Printable(Header(path, isArray))
    ensures LineText(Header(path, isArray))
         == "\n" + ((if isArray then "[[" else "[") + PathText(path) + (if isArray then "]]" else "]"))
  {
    hide PathText;
  }

  lemma NothingOnLine(d: Doc)
    ensures ReadOneLine(d, "") == Some(d) && ReadText(d, "") == Some(d)
  {
  }

  lemma {:induction false} ReadTextOf(d: Doc, lines: seq<Line>)
    requires forall l :: l in lines ==> Printable(l)
    ensures ReadText(d, TextOf(LineTexts(lines))) == Replay(d, lines)
    decreases |lines|
  {
    hide ReadLine, ReadText, LineText, Printable;
    var texts := LineTexts(lines);
    if lines == [] {
      NothingOnLine(d);
    } else {
      assert texts[1..] == LineTexts(lines[1..]);
      ReadLineText(d, lines[0], TextOf(texts[1..]));
      if ReadLine(d, lines[0]).Some? {
        ReadTextOf(ReadLine(d, lines[0]).value, lines[1..]);
      }
    }
  }

  // ---- every line of an emittable table can be printed ----

  predicate AllPrintable(lines: seq<Line>) {
    forall l :: l in lines ==> Printable(l)
  }

  lemma {:induction false} OwnLinesPrint(table: seq<Entry>)
    requires Emittable(table) && forall e :: e in table ==> WellFormed(e.value)
    ensures AllPrintable(OwnLines(table))
  {
    hide IsNested, WellFormed;
    if table != [] {
      assert EmittableValue(table[0].value);
      OwnLinesPrint(table[1..]);
      if !table[0].value.Null? && !IsNested(table[0].value) {
        OwnValue(table[0].value);
      }
    }
  }

  lemma OwnValue(v: Value)
    requires EmittableValue(v) && !v.Null? && !IsNested(v)
    ensures HasText(v)
  {
  }

  lemma {:induction false} TableLinesPrint(path: seq<string>, table: seq<Entry>, isArray: bool)
    requires path != [] && Emittable(table) && WellFormed(Dict(table))
    ensures AllPrintable(TableLines(path, table, isArray))
    decreases table, 1
  {
    OwnLinesPrint(table);
    NestedLinesPrint(path, table);
  }

  lemma {:induction false} NestedLinesPrint(path: seq<string>, table: seq<Entry>)
    requires Emittable(table) && forall e :: e in table ==> WellFormed(e.value)
    ensures AllPrintable(NestedLines(path, table))
    decreases table, 0
  {
    if table != [] {
      assert EmittableValue(table[0].value) && WellFormed(table[0].value);
      ValueLinesPrint(path + [table[0].key], table[0].value);
      NestedLinesPrint(path, table[1..]);
    }
  }

  lemma {:induction false} ValueLinesPrint(path: seq<string>, v: Value)
    requires path != [] && EmittableValue(v) && WellFormed(v)
    ensures AllPrintable(ValueLines(path, v))
    decreases v, 2
  {
    if v.Dict? {
      TableLinesPrint(path, v.entries, false);
    } else if IsTableList(v) {
      ArrayLinesPrint(path, v.items);
    }
  }

  lemma {:induction false} ArrayLinesPrint(path: seq<string>, items: seq<Value>)
    requires path != [] && forall x :: x in items ==> x.Dict? && Emittable(x.entries) && WellFormed(x)
    ensures AllPrintable(ArrayLines(path, items))
    decreases items, 0
  {
    if items != [] {
      TableLinesPrint(path, items[0].entries, true);
      ArrayLinesPrint(path, items[1..]);
    }
  }

  /** The text emitted for a section reads back as one table of the document, under the section's
      name, that means what the section's mapping means; every string, however it is spelled,
      every key, bare or quoted, and every header included. */
  lemma EmittedTextReadsBack(root: seq<Member>, at: seq<string>, name: string, table: seq<Entry>)
    requires WellFormed(Dict(table)) && Emittable(table) && Find(root, name) == -1
    ensures AllPrintable(TableLines([name], table, false))
    ensures var r := ReadText(Doc(root, at), TextOf(LineTexts(TableLines([name], table, false))));
      && r.Some?
      && r.value.root == root + [Member(name, Table(Members(table)))]
      && NodeMeaning(Table(Members(table))) == MeaningOf(Dict(table))
  {
    TableLinesPrint([name], table, false);
    ReadTextOf(Doc(root, at), TableLines([name], table, false));
    EmittedTableReplays(root, at, name, table);
  }

  // ---- _emit_table ----

  /** The list of strings the emitters append to. */
  class Output {
    var lines: seq<string>

    constructor ()
      ensures lines == []
    {
      lines := [];
    }

    method Append(s: string)
      modifies this
      ensures lines == old(lines) + [s]
    {
      lines := lines + [s];
    }
  }

  ghost predicate Appends(before: seq<string>, after: seq<string>, lines: seq<Line>) {
    AllPrintable(lines) && after == before + LineTexts(lines)
  }

  lemma AppendsMore(a: seq<string>, b: seq<string>, c: seq<string>, first: seq<Line>, second: seq<Line>)
    requires Appends(a, b, first) && Appends(b, c, second)
    ensures Appends(a, c, first + second)
  {
    hide LineText, Printable;
    assert LineTexts(first + second) == LineTexts(first) + LineTexts(second);
  }

  lemma AppendsOne(a: seq<string>, line: Line)
    requires Printable(line)
    ensures Appends(a, a + [LineText(line)], [line])
  {
    hide LineText, Printable;
    assert LineTexts([line]) == [LineText(line)];
  }

  lemma PathTextGrows(path: seq<string>, key: string)
    requires path != []
    ensures PathText(path + [key]) == PathText(path) + "." + KeyText(key)
  {
    assert (path + [key])[..|path|] == path;
  }

  /** The entries that go after the table's own values, in their order. */
  function NestedOnly(table: seq<Entry>): seq<Entry> {
    if table == [] then []
    else if !table[0].value.Null? && IsNested(table[0].value) then [table[0]] + NestedOnly(table[1..])
    else NestedOnly(table[1..])
  }

  lemma {:induction false} NestedOnlyLines(path: seq<string>, table: seq<Entry>)
    ensures NestedLines(path, NestedOnly(table)) == NestedLines(path, table)
  {
    hide IsNested, ValueLines;
    if table != [] {
      NestedOnlyLines(path, table[1..]);
      NullIsNotNested();
      if !IsNested(table[0].value) {
        NoLines(path + [table[0].key], table[0].value);
        assert [] + NestedLines(path, table[1..]) == NestedLines(path, table[1..]);
      } else {
        assert NestedOnly(table)[1..] == NestedOnly(table[1..]);
      }
    }
  }

  lemma {:induction false} NestedOnlyIn(table: seq<Entry>, e: Entry)
    ensures e in NestedOnly(table) <==> e in table && !e.value.Null? && IsNested(e.value)
  {
    hide IsNested;
    if table != [] {
      NestedOnlyIn(table[1..], e);
      assert e in table <==> e == table[0] || e in table[1..];
    }
  }

  /** The first loop of `_emit_table`: a line for each of the table's own values, and the nested
      entries set aside. */
  method EmitOwn(out: Output, table: seq<Entry>) returns (ok: bool, nested: seq<Entry>)
    requires forall e :: e in table ==> WellFormed(e.value)
    modifies out
    ensures ok <==> forall e :: e in table && !e.value.Null? && !IsNested(e.value) ==> HasText(e.value)
    ensures ok ==> nested == NestedOnly(table) && Appends(old(out.lines), out.lines, OwnLines(table))
  {
    hide *;
    nested := [];
    AppendsNothing(out.lines);
    assert table[..0] == [];
    OwnOfNothing();
    for i := 0 to |table|
      invariant forall e :: e in table[..i] && !e.value.Null? && !IsNested(e.value) ==> HasText(e.value)
      invariant nested == NestedOnly(table[..i])
      invariant Appends(old(out.lines), out.lines, OwnLines(table[..i]))
    {
      var e := table[i];
      assert table[..i + 1] == table[..i] + [e];
      OwnOfSnoc(table[..i], e);
      if e.value.Null? {
        continue;
      }
      if IsNested(e.value) {
        nested := nested + [e];
        continue;
      }
      if !HasText(e.value) {
        return false, nested;
      }
      PrintablePair(e);
      ghost var before := out.lines;
      out.Append(PairText(e));
      AppendsOne(before, Pair(e));
      AppendsMore(old(out.lines), before, out.lines, OwnLines(table[..i]), [Pair(e)]);
    }
    assert table[..|table|] == table;
    ok := true;
  }

  lemma AppendsNothing(a: seq<string>)
    ensures Appends(a, a, [])
  {
    assert LineTexts([]) == [];
  }

  lemma OwnOfNothing()
    ensures OwnLines([]) == [] && NestedOnly([]) == []
  {
  }

  lemma {:induction false} OwnOfSnoc(table: seq<Entry>, e: Entry)
    ensures OwnLines(table + [e])
         == if e.value.Null? || IsNested(e.value) then OwnLines(table) else OwnLines(table) + [Pair(e)]
    ensures NestedOnly(table + [e])
         == if !e.value.Null? && IsNested(e.value) then NestedOnly(table) + [e] else NestedOnly(table)
  {
    hide IsNested;
    if table == [] {
      assert table + [e] == [e];
    } else {
      assert (table + [e])[1..] == table[1..] + [e];
      OwnOfSnoc(table[1..], e);
    }
  }

  lemma PrintablePair(e: Entry)
    requires HasText(e.value) && WellFormed(e.value)
    ensures Printable(Pair(e)) && LineText(Pair(e)) == PairText(e)
  {
  }

  /** `_emit_table`: the header, the table's own values, and then its nested tables. It fails, as
      the original raises TypeError, exactly on a table that is not emittable. */
  method EmitTable(out: Output, header: string, table: seq<Entry>, isArray: bool, ghost path: seq<string>)
    returns (ok: bool)
    requires path != [] && header == PathText(path)
    requires WellFormed(Dict(table))
    modifies out
    ensures ok <==> Emittable(table)
    ensures ok ==> Appends(old(out.lines), out.lines, TableLines(path, table, isArray))
    decreases table, 1
  {
    hide *;
    ghost var start := out.lines;
    out.Append(if isArray then "\n[[" + header + "]]" else "\n[" + header + "]");
    ghost var begun := out.lines;
    WellFormedEntries(table);
    var nested;
    ok, nested := EmitOwn(out, table);
    EmittableIs(table, nested);
    if !ok {
      return;
    }
    ghost var own := out.lines;
    ok := EmitNested(out, header, table, nested, path);
    if ok {
      HeaderOpened(start, path, isArray);
      AppendsMore(start, begun, own, [Header(path, isArray)], OwnLines(table));
      AppendsMore(start, own, out.lines, [Header(path, isArray)] + OwnLines(table), NestedLines(path, nested));
      NestedOnlyLines(path, table);
      TableLinesAre(path, table, isArray);
    }
  }

  lemma WellFormedEntries(table: seq<Entry>)
    requires WellFormed(Dict(table))
    ensures forall e :: e in table ==> WellFormed(e.value)
  {
  }

  lemma EmittableIs(table: seq<Entry>, nested: seq<Entry>)
    ensures Emittable(table) <==>
      && (forall e :: e in table && !e.value.Null? && !IsNested(e.value) ==> HasText(e.value))
      && (forall e :: e in NestedOnly(table) ==> EmittableValue(e.value))
    ensures forall e :: e in NestedOnly(table) ==> e in table && IsNested(e.value)
  {
    forall e ensures e in NestedOnly(table) <==> e in table && !e.value.Null? && IsNested(e.value) {
      NestedOnlyIn(table, e);
    }
  }

  lemma HeaderOpened(start: seq<string>, path: seq<string>, isArray: bool)
    requires path != []
    ensures Appends(start, start + [if isArray then "\n[[" + PathText(path) + "]]" else "\n[" + PathText(path) + "]"],
                    [Header(path, isArray)])
  {
    AppendsOne(start, Header(path, isArray));
  }

  lemma TableLinesAre(path: seq<string>, table: seq<Entry>, isArray: bool)
    ensures TableLines(path, table, isArray) == [Header(path, isArray)] + OwnLines(table) + NestedLines(path, table)
  {
  }

  /** The second loop of `_emit_table`. */
  method EmitNested(out: Output, header: string, ghost table: seq<Entry>, nested: seq<Entry>, ghost path: seq<string>)
    returns (ok: bool)
    requires path != [] && header == PathText(path)
    requires forall e :: e in nested ==> e in table && IsNested(e.value) && WellFormed(e.value)
    modifies out
    ensures ok <==> forall e :: e in nested ==> EmittableValue(e.value)
    ensures ok ==> Appends(old(out.lines), out.lines, NestedLines(path, nested))
    decreases table, 0
  {
    hide *;
    AppendsNothing(out.lines);
    assert nested[..0] == [];
    NestedOfNothing(path);
    for i := 0 to |nested|
      invariant forall e :: e in nested[..i] ==> EmittableValue(e.value)
      invariant Appends(old(out.lines), out.lines, NestedLines(path, nested[..i]))
    {
      var e := nested[i];
      assert nested[..i + 1] == nested[..i] + [e];
      NestedOfSnoc(path, nested[..i], e);
      ghost var before := out.lines;
      var child := header + "." + KeyText(e.key);
      PathTextGrows(path, e.key);
      assert e in table;
      var emitted := EmitValue(out, child, e.value, path + [e.key]);
      if !emitted {
        return false;
      }
      AppendsMore(old(out.lines), before, out.lines, NestedLines(path, nested[..i]),
        ValueLines(path + [e.key], e.value));
    }
    assert nested[..|nested|] == nested;
    ok := true;
  }

  lemma NestedOfNothing(path: seq<string>)
    ensures NestedLines(path, []) == []
  {
  }

  lemma {:induction false} NestedOfSnoc(path: seq<string>, table: seq<Entry>, e: Entry)
    ensures NestedLines(path, table + [e]) == NestedLines(path, table) + ValueLines(path + [e.key], e.value)
  {
    hide ValueLines;
    if table == [] {
      assert table + [e] == [e];
    } else {
      assert (table + [e])[1..] == table[1..] + [e];
      NestedOfSnoc(path, table[1..], e);
    }
  }

  /** One turn of that loop: a table, or each table of an array. */
  method EmitValue(out: Output, child: string, v: Value, ghost path: seq<string>) returns (ok: bool)
    requires path != [] && child == PathText(path) && IsNested(v) && WellFormed(v)
    modifies out
    ensures ok <==> EmittableValue(v)
    ensures ok ==> Appends(old(out.lines), out.lines, ValueLines(path, v))
    decreases v, 2
  {
    hide *;
    NestedValueIs(path, v);
    if v.Dict? {
      ok := EmitTable(out, child, v.entries, false, path);
    } else {
      AppendsNothing(out.lines);
      assert v.items[..0] == [];
      ArrayOfNothing(path);
      for i := 0 to |v.items|
        invariant forall x :: x in v.items[..i] ==> x.Dict? && Emittable(x.entries)
        invariant forall x :: x in v.items[..i] ==> x.Dict?
        invariant Appends(old(out.lines), out.lines, ArrayLines(path, v.items[..i]))
      {
        var x := v.items[i];
        assert v.items[..i + 1] == v.items[..i] + [x];
        ArrayOfSnoc(path, v.items[..i], x);
        ghost var before := out.lines;
        var emitted := EmitTable(out, child, x.entries, true, path);
        if !emitted {
          return false;
        }
        AppendsMore(old(out.lines), before, out.lines, ArrayLines(path, v.items[..i]),
          TableLines(path, x.entries, true));
      }
      assert v.items[..|v.items|] == v.items;
      ok := true;
    }
  }

  lemma NestedValueIs(path: seq<string>, v: Value)
    requires IsNested(v) && WellFormed(v)
    ensures v.Dict? || v.List?
    ensures v.Dict? ==>
      ValueLines(path, v) == TableLines(path, v.entries, false) && (EmittableValue(v) <==> Emittable(v.entries))
    ensures v.List? ==>
      && (forall x :: x in v.items ==> x.Dict? && WellFormed(x) && x == Dict(x.entries))
      && ValueLines(path, v) == ArrayLines(path, v.items)
      && (EmittableValue(v) <==> forall x :: x in v.items ==> Emittable(x.entries))
  {
  }

  lemma ArrayOfNothing(path: seq<string>)
    ensures ArrayLines(path, []) == []
  {
  }

  lemma {:induction false} ArrayOfSnoc(path: seq<string>, items: seq<Value>, x: Value)
    requires x.Dict? && forall y :: y in items ==> y.Dict?
    ensures ArrayLines(path, items + [x]) == ArrayLines(path, items) + TableLines(path, x.entries, true)
  {
    hide TableLines;
    if items == [] {
      assert items + [x] == [x];
    } else {
      assert (items + [x])[1..] == items[1..] + [x];
      ArrayOfSnoc(path, items[1..], x);
    }
  }
}
