/** TOML values and keys on one line: the printers of src/llm_redact/config_write.py, and a reader
    for what they print, after TOML v1.0.0 (sections "String", "Keys", "Array", "Inline Table"). */
module TomlText {
  import opened Wrappers
  import opened Decimal

  /** A parsed configuration value. `Null` is Python's None, which TOML has no form for. */
  datatype Value =
    | Null
    | Bool(b: bool)
    | Int(n: int)
    | Str(s: string)
    | List(items: seq<Value>)
    | Dict(entries: seq<Entry>)

  datatype Entry = Entry(key: string, value: Value)

  // ---- strings ----

  function HexDigit(d: int): char
    requires 0 <= d < 16
  {
    if d < 10 then '0' + d as char else 'a' + (d - 10) as char
  }

  function HexValue(c: char): int {
    if '0' <= c <= '9' then c as int - '0' as int
    else if 'a' <= c <= 'f' then c as int - 'a' as int + 10
    else if 'A' <= c <= 'F' then c as int - 'A' as int + 10
    else -1
  }

  /** `json.dumps` of one character with ensure_ascii off, and DEL escaped by hand. */
  function Escape(c: char): string {
    var n := c as int;
    if c == '"' then "\\\""
    else if c == '\\' then "\\\\"
    else if n == 8 then "\\b"
    else if n == 9 then "\\t"
    else if n == 10 then "\\n"
    else if n == 12 then "\\f"
    else if n == 13 then "\\r"
    else if n < 0x20 || n == 0x7f then "\\u00" + [HexDigit(n / 16), HexDigit(n % 16)]
    else [c]
  }

  function EscapeAll(s: string): string {
    if s == "" then "" else Escape(s[0]) + EscapeAll(s[1..])
  }

  /** `_toml_str` */
  function StringText(s: string): string { "\"" + EscapeAll(s) + "\"" }

  /** The character a four digit \u escape names; None for a surrogate or a bad digit. */
  function FromHex(s: string): Option<char>
    requires |s| == 4
  {
    var a, b, c, d := HexValue(s[0]), HexValue(s[1]), HexValue(s[2]), HexValue(s[3]);
    if a < 0 || b < 0 || c < 0 || d < 0 then None
    else
      var n := ((a * 16 + b) * 16 + c) * 16 + d;
      if 0xD800 <= n < 0xE000 then None else Some(n as char)
  }

  /** The character a one letter escape names. */
  function FromLetter(c: char): Option<char> {
    if c == '"' || c == '\\' then Some(c)
    else if c == 'b' then Some(8 as char)
    else if c == 't' then Some(9 as char)
    else if c == 'n' then Some(10 as char)
    else if c == 'f' then Some(12 as char)
    else if c == 'r' then Some(13 as char)
    else None
  }

  function Push<T>(c: char, r: Option<(string, T)>): Option<(string, T)> {
    if r.Some? then Some(([c] + r.value.0, r.value.1)) else None
  }

  /** The rest of a basic string after its opening quote, and the text after its closing one. */
  function ReadBasic(s: string): (r: Option<(string, string)>)
    ensures r.Some? ==> |r.value.1| < |s|
    decreases |s|
  {
    if s == "" then None
    else if s[0] == '"' then Some(("", s[1..]))
    else if s[0] == '\\' then
      if |s| < 2 then None
      else if s[1] == 'u' then
        if |s| < 6 || FromHex(s[2..6]).None? then None
        else Push(FromHex(s[2..6]).value, ReadBasic(s[6..]))
      else if FromLetter(s[1]).None? then None
      else Push(FromLetter(s[1]).value, ReadBasic(s[2..]))
    else if (s[0] as int < 0x20 && s[0] != '\t') || s[0] as int == 0x7f then None
    else Push(s[0], ReadBasic(s[1..]))
  }

  lemma ReadHexEscape(hex: string, more: string)
    requires |hex| == 4 && FromHex(hex).Some?
    ensures ReadBasic("\\u" + hex + more) == Push(FromHex(hex).value, ReadBasic(more))
  {
    hide FromHex, FromLetter, Push;
    var s := "\\u" + hex + more;
    assert s[2..6] == hex && s[6..] == more;
  }

  lemma ReadLetterEscape(c: char, more: string)
    requires FromLetter(c).Some?
    ensures ReadBasic(['\\', c] + more) == Push(FromLetter(c).value, ReadBasic(more))
  {
    hide FromHex, Push;
    assert (['\\', c] + more)[2..] == more;
  }

  lemma ReadPlain(c: char, more: string)
    requires c != '"' && c != '\\' && c as int >= 0x20 && c as int != 0x7f
    ensures ReadBasic([c] + more) == Push(c, ReadBasic(more))
  {
    hide FromHex, FromLetter, Push;
    assert ([c] + more)[1..] == more;
  }

  lemma HexDigitBack(d: int)
    requires 0 <= d < 16
    ensures HexValue(HexDigit(d)) == d
  {
  }

  lemma HexBack(c: char)
    requires c as int < 0x80
    ensures FromHex(['0', '0', HexDigit(c as int / 16), HexDigit(c as int % 16)]) == Some(c)
  {
    hide HexDigit, HexValue;
    assert HexDigit(0) == '0' by {
      ZeroDigit();
    }
    HexDigitBack(0);
    HexDigitBack(c as int / 16);
    HexDigitBack(c as int % 16);
  }

  lemma ZeroDigit()
    ensures HexDigit(0) == '0'
  {
  }

  lemma ReadEscape(c: char, more: string)
    ensures ReadBasic(Escape(c) + more) == Push(c, ReadBasic(more))
  {
    hide ReadBasic, FromHex, HexDigit, Push;
    var e := Escape(c);
    if |e| == 6 {
      HexBack(c);
      var hex := ['0', '0', HexDigit(c as int / 16), HexDigit(c as int % 16)];
      assert e + more == "\\u" + hex + more;
      ReadHexEscape(hex, more);
    } else if |e| == 2 {
      ReadLetterEscape(e[1], more);
      assert e == ['\\', e[1]];
    } else {
      ReadPlain(c, more);
    }
  }

  /** Every string reads back, whatever follows its closing quote. */
  lemma {:induction false} ReadPrintedString(t: string, rest: string)
    ensures ReadBasic(EscapeAll(t) + "\"" + rest) == Some((t, rest))
  {
    hide Escape;
    if t == "" {
      assert EscapeAll(t) + "\"" + rest == "\"" + rest;
      assert ("\"" + rest)[1..] == rest;
    } else {
      var more := EscapeAll(t[1..]) + "\"" + rest;
      assert EscapeAll(t) + "\"" + rest == Escape(t[0]) + more;
      ReadEscape(t[0], more);
      ReadPrintedString(t[1..], rest);
      assert t == [t[0]] + t[1..];
    }
  }

  /** A printed string stays on its line. */
  lemma {:induction false} StringStaysOnLine(t: string)
    ensures '\n' !in EscapeAll(t)
  {
    if t != "" {
      StringStaysOnLine(t[1..]);
    }
  }

  // ---- keys ----

  predicate IsBare(c: char) {
    'A' <= c <= 'Z' || 'a' <= c <= 'z' || '0' <= c <= '9' || c == '_' || c == '-'
  }

  predicate IsBareKey(key: string) {
    key != "" && forall i :: 0 <= i < |key| ==> IsBare(key[i])
  }

  /** `_toml_key` */
  function KeyText(key: string): string {
    if IsBareKey(key) then key else StringText(key)
  }

  /** How many bare key characters s begins with. */
  function BareRun(s: string): (n: nat)
    ensures n <= |s|
  {
    if s == "" || !IsBare(s[0]) then 0 else 1 + BareRun(s[1..])
  }

  /** A key at the head of s, and the text after it. */
  function ReadKey(s: string): (r: Option<(string, string)>)
    ensures r.Some? ==> |r.value.1| < |s|
  {
    if s == "" then None
    else if s[0] == '"' then ReadBasic(s[1..])
    else
      var n := BareRun(s);
      if n == 0 then None else Some((s[..n], s[n..]))
  }

  lemma {:induction false} BareRunOf(key: string, rest: string)
    requires forall i :: 0 <= i < |key| ==> IsBare(key[i])
    requires rest != "" ==> !IsBare(rest[0])
    ensures BareRun(key + rest) == |key|
  {
    if key == "" {
      assert key + rest == rest;
    } else {
      assert (key + rest)[1..] == key[1..] + rest;
      BareRunOf(key[1..], rest);
    }
  }

  /** A character no key or value starts with. */
  predicate IsMark(c: char) {
    c == ']' || c == '}' || c == '=' || c == ' ' || c == ',' || c == '.' || c == '\n'
  }

  lemma BareIsNoMark(c: char)
    requires IsBare(c)
    ensures !IsMark(c) && c != '[' && c != '"'
  {
  }

  lemma NoLineBreakInBare(key: string)
    requires IsBareKey(key)
    ensures '\n' !in key
  {
    forall i | 0 <= i < |key| ensures key[i] != '\n' {
      BareIsNoMark(key[i]);
    }
  }

  /** Every key reads back before a character that cannot belong to a bare key. */
  lemma ReadPrintedKey(key: string, rest: string)
    requires rest != "" ==> !IsBare(rest[0])
    ensures ReadKey(KeyText(key) + rest) == Some((key, rest))
    ensures KeyText(key) != "" && !IsMark(KeyText(key)[0]) && KeyText(key)[0] != '[' && '\n' !in KeyText(key)
  {
    hide ReadBasic, EscapeAll, BareRun, IsBare, IsMark;
    var s := KeyText(key) + rest;
    if IsBareKey(key) {
      NoLineBreakInBare(key);
      BareRunOf(key, rest);
      assert s[..|key|] == key && s[|key|..] == rest;
      BareIsNoMark(key[0]);
    } else {
      QuotedKey(key, rest);
    }
  }

  lemma QuotedKey(key: string, rest: string)
    ensures ReadKey(StringText(key) + rest) == Some((key, rest))
    ensures !IsMark(StringText(key)[0]) && '\n' !in StringText(key)
  {
    hide ReadBasic, EscapeAll;
    var s := StringText(key) + rest;
    assert s[1..] == EscapeAll(key) + "\"" + rest;
    ReadPrintedString(key, rest);
    StringStaysOnLine(key);
  }

  // ---- values ----

  function IntText(n: int): string {
    if n < 0 then "-" + Text(-n) else Text(n)
  }

  /** The value has a TOML form: no None in it. `_toml_inline` raises TypeError for any other. */
  predicate HasText(v: Value)
    decreases v
  {
    match v
    case Null => false
    case List(items) => forall x :: x in items ==> HasText(x)
    case Dict(entries) => forall e :: e in entries ==> HasText(e.value)
    case _ => true
  }

  /** `_toml_inline` of a value that has a TOML form. */
  function InlineText(v: Value): string
    requires HasText(v)
    decreases v, 1
  {
    match v
    case Null => ""
    case Bool(b) => if b then "true" else "false"
    case Int(n) => IntText(n)
    case Str(s) => StringText(s)
    case List(items) => "[" + ItemsText(items) + "]"
    case Dict(entries) => if entries == [] then "{}" else "{ " + EntriesText(entries) + " }"
  }

  function ItemsText(items: seq<Value>): string
    requires forall x :: x in items ==> HasText(x)
    decreases items, 0
  {
    if items == [] then ""
    else if |items| == 1 then InlineText(items[0])
    else InlineText(items[0]) + ", " + ItemsText(items[1..])
  }

  function EntriesText(entries: seq<Entry>): string
    requires forall e :: e in entries ==> HasText(e.value)
    decreases entries, 0
  {
    if entries == [] then ""
    else
      var first := PairText(entries[0]);
      if |entries| == 1 then first else first + ", " + EntriesText(entries[1..])
  }

  function PairText(e: Entry): string
    requires HasText(e.value)
    decreases e.value, 2
  {
    KeyText(e.key) + " = " + InlineText(e.value)
  }

  predicate DistinctKeys(entries: seq<Entry>) {
    forall i, j :: 0 <= i < j < |entries| ==> entries[i].key != entries[j].key
  }

  /** Every dictionary in v has each key once, as a Python one does. */
  predicate WellFormed(v: Value)
    decreases v
  {
    match v
    case List(items) => forall x :: x in items ==> WellFormed(x)
    case Dict(entries) => DistinctKeys(entries) && forall e :: e in entries ==> WellFormed(e.value)
    case _ => true
  }

  // ---- the reader of values ----

  function SkipSpaces(s: string): (r: string)
    ensures |r| <= |s|
  {
    if s != "" && s[0] == ' ' then SkipSpaces(s[1..]) else s
  }

  function DigitRun(s: string): (n: nat)
    ensures n <= |s| && AllDigits(s[..n])
  {
    if s == "" || !IsDigit(s[0]) then 0
    else
      var n := DigitRun(s[1..]);
      assert s[..1 + n] == [s[0]] + s[1..][..n];
      1 + n
  }

  /** A decimal integer at the head of s. */
  function ReadInt(s: string): (r: Option<(int, string)>)
    ensures r.Some? ==> |r.value.1| < |s|
  {
    var t := if s != "" && s[0] == '-' then s[1..] else s;
    var n := DigitRun(t);
    if n == 0 || (n > 1 && t[0] == '0') then None
    else Some((if s[0] == '-' then -(Decimal.Value(t[..n]) as int) else Decimal.Value(t[..n]), t[n..]))
  }

  predicate StartsWith(s: string, c: char) {
    s != "" && s[0] == c
  }

  /** A value at the head of s, and the text after it. */
  function ReadValue(s: string): (r: Option<(Value, string)>)
    ensures r.Some? ==> |r.value.1| < |s|
    decreases |s|, 0
  {
    if s == "" then None
    else if s[0] == '"' then
      var t := ReadBasic(s[1..]);
      if t.Some? then Some((Str(t.value.0), t.value.1)) else None
    else if s[0] == '[' then
      var t := SkipSpaces(s[1..]);
      if StartsWith(t, ']') then Some((List([]), t[1..]))
      else
        var items := ReadItems(t);
        if items.Some? then Some((List(items.value.0), items.value.1)) else None
    else if s[0] == '{' then
      var t := SkipSpaces(s[1..]);
      if StartsWith(t, '}') then Some((Dict([]), t[1..]))
      else
        var entries := ReadEntries(t);
        if entries.Some? && DistinctKeys(entries.value.0) then Some((Dict(entries.value.0), entries.value.1)) else None
    else if "true" <= s then Some((Bool(true), s[4..]))
    else if "false" <= s then Some((Bool(false), s[5..]))
    else
      var n := ReadInt(s);
      if n.Some? then Some((Int(n.value.0), n.value.1)) else None
  }

  /** The items of an array, from its first one to its closing bracket. */
  function ReadItems(s: string): (r: Option<(seq<Value>, string)>)
    ensures r.Some? ==> |r.value.1| < |s|
    decreases |s|, 1
  {
    var v := ReadValue(s);
    if v.None? then None
    else
      var t := SkipSpaces(v.value.1);
      if StartsWith(t, ']') then Some(([v.value.0], t[1..]))
      else if StartsWith(t, ',') then
        var u := SkipSpaces(t[1..]);
        if StartsWith(u, ']') then Some(([v.value.0], u[1..]))
        else
          var more := ReadItems(u);
          if more.Some? then Some(([v.value.0] + more.value.0, more.value.1)) else None
      else None
  }

  /** key = value at the head of s, and the text after it. */
  function ReadPair(s: string): (r: Option<(Entry, string)>)
    ensures r.Some? ==> |r.value.1| < |s|
    decreases |s|, 1
  {
    var k := ReadKey(s);
    if k.None? then None
    else
      var t := SkipSpaces(k.value.1);
      if !StartsWith(t, '=') then None
      else
        var v := ReadValue(SkipSpaces(t[1..]));
        if v.Some? then Some((Entry(k.value.0, v.value.0), v.value.1)) else None
  }

  /** The pairs of an inline table, from its first one to its closing brace. */
  function ReadEntries(s: string): (r: Option<(seq<Entry>, string)>)
    ensures r.Some? ==> |r.value.1| < |s|
    decreases |s|, 2
  {
    var e := ReadPair(s);
    if e.None? then None
    else
      var t := SkipSpaces(e.value.1);
      if StartsWith(t, '}') then Some(([e.value.0], t[1..]))
      else if StartsWith(t, ',') then
        var more := ReadEntries(SkipSpaces(t[1..]));
        if more.Some? then Some(([e.value.0] + more.value.0, more.value.1)) else None
      else None
  }

  // ---- what is printed reads back ----

  /** What may follow a value: nothing, or a character that is part of no number. */
  predicate Ends(rest: string) {
    rest == "" || rest[0] == ',' || rest[0] == ' ' || rest[0] == ']' || rest[0] == '}'
  }

  lemma {:induction false} DigitRunOf(digits: string, rest: string)
    requires AllDigits(digits) && (rest != "" ==> !IsDigit(rest[0]))
    ensures DigitRun(digits + rest) == |digits|
  {
    if digits == "" {
      assert digits + rest == rest;
    } else {
      assert (digits + rest)[1..] == digits[1..] + rest;
      DigitRunOf(digits[1..], rest);
    }
  }

  lemma ReadSigned(negative: bool, digits: string, rest: string)
    requires digits != "" && AllDigits(digits) && DigitRun(digits + rest) == |digits|
    requires |digits| > 1 ==> digits[0] != '0'
    ensures var m: int := Decimal.Value(digits);
      ReadInt((if negative then "-" else "") + digits + rest) == Some((if negative then -m else m, rest))
  {
    hide DigitRun, Decimal.Value;
    var s := (if negative then "-" else "") + digits + rest;
    var t := if s[0] == '-' then s[1..] else s;
    assert t == digits + rest;
    assert t[..|digits|] == digits && t[|digits|..] == rest;
  }

  lemma ReadPrintedInt(n: int, rest: string)
    requires Ends(rest)
    ensures ReadInt(IntText(n) + rest) == Some((n, rest))
    ensures IntText(n) != "" && (IntText(n)[0] == '-' || IsDigit(IntText(n)[0])) && '\n' !in IntText(n)
  {
    hide DigitRun, Decimal.Value, Text, ReadInt;
    var m: nat := if n < 0 then -n else n;
    ValueOfText(m);
    ZeroIsOneDigit(m);
    DigitRunOf(Text(m), rest);
    ReadSigned(n < 0, Text(m), rest);
    assert "" + Text(m) == Text(m);
  }

  lemma ZeroIsOneDigit(m: nat)
    ensures |Text(m)| > 1 ==> Text(m)[0] != '0'
  {
    ValueOfText(m);
  }

  lemma NoSpace(s: string)
    requires s != "" && s[0] != ' '
    ensures SkipSpaces(s) == s && SkipSpaces(" " + s) == s
  {
    assert (" " + s)[1..] == s;
  }

  /** A printed value starts with no mark and stays on its line. */
  lemma {:induction false} InlineIsOneLine(v: Value)
    requires HasText(v)
    ensures InlineText(v) != "" && !IsMark(InlineText(v)[0]) && '\n' !in InlineText(v)
    decreases v, 1
  {
    match v
    case Int(n) => ReadPrintedInt(n, "");
    case Str(s) => StringStaysOnLine(s);
    case List(items) => ItemsAreOneLine(items);
    case Dict(entries) => EntriesAreOneLine(entries);
    case _ =>
  }

  lemma {:induction false} ItemsAreOneLine(items: seq<Value>)
    requires forall x :: x in items ==> HasText(x)
    ensures '\n' !in ItemsText(items)
    decreases items, 0
  {
    if items != [] {
      InlineIsOneLine(items[0]);
      ItemsAreOneLine(items[1..]);
    }
  }

  lemma {:induction false} EntriesAreOneLine(entries: seq<Entry>)
    requires forall e :: e in entries ==> HasText(e.value)
    ensures '\n' !in EntriesText(entries)
    decreases entries, 0
  {
    if entries != [] {
      ReadPrintedKey(entries[0].key, "");
      InlineIsOneLine(entries[0].value);
      EntriesAreOneLine(entries[1..]);
    }
  }

  // One step of the reader at a time.

  lemma ReadString(t: string, rest: string)
    requires ReadBasic(t).Some? && ReadBasic(t).value.1 == rest
    ensures ReadValue("\"" + t) == Some((Str(ReadBasic(t).value.0), rest))
  {
    hide ReadBasic;
    assert ("\"" + t)[1..] == t;
  }

  lemma ReadBool(b: bool, rest: string)
    ensures ReadValue((if b then "true" else "false") + rest) == Some((Bool(b), rest))
  {
    var word := if b then "true" else "false";
    assert (word + rest)[|word|..] == rest;
  }

  lemma ReadNumber(s: string, n: int, rest: string)
    requires ReadInt(s) == Some((n, rest)) && s != "" && (s[0] == '-' || IsDigit(s[0]))
    ensures ReadValue(s) == Some((Int(n), rest))
  {
    hide ReadInt;
  }

  lemma ReadEmptyList(rest: string)
    ensures ReadValue("[]" + rest) == Some((List([]), rest))
  {
    hide ReadItems, ReadEntries, ReadInt, ReadBasic;
    NoSpace("]" + rest);
    assert ("[]" + rest)[1..] == "]" + rest;
    assert ("]" + rest)[1..] == rest;
  }

  lemma ReadEmptyDict(rest: string)
    ensures ReadValue("{}" + rest) == Some((Dict([]), rest))
  {
    hide ReadItems, ReadEntries, ReadInt, ReadBasic;
    NoSpace("}" + rest);
    assert ("{}" + rest)[1..] == "}" + rest;
    assert ("}" + rest)[1..] == rest;
  }

  /** t begins with something to read. */
  predicate Readable(t: string) {
    t != "" && !IsMark(t[0])
  }

  lemma ReadList(t: string, items: seq<Value>, rest: string)
    requires Readable(t) && ReadItems(t) == Some((items, rest))
    ensures ReadValue("[" + t) == Some((List(items), rest))
  {
    hide ReadItems;
    NoSpace(t);
    assert ("[" + t)[1..] == t;
  }

  lemma ReadDict(t: string, entries: seq<Entry>, rest: string)
    requires Readable(t) && ReadEntries(t) == Some((entries, rest)) && DistinctKeys(entries)
    ensures ReadValue("{ " + t) == Some((Dict(entries), rest))
  {
    hide ReadEntries, DistinctKeys;
    NoSpace(t);
    assert ("{ " + t)[1..] == " " + t;
  }

  lemma ReadLastItem(s: string, v: Value, rest: string)
    requires ReadValue(s) == Some((v, "]" + rest))
    ensures ReadItems(s) == Some(([v], rest))
  {
    hide ReadValue;
    NoSpace("]" + rest);
    assert ("]" + rest)[1..] == rest;
  }

  lemma ReadNextItem(s: string, v: Value, t: string, items: seq<Value>, rest: string)
    requires ReadValue(s) == Some((v, ", " + t)) && Readable(t) && ReadItems(t) == Some((items, rest))
    ensures ReadItems(s) == Some(([v] + items, rest))
  {
    hide ReadValue;
    NoSpace(t);
    NoSpace(", " + t);
    assert (", " + t)[1..] == " " + t;
  }

  lemma ReadOnePair(s: string, key: string, t: string, v: Value, rest: string)
    requires ReadKey(s) == Some((key, " = " + t)) && Readable(t) && ReadValue(t) == Some((v, rest))
    ensures ReadPair(s) == Some((Entry(key, v), rest))
  {
    hide ReadKey, ReadValue;
    NoSpace("= " + t);
    NoSpace(t);
    assert " = " + t == " " + ("= " + t);
    assert ("= " + t)[1..] == " " + t;
  }

  lemma ReadLastPair(s: string, e: Entry, rest: string)
    requires ReadPair(s) == Some((e, " }" + rest))
    ensures ReadEntries(s) == Some(([e], rest))
  {
    hide ReadPair;
    NoSpace("}" + rest);
    assert " }" + rest == " " + ("}" + rest);
    assert ("}" + rest)[1..] == rest;
  }

  lemma ReadNextPair(s: string, e: Entry, t: string, entries: seq<Entry>, rest: string)
    requires ReadPair(s) == Some((e, ", " + t)) && Readable(t) && ReadEntries(t) == Some((entries, rest))
    ensures ReadEntries(s) == Some(([e] + entries, rest))
  {
    hide ReadPair;
    NoSpace(t);
    NoSpace(", " + t);
    assert (", " + t)[1..] == " " + t;
  }

  lemma ReadPrintedScalar(v: Value, rest: string)
    requires (v.Bool? || v.Int? || v.Str?) && Ends(rest)
    ensures ReadValue(InlineText(v) + rest) == Some((v, rest))
  {
    hide ReadValue, ReadBasic, ReadInt, IntText, EscapeAll, Ends;
    match v
    case Bool(b) =>
      ReadBool(b, rest);
    case Int(n) =>
      ReadPrintedInt(n, rest);
      assert (IntText(n) + rest)[0] == IntText(n)[0];
      ReadNumber(IntText(n) + rest, n, rest);
    case Str(t) =>
      ReadPrintedString(t, rest);
      ReadString(EscapeAll(t) + "\"" + rest, rest);
      assert StringText(t) + rest == "\"" + (EscapeAll(t) + "\"" + rest);
  }

  lemma InlineTextIs(v: Value)
    requires HasText(v)
    ensures v.List? ==> InlineText(v) == "[" + ItemsText(v.items) + "]"
    ensures v == List([]) ==> InlineText(v) == "[]"
    ensures v.Dict? ==> InlineText(v) == if v.entries == [] then "{}" else "{ " + EntriesText(v.entries) + " }"
  {
    hide EntriesText;
  }

  /** Every value with a TOML form reads back as itself, in any place where a value can end. */
  lemma {:induction false} ReadPrintedValue(v: Value, rest: string)
    requires HasText(v) && WellFormed(v) && Ends(rest)
    ensures ReadValue(InlineText(v) + rest) == Some((v, rest))
    decreases v, 1
  {
    hide InlineText, ItemsText, EntriesText, ReadValue, ReadItems, ReadEntries, Readable, DistinctKeys, Ends;
    InlineTextIs(v);
    match v
    case List(items) =>
      if items == [] {
        ReadEmptyList(rest);
      } else {
        ReadPrintedItems(items, rest);
        ReadList(ItemsText(items) + "]" + rest, items, rest);
        assert InlineText(v) + rest == "[" + (ItemsText(items) + "]" + rest);
      }
    case Dict(entries) =>
      if entries == [] {
        ReadEmptyDict(rest);
      } else {
        ReadPrintedEntries(entries, rest);
        ReadDict(EntriesText(entries) + " }" + rest, entries, rest);
        assert InlineText(v) + rest == "{ " + (EntriesText(entries) + " }" + rest);
      }
    case _ =>
      ReadPrintedScalar(v, rest);
  }

  lemma ItemsTextIs(items: seq<Value>)
    requires items != [] && forall x :: x in items ==> HasText(x)
    ensures ItemsText(items)
         == if |items| == 1 then InlineText(items[0]) else InlineText(items[0]) + ", " + ItemsText(items[1..])
  {
    hide InlineText, HasText;
  }

  lemma EntriesTextIs(entries: seq<Entry>)
    requires entries != [] && forall e :: e in entries ==> HasText(e.value)
    ensures EntriesText(entries)
         == if |entries| == 1 then PairText(entries[0]) else PairText(entries[0]) + ", " + EntriesText(entries[1..])
  {
    hide PairText, HasText;
  }

  lemma EndsHere(rest: string)
    ensures Ends("]" + rest) && Ends(" }" + rest) && Ends(", " + rest)
  {
  }

  lemma ReadableIs(t: string)
    ensures Readable(t) <==> t != "" && !IsMark(t[0])
  {
  }

  lemma {:induction false} ReadPrintedItems(items: seq<Value>, rest: string)
    requires items != [] && forall x :: x in items ==> HasText(x) && WellFormed(x)
    ensures var s := ItemsText(items) + "]" + rest; ReadItems(s) == Some((items, rest)) && Readable(s)
    decreases items, 0
  {
    hide *;
    var s := ItemsText(items) + "]" + rest;
    var first := InlineText(items[0]);
    InlineIsOneLine(items[0]);
    ItemsTextIs(items);
    assert s[0] == first[0];
    ReadableIs(s);
    if |items| == 1 {
      EndsHere(rest);
      ReadPrintedValue(items[0], "]" + rest);
      assert s == first + ("]" + rest);
      ReadLastItem(s, items[0], rest);
      assert items == [items[0]];
    } else {
      var more := ItemsText(items[1..]) + "]" + rest;
      ReadPrintedItems(items[1..], rest);
      EndsHere(more);
      ReadPrintedValue(items[0], ", " + more);
      assert s == first + (", " + more);
      ReadNextItem(s, items[0], more, items[1..], rest);
      assert items == [items[0]] + items[1..];
    }
  }

  lemma ReadPrintedPair(e: Entry, rest: string)
    requires HasText(e.value) && WellFormed(e.value) && Ends(rest)
    ensures ReadPair(PairText(e) + rest) == Some((e, rest)) && Readable(PairText(e) + rest)
    ensures PairText(e)[0] != '[' && '\n' !in PairText(e)
    decreases e.value, 2
  {
    hide ReadValue, ReadPair, ReadKey, InlineText, KeyText, IsMark, HasText, WellFormed;
    var t := InlineText(e.value) + rest;
    ReadPrintedKey(e.key, " = " + t);
    InlineIsOneLine(e.value);
    ReadPrintedValue(e.value, rest);
    assert PairText(e) + rest == KeyText(e.key) + (" = " + t);
    ReadOnePair(PairText(e) + rest, e.key, t, e.value, rest);
  }

  lemma {:induction false} ReadPrintedEntries(entries: seq<Entry>, rest: string)
    requires entries != [] && forall e :: e in entries ==> HasText(e.value) && WellFormed(e.value)
    ensures var s := EntriesText(entries) + " }" + rest; ReadEntries(s) == Some((entries, rest)) && Readable(s)
    decreases entries, 0
  {
    hide *;
    var s := EntriesText(entries) + " }" + rest;
    var first := PairText(entries[0]);
    EntriesTextIs(entries);
    if |entries| == 1 {
      EndsHere(rest);
      ReadPrintedPair(entries[0], " }" + rest);
      assert s == first + (" }" + rest);
      ReadLastPair(s, entries[0], rest);
      assert entries == [entries[0]];
    } else {
      var more := EntriesText(entries[1..]) + " }" + rest;
      ReadPrintedEntries(entries[1..], rest);
      EndsHere(more);
      ReadPrintedPair(entries[0], ", " + more);
      assert s == first + (", " + more);
      ReadNextPair(s, entries[0], more, entries[1..], rest);
      assert entries == [entries[0]] + entries[1..];
    }
  }
}
