/** The values of a routing configuration, key by key: reading each from a parsed TOML table and
    writing it back (src/llm_redact/config.py, src/llm_redact/config_write.py).

    A table with fixed keys is seen through its keys; tables with free keys keep their entries in
    order. */
module RoutingValues {
  import opened Wrappers
  import opened StringOrder

  /** A parsed TOML value, or a null, which only an editor's JSON can hold. Other stands for dates,
      times and the floats without a JSON form. */
  datatype Value =
    | Str(s: string)
    | Int(i: int)
    | Float(r: real)
    | Bool(b: bool)
    | List(items: seq<Value>)
    | Dict(entries: seq<Entry>)
    | Null
    | Other

  datatype Entry = Entry(key: string, value: Value)

  /** What the interpreter grants: int to float (None when it overflows), the white space str.strip
      removes, and the value of a decimal digit. */
  datatype Platform = Platform(toFloat: int -> Option<real>, isSpace: char -> bool, decimal: char -> Option<nat>)

  /** The decimal digits begin with the ASCII ones. */
  ghost predicate Lawful(env: Platform) {
    forall d :: 0 <= d < 10 ==> env.decimal(('0' as int + d) as char) == Some(d)
  }

  const PROTOCOLS := ["anthropic", "openai", "gemini", "ollama"]
  const COSTS := ["metered", "zero"]
  const AUTH_KINDS := ["oauth", "gateway-key", "none", "any"]
  const REISSUE_POLICIES := ["stateless-only", "always", "never"]
  const PLAN_LIMIT_DETECTION := ["headers", "off"]
  const SPECIAL_STATUS_KEYS := ["plan_limit_429", "throttle_429"]
  const CLASS_KEYS := ["4xx", "5xx"]
  const RETRY_SAME := "retry-same"
  const PASSTHROUGH := "passthrough"

  // ---- sorting by a key ----

  function SortBy<T(!new)>(key: T -> string, items: seq<T>): (r: seq<T>)
    ensures |r| == |items| && forall x :: x in r <==> x in items
  {
    if items == [] then [] else InsertBy(key, items[0], SortBy(key, items[1..]))
  }

  function InsertBy<T(!new)>(key: T -> string, x: T, sorted: seq<T>): (r: seq<T>)
    ensures |r| == |sorted| + 1 && forall y :: y in r <==> y == x || y in sorted
  {
    if sorted == [] || AtMost(key(x), key(sorted[0])) then [x] + sorted
    else [sorted[0]] + InsertBy(key, x, sorted[1..])
  }

  predicate SortedBy<T>(key: T -> string, items: seq<T>) {
    forall i :: 0 < i < |items| ==> AtMost(key(items[i - 1]), key(items[i]))
  }

  predicate DistinctBy<T>(key: T -> string, items: seq<T>) {
    forall i, j :: 0 <= i < j < |items| ==> key(items[i]) != key(items[j])
  }

  lemma {:induction false} InsertBySorted<T(!new)>(key: T -> string, x: T, sorted: seq<T>)
    requires SortedBy(key, sorted)
    ensures SortedBy(key, InsertBy(key, x, sorted))
    ensures sorted == [] || InsertBy(key, x, sorted)[0] in {x, sorted[0]}
  {
    hide AtMost;
    if sorted != [] && !AtMost(key(x), key(sorted[0])) {
      AtMostIsTotal(key(x), key(sorted[0]));
      assert forall i | 0 < i < |sorted[1..]| :: sorted[1..][i] == sorted[i + 1] && sorted[1..][i - 1] == sorted[i];
      InsertBySorted(key, x, sorted[1..]);
    }
  }

  lemma {:induction false} SortBySorts<T(!new)>(key: T -> string, items: seq<T>)
    ensures SortedBy(key, SortBy(key, items))
  {
    hide AtMost;
    if items != [] {
      SortBySorts(key, items[1..]);
      InsertBySorted(key, items[0], SortBy(key, items[1..]));
    }
  }

  lemma {:induction false} SortOfSorted<T(!new)>(key: T -> string, items: seq<T>)
    requires SortedBy(key, items)
    ensures SortBy(key, items) == items
  {
    hide AtMost;
    if items != [] {
      assert forall i | 0 < i < |items[1..]| :: items[1..][i] == items[i + 1] && items[1..][i - 1] == items[i];
      SortOfSorted(key, items[1..]);
      if |items| > 1 {
        assert AtMost(key(items[0]), key(items[1]));
      }
      assert items == [items[0]] + items[1..];
    }
  }

  lemma SortTwice<T(!new)>(key: T -> string, items: seq<T>)
    ensures SortBy(key, SortBy(key, items)) == SortBy(key, items)
  {
    SortBySorts(key, items);
    SortOfSorted(key, SortBy(key, items));
  }

  lemma {:induction false} InsertByDistinct<T(!new)>(key: T -> string, x: T, sorted: seq<T>)
    requires DistinctBy(key, sorted) && forall y :: y in sorted ==> key(y) != key(x)
    ensures DistinctBy(key, InsertBy(key, x, sorted))
  {
    hide AtMost;
    if sorted != [] && !AtMost(key(x), key(sorted[0])) {
      var rest := sorted[1..];
      assert forall i | 0 <= i < |rest| :: rest[i] == sorted[i + 1];
      InsertByDistinct(key, x, rest);
      var inserted := InsertBy(key, x, rest);
      forall i | 0 <= i < |inserted| ensures key(sorted[0]) != key(inserted[i]) {
        assert inserted[i] in inserted && sorted[0] in sorted;
        if inserted[i] != x {
          var k :| 0 <= k < |rest| && rest[k] == inserted[i];
        }
      }
    }
  }

  lemma {:induction false} SortByDistinct<T(!new)>(key: T -> string, items: seq<T>)
    requires DistinctBy(key, items)
    ensures DistinctBy(key, SortBy(key, items))
  {
    if items != [] {
      var rest := items[1..];
      assert forall i | 0 <= i < |rest| :: rest[i] == items[i + 1];
      SortByDistinct(key, rest);
      forall y | y in SortBy(key, rest) ensures key(y) != key(items[0]) {
        var k :| 0 <= k < |rest| && rest[k] == y;
      }
      InsertByDistinct(key, items[0], SortBy(key, rest));
    }
  }

  // ---- dictionaries ----

  function KeyOf(): Entry -> string {
    (e: Entry) => e.key
  }

  /** `dict(pairs)`: a repeated key keeps its first place and its last value. */
  function DictOf(pairs: seq<Entry>): seq<Entry> {
    if pairs == [] then []
    else Assign(DictOf(pairs[..|pairs| - 1]), pairs[|pairs| - 1])
  }

  function Assign(entries: seq<Entry>, e: Entry): seq<Entry> {
    if entries == [] then [e]
    else if entries[0].key == e.key then [e] + entries[1..]
    else [entries[0]] + Assign(entries[1..], e)
  }

  lemma {:induction false} AssignNew(entries: seq<Entry>, e: Entry)
    requires forall x :: x in entries ==> x.key != e.key
    ensures Assign(entries, e) == entries + [e]
  {
    if entries != [] {
      AssignNew(entries[1..], e);
      assert entries == [entries[0]] + entries[1..];
    }
  }

  lemma {:induction false} DictOfDistinct(pairs: seq<Entry>)
    requires DistinctBy(KeyOf(), pairs)
    ensures DictOf(pairs) == pairs
    decreases |pairs|
  {
    if pairs != [] {
      var before, last := pairs[..|pairs| - 1], pairs[|pairs| - 1];
      DictOfDistinct(before);
      forall x | x in before ensures x.key != last.key {
        var i :| 0 <= i < |before| && before[i] == x;
        assert KeyOf()(pairs[i]) != KeyOf()(pairs[|pairs| - 1]);
      }
      AssignNew(before, last);
      assert pairs == before + [last];
    }
  }

  // ---- single values ----

  /** `_bool_key` */
  function BoolKey(v: Option<Value>, default: bool): Result<bool> {
    match v case None => Ok(default) case Some(Bool(b)) => Ok(b) case _ => Failed
  }

  /** `_str_key` */
  function StrKey(v: Option<Value>, default: string): Result<string> {
    match v case None => Ok(default) case Some(Str(s)) => Ok(s) case _ => Failed
  }

  /** `_str_key` of one of some words. */
  function WordKey(v: Option<Value>, default: string, words: seq<string>): Result<string> {
    var s :- StrKey(v, default);
    var _ :- Need(s in words);
    Ok(s)
  }

  /** `_required_str` */
  function RequiredStr(v: Option<Value>): Result<string> {
    match v case Some(Str(s)) => if s != "" then Ok(s) else Failed case _ => Failed
  }

  /** `_optional_str` */
  function OptionalStr(v: Option<Value>): Result<Option<string>> {
    match v
    case None => Ok(None)
    case Some(Str(s)) => if s != "" then Ok(Some(s)) else Failed
    case _ => Failed
  }

  /** `_number_key` */
  function NumberKey(env: Platform, v: Option<Value>, default: real): Result<real> {
    match v
    case None => Ok(default)
    case Some(Int(i)) => if env.toFloat(i).Some? then Ok(env.toFloat(i).value) else Failed
    case Some(Float(r)) => Ok(r)
    case _ => Failed
  }

  /** `_int_key` */
  function IntKey(env: Platform, v: Option<Value>, default: int): Result<int>
  {
    match v
    case None => if env.toFloat(default).Some? then Ok(default) else Failed
    case Some(Int(i)) => if env.toFloat(i).Some? then Ok(i) else Failed
    case _ => Failed
  }

  predicate AllStr(items: seq<Value>) {
    forall i :: 0 <= i < |items| ==> items[i].Str?
  }

  function Strings(items: seq<Value>): (r: seq<string>)
    requires AllStr(items)
    ensures |r| == |items| && forall i :: 0 <= i < |r| ==> items[i] == Str(r[i])
  {
    seq(|items|, i requires 0 <= i < |items| => items[i].s)
  }

  function StrList(strings: seq<string>): (r: Value)
    ensures r.List? && |r.items| == |strings| && forall i :: 0 <= i < |strings| ==> r.items[i] == Str(strings[i])
  {
    List(seq(|strings|, i requires 0 <= i < |strings| => Str(strings[i])))
  }

  lemma StringsOfList(strings: seq<string>)
    ensures AllStr(StrList(strings).items) && Strings(StrList(strings).items) == strings
  {
  }

  /** `_str_list` with an empty default. */
  function StrListKey(v: Option<Value>): Result<seq<string>> {
    match v
    case None => Ok([])
    case Some(List(items)) =>
      if AllStr(items) && Str("") !in items then Ok(Strings(items)) else Failed
    case _ => Failed
  }

  /** A list of non-empty strings, itself not empty. */
  function FilledStrings(v: Value): Result<seq<string>> {
    match v
    case List(items) => if items != [] && AllStr(items) && Str("") !in items then Ok(Strings(items)) else Failed
    case _ => Failed
  }

  lemma FilledStringsBack(v: Value)
    ensures FilledStrings(v).Ok? ==>
      FilledStrings(v).value != [] && FilledStrings(StrList(FilledStrings(v).value)) == FilledStrings(v)
  {
    if FilledStrings(v).Ok? {
      var strings := FilledStrings(v).value;
      StringsOfList(strings);
      assert StrList(strings).items == v.items;
    }
  }

  // ---- header tables ----

  /** `_HEADER_NAME_RE` */
  predicate IsHeaderChar(c: char) {
    || 'a' <= c <= 'z' || 'A' <= c <= 'Z' || '0' <= c <= '9' || c in "!#$%&'*+.^_`|~-"
  }

  predicate IsHeaderName(name: string) {
    name != "" && forall i :: 0 <= i < |name| ==> IsHeaderChar(name[i])
  }

  /** str.lower of a header name. */
  function Lower(name: string): (r: string)
    ensures |r| == |name|
  {
    seq(|name|, i requires 0 <= i < |name| => LowerChar(name[i]))
  }

  function LowerChar(c: char): char {
    if 'A' <= c <= 'Z' then (c as int + 32) as char else c
  }

  lemma LowerHolds(name: string)
    requires IsHeaderName(name)
    ensures IsHeaderName(Lower(name)) && Lower(Lower(name)) == Lower(name)
  {
  }

  /** The lowercased headers of a table in its order: no two spellings of one name. */
  function HeaderPairs(entries: seq<Entry>): Result<seq<Entry>> {
    if entries == [] then Ok([])
    else
      var before :- HeaderPairs(entries[..|entries| - 1]);
      var last := entries[|entries| - 1];
      var _ :- Need(last.value.Str? && IsHeaderName(last.key));
      var _ :- Need(!HasKey(before, Lower(last.key)));
      Ok(before + [Entry(Lower(last.key), last.value)])
  }

  /** One turn of the loop: the headers of one more entry, or the refusal. */
  lemma HeaderPairsNext(entries: seq<Entry>, i: nat)
    requires i < |entries| && HeaderPairs(entries[..i]).Ok?
    ensures var before, e := HeaderPairs(entries[..i]).value, entries[i];
      HeaderPairs(entries[..i + 1])
      == if !e.value.Str? || !IsHeaderName(e.key) || HasKey(before, Lower(e.key)) then Failed
         else Ok(before + [Entry(Lower(e.key), e.value)])
  {
    hide IsHeaderName, Lower;
    assert entries[..i + 1][..i] == entries[..i];
  }

  predicate HasKey(entries: seq<Entry>, key: string) {
    exists e :: e in entries && e.key == key
  }

  lemma HeadersIs(entries: seq<Entry>)
    ensures Headers(Some(Dict(entries)))
      == if HeaderPairs(entries).Failed? then Failed else Ok(SortBy(KeyOf(), HeaderPairs(entries).value))
  {
    hide HeaderPairs, SortBy;
  }

  /** `_header_table` */
  method HeaderTable(v: Option<Value>) returns (r: Result<seq<Entry>>)
    ensures r == Headers(v)
  {
    var raw := if v.Some? then v.value else Dict([]);
    if !raw.Dict? {
      return Failed;
    }
    r := ReadHeaders(raw.entries);
    HeadersIs(raw.entries);
  }

  /** Its loop. */
  method ReadHeaders(entries: seq<Entry>) returns (r: Result<seq<Entry>>)
    ensures r == if HeaderPairs(entries).Failed? then Failed else Ok(SortBy(KeyOf(), HeaderPairs(entries).value))
  {
    hide *;
    var out: seq<Entry> := [];
    HeaderPairsStart(entries);
    for i := 0 to |entries|
      invariant HeaderPairs(entries[..i]) == Ok(out)
    {
      var e := entries[i];
      HeaderPairsNext(entries, i);
      if !e.value.Str? || !IsHeaderName(e.key) || HasKey(out, Lower(e.key)) {
        HeaderPairsFail(entries, i + 1);
        return Failed;
      }
      out := out + [Entry(Lower(e.key), e.value)];
    }
    assert entries[..|entries|] == entries;
    return Ok(SortBy(KeyOf(), out));
  }

  lemma HeaderPairsStart(entries: seq<Entry>)
    ensures HeaderPairs(entries[..0]) == Ok([])
  {
  }

  lemma {:induction false} HeaderPairsFail(entries: seq<Entry>, i: nat)
    requires i <= |entries| && HeaderPairs(entries[..i]).Failed?
    ensures HeaderPairs(entries).Failed?
    decreases |entries| - i
  {
    hide IsHeaderName, Lower;
    if i < |entries| {
      assert entries[..i + 1][..i] == entries[..i];
      HeaderPairsFail(entries, i + 1);
    } else {
      assert entries[..i] == entries;
    }
  }

  function Headers(v: Option<Value>): Result<seq<Entry>> {
    var raw := if v.Some? then v.value else Dict([]);
    var _ :- Need(raw.Dict?);
    var pairs :- HeaderPairs(raw.entries);
    Ok(SortBy(KeyOf(), pairs))
  }

  /** Headers as `_header_table` leaves them. */
  predicate Lowered(pairs: seq<Entry>) {
    forall e :: e in pairs ==> e.value.Str? && IsHeaderName(e.key) && Lower(e.key) == e.key
  }

  lemma {:induction false} HeaderPairsHold(entries: seq<Entry>)
    ensures HeaderPairs(entries).Ok? ==>
      Lowered(HeaderPairs(entries).value) && DistinctBy(KeyOf(), HeaderPairs(entries).value)
    decreases |entries|
  {
    hide IsHeaderName, Lower;
    if entries != [] && HeaderPairs(entries).Ok? {
      HeaderPairsHold(entries[..|entries| - 1]);
      LowerHolds(entries[|entries| - 1].key);
    }
  }

  lemma {:induction false} HeaderPairsOf(pairs: seq<Entry>)
    requires Lowered(pairs) && DistinctBy(KeyOf(), pairs)
    ensures HeaderPairs(pairs) == Ok(pairs)
    decreases |pairs|
  {
    hide IsHeaderName, Lower;
    if pairs != [] {
      var before, last := pairs[..|pairs| - 1], pairs[|pairs| - 1];
      assert pairs == before + [last];
      HeaderPairsOf(before);
      forall e | e in before ensures e.key != last.key {
        var i :| 0 <= i < |before| && before[i] == e;
        assert KeyOf()(pairs[i]) != KeyOf()(pairs[|pairs| - 1]);
      }
      assert last in pairs;
    }
  }

  /** The table written for some headers: left out when there are none. */
  function HeadersOut(pairs: seq<Entry>): Option<Value> {
    if pairs == [] then None else Some(Dict(DictOf(pairs)))
  }

  /** Headers read are read back from the table written for them. */
  lemma HeadersBack(v: Option<Value>)
    ensures Headers(v).Ok? ==> Headers(HeadersOut(Headers(v).value)) == Headers(v)
  {
    hide HeaderPairs, SortBy, DictOf, IsHeaderName, Lower, DistinctBy, SortedBy;
    if Headers(v).Ok? {
      var raw := if v.Some? then v.value else Dict([]);
      var pairs := HeaderPairs(raw.entries).value;
      var sorted := SortBy(KeyOf(), pairs);
      HeaderPairsHold(raw.entries);
      SortByDistinct(KeyOf(), pairs);
      DictOfDistinct(sorted);
      HeaderPairsOf(sorted);
      SortTwice(KeyOf(), pairs);
      if sorted == [] {
        HeaderPairsOf([]) by { NoneDistinct(); }
      }
    }
  }

  lemma NoneDistinct()
    ensures DistinctBy(KeyOf(), [])
  {
  }

  // ---- body defaults ----

  /** json.dumps with sorted keys, as the value it writes: json.loads reads that value back. */
  function Canonical(v: Value): Value
    decreases v
  {
    match v
    case List(items) => List(CanonicalItems(items))
    case Dict(entries) => Dict(SortBy(KeyOf(), CanonicalEntries(entries)))
    case _ => v
  }

  function CanonicalItems(items: seq<Value>): (r: seq<Value>)
    ensures |r| == |items|
    decreases items
  {
    if items == [] then [] else [Canonical(items[0])] + CanonicalItems(items[1..])
  }

  function CanonicalEntries(entries: seq<Entry>): (r: seq<Entry>)
    ensures |r| == |entries|
    decreases entries
  {
    if entries == [] then [] else [Entry(entries[0].key, Canonical(entries[0].value))] + CanonicalEntries(entries[1..])
  }

  predicate IsFixed(v: Value) {
    Canonical(v) == v
  }

  lemma {:induction false} ItemsFixed(items: seq<Value>)
    requires forall v :: v in items ==> IsFixed(v)
    ensures CanonicalItems(items) == items
  {
    hide Canonical;
    if items != [] {
      ItemsFixed(items[1..]);
      assert items[0] in items && IsFixed(items[0]);
      assert items == [items[0]] + items[1..];
    }
  }

  lemma {:induction false} EntriesFixed(entries: seq<Entry>)
    requires forall e :: e in entries ==> IsFixed(e.value)
    ensures CanonicalEntries(entries) == entries
  {
    hide Canonical;
    if entries != [] {
      EntriesFixed(entries[1..]);
      assert entries == [entries[0]] + entries[1..];
    }
  }

  lemma {:induction false} CanonicalTwice(v: Value)
    ensures IsFixed(Canonical(v))
    decreases v, 0
  {
    hide SortBy;
    match v
    case List(items) =>
      CanonicalItemsTwice(items);
      ItemsFixed(CanonicalItems(items));
    case Dict(entries) =>
      CanonicalEntriesTwice(entries);
      var sorted := SortBy(KeyOf(), CanonicalEntries(entries));
      SortTwice(KeyOf(), CanonicalEntries(entries));
      EntriesFixed(sorted);
    case _ =>
  }

  lemma {:induction false} CanonicalItemsTwice(items: seq<Value>)
    ensures forall v :: v in CanonicalItems(items) ==> IsFixed(v)
    decreases items, 1
  {
    hide Canonical;
    if items != [] {
      CanonicalTwice(items[0]);
      CanonicalItemsTwice(items[1..]);
    }
  }

  lemma {:induction false} CanonicalEntriesTwice(entries: seq<Entry>)
    ensures forall e :: e in CanonicalEntries(entries) ==> IsFixed(e.value)
    decreases entries, 1
  {
    hide Canonical;
    if entries != [] {
      CanonicalTwice(entries[0].value);
      CanonicalEntriesTwice(entries[1..]);
    }
  }

  /** json.dumps takes the value. */
  predicate HasJson(v: Value)
    decreases v
  {
    match v
    case List(items) => forall x :: x in items ==> HasJson(x)
    case Dict(entries) => forall e :: e in entries ==> HasJson(e.value)
    case _ => !v.Other?
  }

  /** `_toml_inline` has a form for the value: there is no null in it. */
  predicate NullFree(v: Value)
    decreases v
  {
    match v
    case List(items) => forall x :: x in items ==> NullFree(x)
    case Dict(entries) => forall e :: e in entries ==> NullFree(e.value)
    case _ => !v.Null?
  }

  lemma {:induction false} CanonicalHasJson(v: Value)
    requires HasJson(v)
    ensures HasJson(Canonical(v))
    decreases v, 0
  {
    hide SortBy;
    match v
    case List(items) => CanonicalItemsHaveJson(items);
    case Dict(entries) => CanonicalEntriesHaveJson(entries);
    case _ =>
  }

  lemma {:induction false} CanonicalItemsHaveJson(items: seq<Value>)
    requires forall x :: x in items ==> HasJson(x)
    ensures forall x :: x in CanonicalItems(items) ==> HasJson(x)
    decreases items, 1
  {
    hide Canonical, HasJson;
    if items != [] {
      CanonicalHasJson(items[0]);
      CanonicalItemsHaveJson(items[1..]);
    }
  }

  lemma {:induction false} CanonicalEntriesHaveJson(entries: seq<Entry>)
    requires forall e :: e in entries ==> HasJson(e.value)
    ensures forall e :: e in CanonicalEntries(entries) ==> HasJson(e.value)
    decreases entries, 1
  {
    hide Canonical, HasJson;
    if entries != [] {
      CanonicalHasJson(entries[0].value);
      CanonicalEntriesHaveJson(entries[1..]);
    }
  }

  /** Sorting keys neither drops nor adds a null. */
  lemma {:induction false} CanonicalNullFree(v: Value)
    ensures NullFree(Canonical(v)) <==> NullFree(v)
    decreases v, 0
  {
    hide SortBy;
    match v
    case List(items) => CanonicalItemsNullFree(items);
    case Dict(entries) => CanonicalEntriesNullFree(entries);
    case _ =>
  }

  lemma {:induction false} CanonicalItemsNullFree(items: seq<Value>)
    ensures (forall x :: x in CanonicalItems(items) ==> NullFree(x)) <==> forall x :: x in items ==> NullFree(x)
    decreases items, 1
  {
    hide Canonical, NullFree;
    if items != [] {
      CanonicalNullFree(items[0]);
      CanonicalItemsNullFree(items[1..]);
      var first, rest := Canonical(items[0]), CanonicalItems(items[1..]);
      assert forall x :: x in items <==> x == items[0] || x in items[1..];
      assert forall x :: x in CanonicalItems(items) <==> x == first || x in rest;
    }
  }

  lemma {:induction false} CanonicalEntriesNullFree(entries: seq<Entry>)
    ensures (forall e :: e in CanonicalEntries(entries) ==> NullFree(e.value))
      <==> forall e :: e in entries ==> NullFree(e.value)
    decreases entries, 1
  {
    hide Canonical, NullFree;
    if entries != [] {
      CanonicalNullFree(entries[0].value);
      CanonicalEntriesNullFree(entries[1..]);
      var first, rest := Entry(entries[0].key, Canonical(entries[0].value)), CanonicalEntries(entries[1..]);
      assert forall e :: e in entries <==> e == entries[0] || e in entries[1..];
      assert forall e :: e in CanonicalEntries(entries) <==> e == first || e in rest;
    }
  }

  /** The body defaults, as the value their canonical JSON writes. */
  function Body(v: Option<Value>): Result<Value> {
    var raw := if v.Some? then v.value else Dict([]);
    var _ :- Need(raw.Dict? && HasJson(raw));
    Ok(Canonical(raw))
  }

  function BodyOut(body: Value): Option<Value> {
    if body == Dict([]) then None else Some(body)
  }

  /** Body defaults read are read back from the table written for them. */
  lemma BodyBack(v: Option<Value>)
    ensures Body(v).Ok? ==> Body(v).value.Dict? && Body(BodyOut(Body(v).value)) == Body(v)
  {
    hide SortBy, CanonicalEntries;
    if Body(v).Ok? {
      var raw := if v.Some? then v.value else Dict([]);
      CanonicalTwice(raw);
      CanonicalHasJson(raw);
    }
  }
}
