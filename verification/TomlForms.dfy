/** The printed forms of keys, strings and values code by code, and which values have one
    (src/llm_redact/config_write.py). */
module TomlForms {
  import opened Wrappers
  import opened Decimal
  import opened TomlText
  import opened TomlTables

  /** A letter, a figure, an underscore or a hyphen. */
  predicate IsBareCode(n: int) {
    65 <= n <= 90 || 97 <= n <= 122 || 48 <= n <= 57 || n == 95 || n == 45
  }

  /** A key is written bare when it is not empty and holds nothing else; any other between quotes. */
  lemma KeyMeans(key: string)
    ensures key != "" && (forall c :: c in key ==> IsBareCode(c as int)) ==> KeyText(key) == key
    ensures key == "" || (exists c :: c in key && !IsBareCode(c as int)) ==> KeyText(key) == StringText(key)
  {
    hide StringText;
    if exists c :: c in key && !IsBareCode(c as int) {
      var c :| c in key && !IsBareCode(c as int);
      var i :| 0 <= i < |key| && key[i] == c;
      assert !IsBare(key[i]);
    } else {
      forall i | 0 <= i < |key| ensures IsBare(key[i]) {
        assert key[i] in key;
      }
    }
  }

  /** Each character of a string: quote, backslash and the five controls with a letter after a
      backslash, any other control and DEL with two small hexadecimal digits, the rest as it is. */
  lemma EscapeMeans(c: char)
    ensures var n := c as int;
      Escape(c)
      == if n == 34 then ['\\', '"'] else if n == 92 then ['\\', '\\']
         else if n == 8 then ['\\', 'b'] else if n == 9 then ['\\', 't'] else if n == 10 then ['\\', 'n']
         else if n == 12 then ['\\', 'f'] else if n == 13 then ['\\', 'r']
         else if n < 32 || n == 127
           then ['\\', 'u', '0', '0', "0123456789abcdef"[n / 16], "0123456789abcdef"[n % 16]]
         else [c]
  {
    var n := c as int;
    if n < 32 || n == 127 {
      HexMeans(n / 16);
      HexMeans(n % 16);
    }
  }

  lemma HexMeans(d: int)
    requires 0 <= d < 16
    ensures HexDigit(d) == "0123456789abcdef"[d]
  {
  }

  /** A string is its characters' forms between quotes. */
  lemma StringMeans(s: string, c: char)
    ensures StringText("") == "\"\""
    ensures StringText(s + [c]) == StringText(s)[..|StringText(s)| - 1] + Escape(c) + "\""
  {
    hide EscapeAll, Escape;
    NoEscapes();
    EscapeSnoc(s, c);
    Quoted("\"", EscapeAll(s), "\"");
    Associate("\"", EscapeAll(s), Escape(c));
  }

  lemma NoEscapes()
    ensures EscapeAll("") == "" && StringText("") == "\"\""
  {
  }

  lemma Quoted(a: string, b: string, c: string)
    requires |c| == 1
    ensures (a + b + c)[..|a + b + c| - 1] == a + b
  {
  }

  lemma {:induction false} EscapeSnoc(s: string, c: char)
    ensures EscapeAll(s + [c]) == EscapeAll(s) + Escape(c)
  {
    hide Escape;
    if s == "" {
      assert s + [c] == [c] && [c][1..] == "";
      assert Escape(c) + "" == Escape(c) && "" + Escape(c) == Escape(c);
    } else {
      assert (s + [c])[1..] == s[1..] + [c];
      EscapeSnoc(s[1..], c);
      assert Escape(s[0]) + (EscapeAll(s[1..]) + Escape(c)) == Escape(s[0]) + EscapeAll(s[1..]) + Escape(c);
    }
  }

  lemma SinglesMean(n: int)
    ensures InlineText(Bool(true)) == "true" && InlineText(Bool(false)) == "false"
    ensures InlineText(Int(n)) == if n < 0 then "-" + Text(-n) else Text(n)
  {
    hide Text;
  }

  /** A list is written item by item between brackets. */
  lemma ListsMean(v: Value, w: Value, more: seq<Value>)
    requires HasText(v) && HasText(w) && forall i :: 0 <= i < |more| ==> HasText(more[i])
    ensures InlineText(List([])) == "[]"
    ensures HasText(List([v])) && InlineText(List([v])) == "[" + InlineText(v) + "]"
    ensures HasText(List([v, w] + more)) && HasText(List([w] + more))
    ensures exists rest :: InlineText(List([w] + more)) == "[" + rest
                           && InlineText(List([v, w] + more)) == "[" + (InlineText(v) + ", " + rest)
  {
    hide HasText, InlineText, ItemsText;
    ItemsHaveText([v]);
    ItemsHaveText([w] + more);
    ItemsHaveText([v, w] + more);
    ItemsHaveText([]);
    ListTextIs([]);
    ListTextIs([v]);
    ListTextIs([w] + more);
    ListTextIs([v, w] + more);
    NoItems();
    ItemsTextIs([v]);
    ItemsTextIs([v, w] + more);
    assert ([v, w] + more)[1..] == [w] + more;
    var rest := ItemsText([w] + more) + "]";
    Associate(InlineText(v) + ", ", ItemsText([w] + more), "]");
    Associate("[", ItemsText([w] + more), "]");
    Associate("[", InlineText(v) + ", " + ItemsText([w] + more), "]");
  }

  lemma Associate(a: string, b: string, c: string)
    ensures a + b + c == a + (b + c)
  {
  }

  lemma NoItems()
    ensures ItemsText([]) == "" && "[" + "" + "]" == "[]"
  {
  }

  lemma ListTextIs(items: seq<Value>)
    requires HasText(List(items))
    ensures (forall x :: x in items ==> HasText(x)) && InlineText(List(items)) == "[" + ItemsText(items) + "]"
  {
    hide ItemsText;
  }

  /** A mapping is written entry by entry between braces with a space inside each. */
  lemma DictsMean(a: Entry, b: Entry)
    requires HasText(a.value) && HasText(b.value)
    ensures InlineText(Dict([])) == "{}"
    ensures HasText(Dict([a])) && HasText(Dict([a, b]))
    ensures InlineText(Dict([a])) == "{ " + (KeyText(a.key) + " = " + InlineText(a.value)) + " }"
    ensures InlineText(Dict([a, b]))
      == "{ " + (KeyText(a.key) + " = " + InlineText(a.value) + ", " + (KeyText(b.key) + " = " + InlineText(b.value)))
         + " }"
  {
    hide KeyText;
    assert [a, b][1..] == [b];
    EntriesTextIs([a]);
    EntriesTextIs([a, b]);
    EntriesTextIs([b]);
  }

  lemma ItemsHaveText(items: seq<Value>)
    requires forall i :: 0 <= i < |items| ==> HasText(items[i])
    ensures HasText(List(items))
  {
    forall x | x in items ensures HasText(x) {
      var i :| 0 <= i < |items| && items[i] == x;
    }
  }

  /** No None at any depth. */
  predicate NoNullInside(v: Value)
    decreases v
  {
    && v != Null
    && (v.List? ==> forall i :: 0 <= i < |v.items| ==> NoNullInside(v.items[i]))
    && (v.Dict? ==> forall i :: 0 <= i < |v.entries| ==> NoNullInside(v.entries[i].value))
  }

  /** Exactly the values without a None have an inline form. */
  lemma {:induction false} HasTextIs(v: Value)
    ensures HasText(v) <==> NoNullInside(v)
    decreases v
  {
    match v
    case List(items) =>
      forall x | x in items ensures HasText(x) <==> NoNullInside(x) {
        HasTextIs(x);
      }
    case Dict(entries) =>
      forall e | e in entries ensures HasText(e.value) <==> NoNullInside(e.value) {
        HasTextIs(e.value);
      }
    case _ =>
  }

  /** A list with items, all of them mappings. */
  predicate IsListOfTables(v: Value) {
    v.List? && |v.items| > 0 && forall i :: 0 <= i < |v.items| ==> v.items[i].Dict?
  }

  lemma TableListIs(v: Value)
    ensures IsTableList(v) <==> IsListOfTables(v)
  {
    if IsListOfTables(v) {
      forall x | x in v.items ensures x.Dict? {
        var i :| 0 <= i < |v.items| && v.items[i] == x;
      }
    }
  }

  /** Every None in the mapping is a value of its own tables: of the mapping itself, of a mapping in one
      of these, or of an item of a list of mappings there. */
  predicate NullsAreOwn(table: seq<Entry>)
    decreases table, 0
  {
    forall i :: 0 <= i < |table| ==> NullsAreOwnIn(table[i].value)
  }

  predicate NullsAreOwnIn(v: Value)
    decreases v, 1
  {
    if v == Null then true
    else if v.Dict? then NullsAreOwn(v.entries)
    else if IsListOfTables(v) then forall i :: 0 <= i < |v.items| ==> NullsAreOwn(v.items[i].entries)
    else NoNullInside(v)
  }

  /** Exactly these mappings are emitted; all others raise. */
  lemma {:induction false} EmittableExactly(table: seq<Entry>)
    ensures Emittable(table) <==> NullsAreOwn(table)
    decreases table, 0
  {
    forall e | e in table ensures EmittableValue(e.value) <==> NullsAreOwnIn(e.value) {
      EmittableValueIs(e.value);
    }
  }

  lemma {:induction false} EmittableValueIs(v: Value)
    ensures EmittableValue(v) <==> NullsAreOwnIn(v)
    decreases v, 1
  {
    TableListIs(v);
    HasTextIs(v);
    if v.Dict? {
      EmittableExactly(v.entries);
    } else if IsTableList(v) {
      forall x | x in v.items ensures Emittable(x.entries) <==> NullsAreOwn(x.entries) {
        EmittableExactly(x.entries);
      }
    }
  }

  /** No mapping at any depth has a key twice. */
  predicate KeysOnce(v: Value)
    decreases v
  {
    && (v.List? ==> forall i :: 0 <= i < |v.items| ==> KeysOnce(v.items[i]))
    && (v.Dict? ==>
          && (forall i, j :: 0 <= i < j < |v.entries| ==> v.entries[i].key != v.entries[j].key)
          && forall i :: 0 <= i < |v.entries| ==> KeysOnce(v.entries[i].value))
  }

  /** All that is asked of a mapping for it to read back. */
  lemma {:induction false} WellFormedMeans(v: Value)
    ensures WellFormed(v) <==> KeysOnce(v)
    decreases v
  {
    match v
    case List(items) =>
      forall x | x in items ensures WellFormed(x) <==> KeysOnce(x) {
        WellFormedMeans(x);
      }
    case Dict(entries) =>
      forall e | e in entries ensures WellFormed(e.value) <==> KeysOnce(e.value) {
        WellFormedMeans(e.value);
      }
    case _ =>
  }
}
