/** TOML tables: `_emit_table` of src/llm_redact/config_write.py against a reader that replays its
    lines under the header rules of TOML v1.0.0 (sections "Table" and "Array of Tables"). */
module TomlTables {
  import opened Wrappers
  import opened TomlText

  // ---- what is emitted ----

  /** `_is_table_list` */
  predicate IsTableList(v: Value) {
    v.List? && v.items != [] && forall x :: x in v.items ==> x.Dict?
  }

  /** The value gets a header of its own rather than a line in its table. */
  predicate IsNested(v: Value) {
    v.Dict? || IsTableList(v)
  }

  /** The table can be emitted: every value that goes on a line has a TOML form. None as a table's
      own value is left out; anywhere else it raises TypeError. */
  predicate Emittable(table: seq<Entry>)
    decreases table, 0
  {
    forall e :: e in table ==> EmittableValue(e.value)
  }

  predicate EmittableValue(v: Value)
    decreases v, 1
  {
    if v.Null? then true
    else if v.Dict? then Emittable(v.entries)
    else if IsTableList(v) then forall x :: x in v.items ==> Emittable(x.entries)
    else HasText(v)
  }

  /** The lines of a document: a header opens a table, or the next table of an array of them. */
  datatype Line = Header(path: seq<string>, isArray: bool) | Pair(e: Entry)

  /** The lines of the table's own values. */
  function OwnLines(table: seq<Entry>): seq<Line> {
    if table == [] then []
    else if table[0].value.Null? || IsNested(table[0].value) then OwnLines(table[1..])
    else [Pair(table[0])] + OwnLines(table[1..])
  }

  /** The lines of the tables nested in it, each under its own header. */
  function NestedLines(path: seq<string>, table: seq<Entry>): seq<Line>
    decreases table, 0
  {
    if table == [] then []
    else ValueLines(path + [table[0].key], table[0].value) + NestedLines(path, table[1..])
  }

  function ValueLines(path: seq<string>, v: Value): seq<Line>
    decreases v, 2
  {
    if v.Dict? then TableLines(path, v.entries, false)
    else if IsTableList(v) then ArrayLines(path, v.items)
    else []
  }

  function ArrayLines(path: seq<string>, items: seq<Value>): seq<Line>
    requires forall x :: x in items ==> x.Dict?
    decreases items, 0
  {
    if items == [] then []
    else TableLines(path, items[0].entries, true) + ArrayLines(path, items[1..])
  }

  function TableLines(path: seq<string>, table: seq<Entry>, isArray: bool): seq<Line>
    decreases table, 1
  {
    [Header(path, isArray)] + OwnLines(table) + NestedLines(path, table)
  }

  // ---- the document a reader builds ----

  /** A node of the document: a value on a line, a table, or an array whose items are tables. */
  datatype Node = Leaf(v: Value) | Table(members: seq<Member>) | Tables(items: seq<Node>)

  datatype Member = Member(key: string, node: Node)

  function Find(ms: seq<Member>, key: string): (i: int)
    ensures -1 <= i < |ms|
    ensures i >= 0 ==> ms[i].key == key
    ensures i == -1 ==> forall j :: 0 <= j < |ms| ==> ms[j].key != key
  {
    if ms == [] then -1
    else if ms[0].key == key then 0
    else
      var i := Find(ms[1..], key);
      if i < 0 then -1 else i + 1
  }

  /** A path may pass through a table, or through the last table of an array. */
  predicate CanEnter(node: Node) {
    node.Table? || (node.Tables? && node.items != [] && node.items[|node.items| - 1].Table?)
  }

  function Inner(node: Node): seq<Member>
    requires CanEnter(node)
  {
    if node.Table? then node.members else node.items[|node.items| - 1].members
  }

  function WithInner(node: Node, ms: seq<Member>): (n: Node)
    requires CanEnter(node)
    ensures CanEnter(n) && Inner(n) == ms
  {
    if node.Table? then Table(ms) else Tables(node.items[|node.items| - 1 := Table(ms)])
  }

  datatype Edit = SetKey(v: Value) | NewTable | NewItem

  /** What a line does at the end of a path. Defining anything twice is an error. */
  function EditKey(ms: seq<Member>, key: string, edit: Edit): Option<seq<Member>> {
    var i := Find(ms, key);
    match edit
    case SetKey(v) => if i < 0 then Some(ms + [Member(key, Leaf(v))]) else None
    case NewTable => if i < 0 then Some(ms + [Member(key, Table([]))]) else None
    case NewItem =>
      if i < 0 then Some(ms + [Member(key, Tables([Table([])]))])
      else if ms[i].node.Tables? then Some(ms[i := Member(key, Tables(ms[i].node.items + [Table([])]))])
      else None
  }

  /** The same at the end of a longer path; a missing table on the way is created. */
  function Apply(ms: seq<Member>, path: seq<string>, edit: Edit): Option<seq<Member>>
    requires path != []
    decreases |path|
  {
    var i := Find(ms, path[0]);
    if |path| == 1 then EditKey(ms, path[0], edit)
    else if i < 0 then
      var r := Apply([], path[1..], edit);
      if r.Some? then Some(ms + [Member(path[0], Table(r.value))]) else None
    else if !CanEnter(ms[i].node) then None
    else
      var r := Apply(Inner(ms[i].node), path[1..], edit);
      if r.Some? then Some(ms[i := Member(path[0], WithInner(ms[i].node, r.value))]) else None
  }

  /** The document so far, and the path of the header read last. */
  datatype Doc = Doc(root: seq<Member>, at: seq<string>)

  function ReadLine(d: Doc, line: Line): Option<Doc> {
    match line
    case Header(path, isArray) =>
      if path == [] then None
      else
        var r := Apply(d.root, path, if isArray then NewItem else NewTable);
        if r.Some? then Some(Doc(r.value, path)) else None
    case Pair(e) =>
      var r := Apply(d.root, d.at + [e.key], SetKey(e.value));
      if r.Some? then Some(Doc(r.value, d.at)) else None
  }

  function Replay(d: Doc, lines: seq<Line>): Option<Doc>
    decreases |lines|
  {
    if lines == [] then Some(d)
    else
      var next := ReadLine(d, lines[0]);
      if next.Some? then Replay(next.value, lines[1..]) else None
  }

  // ---- looking into a document, and changing it there ----

  ghost function Get(ms: seq<Member>, path: seq<string>): Option<seq<Member>>
    decreases |path|
  {
    if path == [] then Some(ms)
    else
      var i := Find(ms, path[0]);
      if i < 0 || !CanEnter(ms[i].node) then None else Get(Inner(ms[i].node), path[1..])
  }

  ghost function Put(ms: seq<Member>, path: seq<string>, inner: seq<Member>): seq<Member>
    requires Get(ms, path).Some?
    decreases |path|
  {
    if path == [] then inner
    else
      var i := Find(ms, path[0]);
      ms[i := Member(path[0], WithInner(ms[i].node, Put(Inner(ms[i].node), path[1..], inner)))]
  }

  lemma {:induction false} FindAfterUpdate(ms: seq<Member>, key: string, node: Node)
    ensures var i := Find(ms, key); i >= 0 ==> Find(ms[i := Member(key, node)], key) == i
  {
    if ms != [] && ms[0].key != key {
      FindAfterUpdate(ms[1..], key, node);
      var i := Find(ms, key);
      if i >= 0 {
        assert ms[i := Member(key, node)][1..] == ms[1..][i - 1 := Member(key, node)];
      }
    }
  }

  lemma {:induction false} FindAppended(ms: seq<Member>, m: Member)
    requires Find(ms, m.key) == -1
    ensures Find(ms + [m], m.key) == |ms|
  {
    if ms == [] {
      assert ms + [m] == [m];
    } else {
      assert (ms + [m])[1..] == ms[1..] + [m];
      FindAppended(ms[1..], m);
    }
  }

  lemma InnerTwice(node: Node, a: seq<Member>, b: seq<Member>)
    requires CanEnter(node)
    ensures WithInner(WithInner(node, a), b) == WithInner(node, b)
    ensures WithInner(node, Inner(node)) == node
  {
    if node.Tables? {
      var last := |node.items| - 1;
      assert node.items[last := Table(a)][last := Table(b)] == node.items[last := Table(b)];
      assert node.items[last := node.items[last]] == node.items;
    }
  }

  lemma {:induction false} GetOfPut(ms: seq<Member>, path: seq<string>, inner: seq<Member>)
    requires Get(ms, path).Some?
    ensures Get(Put(ms, path, inner), path) == Some(inner)
    decreases |path|
  {
    if path != [] {
      var i := Find(ms, path[0]);
      GetOfPut(Inner(ms[i].node), path[1..], inner);
      FindAfterUpdate(ms, path[0], WithInner(ms[i].node, Put(Inner(ms[i].node), path[1..], inner)));
    }
  }

  lemma {:induction false} PutTwice(ms: seq<Member>, path: seq<string>, a: seq<Member>, b: seq<Member>)
    requires Get(ms, path).Some?
    ensures Get(Put(ms, path, a), path).Some? && Put(Put(ms, path, a), path, b) == Put(ms, path, b)
    decreases |path|
  {
    GetOfPut(ms, path, a);
    if path != [] {
      var i := Find(ms, path[0]);
      PutTwice(Inner(ms[i].node), path[1..], a, b);
      InnerTwice(ms[i].node, Put(Inner(ms[i].node), path[1..], a), Put(Inner(ms[i].node), path[1..], b));
      FindAfterUpdate(ms, path[0], WithInner(ms[i].node, Put(Inner(ms[i].node), path[1..], a)));
    }
  }

  lemma {:induction false} GetDeeper(ms: seq<Member>, path: seq<string>, key: string)
    requires Get(ms, path).Some?
    ensures Get(ms, path + [key]) == Get(Get(ms, path).value, [key])
    decreases |path|
  {
    if path == [] {
      assert path + [key] == [key];
    } else {
      assert (path + [key])[1..] == path[1..] + [key];
      GetDeeper(Inner(ms[Find(ms, path[0])].node), path[1..], key);
    }
  }

  lemma {:induction false} PutDeeper(ms: seq<Member>, path: seq<string>, key: string, inner: seq<Member>)
    requires Get(ms, path).Some? && Get(Get(ms, path).value, [key]).Some?
    ensures Get(ms, path + [key]).Some?
    ensures Put(ms, path + [key], inner) == Put(ms, path, Put(Get(ms, path).value, [key], inner))
    decreases |path|
  {
    GetDeeper(ms, path, key);
    if path == [] {
      assert path + [key] == [key];
    } else {
      assert (path + [key])[1..] == path[1..] + [key];
      PutDeeper(Inner(ms[Find(ms, path[0])].node), path[1..], key, inner);
    }
  }

  /** A line at the end of a path changes the table there, and nothing else. */
  lemma {:induction false} ApplyIsLocal(ms: seq<Member>, path: seq<string>, key: string, edit: Edit)
    requires Get(ms, path).Some?
    ensures var r := EditKey(Get(ms, path).value, key, edit);
      Apply(ms, path + [key], edit) == if r.Some? then Some(Put(ms, path, r.value)) else None
    decreases |path|
  {
    hide EditKey;
    if path == [] {
      assert path + [key] == [key];
    } else {
      assert (path + [key])[1..] == path[1..] + [key];
      ApplyIsLocal(Inner(ms[Find(ms, path[0])].node), path[1..], key, edit);
    }
  }

  // ---- replaying what is emitted ----

  /** The members the table's own values become, and those its nested tables become. */
  function OwnMembers(table: seq<Entry>): seq<Member> {
    if table == [] then []
    else if table[0].value.Null? || IsNested(table[0].value) then OwnMembers(table[1..])
    else [Member(table[0].key, Leaf(table[0].value))] + OwnMembers(table[1..])
  }

  function NestedMembers(table: seq<Entry>): seq<Member>
    decreases table, 0
  {
    if table == [] then []
    else if !IsNested(table[0].value) then NestedMembers(table[1..])
    else [Member(table[0].key, NodeOf(table[0].value))] + NestedMembers(table[1..])
  }

  function Members(table: seq<Entry>): seq<Member>
    decreases table, 1
  {
    OwnMembers(table) + NestedMembers(table)
  }

  function NodeOf(v: Value): Node
    requires IsNested(v)
    decreases v, 2
  {
    if v.Dict? then Table(Members(v.entries)) else Tables(ItemsOf(v.items))
  }

  function ItemsOf(items: seq<Value>): seq<Node>
    requires forall x :: x in items ==> x.Dict?
    decreases items, 0
  {
    if items == [] then [] else [Table(Members(items[0].entries))] + ItemsOf(items[1..])
  }

  lemma {:induction false} ReplayOfSum(d: Doc, a: seq<Line>, b: seq<Line>)
    ensures var mid := Replay(d, a);
      Replay(d, a + b) == if mid.Some? then Replay(mid.value, b) else None
    decreases |a|
  {
    hide ReadLine;
    if a == [] {
      assert a + b == b;
    } else {
      assert (a + b)[1..] == a[1..] + b;
      if ReadLine(d, a[0]).Some? {
        ReplayOfSum(ReadLine(d, a[0]).value, a[1..], b);
      }
    }
  }

  /** No key of `table` that `what` asks about is among the members. */
  ghost predicate Absent(ms: seq<Member>, table: seq<Entry>) {
    forall m, e :: m in ms && e in table ==> m.key != e.key
  }

  lemma FindAbsent(ms: seq<Member>, key: string)
    requires forall m :: m in ms ==> m.key != key
    ensures Find(ms, key) == -1
  {
  }

  /** The pairs of a table land in the table whose header was read last, in order. */
  lemma {:induction false} ReplayOwnLines(d: Doc, ms: seq<Member>, table: seq<Entry>)
    requires Get(d.root, d.at) == Some(ms)
    requires DistinctKeys(table) && Absent(ms, table)
    ensures Replay(d, OwnLines(table)) == Some(Doc(Put(d.root, d.at, ms + OwnMembers(table)), d.at))
    decreases |table|
  {
    hide IsNested, Get, Put, Apply;
    if table == [] {
      assert ms + [] == ms;
      PutSame(d.root, d.at);
    } else {
      var e, rest := table[0], table[1..];
      assert DistinctKeys(rest) && Absent(ms, rest);
      if e.value.Null? || IsNested(e.value) {
        ReplayOwnLines(d, ms, rest);
      } else {
        var m := Member(e.key, Leaf(e.value));
        FindAbsent(ms, e.key);
        ApplyIsLocal(d.root, d.at, e.key, SetKey(e.value));
        GetOfPut(d.root, d.at, ms + [m]);
        var next := Doc(Put(d.root, d.at, ms + [m]), d.at);
        assert ReadLine(d, Pair(e)) == Some(next);
        ReplayOwnLines(next, ms + [m], rest);
        PutTwice(d.root, d.at, ms + [m], ms + [m] + OwnMembers(rest));
        assert ms + [m] + OwnMembers(rest) == ms + ([m] + OwnMembers(rest));
        assert OwnLines(table) == [Pair(e)] + OwnLines(rest);
        assert ([Pair(e)] + OwnLines(rest))[1..] == OwnLines(rest);
      }
    }
  }

  lemma {:induction false} PutSame(ms: seq<Member>, path: seq<string>)
    requires Get(ms, path).Some?
    ensures Put(ms, path, Get(ms, path).value) == ms
    decreases |path|
  {
    if path != [] {
      var i := Find(ms, path[0]);
      PutSame(Inner(ms[i].node), path[1..]);
      InnerTwice(ms[i].node, [], []);
    }
  }

  /** The keys of the nested entries are new to the members. */
  ghost predicate AbsentNested(ms: seq<Member>, table: seq<Entry>) {
    forall m, e :: m in ms && e in table && IsNested(e.value) ==> m.key != e.key
  }

  /** The document with one member added to the table at `path`. */
  ghost function Added(root: seq<Member>, path: seq<string>, ms: seq<Member>, key: string, node: Node): seq<Member>
    requires Get(root, path).Some?
  {
    Put(root, path, ms + [Member(key, node)])
  }

  lemma EnterAdded(root: seq<Member>, path: seq<string>, ms: seq<Member>, key: string, node: Node, inner: seq<Member>)
    requires Get(root, path) == Some(ms) && Find(ms, key) == -1 && CanEnter(node)
    ensures var r := Added(root, path, ms, key, node);
      && Get(r, path + [key]) == Some(Inner(node))
      && Put(r, path + [key], inner) == Added(root, path, ms, key, WithInner(node, inner))
  {
    var r := Added(root, path, ms, key, node);
    var added := ms + [Member(key, node)];
    GetOfPut(root, path, added);
    FindAppended(ms, Member(key, node));
    GetDeeper(r, path, key);
    PutDeeper(r, path, key, inner);
    var changed := added[|ms| := Member(key, WithInner(node, inner))];
    assert changed == ms + [Member(key, WithInner(node, inner))];
    PutTwice(root, path, added, changed);
  }

  /** After a header, the table's own lines and its nested tables fill the table just opened. */
  lemma {:induction false} ReplayInside(root: seq<Member>, path: seq<string>, ms: seq<Member>, key: string, node: Node,
                                        table: seq<Entry>) returns (at: seq<string>)
    requires Get(root, path) == Some(ms) && Find(ms, key) == -1
    requires CanEnter(node) && Inner(node) == []
    requires WellFormed(Dict(table))
    ensures Replay(Doc(Added(root, path, ms, key, node), path + [key]),
                   OwnLines(table) + NestedLines(path + [key], table))
         == Some(Doc(Added(root, path, ms, key, WithInner(node, Members(table))), at))
    decreases table, 1
  {
    hide Get, Put, IsNested, Replay, Find;
    var here := path + [key];
    var d := Doc(Added(root, path, ms, key, node), here);
    var own, all := OwnMembers(table), Members(table);
    EnterAdded(root, path, ms, key, node, own);
    EnterAdded(root, path, ms, key, node, all);
    ReplayOwnLines(d, [], table);
    assert [] + own == own;
    var mid := Doc(Put(d.root, here, own), here);
    GetOfPut(d.root, here, own);
    OwnKeysAreNotNested(table);
    at := ReplayNested(mid, here, own, table);
    PutTwice(d.root, here, own, all);
    ReplayOfSum(d, OwnLines(table), NestedLines(here, table));
  }

  lemma {:induction false} OwnKeyComesFrom(table: seq<Entry>, m: Member) returns (i: nat)
    requires m in OwnMembers(table)
    ensures i < |table| && table[i].key == m.key && !IsNested(table[i].value) && !table[i].value.Null?
    ensures m.node == Leaf(table[i].value)
  {
    hide IsNested;
    if !table[0].value.Null? && !IsNested(table[0].value) && m == Member(table[0].key, Leaf(table[0].value)) {
      i := 0;
    } else {
      i := OwnKeyComesFrom(table[1..], m);
      i := i + 1;
    }
  }

  lemma OwnKeysAreNotNested(table: seq<Entry>)
    requires DistinctKeys(table)
    ensures AbsentNested(OwnMembers(table), table)
  {
    hide IsNested;
    forall m, e | m in OwnMembers(table) && e in table && IsNested(e.value) ensures m.key != e.key {
      var i := OwnKeyComesFrom(table, m);
      var j :| 0 <= j < |table| && table[j] == e;
    }
  }

  lemma {:induction false} ReplayNested(d: Doc, path: seq<string>, ms: seq<Member>, table: seq<Entry>)
    returns (at: seq<string>)
    requires Get(d.root, path) == Some(ms)
    requires DistinctKeys(table) && (forall e :: e in table ==> WellFormed(e.value)) && AbsentNested(ms, table)
    ensures Replay(d, NestedLines(path, table)) == Some(Doc(Put(d.root, path, ms + NestedMembers(table)), at))
    decreases table, 0
  {
    hide *;
    NestedUnfold(path, table);
    if table == [] {
      PutSame(d.root, path);
      ReplayNothing(d);
      assert ms + [] == ms;
      at := d.at;
    } else {
      var e, rest := table[0], table[1..];
      if !IsNested(e.value) {
        NoLines(path + [e.key], e.value);
        assert NestedLines(path, table) == [] + NestedLines(path, rest) == NestedLines(path, rest);
        AbsentNestedTail(ms, table);
        at := ReplayNested(d, path, ms, rest);
      } else {
        var m := Member(e.key, NodeOf(e.value));
        AbsentNestedStep(ms, table);
        FindAbsent(ms, e.key);
        at := ReplayValue(d, path, ms, e.key, e.value);
        AddedIs(d.root, path, ms, e.key, NodeOf(e.value));
        var mid := Doc(Put(d.root, path, ms + [m]), at);
        GetOfPut(d.root, path, ms + [m]);
        at := ReplayNested(mid, path, ms + [m], rest);
        PutTwice(d.root, path, ms + [m], ms + [m] + NestedMembers(rest));
        assert ms + [m] + NestedMembers(rest) == ms + ([m] + NestedMembers(rest));
        ReplayOfSum(d, ValueLines(path + [e.key], e.value), NestedLines(path, rest));
      }
    }
  }

  lemma NestedUnfold(path: seq<string>, table: seq<Entry>)
    ensures table == [] ==> NestedLines(path, table) == [] && NestedMembers(table) == []
    ensures table != [] ==>
      && NestedLines(path, table) == ValueLines(path + [table[0].key], table[0].value) + NestedLines(path, table[1..])
      && (IsNested(table[0].value) ==>
            NestedMembers(table) == [Member(table[0].key, NodeOf(table[0].value))] + NestedMembers(table[1..]))
      && (!IsNested(table[0].value) ==> NestedMembers(table) == NestedMembers(table[1..]))
  {
    hide ValueLines, IsNested;
  }

  lemma AbsentNestedTail(ms: seq<Member>, table: seq<Entry>)
    requires table != [] && DistinctKeys(table) && AbsentNested(ms, table)
    ensures DistinctKeys(table[1..]) && AbsentNested(ms, table[1..])
  {
    hide IsNested;
  }

  lemma AbsentNestedStep(ms: seq<Member>, table: seq<Entry>)
    requires table != [] && DistinctKeys(table) && AbsentNested(ms, table) && IsNested(table[0].value)
    ensures forall m :: m in ms ==> m.key != table[0].key
    ensures var m := Member(table[0].key, NodeOf(table[0].value));
      DistinctKeys(table[1..]) && AbsentNested(ms + [m], table[1..])
  {
    hide IsNested, NodeOf;
    assert table[0] in table;
    var m := Member(table[0].key, NodeOf(table[0].value));
    forall x, e | x in ms + [m] && e in table[1..] && IsNested(e.value) ensures x.key != e.key {
      assert e in table;
      if x !in ms {
        var j :| 0 <= j < |table[1..]| && table[1..][j] == e;
        assert table[j + 1] == e;
      }
    }
  }

  lemma AddedIs(root: seq<Member>, path: seq<string>, ms: seq<Member>, key: string, node: Node)
    requires Get(root, path).Some?
    ensures Added(root, path, ms, key, node) == Put(root, path, ms + [Member(key, node)])
  {
  }

  lemma NoLines(path: seq<string>, v: Value)
    requires !IsNested(v)
    ensures ValueLines(path, v) == []
  {
  }

  /** A nested table, or array of tables, becomes one new member of its table. */
  lemma {:induction false} ReplayValue(d: Doc, path: seq<string>, ms: seq<Member>, key: string, v: Value)
    returns (at: seq<string>)
    requires Get(d.root, path) == Some(ms) && Find(ms, key) == -1 && IsNested(v) && WellFormed(v)
    ensures Replay(d, ValueLines(path + [key], v)) == Some(Doc(Added(d.root, path, ms, key, NodeOf(v)), at))
    decreases v, 2
  {
    if v.Dict? {
      at := ReplayTable(d, path, ms, key, v.entries);
    } else {
      at := ReplayItems(d, path, ms, key, [], v.items);
      assert [] + ItemsOf(v.items) == ItemsOf(v.items);
    }
  }

  lemma {:induction false} ReplayTable(d: Doc, path: seq<string>, ms: seq<Member>, key: string, table: seq<Entry>)
    returns (at: seq<string>)
    requires Get(d.root, path) == Some(ms) && Find(ms, key) == -1 && WellFormed(Dict(table))
    ensures Replay(d, TableLines(path + [key], table, false))
         == Some(Doc(Added(d.root, path, ms, key, Table(Members(table))), at))
    decreases table, 2
  {
    hide Get, Put, Find, WellFormed;
    ApplyIsLocal(d.root, path, key, NewTable);
    var next := Doc(Added(d.root, path, ms, key, Table([])), path + [key]);
    assert ReadLine(d, Header(path + [key], false)) == Some(next);
    at := ReplayInside(d.root, path, ms, key, Table([]), table);
    ReplayHeader(d, next, path + [key], table, false);
  }

  lemma ReplayHeader(d: Doc, next: Doc, path: seq<string>, table: seq<Entry>, isArray: bool)
    requires ReadLine(d, Header(path, isArray)) == Some(next)
    ensures Replay(d, TableLines(path, table, isArray)) == Replay(next, OwnLines(table) + NestedLines(path, table))
  {
    hide ReadLine;
    var rest := OwnLines(table) + NestedLines(path, table);
    assert TableLines(path, table, isArray) == [Header(path, isArray)] + rest;
    assert ([Header(path, isArray)] + rest)[1..] == rest;
  }

  /** What an array of tables looks like after some of its items: nothing before the first one. */
  ghost function Begun(root: seq<Member>, path: seq<string>, ms: seq<Member>, key: string, done: seq<Node>): seq<Member>
    requires Get(root, path) == Some(ms)
  {
    if done == [] then root else Added(root, path, ms, key, Tables(done))
  }

  lemma {:induction false} ReplayItems(d: Doc, path: seq<string>, ms: seq<Member>, key: string, done: seq<Node>,
                                       items: seq<Value>) returns (at: seq<string>)
    requires Get(d.root, path) == Some(ms) && Find(ms, key) == -1
    requires forall x :: x in items ==> x.Dict? && WellFormed(x)
    ensures Replay(Doc(Begun(d.root, path, ms, key, done), d.at), ArrayLines(path + [key], items))
         == Some(Doc(Begun(d.root, path, ms, key, done + ItemsOf(items)), at))
    decreases items, 0
  {
    hide *;
    ItemsUnfold(path + [key], items);
    if items == [] {
      at := d.at;
      ReplayNothing(Doc(Begun(d.root, path, ms, key, done), d.at));
      assert done + [] == done;
    } else {
      assert items[0].Dict? && WellFormed(items[0]) && items[0] == Dict(items[0].entries);
      var table := items[0].entries;
      var here := Doc(Begun(d.root, path, ms, key, done), d.at);
      var open := Doc(Added(d.root, path, ms, key, Tables(done + [Table([])])), path + [key]);
      NextItem(d, path, ms, key, done);
      LastTableFilled(done, []);
      ReplayHeader(here, open, path + [key], table, true);
      var mid := ReplayInside(d.root, path, ms, key, Tables(done + [Table([])]), table);
      var more := done + [Table(Members(table))];
      LastTableFilled(done, Members(table));
      BegunIs(d.root, path, ms, key, more);
      at := ReplayItems(Doc(d.root, mid), path, ms, key, more, items[1..]);
      assert more + ItemsOf(items[1..]) == done + ItemsOf(items);
      ReplayOfSum(here, TableLines(path + [key], table, true), ArrayLines(path + [key], items[1..]));
    }
  }

  lemma ItemsUnfold(path: seq<string>, items: seq<Value>)
    requires forall x :: x in items ==> x.Dict?
    ensures items == [] ==> ArrayLines(path, items) == [] && ItemsOf(items) == []
    ensures items != [] ==>
      && ArrayLines(path, items) == TableLines(path, items[0].entries, true) + ArrayLines(path, items[1..])
      && ItemsOf(items) == [Table(Members(items[0].entries))] + ItemsOf(items[1..])
  {
    hide TableLines, Members;
  }

  lemma LastTableFilled(done: seq<Node>, inner: seq<Member>)
    ensures var node := Tables(done + [Table([])]);
      CanEnter(node) && Inner(node) == [] && WithInner(node, inner) == Tables(done + [Table(inner)])
  {
    assert (done + [Table([])])[|done| := Table(inner)] == done + [Table(inner)];
  }

  lemma BegunIs(root: seq<Member>, path: seq<string>, ms: seq<Member>, key: string, done: seq<Node>)
    requires Get(root, path) == Some(ms) && done != []
    ensures Begun(root, path, ms, key, done) == Added(root, path, ms, key, Tables(done))
  {
    hide Get;
  }

  lemma ReplayNothing(d: Doc)
    ensures Replay(d, []) == Some(d)
  {
  }

  /** Another [[header]] opens the next table of the array. */
  lemma NextItem(d: Doc, path: seq<string>, ms: seq<Member>, key: string, done: seq<Node>)
    requires Get(d.root, path) == Some(ms) && Find(ms, key) == -1
    ensures ReadLine(Doc(Begun(d.root, path, ms, key, done), d.at), Header(path + [key], true))
         == Some(Doc(Added(d.root, path, ms, key, Tables(done + [Table([])])), path + [key]))
  {
    hide Get, Put, Find;
    if done == [] {
      ApplyIsLocal(d.root, path, key, NewItem);
      assert done + [Table([])] == [Table([])];
    } else {
      var added := ms + [Member(key, Tables(done))];
      var r := Added(d.root, path, ms, key, Tables(done));
      GetOfPut(d.root, path, added);
      FindAppended(ms, Member(key, Tables(done)));
      ApplyIsLocal(r, path, key, NewItem);
      var changed := added[|ms| := Member(key, Tables(done + [Table([])]))];
      assert changed == ms + [Member(key, Tables(done + [Table([])]))];
      PutTwice(d.root, path, added, changed);
    }
  }

  // ---- what the rebuilt document means ----

  /** A configuration value as Python compares it: a dictionary's order does not matter, and a None
      in one is an absent key. */
  datatype Meaning = Atom(v: Value) | Listing(items: seq<Meaning>) | Mapping(m: map<string, Meaning>)

  function MeaningOf(v: Value): Meaning
    decreases v, 1
  {
    match v
    case List(items) => Listing(MeaningsOf(items))
    case Dict(entries) => Mapping(MappingOf(entries))
    case _ => Atom(v)
  }

  function MeaningsOf(items: seq<Value>): seq<Meaning>
    decreases items, 0
  {
    if items == [] then [] else [MeaningOf(items[0])] + MeaningsOf(items[1..])
  }

  function MappingOf(entries: seq<Entry>): map<string, Meaning>
    decreases entries, 0
  {
    if entries == [] then map[]
    else if entries[0].value.Null? then MappingOf(entries[1..])
    else MappingOf(entries[1..])[entries[0].key := MeaningOf(entries[0].value)]
  }

  function NodeMeaning(n: Node): Meaning
    decreases n, 1
  {
    match n
    case Leaf(v) => MeaningOf(v)
    case Table(members) => Mapping(MembersMeaning(members))
    case Tables(items) => Listing(TablesMeaning(items))
  }

  function MembersMeaning(ms: seq<Member>): map<string, Meaning>
    decreases ms, 0
  {
    if ms == [] then map[] else MembersMeaning(ms[1..])[ms[0].key := NodeMeaning(ms[0].node)]
  }

  function TablesMeaning(items: seq<Node>): seq<Meaning>
    decreases items, 0
  {
    if items == [] then [] else [NodeMeaning(items[0])] + TablesMeaning(items[1..])
  }

  lemma {:induction false} MembersMeaningOfInsert(a: seq<Member>, m: Member, b: seq<Member>)
    requires forall x :: x in a ==> x.key != m.key
    ensures MembersMeaning(a + [m] + b) == MembersMeaning(a + b)[m.key := NodeMeaning(m.node)]
  {
    hide NodeMeaning;
    if a == [] {
      assert a + [m] + b == [m] + b && a + b == b;
    } else {
      assert (a + [m] + b)[1..] == a[1..] + [m] + b && (a + b)[1..] == a[1..] + b;
      MembersMeaningOfInsert(a[1..], m, b);
      assert a[0].key != m.key;
    }
  }

  /** The members rebuilt for a table mean what the table means, though nested tables come last. */
  lemma {:induction false} MembersMean(table: seq<Entry>)
    requires WellFormed(Dict(table))
    ensures MembersMeaning(Members(table)) == MappingOf(table)
    decreases table, 1
  {
    hide IsNested, NodeOf, NodeMeaning, MeaningOf;
    if table == [] {
      assert Members(table) == [];
    } else {
      var e, rest := table[0], table[1..];
      assert WellFormed(Dict(rest));
      MembersMean(rest);
      var own, nested := OwnMembers(rest), NestedMembers(rest);
      if e.value.Null? {
        NullIsNotNested();
        assert Members(table) == Members(rest);
      } else if IsNested(e.value) {
        var m := Member(e.key, NodeOf(e.value));
        forall x | x in own ensures x.key != e.key {
          var i := OwnKeyComesFrom(rest, x);
          assert rest[i] == table[i + 1];
        }
        MembersMeaningOfInsert(own, m, nested);
        assert Members(table) == own + [m] + nested;
        NodeMeans(e.value);
      } else {
        var m := Member(e.key, Leaf(e.value));
        assert Members(table) == [m] + Members(rest);
        assert ([m] + Members(rest))[1..] == Members(rest);
        LeafMeans(e.value);
      }
    }
  }

  lemma NullIsNotNested()
    ensures !IsNested(Null)
  {
  }

  lemma LeafMeans(v: Value)
    ensures NodeMeaning(Leaf(v)) == MeaningOf(v)
  {
  }

  lemma {:induction false} NodeMeans(v: Value)
    requires IsNested(v) && WellFormed(v)
    ensures NodeMeaning(NodeOf(v)) == MeaningOf(v)
    decreases v, 2
  {
    if v.Dict? {
      MembersMean(v.entries);
    } else {
      ItemsMean(v.items);
    }
  }

  lemma {:induction false} ItemsMean(items: seq<Value>)
    requires forall x :: x in items ==> x.Dict? && WellFormed(x)
    ensures TablesMeaning(ItemsOf(items)) == MeaningsOf(items)
    decreases items, 0
  {
    if items != [] {
      MembersMean(items[0].entries);
      ItemsMean(items[1..]);
      assert ItemsOf(items)[1..] == ItemsOf(items[1..]);
    }
  }

  /** Replaying an emitted section adds to any document without it exactly one table, under the
      section's name, that means what the section's mapping means: at any depth of tables and
      arrays of tables, no key lands under another header, and only None values are gone. */
  lemma EmittedTableReplays(root: seq<Member>, at: seq<string>, name: string, table: seq<Entry>)
    requires WellFormed(Dict(table)) && Find(root, name) == -1
    ensures var r := Replay(Doc(root, at), TableLines([name], table, false));
      && r.Some?
      && r.value.root == root + [Member(name, Table(Members(table)))]
      && NodeMeaning(Table(Members(table))) == MeaningOf(Dict(table))
  {
    var _ := ReplayTable(Doc(root, at), [], root, name, table);
    assert [] + [name] == [name];
    MembersMean(table);
  }
}
