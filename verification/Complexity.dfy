/** The complexity census of scripts/complexity_gate.py: `cyclomatic_complexity` and
    `functions_in_file` over syntax trees. */
module Complexity {
  import opened Wrappers

  /** What the visitors tell apart: functions (async ones too), classes, the nodes that branch by one
      (if, ternary, loops, assert, except), those that branch by how many parts they have, the rest. */
  datatype Kind =
    | Function(name: string)
    | Class(name: string)
    | Branch
    | BoolOp(values: nat)
    | Comprehension(ifs: nat)
    | Match(cases: nat)
    | Plain

  datatype Node = Node(kind: Kind, children: seq<Node>)

  predicate IsScope(k: Kind) {
    k.Function? || k.Class?
  }

  function Weight(k: Kind): int {
    match k
    case Branch => 1
    case BoolOp(values) => values - 1
    case Comprehension(ifs) => 1 + ifs
    case Match(cases) => cases
    case _ => 0
  }

  // ---- the reference: every node with the scope around it ----

  /** A place in the tree: which child at each level. */
  type Position = seq<nat>

  datatype Scope = Scope(position: Position, isFunction: bool)

  /** A node: where it is, what it is, its nearest enclosing function or class, and the names of the
      scopes around it. */
  datatype Entry = Entry(position: Position, kind: Kind, owner: Option<Scope>, prefix: string)

  function NamedIn(prefix: string, k: Kind): string {
    match k
    case Function(name) => prefix + "." + name
    case Class(name) => prefix + "." + name
    case _ => prefix
  }

  function OwnerIn(owner: Option<Scope>, at: Position, k: Kind): Option<Scope> {
    if IsScope(k) then Some(Scope(at, k.Function?)) else owner
  }

  /** The nodes below a node, from its child i on, in order. */
  function Nodes(children: seq<Node>, i: nat, at: Position, owner: Option<Scope>, prefix: string): seq<Entry>
    decreases children, |children| - i
  {
    if i >= |children| then []
    else
      var k := children[i].kind;
      [Entry(at + [i], k, owner, prefix)]
      + Nodes(children[i].children, 0, at + [i], OwnerIn(owner, at + [i], k), NamedIn(prefix, k))
      + Nodes(children, i + 1, at, owner, prefix)
  }

  /** The branches of the entries whose nearest enclosing scope stands at a position. */
  function Owned(entries: seq<Entry>, at: Position): int {
    if entries == [] then 0
    else
      (if entries[0].owner.Some? && entries[0].owner.value.position == at then Weight(entries[0].kind) else 0)
      + Owned(entries[1..], at)
  }

  /** The branches of the entries whose nearest enclosing scope is a function. */
  function InFunctions(entries: seq<Entry>): int {
    if entries == [] then 0
    else
      (if entries[0].owner.Some? && entries[0].owner.value.isFunction then Weight(entries[0].kind) else 0)
      + InFunctions(entries[1..])
  }

  // ---- the visitors ----

  /** What `cyclomatic_complexity` adds for the nodes below a node, nested scopes left out. */
  function Branches(children: seq<Node>, i: nat): int
    decreases children, |children| - i
  {
    if i >= |children| then 0
    else
      (if IsScope(children[i].kind) then 0 else Weight(children[i].kind) + Branches(children[i].children, 0))
      + Branches(children, i + 1)
  }

  /** The counter that `cyclomatic_complexity` closes over. */
  class Counter {
    var count: int

    constructor ()
      ensures count == 1
    {
      count := 1;
    }

    /** Its `visit`. */
    method Visit(node: Node)
      modifies this
      ensures count == old(count) + Branches(node.children, 0)
      decreases node
    {
      for i := 0 to |node.children|
        invariant old(count) + Branches(node.children, 0) == count + Branches(node.children, i)
      {
        var child := node.children[i];
        if IsScope(child.kind) {
          continue;
        }
        match child.kind {
          case Branch => count := count + 1;
          case BoolOp(values) => count := count + (values - 1);
          case Comprehension(ifs) => count := count + (1 + ifs);
          case Match(cases) => count := count + cases;
          case _ =>
        }
        Visit(child);
      }
    }
  }

  /** `cyclomatic_complexity` */
  method CyclomaticComplexity(scope: Node) returns (r: int)
    ensures r == 1 + Branches(scope.children, 0)
  {
    var counter := new Counter();
    counter.Visit(scope);
    return counter.count;
  }

  /** FunctionInfo, with the function's place for its lines. */
  datatype Info = Info(name: string, position: Position, complexity: int)

  /** What `functions_in_file` finds below a node. */
  function Found(children: seq<Node>, i: nat, at: Position, prefix: string): seq<Info>
    decreases children, |children| - i
  {
    if i >= |children| then []
    else
      var c := children[i];
      (if c.kind.Function? then [Info(NamedIn(prefix, c.kind), at + [i], 1 + Branches(c.children, 0))] else [])
      + Found(c.children, 0, at + [i], NamedIn(prefix, c.kind))
      + Found(children, i + 1, at, prefix)
  }

  lemma FoundNext(children: seq<Node>, i: nat, at: Position, prefix: string, before: seq<Info>)
    requires i < |children|
    ensures var c := children[i];
      var here := if c.kind.Function? then [Info(NamedIn(prefix, c.kind), at + [i], 1 + Branches(c.children, 0))]
        else [];
      before + Found(children, i, at, prefix)
      == before + here + Found(c.children, 0, at + [i], NamedIn(prefix, c.kind)) + Found(children, i + 1, at, prefix)
  {
    hide *;
    var c := children[i];
    var here := if c.kind.Function? then [Info(NamedIn(prefix, c.kind), at + [i], 1 + Branches(c.children, 0))] else [];
    FoundIs(children, i, at, prefix);
    Regroup(before, here, Found(c.children, 0, at + [i], NamedIn(prefix, c.kind)), Found(children, i + 1, at, prefix));
  }

  lemma FoundIs(children: seq<Node>, i: nat, at: Position, prefix: string)
    requires i < |children|
    ensures var c := children[i];
      var here := if c.kind.Function? then [Info(NamedIn(prefix, c.kind), at + [i], 1 + Branches(c.children, 0))]
        else [];
      Found(children, i, at, prefix)
      == here + Found(c.children, 0, at + [i], NamedIn(prefix, c.kind)) + Found(children, i + 1, at, prefix)
  {
    hide NamedIn, Branches;
  }

  lemma Regroup(a: seq<Info>, b: seq<Info>, c: seq<Info>, d: seq<Info>)
    ensures a + (b + c + d) == a + b + c + d
  {
  }

  /** The list that `functions_in_file` appends to. */
  class Census {
    var found: seq<Info>

    constructor ()
      ensures found == []
    {
      found := [];
    }

    /** Its `visit`. */
    method Visit(node: Node, at: Position, prefix: string)
      modifies this
      ensures found == old(found) + Found(node.children, 0, at, prefix)
      decreases node
    {
      hide NamedIn, Branches, Found;
      for i := 0 to |node.children|
        invariant old(found) + Found(node.children, 0, at, prefix) == found + Found(node.children, i, at, prefix)
      {
        var child := node.children[i];
        FoundNext(node.children, i, at, prefix, found);
        if child.kind.Function? {
          var complexity := CyclomaticComplexity(child);
          found := found + [Info(NamedIn(prefix, child.kind), at + [i], complexity)];
        } else {
          assert found + [] == found;
        }
        Visit(child, at + [i], NamedIn(prefix, child.kind));
      }
      FoundNone(node.children, at, prefix);
      assert found + [] == found;
    }
  }

  lemma FoundNone(children: seq<Node>, at: Position, prefix: string)
    ensures Found(children, |children|, at, prefix) == []
  {
  }

  /** `functions_in_file` */
  method FunctionsInFile(tree: Node, moduleName: string) returns (r: seq<Info>)
    ensures r == Found(tree.children, 0, [], moduleName)
  {
    var census := new Census();
    census.Visit(tree, [], moduleName);
    return census.found;
  }

  // ---- sums ----

  lemma {:induction false} OwnedSum(a: seq<Entry>, b: seq<Entry>, at: Position)
    ensures Owned(a + b, at) == Owned(a, at) + Owned(b, at)
    decreases |a|
  {
    hide Weight;
    if a == [] {
      assert a + b == b;
    } else {
      assert (a + b)[1..] == a[1..] + b;
      OwnedSum(a[1..], b, at);
    }
  }

  lemma {:induction false} InFunctionsSum(a: seq<Entry>, b: seq<Entry>)
    ensures InFunctions(a + b) == InFunctions(a) + InFunctions(b)
    decreases |a|
  {
    hide Weight;
    if a == [] {
      assert a + b == b;
    } else {
      assert (a + b)[1..] == a[1..] + b;
      InFunctionsSum(a[1..], b);
    }
  }

  lemma {:induction false} OwnedByNone(entries: seq<Entry>, at: Position)
    requires forall e :: e in entries && e.owner.Some? ==> e.owner.value.position != at
    ensures Owned(entries, at) == 0
    decreases |entries|
  {
    hide Weight;
    if entries != [] {
      assert forall e :: e in entries[1..] ==> e in entries;
      OwnedByNone(entries[1..], at);
    }
  }

  // ---- where owners are ----

  /** The position lies in the subtree of one of the children from i on. */
  predicate Below(at: Position, i: nat, p: Position) {
    at < p && i <= p[|at|]
  }

  /** A node below is owned by the scope around the whole, or by one inside its own subtree. */
  lemma {:induction false} OwnersAreNear(children: seq<Node>, i: nat, at: Position, owner: Option<Scope>,
                                         prefix: string)
    ensures forall e :: e in Nodes(children, i, at, owner, prefix) ==>
      e.owner == owner || (e.owner.Some? && Below(at, i, e.owner.value.position))
    decreases children, |children| - i
  {
    hide NamedIn, IsScope;
    if i < |children| {
      var k := children[i].kind;
      OwnersAreNear(children[i].children, 0, at + [i], OwnerIn(owner, at + [i], k), NamedIn(prefix, k));
      OwnersAreNear(children, i + 1, at, owner, prefix);
    }
  }

  lemma {:induction false} FoundAreNear(children: seq<Node>, i: nat, at: Position, prefix: string)
    ensures forall f :: f in Found(children, i, at, prefix) ==> Below(at, i, f.position)
    decreases children, |children| - i
  {
    hide NamedIn, IsScope, Branches;
    if i < |children| {
      var k := children[i].kind;
      FoundAreNear(children[i].children, 0, at + [i], NamedIn(prefix, k));
      FoundAreNear(children, i + 1, at, prefix);
    }
  }

  lemma OwnedBelow(children: seq<Node>, i: nat, at: Position, owner: Option<Scope>, prefix: string, p: Position)
    requires (owner.Some? ==> owner.value.position != p) && !Below(at, i, p)
    ensures Owned(Nodes(children, i, at, owner, prefix), p) == 0
  {
    hide Nodes, Owned;
    OwnersAreNear(children, i, at, owner, prefix);
    OwnedByNone(Nodes(children, i, at, owner, prefix), p);
  }

  lemma OwnedOfNodes(children: seq<Node>, i: nat, at: Position, owner: Option<Scope>, prefix: string, p: Position)
    requires i < |children|
    ensures var k := children[i].kind;
      Owned(Nodes(children, i, at, owner, prefix), p)
      == (if owner.Some? && owner.value.position == p then Weight(k) else 0)
         + Owned(Nodes(children[i].children, 0, at + [i], OwnerIn(owner, at + [i], k), NamedIn(prefix, k)), p)
         + Owned(Nodes(children, i + 1, at, owner, prefix), p)
  {
    hide Weight, NamedIn, OwnerIn;
    var k := children[i].kind;
    var e := Entry(at + [i], k, owner, prefix);
    var below := Nodes(children[i].children, 0, at + [i], OwnerIn(owner, at + [i], k), NamedIn(prefix, k));
    OwnedSum([e], below, p);
    OwnedSum([e] + below, Nodes(children, i + 1, at, owner, prefix), p);
    assert [e][1..] == [];
    assert Owned([], p) == 0;
  }

  // ---- the main results ----

  /** The visitor of one scope counts the branches of exactly the nodes whose nearest enclosing
      scope it is. */
  lemma {:induction false} BranchesAreOwned(children: seq<Node>, i: nat, at: Position, scope: Scope, prefix: string)
    requires scope.position <= at
    ensures Owned(Nodes(children, i, at, Some(scope), prefix), scope.position) == Branches(children, i)
    decreases children, |children| - i
  {
    hide Nodes, Weight, NamedIn, Owned;
    if i < |children| {
      var c := children[i];
      OwnedOfNodes(children, i, at, Some(scope), prefix, scope.position);
      BranchesAreOwned(children, i + 1, at, scope, prefix);
      if IsScope(c.kind) {
        assert Weight(c.kind) == 0 by { ScopesDoNotBranch(c.kind); }
        var inner := OwnerIn(Some(scope), at + [i], c.kind);
        OwnedBelow(c.children, 0, at + [i], inner, NamedIn(prefix, c.kind), scope.position);
      } else {
        BranchesAreOwned(c.children, 0, at + [i], scope, NamedIn(prefix, c.kind));
      }
    } else {
      NoNodes(children, i, at, Some(scope), prefix, scope.position);
    }
  }

  lemma ScopesDoNotBranch(k: Kind)
    requires IsScope(k)
    ensures Weight(k) == 0
  {
  }

  lemma NoNodes(children: seq<Node>, i: nat, at: Position, owner: Option<Scope>, prefix: string, p: Position)
    requires i >= |children|
    ensures Nodes(children, i, at, owner, prefix) == [] && Owned([], p) == 0
  {
  }

  /** Each function found is listed with 1 plus the branches of the nodes it is the nearest scope
      of: none that a nested function or class holds, and no other function counts them. */
  lemma {:induction false} ComplexityIsOwnBranches(children: seq<Node>, i: nat, at: Position, owner: Option<Scope>,
                                                   prefix: string)
    requires owner.Some? ==> owner.value.position <= at
    ensures forall f :: f in Found(children, i, at, prefix) ==>
      f.complexity == 1 + Owned(Nodes(children, i, at, owner, prefix), f.position)
    decreases children, |children| - i
  {
    hide Nodes, Found, Weight, Owned, NamedIn;
    forall f | f in Found(children, i, at, prefix)
      ensures f.complexity == 1 + Owned(Nodes(children, i, at, owner, prefix), f.position)
    {
      FoundAreNear(children, i, at, prefix);
      FoundWhere(children, i, at, prefix, f);
      var c := children[i];
      var inner, name := OwnerIn(owner, at + [i], c.kind), NamedIn(prefix, c.kind);
      OwnedOfNodes(children, i, at, owner, prefix, f.position);
      if f in Found(children, i + 1, at, prefix) {
        ComplexityIsOwnBranches(children, i + 1, at, owner, prefix);
        FoundAreNear(children, i + 1, at, prefix);
        OwnedBelow(c.children, 0, at + [i], inner, name, f.position);
      } else {
        OwnedBelow(children, i + 1, at, owner, prefix, f.position);
        if f in Found(c.children, 0, at + [i], name) {
          ComplexityIsOwnBranches(c.children, 0, at + [i], inner, name);
        } else {
          BranchesAreOwned(c.children, 0, at + [i], inner.value, name);
        }
      }
    }
  }

  /** A function found from the child i on is that child, or is found below it or after it. */
  lemma FoundWhere(children: seq<Node>, i: nat, at: Position, prefix: string, f: Info)
    requires f in Found(children, i, at, prefix)
    ensures i < |children|
    ensures var c := children[i];
      || (c.kind.Function? && f == Info(NamedIn(prefix, c.kind), at + [i], 1 + Branches(c.children, 0)))
      || (f in Found(c.children, 0, at + [i], NamedIn(prefix, c.kind)) && at + [i] < f.position)
      || f in Found(children, i + 1, at, prefix)
  {
    hide NamedIn, Branches;
    if i < |children| {
      FoundAreNear(children[i].children, 0, at + [i], NamedIn(prefix, children[i].kind));
    }
  }

  /** The names and places found. */
  function Listed(found: seq<Info>): seq<(string, Position)> {
    if found == [] then [] else [(found[0].name, found[0].position)] + Listed(found[1..])
  }

  /** The names and places of the entries that are functions. */
  function FunctionsOf(entries: seq<Entry>): seq<(string, Position)> {
    if entries == [] then []
    else
      (if entries[0].kind.Function? then [(NamedIn(entries[0].prefix, entries[0].kind), entries[0].position)] else [])
      + FunctionsOf(entries[1..])
  }

  lemma {:induction false} ListedSum(a: seq<Info>, b: seq<Info>)
    ensures Listed(a + b) == Listed(a) + Listed(b)
    decreases |a|
  {
    if a == [] {
      assert a + b == b;
    } else {
      assert (a + b)[1..] == a[1..] + b;
      ListedSum(a[1..], b);
    }
  }

  lemma {:induction false} FunctionsOfSum(a: seq<Entry>, b: seq<Entry>)
    ensures FunctionsOf(a + b) == FunctionsOf(a) + FunctionsOf(b)
    decreases |a|
  {
    hide NamedIn;
    if a == [] {
      assert a + b == b;
    } else {
      assert (a + b)[1..] == a[1..] + b;
      FunctionsOfSum(a[1..], b);
      var e := a[0];
      var one: seq<(string, Position)> := if e.kind.Function? then [(NamedIn(e.prefix, e.kind), e.position)] else [];
      assert one + (FunctionsOf(a[1..]) + FunctionsOf(b)) == one + FunctionsOf(a[1..]) + FunctionsOf(b);
    }
  }

  /** The census lists every function of the tree, nested ones too, once and in order, under the
      names of the scopes around it; and nothing else. */
  lemma {:induction false} EveryFunctionIsFound(children: seq<Node>, i: nat, at: Position, owner: Option<Scope>,
                                                prefix: string)
    ensures Listed(Found(children, i, at, prefix)) == FunctionsOf(Nodes(children, i, at, owner, prefix))
    decreases children, |children| - i
  {
    hide NamedIn, Branches, OwnerIn;
    if i < |children| {
      var c := children[i];
      var name, inner := NamedIn(prefix, c.kind), OwnerIn(owner, at + [i], c.kind);
      var here := if c.kind.Function? then [Info(name, at + [i], 1 + Branches(c.children, 0))] else [];
      var e := Entry(at + [i], c.kind, owner, prefix);
      var below, after := Found(c.children, 0, at + [i], name), Found(children, i + 1, at, prefix);
      var below', after' := Nodes(c.children, 0, at + [i], inner, name), Nodes(children, i + 1, at, owner, prefix);
      EveryFunctionIsFound(c.children, 0, at + [i], inner, name);
      EveryFunctionIsFound(children, i + 1, at, owner, prefix);
      ListedSum(here, below);
      ListedSum(here + below, after);
      FunctionsOfSum([e], below');
      FunctionsOfSum([e] + below', after');
      OneListed(here, e);
    }
  }

  lemma OneListed(here: seq<Info>, e: Entry)
    requires |here| <= 1 && (e.kind.Function? <==> |here| == 1)
    requires |here| == 1 ==> here[0].name == NamedIn(e.prefix, e.kind) && here[0].position == e.position
    ensures Listed(here) == FunctionsOf([e])
  {
    assert FunctionsOf([e][1..]) == [];
  }

  /** All the complexity above 1 that the census lists. */
  function Excess(found: seq<Info>): int {
    if found == [] then 0 else found[0].complexity - 1 + Excess(found[1..])
  }

  lemma {:induction false} ExcessSum(a: seq<Info>, b: seq<Info>)
    ensures Excess(a + b) == Excess(a) + Excess(b)
    decreases |a|
  {
    if a == [] {
      assert a + b == b;
    } else {
      assert (a + b)[1..] == a[1..] + b;
      ExcessSum(a[1..], b);
    }
  }

  /** The branches below a scope: its own, and those inside the functions nested in it. */
  lemma {:induction false} NestedExcess(children: seq<Node>, i: nat, at: Position, owner: Option<Scope>, prefix: string)
    ensures InFunctions(Nodes(children, i, at, owner, prefix))
      == Excess(Found(children, i, at, prefix))
         + if owner.Some? && owner.value.isFunction then Branches(children, i) else 0
    decreases children, |children| - i
  {
    hide NamedIn, Weight;
    if i < |children| {
      var c := children[i];
      var name, inner := NamedIn(prefix, c.kind), OwnerIn(owner, at + [i], c.kind);
      var here := if c.kind.Function? then [Info(name, at + [i], 1 + Branches(c.children, 0))] else [];
      var e := Entry(at + [i], c.kind, owner, prefix);
      var below, after := Found(c.children, 0, at + [i], name), Found(children, i + 1, at, prefix);
      var below', after' := Nodes(c.children, 0, at + [i], inner, name), Nodes(children, i + 1, at, owner, prefix);
      NestedExcess(c.children, 0, at + [i], inner, name);
      NestedExcess(children, i + 1, at, owner, prefix);
      ExcessSum(here, below);
      ExcessSum(here + below, after);
      InFunctionsSum([e], below');
      InFunctionsSum([e] + below', after');
      OneExcess(here);
      OneInFunctions(e);
      if IsScope(c.kind) {
        ScopesDoNotBranch(c.kind);
      }
    }
  }

  lemma OneExcess(here: seq<Info>)
    requires |here| <= 1
    ensures Excess(here) == if |here| == 1 then here[0].complexity - 1 else 0
  {
    if |here| == 1 {
      assert here[1..] == [];
    }
  }

  lemma OneInFunctions(e: Entry)
    ensures InFunctions([e]) == if e.owner.Some? && e.owner.value.isFunction then Weight(e.kind) else 0
  {
    hide Weight;
    assert [e][1..] == [];
  }

  /** For every tree, the complexities above 1 add up to the branches of all nodes whose nearest
      enclosing function or class is a function. */
  lemma CensusIsComplete(tree: Node, moduleName: string)
    ensures Excess(Found(tree.children, 0, [], moduleName))
      == InFunctions(Nodes(tree.children, 0, [], None, moduleName))
  {
    NestedExcess(tree.children, 0, [], None, moduleName);
  }
}
