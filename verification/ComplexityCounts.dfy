/** The census construct by construct: what each adds to the function around it, and the name each
    function is listed under (scripts/complexity_gate.py). */
module ComplexityCounts {
  import opened Complexity

  /** The decisions of one construct: one for a simple branch, one less than the operands of `and` or
      `or`, one for a comprehension and each of its conditions, one for each case of a match. */
  function Decisions(k: Kind): int {
    if k == Branch then 1
    else if k.BoolOp? then k.values - 1
    else if k.Comprehension? then k.ifs + 1
    else if k.Match? then k.cases
    else 0
  }

  lemma {:induction false} BranchesOfSnoc(children: seq<Node>, c: Node, i: nat)
    requires i <= |children|
    ensures Branches(children + [c], i) == Branches(children, i) + Branches([c], 0)
    decreases |children| - i
  {
    hide Weight, IsScope;
    if i < |children| {
      BranchesOfSnoc(children, c, i + 1);
      assert (children + [c])[i] == children[i];
      BranchesNext(children + [c], i);
      BranchesNext(children, i);
    } else {
      BranchesNext(children + [c], i);
      BranchesNext([c], 0);
      BranchesEnd(children + [c], i + 1);
      BranchesEnd([c], 1);
      BranchesEnd(children, i);
    }
  }

  lemma BranchesNext(children: seq<Node>, i: nat)
    requires i < |children|
    ensures Branches(children, i)
      == (if IsScope(children[i].kind) then 0 else Weight(children[i].kind) + Branches(children[i].children, 0))
         + Branches(children, i + 1)
  {
  }

  lemma BranchesEnd(children: seq<Node>, i: nat)
    requires i >= |children|
    ensures Branches(children, i) == 0
  {
  }

  /** A function with nothing in it has complexity 1, and each further part adds its own decisions and
      those of its parts; a nested function or class adds nothing. */
  lemma EachPartAdds(kind: Kind, children: seq<Node>, c: Node)
    ensures 1 + Branches([], 0) == 1
    ensures 1 + Branches(children + [c], 0)
      == 1 + Branches(children, 0)
         + if c.kind.Function? || c.kind.Class? then 0 else Decisions(c.kind) + Branches(c.children, 0)
  {
    BranchesOfSnoc(children, c, 0);
    BranchesNext([c], 0);
    BranchesEnd([c], 1);
  }

  // ---- names ----

  /** A function or class adds its name after a dot. */
  function ScopeName(k: Kind): string {
    if k.Function? || k.Class? then "." + k.name else ""
  }

  /** The names of the functions and classes on the way to a position. */
  function Dotted(children: seq<Node>, path: Position): string
    decreases |path|
  {
    if path == [] || path[0] >= |children| then ""
    else ScopeName(children[path[0]].kind) + Dotted(children[path[0]].children, path[1..])
  }

  lemma NamedIs(prefix: string, k: Kind)
    ensures NamedIn(prefix, k) == prefix + ScopeName(k)
  {
    if k.Function? || k.Class? {
      Associate(prefix, ".", k.name);
    } else {
      assert prefix + "" == prefix;
    }
  }

  lemma Associate(a: string, b: string, c: string)
    ensures a + b + c == a + (b + c)
  {
  }

  lemma DottedStep(children: seq<Node>, path: Position, prefix: string)
    requires path != [] && path[0] < |children|
    ensures var c := children[path[0]];
      prefix + Dotted(children, path) == NamedIn(prefix, c.kind) + Dotted(c.children, path[1..])
  {
    hide NamedIn, ScopeName;
    var c := children[path[0]];
    NamedIs(prefix, c.kind);
    Associate(prefix, ScopeName(c.kind), Dotted(c.children, path[1..]));
  }

  /** A function is listed under the module's name and the names on the way to it, its own last. */
  lemma {:induction false} NamesOfFound(children: seq<Node>, i: nat, at: Position, prefix: string, f: Info)
    requires f in Found(children, i, at, prefix)
    ensures at <= f.position && f.name == prefix + Dotted(children, f.position[|at|..])
    decreases children, |children| - i
  {
    hide Found, NamedIn, Dotted;
    FoundWhere(children, i, at, prefix, f);
    var c := children[i];
    if f in Found(children, i + 1, at, prefix) {
      NamesOfFound(children, i + 1, at, prefix, f);
    } else {
      if f in Found(c.children, 0, at + [i], NamedIn(prefix, c.kind)) {
        NamesOfFound(c.children, 0, at + [i], NamedIn(prefix, c.kind), f);
      } else {
        NothingDotted(c.children);
        assert f.position[|at| + 1..] == [];
      }
      var path := f.position[|at|..];
      assert path[0] == i && path[1..] == f.position[|at + [i]|..];
      DottedStep(children, path, prefix);
    }
  }

  lemma NothingDotted(children: seq<Node>)
    ensures Dotted(children, []) == ""
    ensures forall s: string :: s + "" == s
  {
  }

  /** What `functions_in_file` lists of a file. */
  lemma NamesInFile(tree: Node, moduleName: string, f: Info)
    requires f in Found(tree.children, 0, [], moduleName)
    ensures f.name == moduleName + Dotted(tree.children, f.position)
  {
    NamesOfFound(tree.children, 0, [], moduleName, f);
    assert f.position[0..] == f.position;
  }
}
