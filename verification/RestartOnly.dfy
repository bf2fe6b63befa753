/** Keeping the restart-only values over hot reloads: `_path_value`, `_with_path_value`,
    `llm_backend_runs` and `pin_restart_only_paths` of src/llm_redact/config.py. */
module RestartOnly {
  import opened Wrappers

  /** A value of the configuration, or a frozen record of named ones. */
  datatype Scalar = Null | Flag(flag: bool) | Text(text: string) | Names(names: seq<string>) | Other(id: int)
  datatype Node = Leaf(value: Scalar) | Record(fields: map<string, Node>)

  type Path = seq<string>

  const ENABLED: Path := ["detection", "ner", "enabled"]
  const BACKENDS: Path := ["detection", "ner", "backends"]
  const BACKEND: Path := ["detection", "ner", "backend"]
  const API: Path := ["detection", "ner", "llm", "api"]
  const URL: Path := ["detection", "ner", "llm", "url"]
  const ALLOW_REMOTE: Path := ["detection", "ner", "llm", "allow_remote"]
  const API_KEY_ENV: Path := ["detection", "ner", "llm", "api_key_env"]
  /** RESTART_ONLY_PATHS */
  const RESTART_ONLY: seq<Path> := [URL, ALLOW_REMOTE, API_KEY_ENV]

  // ---- values at paths ----

  predicate HasPath(config: Node, path: Path) {
    path == [] || (config.Record? && path[0] in config.fields && HasPath(config.fields[path[0]], path[1..]))
  }

  /** `_path_value` */
  method PathValue(config: Node, path: Path) returns (r: Node)
    requires HasPath(config, path)
    ensures r == ValueAt(config, path)
  {
    r := config;
    for i := 0 to |path|
      invariant HasPath(r, path[i..]) && ValueAt(r, path[i..]) == ValueAt(config, path)
    {
      assert path[i..][0] == path[i] && path[i..][1..] == path[i + 1..];
      r := r.fields[path[i]];
    }
  }

  function ValueAt(config: Node, path: Path): Node
    requires HasPath(config, path)
  {
    if path == [] then config else ValueAt(config.fields[path[0]], path[1..])
  }

  /** `_with_path_value` */
  function WithValue(config: Node, path: Path, value: Node): Node
    requires path != [] && HasPath(config, path)
  {
    var inner := if |path| > 1 then WithValue(config.fields[path[0]], path[1..], value) else value;
    config.(fields := config.fields[path[0] := inner])
  }

  /** Neither path leads through the other. */
  predicate Apart(a: Path, b: Path) {
    !(a <= b) && !(b <= a)
  }

  /** A replaced value is the one read back; the paths apart from it keep theirs, and no path
      appears or disappears. */
  lemma {:induction false} ReadBack(config: Node, path: Path, value: Node, other: Path)
    requires path != [] && HasPath(config, path)
    ensures HasPath(WithValue(config, path, value), path) && ValueAt(WithValue(config, path, value), path) == value
    ensures Apart(path, other) ==> (HasPath(WithValue(config, path, value), other) <==> HasPath(config, other))
    ensures Apart(path, other) && HasPath(config, other) ==>
      ValueAt(WithValue(config, path, value), other) == ValueAt(config, other)
    decreases |path|
  {
    if |path| > 1 {
      if other != [] && other[0] == path[0] {
        assert path == [path[0]] + path[1..] && other == [other[0]] + other[1..];
        ReadBack(config.fields[path[0]], path[1..], value, other[1..]);
      } else {
        ReadBack(config.fields[path[0]], path[1..], value, []);
      }
    }
  }

  /** Replacing a value by itself changes nothing. */
  lemma {:induction false} WithOwnValue(config: Node, path: Path)
    requires path != [] && HasPath(config, path)
    ensures WithValue(config, path, ValueAt(config, path)) == config
    decreases |path|
  {
    if |path| > 1 {
      WithOwnValue(config.fields[path[0]], path[1..]);
    } else {
      assert ValueAt(config.fields[path[0]], []) == config.fields[path[0]];
    }
  }

  /** The later of two replacements at one path counts. */
  lemma {:induction false} WithTwice(config: Node, path: Path, a: Node, b: Node)
    requires path != [] && HasPath(config, path)
    ensures HasPath(WithValue(config, path, a), path)
    ensures WithValue(WithValue(config, path, a), path, b) == WithValue(config, path, b)
    decreases |path|
  {
    if |path| > 1 {
      WithTwice(config.fields[path[0]], path[1..], a, b);
    }
  }

  /** Replacements at paths apart from each other commute. */
  lemma {:induction false} WithCommutes(config: Node, p: Path, a: Node, q: Path, b: Node)
    requires p != [] && q != [] && Apart(p, q) && HasPath(config, p) && HasPath(config, q)
    ensures HasPath(WithValue(config, p, a), q) && HasPath(WithValue(config, q, b), p)
    ensures WithValue(WithValue(config, p, a), q, b) == WithValue(WithValue(config, q, b), p, a)
    decreases |p|
  {
    ReadBack(config, p, a, q);
    ReadBack(config, q, b, p);
    if p[0] == q[0] {
      assert p == [p[0]] + p[1..] && q == [q[0]] + q[1..];
      WithCommutes(config.fields[p[0]], p[1..], a, q[1..], b);
    }
  }

  // ---- configurations ----

  /** The path is apart from all of these. */
  ghost predicate Away(paths: seq<Path>, q: Path) {
    forall p :: p in paths ==> Apart(p, q)
  }

  /** What every parsed configuration has. */
  ghost predicate IsConfig(config: Node) {
    && (forall p :: p in RESTART_ONLY ==> HasPath(config, p))
    && HasPath(config, ENABLED) && HasPath(config, BACKENDS) && HasPath(config, BACKEND)
    && HasPath(config, API)
  }

  function At(config: Node, path: Path): Node {
    if HasPath(config, path) then ValueAt(config, path) else Leaf(Null)
  }

  /** `llm_backend_runs`, with `active_backends`: the listed backends, or else the one named. */
  predicate BackendRuns(config: Node) {
    var backends := At(config, BACKENDS);
    && At(config, ENABLED) == Leaf(Flag(true))
    && if backends == Leaf(Null) then At(config, BACKEND) == Leaf(Text("llm"))
       else backends.Leaf? && backends.value.Names? && "llm" in backends.value.names
  }

  /** The checks of the server's address: `llm_url_problem` and `_llm_url_api_problem` find none. */
  type Checks = (Node, Node, Node) -> bool

  predicate Usable(checks: Checks, config: Node) {
    checks(At(config, URL), At(config, ALLOW_REMOTE), At(config, API))
  }

  // ---- pinning ----

  function Put(config: Node, path: Path, value: Node): Node {
    if path != [] && HasPath(config, path) then WithValue(config, path, value) else config
  }

  /** The paths whose values differ. */
  function Changed(loaded: Node, running: Node, paths: seq<Path>): seq<Path> {
    if paths == [] then []
    else
      var last := paths[|paths| - 1];
      Changed(loaded, running, paths[..|paths| - 1])
      + if At(loaded, last) != At(running, last) then [last] else []
  }

  /** One configuration with the values of another at some paths. */
  function Keeping(config: Node, other: Node, paths: seq<Path>): Node {
    if paths == [] then config
    else
      var last := paths[|paths| - 1];
      Put(Keeping(config, other, paths[..|paths| - 1]), last, At(other, last))
  }

  /** Paths that are there, and none leads through another. */
  ghost predicate Separate(config: Node, paths: seq<Path>) {
    && (forall p :: p in paths ==> p != [] && HasPath(config, p))
    && forall i, j :: 0 <= i < j < |paths| ==> Apart(paths[i], paths[j])
  }

  lemma PutReadsBack(config: Node, path: Path, value: Node, other: Path)
    requires path != [] && HasPath(config, path)
    ensures HasPath(Put(config, path, value), path) && At(Put(config, path, value), path) == value
    ensures Apart(path, other) ==>
      (HasPath(Put(config, path, value), other) <==> HasPath(config, other))
      && At(Put(config, path, value), other) == At(config, other)
  {
    hide WithValue, Apart, HasPath, ValueAt;
    ReadBack(config, path, value, other);
  }

  /** The values kept are the other's, and every path apart from all of them keeps its own. */
  lemma {:induction false} KeepingReadsBack(config: Node, other: Node, paths: seq<Path>)
    requires Separate(config, paths)
    ensures var r := Keeping(config, other, paths);
      && (forall p :: p in paths ==> HasPath(r, p) && At(r, p) == At(other, p))
      && (forall q :: Away(paths, q) ==>
            (HasPath(r, q) <==> HasPath(config, q)) && At(r, q) == At(config, q))
    decreases |paths|
  {
    hide HasPath, At, Put, Apart;
    if paths != [] {
      var before, last := paths[..|paths| - 1], paths[|paths| - 1];
      assert paths == before + [last];
      assert forall p :: p in before ==> p in paths;
      LastIsApart(config, before, last);
      KeepingReadsBack(config, other, before);
      var r := Keeping(config, other, before);
      forall q
        ensures HasPath(Put(r, last, At(other, last)), last)
        ensures At(Put(r, last, At(other, last)), last) == At(other, last)
        ensures Apart(last, q) ==>
          (HasPath(Put(r, last, At(other, last)), q) <==> HasPath(r, q))
          && At(Put(r, last, At(other, last)), q) == At(r, q)
      {
        PutReadsBack(r, last, At(other, last), q);
      }
      PutReadsBack(r, last, At(other, last), last);
    }
  }

  lemma ApartIsSymmetric(a: Path, b: Path)
    ensures Apart(a, b) == Apart(b, a)
  {
  }

  lemma PutsCommute(config: Node, p: Path, a: Node, q: Path, b: Node)
    requires p != [] && q != [] && Apart(p, q) && HasPath(config, p) && HasPath(config, q)
    ensures Put(Put(config, p, a), q, b) == Put(Put(config, q, b), p, a)
  {
    hide WithValue, Apart, HasPath;
    WithCommutes(config, p, a, q, b);
  }

  lemma PutTwice(config: Node, path: Path, value: Node)
    requires path != [] && HasPath(config, path)
    ensures Put(Put(config, path, value), path, At(config, path)) == config
  {
    hide WithValue, HasPath, ValueAt;
    WithTwice(config, path, value, At(config, path));
    WithOwnValue(config, path);
  }

  lemma {:induction false} KeepingAfterPut(config: Node, other: Node, paths: seq<Path>, path: Path, value: Node)
    requires Separate(config, paths) && path != [] && HasPath(config, path)
    requires forall p :: p in paths ==> Apart(p, path) && Apart(path, p)
    ensures Keeping(Put(config, path, value), other, paths) == Put(Keeping(config, other, paths), path, value)
    decreases |paths|
  {
    hide HasPath, At, Put, Apart;
    if paths != [] {
      var before, last := paths[..|paths| - 1], paths[|paths| - 1];
      assert paths == before + [last];
      assert forall p :: p in before ==> p in paths;
      LastIsApart(config, before, last);
      KeepingAfterPut(config, other, before, path, value);
      KeepingReadsBack(config, other, before);
      PutsCommute(Keeping(config, other, before), path, value, last, At(other, last));
    }
  }

  lemma LastIsApart(config: Node, before: seq<Path>, last: Path)
    requires Separate(config, before + [last])
    ensures Separate(config, before) && last != [] && HasPath(config, last)
    ensures forall p :: p in before ==> Apart(p, last) && Apart(last, p)
  {
    hide HasPath, Apart;
    var paths := before + [last];
    assert forall p :: p in before ==> p in paths;
    assert paths[|before|] in paths;
    forall p | p in before ensures Apart(p, last) && Apart(last, p) {
      var i :| 0 <= i < |before| && before[i] == p;
      assert Apart(paths[i], paths[|before|]);
      ApartIsSymmetric(p, last);
    }
    forall i, j | 0 <= i < j < |before| ensures Apart(before[i], before[j]) {
      assert Apart(paths[i], paths[j]);
    }
  }

  /** Giving the kept values back restores the configuration: nothing else has changed. */
  lemma {:induction false} KeepingUndone(config: Node, other: Node, paths: seq<Path>)
    requires Separate(config, paths)
    ensures Keeping(Keeping(config, other, paths), config, paths) == config
    decreases |paths|
  {
    hide HasPath, At, Put, Apart;
    if paths != [] {
      var before, last := paths[..|paths| - 1], paths[|paths| - 1];
      assert paths == before + [last];
      assert forall p :: p in before ==> p in paths;
      var r := Keeping(config, other, before);
      LastIsApart(config, before, last);
      KeepingUndone(config, other, before);
      KeepingReadsBack(config, other, before);
      StaySeparate(config, r, before);
      KeepingAfterPut(r, config, before, last, At(other, last));
      PutTwice(config, last, At(other, last));
    }
  }

  lemma StaySeparate(config: Node, r: Node, paths: seq<Path>)
    requires Separate(config, paths) && forall p :: p in paths ==> HasPath(r, p)
    ensures Separate(r, paths)
  {
    hide HasPath, Apart;
  }

  /** Keeping equal values changes nothing. */
  lemma {:induction false} KeepingOwn(config: Node, other: Node, paths: seq<Path>)
    requires Separate(config, paths) && Changed(config, other, paths) == []
    ensures Keeping(config, other, paths) == config
    decreases |paths|
  {
    hide HasPath, At, Apart, WithValue;
    if paths != [] {
      var before, last := paths[..|paths| - 1], paths[|paths| - 1];
      assert paths == before + [last];
      LastIsApart(config, before, last);
      KeepingOwn(config, other, before);
      OwnValue(config, last);
    }
  }

  lemma OwnValue(config: Node, path: Path)
    requires path != [] && HasPath(config, path)
    ensures WithValue(config, path, At(config, path)) == config
  {
    WithOwnValue(config, path);
  }

  lemma {:induction false} ChangedAre(a: Node, b: Node, paths: seq<Path>)
    ensures forall p :: p in Changed(a, b, paths) <==> p in paths && At(a, p) != At(b, p)
    decreases |paths|
  {
    hide At;
    if paths != [] {
      ChangedAre(a, b, paths[..|paths| - 1]);
      assert paths == paths[..|paths| - 1] + [paths[|paths| - 1]];
    }
  }

  lemma DifferAt(a: Path, b: Path, i: nat)
    requires i < |a| && i < |b| && a[i] != b[i]
    ensures Apart(a, b)
  {
  }

  lemma PathsApart()
    ensures forall i, j :: 0 <= i < j < |RESTART_ONLY| ==> Apart(RESTART_ONLY[i], RESTART_ONLY[j])
    ensures forall p :: p in RESTART_ONLY ==>
      p != [] && Apart(p, ENABLED) && Apart(p, BACKENDS) && Apart(p, BACKEND) && Apart(p, API)
  {
    hide Apart;
    assert |"url"| == 3 && |"allow_remote"| == 12 && |"api_key_env"| == 11 && |"api"| == 3;
    assert "url"[0] == 'u' && "api"[0] == 'a';
    DifferAt(URL, ALLOW_REMOTE, 3);
    DifferAt(URL, API_KEY_ENV, 3);
    DifferAt(ALLOW_REMOTE, API_KEY_ENV, 3);
    forall p | p in RESTART_ONLY
      ensures p != [] && Apart(p, ENABLED) && Apart(p, BACKENDS) && Apart(p, BACKEND) && Apart(p, API)
    {
      assert |"llm"| == 3 && |"enabled"| == 7 && |"backends"| == 8 && |"backend"| == 7;
      assert |p| == 4 && p[2] == "llm";
      DifferAt(p, ENABLED, 2);
      DifferAt(p, BACKENDS, 2);
      DifferAt(p, BACKEND, 2);
      DifferAt(p, API, 3);
    }
  }

  lemma ConfigIsSeparate(config: Node)
    requires IsConfig(config)
    ensures Separate(config, RESTART_ONLY)
  {
    hide HasPath, Apart;
    PathsApart();
  }

  /** Whether pinning refuses a reload: it would start the backend with a value changed, or the
      kept values are no server's address. */
  predicate Refused(checks: Checks, loaded: Node, running: Node) {
    || (BackendRuns(loaded) && !BackendRuns(running) && Changed(loaded, running, RESTART_ONLY) != [])
    || !Usable(checks, Keeping(loaded, running, RESTART_ONLY))
  }

  /** `pin_restart_only_paths` */
  method Pin(checks: Checks, loaded: Node, running: Node) returns (r: Result<(Node, seq<Path>)>)
    requires IsConfig(loaded) && IsConfig(running)
    ensures r.Failed? <==> Refused(checks, loaded, running)
    ensures r.Ok? ==>
      r.value == (Keeping(loaded, running, RESTART_ONLY), Changed(loaded, running, RESTART_ONLY))
  {
    hide *;
    var pinned, changed: seq<Path> := loaded, [];
    KeepingNothing(loaded, running);
    for i := 0 to |RESTART_ONLY|
      invariant pinned == Keeping(loaded, running, RESTART_ONLY[..i])
      invariant changed == Changed(loaded, running, RESTART_ONLY[..i])
    {
      var path := RESTART_ONLY[i];
      PinStep(loaded, running, i);
      var kept := PathValue(running, path);
      var named := PathValue(loaded, path);
      if named != kept {
        changed := changed + [path];
        pinned := WithValue(pinned, path, kept);
      }
    }
    assert RESTART_ONLY[..|RESTART_ONLY|] == RESTART_ONLY;
    SameBackend(loaded, running);
    RefusedIs(checks, loaded, running);
    if BackendRuns(pinned) && !BackendRuns(running) && changed != [] {
      return Failed;
    }
    if !Usable(checks, pinned) {
      return Failed;
    }
    return Ok((pinned, changed));
  }

  lemma KeepingNothing(loaded: Node, running: Node)
    ensures Keeping(loaded, running, RESTART_ONLY[..0]) == loaded && Changed(loaded, running, RESTART_ONLY[..0]) == []
  {
  }

  lemma RefusedIs(checks: Checks, loaded: Node, running: Node)
    ensures Refused(checks, loaded, running) <==>
      || (BackendRuns(loaded) && !BackendRuns(running) && Changed(loaded, running, RESTART_ONLY) != [])
      || !Usable(checks, Keeping(loaded, running, RESTART_ONLY))
  {
    hide BackendRuns, Changed, Usable, Keeping;
  }

  /** What the loop does at one path. */
  lemma PinStep(loaded: Node, running: Node, i: nat)
    requires IsConfig(loaded) && IsConfig(running) && i < |RESTART_ONLY|
    ensures var path, before := RESTART_ONLY[i], Keeping(loaded, running, RESTART_ONLY[..i]);
      && path != [] && HasPath(loaded, path) && HasPath(running, path) && HasPath(before, path)
      && var differs := ValueAt(loaded, path) != ValueAt(running, path);
        && Keeping(loaded, running, RESTART_ONLY[..i + 1])
           == (if differs then WithValue(before, path, ValueAt(running, path)) else before)
        && Changed(loaded, running, RESTART_ONLY[..i + 1])
           == Changed(loaded, running, RESTART_ONLY[..i]) + if differs then [path] else []
  {
    hide HasPath, ValueAt, WithValue;
    var path, before := RESTART_ONLY[i], Keeping(loaded, running, RESTART_ONLY[..i]);
    assert path in RESTART_ONLY;
    assert RESTART_ONLY[..i + 1][..i] == RESTART_ONLY[..i];
    StillThere(loaded, running, i);
    OwnValue(before, path);
  }

  lemma StillThere(loaded: Node, running: Node, i: nat)
    requires IsConfig(loaded) && i < |RESTART_ONLY|
    ensures var path, before := RESTART_ONLY[i], Keeping(loaded, running, RESTART_ONLY[..i]);
      path != [] && HasPath(before, path) && At(before, path) == At(loaded, path)
  {
    hide HasPath, At, Apart, Keeping;
    ConfigIsSeparate(loaded);
    var before, path := RESTART_ONLY[..i], RESTART_ONLY[i];
    assert path in RESTART_ONLY;
    FirstAreSeparate(loaded, RESTART_ONLY, i);
    KeepingReadsBack(loaded, running, before);
    forall p | p in before ensures Apart(p, path) {
      var j :| 0 <= j < i && RESTART_ONLY[j] == p;
      assert Apart(RESTART_ONLY[j], RESTART_ONLY[i]);
    }
  }

  lemma FirstAreSeparate(config: Node, paths: seq<Path>, i: nat)
    requires Separate(config, paths) && i <= |paths|
    ensures Separate(config, paths[..i])
  {
    hide HasPath, Apart;
    assert forall p :: p in paths[..i] ==> p in paths;
  }

  /** What pinning leaves: the restart-only values of the running configuration; every other value
      the loaded one's, so that giving its own three back restores it whole; and whether the backend
      runs. */
  lemma PinnedIs(loaded: Node, running: Node)
    requires IsConfig(loaded)
    ensures var pinned := Keeping(loaded, running, RESTART_ONLY);
      && IsConfig(pinned)
      && (forall p :: p in RESTART_ONLY ==> At(pinned, p) == At(running, p))
      && (forall q :: Away(RESTART_ONLY, q) ==> At(pinned, q) == At(loaded, q))
      && Keeping(pinned, loaded, RESTART_ONLY) == loaded
      && BackendRuns(pinned) == BackendRuns(loaded)
  {
    hide HasPath, At, Apart, Keeping;
    PathsApart();
    ConfigIsSeparate(loaded);
    KeepingReadsBack(loaded, running, RESTART_ONLY);
    KeepingUndone(loaded, running, RESTART_ONLY);
  }

  lemma SameBackend(loaded: Node, running: Node)
    requires IsConfig(loaded)
    ensures BackendRuns(Keeping(loaded, running, RESTART_ONLY)) == BackendRuns(loaded)
  {
    hide *;
    PinnedIs(loaded, running);
  }

  /** Pinning what is pinned already succeeds and changes nothing. */
  lemma PinTwice(checks: Checks, loaded: Node, running: Node)
    requires IsConfig(loaded) && IsConfig(running) && !Refused(checks, loaded, running)
    ensures var pinned := Keeping(loaded, running, RESTART_ONLY);
      && Keeping(pinned, running, RESTART_ONLY) == pinned && Changed(pinned, running, RESTART_ONLY) == []
      && !Refused(checks, pinned, running)
  {
    hide HasPath, At, Apart, Keeping, Changed, BackendRuns, Usable;
    var pinned := Keeping(loaded, running, RESTART_ONLY);
    PinnedIs(loaded, running);
    ChangedAre(pinned, running, RESTART_ONLY);
    NoneIn(Changed(pinned, running, RESTART_ONLY));
    ConfigIsSeparate(pinned);
    KeepingOwn(pinned, running, RESTART_ONLY);
  }

  lemma NoneIn(paths: seq<Path>)
    ensures (forall p :: p !in paths) ==> paths == []
  {
    if paths != [] {
      assert paths[0] in paths;
    }
  }

  // ---- over all reloads ----

  /** A reload: what it loaded, and whether the rest of applying it succeeds. */
  datatype Reload = Reload(config: Node, applies: bool)

  /** Each reload leaves its pinned form running, or the configuration before it when it fails. */
  function Next(checks: Checks, running: Node, reload: Reload): Node {
    if Refused(checks, reload.config, running) || !reload.applies then running
    else Keeping(reload.config, running, RESTART_ONLY)
  }

  /** The configurations that run, one after the other. */
  function Runs(checks: Checks, startup: Node, reloads: seq<Reload>): (r: seq<Node>)
    ensures |r| == |reloads| + 1
  {
    if reloads == [] then [startup]
    else
      var last := reloads[|reloads| - 1];
      var before := Runs(checks, startup, reloads[..|reloads| - 1]);
      before + [Next(checks, before[|before| - 1], last)]
  }

  method Reloaded(checks: Checks, startup: Node, reloads: seq<Reload>) returns (running: Node)
    requires IsConfig(startup) && forall r :: r in reloads ==> IsConfig(r.config)
    ensures var all := Runs(checks, startup, reloads); running == all[|all| - 1]
  {
    hide IsConfig, Refused, Keeping;
    running := startup;
    for i := 0 to |reloads|
      invariant IsConfig(running)
      invariant var all := Runs(checks, startup, reloads[..i]); |all| == i + 1 && running == all[i]
    {
      assert reloads[..i + 1][..i] == reloads[..i];
      var pinned := Pin(checks, reloads[i].config, running);
      if pinned.Ok? && reloads[i].applies {
        PinnedIs(reloads[i].config, running);
        running := pinned.value.0;
      }
    }
    assert reloads[..|reloads|] == reloads;
  }

  /** A reload that starts the backend named the startup values, and runs as it was loaded. */
  ghost predicate StartsAsNamed(startup: Node, before: Node, loaded: Node, after: Node) {
    BackendRuns(after) && !BackendRuns(before) ==>
      after == loaded && forall p :: p in RESTART_ONLY ==> At(loaded, p) == At(startup, p)
  }

  lemma NextHolds(checks: Checks, startup: Node, running: Node, reload: Reload)
    requires IsConfig(startup) && IsConfig(running) && IsConfig(reload.config)
    requires forall p :: p in RESTART_ONLY ==> At(running, p) == At(startup, p)
    ensures var next := Next(checks, running, reload);
      && IsConfig(next) && (forall p :: p in RESTART_ONLY ==> At(next, p) == At(startup, p))
      && StartsAsNamed(startup, running, reload.config, next)
  {
    hide HasPath, At, IsConfig, BackendRuns, Keeping, Usable, Changed;
    PinnedIs(reload.config, running);
    ChangedAre(reload.config, running, RESTART_ONLY);
    if Changed(reload.config, running, RESTART_ONLY) == [] {
      ConfigIsSeparate(reload.config);
      KeepingOwn(reload.config, running, RESTART_ONLY);
    }
  }

  /** Over any sequence of reloads: the restart-only values never leave the startup ones, and a
      reload that starts the backend named exactly those values, and runs as it was loaded. */
  lemma {:induction false} NeverMoves(checks: Checks, startup: Node, reloads: seq<Reload>)
    requires IsConfig(startup) && forall r :: r in reloads ==> IsConfig(r.config)
    ensures var all := Runs(checks, startup, reloads);
      && |all| == |reloads| + 1
      && (forall k :: 0 <= k < |all| ==>
            IsConfig(all[k]) && forall p :: p in RESTART_ONLY ==> At(all[k], p) == At(startup, p))
      && (forall k :: 0 <= k < |reloads| ==> StartsAsNamed(startup, all[k], reloads[k].config, all[k + 1]))
    decreases |reloads|
  {
    hide IsConfig, At, StartsAsNamed, Next;
    if reloads != [] {
      var rest, last := reloads[..|reloads| - 1], reloads[|reloads| - 1];
      assert reloads == rest + [last];
      NeverMoves(checks, startup, rest);
      var before := Runs(checks, startup, rest);
      NextHolds(checks, startup, before[|before| - 1], last);
    }
  }
}
