/** Pinning, told by the values at the paths of a configuration file: when a reload is refused, and
    what every reload leaves running (src/llm_redact/config.py). */
module RestartOnlyValues {
  import opened Wrappers
  import opened RestartOnly

  function UrlOf(config: Node): Node {
    At(config, ["detection", "ner", "llm", "url"])
  }

  function RemoteOf(config: Node): Node {
    At(config, ["detection", "ner", "llm", "allow_remote"])
  }

  function KeyEnvOf(config: Node): Node {
    At(config, ["detection", "ner", "llm", "api_key_env"])
  }

  /** The three values are the same in both. */
  predicate SameServer(a: Node, b: Node) {
    UrlOf(a) == UrlOf(b) && RemoteOf(a) == RemoteOf(b) && KeyEnvOf(a) == KeyEnvOf(b)
  }

  /** Recognition is on and "llm" is among its backends; with none listed, it is the one named. */
  ghost predicate LlmIsActive(config: Node) {
    && At(config, ["detection", "ner", "enabled"]) == Leaf(Flag(true))
    && ((exists names :: At(config, ["detection", "ner", "backends"]) == Leaf(Names(names)) && "llm" in names)
        || (At(config, ["detection", "ner", "backends"]) == Leaf(Null)
            && At(config, ["detection", "ner", "backend"]) == Leaf(Text("llm"))))
  }

  lemma BackendRunsIs(config: Node)
    ensures BackendRuns(config) <==> LlmIsActive(config)
  {
    hide At;
    var backends := At(config, ["detection", "ner", "backends"]);
    if BackendRuns(config) && backends != Leaf(Null) {
      assert backends == Leaf(Names(backends.value.names));
    }
  }

  lemma ChangedIs(loaded: Node, running: Node)
    ensures Changed(loaded, running, RESTART_ONLY) != [] <==> !SameServer(loaded, running)
  {
    hide At;
    ChangedAre(loaded, running, RESTART_ONLY);
    var changed := Changed(loaded, running, RESTART_ONLY);
    assert RESTART_ONLY[0] in RESTART_ONLY && RESTART_ONLY[1] in RESTART_ONLY && RESTART_ONLY[2] in RESTART_ONLY;
    if changed != [] {
      assert changed[0] in changed;
    }
  }

  /** A reload is refused exactly when it would start the llm backend, not active so far, with any of
      the three values changed, or when the running address and permission with the loaded kind of
      interface are no server's. */
  lemma RefusedExactly(checks: Checks, loaded: Node, running: Node)
    requires IsConfig(loaded) && IsConfig(running)
    ensures Refused(checks, loaded, running)
      <==> || (LlmIsActive(loaded) && !LlmIsActive(running) && !SameServer(loaded, running))
           || !checks(UrlOf(running), RemoteOf(running), At(loaded, ["detection", "ner", "llm", "api"]))
  {
    hide At, BackendRuns, Changed, Keeping, IsConfig, LlmIsActive, SameServer;
    BackendRunsIs(loaded);
    BackendRunsIs(running);
    ChangedIs(loaded, running);
    PinnedIs(loaded, running);
    PathsApart();
    InRestartOnly();
    AwayIs(API);
  }

  lemma InRestartOnly()
    ensures URL in RESTART_ONLY && ALLOW_REMOTE in RESTART_ONLY
  {
    assert RESTART_ONLY[0] == URL && RESTART_ONLY[1] == ALLOW_REMOTE;
  }

  lemma AwayIs(q: Path)
    requires forall p :: p in RESTART_ONLY ==> Apart(p, q)
    ensures Away(RESTART_ONLY, q)
  {
  }

  /** The reload and the running configuration agree on the server. */
  lemma AgreeIs(a: Node, b: Node)
    ensures SameServer(a, b) <==> forall p :: p in RESTART_ONLY ==> At(a, p) == At(b, p)
  {
    hide At;
    assert RESTART_ONLY[0] in RESTART_ONLY && RESTART_ONLY[1] in RESTART_ONLY && RESTART_ONLY[2] in RESTART_ONLY;
  }

  /** Over any sequence of reloads: the address, the permission and the name of the key's variable
      stay those of the startup; and a reload after which the llm backend is active, and was not
      before, named exactly these three values in its own file, and runs as it was loaded. */
  lemma ServerNeverMoves(checks: Checks, startup: Node, reloads: seq<Reload>)
    requires IsConfig(startup) && forall r :: r in reloads ==> IsConfig(r.config)
    ensures var all := Runs(checks, startup, reloads);
      && |all| == |reloads| + 1 && all[0] == startup
      && (forall k :: 0 <= k < |all| ==> SameServer(all[k], startup))
      && (forall k :: 0 <= k < |reloads| && LlmIsActive(all[k + 1]) && !LlmIsActive(all[k]) ==>
            SameServer(reloads[k].config, startup) && all[k + 1] == reloads[k].config)
  {
    hide At, BackendRuns, IsConfig, LlmIsActive, SameServer, Runs;
    NeverMoves(checks, startup, reloads);
    FirstRuns(checks, startup, reloads);
    var all := Runs(checks, startup, reloads);
    forall k | 0 <= k < |all| ensures SameServer(all[k], startup) {
      AgreeIs(all[k], startup);
    }
    forall k | 0 <= k < |reloads| && LlmIsActive(all[k + 1]) && !LlmIsActive(all[k])
      ensures SameServer(reloads[k].config, startup) && all[k + 1] == reloads[k].config
    {
      BackendRunsIs(all[k]);
      BackendRunsIs(all[k + 1]);
      AgreeIs(reloads[k].config, startup);
    }
  }

  lemma {:induction false} FirstRuns(checks: Checks, startup: Node, reloads: seq<Reload>)
    ensures Runs(checks, startup, reloads)[0] == startup
    decreases |reloads|
  {
    hide Next;
    if reloads != [] {
      FirstRuns(checks, startup, reloads[..|reloads| - 1]);
    }
  }

  /** What one reload leaves: the running configuration when it is refused or fails later; else all
      that was loaded, but for the three values, which stay. */
  lemma OneReload(checks: Checks, running: Node, reload: Reload)
    requires IsConfig(running) && IsConfig(reload.config)
    ensures var next := Next(checks, running, reload);
      && (Refused(checks, reload.config, running) || !reload.applies ==> next == running)
      && (!Refused(checks, reload.config, running) && reload.applies ==>
            && SameServer(next, running)
            && (SameServer(reload.config, running) ==> next == reload.config)
            && (LlmIsActive(next) <==> LlmIsActive(reload.config))
            && forall q :: Away(RESTART_ONLY, q) ==> At(next, q) == At(reload.config, q))
  {
    hide At, BackendRuns, IsConfig, LlmIsActive, SameServer, Refused, Keeping, Changed;
    var next := Keeping(reload.config, running, RESTART_ONLY);
    PinnedIs(reload.config, running);
    AgreeIs(next, running);
    BackendRunsIs(next);
    BackendRunsIs(reload.config);
    ChangedIs(reload.config, running);
    if SameServer(reload.config, running) {
      ConfigIsSeparate(reload.config);
      KeepingOwn(reload.config, running, RESTART_ONLY);
    }
  }

  /** All that is asked of a configuration: that it holds the seven values looked at. */
  lemma ConfigMeans(config: Node)
    ensures IsConfig(config)
      <==> && HasPath(config, ["detection", "ner", "enabled"]) && HasPath(config, ["detection", "ner", "backends"])
           && HasPath(config, ["detection", "ner", "backend"]) && HasPath(config, ["detection", "ner", "llm", "api"])
           && HasPath(config, ["detection", "ner", "llm", "url"])
           && HasPath(config, ["detection", "ner", "llm", "allow_remote"])
           && HasPath(config, ["detection", "ner", "llm", "api_key_env"])
  {
    hide HasPath;
    assert RESTART_ONLY[0] in RESTART_ONLY && RESTART_ONLY[1] in RESTART_ONLY && RESTART_ONLY[2] in RESTART_ONLY;
  }
}
