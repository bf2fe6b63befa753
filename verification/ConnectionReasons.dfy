/** Why connections close, told by the steps of a run: every close has its selector, verdict, reload or
    shutdown, and every verdict its effect (src/llm_redact/connections.py). */
module ConnectionReasons {
  import opened Wrappers
  import opened Connections

  // ---- what a run has done to each check ----

  /** The check of c by p has got exactly one of an answer and a cancellation, and is where that
      leads; or it has got none. */
  predicate CheckReason(done: seq<Step>, p: Caller, c: Conn, check: Check) {
    var admit, refuse, fail := Answer(p, c, Admit) in done, Answer(p, c, Refuse) in done, Answer(p, c, Fail) in done;
    var cancel := Cancel(p, c) in done;
    match check
    case Asked => !admit && !refuse && !fail && !cancel
    case Admitted => admit && !refuse && !fail && !cancel
    case Cancelled => cancel && !admit && !refuse && !fail
    case Over => !admit && !cancel && refuse == !fail
    case ToClose(k) => !admit && !cancel && refuse == (k == Recheck) && fail == (k == RecheckError) && k != Revoked
    case ToCount(k) => !admit && !cancel && refuse == (k == Recheck) && fail == (k == RecheckError) && k != Revoked
  }

  /** p has looked at all its connections, and c is one that it asked. */
  predicate HasAsked(s: State, p: Caller, c: Conn) {
    InCheck(s, p, c) && s.calls[p].looked == |s.calls[p].listed|
  }

  ghost predicate ChecksReasoned(done: seq<Step>, s: State, p: Caller) {
    && (forall c :: InCheck(s, p, c) ==> CheckReason(done, p, c, CheckOf(s, p, c)))
    && (forall c, v :: Answer(p, c, v) in done ==> HasAsked(s, p, c))
    && (forall c :: Cancel(p, c) in done ==> HasAsked(s, p, c))
  }

  lemma SameReason(done: seq<Step>, step: Step, p: Caller, c: Conn, check: Check)
    requires CheckReason(done, p, c, check) && step !in [Answer(p, c, Admit), Answer(p, c, Refuse), Answer(p, c, Fail)]
    requires step != Cancel(p, c)
    ensures CheckReason(done + [step], p, c, check)
  {
  }

  lemma ReasonIs(done: seq<Step>, s: State, p: Caller, c: Conn)
    requires ChecksReasoned(done, s, p) && InCheck(s, p, c)
    ensures CheckReason(done, p, c, CheckOf(s, p, c))
  {
    hide CheckReason, CheckOf, InCheck, HasAsked;
  }

  /** The checks of a step that is not p's. */
  lemma OthersStep(info: Conn -> Admission, done: seq<Step>, s: State, step: Step, p: Caller)
    requires Enabled(info, s, step) && CallerOf(step) != Some(p) && ChecksReasoned(done, s, p)
    ensures ChecksReasoned(done + [step], After(info, s, step), p)
  {
    hide Enabled, After, CheckReason;
    var t := After(info, s, step);
    OnlyOneCallChanges(info, s, step);
    forall c | InCheck(t, p, c) ensures CheckReason(done + [step], p, c, CheckOf(t, p, c)) {
      ReasonIs(done, s, p, c);
      SameReason(done, step, p, c, CheckOf(s, p, c));
    }
  }

  /** A step of p that is neither about a check nor a cancellation comes before all answers. */
  predicate IsAsking(step: Step, p: Caller) {
    CallerOf(step) == Some(p) && !step.Answer? && !step.Cancel? && !step.CloseChecked? && !step.CountChecked?
  }

  lemma NotAskedYet(info: Conn -> Admission, s: State, step: Step, p: Caller, c: Conn)
    requires Enabled(info, s, step) && IsAsking(step, p)
    ensures !HasAsked(s, p, c)
  {
    hide Matching, Selects, Streams, Lists;
  }

  lemma NoneYet(done: seq<Step>, s: State, step: Step, p: Caller, c: Conn)
    requires ChecksReasoned(done, s, p) && !HasAsked(s, p, c) && IsAsking(step, p)
    ensures CheckReason(done + [step], p, c, Asked)
  {
    hide HasAsked;
  }

  lemma AskingChecks(info: Conn -> Admission, s: State, step: Step, p: Caller, c: Conn)
    requires Enabled(info, s, step) && IsAsking(step, p) && InCheck(After(info, s, step), p, c)
    ensures var t := After(info, s, step);
      CheckOf(t, p, c).Asked? || (InCheck(s, p, c) && CheckOf(t, p, c) == CheckOf(s, p, c))
  {
    hide Matching, Selects, Streams, Lists, Closing;
  }

  lemma AskingStep(info: Conn -> Admission, done: seq<Step>, s: State, step: Step, p: Caller)
    requires Enabled(info, s, step) && IsAsking(step, p) && ChecksReasoned(done, s, p)
    ensures ChecksReasoned(done + [step], After(info, s, step), p)
  {
    hide Enabled, After, CheckReason, HasAsked, CheckOf, InCheck;
    var t := After(info, s, step);
    forall c | InCheck(t, p, c) ensures CheckReason(done + [step], p, c, CheckOf(t, p, c)) {
      AskingChecks(info, s, step, p, c);
      NotAskedYet(info, s, step, p, c);
      NoneYet(done, s, step, p, c);
      if InCheck(s, p, c) && CheckOf(t, p, c) == CheckOf(s, p, c) {
        ReasonIs(done, s, p, c);
        SameReason(done, step, p, c, CheckOf(s, p, c));
      }
    }
    forall c ensures !HasAsked(s, p, c) {
      NotAskedYet(info, s, step, p, c);
    }
  }

  /** A check moves on, and the others stay. */
  lemma MovedStep(info: Conn -> Admission, s: State, step: Step, p: Caller)
    requires Enabled(info, s, step) && CallerOf(step) == Some(p)
    requires step.Answer? || step.Cancel? || step.CloseChecked? || step.CountChecked?
    ensures var t, c := After(info, s, step), step.conn;
      && InCheck(s, p, c) && InCheck(t, p, c)
      && (forall d :: InCheck(t, p, d) <==> InCheck(s, p, d))
      && (forall d :: InCheck(s, p, d) && d != c ==> CheckOf(t, p, d) == CheckOf(s, p, d))
      && (forall d :: HasAsked(t, p, d) <==> HasAsked(s, p, d))
      && (step.Answer? ==> HasAsked(s, p, c) && CheckOf(s, p, c).Asked? && CheckOf(t, p, c) == Answered(step.verdict))
      && (step.Cancel? ==> HasAsked(s, p, c) && CheckOf(s, p, c).Asked? && CheckOf(t, p, c) == Cancelled)
      && (step.CloseChecked? ==> CheckOf(s, p, c).ToClose?
                                 && CheckOf(t, p, c) in {Over, ToCount(CheckOf(s, p, c).cause)})
      && (step.CountChecked? ==> CheckOf(s, p, c).ToCount? && CheckOf(t, p, c) == Over)
  {
    hide Matching, Selects, Streams, Lists;
  }

  lemma CheckingStep(info: Conn -> Admission, done: seq<Step>, s: State, step: Step, p: Caller)
    requires Enabled(info, s, step) && CallerOf(step) == Some(p) && ChecksReasoned(done, s, p)
    requires step.Answer? || step.Cancel? || step.CloseChecked? || step.CountChecked?
    ensures ChecksReasoned(done + [step], After(info, s, step), p)
  {
    hide Enabled, After, CheckReason, HasAsked, CheckOf, InCheck, Answered;
    var t, c := After(info, s, step), step.conn;
    MovedStep(info, s, step, p);
    forall d | InCheck(t, p, d) ensures CheckReason(done + [step], p, d, CheckOf(t, p, d)) {
      ReasonIs(done, s, p, d);
      if d == c {
        MovedReason(done, step, p, CheckOf(s, p, c), CheckOf(t, p, c));
      } else {
        SameReason(done, step, p, d, CheckOf(s, p, d));
      }
    }
  }

  lemma MovedReason(done: seq<Step>, step: Step, p: Caller, before: Check, after: Check)
    requires step.Answer? || step.Cancel? || step.CloseChecked? || step.CountChecked?
    requires step.caller == p && CheckReason(done, p, step.conn, before)
    requires step.Answer? ==> before.Asked? && after == Answered(step.verdict)
    requires step.Cancel? ==> before.Asked? && after == Cancelled
    requires step.CloseChecked? ==> before.ToClose? && after in {Over, ToCount(before.cause)}
    requires step.CountChecked? ==> before.ToCount? && after == Over
    ensures CheckReason(done + [step], p, step.conn, after)
  {
  }

  lemma ChecksStep(info: Conn -> Admission, done: seq<Step>, s: State, step: Step, p: Caller)
    requires Enabled(info, s, step) && ChecksReasoned(done, s, p)
    ensures ChecksReasoned(done + [step], After(info, s, step), p)
  {
    hide Enabled, After, ChecksReasoned;
    if CallerOf(step) != Some(p) {
      OthersStep(info, done, s, step, p);
    } else if step.Answer? || step.Cancel? || step.CloseChecked? || step.CountChecked? {
      CheckingStep(info, done, s, step, p);
    } else {
      AskingStep(info, done, s, step, p);
    }
  }

  // ---- what a run has done to each connection ----

  /** The admission is of this subject and under this grant, as far as each is given. */
  ghost predicate Names(a: Admission, subject: Option<string>, grant: Option<string>) {
    && (forall name :: subject == Some(name) ==> a.subject == Some(name))
    && (forall name :: grant == Some(name) ==> a.grant == Some(name))
  }

  lemma SelectsIs(a: Admission, subject: Option<string>, grant: Option<string>)
    ensures Selects(a, subject, grant) <==> Names(a, subject, grant)
  {
    if Names(a, subject, grant) {
      assert subject.Some? ==> subject == Some(subject.value);
      assert grant.Some? ==> grant == Some(grant.value);
    }
  }

  /** c was tracked, and not untracked since. */
  predicate IsTracked(done: seq<Step>, c: Conn) {
    exists i :: 0 <= i < |done| && done[i] == Track(c) && forall j :: i < j < |done| ==> done[j] != Untrack(c)
  }

  /** The call was started by a step that named what it works on. */
  ghost predicate Started(info: Conn -> Admission, done: seq<Step>, p: Caller, call: Call) {
    match call
    case Close(matching, _, _, _, _) => ClosesNamed(info, done, p, matching)
    case Pass(listed, _, _) => StartPass(p, listed) in done
    case Shutdown(streams, _, _) =>
      StartShutdown(p, streams) in done && forall c :: c in streams ==> info(c).kind == Events
  }

  ghost predicate ClosesNamed(info: Conn -> Admission, done: seq<Step>, p: Caller, order: seq<Conn>) {
    exists subject, grant :: StartClose(p, subject, grant, order) in done && (subject.Some? || grant.Some?)
      && forall c :: c in order ==> Names(info(c), subject, grant)
  }

  /** Why c was closed for access. */
  ghost predicate ClosedWhy(info: Conn -> Admission, done: seq<Step>, c: Conn, cause: Cause) {
    match cause
    case Revoked => exists p, order :: c in order && ClosesNamed(info, done, p, order)
    case Recheck => exists p :: Answer(p, c, Refuse) in done
    case RecheckError => exists p :: Answer(p, c, Fail) in done
  }

  /** Why c ended otherwise. */
  ghost predicate EndedWhy(info: Conn -> Admission, done: seq<Step>, c: Conn) {
    || (info(c).kind == Realtime && RevokeByReload(c) in done)
    || (info(c).kind == Events && exists p, order :: c in order && StartShutdown(p, order) in done)
  }

  ghost predicate Reasoned(info: Conn -> Admission, done: seq<Step>, s: State) {
    && (forall c :: c in s.tracked <==> IsTracked(done, c))
    && (forall p :: ChecksReasoned(done, s, p))
    && (forall p :: p in s.calls ==> Started(info, done, p, s.calls[p]))
    && (forall c :: c in s.closedFor ==> ClosedWhy(info, done, c, s.closedFor[c]))
    && (forall c :: c in s.ended ==> EndedWhy(info, done, c))
    && (forall c :: RevokeByReload(c) in done ==> Closing(s, c))
  }

  lemma TrackedMore(done: seq<Step>, step: Step, c: Conn)
    ensures IsTracked(done + [step], c) <==> step == Track(c) || (step != Untrack(c) && IsTracked(done, c))
  {
    var more := done + [step];
    if step == Track(c) {
      assert more[|done|] == Track(c);
    } else if step != Untrack(c) && IsTracked(done, c) {
      var i :| 0 <= i < |done| && done[i] == Track(c) && forall j :: i < j < |done| ==> done[j] != Untrack(c);
      assert more[i] == Track(c);
    }
    if IsTracked(more, c) && step != Track(c) {
      var i :| 0 <= i < |more| && more[i] == Track(c) && forall j :: i < j < |more| ==> more[j] != Untrack(c);
      assert done[i] == Track(c) && forall j :: i < j < |done| ==> done[j] == more[j];
      assert more[|done|] == step;
    }
  }

  lemma TrackedStep(info: Conn -> Admission, s: State, step: Step, c: Conn)
    requires Enabled(info, s, step)
    ensures c in After(info, s, step).tracked <==> step == Track(c) || (step != Untrack(c) && c in s.tracked)
  {
  }

  lemma NamedMore(info: Conn -> Admission, done: seq<Step>, step: Step, p: Caller, order: seq<Conn>)
    requires ClosesNamed(info, done, p, order)
    ensures ClosesNamed(info, done + [step], p, order)
  {
    var subject, grant :| StartClose(p, subject, grant, order) in done && (subject.Some? || grant.Some?)
      && forall c :: c in order ==> Names(info(c), subject, grant);
    assert StartClose(p, subject, grant, order) in done + [step];
  }

  lemma StartedMore(info: Conn -> Admission, done: seq<Step>, step: Step, p: Caller, a: Call, b: Call)
    requires Started(info, done, p, a) && SameCall(a, b)
    ensures Started(info, done + [step], p, b)
  {
    hide ClosesNamed;
    if a.Close? {
      NamedMore(info, done, step, p, a.matching);
    }
  }

  /** What a new call works on. */
  lemma StartedNow(info: Conn -> Admission, done: seq<Step>, s: State, step: Step, p: Caller)
    requires Enabled(info, s, step) && p !in s.calls && p in After(info, s, step).calls
    ensures Started(info, done + [step], p, After(info, s, step).calls[p])
  {
    var t := After(info, s, step);
    assert step in done + [step];
    if step.StartClose? {
      assert t.calls[p].matching == step.order;
      forall c | c in step.order ensures Names(info(c), step.subject, step.grant) {
        SelectsIs(info(c), step.subject, step.grant);
      }
    }
  }

  lemma StartedStep(info: Conn -> Admission, done: seq<Step>, s: State, step: Step, p: Caller)
    requires Enabled(info, s, step) && p in After(info, s, step).calls
    requires p in s.calls ==> Started(info, done, p, s.calls[p])
    ensures Started(info, done + [step], p, After(info, s, step).calls[p])
  {
    hide Enabled, After, Started, SameCall;
    if p in s.calls {
      StepKeepsCall(info, s, step, p);
      StartedMore(info, done, step, p, s.calls[p], After(info, s, step).calls[p]);
    } else {
      StartedNow(info, done, s, step, p);
    }
  }

  lemma WhyMore(info: Conn -> Admission, done: seq<Step>, step: Step, c: Conn, cause: Cause)
    ensures ClosedWhy(info, done, c, cause) ==> ClosedWhy(info, done + [step], c, cause)
    ensures EndedWhy(info, done, c) ==> EndedWhy(info, done + [step], c)
  {
    hide ClosesNamed;
    if ClosedWhy(info, done, c, cause) {
      match cause
      case Revoked =>
        var p, order :| c in order && ClosesNamed(info, done, p, order);
        NamedMore(info, done, step, p, order);
      case Recheck =>
        var p :| Answer(p, c, Refuse) in done;
        assert Answer(p, c, Refuse) in done + [step];
      case RecheckError =>
        var p :| Answer(p, c, Fail) in done;
        assert Answer(p, c, Fail) in done + [step];
    }
    if EndedWhy(info, done, c) && info(c).kind == Events {
      var p, order :| c in order && StartShutdown(p, order) in done;
      assert StartShutdown(p, order) in done + [step];
    }
  }

  /** The step that closes a connection. */
  lemma ClosedBy(info: Conn -> Admission, s: State, step: Step, c: Conn)
    requires Enabled(info, s, step)
    ensures var t := After(info, s, step);
      && (c in t.closedFor && c !in s.closedFor ==>
            || (step.CloseNext? && t.closedFor[c] == Revoked && s.calls[step.caller].Close?
                && c in s.calls[step.caller].matching)
            || (step.CloseChecked? && step.conn == c && CheckOf(s, step.caller, c).ToClose?
                && t.closedFor[c] == CheckOf(s, step.caller, c).cause))
      && (c in t.closedFor && c in s.closedFor ==> t.closedFor[c] == s.closedFor[c])
      && (c in t.ended && c !in s.ended ==>
            || (step == RevokeByReload(c) && info(c).kind == Realtime)
            || (step.EndNext? && s.calls[step.caller].Shutdown? && c in s.calls[step.caller].streams))
  {
    hide Matching, Selects, Streams, Lists;
  }

  lemma ClosedNow(info: Conn -> Admission, done: seq<Step>, s: State, step: Step, c: Conn)
    requires Enabled(info, s, step) && Reasoned(info, done, s)
    requires c in After(info, s, step).closedFor && c !in s.closedFor
    ensures ClosedWhy(info, done, c, After(info, s, step).closedFor[c])
  {
    hide After, CheckReason, ClosesNamed, ChecksReasoned, IsTracked;
    ClosedBy(info, s, step, c);
    var p := step.caller;
    if step.CloseNext? {
      assert Started(info, done, p, s.calls[p]);
    } else {
      assert ChecksReasoned(done, s, p);
      ReasonIs(done, s, p, c);
      AskedToClose(done, p, c, CheckOf(s, p, c));
    }
  }

  /** A check to be closed got the verdict that its cause names. */
  lemma AskedToClose(done: seq<Step>, p: Caller, c: Conn, check: Check)
    requires CheckReason(done, p, c, check) && check.ToClose?
    ensures check.cause == Recheck || check.cause == RecheckError
    ensures check.cause == Recheck <==> Answer(p, c, Refuse) in done
    ensures check.cause == RecheckError <==> Answer(p, c, Fail) in done
  {
  }

  lemma EndedNow(info: Conn -> Admission, done: seq<Step>, s: State, step: Step, c: Conn)
    requires Enabled(info, s, step) && Reasoned(info, done, s)
    requires c in After(info, s, step).ended && c !in s.ended
    ensures EndedWhy(info, done + [step], c)
  {
    hide After, CheckReason, ClosesNamed, ChecksReasoned, IsTracked, ClosedWhy;
    ClosedBy(info, s, step, c);
    if step.EndNext? {
      assert Started(info, done, step.caller, s.calls[step.caller]);
      assert StartShutdown(step.caller, s.calls[step.caller].streams) in done + [step];
    } else {
      assert step in done + [step];
    }
  }

  lemma RevokedCloses(info: Conn -> Admission, s: State, step: Step, c: Conn)
    requires Enabled(info, s, step) && (step == RevokeByReload(c) || Closing(s, c))
    ensures Closing(After(info, s, step), c)
  {
    StepSettles(info, s, step);
    if step == RevokeByReload(c) {
      ReloadEffect(info, s, c);
    }
  }

  lemma ReasonedStep(info: Conn -> Admission, done: seq<Step>, s: State, step: Step)
    requires Enabled(info, s, step) && Reasoned(info, done, s)
    ensures Reasoned(info, done + [step], After(info, s, step))
  {
    hide Enabled, After, ChecksReasoned, Started, ClosedWhy, EndedWhy, IsTracked, Closing;
    var t := After(info, s, step);
    forall c ensures c in t.tracked <==> IsTracked(done + [step], c) {
      TrackedMore(done, step, c);
      TrackedStep(info, s, step, c);
    }
    forall p ensures ChecksReasoned(done + [step], t, p) {
      ChecksStep(info, done, s, step, p);
    }
    forall p | p in t.calls ensures Started(info, done + [step], p, t.calls[p]) {
      StartedStep(info, done, s, step, p);
    }
    forall c | c in t.closedFor ensures ClosedWhy(info, done + [step], c, t.closedFor[c]) {
      ClosedBy(info, s, step, c);
      if c !in s.closedFor {
        ClosedNow(info, done, s, step, c);
      }
      WhyMore(info, done, step, c, t.closedFor[c]);
    }
    forall c | c in t.ended ensures EndedWhy(info, done + [step], c) {
      if c in s.ended {
        WhyMore(info, done, step, c, Revoked);
      } else {
        EndedNow(info, done, s, step, c);
      }
    }
    forall c | RevokeByReload(c) in done + [step] ensures Closing(t, c) {
      RevokedCloses(info, s, step, c);
    }
  }

  // ---- over every run ----

  lemma StartIsReasoned(info: Conn -> Admission)
    ensures Reasoned(info, [], START)
  {
    assert forall p, c :: !InCheck(START, p, c);
  }

  lemma {:induction false} RunIsReasoned(info: Conn -> Admission, done: seq<Step>, s: State, steps: seq<Step>)
    requires Reasoned(info, done, s) && Reached(info, s, steps).Some?
    ensures Reasoned(info, done + steps, Reached(info, s, steps).value)
    decreases |steps|
  {
    hide Reasoned, Enabled, After;
    if steps == [] {
      assert done + [] == done;
    } else {
      ReasonedStep(info, done, s, steps[0]);
      RunIsReasoned(info, done + [steps[0]], After(info, s, steps[0]), steps[1..]);
      assert done + [steps[0]] + steps[1..] == done + steps;
    }
  }

  lemma ReachedIsReasoned(info: Conn -> Admission, steps: seq<Step>)
    requires Reached(info, START, steps).Some?
    ensures Reasoned(info, steps, Reached(info, START, steps).value)
  {
    hide Reasoned;
    StartIsReasoned(info);
    RunIsReasoned(info, [], START, steps);
    assert [] + steps == steps;
  }

  /** Over every run: a connection closed as revoked was named by the selectors of a `close`; one
      closed by a re-check was refused by an answer of some pass, or failed one, as its cause says;
      one that ended otherwise is a relay a reload revoked or a stream of a shutdown; and the tracked
      connections are those tracked and not untracked since. */
  lemma EveryCloseHasItsReason(info: Conn -> Admission, steps: seq<Step>)
    requires Reached(info, START, steps).Some?
    ensures var s := Reached(info, START, steps).value;
      && (forall c :: c in s.closedFor && s.closedFor[c] == Revoked ==>
            exists p, order :: c in order && ClosesNamed(info, steps, p, order))
      && (forall c :: c in s.closedFor && s.closedFor[c] == Recheck ==> exists p :: Answer(p, c, Refuse) in steps)
      && (forall c :: c in s.closedFor && s.closedFor[c] == RecheckError ==> exists p :: Answer(p, c, Fail) in steps)
      && (forall c :: c in s.ended ==> EndedWhy(info, steps, c))
      && (forall c :: RevokeByReload(c) in steps ==> c in s.closedFor || c in s.ended)
      && (forall c :: c in s.tracked <==> IsTracked(steps, c))
  {
    hide ChecksReasoned, Started, EndedWhy, IsTracked, ClosesNamed;
    ReachedIsReasoned(info, steps);
    var s := Reached(info, START, steps).value;
    forall c | c in s.closedFor ensures ClosedWhy(info, steps, c, s.closedFor[c]) {
    }
  }

  lemma PassIs(info: Conn -> Admission, steps: seq<Step>, p: Caller)
    requires Reached(info, START, steps).Some?
    ensures var s := Reached(info, START, steps).value;
      Invariant(info, s) && ChecksReasoned(steps, s, p) && (p in s.calls ==> CallRight(info, s, s.calls[p]))
  {
    hide Invariant, ChecksReasoned, CallRight;
    StartIsRight(info);
    RunKeeps(info, START, steps);
    ReachedIsReasoned(info, steps);
    var s := Reached(info, START, steps).value;
    ReasonedChecks(info, steps, s, p);
    InvariantIs(info, s);
    if p in s.calls {
      CallIsRight(info, s, p);
    }
  }

  lemma ReasonedChecks(info: Conn -> Admission, done: seq<Step>, s: State, p: Caller)
    requires Reasoned(info, done, s)
    ensures ChecksReasoned(done, s, p)
  {
    hide ChecksReasoned;
  }

  /** What a complete check says of its connection. */
  lemma CompleteCheck(info: Conn -> Admission, done: seq<Step>, s: State, p: Caller, c: Conn)
    requires ChecksReasoned(done, s, p) && InCheck(s, p, c) && CallRight(info, s, s.calls[p])
    requires CheckOf(s, p, c).Admitted? || CheckOf(s, p, c).Over?
    ensures Answer(p, c, Admit) in done || Closing(s, c)
    ensures Answer(p, c, Refuse) in done || Answer(p, c, Fail) in done ==> Closing(s, c)
  {
    ReasonIs(done, s, p, c);
  }

  /** A pass and its verdicts: each connection it asked gets one verdict at most; and once the pass is
      complete, every connection that was listed with a re-check is closing or was answered None or
      True, and every one refused or failed is closing. */
  lemma PassFollowsItsVerdicts(info: Conn -> Admission, steps: seq<Step>, p: Caller)
    requires Reached(info, START, steps).Some?
    requires p in Reached(info, START, steps).value.calls && Reached(info, START, steps).value.calls[p].Pass?
    ensures var s := Reached(info, START, steps).value;
      && (forall c, v, w :: Answer(p, c, v) in steps && Answer(p, c, w) in steps ==> v == w)
      && (PassComplete(s.calls[p]) ==>
            && (forall c :: c in s.calls[p].listed && info(c).rechecked ==>
                  c in s.closedFor || c in s.ended || Answer(p, c, Admit) in steps)
            && (forall c :: Answer(p, c, Refuse) in steps || Answer(p, c, Fail) in steps ==>
                  c in s.closedFor || c in s.ended))
  {
    hide ChecksReasoned, CallRight, CheckReason, Invariant, Reached;
    var s := Reached(info, START, steps).value;
    PassIs(info, steps, p);
    forall c, v, w | Answer(p, c, v) in steps && Answer(p, c, w) in steps ensures v == w {
      OneVerdict(steps, s, p, c, v, w);
    }
    if PassComplete(s.calls[p]) {
      forall c | InCheck(s, p, c)
        ensures Answer(p, c, Admit) in steps || Closing(s, c)
        ensures Answer(p, c, Refuse) in steps || Answer(p, c, Fail) in steps ==> Closing(s, c) {
        CompleteCheck(info, steps, s, p, c);
      }
      forall c | c in s.calls[p].listed && info(c).rechecked ensures InCheck(s, p, c) || Closing(s, c) {
        LookedAt(info, s, p, c);
      }
      forall c, v | Answer(p, c, v) in steps ensures InCheck(s, p, c) {
        AnswerIsInCheck(steps, s, p, c, v);
      }
    }
  }

  lemma OneVerdict(done: seq<Step>, s: State, p: Caller, c: Conn, v: Verdict, w: Verdict)
    requires ChecksReasoned(done, s, p) && Answer(p, c, v) in done && Answer(p, c, w) in done
    ensures v == w
  {
    ReasonIs(done, s, p, c);
  }

  lemma AnswerIsInCheck(done: seq<Step>, s: State, p: Caller, c: Conn, v: Verdict)
    requires ChecksReasoned(done, s, p) && Answer(p, c, v) in done
    ensures InCheck(s, p, c)
  {
  }

  lemma LookedAt(info: Conn -> Admission, s: State, p: Caller, c: Conn)
    requires p in s.calls && CallRight(info, s, s.calls[p]) && PassComplete(s.calls[p])
    requires c in s.calls[p].listed && info(c).rechecked
    ensures InCheck(s, p, c) || Closing(s, c)
  {
    var i :| 0 <= i < |s.calls[p].listed| && s.calls[p].listed[i] == c;
  }

  /** When the check of a pass makes the close, the cause is that of its verdict. */
  lemma CheckClosesAsAnswered(info: Conn -> Admission, steps: seq<Step>, p: Caller, c: Conn)
    requires Reached(info, START, steps).Some?
    requires Enabled(info, Reached(info, START, steps).value, CloseChecked(p, c))
    requires !Closing(Reached(info, START, steps).value, c)
    ensures var t := After(info, Reached(info, START, steps).value, CloseChecked(p, c));
      && c in t.closedFor
      && (t.closedFor[c] == Recheck <==> Answer(p, c, Refuse) in steps)
      && (t.closedFor[c] == RecheckError <==> Answer(p, c, Fail) in steps)
  {
    hide ChecksReasoned, CallRight, CheckReason, Invariant, Reached;
    var s := Reached(info, START, steps).value;
    PassIs(info, steps, p);
    CloseCheckedEffect(info, s, p, c);
    ReasonIs(steps, s, p, c);
    AskedToClose(steps, p, c, CheckOf(s, p, c));
  }

  // ---- no call is ever stuck ----

  /** A call that has not returned can always go on, whatever the others have done: a close until it
      returns, a shutdown until its last stream, a pass until every check has its verdict, any verdict,
      and its close. */
  lemma NeverStuck(info: Conn -> Admission, s: State, p: Caller)
    requires Invariant(info, s) && p in s.calls
    ensures s.calls[p].Close? && !s.calls[p].returned ==>
      Enabled(info, s, CloseNext(p)) || Enabled(info, s, CountClosed(p))
    ensures s.calls[p].Shutdown? && s.calls[p].at != |s.calls[p].streams| ==> Enabled(info, s, EndNext(p))
    ensures s.calls[p].Pass? && s.calls[p].looked != |s.calls[p].listed| ==> Enabled(info, s, LookNext(p))
    ensures s.calls[p].Pass? && s.calls[p].looked == |s.calls[p].listed| ==>
      forall c :: c in s.calls[p].checks ==>
        var check := s.calls[p].checks[c];
        && (check.Asked? ==> (forall v :: Enabled(info, s, Answer(p, c, v))) && Enabled(info, s, Cancel(p, c)))
        && (check.ToClose? ==> Enabled(info, s, CloseChecked(p, c)))
        && (check.ToCount? ==> Enabled(info, s, CountChecked(p, c)))
  {
    hide CallRight;
    CallIsRight(info, s, p);
    WithinBounds(info, s, s.calls[p]);
  }

  lemma WithinBounds(info: Conn -> Admission, s: State, call: Call)
    requires CallRight(info, s, call)
    ensures call.Close? ==> call.next <= |call.matching|
    ensures call.Pass? ==> call.looked <= |call.listed|
    ensures call.Shutdown? ==> call.at <= |call.streams|
  {
  }

  /** Each connection stands in one place at most. */
  predicate Once(order: seq<Conn>) {
    forall i, j :: 0 <= i < |order| && 0 <= j < |order| && order[i] == order[j] ==> i == j
  }

  /** A new caller may start a close with a selector, a pass or a shutdown on the connections
      tracked, each once, in any order. */
  lemma AnyoneMayStart(info: Conn -> Admission, s: State, p: Caller, subject: Option<string>, grant: Option<string>,
                       order: seq<Conn>)
    requires p !in s.calls
    ensures Enabled(info, s, StartClose(p, subject, grant, order))
      <==> && (subject.Some? || grant.Some?)
           && Once(order) && forall c :: c in order <==> c in s.tracked && Names(info(c), subject, grant)
    ensures Enabled(info, s, StartPass(p, order)) <==> Once(order) && forall c :: c in order <==> c in s.tracked
    ensures Enabled(info, s, StartShutdown(p, order))
      <==> Once(order) && forall c :: c in order <==> c in s.tracked && info(c).kind == Events
  {
    forall c ensures Selects(info(c), subject, grant) <==> Names(info(c), subject, grant) {
      SelectsIs(info(c), subject, grant);
    }
    hide Selects, Names;
  }

  /** Connections come and go at any time, and a reload may revoke any relay. */
  lemma AlwaysPossible(info: Conn -> Admission, s: State, c: Conn)
    ensures Enabled(info, s, Track(c)) && Enabled(info, s, Untrack(c))
    ensures Enabled(info, s, RevokeByReload(c)) <==> info(c).kind == Realtime
  {
  }

  /** A shutdown counts the streams it ends itself. */
  lemma ShutdownCounts(info: Conn -> Admission, s: State, p: Caller)
    requires Enabled(info, s, EndNext(p))
    ensures var t := After(info, s, EndNext(p));
      |t.ended| - |s.ended| == t.calls[p].stopped - s.calls[p].stopped
  {
  }

  /** A pass asks a connection with a re-check that is not closing when it looks, and no other. */
  lemma PassAsks(info: Conn -> Admission, s: State, p: Caller)
    requires Enabled(info, s, LookNext(p))
    ensures var c, t := s.calls[p].listed[s.calls[p].looked], After(info, s, LookNext(p));
      t.calls[p].checks
      == if info(c).rechecked && c !in s.closedFor && c !in s.ended then s.calls[p].checks[c := Asked]
         else s.calls[p].checks
  {
  }
}
