/** Closing, re-checking and shutting down live connections: src/llm_redact/connections.py.

    Each atomic step is one region that a lock guards, one `close_for_access` or `end_for_shutdown`
    of one connection, one look at `closing`, one answer of a re-check, or one relay revoked by a
    reload. Any number of callers may be at any point of their calls; a step advances one of them. */
module Connections {
  import opened Wrappers

  type Conn = nat
  type Caller = nat

  datatype Kind = Events | Realtime

  /** What a connection was admitted under. */
  datatype Admission = Admission(kind: Kind, subject: Option<string>, grant: Option<string>, rechecked: bool)

  /** `CAUSES` */
  datatype Cause = Revoked | Recheck | RecheckError

  /** The counter `closed`. */
  datatype Counts = Counts(revoked: nat, recheck: nat, recheckError: nat) {
    function Of(k: Cause): nat {
      match k case Revoked => revoked case Recheck => recheck case RecheckError => recheckError
    }
    function Add(k: Cause, n: nat): (r: Counts)
      ensures forall j :: r.Of(j) == Of(j) + if j == k then n else 0
    {
      match k
      case Revoked => this.(revoked := revoked + n)
      case Recheck => this.(recheck := recheck + n)
      case RecheckError => this.(recheckError := recheckError + n)
    }
  }

  /** One `_recheck_one`: asked; refused or failed and so to be closed; closed by this check and yet
      to be counted; or over. */
  datatype Check = Asked | ToClose(cause: Cause) | ToCount(cause: Cause) | Admitted | Over | Cancelled

  /** What a re-check answers: None or True, a refusal, or anything that fails the check. */
  datatype Verdict = Admit | Refuse | Fail

  /** One call under way or returned: `close`, with the connections it closed itself; `recheck_all`;
      `end_event_streams`. */
  datatype Call =
    | Close(matching: seq<Conn>, next: nat, closed: nat, mine: set<Conn>, returned: bool)
    | Pass(listed: seq<Conn>, looked: nat, checks: map<Conn, Check>)
    | Shutdown(streams: seq<Conn>, at: nat, stopped: nat)

  /** closedFor holds the connections closed for access; ended those that began to close otherwise,
      a stream at shutdown or a relay that a configuration reload revoked; counted are the ones closed
      for access that the counters include. */
  datatype State = State(
    tracked: set<Conn>,
    closedFor: map<Conn, Cause>,
    ended: set<Conn>,
    counts: Counts,
    counted: set<Conn>,
    calls: map<Caller, Call>)

  const START := State({}, map[], {}, Counts(0, 0, 0), {}, map[])

  predicate Closing(s: State, c: Conn) {
    c in s.closedFor || c in s.ended
  }

  // ---- the steps ----

  datatype Step =
    | Track(conn: Conn)
    | Untrack(conn: Conn)
    | RevokeByReload(conn: Conn)
    | StartClose(caller: Caller, subject: Option<string>, grant: Option<string>, order: seq<Conn>)
    | CloseNext(caller: Caller)
    | CountClosed(caller: Caller)
    | StartPass(caller: Caller, order: seq<Conn>)
    | LookNext(caller: Caller)
    | Answer(caller: Caller, conn: Conn, verdict: Verdict)
    | Cancel(caller: Caller, conn: Conn)
    | CloseChecked(caller: Caller, conn: Conn)
    | CountChecked(caller: Caller, conn: Conn)
    | StartShutdown(caller: Caller, order: seq<Conn>)
    | EndNext(caller: Caller)

  /** The selectors of `close`. */
  predicate Selects(a: Admission, subject: Option<string>, grant: Option<string>) {
    (subject.None? || a.subject == subject) && (grant.None? || a.grant == grant)
  }

  /** The order lists these connections, each once. */
  predicate Lists(order: seq<Conn>, conns: set<Conn>) {
    (forall c :: c in order ==> c in conns) && (forall c :: c in conns ==> c in order)
    && forall i, j :: 0 <= i < j < |order| ==> order[i] != order[j]
  }

  function Matching(info: Conn -> Admission, s: State, subject: Option<string>, grant: Option<string>): set<Conn> {
    set c | c in s.tracked && Selects(info(c), subject, grant)
  }

  function Streams(info: Conn -> Admission, s: State): set<Conn> {
    set c | c in s.tracked && info(c).kind == Events
  }

  predicate Enabled(info: Conn -> Admission, s: State, step: Step) {
    match step
    case Track(_) => true
    case Untrack(_) => true
    case RevokeByReload(c) => info(c).kind == Realtime
    case StartClose(p, subject, grant, order) =>
      p !in s.calls && (subject.Some? || grant.Some?) && Lists(order, Matching(info, s, subject, grant))
    case CloseNext(p) => p in s.calls && s.calls[p].Close? && s.calls[p].next < |s.calls[p].matching|
    case CountClosed(p) =>
      p in s.calls && s.calls[p].Close? && s.calls[p].next == |s.calls[p].matching| && !s.calls[p].returned
    case StartPass(p, order) => p !in s.calls && Lists(order, s.tracked)
    case LookNext(p) => p in s.calls && s.calls[p].Pass? && s.calls[p].looked < |s.calls[p].listed|
    case Answer(p, c, _) => InCheck(s, p, c) && s.calls[p].looked == |s.calls[p].listed| && CheckOf(s, p, c).Asked?
    case Cancel(p, c) => InCheck(s, p, c) && s.calls[p].looked == |s.calls[p].listed| && CheckOf(s, p, c).Asked?
    case CloseChecked(p, c) => InCheck(s, p, c) && CheckOf(s, p, c).ToClose?
    case CountChecked(p, c) => InCheck(s, p, c) && CheckOf(s, p, c).ToCount?
    case StartShutdown(p, order) => p !in s.calls && Lists(order, Streams(info, s))
    case EndNext(p) => p in s.calls && s.calls[p].Shutdown? && s.calls[p].at < |s.calls[p].streams|
  }

  predicate InCheck(s: State, p: Caller, c: Conn) {
    p in s.calls && s.calls[p].Pass? && c in s.calls[p].checks
  }

  function CheckOf(s: State, p: Caller, c: Conn): Check
    requires InCheck(s, p, c)
  {
    s.calls[p].checks[c]
  }

  function SetCheck(s: State, p: Caller, c: Conn, check: Check): State
    requires InCheck(s, p, c)
  {
    s.(calls := s.calls[p := s.calls[p].(checks := s.calls[p].checks[c := check])])
  }

  /** `close_for_access` of one connection: it closes unless it is closing already. */
  function Closed(s: State, c: Conn, cause: Cause): State {
    if Closing(s, c) then s else s.(closedFor := s.closedFor[c := cause])
  }

  /** What an answer makes of a check. */
  function Answered(verdict: Verdict): Check {
    match verdict
    case Admit => Admitted
    case Refuse => ToClose(Recheck)
    case Fail => ToClose(RecheckError)
  }

  function After(info: Conn -> Admission, s: State, step: Step): State
    requires Enabled(info, s, step)
  {
    match step
    case Track(c) => s.(tracked := s.tracked + {c})
    case Untrack(c) => s.(tracked := s.tracked - {c})
    case RevokeByReload(c) => if Closing(s, c) then s else s.(ended := s.ended + {c})
    case StartClose(p, _, _, order) => s.(calls := s.calls[p := Close(order, 0, 0, {}, false)])
    case CloseNext(p) =>
      var call := s.calls[p];
      var c := call.matching[call.next];
      var call' := if Closing(s, c) then call.(next := call.next + 1)
                   else call.(next := call.next + 1, closed := call.closed + 1, mine := call.mine + {c});
      Closed(s, c, Revoked).(calls := s.calls[p := call'])
    case CountClosed(p) =>
      var call := s.calls[p];
      s.(calls := s.calls[p := call.(returned := true)], counts := s.counts.Add(Revoked, call.closed),
         counted := s.counted + call.mine)
    case StartPass(p, order) => s.(calls := s.calls[p := Pass(order, 0, map[])])
    case LookNext(p) =>
      var call := s.calls[p];
      var c := call.listed[call.looked];
      var checks := if info(c).rechecked && !Closing(s, c) then call.checks[c := Asked] else call.checks;
      s.(calls := s.calls[p := call.(looked := call.looked + 1, checks := checks)])
    case Answer(p, c, verdict) =>
      SetCheck(s, p, c, Answered(verdict))
    case Cancel(p, c) => SetCheck(s, p, c, Cancelled)
    case CloseChecked(p, c) =>
      var cause := CheckOf(s, p, c).cause;
      SetCheck(Closed(s, c, cause), p, c, if Closing(s, c) then Over else ToCount(cause))
    case CountChecked(p, c) =>
      SetCheck(s, p, c, Over).(counts := s.counts.Add(CheckOf(s, p, c).cause, 1), counted := s.counted + {c})
    case StartShutdown(p, order) => s.(calls := s.calls[p := Shutdown(order, 0, 0)])
    case EndNext(p) =>
      var call := s.calls[p];
      var c := call.streams[call.at];
      if Closing(s, c) then s.(calls := s.calls[p := call.(at := call.at + 1)])
      else s.(ended := s.ended + {c}, calls := s.calls[p := call.(at := call.at + 1, stopped := call.stopped + 1)])
  }

  /** The state a run of steps reaches, if each is enabled in turn. */
  function Reached(info: Conn -> Admission, s: State, steps: seq<Step>): Option<State>
    decreases |steps|
  {
    if steps == [] then Some(s)
    else if !Enabled(info, s, steps[0]) then None
    else Reached(info, After(info, s, steps[0]), steps[1..])
  }

  // ---- the books ----

  /** The connections a call has closed and not counted yet. */
  function Uncounted(call: Call): set<Conn> {
    match call
    case Close(_, _, _, mine, returned) => if returned then {} else mine
    case Pass(_, _, checks) => set c | c in checks && checks[c].ToCount?
    case Shutdown(_, _, _) => {}
  }

  /** What a caller has closed and not counted yet. */
  function Pending(s: State, p: Caller): set<Conn> {
    if p in s.calls then Uncounted(s.calls[p]) else {}
  }

  /** The closes in flight: made, and not counted yet. */
  function InFlight(s: State): set<Conn> {
    set p, c | p in s.calls && c in Uncounted(s.calls[p]) :: c
  }

  /** The connections closed for a cause. */
  function ClosedFor(s: State, k: Cause): set<Conn> {
    set c | c in s.closedFor && s.closedFor[c] == k
  }

  /** No connection is both closed for access and ended at shutdown; every one closed for access is
      counted or in flight with one caller, never both. */
  ghost predicate Booked(s: State) {
    && (forall c :: c in s.ended ==> c !in s.closedFor)
    && (forall c :: c in s.closedFor <==> c in s.counted || exists p :: c in Pending(s, p))
    && (forall p, c :: c in Pending(s, p) ==> c !in s.counted)
    && (forall p, q, c :: c in Pending(s, p) && c in Pending(s, q) ==> p == q)
  }

  /** Each counter is the number of counted connections closed for its cause. */
  ghost predicate CountersRight(s: State) {
    forall k :: s.counts.Of(k) == |s.counted * ClosedFor(s, k)|
  }

  /** What each call has achieved so far. */
  predicate CallRight(info: Conn -> Admission, s: State, call: Call) {
    match call
    case Close(matching, next, closed, mine, returned) =>
      && next <= |matching| && closed == |mine| && (returned ==> next == |matching|)
      && (forall i :: 0 <= i < next ==> Closing(s, matching[i]))
      && (forall c :: c in mine ==> c in matching && c in s.closedFor && s.closedFor[c] == Revoked)
    case Pass(listed, looked, checks) =>
      && looked <= |listed| && (looked < |listed| ==> forall c :: c in checks ==> checks[c].Asked?)
      && (forall i :: 0 <= i < looked && info(listed[i]).rechecked ==> listed[i] in checks || Closing(s, listed[i]))
      && (forall c :: c in checks && checks[c].Over? ==> Closing(s, c))
      && (forall c :: c in checks && checks[c].ToCount? ==> c in s.closedFor && s.closedFor[c] == checks[c].cause)
    case Shutdown(streams, at, _) =>
      at <= |streams| && forall i :: 0 <= i < at ==> Closing(s, streams[i])
  }

  ghost predicate CallsRight(info: Conn -> Admission, s: State) {
    forall p :: p in s.calls ==> CallRight(info, s, s.calls[p])
  }

  ghost predicate Invariant(info: Conn -> Admission, s: State) {
    Booked(s) && CountersRight(s) && CallsRight(info, s)
  }

  /** A connection that has left the open state stays as it left it. */
  predicate Settled(s: State, t: State) {
    && (forall c :: c in s.closedFor ==> c in t.closedFor && t.closedFor[c] == s.closedFor[c])
    && (forall c :: c in s.ended ==> c in t.ended)
  }

  // ---- what one step does to the books ----

  lemma BooksStay(s: State, t: State)
    requires Booked(s) && CountersRight(s)
    requires t.closedFor == s.closedFor && t.ended == s.ended && t.counted == s.counted && t.counts == s.counts
    requires forall p :: Pending(t, p) == Pending(s, p)
    ensures Booked(t) && CountersRight(t)
  {
    hide Pending;
    forall k ensures ClosedFor(t, k) == ClosedFor(s, k) {
    }
  }

  lemma BooksOnEnd(s: State, t: State, c: Conn)
    requires Booked(s) && CountersRight(s) && !Closing(s, c)
    requires t.closedFor == s.closedFor && t.ended == s.ended + {c} && t.counted == s.counted && t.counts == s.counts
    requires forall p :: Pending(t, p) == Pending(s, p)
    ensures Booked(t) && CountersRight(t)
  {
    hide Pending;
    forall k ensures ClosedFor(t, k) == ClosedFor(s, k) {
    }
  }

  /** A caller closes one more connection. */
  lemma BooksOnClose(s: State, t: State, p: Caller, c: Conn, k: Cause)
    requires Booked(s) && CountersRight(s) && !Closing(s, c)
    requires t.closedFor == s.closedFor[c := k] && t.ended == s.ended && t.counted == s.counted && t.counts == s.counts
    requires Pending(t, p) == Pending(s, p) + {c} && forall q :: q != p ==> Pending(t, q) == Pending(s, q)
    ensures Booked(t) && CountersRight(t)
  {
    hide Pending, CountersRight;
    assert c !in s.counted && forall q :: c !in Pending(s, q);
    assert c in Pending(t, p);
    forall d ensures d in t.closedFor <==> d in t.counted || exists q :: d in Pending(t, q) {
      if d != c && d in t.closedFor && d !in t.counted {
        var q :| d in Pending(s, q);
        assert d in Pending(t, q);
      }
      if q :| d in Pending(t, q) {
        assert d == c || d in Pending(s, q);
      }
    }
    forall q, r, d | d in Pending(t, q) && d in Pending(t, r) ensures q == r {
      if d != c {
        assert d in Pending(s, q) && d in Pending(s, r);
      }
    }
    CountersOnClose(s, t, c, k);
  }

  lemma CountersOnClose(s: State, t: State, c: Conn, k: Cause)
    requires CountersRight(s) && c !in s.counted
    requires t.closedFor == s.closedFor[c := k] && t.counted == s.counted && t.counts == s.counts
    ensures CountersRight(t)
  {
    hide ClosedFor;
    forall j ensures t.counts.Of(j) == |t.counted * ClosedFor(t, j)| {
      CountedStay(s, t, c, k, j);
    }
  }

  lemma CountedStay(s: State, t: State, c: Conn, k: Cause, j: Cause)
    requires c !in s.counted && t.closedFor == s.closedFor[c := k] && t.counted == s.counted
    ensures t.counted * ClosedFor(t, j) == s.counted * ClosedFor(s, j)
  {
    hide CountersRight;
  }

  /** A caller counts closes it made for one cause. */
  lemma BooksOnCount(s: State, t: State, p: Caller, m: set<Conn>, k: Cause)
    requires Booked(s) && CountersRight(s) && m <= Pending(s, p) && m <= ClosedFor(s, k)
    requires t.closedFor == s.closedFor && t.ended == s.ended && t.counted == s.counted + m
    requires t.counts == s.counts.Add(k, |m|)
    requires Pending(t, p) == Pending(s, p) - m && forall q :: q != p ==> Pending(t, q) == Pending(s, q)
    ensures Booked(t) && CountersRight(t)
  {
    hide Pending, CountersRight;
    assert m !! s.counted;
    forall d ensures d in t.closedFor <==> d in t.counted || exists q :: d in Pending(t, q) {
      if d in s.closedFor && d !in t.counted {
        var q :| d in Pending(s, q);
        assert d in Pending(t, q);
      }
      if q :| d in Pending(t, q) {
        assert d in Pending(s, q);
      }
    }
    forall q, d | d in Pending(t, q) ensures d !in t.counted {
      assert d in Pending(s, q);
    }
    forall q, r, d | d in Pending(t, q) && d in Pending(t, r) ensures q == r {
      assert d in Pending(s, q) && d in Pending(s, r);
    }
    CountersOnCount(s, t, m, k);
  }

  lemma CountersOnCount(s: State, t: State, m: set<Conn>, k: Cause)
    requires CountersRight(s) && m !! s.counted && m <= ClosedFor(s, k)
    requires t.closedFor == s.closedFor && t.counted == s.counted + m && t.counts == s.counts.Add(k, |m|)
    ensures CountersRight(t)
  {
    hide ClosedFor, Counts.Add;
    forall j ensures t.counts.Of(j) == |t.counted * ClosedFor(t, j)| {
      CounterOnCount(s, t, m, k, j);
    }
  }

  lemma CounterOnCount(s: State, t: State, m: set<Conn>, k: Cause, j: Cause)
    requires m !! s.counted && m <= ClosedFor(s, k)
    requires t.closedFor == s.closedFor && t.counted == s.counted + m
    ensures |t.counted * ClosedFor(t, j)| == |s.counted * ClosedFor(s, j)| + if j == k then |m| else 0
  {
    hide *;
    SameClosedFor(s, t, j);
    var a := s.counted * ClosedFor(s, j);
    if j == k {
      assert t.counted * ClosedFor(t, j) == a + m && a !! m;
    } else {
      CausesApart(s, j, k);
      assert t.counted * ClosedFor(t, j) == a;
    }
  }

  lemma SameClosedFor(s: State, t: State, k: Cause)
    requires t.closedFor == s.closedFor
    ensures ClosedFor(t, k) == ClosedFor(s, k)
  {
  }

  lemma CausesApart(s: State, j: Cause, k: Cause)
    requires j != k
    ensures ClosedFor(s, j) !! ClosedFor(s, k)
  {
  }

  // ---- what one step does to the calls ----

  lemma CallStaysRight(info: Conn -> Admission, s: State, t: State, call: Call)
    requires CallRight(info, s, call) && Settled(s, t)
    ensures CallRight(info, t, call)
  {
  }

  lemma StepSettles(info: Conn -> Admission, s: State, step: Step)
    requires Enabled(info, s, step)
    ensures Settled(s, After(info, s, step))
  {
  }

  /** A step changes the call of one caller. */
  function CallerOf(step: Step): Option<Caller> {
    match step
    case Track(_) => None
    case Untrack(_) => None
    case RevokeByReload(_) => None
    case _ => Some(step.caller)
  }

  lemma OnlyOneCallChanges(info: Conn -> Admission, s: State, step: Step)
    requires Enabled(info, s, step)
    ensures var t := After(info, s, step);
      && (forall p: Caller :: CallerOf(step) != Some(p) ==>
            (p in t.calls <==> p in s.calls) && Pending(t, p) == Pending(s, p))
      && (forall p: Caller :: CallerOf(step) != Some(p) && p in t.calls ==> t.calls[p] == s.calls[p])
      && (CallerOf(step).Some? ==> CallerOf(step).value in t.calls)
  {
    hide Uncounted, Selects, Lists;
  }

  /** The calls of all callers stay right if that of the one that moved is. */
  lemma CallsStayRight(info: Conn -> Admission, s: State, step: Step)
    requires Enabled(info, s, step) && CallsRight(info, s)
    requires CallerOf(step).Some? ==>
      var t := After(info, s, step);
        CallerOf(step).value in t.calls ==> CallRight(info, t, t.calls[CallerOf(step).value])
    ensures CallsRight(info, After(info, s, step))
  {
    hide Enabled, After, CallRight, Settled, Pending;
    var t := After(info, s, step);
    StepSettles(info, s, step);
    OnlyOneCallChanges(info, s, step);
    forall p | p in t.calls ensures CallRight(info, t, t.calls[p]) {
      if CallerOf(step) != Some(p) {
        CallStaysRight(info, s, t, s.calls[p]);
      }
    }
  }

  // ---- every step keeps the invariant ----

  /** The step neither closes, ends nor counts. */
  predicate IsQuiet(step: Step) {
    step.Track? || step.Untrack? || step.StartClose? || step.StartPass? || step.LookNext? || step.Answer?
    || step.Cancel? || step.StartShutdown?
  }

  lemma QuietPending(info: Conn -> Admission, s: State, step: Step, p: Caller)
    requires Enabled(info, s, step) && IsQuiet(step) && (p in s.calls ==> CallRight(info, s, s.calls[p]))
    ensures Pending(After(info, s, step), p) == Pending(s, p)
  {
    hide Selects, Lists;
    var t := After(info, s, step);
    assert forall c :: c in Pending(t, p) <==> c in Pending(s, p);
  }

  lemma QuietEffect(info: Conn -> Admission, s: State, step: Step)
    requires Enabled(info, s, step) && IsQuiet(step)
    ensures var t := After(info, s, step);
      t.closedFor == s.closedFor && t.ended == s.ended && t.counted == s.counted && t.counts == s.counts
  {
    hide Selects, Lists;
  }

  lemma QuietBooks(info: Conn -> Admission, s: State, step: Step)
    requires Enabled(info, s, step) && IsQuiet(step) && Invariant(info, s)
    ensures Booked(After(info, s, step)) && CountersRight(After(info, s, step))
  {
    hide Booked, CountersRight, CallsRight, CallRight, Enabled, After, Pending;
    var t := After(info, s, step);
    forall p: Caller ensures Pending(t, p) == Pending(s, p) {
      if p in s.calls {
        CallIsRight(info, s, p);
      }
      QuietPending(info, s, step, p);
    }
    QuietEffect(info, s, step);
    BooksStay(s, t);
  }

  lemma QuietCalls(info: Conn -> Admission, s: State, step: Step)
    requires Enabled(info, s, step) && IsQuiet(step) && CallsRight(info, s)
    ensures CallsRight(info, After(info, s, step))
  {
    hide Enabled, After, CallRight, CallsRight;
    if CallerOf(step).Some? {
      if CallerOf(step).value in s.calls {
        CallIsRight(info, s, CallerOf(step).value);
      }
      QuietCall(info, s, step);
    }
    CallsStayRight(info, s, step);
  }

  lemma QuietCall(info: Conn -> Admission, s: State, step: Step)
    requires Enabled(info, s, step) && IsQuiet(step) && CallerOf(step).Some?
    requires CallerOf(step).value in s.calls ==> CallRight(info, s, s.calls[CallerOf(step).value])
    ensures var t, p := After(info, s, step), CallerOf(step).value; p in t.calls ==> CallRight(info, t, t.calls[p])
  {
    hide Matching, Selects, Lists, Streams, Uncounted, CallsRight;
  }

  lemma CallIsRight(info: Conn -> Admission, s: State, p: Caller)
    requires CallsRight(info, s) && p in s.calls
    ensures CallRight(info, s, s.calls[p])
  {
    hide CallRight;
  }

  lemma CloseNextEffect(info: Conn -> Admission, s: State, p: Caller)
    requires Enabled(info, s, CloseNext(p)) && CallRight(info, s, s.calls[p])
    ensures var t, c := After(info, s, CloseNext(p)), s.calls[p].matching[s.calls[p].next];
      && p in t.calls && CallRight(info, t, t.calls[p])
      && t.ended == s.ended && t.counted == s.counted && t.counts == s.counts
      && (Closing(s, c) ==> t.closedFor == s.closedFor && Pending(t, p) == Pending(s, p))
      && (!Closing(s, c) ==> t.closedFor == s.closedFor[c := Revoked] && Pending(t, p) == Pending(s, p) + {c})
  {
    hide Matching, Selects, Lists, Streams, InCheck;
  }

  lemma CloseNextKeeps(info: Conn -> Admission, s: State, p: Caller)
    requires Enabled(info, s, CloseNext(p)) && Invariant(info, s)
    ensures Invariant(info, After(info, s, CloseNext(p)))
  {
    hide Booked, CountersRight, CallsRight, CallRight, Enabled, After, Pending, Closing;
    var t := After(info, s, CloseNext(p));
    CloseNextNow(info, s, p);
    CallIsRight(info, s, p);
    CloseNextEffect(info, s, p);
    CallsStayRight(info, s, CloseNext(p));
    OnlyOneCallChanges(info, s, CloseNext(p));
    var c := s.calls[p].matching[s.calls[p].next];
    if Closing(s, c) {
      BooksStay(s, t);
    } else {
      BooksOnClose(s, t, p, c, Revoked);
    }
  }

  lemma CloseNextNow(info: Conn -> Admission, s: State, p: Caller)
    requires Enabled(info, s, CloseNext(p))
    ensures p in s.calls && s.calls[p].Close? && s.calls[p].next < |s.calls[p].matching|
  {
  }

  lemma CountClosedEffect(info: Conn -> Admission, s: State, p: Caller)
    requires Enabled(info, s, CountClosed(p)) && CallRight(info, s, s.calls[p])
    ensures p in s.calls && s.calls[p].Close?
    ensures var t, m := After(info, s, CountClosed(p)), s.calls[p].mine;
      && p in t.calls && CallRight(info, t, t.calls[p])
      && t.closedFor == s.closedFor && t.ended == s.ended && t.counted == s.counted + m
      && t.counts == s.counts.Add(Revoked, |m|)
      && m <= Pending(s, p) && m <= ClosedFor(s, Revoked) && Pending(t, p) == Pending(s, p) - m
  {
    hide Counts.Add;
  }

  lemma CountClosedKeeps(info: Conn -> Admission, s: State, p: Caller)
    requires Enabled(info, s, CountClosed(p)) && Invariant(info, s)
    ensures Invariant(info, After(info, s, CountClosed(p)))
  {
    hide Booked, CountersRight, CallsRight, CallRight, After, Pending, ClosedFor, Counts.Add;
    CallIsRight(info, s, p);
    CountClosedEffect(info, s, p);
    CallsStayRight(info, s, CountClosed(p));
    OnlyOneCallChanges(info, s, CountClosed(p));
    BooksOnCount(s, After(info, s, CountClosed(p)), p, s.calls[p].mine, Revoked);
  }

  lemma CloseCheckedEffect(info: Conn -> Admission, s: State, p: Caller, c: Conn)
    requires Enabled(info, s, CloseChecked(p, c)) && CallRight(info, s, s.calls[p])
    ensures InCheck(s, p, c) && CheckOf(s, p, c).ToClose?
    ensures var t := After(info, s, CloseChecked(p, c));
      && p in t.calls && CallRight(info, t, t.calls[p])
      && t.ended == s.ended && t.counted == s.counted && t.counts == s.counts
      && (Closing(s, c) ==> t.closedFor == s.closedFor && Pending(t, p) == Pending(s, p))
      && (!Closing(s, c) ==>
            t.closedFor == s.closedFor[c := CheckOf(s, p, c).cause] && Pending(t, p) == Pending(s, p) + {c})
  {
    var t := After(info, s, CloseChecked(p, c));
    if Closing(s, c) {
      assert forall d :: d in Pending(t, p) <==> d in Pending(s, p);
    }
  }

  lemma CloseCheckedKeeps(info: Conn -> Admission, s: State, p: Caller, c: Conn)
    requires Enabled(info, s, CloseChecked(p, c)) && Invariant(info, s)
    ensures Invariant(info, After(info, s, CloseChecked(p, c)))
  {
    hide Booked, CountersRight, CallsRight, CallRight, After, Pending, Closing;
    CallIsRight(info, s, p);
    CloseCheckedEffect(info, s, p, c);
    CallsStayRight(info, s, CloseChecked(p, c));
    OnlyOneCallChanges(info, s, CloseChecked(p, c));
    if Closing(s, c) {
      BooksStay(s, After(info, s, CloseChecked(p, c)));
    } else {
      BooksOnClose(s, After(info, s, CloseChecked(p, c)), p, c, CheckOf(s, p, c).cause);
    }
  }

  lemma CountCheckedEffect(info: Conn -> Admission, s: State, p: Caller, c: Conn)
    requires Enabled(info, s, CountChecked(p, c)) && CallRight(info, s, s.calls[p])
    ensures InCheck(s, p, c) && CheckOf(s, p, c).ToCount?
    ensures var t, k := After(info, s, CountChecked(p, c)), CheckOf(s, p, c).cause;
      && p in t.calls && CallRight(info, t, t.calls[p])
      && t.closedFor == s.closedFor && t.ended == s.ended && t.counted == s.counted + {c}
      && t.counts == s.counts.Add(k, |{c}|)
      && {c} <= Pending(s, p) && {c} <= ClosedFor(s, k) && Pending(t, p) == Pending(s, p) - {c}
  {
    hide Counts.Add;
  }

  lemma CountCheckedKeeps(info: Conn -> Admission, s: State, p: Caller, c: Conn)
    requires Enabled(info, s, CountChecked(p, c)) && Invariant(info, s)
    ensures Invariant(info, After(info, s, CountChecked(p, c)))
  {
    hide Booked, CountersRight, CallsRight, CallRight, After, Pending, ClosedFor, Counts.Add;
    CallIsRight(info, s, p);
    CountCheckedEffect(info, s, p, c);
    CallsStayRight(info, s, CountChecked(p, c));
    OnlyOneCallChanges(info, s, CountChecked(p, c));
    BooksOnCount(s, After(info, s, CountChecked(p, c)), p, {c}, CheckOf(s, p, c).cause);
  }

  lemma EndNextEffect(info: Conn -> Admission, s: State, p: Caller)
    requires Enabled(info, s, EndNext(p)) && CallRight(info, s, s.calls[p])
    ensures p in s.calls && s.calls[p].Shutdown? && s.calls[p].at < |s.calls[p].streams|
    ensures var t, c := After(info, s, EndNext(p)), s.calls[p].streams[s.calls[p].at];
      && p in t.calls && CallRight(info, t, t.calls[p])
      && t.closedFor == s.closedFor && t.counted == s.counted && t.counts == s.counts
      && t.ended == (if Closing(s, c) then s.ended else s.ended + {c})
      && Pending(t, p) == Pending(s, p)
  {
  }

  lemma EndNextKeeps(info: Conn -> Admission, s: State, p: Caller)
    requires Enabled(info, s, EndNext(p)) && Invariant(info, s)
    ensures Invariant(info, After(info, s, EndNext(p)))
  {
    hide Booked, CountersRight, CallsRight, CallRight, After, Pending, Closing;
    CallIsRight(info, s, p);
    EndNextEffect(info, s, p);
    CallsStayRight(info, s, EndNext(p));
    OnlyOneCallChanges(info, s, EndNext(p));
    var c := s.calls[p].streams[s.calls[p].at];
    if Closing(s, c) {
      BooksStay(s, After(info, s, EndNext(p)));
    } else {
      BooksOnEnd(s, After(info, s, EndNext(p)), c);
    }
  }

  lemma ReloadEffect(info: Conn -> Admission, s: State, c: Conn)
    requires Enabled(info, s, RevokeByReload(c))
    ensures var t := After(info, s, RevokeByReload(c));
      && t.calls == s.calls && t.closedFor == s.closedFor && t.counted == s.counted && t.counts == s.counts
      && t.ended == if Closing(s, c) then s.ended else s.ended + {c}
  {
  }

  lemma RevokeByReloadKeeps(info: Conn -> Admission, s: State, c: Conn)
    requires Enabled(info, s, RevokeByReload(c)) && Invariant(info, s)
    ensures Invariant(info, After(info, s, RevokeByReload(c)))
  {
    hide Booked, CountersRight, CallsRight, CallRight, Enabled, After, Uncounted, Closing;
    var t := After(info, s, RevokeByReload(c));
    ReloadEffect(info, s, c);
    CallsStayRight(info, s, RevokeByReload(c));
    forall p: Caller ensures Pending(t, p) == Pending(s, p) {
    }
    if Closing(s, c) {
      BooksStay(s, t);
    } else {
      BooksOnEnd(s, t, c);
    }
  }

  lemma StepKeeps(info: Conn -> Admission, s: State, step: Step)
    requires Enabled(info, s, step) && Invariant(info, s)
    ensures Invariant(info, After(info, s, step))
  {
    hide Enabled, After, Booked, CountersRight, CallsRight;
    match step
    case CloseNext(p) => CloseNextKeeps(info, s, p);
    case CountClosed(p) => CountClosedKeeps(info, s, p);
    case CloseChecked(p, c) => CloseCheckedKeeps(info, s, p, c);
    case CountChecked(p, c) => CountCheckedKeeps(info, s, p, c);
    case EndNext(p) => EndNextKeeps(info, s, p);
    case RevokeByReload(c) => RevokeByReloadKeeps(info, s, c);
    case _ =>
      QuietBooks(info, s, step);
      QuietCalls(info, s, step);
  }

  // ---- over every run ----

  lemma {:induction false} RunKeeps(info: Conn -> Admission, s: State, steps: seq<Step>)
    requires Invariant(info, s) && Reached(info, s, steps).Some?
    ensures Invariant(info, Reached(info, s, steps).value) && Settled(s, Reached(info, s, steps).value)
    decreases |steps|
  {
    hide Invariant, Enabled, After;
    if steps != [] {
      StepKeeps(info, s, steps[0]);
      StepSettles(info, s, steps[0]);
      RunKeeps(info, After(info, s, steps[0]), steps[1..]);
    }
  }

  lemma StartIsRight(info: Conn -> Admission)
    ensures Invariant(info, START)
  {
    forall p: Caller ensures Pending(START, p) == {} {
    }
    forall k ensures START.counted * ClosedFor(START, k) == {} {
    }
  }

  /** Over every interleaving: each counter plus the closes in flight for its cause is the number of
      connections closed for that cause, so nothing is counted twice or forgotten; and no connection
      ended at shutdown, or revoked by a reload, is among them. */
  lemma CountersAgree(info: Conn -> Admission, steps: seq<Step>, k: Cause)
    requires Reached(info, START, steps).Some?
    ensures var s := Reached(info, START, steps).value;
      && s.counts.Of(k) + |InFlight(s) * ClosedFor(s, k)| == |ClosedFor(s, k)|
      && s.ended !! s.closedFor.Keys
  {
    hide *;
    StartIsRight(info);
    RunKeeps(info, START, steps);
    var s := Reached(info, START, steps).value;
    InvariantIs(info, s);
    BooksBalance(s, k);
  }

  lemma InvariantIs(info: Conn -> Admission, s: State)
    requires Invariant(info, s)
    ensures Booked(s) && CountersRight(s) && CallsRight(info, s)
  {
    hide Booked, CountersRight, CallsRight;
  }

  lemma BooksBalance(s: State, k: Cause)
    requires Booked(s) && CountersRight(s)
    ensures s.counts.Of(k) + |InFlight(s) * ClosedFor(s, k)| == |ClosedFor(s, k)|
    ensures s.ended !! s.closedFor.Keys
  {
    hide *;
    EachIsBooked(s);
    CounterIs(s, k);
    ClosedForIsClosed(s, k);
    var a, b := s.counted * ClosedFor(s, k), InFlight(s) * ClosedFor(s, k);
    assert a !! b;
    assert a + b == ClosedFor(s, k);
  }

  /** Closed for access: counted or in flight, never both, and never ended at shutdown. */
  lemma EachIsBooked(s: State)
    requires Booked(s)
    ensures s.closedFor.Keys == s.counted + InFlight(s) && s.counted !! InFlight(s) && s.ended !! s.closedFor.Keys
  {
    hide InFlight, Pending;
    InFlightIs(s);
  }

  lemma CounterIs(s: State, k: Cause)
    requires CountersRight(s)
    ensures s.counts.Of(k) == |s.counted * ClosedFor(s, k)|
  {
    hide ClosedFor;
  }

  lemma ClosedForIsClosed(s: State, k: Cause)
    ensures ClosedFor(s, k) <= s.closedFor.Keys
  {
  }

  lemma InFlightIs(s: State)
    ensures forall c :: c in InFlight(s) <==> exists p :: c in Pending(s, p)
  {
    hide Uncounted;
    forall c | c in InFlight(s) ensures exists p :: c in Pending(s, p) {
      var p :| p in s.calls && c in Uncounted(s.calls[p]);
      assert c in Pending(s, p);
    }
    forall c, p | c in Pending(s, p) ensures c in InFlight(s) {
      assert p in s.calls && c in Uncounted(s.calls[p]);
    }
  }

  /** The step closes or ends the connection. */
  predicate Leaves(info: Conn -> Admission, s: State, step: Step, c: Conn) {
    Enabled(info, s, step) && !Closing(s, c) && Closing(After(info, s, step), c)
  }

  /** Each connection leaves the open state at most once: after a step that closes or ends it, it is
      closing for ever and keeps the cause it left with, and no later step closes or ends it. */
  lemma LeavesOnce(info: Conn -> Admission, s: State, first: Step, between: seq<Step>, second: Step, c: Conn)
    requires Leaves(info, s, first, c) && Invariant(info, s)
    requires Reached(info, After(info, s, first), between).Some?
    ensures var a, b := After(info, s, first), Reached(info, After(info, s, first), between).value;
      && Closing(b, c) && !Leaves(info, b, second, c)
      && (c in a.closedFor ==> c in b.closedFor && b.closedFor[c] == a.closedFor[c] && c !in b.ended)
      && (c in a.ended ==> c in b.ended && c !in b.closedFor)
  {
    hide Enabled, After, Reached, CountersRight, CallsRight;
    StepKeeps(info, s, first);
    RunKeeps(info, After(info, s, first), between);
  }

  // ---- what a call that has returned has done ----

  /** Later steps leave what a call set out with as it is. */
  predicate SameCall(a: Call, b: Call) {
    match a
    case Close(matching, _, _, _, _) => b.Close? && b.matching == matching
    case Pass(listed, _, _) => b.Pass? && b.listed == listed
    case Shutdown(streams, _, _) => b.Shutdown? && b.streams == streams
  }

  lemma StepKeepsCall(info: Conn -> Admission, s: State, step: Step, p: Caller)
    requires Enabled(info, s, step) && p in s.calls
    ensures p in After(info, s, step).calls && SameCall(s.calls[p], After(info, s, step).calls[p])
  {
    hide Selects, Lists;
  }

  lemma {:induction false} RunKeepsCall(info: Conn -> Admission, s: State, steps: seq<Step>, p: Caller)
    requires Reached(info, s, steps).Some? && p in s.calls
    ensures p in Reached(info, s, steps).value.calls && SameCall(s.calls[p], Reached(info, s, steps).value.calls[p])
    decreases |steps|
  {
    hide Enabled, After;
    if steps != [] {
      StepKeepsCall(info, s, steps[0], p);
      RunKeepsCall(info, After(info, s, steps[0]), steps[1..], p);
    }
  }

  lemma StartedCall(info: Conn -> Admission, s: State, step: Step)
    requires Enabled(info, s, step) && (step.StartClose? || step.StartPass? || step.StartShutdown?)
    ensures var t := After(info, s, step);
      && step.caller in t.calls
      && (step.StartClose? ==> t.calls[step.caller].Close? && t.calls[step.caller].matching == step.order)
      && (step.StartPass? ==> t.calls[step.caller].Pass? && t.calls[step.caller].listed == step.order)
      && (step.StartShutdown? ==> t.calls[step.caller].Shutdown? && t.calls[step.caller].streams == step.order)
  {
    hide Selects, Lists;
  }

  /** A call started at a reachable state, in the state some steps later. */
  lemma CallLater(info: Conn -> Admission, s: State, start: Step, steps: seq<Step>) returns (t: State)
    requires Invariant(info, s) && Enabled(info, s, start)
      && (start.StartClose? || start.StartPass? || start.StartShutdown?)
    requires Reached(info, After(info, s, start), steps).Some?
    ensures t == Reached(info, After(info, s, start), steps).value && start.caller in t.calls
    ensures var call := t.calls[start.caller];
      && CallRight(info, t, call)
      && (start.StartClose? ==> call.Close? && call.matching == start.order)
      && (start.StartPass? ==> call.Pass? && call.listed == start.order)
      && (start.StartShutdown? ==> call.Shutdown? && call.streams == start.order)
    ensures Invariant(info, t)
  {
    hide Enabled, After, Reached, CallRight, Booked, CountersRight;
    var u := After(info, s, start);
    t := Reached(info, u, steps).value;
    StartedCall(info, s, start);
    StepKeeps(info, s, start);
    RunKeeps(info, u, steps);
    RunKeepsCall(info, u, steps, start.caller);
    assert CallRight(info, t, t.calls[start.caller]);
  }

  /** When `close` returns, every connection that was tracked and matched when it took its snapshot
      is closing, whoever else was closing, re-checking or shutting down; and its answer is the
      number of distinct connections it closed itself, all of them for a revocation. */
  lemma CloseClosesAll(info: Conn -> Admission, s: State, p: Caller, subject: Option<string>, grant: Option<string>,
                       order: seq<Conn>, steps: seq<Step>)
    requires Invariant(info, s) && Enabled(info, s, StartClose(p, subject, grant, order))
    requires Reached(info, After(info, s, StartClose(p, subject, grant, order)), steps).Some?
    ensures var t := Reached(info, After(info, s, StartClose(p, subject, grant, order)), steps).value;
      && p in t.calls && t.calls[p].Close?
      && (t.calls[p].returned ==>
            && (forall c ::
                  && c in s.tracked && (subject.None? || info(c).subject == subject)
                  && (grant.None? || info(c).grant == grant) ==>
                    c in t.closedFor || c in t.ended)
            && t.calls[p].closed == |t.calls[p].mine|
            && (forall c :: c in t.calls[p].mine ==> c in t.closedFor && t.closedFor[c] == Revoked && c in order))
  {
    hide After, Reached, Invariant, Closing;
    var t := CallLater(info, s, StartClose(p, subject, grant, order), steps);
    if t.calls[p].returned {
      forall c | c in s.tracked && Selects(info(c), subject, grant) ensures c in t.closedFor || c in t.ended {
        assert c in Matching(info, s, subject, grant);
        var i :| 0 <= i < |order| && order[i] == c;
        ClosingIs(t, c);
      }
    }
  }

  lemma ClosingIs(s: State, c: Conn)
    ensures Closing(s, c) <==> c in s.closedFor || c in s.ended
  {
  }

  /** A pass is complete when every connection is looked at and every check over. */
  predicate PassComplete(call: Call) {
    && call.Pass? && call.looked == |call.listed|
    && forall c :: c in call.checks ==> call.checks[c].Admitted? || call.checks[c].Over?
  }

  /** When a pass completes uncancelled, every connection with a re-check that was tracked as it
      began is closing, or this pass asked it and its check answered None or True. */
  lemma PassClosesOrAdmits(info: Conn -> Admission, s: State, p: Caller, order: seq<Conn>, steps: seq<Step>)
    requires Invariant(info, s) && Enabled(info, s, StartPass(p, order))
    requires Reached(info, After(info, s, StartPass(p, order)), steps).Some?
    ensures var t := Reached(info, After(info, s, StartPass(p, order)), steps).value;
      && p in t.calls
      && (PassComplete(t.calls[p]) ==>
            forall c :: c in s.tracked && info(c).rechecked ==>
              Closing(t, c) || (c in t.calls[p].checks && t.calls[p].checks[c].Admitted?))
  {
    hide After, Reached, Invariant, Closing;
    var t := CallLater(info, s, StartPass(p, order), steps);
    if PassComplete(t.calls[p]) {
      forall c | c in s.tracked && info(c).rechecked
        ensures Closing(t, c) || (c in t.calls[p].checks && t.calls[p].checks[c].Admitted?)
      {
        var i :| 0 <= i < |order| && order[i] == c;
      }
    }
  }

  /** When `end_event_streams` is through, every events stream tracked as it began has ended. */
  lemma ShutdownEndsStreams(info: Conn -> Admission, s: State, p: Caller, order: seq<Conn>, steps: seq<Step>)
    requires Invariant(info, s) && Enabled(info, s, StartShutdown(p, order))
    requires Reached(info, After(info, s, StartShutdown(p, order)), steps).Some?
    ensures var t := Reached(info, After(info, s, StartShutdown(p, order)), steps).value;
      && p in t.calls && t.calls[p].Shutdown?
      && (t.calls[p].at == |t.calls[p].streams| ==>
            forall c :: c in s.tracked && info(c).kind == Events ==> Closing(t, c))
  {
    hide After, Reached, Invariant, Closing;
    var t := CallLater(info, s, StartShutdown(p, order), steps);
    if t.calls[p].at == |t.calls[p].streams| {
      forall c | c in s.tracked && info(c).kind == Events ensures Closing(t, c) {
        assert c in Streams(info, s);
        var i :| 0 <= i < |order| && order[i] == c;
      }
    }
  }
}
