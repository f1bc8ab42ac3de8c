/** The run protocol of one supervised thread (class Thread): one invocation
    of the thread's function under the exception policy (startOnce), the
    restart loop (startLoop), and the choice between them (startThread).

    The thread's function is abstract: `outcome(a)` says whether invocation
    number `a` returns, throws a std::exception, or throws something else.
    Interruption is an environment input: `env[j]` tells whether some thread
    has called interrupt() before the j-th isInterrupted() check of this
    thread, and checks past the end of `env` see the interrupt (every
    schedule ends in a stop(), which the supervisor's destructor demands).
    The supervisor's status is sticky, so once a check sees the interrupt
    every later one does too; `interrupted0` is the status when the thread
    starts. */
module Worker {
  import opened Log
  import opened Policy

  datatype Outcome = Returns | ThrowsStd(what: string) | ThrowsOther

  /** What a thread does that an observer can see: invoke its function, or
      write a log line. */
  datatype Event = Invoked(attempt: nat) | Logged(message: Message)

  /** Result of one startOnce: its events, and whether an exception escaped
      (which ends the process). */
  datatype Once = Once(events: seq<Event>, crashed: bool)

  /** Result of a thread's run before its termination step: the events, the
      number of invocations, whether an exception escaped, and whether the
      run ended because it saw the interrupt. */
  datatype Run = Run(events: seq<Event>, attempts: nat, crashed: bool, sawInterrupt: bool)

  /** The attempt numbers of the invocations in `events`, in order. */
  function Invocations(events: seq<Event>): seq<nat>
  {
    if events == [] then []
    else (if events[0].Invoked? then [events[0].attempt] else []) + Invocations(events[1..])
  }

  /** The log lines in `events`, in order. */
  function Messages(events: seq<Event>): seq<Message>
  {
    if events == [] then []
    else (if events[0].Logged? then [events[0].message] else []) + Messages(events[1..])
  }

  function Range(n: nat): seq<nat>
  {
    seq(n, i => i)
  }

  /** Does outcome `o` escape startOnce under policy `ep`? Under CATCH only
      std::exception is caught. */
  predicate Escapes(ep: ExceptionPolicy, o: Outcome)
  {
    o.ThrowsOther? || (o.ThrowsStd? && ep == PASS)
  }

  /** startOnce: invoke the function once; under CATCH a std::exception is
      reported and the attempt ends normally. */
  function StartOnce(ep: ExceptionPolicy, attempt: nat, o: Outcome): (r: Once)
    ensures |r.events| > 0 && r.events[0] == Invoked(attempt)
    ensures r.crashed <==> Escapes(ep, o)
  {
    match ep
    case PASS => Once([Invoked(attempt)], !o.Returns?)
    case CATCH =>
      match o
      case Returns => Once([Invoked(attempt)], false)
      case ThrowsStd(what) => Once([Invoked(attempt), Logged(InterceptedException(what))], false)
      case ThrowsOther => Once([Invoked(attempt)], true)
  }

  /** startOnce invokes the function exactly once, and writes one log line
      exactly when it catches a std::exception, carrying its what(). */
  lemma StartOnceReports(ep: ExceptionPolicy, attempt: nat, o: Outcome)
    ensures Invocations(StartOnce(ep, attempt, o).events) == [attempt]
    ensures Messages(StartOnce(ep, attempt, o).events) ==
      if ep == CATCH && o.ThrowsStd? then [InterceptedException(o.what)] else []
  {
    var events := StartOnce(ep, attempt, o).events;
    if ep == CATCH && o.ThrowsStd? {
      var report := Logged(InterceptedException(o.what));
      assert events[1..] == [report] && [report][1..] == [];
      assert Invocations([report]) == [] && Messages([report]) == [report.message];
    }
  }

  /** Does the j-th isInterrupted() check see the interrupt requested by
      another thread? */
  predicate Seen(env: seq<bool>, j: nat)
  {
    j >= |env| || env[j]
  }

  /** Do the first `checks` isInterrupted() checks all answer "not
      interrupted"? */
  predicate Clear(interrupted0: bool, env: seq<bool>, checks: nat)
  {
    !interrupted0 && (checks == 0 || (Clear(interrupted0, env, checks - 1) && !Seen(env, checks - 1)))
  }

  /** Condition for attempt `a` of the restart loop to invoke the function:
      the restart policy allows it, every check made so far answered "not
      interrupted", and the previous attempt ran and let no exception
      escape. Attempt 0 is preceded by one check (number 0); attempt a >= 1
      by the loop check 2a-1 and the check after the delay, 2a. */
  predicate Runs(p: Parameters, interrupted0: bool, env: seq<bool>, outcome: nat -> Outcome, a: nat)
  {
    && p.restart.IsOk(a)
    && Clear(interrupted0, env, 2 * a + 1)
    && (a == 0 || (Runs(p, interrupted0, env, outcome, a - 1) && !Escapes(p.exception, outcome(a - 1))))
  }

  /** The events of attempt `a`: a restart notice (not for the first
      attempt), then the events of startOnce. */
  function Attempt(p: Parameters, outcome: nat -> Outcome, a: nat): seq<Event>
  {
    (if a == 0 then [] else [Logged(Restarting(a + 1, p.restart.Limit()))])
    + StartOnce(p.exception, a, outcome(a)).events
  }

  /** The events of the first `n` attempts. */
  function Trace(p: Parameters, outcome: nat -> Outcome, n: nat): seq<Event>
  {
    if n == 0 then [] else Trace(p, outcome, n - 1) + Attempt(p, outcome, n - 1)
  }

  /** What the restart loop does: exactly the attempts that Runs allows, up to
      the first one it does not, with the events of Trace. */
  predicate LoopRan(p: Parameters, interrupted0: bool, env: seq<bool>, outcome: nat -> Outcome, run: Run)
  {
    && run.events == Trace(p, outcome, run.attempts)
    && (run.attempts == 0 || Runs(p, interrupted0, env, outcome, run.attempts - 1))
    && !Runs(p, interrupted0, env, outcome, run.attempts)
    && (run.crashed <==> run.attempts > 0 && Escapes(p.exception, outcome(run.attempts - 1)))
    && (run.sawInterrupt <==> !run.crashed && p.restart.IsOk(run.attempts))
  }

  /** What startThread does before its termination step: the restart loop
      when restarting is enabled, otherwise exactly one startOnce with no
      interruption check at all. */
  predicate Ran(p: Parameters, interrupted0: bool, env: seq<bool>, outcome: nat -> Outcome, run: Run)
  {
    if p.restart.IsEnabled() then LoopRan(p, interrupted0, env, outcome, run)
    else
      && run.attempts == 1
      && run.events == Trace(p, outcome, 1)
      && (run.crashed <==> Escapes(p.exception, outcome(0)))
      && !run.sawInterrupt
  }

  /** An attempt whose preceding checks include one that saw the interrupt
      does not run. */
  lemma StopsWhenInterrupted(p: Parameters, interrupted0: bool, env: seq<bool>, outcome: nat -> Outcome,
                             a: nat, checks: nat)
    requires checks <= 2 * a + 1
    ensures Runs(p, interrupted0, env, outcome, a) ==> Clear(interrupted0, env, checks)
  {
    if Runs(p, interrupted0, env, outcome, a) {
      ClearPrefix(interrupted0, env, checks, 2 * a + 1);
    }
  }

  /** Trace grows by one attempt: its notice, then startOnce's events. */
  lemma TraceNext(p: Parameters, outcome: nat -> Outcome, a: nat)
    ensures Trace(p, outcome, a + 1) ==
      Trace(p, outcome, a)
      + (if a == 0 then [] else [Logged(Restarting(a + 1, p.restart.Limit()))])
      + StartOnce(p.exception, a, outcome(a)).events
  {
  }

  /** One isInterrupted() call, the `checks`-th: the status is sticky, so
      once an interrupt is seen every later check sees it too. */
  method Check(interrupted0: bool, env: seq<bool>, interrupted: bool, checks: nat)
    returns (interruptedNow: bool, checksNow: nat)
    requires interrupted <==> !Clear(interrupted0, env, checks)
    ensures checksNow == checks + 1
    ensures interruptedNow <==> !Clear(interrupted0, env, checksNow)
    ensures interrupted ==> interruptedNow
  {
    interruptedNow := interrupted || Seen(env, checks);
    checksNow := checks + 1;
  }

  /** startLoop's state before attempt `attempt`: `checks` isInterrupted()
      calls made, `interrupted` what the last one answered, and `events` the
      trace of the earlier attempts, all of which ran to completion. */
  predicate Before(p: Parameters, interrupted0: bool, env: seq<bool>, outcome: nat -> Outcome,
                   attempt: nat, checks: nat, interrupted: bool, events: seq<Event>)
  {
    && checks == (if attempt == 0 then 0 else 2 * attempt - 1)
    && (interrupted <==> !Clear(interrupted0, env, checks))
    && (attempt > 0 ==>
          && !interrupted
          && Runs(p, interrupted0, env, outcome, attempt - 1)
          && !Escapes(p.exception, outcome(attempt - 1)))
    && events == Trace(p, outcome, attempt)
  }

  /** The interruption checks before attempt `attempt`: the loop
      condition's, and after the first attempt the delay and the check that
      follows it. The attempt goes ahead exactly when Runs allows it; it then
      has made checks 0 .. 2 * attempt, all clear. */
  method Gate(p: Parameters, interrupted0: bool, env: seq<bool>, outcome: nat -> Outcome,
              attempt: nat, started: bool, checks: nat, interrupted: bool)
    returns (go: bool, checksNow: nat, interruptedNow: bool)
    requires checks == (if attempt == 0 then 0 else 2 * attempt - 1)
    requires interrupted <==> !Clear(interrupted0, env, checks)
    requires started <==> attempt > 0
    requires attempt > 0 ==>
      && !interrupted
      && Runs(p, interrupted0, env, outcome, attempt - 1)
      && !Escapes(p.exception, outcome(attempt - 1))
    ensures go <==> Runs(p, interrupted0, env, outcome, attempt)
    ensures go ==> checksNow == 2 * attempt + 1 && checks < checksNow <= |env|
    ensures go ==> !interruptedNow && Clear(interrupted0, env, checksNow)
  {
    checksNow, interruptedNow := checks, interrupted;
    if !p.restart.IsOk(attempt) {
      return false, checksNow, interruptedNow;
    }
    interruptedNow, checksNow := Check(interrupted0, env, interruptedNow, checksNow);
    if interruptedNow {
      StopsWhenInterrupted(p, interrupted0, env, outcome, attempt, checksNow);
      return false, checksNow, interruptedNow;
    }
    if started {
      // restart_.wait(): the delay itself is not modelled
      interruptedNow, checksNow := Check(interrupted0, env, interruptedNow, checksNow);
      if interruptedNow {
        StopsWhenInterrupted(p, interrupted0, env, outcome, attempt, checksNow);
        return false, checksNow, interruptedNow;
      }
    }
    assert checksNow == 2 * attempt + 1;
    ClearIffNoneSeen(interrupted0, env, checksNow);
    go := true;
  }

  /** The body of attempt `attempt` once the checks let it go ahead: the
      restart notice (after the first attempt), then startOnce. */
  method Perform(p: Parameters, outcome: nat -> Outcome, attempt: nat, started: bool, events: seq<Event>)
    returns (crashed: bool, eventsNow: seq<Event>)
    requires started <==> attempt > 0
    requires events == Trace(p, outcome, attempt)
    ensures crashed <==> Escapes(p.exception, outcome(attempt))
    ensures eventsNow == Trace(p, outcome, attempt + 1)
  {
    eventsNow := events;
    if started {
      eventsNow := eventsNow + [Logged(Restarting(attempt + 1, p.restart.Limit()))];
    }
    var once := StartOnce(p.exception, attempt, outcome(attempt));
    TraceNext(p, outcome, attempt);
    if attempt == 0 {
      assert eventsNow + [] == eventsNow;
    }
    eventsNow := eventsNow + once.events;
    crashed := once.crashed;
  }

  /** One iteration of startLoop's for loop: the checks, then the attempt.
      Either the loop ends with `run`, or it goes on to the next attempt with
      more checks made. */
  method Iteration(p: Parameters, interrupted0: bool, env: seq<bool>, outcome: nat -> Outcome,
                   attempt: nat, started: bool, checks: nat, interrupted: bool, events: seq<Event>)
    returns (done: bool, run: Run, checksNow: nat, interruptedNow: bool, eventsNow: seq<Event>)
    requires Before(p, interrupted0, env, outcome, attempt, checks, interrupted, events)
    requires started <==> attempt > 0
    ensures done ==> LoopRan(p, interrupted0, env, outcome, run)
    ensures !done ==> checks < checksNow <= |env|
    ensures !done ==> Before(p, interrupted0, env, outcome, attempt + 1, checksNow, interruptedNow, eventsNow)
  {
    var go;
    go, checksNow, interruptedNow := Gate(p, interrupted0, env, outcome, attempt, started, checks, interrupted);
    if !go {
      Ended(p, interrupted0, env, outcome, attempt, false, events);
      done, run, eventsNow := true, Run(events, attempt, false, p.restart.IsOk(attempt)), events;
    } else {
      var crashed;
      crashed, eventsNow := Perform(p, outcome, attempt, started, events);
      if crashed {
        Ended(p, interrupted0, env, outcome, attempt + 1, true, eventsNow);
      } else {
        Advanced(p, interrupted0, env, outcome, attempt, checksNow, interruptedNow, eventsNow);
      }
      done, run := crashed, Run(eventsNow, attempt + 1, crashed, false);
    }
  }

  /** After an attempt that ran and let no exception escape, the loop is in
      the state before the next one. */
  lemma Advanced(p: Parameters, interrupted0: bool, env: seq<bool>, outcome: nat -> Outcome,
                 attempt: nat, checks: nat, interrupted: bool, events: seq<Event>)
    requires Runs(p, interrupted0, env, outcome, attempt) && !Escapes(p.exception, outcome(attempt))
    requires checks == 2 * attempt + 1 && !interrupted && Clear(interrupted0, env, checks)
    requires events == Trace(p, outcome, attempt + 1)
    ensures Before(p, interrupted0, env, outcome, attempt + 1, checks, interrupted, events)
  {
  }

  /** The loop ends after `n` attempts when attempt `n` does not run. */
  lemma Ended(p: Parameters, interrupted0: bool, env: seq<bool>, outcome: nat -> Outcome,
              n: nat, crashed: bool, events: seq<Event>)
    requires events == Trace(p, outcome, n)
    requires n == 0 || Runs(p, interrupted0, env, outcome, n - 1)
    requires !Runs(p, interrupted0, env, outcome, n)
    requires crashed <==> n > 0 && Escapes(p.exception, outcome(n - 1))
    ensures LoopRan(p, interrupted0, env, outcome, Run(events, n, crashed, !crashed && p.restart.IsOk(n)))
  {
  }

  /** startLoop: the for loop over `attempt` with the `started` flag. */
  method StartLoop(p: Parameters, interrupted0: bool, env: seq<bool>, outcome: nat -> Outcome)
    returns (run: Run)
    ensures LoopRan(p, interrupted0, env, outcome, run)
  {
    var events: seq<Event> := [];
    var started := false;
    var attempt: nat := 0;
    var checks: nat := 0;  // isInterrupted() calls made so far
    var interrupted := interrupted0;
    while true
      invariant Before(p, interrupted0, env, outcome, attempt, checks, interrupted, events)
      invariant started <==> attempt > 0
      decreases |env| - checks
    {
      var done, last, checksNow, interruptedNow, eventsNow :=
        Iteration(p, interrupted0, env, outcome, attempt, started, checks, interrupted, events);
      if done {
        return last;
      }
      checks, interrupted, events := checksNow, interruptedNow, eventsNow;
      started := true;
      attempt := attempt + 1;
    }
  }

  /** startThread up to its termination step. */
  method StartThread(p: Parameters, interrupted0: bool, env: seq<bool>, outcome: nat -> Outcome)
    returns (run: Run)
    ensures Ran(p, interrupted0, env, outcome, run)
  {
    if p.restart.IsEnabled() {
      run := StartLoop(p, interrupted0, env, outcome);
    } else {
      var once := StartOnce(p.exception, 0, outcome(0));
      run := Run(once.events, 1, once.crashed, false);
      assert Trace(p, outcome, 1) == [] + Attempt(p, outcome, 0) == once.events;
    }
  }

  /** The checks are clear exactly when the supervisor was not interrupted
      at the start and none of the first `checks` entries of `env`, all of
      which exist, is an interrupt. */
  lemma {:induction false} ClearIffNoneSeen(interrupted0: bool, env: seq<bool>, checks: nat)
    ensures Clear(interrupted0, env, checks) <==>
      !interrupted0 && checks <= |env| && forall j :: 0 <= j < checks ==> !env[j]
  {
    if checks > 0 {
      ClearIffNoneSeen(interrupted0, env, checks - 1);
    }
  }

  /** A clear run of checks has clear prefixes. */
  lemma {:induction false} ClearPrefix(interrupted0: bool, env: seq<bool>, m: nat, n: nat)
    requires m <= n && Clear(interrupted0, env, n)
    ensures Clear(interrupted0, env, m)
  {
    if m < n {
      ClearPrefix(interrupted0, env, m, n - 1);
    }
  }

  /** The attempts that run form a prefix: attempt b runs only if every
      earlier attempt ran. */
  lemma {:induction false} RunsPrefix(p: Parameters, interrupted0: bool, env: seq<bool>, outcome: nat -> Outcome, a: nat, b: nat)
    requires a <= b && Runs(p, interrupted0, env, outcome, b)
    ensures Runs(p, interrupted0, env, outcome, a)
  {
    if a < b {
      RunsPrefix(p, interrupted0, env, outcome, a, b - 1);
    }
  }

  lemma {:induction false} InvocationsAppend(s: seq<Event>, t: seq<Event>)
    ensures Invocations(s + t) == Invocations(s) + Invocations(t)
  {
    if s == [] {
      assert s + t == t;
    } else {
      assert (s + t)[0] == s[0] && (s + t)[1..] == s[1..] + t;
      InvocationsAppend(s[1..], t);
    }
  }

  /** The first n attempts invoke the function with attempt numbers
      0, 1, ..., n-1, once each and in order. */
  lemma {:induction false} TraceInvocations(p: Parameters, outcome: nat -> Outcome, n: nat)
    ensures Invocations(Trace(p, outcome, n)) == Range(n)
  {
    if n > 0 {
      var a := n - 1;
      TraceInvocations(p, outcome, a);
      AttemptInvocations(p, outcome, a);
      InvocationsAppend(Trace(p, outcome, a), Attempt(p, outcome, a));
      assert Range(n) == Range(a) + [a];
    }
  }

  /** Attempt `a` invokes the function once, as attempt `a`. */
  lemma AttemptInvocations(p: Parameters, outcome: nat -> Outcome, a: nat)
    ensures Invocations(Attempt(p, outcome, a)) == [a]
  {
    var once := StartOnce(p.exception, a, outcome(a)).events;
    var notice: seq<Event> := if a == 0 then [] else [Logged(Restarting(a + 1, p.restart.Limit()))];
    assert Invocations(notice) == [] by {
      if a > 0 {
        assert notice[1..] == [];
      }
    }
    StartOnceReports(p.exception, a, outcome(a));
    InvocationsAppend(notice, once);
  }

  predicate IsNotice(e: Event)
  {
    e.Logged? && e.message.Restarting?
  }

  /** Two consecutive events: an invocation after the first is preceded by
      its restart notice (carrying attempt + 1 and the limit), and a notice is
      followed by the invocation it announces. */
  predicate Adjacent(prev: Event, cur: Event, limit: nat)
  {
    && (cur.Invoked? && cur.attempt > 0 ==> prev == Logged(Restarting(cur.attempt + 1, limit)))
    && (IsNotice(prev) ==>
          cur.Invoked? && cur.attempt + 1 == prev.message.attempt && prev.message.limit == limit)
  }

  /** Every invocation after the first is immediately preceded by exactly one
      restart notice, and every notice is immediately followed by the
      invocation it announces. */
  predicate NoticesPaired(t: seq<Event>, limit: nat)
  {
    && (|t| > 0 ==> !(t[0].Invoked? && t[0].attempt > 0) && !IsNotice(t[|t| - 1]))
    && forall i, j {:trigger t[i], t[j]} :: 0 <= i < |t| && j == i + 1 && j < |t| ==> Adjacent(t[i], t[j], limit)
  }

  /** Paired sequences stay paired when concatenated. */
  lemma PairedAppend(s: seq<Event>, t: seq<Event>, limit: nat)
    requires NoticesPaired(s, limit) && NoticesPaired(t, limit)
    ensures NoticesPaired(s + t, limit)
  {
    var u := s + t;
    forall i, j | 0 <= i < |u| && j == i + 1 && j < |u|
      ensures Adjacent(u[i], u[j], limit)
    {
      if j < |s| {
        assert u[i] == s[i] && u[j] == s[j];
      } else if i >= |s| {
        assert u[i] == t[i - |s|] && u[j] == t[j - |s|];
      } else {
        assert u[i] == s[|s| - 1] && u[j] == t[0];
      }
    }
    if |u| > 0 {
      if |s| == 0 {
        assert u == t;
      } else if |t| == 0 {
        assert u == s;
      } else {
        assert u[0] == s[0] && u[|u| - 1] == t[|t| - 1];
      }
    }
  }

  /** Each attempt is paired on its own: its notice, if any, comes first and
      is followed by its invocation. */
  lemma AttemptPaired(p: Parameters, outcome: nat -> Outcome, a: nat)
    ensures NoticesPaired(Attempt(p, outcome, a), p.restart.attempts)
  {
    var limit := p.restart.attempts;
    var once := StartOnce(p.exception, a, outcome(a)).events;
    assert |once| <= 2 && once[0] == Invoked(a);
    assert |once| == 2 ==> once[1].Logged? && once[1].message.InterceptedException?;
    var notice: seq<Event> := if a == 0 then [] else [Logged(Restarting(a + 1, limit))];
    var t := Attempt(p, outcome, a);
    assert t == notice + once;
    forall i, j | 0 <= i < |t| && j == i + 1 && j < |t|
      ensures Adjacent(t[i], t[j], limit)
    {
      if a > 0 && i == 0 {
        assert t[i] == notice[0] && t[j] == Invoked(a);
      } else {
        assert t[i] == Invoked(a) && t[j] == once[1];
      }
    }
  }

  /** Restart notices in the loop: in the events of any number of attempts,
      every invocation after the first is immediately preceded by exactly
      one "restarting thread" line carrying attempt + 1 and the limit, and
      every such line is immediately followed by that invocation. */
  lemma {:induction false} TraceNoticesPaired(p: Parameters, outcome: nat -> Outcome, n: nat)
    ensures NoticesPaired(Trace(p, outcome, n), p.restart.attempts)
  {
    if n > 0 {
      TraceNoticesPaired(p, outcome, n - 1);
      AttemptPaired(p, outcome, n - 1);
      PairedAppend(Trace(p, outcome, n - 1), Attempt(p, outcome, n - 1), p.restart.attempts);
    }
  }

  /** A loop run is determined by the number of attempts that run. */
  lemma AttemptsDetermined(p: Parameters, interrupted0: bool, env: seq<bool>, outcome: nat -> Outcome, run: Run, n: nat)
    requires LoopRan(p, interrupted0, env, outcome, run)
    requires n == 0 || Runs(p, interrupted0, env, outcome, n - 1)
    requires !Runs(p, interrupted0, env, outcome, n)
    ensures run.attempts == n
  {
    if run.attempts < n {
      RunsPrefix(p, interrupted0, env, outcome, run.attempts, n - 1);
    } else if run.attempts > n {
      RunsPrefix(p, interrupted0, env, outcome, n, run.attempts - 1);
    }
  }

  /** Without an interrupt and without an escaping exception, every attempt
      the restart policy allows runs, as long as the checks are covered by
      `env`. */
  lemma {:induction false} RunsWithoutInterrupt(p: Parameters, env: seq<bool>, outcome: nat -> Outcome, a: nat)
    requires p.restart.IsOk(a) && 2 * a + 1 <= |env|
    requires forall j :: 0 <= j < |env| ==> !env[j]
    requires forall b :: 0 <= b < a ==> !Escapes(p.exception, outcome(b))
    ensures Runs(p, false, env, outcome, a)
  {
    ClearIffNoneSeen(false, env, 2 * a + 1);
    if a > 0 {
      RunsWithoutInterrupt(p, env, outcome, a - 1);
    }
  }

  /** Invocation count: with a limit of N attempts, no interrupt seen and no
      exception escaping, the function is invoked exactly N times, with
      attempt numbers 0 .. N-1, and the run does not end by interruption. */
  lemma CountWithoutInterrupt(p: Parameters, env: seq<bool>, outcome: nat -> Outcome, run: Run)
    requires !p.restart.IsUnlimited()
    requires |env| >= 2 * p.restart.attempts - 1
    requires forall j :: 0 <= j < |env| ==> !env[j]
    requires forall b :: 0 <= b < p.restart.attempts ==> !Escapes(p.exception, outcome(b))
    requires Ran(p, false, env, outcome, run)
    ensures run.attempts == p.restart.attempts
    ensures Invocations(run.events) == Range(p.restart.attempts)
    ensures !run.crashed && !run.sawInterrupt
  {
    var n := p.restart.attempts;
    if p.restart.IsEnabled() {
      RunsWithoutInterrupt(p, env, outcome, n - 1);
      AttemptsDetermined(p, false, env, outcome, run, n);
    }
    TraceInvocations(p, outcome, run.attempts);
  }

  /** A thread that starts on an interrupted supervisor invokes nothing,
      unless its limit is exactly one attempt: then startOnce runs without
      any interruption check. */
  lemma InterruptedAtStart(p: Parameters, env: seq<bool>, outcome: nat -> Outcome, run: Run)
    requires Ran(p, true, env, outcome, run)
    ensures Invocations(run.events) == if p.restart.attempts == 1 then [0] else []
  {
    if p.restart.IsEnabled() {
      AttemptsDetermined(p, true, env, outcome, run, 0);
    }
    TraceInvocations(p, outcome, run.attempts);
  }

  /** No invocation starts once a check has seen the interrupt: every invoked
      attempt was preceded only by checks that answered "not interrupted". */
  lemma InvokedOnlyWhileClear(p: Parameters, interrupted0: bool, env: seq<bool>, outcome: nat -> Outcome, run: Run, a: nat)
    requires p.restart.IsEnabled()
    requires Ran(p, interrupted0, env, outcome, run)
    requires a in Invocations(run.events)
    ensures Clear(interrupted0, env, 2 * a + 1)
  {
    TraceInvocations(p, outcome, run.attempts);
    RunsPrefix(p, interrupted0, env, outcome, a, run.attempts - 1);
  }

  /** An interrupt first seen by the check right after the delay of attempt
      n ends the loop with n invocations and without a restart notice for
      attempt n. */
  lemma InterruptAfterDelay(p: Parameters, interrupted0: bool, env: seq<bool>, outcome: nat -> Outcome, run: Run, n: nat)
    requires p.restart.IsEnabled() && n >= 1
    requires Runs(p, interrupted0, env, outcome, n - 1) && !Escapes(p.exception, outcome(n - 1))
    requires p.restart.IsOk(n) && !Clear(interrupted0, env, 2 * n + 1)
    requires Ran(p, interrupted0, env, outcome, run)
    ensures run.attempts == n && run.sawInterrupt
    ensures Logged(Restarting(n + 1, p.restart.attempts)) !in run.events
  {
    AttemptsDetermined(p, interrupted0, env, outcome, run, n);
    TraceInvocations(p, outcome, n);
    TraceNoticesPaired(p, outcome, n);
    if Logged(Restarting(n + 1, p.restart.attempts)) in run.events {
      var i :| 0 <= i < |run.events| && run.events[i] == Logged(Restarting(n + 1, p.restart.attempts));
      InvocationAt(run.events, i + 1);
    }
  }

  /** An invocation event's attempt number appears among the Invocations. */
  lemma {:induction false} InvocationAt(events: seq<Event>, i: nat)
    requires i < |events| && events[i].Invoked?
    ensures events[i].attempt in Invocations(events)
  {
    if i > 0 {
      InvocationAt(events[1..], i - 1);
    }
  }
}
