/** The thread supervisor: a tri-state status, the registry of threads and
    the queue of threads that have finished and wait to be joined.

    The registry is an arena of stable integer ids (std::list iterators in
    the source): erase-by-iterator becomes removal of a key. Threads run
    concurrently with the supervisor; here each thread's whole run is one
    step (RunWorker) whose interleaving with other threads is an input, and
    the retirements that happen while wait() polls are an input too.
    std::terminate is the verdict Terminate. */
module Supervision {
  import opened Log
  import opened Policy
  import opened Worker

  datatype Status = UNDEFINED | ACTIVE | INTERRUPTED

  /** Why the process is ended with std::terminate (or an exception escaping
      a thread, which has the same effect). */
  datatype Fatal =
    | AddWhileInterrupted
    | SchedulingRefused
    | ExceptionEscaped
    | DestroyedWhileActive
    | DestroyedWhileRunning

  datatype Verdict<T> = Proceed(value: T) | Terminate(cause: Fatal)

  /** wait() polls every 10 milliseconds. */
  const SLEEP_MS: nat := 10

  /** May wait() make poll number `counter` (from 0) within `waitMs`? */
  predicate PollAllowed(counter: nat, waitMs: nat)
  {
    counter * SLEEP_MS < waitMs
  }

  /** The number of polls wait(waitMs) makes at most: one for each started
      interval of SLEEP_MS. */
  function PollBudget(waitMs: nat): nat
  {
    if waitMs == 0 then 0
    else 1 + PollBudget(if waitMs < SLEEP_MS then 0 else waitMs - SLEEP_MS)
  }

  /** Poll number `counter` happens exactly when it is within the budget. */
  lemma {:induction false} PollBudgetExact(counter: nat, waitMs: nat)
    ensures PollAllowed(counter, waitMs) <==> counter < PollBudget(waitMs)
  {
    if waitMs > 0 && counter > 0 {
      PollBudgetExact(counter - 1, if waitMs < SLEEP_MS then 0 else waitMs - SLEEP_MS);
    }
  }

  /** The budget is ceil(waitMs / 10). */
  lemma {:induction false} PollBudgetIsCeiling(waitMs: nat)
    ensures PollBudget(waitMs) == (waitMs + SLEEP_MS - 1) / SLEEP_MS
  {
    if waitMs >= SLEEP_MS {
      PollBudgetIsCeiling(waitMs - SLEEP_MS);
    }
  }

  function Elems(ids: seq<nat>): set<nat>
  {
    set id | id in ids
  }

  /** One poll of wait(): every queued thread is erased from the registry,
      and nothing else. */
  function Drain(threads: map<nat, Parameters>, queue: seq<nat>): (r: map<nat, Parameters>)
    ensures r.Keys == threads.Keys - Elems(queue)
    ensures forall id :: id in r ==> r[id] == threads[id]
  {
    threads - Elems(queue)
  }

  /** The threads that finish before poll number `c` of wait() (none past
      the end of `arrivals`). */
  function Batch(arrivals: seq<seq<nat>>, c: nat): seq<nat>
  {
    if c < |arrivals| then arrivals[c] else []
  }

  /** The threads that finish before the polls numbered below `polls`, in
      order. */
  function Flatten(arrivals: seq<seq<nat>>, polls: nat): seq<nat>
  {
    if polls == 0 then [] else Flatten(arrivals, polls - 1) + Batch(arrivals, polls - 1)
  }

  /** The registry after `polls` polls of wait(), starting from registry
      `threads0` and queue `terminated0`: each poll erases whatever is
      queued by then. */
  function Remaining(threads0: map<nat, Parameters>, terminated0: seq<nat>, arrivals: seq<seq<nat>>, polls: nat)
    : map<nat, Parameters>
  {
    if polls == 0 then threads0
    else Drain(Remaining(threads0, terminated0, arrivals, polls - 1),
               (if polls == 1 then terminated0 else []) + Batch(arrivals, polls - 1))
  }

  /** After at least one poll, exactly the initially queued threads and
      every thread that finished before a poll have been erased. */
  lemma {:induction false} RemainingErasesFinished(threads0: map<nat, Parameters>, terminated0: seq<nat>,
                                                   arrivals: seq<seq<nat>>, polls: nat)
    requires polls > 0
    ensures Remaining(threads0, terminated0, arrivals, polls) == threads0 - Elems(terminated0 + Flatten(arrivals, polls))
  {
    var batch := Batch(arrivals, polls - 1);
    if polls == 1 {
      assert Flatten(arrivals, 1) == batch;
    } else {
      RemainingErasesFinished(threads0, terminated0, arrivals, polls - 1);
      var before := terminated0 + Flatten(arrivals, polls - 1);
      assert terminated0 + Flatten(arrivals, polls) == before + batch;
      ElemsAppend(before, batch);
      assert [] + batch == batch;
      RemoveTwice(threads0, Elems(before), Elems(batch));
    }
  }

  /** Poll number `c` of wait() left the registry empty. */
  predicate Drained(threads0: map<nat, Parameters>, terminated0: seq<nat>, arrivals: seq<seq<nat>>, c: nat)
  {
    Remaining(threads0, terminated0, arrivals, c) == map[]
  }

  /** No thread appears twice in `arrivals`. */
  predicate Disjoint(arrivals: seq<seq<nat>>)
  {
    forall c, k, d, m ::
      && 0 <= c < |arrivals| && 0 <= k < |arrivals[c]|
      && 0 <= d < |arrivals| && 0 <= m < |arrivals[d]|
      && (c != d || k != m)
      ==> arrivals[c][k] != arrivals[d][m]
  }

  /** The batch of one poll has no duplicates. */
  lemma BatchDistinct(arrivals: seq<seq<nat>>, c: nat)
    requires Disjoint(arrivals)
    ensures var batch := Batch(arrivals, c);
      forall i, j :: 0 <= i < j < |batch| ==> batch[i] != batch[j]
  {
  }

  /** The thread in position `k` of the batch of poll `c`. */
  function Arrival(arrivals: seq<seq<nat>>, c: nat, k: nat): nat
    requires c < |arrivals| && k < |arrivals[c]|
  {
    arrivals[c][k]
  }

  /** The batches from poll number `from` on name threads that are
      registered and not queued, that is, still running. */
  predicate StillRunning(threads: map<nat, Parameters>, terminated: seq<nat>, arrivals: seq<seq<nat>>, from: nat)
  {
    forall c: nat, k: nat :: from <= c < |arrivals| && k < |arrivals[c]| ==>
      Arrival(arrivals, c, k) in threads && Arrival(arrivals, c, k) !in terminated
  }

  /** Where wait() stands before poll number `counter`, for a registry and
      queue that started out as `threads0` and `terminated0`; wait() only
      polls again while threads remain, so no earlier poll emptied it. */
  predicate PolledUpTo(threads: map<nat, Parameters>, terminated: seq<nat>,
                       threads0: map<nat, Parameters>, terminated0: seq<nat>,
                       arrivals: seq<seq<nat>>, counter: nat)
  {
    && StillRunning(threads, terminated, arrivals, counter)
    && threads == Remaining(threads0, terminated0, arrivals, counter)
    && terminated == (if counter == 0 then terminated0 else [])
    && forall c :: 0 < c < counter ==> !Drained(threads0, terminated0, arrivals, c)
  }

  /** Once a poll has erased the queue and its batch, the later batches are
      still running. */
  lemma LaterArrivalsRunning(arrivals: seq<seq<nat>>, counter: nat, threads: map<nat, Parameters>,
                             terminated: seq<nat>, after: map<nat, Parameters>)
    requires Disjoint(arrivals) && StillRunning(threads, terminated, arrivals, counter)
    requires after == Drain(threads, terminated + Batch(arrivals, counter))
    ensures StillRunning(after, [], arrivals, counter + 1)
  {
  }

  lemma ElemsAppend(a: seq<nat>, b: seq<nat>)
    ensures Elems(a + b) == Elems(a) + Elems(b)
  {
  }

  /** Removing two sets of keys one after the other removes their union. */
  lemma RemoveTwice(m: map<nat, Parameters>, a: set<nat>, b: set<nat>)
    ensures (m - a) - b == m - (a + b)
  {
  }

  /** Does one of `ids` have the KILLALL termination policy? */
  predicate KillsAll(threads: map<nat, Parameters>, ids: seq<nat>)
  {
    exists k :: 0 <= k < |ids| && ids[k] in threads && threads[ids[k]].termination == KILLALL
  }

  /** Status step of add(): the check of isInterrupted() and the store of
      ACTIVE, made as one compare-and-swap. `interruptRaces` says that
      another thread's interrupt() lands between add's first look at the
      status and its store. */
  datatype Admission = Admission(status: Status, admitted: bool)

  function Admit(s: Status, interruptRaces: bool): (r: Admission)
    ensures r.admitted <==> s != INTERRUPTED && !interruptRaces
    ensures r.status == INTERRUPTED <==> (s == INTERRUPTED || interruptRaces)
    ensures r.admitted ==> r.status == ACTIVE
  {
    if s == INTERRUPTED || interruptRaces then Admission(INTERRUPTED, false)
    else Admission(ACTIVE, true)
  }

  /** The status step of add() as the source writes it: isInterrupted() and
      the store of ACTIVE are two separate operations on the atomic, so an
      interrupt() that lands between them is overwritten by ACTIVE. */
  function AdmitAsWritten(s: Status, interruptRaces: bool): (r: Admission)
    ensures r.admitted <==> s != INTERRUPTED
    ensures r.status == if s == INTERRUPTED then INTERRUPTED else ACTIVE
  {
    if s == INTERRUPTED then Admission(INTERRUPTED, false)
    else
      // status is INTERRUPTED here when interruptRaces; the store overwrites it
      Admission(ACTIVE, true)
  }

  /** The discrepancy: under the source's add(), an interrupt() that lands
      while add() runs on a supervisor that is not yet interrupted (ACTIVE,
      or UNDEFINED before the first add) is undone, and threads polling
      isInterrupted() keep running; under Admit it never is. */
  lemma AsWrittenLosesInterrupt(s: Status)
    ensures s != INTERRUPTED ==> AdmitAsWritten(s, true) == Admission(ACTIVE, true)
    ensures s != INTERRUPTED ==> Admit(s, true) == Admission(INTERRUPTED, false)
  {
  }

  class Supervisor {
    var status: Status
    var threads: map<nat, Parameters>  // registry: id -> the thread's parameters
    var terminated: seq<nat>           // queue of finished threads to join
    var log: seq<Message>
    var nextId: nat

    /** Ids are fresh, and the queue holds registered threads, each once. */
    ghost predicate Valid()
      reads this`threads, this`terminated, this`status, this`nextId
    {
      && (forall id :: id in threads ==> id < nextId)
      && (forall i, j :: 0 <= i < j < |terminated| ==> terminated[i] != terminated[j])
      && (forall i :: 0 <= i < |terminated| ==> terminated[i] in threads)
      && (status == UNDEFINED ==> threads == map[])
    }

    /** A registered thread that has not queued itself yet is still running. */
    predicate IsRunning(id: nat)
      reads this`threads, this`terminated
    {
      id in threads && id !in terminated
    }

    constructor ()
      ensures Valid()
      ensures status == UNDEFINED && threads == map[] && terminated == [] && log == [] && nextId == 0
    {
      status := UNDEFINED;
      threads := map[];
      terminated := [];
      log := [];
      nextId := 0;
    }

    function IsInterrupted(): (interrupted: bool)
      reads this
      ensures interrupted <==> status == INTERRUPTED
    {
      status == INTERRUPTED
    }

    function Empty(): (empty: bool)
      reads this
      ensures empty <==> threads == map[]
    {
      |threads| == 0
    }

    /** Idempotent: every call leaves the status INTERRUPTED and changes
        nothing else. */
    method Interrupt()
      requires Valid()
      modifies this`status
      ensures Valid() && status == INTERRUPTED
    {
      status := INTERRUPTED;
    }

    /** add(): fatal on an interrupted supervisor; otherwise marks the
        supervisor ACTIVE, registers a new thread under a fresh id and starts
        it, applying its scheduling hint. `setSchedParamResult` is what
        pthread_setschedparam returns for custom scheduling. */
    method Add(p: Parameters, setSchedParamResult: int, interruptRaces: bool) returns (v: Verdict<nat>)
      requires Valid()
      modifies this
      ensures Valid()
      ensures status == Admit(old(status), interruptRaces).status
      ensures old(IsInterrupted()) ==> IsInterrupted()
      ensures terminated == old(terminated)
      ensures !Admit(old(status), interruptRaces).admitted ==>
        && v == Terminate(AddWhileInterrupted)
        && threads == old(threads) && nextId == old(nextId)
        && log == old(log) + [AddAfterInterrupt]
      ensures Admit(old(status), interruptRaces).admitted ==>
        && old(nextId) !in old(threads)
        && threads == old(threads)[old(nextId) := p] && nextId == old(nextId) + 1
        && log == old(log) + (if p.scheduling.Apply(setSchedParamResult) then [] else [SchedulingFailed])
        && v == if p.scheduling.Apply(setSchedParamResult) || p.scheduling.ignoreFailures
                then Proceed(old(nextId)) else Terminate(SchedulingRefused)
    {
      var admission := Admit(status, interruptRaces);
      status := admission.status;
      if !admission.admitted {
        log := log + [AddAfterInterrupt];
        v := Terminate(AddWhileInterrupted);
        return;
      }
      var id := nextId;
      threads := threads[id := p];
      nextId := nextId + 1;
      // Thread::start: the thread runs, then its scheduling is configured
      v := Proceed(id);
      if !p.scheduling.Apply(setSchedParamResult) {
        log := log + [SchedulingFailed];
        if !p.scheduling.ignoreFailures {
          v := Terminate(SchedulingRefused);
        }
      }
    }

    /** drop(): a finished thread queues itself to be joined. */
    method Drop(id: nat)
      requires Valid() && IsRunning(id)
      modifies this`terminated
      ensures Valid() && terminated == old(terminated) + [id]
      ensures old(IsInterrupted()) ==> IsInterrupted()
    {
      terminated := terminated + [id];
    }

    /** The termination step of a thread's run: KILLALL interrupts the whole
        supervisor first; either policy then queues the thread itself, once,
        and never joins it. */
    method Retire(id: nat)
      requires Valid() && IsRunning(id)
      modifies this
      ensures Valid()
      ensures status == if old(threads)[id].termination == KILLALL then INTERRUPTED else old(status)
      ensures old(IsInterrupted()) ==> IsInterrupted()
      ensures terminated == old(terminated) + [id]
      ensures threads == old(threads) && log == old(log) && nextId == old(nextId)
    {
      match threads[id].termination
      case KILLALL =>
        Interrupt();
        Drop(id);
      case IGNORE =>
        Drop(id);
    }

    /** The whole run of thread `id` (startThread): its attempts, where
        `env` are the interrupts by other threads and `outcome` what its
        function does, followed by the termination step unless an exception
        escaped. The thread never erases itself from the registry. */
    method RunWorker(id: nat, env: seq<bool>, outcome: nat -> Outcome) returns (run: Run, v: Verdict<()>)
      requires Valid() && IsRunning(id)
      modifies this
      ensures Valid()
      ensures Ran(old(threads)[id], old(IsInterrupted()), env, outcome, run)
      ensures threads == old(threads) && nextId == old(nextId)
      ensures log == old(log) + Messages(run.events)
      ensures run.crashed ==> v == Terminate(ExceptionEscaped) && terminated == old(terminated)
      ensures !run.crashed ==> v == Proceed(()) && terminated == old(terminated) + [id]
      ensures status ==
        if run.sawInterrupt || (!run.crashed && old(threads)[id].termination == KILLALL)
        then INTERRUPTED else old(status)
      ensures old(IsInterrupted()) ==> IsInterrupted()
    {
      run := StartThread(threads[id], IsInterrupted(), env, outcome);
      log := log + Messages(run.events);
      if run.sawInterrupt {
        // what the thread saw was another thread's interrupt()
        Interrupt();
      }
      if run.crashed {
        v := Terminate(ExceptionEscaped);
        return;
      }
      Retire(id);
      v := Proceed(());
    }

    /** Threads that finish in one interval between polls queue themselves,
        one after another. */
    method RetireAll(ids: seq<nat>)
      requires Valid()
      requires forall k :: 0 <= k < |ids| ==> IsRunning(ids[k])
      requires forall i, j :: 0 <= i < j < |ids| ==> ids[i] != ids[j]
      modifies this
      ensures Valid()
      ensures terminated == old(terminated) + ids
      ensures threads == old(threads) && log == old(log) && nextId == old(nextId)
      ensures status == if KillsAll(old(threads), ids) then INTERRUPTED else old(status)
      ensures old(IsInterrupted()) ==> IsInterrupted()
    {
      var k := 0;
      while k < |ids|
        invariant 0 <= k <= |ids|
        invariant Valid()
        invariant terminated == old(terminated) + ids[..k]
        invariant threads == old(threads) && log == old(log) && nextId == old(nextId)
        invariant status == if KillsAll(old(threads), ids[..k]) then INTERRUPTED else old(status)
      {
        assert IsRunning(ids[k]) by {
          assert ids[k] !in ids[..k];
          assert ids[k] !in old(terminated);
        }
        Retire(ids[k]);
        assert ids[..k + 1] == ids[..k] + [ids[k]];
        assert KillsAll(old(threads), ids[..k + 1]) <==>
          KillsAll(old(threads), ids[..k]) || old(threads)[ids[k]].termination == KILLALL;
        k := k + 1;
      }
      assert ids[..k] == ids;
    }

    /** One poll of wait(): the threads `batch` finish and queue themselves,
        then every queued thread is joined and erased and the queue emptied. */
    method Poll(batch: seq<nat>)
      requires Valid()
      requires forall k :: 0 <= k < |batch| ==> IsRunning(batch[k])
      requires forall i, j :: 0 <= i < j < |batch| ==> batch[i] != batch[j]
      modifies this
      ensures Valid()
      ensures threads == Drain(old(threads), old(terminated) + batch) && terminated == []
      ensures log == old(log) && nextId == old(nextId)
      ensures status == old(status) || status == INTERRUPTED
      ensures old(IsInterrupted()) ==> IsInterrupted()
    {
      RetireAll(batch);
      threads := Drain(threads, terminated);
      terminated := [];
    }

    /** Poll number `counter` of wait(), with its batch of retirements. */
    method PollNext(ghost threads0: map<nat, Parameters>, ghost terminated0: seq<nat>,
                    arrivals: seq<seq<nat>>, counter: nat)
      requires Valid() && Disjoint(arrivals)
      requires PolledUpTo(threads, terminated, threads0, terminated0, arrivals, counter)
      requires counter > 0 ==> threads != map[]
      modifies this
      ensures Valid() && PolledUpTo(threads, terminated, threads0, terminated0, arrivals, counter + 1)
      ensures log == old(log) && nextId == old(nextId)
      ensures status == old(status) || status == INTERRUPTED
    {
      var batch := Batch(arrivals, counter);
      BatchDistinct(arrivals, counter);
      assert forall k :: 0 <= k < |batch| ==> batch[k] == Arrival(arrivals, counter, k);
      Poll(batch);
      LaterArrivalsRunning(arrivals, counter, old(threads), old(terminated), threads);
    }

    /** wait(waitMs): at most ceil(waitMs / 10) polls; each joins and erases
        every queued thread and empties the queue, and the first poll after
        which the registry is empty returns true. When the budget is spent,
        a timeout is logged and false returned, with the remaining threads
        still registered. `arrivals[c]` are the threads that finish before
        poll c; each must be running and none may finish twice. */
    method Wait(waitMs: nat, arrivals: seq<seq<nat>>) returns (ok: bool, ghost polls: nat)
      requires Valid() && Disjoint(arrivals) && StillRunning(threads, terminated, arrivals, 0)
      modifies this
      ensures Valid()
      ensures polls <= PollBudget(waitMs)
      ensures PolledUpTo(threads, terminated, old(threads), old(terminated), arrivals, polls)
      ensures forall c :: 0 < c < polls ==> !Drained(old(threads), old(terminated), arrivals, c)
      ensures ok ==> polls > 0 && threads == map[] && log == old(log)
      ensures !ok ==> polls == PollBudget(waitMs) && log == old(log) + [DrainTimeout]
      ensures !ok && polls > 0 ==> threads != map[]
      ensures nextId == old(nextId)
      ensures status == old(status) || status == INTERRUPTED
      ensures old(IsInterrupted()) ==> IsInterrupted()
    {
      var counter: nat := 0;
      polls := 0;
      while true
        invariant Valid()
        invariant polls == counter <= PollBudget(waitMs)
        invariant PolledUpTo(threads, terminated, old(threads), old(terminated), arrivals, counter)
        invariant counter > 0 ==> threads != map[]
        invariant log == old(log) && nextId == old(nextId)
        invariant status == old(status) || status == INTERRUPTED
        decreases PollBudget(waitMs) - counter
      {
        PollBudgetExact(counter, waitMs);
        if !PollAllowed(counter, waitMs) {
          log := log + [DrainTimeout];
          return false, counter;
        }
        PollNext(old(threads), old(terminated), arrivals, counter);
        counter := counter + 1;
        polls := counter;
        if Empty() {
          return true, counter;
        }
        // sleep SLEEP_MS, then poll again
      }
    }

    /** stop(waitMs): interrupt, then wait. */
    method Stop(waitMs: nat, arrivals: seq<seq<nat>>) returns (ok: bool, ghost polls: nat)
      requires Valid() && Disjoint(arrivals) && StillRunning(threads, terminated, arrivals, 0)
      modifies this
      ensures Valid() && status == INTERRUPTED && IsInterrupted()
      ensures polls <= PollBudget(waitMs)
      ensures PolledUpTo(threads, terminated, old(threads), old(terminated), arrivals, polls)
      ensures forall c :: 0 < c < polls ==> !Drained(old(threads), old(terminated), arrivals, c)
      ensures ok ==> polls > 0 && threads == map[] && log == old(log)
      ensures !ok ==> polls == PollBudget(waitMs) && log == old(log) + [DrainTimeout]
      ensures !ok && polls > 0 ==> threads != map[]
      ensures nextId == old(nextId)
    {
      Interrupt();
      ok, polls := Wait(waitMs, arrivals);
    }

    /** The destructor's checks: destroying an ACTIVE supervisor, or one with
        threads still registered, is fatal. */
    method Destroy() returns (v: Verdict<()>)
      requires Valid()
      modifies this`log
      ensures v == Proceed(()) <==> status != ACTIVE && threads == map[]
      ensures status == ACTIVE ==>
        v == Terminate(DestroyedWhileActive) && log == old(log) + [DestroyedActive]
      ensures status != ACTIVE && threads != map[] ==>
        v == Terminate(DestroyedWhileRunning) && log == old(log) + [DestroyedWithThreads]
      ensures v.Proceed? ==> log == old(log)
    {
      if status == ACTIVE {
        log := log + [DestroyedActive];
        return Terminate(DestroyedWhileActive);
      }
      if !Empty() {
        log := log + [DestroyedWithThreads];
        return Terminate(DestroyedWhileRunning);
      }
      v := Proceed(());
    }
  }

  /** A supervisor drained by at least one poll of stop() whose registry
      held only queued threads is empty afterwards. */
  lemma DrainedByFirstPoll(threads0: map<nat, Parameters>, terminated0: seq<nat>, polls: nat)
    requires polls > 0 && threads0.Keys <= Elems(terminated0)
    ensures Remaining(threads0, terminated0, [], polls) == map[]
  {
    RemainingErasesFinished(threads0, terminated0, [], polls);
    ElemsAppend(terminated0, Flatten([], polls));
  }

  /** The destructor of a supervisor whose registered threads have all
      queued themselves: stop() with its default of 10000 ms drains the
      registry at its first poll, so the destructor passes. */
  method ShutDown(s: Supervisor) returns (stopped: bool, destroyed: Verdict<()>)
    requires s.Valid() && s.threads.Keys <= Elems(s.terminated)
    modifies s
    ensures stopped && destroyed == Proceed(())
  {
    ghost var polls;
    stopped, polls := s.Stop(10000, []);
    assert polls > 0;
    DrainedByFirstPoll(old(s.threads), old(s.terminated), polls);
    destroyed := s.Destroy();
  }

  /** The repository's counting scenario: a thread with Restart(10, 5) and
      the IGNORE policy whose function only counts, with no interrupt before
      the supervisor is shut down. The function is invoked exactly 10 times,
      the supervisor is not interrupted by it, and the shutdown passes. */
  method CountScenario(strict: bool, env: seq<bool>)
    returns (invocations: seq<nat>, interrupted: bool, stopped: bool, destroyed: Verdict<()>)
    requires |env| >= 19 && forall j :: 0 <= j < |env| ==> !env[j]
    ensures invocations == Range(10)
    ensures !interrupted && stopped && destroyed == Proceed(())
  {
    var s := new Supervisor();
    var p := Make([RestartSetting(Restart(10, 5)), TerminationSetting(IGNORE)], strict);
    assert Make([TerminationSetting(IGNORE)], strict) == Defaults(strict).(termination := IGNORE);
    assert p.restart == Restart(10, 5) && p.termination == IGNORE && p.scheduling == DefaultScheduling();
    var counter: nat -> Outcome := _ => Returns;
    var added := s.Add(p, 0, false);
    assert added == Proceed(0) && s.threads == map[0 := p] && s.terminated == [] && s.status == ACTIVE;
    var run, verdict := s.RunWorker(0, env, counter);
    CountWithoutInterrupt(p, env, counter, run);
    assert s.status == ACTIVE && s.threads == map[0 := p] && s.terminated == [0];
    invocations := Invocations(run.events);
    interrupted := s.IsInterrupted();
    stopped, destroyed := ShutDown(s);
  }

  /** Two threads are added: one with the KILLALL policy and a single
      attempt, and one with default parameters. The first runs, ends, and
      interrupts the whole supervisor; the second, whose run comes
      afterwards, invokes nothing, and the shutdown passes. */
  method KillAllScenario(strict: bool, env: seq<bool>, outcome: nat -> Outcome)
    returns (invocations: seq<nat>, interrupted: bool, stopped: bool, destroyed: Verdict<()>)
    requires !Escapes(CATCH, outcome(0))
    ensures invocations == [] && interrupted
    ensures stopped && destroyed == Proceed(())
  {
    var s := new Supervisor();
    var killer := Make([RestartSetting(Restart(1, 0)), TerminationSetting(KILLALL), ExceptionSetting(CATCH)], strict);
    assert Make([ExceptionSetting(CATCH)], strict) == Defaults(strict).(exception := CATCH);
    assert Make([TerminationSetting(KILLALL), ExceptionSetting(CATCH)], strict)
        == Defaults(strict).(exception := CATCH, termination := KILLALL);
    assert killer == Parameters(Restart(1, 0), DefaultScheduling(), KILLALL, CATCH);
    var other := Defaults(strict);
    var first := s.Add(killer, 0, false);
    assert first == Proceed(0) && s.threads == map[0 := killer] && s.terminated == [];
    var second := s.Add(other, 0, false);
    assert second == Proceed(1) && s.threads == map[0 := killer, 1 := other] && s.terminated == [];
    var run, verdict := s.RunWorker(0, [], outcome);
    assert !run.crashed;
    assert s.status == INTERRUPTED && s.terminated == [0];
    interrupted := s.IsInterrupted();
    run, verdict := s.RunWorker(1, env, outcome);
    InterruptedAtStart(other, env, outcome, run);
    assert !run.crashed && s.terminated == [0, 1];
    invocations := Invocations(run.events);
    stopped, destroyed := ShutDown(s);
  }

  /** A supervisor that never had a thread added can be destroyed. */
  method NeverUsedScenario() returns (destroyed: Verdict<()>)
    ensures destroyed == Proceed(())
  {
    var s := new Supervisor();
    destroyed := s.Destroy();
  }

  /** Destroying a supervisor after add() and without stop() is fatal. */
  method NotStoppedScenario(p: Parameters) returns (destroyed: Verdict<()>)
    requires p.scheduling.Apply(0)
    ensures destroyed == Terminate(DestroyedWhileActive)
  {
    var s := new Supervisor();
    var added := s.Add(p, 0, false);
    assert s.status == ACTIVE;
    destroyed := s.Destroy();
  }

  /** stop(0) makes no poll at all, so it reports failure even on an empty
      supervisor. */
  method StopZeroScenario() returns (stopped: bool)
    ensures !stopped
  {
    var s := new Supervisor();
    ghost var polls;
    stopped, polls := s.Stop(0, []);
  }
}
