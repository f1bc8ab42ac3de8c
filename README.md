# thread_supervisor in Dafny

A model of `tut::thread::Supervisor`, the header-only C++ thread pool in
`include/thread_supervisor/supervisor.h`. It covers:

- the per-thread parameters;
- the run protocol of a supervised thread (startOnce / startLoop /
  startThread);
- the supervisor's bookkeeping: the status, the registry of threads, the
  queue of threads that finished, `add`, `interrupt`, `drop`, the drain
  loop of `wait`, `stop`, and the destructor's fatal checks.

The model is sequential. Interleavings with other threads are inputs:

- `env: seq<bool>` says, for each `isInterrupted()` check a thread makes,
  whether another thread has called `interrupt()` by then. Checks past the
  end of `env` see the interrupt.
- `arrivals: seq<seq<nat>>` says which threads finish before each poll of
  `wait`.

The thread's function is an abstract per-attempt `Outcome`: returns,
throws a `std::exception`, or throws something else. `std::terminate`
(and an exception escaping a thread) is the verdict `Terminate(cause)`.

Files:

- `log.dfy`: the log lines, one constructor per call site.
- `policy.dfy`: module `Policy`, pure:
  - `Restart`, `Scheduling`, `Parameters` and their defaults;
  - the delegating constructors as a fold of settings over the defaults.
- `worker.dfy`: module `Worker`:
  - startOnce as a function;
  - startLoop and startThread as methods;
  - the declarative specification they are proved against: `Runs`, the
    attempts that run, and `Trace`, the events they produce.
- `supervisor.dfy`: module `Supervision`:
  - class `Supervisor`, with fields `status`, `threads` (the registry, an
    arena of stable integer ids standing for `std::list` iterators),
    `terminated` (the queue), `log` and `nextId`;
  - the poll budget of `wait`;
  - scenarios that run the supervisor end to end.

## Model

| member | source | states |
|---|---|---|
| Policy.Restart.IsEnabled | include/thread_supervisor/supervisor.h:87-100 | the restart loop is used exactly when the attempt limit is not 1 |
| Policy.Restart.Limit | include/thread_supervisor/supervisor.h:255-259 | the limit printed in a restart notice (0 when unlimited) always equals `attempts_` |
| Policy.Restart.IsUnlimited | include/thread_supervisor/supervisor.h:87-90 | a restart policy is unlimited (`attempts_ == 0`) exactly when it allows every attempt number, as `UnlimitedIffEveryAttemptOk` proves |
| Policy.Restart.IsOk | include/thread_supervisor/supervisor.h:92-95 | with a limit N > 0 exactly the attempts below N are allowed (`LimitedAllowsExactly`), and with no limit every attempt is (`UnlimitedIffEveryAttemptOk`) |
| Policy.LimitedAllowsExactly | include/thread_supervisor/supervisor.h:87-95 | with a limit N > 0, attempt a is allowed iff a < N |
| Policy.UnlimitedIffEveryAttemptOk | include/thread_supervisor/supervisor.h:87-95 | `attempts_ == 0` iff every attempt number is allowed |
| Policy.Scheduling.IsCustom | include/thread_supervisor/supervisor.h:131 | a hint is custom exactly when it is not FIFO with priority 0; `Apply` consults the OS only for a custom hint, and the default hint is not custom (`DefaultSchedulingNeverFails`) |
| Policy.Scheduling.Apply | include/thread_supervisor/supervisor.h:129-142 | for the default hint (FIFO, priority 0) the result is true whatever the OS would answer, and for any other hint it is true exactly when pthread_setschedparam returns 0 |
| Policy.DefaultSchedulingNeverFails | include/thread_supervisor/supervisor.h:118-142 | the default scheduling hint is not custom and never fails, whatever the OS would answer |
| Policy.Defaults | include/thread_supervisor/supervisor.h:146-156 | defaults: unlimited restarts with no delay, FIFO/priority 0 ignoring failures, IGNORE/CATCH, or KILLALL/PASS in the strict build |
| Policy.Override | include/thread_supervisor/supervisor.h:160-186 | one delegating constructor body sets its own field to the given value and leaves every other field unchanged |
| Policy.Make | include/thread_supervisor/supervisor.h:160-188 | `Parameters(settings...)` gives each field the value of its leftmost setting (`LeftmostSettingWins`) and leaves every field no setting mentions at its default (`UnsetFieldKeepsDefault`) |
| Policy.LeftmostSettingWins | include/thread_supervisor/supervisor.h:160-188 | a field given several times in the constructor arguments takes the leftmost value |
| Policy.UnsetFieldKeepsDefault | include/thread_supervisor/supervisor.h:146-188 | a field no argument mentions keeps its default |
| Worker.StartOnce | include/thread_supervisor/supervisor.h:213-237 | one invocation first; an exception escapes iff it is not a std::exception, or the policy is PASS |
| Worker.StartOnceReports | include/thread_supervisor/supervisor.h:222-231 | startOnce invokes the function exactly once and logs one line, with `what()`, exactly when CATCH intercepts a std::exception |
| Worker.Check | include/thread_supervisor/supervisor.h:461-464 | an `isInterrupted()` call answers "interrupted" iff some check so far saw the interrupt; once true it stays true |
| Worker.Gate | include/thread_supervisor/supervisor.h:244-253 | the loop check and, after the first attempt, the post-delay check let attempt `attempt` go ahead exactly when `Runs` holds |
| Worker.Perform | include/thread_supervisor/supervisor.h:247-266 | an attempt that goes ahead appends its restart notice (not for the first) and startOnce's events, extending the trace by exactly one attempt |
| Worker.Iteration | include/thread_supervisor/supervisor.h:244-267 | one loop iteration either ends the loop in a state satisfying `LoopRan`, or reaches the state before the next attempt with more checks made |
| Worker.StartLoop | include/thread_supervisor/supervisor.h:240-268 | startLoop runs exactly the attempts `Runs` allows, stops at the first one it does not, and produces `Trace` of them |
| Worker.StartThread | include/thread_supervisor/supervisor.h:271-282 | startLoop when restarting is enabled, otherwise exactly one startOnce with no interruption check |
| Worker.StopsWhenInterrupted | include/thread_supervisor/supervisor.h:244-253 | an attempt preceded by a check that saw the interrupt does not run |
| Worker.ClearIffNoneSeen | include/thread_supervisor/supervisor.h:244-253 | the first k checks all answer "not interrupted" iff the supervisor was not interrupted at the start and none of the first k interrupt inputs is set |
| Worker.RunsPrefix | include/thread_supervisor/supervisor.h:244-245 | the attempts that run form a prefix of 0, 1, 2, ... |
| Worker.AttemptsDetermined | include/thread_supervisor/supervisor.h:244-245 | the number of attempts of a loop run is the first attempt that does not run |
| Worker.AttemptInvocations | include/thread_supervisor/supervisor.h:247-266 | attempt a invokes the function once, as attempt a |
| Worker.TraceInvocations | include/thread_supervisor/supervisor.h:244-266 | the first n attempts invoke the function with attempt numbers 0..n-1, once each, in order |
| Worker.AttemptPaired | include/thread_supervisor/supervisor.h:247-266 | within one attempt, the restart notice comes first and is followed by its invocation |
| Worker.TraceNoticesPaired | include/thread_supervisor/supervisor.h:247-266 | every invocation after the first is immediately preceded by exactly one notice carrying attempt + 1 and the limit, and every notice is immediately followed by that invocation |
| Worker.RunsWithoutInterrupt | include/thread_supervisor/supervisor.h:244-266 | with no interrupt and no escaping exception, every attempt the limit allows runs |
| Worker.CountWithoutInterrupt | include/thread_supervisor/supervisor.h:244-281 | with a limit of N, no interrupt and no escaping exception, the function is invoked exactly N times, numbered 0..N-1, and the run does not end by interruption |
| Worker.InterruptedAtStart | include/thread_supervisor/supervisor.h:274-281 | a thread started on an interrupted supervisor invokes nothing, unless its limit is exactly 1: then it invokes once without checking |
| Worker.InvokedOnlyWhileClear | include/thread_supervisor/supervisor.h:244-253 | every invoked attempt was preceded only by checks that answered "not interrupted" |
| Worker.InterruptAfterDelay | include/thread_supervisor/supervisor.h:247-259 | an interrupt first seen right after the delay of attempt n ends the loop with n invocations and without the notice for attempt n |
| Supervision.PollBudgetExact | include/thread_supervisor/supervisor.h:363-372 | poll number c of `wait(ms)` happens iff c is below the budget |
| Supervision.PollBudgetIsCeiling | include/thread_supervisor/supervisor.h:365-372 | the poll budget of `wait(ms)` is ceil(ms / 10) |
| Supervision.Drain | include/thread_supervisor/supervisor.h:377-382 | a poll erases exactly the queued threads from the registry and keeps every other entry unchanged |
| Supervision.RemainingErasesFinished | include/thread_supervisor/supervisor.h:370-389 | after at least one poll, the registry is the initial one minus the initially queued threads and every thread that finished before a poll |
| Supervision.Admit | include/thread_supervisor/supervisor.h:477-491 | corrected add(): admitted iff not interrupted (and no interrupt races it); the result is INTERRUPTED iff it was or an interrupt raced; admitted means ACTIVE |
| Supervision.AdmitAsWritten | include/thread_supervisor/supervisor.h:479-487 | add() as written: admitted iff the status read at line 479 is not INTERRUPTED; the resulting status is INTERRUPTED if that read saw INTERRUPTED and ACTIVE otherwise, whether or not an interrupt raced |
| Supervision.AsWrittenLosesInterrupt | include/thread_supervisor/supervisor.h:479-487 | for every status other than INTERRUPTED, UNDEFINED included, an interrupt landing between the check and the store is overwritten by ACTIVE as written, and kept by `Admit` |
| Supervision.Supervisor.constructor | include/thread_supervisor/supervisor.h:424-427 | a new supervisor is UNDEFINED, with an empty registry, queue and log |
| Supervision.Supervisor.IsInterrupted | include/thread_supervisor/supervisor.h:461-464 | true iff the status is INTERRUPTED; the clauses `old(IsInterrupted()) ==> IsInterrupted()` of Add, Drop, Retire, RunWorker, RetireAll, Poll and Wait, and Stop's `IsInterrupted()`, state that once interrupted the supervisor stays interrupted |
| Supervision.Supervisor.Interrupt | include/thread_supervisor/supervisor.h:454-457 | idempotent: leaves the status INTERRUPTED and changes nothing else |
| Supervision.Supervisor.Add | include/thread_supervisor/supervisor.h:476-491 | fatal and logged on an interrupted supervisor; otherwise ACTIVE and one new entry under a fresh id, existing entries unchanged, scheduling failure logged and fatal unless ignored; never moves INTERRUPTED back to ACTIVE |
| Supervision.Supervisor.Drop | include/thread_supervisor/supervisor.h:413-417 | appends the thread to the queue, and nothing else |
| Supervision.Supervisor.Retire | include/thread_supervisor/supervisor.h:284-298 | KILLALL interrupts the supervisor first; both policies queue the thread once and leave the registry unchanged |
| Supervision.Supervisor.RunWorker | include/thread_supervisor/supervisor.h:271-299 | a thread's run follows `Ran`; its log lines are appended; an escaping exception is fatal and skips the termination step; otherwise the thread queues itself exactly once and never leaves the registry by itself |
| Supervision.Supervisor.RetireAll | include/thread_supervisor/supervisor.h:284-298 | several threads finishing queue themselves in order; the status becomes INTERRUPTED iff one of them is KILLALL |
| Supervision.Supervisor.Poll | include/thread_supervisor/supervisor.h:374-383 | one poll: the arriving threads queue themselves, then every queued thread is erased and the queue emptied |
| Supervision.Supervisor.Wait | include/thread_supervisor/supervisor.h:363-403 | at most ceil(ms/10) polls, each erasing the queued threads; returns true after the first poll that leaves the registry `empty()`, every earlier poll having left threads registered; on timeout logs once, returns false and leaves the undrained threads registered; never clears an interrupt |
| Supervision.Supervisor.Stop | include/thread_supervisor/supervisor.h:467-472 | interrupt, then wait: the status ends INTERRUPTED, no id is handed out, and draining is as in `Wait`, returning true after the first poll that leaves the registry empty and false with a logged timeout otherwise |
| Supervision.Supervisor.Destroy | include/thread_supervisor/supervisor.h:430-450 | passes iff the status is not ACTIVE and the registry is `empty()`; otherwise logs the reason and terminates, the ACTIVE check first |
| Supervision.DrainedByFirstPoll | include/thread_supervisor/supervisor.h:374-392 | a registry whose threads are all queued is empty after the first poll |
| Supervision.ShutDown | include/thread_supervisor/supervisor.h:467-472 | stop() on a supervisor whose threads have all finished succeeds, and destruction then passes |
| Supervision.CountScenario | test/supervisor.cpp:92-106 | a Restart(10, 5)/IGNORE thread with no interrupt invokes its function exactly 10 times and leaves the supervisor not interrupted; stopping and destroying then pass |
| Supervision.KillAllScenario | include/thread_supervisor/supervisor.h:284-289 | both threads are added first, a KILLALL one and one with default parameters; the KILLALL thread's run interrupts the supervisor, so the second thread, whose run comes afterwards, invokes nothing |
| Supervision.NeverUsedScenario | include/thread_supervisor/supervisor.h:424-450 | a supervisor that never had a thread added can be destroyed |
| Supervision.NotStoppedScenario | include/thread_supervisor/supervisor.h:430-442 | destroying a supervisor after add() without stop() is fatal |
| Supervision.StopZeroScenario | include/thread_supervisor/supervisor.h:363-400 | stop(0) makes no poll and returns false, even on an empty supervisor |

## Left out

- Threads, `std::atomic`, the two mutexes and `join()` are not modelled:
  - each thread's run is one step (`RunWorker`);
  - what other threads do meanwhile is the `env` input;
  - the threads that finish while `wait` polls are the `arrivals` input.
- `Restart::wait` and the 10 ms sleep of `wait` are not modelled. Time appears only as attempt and poll counts.
- `pthread_setschedparam` is a foreign call. Its return value is a parameter of `Supervisor.Add`.
- The `StdErr` logger's stream output is not modelled. The log is a sequence of `Message` values, one constructor per call site, without the text.
- The user's callable and the `std::bind` argument forwarding are not modelled. The callable is an abstract `Outcome` per attempt.
- The `default:` branches for unknown enum values (supervisor.h:233-235, 295-297) are unreachable for Dafny datatypes.
- `InheritableSupervisor` (supervisor.h:498-542) only forwards to the supervisor, and is not part of this model.
- Registry order is not modelled. The `std::list` is a map from stable ids, so erase-by-iterator becomes removal of a key.
- `std::size_t` wrap-around is not modelled. This covers `attempt + 1` in the notice and `counter * sleep_ms` in `wait`; both wrap only past 2^64.
- Supervision.Supervisor.Add: starts the thread without running it. Its run is the separate `RunWorker` step, so the scheduling check of `Thread::start` is made before the thread does anything. In the source the new thread may already be running.
- Supervision.Supervisor.Add: follows the corrected compare-and-swap status step (`Admit`), not the as-written check-then-store. See Findings.
- Supervision.Supervisor.Wait: returns its poll count as a ghost value, and requires the `arrivals` to be running threads, none twice.
- `include/thread_supervisor/util.h` defines `THREAD_SANITIZER_DISABLE_CLASS_COPY`, while supervisor.h:341 uses `THREAD_SUPERVISOR_DISABLE_CLASS_COPY`. This is a preprocessor matter and has no counterpart in the model.

## Findings

| source | as written | input that shows it | evidently intended | confidence | as-written member | corrected member |
|---|---|---|---|---|---|---|
| include/thread_supervisor/supervisor.h:479-487 | `add()` reads the status with `isInterrupted()`, then stores ACTIVE in a separate operation on the atomic | the status is ACTIVE; another thread's `interrupt()` lands between line 479 and line 487; the store turns INTERRUPTED back into ACTIVE, and the running threads miss the interrupt | `add()` either refuses an interrupted supervisor or leaves it INTERRUPTED, so the status never goes from INTERRUPTED back to ACTIVE (one compare-and-swap) | medium; not executed | Supervision.AdmitAsWritten, Supervision.AsWrittenLosesInterrupt | Supervision.Admit |
