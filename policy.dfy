/** Per-thread parameters: restart limits, scheduling hint, and what happens
    when the thread's function returns or throws. All of it is immutable
    value data; a Parameters value is built from a list of settings, each of
    which overrides one field of the defaults. */
module Policy {

  /** The POSIX scheduling policy number of SCHED_FIFO (Linux value). */
  const SCHED_FIFO: int := 1

  /** What to do when a thread's run ends. */
  datatype TerminationPolicy = IGNORE | KILLALL

  /** Whether an exception thrown by the thread's function is caught and
      reported, or passed on (the application crashes). */
  datatype ExceptionPolicy = CATCH | PASS

  /** Restart parameters: `attempts == 0` means unlimited attempts. */
  datatype Restart = Restart(attempts: nat, sleepMs: nat)
  {
    predicate IsUnlimited()
    {
      attempts == 0
    }

    /** May attempt number `attempt` (counted from 0) be started? */
    predicate IsOk(attempt: nat)
    {
      IsUnlimited() || attempt < attempts
    }

    /** Is the restart loop used at all? Only a limit of exactly one attempt
        disables it. */
    function IsEnabled(): (enabled: bool)
      ensures enabled <==> attempts != 1
    {
      IsOk(1)
    }

    /** The limit printed in a restart notice: 0 when unlimited. Since
        unlimited means `attempts == 0`, this is always `attempts`. */
    function Limit(): (shown: nat)
      ensures shown == attempts
    {
      if IsUnlimited() then 0 else attempts
    }
  }

  /** A limited restart policy allows exactly the attempts 0 .. attempts-1. */
  lemma LimitedAllowsExactly(r: Restart, attempt: nat)
    requires !r.IsUnlimited()
    ensures r.IsOk(attempt) <==> attempt < r.attempts
  {
  }

  /** Unlimited is the same as "every attempt number is allowed". */
  lemma UnlimitedIffEveryAttemptOk(r: Restart)
    ensures r.IsUnlimited() <==> forall attempt: nat :: r.IsOk(attempt)
  {
    if !r.IsUnlimited() {
      assert !r.IsOk(r.attempts);
    }
  }

  /** Scheduling hint, applied with pthread_setschedparam when it differs
      from the default (FIFO policy, priority 0). */
  datatype Scheduling = Scheduling(priority: int, policy: int, ignoreFailures: bool)
  {
    /** Only parameters other than FIFO/priority 0 need an OS call. */
    predicate IsCustom()
    {
      policy != SCHED_FIFO || priority != 0
    }

    /** The OS call is a parameter: `setSchedParamResult` is what
        pthread_setschedparam would return (0 on success); it is consulted
        only for custom parameters. */
    function Apply(setSchedParamResult: int): (ok: bool)
      ensures !IsCustom() ==> ok
      ensures IsCustom() ==> (ok <==> setSchedParamResult == 0)
    {
      if IsCustom() && setSchedParamResult != 0 then false else true
    }
  }

  /** The default hint never needs the OS, so it cannot fail. */
  lemma DefaultSchedulingNeverFails(setSchedParamResult: int)
    ensures DefaultScheduling().Apply(setSchedParamResult)
    ensures !DefaultScheduling().IsCustom()
  {
  }

  function DefaultScheduling(): Scheduling
  {
    Scheduling(0, SCHED_FIFO, true)
  }

  datatype Parameters = Parameters(
    restart: Restart,
    scheduling: Scheduling,
    termination: TerminationPolicy,
    exception: ExceptionPolicy)

  /** Default parameters. `strict` is the build in which
      THREAD_SUPERVISOR_THOU_SHALT_NOT_PASS is defined: threads may then
      neither exit nor crash quietly. */
  function Defaults(strict: bool): (p: Parameters)
    ensures p.restart.IsUnlimited() && p.restart.IsEnabled() && p.restart.sleepMs == 0
    ensures !p.scheduling.IsCustom() && p.scheduling.ignoreFailures
    ensures p.termination == (if strict then KILLALL else IGNORE)
    ensures p.exception == (if strict then PASS else CATCH)
  {
    Parameters(
      Restart(0, 0),
      DefaultScheduling(),
      if strict then KILLALL else IGNORE,
      if strict then PASS else CATCH)
  }

  /** One constructor argument of Parameters: a value for one field. */
  datatype Setting =
    | RestartSetting(restart: Restart)
    | SchedulingSetting(scheduling: Scheduling)
    | TerminationSetting(termination: TerminationPolicy)
    | ExceptionSetting(exception: ExceptionPolicy)
  {
    function Field(): Field
    {
      match this
      case RestartSetting(_) => RestartField
      case SchedulingSetting(_) => SchedulingField
      case TerminationSetting(_) => TerminationField
      case ExceptionSetting(_) => ExceptionField
    }
  }

  datatype Field = RestartField | SchedulingField | TerminationField | ExceptionField

  /** The current value of field `f` of `p`, as a setting. */
  function Get(p: Parameters, f: Field): (s: Setting)
    ensures s.Field() == f
  {
    match f
    case RestartField => RestartSetting(p.restart)
    case SchedulingField => SchedulingSetting(p.scheduling)
    case TerminationField => TerminationSetting(p.termination)
    case ExceptionField => ExceptionSetting(p.exception)
  }

  /** The body of one delegating constructor: assign the field of `s`. */
  function Override(p: Parameters, s: Setting): (q: Parameters)
    ensures Get(q, s.Field()) == s
    ensures forall f :: f != s.Field() ==> Get(q, f) == Get(p, f)
  {
    match s
    case RestartSetting(r) => p.(restart := r)
    case SchedulingSetting(sc) => p.(scheduling := sc)
    case TerminationSetting(t) => p.(termination := t)
    case ExceptionSetting(e) => p.(exception := e)
  }

  /** `Parameters(settings...)`: the constructor for the first setting
      delegates to the one for the rest, and then assigns its own field, so
      the defaults are overridden from the right to the left. */
  function Make(settings: seq<Setting>, strict: bool): Parameters
  {
    if settings == [] then Defaults(strict)
    else Override(Make(settings[1..], strict), settings[0])
  }

  /** A field given in the settings takes the value of its leftmost
      occurrence. */
  lemma {:induction false} LeftmostSettingWins(settings: seq<Setting>, strict: bool, i: nat)
    requires i < |settings|
    requires forall j :: 0 <= j < i ==> settings[j].Field() != settings[i].Field()
    ensures Get(Make(settings, strict), settings[i].Field()) == settings[i]
  {
    if i > 0 {
      LeftmostSettingWins(settings[1..], strict, i - 1);
    }
  }

  /** A field no setting mentions keeps its default. */
  lemma {:induction false} UnsetFieldKeepsDefault(settings: seq<Setting>, strict: bool, f: Field)
    requires forall j :: 0 <= j < |settings| ==> settings[j].Field() != f
    ensures Get(Make(settings, strict), f) == Get(Defaults(strict), f)
  {
    if settings != [] {
      UnsetFieldKeepsDefault(settings[1..], strict, f);
    }
  }
}
