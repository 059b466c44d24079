/** The `Scheduler` service: a cron job that runs an availability check every `interval`
    milliseconds, a busy flag shared by the scheduled ticks and the manual "check now"
    requests, pause/resume, and run-time changes of the interval.

    JavaScript runs one callback at a time, so the busy flag guards re-entrancy across
    `await`, not threads. A check is therefore split into the step that begins it (up to
    the first `await`) and the step that completes it (the `finally` block). The cron
    library, the wall clock and the availability check itself are inputs. */
module Scheduling {
  import opened Common

  /** The cron task: absent, or scheduled with its expression and either ticking or
      stopped by `pause`. */
  datatype JobState = NoJob | Job(cronExpression: string, ticking: bool)

  datatype SchedulerState = SchedulerState(
    job: JobState,
    isRunning: bool,
    checkCount: nat,
    startTime: Option<int>,
    interval: int)  // the configured interval in milliseconds

  /** What `runImmediateCheck` resolves to. */
  datatype CheckResponse = CheckResponse(success: bool, message: string)

  const BusyResponse := CheckResponse(false, "Check already in progress")

  /** What a firing of the cron timer did. */
  datatype TickOutcome = NotFired | Skipped | Started

  /** `Math.floor(interval / 60000)`. */
  function IntervalMinutes(interval: int): int
  {
    interval / MsPerMinute
  }

  /** The cron expression for an interval: every minute, or every n-th minute. */
  function CronExpression(interval: int): string
  {
    var n := IntervalMinutes(interval);
    if n == 1 then "* * * * *" else "*/" + IntToString(n) + " * * * *"
  }

  /** Reads the minute step back out of an expression of the two shapes above. */
  function CronMinuteStep(expr: string): Option<nat>
  {
    if expr == "* * * * *" then Some(1)
    else if |expr| > 10 && StartsWith(expr, "*/") && EndsWith(expr, " * * * *")
            && AllDigits(expr[2..|expr| - 8]) then
      Some(ParseDigits(expr[2..|expr| - 8]))
    else None
  }

  /** The minute field's step is `floor(interval / 60000)`, for any interval of a minute
      or more. */
  lemma CronExpressionStep(interval: int)
    requires interval >= MsPerMinute
    ensures CronMinuteStep(CronExpression(interval)) == Some(IntervalMinutes(interval))
    ensures IntervalMinutes(interval) == 1 <==> CronExpression(interval) == "* * * * *"
  {
    var n := IntervalMinutes(interval);
    if n != 1 {
      var digits := NatToString(n);
      var expr := CronExpression(interval);
      assert expr == "*/" + digits + " * * * *";
      assert expr[..2] == "*/";
      assert expr[|expr| - 8..] == " * * * *";
      assert expr[2..|expr| - 8] == digits;
      ParseNatToString(n);
      assert expr[0] == '*' && expr[1] == '/';
    }
  }

  // ---------------------------------------------------------------------------
  // Transitions
  // ---------------------------------------------------------------------------

  /** The first, synchronous part of `runImmediateCheck`: a request that arrives while a
      check runs is answered at once with the busy response and changes nothing; otherwise
      the busy flag is raised and the answer comes when the check completes. */
  function BeginImmediate(s: SchedulerState): (r: (Option<CheckResponse>, SchedulerState))
    ensures s.isRunning ==> r == (Some(BusyResponse), s)
    ensures !s.isRunning ==> r == (None, s.(isRunning := true))
  {
    if s.isRunning then (Some(BusyResponse), s) else (None, s.(isRunning := true))
  }

  /** The `try/catch/finally` of `runImmediateCheck`: success, or the failure message;
      either way the busy flag is lowered. */
  function CompleteImmediate(s: SchedulerState, failure: Option<string>): (r: (CheckResponse, SchedulerState))
    ensures !r.1.isRunning && r.1 == s.(isRunning := false)
    ensures r.0.success <==> failure.None?
  {
    var response := match failure
      case None => CheckResponse(true, "Check completed successfully")
      case Some(msg) => CheckResponse(false, "Check failed: " + msg);
    (response, s.(isRunning := false))
  }

  /** The cron callback. The timer only fires while a job exists and ticks; a firing while
      a check runs is skipped; otherwise a check begins and is counted. */
  function Tick(s: SchedulerState): (r: (TickOutcome, SchedulerState))
    ensures !(s.job.Job? && s.job.ticking) ==> r == (NotFired, s)
    ensures s.job.Job? && s.job.ticking && s.isRunning ==> r == (Skipped, s)
    ensures r.0 == Started <==> s.job.Job? && s.job.ticking && !s.isRunning
    ensures r.0 == Started ==> r.1 == s.(isRunning := true, checkCount := s.checkCount + 1)
  {
    if !(s.job.Job? && s.job.ticking) then (NotFired, s)
    else if s.isRunning then (Skipped, s)
    else (Started, s.(isRunning := true, checkCount := s.checkCount + 1))
  }

  /** The `finally` of the cron callback. */
  function CompleteTick(s: SchedulerState): (r: SchedulerState)
    ensures !r.isRunning && r == s.(isRunning := false)
  {
    s.(isRunning := false)
  }

  /** `start`: a no-op when a job exists; otherwise records the start time, schedules a
      ticking job with the expression for the configured interval and begins an immediate
      check (whose busy answer, if any, nobody reads). */
  function StartJob(s: SchedulerState, now: int): (r: SchedulerState)
    ensures s.job.Job? ==> r == s
    ensures s.job.NoJob? ==> r.job == Job(CronExpression(s.interval), true) && r.startTime == Some(now)
    ensures s.job.NoJob? ==> r.isRunning && r.checkCount == s.checkCount && r.interval == s.interval
  {
    if s.job.Job? then s
    else
      var scheduled := s.(startTime := Some(now), job := Job(CronExpression(s.interval), true));
      BeginImmediate(scheduled).1
  }

  /** `stop`: removes the job, if any; an in-flight check is left to complete. */
  function StopJob(s: SchedulerState): (r: SchedulerState)
    ensures r == s.(job := NoJob)
  {
    if s.job.Job? then s.(job := NoJob) else s
  }

  /** `pause`: the job stays but stops ticking. */
  function PauseJob(s: SchedulerState): (r: SchedulerState)
    ensures s.job.NoJob? ==> r == s
    ensures s.job.Job? ==> r == s.(job := s.job.(ticking := false))
  {
    if s.job.Job? then s.(job := s.job.(ticking := false)) else s
  }

  /** `resume`: the job, if any, ticks again. */
  function ResumeJob(s: SchedulerState): (r: SchedulerState)
    ensures s.job.NoJob? ==> r == s
    ensures s.job.Job? ==> r == s.(job := s.job.(ticking := true))
  {
    if s.job.Job? then s.(job := s.job.(ticking := true)) else s
  }

  /** `updateInterval`: stores the new interval and, only if a job existed, restarts it
      (a stop followed by a start, which also begins an immediate check). */
  function ChangeInterval(s: SchedulerState, minutes: int, now: int): (r: SchedulerState)
  {
    var wasRunning := s.job.Job?;
    var stopped := if wasRunning then StopJob(s) else s;
    var updated := stopped.(interval := minutes * MsPerMinute);
    if wasRunning then StartJob(updated, now) else updated
  }

  datatype SchedulerStatus = SchedulerStatus(
    running: bool,
    currentlyChecking: bool,
    checkCount: nat,
    startTime: Option<int>,
    uptime: int,
    intervalMinutes: int,
    enabled: bool)

  /** `getStatus`: `running` means a job exists, paused or not. */
  function Status(s: SchedulerState, now: int, enabled: bool): (st: SchedulerStatus)
    ensures st.running <==> s.job.Job?
    ensures st.currentlyChecking == s.isRunning && st.checkCount == s.checkCount
    ensures st.uptime == if s.startTime.Some? then now - s.startTime.value else 0
    ensures st.intervalMinutes == IntervalMinutes(s.interval) && st.enabled == enabled
  {
    SchedulerStatus(
      s.job.Job?, s.isRunning, s.checkCount, s.startTime,
      if s.startTime.Some? then now - s.startTime.value else 0,
      IntervalMinutes(s.interval), enabled)
  }

  // ---------------------------------------------------------------------------
  // Properties
  // ---------------------------------------------------------------------------

  /** After `updateInterval(m)` the status reports `m` minutes; a job exists afterwards
      exactly when one existed before, and a restarted job ticks with the new expression
      (so an update also resumes a paused job). */
  lemma UpdateIntervalEffect(s: SchedulerState, minutes: int, now: int, enabled: bool)
    requires 1 <= minutes <= 60
    ensures Status(ChangeInterval(s, minutes, now), now, enabled).intervalMinutes == minutes
    ensures ChangeInterval(s, minutes, now).job.Job? <==> s.job.Job?
    ensures s.job.Job? ==> ChangeInterval(s, minutes, now).job == Job(CronExpression(minutes * MsPerMinute), true)
    ensures s.job.NoJob? ==> ChangeInterval(s, minutes, now) == s.(interval := minutes * MsPerMinute)
    ensures ChangeInterval(s, minutes, now).checkCount == s.checkCount
  {
    var interval := minutes * MsPerMinute;
    assert IntervalMinutes(interval) == minutes;
    var r := ChangeInterval(s, minutes, now);
    if s.job.Job? {
      assert r == StartJob(s.(job := NoJob, interval := interval), now);
    } else {
      assert r == s.(interval := interval);
    }
  }

  /** Pausing keeps the job, so the status still says running; stopping clears it. */
  lemma PauseKeepsJobStopClearsIt(s: SchedulerState, now: int, enabled: bool)
    requires s.job.Job?
    ensures Status(PauseJob(s), now, enabled).running
    ensures !Status(StopJob(s), now, enabled).running
    ensures ResumeJob(PauseJob(s)) == s.(job := s.job.(ticking := true))
    ensures Tick(PauseJob(s)).0 == NotFired
  {
  }

  /** Everything that can happen to the scheduler. */
  datatype Event =
    | StartEvent(now: int)
    | StopEvent
    | PauseEvent
    | ResumeEvent
    | UpdateEvent(minutes: int, now: int)
    | TickEvent
    | TickDoneEvent
    | ImmediateEvent
    | ImmediateDoneEvent(failure: Option<string>)

  /** The events that complete a check in flight. */
  predicate IsCompletion(e: Event)
  {
    e.TickDoneEvent? || e.ImmediateDoneEvent?
  }

  function Step(s: SchedulerState, e: Event): SchedulerState
  {
    match e
    case StartEvent(now) => StartJob(s, now)
    case StopEvent => StopJob(s)
    case PauseEvent => PauseJob(s)
    case ResumeEvent => ResumeJob(s)
    case UpdateEvent(minutes, now) => ChangeInterval(s, minutes, now)
    case TickEvent => Tick(s).1
    case TickDoneEvent => CompleteTick(s)
    case ImmediateEvent => BeginImmediate(s).1
    case ImmediateDoneEvent(failure) => CompleteImmediate(s, failure).1
  }

  function Run(s: SchedulerState, events: seq<Event>): SchedulerState
  {
    if events == [] then s else Step(Run(s, events[..|events| - 1]), events[|events| - 1])
  }

  /** While a check is in flight, no event but its completion begins another check or
      counts one: scheduled ticks are skipped and manual requests are turned away. */
  lemma BusyStepIsInert(s: SchedulerState, e: Event)
    requires s.isRunning && !IsCompletion(e)
    ensures Step(s, e).isRunning
    ensures Step(s, e).checkCount == s.checkCount
  {
  }

  /** The same over any series of events that holds no completion. */
  lemma {:induction false} BusyRunIsInert(s: SchedulerState, events: seq<Event>)
    requires s.isRunning
    requires forall i :: 0 <= i < |events| ==> !IsCompletion(events[i])
    ensures Run(s, events).isRunning
    ensures Run(s, events).checkCount == s.checkCount
  {
    if events != [] {
      BusyRunIsInert(s, events[..|events| - 1]);
      BusyStepIsInert(Run(s, events[..|events| - 1]), events[|events| - 1]);
    }
  }

  /** Only scheduled ticks count checks: each event raises the count by at most one, and
      only a tick raises it. */
  lemma {:induction false} CountOnlyTicks(s: SchedulerState, events: seq<Event>)
    ensures s.checkCount <= Run(s, events).checkCount <= s.checkCount + TickCount(events)
  {
    if events != [] {
      CountOnlyTicks(s, events[..|events| - 1]);
    }
  }

  function TickCount(events: seq<Event>): nat
  {
    if events == [] then 0
    else TickCount(events[..|events| - 1]) + (if events[|events| - 1].TickEvent? then 1 else 0)
  }

  // ---------------------------------------------------------------------------
  // The service object
  // ---------------------------------------------------------------------------

  class Scheduler {
    const enabled: bool
    var job: JobState
    var isRunning: bool
    var checkCount: nat
    var startTime: Option<int>
    var interval: int

    function State(): SchedulerState
      reads this
    {
      SchedulerState(job, isRunning, checkCount, startTime, interval)
    }

    constructor (interval: int, enabled: bool)
      ensures State() == SchedulerState(NoJob, false, 0, None, interval)
      ensures this.enabled == enabled
    {
      this.enabled := enabled;
      job := NoJob;
      isRunning := false;
      checkCount := 0;
      startTime := None;
      this.interval := interval;
    }

    method Start(now: int)
      modifies this
      ensures State() == StartJob(old(State()), now)
    {
      if job.Job? {
        return;
      }
      var intervalMinutes := interval / MsPerMinute;
      var cronExpression := if intervalMinutes == 1 then "* * * * *" else "*/" + IntToString(intervalMinutes) + " * * * *";
      startTime := Some(now);
      job := Job(cronExpression, true);
      var _ := BeginImmediateCheck();
    }

    /** The cron callback up to its `await`. */
    method ScheduledTick() returns (outcome: TickOutcome)
      modifies this
      ensures (outcome, State()) == Tick(old(State()))
    {
      if !(job.Job? && job.ticking) {
        return NotFired;
      }
      if isRunning {
        return Skipped;
      }
      isRunning := true;
      checkCount := checkCount + 1;
      return Started;
    }

    /** The `finally` of the cron callback. */
    method CompleteScheduledTick()
      modifies this
      ensures State() == CompleteTick(old(State()))
    {
      isRunning := false;
    }

    method Stop()
      modifies this
      ensures State() == StopJob(old(State()))
    {
      if job.Job? {
        job := NoJob;
      }
    }

    /** `runImmediateCheck` up to its `await`: the busy answer, or None while the check runs. */
    method BeginImmediateCheck() returns (busy: Option<CheckResponse>)
      modifies this
      ensures (busy, State()) == BeginImmediate(old(State()))
    {
      if isRunning {
        return Some(BusyResponse);
      }
      isRunning := true;
      return None;
    }

    /** The rest of `runImmediateCheck`, given how the availability check ended. */
    method CompleteImmediateCheck(failure: Option<string>) returns (response: CheckResponse)
      modifies this
      ensures (response, State()) == CompleteImmediate(old(State()), failure)
    {
      match failure {
        case None => response := CheckResponse(true, "Check completed successfully");
        case Some(msg) => response := CheckResponse(false, "Check failed: " + msg);
      }
      isRunning := false;
    }

    function GetStatus(now: int): (st: SchedulerStatus)
      reads this
      ensures st == Status(State(), now, enabled)
    {
      SchedulerStatus(
        job.Job?, isRunning, checkCount, startTime,
        if startTime.Some? then now - startTime.value else 0,
        interval / MsPerMinute, enabled)
    }

    /** Any number of minutes is accepted here; the HTTP route in front of it turns away
        values outside 1 to 60. */
    method UpdateInterval(minutes: int, now: int)
      modifies this
      ensures State() == ChangeInterval(old(State()), minutes, now)
    {
      var wasRunning := job.Job?;
      if wasRunning {
        Stop();
      }
      interval := minutes * 60 * 1000;
      if wasRunning {
        Start(now);
      }
    }

    method Pause()
      modifies this
      ensures State() == PauseJob(old(State()))
    {
      if job.Job? {
        job := job.(ticking := false);
      }
    }

    method Resume()
      modifies this
      ensures State() == ResumeJob(old(State()))
    {
      if job.Job? {
        job := job.(ticking := true);
      }
    }
  }
}
