/** Polling with capped exponential backoff, core/async_result.go. Durations are integer nanoseconds and the
    clock reads 0 when the wait begins; the environment decides what each poll returns and how long it takes. */
module Polling {
  import opened Basics
  import opened Texts

  const MILLISECOND: int := 1_000_000
  const SECOND: int := 1_000 * MILLISECOND
  const MINUTE: int := 60 * SECOND

  const DEFAULT_TIMEOUT := 10 * MINUTE
  const DEFAULT_INTERVAL := 500 * MILLISECOND
  const DEFAULT_MAX_INTERVAL := 30 * SECOND
  const DEFAULT_BACKOFF := 0.25

  /** WaitAPIConditionConfig as a value. */
  datatype Config = Config(timeout: int, interval: int, maxInterval: int, backoff: real)

  function Bumped(c: Config): Config {
    var next := Truncate(c.interval as real * (1.0 + c.backoff));
    c.(interval := if next > c.maxInterval then c.maxInterval else next)
  }

  function Normalized(c: Config): Config {
    Config(if c.timeout == 0 then DEFAULT_TIMEOUT else c.timeout,
           if c.interval == 0 then DEFAULT_INTERVAL else c.interval,
           if c.maxInterval == 0 then DEFAULT_MAX_INTERVAL else c.maxInterval,
           if c.backoff == 0.0 then DEFAULT_BACKOFF else c.backoff)
  }

  /** The config after n calls of NextInterval, and the value the n-th call returns. */
  function BumpedTimes(c: Config, n: nat): Config {
    if n == 0 then c else Bumped(BumpedTimes(c, n - 1))
  }

  function Sleep(c: Config, n: nat): int {
    BumpedTimes(c, n).interval
  }

  // ------------------------------------------------------------ the sequence of intervals

  function Least(c: Config): int {
    if c.interval <= c.maxInterval then c.interval else c.maxInterval
  }

  /** Signs that make the backoff grow: what normalize leaves of any non-negative configuration. */
  predicate Positive(c: Config) {
    c.interval > 0 && c.maxInterval > 0 && c.backoff >= 0.0
  }

  lemma BumpGrows(c: Config)
    requires Positive(c)
    ensures Positive(Bumped(c))
    ensures Bumped(c).maxInterval == c.maxInterval && Bumped(c).backoff == c.backoff && Bumped(c).timeout == c.timeout
    ensures Least(c) <= Bumped(c).interval <= c.maxInterval
  {
    var x := c.interval as real;
    assert x * (1.0 + c.backoff) == x + x * c.backoff;
    assert x * c.backoff >= 0.0;
    assert (x * (1.0 + c.backoff)).Floor >= c.interval;
  }

  /** The next interval is the old one times the backoff, without its fraction, or the cap if that is smaller. */
  lemma GrowsByFactor(c: Config)
    requires Positive(c)
    ensures var next, product := Bumped(c).interval, c.interval as real * (1.0 + c.backoff);
            && next <= c.maxInterval && next as real <= product
            && (next == c.maxInterval || product < next as real + 1.0)
  {
    var x := c.interval as real;
    assert x * (1.0 + c.backoff) == x + x * c.backoff;
    assert x * c.backoff >= 0.0;
  }

  /** The documented defaults, and the intervals that follow from them: 500, 625, 781.25 and 976.5625 milliseconds. */
  lemma DefaultProgression()
    ensures var c := Normalized(Config(0, 0, 0, 0.0));
            && c == Config(600_000_000_000, 500_000_000, 30_000_000_000, 0.25)
            && Sleep(c, 0) == 500_000_000 && Sleep(c, 1) == 625_000_000
            && Sleep(c, 2) == 781_250_000 && Sleep(c, 3) == 976_562_500
  {
    var c := Normalized(Config(0, 0, 0, 0.0));
    assert BumpedTimes(c, 1) == c.(interval := 625_000_000);
    assert BumpedTimes(c, 2) == c.(interval := 781_250_000);
    assert BumpedTimes(c, 3) == c.(interval := 976_562_500);
  }

  /** However often NextInterval is called: from the second call on the intervals stay under the cap, they never
      shrink, and none is below the smaller of the first interval and the cap. */
  lemma {:induction false} SleepsGrow(c: Config, n: nat)
    requires Positive(c)
    ensures Positive(BumpedTimes(c, n)) && BumpedTimes(c, n).maxInterval == c.maxInterval
    ensures BumpedTimes(c, n).backoff == c.backoff
    ensures Least(c) <= Sleep(c, n)
    ensures Sleep(c, n + 1) <= c.maxInterval
    ensures n > 0 || c.interval <= c.maxInterval ==> Sleep(c, n) <= Sleep(c, n + 1)
  {
    if n > 0 {
      SleepsGrow(c, n - 1);
      BumpGrows(BumpedTimes(c, n - 1));
    }
    BumpGrows(BumpedTimes(c, n));
  }

  predicate Behaved(c: Config, n: nat) {
    0 < Sleep(c, n) <= Sleep(c, n + 1) <= c.maxInterval
  }

  /** All intervals are positive, within the cap and non-decreasing exactly when the first one is positive and
      within the cap. */
  lemma SleepsBehavedIff(c: Config)
    requires c.backoff >= 0.0
    ensures (forall n: nat :: Behaved(c, n)) <==> 0 < c.interval <= c.maxInterval
  {
    if 0 < c.interval <= c.maxInterval {
      forall n: nat ensures Behaved(c, n) {
        SleepsGrow(c, n);
      }
    } else {
      assert Sleep(c, 0) == c.interval && !Behaved(c, 0);
    }
  }

  // ------------------------------------------------------------ the waiting loop

  datatype Poll = ApiError | VerifyError | Verdict(completed: bool)

  /** answer(k) and cost(k) are the result and the duration of poll k; cancelAt is when the caller's own context
      is cancelled. */
  datatype Env = Env(answer: nat -> Poll, cost: nat -> nat, cancelAt: Option<int>)

  datatype Outcome = Met | TimedOut | Cancelled | CallFailed | VerifyFailed

  predicate CancelledBy(env: Env, now: int) {
    env.cancelAt.Some? && now >= env.cancelAt.value
  }

  predicate Over(c: Config, env: Env, now: int) {
    now >= c.timeout || CancelledBy(env, now)
  }

  /** How long the n-th sleep takes: time.Sleep returns at once for a negative duration. */
  function Pause(c: Config, n: nat): nat {
    if Sleep(c, n) > 0 then Sleep(c, n) else 0
  }

  /** When poll n starts, if the loop gets that far. */
  function StartOf(c: Config, env: Env, n: nat): int {
    if n == 0 then 0 else StartOf(c, env, n - 1) + env.cost(n - 1) + Pause(c, n - 1)
  }

  /** The wait as it must have gone: polls 0 to polls-1 were made, each one before the deadline and the
      cancellation; all but the last left the condition open, and the last one, or the clock, decided. */
  predicate Trace(c: Config, env: Env, o: Outcome, polls: nat, now: int) {
    && (forall k :: 0 <= k < polls - 1 ==> env.answer(k) == Verdict(false))
    && (polls > 0 ==> !Over(c, env, StartOf(c, env, polls - 1)))
    && match o
       case TimedOut => EndedByClock(c, env, polls, now) && !CancelledBy(env, now)
       case Cancelled => EndedByClock(c, env, polls, now) && CancelledBy(env, now)
       case Met => EndedByPoll(c, env, polls, now, Verdict(true))
       case CallFailed => EndedByPoll(c, env, polls, now, ApiError)
       case VerifyFailed => EndedByPoll(c, env, polls, now, VerifyError)
  }

  /** The same while the loop still runs. */
  predicate Waiting(c: Config, env: Env, polls: nat, now: int) {
    && now == StartOf(c, env, polls)
    && (forall k :: 0 <= k < polls ==> env.answer(k) == Verdict(false))
    && (polls > 0 ==> !Over(c, env, StartOf(c, env, polls - 1)))
  }

  predicate EndedByClock(c: Config, env: Env, polls: nat, now: int) {
    (polls > 0 ==> env.answer(polls - 1) == Verdict(false)) && now == StartOf(c, env, polls) && Over(c, env, now)
  }

  predicate EndedByPoll(c: Config, env: Env, polls: nat, now: int, last: Poll) {
    polls > 0 && env.answer(polls - 1) == last && now == StartOf(c, env, polls - 1) + env.cost(polls - 1)
  }

  /** The clock ends the wait. */
  lemma ClockEnds(c: Config, env: Env, polls: nat, now: int)
    requires Waiting(c, env, polls, now) && Over(c, env, now)
    ensures Trace(c, env, if CancelledBy(env, now) then Cancelled else TimedOut, polls, now)
  {
  }

  predicate Decides(p: Poll, o: Outcome) {
    match p
    case ApiError => o == CallFailed
    case VerifyError => o == VerifyFailed
    case Verdict(completed) => completed && o == Met
  }

  /** A poll ends the wait. */
  lemma PollEnds(c: Config, env: Env, polls: nat, now: int, o: Outcome)
    requires Waiting(c, env, polls, now) && !Over(c, env, now) && Decides(env.answer(polls), o)
    ensures Trace(c, env, o, polls + 1, now + env.cost(polls))
  {
  }

  /** The wait goes on. */
  lemma WaitsOn(c: Config, env: Env, polls: nat, now: int)
    requires Waiting(c, env, polls, now) && !Over(c, env, now) && env.answer(polls) == Verdict(false)
    ensures Waiting(c, env, polls + 1, now + env.cost(polls) + Pause(c, polls))
  {
  }

  /** The loop does not get past round n. */
  predicate StopsIn(c: Config, env: Env, n: nat) {
    Over(c, env, StartOf(c, env, n)) || env.answer(n) != Verdict(false)
  }

  predicate NotStopped(c: Config, env: Env, n: nat) {
    forall k :: 0 <= k < n ==> !StopsIn(c, env, k)
  }

  lemma NotStoppedYet(c: Config, env: Env, polls: nat, now: int, last: nat)
    requires Waiting(c, env, polls, now) && !Over(c, env, now) && env.answer(polls) == Verdict(false)
    requires NotStopped(c, env, polls) && StopsIn(c, env, last)
    ensures NotStopped(c, env, polls + 1) && polls < last
  {
  }

  ghost predicate Ends(c: Config, env: Env) {
    exists n: nat :: StopsIn(c, env, n)
  }

  /** With growing intervals the clock ends every wait. */
  lemma PositiveEnds(c: Config, env: Env)
    requires Positive(c)
    ensures Ends(c, env)
  {
    var n: nat := if c.timeout > 0 then c.timeout else 0;
    StartAtLeast(c, env, n, Least(c));
    LeastSleep(c, env, n + 1);
    AtLeastOnce(n, Least(c));
    assert StopsIn(c, env, n);
  }

  lemma AtLeastOnce(n: nat, l: int)
    requires l > 0
    ensures n * l >= n
  {
  }

  /** The environment that keeps the condition open as fast as it can. */
  function Idle(): Env {
    Env((k: nat) => Verdict(false), (k: nat) => 0, None)
  }

  /** The first n sleeps together last until the timeout. */
  predicate SleepsReach(c: Config, n: nat) {
    StartOf(c, Idle(), n) >= c.timeout
  }

  lemma {:induction false} IdleIsFastest(c: Config, env: Env, n: nat)
    ensures StartOf(c, Idle(), n) <= StartOf(c, env, n)
  {
    if n > 0 {
      IdleIsFastest(c, env, n - 1);
    }
  }

  /** For every configuration, also with negative intervals: the wait ends in every environment if and only if the
      sleeps alone reach the timeout at some point. */
  lemma EndsAlwaysIff(c: Config)
    ensures (forall env :: Ends(c, env)) <==> exists n: nat :: SleepsReach(c, n)
  {
    if n: nat :| SleepsReach(c, n) {
      forall env ensures Ends(c, env) {
        IdleIsFastest(c, env, n);
        assert StopsIn(c, env, n);
      }
    }
    if Ends(c, Idle()) {
      var n: nat :| StopsIn(c, Idle(), n);
      assert SleepsReach(c, n);
    }
  }

  lemma NonPositiveProduct(x: int, f: real)
    requires x <= 0 && f >= 0.0
    ensures Truncate(x as real * (1.0 + f)) <= 0
  {
    var r := x as real;
    assert r * (1.0 + f) == r + r * f;
    assert r * f <= 0.0;
  }

  lemma BumpsToNothing(c: Config)
    requires c.backoff >= 0.0 && (c.interval <= 0 || c.maxInterval < 0)
    ensures Bumped(c).interval <= 0
  {
    if c.interval <= 0 {
      NonPositiveProduct(c.interval, c.backoff);
    }
  }

  /** Once an interval is negative, or the cap is, no later sleep takes any time. */
  lemma {:induction false} NoMorePauses(c: Config, n: nat)
    requires c.backoff >= 0.0 && (c.interval < 0 || c.maxInterval < 0)
    ensures BumpedTimes(c, n).maxInterval == c.maxInterval && BumpedTimes(c, n).backoff == c.backoff
    ensures c.interval < 0 || n > 0 ==> Sleep(c, n) <= 0
  {
    if n > 0 {
      NoMorePauses(c, n - 1);
      BumpsToNothing(BumpedTimes(c, n - 1));
    }
  }

  /** Then only the first sleep can take time. */
  lemma {:induction false} OnePauseAtMost(c: Config, n: nat)
    requires c.backoff >= 0.0 && (c.interval < 0 || c.maxInterval < 0)
    ensures StartOf(c, Idle(), n) <= if c.interval > 0 then c.interval else 0
  {
    if n > 0 {
      OnePauseAtMost(c, n - 1);
      NoMorePauses(c, n - 1);
      if n == 1 {
        assert StartOf(c, Idle(), 0) == 0 && Sleep(c, 0) == c.interval;
      }
    }
  }

  /** The condition on the configuration, as normalize leaves it, with a backoff that does not shrink: the wait ends in
      every environment if and only if there is no time to wait for, the first sleep outlasts it, or the intervals stay
      positive. */
  lemma EndsAlwaysIffSigns(c: Config)
    requires c.interval != 0 && c.maxInterval != 0 && c.backoff >= 0.0
    ensures (forall env :: Ends(c, env)) <==>
            c.timeout <= 0 || c.timeout <= c.interval || (c.interval > 0 && c.maxInterval > 0)
  {
    EndsAlwaysIff(c);
    if c.timeout <= 0 {
      assert SleepsReach(c, 0);
    } else if c.timeout <= c.interval {
      assert StartOf(c, Idle(), 1) == StartOf(c, Idle(), 0) + Pause(c, 0);
      assert SleepsReach(c, 1);
    } else if c.interval > 0 && c.maxInterval > 0 {
      forall env ensures Ends(c, env) {
        PositiveEnds(c, env);
      }
    } else {
      forall n: nat ensures !SleepsReach(c, n) {
        OnePauseAtMost(c, n);
      }
    }
  }

  lemma LeastSleep(c: Config, env: Env, n: nat)
    requires Positive(c) && n > 0
    ensures StartOf(c, env, n) >= StartOf(c, env, n - 1) + Least(c)
    ensures Least(c) > 0
  {
    SleepsGrow(c, n - 1);
  }

  lemma Distribute(n: nat, l: int)
    requires n > 0
    ensures n * l == (n - 1) * l + l
  {
  }

  lemma {:induction false} StartAtLeast(c: Config, env: Env, n: nat, l: int)
    requires Positive(c) && l == Least(c)
    ensures n * l <= StartOf(c, env, n)
  {
    if n > 0 {
      StartAtLeast(c, env, n - 1, l);
      LeastSleep(c, env, n);
      Distribute(n, l);
    }
  }

  /** The number of polls is at most the timeout over the smallest interval, rounded up; and the wait outlives
      the deadline by less than its last poll and its last interval, so with instant polls by less than that
      interval. */
  lemma PollsAndOvershoot(c: Config, env: Env, o: Outcome, polls: nat, now: int)
    requires Positive(c) && Trace(c, env, o, polls, now)
    ensures polls == 0 || (polls - 1) * Least(c) < c.timeout
    ensures polls == 0 || now < c.timeout + env.cost(polls - 1) + Sleep(c, polls - 1)
    ensures polls == 0 ==> now == 0
  {
    if polls > 0 {
      StartAtLeast(c, env, polls - 1, Least(c));
      SleepsGrow(c, polls - 1);
    }
  }

  /** What a wait looks like is determined by the configuration and the environment. */
  lemma TraceUnique(c: Config, env: Env, o1: Outcome, polls1: nat, now1: int, o2: Outcome, polls2: nat, now2: int)
    requires Trace(c, env, o1, polls1, now1) && Trace(c, env, o2, polls2, now2)
    ensures o1 == o2 && polls1 == polls2 && now1 == now2
  {
    if polls1 < polls2 {
      StartsGrow(c, env, polls1, polls2 - 1);
    } else if polls2 < polls1 {
      StartsGrow(c, env, polls2, polls1 - 1);
    }
  }

  class WaitAPIConditionConfig {
    var timeout: int
    var interval: int
    var maxInterval: int
    var backoff: real

    ghost function Value(): Config
      reads this
    {
      Config(timeout, interval, maxInterval, backoff)
    }

    constructor (c: Config)
      ensures Value() == c
    {
      timeout, interval, maxInterval, backoff := c.timeout, c.interval, c.maxInterval, c.backoff;
    }

    method Normalize()
      modifies this
      ensures Value() == Normalized(old(Value()))
    {
      if timeout == 0 { timeout := DEFAULT_TIMEOUT; }
      if interval == 0 { interval := DEFAULT_INTERVAL; }
      if maxInterval == 0 { maxInterval := DEFAULT_MAX_INTERVAL; }
      if backoff == 0.0 { backoff := DEFAULT_BACKOFF; }
    }

    method NextInterval() returns (current: int)
      modifies this
      ensures current == old(Value()).interval
      ensures Value() == Bumped(old(Value()))
    {
      current := interval;
      var next := Truncate(interval as real * (1.0 + backoff));
      if next > maxInterval {
        next := maxInterval;
      }
      interval := next;
    }

    /** One sleep of the loop, after n others. */
    method SleepOnce(ghost c: Config, ghost n: nat) returns (slept: int)
      requires Value() == BumpedTimes(c, n)
      modifies this
      ensures Value() == BumpedTimes(c, n + 1) && timeout == old(timeout) && slept == Pause(c, n)
    {
      slept := NextInterval();
      if slept < 0 {
        slept := 0;
      }
    }

    /** Needs only that the wait does end. */
    method WaitAPICondition(env: Env) returns (o: Outcome, polls: nat, now: int)
      requires Ends(Normalized(Value()), env)
      modifies this
      ensures Trace(Normalized(old(Value())), env, o, polls, now)
    {
      Normalize();
      ghost var c := Value();
      ghost var last: nat :| StopsIn(c, env, last);
      polls, now := 0, 0;
      while true
        invariant Value() == BumpedTimes(c, polls) && timeout == c.timeout
        invariant Waiting(c, env, polls, now) && polls <= last
        invariant NotStopped(c, env, polls)
        decreases last - polls
      {
        if now >= timeout || (env.cancelAt.Some? && now >= env.cancelAt.value) {
          ClockEnds(c, env, polls, now);
          return if CancelledBy(env, now) then Cancelled else TimedOut, polls, now;
        }
        var answer := env.answer(polls);
        if answer != Verdict(false) {
          o := match answer { case ApiError => CallFailed case VerifyError => VerifyFailed case Verdict(_) => Met };
          PollEnds(c, env, polls, now, o);
          return o, polls + 1, now + env.cost(polls);
        }
        WaitsOn(c, env, polls, now);
        NotStoppedYet(c, env, polls, now, last);
        var slept := SleepOnce(c, polls);
        now, polls := now + env.cost(polls) + slept, polls + 1;
      }
    }
  }

  // ------------------------------------------------------------ tasks

  /** A task record: its state as text, and whether it has a name and a numeric id. */
  datatype Task = Task(state: string, identified: bool)

  predicate Failing(t: Task) {
    Lowered(t.state) !in {"completed", "running"}
  }

  /** Building the error message of this record panics. */
  predicate Unidentified(t: Option<Task>) {
    t.Some? && Failing(t.value) && !t.value.identified
  }

  /** What the verification makes of a poll; None is an API error. */
  function TaskVerdict(t: Option<Task>): Poll {
    match t
    case None => ApiError
    case Some(task) => if Failing(task) then VerifyError else Verdict(Lowered(task.state) == "completed")
  }

  function TaskEnv(tasks: nat -> Option<Task>, cost: nat -> nat, cancelAt: Option<int>): Env {
    Env((k: nat) => TaskVerdict(tasks(k)), cost, cancelAt)
  }

  function TaskConfig(timeout: int): Config {
    Normalized(Config(timeout, 0, 0, 0.0))
  }

  /** The clock alone: what the polls return does not matter to when they start. */
  function Clock(cost: nat -> nat, cancelAt: Option<int>): Env {
    Env((k: nat) => Verdict(false), cost, cancelAt)
  }

  /** Poll n of a wait that goes on until then starts before the timeout and the cancellation. */
  predicate InTime(timeout: int, cost: nat -> nat, cancelAt: Option<int>, n: nat) {
    var c, env := TaskConfig(timeout), Clock(cost, cancelAt);
    StartOf(c, env, n) < c.timeout && (cancelAt.Some? ==> StartOf(c, env, n) < cancelAt.value)
  }

  /** The poll finds a task in this state, in any casing. */
  predicate InState(t: Option<Task>, word: string) {
    t.Some? && AnyCasing(t.value.state, word)
  }

  /** Poll n finds the task completed, and all polls before it found it running. */
  predicate CompletedAt(tasks: nat -> Option<Task>, n: nat) {
    InState(tasks(n), "completed") && forall k :: 0 <= k < n ==> InState(tasks(k), "running")
  }

  /** Poll n finds the task in neither state and without a name or an id, and all polls before it found it running. */
  predicate BrokenAt(tasks: nat -> Option<Task>, n: nat) {
    && tasks(n).Some? && !InState(tasks(n), "completed") && !InState(tasks(n), "running")
    && !tasks(n).value.identified
    && forall k :: 0 <= k < n ==> InState(tasks(k), "running")
  }

  class AsyncResult {
    var success: bool
    var err: bool

    constructor ()
      ensures !success && !err
    {
      success, err := false, false;
    }

    /** Success is set exactly when some poll made in time finds the task completed after nothing but running
        states; the number of polls is at most the timeout over half a second, rounded up. A failing task whose record
        has no name or no id makes the building of the error message panic; then nothing is set. Anything else is an
        error. */
    method Wait(timeout: int, tasks: nat -> Option<Task>, cost: nat -> nat, cancelAt: Option<int>)
      returns (polls: nat, panicked: bool)
      modifies this
      ensures panicked <==> exists n: nat :: InTime(timeout, cost, cancelAt, n) && BrokenAt(tasks, n)
      ensures panicked ==> success == old(success) && err == old(err)
      ensures !panicked ==>
                (success <==> exists n: nat :: InTime(timeout, cost, cancelAt, n) && CompletedAt(tasks, n))
      ensures !panicked ==> (err <==> !success)
      ensures polls > 0 ==> (polls - 1) * DEFAULT_INTERVAL < TaskConfig(timeout).timeout
    {
      var config := new WaitAPIConditionConfig(Config(timeout, 0, 0, 0.0));
      var env := TaskEnv(tasks, cost, cancelAt);
      ghost var c := TaskConfig(timeout);
      PositiveEnds(c, env);
      var o, n, now := config.WaitAPICondition(env);
      PollsAndOvershoot(c, env, o, n, now);
      polls := n;
      panicked := o.VerifyFailed? && Unidentified(tasks(n - 1));
      OnlyLastDecides(timeout, env, o, n, now, tasks);
      if !panicked {
        success := o.Met?;
        err := !success;
      }
    }
  }

  /** What the verification makes of a state, in any casing. */
  lemma VerdictOn(t: Option<Task>)
    ensures TaskVerdict(t) == Verdict(true) <==> InState(t, "completed")
    ensures TaskVerdict(t) == Verdict(false) <==> InState(t, "running")
    ensures TaskVerdict(t) == ApiError <==> t.None?
  {
    if t.Some? {
      LoweredIff(t.value.state, "completed");
      LoweredIff(t.value.state, "running");
    }
  }

  lemma {:induction false} SameStarts(c: Config, a: Env, b: Env, n: nat)
    requires a.cost == b.cost
    ensures StartOf(c, a, n) == StartOf(c, b, n)
  {
    if n > 0 {
      SameStarts(c, a, b, n - 1);
    }
  }

  lemma InTimeIff(timeout: int, env: Env, n: nat)
    ensures var c := TaskConfig(timeout);
            InTime(timeout, env.cost, env.cancelAt, n) <==> !Over(c, env, StartOf(c, env, n))
  {
    SameStarts(TaskConfig(timeout), env, Clock(env.cost, env.cancelAt), n);
  }

  /** Only the last poll of a wait can decide it. */
  lemma DeciderIsLast(timeout: int, env: Env, o: Outcome, polls: nat, now: int, tasks: nat -> Option<Task>, m: nat)
    requires Trace(TaskConfig(timeout), env, o, polls, now) && env == TaskEnv(tasks, env.cost, env.cancelAt)
    requires InTime(timeout, env.cost, env.cancelAt, m)
    requires !InState(tasks(m), "running") && forall k :: 0 <= k < m ==> InState(tasks(k), "running")
    ensures m == polls - 1
  {
    InTimeIff(timeout, env, m);
    VerdictOn(tasks(m));
    assert env.answer(m) == TaskVerdict(tasks(m));
    if m >= polls {
      StartsGrow(TaskConfig(timeout), env, polls, m);
      if polls > 0 {
        VerdictOn(tasks(polls - 1));
      }
    }
  }

  /** A poll that ended a wait was made in time after nothing but running states. */
  lemma LastInTime(timeout: int, env: Env, o: Outcome, polls: nat, now: int, tasks: nat -> Option<Task>)
    requires Trace(TaskConfig(timeout), env, o, polls, now) && env == TaskEnv(tasks, env.cost, env.cancelAt)
    requires polls > 0
    ensures InTime(timeout, env.cost, env.cancelAt, polls - 1)
    ensures forall k :: 0 <= k < polls - 1 ==> InState(tasks(k), "running")
  {
    InTimeIff(timeout, env, polls - 1);
    forall k | 0 <= k < polls - 1 ensures InState(tasks(k), "running") {
      assert env.answer(k) == Verdict(false);
      VerdictOn(tasks(k));
    }
  }

  /** How the wait ended tells whether some poll completes it or panics. */
  lemma OnlyLastDecides(timeout: int, env: Env, o: Outcome, polls: nat, now: int, tasks: nat -> Option<Task>)
    requires Trace(TaskConfig(timeout), env, o, polls, now) && env == TaskEnv(tasks, env.cost, env.cancelAt)
    ensures o.Met? <==> exists n: nat :: InTime(timeout, env.cost, env.cancelAt, n) && CompletedAt(tasks, n)
    ensures o.VerifyFailed? && Unidentified(tasks(polls - 1)) <==>
            exists n: nat :: InTime(timeout, env.cost, env.cancelAt, n) && BrokenAt(tasks, n)
  {
    if polls > 0 {
      VerdictOn(tasks(polls - 1));
      LastInTime(timeout, env, o, polls, now, tasks);
      assert o.Met? ==> CompletedAt(tasks, polls - 1);
      assert o.VerifyFailed? && Unidentified(tasks(polls - 1)) ==> BrokenAt(tasks, polls - 1);
    }
    if m: nat :| InTime(timeout, env.cost, env.cancelAt, m) && CompletedAt(tasks, m) {
      DeciderIsLast(timeout, env, o, polls, now, tasks, m);
    }
    if m: nat :| InTime(timeout, env.cost, env.cancelAt, m) && BrokenAt(tasks, m) {
      DeciderIsLast(timeout, env, o, polls, now, tasks, m);
    }
  }

  lemma {:induction false} StartsGrow(c: Config, env: Env, m: nat, n: nat)
    requires m <= n
    ensures StartOf(c, env, m) <= StartOf(c, env, n)
    decreases n
  {
    if m < n {
      StartsGrow(c, env, m, n - 1);
    }
  }
}
