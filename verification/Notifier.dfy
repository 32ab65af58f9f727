/**
 * Delivery of notification jobs: claim, send, then retry with growing delays or give
 * up.  Sends and store writes may fail at any time.
 */
module Notifier {
  import opened Common
  import opened Orders

  /** Durations and times are in nanoseconds; a deadline of 0 is none. */
  datatype Config = Config(initial: int, max: int, multiplier: real, maxRetries: int, deadlineAfter: int,
                           jobDeadline: int)

  datatype Status = Pending | Sending | Failed | Delivered | DeadLetter

  /** `held` is true while a worker is busy with the job; `sends` counts the attempts to deliver it. */
  datatype Job = Job(createdAt: int, updatedAt: int, status: Status, attempts: nat, retryCount: nat,
                     nextRetryAt: Option<int>, held: bool, sends: nat)

  // ---------------------------------------------------------------------
  // Delays
  // ---------------------------------------------------------------------

  function Pow(base: real, n: nat): real {
    if n == 0 then 1.0 else base * Pow(base, n - 1)
  }

  /** The delay before it is cut to whole nanoseconds. */
  function Delay(c: Config, retryCount: nat): real {
    Capped(c.initial as real * Pow(c.multiplier, retryCount), c.max as real)
  }

  function Capped(delay: real, max: real): real {
    if delay > max then max else delay
  }

  function NextRetry(c: Config, wall: int, retryCount: nat): int {
    wall + Delay(c, retryCount).Floor
  }

  const SECOND := 1_000_000_000

  /** The store keeps times in whole seconds. */
  function Stored(time: int): int {
    time - time % SECOND
  }

  lemma {:induction false} PowIsPositive(base: real, n: nat)
    requires base > 0.0
    ensures Pow(base, n) > 0.0
  {
    if n > 0 {
      PowIsPositive(base, n - 1);
      MulPositive(base, Pow(base, n - 1));
    }
  }

  lemma MulPositive(a: real, b: real)
    requires a > 0.0 && b > 0.0
    ensures a * b > 0.0
  {
  }

  lemma MulMonotone(a: real, b: real, c: real)
    requires a >= 0.0 && b <= c
    ensures a * b <= a * c
  {
  }

  /** With a multiplier of at least 1 powers do not shrink. */
  lemma PowGrows(base: real, n: nat)
    requires base >= 1.0
    ensures Pow(base, n) <= Pow(base, n + 1)
  {
    PowIsPositive(base, n);
    MulMonotone(Pow(base, n), 1.0, base);
  }

  lemma {:induction false} PowAtLeastOne(base: real, n: nat)
    requires base >= 1.0
    ensures Pow(base, n) >= 1.0
  {
    if n > 0 {
      PowAtLeastOne(base, n - 1);
      PowGrows(base, n - 1);
    }
  }

  ghost predicate Sane(c: Config) {
    0 < c.initial <= c.max && c.multiplier > 0.0
  }

  lemma CappedGrows(x: real, y: real, max: real)
    requires x <= y
    ensures Capped(x, max) <= Capped(y, max)
  {
  }

  lemma DelayGrows(c: Config, n: nat)
    requires Sane(c) && c.multiplier >= 1.0
    ensures Delay(c, n) <= Delay(c, n + 1)
  {
    var p, q := Pow(c.multiplier, n), Pow(c.multiplier, n + 1);
    PowGrows(c.multiplier, n);
    MulMonotone(c.initial as real, p, q);
    CappedGrows(c.initial as real * p, c.initial as real * q, c.max as real);
  }

  lemma DelayInRange(c: Config, n: nat)
    requires Sane(c) && c.multiplier >= 1.0
    ensures c.initial as real <= Delay(c, n) <= c.max as real
  {
    var p := Pow(c.multiplier, n);
    PowAtLeastOne(c.multiplier, n);
    MulMonotone(c.initial as real, 1.0, p);
    CappedGrows(c.initial as real, c.initial as real * p, c.max as real);
  }

  /** Successive delays never shrink exactly when the multiplier is at least 1. */
  lemma DelaysGrowIff(c: Config)
    requires Sane(c)
    ensures (forall n: nat :: Delay(c, n) <= Delay(c, n + 1)) <==> c.multiplier >= 1.0
  {
    if c.multiplier >= 1.0 {
      forall n: nat ensures Delay(c, n) <= Delay(c, n + 1) {
        DelayGrows(c, n);
      }
    } else {
      SecondDelayShrinks(c);
      assert !(Delay(c, 0) <= Delay(c, 0 + 1));
    }
  }

  lemma FirstPowers(base: real)
    ensures Pow(base, 0) == 1.0 && Pow(base, 1) == base
  {
    assert Pow(base, 1) == base * Pow(base, 0);
  }

  lemma CappedShrinks(x: real, y: real, max: real)
    requires x < y <= max
    ensures Capped(x, max) < Capped(y, max)
  {
  }

  lemma SecondDelayShrinks(c: Config)
    requires Sane(c) && c.multiplier < 1.0
    ensures Delay(c, 1) < Delay(c, 0)
  {
    var a, max := c.initial as real, c.max as real;
    FirstPowers(c.multiplier);
    ShrinkingFactor(a, c.multiplier);
    CappedShrinks(a * c.multiplier, a, max);
    assert Delay(c, 0) == Capped(a * 1.0, max) == Capped(a, max);
    assert Delay(c, 1) == Capped(a * c.multiplier, max);
  }

  lemma ShrinkingFactor(a: real, b: real)
    requires a > 0.0 && 0.0 < b < 1.0
    ensures a * b < a
  {
  }

  /** In whole nanoseconds too, the waits grow and stay between the initial and the maximal backoff. */
  lemma WaitsGrow(c: Config, wall: int, n: nat)
    requires Sane(c) && c.multiplier >= 1.0
    ensures NextRetry(c, wall, n) <= NextRetry(c, wall, n + 1)
    ensures wall + c.initial <= NextRetry(c, wall, n) <= wall + c.max
  {
    DelayGrows(c, n);
    DelayInRange(c, n);
  }

  // ---------------------------------------------------------------------
  // One job
  // ---------------------------------------------------------------------

  predicate ShouldDeadLetter(c: Config, retryCount: nat, createdAt: int, wall: int, is4xx: bool) {
    || is4xx
    || (c.maxRetries > 0 && retryCount >= c.maxRetries)
    || (c.deadlineAfter > 0 && wall - createdAt > c.deadlineAfter)
  }

  predicate Due(j: Job, now: int) {
    (j.status == Pending || j.status == Failed) && (j.nextRetryAt.Some? ==> j.nextRetryAt.value <= Stored(now))
  }

  function Claimed(j: Job, now: int): Job {
    j.(status := Sending, attempts := j.attempts + 1, updatedAt := Stored(now), held := true)
  }

  /** How the world treats one delivery: the two clocks, the receiver's answer, and whether the final write fails. */
  datatype World = World(now: int, wall: int, sent: bool, is4xx: bool, writeFails: bool)

  predicate Expired(c: Config, j: Job, now: int) {
    c.jobDeadline > 0 && now > j.createdAt + c.jobDeadline
  }

  function Finished(c: Config, j: Job, w: World): Job {
    var left := j.(held := false, sends := if Expired(c, j, w.now) then j.sends else j.sends + 1);
    if w.writeFails then left
    else
      var written := left.(updatedAt := Stored(w.wall));
      if Expired(c, j, w.now) then written.(status := DeadLetter)
      else if w.sent then written.(status := Delivered, nextRetryAt := None)
      else if ShouldDeadLetter(c, j.retryCount, j.createdAt, w.wall, w.is4xx) then written.(status := DeadLetter)
      else written.(status := Failed, retryCount := j.retryCount + 1,
                    nextRetryAt := Some(Stored(NextRetry(c, w.wall, j.retryCount))))
  }

  datatype Step = Claim(now: int) | Finish(world: World)

  predicate CanStep(j: Job, step: Step) {
    match step
    case Claim(now) => Due(j, now)
    case Finish(_) => j.status == Sending && j.held
  }

  function After(c: Config, j: Job, step: Step): Job {
    match step
    case Claim(now) => Claimed(j, now)
    case Finish(w) => Finished(c, j, w)
  }

  predicate IsNew(j: Job) {
    j.status == Pending && j.attempts == 0 && j.retryCount == 0 && !j.held && j.sends == 0
  }

  /** Every recorded retry is one send, and at most one send is not recorded. */
  ghost predicate Inv(c: Config, j: Job) {
    && (j.status == Pending || j.status == Failed || j.held ==> j.sends == j.retryCount)
    && (j.held ==> j.status == Sending)
    && j.sends <= j.retryCount + 1
    && (c.maxRetries > 0 ==> j.retryCount <= c.maxRetries)
  }

  lemma StepKeepsInv(c: Config, j: Job, step: Step)
    requires Inv(c, j) && CanStep(j, step)
    ensures Inv(c, After(c, j, step))
  {
  }

  ghost predicate Run(c: Config, jobs: seq<Job>, steps: seq<Step>) {
    && |jobs| == |steps| + 1 && IsNew(jobs[0])
    && forall i :: 0 <= i < |steps| ==> CanStep(jobs[i], steps[i]) && jobs[i + 1] == After(c, jobs[i], steps[i])
  }

  lemma {:induction false} RunKeepsInv(c: Config, jobs: seq<Job>, steps: seq<Step>, i: nat)
    requires Run(c, jobs, steps) && i < |jobs|
    ensures Inv(c, jobs[i])
  {
    if i > 0 {
      RunKeepsInv(c, jobs, steps, i - 1);
      StepKeepsInv(c, jobs[i - 1], steps[i - 1]);
    }
  }

  /** A job is sent at most once more than the limit of retries, even when writes fail. */
  lemma SendsAreBounded(c: Config, jobs: seq<Job>, steps: seq<Step>, i: nat)
    requires Run(c, jobs, steps) && i < |jobs| && c.maxRetries > 0
    ensures jobs[i].sends <= c.maxRetries + 1
  {
    RunKeepsInv(c, jobs, steps, i);
  }

  /** A deadline of the job has passed when its delivery is due, so it is not sent. */
  ghost predicate PastDeadline(c: Config, j: Job, w: World) {
    c.jobDeadline > 0 && w.now - j.createdAt > c.jobDeadline
  }

  /** The receiver refused, and nothing allows another try. */
  ghost predicate GivenUp(c: Config, j: Job, w: World) {
    && !w.sent
    && (|| w.is4xx || (c.maxRetries > 0 && j.retryCount >= c.maxRetries)
        || (c.deadlineAfter > 0 && w.wall - j.createdAt > c.deadlineAfter))
  }

  /**
   * In every run, a delivery that is written down ends in one of three ways: a job the
   * receiver took is delivered, one past its deadline or given up is a dead letter, and
   * any other is tried again later.  The first two end the run.  If the write fails, the
   * job stays in the hands of nobody, and that ends the run too.
   */
  lemma OutcomesOfDelivery(c: Config, jobs: seq<Job>, steps: seq<Step>, i: nat)
    requires Run(c, jobs, steps) && i < |steps| && steps[i].Finish?
    ensures var w, j, j' := steps[i].world, jobs[i], jobs[i + 1];
            && (j'.status == Sending <==> w.writeFails)
            && (j'.status == Delivered <==> !w.writeFails && !PastDeadline(c, j, w) && w.sent)
            && (j'.status == DeadLetter <==> !w.writeFails && (PastDeadline(c, j, w) || GivenUp(c, j, w)))
            && (j'.status == Failed <==> !w.writeFails && !PastDeadline(c, j, w) && !w.sent && !GivenUp(c, j, w))
            && (j'.sends == j.sends <==> PastDeadline(c, j, w))
            && (j'.status == Delivered ==> j'.nextRetryAt == None)
            && j'.retryCount == (if j'.status == Failed then j.retryCount + 1 else j.retryCount)
            && (j'.status == Failed ==> j'.nextRetryAt == Some(Stored(NextRetry(c, w.wall, j.retryCount))))
    ensures jobs[i + 1].status != Failed ==> i + 1 == |steps|
  {
    assert jobs[i + 1] == After(c, jobs[i], steps[i]);
    assert i + 1 < |steps| ==> CanStep(jobs[i + 1], steps[i + 1]);
  }

  /** The claims of a run. */
  ghost function Claims(steps: seq<Step>): nat {
    if steps == [] then 0 else Claims(steps[..|steps| - 1]) + if steps[|steps| - 1].Claim? then 1 else 0
  }

  /** The attempts that a job records are its claims. */
  lemma {:induction false} AttemptsAreClaims(c: Config, jobs: seq<Job>, steps: seq<Step>, i: nat)
    requires Run(c, jobs, steps) && i < |jobs|
    ensures jobs[i].attempts == Claims(steps[..i])
  {
    if i > 0 {
      AttemptsAreClaims(c, jobs, steps, i - 1);
      assert steps[..i][..i - 1] == steps[..i - 1] && jobs[i] == After(c, jobs[i - 1], steps[i - 1]);
    }
  }

  // ---------------------------------------------------------------------
  // When sends are bounded
  // ---------------------------------------------------------------------

  /** The clocks do not go back: a job is claimed after it was created and delivered after it was claimed. */
  ghost predicate Timely(j: Job, step: Step) {
    match step
    case Claim(now) => j.createdAt <= now
    case Finish(w) => j.updatedAt <= w.now <= w.wall
  }

  ghost predicate TimelyRun(c: Config, jobs: seq<Job>, steps: seq<Step>) {
    Run(c, jobs, steps) && forall i :: 0 <= i < |steps| ==> Timely(jobs[i], steps[i])
  }

  /** Delays are at least a nanosecond, and do not shrink. */
  ghost predicate Spaced(c: Config) {
    Sane(c) && c.multiplier >= 1.0
  }

  /** From some retry on, a job waits a second or more, which the stored times show. */
  ghost predicate Slow(c: Config) {
    c.max >= SECOND && (c.initial >= SECOND || c.multiplier > 1.0)
  }

  ghost predicate HasDeadline(c: Config) {
    c.deadlineAfter > 0 || c.jobDeadline > 0
  }

  ghost predicate IsLimited(c: Config) {
    c.maxRetries > 0 || (HasDeadline(c) && Slow(c))
  }

  lemma MulNonNegative(a: real, b: real)
    requires a >= 0.0 && b >= 0.0
    ensures a * b >= 0.0
  {
  }

  lemma OneMoreFactor(x: real, p: real, q: real)
    requires x >= 0.0 && q >= 0.0 && p >= 1.0 + q
    ensures (1.0 + x) * p >= 1.0 + q + x
  {
    MulMonotone(x, 1.0, p);
  }

  lemma OneMoreTerm(n: nat, x: real)
    ensures (n + 1) as real * x == n as real * x + x
  {
  }

  /** Powers grow at least linearly. */
  lemma {:induction false} Bernoulli(x: real, n: nat)
    requires x >= 0.0
    ensures Pow(1.0 + x, n) >= 1.0 + n as real * x
  {
    if n > 0 {
      var p, q := Pow(1.0 + x, n - 1), (n - 1) as real * x;
      Bernoulli(x, n - 1);
      MulNonNegative((n - 1) as real, x);
      OneMoreFactor(x, p, q);
      OneMoreTerm(n - 1, x);
      assert Pow(1.0 + x, n) == (1.0 + x) * p;
    }
  }

  lemma Enough(x: real, y: real) returns (n: nat)
    requires x > 0.0 && y > 0.0
    ensures n as real * x >= y
  {
    var q := y / x;
    assert q * x == y;
    n := if q.Floor < 0 then 0 else q.Floor + 1;
    MulMonotone(x, q, n as real);
  }

  lemma {:induction false} PowOfOne(n: nat)
    ensures Pow(1.0, n) == 1.0
  {
    if n > 0 {
      PowOfOne(n - 1);
    }
  }

  /** Slow configurations have a delay of a second, and it stays at a second or more. */
  lemma SlowFrom(c: Config) returns (k: nat)
    requires Spaced(c) && Slow(c)
    ensures forall n: nat :: n >= k ==> Delay(c, n).Floor >= SECOND
  {
    var second := SECOND as real;
    if c.initial >= SECOND {
      k := 0;
      DelayInRange(c, 0);
    } else {
      k := Enough(c.multiplier - 1.0, second);
      var p := Pow(c.multiplier, k);
      Bernoulli(c.multiplier - 1.0, k);
      assert p >= second;
      PowAtLeastOne(c.multiplier, k);
      MulMonotone(p, 1.0, c.initial as real);
      CappedGrows(second, c.initial as real * p, c.max as real);
    }
    forall n: nat | n >= k ensures Delay(c, n).Floor >= SECOND {
      DelaysStay(c, k, n);
    }
  }

  lemma {:induction false} DelaysStay(c: Config, k: nat, n: nat)
    requires Spaced(c) && k <= n
    ensures Delay(c, k) <= Delay(c, n)
  {
    if k < n {
      DelaysStay(c, k, n - 1);
      DelayGrows(c, n - 1);
    }
  }

  /** Otherwise every delay is under a second. */
  lemma QuickDelays(c: Config, n: nat)
    requires Spaced(c) && !Slow(c)
    ensures 0 <= Delay(c, n).Floor < SECOND
  {
    DelayInRange(c, n);
    if c.max >= SECOND {
      PowOfOne(n);
      assert c.multiplier == 1.0;
      assert Delay(c, n) <= c.initial as real;
    }
  }

  /** The time that shows after so many retries, if the waits are a second or more from the kth on. */
  function Waits(k: nat, n: nat): int {
    if n <= k then 0 else (n - k) * SECOND
  }

  ghost predicate Slows(c: Config, k: nat) {
    forall n: nat :: n >= k ==> Delay(c, n).Floor >= SECOND
  }

  /** The time of the waits has passed, and the retries recorded fit in the deadlines. */
  ghost predicate TimeInv(c: Config, k: nat, j: Job) {
    var start := Stored(j.createdAt);
    && (j.status == Failed ==> j.nextRetryAt.Some? && start + Waits(k, j.retryCount) <= j.nextRetryAt.value)
    && (j.status == Pending ==> j.retryCount == 0)
    && (j.held ==> start + Waits(k, j.retryCount) <= j.updatedAt)
    && (j.retryCount > 0 && c.deadlineAfter > 0 ==> Waits(k, j.retryCount - 1) <= c.deadlineAfter + SECOND)
    && (j.retryCount > 0 && c.jobDeadline > 0 ==> Waits(k, j.retryCount - 1) <= c.jobDeadline + SECOND)
  }

  lemma StoredIsMonotone(a: int, b: int)
    requires a <= b
    ensures Stored(a) <= Stored(b)
    ensures a + SECOND <= b ==> Stored(a) + SECOND <= Stored(b)
    ensures a - SECOND < Stored(a) <= a && Stored(Stored(a)) == Stored(a)
  {
  }

  lemma ClaimKeepsTime(c: Config, k: nat, j: Job, now: int)
    requires Inv(c, j) && TimeInv(c, k, j) && CanStep(j, Claim(now)) && Timely(j, Claim(now))
    ensures TimeInv(c, k, After(c, j, Claim(now)))
  {
    StoredIsMonotone(j.createdAt, now);
  }

  lemma FinishKeepsTime(c: Config, k: nat, j: Job, w: World)
    requires Spaced(c) && Slows(c, k) && TimeInv(c, k, j) && CanStep(j, Finish(w)) && Timely(j, Finish(w))
    requires Stored(j.updatedAt) == j.updatedAt
    ensures TimeInv(c, k, After(c, j, Finish(w)))
  {
    var next := NextRetry(c, w.wall, j.retryCount);
    DelayInRange(c, j.retryCount);
    StoredIsMonotone(j.updatedAt, w.wall);
    StoredIsMonotone(w.wall, next);
    StoredIsMonotone(j.createdAt, j.createdAt);
  }

  lemma {:induction false} RunKeepsTime(c: Config, k: nat, jobs: seq<Job>, steps: seq<Step>, i: nat)
    requires Spaced(c) && Slows(c, k) && TimelyRun(c, jobs, steps) && i < |jobs|
    ensures TimeInv(c, k, jobs[i]) && (jobs[i].held ==> Stored(jobs[i].updatedAt) == jobs[i].updatedAt)
  {
    if i > 0 {
      RunKeepsTime(c, k, jobs, steps, i - 1);
      RunKeepsInv(c, jobs, steps, i - 1);
      var j, step := jobs[i - 1], steps[i - 1];
      match step
      case Claim(now) =>
        ClaimKeepsTime(c, k, j, now);
        StoredIsMonotone(now, now);
      case Finish(w) => FinishKeepsTime(c, k, j, w);
    }
  }

  /** The bound that a deadline gives, in whole seconds, if the waits are slow from the kth on. */
  ghost function DeadlineBound(k: nat, deadline: int): int {
    k + deadline / SECOND + 4
  }

  /** A deadline bounds the sends of a job as soon as its waits show in the stored times. */
  lemma DeadlineLimitsSends(c: Config, k: nat, jobs: seq<Job>, steps: seq<Step>, i: nat)
    requires Spaced(c) && Slows(c, k) && TimelyRun(c, jobs, steps) && i < |jobs|
    ensures c.deadlineAfter > 0 ==> jobs[i].sends <= DeadlineBound(k, c.deadlineAfter)
    ensures c.jobDeadline > 0 ==> jobs[i].sends <= DeadlineBound(k, c.jobDeadline)
  {
    RunKeepsInv(c, jobs, steps, i);
    RunKeepsTime(c, k, jobs, steps, i);
  }

  /** A delivery that the receiver refuses with a retryable error. */
  function Refusal(now: int): World {
    World(now, now, false, false, false)
  }

  /** One more claim and refusal at the end of a run, before any deadline. */
  lemma Round(c: Config, js: seq<Job>, ss: seq<Step>, now: int) returns (jobs: seq<Job>, steps: seq<Step>)
    requires TimelyRun(c, js, ss) && c.maxRetries <= 0
    requires var last := js[|js| - 1]; Due(last, now) && last.createdAt <= now
    requires HasDeadline(c) ==> js[|js| - 1].createdAt == now
    ensures TimelyRun(c, jobs, steps) && jobs[0] == js[0]
    ensures var last, next := js[|js| - 1], jobs[|jobs| - 1];
            && next.sends == last.sends + 1 && next.createdAt == last.createdAt && next.status == Failed
            && next.nextRetryAt == Some(Stored(NextRetry(c, now, last.retryCount)))
  {
    var claimed := Claimed(js[|js| - 1], now);
    StoredIsMonotone(now, now);
    jobs := js + [claimed, Finished(c, claimed, Refusal(now))];
    steps := ss + [Claim(now), Finish(Refusal(now))];
    forall i | 0 <= i < |steps|
      ensures CanStep(jobs[i], steps[i]) && jobs[i + 1] == After(c, jobs[i], steps[i]) && Timely(jobs[i], steps[i])
    {
      if i < |ss| {
        assert jobs[i] == js[i] && steps[i] == ss[i] && jobs[i + 1] == js[i + 1];
      }
    }
  }

  /** The moment of the next round: right away if waits do not show, or else when the job is due. */
  function NextRound(c: Config, j: Job): int {
    if j.nextRetryAt.Some? && j.nextRetryAt.value > j.createdAt then j.nextRetryAt.value else j.createdAt
  }

  /**
   * Without a limit on retries, and without a deadline that the waits would reach, a job
   * that is always refused can be sent any number of times.
   */
  lemma {:induction false} UnlimitedRetries(c: Config, job: Job, n: nat) returns (jobs: seq<Job>, steps: seq<Step>)
    requires Spaced(c) && !IsLimited(c) && IsNew(job) && job.nextRetryAt == None
    requires HasDeadline(c) ==> Stored(job.createdAt) == job.createdAt
    ensures TimelyRun(c, jobs, steps) && jobs[0] == job
    ensures var last := jobs[|jobs| - 1];
            && last.sends == n && last.createdAt == job.createdAt && (last.status == Pending || last.status == Failed)
            && (last.nextRetryAt.Some? ==> Stored(last.nextRetryAt.value) == last.nextRetryAt.value)
            && (HasDeadline(c) && last.nextRetryAt.Some? ==> last.nextRetryAt.value == job.createdAt)
  {
    if n == 0 {
      jobs, steps := [job], [];
    } else {
      var js, ss := UnlimitedRetries(c, job, n - 1);
      var last := js[|js| - 1];
      var now := NextRound(c, last);
      StoredIsMonotone(last.createdAt, now);
      StoredIsMonotone(NextRetry(c, now, last.retryCount), NextRetry(c, now, last.retryCount));
      if HasDeadline(c) {
        QuickDelays(c, last.retryCount);
      }
      if last.nextRetryAt.Some? {
        StoredIsMonotone(last.nextRetryAt.value, now);
      }
      jobs, steps := Round(c, js, ss, now);
    }
  }

  ghost predicate Bounded(c: Config, bound: int) {
    forall jobs: seq<Job>, steps: seq<Step>, i :: TimelyRun(c, jobs, steps) && 0 <= i < |jobs| ==>
      jobs[i].sends <= bound
  }

  lemma LimitedIsBounded(c: Config) returns (bound: int)
    requires Spaced(c) && IsLimited(c)
    ensures Bounded(c, bound)
  {
    if c.maxRetries > 0 {
      bound := c.maxRetries + 1;
      forall jobs: seq<Job>, steps: seq<Step>, i | TimelyRun(c, jobs, steps) && 0 <= i < |jobs|
        ensures jobs[i].sends <= bound
      {
        SendsAreBounded(c, jobs, steps, i);
      }
    } else {
      var k := SlowFrom(c);
      bound := DeadlineBound(k, if c.deadlineAfter > 0 then c.deadlineAfter else c.jobDeadline);
      forall jobs: seq<Job>, steps: seq<Step>, i | TimelyRun(c, jobs, steps) && 0 <= i < |jobs|
        ensures jobs[i].sends <= bound
      {
        DeadlineLimitsSends(c, k, jobs, steps, i);
      }
    }
  }

  /**
   * With clocks that do not go back, sends are bounded exactly when retries are limited,
   * or a deadline is set and some delay is a second or more.
   */
  lemma SendsAreBoundedIff(c: Config)
    requires Spaced(c)
    ensures (exists bound :: Bounded(c, bound)) <==> IsLimited(c)
  {
    if IsLimited(c) {
      var bound := LimitedIsBounded(c);
    } else {
      forall bound ensures !Bounded(c, bound) {
        var job := Job(0, 0, Pending, 0, 0, None, false, 0);
        var jobs, steps := UnlimitedRetries(c, job, if bound < 0 then 0 else bound + 1);
        assert jobs[|jobs| - 1].sends > bound;
      }
    }
  }

  // ---------------------------------------------------------------------
  // The consumer
  // ---------------------------------------------------------------------

  class Consumer {
    const config: Config
    var jobs: map<string, Job>

    ghost predicate Valid()
      reads this
    {
      forall id :: id in jobs ==> Inv(config, jobs[id])
    }

    constructor (config: Config, jobs: map<string, Job>)
      requires forall id :: id in jobs ==> IsNew(jobs[id])
      ensures Valid() && this.config == config && this.jobs == jobs
    {
      this.config, this.jobs := config, jobs;
    }

    /** The oldest due job is claimed; nothing due is not an error. */
    method ClaimNext(now: int) returns (claimed: Option<string>)
      requires Valid()
      modifies this`jobs
      ensures Valid()
      ensures claimed.None? <==> forall id :: id in old(jobs) ==> !Due(old(jobs)[id], now)
      ensures claimed.None? ==> jobs == old(jobs)
      ensures claimed.Some? ==>
                && claimed.value in old(jobs) && Due(old(jobs)[claimed.value], now)
                && jobs == old(jobs)[claimed.value := Claimed(old(jobs)[claimed.value], now)]
                && forall id :: id in old(jobs) && Due(old(jobs)[id], now) ==>
                     old(jobs)[claimed.value].createdAt <= old(jobs)[id].createdAt
    {
      var due := set id | id in jobs && Due(jobs[id], now) :: (jobs[id].createdAt, id);
      assert forall id :: id in jobs && Due(jobs[id], now) ==> (jobs[id].createdAt, id) in due;
      if due == {} {
        return None;
      }
      EarlierIsTotal();
      var first := Least(Earlier, due);
      var id := first.1;
      forall other | other in jobs && Due(jobs[other], now) ensures jobs[id].createdAt <= jobs[other].createdAt {
        assert (jobs[other].createdAt, other) in due;
      }
      StepKeepsInv(config, jobs[id], Claim(now));
      jobs := jobs[id := Claimed(jobs[id], now)];
      return Some(id);
    }

    /** Send, then record the outcome: delivered, scheduled for a retry, or given up. */
    method Deliver(id: string, w: World) returns (ok: bool)
      requires Valid() && id in jobs && jobs[id].status == Sending && jobs[id].held
      modifies this`jobs
      ensures Valid() && jobs == old(jobs)[id := Finished(config, old(jobs)[id], w)]
    {
      var job := jobs[id];
      StepKeepsInv(config, job, Finish(w));
      var next := job.(held := false);
      if config.jobDeadline > 0 {
        var deadline := job.createdAt + config.jobDeadline;
        if w.now > deadline {
          jobs := jobs[id := if w.writeFails then next else next.(status := DeadLetter, updatedAt := Stored(w.wall))];
          return !w.writeFails;
        }
      }
      next := next.(sends := job.sends + 1);
      if w.writeFails {
        jobs := jobs[id := next];
        return false;
      }
      next := next.(updatedAt := Stored(w.wall));
      if !w.sent {
        if ShouldDeadLetter(config, job.retryCount, job.createdAt, w.wall, w.is4xx) {
          jobs := jobs[id := next.(status := DeadLetter)];
          return true;
        }
        var newRetryCount := job.retryCount + 1;
        var nextRetry := Stored(NextRetry(config, w.wall, newRetryCount - 1));
        jobs := jobs[id := next.(status := Failed, retryCount := newRetryCount, nextRetryAt := Some(nextRetry))];
        return true;
      }
      jobs := jobs[id := next.(status := Delivered, nextRetryAt := None)];
      return true;
    }

    /**
     * Claim and deliver up to a number of due jobs, until a claim fails or nothing is due;
     * no job is sent more often than the limit allows.
     */
    method ProcessPending(limit: nat, now: int, claimFails: nat -> bool, worlds: nat -> World)
      requires Valid()
      modifies this`jobs
      ensures Valid() && jobs.Keys == old(jobs).Keys
      ensures forall id :: id in jobs && old(jobs)[id].status in {Delivered, DeadLetter} ==> jobs[id] == old(jobs)[id]
      ensures config.maxRetries > 0 ==> forall id :: id in jobs ==> jobs[id].sends <= config.maxRetries + 1
    {
      for i := 0 to limit
        invariant Valid() && jobs.Keys == old(jobs).Keys
        invariant forall id :: id in jobs && old(jobs)[id].status in {Delivered, DeadLetter} ==>
                    jobs[id] == old(jobs)[id]
      {
        if claimFails(i) {
          return;
        }
        var claimed := ClaimNext(now);
        if claimed.None? {
          return;
        }
        var _ := Deliver(claimed.value, worlds(i));
      }
    }
  }
}
