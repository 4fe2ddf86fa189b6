/** How many checks a rate limiter lets through. */
module RateBounds {
  import opened Wrappers
  import opened RateLimit

  // ----- What is admitted -----

  /** A check of one bucket: when, what it left, what it answered. */
  datatype Checked = Checked(now: real, bucket: Bucket, result: CheckResult)

  /** The checks of one bucket at the given times. */
  function Checks(known: Option<Bucket>, options: Options, times: seq<real>): (checks: seq<Checked>)
    requires ValidOptions(options)
    ensures |checks| == |times|
    decreases |times|
  {
    if times == [] then []
    else
      var (bucket, result) := CheckBucket(known, options, times[0]);
      [Checked(times[0], bucket, result)] + Checks(Some(bucket), options, times[1..])
  }

  /** How many checks at such times were admitted. */
  function AdmittedWhen(checks: seq<Checked>, when: real -> bool): nat {
    if checks == [] then 0
    else (if when(checks[0].now) && checks[0].result.Admitted? then 1 else 0) + AdmittedWhen(checks[1..], when)
  }

  function Within(first: real, last: real): real -> bool {
    (now: real) => first <= now <= last
  }

  ghost predicate Rising(times: seq<real>, start: real) {
    && (forall i :: 0 <= i < |times| ==> start <= times[i])
    && (forall i, j :: 0 <= i < j < |times| ==> times[i] <= times[j])
  }

  ghost predicate InTime(checks: seq<Checked>, start: real) {
    && (forall i :: 0 <= i < |checks| ==> start <= checks[i].now)
    && (forall i, j :: 0 <= i < j < |checks| ==> checks[i].now <= checks[j].now)
  }

  lemma {:induction false} NoneOutside(checks: seq<Checked>, first: real, last: real)
    requires forall i :: 0 <= i < |checks| ==> checks[i].now > last
    ensures AdmittedWhen(checks, Within(first, last)) == 0
  {
    if checks != [] {
      NoneOutside(checks[1..], first, last);
    }
  }

  // ----- Token buckets -----

  /** What comes back between two times. */
  type Earning = (real, real) -> real

  function Earned(rate: real): Earning {
    (at: real, now: real) => (now - at) * rate
  }

  ghost predicate Accrues(earned: Earning) {
    && (forall at, now :: at <= now ==> earned(at, now) >= 0.0)
    && (forall at, now, last :: at <= now <= last ==> earned(at, now) + earned(now, last) == earned(at, last))
  }

  lemma EarnedAccrues(rate: real)
    requires rate > 0.0
    ensures Accrues(Earned(rate))
  {
    forall at: real, now: real | at <= now
      ensures Earned(rate)(at, now) >= 0.0
    {
      NonNegative(now - at, rate);
    }
    forall at: real, now: real, last: real | at <= now <= last
      ensures Earned(rate)(at, now) + Earned(rate)(now, last) == Earned(rate)(at, last)
    {
      Distribute(now - at, last - now, rate);
    }
  }

  lemma Distribute(x: real, y: real, k: real)
    ensures x * k + y * k == (x + y) * k
  {
  }

  function Taken(c: Checked): real {
    if c.result.Admitted? then 1.0 else 0.0
  }

  /** What a token bucket holds at a time: what was there, what came back, less what was taken; when it
      refuses it holds less than one token and keeps all of them. */
  ghost predicate TokenStep(tokens: real, at: real, c: Checked, capacity: real, earned: Earning) {
    && c.bucket.TokenBucket? && c.bucket.refilledAt == c.now
    && 0.0 <= c.bucket.tokens
    && c.bucket.tokens + Taken(c) == Min(capacity, tokens + earned(at, c.now))
    && (c.result.Refused? ==> c.bucket.tokens < 1.0)
  }

  ghost predicate TokenRun(tokens: real, at: real, checks: seq<Checked>, capacity: real, earned: Earning)
    decreases |checks|
  {
    checks != [] ==>
      && TokenStep(tokens, at, checks[0], capacity, earned)
      && TokenRun(checks[0].bucket.tokens, checks[0].now, checks[1..], capacity, earned)
  }

  /** Refilling brings what was earned since, up to the capacity. */
  lemma RefillEarns(tokens: real, at: real, now: real, rate: real, capacity: real)
    requires at <= now && rate > 0.0 && 0.0 <= tokens <= capacity
    ensures RefilledTokens(tokens, now - at, rate, capacity) == Min(capacity, tokens + Earned(rate)(at, now))
    ensures 0.0 <= RefilledTokens(tokens, now - at, rate, capacity) <= capacity
    ensures Min(capacity, capacity + Earned(rate)(at, now)) == capacity
  {
    NonNegative(now - at, rate);
  }

  lemma CheckIsTokenStep(known: Option<Bucket>, options: Options, at: real, now: real)
    requires ValidOptions(options) && options.strategy == TokenBucketStrategy && at <= now
    requires known.Some? ==> BucketFor(known.value, options, at) && known.value.refilledAt == at
    ensures var (bucket, result) := CheckBucket(known, options, now);
            TokenStep(if known.Some? then known.value.tokens else options.max as real, at,
                      Checked(now, bucket, result), options.max as real, Earned(PerSecond(options)))
  {
    PerSecondPositive(options);
    var tokens := if known.Some? then known.value.tokens else options.max as real;
    RefillEarns(tokens, at, now, PerSecond(options), options.max as real);
    assert Refill(known, options, now).tokens == Min(options.max as real, tokens + Earned(PerSecond(options))(at, now));
  }

  lemma {:induction false} ChecksAreTokenRun(known: Option<Bucket>, options: Options, at: real, times: seq<real>)
    requires ValidOptions(options) && options.strategy == TokenBucketStrategy && Rising(times, at)
    requires known.Some? ==> BucketFor(known.value, options, at) && known.value.refilledAt == at
    ensures TokenRun(if known.Some? then known.value.tokens else options.max as real, at,
                     Checks(known, options, times), options.max as real, Earned(PerSecond(options)))
    ensures InTime(Checks(known, options, times), at)
    decreases |times|
  {
    if times != [] {
      var (bucket, _) := CheckBucket(known, options, times[0]);
      CheckIsTokenStep(known, options, at, times[0]);
      CheckKeepsBucket(known, options, at, times[0]);
      ChecksAreTokenRun(Some(bucket), options, times[0], times[1..]);
    }
  }

  lemma AdmittedFirst(checks: seq<Checked>, first: real, last: real)
    requires checks != []
    ensures AdmittedWhen(checks, Within(first, last)) as real
            <= AdmittedWhen(checks[1..], Within(first, last)) as real + Taken(checks[0])
  {
  }

  /** From a level at hand: what it holds plus what comes back until the end. */
  lemma {:induction false} TokensBoundFrom(tokens: real, at: real, checks: seq<Checked>, capacity: real,
                                           earned: Earning, first: real, last: real)
    requires TokenRun(tokens, at, checks, capacity, earned) && InTime(checks, at) && Accrues(earned) && tokens >= 0.0
             && at <= last
    ensures AdmittedWhen(checks, Within(first, last)) as real <= tokens + earned(at, last)
    decreases |checks|
  {
    if checks == [] || checks[0].now > last {
      NoneOutside(checks, first, last);
    } else {
      var c := checks[0];
      TokensBoundFrom(c.bucket.tokens, c.now, checks[1..], capacity, earned, first, last);
      AdmittedFirst(checks, first, last);
    }
  }

  lemma {:induction false} TokensBound(tokens: real, at: real, checks: seq<Checked>, capacity: real, earned: Earning,
                                       first: real, last: real)
    requires TokenRun(tokens, at, checks, capacity, earned) && InTime(checks, at) && Accrues(earned) && capacity >= 0.0
             && first <= last
    ensures AdmittedWhen(checks, Within(first, last)) as real <= capacity + earned(first, last)
    decreases |checks|
  {
    if checks == [] || checks[0].now > last {
      NoneOutside(checks, first, last);
    } else {
      var c := checks[0];
      if c.now < first {
        TokensBound(c.bucket.tokens, c.now, checks[1..], capacity, earned, first, last);
      } else {
        TokensBoundFrom(c.bucket.tokens, c.now, checks[1..], capacity, earned, first, last);
        AdmittedFirst(checks, first, last);
        assert earned(first, c.now) + earned(c.now, last) == earned(first, last);
      }
    }
  }

  /** In any interval a token bucket admits at most its capacity plus what comes back in that time. */
  lemma TokenBucketBound(options: Options, times: seq<real>, start: real, first: real, last: real)
    requires ValidOptions(options) && options.strategy == TokenBucketStrategy
    requires Rising(times, start) && first <= last
    ensures AdmittedWhen(Checks(None, options, times), Within(first, last)) as real
            <= options.max as real + Earned(PerSecond(options))(first, last)
  {
    PerSecondPositive(options);
    ChecksAreTokenRun(None, options, start, times);
    EarnedAccrues(PerSecond(options));
    TokensBound(options.max as real, start, Checks(None, options, times), options.max as real,
                Earned(PerSecond(options)), first, last);
  }

  lemma {:induction false} AdmittedBeforeLast(checks: seq<Checked>, last: Checked, when: real -> bool)
    ensures AdmittedWhen(checks + [last], when)
            == AdmittedWhen(checks, when) + (if when(last.now) && last.result.Admitted? then 1 else 0)
  {
    if checks == [] {
      assert checks + [last] == [last];
    } else {
      assert (checks + [last])[1..] == checks[1..] + [last];
      AdmittedBeforeLast(checks[1..], last, when);
    }
  }

  /** What the interval from `first` would have to hold for the refusal at its end: `level` and what came back. */
  ghost predicate OverBy(checks: seq<Checked>, first: real, last: real, level: real, earned: Earning) {
    AdmittedWhen(checks, Within(first, last)) as real + 1.0 > level + earned(first, last)
  }

  /** A refusal has an interval behind it, from the start or from a time when the bucket was full, in which the
      calls admitted leave less than one token of what was there and what came back. */
  lemma {:induction false} RefusalHasInterval(tokens: real, at: real, checks: seq<Checked>, capacity: real,
                                              earned: Earning, last: real)
      returns (first: real, full: bool)
    requires TokenRun(tokens, at, checks, capacity, earned) && InTime(checks, at) && Accrues(earned) && capacity >= 1.0
    requires checks != [] && checks[|checks| - 1].result.Refused? && checks[|checks| - 1].now == last
    ensures at <= first <= last && (!full ==> first == at)
    ensures OverBy(checks, first, last, if full then capacity else tokens, earned)
    decreases |checks|
  {
    var c := checks[0];
    first, full := at, false;
    assert c.now <= last;
    assert earned(at, c.now) + earned(c.now, last) == earned(at, last);
    if |checks| > 1 {
      var later, laterFull := RefusalHasInterval(c.bucket.tokens, c.now, checks[1..], capacity, earned, last);
      if laterFull {
        first, full := later, true;
      } else {
        SameFrom(checks[1..], at, c.now, last);
        if capacity <= tokens + earned(at, c.now) {
          first, full := c.now, true;
        }
      }
    }
  }

  /** Where an interval begins does not matter while it begins before every check. */
  lemma {:induction false} SameFrom(checks: seq<Checked>, first: real, start: real, last: real)
    requires first <= start && InTime(checks, start)
    ensures AdmittedWhen(checks, Within(first, last)) == AdmittedWhen(checks, Within(start, last))
  {
    if checks != [] {
      SameFrom(checks[1..], first, start, last);
    }
  }

  /** Whether one more call at `now` keeps every interval that ends there within its bound. */
  ghost predicate RoomFor(earlier: seq<Checked>, options: Options, now: real)
    requires ValidOptions(options)
  {
    forall first: real :: first <= now ==> !OverBound(earlier, options, first, now)
  }

  ghost predicate OverBound(earlier: seq<Checked>, options: Options, first: real, now: real)
    requires ValidOptions(options)
  {
    AdmittedWhen(earlier, Within(first, now)) as real + 1.0 > options.max as real
      + Earned(PerSecond(options))(first, now)
  }

  /** A token bucket refuses a call exactly when admitting it would break the bound of some interval. */
  lemma TokenBucketIsExact(options: Options, times: seq<real>, start: real, now: real)
    requires ValidOptions(options) && options.strategy == TokenBucketStrategy && Rising(times + [now], start)
    ensures var checks := Checks(None, options, times + [now]);
            checks[|times|].result.Admitted? <==> RoomFor(checks[..|times|], options, now)
  {
    var checks := Checks(None, options, times + [now]);
    var last := checks[|times|];
    CheckTimes(None, options, times + [now]);
    assert checks == checks[..|times|] + [last];
    if last.result.Admitted? {
      forall first: real | first <= now
        ensures !OverBound(checks[..|times|], options, first, now)
      {
        TokenBucketBound(options, times + [now], start, first, now);
        AdmittedBeforeLast(checks[..|times|], last, Within(first, now));
      }
    } else {
      PerSecondPositive(options);
      EarnedAccrues(PerSecond(options));
      ChecksAreTokenRun(None, options, start, times + [now]);
      var first, _ :=
          RefusalHasInterval(options.max as real, start, checks, options.max as real, Earned(PerSecond(options)), now);
      AdmittedBeforeLast(checks[..|times|], last, Within(first, now));
      assert OverBound(checks[..|times|], options, first, now);
    }
  }

  /** Waiting the rounded-up time brings the missing part of a token. */
  lemma EnoughBy(tokens: real, rate: real, retryAfterMs: int, wait: real)
    requires tokens < 1.0 && rate > 0.0
    requires retryAfterMs >= Ceiling((1.0 - tokens) / rate * 1000.0) && wait >= retryAfterMs as real / 1000.0
    ensures tokens + wait * rate >= 1.0
  {
    var exact := (1.0 - tokens) / rate;
    assert exact * 1000.0 <= Ceiling(exact * 1000.0) as real;
    assert exact <= wait;
    Scale(exact, wait, rate);
    assert exact * rate == 1.0 - tokens;
  }

  /** Refused calls take nothing: a level that reaches a token by some time does so whatever is refused before. */
  lemma {:induction false} RefusalsTakeNothing(tokens: real, at: real, checks: seq<Checked>, capacity: real,
                                               earned: Earning, retry: real)
    requires TokenRun(tokens, at, checks, capacity, earned) && InTime(checks, at) && Accrues(earned) && capacity >= 1.0
    requires checks != [] && checks[|checks| - 1].now == retry && tokens + earned(at, retry) >= 1.0
    requires AllRefused(checks, |checks| - 1)
    ensures checks[|checks| - 1].result.Admitted?
    decreases |checks|
  {
    var c := checks[0];
    if |checks| > 1 {
      assert c.result.Refused?;
      assert earned(at, c.now) + earned(c.now, retry) == earned(at, retry);
      RefusalsTakeNothing(c.bucket.tokens, c.now, checks[1..], capacity, earned, retry);
    }
  }

  /** No fewer whole milliseconds would do. */
  lemma NotEnoughBefore(tokens: real, rate: real, ms: int)
    requires tokens < 1.0 && rate > 0.0 && ms < Ceiling((1.0 - tokens) / rate * 1000.0)
    ensures tokens + ms as real / 1000.0 * rate < 1.0
  {
    var exact := (1.0 - tokens) / rate;
    assert ms as real < exact * 1000.0;
    ScaleStrictly(ms as real / 1000.0, exact, rate);
    assert exact * rate == 1.0 - tokens;
  }

  function WaitMs(tokens: real, rate: real): nat
    requires rate > 0.0
  {
    var wait := Ceiling((1.0 - tokens) / rate * 1000.0);
    if wait < 0 then 0 else wait
  }

  lemma WaitIsLeast(tokens: real, rate: real, ms: nat)
    requires tokens < 1.0 && rate > 0.0
    ensures tokens + ms as real / 1000.0 * rate >= 1.0 <==> WaitMs(tokens, rate) <= ms
  {
    if Ceiling((1.0 - tokens) / rate * 1000.0) <= ms {
      EnoughBy(tokens, rate, ms, ms as real / 1000.0);
    } else {
      NotEnoughBefore(tokens, rate, ms);
    }
  }

  lemma RefusedLevel(known: Option<Bucket>, options: Options, now: real)
    requires ValidOptions(options) && options.strategy == TokenBucketStrategy
    requires known.Some? ==> BucketFor(known.value, options, now)
    requires CheckBucket(known, options, now).1.Refused?
    ensures var (bucket, result) := CheckBucket(known, options, now);
            && BucketFor(bucket, options, now) && bucket.TokenBucket? && bucket.refilledAt == now && bucket.tokens < 1.0
            && PerSecond(options) > 0.0
            && result.retryAfterMs == WaitMs(bucket.tokens, PerSecond(options))
  {
    PerSecondPositive(options);
    CheckKeepsBucket(known, options, now, now);
  }

  lemma LaterLevel(bucket: Bucket, options: Options, now: real, wait: real)
    requires ValidOptions(options) && options.strategy == TokenBucketStrategy && wait >= 0.0
    requires BucketFor(bucket, options, now) && bucket.refilledAt == now
    ensures CheckBucket(Some(bucket), options, now + wait).1.Admitted?
            <==> bucket.tokens + wait * PerSecond(options) >= 1.0
  {
    var later := now + wait;
    assert later - now == wait;
    RefillEarns(bucket.tokens, now, later, PerSecond(options), options.max as real);
  }

  lemma RefusedRetries(bucket: Bucket, options: Options, now: real, ms: nat)
    requires ValidOptions(options) && options.strategy == TokenBucketStrategy && PerSecond(options) > 0.0
    requires BucketFor(bucket, options, now) && bucket.refilledAt == now && bucket.tokens < 1.0
    ensures CheckBucket(Some(bucket), options, now + ms as real / 1000.0).1.Admitted?
            <==> WaitMs(bucket.tokens, PerSecond(options)) <= ms
  {
    LaterLevel(bucket, options, now, ms as real / 1000.0);
    WaitIsLeast(bucket.tokens, PerSecond(options), ms);
  }

  /** The wait a refusal names is the least whole number of milliseconds after which a retry is admitted. */
  lemma RetryAfterIsLeast(known: Option<Bucket>, options: Options, now: real, ms: nat)
    requires ValidOptions(options) && options.strategy == TokenBucketStrategy
    requires known.Some? ==> BucketFor(known.value, options, now)
    requires CheckBucket(known, options, now).1.Refused?
    ensures var (bucket, result) := CheckBucket(known, options, now);
            CheckBucket(Some(bucket), options, now + ms as real / 1000.0).1.Admitted? <==> result.retryAfterMs <= ms
  {
    RefusedLevel(known, options, now);
    RefusedRetries(CheckBucket(known, options, now).0, options, now, ms);
  }

  lemma LessWait(tokens: real, rate: real, wait: real, ms: int)
    requires tokens < 1.0 && rate > 0.0 && 0.0 <= wait && wait * 1000.0 <= ms as real < WaitMs(tokens, rate) as real
    ensures tokens + wait * rate < 1.0
  {
    WaitIsLeast(tokens, rate, ms);
    Scale(wait, ms as real / 1000.0, rate);
  }

  /** The reset time a refusal names is the first whole millisecond at which a call is admitted, or the one before. */
  lemma ResetIsFirst(known: Option<Bucket>, options: Options, now: real, ms: int)
    requires ValidOptions(options) && options.strategy == TokenBucketStrategy
    requires known.Some? ==> BucketFor(known.value, options, now)
    requires CheckBucket(known, options, now).1.Refused? && ms as real / 1000.0 >= now
    ensures var (bucket, result) := CheckBucket(known, options, now);
            var later := CheckBucket(Some(bucket), options, ms as real / 1000.0).1;
            && (ms < result.resetAtMs ==> later.Refused?)
            && (ms > result.resetAtMs ==> later.Admitted?)
            && result.resetAtMs == (now * 1000.0).Floor + result.retryAfterMs
  {
    RefusedLevel(known, options, now);
    var (bucket, result) := CheckBucket(known, options, now);
    var wait := ms as real / 1000.0 - now;
    assert now + wait == ms as real / 1000.0;
    LaterLevel(bucket, options, now, wait);
    if ms > result.resetAtMs {
      EnoughBy(bucket.tokens, PerSecond(options), result.retryAfterMs, wait);
    } else if ms < result.resetAtMs {
      LessWait(bucket.tokens, PerSecond(options), wait, result.retryAfterMs - 1);
    }
  }

  lemma RefusedBucket(known: Option<Bucket>, options: Options, now: real, retry: real)
    requires ValidOptions(options) && options.strategy == TokenBucketStrategy
    requires known.Some? ==> BucketFor(known.value, options, now)
    requires CheckBucket(known, options, now).1.Refused?
    requires retry >= now + CheckBucket(known, options, now).1.retryAfterMs as real / 1000.0
    ensures var bucket := CheckBucket(known, options, now).0;
            && BucketFor(bucket, options, now) && bucket.TokenBucket? && bucket.refilledAt == now
            && bucket.tokens + Earned(PerSecond(options))(now, retry) >= 1.0
  {
    var (bucket, result) := CheckBucket(known, options, now);
    PerSecondPositive(options);
    CheckKeepsBucket(known, options, now, now);
    EnoughBy(bucket.tokens, PerSecond(options), result.retryAfterMs, retry - now);
  }

  /** A refused call is admitted at the time its refusal named, or later, whatever refused calls come in between. */
  lemma RetryAfterIsEnough(known: Option<Bucket>, options: Options, now: real, times: seq<real>, retry: real)
    requires ValidOptions(options) && options.strategy == TokenBucketStrategy
    requires known.Some? ==> BucketFor(known.value, options, now)
    requires CheckBucket(known, options, now).1.Refused?
    requires retry >= now + CheckBucket(known, options, now).1.retryAfterMs as real / 1000.0
    requires Rising(times + [retry], now)
    requires AllRefused(Checks(Some(CheckBucket(known, options, now).0), options, times + [retry]), |times|)
    ensures Checks(Some(CheckBucket(known, options, now).0), options, times + [retry])[|times|].result.Admitted?
  {
    RefusedBucket(known, options, now, retry);
    PerSecondPositive(options);
    EarnedAccrues(PerSecond(options));
    RetryIsAdmitted(CheckBucket(known, options, now).0, options, now, times, retry);
  }

  lemma RetryIsAdmitted(bucket: Bucket, options: Options, now: real, times: seq<real>, retry: real)
    requires ValidOptions(options) && options.strategy == TokenBucketStrategy
    requires BucketFor(bucket, options, now) && bucket.TokenBucket? && bucket.refilledAt == now
    requires Accrues(Earned(PerSecond(options))) && bucket.tokens + Earned(PerSecond(options))(now, retry) >= 1.0
    requires Rising(times + [retry], now)
    requires AllRefused(Checks(Some(bucket), options, times + [retry]), |times|)
    ensures Checks(Some(bucket), options, times + [retry])[|times|].result.Admitted?
  {
    ChecksAreTokenRun(Some(bucket), options, now, times + [retry]);
    CheckTimes(Some(bucket), options, times + [retry]);
    RefusalsTakeNothing(bucket.tokens, now, Checks(Some(bucket), options, times + [retry]), options.max as real,
                        Earned(PerSecond(options)), retry);
  }

  ghost predicate AllRefused(checks: seq<Checked>, n: nat)
    requires n <= |checks|
  {
    forall i :: 0 <= i < n ==> checks[i].result.Refused?
  }

  lemma {:induction false} CheckTimes(known: Option<Bucket>, options: Options, times: seq<real>)
    requires ValidOptions(options)
    ensures forall i :: 0 <= i < |times| ==> Checks(known, options, times)[i].now == times[i]
    decreases |times|
  {
    if times != [] {
      CheckTimes(Some(CheckBucket(known, options, times[0]).0), options, times[1..]);
    }
  }

  // ----- Fixed windows -----

  /** The aligned window a time falls in. */
  function WindowIndex(options: Options, now: real): int
    requires ValidOptions(options)
  {
    (now / WindowSeconds(options)).Floor
  }

  function InWindow(options: Options, index: int): real -> bool
    requires ValidOptions(options)
  {
    (now: real) => WindowIndex(options, now) == index
  }

  lemma LaterWindow(options: Options, at: real, now: real)
    requires ValidOptions(options) && at <= now
    ensures WindowIndex(options, at) <= WindowIndex(options, now)
    ensures WindowIndex(options, at) == WindowIndex(options, now)
            <==> WindowStart(options, at) == WindowStart(options, now)
  {
    QuotientOrder(at, now, WindowSeconds(options));
    var i, j := WindowIndex(options, at), WindowIndex(options, now);
    if i < j {
      ScaleStrictly(i as real, j as real, WindowSeconds(options));
    }
  }

  lemma QuotientOrder(x: real, y: real, k: real)
    requires x <= y && k > 0.0
    ensures x / k <= y / k
  {
  }

  /** What the windows up to the last check have used of one window's allowance. */
  ghost function Used(known: Option<Bucket>, options: Options, at: real, index: int): nat
    requires ValidOptions(options) && (known.Some? ==> known.value.FixedWindow?)
  {
    if known.None? || WindowIndex(options, at) < index then 0
    else if WindowIndex(options, at) == index then known.value.count
    else options.max
  }

  ghost predicate WindowAt(known: Option<Bucket>, options: Options, at: real)
    requires ValidOptions(options)
  {
    known.Some? ==>
      known.value.FixedWindow? && known.value.windowStart == WindowStart(options, at)
        && known.value.count <= options.max
  }

  /** How many of the times are such. */
  function CountWhen(times: seq<real>, when: real -> bool): nat {
    if times == [] then 0 else (if when(times[0]) then 1 else 0) + CountWhen(times[1..], when)
  }

  function Least(m: nat, n: nat): nat {
    if m <= n then m else n
  }

  lemma CheckUses(known: Option<Bucket>, options: Options, at: real, now: real, index: int)
    requires ValidOptions(options) && options.strategy == FixedWindowStrategy && at <= now
             && WindowAt(known, options, at)
    ensures var (bucket, result) := CheckBucket(known, options, now);
            && WindowAt(Some(bucket), options, now)
            && (WindowIndex(options, now) == index ==>
                 (result.Admitted? <==> Used(known, options, at, index) < options.max))
            && (WindowIndex(options, now) <= index ==>
                  Used(Some(bucket), options, now, index) ==
                  Used(known, options, at, index)
                    + (if WindowIndex(options, now) == index && result.Admitted? then 1 else 0))
  {
    LaterWindow(options, at, now);
  }

  lemma {:induction false} WindowOver(known: Option<Bucket>, options: Options, at: real, times: seq<real>, index: int)
    requires ValidOptions(options) && Rising(times, at) && index < WindowIndex(options, at)
    ensures AdmittedWhen(Checks(known, options, times), InWindow(options, index)) == 0
    ensures CountWhen(times, InWindow(options, index)) == 0
    decreases |times|
  {
    if times != [] {
      LaterWindow(options, at, times[0]);
      WindowOver(Some(CheckBucket(known, options, times[0]).0), options, times[0], times[1..], index);
    }
  }

  /** A window admits as many of the checks that fall in it as its allowance has left. */
  lemma {:induction false} WindowAdmits(known: Option<Bucket>, options: Options, at: real, times: seq<real>, index: int)
    requires ValidOptions(options) && options.strategy == FixedWindowStrategy && Rising(times, at)
             && WindowAt(known, options, at)
    ensures Used(known, options, at, index) <= options.max
    ensures WindowIndex(options, at) <= index || known.None? ==>
              AdmittedWhen(Checks(known, options, times), InWindow(options, index))
              == Least(options.max - Used(known, options, at, index), CountWhen(times, InWindow(options, index)))
    decreases |times|
  {
    if times != [] {
      var bucket := CheckBucket(known, options, times[0]).0;
      CheckUses(known, options, at, times[0], index);
      WindowAdmits(Some(bucket), options, times[0], times[1..], index);
      if index < WindowIndex(options, times[0]) {
        WindowOver(Some(bucket), options, times[0], times[1..], index);
      }
    }
  }

  lemma NextWindow(options: Options, first: real, now: real)
    requires ValidOptions(options) && first <= now <= first + WindowSeconds(options)
    ensures WindowIndex(options, first) <= WindowIndex(options, now) <= WindowIndex(options, first) + 1
  {
    LaterWindow(options, first, now);
    LaterWindow(options, now, first + WindowSeconds(options));
    QuotientSum(first, WindowSeconds(options));
  }

  lemma QuotientSum(x: real, k: real)
    requires k > 0.0
    ensures (x + k) / k == x / k + 1.0
  {
    assert (x + k) / k * k == x + k;
    assert x / k * k == x;
    SameScaled((x + k) / k, x / k + 1.0, k);
  }

  lemma SameScaled(x: real, y: real, k: real)
    requires x * k == y * k && k > 0.0
    ensures x == y
  {
  }

  lemma {:induction false} TwoWindows(checks: seq<Checked>, options: Options, first: real, last: real)
    requires ValidOptions(options) && last <= first + WindowSeconds(options)
    ensures var index := WindowIndex(options, first);
            AdmittedWhen(checks, Within(first, last))
            <= AdmittedWhen(checks, InWindow(options, index)) + AdmittedWhen(checks, InWindow(options, index + 1))
  {
    if checks != [] {
      TwoWindows(checks[1..], options, first, last);
      if first <= checks[0].now <= last {
        NextWindow(options, first, checks[0].now);
      }
    }
  }

  /** An interval no longer than a window meets two of them, so it admits at most twice `max`. */
  lemma FixedWindowBound(options: Options, times: seq<real>, start: real, first: real, last: real)
    requires ValidOptions(options) && options.strategy == FixedWindowStrategy
    requires Rising(times, start) && last <= first + WindowSeconds(options)
    ensures AdmittedWhen(Checks(None, options, times), Within(first, last)) <= 2 * options.max
  {
    var index := WindowIndex(options, first);
    WindowAdmits(None, options, start, times, index);
    WindowAdmits(None, options, start, times, index + 1);
    TwoWindows(Checks(None, options, times), options, first, last);
  }

  predicate WholeMilliseconds(seconds: real) {
    (seconds * 1000.0).Floor as real == seconds * 1000.0
  }

  lemma FloorIs(q: real, index: int)
    requires index as real <= q < index as real + 1.0
    ensures q.Floor == index
  {
  }

  lemma InsideWindow(now: real, w: real, index: int)
    requires w > 0.0 && index as real * w <= now < index as real * w + w
    ensures (now / w).Floor == index
  {
    var i := index as real;
    var q := now / w;
    assert q * w == now;
    if q < i {
      ScaleStrictly(q, i, w);
    }
    if q >= i + 1.0 {
      Scale(i + 1.0, q, w);
      Distribute(i, 1.0, w);
    }
    FloorIs(q, index);
  }

  /** After the whole milliseconds left of a window the next one has begun only if nothing was cut off. */
  lemma WaitEnds(now: real, w: real, index: int, left: real)
    requires w > 0.0 && index as real * w <= now < index as real * w + w && left == index as real * w + w - now
    ensures (Waited(now, left) / w).Floor == if WholeMilliseconds(left) then index + 1 else index
  {
    var start := index as real * w;
    var retry := Waited(now, left);
    if WholeMilliseconds(left) {
      Distribute(index as real, 1.0, w);
      InsideWindow(retry, w, index + 1);
    } else {
      InsideWindow(retry, w, index);
    }
  }

  function Waited(now: real, left: real): (retry: real)
    requires left > 0.0
    ensures now <= retry <= now + left && (retry == now + left <==> WholeMilliseconds(left))
  {
    now + (left * 1000.0).Floor as real / 1000.0
  }

  lemma RefusedWindow(bucket: Bucket, options: Options, now: real, result: CheckResult, retry: real)
    requires ValidOptions(options) && options.strategy == FixedWindowStrategy && BucketFor(bucket, options, now)
    requires CheckBucket(Some(bucket), options, now).1 == result && result.Refused?
    requires retry == now + result.retryAfterMs as real / 1000.0
    ensures bucket.windowStart == WindowStart(options, now) && bucket.count >= options.max
    ensures var left := bucket.windowStart + WindowSeconds(options) - now;
            left > 0.0 && retry == Waited(now, left)
  {
    FloorBounds(now, WindowSeconds(options));
  }

  lemma FullWindow(bucket: Bucket, options: Options, now: real, retry: real)
    requires ValidOptions(options) && options.strategy == FixedWindowStrategy && bucket.FixedWindow? && now <= retry
    requires bucket.windowStart == WindowStart(options, now) && bucket.count >= options.max
    ensures CheckBucket(Some(bucket), options, retry).1.Admitted?
            <==> WindowIndex(options, now) != WindowIndex(options, retry)
  {
    LaterWindow(options, now, retry);
  }

  lemma WaitFor(options: Options, now: real, left: real)
    requires ValidOptions(options) && left == WindowStart(options, now) + WindowSeconds(options) - now && left > 0.0
    ensures WindowIndex(options, Waited(now, left))
            == WindowIndex(options, now) + (if WholeMilliseconds(left) then 1 else 0)
  {
    FloorBounds(now, WindowSeconds(options));
    WaitEnds(now, WindowSeconds(options), WindowIndex(options, now), left);
  }

  lemma FullWindowReopens(bucket: Bucket, options: Options, now: real, left: real, retry: real)
    requires ValidOptions(options) && options.strategy == FixedWindowStrategy && bucket.FixedWindow?
    requires bucket.windowStart == WindowStart(options, now) && bucket.count >= options.max
    requires left == bucket.windowStart + WindowSeconds(options) - now && left > 0.0 && retry == Waited(now, left)
    ensures CheckBucket(Some(bucket), options, retry).1.Admitted? <==> WholeMilliseconds(left)
  {
    WaitFor(options, now, left);
    FullWindow(bucket, options, now, retry);
  }

  /** A fixed window rounds the wait down, so a retry at the time it names finds the next window exactly when
      the time left is a whole number of milliseconds. */
  lemma FixedRetryIsEarly(bucket: Bucket, options: Options, now: real, result: CheckResult, retry: real)
    requires ValidOptions(options) && options.strategy == FixedWindowStrategy && BucketFor(bucket, options, now)
    requires CheckBucket(Some(bucket), options, now).1 == result && result.Refused?
    requires retry == now + result.retryAfterMs as real / 1000.0
    ensures CheckBucket(Some(bucket), options, retry).1.Admitted?
            <==> WholeMilliseconds(bucket.windowStart + WindowSeconds(options) - now)
  {
    RefusedWindow(bucket, options, now, result, retry);
    FullWindowReopens(bucket, options, now, bucket.windowStart + WindowSeconds(options) - now, retry);
  }

  lemma PastWindow(now: real, w: real, index: int)
    requires w > 0.0 && now >= index as real * w + w
    ensures (now / w).Floor > index
  {
    var q := now / w;
    assert q * w == now;
    if q < index as real + 1.0 {
      ScaleStrictly(q, index as real + 1.0, w);
      Distribute(index as real, 1.0, w);
    }
  }

  lemma ReopensAtEnd(bucket: Bucket, options: Options, now: real, later: real)
    requires ValidOptions(options) && options.strategy == FixedWindowStrategy && bucket.FixedWindow? && now <= later
    requires bucket.windowStart == WindowStart(options, now) && bucket.count >= options.max
    ensures CheckBucket(Some(bucket), options, later).1.Admitted?
            <==> later >= bucket.windowStart + WindowSeconds(options)
  {
    var w, index := WindowSeconds(options), WindowIndex(options, now);
    FullWindow(bucket, options, now, later);
    FloorBounds(now, w);
    if later >= bucket.windowStart + w {
      PastWindow(later, w, index);
    } else {
      InsideWindow(later, w, index);
    }
  }

  /** The reset time a full window names is the last whole millisecond before the next one, or its first when the
      window ends on a whole millisecond. */
  lemma FixedResetIsFirst(bucket: Bucket, options: Options, now: real, result: CheckResult, ms: int)
    requires ValidOptions(options) && options.strategy == FixedWindowStrategy && BucketFor(bucket, options, now)
    requires CheckBucket(Some(bucket), options, now).1 == result && result.Refused? && ms as real / 1000.0 >= now
    ensures CheckBucket(Some(bucket), options, ms as real / 1000.0).1.Admitted?
            <==> ms > result.resetAtMs
                 || (ms == result.resetAtMs && WholeMilliseconds(bucket.windowStart + WindowSeconds(options)))
  {
    RefusedWindow(bucket, options, now, result, now + result.retryAfterMs as real / 1000.0);
    ReopensAtEnd(bucket, options, now, ms as real / 1000.0);
  }

  /** Half a millisecond before the window ends the wait named is none at all, and a retry is refused again. */
  lemma FixedRetryCanBeRefused()
    ensures var options := Options(1, 1000.0, FixedWindowStrategy);
            var bucket := CheckBucket(None, options, 0.9995).0;
            && CheckBucket(Some(bucket), options, 0.9995).1 == Refused(0, 1000)
  {
  }

  // ----- Whole runs of the limiter -----

  function TimesOf(events: seq<Event>, id: Id): seq<real> {
    if events == [] then []
    else if events[0].Check? && events[0].id == id then [events[0].now] + TimesOf(events[1..], id)
    else TimesOf(events[1..], id)
  }

  /** How many of a bucket's answers at such times let the call through. */
  function AdmittedOf(answers: seq<Answer>, id: Id, when: real -> bool): nat {
    if answers == [] then 0
    else
      (if answers[0].id == id && when(answers[0].now) && answers[0].result.Admitted? then 1 else 0)
      + AdmittedOf(answers[1..], id, when)
  }

  lemma {:induction false} TimesRise(events: seq<Event>, id: Id, start: real)
    requires InOrder(events, start)
    ensures Rising(TimesOf(events, id), start)
  {
    if events != [] {
      TimesRise(events[1..], id, events[0].now);
    }
  }

  lemma FirstAnswer(answer: Answer, rest: seq<Answer>, id: Id, when: real -> bool)
    ensures AdmittedOf([answer] + rest, id, when)
            == (if answer.id == id && when(answer.now) && answer.result.Admitted? then 1 else 0)
               + AdmittedOf(rest, id, when)
  {
    assert ([answer] + rest)[1..] == rest;
  }

  lemma FirstCheck(known: Option<Bucket>, options: Options, now: real, rest: seq<real>, when: real -> bool)
    requires ValidOptions(options)
    ensures var (bucket, result) := CheckBucket(known, options, now);
            AdmittedWhen(Checks(known, options, [now] + rest), when)
            == (if when(now) && result.Admitted? then 1 else 0)
               + AdmittedWhen(Checks(Some(bucket), options, rest), when)
  {
    var (bucket, result) := CheckBucket(known, options, now);
    assert ([now] + rest)[1..] == rest;
    assert Checks(known, options, [now] + rest)[1..] == Checks(Some(bucket), options, rest);
  }

  /** Buckets do not meddle with each other. */
  lemma {:induction false} OneBucket(options: Id -> Options, buckets: map<Id, Bucket>, events: seq<Event>, id: Id,
                                     when: real -> bool)
    requires forall id :: ValidOptions(options(id))
    ensures AdmittedOf(Plain(options, buckets, events), id, when)
            == AdmittedWhen(Checks(Lookup(buckets, id), options(id), TimesOf(events, id)), when)
    decreases |events|
  {
    if events != [] {
      match events[0] {
        case Purge(_) => OneBucket(options, buckets, events[1..], id, when);
        case Check(key, now) =>
          var (bucket, result) := CheckBucket(Lookup(buckets, key), options(key), now);
          OneBucket(options, buckets[key := bucket], events[1..], id, when);
          FirstAnswer(Answer(key, now, result), Plain(options, buckets[key := bucket], events[1..]), id, when);
          if key == id {
            FirstCheck(Lookup(buckets, id), options(id), now, TimesOf(events[1..], id), when);
          }
      }
    }
  }

  /** In any run of the limiter, purging as it goes, and in any interval, a token bucket admits at most its
      capacity plus what comes back in that time. */
  lemma LimiterBoundsTokenBuckets(options: Id -> Options, events: seq<Event>, start: real, id: Id, first: real,
                                  last: real)
    requires forall id :: ValidOptions(options(id))
    requires InOrder(events, start) && options(id).strategy == TokenBucketStrategy && first <= last
    ensures AdmittedOf(Purging(options, map[], None, events), id, Within(first, last)) as real
            <= options(id).max as real + Earned(PerSecond(options(id)))(first, last)
  {
    PurgingIsInvisible(options, map[], map[], None, events, start);
    OneBucket(options, map[], events, id, Within(first, last));
    TimesRise(events, id, start);
    TokenBucketBound(options(id), TimesOf(events, id), start, first, last);
  }

  /** And a fixed window admits every call that falls in an aligned window until `max` have been, and so at most
      twice `max` in any interval as long as one. */
  lemma LimiterBoundsFixedWindows(options: Id -> Options, events: seq<Event>, start: real, id: Id, index: int,
                                  first: real, last: real)
    requires forall id :: ValidOptions(options(id))
    requires InOrder(events, start) && options(id).strategy == FixedWindowStrategy
    ensures AdmittedOf(Purging(options, map[], None, events), id, InWindow(options(id), index))
            == Least(options(id).max, CountWhen(TimesOf(events, id), InWindow(options(id), index)))
    ensures last <= first + WindowSeconds(options(id)) ==>
              AdmittedOf(Purging(options, map[], None, events), id, Within(first, last)) <= 2 * options(id).max
  {
    PurgingIsInvisible(options, map[], map[], None, events, start);
    OneBucket(options, map[], events, id, InWindow(options(id), index));
    OneBucket(options, map[], events, id, Within(first, last));
    TimesRise(events, id, start);
    WindowAdmits(None, options(id), start, TimesOf(events, id), index);
    if last <= first + WindowSeconds(options(id)) {
      FixedWindowBound(options(id), TimesOf(events, id), start, first, last);
    }
  }

  /** What one bucket's checks were answered. */
  function AnswersOf(answers: seq<Answer>, id: Id): seq<CheckResult> {
    if answers == [] then []
    else (if answers[0].id == id then [answers[0].result] else []) + AnswersOf(answers[1..], id)
  }

  function ResultsOf(checks: seq<Checked>): seq<CheckResult> {
    seq(|checks|, i requires 0 <= i < |checks| => checks[i].result)
  }

  lemma {:induction false} OneBucketAnswers(options: Id -> Options, buckets: map<Id, Bucket>, events: seq<Event>,
                                            id: Id)
    requires forall id :: ValidOptions(options(id))
    ensures AnswersOf(Plain(options, buckets, events), id)
            == ResultsOf(Checks(Lookup(buckets, id), options(id), TimesOf(events, id)))
    decreases |events|
  {
    if events != [] {
      match events[0] {
        case Purge(_) => OneBucketAnswers(options, buckets, events[1..], id);
        case Check(key, now) =>
          var (bucket, result) := CheckBucket(Lookup(buckets, key), options(key), now);
          OneBucketAnswers(options, buckets[key := bucket], events[1..], id);
          var rest := Plain(options, buckets[key := bucket], events[1..]);
          assert ([Answer(key, now, result)] + rest)[1..] == rest;
          if key == id {
            FirstResult(Lookup(buckets, id), options(id), now, TimesOf(events[1..], id));
          }
      }
    }
  }

  lemma FirstResult(known: Option<Bucket>, options: Options, now: real, rest: seq<real>)
    requires ValidOptions(options)
    ensures var (bucket, result) := CheckBucket(known, options, now);
            ResultsOf(Checks(known, options, [now] + rest)) == [result] + ResultsOf(Checks(Some(bucket), options, rest))
  {
    assert ([now] + rest)[1..] == rest;
  }

  /** A bucket after some checks. */
  function After(known: Option<Bucket>, options: Options, times: seq<real>, n: nat): Option<Bucket>
    requires ValidOptions(options) && n <= |times|
    decreases n
  {
    if n == 0 then known else After(Some(CheckBucket(known, options, times[0]).0), options, times[1..], n - 1)
  }

  lemma {:induction false} ChecksFrom(known: Option<Bucket>, options: Options, times: seq<real>, n: nat)
    requires ValidOptions(options) && n <= |times|
    ensures Checks(known, options, times)[n..] == Checks(After(known, options, times, n), options, times[n..])
    decreases n
  {
    if n > 0 {
      var bucket := CheckBucket(known, options, times[0]).0;
      ChecksFrom(Some(bucket), options, times[1..], n - 1);
      assert Checks(known, options, times)[1..] == Checks(Some(bucket), options, times[1..]);
      Dropped(Checks(known, options, times), n);
      Dropped(times, n);
    }
  }

  lemma Dropped<T>(s: seq<T>, n: nat)
    requires 0 < n <= |s|
    ensures s[1..][n - 1..] == s[n..]
  {
  }

  lemma {:induction false} AfterIsKept(known: Option<Bucket>, options: Options, times: seq<real>, n: nat, at: real)
    requires ValidOptions(options) && n <= |times| && Rising(times, at)
    requires known.Some? ==> BucketFor(known.value, options, at)
    ensures var bucket := After(known, options, times, n);
            bucket.Some? ==> BucketFor(bucket.value, options, if n == 0 then at else times[n - 1])
    decreases n
  {
    if n > 0 {
      CheckKeepsBucket(known, options, at, times[0]);
      AfterIsKept(Some(CheckBucket(known, options, times[0]).0), options, times[1..], n - 1, times[0]);
    }
  }

  /** Earlier checks do not depend on later ones. */
  lemma {:induction false} ChecksBefore(known: Option<Bucket>, options: Options, times: seq<real>, more: seq<real>)
    requires ValidOptions(options)
    ensures Checks(known, options, times + more)[..|times|] == Checks(known, options, times)
    decreases |times|
  {
    if times != [] {
      var bucket := CheckBucket(known, options, times[0]).0;
      ChecksBefore(Some(bucket), options, times[1..], more);
      assert (times + more)[1..] == times[1..] + more;
      var c := Checked(times[0], bucket, CheckBucket(known, options, times[0]).1);
      TakeAfterFirst(c, Checks(Some(bucket), options, times[1..] + more), |times| - 1);
    }
  }

  lemma TakeAfterFirst<T>(first: T, rest: seq<T>, n: nat)
    requires n <= |rest|
    ensures ([first] + rest)[..n + 1] == [first] + rest[..n]
  {
  }

  ghost predicate RefusedBetween(results: seq<CheckResult>, i: nat, j: nat)
    requires j <= |results|
  {
    forall k :: i <= k < j ==> results[k].Refused?
  }

  lemma CheckThere(options: Options, times: seq<real>, start: real, i: nat)
    requires ValidOptions(options) && Rising(times, start) && i < |times|
    ensures var known := After(None, options, times, i); var checks := Checks(None, options, times);
            && (known.Some? ==> BucketFor(known.value, options, times[i]))
            && checks[i].result == CheckBucket(known, options, times[i]).1
            && checks[i + 1..] == Checks(Some(CheckBucket(known, options, times[i]).0), options, times[i + 1..])
  {
    var known, checks := After(None, options, times, i), Checks(None, options, times);
    AfterIsKept(None, options, times, i, start);
    ChecksFrom(None, options, times, i);
    assert checks[i..][0] == checks[i];
    assert times[i..][1..] == times[i + 1..] && checks[i..][1..] == checks[i + 1..];
  }

  lemma ChecksBetween(bucket: Bucket, options: Options, times: seq<real>, n: nat)
    requires ValidOptions(options) && n < |times|
    ensures Checks(Some(bucket), options, times[..n] + [times[n]]) == Checks(Some(bucket), options, times)[..n + 1]
  {
    assert times == (times[..n] + [times[n]]) + times[n + 1..];
    ChecksBefore(Some(bucket), options, times[..n] + [times[n]], times[n + 1..]);
  }

  lemma StillRising(times: seq<real>, start: real, i: nat, n: nat)
    requires Rising(times, start) && i + 1 + n < |times|
    ensures Rising(times[i + 1..][..n] + [times[i + 1..][n]], times[i])
  {
  }

  /** From a refusal on: if all checks up to one are refused, and that is late enough, it is admitted. */
  lemma RetryFrom(known: Option<Bucket>, options: Options, now: real, times: seq<real>, n: nat)
    requires ValidOptions(options) && options.strategy == TokenBucketStrategy && n < |times|
    requires known.Some? ==> BucketFor(known.value, options, now)
    requires CheckBucket(known, options, now).1.Refused?
    requires times[n] >= now + CheckBucket(known, options, now).1.retryAfterMs as real / 1000.0
    requires Rising(times[..n] + [times[n]], now)
    requires AllRefused(Checks(Some(CheckBucket(known, options, now).0), options, times), n)
    ensures Checks(Some(CheckBucket(known, options, now).0), options, times)[n].result.Admitted?
  {
    ChecksBetween(CheckBucket(known, options, now).0, options, times, n);
    RetryAfterIsEnough(known, options, now, times[..n], times[n]);
  }

  /** Among one bucket's checks: refused at one, and at all between, a check no sooner than the wait the first named
      is admitted. */
  lemma RetryAmongChecks(options: Options, times: seq<real>, start: real, i: nat, j: nat)
    requires ValidOptions(options) && options.strategy == TokenBucketStrategy && Rising(times, start) && i < j < |times|
    requires var results := ResultsOf(Checks(None, options, times));
             RefusedBetween(results, i, j) && times[j] >= times[i] + results[i].retryAfterMs as real / 1000.0
    ensures ResultsOf(Checks(None, options, times))[j].Admitted?
  {
    var checks, n := Checks(None, options, times), j - i - 1;
    CheckThere(options, times, start, i);
    StillRising(times, start, i, n);
    assert forall k :: 0 <= k < |checks| ==> ResultsOf(checks)[k] == checks[k].result;
    assert ResultsOf(checks)[i].Refused?;
    var later := checks[i + 1..];
    forall k | 0 <= k < n
      ensures later[k].result.Refused?
    {
      assert ResultsOf(checks)[i + 1 + k].Refused?;
    }
    RetryFrom(After(None, options, times, i), options, times[i], times[i + 1..], n);
    assert later[n] == checks[j];
  }

  /** In any run of the limiter, purging as it goes: a call refused by a token bucket, and whatever is refused after
      it, does not keep a call at the time the refusal named, or later, from being admitted. */
  lemma LimiterAdmitsRetries(options: Id -> Options, events: seq<Event>, start: real, id: Id, i: nat, j: nat)
    requires forall id :: ValidOptions(options(id))
    requires InOrder(events, start) && options(id).strategy == TokenBucketStrategy
    requires var results := AnswersOf(Purging(options, map[], None, events), id); var times := TimesOf(events, id);
             && i < j < |results| == |times| && RefusedBetween(results, i, j)
             && times[j] >= times[i] + results[i].retryAfterMs as real / 1000.0
    ensures AnswersOf(Purging(options, map[], None, events), id)[j].Admitted?
  {
    PurgingIsInvisible(options, map[], map[], None, events, start);
    OneBucketAnswers(options, map[], events, id);
    TimesRise(events, id, start);
    RetryAmongChecks(options(id), TimesOf(events, id), start, i, j);
  }
}
