/** Per-action rate limits: fixed windows and token buckets, with idle buckets purged along the way. */
module RateLimit {
  import opened Wrappers

  type Id = string

  datatype Strategy = FixedWindowStrategy | TokenBucketStrategy

  datatype Options = Options(max: nat, windowMs: real, strategy: Strategy)

  ghost predicate ValidOptions(options: Options) {
    options.max >= 1 && options.windowMs > 0.0
  }

  datatype Bucket =
    | FixedWindow(windowStart: real, windowSeconds: real, count: nat)
    | TokenBucket(tokens: real, refilledAt: real, capacity: real, perSecond: real)

  datatype CheckResult = Admitted | Refused(retryAfterMs: int, resetAtMs: int)

  // ----- One bucket -----

  function Min(x: real, y: real): real {
    if x <= y then x else y
  }

  function Max(x: real, y: real): real {
    if x <= y then y else x
  }

  function Ceiling(x: real): int {
    -((-x).Floor)
  }

  function WindowSeconds(options: Options): real {
    options.windowMs / 1000.0
  }

  function PerSecond(options: Options): real
    requires ValidOptions(options)
  {
    options.max as real / WindowSeconds(options)
  }

  function RefilledTokens(tokens: real, elapsed: real, rate: real, capacity: real): real {
    Min(capacity, tokens + Max(0.0, elapsed) * rate)
  }

  /** When a bucket stops holding anything a fresh one would not. */
  function IdleAt(bucket: Bucket): real
    requires bucket.TokenBucket? ==> bucket.perSecond > 0.0
  {
    match bucket
    case FixedWindow(windowStart, windowSeconds, _) => windowStart + windowSeconds
    case TokenBucket(tokens, refilledAt, capacity, perSecond) => refilledAt + (capacity - tokens) / perSecond
  }

  function WindowStart(options: Options, now: real): real
    requires ValidOptions(options)
  {
    (now / WindowSeconds(options)).Floor as real * WindowSeconds(options)
  }

  function CheckFixedWindow(known: Option<Bucket>, options: Options, now: real): (Bucket, CheckResult)
    requires ValidOptions(options)
  {
    var windowSeconds := WindowSeconds(options);
    var windowStart := WindowStart(options, now);
    if known.None? || !known.value.FixedWindow? || known.value.windowStart != windowStart then
      (FixedWindow(windowStart, windowSeconds, 1), Admitted)
    else
      var bucket := known.value;
      if bucket.count >= options.max then
        var resetAt := bucket.windowStart + bucket.windowSeconds;
        var retry := ((resetAt - now) * 1000.0).Floor;
        (bucket, Refused(if retry < 0 then 0 else retry, (resetAt * 1000.0).Floor))
      else
        (bucket.(count := bucket.count + 1), Admitted)
  }

  /** A token bucket's level at `now`, before a token is taken. */
  function Refill(known: Option<Bucket>, options: Options, now: real): Bucket
    requires ValidOptions(options)
  {
    var capacity := options.max as real;
    var perSecond := PerSecond(options);
    if known.None? || !known.value.TokenBucket? then TokenBucket(capacity, now, capacity, perSecond)
    else TokenBucket(RefilledTokens(known.value.tokens, now - known.value.refilledAt, perSecond, capacity), now,
                     capacity, perSecond)
  }

  function CheckTokenBucket(known: Option<Bucket>, options: Options, now: real): (Bucket, CheckResult)
    requires ValidOptions(options)
  {
    var bucket := Refill(known, options, now);
    if bucket.tokens >= 1.0 then (bucket.(tokens := bucket.tokens - 1.0), Admitted)
    else
      PerSecondPositive(options);
      var wait := Ceiling((1.0 - bucket.tokens) / bucket.perSecond * 1000.0);
      var retry := if wait < 0 then 0 else wait;
      (bucket, Refused(retry, (now * 1000.0).Floor + retry))
  }

  function CheckBucket(known: Option<Bucket>, options: Options, now: real): (Bucket, CheckResult)
    requires ValidOptions(options)
  {
    match options.strategy
    case FixedWindowStrategy => CheckFixedWindow(known, options, now)
    case TokenBucketStrategy => CheckTokenBucket(known, options, now)
  }

  lemma PerSecondPositive(options: Options)
    requires ValidOptions(options)
    ensures PerSecond(options) > 0.0 && WindowSeconds(options) > 0.0
  {
  }

  /** A window is as long as its option says, and in its time max tokens come back. */
  lemma RateIsMaxPerWindow(options: Options)
    requires ValidOptions(options)
    ensures WindowSeconds(options) * 1000.0 == options.windowMs
    ensures PerSecond(options) * WindowSeconds(options) == options.max as real
  {
    Undivided(options.max as real, WindowSeconds(options));
  }

  lemma Undivided(x: real, k: real)
    requires k != 0.0
    ensures x / k * k == x
  {
  }

  /** A bucket left by checks with these options, the last of them at or before `now`. */
  ghost predicate BucketFor(bucket: Bucket, options: Options, now: real) {
    match bucket
    case FixedWindow(windowStart, windowSeconds, _) =>
      options.strategy == FixedWindowStrategy && windowSeconds == WindowSeconds(options) && windowStart <= now
    case TokenBucket(tokens, refilledAt, capacity, perSecond) =>
      && options.strategy == TokenBucketStrategy && ValidOptions(options)
      && capacity == options.max as real && perSecond == PerSecond(options)
      && 0.0 <= tokens <= capacity && refilledAt <= now
  }

  lemma FloorBounds(now: real, w: real)
    requires w > 0.0
    ensures now - w < (now / w).Floor as real * w <= now
  {
    var q := now / w;
    var f := q.Floor as real;
    Scale(f, q, w);
    ScaleStrictly(q - 1.0, f, w);
    assert q * w == now;
    assert (q - 1.0) * w == q * w - w;
  }

  lemma Scale(x: real, y: real, k: real)
    requires x <= y && k > 0.0
    ensures x * k <= y * k
  {
  }

  lemma NonNegative(x: real, k: real)
    requires x >= 0.0 && k > 0.0
    ensures x * k >= 0.0
  {
  }

  lemma ScaleStrictly(x: real, y: real, k: real)
    requires x < y && k > 0.0
    ensures x * k < y * k
  {
  }

  lemma CheckKeepsBucket(known: Option<Bucket>, options: Options, before: real, now: real)
    requires ValidOptions(options) && before <= now
    requires known.Some? ==> BucketFor(known.value, options, before)
    ensures BucketFor(CheckBucket(known, options, now).0, options, now)
  {
    PerSecondPositive(options);
    FloorBounds(now, WindowSeconds(options));
    if options.strategy == TokenBucketStrategy && known.Some? {
      var elapsed := now - known.value.refilledAt;
      assert elapsed * PerSecond(options) >= 0.0;
    }
  }

  /** Checking a bucket that has gone idle is checking none at all. */
  lemma IdleIsFresh(bucket: Bucket, options: Options, now: real)
    requires ValidOptions(options) && BucketFor(bucket, options, now)
    requires bucket.TokenBucket? ==> bucket.perSecond > 0.0
    requires IdleAt(bucket) <= now
    ensures CheckBucket(Some(bucket), options, now) == CheckBucket(None, options, now)
  {
    PerSecondPositive(options);
    FloorBounds(now, WindowSeconds(options));
    if bucket.TokenBucket? {
      var missing := bucket.capacity - bucket.tokens;
      var elapsed := now - bucket.refilledAt;
      assert missing / bucket.perSecond <= elapsed;
      assert missing == missing / bucket.perSecond * bucket.perSecond;
      Scale(missing / bucket.perSecond, elapsed, bucket.perSecond);
    }
  }

  // ----- The limiter -----

  ghost predicate HasRates(buckets: map<Id, Bucket>) {
    forall id :: id in buckets && buckets[id].TokenBucket? ==> buckets[id].perSecond > 0.0
  }

  /** What is kept when idle buckets go. */
  function Purged(buckets: map<Id, Bucket>, now: real): map<Id, Bucket>
    requires HasRates(buckets)
  {
    map id | id in buckets && !(IdleAt(buckets[id]) <= now) :: buckets[id]
  }

  lemma CheckedRate(known: Option<Bucket>, options: Options, now: real)
    requires ValidOptions(options)
    ensures var bucket := CheckBucket(known, options, now).0; bucket.TokenBucket? ==> bucket.perSecond > 0.0
  {
    PerSecondPositive(options);
  }

  function Lookup(buckets: map<Id, Bucket>, id: Id): Option<Bucket> {
    if id in buckets then Some(buckets[id]) else None
  }

  /** Whether the opportunistic purge is due; the first check always purges. */
  predicate PurgeDue(lastPurge: Option<real>, options: Options, now: real) {
    lastPurge.None? || now - lastPurge.value >= WindowSeconds(options)
  }

  /** The buckets a check finds after the purge it may do first. */
  function Kept(buckets: map<Id, Bucket>, lastPurge: Option<real>, options: Options, now: real): map<Id, Bucket>
    requires HasRates(buckets)
  {
    if PurgeDue(lastPurge, options, now) then Purged(buckets, now) else buckets
  }

  class ActionRateLimiter {
    var buckets: map<Id, Bucket>
    var lastPurge: Option<real>

    constructor ()
      ensures buckets == map[] && lastPurge == None
    {
      buckets, lastPurge := map[], None;
    }

    /** Removes idle buckets and returns how many. */
    method PurgeIdle(now: real) returns (removed: nat)
      requires HasRates(buckets)
      modifies this`buckets
      ensures buckets == Purged(old(buckets), now)
      ensures removed == |old(buckets)| - |buckets|
    {
      var idle: seq<Id> := [];
      var left := buckets.Keys;
      while left != {}
        invariant buckets == old(buckets) && left <= buckets.Keys
        invariant forall id :: id in idle <==> id in buckets && id !in left && IdleAt(buckets[id]) <= now
        invariant forall i, j :: 0 <= i < j < |idle| ==> idle[i] != idle[j]
        decreases |left|
      {
        var id :| id in left;
        left := left - {id};
        if IdleAt(buckets[id]) <= now {
          idle := idle + [id];
        }
      }
      removed := |idle|;
      Delete(idle);
      assert buckets == Purged(old(buckets), now);
    }

    method Delete(ids: seq<Id>)
      requires forall i :: 0 <= i < |ids| ==> ids[i] in buckets
      requires forall i, j :: 0 <= i < j < |ids| ==> ids[i] != ids[j]
      modifies this`buckets
      ensures forall id :: id in buckets <==> id in old(buckets) && id !in ids
      ensures forall id :: id in buckets ==> buckets[id] == old(buckets)[id]
      ensures |buckets| == |old(buckets)| - |ids|
    {
      var i := 0;
      while i < |ids|
        invariant 0 <= i <= |ids| && |buckets| == |old(buckets)| - i
        invariant forall id :: id in buckets <==> id in old(buckets) && id !in ids[..i]
        invariant forall id :: id in buckets ==> buckets[id] == old(buckets)[id]
      {
        assert ids[i] !in ids[..i];
        ghost var before := buckets;
        buckets := buckets - {ids[i]};
        assert before.Keys == buckets.Keys + {ids[i]};
        assert ids[..i + 1] == ids[..i] + [ids[i]];
        i := i + 1;
      }
    }

    method Check(id: Id, options: Options, now: real) returns (result: CheckResult)
      requires HasRates(buckets) && ValidOptions(options)
      modifies this
      ensures var kept := Kept(old(buckets), old(lastPurge), options, now);
              && result == CheckBucket(Lookup(kept, id), options, now).1
              && buckets == kept[id := CheckBucket(Lookup(kept, id), options, now).0]
      ensures lastPurge == if PurgeDue(old(lastPurge), options, now) then Some(now) else old(lastPurge)
    {
      if PurgeDue(lastPurge, options, now) {
        var _ := PurgeIdle(now);
        lastPurge := Some(now);
      }
      var (bucket, r) := CheckBucket(Lookup(buckets, id), options, now);
      buckets := buckets[id := bucket];
      result := r;
    }
  }

  // ----- Runs -----

  datatype Event = Check(id: Id, now: real) | Purge(now: real)

  ghost predicate InOrder(events: seq<Event>, start: real) {
    && (forall i :: 0 <= i < |events| ==> start <= events[i].now)
    && (forall i, j :: 0 <= i < j < |events| ==> events[i].now <= events[j].now)
  }

  /** What one check of a run answered. */
  datatype Answer = Answer(id: Id, now: real, result: CheckResult)

  /** A limiter that never purges. */
  function Plain(options: Id -> Options, buckets: map<Id, Bucket>, events: seq<Event>): seq<Answer>
    requires forall id :: ValidOptions(options(id))
    decreases |events|
  {
    if events == [] then []
    else
      match events[0]
      case Purge(_) => Plain(options, buckets, events[1..])
      case Check(id, now) =>
        var (bucket, result) := CheckBucket(Lookup(buckets, id), options(id), now);
        [Answer(id, now, result)] + Plain(options, buckets[id := bucket], events[1..])
  }

  /** The limiter as it is. */
  ghost function Purging(options: Id -> Options, buckets: map<Id, Bucket>, lastPurge: Option<real>, events: seq<Event>):
      seq<Answer>
    requires forall id :: ValidOptions(options(id))
    requires HasRates(buckets)
    decreases |events|
  {
    if events == [] then []
    else
      match events[0]
      case Purge(now) => Purging(options, Purged(buckets, now), lastPurge, events[1..])
      case Check(id, now) =>
        var kept := Kept(buckets, lastPurge, options(id), now);
        var (bucket, result) := CheckBucket(Lookup(kept, id), options(id), now);
        CheckedRate(Lookup(kept, id), options(id), now);
        [Answer(id, now, result)]
          + Purging(options, kept[id := bucket],
                    if PurgeDue(lastPurge, options(id), now) then Some(now) else lastPurge, events[1..])
  }

  /** The purged buckets are the plain ones, less some that have gone idle. */
  ghost predicate Thinned(options: Id -> Options, plain: map<Id, Bucket>, purged: map<Id, Bucket>, now: real) {
    && (forall id :: id in plain ==> ValidOptions(options(id)) && BucketFor(plain[id], options(id), now))
    && (forall id :: id in purged ==> id in plain && purged[id] == plain[id])
    && HasRates(plain)
    && (forall id :: id in plain && id !in purged ==> IdleAt(plain[id]) <= now)
  }

  /** Time passing, and a purge, keep it so. */
  lemma PurgeKeepsThinned(options: Id -> Options, plain: map<Id, Bucket>, purged: map<Id, Bucket>, before: real,
                          now: real)
    requires Thinned(options, plain, purged, before) && before <= now
    ensures Thinned(options, plain, purged, now) && HasRates(purged)
    ensures Thinned(options, plain, Purged(purged, now), now)
  {
  }

  lemma SameCheck(options: Id -> Options, plain: map<Id, Bucket>, purged: map<Id, Bucket>, now: real, id: Id)
    requires Thinned(options, plain, purged, now) && ValidOptions(options(id))
    ensures CheckBucket(Lookup(plain, id), options(id), now) == CheckBucket(Lookup(purged, id), options(id), now)
    ensures var bucket := CheckBucket(Lookup(plain, id), options(id), now).0;
            Thinned(options, plain[id := bucket], purged[id := bucket], now)
  {
    if id in plain && id !in purged {
      IdleIsFresh(plain[id], options(id), now);
    }
    CheckKeepsBucket(Lookup(plain, id), options(id), now, now);
    CheckedRate(Lookup(plain, id), options(id), now);
  }

  /** Purging, whether opportunistic or asked for, changes no result of any run. */
  lemma {:induction false} PurgingIsInvisible(options: Id -> Options, plain: map<Id, Bucket>, purged: map<Id, Bucket>,
                                              lastPurge: Option<real>, events: seq<Event>, start: real)
    requires forall id :: ValidOptions(options(id))
    requires Thinned(options, plain, purged, start) && InOrder(events, start) && HasRates(purged)
    ensures Purging(options, purged, lastPurge, events) == Plain(options, plain, events)
    decreases |events|
  {
    if events != [] {
      var now := events[0].now;
      PurgeKeepsThinned(options, plain, purged, start, now);
      assert InOrder(events[1..], now);
      match events[0] {
        case Purge(_) =>
          PurgingIsInvisible(options, plain, Purged(purged, now), lastPurge, events[1..], now);
        case Check(id, _) =>
          var kept := Kept(purged, lastPurge, options(id), now);
          SameCheck(options, plain, kept, now, id);
          var bucket := CheckBucket(Lookup(plain, id), options(id), now).0;
          PurgingIsInvisible(options, plain[id := bucket], kept[id := bucket],
                             if PurgeDue(lastPurge, options(id), now) then Some(now) else lastPurge, events[1..], now);
      }
    }
  }
}
