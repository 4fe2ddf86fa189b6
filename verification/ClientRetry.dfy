/** The client's retries: what one wrapped call sends, and what comes of it. */
module ClientRetry {
  import opened Wrappers

  const CANCELLED := "ActionCancelledError"
  const RATE_LIMITED := "ActionRateLimitError"
  const TIMED_OUT := "ActionTimeoutError"

  /** What an attempt was rejected with: not a table, or a table with these fields. */
  datatype Rejection = Other | Table(name: Option<string>, retryAfterMs: Option<real>)

  datatype Outcome = Resolved(value: string) | Rejected(error: Rejection)

  datatype Policy = Policy(maxRetries: int, baseDelayMs: real, maxDelayMs: real, respectRetryAfter: bool,
                           retryOn: Option<(Rejection, nat) -> bool>)

  datatype Options = Options(fireAndForget: bool, idempotent: bool, key: Option<string>)

  /** What the surroundings do: how attempt r ends, and whether the caller's signal is cancelled when it begins
      and when it has ended. */
  datatype World = World(outcome: nat -> Outcome, cancelledBefore: nat -> bool, signalCancelled: nat -> bool)

  /** One request on the wire, and how long the client had waited before it. */
  datatype Sent = Sent(key: Option<string>, waitedMs: real)

  datatype Call = Call(sent: seq<Sent>, result: Outcome)

  predicate IsCancelled(error: Rejection) {
    error.Table? && error.name == Some(CANCELLED)
  }

  predicate DefaultRetryOn(error: Rejection, idempotent: bool) {
    error.Table? && (error.retryAfterMs.Some? || error.name == Some(RATE_LIMITED)
                     || (idempotent && error.name == Some(TIMED_OUT)))
  }

  function Pow2(n: nat): (r: real)
    ensures r >= 1.0
  {
    if n == 0 then 1.0 else 2.0 * Pow2(n - 1)
  }

  function Min(x: real, y: real): real {
    if x <= y then x else y
  }

  function RetryDelayMs(policy: Policy, error: Rejection, retryIndex: nat): real {
    if policy.respectRetryAfter && error.Table? && error.retryAfterMs.Some? && error.retryAfterMs.value >= 0.0
    then Min(error.retryAfterMs.value, policy.maxDelayMs)
    else Min(policy.baseDelayMs * Pow2(retryIndex), policy.maxDelayMs)
  }

  predicate Retryable(policy: Policy, options: Options, error: Rejection, attempt: nat) {
    match policy.retryOn
    case Some(custom) => custom(error, attempt)
    case None => DefaultRetryOn(error, options.idempotent)
  }

  /** Whether attempt r is followed by another. */
  predicate Retries(policy: Policy, options: Options, world: World, r: nat) {
    match world.outcome(r)
    case Resolved(_) => false
    case Rejected(error) =>
      && !IsCancelled(error) && r < policy.maxRetries && !world.signalCancelled(r)
      && Retryable(policy, options, error, r + 1)
  }

  /** Attempt `r` and those after it, all with one key. */
  function Attempt(policy: Policy, options: Options, key: string, world: World, r: nat, waitedMs: real): Call
    decreases policy.maxRetries - r
  {
    var sent := Sent(Some(key), waitedMs);
    if Retries(policy, options, world, r) then
      var later := Attempt(policy, options, key, world, r + 1, RetryDelayMs(policy, world.outcome(r).error, r));
      Call([sent] + later.sent, later.result)
    else Call([sent], world.outcome(r))
  }

  /** One call through the wrapped invoker; `minted` is the key it would mint. */
  function Invoke(policy: Policy, options: Options, minted: string, world: World): Call {
    if policy.maxRetries <= 0 || options.fireAndForget then Call([Sent(options.key, 0.0)], world.outcome(0))
    else Attempt(policy, options, if options.key.Some? then options.key.value else minted, world, 0, 0.0)
  }

  /** Attempt r comes after attempt r - 1 was retried, at the delay that asked for. */
  ghost predicate Follows(policy: Policy, options: Options, world: World, sent: Sent, r: nat) {
    r > 0 && Retries(policy, options, world, r - 1)
    && sent.waitedMs == RetryDelayMs(policy, world.outcome(r - 1).error, r - 1)
  }

  lemma {:induction false} AttemptLaws(policy: Policy, options: Options, key: string, world: World, r: nat,
                                       waitedMs: real)
    requires r <= policy.maxRetries
    ensures var call := Attempt(policy, options, key, world, r, waitedMs);
            && 1 <= |call.sent| <= policy.maxRetries - r + 1
            && call.result == world.outcome(r + |call.sent| - 1)
            && !Retries(policy, options, world, r + |call.sent| - 1)
            && (forall i :: 0 <= i < |call.sent| ==> call.sent[i].key == Some(key))
            && call.sent[0].waitedMs == waitedMs
            && (forall i :: 0 < i < |call.sent| ==> Follows(policy, options, world, call.sent[i], r + i))
    decreases policy.maxRetries - r
  {
    if Retries(policy, options, world, r) {
      var wait := RetryDelayMs(policy, world.outcome(r).error, r);
      AttemptLaws(policy, options, key, world, r + 1, wait);
      var later := Attempt(policy, options, key, world, r + 1, wait);
      var call := Attempt(policy, options, key, world, r, waitedMs);
      forall i | 0 < i < |call.sent|
        ensures Follows(policy, options, world, call.sent[i], r + i)
      {
        assert call.sent[i] == later.sent[i - 1];
        assert i > 1 ==> Follows(policy, options, world, later.sent[i - 1], r + 1 + (i - 1));
      }
    }
  }

  /** A retried call sends at most maxRetries + 1 attempts, every one with the caller's key or else the one
      minted, and settles with its last attempt's outcome. It stops exactly at the first attempt that is not
      retried: one that resolved, was cancelled or not retryable, found the signal cancelled, or was the last
      the policy allows. With no retries allowed, or fire-and-forget, it is one attempt, untouched. */
  lemma InvokeLaws(policy: Policy, options: Options, minted: string, world: World)
    ensures var call := Invoke(policy, options, minted, world);
            var passed := policy.maxRetries <= 0 || options.fireAndForget;
            && 1 <= |call.sent| <= (if passed then 1 else policy.maxRetries + 1)
            && call.result == world.outcome(|call.sent| - 1)
            && (forall i :: 0 <= i < |call.sent| - 1 ==> Retries(policy, options, world, i))
            && (!passed ==> !Retries(policy, options, world, |call.sent| - 1))
            && (forall sent :: sent in call.sent ==>
                  sent.key == if options.key.Some? || passed then options.key else Some(minted))
  {
    if policy.maxRetries > 0 && !options.fireAndForget {
      var key := if options.key.Some? then options.key.value else minted;
      AttemptLaws(policy, options, key, world, 0, 0.0);
      var call := Invoke(policy, options, minted, world);
      forall i | 0 <= i < |call.sent| - 1
        ensures Retries(policy, options, world, i)
      {
        assert Follows(policy, options, world, call.sent[i + 1], 0 + (i + 1));
      }
    }
  }

  // ----- Which rejections are retried -----

  /** The server refused the call without running it. */
  ghost predicate Refused(error: Rejection) {
    error.Table? && (error.retryAfterMs.Some? || error.name == Some("ActionRateLimitError"))
  }

  /** No answer came in time; whether the server ran the call is not known. */
  ghost predicate TimedOut(error: Rejection) {
    error.Table? && error.name == Some("ActionTimeoutError")
  }

  /** Attempt r was rejected, by nothing the caller did, and the policy has another one left. */
  ghost predicate MayRetry(policy: Policy, options: Options, world: World, r: nat) {
    && r < policy.maxRetries && !options.fireAndForget && world.outcome(r).Rejected? && !world.signalCancelled(r)
    && !(world.outcome(r).error.Table? && world.outcome(r).error.name == Some("ActionCancelledError"))
  }

  /** Unless the policy says which: an attempt is followed by another exactly when it was refused, or, of an
      idempotent call only, timed out, with a retry left and nothing cancelled. */
  lemma RefusalsAreRetried(policy: Policy, options: Options, minted: string, world: World)
    requires policy.retryOn.None?
    ensures var last := |Invoke(policy, options, minted, world).sent| - 1;
            forall r :: 0 <= r <= last ==>
              (r < last <==>
                && MayRetry(policy, options, world, r)
                && (Refused(world.outcome(r).error) || (options.idempotent && TimedOut(world.outcome(r).error))))
  {
    InvokeLaws(policy, options, minted, world);
    var last := |Invoke(policy, options, minted, world).sent| - 1;
    forall r | 0 <= r < last
      ensures && MayRetry(policy, options, world, r)
              && (Refused(world.outcome(r).error) || (options.idempotent && TimedOut(world.outcome(r).error)))
    {
      assert Retries(policy, options, world, r);
    }
  }

  /** A call that may not run twice is sent again only after the server refused it: of its attempts only the last
      can have timed out. */
  lemma OnlyRefusalsAreRepeated(policy: Policy, options: Options, minted: string, world: World)
    requires policy.retryOn.None? && !options.idempotent
    ensures var call := Invoke(policy, options, minted, world);
            && (forall r :: 0 <= r < |call.sent| - 1 ==>
                  world.outcome(r).Rejected? && Refused(world.outcome(r).error))
            && (forall r :: 0 <= r < |call.sent| && world.outcome(r).Rejected? && !Refused(world.outcome(r).error) ==>
                  r == |call.sent| - 1)
  {
    RefusalsAreRetried(policy, options, minted, world);
  }

  /** A rule of the caller's replaces that: it is asked about each rejection that may be retried, with the number
      of the attempt to come. */
  lemma CustomRuleDecides(policy: Policy, options: Options, minted: string, world: World)
    requires policy.retryOn.Some?
    ensures var last := |Invoke(policy, options, minted, world).sent| - 1;
            forall r :: 0 <= r <= last ==>
              (r < last <==>
                MayRetry(policy, options, world, r) && policy.retryOn.value(world.outcome(r).error, r + 1))
  {
    InvokeLaws(policy, options, minted, world);
    var last := |Invoke(policy, options, minted, world).sent| - 1;
    forall r | 0 <= r < last
      ensures MayRetry(policy, options, world, r) && policy.retryOn.value(world.outcome(r).error, r + 1)
    {
      assert Retries(policy, options, world, r);
    }
  }

  // ----- How long it waits -----

  /** Doubling n times. */
  function Doubled(x: real, n: nat): real
    decreases n
  {
    if n == 0 then x else Doubled(x + x, n - 1)
  }

  lemma {:induction false} PowersDouble(x: real, n: nat)
    ensures x * Pow2(n) == Doubled(x, n)
    decreases n
  {
    if n > 0 {
      PowersDouble(x + x, n - 1);
    }
  }

  /** After n retries and then this rejection the client waits as long as the rejection asks, or else the base
      delay doubled n times; the cap when that is less. */
  ghost predicate Waits(policy: Policy, error: Rejection, n: nat, waitedMs: real) {
    var asked := policy.respectRetryAfter && error.Table? && error.retryAfterMs.Some?
      && error.retryAfterMs.value >= 0.0;
    var wait := if asked then error.retryAfterMs.value else Doubled(policy.baseDelayMs, n);
    waitedMs <= wait && waitedMs <= policy.maxDelayMs && (waitedMs == wait || waitedMs == policy.maxDelayMs)
  }

  ghost predicate WaitsAt(policy: Policy, world: World, i: nat, sent: Sent) {
    i > 0 && world.outcome(i - 1).Rejected? && Waits(policy, world.outcome(i - 1).error, i - 1, sent.waitedMs)
  }

  lemma DelayWaits(policy: Policy, error: Rejection, n: nat)
    ensures Waits(policy, error, n, RetryDelayMs(policy, error, n))
  {
    PowersDouble(policy.baseDelayMs, n);
  }

  /** The first attempt goes out at once, and each later one after the wait its rejection calls for. */
  lemma WaitsExactly(policy: Policy, options: Options, minted: string, world: World)
    ensures var sent := Invoke(policy, options, minted, world).sent;
            sent != [] && sent[0].waitedMs == 0.0 && forall i :: 0 < i < |sent| ==> WaitsAt(policy, world, i, sent[i])
  {
    InvokeLaws(policy, options, minted, world);
    if policy.maxRetries > 0 && !options.fireAndForget {
      var key := if options.key.Some? then options.key.value else minted;
      AttemptLaws(policy, options, key, world, 0, 0.0);
      var sent := Attempt(policy, options, key, world, 0, 0.0).sent;
      forall i | 0 < i < |sent|
        ensures WaitsAt(policy, world, i, sent[i])
      {
        assert Follows(policy, options, world, sent[i], 0 + i);
        DelayWaits(policy, world.outcome(i - 1).error, i - 1);
      }
    }
  }

  /** No wait is longer than the policy's cap, and none is negative when the policy's delays are not. */
  lemma WaitsAreCapped(policy: Policy, options: Options, minted: string, world: World)
    requires policy.baseDelayMs >= 0.0 && policy.maxDelayMs >= 0.0
    ensures forall sent ::
              sent in Invoke(policy, options, minted, world).sent ==> 0.0 <= sent.waitedMs <= policy.maxDelayMs
  {
    if policy.maxRetries > 0 && !options.fireAndForget {
      AttemptLaws(policy, options, if options.key.Some? then options.key.value else minted, world, 0, 0.0);
    }
    forall r: nat, error
      ensures 0.0 <= RetryDelayMs(policy, error, r) <= policy.maxDelayMs
    {
      assert policy.baseDelayMs * Pow2(r) >= 0.0;
    }
  }

  /** A signal stays cancelled. */
  ghost predicate SignalStays(world: World) {
    forall r: nat ::
          (world.cancelledBefore(r) ==> world.signalCancelled(r))
          && (world.signalCancelled(r) ==> world.cancelledBefore(r + 1))
  }

  /** The invoker of the runtime looks at the signal before it fires, and rejects without touching the wire. */
  ghost predicate ChecksSignal(world: World) {
    forall r: nat :: world.cancelledBefore(r) ==> world.outcome(r).Rejected? && IsCancelled(world.outcome(r).error)
  }

  /** How many of the attempts touch the wire. */
  function OnWire(world: World, attempts: nat): nat {
    if attempts == 0 then 0 else OnWire(world, attempts - 1) + if world.cancelledBefore(attempts - 1) then 0 else 1
  }

  lemma {:induction false} AllOnWire(world: World, attempts: nat)
    requires forall r :: 0 <= r < attempts ==> !world.cancelledBefore(r)
    ensures OnWire(world, attempts) == attempts
  {
    if attempts > 0 {
      AllOnWire(world, attempts - 1);
    }
  }

  /** The retry loop does not look at the signal when it wakes: whether attempt r + 1 is made depends on attempt r
      alone. The invoker does, so a call cancelled while it sleeps makes one more attempt, which stays off the wire
      and is the last; every attempt before it was on the wire. */
  lemma CancelledStaysOffTheWire(policy: Policy, options: Options, minted: string, world: World)
    requires SignalStays(world) && ChecksSignal(world) && policy.maxRetries > 0 && !options.fireAndForget
    ensures var call := Invoke(policy, options, minted, world); var last := |call.sent| - 1;
            && (forall r :: 0 <= r < last ==> !world.signalCancelled(r))
            && OnWire(world, |call.sent|) == |call.sent| - (if world.cancelledBefore(last) then 1 else 0)
            && (world.cancelledBefore(last) ==> call.result.Rejected? && IsCancelled(call.result.error))
  {
    InvokeLaws(policy, options, minted, world);
    var last := |Invoke(policy, options, minted, world).sent| - 1;
    forall r | 0 <= r < last
      ensures !world.signalCancelled(r) && !world.cancelledBefore(r)
    {
      assert Retries(policy, options, world, r);
    }
    AllOnWire(world, last);
  }
}
