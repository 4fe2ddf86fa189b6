/** Client and server joined: whatever becomes of the requests of a player's calls, no call's handler runs twice. */
module EndToEnd {
  import opened ClientRetry
  import opened Idempotency
  import opened RetriedCalls
  import opened Wrappers

  /** One wrapped call of a client: what it calls, the two numbers its key is minted from, and how its attempts fare. */
  datatype RetriedCall = RetriedCall(actionId: string, policy: Policy, idempotent: bool, counter: nat, random: nat,
                                     world: World)

  /** The calls of a player's clients, one for each time the player has joined. A client's counter tells its own calls
      apart; where calls of different joins have one counter, their random parts tell them apart. */
  ghost predicate ValidCalls(calls: seq<RetriedCall>) {
    && (forall n :: 0 <= n < |calls| ==>
          calls[n].policy.maxRetries > 0 && calls[n].counter < Pow10(53) && calls[n].random < Pow10(10))
    && forall n, m ::
         0 <= n < m < |calls| ==> calls[n].counter != calls[m].counter || calls[n].random != calls[m].random
  }

  function KeyOf(calls: seq<RetriedCall>, n: nat): string
    requires n < |calls|
  {
    MintKey(calls[n].counter, calls[n].random)
  }

  function SlotOf(calls: seq<RetriedCall>, n: nat): string
    requires n < |calls|
  {
    Slot(calls[n].actionId, KeyOf(calls, n))
  }

  /** What call n puts out. */
  function SentBy(calls: seq<RetriedCall>, n: nat): seq<Sent>
    requires n < |calls|
  {
    Invoke(calls[n].policy, Options(false, calls[n].idempotent, None), KeyOf(calls, n), calls[n].world).sent
  }

  /** An arrival is some request of some call. */
  ghost predicate Delivers(calls: seq<RetriedCall>, n: nat, m: nat, slot: string)
    requires n < |calls|
  {
    m < |SentBy(calls, n)| && SentBy(calls, n)[m].key.Some?
      && slot == Slot(calls[n].actionId, SentBy(calls, n)[m].key.value)
  }

  /** The network only loses, delays, repeats and reorders the player's requests. */
  ghost predicate OnlyDelivers(events: seq<Event>, player: Player, calls: seq<RetriedCall>) {
    forall slot {:trigger Event.Attempt(player, slot)} ::
      Event.Attempt(player, slot) in events ==> exists n, m :: 0 <= n < |calls| && Delivers(calls, n, m, slot)
  }

  /** Every request of a call is for one slot, with a key the server accepts. */
  lemma AttemptsShareSlot(calls: seq<RetriedCall>, n: nat, m: nat, slot: string)
    requires ValidCalls(calls) && n < |calls| && Delivers(calls, n, m, slot)
    ensures slot == SlotOf(calls, n) && IsKey(KeyOf(calls, n))
  {
    var call := calls[n];
    InvokeLaws(call.policy, Options(false, call.idempotent, None), KeyOf(calls, n), call.world);
    assert SentBy(calls, n)[m] in SentBy(calls, n);
    MintedKeys(call.counter, call.random, call.counter, call.random);
  }

  /** And no other call's. */
  lemma SlotsAreOwn(calls: seq<RetriedCall>, n: nat, m: nat)
    requires ValidCalls(calls) && n < |calls| && m < |calls| && n != m
    ensures SlotOf(calls, n) != SlotOf(calls, m)
  {
    MintedSlotsDiffer(calls[n].actionId, calls[n].counter, calls[n].random,
                      calls[m].actionId, calls[m].counter, calls[m].random);
  }

  /** A call that may not run twice puts out a further request only after the server refused the one before. */
  lemma RepeatedAfterRefusal(calls: seq<RetriedCall>, n: nat)
    requires ValidCalls(calls) && n < |calls| && !calls[n].idempotent && calls[n].policy.retryOn.None?
    ensures forall m :: 0 <= m < |SentBy(calls, n)| - 1 ==>
              calls[n].world.outcome(m).Rejected? && Refused(calls[n].world.outcome(m).error)
  {
    var call := calls[n];
    OnlyRefusalsAreRepeated(call.policy, Options(false, false, None), KeyOf(calls, n), call.world);
  }

  /** A dispatch has an arrival behind it. */
  ghost predicate Arrived(dispatches: seq<Dispatch>, events: seq<Event>) {
    forall i :: 0 <= i < |dispatches| ==> Event.Attempt(dispatches[i].player, dispatches[i].slot) in events
  }

  lemma {:induction false} DispatchesArrived(s: Server, before: seq<Event>, events: seq<Event>, t: Server)
    requires Reaches(s, events, t) && Arrived(s.dispatches, before)
    ensures Arrived(t.dispatches, before + events)
    decreases |events|
  {
    if events == [] {
      assert before + events == before;
    } else {
      var next := Next(s, events[0]);
      assert Arrived(next.dispatches, before + [events[0]]);
      DispatchesArrived(next, before + [events[0]], events[1..], t);
      assert before + [events[0]] + events[1..] == before + events;
    }
  }

  /** Each of the player's dispatches is some call's. */
  lemma DispatchHasCall(events: seq<Event>, s: Server, player: Player, calls: seq<RetriedCall>, i: nat) returns (n: nat)
    requires ValidCalls(calls) && OnlyDelivers(events, player, calls) && Reaches(START, events, s)
    requires i < |s.dispatches| && s.dispatches[i].player == player
    ensures n < |calls| && s.dispatches[i].slot == SlotOf(calls, n)
  {
    DispatchesArrived(START, [], events, s);
    assert [] + events == events;
    var slot := s.dispatches[i].slot;
    assert Event.Attempt(player, slot) in events;
    var m: nat;
    n, m :| 0 <= n < |calls| && Delivers(calls, n, m, slot);
    AttemptsShareSlot(calls, n, m, slot);
  }

  /** The memory of dispatch i was dropped, or ran out, before dispatch j. */
  ghost predicate Lapsed(s: Server, i: nat, j: nat)
    requires i < j < |s.dispatches|
  {
    var d, e := s.dispatches[i], s.dispatches[j];
    || !d.remembered || !e.remembered || d.forgotten
    || (d.settledAt.Some? && e.startedAt - d.settledAt.value > 20000.0)
    || CountOf(s.dispatches, d.player, i + 1, j) >= 64
  }

  /** Over every run of the server, whatever the network does to the requests: if a handler runs for two dispatches
      of the player, they are two calls', or the first had been dropped or outlived before the second. */
  lemma NoCallRunsTwice(events: seq<Event>, s: Server, player: Player, calls: seq<RetriedCall>, i: nat, j: nat)
    returns (n: nat, m: nat)
    requires ValidCalls(calls) && OnlyDelivers(events, player, calls) && Reaches(START, events, s)
    requires i < j < |s.dispatches| && s.dispatches[i].player == player && s.dispatches[j].player == player
    requires s.dispatches[i].ran && s.dispatches[j].ran
    ensures n < |calls| && m < |calls| && s.dispatches[i].slot == SlotOf(calls, n)
            && s.dispatches[j].slot == SlotOf(calls, m)
    ensures n == m <==> s.dispatches[i].slot == s.dispatches[j].slot
    ensures n != m || Lapsed(s, i, j)
  {
    n := DispatchHasCall(events, s, player, calls, i);
    m := DispatchHasCall(events, s, player, calls, j);
    if n == m {
      TwoDispatchesHaveAReason(events, s, i, j);
    } else {
      SlotsAreOwn(calls, n, m);
    }
  }

  /** While a call's dispatch is remembered, every further request of that call, first or repeated, is given its
      promise, and none of another call is. */
  lemma AttemptsShareOnePromise(events: seq<Event>, s: Server, player: Player, calls: seq<RetriedCall>, i: nat, n: nat,
                                k: nat, slot: string)
    requires ValidCalls(calls) && Reaches(START, events, s) && player !in s.departed
    requires i < |s.dispatches| && s.dispatches[i].player == player && Protected(s, i)
    requires n < |calls| && s.dispatches[i].slot == SlotOf(calls, n)
    requires k < |calls| && exists m :: Delivers(calls, k, m, slot)
    ensures Joins(s, player, slot) == Some(i) <==> k == n
  {
    var m :| Delivers(calls, k, m, slot);
    AttemptsShareSlot(calls, k, m, slot);
    AttemptSharesResult(events, s, i);
    if k != n {
      SlotsAreOwn(calls, k, n);
      if Joins(s, player, slot) == Some(i) {
        JoinedIsLive(events, s, player, slot, i);
      }
    }
  }
}
