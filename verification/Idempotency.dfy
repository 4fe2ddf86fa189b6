/** The server's memory of retried calls: per player, what each key's dispatch settled to. */
module Idempotency {
  import opened Text
  import opened Wrappers

  type Player = string

  const KEY_MAX_LENGTH := 64
  const TTL_MS := 20000.0
  const MAX_ENTRIES := 64

  // ----- Keys and slots -----

  /** `n` is the client's call counter, `r` the random part. */
  function MintKey(n: nat, r: nat): string {
    Decimal(n) + ":" + Decimal(r)
  }

  predicate IsKey(key: string) {
    0 < |key| <= KEY_MAX_LENGTH
  }

  /** A key is remembered for one action. */
  function Slot(actionId: string, key: string): string {
    actionId + "\n" + key
  }

  function Pow10(k: nat): nat {
    if k == 0 then 1 else 10 * Pow10(k - 1)
  }

  lemma {:induction false} DecimalLength(n: nat, k: nat)
    requires k > 0 && n < Pow10(k)
    ensures |Decimal(n)| <= k
    decreases k
  {
    if n >= 10 {
      DecimalLength(n / 10, k - 1);
    }
  }

  /** Keys of different calls of one client differ, whatever the random parts are, and a client that
      makes fewer than 10^53 calls mints only keys the server accepts. */
  lemma MintedKeys(n: nat, r: nat, m: nat, q: nat)
    requires n < Pow10(53) && r < Pow10(10)
    ensures IsKey(MintKey(n, r))
    ensures n != m ==> MintKey(n, r) != MintKey(m, q)
  {
    DecimalLength(n, 53);
    DecimalLength(r, 10);
    CounterReads(n, r);
    CounterReads(m, q);
  }

  lemma CounterReads(n: nat, r: nat)
    ensures ReadDigits(0, MintKey(n, r)).0 == n
  {
    DecimalReads(n, ":" + Decimal(r));
    assert MintKey(n, r) == Decimal(n) + (":" + Decimal(r));
  }

  /** One id is the other, a newline and a remainder, which the other's key has in front, before another newline. */
  predicate Shifted(a: string, k: string, b: string, l: string) {
    && |a| < |b| && b[..|a|] == a && b[|a|] == '\n'
    && k == b[|a| + 1..] + "\n" + l
  }

  lemma {:induction false} ShorterIdShifts(a: string, k: string, b: string, l: string)
    requires |a| <= |b| && Slot(a, k) == Slot(b, l)
    ensures (a == b && k == l) || Shifted(a, k, b, l)
  {
    var slot := Slot(a, k);
    assert slot[..|a|] == a && slot[|a|] == '\n' && slot[|a| + 1..] == k;
    assert slot[..|b|] == b && slot[|b|] == '\n' && slot[|b| + 1..] == l;
    if |a| == |b| {
      assert a == b && k == l;
    } else {
      assert b[..|a|] == slot[..|b|][..|a|] == slot[..|a|];
      assert b[|a|] == slot[..|b|][|a|] == slot[|a|];
      var r := b[|a| + 1..];
      assert r == slot[|a| + 1..|b|];
      assert k == slot[|a| + 1..|b|] + ([slot[|b|]] + slot[|b| + 1..]);
    }
  }

  lemma ShiftedMeets(a: string, k: string, b: string, l: string)
    requires Shifted(a, k, b, l)
    ensures Slot(a, k) == Slot(b, l)
  {
    assert b == a + "\n" + b[|a| + 1..];
  }

  /** Two calls have one slot exactly when they are one call, or one's id and key are the other's with a newline
      moved between them. */
  lemma SlotsMeetExactly(a: string, k: string, b: string, l: string)
    ensures Slot(a, k) == Slot(b, l) <==> (a == b && k == l) || Shifted(a, k, b, l) || Shifted(b, l, a, k)
  {
    if Slot(a, k) == Slot(b, l) {
      if |a| <= |b| {
        ShorterIdShifts(a, k, b, l);
      } else {
        ShorterIdShifts(b, l, a, k);
      }
    }
    if Shifted(a, k, b, l) {
      ShiftedMeets(a, k, b, l);
    }
    if Shifted(b, l, a, k) {
      ShiftedMeets(b, l, a, k);
    }
  }

  lemma ShiftedHasNewlines(a: string, k: string, b: string, l: string)
    ensures Shifted(a, k, b, l) ==> '\n' in b && '\n' in k
  {
    if Shifted(a, k, b, l) {
      assert b[|a|] == '\n' && k[|b| - |a| - 1] == '\n';
    }
  }

  /** So slots tell calls apart when their ids have no newline, and also when their keys have none, whatever
      the ids are. */
  lemma SlotsDiffer(a: string, k: string, b: string, l: string)
    requires ('\n' !in a && '\n' !in b) || ('\n' !in k && '\n' !in l)
    ensures Slot(a, k) == Slot(b, l) <==> a == b && k == l
  {
    SlotsMeetExactly(a, k, b, l);
    ShiftedHasNewlines(a, k, b, l);
    ShiftedHasNewlines(b, l, a, k);
  }

  /** With a newline in an id and in a key two different calls share a slot. */
  lemma SlotsCanMeet()
    ensures Slot("a\nb", "c") == Slot("a", "b\nc")
  {
  }

  lemma {:induction false} DecimalHasNoNewline(n: nat)
    ensures '\n' !in Decimal(n)
  {
    if n >= 10 {
      DecimalHasNoNewline(n / 10);
    }
  }

  /** A minted key tells its counter and its random part. */
  lemma MintedKeysTell(n: nat, r: nat, m: nat, q: nat)
    ensures MintKey(n, r) == MintKey(m, q) <==> n == m && r == q
  {
    DecimalReads(n, ":" + Decimal(r));
    DecimalReads(m, ":" + Decimal(q));
    assert MintKey(n, r) == Decimal(n) + (":" + Decimal(r)) && MintKey(m, q) == Decimal(m) + (":" + Decimal(q));
    if MintKey(n, r) == MintKey(m, q) {
      DecimalReads(r, "");
      DecimalReads(q, "");
      assert (":" + Decimal(r))[1..] == Decimal(r) && (":" + Decimal(q))[1..] == Decimal(q);
      assert Decimal(r) + "" == Decimal(r) && Decimal(q) + "" == Decimal(q);
    }
  }

  /** So minted keys never meet: calls with different counters or random parts have different slots, whatever their
      action ids. */
  lemma MintedSlotsDiffer(a: string, n: nat, r: nat, b: string, m: nat, q: nat)
    requires n != m || r != q
    ensures Slot(a, MintKey(n, r)) != Slot(b, MintKey(m, q))
  {
    MintedKeysTell(n, r, m, q);
    DecimalHasNoNewline(n);
    DecimalHasNoNewline(r);
    DecimalHasNoNewline(m);
    DecimalHasNoNewline(q);
    SlotsDiffer(a, MintKey(n, r), b, MintKey(m, q));
  }

  // ----- One player's entries -----

  /** A remembered dispatch: which promise it gave out, and when it settled. */
  datatype Entry = Entry(promise: nat, settledAt: Option<real>)

  datatype PlayerEntries = PlayerEntries(entries: map<string, Entry>, order: seq<string>)

  const NO_ENTRIES := PlayerEntries(map[], [])

  /** The insertion order lists exactly the remembered slots, once each, and never too many. */
  ghost predicate ValidEntries(state: PlayerEntries) {
    && (forall i, j :: 0 <= i < j < |state.order| ==> state.order[i] != state.order[j])
    && (forall slot :: slot in state.order <==> slot in state.entries)
    && |state.order| <= 64
  }

  function IndexOf(order: seq<string>, slot: string): (at: int)
    ensures -1 <= at < |order|
    ensures at >= 0 ==> order[at] == slot
    ensures at == -1 <==> slot !in order
  {
    if order == [] then -1
    else if order[0] == slot then 0
    else
      var at := IndexOf(order[1..], slot);
      if at == -1 then -1 else at + 1
  }

  function Without(order: seq<string>, slot: string): seq<string> {
    var at := IndexOf(order, slot);
    if at == -1 then order else order[..at] + order[at + 1..]
  }

  function Remove(state: PlayerEntries, slot: string): PlayerEntries {
    PlayerEntries(state.entries - {slot}, Without(state.order, slot))
  }

  /** Room for one more: the oldest go first. */
  function Evict(state: PlayerEntries): PlayerEntries
    decreases |state.order|
  {
    if |state.order| < MAX_ENTRIES then state
    else
      assert IndexOf(state.order, state.order[0]) == 0;
      Evict(Remove(state, state.order[0]))
  }

  predicate Live(entry: Entry, now: real) {
    entry.settledAt.Some? ==> now - entry.settledAt.value <= TTL_MS
  }

  /** The promise an attempt is given from memory, if any. */
  function Remembered(state: PlayerEntries, slot: string, now: real): Option<nat> {
    if slot in state.entries && Live(state.entries[slot], now) then Some(state.entries[slot].promise) else None
  }

  /** What is remembered once an attempt that was not has been dispatched. */
  function Dispatched(state: PlayerEntries, slot: string, promise: nat): PlayerEntries {
    var room := Evict(if slot in state.entries then Remove(state, slot) else state);
    PlayerEntries(room.entries[slot := Entry(promise, None)], room.order + [slot])
  }

  /** A dispatch that settled: kept with its time when it reached its handler, dropped otherwise. */
  function Settled(state: PlayerEntries, slot: string, promise: nat, ran: bool, now: real): PlayerEntries {
    if slot !in state.entries || state.entries[slot].promise != promise then state
    else if ran then state.(entries := state.entries[slot := Entry(promise, Some(now))])
    else Remove(state, slot)
  }

  lemma RemoveKeepsValid(state: PlayerEntries, slot: string)
    requires ValidEntries(state)
    ensures ValidEntries(Remove(state, slot)) && slot !in Remove(state, slot).order
    ensures |Remove(state, slot).order| == |state.order| - if slot in state.entries then 1 else 0
  {
    WithoutOne(state.order, slot);
  }

  lemma WithoutOne(order: seq<string>, slot: string)
    requires forall i, j :: 0 <= i < j < |order| ==> order[i] != order[j]
    ensures var left := Without(order, slot);
            && (forall i, j :: 0 <= i < j < |left| ==> left[i] != left[j])
            && (forall other :: other in left <==> other in order && other != slot)
            && |left| == |order| - if slot in order then 1 else 0
  {
    var at := IndexOf(order, slot);
    var left := Without(order, slot);
    if at >= 0 {
      assert forall i :: 0 <= i < |left| ==> left[i] == order[if i < at then i else i + 1];
      forall other | other in order && other != slot
        ensures other in left
      {
        var i :| 0 <= i < |order| && order[i] == other;
        assert left[if i < at then i else i - 1] == other;
      }
    }
  }

  lemma EvictOnce(state: PlayerEntries)
    requires ValidEntries(state)
    ensures Evict(state) == if |state.order| < MAX_ENTRIES then state else Remove(state, state.order[0])
    ensures ValidEntries(Evict(state)) && |Evict(state).order| < MAX_ENTRIES
  {
    if |state.order| == MAX_ENTRIES {
      RemoveKeepsValid(state, state.order[0]);
    }
  }

  lemma DispatchedKeepsValid(state: PlayerEntries, slot: string, promise: nat)
    requires ValidEntries(state)
    ensures ValidEntries(Dispatched(state, slot, promise))
  {
    var removed := if slot in state.entries then Remove(state, slot) else state;
    RemoveKeepsValid(state, slot);
    EvictOnce(removed);
    if |removed.order| == MAX_ENTRIES {
      RemoveKeepsValid(removed, removed.order[0]);
    }
  }

  lemma SettledKeepsValid(state: PlayerEntries, slot: string, promise: nat, ran: bool, now: real)
    requires ValidEntries(state)
    ensures ValidEntries(Settled(state, slot, promise, ran, now))
  {
    RemoveKeepsValid(state, slot);
  }

  // ----- The cache -----

  class IdempotencyCache {
    var players: map<Player, PlayerEntries>

    constructor ()
      ensures Valid() && players == map[]
    {
      players := map[];
    }

    ghost predicate Valid()
      reads this
    {
      forall p :: p in players ==> ValidEntries(players[p])
    }

    /** One attempt. `promise` is what dispatching would return; the result is what the caller gets. */
    method Run(player: Player, slot: string, departed: bool, now: real, promise: nat)
      returns (result: nat, dispatched: bool)
      requires Valid()
      modifies this
      ensures Valid()
      ensures var known := if player in old(players) then old(players)[player] else NO_ENTRIES;
              var given := if departed then None else Remembered(known, slot, now);
              && (dispatched <==> given.None?)
              && result == (if given.Some? then given.value else promise)
              && players == if departed || given.Some? then old(players)
                            else old(players)[player := Dispatched(known, slot, promise)]
    {
      if departed {
        return promise, true;
      }
      var state := NO_ENTRIES;
      if player in players {
        state := players[player];
        if slot in state.entries {
          var existing := state.entries[slot];
          if existing.settledAt.None? || now - existing.settledAt.value <= TTL_MS {
            return existing.promise, false;
          }
          RemoveKeepsValid(state, slot);
          state := Remove(state, slot);
        }
      }
      ghost var known := if player in players then players[player] else NO_ENTRIES;
      DispatchedKeepsValid(known, slot, promise);
      ghost var before := state;
      assert before == if slot in known.entries then Remove(known, slot) else known;
      while |state.order| >= MAX_ENTRIES
        invariant players == old(players)
        invariant ValidEntries(state) && Evict(state) == Evict(before)
        decreases |state.order|
      {
        RemoveKeepsValid(state, state.order[0]);
        state := Remove(state, state.order[0]);
      }
      assert state == Evict(before);
      state := PlayerEntries(state.entries[slot := Entry(promise, None)], state.order + [slot]);
      assert state == Dispatched(known, slot, promise);
      players := players[player := state];
      return promise, true;
    }

    /** The callback of a dispatch that settled; it only touches its own entry. */
    method Settle(player: Player, slot: string, promise: nat, ran: bool, now: real)
      requires Valid()
      modifies this
      ensures Valid()
      ensures players == if player in old(players)
                         then old(players)[player := Settled(old(players)[player], slot, promise, ran, now)]
                         else old(players)
    {
      if player !in players {
        return;
      }
      var current := players[player];
      SettledKeepsValid(current, slot, promise, ran, now);
      if slot in current.entries && current.entries[slot].promise == promise {
        if ran {
          current := current.(entries := current.entries[slot := Entry(promise, Some(now))]);
        } else {
          current := Remove(current, slot);
        }
      }
      players := players[player := current];
    }

    method Forget(player: Player)
      requires Valid()
      modifies this
      ensures Valid() && players == old(players) - {player}
    {
      players := players - {player};
    }

    method Clear()
      modifies this
      ensures Valid() && players == map[]
    {
      players := map[];
    }
  }
}
