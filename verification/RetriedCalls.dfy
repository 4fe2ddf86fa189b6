/** The whole server over time: attempts that arrive, late, twice or not at all, dispatches that reach
    their handler and settle, players who leave, and the clock. */
module RetriedCalls {
  import opened Idempotency
  import opened Wrappers

  /** The history of one dispatch. `ran`: it reached its handler; `settledAt`: when its promise settled;
      `forgotten`: its player's memory was dropped since. */
  datatype Dispatch = Dispatch(player: Player, slot: string, startedAt: real, remembered: bool,
                               ran: bool, settledAt: Option<real>, forgotten: bool)

  /** A dispatch's index is the promise it gave out. */
  datatype Server = Server(now: real, players: map<Player, PlayerEntries>, departed: set<Player>,
                           dispatches: seq<Dispatch>)

  const START := Server(0.0, map[], {}, [])

  datatype Event =
    | Attempt(player: Player, slot: string)
    | ReachHandler(promise: nat)
    | Settle(promise: nat)
    | Tick(ms: real)
    | Forget(player: Player)
    | Clear
    | Depart(player: Player)
    | Return(player: Player)

  predicate Enabled(s: Server, e: Event) {
    match e
    case ReachHandler(i) => i < |s.dispatches| && s.dispatches[i].settledAt.None?
    case Settle(i) => i < |s.dispatches| && s.dispatches[i].settledAt.None?
    case Tick(ms) => ms >= 0.0
    case _ => true
  }

  function EntriesOf(s: Server, player: Player): PlayerEntries {
    if player in s.players then s.players[player] else NO_ENTRIES
  }

  /** The promise the next attempt on a slot is given without a dispatch. */
  function Joins(s: Server, player: Player, slot: string): Option<nat> {
    if player in s.departed then None else Remembered(EntriesOf(s, player), slot, s.now)
  }

  function Forgetting(dispatches: seq<Dispatch>, players: set<Player>): seq<Dispatch> {
    seq(|dispatches|, i requires 0 <= i < |dispatches| =>
      if dispatches[i].player in players then dispatches[i].(forgotten := true) else dispatches[i])
  }

  function AllPlayers(dispatches: seq<Dispatch>): set<Player> {
    set d | d in dispatches :: d.player
  }

  function Next(s: Server, e: Event): Server
    requires Enabled(s, e)
  {
    match e
    case Attempt(player, slot) =>
      if Joins(s, player, slot).Some? then s
      else
        var remembered := player !in s.departed;
        s.(players :=
            if remembered then s.players[player := Dispatched(EntriesOf(s, player), slot, |s.dispatches|)]
            else s.players,
           dispatches := s.dispatches + [Dispatch(player, slot, s.now, remembered, false, None, false)])
    case ReachHandler(i) =>
      s.(dispatches := s.dispatches[i := s.dispatches[i].(ran := true)])
    case Settle(i) =>
      var d := s.dispatches[i];
      s.(players := if d.remembered && d.player in s.players
                    then s.players[d.player := Settled(s.players[d.player], d.slot, i, d.ran, s.now)] else s.players,
         dispatches := s.dispatches[i := d.(settledAt := Some(s.now))])
    case Tick(ms) => s.(now := s.now + ms)
    case Forget(player) => s.(players := s.players - {player}, dispatches := Forgetting(s.dispatches, {player}))
    case Clear => s.(players := map[], dispatches := Forgetting(s.dispatches, AllPlayers(s.dispatches)))
    case Depart(player) => s.(departed := s.departed + {player})
    case Return(player) => s.(departed := s.departed - {player})
  }

  ghost predicate Reaches(s: Server, events: seq<Event>, t: Server)
    decreases |events|
  {
    if events == [] then s == t
    else Enabled(s, events[0]) && Reaches(Next(s, events[0]), events[1..], t)
  }

  // ----- What is remembered of which dispatch -----

  /** How many remembered dispatches of the player there are from `lo` up to `hi`. */
  function CountOf(dispatches: seq<Dispatch>, player: Player, lo: nat, hi: nat): nat
    requires hi <= |dispatches|
    decreases hi - lo
  {
    if lo >= hi then 0
    else
      CountOf(dispatches, player, lo, hi - 1)
      + (if dispatches[hi - 1].player == player && dispatches[hi - 1].remembered then 1 else 0)
  }

  /** Dispatch i must still answer its slot at time `now`: its player was not departed when it started and
      has not been forgotten, it did not settle without running, it did not settle longer than twenty seconds
      ago, and fewer than 64 of the player's dispatches came after it. */
  ghost predicate Protected(s: Server, i: nat)
    requires i < |s.dispatches|
  {
    var d := s.dispatches[i];
    && d.remembered && !d.forgotten
    && (d.settledAt.Some? ==> d.ran && s.now - d.settledAt.value <= 20000.0)
    && CountOf(s.dispatches, d.player, i + 1, |s.dispatches|) < 64
  }

  /** The slots inserted after one. */
  function Behind(order: seq<string>, slot: string): int {
    |order| - 1 - IndexOf(order, slot)
  }

  /** Dispatch i is the entry of its slot, with no more behind it than came after it. */
  ghost predicate Held(s: Server, i: nat)
    requires i < |s.dispatches|
  {
    var d := s.dispatches[i];
    && d.player in s.players && d.slot in s.players[d.player].entries
    && s.players[d.player].entries[d.slot] == Entry(i, d.settledAt)
    && Behind(s.players[d.player].order, d.slot) <= CountOf(s.dispatches, d.player, i + 1, |s.dispatches|)
  }

  ghost predicate Consistent(s: Server) {
    && (forall p :: p in s.players ==> ValidEntries(s.players[p]))
    && (forall i :: 0 <= i < |s.dispatches| ==> s.dispatches[i].startedAt <= s.now)
    && (forall i :: 0 <= i < |s.dispatches| && s.dispatches[i].settledAt.Some? ==>
          s.dispatches[i].startedAt <= s.dispatches[i].settledAt.value <= s.now)
    && (forall i :: 0 <= i < |s.dispatches| && Protected(s, i) ==> Held(s, i))
  }

  /** Dispatching j although i had been dispatched for the same slot was right. */
  ghost predicate Excused(s: Server, i: nat, j: nat)
    requires i < j < |s.dispatches|
  {
    var d, e := s.dispatches[i], s.dispatches[j];
    || !d.remembered || !e.remembered || d.forgotten
    || (d.settledAt.Some? && !d.ran)
    || (d.settledAt.Some? && e.startedAt - d.settledAt.value > 20000.0)
    || CountOf(s.dispatches, d.player, i + 1, j) >= 64
  }

  ghost predicate AllExcused(s: Server) {
    forall i, j ::
      (0 <= i < j < |s.dispatches| && s.dispatches[i].player == s.dispatches[j].player
       && s.dispatches[i].slot == s.dispatches[j].slot)
      ==> Excused(s, i, j)
  }

  // ----- Counting under changes -----

  lemma {:induction false} CountSame(before: seq<Dispatch>, after: seq<Dispatch>, player: Player, lo: nat, hi: nat)
    requires hi <= |before| && hi <= |after|
    requires forall i ::
               0 <= i < hi ==> before[i].player == after[i].player && before[i].remembered == after[i].remembered
    ensures CountOf(before, player, lo, hi) == CountOf(after, player, lo, hi)
    decreases hi
  {
    if lo < hi {
      CountSame(before, after, player, lo, hi - 1);
    }
  }

  // ----- Orders under changes -----

  lemma IndexIs(order: seq<string>, slot: string, at: nat)
    requires at < |order| && order[at] == slot
    requires forall i, j :: 0 <= i < j < |order| ==> order[i] != order[j]
    ensures IndexOf(order, slot) == at
  {
  }

  /** Removing another slot brings no more behind. */
  lemma BehindRemove(order: seq<string>, slot: string, other: string)
    requires forall i, j :: 0 <= i < j < |order| ==> order[i] != order[j]
    requires slot in order && slot != other
    ensures slot in Without(order, other) && Behind(Without(order, other), slot) <= Behind(order, slot)
  {
    var left := Without(order, other);
    WithoutOne(order, other);
    var at, gone := IndexOf(order, slot), IndexOf(order, other);
    if gone >= 0 {
      var now := if at < gone then at else at - 1;
      assert left[now] == slot;
      IndexIs(left, slot, now);
    }
  }

  /** What dispatching another slot of the player does to one that is held: it is the oldest and makes
      room, or it stays with one more behind it. */
  lemma DispatchOther(state: PlayerEntries, slot: string, other: string, promise: nat)
    requires ValidEntries(state) && slot in state.entries && slot != other
    ensures var after := Dispatched(state, other, promise);
            || Behind(state.order, slot) >= MAX_ENTRIES - 1
            || (slot in after.entries && after.entries[slot] == state.entries[slot]
                && Behind(after.order, slot) <= Behind(state.order, slot) + 1)
  {
    var removed := if other in state.entries then Remove(state, other) else state;
    RemoveKeepsValid(state, other);
    BehindRemove(state.order, slot, other);
    EvictOnce(removed);
    var room := Evict(removed);
    if |removed.order| == MAX_ENTRIES {
      var oldest := removed.order[0];
      if oldest == slot {
        IndexIs(removed.order, slot, 0);
      } else {
        BehindRemove(removed.order, slot, oldest);
      }
    }
    if slot in room.entries {
      var pushed := room.order + [other];
      assert pushed[IndexOf(room.order, slot)] == slot;
      DispatchedKeepsValid(state, other, promise);
      IndexIs(pushed, slot, IndexOf(room.order, slot));
    }
  }

  lemma DispatchOwn(state: PlayerEntries, slot: string, promise: nat)
    requires ValidEntries(state)
    ensures var after := Dispatched(state, slot, promise);
            after.entries[slot] == Entry(promise, None) && Behind(after.order, slot) == 0
  {
    DispatchedKeepsValid(state, slot, promise);
    var after := Dispatched(state, slot, promise);
    IndexIs(after.order, slot, |after.order| - 1);
  }

  // ----- Every step keeps the memory consistent -----

  lemma AttemptKeepsHeld(s: Server, player: Player, slot: string, i: nat)
    requires Consistent(s) && Joins(s, player, slot).None? && i < |s.dispatches|
    requires Protected(Next(s, Attempt(player, slot)), i)
    ensures Held(Next(s, Attempt(player, slot)), i)
  {
    var t := Next(s, Attempt(player, slot));
    var d := s.dispatches[i];
    CountSame(s.dispatches, t.dispatches, d.player, i + 1, |s.dispatches|);
    assert Protected(s, i) && Held(s, i);
    if player == d.player && player !in s.departed {
      assert slot != d.slot;
      DispatchOther(s.players[player], d.slot, slot, |s.dispatches|);
    }
  }

  lemma AttemptKeepsConsistent(s: Server, player: Player, slot: string)
    requires Consistent(s) && Joins(s, player, slot).None?
    ensures Consistent(Next(s, Attempt(player, slot)))
  {
    var t := Next(s, Attempt(player, slot));
    var known := EntriesOf(s, player);
    DispatchedKeepsValid(known, slot, |s.dispatches|);
    DispatchOwn(known, slot, |s.dispatches|);
    forall i | 0 <= i < |t.dispatches| && Protected(t, i)
      ensures Held(t, i)
    {
      if i < |s.dispatches| {
        AttemptKeepsHeld(s, player, slot, i);
      }
    }
  }

  lemma AttemptKeepsExcused(s: Server, player: Player, slot: string)
    requires Consistent(s) && AllExcused(s) && Joins(s, player, slot).None?
    ensures AllExcused(Next(s, Attempt(player, slot)))
  {
    var t := Next(s, Attempt(player, slot));
    forall i, j | 0 <= i < j < |t.dispatches| && t.dispatches[i].player == t.dispatches[j].player
                  && t.dispatches[i].slot == t.dispatches[j].slot
      ensures Excused(t, i, j)
    {
      CountSame(s.dispatches, t.dispatches, s.dispatches[i].player, i + 1, j);
      if j < |s.dispatches| {
        assert Excused(s, i, j);
      } else {
        assert Protected(s, i) ==> Held(s, i);
      }
    }
  }

  lemma AttemptKeeps(s: Server, player: Player, slot: string)
    requires Consistent(s) && AllExcused(s)
    ensures Consistent(Next(s, Attempt(player, slot))) && AllExcused(Next(s, Attempt(player, slot)))
  {
    if Joins(s, player, slot).None? {
      AttemptKeepsConsistent(s, player, slot);
      AttemptKeepsExcused(s, player, slot);
    }
  }

  /** A step that changes no dispatch's player, slot, start or being remembered, and only adds reasons. */
  ghost predicate OnlyAges(before: seq<Dispatch>, after: seq<Dispatch>) {
    && |before| == |after|
    && forall i :: 0 <= i < |before| ==>
         && after[i].player == before[i].player && after[i].slot == before[i].slot
         && after[i].startedAt == before[i].startedAt && after[i].remembered == before[i].remembered
         && (before[i].forgotten ==> after[i].forgotten)
         && (before[i].settledAt.Some? ==> after[i].settledAt == before[i].settledAt && after[i].ran == before[i].ran)
  }

  lemma AgingKeepsExcused(s: Server, t: Server)
    requires AllExcused(s) && OnlyAges(s.dispatches, t.dispatches)
    ensures AllExcused(t)
  {
    forall i, j | 0 <= i < j < |t.dispatches| && t.dispatches[i].player == t.dispatches[j].player
                  && t.dispatches[i].slot == t.dispatches[j].slot
      ensures Excused(t, i, j)
    {
      CountSame(s.dispatches, t.dispatches, t.dispatches[i].player, i + 1, j);
      assert Excused(s, i, j);
    }
  }

  /** What settling one dispatch does to the entry of another slot, or of a later dispatch of its own. */
  lemma SettledOther(state: PlayerEntries, held: string, entry: Entry, slot: string, promise: nat, ran: bool, now: real)
    requires ValidEntries(state) && held in state.entries && state.entries[held] == entry && entry.promise != promise
    ensures var after := Settled(state, slot, promise, ran, now);
            held in after.entries && after.entries[held] == entry
              && Behind(after.order, held) <= Behind(state.order, held)
  {
    if slot in state.entries && state.entries[slot].promise == promise && !ran {
      BehindRemove(state.order, held, slot);
    }
  }

  lemma SettleKeepsHeld(s: Server, k: nat, i: nat)
    requires Consistent(s) && Enabled(s, Settle(k)) && i < |s.dispatches| && Protected(Next(s, Settle(k)), i)
    ensures Held(Next(s, Settle(k)), i)
  {
    var t := Next(s, Settle(k));
    var c, d := s.dispatches[i], s.dispatches[k];
    CountSame(s.dispatches, t.dispatches, c.player, i + 1, |s.dispatches|);
    assert Protected(s, i) && Held(s, i);
    if i != k && c.player == d.player {
      SettledOther(s.players[c.player], c.slot, Entry(i, c.settledAt), d.slot, k, d.ran, s.now);
    }
  }

  lemma SettleKeeps(s: Server, k: nat)
    requires Consistent(s) && AllExcused(s) && Enabled(s, Settle(k))
    ensures Consistent(Next(s, Settle(k))) && AllExcused(Next(s, Settle(k)))
  {
    var t := Next(s, Settle(k));
    var d := s.dispatches[k];
    AgingKeepsExcused(s, t);
    if d.player in s.players {
      SettledKeepsValid(s.players[d.player], d.slot, k, d.ran, s.now);
    }
    forall i | 0 <= i < |t.dispatches| && Protected(t, i)
      ensures Held(t, i)
    {
      SettleKeepsHeld(s, k, i);
    }
  }

  lemma ClearForgets(dispatches: seq<Dispatch>)
    ensures forall i :: 0 <= i < |dispatches| ==> Forgetting(dispatches, AllPlayers(dispatches))[i].forgotten
  {
    forall i | 0 <= i < |dispatches| ensures Forgetting(dispatches, AllPlayers(dispatches))[i].forgotten {
      assert dispatches[i] in dispatches;
    }
  }

  /** A step that drops a player's memory only with a mark on each of the player's dispatches, and otherwise leaves
      memory and dispatches as they were but for marks and runs of unsettled ones. */
  ghost predicate OnlyDrops(s: Server, t: Server) {
    && s.now <= t.now && OnlyAges(s.dispatches, t.dispatches)
    && (forall i :: 0 <= i < |s.dispatches| ==> t.dispatches[i].settledAt == s.dispatches[i].settledAt)
    && (forall p :: p in t.players ==> p in s.players && t.players[p] == s.players[p])
    && (forall i ::
         0 <= i < |s.dispatches| && s.dispatches[i].player in s.players && s.dispatches[i].player !in t.players ==>
          t.dispatches[i].forgotten)
  }

  lemma DropsKeep(s: Server, t: Server)
    requires Consistent(s) && AllExcused(s) && OnlyDrops(s, t)
    ensures Consistent(t) && AllExcused(t)
  {
    AgingKeepsExcused(s, t);
    forall i | 0 <= i < |t.dispatches| && Protected(t, i)
      ensures Held(t, i)
    {
      CountSame(s.dispatches, t.dispatches, t.dispatches[i].player, i + 1, |t.dispatches|);
      assert Protected(s, i) && Held(s, i);
    }
  }

  lemma OtherStepKeeps(s: Server, e: Event)
    requires Consistent(s) && AllExcused(s) && Enabled(s, e) && !e.Attempt? && !e.Settle?
    ensures Consistent(Next(s, e)) && AllExcused(Next(s, e))
  {
    ClearForgets(s.dispatches);
    DropsKeep(s, Next(s, e));
  }

  lemma StepKeeps(s: Server, e: Event)
    requires Consistent(s) && AllExcused(s) && Enabled(s, e)
    ensures Consistent(Next(s, e)) && AllExcused(Next(s, e))
  {
    match e {
      case Attempt(player, slot) => AttemptKeeps(s, player, slot);
      case Settle(k) => SettleKeeps(s, k);
      case _ => OtherStepKeeps(s, e);
    }
  }

  lemma {:induction false} RunKeeps(s: Server, events: seq<Event>, t: Server)
    requires Consistent(s) && AllExcused(s) && Reaches(s, events, t)
    ensures Consistent(t) && AllExcused(t)
    decreases |events|
  {
    if events != [] {
      StepKeeps(s, events[0]);
      RunKeeps(Next(s, events[0]), events[1..], t);
    }
  }

  // ----- Main results -----

  /** In any run, an attempt on the slot of a dispatch that is still protected is given that dispatch's
      promise, and nothing is dispatched. */
  lemma AttemptSharesResult(events: seq<Event>, s: Server, i: nat)
    requires Reaches(START, events, s) && i < |s.dispatches|
    requires Protected(s, i) && s.dispatches[i].player !in s.departed
    ensures Joins(s, s.dispatches[i].player, s.dispatches[i].slot) == Some(i)
    ensures Next(s, Attempt(s.dispatches[i].player, s.dispatches[i].slot)) == s
  {
    RunKeeps(START, events, s);
    assert Held(s, i);
  }

  /** In any run, a slot is dispatched twice only for a reason: the player was away for one of the
      dispatches or forgotten after the first, the first settled without reaching its handler, it had
      settled longer than twenty seconds before the second, or 64 of the player's calls came between. */
  lemma TwoDispatchesHaveAReason(events: seq<Event>, s: Server, i: nat, j: nat)
    requires Reaches(START, events, s) && i < j < |s.dispatches|
    requires s.dispatches[i].player == s.dispatches[j].player && s.dispatches[i].slot == s.dispatches[j].slot
    ensures Excused(s, i, j)
  {
    RunKeeps(START, events, s);
  }

  // ----- One call, retried -----

  /** Nothing in these events makes the server drop what it remembers of the player. */
  ghost predicate Undisturbed(events: seq<Event>, player: Player) {
    forall e :: e in events ==> e != Forget(player) && e != Clear && e != Depart(player)
  }

  /** What is dispatched for the player from now on is remembered, and what was is not forgotten. */
  ghost predicate Remembers(s: Server, t: Server, player: Player) {
    && player !in t.departed && |s.dispatches| <= |t.dispatches|
    && (forall i :: 0 <= i < |s.dispatches| ==> KeptDispatch(s.dispatches[i], t.dispatches[i], player))
    && (forall i :: |s.dispatches| <= i < |t.dispatches| && t.dispatches[i].player == player ==>
          t.dispatches[i].remembered && !t.dispatches[i].forgotten)
  }

  ghost predicate KeptDispatch(before: Dispatch, after: Dispatch, player: Player) {
    && after.player == before.player && after.slot == before.slot && after.startedAt == before.startedAt
    && after.remembered == before.remembered && (before.player == player ==> after.forgotten == before.forgotten)
  }

  lemma StepRemembers(s: Server, t: Server, e: Event, player: Player)
    requires Remembers(s, t, player) && Enabled(t, e) && Undisturbed([e], player)
    ensures Remembers(s, Next(t, e), player)
  {
    assert e in [e];
  }

  lemma {:induction false} UndisturbedRemembers(s: Server, t: Server, events: seq<Event>, u: Server, player: Player)
    requires Undisturbed(events, player) && Remembers(s, t, player) && Reaches(t, events, u)
    ensures Remembers(s, u, player)
    decreases |events|
  {
    if events != [] {
      assert events[0] in events && forall e :: e in events[1..] ==> e in events;
      StepRemembers(s, t, events[0], player);
      assert Undisturbed(events[1..], player);
      UndisturbedRemembers(s, Next(t, events[0]), events[1..], u, player);
    }
  }

  lemma {:induction false} RunsJoin(s: Server, first: seq<Event>, t: Server, more: seq<Event>, u: Server)
    requires Reaches(s, first, t) && Reaches(t, more, u)
    ensures Reaches(s, first + more, u)
    decreases |first|
  {
    if first == [] {
      assert first + more == more;
    } else {
      RunsJoin(Next(s, first[0]), first[1..], t, more, u);
      assert (first + more)[1..] == first[1..] + more;
    }
  }

  /** From `s` on, where dispatch i is remembered, nothing happens that makes the server drop it but the calls that
      push it out. */
  ghost predicate Stays(events: seq<Event>, s: Server, more: seq<Event>, t: Server, i: nat) {
    && Reaches(START, events, s) && Reaches(s, more, t) && i < |s.dispatches|
    && s.dispatches[i].remembered && !s.dispatches[i].forgotten && s.dispatches[i].player !in s.departed
    && Undisturbed(more, s.dispatches[i].player)
  }

  lemma StaysInRun(events: seq<Event>, s: Server, more: seq<Event>, t: Server, i: nat)
    requires Stays(events, s, more, t, i)
    ensures Reaches(START, events + more, t) && Remembers(s, t, s.dispatches[i].player)
  {
    RunsJoin(START, events, s, more, t);
    UndisturbedRemembers(s, s, more, t, s.dispatches[i].player);
  }

  /** However the attempts of one call are delayed, repeated or lost, its handler runs at most once: if the slot
      is dispatched again, within twenty seconds and with fewer than 64 of the player's calls in between, the
      earlier dispatch settled without reaching the handler. */
  lemma RetriedCallRunsOnce(events: seq<Event>, s: Server, more: seq<Event>, t: Server, i: nat, j: nat)
    requires Stays(events, s, more, t, i) && |s.dispatches| <= j < |t.dispatches|
    requires t.dispatches[j].player == s.dispatches[i].player && t.dispatches[j].slot == s.dispatches[i].slot
    requires t.dispatches[j].startedAt - s.dispatches[i].startedAt <= 20000.0
    requires CountOf(t.dispatches, s.dispatches[i].player, i + 1, j) < 64
    ensures t.dispatches[i].settledAt.Some? && !t.dispatches[i].ran
  {
    StaysInRun(events, s, more, t, i);
    RunKeeps(START, events + more, t);
    assert KeptDispatch(s.dispatches[i], t.dispatches[i], s.dispatches[i].player);
    assert Excused(t, i, j);
  }

  /** And once it has run, or while it may still, every further attempt in that time, with fewer than 64
      of the player's calls since, shares its promise. */
  lemma RetriedCallSharesResult(events: seq<Event>, s: Server, more: seq<Event>, t: Server, i: nat)
    requires Stays(events, s, more, t, i) && i < |t.dispatches|
             && (t.dispatches[i].settledAt.None? || t.dispatches[i].ran)
    requires t.now - s.dispatches[i].startedAt <= 20000.0
    requires CountOf(t.dispatches, s.dispatches[i].player, i + 1, |t.dispatches|) < 64
    ensures Joins(t, s.dispatches[i].player, s.dispatches[i].slot) == Some(i)
  {
    StaysInRun(events, s, more, t, i);
    RunKeeps(START, events + more, t);
    assert KeptDispatch(s.dispatches[i], t.dispatches[i], s.dispatches[i].player);
    assert Protected(t, i);
    AttemptSharesResult(events + more, t, i);
  }

  // ----- What can be joined -----

  /** An entry is of a dispatch of its player and slot that is remembered, and settled as the entry says. */
  ghost predicate IsEntryOf(entry: Entry, player: Player, slot: string, dispatches: seq<Dispatch>) {
    entry.promise < |dispatches| &&
    var d := dispatches[entry.promise];
    && d.player == player && d.slot == slot && d.remembered && !d.forgotten
    && entry.settledAt == d.settledAt && (d.settledAt.Some? ==> d.ran)
  }

  ghost predicate OwnPromises(player: Player, state: PlayerEntries, dispatches: seq<Dispatch>) {
    forall slot :: slot in state.entries ==> IsEntryOf(state.entries[slot], player, slot, dispatches)
  }

  ghost predicate OwnEntries(s: Server) {
    forall p {:trigger s.players[p]} :: p in s.players ==> OwnPromises(p, s.players[p], s.dispatches)
  }

  lemma {:induction false} EvictKeeps(state: PlayerEntries)
    ensures forall slot ::
              slot in Evict(state).entries ==>
                slot in state.entries && Evict(state).entries[slot] == state.entries[slot]
    decreases |state.order|
  {
    if |state.order| >= MAX_ENTRIES {
      EvictKeeps(Remove(state, state.order[0]));
    }
  }

  lemma DispatchedIsOwn(player: Player, state: PlayerEntries, dispatches: seq<Dispatch>, d: Dispatch)
    requires OwnPromises(player, state, dispatches)
    requires d.player == player && d.remembered && !d.forgotten && d.settledAt.None?
    ensures OwnPromises(player, Dispatched(state, d.slot, |dispatches|), dispatches + [d])
  {
    EvictKeeps(if d.slot in state.entries then Remove(state, d.slot) else state);
  }

  lemma SettledIsOwn(player: Player, state: PlayerEntries, dispatches: seq<Dispatch>, i: nat, now: real)
    requires OwnPromises(player, state, dispatches) && i < |dispatches|
    requires dispatches[i].settledAt.None?
    ensures OwnPromises(player, Settled(state, dispatches[i].slot, i, dispatches[i].ran, now),
                        dispatches[i := dispatches[i].(settledAt := Some(now))])
  {
    var d := dispatches[i];
    var after := Settled(state, d.slot, i, d.ran, now);
    forall slot | slot in after.entries
      ensures IsEntryOf(after.entries[slot], player, slot, dispatches[i := d.(settledAt := Some(now))])
    {
      assert IsEntryOf(state.entries[slot], player, slot, dispatches);
    }
  }

  /** The player's dispatches stay what entries say of them. */
  lemma SameDispatchesAreOwn(player: Player, state: PlayerEntries, before: seq<Dispatch>, after: seq<Dispatch>)
    requires OwnPromises(player, state, before) && |before| <= |after|
    requires forall i :: 0 <= i < |before| && before[i].player == player ==>
               before[i] == after[i] || (before[i].settledAt.None? && after[i] == before[i].(ran := after[i].ran))
    ensures OwnPromises(player, state, after)
  {
    forall slot | slot in state.entries
      ensures IsEntryOf(state.entries[slot], player, slot, after)
    {
      assert IsEntryOf(state.entries[slot], player, slot, before);
    }
  }

  lemma EntriesStayOwn(s: Server, e: Event)
    requires OwnEntries(s) && Enabled(s, e)
    ensures OwnEntries(Next(s, e))
  {
    var t := Next(s, e);
    forall p | p in t.players
      ensures OwnPromises(p, t.players[p], t.dispatches)
    {
      if e.Attempt? && t != s && p == e.player && p !in s.departed {
        DispatchedIsOwn(p, EntriesOf(s, p), s.dispatches, t.dispatches[|s.dispatches|]);
      } else if e.Settle? && p == s.dispatches[e.promise].player {
        SettledIsOwn(p, s.players[p], s.dispatches, e.promise, s.now);
        SettledUnremembered(s, e.promise, p);
      } else {
        SameDispatchesAreOwn(p, s.players[p], s.dispatches, t.dispatches);
      }
    }
  }

  /** Settling a dispatch that was not remembered finds no entry. */
  lemma SettledUnremembered(s: Server, i: nat, p: Player)
    requires OwnEntries(s) && i < |s.dispatches| && p in s.players && p == s.dispatches[i].player
    ensures !s.dispatches[i].remembered ==>
              Settled(s.players[p], s.dispatches[i].slot, i, s.dispatches[i].ran, s.now) == s.players[p]
  {
    var slot := s.dispatches[i].slot;
    assert slot in s.players[p].entries ==> IsEntryOf(s.players[p].entries[slot], p, slot, s.dispatches);
  }

  lemma {:induction false} EntriesAreOwn(s: Server, events: seq<Event>, t: Server)
    requires OwnEntries(s) && Reaches(s, events, t)
    ensures OwnEntries(t)
    decreases |events|
  {
    if events != [] {
      EntriesStayOwn(s, events[0]);
      EntriesAreOwn(Next(s, events[0]), events[1..], t);
    }
  }

  /** In any run an attempt is given the promise only of a dispatch of its own player and slot that was remembered
      and not forgotten, and that is in flight or ran and settled no longer than twenty seconds ago. */
  lemma JoinedIsLive(events: seq<Event>, s: Server, player: Player, slot: string, i: nat)
    requires Reaches(START, events, s) && Joins(s, player, slot) == Some(i)
    ensures i < |s.dispatches| && player !in s.departed
    ensures var d := s.dispatches[i];
            && d.player == player && d.slot == slot && d.remembered && !d.forgotten
            && (d.settledAt.Some? ==> d.ran && s.now - d.settledAt.value <= 20000.0)
  {
    EntriesAreOwn(START, events, s);
    assert IsEntryOf(s.players[player].entries[slot], player, slot, s.dispatches);
  }
}
