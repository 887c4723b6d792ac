/**
 Many clients sharing one memory store. Each goes through the steps of `fetch_bootstrap` (look,
 request, put) and then looks a name up; the steps of different clients interleave freely.
 */
module SharedStore {
  import opened Wrappers
  import opened IanaRegistry
  import opened HttpCache
  import opened BootstrapStores

  /**
   How far a client has come. `at` counts the puts that had happened when it checked the store, and
   `seen` is the registry it then found fresh, if it did.
   */
  datatype Phase =
    | Start(t: RegistryType)
    | Fetching(t: RegistryType, at: nat)
    | Holding(t: RegistryType, at: nat, held: Held)
    | Ready(t: RegistryType, at: nat, seen: Option<Held>)
    | Done(t: RegistryType, at: nat, seen: Option<Held>, read: Option<Held>)
    | Failed

  datatype State = State(slots: Slots, log: seq<Put>, clients: map<nat, Phase>, now: int)

  datatype Action =
    | Tick(time: nat)
    | Begin(id: nat, t: RegistryType)
    | Check(id: nat)
    | Respond(id: nat, held: Held)
    | Lose(id: nat)
    | Store(id: nat)
    | Lookup(id: nat)

  function SlotOf(slots: Slots, t: RegistryType): Option<Held> {
    if t in slots then Some(slots[t]) else None
  }

  /** The effect of an action; an action that is not the client's next step does nothing. */
  function Next(s: State, a: Action, parseDate: DateParser): State {
    match a
    case Tick(time) => s.(now := s.now + time)
    case Begin(id, t) => if id in s.clients then s else s.(clients := s.clients[id := Start(t)])
    case Check(id) =>
      if id in s.clients && s.clients[id].Start? then
        var t := s.clients[id].t;
        var phase := if FreshIn(s.slots, t, s.now, parseDate) then Ready(t, |s.log|, Some(s.slots[t])) else Fetching(t, |s.log|);
        s.(clients := s.clients[id := phase])
      else s
    case Respond(id, held) =>
      if id in s.clients && s.clients[id].Fetching?
      then s.(clients := s.clients[id := Holding(s.clients[id].t, s.clients[id].at, held)])
      else s
    case Lose(id) =>
      if id in s.clients && s.clients[id].Fetching? then s.(clients := s.clients[id := Failed]) else s
    case Store(id) =>
      if id in s.clients && s.clients[id].Holding? then
        var c := s.clients[id];
        State(s.slots[c.t := c.held], s.log + [Put(c.t, c.held)], s.clients[id := Ready(c.t, c.at, None)], s.now)
      else s
    case Lookup(id) =>
      if id in s.clients && s.clients[id].Ready? then
        var c := s.clients[id];
        s.(clients := s.clients[id := Done(c.t, c.at, c.seen, SlotOf(s.slots, c.t))])
      else s
  }

  function Run(s: State, actions: seq<Action>, parseDate: DateParser): State {
    if actions == [] then s else Next(Run(s, actions[..|actions| - 1], parseDate), actions[|actions| - 1], parseDate)
  }

  // ---- the invariant ----------------------------------------------------------------------

  /** The registry was put, for that kind, after the client's check. */
  ghost predicate PutSince(log: seq<Put>, at: nat, t: RegistryType, held: Held) {
    exists i :: at <= i < |log| && log[i] == Put(t, held)
  }

  /** What a slot may hold for a client: what it saw fresh, or something put after it looked. */
  ghost predicate Legitimate(log: seq<Put>, at: nat, t: RegistryType, seen: Option<Held>, slot: Option<Held>) {
    slot.Some? && (seen == slot || PutSince(log, at, t, slot.value))
  }

  ghost predicate PhaseOk(s: State, c: Phase) {
    match c
    case Start(_) => true
    case Fetching(_, at) => at <= |s.log|
    case Holding(_, at, _) => at <= |s.log|
    case Ready(t, at, seen) => at <= |s.log| && Legitimate(s.log, at, t, seen, SlotOf(s.slots, t))
    case Done(t, at, seen, read) => at <= |s.log| && Legitimate(s.log, at, t, seen, read)
    case Failed => true
  }

  ghost predicate Inv(s: State) {
    forall id :: id in s.clients ==> PhaseOk(s, s.clients[id])
  }

  lemma StoreKeepsPhase(s: State, put: Put, c: Phase)
    requires PhaseOk(s, c)
    ensures PhaseOk(State(s.slots[put.t := put.held], s.log + [put], s.clients, s.now), c)
  {
    var log := s.log + [put];
    forall at: nat, t, held | PutSince(s.log, at, t, held)
      ensures PutSince(log, at, t, held)
    {
      var i :| at <= i < |s.log| && s.log[i] == Put(t, held);
      assert log[i] == Put(t, held);
    }
    if c.Ready? && c.t == put.t {
      assert log[|s.log|] == put;
      assert PutSince(log, c.at, c.t, put.held);
    }
  }

  /** Every step of every client keeps the invariant. */
  lemma StepKeepsInv(s: State, a: Action, parseDate: DateParser)
    requires Inv(s)
    ensures Inv(Next(s, a, parseDate))
  {
    if a.Store? && a.id in s.clients && s.clients[a.id].Holding? {
      var c := s.clients[a.id];
      var put := Put(c.t, c.held);
      var next := Next(s, a, parseDate);
      forall id | id in s.clients
        ensures PhaseOk(next, s.clients[id])
      {
        StoreKeepsPhase(s, put, s.clients[id]);
      }
      assert next.log[|s.log|] == put;
      assert PutSince(next.log, c.at, c.t, c.held);
    }
  }

  /** A put changes its own slot and no other; no step empties a slot. */
  lemma StepTouchesOneSlot(s: State, a: Action, parseDate: DateParser, t: RegistryType)
    ensures var next := Next(s, a, parseDate);
      && (t in s.slots ==> t in next.slots)
      && (SlotOf(next.slots, t) != SlotOf(s.slots, t) ==>
            a.Store? && a.id in s.clients && s.clients[a.id].Holding? && s.clients[a.id].t == t
            && next.slots == s.slots[t := s.clients[a.id].held])
  {
  }

  ghost predicate Initial(s: State) {
    s.log == [] && s.clients == map[]
  }

  lemma {:induction false} RunKeepsInv(s: State, actions: seq<Action>, parseDate: DateParser)
    requires Initial(s)
    ensures Inv(Run(s, actions, parseDate))
  {
    if actions != [] {
      RunKeepsInv(s, actions[..|actions| - 1], parseDate);
      StepKeepsInv(Run(s, actions[..|actions| - 1], parseDate), actions[|actions| - 1], parseDate);
    }
  }

  lemma {:induction false} SlotsNeverEmptyAgain(s: State, actions: seq<Action>, parseDate: DateParser, t: RegistryType)
    ensures t in s.slots ==> t in Run(s, actions, parseDate).slots
  {
    if actions != [] {
      SlotsNeverEmptyAgain(s, actions[..|actions| - 1], parseDate, t);
      StepTouchesOneSlot(Run(s, actions[..|actions| - 1], parseDate), actions[|actions| - 1], parseDate, t);
    }
  }

  /**
   Under any interleaving, a client that looks up after a successful `fetch_bootstrap` finds a
   registry: the one it saw fresh, or one that somebody put after it looked.
   */
  lemma LookupNeverUnavailable(s: State, actions: seq<Action>, parseDate: DateParser, id: nat)
    requires Initial(s)
    requires var end := Run(s, actions, parseDate); id in end.clients && end.clients[id].Done?
    ensures var end := Run(s, actions, parseDate); var c := end.clients[id];
      c.read.Some? && (c.seen == c.read || PutSince(end.log, c.at, c.t, c.read.value))
  {
    RunKeepsInv(s, actions, parseDate);
  }

  // ---- what "seen" means ------------------------------------------------------------------

  /** What a client past its check found fresh, if anything. */
  function SeenBy(c: Phase): Option<Held> {
    if c.Ready? || c.Done? then c.seen else None
  }

  /**
   The `k`-th action was the client's check: `at` counts the puts before it, and the client saw a
   registry exactly if the store then held an unexpired one, and then that one.
   */
  ghost predicate CheckedAt(s: State, actions: seq<Action>, parseDate: DateParser, id: nat, c: Phase, k: nat)
    requires c.Fetching? || c.Holding? || c.Ready? || c.Done?
  {
    && k < |actions| && actions[k] == Check(id)
    && var found := Run(s, actions[..k], parseDate);
      && |found.log| == c.at
      && SeenBy(c) == if FreshIn(found.slots, c.t, found.now, parseDate) then Some(found.slots[c.t]) else None
  }

  /** Any client past its check got its `at` and what it saw from that check, in every run. */
  lemma {:induction false} SeenWasFresh(s: State, actions: seq<Action>, parseDate: DateParser, id: nat)
    returns (k: nat)
    requires Initial(s)
    ensures var end := Run(s, actions, parseDate);
      id in end.clients && !end.clients[id].Start? && !end.clients[id].Failed?
      ==> CheckedAt(s, actions, parseDate, id, end.clients[id], k)
  {
    k := 0;
    if actions != [] {
      var front, a := actions[..|actions| - 1], actions[|actions| - 1];
      var before := Run(s, front, parseDate);
      k := SeenWasFresh(s, front, parseDate, id);
      if a == Check(id) && id in before.clients && before.clients[id].Start? {
        k := |front|;
      } else if k < |front| {
        assert actions[..k] == front[..k];
      }
    }
  }

  // ---- the slots and the puts -------------------------------------------------------------

  lemma PutAllAppend(start: Slots, log: seq<Put>, put: Put)
    ensures PutAll(start, log + [put]) == PutAll(start, log)[put.t := put.held]
  {
    assert (log + [put])[..|log|] == log;
  }

  lemma StepFollowsLog(start: Slots, s: State, a: Action, parseDate: DateParser)
    requires s.slots == PutAll(start, s.log)
    ensures Next(s, a, parseDate).slots == PutAll(start, Next(s, a, parseDate).log)
  {
    if a.Store? && a.id in s.clients && s.clients[a.id].Holding? {
      PutAllAppend(start, s.log, Put(s.clients[a.id].t, s.clients[a.id].held));
    }
  }

  /** The slots are always what the log of puts makes of the initial slots, for every run. */
  lemma {:induction false} SlotsFollowLog(s: State, actions: seq<Action>, parseDate: DateParser)
    requires Initial(s)
    ensures Run(s, actions, parseDate).slots == PutAll(s.slots, Run(s, actions, parseDate).log)
  {
    if actions != [] {
      SlotsFollowLog(s, actions[..|actions| - 1], parseDate);
      StepFollowsLog(s.slots, Run(s, actions[..|actions| - 1], parseDate), actions[|actions| - 1], parseDate);
    }
  }

  /** As time passes registries expire: a client that looks later fetches exactly from the deadline on. */
  lemma LaterCheckFetchesExactly(s: State, time: nat, parseDate: DateParser, id: nat)
    requires id in s.clients && s.clients[id].Start?
    ensures var t, end := s.clients[id].t, Run(s, [Tick(time), Check(id)], parseDate);
      && id in end.clients
      && (if t in s.slots && s.now + time < Deadline(s.slots[t].http, SECONDS_IN_WEEK, parseDate)
          then end.clients[id].Ready? && end.clients[id].seen == Some(s.slots[t])
          else end.clients[id].Fetching?)
  {
    var t := s.clients[id].t;
    assert [Tick(time), Check(id)][..1] == [Tick(time)] && [Tick(time)][..0] == [];
    var later := Run(s, [Tick(time)], parseDate);
    assert later == Next(Run(s, [], parseDate), Tick(time), parseDate);
    if t in s.slots {
      ExpiryHasOneDeadline(s.slots[t].http, SECONDS_IN_WEEK, s.now + time, parseDate);
    }
  }

  // ---- that clients get through -----------------------------------------------------------

  predicate IsStepOf(a: Action, id: nat) {
    !a.Tick? && a.id == id
  }

  ghost predicate OnlyOthers(actions: seq<Action>, id: nat) {
    forall a :: a in actions ==> !IsStepOf(a, id)
  }

  ghost predicate SamePhase(s: State, t: State, id: nat) {
    (id in s.clients <==> id in t.clients) && (id in s.clients ==> t.clients[id] == s.clients[id])
  }

  /** The steps of other clients, and the passing of time, leave a client where it is. */
  lemma {:induction false} OthersLeaveAlone(s: State, actions: seq<Action>, parseDate: DateParser, id: nat)
    requires OnlyOthers(actions, id)
    ensures SamePhase(s, Run(s, actions, parseDate), id)
  {
    if actions != [] {
      var front, last := actions[..|actions| - 1], actions[|actions| - 1];
      assert last in actions && forall a :: a in front ==> a in actions;
      OthersLeaveAlone(s, front, parseDate, id);
    }
  }

  lemma RunThenStep(s: State, actions: seq<Action>, a: Action, parseDate: DateParser)
    ensures Run(s, actions + [a], parseDate) == Next(Run(s, actions, parseDate), a, parseDate)
  {
    assert (actions + [a])[..|actions|] == actions;
  }

  /** After steps of others, the next step of a client finds it as it was. */
  lemma OthersThenStep(s: State, others: seq<Action>, a: Action, parseDate: DateParser)
    requires !a.Tick? && OnlyOthers(others, a.id)
    ensures SamePhase(s, Run(s, others, parseDate), a.id)
    ensures Run(s, others + [a], parseDate) == Next(Run(s, others, parseDate), a, parseDate)
  {
    OthersLeaveAlone(s, others, parseDate, a.id);
    RunThenStep(s, others, a, parseDate);
  }

  /** A new client begins, looks, gets its answer, puts it, and looks a name up, others acting in between. */
  function Through(s: State, parseDate: DateParser, id: nat, t: RegistryType, held: Held, between: seq<seq<Action>>): State
    requires |between| == 5
  {
    var begun := Run(s, between[0] + [Begin(id, t)], parseDate);
    var checked := Run(begun, between[1] + [Check(id)], parseDate);
    var answered := Run(checked, between[2] + [Respond(id, held)], parseDate);
    var stored := Run(answered, between[3] + [Store(id)], parseDate);
    Run(stored, between[4] + [Lookup(id)], parseDate)
  }

  /** A client that has taken k of the four steps after its begin; a ready one has only its lookup to do. */
  ghost predicate IsAt(s: State, id: nat, t: RegistryType, k: nat) {
    id in s.clients
    && match s.clients[id]
       case Start(u) => u == t && k == 0
       case Fetching(u, _) => u == t && k == 1
       case Holding(u, _, _) => u == t && k == 2
       case Ready(u, _, _) => u == t && 1 <= k <= 3
       case Done(u, _, _, _) => u == t && k == 4
       case Failed => false
  }

  function StepAt(id: nat, held: Held, k: nat): Action {
    if k == 0 then Check(id) else if k == 1 then Respond(id, held) else if k == 2 then Store(id) else Lookup(id)
  }

  lemma StepAdvances(
    s: State, others: seq<Action>, parseDate: DateParser, id: nat, t: RegistryType, held: Held, k: nat)
    requires k < 4 && IsAt(s, id, t, k) && OnlyOthers(others, id)
    ensures IsAt(Run(s, others + [StepAt(id, held, k)], parseDate), id, t, k + 1)
  {
    OthersThenStep(s, others, StepAt(id, held, k), parseDate);
  }

  /**
   Whatever other clients do in between, a client whose request is answered gets through: it ends with its
   lookup done, whether it found the registry fresh or had to fetch it.
   */
  lemma ClientGetsThrough(
    s: State, parseDate: DateParser, id: nat, t: RegistryType, held: Held, between: seq<seq<Action>>)
    requires |between| == 5 && id !in s.clients
    requires forall others :: others in between ==> OnlyOthers(others, id)
    ensures var end := Through(s, parseDate, id, t, held, between);
      id in end.clients && end.clients[id].Done? && end.clients[id].t == t
  {
    assert between[0] in between && between[1] in between && between[2] in between && between[3] in between
      && between[4] in between;
    OthersThenStep(s, between[0], Begin(id, t), parseDate);
    var begun := Run(s, between[0] + [Begin(id, t)], parseDate);
    StepAdvances(begun, between[1], parseDate, id, t, held, 0);
    var checked := Run(begun, between[1] + [Check(id)], parseDate);
    StepAdvances(checked, between[2], parseDate, id, t, held, 1);
    var answered := Run(checked, between[2] + [Respond(id, held)], parseDate);
    StepAdvances(answered, between[3], parseDate, id, t, held, 2);
    var stored := Run(answered, between[3] + [Store(id)], parseDate);
    StepAdvances(stored, between[4], parseDate, id, t, held, 3);
  }
}
