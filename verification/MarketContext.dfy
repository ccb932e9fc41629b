/**
 * The market-context service: readers are answered at once from a shared snapshot while at most
 * one background thread refreshes it. Every section under the lock is one atomic step; any number
 * of readers and refreshers interleave freely.
 */
module MarketContext {
  import opened Common

  /** Where a snapshot came from, with a number standing for its contents. */
  datatype Snapshot = Stored(v: nat) | Fresh(v: nat) | Blocked

  /** The module's globals; the clock is monotonic. */
  datatype Shared = Shared(snapshot: Option<Snapshot>, builtAt: int, refreshing: bool, storeChecked: bool)

  const START := Shared(None, 0, false, false)

  predicate IsStale(s: Shared, now: int, maxAge: int) {
    s.snapshot.None? || now - s.builtAt >= maxAge
  }

  predicate Starts(s: Shared, now: int, maxAge: int) {
    IsStale(s, now, maxAge) && !s.refreshing
  }

  function FillSlot(s: Shared, snapshot: Snapshot, now: int): Shared {
    if s.snapshot.None? then s.(snapshot := Some(snapshot), builtAt := now) else s
  }

  // ---------------------------------------------------------------- the sections under the lock

  class Service {
    const maxAge: int
    var snapshot: Option<Snapshot>
    var builtAt: int
    var refreshing: bool
    var storeChecked: bool

    function State(): Shared
      reads this
    {
      Shared(snapshot, builtAt, refreshing, storeChecked)
    }

    constructor (maxAge: int)
      ensures this.maxAge == maxAge && State() == START
    {
      this.maxAge := maxAge;
      snapshot, builtAt, refreshing, storeChecked := None, 0, false, false;
    }

    /** The reader's section; None is answered with the LOADING status. */
    method GetSnapshot(now: int) returns (current: Option<Snapshot>, start: bool)
      modifies this`refreshing
      ensures current == old(snapshot) && start == Starts(old(State()), now, maxAge)
      ensures start <==> (old(snapshot) == None || old(builtAt) + maxAge <= now) && !old(refreshing)
      ensures State() == old(State()).(refreshing := old(refreshing) || start)
    {
      current := snapshot;
      var stale := current == None || now - builtAt >= maxAge;
      start := stale && !refreshing;
      if start {
        refreshing := true;
      }
    }

    method TakeStoreTurn() returns (shouldLoad: bool)
      modifies this`storeChecked
      ensures shouldLoad == !old(storeChecked) && State() == old(State()).(storeChecked := true)
    {
      shouldLoad := !storeChecked;
      storeChecked := true;
    }

    method UseStored(v: nat, now: int)
      modifies this
      ensures State() == FillSlot(old(State()), Stored(v), now)
    {
      if snapshot == None {
        snapshot := Some(Stored(v));
        builtAt := now;
      }
    }

    method Install(v: nat, now: int)
      modifies this
      ensures State() == old(State()).(snapshot := Some(Fresh(v)), builtAt := now)
    {
      snapshot := Some(Fresh(v));
      builtAt := now;
    }

    method Fail(now: int)
      modifies this
      ensures State() == FillSlot(old(State()), Blocked, now)
    {
      if snapshot == None {
        snapshot := Some(Blocked);
        builtAt := now;
      }
    }

    method Finish()
      modifies this`refreshing
      ensures State() == old(State()).(refreshing := false)
    {
      refreshing := false;
    }
  }

  // ---------------------------------------------------------------- interleavings

  /** Where a refresher stands between two lock sections. */
  datatype Phase = Begin | Load | UseStored(v: nat) | Build | Install(v: nat) | Failed | Finish | Done

  /** What the store, the provider fan-out and the clock do for a step of a thread. */
  datatype World = World(loaded: Option<nat>, loadRaised: bool, built: Option<nat>, now: int)

  datatype System = System(shared: Shared, threads: seq<Phase>)

  datatype Event = Get(now: int) | Thread(i: nat, world: World)

  /** A section of one refresher; None stands for an exception of the build or of persisting it. */
  function Advance(s: Shared, phase: Phase, w: World): (Shared, Phase) {
    match phase
    case Begin => (s.(storeChecked := true), if s.storeChecked then Build else Load)
    case Load => (s, if w.loadRaised then Failed else if w.loaded.Some? then UseStored(w.loaded.value) else Build)
    case UseStored(v) => (FillSlot(s, Stored(v), w.now), Build)
    case Build => (s, if w.built.Some? then Install(w.built.value) else Failed)
    case Install(v) => (s.(snapshot := Some(Fresh(v)), builtAt := w.now), Finish)
    case Failed => (FillSlot(s, Blocked, w.now), Finish)
    case Finish => (s.(refreshing := false), Done)
    case Done => (s, Done)
  }

  function Step(sys: System, e: Event, maxAge: int): System {
    match e
    case Get(now) =>
      if Starts(sys.shared, now, maxAge) then System(sys.shared.(refreshing := true), sys.threads + [Begin]) else sys
    case Thread(i, w) =>
      if i < |sys.threads| then
        var (shared, phase) := Advance(sys.shared, sys.threads[i], w);
        System(shared, sys.threads[i := phase])
      else sys
  }

  function Run(events: seq<Event>, maxAge: int): System {
    if events == [] then System(START, [])
    else Step(Run(events[..|events| - 1], maxAge), events[|events| - 1], maxAge)
  }

  predicate InFlight(sys: System, i: nat) {
    i < |sys.threads| && sys.threads[i] != Done
  }

  /** One refresher at most, and the flag is up exactly while there is one. */
  ghost predicate SingleFlight(sys: System) {
    && (forall i: nat, j: nat | InFlight(sys, i) && InFlight(sys, j) :: i == j)
    && (sys.shared.refreshing <==> exists i: nat :: InFlight(sys, i))
  }

  lemma StepKeepsSingleFlight(sys: System, e: Event, maxAge: int)
    requires SingleFlight(sys)
    ensures SingleFlight(Step(sys, e, maxAge))
  {
    var next := Step(sys, e, maxAge);
    match e
    case Get(now) =>
      if Starts(sys.shared, now, maxAge) {
        assert InFlight(next, |sys.threads|);
        forall i: nat | InFlight(next, i)
          ensures i == |sys.threads|
        {
          if i < |sys.threads| {
            assert InFlight(sys, i);
            assert false;
          }
        }
      }
    case Thread(i, w) =>
      forall j: nat | InFlight(next, j)
        ensures InFlight(sys, j)
      {
      }
      if i < |sys.threads| {
        if InFlight(sys, i) {
          assert InFlight(next, i) <==> sys.threads[i] != Finish;
        } else {
          assert next == sys;
        }
      }
  }

  lemma {:induction false} AtMostOneRefresh(events: seq<Event>, maxAge: int)
    ensures SingleFlight(Run(events, maxAge))
  {
    hide Step;
    if events != [] {
      AtMostOneRefresh(events[..|events| - 1], maxAge);
      StepKeepsSingleFlight(Run(events[..|events| - 1], maxAge), events[|events| - 1], maxAge);
    }
  }

  /** A reader starts a refresh exactly when the snapshot is absent or too old and no refresher is under way. */
  lemma ReaderStartsExactlyWhen(events: seq<Event>, maxAge: int, now: int)
    ensures |Step(Run(events, maxAge), Get(now), maxAge).threads| > |Run(events, maxAge).threads|
       <==> && (Run(events, maxAge).shared.snapshot.None? || Run(events, maxAge).shared.builtAt + maxAge <= now)
            && !exists i: nat :: InFlight(Run(events, maxAge), i)
  {
    AtMostOneRefresh(events, maxAge);
  }

  // ---------------------------------------------------------------- what happens to the snapshot

  /** The event installs a fresh snapshot. */
  predicate Installs(sys: System, e: Event, v: nat) {
    e.Thread? && e.i < |sys.threads| && sys.threads[e.i] == Install(v)
  }

  /** Once there is a snapshot only a fresh one replaces it: no failure, no stored one, and never nothing. */
  lemma OnlyFreshReplaces(sys: System, e: Event, maxAge: int)
    requires sys.shared.snapshot.Some?
    ensures var after := Step(sys, e, maxAge).shared;
            && after.snapshot.Some?
            && (if exists v: nat :: Installs(sys, e, v)
                then after.snapshot.value.Fresh? && Installs(sys, e, after.snapshot.value.v)
                     && after.builtAt == e.world.now
                else after.snapshot == sys.shared.snapshot && after.builtAt == sys.shared.builtAt)
  {
    if v: nat :| Installs(sys, e, v) {
    } else {
      assert e.Thread? && e.i < |sys.threads| && sys.threads[e.i].Install? ==> Installs(sys, e, sys.threads[e.i].v);
    }
  }

  lemma {:induction false} FreshStaysFresh(events: seq<Event>, maxAge: int, k: nat)
    requires k <= |events|
    ensures var early, late := Run(events[..k], maxAge).shared.snapshot, Run(events, maxAge).shared.snapshot;
            && (early.Some? ==> late.Some?)
            && (early.Some? && early.value.Fresh? ==> late.value.Fresh?)
    decreases |events|
  {
    hide Step;
    if k == |events| {
      assert events[..k] == events;
    } else {
      var before := events[..|events| - 1];
      FreshStaysFresh(before, maxAge, k);
      assert before[..k] == events[..k];
      if Run(before, maxAge).shared.snapshot.Some? {
        OnlyFreshReplaces(Run(before, maxAge), events[|events| - 1], maxAge);
      }
    }
  }

  // ---------------------------------------------------------------- the store

  /** Event k sends a refresher to the store. */
  predicate GoesToStore(events: seq<Event>, maxAge: int, k: nat) {
    && k < |events|
    && var sys := Run(events[..k], maxAge);
       events[k].Thread? && events[k].i < |sys.threads| && sys.threads[events[k].i] == Begin && !sys.shared.storeChecked
  }

  lemma {:induction false} CheckedStaysChecked(events: seq<Event>, maxAge: int, k: nat, m: nat)
    requires k <= m <= |events| && Run(events[..k], maxAge).shared.storeChecked
    ensures Run(events[..m], maxAge).shared.storeChecked
  {
    if k < m {
      CheckedStaysChecked(events, maxAge, k, m - 1);
      assert events[..m][..m - 1] == events[..m - 1];
    }
  }

  lemma StoreIsCheckedAfter(events: seq<Event>, maxAge: int, k: nat)
    requires GoesToStore(events, maxAge, k)
    ensures Run(events[..k + 1], maxAge).shared.storeChecked
  {
    assert events[..k + 1][..k] == events[..k];
  }

  /** However many refreshers run, the store is consulted at most once. */
  lemma StoreIsConsultedOnce(events: seq<Event>, maxAge: int, k: nat, m: nat)
    requires GoesToStore(events, maxAge, k) && GoesToStore(events, maxAge, m)
    ensures k == m
  {
    StoreIsCheckedAfter(events, maxAge, k);
    StoreIsCheckedAfter(events, maxAge, m);
    if k < m {
      CheckedStaysChecked(events, maxAge, k + 1, m);
    }
    if m < k {
      CheckedStaysChecked(events, maxAge, m + 1, k);
    }
  }

  /** And the first refresher does go there. */
  lemma {:induction false} SomeoneWentToTheStore(events: seq<Event>, maxAge: int)
    ensures Run(events, maxAge).shared.storeChecked <==> exists k: nat :: GoesToStore(events, maxAge, k)
  {
    if events != [] {
      var before, n := events[..|events| - 1], |events| - 1;
      SomeoneWentToTheStore(before, maxAge);
      forall k: nat
        ensures k != n ==> (GoesToStore(events, maxAge, k) <==> GoesToStore(before, maxAge, k))
      {
        if k < n {
          assert before[..k] == events[..k];
        }
      }
      assert events[..n] == before;
      assert Run(events, maxAge).shared.storeChecked
        <==> Run(before, maxAge).shared.storeChecked || GoesToStore(events, maxAge, n);
      if k: nat :| GoesToStore(before, maxAge, k) {
        assert GoesToStore(events, maxAge, k);
      }
    }
  }

  // ---------------------------------------------------------------- provenance

  predicate LoadedAt(events: seq<Event>, k: nat, v: nat) {
    k < |events| && events[k].Thread? && events[k].world.loaded == Some(v) && !events[k].world.loadRaised
  }

  predicate BuiltAt(events: seq<Event>, k: nat, v: nat) {
    k < |events| && events[k].Thread? && events[k].world.built == Some(v)
  }

  ghost predicate Loaded(events: seq<Event>, v: nat) {
    exists k: nat :: LoadedAt(events, k, v)
  }

  ghost predicate Built(events: seq<Event>, v: nat) {
    exists k: nat :: BuiltAt(events, k, v)
  }

  lemma Longer(events: seq<Event>, e: Event)
    ensures forall v: nat | Loaded(events, v) :: Loaded(events + [e], v)
    ensures forall v: nat | Built(events, v) :: Built(events + [e], v)
    ensures forall v: nat | e.Thread? && e.world.loaded == Some(v) && !e.world.loadRaised :: Loaded(events + [e], v)
    ensures forall v: nat | e.Thread? && e.world.built == Some(v) :: Built(events + [e], v)
  {
    var all := events + [e];
    forall v: nat | Loaded(events, v)
      ensures Loaded(all, v)
    {
      var k: nat :| LoadedAt(events, k, v);
      assert LoadedAt(all, k, v);
    }
    forall v: nat | Built(events, v)
      ensures Built(all, v)
    {
      var k: nat :| BuiltAt(events, k, v);
      assert BuiltAt(all, k, v);
    }
    forall v: nat | e.Thread? && e.world.loaded == Some(v) && !e.world.loadRaised
      ensures Loaded(all, v)
    {
      assert LoadedAt(all, |events|, v);
    }
    forall v: nat | e.Thread? && e.world.built == Some(v)
      ensures Built(all, v)
    {
      assert BuiltAt(all, |events|, v);
    }
  }

  ghost predicate Genuine(sys: System, events: seq<Event>) {
    && (forall i | 0 <= i < |sys.threads| ::
          match sys.threads[i]
          case UseStored(v) => Loaded(events, v)
          case Install(v) => Built(events, v)
          case _ => true)
    && (sys.shared.snapshot.Some? ==>
          match sys.shared.snapshot.value
          case Stored(v) => Loaded(events, v)
          case Fresh(v) => Built(events, v)
          case Blocked => true)
  }

  /**
   * Every snapshot that was ever served was loaded from the store, built by the providers, or the
   * explicit BLOCKED status.
   */
  lemma {:induction false} SnapshotsAreGenuine(events: seq<Event>, maxAge: int)
    ensures Genuine(Run(events, maxAge), events)
  {
    if events != [] {
      var before, e := events[..|events| - 1], events[|events| - 1];
      assert events == before + [e];
      SnapshotsAreGenuine(before, maxAge);
      Longer(before, e);
    }
  }

  // ---------------------------------------------------------------- every refresh ends

  function Rank(phase: Phase): nat {
    match phase
    case Begin => 6
    case Load => 5
    case UseStored(_) => 4
    case Build => 3
    case Install(_) => 2
    case Failed => 2
    case Finish => 1
    case Done => 0
  }

  /** Whatever readers and other threads do in between, from any state. */
  function After(sys: System, events: seq<Event>, maxAge: int): System
    decreases |events|
  {
    if events == [] then sys else After(Step(sys, events[0], maxAge), events[1..], maxAge)
  }

  /** How many of the events are steps of thread i. */
  function OwnSteps(events: seq<Event>, i: nat): nat {
    if events == [] then 0 else (if events[0].Thread? && events[0].i == i then 1 else 0) + OwnSteps(events[1..], i)
  }

  /** The refresh is over: flag down, and something to serve. */
  predicate Ended(sys: System, i: nat) {
    i < |sys.threads| && sys.threads[i] == Done && !sys.shared.refreshing && sys.shared.snapshot.Some?
  }

  lemma StepLowersRank(sys: System, e: Event, maxAge: int, i: nat)
    requires InFlight(sys, i)
    ensures var next := Step(sys, e, maxAge);
            && i < |next.threads|
            && Rank(next.threads[i]) <= Rank(sys.threads[i])
            && (e.Thread? && e.i == i ==> Rank(next.threads[i]) < Rank(sys.threads[i]))
            && (next.threads[i] == Done ==> !next.shared.refreshing)
  {
  }

  /** A refresher about to lower the flag leaves a snapshot behind. */
  predicate FinishesServed(sys: System) {
    forall i: nat | i < |sys.threads| && sys.threads[i] == Finish :: sys.shared.snapshot.Some?
  }

  lemma StepKeepsServed(sys: System, e: Event, maxAge: int)
    requires FinishesServed(sys)
    ensures FinishesServed(Step(sys, e, maxAge))
    ensures sys.shared.snapshot.Some? ==> Step(sys, e, maxAge).shared.snapshot.Some?
  {
  }

  lemma {:induction false} RunFinishesServed(events: seq<Event>, maxAge: int)
    ensures FinishesServed(Run(events, maxAge))
  {
    hide Step, FinishesServed;
    if events == [] {
      NothingRuns(maxAge);
    } else {
      RunFinishesServed(events[..|events| - 1], maxAge);
      StepKeepsServed(Run(events[..|events| - 1], maxAge), events[|events| - 1], maxAge);
    }
  }

  lemma NothingRuns(maxAge: int)
    ensures FinishesServed(Run([], maxAge))
  {
  }

  /** The first of the thread's own steps that ends it, at the latest the Rank-th, leaves the refresh over. */
  lemma {:induction false} RefreshEnds(sys: System, i: nat, events: seq<Event>, maxAge: int) returns (n: nat)
    requires SingleFlight(sys) && FinishesServed(sys) && InFlight(sys, i)
    requires OwnSteps(events, i) >= Rank(sys.threads[i])
    ensures 0 < n <= |events| && Ended(After(sys, events[..n], maxAge), i)
    decreases |events|
  {
    hide SingleFlight, FinishesServed;
    var e := events[0];
    var next := Step(sys, e, maxAge);
    StepLowersRank(sys, e, maxAge, i);
    StepKeepsSingleFlight(sys, e, maxAge);
    StepKeepsServed(sys, e, maxAge);
    if next.threads[i] == Done {
      n := 1;
      FinishedServed(sys, e, maxAge, i);
      assert events[..1][1..] == [];
      assert After(sys, events[..1], maxAge) == After(next, [], maxAge);
    } else {
      var m := RefreshEnds(next, i, events[1..], maxAge);
      n := m + 1;
      assert events[..n][1..] == events[1..][..m];
    }
  }

  lemma FinishedServed(sys: System, e: Event, maxAge: int, i: nat)
    requires FinishesServed(sys) && InFlight(sys, i)
    requires Step(sys, e, maxAge).threads[i] == Done
    ensures Ended(Step(sys, e, maxAge), i)
  {
    assert sys.threads[i] == Finish;
  }

  lemma {:induction false} RunContinues(events: seq<Event>, later: seq<Event>, maxAge: int)
    ensures Run(events + later, maxAge) == After(Run(events, maxAge), later, maxAge)
    decreases |later|
  {
    hide Step;
    if later == [] {
      assert events + later == events;
    } else {
      RunContinues(events + [later[0]], later[1..], maxAge);
      assert events + [later[0]] + later[1..] == events + later;
      assert (events + [later[0]])[..|events|] == events;
    }
  }

  /** After n of the later events the refresher is done, the flag is down and there is a snapshot. */
  predicate EndedBy(events: seq<Event>, later: seq<Event>, n: nat, i: nat, maxAge: int) {
    n <= |later| && Ended(Run(events + later[..n], maxAge), i)
  }

  lemma AtMostSix(phase: Phase)
    ensures Rank(phase) <= 6
  {
  }

  /**
   * Every refresh ends. Once a refresher of a reachable state has taken six steps of its own,
   * whatever readers and the world did in between, some moment has passed at which it was done,
   * the flag was down and there was a snapshot to serve.
   */
  lemma EveryRefreshEnds(events: seq<Event>, i: nat, later: seq<Event>, maxAge: int)
    requires InFlight(Run(events, maxAge), i) && OwnSteps(later, i) >= 6
    ensures exists n: nat :: EndedBy(events, later, n, i, maxAge)
  {
    hide Step, Run, After, SingleFlight, FinishesServed, Ended, OwnSteps, Rank;
    var sys := Run(events, maxAge);
    AtMostOneRefresh(events, maxAge);
    RunFinishesServed(events, maxAge);
    AtMostSix(sys.threads[i]);
    var n := RefreshEnds(sys, i, later, maxAge);
    RunContinues(events, later[..n], maxAge);
    assert EndedBy(events, later, n, i, maxAge);
  }

  // ---------------------------------------------------------------- after a failure

  /** A failed refresh of an existing snapshot does not renew its age: the next reader tries again at once. */
  lemma FailureIsRetriedAtOnce(sys: System, i: nat, w: World, u: World, now: int, maxAge: int)
    requires SingleFlight(sys) && i < |sys.threads| && sys.threads[i] == Failed
    requires sys.shared.snapshot.Some? && IsStale(sys.shared, now, maxAge)
    ensures var after := Step(Step(sys, Thread(i, w), maxAge), Thread(i, u), maxAge);
            after.shared.snapshot == sys.shared.snapshot && |Step(after, Get(now), maxAge).threads| == |sys.threads| + 1
  {
  }

  /** With nothing to serve, a failure shows as BLOCKED and readers wait the full age before the next try. */
  lemma BlockedWaitsTheFullAge(sys: System, i: nat, w: World, u: World, now: int, maxAge: int)
    requires SingleFlight(sys) && i < |sys.threads| && sys.threads[i] == Failed && sys.shared.snapshot.None?
    ensures var after := Step(Step(sys, Thread(i, w), maxAge), Thread(i, u), maxAge);
            && after.shared.snapshot == Some(Blocked)
            && (|Step(after, Get(now), maxAge).threads| > |sys.threads| <==> now - w.now >= maxAge)
  {
  }

  // ---------------------------------------------------------------- what a refresh leaves

  /** Six steps of one refresher with nothing in between, in one world. */
  function Alone(sys: System, i: nat, w: World, steps: nat, maxAge: int): System {
    if steps == 0 then sys else Step(Alone(sys, i, w, steps - 1, maxAge), Thread(i, w), maxAge)
  }

  /**
   * What an undisturbed refresh serves: the fresh snapshot if the store did not raise and the build
   * succeeds; else what was there; else what the store held, for the first refresher; else BLOCKED.
   */
  function Served(s: Shared, w: World): Snapshot {
    var asked := !s.storeChecked;
    if w.built.Some? && !(asked && w.loadRaised) then Fresh(w.built.value)
    else if s.snapshot.Some? then s.snapshot.value
    else if asked && !w.loadRaised && w.loaded.Some? then Stored(w.loaded.value)
    else Blocked
  }

  /** An undisturbed refresh ends with that, and renews the age exactly if it put something there. */
  lemma RefreshLeaves(sys: System, i: nat, w: World, maxAge: int)
    requires i < |sys.threads| && sys.threads[i] == Begin
    ensures var after := Alone(sys, i, w, 6, maxAge);
            && after.threads == sys.threads[i := Done]
            && !after.shared.refreshing && after.shared.storeChecked
            && after.shared.snapshot == Some(Served(sys.shared, w))
            && after.shared.builtAt == if sys.shared.snapshot.None? || Renews(sys.shared, w) then w.now
                                       else sys.shared.builtAt
  {
    assert Alone(sys, i, w, 0, maxAge) == sys;
    var a := Alone(sys, i, w, 1, maxAge);
    var b := Alone(sys, i, w, 2, maxAge);
    var c := Alone(sys, i, w, 3, maxAge);
    var d := Alone(sys, i, w, 4, maxAge);
    assert a == Step(sys, Thread(i, w), maxAge) && |a.threads| == |sys.threads|;
    assert b == Step(a, Thread(i, w), maxAge) && |b.threads| == |sys.threads|;
    assert c == Step(b, Thread(i, w), maxAge) && |c.threads| == |sys.threads|;
    assert d == Step(c, Thread(i, w), maxAge);
    var e := Alone(sys, i, w, 5, maxAge);
    assert e == Step(d, Thread(i, w), maxAge);
  }

  predicate Renews(s: Shared, w: World) {
    w.built.Some? && (s.storeChecked || !w.loadRaised)
  }
}
