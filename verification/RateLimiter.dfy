/**
 * The sliding-window limiter of rate_limit.py. Clock readings are parameters. The lock makes
 * every public method atomic, so a run is a sequence of calls.
 */
module RateLimiter {
  import opened Common
  import Collections

  datatype Config = Config(limit: int, window: real, maxKeys: int)

  /** Timestamps recorded per key, oldest first. */
  type Events = map<string, seq<real>>

  datatype LimiterError = LimitMustBePositive

  // ---------------------------------------------------------------- net effect of each call

  /** What `_prune` leaves: timestamps are dropped from the front while they have expired. */
  function Pruned(times: seq<real>, cutoff: real): seq<real> {
    if times != [] && times[0] <= cutoff then Pruned(times[1..], cutoff) else times
  }

  predicate Expired(times: seq<real>, cutoff: real) {
    times == [] || times[|times| - 1] <= cutoff
  }

  /** What `_evict_expired` leaves. */
  function Evicted(events: Events, cutoff: real): Events {
    map k | k in events && !Expired(events[k], cutoff) :: events[k]
  }

  function Get(events: Events, key: string): seq<real> {
    if key in events then events[key] else []
  }

  /** The map after making room, and whether the call must be refused for lack of room. */
  function MadeRoom(c: Config, events: Events, key: string, cutoff: real): (Events, bool) {
    if key !in events && |events| >= c.maxKeys then
      (Evicted(events, cutoff), |Evicted(events, cutoff)| >= c.maxKeys)
    else (events, false)
  }

  function AllowStep(c: Config, events: Events, key: string, now: real): (Events, bool) {
    var (room, full) := MadeRoom(c, events, key, now - c.window);
    if full then (room, false)
    else
      var times := Pruned(Get(room, key), now - c.window);
      if |times| >= c.limit then (room[key := times], false) else (room[key := times + [now]], true)
  }

  /** `remaining` prunes, and creates an entry for a key it has never seen. */
  function RemainingStep(c: Config, events: Events, key: string, now: real): (Events, int) {
    var times := Pruned(Get(events, key), now - c.window);
    (events[key := times], if c.limit > |times| then c.limit - |times| else 0)
  }

  // ---------------------------------------------------------------- the mutable limiter

  class SlidingWindowLimiter {
    const config: Config
    var events: Events

    constructor (c: Config)
      requires c.limit >= 1
      ensures config == c && events == map[]
    {
      config := c;
      events := map[];
    }

    static method Create(c: Config) returns (r: Result<SlidingWindowLimiter, LimiterError>)
      ensures r.Ok? <==> c.limit >= 1
      ensures r.Ok? ==> fresh(r.value) && r.value.config == c && r.value.events == map[]
    {
      if c.limit < 1 {
        return Err(LimitMustBePositive);
      }
      var limiter := new SlidingWindowLimiter(c);
      return Ok(limiter);
    }

    method Prune(key: string, now: real)
      modifies this
      ensures events == old(events)[key := Pruned(Get(old(events), key), now - config.window)]
    {
      if key !in events {
        events := events[key := []];
      }
      var cutoff := now - config.window;
      while events[key] != [] && events[key][0] <= cutoff
        invariant key in events
        invariant events == old(events)[key := events[key]]
        invariant Pruned(events[key], cutoff) == Pruned(Get(old(events), key), cutoff)
        decreases |events[key]|
      {
        events := events[key := events[key][1..]];
      }
    }

    method EvictExpired(now: real)
      modifies this
      ensures events == Evicted(old(events), now - config.window)
    {
      var cutoff := now - config.window;
      var doomed := set k | k in events && Expired(events[k], cutoff);
      while doomed != {}
        invariant doomed <= events.Keys
        invariant forall k :: k in doomed ==> Expired(events[k], cutoff)
        invariant forall k :: k in events ==> k in old(events) && events[k] == old(events)[k]
        invariant forall k :: k in old(events) && k !in events ==> Expired(old(events)[k], cutoff)
        invariant forall k :: k in events && k !in doomed ==> !Expired(events[k], cutoff)
        decreases doomed
      {
        var k :| k in doomed;
        events := events - {k};
        doomed := doomed - {k};
      }
    }

    method Allow(key: string, now: real) returns (ok: bool)
      modifies this
      ensures (events, ok) == AllowStep(config, old(events), key, now)
    {
      if key !in events && |events| >= config.maxKeys {
        EvictExpired(now);
        if |events| >= config.maxKeys {
          return false;
        }
      }
      ghost var room := events;
      Prune(key, now);
      if |events[key]| >= config.limit {
        return false;
      }
      events := events[key := events[key] + [now]];
      assert events == room[key := Pruned(Get(room, key), now - config.window) + [now]];
      return true;
    }

    method Remaining(key: string, now: real) returns (n: int)
      modifies this
      ensures (events, n) == RemainingStep(config, old(events), key, now)
    {
      Prune(key, now);
      n := if config.limit - |events[key]| > 0 then config.limit - |events[key]| else 0;
    }

    method Reset(key: string)
      modifies this
      ensures events == old(events) - {key}
    {
      events := events - {key};
    }
  }

  // ---------------------------------------------------------------- runs against the full history

  datatype Call = Allow(key: string, now: real) | Remaining(key: string, now: real) | Reset(key: string)

  /** The limiter's map, every accepted timestamp since the key's last reset, and the last clock reading. */
  datatype State = State(events: Events, history: Events, clock: real)

  predicate OnTime(s: State, call: Call) {
    call.Reset? || call.now >= s.clock
  }

  function Apply(c: Config, s: State, call: Call): State {
    match call
    case Allow(key, now) =>
      var (events, ok) := AllowStep(c, s.events, key, now);
      State(events, if ok then s.history[key := Get(s.history, key) + [now]] else s.history, now)
    case Remaining(key, now) =>
      State(RemainingStep(c, s.events, key, now).0, s.history, now)
    case Reset(key) =>
      State(s.events - {key}, s.history - {key}, s.clock)
  }

  function Run(c: Config, start: real, calls: seq<Call>): State {
    if calls == [] then State(map[], map[], start)
    else Apply(c, Run(c, start, calls[..|calls| - 1]), calls[|calls| - 1])
  }

  /** The clock never runs backwards between calls. */
  ghost predicate Clocked(c: Config, start: real, calls: seq<Call>) {
    forall i :: 0 <= i < |calls| ==> OnTime(Run(c, start, calls[..i]), calls[i])
  }

  /** How many timestamps lie in (from, to]. */
  function CountBetween(times: seq<real>, from: real, to: real): nat {
    if times == [] then 0
    else (if from < times[0] <= to then 1 else 0) + CountBetween(times[1..], from, to)
  }

  /** The rule the limiter promises: fewer than `limit` accepted events in the window ending now. */
  predicate UnderLimit(c: Config, history: Events, key: string, now: real) {
    CountBetween(Get(history, key), now - c.window, now) < c.limit
  }

  /** The keys with an accepted event inside the window. */
  function LiveKeys(history: Events, cutoff: real): set<string> {
    set k | k in history && !Expired(history[k], cutoff)
  }

  ghost predicate Ascending(times: seq<real>) {
    forall i, j :: 0 <= i < j < |times| ==> times[i] <= times[j]
  }

  /** kept is the end of all, and everything before it has expired. */
  ghost predicate KeptTail(kept: seq<real>, all: seq<real>, cutoff: real) {
    && |kept| <= |all|
    && all[|all| - |kept|..] == kept
    && forall i :: 0 <= i < |all| - |kept| ==> all[i] <= cutoff
  }

  /** limit + 1 consecutive accepted events never fit into one window. */
  ghost predicate Spaced(c: Config, times: seq<real>) {
    forall i, j :: 0 <= i <= j < |times| && j == i + c.limit ==> times[i] <= times[j] - c.window
  }

  ghost predicate Good(c: Config, s: State) {
    forall k :: GoodKey(c, s, k)
  }

  ghost predicate GoodKey(c: Config, s: State, k: string) {
    GoodTimes(c, Get(s.events, k), Get(s.history, k), s.clock)
  }

  /** What holds between a key's entry and its accepted history. */
  ghost predicate GoodTimes(c: Config, kept: seq<real>, all: seq<real>, clock: real) {
    && Ascending(all)
    && (forall i :: 0 <= i < |all| ==> all[i] <= clock)
    && KeptTail(kept, all, clock - c.window)
    && Spaced(c, all)
  }

  lemma {:induction false} PrunedIsTail(times: seq<real>, cutoff: real)
    requires Ascending(times)
    ensures KeptTail(Pruned(times, cutoff), times, cutoff)
    ensures forall t :: t in Pruned(times, cutoff) ==> t > cutoff
  {
    if times != [] && times[0] <= cutoff {
      PrunedIsTail(times[1..], cutoff);
    }
  }

  /** Forgetting expired timestamps first changes nothing about what pruning leaves. */
  lemma {:induction false} PrunedTail(kept: seq<real>, all: seq<real>, cutoff: real)
    requires KeptTail(kept, all, cutoff)
    ensures Pruned(kept, cutoff) == Pruned(all, cutoff)
  {
    if |kept| < |all| {
      PrunedTail(kept, all[1..], cutoff);
    } else {
      assert kept == all;
    }
  }

  lemma {:induction false} CountIsPrunedLength(times: seq<real>, cutoff: real, now: real)
    requires Ascending(times) && forall i :: 0 <= i < |times| ==> times[i] <= now
    ensures CountBetween(times, cutoff, now) == |Pruned(times, cutoff)|
  {
    if times != [] {
      CountIsPrunedLength(times[1..], cutoff, now);
      if times[0] > cutoff {
        assert forall i :: 0 <= i < |times[1..]| ==> times[1..][i] == times[i + 1] >= times[0];
        NothingExpired(times[1..], cutoff);
      }
    }
  }

  lemma NothingExpired(times: seq<real>, cutoff: real)
    requires forall i :: 0 <= i < |times| ==> times[i] > cutoff
    ensures Pruned(times, cutoff) == times
  {}

  /** In a good state, pruning a key's entry leaves exactly its accepted events inside the window. */
  lemma WindowContents(c: Config, s: State, key: string, now: real)
    requires GoodKey(c, s, key) && now >= s.clock
    ensures |Pruned(Get(s.events, key), now - c.window)| == CountBetween(Get(s.history, key), now - c.window, now)
    ensures KeptTail(Pruned(Get(s.events, key), now - c.window), Get(s.history, key), now - c.window)
  {
    var all := Get(s.history, key);
    PrunedTail(Get(s.events, key), all, now - c.window);
    PrunedIsTail(all, now - c.window);
    CountIsPrunedLength(all, now - c.window, now);
  }

  /** Eviction keeps exactly the keys with an accepted event inside the window. */
  lemma EvictionKeepsLiveKeys(c: Config, s: State, now: real)
    requires Good(c, s) && now >= s.clock
    ensures Evicted(s.events, now - c.window).Keys == LiveKeys(s.history, now - c.window)
  {
    var cutoff := now - c.window;
    forall k ensures k in Evicted(s.events, cutoff) <==> k in LiveKeys(s.history, cutoff) {
      assert GoodKey(c, s, k);
      var kept, all := Get(s.events, k), Get(s.history, k);
      if all != [] && all[|all| - 1] > cutoff {
        assert kept != [] && kept[|kept| - 1] == all[|all| - 1];
      } else if kept != [] {
        assert kept[|kept| - 1] == all[|all| - 1];
      }
    }
  }

  // ---------------------------------------------------------------- what every call keeps

  /** Making room leaves an entry as it is, or drops one that has expired. */
  lemma RoomEntry(c: Config, events: Events, key: string, k: string, cutoff: real)
    ensures var entry := Get(MadeRoom(c, events, key, cutoff).0, k);
      entry == Get(events, k) || (entry == [] && Expired(Get(events, k), cutoff))
  {}

  /** An expired entry may be forgotten: all of the key's events have expired. */
  lemma ForgottenTail(c: Config, kept: seq<real>, all: seq<real>, clock: real, now: real)
    requires GoodTimes(c, kept, all, clock) && clock <= now && Expired(kept, now - c.window)
    ensures GoodTimes(c, [], all, now)
  {
    forall i | 0 <= i < |all|
      ensures all[i] <= now - c.window
    {
      if i >= |all| - |kept| {
        assert kept[i - (|all| - |kept|)] == all[i] <= all[|all| - 1] == kept[|kept| - 1];
      }
    }
    assert all[|all|..] == [];
  }

  lemma RoomKeepsTail(c: Config, s: State, key: string, k: string, now: real)
    requires GoodKey(c, s, k) && now >= s.clock
    ensures GoodTimes(c, Get(MadeRoom(c, s.events, key, now - c.window).0, k), Get(s.history, k), now)
  {
    hide GoodTimes, MadeRoom, Get, Expired;
    var kept, all := Get(s.events, k), Get(s.history, k);
    RoomEntry(c, s.events, key, k, now - c.window);
    if Expired(kept, now - c.window) {
      ForgottenTail(c, kept, all, s.clock, now);
    }
    EntryOutlivesItsClock(c, kept, all, s.clock, now);
  }

  lemma AcceptedKeepsSpacing(c: Config, all: seq<real>, kept: seq<real>, now: real)
    requires Ascending(all) && Spaced(c, all) && c.limit >= 1
    requires forall i :: 0 <= i < |all| ==> all[i] <= now
    requires KeptTail(kept, all, now - c.window) && |kept| < c.limit
    ensures Ascending(all + [now]) && Spaced(c, all + [now])
    ensures KeptTail(kept + [now], all + [now], now - c.window)
  {}

  lemma AllowKeepsKey(c: Config, s: State, key: string, now: real, k: string)
    requires c.limit >= 1 && now >= s.clock && GoodKey(c, s, k)
    ensures GoodKey(c, Apply(c, s, Allow(key, now)), k)
  {
    hide GoodTimes, Apply, MadeRoom, Pruned;
    RoomKeepsTail(c, s, key, k, now);
    AllowGets(c, s, key, now, k);
    AllowOwnKey(c, Get(MadeRoom(c, s.events, key, now - c.window).0, k), Get(s.history, k), now);
  }

  /** The entry and history of any key after `allow`. */
  lemma AllowGets(c: Config, s: State, key: string, now: real, k: string)
    ensures var (room, full) := MadeRoom(c, s.events, key, now - c.window);
      var times := Pruned(Get(room, key), now - c.window);
      var after := Apply(c, s, Allow(key, now));
      var accepted := !full && |times| < c.limit;
      && after.clock == now
      && Get(after.events, k)
         == (if k != key || full then Get(room, k) else if accepted then times + [now] else times)
      && Get(after.history, k) == if k == key && accepted then Get(s.history, k) + [now] else Get(s.history, k)
  {
    hide Pruned, MadeRoom;
  }

  lemma AllowOwnKey(c: Config, entry: seq<real>, all: seq<real>, now: real)
    requires c.limit >= 1 && GoodTimes(c, entry, all, now)
    ensures var kept := Pruned(entry, now - c.window);
      && GoodTimes(c, kept, all, now)
      && (|kept| < c.limit ==> GoodTimes(c, kept + [now], all + [now], now))
  {
    hide Pruned, KeptTail, Spaced, Ascending;
    var cutoff := now - c.window;
    PrunedTail(entry, all, cutoff);
    PrunedIsTail(all, cutoff);
    var kept := Pruned(entry, cutoff);
    if |kept| < c.limit {
      AcceptedKeepsSpacing(c, all, kept, now);
    }
  }

  lemma CallKeepsGood(c: Config, s: State, call: Call)
    requires c.limit >= 1 && Good(c, s) && OnTime(s, call)
    ensures Good(c, Apply(c, s, call))
  {
    hide GoodTimes;
    forall k ensures GoodKey(c, Apply(c, s, call), k) {
      assert GoodKey(c, s, k);
      match call {
        case Allow(key, now) => AllowKeepsKey(c, s, key, now, k);
        case Remaining(key, now) => RemainingKeepsKey(c, s, key, now, k);
        case Reset(key) => ResetKeepsKey(c, s, key, k);
      }
    }
  }

  lemma RemainingKeepsKey(c: Config, s: State, key: string, now: real, k: string)
    requires c.limit >= 1 && now >= s.clock && GoodKey(c, s, k)
    ensures GoodKey(c, Apply(c, s, Remaining(key, now)), k)
  {
    if k == key {
      hide GoodTimes, Pruned, Get;
      EntryOutlivesItsClock(c, Get(s.events, k), Get(s.history, k), s.clock, now);
      AllowOwnKey(c, Get(s.events, k), Get(s.history, k), now);
      RemainingGets(c, s, key, now);
    } else {
      EntryOutlivesItsClock(c, Get(s.events, k), Get(s.history, k), s.clock, now);
    }
  }

  lemma EntryOutlivesItsClock(c: Config, kept: seq<real>, all: seq<real>, clock: real, now: real)
    requires GoodTimes(c, kept, all, clock) && clock <= now
    ensures GoodTimes(c, kept, all, now)
  {}

  lemma RemainingGets(c: Config, s: State, key: string, now: real)
    ensures var after := Apply(c, s, Remaining(key, now));
      && after.clock == now
      && Get(after.events, key) == Pruned(Get(s.events, key), now - c.window)
      && Get(after.history, key) == Get(s.history, key)
  {
    hide Pruned;
  }

  lemma ResetKeepsKey(c: Config, s: State, key: string, k: string)
    requires GoodKey(c, s, k)
    ensures GoodKey(c, Apply(c, s, Reset(key)), k)
  {}

  lemma {:induction false} RunIsGood(c: Config, start: real, calls: seq<Call>)
    requires c.limit >= 1 && Clocked(c, start, calls)
    ensures Good(c, Run(c, start, calls))
  {
    if calls != [] {
      var n := |calls| - 1;
      forall i | 0 <= i < n ensures OnTime(Run(c, start, calls[..n][..i]), calls[..n][i]) {
        assert calls[..n][..i] == calls[..i];
      }
      RunIsGood(c, start, calls[..n]);
      CallKeepsGood(c, Run(c, start, calls[..n]), calls[n]);
    }
  }

  lemma ClockedExtend(c: Config, start: real, calls: seq<Call>, call: Call)
    requires Clocked(c, start, calls) && call.Allow?
    requires Run(c, start, calls).clock <= call.now
    ensures Clocked(c, start, calls + [call])
    ensures Run(c, start, calls + [call]).clock == call.now
  {
    hide AllowStep;
    var all := calls + [call];
    assert all[..|calls|] == calls;
    forall i | 0 <= i < |all| ensures OnTime(Run(c, start, all[..i]), all[i]) {
      if i < |calls| {
        assert all[..i] == calls[..i];
      }
    }
  }

  /** Calls of `allow` in the order of their times run on a clock that does not go back. */
  lemma {:induction false} AllowsAreClocked(c: Config, start: real, calls: seq<Call>)
    requires forall i :: 0 <= i < |calls| ==> calls[i].Allow? && start <= calls[i].now
    requires forall i, j :: 0 <= i < j < |calls| ==> calls[i].now <= calls[j].now
    ensures Clocked(c, start, calls)
            && Run(c, start, calls).clock == if calls == [] then start else calls[|calls| - 1].now
  {
    if calls != [] {
      hide Apply, Clocked;
      var n := |calls| - 1;
      AllowsAreClocked(c, start, calls[..n]);
      ClockedExtend(c, start, calls[..n], calls[n]);
      assert calls == calls[..n] + [calls[n]];
    } else {
      NoCallsAreClocked(c, start);
    }
  }

  lemma NoCallsAreClocked(c: Config, start: real)
    ensures Clocked(c, start, [])
  {}

  // ---------------------------------------------------------------- theorems

  /**
   * After any run on a clock that does not go back, the limiter answers by the full history:
   * it accepts exactly when fewer than `limit` accepted events of the key lie in the window,
   * unless the key is untracked and `max_keys` other keys have an event in the window. What
   * pruning and eviction forgot never matters.
   */
  lemma AllowAnswersByFullHistory(c: Config, start: real, calls: seq<Call>, key: string, now: real)
    requires c.limit >= 1 && Clocked(c, start, calls) && now >= Run(c, start, calls).clock
    ensures var s := Run(c, start, calls);
      AllowStep(c, s.events, key, now).1
      <==> UnderLimit(c, s.history, key, now)
           && (key in s.events || |LiveKeys(s.history, now - c.window)| < c.maxKeys)
  {
    RunIsGood(c, start, calls);
    GoodAnswer(c, Run(c, start, calls), key, now);
  }

  lemma GoodAnswer(c: Config, s: State, key: string, now: real)
    requires Good(c, s) && now >= s.clock
    ensures AllowStep(c, s.events, key, now).1
      <==> UnderLimit(c, s.history, key, now)
           && (key in s.events || |LiveKeys(s.history, now - c.window)| < c.maxKeys)
  {
    var cutoff := now - c.window;
    assert GoodKey(c, s, key);
    WindowContents(c, s, key, now);
    EvictionKeepsLiveKeys(c, s, now);
    SubmapSize(Evicted(s.events, cutoff), s.events);
    assert |Evicted(s.events, cutoff)| == |Evicted(s.events, cutoff).Keys|;
    assert key !in s.events ==> Get(MadeRoom(c, s.events, key, cutoff).0, key) == [];
  }

  lemma SubmapSize(small: Events, large: Events)
    requires small.Keys <= large.Keys
    ensures |small| <= |large|
  {
    Collections.SubsetSize(small.Keys, large.Keys);
    assert |small| == |small.Keys| && |large| == |large.Keys|;
  }

  /** `remaining` reports the unused part of the window's allowance. */
  lemma RemainingCountsByFullHistory(c: Config, start: real, calls: seq<Call>, key: string, now: real)
    requires c.limit >= 1 && Clocked(c, start, calls) && now >= Run(c, start, calls).clock
    ensures var s := Run(c, start, calls);
      var used := CountBetween(Get(s.history, key), now - c.window, now);
      used <= c.limit && RemainingStep(c, s.events, key, now).1 == c.limit - used
  {
    var s := Run(c, start, calls);
    RunIsGood(c, start, calls);
    assert GoodKey(c, s, key);
    RemainingInGoodState(c, s, key, now);
  }

  lemma RemainingInGoodState(c: Config, s: State, key: string, now: real)
    requires c.limit >= 1 && GoodKey(c, s, key) && now >= s.clock
    ensures var used := CountBetween(Get(s.history, key), now - c.window, now);
      used <= c.limit && RemainingStep(c, s.events, key, now).1 == c.limit - used
  {
    WindowContents(c, s, key, now);
    SpacedCount(c, Get(s.history, key), now);
  }

  lemma SpacedCount(c: Config, times: seq<real>, t: real)
    requires c.limit >= 1 && Ascending(times) && Spaced(c, times)
    ensures CountBetween(times, t - c.window, t) <= c.limit
  {
    var i, j := Segment(times, t - c.window, t);
    if j - i > c.limit {
      SpacedPair(c, times, i);
    }
  }

  lemma SpacedPair(c: Config, times: seq<real>, i: nat)
    requires Spaced(c, times) && 0 <= c.limit && i + c.limit < |times|
    ensures times[i] <= times[i + c.limit] - c.window
  {}

  /** The timestamps counted are consecutive. */
  lemma {:induction false} Segment(times: seq<real>, from: real, to: real) returns (i: nat, j: nat)
    requires Ascending(times)
    ensures i <= j <= |times| && j - i == CountBetween(times, from, to)
    ensures forall k :: i <= k < j ==> from < times[k] <= to
    ensures i == j || forall k :: 0 <= k < i ==> times[k] <= from
  {
    if times == [] {
      i, j := 0, 0;
    } else {
      var i', j' := Segment(times[1..], from, to);
      if from < times[0] <= to {
        assert |times| > 1 ==> times[1..][0] == times[1] > from;
        i, j := 0, 1 + (j' - i');
        forall k | 0 <= k < j ensures from < times[k] <= to {
          if k > 0 {
            assert times[k] == times[1..][k - 1];
          }
        }
      } else {
        i, j := i' + 1, j' + 1;
        forall k | i <= k < j ensures from < times[k] <= to {
          assert times[k] == times[1..][k - 1];
        }
        if i < j {
          assert times[i] == times[1..][i - 1] <= to;
          forall k | 0 <= k < i ensures times[k] <= from {
            if k > 0 {
              assert times[k] == times[1..][k - 1];
            }
          }
        }
      }
    }
  }

  /** No interval as long as the window ever holds more than `limit` accepted events of one key. */
  lemma NoWindowOverLimit(c: Config, start: real, calls: seq<Call>, key: string, t: real)
    requires c.limit >= 1 && Clocked(c, start, calls)
    ensures CountBetween(Get(Run(c, start, calls).history, key), t - c.window, t) <= c.limit
  {
    RunIsGood(c, start, calls);
    assert GoodKey(c, Run(c, start, calls), key);
    SpacedCount(c, Get(Run(c, start, calls).history, key), t);
  }

  /** The limiter would accept the key now. */
  predicate Answers(c: Config, s: State, key: string, now: real) {
    AllowStep(c, s.events, key, now).1
  }

  /** The key is tracked, or the keys with an event in the window leave room for it. */
  predicate HasRoom(c: Config, s: State, key: string, now: real) {
    key in s.events || |LiveKeys(s.history, now - c.window)| < c.maxKeys
  }

  lemma LiveKeysMove(c: Config, s: State, call: Call, other: string, cutoff: real)
    requires other != call.key
    ensures var before, after := LiveKeys(s.history, cutoff), LiveKeys(Apply(c, s, call).history, cutoff);
      && (call.Remaining? ==> after == before)
      && (call.Reset? ==> after == before - {call.key})
      && (call.Allow? ==> before <= after + {call.key} && after <= before + {call.key})
    ensures Get(Apply(c, s, call).history, other) == Get(s.history, other)
  {
    hide AllowStep, RemainingStep;
  }

  /** What becomes of another key's entry: eviction may drop it, nothing else does, and nothing creates it. */
  lemma OtherEntry(c: Config, s: State, call: Call, other: string)
    requires other != call.key
    ensures other in Apply(c, s, call).events ==> other in s.events
    ensures !call.Allow? ==> (other in Apply(c, s, call).events <==> other in s.events)
    ensures other in s.events && call.Allow? && !Expired(s.events[other], call.now - c.window)
            ==> other in Apply(c, s, call).events
  {
    hide Pruned;
  }

  lemma AcceptedStaysLive(c: Config, s: State, call: Call, now: real)
    requires Good(c, s) && OnTime(s, call) && call.Allow?
    ensures LiveKeys(s.history, now - c.window) <= LiveKeys(Apply(c, s, call).history, now - c.window)
  {
    hide AllowStep;
    var before, after := LiveKeys(s.history, now - c.window), LiveKeys(Apply(c, s, call).history, now - c.window);
    forall k | k in before
      ensures k in after
    {
      assert GoodKey(c, s, k);
    }
  }

  lemma ClockAfter(c: Config, s: State, call: Call)
    requires OnTime(s, call)
    ensures Apply(c, s, call).clock == (if call.Reset? then s.clock else call.now) >= s.clock
  {
    hide AllowStep, RemainingStep;
  }

  /** An accepted event never makes room, a reset never takes it, and `remaining` leaves it alone. */
  lemma RoomMoves(c: Config, s: State, call: Call, other: string, now: real)
    requires Good(c, s) && OnTime(s, call) && call.key != other
    ensures var t := Apply(c, s, call);
      && (call.Allow? && HasRoom(c, t, other, now) ==> HasRoom(c, s, other, now))
      && (call.Reset? && HasRoom(c, s, other, now) ==> HasRoom(c, t, other, now))
      && (call.Remaining? ==> HasRoom(c, t, other, now) == HasRoom(c, s, other, now))
  {
    hide AllowStep, Apply, LiveKeys;
    var t, cutoff := Apply(c, s, call), now - c.window;
    LiveKeysMove(c, s, call, other, cutoff);
    OtherEntry(c, s, call, other);
    if call.Allow? {
      AcceptedStaysLive(c, s, call, now);
      Collections.SubsetSize(LiveKeys(s.history, cutoff), LiveKeys(t.history, cutoff));
    }
    if call.Reset? {
      Collections.SubsetSize(LiveKeys(t.history, cutoff), LiveKeys(s.history, cutoff));
    }
  }

  /** A key with an event in the window is tracked, and the call leaves it so. */
  lemma LiveIsTracked(c: Config, s: State, call: Call, other: string)
    requires Good(c, s) && OnTime(s, call) && call.key != other
    requires other in LiveKeys(s.history, Apply(c, s, call).clock - c.window)
    ensures other in s.events && other in Apply(c, s, call).events
  {
    hide AllowStep, Apply;
    ClockAfter(c, s, call);
    OtherEntry(c, s, call, other);
    assert GoodKey(c, s, other);
    var kept, all := Get(s.events, other), Get(s.history, other);
    assert kept != [] && kept[|kept| - 1] == all[|all| - 1];
  }

  lemma OtherKeyInGoodState(c: Config, s: State, call: Call, other: string, now: real)
    requires c.limit >= 1 && Good(c, s) && OnTime(s, call) && call.key != other && now >= Apply(c, s, call).clock
    ensures var t := Apply(c, s, call);
      && (Answers(c, s, other, now) && !Answers(c, t, other, now)
          <==> call.Allow? && UnderLimit(c, s.history, other, now) && HasRoom(c, s, other, now)
               && !HasRoom(c, t, other, now))
      && (!Answers(c, s, other, now) && Answers(c, t, other, now)
          <==> call.Reset? && UnderLimit(c, s.history, other, now) && !HasRoom(c, s, other, now)
               && HasRoom(c, t, other, now))
      && (call.Remaining? || other in LiveKeys(s.history, t.clock - c.window)
          ==> Answers(c, s, other, now) == Answers(c, t, other, now))
  {
    hide AllowStep, Apply, LiveKeys, Good, UnderLimit, HasRoom;
    var t := Apply(c, s, call);
    CallKeepsGood(c, s, call);
    ClockAfter(c, s, call);
    KnownAnswer(c, s, other, now);
    KnownAnswer(c, t, other, now);
    OtherHistory(c, s, call, other, now);
    RoomMoves(c, s, call, other, now);
    if other in LiveKeys(s.history, t.clock - c.window) {
      LiveIsTracked(c, s, call, other);
      TrackedHasRoom(c, s, other, now);
      TrackedHasRoom(c, t, other, now);
    }
  }

  lemma KnownAnswer(c: Config, s: State, key: string, now: real)
    requires Good(c, s) && now >= s.clock
    ensures Answers(c, s, key, now) <==> UnderLimit(c, s.history, key, now) && HasRoom(c, s, key, now)
  {
    hide AllowStep, UnderLimit, LiveKeys, Good;
    GoodAnswer(c, s, key, now);
  }

  lemma OtherHistory(c: Config, s: State, call: Call, other: string, now: real)
    requires other != call.key
    ensures UnderLimit(c, Apply(c, s, call).history, other, now) == UnderLimit(c, s.history, other, now)
  {
    hide Apply, LiveKeys, CountBetween;
    LiveKeysMove(c, s, call, other, now);
  }

  lemma TrackedHasRoom(c: Config, s: State, key: string, now: real)
    requires key in s.events
    ensures HasRoom(c, s, key, now)
  {}

  /**
   * After any run, a call on one key changes the answer for another in two ways only. An accepted
   * event takes the last room of a key that is then untracked: as many keys are live as may be
   * tracked. A reset gives such room back. A key with an event in the window at the time of the
   * call, and any key after `remaining`, is never affected.
   */
  lemma OtherKeysAnswer(c: Config, start: real, calls: seq<Call>, call: Call, other: string, now: real)
    requires c.limit >= 1 && Clocked(c, start, calls) && call.key != other
    requires OnTime(Run(c, start, calls), call) && now >= Apply(c, Run(c, start, calls), call).clock
    ensures var s := Run(c, start, calls);
      var t := Apply(c, s, call);
      && (Answers(c, s, other, now) && !Answers(c, t, other, now)
          <==> call.Allow? && UnderLimit(c, s.history, other, now) && HasRoom(c, s, other, now)
               && !HasRoom(c, t, other, now))
      && (!Answers(c, s, other, now) && Answers(c, t, other, now)
          <==> call.Reset? && UnderLimit(c, s.history, other, now) && !HasRoom(c, s, other, now)
               && HasRoom(c, t, other, now))
      && (call.Remaining? || other in LiveKeys(s.history, t.clock - c.window)
          ==> Answers(c, s, other, now) == Answers(c, t, other, now))
  {
    hide *;
    RunIsGood(c, start, calls);
    OtherKeyInGoodState(c, Run(c, start, calls), call, other, now);
  }

  /** A key is dropped exactly when a new one finds the map full and it has no event inside the window. */
  lemma KeyIsDroppedExactlyWhen(c: Config, events: Events, key: string, now: real, other: string)
    requires other in events && other != key
    ensures var after := AllowStep(c, events, key, now).0;
            && (other !in after <==>
                  && key !in events && |events| >= c.maxKeys
                  && (events[other] == [] || events[other][|events[other]| - 1] <= now - c.window))
            && (other in after ==> after[other] == events[other])
  {
    hide Pruned;
  }

  /** Without `remaining`, the map never holds more than `max_keys` keys. */
  lemma {:induction false} MapStaysBounded(c: Config, start: real, calls: seq<Call>)
    requires forall i :: 0 <= i < |calls| ==> !calls[i].Remaining?
    ensures |Run(c, start, calls).events| <= MaxSize(c)
  {
    if calls != [] {
      var n := |calls| - 1;
      var s := Run(c, start, calls[..n]);
      MapStaysBounded(c, start, calls[..n]);
      match calls[n] {
        case Allow(key, now) => AllowKeepsBound(c, s.events, key, now);
        case Reset(key) => SubmapSize(s.events - {key}, s.events);
      }
    }
  }

  function MaxSize(c: Config): nat {
    if c.maxKeys > 0 then c.maxKeys else 0
  }

  /** Room was made: there is a place left for a key that has none. */
  lemma RoomIsBounded(c: Config, events: Events, key: string, cutoff: real)
    requires |events| <= MaxSize(c)
    ensures var (room, full) := MadeRoom(c, events, key, cutoff);
      |room| <= MaxSize(c) && (!full && key !in room ==> |room| < MaxSize(c))
  {
    hide Expired;
    SubmapSize(Evicted(events, cutoff), events);
  }

  lemma AllowKeepsBound(c: Config, events: Events, key: string, now: real)
    requires |events| <= MaxSize(c)
    ensures |AllowStep(c, events, key, now).0| <= MaxSize(c)
  {
    hide Pruned, MadeRoom, MaxSize;
    RoomIsBounded(c, events, key, now - c.window);
    var (room, full) := MadeRoom(c, events, key, now - c.window);
    if !full {
      var times := AllowStep(c, events, key, now).0[key];
      assert AllowStep(c, events, key, now).0 == room[key := times];
      UpdateSize(room, key, times);
    }
  }

  lemma UpdateSize(before: Events, key: string, times: seq<real>)
    ensures |before[key := times]| == |before| + if key in before then 0 else 1
  {
    var after := before[key := times];
    assert after.Keys == before.Keys + {key};
    assert |after| == |after.Keys| && |before| == |before.Keys|;
    if key in before {
      assert before.Keys + {key} == before.Keys;
    }
  }

  /** `remaining` keeps the bound exactly when its key is tracked or there is room to spare. */
  lemma RemainingKeepsBound(c: Config, events: Events, key: string, now: real)
    requires |events| <= c.maxKeys
    ensures |RemainingStep(c, events, key, now).0| <= c.maxKeys <==> key in events || |events| < c.maxKeys
  {
    var after := RemainingStep(c, events, key, now).0;
    assert after.Keys == events.Keys + {key};
    assert |after| == |after.Keys| && |events| == |events.Keys|;
  }
}
