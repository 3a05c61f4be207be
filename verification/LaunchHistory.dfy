/**
 Launch counting: the model keeps only the launches of the last seven days, throwing older ones away as it
 goes, and must still count what a full log would count.
 */
module LaunchHistory {

  const WEEK: int := 7 * 24 * 60 * 60 * 1000

  type Log = map<string, seq<int>>

  datatype Usage = Usage(launchCount7d: nat, lastLaunchMs: int)

  function Launches(log: Log, key: string): seq<int> {
    if key in log then log[key] else []
  }

  /** The launches at or after the cutoff, in order. */
  function Since(ts: seq<int>, cutoff: int): seq<int> {
    if ts == [] then [] else
      Since(ts[..|ts| - 1], cutoff) + if ts[|ts| - 1] >= cutoff then [ts[|ts| - 1]] else []
  }

  function Latest(ts: seq<int>): int {
    if ts == [] then 0 else
      var before := Latest(ts[..|ts| - 1]);
      if ts[|ts| - 1] > before then ts[|ts| - 1] else before
  }

  /** The usage a log shows for the seven days before now. */
  function UsageOf(log: Log, now: int): map<string, Usage> {
    map key | key in log && Since(log[key], now - WEEK) != [] ::
      Usage(|Since(log[key], now - WEEK)|, Latest(Since(log[key], now - WEEK)))
  }

  function Pruned(log: Log, now: int): Log {
    map key | key in log && Since(log[key], now - WEEK) != [] :: Since(log[key], now - WEEK)
  }

  function Noted(log: Log, key: string, at: int): Log {
    log[key := Launches(log, key) + [at]]
  }

  // ---------- the object ----------

  class LaunchStore {
    var history: Log
    var stats: map<string, Usage>

    constructor ()
      ensures history == map[] && stats == map[]
    {
      history, stats := map[], map[];
    }

    method PruneOldLaunches(now: int)
      modifies `history
      ensures history == Pruned(old(history), now)
    {
      var pending := history.Keys;
      ghost var before := history;
      while pending != {}
        invariant pending <= before.Keys
        invariant forall k :: k in pending ==> k in history && history[k] == before[k]
        invariant forall k :: k !in pending ==> (k in history <==> k in Pruned(before, now))
        invariant forall k :: k !in pending && k in history ==> history[k] == Pruned(before, now)[k]
        decreases pending
      {
        var key :| key in pending;
        var kept := KeepSince(history[key], now - WEEK);
        if kept == [] {
          history := history - {key};
        } else {
          history := history[key := kept];
        }
        pending := pending - {key};
      }
    }

    method KeepSince(existing: seq<int>, cutoff: int) returns (kept: seq<int>)
      ensures kept == Since(existing, cutoff)
    {
      kept := [];
      for i := 0 to |existing|
        invariant kept == Since(existing[..i], cutoff)
      {
        assert existing[..i + 1][..i] == existing[..i];
        if existing[i] >= cutoff {
          kept := kept + [existing[i]];
        }
      }
      assert existing[..|existing|] == existing;
    }

    /** Counts one key's launches; what is older than the cutoff does not count. */
    method CountLaunches(ts: seq<int>, cutoff: int) returns (launchCount: nat, lastLaunch: int)
      ensures launchCount == |Since(ts, cutoff)| && lastLaunch == Latest(Since(ts, cutoff))
    {
      launchCount, lastLaunch := 0, 0;
      for i := 0 to |ts|
        invariant launchCount == |Since(ts[..i], cutoff)| && lastLaunch == Latest(Since(ts[..i], cutoff))
      {
        assert ts[..i + 1][..i] == ts[..i];
        ghost var before := Since(ts[..i], cutoff);
        if ts[i] < cutoff {
          assert before + [] == before;
          continue;
        }
        assert (before + [ts[i]])[..|before|] == before;
        launchCount := launchCount + 1;
        lastLaunch := if ts[i] > lastLaunch then ts[i] else lastLaunch;
      }
      assert ts[..|ts|] == ts;
    }

    /** The clock is read once to prune and once more for the cutoff. */
    method RebuildUsageStats(pruneTime: int, now: int)
      modifies this
      ensures history == Pruned(old(history), pruneTime)
      ensures stats == UsageOf(history, now)
    {
      PruneOldLaunches(pruneTime);
      stats := map[];
      var pending := history.Keys;
      while pending != {}
        invariant pending <= history.Keys && history == Pruned(old(history), pruneTime)
        invariant forall k :: k in stats <==> k !in pending && k in UsageOf(history, now)
        invariant forall k :: k in stats ==> stats[k] == UsageOf(history, now)[k]
        decreases pending
      {
        var key :| key in pending;
        pending := pending - {key};
        var launchCount, lastLaunch := CountLaunches(history[key], now - WEEK);
        if launchCount > 0 {
          stats := stats[key := Usage(launchCount, lastLaunch)];
        }
      }
    }

    method NoteLaunchEvent(key: string, firstPrune: int, at: int, secondPrune: int, now: int)
      modifies this
      ensures key == "" ==> history == old(history) && stats == old(stats)
      ensures key != "" ==>
                && history == Pruned(Noted(Pruned(old(history), firstPrune), key, at), secondPrune)
                && stats == UsageOf(history, now)
      ensures key != "" && firstPrune <= secondPrune <= at + WEEK ==>
                Launches(history, key) == Since(Launches(old(history), key), secondPrune - WEEK) + [at]
    {
      if key == "" {
        return;
      }
      if firstPrune <= secondPrune <= at + WEEK {
        LaunchIsKept(history, key, firstPrune, at, secondPrune);
      }
      PruneOldLaunches(firstPrune);
      var list := if key in history then history[key] else [];
      list := list + [at];
      history := history[key := list];
      RebuildUsageStats(secondPrune, now);
    }
  }

  // ---------- runs ----------

  datatype Event =
    | Prune(now: int)
    | Rebuild(pruneTime: int, now: int)
    | Launch(key: string, firstPrune: int, at: int, secondPrune: int, now: int)

  /** What is kept, and beside it the full log and the clock as last read, for comparison. */
  datatype World = World(history: Log, stats: map<string, Usage>, full: Log, statsTime: int, clock: int)

  function Next(w: World, e: Event): World {
    match e
    case Prune(now) => w.(history := Pruned(w.history, now), clock := now)
    case Rebuild(pruneTime, now) =>
      var history := Pruned(w.history, pruneTime);
      w.(history := history, stats := UsageOf(history, now), statsTime := now, clock := now)
    case Launch(key, firstPrune, at, secondPrune, now) =>
      if key == "" then w else
        var history := Pruned(Noted(Pruned(w.history, firstPrune), key, at), secondPrune);
        World(history, UsageOf(history, now), Noted(w.full, key, at), now, now)
  }

  /** The clock does not run backwards. */
  predicate InOrder(clock: int, e: Event) {
    match e
    case Prune(now) => clock <= now
    case Rebuild(pruneTime, now) => clock <= pruneTime <= now
    case Launch(_, firstPrune, at, secondPrune, now) => clock <= firstPrune <= at <= secondPrune <= now
  }

  predicate IsRun(w: World, events: seq<Event>)
    decreases |events|
  {
    events == [] || (InOrder(w.clock, events[0]) && IsRun(Next(w, events[0]), events[1..]))
  }

  function After(w: World, events: seq<Event>): World
    decreases |events|
  {
    if events == [] then w else After(Next(w, events[0]), events[1..])
  }

  /** What is kept is what the full log has since some time at least a week ago. */
  ghost predicate KeptSince(history: Log, full: Log, floor: int) {
    forall key :: Launches(history, key) == Since(Launches(full, key), floor)
  }

  ghost predicate Inv(w: World) {
    && (exists floor :: floor <= w.clock - WEEK && KeptSince(w.history, w.full, floor))
    && w.stats == UsageOf(w.full, w.statsTime)
  }

  lemma {:induction false} SinceTwice(ts: seq<int>, floor: int, cutoff: int)
    requires floor <= cutoff
    ensures Since(Since(ts, floor), cutoff) == Since(ts, cutoff)
  {
    if ts != [] {
      var front, last := ts[..|ts| - 1], ts[|ts| - 1];
      SinceTwice(front, floor, cutoff);
      assert Since(front, floor) + [] == Since(front, floor);
      assert (Since(front, floor) + [last])[..|Since(front, floor)|] == Since(front, floor);
    }
  }

  lemma PrunedLaunches(log: Log, now: int, key: string)
    ensures Launches(Pruned(log, now), key) == Since(Launches(log, key), now - WEEK)
  {
  }

  lemma PruneKeeps(history: Log, full: Log, floor: int, now: int)
    requires KeptSince(history, full, floor) && floor <= now - WEEK
    ensures KeptSince(Pruned(history, now), full, now - WEEK)
  {
    forall key
      ensures Launches(Pruned(history, now), key) == Since(Launches(full, key), now - WEEK)
    {
      PrunedLaunches(history, now, key);
      SinceTwice(Launches(full, key), floor, now - WEEK);
      assert Launches(history, key) == Since(Launches(full, key), floor);
    }
  }

  lemma SinceOneMore(ts: seq<int>, floor: int, at: int)
    requires floor <= at
    ensures Since(ts + [at], floor) == Since(ts, floor) + [at]
  {
  }

  lemma NoteKeeps(history: Log, full: Log, floor: int, key: string, at: int)
    requires KeptSince(history, full, floor) && floor <= at
    ensures KeptSince(Noted(history, key, at), Noted(full, key, at), floor)
  {
    hide Since;
    SinceOneMore(Launches(full, key), floor, at);
    forall k
      ensures Launches(Noted(history, key, at), k) == Since(Launches(Noted(full, key, at), k), floor)
    {
      assert Launches(history, k) == Since(Launches(full, k), floor);
    }
  }

  /** A launch is appended to the key's earlier ones of the last week. */
  lemma LaunchIsKept(log: Log, key: string, firstPrune: int, at: int, secondPrune: int)
    requires firstPrune <= secondPrune <= at + WEEK
    ensures Launches(Pruned(Noted(Pruned(log, firstPrune), key, at), secondPrune), key)
         == Since(Launches(log, key), secondPrune - WEEK) + [at]
  {
    hide Since, Pruned;
    var once := Pruned(log, firstPrune);
    PrunedLaunches(log, firstPrune, key);
    PrunedLaunches(Noted(once, key, at), secondPrune, key);
    SinceOneMore(Launches(once, key), secondPrune - WEEK, at);
    SinceTwice(Launches(log, key), firstPrune - WEEK, secondPrune - WEEK);
  }

  /** What is kept shows the same usage as the full log, at every time from which the floor is a week or more away. */
  lemma SameUsage(history: Log, full: Log, floor: int, now: int)
    requires KeptSince(history, full, floor) && floor <= now - WEEK
    ensures UsageOf(history, now) == UsageOf(full, now)
  {
    forall key
      ensures Since(Launches(history, key), now - WEEK) == Since(Launches(full, key), now - WEEK)
    {
      assert Launches(history, key) == Since(Launches(full, key), floor);
      SinceTwice(Launches(full, key), floor, now - WEEK);
    }
    forall key
      ensures key in UsageOf(history, now) <==> key in UsageOf(full, now)
    {
      assert Since(Launches(history, key), now - WEEK) == Since(Launches(full, key), now - WEEK);
    }
    forall key | key in UsageOf(history, now)
      ensures UsageOf(history, now)[key] == UsageOf(full, now)[key]
    {
      assert Since(Launches(history, key), now - WEEK) == Since(Launches(full, key), now - WEEK);
    }
  }

  lemma InvAtFloor(w: World, floor: int)
    requires floor <= w.clock - WEEK && KeptSince(w.history, w.full, floor) && w.stats == UsageOf(w.full, w.statsTime)
    ensures Inv(w)
  {
  }

  lemma PruneKeepsInv(w: World, now: int, floor: int)
    requires floor <= w.clock - WEEK && KeptSince(w.history, w.full, floor) && w.stats == UsageOf(w.full, w.statsTime)
    requires w.clock <= now
    ensures Inv(Next(w, Prune(now)))
  {
    PruneKeeps(w.history, w.full, floor, now);
    hide KeptSince, UsageOf, Pruned, Inv;
    InvAtFloor(Next(w, Prune(now)), now - WEEK);
  }

  lemma RebuildKeepsInv(w: World, pruneTime: int, now: int, floor: int)
    requires floor <= w.clock - WEEK && KeptSince(w.history, w.full, floor)
    requires w.clock <= pruneTime <= now
    ensures Inv(Next(w, Rebuild(pruneTime, now)))
  {
    hide KeptSince, UsageOf, Pruned, Inv;
    PruneKeeps(w.history, w.full, floor, pruneTime);
    SameUsage(Pruned(w.history, pruneTime), w.full, pruneTime - WEEK, now);
    InvAtFloor(Next(w, Rebuild(pruneTime, now)), pruneTime - WEEK);
  }

  lemma LaunchKeepsInv(w: World, e: Event, floor: int)
    requires floor <= w.clock - WEEK && KeptSince(w.history, w.full, floor)
    requires e.Launch? && e.key != "" && InOrder(w.clock, e)
    ensures Inv(Next(w, e))
  {
    hide KeptSince, UsageOf, Pruned, Noted, Inv;
    var pruned := Pruned(w.history, e.firstPrune);
    PruneKeeps(w.history, w.full, floor, e.firstPrune);
    NoteKeeps(pruned, w.full, e.firstPrune - WEEK, e.key, e.at);
    var noted, full := Noted(pruned, e.key, e.at), Noted(w.full, e.key, e.at);
    PruneKeeps(noted, full, e.firstPrune - WEEK, e.secondPrune);
    SameUsage(Pruned(noted, e.secondPrune), full, e.secondPrune - WEEK, e.now);
    InvAtFloor(Next(w, e), e.secondPrune - WEEK);
  }

  lemma NextKeepsInv(w: World, e: Event)
    requires Inv(w) && InOrder(w.clock, e)
    ensures Inv(Next(w, e))
  {
    var floor :| floor <= w.clock - WEEK && KeptSince(w.history, w.full, floor);
    hide KeptSince, UsageOf, Pruned, Noted;
    match e
    case Prune(now) => PruneKeepsInv(w, now, floor);
    case Rebuild(pruneTime, now) => RebuildKeepsInv(w, pruneTime, now, floor);
    case Launch(key, _, _, _, _) =>
      if key != "" {
        LaunchKeepsInv(w, e, floor);
      }
  }

  /** In every run of launches, prunes and rebuilds under a clock that does not run backwards, the usage shown is
      what all launches ever recorded would show, and so is any usage computed later from what is kept. */
  lemma {:induction false} PrunedAgreesWithFullLog(w: World, events: seq<Event>, now: int)
    requires Inv(w) && IsRun(w, events)
    requires After(w, events).clock <= now
    ensures var w' := After(w, events);
            && w'.stats == UsageOf(w'.full, w'.statsTime)
            && UsageOf(w'.history, now) == UsageOf(w'.full, now)
    decreases |events|
  {
    if events == [] {
      var floor :| floor <= w.clock - WEEK && KeptSince(w.history, w.full, floor);
      SameUsage(w.history, w.full, floor, now);
    } else {
      NextKeepsInv(w, events[0]);
      PrunedAgreesWithFullLog(Next(w, events[0]), events[1..], now);
    }
  }

  /** A new store starts out agreeing with an empty log. */
  lemma FreshInv(clock: int)
    ensures Inv(World(map[], map[], map[], clock, clock))
  {
    assert KeptSince(map[], map[], clock - WEEK);
  }

  // ---------- the usage, told from the events alone ----------

  /** When a key was launched, in order. */
  function LaunchesIn(events: seq<Event>, key: string): seq<int> {
    if events == [] then []
    else
      (if events[0].Launch? && events[0].key == key != "" then [events[0].at] else []) + LaunchesIn(events[1..], key)
  }

  lemma {:induction false} FullLogTellsEvents(w: World, events: seq<Event>, key: string)
    ensures Launches(After(w, events).full, key) == Launches(w.full, key) + LaunchesIn(events, key)
    decreases |events|
  {
    hide Next, Launches;
    var kept := Launches(w.full, key);
    if events != [] {
      FullLogTellsEvents(Next(w, events[0]), events[1..], key);
      NextRecords(w, events[0], key);
      var first := if events[0].Launch? && events[0].key == key != "" then [events[0].at] else [];
      assert (kept + first) + LaunchesIn(events[1..], key) == kept + (first + LaunchesIn(events[1..], key));
    } else {
      assert kept + [] == kept;
    }
  }

  lemma NextRecords(w: World, e: Event, key: string)
    ensures Launches(Next(w, e).full, key) == Launches(w.full, key) + if e.Launch? && e.key == key != "" then [e.at] else []
  {
    assert Launches(w.full, key) + [] == Launches(w.full, key);
  }

  /** The places of the launches since the cutoff. */
  function InTime(ts: seq<int>, cutoff: int): set<nat> {
    set i: nat | i < |ts| && ts[i] >= cutoff
  }

  lemma {:induction false} SinceCounts(ts: seq<int>, cutoff: int)
    ensures |Since(ts, cutoff)| == |InTime(ts, cutoff)|
    ensures forall t :: t in Since(ts, cutoff) <==> t in ts && t >= cutoff
  {
    if ts != [] {
      var n := |ts| - 1;
      var front := ts[..n];
      SinceCounts(front, cutoff);
      assert ts == front + [ts[n]];
      assert InTime(ts, cutoff) == InTime(front, cutoff) + if ts[n] >= cutoff then {n} else {};
    } else {
      assert InTime(ts, cutoff) == {};
    }
  }

  lemma {:induction false} LatestIsGreatest(ts: seq<int>)
    ensures forall t :: t in ts ==> t <= Latest(ts)
    ensures Latest(ts) >= 0 && (Latest(ts) in ts || Latest(ts) == 0)
  {
    if ts != [] {
      var n := |ts| - 1;
      LatestIsGreatest(ts[..n]);
      assert ts == ts[..n] + [ts[n]];
    }
  }

  /** What the usage of a key is, given when it was launched: the number of launches of the last seven days, and the last of
      them (or the beginning of time). */
  ghost predicate IsUsage(u: Usage, ts: seq<int>, now: int) {
    var cutoff := now - 604800000;
    && u.launchCount7d == |InTime(ts, cutoff)|
    && (forall t :: t in ts && t >= cutoff ==> t <= u.lastLaunchMs)
    && u.lastLaunchMs >= 0 && ((u.lastLaunchMs in ts && u.lastLaunchMs >= cutoff) || u.lastLaunchMs == 0)
  }

  lemma UsageIsUsage(log: Log, now: int, key: string)
    ensures key in UsageOf(log, now) <==> InTime(Launches(log, key), now - 604800000) != {}
    ensures key in UsageOf(log, now) ==> IsUsage(UsageOf(log, now)[key], Launches(log, key), now)
  {
    var ts, cutoff := Launches(log, key), now - WEEK;
    SinceCounts(ts, cutoff);
    LatestIsGreatest(Since(ts, cutoff));
  }

  /** In every run from an empty store under a clock that does not run back: a key is shown exactly if it was launched within
      the seven days before the last rebuild, with the number and the last of these launches. */
  lemma UsageTellsEvents(events: seq<Event>, clock: int, key: string)
    requires IsRun(World(map[], map[], map[], clock, clock), events)
    ensures var w, ts := After(World(map[], map[], map[], clock, clock), events), LaunchesIn(events, key);
            && (key in w.stats <==> InTime(ts, w.statsTime - 604800000) != {})
            && (key in w.stats ==> IsUsage(w.stats[key], ts, w.statsTime))
  {
    hide UsageOf, IsUsage;
    var w0 := World(map[], map[], map[], clock, clock);
    var w := After(w0, events);
    FreshInv(clock);
    PrunedAgreesWithFullLog(w0, events, w.clock);
    FullLogTellsEvents(w0, events, key);
    assert Launches(w0.full, key) + LaunchesIn(events, key) == LaunchesIn(events, key);
    UsageIsUsage(w.full, w.statsTime, key);
  }

  /** If the clock does run back, a list pruned at one time shows the right launches at another exactly when no launch
      lies between the two cutoffs. */
  lemma {:induction false} PruneLosesExactly(ts: seq<int>, pruneTime: int, now: int)
    ensures Since(Since(ts, pruneTime - WEEK), now - WEEK) == Since(ts, now - WEEK)
            <==> forall t :: t in ts ==> !(now - WEEK <= t < pruneTime - WEEK)
  {
    var floor, cutoff := pruneTime - WEEK, now - WEEK;
    PruneShrinks(ts, floor, cutoff);
    if ts != [] {
      var front, last := ts[..|ts| - 1], ts[|ts| - 1];
      PruneLosesExactly(front, pruneTime, now);
      PruneShrinks(front, floor, cutoff);
      var kept := Since(front, floor);
      var x, y := Since(kept, cutoff), Since(front, cutoff);
      assert kept + [] == kept && (kept + [last])[..|kept|] == kept && x + [] == x && y + [] == y;
      assert forall t :: t in ts <==> t in front || t == last;
      if last < cutoff {
        assert Since(Since(ts, floor), cutoff) == x && Since(ts, cutoff) == y;
      } else if last < floor {
        assert Since(Since(ts, floor), cutoff) == x && Since(ts, cutoff) == y + [last];
        assert |x| < |y + [last]| && last in ts;
      } else {
        assert Since(Since(ts, floor), cutoff) == x + [last] && Since(ts, cutoff) == y + [last];
        assert x == (x + [last])[..|x|] && y == (y + [last])[..|y|];
      }
    }
  }

  lemma SinceOne(at: int, cutoff: int)
    ensures Since([at], cutoff) == if at >= cutoff then [at] else []
    ensures Latest([at]) == if at > 0 then at else 0
  {
    assert [at][..0] == [];
  }

  lemma OneLaunch(key: string, at: int, now: int)
    ensures Pruned(map[key := [at]], now) == if at >= now - WEEK then map[key := [at]] else map[]
    ensures UsageOf(map[key := [at]], now) == if at >= now - WEEK then map[key := Usage(1, if at > 0 then at else 0)] else map[]
  {
    hide Since, Latest;
    SinceOne(at, now - WEEK);
  }

  lemma TwoEvents(w: World, first: Event, second: Event)
    ensures After(w, [first, second]) == Next(Next(w, first), second)
  {
    var one := Next(w, first);
    assert [first, second][1..] == [second] && [second][1..] == [];
    assert After(one, [second]) == After(Next(one, second), []) == Next(one, second);
  }

  lemma NothingLogged(key: string, at: int, now: int)
    ensures Pruned(map[], now) == map[] && UsageOf(map[], now) == map[]
    ensures Noted(map[], key, at) == map[key := [at]]
  {
    assert Launches(map[], key) + [at] == [at];
  }

  /** A launch at time 0, then a rebuild that reads the clock a week and a moment later to prune and at 0 again to count:
      the launch is not shown, though the full log would show it. */
  lemma ClockRunningBackLoses(key: string)
    requires key != ""
    ensures var w := After(World(map[], map[], map[], 0, 0), [Launch(key, 0, 0, 0, 0), Rebuild(WEEK + 1, 0)]);
            && w.stats == map[] && w.statsTime == 0
            && UsageOf(w.full, w.statsTime) == map[key := Usage(1, 0)]
  {
    hide After, Pruned, UsageOf, Noted;
    TwoEvents(World(map[], map[], map[], 0, 0), Launch(key, 0, 0, 0, 0), Rebuild(WEEK + 1, 0));
    NothingLogged(key, 0, 0);
    OneLaunch(key, 0, 0);
    OneLaunch(key, 0, WEEK + 1);
  }

  lemma {:induction false} PruneShrinks(ts: seq<int>, floor: int, cutoff: int)
    ensures |Since(Since(ts, floor), cutoff)| <= |Since(ts, cutoff)|
  {
    if ts != [] {
      var front, last := ts[..|ts| - 1], ts[|ts| - 1];
      PruneShrinks(front, floor, cutoff);
      var kept := Since(front, floor);
      assert kept + [] == kept && (kept + [last])[..|kept|] == kept;
    }
  }
}
