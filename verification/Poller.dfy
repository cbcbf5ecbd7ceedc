/** `checkArrival` (nav.go): the arrival poller, tick by tick, split at the store's lock into what it
    decides and what it applies. Its two rolling memories outlive the goals it watches. */
module Poller {
  import opened Common
  import opened NavGoals
  import opened Arrivals
  import opened Rejoins

  type KeyOf = Pos -> Key

  function Marks(key: KeyOf, ps: seq<Pos>): (ms: seq<Mark>)
    ensures |ms| == |ps| && forall i :: 0 <= i < |ps| ==> ms[i] == Mark(key(ps[i]), ps[i])
  {
    seq(|ps|, i requires 0 <= i < |ps| => Mark(key(ps[i]), ps[i]))
  }

  /** The state once the goal on record has moved on by n waypoints. */
  function MovedOn(st: NavState, n: nat, now: Time, written: bool): NavState
    requires st.goal.Some?
  {
    Kept(st, AdvanceEdit(st, st.goal.value.startedAt, st.goal.value.index, n, now), written)
  }

  // ---- The two memories over a run ----------------------------------------------------------

  datatype Rolling = Rolling(arrival: Memory, rejoin: Track)

  function InputOf(t: Tick): Input
    requires t.wps != []
  {
    Input(t.boat, t.wps[0], if |t.wps| >= 2 then Some(t.wps[1]) else None)
  }

  /** The arrival rules are asked about the first of the remaining waypoints, and the second follows it. */
  lemma InputOfRoute(key: KeyOf, boat: Pos, wps: seq<Pos>)
    requires wps != []
    ensures var t := InputOf(Tick(boat, Marks(key, wps)));
      && t.boat == boat && t.waypoint == Mark(key(wps[0]), wps[0])
      && (t.following.Some? <==> |wps| >= 2) && (|wps| >= 2 ==> t.following.value == Mark(key(wps[1]), wps[1]))
  {}

  predicate AllSeen(ticks: seq<Tick>) { forall i :: 0 <= i < |ticks| ==> ticks[i].wps != [] }

  function Inputs(ticks: seq<Tick>): (inputs: seq<Input>)
    requires AllSeen(ticks)
    ensures |inputs| == |ticks| && forall i :: 0 <= i < |ticks| ==> inputs[i] == InputOf(ticks[i])
  {
    seq(|ticks|, i requires 0 <= i < |ticks| => InputOf(ticks[i]))
  }

  /** One tick. Joining the route further on comes first, and then the memory of the old pair is dropped. */
  function Roll(geo: Geo, t: Tick, prev: Rolling): Rolling
    requires t.wps != []
  {
    var verdict := Judge(geo, t, prev.rejoin);
    Rolling(if verdict.skip > 0 then FORGOTTEN else Arrivals.Decide(geo.dist, InputOf(t), prev.arrival).memory, verdict.track)
  }

  function Rolled(geo: Geo, ticks: seq<Tick>): Rolling
    requires AllSeen(ticks)
  {
    if ticks == [] then Rolling(FORGOTTEN, NO_TRACK)
    else Roll(geo, ticks[|ticks| - 1], Rolled(geo, ticks[..|ticks| - 1]))
  }

  /** How many of the ticks there are up to the last that skipped. */
  function LastSkip(geo: Geo, ticks: seq<Tick>): (k: nat)
    ensures k <= |ticks|
  {
    if ticks == [] then 0
    else if Skips(geo, ticks) then |ticks|
    else LastSkip(geo, ticks[..|ticks| - 1])
  }

  /** What the arrival rules have seen since the last skip. */
  function SinceSkip(geo: Geo, ticks: seq<Tick>): seq<Input>
    requires AllSeen(ticks)
  {
    Inputs(ticks[LastSkip(geo, ticks)..])
  }

  lemma SinceSkipGrows(geo: Geo, ticks: seq<Tick>)
    requires AllSeen(ticks) && ticks != []
    ensures var n := |ticks| - 1;
      SinceSkip(geo, ticks) == if Skips(geo, ticks) then [] else SinceSkip(geo, ticks[..n]) + [InputOf(ticks[n])]
  {
    hide Skips, InputOf, Inputs;
    var n := |ticks| - 1;
    var k := LastSkip(geo, ticks[..n]);
    assert LastSkip(geo, ticks) == if Skips(geo, ticks) then n + 1 else k;
    hide LastSkip;
    if Skips(geo, ticks) { assert ticks[n + 1..] == []; } else { InputsGrow(ticks, k); }
  }

  lemma InputsGrow(ticks: seq<Tick>, k: nat)
    requires AllSeen(ticks) && k < |ticks|
    ensures var n := |ticks| - 1; Inputs(ticks[k..]) == Inputs(ticks[..n][k..]) + [InputOf(ticks[n])]
  {
    hide InputOf;
    var n := |ticks| - 1;
    assert ticks[k..] == ticks[..n][k..] + [ticks[n]];
  }

  /** Over any run of ticks, whatever goals they watch: the rejoin track is the whole streak since the last
      skip, and the arrival memory is that of the ticks since the last skip. */
  lemma {:induction false} RolledIsHistory(geo: Geo, ticks: seq<Tick>)
    requires AllSeen(ticks)
    ensures Rolled(geo, ticks).rejoin == VerdictAfter(geo, ticks).track == TrackOf(geo, ticks)
    ensures Rolled(geo, ticks).arrival == Remembered(geo.dist, SinceSkip(geo, ticks))
  {
    SkipsOnConfirmedStreak(geo, ticks);
    hide Judge, Skips, TrackOf, Arrivals.Decide;
    if ticks == [] {
    } else {
      var n := |ticks| - 1;
      RolledIsHistory(geo, ticks[..n]);
      SinceSkipGrows(geo, ticks);
      hide SinceSkip, Inputs;
      var past, t := SinceSkip(geo, ticks[..n]), InputOf(ticks[n]);
      assert (past + [t])[..|past|] == past;
    }
  }

  /** So the memory is exact since the later of the last skip and the last change of pair: the least
      distances to the waypoint and to the following one and the greatest to the following one; and right
      after a skip there is none. */
  lemma MemoryIsExactOverPolls(geo: Geo, ticks: seq<Tick>)
    requires NonNegative(geo.dist) && AllSeen(ticks)
    ensures var m, seen := Rolled(geo, ticks).arrival, SinceSkip(geo, ticks);
      if seen == [] then m == FORGOTTEN else Exact(m, geo.dist, seen)
    ensures ticks != [] ==> (SinceSkip(geo, ticks) == [] <==> Skips(geo, ticks))
  {
    hide Skips, Exact, Remembered, SinceSkip, Inputs;
    RolledIsHistory(geo, ticks);
    if ticks != [] { SinceSkipGrows(geo, ticks); }
    var seen := SinceSkip(geo, ticks);
    if seen != [] { MemoryIsExact(geo.dist, seen); } else { NothingRemembered(geo.dist); }
    if ticks == [] { NothingSeen(geo); }
  }

  lemma NothingRemembered(dist: Distance)
    ensures Remembered(dist, []) == FORGOTTEN
  {}

  lemma NothingSeen(geo: Geo)
    ensures SinceSkip(geo, []) == []
  {}

  // ---- What a tick decides ------------------------------------------------------------------

  /** One of the arrival rules, over the whole history of the pair. */
  predicate ArrivedBy(dist: Distance, seen: seq<Input>)
    requires seen != []
  {
    Inside(dist, seen) || Rounded(dist, seen) || FarPast(dist, seen) || Overshot(dist, seen)
  }

  /** How many waypoints the last tick finds passed, by what has been seen: all before the leg on which a
      confirmed streak lies, or one by the arrival rules since the last skip. */
  function Due(geo: Geo, ticks: seq<Tick>): nat
    requires AllSeen(ticks) && ticks != []
  {
    if Skips(geo, ticks) then BestLeg(geo, ticks[|ticks| - 1]).value + 1 else
    SinceSkipGrows(geo, ticks);
    if ArrivedBy(geo.dist, SinceSkip(geo, ticks)) then 1 else 0
  }

  /** What one tick finds passed, by the memories. */
  function Found(geo: Geo, t: Tick, prev: Rolling): nat
    requires t.wps != []
  {
    var verdict := Judge(geo, t, prev.rejoin);
    if verdict.skip > 0 then verdict.skip
    else if Arrivals.Decide(geo.dist, InputOf(t), prev.arrival).arrived then 1 else 0
  }

  /** The memories decide as the whole history would. */
  lemma FoundIsDue(geo: Geo, ticks: seq<Tick>)
    requires NonNegative(geo.dist) && AllSeen(ticks) && ticks != []
    ensures Found(geo, ticks[|ticks| - 1], Rolled(geo, ticks[..|ticks| - 1])) == Due(geo, ticks)
  {
    var n := |ticks| - 1;
    RolledIsHistory(geo, ticks[..n]);
    SkipsOnConfirmedStreak(geo, ticks);
    SinceSkipGrows(geo, ticks);
    SkipIsLeg(geo, ticks);
    if !Skips(geo, ticks) {
      var seen, past := SinceSkip(geo, ticks), SinceSkip(geo, ticks[..n]);
      assert seen[..|seen| - 1] == past;
      DecidesByHistory(geo.dist, seen);
    }
    hide Judge, Skips, Arrivals.Decide, Remembered, SinceSkip, Rolled;
  }

  lemma SkipIsLeg(geo: Geo, ticks: seq<Tick>)
    requires ticks != []
    ensures VerdictAfter(geo, ticks).skip > 0 ==>
      BestLeg(geo, ticks[|ticks| - 1]).Some? && VerdictAfter(geo, ticks).skip == BestLeg(geo, ticks[|ticks| - 1]).value + 1
  {
    hide BestLeg, Tracked;
  }

  // ---- From one goal to the next ------------------------------------------------------------

  /** The last tick is the first that watches its goal. */
  predicate FirstOfGoal(goals: seq<Time>) {
    goals != [] && forall i :: 0 <= i < |goals| - 1 ==> goals[i] != goals[|goals| - 1]
  }

  /** The goals that the ticks since the last skip watched. */
  function GoalsSinceSkip(geo: Geo, ticks: seq<Tick>, goals: seq<Time>): seq<Time>
    requires |goals| == |ticks|
  {
    goals[LastSkip(geo, ticks)..]
  }

  /** Outside the radius, by what earlier ticks saw of the same pair. */
  predicate ByEarlierTicks(dist: Distance, seen: seq<Input>)
    requires seen != []
  {
    PairSince(seen) < |seen| - 1 && !Inside(dist, seen) && (Rounded(dist, seen) || FarPast(dist, seen) || Overshot(dist, seen))
  }

  lemma OutsideByEarlierTicks(dist: Distance, seen: seq<Input>)
    requires NonNegative(dist) && seen != []
    ensures ArrivedBy(dist, seen) && !Inside(dist, seen) <==> ByEarlierTicks(dist, seen)
  {
    if PairSince(seen) == |seen| - 1 {
      FirstTick(dist, seen);
      DecidesByHistory(dist, seen);
    }
    hide Inside, Rounded, FarPast, Overshot, Arrived, PairSince;
  }

  /** A goal's first tick arrives outside the radius exactly when earlier ticks since the last skip, which
      all watched other goals, saw the same pair and the rules hold over them: the memory is kept by
      waypoint, not by goal. */
  lemma FirstTickOfGoal(geo: Geo, ticks: seq<Tick>, goals: seq<Time>)
    requires NonNegative(geo.dist) && AllSeen(ticks) && |goals| == |ticks| && FirstOfGoal(goals) && !Skips(geo, ticks)
    ensures SinceSkip(geo, ticks) != []
    ensures Due(geo, ticks) == 1 && !Inside(geo.dist, SinceSkip(geo, ticks)) <==> ByEarlierTicks(geo.dist, SinceSkip(geo, ticks))
    ensures var others := GoalsSinceSkip(geo, ticks, goals);
      |others| == |SinceSkip(geo, ticks)| && forall i :: 0 <= i < |others| - 1 ==> others[i] != goals[|goals| - 1]
  {
    SinceSkipGrows(geo, ticks);
    hide Skips, Inside, ByEarlierTicks, ArrivedBy, InputOf, LastSkip;
    OutsideByEarlierTicks(geo.dist, SinceSkip(geo, ticks));
  }

  /** A goal to a waypoint that an earlier goal came within 300 m of succeeds on its first tick, ten
      kilometres off. */
  lemma OldGoalsCount(geo: Geo, x: Mark, near: Pos, far: Pos, start: Time, now: Time)
    requires NonNegative(geo.dist) && geo.dist(near, x.pos) <= 300.0 && geo.dist(far, x.pos) >= 10000.0
    ensures Due(geo, [Tick(near, [x]), Tick(far, [x])]) == 1
    ensures Goal([x.pos], 0, false, 0, Active, "", start, None).Advanced(1, now).state == Succeeded
  {
    var ticks := [Tick(near, [x]), Tick(far, [x])];
    NoLegs(geo, ticks);
    TwoSeen(geo, ticks[0], ticks[1]);
    hide Skips, SinceSkip, Inside, Rounded, FarPast, Overshot, NonNegative;
    NearThenFar(geo.dist, InputOf(ticks[0]), InputOf(ticks[1]));
  }

  lemma TwoSeen(geo: Geo, s: Tick, t: Tick)
    requires 0 < |s.wps| < 3 && 0 < |t.wps| < 3
    ensures SinceSkip(geo, [s, t]) == [InputOf(s), InputOf(t)]
  {
    hide Skips, SinceSkip, InputOf, LastSkip, Inputs;
    OneSeen(geo, s);
    NoLegs(geo, [s, t]);
    assert [s, t][..1] == [s];
    SinceSkipGrows(geo, [s, t]);
    assert [InputOf(s)] + [InputOf(t)] == [InputOf(s), InputOf(t)];
  }

  lemma OneSeen(geo: Geo, s: Tick)
    requires 0 < |s.wps| < 3
    ensures SinceSkip(geo, [s]) == [InputOf(s)]
  {
    hide Skips, SinceSkip, InputOf, LastSkip, Inputs;
    NoLegs(geo, [s]);
    NothingSeen(geo);
    assert [s][..0] == [];
    SinceSkipGrows(geo, [s]);
    assert [] + [InputOf(s)] == [InputOf(s)];
  }

  lemma NearThenFar(dist: Distance, a: Input, b: Input)
    requires SamePair(a, b) && b.following.None? && ToWaypoint(dist, a) <= 300.0 && ToWaypoint(dist, b) >= 10000.0
    ensures Overshot(dist, [a, b])
  {
    var seen := [a, b];
    assert seen[..1] == [a];
    assert PairSince(seen) == 0;
    assert W(dist, seen, 0) <= 300.0 && W(dist, seen, 1) >= 10000.0;
  }

  lemma NoLegs(geo: Geo, ticks: seq<Tick>)
    requires ticks != [] && |ticks[|ticks| - 1].wps| < 3
    ensures !Skips(geo, ticks)
  {}

  // ---- The poller ---------------------------------------------------------------------------

  class ArrivalPoller {
    const geo: Geo
    const key: KeyOf
    var arrival: Memory
    var rejoin: Track

    /** The ticks that found a goal to watch, and when those goals started. */
    ghost var history: seq<Tick>
    ghost var goals: seq<Time>

    ghost predicate Valid()
      reads this
    {
      && NonNegative(geo.dist) && AllSeen(history) && |goals| == |history|
      && Rolled(geo, history) == Rolling(arrival, rejoin)
    }

    constructor (geo: Geo, key: KeyOf)
      requires NonNegative(geo.dist)
      ensures Valid() && this.geo == geo && this.key == key && history == [] && goals == []
    {
      this.geo, this.key := geo, key;
      arrival, rejoin := FORGOTTEN, NO_TRACK;
      history, goals := [], [];
    }

    /** How many waypoints the boat is found to have passed: those that all the ticks so far make due. */
    method Decide(boat: Pos, wps: seq<Pos>, ghost goal: Time) returns (n: nat)
      requires Valid() && wps != []
      modifies this
      ensures Valid() && history == old(history) + [Tick(boat, Marks(key, wps))] && goals == old(goals) + [goal]
      ensures n == Due(geo, history) && (n <= 1 || n < |wps|)
    {
      hide Judge, Arrivals.Decide, Due;
      var ms := Marks(key, wps);
      var t := Tick(boat, ms);
      ghost var prev := Rolling(arrival, rejoin);
      ghost var ticks := history + [t];
      assert ticks[..|history|] == history;
      var verdict := DecideRejoin(geo, t, rejoin);
      SkipLeavesOne(geo, t, rejoin);
      rejoin := verdict.track;
      if verdict.skip > 0 {
        arrival := FORGOTTEN;
        n := verdict.skip;
      } else {
        var decision := Arrivals.Decide(geo.dist, InputOf(t), arrival);
        arrival := decision.memory;
        n := if decision.arrived then 1 else 0;
      }
      assert n == Found(geo, t, prev);
      FoundIsDue(geo, ticks);
      history, goals := ticks, goals + [goal];
    }

    /** A tick that nothing interrupts. Without a fix, with one at (0, 0), or without an active goal
        with waypoints left, it does nothing; otherwise the goal moves on by what was decided, if the
        write succeeds. A sound goal stays sound and has then passed exactly that many waypoints. */
    method CheckArrival(store: DiskNavStore, fix: Option<Pos>, now: Time, written: bool) returns (n: nat)
      requires Valid() && (store.state.goal.Some? ==> store.state.goal.value.index >= 0)
      modifies this, store
      ensures Valid()
      ensures fix.None? || fix.value == Pos(0.0, 0.0) || old(store.state).goal.None?
        || old(store.state).goal.value.state != Active || old(store.state).goal.value.Remaining() == []
        ==> n == 0 && history == old(history) && goals == old(goals)
      ensures history != old(history) ==>
        var g := old(store.state).goal.value;
        history == old(history) + [Tick(fix.value, Marks(key, g.Remaining()))] && goals == old(goals) + [g.startedAt]
        && n == Due(geo, history)
      ensures n == 0 ==> store.state == old(store.state)
      ensures n > 0 ==> old(store.state).goal.Some? && store.state == MovedOn(old(store.state), n, now, written)
      ensures n > 0 && written && old(store.state).goal.value.Sound() ==>
        var before, after := old(store.state).goal.value, store.state.goal;
        after.Some? && after.value.Sound() && after.value.Travelled() == before.Travelled() + n
      ensures old(Synced(store.state, store.file)) ==> Synced(store.state, store.file)
    {
      hide Due, Rolled, AllSeen;
      if fix.None? || fix.value == Pos(0.0, 0.0) { return 0; }
      if store.state.goal.None? { return 0; }
      var g := store.state.goal.value;
      if g.state != Active { return 0; }
      var wps := g.Remaining();
      if wps == [] { return 0; }
      n := Decide(fix.value, wps, g.startedAt);
      if n > 0 {
        if g.Sound() {
          g.AdvanceKeepsSound(n, now);
          g.AdvanceTravels(n, now);
        }
        var applied, err := store.AdvanceGoal(g.startedAt, g.index, n, now, written);
      }
    }
  }
}
