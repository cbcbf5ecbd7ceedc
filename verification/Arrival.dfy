/** `decideArrival` (arrival.go): whether the waypoint steered for has been reached, from the boat's
    distances and a rolling memory of them. Distance is a parameter: any non-negative function. */
module Arrivals {
  import opened Common
  import opened NavGoals

  const ARRIVAL_M := 50.0
  const NEAR_M := 500.0
  const LAST_PASS_MIN_M := 400.0
  const LAST_PASS_FACTOR := 2.5
  const FOLLOWING_APPROACH_M := 500.0
  const CLOSING_MARGIN_M := 50.0

  type Distance = (Pos, Pos) -> real

  ghost predicate NonNegative(dist: Distance) { forall a, b :: dist(a, b) >= 0.0 }

  /** A waypoint and its key, which is never empty. */
  type Key = k: string | k != "" witness "0"
  datatype Mark = Mark(key: Key, pos: Pos)

  datatype Input = Input(boat: Pos, waypoint: Mark, following: Option<Mark>)

  /** The rolling memory; the key of no following waypoint is empty, and its distances are -1. */
  datatype Memory = Memory(waypoint: string, following: string, minWaypoint: real, minFollowing: real, maxFollowing: real)

  const FORGOTTEN := Memory("", "", 0.0, 0.0, 0.0)

  datatype Decision = Decision(arrived: bool, memory: Memory)

  function FollowingKey(t: Input): string { if t.following.Some? then t.following.value.key else "" }

  function ToWaypoint(dist: Distance, t: Input): real { dist(t.boat, t.waypoint.pos) }

  function ToFollowing(dist: Distance, t: Input): real {
    if t.following.Some? then dist(t.boat, t.following.value.pos) else -1.0
  }

  /** `decideArrival`. */
  function Decide(dist: Distance, t: Input, prev: Memory): Decision {
    var dW, dF := ToWaypoint(dist, t), ToFollowing(dist, t);
    var state := if prev.waypoint != t.waypoint.key || prev.following != FollowingKey(t)
                 then Memory(t.waypoint.key, FollowingKey(t), dW, dF, dF) else prev;
    var prevMinFollowing := state.minFollowing;
    var updated := state.(
      minWaypoint := if dW < state.minWaypoint then dW else state.minWaypoint,
      minFollowing := if dF >= 0.0 && dF < state.minFollowing then dF else state.minFollowing,
      maxFollowing := if dF >= 0.0 && dF > state.maxFollowing then dF else state.maxFollowing);
    var arrived :=
      if dW < ARRIVAL_M then true
      else if dF >= 0.0 then
        || (dW < NEAR_M && dW > updated.minWaypoint && dF + CLOSING_MARGIN_M < prevMinFollowing)
        || (dW > updated.minWaypoint * LAST_PASS_FACTOR && dF + FOLLOWING_APPROACH_M < updated.maxFollowing)
      else
        && updated.minWaypoint <= LAST_PASS_MIN_M
        && dW >= updated.minWaypoint * LAST_PASS_FACTOR
        && dW > ARRIVAL_M;
    Decision(arrived, updated)
  }

  // ---- What the memory means ----------------------------------------------------------------

  /** The memory after a run of ticks. */
  function Remembered(dist: Distance, ticks: seq<Input>): Memory {
    if ticks == [] then FORGOTTEN
    else Decide(dist, ticks[|ticks| - 1], Remembered(dist, ticks[..|ticks| - 1])).memory
  }

  predicate SamePair(t: Input, u: Input) { t.waypoint.key == u.waypoint.key && FollowingKey(t) == FollowingKey(u) }

  /** The first of the ticks, without a break up to the last one, that watch the last one's pair. */
  function PairSince(ticks: seq<Input>): (k: nat)
    requires ticks != []
    ensures k < |ticks|
    ensures forall i :: k <= i < |ticks| ==> SamePair(ticks[i], ticks[|ticks| - 1])
    ensures k > 0 ==> !SamePair(ticks[k - 1], ticks[|ticks| - 1])
  {
    var n := |ticks| - 1;
    if n == 0 || !SamePair(ticks[n - 1], ticks[n]) then n else PairSince(ticks[..n])
  }

  /** m is the least of the values of f over ticks[k..n]; `IsGreatest` likewise. */
  predicate IsLeast(m: real, f: Input -> real, ticks: seq<Input>, k: nat) {
    (exists i :: k <= i < |ticks| && m == f(ticks[i])) && forall i :: k <= i < |ticks| ==> m <= f(ticks[i])
  }

  predicate IsGreatest(m: real, f: Input -> real, ticks: seq<Input>, k: nat) {
    (exists i :: k <= i < |ticks| && m == f(ticks[i])) && forall i :: k <= i < |ticks| ==> f(ticks[i]) <= m
  }

  lemma LeastGrows(m: real, f: Input -> real, ticks: seq<Input>, k: nat)
    requires ticks != [] && k < |ticks| - 1 && IsLeast(m, f, ticks[..|ticks| - 1], k)
    ensures IsLeast(if f(ticks[|ticks| - 1]) < m then f(ticks[|ticks| - 1]) else m, f, ticks, k)
  {
    var init := ticks[..|ticks| - 1];
    var i :| k <= i < |init| && m == f(init[i]);
    assert ticks[i] == init[i];
    assert forall j :: k <= j < |init| ==> init[j] == ticks[j];
  }

  lemma GreatestGrows(m: real, f: Input -> real, ticks: seq<Input>, k: nat)
    requires ticks != [] && k < |ticks| - 1 && IsGreatest(m, f, ticks[..|ticks| - 1], k)
    ensures IsGreatest(if f(ticks[|ticks| - 1]) > m then f(ticks[|ticks| - 1]) else m, f, ticks, k)
  {
    var init := ticks[..|ticks| - 1];
    var i :| k <= i < |init| && m == f(init[i]);
    assert ticks[i] == init[i];
    assert forall j :: k <= j < |init| ==> init[j] == ticks[j];
  }

  ghost predicate Exact(m: Memory, dist: Distance, ticks: seq<Input>)
    requires ticks != []
  {
    var last, k := ticks[|ticks| - 1], PairSince(ticks);
    && m.waypoint == last.waypoint.key && m.following == FollowingKey(last)
    && IsLeast(m.minWaypoint, t => ToWaypoint(dist, t), ticks, k)
    && IsLeast(m.minFollowing, t => ToFollowing(dist, t), ticks, k)
    && IsGreatest(m.maxFollowing, t => ToFollowing(dist, t), ticks, k)
  }

  lemma OneTick(m: real, f: Input -> real, ticks: seq<Input>)
    requires ticks != [] && m == f(ticks[|ticks| - 1])
    ensures IsLeast(m, f, ticks, |ticks| - 1) && IsGreatest(m, f, ticks, |ticks| - 1)
  {}

  /** Over any run of ticks the memory is exact: the least distances to the waypoint and to the
      following one, and the greatest to the following one, since this pair became active. */
  lemma {:induction false} MemoryIsExact(dist: Distance, ticks: seq<Input>)
    requires NonNegative(dist) && ticks != []
    ensures Exact(Remembered(dist, ticks), dist, ticks)
  {
    var n := |ticks| - 1;
    var last, init := ticks[n], ticks[..n];
    var prev := Remembered(dist, init);
    var toW, toF := (t: Input) => ToWaypoint(dist, t), (t: Input) => ToFollowing(dist, t);
    if n == 0 {
    } else {
      MemoryIsExact(dist, init);
    }
    if n > 0 && SamePair(ticks[n - 1], last) {
      assert init[n - 1] == ticks[n - 1];
      var k := PairSince(init);
      LeastGrows(prev.minWaypoint, toW, ticks, k);
      LeastGrows(prev.minFollowing, toF, ticks, k);
      GreatestGrows(prev.maxFollowing, toF, ticks, k);
    } else {
      if n > 0 { assert init[n - 1] == ticks[n - 1]; }
      OneTick(toW(last), toW, ticks);
      OneTick(toF(last), toF, ticks);
    }
  }

  // ---- The decision without the memory ------------------------------------------------------

  function W(dist: Distance, ticks: seq<Input>, i: nat): real
    requires i < |ticks|
  {
    ToWaypoint(dist, ticks[i])
  }

  function F(dist: Distance, ticks: seq<Input>, i: nat): real
    requires i < |ticks|
  {
    ToFollowing(dist, ticks[i])
  }

  /** Inside the arrival radius. */
  predicate Inside(dist: Distance, ticks: seq<Input>)
    requires ticks != []
  {
    W(dist, ticks, |ticks| - 1) < ARRIVAL_M
  }

  /** Near the waypoint, farther from it than at some earlier tick of this pair, and by a margin
      closer to the following one than at every earlier tick, of which there is one. */
  predicate Rounded(dist: Distance, ticks: seq<Input>)
    requires ticks != []
  {
    var n, k := |ticks| - 1, PairSince(ticks);
    && ticks[n].following.Some? && W(dist, ticks, n) < NEAR_M
    && (exists i :: k <= i < n && W(dist, ticks, i) < W(dist, ticks, n))
    && (forall i :: k <= i < n ==> F(dist, ticks, n) + CLOSING_MARGIN_M < F(dist, ticks, i))
  }

  /** Much farther from the waypoint than at some tick of this pair, and much closer to the following
      one than at some tick of this pair. */
  predicate FarPast(dist: Distance, ticks: seq<Input>)
    requires ticks != []
  {
    var n, k := |ticks| - 1, PairSince(ticks);
    && ticks[n].following.Some?
    && (exists i :: k <= i <= n && W(dist, ticks, n) > W(dist, ticks, i) * LAST_PASS_FACTOR)
    && (exists i :: k <= i <= n && F(dist, ticks, n) + FOLLOWING_APPROACH_M < F(dist, ticks, i))
  }

  /** No waypoint follows, and the boat is far from one it came close to. */
  predicate Overshot(dist: Distance, ticks: seq<Input>)
    requires ticks != []
  {
    var n, k := |ticks| - 1, PairSince(ticks);
    && ticks[n].following.None? && W(dist, ticks, n) > ARRIVAL_M
    && exists i :: k <= i <= n && W(dist, ticks, i) <= LAST_PASS_MIN_M && W(dist, ticks, n) >= W(dist, ticks, i) * LAST_PASS_FACTOR
  }

  function Arrived(dist: Distance, ticks: seq<Input>): bool
    requires ticks != []
  {
    Decide(dist, ticks[|ticks| - 1], Remembered(dist, ticks[..|ticks| - 1])).arrived
  }

  /** The least distance to the following waypoint before this tick, or this tick's on a pair's first. */
  function Before(dist: Distance, ticks: seq<Input>): real
    requires ticks != []
  {
    var n := |ticks| - 1;
    if PairSince(ticks) == n then F(dist, ticks, n) else Remembered(dist, ticks[..n]).minFollowing
  }

  /** The rules, in terms of the memory before and after. */
  lemma RulesOf(dist: Distance, t: Input, prev: Memory)
    requires NonNegative(dist)
    ensures var dW, dF, d := ToWaypoint(dist, t), ToFollowing(dist, t), Decide(dist, t, prev);
      var before := if prev.waypoint == t.waypoint.key && prev.following == FollowingKey(t) then prev.minFollowing else dF;
      d.arrived ==
        if dW < ARRIVAL_M then true
        else if t.following.Some? then
          || (dW < NEAR_M && dW > d.memory.minWaypoint && dF + CLOSING_MARGIN_M < before)
          || (dW > d.memory.minWaypoint * LAST_PASS_FACTOR && dF + FOLLOWING_APPROACH_M < d.memory.maxFollowing)
        else d.memory.minWaypoint <= LAST_PASS_MIN_M && dW >= d.memory.minWaypoint * LAST_PASS_FACTOR && dW > ARRIVAL_M
  {}

  /** What is remembered is about the last tick's pair exactly when the tick before watched it too. */
  lemma PairIsKept(dist: Distance, ticks: seq<Input>)
    requires NonNegative(dist) && ticks != []
    ensures var n := |ticks| - 1; var t, prev := ticks[n], Remembered(dist, ticks[..n]);
      prev.waypoint == t.waypoint.key && prev.following == FollowingKey(t) <==> PairSince(ticks) < n
  {
    var n := |ticks| - 1;
    if n > 0 {
      MemoryIsExact(dist, ticks[..n]);
      assert ticks[..n][n - 1] == ticks[n - 1];
      hide Remembered, IsLeast, IsGreatest;
    }
  }

  lemma Rules(dist: Distance, ticks: seq<Input>)
    requires NonNegative(dist) && ticks != []
    ensures var n := |ticks| - 1; var dW, dF, m := W(dist, ticks, n), F(dist, ticks, n), Remembered(dist, ticks);
      Arrived(dist, ticks) ==
        if dW < ARRIVAL_M then true
        else if ticks[n].following.Some? then
          || (dW < NEAR_M && dW > m.minWaypoint && dF + CLOSING_MARGIN_M < Before(dist, ticks))
          || (dW > m.minWaypoint * LAST_PASS_FACTOR && dF + FOLLOWING_APPROACH_M < m.maxFollowing)
        else m.minWaypoint <= LAST_PASS_MIN_M && dW >= m.minWaypoint * LAST_PASS_FACTOR && dW > ARRIVAL_M
  {
    var n := |ticks| - 1;
    PairIsKept(dist, ticks);
    RulesOf(dist, ticks[n], Remembered(dist, ticks[..n]));
    hide Decide, PairSince, ToWaypoint, ToFollowing, FollowingKey;
  }

  lemma LeastW(dist: Distance, ticks: seq<Input>, m: Memory)
    requires ticks != [] && Exact(m, dist, ticks)
    ensures exists i :: PairSince(ticks) <= i < |ticks| && m.minWaypoint == W(dist, ticks, i)
    ensures forall i :: PairSince(ticks) <= i < |ticks| ==> m.minWaypoint <= W(dist, ticks, i)
  {
    hide PairSince, ToWaypoint, ToFollowing, IsGreatest;
    var i :| PairSince(ticks) <= i < |ticks| && m.minWaypoint == ToWaypoint(dist, ticks[i]);
    assert m.minWaypoint == W(dist, ticks, i);
  }

  lemma LeastF(dist: Distance, ticks: seq<Input>, m: Memory)
    requires ticks != [] && Exact(m, dist, ticks)
    ensures exists i :: PairSince(ticks) <= i < |ticks| && m.minFollowing == F(dist, ticks, i)
    ensures forall i :: PairSince(ticks) <= i < |ticks| ==> m.minFollowing <= F(dist, ticks, i)
  {
    hide PairSince, ToWaypoint, ToFollowing, IsGreatest;
    var i :| PairSince(ticks) <= i < |ticks| && m.minFollowing == ToFollowing(dist, ticks[i]);
    assert m.minFollowing == F(dist, ticks, i);
  }

  lemma GreatestF(dist: Distance, ticks: seq<Input>, m: Memory)
    requires ticks != [] && Exact(m, dist, ticks)
    ensures exists i :: PairSince(ticks) <= i < |ticks| && m.maxFollowing == F(dist, ticks, i)
    ensures forall i :: PairSince(ticks) <= i < |ticks| ==> F(dist, ticks, i) <= m.maxFollowing
  {
    hide PairSince, ToWaypoint, ToFollowing, IsLeast;
    var i :| PairSince(ticks) <= i < |ticks| && m.maxFollowing == ToFollowing(dist, ticks[i]);
    assert m.maxFollowing == F(dist, ticks, i);
  }

  lemma LeastAmong(dist: Distance, ticks: seq<Input>)
    requires NonNegative(dist) && ticks != []
    ensures var n, k, m := |ticks| - 1, PairSince(ticks), Remembered(dist, ticks);
      && (exists i :: k <= i <= n && m.minWaypoint == W(dist, ticks, i))
      && (forall i :: k <= i <= n ==> m.minWaypoint <= W(dist, ticks, i))
      && (exists i :: k <= i <= n && m.minFollowing == F(dist, ticks, i))
      && (exists i :: k <= i <= n && m.maxFollowing == F(dist, ticks, i))
      && (forall i :: k <= i <= n ==> m.minFollowing <= F(dist, ticks, i) <= m.maxFollowing)
  {
    hide Exact, Remembered, PairSince, W, F, NonNegative;
    var m := Remembered(dist, ticks);
    MemoryIsExact(dist, ticks);
    LeastW(dist, ticks, m);
    LeastF(dist, ticks, m);
    GreatestF(dist, ticks, m);
  }

  lemma BeforeLast(dist: Distance, ticks: seq<Input>)
    requires ticks != [] && PairSince(ticks) < |ticks| - 1
    ensures var n := |ticks| - 1;
      PairSince(ticks[..n]) == PairSince(ticks) && Before(dist, ticks) == Remembered(dist, ticks[..n]).minFollowing
    ensures forall j :: 0 <= j < |ticks| - 1 ==> F(dist, ticks[..|ticks| - 1], j) == F(dist, ticks, j)
  {
    hide Remembered, ToFollowing;
  }

  lemma BeforeIsLeast(dist: Distance, ticks: seq<Input>)
    requires NonNegative(dist) && ticks != []
    ensures var n, k := |ticks| - 1, PairSince(ticks);
      && (k == n ==> Before(dist, ticks) == F(dist, ticks, n))
      && (k < n ==> exists i :: k <= i < n && Before(dist, ticks) == F(dist, ticks, i))
      && (forall i :: k <= i < n ==> Before(dist, ticks) <= F(dist, ticks, i))
  {
    hide PairSince, Remembered, F, W, NonNegative;
    var n, k := |ticks| - 1, PairSince(ticks);
    if k < n {
      hide Before;
      var init := ticks[..n];
      BeforeLast(dist, ticks);
      LeastAmong(dist, init);
      var i :| k <= i <= n - 1 && Before(dist, ticks) == F(dist, init, i);
      assert Before(dist, ticks) == F(dist, ticks, i);
    }
  }

  lemma FartherThanLeast(dist: Distance, ticks: seq<Input>)
    requires NonNegative(dist) && ticks != []
    ensures var n, k := |ticks| - 1, PairSince(ticks);
      W(dist, ticks, n) > Remembered(dist, ticks).minWaypoint <==> exists i :: k <= i < n && W(dist, ticks, i) < W(dist, ticks, n)
  {
    hide W, Remembered, PairSince, Exact, NonNegative;
    var n, k, least := |ticks| - 1, PairSince(ticks), Remembered(dist, ticks).minWaypoint;
    MemoryIsExact(dist, ticks);
    LeastW(dist, ticks, Remembered(dist, ticks));
    var i :| k <= i <= n && least == W(dist, ticks, i);
    if least < W(dist, ticks, n) { assert k <= i < n && W(dist, ticks, i) < W(dist, ticks, n); }
  }

  lemma CloserThanBefore(dist: Distance, ticks: seq<Input>)
    requires NonNegative(dist) && ticks != [] && PairSince(ticks) < |ticks| - 1
    ensures var n, k := |ticks| - 1, PairSince(ticks); var near := F(dist, ticks, n) + CLOSING_MARGIN_M;
      near < Before(dist, ticks) <==> forall i :: k <= i < n ==> near < F(dist, ticks, i)
  {
    var n, k := |ticks| - 1, PairSince(ticks);
    BeforeIsLeast(dist, ticks);
    hide F, Before, Remembered, PairSince;
    var i :| k <= i < n && Before(dist, ticks) == F(dist, ticks, i);
  }

  lemma RoundedBy(dist: Distance, ticks: seq<Input>)
    requires NonNegative(dist) && ticks != []
    ensures var n := |ticks| - 1; var dW, dF := W(dist, ticks, n), F(dist, ticks, n);
      Rounded(dist, ticks) <==>
        && ticks[n].following.Some? && dW < NEAR_M
        && dW > Remembered(dist, ticks).minWaypoint && dF + CLOSING_MARGIN_M < Before(dist, ticks)
  {
    FartherThanLeast(dist, ticks);
    if PairSince(ticks) < |ticks| - 1 { CloserThanBefore(dist, ticks); }
    hide W, F, Remembered, PairSince;
  }

  lemma FarPastBy(dist: Distance, ticks: seq<Input>)
    requires NonNegative(dist) && ticks != []
    ensures var n := |ticks| - 1; var dW, dF, m := W(dist, ticks, n), F(dist, ticks, n), Remembered(dist, ticks);
      FarPast(dist, ticks) <==>
        && ticks[n].following.Some?
        && dW > m.minWaypoint * LAST_PASS_FACTOR && dF + FOLLOWING_APPROACH_M < m.maxFollowing
  {
    LeastAmong(dist, ticks);
    hide W, F, Remembered, PairSince;
  }

  lemma OvershotBy(dist: Distance, ticks: seq<Input>)
    requires NonNegative(dist) && ticks != []
    ensures var n := |ticks| - 1; var dW, m := W(dist, ticks, n), Remembered(dist, ticks);
      Overshot(dist, ticks) <==>
        && ticks[n].following.None? && dW > ARRIVAL_M
        && m.minWaypoint <= LAST_PASS_MIN_M && dW >= m.minWaypoint * LAST_PASS_FACTOR
  {
    LeastAmong(dist, ticks);
    hide W, F, Remembered, PairSince;
  }

  /** The rolling memory decides as the whole history of the pair would. */
  lemma DecidesByHistory(dist: Distance, ticks: seq<Input>)
    requires NonNegative(dist) && ticks != []
    ensures Arrived(dist, ticks)
      <==> Inside(dist, ticks) || Rounded(dist, ticks) || FarPast(dist, ticks) || Overshot(dist, ticks)
  {
    hide W, F, Before, Remembered, PairSince, Arrived, Rounded, FarPast, Overshot;
    Rules(dist, ticks);
    RoundedBy(dist, ticks);
    FarPastBy(dist, ticks);
    OvershotBy(dist, ticks);
  }

  /** On a pair's first tick only the arrival radius counts. */
  lemma FirstTick(dist: Distance, ticks: seq<Input>)
    requires NonNegative(dist) && ticks != [] && PairSince(ticks) == |ticks| - 1
    ensures Arrived(dist, ticks) <==> Inside(dist, ticks)
  {
    hide Arrived, PairSince, F, Rounded, FarPast, Overshot;
    DecidesByHistory(dist, ticks);
    assert W(dist, ticks, |ticks| - 1) >= 0.0;
    hide W, NonNegative;
    NothingEarlier(dist, ticks);
  }

  lemma NothingEarlier(dist: Distance, ticks: seq<Input>)
    requires ticks != [] && PairSince(ticks) == |ticks| - 1 && W(dist, ticks, |ticks| - 1) >= 0.0
    ensures !Rounded(dist, ticks) && !FarPast(dist, ticks) && !Overshot(dist, ticks)
  {
    hide PairSince, W, F;
    OneDistance(W(dist, ticks, |ticks| - 1));
    hide FarPast, Overshot;
    OnlyLast(dist, ticks);
  }

  lemma OneDistance(w: real)
    requires w >= 0.0
    ensures w <= w * LAST_PASS_FACTOR && (w <= LAST_PASS_MIN_M && w >= w * LAST_PASS_FACTOR ==> w <= ARRIVAL_M)
  {}

  lemma OnlyLast(dist: Distance, ticks: seq<Input>)
    requires ticks != [] && PairSince(ticks) == |ticks| - 1
    ensures var w := W(dist, ticks, |ticks| - 1);
      && (FarPast(dist, ticks) ==> w > w * LAST_PASS_FACTOR)
      && (Overshot(dist, ticks) ==> w > ARRIVAL_M && w <= LAST_PASS_MIN_M && w >= w * LAST_PASS_FACTOR)
  {
    hide PairSince, W, F;
    var n := |ticks| - 1;
    forall i: nat | n <= i <= n ensures W(dist, ticks, i) == W(dist, ticks, n) { assert i == n; }
  }
}
