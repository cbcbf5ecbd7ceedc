/** `decideRejoin` (rejoin.go): noticing that the boat has joined its route between two later
    waypoints. Distances and the projection on a leg are parameters. */
module Rejoins {
  import opened Common
  import opened NavGoals
  import opened Arrivals

  const MAX_CROSS_TRACK_M := 926.0
  const ENDPOINT_EXCLUSION_M := NEAR_M
  const CONFIRM_TICKS := 3
  const MIN_PROGRESS_M := 20.0

  /** `project(p, a, b)` is how far along the leg from a to b the boat is, as a fraction, and how far
      off it. */
  datatype Geo = Geo(dist: Distance, project: (Pos, Pos, Pos) -> (real, real))

  datatype Tick = Tick(boat: Pos, wps: seq<Mark>)

  datatype Track = Track(legStart: string, firstAlong: real, lastAlong: real, ticks: nat)

  const NO_TRACK := Track("", 0.0, 0.0, 0)

  datatype Verdict = Verdict(skip: nat, track: Track)

  /** The boat is between the waypoints of leg j, close to it and away from its ends. */
  predicate OnLeg(geo: Geo, t: Tick, j: nat)
    requires j + 1 < |t.wps|
  {
    var a, b := t.wps[j].pos, t.wps[j + 1].pos;
    var p := geo.project(t.boat, a, b);
    && 0.0 < p.0 < 1.0 && p.1 <= MAX_CROSS_TRACK_M
    && geo.dist(t.boat, a) >= ENDPOINT_EXCLUSION_M && geo.dist(t.boat, b) >= ENDPOINT_EXCLUSION_M
  }

  function Along(geo: Geo, t: Tick, j: nat): real
    requires j + 1 < |t.wps|
  {
    geo.project(t.boat, t.wps[j].pos, t.wps[j + 1].pos).0 * geo.dist(t.wps[j].pos, t.wps[j + 1].pos)
  }

  /** How far along a leg the boat is grows with the fraction, from nothing at the start of the leg to its
      length at the end. */
  lemma AlongGrows(geo: Geo, t: Tick, u: Tick, j: nat)
    requires j + 1 < |t.wps| && u.wps == t.wps
    ensures var a, b := t.wps[j].pos, t.wps[j + 1].pos;
      var p, q, length := geo.project(t.boat, a, b).0, geo.project(u.boat, a, b).0, geo.dist(a, b);
      && (p == 0.0 ==> Along(geo, t, j) == 0.0) && (p == 1.0 ==> Along(geo, t, j) == length)
      && (length > 0.0 ==> (Along(geo, t, j) <= Along(geo, u, j) <==> p <= q))
      && Along(geo, u, j) - Along(geo, t, j) == (q - p) * length
  {
    var a, b := t.wps[j].pos, t.wps[j + 1].pos;
    var p, q, length := geo.project(t.boat, a, b).0, geo.project(u.boat, a, b).0, geo.dist(a, b);
    assert (q - p) * length == q * length - p * length;
    if length > 0.0 { SameOrder(p, q, length); }
  }

  lemma SameOrder(p: real, q: real, s: real)
    requires s > 0.0
    ensures p * s <= q * s <==> p <= q
  {
    assert (q - p) * s == q * s - p * s;
    if p <= q { assert (q - p) * s >= 0.0; } else { assert (p - q) * s > 0.0; assert (p - q) * s == p * s - q * s; }
  }

  /** The furthest of the legs 1 .. limit that the boat is on. */
  function Furthest(geo: Geo, t: Tick, limit: nat): (r: Option<nat>)
    requires limit == 0 || limit + 1 < |t.wps|
    ensures r.Some? ==> 1 <= r.value <= limit && OnLeg(geo, t, r.value)
    ensures forall j :: (if r.Some? then r.value else 0) < j <= limit ==> !OnLeg(geo, t, j)
  {
    if limit == 0 then None
    else if OnLeg(geo, t, limit) then Some(limit)
    else Furthest(geo, t, limit - 1)
  }

  function BestLeg(geo: Geo, t: Tick): Option<nat> {
    if |t.wps| < 3 then None else Furthest(geo, t, |t.wps| - 2)
  }

  /** What one tick does to the track, before a skip makes it start afresh. */
  function Tracked(geo: Geo, t: Tick, j: nat, prev: Track): Track
    requires j + 1 < |t.wps|
  {
    if prev.legStart != t.wps[j].key then Track(t.wps[j].key, Along(geo, t, j), Along(geo, t, j), 1)
    else prev.(lastAlong := Along(geo, t, j), ticks := prev.ticks + 1)
  }

  predicate Confirmed(track: Track) {
    track.ticks >= CONFIRM_TICKS && track.lastAlong >= track.firstAlong + MIN_PROGRESS_M
  }

  function Judge(geo: Geo, t: Tick, prev: Track): Verdict {
    var best := BestLeg(geo, t);
    if best.None? then Verdict(0, NO_TRACK) else
    var track := Tracked(geo, t, best.value, prev);
    if Confirmed(track) then Verdict(best.value + 1, NO_TRACK) else Verdict(0, track)
  }

  lemma IsOnLeg(geo: Geo, t: Tick, j: nat)
    requires j + 1 < |t.wps|
    ensures var a, b := t.wps[j].pos, t.wps[j + 1].pos; var p := geo.project(t.boat, a, b);
      && (OnLeg(geo, t, j) <==> 0.0 < p.0 < 1.0 && p.1 <= 926.0 && geo.dist(t.boat, a) >= 500.0 && geo.dist(t.boat, b) >= 500.0)
      && Along(geo, t, j) == p.0 * geo.dist(a, b)
  {}

  /** `decideRejoin`: the scan over the legs keeps the last match. */
  method DecideRejoin(geo: Geo, t: Tick, prev: Track) returns (r: Verdict)
    ensures r == Judge(geo, t, prev)
  {
    hide OnLeg, Along;
    if |t.wps| < 3 { return Verdict(0, NO_TRACK); }
    var best: int, bestAlong := -1, 0.0;
    var j := 1;
    while j < |t.wps| - 1
      invariant 1 <= j <= |t.wps| - 1
      invariant Furthest(geo, t, j - 1) == if best < 0 then None else Some(best)
      invariant best >= 0 ==> best + 1 < |t.wps| && bestAlong == Along(geo, t, best)
    {
      var a, b := t.wps[j].pos, t.wps[j + 1].pos;
      var (along, off) := geo.project(t.boat, a, b);
      var between := !(along <= 0.0 || along >= 1.0) && !(off > 926.0);
      if between && !(geo.dist(t.boat, a) < 500.0) && !(geo.dist(t.boat, b) < 500.0) {
        best := j;
        bestAlong := along * geo.dist(a, b);
      }
      IsOnLeg(geo, t, j);
      j := j + 1;
    }
    if best < 0 { return Verdict(0, NO_TRACK); }
    var state := prev;
    if state.legStart != t.wps[best].key {
      state := Track(t.wps[best].key, bestAlong, bestAlong, 1);
    } else {
      state := state.(lastAlong := bestAlong, ticks := state.ticks + 1);
    }
    if state.ticks >= CONFIRM_TICKS && state.lastAlong >= state.firstAlong + MIN_PROGRESS_M {
      return Verdict(best + 1, NO_TRACK);
    }
    r := Verdict(0, state);
  }

  /** A skip passes the leg's start and everything before it, at least two waypoints, and leaves at
      least the one the leg leads to. */
  lemma SkipLeavesOne(geo: Geo, t: Tick, prev: Track)
    ensures var n := Judge(geo, t, prev).skip; n > 0 ==> 2 <= n < |t.wps|
  {}

  // ---- Over a run of ticks ------------------------------------------------------------------

  function VerdictAfter(geo: Geo, ticks: seq<Tick>): Verdict {
    if ticks == [] then Verdict(0, NO_TRACK)
    else Judge(geo, ticks[|ticks| - 1], VerdictAfter(geo, ticks[..|ticks| - 1]).track)
  }

  predicate Matches(geo: Geo, t: Tick) { BestLeg(geo, t).Some? }

  function LegKey(geo: Geo, t: Tick): Key
    requires Matches(geo, t)
  {
    t.wps[BestLeg(geo, t).value].key
  }

  function AlongLeg(geo: Geo, t: Tick): real
    requires Matches(geo, t)
  {
    Along(geo, t, BestLeg(geo, t).value)
  }

  predicate SameLeg(geo: Geo, t: Tick, u: Tick) {
    Matches(geo, t) && Matches(geo, u) && LegKey(geo, t) == LegKey(geo, u)
  }

  /** The first of the successive ticks up to the last that match its leg, since the last skip. */
  function StreakSince(geo: Geo, ticks: seq<Tick>): (k: nat)
    requires ticks != [] && Matches(geo, ticks[|ticks| - 1])
    ensures k < |ticks| && forall i :: k <= i < |ticks| ==> SameLeg(geo, ticks[i], ticks[|ticks| - 1])
    decreases |ticks|, 0
  {
    hide Skips, BestLeg, LegKey;
    var n := |ticks| - 1;
    if n == 0 || !SameLeg(geo, ticks[n - 1], ticks[n]) || Skips(geo, ticks[..n]) then n
    else StreakSince(geo, ticks[..n])
  }

  /** Three or more successive matches of one leg, with at least 20 m gained along it. */
  predicate Skips(geo: Geo, ticks: seq<Tick>)
    decreases |ticks|, 1
  {
    && ticks != [] && Matches(geo, ticks[|ticks| - 1])
    && var k := StreakSince(geo, ticks);
       && |ticks| - k >= CONFIRM_TICKS
       && AlongLeg(geo, ticks[|ticks| - 1]) >= AlongLeg(geo, ticks[k]) + MIN_PROGRESS_M
  }

  /** What the track should be after a run: the whole streak, or nothing. */
  function TrackOf(geo: Geo, ticks: seq<Tick>): Track {
    if ticks == [] || !Matches(geo, ticks[|ticks| - 1]) || Skips(geo, ticks) then NO_TRACK else
    var last, k := ticks[|ticks| - 1], StreakSince(geo, ticks);
    Track(LegKey(geo, last), AlongLeg(geo, ticks[k]), AlongLeg(geo, last), |ticks| - k)
  }

  /** Over any run of ticks the rolling track decides as the whole history would: it skips exactly on
      a confirmed streak, and otherwise it is that streak. */
  lemma {:induction false} SkipsOnConfirmedStreak(geo: Geo, ticks: seq<Tick>)
    ensures VerdictAfter(geo, ticks).track == TrackOf(geo, ticks)
    ensures VerdictAfter(geo, ticks).skip > 0 <==> Skips(geo, ticks)
    decreases |ticks|
  {
    if ticks == [] {
    } else {
      var n := |ticks| - 1;
      var init, last := ticks[..n], ticks[n];
      SkipsOnConfirmedStreak(geo, init);
      if Matches(geo, last) { StreakStep(geo, ticks); }
    }
  }

  /** One tick extends the streak that the track holds, or starts one. */
  lemma StreakStep(geo: Geo, ticks: seq<Tick>)
    requires ticks != [] && Matches(geo, ticks[|ticks| - 1])
    ensures var n := |ticks| - 1; var last, k := ticks[n], StreakSince(geo, ticks);
      Tracked(geo, last, BestLeg(geo, last).value, TrackOf(geo, ticks[..n]))
      == Track(LegKey(geo, last), AlongLeg(geo, ticks[k]), AlongLeg(geo, last), |ticks| - k)
  {
    hide OnLeg, Along, BestLeg, Skips;
    var n := |ticks| - 1;
    var init := ticks[..n];
    if n > 0 { assert init[n - 1] == ticks[n - 1]; }
    if n > 0 && SameLeg(geo, ticks[n - 1], ticks[n]) && !Skips(geo, init) {
      assert init[StreakSince(geo, init)] == ticks[StreakSince(geo, init)];
    }
  }
}
