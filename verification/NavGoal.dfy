/** The navigation goal and its store (nav_store.go), and the client calls and poller update that
    change it (nav_service.go, nav.go). */
module NavGoals {
  import opened Common

  /** Goal start and finish times: distinct starts have distinct times. */
  type Time = nat

  datatype Pos = Pos(lat: real, lng: real)

  datatype GoalState = Active | Suspended | Succeeded | Failed | Canceled

  datatype Goal = Goal(waypoints: seq<Pos>, index: int, loop: bool, lap: int, state: GoalState,
                       suspendReason: string, startedAt: Time, finishedAt: Option<Time>) {
    predicate Open() { state == Active || state == Suspended }

    /** The part of the goal not yet reached. */
    function Remaining(): seq<Pos>
      requires index >= 0
    {
      if index >= |waypoints| then [] else waypoints[index..]
    }

    /** How many waypoints have been passed, over all laps. */
    function Travelled(): int { lap * |waypoints| + index }

    /** `advance`. */
    function Advanced(n: nat, now: Time): Goal {
      if index + n < |waypoints| then this.(index := index + n)
      else if loop && |waypoints| > 0 then this.(index := 0, lap := lap + 1)
      else this.(index := |waypoints|, state := Succeeded, finishedAt := Some(now))
    }

    /** `finish`. */
    function Finished(to: GoalState, now: Time): Goal {
      this.(state := to, suspendReason := "", finishedAt := Some(now))
    }

    /** What holds of every goal this service makes. */
    predicate Sound() {
      && 0 <= index <= |waypoints| && lap >= 0 && |waypoints| > 0
      && (Open() ==> index < |waypoints|)
      && (finishedAt.Some? <==> !Open())
      && (state != Suspended ==> suspendReason == "")
    }

    /** Advancing a sound active goal keeps it sound, and it is finished exactly when the last
        waypoint of a goal that does not loop is reached. */
    lemma AdvanceKeepsSound(n: nat, now: Time)
      requires Sound() && state == Active
      ensures Advanced(n, now).Sound()
      ensures Advanced(n, now).Open() <==> loop || index + n < |waypoints|
    {}

    /** The count of waypoints passed grows by exactly n when, and only when, the advance does not
        go past the last waypoint: beyond it a lap starts over and anything else stops short. */
    lemma AdvanceTravels(n: nat, now: Time)
      requires Sound()
      ensures Advanced(n, now).Travelled() == Travelled() + n <==> index + n <= |waypoints|
      ensures Advanced(n, now).waypoints == waypoints && Advanced(n, now).startedAt == startedAt
    {
      Distribute(lap, 1, |waypoints|);
    }
  }

  /** The stored goal, changed in place. */
  class NavGoal {
    var waypoints: seq<Pos>
    var index: int
    var loop: bool
    var lap: int
    var state: GoalState
    var suspendReason: string
    var startedAt: Time
    var finishedAt: Option<Time>

    function Value(): Goal
      reads this
    {
      Goal(waypoints, index, loop, lap, state, suspendReason, startedAt, finishedAt)
    }

    constructor (g: Goal)
      ensures Value() == g
    {
      waypoints, index, loop, lap := g.waypoints, g.index, g.loop, g.lap;
      state, suspendReason, startedAt, finishedAt := g.state, g.suspendReason, g.startedAt, g.finishedAt;
    }

    method Advance(n: nat, now: Time)
      modifies this
      ensures Value() == old(Value()).Advanced(n, now)
    {
      index := index + n;
      if index < |waypoints| { return; }
      if loop && |waypoints| > 0 {
        index := 0;
        lap := lap + 1;
        return;
      }
      index := |waypoints|;
      state := Succeeded;
      finishedAt := Some(now);
    }

    method Finish(to: GoalState, now: Time)
      modifies this
      ensures Value() == old(Value()).Finished(to, now)
    {
      state := to;
      suspendReason := "";
      finishedAt := Some(now);
    }
  }

  // ---- Reading an old file ------------------------------------------------------------------

  datatype LegacyWaypoint = LegacyWaypoint(pos: Pos, visited: bool)

  function Points(raw: seq<LegacyWaypoint>): (ps: seq<Pos>)
    ensures |ps| == |raw| && forall i :: 0 <= i < |raw| ==> ps[i] == raw[i].pos
  {
    seq(|raw|, i requires 0 <= i < |raw| => raw[i].pos)
  }

  function Unvisited(raw: seq<LegacyWaypoint>): (r: seq<LegacyWaypoint>)
    ensures forall i :: 0 <= i < |r| ==> !r[i].visited
  {
    if raw == [] then [] else
    Unvisited(raw[..|raw| - 1]) + if raw[|raw| - 1].visited then [] else [raw[|raw| - 1]]
  }

  predicate AllVisited(raw: seq<LegacyWaypoint>) { forall i :: 0 <= i < |raw| ==> raw[i].visited }

  /** How many visited waypoints lead the list. */
  function Leading(raw: seq<LegacyWaypoint>): (k: nat)
    ensures k <= |raw| && AllVisited(raw[..k]) && (k < |raw| ==> !raw[k].visited)
    ensures k == |raw| <==> AllVisited(raw)
  {
    if raw == [] || !raw[0].visited then 0 else
    var k := Leading(raw[1..]);
    assert forall i :: 0 < i < |raw| ==> raw[i] == raw[1..][i - 1];
    k + 1
  }

  /** No goal when everything was visited; otherwise an active one made of the visited waypoints that
      lead the list, all reached, and then every unvisited one in order. */
  function LegacyGoal(raw: seq<LegacyWaypoint>, now: Time): (r: Option<Goal>)
    ensures r.None? <==> AllVisited(raw)
  {
    var k := Leading(raw);
    if k == |raw| then None
    else Some(Goal(Points(raw[..k]) + Points(Unvisited(raw[k..])), k, false, 0, Active, "", now, None))
  }

  /** Such a goal is sound, and what remains of it is every unvisited waypoint. */
  lemma LegacyGoalIsSound(raw: seq<LegacyWaypoint>, now: Time)
    requires LegacyGoal(raw, now).Some?
    ensures LegacyGoal(raw, now).value.Sound() && LegacyGoal(raw, now).value.Remaining() == Points(Unvisited(raw))
  {
    var k := Leading(raw);
    LeadingVisited(raw, k);
    FirstUnvisited(raw[k..]);
  }

  lemma {:induction false} LeadingIs(raw: seq<LegacyWaypoint>, k: nat)
    requires k < |raw| && AllVisited(raw[..k]) && !raw[k].visited
    ensures Leading(raw) == k
  {
    if k == 0 {
    } else {
      assert raw[0] == raw[..k][0] && raw[1..][..k - 1] == raw[..k][1..];
      LeadingIs(raw[1..], k - 1);
    }
  }

  /** `goalFromLegacy`. */
  method GoalFromLegacy(raw: seq<LegacyWaypoint>, now: Time) returns (r: Option<Goal>)
    ensures r == LegacyGoal(raw, now)
  {
    var waypoints: seq<Pos>, index, seenUnvisited := [], 0, false;
    var i := 0;
    while i < |raw|
      invariant 0 <= i <= |raw| && 0 <= index <= i
      invariant AllVisited(raw[..index])
      invariant !seenUnvisited ==> index == i && waypoints == Points(raw[..i])
      invariant seenUnvisited ==> index < i && !raw[index].visited
      invariant seenUnvisited ==> waypoints == Points(raw[..index]) + Points(Unvisited(raw[index..i]))
    {
      hide Unvisited, Points;
      var w := raw[i];
      LegacyStep(raw, index, i);
      if !w.visited || !seenUnvisited {
        if w.visited { index := index + 1; } else { seenUnvisited := true; }
        waypoints := waypoints + [w.pos];
      }
      i := i + 1;
    }
    if !seenUnvisited {
      assert raw[..index] == raw;
      return None;
    }
    assert raw[index..i] == raw[index..];
    LeadingIs(raw, index);
    r := Some(Goal(waypoints, index, false, 0, Active, "", now, None));
  }

  lemma LegacyStep(raw: seq<LegacyWaypoint>, index: nat, i: nat)
    requires index <= i < |raw|
    ensures Points(raw[..i + 1]) == Points(raw[..i]) + [raw[i].pos]
    ensures raw[index].visited && AllVisited(raw[..index]) ==> AllVisited(raw[..index + 1])
    ensures Points(Unvisited(raw[index..i + 1]))
         == Points(Unvisited(raw[index..i])) + if raw[i].visited then [] else [raw[i].pos]
    ensures Points(Unvisited(raw[i..i])) == []
  {
    assert raw[index..i + 1][..i - index] == raw[index..i];
  }

  lemma {:induction false} FirstUnvisited(raw: seq<LegacyWaypoint>)
    requires raw != [] && !raw[0].visited
    ensures Unvisited(raw) != []
  {
    if |raw| <= 1 {
    } else {
      FirstUnvisited(raw[..|raw| - 1]);
    }
  }

  lemma {:induction false} LeadingVisited(raw: seq<LegacyWaypoint>, k: nat)
    requires k <= |raw| && AllVisited(raw[..k])
    ensures Unvisited(raw) == Unvisited(raw[k..])
  {
    if |raw| > k {
      assert raw[..|raw| - 1][..k] == raw[..k] && raw[..|raw| - 1][k..] == raw[k..][..|raw| - k - 1];
      LeadingVisited(raw[..|raw| - 1], k);
    } else if raw != [] {
      assert raw[..|raw| - 1][..k - 1] == raw[..k - 1];
      LeadingVisited(raw[..|raw| - 1], k - 1);
      assert raw[..|raw| - 1][k - 1..] == [] && raw[k..] == [] && raw[..k][k - 1].visited;
    }
  }

  // ---- The store ----------------------------------------------------------------------------

  datatype NavState = NavState(locations: map<string, Pos>, goal: Option<Goal>)

  /** What an edit leaves behind, perhaps half done when it reports an error. */
  datatype Edit = Edit(after: NavState, err: bool)

  /** `startGoal`'s edit: a suspended goal must be canceled first. */
  function StartEdit(st: NavState, g: Goal): Edit {
    if st.goal.Some? && st.goal.value.state == Suspended then Edit(st, true)
    else Edit(st.(goal := Some(g)), false)
  }

  function SuspendEdit(st: NavState, reason: string): Edit {
    if st.goal.None? || st.goal.value.state != Active then Edit(st, true)
    else Edit(st.(goal := Some(st.goal.value.(state := Suspended, suspendReason := reason))), false)
  }

  function ResumeEdit(st: NavState): Edit {
    if st.goal.None? || st.goal.value.state != Suspended then Edit(st, true)
    else Edit(st.(goal := Some(st.goal.value.(state := Active, suspendReason := ""))), false)
  }

  function CancelEdit(st: NavState, now: Time): Edit {
    if st.goal.Some? && st.goal.value.Open()
    then Edit(st.(goal := Some(st.goal.value.Finished(Canceled, now))), false)
    else Edit(st, false)
  }

  /** The poller's update applies to the goal it read, still active and not moved on. */
  predicate StillCurrent(st: NavState, startedAt: Time, fromIndex: int) {
    && st.goal.Some? && st.goal.value.state == Active
    && st.goal.value.startedAt == startedAt && st.goal.value.index == fromIndex
  }

  function AdvanceEdit(st: NavState, startedAt: Time, fromIndex: int, n: nat, now: Time): Edit {
    if StillCurrent(st, startedAt, fromIndex)
    then Edit(st.(goal := Some(st.goal.value.Advanced(n, now))), false)
    else Edit(st, false)
  }

  /** Suspending an active goal and resuming it leaves it as it was. */
  lemma SuspendThenResume(st: NavState, reason: string)
    requires st.goal.Some? && st.goal.value.state == Active && st.goal.value.suspendReason == ""
    ensures var held := SuspendEdit(st, reason);
      && !held.err && !ResumeEdit(held.after).err && ResumeEdit(held.after).after == st
      && held.after.goal.value.state == Suspended && held.after.goal.value.suspendReason == reason
  {}

  predicate SameWay(g: Goal, h: Goal) {
    g.waypoints == h.waypoints && g.index == h.index && g.loop == h.loop && g.lap == h.lap && g.startedAt == h.startedAt
  }

  /** Suspending, resuming and canceling never lose the goal's place, nor a saved location, and each applies
      to the states it should: an active goal, a suspended one, and either. */
  lemma EditsKeepPlace(st: NavState, reason: string, now: Time)
    requires st.goal.Some?
    ensures var g := st.goal.value; var held, resumed, ended := SuspendEdit(st, reason), ResumeEdit(st), CancelEdit(st, now);
      && (held.err <==> g.state != Active) && (resumed.err <==> g.state != Suspended) && !ended.err
      && held.after.locations == resumed.after.locations == ended.after.locations == st.locations
      && held.after.goal.Some? && resumed.after.goal.Some? && ended.after.goal.Some?
      && SameWay(held.after.goal.value, g) && SameWay(resumed.after.goal.value, g) && SameWay(ended.after.goal.value, g)
      && (g.state == Suspended ==> resumed.after.goal.value.state == Active && resumed.after.goal.value.suspendReason == "")
      && (if g.state == Active || g.state == Suspended
          then ended.after.goal.value.state == Canceled && ended.after.goal.value.finishedAt == Some(now)
               && ended.after.goal.value.suspendReason == ""
          else ended.after == st)
  {}

  /** A goal may be started unless a suspended one is in the way, and it replaces whatever else there is. */
  lemma StartReplaces(st: NavState, g: Goal)
    ensures StartEdit(st, g).err <==> st.goal.Some? && st.goal.value.state == Suspended
    ensures !StartEdit(st, g).err ==> StartEdit(st, g).after.goal == Some(g) && StartEdit(st, g).after.locations == st.locations
  {}

  /** The state after an edit: as edited when the edit and the write both succeed, and otherwise as
      it was, whatever the edit left behind. */
  function Kept(st: NavState, edit: Edit, written: bool): NavState {
    if edit.err || !written then st else edit.after
  }

  // ---- The file -----------------------------------------------------------------------------

  /** The state file: none yet, one in the format before version 2, or a saved state. */
  datatype File = Absent | Legacy(raw: seq<LegacyWaypoint>) | Saved(st: NavState)

  const EMPTY := NavState(map[], None)

  /** `load`: a list in the old format becomes a goal that starts now, and the cursor of a saved goal is
      brought back into its list. */
  function Loaded(file: File, now: Time): NavState {
    match file
    case Absent => EMPTY
    case Legacy(raw) => EMPTY.(goal := LegacyGoal(raw, now))
    case Saved(st) => if st.goal.None? then st else st.(goal := Some(InList(st.goal.value)))
  }

  function InList(g: Goal): Goal {
    g.(index := if g.index < 0 then 0 else if g.index > |g.waypoints| then |g.waypoints| else g.index)
  }

  /** The file says what the memory says: a restart, at whatever time, would give the same state. */
  predicate Synced(state: NavState, file: File) {
    match file
    case Absent => state == EMPTY
    case Legacy(raw) => state == EMPTY && AllVisited(raw)
    case Saved(st) => st == state
  }

  class DiskNavStore {
    var state: NavState
    var file: File

    /** `newDiskNavStore`, with what the file holds. */
    constructor (found: File, now: Time)
      ensures state == Loaded(found, now) && file == found
    {
      new;
      file := found;
      state := EMPTY;
      match found {
        case Absent =>
        case Legacy(raw) =>
          var g := GoalFromLegacy(raw, now);
          state := EMPTY.(goal := g);
        case Saved(st) =>
          state := st;
          if state.goal.Some? {
            var g := state.goal.value;
            if g.index < 0 { g := g.(index := 0); }
            if g.index > |g.waypoints| { g := g.(index := |g.waypoints|); }
            state := state.(goal := Some(g));
          }
      }
    }

    /** `mutate`: `written` is whether writing the file succeeds, which replaces it whole. */
    method Mutate(fn: NavState -> Edit, written: bool) returns (err: bool)
      modifies this
      ensures state == Kept(old(state), fn(old(state)), written)
      ensures file == if err then old(file) else Saved(state)
      ensures err <==> fn(old(state)).err || !written
      ensures old(Synced(state, file)) ==> Synced(state, file)
    {
      var prev := state;
      var edit := fn(state);
      state := edit.after;
      if edit.err {
        state := prev;
        return true;
      }
      if !written {
        state := prev;
        return true;
      }
      file := Saved(state);
      err := false;
    }

    /** `startGoal`. */
    method StartGoal(waypoints: seq<Pos>, index: int, loop: bool, startedAt: Time, written: bool) returns (err: bool)
      modifies this
      ensures var valid := waypoints != [] && 0 <= index < |waypoints|;
        var g := Goal(waypoints, index, loop, 0, Active, "", startedAt, None);
        && state == (if valid then Kept(old(state), StartEdit(old(state), g), written) else old(state))
        && (err <==> !valid || (old(state).goal.Some? && old(state).goal.value.state == Suspended) || !written)
        && state == (if err then old(state) else old(state).(goal := Some(g)))
        && file == if err then old(file) else Saved(state)
      ensures old(Synced(state, file)) ==> Synced(state, file)
    {
      if waypoints == [] { return true; }
      if index < 0 || index >= |waypoints| { return true; }
      var g := Goal(waypoints, index, loop, 0, Active, "", startedAt, None);
      err := Mutate(st => StartEdit(st, g), written);
    }

    /** `Suspend`. */
    method Suspend(reason: string, written: bool) returns (err: bool)
      modifies this
      ensures state == Kept(old(state), SuspendEdit(old(state), reason), written)
      ensures err <==> !(old(state).goal.Some? && old(state).goal.value.state == Active) || !written
      ensures state == if err then old(state)
                       else old(state).(goal := Some(old(state).goal.value.(state := Suspended, suspendReason := reason)))
      ensures old(Synced(state, file)) ==> Synced(state, file)
    {
      err := Mutate(st => SuspendEdit(st, reason), written);
    }

    /** `Resume`. */
    method Resume(written: bool) returns (err: bool)
      modifies this
      ensures state == Kept(old(state), ResumeEdit(old(state)), written)
      ensures err <==> !(old(state).goal.Some? && old(state).goal.value.state == Suspended) || !written
      ensures state == if err then old(state)
                       else old(state).(goal := Some(old(state).goal.value.(state := Active, suspendReason := "")))
      ensures old(Synced(state, file)) ==> Synced(state, file)
    {
      err := Mutate(ResumeEdit, written);
    }

    /** `Cancel`. */
    method Cancel(now: Time, written: bool) returns (err: bool)
      modifies this
      ensures state == Kept(old(state), CancelEdit(old(state), now), written) && err == !written
      ensures var g := old(state).goal;
        state == if g.Some? && (g.value.state == Active || g.value.state == Suspended) && written
                 then old(state).(goal := Some(g.value.(state := Canceled, suspendReason := "", finishedAt := Some(now))))
                 else old(state)
      ensures old(Synced(state, file)) ==> Synced(state, file)
    {
      err := Mutate(st => CancelEdit(st, now), written);
    }

    /** `advanceGoal`. */
    method AdvanceGoal(startedAt: Time, fromIndex: int, n: nat, now: Time, written: bool) returns (applied: bool, err: bool)
      modifies this
      ensures state == Kept(old(state), AdvanceEdit(old(state), startedAt, fromIndex, n, now), written)
      ensures err == !written
      ensures var g := old(state).goal;
        && (applied <==> g.Some? && g.value.state == Active && g.value.startedAt == startedAt && g.value.index == fromIndex)
        && (applied && !err ==> state == old(state).(goal := Some(g.value.Advanced(n, now))))
      ensures !applied || err ==> state == old(state)
      ensures old(Synced(state, file)) ==> Synced(state, file)
    {
      applied := StillCurrent(state, startedAt, fromIndex);
      err := Mutate(st => AdvanceEdit(st, startedAt, fromIndex, n, now), written);
    }
  }
}
