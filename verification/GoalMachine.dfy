/** Every interleaving of the navigation clients, the arrival poller, failed writes and restarts, as
    steps of the stored goal (nav_store.go, nav_service.go, nav.go). */
module GoalMachine {
  import opened Common
  import opened NavGoals

  /** What the poller has read and decided but not yet applied: the goal, and how many waypoints it
      found reached. */
  datatype Plan = Plan(goal: Goal, n: nat)

  datatype World = World(memory: NavState, file: File, plan: Option<Plan>, used: set<Time>)

  /** A client call with the outcome of its write, one half of a poller tick, or a restart. */
  datatype Step =
    | Start(waypoints: seq<Pos>, index: int, loop: bool, startedAt: Time, written: bool)
    | Suspend(reason: string, written: bool)
    | Resume(written: bool)
    | Cancel(now: Time, written: bool)
    | EditLocations(locations: map<string, Pos>, err: bool, written: bool)
    | Read(n: nat)
    | Apply(now: Time, written: bool)
    | Restart(now: Time)

  /** Start times are distinct. The poller is one goroutine: it reads, then applies, and it plans
      either the next waypoint or, when rejoining a route, some but not all of those remaining. */
  predicate Allowed(w: World, s: Step) {
    match s
    case Start(_, _, _, startedAt, _) => startedAt !in w.used
    case Read(n) => w.plan.None? && (w.memory.goal.Some? && w.memory.goal.value.Sound() ==>
      n == 1 || 1 <= n < |w.memory.goal.value.Remaining()|)
    case Apply(_, _) => w.plan.Some?
    case Restart(now) => now !in w.used
    case _ => true
  }

  function Mutated(w: World, edit: Edit, written: bool): World {
    var st := Kept(w.memory, edit, written);
    w.(memory := st, file := if edit.err || !written then w.file else Saved(st))
  }

  function After(w: World, s: Step): World {
    match s
    case Start(waypoints, index, loop, startedAt, written) =>
      var w' := w.(used := w.used + {startedAt});
      if waypoints == [] || index < 0 || index >= |waypoints| then w'
      else Mutated(w', StartEdit(w.memory, Goal(waypoints, index, loop, 0, Active, "", startedAt, None)), written)
    case Suspend(reason, written) => Mutated(w, SuspendEdit(w.memory, reason), written)
    case Resume(written) => Mutated(w, ResumeEdit(w.memory), written)
    case Cancel(now, written) => Mutated(w, CancelEdit(w.memory, now), written)
    case EditLocations(locations, err, written) => Mutated(w, Edit(w.memory.(locations := locations), err), written)
    case Read(n) =>
      if w.memory.goal.Some? && w.memory.goal.value.state == Active && w.memory.goal.value.index >= 0
         && w.memory.goal.value.Remaining() != []
      then w.(plan := Some(Plan(w.memory.goal.value, n))) else w
    case Apply(now, written) =>
      if w.plan.None? then w else
      var p := w.plan.value;
      Mutated(w, AdvanceEdit(w.memory, p.goal.startedAt, p.goal.index, p.n, now), written).(plan := None)
    case Restart(now) => w.(memory := Loaded(w.file, now), plan := None, used := w.used + {now})
  }

  /** The pursuit of one goal: everything but whether it is suspended, finished or still open. */
  predicate SamePursuit(g: Goal, h: Goal) {
    g.startedAt == h.startedAt && g.waypoints == h.waypoints && g.loop == h.loop && g.index == h.index && g.lap == h.lap
  }

  predicate PlanFits(w: World, p: Plan) {
    && p.goal.Sound() && p.goal.state == Active && p.goal.startedAt in w.used
    && 1 <= p.n && p.goal.index + p.n <= |p.goal.waypoints|
    && (w.memory.goal.Some? && w.memory.goal.value.startedAt == p.goal.startedAt
        ==> SamePursuit(p.goal, w.memory.goal.value))
  }

  /** The memory is what the file says, except that a list in the old format, until something is
      written, says everything but when its goal started. */
  predicate FileFits(w: World) {
    if w.file.Legacy? && !AllVisited(w.file.raw)
    then w.memory.goal.Some? && w.memory == Loaded(w.file, w.memory.goal.value.startedAt)
    else Synced(w.memory, w.file)
  }

  predicate GoalFits(w: World) {
    w.memory.goal.Some? ==> w.memory.goal.value.Sound() && w.memory.goal.value.startedAt in w.used
  }

  ghost predicate Inv(w: World) {
    && FileFits(w) && GoalFits(w)
    && (w.plan.Some? ==> PlanFits(w, w.plan.value))
  }

  /** The service as it starts on what the file holds. */
  function Initial(file: File, now: Time, used: set<Time>): World { World(Loaded(file, now), file, None, used) }

  /** It may start without a file, on a sound saved state, or on any list in the old format. Memory and
      file agree at once except where such a list has an unvisited waypoint. */
  lemma StartsWithInv(file: File, now: Time, used: set<Time>)
    requires now in used
    requires file.Saved? && file.st.goal.Some? ==> file.st.goal.value.Sound() && file.st.goal.value.startedAt in used
    ensures Inv(Initial(file, now, used))
    ensures Synced(Loaded(file, now), file) <==> !(file.Legacy? && !AllVisited(file.raw))
  {
    if file.Legacy? && LegacyGoal(file.raw, now).Some? { LegacyGoalIsSound(file.raw, now); }
  }

  /** A legal run: each step is allowed where it is taken. */
  ghost predicate Run(w: World, steps: seq<Step>)
    decreases |steps|
  {
    steps != [] ==> Allowed(w, steps[0]) && Run(After(w, steps[0]), steps[1..])
  }

  function End(w: World, steps: seq<Step>): World
    decreases |steps|
  {
    if steps == [] then w else End(After(w, steps[0]), steps[1..])
  }

  // ---- Invariants ---------------------------------------------------------------------------

  /** Whatever happens, the goal is sound, memory and file fit, and a plan is about the goal as it still
      is unless another has replaced it. */
  lemma StepKeepsInv(w: World, s: Step)
    requires Inv(w) && Allowed(w, s)
    ensures Inv(After(w, s))
  {
    hide FileFits, GoalFits, PlanFits, After;
    StepKeepsFile(w, s);
    StepKeepsGoal(w, s);
    StepKeepsPlan(w, s);
  }

  lemma StepKeepsFile(w: World, s: Step)
    requires Inv(w) && Allowed(w, s)
    ensures FileFits(After(w, s))
  {
    hide PlanFits, Goal.Advanced;
    StepKeepsGoal(w, s);
  }

  lemma StepKeepsGoal(w: World, s: Step)
    requires Inv(w) && Allowed(w, s)
    ensures GoalFits(After(w, s))
  {
    if s.Apply? && StillCurrent(w.memory, w.plan.value.goal.startedAt, w.plan.value.goal.index) {
      w.memory.goal.value.AdvanceKeepsSound(w.plan.value.n, s.now);
    } else if s.Restart? && w.file.Legacy? && LegacyGoal(w.file.raw, s.now).Some? {
      LegacyGoalIsSound(w.file.raw, s.now);
    }
  }

  lemma StepKeepsPlan(w: World, s: Step)
    requires Inv(w) && Allowed(w, s)
    ensures After(w, s).plan.Some? ==> PlanFits(After(w, s), After(w, s).plan.value)
  {
    hide FileFits, Goal.Advanced;
  }

  lemma {:induction false} RunKeepsInv(w: World, steps: seq<Step>)
    requires Inv(w) && Run(w, steps)
    ensures Inv(End(w, steps))
    decreases |steps|
  {
    hide Inv, Allowed, After;
    if steps == [] {
    } else {
      StepKeepsInv(w, steps[0]);
      RunKeepsInv(After(w, steps[0]), steps[1..]);
    }
  }

  /** A restart finds the state as it was left exactly when the memory is what the file says; a list in
      the old format that was never rewritten gives the same goal with a new start. */
  lemma RestartLosesNothing(w: World, now: Time)
    requires Inv(w) && now !in w.used
    ensures After(w, Restart(now)).memory == w.memory <==> Synced(w.memory, w.file)
    ensures w.memory.goal.Some? ==>
      After(w, Restart(now)).memory in {w.memory, w.memory.(goal := Some(w.memory.goal.value.(startedAt := now)))}
  {}

  /** A step rewrites the file: its edit succeeds and so does the write. A tick that comes too late does
      so too. */
  predicate Writes(w: World, s: Step) {
    match s
    case Start(waypoints, index, loop, startedAt, written) =>
      && waypoints != [] && 0 <= index < |waypoints| && written
      && !StartEdit(w.memory, Goal(waypoints, index, loop, 0, Active, "", startedAt, None)).err
    case Suspend(reason, written) => !SuspendEdit(w.memory, reason).err && written
    case Resume(written) => !ResumeEdit(w.memory).err && written
    case Cancel(_, written) => written
    case EditLocations(_, err, written) => !err && written
    case Apply(_, written) => w.plan.Some? && written
    case _ => false
  }

  predicate WritesIn(w: World, steps: seq<Step>)
    decreases |steps|
  {
    steps != [] && (Writes(w, steps[0]) || WritesIn(After(w, steps[0]), steps[1..]))
  }

  lemma StepSyncs(w: World, s: Step)
    requires Inv(w) && Allowed(w, s)
    ensures Synced(After(w, s).memory, After(w, s).file) <==> Synced(w.memory, w.file) || Writes(w, s)
  {
    StepKeepsInv(w, s);
  }

  /** Memory equals the file after any run, however many writes fail in it, if and only if it did at the
      start or something was written: for a list in the old format, from the first write on. */
  lemma {:induction false} SyncedOnceWritten(w: World, steps: seq<Step>)
    requires Inv(w) && Run(w, steps)
    ensures Synced(End(w, steps).memory, End(w, steps).file) <==> Synced(w.memory, w.file) || WritesIn(w, steps)
    decreases |steps|
  {
    hide Inv, Synced, Writes, Allowed, After;
    if steps == [] {
    } else {
      StepKeepsInv(w, steps[0]);
      StepSyncs(w, steps[0]);
      SyncedOnceWritten(After(w, steps[0]), steps[1..]);
    }
  }

  // ---- What no run can do -------------------------------------------------------------------

  function GoalIn(w: World): Option<Goal> { w.memory.goal }

  predicate Terminal(g: Option<Goal>) { g.Some? && !g.value.Open() }

  predicate StartedAt(g: Option<Goal>, t: Time) { g.Some? && g.value.startedAt == t }

  /** A terminal goal never reopens: after any run the goal on record is that very goal or one started
      later in the run. */
  lemma {:induction false} TerminalIsFinal(w: World, steps: seq<Step>)
    requires Inv(w) && Run(w, steps) && Terminal(GoalIn(w))
    ensures GoalIn(End(w, steps)) == GoalIn(w)
         || (GoalIn(End(w, steps)).Some? && GoalIn(End(w, steps)).value.startedAt !in w.used)
    decreases |steps|
  {
    hide Inv, Allowed, After;
    if steps == [] {
    } else {
      var next := After(w, steps[0]);
      StepKeepsInv(w, steps[0]);
      TerminalStep(w, steps[0]);
      if GoalIn(next) == GoalIn(w) {
        TerminalIsFinal(next, steps[1..]);
      } else {
        NewGoalsStayNew(next, steps[1..], w.used);
      }
    }
  }

  lemma TerminalStep(w: World, s: Step)
    requires Inv(w) && Allowed(w, s) && Terminal(GoalIn(w))
    ensures w.used <= After(w, s).used
    ensures GoalIn(After(w, s)) == GoalIn(w)
         || (GoalIn(After(w, s)).Some? && GoalIn(After(w, s)).value.startedAt !in w.used)
  {}

  /** Once the goal on record is newer than some moment, it stays so. */
  lemma {:induction false} NewGoalsStayNew(w: World, steps: seq<Step>, before: set<Time>)
    requires Inv(w) && Run(w, steps) && before <= w.used
    requires GoalIn(w).Some? && GoalIn(w).value.startedAt !in before
    ensures GoalIn(End(w, steps)).Some? && GoalIn(End(w, steps)).value.startedAt !in before
    decreases |steps|
  {
    hide Inv, Allowed, After;
    if steps == [] {
    } else {
      StepKeepsInv(w, steps[0]);
      StaysNew(w, steps[0], before);
      NewGoalsStayNew(After(w, steps[0]), steps[1..], before);
    }
  }

  lemma StaysNew(w: World, s: Step, before: set<Time>)
    requires Inv(w) && Allowed(w, s) && before <= w.used && GoalIn(w).Some? && GoalIn(w).value.startedAt !in before
    ensures before <= After(w, s).used && GoalIn(After(w, s)).Some? && GoalIn(After(w, s)).value.startedAt !in before
  {}

  /** A suspended goal is neither replaced nor advanced: without a Resume or a Cancel that is written,
      any run leaves it exactly as it was. */
  lemma {:induction false} SuspendedStays(w: World, steps: seq<Step>)
    requires Inv(w) && Run(w, steps) && GoalIn(w).Some? && GoalIn(w).value.state == Suspended
    requires forall i :: 0 <= i < |steps| ==> !(steps[i].Resume? && steps[i].written) && !(steps[i].Cancel? && steps[i].written)
    ensures GoalIn(End(w, steps)) == GoalIn(w)
    decreases |steps|
  {
    hide Inv, Allowed, After;
    if steps == [] {
    } else {
      StepKeepsInv(w, steps[0]);
      StaysSuspended(w, steps[0]);
      SuspendedStays(After(w, steps[0]), steps[1..]);
    }
  }

  lemma StaysSuspended(w: World, s: Step)
    requires Inv(w) && Allowed(w, s) && GoalIn(w).Some? && GoalIn(w).value.state == Suspended
    requires !(s.Resume? && s.written) && !(s.Cancel? && s.written)
    ensures GoalIn(After(w, s)) == GoalIn(w)
  {}

  /** A plan for a goal that was replaced, suspended, finished or moved on changes nothing: at
      most the same state is written again. */
  lemma StaleTickChangesNothing(w: World, now: Time, written: bool)
    requires Inv(w) && w.plan.Some? && !StillCurrent(w.memory, w.plan.value.goal.startedAt, w.plan.value.goal.index)
    ensures After(w, Apply(now, written)) == w.(plan := None, file := if written then Saved(w.memory) else w.file)
  {}

  /** The poller can only ever advance the goal it read, at the lap and waypoint it read. */
  lemma AppliesToWhatWasRead(w: World)
    requires Inv(w) && w.plan.Some? && StillCurrent(w.memory, w.plan.value.goal.startedAt, w.plan.value.goal.index)
    ensures w.memory.goal == Some(w.plan.value.goal)
  {}

  // ---- Progress -----------------------------------------------------------------------------

  /** How many waypoints a step passes on the goal on record. */
  function Passed(w: World, s: Step): nat {
    match s
    case Apply(_, written) =>
      if w.plan.Some? && written && StillCurrent(w.memory, w.plan.value.goal.startedAt, w.plan.value.goal.index)
      then w.plan.value.n else 0
    case _ => 0
  }

  function TotalPassed(w: World, steps: seq<Step>): nat
    decreases |steps|
  {
    if steps == [] then 0 else Passed(w, steps[0]) + TotalPassed(After(w, steps[0]), steps[1..])
  }

  /** A step moves the goal it finds by exactly what it passes, unless it replaces it. */
  lemma StepTravels(w: World, s: Step)
    requires Inv(w) && Allowed(w, s) && GoalIn(w).Some? && StartedAt(GoalIn(After(w, s)), GoalIn(w).value.startedAt)
    ensures GoalIn(After(w, s)).value.Travelled() == GoalIn(w).value.Travelled() + Passed(w, s)
    ensures GoalIn(After(w, s)).value.waypoints == GoalIn(w).value.waypoints
  {
    hide Goal.Travelled;
    if s.Apply? && Passed(w, s) > 0 {
      w.memory.goal.value.AdvanceTravels(w.plan.value.n, s.now);
    } else {
      SameTravelled(GoalIn(w).value, GoalIn(After(w, s)).value);
    }
  }

  lemma SameTravelled(g: Goal, h: Goal)
    requires g.waypoints == h.waypoints && g.index == h.index && g.lap == h.lap
    ensures g.Travelled() == h.Travelled()
  {}

  /** A goal that leaves the record never comes back. */
  lemma {:induction false} GoneIsGone(w: World, steps: seq<Step>, t: Time)
    requires Inv(w) && Run(w, steps) && t in w.used && !StartedAt(GoalIn(w), t)
    ensures !StartedAt(GoalIn(End(w, steps)), t)
    decreases |steps|
  {
    hide Inv, Allowed, After;
    if steps == [] {
    } else {
      StepKeepsInv(w, steps[0]);
      StaysGone(w, steps[0], t);
      GoneIsGone(After(w, steps[0]), steps[1..], t);
    }
  }

  lemma StaysGone(w: World, s: Step, t: Time)
    requires Inv(w) && Allowed(w, s) && t in w.used && !StartedAt(GoalIn(w), t)
    ensures t in After(w, s).used && !StartedAt(GoalIn(After(w, s)), t)
  {}

  /** Over any run that a goal survives, laps and cursor together grow by exactly the waypoints passed
      in its applied advances: none is lost, counted twice, or passed on another goal's behalf. */
  lemma {:induction false} ProgressIsWhatWasPassed(w: World, steps: seq<Step>)
    requires Inv(w) && Run(w, steps) && GoalIn(w).Some?
    requires StartedAt(GoalIn(End(w, steps)), GoalIn(w).value.startedAt)
    ensures GoalIn(End(w, steps)).value.Travelled() == GoalIn(w).value.Travelled() + TotalPassed(w, steps)
    decreases |steps|
  {
    hide Inv, Goal.Travelled, Goal.Sound, Passed, After, Allowed;
    if steps == [] {
    } else {
      var next, t := After(w, steps[0]), GoalIn(w).value.startedAt;
      StepKeepsInv(w, steps[0]);
      Recorded(w, steps[0]);
      if !StartedAt(GoalIn(next), t) {
        GoneIsGone(next, steps[1..], t);
      } else {
        StepTravels(w, steps[0]);
        ProgressIsWhatWasPassed(next, steps[1..]);
      }
    }
  }

  lemma Recorded(w: World, s: Step)
    requires Inv(w) && GoalIn(w).Some?
    ensures GoalIn(w).value.startedAt in After(w, s).used
  {}

  /** The last waypoint of a goal that does not loop is reached exactly when everything from its
      start has been passed, and then the goal has succeeded. */
  lemma SucceededWhenAllPassed(w: World, steps: seq<Step>)
    requires Inv(w) && Run(w, steps) && GoalIn(w).Some? && GoalIn(w).value.Open() && !GoalIn(w).value.loop
    requires StartedAt(GoalIn(End(w, steps)), GoalIn(w).value.startedAt)
    ensures GoalIn(End(w, steps)).value.state == Succeeded
      <==> TotalPassed(w, steps) == |GoalIn(w).value.Remaining()|
  {
    RunKeepsInv(w, steps);
    ProgressIsWhatWasPassed(w, steps);
    StraightRun(w, steps);
  }

  // ---- What some run can do -----------------------------------------------------------------

  /** The steps that pass what is left of an active goal, one waypoint at a time. */
  function OneByOne(n: nat, now: Time): seq<Step> {
    if n == 0 then [] else [Read(1), Apply(now, true)] + OneByOne(n - 1, now)
  }

  lemma OneTick(w: World, now: Time)
    requires Inv(w) && w.plan.None? && GoalIn(w).Some? && GoalIn(w).value.state == Active
    ensures Allowed(w, Read(1)) && Allowed(After(w, Read(1)), Apply(now, true))
    ensures var next := After(After(w, Read(1)), Apply(now, true));
      next.plan.None? && next.used == w.used && GoalIn(next) == Some(GoalIn(w).value.Advanced(1, now))
  {}

  lemma {:induction false} PassedOneByOne(w: World, n: nat, now: Time)
    requires Inv(w) && w.plan.None? && GoalIn(w).Some? && GoalIn(w).value.state == Active && !GoalIn(w).value.loop
    requires n == |GoalIn(w).value.Remaining()|
    ensures Run(w, OneByOne(n, now)) && GoalIn(End(w, OneByOne(n, now))).Some?
    ensures var g := GoalIn(End(w, OneByOne(n, now))).value; g.state == Succeeded && g.startedAt == GoalIn(w).value.startedAt
    decreases n
  {
    var g := GoalIn(w).value;
    var read := After(w, Read(1));
    var next := After(read, Apply(now, true));
    OneTick(w, now);
    StepKeepsInv(w, Read(1));
    StepKeepsInv(read, Apply(now, true));
    if g.index + 1 < |g.waypoints| { PassedOneByOne(next, n - 1, now); }
    var rest := OneByOne(n - 1, now);
    assert n == 1 ==> rest == [];
    hide Inv, Allowed, After;
    TwoMore(w, Read(1), Apply(now, true), rest);
  }

  lemma TwoMore(w: World, s: Step, t: Step, rest: seq<Step>)
    requires Allowed(w, s) && Allowed(After(w, s), t) && Run(After(After(w, s), t), rest)
    ensures Run(w, [s, t] + rest) && End(w, [s, t] + rest) == End(After(After(w, s), t), rest)
  {
    var steps := [s, t] + rest;
    assert steps[1..] == [t] + rest && steps[1..][1..] == rest;
    hide Allowed, After;
  }

  /** Whatever the poller has planned, an open goal that does not loop can still succeed: some run resumes
      it if need be and ends with that very goal finished. */
  lemma CanSucceed(w: World, now: Time) returns (steps: seq<Step>)
    requires Inv(w) && GoalIn(w).Some? && GoalIn(w).value.Open() && !GoalIn(w).value.loop
    ensures Run(w, steps) && GoalIn(End(w, steps)).Some?
    ensures var g := GoalIn(End(w, steps)).value; g.state == Succeeded && g.startedAt == GoalIn(w).value.startedAt
  {
    steps := [];
    var v := w;
    if w.plan.Some? {
      v := After(w, Apply(now, true));
      StepKeepsInv(w, Apply(now, true));
    }
    if GoalIn(v).value.state == Succeeded {
      steps := [Apply(now, true)];
      assert steps[1..] == [];
      return;
    }
    var u := v;
    if GoalIn(v).value.state == Suspended {
      u := After(v, Resume(true));
      StepKeepsInv(v, Resume(true));
    }
    var n := |GoalIn(u).value.Remaining()|;
    PassedOneByOne(u, n, now);
    steps := OneByOne(n, now);
    hide Inv;
    if GoalIn(v).value.state == Suspended { steps := Before(v, Resume(true), steps); }
    if w.plan.Some? { steps := Before(w, Apply(now, true), steps); }
  }

  lemma Before(w: World, s: Step, rest: seq<Step>) returns (steps: seq<Step>)
    requires Allowed(w, s) && Run(After(w, s), rest)
    ensures Run(w, steps) && End(w, steps) == End(After(w, s), rest)
  {
    steps := [s] + rest;
    assert steps[1..] == rest;
  }

  /** And it can be canceled at any time. */
  lemma CanBeCanceled(w: World, now: Time)
    requires GoalIn(w).Some? && GoalIn(w).value.Open()
    ensures Run(w, [Cancel(now, true)]) && GoalIn(End(w, [Cancel(now, true)])) == Some(GoalIn(w).value.Finished(Canceled, now))
  {
    var steps := [Cancel(now, true)];
    assert steps[1..] == [];
  }

  /** A goal that does not loop stays on its lap and its waypoints, and succeeds only at their end. */
  ghost predicate Straight(g: Goal, h: Goal) {
    && h.waypoints == g.waypoints && h.loop == g.loop && h.lap == g.lap
    && (h.state == Succeeded <==> h.index == |h.waypoints|)
  }

  lemma {:induction false} StraightRun(w: World, steps: seq<Step>)
    requires Inv(w) && Run(w, steps) && GoalIn(w).Some? && !GoalIn(w).value.loop && Straight(GoalIn(w).value, GoalIn(w).value)
    requires StartedAt(GoalIn(End(w, steps)), GoalIn(w).value.startedAt)
    ensures Straight(GoalIn(w).value, GoalIn(End(w, steps)).value)
    decreases |steps|
  {
    hide Inv, Allowed, After;
    if steps == [] {
    } else {
      var next, t := After(w, steps[0]), GoalIn(w).value.startedAt;
      StepKeepsInv(w, steps[0]);
      Recorded(w, steps[0]);
      if !StartedAt(GoalIn(next), t) {
        GoneIsGone(next, steps[1..], t);
      } else {
        StaysStraight(w, steps[0]);
        StraightRun(next, steps[1..]);
      }
    }
  }

  lemma StaysStraight(w: World, s: Step)
    requires Inv(w) && Allowed(w, s) && GoalIn(w).Some? && !GoalIn(w).value.loop && Straight(GoalIn(w).value, GoalIn(w).value)
    requires StartedAt(GoalIn(After(w, s)), GoalIn(w).value.startedAt)
    ensures Straight(GoalIn(w).value, GoalIn(After(w, s)).value)
  {}
}
