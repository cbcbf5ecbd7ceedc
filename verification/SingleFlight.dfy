/** The `inflight` protocol of the upstream cache (noaa_cache.go): concurrent callers of `refreshAsync`
    and `fetchAndStore`, interleaved at every lock, wait and upstream call. */
module SingleFlight {
  import opened Common

  type Key = string

  /** A wait group, as a number that is never used twice. */
  type Group = nat

  /** Where a caller stands. */
  datatype Caller =
    | Idle
    | Checking(key: Key)                          // refreshAsync, before its lock
    | Fetching(key: Key)                          // fetchAndStore, before its lock
    | Waiting(key: Key, group: Group)             // a follower in wg.Wait
    | Upstream(key: Key, leads: Option<Group>)    // at the upstream, as the leader of a group or not
    | Leaving(key: Key, group: Group)             // a leader on its way out, before its lock
    | Releasing(key: Key, group: Group)           // the entry is gone; wg.Done is next

  /** `files` are the keys whose file is on disk. */
  datatype World = World(callers: seq<Caller>, inflight: map<Key, Group>, released: set<Group>, next: Group, files: set<Key>)

  /** A new call; a move of a caller, which at the upstream stores the file or fails to; or the eviction
      of a file. */
  datatype Step = Call(caller: nat, key: Key, refresh: bool) | Move(caller: nat, stored: bool) | Evict(key: Key)

  predicate Enabled(w: World, s: Step) {
    match s
    case Call(t, _, _) => t < |w.callers| && w.callers[t].Idle?
    case Move(t, _) =>
      t < |w.callers| && !w.callers[t].Idle? && (w.callers[t].Waiting? ==> w.callers[t].group in w.released)
    case Evict(_) => true
  }

  function Put(w: World, t: nat, c: Caller): World
    requires t < |w.callers|
  {
    w.(callers := w.callers[t := c])
  }

  function After(w: World, s: Step): World
    requires Enabled(w, s)
  {
    match s
    case Call(t, key, refresh) => Put(w, t, if refresh then Checking(key) else Fetching(key))
    case Evict(key) => w.(files := w.files - {key})
    case Move(t, stored) =>
      match w.callers[t]
      case Checking(key) => Put(w, t, if key in w.inflight then Idle else Fetching(key))
      case Fetching(key) =>
        if key in w.inflight then Put(w, t, Waiting(key, w.inflight[key]))
        else Put(w, t, Upstream(key, Some(w.next))).(inflight := w.inflight[key := w.next], next := w.next + 1)
      case Waiting(key, group) => Put(w, t, if key in w.files then Idle else Upstream(key, None))
      case Upstream(key, leads) =>
        Put(w, t, if leads.Some? then Leaving(key, leads.value) else Idle)
          .(files := if stored then w.files + {key} else w.files)
      case Leaving(key, group) => Put(w, t, Releasing(key, group)).(inflight := w.inflight - {key})
      case Releasing(key, group) => Put(w, t, Idle).(released := w.released + {group})
  }

  ghost predicate Run(w: World, steps: seq<Step>)
    decreases |steps|
  {
    steps != [] ==> Enabled(w, steps[0]) && Run(After(w, steps[0]), steps[1..])
  }

  function End(w: World, steps: seq<Step>): World
    requires Run(w, steps)
    decreases |steps|
  {
    if steps == [] then w else End(After(w, steps[0]), steps[1..])
  }

  /** A refresh of a key that is being fetched returns at once and leaves everything as it was; of any other
      key it goes on as a fetch does. */
  lemma RefreshYields(w: World, t: nat, key: Key, stored: bool)
    requires t < |w.callers| && w.callers[t] == Idle
    ensures var asked := After(w, Call(t, key, true));
      && Enabled(asked, Move(t, stored))
      && After(asked, Move(t, stored)) == if key in w.inflight then w else After(w, Call(t, key, false))
  {
    var asked := After(w, Call(t, key, true));
    assert w.callers[t := Checking(key)][t := Idle] == w.callers;
    assert w.callers[t := Checking(key)][t := Fetching(key)] == w.callers[t := Fetching(key)];
  }

  // ---- The invariant ------------------------------------------------------------------------

  /** The group a caller has yet to release. */
  function Held(c: Caller): Option<Group> {
    match c
    case Upstream(_, leads) => leads
    case Leaving(_, g) => Some(g)
    case Releasing(_, g) => Some(g)
    case _ => None
  }

  /** A registered leader: one whose entry is in the table. */
  predicate Leads(c: Caller, key: Key) {
    match c
    case Upstream(k, leads) => k == key && leads.Some?
    case Leaving(k, _) => k == key
    case _ => false
  }

  ghost predicate LeadersRegistered(w: World) {
    forall t :: 0 <= t < |w.callers| ==>
      forall key :: Leads(w.callers[t], key) ==> key in w.inflight && Held(w.callers[t]) == Some(w.inflight[key])
  }

  ghost predicate EntryHasLeader(w: World, key: Key) {
    exists t :: 0 <= t < |w.callers| && Leads(w.callers[t], key)
  }

  /** Groups are held by one caller at a time, and not once released. */
  ghost predicate GroupsAreOwn(w: World) {
    && (forall t, u :: 0 <= t < u < |w.callers| && Held(w.callers[t]).Some? ==> Held(w.callers[t]) != Held(w.callers[u]))
    && (forall t :: 0 <= t < |w.callers| && Held(w.callers[t]).Some? ==>
          Held(w.callers[t]).value !in w.released && Held(w.callers[t]).value < w.next)
    && (forall g :: g in w.released ==> g < w.next)
  }

  ghost predicate Pending(w: World, g: Group) {
    g in w.released || exists t :: 0 <= t < |w.callers| && Held(w.callers[t]) == Some(g)
  }

  predicate WaitsFor(c: Caller, d: Caller) { c.Waiting? && Held(d) == Some(c.group) }

  /** A group that is held for one key has no followers of another. */
  ghost predicate GroupKeys(w: World) {
    forall t, u :: 0 <= t < |w.callers| && 0 <= u < |w.callers| && WaitsFor(w.callers[t], w.callers[u]) ==>
      w.callers[u].key == w.callers[t].key
  }

  ghost predicate Inv(w: World) {
    && LeadersRegistered(w) && GroupKeys(w)
    && (forall key :: key in w.inflight ==> EntryHasLeader(w, key))
    && GroupsAreOwn(w)
    && (forall t :: 0 <= t < |w.callers| && w.callers[t].Waiting? ==> Pending(w, w.callers[t].group))
  }

  /** n callers, none of whom has called yet. */
  function Initial(n: nat, files: set<Key>): World { World(seq(n, i => Idle), map[], {}, 0, files) }

  lemma NobodyYet(n: nat, files: set<Key>)
    ensures Inv(Initial(n, files))
  {}

  lemma StepKeepsGroups(w: World, s: Step)
    requires Inv(w) && Enabled(w, s)
    ensures GroupsAreOwn(After(w, s))
  {
    hide Pending, EntryHasLeader, LeadersRegistered, GroupKeys, GroupsAreOwn;
    var w' := After(w, s);
    match s
    case Evict(_) => CallersStay(w, w');
    case Call(t, _, _) => CallerMoves(w, w', t);
    case Move(t, _) => if w.callers[t].Releasing? { CallerReleases(w, w', t); } else { CallerMoves(w, w', t); }
  }

  lemma CallersStay(w: World, w': World)
    requires GroupsAreOwn(w) && w'.callers == w.callers && w'.released == w.released && w'.next == w.next
    ensures GroupsAreOwn(w')
  {}

  /** A caller that keeps its group, has none, or takes a new one. */
  lemma CallerMoves(w: World, w': World, t: nat)
    requires GroupsAreOwn(w) && t < |w.callers| == |w'.callers| && w'.released == w.released
    requires w'.callers == w.callers[t := w'.callers[t]]
    requires w'.next >= w.next
    requires || Held(w'.callers[t]).None? || Held(w'.callers[t]) == Held(w.callers[t])
             || (Held(w'.callers[t]) == Some(w.next) && w'.next > w.next)
    ensures GroupsAreOwn(w')
  {
    hide Held;
  }

  lemma CallerReleases(w: World, w': World, t: nat)
    requires GroupsAreOwn(w) && t < |w.callers| && w'.callers == w.callers[t := Idle] && w'.next == w.next
    requires Held(w.callers[t]).Some? && w'.released == w.released + {Held(w.callers[t]).value}
    ensures GroupsAreOwn(w')
  {
    assert Held(Idle).None?;
    hide Held;
  }

  lemma StepKeepsLeaders(w: World, s: Step)
    requires Inv(w) && Enabled(w, s)
    ensures LeadersRegistered(After(w, s))
  {
    hide Pending, EntryHasLeader;
    var w' := After(w, s);
    forall u, key | 0 <= u < |w'.callers| && Leads(w'.callers[u], key)
      ensures key in w'.inflight && Held(w'.callers[u]) == Some(w'.inflight[key])
    {
      if s.Evict? || u != s.caller { assert Leads(w.callers[u], key); }
    }
  }

  lemma StepKeepsEntries(w: World, s: Step, key: Key)
    requires Inv(w) && Enabled(w, s) && key in After(w, s).inflight
    ensures EntryHasLeader(After(w, s), key)
  {
    hide Pending, GroupsAreOwn, LeadersRegistered;
    var w' := After(w, s);
    if key in w.inflight {
      var u :| 0 <= u < |w.callers| && Leads(w.callers[u], key);
      assert Leads(w'.callers[u], key);
    } else {
      assert Leads(w'.callers[s.caller], key);
    }
  }

  lemma StepKeepsPending(w: World, s: Step, g: Group)
    requires Inv(w) && Enabled(w, s) && Pending(w, g)
    ensures Pending(After(w, s), g)
  {
    hide GroupsAreOwn, LeadersRegistered, EntryHasLeader;
    var w' := After(w, s);
    if g !in w'.released {
      var u :| 0 <= u < |w.callers| && Held(w.callers[u]) == Some(g);
      assert Held(w'.callers[u]) == Some(g);
    }
  }

  /** A follower joins a group that its leader has yet to release. */
  lemma EntryIsPending(w: World, key: Key)
    requires Inv(w) && key in w.inflight
    ensures Pending(w, w.inflight[key])
  {
    assert EntryHasLeader(w, key);
  }

  lemma StillPending(w: World, s: Step, t: nat)
    requires Inv(w) && Enabled(w, s) && t < |After(w, s).callers| && After(w, s).callers[t].Waiting?
    ensures Pending(After(w, s), After(w, s).callers[t].group)
  {
    var c := After(w, s).callers[t];
    hide GroupsAreOwn, GroupKeys, LeadersRegistered, EntryHasLeader, Pending;
    if !w.callers[t].Waiting? { EntryIsPending(w, c.key); }
    assert Pending(w, c.group);
    StepKeepsPending(w, s, c.group);
  }

  lemma StepKeepsGroupKeys(w: World, s: Step)
    requires Inv(w) && Enabled(w, s)
    ensures GroupKeys(After(w, s))
  {
    if s.Move? && w.callers[s.caller].Fetching? && w.callers[s.caller].key in w.inflight {
      assert EntryHasLeader(w, w.callers[s.caller].key);
    }
  }

  /** Every step keeps it: each entry of the table is the own group of one leader, and every follower
      waits on a group that is released or that some caller has yet to release. */
  lemma StepKeepsInv(w: World, s: Step)
    requires Inv(w) && Enabled(w, s)
    ensures Inv(After(w, s))
  {
    var w' := After(w, s);
    StepKeepsGroups(w, s);
    StepKeepsGroupKeys(w, s);
    StepKeepsLeaders(w, s);
    forall key | key in w'.inflight ensures EntryHasLeader(w', key) { StepKeepsEntries(w, s, key); }
    forall t: nat | t < |w'.callers| && w'.callers[t].Waiting? ensures Pending(w', w'.callers[t].group) { StillPending(w, s, t); }
    hide After, Enabled, GroupsAreOwn, GroupKeys, LeadersRegistered, EntryHasLeader, Pending;
  }

  lemma {:induction false} RunKeepsInv(w: World, steps: seq<Step>)
    requires Inv(w) && Run(w, steps)
    ensures Inv(End(w, steps))
    decreases |steps|
  {
    if steps == [] {
    } else {
      StepKeepsInv(w, steps[0]);
      RunKeepsInv(After(w, steps[0]), steps[1..]);
    }
  }

  /** At most one caller leads for a key, and the entry is its own group. */
  lemma OneLeader(w: World, t: nat, u: nat, key: Key)
    requires Inv(w) && t < |w.callers| && u < |w.callers| && Leads(w.callers[t], key) && Leads(w.callers[u], key)
    ensures t == u && key in w.inflight && Held(w.callers[t]) == Some(w.inflight[key])
  {}

  // ---- Nobody is stranded -------------------------------------------------------------------

  function Rank(c: Caller): nat {
    match c
    case Idle => 0
    case Releasing(_, _) => 1
    case Leaving(_, _) => 2
    case Upstream(_, _) => 3
    case Waiting(_, _) => 4
    case Fetching(_) => 5
    case Checking(_) => 6
  }

  function TotalRank(callers: seq<Caller>): nat {
    if callers == [] then 0 else Rank(callers[0]) + TotalRank(callers[1..])
  }

  lemma {:induction false} RankAfter(callers: seq<Caller>, t: nat, c: Caller)
    requires t < |callers|
    ensures TotalRank(callers[t := c]) == TotalRank(callers) - Rank(callers[t]) + Rank(c)
  {
    if t == 0 {
      assert callers[t := c][1..] == callers[1..];
    } else {
      assert callers[t := c][1..] == callers[1..][t - 1 := c];
      RankAfter(callers[1..], t - 1, c);
    }
  }

  /** Every move brings its caller nearer to its end. */
  lemma MovesDescend(w: World, s: Step)
    requires Enabled(w, s) && s.Move?
    ensures TotalRank(After(w, s).callers) < TotalRank(w.callers)
  {
    hide TotalRank;
    MoverDescends(w, s);
    hide After, Enabled, Rank;
    RankAfter(w.callers, s.caller, After(w, s).callers[s.caller]);
  }

  lemma MoverDescends(w: World, s: Step)
    requires Enabled(w, s) && s.Move?
    ensures s.caller < |w.callers| == |After(w, s).callers|
    ensures After(w, s).callers == w.callers[s.caller := After(w, s).callers[s.caller]]
    ensures Rank(After(w, s).callers[s.caller]) < Rank(w.callers[s.caller])
  {}

  /** While any caller is not done, some caller can move: a follower's leader, if nobody else. */
  lemma SomeoneCanMove(w: World, t: nat, stored: bool) returns (u: nat)
    requires Inv(w) && t < |w.callers| && !w.callers[t].Idle?
    ensures Enabled(w, Move(u, stored)) && (u == t || Held(w.callers[u]).Some?)
  {
    u := t;
    if w.callers[t].Waiting? && w.callers[t].group !in w.released {
      assert Pending(w, w.callers[t].group);
      u :| 0 <= u < |w.callers| && Held(w.callers[u]) == Some(w.callers[t].group);
    }
  }

  predicate AllIdle(w: World) { forall t :: 0 <= t < |w.callers| ==> w.callers[t].Idle? }

  ghost predicate Stuck(w: World) { forall t: nat, stored: bool :: !Enabled(w, Move(t, stored)) }

  /** No run of moves, whatever fails in it, goes on longer than the total rank ... */
  lemma {:induction false} RunsEnd(w: World, steps: seq<Step>)
    requires Run(w, steps) && forall i :: 0 <= i < |steps| ==> steps[i].Move?
    ensures |steps| <= TotalRank(w.callers) && |steps| + TotalRank(End(w, steps).callers) <= TotalRank(w.callers)
    decreases |steps|
  {
    if steps == [] {
    } else {
      MovesDescend(w, steps[0]);
      RunsEnd(After(w, steps[0]), steps[1..]);
    }
  }

  /** ... and one that cannot go on has let every caller return: no follower is stranded. */
  lemma NobodyIsStranded(w: World, steps: seq<Step>)
    requires Inv(w) && Run(w, steps)
    requires Stuck(End(w, steps))
    ensures AllIdle(End(w, steps))
  {
    RunKeepsInv(w, steps);
    StuckMeansIdle(End(w, steps));
  }

  lemma StuckMeansIdle(w: World)
    requires Inv(w) && Stuck(w)
    ensures AllIdle(w)
  {
    if !AllIdle(w) {
      var t :| 0 <= t < |w.callers| && !w.callers[t].Idle?;
      var u := SomeoneCanMove(w, t, true);
      assert false;
    }
  }

  // ---- One upstream attempt at a time -------------------------------------------------------

  predicate AtUpstream(w: World, t: nat, key: Key) {
    t < |w.callers| && w.callers[t].Upstream? && w.callers[t].key == key
  }

  ghost predicate TwoAttempts(w: World, key: Key) {
    exists t, u :: t != u && AtUpstream(w, t, key) && AtUpstream(w, u, key)
  }

  /** Nobody is at the upstream for the key without leading. */
  predicate OnlyLeadersFor(w: World, key: Key) {
    forall t :: 0 <= t < |w.callers| && w.callers[t].Upstream? && w.callers[t].key == key ==> w.callers[t].leads.Some?
  }

  /** A follower of the key wakes up and finds no file. */
  predicate Misses(w: World, s: Step, key: Key) {
    && s.Move? && s.caller < |w.callers|
    && w.callers[s.caller].Waiting? && w.callers[s.caller].key == key && key !in w.files
  }

  ghost predicate NoMiss(w: World, steps: seq<Step>, key: Key)
    requires Run(w, steps)
    decreases |steps|
  {
    steps != [] ==> !Misses(w, steps[0], key) && NoMiss(After(w, steps[0]), steps[1..], key)
  }

  lemma StepKeepsLeading(w: World, s: Step, key: Key)
    requires OnlyLeadersFor(w, key) && Enabled(w, s) && !Misses(w, s, key)
    ensures OnlyLeadersFor(After(w, s), key)
  {}

  /** As long as no follower of a key misses its file, the key has at most one upstream attempt at a
      time ... */
  lemma {:induction false} OneAttempt(w: World, steps: seq<Step>, key: Key)
    requires Inv(w) && OnlyLeadersFor(w, key) && Run(w, steps) && NoMiss(w, steps, key)
    ensures !TwoAttempts(End(w, steps), key)
    decreases |steps|
  {
    if steps == [] {
      if TwoAttempts(w, key) {
        var t, u :| t != u && AtUpstream(w, t, key) && AtUpstream(w, u, key);
        OneLeader(w, t, u, key);
        assert false;
      }
    } else {
      hide Inv, TwoAttempts, After, OnlyLeadersFor, Misses;
      StepKeepsInv(w, steps[0]);
      StepKeepsLeading(w, steps[0], key);
      OneAttempt(After(w, steps[0]), steps[1..], key);
    }
  }

  /** While another caller than t is not done, another than t can move, if t holds up nobody. */
  lemma AnotherCanMove(w: World, t: nat, u: nat) returns (s: Step)
    requires Inv(w) && t < |w.callers| && Held(w.callers[t]).None?
    requires u < |w.callers| && u != t && !w.callers[u].Idle?
    ensures s.Move? && Enabled(w, s) && Inv(After(w, s))
    ensures |After(w, s).callers| == |w.callers| && After(w, s).callers[t] == w.callers[t]
  {
    var v := SomeoneCanMove(w, u, true);
    hide Inv;
    s := Move(v, true);
    StepKeepsInv(w, s);
  }

  /** Moves that let every caller but t return, where t holds up nobody. */
  lemma {:induction false} OthersReturn(w: World, t: nat) returns (steps: seq<Step>)
    requires Inv(w) && t < |w.callers| && Held(w.callers[t]).None?
    ensures Run(w, steps) && Inv(End(w, steps))
    ensures var cs := End(w, steps).callers;
      |cs| == |w.callers| && cs[t] == w.callers[t] && forall u :: 0 <= u < |cs| && u != t ==> cs[u].Idle?
    decreases TotalRank(w.callers)
  {
    hide Inv, After, Enabled, Held, TotalRank;
    if u :| 0 <= u < |w.callers| && u != t && !w.callers[u].Idle? {
      var s := AnotherCanMove(w, t, u);
      MovesDescend(w, s);
      var rest := OthersReturn(After(w, s), t);
      First(w, s, After(w, s), rest);
      steps := [s] + rest;
    } else {
      steps := [];
    }
  }

  /** ... and once one does, with anybody else to call, there is always a way on to two at once. */
  lemma MissDoubles(w: World, s: Step, key: Key) returns (steps: seq<Step>)
    requires Inv(w) && |w.callers| >= 2 && Enabled(w, s) && Misses(w, s, key)
    ensures Run(After(w, s), steps) && TwoAttempts(End(After(w, s), steps), key)
  {
    var t := s.caller;
    StepKeepsInv(w, s);
    var w1 := After(w, s);
    var home := OthersReturn(w1, t);
    var w2 := End(w1, home);
    var u := if t == 0 then 1 else 0;
    NobodyLeads(w2, t, key);
    var call := AnotherCalls(w2, u, key);
    Joined(w1, home, call);
    steps := home + call;
    assert AtUpstream(End(w2, call), t, key) && AtUpstream(End(w2, call), u, key);
  }

  lemma NobodyLeads(w: World, t: nat, key: Key)
    requires Inv(w) && t < |w.callers| && Held(w.callers[t]).None? && !Leads(w.callers[t], key)
    requires forall u :: 0 <= u < |w.callers| && u != t ==> w.callers[u].Idle?
    ensures key !in w.inflight
  {
    if key in w.inflight { assert false; }
  }

  lemma AnotherCalls(w: World, u: nat, key: Key) returns (steps: seq<Step>)
    requires u < |w.callers| && w.callers[u].Idle? && key !in w.inflight
    ensures Run(w, steps) && End(w, steps).callers == w.callers[u := Upstream(key, Some(w.next))]
  {
    var w1 := Put(w, u, Fetching(key));
    var w2 := After(w1, Move(u, true));
    assert Run(w2, []);
    First(w1, Move(u, true), w2, []);
    First(w, Call(u, key, false), w1, [Move(u, true)] + []);
    steps := [Call(u, key, false)] + ([Move(u, true)] + []);
    assert w2.callers == w.callers[u := Upstream(key, Some(w.next))];
  }

  // ---- What makes a follower miss -----------------------------------------------------------

  /** The file of the key is there for every follower that is free to read it, and for those that a
      leader on its way out will set free. */
  predicate Served(w: World, key: Key) {
    key in w.files || forall t :: 0 <= t < |w.callers| ==>
      !((w.callers[t].Leaving? || w.callers[t].Releasing?) && w.callers[t].key == key)
      && !(w.callers[t].Waiting? && w.callers[t].key == key && w.callers[t].group in w.released)
  }

  /** An attempt for the key fails to store its file, or the file is evicted. */
  predicate Fails(w: World, s: Step, key: Key) {
    match s
    case Evict(k) => k == key
    case Move(t, stored) => AtUpstream(w, t, key) && !stored
    case Call(_, _, _) => false
  }

  ghost predicate NoFailure(w: World, steps: seq<Step>, key: Key)
    requires Run(w, steps)
    decreases |steps|
  {
    steps != [] ==> !Fails(w, steps[0], key) && NoFailure(After(w, steps[0]), steps[1..], key)
  }

  lemma StepKeepsServed(w: World, s: Step, key: Key)
    requires Inv(w) && Served(w, key) && Enabled(w, s) && !Fails(w, s, key)
    ensures !Misses(w, s, key) && Served(After(w, s), key)
  {
    hide Pending;
    if s.Move? && w.callers[s.caller].Fetching? && key in w.inflight { assert EntryHasLeader(w, key); }
  }

  /** Followers never miss their file unless an attempt fails or the file is evicted ... */
  lemma {:induction false} NoFailureNoMiss(w: World, steps: seq<Step>, key: Key)
    requires Inv(w) && Served(w, key) && Run(w, steps) && NoFailure(w, steps, key)
    ensures NoMiss(w, steps, key)
    decreases |steps|
  {
    hide Inv, Served, Fails, Misses, After;
    if steps == [] {
    } else {
      StepKeepsInv(w, steps[0]);
      StepKeepsServed(w, steps[0], key);
      NoFailureNoMiss(After(w, steps[0]), steps[1..], key);
    }
  }

  /** ... and so, from the first call on, a key has one upstream attempt at a time while none fails. */
  lemma OneAttemptFromTheStart(n: nat, files: set<Key>, steps: seq<Step>, key: Key)
    requires Run(Initial(n, files), steps) && NoFailure(Initial(n, files), steps, key)
    ensures !TwoAttempts(End(Initial(n, files), steps), key)
  {
    NobodyYet(n, files);
    NoFailureNoMiss(Initial(n, files), steps, key);
    OneAttempt(Initial(n, files), steps, key);
  }

  /** When a leader with a follower fails, and no older file is there, the way on leads to two attempts. */
  lemma FailureDoubles(w: World, l: nat, f: nat, key: Key) returns (steps: seq<Step>)
    requires Inv(w) && AtUpstream(w, l, key) && w.callers[l].leads.Some? && key !in w.files
    requires f < |w.callers| && w.callers[f] == Waiting(key, w.callers[l].leads.value)
    ensures steps != [] && steps[0] == Move(l, false) && Run(w, steps) && TwoAttempts(End(w, steps), key)
  {
    var fail, leave, wake := Move(l, false), Move(l, true), Move(f, true);
    var w1 := Failing(w, l, f, key);
    var w2 := Withdrawing(w1, l, f, key);
    var w3 := Signalling(w2, l, f, key);
    hide Inv, Enabled, After, Run, End, TwoAttempts;
    var rest := MissDoubles(w3, wake, key);
    First(w3, wake, After(w3, wake), rest);
    First(w2, leave, w3, [wake] + rest);
    First(w1, leave, w2, [leave] + ([wake] + rest));
    First(w, fail, w1, [leave] + ([leave] + ([wake] + rest)));
    steps := [fail] + ([leave] + ([leave] + ([wake] + rest)));
  }

  /** And so it does when its file is evicted before the follower wakes up. */
  lemma EvictionDoubles(w: World, l: nat, f: nat, key: Key) returns (steps: seq<Step>)
    requires Inv(w) && AtUpstream(w, l, key) && w.callers[l].leads.Some?
    requires f < |w.callers| && w.callers[f] == Waiting(key, w.callers[l].leads.value)
    ensures |steps| > 1 && steps[..2] == [Move(l, true), Evict(key)]
    ensures Run(w, steps) && TwoAttempts(End(w, steps), key)
  {
    var store, evict, leave, wake := Move(l, true), Evict(key), Move(l, true), Move(f, true);
    var w1 := Storing(w, l, f, key);
    var w2 := Withdrawing(w1, l, f, key);
    var w3 := Signalling(w2, l, f, key);
    var between := After(w, store);
    hide Inv, Enabled, After, Run, End, TwoAttempts;
    var rest := MissDoubles(w3, wake, key);
    First(w3, wake, After(w3, wake), rest);
    First(w2, leave, w3, [wake] + rest);
    First(w1, leave, w2, [leave] + ([wake] + rest));
    First(between, evict, w1, [leave] + ([leave] + ([wake] + rest)));
    First(w, store, between, [evict] + ([leave] + ([leave] + ([wake] + rest))));
    steps := [store] + ([evict] + ([leave] + ([leave] + ([wake] + rest))));
  }

  /** The leader stores its file, and that is evicted. */
  lemma Storing(w: World, l: nat, f: nat, key: Key) returns (w': World)
    requires Inv(w) && AtUpstream(w, l, key) && w.callers[l].leads.Some?
    requires f < |w.callers| && w.callers[f] == Waiting(key, w.callers[l].leads.value)
    ensures Enabled(w, Move(l, true)) && Enabled(After(w, Move(l, true)), Evict(key))
    ensures w' == After(After(w, Move(l, true)), Evict(key)) && Inv(w') && |w'.callers| == |w.callers|
    ensures w'.callers[l] == Leaving(key, w.callers[l].leads.value) && w'.callers[f] == w.callers[f] && key !in w'.files
  {
    var between := After(w, Move(l, true));
    w' := After(between, Evict(key));
    hide Inv;
    StepKeepsInv(w, Move(l, true));
    StepKeepsInv(between, Evict(key));
  }

  lemma Failing(w: World, l: nat, f: nat, key: Key) returns (w': World)
    requires Inv(w) && AtUpstream(w, l, key) && w.callers[l].leads.Some? && key !in w.files
    requires f < |w.callers| && w.callers[f] == Waiting(key, w.callers[l].leads.value)
    ensures Enabled(w, Move(l, false)) && w' == After(w, Move(l, false)) && Inv(w') && |w'.callers| == |w.callers|
    ensures w'.callers[l] == Leaving(key, w.callers[l].leads.value) && w'.callers[f] == w.callers[f] && key !in w'.files
  {
    w' := After(w, Move(l, false));
    hide Inv;
    StepKeepsInv(w, Move(l, false));
  }

  lemma Withdrawing(w: World, l: nat, f: nat, key: Key) returns (w': World)
    requires Inv(w) && l < |w.callers| && w.callers[l].Leaving? && key !in w.files
    requires f < |w.callers| && w.callers[f] == Waiting(key, w.callers[l].group)
    ensures Enabled(w, Move(l, true)) && w' == After(w, Move(l, true)) && Inv(w') && |w'.callers| == |w.callers|
    ensures w'.callers[l] == Releasing(w.callers[l].key, w.callers[l].group) && w'.callers[f] == w.callers[f] && key !in w'.files
  {
    w' := After(w, Move(l, true));
    hide Inv;
    StepKeepsInv(w, Move(l, true));
  }

  lemma Signalling(w: World, l: nat, f: nat, key: Key) returns (w': World)
    requires Inv(w) && l < |w.callers| && w.callers[l].Releasing? && key !in w.files
    requires f < |w.callers| && w.callers[f] == Waiting(key, w.callers[l].group)
    ensures Enabled(w, Move(l, true)) && w' == After(w, Move(l, true)) && Inv(w') && |w'.callers| == |w.callers| >= 2
    ensures Enabled(w', Move(f, true)) && Misses(w', Move(f, true), key)
  {
    w' := After(w, Move(l, true));
    hide Inv;
    StepKeepsInv(w, Move(l, true));
  }

  lemma First(w: World, s: Step, w': World, rest: seq<Step>)
    requires Enabled(w, s) && After(w, s) == w' && Run(w', rest)
    ensures Run(w, [s] + rest) && End(w, [s] + rest) == End(w', rest)
  {
    assert ([s] + rest)[1..] == rest;
  }

  lemma {:induction false} Joined(w: World, a: seq<Step>, b: seq<Step>)
    requires Run(w, a) && Run(End(w, a), b)
    ensures Run(w, a + b) && End(w, a + b) == End(End(w, a), b)
    decreases |a|
  {
    if a == [] {
      assert a + b == b;
    } else {
      assert (a + b)[1..] == a[1..] + b;
      Joined(After(w, a[0]), a[1..], b);
    }
  }
}
