/**
 * pkg/instancegroups/rollingupdate.go: the rolling update of a whole cluster. Every bastion group runs in a
 * goroutine of its own; then one goroutine walks over the master groups, then one over the node groups, in the
 * arbitrary order of a map iteration. A behaviour is a sequence of atomic actions.
 */
module RollingUpdateCluster {
  import opened Prelude
  import opened RollingUpdateGroup
  import opened RollingUpdateRuns

  datatype Phase = Starting | Rolling(role: Role) | Returned(ok: bool)

  /** An entry of the results map: the placeholder written first, or the group's own result. */
  datatype Result = Pending | Outcome(ok: bool)

  /** The goroutine that walks over the groups of one role: those it has not come to, and the one it is updating. */
  datatype Walk = Walk(left: set<Name>, current: Option<Name>)

  /** logs holds the run of every group whose update has begun; trace is what the world has seen. */
  datatype State = State(phase: Phase, walk: Walk, logs: map<Name, Log>, results: map<Name, Result>, trace: seq<Event>)

  datatype Action = Begin | Launch(k: Name) | Advance(k: Name, next: PC, evs: seq<Event>) | Record(k: Name) | NextPhase

  const INITIAL := State(Starting, Walk({}, None), map[], map[], [])

  function Rank(r: Role): nat {
    match r
    case Bastion => 0
    case Master => 1
    case Worker => 2
    case Unrecognized => 3
  }

  predicate Recorded(s: State, k: Name) {
    k in s.results && s.results[k].Outcome?
  }

  /** The goroutine of this group is at its update: a bastion's own one, or the walk that has come to it. */
  predicate InTurn(gs: map<Name, Group>, s: State, k: Name) {
    k in gs && s.phase == Rolling(gs[k].role) && k in s.logs && (gs[k].role.Bastion? || s.walk.current == Some(k))
  }

  /** What the control state permits: a wait ends when all bastion goroutines, or the walk, have come to their end. */
  ghost predicate Allowed(gs: map<Name, Group>, s: State, a: Action) {
    match a
    case Begin => s.phase.Starting?
    case Launch(k) =>
      k in gs && s.phase == Rolling(gs[k].role)
      && if gs[k].role.Bastion? then k !in s.logs else s.walk.current.None? && k in s.walk.left
    case Advance(k, _, _) => InTurn(gs, s, k)
    case Record(k) => InTurn(gs, s, k) && Reached(s.logs[k]).Finished? && !Recorded(s, k)
    case NextPhase =>
      s.phase.Rolling?
      && if s.phase.role.Bastion? then forall k :: k in gs && gs[k].role.Bastion? ==> Recorded(s, k)
         else s.walk == Walk({}, None)
  }

  ghost predicate Enabled(c: Config, gs: map<Name, Group>, s: State, a: Action) {
    && Allowed(gs, s, a)
    && (a.Advance? ==> Step(c, a.k, gs[a.k], Reached(s.logs[a.k]), a.next, a.evs))
  }

  function Names(gs: map<Name, Group>, r: Role): set<Name> {
    set k | k in gs && gs[k].role == r
  }

  function Placeholders(gs: map<Name, Group>, r: Role): map<Name, Result> {
    map k | k in gs && gs[k].role == r :: Pending
  }

  /** A walk starts with placeholders for all its groups. */
  function StartWalk(gs: map<Name, Group>, s: State, r: Role): State {
    s.(phase := Rolling(r), walk := Walk(Names(gs, r), None), results := s.results + Placeholders(gs, r))
  }

  ghost function Apply(gs: map<Name, Group>, s: State, a: Action): State
    requires a.Advance? || a.Record? ==> a.k in s.logs
  {
    match a
    case Begin =>
      if gs == map[] then s.(phase := Returned(true))
      else if exists k :: k in gs && gs[k].role.Unrecognized? then s.(phase := Returned(false))
      else s.(phase := Rolling(Bastion))
    case Launch(k) =>
      if s.phase == Rolling(Bastion) then s.(logs := s.logs[k := Start], results := s.results[k := Pending])
      else s.(logs := s.logs[k := Start], walk := Walk(s.walk.left - {k}, Some(k)))
    case Advance(k, next, evs) => s.(logs := s.logs[k := Then(s.logs[k], next, evs)], trace := s.trace + evs)
    case Record(k) =>
      s.(results := s.results[k := Outcome(Reached(s.logs[k]) == Finished(true))], walk := s.walk.(current := None))
    case NextPhase =>
      if s.phase == Rolling(Bastion) then StartWalk(gs, s, Master)
      else if s.phase == Rolling(Master) then StartWalk(gs, s, Worker)
      else s.(phase := Returned(forall k :: k in s.results ==> s.results[k] == Outcome(true)))
  }

  datatype Behaviour = Idle | Do(before: Behaviour, action: Action)

  ghost predicate Legal(c: Config, gs: map<Name, Group>, b: Behaviour)
    decreases b, 0
  {
    b.Do? ==> Legal(c, gs, b.before) && Enabled(c, gs, Now(c, gs, b.before), b.action)
  }

  ghost function Now(c: Config, gs: map<Name, Group>, b: Behaviour): State
    requires Legal(c, gs, b)
    decreases b, 1
  {
    if b.Idle? then INITIAL else Apply(gs, Now(c, gs, b.before), b.action)
  }

  // ----- Control: phases, logs and results

  ghost predicate Known(gs: map<Name, Group>) {
    forall k :: k in gs ==> !gs[k].role.Unrecognized?
  }

  /** The log of every group is a run of its own machine. */
  ghost predicate Logged(c: Config, gs: map<Name, Group>, s: State) {
    forall k :: k in s.logs ==> k in gs && IsRun(c, k, gs[k], s.logs[k])
  }

  /** A recorded result is the one the group's run ended with. */
  ghost predicate Entered(gs: map<Name, Group>, s: State) {
    && (forall k :: k in s.logs ==> k in s.results)
    && (forall k :: k in s.results ==> k in gs)
    && (forall k :: Recorded(s, k) ==> k in s.logs && Reached(s.logs[k]) == Finished(s.results[k].ok))
  }

  /** Earlier phases are over, later ones have not begun. */
  ghost predicate Phased(gs: map<Name, Group>, s: State) {
    s.phase.Rolling? ==>
      && !s.phase.role.Unrecognized?
      && (forall k :: k in s.logs && k in gs ==> Rank(gs[k].role) <= Rank(s.phase.role))
      && (forall k :: k in gs && Rank(gs[k].role) < Rank(s.phase.role) ==> Recorded(s, k))
  }

  ghost predicate Ended(gs: map<Name, Group>, s: State) {
    && (s.phase.Starting? ==> s == INITIAL)
    && (s.phase.Rolling? ==> Known(gs))
    && (!Known(gs) ==> s == INITIAL || s == INITIAL.(phase := Returned(false)))
    && (s.phase.Returned? && Known(gs) ==>
          && (forall k :: k in gs ==> Recorded(s, k))
          && (s.phase.ok <==> forall k :: k in gs ==> s.results[k] == Outcome(true)))
  }

  /** The walk has begun exactly the groups it is not to come to, and all but the current one have their result. */
  ghost predicate Walking(gs: map<Name, Group>, s: State) {
    && (s.phase.Rolling? && !s.phase.role.Bastion? ==>
          && (forall k :: k in s.walk.left <==> k in gs && gs[k].role == s.phase.role && k !in s.logs)
          && (forall k :: k in s.walk.left ==> k in s.results)
          && (forall k :: s.walk.current == Some(k) <==>
                k in gs && gs[k].role == s.phase.role && k in s.logs && !Recorded(s, k)))
    && (s.phase == Rolling(Bastion) ==> s.walk == Walk({}, None))
  }

  /** The orderly course of things, as it follows from the control state. */
  ghost predicate Orderly(gs: map<Name, Group>, s: State, a: Action) {
    match a
    case Begin => s.phase.Starting?
    case Launch(k) =>
      && k in gs && s.phase == Rolling(gs[k].role) && k !in s.logs
      && (gs[k].role.Bastion? ||
            (k in s.results && forall j :: j in s.logs && j in gs && gs[j].role == gs[k].role ==> Recorded(s, j)))
    case Advance(k, next, evs) =>
      && k in gs && s.phase == Rolling(gs[k].role) && k in s.logs && !Reached(s.logs[k]).Finished?
      && |evs| <= 1 && (evs != [] ==> evs[0].group == k)
    case Record(k) =>
      k in gs && s.phase == Rolling(gs[k].role) && k in s.logs && Reached(s.logs[k]).Finished? && !Recorded(s, k)
    case NextPhase =>
      s.phase.Rolling? && forall k :: k in gs && gs[k].role == s.phase.role ==> Recorded(s, k)
  }

  lemma EnabledIsOrderly(c: Config, gs: map<Name, Group>, s: State, a: Action)
    requires Walking(gs, s) && Enabled(c, gs, s, a)
    ensures Orderly(gs, s, a)
  {
    if a.NextPhase? && !s.phase.role.Bastion? {
      forall k | k in gs && gs[k].role == s.phase.role ensures Recorded(s, k) {
        assert k !in s.walk.left && s.walk.current != Some(k);
      }
    }
  }

  lemma WalkingStep(gs: map<Name, Group>, s: State, a: Action)
    requires Walking(gs, s) && Entered(gs, s) && Phased(gs, s) && Ended(gs, s)
    requires Allowed(gs, s, a) && Orderly(gs, s, a)
    ensures Walking(gs, Apply(gs, s, a))
  {
    var t := Apply(gs, s, a);
    if a.NextPhase? {
      WalkBegins(gs, s);
    } else if a.Launch? || a.Record? {
      assert forall k :: k != a.k ==> (Recorded(t, k) <==> Recorded(s, k));
      assert forall k :: k != a.k ==> (k in t.logs <==> k in s.logs);
    }
  }

  lemma WalkBegins(gs: map<Name, Group>, s: State)
    requires Entered(gs, s) && Phased(gs, s) && Orderly(gs, s, NextPhase)
    ensures Walking(gs, Apply(gs, s, NextPhase))
  {
    var t := Apply(gs, s, NextPhase);
    if t.phase.Rolling? {
      forall k | k in gs && gs[k].role == t.phase.role ensures k !in s.logs {
        assert Rank(gs[k].role) > Rank(s.phase.role);
      }
    }
  }

  lemma LoggedStep(c: Config, gs: map<Name, Group>, s: State, a: Action)
    requires Logged(c, gs, s) && Enabled(c, gs, s, a)
    ensures Logged(c, gs, Apply(gs, s, a))
  {
  }

  /** Placeholders only ever replace results that are not in yet. */
  lemma PhaseKeepsResults(gs: map<Name, Group>, s: State)
    requires Entered(gs, s) && Phased(gs, s) && Orderly(gs, s, NextPhase)
    ensures forall k :: Recorded(s, k) ==>
              Recorded(Apply(gs, s, NextPhase), k) && Apply(gs, s, NextPhase).results[k] == s.results[k]
    ensures forall k :: Recorded(Apply(gs, s, NextPhase), k) ==> Recorded(s, k)
  {
    var t := Apply(gs, s, NextPhase);
    forall k | Recorded(s, k) ensures Recorded(t, k) && t.results[k] == s.results[k] {
      assert Rank(gs[k].role) <= Rank(s.phase.role);
    }
  }

  lemma EnteredStep(gs: map<Name, Group>, s: State, a: Action)
    requires Entered(gs, s) && Phased(gs, s) && Orderly(gs, s, a)
    ensures Entered(gs, Apply(gs, s, a))
  {
    if a.NextPhase? {
      PhaseKeepsResults(gs, s);
    }
  }

  lemma PhasedStep(gs: map<Name, Group>, s: State, a: Action)
    requires Entered(gs, s) && Phased(gs, s) && Ended(gs, s) && Orderly(gs, s, a)
    ensures Phased(gs, Apply(gs, s, a))
  {
    var t := Apply(gs, s, a);
    if a.NextPhase? {
      PhaseKeepsResults(gs, s);
      forall k | k in gs && Rank(gs[k].role) <= Rank(s.phase.role) ensures Recorded(t, k) {
        assert Recorded(s, k);
      }
    } else {
      assert forall k :: Recorded(s, k) && !(a.Launch? && k == a.k) ==> Recorded(t, k);
    }
  }

  lemma EndedStep(gs: map<Name, Group>, s: State, a: Action)
    requires Entered(gs, s) && Phased(gs, s) && Ended(gs, s) && Orderly(gs, s, a)
    ensures Ended(gs, Apply(gs, s, a))
  {
    var t := Apply(gs, s, a);
    if a.NextPhase? && t.phase.Returned? {
      forall k | k in gs ensures Recorded(s, k) {
        assert Rank(gs[k].role) <= Rank(Worker);
      }
    }
  }

  // ----- The trace: every group's own events, in phase order, in one block

  /** The events of one group. */
  function Own(trace: seq<Event>, k: Name): seq<Event> {
    if trace == [] then []
    else
      var e := trace[|trace| - 1];
      Own(trace[..|trace| - 1], k) + if e.group == k then [e] else []
  }

  function LogOf(s: State, k: Name): Log {
    if k in s.logs then s.logs[k] else Start
  }

  /** Restricted to one group, the trace is what that group's own sequential run emitted. */
  ghost predicate Projects(s: State) {
    && (forall k :: Own(s.trace, k) == Events(LogOf(s, k)))
    && (forall i :: 0 <= i < |s.trace| ==> s.trace[i].group in s.logs)
  }

  predicate InOrder(gs: map<Name, Group>, a: Event, b: Event) {
    a.group in gs && b.group in gs && Rank(gs[a.group].role) <= Rank(gs[b.group].role)
  }

  /** Bastion events, then master events, then node events. */
  ghost predicate Sorted(gs: map<Name, Group>, trace: seq<Event>) {
    forall i, j :: 0 <= i <= j < |trace| ==> InOrder(gs, trace[i], trace[j])
  }

  /** The events of group k are exactly those at n, n + 1, ..., with nothing in between. */
  predicate BlockAt(trace: seq<Event>, k: Name, events: seq<Event>, n: nat) {
    && n + |events| <= |trace|
    && trace[n..n + |events|] == events
    && forall j :: 0 <= j < |trace| && trace[j].group == k ==> n <= j < n + |events|
  }

  /** open: the block ends the trace. */
  ghost predicate HasBlock(trace: seq<Event>, k: Name, events: seq<Event>, open: bool) {
    exists n: nat :: BlockAt(trace, k, events, n) && (open ==> n + |events| == |trace|)
  }

  /** A serial group's events are uninterrupted; while it is under way, they end the trace. */
  ghost predicate Blocks(gs: map<Name, Group>, s: State) {
    forall k :: k in s.logs && k in gs && !gs[k].role.Bastion? ==>
      HasBlock(s.trace, k, Events(s.logs[k]), !Recorded(s, k))
  }

  lemma OwnSnoc(trace: seq<Event>, evs: seq<Event>, k: Name)
    requires |evs| <= 1
    ensures Own(trace + evs, k) == if evs != [] && evs[0].group == k then Own(trace, k) + evs else Own(trace, k)
  {
    if evs != [] {
      assert (trace + evs)[..|trace|] == trace;
      assert evs == [evs[0]];
      assert Own(trace, k) + [] == Own(trace, k);
    } else {
      assert trace + evs == trace;
    }
  }

  lemma ProjectsAdvance(s: State, j: Name, next: PC, evs: seq<Event>, k: Name)
    requires j in s.logs && |evs| <= 1 && (evs != [] ==> evs[0].group == j)
    requires Own(s.trace, k) == Events(LogOf(s, k))
    ensures Own(s.trace + evs, k) == Events(LogOf(s.(logs := s.logs[j := Then(s.logs[j], next, evs)]), k))
  {
    OwnSnoc(s.trace, evs, k);
    assert evs == [] ==> Events(LogOf(s, k)) + evs == Events(LogOf(s, k));
  }

  lemma ProjectsQuietly(s: State, t: State)
    requires Projects(s) && t.trace == s.trace && s.logs.Keys <= t.logs.Keys
    requires forall k :: k in t.logs ==> t.logs[k] == LogOf(s, k)
    ensures Projects(t)
  {
    forall k ensures Own(t.trace, k) == Events(LogOf(t, k)) {
      assert LogOf(t, k) == LogOf(s, k);
    }
  }

  lemma TraceStaysLogged(s: State, k: Name, log: Log, evs: seq<Event>)
    requires k in s.logs && |evs| <= 1 && (evs != [] ==> evs[0].group == k)
    requires forall i :: 0 <= i < |s.trace| ==> s.trace[i].group in s.logs
    ensures forall i :: 0 <= i < |s.trace + evs| ==> (s.trace + evs)[i].group in s.logs[k := log]
  {
  }

  lemma ProjectsStep(gs: map<Name, Group>, s: State, a: Action)
    requires Projects(s) && Orderly(gs, s, a)
    ensures Projects(Apply(gs, s, a))
  {
    var t := Apply(gs, s, a);
    if a.Advance? {
      forall k ensures Own(t.trace, k) == Events(LogOf(t, k)) {
        ProjectsAdvance(s, a.k, a.next, a.evs, k);
      }
      TraceStaysLogged(s, a.k, Then(s.logs[a.k], a.next, a.evs), a.evs);
    } else {
      ProjectsQuietly(s, t);
    }
  }

  lemma SortedSnoc(gs: map<Name, Group>, trace: seq<Event>, evs: seq<Event>, k: Name)
    requires Sorted(gs, trace) && k in gs && |evs| <= 1 && (evs != [] ==> evs[0].group == k)
    requires forall i :: 0 <= i < |trace| ==> trace[i].group in gs && Rank(gs[trace[i].group].role) <= Rank(gs[k].role)
    ensures Sorted(gs, trace + evs)
  {
    var t := trace + evs;
    forall i, j | 0 <= i <= j < |t| ensures InOrder(gs, t[i], t[j]) {
      if j < |trace| {
        assert InOrder(gs, trace[i], trace[j]);
      }
    }
  }

  lemma SortedStep(gs: map<Name, Group>, s: State, a: Action)
    requires Entered(gs, s) && Phased(gs, s) && Projects(s) && Sorted(gs, s.trace) && Orderly(gs, s, a)
    ensures Sorted(gs, Apply(gs, s, a).trace)
  {
    if a.Advance? {
      forall i | 0 <= i < |s.trace|
        ensures s.trace[i].group in gs && Rank(gs[s.trace[i].group].role) <= Rank(gs[a.k].role)
      {
        assert s.trace[i].group in s.logs;
      }
      SortedSnoc(gs, s.trace, a.evs, a.k);
    }
  }

  /** A serial group that has begun and whose result is not in yet. */
  predicate UnderWay(gs: map<Name, Group>, s: State, k: Name) {
    k in s.logs && k in gs && !gs[k].role.Bastion? && !Recorded(s, k)
  }

  /** Two serial groups are never under way at once. */
  ghost predicate OneAtATime(gs: map<Name, Group>, s: State) {
    forall j, k :: UnderWay(gs, s, j) && UnderWay(gs, s, k) ==> j == k
  }

  /** The group under way is the one the walk has come to, hence the only one. */
  lemma WalkIsSerial(gs: map<Name, Group>, s: State)
    requires Walking(gs, s) && Entered(gs, s) && Phased(gs, s) && Ended(gs, s)
    ensures OneAtATime(gs, s)
  {
    forall k | UnderWay(gs, s, k) ensures s.phase.Rolling? && s.walk.current == Some(k) {
      assert k in s.logs;
      if s.phase.Rolling? {
        assert Rank(gs[k].role) <= Rank(s.phase.role);
      }
    }
  }

  lemma ExtendBlock(trace: seq<Event>, k: Name, events: seq<Event>, evs: seq<Event>)
    requires HasBlock(trace, k, events, true)
    ensures HasBlock(trace + evs, k, events + evs, true)
  {
    var n: nat :| BlockAt(trace, k, events, n) && n + |events| == |trace|;
    assert (trace + evs)[n..] == trace[n..] + evs;
    assert BlockAt(trace + evs, k, events + evs, n);
  }

  lemma KeepBlock(trace: seq<Event>, k: Name, events: seq<Event>, evs: seq<Event>)
    requires HasBlock(trace, k, events, false)
    requires forall i :: 0 <= i < |evs| ==> evs[i].group != k
    ensures HasBlock(trace + evs, k, events, false)
  {
    var n: nat :| BlockAt(trace, k, events, n);
    assert (trace + evs)[n..n + |events|] == trace[n..n + |events|];
    assert BlockAt(trace + evs, k, events, n);
  }

  lemma BlocksAdvance(gs: map<Name, Group>, s: State, a: Action)
    requires a.Advance? && Entered(gs, s) && Phased(gs, s) && OneAtATime(gs, s) && Blocks(gs, s) && Orderly(gs, s, a)
    ensures Blocks(gs, Apply(gs, s, a))
  {
    var t := Apply(gs, s, a);
    assert !Recorded(s, a.k);
    forall k | k in t.logs && k in gs && !gs[k].role.Bastion?
      ensures HasBlock(t.trace, k, Events(t.logs[k]), !Recorded(t, k))
    {
      if k == a.k {
        ExtendBlock(s.trace, k, Events(s.logs[k]), a.evs);
      } else {
        assert Rank(gs[k].role) <= Rank(gs[a.k].role);
        assert UnderWay(gs, s, a.k);
        assert !UnderWay(gs, s, k);
        KeepBlock(s.trace, k, Events(s.logs[k]), a.evs);
      }
    }
  }

  lemma BlocksStep(gs: map<Name, Group>, s: State, a: Action)
    requires Entered(gs, s) && Phased(gs, s) && Projects(s) && OneAtATime(gs, s) && Blocks(gs, s) && Orderly(gs, s, a)
    ensures Blocks(gs, Apply(gs, s, a))
  {
    if a.Advance? {
      BlocksAdvance(gs, s, a);
    } else {
      var t := Apply(gs, s, a);
      if a.NextPhase? {
        PhaseKeepsResults(gs, s);
      }
      forall k | k in t.logs && k in gs && !gs[k].role.Bastion?
        ensures HasBlock(t.trace, k, Events(t.logs[k]), !Recorded(t, k))
      {
        if a == Launch(k) {
          assert BlockAt(t.trace, k, Events(t.logs[k]), |t.trace|);
        } else {
          assert HasBlock(s.trace, k, Events(s.logs[k]), !Recorded(s, k));
        }
      }
    }
  }

  // ----- Every reachable state

  lemma {:induction false} Invariant(c: Config, gs: map<Name, Group>, b: Behaviour)
    requires Legal(c, gs, b)
    ensures var s := Now(c, gs, b);
            && Logged(c, gs, s) && Entered(gs, s) && Phased(gs, s) && Ended(gs, s) && Walking(gs, s)
            && Projects(s) && Sorted(gs, s.trace) && OneAtATime(gs, s) && Blocks(gs, s)
  {
    if b.Do? {
      Invariant(c, gs, b.before);
      var s, a := Now(c, gs, b.before), b.action;
      EnabledIsOrderly(c, gs, s, a);
      WalkingStep(gs, s, a);
      LoggedStep(c, gs, s, a);
      EnteredStep(gs, s, a);
      PhasedStep(gs, s, a);
      EndedStep(gs, s, a);
      ProjectsStep(gs, s, a);
      SortedStep(gs, s, a);
      BlocksStep(gs, s, a);
      WalkIsSerial(gs, Apply(gs, s, a));
    }
  }

  // ----- No deadlock

  /** The machine of a group always has a next step before its end. */
  lemma MachineGoesOn(c: Config, k: Name, g: Group, pc: PC) returns (next: PC, evs: seq<Event>)
    requires InRange(c, g, pc) && !pc.Finished?
    ensures Step(c, k, g, pc, next, evs)
  {
    var silent := V.Snapshot(0, false, None, None, None);
    var failed := [Validated(k, silent, false)];
    match pc
    case Entering => next, evs := Entry(c, g), [];
    case Checking => next, evs := if c.failOnValidate then Finished(false) else Draining(0), failed;
    case Draining(i) =>
      var drains := Guarded(c, g) && Work(c, g)[i].registered;
      next, evs := Deleting(i), if drains then [Drained(k, Work(c, g)[i], true)] else [];
    case Deleting(i) => next, evs := Finished(false), [Deleted(k, Work(c, g)[i], false)];
    case Settling(i, _) => next, evs := Settling(i, true), failed;
  }

  /** A group whose turn it is and whose result is not in can take a step or record its result. */
  lemma TurnGoesOn(c: Config, gs: map<Name, Group>, s: State, k: Name) returns (a: Action)
    requires Logged(c, gs, s) && InTurn(gs, s, k) && !Recorded(s, k)
    ensures Enabled(c, gs, s, a)
  {
    if Reached(s.logs[k]).Finished? {
      a := Record(k);
    } else {
      AttemptsFollowTheWorkList(c, k, gs[k], s.logs[k]);
      var next, evs := MachineGoesOn(c, k, gs[k], Reached(s.logs[k]));
      a := Advance(k, next, evs);
    }
  }

  /** Until the update has returned, something can always happen. */
  lemma NeverStuck(c: Config, gs: map<Name, Group>, b: Behaviour) returns (a: Action)
    requires Legal(c, gs, b) && !Now(c, gs, b).phase.Returned?
    ensures Legal(c, gs, Do(b, a))
  {
    Invariant(c, gs, b);
    var s := Now(c, gs, b);
    if s.phase.Starting? {
      a := Begin;
    } else if s.phase.role.Bastion? {
      if k :| k in gs && gs[k].role.Bastion? && !Recorded(s, k) {
        if k in s.logs {
          a := TurnGoesOn(c, gs, s, k);
        } else {
          a := Launch(k);
        }
      } else {
        a := NextPhase;
      }
    } else if s.walk.current.Some? {
      a := TurnGoesOn(c, gs, s, s.walk.current.value);
    } else if k :| k in s.walk.left {
      a := Launch(k);
    } else {
      a := NextPhase;
    }
  }

  // ----- What follows for every behaviour

  /** All bastion events precede all master events, which precede all node events. */
  lemma PhasesDoNotMix(c: Config, gs: map<Name, Group>, b: Behaviour, i: nat, j: nat)
    requires Legal(c, gs, b)
    requires i <= j < |Now(c, gs, b).trace|
    ensures var trace := Now(c, gs, b).trace;
            && trace[i].group in gs && trace[j].group in gs
            && (gs[trace[i].group].role.Master? ==> !gs[trace[j].group].role.Bastion?)
            && (gs[trace[i].group].role.Worker? ==> gs[trace[j].group].role.Worker?)
  {
    Invariant(c, gs, b);
    var trace := Now(c, gs, b).trace;
    var s := Now(c, gs, b);
    assert InOrder(gs, trace[i], trace[j]);
    assert trace[j].group in s.logs;
  }

  /** Where the events of a serial group stand: at n, in one block, as its run emitted them. */
  lemma InItsBlock(c: Config, gs: map<Name, Group>, b: Behaviour, j: nat) returns (n: nat)
    requires Legal(c, gs, b) && j < |Now(c, gs, b).trace|
    requires var e := Now(c, gs, b).trace[j]; e.group in gs && !gs[e.group].role.Bastion?
    ensures var s := Now(c, gs, b);
            var k := s.trace[j].group;
            k in s.logs && IsRun(c, k, gs[k], s.logs[k]) && BlockAt(s.trace, k, Events(s.logs[k]), n)
  {
    Invariant(c, gs, b);
    var s := Now(c, gs, b);
    var k := s.trace[j].group;
    assert HasBlock(s.trace, k, Events(s.logs[k]), !Recorded(s, k));
    n :| BlockAt(s.trace, k, Events(s.logs[k]), n);
  }

  lemma BlockEntry(trace: seq<Event>, k: Name, events: seq<Event>, n: nat, m: nat)
    requires BlockAt(trace, k, events, n) && n <= m < n + |events|
    ensures trace[m] == events[m - n]
  {
    assert trace[m] == trace[n..n + |events|][m - n];
  }

  /** Between two events of one master or node group, no other group does anything. */
  lemma SerialGroupsDoNotOverlap(c: Config, gs: map<Name, Group>, b: Behaviour, i: nat, m: nat, j: nat)
    requires Legal(c, gs, b)
    requires i <= m <= j < |Now(c, gs, b).trace|
    requires var trace := Now(c, gs, b).trace;
             trace[i].group == trace[j].group && trace[i].group in gs && !gs[trace[i].group].role.Bastion?
    ensures var trace := Now(c, gs, b).trace; trace[m].group == trace[i].group
  {
    var s := Now(c, gs, b);
    var k := s.trace[i].group;
    var n := InItsBlock(c, gs, b, i);
    var events := Events(s.logs[k]);
    RunEventsAreOwn(c, k, gs[k], s.logs[k]);
    BlockEntry(s.trace, k, events, n, m);
  }

  /** An unknown role stops everything before anything is touched, and the update fails. */
  lemma UnknownRoleTouchesNothing(c: Config, gs: map<Name, Group>, b: Behaviour, k: Name)
    requires Legal(c, gs, b) && k in gs && gs[k].role.Unrecognized?
    ensures var s := Now(c, gs, b); s.trace == [] && (s.phase.Starting? || s.phase == Returned(false))
  {
    Invariant(c, gs, b);
  }

  /**
   * When the update has returned: every group ran to its end, the results map holds each group's own result,
   * the update succeeded exactly when every group did, and a group that succeeded had every member of its work
   * list deleted exactly once; a group that failed attempted a prefix of it.
   */
  lemma ReturnedResult(c: Config, gs: map<Name, Group>, b: Behaviour)
    requires Legal(c, gs, b) && Known(gs) && Now(c, gs, b).phase.Returned?
    ensures var s := Now(c, gs, b);
            && (forall k :: k in gs ==> GroupSettled(c, gs[k], s, k))
            && (s.phase.ok <==> forall k :: k in gs ==> s.results[k] == Outcome(true))
  {
    Invariant(c, gs, b);
    var s := Now(c, gs, b);
    forall k | k in gs ensures GroupSettled(c, gs[k], s, k) {
      assert Recorded(s, k);
      assert LogOf(s, k) == s.logs[k];
      AttemptsFollowTheWorkList(c, k, gs[k], s.logs[k]);
      RunIsAccounted(c, k, gs[k], s.logs[k]);
      if s.results[k].ok {
        WholeWorkListOnSuccess(c, k, gs[k], s.logs[k]);
        NoRefusals(Events(s.logs[k]));
      }
    }
  }

  ghost predicate GroupSettled(c: Config, g: Group, s: State, k: Name) {
    && Recorded(s, k) && k in s.logs
    && IsRun(c, k, g, s.logs[k])
    && Reached(s.logs[k]) == Finished(s.results[k].ok)
    && Own(s.trace, k) == Events(s.logs[k])
    && Attempts(Own(s.trace, k)) <= (if c.force then g.needUpdate + g.ready else g.needUpdate)
    && (s.results[k].ok ==>
          && Attempts(Own(s.trace, k)) == (if c.force then g.needUpdate + g.ready else g.needUpdate)
          && forall i :: 0 <= i < |Own(s.trace, k)| && Own(s.trace, k)[i].Deleted? ==> Own(s.trace, k)[i].ok)
    && (s.results[k].ok <==> !Misconfigured(c) && !EndsFatally(c, Own(s.trace, k)))
  }

  // ----- Safety across groups

  lemma {:induction false} PacedAt(events: seq<Event>, p: nat)
    requires Paced(events) && p < |events| && events[p].Deleted?
    ensures Armed(events[..p])
  {
    if p < |events| - 1 {
      PacedAt(events[..|events| - 1], p);
      assert events[..|events| - 1][..p] == events[..p];
    }
  }

  lemma {:induction false} ArmedWitness(events: seq<Event>) returns (q: nat)
    requires Armed(events)
    ensures q < |events| && events[q].Validated? && events[q].passed
    ensures forall m :: q < m < |events| ==> events[m].Drained?
  {
    q := |events| - 1;
    if events[q].Drained? {
      q := ArmedWitness(events[..|events| - 1]);
    }
  }

  lemma PacedWitness(events: seq<Event>, p: nat) returns (q: nat)
    requires Paced(events) && Truthful(events) && p < |events| && events[p].Deleted?
    ensures q < p && events[q].Validated? && V.Passes(events[q].snapshot)
    ensures forall m :: q < m < p ==> events[m].Drained?
  {
    PacedAt(events, p);
    q := ArmedWitness(events[..p]);
    assert TruthfulEvent(events[q]);
    forall m | q < m < p ensures events[m].Drained? {
      assert events[m] == events[..p][m];
    }
  }

  lemma {:induction false} DrainedFirstAt(events: seq<Event>, p: nat)
    requires DrainedFirst(events) && p < |events| && events[p].Deleted? && events[p].member.registered
    ensures p > 0 && events[p - 1] == Drained(events[p].group, events[p].member, true)
  {
    if p < |events| - 1 {
      DrainedFirstAt(events[..|events| - 1], p);
    }
  }

  lemma PacedBlock(trace: seq<Event>, k: Name, events: seq<Event>, n: nat, j: nat) returns (i: nat)
    requires BlockAt(trace, k, events, n) && Paced(events) && Truthful(events)
    requires j < |trace| && trace[j].group == k && trace[j].Deleted?
    ensures i < j && trace[i].Validated? && V.Passes(trace[i].snapshot)
    ensures forall m :: i < m < j ==> trace[m].Drained?
  {
    BlockEntry(trace, k, events, n, j);
    var q := PacedWitness(events, j - n);
    i := n + q;
    BlockEntry(trace, k, events, n, i);
    forall m | i < m < j ensures trace[m].Drained? {
      BlockEntry(trace, k, events, n, m);
    }
  }

  lemma DrainedBlock(trace: seq<Event>, k: Name, events: seq<Event>, n: nat, j: nat)
    requires BlockAt(trace, k, events, n) && DrainedFirst(events)
    requires j < |trace| && trace[j].group == k && trace[j].Deleted? && trace[j].member.registered
    ensures j > 0 && trace[j - 1] == Drained(k, trace[j].member, true)
  {
    BlockEntry(trace, k, events, n, j);
    DrainedFirstAt(events, j - n);
    BlockEntry(trace, k, events, n, j - 1);
  }

  /**
   * With cloud-only off, drain-and-validate on and fail-on-validate on: before every attempt to delete a master
   * or a node, anywhere in any behaviour, the cluster was seen healthy, and between that moment and the attempt
   * nothing but drains happened. In particular two such attempts always have a healthy cluster between them,
   * also across groups and after failures.
   */
  lemma HealthyBeforeEveryDeletion(c: Config, gs: map<Name, Group>, b: Behaviour, j: nat) returns (i: nat)
    requires Legal(c, gs, b) && !c.cloudOnly && c.drainAndValidate && c.failOnValidate
    requires j < |Now(c, gs, b).trace| && Now(c, gs, b).trace[j].Deleted?
    requires var k := Now(c, gs, b).trace[j].group; k in gs && !gs[k].role.Bastion?
    ensures var trace := Now(c, gs, b).trace;
            && i < j && trace[i].Validated? && V.Passes(trace[i].snapshot)
            && forall m :: i < m < j ==> trace[m].Drained?
  {
    var s := Now(c, gs, b);
    var k := s.trace[j].group;
    var n := InItsBlock(c, gs, b, j);
    RunIsPaced(c, k, gs[k], s.logs[k]);
    RunEventsAreOwn(c, k, gs[k], s.logs[k]);
    i := PacedBlock(s.trace, k, Events(s.logs[k]), n, j);
  }

  /** With fail-on-drain-error on, a registered master or node is deleted only right after its successful drain. */
  lemma DrainedBeforeEveryDeletion(c: Config, gs: map<Name, Group>, b: Behaviour, j: nat)
    requires Legal(c, gs, b) && !c.cloudOnly && c.drainAndValidate && c.failOnDrain
    requires j < |Now(c, gs, b).trace|
    requires var e := Now(c, gs, b).trace[j];
             e.Deleted? && e.member.registered && e.group in gs && !gs[e.group].role.Bastion?
    ensures var trace := Now(c, gs, b).trace;
            j > 0 && trace[j - 1] == Drained(trace[j].group, trace[j].member, true)
  {
    var s := Now(c, gs, b);
    var k := s.trace[j].group;
    var n := InItsBlock(c, gs, b, j);
    RunDrainsFirst(c, k, gs[k], s.logs[k]);
    DrainedBlock(s.trace, k, Events(s.logs[k]), n, j);
  }
}
