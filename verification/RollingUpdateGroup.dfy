/**
 * pkg/instancegroups/instancegroups.go: the rolling update of one instance group, as a machine whose
 * steps emit events, and as the loop of the source, which is proved to be a run of that machine.
 */
module RollingUpdateGroup {
  import V = Validation

  type Name = string

  datatype Role = Bastion | Master | Worker | Unrecognized

  /** registered: the instance has a node in kubernetes. */
  datatype Member = Member(id: string, registered: bool)

  datatype Group = Group(role: Role, needUpdate: seq<Member>, ready: seq<Member>)

  datatype Config = Config(hasCloud: bool, hasClient: bool, hasGroupList: bool, force: bool, cloudOnly: bool,
                           drainAndValidate: bool, failOnDrain: bool, failOnValidate: bool)

  /** What an update does to the world. A Deleted event is an attempt; ok tells whether the cloud accepted it. */
  datatype Event =
    | Validated(group: Name, snapshot: V.Snapshot, passed: bool)
    | Drained(group: Name, member: Member, ok: bool)
    | Deleted(group: Name, member: Member, ok: bool)

  /** What is to be updated: the members that need it, and after them, if forced, those that do not. */
  function Work(c: Config, g: Group): seq<Member> {
    if c.force then g.needUpdate + g.ready else g.needUpdate
  }

  /** Drains and validations happen for this group. */
  predicate Guarded(c: Config, g: Group) {
    !g.role.Bastion? && !c.cloudOnly && c.drainAndValidate
  }

  // ----- The machine

  /** Settling is the wait for the cluster to validate after a deletion; tried: at least one attempt was made. */
  datatype PC =
    | Entering
    | Checking
    | Draining(i: nat)
    | Deleting(i: nat)
    | Settling(i: nat, tried: bool)
    | Finished(ok: bool)

  function Entry(c: Config, g: Group): PC {
    if !c.hasCloud || (!c.hasClient && !c.cloudOnly) || !c.hasGroupList then Finished(false)
    else if Work(c, g) == [] then Finished(true)
    else if Guarded(c, g) then Checking
    else Draining(0)
  }

  function After(c: Config, g: Group, i: nat): PC {
    if i + 1 < |Work(c, g)| then Draining(i + 1) else Finished(true)
  }

  ghost predicate IsValidation(k: Name, evs: seq<Event>) {
    |evs| == 1 && evs[0].Validated? && evs[0].group == k && (evs[0].passed <==> V.Passes(evs[0].snapshot))
  }

  predicate IsDrain(k: Name, m: Member, evs: seq<Event>) {
    |evs| == 1 && evs[0].Drained? && evs[0].group == k && evs[0].member == m
  }

  predicate IsDelete(k: Name, m: Member, evs: seq<Event>) {
    |evs| == 1 && evs[0].Deleted? && evs[0].group == k && evs[0].member == m
  }

  ghost predicate Step(c: Config, k: Name, g: Group, pc: PC, next: PC, evs: seq<Event>) {
    match pc
    case Entering => evs == [] && next == Entry(c, g)
    case Checking =>
      IsValidation(k, evs) && next == if evs[0].passed || !c.failOnValidate then Draining(0) else Finished(false)
    case Draining(i) =>
      i < |Work(c, g)|
      && if Guarded(c, g) && Work(c, g)[i].registered then
           IsDrain(k, Work(c, g)[i], evs)
           && next == if evs[0].ok || !c.failOnDrain then Deleting(i) else Finished(false)
         else evs == [] && next == Deleting(i)
    case Deleting(i) =>
      i < |Work(c, g)| && IsDelete(k, Work(c, g)[i], evs)
      && next == if !evs[0].ok then Finished(false) else if Guarded(c, g) then Settling(i, false) else After(c, g, i)
    case Settling(i, tried) =>
      i < |Work(c, g)|
      && (|| (IsValidation(k, evs) && next == if evs[0].passed then After(c, g, i) else Settling(i, true))
          // The timer fires.
          || (tried && evs == [] && next == if c.failOnValidate then Finished(false) else After(c, g, i)))
    case Finished(_) => false
  }

  /** A run so far: the program points passed through and the events of each step between them. */
  datatype Log = Start | Then(before: Log, pc: PC, evs: seq<Event>)

  function Reached(log: Log): PC {
    if log.Start? then Entering else log.pc
  }

  function Events(log: Log): seq<Event> {
    if log.Start? then [] else Events(log.before) + log.evs
  }

  ghost predicate IsRun(c: Config, k: Name, g: Group, log: Log) {
    log.Then? ==> IsRun(c, k, g, log.before) && Step(c, k, g, Reached(log.before), log.pc, log.evs)
  }

  ghost predicate RunsTo(c: Config, k: Name, g: Group, log: Log, pc: PC, events: seq<Event>) {
    IsRun(c, k, g, log) && Reached(log) == pc && Events(log) == events
  }

  // ----- The source's loop

  /** validation.ValidateCluster against whatever the API server happens to answer. */
  method Validate(k: Name) returns (e: Event)
    ensures IsValidation(k, [e])
  {
    var s: V.Snapshot := *;
    var ok := V.ValidateCluster(s);
    e := Validated(k, s, ok);
  }

  method DrainNode(k: Name, m: Member) returns (e: Event)
    ensures IsDrain(k, m, [e])
  {
    var ok: bool := *;
    e := Drained(k, m, ok);
  }

  method DeleteInstance(k: Name, m: Member) returns (e: Event)
    ensures IsDelete(k, m, [e])
  {
    var ok: bool := *;
    e := Deleted(k, m, ok);
  }

  /** One attempt, then one per tick until the timer fires. */
  method ValidateClusterWithDuration(c: Config, k: Name, g: Group, i: nat, events: seq<Event>, ghost log: Log)
    returns (ok: bool, after: seq<Event>, ghost longer: Log)
    requires i < |Work(c, g)| && RunsTo(c, k, g, log, Settling(i, false), events)
    ensures ok ==> RunsTo(c, k, g, longer, After(c, g, i), after)
    ensures !ok ==> RunsTo(c, k, g, longer, Settling(i, true), after)
    ensures events < after
    ensures ok <==> after[|after| - 1].Validated? && after[|after| - 1].passed
  {
    var e := Validate(k);
    after := events + [e];
    longer := Then(log, if e.passed then After(c, g, i) else Settling(i, true), [e]);
    if e.passed {
      return true, after, longer;
    }
    var ticks: nat := *;
    while ticks > 0
      invariant RunsTo(c, k, g, longer, Settling(i, true), after)
      invariant events < after && after[|after| - 1].Validated? && !after[|after| - 1].passed
    {
      e := Validate(k);
      ghost var next := if e.passed then After(c, g, i) else Settling(i, true);
      longer := Then(longer, next, [e]);
      after := after + [e];
      if e.passed {
        return true, after, longer;
      }
      ticks := ticks - 1;
    }
    return false, after, longer;
  }

  /** The part of the loop body up to the deletion: true when the deletion may go ahead. */
  method DrainMember(c: Config, k: Name, g: Group, i: nat, events: seq<Event>, ghost log: Log)
    returns (proceed: bool, after: seq<Event>, ghost longer: Log)
    requires i < |Work(c, g)| && RunsTo(c, k, g, log, Draining(i), events)
    ensures RunsTo(c, k, g, longer, if proceed then Deleting(i) else Finished(false), after)
  {
    var u := Work(c, g)[i];
    if !g.role.Bastion? && !c.cloudOnly && c.drainAndValidate && u.registered {
      var e := DrainNode(k, u);
      proceed := e.ok || !c.failOnDrain;
      ghost var next := if proceed then Deleting(i) else Finished(false);
      longer, after := Then(log, next, [e]), events + [e];
    } else {
      longer, after, proceed := Then(log, Deleting(i), []), events, true;
      assert events + [] == events;
    }
  }

  /** The rest of the loop body: true when the loop goes on. */
  method DeleteMember(c: Config, k: Name, g: Group, i: nat, events: seq<Event>, ghost log: Log)
    returns (proceed: bool, after: seq<Event>, ghost longer: Log)
    requires i < |Work(c, g)| && RunsTo(c, k, g, log, Deleting(i), events)
    ensures RunsTo(c, k, g, longer, if proceed then After(c, g, i) else Finished(false), after)
  {
    var d := DeleteInstance(k, Work(c, g)[i]);
    ghost var deleted :=
      if !d.ok then Finished(false) else if Guarded(c, g) then Settling(i, false) else After(c, g, i);
    longer, after := Then(log, deleted, [d]), events + [d];
    if !d.ok {
      return false, after, longer;
    }
    if !g.role.Bastion? && !c.cloudOnly && c.drainAndValidate {
      var valid;
      valid, after, longer := ValidateClusterWithDuration(c, k, g, i, after, longer);
      if !valid {
        ghost var next := if c.failOnValidate then Finished(false) else After(c, g, i);
        longer := Then(longer, next, []);
        assert after + [] == after;
        return !c.failOnValidate, after, longer;
      }
    }
    return true, after, longer;
  }

  /** The validation before the loop: true when the loop may start. */
  method CheckFirst(c: Config, k: Name, g: Group, events: seq<Event>, ghost log: Log)
    returns (proceed: bool, after: seq<Event>, ghost longer: Log)
    requires RunsTo(c, k, g, log, if Guarded(c, g) then Checking else Draining(0), events)
    ensures RunsTo(c, k, g, longer, if proceed then Draining(0) else Finished(false), after)
  {
    proceed, after, longer := true, events, log;
    if !g.role.Bastion? && !c.cloudOnly && c.drainAndValidate {
      var e := Validate(k);
      proceed := e.passed || !c.failOnValidate;
      ghost var next := if proceed then Draining(0) else Finished(false);
      longer, after := Then(log, next, [e]), events + [e];
    }
  }

  /** Every execution of RollingUpdateInstanceGroup.RollingUpdate is a run of the machine that ends with its result. */
  method RollingUpdate(c: Config, k: Name, g: Group) returns (ok: bool, events: seq<Event>, ghost log: Log)
    ensures RunsTo(c, k, g, log, Finished(ok), events)
  {
    events := [];
    log := Then(Start, Entry(c, g), []);
    if !c.hasCloud || (!c.hasClient && !c.cloudOnly) || !c.hasGroupList {
      return false, events, log;
    }
    var update := g.needUpdate;
    if c.force {
      update := update + g.ready;
    }
    if |update| == 0 {
      return true, events, log;
    }
    var proceed;
    proceed, events, log := CheckFirst(c, k, g, events, log);
    if !proceed {
      return false, events, log;
    }
    for i := 0 to |update|
      invariant RunsTo(c, k, g, log, if i < |update| then Draining(i) else Finished(true), events)
    {
      proceed, events, log := DrainMember(c, k, g, i, events, log);
      if !proceed {
        return false, events, log;
      }
      proceed, events, log := DeleteMember(c, k, g, i, events, log);
      if !proceed {
        return false, events, log;
      }
    }
    return true, events, log;
  }
}
