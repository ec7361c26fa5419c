/** What every run of one group's rolling update (pkg/instancegroups/instancegroups.go) satisfies. */
module RollingUpdateRuns {
  import opened RollingUpdateGroup

  /** The members whose deletion was attempted, in order. */
  function Attempts(events: seq<Event>): seq<Member> {
    if events == [] then []
    else
      var e := events[|events| - 1];
      Attempts(events[..|events| - 1]) + if e.Deleted? then [e.member] else []
  }

  /** Deletions the cloud refused. */
  function Refusals(events: seq<Event>): nat {
    if events == [] then 0
    else
      var e := events[|events| - 1];
      Refusals(events[..|events| - 1]) + if e.Deleted? && !e.ok then 1 else 0
  }

  /** Looking back from here, a passed validation comes before any failed validation and any deletion. */
  predicate Armed(events: seq<Event>) {
    events != [] &&
    var e := events[|events| - 1];
    (e.Validated? && e.passed) || (e.Drained? && Armed(events[..|events| - 1]))
  }

  /** Every deletion attempt finds the cluster validated since the attempt before it. */
  predicate Paced(events: seq<Event>) {
    events != [] ==>
      var front, e := events[..|events| - 1], events[|events| - 1];
      Paced(front) && (e.Deleted? ==> Armed(front))
  }

  /** Every deletion of a registered instance directly follows its successful drain. */
  predicate DrainedFirst(events: seq<Event>) {
    events != [] ==>
      var front, e := events[..|events| - 1], events[|events| - 1];
      DrainedFirst(front)
      && (e.Deleted? && e.member.registered ==>
            front != [] && front[|front| - 1] == Drained(e.group, e.member, true))
  }

  predicate OwnedBy(k: Name, events: seq<Event>) {
    forall i :: 0 <= i < |events| ==> events[i].group == k
  }

  ghost predicate Truthful(events: seq<Event>) {
    forall i :: 0 <= i < |events| ==> TruthfulEvent(events[i])
  }

  ghost predicate TruthfulEvent(e: Event) {
    e.Validated? ==> (e.passed <==> V.Passes(e.snapshot))
  }

  /** How many members have been attempted on reaching a program point other than a failed end. */
  function Progress(c: Config, g: Group, pc: PC): nat
    requires pc != Finished(false)
  {
    match pc
    case Entering => 0
    case Checking => 0
    case Draining(i) => i
    case Deleting(i) => i
    case Settling(i, _) => i + 1
    case Finished(_) => |Work(c, g)|
  }

  predicate InRange(c: Config, g: Group, pc: PC) {
    match pc
    case Checking => Work(c, g) != []
    case Draining(i) => i < |Work(c, g)|
    case Deleting(i) => i < |Work(c, g)|
    case Settling(i, _) => i < |Work(c, g)|
    case _ => true
  }

  lemma Snoc(events: seq<Event>, evs: seq<Event>)
    requires |evs| <= 1
    ensures evs == [] ==> events + evs == events
    ensures evs != [] ==> (events + evs)[..|events + evs| - 1] == events
  {
  }

  lemma AttemptsSnoc(events: seq<Event>, evs: seq<Event>)
    requires |evs| <= 1
    ensures if evs != [] && evs[0].Deleted? then
              && Attempts(events + evs) == Attempts(events) + [evs[0].member]
              && Refusals(events + evs) == Refusals(events) + if evs[0].ok then 0 else 1
            else Attempts(events + evs) == Attempts(events) && Refusals(events + evs) == Refusals(events)
  {
    Snoc(events, evs);
    assert Attempts(events) + [] == Attempts(events);
  }

  lemma {:induction false} RunEventsAreOwn(c: Config, k: Name, g: Group, log: Log)
    requires IsRun(c, k, g, log)
    ensures OwnedBy(k, Events(log)) && Truthful(Events(log))
  {
    if log.Then? {
      RunEventsAreOwn(c, k, g, log.before);
      assert |log.evs| <= 1;
    }
  }

  /** Attempts so far are those the program point tells, and none was refused. */
  predicate OnTrack(c: Config, g: Group, pc: PC, events: seq<Event>) {
    && InRange(c, g, pc)
    && (pc != Finished(false) ==>
          && Progress(c, g, pc) <= |Work(c, g)|
          && Attempts(events) == Work(c, g)[..Progress(c, g, pc)]
          && Refusals(events) == 0)
  }

  /** A step moves the progress exactly when it attempts a deletion, and it attempts the next member. */
  lemma {:induction false} StepProgress(c: Config, k: Name, g: Group, pc: PC, next: PC, evs: seq<Event>)
    requires InRange(c, g, pc) && pc != Finished(false) && Step(c, k, g, pc, next, evs)
    ensures InRange(c, g, next) && |evs| <= 1
    ensures next != Finished(false) ==>
              Progress(c, g, next) == Progress(c, g, pc) + if evs != [] && evs[0].Deleted? then 1 else 0
    ensures evs != [] && evs[0].Deleted? ==>
              && Progress(c, g, pc) < |Work(c, g)| && evs[0].member == Work(c, g)[Progress(c, g, pc)]
              && (next != Finished(false) ==> evs[0].ok)
  {
  }

  lemma {:induction false} StaysOnTrack(c: Config, k: Name, g: Group, pc: PC, events: seq<Event>, next: PC,
                                        evs: seq<Event>)
    requires OnTrack(c, g, pc, events) && pc != Finished(false) && Step(c, k, g, pc, next, evs)
    ensures OnTrack(c, g, next, events + evs) && Attempts(events + evs) <= Work(c, g)
  {
    StepProgress(c, k, g, pc, next, evs);
    AttemptsSnoc(events, evs);
    var work, n := Work(c, g), Progress(c, g, pc);
    if n < |work| {
      Prefix(work, n);
    }
    assert work[..n] <= work;
  }

  lemma Prefix(work: seq<Member>, n: nat)
    requires n < |work|
    ensures work[..n] + [work[n]] == work[..n + 1] <= work
  {
  }

  /**
   * The deletion attempts of a run are a prefix of the work list; short of a failed end none was refused and
   * the prefix is the one the program point tells.
   */
  lemma {:induction false} AttemptsFollowTheWorkList(c: Config, k: Name, g: Group, log: Log)
    requires IsRun(c, k, g, log)
    ensures OnTrack(c, g, Reached(log), Events(log)) && Attempts(Events(log)) <= Work(c, g)
  {
    if log.Then? {
      AttemptsFollowTheWorkList(c, k, g, log.before);
      StaysOnTrack(c, k, g, Reached(log.before), Events(log.before), log.pc, log.evs);
    }
  }

  /** A run that ends well attempted every member of the work list, once, in order, and was never refused. */
  lemma WholeWorkListOnSuccess(c: Config, k: Name, g: Group, log: Log)
    requires IsRun(c, k, g, log) && Reached(log) == Finished(true)
    ensures Attempts(Events(log)) == if c.force then g.needUpdate + g.ready else g.needUpdate
    ensures Refusals(Events(log)) == 0
  {
    AttemptsFollowTheWorkList(c, k, g, log);
    assert Work(c, g)[..|Work(c, g)|] == Work(c, g);
  }

  lemma {:induction false} StaysPaced(c: Config, k: Name, g: Group, pc: PC, events: seq<Event>, next: PC,
                                      evs: seq<Event>)
    requires Guarded(c, g) && c.failOnValidate
    requires Paced(events) && (pc.Draining? || pc.Deleting? ==> Armed(events)) && Step(c, k, g, pc, next, evs)
    ensures Paced(events + evs) && (next.Draining? || next.Deleting? ==> Armed(events + evs))
  {
    Snoc(events, evs);
  }

  /** With fail-on-validate, no instance goes unless the cluster validated since the last one went. */
  lemma {:induction false} RunIsPaced(c: Config, k: Name, g: Group, log: Log)
    requires IsRun(c, k, g, log) && Guarded(c, g) && c.failOnValidate
    ensures Paced(Events(log))
    ensures Reached(log).Draining? || Reached(log).Deleting? ==> Armed(Events(log))
  {
    if log.Then? {
      RunIsPaced(c, k, g, log.before);
      StaysPaced(c, k, g, Reached(log.before), Events(log.before), log.pc, log.evs);
    }
  }

  /** About to delete a registered member: its drain was the last thing that happened, and it succeeded. */
  predicate JustDrained(c: Config, k: Name, g: Group, pc: PC, events: seq<Event>) {
    pc.Deleting? && pc.i < |Work(c, g)| && Work(c, g)[pc.i].registered ==>
      events != [] && events[|events| - 1] == Drained(k, Work(c, g)[pc.i], true)
  }

  lemma {:induction false} DrainedFirstSnoc(events: seq<Event>, e: Event)
    ensures DrainedFirst(events + [e]) <==>
            && DrainedFirst(events)
            && (e.Deleted? && e.member.registered ==>
                  events != [] && events[|events| - 1] == Drained(e.group, e.member, true))
  {
    assert (events + [e])[..|events|] == events;
  }

  lemma {:induction false} DrainLeadsToDelete(c: Config, k: Name, g: Group, pc: PC, next: PC, evs: seq<Event>)
    requires Guarded(c, g) && c.failOnDrain && Step(c, k, g, pc, next, evs) && next.Deleting?
    ensures next.i < |Work(c, g)| && (Work(c, g)[next.i].registered ==> evs == [Drained(k, Work(c, g)[next.i], true)])
  {
    assert pc == Draining(next.i);
  }

  lemma {:induction false} DeleteComesFromDrain(c: Config, k: Name, g: Group, pc: PC, next: PC, evs: seq<Event>)
    requires Step(c, k, g, pc, next, evs)
    ensures |evs| <= 1
    ensures evs != [] && evs[0].Deleted? ==>
              pc.Deleting? && pc.i < |Work(c, g)| && evs[0].member == Work(c, g)[pc.i] && evs[0].group == k
  {
  }

  lemma {:induction false} StaysDrained(c: Config, k: Name, g: Group, pc: PC, events: seq<Event>, next: PC,
                                        evs: seq<Event>)
    requires Guarded(c, g) && c.failOnDrain
    requires DrainedFirst(events) && JustDrained(c, k, g, pc, events) && Step(c, k, g, pc, next, evs)
    ensures DrainedFirst(events + evs) && JustDrained(c, k, g, next, events + evs)
  {
    DeleteComesFromDrain(c, k, g, pc, next, evs);
    if evs == [] {
      assert events + evs == events;
    } else {
      assert evs == [evs[0]];
      DrainedFirstSnoc(events, evs[0]);
    }
    if next.Deleting? {
      DrainLeadsToDelete(c, k, g, pc, next, evs);
    }
  }

  /** With fail-on-drain-error, no registered node goes without having been drained. */
  lemma {:induction false} RunDrainsFirst(c: Config, k: Name, g: Group, log: Log)
    requires IsRun(c, k, g, log) && Guarded(c, g) && c.failOnDrain
    ensures DrainedFirst(Events(log)) && JustDrained(c, k, g, Reached(log), Events(log))
  {
    if log.Then? {
      RunDrainsFirst(c, k, g, log.before);
      StaysDrained(c, k, g, Reached(log.before), Events(log.before), log.pc, log.evs);
    }
  }

  /** Bastions, and any group in cloud-only mode, are deleted without drains or validations. */
  lemma {:induction false} UnguardedRunOnlyDeletes(c: Config, k: Name, g: Group, log: Log)
    requires IsRun(c, k, g, log) && !Guarded(c, g)
    ensures !Reached(log).Checking? && !Reached(log).Settling?
    ensures forall i :: 0 <= i < |Events(log)| ==> Events(log)[i].Deleted?
  {
    if log.Then? {
      UnguardedRunOnlyDeletes(c, k, g, log.before);
    }
  }

  // ----- What happens whatever the flags say

  /** Looking back from here, a validation, passed or not, comes before any deletion. */
  predicate Checked(events: seq<Event>) {
    events != [] &&
    var e := events[|events| - 1];
    e.Validated? || (e.Drained? && Checked(events[..|events| - 1]))
  }

  /** Every deletion follows a validation since the one before, and that of a registered instance a drain of it. */
  predicate Careful(events: seq<Event>) {
    events != [] ==>
      var front, e := events[..|events| - 1], events[|events| - 1];
      && Careful(front)
      && (e.Deleted? ==> Checked(front))
      && (e.Deleted? && e.member.registered ==>
            front != [] && front[|front| - 1].Drained? && front[|front| - 1].member == e.member)
  }

  predicate CarefulAt(c: Config, g: Group, pc: PC, events: seq<Event>) {
    && Careful(events)
    && (pc.Draining? || pc.Deleting? || (pc.Settling? && pc.tried) ==> Checked(events))
    && (pc.Deleting? ==>
          pc.i < |Work(c, g)|
          && (Work(c, g)[pc.i].registered ==>
                && events != [] && events[|events| - 1].Drained?
                && events[|events| - 1].member == Work(c, g)[pc.i]))
  }

  lemma {:induction false} StaysCareful(c: Config, k: Name, g: Group, pc: PC, events: seq<Event>, next: PC,
                                        evs: seq<Event>)
    requires Guarded(c, g) && CarefulAt(c, g, pc, events) && Step(c, k, g, pc, next, evs)
    ensures CarefulAt(c, g, next, events + evs)
  {
    Snoc(events, evs);
  }

  /** Where drains and validations happen they come before every deletion, also where their failure is ignored. */
  lemma {:induction false} RunIsCareful(c: Config, k: Name, g: Group, log: Log)
    requires IsRun(c, k, g, log) && Guarded(c, g)
    ensures CarefulAt(c, g, Reached(log), Events(log))
  {
    if log.Then? {
      RunIsCareful(c, k, g, log.before);
      StaysCareful(c, k, g, Reached(log.before), Events(log.before), log.pc, log.evs);
    }
  }

  // ----- Why an update fails

  predicate Misconfigured(c: Config) {
    !c.hasCloud || (!c.hasClient && !c.cloudOnly) || !c.hasGroupList
  }

  /** The event that ends an update: a refused deletion, or a failed drain or validation that is not to be ignored. */
  predicate Fatal(c: Config, e: Event) {
    match e
    case Deleted(_, _, ok) => !ok
    case Drained(_, _, ok) => !ok && c.failOnDrain
    case Validated(_, _, passed) => !passed && c.failOnValidate
  }

  predicate EndsFatally(c: Config, events: seq<Event>) {
    events != [] && Fatal(c, events[|events| - 1])
  }

  predicate Accounted(c: Config, pc: PC, events: seq<Event>) {
    match pc
    case Entering => events == []
    case Finished(ok) => ok <==> !Misconfigured(c) && !EndsFatally(c, events)
    case Settling(_, true) =>
      !Misconfigured(c) && events != [] && events[|events| - 1].Validated? && !events[|events| - 1].passed
    case _ => !Misconfigured(c) && !EndsFatally(c, events)
  }

  lemma {:induction false} StaysAccounted(c: Config, k: Name, g: Group, pc: PC, events: seq<Event>, next: PC,
                                          evs: seq<Event>)
    requires Accounted(c, pc, events) && Step(c, k, g, pc, next, evs)
    ensures Accounted(c, next, events + evs)
  {
    Snoc(events, evs);
  }

  /** An update that has ended failed exactly when it was misconfigured or its last event is one that ends updates. */
  lemma {:induction false} RunIsAccounted(c: Config, k: Name, g: Group, log: Log)
    requires IsRun(c, k, g, log)
    ensures Accounted(c, Reached(log), Events(log))
  {
    if log.Then? {
      RunIsAccounted(c, k, g, log.before);
      StaysAccounted(c, k, g, Reached(log.before), Events(log.before), log.pc, log.evs);
    }
  }

  /** A misconfigured update does nothing at all, and so does one of a group without work. */
  lemma {:induction false} NothingToDo(c: Config, k: Name, g: Group, log: Log)
    requires IsRun(c, k, g, log)
    requires Misconfigured(c) || (g.needUpdate == [] && (g.ready == [] || !c.force))
    ensures Events(log) == [] && (Reached(log).Entering? || Reached(log).Finished?)
  {
    if log.Then? {
      NothingToDo(c, k, g, log.before);
    }
  }

  lemma {:induction false} NoRefusals(events: seq<Event>)
    ensures Refusals(events) == 0 <==> forall i :: 0 <= i < |events| && events[i].Deleted? ==> events[i].ok
  {
    if events != [] {
      var front, e := events[..|events| - 1], events[|events| - 1];
      assert events == front + [e];
      NoRefusals(front);
      assert forall i :: 0 <= i < |front| ==> front[i] == events[i];
    }
  }

  /** The update of one group, with what holds in every run said of its result and its events. */
  method UpdateGroup(c: Config, k: Name, g: Group) returns (ok: bool, events: seq<Event>)
    ensures OwnedBy(k, events)
    ensures Attempts(events) <= if c.force then g.needUpdate + g.ready else g.needUpdate
    ensures ok ==> Attempts(events) == if c.force then g.needUpdate + g.ready else g.needUpdate
    ensures ok ==> forall i :: 0 <= i < |events| && events[i].Deleted? ==> events[i].ok
    ensures ok <==> !Misconfigured(c) && !EndsFatally(c, events)
    ensures Misconfigured(c) || (g.needUpdate == [] && (g.ready == [] || !c.force)) ==> events == []
    ensures g.role.Bastion? || c.cloudOnly || !c.drainAndValidate ==>
              forall i :: 0 <= i < |events| ==> events[i].Deleted?
    ensures !(g.role.Bastion? || c.cloudOnly || !c.drainAndValidate) ==>
              && Careful(events)
              && (c.failOnValidate ==> Paced(events))
              && (c.failOnDrain ==> DrainedFirst(events))
  {
    ghost var log;
    ok, events, log := RollingUpdate(c, k, g);
    RunEventsAreOwn(c, k, g, log);
    AttemptsFollowTheWorkList(c, k, g, log);
    RunIsAccounted(c, k, g, log);
    if ok {
      WholeWorkListOnSuccess(c, k, g, log);
      NoRefusals(events);
    }
    if Misconfigured(c) || (g.needUpdate == [] && (g.ready == [] || !c.force)) {
      NothingToDo(c, k, g, log);
    }
    GuardedRun(c, k, g, log);
  }

  lemma GuardedRun(c: Config, k: Name, g: Group, log: Log)
    requires IsRun(c, k, g, log)
    ensures g.role.Bastion? || c.cloudOnly || !c.drainAndValidate ==>
              forall i :: 0 <= i < |Events(log)| ==> Events(log)[i].Deleted?
    ensures !(g.role.Bastion? || c.cloudOnly || !c.drainAndValidate) ==>
              && Careful(Events(log))
              && (c.failOnValidate ==> Paced(Events(log)))
              && (c.failOnDrain ==> DrainedFirst(Events(log)))
  {
    if g.role.Bastion? || c.cloudOnly || !c.drainAndValidate {
      UnguardedRunOnlyDeletes(c, k, g, log);
    } else {
      RunIsCareful(c, k, g, log);
      if c.failOnValidate {
        RunIsPaced(c, k, g, log);
      }
      if c.failOnDrain {
        RunDrainsFirst(c, k, g, log);
      }
    }
  }
}
