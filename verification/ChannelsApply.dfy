/**
 * channels/pkg/cmd/apply_channel.go and the cluster side of channels/pkg/channels: installed versions live
 * in namespace annotations, and an apply run updates the addons of a menu that need it.
 */
module ChannelsApply {
  import opened Prelude
  import opened Channels

  const ANNOTATION_PREFIX := "addons.k8s.io/"

  /** An annotation value: a version as Encode writes it, or a text that ParseChannelVersion refuses. */
  datatype Annotation = Encoded(v: ChannelVersion) | Malformed(text: string)

  /** The annotations of every namespace that exists. */
  type Namespaces = map<string, map<string, Annotation>>

  datatype Channel = Channel(namespace: string, name: string)

  datatype Result<T> = Ok(value: T) | Err

  function AnnotationName(ch: Channel): string {
    ANNOTATION_PREFIX + ch.name
  }

  lemma AnnotationNamesDiffer(a: Channel, b: Channel)
    requires a.name != b.name
    ensures AnnotationName(a) != AnnotationName(b)
  {
    assert AnnotationName(a)[|ANNOTATION_PREFIX|..] == a.name;
    assert AnnotationName(b)[|ANNOTATION_PREFIX|..] == b.name;
  }

  /** Addon.buildChannel */
  function ChannelOf(a: Addon): Channel {
    Channel(if a.spec.namespace.Some? then a.spec.namespace.value else "kube-system", a.name)
  }

  /** Channel.GetInstalledVersion against an API server that answers. */
  function Installed(ns: Namespaces, ch: Channel): Result<Option<ChannelVersion>> {
    if ch.namespace !in ns then Err
    else
      var annotations := ns[ch.namespace];
      if AnnotationName(ch) !in annotations then Ok(None)
      else
        match annotations[AnnotationName(ch)]
        case Encoded(v) => Ok(Some(v))
        case Malformed(_) => Err
  }

  function Put(ns: Namespaces, ch: Channel, v: ChannelVersion): Namespaces
    requires ch.namespace in ns
  {
    ns[ch.namespace := ns[ch.namespace][AnnotationName(ch) := Encoded(v)]]
  }

  /** What Addon.GetRequiredUpdates asks for. */
  predicate NeedsUpdate(parse: Parser, ns: Namespaces, a: Addon) {
    var installed := Installed(ns, ChannelOf(a));
    installed.Ok? && (installed.value.None? || Replaces(parse, VersionOf(a), installed.value.value))
  }

  /** Looking again finds nothing to do for this addon. */
  predicate Settled(parse: Parser, ns: Namespaces, a: Addon) {
    Installed(ns, ChannelOf(a)).Ok? && !NeedsUpdate(parse, ns, a)
  }

  /** The annotation that records the addon, under the namespace it names or else kube-system. */
  ghost predicate IsRecorded(ns: Namespaces, a: Addon, value: Annotation) {
    var namespace := match a.spec.namespace case Some(n) => n case None => "kube-system";
    namespace in ns && "addons.k8s.io/" + a.name in ns[namespace] && ns[namespace]["addons.k8s.io/" + a.name] == value
  }

  /** What is installed can be told exactly when the namespace is there and does not hold a malformed annotation. */
  lemma InstalledIff(ns: Namespaces, a: Addon)
    ensures var namespace := match a.spec.namespace case Some(n) => n case None => "kube-system";
            Installed(ns, ChannelOf(a)).Err? <==> namespace !in ns || exists t :: IsRecorded(ns, a, Malformed(t))
    ensures forall v :: Installed(ns, ChannelOf(a)) == Ok(Some(v)) <==> IsRecorded(ns, a, Encoded(v))
  {
    if Installed(ns, ChannelOf(a)).Err? && ChannelOf(a).namespace in ns {
      assert IsRecorded(ns, a, Malformed(ns[ChannelOf(a).namespace][AnnotationName(ChannelOf(a))].text));
    }
  }

  /** An update is needed exactly when nothing is recorded, or a lower rank, or the same parsed rank with another id. */
  lemma NeedsUpdateIff(parse: Parser, ns: Namespaces, a: Addon)
    ensures NeedsUpdate(parse, ns, a) <==>
            && Installed(ns, ChannelOf(a)).Ok?
            && forall v :: IsRecorded(ns, a, Encoded(v)) ==>
                 || Outranks(AddonRank(parse, a), RankOf(parse, v))
                 || (AddonRank(parse, a) == RankOf(parse, v) && RankOf(parse, v).Parsed? && v.id != a.spec.id)
  {
    InstalledIff(ns, a);
    var installed := Installed(ns, ChannelOf(a));
    if installed.Ok? && installed.value.Some? {
      assert IsRecorded(ns, a, Encoded(installed.value.value));
      ReplacesIff(parse, VersionOf(a), installed.value.value);
    }
  }

  /** A settled addon is recorded at its own rank or a higher one, and at its own parsed rank with its own id. */
  lemma SettledIff(parse: Parser, ns: Namespaces, a: Addon)
    ensures Settled(parse, ns, a) <==> exists v :: IsRecorded(ns, a, Encoded(v)) && UpToDate(parse, a, v)
  {
    InstalledIff(ns, a);
    var installed := Installed(ns, ChannelOf(a));
    if installed.Ok? && installed.value.Some? {
      var v := installed.value.value;
      assert IsRecorded(ns, a, Encoded(v));
      ReplacesIff(parse, VersionOf(a), v);
      OutranksIff(AddonRank(parse, a), RankOf(parse, v));
      RankIsOrdered(RankOf(parse, v), AddonRank(parse, a));
    }
    if v :| IsRecorded(ns, a, Encoded(v)) && UpToDate(parse, a, v) {
      assert installed == Ok(Some(v));
    }
  }

  predicate UpToDate(parse: Parser, a: Addon, v: ChannelVersion) {
    && AtLeast(RankOf(parse, v), AddonRank(parse, a))
    && (RankOf(parse, v) == AddonRank(parse, a) && RankOf(parse, v).Parsed? ==> v.id == a.spec.id)
  }

  // ----- Installations

  function Install(ns: Namespaces, a: Addon): Namespaces
    requires ChannelOf(a).namespace in ns
  {
    Put(ns, ChannelOf(a), VersionOf(a))
  }

  /** A history of installations: each addon needed its update when it was installed. */
  datatype History = Nothing | Then(before: History, a: Addon)

  predicate Legal(parse: Parser, ns: Namespaces, h: History)
    decreases h, 0
  {
    h.Then? ==> Legal(parse, ns, h.before) && NeedsUpdate(parse, After(parse, ns, h.before), h.a)
  }

  function After(parse: Parser, ns: Namespaces, h: History): Namespaces
    requires Legal(parse, ns, h)
    decreases h, 1
  {
    if h.Nothing? then ns else Install(After(parse, ns, h.before), h.a)
  }

  function InstalledRank(parse: Parser, ns: Namespaces, ch: Channel): Rank {
    var installed := Installed(ns, ch);
    if installed.Ok? && installed.value.Some? then RankOf(parse, installed.value.value) else Absent
  }

  lemma PutElsewhere(ns: Namespaces, ch: Channel, v: ChannelVersion, other: Channel)
    requires ch.namespace in ns && ch != other
    ensures Installed(Put(ns, ch, v), other) == Installed(ns, other)
  {
    if ch.namespace == other.namespace {
      AnnotationNamesDiffer(ch, other);
    }
  }

  /** Over any sequence of installations, with any menus, no installed version ever loses rank. */
  lemma {:induction false} NeverDowngrades(parse: Parser, ns: Namespaces, h: History, ch: Channel)
    requires Legal(parse, ns, h)
    ensures AtLeast(InstalledRank(parse, After(parse, ns, h), ch), InstalledRank(parse, ns, ch))
  {
    RankIsOrdered(InstalledRank(parse, ns, ch), InstalledRank(parse, ns, ch));
    if h.Then? {
      NeverDowngrades(parse, ns, h.before, ch);
      var before := After(parse, ns, h.before);
      InstallRaises(parse, before, h.a, ch);
      RankIsTransitive(InstalledRank(parse, After(parse, ns, h), ch), InstalledRank(parse, before, ch),
                       InstalledRank(parse, ns, ch));
    }
  }

  /** The same over any sequence of runs, each a history of its own. */
  lemma {:induction false} RunsNeverDowngrade(parse: Parser, states: seq<Namespaces>, runs: seq<History>, ch: Channel)
    requires |states| == |runs| + 1
    requires forall i :: 0 <= i < |runs| ==>
               Legal(parse, states[i], runs[i]) && states[i + 1] == After(parse, states[i], runs[i])
    ensures AtLeast(InstalledRank(parse, states[|runs|], ch), InstalledRank(parse, states[0], ch))
  {
    RankIsOrdered(InstalledRank(parse, states[0], ch), InstalledRank(parse, states[0], ch));
    if runs != [] {
      var n := |runs| - 1;
      RunsNeverDowngrade(parse, states[..n + 1], runs[..n], ch);
      NeverDowngrades(parse, states[n], runs[n], ch);
      RankIsTransitive(InstalledRank(parse, states[n + 1], ch), InstalledRank(parse, states[n], ch),
                       InstalledRank(parse, states[0], ch));
    }
  }

  lemma InstallRaises(parse: Parser, ns: Namespaces, a: Addon, ch: Channel)
    requires NeedsUpdate(parse, ns, a)
    ensures AtLeast(InstalledRank(parse, Install(ns, a), ch), InstalledRank(parse, ns, ch))
  {
    RankIsOrdered(InstalledRank(parse, ns, ch), InstalledRank(parse, ns, ch));
    if ch == ChannelOf(a) {
      var installed := Installed(ns, ch).value;
      if installed.Some? {
        ReplacesIff(parse, VersionOf(a), installed.value);
        RankIsOrdered(AddonRank(parse, a), RankOf(parse, installed.value));
      }
    } else {
      PutElsewhere(ns, ChannelOf(a), VersionOf(a), ch);
    }
  }

  /** What is recorded is the version, the channel and the id of the addon's entry. */
  lemma InstallRecords(ns: Namespaces, a: Addon)
    requires ChannelOf(a).namespace in ns
    ensures IsRecorded(Install(ns, a), a, Encoded(ChannelVersion(a.spec.version, Some(a.channelName), a.spec.id)))
  {
  }

  /** An installed addon is settled, and stays so while other addons are installed. */
  lemma InstallSettles(parse: Parser, ns: Namespaces, a: Addon)
    requires ChannelOf(a).namespace in ns
    ensures Settled(parse, Install(ns, a), a)
  {
    ReplacesIsIrreflexive(parse, VersionOf(a));
  }

  lemma InstallElsewhere(parse: Parser, ns: Namespaces, a: Addon, b: Addon)
    requires ChannelOf(a).namespace in ns && a.name != b.name
    ensures Settled(parse, Install(ns, a), b) == Settled(parse, ns, b)
    ensures NeedsUpdate(parse, Install(ns, a), b) == NeedsUpdate(parse, ns, b)
  {
    PutElsewhere(ns, ChannelOf(a), VersionOf(a), ChannelOf(b));
  }

  // ----- From channels to a menu

  /** Channel i has an entry of that name for this kubernetes version. */
  ghost predicate Offered(inRange: string -> bool, channels: seq<seq<Addon>>, k: string, i: int) {
    0 <= i < |channels| && exists j :: Candidate(inRange, channels[i], k, j)
  }

  /** Some candidate of the channel ranks at least so high. */
  ghost predicate Reaches(parse: Parser, inRange: string -> bool, all: seq<Addon>, k: string, r: Rank) {
    exists j :: Candidate(inRange, all, k, j) && AtLeast(AddonRank(parse, all[j]), r)
  }

  /** The best entry of one channel, and no channel that offers the name has a lower best one. */
  ghost predicate LeastOfBest(parse: Parser, inRange: string -> bool, channels: seq<seq<Addon>>, k: string, a: Addon) {
    && (exists i :: Offered(inRange, channels, k, i) && Best(parse, inRange, channels[i], k, a))
    && (forall i :: Offered(inRange, channels, k, i) ==> Reaches(parse, inRange, channels[i], k, AddonRank(parse, a)))
  }

  ghost predicate AreMenus(parse: Parser, inRange: string -> bool, channels: seq<seq<Addon>>, menus: seq<Menu>) {
    |menus| == |channels| && forall i :: 0 <= i < |channels| ==> menus[i] == Current(parse, inRange, channels[i])
  }

  /** The loop over the channels: each is reduced to its current addons and merged into the menu. */
  method BuildMenu(parse: Parser, inRange: string -> bool, channels: seq<seq<Addon>>)
    returns (menu: Menu, ghost menus: seq<Menu>)
    ensures AreMenus(parse, inRange, channels, menus) && menu == MergeAll(parse, menus)
    ensures Filed(menu)
    ensures forall k :: k in menu <==> exists i :: Offered(inRange, channels, k, i)
    ensures forall k :: k in menu ==> LeastOfBest(parse, inRange, channels, k, menu[k])
  {
    menu, menus := map[], [];
    for n := 0 to |channels|
      invariant |menus| == n && forall i :: 0 <= i < n ==> menus[i] == Current(parse, inRange, channels[i])
      invariant menu == MergeAll(parse, menus)
    {
      var current := GetCurrent(parse, inRange, channels[n]);
      menu := MergeAddons(parse, menu, current);
      assert (menus + [current])[..n] == menus;
      menus := menus + [current];
    }
    BuiltMenu(parse, inRange, channels, menus);
  }

  lemma BuiltMenu(parse: Parser, inRange: string -> bool, channels: seq<seq<Addon>>, menus: seq<Menu>)
    requires AreMenus(parse, inRange, channels, menus)
    ensures Filed(MergeAll(parse, menus))
    ensures forall k :: k in MergeAll(parse, menus) <==> exists i :: Offered(inRange, channels, k, i)
    ensures forall k :: k in MergeAll(parse, menus) ==>
              LeastOfBest(parse, inRange, channels, k, MergeAll(parse, menus)[k])
  {
    forall i | 0 <= i < |menus| ensures Filed(menus[i]) {
      CurrentIsFiled(parse, inRange, channels[i]);
    }
    MergeAllIsFiled(parse, menus);
    forall k
      ensures k in MergeAll(parse, menus) <==> exists i :: Offered(inRange, channels, k, i)
      ensures k in MergeAll(parse, menus) ==> LeastOfBest(parse, inRange, channels, k, MergeAll(parse, menus)[k])
    {
      BuiltEntry(parse, inRange, channels, menus, k);
    }
  }

  lemma OffersIff(parse: Parser, inRange: string -> bool, channels: seq<seq<Addon>>, menus: seq<Menu>, k: string,
                  i: int)
    requires AreMenus(parse, inRange, channels, menus)
    ensures Offers(menus, k, i) <==> Offered(inRange, channels, k, i)
    ensures Offers(menus, k, i) ==> Best(parse, inRange, channels[i], k, menus[i][k])
  {
    if 0 <= i < |menus| {
      CurrentIsBest(parse, inRange, channels[i], k);
    }
  }

  lemma BuiltEntry(parse: Parser, inRange: string -> bool, channels: seq<seq<Addon>>, menus: seq<Menu>, k: string)
    requires AreMenus(parse, inRange, channels, menus)
    ensures k in MergeAll(parse, menus) <==> exists i :: Offered(inRange, channels, k, i)
    ensures k in MergeAll(parse, menus) ==> LeastOfBest(parse, inRange, channels, k, MergeAll(parse, menus)[k])
  {
    MergeAllIsLowest(parse, menus, k);
    forall i
      ensures Offers(menus, k, i) <==> Offered(inRange, channels, k, i)
      ensures Offers(menus, k, i) ==> Best(parse, inRange, channels[i], k, menus[i][k])
    {
      OffersIff(parse, inRange, channels, menus, k, i);
    }
    if k in MergeAll(parse, menus) {
      LowestIsLeastOfBest(parse, inRange, channels, menus, k, MergeAll(parse, menus)[k]);
    }
  }

  lemma LowestIsLeastOfBest(parse: Parser, inRange: string -> bool, channels: seq<seq<Addon>>, menus: seq<Menu>,
                            k: string, a: Addon)
    requires |menus| == |channels| && Lowest(parse, menus, k, a)
    requires forall i :: Offers(menus, k, i) <==> Offered(inRange, channels, k, i)
    requires forall i :: Offers(menus, k, i) ==> Best(parse, inRange, channels[i], k, menus[i][k])
    ensures LeastOfBest(parse, inRange, channels, k, a)
  {
    var i :| Offers(menus, k, i) && menus[i][k] == a;
    assert Offered(inRange, channels, k, i) && Best(parse, inRange, channels[i], k, a);
    forall j | Offered(inRange, channels, k, j)
      ensures Reaches(parse, inRange, channels[j], k, AddonRank(parse, a))
    {
      assert Offers(menus, k, j);
      assert Best(parse, inRange, channels[j], k, menus[j][k]);
    }
  }

  // ----- The cluster and the apply run

  /** What becomes of a call of the API server or of kubectl; Lost took effect, but the caller sees an error. */
  datatype Answer = Done | Refused | Lost

  type Answers = nat -> Answer

  /** None of these calls went wrong. */
  ghost predicate Smooth(answers: Answers, from: nat, to: nat) {
    forall i :: from <= i < to ==> answers(i).Done?
  }

  /** The addon names a manifest that can be fetched. */
  predicate Installable(isUrl: string -> bool, a: Addon) {
    a.spec.manifest.Some? && a.spec.manifest.value != "" && isUrl(a.spec.manifest.value)
  }

  /** Only addons of the menu were installed. */
  predicate OnMenu(menu: Menu, h: History) {
    h.Nothing? || (OnMenu(menu, h.before) && h.a.name in menu && menu[h.a.name] == h.a)
  }

  /** Everything the run has to know of the addon can be read. */
  ghost predicate AllReadable(ns: Namespaces, menu: Menu) {
    forall k :: k in menu ==> Installed(ns, ChannelOf(menu[k])).Ok?
  }

  ghost predicate AllInstallable(parse: Parser, isUrl: string -> bool, ns: Namespaces, menu: Menu) {
    forall k :: k in menu && NeedsUpdate(parse, ns, menu[k]) ==>
      match menu[k].spec.manifest case Some(m) => m != "" && isUrl(m) case None => false
  }

  ghost predicate AllSettled(parse: Parser, ns: Namespaces, menu: Menu) {
    forall k :: k in menu ==> Settled(parse, ns, menu[k])
  }

  /** Every addon of the menu is recorded, at its own rank or a higher one. */
  ghost predicate AllUpToDate(parse: Parser, ns: Namespaces, menu: Menu) {
    forall k :: k in menu ==> exists v :: IsRecorded(ns, menu[k], Encoded(v)) && UpToDate(parse, menu[k], v)
  }

  lemma SettledIsUpToDate(parse: Parser, ns: Namespaces, menu: Menu)
    ensures AllSettled(parse, ns, menu) <==> AllUpToDate(parse, ns, menu)
  {
    forall k | k in menu
      ensures Settled(parse, ns, menu[k]) <==>
              exists v :: IsRecorded(ns, menu[k], Encoded(v)) && UpToDate(parse, menu[k], v)
    {
      SettledIff(parse, ns, menu[k]);
    }
  }

  // ----- What one installation does to the rest of a run

  /** During a run that began at start: the addon is readable, and needs what it needed or has been installed since. */
  predicate OnCourse(parse: Parser, isUrl: string -> bool, start: Namespaces, now: Namespaces, a: Addon) {
    && Installed(now, ChannelOf(a)).Ok?
    && (NeedsUpdate(parse, now, a) ==> NeedsUpdate(parse, start, a))
    && (NeedsUpdate(parse, start, a) ==> NeedsUpdate(parse, now, a) || Installable(isUrl, a))
  }

  ghost predicate AllOnCourse(parse: Parser, isUrl: string -> bool, start: Namespaces, now: Namespaces, menu: Menu) {
    forall k :: k in menu ==> OnCourse(parse, isUrl, start, now, menu[k])
  }

  /** What is still to do covers everything that is not settled. */
  ghost predicate Covered(parse: Parser, now: Namespaces, menu: Menu, todo: seq<Addon>) {
    forall k :: k in menu ==> menu[k] in todo || Settled(parse, now, menu[k])
  }

  lemma CourseHolds(parse: Parser, isUrl: string -> bool, start: Namespaces, before: Namespaces, menu: Menu, a: Addon)
    requires Filed(menu) && a.name in menu && menu[a.name] == a && AllOnCourse(parse, isUrl, start, before, menu)
    requires NeedsUpdate(parse, before, a) && Installable(isUrl, a)
    ensures AllOnCourse(parse, isUrl, start, Install(before, a), menu)
  {
    forall k | k in menu ensures OnCourse(parse, isUrl, start, Install(before, a), menu[k]) {
      if k == a.name {
        InstallSettles(parse, before, a);
      } else {
        PutElsewhere(before, ChannelOf(a), VersionOf(a), ChannelOf(menu[k]));
        assert OnCourse(parse, isUrl, start, before, menu[k]);
      }
    }
  }

  lemma LessToDo(parse: Parser, before: Namespaces, after: Namespaces, menu: Menu, todo: seq<Addon>)
    requires Filed(menu) && todo != [] && todo[0].name in menu && menu[todo[0].name] == todo[0]
    requires Covered(parse, before, menu, todo) && ChannelOf(todo[0]).namespace in before
    requires Settled(parse, after, todo[0]) && (after == before || after == Install(before, todo[0]))
    ensures Covered(parse, after, menu, todo[1..])
  {
    forall k | k in menu ensures menu[k] in todo[1..] || Settled(parse, after, menu[k]) {
      assert todo == [todo[0]] + todo[1..];
      if k != todo[0].name && after != before {
        InstallElsewhere(parse, before, todo[0], menu[k]);
      }
    }
  }

  class Cluster {
    var namespaces: Namespaces
    /** How many calls have been made. */
    var calls: nat
    const answers: Answers

    constructor (ns: Namespaces, answers: Answers)
      ensures namespaces == ns && calls == 0 && this.answers == answers
    {
      namespaces, calls := ns, 0;
      this.answers := answers;
    }

    method Call() returns (a: Answer)
      modifies this`calls
      ensures calls == old(calls) + 1 && a == answers(old(calls))
    {
      a := answers(calls);
      calls := calls + 1;
    }

    /** One query; it fails when the call does, when the namespace is missing, and when the annotation is unreadable. */
    method GetInstalledVersion(ch: Channel) returns (r: Result<Option<ChannelVersion>>)
      modifies this`calls
      ensures calls == old(calls) + 1
      ensures r == if answers(old(calls)).Done? then Installed(namespaces, ch) else Err
    {
      var answer := Call();
      r := if answer.Done? then Installed(namespaces, ch) else Err;
    }

    /** A query and a patch. A patch that is reported as failed may have taken effect. */
    method SetInstalledVersion(ch: Channel, v: ChannelVersion) returns (ok: bool)
      modifies this
      ensures old(calls) < calls
      ensures ok <==> ch.namespace in old(namespaces) && Smooth(answers, old(calls), calls)
      ensures ok ==> calls == old(calls) + 2
      ensures namespaces ==
              if ch.namespace in old(namespaces) && answers(old(calls)).Done? && !answers(old(calls) + 1).Refused?
              then Put(old(namespaces), ch, v) else old(namespaces)
    {
      var found := Call();
      if !found.Done? || ch.namespace !in namespaces {
        return false;
      }
      var patched := Call();
      if !patched.Refused? {
        namespaces := Put(namespaces, ch, v);
      }
      return patched.Done?;
    }

    method GetRequiredUpdates(parse: Parser, a: Addon) returns (r: Result<bool>)
      modifies this`calls
      ensures calls == old(calls) + 1
      ensures r.Ok? <==> Smooth(answers, old(calls), calls) && Installed(namespaces, ChannelOf(a)).Ok?
      ensures r.Ok? ==> (r.value <==> NeedsUpdate(parse, namespaces, a))
    {
      var existing := GetInstalledVersion(ChannelOf(a));
      if existing.Err? {
        return Err;
      }
      if existing.value.Some? && !Replaces(parse, VersionOf(a), existing.value.value) {
        return Ok(false);
      }
      return Ok(true);
    }

    /**
     * Succeeds exactly when no call goes wrong, the installed version can be read, and an addon that needs its update
     * names a manifest. It installs at most this addon, and only when needed.
     */
    method EnsureUpdated(parse: Parser, isUrl: string -> bool, a: Addon) returns (ok: bool)
      modifies this
      ensures old(calls) < calls
      ensures ok <==> && Smooth(answers, old(calls), calls)
                      && Installed(old(namespaces), ChannelOf(a)).Ok?
                      && (NeedsUpdate(parse, old(namespaces), a) ==> Installable(isUrl, a))
      ensures namespaces == old(namespaces)
              || (NeedsUpdate(parse, old(namespaces), a) && namespaces == Install(old(namespaces), a))
      ensures ok && NeedsUpdate(parse, old(namespaces), a) ==> namespaces == Install(old(namespaces), a)
      ensures ok ==> Settled(parse, namespaces, a)
    {
      var required := GetRequiredUpdates(parse, a);
      if required.Err? {
        return false;
      }
      if !required.value {
        return true;
      }
      if !Installable(isUrl, a) {
        return false;
      }
      var applied := Call();
      if !applied.Done? {
        return false;
      }
      InstallSettles(parse, namespaces, a);
      ok := SetInstalledVersion(ChannelOf(a), VersionOf(a));
    }

    /** The loop that finds the addons of the menu to update, in the order of a map iteration. */
    method FindUpdates(parse: Parser, menu: Menu) returns (r: Result<seq<Addon>>)
      requires Filed(menu)
      modifies this`calls
      ensures old(calls) <= calls
      ensures r.Ok? <==> Smooth(answers, old(calls), calls) && AllReadable(namespaces, menu)
      ensures r.Ok? ==> (forall a :: a in r.value ==> a.name in menu && menu[a.name] == a)
      ensures r.Ok? ==> (forall a :: a in r.value ==> NeedsUpdate(parse, namespaces, a))
      ensures r.Ok? ==> Covered(parse, namespaces, menu, r.value)
    {
      var needUpdates: seq<Addon> := [];
      var left := menu.Keys;
      while left != {}
        invariant left <= menu.Keys && old(calls) <= calls && Smooth(answers, old(calls), calls)
        invariant forall a :: a in needUpdates ==> a.name in menu && menu[a.name] == a
        invariant forall a :: a in needUpdates ==> NeedsUpdate(parse, namespaces, a)
        invariant forall k :: k in menu && k !in left ==> menu[k] in needUpdates || Settled(parse, namespaces, menu[k])
      {
        var k :| k in left;
        left := left - {k};
        var update := GetRequiredUpdates(parse, menu[k]);
        if update.Err? {
          return Err;
        }
        if update.value {
          needUpdates := needUpdates + [menu[k]];
        }
      }
      return Ok(needUpdates);
    }

    /**
     * RunApplyChannel once the menu is made. Whatever happens, the cluster changes only by installing addons of the
     * menu that needed it. The run succeeds exactly when no call goes wrong, every installed version can be read and,
     * with --yes, every addon that needs its update names a manifest; then every addon is settled, so that a second
     * run with the same menu has nothing to do.
     */
    method RunApply(parse: Parser, isUrl: string -> bool, menu: Menu, yes: bool) returns (ok: bool, ghost h: History)
      requires Filed(menu)
      modifies this
      ensures old(calls) <= calls
      ensures ok <==> && Smooth(answers, old(calls), calls)
                      && AllReadable(old(namespaces), menu)
                      && (yes ==> AllInstallable(parse, isUrl, old(namespaces), menu))
      ensures OnMenu(menu, h)
      ensures Legal(parse, old(namespaces), h) && namespaces == After(parse, old(namespaces), h)
      ensures !yes ==> namespaces == old(namespaces)
      ensures ok && yes ==> AllUpToDate(parse, namespaces, menu)
      ensures AllUpToDate(parse, old(namespaces), menu) ==> h == Nothing
    {
      h := Nothing;
      var found := FindUpdates(parse, menu);
      if found.Err? {
        return false, h;
      }
      var needUpdates := found.value;
      assert |needUpdates| > 0 ==> !Settled(parse, namespaces, needUpdates[0]);
      SettledIsUpToDate(parse, namespaces, menu);
      if |needUpdates| == 0 || !yes {
        return true, h;
      }
      ok, h := Update(parse, isUrl, menu, needUpdates);
    }

    /** The loop that installs. */
    method Update(parse: Parser, isUrl: string -> bool, menu: Menu, needUpdates: seq<Addon>)
      returns (ok: bool, ghost h: History)
      requires Filed(menu) && AllReadable(namespaces, menu) && Covered(parse, namespaces, menu, needUpdates)
      requires forall a :: a in needUpdates ==> a.name in menu && menu[a.name] == a
      modifies this
      ensures old(calls) <= calls
      ensures ok <==> Smooth(answers, old(calls), calls) && AllInstallable(parse, isUrl, old(namespaces), menu)
      ensures OnMenu(menu, h)
      ensures Legal(parse, old(namespaces), h) && namespaces == After(parse, old(namespaces), h)
      ensures ok ==> AllUpToDate(parse, namespaces, menu)
    {
      h := Nothing;
      ghost var start := namespaces;
      for i := 0 to |needUpdates|
        invariant old(calls) <= calls && Smooth(answers, old(calls), calls)
        invariant OnMenu(menu, h) && Legal(parse, start, h) && namespaces == After(parse, start, h)
        invariant AllOnCourse(parse, isUrl, start, namespaces, menu)
        invariant Covered(parse, namespaces, menu, needUpdates[i..])
      {
        ghost var before := namespaces;
        var a := needUpdates[i];
        assert OnCourse(parse, isUrl, start, before, menu[a.name]);
        var updated := EnsureUpdated(parse, isUrl, a);
        if namespaces != before {
          h := Then(h, a);
        }
        if !updated {
          return false, h;
        }
        if namespaces != before {
          CourseHolds(parse, isUrl, start, before, menu, a);
        }
        assert needUpdates[i..][1..] == needUpdates[i + 1..];
        LessToDo(parse, before, namespaces, menu, needUpdates[i..]);
      }
      SettledIsUpToDate(parse, namespaces, menu);
      return true, h;
    }

    /** RunApplyChannel: from the addons of every channel on the command line to the cluster. */
    method ApplyChannels(parse: Parser, inRange: string -> bool, isUrl: string -> bool, channels: seq<seq<Addon>>,
                         yes: bool) returns (ok: bool, menu: Menu, ghost h: History)
      modifies this
      ensures Filed(menu) && forall k :: k in menu <==> exists i :: Offered(inRange, channels, k, i)
      ensures forall k :: k in menu ==> LeastOfBest(parse, inRange, channels, k, menu[k])
      ensures old(calls) <= calls
      ensures ok <==> && Smooth(answers, old(calls), calls)
                      && AllReadable(old(namespaces), menu)
                      && (yes ==> AllInstallable(parse, isUrl, old(namespaces), menu))
      ensures OnMenu(menu, h)
      ensures Legal(parse, old(namespaces), h) && namespaces == After(parse, old(namespaces), h)
      ensures ok && yes ==> AllUpToDate(parse, namespaces, menu)
    {
      ghost var menus;
      menu, menus := BuildMenu(parse, inRange, channels);
      ok, h := RunApply(parse, isUrl, menu, yes);
    }
  }
}
