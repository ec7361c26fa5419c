/** channels/pkg/channels: which version of an addon replaces which, and the menus built from it. */
module Channels {
  import opened Prelude
  import V = SemVer

  /** semver.ParseTolerant: the version a text denotes, if it denotes one. */
  type Parser = string -> Option<V.Version>

  datatype ChannelVersion = ChannelVersion(version: Option<string>, channel: Option<string>, id: string)

  // ----- channels/pkg/channels/channel_version.go

  /** ChannelVersion.replaces */
  predicate Replaces(parse: Parser, c: ChannelVersion, existing: ChannelVersion) {
    if existing.version.Some? then
      if c.version.None? then false
      else
        var cVersion := parse(c.version.value);
        if cVersion.None? then false
        else
          var existingVersion := parse(existing.version.value);
          if existingVersion.None? then true
          else
            var order := V.Compare(cVersion.value, existingVersion.value);
            if order < 0 then false
            else if order > 0 then true
            else c.id != existing.id
    else c.version.Some?
  }

  /** How far up a version is: none at all, then unreadable ones, then parsed ones by precedence. */
  datatype Rank = Absent | Unversioned | Unparseable | Parsed(v: V.Version)

  function RankOf(parse: Parser, c: ChannelVersion): Rank {
    if c.version.None? then Unversioned
    else
      var v := parse(c.version.value);
      if v.None? then Unparseable else Parsed(v.value)
  }

  function Tier(r: Rank): nat {
    match r
    case Absent => 0
    case Unversioned => 1
    case Unparseable => 2
    case Parsed(_) => 3
  }

  function CompareRank(a: Rank, b: Rank): int {
    if a.Parsed? && b.Parsed? then V.Compare(a.v, b.v) else Tier(a) - Tier(b)
  }

  predicate Outranks(a: Rank, b: Rank) { CompareRank(a, b) > 0 }

  predicate AtLeast(a: Rank, b: Rank) { CompareRank(a, b) >= 0 }

  lemma RankIsOrdered(a: Rank, b: Rank)
    ensures AtLeast(a, b) || Outranks(b, a)
    ensures !(AtLeast(a, b) && Outranks(b, a))
    ensures AtLeast(a, b) && AtLeast(b, a) <==> a == b
  {
    if a.Parsed? && b.Parsed? {
      V.CompareIsOrdered(a.v, b.v);
    }
  }

  lemma RankIsTransitive(a: Rank, b: Rank, c: Rank)
    requires AtLeast(a, b) && AtLeast(b, c)
    ensures AtLeast(a, c)
  {
    if a.Parsed? && b.Parsed? && c.Parsed? {
      V.CompareIsOrdered(a.v, b.v);
      V.CompareIsOrdered(b.v, c.v);
      V.CompareIsOrdered(a.v, c.v);
      V.CompareIsTransitive(c.v, b.v, a.v);
    }
  }

  /** A version replaces exactly the versions it outranks, and those of its own parsed rank with another id. */
  lemma ReplacesIff(parse: Parser, c: ChannelVersion, e: ChannelVersion)
    ensures var rc, re := RankOf(parse, c), RankOf(parse, e);
            Replaces(parse, c, e) <==> Outranks(rc, re) || (rc == re && rc.Parsed? && c.id != e.id)
  {
    var rc, re := RankOf(parse, c), RankOf(parse, e);
    if rc.Parsed? && re.Parsed? {
      V.CompareIsOrdered(rc.v, re.v);
    }
  }

  /** The same without ranks: what the texts parse to decides, and between equal versions the id. */
  lemma ReplacesOutright(parse: Parser, c: ChannelVersion, e: ChannelVersion)
    ensures Replaces(parse, c, e) <==>
            && c.version.Some?
            && (|| e.version.None?
                || (&& parse(c.version.value).Some?
                    && (|| parse(e.version.value).None?
                        || V.Less(parse(e.version.value).value, parse(c.version.value).value)
                        || (parse(e.version.value) == parse(c.version.value) && c.id != e.id))))
  {
    if c.version.Some? && e.version.Some? && parse(c.version.value).Some? && parse(e.version.value).Some? {
      V.PrecedenceIff(parse(c.version.value).value, parse(e.version.value).value);
      V.CompareIsOrdered(parse(c.version.value).value, parse(e.version.value).value);
    }
  }

  /** The order of ranks: nothing, no version, an unreadable version, and then versions by precedence. */
  lemma OutranksIff(a: Rank, b: Rank)
    ensures Outranks(a, b) <==>
            (|| (b.Absent? && !a.Absent?)
             || (b.Unversioned? && (a.Unparseable? || a.Parsed?))
             || (b.Unparseable? && a.Parsed?)
             || (a.Parsed? && b.Parsed? && V.Less(b.v, a.v)))
    ensures AtLeast(a, b) <==> Outranks(a, b) || a == b
  {
    if a.Parsed? && b.Parsed? {
      V.PrecedenceIff(a.v, b.v);
      V.CompareIsOrdered(a.v, b.v);
    }
  }

  /** Nothing replaces itself. */
  lemma ReplacesIsIrreflexive(parse: Parser, c: ChannelVersion)
    ensures !Replaces(parse, c, c)
  {
    ReplacesIff(parse, c, c);
    RankIsOrdered(RankOf(parse, c), RankOf(parse, c));
  }

  // ----- channels/pkg/channels/addons.go

  datatype AddonSpec = AddonSpec(name: Option<string>, namespace: Option<string>, version: Option<string>,
                                 kubernetesVersion: string, id: string, manifest: Option<string>)

  datatype Addon = Addon(name: string, channelName: string, spec: AddonSpec)

  type Menu = map<string, Addon>

  /** Addon.ChannelVersion */
  function VersionOf(a: Addon): ChannelVersion {
    ChannelVersion(a.spec.version, Some(a.channelName), a.spec.id)
  }

  function AddonRank(parse: Parser, a: Addon): Rank {
    RankOf(parse, VersionOf(a))
  }

  /** The rank of an addon is that of the version in its entry. */
  lemma AddonRankIs(parse: Parser, a: Addon)
    ensures a.spec.version.None? <==> AddonRank(parse, a) == Unversioned
    ensures a.spec.version.Some? && parse(a.spec.version.value).None? ==> AddonRank(parse, a) == Unparseable
    ensures a.spec.version.Some? && parse(a.spec.version.value).Some? ==>
              AddonRank(parse, a) == Parsed(parse(a.spec.version.value).value)
  {
  }

  /** inRange: the text parses as a version range that holds the kubernetes version at hand. */
  predicate Matches(inRange: string -> bool, a: Addon) {
    a.spec.kubernetesVersion == "" || inRange(a.spec.kubernetesVersion)
  }

  method WrapInAddons(channel: string, defaultName: string, specs: seq<AddonSpec>) returns (addons: seq<Addon>)
    ensures |addons| == |specs|
    ensures forall i :: 0 <= i < |specs| ==>
              && addons[i].spec == specs[i] && addons[i].channelName == channel
              && (specs[i].name.Some? ==> addons[i].name == specs[i].name.value)
              && (specs[i].name.None? ==> addons[i].name == defaultName)
  {
    addons := [];
    for i := 0 to |specs|
      invariant |addons| == i
      invariant forall k :: 0 <= k < i ==>
                  && addons[k].spec == specs[k] && addons[k].channelName == channel
                  && (specs[k].name.Some? ==> addons[k].name == specs[k].name.value)
                  && (specs[k].name.None? ==> addons[k].name == defaultName)
    {
      var name := defaultName;
      if specs[i].name.Some? {
        name := specs[i].name.value;
      }
      addons := addons + [Addon(name, channel, specs[i])];
    }
  }

  function Offer(parse: Parser, menu: Menu, a: Addon): Menu {
    if a.name !in menu || Replaces(parse, VersionOf(a), VersionOf(menu[a.name])) then menu[a.name := a] else menu
  }

  function Current(parse: Parser, inRange: string -> bool, all: seq<Addon>): Menu {
    if all == [] then map[]
    else
      var menu, a := Current(parse, inRange, all[..|all| - 1]), all[|all| - 1];
      if Matches(inRange, a) then Offer(parse, menu, a) else menu
  }

  method GetCurrent(parse: Parser, inRange: string -> bool, all: seq<Addon>) returns (menu: Menu)
    ensures menu == Current(parse, inRange, all)
  {
    menu := map[];
    for i := 0 to |all|
      invariant menu == Current(parse, inRange, all[..i])
    {
      var addon := all[i];
      assert all[..i + 1][..i] == all[..i];
      if !Matches(inRange, addon) {
        continue;
      }
      if addon.name !in menu || Replaces(parse, VersionOf(addon), VersionOf(menu[addon.name])) {
        menu := menu[addon.name := addon];
      }
    }
    assert all[..|all|] == all;
  }

  /** Entry i of the channel is about this name and applies to this kubernetes version. */
  predicate Candidate(inRange: string -> bool, all: seq<Addon>, name: string, i: int) {
    0 <= i < |all| && all[i].name == name
    && (all[i].spec.kubernetesVersion == "" || inRange(all[i].spec.kubernetesVersion))
  }

  /** The last candidate of that rank. */
  ghost predicate LastAt(parse: Parser, inRange: string -> bool, all: seq<Addon>, name: string, r: Rank, i: int) {
    && Candidate(inRange, all, name, i) && AddonRank(parse, all[i]) == r
    && forall j :: i < j && Candidate(inRange, all, name, j) ==> AddonRank(parse, all[j]) != r
  }

  /** The choice among the candidates: highest rank, and at a parsed rank the id that came last. */
  ghost predicate Best(parse: Parser, inRange: string -> bool, all: seq<Addon>, name: string, a: Addon) {
    && (exists i :: Candidate(inRange, all, name, i) && all[i] == a)
    && (forall i :: Candidate(inRange, all, name, i) ==> AtLeast(AddonRank(parse, a), AddonRank(parse, all[i])))
    && (AddonRank(parse, a).Parsed? ==>
          forall i :: LastAt(parse, inRange, all, name, AddonRank(parse, a), i) ==> all[i].spec.id == a.spec.id)
  }

  /** Candidates among all but the last entry. */
  lemma FrontCandidates(inRange: string -> bool, all: seq<Addon>, name: string)
    requires all != []
    ensures var front := all[..|all| - 1];
            forall i :: 0 <= i < |front| ==> (Candidate(inRange, front, name, i) <==> Candidate(inRange, all, name, i))
  {
  }

  /** Looked at from the longer list, the last candidate of a rank is the last entry, or was last before. */
  lemma LastAtFront(parse: Parser, inRange: string -> bool, all: seq<Addon>, name: string, r: Rank, i: int)
    requires all != [] && LastAt(parse, inRange, all, name, r, i) && i < |all| - 1
    ensures LastAt(parse, inRange, all[..|all| - 1], name, r, i)
  {
    var front := all[..|all| - 1];
    forall j | i < j && Candidate(inRange, front, name, j) ensures AddonRank(parse, front[j]) != r {
      assert Candidate(inRange, all, name, j);
    }
  }

  /** An entry that is not chosen leaves the choice as it was. */
  lemma BestKept(parse: Parser, inRange: string -> bool, all: seq<Addon>, name: string, e: Addon)
    requires all != [] && Best(parse, inRange, all[..|all| - 1], name, e)
    requires var x := all[|all| - 1];
             Candidate(inRange, all, name, |all| - 1) ==> !Replaces(parse, VersionOf(x), VersionOf(e))
    ensures Best(parse, inRange, all, name, e)
  {
    var front, n := all[..|all| - 1], |all| - 1;
    var re := AddonRank(parse, e);
    FrontCandidates(inRange, all, name);
    var k :| Candidate(inRange, front, name, k) && front[k] == e;
    assert Candidate(inRange, all, name, k) && all[k] == e;
    ReplacesIff(parse, VersionOf(all[n]), VersionOf(e));
    RankIsOrdered(re, AddonRank(parse, all[n]));
    forall i | Candidate(inRange, all, name, i) ensures AtLeast(re, AddonRank(parse, all[i])) {
      if i < n { assert Candidate(inRange, front, name, i); }
    }
    forall i | re.Parsed? && LastAt(parse, inRange, all, name, re, i) ensures all[i].spec.id == e.spec.id {
      if i < n { LastAtFront(parse, inRange, all, name, re, i); }
    }
  }

  /** An entry that replaces the choice is the new choice. */
  lemma BestReplaced(parse: Parser, inRange: string -> bool, all: seq<Addon>, name: string, e: Addon)
    requires all != [] && Best(parse, inRange, all[..|all| - 1], name, e)
    requires Candidate(inRange, all, name, |all| - 1)
    requires Replaces(parse, VersionOf(all[|all| - 1]), VersionOf(e))
    ensures Best(parse, inRange, all, name, all[|all| - 1])
  {
    var front, n := all[..|all| - 1], |all| - 1;
    var x := all[n];
    var rx, re := AddonRank(parse, x), AddonRank(parse, e);
    ReplacesIff(parse, VersionOf(x), VersionOf(e));
    RankIsOrdered(rx, re);
    RankIsOrdered(rx, rx);
    forall i | Candidate(inRange, all, name, i) ensures AtLeast(rx, AddonRank(parse, all[i])) {
      if i < n {
        assert Candidate(inRange, front, name, i);
        RankIsTransitive(rx, re, AddonRank(parse, all[i]));
      }
    }
    forall i | LastAt(parse, inRange, all, name, rx, i) ensures i == n {
    }
  }

  lemma BestFirst(parse: Parser, inRange: string -> bool, all: seq<Addon>, front: seq<Addon>, name: string)
    requires all != [] && Candidate(inRange, all, name, |all| - 1)
    requires front == all[..|all| - 1] && forall i :: !Candidate(inRange, front, name, i)
    ensures Best(parse, inRange, all, name, all[|all| - 1])
  {
    var n := |all| - 1;
    RankIsOrdered(AddonRank(parse, all[n]), AddonRank(parse, all[n]));
    forall i | Candidate(inRange, all, name, i) ensures i == n {
      assert i < n ==> Candidate(inRange, front, name, i);
    }
  }

  /** GetCurrent offers every name that has a candidate, and offers the best candidate for it. */
  lemma {:induction false} CurrentIsBest(parse: Parser, inRange: string -> bool, all: seq<Addon>, name: string)
    ensures name in Current(parse, inRange, all) <==> exists i :: Candidate(inRange, all, name, i)
    ensures name in Current(parse, inRange, all) ==> Best(parse, inRange, all, name, Current(parse, inRange, all)[name])
  {
    if all != [] {
      var front, n := all[..|all| - 1], |all| - 1;
      var menu := Current(parse, inRange, front);
      CurrentIsBest(parse, inRange, front, name);
      if name in menu {
        var k :| Candidate(inRange, front, name, k);
        assert Candidate(inRange, all, name, k);
        if Candidate(inRange, all, name, n) && Replaces(parse, VersionOf(all[n]), VersionOf(menu[name])) {
          BestReplaced(parse, inRange, all, name, menu[name]);
        } else {
          BestKept(parse, inRange, all, name, menu[name]);
        }
      } else if Candidate(inRange, all, name, n) {
        BestFirst(parse, inRange, all, front, name);
      } else {
        forall i ensures !Candidate(inRange, all, name, i) {
          if Candidate(inRange, all, name, i) { assert Candidate(inRange, front, name, i); }
        }
      }
    }
  }

  /**
   * One more entry changes the menu only under its own name, only if it applies, and there exactly when there is no
   * entry yet, or one of lower rank, or one of the same parsed rank with another id.
   */
  lemma NextEntry(parse: Parser, inRange: string -> bool, all: seq<Addon>, x: Addon)
    ensures var before, after := Current(parse, inRange, all), Current(parse, inRange, all + [x]);
            var applies := x.spec.kubernetesVersion == "" || inRange(x.spec.kubernetesVersion);
            var r := AddonRank(parse, x);
            var taken := applies && (|| x.name !in before
                                     || Outranks(r, AddonRank(parse, before[x.name]))
                                     || (r.Parsed? && r == AddonRank(parse, before[x.name])
                                         && x.spec.id != before[x.name].spec.id));
            after == if taken then before[x.name := x] else before
  {
    assert (all + [x])[..|all|] == all;
    var before := Current(parse, inRange, all);
    if x.name in before {
      ReplacesIff(parse, VersionOf(x), VersionOf(before[x.name]));
    }
  }

  /** Every entry of the menu is filed under its own name. */
  predicate Filed(menu: Menu) {
    forall k :: k in menu ==> menu[k].name == k
  }

  lemma {:induction false} CurrentIsFiled(parse: Parser, inRange: string -> bool, all: seq<Addon>)
    ensures Filed(Current(parse, inRange, all))
  {
    if all != [] {
      CurrentIsFiled(parse, inRange, all[..|all| - 1]);
    }
  }

  // ----- channels/pkg/channels/addon.go: MergeAddons

  /** An existing entry gives way when it replaces the newcomer. */
  function Merged(parse: Parser, m: Menu, o: Menu): Menu {
    map k | k in m.Keys + o.Keys ::
      if k !in m then o[k]
      else if k in o && Replaces(parse, VersionOf(m[k]), VersionOf(o[k])) then o[k]
      else m[k]
  }

  /** The range over the other menu visits its keys in any order. */
  method MergeAddons(parse: Parser, m: Menu, o: Menu) returns (r: Menu)
    ensures r == Merged(parse, m, o)
  {
    r := m;
    var left := o.Keys;
    while left != {}
      invariant left <= o.Keys
      invariant r.Keys == m.Keys + (o.Keys - left)
      invariant forall k :: k in r ==> r[k] == if k in o && k !in left then Merged(parse, m, o)[k] else m[k]
    {
      var k :| k in left;
      left := left - {k};
      if k !in r {
        r := r[k := o[k]];
      } else if Replaces(parse, VersionOf(r[k]), VersionOf(o[k])) {
        r := r[k := o[k]];
      }
    }
  }

  /** Merging keeps the lower of two ranks, and one of the two entries. */
  lemma MergeKeepsTheLower(parse: Parser, m: Menu, o: Menu, k: string)
    requires k in m && k in o
    ensures var r := Merged(parse, m, o)[k];
            && (r == m[k] || r == o[k])
            && AtLeast(AddonRank(parse, m[k]), AddonRank(parse, r))
            && AtLeast(AddonRank(parse, o[k]), AddonRank(parse, r))
  {
    ReplacesIff(parse, VersionOf(m[k]), VersionOf(o[k]));
    RankIsOrdered(AddonRank(parse, m[k]), AddonRank(parse, o[k]));
    RankIsOrdered(AddonRank(parse, o[k]), AddonRank(parse, m[k]));
    RankIsOrdered(AddonRank(parse, m[k]), AddonRank(parse, m[k]));
    RankIsOrdered(AddonRank(parse, o[k]), AddonRank(parse, o[k]));
  }

  /** Between two entries of one rank, the newcomer is taken when both parse and the ids differ. */
  lemma MergeTies(parse: Parser, m: Menu, o: Menu, k: string)
    requires k in m && k in o && AddonRank(parse, m[k]) == AddonRank(parse, o[k])
    ensures Merged(parse, m, o)[k]
         == if AddonRank(parse, m[k]).Parsed? && m[k].spec.id != o[k].spec.id then o[k] else m[k]
  {
    ReplacesIff(parse, VersionOf(m[k]), VersionOf(o[k]));
    RankIsOrdered(AddonRank(parse, m[k]), AddonRank(parse, o[k]));
  }

  /** The menus of the channels, merged one after the other into an empty one. */
  function MergeAll(parse: Parser, menus: seq<Menu>): Menu {
    if menus == [] then map[] else Merged(parse, MergeAll(parse, menus[..|menus| - 1]), menus[|menus| - 1])
  }

  predicate Offers(menus: seq<Menu>, k: string, i: int) { 0 <= i < |menus| && k in menus[i] }

  /** The entry is one of those offered and none of them ranks lower. */
  ghost predicate Lowest(parse: Parser, menus: seq<Menu>, k: string, a: Addon) {
    && (exists i :: Offers(menus, k, i) && menus[i][k] == a)
    && (forall i :: Offers(menus, k, i) ==> AtLeast(AddonRank(parse, menus[i][k]), AddonRank(parse, a)))
  }

  /** No offer before: the last one stands. */
  lemma LowestAlone(parse: Parser, menus: seq<Menu>, k: string)
    requires menus != [] && k in menus[|menus| - 1]
    requires forall i :: Offers(menus, k, i) ==> i == |menus| - 1
    ensures Lowest(parse, menus, k, menus[|menus| - 1][k])
  {
    var n := |menus| - 1;
    assert Offers(menus, k, n);
    RankIsOrdered(AddonRank(parse, menus[n][k]), AddonRank(parse, menus[n][k]));
  }

  /** An entry no higher than the lowest so far and than the last offer, and equal to one of them, is the lowest. */
  lemma LowestStep(parse: Parser, menus: seq<Menu>, k: string, before: Addon, after: Addon)
    requires menus != [] && Lowest(parse, menus[..|menus| - 1], k, before)
    requires AtLeast(AddonRank(parse, before), AddonRank(parse, after))
    requires after == before || (k in menus[|menus| - 1] && after == menus[|menus| - 1][k])
    requires k in menus[|menus| - 1] ==> AtLeast(AddonRank(parse, menus[|menus| - 1][k]), AddonRank(parse, after))
    ensures Lowest(parse, menus, k, after)
  {
    var front, n := menus[..|menus| - 1], |menus| - 1;
    if after == before {
      var i :| Offers(front, k, i) && front[i][k] == before;
      assert Offers(menus, k, i);
    } else {
      assert Offers(menus, k, n);
    }
    forall i | Offers(menus, k, i) ensures AtLeast(AddonRank(parse, menus[i][k]), AddonRank(parse, after)) {
      if i < n {
        assert Offers(front, k, i);
        RankIsTransitive(AddonRank(parse, menus[i][k]), AddonRank(parse, before), AddonRank(parse, after));
      }
    }
  }

  /** However many menus are merged: the names are all those offered, each at the lowest rank offered. */
  lemma {:induction false} MergeAllIsLowest(parse: Parser, menus: seq<Menu>, k: string)
    ensures k in MergeAll(parse, menus) <==> exists i :: Offers(menus, k, i)
    ensures k in MergeAll(parse, menus) ==> Lowest(parse, menus, k, MergeAll(parse, menus)[k])
  {
    if menus != [] {
      var front, n := menus[..|menus| - 1], |menus| - 1;
      var before, last := MergeAll(parse, front), menus[n];
      MergeAllIsLowest(parse, front, k);
      assert k in last <==> Offers(menus, k, n);
      if k in before {
        var i :| Offers(front, k, i);
        assert Offers(menus, k, i);
        if k in last {
          MergeKeepsTheLower(parse, before, last, k);
        }
        RankIsOrdered(AddonRank(parse, before[k]), AddonRank(parse, before[k]));
        LowestStep(parse, menus, k, before[k], MergeAll(parse, menus)[k]);
      } else {
        forall i | Offers(menus, k, i) ensures i == n {
          assert i < n ==> Offers(front, k, i);
        }
        if k in last {
          LowestAlone(parse, menus, k);
        }
      }
    }
  }

  /** Merging keeps entries under their own names. */
  lemma {:induction false} MergeAllIsFiled(parse: Parser, menus: seq<Menu>)
    requires forall i :: 0 <= i < |menus| ==> Filed(menus[i])
    ensures Filed(MergeAll(parse, menus))
  {
    if menus != [] {
      MergeAllIsFiled(parse, menus[..|menus| - 1]);
      assert Filed(menus[|menus| - 1]);
    }
  }

  /** The merged menu has the latest version on offer exactly when all offers have the same rank. */
  lemma MergeIsLatestIff(parse: Parser, menus: seq<Menu>, k: string)
    requires k in MergeAll(parse, menus)
    ensures (forall i :: Offers(menus, k, i) ==>
               AtLeast(AddonRank(parse, MergeAll(parse, menus)[k]), AddonRank(parse, menus[i][k])))
       <==> (forall i, j :: Offers(menus, k, i) && Offers(menus, k, j) ==>
               AddonRank(parse, menus[i][k]) == AddonRank(parse, menus[j][k]))
  {
    MergeAllIsLowest(parse, menus, k);
    var r := AddonRank(parse, MergeAll(parse, menus)[k]);
    forall i | Offers(menus, k, i)
      ensures AtLeast(r, AddonRank(parse, menus[i][k])) <==> AddonRank(parse, menus[i][k]) == r
    {
      RankIsOrdered(r, AddonRank(parse, menus[i][k]));
    }
  }

  /** Merging a channel at 2.0.0 with a channel at 1.0.0 leaves 1.0.0 on the menu. */
  lemma MergeCanDropTheLatest()
    ensures var parse: Parser := s => if s == "1.0.0" then Some(V.Version(1, 0, 0, []))
                                      else if s == "2.0.0" then Some(V.Version(2, 0, 0, [])) else None;
            var newer := Addon("dns", "a", AddonSpec(None, None, Some("2.0.0"), "", "", None));
            var older := Addon("dns", "b", AddonSpec(None, None, Some("1.0.0"), "", "", None));
            && Outranks(AddonRank(parse, newer), AddonRank(parse, older))
            && MergeAll(parse, [map["dns" := newer], map["dns" := older]]) == map["dns" := older]
  {
    var parse: Parser := s => if s == "1.0.0" then Some(V.Version(1, 0, 0, []))
                              else if s == "2.0.0" then Some(V.Version(2, 0, 0, [])) else None;
    var newer := Addon("dns", "a", AddonSpec(None, None, Some("2.0.0"), "", "", None));
    var older := Addon("dns", "b", AddonSpec(None, None, Some("1.0.0"), "", "", None));
    var menus: seq<Menu> := [map["dns" := newer], map["dns" := older]];
    assert "1.0.0"[0] != "2.0.0"[0];
    assert menus[..1][..0] == [];
    assert MergeAll(parse, menus[..1]) == map["dns" := newer];
  }
}
