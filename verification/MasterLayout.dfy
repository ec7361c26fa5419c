/** cmd/kops/create_cluster.go: the master instance groups of a new cluster, and the names of its etcd members. */
module MasterLayout {
  import opened Prelude
  import opened Text

  datatype InstanceGroup = InstanceGroup(name: string, zone: string)

  datatype EtcdMember = EtcdMember(name: string, instanceGroup: string)

  predicate Distinct<T(==)>(s: seq<T>) {
    forall i, j :: 0 <= i < j < |s| ==> s[i] != s[j]
  }

  // ----- Masters, round-robin over the zones

  /** The name of master i, without the "master-" in front. */
  function MasterName(zones: seq<string>, count: nat, i: nat): string
    requires zones != []
  {
    NameFor(zones, count > |zones|, ZoneIndex(i, |zones|), Round(i, |zones|))
  }

  /** i / n */
  function Round(i: nat, n: nat): nat
    requires n > 0
  {
    if i < n then 0 else 1 + Round(i - n, n)
  }

  /** i % n */
  function ZoneIndex(i: nat, n: nat): (z: nat)
    requires n > 0
    ensures z < n
  {
    if i < n then i else ZoneIndex(i - n, n)
  }

  lemma {:induction false} PlaceIsDivMod(i: nat, n: nat)
    requires n > 0
    ensures Round(i, n) == i / n && ZoneIndex(i, n) == i % n
  {
    if i < n {
      DivModUnique(i, n, 0, i);
    } else {
      PlaceIsDivMod(i - n, n);
      DivModUnique(i, n, (i - n) / n + 1, (i - n) % n);
    }
  }

  /** Round k in zone p; rounds are numbered only when there are more masters than zones. */
  function NameFor(zones: seq<string>, numbered: bool, p: nat, k: nat): string
    requires p < |zones|
  {
    if numbered then zones[p] + "-" + Itoa(1 + k) else zones[p]
  }

  /** Master i stands in zone i, counting round the zones, and bears its name. */
  ghost predicate RoundRobin(zones: seq<string>, count: nat, masters: seq<InstanceGroup>)
    requires zones != []
  {
    |masters| == count && forall i :: 0 <= i < count ==> masters[i] == MasterAt(zones, count, i)
  }

  function MasterAt(zones: seq<string>, count: nat, i: nat): InstanceGroup
    requires zones != []
  {
    InstanceGroup("master-" + MasterName(zones, count, i), zones[ZoneIndex(i, |zones|)])
  }

  /** Master i stands in the zone that i masters before it lead to, and is named after it, with its round if needed. */
  ghost predicate Placed(zones: seq<string>, count: nat, masters: seq<InstanceGroup>, i: nat)
    requires zones != [] && i < |masters|
  {
    && masters[i].zone == zones[i % |zones|]
    && masters[i].name == "master-" + if count <= |zones| then zones[i % |zones|]
                                      else zones[i % |zones|] + "-" + Itoa(1 + i / |zones|)
  }

  lemma MasterIsPlaced(zones: seq<string>, count: nat, masters: seq<InstanceGroup>, i: nat)
    requires zones != [] && RoundRobin(zones, count, masters) && i < count
    ensures Placed(zones, count, masters, i)
  {
    PlaceIsDivMod(i, |zones|);
    assert masters[i] == MasterAt(zones, count, i);
  }

  method BuildMasters(zones: seq<string>, count: nat) returns (masters: seq<InstanceGroup>)
    requires zones != []
    ensures |masters| == count && forall i :: 0 <= i < count ==> Placed(zones, count, masters, i)
    ensures RoundRobin(zones, count, masters)
  {
    masters := [];
    for i := 0 to count
      invariant |masters| == i
      invariant forall k :: 0 <= k < i ==> masters[k] == MasterAt(zones, count, k)
    {
      PlaceIsDivMod(i, |zones|);
      var zone := zones[i % |zones|];
      var name := zone;
      if count > |zones| {
        name := name + "-" + Itoa(1 + i / |zones|);
      }
      masters := masters + [InstanceGroup("master-" + name, zone)];
    }
    forall i | 0 <= i < count ensures Placed(zones, count, masters, i) {
      MasterIsPlaced(zones, count, masters, i);
    }
  }

  lemma DashInside(a: string, x: string, b: string, y: string)
    requires a + "-" + x == b + "-" + y && |a| < |b|
    ensures '-' in x
  {
    assert (b + "-" + y)[|b|] == '-';
    assert (a + "-" + x)[|b|] == x[|b| - |a| - 1];
  }

  /** The last dash tells a zone from a number. */
  lemma LastDash(a: string, b: string, m: nat, n: nat)
    requires a + "-" + Itoa(m) == b + "-" + Itoa(n)
    ensures a == b && m == n
  {
    ItoaReadsBack(m);
    ItoaReadsBack(n);
    var x, y := Itoa(m), Itoa(n);
    if |a| < |b| {
      DashInside(a, x, b, y);
    } else if |b| < |a| {
      DashInside(b, y, a, x);
    }
    assert (a + "-" + x)[..|a|] == a && (b + "-" + y)[..|b|] == b;
    assert (a + "-" + x)[|a| + 1..] == x && (b + "-" + y)[|b| + 1..] == y;
    ItoaIsInjective(m, n);
  }

  /** The zones that get a master. */
  function InUse(zones: seq<string>, count: nat): seq<string> {
    if count < |zones| then zones[..count] else zones
  }

  lemma SameName(zones: seq<string>, used: nat, numbered: bool, p: nat, k: nat, q: nat, l: nat)
    requires used <= |zones| && Distinct(zones[..used]) && p < used && q < used
    requires NameFor(zones, numbered, p, k) == NameFor(zones, numbered, q, l)
    ensures p == q && (numbered ==> k == l)
  {
    if numbered {
      LastDash(zones[p], zones[q], 1 + k, 1 + l);
    }
    assert zones[..used][p] == zones[..used][q];
  }

  /** Zone and round tell the master. */
  lemma {:induction false} SamePlaceSameMaster(i: nat, j: nat, n: nat)
    requires n > 0 && ZoneIndex(i, n) == ZoneIndex(j, n) && Round(i, n) == Round(j, n)
    ensures i == j
  {
    if i >= n && j >= n {
      SamePlaceSameMaster(i - n, j - n, n);
    }
  }

  lemma SameNameSameMaster(zones: seq<string>, count: nat, i: nat, j: nat)
    requires zones != [] && Distinct(InUse(zones, count)) && i < count && j < count
    requires MasterName(zones, count, i) == MasterName(zones, count, j)
    ensures i == j
  {
    var n := |zones|;
    var used := |InUse(zones, count)|;
    assert zones[..used] == InUse(zones, count);
    SameName(zones, used, count > n, ZoneIndex(i, n), Round(i, n), ZoneIndex(j, n), Round(j, n));
    SamePlaceSameMaster(i, j, n);
  }

  /** Master names are distinct exactly when the zones that get a master are, whatever the count. */
  lemma MasterNamesAreDistinctIff(zones: seq<string>, count: nat)
    requires zones != []
    ensures Distinct(InUse(zones, count)) <==>
            forall i, j :: 0 <= i < j < count ==> MasterName(zones, count, i) != MasterName(zones, count, j)
  {
    var used := InUse(zones, count);
    if Distinct(used) {
      forall i, j | 0 <= i < j < count && MasterName(zones, count, i) == MasterName(zones, count, j) ensures false {
        SameNameSameMaster(zones, count, i, j);
      }
    } else {
      var p, q :| 0 <= p < q < |used| && used[p] == used[q];
      assert MasterName(zones, count, p) == MasterName(zones, count, q);
    }
  }

  /** How many of the first count masters go to zone z. */
  function InZone(n: nat, count: nat, z: nat): nat
    requires z < n
  {
    if count == 0 then 0 else InZone(n, count - 1, z) + if ZoneIndex(count - 1, n) == z then 1 else 0
  }

  lemma DivModUnique(x: nat, n: nat, q: nat, r: nat)
    requires r < n && x == q * n + r
    ensures x / n == q && x % n == r
  {
    SameQuotient(n, x / n, x % n, q, r);
  }

  lemma SameQuotient(n: nat, q: int, r: nat, p: int, t: nat)
    requires r < n && t < n && q * n + r == p * n + t
    ensures q == p && r == t
  {
    if q < p {
      NextMultiple(q, p, n);
    } else if p < q {
      NextMultiple(p, q, n);
    }
  }

  lemma NextMultiple(q: int, p: int, n: nat)
    requires q < p
    ensures q * n + n <= p * n
  {
    var d: nat := p - q - 1;
    assert p * n == (q + 1 + d) * n == q * n + n + d * n;
  }

  lemma NextDivMod(c: nat, n: nat)
    requires n > 0
    ensures if c % n == n - 1 then (c + 1) % n == 0 && (c + 1) / n == c / n + 1
            else (c + 1) % n == c % n + 1 && (c + 1) / n == c / n
  {
    var q, r := c / n, c % n;
    assert c == q * n + r;
    if r == n - 1 {
      DivModUnique(c + 1, n, q + 1, 0);
    } else {
      DivModUnique(c + 1, n, q, r + 1);
    }
  }

  /** Every zone gets its share, rounded down or up: the first count % n zones one more than the rest. */
  lemma {:induction false} EveryZoneGetsItsShare(n: nat, count: nat, z: nat)
    requires z < n
    ensures InZone(n, count, z) == count / n + if z < count % n then 1 else 0
  {
    if count > 0 {
      EveryZoneGetsItsShare(n, count - 1, z);
      PlaceIsDivMod(count - 1, n);
      NextDivMod(count - 1, n);
    }
  }

  // ----- trimCommonPrefix

  /** How many masters stand in the zone. */
  function MastersIn(masters: seq<InstanceGroup>, zone: string): nat {
    if masters == [] then 0
    else MastersIn(masters[..|masters| - 1], zone) + if masters[|masters| - 1].zone == zone then 1 else 0
  }

  lemma {:induction false} MastersInAre(zones: seq<string>, count: nat, masters: seq<InstanceGroup>, k: nat, z: nat)
    requires zones != [] && Distinct(zones) && z < |zones| && k <= count && RoundRobin(zones, count, masters)
    ensures MastersIn(masters[..k], zones[z]) == InZone(|zones|, k, z)
  {
    if k > 0 {
      MastersInAre(zones, count, masters, k - 1, z);
      assert masters[..k][..k - 1] == masters[..k - 1];
      assert masters[k - 1] == MasterAt(zones, count, k - 1);
      assert masters[k - 1].zone == zones[ZoneIndex(k - 1, |zones|)];
    }
  }

  /** Of the masters that are built, each zone gets its share, rounded down or up; the first zones get the odd ones. */
  lemma EveryZoneHoldsItsShare(zones: seq<string>, count: nat, masters: seq<InstanceGroup>, z: nat)
    requires zones != [] && Distinct(zones) && z < |zones| && RoundRobin(zones, count, masters)
    ensures MastersIn(masters, zones[z]) == count / |zones| + if z < count % |zones| then 1 else 0
  {
    MastersInAre(zones, count, masters, count, z);
    assert masters[..count] == masters;
    EveryZoneGetsItsShare(|zones|, count, z);
  }


  /** One prefix was taken off every name, and no more can be: the first has one character left, or they differ. */
  ghost predicate Trimmed(before: seq<string>, prefix: string, after: seq<string>) {
    && |after| == |before|
    && (forall i :: 0 <= i < |before| ==> before[i] == prefix + after[i])
    && (after != [] && |after[0]| > 1 ==> exists i :: 0 <= i < |after| && !(after[0][..1] <= after[i]))
    && (after != [] && before[0] != "" ==> after[0] != "")
  }

  /** The names slice is rewritten in place. */
  method TrimCommonPrefix(names: array<string>) returns (ghost prefix: string)
    modifies names
    ensures Trimmed(old(names[..]), prefix, names[..])
  {
    prefix := "";
    while names.Length != 0 && |names[0]| > 1
      invariant forall i :: 0 <= i < names.Length ==> old(names[i]) == prefix + names[i]
      invariant names.Length > 0 && old(names[0]) != "" ==> names[0] != ""
      decreases if names.Length == 0 then 0 else |names[0]|
    {
      var first := names[0][..1];
      var allMatch := true;
      for i := 0 to names.Length
        invariant allMatch <==> forall k :: 0 <= k < i ==> first <= names[k]
      {
        if !(first <= names[i]) {
          allMatch := false;
        }
      }
      if !allMatch {
        break;
      }
      ghost var was := names[..];
      for i := 0 to names.Length
        invariant forall k :: 0 <= k < i ==> names[k] == was[k][1..]
        invariant forall k :: i <= k < names.Length ==> names[k] == was[k]
      {
        names[i] := names[i][1..];
      }
      forall i | 0 <= i < names.Length ensures old(names[i]) == prefix + first + names[i] {
        assert was[i] == first + was[i][1..];
        Assoc(prefix, first, was[i][1..]);
      }
      prefix := prefix + first;
    }
  }

  /** Trimming tells no two names together and none apart. */
  lemma TrimmedIsDistinctIff(before: seq<string>, prefix: string, after: seq<string>)
    requires Trimmed(before, prefix, after)
    ensures Distinct(after) <==> Distinct(before)
  {
    forall i, j | 0 <= i < j < |after| ensures after[i] == after[j] <==> before[i] == before[j] {
      assert after[i] == before[i][|prefix|..] && after[j] == before[j][|prefix|..];
    }
  }

  /** A name that all names start with, shorter than the first. */
  ghost predicate IsShortPrefix(names: seq<string>, i: int) {
    0 <= i < |names| && |names[i]| < |names[0]| && forall j :: 0 <= j < |names| ==> names[i] <= names[j]
  }

  /** While a short prefix has characters left, all names go on with the same one. */
  lemma GoOnAlike(before: seq<string>, prefix: string, after: seq<string>, i: nat)
    requires |after| == |before| && forall j :: 0 <= j < |before| ==> before[j] == prefix + after[j]
    requires IsShortPrefix(before, i) && after[i] != ""
    ensures |after[0]| > 1 && forall j :: 0 <= j < |after| ==> after[0][..1] <= after[j]
  {
    assert before[i] == prefix + after[i] && before[0] == prefix + after[0];
    forall j | 0 <= j < |after| ensures |after[j]| >= 1 && after[j][0] == after[i][0] {
      assert before[i] <= before[j] && before[j] == prefix + after[j];
      assert before[j][|prefix|] == after[i][0];
    }
  }

  /** A name is trimmed away to nothing exactly when all names start with it and it is shorter than the first. */
  lemma TrimmedToNothingIff(before: seq<string>, prefix: string, after: seq<string>, i: nat)
    requires Trimmed(before, prefix, after) && i < |before| && "" !in before
    ensures after[i] == "" <==> IsShortPrefix(before, i)
  {
    assert before[0] in before;
    assert before[0] == prefix + after[0];
    if after[i] == "" {
      assert before[i] == prefix + "";
      assert before[i] == prefix;
    } else if IsShortPrefix(before, i) {
      GoOnAlike(before, prefix, after, i);
    }
  }

  /** Zones ab and a: the second member is left without a name. */
  lemma NamelessMember(prefix: string, after: seq<string>)
    requires Trimmed(["ab", "a"], prefix, after)
    ensures after[1] == ""
  {
    assert IsShortPrefix(["ab", "a"], 1);
    TrimmedToNothingIff(["ab", "a"], prefix, after, 1);
  }

  // ----- Etcd members

  /** The members of one etcd cluster: one per master, named by what is left of the master's name. */
  method BuildMembers(masters: seq<InstanceGroup>)
    returns (members: seq<EtcdMember>, ghost names: seq<string>, ghost prefix: string)
    ensures |members| == |names| == |masters|
    ensures forall i :: 0 <= i < |masters| ==> names[i] == TrimPrefix(masters[i].name, "master-")
    ensures forall i :: 0 <= i < |masters| ==> members[i].instanceGroup == masters[i].name
    ensures Trimmed(names, prefix, seq(|members|, i requires 0 <= i < |members| => members[i].name))
  {
    var a := new string[|masters|](i requires 0 <= i < |masters| => TrimPrefix(masters[i].name, "master-"));
    names := a[..];
    prefix := TrimCommonPrefix(a);
    members := [];
    ghost var trimmed := a[..];
    for i := 0 to |masters|
      invariant a[..] == trimmed
      invariant |members| == i
      invariant forall k :: 0 <= k < i ==> members[k] == EtcdMember(trimmed[k], masters[k].name)
    {
      members := members + [EtcdMember(a[i], masters[i].name)];
    }
    assert trimmed == seq(|members|, i requires 0 <= i < |members| => members[i].name);
  }

  lemma WithoutMaster(name: string)
    ensures TrimPrefix("master-" + name, "master-") == name
  {
    assert ("master-" + name)[|"master-"|..] == name;
  }

  /** The names that go into the trimming, like those of the groups, are distinct exactly when the zones in use are. */
  lemma RoundRobinIsDistinctIff(zones: seq<string>, count: nat, masters: seq<InstanceGroup>, names: seq<string>)
    requires zones != [] && RoundRobin(zones, count, masters)
    requires |names| == count && forall i :: 0 <= i < count ==> names[i] == TrimPrefix(masters[i].name, "master-")
    ensures Distinct(names) <==> Distinct(InUse(zones, count))
    ensures (forall i, j :: 0 <= i < j < count ==> masters[i].name != masters[j].name)
            <==> Distinct(InUse(zones, count))
  {
    forall i | 0 <= i < count
      ensures names[i] == MasterName(zones, count, i) && masters[i].name == "master-" + names[i]
    {
      assert masters[i] == MasterAt(zones, count, i);
      WithoutMaster(MasterName(zones, count, i));
    }
    MasterNamesAreDistinctIff(zones, count);
    forall i, j | 0 <= i < j < count ensures masters[i].name == masters[j].name <==> names[i] == names[j] {
      WithoutMaster(names[i]);
      WithoutMaster(names[j]);
    }
  }

  /** Every zone holds its share of the masters. */
  ghost predicate Shared(zones: seq<string>, count: nat, masters: seq<InstanceGroup>)
    requires zones != []
  {
    forall z :: 0 <= z < |zones| ==>
      MastersIn(masters, zones[z]) == count / |zones| + if z < count % |zones| then 1 else 0
  }

  lemma SharesHold(zones: seq<string>, count: nat, masters: seq<InstanceGroup>)
    requires zones != [] && RoundRobin(zones, count, masters)
    ensures Distinct(zones) ==> Shared(zones, count, masters)
  {
    if Distinct(zones) {
      forall z | 0 <= z < |zones|
        ensures MastersIn(masters, zones[z]) == count / |zones| + if z < count % |zones| then 1 else 0
      {
        EveryZoneHoldsItsShare(zones, count, masters, z);
      }
    }
  }

  /**
   * From zones to etcd: one member per group, matched by index. Group names are distinct, and so are member names,
   * exactly when the zones in use are distinct.
   */
  method LayOut(zones: seq<string>, count: nat) returns (masters: seq<InstanceGroup>, members: seq<EtcdMember>)
    requires zones != []
    ensures |masters| == count && forall i :: 0 <= i < count ==> Placed(zones, count, masters, i)
    ensures RoundRobin(zones, count, masters) && |members| == count
    ensures Distinct(zones) ==> Shared(zones, count, masters)
    ensures forall i :: 0 <= i < count ==> members[i].instanceGroup == masters[i].name
    ensures Distinct(InUse(zones, count)) <==>
            forall i, j :: 0 <= i < j < count ==> masters[i].name != masters[j].name
    ensures Distinct(InUse(zones, count)) <==>
            forall i, j :: 0 <= i < j < count ==> members[i].name != members[j].name
  {
    masters := BuildMasters(zones, count);
    SharesHold(zones, count, masters);
    ghost var names, prefix;
    members, names, prefix := BuildMembers(masters);
    RoundRobinIsDistinctIff(zones, count, masters, names);
    ghost var after := seq(|members|, i requires 0 <= i < |members| => members[i].name);
    TrimmedIsDistinctIff(names, prefix, after);
    assert forall i :: 0 <= i < count ==> after[i] == members[i].name;
  }
}
