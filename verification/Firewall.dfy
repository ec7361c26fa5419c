/** pkg/model/firewall.go: the TCP port ranges that nodes may reach on the masters. */
module Firewall {

  datatype PortRange = PortRange(from: int, to: int)

  predicate Contains(r: PortRange, p: int) { r.from <= p <= r.to }

  ghost predicate Covered(ranges: seq<PortRange>, p: int) {
    exists i :: 0 <= i < |ranges| && Contains(ranges[i], p)
  }

  /** Every range ends at least two ports before any later one: sorted, disjoint, not adjacent. */
  predicate Separated(ranges: seq<PortRange>) {
    forall i, j :: 0 <= i < j < |ranges| ==> ranges[i].to + 1 < ranges[j].from
  }

  predicate NoneEmpty(ranges: seq<PortRange>) {
    forall i :: 0 <= i < |ranges| ==> ranges[i].from <= ranges[i].to
  }

  predicate Compressed(ranges: seq<PortRange>) { NoneEmpty(ranges) && Separated(ranges) }

  predicate Blocked(blocked: map<int, bool>, p: int) { p in blocked && blocked[p] }

  /** The ports below the bound that the loop lets through. */
  predicate Open(blocked: map<int, bool>, bound: int, p: int) { 1 <= p < bound && !Blocked(blocked, p) }

  // ----- One port at a time

  lemma ExtendLast(ranges: seq<PortRange>, p: int)
    requires ranges != [] && ranges[|ranges| - 1].from <= p == ranges[|ranges| - 1].to + 1
    ensures var longer := ranges[|ranges| - 1 := PortRange(ranges[|ranges| - 1].from, p)];
            forall q :: Covered(longer, q) <==> Covered(ranges, q) || q == p
  {
    var n := |ranges| - 1;
    var longer := ranges[n := PortRange(ranges[n].from, p)];
    forall q ensures Covered(longer, q) <==> Covered(ranges, q) || q == p {
      assert Contains(longer[n], q) <==> Contains(ranges[n], q) || q == p;
      assert forall i :: 0 <= i < n ==> longer[i] == ranges[i];
    }
  }

  lemma AppendRange(ranges: seq<PortRange>, p: int)
    ensures forall q :: Covered(ranges + [PortRange(p, p)], q) <==> Covered(ranges, q) || q == p
  {
    var longer := ranges + [PortRange(p, p)];
    forall q ensures Covered(longer, q) <==> Covered(ranges, q) || q == p {
      assert Contains(longer[|ranges|], q) <==> q == p;
      assert forall i :: 0 <= i < |ranges| ==> longer[i] == ranges[i];
    }
  }

  /** The ranges in the middle of the loop: only the initial one, 1-0, may be empty, and all ports seen are behind. */
  predicate InProgress(ranges: seq<PortRange>, port: int) {
    && ranges != [] && ranges[0].from == 1 && 0 <= ranges[0].to
    && (forall i :: 0 < i < |ranges| ==> ranges[i].from <= ranges[i].to)
    && Separated(ranges) && ranges[|ranges| - 1].to < port
  }

  /** What the loop does with a port that is not blocked. */
  method AddPort(ranges: seq<PortRange>, port: int) returns (longer: seq<PortRange>)
    requires InProgress(ranges, port)
    ensures InProgress(longer, port + 1)
    ensures forall q :: Covered(longer, q) <==> Covered(ranges, q) || q == port
  {
    var last := |ranges| - 1;
    if ranges[last].to + 1 == port {
      ExtendLast(ranges, port);
      longer := ranges[last := PortRange(ranges[last].from, port)];
    } else {
      AppendRange(ranges, port);
      longer := ranges + [PortRange(port, port)];
    }
  }

  /**
   * The compression loop, for any blocked set and any bound. The ranges are separated and cover exactly the open ports;
   * only the initial range can be empty, and it is exactly when port 1 is not open.
   */
  method CompressPorts(blocked: map<int, bool>, bound: int) returns (ranges: seq<PortRange>)
    ensures Separated(ranges)
    ensures forall p :: Covered(ranges, p) <==> Open(blocked, bound, p)
    ensures ranges != [] && ranges[0].from == 1 && NoneEmpty(ranges[1..])
    ensures NoneEmpty(ranges) <==> Open(blocked, bound, 1)
  {
    ranges := [PortRange(1, 0)];
    var port := 1;
    while port < bound
      invariant 1 <= port && (port <= bound || port == 1)
      invariant InProgress(ranges, port)
      invariant forall p :: Covered(ranges, p) <==> Open(blocked, port, p)
    {
      if !Blocked(blocked, port) {
        ranges := AddPort(ranges, port);
      }
      port := port + 1;
    }
    FirstIsEmptyIff(ranges);
  }

  lemma FirstIsEmptyIff(ranges: seq<PortRange>)
    requires ranges != [] && ranges[0].from == 1
    requires Separated(ranges) && 0 <= ranges[0].to
    ensures ranges[0].from <= ranges[0].to <==> Covered(ranges, 1)
  {
    assert Contains(ranges[0], 1) <==> 1 <= ranges[0].to;
    forall i | 0 < i < |ranges| ensures !Contains(ranges[i], 1) {
      assert ranges[0].to + 1 < ranges[i].from;
    }
  }

  // ----- The compressed form is the only one

  lemma FirstIsLeast(ranges: seq<PortRange>, p: int)
    requires Compressed(ranges) && Covered(ranges, p)
    ensures ranges != [] && ranges[0].from <= p
    ensures Contains(ranges[0], p) || ranges[0].to + 1 < p
  {
    var i :| 0 <= i < |ranges| && Contains(ranges[i], p);
    assert ranges[0].from <= ranges[0].to;
    assert i > 0 ==> ranges[0].to + 1 < ranges[i].from;
  }

  lemma FirstEndsFirst(a: seq<PortRange>, b: seq<PortRange>)
    requires Compressed(a) && Compressed(b) && a != [] && b != []
    requires a[0].from == b[0].from
    requires forall p :: Covered(a, p) <==> Covered(b, p)
    ensures b[0].to <= a[0].to
  {
    if a[0].to < b[0].to {
      var p := a[0].to + 1;
      assert a[0].from <= a[0].to;
      assert Contains(b[0], p);
      assert Covered(a, p);
      FirstIsLeast(a, p);
    }
  }

  lemma CoveredByRest(ranges: seq<PortRange>, p: int)
    requires Compressed(ranges) && ranges != []
    ensures Covered(ranges[1..], p) <==> Covered(ranges, p) && !Contains(ranges[0], p)
  {
    if Covered(ranges, p) {
      var i :| 0 <= i < |ranges| && Contains(ranges[i], p);
      assert i > 0 ==> ranges[1..][i - 1] == ranges[i];
    }
    if Covered(ranges[1..], p) {
      var i :| 0 <= i < |ranges[1..]| && Contains(ranges[1..][i], p);
      assert ranges[i + 1] == ranges[1..][i];
      assert ranges[0].to + 1 < ranges[i + 1].from;
    }
  }

  lemma SameRest(a: seq<PortRange>, b: seq<PortRange>)
    requires Compressed(a) && Compressed(b) && a != [] && b != [] && a[0] == b[0]
    requires forall p :: Covered(a, p) <==> Covered(b, p)
    ensures forall p :: Covered(a[1..], p) <==> Covered(b[1..], p)
  {
    forall p ensures Covered(a[1..], p) <==> Covered(b[1..], p) {
      CoveredByRest(a, p);
      CoveredByRest(b, p);
    }
  }

  lemma SameFirst(a: seq<PortRange>, b: seq<PortRange>)
    requires Compressed(a) && Compressed(b) && a != []
    requires forall p :: Covered(a, p) <==> Covered(b, p)
    ensures b != [] && a[0] == b[0]
  {
    Begins(a);
    FirstIsLeast(b, a[0].from);
    Begins(b);
    FirstIsLeast(a, b[0].from);
    FirstEndsFirst(a, b);
    FirstEndsFirst(b, a);
  }

  /** Two compressed lists that cover the same ports are the same list. */
  lemma {:induction false} CompressedIsUnique(a: seq<PortRange>, b: seq<PortRange>)
    requires Compressed(a) && Compressed(b)
    requires forall p :: Covered(a, p) <==> Covered(b, p)
    ensures a == b
  {
    if a == [] {
      if b != [] {
        SameFirst(b, a);
      }
    } else {
      SameFirst(a, b);
      SameRest(a, b);
      CompressedIsUnique(a[1..], b[1..]);
      assert a == [a[0]] + a[1..] && b == [b[0]] + b[1..];
    }
  }

  lemma Begins(ranges: seq<PortRange>)
    requires Compressed(ranges) && ranges != []
    ensures Covered(ranges, ranges[0].from)
  {
    assert Contains(ranges[0], ranges[0].from);
  }

  // ----- The etcd ports

  method BlockedPorts(calico: bool, romana: bool) returns (blocked: map<int, bool>)
    ensures forall p :: Blocked(blocked, p) <==>
              p == 2380 || p == 2381 || p == 4002 || (p == 4001 && !calico && !romana)
  {
    blocked := map[];
    blocked := blocked[4001 := true];
    blocked := blocked[4002 := true];
    blocked := blocked[2380 := true];
    blocked := blocked[2381 := true];
    if calico {
      blocked := blocked[4001 := false];
    }
    if romana {
      blocked := blocked[4001 := false];
    }
  }

  /** Everything but the etcd ports; the client port 4001 is open for Calico and for Romana. */
  method NodeToMasterPorts(calico: bool, romana: bool) returns (ranges: seq<PortRange>)
    ensures Compressed(ranges)
    ensures forall p :: Covered(ranges, p) <==>
              1 <= p <= 65535 && p != 2380 && p != 2381 && p != 4002 && (p == 4001 ==> calico || romana)
    ensures ranges == [PortRange(1, 2379), PortRange(2382, if calico || romana then 4001 else 4000),
                       PortRange(4003, 65535)]
  {
    var blocked := BlockedPorts(calico, romana);
    ranges := CompressPorts(blocked, 65536);
    ghost var expected := [PortRange(1, 2379), PortRange(2382, if calico || romana then 4001 else 4000),
                           PortRange(4003, 65535)];
    forall p ensures Covered(ranges, p) <==> Covered(expected, p) {
      assert Covered(expected, p) <==>
             Contains(expected[0], p) || Contains(expected[1], p) || Contains(expected[2], p);
    }
    CompressedIsUnique(ranges, expected);
  }
}
