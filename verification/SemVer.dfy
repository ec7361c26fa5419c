/**
 * The precedence of parsed versions, section 11 of Semantic Versioning 2.0.0, as vendored in
 * vendor/github.com/blang/semver/semver.go, and the proof that it is a total order.
 */
module SemVer {

  datatype Identifier = Numeric(n: nat) | Alphanumeric(s: string)

  /** Build metadata takes no part in precedence and is left out. */
  datatype Version = Version(major: nat, minor: nat, patch: nat, pre: seq<Identifier>)

  function CompareNat(a: nat, b: nat): int {
    if a < b then -1 else if a > b then 1 else 0
  }

  function CompareText(a: string, b: string): int {
    if a == "" && b == "" then 0
    else if a == "" then -1
    else if b == "" then 1
    else if a[0] != b[0] then if a[0] < b[0] then -1 else 1
    else CompareText(a[1..], b[1..])
  }

  function CompareIdentifier(a: Identifier, b: Identifier): int {
    match (a, b)
    case (Numeric(_), Alphanumeric(_)) => -1
    case (Alphanumeric(_), Numeric(_)) => 1
    case (Numeric(m), Numeric(n)) => CompareNat(m, n)
    case (Alphanumeric(s), Alphanumeric(t)) => CompareText(s, t)
  }

  /** Identifier by identifier; when one list ends first, it is the smaller one. */
  function ComparePre(a: seq<Identifier>, b: seq<Identifier>): int {
    if a == [] && b == [] then 0
    else if a == [] then -1
    else if b == [] then 1
    else
      var c := CompareIdentifier(a[0], b[0]);
      if c != 0 then c else ComparePre(a[1..], b[1..])
  }

  /** A version without a prerelease outranks the same version with one. */
  function CompareRelease(a: seq<Identifier>, b: seq<Identifier>): int {
    if a == [] && b == [] then 0 else if a == [] then 1 else if b == [] then -1 else ComparePre(a, b)
  }

  function Compare(a: Version, b: Version): int {
    if a.major != b.major then CompareNat(a.major, b.major)
    else if a.minor != b.minor then CompareNat(a.minor, b.minor)
    else if a.patch != b.patch then CompareNat(a.patch, b.patch)
    else CompareRelease(a.pre, b.pre)
  }

  // ----- A total order

  lemma {:induction false} TextIsOrdered(a: string, b: string)
    ensures CompareText(a, b) == -CompareText(b, a)
    ensures CompareText(a, b) == 0 <==> a == b
  {
    if a != "" && b != "" && a[0] == b[0] {
      TextIsOrdered(a[1..], b[1..]);
      assert a == [a[0]] + a[1..] && b == [b[0]] + b[1..];
    }
  }

  lemma {:induction false} TextIsTransitive(a: string, b: string, c: string)
    requires CompareText(a, b) <= 0 && CompareText(b, c) <= 0
    ensures CompareText(a, c) <= 0
  {
    if a != "" && b != "" && c != "" && a[0] == b[0] == c[0] {
      TextIsTransitive(a[1..], b[1..], c[1..]);
    }
  }

  lemma IdentifierIsOrdered(a: Identifier, b: Identifier)
    ensures CompareIdentifier(a, b) == -CompareIdentifier(b, a)
    ensures CompareIdentifier(a, b) == 0 <==> a == b
  {
    if a.Alphanumeric? && b.Alphanumeric? {
      TextIsOrdered(a.s, b.s);
    }
  }

  lemma IdentifierIsTransitive(a: Identifier, b: Identifier, c: Identifier)
    requires CompareIdentifier(a, b) <= 0 && CompareIdentifier(b, c) <= 0
    ensures CompareIdentifier(a, c) <= 0
  {
    if a.Alphanumeric? && b.Alphanumeric? && c.Alphanumeric? {
      TextIsTransitive(a.s, b.s, c.s);
    }
  }

  lemma {:induction false} PreIsOrdered(a: seq<Identifier>, b: seq<Identifier>)
    ensures ComparePre(a, b) == -ComparePre(b, a)
    ensures ComparePre(a, b) == 0 <==> a == b
  {
    if a != [] && b != [] {
      IdentifierIsOrdered(a[0], b[0]);
      if a[0] == b[0] {
        PreIsOrdered(a[1..], b[1..]);
        assert a == [a[0]] + a[1..] && b == [b[0]] + b[1..];
      }
    }
  }

  lemma {:induction false} PreIsTransitive(a: seq<Identifier>, b: seq<Identifier>, c: seq<Identifier>)
    requires ComparePre(a, b) <= 0 && ComparePre(b, c) <= 0
    ensures ComparePre(a, c) <= 0
  {
    if a != [] && b != [] && c != [] {
      IdentifierIsOrdered(a[0], b[0]);
      IdentifierIsOrdered(b[0], c[0]);
      IdentifierIsOrdered(a[0], c[0]);
      IdentifierIsTransitive(a[0], b[0], c[0]);
      if a[0] == b[0] == c[0] {
        PreIsTransitive(a[1..], b[1..], c[1..]);
      }
    }
  }

  /** Precedence is antisymmetric, and only a version itself has the same precedence. */
  lemma CompareIsOrdered(a: Version, b: Version)
    ensures Compare(a, b) == -Compare(b, a)
    ensures Compare(a, b) == 0 <==> a == b
  {
    PreIsOrdered(a.pre, b.pre);
  }

  lemma CompareIsTransitive(a: Version, b: Version, c: Version)
    requires Compare(a, b) <= 0 && Compare(b, c) <= 0
    ensures Compare(a, c) <= 0
  {
    if a.pre != [] && b.pre != [] && c.pre != [] && ComparePre(a.pre, b.pre) <= 0 && ComparePre(b.pre, c.pre) <= 0 {
      PreIsTransitive(a.pre, b.pre, c.pre);
    }
  }

  // ----- Precedence as the specification words it

  /** The texts agree up to some place, and there the one has ended, or has the smaller character. */
  ghost predicate TextLess(a: string, b: string) {
    exists i :: 0 <= i < |b| && TextLessAt(a, b, i)
  }

  predicate TextLessAt(a: string, b: string, i: int) {
    0 <= i < |b| && i <= |a| && a[..i] == b[..i] && (i == |a| || a[i] < b[i])
  }

  /** Numbers by value, texts in character order, and a number before any text. */
  ghost predicate IdentifierLess(a: Identifier, b: Identifier) {
    || (a.Numeric? && b.Numeric? && a.n < b.n)
    || (a.Numeric? && b.Alphanumeric?)
    || (a.Alphanumeric? && b.Alphanumeric? && TextLess(a.s, b.s))
  }

  ghost predicate PreLess(a: seq<Identifier>, b: seq<Identifier>) {
    exists i :: 0 <= i < |b| && PreLessAt(a, b, i)
  }

  ghost predicate PreLessAt(a: seq<Identifier>, b: seq<Identifier>, i: int) {
    0 <= i < |b| && i <= |a| && a[..i] == b[..i] && (i == |a| || IdentifierLess(a[i], b[i]))
  }

  /** Major, minor, patch; then a prerelease comes before the release, and prereleases by their identifiers. */
  ghost predicate Less(a: Version, b: Version) {
    || a.major < b.major
    || (a.major == b.major && a.minor < b.minor)
    || (a.major == b.major && a.minor == b.minor && a.patch < b.patch)
    || (a.major == b.major && a.minor == b.minor && a.patch == b.patch
        && a.pre != [] && (b.pre == [] || PreLess(a.pre, b.pre)))
  }

  lemma TextLessCons(a: string, b: string)
    requires a != "" && b != ""
    ensures TextLess(a, b) <==> a[0] < b[0] || (a[0] == b[0] && TextLess(a[1..], b[1..]))
  {
    if a[0] < b[0] {
      assert TextLessAt(a, b, 0);
    }
    if a[0] == b[0] && TextLess(a[1..], b[1..]) {
      var i :| 0 <= i < |b[1..]| && TextLessAt(a[1..], b[1..], i);
      assert a[..i + 1] == [a[0]] + a[1..][..i] && b[..i + 1] == [b[0]] + b[1..][..i];
      assert TextLessAt(a, b, i + 1);
    }
    if TextLess(a, b) {
      var i :| 0 <= i < |b| && TextLessAt(a, b, i);
      if i > 0 {
        assert a[0] == a[..i][0] && b[0] == b[..i][0];
        assert a[1..][..i - 1] == a[..i][1..] && b[1..][..i - 1] == b[..i][1..];
        assert TextLessAt(a[1..], b[1..], i - 1);
      }
    }
  }

  lemma {:induction false} TextLessIff(a: string, b: string)
    ensures CompareText(a, b) < 0 <==> TextLess(a, b)
  {
    if a != "" && b != "" {
      TextLessCons(a, b);
      TextLessIff(a[1..], b[1..]);
    } else if b != "" {
      assert TextLessAt(a, b, 0);
    }
  }

  lemma IdentifierLessIff(a: Identifier, b: Identifier)
    ensures CompareIdentifier(a, b) < 0 <==> IdentifierLess(a, b)
  {
    if a.Alphanumeric? && b.Alphanumeric? {
      TextLessIff(a.s, b.s);
    }
  }

  lemma PreLessCons(a: seq<Identifier>, b: seq<Identifier>)
    requires a != [] && b != []
    ensures PreLess(a, b) <==> IdentifierLess(a[0], b[0]) || (a[0] == b[0] && PreLess(a[1..], b[1..]))
  {
    if IdentifierLess(a[0], b[0]) {
      assert PreLessAt(a, b, 0);
    }
    if a[0] == b[0] && PreLess(a[1..], b[1..]) {
      var i :| 0 <= i < |b[1..]| && PreLessAt(a[1..], b[1..], i);
      assert a[..i + 1] == [a[0]] + a[1..][..i] && b[..i + 1] == [b[0]] + b[1..][..i];
      assert PreLessAt(a, b, i + 1);
    }
    if PreLess(a, b) {
      var i :| 0 <= i < |b| && PreLessAt(a, b, i);
      if i > 0 {
        assert a[0] == a[..i][0] && b[0] == b[..i][0];
        assert a[1..][..i - 1] == a[..i][1..] && b[1..][..i - 1] == b[..i][1..];
        assert PreLessAt(a[1..], b[1..], i - 1);
      }
    }
  }

  lemma {:induction false} PreLessIff(a: seq<Identifier>, b: seq<Identifier>)
    ensures ComparePre(a, b) < 0 <==> PreLess(a, b)
  {
    if a != [] && b != [] {
      PreLessCons(a, b);
      PreLessIff(a[1..], b[1..]);
      IdentifierLessIff(a[0], b[0]);
      IdentifierIsOrdered(a[0], b[0]);
    } else if b != [] {
      assert PreLessAt(a, b, 0);
    }
  }

  /** The comparison is the precedence of section 11 of Semantic Versioning 2.0.0. */
  lemma PrecedenceIff(a: Version, b: Version)
    ensures Compare(a, b) < 0 <==> Less(a, b)
    ensures Compare(a, b) > 0 <==> Less(b, a)
  {
    PreLessIff(a.pre, b.pre);
    PreLessIff(b.pre, a.pre);
    PreIsOrdered(a.pre, b.pre);
  }

  /** Version.Compare, with its loop over the prerelease identifiers. */
  method CompareVersions(a: Version, b: Version) returns (r: int)
    ensures -1 <= r <= 1 && (r < 0 <==> Less(a, b)) && (r > 0 <==> Less(b, a)) && (r == 0 <==> a == b)
  {
    PrecedenceIff(a, b);
    CompareIsOrdered(a, b);
    if a.major != b.major {
      return if a.major > b.major then 1 else -1;
    }
    if a.minor != b.minor {
      return if a.minor > b.minor then 1 else -1;
    }
    if a.patch != b.patch {
      return if a.patch > b.patch then 1 else -1;
    }
    if |a.pre| == 0 && |b.pre| == 0 {
      return 0;
    } else if |a.pre| == 0 && |b.pre| > 0 {
      return 1;
    } else if |a.pre| > 0 && |b.pre| == 0 {
      return -1;
    }
    var i := 0;
    assert a.pre[0..] == a.pre && b.pre[0..] == b.pre;
    while i < |a.pre| && i < |b.pre|
      invariant 0 <= i <= |a.pre| && i <= |b.pre|
      invariant ComparePre(a.pre[i..], b.pre[i..]) == ComparePre(a.pre, b.pre)
    {
      assert a.pre[i..][1..] == a.pre[i + 1..] && b.pre[i..][1..] == b.pre[i + 1..];
      var comp := CompareIdentifier(a.pre[i], b.pre[i]);
      if comp != 0 {
        return if comp > 0 then 1 else -1;
      }
      i := i + 1;
    }
    return if i == |a.pre| && i == |b.pre| then 0 else if i == |a.pre| then -1 else 1;
  }

  /** The chain of examples that the specification gives, from 1.0.0-alpha up to 1.0.0. */
  lemma SpecificationChain()
    ensures var alpha, beta := Alphanumeric("alpha"), Alphanumeric("beta");
            var chain := [[alpha], [alpha, Numeric(1)], [alpha, beta], [beta], [beta, Numeric(2)], [beta, Numeric(11)],
                          [Alphanumeric("rc"), Numeric(1)], []];
            forall i :: 0 <= i < |chain| - 1 ==>
              Compare(Version(1, 0, 0, chain[i]), Version(1, 0, 0, chain[i + 1])) < 0
  {
    var alpha, beta, rc := Alphanumeric("alpha"), Alphanumeric("beta"), Alphanumeric("rc");
    TextIsOrdered("alpha", "alpha");
    TextIsOrdered("beta", "beta");
    assert CompareText("alpha", "beta") < 0 && CompareText("beta", "rc") < 0;
    assert ComparePre([alpha], [alpha, Numeric(1)]) < 0;
    assert ComparePre([alpha, Numeric(1)], [alpha, beta]) < 0;
    assert ComparePre([alpha, beta], [beta]) < 0;
    assert ComparePre([beta], [beta, Numeric(2)]) < 0;
    assert ComparePre([beta, Numeric(2)], [beta, Numeric(11)]) < 0;
    assert ComparePre([beta, Numeric(11)], [rc, Numeric(1)]) < 0;
  }
}
