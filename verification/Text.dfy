/** The functions of Go's strings and strconv packages that the modelled code uses. */
module Text {
  import opened Prelude

  // ----- strings.Split with a separator of one character

  function Split(s: string, sep: char): (r: seq<string>)
    ensures |r| >= 1
  {
    if s == "" then [""]
    else if s[0] == sep then [""] + Split(s[1..], sep)
    else
      var r := Split(s[1..], sep);
      [[s[0]] + r[0]] + r[1..]
  }

  /** The parts of two texts put together: the last part of one runs into the first part of the other. */
  function Glue(a: seq<string>, b: seq<string>): (r: seq<string>)
    requires a != [] && b != []
    ensures r != []
  {
    a[..|a| - 1] + [a[|a| - 1] + b[0]] + b[1..]
  }

  lemma GlueParts(a: seq<string>, b: seq<string>)
    requires a != [] && b != []
    ensures var g, front, joint := Glue(a, b), a[..|a| - 1], a[|a| - 1] + b[0];
            && (|b| == 1 ==> g[..|g| - 1] == front && g[|g| - 1] == joint)
            && (|b| > 1 ==> g[..|g| - 1] == front + ([joint] + b[1..|b| - 1]) && g[|g| - 1] == b[|b| - 1])
  {
  }

  lemma GlueSeparator(a: seq<string>, b: seq<string>)
    requires a != [] && b != []
    ensures Glue([""] + a, b) == [""] + Glue(a, b)
  {
    assert ([""] + a)[..|a|] == [""] + a[..|a| - 1];
  }

  lemma GlueChar(c: char, a: seq<string>, b: seq<string>)
    requires a != [] && b != []
    ensures Glue([[c] + a[0]] + a[1..], b) == [[c] + Glue(a, b)[0]] + Glue(a, b)[1..]
  {
    var x := [[c] + a[0]] + a[1..];
    if |a| == 1 {
      assert x == [[c] + a[0]];
      assert Glue(a, b) == [a[0] + b[0]] + b[1..];
      assert [c] + a[0] + b[0] == [c] + (a[0] + b[0]);
    } else {
      assert x[..|x| - 1] == [[c] + a[0]] + a[1..|a| - 1];
      assert Glue(a, b)[0] == a[0];
      assert Glue(a, b)[1..] == a[1..|a| - 1] + [a[|a| - 1] + b[0]] + b[1..];
    }
  }

  lemma {:induction false} SplitAppend(a: string, b: string, sep: char)
    ensures Split(a + b, sep) == Glue(Split(a, sep), Split(b, sep))
  {
    if a == "" {
      assert a + b == b;
      assert "" + Split(b, sep)[0] == Split(b, sep)[0];
    } else {
      assert (a + b)[1..] == a[1..] + b;
      SplitAppend(a[1..], b, sep);
      if a[0] == sep {
        GlueSeparator(Split(a[1..], sep), Split(b, sep));
      } else {
        GlueChar(a[0], Split(a[1..], sep), Split(b, sep));
      }
    }
  }

  lemma {:induction false} SplitIsInjective(a: string, b: string, sep: char)
    requires Split(a, sep) == Split(b, sep)
    ensures a == b
  {
    if a != "" && b != "" {
      var p, q := Split(a[1..], sep), Split(b[1..], sep);
      if a[0] == sep && b[0] == sep {
        assert p == Split(a, sep)[1..] && q == Split(b, sep)[1..];
      } else if a[0] != sep && b[0] != sep {
        assert Split(a, sep)[0][1..] == p[0] && Split(b, sep)[0][1..] == q[0];
        assert Split(a, sep)[1..] == p[1..] && Split(b, sep)[1..] == q[1..];
        assert p == [p[0]] + p[1..] && q == [q[0]] + q[1..];
        assert Split(a, sep)[0][0] == a[0] && Split(b, sep)[0][0] == b[0];
      }
      SplitIsInjective(a[1..], b[1..], sep);
      assert a == [a[0]] + a[1..] && b == [b[0]] + b[1..];
    }
  }

  /** No part holds the separator. */
  lemma {:induction false} PartsAreFree(s: string, sep: char)
    ensures forall i :: 0 <= i < |Split(s, sep)| ==> sep !in Split(s, sep)[i]
  {
    if s != "" {
      PartsAreFree(s[1..], sep);
      var r := Split(s[1..], sep);
      assert sep !in r[0];
    }
  }

  /** Text without the separator is a single part. */
  lemma {:induction false} SplitFree(s: string, sep: char)
    requires sep !in s
    ensures Split(s, sep) == [s]
  {
    if s != "" {
      assert s[0] != sep;
      SplitFree(s[1..], sep);
      assert [s[0]] + s[1..] == s;
    }
  }

  /** A part that is ended by the separator stands alone. */
  lemma SplitPart(part: string, rest: string, sep: char)
    requires sep !in part
    ensures Split(part + [sep] + rest, sep) == [part] + Split(rest, sep)
  {
    SplitFree(part, sep);
    Assoc(part, [sep], rest);
    assert ([sep] + rest)[1..] == rest;
    SplitAppend(part, [sep] + rest, sep);
    assert part + "" == part;
  }

  // ----- strings.TrimPrefix and strings.TrimSpace

  function TrimPrefix(s: string, prefix: string): string {
    if prefix <= s then s[|prefix|..] else s
  }

  /** unicode.IsSpace */
  predicate IsSpace(c: char) {
    var n := c as int;
    0x9 <= n <= 0xd || n == 0x20 || n == 0x85 || n == 0xa0 || n == 0x1680 || 0x2000 <= n <= 0x200a
    || n == 0x2028 || n == 0x2029 || n == 0x202f || n == 0x205f || n == 0x3000
  }

  function TrimLeft(s: string): string {
    if s != "" && IsSpace(s[0]) then TrimLeft(s[1..]) else s
  }

  function TrimRight(s: string): string {
    if s != "" && IsSpace(s[|s| - 1]) then TrimRight(s[..|s| - 1]) else s
  }

  function TrimSpace(s: string): string { TrimRight(TrimLeft(s)) }

  predicate AllSpace(s: string) { forall i :: 0 <= i < |s| ==> IsSpace(s[i]) }

  /** Nothing to trim at either end. */
  predicate Tight(s: string) { s == "" || (!IsSpace(s[0]) && !IsSpace(s[|s| - 1])) }

  lemma {:induction false} TrimLeftShape(s: string)
    ensures |TrimLeft(s)| <= |s| && TrimLeft(s) == s[|s| - |TrimLeft(s)|..]
    ensures AllSpace(s[..|s| - |TrimLeft(s)|])
    ensures TrimLeft(s) == "" || !IsSpace(TrimLeft(s)[0])
  {
    if s != "" && IsSpace(s[0]) {
      TrimLeftShape(s[1..]);
      var n := |s| - |TrimLeft(s)|;
      assert s[..n] == [s[0]] + s[1..][..n - 1];
    }
  }

  lemma {:induction false} TrimRightShape(s: string)
    ensures |TrimRight(s)| <= |s| && TrimRight(s) == s[..|TrimRight(s)|]
    ensures AllSpace(s[|TrimRight(s)|..])
    ensures TrimRight(s) == "" || !IsSpace(TrimRight(s)[|TrimRight(s)| - 1])
  {
    if s != "" && IsSpace(s[|s| - 1]) {
      TrimRightShape(s[..|s| - 1]);
      var n := |TrimRight(s)|;
      assert s[n..] == s[..|s| - 1][n..] + [s[|s| - 1]];
    }
  }

  /** The trimmed text is what stands between two runs of spaces, and it is tight. */
  lemma TrimSpaceShape(s: string) returns (before: string, after: string)
    ensures s == before + TrimSpace(s) + after && AllSpace(before) && AllSpace(after)
    ensures Tight(TrimSpace(s))
  {
    TrimLeftShape(s);
    var t := TrimLeft(s);
    TrimRightShape(t);
    before, after := s[..|s| - |t|], t[|TrimRight(t)|..];
  }

  lemma TrimTight(s: string)
    requires Tight(s)
    ensures TrimSpace(s) == s
  {
  }

  // ----- strconv.Itoa, for natural numbers

  function Itoa(n: nat): string {
    if n < 10 then ["0123456789"[n]] else Itoa(n / 10) + ["0123456789"[n % 10]]
  }

  predicate AllDigits(s: string) { forall i :: 0 <= i < |s| ==> '0' <= s[i] <= '9' }

  function Atoi(s: string): nat
    requires AllDigits(s)
  {
    if s == "" then 0 else Atoi(s[..|s| - 1]) * 10 + (s[|s| - 1] - '0') as nat
  }

  lemma {:induction false} ItoaReadsBack(n: nat)
    ensures Itoa(n) != "" && AllDigits(Itoa(n)) && Atoi(Itoa(n)) == n
  {
    if n >= 10 {
      ItoaReadsBack(n / 10);
      var s := Itoa(n);
      assert s[..|s| - 1] == Itoa(n / 10);
    } else {
      assert Itoa(n)[..0] == "";
    }
  }

  lemma ItoaIsInjective(m: nat, n: nat)
    requires Itoa(m) == Itoa(n)
    ensures m == n
  {
    ItoaReadsBack(m);
    ItoaReadsBack(n);
  }
}
