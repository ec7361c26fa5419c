/**
 * What a command line printed by pkg/systemd/escaping.go means to systemd: specifiers are resolved as in
 * "Specifiers" of systemd.unit(5), variables are substituted and commands separated as in "Command lines" of
 * systemd.service(5). Bytes that none of these rules speaks of stand for themselves.
 */
module SystemdMeaning {
  import opened Prelude
  import opened Systemd

  const PERCENT: Byte := 0x25
  const DOLLAR: Byte := 0x24
  const OPEN_BRACE: Byte := 0x7b
  const CLOSE_BRACE: Byte := 0x7d
  const UNDERSCORE: Byte := 0x5f

  /** The specifiers that are defined, by the byte that follows the percent sign. */
  type Specifiers = map<Byte, Bytes>

  type Environment = map<Bytes, Bytes>

  // ----- The rules

  /** Two percent signs stand for one; a percent sign with the byte of a specifier stands for its value. */
  function Specify(table: Specifiers, w: Bytes): Bytes {
    if |w| < 2 then w
    else if w[0] == PERCENT && w[1] == PERCENT then [PERCENT] + Specify(table, w[2..])
    else if w[0] == PERCENT && w[1] in table then table[w[1]] + Specify(table, w[2..])
    else [w[0]] + Specify(table, w[1..])
  }

  predicate IsNameByte(c: Byte) { IsAlphanumeric(c) || c == UNDERSCORE }

  function NameRun(s: Bytes): (n: nat)
    ensures n <= |s|
  {
    if s != [] && IsNameByte(s[0]) then 1 + NameRun(s[1..]) else 0
  }

  /** The word begins with two dollar signs, or with a name in braces after a dollar sign. */
  predicate StartsVariable(w: Bytes) {
    |w| > 1 && w[0] == DOLLAR && (w[1] == DOLLAR || StartsBraced(w[1..]))
  }

  predicate StartsBraced(s: Bytes) {
    s != [] && s[0] == OPEN_BRACE && NameRun(s[1..]) > 0
    && 1 + NameRun(s[1..]) < |s| && s[1 + NameRun(s[1..])] == CLOSE_BRACE
  }

  /** A variable that is not set is empty. */
  function ValueOf(env: Environment, name: Bytes): Bytes {
    if name in env then env[name] else []
  }

  /** Within a word: two dollar signs stand for one, and a name in braces for the value of the variable. */
  function Substitute(env: Environment, w: Bytes): Bytes
    decreases |w|
  {
    if w == [] then []
    else if !StartsVariable(w) then [w[0]] + Substitute(env, w[1..])
    else if w[1] == DOLLAR then [DOLLAR] + Substitute(env, w[2..])
    else
      var n := NameRun(w[2..]);
      ValueOf(env, w[2..2 + n]) + Substitute(env, w[3 + n..])
  }

  /** A word that is a dollar sign and a name. */
  predicate IsVariable(w: Bytes) {
    |w| > 1 && w[0] == DOLLAR && NameRun(w[1..]) == |w| - 1
  }

  function BareRun(s: Bytes): (n: nat)
    ensures n <= |s|
    ensures s != [] && !IsBlank(s[0]) ==> n > 0
  {
    if s != [] && !IsBlank(s[0]) then 1 + BareRun(s[1..]) else 0
  }

  /** A value split at blanks. */
  function Fields(s: Bytes): seq<Bytes>
    decreases |s|
  {
    if s == [] then []
    else if IsBlank(s[0]) then Fields(s[1..])
    else [s[..BareRun(s)]] + Fields(s[BareRun(s)..])
  }

  /** The arguments that one item stands for: a variable on its own may stand for any number of them. */
  function Expand(env: Environment, table: Specifiers, item: Bytes): seq<Bytes> {
    var w := Specify(table, item);
    if IsVariable(w) then Fields(ValueOf(env, w[1..])) else [Substitute(env, w)]
  }

  /** The commands of a line, each an argument vector. */
  function Commands(env: Environment, table: Specifiers, words: seq<Word>): (r: seq<seq<Bytes>>)
    ensures |r| >= 1
  {
    if words == [] then [[]]
    else
      var rest := Commands(env, table, words[1..]);
      match words[0]
      case Separator => [[]] + rest
      case Item(text) => [Expand(env, table, text) + rest[0]] + rest[1..]
  }

  function Meaning(env: Environment, table: Specifiers, line: Bytes): Option<seq<seq<Bytes>>> {
    var words := Read(line);
    if words.None? then None else Some(Commands(env, table, words.value))
  }

  // ----- Arguments that stand for themselves

  /** A percent sign is followed by something. */
  predicate HasSpecifier(w: Bytes) { |w| > 1 && (w[0] == PERCENT || HasSpecifier(w[1..])) }

  predicate HasVariable(w: Bytes) { w != [] && (StartsVariable(w) || HasVariable(w[1..])) }

  predicate Inert(w: Bytes) {
    w != [] && w != [SEMICOLON] && !HasSpecifier(w) && !HasVariable(w) && !IsVariable(w)
  }

  predicate AllInert(argv: seq<Bytes>) { forall i :: 0 <= i < |argv| ==> Inert(argv[i]) }

  lemma {:induction false} SpecifyInert(table: Specifiers, w: Bytes)
    requires !HasSpecifier(w)
    ensures Specify(table, w) == w
  {
    if |w| > 1 {
      SpecifyInert(table, w[1..]);
      assert [w[0]] + w[1..] == w;
    }
  }

  lemma {:induction false} SubstituteInert(env: Environment, w: Bytes)
    requires !HasVariable(w)
    ensures Substitute(env, w) == w
  {
    if w != [] {
      SubstituteInert(env, w[1..]);
      assert [w[0]] + w[1..] == w;
    }
  }

  lemma AllInertCons(argv: seq<Bytes>)
    requires argv != []
    ensures AllInert(argv) <==> Inert(argv[0]) && AllInert(argv[1..])
  {
    assert forall i :: 0 < i < |argv| ==> argv[i] == argv[1..][i - 1];
  }

  lemma {:induction false} InertMeansItself(env: Environment, table: Specifiers, argv: seq<Bytes>)
    requires AllInert(argv)
    ensures Commands(env, table, Words(argv)) == [argv]
  {
    if argv != [] {
      AllInertCons(argv);
      var a := argv[0];
      InertMeansItself(env, table, argv[1..]);
      SpecifyInert(table, a);
      SubstituteInert(env, a);
      assert Words(argv) == [Item(a)] + Words(argv[1..]);
      assert Words(argv)[1..] == Words(argv[1..]);
      assert [a] + argv[1..] == argv;
    }
  }

  // ----- Others do not: where nothing is set and every specifier is empty, they lose weight

  const NOTHING_SET: Environment := map[]
  const ALL_EMPTY: Specifiers := map c: Byte | 0 <= c :: []

  lemma {:induction false} SpecifyShrinks(w: Bytes)
    ensures |Specify(ALL_EMPTY, w)| <= |w|
    ensures HasSpecifier(w) ==> |Specify(ALL_EMPTY, w)| < |w|
  {
    if |w| > 1 {
      SpecifyShrinks(w[1..]);
      SpecifyShrinks(w[2..]);
    }
  }

  lemma {:induction false} SubstituteShrinks(w: Bytes)
    ensures |Substitute(NOTHING_SET, w)| <= |w|
    ensures HasVariable(w) ==> |Substitute(NOTHING_SET, w)| < |w|
    decreases |w|
  {
    if w != [] {
      if !StartsVariable(w) {
        SubstituteShrinks(w[1..]);
      } else if w[1] == DOLLAR {
        SubstituteShrinks(w[2..]);
      } else {
        var n := NameRun(w[2..]);
        assert w[1..][1..] == w[2..];
        SubstituteShrinks(w[3 + n..]);
      }
    }
  }

  /** The arguments and their bytes. */
  function Weight(argv: seq<Bytes>): nat {
    if argv == [] then 0 else |argv[0]| + 1 + Weight(argv[1..])
  }

  lemma {:induction false} WeightAppend(a: seq<Bytes>, b: seq<Bytes>)
    ensures Weight(a + b) == Weight(a) + Weight(b)
  {
    if a == [] {
      assert a + b == b;
    } else {
      assert (a + b)[1..] == a[1..] + b;
      WeightAppend(a[1..], b);
    }
  }

  lemma ExpandShrinks(w: Bytes)
    requires w != []
    ensures Weight(Expand(NOTHING_SET, ALL_EMPTY, w)) <= |w| + 1
    ensures w != [SEMICOLON] && !Inert(w) ==> Weight(Expand(NOTHING_SET, ALL_EMPTY, w)) < |w| + 1
  {
    var p := Specify(ALL_EMPTY, w);
    SpecifyShrinks(w);
    if !HasSpecifier(w) {
      SpecifyInert(ALL_EMPTY, w);
    }
    if !IsVariable(p) {
      SubstituteShrinks(p);
      assert Expand(NOTHING_SET, ALL_EMPTY, w)[1..] == [];
    }
  }

  /** With a separator among the words, the line has a second command. */
  lemma {:induction false} SeparatorSplits(env: Environment, table: Specifiers, words: seq<Word>)
    ensures Separator in words <==> |Commands(env, table, words)| > 1
  {
    if words != [] {
      SeparatorSplits(env, table, words[1..]);
      assert words == [words[0]] + words[1..];
    }
  }

  lemma {:induction false} CommandShrinks(argv: seq<Bytes>)
    requires Separator !in Words(argv)
    ensures var r := Commands(NOTHING_SET, ALL_EMPTY, Words(argv))[0];
            Weight(r) <= Weight(argv) && (!AllInert(argv) ==> Weight(r) < Weight(argv))
  {
    if argv != [] {
      var a, rest := argv[0], argv[1..];
      AllInertCons(argv);
      if a == [] {
        assert Words(argv) == Words(rest);
        CommandShrinks(rest);
      } else {
        assert Words(argv) == [WordOf(a)] + Words(rest);
        assert Words(argv)[0] != Separator && Words(argv)[1..] == Words(rest);
        CommandShrinks(rest);
        ExpandShrinks(a);
        WeightAppend(Expand(NOTHING_SET, ALL_EMPTY, a), Commands(NOTHING_SET, ALL_EMPTY, Words(rest))[0]);
      }
    }
  }

  /**
   * Whatever the variables and specifiers are, the command line means its argument vector, exactly when every argument
   * is inert: not empty, not a lone semicolon, no percent sign but at its end, and no variable.
   */
  lemma MeansItsArgumentsIff(argv: seq<Bytes>)
    ensures (forall env, table :: Meaning(env, table, CommandLine(argv)) == Some([argv])) <==> AllInert(argv)
  {
    CommandReadsBack(argv);
    if AllInert(argv) {
      forall env, table ensures Meaning(env, table, CommandLine(argv)) == Some([argv]) {
        InertMeansItself(env, table, argv);
      }
    } else {
      SeparatorSplits(NOTHING_SET, ALL_EMPTY, Words(argv));
      if Separator !in Words(argv) {
        CommandShrinks(argv);
      }
      assert Meaning(NOTHING_SET, ALL_EMPTY, CommandLine(argv)) != Some([argv]);
    }
  }

  /** The vector a and an empty argument: the empty one is lost. */
  lemma EmptyArgumentIsLost(env: Environment, table: Specifiers)
    ensures Meaning(env, table, CommandLine([[0x61], []])) == Some([[[0x61]]])
  {
    var argv: seq<Bytes> := [[0x61], []];
    CommandReadsBack(argv);
    assert argv[1..] == [[]] && argv[1..][1..] == [];
    assert Words(argv[1..]) == [];
    assert Words(argv) == Words([[0x61]]) == [Item([0x61])];
    assert [[0x61 as Byte]][1..] == [];
    InertMeansItself(env, table, [[0x61]]);
  }

  /** The vector $$: systemd hands over a single dollar sign. */
  lemma DollarsAreHalved(env: Environment, table: Specifiers)
    ensures Meaning(env, table, CommandLine([[DOLLAR, DOLLAR]])) == Some([[[DOLLAR]]])
  {
    var w: Bytes := [DOLLAR, DOLLAR];
    var argv: seq<Bytes> := [w];
    CommandReadsBack(argv);
    assert argv[1..] == [] && w[1..] == [DOLLAR] && w[2..] == [];
    assert Words(argv) == [Item(w)];
    SpecifyInert(table, w);
    assert !IsVariable(w);
    assert Substitute(env, w) == [DOLLAR];
    var words: seq<Word> := [Item(w)];
    assert words[1..] == [];
    assert Commands(env, table, words[1..]) == [[]];
    assert Expand(env, table, w) == [[DOLLAR]];
    assert Expand(env, table, w) + [] == [[DOLLAR]];
    assert Commands(env, table, words) == [[[DOLLAR]]];
  }
}
