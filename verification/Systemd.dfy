/**
 * pkg/systemd/escaping.go: printing an argument vector as a systemd command line, and a reader for the quoting and
 * escaping rules of systemd.syntax(7). What the line then means, with the specifiers of systemd.unit(5) and the
 * variables and semicolons of "Command lines" in systemd.service(5), is in SystemdMeaning.
 */
module Systemd {
  import opened Prelude

  newtype Byte = x: int | 0 <= x < 256

  type Bytes = seq<Byte>

  const SPACE: Byte := 0x20
  const QUOTATION_MARK: Byte := 0x22
  const APOSTROPHE: Byte := 0x27
  const LOWER_X: Byte := 0x78
  const BACKSLASH: Byte := 0x5c
  const SEMICOLON: Byte := 0x3b

  predicate IsAlphanumeric(c: Byte) { 0x61 <= c <= 0x7a || 0x41 <= c <= 0x5a || 0x30 <= c <= 0x39 }

  /** The listed punctuation: ! # $ % & ( ) * + , - . / : ; < = > ? @ [ ] ^ _ ` { | } ~ */
  predicate IsSafe(c: Byte) {
    c == 0x21 || 0x23 <= c <= 0x26 || 0x28 <= c <= 0x2f || 0x3a <= c <= 0x40 || c == 0x5b || 0x5d <= c <= 0x60
    || 0x7b <= c <= 0x7e
  }

  // ----- The printer

  function HexDigit(n: Byte): Byte
    requires n < 16
  {
    if n < 10 then 0x30 + n else 0x61 + (n - 10)
  }

  /** A backslash, an x and two hexadecimal digits. */
  function HexEscape(c: Byte): Bytes {
    [BACKSLASH, LOWER_X, HexDigit(c / 16), HexDigit(c % 16)]
  }

  function EscapeByte(c: Byte): Bytes {
    if IsAlphanumeric(c) || IsSafe(c) || c == SPACE then [c]
    else if c == QUOTATION_MARK || c == APOSTROPHE || c == BACKSLASH then [BACKSLASH, c]
    else HexEscape(c)
  }

  function EscapeBytes(s: Bytes): Bytes {
    if s == [] then [] else EscapeByte(s[0]) + EscapeBytes(s[1..])
  }

  function Escaped(s: Bytes): Bytes {
    if SPACE in s then [QUOTATION_MARK] + EscapeBytes(s) + [QUOTATION_MARK] else EscapeBytes(s)
  }

  function CommandLine(argv: seq<Bytes>): Bytes {
    Join(seq(|argv|, i requires 0 <= i < |argv| => Escaped(argv[i])), [SPACE])
  }

  /** The body of escapeArg's loop. */
  method WriteByte(b: Bytes, c: Byte) returns (r: Bytes, needQuotes: bool)
    ensures r == b + EscapeByte(c)
    ensures needQuotes <==> c == SPACE
  {
    needQuotes := false;
    if IsAlphanumeric(c) {
      return b + [c], false;
    }
    if IsSafe(c) {
      r := b + [c];
    } else if c == SPACE {
      needQuotes := true;
      r := b + [c];
    } else if c == QUOTATION_MARK {
      r := b + [BACKSLASH, QUOTATION_MARK];
    } else if c == APOSTROPHE {
      r := b + [BACKSLASH, APOSTROPHE];
    } else if c == BACKSLASH {
      r := b + [BACKSLASH, BACKSLASH];
    } else {
      r := b + HexEscape(c);
    }
  }

  lemma EscapeNext(s: Bytes, i: nat, b: Bytes)
    requires i < |s|
    ensures b + EscapeBytes(s[i..]) == b + EscapeByte(s[i]) + EscapeBytes(s[i + 1..])
  {
    assert s[i..][1..] == s[i + 1..];
    Assoc(b, EscapeByte(s[i]), EscapeBytes(s[i + 1..]));
  }

  lemma SpaceNext(s: Bytes, i: nat)
    requires i < |s|
    ensures SPACE in s[..i + 1] <==> SPACE in s[..i] || s[i] == SPACE
  {
    assert s[..i + 1] == s[..i] + [s[i]];
  }

  method EscapeArg(s: Bytes) returns (r: Bytes)
    ensures r == Escaped(s)
  {
    var b := [];
    var needQuotes := false;
    for i := 0 to |s|
      invariant b + EscapeBytes(s[i..]) == EscapeBytes(s)
      invariant needQuotes <==> SPACE in s[..i]
    {
      EscapeNext(s, i, b);
      SpaceNext(s, i);
      var quote;
      b, quote := WriteByte(b, s[i]);
      needQuotes := needQuotes || quote;
    }
    assert b + [] == b;
    assert s[..|s|] == s;
    if needQuotes {
      return [QUOTATION_MARK] + b + [QUOTATION_MARK];
    }
    return b;
  }

  /** Letters, digits and the 29 punctuation marks of the source's list. */
  predicate PrintsAsItself(c: Byte) {
    || 0x30 <= c <= 0x39 || 0x41 <= c <= 0x5a || 0x61 <= c <= 0x7a
    || c in {0x21, 0x23, 0x24, 0x25, 0x26, 0x28, 0x29, 0x2a, 0x2b, 0x2c, 0x2d, 0x2e, 0x2f, 0x3a, 0x3b,
             0x3c, 0x3e, 0x3d, 0x3f, 0x40, 0x5b, 0x5d, 0x5e, 0x5f, 0x60, 0x7b, 0x7c, 0x7d, 0x7e}
  }

  lemma {:induction false} EscapeBytesAsIs(s: Bytes)
    ensures |EscapeBytes(s)| >= |s|
    ensures |EscapeBytes(s)| == |s| <==> forall i :: 0 <= i < |s| ==> PrintsAsItself(s[i]) || s[i] == SPACE
    ensures |EscapeBytes(s)| == |s| ==> EscapeBytes(s) == s
  {
    if s != [] {
      EscapeBytesAsIs(s[1..]);
      assert |EscapeByte(s[0])| == 1 <==> PrintsAsItself(s[0]) || s[0] == SPACE;
      assert s == [s[0]] + s[1..];
      assert forall i :: 0 < i < |s| ==> s[i] == s[1..][i - 1];
    }
  }

  /** An argument is printed as it is exactly when it has nothing but letters, digits and the listed punctuation. */
  lemma PrintedAsItIsIff(s: Bytes)
    ensures Escaped(s) == s <==> forall i :: 0 <= i < |s| ==> PrintsAsItself(s[i])
  {
    EscapeBytesAsIs(s);
    if SPACE in s {
      assert |Escaped(s)| > |s|;
    }
  }

  method EscapeCommand(argv: seq<Bytes>) returns (r: Bytes)
    ensures r == CommandLine(argv)
  {
    var escaped: seq<Bytes> := [];
    for i := 0 to |argv|
      invariant |escaped| == i && forall k :: 0 <= k < i ==> escaped[k] == Escaped(argv[k])
    {
      var e := EscapeArg(argv[i]);
      escaped := escaped + [e];
    }
    assert escaped == seq(|argv|, i requires 0 <= i < |argv| => Escaped(argv[i]));
    return Join(escaped, [SPACE]);
  }

  // ----- The reader

  predicate IsBlank(c: Byte) { c == SPACE || c == 0x9 || c == 0xa || c == 0xd }

  predicate IsQuote(c: Byte) { c == QUOTATION_MARK || c == APOSTROPHE }

  function DigitValue(c: Byte, base: Byte): (r: Option<Byte>)
    ensures r.Some? ==> r.value < base
  {
    var v := if 0x30 <= c <= 0x39 then c - 0x30
             else if 0x61 <= c <= 0x66 then c - 0x61 + 10
             else if 0x41 <= c <= 0x46 then c - 0x41 + 10
             else 255;
    if v < base then Some(v) else None
  }

  /** Escapes of one letter: the control characters, backslash, both quotes, and s for a space. */
  function LetterEscape(c: Byte): Option<Byte> {
    if c == BACKSLASH || IsQuote(c) then Some(c)
    else if c == 0x61 then Some(0x7)
    else if c == 0x62 then Some(0x8)
    else if c == 0x66 then Some(0xc)
    else if c == 0x6e then Some(0xa)
    else if c == 0x72 then Some(0xd)
    else if c == 0x74 then Some(0x9)
    else if c == 0x76 then Some(0xb)
    else if c == 0x73 then Some(SPACE)
    else None
  }

  /** What follows a backslash: the byte it stands for and the number of bytes it takes. */
  function Unescape(s: Bytes): (r: Option<(Byte, nat)>)
    ensures r.Some? ==> 1 <= r.value.1 <= |s|
  {
    if s == [] then None
    else if LetterEscape(s[0]).Some? then Some((LetterEscape(s[0]).value, 1))
    else if |s| < 3 then None
    else if s[0] == LOWER_X then
      var h, l := DigitValue(s[1], 16), DigitValue(s[2], 16);
      if h.None? || l.None? then None else Some((h.value * 16 + l.value, 3))
    else
      var a, b, c := DigitValue(s[0], 4), DigitValue(s[1], 8), DigitValue(s[2], 8);
      if a.None? || b.None? || c.None? then None else Some((a.value * 64 + b.value * 8 + c.value, 3))
  }

  /** The content of one item, and what follows it. A quoted item ends at its quote, a bare one before a blank. */
  function ReadItem(s: Bytes, quote: Option<Byte>): (r: Option<(Bytes, Bytes)>)
    ensures r.Some? ==> |r.value.1| <= |s|
    decreases |s|
  {
    if s == [] then if quote.None? then Some(([], [])) else None
    else if quote == Some(s[0]) then Some(([], s[1..]))
    else if quote.None? && IsBlank(s[0]) then Some(([], s))
    else if quote.None? && IsQuote(s[0]) then None
    else if s[0] == BACKSLASH then
      var e := Unescape(s[1..]);
      if e.None? then None
      else
        var r := ReadItem(s[1 + e.value.1..], quote);
        if r.None? then None else Some(([e.value.0] + r.value.0, r.value.1))
    else
      var r := ReadItem(s[1..], quote);
      if r.None? then None else Some(([s[0]] + r.value.0, r.value.1))
  }

  /** One word of a command line: an item, or a semicolon that separates commands. */
  datatype Word = Item(text: Bytes) | Separator

  predicate Ends(s: Bytes) { s == [] || IsBlank(s[0]) }

  /**
   * A command line: words separated by blanks; a closing quote must be followed by a blank or the end. A semicolon
   * that stands alone is a separator unless it is escaped.
   */
  function Read(s: Bytes): Option<seq<Word>>
    decreases |s|
  {
    if s == [] then Some([])
    else if IsBlank(s[0]) then Read(s[1..])
    else if s[0] == SEMICOLON && Ends(s[1..]) then Cons(Separator, Read(s[1..]))
    else if |s| > 1 && s[0] == BACKSLASH && s[1] == SEMICOLON && Ends(s[2..]) then Cons(Item([SEMICOLON]), Read(s[2..]))
    else if IsQuote(s[0]) then
      var r := ReadItem(s[1..], Some(s[0]));
      if r.None? || !Ends(r.value.1) then None else Cons(Item(r.value.0), Read(r.value.1))
    else
      var r := ReadItem(s, None);
      if r.None? || |r.value.1| == |s| then None else Cons(Item(r.value.0), Read(r.value.1))
  }

  function Cons(a: Word, rest: Option<seq<Word>>): Option<seq<Word>> {
    if rest.None? then None else Some([a] + rest.value)
  }

  // ----- The round trip

  lemma HexReadsBack(c: Byte, rest: Bytes)
    ensures Unescape(HexEscape(c)[1..] + rest) == Some((c, 3))
  {
    var h, l := c / 16, c % 16;
    assert DigitValue(HexDigit(h), 16) == Some(h);
    assert DigitValue(HexDigit(l), 16) == Some(l);
  }

  /** A byte read in front of what is read after it. */
  function Before(c: Byte, r: Option<(Bytes, Bytes)>): Option<(Bytes, Bytes)> {
    if r.None? then None else Some(([c] + r.value.0, r.value.1))
  }

  lemma ReadPlainByte(c: Byte, rest: Bytes, quote: Option<Byte>)
    requires IsAlphanumeric(c) || IsSafe(c) || (c == SPACE && quote.Some?)
    requires quote.Some? ==> quote.value == QUOTATION_MARK
    ensures ReadItem([c] + rest, quote) == Before(c, ReadItem(rest, quote))
  {
    assert ([c] + rest)[1..] == rest;
  }

  lemma ReadEscape(c: Byte, esc: Bytes, rest: Bytes, quote: Option<Byte>)
    requires quote.Some? ==> quote.value == QUOTATION_MARK
    requires |esc| > 1 && esc[0] == BACKSLASH && Unescape(esc[1..] + rest) == Some((c, |esc| - 1))
    ensures ReadItem(esc + rest, quote) == Before(c, ReadItem(rest, quote))
  {
    assert (esc + rest)[1..] == esc[1..] + rest;
    assert (esc + rest)[|esc|..] == rest;
  }

  /** One printed byte reads back, quoted or not. */
  lemma ReadByte(c: Byte, rest: Bytes, quote: Option<Byte>)
    requires quote.Some? ==> quote.value == QUOTATION_MARK
    requires quote.None? ==> c != SPACE
    ensures ReadItem(EscapeByte(c) + rest, quote) == Before(c, ReadItem(rest, quote))
  {
    if IsAlphanumeric(c) || IsSafe(c) || c == SPACE {
      ReadPlainByte(c, rest, quote);
    } else if c == QUOTATION_MARK || c == APOSTROPHE || c == BACKSLASH {
      assert [BACKSLASH, c][1..] + rest == [c] + rest;
      ReadEscape(c, [BACKSLASH, c], rest, quote);
    } else {
      HexReadsBack(c, rest);
      ReadEscape(c, HexEscape(c), rest, quote);
    }
  }

  /** Bytes read in front of what is read after them. */
  function AllBefore(s: Bytes, r: Option<(Bytes, Bytes)>): Option<(Bytes, Bytes)> {
    if r.None? then None else Some((s + r.value.0, r.value.1))
  }

  lemma BeforeAll(s: Bytes, r: Option<(Bytes, Bytes)>)
    ensures s == [] ==> AllBefore(s, r) == r
    ensures s != [] ==> AllBefore(s, r) == Before(s[0], AllBefore(s[1..], r))
  {
    if r.Some? {
      if s == [] {
        assert s + r.value.0 == r.value.0;
      } else {
        assert s + r.value.0 == [s[0]] + (s[1..] + r.value.0);
      }
    }
  }

  lemma {:induction false} ReadBytes(s: Bytes, rest: Bytes, quote: Option<Byte>)
    requires quote.Some? ==> quote.value == QUOTATION_MARK
    requires quote.None? ==> SPACE !in s
    ensures ReadItem(EscapeBytes(s) + rest, quote) == AllBefore(s, ReadItem(rest, quote))
  {
    BeforeAll(s, ReadItem(rest, quote));
    if s == [] {
      assert EscapeBytes(s) + rest == rest;
    } else {
      ReadBytes(s[1..], rest, quote);
      Assoc(EscapeByte(s[0]), EscapeBytes(s[1..]), rest);
      ReadByte(s[0], EscapeBytes(s[1..]) + rest, quote);
    }
  }

  /** The word that a printed argument reads back as. */
  function WordOf(s: Bytes): Word {
    if s == [SEMICOLON] then Separator else Item(s)
  }

  lemma ReadQuotedArg(s: Bytes, rest: Bytes)
    requires Ends(rest)
    ensures Read([QUOTATION_MARK] + EscapeBytes(s) + [QUOTATION_MARK] + rest) == Cons(Item(s), Read(rest))
  {
    var text := [QUOTATION_MARK] + EscapeBytes(s) + [QUOTATION_MARK] + rest;
    var close := [QUOTATION_MARK] + rest;
    assert text[1..] == EscapeBytes(s) + close;
    assert close[1..] == rest && s + [] == s;
    ReadBytes(s, close, Some(QUOTATION_MARK));
    assert ReadItem(text[1..], Some(text[0])) == Some((s, rest));
  }

  lemma FirstByte(s: Bytes)
    requires s != [] && SPACE !in s
    ensures EscapeBytes(s) != [] && !IsBlank(EscapeBytes(s)[0]) && !IsQuote(EscapeBytes(s)[0])
  {
    assert s[0] != SPACE;
    assert EscapeBytes(s)[0] == EscapeByte(s[0])[0];
  }

  lemma FrontOf(first: Bytes, more: Bytes, rest: Bytes)
    requires first != []
    ensures var text := first + more + rest;
            && text[0] == first[0]
            && (|first| == 1 ==> text[1..] == more + rest)
            && (|first| > 1 ==> text[1] == first[1])
  {
  }

  /** A printed semicolon is followed by more of its argument, and a printed backslash never by a semicolon. */
  lemma NoLoneSemicolon(s: Bytes, rest: Bytes)
    requires s != [] && SPACE !in s && s != [SEMICOLON]
    ensures var text := EscapeBytes(s) + rest;
            && text != [] && (text[0] == SEMICOLON ==> !Ends(text[1..]))
            && (text[0] == BACKSLASH ==> |text| > 1 && text[1] != SEMICOLON)
  {
    FrontOf(EscapeByte(s[0]), EscapeBytes(s[1..]), rest);
    if s[0] == SEMICOLON {
      assert s == [SEMICOLON] + s[1..];
      FirstByte(s[1..]);
    }
  }

  lemma ReadBareItem(s: Bytes, rest: Bytes)
    requires s != [] && SPACE !in s && s != [SEMICOLON] && Ends(rest)
    ensures Read(EscapeBytes(s) + rest) == Cons(Item(s), Read(rest))
  {
    var text := EscapeBytes(s) + rest;
    assert s + [] == s;
    ReadBytes(s, rest, None);
    FirstByte(s);
    NoLoneSemicolon(s, rest);
    assert text[0] == EscapeBytes(s)[0];
    assert ReadItem(text, None) == Some((s, rest));
  }

  lemma ReadSemicolon(rest: Bytes)
    requires Ends(rest)
    ensures Read(EscapeBytes([SEMICOLON]) + rest) == Cons(Separator, Read(rest))
  {
    assert [SEMICOLON][1..] == [];
    assert EscapeBytes([SEMICOLON]) == [SEMICOLON];
    assert ([SEMICOLON] + rest)[1..] == rest;
  }

  /** A printed non-empty argument, followed by a blank or the end, reads back as that argument. */
  lemma ReadArg(s: Bytes, rest: Bytes)
    requires s != [] && Ends(rest)
    ensures Read(Escaped(s) + rest) == Cons(WordOf(s), Read(rest))
  {
    if SPACE in s {
      assert [SEMICOLON][0] != SPACE;
      ReadQuotedArg(s, rest);
    } else if s == [SEMICOLON] {
      ReadSemicolon(rest);
    } else {
      ReadBareItem(s, rest);
    }
  }

  /** The words of the non-empty arguments. */
  function Words(argv: seq<Bytes>): seq<Word> {
    if argv == [] then [] else (if argv[0] == [] then [] else [WordOf(argv[0])]) + Words(argv[1..])
  }

  lemma CommandLineCons(argv: seq<Bytes>)
    requires argv != []
    ensures CommandLine(argv) == Escaped(argv[0]) + if |argv| == 1 then [] else [SPACE] + CommandLine(argv[1..])
  {
    var parts := seq(|argv|, i requires 0 <= i < |argv| => Escaped(argv[i]));
    var tail := argv[1..];
    assert parts[1..] == seq(|tail|, i requires 0 <= i < |tail| => Escaped(tail[i]));
    if |argv| == 1 {
      assert parts[0] + [] == parts[0];
    } else {
      Assoc(parts[0], [SPACE], Join(parts[1..], [SPACE]));
    }
  }

  lemma ReadBlank(rest: Bytes)
    ensures Read([SPACE] + rest) == Read(rest)
  {
    assert ([SPACE] + rest)[1..] == rest;
  }

  /** For every argument vector: the printed command line reads back as the words of its non-empty arguments. */
  lemma {:induction false} CommandReadsBack(argv: seq<Bytes>)
    ensures Read(CommandLine(argv)) == Some(Words(argv))
  {
    if argv != [] {
      CommandReadsBack(argv[1..]);
      CommandLineCons(argv);
      var more := if |argv| == 1 then [] else [SPACE] + CommandLine(argv[1..]);
      if |argv| > 1 {
        ReadBlank(CommandLine(argv[1..]));
      } else {
        assert argv[1..] == [];
      }
      if argv[0] == [] {
        assert Escaped(argv[0]) + more == more;
        assert [] + Words(argv[1..]) == Words(argv[1..]);
      } else {
        ReadArg(argv[0], more);
      }
    }
  }

  /** One word per argument. */
  function WordForEach(argv: seq<Bytes>): seq<Word> {
    seq(|argv|, i requires 0 <= i < |argv| => WordOf(argv[i]))
  }

  lemma {:induction false} WordsAreAll(argv: seq<Bytes>)
    ensures |Words(argv)| <= |argv|
    ensures Words(argv) == WordForEach(argv) <==> [] !in argv
  {
    if argv != [] {
      WordsAreAll(argv[1..]);
      assert argv == [argv[0]] + argv[1..];
      assert WordForEach(argv) == [WordOf(argv[0])] + WordForEach(argv[1..]);
      assert WordForEach(argv)[1..] == WordForEach(argv[1..]);
      assert argv[0] != [] ==> Words(argv)[1..] == Words(argv[1..]);
      assert argv[0] == [] ==> |Words(argv)| < |argv|;
    }
  }

  /** The line reads back as one word per argument iff no argument is empty. */
  lemma RoundTripIffNoneEmpty(argv: seq<Bytes>)
    ensures Read(CommandLine(argv)) == Some(WordForEach(argv)) <==> [] !in argv
  {
    CommandReadsBack(argv);
    WordsAreAll(argv);
  }

  lemma {:induction false} WordsAreInjective(a: seq<Bytes>, b: seq<Bytes>)
    requires [] !in a && [] !in b && Words(a) == Words(b)
    ensures a == b
  {
    if a != [] && b != [] {
      assert a[0] in a && b[0] in b;
      assert Words(a)[0] == WordOf(a[0]) && Words(b)[0] == WordOf(b[0]);
      assert Words(a)[1..] == Words(a[1..]) && Words(b)[1..] == Words(b[1..]);
      WordsAreInjective(a[1..], b[1..]);
      assert a == [a[0]] + a[1..] && b == [b[0]] + b[1..];
    }
  }

  /** Different vectors of non-empty arguments print differently. */
  lemma EscapingIsInjective(a: seq<Bytes>, b: seq<Bytes>)
    requires [] !in a && [] !in b && CommandLine(a) == CommandLine(b)
    ensures a == b
  {
    CommandReadsBack(a);
    CommandReadsBack(b);
    WordsAreInjective(a, b);
  }
}
