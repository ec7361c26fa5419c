/**
 * A reader for the JSON grammar of RFC 8259 (sections 2 to 7), and the proof that it undoes
 * pkg/jsonutils/streamwriter.go on exactly those trees whose strings need no escape and whose
 * numbers are JSON numbers.
 */
module JsonReader {
  import opened Prelude
  import opened JsonStreamWriter

  // ----- Characters and lexemes

  datatype Lexeme = Sym(c: char) | Word(v: Scalar)

  predicate IsSpace(c: char) { c == ' ' || c == '\t' || c == '\n' || c == '\r' }

  predicate IsSym(c: char) { c == '[' || c == ']' || c == '{' || c == '}' || c == ':' || c == ',' }

  predicate IsDigit(c: char) { '0' <= c <= '9' }

  predicate IsNumChar(c: char) { IsDigit(c) || c == '-' || c == '+' || c == '.' || c == 'e' || c == 'E' }

  /** Section 7: the characters a string may hold without an escape. */
  predicate Plain(c: char) { c != '"' && c != '\\' && c >= ' ' }

  predicate AllPlain(s: string) { forall i :: 0 <= i < |s| ==> Plain(s[i]) }

  // ----- Section 6: numbers

  function DigitRun(s: string): nat
    ensures DigitRun(s) <= |s|
    ensures forall i :: 0 <= i < DigitRun(s) ==> IsDigit(s[i])
  {
    if s == "" || !IsDigit(s[0]) then 0 else 1 + DigitRun(s[1..])
  }

  predicate IsExponent(s: string) {
    s == "" || ((s[0] == 'e' || s[0] == 'E')
                && (var digits := if |s| > 1 && (s[1] == '+' || s[1] == '-') then s[2..] else s[1..];
                    digits != "" && DigitRun(digits) == |digits|))
  }

  predicate IsFraction(s: string) {
    if s != "" && s[0] == '.' then
      var n := DigitRun(s[1..]);
      n > 0 && IsExponent(s[1 + n..])
    else IsExponent(s)
  }

  predicate IsUnsigned(s: string) {
    var n := DigitRun(s);
    n > 0 && (s[0] == '0' ==> n == 1) && IsFraction(s[n..])
  }

  predicate IsNumber(s: string) {
    s != "" && IsUnsigned(if s[0] == '-' then s[1..] else s)
  }

  predicate AllNumChars(s: string) { forall i :: 0 <= i < |s| ==> IsNumChar(s[i]) }

  lemma JoinNumChars(s: string, n: nat)
    requires n <= |s| && AllNumChars(s[..n]) && AllNumChars(s[n..])
    ensures AllNumChars(s)
  {
    forall i | 0 <= i < |s| ensures IsNumChar(s[i]) {
      assert s[i] == if i < n then s[..n][i] else s[n..][i - n];
    }
  }

  lemma ExponentCharacters(s: string)
    requires IsExponent(s)
    ensures AllNumChars(s)
  {
    if s != "" {
      JoinNumChars(s, if |s| > 1 && (s[1] == '+' || s[1] == '-') then 2 else 1);
    }
  }

  lemma FractionCharacters(s: string)
    requires IsFraction(s)
    ensures AllNumChars(s)
  {
    if s != "" && s[0] == '.' {
      var t := s[1..];
      var n := DigitRun(t);
      assert s[1 + n..] == t[n..];
      ExponentCharacters(t[n..]);
      JoinNumChars(t, n);
      JoinNumChars(s, 1);
    } else {
      ExponentCharacters(s);
    }
  }

  lemma UnsignedCharacters(s: string)
    requires IsUnsigned(s)
    ensures AllNumChars(s) && s != "" && IsDigit(s[0])
  {
    FractionCharacters(s[DigitRun(s)..]);
    JoinNumChars(s, DigitRun(s));
  }

  lemma NumberCharacters(s: string)
    requires IsNumber(s)
    ensures AllNumChars(s) && (IsDigit(s[0]) || s[0] == '-')
  {
    if s[0] == '-' {
      UnsignedCharacters(s[1..]);
      JoinNumChars(s, 1);
    } else {
      UnsignedCharacters(s);
    }
  }

  // ----- Section 7: strings

  function HexValue(c: char): (r: Option<nat>)
    ensures r.Some? ==> r.value < 16 && c != '"'
  {
    if IsDigit(c) then Some((c - '0') as nat)
    else if 'a' <= c <= 'f' then Some((c - 'a') as nat + 10)
    else if 'A' <= c <= 'F' then Some((c - 'A') as nat + 10)
    else None
  }

  /** Four hexadecimal digits. */
  function ReadHex4(s: string): (r: Option<nat>)
    ensures r.Some? ==> r.value < 0x10000 && |s| >= 4 && forall i :: 0 <= i < 4 ==> s[i] != '"'
  {
    if |s| < 4 then None
    else
      var a, b, c, d := HexValue(s[0]), HexValue(s[1]), HexValue(s[2]), HexValue(s[3]);
      if a.Some? && b.Some? && c.Some? && d.Some?
      then Some(a.value * 4096 + b.value * 256 + c.value * 16 + d.value)
      else None
  }

  /** What follows a backslash: the character it stands for and the number of characters it takes. */
  function ReadEscape(s: string): (r: Option<(char, nat)>)
    ensures r.Some? ==> 1 <= r.value.1 <= |s|
    ensures r.Some? && r.value.0 != '"' ==> forall i :: 0 <= i < r.value.1 ==> s[i] != '"'
  {
    if s == "" then None
    else
      match s[0]
      case '"' => Some(('"', 1))
      case '\\' => Some(('\\', 1))
      case '/' => Some(('/', 1))
      case 'b' => Some((0x8 as char, 1))
      case 'f' => Some((0xc as char, 1))
      case 'n' => Some(('\n', 1))
      case 'r' => Some(('\r', 1))
      case 't' => Some(('\t', 1))
      case 'u' =>
        var h := ReadHex4(s[1..]);
        if h.None? then None
        else
          assert forall i :: 1 <= i < 5 ==> s[i] == s[1..][i - 1];
          if h.value < 0xD800 || 0xE000 <= h.value then Some((h.value as char, 5))
          else
            // A code point beyond the basic plane takes a surrogate pair.
            var low := if |s| >= 7 && s[5] == '\\' && s[6] == 'u' then ReadHex4(s[7..]) else None;
            if h.value < 0xDC00 && low.Some? && 0xDC00 <= low.value < 0xE000 then
              assert forall i :: 7 <= i < 11 ==> s[i] == s[7..][i - 7];
              Some(((0x10000 + (h.value - 0xD800) * 0x400 + (low.value - 0xDC00)) as char, 11))
            else None
      case _ => None
  }

  /** The content of a string after its opening quote, and what follows the closing one. */
  function ReadString(s: string): (r: Option<(string, string)>)
    ensures r.Some? ==> |r.value.1| < |s|
    decreases |s|
  {
    if s == "" then None
    else if s[0] == '"' then Some(("", s[1..]))
    else if s[0] < ' ' then None
    else if s[0] == '\\' then
      var e := ReadEscape(s[1..]);
      if e.None? then None
      else
        var r := ReadString(s[1 + e.value.1..]);
        if r.None? then None else Some(([e.value.0] + r.value.0, r.value.1))
    else
      var r := ReadString(s[1..]);
      if r.None? then None else Some(([s[0]] + r.value.0, r.value.1))
  }

  // ----- The lexer

  function NumRun(s: string): (n: nat)
    ensures n <= |s|
  {
    if s == "" || !IsNumChar(s[0]) then 0 else 1 + NumRun(s[1..])
  }

  function Then(ls: seq<Lexeme>, r: Option<seq<Lexeme>>): Option<seq<Lexeme>> {
    if r.None? then None else Some(ls + r.value)
  }

  function Lex(s: string): Option<seq<Lexeme>>
    decreases |s|
  {
    if s == "" then Some([])
    else if IsSpace(s[0]) then Lex(s[1..])
    else if IsSym(s[0]) then Then([Sym(s[0])], Lex(s[1..]))
    else if s[0] == '"' then
      var r := ReadString(s[1..]);
      if r.None? then None else Then([Word(Str(r.value.0))], Lex(r.value.1))
    else if "true" <= s then Then([Word(Bool(true))], Lex(s[4..]))
    else if "false" <= s then Then([Word(Bool(false))], Lex(s[5..]))
    else if "null" <= s then Then([Word(Null)], Lex(s[4..]))
    else if IsNumber(s[..NumRun(s)]) then Then([Word(Num(s[..NumRun(s)]))], Lex(s[NumRun(s)..]))
    else None
  }

  // ----- The parser

  function ParseValue(ls: seq<Lexeme>): (r: Option<(Value, seq<Lexeme>)>)
    ensures r.Some? ==> |r.value.1| < |ls|
    decreases |ls|, 0
  {
    if ls == [] then None
    else if ls[0].Word? then Some((Leaf(ls[0].v), ls[1..]))
    else if ls[0].c == '[' then
      if |ls| > 1 && ls[1] == Sym(']') then Some((Arr(NoItems), ls[2..]))
      else
        var r := ParseItems(ls[1..]);
        if r.None? then None else Some((Arr(r.value.0), r.value.1))
    else if ls[0].c == '{' then
      if |ls| > 1 && ls[1] == Sym('}') then Some((Obj(NoFields), ls[2..]))
      else
        var r := ParseFields(ls[1..]);
        if r.None? then None else Some((Obj(r.value.0), r.value.1))
    else None
  }

  /** One or more values between commas, and the closing bracket. */
  function ParseItems(ls: seq<Lexeme>): (r: Option<(Items, seq<Lexeme>)>)
    ensures r.Some? ==> |r.value.1| < |ls|
    decreases |ls|, 1
  {
    var v := ParseValue(ls);
    if v.None? || v.value.1 == [] then None
    else if v.value.1[0] == Sym(']') then Some((Item(v.value.0, NoItems), v.value.1[1..]))
    else if v.value.1[0] == Sym(',') then
      var r := ParseItems(v.value.1[1..]);
      if r.None? then None else Some((Item(v.value.0, r.value.0), r.value.1))
    else None
  }

  /** One or more members between commas, and the closing brace. */
  function ParseFields(ls: seq<Lexeme>): (r: Option<(Fields, seq<Lexeme>)>)
    ensures r.Some? ==> |r.value.1| < |ls|
    decreases |ls|, 1
  {
    if |ls| < 2 || !ls[0].Word? || !ls[0].v.Str? || ls[1] != Sym(':') then None
    else
      var name, v := ls[0].v.s, ParseValue(ls[2..]);
      if v.None? || v.value.1 == [] then None
      else if v.value.1[0] == Sym('}') then Some((Field(name, v.value.0, NoFields), v.value.1[1..]))
      else if v.value.1[0] == Sym(',') then
        var r := ParseFields(v.value.1[1..]);
        if r.None? then None else Some((Field(name, v.value.0, r.value.0), r.value.1))
      else None
  }

  /** A whole JSON text. */
  function Read(s: string): Option<Value> {
    var ls := Lex(s);
    if ls.None? then None
    else
      var r := ParseValue(ls.value);
      if r.Some? && r.value.1 == [] then Some(r.value.0) else None
  }

  // ----- The grammar's own lexeme sequence of a tree, and its unique reading

  function Lexemes(v: Value): seq<Lexeme>
    decreases v, 0
  {
    match v
    case Leaf(x) => [Word(x)]
    case Arr(items) => [Sym('[')] + ItemLexemes(items) + [Sym(']')]
    case Obj(fields) => [Sym('{')] + FieldLexemes(fields) + [Sym('}')]
  }

  function ItemLexemes(items: Items): seq<Lexeme>
    decreases items, 0
  {
    match items
    case NoItems => []
    case Item(head, tail) => Lexemes(head) + MoreItems(tail)
  }

  function MoreItems(items: Items): seq<Lexeme>
    decreases items, 1
  {
    if items.NoItems? then [] else [Sym(',')] + ItemLexemes(items)
  }

  function FieldLexemes(fields: Fields): seq<Lexeme>
    decreases fields, 0
  {
    match fields
    case NoFields => []
    case Field(name, value, rest) => Key(name) + Lexemes(value) + MoreFields(rest)
  }

  function MoreFields(fields: Fields): seq<Lexeme>
    decreases fields, 1
  {
    if fields.NoFields? then [] else [Sym(',')] + FieldLexemes(fields)
  }

  lemma Tail<T>(x: T, s: seq<T>)
    ensures ([x] + s)[0] == x && ([x] + s)[1..] == s
  {
  }

  /** A member that is not the last one, followed by what its tail reads as. */
  lemma MemberThenMore(k: seq<Lexeme>, v: seq<Lexeme>, s: seq<Lexeme>, t: seq<Lexeme>, rest: seq<Lexeme>)
    ensures k + (v + (s + (t + rest))) == k + v + (s + t) + rest
  {
    Assoc(s, t, rest);
    Assoc(k + v, s + t, rest);
    Assoc(k, v, s + t + rest);
  }

  lemma {:induction false} FirstLexeme(v: Value)
    ensures Lexemes(v) != [] && Lexemes(v)[0] != Sym(']') && Lexemes(v)[0] != Sym('}')
  {
    match v
    case Leaf(x) =>
    case Arr(items) =>
    case Obj(fields) =>
  }

  lemma {:induction false} ParseComplete(v: Value, rest: seq<Lexeme>)
    ensures ParseValue(Lexemes(v) + rest) == Some((v, rest))
    decreases v, 1
  {
    var ls := Lexemes(v) + rest;
    match v
    case Leaf(x) =>
      assert ls[1..] == rest;
    case Arr(items) =>
      if items.NoItems? {
        assert ls[2..] == rest;
      } else {
        FirstLexeme(items.head);
        assert ls[1] == Lexemes(items.head)[0];
        assert ls[1..] == ItemLexemes(items) + ([Sym(']')] + rest);
        ParseItemsComplete(items, rest);
      }
    case Obj(fields) =>
      if fields.NoFields? {
        assert ls[2..] == rest;
      } else {
        assert ls[1] == Word(Str(fields.name));
        assert ls[1..] == FieldLexemes(fields) + ([Sym('}')] + rest);
        ParseFieldsComplete(fields, rest);
      }
  }

  lemma {:induction false} ParseItemsComplete(items: Items, rest: seq<Lexeme>)
    requires items.Item?
    ensures ParseItems(ItemLexemes(items) + ([Sym(']')] + rest)) == Some((items, rest))
    decreases items, 0
  {
    var Item(head, tail) := items;
    var close := [Sym(']')] + rest;
    var after := MoreItems(tail) + close;
    assert ItemLexemes(items) + close == Lexemes(head) + after;
    ParseComplete(head, after);
    if tail.NoItems? {
      assert after[1..] == rest;
    } else {
      Assoc([Sym(',')], ItemLexemes(tail), close);
      Tail(Sym(','), ItemLexemes(tail) + close);
      ParseItemsComplete(tail, rest);
    }
  }

  function Key(name: string): seq<Lexeme> { [Word(Str(name)), Sym(':')] }

  lemma ParseMember(name: string, value: Value, after: seq<Lexeme>)
    requires after != [] && ParseValue(Lexemes(value) + after) == Some((value, after))
    ensures var r := ParseFields(Key(name) + (Lexemes(value) + after));
            && (after[0] == Sym('}') ==> r == Some((Field(name, value, NoFields), after[1..])))
            && (after[0] == Sym(',') && ParseFields(after[1..]).Some? ==>
                  var (tail, rest) := ParseFields(after[1..]).value; r == Some((Field(name, value, tail), rest)))
  {
    var ls := Key(name) + (Lexemes(value) + after);
    assert ls[2..] == Lexemes(value) + after;
  }

  lemma {:induction false} ParseFieldsComplete(fields: Fields, rest: seq<Lexeme>)
    requires fields.Field?
    ensures ParseFields(FieldLexemes(fields) + ([Sym('}')] + rest)) == Some((fields, rest))
    decreases fields, 0
  {
    var Field(name, value, tail) := fields;
    var close := [Sym('}')] + rest;
    var after := MoreFields(tail) + close;
    Assoc(Key(name) + Lexemes(value), MoreFields(tail), close);
    Assoc(Key(name), Lexemes(value), after);
    ParseComplete(value, after);
    ParseMember(name, value, after);
    if tail.NoFields? {
      assert after[1..] == rest;
    } else {
      Assoc([Sym(',')], FieldLexemes(tail), close);
      Tail(Sym(','), FieldLexemes(tail) + close);
      ParseFieldsComplete(tail, rest);
    }
  }

  lemma {:induction false} ParseSound(ls: seq<Lexeme>)
    requires ParseValue(ls).Some?
    ensures ls == Lexemes(ParseValue(ls).value.0) + ParseValue(ls).value.1
    decreases |ls|, 0
  {
    if ls[0].Word? {
      assert ls == [ls[0]] + ls[1..];
    } else if ls[0].c == '[' {
      if |ls| > 1 && ls[1] == Sym(']') {
        assert ls == [Sym('['), Sym(']')] + ls[2..];
      } else {
        ParseItemsSound(ls[1..]);
        var (items, rest) := ParseItems(ls[1..]).value;
        MemberThenMore([], [ls[0]], ItemLexemes(items), [Sym(']')], rest);
        assert ls == [] + ([ls[0]] + ls[1..]);
        Assoc([ls[0]], ItemLexemes(items), [Sym(']')]);
      }
    } else if |ls| > 1 && ls[1] == Sym('}') {
      assert ls == [Sym('{'), Sym('}')] + ls[2..];
    } else {
      ParseFieldsSound(ls[1..]);
      var (fields, rest) := ParseFields(ls[1..]).value;
      MemberThenMore([], [ls[0]], FieldLexemes(fields), [Sym('}')], rest);
      assert ls == [] + ([ls[0]] + ls[1..]);
      Assoc([ls[0]], FieldLexemes(fields), [Sym('}')]);
    }
  }

  lemma {:induction false} ParseItemsSound(ls: seq<Lexeme>)
    requires ParseItems(ls).Some?
    ensures var (items, rest) := ParseItems(ls).value;
            items.Item? && ls == ItemLexemes(items) + ([Sym(']')] + rest)
    decreases |ls|, 1
  {
    ParseSound(ls);
    var (v, after) := ParseValue(ls).value;
    assert after == [after[0]] + after[1..];
    if after[0] == Sym(',') {
      ParseItemsSound(after[1..]);
      var (tail, rest) := ParseItems(after[1..]).value;
      MemberThenMore([], Lexemes(v), [Sym(',')], ItemLexemes(tail), [Sym(']')] + rest);
    } else {
      assert Lexemes(v) + [] == Lexemes(v);
    }
  }

  lemma {:induction false} ParseFieldsSound(ls: seq<Lexeme>)
    requires ParseFields(ls).Some?
    ensures var (fields, rest) := ParseFields(ls).value;
            fields.Field? && ls == FieldLexemes(fields) + ([Sym('}')] + rest)
    decreases |ls|, 1
  {
    ParseSound(ls[2..]);
    var key := Key(ls[0].v.s);
    var (v, after) := ParseValue(ls[2..]).value;
    assert ls == key + (Lexemes(v) + after);
    assert after == [after[0]] + after[1..];
    if after[0] == Sym(',') {
      ParseFieldsSound(after[1..]);
      var (tail, rest) := ParseFields(after[1..]).value;
      MemberThenMore(key, Lexemes(v), [Sym(',')], FieldLexemes(tail), [Sym('}')] + rest);
    } else {
      Assoc(key, Lexemes(v), after);
      assert key + Lexemes(v) + [] == key + Lexemes(v);
    }
  }
}
