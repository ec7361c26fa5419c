/** The output of pkg/jsonutils/streamwriter.go reads back to the tree written exactly when the tree is clean. */
module JsonRoundTrip {
  import opened Prelude
  import opened JsonStreamWriter
  import opened JsonReader

  predicate CleanScalar(x: Scalar) {
    (x.Str? ==> AllPlain(x.s)) && (x.Num? ==> IsNumber(x.text))
  }

  predicate Clean(v: Value) {
    match v
    case Leaf(x) => CleanScalar(x)
    case Arr(items) => CleanItems(items)
    case Obj(fields) => CleanFields(fields)
  }

  predicate CleanItems(items: Items) {
    items.Item? ==> Clean(items.head) && CleanItems(items.tail)
  }

  predicate CleanFields(fields: Fields) {
    fields.Field? ==> AllPlain(fields.name) && Clean(fields.value) && CleanFields(fields.rest)
  }

  predicate AllSpace(s: string) { forall i :: 0 <= i < |s| ==> IsSpace(s[i]) }

  /** A number ends here. */
  predicate Boundary(s: string) { s == "" || !IsNumChar(s[0]) }

  // ----- Lexing one piece of text

  lemma ThenThen(a: seq<Lexeme>, b: seq<Lexeme>, r: Option<seq<Lexeme>>)
    ensures Then(a, Then(b, r)) == Then(a + b, r)
  {
    if r.Some? {
      assert a + (b + r.value) == a + b + r.value;
    }
  }

  lemma ThenThree(a: seq<Lexeme>, b: seq<Lexeme>, c: seq<Lexeme>, r: Option<seq<Lexeme>>)
    ensures Then(a, Then(b, Then(c, r))) == Then(a + b + c, r)
  {
    ThenThen(b, c, r);
    ThenThen(a, b + c, r);
    Assoc(a, b, c);
  }

  lemma ThenNothing(r: Option<seq<Lexeme>>)
    ensures Then([], r) == r
  {
    if r.Some? {
      assert [] + r.value == r.value;
    }
  }

  lemma {:induction false} LexSpace(ws: string, rest: string)
    requires AllSpace(ws)
    ensures Lex(ws + rest) == Lex(rest)
  {
    if ws == "" {
      assert ws + rest == rest;
    } else {
      assert (ws + rest)[1..] == ws[1..] + rest;
      LexSpace(ws[1..], rest);
    }
  }

  lemma LexSym(c: char, rest: string)
    requires IsSym(c)
    ensures Lex([c] + rest) == Then([Sym(c)], Lex(rest))
  {
    assert ([c] + rest)[1..] == rest;
  }

  lemma {:induction false} ReadPlain(s: string, rest: string)
    requires AllPlain(s)
    ensures ReadString(s + "\"" + rest) == Some((s, rest))
  {
    var text := s + "\"" + rest;
    if s == "" {
      assert text[1..] == rest;
    } else {
      assert Plain(s[0]);
      assert text[1..] == s[1..] + "\"" + rest;
      ReadPlain(s[1..], rest);
      assert [s[0]] + s[1..] == s;
    }
  }

  lemma LexQuoted(s: string, rest: string)
    requires AllPlain(s)
    ensures Lex("\"" + s + "\"" + rest) == Then([Word(Str(s))], Lex(rest))
  {
    assert ("\"" + s + "\"" + rest)[1..] == s + "\"" + rest;
    ReadPlain(s, rest);
  }

  lemma {:induction false} NumRunOf(s: string, rest: string)
    requires AllNumChars(s) && Boundary(rest)
    ensures NumRun(s + rest) == |s|
  {
    if s == "" {
      assert s + rest == rest;
    } else {
      assert (s + rest)[1..] == s[1..] + rest;
      NumRunOf(s[1..], rest);
    }
  }

  lemma LexNumber(t: string, rest: string)
    requires IsNumber(t) && Boundary(rest)
    ensures Lex(t + rest) == Then([Word(Num(t))], Lex(rest))
  {
    NumberCharacters(t);
    NumRunOf(t, rest);
    assert (t + rest)[0] == t[0];
    assert (t + rest)[..|t|] == t && (t + rest)[|t|..] == rest;
  }

  lemma LexName(x: Scalar, rest: string)
    requires x.Bool? || x.Null?
    ensures Lex(ScalarText(x) + rest) == Then([Word(x)], Lex(rest))
  {
    var name := ScalarText(x);
    var text := name + rest;
    assert text[0] == name[0];
    assert name <= text && text[|name|..] == rest;
  }

  lemma LexScalar(x: Scalar, rest: string)
    requires CleanScalar(x) && Boundary(rest)
    ensures Lex(ScalarText(x) + rest) == Then([Word(x)], Lex(rest))
  {
    if x.Str? { LexQuoted(x.s, rest); } else if x.Num? { LexNumber(x.text, rest); } else { LexName(x, rest); }
  }

  // ----- Lexing the layout of a clean tree

  lemma RegroupBlock(a: string, b: string, c: string, d: string, e: string, f: string)
    ensures a + b + c + d + e + f == a + (b + (c + d + e + f))
    ensures c + d + e + f == c + d + (e + f)
  {
  }

  lemma LexBlock(c: char, body: string, ls: seq<Lexeme>, indent: string, rest: string)
    requires Opening(c) && AllSpace(indent)
    requires Lex(body + ("\n" + indent + [Partner(c)] + rest)) == Then(ls, Lex("\n" + indent + [Partner(c)] + rest))
    ensures Lex([c] + body + "\n" + indent + [Partner(c)] + rest) == Then([Sym(c)] + ls + [Sym(Partner(c))], Lex(rest))
  {
    var close := "\n" + indent + [Partner(c)] + rest;
    RegroupBlock([c], body, "\n", indent, [Partner(c)], rest);
    LexSym(c, body + close);
    LexSpace("\n" + indent, [Partner(c)] + rest);
    LexSym(Partner(c), rest);
    ThenThen(ls, [Sym(Partner(c))], Lex(rest));
    ThenThen([Sym(c)], ls + [Sym(Partner(c))], Lex(rest));
    assert [Sym(c)] + (ls + [Sym(Partner(c))]) == [Sym(c)] + ls + [Sym(Partner(c))];
  }

  function Separator(comma: bool): string { if comma then ",\n" else "\n" }

  lemma LexSeparator(comma: bool, indent: string, rest: string)
    requires AllSpace(indent)
    ensures Lex(Separator(comma) + indent + rest) == if comma then Then([Sym(',')], Lex(rest)) else Lex(rest)
  {
    LexSpace("\n" + indent, rest);
    if !comma {
      assert Separator(comma) + indent == "\n" + indent;
    } else {
      assert Separator(comma) + indent + rest == "," + ("\n" + indent + rest);
      LexSym(',', "\n" + indent + rest);
    }
  }

  lemma {:induction false} LexValue(v: Value, indent: string, rest: string)
    requires Clean(v) && AllSpace(indent) && Boundary(rest)
    ensures Lex(Pretty(v, indent) + rest) == Then(Lexemes(v), Lex(rest))
    decreases v, 1
  {
    match v
    case Leaf(x) => LexScalar(x, rest);
    case Arr(items) =>
      LexItems(items, indent + "  ", "\n" + indent + "]" + rest, false);
      LexBlock('[', PrettyItems(items, indent + "  ", "\n"), ItemLexemes(items), indent, rest);
    case Obj(fields) =>
      LexFields(fields, indent + "  ", "\n" + indent + "}" + rest, false);
      LexBlock('{', PrettyFields(fields, indent + "  ", "\n"), FieldLexemes(fields), indent, rest);
  }

  lemma {:induction false} LexItems(items: Items, indent: string, rest: string, comma: bool)
    requires CleanItems(items) && AllSpace(indent) && Boundary(rest)
    ensures Lex(PrettyItems(items, indent, Separator(comma)) + rest)
         == Then(if comma then MoreItems(items) else ItemLexemes(items), Lex(rest))
    decreases items, 0
  {
    match items
    case NoItems =>
      assert "" + rest == rest;
      ThenNothing(Lex(rest));
    case Item(head, tail) =>
      var after := PrettyItems(tail, indent, ",\n") + rest;
      assert PrettyItems(items, indent, Separator(comma)) + rest
          == Separator(comma) + indent + (Pretty(head, indent) + after);
      LexSeparator(comma, indent, Pretty(head, indent) + after);
      LexValue(head, indent, after);
      LexItems(tail, indent, rest, true);
      ThenThen(Lexemes(head), MoreItems(tail), Lex(rest));
      ThenThen([Sym(',')], ItemLexemes(items), Lex(rest));
  }

  lemma {:induction false} LexFields(fields: Fields, indent: string, rest: string, comma: bool)
    requires CleanFields(fields) && AllSpace(indent) && Boundary(rest)
    ensures Lex(PrettyFields(fields, indent, Separator(comma)) + rest)
         == Then(if comma then MoreFields(fields) else FieldLexemes(fields), Lex(rest))
    decreases fields, 0
  {
    match fields
    case NoFields =>
      assert "" + rest == rest;
      ThenNothing(Lex(rest));
    case Field(name, value, tail) =>
      var after := PrettyFields(tail, indent, ",\n") + rest;
      var text := Pretty(value, indent) + after;
      SplitField(fields, indent, rest, comma);
      LexSeparator(comma, indent, "\"" + name + "\"" + (": " + text));
      LexKey(name, text);
      LexValue(value, indent, after);
      LexFields(tail, indent, rest, true);
      ThenThree(Key(name), Lexemes(value), MoreFields(tail), Lex(rest));
      ThenThen([Sym(',')], FieldLexemes(fields), Lex(rest));
  }

  lemma LexKey(name: string, rest: string)
    requires AllPlain(name)
    ensures Lex("\"" + name + "\"" + (": " + rest)) == Then(Key(name), Lex(rest))
  {
    LexQuoted(name, ": " + rest);
    assert ": " + rest == ":" + (" " + rest);
    LexSym(':', " " + rest);
    LexSpace(" ", rest);
    ThenThen([Word(Str(name))], [Sym(':')], Lex(rest));
    assert [Word(Str(name))] + [Sym(':')] == Key(name);
  }

  lemma SplitField(fields: Fields, indent: string, rest: string, comma: bool)
    requires fields.Field?
    ensures PrettyFields(fields, indent, Separator(comma)) + rest
         == Separator(comma) + indent
            + ("\"" + fields.name + "\""
               + (": " + (Pretty(fields.value, indent) + (PrettyFields(fields.rest, indent, ",\n") + rest))))
  {
    var value, more := Pretty(fields.value, indent), PrettyFields(fields.rest, indent, ",\n");
    var lead, quoted := Separator(comma) + indent, "\"" + fields.name + "\"";
    assert lead + "\"" + fields.name + "\": " == lead + (quoted + ": ");
    Assoc(lead + (quoted + ": "), value, more);
    Assoc(lead + (quoted + ": "), value + more, rest);
    Assoc(value, more, rest);
    Assoc(lead, quoted + ": ", value + (more + rest));
    Assoc(quoted, ": ", value + (more + rest));
  }

  // ----- A tree that is not clean does not lex to its own lexemes

  predicate Starts(r: Option<seq<Lexeme>>, ls: seq<Lexeme>) {
    r.Some? && ls <= r.value
  }

  lemma StartsThen(a: seq<Lexeme>, b: seq<Lexeme>, c: seq<Lexeme>, r: Option<seq<Lexeme>>)
    requires Starts(Then(a, r), a + b + c)
    ensures Starts(r, b)
  {
    var whole := a + r.value;
    assert a + b + c <= whole;
    forall i | 0 <= i < |b| ensures r.value[i] == b[i] {
      assert whole[|a| + i] == (a + b + c)[|a| + i];
    }
  }

  function FirstQuote(s: string): (q: nat)
    ensures q <= |s| && (q < |s| ==> s[q] == '"')
    ensures forall i :: 0 <= i < q ==> s[i] != '"'
  {
    if s == "" || s[0] == '"' then 0 else 1 + FirstQuote(s[1..])
  }

  lemma FirstQuoteAfter(s: string, n: nat)
    requires n <= FirstQuote(s)
    ensures FirstQuote(s[n..]) == FirstQuote(s) - n
  {
    var q, t := FirstQuote(s), s[n..];
    var p := FirstQuote(t);
    assert p < |t| ==> s[n + p] == '"';
    assert q < |s| ==> t[q - n] == '"';
  }

  predicate PlainTo(s: string, q: nat)
    requires q <= |s|
  {
    forall i :: 0 <= i < q ==> Plain(s[i])
  }

  /** The string read is shorter than the text up to the first quote, or holds a quote of its own there. */
  predicate Shrunk(d: string, q: nat) {
    |d| < q || exists j :: 0 <= j < q && j < |d| && d[j] == '"'
  }

  lemma ShrunkMore(d: string, q: nat)
    requires Shrunk(d, q)
    ensures Shrunk(d, q + 1)
  {
  }

  lemma EscapeAvoidsQuote(s: string, n: nat)
    requires s != "" && s[0] != '"' && n < |s|
    requires forall i :: 0 <= i < n ==> s[1..][i] != '"'
    ensures n + 1 <= FirstQuote(s)
  {
    assert forall i :: 1 <= i <= n ==> s[i] == s[1..][i - 1];
  }

  lemma ShrunkCons(c: char, d: string, n: nat, q: nat)
    requires n >= 1 && Shrunk(d, q)
    ensures Shrunk([c] + d, q + n)
  {
    if |d| >= q {
      var j :| 0 <= j < q && j < |d| && d[j] == '"';
      assert ([c] + d)[j + 1] == '"';
    }
  }

  lemma AfterEscape(c: char, d: string, n: nat, t: string, p: nat)
    requires n >= 1 && p <= |t| && if PlainTo(t, p) then d == t[..p] else Shrunk(d, p)
    ensures Shrunk([c] + d, p + n + 1)
  {
    if !PlainTo(t, p) {
      ShrunkMore(d, p);
      ShrunkCons(c, d, n, p + 1);
    }
  }

  lemma AfterPlain(s: string, d: string, q: nat)
    requires 1 <= q <= |s| && Plain(s[0])
    requires if PlainTo(s[1..], q - 1) then d == s[1..][..q - 1] else Shrunk(d, q - 1)
    ensures if PlainTo(s, q) then [s[0]] + d == s[..q] else Shrunk([s[0]] + d, q)
  {
    var t := s[1..];
    if PlainTo(t, q - 1) {
      assert forall i :: 1 <= i < q ==> s[i] == t[i - 1];
    } else {
      var i :| 0 <= i < q - 1 && !Plain(t[i]);
      assert !Plain(s[i + 1]);
      ShrunkCons(s[0], d, 1, q - 1);
    }
  }

  /** Without an escape the reader stops at the first quote; an escape costs more text than it yields. */
  lemma {:induction false} ReadStringShrinks(s: string)
    requires ReadString(s).Some?
    ensures var d, q := ReadString(s).value.0, FirstQuote(s);
            if PlainTo(s, q) then d == s[..q] else Shrunk(d, q)
    decreases |s|
  {
    var q := FirstQuote(s);
    if s[0] == '"' {
      assert s[..0] == "";
    } else if s[0] == '\\' {
      assert !Plain(s[0]);
      var (c, n) := ReadEscape(s[1..]).value;
      if c == '"' {
        assert ReadString(s).value.0[0] == '"';
      } else {
        EscapeAvoidsQuote(s, n);
        FirstQuoteAfter(s, n + 1);
        ReadStringShrinks(s[1 + n..]);
        AfterEscape(c, ReadString(s[1 + n..]).value.0, n, s[1 + n..], q - n - 1);
      }
    } else {
      FirstQuoteAfter(s, 1);
      ReadStringShrinks(s[1..]);
      AfterPlain(s, ReadString(s[1..]).value.0, q);
    }
  }

  lemma UncleanQuoted(s: string, rest: string)
    requires !AllPlain(s)
    ensures !Starts(Lex("\"" + s + "\"" + rest), [Word(Str(s))])
  {
    var t := s + "\"" + rest;
    var text := "\"" + s + "\"" + rest;
    assert text[1..] == t;
    if Lex(text).Some? {
      var (d, after) := ReadString(t).value;
      assert Lex(text).value[0] == Word(Str(d));
      var q := FirstQuote(t);
      assert t[|s|] == '"';
      ReadStringShrinks(t);
      var i :| 0 <= i < |s| && !Plain(s[i]);
      assert !Plain(t[i]);
      if PlainTo(t, q) {
        assert q <= i;
      } else {
        assert forall j :: 0 <= j < q && j < |s| ==> s[j] == t[j];
      }
    }
  }

  lemma {:induction false} LexedNumbersAreNumbers(s: string)
    requires Lex(s).Some?
    ensures forall i :: 0 <= i < |Lex(s).value| ==> CleanNumber(Lex(s).value[i])
    decreases |s|
  {
    if s == "" {
    } else if IsSpace(s[0]) || IsSym(s[0]) {
      LexedNumbersAreNumbers(s[1..]);
    } else if s[0] == '"' {
      LexedNumbersAreNumbers(ReadString(s[1..]).value.1);
    } else if "true" <= s || "null" <= s {
      LexedNumbersAreNumbers(s[4..]);
    } else if "false" <= s {
      LexedNumbersAreNumbers(s[5..]);
    } else {
      LexedNumbersAreNumbers(s[NumRun(s)..]);
    }
  }

  predicate CleanNumber(l: Lexeme) {
    l.Word? && l.v.Num? ==> IsNumber(l.v.text)
  }

  lemma UncleanScalar(x: Scalar, rest: string)
    requires !CleanScalar(x)
    ensures !Starts(Lex(ScalarText(x) + rest), [Word(x)])
  {
    if x.Str? {
      UncleanQuoted(x.s, rest);
    } else {
      var r := Lex(ScalarText(x) + rest);
      if r.Some? {
        LexedNumbersAreNumbers(ScalarText(x) + rest);
        assert r.value != [] ==> CleanNumber(r.value[0]);
      }
    }
  }

  lemma {:induction false} UncleanValue(v: Value, indent: string, rest: string)
    requires !Clean(v) && AllSpace(indent) && Boundary(rest)
    ensures !Starts(Lex(Pretty(v, indent) + rest), Lexemes(v))
    decreases v, 1
  {
    match v
    case Leaf(x) => UncleanScalar(x, rest);
    case Arr(items) =>
      var close := "\n" + indent + "]" + rest;
      var body := PrettyItems(items, indent + "  ", "\n");
      UncleanItems(items, indent + "  ", close, false);
      RegroupBlock("[", body, "\n", indent, "]", rest);
      LexSym('[', body + close);
      if Starts(Lex(Pretty(v, indent) + rest), Lexemes(v)) {
        StartsThen([Sym('[')], ItemLexemes(items), [Sym(']')], Lex(body + close));
      }
    case Obj(fields) =>
      var close := "\n" + indent + "}" + rest;
      var body := PrettyFields(fields, indent + "  ", "\n");
      UncleanFields(fields, indent + "  ", close, false);
      RegroupBlock("{", body, "\n", indent, "}", rest);
      LexSym('{', body + close);
      if Starts(Lex(Pretty(v, indent) + rest), Lexemes(v)) {
        StartsThen([Sym('{')], FieldLexemes(fields), [Sym('}')], Lex(body + close));
      }
  }

  lemma {:induction false} UncleanItems(items: Items, indent: string, rest: string, comma: bool)
    requires !CleanItems(items) && AllSpace(indent) && Boundary(rest)
    ensures !Starts(Lex(PrettyItems(items, indent, Separator(comma)) + rest),
                    if comma then MoreItems(items) else ItemLexemes(items))
    decreases items, 0
  {
    var Item(head, tail) := items;
    var after := PrettyItems(tail, indent, ",\n") + rest;
    var text := Pretty(head, indent) + after;
    assert PrettyItems(items, indent, Separator(comma)) + rest == Separator(comma) + indent + text;
    LexSeparator(comma, indent, text);
    assert !Starts(Lex(text), ItemLexemes(items)) by {
      if Starts(Lex(text), ItemLexemes(items)) {
        if !Clean(head) {
          UncleanValue(head, indent, after);
        } else {
          LexValue(head, indent, after);
          assert Lexemes(head) + MoreItems(tail) + [] == ItemLexemes(items);
          StartsThen(Lexemes(head), MoreItems(tail), [], Lex(after));
          UncleanItems(tail, indent, rest, true);
        }
      }
    }
    AfterComma(comma, ItemLexemes(items), Lex(text));
  }

  lemma AfterComma(comma: bool, ls: seq<Lexeme>, r: Option<seq<Lexeme>>)
    requires !Starts(r, ls)
    ensures comma ==> !Starts(Then([Sym(',')], r), [Sym(',')] + ls)
  {
    if Starts(Then([Sym(',')], r), [Sym(',')] + ls) {
      assert [Sym(',')] + ls + [] == [Sym(',')] + ls;
      StartsThen([Sym(',')], ls, [], r);
    }
  }

  lemma {:induction false} UncleanFields(fields: Fields, indent: string, rest: string, comma: bool)
    requires !CleanFields(fields) && AllSpace(indent) && Boundary(rest)
    ensures !Starts(Lex(PrettyFields(fields, indent, Separator(comma)) + rest),
                    if comma then MoreFields(fields) else FieldLexemes(fields))
    decreases fields, 0
  {
    var Field(name, value, tail) := fields;
    var after := PrettyFields(tail, indent, ",\n") + rest;
    var text := Pretty(value, indent) + after;
    var keyed := "\"" + name + "\"" + (": " + text);
    SplitField(fields, indent, rest, comma);
    LexSeparator(comma, indent, keyed);
    assert !Starts(Lex(keyed), FieldLexemes(fields)) by {
      if Starts(Lex(keyed), FieldLexemes(fields)) {
        if !AllPlain(name) {
          UncleanQuoted(name, ": " + text);
        } else {
          LexKey(name, text);
          StartsThen(Key(name), Lexemes(value), MoreFields(tail), Lex(text));
          if !Clean(value) {
            UncleanValue(value, indent, after);
          } else {
            LexValue(value, indent, after);
            ThenThen(Key(name), Lexemes(value), Lex(after));
            assert Key(name) + Lexemes(value) + MoreFields(tail) + [] == FieldLexemes(fields);
            StartsThen(Key(name) + Lexemes(value), MoreFields(tail), [], Lex(after));
            UncleanFields(tail, indent, rest, true);
          }
        }
      }
    }
    AfterComma(comma, FieldLexemes(fields), Lex(keyed));
  }

  // ----- The theorem

  /** The text the writer leaves behind for a whole stream. */
  function Written(v: Value): Option<string> {
    var r := Feed(INITIAL, Tokens(v));
    if r.None? then None else Some(r.value.out)
  }

  /** For every object or array: the output reads back to the tree written iff the tree is clean. */
  lemma ReadsBackIffClean(v: Value)
    requires !v.Leaf?
    ensures Written(v).Some?
    ensures Read(Written(v).value) == Some(v) <==> Clean(v)
  {
    WriterPrintsTheLayout(v);
    var text := Pretty(v, "");
    assert text + "" == text;
    if Clean(v) {
      LexValue(v, "", "");
      ParseComplete(v, []);
      assert Lexemes(v) + [] == Lexemes(v);
    } else if Read(text) == Some(v) {
      ParseSound(Lex(text).value);
      assert Lexemes(v) + [] == Lexemes(v);
      UncleanValue(v, "", "");
    }
  }

  /** On clean trees the writer loses nothing: different trees give different texts. */
  lemma WriterIsInjective(v: Value, w: Value)
    requires !v.Leaf? && !w.Leaf? && Clean(v) && Clean(w)
    ensures Written(v) == Written(w) ==> v == w
  {
    ReadsBackIffClean(v);
    ReadsBackIffClean(w);
  }

  /** A quote inside a string is printed bare, so such a tree does not read back. */
  lemma BareQuoteDoesNotReadBack()
    ensures var v := Arr(Item(Leaf(Str("a\"b")), NoItems)); Written(v).Some? && Read(Written(v).value) != Some(v)
  {
    var s := "a\"b";
    assert s[1] == '"' && !Plain(s[1]);
    ReadsBackIffClean(Arr(Item(Leaf(Str(s)), NoItems)));
  }
}
