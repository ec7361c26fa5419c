/** pkg/jsonutils/streamwriter.go: a printer that is fed one JSON token at a time. */
module JsonStreamWriter {
  import opened Prelude

  /** Scalars as a json.Decoder hands them over. A number is represented by the text the writer prints for it. */
  datatype Scalar = Bool(b: bool) | Str(s: string) | Num(text: string) | Null

  datatype Token = Delim(c: char) | Lit(v: Scalar) | Unknown

  datatype Outcome = Ok | Error

  datatype Writer = Writer(out: string, indent: string, state: string, deferred: string, path: seq<string>)

  const INITIAL := Writer("", "", "", "", [])

  function Top(s: string): char {
    if s == "" then '\0' else s[|s| - 1]
  }

  function Front<T>(s: seq<T>): seq<T> {
    if s == [] then [] else s[..|s| - 1]
  }

  function ScalarText(v: Scalar): string {
    match v
    case Bool(b) => if b then "true" else "false"
    case Str(s) => "\"" + s + "\""
    case Num(text) => text
    case Null => "null"
  }

  /** fmt.Sprintf("%s", token) */
  function PathText(v: Scalar): string {
    match v
    case Bool(b) => if b then "%!s(bool=true)" else "%!s(bool=false)"
    case Str(s) => s
    case Num(text) => text
    case Null => "%!s(<nil>)"
  }

  predicate Opening(c: char) { c == '{' || c == '[' }

  predicate Closing(c: char) { c == '}' || c == ']' }

  /** A closing delimiter with nothing open slices out of range, and so does popping an empty path. */
  predicate Defined(w: Writer, t: Token) {
    (t.Delim? && Closing(t.c) ==>
       |w.indent| >= 2 && |w.state| >= 1 && (Top(Front(w.state)) == 'F' ==> |w.path| >= 1))
    && (t.Lit? && Top(w.state) == 'F' ==> |w.path| >= 1)
  }

  function Raw(w: Writer, s: string): Writer {
    w.(out := w.out + w.deferred + s, deferred := "")
  }

  /** The state change of a delimiter, made before anything is written. */
  function Shift(w: Writer, c: char): Writer
    requires Opening(c) || Closing(c)
    requires Defined(w, Delim(c))
  {
    if Opening(c) then
      w.(indent := w.indent + "  ", state := w.state + [c])
    else
      var state := Front(w.state);
      var atField := Top(state) == 'F';
      w.(indent := w.indent[..|w.indent| - 2],
         state := if atField then Front(state) else state,
         path := if atField then Front(w.path) else w.path,
         deferred := if w.deferred == ",\n" then "\n" else w.deferred)
  }

  function StepDelim(w: Writer, c: char): (Outcome, Writer)
    requires Defined(w, Delim(c))
  {
    if !(Opening(c) || Closing(c)) then (Error, w)
    else
      var shifted := Shift(w, c);
      var indent := if Opening(c) then w.indent else shifted.indent;
      var top := Top(w.state);
      if top == '\0' || top == '{' || top == '[' then
        (Ok, Raw(shifted, indent + [c]).(deferred := if Opening(c) then "\n" else ",\n"))
      else if top == 'F' then
        (Ok, Raw(shifted, [c]).(deferred := if Opening(c) then "\n" else ",\n"))
      else (Error, shifted)
  }

  function StepScalar(w: Writer, v: Scalar): (Outcome, Writer)
    requires Defined(w, Lit(v))
  {
    var top := Top(w.state);
    if top == '{' then
      (Ok, Raw(w.(state := w.state + "F", path := w.path + [PathText(v)]), w.indent + ScalarText(v) + ": "))
    else if top == '[' then
      (Ok, Raw(w, w.indent + ScalarText(v)).(deferred := ",\n"))
    else if top == 'F' then
      (Ok, Raw(w.(state := Front(w.state), path := Front(w.path)), ScalarText(v)).(deferred := ",\n"))
    else (Error, w)
  }

  function Step(w: Writer, t: Token): (Outcome, Writer)
    requires Defined(w, t)
  {
    match t
    case Delim(c) => StepDelim(w, c)
    case Lit(v) => StepScalar(w, v)
    case Unknown => (Error, w)
  }

  /** The writer after k tokens of an object or array. */
  predicate IsAfter(w: Writer, v: Value, k: nat) {
    !v.Leaf? && k <= |Tokens(v)| && Feed(INITIAL, Tokens(v)[..k]) == Some(w)
  }

  /** The io.Writer: the n-th Write goes well, or takes only so much of its text and fails. */
  type Sink = nat -> Option<nat>

  predicate Accepts(sink: Sink, from: nat, to: nat) {
    forall i :: from <= i < to ==> sink(i).None?
  }

  function Taken(text: string, limit: Option<nat>): string {
    if limit.Some? && limit.value < |text| then text[..limit.value] else text
  }

  /**
   * With an io.Writer that accepts everything: the step. When a write fails: an error, the place in the tree is
   * nevertheless that of the step, and what came out is a prefix of what should have.
   */
  predicate Performs(before: Writer, step: (Outcome, Writer), r: Outcome, after: Writer, accepted: bool) {
    && (if accepted then (r, after) == step else r == Error)
    && after.state == step.1.state && after.indent == step.1.indent && after.path == step.1.path
    && before.out <= after.out <= step.1.out
  }

  class JSONStreamWriter {
    var out: string
    var indent: string
    var state: string
    var deferred: string
    var path: seq<string>
    /** How many times the io.Writer was called. */
    var writes: nat
    const sink: Sink

    ghost function View(): Writer
      reads this
    {
      Writer(out, indent, state, deferred, path)
    }

    constructor (sink: Sink)
      ensures View() == INITIAL && writes == 0 && this.sink == sink
    {
      out, indent, state, deferred, path := "", "", "", "", [];
      writes := 0;
      this.sink := sink;
    }

    /** At any point of the stream of any tree: the names of the fields that enclose this point of the tree. */
    method Path() returns (p: string)
      ensures forall v: Value, k: nat :: IsAfter(View(), v, k) ==> p == Join(PlaceIn(v, k).names, ".")
    {
      p := Join(path, ".");
      forall v: Value, k: nat | IsAfter(View(), v, k) ensures p == Join(PlaceIn(v, k).names, ".") {
        EveryPrefixKeepsPlace(v, k);
      }
    }

    method Write(s: string) returns (ok: bool)
      modifies `out, `writes
      ensures writes == old(writes) + 1 && (ok <==> sink(old(writes)).None?)
      ensures out == old(out) + Taken(s, sink(old(writes)))
    {
      var limit := sink(writes);
      out := out + Taken(s, limit);
      writes := writes + 1;
      return limit.None?;
    }

    /** Deferred text comes out first; when a write fails, what came out is a prefix of what should have. */
    method WriteRaw(s: string) returns (ok: bool)
      modifies `out, `deferred, `writes
      ensures old(writes) < writes && (ok <==> Accepts(sink, old(writes), writes))
      ensures ok ==> View() == Raw(old(View()), s)
      ensures old(out) <= out <= Raw(old(View()), s).out
    {
      if deferred != "" {
        ok := Write(deferred);
        if !ok {
          return false;
        }
        deferred := "";
      }
      ok := Write(s);
    }

    /** The part of WriteToken that comes before any output of a delimiter. */
    method ShiftTo(c: char)
      requires (Opening(c) || Closing(c)) && Defined(View(), Delim(c))
      modifies `indent, `state, `path, `deferred
      ensures View() == Shift(old(View()), c)
    {
      if c == '{' || c == '[' {
        indent := indent + "  ";
        state := state + [c];
      } else {
        indent := indent[..|indent| - 2];
        state := state[..|state| - 1];
        if state != "" && state[|state| - 1] == 'F' {
          state := state[..|state| - 1];
          path := path[..|path| - 1];
        }
        if deferred == ",\n" {
          deferred := "\n";
        }
      }
    }

    method WriteDelim(c: char) returns (r: Outcome)
      requires Defined(View(), Delim(c))
      modifies this
      ensures old(writes) <= writes
      ensures Performs(old(View()), StepDelim(old(View()), c), r, View(), Accepts(sink, old(writes), writes))
    {
      var top, ind := Top(state), indent;
      if !(c == '{' || c == '[' || c == ']' || c == '}') {
        return Error;
      }
      ShiftTo(c);
      if c == ']' || c == '}' {
        ind := indent;
      }
      var ok;
      if top == '\0' || top == '{' || top == '[' {
        ok := WriteRaw(ind + [c]);
      } else if top == 'F' {
        ok := WriteRaw([c]);
      } else {
        return Error;
      }
      if !ok {
        return Error;
      }
      deferred := if c == '{' || c == '[' then "\n" else ",\n";
      return Ok;
    }

    method WriteScalar(v: Scalar) returns (r: Outcome)
      requires Defined(View(), Lit(v))
      modifies this
      ensures old(writes) <= writes
      ensures Performs(old(View()), StepScalar(old(View()), v), r, View(), Accepts(sink, old(writes), writes))
    {
      var top := Top(state);
      var ok;
      if top == '{' {
        state := state + "F";
        path := path + [PathText(v)];
        ok := WriteRaw(indent + ScalarText(v) + ": ");
        return if ok then Ok else Error;
      } else if top == '[' {
        ok := WriteRaw(indent + ScalarText(v));
      } else if top == 'F' {
        state := state[..|state| - 1];
        path := path[..|path| - 1];
        ok := WriteRaw(ScalarText(v));
      } else {
        return Error;
      }
      if !ok {
        return Error;
      }
      deferred := ",\n";
      return Ok;
    }

    /** The step of the specification, as far as the io.Writer accepts it. */
    method WriteToken(token: Token) returns (r: Outcome)
      requires Defined(View(), token)
      modifies this
      ensures old(writes) <= writes
      ensures Performs(old(View()), Step(old(View()), token), r, View(), Accepts(sink, old(writes), writes))
    {
      match token
      case Delim(c) => r := WriteDelim(c);
      case Lit(v) => r := WriteScalar(v);
      case Unknown => r := Error;
    }
  }

  // ----- JSON trees, their token streams and their layout

  datatype Value = Leaf(v: Scalar) | Arr(items: Items) | Obj(fields: Fields)
  datatype Items = NoItems | Item(head: Value, tail: Items)
  datatype Fields = NoFields | Field(name: string, value: Value, rest: Fields)

  function Tokens(v: Value): seq<Token> {
    match v
    case Leaf(x) => [Lit(x)]
    case Arr(items) => [Delim('[')] + ItemTokens(items) + [Delim(']')]
    case Obj(fields) => [Delim('{')] + FieldTokens(fields) + [Delim('}')]
  }

  function ItemTokens(items: Items): seq<Token> {
    match items
    case NoItems => []
    case Item(head, tail) => Tokens(head) + ItemTokens(tail)
  }

  function FieldTokens(fields: Fields): seq<Token> {
    match fields
    case NoFields => []
    case Field(name, value, rest) => [Lit(Str(name))] + Tokens(value) + FieldTokens(rest)
  }

  /** The layout: two spaces per level, one element per line, commas only between elements. */
  function Pretty(v: Value, indent: string): string {
    match v
    case Leaf(x) => ScalarText(x)
    case Arr(items) => "[" + PrettyItems(items, indent + "  ", "\n") + "\n" + indent + "]"
    case Obj(fields) => "{" + PrettyFields(fields, indent + "  ", "\n") + "\n" + indent + "}"
  }

  function PrettyItems(items: Items, indent: string, sep: string): string {
    match items
    case NoItems => ""
    case Item(head, tail) => sep + indent + Pretty(head, indent) + PrettyItems(tail, indent, ",\n")
  }

  function PrettyFields(fields: Fields, indent: string, sep: string): string {
    match fields
    case NoFields => ""
    case Field(name, value, rest) =>
      sep + indent + "\"" + name + "\": " + Pretty(value, indent) + PrettyFields(rest, indent, ",\n")
  }

  // ----- Whole runs

  /** Feeds the tokens in order; None when one of them is refused. */
  function Feed(w: Writer, ts: seq<Token>): Option<Writer>
    decreases |ts|
  {
    if ts == [] then Some(w)
    else if !Defined(w, ts[0]) then None
    else
      var (r, next) := Step(w, ts[0]);
      if r == Error then None else Feed(next, ts[1..])
  }

  lemma {:induction false} FeedAppend(w: Writer, a: seq<Token>, b: seq<Token>)
    ensures Feed(w, a + b) == (var r := Feed(w, a); if r.None? then None else Feed(r.value, b))
    decreases |a|
  {
    if a == [] {
      assert a + b == b;
    } else {
      assert (a + b)[1..] == a[1..] + b;
      if Defined(w, a[0]) && Step(w, a[0]).0.Ok? {
        FeedAppend(Step(w, a[0]).1, a[1..], b);
      }
    }
  }

  lemma FeedOne(w: Writer, t: Token, ts: seq<Token>)
    requires Defined(w, t) && Step(w, t).0.Ok?
    ensures Feed(w, [t] + ts) == Feed(Step(w, t).1, ts)
  {
    assert ([t] + ts)[1..] == ts;
  }

  /** A position where a value may be written: top level, an array, or after a field name. */
  predicate ValuePosition(w: Writer, v: Value) {
    var top := Top(w.state);
    top == '[' || (top == 'F' && |w.path| >= 1) || (w.state == "" && !v.Leaf?)
  }

  /** What is left of the writer once a whole value has been written. */
  function AfterValue(w: Writer, v: Value): Writer {
    var text := Pretty(v, w.indent);
    if Top(w.state) == 'F' then
      Writer(w.out + w.deferred + text, w.indent, Front(w.state), ",\n", Front(w.path))
    else
      w.(out := w.out + w.deferred + (w.indent + text), deferred := ",\n")
  }

  function AfterItems(w: Writer, items: Items): Writer {
    w.(out := w.out + PrettyItems(items, w.indent, w.deferred),
       deferred := if items.NoItems? then w.deferred else ",\n")
  }

  function AfterFields(w: Writer, fields: Fields): Writer {
    w.(out := w.out + PrettyFields(fields, w.indent, w.deferred),
       deferred := if fields.NoFields? then w.deferred else ",\n")
  }

  lemma Regroup(a: string, b: string, c: string, d: string, e: string, f: string, g: string)
    ensures a + (b + c) + d + e + (f + g) == a + (b + (c + d + e + f + g))
  {
  }

  lemma RegroupItem(out: string, sep: string, indent: string, text: string, rest: string)
    ensures out + sep + (indent + text) + rest == out + (sep + indent + text + rest)
  {
  }

  lemma RegroupField(out: string, sep: string, indent: string, name: string, text: string, rest: string)
    ensures out + sep + (indent + ("\"" + name + "\"") + ": ") + "" + text + rest
         == out + (sep + indent + "\"" + name + "\": " + text + rest)
  {
    var key := "\"" + name + "\"" + ": ";
    assert key == "\"" + name + "\": ";
    assert indent + ("\"" + name + "\"") + ": " == indent + key;
    assert sep + indent + "\"" + name + "\": " == sep + (indent + key);
    RegroupItem(out, sep, indent, key, text + rest);
  }

  function Partner(c: char): char { if c == '[' then ']' else '}' }

  /** The writer just after an opening bracket. */
  function Begin(w: Writer, c: char): Writer
    requires Opening(c)
  {
    Step(w, Delim(c)).1
  }

  /** The bracket that closes a block takes the writer back to where the block began. */
  lemma CloseShifts(w: Writer, inner: Writer, c: char)
    requires Opening(c) && inner.state == w.state + [c] && inner.path == w.path && inner.indent == w.indent + "  "
    requires inner.deferred == "\n" || inner.deferred == ",\n"
    requires Top(w.state) == 'F' ==> w.path != []
    ensures Defined(inner, Delim(Partner(c)))
    ensures var atField := Top(w.state) == 'F';
            var closed := Writer(inner.out + "\n" + (w.indent + [Partner(c)]), w.indent,
                                 if atField then Front(w.state) else w.state, ",\n",
                                 if atField then Front(w.path) else w.path);
            Step(inner, Delim(Partner(c))) == (Ok, closed)
  {
    assert Front(inner.state) == w.state;
    assert inner.indent[..|inner.indent| - 2] == w.indent;
  }

  lemma CloseBlock(w: Writer, inner: Writer, c: char, body: string, v: Value)
    requires Opening(c) && ValuePosition(w, v)
    requires inner == Begin(w, c).(out := Begin(w, c).out + body, deferred := inner.deferred)
    requires inner.deferred == "\n" || inner.deferred == ",\n"
    requires Pretty(v, w.indent) == [c] + body + "\n" + w.indent + [Partner(c)]
    ensures Defined(inner, Delim(Partner(c))) && Step(inner, Delim(Partner(c))) == (Ok, AfterValue(w, v))
  {
    CloseShifts(w, inner, c);
    var lead := if Top(w.state) == 'F' then "" else w.indent;
    assert Top(w.state) == 'F' ==> lead + [c] == [c];
    assert Begin(w, c).out == w.out + w.deferred + (lead + [c]);
    Regroup(w.out + w.deferred, lead, [c], body, "\n", w.indent, [Partner(c)]);
    assert Top(w.state) == 'F' ==> lead + Pretty(v, w.indent) == Pretty(v, w.indent);
  }

  lemma FeedBlock(w: Writer, inner: Writer, c: char, content: seq<Token>, body: string, v: Value)
    requires Opening(c) && ValuePosition(w, v)
    requires inner == Begin(w, c).(out := Begin(w, c).out + body, deferred := inner.deferred)
    requires inner.deferred == "\n" || inner.deferred == ",\n"
    requires Pretty(v, w.indent) == [c] + body + "\n" + w.indent + [Partner(c)]
    requires Feed(Begin(w, c), content) == Some(inner)
    ensures Feed(w, [Delim(c)] + content + [Delim(Partner(c))]) == Some(AfterValue(w, v))
  {
    var close := Delim(Partner(c));
    assert [Delim(c)] + content + [close] == [Delim(c)] + (content + [close]);
    FeedOne(w, Delim(c), content + [close]);
    FeedAppend(Begin(w, c), content, [close]);
    CloseBlock(w, inner, c, body, v);
    FeedOne(inner, close, []);
    assert [close] + [] == [close];
  }

  lemma {:induction false} FeedValue(w: Writer, v: Value)
    requires ValuePosition(w, v)
    ensures Feed(w, Tokens(v)) == Some(AfterValue(w, v))
    decreases v, 1
  {
    match v
    case Leaf(x) =>
      FeedOne(w, Lit(x), []);
      assert Tokens(v) == [Lit(x)] + [];
    case Arr(items) =>
      FeedItems(Begin(w, '['), items);
      var body := PrettyItems(items, w.indent + "  ", "\n");
      FeedBlock(w, AfterItems(Begin(w, '['), items), '[', ItemTokens(items), body, v);
    case Obj(fields) =>
      FeedFields(Begin(w, '{'), fields);
      var body := PrettyFields(fields, w.indent + "  ", "\n");
      FeedBlock(w, AfterFields(Begin(w, '{'), fields), '{', FieldTokens(fields), body, v);
  }

  lemma {:induction false} FeedItems(w: Writer, items: Items)
    requires Top(w.state) == '['
    ensures Feed(w, ItemTokens(items)) == Some(AfterItems(w, items))
    decreases items, 0
  {
    match items
    case NoItems =>
      assert AfterItems(w, items) == w;
    case Item(head, tail) =>
      FeedAppend(w, Tokens(head), ItemTokens(tail));
      FeedValue(w, head);
      FeedItems(AfterValue(w, head), tail);
      RegroupItem(w.out, w.deferred, w.indent, Pretty(head, w.indent), PrettyItems(tail, w.indent, ",\n"));
      assert AfterItems(AfterValue(w, head), tail) == AfterItems(w, items);
  }

  lemma {:induction false} FeedFields(w: Writer, fields: Fields)
    requires Top(w.state) == '{'
    ensures Feed(w, FieldTokens(fields)) == Some(AfterFields(w, fields))
    decreases fields, 0
  {
    match fields
    case NoFields =>
      assert AfterFields(w, fields) == w;
    case Field(name, value, rest) =>
      var named := Step(w, Lit(Str(name))).1;
      FeedOne(w, Lit(Str(name)), Tokens(value) + FieldTokens(rest));
      assert FieldTokens(fields) == [Lit(Str(name))] + (Tokens(value) + FieldTokens(rest));
      FeedAppend(named, Tokens(value), FieldTokens(rest));
      FeedValue(named, value);
      var written := AfterValue(named, value);
      assert written.state == w.state && written.path == w.path;
      FeedFields(written, rest);
      RegroupField(w.out, w.deferred, w.indent, name, Pretty(value, w.indent), PrettyFields(rest, w.indent, ",\n"));
      assert AfterFields(written, rest) == AfterFields(w, fields);
  }

  /** Feeding the stream of any object or array prints exactly its layout and returns the writer to rest. */
  lemma WriterPrintsTheLayout(v: Value)
    requires !v.Leaf?
    ensures Feed(INITIAL, Tokens(v)) == Some(INITIAL.(out := Pretty(v, ""), deferred := ",\n"))
  {
    FeedValue(INITIAL, v);
    assert AfterValue(INITIAL, v).out == Pretty(v, "");
  }

  /** A scalar on its own is refused. */
  lemma TopLevelScalarIsRefused(x: Scalar)
    ensures Feed(INITIAL, Tokens(Leaf(x))) == None
  {
  }

  // ----- Every prefix of a run

  /**
   * A bracket is accepted wherever the writer is in its own states, and a scalar inside a bracket or after a name;
   * everything else is refused, and what is refused writes nothing.
   */
  lemma RefusedIff(w: Writer, t: Token)
    requires Defined(w, t)
    ensures Step(w, t).0.Ok? <==>
            var inside := w.state != "" && w.state[|w.state| - 1] in {'{', '[', 'F'};
            match t
            case Delim(c) => c in {'{', '}', '[', ']'} && (w.state == "" || inside || w.state[|w.state| - 1] == '\0')
            case Lit(_) => inside
            case Unknown => false
    ensures Step(w, t).0.Error? ==> Step(w, t).1.out == w.out
  {
  }

  /** What encloses a point of a token stream: open brackets and pending fields, and the names of those fields. */
  datatype Place = Place(stack: string, names: seq<string>)

  const NOWHERE := Place("", [])

  function Inside(mark: string, names: seq<string>, p: Place): Place {
    Place(mark + p.stack, names + p.names)
  }

  /** The place reached after k tokens of v, read off the tree. */
  function PlaceIn(v: Value, k: nat): Place {
    if v.Leaf? || k == 0 || k >= |Tokens(v)| then NOWHERE
    else if v.Arr? then Inside("[", [], PlaceInItems(v.items, k - 1))
    else Inside("{", [], PlaceInFields(v.fields, k - 1))
  }

  function PlaceInItems(items: Items, k: nat): Place {
    match items
    case NoItems => NOWHERE
    case Item(head, tail) =>
      if k < |Tokens(head)| then PlaceIn(head, k) else PlaceInItems(tail, k - |Tokens(head)|)
  }

  function PlaceInFields(fields: Fields, k: nat): Place {
    match fields
    case NoFields => NOWHERE
    case Field(name, value, rest) =>
      if k == 0 then NOWHERE
      else if k <= |Tokens(value)| then Inside("F", [name], PlaceIn(value, k - 1))
      else PlaceInFields(rest, k - 1 - |Tokens(value)|)
  }

  function Brackets(stack: string): nat {
    if stack == "" then 0 else (if stack[0] == 'F' then 0 else 1) + Brackets(stack[1..])
  }

  function Pending(stack: string): nat {
    if stack == "" then 0 else (if stack[0] == 'F' then 1 else 0) + Pending(stack[1..])
  }

  function Spaces(n: nat): string {
    if n == 0 then "" else " " + Spaces(n - 1)
  }

  /** Every F sits directly on a '{', and nothing but brackets and F occurs. */
  predicate Stacked(stack: string) {
    forall i :: 0 <= i < |stack| ==> StackedAt(stack, i)
  }

  predicate StackedAt(stack: string, i: nat)
    requires i < |stack|
  {
    stack[i] == '[' || stack[i] == '{' || (stack[i] == 'F' && i > 0 && stack[i - 1] == '{')
  }

  predicate At(w: Writer, r: Option<Writer>, p: Place) {
    r.Some? && r.value.state == w.state + p.stack && r.value.path == w.path + p.names
    && r.value.indent == w.indent + Spaces(2 * Brackets(p.stack))
  }

  lemma AtNowhere(w: Writer, x: Writer)
    requires x.state == w.state && x.path == w.path && x.indent == w.indent
    ensures At(w, Some(x), NOWHERE)
  {
  }

  lemma AtInside(w: Writer, x: Writer, r: Option<Writer>, mark: char, names: seq<string>, p: Place)
    requires x.state == w.state + [mark] && x.path == w.path + names
    requires x.indent == w.indent + (if mark == 'F' then "" else "  ")
    requires At(x, r, p)
    ensures At(w, r, Inside([mark], names, p))
  {
    Assoc(w.state, [mark], p.stack);
    Assoc(w.path, names, p.names);
    assert ([mark] + p.stack)[1..] == p.stack;
    var n := 2 * Brackets(p.stack);
    if mark == 'F' {
      assert x.indent == w.indent;
    } else {
      SpacesMore(n);
      Assoc(w.indent, "  ", Spaces(n));
    }
  }

  lemma SpacesMore(n: nat)
    ensures Spaces(n + 2) == "  " + Spaces(n)
  {
    assert Spaces(n + 2) == " " + (" " + Spaces(n));
  }

  lemma PrefixOfBlock(w: Writer, c: char, content: seq<Token>, k: nat, p: Place)
    requires Opening(c) && Defined(w, Delim(c)) && Step(w, Delim(c)).0.Ok?
    requires 1 <= k <= |content| + 1
    requires At(Begin(w, c), Feed(Begin(w, c), content[..k - 1]), p)
    ensures At(w, Feed(w, ([Delim(c)] + content + [Delim(Partner(c))])[..k]), Inside([c], [], p))
  {
    assert ([Delim(c)] + content + [Delim(Partner(c))])[..k] == [Delim(c)] + content[..k - 1];
    FeedOne(w, Delim(c), content[..k - 1]);
    AtInside(w, Begin(w, c), Feed(Begin(w, c), content[..k - 1]), c, [], p);
  }

  lemma {:induction false} PrefixOfValue(w: Writer, v: Value, k: nat)
    requires ValuePosition(w, v) && k < |Tokens(v)|
    ensures At(w, Feed(w, Tokens(v)[..k]), PlaceIn(v, k))
    decreases v, 1
  {
    if k == 0 {
      AtNowhere(w, w);
    } else if v.Arr? {
      PrefixOfItems(Begin(w, '['), v.items, k - 1);
      PrefixOfBlock(w, '[', ItemTokens(v.items), k, PlaceInItems(v.items, k - 1));
    } else {
      PrefixOfFields(Begin(w, '{'), v.fields, k - 1);
      PrefixOfBlock(w, '{', FieldTokens(v.fields), k, PlaceInFields(v.fields, k - 1));
    }
  }

  lemma PrefixPastItem(w: Writer, head: Value, more: seq<Token>, n: nat, p: Place)
    requires Top(w.state) == '[' && n <= |more|
    requires At(AfterValue(w, head), Feed(AfterValue(w, head), more[..n]), p)
    ensures At(w, Feed(w, (Tokens(head) + more)[..|Tokens(head)| + n]), p)
  {
    assert (Tokens(head) + more)[..|Tokens(head)| + n] == Tokens(head) + more[..n];
    FeedAppend(w, Tokens(head), more[..n]);
    FeedValue(w, head);
  }

  lemma {:induction false} PrefixOfItems(w: Writer, items: Items, k: nat)
    requires Top(w.state) == '[' && k <= |ItemTokens(items)|
    ensures At(w, Feed(w, ItemTokens(items)[..k]), PlaceInItems(items, k))
    decreases items, 0
  {
    match items
    case NoItems =>
      AtNowhere(w, w);
    case Item(head, tail) =>
      var first, ts := Tokens(head), ItemTokens(items);
      if k < |first| {
        assert ts[..k] == first[..k];
        PrefixOfValue(w, head, k);
      } else {
        PrefixOfItems(AfterValue(w, head), tail, k - |first|);
        PrefixPastItem(w, head, ItemTokens(tail), k - |first|, PlaceInItems(tail, k - |first|));
      }
  }

  /** Inside the first field. */
  lemma PrefixInField(w: Writer, name: string, value: Value, more: seq<Token>, k: nat)
    requires Top(w.state) == '{' && 1 <= k <= |Tokens(value)|
    requires At(Named(w, name), Feed(Named(w, name), Tokens(value)[..k - 1]), PlaceIn(value, k - 1))
    ensures At(w, Feed(w, ([Lit(Str(name))] + Tokens(value) + more)[..k]), Inside("F", [name], PlaceIn(value, k - 1)))
  {
    var key, first := Lit(Str(name)), Tokens(value);
    assert ([key] + first + more)[..k] == [key] + first[..k - 1];
    FeedOne(w, key, first[..k - 1]);
    AtInside(w, Named(w, name), Feed(Named(w, name), first[..k - 1]), 'F', [name], PlaceIn(value, k - 1));
  }

  lemma FieldTokensUpTo(key: Token, first: seq<Token>, more: seq<Token>, n: nat)
    requires n <= |more|
    ensures ([key] + first + more)[..1 + |first| + n] == [key] + (first + more[..n])
  {
  }

  lemma FieldRestores(w: Writer, name: string, value: Value)
    requires Top(w.state) == '{'
    ensures var next := AfterValue(Named(w, name), value);
            next.state == w.state && next.path == w.path && next.indent == w.indent
  {
    var w' := Named(w, name);
    assert Front(w'.state) == w.state && Front(w'.path) == w.path;
  }

  /** A whole field, and what follows it. */
  lemma FeedField(w: Writer, name: string, value: Value, more: seq<Token>)
    requires Top(w.state) == '{'
    ensures Feed(w, [Lit(Str(name))] + (Tokens(value) + more)) == Feed(AfterValue(Named(w, name), value), more)
  {
    FeedOne(w, Lit(Str(name)), Tokens(value) + more);
    FeedAppend(Named(w, name), Tokens(value), more);
    FeedValue(Named(w, name), value);
  }

  /** Past the first field. */
  lemma FeedPastField(w: Writer, name: string, value: Value, more: seq<Token>, n: nat)
    requires Top(w.state) == '{' && n <= |more|
    ensures Feed(w, ([Lit(Str(name))] + Tokens(value) + more)[..1 + |Tokens(value)| + n])
         == Feed(AfterValue(Named(w, name), value), more[..n])
  {
    FieldTokensUpTo(Lit(Str(name)), Tokens(value), more, n);
    FeedField(w, name, value, more[..n]);
  }

  lemma PrefixPastField(w: Writer, name: string, value: Value, more: seq<Token>, n: nat, p: Place)
    requires Top(w.state) == '{' && n <= |more|
    requires var next := AfterValue(Named(w, name), value); At(next, Feed(next, more[..n]), p)
    ensures At(w, Feed(w, ([Lit(Str(name))] + Tokens(value) + more)[..1 + |Tokens(value)| + n]), p)
  {
    FeedPastField(w, name, value, more, n);
    FieldRestores(w, name, value);
  }

  /** The writer just after a field name. */
  function Named(w: Writer, name: string): (r: Writer)
    requires Top(w.state) == '{'
    ensures r.state == w.state + "F" && r.path == w.path + [name] && r.indent == w.indent
  {
    Step(w, Lit(Str(name))).1
  }

  lemma {:induction false} PrefixOfFields(w: Writer, fields: Fields, k: nat)
    requires Top(w.state) == '{' && k <= |FieldTokens(fields)|
    ensures At(w, Feed(w, FieldTokens(fields)[..k]), PlaceInFields(fields, k))
    decreases fields, 0
  {
    if k == 0 || fields.NoFields? {
      AtNowhere(w, w);
    } else {
      var Field(name, value, rest) := fields;
      var n := k - 1 - |Tokens(value)|;
      assert FieldTokens(fields) == [Lit(Str(name))] + Tokens(value) + FieldTokens(rest);
      if n < 0 {
        assert PlaceInFields(fields, k) == Inside("F", [name], PlaceIn(value, k - 1));
        PrefixOfValue(Named(w, name), value, k - 1);
        PrefixInField(w, name, value, FieldTokens(rest), k);
      } else {
        assert PlaceInFields(fields, k) == PlaceInFields(rest, n);
        FieldRestores(w, name, value);
        PrefixOfFields(AfterValue(Named(w, name), value), rest, n);
        PrefixPastField(w, name, value, FieldTokens(rest), n, PlaceInFields(rest, n));
      }
    }
  }

  lemma StackedAppend(a: string, b: string)
    requires Stacked(a) && Stacked(b)
    ensures Stacked(a + b)
  {
    forall i | 0 <= i < |a| + |b|
      ensures StackedAt(a + b, i)
    {
      if i < |a| { assert StackedAt(a, i); } else { assert StackedAt(b, i - |a|); }
    }
  }

  lemma StackedInField(stack: string)
    requires Stacked(stack)
    ensures Stacked("{" + ("F" + stack)) && Pending("F" + stack) == 1 + Pending(stack)
  {
    assert ("F" + stack)[1..] == stack;
    StackedAppend("{F", stack);
    assert "{F" + stack == "{" + ("F" + stack);
  }

  lemma {:induction false} PlaceIsStacked(v: Value, k: nat)
    ensures var p := PlaceIn(v, k); Stacked(p.stack) && Pending(p.stack) == |p.names|
    decreases v, 1
  {
    if v.Arr? && 0 < k < |Tokens(v)| {
      ItemPlaceIsStacked(v.items, k - 1);
      var p := PlaceInItems(v.items, k - 1);
      assert ("[" + p.stack)[1..] == p.stack;
      StackedAppend("[", p.stack);
    } else if v.Obj? && 0 < k < |Tokens(v)| {
      FieldPlaceIsStacked(v.fields, k - 1);
      var p := PlaceInFields(v.fields, k - 1);
      assert ("{" + p.stack)[1..] == p.stack;
    }
  }

  lemma {:induction false} ItemPlaceIsStacked(items: Items, k: nat)
    ensures var p := PlaceInItems(items, k); Stacked(p.stack) && Pending(p.stack) == |p.names|
    decreases items, 0
  {
    match items
    case NoItems =>
    case Item(head, tail) =>
      if k < |Tokens(head)| { PlaceIsStacked(head, k); } else { ItemPlaceIsStacked(tail, k - |Tokens(head)|); }
  }

  lemma {:induction false} FieldPlaceIsStacked(fields: Fields, k: nat)
    ensures var p := PlaceInFields(fields, k); Stacked("{" + p.stack) && Pending(p.stack) == |p.names|
    decreases fields, 0
  {
    match fields
    case NoFields =>
    case Field(name, value, rest) =>
      if 0 < k <= |Tokens(value)| {
        PlaceIsStacked(value, k - 1);
        StackedInField(PlaceIn(value, k - 1).stack);
      } else if k > |Tokens(value)| {
        FieldPlaceIsStacked(rest, k - 1 - |Tokens(value)|);
      }
  }

  /**
   * After every prefix of the stream of an object or array: the stack and the path are the ones the tree
   * dictates, the indent is two spaces per open bracket, there is one name per pending field, and every
   * pending field sits directly on a '{'.
   */
  lemma EveryPrefixKeepsPlace(v: Value, k: nat)
    requires !v.Leaf? && k <= |Tokens(v)|
    ensures var r, p := Feed(INITIAL, Tokens(v)[..k]), PlaceIn(v, k);
            && r.Some?
            && r.value.state == p.stack
            && r.value.path == p.names
            && r.value.indent == Spaces(2 * Brackets(r.value.state))
            && |r.value.path| == Pending(r.value.state)
            && Stacked(r.value.state)
  {
    PlaceIsStacked(v, k);
    if k < |Tokens(v)| {
      PrefixOfValue(INITIAL, v, k);
    } else {
      assert Tokens(v)[..k] == Tokens(v);
      WriterPrintsTheLayout(v);
    }
  }
}
