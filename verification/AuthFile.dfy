/** federation/auth_file.go: a credentials file of lines "secret,user,role". */
module AuthFile {
  import opened Prelude
  import opened Text

  datatype Line = Line(user: string, secret: string, role: string)

  datatype Result<T> = Ok(value: T) | Err

  // ----- Parsing and printing

  /** ParseAuthFileLine */
  function ParseLine(line: string): Result<Line> {
    var tokens := Split(line, ',');
    if |tokens| != 3 then Err else Ok(Line(tokens[1], tokens[0], tokens[2]))
  }

  function ParseParts(parts: seq<string>): Result<seq<Line>> {
    if parts == [] then Ok([])
    else
      var line := TrimSpace(parts[0]);
      if line == "" then ParseParts(parts[1..])
      else if ParseLine(line).Err? then Err
      else Prepend([ParseLine(line).value], ParseParts(parts[1..]))
  }

  function Prepend(lines: seq<Line>, r: Result<seq<Line>>): Result<seq<Line>> {
    match r
    case Err => Err
    case Ok(rest) => Ok(lines + rest)
  }

  function Parse(data: string): Result<seq<Line>> { ParseParts(Split(data, '\n')) }

  function LineText(l: Line): string { l.secret + "," + (l.user + "," + l.role) }

  function Encode(lines: seq<Line>): string {
    if lines == [] then "" else LineText(lines[0]) + "\n" + Encode(lines[1..])
  }

  /** The lines that survive printing and parsing. */
  predicate Clean(l: Line) {
    && Plain(l.secret) && Plain(l.user) && Plain(l.role)
    && (l.secret != "" ==> !IsSpace(l.secret[0]))
    && (l.role != "" ==> !IsSpace(l.role[|l.role| - 1]))
  }

  predicate Plain(field: string) { ',' !in field && '\n' !in field }

  predicate AllClean(lines: seq<Line>) { forall i :: 0 <= i < |lines| ==> Clean(lines[i]) }

  // ----- Clean lines read back

  lemma LineTokens(l: Line)
    requires ',' !in l.secret && ',' !in l.user && ',' !in l.role
    ensures Split(LineText(l), ',') == [l.secret, l.user, l.role]
  {
    SplitFree(l.role, ',');
    SplitPart(l.user, l.role, ',');
    SplitPart(l.secret, l.user + "," + l.role, ',');
  }

  lemma CleanLineIsTight(l: Line)
    requires Clean(l)
    ensures Tight(LineText(l)) && LineText(l) != "" && '\n' !in LineText(l)
  {
    var t := LineText(l);
    assert t[0] == (if l.secret == "" then ',' else l.secret[0]);
    assert t[|t| - 1] == (if l.role == "" then ',' else l.role[|l.role| - 1]);
  }

  lemma {:induction false} CleanReadsBack(lines: seq<Line>)
    requires AllClean(lines)
    ensures Parse(Encode(lines)) == Ok(lines)
  {
    if lines == [] {
      assert Split("", '\n') == [""];
      assert TrimSpace("") == "";
      assert ParseParts([""]) == ParseParts([]);
    } else {
      var t := LineText(lines[0]);
      var rest := Split(Encode(lines[1..]), '\n');
      CleanLineIsTight(lines[0]);
      TrimTight(t);
      LineTokens(lines[0]);
      SplitPart(t, Encode(lines[1..]), '\n');
      assert ([t] + rest)[1..] == rest;
      CleanReadsBack(lines[1..]);
      assert [lines[0]] + lines[1..] == lines;
    }
  }

  // ----- The parser yields nothing but clean lines

  lemma TokensMakeTheLine(line: string)
    requires |Split(line, ',')| == 3
    ensures ParseLine(line).Ok? && line == LineText(ParseLine(line).value)
    ensures var l := ParseLine(line).value; ',' !in l.secret && ',' !in l.user && ',' !in l.role
  {
    PartsAreFree(line, ',');
    var l := ParseLine(line).value;
    LineTokens(l);
    SplitIsInjective(line, LineText(l), ',');
  }

  lemma TightTextIsClean(l: Line)
    requires ',' !in l.secret && ',' !in l.user && ',' !in l.role
    requires Tight(LineText(l)) && '\n' !in LineText(l)
    ensures Clean(l)
  {
    var t := LineText(l);
    assert forall i :: 0 <= i < |l.secret| ==> l.secret[i] == t[i];
    assert forall i :: 0 <= i < |l.user| ==> l.user[i] == t[|l.secret| + 1 + i];
    assert forall i :: 0 <= i < |l.role| ==> l.role[i] == t[|l.secret| + 1 + |l.user| + 1 + i];
  }

  lemma ParsedLineIsClean(part: string)
    requires '\n' !in part && ParseLine(TrimSpace(part)).Ok?
    ensures Clean(ParseLine(TrimSpace(part)).value)
  {
    var line := TrimSpace(part);
    var before, after := TrimSpaceShape(part);
    assert forall i :: 0 <= i < |line| ==> line[i] == part[|before| + i];
    TokensMakeTheLine(line);
    TightTextIsClean(ParseLine(line).value);
  }

  lemma {:induction false} ParsedPartsAreClean(parts: seq<string>)
    requires forall i :: 0 <= i < |parts| ==> '\n' !in parts[i]
    requires ParseParts(parts).Ok?
    ensures AllClean(ParseParts(parts).value)
  {
    if parts != [] {
      ParsedPartsAreClean(parts[1..]);
      if TrimSpace(parts[0]) != "" {
        ParsedLineIsClean(parts[0]);
      }
    }
  }

  /** Whatever the file holds, the lines read from it are clean. */
  lemma ParsedIsClean(data: string)
    requires Parse(data).Ok?
    ensures AllClean(Parse(data).value)
  {
    PartsAreFree(data, '\n');
    ParsedPartsAreClean(Split(data, '\n'));
  }

  /** An encoded file reads back as the same lines exactly when every line is clean. */
  lemma ReadsBackIffClean(lines: seq<Line>)
    ensures Parse(Encode(lines)) == Ok(lines) <==> AllClean(lines)
  {
    if AllClean(lines) {
      CleanReadsBack(lines);
    } else if Parse(Encode(lines)) == Ok(lines) {
      ParsedIsClean(Encode(lines));
    }
  }

  /** Rewriting any file that parses is a normal form: a second rewrite changes nothing. */
  lemma RewriteSettles(data: string)
    requires Parse(data).Ok?
    ensures Parse(Encode(Parse(data).value)) == Parse(data)
  {
    ParsedIsClean(data);
    CleanReadsBack(Parse(data).value);
  }

  /** A secret with a space in front comes back without it. */
  lemma LeadingSpaceIsLost()
    ensures Parse(Encode([Line("admin", " x", "admin")])) != Ok([Line("admin", " x", "admin")])
  {
    var l := Line("admin", " x", "admin");
    assert IsSpace(l.secret[0]);
    assert !Clean([l][0]);
    ReadsBackIffClean([l]);
  }

  // ----- What parsing and printing do, line by line

  /** A line is its secret, its user and its role, in that order, between commas. */
  lemma {:induction false} EncodeIs(lines: seq<Line>, l: Line)
    ensures Encode([]) == ""
    ensures Encode(lines + [l]) == Encode(lines) + (l.secret + "," + l.user + "," + l.role + "\n")
  {
    assert LineText(l) == l.secret + "," + l.user + "," + l.role;
    if lines == [] {
      assert lines + [l] == [l] && [l][1..] == [];
      assert "" + (LineText(l) + "\n") == LineText(l) + "\n" + "";
    } else {
      assert (lines + [l])[1..] == lines[1..] + [l];
      EncodeIs(lines[1..], l);
      Assoc(LineText(lines[0]) + "\n", Encode(lines[1..]), LineText(l) + "\n");
    }
  }

  /** The lines that are not blank, without the white space around them. */
  function Visible(parts: seq<string>): seq<string> {
    if parts == [] then []
    else (if TrimSpace(parts[0]) == "" then [] else [TrimSpace(parts[0])]) + Visible(parts[1..])
  }

  predicate ThreeFields(line: string) { |Split(line, ',')| == 3 }

  predicate AllThreeFields(lines: seq<string>) { forall i :: 0 <= i < |lines| ==> ThreeFields(lines[i]) }

  lemma AllThreeFieldsCons(line: string, rest: seq<string>)
    ensures AllThreeFields([line] + rest) <==> ThreeFields(line) && AllThreeFields(rest)
  {
    var all := [line] + rest;
    assert all[0] == line;
    assert forall i :: 0 <= i < |rest| ==> rest[i] == all[i + 1];
  }

  function Texts(lines: seq<Line>): seq<string> {
    if lines == [] then [] else [LineText(lines[0])] + Texts(lines[1..])
  }

  lemma {:induction false} TextsAt(lines: seq<Line>, i: nat)
    requires i < |lines|
    ensures |Texts(lines)| == |lines| && Texts(lines)[i] == LineText(lines[i])
  {
    if |lines| > 1 {
      TextsAt(lines[1..], if i > 0 then i - 1 else 0);
    }
  }

  lemma PrependOne(l: Line, rest: Result<seq<Line>>)
    ensures Prepend([l], rest).Ok? <==> rest.Ok?
    ensures rest.Ok? ==> Texts(Prepend([l], rest).value) == [LineText(l)] + Texts(rest.value)
  {
    if rest.Ok? {
      assert ([l] + rest.value)[1..] == rest.value;
    }
  }

  lemma {:induction false} ParsePartsIs(parts: seq<string>)
    ensures ParseParts(parts).Ok? <==> AllThreeFields(Visible(parts))
    ensures ParseParts(parts).Ok? ==> Texts(ParseParts(parts).value) == Visible(parts)
  {
    if parts != [] {
      ParsePartsIs(parts[1..]);
      var line := TrimSpace(parts[0]);
      if line == "" {
        assert [] + Visible(parts[1..]) == Visible(parts[1..]);
      } else {
        AllThreeFieldsCons(line, Visible(parts[1..]));
        if ThreeFields(line) {
          TokensMakeTheLine(line);
          PrependOne(ParseLine(line).value, ParseParts(parts[1..]));
        }
      }
    }
  }

  /**
   * A file parses exactly when each line that is not blank has two commas; the parsed lines are then, in order, those
   * lines without the white space around them, as secret, user and role.
   */
  lemma ParseIs(data: string)
    ensures var visible := Visible(Split(data, '\n'));
            && (Parse(data).Ok? <==> AllThreeFields(visible))
            && (Parse(data).Ok? ==>
                  && |Parse(data).value| == |visible|
                  && forall i :: 0 <= i < |visible| ==>
                       var l := Parse(data).value[i]; visible[i] == l.secret + "," + (l.user + "," + l.role))
  {
    ParsePartsIs(Split(data, '\n'));
    if Parse(data).Ok? {
      var lines := Parse(data).value;
      if lines != [] {
        TextsAt(lines, 0);
      }
      forall i | 0 <= i < |lines| ensures Texts(lines)[i] == LineText(lines[i]) {
        TextsAt(lines, i);
      }
    }
  }

  // ----- The file as an object

  /** The first line of the user. */
  function Find(lines: seq<Line>, user: string): Option<Line> {
    if lines == [] then None else if lines[0].user == user then Some(lines[0]) else Find(lines[1..], user)
  }

  lemma {:induction false} FindIsFirst(lines: seq<Line>, user: string)
    ensures Find(lines, user).None? <==> forall i :: 0 <= i < |lines| ==> lines[i].user != user
    ensures Find(lines, user).Some? ==>
              exists i :: 0 <= i < |lines| && lines[i] == Find(lines, user).value && lines[i].user == user
                          && forall j :: 0 <= j < i ==> lines[j].user != user
  {
    if lines != [] {
      FindIsFirst(lines[1..], user);
      if lines[0].user != user && Find(lines[1..], user).Some? {
        var i :| 0 <= i < |lines[1..]| && lines[1..][i] == Find(lines[1..], user).value && lines[1..][i].user == user
                 && forall j :: 0 <= j < i ==> lines[1..][j].user != user;
        assert lines[i + 1] == Find(lines, user).value;
        assert forall j :: 0 <= j < i + 1 ==> lines[j].user != user by {
          forall j | 0 <= j < i + 1 ensures lines[j].user != user {
            assert j > 0 ==> lines[1..][j - 1] == lines[j];
          }
        }
      }
    }
  }

  /** Appending leaves a user that is there alone. */
  lemma {:induction false} FindAppend(lines: seq<Line>, more: seq<Line>, user: string)
    ensures Find(lines + more, user) == if Find(lines, user).Some? then Find(lines, user) else Find(more, user)
  {
    if lines == [] {
      assert lines + more == more;
    } else {
      assert (lines + more)[1..] == lines[1..] + more;
      FindAppend(lines[1..], more, user);
    }
  }

  class File {
    var lines: seq<Line>

    constructor ()
      ensures lines == []
    {
      lines := [];
    }

    method FindUser(user: string) returns (found: Option<Line>)
      ensures found == Find(lines, user)
    {
      var i := 0;
      while i < |lines|
        invariant 0 <= i <= |lines|
        invariant Find(lines[i..], user) == Find(lines, user)
      {
        if lines[i].user == user {
          return Some(lines[i]);
        }
        i := i + 1;
      }
      return None;
    }

    /** One line per user: a user that is there already is refused. */
    method Add(line: Line) returns (ok: bool)
      modifies this
      ensures ok <==> forall i :: 0 <= i < |old(lines)| ==> old(lines)[i].user != line.user
      ensures lines == if ok then old(lines) + [line] else old(lines)
    {
      FindIsFirst(lines, line.user);
      var existing := FindUser(line.user);
      if existing.Some? {
        return false;
      }
      lines := lines + [line];
      return true;
    }

    /** The text that Parse gives these lines back for, if they are clean. */
    method EncodeFile() returns (text: string)
      ensures text == Encode(lines)
      ensures Parse(text) == Ok(lines) <==> AllClean(lines)
    {
      text := "";
      var i := 0;
      while i < |lines|
        invariant 0 <= i <= |lines|
        invariant text + Encode(lines[i..]) == Encode(lines)
      {
        var l := lines[i];
        assert lines[i..][1..] == lines[i + 1..];
        Assoc(text, LineText(l) + "\n", Encode(lines[i + 1..]));
        text := text + (l.secret + "," + (l.user + "," + l.role) + "\n");
        i := i + 1;
      }
      ReadsBackIffClean(lines);
    }
  }

  lemma PrependTwice(a: seq<Line>, b: seq<Line>, r: Result<seq<Line>>)
    ensures Prepend(a, Prepend(b, r)) == Prepend(a + b, r)
  {
    if r.Ok? {
      Assoc(a, b, r.value);
    }
  }

  method ParseAuthFile(data: string) returns (r: Result<File>)
    ensures r.Ok? <==> Parse(data).Ok?
    ensures r.Ok? ==> fresh(r.value) && r.value.lines == Parse(data).value && AllClean(r.value.lines)
  {
    var parts := Split(data, '\n');
    var parsed := new File();
    assert parts[0..] == parts;
    assert Parse(data).Ok? ==> [] + Parse(data).value == Parse(data).value;
    var i := 0;
    while i < |parts|
      invariant 0 <= i <= |parts|
      invariant fresh(parsed)
      invariant Prepend(parsed.lines, ParseParts(parts[i..])) == Parse(data)
    {
      assert parts[i..][0] == parts[i] && parts[i..][1..] == parts[i + 1..];
      var line := TrimSpace(parts[i]);
      if line != "" {
        var parsedLine := ParseLine(line);
        if parsedLine.Err? {
          return Err;
        }
        PrependTwice(parsed.lines, [parsedLine.value], ParseParts(parts[i + 1..]));
        parsed.lines := parsed.lines + [parsedLine.value];
      }
      i := i + 1;
    }
    assert parsed.lines + [] == parsed.lines;
    ParsedIsClean(data);
    return Ok(parsed);
  }
}
