/** cmd/kops/edit_cluster.go: the comments of an edited file, and the header that the edit loop puts in front of it. */
module EditComments {
  import opened Prelude
  import opened Text

  /** A line whose first visible character is '#'. */
  predicate IsComment(line: string) {
    var t := TrimSpace(line);
    t != "" && t[0] == '#'
  }

  // ----- stripComments

  /** A line as it stands in the stripped text. */
  function Kept(line: string): string {
    if IsComment(line) then "" else line + "\n"
  }

  function StripParts(parts: seq<string>): string
    requires parts != []
  {
    if |parts| == 1 then (if IsComment(parts[0]) then "" else parts[0])
    else Kept(parts[0]) + StripParts(parts[1..])
  }

  function Strip(text: string): string { StripParts(Split(text, '\n')) }

  method StripComments(file: string) returns (stripped: string)
    ensures stripped == Strip(file)
  {
    stripped := "";
    var lines := Split(file, '\n');
    assert lines[0..] == lines;
    var i := 0;
    while i < |lines|
      invariant 0 <= i <= |lines|
      invariant i < |lines| ==> stripped + StripParts(lines[i..]) == Strip(file)
      invariant i == |lines| ==> stripped == Strip(file)
    {
      KeepNext(stripped, lines, i);
      var line := lines[i];
      if !IsComment(line) {
        stripped := stripped + line;
        if i < |lines| - 1 {
          stripped := stripped + "\n";
        }
      }
      i := i + 1;
    }
  }

  /** What the loop appends for one line. */
  lemma KeepNext(before: string, lines: seq<string>, i: nat)
    requires i < |lines|
    ensures i == |lines| - 1 ==>
              before + StripParts(lines[i..]) == if IsComment(lines[i]) then before else before + lines[i]
    ensures i < |lines| - 1 ==>
              before + StripParts(lines[i..])
              == (if IsComment(lines[i]) then before else before + lines[i] + "\n") + StripParts(lines[i + 1..])
  {
    if i < |lines| - 1 {
      assert lines[i..][1..] == lines[i + 1..];
      Assoc(before, Kept(lines[i]), StripParts(lines[i + 1..]));
      Assoc(before, lines[i], "\n");
      assert before + "" == before;
    } else {
      assert before + "" == before;
    }
  }

  lemma StripLine(line: string, rest: string)
    requires '\n' !in line
    ensures Strip(line + "\n" + rest) == Kept(line) + Strip(rest)
  {
    SplitPart(line, rest, '\n');
    assert ([line] + Split(rest, '\n'))[1..] == Split(rest, '\n');
  }

  lemma StripLast(line: string)
    requires '\n' !in line
    ensures Strip(line) == if IsComment(line) then "" else line
  {
    SplitFree(line, '\n');
  }

  /** The first line of a text that has more than one. */
  lemma {:induction false} FirstLine(text: string) returns (line: string, rest: string)
    requires '\n' in text
    ensures text == line + "\n" + rest && '\n' !in line
  {
    if text[0] == '\n' {
      line, rest := "", text[1..];
    } else {
      var l, r := FirstLine(text[1..]);
      line, rest := [text[0]] + l, r;
      assert text == [text[0]] + text[1..];
      assert text == [text[0]] + l + "\n" + r;
    }
  }

  /** Stripped text has no comment left to strip. */
  lemma {:induction false} StripIsIdempotent(text: string)
    ensures Strip(Strip(text)) == Strip(text)
    decreases |text|
  {
    if '\n' !in text {
      StripLast(text);
      StripLast(Strip(text));
    } else {
      var line, rest := FirstLine(text);
      StripLine(line, rest);
      StripIsIdempotent(rest);
      if IsComment(line) {
        assert "" + Strip(rest) == Strip(rest);
      } else {
        StripLine(line, Strip(rest));
      }
    }
  }

  lemma {:induction false} SpacesBeforeHash(line: string, i: nat)
    requires i < |line| && line[i] == '#' && AllSpace(line[..i])
    ensures IsComment(line)
  {
    if i == 0 {
      HashIsComment(line);
    } else {
      assert line[..i][0] == line[0];
      assert line[1..][..i - 1] == line[..i][1..];
      SpacesBeforeHash(line[1..], i - 1);
    }
  }

  /** A comment is a line with nothing but white space before a '#'. */
  lemma {:induction false} IsCommentIff(line: string)
    ensures IsComment(line) <==> exists i :: 0 <= i < |line| && line[i] == '#' && AllSpace(line[..i])
  {
    if IsComment(line) {
      var before, after := TrimSpaceShape(line);
      assert line[..|before|] == before && line[|before|] == TrimSpace(line)[0];
    } else if i :| 0 <= i < |line| && line[i] == '#' && AllSpace(line[..i]) {
      SpacesBeforeHash(line, i);
    }
  }

  function NotComments(lines: seq<string>): seq<string> {
    if lines == [] then [] else (if IsComment(lines[0]) then [] else [lines[0]]) + NotComments(lines[1..])
  }

  /** A line break that the last line, a comment, leaves behind. */
  function LeftBehind(lines: seq<string>): seq<string>
    requires lines != []
  {
    if IsComment(lines[|lines| - 1]) then [""] else []
  }

  lemma NotCommentsCons(line: string, rest: seq<string>)
    requires rest != []
    ensures NotComments([line] + rest) + LeftBehind([line] + rest)
         == (if IsComment(line) then [] else [line]) + (NotComments(rest) + LeftBehind(rest))
  {
    var lines := [line] + rest;
    assert lines[1..] == rest && lines[|lines| - 1] == rest[|rest| - 1];
    Assoc(if IsComment(line) then [] else [line], NotComments(rest), LeftBehind(rest));
  }

  lemma {:induction false} StrippedParts(parts: seq<string>)
    requires parts != [] && forall i :: 0 <= i < |parts| ==> '\n' !in parts[i]
    ensures Split(StripParts(parts), '\n') == NotComments(parts) + LeftBehind(parts)
  {
    var line := parts[0];
    if |parts| == 1 {
      SplitFree(line, '\n');
      assert parts[1..] == [];
    } else {
      var rest := parts[1..];
      assert parts == [line] + rest;
      StrippedParts(rest);
      NotCommentsCons(line, rest);
      if IsComment(line) {
        assert "" + StripParts(rest) == StripParts(rest);
        assert [] + (NotComments(rest) + LeftBehind(rest)) == NotComments(rest) + LeftBehind(rest);
      } else {
        SplitPart(line, StripParts(rest), '\n');
      }
    }
  }

  /**
   * The lines of the stripped text are the lines that are not comments, as they are and in order; where the last line
   * was a comment, the line break before it stays.
   */
  lemma {:induction false} StrippedLines(text: string)
    ensures Split(Strip(text), '\n') == NotComments(Split(text, '\n')) + LeftBehind(Split(text, '\n'))
  {
    PartsAreFree(text, '\n');
    StrippedParts(Split(text, '\n'));
  }

  // ----- Text put in front

  lemma Regroup(line: string, tail: string, rest: string)
    ensures line + "\n" + tail + "\n" + rest == line + "\n" + (tail + "\n" + rest)
    ensures line + "\n" + tail + "\n" == line + "\n" + (tail + "\n")
  {
  }

  /** Stripping works on what stands before a line break and on what stands after it separately. */
  lemma {:induction false} StripFront(front: string, rest: string)
    ensures Strip(front + "\n" + rest) == Strip(front + "\n") + Strip(rest)
    decreases |front|
  {
    assert Strip("") == "" by { StripLast(""); }
    if '\n' !in front {
      StripLine(front, rest);
      StripLine(front, "");
      assert front + "\n" + "" == front + "\n";
      assert Kept(front) + "" == Kept(front);
    } else {
      var line, tail := FirstLine(front);
      StripFront(tail, rest);
      Regroup(line, tail, rest);
      StripLine(line, tail + "\n" + rest);
      StripLine(line, tail + "\n");
      Assoc(Kept(line), Strip(tail + "\n"), Strip(rest));
    }
  }

  predicate AllComments(lines: seq<string>) { forall i :: 0 <= i < |lines| ==> IsComment(lines[i]) }

  /** Nothing of a text is left exactly when all its lines are comments. */
  lemma {:induction false} NothingLeftIff(front: string)
    ensures Strip(front + "\n") == "" <==> AllComments(Split(front, '\n'))
    decreases |front|
  {
    assert Strip("") == "" by { StripLast(""); }
    if '\n' !in front {
      StripLine(front, "");
      assert front + "\n" + "" == front + "\n";
      SplitFree(front, '\n');
      assert [front] == [front] + [];
      AllCommentsCons(front, []);
      assert Strip(front + "\n") == Kept(front);
    } else {
      var line, tail := FirstLine(front);
      NothingLeftIff(tail);
      SplitPart(line, tail, '\n');
      Regroup(line, tail, "");
      StripLine(line, tail + "\n");
      AllCommentsCons(line, Split(tail, '\n'));
    }
  }

  lemma AllCommentsCons(line: string, rest: seq<string>)
    ensures AllComments([line] + rest) <==> IsComment(line) && AllComments(rest)
  {
    var all := [line] + rest;
    assert all[0] == line && all[1..] == rest;
    assert forall i :: 0 <= i < |rest| ==> rest[i] == all[i + 1];
  }

  // ----- The header

  datatype Header = Header(errors: seq<string>, extraFields: seq<string>)

  const PLEASE_EDIT := "Please edit the object below."
  const COMMENTS_IGNORED := " Lines beginning with a '#' will be ignored,"
  const EMPTY_ABORTS := "and an empty file will abort the edit."
  const ON_ERROR := " If an error occurs"
  const THE_FILE_IS := " while saving this file will be"
  const REOPENED := "reopened with the relevant failures."
  const NOT_RECOGNIZED := "Found fields that are not recognized"

  const PREAMBLE := ["# " + PLEASE_EDIT + COMMENTS_IGNORED, "# " + EMPTY_ABORTS + (ON_ERROR + THE_FILE_IS),
                     "# " + REOPENED, "#"]

  /** The texts of the header, each of which is ended by a line break. */
  function Blocks(h: Header): seq<string> {
    PREAMBLE + ErrorBlocks(h.errors)
    + if h.extraFields == [] then [] else ["# " + NOT_RECOGNIZED] + FieldBlocks(h.extraFields) + ["#"]
  }

  function ErrorBlocks(errors: seq<string>): seq<string> {
    if errors == [] then [] else ["# " + errors[0], "#"] + ErrorBlocks(errors[1..])
  }

  function FieldBlocks(fields: seq<string>): seq<string> {
    if fields == [] then [] else ["# " + fields[0]] + FieldBlocks(fields[1..])
  }

  function Lines(blocks: seq<string>): string {
    if blocks == [] then "" else blocks[0] + "\n" + Lines(blocks[1..])
  }

  function HeaderText(h: Header): string { Lines(Blocks(h)) }

  lemma {:induction false} LinesAppend(a: seq<string>, b: seq<string>)
    ensures Lines(a + b) == Lines(a) + Lines(b)
  {
    if a == [] {
      assert a + b == b;
      assert "" + Lines(b) == Lines(b);
    } else {
      assert (a + b)[1..] == a[1..] + b;
      LinesAppend(a[1..], b);
      Assoc(a[0] + "\n", Lines(a[1..]), Lines(b));
    }
  }

  lemma {:induction false} ErrorBlocksSnoc(errors: seq<string>, e: string)
    ensures ErrorBlocks(errors + [e]) == ErrorBlocks(errors) + ["# " + e, "#"]
  {
    if errors == [] {
      assert [] + [e] == [e] && [e][1..] == [];
    } else {
      assert (errors + [e])[1..] == errors[1..] + [e];
      ErrorBlocksSnoc(errors[1..], e);
      Assoc(["# " + errors[0], "#"], ErrorBlocks(errors[1..]), ["# " + e, "#"]);
    }
  }

  lemma {:induction false} FieldBlocksAre(fields: seq<string>)
    ensures |FieldBlocks(fields)| == |fields|
    ensures forall i :: 0 <= i < |fields| ==> FieldBlocks(fields)[i] == "# " + fields[i]
  {
    if fields != [] {
      FieldBlocksAre(fields[1..]);
    }
  }

  /** Every error is written as a comment, in order, with an empty comment after it; */
  lemma HeaderHoldsErrors(errors: seq<string>, e: string)
    ensures HeaderText(Header(errors + [e], [])) == HeaderText(Header(errors, [])) + ("# " + e + "\n" + ("#" + "\n"))
  {
    ErrorBlocksSnoc(errors, e);
    var blocks := PREAMBLE + ErrorBlocks(errors);
    assert Blocks(Header(errors, [])) == blocks;
    assert Blocks(Header(errors + [e], [])) == blocks + ["# " + e, "#"];
    LinesAppend(blocks, ["# " + e, "#"]);
    TwoLines("# " + e, "#", []);
    assert ["# " + e, "#"] + [] == ["# " + e, "#"];
    assert "#" + "\n" + "" == "#" + "\n";
  }

  /** and every unknown field as a comment, in order, between a heading and an empty comment. */
  lemma HeaderHoldsFields(errors: seq<string>, fields: seq<string>)
    requires fields != []
    ensures var comments := seq(|fields|, i requires 0 <= i < |fields| => "# " + fields[i]);
            HeaderText(Header(errors, fields))
            == HeaderText(Header(errors, [])) + Lines(["# " + NOT_RECOGNIZED] + comments + ["#"])
  {
    FieldBlocksAre(fields);
    assert FieldBlocks(fields) == seq(|fields|, i requires 0 <= i < |fields| => "# " + fields[i]);
    var blocks := PREAMBLE + ErrorBlocks(errors);
    assert Blocks(Header(errors, [])) == blocks;
    LinesAppend(blocks, ["# " + NOT_RECOGNIZED] + FieldBlocks(fields) + ["#"]);
  }

  lemma TwoLines(a: string, b: string, rest: seq<string>)
    ensures Lines([a, b] + rest) == a + "\n" + (b + "\n" + Lines(rest))
  {
    assert ([a, b] + rest)[1..] == [b] + rest;
    assert ([b] + rest)[1..] == rest;
  }

  // ----- When the header is absorbed

  /** Every line of the text is a comment. */
  predicate Silent(block: string) { AllComments(Split(block, '\n')) }

  predicate AllSilent(blocks: seq<string>) { forall i :: 0 <= i < |blocks| ==> Silent(blocks[i]) }

  /** Every line of the message but the first is a comment of its own. */
  predicate Quiet(message: string) { AllComments(Split(message, '\n')[1..]) }

  predicate AllQuiet(messages: seq<string>) { forall i :: 0 <= i < |messages| ==> Quiet(messages[i]) }

  lemma {:induction false} StripLines(blocks: seq<string>, rest: string)
    ensures Strip(Lines(blocks) + rest) == Strip(Lines(blocks)) + Strip(rest)
    ensures Strip(Lines(blocks)) == "" <==> AllSilent(blocks)
  {
    if blocks == [] {
      StripLast("");
      assert "" + rest == rest;
      assert "" + Strip(rest) == Strip(rest);
    } else {
      var first, tail := blocks[0], blocks[1..];
      StripLines(tail, rest);
      Assoc(first + "\n", Lines(tail), rest);
      StripFront(first, Lines(tail) + rest);
      StripFront(first, Lines(tail));
      NothingLeftIff(first);
      OneSilent(first);
      Assoc(Strip(first + "\n"), Strip(Lines(tail)), Strip(rest));
      assert blocks == [first] + tail;
      SilentAppend([first], tail);
    }
  }

  lemma OneSilent(block: string)
    ensures AllSilent([block]) <==> Silent(block)
  {
    assert [block][0] == block;
  }

  lemma SilentAppend(a: seq<string>, b: seq<string>)
    ensures AllSilent(a + b) <==> AllSilent(a) && AllSilent(b)
  {
    assert forall i :: 0 <= i < |a| ==> a[i] == (a + b)[i];
    assert forall i :: 0 <= i < |b| ==> b[i] == (a + b)[|a| + i];
  }

  lemma HashIsComment(line: string)
    requires line != "" && line[0] == '#'
    ensures IsComment(line)
  {
    assert TrimLeft(line) == line;
    TrimRightShape(line);
    assert line[0..] == line;
  }

  lemma MessageIsSilentIff(message: string)
    ensures Silent("# " + message) <==> Quiet(message)
  {
    var parts := Split(message, '\n');
    var block := "# " + message;
    assert block[1..][1..] == message;
    var spaced := [" " + parts[0]] + parts[1..];
    assert Split(block[1..], '\n') == spaced;
    assert spaced[1..] == parts[1..];
    assert Split(block, '\n') == [['#'] + spaced[0]] + parts[1..];
    HashIsComment(['#'] + spaced[0]);
    AllCommentsCons(['#'] + spaced[0], parts[1..]);
  }

  lemma HashLineIsSilent(block: string)
    requires block != "" && block[0] == '#' && '\n' !in block
    ensures Silent(block)
  {
    SplitFree(block, '\n');
    HashIsComment(block);
  }

  lemma PleaseEditIsOneLine()
    ensures '\n' !in PLEASE_EDIT && '\n' !in COMMENTS_IGNORED
  {
  }

  lemma EmptyAbortsIsOneLine()
    ensures '\n' !in EMPTY_ABORTS && '\n' !in ON_ERROR && '\n' !in THE_FILE_IS
  {
  }

  lemma ReopenedIsOneLine()
    ensures '\n' !in REOPENED && '\n' !in NOT_RECOGNIZED
  {
  }

  lemma TextIsSilent(a: string, b: string)
    requires '\n' !in a && '\n' !in b
    ensures Silent("# " + a + b)
  {
    var block := "# " + a + b;
    assert block[0] == '#';
    HashLineIsSilent(block);
  }

  lemma PreambleIsSilent()
    ensures AllSilent(PREAMBLE) && Silent("# " + NOT_RECOGNIZED)
  {
    PleaseEditIsOneLine();
    EmptyAbortsIsOneLine();
    ReopenedIsOneLine();
    TextIsSilent(PLEASE_EDIT, COMMENTS_IGNORED);
    TextIsSilent(EMPTY_ABORTS, ON_ERROR + THE_FILE_IS);
    TextIsSilent(REOPENED, "");
    assert "# " + REOPENED + "" == "# " + REOPENED;
    TextIsSilent(NOT_RECOGNIZED, "");
    assert "# " + NOT_RECOGNIZED + "" == "# " + NOT_RECOGNIZED;
    HashLineIsSilent("#");
  }

  lemma AllQuietCons(messages: seq<string>)
    requires messages != []
    ensures AllQuiet(messages) <==> Quiet(messages[0]) && AllQuiet(messages[1..])
  {
    assert forall i :: 0 < i < |messages| ==> messages[i] == messages[1..][i - 1];
  }

  lemma {:induction false} ErrorsAreSilentIff(errors: seq<string>)
    ensures AllSilent(ErrorBlocks(errors)) <==> AllQuiet(errors)
  {
    if errors != [] {
      ErrorsAreSilentIff(errors[1..]);
      MessageIsSilentIff(errors[0]);
      HashLineIsSilent("#");
      SilentAppend(["# " + errors[0], "#"], ErrorBlocks(errors[1..]));
      SilentAppend(["# " + errors[0]], ["#"]);
      OneSilent("# " + errors[0]);
      OneSilent("#");
      assert ["# " + errors[0], "#"] == ["# " + errors[0]] + ["#"];
      AllQuietCons(errors);
    }
  }

  lemma {:induction false} FieldsAreSilentIff(fields: seq<string>)
    ensures AllSilent(FieldBlocks(fields)) <==> AllQuiet(fields)
  {
    if fields != [] {
      FieldsAreSilentIff(fields[1..]);
      MessageIsSilentIff(fields[0]);
      OneSilent("# " + fields[0]);
      SilentAppend(["# " + fields[0]], FieldBlocks(fields[1..]));
      AllQuietCons(fields);
    }
  }

  lemma HeaderIsSilentIff(h: Header)
    ensures AllSilent(Blocks(h)) <==> AllQuiet(h.errors) && AllQuiet(h.extraFields)
  {
    PreambleIsSilent();
    ErrorsAreSilentIff(h.errors);
    FieldsAreSilentIff(h.extraFields);
    SilentAppend(PREAMBLE, ErrorBlocks(h.errors));
    if h.extraFields == [] {
      SilentAppend(PREAMBLE + ErrorBlocks(h.errors), []);
    } else {
      SilentAppend(["# " + NOT_RECOGNIZED], FieldBlocks(h.extraFields));
      SilentAppend(["# " + NOT_RECOGNIZED] + FieldBlocks(h.extraFields), ["#"]);
      SilentAppend(PREAMBLE + ErrorBlocks(h.errors), ["# " + NOT_RECOGNIZED] + FieldBlocks(h.extraFields) + ["#"]);
    }
  }

  /** In front of any text, the header is stripped without a trace exactly when its messages are quiet. */
  lemma HeaderIsAbsorbedIff(h: Header, text: string)
    ensures Strip(HeaderText(h) + text) == Strip(HeaderText(h)) + Strip(text)
    ensures Strip(HeaderText(h) + text) == Strip(text) <==> AllQuiet(h.errors) && AllQuiet(h.extraFields)
  {
    StripLines(Blocks(h), text);
    HeaderIsSilentIff(h);
    var front := Strip(HeaderText(h));
    assert |front + Strip(text)| == |front| + |Strip(text)|;
    assert front == "" ==> front + Strip(text) == Strip(text);
  }

  /** The lines of an extra-fields report are quiet, whatever the report says. */
  lemma ReportLinesAreQuiet(report: string)
    ensures AllQuiet(Split(report, '\n'))
  {
    PartsAreFree(report, '\n');
    forall i | 0 <= i < |Split(report, '\n')| ensures Quiet(Split(report, '\n')[i]) {
      SplitFree(Split(report, '\n')[i], '\n');
    }
  }
}
