/** The report that pkg/diff/diff.go prints, read back line by line. */
module DiffReport {
  import opened Prelude
  import opened Text
  import opened Diff
  import opened DiffLaws

  /** What a line of the report says: a record, or None for left-out records. */
  function ReadLine(line: string): Option<Line> {
    if |line| < 2 then None
    else if line[..2] == "- " then Some(Line(Delete, line[2..]))
    else if line[..2] == "+ " then Some(Line(Insert, line[2..]))
    else if line[..2] == "  " then Some(Line(Equal, line[2..]))
    else None
  }

  function ReadLines(lines: seq<string>): seq<Option<Line>> {
    if lines == [] then [] else ReadLines(lines[..|lines| - 1]) + [ReadLine(lines[|lines| - 1])]
  }

  /** A whole report: every line is ended by a newline. */
  function ReadReport(report: string): seq<Option<Line>> { ReadLines(Full(report)) }

  /** The first n records as a reader is to see them: those near a change, and one None for each run of others. */
  ghost function View(records: seq<Line>, context: int, n: nat): seq<Option<Line>>
    requires n <= |records|
  {
    if n == 0 then []
    else
      View(records, context, n - 1)
      + if Kept(records, context, n - 1) then [Some(records[n - 1])]
        else if n > 1 && !Kept(records, context, n - 2) then []
        else [None]
  }

  lemma {:induction false} ShownReadsBack(x: Line)
    requires '\n' !in x.text
    ensures exists line :: Shown(x) == line + "\n" && '\n' !in line && ReadLine(line) == Some(x)
  {
    var lead := match x.op case Delete => "- " case Insert => "+ " case Equal => "  ";
    var line := lead + x.text;
    assert line[..2] == lead && line[2..] == x.text;
    assert Shown(x) == line + "\n";
  }

  lemma DotsReadBack()
    ensures "...\n" == "..." + "\n" && '\n' !in "..." && ReadLine("...") == None
  {
    assert "..."[..2][0] == '.';
  }

  lemma {:induction false} SplitEndedLine(line: string)
    requires '\n' !in line
    ensures Split(line + "\n", '\n') == [line, ""]
  {
    SplitPart(line, "", '\n');
    assert line + "\n" + "" == line + "\n";
  }

  lemma {:induction false} AppendLine(text: string, line: string)
    requires '\n' !in line && Partial(text) == ""
    ensures Full(text + (line + "\n")) == Full(text) + [line] && Partial(text + (line + "\n")) == ""
  {
    SplitEndedLine(line);
    AppendText(text, line + "\n");
    assert "" + line == line;
    assert [line] + [] == [line];
  }

  lemma {:induction false} ReadLinesSnoc(lines: seq<string>, line: string)
    ensures ReadLines(lines + [line]) == ReadLines(lines) + [ReadLine(line)]
  {
    assert (lines + [line])[..|lines|] == lines;
  }

  /** A text of whole lines, and one more line. */
  lemma {:induction false} ReadMore(text: string, line: string)
    requires '\n' !in line && Partial(text) == ""
    ensures ReadReport(text + (line + "\n")) == ReadReport(text) + [ReadLine(line)]
    ensures Partial(text + (line + "\n")) == ""
  {
    AppendLine(text, line);
    ReadLinesSnoc(Full(text), line);
  }

  ghost predicate OneLineEach(records: seq<Line>) {
    forall i :: 0 <= i < |records| ==> '\n' !in records[i].text
  }

  lemma {:induction false} PieceReadsBack(records: seq<Line>, context: int, n: nat, text: string)
    requires n < |records| && OneLineEach(records) && Partial(text) == ""
    requires ReadReport(text) == View(records, context, n)
    ensures ReadReport(text + Piece(records, context, n)) == View(records, context, n + 1)
    ensures Partial(text + Piece(records, context, n)) == ""
  {
    if Kept(records, context, n) {
      ShownReadsBack(records[n]);
      var line :| Shown(records[n]) == line + "\n" && '\n' !in line && ReadLine(line) == Some(records[n]);
      ReadMore(text, line);
    } else if n > 0 && !Kept(records, context, n - 1) {
      assert text + "" == text;
    } else {
      DotsReadBack();
      ReadMore(text, "...");
    }
  }

  lemma {:induction false} PiecesReadBack(records: seq<Line>, context: int, n: nat)
    requires n <= |records| && OneLineEach(records)
    ensures ReadReport(Concat(Pieces(records, context)[..n])) == View(records, context, n)
    ensures Partial(Concat(Pieces(records, context)[..n])) == ""
  {
    var pieces := Pieces(records, context);
    if n > 0 {
      PiecesReadBack(records, context, n - 1);
      ConcatNext(pieces, n - 1);
      PieceReadsBack(records, context, n - 1, Concat(pieces[..n - 1]));
    }
  }

  // ----- Records of a diff are single lines

  lemma {:induction false} NonBlankHolds(lines: seq<string>, x: string)
    ensures x in NonBlank(lines) <==> x in lines && x != ""
  {
    if lines != [] {
      var n := |lines| - 1;
      NonBlankHolds(lines[..n], x);
      assert lines == lines[..n] + [lines[n]];
    }
  }

  lemma {:induction false} LinesHold(side: Op, records: seq<Line>, i: nat)
    requires i < |records| && Concerns(side, records[i].op)
    ensures records[i].text in Lines(side, records)
  {
    var n := |records| - 1;
    if i < n {
      LinesHold(side, records[..n], i);
    }
  }

  lemma {:induction false} DiffLinesAreSingle(edits: seq<Edit>)
    ensures OneLineEach(DiffLines(edits))
  {
    var records := DiffLines(edits);
    forall i | 0 <= i < |records| ensures '\n' !in records[i].text {
      var side := if records[i].op == Insert then Insert else Delete;
      var x := records[i].text;
      LinesHold(side, records, i);
      RecordsProjectToTheTexts(side, edits);
      NonBlankHolds(Lines(side, records), x);
      NonBlankHolds(Split(Content(side, edits), '\n'), x);
      PartsAreFree(Content(side, edits), '\n');
    }
  }

  /**
   * The report on any edits reads back as the records near a change, each with its sign and text and in order, with one
   * mark for each run of records in between.
   */
  lemma {:induction false} ReportReadsBack(edits: seq<Edit>, context: int)
    ensures var records := DiffLines(edits);
            ReadReport(Rendered(records, context)) == View(records, context, |records|)
  {
    var records := DiffLines(edits);
    DiffLinesAreSingle(edits);
    PiecesReadBack(records, context, |records|);
    assert Pieces(records, context)[..|records|] == Pieces(records, context);
  }
}
