/** What the line records of pkg/diff/diff.go say about the two texts. */
module DiffLaws {
  import opened Prelude
  import opened Text
  import opened Diff

  /** The records and edits that concern one text: Delete stands for the left one, Insert for the right one. */
  predicate Concerns(side: Op, op: Op) { op == Equal || op == side }

  /** The text an edit sequence describes. */
  function Content(side: Op, edits: seq<Edit>): string {
    if edits == [] then ""
    else
      var e := edits[|edits| - 1];
      Content(side, edits[..|edits| - 1]) + if Concerns(side, e.op) then e.text else ""
  }

  function Lines(side: Op, records: seq<Line>): seq<string> {
    if records == [] then []
    else
      var x := records[|records| - 1];
      Lines(side, records[..|records| - 1]) + if Concerns(side, x.op) then [x.text] else []
  }

  function NonBlank(lines: seq<string>): seq<string> {
    if lines == [] then []
    else NonBlank(lines[..|lines| - 1]) + if lines[|lines| - 1] != "" then [lines[|lines| - 1]] else []
  }

  function Pending(side: Op, b: Builder): string {
    if side == Delete then b.l else b.r
  }

  /** The lines of one text that an edit ends. */
  function Ended(side: Op, b: Builder, e: Edit): seq<string> {
    if |Split(e.text, '\n')| == 1 || !Concerns(side, e.op) then []
    else [Pending(side, b) + Split(e.text, '\n')[0]] + Middle(e.text)
  }

  lemma {:induction false} LinesAppend(side: Op, a: seq<Line>, b: seq<Line>)
    ensures Lines(side, a + b) == Lines(side, a) + Lines(side, b)
  {
    if b == [] {
      assert a + b == a;
    } else {
      assert (a + b)[..|a + b| - 1] == a + b[..|b| - 1];
      LinesAppend(side, a, b[..|b| - 1]);
    }
  }

  lemma {:induction false} NonBlankAppend(a: seq<string>, b: seq<string>)
    ensures NonBlank(a + b) == NonBlank(a) + NonBlank(b)
  {
    if b == [] {
      assert a + b == a;
    } else {
      assert (a + b)[..|a + b| - 1] == a + b[..|b| - 1];
      NonBlankAppend(a, b[..|b| - 1]);
    }
  }

  lemma {:induction false} LinesOfTag(side: Op, op: Op, lines: seq<string>)
    ensures Lines(side, Tag(op, lines)) == if Concerns(side, op) then lines else []
  {
    if lines != [] {
      var front := lines[..|lines| - 1];
      LinesOfTag(side, op, front);
      assert Tag(op, lines)[..|Tag(op, lines)| - 1] == Tag(op, front);
      assert front + [lines[|lines| - 1]] == lines;
    }
  }

  lemma LinesOfOne(side: Op, x: Line)
    ensures Lines(side, [x]) == if Concerns(side, x.op) then [x.text] else []
  {
    assert [x][..0] == [];
  }

  lemma LinesOfNonEmpty(side: Op, op: Op, text: string)
    ensures Lines(side, NonEmpty(op, text)) == if text != "" && Concerns(side, op) then [text] else []
  {
    LinesOfOne(side, Line(op, text));
  }

  // ----- One edit

  /** A blank line of one text is dropped when equal text starts with its newline while the other text is mid-line. */
  predicate Drops(side: Op, b: Builder, e: Edit) {
    e.op == Equal && |Split(e.text, '\n')| > 1 && Split(e.text, '\n')[0] == "" && Pending(side, b) == ""
    && (b.l != "" || b.r != "")
  }

  lemma LinesOfHead(side: Op, b: Builder, first: string)
    requires side != Equal
    ensures var line := Pending(side, b) + first;
            Lines(side, EqualHead(b.l, b.r, first)) == if line == "" && (b.l != "" || b.r != "") then [] else [line]
  {
    if b.l == "" && b.r == "" {
      assert "" + first == first;
      LinesOfOne(side, Line(Equal, first));
    } else {
      LinesAppend(side, NonEmpty(Insert, b.r + first), NonEmpty(Delete, b.l + first));
      LinesOfNonEmpty(side, Insert, b.r + first);
      LinesOfNonEmpty(side, Delete, b.l + first);
    }
  }

  lemma EmittedHead(side: Op, b: Builder, e: Edit)
    requires side != Equal && |Split(e.text, '\n')| > 1
    ensures var first := Pending(side, b) + Split(e.text, '\n')[0];
            Lines(side, Head(b, e)) == if Concerns(side, e.op) && !Drops(side, b, e) then [first] else []
    ensures Drops(side, b, e) ==> Pending(side, b) + Split(e.text, '\n')[0] == ""
  {
    match e.op
    case Equal => LinesOfHead(side, b, Split(e.text, '\n')[0]);
    case Insert => LinesOfOne(side, Line(Insert, b.r + Split(e.text, '\n')[0]));
    case Delete => LinesOfOne(side, Line(Delete, b.l + Split(e.text, '\n')[0]));
  }

  /** An edit records exactly the lines it ends, but for a dropped blank. */
  lemma EmittedLines(side: Op, b: Builder, e: Edit)
    requires side != Equal
    ensures Drops(side, b, e) ==> Ended(side, b, e) == [""] + Lines(side, Emitted(b, e))
    ensures !Drops(side, b, e) ==> Ended(side, b, e) == Lines(side, Emitted(b, e))
  {
    if |Split(e.text, '\n')| > 1 {
      EmittedHead(side, b, e);
      LinesAppend(side, Head(b, e), Tag(e.op, Middle(e.text)));
      LinesOfTag(side, e.op, Middle(e.text));
      assert [] + Middle(e.text) == Middle(e.text);
    }
  }

  lemma StepText(side: Op, edits: seq<Edit>)
    requires side != Equal && edits != []
    requires var b := Run(edits[..|edits| - 1]); Pending(side, b) == Partial(Content(side, edits[..|edits| - 1]))
    ensures Pending(side, Run(edits)) == Partial(Content(side, edits))
    ensures Full(Content(side, edits))
         == Full(Content(side, edits[..|edits| - 1])) + Ended(side, Run(edits[..|edits| - 1]), edits[|edits| - 1])
  {
    var before, e := Content(side, edits[..|edits| - 1]), edits[|edits| - 1];
    if Concerns(side, e.op) {
      AppendText(before, e.text);
      assert Full(before) + [] == Full(before);
    } else {
      assert before + "" == before;
    }
  }

  // ----- Whole edit sequences

  /** Blank lines dropped from one text. */
  function Dropped(side: Op, edits: seq<Edit>): nat {
    if edits == [] then 0
    else
      var front := edits[..|edits| - 1];
      Dropped(side, front) + if Drops(side, Run(front), edits[|edits| - 1]) then 1 else 0
  }

  lemma SameButDropped(kept: seq<string>, all: seq<string>, n: nat, more: seq<string>, ended: seq<string>, drops: bool)
    requires NonBlank(kept) == NonBlank(all) && |kept| + n == |all| && (n == 0 ==> kept == all)
    requires ended == if drops then [""] + more else more
    ensures NonBlank(kept + more) == NonBlank(all + ended)
    ensures |kept + more| + n + (if drops then 1 else 0) == |all + ended|
    ensures n == 0 && !drops ==> kept + more == all + ended
  {
    NonBlankAppend(kept, more);
    NonBlankAppend(all, ended);
    if drops {
      NonBlankAppend([""], more);
      assert NonBlank([""]) == [];
      assert [] + NonBlank(more) == NonBlank(more);
    }
  }

  /** Up to the partial lines: the recorded lines are the ended lines, less the dropped blanks. */
  lemma {:induction false} RunKeepsLines(side: Op, edits: seq<Edit>)
    requires side != Equal
    ensures Pending(side, Run(edits)) == Partial(Content(side, edits))
    ensures NonBlank(Lines(side, Run(edits).results)) == NonBlank(Full(Content(side, edits)))
    ensures |Lines(side, Run(edits).results)| + Dropped(side, edits) == |Full(Content(side, edits))|
    ensures Dropped(side, edits) == 0 ==> Lines(side, Run(edits).results) == Full(Content(side, edits))
  {
    if edits != [] {
      var front, e := edits[..|edits| - 1], edits[|edits| - 1];
      var b := Run(front);
      RunKeepsLines(side, front);
      StepText(side, edits);
      EmittedLines(side, b, e);
      LinesAppend(side, b.results, Emitted(b, e));
      SameButDropped(Lines(side, b.results), Full(Content(side, front)), Dropped(side, front),
                     Lines(side, Emitted(b, e)), Ended(side, b, e), Drops(side, b, e));
    }
  }

  lemma LinesOfRest(side: Op, b: Builder)
    requires side != Equal
    ensures Lines(side, Rest(b)) == if Pending(side, b) == "" then [] else [Pending(side, b)]
  {
    if b.l != "" && b.l == b.r {
      LinesOfOne(side, Line(Equal, b.l));
    } else {
      LinesOfNonEmpty(side, Delete, b.l);
      LinesOfNonEmpty(side, Insert, b.r);
      LinesAppend(side, NonEmpty(Delete, b.l), NonEmpty(Insert, b.r));
      assert side == Delete ==> Lines(side, NonEmpty(Insert, b.r)) == [];
      assert side == Insert ==> Lines(side, NonEmpty(Delete, b.l)) == [];
    }
  }

  lemma SplitIsFullAndPartial(s: string)
    ensures Split(s, '\n') == Full(s) + [Partial(s)]
  {
  }

  /**
   * For every edit sequence and either text: the non-blank lines of the records that concern the text are,
   * in order, the non-blank lines of the text.
   */
  lemma RecordsProjectToTheTexts(side: Op, edits: seq<Edit>)
    requires side != Equal
    ensures NonBlank(Lines(side, DiffLines(edits))) == NonBlank(Split(Content(side, edits), '\n'))
  {
    var b, text := Run(edits), Content(side, edits);
    RunKeepsLines(side, edits);
    LinesOfRest(side, b);
    LinesAppend(side, b.results, Rest(b));
    NonBlankAppend(Lines(side, b.results), Lines(side, Rest(b)));
    SplitIsFullAndPartial(text);
    NonBlankAppend(Full(text), [Partial(text)]);
    assert [Partial(text)][..0] == [];
  }

  /** The lines of a text, without the empty one after a final newline. */
  function TextLines(s: string): seq<string> {
    if Partial(s) == "" then Full(s) else Split(s, '\n')
  }

  function Other(side: Op): Op { if side == Delete then Insert else Delete }

  /** Edit i is equal text that starts with a newline, at a line start of this text but inside a line of the other. */
  predicate DropsAt(side: Op, edits: seq<Edit>, i: nat)
    requires i < |edits|
  {
    edits[i].op == Equal && edits[i].text != "" && edits[i].text[0] == '\n'
    && Partial(Content(side, edits[..i])) == "" && Partial(Content(Other(side), edits[..i])) != ""
  }

  lemma DropsIff(side: Op, edits: seq<Edit>, i: nat)
    requires side != Equal && i < |edits|
    ensures Drops(side, Run(edits[..i]), edits[i]) <==> DropsAt(side, edits, i)
  {
    RunKeepsLines(Delete, edits[..i]);
    RunKeepsLines(Insert, edits[..i]);
  }

  lemma DropsInFront(side: Op, edits: seq<Edit>, n: nat, i: nat)
    requires i < n <= |edits|
    ensures DropsAt(side, edits[..n], i) <==> DropsAt(side, edits, i)
  {
    assert edits[..n][..i] == edits[..i];
  }

  ghost predicate DropsNone(side: Op, edits: seq<Edit>) {
    forall i :: 0 <= i < |edits| ==> !DropsAt(side, edits, i)
  }

  lemma DropsNoneSplit(side: Op, edits: seq<Edit>, n: nat)
    requires |edits| == n + 1
    ensures DropsNone(side, edits) <==> DropsNone(side, edits[..n]) && !DropsAt(side, edits, n)
  {
    forall i | 0 <= i < n ensures DropsAt(side, edits[..n], i) <==> DropsAt(side, edits, i) {
      DropsInFront(side, edits, n, i);
    }
  }

  lemma {:induction false} DroppedIff(side: Op, edits: seq<Edit>)
    requires side != Equal
    ensures Dropped(side, edits) == 0 <==> DropsNone(side, edits)
  {
    if edits != [] {
      var n := |edits| - 1;
      DroppedIff(side, edits[..n]);
      DropsIff(side, edits, n);
      DropsNoneSplit(side, edits, n);
    }
  }

  /** Blank lines included, the records give back the text's lines exactly when no edit drops one. */
  lemma RecordsAreExactIffNothingDropped(side: Op, edits: seq<Edit>)
    requires side != Equal
    ensures Lines(side, DiffLines(edits)) == TextLines(Content(side, edits))
       <==> DropsNone(side, edits)
  {
    var b, text := Run(edits), Content(side, edits);
    RunKeepsLines(side, edits);
    LinesOfRest(side, b);
    LinesAppend(side, b.results, Rest(b));
    SplitIsFullAndPartial(text);
    assert |TextLines(text)| == |Full(text)| + |Lines(side, Rest(b))|;
    DroppedIff(side, edits);
  }

  /** An insertion in the middle of a line, before a blank line both texts share, loses that blank line on the left. */
  lemma BlankLineIsDropped()
    ensures var edits := [Edit(Insert, "x"), Edit(Equal, "\ny")];
            Content(Delete, edits) == "\ny" && Lines(Delete, DiffLines(edits)) != TextLines("\ny")
  {
    var edits := [Edit(Insert, "x"), Edit(Equal, "\ny")];
    assert edits[..1] == [Edit(Insert, "x")] && edits[..1][..0] == [];
    SplitFree("x", '\n');
    assert Content(Insert, edits[..1]) == "x" && Content(Delete, edits[..1]) == "";
    assert DropsAt(Delete, edits, 1);
    assert Content(Delete, edits) == "\ny";
    RecordsAreExactIffNothingDropped(Delete, edits);
  }

  // ----- Different texts show

  predicate Unchanged(records: seq<Line>) {
    forall i :: 0 <= i < |records| ==> records[i].op == Equal
  }

  lemma {:induction false} UnchangedLinesAgree(records: seq<Line>)
    requires Unchanged(records)
    ensures Lines(Delete, records) == Lines(Insert, records)
  {
    if records != [] {
      UnchangedLinesAgree(records[..|records| - 1]);
    }
  }

  lemma UnchangedParts(a: seq<Line>, b: seq<Line>)
    requires Unchanged(a + b)
    ensures Unchanged(a) && Unchanged(b)
  {
    forall i | 0 <= i < |a| ensures a[i].op == Equal { assert (a + b)[i] == a[i]; }
    forall i | 0 <= i < |b| ensures b[i].op == Equal { assert (a + b)[|a| + i] == b[i]; }
  }

  lemma ChangeShows(a: seq<Line>, b: seq<Line>)
    requires !Unchanged(a) || !Unchanged(b)
    ensures !Unchanged(a + b)
  {
    if !Unchanged(a) {
      var i :| 0 <= i < |a| && a[i].op != Equal;
      assert (a + b)[i].op != Equal;
    } else {
      var i :| 0 <= i < |b| && b[i].op != Equal;
      assert (a + b)[|a| + i].op != Equal;
    }
  }

  /** An edit that drops a blank line also records a change. */
  lemma DropShows(side: Op, b: Builder, e: Edit)
    requires side != Equal && Drops(side, b, e)
    ensures !Unchanged(Emitted(b, e))
  {
    var head := EqualHead(b.l, b.r, Split(e.text, '\n')[0]);
    assert head[0].op != Equal;
    ChangeShows(head, Tag(Equal, Middle(e.text)));
  }

  lemma {:induction false} UnchangedRunDropsNothing(side: Op, edits: seq<Edit>)
    requires side != Equal && Unchanged(Run(edits).results)
    ensures Dropped(side, edits) == 0
  {
    if edits != [] {
      var front, e := edits[..|edits| - 1], edits[|edits| - 1];
      UnchangedParts(Run(front).results, Emitted(Run(front), e));
      UnchangedRunDropsNothing(side, front);
      if Drops(side, Run(front), e) {
        DropShows(side, Run(front), e);
      }
    }
  }

  lemma RestShows(b: Builder)
    requires b.l != b.r
    ensures !Unchanged(Rest(b))
  {
    assert Rest(b)[0].op != Equal;
  }

  /** While nothing but equal records came out, both texts agree up to their partial lines. */
  lemma UnchangedRunAgrees(edits: seq<Edit>)
    requires Unchanged(Run(edits).results)
    ensures Full(Content(Delete, edits)) == Full(Content(Insert, edits))
  {
    UnchangedRunDropsNothing(Delete, edits);
    UnchangedRunDropsNothing(Insert, edits);
    RunKeepsLines(Delete, edits);
    RunKeepsLines(Insert, edits);
    UnchangedLinesAgree(Run(edits).results);
  }

  /** Whenever the two texts differ, some record is an insertion or a deletion. */
  lemma DifferentTextsShow(edits: seq<Edit>)
    requires Content(Delete, edits) != Content(Insert, edits)
    ensures !Unchanged(DiffLines(edits))
  {
    var b := Run(edits);
    RunKeepsLines(Delete, edits);
    RunKeepsLines(Insert, edits);
    if b.l != b.r {
      RestShows(b);
    } else if Unchanged(b.results) {
      UnchangedRunAgrees(edits);
      SplitIsFullAndPartial(Content(Delete, edits));
      SplitIsFullAndPartial(Content(Insert, edits));
      SplitIsInjective(Content(Delete, edits), Content(Insert, edits), '\n');
    }
    ChangeShows(b.results, Rest(b));
  }

  // ----- renderText

  /** Within the context distance of a changed record. */
  ghost predicate Kept(records: seq<Line>, context: int, i: int) {
    exists j :: Near(records, context, i, j)
  }

  predicate Near(records: seq<Line>, context: int, i: int, j: int) {
    0 <= j < |records| && records[j].op != Equal && j - context <= i <= j + context
  }

  function Shown(x: Line): string {
    (match x.op case Delete => "- " case Insert => "+ " case Equal => "  ") + x.text + "\n"
  }

  /** What is printed for a record: the record, or dots where a run of skipped records begins. */
  function PieceFor(x: Line, kept: bool, skipping: bool): string {
    if kept then Shown(x) else if skipping then "" else "...\n"
  }

  ghost function Piece(records: seq<Line>, context: int, i: nat): string
    requires i < |records|
  {
    PieceFor(records[i], Kept(records, context, i), i > 0 && !Kept(records, context, i - 1))
  }

  ghost function Pieces(records: seq<Line>, context: int): seq<string> {
    seq(|records|, i requires 0 <= i < |records| => Piece(records, context, i))
  }

  function Concat(pieces: seq<string>): string {
    if pieces == [] then "" else Concat(pieces[..|pieces| - 1]) + pieces[|pieces| - 1]
  }

  ghost function Rendered(records: seq<Line>, context: int): string {
    Concat(Pieces(records, context))
  }

  method MarkKept(records: seq<Line>, context: int) returns (keep: array<bool>)
    ensures keep.Length == |records|
    ensures forall i :: 0 <= i < keep.Length ==> (keep[i] <==> Kept(records, context, i))
  {
    keep := new bool[|records|](_ => false);
    for i := 0 to |records|
      invariant forall m :: 0 <= m < keep.Length ==>
                  (keep[m] <==> exists j :: 0 <= j < i && Near(records, context, m, j))
    {
      if records[i].op == Equal {
        continue;
      }
      ghost var before := keep[..];
      var j := i - context;
      while j <= i + context
        invariant forall m :: 0 <= m < keep.Length ==>
          (keep[m] <==> before[m] || (m < j && Near(records, context, m, i)))
      {
        if 0 <= j < keep.Length {
          keep[j] := true;
        }
        j := j + 1;
      }
    }
  }

  lemma ConcatNext(pieces: seq<string>, i: nat)
    requires i < |pieces|
    ensures Concat(pieces[..i + 1]) == Concat(pieces[..i]) + pieces[i]
  {
    assert pieces[..i + 1][..i] == pieces[..i];
  }

  method RenderText(records: seq<Line>, context: int) returns (out: string)
    ensures out == Rendered(records, context)
  {
    var keep := MarkKept(records, context);
    ghost var pieces := Pieces(records, context);
    out := "";
    var wroteSkip := false;
    for i := 0 to |records|
      invariant forall m :: 0 <= m < keep.Length ==> (keep[m] <==> Kept(records, context, m))
      invariant out == Concat(pieces[..i])
      invariant wroteSkip <==> i > 0 && !Kept(records, context, i - 1)
    {
      assert keep[i] <==> Kept(records, context, i);
      assert pieces[i] == Piece(records, context, i) == PieceFor(records[i], keep[i], wroteSkip);
      ConcatNext(pieces, i);
      assert out + "" == out;
      if !keep[i] {
        if !wroteSkip {
          out := out + "...\n";
          wroteSkip := true;
        }
        continue;
      }
      var lead := match records[i].op case Delete => "- " case Insert => "+ " case Equal => "  ";
      out := out + (lead + records[i].text + "\n");
      wroteSkip := false;
    }
    assert pieces[..|records|] == pieces;
  }

  method FormatDiff(diffs: seq<Edit>) returns (out: string)
    ensures out == Rendered(DiffLines(diffs), 2)
  {
    var records := BuildDiffLines(diffs);
    out := RenderText(records, 2);
  }

  /** A concatenation holds each of its pieces. */
  lemma {:induction false} ConcatHolds(pieces: seq<string>, i: nat) returns (before: string, after: string)
    requires i < |pieces|
    ensures Concat(pieces) == before + pieces[i] + after
  {
    var n := |pieces| - 1;
    if i == n {
      before, after := Concat(pieces[..n]), "";
      assert before + pieces[i] + "" == before + pieces[i];
    } else {
      before, after := ConcatHolds(pieces[..n], i);
      Assoc(before + pieces[i], after, pieces[n]);
      after := after + pieces[n];
    }
  }

  /** Whenever the two texts differ, the report shows a line that was inserted or deleted. */
  lemma DifferentTextsAreReported(edits: seq<Edit>) returns (i: nat, before: string, after: string)
    requires Content(Delete, edits) != Content(Insert, edits)
    ensures i < |DiffLines(edits)| && DiffLines(edits)[i].op != Equal
    ensures Rendered(DiffLines(edits), 2) == before + Shown(DiffLines(edits)[i]) + after
  {
    var records := DiffLines(edits);
    DifferentTextsShow(edits);
    i :| 0 <= i < |records| && records[i].op != Equal;
    assert Near(records, 2, i, i);
    assert Pieces(records, 2)[i] == Shown(records[i]);
    before, after := ConcatHolds(Pieces(records, 2), i);
  }
}
