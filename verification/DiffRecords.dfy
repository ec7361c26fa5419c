/** Which records pkg/diff/diff.go makes of each edit, and exactly when it reports no change. */
module DiffRecords {
  import opened Prelude
  import opened Text
  import opened Diff
  import opened DiffLaws

  /** One record of this kind for each line. */
  function Records(op: Op, lines: seq<string>): seq<Line> {
    seq(|lines|, i requires 0 <= i < |lines| => Line(op, lines[i]))
  }

  lemma {:induction false} TagIsRecords(op: Op, lines: seq<string>)
    ensures Tag(op, lines) == Records(op, lines)
  {
    if lines != [] {
      var n := |lines| - 1;
      TagIsRecords(op, lines[..n]);
      assert Records(op, lines) == Records(op, lines[..n]) + [Line(op, lines[n])];
    }
  }

  /** The records that came out before, and those of one more edit. */
  lemma {:induction false} RunMore(edits: seq<Edit>, e: Edit)
    ensures Run(edits + [e]) == Step(Run(edits), e)
    ensures Run(edits).l == Partial(Content(Delete, edits)) && Run(edits).r == Partial(Content(Insert, edits))
  {
    assert (edits + [e])[..|edits|] == edits;
    RunKeepsLines(Delete, edits);
    RunKeepsLines(Insert, edits);
  }

  /** The records an edit with a newline adds where the two texts end in these unfinished lines. */
  lemma {:induction false} ChangeEmits(l: string, r: string, results: seq<Line>, e: Edit)
    requires |Split(e.text, '\n')| > 1 && e.op != Equal
    ensures var lines := Split(e.text, '\n');
            var first := (if e.op == Insert then r else l) + lines[0];
            Emitted(Builder(l, r, results), e) == [Line(e.op, first)] + Records(e.op, lines[1..|lines| - 1])
  {
    TagIsRecords(e.op, Middle(e.text));
  }

  lemma {:induction false} SharedEmits(l: string, r: string, results: seq<Line>, e: Edit)
    requires |Split(e.text, '\n')| > 1 && e.op == Equal
    ensures var lines := Split(e.text, '\n');
            var n := |lines| - 1;
            var emitted := Emitted(Builder(l, r, results), e);
            && (l == "" && r == "" ==> emitted == Records(Equal, lines[..n]))
            && (l != "" || r != "" ==>
                  emitted == (if r + lines[0] == "" then [] else [Line(Insert, r + lines[0])])
                             + (if l + lines[0] == "" then [] else [Line(Delete, l + lines[0])])
                             + Records(Equal, lines[1..n]))
  {
    var lines := Split(e.text, '\n');
    TagIsRecords(Equal, Middle(e.text));
    assert Records(Equal, lines[..|lines| - 1]) == [Line(Equal, lines[0])] + Records(Equal, lines[1..|lines| - 1]);
  }

  /** What an edit adds to the records. */
  ghost predicate Adds(edits: seq<Edit>, e: Edit, records: seq<Line>) {
    Run(edits + [e]).results == Run(edits).results + records
  }

  /**
   * The records of one edit, in terms of the two texts so far: the unfinished lines are completed, and text that both
   * share is recorded once if it begins at a line start of both, and as a change up to its first newline otherwise.
   */
  lemma {:induction false} EditRecords(edits: seq<Edit>, e: Edit)
    ensures var l, r := Partial(Content(Delete, edits)), Partial(Content(Insert, edits));
            var lines := Split(e.text, '\n');
            var n := |lines| - 1;
            && (n == 0 ==> Adds(edits, e, []))
            && (n > 0 && e.op == Insert ==>
                  Adds(edits, e, [Line(Insert, r + lines[0])] + Records(Insert, lines[1..n])))
            && (n > 0 && e.op == Delete ==>
                  Adds(edits, e, [Line(Delete, l + lines[0])] + Records(Delete, lines[1..n])))
            && (n > 0 && e.op == Equal && l == "" && r == "" ==> Adds(edits, e, Records(Equal, lines[..n])))
            && (n > 0 && e.op == Equal && (l != "" || r != "") ==>
                  Adds(edits, e, (if r + lines[0] == "" then [] else [Line(Insert, r + lines[0])])
                                 + (if l + lines[0] == "" then [] else [Line(Delete, l + lines[0])])
                                 + Records(Equal, lines[1..n])))
  {
    RunMore(edits, e);
    var b := Run(edits);
    assert b == Builder(b.l, b.r, b.results);
    assert Adds(edits, e, Emitted(b, e));
    if |Split(e.text, '\n')| > 1 {
      if e.op == Equal {
        SharedEmits(b.l, b.r, b.results, e);
      } else {
        ChangeEmits(b.l, b.r, b.results, e);
      }
    }
  }

  /** After the last edit: an unfinished line that both texts share is unchanged, and otherwise each is recorded. */
  lemma {:induction false} LastRecords(edits: seq<Edit>)
    ensures var l, r := Partial(Content(Delete, edits)), Partial(Content(Insert, edits));
            && (l == r ==> DiffLines(edits) == Run(edits).results + if l == "" then [] else [Line(Equal, l)])
            && (l != r ==>
                  DiffLines(edits) == Run(edits).results + ((if l == "" then [] else [Line(Delete, l)])
                                                            + (if r == "" then [] else [Line(Insert, r)])))
  {
    RunKeepsLines(Delete, edits);
    RunKeepsLines(Insert, edits);
  }

  // ----- When nothing is reported as changed

  /** Edit i ends no line, or it is text that both share and that begins at a line start of both. */
  predicate Plain(edits: seq<Edit>, i: int) {
    0 <= i < |edits| &&
    ('\n' in edits[i].text ==>
       && edits[i].op == Equal
       && Partial(Content(Delete, edits[..i])) == "" && Partial(Content(Insert, edits[..i])) == "")
  }

  ghost predicate AllPlain(edits: seq<Edit>) { forall i :: 0 <= i < |edits| ==> Plain(edits, i) }

  lemma {:induction false} AllPlainSnoc(edits: seq<Edit>, e: Edit)
    ensures AllPlain(edits + [e]) <==> AllPlain(edits) && Plain(edits + [e], |edits|)
  {
    var all := edits + [e];
    forall i | 0 <= i < |edits| ensures Plain(all, i) <==> Plain(edits, i) {
      assert all[i] == edits[i] && all[..i] == edits[..i];
    }
  }

  lemma {:induction false} OnePartIff(s: string)
    ensures |Split(s, '\n')| == 1 <==> '\n' !in s
  {
    if '\n' !in s {
      SplitFree(s, '\n');
    } else if |Split(s, '\n')| == 1 {
      PartsAreFree(s, '\n');
      SplitFree(Split(s, '\n')[0], '\n');
      SplitIsInjective(s, Split(s, '\n')[0], '\n');
    }
  }

  lemma {:induction false} RecordsUnchanged(op: Op, lines: seq<string>)
    ensures Unchanged(Records(op, lines)) <==> op == Equal || lines == []
  {
    if lines != [] {
      assert Records(op, lines)[0].op == op;
    }
  }

  lemma {:induction false} UnchangedAppend(a: seq<Line>, b: seq<Line>)
    ensures Unchanged(a + b) <==> Unchanged(a) && Unchanged(b)
  {
    if Unchanged(a + b) {
      UnchangedParts(a, b);
    }
  }

  lemma {:induction false} EmittedUnchangedIff(b: Builder, e: Edit)
    ensures Unchanged(Emitted(b, e)) <==> ('\n' in e.text ==> e.op == Equal && b.l == "" && b.r == "")
  {
    OnePartIff(e.text);
    var lines := Split(e.text, '\n');
    if |lines| > 1 {
      TagIsRecords(e.op, Middle(e.text));
      RecordsUnchanged(e.op, Middle(e.text));
      UnchangedAppend(Head(b, e), Tag(e.op, Middle(e.text)));
      if !(e.op == Equal && b.l == "" && b.r == "") {
        assert Head(b, e)[0].op != Equal;
      }
    }
  }

  lemma {:induction false} RunUnchangedIff(edits: seq<Edit>)
    ensures Unchanged(Run(edits).results) <==> AllPlain(edits)
  {
    if edits != [] {
      var front, e := edits[..|edits| - 1], edits[|edits| - 1];
      assert edits == front + [e];
      RunUnchangedIff(front);
      RunMore(front, e);
      EmittedUnchangedIff(Run(front), e);
      UnchangedAppend(Run(front).results, Emitted(Run(front), e));
      AllPlainSnoc(front, e);
      assert (front + [e])[..|front|] == front;
    }
  }

  lemma {:induction false} RestUnchangedIff(b: Builder)
    ensures Unchanged(Rest(b)) <==> b.l == b.r
  {
    if b.l != b.r {
      RestShows(b);
    }
  }

  /**
   * No record is a change exactly when every edit that ends a line is shared text that begins at a line start of both
   * texts, and the two texts end in the same unfinished line.
   */
  lemma {:induction false} UnchangedIff(edits: seq<Edit>)
    ensures Unchanged(DiffLines(edits)) <==>
            AllPlain(edits) && Partial(Content(Delete, edits)) == Partial(Content(Insert, edits))
  {
    RunUnchangedIff(edits);
    RunKeepsLines(Delete, edits);
    RunKeepsLines(Insert, edits);
    UnchangedAppend(Run(edits).results, Rest(Run(edits)));
    RestUnchangedIff(Run(edits));
  }

  lemma {:induction false} OneEqualEdit(text: string)
    ensures var edits := [Edit(Equal, text)];
            Content(Delete, edits) == text && Content(Insert, edits) == text && AllPlain(edits)
  {
    var edits := [Edit(Equal, text)];
    assert edits[..0] == [];
    assert "" + text == text;
    assert Plain(edits, 0);
  }

  lemma {:induction false} OneEqualRun(text: string)
    ensures Run([Edit(Equal, text)]).results == Records(Equal, Full(text))
  {
    EditRecords([], Edit(Equal, text));
    assert [] + [Edit(Equal, text)] == [Edit(Equal, text)];
    assert Records(Equal, Full(text)) == [] + Records(Equal, Full(text));
    assert Run([]).results == [];
  }

  /** Two equal texts, as the one edit that a comparison makes of them: no change, and every line recorded as it is. */
  lemma {:induction false} EqualTextsAreUnchanged(text: string)
    ensures Unchanged(DiffLines([Edit(Equal, text)]))
    ensures DiffLines([Edit(Equal, text)]) == Records(Equal, TextLines(text))
  {
    OneEqualEdit(text);
    UnchangedIff([Edit(Equal, text)]);
    OneEqualRun(text);
    LastRecords([Edit(Equal, text)]);
    SplitIsFullAndPartial(text);
    assert Records(Equal, Full(text)) + Records(Equal, [Partial(text)]) == Records(Equal, Full(text) + [Partial(text)]);
    assert Records(Equal, [Partial(text)]) == [Line(Equal, Partial(text))];
  }

  /** Two edits of shared text that meet inside a line: the line is reported as changed although the texts are equal. */
  lemma SplitSharedLineIsReported()
    ensures var edits := [Edit(Equal, "a"), Edit(Equal, "b\n")];
            Content(Delete, edits) == Content(Insert, edits) && !Unchanged(DiffLines(edits))
  {
    var edits := [Edit(Equal, "a"), Edit(Equal, "b\n")];
    var first := edits[..1];
    assert first[..0] == [] && edits[..1] == first;
    assert Content(Delete, first) == "a" && Content(Insert, first) == "a";
    SplitFree("a", '\n');
    assert "b\n"[1] == '\n';
    assert !Plain(edits, 1);
    UnchangedIff(edits);
  }
}
