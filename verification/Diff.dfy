/** pkg/diff/diff.go: from a character-level edit sequence to line records, and their rendering with context. */
module Diff {
  import opened Prelude
  import opened Text

  datatype Op = Delete | Insert | Equal

  datatype Edit = Edit(op: Op, text: string)

  datatype Line = Line(op: Op, text: string)

  // ----- Lines of text

  /** The lines that have been ended by a newline. */
  function Full(s: string): seq<string> {
    Split(s, '\n')[..|Split(s, '\n')| - 1]
  }

  /** The line that has not. */
  function Partial(s: string): string {
    Split(s, '\n')[|Split(s, '\n')| - 1]
  }

  function Middle(s: string): seq<string>
    requires |Split(s, '\n')| > 1
  {
    Split(s, '\n')[1..|Split(s, '\n')| - 1]
  }

  /** Appending text without a newline lengthens the partial line; with one, it ends that line and others. */
  lemma AppendText(a: string, b: string)
    ensures |Split(b, '\n')| == 1 ==> Full(a + b) == Full(a) && Partial(a + b) == Partial(a) + Split(b, '\n')[0]
    ensures |Split(b, '\n')| > 1 ==>
              && Full(a + b) == Full(a) + ([Partial(a) + Split(b, '\n')[0]] + Middle(b))
              && Partial(a + b) == Partial(b)
  {
    SplitAppend(a, b, '\n');
    GlueParts(Split(a, '\n'), Split(b, '\n'));
  }

  // ----- buildDiffLines

  /** The two partial lines and the records so far. */
  datatype Builder = Builder(l: string, r: string, results: seq<Line>)

  function Tag(op: Op, lines: seq<string>): seq<Line> {
    if lines == [] then [] else Tag(op, lines[..|lines| - 1]) + [Line(op, lines[|lines| - 1])]
  }

  function NonEmpty(op: Op, text: string): seq<Line> {
    if text == "" then [] else [Line(op, text)]
  }

  function EqualHead(l: string, r: string, first: string): seq<Line> {
    if l == "" && r == "" then [Line(Equal, first)] else NonEmpty(Insert, r + first) + NonEmpty(Delete, l + first)
  }

  /** The record of the line that an edit with a newline ends first. */
  function Head(b: Builder, e: Edit): seq<Line> {
    var first := Split(e.text, '\n')[0];
    match e.op
    case Insert => [Line(Insert, b.r + first)]
    case Delete => [Line(Delete, b.l + first)]
    case Equal => EqualHead(b.l, b.r, first)
  }

  /** The records one edit adds: none without a newline. */
  function Emitted(b: Builder, e: Edit): seq<Line> {
    if |Split(e.text, '\n')| == 1 then [] else Head(b, e) + Tag(e.op, Middle(e.text))
  }

  function Step(b: Builder, e: Edit): Builder {
    var lines := Split(e.text, '\n');
    var whole := |lines| == 1;
    Builder(if e.op == Insert then b.l else if whole then b.l + lines[0] else Partial(e.text),
            if e.op == Delete then b.r else if whole then b.r + lines[0] else Partial(e.text),
            b.results + Emitted(b, e))
  }

  function Run(edits: seq<Edit>): Builder {
    if edits == [] then Builder("", "", []) else Step(Run(edits[..|edits| - 1]), edits[|edits| - 1])
  }

  function Rest(b: Builder): seq<Line> {
    if b.l != "" && b.l == b.r then [Line(Equal, b.l)] else NonEmpty(Delete, b.l) + NonEmpty(Insert, b.r)
  }

  function DiffLines(edits: seq<Edit>): seq<Line> {
    Run(edits).results + Rest(Run(edits))
  }

  method AppendMiddle(op: Op, lines: seq<string>, before: seq<Line>) returns (results: seq<Line>)
    requires |lines| > 1
    ensures results == before + Tag(op, lines[1..|lines| - 1])
  {
    results := before;
    var i := 1;
    while i < |lines| - 1
      invariant 1 <= i <= |lines| - 1
      invariant results == before + Tag(op, lines[1..i])
    {
      assert lines[1..i + 1][..i - 1] == lines[1..i];
      results := results + [Line(op, lines[i])];
      i := i + 1;
    }
  }

  method BuildDiffLines(diffs: seq<Edit>) returns (results: seq<Line>)
    ensures results == DiffLines(diffs)
  {
    var l, r := "", "";
    results := [];
    for n := 0 to |diffs|
      invariant Builder(l, r, results) == Run(diffs[..n])
    {
      ghost var b := Builder(l, r, results);
      var lines := Split(diffs[n].text, '\n');
      assert diffs[..n + 1][..n] == diffs[..n];
      match diffs[n].op {
        case Insert =>
          r := r + lines[0];
          if |lines| > 1 {
            results := results + [Line(Insert, r)];
            results := AppendMiddle(Insert, lines, results);
            r := lines[|lines| - 1];
            Assoc(b.results, [Line(Insert, b.r + lines[0])], Tag(Insert, Middle(diffs[n].text)));
          }
        case Delete =>
          l := l + lines[0];
          if |lines| > 1 {
            results := results + [Line(Delete, l)];
            results := AppendMiddle(Delete, lines, results);
            l := lines[|lines| - 1];
            Assoc(b.results, [Line(Delete, b.l + lines[0])], Tag(Delete, Middle(diffs[n].text)));
          }
        case Equal =>
          if |lines| == 1 {
            l := l + lines[0];
            r := r + lines[0];
          } else {
            results := AppendHead(l, r, lines[0], results);
            results := AppendMiddle(Equal, lines, results);
            l, r := lines[|lines| - 1], lines[|lines| - 1];
            Assoc(b.results, EqualHead(b.l, b.r, lines[0]), Tag(Equal, Middle(diffs[n].text)));
          }
      }
    }
    assert diffs[..|diffs|] == diffs;
    if l != "" && l == r {
      results := results + [Line(Equal, l)];
    } else {
      ghost var before := results;
      if l != "" {
        results := results + [Line(Delete, l)];
      }
      if r != "" {
        results := results + [Line(Insert, r)];
      }
      assert results == before + (NonEmpty(Delete, l) + NonEmpty(Insert, r));
    }
  }

  method AppendHead(l0: string, r0: string, first: string, before: seq<Line>) returns (results: seq<Line>)
    ensures l0 == "" && r0 == "" ==> results == before + [Line(Equal, first)]
    ensures l0 != "" || r0 != "" ==>
              results == before + ((if r0 + first == "" then [] else [Line(Insert, r0 + first)])
                                   + (if l0 + first == "" then [] else [Line(Delete, l0 + first)]))
    ensures results == before + EqualHead(l0, r0, first)
  {
    var l, r := l0, r0;
    results := before;
    if l != "" || r != "" {
      l := l + first;
      r := r + first;
    } else {
      results := results + [Line(Equal, first)];
    }
    if r != "" {
      results := results + [Line(Insert, r)];
    }
    if l != "" {
      results := results + [Line(Delete, l)];
    }
  }
}
