/** cmd/kops/edit_cluster.go: the loop that opens an editor until the edit is saved, cancelled or given up. */
module EditLoop {
  import opened Prelude
  import opened Text
  import opened EditComments
  import opened EditScan

  // ----- The loop as a state machine

  /** What becomes of a saved text once it is neither cancelled nor empty. */
  datatype Verdict = Broken | Refused(message: string) | ExtraFields(report: string) | Accepted

  datatype End = Failed | NoValidChanges | NoChanges | EmptyFile | Saved(text: string)

  datatype State = State(header: Header, containsError: bool, edited: string)

  datatype Outcome = Editing(state: State) | Ended(end: End)

  /** One launch of the editor: the text it leaves, if it ran, and the verdict on it. */
  datatype Round = Round(saved: Option<string>, verdict: Verdict)

  const START := State(Header([], []), false, "")

  /** The text the editor is opened with. */
  function Buffer(raw: string, st: State): string {
    HeaderText(st.header) + if st.containsError then Strip(st.edited) else raw
  }

  function Judged(text: string, verdict: Verdict): Outcome {
    match verdict
    case Broken => Ended(Failed)
    case Refused(message) => Editing(State(Header([message], []), true, text))
    case ExtraFields(report) => Editing(State(Header([], Split(report, '\n')), true, text))
    case Accepted => Ended(Saved(text))
  }

  function Step(raw: string, st: State, round: Round): Outcome {
    if round.saved.None? then Ended(Failed)
    else
      var text := round.saved.value;
      if st.containsError && Strip(st.edited) == Strip(text) then Ended(NoValidChanges)
      else if Strip(raw) == Strip(text) then Ended(NoChanges)
      else
        match Scan(text)
        case Overlong => Ended(Failed)
        case Nothing => Ended(EmptyFile)
        case Found => Judged(text, round.verdict)
  }

  /** Where the loop is after the rounds. */
  function After(raw: string, rounds: seq<Round>): Outcome {
    if rounds == [] then Editing(START)
    else
      var before := After(raw, rounds[..|rounds| - 1]);
      if before.Ended? then before else Step(raw, before.state, rounds[|rounds| - 1])
  }

  // ----- What holds in every run

  predicate Changed(raw: string, text: string) {
    Strip(text) != Strip(raw) && !AllSpace(Strip(text))
  }

  ghost predicate Reached(raw: string, st: State) {
    if !st.containsError then st == START
    else
      && Changed(raw, st.edited)
      && ((|st.header.errors| == 1 && st.header.extraFields == [])
          || (st.header.errors == [] && exists report :: st.header.extraFields == Split(report, '\n')))
  }

  /**
   * In every run: a text that is saved, or that waits for another try, is one that differs from the original and is
   * not empty, comments aside; and only a try that failed leaves messages in the header.
   */
  lemma {:induction false} EveryRunChecks(raw: string, rounds: seq<Round>)
    ensures match After(raw, rounds)
            case Editing(st) => Reached(raw, st)
            case Ended(end) => end.Saved? ==> Changed(raw, end.text)
  {
    if rounds != [] {
      EveryRunChecks(raw, rounds[..|rounds| - 1]);
      if rounds[|rounds| - 1].saved.Some? {
        ScanIff(rounds[|rounds| - 1].saved.value);
      }
    }
  }

  lemma StepSaves(raw: string, st: State, round: Round, text: string)
    requires Step(raw, st, round) == Ended(Saved(text))
    ensures round == Round(Some(text), Accepted)
  {
  }

  lemma AfterMore(raw: string, rounds: seq<Round>, n: nat)
    requires |rounds| == n + 1
    ensures After(raw, rounds[..n]).Ended? ==> After(raw, rounds) == After(raw, rounds[..n])
    ensures After(raw, rounds[..n]).Editing? ==>
              After(raw, rounds) == Step(raw, After(raw, rounds[..n]).state, rounds[n])
  {
  }

  /** A run ends with a text saved only in a round whose editor left that text and whose verdict accepted it. */
  lemma {:induction false} SavedOnlyIfAccepted(raw: string, rounds: seq<Round>, text: string) returns (n: nat)
    requires After(raw, rounds) == Ended(Saved(text))
    ensures n < |rounds| && rounds[n] == Round(Some(text), Accepted) && After(raw, rounds[..n]).Editing?
  {
    n := |rounds| - 1;
    AfterMore(raw, rounds, n);
    if After(raw, rounds[..n]).Ended? {
      var front := rounds[..n];
      n := SavedOnlyIfAccepted(raw, front, text);
      assert front[..n] == rounds[..n] && front[n] == rounds[n];
    } else {
      StepSaves(raw, After(raw, rounds[..n]).state, rounds[n], text);
    }
  }

  /** While a run goes on after a round, that round was refused, and its messages are what the next header holds. */
  lemma GoesOnOnlyIfRefused(raw: string, rounds: seq<Round>)
    requires rounds != [] && After(raw, rounds).Editing?
    ensures var st, last := After(raw, rounds).state, rounds[|rounds| - 1];
            && last.saved == Some(st.edited) && st.containsError
            && (|| (last.verdict.Refused? && st.header.errors == [last.verdict.message] && st.header.extraFields == [])
                || (last.verdict.ExtraFields? && st.header.errors == []
                    && st.header.extraFields == Split(last.verdict.report, '\n')))
  {
  }

  /** A round in which the loop ends without a text being saved: why it does. */
  lemma EndsForAReason(raw: string, rounds: seq<Round>, st: State, round: Round)
    requires After(raw, rounds) == Editing(st)
    ensures match After(raw, rounds + [round])
            case Editing(_) => true
            case Ended(Saved(_)) => true
            case Ended(Failed) =>
              round.saved.None? || round.verdict.Broken? || Stops(Split(round.saved.value, '\n'))
            case Ended(NoValidChanges) =>
              round.saved.Some? && st.containsError && Strip(round.saved.value) == Strip(st.edited)
            case Ended(NoChanges) => round.saved.Some? && Strip(round.saved.value) == Strip(raw)
            case Ended(EmptyFile) => round.saved.Some? && AllSpace(Strip(round.saved.value))
  {
    assert (rounds + [round])[..|rounds|] == rounds;
    if round.saved.Some? {
      ScanIff(round.saved.value);
      PartsScanIff(Split(round.saved.value, '\n'));
    }
  }

  // ----- Saving the buffer as it is

  /** Nothing was ever tried: the loop ends, with no change made. */
  lemma UntouchedFirstRound(raw: string, verdict: Verdict)
    ensures Step(raw, START, Round(Some(Buffer(raw, START)), verdict)) == Ended(NoChanges)
  {
    HeaderIsAbsorbedIff(START.header, raw);
  }

  /** After a failed try, the cancel check sees an untouched buffer exactly when the error messages are quiet. */
  lemma UntouchedIsSeenIff(raw: string, st: State)
    requires Reached(raw, st) && st.containsError
    ensures Strip(Buffer(raw, st)) == Strip(HeaderText(st.header)) + Strip(st.edited)
    ensures Strip(st.edited) == Strip(Buffer(raw, st)) <==> AllQuiet(st.header.errors)
  {
    HeaderIsAbsorbedIff(st.header, Strip(st.edited));
    StripIsIdempotent(st.edited);
    if st.header.errors == [] {
      var report :| st.header.extraFields == Split(report, '\n');
      ReportLinesAreQuiet(report);
    }
  }

  /** Whatever the verdict on it would be, saving the buffer as it is ends the loop. */
  ghost predicate UntouchedEnds(raw: string, st: State) {
    forall verdict :: Step(raw, st, Round(Some(Buffer(raw, st)), verdict)).Ended?
  }

  /**
   * After a failed try, an untouched buffer ends the loop before anything is judged exactly when the error messages
   * are quiet, or when their loud lines happen to turn the rejected text back into the original, or when the buffer
   * has a line that the scanner cannot read.
   */
  lemma ReachedEndsIff(raw: string, st: State)
    requires Reached(raw, st) && st.containsError
    ensures UntouchedEnds(raw, st)
            <==> (|| AllQuiet(st.header.errors)
                  || Strip(raw) == Strip(HeaderText(st.header)) + Strip(st.edited)
                  || Scan(Buffer(raw, st)).Overlong?)
  {
    UntouchedIsSeenIff(raw, st);
    AllSpaceAppend(Strip(HeaderText(st.header)), Strip(st.edited));
    ScanIff(Buffer(raw, st));
    if !AllQuiet(st.header.errors) && Strip(raw) != Strip(HeaderText(st.header)) + Strip(st.edited)
       && !Scan(Buffer(raw, st)).Overlong?
    {
      assert Step(raw, st, Round(Some(Buffer(raw, st)), Refused(""))).Editing?;
    }
  }

  /** Wherever a run stands, it is known exactly when an untouched buffer ends it; in the first round it always does. */
  lemma UntouchedEndsIff(raw: string, rounds: seq<Round>)
    ensures var o := After(raw, rounds);
            o.Editing? ==>
              (UntouchedEnds(raw, o.state)
               <==> (|| !o.state.containsError
                     || AllQuiet(o.state.header.errors)
                     || Strip(raw) == Strip(HeaderText(o.state.header)) + Strip(o.state.edited)
                     || Scan(Buffer(raw, o.state)).Overlong?))
  {
    EveryRunChecks(raw, rounds);
    var o := After(raw, rounds);
    if o.Editing? {
      if o.state.containsError {
        ReachedEndsIff(raw, o.state);
      } else {
        forall verdict ensures Step(raw, o.state, Round(Some(Buffer(raw, o.state)), verdict)).Ended? {
          UntouchedFirstRound(raw, verdict);
        }
      }
    }
  }

  /** After an extra-fields report, whatever it says, an untouched buffer is recognised as such. */
  lemma UntouchedReportEnds(raw: string, text: string, report: string, verdict: Verdict)
    requires Changed(raw, text)
    ensures var st := State(Header([], Split(report, '\n')), true, text);
            Step(raw, st, Round(Some(Buffer(raw, st)), verdict)) == Ended(NoValidChanges)
  {
    var st := State(Header([], Split(report, '\n')), true, text);
    assert Reached(raw, st);
    UntouchedIsSeenIff(raw, st);
  }

  /** What follows the header: the text as it was, or the rejected one without its comments. */
  lemma BufferHoldsTheText(raw: string, st: State) returns (body: string)
    ensures Buffer(raw, st) == HeaderText(st.header) + body
    ensures !st.containsError ==> body == raw
    ensures st.containsError ==>
              NotComments(Split(body, '\n')) == Split(body, '\n') && Strip(body) == Strip(st.edited)
  {
    body := if st.containsError then Strip(st.edited) else raw;
    if st.containsError {
      StripIsIdempotent(st.edited);
      StrippedLines(st.edited);
      var lines := Split(st.edited, '\n');
      NotCommentsTwice(lines);
      NotCommentsAppend(NotComments(lines), LeftBehind(lines));
      EmptyIsNoComment();
    }
  }

  lemma EmptyIsNoComment()
    ensures NotComments([""]) == [""] && NotComments([]) == []
  {
    assert TrimSpace("") == "";
    assert [""][1..] == [];
  }

  lemma {:induction false} NotCommentsAppend(a: seq<string>, b: seq<string>)
    ensures NotComments(a + b) == NotComments(a) + NotComments(b)
  {
    if a == [] {
      assert a + b == b;
    } else {
      assert (a + b)[1..] == a[1..] + b;
      NotCommentsAppend(a[1..], b);
    }
  }

  lemma {:induction false} NotCommentsTwice(lines: seq<string>)
    ensures NotComments(NotComments(lines)) == NotComments(lines)
  {
    if lines != [] {
      NotCommentsTwice(lines[1..]);
      NotCommentsAppend(if IsComment(lines[0]) then [] else [lines[0]], NotComments(lines[1..]));
    }
  }

  // ----- A message of two lines

  const LOUD := "a\nb"

  /** A first try at the text was refused with the loud message. */
  function LoudState(text: string): State { State(Header([LOUD], []), true, text) }

  lemma OneCharacter(c: char)
    requires !IsSpace(c) && c != '#'
    ensures !IsComment([c]) && Strip([c]) == [c] && !AllSpace([c]) && Says([c]) && !TooLong([c]) && Scan([c]).Found?
  {
    TrimTight([c]);
    StripLast([c]);
    SplitFree([c], '\n');
    SizeIsBounded([c]);
    assert !IsSpace([c][0]);
  }

  lemma FirstTryIsRefused(raw: string, text: string)
    requires Strip(raw) != Strip(text) && Scan(text).Found?
    ensures After(raw, [Round(Some(text), Refused(LOUD))]) == Editing(LoudState(text))
  {
    var first := Round(Some(text), Refused(LOUD));
    assert [first][..0] == [];
    assert After(raw, []) == Editing(START);
    assert Step(raw, START, first) == Editing(LoudState(text));
  }

  lemma {:induction false} CommentsScanAway(blocks: seq<string>, rest: string)
    requires forall i :: 0 <= i < |blocks| ==> HashLine(blocks[i])
    ensures Scan(Lines(blocks) + rest) == Scan(rest)
  {
    if blocks == [] {
      assert "" + rest == rest;
    } else {
      CommentsScanAway(blocks[1..], rest);
      Assoc(blocks[0] + "\n", Lines(blocks[1..]), rest);
      HashIsComment(blocks[0]);
      SizeIsBounded(blocks[0]);
      ScanLine(blocks[0], Lines(blocks[1..]) + rest);
    }
  }

  /** One comment line of moderate length. */
  predicate HashLine(block: string) {
    block != "" && block[0] == '#' && '\n' !in block && |block| < 1000
  }

  lemma PreambleIsHashLines()
    ensures forall i :: 0 <= i < |PREAMBLE| ==> HashLine(PREAMBLE[i])
  {
    PleaseEditIsOneLine();
    EmptyAbortsIsOneLine();
    ReopenedIsOneLine();
    assert HashLine(PREAMBLE[0]);
    assert HashLine(PREAMBLE[1]);
    assert HashLine(PREAMBLE[2]);
    assert HashLine("#");
  }

  /** The second line of the message says something, and the scanner comes to it. */
  lemma LoudBufferScans(raw: string, text: string)
    ensures Scan(Buffer(raw, LoudState(text))).Found?
  {
    var body := Strip(text);
    var rest := Lines(["#"]) + body;
    var block := "# " + LOUD;
    assert ErrorBlocks([LOUD][1..]) == [];
    assert ErrorBlocks([LOUD]) == [block] + ["#"];
    assert Blocks(LoudState(text).header) == PREAMBLE + ([block] + ["#"]);
    LinesAppend(PREAMBLE, [block] + ["#"]);
    assert ([block] + ["#"])[1..] == ["#"];
    var tail := ['b'] + "\n" + rest;
    assert Lines([block] + ["#"]) + body == "# a" + "\n" + tail;
    Assoc(Lines(PREAMBLE), Lines([block] + ["#"]), body);
    PreambleIsHashLines();
    CommentsScanAway(PREAMBLE, "# a" + "\n" + tail);
    HashIsComment("# a");
    SizeIsBounded("# a");
    ScanLine("# a", tail);
    OneCharacter('b');
    ScanLine(['b'], rest);
  }

  lemma LoudIsNotQuiet()
    ensures !Quiet(LOUD)
  {
    OneCharacter('b');
    SplitPart("a", ['b'], '\n');
    SplitFree(['b'], '\n');
    assert LOUD == "a" + "\n" + ['b'];
    assert Split(LOUD, '\n')[1..][0] == ['b'];
  }

  /** One visible character is replaced by another, and the loop goes on with a buffer that nobody touched. */
  lemma LoudMessageGoesOn(c: char, d: char)
    requires !IsSpace(c) && c != '#' && !IsSpace(d) && d != '#' && c != d
    ensures var first := Round(Some([d]), Refused(LOUD));
            var o := After([c], [first]);
            o.Editing? && Step([c], o.state, Round(Some(Buffer([c], o.state)), first.verdict)).Editing?
  {
    var st := LoudState([d]);
    OneCharacter(c);
    OneCharacter(d);
    assert [c][0] != [d][0];
    FirstTryIsRefused([c], [d]);
    EveryRunChecks([c], [Round(Some([d]), Refused(LOUD))]);
    LoudIsNotQuiet();
    assert !AllQuiet(st.header.errors) by {
      assert st.header.errors[0] == LOUD;
    }
    UntouchedIsSeenIff([c], st);
    LastDiffers(Strip(HeaderText(st.header)), c, d);
    LoudBufferScans([c], [d]);
  }

  lemma LastDiffers(front: string, c: char, d: char)
    requires c != d
    ensures front + [d] != [c]
  {
    var t := front + [d];
    assert t[|t| - 1] == d;
    assert [c][|[c]| - 1] == c;
  }

  // ----- The header object

  class EditHeader {
    var errors: seq<string>
    var extraFields: seq<string>

    constructor ()
      ensures Value() == Header([], [])
    {
      errors, extraFields := [], [];
    }

    function Value(): Header
      reads this
    {
      Header(errors, extraFields)
    }

    method AddError(err: string)
      modifies this
      ensures Value() == old(Value()).(errors := old(errors) + [err])
    {
      errors := errors + [err];
    }

    method AddExtraFields(line: string)
      modifies this
      ensures Value() == old(Value()).(extraFields := old(extraFields) + [line])
    {
      extraFields := extraFields + [line];
    }

    method Flush()
      modifies this
      ensures Value() == Header([], [])
    {
      errors := [];
      extraFields := [];
    }

    method WriteTo() returns (text: string)
      ensures text == HeaderText(Value())
      ensures forall body :: Strip(text + body) == Strip(body) <==> AllQuiet(errors) && AllQuiet(extraFields)
    {
      text := Lines(PREAMBLE);
      var i := 0;
      while i < |errors|
        invariant 0 <= i <= |errors|
        invariant text + Lines(ErrorBlocks(errors[i..])) == Lines(PREAMBLE) + Lines(ErrorBlocks(errors))
      {
        assert errors[i..][1..] == errors[i + 1..];
        TwoLines("# " + errors[i], "#", ErrorBlocks(errors[i + 1..]));
        PushLine(text, "# " + errors[i], "#" + "\n" + Lines(ErrorBlocks(errors[i + 1..])));
        text := text + ("# " + errors[i] + "\n");
        PushLine(text, "#", Lines(ErrorBlocks(errors[i + 1..])));
        text := text + ("#" + "\n");
        i := i + 1;
      }
      assert text + "" == text;
      LinesAppend(PREAMBLE, ErrorBlocks(errors));
      ghost var blocks := PREAMBLE + ErrorBlocks(errors);
      if |extraFields| != 0 {
        text := WriteFields(text, extraFields);
        LinesAppend(blocks, ["# " + NOT_RECOGNIZED] + FieldBlocks(extraFields) + ["#"]);
      } else {
        assert blocks + [] == blocks;
      }
      forall body ensures Strip(text + body) == Strip(body) <==> AllQuiet(errors) && AllQuiet(extraFields) {
        HeaderIsAbsorbedIff(Value(), body);
      }
    }
  }

  method WriteFields(before: string, fields: seq<string>) returns (text: string)
    ensures text == before + Lines(["# " + NOT_RECOGNIZED] + FieldBlocks(fields) + ["#"])
  {
    ghost var heading := "# " + NOT_RECOGNIZED;
    text := "# " + NOT_RECOGNIZED + "\n";
    var i := 0;
    while i < |fields|
      invariant 0 <= i <= |fields|
      invariant text + Lines(FieldBlocks(fields[i..])) == Lines([heading] + FieldBlocks(fields))
    {
      assert fields[i..][1..] == fields[i + 1..];
      PushLine(text, "# " + fields[i], Lines(FieldBlocks(fields[i + 1..])));
      text := text + ("# " + fields[i] + "\n");
      i := i + 1;
    }
    assert text + "" == text;
    text := text + ("#" + "\n");
    assert Lines(["#"]) == "#" + "\n" + "";
    LinesAppend([heading] + FieldBlocks(fields), ["#"]);
    text := before + text;
  }

  lemma PushLine(text: string, line: string, rest: string)
    ensures text + (line + "\n") + rest == text + (line + "\n" + rest)
  {
    Assoc(text, line + "\n", rest);
  }

  // ----- The loop itself

  type Editor = (nat, string) -> Option<string>
  type Judge = string -> Verdict

  /** The rounds are what this editor and this judge make of the buffers. */
  predicate Played(raw: string, editor: Editor, judge: Judge, rounds: seq<Round>) {
    if rounds == [] then true
    else
      var n := |rounds| - 1;
      && Played(raw, editor, judge, rounds[..n])
      && After(raw, rounds[..n]).Editing?
      && rounds[n].saved == editor(n, Buffer(raw, After(raw, rounds[..n]).state))
      && (rounds[n].saved.Some? ==> rounds[n].verdict == judge(rounds[n].saved.value))
  }

  /** The header for the next try, or the end. */
  method Report(text: string, verdict: Verdict) returns (next: EditHeader, end: Option<End>)
    ensures fresh(next)
    ensures Judged(text, verdict)
            == if end.Some? then Ended(end.value) else Editing(State(next.Value(), true, text))
  {
    next := new EditHeader();
    end := None;
    match verdict {
      case Broken =>
        end := Some(Failed);
      case Refused(message) =>
        next.AddError(message);
      case ExtraFields(report) =>
        var fields := Split(report, '\n');
        var i := 0;
        while i < |fields|
          invariant 0 <= i <= |fields|
          invariant next.Value() == Header([], fields[..i])
        {
          next.AddExtraFields(fields[i]);
          i := i + 1;
        }
        assert fields[..i] == fields;
      case Accepted =>
        end := Some(Saved(text));
    }
  }

  /** One launch: the header is written and flushed, and the outcome is that of the machine. */
  method Launch(raw: string, header: EditHeader, containsError: bool, edited: string,
                round: nat, editor: Editor, judge: Judge)
    returns (next: EditHeader, saved: Option<string>, end: Option<End>)
    modifies header
    ensures saved == editor(round, Buffer(raw, State(old(header.Value()), containsError, edited)))
    ensures fresh(next)
    ensures var verdict := if saved.Some? then judge(saved.value) else Broken;
            Step(raw, State(old(header.Value()), containsError, edited), Round(saved, verdict))
            == if end.Some? then Ended(end.value)
               else Editing(State(next.Value(), true, if saved.Some? then saved.value else ""))
  {
    next := new EditHeader();
    var buf := header.WriteTo();
    header.Flush();
    var body := raw;
    if containsError {
      body := StripComments(edited);
    }
    saved := editor(round, buf + body);
    if saved.None? {
      end := Some(Failed);
      return;
    }
    var now := StripComments(saved.value);
    if containsError {
      var before := StripComments(edited);
      if before == now {
        end := Some(NoValidChanges);
        return;
      }
    }
    var original := StripComments(raw);
    if original == now {
      end := Some(NoChanges);
      return;
    }
    var lines, err := HasLines(saved.value);
    if err {
      end := Some(Failed);
      return;
    }
    if !lines {
      end := Some(EmptyFile);
      return;
    }
    next, end := Report(saved.value, judge(saved.value));
  }

  /** Every execution of the loop is a run of the machine, so what holds in every run holds of it. */
  method Edit(raw: string, editor: Editor, judge: Judge, limit: nat)
    returns (end: Option<End>, ghost rounds: seq<Round>)
    ensures Played(raw, editor, judge, rounds) && |rounds| <= limit
    ensures end.Some? ==> After(raw, rounds) == Ended(end.value)
    ensures end.None? ==> After(raw, rounds).Editing? && |rounds| == limit
    ensures end.Some? && end.value.Saved? ==> Changed(raw, end.value.text)
  {
    var header := new EditHeader();
    var containsError, edited := false, "";
    rounds, end := [], None;
    var n := 0;
    while n < limit && end.None?
      invariant 0 <= n <= limit && |rounds| == n
      invariant fresh(header)
      invariant Played(raw, editor, judge, rounds)
      invariant end.Some? ==> After(raw, rounds) == Ended(end.value)
      invariant end.None? ==> After(raw, rounds) == Editing(State(header.Value(), containsError, edited))
      decreases limit - n
    {
      var next, saved;
      next, saved, end := Launch(raw, header, containsError, edited, n, editor, judge);
      ghost var round := Round(saved, if saved.Some? then judge(saved.value) else Broken);
      assert (rounds + [round])[..n] == rounds;
      rounds := rounds + [round];
      header, containsError := next, true;
      edited := if saved.Some? then saved.value else "";
      n := n + 1;
    }
    EveryRunChecks(raw, rounds);
  }
}
