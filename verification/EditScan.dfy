/**
 * cmd/kops/edit_cluster.go: hasLines, with the bufio.Scanner it reads lines from, and how it agrees with the stripping
 * of comments.
 */
module EditScan {
  import opened Prelude
  import opened Text
  import opened EditComments

  // ----- Lines that say something

  /** A line that is neither blank nor a comment. */
  predicate Says(line: string) { TrimSpace(line) != "" && !IsComment(line) }

  predicate AnySays(lines: seq<string>) { exists i :: 0 <= i < |lines| && Says(lines[i]) }

  lemma BlankIff(line: string)
    ensures TrimSpace(line) == "" <==> AllSpace(line)
  {
    var before, after := TrimSpaceShape(line);
    if TrimSpace(line) == "" {
      assert forall i :: 0 <= i < |line| ==> line[i] == if i < |before| then before[i] else after[i - |before|];
    } else {
      assert line[|before|] == TrimSpace(line)[0];
    }
  }

  lemma AllSpaceAppend(a: string, b: string)
    ensures AllSpace(a + b) <==> AllSpace(a) && AllSpace(b)
  {
    assert forall i :: 0 <= i < |a| ==> a[i] == (a + b)[i];
    assert forall i :: 0 <= i < |b| ==> b[i] == (a + b)[|a| + i];
  }

  lemma AnySaysCons(lines: seq<string>)
    requires lines != []
    ensures AnySays(lines) <==> Says(lines[0]) || AnySays(lines[1..])
  {
    assert forall i :: 0 < i < |lines| ==> lines[i] == lines[1..][i - 1];
    if AnySays(lines[1..]) {
      var i :| 0 <= i < |lines[1..]| && Says(lines[1..][i]);
      assert Says(lines[i + 1]);
    }
  }

  /** Some line says something exactly when the stripped text is not blank. */
  lemma {:induction false} PartsSayIff(parts: seq<string>)
    requires parts != []
    ensures AnySays(parts) <==> !AllSpace(StripParts(parts))
  {
    BlankIff(parts[0]);
    AnySaysCons(parts);
    if |parts| > 1 {
      PartsSayIff(parts[1..]);
      AllSpaceAppend(Kept(parts[0]), StripParts(parts[1..]));
      AllSpaceAppend(parts[0], "\n");
    }
  }

  // ----- The scanner

  /** The size of the scanner's buffer, which a line and its end must fit into. */
  const MAX_SCAN_TOKEN_SIZE := 65536

  /** The length of the character in UTF-8. */
  function Width(c: char): (n: nat)
    ensures 1 <= n <= 4
  {
    var point := c as int;
    if point < 0x80 then 1 else if point < 0x800 then 2 else if point < 0x10000 then 3 else 4
  }

  function Size(s: string): nat {
    if s == "" then 0 else Width(s[0]) + Size(s[1..])
  }

  predicate TooLong(line: string) { Size(line) >= MAX_SCAN_TOKEN_SIZE }

  lemma {:induction false} SizeIsBounded(s: string)
    ensures Size(s) <= 4 * |s|
  {
    if s != "" {
      SizeIsBounded(s[1..]);
    }
  }

  lemma {:induction false} AsciiSize(line: string)
    requires forall i :: 0 <= i < |line| ==> line[i] < 128 as char
    ensures Size(line) == |line|
  {
    if line != "" {
      AsciiSize(line[1..]);
    }
  }

  /** A line of ASCII characters is too long from 64 KB on. */
  lemma AsciiTooLongIff(line: string)
    requires forall i :: 0 <= i < |line| ==> line[i] < 128 as char
    ensures TooLong(line) <==> |line| >= 64 * 1024
  {
    AsciiSize(line);
  }

  datatype ScanResult = Found | Nothing | Overlong

  /** The first line that says something or does not fit the buffer decides. */
  function ScanParts(parts: seq<string>): ScanResult {
    if parts == [] then Nothing
    else if TooLong(parts[0]) then Overlong
    else if Says(parts[0]) then Found
    else ScanParts(parts[1..])
  }

  function Scan(text: string): ScanResult { ScanParts(Split(text, '\n')) }

  /** Line i does not fit, and no line before it says anything. */
  predicate StopsAt(parts: seq<string>, i: int) {
    0 <= i < |parts| && TooLong(parts[i]) && forall j :: 0 <= j < i ==> !Says(parts[j])
  }

  predicate Stops(parts: seq<string>) { exists i :: 0 <= i < |parts| && StopsAt(parts, i) }

  lemma StopsCons(parts: seq<string>)
    requires parts != []
    ensures Stops(parts) <==> TooLong(parts[0]) || (!Says(parts[0]) && Stops(parts[1..]))
  {
    var rest := parts[1..];
    assert forall i :: 0 < i < |parts| ==> parts[i] == rest[i - 1];
    if TooLong(parts[0]) {
      assert StopsAt(parts, 0);
    } else if !Says(parts[0]) && Stops(rest) {
      var i :| 0 <= i < |rest| && StopsAt(rest, i);
      assert StopsAt(parts, i + 1);
    } else if Stops(parts) {
      var i :| 0 <= i < |parts| && StopsAt(parts, i);
      assert StopsAt(rest, i - 1);
    }
  }

  lemma {:induction false} PartsScanIff(parts: seq<string>)
    ensures ScanParts(parts).Overlong? <==> Stops(parts)
    ensures ScanParts(parts).Found? ==> AnySays(parts)
    ensures ScanParts(parts).Nothing? ==> !AnySays(parts)
  {
    if parts != [] {
      PartsScanIff(parts[1..]);
      AnySaysCons(parts);
      StopsCons(parts);
    }
  }

  /** Unless a line is too long, the scanner tells exactly whether the stripped text is blank. */
  lemma ScanIff(text: string)
    ensures Scan(text).Found? ==> !AllSpace(Strip(text))
    ensures Scan(text).Nothing? ==> AllSpace(Strip(text))
  {
    PartsScanIff(Split(text, '\n'));
    PartsSayIff(Split(text, '\n'));
  }

  lemma ScanLine(line: string, rest: string)
    requires '\n' !in line
    ensures Scan(line + "\n" + rest) == if TooLong(line) then Overlong else if Says(line) then Found else Scan(rest)
  {
    SplitPart(line, rest, '\n');
    assert ([line] + Split(rest, '\n'))[1..] == Split(rest, '\n');
  }

  // ----- hasLines

  function DropReturn(line: string): string {
    if line != "" && line[|line| - 1] == '\r' then line[..|line| - 1] else line
  }

  lemma {:induction false} TrimIgnoresReturn(line: string)
    ensures TrimSpace(line + "\r") == TrimSpace(line)
  {
    if line == "" {
      assert TrimLeft("\r") == TrimLeft("");
    } else if IsSpace(line[0]) {
      assert (line + "\r")[1..] == line[1..] + "\r";
      TrimIgnoresReturn(line[1..]);
    } else {
      assert (line + "\r")[..|line|] == line;
    }
  }

  lemma ReturnSaysNothing(line: string)
    ensures Says(DropReturn(line)) <==> Says(line)
  {
    if line != "" && line[|line| - 1] == '\r' {
      assert line == DropReturn(line) + "\r";
      TrimIgnoresReturn(DropReturn(line));
    }
  }

  lemma {:induction false} EmptyLastScansAway(parts: seq<string>)
    requires parts != [] && parts[|parts| - 1] == ""
    ensures ScanParts(parts[..|parts| - 1]) == ScanParts(parts)
  {
    if |parts| == 1 {
      assert parts[1..] == [] && Size("") == 0;
      assert TrimSpace("") == "";
    } else {
      assert parts[..|parts| - 1][1..] == parts[1..][..|parts| - 2];
      EmptyLastScansAway(parts[1..]);
    }
  }

  /** The lines the scanner comes to: not an empty last one. */
  function RawLines(text: string): seq<string> {
    var parts := Split(text, '\n');
    if parts[|parts| - 1] == "" then parts[..|parts| - 1] else parts
  }

  /** The loop over the scanner's tokens. */
  method ScanFor(lines: seq<string>) returns (r: ScanResult)
    ensures r == ScanParts(lines)
  {
    var i := 0;
    while i < |lines|
      invariant 0 <= i <= |lines|
      invariant ScanParts(lines[i..]) == ScanParts(lines)
    {
      assert lines[i..][1..] == lines[i + 1..];
      if TooLong(lines[i]) {
        return Overlong;
      }
      ReturnSaysNothing(lines[i]);
      var line := TrimSpace(DropReturn(lines[i]));
      if |line| > 0 && line[0] != '#' {
        return Found;
      }
      i := i + 1;
    }
    return Nothing;
  }

  /**
   * An error exactly when a line that does not fit the scanner's buffer comes before any line that says something;
   * otherwise true exactly when something visible is left after the comments are stripped.
   */
  method HasLines(text: string) returns (found: bool, err: bool)
    ensures err <==> Stops(Split(text, '\n'))
    ensures err ==> !found
    ensures !err ==> (found <==> !AllSpace(Strip(text)))
    ensures Scan(text) == if err then Overlong else if found then Found else Nothing
  {
    var r := ScanFor(RawLines(text));
    ghost var parts := Split(text, '\n');
    if parts[|parts| - 1] == "" {
      EmptyLastScansAway(parts);
    }
    PartsScanIff(parts);
    ScanIff(text);
    return r.Found?, r.Overlong?;
  }
}
