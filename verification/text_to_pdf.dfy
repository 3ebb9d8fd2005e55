/** Plain text to PDF: one paragraph per line, where lines are split the way
    BufferedReader.readLine splits them. */
module TextToPdf {
  import opened Pdf

  /** readLine ends a line at a line feed, a carriage return, or a carriage
      return followed by a line feed. */
  predicate IsTerminator(c: char) {
    c == '\n' || c == '\r'
  }

  predicate NoTerminator(s: string) {
    forall i :: 0 <= i < |s| ==> !IsTerminator(s[i])
  }

  /** The position of the first line terminator, or |s| if there is none. */
  function TerminatorIndex(s: string): (i: nat)
    ensures i <= |s|
    ensures i < |s| ==> IsTerminator(s[i])
    ensures NoTerminator(s[..i])
  {
    if |s| == 0 || IsTerminator(s[0]) then 0
    else
      var i := 1 + TerminatorIndex(s[1..]);
      assert s[..i] == [s[0]] + s[1..][..i - 1];
      i
  }

  /** The lines successive readLine calls return before reaching the end of
      the stream. */
  function ReadLines(s: string): (lines: seq<string>)
    ensures |lines| == 0 <==> |s| == 0
    ensures forall n :: 0 <= n < |lines| ==> NoTerminator(lines[n])
    decreases |s|
  {
    if |s| == 0 then []
    else
      var i := TerminatorIndex(s);
      if i == |s| then [s]
      else
        var next := if s[i] == '\r' && i + 1 < |s| && s[i + 1] == '\n' then i + 2 else i + 1;
        [s[..i]] + ReadLines(s[next..])
  }

  /** Text made of the given lines, each followed by a line feed. */
  function Unlines(lines: seq<string>): string {
    if |lines| == 0 then "" else lines[0] + "\n" + Unlines(lines[1..])
  }

  /** A line, any of the three terminators, then the rest of the text:
      readLine returns the line and carries on after the terminator. A lone
      carriage return counts only when no line feed follows it. */
  lemma ReadLinesSplitsAtTerminator(line: string, terminator: string, rest: string)
    requires NoTerminator(line)
    requires terminator == "\n" || terminator == "\r\n" || (terminator == "\r" && (|rest| == 0 || rest[0] != '\n'))
    ensures ReadLines(line + terminator + rest) == [line] + ReadLines(rest)
  {
    var s := line + terminator + rest;
    assert s == line + (terminator + rest);
    TerminatorIndexSkipsLine(line, terminator + rest);
    assert s[..|line|] == line;
    assert s[|line| + |terminator|..] == rest;
  }

  /** The search for a terminator passes over a line that holds none. */
  lemma {:induction false} TerminatorIndexSkipsLine(line: string, s: string)
    requires NoTerminator(line)
    ensures TerminatorIndex(line + s) == |line| + TerminatorIndex(s)
  {
    if |line| > 0 {
      assert (line + s)[0] == line[0] && !IsTerminator(line[0]);
      assert (line + s)[1..] == line[1..] + s;
      TerminatorIndexSkipsLine(line[1..], s);
    } else {
      assert line + s == s;
    }
  }

  /** Splitting text written as terminated lines gives those lines back. */
  lemma {:induction false} ReadLinesRoundTrip(lines: seq<string>)
    requires forall n :: 0 <= n < |lines| ==> NoTerminator(lines[n])
    ensures ReadLines(Unlines(lines)) == lines
  {
    if |lines| > 0 {
      ReadLinesSplitsAtTerminator(lines[0], "\n", Unlines(lines[1..]));
      ReadLinesRoundTrip(lines[1..]);
    }
  }

  /** The document TextToPdfConverter.convert closes, given the decoded text. */
  function Convert(text: string): (doc: PdfDocument)
    ensures |doc.elements| == |ReadLines(text)|
    ensures forall n :: 0 <= n < |doc.elements| ==> doc.elements[n] == Paragraph(ReadLines(text)[n], Regular)
    ensures forall n :: 0 <= n < |doc.elements| ==> NoTerminator(doc.elements[n].text)
    ensures |text| == 0 ==> doc.elements == []
  {
    var lines := ReadLines(text);
    PdfDocument(seq(|lines|, n requires 0 <= n < |lines| => Paragraph(lines[n], Regular)))
  }
}
