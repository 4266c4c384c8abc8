/** The ASCII loop of `_loadAscii` stopped by a line too short to index:
    what it hands over and where it leaves the stream. */
module PlyLoadStop {
  import opened PyBytes
  import opened PlyHeader
  import opened PlyLoad

  /** Lines with enough tokens followed by a line too short to index, with
      exactly one pass more than there are good lines. */
  lemma {:induction false} AsciiRowsStopsNext(lines: seq<Bytes>, tail: Bytes, c: nat)
    requires VertexLines(lines, c)
    requires |Split(ReadLine(tail), Space)| < c + 3
    ensures StopsAfter(lines, tail, c)
    decreases |lines|
  {
    if |lines| == 0 {
      StopsAfterNone(lines, tail, c);
    } else {
      StopsAfterStep(lines, tail, c);
      AsciiRowsStopsNext(lines[1..], tail, c);
    }
  }

  /** Lines with enough tokens followed by a line too short to index, with
      passes to go: the loop raises on the short line, and the vertices of
      the lines before it stay handed over. */
  lemma AsciiRowsStopsShort(lines: seq<Bytes>, tail: Bytes, c: nat, n: int)
    requires VertexLines(lines, c) && n > |lines|
    requires |Split(ReadLine(tail), Space)| < c + 3
    ensures AsciiRows(Concat(lines) + tail, c, n)
      == AsciiRead(LineRows(lines, c), true, |Concat(lines)| + |ReadLine(tail)|)
  {
    AsciiRowsStopsNext(lines, tail, c);
    AsciiRowsFailedStays(Concat(lines) + tail, c, |lines| + 1, n);
  }
}
