/** The header `saveSceneStream` writes, as the header scan of `loadScene`
    reads it back. */
module PlySavedHeader {
  import opened Wrappers
  import opened PyBytes
  import opened PyInt
  import opened PlyHeader
  import opened PlySave

  /** The dtype the loader builds from the writer's header. */
  const SavedLayout: Layout := [Field(Position, Float, 3), Field(Colour, UChar, 3)]

  // ---------------------------------------------------------------------
  // The bytes of the header lines

  /** No byte of `s` is one of `cs`. */
  predicate Avoids(s: Bytes, cs: set<char>)
  {
    forall j | 0 <= j < |s| :: s[j] !in cs
  }

  /** A string avoiding a byte of `t` does not contain `t`. */
  lemma AvoidsKey(s: Bytes, cs: set<char>, c: Byte, t: Bytes)
    requires Avoids(s, cs) && c in cs && c in t
    ensures !Contains(s, t)
  {
    MissingByte(s, t, c);
  }

  /** A string avoiding the newline holds none. */
  lemma AvoidsNewline(s: Bytes, cs: set<char>)
    requires Avoids(s, cs) && '\n' in cs
    ensures '\n' !in s
  {
    assert forall j | 0 <= j < |s| :: s[j] != '\n';
  }

  lemma MagicLineKeys()
    ensures '\n' !in MagicLine && !Contains(MagicLine, FaceKey) && !Contains(MagicLine, FormatKey) && !Contains(MagicLine, VertexKey) && !Contains(MagicLine, PropertyKey)
  {
    assert Avoids(MagicLine, {'\n', ' '});
    AvoidsNewline(MagicLine, {'\n', ' '});
    AvoidsKey(MagicLine, {'\n', ' '}, ' ', FaceKey);
    AvoidsKey(MagicLine, {'\n', ' '}, ' ', FormatKey);
    AvoidsKey(MagicLine, {'\n', ' '}, ' ', VertexKey);
    AvoidsKey(MagicLine, {'\n', ' '}, ' ', PropertyKey);
  }

  lemma FormatLineKeys()
    ensures '\n' !in FormatLine && !Contains(FormatLine, FaceKey) && !Contains(FormatLine, VertexKey) && !Contains(FormatLine, PropertyKey)
  {
    assert Avoids(FormatLine, {'\n', 'c', 'v', 'p'});
    AvoidsNewline(FormatLine, {'\n', 'c', 'v', 'p'});
    AvoidsKey(FormatLine, {'\n', 'c', 'v', 'p'}, 'c', FaceKey);
    AvoidsKey(FormatLine, {'\n', 'c', 'v', 'p'}, 'v', VertexKey);
    AvoidsKey(FormatLine, {'\n', 'c', 'v', 'p'}, 'p', PropertyKey);
  }

  lemma CommentLineKeys()
    ensures '\n' !in CommentLine && !Contains(CommentLine, FaceKey) && !Contains(CommentLine, VertexKey) && !Contains(CommentLine, PropertyKey)
  {
    assert Avoids(CommentLine, {'\n', 'l', 'x', 'p'});
    AvoidsNewline(CommentLine, {'\n', 'l', 'x', 'p'});
    AvoidsKey(CommentLine, {'\n', 'l', 'x', 'p'}, 'l', FaceKey);
    AvoidsKey(CommentLine, {'\n', 'l', 'x', 'p'}, 'x', VertexKey);
    AvoidsKey(CommentLine, {'\n', 'l', 'x', 'p'}, 'p', PropertyKey);
  }

  lemma XLineKeys()
    ensures '\n' !in XLine && !Contains(XLine, FaceKey) && !Contains(XLine, VertexKey)
  {
    assert Avoids(XLine, {'\n', 'c', 'v'});
    AvoidsNewline(XLine, {'\n', 'c', 'v'});
    AvoidsKey(XLine, {'\n', 'c', 'v'}, 'c', FaceKey);
    AvoidsKey(XLine, {'\n', 'c', 'v'}, 'v', VertexKey);
  }

  lemma YLineKeys()
    ensures '\n' !in YLine && !Contains(YLine, FaceKey) && !Contains(YLine, VertexKey)
  {
    assert Avoids(YLine, {'\n', 'c', 'v'});
    AvoidsNewline(YLine, {'\n', 'c', 'v'});
    AvoidsKey(YLine, {'\n', 'c', 'v'}, 'c', FaceKey);
    AvoidsKey(YLine, {'\n', 'c', 'v'}, 'v', VertexKey);
  }

  lemma ZLineKeys()
    ensures '\n' !in ZLine && !Contains(ZLine, FaceKey) && !Contains(ZLine, VertexKey)
  {
    assert Avoids(ZLine, {'\n', 'c', 'v'});
    AvoidsNewline(ZLine, {'\n', 'c', 'v'});
    AvoidsKey(ZLine, {'\n', 'c', 'v'}, 'c', FaceKey);
    AvoidsKey(ZLine, {'\n', 'c', 'v'}, 'v', VertexKey);
  }

  lemma RedLineKeys()
    ensures '\n' !in RedLine && !Contains(RedLine, FaceKey) && !Contains(RedLine, VertexKey)
  {
    assert Avoids(RedLine, {'\n', 'f', 'v'});
    AvoidsNewline(RedLine, {'\n', 'f', 'v'});
    AvoidsKey(RedLine, {'\n', 'f', 'v'}, 'f', FaceKey);
    AvoidsKey(RedLine, {'\n', 'f', 'v'}, 'v', VertexKey);
  }

  lemma GreenLineKeys()
    ensures '\n' !in GreenLine && !Contains(GreenLine, FaceKey) && !Contains(GreenLine, VertexKey)
  {
    assert Avoids(GreenLine, {'\n', 'f', 'v'});
    AvoidsNewline(GreenLine, {'\n', 'f', 'v'});
    AvoidsKey(GreenLine, {'\n', 'f', 'v'}, 'f', FaceKey);
    AvoidsKey(GreenLine, {'\n', 'f', 'v'}, 'v', VertexKey);
  }

  lemma BlueLineKeys()
    ensures '\n' !in BlueLine && !Contains(BlueLine, FaceKey) && !Contains(BlueLine, VertexKey)
  {
    assert Avoids(BlueLine, {'\n', 'f', 'v'});
    AvoidsNewline(BlueLine, {'\n', 'f', 'v'});
    AvoidsKey(BlueLine, {'\n', 'f', 'v'}, 'f', FaceKey);
    AvoidsKey(BlueLine, {'\n', 'f', 'v'}, 'v', VertexKey);
  }

  lemma FaceLineKeys()
    ensures '\n' !in FaceLine
  {
    assert Avoids(FaceLine, {'\n'});
    AvoidsNewline(FaceLine, {'\n'});
  }

  lemma FaceListLineKeys()
    ensures '\n' !in FaceListLine
  {
    assert Avoids(FaceListLine, {'\n'});
    AvoidsNewline(FaceListLine, {'\n'});
  }

  lemma EndLineKeys()
    ensures '\n' !in EndLine
  {
    assert Avoids(EndLine, {'\n'});
    AvoidsNewline(EndLine, {'\n'});
  }

  /** The vertex line: the prefix, then digits and perhaps a minus sign. */
  lemma VertexLineKeys(count: int)
    ensures var l := VertexPrefix + Decimal(count);
      && '\n' !in l && !Contains(l, FaceKey) && !Contains(l, PropertyKey)
      && l[..|VertexKey|] == VertexKey && l[1] == 'l'
      && !Contains(Decimal(count), VertexKey)
  {
    var d := Decimal(count);
    var l := VertexPrefix + d;
    assert Avoids(VertexPrefix, {'\n', 'f', 'p'});
    forall j | 0 <= j < |l| ensures l[j] !in {'\n', 'f', 'p'} {
      if j >= |VertexPrefix| {
        assert l[j] == d[j - |VertexPrefix|];
      }
    }
    AvoidsNewline(l, {'\n', 'f', 'p'});
    AvoidsKey(l, {'\n', 'f', 'p'}, 'f', FaceKey);
    AvoidsKey(l, {'\n', 'f', 'p'}, 'p', PropertyKey);
    assert Avoids(d, {'e'});
    AvoidsKey(d, {'e'}, 'e', VertexKey);
  }

  /** Facts about every line of the frame, stated on the constants. */
  lemma AllLineKeys(count: int)
    ensures '\n' !in MagicLine && !Contains(MagicLine, FaceKey) && !Contains(MagicLine, FormatKey)
    ensures !Contains(MagicLine, VertexKey) && !Contains(MagicLine, PropertyKey)
    ensures '\n' !in FormatLine && !Contains(FormatLine, FaceKey)
    ensures !Contains(FormatLine, VertexKey) && !Contains(FormatLine, PropertyKey)
    ensures '\n' !in CommentLine && !Contains(CommentLine, FaceKey)
    ensures !Contains(CommentLine, VertexKey) && !Contains(CommentLine, PropertyKey)
    ensures var l := VertexPrefix + Decimal(count);
      && '\n' !in l && !Contains(l, FaceKey) && !Contains(l, PropertyKey)
      && l[..|VertexKey|] == VertexKey && l[1] == 'l'
      && !Contains(Decimal(count), VertexKey)
    ensures '\n' !in XLine && !Contains(XLine, FaceKey) && !Contains(XLine, VertexKey)
    ensures '\n' !in YLine && !Contains(YLine, FaceKey) && !Contains(YLine, VertexKey)
    ensures '\n' !in ZLine && !Contains(ZLine, FaceKey) && !Contains(ZLine, VertexKey)
    ensures '\n' !in RedLine && !Contains(RedLine, FaceKey) && !Contains(RedLine, VertexKey)
    ensures '\n' !in GreenLine && !Contains(GreenLine, FaceKey) && !Contains(GreenLine, VertexKey)
    ensures '\n' !in BlueLine && !Contains(BlueLine, FaceKey) && !Contains(BlueLine, VertexKey)
    ensures '\n' !in FaceLine && '\n' !in FaceListLine && '\n' !in EndLine
  {
    MagicLineKeys();
    FormatLineKeys();
    CommentLineKeys();
    XLineKeys();
    YLineKeys();
    ZLineKeys();
    RedLineKeys();
    GreenLineKeys();
    BlueLineKeys();
    FaceLineKeys();
    FaceListLineKeys();
    EndLineKeys();
    VertexLineKeys(count);
  }

  // ---------------------------------------------------------------------
  // The header

  /** The header lines hold no newline, and only the last is `end_header`. */
  lemma FrameLinesPlain(count: int)
    ensures var lines := FrameLines(count);
      && |lines| == 13 && lines[12] == EndHeaderLine
      && (forall k :: 0 <= k < 13 ==> '\n' !in lines[k])
      && (forall k :: 0 <= k < 12 ==> lines[k] != EndHeaderLine)
  {
    AllLineKeys(count);
  }

  /** The header loop stops right after the frame, whatever follows it. */
  lemma FrameEnd(count: int, body: Bytes)
    ensures HeaderEnd(Frame(count) + body) == |Frame(count)|
  {
    FrameLinesPlain(count);
    HeaderEndAfterLines(FrameLines(count), body);
  }

  /** The lines before `element face `, whose bytes the face cut keeps. */
  function KeptLines(count: int): seq<Bytes>
  {
    FrameLines(count)[..10]
  }

  /** None of the kept lines contains `element face `. */
  lemma KeptLinesNoFace(count: int)
    ensures forall k :: 0 <= k < |KeptLines(count)| ==> !Contains(KeptLines(count)[k], FaceKey)
  {
    AllLineKeys(count);
  }

  /** The face cut keeps the first ten lines; splitting them on newlines
      gives them back and an empty last piece. */
  lemma FrameHeaderLines(count: int)
    ensures HeaderLines(Frame(count)) == KeptLines(count) + [[]]
  {
    var lines := FrameLines(count);
    var kept := KeptLines(count);
    var tail := Terminated(lines[10..]);
    assert lines == kept + lines[10..];
    TerminatedAppend(kept, lines[10..]);
    assert Frame(count) == Terminated(kept) + tail;
    assert tail == FaceLine + Newline + Terminated(lines[11..]);
    assert tail[..|FaceKey|] == FaceKey;
    KeptLinesNoFace(count);
    FirstPieceBeforeTail(kept, tail, FaceKey);
    FrameLinesPlain(count);
    SplitTerminated(kept);
  }

  /** The format line splits into its three tokens. */
  lemma FormatLineSplit()
    ensures OccursAt(FormatLine, FormatKey, 0)
    ensures Split(FormatLine, Space) == ["format", "binary_little_endian", "1.0"]
  {
    assert FormatLine[..|FormatKey|] == FormatKey;
    FormatLinePieces();
  }

  /** The format line is three space-free words separated by single spaces. */
  lemma FormatLinePieces()
    ensures Split(FormatLine, Space) == ["format", "binary_little_endian", "1.0"]
  {
    FormatLineWords();
    FormatWordsPlain();
    SplitThree(FormatLine, "format", "binary_little_endian", "1.0", ' ');
  }

  lemma FormatLineWords()
    ensures FormatLine == "format" + [' '] + "binary_little_endian" + [' '] + "1.0"
  {
  }

  lemma FormatWordsPlain()
    ensures ' ' !in "format" && ' ' !in "binary_little_endian" && ' ' !in "1.0"
  {
    assert Avoids("format", {' '});
    assert Avoids("binary_little_endian", {' '});
    assert Avoids("1.0", {' '});
  }

  /** The format token of the format line. */
  lemma FormatLineToken()
    ensures Contains(FormatLine, FormatKey)
    ensures FormatToken(FormatLine) == FormatName(BinaryLittleEndian)
  {
    FormatLineSplit();
  }

  /** The kept lines, followed by the empty piece after the last newline. */
  lemma KeptAt(count: int)
    ensures var lines := KeptLines(count) + [[]];
      && |lines| == 11
      && lines[0] == MagicLine && lines[1] == FormatLine && lines[2] == CommentLine
      && lines[3] == VertexPrefix + Decimal(count)
      && lines[4] == XLine && lines[5] == YLine && lines[6] == ZLine
      && lines[7] == RedLine && lines[8] == GreenLine && lines[9] == BlueLine
      && lines[10] == []
  {
    var f := FrameLines(count);
    assert KeptLines(count) == f[..10];
    assert |f| == 13;
  }

  /** The format line announces binary little-endian records. */
  lemma FrameFormat(count: int)
    ensures FindFormat(KeptLines(count) + [[]]) == Some(FormatName(BinaryLittleEndian))
  {
    var lines := KeptLines(count) + [[]];
    KeptAt(count);
    MagicLineKeys();
    FormatLineToken();
    var k := FirstFormatLine(lines);
    assert k == Some(1);
  }

  /** The vertex line sets the count. */
  lemma VertexLineScan(count: int, acc: Scan)
    ensures ScanLine(VertexPrefix + Decimal(count), acc) == Success(acc.(count := count))
  {
    var l := VertexPrefix + Decimal(count);
    VertexLineKeys(count);
    assert OccursAt(l, VertexKey, 0);
    assert Find(l, VertexKey) == Some(0);
    assert l[|VertexKey|..] == Decimal(count);
    SplitWithout(Decimal(count), VertexKey);
    assert VertexToken(l) == Decimal(count);
    ParseDecimal(count);
  }

  /** A `property` line of three tokens, scanned. */
  lemma PropertyScan(l: Bytes, kind: Bytes, name: Bytes, acc: Scan)
    requires l == PropertyKey + kind + Space + name
    requires !Contains(l, VertexKey) && ' ' !in kind && ' ' !in name
    ensures RoleOf(name).None? ==> ScanLine(l, acc) == Success(acc)
    ensures RoleOf(name).Some? && KindOf(kind).Some? ==>
      var r := RoleOf(name).value;
      ScanLine(l, acc) == Success(acc.(layout := acc.layout + [Field(r, KindOf(kind).value, GroupSize(r))]))
  {
    assert l[..|PropertyKey|] == PropertyKey;
    assert OccursAt(l, PropertyKey, 0);
    SplitThree(l, "property", kind, name, ' ');
  }

  /** A `property` line declaring field `r` of type `s`, scanned. */
  lemma DeclaringScan(l: Bytes, kind: Bytes, name: Bytes, r: Role, s: Scalar, acc: Scan)
    requires l == PropertyKey + kind + Space + name
    requires !Contains(l, VertexKey) && ' ' !in kind && ' ' !in name
    requires RoleOf(name) == Some(r) && KindOf(kind) == Some(s)
    ensures ScanLine(l, acc) == Success(acc.(layout := acc.layout + [Field(r, s, GroupSize(r))]))
  {
    PropertyScan(l, kind, name, acc);
  }

  /** A line with neither `element vertex ` nor `property ` leaves the scan
      as it is. */
  lemma InertScan(l: Bytes, acc: Scan)
    requires !Contains(l, VertexKey) && !Contains(l, PropertyKey)
    ensures ScanLine(l, acc) == Success(acc)
  {
  }

  /** A scan in which line `k` takes `accs[k]` to `accs[k + 1]`. */
  lemma {:induction false} ScanLinesSteps(lines: seq<Bytes>, accs: seq<Scan>)
    requires |accs| == |lines| + 1
    requires forall k :: 0 <= k < |lines| ==> ScanLine(lines[k], accs[k]) == Success(accs[k + 1])
    ensures ScanLines(lines, accs[0]) == Success(accs[|lines|])
    decreases |lines|
  {
    if |lines| > 0 {
      ScanLinesSteps(lines[1..], accs[1..]);
    }
  }

  /** The lines with no key the scan looks for leave it as it is. */
  lemma InertLinesScan(acc: Scan)
    ensures ScanLine(MagicLine, acc) == Success(acc)
    ensures ScanLine(FormatLine, acc) == Success(acc)
    ensures ScanLine(CommentLine, acc) == Success(acc)
    ensures ScanLine([], acc) == Success(acc)
  {
    MagicLineKeys();
    FormatLineKeys();
    CommentLineKeys();
    InertScan(MagicLine, acc);
    InertScan(FormatLine, acc);
    InertScan(CommentLine, acc);
    assert !Contains([], VertexKey) && !Contains([], PropertyKey);
  }

  /** `property float x` declares the position field. */
  lemma XLineScan(acc: Scan)
    ensures ScanLine(XLine, acc) == Success(acc.(layout := acc.layout + [Field(Position, Float, 3)]))
  {
    XLineKeys();
    assert RoleOf("x") == Some(Position) && KindOf("float") == Some(Float);
    DeclaringScan(XLine, "float", "x", Position, Float, acc);
  }

  /** `property float y` is skipped. */
  lemma YLineScan(acc: Scan)
    ensures ScanLine(YLine, acc) == Success(acc)
  {
    YLineKeys();
    assert RoleOf("y").None?;
    PropertyScan(YLine, "float", "y", acc);
  }

  /** `property float z` is skipped. */
  lemma ZLineScan(acc: Scan)
    ensures ScanLine(ZLine, acc) == Success(acc)
  {
    ZLineKeys();
    assert RoleOf("z").None?;
    PropertyScan(ZLine, "float", "z", acc);
  }

  /** `property uchar red` declares the colour field. */
  lemma RedLineScan(acc: Scan)
    ensures ScanLine(RedLine, acc) == Success(acc.(layout := acc.layout + [Field(Colour, UChar, 3)]))
  {
    RedLineKeys();
    assert RoleOf("red") == Some(Colour) && KindOf("uchar") == Some(UChar);
    DeclaringScan(RedLine, "uchar", "red", Colour, UChar, acc);
  }

  /** `property uchar green` is skipped. */
  lemma GreenLineScan(acc: Scan)
    ensures ScanLine(GreenLine, acc) == Success(acc)
  {
    GreenLineKeys();
    assert RoleOf("green").None?;
    PropertyScan(GreenLine, "uchar", "green", acc);
  }

  /** `property uchar blue` is skipped. */
  lemma BlueLineScan(acc: Scan)
    ensures ScanLine(BlueLine, acc) == Success(acc)
  {
    BlueLineKeys();
    assert RoleOf("blue").None?;
    PropertyScan(BlueLine, "uchar", "blue", acc);
  }

  /** A scan that gets through `a` goes on through `b` from where it got. */
  lemma {:induction false} ScanLinesAppend(a: seq<Bytes>, b: seq<Bytes>, acc: Scan, mid: Scan)
    requires ScanLines(a, acc) == Success(mid)
    ensures ScanLines(a + b, acc) == ScanLines(b, mid)
    decreases |a|
  {
    if |a| == 0 {
      assert a + b == b;
    } else {
      ScanLinesHead(a, acc);
      ScanLinesAppend(a[1..], b, ScanLine(a[0], acc).value, mid);
      ScanHeadAppend(a, b, acc);
    }
  }

  /** The same, for lines followed by more lines. */
  lemma ScanHeadAppend(a: seq<Bytes>, b: seq<Bytes>, acc: Scan)
    requires |a| > 0 && ScanLine(a[0], acc).Success?
    ensures ScanLines(a + b, acc) == ScanLines(a[1..] + b, ScanLine(a[0], acc).value)
  {
    assert (a + b)[0] == a[0];
    assert (a + b)[1..] == a[1..] + b;
  }


  /** The magic, format, comment and vertex lines set the count. */
  lemma ScanFirstLines(count: int)
    ensures ScanLines([MagicLine, FormatLine, CommentLine, VertexPrefix + Decimal(count)], Scan(0, []))
         == Success(Scan(count, []))
  {
    var s0 := Scan(0, []);
    InertLinesScan(s0);
    VertexLineScan(count, s0);
    ScanFour(MagicLine, FormatLine, CommentLine, VertexPrefix + Decimal(count), s0, s0, s0, s0, Scan(count, []));
  }

  /** One step of the scan at the head of the lines. */
  lemma ScanCons(l: Bytes, rest: seq<Bytes>, acc: Scan, next: Scan)
    requires ScanLine(l, acc) == Success(next)
    ensures ScanLines([l] + rest, acc) == ScanLines(rest, next)
  {
    assert ([l] + rest)[0] == l;
    assert ([l] + rest)[1..] == rest;
  }

  /** Four steps of the scan. */
  lemma ScanFour(l0: Bytes, l1: Bytes, l2: Bytes, l3: Bytes, a0: Scan, a1: Scan, a2: Scan, a3: Scan, a4: Scan)
    requires ScanLine(l0, a0) == Success(a1) && ScanLine(l1, a1) == Success(a2)
    requires ScanLine(l2, a2) == Success(a3) && ScanLine(l3, a3) == Success(a4)
    ensures ScanLines([l0, l1, l2, l3], a0) == Success(a4)
  {
    ScanTwo(l0, l1, a0, a1, a2);
    ScanTwo(l2, l3, a2, a3, a4);
    assert [l0, l1, l2, l3] == [l0, l1] + [l2, l3];
    ScanLinesAppend([l0, l1], [l2, l3], a0, a2);
  }

  /** Two lines, each taking the scan one step. */
  lemma ScanTwo(l0: Bytes, l1: Bytes, a0: Scan, a1: Scan, a2: Scan)
    requires ScanLine(l0, a0) == Success(a1) && ScanLine(l1, a1) == Success(a2)
    ensures ScanLines([l0, l1], a0) == Success(a2)
  {
    ScanCons(l1, [], a1, a2);
    assert [l1] + [] == [l1];
    ScanCons(l0, [l1], a0, a1);
    assert [l0] + [l1] == [l0, l1];
  }


  /** The float lines and `red` declare the two fields. */
  lemma ScanMiddleLines(count: int)
    ensures ScanLines([XLine, YLine, ZLine, RedLine], Scan(count, [])) == Success(Scan(count, SavedLayout))
  {
    var s3 := Scan(count, []);
    var s4 := Scan(count, [Field(Position, Float, 3)]);
    XLineScan(s3);
    assert s3.(layout := s3.layout + [Field(Position, Float, 3)]) == s4;
    YLineScan(s4);
    ZLineScan(s4);
    RedLineScan(s4);
    assert s4.(layout := s4.layout + [Field(Colour, UChar, 3)]) == Scan(count, SavedLayout);
    ScanFour(XLine, YLine, ZLine, RedLine, s3, s4, s4, s4, Scan(count, SavedLayout));
  }

  /** `green`, `blue` and the empty last piece change nothing. */
  lemma ScanLastLines(count: int)
    ensures ScanLines([GreenLine, BlueLine, []], Scan(count, SavedLayout)) == Success(Scan(count, SavedLayout))
  {
    var lines: seq<Bytes> := [GreenLine, BlueLine, []];
    var s7 := Scan(count, SavedLayout);
    var accs := [s7, s7, s7, s7];
    forall k | 0 <= k < |lines| ensures ScanLine(lines[k], accs[k]) == Success(accs[k + 1]) {
      if k == 0 {
        GreenLineScan(s7);
      } else if k == 1 {
        BlueLineScan(s7);
      } else {
        InertLinesScan(s7);
      }
    }
    ScanLinesSteps(lines, accs);
  }

  /** The scan of the kept lines finds the count and the two fields. */
  lemma FrameScan(count: int)
    ensures ScanLines(KeptLines(count) + [[]], Scan(0, [])) == Success(Scan(count, SavedLayout))
  {
    var a := [MagicLine, FormatLine, CommentLine, VertexPrefix + Decimal(count)];
    var b := [XLine, YLine, ZLine, RedLine];
    var c: seq<Bytes> := [GreenLine, BlueLine, []];
    KeptAt(count);
    assert KeptLines(count) + [[]] == a + (b + c);
    ScanFirstLines(count);
    ScanMiddleLines(count);
    ScanLastLines(count);
    ScanLinesAppend(b, c, Scan(count, []), Scan(count, SavedLayout));
    ScanLinesAppend(a, b + c, Scan(0, []), Scan(count, []));
  }

  /** The writer's header parses as a binary little-endian header with the
      written count and the fields x, y, z and red, green, blue. */
  lemma FrameParses(count: int)
    ensures ParseHeader(Frame(count)) == Parsed(Header(BinaryLittleEndian, count, SavedLayout))
  {
    FrameHeaderLines(count);
    KeptAt(count);
    FrameFormat(count);
    FrameScan(count);
    SavedHeaderFacts();
  }

  /** The magic line is the one the loader looks for, the little-endian
      format name names that format, and the writer's fields are distinct. */
  lemma SavedHeaderFacts()
    ensures MagicLine == Magic
    ensures FormatOf(Some(FormatName(BinaryLittleEndian))) == Some(BinaryLittleEndian)
    ensures DistinctRoles(SavedLayout)
  {
  }

}
