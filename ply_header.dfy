/** The PLY header scanner of `loadScene`: header collection, the face cut,
    the magic line, the format token, the vertex count and the record layout
    built from the `property` lines. */
module PlyHeader {
  import opened Wrappers
  import opened PyBytes
  import opened PyInt
  import opened Float32Words

  datatype Format = Ascii | BinaryBigEndian | BinaryLittleEndian

  /** The two property types the loader knows: `float` (numpy `f`, 4 bytes)
      and `uchar` (numpy `B`, 1 byte). */
  datatype Scalar = Float | UChar

  /** The record fields `v`, `n`, `c` and `a` of the numpy dtype. */
  datatype Role = Position | Normal | Colour | Alpha

  /** One entry `(name, type, (shape,))` of the dtype list. */
  datatype Field = Field(role: Role, kind: Scalar, shape: nat)

  type Layout = seq<Field>

  datatype Header = Header(format: Format, count: int, layout: Layout)

  /** The exceptions loading can raise. */
  datatype PlyError =
    | UnknownFormat        // `fm` is unbound when the format token is missing or unknown
    | BadVertexCount       // `int(...)` rejects the text after `element vertex `
    | MissingPropertyName  // a `property ` line with fewer than three tokens
    | UnknownPropertyType  // a recognised name whose type is neither `float` nor `uchar`
    | DuplicateField       // numpy refuses a dtype naming one field twice
    | TooFewTokens         // an ASCII vertex line without the tokens the decoder indexes
    | NegativeDimensions   // numpy refuses a default array of negative length
    | ZeroSizedRecords     // numpy's `fromfile` refuses a dtype without fields

  /** What the header scan yields: no model (bad magic), an error, or a header. */
  datatype Parsed = NotPly | HeaderFailed(error: PlyError) | Parsed(header: Header)

  const Magic: Bytes := "ply"
  const EndHeaderLine: Bytes := "end_header"
  const EndHeader: Bytes := "end_header\n"
  const FaceKey: Bytes := "element face "
  const FormatKey: Bytes := "format "
  const VertexKey: Bytes := "element vertex "
  const PropertyKey: Bytes := "property "
  const Space: Bytes := " "

  // ---------------------------------------------------------------------
  // Header collection

  /** Where the header loop stops reading in `data`: just after
      the first line that is exactly `end_header\n`, or at the end of the
      stream when there is none. */
  function HeaderEnd(data: Bytes): (e: nat)
    ensures e <= |data|
  {
    var line := ReadLine(data);
    if line == [] then 0
    else if line == EndHeader then |line|
    else |line| + HeaderEnd(data[|line|..])
  }

  /** Position `e` of `data` is the end of the stream or the end of a whole
      line `end_header\n`: one that starts the stream or follows a newline. */
  predicate StopsAt(data: Bytes, e: nat)
    requires e <= |data|
  {
    || e == |data|
    || (&& |EndHeader| <= e
        && data[e - |EndHeader|..e] == EndHeader
        && (e == |EndHeader| || data[e - |EndHeader| - 1] == '\n'))
  }

  /** The header loop stops at the end of the stream or right after a whole
      `end_header` line. */
  lemma {:induction false} HeaderEndStops(data: Bytes)
    ensures StopsAt(data, HeaderEnd(data))
  {
    var line := ReadLine(data);
    if line == EndHeader {
      EndHeaderFirst(data);
    } else if line != [] {
      var rest := data[|line|..];
      HeaderEndStops(rest);
      HeaderEndSkips(data, line, rest);
      LineBreakBefore(data, line);
      StopsAtShift(data, |line|, HeaderEnd(rest));
    }
  }

  /** What follows a line is the end of the stream or comes after a newline. */
  lemma LineBreakBefore(data: Bytes, line: Bytes)
    requires ReadLine(data) == line && line != []
    ensures |line| == |data| || data[|line| - 1] == '\n'
  {
    assert data[|line| - 1] == line[|line| - 1];
  }

  /** A header that begins with `end_header` ends right after it. */
  lemma EndHeaderFirst(data: Bytes)
    requires ReadLine(data) == EndHeader
    ensures StopsAt(data, HeaderEnd(data))
  {
    assert data[..|EndHeader|] == EndHeader;
  }

  /** Any other line is skipped, and the loop goes on with the rest. */
  lemma HeaderEndSkips(data: Bytes, line: Bytes, rest: Bytes)
    requires ReadLine(data) == line && line != [] && line != EndHeader
    requires rest == data[|line|..]
    ensures HeaderEnd(data) == |line| + HeaderEnd(rest)
  {
  }

  /** Where a suffix stops, the whole stops. */
  lemma StopsAtShift(data: Bytes, k: nat, e: nat)
    requires k <= |data| && e <= |data| - k
    requires k == 0 || k == |data| || data[k - 1] == '\n'
    requires StopsAt(data[k..], e)
    ensures StopsAt(data, k + e)
  {
    if e < |data| - k {
      DropSlice(data, k, e - |EndHeader|, e);
      if e > |EndHeader| {
        assert data[k..][e - |EndHeader| - 1] == data[k + e - |EndHeader| - 1];
      }
    }
  }

  /** A slice of a suffix is a slice of the whole. */
  lemma DropSlice(data: Bytes, k: nat, a: nat, b: nat)
    requires k <= |data| && a <= b <= |data| - k
    ensures data[k..][a..b] == data[k + a..k + b]
  {
  }

  /** A terminated line other than `end_header` does not stop the header loop. */
  lemma NotEndHeader(l: Bytes)
    requires l != EndHeaderLine
    ensures l + Newline != EndHeader
  {
    assert EndHeader[..10] == EndHeaderLine;
    assert (l + Newline)[..|l|] == l;
  }

  /** A stream that starts with newline-terminated lines, of which only the
      last is `end_header`, yields exactly those lines as its header. */
  lemma {:induction false} HeaderEndAfterLines(lines: seq<Bytes>, tail: Bytes)
    requires |lines| > 0 && lines[|lines| - 1] == EndHeaderLine
    requires forall k :: 0 <= k < |lines| ==> '\n' !in lines[k]
    requires forall k :: 0 <= k < |lines| - 1 ==> lines[k] != EndHeaderLine
    ensures HeaderEnd(Terminated(lines) + tail) == |Terminated(lines)|
    decreases |lines|
  {
    var l := lines[0];
    var rest := Terminated(lines[1..]);
    var data := Terminated(lines) + tail;
    assert data == l + Newline + (rest + tail);
    ReadTerminatedLine(l, rest + tail);
    if |lines| == 1 {
      assert lines[1..] == [];
      assert EndHeader == EndHeaderLine + Newline;
    } else {
      NotEndHeader(l);
      assert data[|l| + 1..] == rest + tail;
      HeaderEndAfterLines(lines[1..], tail);
    }
  }

  /** A stream of newline-terminated lines, none of them `end_header`, and a
      last line without a newline is read to its end. */
  lemma {:induction false} HeaderEndNoEnd(lines: seq<Bytes>, last: Bytes)
    requires forall k :: 0 <= k < |lines| ==> '\n' !in lines[k]
    requires forall k :: 0 <= k < |lines| ==> lines[k] != EndHeaderLine
    requires '\n' !in last
    ensures HeaderEnd(Terminated(lines) + last) == |Terminated(lines) + last|
    decreases |lines|
  {
    var data := Terminated(lines) + last;
    if |lines| == 0 {
      assert data == last;
      LastLineRead(last);
    } else {
      var l := lines[0];
      var rest := Terminated(lines[1..]) + last;
      assert data == l + Newline + rest;
      ReadTerminatedLine(l, rest);
      NotEndHeader(l);
      assert data[|l| + 1..] == rest;
      HeaderEndSkips(data, l + Newline, rest);
      HeaderEndNoEnd(lines[1..], last);
    }
  }

  /** A last line without a newline is read whole and ends the header. */
  lemma LastLineRead(last: Bytes)
    requires '\n' !in last
    ensures HeaderEnd(last) == |last|
  {
    if |last| == 0 { HeaderEndEmpty(); } else {
      WholeLastLine(last);
      NoNewlineNotEnd(last);
      assert last[|last|..] == [];
      HeaderEndSkips(last, last, []);
      HeaderEndEmpty();
    }
  }

  /** Text without a newline is not the line `end_header\n`. */
  lemma NoNewlineNotEnd(l: Bytes)
    requires '\n' !in l
    ensures l != EndHeader
  {
    EndHeaderNewline();
    assert '\n' in EndHeader;
  }

  lemma HeaderEndEmpty()
    ensures HeaderEnd([]) == 0
  {
  }

  lemma WholeLastLine(last: Bytes)
    requires '\n' !in last
    ensures ReadLine(last) == last
  {
    var line := ReadLine(last);
    if line != [] {
      assert line[|line| - 1] == last[|line| - 1];
    }
  }

  lemma EndHeaderNewline()
    ensures |EndHeader| == 11 && EndHeader[10] == '\n'
  {
  }

  // ---------------------------------------------------------------------
  // Face cut and lines

  /** The header text with everything from the first `element face ` on cut
      away, split into lines at each newline. */
  function HeaderLines(header: Bytes): (lines: seq<Bytes>)
    ensures |lines| >= 1
    ensures forall k :: 0 <= k < |lines| ==> !Contains(lines[k], Newline)
    ensures Join(lines, Newline) <= header
    ensures !Contains(Join(lines, Newline), FaceKey)
    ensures |Join(lines, Newline)| < |header| ==> OccursAt(header, FaceKey, |Join(lines, Newline)|)
  {
    SplitSpec(header, FaceKey);
    SplitSpec(Split(header, FaceKey)[0], Newline);
    Split(Split(header, FaceKey)[0], Newline)
  }

  // ---------------------------------------------------------------------
  // Format

  lemma FormatKeyHasSpace(line: Bytes)
    requires Contains(line, FormatKey)
    ensures Contains(line, Space)
  {
    var i: nat :| i <= |line| && OccursAt(line, FormatKey, i);
    assert line[i..i + 7][6] == line[i + 6];
    assert line[i + 6..i + 7] == Space;
    assert OccursAt(line, Space, i + 6);
  }

  /** `line.split(' ')[1]`; a line containing `format ` has a space, so the
      second token always exists. */
  function FormatToken(line: Bytes): Bytes
    requires Contains(line, FormatKey)
  {
    FormatKeyHasSpace(line);
    SplitPieces(line, Space);
    Split(line, Space)[1]
  }

  /** The format token is the text between the first space of the line and
      the next space, or the end of the line. */
  lemma FormatTokenMeaning(line: Bytes)
    requires Contains(line, FormatKey)
    ensures var p := Split(line, Space)[0]; var t := FormatToken(line);
      && !Contains(p, Space) && !Contains(t, Space)
      && |p| + 1 + |t| <= |line| && line[..|p| + 1 + |t|] == p + Space + t
      && (|p| + 1 + |t| == |line| || line[|p| + 1 + |t|] == ' ')
  {
    FormatKeyHasSpace(line);
    SplitSecond(line, Space);
    SplitClean(line, Space);
    var e := |Split(line, Space)[0]| + 1 + |FormatToken(line)|;
    if e < |line| {
      assert line[e..e + 1] == Space;
    }
  }

  /** The index of the first line containing `format `. */
  function FirstFormatLine(lines: seq<Bytes>): (k: Option<nat>)
    decreases |lines|
    ensures k.None? <==> forall j :: 0 <= j < |lines| ==> !Contains(lines[j], FormatKey)
    ensures k.Some? ==> k.value < |lines| && Contains(lines[k.value], FormatKey)
    ensures k.Some? ==> forall j :: 0 <= j < k.value ==> !Contains(lines[j], FormatKey)
  {
    if |lines| == 0 then None
    else if Contains(lines[0], FormatKey) then Some(0)
    else match FirstFormatLine(lines[1..])
      case None => None
      case Some(k) => Some(k + 1)
  }

  /** The format token: the second token of the first line with `format `. */
  function FindFormat(lines: seq<Bytes>): (t: Option<Bytes>)
    ensures t.None? <==> forall j :: 0 <= j < |lines| ==> !Contains(lines[j], FormatKey)
    ensures t.Some? ==> exists k :: (&& 0 <= k < |lines| && Contains(lines[k], FormatKey)
                                     && (forall j :: 0 <= j < k ==> !Contains(lines[j], FormatKey))
                                     && t.value == FormatToken(lines[k]))
  {
    match FirstFormatLine(lines)
    case None => None
    case Some(k) => Some(FormatToken(lines[k]))
  }

  /** The loop at the start of the header scan, stopping at the first match. */
  method ScanFormat(lines: seq<Bytes>) returns (format: Option<Bytes>)
    ensures format == FindFormat(lines)
    ensures format.None? <==> forall j :: 0 <= j < |lines| ==> !Contains(lines[j], FormatKey)
  {
    format := None;
    for i := 0 to |lines|
      invariant forall j :: 0 <= j < i ==> !Contains(lines[j], FormatKey)
    {
      if Contains(lines[i], FormatKey) {
        format := Some(FormatToken(lines[i]));
        return;
      }
    }
  }

  /** The token each format is written as. */
  function FormatName(f: Format): Bytes
  {
    match f
    case Ascii => "ascii"
    case BinaryBigEndian => "binary_big_endian"
    case BinaryLittleEndian => "binary_little_endian"
  }

  /** The format a token names; None leaves `fm` unbound. Recognition is
      exactly the inverse of FormatName. */
  function FormatOf(token: Option<Bytes>): (f: Option<Format>)
    ensures f.Some? ==> token == Some(FormatName(f.value))
    ensures f.None? ==> forall g: Format :: token != Some(FormatName(g))
  {
    if token == Some(FormatName(Ascii)) then Some(Ascii)
    else if token == Some(FormatName(BinaryBigEndian)) then Some(BinaryBigEndian)
    else if token == Some(FormatName(BinaryLittleEndian)) then Some(BinaryLittleEndian)
    else None
  }

  /** The numpy byte-order prefix `fm`: none for ASCII. */
  function ByteOrderOf(f: Format): (r: Option<ByteOrder>)
    ensures r.None? <==> f == Ascii
    ensures r == Some(LittleEndian) <==> f == BinaryLittleEndian
  {
    match f
    case Ascii => None
    case BinaryBigEndian => Some(BigEndian)
    case BinaryLittleEndian => Some(LittleEndian)
  }

  // ---------------------------------------------------------------------
  // Layout tables

  /** The names table `dt`: only these property names enter the layout. */
  function RoleOf(name: Bytes): (r: Option<Role>)
    ensures r.Some? ==> name == RoleName(r.value)
    ensures r.None? ==> forall g: Role :: name != RoleName(g)
  {
    if name == "x" then Some(Position)
    else if name == "nx" then Some(Normal)
    else if name == "red" then Some(Colour)
    else if name == "alpha" then Some(Alpha)
    else None
  }

  /** The property name each role is declared under. */
  function RoleName(r: Role): Bytes
  {
    match r
    case Position => "x"
    case Normal => "nx"
    case Colour => "red"
    case Alpha => "alpha"
  }

  /** The shapes table `ds`: three elements per role, one for alpha. */
  function GroupSize(r: Role): (g: nat)
    ensures g > 0
  {
    if r == Alpha then 1 else 3
  }

  /** The type table `df`. */
  function KindOf(token: Bytes): (k: Option<Scalar>)
    ensures k.Some? ==> token == KindName(k.value)
    ensures k.None? ==> forall g: Scalar :: token != KindName(g)
  {
    if token == "float" then Some(Float)
    else if token == "uchar" then Some(UChar)
    else None
  }

  /** The type name each scalar is declared under. */
  function KindName(k: Scalar): Bytes
  {
    match k
    case Float => "float"
    case UChar => "uchar"
  }

  /** Bytes one field takes in a binary record: width times shape. */
  function FieldSize(f: Field): nat
  {
    match f.kind
    case Float => 4 * f.shape
    case UChar => f.shape
  }

  /** The record stride: the field sizes summed in declaration order. */
  function Stride(layout: Layout): nat
  {
    if |layout| == 0 then 0 else FieldSize(layout[0]) + Stride(layout[1..])
  }

  lemma {:induction false} StrideAppend(a: Layout, b: Layout)
    ensures Stride(a + b) == Stride(a) + Stride(b)
    decreases |a|
  {
    if |a| == 0 {
      assert a + b == b;
    } else {
      assert (a + b)[1..] == a[1..] + b;
      StrideAppend(a[1..], b);
    }
  }

  /** Byte offset of field `k` in a record: the sizes of the fields before it. */
  function Offset(layout: Layout, k: nat): (o: nat)
    requires k <= |layout|
    ensures o <= Stride(layout)
    ensures k == |layout| ==> o == Stride(layout)
  {
    assert layout[..k] + layout[k..] == layout;
    StrideAppend(layout[..k], layout[k..]);
    Stride(layout[..k])
  }

  /** Each field starts where the one before it ends and lies inside the record. */
  lemma OffsetStep(layout: Layout, k: nat)
    requires k < |layout|
    ensures Offset(layout, k + 1) == Offset(layout, k) + FieldSize(layout[k])
    ensures Offset(layout, k) + FieldSize(layout[k]) <= Stride(layout)
  {
    assert layout[..k + 1] == layout[..k] + [layout[k]];
    StrideAppend(layout[..k], [layout[k]]);
    assert Stride([layout[k]]) == FieldSize(layout[k]) + Stride([layout[k]][1..]);
    assert layout == layout[..k + 1] + layout[k + 1..];
    StrideAppend(layout[..k + 1], layout[k + 1..]);
  }

  predicate DistinctRoles(layout: Layout)
  {
    forall i, j :: 0 <= i < j < |layout| ==> layout[i].role != layout[j].role
  }

  /** Where a field sits in the layout, if it is present (`name in fields`). */
  function IndexOf(layout: Layout, r: Role): (k: Option<nat>)
    decreases |layout|
    ensures k.None? <==> forall j :: 0 <= j < |layout| ==> layout[j].role != r
    ensures k.Some? ==> k.value < |layout| && layout[k.value].role == r
  {
    if |layout| == 0 then None
    else if layout[0].role == r then Some(0)
    else match IndexOf(layout[1..], r)
      case None => None
      case Some(k) => Some(k + 1)
  }

  predicate HasRole(layout: Layout, r: Role)
  {
    IndexOf(layout, r).Some?
  }

  // ---------------------------------------------------------------------
  // Vertex count and properties

  /** What the scan has gathered so far: `count` and the dtype list. */
  datatype Scan = Scan(count: int, layout: Layout)

  /** `line.split('element vertex ')[1]`, which exists since the key occurs. */
  function VertexToken(line: Bytes): Bytes
    requires Contains(line, VertexKey)
  {
    SplitPieces(line, VertexKey);
    Split(line, VertexKey)[1]
  }

  /** One pass of the count-and-properties loop over one line. */
  function ScanLine(line: Bytes, acc: Scan): Result<Scan, PlyError>
  {
    if Contains(line, VertexKey) then
      match ParseInt(VertexToken(line))
      case None => Failure(BadVertexCount)
      case Some(n) => Success(acc.(count := n))
    else if Contains(line, PropertyKey) then
      var props := Split(line, Space);
      if |props| < 3 then Failure(MissingPropertyName)
      else match RoleOf(props[2])
        case None => Success(acc)
        case Some(r) =>
          match KindOf(props[1])
          case None => Failure(UnknownPropertyType)
          case Some(kind) => Success(acc.(layout := acc.layout + [Field(r, kind, GroupSize(r))]))
    else Success(acc)
  }

  /** The count-and-properties loop over all lines; the first error stops it. */
  function ScanLines(lines: seq<Bytes>, acc: Scan): Result<Scan, PlyError>
    decreases |lines|
  {
    if |lines| == 0 then Success(acc)
    else match ScanLine(lines[0], acc)
      case Failure(e) => Failure(e)
      case Success(next) => ScanLines(lines[1..], next)
  }

  /** The loop that reads the vertex count and builds the dtype list. */
  method ScanProperties(lines: seq<Bytes>) returns (r: Result<Scan, PlyError>)
    ensures r == ScanLines(lines, Scan(0, []))
  {
    var count := 0;
    var dtype: Layout := [];
    for i := 0 to |lines|
      invariant ScanLines(lines, Scan(0, [])) == ScanLines(lines[i..], Scan(count, dtype))
    {
      assert lines[i..][1..] == lines[i + 1..];
      var line := lines[i];
      if Contains(line, VertexKey) {
        var n := ParseInt(VertexToken(line));
        if n.None? {
          return Failure(BadVertexCount);
        }
        count := n.value;
      } else if Contains(line, PropertyKey) {
        var props := Split(line, Space);
        if |props| < 3 {
          return Failure(MissingPropertyName);
        }
        var r := RoleOf(props[2]);
        if r.Some? {
          var kind := KindOf(props[1]);
          if kind.None? {
            return Failure(UnknownPropertyType);
          }
          dtype := dtype + [Field(r.value, kind.value, GroupSize(r.value))];
        }
      }
    }
    assert lines[|lines|..] == [];
    return Success(Scan(count, dtype));
  }

  // ---------------------------------------------------------------------
  // Reference readings of the scan

  /** A line the scan accepts. */
  predicate LineOk(line: Bytes)
  {
    if Contains(line, VertexKey) then ParseInt(VertexToken(line)).Some?
    else if Contains(line, PropertyKey) then
      var props := Split(line, Space);
      |props| >= 3 && (RoleOf(props[2]).Some? ==> KindOf(props[1]).Some?)
    else true
  }

  /** The exception a line that is not acceptable raises: `int` refuses the
      count, `props[2]` is out of range, or `df[props[1]]` has no entry. */
  function LineError(line: Bytes): PlyError
  {
    if Contains(line, VertexKey) then BadVertexCount
    else if |Split(line, Space)| < 3 then MissingPropertyName
    else UnknownPropertyType
  }

  /** The field one line declares, judged on that line alone: none, or one. */
  function LineFields(line: Bytes): Layout
  {
    if Contains(line, VertexKey) || !Contains(line, PropertyKey) then []
    else
      var props := Split(line, Space);
      if |props| < 3 then []
      else match (RoleOf(props[2]), KindOf(props[1]))
        case (Some(r), Some(kind)) => [Field(r, kind, GroupSize(r))]
        case _ => []
  }

  /** The fields the lines declare, in declaration order. */
  function DeclaredFields(lines: seq<Bytes>): Layout
    decreases |lines|
  {
    if |lines| == 0 then [] else LineFields(lines[0]) + DeclaredFields(lines[1..])
  }

  /** Every declared field holds at least one element, so the declared record
      has size zero exactly when no property line is recognised. */
  lemma {:induction false} DeclaredStrideZero(lines: seq<Bytes>)
    ensures Stride(DeclaredFields(lines)) == 0 <==> DeclaredFields(lines) == []
    decreases |lines|
  {
    if |lines| > 0 {
      var f := LineFields(lines[0]);
      DeclaredStrideZero(lines[1..]);
      StrideAppend(f, DeclaredFields(lines[1..]));
      if f != [] {
        assert Stride(f) == FieldSize(f[0]) + Stride(f[1..]);
      }
    }
  }

  /** The index of the last line that contains `element vertex `. */
  function LastVertexLine(lines: seq<Bytes>): (k: Option<nat>)
    decreases |lines|
    ensures k.None? <==> forall j :: 0 <= j < |lines| ==> !Contains(lines[j], VertexKey)
    ensures k.Some? ==> k.value < |lines| && Contains(lines[k.value], VertexKey)
    ensures k.Some? ==> forall j :: k.value < j < |lines| ==> !Contains(lines[j], VertexKey)
  {
    if |lines| == 0 then None
    else
      var later := LastVertexLine(lines[1..]);
      assert forall j :: 0 < j < |lines| ==> lines[j] == lines[1..][j - 1];
      if later.Some? then Some(later.value + 1)
      else if Contains(lines[0], VertexKey) then Some(0)
      else None
  }

  /** One pass of the loop fails exactly on a line that is not acceptable. */
  lemma ScanLineSucceeds(line: Bytes, acc: Scan)
    ensures ScanLine(line, acc).Success? <==> LineOk(line)
  {
  }

  /** A pass over a line that is not acceptable raises that line's exception,
      whatever was scanned before. */
  lemma ScanLineError(line: Bytes, acc: Scan)
    requires !LineOk(line)
    ensures ScanLine(line, acc) == Failure(LineError(line))
  {
  }

  /** One successful pass appends the line's own field, if any. */
  lemma ScanLineLayout(line: Bytes, acc: Scan)
    requires ScanLine(line, acc).Success?
    ensures ScanLine(line, acc).value.layout == acc.layout + LineFields(line)
  {
  }

  /** One successful pass sets the count exactly on an `element vertex ` line. */
  lemma ScanLineCount(line: Bytes, acc: Scan)
    requires ScanLine(line, acc).Success?
    ensures !Contains(line, VertexKey) ==> ScanLine(line, acc).value.count == acc.count
    ensures Contains(line, VertexKey) ==>
      ParseInt(VertexToken(line)) == Some(ScanLine(line, acc).value.count)
  {
  }

  lemma AppendAssoc(a: Layout, b: Layout, c: Layout)
    ensures a + b + c == a + (b + c)
  {
  }

  /** The scan succeeds exactly when every line is acceptable. */
  lemma {:induction false} ScanLinesSucceeds(lines: seq<Bytes>, acc: Scan)
    ensures ScanLines(lines, acc).Success? <==> forall k :: 0 <= k < |lines| ==> LineOk(lines[k])
    decreases |lines|
  {
    if |lines| > 0 {
      ScanLineSucceeds(lines[0], acc);
      assert forall k :: 0 < k < |lines| ==> lines[k] == lines[1..][k - 1];
      if ScanLine(lines[0], acc).Success? {
        ScanLinesSucceeds(lines[1..], ScanLine(lines[0], acc).value);
      }
    }
  }

  /** The scan stops with the exception of the first line that is not
      acceptable. */
  lemma {:induction false} ScanLinesFirstError(lines: seq<Bytes>, acc: Scan, k: nat)
    requires k < |lines| && !LineOk(lines[k])
    requires forall j :: 0 <= j < k ==> LineOk(lines[j])
    ensures ScanLines(lines, acc) == Failure(LineError(lines[k]))
    decreases k
  {
    ScanLinesCons(lines, acc);
    if k == 0 {
      ScanLineError(lines[0], acc);
    } else {
      ScanLineSucceeds(lines[0], acc);
      assert forall j :: 0 <= j < k - 1 ==> lines[1..][j] == lines[j + 1];
      ScanLinesFirstError(lines[1..], ScanLine(lines[0], acc).value, k - 1);
    }
  }

  /** The scan of a non-empty list: the first line's pass, then the rest. */
  lemma ScanLinesCons(lines: seq<Bytes>, acc: Scan)
    requires |lines| > 0
    ensures ScanLine(lines[0], acc).Failure? ==> ScanLines(lines, acc) == Failure(ScanLine(lines[0], acc).error)
    ensures ScanLine(lines[0], acc).Success? ==>
      ScanLines(lines, acc) == ScanLines(lines[1..], ScanLine(lines[0], acc).value)
  {
  }

  /** On success the layout is the declared fields, appended in order. */
  lemma {:induction false} ScanLinesLayout(lines: seq<Bytes>, acc: Scan)
    requires ScanLines(lines, acc).Success?
    ensures ScanLines(lines, acc).value.layout == acc.layout + DeclaredFields(lines)
    decreases |lines|
  {
    if |lines| == 0 {
      assert acc.layout + [] == acc.layout;
    } else {
      ScanLineLayout(lines[0], acc);
      var next := ScanLine(lines[0], acc).value;
      assert ScanLines(lines, acc) == ScanLines(lines[1..], next);
      ScanLinesLayout(lines[1..], next);
      var f := LineFields(lines[0]);
      var d := DeclaredFields(lines[1..]);
      assert DeclaredFields(lines) == f + d;
      assert next.layout == acc.layout + f;
      AppendAssoc(acc.layout, f, d);
    }
  }

  /** A successful scan passed its first line and went on from there. */
  lemma ScanLinesHead(lines: seq<Bytes>, acc: Scan)
    requires |lines| > 0 && ScanLines(lines, acc).Success?
    ensures ScanLine(lines[0], acc).Success?
    ensures ScanLines(lines, acc) == ScanLines(lines[1..], ScanLine(lines[0], acc).value)
  {
  }

  /** On success the count is the value of the LAST `element vertex ` line,
      and the starting count when there is none: later lines overrule. */
  lemma {:induction false} ScanLinesCount(lines: seq<Bytes>, acc: Scan)
    requires ScanLines(lines, acc).Success?
    ensures LastVertexLine(lines).None? ==> ScanLines(lines, acc).value.count == acc.count
    ensures LastVertexLine(lines).Some? ==>
      ParseInt(VertexToken(lines[LastVertexLine(lines).value])) == Some(ScanLines(lines, acc).value.count)
    decreases |lines|
  {
    if |lines| > 0 {
      var x := lines[0];
      var rest := lines[1..];
      ScanLinesHead(lines, acc);
      var next := ScanLine(x, acc).value;
      ScanLineCount(x, acc);
      ScanLinesCount(rest, next);
      if LastVertexLine(rest).Some? {
        assert lines[LastVertexLine(lines).value] == rest[LastVertexLine(rest).value];
      }
    }
  }

  // ---------------------------------------------------------------------
  // The whole header

  /** The header scan of `loadScene`, from the collected header text. */
  function ParseHeader(header: Bytes): Parsed
  {
    var lines := HeaderLines(header);
    if lines[0] != Magic then NotPly
    else match FormatOf(FindFormat(lines))
      case None => HeaderFailed(UnknownFormat)
      case Some(format) =>
        match ScanLines(lines, Scan(0, []))
        case Failure(e) => HeaderFailed(e)
        case Success(s) =>
          if DistinctRoles(s.layout) then Parsed(Header(format, s.count, s.layout))
          else HeaderFailed(DuplicateField)
  }

  /** A header parses exactly when its first line is `ply`, a format line
      names a known format, every line is acceptable and no field repeats;
      the result carries the first format line's token, the last vertex
      count and the declared fields in order. */
  lemma ParseHeaderMeaning(header: Bytes)
    ensures ParseHeader(header).NotPly? <==> HeaderLines(header)[0] != Magic
    ensures ParseHeader(header).Parsed? <==>
      && HeaderLines(header)[0] == Magic
      && FormatOf(FindFormat(HeaderLines(header))).Some?
      && (forall k :: 0 <= k < |HeaderLines(header)| ==> LineOk(HeaderLines(header)[k]))
      && DistinctRoles(DeclaredFields(HeaderLines(header)))
    ensures ParseHeader(header).Parsed? ==>
      var lines := HeaderLines(header);
      var h := ParseHeader(header).header;
      && FindFormat(lines) == Some(FormatName(h.format))
      && h.layout == DeclaredFields(lines)
      && (LastVertexLine(lines).None? ==> h.count == 0)
      && (LastVertexLine(lines).Some? ==> ParseInt(VertexToken(lines[LastVertexLine(lines).value])) == Some(h.count))
  {
    var lines := HeaderLines(header);
    ScanLinesSucceeds(lines, Scan(0, []));
    if ScanLines(lines, Scan(0, [])).Success? {
      ScanLinesLayout(lines, Scan(0, []));
      ScanLinesCount(lines, Scan(0, []));
      assert [] + DeclaredFields(lines) == DeclaredFields(lines);
    }
  }

  /** Which exception a header that starts with `ply` but does not parse
      raises: the `NameError` of an unknown format first, then the exception
      of the first line that is not acceptable, then numpy's refusal of a
      repeated field name. */
  lemma ParseHeaderErrors(header: Bytes)
    ensures var lines := HeaderLines(header);
      lines[0] == Magic && FormatOf(FindFormat(lines)).None? ==>
        ParseHeader(header) == HeaderFailed(UnknownFormat)
    ensures var lines := HeaderLines(header);
      forall k :: 0 <= k < |lines| && !LineOk(lines[k]) && (forall j :: 0 <= j < k ==> LineOk(lines[j])) ==>
        lines[0] == Magic && FormatOf(FindFormat(lines)).Some? ==>
          ParseHeader(header) == HeaderFailed(LineError(lines[k]))
    ensures var lines := HeaderLines(header);
      && lines[0] == Magic && FormatOf(FindFormat(lines)).Some?
      && (forall k :: 0 <= k < |lines| ==> LineOk(lines[k]))
      && !DistinctRoles(DeclaredFields(lines))
      ==> ParseHeader(header) == HeaderFailed(DuplicateField)
  {
    var lines := HeaderLines(header);
    forall k | 0 <= k < |lines| && !LineOk(lines[k]) && (forall j :: 0 <= j < k ==> LineOk(lines[j]))
      ensures ScanLines(lines, Scan(0, [])) == Failure(LineError(lines[k]))
    {
      ScanLinesFirstError(lines, Scan(0, []), k);
    }
    ScanLinesSucceeds(lines, Scan(0, []));
    if ScanLines(lines, Scan(0, [])).Success? {
      ScanLinesLayout(lines, Scan(0, []));
      assert [] + DeclaredFields(lines) == DeclaredFields(lines);
    }
  }
}
