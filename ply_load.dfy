/** The vertex decoders `_loadAscii` and `_loadBinary`, the mesh they fill,
    the stream they read from, and `loadScene`, which ties the header scan
    to them. */
module PlyLoad {
  import opened Wrappers
  import opened PyBytes
  import opened PyInt
  import opened Float32Words
  import opened PlyHeader

  // ---------------------------------------------------------------------
  // The mesh sink

  /** One entry of a decoded numpy array: a float32 word, a uint8 byte, or the
      constant of a default array (`np.zeros` gives 0, `255 * np.ones` 255). */
  datatype Value = Word(word: Float32) | Octet(octet: Byte) | Filled(fill: int)

  /** One row of a count-by-shape array. */
  type Row = seq<Value>

  /** The six token strings `_addVertex` receives for one ASCII vertex. */
  datatype AsciiVertex = AsciiVertex(x: Bytes, y: Bytes, z: Bytes, red: Bytes, green: Bytes, blue: Bytes)

  /** Everything the loader leaves in the mesh. */
  datatype MeshState = MeshState(
    vertexCount: int,
    vertexes: seq<Row>,
    normal: seq<Row>,
    colors: seq<Row>,
    prepared: seq<int>,
    added: seq<AsciiVertex>)

  /** The state of a freshly added mesh. */
  const Initial: MeshState := MeshState(0, [], [], [], [], [])

  /** The mesh of the model being loaded. The decoders assign its three arrays
      and its count, or hand it vertices one at a time; the latter two are
      recorded as received, since what the mesh does with them is not part of
      this model. */
  class Mesh {
    var vertexCount: int
    var vertexes: seq<Row>
    var normal: seq<Row>
    var colors: seq<Row>
    var prepared: seq<int>
    var added: seq<AsciiVertex>

    function State(): MeshState
      reads this
    {
      MeshState(vertexCount, vertexes, normal, colors, prepared, added)
    }

    constructor()
      ensures State() == Initial
    {
      vertexCount := 0;
      vertexes := [];
      normal := [];
      colors := [];
      prepared := [];
      added := [];
    }

    /** `_prepareVertexCount(count)`. */
    method PrepareVertexCount(count: int)
      modifies this
      ensures State() == old(State()).(prepared := old(prepared) + [count])
    {
      prepared := prepared + [count];
    }

    /** `_addVertex(x, y, z, r, g, b)`. */
    method AddVertex(v: AsciiVertex)
      modifies this
      ensures State() == old(State()).(added := old(added) + [v])
    {
      added := added + [v];
    }
  }

  // ---------------------------------------------------------------------
  // The input stream

  /** `i * stride`, the bytes taken by `i` records of `stride` bytes, as
      repeated addition so that the arithmetic on record offsets stays
      linear. */
  function Times(i: nat, stride: nat): nat
  {
    if i == 0 then 0 else Times(i - 1, stride) + stride
  }

  lemma {:induction false} TimesMono(i: nat, n: nat, stride: nat)
    requires i <= n
    ensures Times(i, stride) <= Times(n, stride)
    decreases n - i
  {
    if i < n {
      TimesMono(i, n - 1, stride);
    }
  }

  /** How many whole records of `stride` bytes fit in `available` bytes. */
  function WholeRecords(available: nat, stride: nat): nat
    requires stride > 0
    decreases available
  {
    if available < stride then 0 else 1 + WholeRecords(available - stride, stride)
  }

  lemma {:induction false} WholeRecordsBounds(available: nat, stride: nat)
    requires stride > 0
    ensures Times(WholeRecords(available, stride), stride) <= available
    ensures available < Times(WholeRecords(available, stride) + 1, stride)
    decreases available
  {
    if available >= stride {
      var m := WholeRecords(available - stride, stride);
      WholeRecordsBounds(available - stride, stride);
      assert WholeRecords(available, stride) == m + 1;
      assert Times(m + 2, stride) == Times(m + 1, stride) + stride;
    }
  }

  /** The number of whole records `np.fromfile` reads: `count` of them, or
      every whole record when `count` is negative or the stream is shorter;
      records without bytes are never read. */
  function RecordCount(available: nat, stride: nat, count: int): (n: nat)
    ensures Times(n, stride) <= available
  {
    if stride == 0 then 0
    else
      var all := WholeRecords(available, stride);
      WholeRecordsBounds(available, stride);
      if count < 0 || count > all then all
      else
        TimesMono(count, all, stride);
        count
  }

  /** RecordCount reads no more than asked, all that was asked when the
      stream holds it, and otherwise every whole record there is. */
  lemma RecordCountMeaning(available: nat, stride: nat, count: int)
    ensures var n := RecordCount(available, stride, count);
      && (stride == 0 ==> n == 0)
      && (count >= 0 ==> n <= count)
      && (stride > 0 && (count < 0 || Times(count, stride) > available) ==> available < Times(n + 1, stride))
      && (stride > 0 && 0 <= count && Times(count, stride) <= available ==> n == count)
  {
    if stride > 0 {
      WholeRecordsBounds(available, stride);
      var all := WholeRecords(available, stride);
      if 0 <= count <= all {
        TimesMono(count, all, stride);
      } else if count > all {
        TimesMono(all + 1, count, stride);
      }
    }
  }

  /** Record `i` lies inside the first `n` records. */
  lemma RecordInside(i: nat, n: nat, stride: nat)
    requires i < n
    ensures Times(i, stride) + stride <= Times(n, stride)
  {
    assert Times(i + 1, stride) == Times(i, stride) + stride;
    TimesMono(i + 1, n, stride);
  }

  /** `len` bytes of `s` from `start`. */
  function Slice(s: Bytes, start: nat, len: nat): (r: Bytes)
    requires start + len <= |s|
    ensures |r| == len
  {
    s[start..start + len]
  }

  /** The records `np.fromfile` reads from bytes `s`: consecutive slices of
      `stride` bytes from the start. */
  function Records(s: Bytes, stride: nat, count: int): (recs: seq<Bytes>)
    ensures |recs| == RecordCount(|s|, stride, count)
    ensures forall i :: 0 <= i < |recs| ==> |recs[i]| == stride
  {
    var n := RecordCount(|s|, stride, count);
    seq(n, i requires 0 <= i < n => Record(s, stride, n, i))
  }

  /** Record `i` of `n` records of `stride` bytes at the start of `s`. */
  function Record(s: Bytes, stride: nat, n: nat, i: nat): (r: Bytes)
    requires i < n && Times(n, stride) <= |s|
    ensures |r| == stride
  {
    RecordInside(i, n, stride);
    Slice(s, Times(i, stride), stride)
  }

  /** The bytes of record `i`, as the stream holds them. */
  lemma RecordAt(s: Bytes, stride: nat, count: int, i: nat)
    requires i < |Records(s, stride, count)|
    ensures Times(i, stride) + stride <= |s|
    ensures Records(s, stride, count)[i] == s[Times(i, stride)..Times(i, stride) + stride]
  {
    RecordInside(i, RecordCount(|s|, stride, count), stride);
  }

  /** Records laid end to end are read back one by one. */
  lemma RecordsOfConcat(recs: seq<Bytes>, stride: nat, tail: Bytes)
    requires stride > 0 && forall i :: 0 <= i < |recs| ==> |recs[i]| == stride
    ensures Records(Concat(recs) + tail, stride, |recs|) == recs
  {
    var s := Concat(recs) + tail;
    ConcatUniform(recs, stride);
    RecordCountMeaning(|s|, stride, |recs|);
    var r := Records(s, stride, |recs|);
    assert |r| == |recs|;
    forall i | 0 <= i < |recs|
      ensures r[i] == recs[i]
    {
      ConcatSlice(recs, stride, i);
      RecordAt(s, stride, |recs|, i);
      var start := Times(i, stride);
      assert s[start..start + stride] == Concat(recs)[start..start + stride];
    }
  }

  lemma {:induction false} ConcatUniform(recs: seq<Bytes>, stride: nat)
    requires forall i :: 0 <= i < |recs| ==> |recs[i]| == stride
    ensures |Concat(recs)| == Times(|recs|, stride)
    decreases |recs|
  {
    if |recs| > 0 {
      ConcatUniform(recs[1..], stride);
    }
  }

  lemma {:induction false} ConcatSlice(recs: seq<Bytes>, stride: nat, i: nat)
    requires i < |recs| && forall j :: 0 <= j < |recs| ==> |recs[j]| == stride
    ensures Times(i, stride) + stride <= |Concat(recs)|
    ensures Concat(recs)[Times(i, stride)..Times(i, stride) + stride] == recs[i]
    decreases i
  {
    ConcatUniform(recs, stride);
    RecordInside(i, |recs|, stride);
    var rest := Concat(recs[1..]);
    assert Concat(recs) == recs[0] + rest;
    if i > 0 {
      ConcatSlice(recs[1..], stride, i - 1);
      var start := Times(i - 1, stride);
      assert Times(i, stride) == stride + start;
      assert Concat(recs)[stride + start..stride + start + stride] == rest[start..start + stride];
    }
  }

  /** The file being loaded, read from front to back. */
  class InStream {
    const data: Bytes
    var pos: nat

    predicate Valid()
      reads this
    {
      pos <= |data|
    }

    /** The bytes not read yet. */
    function Rest(): Bytes
      reads this
      requires Valid()
    {
      data[pos..]
    }

    constructor(data: Bytes)
      ensures Valid() && this.data == data && pos == 0
    {
      this.data := data;
      pos := 0;
    }

    /** `readline()`. */
    method ReadLine() returns (line: Bytes)
      requires Valid()
      modifies this
      ensures Valid() && line == PyBytes.ReadLine(old(Rest())) && pos == old(pos) + |line|
    {
      line := PyBytes.ReadLine(data[pos..]);
      pos := pos + |line|;
    }

    /** `np.fromfile(stream, dtype, count)` for a dtype of `stride` bytes. */
    method ReadRecords(stride: nat, count: int) returns (recs: seq<Bytes>)
      requires Valid()
      modifies this
      ensures Valid() && recs == Records(old(Rest()), stride, count)
      ensures pos == old(pos) + Times(|recs|, stride)
    {
      recs := Records(data[pos..], stride, count);
      pos := pos + Times(|recs|, stride);
    }
  }

  // ---------------------------------------------------------------------
  // Binary vertices

  /** The `shape` values of a field whose bytes start at `b[at]`: float32
      words in the file's byte order, or bytes as they are. */
  function Scalars(b: Bytes, at: nat, kind: Scalar, shape: nat, order: ByteOrder): (vs: Row)
    requires at + FieldSize(Field(Position, kind, shape)) <= |b|
    ensures |vs| == shape
  {
    match kind
    case Float => seq(shape, j requires 0 <= j < shape => Word(Decode(b[at + 4 * j..at + 4 * j + 4], order)))
    case UChar => seq(shape, j requires 0 <= j < shape => Octet(b[at + j]))
  }

  /** `data[name]` for the field at index `k`: one row per record. */
  function Column(recs: seq<Bytes>, layout: Layout, k: nat, order: ByteOrder): (rows: seq<Row>)
    requires k < |layout|
    requires forall i :: 0 <= i < |recs| ==> |recs[i]| == Stride(layout)
    ensures |rows| == |recs|
  {
    seq(|recs|, i requires 0 <= i < |recs| => FieldOf(recs[i], layout, k, order))
  }

  /** The value of field `k` in one record. */
  function FieldOf(rec: Bytes, layout: Layout, k: nat, order: ByteOrder): Row
    requires k < |layout| && |rec| == Stride(layout)
  {
    OffsetStep(layout, k);
    Scalars(rec, Offset(layout, k), layout[k].kind, layout[k].shape, order)
  }

  /** A `count`-by-3 default array holding `fill` everywhere. */
  function Defaults(count: nat, fill: int): (rows: seq<Row>)
    ensures |rows| == count
    ensures forall i :: 0 <= i < count ==> rows[i] == [Filled(fill), Filled(fill), Filled(fill)]
  {
    seq(count, i => [Filled(fill), Filled(fill), Filled(fill)])
  }

  /** One mesh array: the field's column when the layout has it, otherwise
      the default array, which numpy refuses for a negative count. */
  function FieldArray(recs: seq<Bytes>, layout: Layout, r: Role, order: ByteOrder, count: int, fill: int)
    : (a: Result<seq<Row>, PlyError>)
    requires forall i :: 0 <= i < |recs| ==> |recs[i]| == Stride(layout)
    ensures a.Failure? <==> IndexOf(layout, r).None? && count < 0
    ensures a.Failure? ==> a.error == NegativeDimensions
    ensures a.Success? ==> |a.value| == if IndexOf(layout, r).Some? then |recs| else count
  {
    match IndexOf(layout, r)
    case Some(k) => Success(Column(recs, layout, k, order))
    case None => if count < 0 then Failure(NegativeDimensions) else Success(Defaults(count, fill))
  }

  /** What a decoder leaves behind: the mesh, the error it stopped with, and
      the number of bytes it read. */
  datatype Outcome = Outcome(state: MeshState, error: Option<PlyError>, used: nat)

  /** `_loadBinary` on a mesh in state `st` and a stream holding `s`.
      `fromfile` refuses a record of no bytes before reading anything. The
      count is assigned next; then positions, normals, colours in turn, the
      first default array numpy refuses stopping the rest. */
  function Binary(st: MeshState, s: Bytes, layout: Layout, order: ByteOrder, count: int): Outcome
  {
    if Stride(layout) == 0 then Outcome(st, Some(ZeroSizedRecords), 0) else
    var recs := Records(s, Stride(layout), count);
    var used := Times(|recs|, Stride(layout));
    var st1 := st.(vertexCount := count);
    match FieldArray(recs, layout, Position, order, count, 0)
    case Failure(e) => Outcome(st1, Some(e), used)
    case Success(vs) =>
      var st2 := st1.(vertexes := vs);
      match FieldArray(recs, layout, Normal, order, count, 0)
      case Failure(e) => Outcome(st2, Some(e), used)
      case Success(ns) =>
        var st3 := st2.(normal := ns);
        match FieldArray(recs, layout, Colour, order, count, 255)
        case Failure(e) => Outcome(st3, Some(e), used)
        case Success(cs) => Outcome(st3.(colors := cs), None, used)
  }

  /** `_loadBinary(mesh, stream, dtype, count)`. */
  method LoadBinary(mesh: Mesh, input: InStream, layout: Layout, order: ByteOrder, count: int)
    returns (error: Option<PlyError>)
    requires input.Valid()
    modifies mesh, input
    ensures input.Valid() && old(input.pos) <= input.pos
    ensures Outcome(mesh.State(), error, input.pos - old(input.pos))
         == Binary(old(mesh.State()), old(input.Rest()), layout, order, count)
  {
    if Stride(layout) == 0 {
      return Some(ZeroSizedRecords);
    }
    var recs := input.ReadRecords(Stride(layout), count);
    mesh.vertexCount := count;
    var vs := FieldArray(recs, layout, Position, order, count, 0);
    if vs.Failure? {
      return Some(vs.error);
    }
    mesh.vertexes := vs.value;
    var ns := FieldArray(recs, layout, Normal, order, count, 0);
    if ns.Failure? {
      return Some(ns.error);
    }
    mesh.normal := ns.value;
    var cs := FieldArray(recs, layout, Colour, order, count, 255);
    if cs.Failure? {
      return Some(cs.error);
    }
    mesh.colors := cs.value;
    error := None;
  }

  /** What one mesh array holds when the binary decoder succeeds, in terms of
      the stream itself: for a field of the layout, one row per record read,
      row `i` decoded from the field's bytes at its layout offset inside
      record `i`; for a missing field, `count` rows of the default value. */
  predicate RowsFrom(rows: seq<Row>, s: Bytes, layout: Layout, r: Role, order: ByteOrder, count: int, fill: int)
  {
    match IndexOf(layout, r)
    case Some(k) =>
      && |rows| == RecordCount(|s|, Stride(layout), count)
      && forall i :: 0 <= i < |rows| ==> RowAt(rows[i], s, layout, k, order, i)
    case None =>
      && count >= 0 && |rows| == count
      && forall i :: 0 <= i < |rows| ==> rows[i] == [Filled(fill), Filled(fill), Filled(fill)]
  }

  /** Row `i` of field `k` is field `k` of the `i`-th stride-long stretch
      of the stream. */
  predicate RowAt(row: Row, s: Bytes, layout: Layout, k: nat, order: ByteOrder, i: nat)
    requires k < |layout|
  {
    var start := Times(i, Stride(layout));
    && start + Stride(layout) <= |s|
    && row == FieldOf(s[start..start + Stride(layout)], layout, k, order)
  }

  /** The array of one role, read from the records, is what RowsFrom says. */
  lemma FieldArrayMeaning(s: Bytes, layout: Layout, r: Role, order: ByteOrder, count: int, fill: int)
    ensures var a := FieldArray(Records(s, Stride(layout), count), layout, r, order, count, fill);
      && (a.Failure? <==> !HasRole(layout, r) && count < 0)
      && (a.Failure? ==> a.error == NegativeDimensions)
      && (a.Success? ==> RowsFrom(a.value, s, layout, r, order, count, fill))
  {
    match IndexOf(layout, r)
    case None =>
    case Some(k) =>
      ColumnMeaning(s, layout, r, k, order, count, fill);
  }

  /** The column of a field of the layout is what RowsFrom says. */
  lemma ColumnMeaning(s: Bytes, layout: Layout, r: Role, k: nat, order: ByteOrder, count: int, fill: int)
    requires IndexOf(layout, r) == Some(k)
    ensures RowsFrom(Column(Records(s, Stride(layout), count), layout, k, order), s, layout, r, order, count, fill)
  {
    var rows := Column(Records(s, Stride(layout), count), layout, k, order);
    forall i | 0 <= i < |rows|
      ensures RowAt(rows[i], s, layout, k, order, i)
    {
      ColumnAt(s, layout, k, order, count, i);
    }
  }

  /** Row `i` of a column is decoded from the stream at the field's offset
      inside record `i`. */
  lemma ColumnAt(s: Bytes, layout: Layout, k: nat, order: ByteOrder, count: int, i: nat)
    requires k < |layout| && i < |Records(s, Stride(layout), count)|
    ensures RowAt(Column(Records(s, Stride(layout), count), layout, k, order)[i], s, layout, k, order, i)
  {
    RecordAt(s, Stride(layout), count, i);
    ColumnRowAt(s, Records(s, Stride(layout), count), layout, k, order, i);
  }

  /** The same, for any records whose record `i` is the stream's. */
  lemma ColumnRowAt(s: Bytes, recs: seq<Bytes>, layout: Layout, k: nat, order: ByteOrder, i: nat)
    requires k < |layout| && i < |recs|
    requires forall j :: 0 <= j < |recs| ==> |recs[j]| == Stride(layout)
    requires Times(i, Stride(layout)) + Stride(layout) <= |s|
    requires recs[i] == s[Times(i, Stride(layout))..Times(i, Stride(layout)) + Stride(layout)]
    ensures RowAt(Column(recs, layout, k, order)[i], s, layout, k, order, i)
  {
    assert Column(recs, layout, k, order)[i] == FieldOf(recs[i], layout, k, order);
  }

  /** `_loadBinary` refuses a layout of no bytes and leaves everything as it
      was. Otherwise it sets the count, reads whole records only, keeps what
      the ASCII path records, fails only when numpy must build a default
      array of negative length, and on success leaves each array as RowsFrom
      says. */
  lemma BinaryMeaning(st: MeshState, s: Bytes, layout: Layout, order: ByteOrder, count: int)
    ensures var o := Binary(st, s, layout, order, count);
      && (Stride(layout) == 0 ==> o == Outcome(st, Some(ZeroSizedRecords), 0))
      && (Stride(layout) > 0 ==>
            && o.state.vertexCount == count
            && o.state.prepared == st.prepared && o.state.added == st.added
            && o.used == Times(RecordCount(|s|, Stride(layout), count), Stride(layout)) <= |s|
            && (o.error.None? <==>
                  count >= 0 || (HasRole(layout, Position) && HasRole(layout, Normal) && HasRole(layout, Colour)))
            && (o.error.Some? ==> o.error == Some(NegativeDimensions)))
      && (o.error.None? ==>
            && RowsFrom(o.state.vertexes, s, layout, Position, order, count, 0)
            && RowsFrom(o.state.normal, s, layout, Normal, order, count, 0)
            && RowsFrom(o.state.colors, s, layout, Colour, order, count, 255))
  {
    FieldArrayMeaning(s, layout, Position, order, count, 0);
    FieldArrayMeaning(s, layout, Normal, order, count, 0);
    FieldArrayMeaning(s, layout, Colour, order, count, 255);
  }

  // ---------------------------------------------------------------------
  // ASCII vertices

  /** The token index `c` of the first colour token: three past each of the
      colour and normal fields, so that without a colour field it points back
      at the normal or position tokens. */
  function ColourStart(layout: Layout): (c: nat)
    ensures c == 0 || c == 3 || c == 6
    ensures c == 0 <==> !HasRole(layout, Colour) && !HasRole(layout, Normal)
    ensures c == 6 <==> HasRole(layout, Colour) && HasRole(layout, Normal)
  {
    (if HasRole(layout, Colour) then 3 else 0) + (if HasRole(layout, Normal) then 3 else 0)
  }

  /** The arguments `_addVertex(data[v], ..., data[c + 2])` with `v = 0`. */
  function RowOf(tokens: seq<Bytes>, c: nat): AsciiVertex
    requires c + 3 <= |tokens|
  {
    AsciiVertex(tokens[0], tokens[1], tokens[2], tokens[c], tokens[c + 1], tokens[c + 2])
  }

  /** Without a colour field the colour tokens are the normal tokens, or the
      position tokens when there is no normal field either. */
  lemma ColourAliasing(layout: Layout, tokens: seq<Bytes>)
    requires ColourStart(layout) + 3 <= |tokens|
    ensures var v := RowOf(tokens, ColourStart(layout));
      && (!HasRole(layout, Colour) && !HasRole(layout, Normal) ==>
            v.red == v.x && v.green == v.y && v.blue == v.z)
      && (!HasRole(layout, Colour) && HasRole(layout, Normal) ==>
            [v.red, v.green, v.blue] == tokens[3..6])
      && (HasRole(layout, Colour) && HasRole(layout, Normal) ==>
            [v.red, v.green, v.blue] == tokens[6..9])
  {
  }

  /** The vertices the ASCII loop hands over, whether an index error stopped
      it, and the bytes it read. */
  datatype AsciiRead = AsciiRead(rows: seq<AsciiVertex>, failed: bool, used: nat)

  /** `_loadAscii` on the stream's unread bytes `s`: `n` lines, each split on
      single spaces; the first line with fewer than `c + 3` tokens (an empty
      read at the end of the stream among them) raises IndexError. */
  function AsciiRows(s: Bytes, c: nat, n: int): (a: AsciiRead)
    decreases if n > 0 then n else 0
    ensures a.used <= |s|
  {
    if n <= 0 then AsciiRead([], false, 0)
    else
      var line := ReadLine(s);
      var tokens := Split(line, Space);
      if |tokens| < c + 3 then AsciiRead([], true, |line|)
      else
        var rest := AsciiRows(s[|line|..], c, n - 1);
        AsciiRead([RowOf(tokens, c)] + rest.rows, rest.failed, |line| + rest.used)
  }

  /** The loop runs `count` times when no line is short, and stops early
      otherwise. */
  lemma {:induction false} AsciiRowsCount(s: Bytes, c: nat, n: int)
    ensures !AsciiRows(s, c, n).failed ==> |AsciiRows(s, c, n).rows| == if n > 0 then n else 0
    ensures AsciiRows(s, c, n).failed ==> |AsciiRows(s, c, n).rows| < n
    decreases if n > 0 then n else 0
  {
    if n > 0 {
      var line := ReadLine(s);
      if |Split(line, Space)| >= c + 3 {
        AsciiRowsCount(s[|line|..], c, n - 1);
      }
    }
  }

  /** Whole lines, each with the tokens the ASCII loop indexes. */
  predicate VertexLines(lines: seq<Bytes>, c: nat)
  {
    forall k :: 0 <= k < |lines| ==> IsLine(lines[k]) && c + 3 <= |Split(lines[k], Space)|
  }

  /** The vertex each line stands for, in order. */
  function LineRows(lines: seq<Bytes>, c: nat): (rows: seq<AsciiVertex>)
    requires VertexLines(lines, c)
    ensures |rows| == |lines|
  {
    if |lines| == 0 then []
    else [RowOf(Split(lines[0], Space), c)] + LineRows(lines[1..], c)
  }

  /** Vertex `k` comes from line `k`. */
  lemma {:induction false} LineRowsAt(lines: seq<Bytes>, c: nat, k: nat)
    requires VertexLines(lines, c) && k < |lines|
    ensures LineRows(lines, c)[k] == RowOf(Split(lines[k], Space), c)
    decreases k
  {
    if k > 0 {
      LineRowsAt(lines[1..], c, k - 1);
    }
  }

  /** On lines that each have enough tokens, the loop reads exactly `|lines|`
      of them, leaves what follows unread, and hands over their vertices in
      order. Each line is given with its newline, as `readline()` returns it. */
  lemma {:induction false} AsciiRowsOfLines(lines: seq<Bytes>, tail: Bytes, c: nat)
    requires VertexLines(lines, c)
    ensures AsciiRows(Concat(lines) + tail, c, |lines|) == AsciiRead(LineRows(lines, c), false, |Concat(lines)|)
    decreases |lines|
  {
    if |lines| > 0 {
      var l := lines[0];
      var rest := Concat(lines[1..]) + tail;
      var s := Concat(lines) + tail;
      FrontLine(lines, tail);
      AsciiRowsStep(s, l, rest, c, |lines|);
      assert VertexLines(lines[1..], c) by {
        assert forall k :: 0 < k < |lines| ==> lines[k] == lines[1..][k - 1];
      }
      AsciiRowsOfLines(lines[1..], tail, c);
    }
  }

  /** `count` passes enough to reach the line after the vertex lines
      `lines` stop there: the loop raises on that line, the vertices of
      `lines` stay handed over in order, and the stream stands past the line
      it raised on. */
  predicate StopsAfter(lines: seq<Bytes>, tail: Bytes, c: nat)
    requires VertexLines(lines, c)
  {
    AsciiRows(Concat(lines) + tail, c, |lines| + 1)
      == AsciiRead(LineRows(lines, c), true, |Concat(lines)| + |ReadLine(tail)|)
  }

  /** With no vertex lines, the loop raises on the first line read. */
  lemma StopsAfterNone(lines: seq<Bytes>, tail: Bytes, c: nat)
    requires |lines| == 0 && |Split(ReadLine(tail), Space)| < c + 3
    ensures StopsAfter(lines, tail, c)
  {
    assert Concat(lines) + tail == tail;
    AsciiRowsShort(tail, ReadLine(tail), c, 1);
  }

  /** Stopping after the vertex lines past the first one means stopping
      after all of them. */
  lemma StopsAfterStep(lines: seq<Bytes>, tail: Bytes, c: nat)
    requires |lines| > 0 && VertexLines(lines, c)
    ensures VertexLines(lines[1..], c)
    ensures StopsAfter(lines[1..], tail, c) ==> StopsAfter(lines, tail, c)
  {
    VertexLinesRest(lines, c);
    FrontLine(lines, tail);
    AsciiRowsStep(Concat(lines) + tail, lines[0], Concat(lines[1..]) + tail, c, |lines| + 1);
    assert |Concat(lines)| == |lines[0]| + |Concat(lines[1..])|;
  }

  /** Once the loop has raised, one pass more changes nothing. */
  lemma {:induction false} AsciiRowsOneMore(s: Bytes, c: nat, m: int)
    requires AsciiRows(s, c, m).failed
    ensures AsciiRows(s, c, m + 1) == AsciiRows(s, c, m)
    decreases if m > 0 then m else 0
  {
    if m > 0 {
      var line := ReadLine(s);
      if |Split(line, Space)| >= c + 3 {
        AsciiRowsOneMore(s[|line|..], c, m - 1);
      }
    }
  }

  /** Once the loop has raised, passes to spare change nothing. */
  lemma {:induction false} AsciiRowsFailedStays(s: Bytes, c: nat, m: int, k: int)
    requires m <= k && AsciiRows(s, c, m).failed
    ensures AsciiRows(s, c, k) == AsciiRows(s, c, m)
    decreases k - m
  {
    if m < k {
      AsciiRowsFailedStays(s, c, m, k - 1);
      AsciiRowsOneMore(s, c, k - 1);
    }
  }

  lemma VertexLinesRest(lines: seq<Bytes>, c: nat)
    requires |lines| > 0 && VertexLines(lines, c)
    ensures VertexLines(lines[1..], c)
  {
    assert forall k :: 0 < k < |lines| ==> lines[k] == lines[1..][k - 1];
  }

  /** The first whole line of a text is what `readline()` returns from it. */
  lemma FrontLine(lines: seq<Bytes>, tail: Bytes)
    requires |lines| > 0 && IsLine(lines[0])
    ensures ReadLine(Concat(lines) + tail) == lines[0]
    ensures (Concat(lines) + tail)[|lines[0]|..] == Concat(lines[1..]) + tail
  {
    var s := Concat(lines) + tail;
    assert s == lines[0] + (Concat(lines[1..]) + tail);
    ReadWholeLine(lines[0], Concat(lines[1..]) + tail);
  }

  /** One pass of the ASCII loop over a line with enough tokens. */
  lemma AsciiRowsStep(s: Bytes, line: Bytes, rest: Bytes, c: nat, n: int)
    requires n > 0 && ReadLine(s) == line && s[|line|..] == rest
    requires c + 3 <= |Split(line, Space)|
    ensures var later := AsciiRows(rest, c, n - 1);
      AsciiRows(s, c, n) == AsciiRead([RowOf(Split(line, Space), c)] + later.rows, later.failed, |line| + later.used)
  {
  }

  /** One pass of the ASCII loop over a line too short to index: it stops. */
  lemma AsciiRowsShort(s: Bytes, line: Bytes, c: nat, n: int)
    requires n > 0 && ReadLine(s) == line && |Split(line, Space)| < c + 3
    ensures AsciiRows(s, c, n) == AsciiRead([], true, |line|)
  {
  }

  /** The vertices added and the stream position once the loop has read
      what `a` describes, after `added` and `pos`. */
  function After(added: seq<AsciiVertex>, pos: nat, a: AsciiRead): AsciiRead
  {
    AsciiRead(added + a.rows, a.failed, pos + a.used)
  }

  lemma AppendOne(a: seq<AsciiVertex>, v: AsciiVertex, b: seq<AsciiVertex>)
    ensures (a + [v]) + b == a + ([v] + b)
  {
  }

  /** One pass of the ASCII loop with `n` passes to go: a line is read and
      split; a line too short to index stops the loop, any other adds its
      vertex. */
  method ReadVertex(mesh: Mesh, input: InStream, c: nat, ghost n: int) returns (stop: bool)
    requires input.Valid() && n > 0
    modifies mesh, input
    ensures input.Valid() && old(input.pos) <= input.pos
    ensures mesh.State() == old(mesh.State()).(added := mesh.added)
    ensures stop ==> (mesh.added == old(mesh.added) &&
      AsciiRows(old(input.Rest()), c, n) == AsciiRead([], true, input.pos - old(input.pos)))
    ensures !stop ==> (After(mesh.added, input.pos, AsciiRows(input.Rest(), c, n - 1))
      == After(old(mesh.added), old(input.pos), AsciiRows(old(input.Rest()), c, n)))
  {
    ghost var before := input.Rest();
    var line := input.ReadLine();
    assert input.Rest() == before[|line|..];
    var data := Split(line, Space);
    if |data| < c + 3 {
      AsciiRowsShort(before, line, c, n);
      return true;
    }
    ghost var rest := input.Rest();
    ghost var later := AsciiRows(rest, c, n - 1);
    AsciiRowsStep(before, line, rest, c, n);
    ghost var added := mesh.added;
    var v := RowOf(data, c);
    mesh.AddVertex(v);
    assert input.Rest() == rest;
    AppendOne(added, v, later.rows);
    stop := false;
  }

  /** `_loadAscii(mesh, stream, dtype, count)`. */
  method LoadAscii(mesh: Mesh, input: InStream, layout: Layout, count: int) returns (error: Option<PlyError>)
    requires input.Valid()
    modifies mesh, input
    ensures input.Valid() && old(input.pos) <= input.pos
    ensures var a := AsciiRows(old(input.Rest()), ColourStart(layout), count);
      && mesh.State() == old(mesh.State()).(added := old(mesh.added) + a.rows)
      && input.pos == old(input.pos) + a.used
      && (error.Some? <==> a.failed)
      && (error.Some? ==> error.value == TooFewTokens)
  {
    var c := ColourStart(layout);
    ghost var whole := After(mesh.added, input.pos, AsciiRows(input.Rest(), c, count));
    var i := 0;
    ghost var left := count;
    while i < count
      invariant input.Valid() && old(input.pos) <= input.pos
      invariant 0 <= i && (count >= 0 ==> i <= count)
      invariant mesh.vertexCount == old(mesh.vertexCount) && mesh.vertexes == old(mesh.vertexes)
      invariant mesh.normal == old(mesh.normal) && mesh.colors == old(mesh.colors)
      invariant mesh.prepared == old(mesh.prepared)
      invariant left == count - i
      invariant After(mesh.added, input.pos, AsciiRows(input.Rest(), c, left)) == whole
      decreases count - i
    {
      i := i + 1;
      var stop := ReadVertex(mesh, input, c, left);
      left := left - 1;
      if stop {
        return Some(TooFewTokens);
      }
    }
    error := None;
  }

  // ---------------------------------------------------------------------
  // loadScene

  /** The header loop of `loadScene`: lines are read and appended until one
      is `end_header` or the stream ends. */
  method CollectHeader(input: InStream) returns (header: Bytes)
    requires input.Valid()
    modifies input
    ensures input.Valid()
    ensures header == old(input.Rest())[..HeaderEnd(old(input.Rest()))]
    ensures input.pos == old(input.pos) + |header|
  {
    ghost var whole := input.Rest();
    header := [];
    var line: Option<Bytes> := None;
    while line != Some(EndHeader) && line != Some([])
      invariant input.Valid() && input.pos == old(input.pos) + |header|
      invariant whole == header + input.Rest()
      invariant line.None? ==> header == []
      invariant HeaderEnd(whole) == |header| +
        (if line == Some(EndHeader) || line == Some([]) then 0 else HeaderEnd(input.Rest()))
      decreases |input.Rest()| + (if line == Some(EndHeader) || line == Some([]) then 0 else 1)
    {
      var next := ReadHeaderLine(input);
      BytesAssoc(header, next, input.Rest());
      line := Some(next);
      header := header + next;
    }
    assert whole[..|header|] == header;
  }

  /** `f.readline()` in the header loop, with what it means for where the
      loop stops. */
  method ReadHeaderLine(input: InStream) returns (line: Bytes)
    requires input.Valid()
    modifies input
    ensures input.Valid() && input.pos == old(input.pos) + |line|
    ensures old(input.Rest()) == line + input.Rest()
    ensures HeaderEnd(old(input.Rest())) ==
      if line == [] || line == EndHeader then |line| else |line| + HeaderEnd(input.Rest())
  {
    ghost var before := input.Rest();
    line := input.ReadLine();
    HeaderEndNext(before, line, input.Rest());
  }

  /** One pass of the header loop over the line `readline()` returned. */
  lemma HeaderEndNext(data: Bytes, line: Bytes, rest: Bytes)
    requires ReadLine(data) == line && data[|line|..] == rest
    ensures data == line + rest
    ensures HeaderEnd(data) ==
      if line == [] || line == EndHeader then |line| else |line| + HeaderEnd(rest)
  {
    assert data == data[..|line|] + data[|line|..];
  }

  /** What `loadScene` returns: no model for a file without the magic line,
      an exception, or a model whose header was this. */
  datatype Loaded = NotPlyFile | LoadFailed(error: PlyError) | LoadedScene(header: Header)

  /** `loadScene` on a file holding `file`: the result and the mesh left. */
  function Load(file: Bytes): (r: (Loaded, MeshState))
    ensures r.0.NotPlyFile? <==> ParseHeader(file[..HeaderEnd(file)]).NotPly?
    ensures r.0.LoadedScene? ==> ParseHeader(file[..HeaderEnd(file)]) == Parsed(r.0.header)
    ensures !ParseHeader(file[..HeaderEnd(file)]).Parsed? ==> r.1 == Initial
  {
    var e := HeaderEnd(file);
    var body := file[e..];
    match ParseHeader(file[..e])
    case NotPly => (NotPlyFile, Initial)
    case HeaderFailed(err) => (LoadFailed(err), Initial)
    case Parsed(h) =>
      if h.format == Ascii then
        var a := AsciiRows(body, ColourStart(h.layout), h.count);
        (if a.failed then LoadFailed(TooFewTokens) else LoadedScene(h),
         Initial.(prepared := [h.count], added := a.rows))
      else
        var o := Binary(Initial, body, h.layout, ByteOrderOf(h.format).value, h.count);
        (if o.error.Some? then LoadFailed(o.error.value) else LoadedScene(h), o.state)
  }

  /** The header part of `loadScene`: the header lines are collected from
      the stream, cut at the face element and scanned. */
  method ReadHeader(input: InStream) returns (parsed: Parsed)
    requires input.Valid()
    modifies input
    ensures input.Valid() && input.pos == old(input.pos) + HeaderEnd(old(input.Rest()))
    ensures parsed == ParseHeader(old(input.Rest())[..HeaderEnd(old(input.Rest()))])
  {
    var header := CollectHeader(input);
    var lines := HeaderLines(header);
    if lines[0] != Magic {
      return NotPly;
    }
    var token := ScanFormat(lines);
    var format := FormatOf(token);
    if format.None? {
      return HeaderFailed(UnknownFormat);
    }
    var scan := ScanProperties(lines);
    if scan.Failure? {
      return HeaderFailed(scan.error);
    }
    if !DistinctRoles(scan.value.layout) {
      return HeaderFailed(DuplicateField);
    }
    parsed := Parsed(Header(format.value, scan.value.count, scan.value.layout));
  }

  /** `loadScene(filename)` on a file holding `file`. */
  method LoadScene(file: Bytes) returns (result: Loaded, mesh: Mesh)
    ensures (result, mesh.State()) == Load(file)
  {
    mesh := new Mesh();
    var input := new InStream(file);
    assert input.Rest() == file;
    ghost var e := HeaderEnd(file);
    var parsed := ReadHeader(input);
    assert input.Rest() == file[e..];
    if parsed.NotPly? {
      return NotPlyFile, mesh;
    }
    if parsed.HeaderFailed? {
      return LoadFailed(parsed.error), mesh;
    }
    var h := parsed.header;
    var error: Option<PlyError>;
    if h.format == Ascii {
      mesh.PrepareVertexCount(h.count);
      error := LoadAscii(mesh, input, h.layout, h.count);
      ghost var a := AsciiRows(file[e..], ColourStart(h.layout), h.count);
      assert mesh.added == [] + a.rows == a.rows;
      assert mesh.State() == Initial.(prepared := [h.count], added := a.rows);
    } else {
      error := LoadBinary(mesh, input, h.layout, ByteOrderOf(h.format).value, h.count);
    }
    result := if error.Some? then LoadFailed(error.value) else LoadedScene(h);
  }
}
