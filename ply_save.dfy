/** The writer `saveSceneStream`: a fixed binary little-endian header that
    declares the vertex count, then one packed record per vertex. */
module PlySave {
  import opened Wrappers
  import opened PyBytes
  import opened PyInt
  import opened Float32Words

  /** One row of `mesh.vertexes`, a float32 array of shape (n, 3). */
  datatype Xyz = Xyz(x: Float32, y: Float32, z: Float32)

  /** One row of `mesh.colors`, a uint8 array of shape (n, 3). */
  datatype Rgb = Rgb(r: Byte, g: Byte, b: Byte)

  /** The part of `_object._mesh` the writer reads. */
  datatype Cloud = Cloud(vertexCount: int, vertexes: seq<Xyz>, colors: seq<Rgb>)

  const MagicLine: Bytes := "ply"
  const FormatLine: Bytes := "format binary_little_endian 1.0"
  const CommentLine: Bytes := "comment Generated by Horus software"
  const VertexPrefix: Bytes := "element vertex "
  const XLine: Bytes := "property float x"
  const YLine: Bytes := "property float y"
  const ZLine: Bytes := "property float z"
  const RedLine: Bytes := "property uchar red"
  const GreenLine: Bytes := "property uchar green"
  const BlueLine: Bytes := "property uchar blue"
  const FaceLine: Bytes := "element face 0"
  const FaceListLine: Bytes := "property list uchar int vertex_indices"
  const EndLine: Bytes := "end_header"

  /** The lines of the header, which always announces binary little-endian
      records of three floats and three bytes and an empty face element. */
  function FrameLines(count: int): (lines: seq<Bytes>)
  {
    [MagicLine, FormatLine, CommentLine, VertexPrefix + Decimal(count),
     XLine, YLine, ZLine, RedLine, GreenLine, BlueLine,
     FaceLine, FaceListLine, EndLine]
  }

  /** `frame`: the header lines, each ended by a newline. */
  function Frame(count: int): Bytes
  {
    Terminated(FrameLines(count))
  }

  /** `struct.pack("<fffBBB", x, y, z, r, g, b)`. */
  function Pack(v: Xyz, c: Rgb): (b: Bytes)
    ensures |b| == 15
  {
    Encode(v.x, LittleEndian) + Encode(v.y, LittleEndian) + Encode(v.z, LittleEndian) + [c.r, c.g, c.b]
  }

  /** The records of the first `k` vertices. */
  function Packed(m: Cloud, k: nat): (recs: seq<Bytes>)
    requires k <= |m.vertexes| && k <= |m.colors|
    ensures |recs| == k
    ensures forall i :: 0 <= i < k ==> recs[i] == Pack(m.vertexes[i], m.colors[i])
  {
    seq(k, i requires 0 <= i < k => Pack(m.vertexes[i], m.colors[i]))
  }

  /** What a call leaves behind: the bytes written, and whether indexing past
      the end of `vertexes` or `colors` raised IndexError. */
  datatype Saved = Saved(bytes: Bytes, raised: bool)

  /** The number of vertices the loop visits: `xrange(vertexCount)` is empty
      for a count that is not positive. */
  function Visited(m: Cloud): nat
  {
    if m.vertexCount > 0 then m.vertexCount else 0
  }

  /** The number of records written before the loop either ends or raises. */
  function Completed(m: Cloud): (k: nat)
    ensures k <= Visited(m) && k <= |m.vertexes| && k <= |m.colors|
    ensures k == Visited(m) || k == |m.vertexes| || k == |m.colors|
  {
    var k := Visited(m);
    if k <= |m.vertexes| && k <= |m.colors| then k
    else if |m.vertexes| <= |m.colors| then |m.vertexes|
    else |m.colors|
  }

  /** The records the loop writes, end to end: 15 bytes per vertex. */
  function Body(m: Cloud): (body: Bytes)
    ensures |body| == 15 * Completed(m)
  {
    PackedLength(m, Completed(m));
    Concat(Packed(m, Completed(m)))
  }

  lemma {:induction false} PackedLength(m: Cloud, k: nat)
    requires k <= |m.vertexes| && k <= |m.colors|
    ensures |Concat(Packed(m, k))| == 15 * k
  {
    if k > 0 {
      assert Packed(m, k) == Packed(m, k - 1) + [Pack(m.vertexes[k - 1], m.colors[k - 1])];
      ConcatAppend(Packed(m, k - 1), Pack(m.vertexes[k - 1], m.colors[k - 1]));
      PackedLength(m, k - 1);
    }
  }

  /** `saveSceneStream(stream, _object)` for a mesh `m`, None when there is
      no mesh: nothing is written then. Otherwise the header comes first,
      then a record per vertex written, and IndexError is raised exactly when
      the count exceeds the rows of either array. */
  function Save(m: Option<Cloud>): (r: Saved)
    ensures m.None? ==> r.bytes == [] && !r.raised
    ensures m.Some? ==> |r.bytes| == |Frame(m.value.vertexCount)| + 15 * Completed(m.value)
    ensures m.Some? ==> r.bytes[..|Frame(m.value.vertexCount)|] == Frame(m.value.vertexCount)
    ensures m.Some? ==>
      (r.raised <==> m.value.vertexCount > |m.value.vertexes| || m.value.vertexCount > |m.value.colors|)
  {
    match m
    case None => Saved([], false)
    case Some(c) => Saved(Frame(c.vertexCount) + Body(c), Completed(c) < Visited(c))
  }

  /** The stream written to. */
  class OutStream {
    var written: Bytes

    constructor()
      ensures written == []
    {
      written := [];
    }

    /** `stream.write(b)`. */
    method Write(b: Bytes)
      modifies this
      ensures written == old(written) + b
    {
      written := written + b;
    }
  }

  /** `saveSceneStream(stream, _object)`; `raised` reports the IndexError
      that stops the loop when the count exceeds an array's rows. */
  method SaveSceneStream(stream: OutStream, m: Option<Cloud>) returns (raised: bool)
    modifies stream
    ensures stream.written == old(stream.written) + Save(m).bytes
    ensures raised == Save(m).raised
  {
    if m.None? {
      return false;
    }
    var c := m.value;
    ghost var before := stream.written;
    var frame := Frame(c.vertexCount);
    stream.Write(frame);
    raised := WriteRecords(stream, c);
    BytesAssoc(before, frame, Body(c));
  }

  /** The vertex loop: one record per vertex while both arrays have a row
      for it, the first missing row raising IndexError. */
  method WriteRecords(stream: OutStream, c: Cloud) returns (raised: bool)
    modifies stream
    ensures stream.written == old(stream.written) + Body(c)
    ensures raised == (Completed(c) < Visited(c))
  {
    ghost var base := stream.written;
    assert Concat(Packed(c, 0)) == [];
    assert stream.written == base + Concat(Packed(c, 0));
    if c.vertexCount <= 0 {
      return false;
    }
    var i := 0;
    while i < c.vertexCount
      invariant 0 <= i <= c.vertexCount && i <= |c.vertexes| && i <= |c.colors|
      invariant stream.written == base + Concat(Packed(c, i))
    {
      if i >= |c.vertexes| || i >= |c.colors| {
        return true;
      }
      WriteRecord(stream, c, i);
      i := i + 1;
    }
    return false;
  }

  /** One pass of the vertex loop. */
  method WriteRecord(stream: OutStream, c: Cloud, i: nat)
    requires i < |c.vertexes| && i < |c.colors|
    modifies stream
    ensures stream.written == old(stream.written) + Pack(c.vertexes[i], c.colors[i])
    ensures forall base: Bytes :: old(stream.written) == base + Concat(Packed(c, i)) ==>
      stream.written == base + Concat(Packed(c, i + 1))
  {
    var record := Pack(c.vertexes[i], c.colors[i]);
    assert Packed(c, i + 1) == Packed(c, i) + [record];
    ConcatAppend(Packed(c, i), record);
    forall base: Bytes | old(stream.written) == base + Concat(Packed(c, i))
      ensures old(stream.written) + record == base + Concat(Packed(c, i + 1))
    {
      BytesAssoc(base, Concat(Packed(c, i)), record);
    }
    stream.Write(record);
  }
}
