/** What `loadScene` makes of the bytes `saveSceneStream` writes. */
module PlyRoundTrip {
  import opened Wrappers
  import opened PyBytes
  import opened PyInt
  import opened Float32Words
  import opened PlyHeader
  import opened PlyLoad
  import opened PlySave
  import opened PlySavedHeader

  /** A vertex row as the binary decoder returns it. */
  function XyzRow(v: Xyz): Row
  {
    [Word(v.x), Word(v.y), Word(v.z)]
  }

  /** A colour row as the binary decoder returns it. */
  function RgbRow(c: Rgb): Row
  {
    [Octet(c.r), Octet(c.g), Octet(c.b)]
  }

  // ---------------------------------------------------------------------
  // The record layout the writer uses

  /** The writer's records are 15 bytes: the position at offset 0, the
      colour at offset 12, and no normal field. */
  lemma SavedLayoutFacts()
    ensures Stride(SavedLayout) == 15
    ensures Offset(SavedLayout, 0) == 0 && Offset(SavedLayout, 1) == 12
    ensures IndexOf(SavedLayout, Position) == Some(0)
    ensures IndexOf(SavedLayout, Colour) == Some(1)
    ensures IndexOf(SavedLayout, Normal) == None
  {
    assert SavedLayout[..1] == [Field(Position, Float, 3)];
    assert SavedLayout[1..] == [Field(Colour, UChar, 3)];
  }

  /** Decoding one packed record under the header's layout gives the vertex
      and the colour that were packed. */
  lemma PackFields(v: Xyz, c: Rgb)
    ensures Stride(SavedLayout) == 15
    ensures FieldOf(Pack(v, c), SavedLayout, 0, LittleEndian) == XyzRow(v)
    ensures FieldOf(Pack(v, c), SavedLayout, 1, LittleEndian) == RgbRow(c)
  {
    SavedLayoutFacts();
    var b := Pack(v, c);
    assert b[0..4] == Encode(v.x, LittleEndian);
    assert b[4..8] == Encode(v.y, LittleEndian);
    assert b[8..12] == Encode(v.z, LittleEndian);
    DecodeEncode(v.x, LittleEndian);
    DecodeEncode(v.y, LittleEndian);
    DecodeEncode(v.z, LittleEndian);
    var xyz := FieldOf(b, SavedLayout, 0, LittleEndian);
    assert xyz == Scalars(b, 0, Float, 3, LittleEndian);
    assert xyz[0] == Word(v.x) && xyz[1] == Word(v.y) && xyz[2] == Word(v.z);
    var rgb := FieldOf(b, SavedLayout, 1, LittleEndian);
    assert rgb == Scalars(b, 12, UChar, 3, LittleEndian);
    assert rgb[0] == Octet(c.r) && rgb[1] == Octet(c.g) && rgb[2] == Octet(c.b);
  }

  /** `k` records of `stride` bytes hold exactly `k` whole records. */
  lemma {:induction false} WholeRecordsTimes(k: nat, stride: nat)
    requires stride > 0
    ensures WholeRecords(Times(k, stride), stride) == k
  {
    if k > 0 {
      WholeRecordsTimes(k - 1, stride);
    }
  }

  /** Asking for at least the `k` records a stream holds reads all `k`. */
  lemma RecordCountOfWhole(k: nat, stride: nat, count: int)
    requires stride > 0 && count >= k
    ensures RecordCount(Times(k, stride), stride, count) == k
  {
    WholeRecordsTimes(k, stride);
  }

  // ---------------------------------------------------------------------
  // Writing, then loading

  /** What the writer's file decodes to, record by record: the binary
      decoder reads back every record written, row `i` of the positions and
      of the colours being vertex `i` and colour `i`. */
  lemma BodyRows(c: Cloud)
    requires c.vertexCount >= 0
    ensures var o := Binary(Initial, Body(c), SavedLayout, LittleEndian, c.vertexCount);
      && o.error.None?
      && o.state.vertexCount == c.vertexCount
      && |o.state.vertexes| == Completed(c) && |o.state.colors| == Completed(c)
      && (forall i :: 0 <= i < Completed(c) ==> o.state.vertexes[i] == XyzRow(c.vertexes[i]))
      && (forall i :: 0 <= i < Completed(c) ==> o.state.colors[i] == RgbRow(c.colors[i]))
      && |o.state.normal| == c.vertexCount
      && (forall i :: 0 <= i < c.vertexCount ==> o.state.normal[i] == [Filled(0), Filled(0), Filled(0)])
      && o.state.prepared == [] && o.state.added == []
  {
    var k := Completed(c);
    var recs := Packed(c, k);
    var body := Body(c);
    ConcatUniform(recs, 15);
    SavedLayoutFacts();
    BinaryMeaning(Initial, body, SavedLayout, LittleEndian, c.vertexCount);
    RecordCountOfWhole(k, 15, c.vertexCount);
    var o := Binary(Initial, body, SavedLayout, LittleEndian, c.vertexCount);
    forall i | 0 <= i < k
      ensures o.state.vertexes[i] == XyzRow(c.vertexes[i])
      ensures o.state.colors[i] == RgbRow(c.colors[i])
    {
      assert RowAt(o.state.vertexes[i], body, SavedLayout, 0, LittleEndian, i);
      assert RowAt(o.state.colors[i], body, SavedLayout, 1, LittleEndian, i);
      RecordRows(c, i, o.state.vertexes[i], o.state.colors[i]);
    }
  }

  /** A file that starts with the writer's header is loaded by the binary
      decoder, little-endian, with the writer's layout and the header's count,
      on the bytes after the header. */
  lemma LoadSaved(count: int, body: Bytes)
    ensures var o := Binary(Initial, body, SavedLayout, LittleEndian, count);
      Load(Frame(count) + body)
        == (if o.error.Some? then LoadFailed(o.error.value)
            else LoadedScene(Header(BinaryLittleEndian, count, SavedLayout)), o.state)
  {
    var frame := Frame(count);
    var file := frame + body;
    FrameEnd(count, body);
    assert file[..|frame|] == frame;
    assert file[|frame|..] == body;
    FrameParses(count);
    LoadBinaryHeader(file, Header(BinaryLittleEndian, count, SavedLayout));
  }

  /** A file whose header parses to a binary format is decoded by the binary
      decoder, in the header's byte order, on the bytes after the header. */
  lemma LoadBinaryHeader(file: Bytes, h: Header)
    requires ParseHeader(file[..HeaderEnd(file)]) == Parsed(h) && h.format != Ascii
    ensures var o := Binary(Initial, file[HeaderEnd(file)..], h.layout, ByteOrderOf(h.format).value, h.count);
      Load(file) == (if o.error.Some? then LoadFailed(o.error.value) else LoadedScene(h), o.state)
  {
  }


  /** Record `i` of the body `saveSceneStream` writes is the 15 bytes
      packed from vertex `i` and colour `i`, at offset `15 * i`. */
  lemma BodyRecord(c: Cloud, i: nat)
    requires i < Completed(c)
    ensures 15 * i + 15 <= |Body(c)|
    ensures Body(c)[15 * i..15 * i + 15] == Pack(c.vertexes[i], c.colors[i])
  {
    ConcatSlice(Packed(c, Completed(c)), 15, i);
    TimesFifteen(i);
  }

  lemma {:induction false} TimesFifteen(i: nat)
    ensures Times(i, 15) == 15 * i
    decreases i
  {
    if i > 0 {
      TimesFifteen(i - 1);
    }
  }

  /** The rows decoded from record `i` of the body are vertex `i` and
      colour `i`. */
  lemma RecordRows(c: Cloud, i: nat, xyz: Row, rgb: Row)
    requires i < Completed(c)
    requires RowAt(xyz, Body(c), SavedLayout, 0, LittleEndian, i)
    requires RowAt(rgb, Body(c), SavedLayout, 1, LittleEndian, i)
    ensures xyz == XyzRow(c.vertexes[i]) && rgb == RgbRow(c.colors[i])
  {
    ConcatSlice(Packed(c, Completed(c)), 15, i);
    PackFields(c.vertexes[i], c.colors[i]);
  }

  /** Loading what `saveSceneStream` wrote for a mesh with a count that is
      not negative gives a binary little-endian model of that count with the
      writer's layout; its positions and colours are the vertices and colours
      written, one per record, its normals the zero default, and its ASCII
      record untouched. */
  lemma SaveThenLoad(c: Cloud)
    requires c.vertexCount >= 0
    ensures var (result, st) := Load(Save(Some(c)).bytes);
      && result == LoadedScene(Header(BinaryLittleEndian, c.vertexCount, SavedLayout))
      && st.vertexCount == c.vertexCount
      && |st.vertexes| == Completed(c) && |st.colors| == Completed(c)
      && (forall i :: 0 <= i < Completed(c) ==> st.vertexes[i] == XyzRow(c.vertexes[i]))
      && (forall i :: 0 <= i < Completed(c) ==> st.colors[i] == RgbRow(c.colors[i]))
      && |st.normal| == c.vertexCount
      && (forall i :: 0 <= i < c.vertexCount ==> st.normal[i] == [Filled(0), Filled(0), Filled(0)])
      && st.prepared == [] && st.added == []
  {
    assert Save(Some(c)).bytes == Frame(c.vertexCount) + Body(c);
    LoadSaved(c.vertexCount, Body(c));
    BodyRows(c);
  }

  /** When the mesh has as many vertices and colours as its count, the writer
      raises nothing and the loaded model holds every vertex and colour. */
  lemma SaveCompleteThenLoad(c: Cloud)
    requires 0 <= c.vertexCount <= |c.vertexes| && c.vertexCount <= |c.colors|
    ensures !Save(Some(c)).raised
    ensures |Save(Some(c)).bytes| == |Frame(c.vertexCount)| + 15 * c.vertexCount
    ensures var (result, st) := Load(Save(Some(c)).bytes);
      && result.LoadedScene?
      && |st.vertexes| == |st.colors| == |st.normal| == c.vertexCount
      && (forall i :: 0 <= i < c.vertexCount ==> st.vertexes[i] == XyzRow(c.vertexes[i]))
      && (forall i :: 0 <= i < c.vertexCount ==> st.colors[i] == RgbRow(c.colors[i]))
  {
    SaveThenLoad(c);
  }

  /** A negative count is written out as it is; the loader then reads no
      records, and numpy refuses the default normal array: loading fails
      with the count assigned and the positions and colours empty. */
  lemma SaveNegativeThenLoad(c: Cloud)
    requires c.vertexCount < 0
    ensures Load(Save(Some(c)).bytes) == (LoadFailed(NegativeDimensions), Initial.(vertexCount := c.vertexCount))
  {
    assert Completed(c) == 0;
    assert Body(c) == [];
    assert Save(Some(c)).bytes == Frame(c.vertexCount) + [];
    LoadSaved(c.vertexCount, []);
    SavedLayoutFacts();
    BinaryMeaning(Initial, [], SavedLayout, LittleEndian, c.vertexCount);
    var o := Binary(Initial, [], SavedLayout, LittleEndian, c.vertexCount);
    assert o.state.vertexes == [];
  }
}
