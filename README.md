# PLY point clouds in Horus, modelled in Dafny

Horus is the 3D-scanner software of the Ciclop scanner. It stores its point
clouds as PLY files. This project models the PLY reader and writer in
`src/horus/util/meshLoaders/ply.py`:

- **Header scan (`loadScene`).** `loadScene` collects the header line by line
  until `end_header`. It cuts the header at the face element and checks the
  magic line `ply`. It takes the format from the first `format ` line and the
  vertex count from the last `element vertex ` line. From the `property `
  lines it builds the record layout, as the numpy dtype does.
- **Vertex decoders.** `_loadAscii` splits each vertex line on spaces and hands
  six tokens to the mesh. `_loadBinary` reads whole fixed-size records and
  fills the position, normal and colour arrays. A field the header does not
  declare gets numpy's default array.
- **Writer (`saveSceneStream`).** It writes a fixed binary little-endian
  header, then packs each vertex as three floats and three bytes
  (`struct.pack("<fffBBB", ...)`).

The central result is the round trip. The bytes `saveSceneStream` writes for
a mesh with a non-negative count load back as a binary little-endian model.
That model has the same count and the writer's layout, and it holds every
vertex and colour that was written. Missing normals come back as the zero
default. A negative count yields a file the loader refuses.

Modules, one file each:

| module | file | contents |
|---|---|---|
| `Wrappers` | `wrappers.dfy` | `Option`, `Result` |
| `PyBytes` | `pybytes.dfy` | Python 2 byte-string operations the code uses: `in`, `split`, `readline`; `Find` and `Join` state the first two |
| `PyInt` | `pyint.dfy` | Python `int(s)` and `'{0}'.format(n)` on integers |
| `Float32Words` | `float32.dfy` | a float32 as four bytes in either byte order |
| `PlyHeader` | `ply_header.dfy` | header collection, face cut, magic, format, vertex count, layout |
| `PlyLoad` | `ply_load.dfy` | the mesh (a class), the input stream (a class), `_loadBinary`, `_loadAscii`, `loadScene` |
| `PlyLoadStop` | `ply_load_stop.dfy` | `_loadAscii` stopped by a short line |
| `PlySave` | `ply_save.dfy` | the output stream (a class), `saveSceneStream` |
| `PlySavedHeader` | `ply_saved_header.dfy` | the header the writer emits is collected and parsed as it declares |
| `PlyRoundTrip` | `ply_roundtrip.dfy` | writer → loader round trip |

How the Python is modelled:

- **Byte strings.** They are `seq<Byte>`, where a `Byte` is a `char` below 256.
- **Float32 values.** They are opaque four-byte words. Only their byte layout
  matters to the code.
- **The mesh.** It is a class whose methods record what the loader assigns.
  `loadScene`, the header loop and `_loadAscii` are methods with loops, and
  each is proved equal to a specification function (`Load`, `HeaderEnd`,
  `AsciiRows`). The properties are then proved about those functions.
- **Exceptions.** Each one the code can raise becomes a `PlyError`:
  - a `NameError` for the unbound `fm`;
  - a `ValueError` from `int`;
  - an `IndexError` on a short `property` line or a short ASCII vertex line;
  - a `KeyError` for an unknown property type;
  - numpy's refusals of a duplicate field name and of a negative dimension;
  - numpy's `ValueError` for a record of no bytes, which `fromfile` raises
    when no property line is recognised.
- **Integers.** `int()` is CPython 2's: blanks around the text are skipped,
  and so are blanks between the sign and the digits (`- 5` reads as -5).
- **The bad magic line.** `loadScene` prints an error and returns `None`. The
  model returns `NotPlyFile`.

Where an error might be expected but the code behaves otherwise, the model
follows the code:

- A bad magic line returns `None` after a print; it does not raise a format
  error.
- A binary body shorter than the declared count is not an error. `np.fromfile`
  returns the whole records that are present (model: `RecordCount`), for
  a count it can allocate (see "## Left out").
- An ASCII file with too few vertex lines fails with the `IndexError` of its
  first short line (model: `TooFewTokens`), not a truncation error. The
  vertices handed over before it stay in the mesh (`AsciiRowsStopsShort`).

## Model

| member | source | states |
|---|---|---|
| `PlyHeader.HeaderEnd` | src/horus/util/meshLoaders/ply.py:95-97 | the header loop never reads past the end of the file |
| `PlyHeader.HeaderEndStops` | src/horus/util/meshLoaders/ply.py:95-97 | the header loop stops either at the end of the file or right after an `end_header\n` that starts the file or follows a newline, so it always ends a whole line |
| `PlyHeader.HeaderEndAfterLines` | src/horus/util/meshLoaders/ply.py:95-97 | for newline-terminated lines whose first `end_header` is the last line, the header is exactly those lines, whatever follows |
| `PlyHeader.HeaderEndNoEnd` | src/horus/util/meshLoaders/ply.py:95-97 | when no line of the file is `end_header`, the header loop reads the whole file |
| `PlyHeader.HeaderLines` | src/horus/util/meshLoaders/ply.py:99 | the kept lines hold no newline; joined again by newlines they are a prefix of the header that holds no `element face `; when shorter than the header, `element face ` starts right after them |
| `PlyHeader.FirstFormatLine` | src/horus/util/meshLoaders/ply.py:103-106 | finds the first line containing `format `; None exactly when no line contains it |
| `PlyHeader.FormatTokenMeaning` | src/horus/util/meshLoaders/ply.py:105 | `line.split(' ')[1]` is the text after the first space of the line, up to the next space or the end of the line |
| `PlyHeader.FindFormat` | src/horus/util/meshLoaders/ply.py:103-106 | no token exactly when no line contains `format `; otherwise the token of a line containing it with no such line before it |
| `PlyHeader.ScanFormat` | src/horus/util/meshLoaders/ply.py:103-106 | the loop with `break` returns the format token of the first `format ` line, and None exactly when there is none |
| `PlyHeader.FormatOf` | src/horus/util/meshLoaders/ply.py:108-114 | a format is recognised exactly when the token is one of the three names; anything else leaves `fm` unbound |
| `PlyHeader.ByteOrderOf` | src/horus/util/meshLoaders/ply.py:109-114 | the numpy byte-order prefix `fm` is absent exactly for ascii, and little-endian exactly for `binary_little_endian` |
| `PlyHeader.KindOf` | src/horus/util/meshLoaders/ply.py:116 | a property type is known exactly when it is `float` or `uchar`, each naming its own scalar |
| `PlyHeader.RoleOf` | src/horus/util/meshLoaders/ply.py:117 | a property name enters the layout exactly when it is `x`, `nx`, `red` or `alpha`, each naming its own field |
| `PlyHeader.GroupSize` | src/horus/util/meshLoaders/ply.py:118 | every field the table declares holds at least one element |
| `PlyHeader.DeclaredStrideZero` | src/horus/util/meshLoaders/ply.py:116-128 | the declared record has no bytes exactly when no property line is recognised |
| `PlyHeader.StrideAppend` | src/horus/util/meshLoaders/ply.py:126-128 | the record size of a layout is additive over concatenation |
| `PlyHeader.OffsetStep` | src/horus/util/meshLoaders/ply.py:128 | each field starts where the previous one ends, and ends inside the record |
| `PlyHeader.Offset` | src/horus/util/meshLoaders/ply.py:128 | a field starts inside the record, and the offset past the last field is the record size |
| `PlyHeader.IndexOf` | src/horus/util/meshLoaders/ply.py:70-83 | `'v' in fields` and its siblings: the index of the field with a role, None exactly when no field has it |
| `PlyHeader.ScanProperties` | src/horus/util/meshLoaders/ply.py:120-126 | the scanning loop computes the specification fold `ScanLines` from count 0 and an empty layout |
| `PlyHeader.LastVertexLine` | src/horus/util/meshLoaders/ply.py:120-122 | the last line containing `element vertex `, None exactly when there is none |
| `PlyHeader.ScanLineSucceeds` | src/horus/util/meshLoaders/ply.py:120-126 | scanning one line succeeds exactly when the line is acceptable (`LineOk`: a parsable count, enough tokens, a known type) |
| `PlyHeader.ScanLinesSucceeds` | src/horus/util/meshLoaders/ply.py:120-126 | the scan succeeds exactly when every header line is acceptable |
| `PlyHeader.ScanLinesLayout` | src/horus/util/meshLoaders/ply.py:117-126 | a successful scan appends the fields declared by the recognised property lines, in order |
| `PlyHeader.ScanLinesCount` | src/horus/util/meshLoaders/ply.py:120-122 | a successful scan keeps the count unchanged without a vertex line; otherwise the count is the integer after `element vertex ` on the last such line |
| `PlyHeader.ParseHeaderMeaning` | src/horus/util/meshLoaders/ply.py:99-128 | a header is refused as non-PLY exactly when its first line is not `ply`. It parses exactly when the format is known, every line is acceptable and no field repeats. The result carries the first format token, the last vertex count and the declared fields |
| `PlyHeader.ParseHeaderErrors` | src/horus/util/meshLoaders/ply.py:108-128 | which error a refused PLY header reports: `UnknownFormat` when the format is unknown; otherwise the error of the first unacceptable line; otherwise `DuplicateField` when a field repeats |
| `PlyHeader.ScanLinesFirstError` | src/horus/util/meshLoaders/ply.py:120-126 | the scan stops at the first unacceptable line, with `BadVertexCount` for a bad `element vertex` line, `MissingPropertyName` for a property line of fewer than three words, and `UnknownPropertyType` otherwise |
| `PlyLoad.Mesh.constructor` | src/horus/util/meshLoaders/ply.py:86-87 | a fresh mesh has count 0, empty arrays and nothing received |
| `PlyLoad.Mesh.PrepareVertexCount` | src/horus/util/meshLoaders/ply.py:132 | records the announced count and changes nothing else |
| `PlyLoad.Mesh.AddVertex` | src/horus/util/meshLoaders/ply.py:62 | appends one vertex of six tokens and changes nothing else |
| `PlyLoad.InStream.ReadLine` | src/horus/util/meshLoaders/ply.py:96 | `f.readline()` returns the next line of the unread bytes and advances past it |
| `PlyLoad.InStream.ReadRecords` | src/horus/util/meshLoaders/ply.py:65 | `np.fromfile` returns the records `Records` describes and advances past the bytes of those records |
| `PlyLoad.RecordCountMeaning` | src/horus/util/meshLoaders/ply.py:65 | `fromfile` reads no records of size 0 and never more than asked for. It reads all that was asked when they are present, and otherwise every whole record there is |
| `PlyLoad.Records` | src/horus/util/meshLoaders/ply.py:65 | `fromfile` returns `RecordCount` records, each exactly one record size long |
| `PlyLoad.RecordAt` | src/horus/util/meshLoaders/ply.py:65 | record `i` is the `i`-th slice of `stride` bytes |
| `PlyLoad.RecordsOfConcat` | src/horus/util/meshLoaders/ply.py:65 | reading `n` records back from `n` concatenated records of the stride gives those records, whatever follows |
| `PlyLoad.FieldArray` | src/horus/util/meshLoaders/ply.py:70-83 | an array fails only with the negative-dimension error, and exactly when its field is missing and the count is negative; otherwise it has one row per record read, or `count` default rows |
| `PlyLoad.FieldArrayMeaning` | src/horus/util/meshLoaders/ply.py:70-83 | each array is the declared field's column when the field is present, and otherwise the default array of `count` rows, which fails exactly when `count` is negative |
| `PlyLoad.ColumnMeaning` | src/horus/util/meshLoaders/ply.py:70-81 | row `i` of `data['v']` (and of the others) decodes the bytes of field `k` inside record `i` |
| `PlyLoad.BinaryMeaning` | src/horus/util/meshLoaders/ply.py:64-83 | a layout of no bytes fails first, with numpy's zero-size error, and changes nothing. Otherwise `_loadBinary` assigns the count, consumes the whole records read and leaves the ASCII record untouched. It fails, with `NegativeDimensions` only, exactly when the count is negative and some field is missing. On success each of the three arrays is as `FieldArrayMeaning` says |
| `PlyLoad.LoadBinary` | src/horus/util/meshLoaders/ply.py:64-83 | the method's mesh state, error and bytes consumed are those of the specification `Binary` |
| `PlyLoad.ColourStart` | src/horus/util/meshLoaders/ply.py:49-55 | the colour tokens start at 0, 3 or 6: at 0 exactly when there is neither a colour nor a normal field, at 6 exactly when there are both |
| `PlyLoad.ColourAliasing` | src/horus/util/meshLoaders/ply.py:49-62 | without a colour field the colour tokens are the normal tokens, or the position tokens when there are no normals either |
| `PlyLoad.AsciiRows` | src/horus/util/meshLoaders/ply.py:57-62 | the ASCII loop never reads past the end of the stream |
| `PlyLoad.AsciiRowsCount` | src/horus/util/meshLoaders/ply.py:57-62 | the ASCII loop hands over exactly `count` vertices (none for a count that is not positive) unless a short line stops it earlier |
| `PlyLoad.LineRowsAt` | src/horus/util/meshLoaders/ply.py:60-62 | vertex `k` is built from the space-separated tokens of line `k`, at positions 0-2 and `c`..`c+2` |
| `PlyLoad.AsciiRowsOfLines` | src/horus/util/meshLoaders/ply.py:57-62 | for `n` well-formed vertex lines, the loop hands over one vertex per line and consumes exactly those lines |
| `PlyLoad.AsciiRowsShort` | src/horus/util/meshLoaders/ply.py:60-62 | a line with too few tokens raises before anything is handed over |
| `PlyLoadStop.AsciiRowsStopsShort` | src/horus/util/meshLoaders/ply.py:57-62 | well-formed vertex lines followed by a short line, with passes to spare: the loop raises on the short line, the vertices of the lines before it stay handed over in order, and the stream stands past the short line |
| `PlyLoad.ReadVertex` | src/horus/util/meshLoaders/ply.py:59-62 | one loop step either raises or appends one vertex, and the rest of the loop goes on from the new stream position |
| `PlyLoad.LoadAscii` | src/horus/util/meshLoaders/ply.py:46-62 | the method hands over the vertices of `AsciiRows`, reports `TooFewTokens` exactly when it failed, and consumes the bytes it used |
| `PlyLoad.CollectHeader` | src/horus/util/meshLoaders/ply.py:93-97 | the header loop consumes and returns exactly the first `HeaderEnd` bytes of the stream |
| `PlyLoad.ReadHeader` | src/horus/util/meshLoaders/ply.py:89-128 | the header part of `loadScene` consumes the header and returns `ParseHeader` of it |
| `PlyLoad.Load` | src/horus/util/meshLoaders/ply.py:85-141 | a file is refused as non-PLY exactly when its header is; a loaded model carries the parsed header; the mesh stays as created unless the header parsed |
| `PlyLoad.LoadScene` | src/horus/util/meshLoaders/ply.py:85-141 | the result and the mesh left behind are those of the specification `Load` |
| `PlySave.Pack` | src/horus/util/meshLoaders/ply.py:173 | a packed record is 15 bytes long |
| `PlySave.Completed` | src/horus/util/meshLoaders/ply.py:170-173 | the loop writes either every visited vertex or all rows of the shorter array, never more |
| `PlySave.Body` | src/horus/util/meshLoaders/ply.py:172-173 | the vertex data is 15 bytes per record written |
| `PlySave.Save` | src/horus/util/meshLoaders/ply.py:147-173 | without a mesh nothing is written. Otherwise the header comes first, then 15 bytes per record written. IndexError is raised exactly when the count exceeds the rows of either array |
| `PlySave.OutStream.Write` | src/horus/util/meshLoaders/ply.py:169 | `stream.write` appends its argument |
| `PlySave.WriteRecord` | src/horus/util/meshLoaders/ply.py:173 | one step appends the packing of vertex `i` and extends the written records by one |
| `PlySave.WriteRecords` | src/horus/util/meshLoaders/ply.py:170-173 | the loop appends the packed records and raises exactly when the count outruns an array |
| `PlySave.SaveSceneStream` | src/horus/util/meshLoaders/ply.py:147-173 | the method appends `Save(m).bytes` to the stream and raises exactly when `Save` does |
| `PlySavedHeader.FrameLinesPlain` | src/horus/util/meshLoaders/ply.py:153-168 | the written header is 13 lines without a newline inside; the last is `end_header` and no earlier one is |
| `PlySavedHeader.FrameEnd` | src/horus/util/meshLoaders/ply.py:153-168 | on a written file the loader's header loop stops exactly at the end of the written header, whatever records follow |
| `PlySavedHeader.FrameHeaderLines` | src/horus/util/meshLoaders/ply.py:166-168 | the face cut of the written header keeps its first ten lines and an empty one |
| `PlySavedHeader.FrameFormat` | src/horus/util/meshLoaders/ply.py:155 | the loader finds the format token `binary_little_endian` in the written header |
| `PlySavedHeader.VertexLineScan` | src/horus/util/meshLoaders/ply.py:159 | the written `element vertex` line sets the count to the saved count, negatives included |
| `PlySavedHeader.FrameScan` | src/horus/util/meshLoaders/ply.py:158-165 | scanning the written header gives the saved count and the layout float position (3) then uchar colour (3) |
| `PlySavedHeader.FrameParses` | src/horus/util/meshLoaders/ply.py:153-168 | the written header parses as binary little-endian with the saved count and that layout |
| `PlyRoundTrip.PackFields` | src/horus/util/meshLoaders/ply.py:173 | decoding the two fields of a packed record gives back the vertex and the colour |
| `PlyRoundTrip.BodyRecord` | src/horus/util/meshLoaders/ply.py:172-173 | record `i` of the body the writer emits is the 15 bytes at offset `15 * i`, and they are the packing of vertex `i` and colour `i` |
| `PlyRoundTrip.BodyRows` | src/horus/util/meshLoaders/ply.py:64-83 | decoding the written records with the saved count succeeds. It gives one position and one colour row per record written and zero normals of the saved count |
| `PlyRoundTrip.SaveThenLoad` | src/horus/util/meshLoaders/ply.py:85-173 | loading what was saved (non-negative count) gives a little-endian model with the saved count and layout. Positions and colours are the written vertices, normals are zero and the ASCII record is untouched |
| `PlyRoundTrip.SaveCompleteThenLoad` | src/horus/util/meshLoaders/ply.py:85-173 | with enough rows the writer does not raise and writes one record per vertex. Loading gives back every vertex and colour |
| `PlyRoundTrip.SaveNegativeThenLoad` | src/horus/util/meshLoaders/ply.py:73-78 | a negative count is written as it is, and loading the file fails with numpy's negative-dimension error |
| `PyBytes.Find` | src/horus/util/meshLoaders/ply.py:120-123 | `in` and the first occurrence: None exactly when the pattern does not occur, otherwise its earliest position |
| `PyBytes.SplitSpec` | src/horus/util/meshLoaders/ply.py:99 | `str.split(sep)`: the pieces joined by `sep` give the input back, no piece contains `sep`, there are at least two pieces exactly when `sep` occurs, and the first piece ends at the first occurrence |
| `PyBytes.ReadLine` | src/horus/util/meshLoaders/ply.py:96 | `readline()` returns a prefix that is empty only at end of file and ends at the first newline or at the end of the data |
| `PyInt.ParseDecimal` | src/horus/util/meshLoaders/ply.py:122 | `int()` reads back the count that `'{0}'.format` wrote, for every integer |
| `PyInt.Decimal` | src/horus/util/meshLoaders/ply.py:159 | `'{0}'.format(n)` writes a non-empty text of digits and minus signs |
| `PyInt.ParseSpacedSign` | src/horus/util/meshLoaders/ply.py:122 | `int()` accepts a sign, then any blanks, then digits, and gives the signed value of the digits |
| `Float32Words.DecodeEncode` | src/horus/util/meshLoaders/ply.py:173 | decoding the bytes of an encoded float gives the float back; big-endian bytes are the little-endian ones reversed |

## Left out

- File opening and closing (`open`, `with`, lines 88 and 143-145): `loadScene` is modelled on the file's contents and `saveScene` is only `saveSceneStream` on an opened file.
- Stream I/O errors: the model's streams never fail.
- `model.Model`, `_addMesh` and `_postProcessAfterLoad` (lines 86-87, 136) are not part of this model. The mesh records what the loader assigns; `_addVertex` and `_prepareVertexCount` only record their arguments.
- The `print` at line 140: the model returns `NotPlyFile` without output.
- The ASCII branch of the writer (lines 156-157, 174-176) is unreachable because `binary = True` at line 150.
- Floating-point values: floats are opaque four-byte words. The writer's `struct.pack` of numpy values is modelled on float32 words and bytes, so the conversion from float64 and the range check of `B` are not modelled.
- ASCII tokens are handed to the mesh as strings, as the code does. Their conversion to numbers inside the mesh is not modelled.
- Integer widths: an `element vertex` count beyond the C `long` range makes `int()` return a Python `long`, and such counts make `xrange`, `fromfile` and `np.zeros` raise `OverflowError`. A count inside the `long` range can still be too large to allocate: `fromfile` sets aside `count` records and `np.zeros((count, 3))` `count` rows before anything is read, and either then raises `MemoryError`. The model's integers are unbounded and its memory unlimited, so it raises none of these and gives a short read or default rows instead.
- `PlyLoad.InStream.ReadRecords`: `fromfile` reads with `fread`, which also consumes the bytes of a trailing partial record; the model advances past the whole records only. Nothing reads the stream after `_loadBinary`, so no result depends on it.
- `PlyLoad.Binary`: a record of no bytes follows numpy's `fromfile`, which raises `ValueError("The elements are 0-sized.")`; a numpy build that returned an empty array there instead is not modelled.
- numpy's array objects: a decoded array is a sequence of rows, and a structured record field is decoded per row.
