/** 32-bit floats as opaque IEEE 754 binary32 bit patterns. The loader and
    writer move them between files without arithmetic, so a float is its four
    bytes, and byte order is only the order in which they are laid out. */
module Float32Words {
  import opened PyBytes

  /** A binary32 bit pattern, its bytes listed from most to least significant. */
  datatype Float32 = Float32(b3: Byte, b2: Byte, b1: Byte, b0: Byte)

  /** The byte order of a binary PLY body (numpy's `<` and `>` prefixes). */
  datatype ByteOrder = LittleEndian | BigEndian

  /** The four bytes of `w` as `struct` / numpy lay them out. */
  function Encode(w: Float32, order: ByteOrder): (b: Bytes)
    ensures |b| == 4
  {
    match order
    case LittleEndian => [w.b0, w.b1, w.b2, w.b3]
    case BigEndian => [w.b3, w.b2, w.b1, w.b0]
  }

  /** The word four bytes stand for. */
  function Decode(b: Bytes, order: ByteOrder): Float32
    requires |b| == 4
  {
    match order
    case LittleEndian => Float32(b[3], b[2], b[1], b[0])
    case BigEndian => Float32(b[0], b[1], b[2], b[3])
  }

  /** Encoding a decoded word gives the four bytes back. */
  lemma EncodeDecode(b: Bytes, order: ByteOrder)
    requires |b| == 4
    ensures Encode(Decode(b, order), order) == b
  {
  }

  /** Decoding what was encoded gives the word back, in either byte order,
      and the two orders lay a word out in reverse of each other. */
  lemma DecodeEncode(w: Float32, order: ByteOrder)
    ensures Decode(Encode(w, order), order) == w
    ensures Encode(w, BigEndian) == [Encode(w, LittleEndian)[3], Encode(w, LittleEndian)[2],
                                     Encode(w, LittleEndian)[1], Encode(w, LittleEndian)[0]]
  {
  }
}
