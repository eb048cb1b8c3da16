/** The byte helpers of the utilities module (the base64 helpers are not modelled). */
module ByteUtils {

  import opened Wrappers
  import opened TypedArrays

  /**
   * A JavaScript string, represented by its UTF-8 encoding; the code point U+0000
   * is exactly the byte 0x00. Encoding and decoding are taken to leave text unchanged,
   * which ignores the decoder dropping a leading byte order mark and the encoder
   * replacing lone surrogates.
   */
  type Text = seq<byte>

  /** `intFromByteArray`: the little-endian signed 32-bit integer at the start of `bytes`. */
  function IntFromByteArray(bytes: seq<byte>): (r: Result<int, RangeError>)
    ensures r.Success? <==> |bytes| >= 4
    ensures r.Success? ==> -TWO31 <= r.value < TWO31
    ensures r.Success? ==> r.value == Uint32LE(bytes) || r.value == Uint32LE(bytes) - TWO32
  {
    GetInt32LE(bytes)
  }

  /** Bytes after the first four do not affect the result. */
  lemma IntFromByteArrayIgnoresTail(bytes: seq<byte>, extra: seq<byte>)
    requires |bytes| >= 4
    ensures IntFromByteArray(bytes + extra) == IntFromByteArray(bytes)
  {
    assert (bytes + extra)[..4] == bytes[..4];
  }

  /** Reading what `setInt32(0, v, true)` wrote gives back `v` reduced to int32. */
  lemma {:induction false} IntFromInt32LE(v: int)
    ensures IntFromByteArray(Int32LE(v)) == Success(ToInt32(v))
  {
    GetInt32OfInt32LE(v);
  }

  /** ... so every int32 value survives the write and the read unchanged. */
  lemma {:induction false} IntFromInt32LEInRange(v: int)
    requires -TWO31 <= v < TWO31
    ensures IntFromByteArray(Int32LE(v)) == Success(v)
  {
    IntFromInt32LE(v);
  }

  /** `stringToByteArray`: an absent or empty string gives no bytes, any other string its encoding. */
  function StringToByteArray(str: Option<Text>): (r: Text)
    ensures r == [] <==> str.None? || str.value == []
    ensures r != [] ==> r == str.value
  {
    match str
    case None => []
    case Some(s) => s
  }

  /** The encoding holds a 0x00 byte only if the string holds U+0000. */
  lemma StringToByteArrayNulFree(str: Option<Text>)
    requires str.Some? ==> 0 !in str.value
    ensures 0 !in StringToByteArray(str)
  {
  }
}
