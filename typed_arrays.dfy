/**
 * The parts of the JavaScript typed-array built-ins the codec relies on:
 * `Uint8Array.prototype.set`, `Uint8Array.prototype.slice` and the
 * little-endian `DataView.getInt32` / `DataView.setInt32`, stated for
 * integer (not floating-point) values.
 */
module TypedArrays {

  import opened Wrappers

  /** One element of a `Uint8Array`. */
  type byte = b: int | 0 <= b < 256

  const TWO31: int := 0x8000_0000
  const TWO32: int := 0x1_0000_0000

  /** The error `DataView` raises for an access outside its bounds. */
  datatype RangeError = OffsetOutsideBounds

  /** ECMAScript ToInt32 restricted to integers: the unique int32 congruent to `v` modulo 2^32. */
  function ToInt32(v: int): (r: int)
    ensures -TWO31 <= r < TWO31
    ensures (v - r) % TWO32 == 0
  {
    var u := v % TWO32;
    if u >= TWO31 then u - TWO32 else u
  }

  /** An int32 value is its own ToInt32. */
  lemma ToInt32InRange(v: int)
    requires -TWO31 <= v < TWO31
    ensures ToInt32(v) == v
  {
  }

  /** The four bytes `setInt32(_, v, true)` stores: the little-endian two's complement of ToInt32(v). */
  function Int32LE(v: int): (r: seq<byte>)
    ensures |r| == 4
  {
    var u := v % TWO32;
    [u % 256, (u / 256) % 256, (u / 65536) % 256, (u / 16777216) % 256]
  }

  /** The unsigned value of the first four bytes read little-endian. */
  function Uint32LE(b: seq<byte>): (r: int)
    requires |b| >= 4
    ensures 0 <= r < TWO32
  {
    (b[0] as int) + 256 * (b[1] as int) + 65536 * (b[2] as int) + 16777216 * (b[3] as int)
  }

  /** `getInt32(0, true)` on a view of `b`: fails when the view is shorter than four bytes. */
  function GetInt32LE(b: seq<byte>): (r: Result<int, RangeError>)
    ensures r.Success? <==> |b| >= 4
    ensures r.Success? ==> -TWO31 <= r.value < TWO31 && (Uint32LE(b) - r.value) % TWO32 == 0
  {
    if |b| < 4 then Failure(OffsetOutsideBounds)
    else
      var u := Uint32LE(b);
      Success(if u >= TWO31 then u - TWO32 else u)
  }

  /** Reading back what `setInt32` stored yields the value reduced to int32. */
  lemma {:induction false} Uint32LEOfInt32LE(v: int)
    ensures Uint32LE(Int32LE(v)) == v % TWO32
  {
    var u := v % TWO32;
    var b := Int32LE(v);
    var q1 := u / 256;
    var q2 := q1 / 256;
    var q3 := q2 / 256;
    assert u == u % 256 + 256 * q1;
    assert q1 == q1 % 256 + 256 * q2;
    assert q2 == q2 % 256 + 256 * q3;
    assert q2 == u / 65536;
    assert q3 == u / 16777216;
    assert q3 < 256;
    assert b[3] == q3;
  }

  lemma {:induction false} GetInt32OfInt32LE(v: int)
    ensures GetInt32LE(Int32LE(v)) == Success(ToInt32(v))
  {
    Uint32LEOfInt32LE(v);
  }

  /** `Uint8Array.prototype.slice(start, end)` for non-negative arguments: both ends are clamped to the length. */
  function Slice(data: seq<byte>, start: nat, end: nat): (r: seq<byte>)
    ensures start <= end <= |data| ==> r == data[start..end]
    ensures start <= |data| < end ==> r == data[start..]
    ensures |data| <= start || end <= start ==> r == []
  {
    var lo := if start < |data| then start else |data|;
    var hi := if end < |data| then end else |data|;
    if lo < hi then data[lo..hi] else []
  }

  /** `dst.set(src, offset)`: copies `src` into `dst` starting at `offset`, leaving the rest alone. */
  method SetBytes(dst: array<byte>, src: seq<byte>, offset: nat)
    requires offset + |src| <= dst.Length
    modifies dst
    ensures dst[..offset + |src|] == old(dst[..offset]) + src
    ensures dst[offset + |src|..] == old(dst[offset + |src|..])
  {
    for k := 0 to |src|
      invariant dst[..offset + k] == old(dst[..offset]) + src[..k]
      invariant dst[offset + |src|..] == old(dst[offset + |src|..])
    {
      dst[offset + k] := src[k];
      assert src[..k + 1] == src[..k] + [src[k]];
    }
    assert src[..|src|] == src;
  }

  /** `new DataView(view.buffer).setInt32(byteOffset, value, true)`. */
  method SetInt32(view: array<byte>, byteOffset: nat, value: int)
    requires byteOffset + 4 <= view.Length
    modifies view
    ensures view[..] == old(view[..byteOffset]) + Int32LE(value) + old(view[byteOffset + 4..])
  {
    SetBytes(view, Int32LE(value), byteOffset);
    assert view[..] == view[..byteOffset + 4] + view[byteOffset + 4..];
  }
}
