// Bounds-checked slicing and byte-order helpers (src/bitfiddling.cpp,
// src/bitfiddling.hpp).
//
// A scalar of `width` bytes is represented by its value; its in-memory image
// is the little-endian byte sequence of that value (the host byte order the
// code assumes). `byteswap` reverses that image, so writing a swapped scalar
// produces its big-endian encoding.

module BitFiddling {
  import opened Errors

  type Byte = x: int | 0 <= x < 256

  /** 2^63 and 2^64: the range of the int64/size_t arguments. */
  const TwoTo63: int := 0x8000_0000_0000_0000
  const TwoTo64: int := 0x1_0000_0000_0000_0000

  /** Converting a size_t to int64, as the view overload does with its offset. */
  function SizeToInt64(u: nat): (r: int)
    requires u < TwoTo64
    ensures u < TwoTo63 ==> r == u
    ensures u >= TwoTo63 ==> r < 0
  {
    if u < TwoTo63 then u else u - TwoTo64
  }

  /**
   * `get_substring(buf, bufsize, offset, substr_size)`: the null check comes
   * first, then the sign checks, then the bounds. `bufsize` is the number of
   * readable bytes behind the pointer.
   */
  function GetSubstring(buf: Option<seq<Byte>>, bufsize: int, offset: int, substrSize: int): (r: Rvoe<seq<Byte>>)
    requires buf.Some? ==> bufsize <= |buf.value|
    ensures buf.None? ==> r == Err(ArgIsNull)
    ensures buf.Some? && (bufsize < 0 || offset < 0 || substrSize < 0) ==> r == Err(IndexIsNegative)
    ensures buf.Some? && 0 <= bufsize && 0 <= offset && 0 <= substrSize && offset + substrSize > bufsize ==>
              r == Err(IndexOutOfBounds)
    ensures r.Ok? <==> buf.Some? && 0 <= offset && 0 <= substrSize && offset + substrSize <= bufsize
    ensures r.Ok? ==> |r.value| == substrSize && r.value == buf.value[offset..offset + substrSize]
  {
    if buf.None? then Err(ArgIsNull)
    else if bufsize < 0 || offset < 0 || substrSize < 0 then Err(IndexIsNegative)
    else if offset > bufsize then Err(IndexOutOfBounds)
    else if offset + substrSize > bufsize then Err(IndexOutOfBounds)
    else if substrSize == 0 then Ok([])
    else Ok(buf.value[offset..offset + substrSize])
  }

  /** The view overload: the whole view, the offset converted from size_t. */
  function GetSubstringOfView(sv: seq<Byte>, offset: nat, substrSize: int): (r: Rvoe<seq<Byte>>)
    requires |sv| < TwoTo63 && offset < TwoTo64
    ensures r.Ok? <==> 0 <= substrSize && offset + substrSize <= |sv|
    ensures r.Ok? ==> r.value == sv[offset..offset + substrSize]
  {
    GetSubstring(Some(sv), |sv|, SizeToInt64(offset), substrSize)
  }

  /** An offset of 2^63 or more becomes negative in int64 and is reported as such. */
  lemma {:induction false} HugeOffsetIsNegative(sv: seq<Byte>, offset: nat, substrSize: int)
    requires |sv| < TwoTo63 && TwoTo63 <= offset < TwoTo64
    ensures GetSubstringOfView(sv, offset, substrSize) == Err(IndexIsNegative)
  {
  }

  function Pow256(width: nat): (r: nat)
    ensures r > 0
  {
    if width == 0 then 1 else 256 * Pow256(width - 1)
  }

  /** The in-memory image of a `width`-byte scalar: least significant byte first. */
  function LeBytes(v: nat, width: nat): (r: seq<Byte>)
    ensures |r| == width
  {
    if width == 0 then [] else [v % 256] + LeBytes(v / 256, width - 1)
  }

  /** The scalar whose in-memory image is `bytes`. */
  function LeValue(bytes: seq<Byte>): (r: nat)
    ensures r < Pow256(|bytes|)
  {
    if bytes == [] then 0 else bytes[0] + 256 * LeValue(bytes[1..])
  }

  lemma {:induction false} LeRoundTrip(v: nat, width: nat)
    requires v < Pow256(width)
    ensures LeValue(LeBytes(v, width)) == v
  {
    if width > 0 {
      var r := LeBytes(v, width);
      assert r[1..] == LeBytes(v / 256, width - 1);
      LeRoundTrip(v / 256, width - 1);
    }
  }

  lemma {:induction false} LeBytesOfValue(bytes: seq<Byte>)
    ensures LeBytes(LeValue(bytes), |bytes|) == bytes
  {
    if bytes != [] {
      var rest := LeValue(bytes[1..]);
      DivModUnique(LeValue(bytes), 256, rest, bytes[0]);
      LeBytesOfValue(bytes[1..]);
      assert LeBytes(LeValue(bytes), |bytes|) == [bytes[0]] + LeBytes(rest, |bytes| - 1);
    }
  }

  /** Only the low `width` bytes of a scalar reach its image: truncating first changes nothing. */
  lemma {:induction false} LeBytesTruncates(v: nat, width: nat)
    ensures LeBytes(v % Pow256(width), width) == LeBytes(v, width)
  {
    if width > 0 {
      ModOfMultiple(v, Pow256(width - 1));
      LeBytesTruncates(v / 256, width - 1);
    }
  }

  lemma {:induction false} ModOfMultiple(v: nat, p: nat)
    requires p > 0
    ensures (v % (256 * p)) % 256 == v % 256 && (v % (256 * p)) / 256 == (v / 256) % p
  {
    var a, b := v / 256, v % 256;
    var q, r := a / p, a % p;
    assert v == (256 * p) * q + (256 * r + b);
    assert 256 * r + b < 256 * p;
    DivModUnique(v, 256 * p, q, 256 * r + b);
  }

  /** Euclidean division has one quotient and one remainder. */
  lemma {:induction false} DivModUnique(v: int, d: int, q: int, r: int)
    requires d > 0 && v == q * d + r && 0 <= r < d
    ensures v / d == q && v % d == r
  {
    var q', r' := v / d, v % d;
    assert v == q' * d + r';
    var k := q - q';
    assert k * d == q * d - q' * d;
    assert k * d == r' - r;
    if k >= 1 {
      MulAtLeast(k, d);
    } else if k <= -1 {
      MulAtLeast(-k, d);
    }
  }

  lemma {:induction false} MulAtLeast(k: int, d: int)
    requires k >= 1 && d > 0
    ensures k * d >= d
  {
    var j := k - 1;
    assert k * d == j * d + d;
    assert j * d >= 0;
  }

  function Reverse<T>(s: seq<T>): (r: seq<T>)
    ensures |r| == |s|
    ensures forall i :: 0 <= i < |s| ==> r[i] == s[|s| - 1 - i]
  {
    if s == [] then [] else Reverse(s[1..]) + [s[0]]
  }

  /** `byteswap` on the in-memory image. */
  function ByteSwap(image: seq<Byte>): (r: seq<Byte>)
    ensures |r| == |image|
  {
    Reverse(image)
  }

  /** Swapping twice gives the scalar back, and a one-byte swap changes nothing. */
  lemma {:induction false} ByteSwapInvolution(image: seq<Byte>)
    ensures ByteSwap(ByteSwap(image)) == image
    ensures |image| == 1 ==> ByteSwap(image) == image
  {
  }

  /** A big-endian byte string read as a number. */
  function BeValue(bytes: seq<Byte>): (r: nat)
    ensures r < Pow256(|bytes|)
  {
    if bytes == [] then 0 else 256 * BeValue(bytes[..|bytes| - 1]) + bytes[|bytes| - 1]
  }

  /** Reversing a little-endian image gives the big-endian encoding of the same value. */
  lemma {:induction false} ReversedImageIsBigEndian(bytes: seq<Byte>)
    ensures BeValue(Reverse(bytes)) == LeValue(bytes)
  {
    if bytes != [] {
      var r := Reverse(bytes);
      assert r[..|r| - 1] == Reverse(bytes[1..]);
      ReversedImageIsBigEndian(bytes[1..]);
    }
  }

  /** `extract<T>`: the scalar whose image starts at `offset`. */
  function Extract(bf: seq<Byte>, offset: nat, width: nat): (r: Rvoe<nat>)
    requires |bf| < TwoTo63 && offset < TwoTo64
    ensures r.Ok? <==> offset + width <= |bf|
    ensures r.Ok? ==> r.value == LeValue(bf[offset..offset + width])
  {
    var area :- GetSubstringOfView(bf, offset, width);
    Ok(LeValue(area))
  }

  /** `extract_and_swap<T>`: the scalar stored big-endian at `offset`. */
  function ExtractAndSwap(bf: seq<Byte>, offset: nat, width: nat): (r: Rvoe<nat>)
    requires |bf| < TwoTo63 && offset < TwoTo64
    ensures r.Ok? <==> offset + width <= |bf|
    ensures r.Ok? ==> r.value == BeValue(bf[offset..offset + width])
  {
    var area :- GetSubstringOfView(bf, offset, width);
    ReversedImageIsBigEndian(ByteSwap(area));
    ByteSwapInvolution(area);
    Ok(LeValue(ByteSwap(area)))
  }

  /** The growable byte buffer `append_bytes` and `swap_and_append_bytes` write into. */
  class ByteBuffer {
    var bytes: seq<Byte>

    constructor()
      ensures bytes == []
    {
      bytes := [];
    }

    /** `append_bytes` of a string or byte view: its contents. */
    method AppendRaw(data: seq<Byte>)
      modifies this
      ensures bytes == old(bytes) + data
    {
      bytes := bytes + data;
    }

    /** `append_bytes` of a scalar: its in-memory image. */
    method AppendBytes(v: nat, width: nat)
      requires v < Pow256(width)
      modifies this
      ensures |bytes| == |old(bytes)| + width && bytes[..|old(bytes)|] == old(bytes)
      ensures bytes == old(bytes) + LeBytes(v, width)
    {
      bytes := bytes + LeBytes(v, width);
    }

    /** `swap_and_append_bytes`: the swapped image, i.e. the big-endian encoding. */
    method SwapAndAppendBytes(v: nat, width: nat)
      requires v < Pow256(width)
      modifies this
      ensures |bytes| == |old(bytes)| + width && bytes[..|old(bytes)|] == old(bytes)
      ensures bytes == old(bytes) + ByteSwap(LeBytes(v, width))
      ensures BeValue(bytes[|old(bytes)|..]) == v
    {
      var image := LeBytes(v, width);
      bytes := bytes + ByteSwap(image);
      assert bytes[|old(bytes)|..] == Reverse(image);
      ReversedImageIsBigEndian(image);
      LeRoundTrip(v, width);
    }
  }

  /** A scalar written with `swap_and_append_bytes` is read back by `extract_and_swap` at the old end. */
  lemma {:induction false} SwapAppendExtractRoundTrip(prefix: seq<Byte>, v: nat, width: nat)
    requires v < Pow256(width)
    requires |prefix| + width < TwoTo63
    ensures ExtractAndSwap(prefix + ByteSwap(LeBytes(v, width)), |prefix|, width) == Ok(v)
  {
    var bf := prefix + ByteSwap(LeBytes(v, width));
    assert bf[|prefix|..|prefix| + width] == Reverse(LeBytes(v, width));
    ReversedImageIsBigEndian(LeBytes(v, width));
    LeRoundTrip(v, width);
  }

  /** A scalar written with `append_bytes` is read back by `extract` at the old end. */
  lemma {:induction false} AppendExtractRoundTrip(prefix: seq<Byte>, v: nat, width: nat)
    requires v < Pow256(width)
    requires |prefix| + width < TwoTo63
    ensures Extract(prefix + LeBytes(v, width), |prefix|, width) == Ok(v)
  {
    var bf := prefix + LeBytes(v, width);
    assert bf[|prefix|..|prefix| + width] == LeBytes(v, width);
    LeRoundTrip(v, width);
  }
}
