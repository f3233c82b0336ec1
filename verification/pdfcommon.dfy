// Common value types and their guards (src/pdfcommon.hpp, src/pdfcommon.cpp).
//
// Handles are plain integer ids; colours, rectangles and shading elements are
// values. `LimitDouble` and `ShadingType4` are updated in place in the source
// and are classes here. UTF-8 decoding (`CodepointIterator`) is modelled on the
// same byte conventions as Utils: a `string` whose characters stand for bytes.

module PdfCommon {
  import opened Errors
  import opened Utils
  import ObjectFormat

  // ---------------------------------------------------------------------------
  // Handles (DEF_BASIC_OPERATORS)
  // ---------------------------------------------------------------------------

  /** Every public handle type is a struct holding one 32-bit `id`. */
  datatype Handle = Handle(id: int)

  type ImageId = Handle
  type FontId = Handle
  type IccColorSpaceId = Handle
  type FormXObjectId = Handle
  type FormWidgetId = Handle
  type AnnotationId = Handle
  type StructureItemId = Handle
  type OptionalContentGroupId = Handle
  type TransparencyGroupId = Handle

  /** `operator<=>`: the three-way comparison of the ids. */
  function Compare(a: Handle, b: Handle): (r: int)
    ensures r == 0 <==> a == b
    ensures r < 0 <==> a.id < b.id
    ensures r > 0 <==> a.id > b.id
  {
    if a.id < b.id then -1 else if a.id == b.id then 0 else 1
  }

  /** `std::hash<T>`: the hash of the id, whatever the integer hash is. */
  function HandleHash(h: Handle, intHash: int -> int): int
  {
    intHash(h.id)
  }

  /** The ordering is antisymmetric and transitive, and equal handles hash alike. */
  lemma {:induction false} HandleOrdering(a: Handle, b: Handle, c: Handle, intHash: int -> int)
    ensures Compare(a, b) == -Compare(b, a)
    ensures Compare(a, b) < 0 && Compare(b, c) < 0 ==> Compare(a, c) < 0
    ensures Compare(a, b) == 0 ==> HandleHash(a, intHash) == HandleHash(b, intHash)
  {
  }

  /** A font together with one of its subsets. */
  datatype FontSubset = FontSubset(fid: FontId, subsetId: int)

  /** `FontSubset::operator==`: componentwise on the font id and the subset id. */
  predicate SubsetEquals(a: FontSubset, b: FontSubset)
  {
    a.fid.id == b.fid.id && a.subsetId == b.subsetId
  }

  /** `FontSubset::operator!=`. */
  predicate SubsetDiffers(a: FontSubset, b: FontSubset)
  {
    !SubsetEquals(a, b)
  }

  /** The source's equality is value equality, and `!=` is its negation. */
  lemma {:induction false} SubsetEqualityIsValueEquality(a: FontSubset, b: FontSubset)
    ensures SubsetEquals(a, b) <==> a == b
    ensures SubsetDiffers(a, b) <==> a != b
  {
  }

  // ---------------------------------------------------------------------------
  // LimitDouble
  // ---------------------------------------------------------------------------

  /** A colour channel: what a `LimitDouble` can hold. */
  type UnitReal = x: real | 0.0 <= x <= 1.0

  /** The value `clamp` leaves: in-range values are kept, the rest go to the nearer end. */
  function Clamped(v: real): (r: UnitReal)
    ensures 0.0 <= v <= 1.0 ==> r == v
    ensures v < 0.0 ==> r == 0.0
    ensures v > 1.0 ==> r == 1.0
  {
    if v < 0.0 then 0.0 else if v > 1.0 then 1.0 else v
  }

  /** Clamping is idempotent and monotone. */
  lemma {:induction false} ClampedIdempotentMonotone(v: real, w: real)
    ensures Clamped(Clamped(v)) == Clamped(v)
    ensures v <= w ==> Clamped(v) <= Clamped(w)
  {
  }

  class LimitDouble {
    var value: real

    ghost predicate Valid()
      reads this
    {
      0.0 <= value <= 1.0
    }

    /** The default value is the lower bound. */
    constructor()
      ensures Valid() && value == 0.0
    {
      value := 0.0;
    }

    constructor FromReal(newVal: real)
      ensures Valid() && value == Clamped(newVal)
    {
      value := newVal;
      new;
      Clamp();
    }

    function V(): (r: real)
      reads this
      requires Valid()
      ensures 0.0 <= r <= 1.0
    {
      value
    }

    /** `operator=(double)`. */
    method Assign(d: real)
      modifies this
      ensures Valid() && value == Clamped(d)
    {
      value := d;
      Clamp();
    }

    method Clamp()
      modifies this
      ensures Valid() && value == Clamped(old(value))
    {
      if value < 0.0 {
        value := 0.0;
      } else if value > 1.0 {
        value := 1.0;
      }
    }
  }

  // ---------------------------------------------------------------------------
  // Colours, rectangles, shadings
  // ---------------------------------------------------------------------------

  datatype Point = Point(x: real, y: real)

  datatype PdfMatrix = PdfMatrix(a: real, b: real, c: real, d: real, e: real, f: real)

  /** The `Color` variant. */
  datatype Color =
    | DeviceRGB(r: UnitReal, g: UnitReal, b: UnitReal)
    | DeviceGray(v: UnitReal)
    | DeviceCMYK(c: UnitReal, m: UnitReal, y: UnitReal, k: UnitReal)
    | ICC(icc: IccColorSpaceId, values: seq<real>)
    | Lab(lab: int, l: real, a: real, bb: real)
    | Separation(sep: int, tint: UnitReal)
    | Pattern(pattern: int)

  datatype ShadingPoint = ShadingPoint(p: Point, c: Color)

  /** A page transition; every entry is optional. */
  datatype Transition = Transition(
    transitionType: Option<int>, duration: Option<real>, dm: Option<int>, motion: Option<int>,
    di: Option<int>, ss: Option<real>, b: Option<bool>)

  datatype SubPageNavigation = SubPageNavigation(id: OptionalContentGroupId, tr: Option<Transition>)

  datatype RasterImageMetadata = RasterImageMetadata(
    w: int, h: int, pixelDepth: int, alphaDepth: int, cs: int, compression: int)

  datatype RawPixelImage = RawPixelImage(
    md: RasterImageMetadata, pixels: seq<bv8>, alpha: seq<bv8>, iccProfile: seq<bv8>, decode: seq<real>)

  datatype ShadingElement = ShadingElement(sp: ShadingPoint, flag: int)

  /** A free-form triangle mesh: a strip is started by three vertices and extended one at a time. */
  class ShadingType4 {
    var elements: seq<ShadingElement>

    constructor()
      ensures elements == []
    {
      elements := [];
    }

    /** `start_strip`: three elements, in order, each with flag 0. */
    method StartStrip(v0: ShadingPoint, v1: ShadingPoint, v2: ShadingPoint)
      modifies this
      ensures elements == old(elements) + [ShadingElement(v0, 0), ShadingElement(v1, 0), ShadingElement(v2, 0)]
    {
      elements := elements + [ShadingElement(v0, 0)];
      elements := elements + [ShadingElement(v1, 0)];
      elements := elements + [ShadingElement(v2, 0)];
    }

    /** `extend_strip`: one element with the given flag; earlier elements are untouched. */
    method ExtendStrip(v: ShadingPoint, flag: int)
      modifies this
      ensures elements == old(elements) + [ShadingElement(v, flag)]
    {
      elements := elements + [ShadingElement(v, flag)];
    }
  }

  /** A radial shading: two circles and the function that colours the blend. */
  datatype ShadingType3 = ShadingType3(x0: real, y0: real, r0: real, x1: real, y1: real, r1: real, func: int)

  /**
   * A patch of a Coons patch mesh: a full patch has 12 control points and 4
   * corner colours, a continuation patch shares an edge with the patch before
   * it and brings 8 points and 2 colours.
   */
  datatype CoonsPatch =
    | FullCoonsPatch(p: seq<Point>, c: seq<Color>)
    | ContinuationCoonsPatch(p: seq<Point>, c: seq<Color>)

  /** A Coons patch mesh: its patches in the order they were added. */
  class ShadingType6 {
    var elements: seq<CoonsPatch>

    constructor()
      ensures elements == []
    {
      elements := [];
    }
  }

  datatype PdfRectangle = PdfRectangle(x1: real, y1: real, x2: real, y2: real)

  /** `PdfRectangle::construct`: succeeds iff the box has positive width and height. */
  function ConstructRectangle(l: real, b: real, r: real, t: real): (res: Rvoe<PdfRectangle>)
    ensures res.Ok? <==> l < r && b < t
    ensures res.Err? ==> res.error == InvalidBBox
    ensures res.Ok? ==> res.value == PdfRectangle(l, b, r, t)
  {
    if r <= l then Err(InvalidBBox)
    else if t <= b then Err(InvalidBBox)
    else Ok(PdfRectangle(l, b, r, t))
  }

  /** `PdfRectangle::w()` as written: the vertical extent. */
  function WidthAsWritten(rect: PdfRectangle): (r: real)
    ensures r == Height(rect)
  {
    rect.y2 - rect.y1
  }

  /** `PdfRectangle::h()` as written: the horizontal extent. */
  function HeightAsWritten(rect: PdfRectangle): (r: real)
    ensures r == Width(rect)
  {
    rect.x2 - rect.x1
  }

  /** The accessors are swapped: on a 2 x 1 box `w()` is 1 and `h()` is 2. */
  lemma {:induction false} AccessorsSwapped()
    ensures var rect := ConstructRectangle(0.0, 0.0, 2.0, 1.0).value;
      WidthAsWritten(rect) == 1.0 && HeightAsWritten(rect) == 2.0
  {
  }

  /** The horizontal extent: the distance from the left to the right edge. */
  function Width(rect: PdfRectangle): (r: real)
    ensures rect.x1 + r == rect.x2
  {
    rect.x2 - rect.x1
  }

  /** The vertical extent: the distance from the bottom to the top edge. */
  function Height(rect: PdfRectangle): (r: real)
    ensures rect.y1 + r == rect.y2
  {
    rect.y2 - rect.y1
  }

  /** A constructed rectangle has the width and height its corners give, both positive. */
  lemma {:induction false} ConstructedExtent(l: real, b: real, r: real, t: real)
    requires ConstructRectangle(l, b, r, t).Ok?
    ensures var rect := ConstructRectangle(l, b, r, t).value;
      Width(rect) == r - l > 0.0 && Height(rect) == t - b > 0.0
  {
  }

  // ---------------------------------------------------------------------------
  // Checked strings
  // ---------------------------------------------------------------------------

  predicate HasNul(s: string)
  {
    exists i :: 0 <= i < |s| && s[i] == '\0'
  }

  predicate IsAsciiText(s: string)
  {
    forall i :: 0 <= i < |s| ==> ByteOf(s[i]) <= 127
  }

  /** `asciistring::from_view`: NotASCII first, then EmbeddedNullInString. */
  function AsciiFromView(sv: string): (r: Rvoe<string>)
    ensures r.Ok? <==> IsAsciiText(sv) && !HasNul(sv)
    ensures !IsAsciiText(sv) ==> r == Err(NotASCII)
    ensures IsAsciiText(sv) && HasNul(sv) ==> r == Err(EmbeddedNullInString)
    ensures r.Ok? ==> r.value == sv
  {
    if !IsAsciiText(sv) then Err(NotASCII)
    else if HasNul(sv) then Err(EmbeddedNullInString)
    else Ok(sv)
  }

  /** `u8string::from_view`: BadUtf8 first, then EmbeddedNullInString. */
  function U8FromView(sv: string): (r: Rvoe<string>)
    ensures r.Ok? <==> Utf8Valid(sv) && !HasNul(sv)
    ensures !Utf8Valid(sv) ==> r == Err(BadUtf8)
    ensures Utf8Valid(sv) && HasNul(sv) ==> r == Err(EmbeddedNullInString)
    ensures r.Ok? ==> r.value == sv
  {
    if !Utf8Valid(sv) then Err(BadUtf8)
    else if HasNul(sv) then Err(EmbeddedNullInString)
    else Ok(sv)
  }

  /**
   * `u8string::from_cstr`: `cstr` is the text before the terminating NUL, so
   * only the UTF-8 check can fail.
   */
  function U8FromCstr(cstr: string): (r: Rvoe<string>)
    requires !HasNul(cstr)
    ensures r.Ok? <==> Utf8Valid(cstr)
    ensures r.Err? ==> r.error == BadUtf8
    ensures r.Ok? ==> r.value == cstr
  {
    if !Utf8Valid(cstr) then Err(BadUtf8) else Ok(cstr)
  }

  /** ASCII text that passes `asciistring::from_view` also passes `u8string::from_view`. */
  lemma {:induction false} AsciiIsU8(sv: string)
    requires AsciiFromView(sv).Ok?
    ensures U8FromView(sv) == AsciiFromView(sv)
  {
    AsciiIsValidUtf8(sv, 0);
  }

  // ---------------------------------------------------------------------------
  // UTF-8 decoding (CodepointIterator)
  // ---------------------------------------------------------------------------

  /** The payload mask of a lead byte announcing n continuation bytes: 0x1F, 0x0F or 0x07. */
  function LeadMask(n: int): int
    requires 1 <= n <= 3
  {
    if n == 1 then 32 else if n == 2 then 16 else 8
  }

  /**
   * `unpack_one` after k continuation bytes: the lead byte's payload bits, then
   * six bits per continuation byte. `x & (2^m - 1)` is written `x % 2^m`.
   */
  function Unpacked(s: string, pos: nat, n: int, k: nat): int
    requires 1 <= n <= 3 && k <= n && pos + n < |s|
  {
    if k == 0 then ByteOf(s[pos]) % LeadMask(n)
    else Unpacked(s, pos, n, k - 1) * 64 + ByteOf(s[pos + k]) % 64
  }

  /** `unpack_one`: the accumulator loop. */
  method UnpackOne(s: string, pos: nat, n: int) returns (unpacked: int)
    requires 1 <= n <= 3 && pos + n < |s|
    ensures unpacked == Unpacked(s, pos, n, n)
  {
    unpacked := ByteOf(s[pos]) % LeadMask(n);
    var i := 0;
    while i < n
      invariant 0 <= i <= n
      invariant unpacked == Unpacked(s, pos, n, i)
    {
      unpacked := unpacked * 64;
      var subsequent := ByteOf(s[pos + 1 + i]);
      unpacked := unpacked + subsequent % 64;
      i := i + 1;
    }
  }

  /** The code point and byte count at `pos` of valid text. */
  function DecodeAt(s: string, pos: nat): (r: (int, int))
    requires pos < |s| && Utf8ValidFrom(s, pos)
    ensures 1 <= r.1 <= 4 && pos + r.1 <= |s|
    ensures r.1 == ContinuationCount(ByteOf(s[pos])) + 1
  {
    var n := ContinuationCount(ByteOf(s[pos]));
    if n == 0 then (ByteOf(s[pos]), 1) else (Unpacked(s, pos, n, n), n + 1)
  }

  /**
   * `extract_one_codepoint`: ASCII gives itself with count 1; a lead byte
   * 110xxxxx, 1110xxxx or 11110xxx gives count 2, 3 or 4. Any other lead byte
   * aborts in the source, which the validity precondition excludes.
   */
  method ExtractOneCodepoint(s: string, pos: nat) returns (codepoint: int, byteCount: int)
    requires pos < |s| && Utf8ValidFrom(s, pos)
    ensures (codepoint, byteCount) == DecodeAt(s, pos)
  {
    var code := ByteOf(s[pos]);
    if code < 0x80 {
      return code, 1;
    }
    var n := ContinuationCount(code);
    codepoint := UnpackOne(s, pos, n);
    byteCount := 1 + n;
  }

  /** Iterating a `u8string`: the code points of valid text, in order. */
  function CodepointsFrom(s: string, pos: nat): seq<int>
    requires pos <= |s| && Utf8ValidFrom(s, pos)
    decreases |s| - pos
  {
    if pos == |s| then []
    else
      var d := DecodeAt(s, pos);
      [d.0] + CodepointsFrom(s, pos + d.1)
  }

  function Codepoints(s: string): seq<int>
    requires Utf8Valid(s)
  {
    CodepointsFrom(s, 0)
  }

  /** A multi-byte encoding announces its continuation bytes and unpacks to the code point. */
  lemma {:induction false} UnpackEncoded(cp: int)
    requires 0x80 <= cp < 0x110000
    ensures var e := Utf8Encode(cp);
      && 2 <= |e| && ContinuationCount(ByteOf(e[0])) == |e| - 1
      && Unpacked(e, 0, |e| - 1, |e| - 1) == cp
  {
    if cp < 0x800 {
      UnpackTwo(cp);
    } else if cp < 0x10000 {
      UnpackThree(cp);
    } else {
      UnpackFour(cp);
    }
  }

  lemma {:induction false} UnpackTwo(cp: int)
    requires 0x80 <= cp < 0x800
    ensures var e := Utf8Encode(cp);
      |e| == 2 && ContinuationCount(ByteOf(e[0])) == 1 && Unpacked(e, 0, 1, 1) == cp
  {
    var e := Utf8Encode(cp);
    assert ByteOf(e[0]) % 32 == cp / 64;
    assert ByteOf(e[1]) % 64 == cp % 64;
  }

  lemma {:induction false} UnpackThree(cp: int)
    requires 0x800 <= cp < 0x10000
    ensures var e := Utf8Encode(cp);
      |e| == 3 && ContinuationCount(ByteOf(e[0])) == 2 && Unpacked(e, 0, 2, 2) == cp
  {
    var e := Utf8Encode(cp);
    assert Unpacked(e, 0, 2, 0) == cp / 4096;
    assert ByteOf(e[1]) % 64 == (cp / 64) % 64;
    assert Unpacked(e, 0, 2, 1) == cp / 64;
    assert ByteOf(e[2]) % 64 == cp % 64;
  }

  lemma {:induction false} UnpackFour(cp: int)
    requires 0x10000 <= cp < 0x110000
    ensures var e := Utf8Encode(cp);
      |e| == 4 && ContinuationCount(ByteOf(e[0])) == 3 && Unpacked(e, 0, 3, 3) == cp
  {
    var e := Utf8Encode(cp);
    assert Unpacked(e, 0, 3, 0) == cp / 262144;
    assert ByteOf(e[1]) % 64 == (cp / 4096) % 64;
    assert Unpacked(e, 0, 3, 1) == cp / 4096;
    assert ByteOf(e[2]) % 64 == (cp / 64) % 64;
    assert Unpacked(e, 0, 3, 2) == cp / 64;
    assert ByteOf(e[3]) % 64 == cp % 64;
  }

  /** Unpacking reads only the bytes of the character itself, not what follows. */
  lemma {:induction false} UnpackedPrefix(e: string, rest: string, n: int, k: nat)
    requires 1 <= n <= 3 && k <= n && n < |e|
    ensures Unpacked(e + rest, 0, n, k) == Unpacked(e, 0, n, k)
  {
    assert (e + rest)[k] == e[k];
    if k > 0 {
      UnpackedPrefix(e, rest, n, k - 1);
    }
  }

  /** Decoding the RFC 3629 encoding of a code point gives the code point and its length. */
  lemma {:induction false} DecodeEncoded(cp: int, rest: string)
    requires 0 <= cp < 0x110000 && Utf8Valid(rest)
    ensures Utf8Valid(Utf8Encode(cp) + rest)
    ensures DecodeAt(Utf8Encode(cp) + rest, 0) == (cp, |Utf8Encode(cp)|)
  {
    EncodedCharacterAccepted(cp, rest);
    var e := Utf8Encode(cp);
    assert (e + rest)[0] == e[0];
    if cp >= 0x80 {
      UnpackEncoded(cp);
      UnpackedPrefix(e, rest, |e| - 1, |e| - 1);
    }
  }

  /** Decoding an encoded code point sequence gives the sequence back. */
  lemma {:induction false} DecodeEncodedText(cps: seq<int>)
    requires forall i :: 0 <= i < |cps| ==> 0 <= cps[i] < 0x110000
    ensures Utf8Valid(Utf8EncodeAll(cps))
    ensures Codepoints(Utf8EncodeAll(cps)) == cps
    decreases |cps|
  {
    EncodedTextAccepted(cps);
    if cps != [] {
      var rest := Utf8EncodeAll(cps[1..]);
      assert Utf8EncodeAll(cps) == Utf8Encode(cps[0]) + rest;
      DecodeEncodedText(cps[1..]);
      DecodeCons(cps[0], rest);
      assert cps == [cps[0]] + cps[1..];
    }
  }

  /** Decoding one encoded code point followed by valid text. */
  lemma {:induction false} DecodeCons(cp: int, rest: string)
    requires 0 <= cp < 0x110000 && Utf8Valid(rest)
    ensures Utf8Valid(Utf8Encode(cp) + rest)
    ensures Codepoints(Utf8Encode(cp) + rest) == [cp] + Codepoints(rest)
  {
    var e := Utf8Encode(cp);
    DecodeEncoded(cp, rest);
    CodepointsShift(e, rest, 0);
    assert Codepoints(e + rest) == [cp] + CodepointsFrom(e + rest, |e|);
  }

  /** Decoding after a prefix reads the same character as without it. */
  lemma {:induction false} DecodeAtShift(p: string, s: string, i: nat)
    requires i < |s| && Utf8ValidFrom(s, i)
    ensures Utf8ValidFrom(p + s, |p| + i)
    ensures DecodeAt(p + s, |p| + i) == DecodeAt(s, i)
  {
    Utf8ValidFromShift(p, s, i);
    assert (p + s)[|p| + i] == s[i];
    var n := ContinuationCount(ByteOf(s[i]));
    if n > 0 {
      UnpackedShift(p, s, i, n, n);
    }
  }

  /** The code points after a prefix do not depend on the prefix. */
  lemma {:induction false} CodepointsShift(p: string, s: string, i: nat)
    requires i <= |s| && Utf8ValidFrom(s, i)
    ensures Utf8ValidFrom(p + s, |p| + i)
    ensures CodepointsFrom(p + s, |p| + i) == CodepointsFrom(s, i)
    decreases |s| - i
  {
    Utf8ValidFromShift(p, s, i);
    if i < |s| {
      DecodeAtShift(p, s, i);
      var d := DecodeAt(s, i);
      var next := i + d.1;
      CodepointsStep(s, i, d.0, d.1, next);
      CodepointsStep(p + s, |p| + i, d.0, d.1, |p| + next);
      CodepointsShift(p, s, next);
    }
  }

  /** The code points from `pos` on: the one decoded there, then those after it. */
  lemma {:induction false} CodepointsStep(t: string, pos: nat, c: int, len: int, next: nat)
    requires pos < |t| && Utf8ValidFrom(t, pos) && DecodeAt(t, pos) == (c, len) && next == pos + len
    ensures next <= |t| && Utf8ValidFrom(t, next)
    ensures CodepointsFrom(t, pos) == [c] + CodepointsFrom(t, next)
  {
  }

  lemma {:induction false} UnpackedShift(p: string, s: string, i: nat, n: int, k: nat)
    requires 1 <= n <= 3 && k <= n && i + n < |s|
    ensures Unpacked(p + s, |p| + i, n, k) == Unpacked(s, i, n, k)
  {
    assert (p + s)[|p| + i + k] == s[i + k];
    if k > 0 {
      UnpackedShift(p, s, i, n, k - 1);
    }
  }

  // ---------------------------------------------------------------------------
  // Transparency groups
  // ---------------------------------------------------------------------------

  datatype DeviceColorspace = RGB | Gray | CMYK

  /** `colorspace_names`. */
  function ColorspaceName(cs: DeviceColorspace): string
  {
    match cs
    case RGB => "/DeviceRGB"
    case Gray => "/DeviceGray"
    case CMYK => "/DeviceCMYK"
  }

  datatype TransparencyGroupProperties = TransparencyGroupProperties(
    cs: Option<DeviceColorspace>, isolated: Option<bool>, knockout: Option<bool>)

  function BoolToken(b: bool): string
  {
    if b then "true" else "false"
  }

  /** The tokens `serialize` adds inside the dictionary: /CS, /I and /K only when set. */
  function GroupTokens(p: TransparencyGroupProperties): (r: seq<string>)
    ensures |r| >= 4 && r[..4] == ["/Type", "/Group", "/S", "/Transparency"]
  {
    ["/Type", "/Group", "/S", "/Transparency"]
    + (if p.cs.Some? then ["/CS", ColorspaceName(p.cs.value)] else [])
    + (if p.isolated.Some? then ["/I", BoolToken(p.isolated.value)] else [])
    + (if p.knockout.Some? then ["/K", BoolToken(p.knockout.value)] else [])
  }

  /** Each optional key is written exactly when its field is set, with the field's value. */
  lemma {:induction false} GroupTokensOptionalKeys(p: TransparencyGroupProperties)
    ensures "/CS" in GroupTokens(p) <==> p.cs.Some?
    ensures "/I" in GroupTokens(p) <==> p.isolated.Some?
    ensures "/K" in GroupTokens(p) <==> p.knockout.Some?
    ensures |GroupTokens(p)| == 4 + (if p.cs.Some? then 2 else 0)
              + (if p.isolated.Some? then 2 else 0) + (if p.knockout.Some? then 2 else 0)
  {
    var t := GroupTokens(p);
    var cs := if p.cs.Some? then ["/CS", ColorspaceName(p.cs.value)] else [];
    var i := if p.isolated.Some? then ["/I", BoolToken(p.isolated.value)] else [];
    var k := if p.knockout.Some? then ["/K", BoolToken(p.knockout.value)] else [];
    assert t == ["/Type", "/Group", "/S", "/Transparency"] + cs + i + k;
    if p.cs.Some? {
      assert t[4] == "/CS";
    }
    if p.isolated.Some? {
      assert t[4 + |cs|] == "/I";
    }
    if p.knockout.Some? {
      assert t[4 + |cs| + |i|] == "/K";
    }
  }

  /** One optional key/value pair: written as two tokens when set, nothing otherwise. */
  method AddOptionalEntry(fmt: ObjectFormat.ObjectFormatter, key: string, value: Option<string>)
    requires fmt.Valid()
    modifies fmt
    ensures fmt.Valid() && fmt.stack == old(fmt.stack)
    ensures fmt.events == old(fmt.events) + ObjectFormat.TokenEvents(OptionalPair(key, value))
  {
    if value.Some? {
      fmt.AddToken(key);
      fmt.AddToken(value.value);
    }
  }

  function OptionalPair(key: string, value: Option<string>): seq<string>
  {
    if value.Some? then [key, value.value] else []
  }

  /** `TransparencyGroupProperties::serialize`: one dictionary holding `GroupTokens(p)`. */
  method SerializeGroup(p: TransparencyGroupProperties, fmt: ObjectFormat.ObjectFormatter)
    requires fmt.Valid()
    modifies fmt
    ensures fmt.Valid()
    ensures fmt.stack == old(fmt.stack)
    ensures fmt.events == old(fmt.events) + [ObjectFormat.Open(ObjectFormat.Dictionary)]
              + ObjectFormat.TokenEvents(GroupTokens(p)) + [ObjectFormat.Close(ObjectFormat.Dictionary)]
  {
    ghost var e0 := fmt.events;
    fmt.BeginDict();
    fmt.AddTokenPair("/Type", "/Group");
    fmt.AddTokenPair("/S", "/Transparency");
    ghost var ts := ["/Type", "/Group", "/S", "/Transparency"];
    ghost var e1 := fmt.events;
    assert e1 == e0 + [ObjectFormat.Open(ObjectFormat.Dictionary)] + ObjectFormat.TokenEvents(ts);
    var cs := if p.cs.Some? then Some(ColorspaceName(p.cs.value)) else None;
    var i := if p.isolated.Some? then Some(BoolToken(p.isolated.value)) else None;
    var k := if p.knockout.Some? then Some(BoolToken(p.knockout.value)) else None;
    AddOptionalEntry(fmt, "/CS", cs);
    AddOptionalEntry(fmt, "/I", i);
    AddOptionalEntry(fmt, "/K", k);
    ghost var e2 := fmt.events;
    fmt.EndDict();
    assert GroupTokens(p) == ts + OptionalPair("/CS", cs) + OptionalPair("/I", i) + OptionalPair("/K", k);
    TokenEventsConcat(ts, OptionalPair("/CS", cs), OptionalPair("/I", i), OptionalPair("/K", k));
    ghost var t1, t2, t3, t4 := ObjectFormat.TokenEvents(ts), ObjectFormat.TokenEvents(OptionalPair("/CS", cs)),
      ObjectFormat.TokenEvents(OptionalPair("/I", i)), ObjectFormat.TokenEvents(OptionalPair("/K", k));
    assert e2 == e0 + [ObjectFormat.Open(ObjectFormat.Dictionary)] + t1 + t2 + t3 + t4;
    Regroup(e0 + [ObjectFormat.Open(ObjectFormat.Dictionary)], t1, t2, t3, t4, [ObjectFormat.Close(ObjectFormat.Dictionary)]);
  }

  lemma {:induction false} Regroup<T>(a: seq<T>, b: seq<T>, c: seq<T>, d: seq<T>, e: seq<T>, f: seq<T>)
    ensures a + b + c + d + e + f == a + (b + c + d + e) + f
  {
  }

  lemma {:induction false} TokenEventsConcat(a: seq<string>, b: seq<string>, c: seq<string>, d: seq<string>)
    ensures ObjectFormat.TokenEvents(a + b + c + d)
         == ObjectFormat.TokenEvents(a) + ObjectFormat.TokenEvents(b) + ObjectFormat.TokenEvents(c) + ObjectFormat.TokenEvents(d)
  {
  }
}
