// The argument checks and setters of the C API (src/capi.cpp).
//
// Every entry point casts the opaque handles it is given to the internal
// types and writes through them. Here the targets are objects whose fields the
// setters update. A NULL pointer is `None`, and a character buffer is the text
// behind the pointer: as many characters as the caller makes readable.
// `conv_err` maps success to NoError (0) and an error to its own code.

module Capi {
  import opened Errors
  import opened PdfCommon
  import opened DocumentTypes
  import Text
  import opened Utils

  const TwoTo16: nat := 0x1_0000
  const TwoTo31: nat := 0x8000_0000

  /** `conv_err`: the code the C caller sees. */
  function ConvErr(s: Status): (rc: int)
    ensures s.Ok? ==> rc == NoError as int
    ensures s.Err? ==> rc == s.error as int
  {
    if s.Ok? then NoError as int else s.error as int
  }

  // ---------------------------------------------------------------------------
  // Text arguments
  // ---------------------------------------------------------------------------

  /** The position of the first NUL at or after `k`. */
  function NulFrom(buf: string, k: nat): (r: nat)
    requires k <= |buf| && exists i :: k <= i < |buf| && buf[i] == '\0'
    ensures k <= r < |buf| && buf[r] == '\0'
    ensures forall i :: k <= i < r ==> buf[i] != '\0'
    decreases |buf| - k
  {
    if buf[k] == '\0' then k else NulFrom(buf, k + 1)
  }

  /** The text of a NUL-terminated buffer: the characters before the first NUL. */
  function CStringOf(buf: string): (r: string)
    requires HasNul(buf)
    ensures |r| < |buf| && buf[|r|] == '\0' && r == buf[..|r|]
    ensures !HasNul(r)
  {
    buf[..NulFrom(buf, 0)]
  }

  /**
   * The text a `(buf, strsize)` pair designates: up to the terminating NUL
   * when the size is -1, otherwise the first `strsize` characters.
   */
  function Designated(buf: string, strsize: int): (r: string)
    requires strsize == -1 ==> HasNul(buf)
    requires strsize >= 0 ==> strsize <= |buf|
    requires strsize >= -1
  {
    if strsize == -1 then CStringOf(buf) else buf[..strsize]
  }

  /** What the callers promise about a buffer: NUL-terminated, or at least `strsize` characters long. */
  predicate BufferReadable(buf: Option<string>, strsize: int)
  {
    buf.Some? ==> (strsize == -1 ==> HasNul(buf.value)) && (strsize >= 0 ==> strsize <= |buf.value|)
  }

  /**
   * `validate_ascii`: NULL is ArgIsNull and a size below -1 is InvalidBufsize;
   * the designated text must then be ASCII (NotASCII) without an embedded NUL
   * (EmbeddedNullInString, which only a sized buffer can hit).
   */
  function ValidateAscii(buf: Option<string>, strsize: int): (r: Rvoe<string>)
    requires BufferReadable(buf, strsize)
    ensures buf.None? ==> r == Err(ArgIsNull)
    ensures buf.Some? && strsize < -1 ==> r == Err(InvalidBufsize)
    ensures r.Ok? <==> buf.Some? && strsize >= -1 &&
                       IsAsciiText(Designated(buf.value, strsize)) && !HasNul(Designated(buf.value, strsize))
    ensures buf.Some? && strsize >= -1 && !IsAsciiText(Designated(buf.value, strsize)) ==> r == Err(NotASCII)
    ensures buf.Some? && strsize >= -1 && IsAsciiText(Designated(buf.value, strsize)) && HasNul(Designated(buf.value, strsize)) ==>
              r == Err(EmbeddedNullInString)
    ensures r == Err(EmbeddedNullInString) ==> strsize >= 0
    ensures r.Ok? ==> r.value == Designated(buf.value, strsize)
  {
    if buf.None? then Err(ArgIsNull)
    else if strsize < -1 then Err(InvalidBufsize)
    else if strsize == -1 then AsciiFromView(CStringOf(buf.value))
    else AsciiFromView(buf.value[..strsize])
  }

  /**
   * `validate_utf8`: the same argument checks; then BadUtf8 for text that is
   * not UTF-8 and EmbeddedNullInString for a NUL inside a sized buffer.
   */
  function ValidateUtf8(buf: Option<string>, strsize: int): (r: Rvoe<string>)
    requires BufferReadable(buf, strsize)
    ensures buf.None? ==> r == Err(ArgIsNull)
    ensures buf.Some? && strsize < -1 ==> r == Err(InvalidBufsize)
    ensures r.Ok? <==> buf.Some? && strsize >= -1 &&
                       Utf8Valid(Designated(buf.value, strsize)) && !HasNul(Designated(buf.value, strsize))
    ensures buf.Some? && strsize >= -1 && !Utf8Valid(Designated(buf.value, strsize)) ==> r == Err(BadUtf8)
    ensures buf.Some? && strsize >= -1 && Utf8Valid(Designated(buf.value, strsize)) && HasNul(Designated(buf.value, strsize)) ==>
              r == Err(EmbeddedNullInString)
    ensures r == Err(EmbeddedNullInString) ==> strsize >= 0
    ensures r.Ok? ==> r.value == Designated(buf.value, strsize)
  {
    if buf.None? then Err(ArgIsNull)
    else if strsize < -1 then Err(InvalidBufsize)
    else if strsize == -1 then U8FromCstr(CStringOf(buf.value))
    else U8FromView(buf.value[..strsize])
  }

  /** A text ends where its terminating NUL is, whatever follows it. */
  lemma {:induction false} NulAfterText(t: string, rest: string, k: nat)
    requires !HasNul(t) && k <= |t|
    ensures exists i :: k <= i < |t + "\0" + rest| && (t + "\0" + rest)[i] == '\0'
    ensures NulFrom(t + "\0" + rest, k) == |t|
    decreases |t| - k
  {
    var buf := t + "\0" + rest;
    assert buf[|t|] == '\0';
    if k < |t| {
      assert buf[k] == t[k];
      assert buf[k] != '\0';
      NulAfterText(t, rest, k + 1);
    }
  }

  /**
   * The two size conventions agree: a text passed with its length, or
   * NUL-terminated with anything after the NUL, is read back as itself by
   * both validators whenever it is valid.
   */
  lemma {:induction false} SizeConventionsAgree(t: string, rest: string)
    requires !HasNul(t) && |t| < TwoTo31
    ensures HasNul(t + "\0" + rest)
    ensures ValidateAscii(Some(t), |t|) == ValidateAscii(Some(t + "\0" + rest), -1)
    ensures ValidateUtf8(Some(t), |t|) == ValidateUtf8(Some(t + "\0" + rest), -1)
    ensures IsAsciiText(t) ==> ValidateAscii(Some(t), |t|) == Ok(t)
    ensures Utf8Valid(t) ==> ValidateUtf8(Some(t), |t|) == Ok(t)
  {
    var buf := t + "\0" + rest;
    NulAfterText(t, rest, 0);
    assert CStringOf(buf) == t;
    assert t[..|t|] == t;
  }

  // ---------------------------------------------------------------------------
  // Document properties
  // ---------------------------------------------------------------------------

  /** `PdfRectangle::a4()`. */
  const A4: PdfRectangle := PdfRectangle(0.0, 0.0, 595.28, 841.89)

  /** The document properties the setters below write. */
  class DocumentProperties {
    var defaultPageProperties: PageProperties
    var isTagged: bool

    /** The default page size is always known. */
    ghost predicate Valid()
      reads this
    {
      defaultPageProperties.mediabox.Some?
    }

    /** The constructor gives pages an A4 media box and leaves tagging off. */
    constructor()
      ensures Valid()
      ensures defaultPageProperties == NoProperties.(mediabox := Some(A4)) && !isTagged
    {
      defaultPageProperties := NoProperties.(mediabox := Some(A4));
      isTagged := false;
    }

    /** `set_default_page_properties`: properties without a media box are refused. */
    method SetDefaultPageProperties(props: PageProperties) returns (r: Status)
      modifies this
      ensures Valid() == (old(Valid()) || r.Ok?)
      ensures props.mediabox.None? ==> r == Err(MissingMediabox) && defaultPageProperties == old(defaultPageProperties)
      ensures props.mediabox.Some? ==> r == Success && defaultPageProperties == props
      ensures isTagged == old(isTagged)
    {
      if props.mediabox.None? {
        return Err(MissingMediabox);
      }
      defaultPageProperties := props;
      r := Success;
    }

    /** `set_tagged`: an integer boolean; anything but 0 or 1 is BadBoolean. */
    method SetTagged(tagged: int) returns (r: Status)
      modifies this
      ensures (tagged < 0 || tagged > 1) ==> r == Err(BadBoolean) && isTagged == old(isTagged)
      ensures 0 <= tagged <= 1 ==> r == Success && isTagged == (tagged == 1)
      ensures defaultPageProperties == old(defaultPageProperties)
    {
      var ok := CheckBoolean(tagged);
      if ok.Err? {
        return ok;
      }
      isTagged := tagged == 1;
      r := Success;
    }
  }

  /** `CHECK_BOOLEAN`: only 0 and 1 are booleans. */
  function CheckBoolean(b: int): (r: Status)
    ensures r.Ok? <==> b == 0 || b == 1
    ensures r.Err? ==> r.error == BadBoolean
  {
    if b < 0 || b > 1 then Err(BadBoolean) else Success
  }

  // ---------------------------------------------------------------------------
  // Colours
  // ---------------------------------------------------------------------------

  /** A `CapyPDF_Color` handle. */
  class ColorObject {
    var c: Color

    constructor(c0: Color)
      ensures c == c0
    {
      c := c0;
    }

    /** `color_set_separation`: a tint outside [0, 1] is ColorOutOfRange and changes nothing. */
    method SetSeparation(sepId: int, value: real) returns (r: Status)
      modifies this
      ensures (value < 0.0 || value > 1.0) ==> r == Err(ColorOutOfRange) && c == old(c)
      ensures 0.0 <= value <= 1.0 ==> r == Success && c == Separation(sepId, value)
    {
      if value < 0.0 || value > 1.0 {
        return Err(ColorOutOfRange);
      }
      c := Separation(sepId, value);
      r := Success;
    }
  }

  // ---------------------------------------------------------------------------
  // Destinations and annotations
  // ---------------------------------------------------------------------------

  /** `DestinationType`: where on the page the view goes. */
  datatype DestinationType =
    | DestinationXYZ(x: Option<real>, y: Option<real>, z: Option<real>)
    | DestinationFit
    | DestinationFitR(left: real, bottom: real, top: real, right: real)

  datatype Destination = Destination(page: int, loc: DestinationType)

  /** A `CapyPDF_Destination` handle. */
  class DestinationObject {
    var page: int
    var loc: DestinationType

    /** Page numbers are never negative. */
    ghost predicate Valid()
      reads this
    {
      page >= 0
    }

    /** `new Destination()`: page 0 and an XYZ location with nothing set. */
    constructor()
      ensures Valid() && page == 0 && loc == DestinationXYZ(None, None, None)
    {
      page := 0;
      loc := DestinationXYZ(None, None, None);
    }

    function Value(): (d: Destination)
      reads this
      ensures d.page == page && d.loc == loc
    {
      Destination(page, loc)
    }

    /** `destination_set_page_fit`: a negative page is InvalidPageNumber and changes nothing. */
    method SetPageFit(physicalPage: int) returns (r: Status)
      modifies this
      ensures old(Valid()) ==> Valid()
      ensures physicalPage < 0 ==> r == Err(InvalidPageNumber) && page == old(page) && loc == old(loc)
      ensures physicalPage >= 0 ==> r == Success && page == physicalPage && loc == DestinationFit
    {
      if physicalPage < 0 {
        return Err(InvalidPageNumber);
      }
      page := physicalPage;
      loc := DestinationFit;
      r := Success;
    }

    /**
     * `destination_set_page_xyz`: the same page check; a coordinate whose
     * pointer is NULL stays unset.
     */
    method SetPageXyz(physicalPage: int, x: Option<real>, y: Option<real>, z: Option<real>) returns (r: Status)
      modifies this
      ensures old(Valid()) ==> Valid()
      ensures physicalPage < 0 ==> r == Err(InvalidPageNumber) && page == old(page) && loc == old(loc)
      ensures physicalPage >= 0 ==> r == Success && page == physicalPage && loc == DestinationXYZ(x, y, z)
    {
      if physicalPage < 0 {
        return Err(InvalidPageNumber);
      }
      page := physicalPage;
      var dxyz := DestinationXYZ(None, None, None);
      if x.Some? {
        dxyz := dxyz.(x := x);
      }
      if y.Some? {
        dxyz := dxyz.(y := y);
      }
      if z.Some? {
        dxyz := dxyz.(z := z);
      }
      loc := dxyz;
      r := Success;
    }
  }

  /** `AnnotationSubType`; only link annotations carry a target here. */
  datatype AnnotationSubType =
    | TextAnnotation(content: string)
    | LinkAnnotation(uri: Option<string>, dest: Option<Destination>)
    | FileAttachmentAnnotation(fileId: int)
    | ScreenAnnotation(mediafile: int, mimetype: string)
    | PrintersMarkAnnotation(appearance: int)

  /** A `CapyPDF_Annotation` handle: its sub-type and its rectangle. */
  class Annotation {
    var sub: AnnotationSubType
    var rect: Option<PdfRectangle>

    /** A link goes either to a URI or to a destination, never to both. */
    ghost predicate Valid()
      reads this
    {
      sub.LinkAnnotation? ==> sub.uri.None? || sub.dest.None?
    }

    /** `link_annotation_new`: a link with no target and no rectangle. */
    constructor Link()
      ensures Valid() && sub == LinkAnnotation(None, None) && rect == None
    {
      sub := LinkAnnotation(None, None);
      rect := None;
    }

    /** `annotation_set_destination`: on a link, the destination replaces any URI. */
    method SetDestination(d: Destination) returns (r: Status)
      modifies this
      ensures Valid()  == (old(Valid()) || r.Ok?)
      ensures !old(sub).LinkAnnotation? ==> r == Err(IncorrectAnnotationType) && sub == old(sub)
      ensures old(sub).LinkAnnotation? ==> r == Success && sub == LinkAnnotation(None, Some(d))
      ensures rect == old(rect)
    {
      if !sub.LinkAnnotation? {
        return Err(IncorrectAnnotationType);
      }
      sub := sub.(dest := Some(d));
      sub := sub.(uri := None);
      r := Success;
    }

    /**
     * `annotation_set_uri`: the URI is validated as ASCII first, so a bad
     * URI is reported whatever the annotation is; on a link it replaces any
     * destination.
     */
    method SetUri(uri: Option<string>, strsize: int) returns (r: Status)
      requires BufferReadable(uri, strsize)
      modifies this
      ensures Valid()  == (old(Valid()) || r.Ok?)
      ensures ValidateAscii(uri, strsize).Err? ==> r == Err(ValidateAscii(uri, strsize).error) && sub == old(sub)
      ensures ValidateAscii(uri, strsize).Ok? && !old(sub).LinkAnnotation? ==>
                r == Err(IncorrectAnnotationType) && sub == old(sub)
      ensures ValidateAscii(uri, strsize).Ok? && old(sub).LinkAnnotation? ==>
                r == Success && sub == LinkAnnotation(Some(Designated(uri.value, strsize)), None)
      ensures rect == old(rect)
    {
      var urirc := ValidateAscii(uri, strsize);
      if urirc.Err? {
        return Err(urirc.error);
      }
      if !sub.LinkAnnotation? {
        return Err(IncorrectAnnotationType);
      }
      sub := sub.(dest := None);
      sub := sub.(uri := Some(urirc.value));
      r := Success;
    }
  }

  // ---------------------------------------------------------------------------
  // Font properties
  // ---------------------------------------------------------------------------

  /** A `CapyPDF_FontProperties` handle; `subfont` is a uint16_t. */
  class FontProperties {
    var subfont: int

    ghost predicate Valid()
      reads this
    {
      0 <= subfont < TwoTo16
    }

    constructor()
      ensures Valid() && subfont == 0
    {
      subfont := 0;
    }

    /** `font_properties_set_subfont`: FreeType takes at most 16 bits of face index. */
    method SetSubfont(sub: int) returns (r: Status)
      modifies this
      ensures old(Valid()) ==> Valid()
      ensures (sub < 0 || sub >= TwoTo16) ==> r == Err(InvalidSubfont) && subfont == old(subfont)
      ensures 0 <= sub < TwoTo16 ==> r == Success && subfont == sub
    {
      if sub < 0 || sub >= TwoTo16 {
        return Err(InvalidSubfont);
      }
      subfont := sub;
      r := Success;
    }
  }

  // ---------------------------------------------------------------------------
  // Text sequences
  // ---------------------------------------------------------------------------

  /** `text_sequence_append_raw_glyph`: glyph 0 is MissingGlyph and the sequence is untouched. */
  method AppendRawGlyph(ts: Text.TextSequence, glyphId: nat, codepoint: nat) returns (r: Status)
    requires ts.Valid()
    modifies ts
    ensures ts.Valid() && ts.inActualtext == old(ts.inActualtext)
    ensures glyphId == 0 ==> r == Err(MissingGlyph) && ts.e == old(ts.e)
    ensures glyphId != 0 ==> r == Success && ts.e == old(ts.e) + [Text.GlyphItem(glyphId, codepoint)]
  {
    if glyphId == 0 {
      return Err(MissingGlyph);
    }
    r := ts.AppendRawGlyph(glyphId, codepoint);
  }

  /**
   * `text_sequence_append_ligature_glyph`: the glyph check comes before the
   * text is validated; neither failure touches the sequence.
   */
  method AppendLigatureGlyph(ts: Text.TextSequence, glyphId: nat, originalText: Option<string>, strsize: int)
    returns (r: Status)
    requires ts.Valid() && BufferReadable(originalText, strsize)
    modifies ts
    ensures ts.Valid() && ts.inActualtext == old(ts.inActualtext)
    ensures glyphId == 0 ==> r == Err(MissingGlyph) && ts.e == old(ts.e)
    ensures glyphId != 0 && ValidateUtf8(originalText, strsize).Err? ==>
              r == Err(ValidateUtf8(originalText, strsize).error) && ts.e == old(ts.e)
    ensures glyphId != 0 && ValidateUtf8(originalText, strsize).Ok? ==>
              r == Success && ts.e == old(ts.e) + [Text.GlyphTextItem(glyphId, Designated(originalText.value, strsize))]
  {
    if glyphId == 0 {
      return Err(MissingGlyph);
    }
    var txt := ValidateUtf8(originalText, strsize);
    if txt.Err? {
      return Err(txt.error);
    }
    r := ts.AppendLigatureGlyph(glyphId, txt.value);
  }

  // ---------------------------------------------------------------------------
  // Mesh shadings
  // ---------------------------------------------------------------------------

  /** Which alternative of the `PdfShading` variant is live. */
  datatype ShadingKind = Axial | Radial | FreeFormTriangles | CoonsPatches

  /**
   * A `CapyPDF_Shading` handle holding a `PdfShading`. The Type 4 and Type 6
   * alternatives keep their elements in objects of their own; only the one
   * `kind` names is in use.
   */
  class PdfShading {
    const kind: ShadingKind
    const type4: ShadingType4
    const type6: ShadingType6

    constructor(k: ShadingKind)
      ensures kind == k && type4.elements == [] && type6.elements == []
      ensures fresh(type4) && fresh(type6)
    {
      kind := k;
      type4 := new ShadingType4();
      type6 := new ShadingType6();
    }
  }

  /** `type3_shading_new`: the six numbers are the two circles (x0, y0, r0) and (x1, y1, r1). */
  function Type3ShadingNew(coords: seq<real>, func: int): (r: ShadingType3)
    requires |coords| >= 6
    ensures [r.x0, r.y0, r.r0, r.x1, r.y1, r.r1] == coords[..6] && r.func == func
  {
    ShadingType3(coords[0], coords[1], coords[2], coords[3], coords[4], coords[5], func)
  }

  /** `conv_shpoint`: a vertex from the two numbers at `at` and a colour. */
  function ConvShpoint(coords: seq<real>, at: nat, c: Color): (sp: ShadingPoint)
    requires at + 2 <= |coords|
    ensures sp.p.x == coords[at] && sp.p.y == coords[at + 1] && sp.c == c
  {
    ShadingPoint(Point(coords[at], coords[at + 1]), c)
  }

  /** The serializer's demands on a triangle mesh: flags 0 to 2, and a strip starts with a flag-0 vertex. */
  ghost predicate Type4Valid(es: seq<ShadingElement>)
  {
    && (forall i :: 0 <= i < |es| ==> 0 <= es[i].flag <= 2)
    && (es != [] ==> es[0].flag == 0)
  }

  /**
   * The guard of the Type 4 calls as written: it tests the shading pointer,
   * which is never NULL, instead of the result of `get_if<ShadingType4>`.
   */
  function Type4GuardAsWritten(sh: Option<ShadingKind>): (r: Status)
    ensures r.Ok? <==> sh.Some?
  {
    if sh.None? then Err(IncorrectShadingType) else Success
  }

  /** The guard as intended: anything but a Type 4 shading is IncorrectShadingType. */
  function Type4Guard(sh: Option<ShadingKind>): (r: Status)
    ensures r.Ok? <==> sh == Some(FreeFormTriangles)
    ensures r.Err? ==> r.error == IncorrectShadingType
  {
    if sh.None? || sh.value != FreeFormTriangles then Err(IncorrectShadingType) else Success
  }

  /** A Coons patch mesh gets past the guard as written, and the Type 4 object it then uses does not exist. */
  lemma {:induction false} Type4GuardPassesPatchMesh()
    ensures Type4GuardAsWritten(Some(CoonsPatches)) == Success
    ensures Type4Guard(Some(CoonsPatches)) == Err(IncorrectShadingType)
  {
  }

  /**
   * `type4_shading_add_triangle`: starts a strip with three flag-0 vertices.
   * The shading kind is checked as the guard intends.
   */
  method Type4AddTriangle(sh: PdfShading, coords: seq<real>, colors: seq<Color>) returns (r: Status)
    requires |coords| >= 6 && |colors| >= 3
    modifies sh.type4
    ensures Type4Valid(old(sh.type4.elements)) ==> Type4Valid(sh.type4.elements)
    ensures sh.kind != FreeFormTriangles ==>
              r == Err(IncorrectShadingType) && sh.type4.elements == old(sh.type4.elements)
    ensures sh.kind == FreeFormTriangles ==>
              r == Success &&
              sh.type4.elements == old(sh.type4.elements) +
                [ShadingElement(ConvShpoint(coords, 0, colors[0]), 0),
                 ShadingElement(ConvShpoint(coords, 2, colors[1]), 0),
                 ShadingElement(ConvShpoint(coords, 4, colors[2]), 0)]
  {
    var guard := Type4Guard(Some(sh.kind));
    if guard.Err? {
      return guard;
    }
    var sp1 := ConvShpoint(coords, 0, colors[0]);
    var sp2 := ConvShpoint(coords, 2, colors[1]);
    var sp3 := ConvShpoint(coords, 4, colors[2]);
    sh.type4.StartStrip(sp1, sp2, sp3);
    r := Success;
  }

  /**
   * `type4_shading_extend`: flag 1 or 2 (BadEnum otherwise) continues a strip
   * that has been started (BadStripStart otherwise) by one vertex.
   */
  method Type4Extend(sh: PdfShading, flag: int, coords: seq<real>, color: Color) returns (r: Status)
    requires |coords| >= 2
    modifies sh.type4
    ensures Type4Valid(old(sh.type4.elements)) ==> Type4Valid(sh.type4.elements)
    ensures r.Err? ==> sh.type4.elements == old(sh.type4.elements)
    ensures sh.kind != FreeFormTriangles ==> r == Err(IncorrectShadingType)
    ensures sh.kind == FreeFormTriangles && flag != 1 && flag != 2 ==> r == Err(BadEnum)
    ensures sh.kind == FreeFormTriangles && (flag == 1 || flag == 2) && old(sh.type4.elements) == [] ==>
              r == Err(BadStripStart)
    ensures sh.kind == FreeFormTriangles && (flag == 1 || flag == 2) && old(sh.type4.elements) != [] ==>
              r == Success &&
              sh.type4.elements == old(sh.type4.elements) + [ShadingElement(ConvShpoint(coords, 0, color), flag)]
  {
    var guard := Type4Guard(Some(sh.kind));
    if guard.Err? {
      return guard;
    }
    if flag == 1 || flag == 2 {
      if sh.type4.elements == [] {
        return Err(BadStripStart);
      }
      var sp := ConvShpoint(coords, 0, color);
      sh.type4.ExtendStrip(sp, flag);
    } else {
      return Err(BadEnum);
    }
    r := Success;
  }

  /** The points `grab_coons_data` reads: pairs of numbers, in order. */
  function PointsOf(coords: seq<real>, n: nat): (r: seq<Point>)
    requires 2 * n <= |coords|
    ensures |r| == n
  {
    seq(n, i requires 0 <= i < n => Point(coords[2 * i], coords[2 * i + 1]))
  }

  /** `grab_coons_data`: fills the patch's points from the numbers and its colours from the colour array. */
  method GrabCoonsData(coords: seq<real>, colors: seq<Color>, numPoints: nat, numColors: nat)
    returns (p: seq<Point>, c: seq<Color>)
    requires 2 * numPoints <= |coords| && numColors <= |colors|
    ensures |p| == numPoints && forall i :: 0 <= i < numPoints ==> p[i].x == coords[2 * i] && p[i].y == coords[2 * i + 1]
    ensures p == PointsOf(coords, numPoints)
    ensures c == colors[..numColors]
  {
    p := [];
    var i := 0;
    while i < numPoints
      invariant 0 <= i <= numPoints && |p| == i
      invariant forall k :: 0 <= k < i ==> p[k] == Point(coords[2 * k], coords[2 * k + 1])
    {
      p := p + [Point(coords[2 * i], coords[2 * i + 1])];
      i := i + 1;
    }
    c := [];
    i := 0;
    while i < numColors
      invariant 0 <= i <= numColors && c == colors[..i]
    {
      c := c + [colors[i]];
      i := i + 1;
    }
  }

  /** Every patch has its full set of points and colours, and a mesh starts with a full patch. */
  ghost predicate Type6Valid(es: seq<CoonsPatch>)
  {
    && (forall i :: 0 <= i < |es| ==>
          if es[i].FullCoonsPatch? then |es[i].p| == 12 && |es[i].c| == 4 else |es[i].p| == 8 && |es[i].c| == 2)
    && (es != [] ==> es[0].FullCoonsPatch?)
  }

  /** `type6_shading_add_patch`: a full patch from 24 numbers and 4 colours. */
  method Type6AddPatch(sh: PdfShading, coords: seq<real>, colors: seq<Color>) returns (r: Status)
    requires |coords| >= 24 && |colors| >= 4
    modifies sh.type6
    ensures Type6Valid(old(sh.type6.elements)) ==> Type6Valid(sh.type6.elements)
    ensures sh.kind != CoonsPatches ==> r == Err(IncorrectShadingType) && sh.type6.elements == old(sh.type6.elements)
    ensures sh.kind == CoonsPatches ==>
              r == Success &&
              sh.type6.elements == old(sh.type6.elements) + [FullCoonsPatch(PointsOf(coords, 12), colors[..4])]
  {
    if sh.kind != CoonsPatches {
      return Err(IncorrectShadingType);
    }
    var p, c := GrabCoonsData(coords, colors, 12, 4);
    sh.type6.elements := sh.type6.elements + [FullCoonsPatch(p, c)];
    r := Success;
  }

  /** The flags `type6_shading_extend` accepts. */
  predicate Type6ExtendFlag(flag: int)
  {
    flag == 1 || flag == 2 || flag == 3
  }

  /**
   * `type6_shading_extend`: flags 1 to 3 (BadEnum otherwise) continue a mesh
   * that has a patch (BadStripStart otherwise) by 16 numbers and 2 colours.
   */
  method Type6Extend(sh: PdfShading, flag: int, coords: seq<real>, colors: seq<Color>) returns (r: Status)
    requires |coords| >= 16 && |colors| >= 2
    modifies sh.type6
    ensures Type6Valid(old(sh.type6.elements)) ==> Type6Valid(sh.type6.elements)
    ensures r.Err? ==> sh.type6.elements == old(sh.type6.elements)
    ensures sh.kind != CoonsPatches ==> r == Err(IncorrectShadingType)
    ensures sh.kind == CoonsPatches && !Type6ExtendFlag(flag) ==> r == Err(BadEnum)
    ensures sh.kind == CoonsPatches && Type6ExtendFlag(flag) && old(sh.type6.elements) == [] ==> r == Err(BadStripStart)
    ensures sh.kind == CoonsPatches && Type6ExtendFlag(flag) && old(sh.type6.elements) != [] ==>
              r == Success &&
              sh.type6.elements == old(sh.type6.elements) + [ContinuationCoonsPatch(PointsOf(coords, 8), colors[..2])]
  {
    if sh.kind != CoonsPatches {
      return Err(IncorrectShadingType);
    }
    if Type6ExtendFlag(flag) {
      if sh.type6.elements == [] {
        return Err(BadStripStart);
      }
      var p, c := GrabCoonsData(coords, colors, 8, 2);
      sh.type6.elements := sh.type6.elements + [ContinuationCoonsPatch(p, c)];
    } else {
      return Err(BadEnum);
    }
    r := Success;
  }
}
