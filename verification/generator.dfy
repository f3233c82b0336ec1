// The generator front end (src/generator.cpp): it turns finished draw
// contexts into pages and form XObjects of the document it owns, routes
// images to the right document call, and measures text.
//
// The resource dictionary a context serializes is built from its usage
// records by a routine that is not part of this model; it is passed in.

module Generator {
  import opened Errors
  import opened PdfCommon
  import opened DocumentTypes
  import opened CommandStream
  import opened DrawContext
  import opened Document

  /** The pixel data of an image: raw pixels, or a JPEG file embedded as is. */
  datatype RasterImage = RawPixelImage(pixels: seq<int>) | JpgImage(file: seq<int>)

  /** The document call an image is handed to. */
  datatype ImageCall =
    | AddMaskImage(raw: seq<int>)
    | AddRawImage(raw: seq<int>)
    | EmbedJpg(jpg: seq<int>)

  /**
   * `add_image`: a JPEG goes to `embed_jpg`, raw pixels to `add_mask_image`
   * when the image is to be a mask and to `add_image` otherwise. The image
   * is handed over unchanged.
   */
  function RouteImage(image: RasterImage, asMask: bool): (r: ImageCall)
    ensures r.EmbedJpg? <==> image.JpgImage?
    ensures r.AddMaskImage? <==> image.RawPixelImage? && asMask
    ensures r.AddRawImage? <==> image.RawPixelImage? && !asMask
    ensures image.JpgImage? ==> r == EmbedJpg(image.file)
    ensures image.RawPixelImage? ==> (r.AddMaskImage? || r.AddRawImage?) && r.raw == image.pixels
  {
    match image
    case RawPixelImage(pixels) => if asMask then AddMaskImage(pixels) else AddRawImage(pixels)
    case JpgImage(file) => EmbedJpg(file)
  }

  /** The mask flag decides only between the two raw-pixel calls; a JPEG ignores it. */
  lemma {:induction false} MaskFlagOnlyAffectsRawImages(image: RasterImage)
    ensures image.JpgImage? ==> RouteImage(image, true) == RouteImage(image, false)
    ensures image.RawPixelImage? ==> RouteImage(image, true) != RouteImage(image, false)
  {
  }

  /** What the guarded page context does when it goes out of scope. */
  datatype PopOutcome = PageAdded(page: int) | Ignored | Aborted

  /**
   * The FreeType face of a font, as far as text measuring uses it: whether it
   * has kerning, its em size, the kerning of a codepoint pair in font units
   * (or a FreeType failure) and the advance of a codepoint at the requested
   * point size.
   */
  datatype FaceMetrics = FaceMetrics(
    hasKerning: bool,
    unitsPerEm: int,
    kerning: (int, int) -> Rvoe<int>,
    advance: int -> real)

  /** C++ integer division, truncating toward zero. */
  function TruncDiv(a: int, b: int): (q: int)
    requires b > 0
    ensures a >= 0 ==> q == a / b
    ensures a < 0 ==> q == -((-a) / b)
  {
    if a >= 0 then a / b else -((-a) / b)
  }

  /**
   * The kerning added between `left` and `right`: the pair's kerning in font
   * units divided, as integers, by the em size.
   */
  function KernStep(face: FaceMetrics, left: int, right: int): (r: Rvoe<real>)
    requires face.unitsPerEm > 0
    ensures face.kerning(left, right).Err? <==> r.Err?
    ensures r.Err? ==> r == Err(FreeTypeError)
    ensures r.Ok? ==> r.value == TruncDiv(face.kerning(left, right).value, face.unitsPerEm) as real
  {
    match face.kerning(left, right)
    case Err(_) => Err(FreeTypeError)
    case Ok(k) => if k != 0 then Ok(TruncDiv(k, face.unitsPerEm) as real) else Ok(0.0)
  }

  /**
   * The width of the codepoints `cps`, measured from the left: each
   * codepoint adds its advance and, when the face has kerning, first the
   * kerning against the codepoint before it. The first kerning failure ends
   * the measurement.
   */
  function Width(face: FaceMetrics, cps: seq<int>): Rvoe<real>
    requires face.unitsPerEm > 0
  {
    if cps == [] then Ok(0.0)
    else
      var init := cps[..|cps| - 1];
      var c := cps[|cps| - 1];
      var w :- Width(face, init);
      var k :- if face.hasKerning && init != [] then KernStep(face, init[|init| - 1], c) else Ok(0.0);
      Ok(w + k + face.advance(c))
  }

  /** The sum of the advances alone. */
  function AdvanceSum(face: FaceMetrics, cps: seq<int>): real
  {
    if cps == [] then 0.0 else AdvanceSum(face, cps[..|cps| - 1]) + face.advance(cps[|cps| - 1])
  }

  /** Without kerning the width is the sum of the advances, whatever the kerning table says. */
  lemma {:induction false} WidthWithoutKerning(face: FaceMetrics, cps: seq<int>)
    requires face.unitsPerEm > 0 && !face.hasKerning
    ensures Width(face, cps) == Ok(AdvanceSum(face, cps))
  {
    if cps != [] {
      WidthWithoutKerning(face, cps[..|cps| - 1]);
    }
  }

  lemma {:induction false} AdvanceSumAppend(face: FaceMetrics, a: seq<int>, b: seq<int>)
    ensures AdvanceSum(face, a + b) == AdvanceSum(face, a) + AdvanceSum(face, b)
  {
    if b != [] {
      assert (a + b)[..|a + b| - 1] == a + b[..|b| - 1];
      assert (a + b)[|a + b| - 1] == b[|b| - 1];
      AdvanceSumAppend(face, a, b[..|b| - 1]);
    } else {
      assert a + b == a;
    }
  }

  /** Without kerning, the width of two strings put together is the sum of their widths. */
  lemma {:induction false} WidthAdditiveWithoutKerning(face: FaceMetrics, a: seq<int>, b: seq<int>)
    requires face.unitsPerEm > 0 && !face.hasKerning
    ensures Width(face, a).Ok? && Width(face, b).Ok? && Width(face, a + b).Ok?
    ensures Width(face, a + b).value == Width(face, a).value + Width(face, b).value
  {
    WidthWithoutKerning(face, a);
    WidthWithoutKerning(face, b);
    WidthWithoutKerning(face, a + b);
    AdvanceSumAppend(face, a, b);
  }

  /** Once measuring a prefix fails, measuring the whole text fails the same way. */
  lemma {:induction false} FailureIsFinal(face: FaceMetrics, cps: seq<int>, n: nat)
    requires face.unitsPerEm > 0 && n <= |cps|
    requires Width(face, cps[..n]).Err?
    ensures Width(face, cps) == Width(face, cps[..n])
    decreases |cps| - n
  {
    if n < |cps| {
      var longer := cps[..n + 1];
      assert longer[..|longer| - 1] == cps[..n];
      FailureIsFinal(face, cps, n + 1);
    } else {
      assert cps[..n] == cps;
    }
  }

  /**
   * `utf8_text_width` of a text given as its codepoints. An empty text
   * measures 0 before the font is looked at. A builtin font records no
   * font index (`size_t(-1)`), so looking up its face with `at` throws
   * before the face is tested, and the C boundary reports the exception
   * as DynamicError; the BuiltinFontNotSupported branch is never reached.
   */
  method Utf8TextWidth(cps: seq<int>, face: Option<FaceMetrics>) returns (r: Rvoe<real>)
    requires face.Some? ==> face.value.unitsPerEm > 0
    ensures cps == [] ==> r == Ok(0.0)
    ensures cps != [] && face.None? ==> r == Err(DynamicError)
    ensures cps != [] && face.Some? ==> r == Width(face.value, cps)
  {
    if cps == [] {
      return Ok(0.0);
    }
    if face.None? {
      return Err(DynamicError);
    }
    var f := face.value;
    var w := 0.0;
    var previous: Option<int> := None;
    var i := 0;
    while i < |cps|
      invariant 0 <= i <= |cps|
      invariant Width(f, cps[..i]) == Ok(w)
      invariant previous == if i == 0 then None else Some(cps[i - 1])
    {
      assert cps[..i + 1][..i] == cps[..i];
      if f.hasKerning && previous.Some? {
        var k := f.kerning(previous.value, cps[i]);
        if k.Err? {
          assert Width(f, cps[..i + 1]) == Err(FreeTypeError);
          FailureIsFinal(f, cps, i + 1);
          return Err(FreeTypeError);
        }
        if k.value != 0 {
          w := w + TruncDiv(k.value, f.unitsPerEm) as real;
        }
      }
      w := w + f.advance(cps[i]);
      previous := Some(cps[i]);
      i := i + 1;
    }
    assert cps[..i] == cps;
    r := Ok(w);
  }

  /** `PdfGen`: the generator and the document it owns. */
  class PdfGen {
    const pdoc: PdfDocument

    /** The document is built beforehand; constructing the color converter and FreeType is not modelled. */
    constructor(doc: PdfDocument)
      ensures pdoc == doc
    {
      pdoc := doc;
    }

    /**
     * `add_page`: the context must belong to this document, draw a page, and
     * have no marked content and no other bracket open. Its commands are then
     * handed to the document's `add_page` together with its usage records and
     * page settings; a reuse error from there leaves the commands consumed.
     * On success the context is cleared for the next page, and the new page's
     * index is returned.
     */
    method AddPage(ctx: PdfDrawContext, resourceDict: string) returns (r: Rvoe<int>)
      requires pdoc.Valid() && ctx.Valid()
      modifies pdoc`objects, pdoc`pages, pdoc`formUse, pdoc`annotationUse, pdoc`structureUse
      modifies pdoc`structureParentTreeItems, ctx, ctx.cmds
      ensures pdoc.Valid() && ctx.Valid()
      ensures ctx.doc != pdoc ==> r == Err(IncorrectDocumentForObject)
      ensures ctx.doc == pdoc && ctx.contextType != Page ==> r == Err(InvalidDrawContextType)
      ensures ctx.doc == pdoc && ctx.contextType == Page && MarkedContent in old(ctx.cmds.stack) ==>
                r == Err(UnclosedMarkedContent)
      ensures (ctx.doc == pdoc && ctx.contextType == Page && MarkedContent !in old(ctx.cmds.stack)
                && old(ctx.cmds.stack) != []) ==> r == Err(DrawStateEndMismatch)
      ensures (ctx.doc != pdoc || ctx.contextType != Page || old(ctx.cmds.stack) != []) ==>
                unchanged(pdoc) && unchanged(ctx) && unchanged(ctx.cmds)
      ensures r.Ok? <==> (ctx.doc == pdoc && ctx.contextType == Page && old(ctx.cmds.stack) == []
                && ReuseFree(old(ctx.usage.widgets), old(ctx.usage.annotations), old(ctx.usage.structures),
                             old(pdoc.formUse), old(pdoc.annotationUse), old(pdoc.structureUse)))
      ensures (ctx.doc == pdoc && ctx.contextType == Page && old(ctx.cmds.stack) == [] && r.Err?) ==>
                (r.error == AnnotationReuse || r.error == StructureReuse)
                && unchanged(pdoc) && ctx.usage == old(ctx.usage) && ctx.cmds.buf == []
      ensures r.Ok? ==> r.value == |old(pdoc.pages)| && |pdoc.pages| == r.value + 1 && ctx.IsEmpty()
      ensures r.Ok? ==> pdoc.PageRecorded(resourceDict, old(ctx.cmds.buf), old(ctx.usage.widgets),
                                          old(ctx.usage.annotations), old(ctx.usage.structures))
    {
      if ctx.doc != pdoc {
        return Err(IncorrectDocumentForObject);
      }
      if ctx.contextType != Page {
        return Err(InvalidDrawContextType);
      }
      var depth := ctx.cmds.MarkedContentDepth();
      if depth != 0 {
        return Err(UnclosedMarkedContent);
      }
      if ctx.HasUnclosedState() {
        return Err(DrawStateEndMismatch);
      }
      r := SubmitPage(ctx, resourceDict);
    }

    /** The rest of `add_page` once the context has passed its checks: the page goes to the document. */
    method SubmitPage(ctx: PdfDrawContext, resourceDict: string) returns (r: Rvoe<int>)
      requires pdoc.Valid() && ctx.Valid()
      requires ctx.doc == pdoc && ctx.contextType == Page && ctx.cmds.stack == []
      modifies pdoc`objects, pdoc`pages, pdoc`formUse, pdoc`annotationUse, pdoc`structureUse
      modifies pdoc`structureParentTreeItems, ctx, ctx.cmds
      ensures pdoc.Valid() && ctx.Valid()
      ensures r.Ok? <==> ReuseFree(old(ctx.usage.widgets), old(ctx.usage.annotations), old(ctx.usage.structures),
                                   old(pdoc.formUse), old(pdoc.annotationUse), old(pdoc.structureUse))
      ensures r.Err? ==>
                (r.error == AnnotationReuse || r.error == StructureReuse)
                && unchanged(pdoc) && ctx.usage == old(ctx.usage) && ctx.cmds.buf == []
      ensures r.Ok? ==> r.value == |old(pdoc.pages)| && |pdoc.pages| == r.value + 1 && ctx.IsEmpty()
      ensures r.Ok? ==> pdoc.PageRecorded(resourceDict, old(ctx.cmds.buf), old(ctx.usage.widgets),
                                          old(ctx.usage.annotations), old(ctx.usage.structures))
    {
      var commands := ctx.StealCommandStream();
      var added := pdoc.AddPage(resourceDict, commands.value, ctx.settings.customProps, ctx.usage.widgets,
                                ctx.usage.annotations, ctx.usage.structures, ctx.settings.transition,
                                ctx.settings.subNavigations);
      if added.Err? {
        return Err(added.error);
      }
      ctx.Clear();
      r := Ok(|pdoc.pages| - 1);
    }

    /**
     * `add_form_xobject`: the context must draw a form XObject and have no
     * marked content open; the document's own check is not made. Its
     * commands become a new XObject, whose index (0, 1, 2, ... in order of
     * addition) is returned, and the context is cleared.
     */
    method AddFormXObject(ctx: PdfDrawContext, dict: string) returns (r: Rvoe<int>)
      requires pdoc.Valid() && ctx.Valid()
      modifies pdoc`objects, pdoc`formXobjects, ctx, ctx.cmds
      ensures pdoc.Valid() && ctx.Valid()
      ensures ctx.contextType != FormXObject ==> r == Err(InvalidDrawContextType)
      ensures ctx.contextType == FormXObject && MarkedContent in old(ctx.cmds.stack) ==> r == Err(UnclosedMarkedContent)
      ensures ctx.contextType == FormXObject && MarkedContent !in old(ctx.cmds.stack) && old(ctx.cmds.stack) != [] ==>
                r == Err(DrawStateEndMismatch)
      ensures r.Ok? <==> ctx.contextType == FormXObject && old(ctx.cmds.stack) == []
      ensures r.Err? ==> unchanged(pdoc) && unchanged(ctx)
      ensures r.Err? ==> ctx.cmds.stack == old(ctx.cmds.stack) && ctx.cmds.buf == old(ctx.cmds.buf)
      ensures r.Ok? ==> r.value == |old(pdoc.formXobjects)| && pdoc.formXobjects == old(pdoc.formXobjects) + [|old(pdoc.objects)|]
      ensures r.Ok? ==> pdoc.objects == old(pdoc.objects) + [FormXObjectStream(dict, old(ctx.cmds.buf))]
      ensures r.Ok? ==> ctx.IsEmpty()
    {
      if ctx.contextType != FormXObject {
        return Err(InvalidDrawContextType);
      }
      var depth := ctx.cmds.MarkedContentDepth();
      if depth != 0 {
        return Err(UnclosedMarkedContent);
      }
      var commands := ctx.StealCommandStream();
      if commands.Err? {
        return Err(commands.error);
      }
      var id := pdoc.AddFormXObject(dict, commands.value);
      ctx.Clear();
      r := Ok(id);
    }

    /**
     * The guarded page context going out of scope: a page context is added
     * as a page and the process aborts if that fails; a form XObject is never
     * added automatically, since its id would be lost; any other kind aborts.
     */
    method PopContext(ctx: PdfDrawContext, resourceDict: string) returns (outcome: PopOutcome)
      requires pdoc.Valid() && ctx.Valid()
      modifies pdoc`objects, pdoc`pages, pdoc`formUse, pdoc`annotationUse, pdoc`structureUse
      modifies pdoc`structureParentTreeItems, ctx, ctx.cmds
      ensures pdoc.Valid() && ctx.Valid()
      ensures ctx.contextType == FormXObject ==> outcome == Ignored && unchanged(pdoc) && unchanged(ctx) && unchanged(ctx.cmds)
      ensures ctx.contextType != Page && ctx.contextType != FormXObject ==> outcome == Aborted
      ensures outcome.PageAdded? <==> (ctx.contextType == Page && ctx.doc == pdoc && old(ctx.cmds.stack) == []
                && ReuseFree(old(ctx.usage.widgets), old(ctx.usage.annotations), old(ctx.usage.structures),
                             old(pdoc.formUse), old(pdoc.annotationUse), old(pdoc.structureUse)))
      ensures outcome.PageAdded? ==> outcome.page == |old(pdoc.pages)| && ctx.IsEmpty()
      ensures ctx.contextType == Page && !outcome.PageAdded? ==> outcome == Aborted
    {
      if ctx.contextType == Page {
        var rc := AddPage(ctx, resourceDict);
        if rc.Err? {
          return Aborted;
        }
        return PageAdded(rc.value);
      } else if ctx.contextType == FormXObject {
        return Ignored;
      }
      return Aborted;
    }
  }
}
