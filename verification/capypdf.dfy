// The C++ wrapper's argument checks (include/capypdf.hpp).
//
// The wrapper classes own a C handle and forward to the C API. Before a call
// they check the element counts the C function relies on; after it they turn
// a non-zero code into an exception. Here a wrapper call ends in an `Outcome`:
// the value it returns, or the message it raises. When exceptions are off the
// same message goes to stderr and the process aborts; either way the call does
// not come back with a value. The count arguments are the lengths of the
// arrays passed with them.

module CapyPdf {
  import opened Errors
  import opened PdfCommon
  import Capi

  datatype Outcome<T> = Returned(value: T) | Raised(message: string)

  /** `CAPY_CPP_CHECK`: any non-zero code raises with that code's message. */
  function CppCheck(rc: int): (r: Outcome<()>)
    ensures r.Returned? <==> rc == 0
    ensures r.Raised? ==> r.message == ErrorText(rc)
  {
    if rc != 0 then Raised(ErrorText(rc)) else Returned(())
  }

  /** A C call that reports an error makes the wrapper raise that error's message; success goes through. */
  lemma {:induction false} CheckedCallRaisesItsError(s: Status)
    requires s.Err? ==> s.error != NoError
    ensures s.Ok? ==> CppCheck(Capi.ConvErr(s)) == Returned(())
    ensures s.Err? ==> CppCheck(Capi.ConvErr(s)) == Raised(ErrorText(s.error as int))
  {
  }

  const Type3CoordsMessage: string := "Coords array must hold exactly 6 doubles"

  /** `Type3Shading(cs, coords, num_coords, func)`: exactly six numbers, the two circles. */
  function NewType3Shading(coords: seq<real>, func: int): (r: Outcome<ShadingType3>)
    ensures |coords| != 6 ==> r == Raised(Type3CoordsMessage)
    ensures |coords| == 6 ==> r.Returned? && [r.value.x0, r.value.y0, r.value.r0, r.value.x1, r.value.y1, r.value.r1] == coords
    ensures r.Returned? ==> r.value.func == func
  {
    if |coords| != 6 then Raised(Type3CoordsMessage)
    else
      var sd := Capi.Type3ShadingNew(coords, func);
      assert coords[..6] == coords;
      Returned(sd)
  }

  /** The flags the wrapper's `extend` calls accept. */
  predicate ExtendFlag(flag: nat)
  {
    flag == 1 || flag == 2
  }

  /**
   * Every flag the Type 6 wrapper lets through is one the C call accepts, but
   * flag 3, which the C call accepts, is refused by the wrapper.
   */
  lemma {:induction false} WrapperFlagsNarrower(flag: nat)
    ensures ExtendFlag(flag) ==> Capi.Type6ExtendFlag(flag)
    ensures Capi.Type6ExtendFlag(3) && !ExtendFlag(3)
  {
  }

  /** `Type4Shading`: owns a Type 4 shading handle. */
  class Type4Shading {
    const d: Capi.PdfShading

    ghost predicate Valid()
    {
      d.kind == Capi.FreeFormTriangles
    }

    constructor()
      ensures Valid() && d.type4.elements == [] && fresh(d.type4)
    {
      d := new Capi.PdfShading(Capi.FreeFormTriangles);
    }

    /** `add_triangle`: 6 numbers and 3 colours, then a started strip. */
    method AddTriangle(coords: seq<real>, colors: seq<Color>) returns (r: Outcome<()>)
      requires Valid()
      modifies d.type4
      ensures |coords| != 6 ==>
                r == Raised("Coords must have exactly 6 doubles.") && d.type4.elements == old(d.type4.elements)
      ensures |coords| == 6 && |colors| != 3 ==>
                r == Raised("Triangle patch must have exactly 3 colors") && d.type4.elements == old(d.type4.elements)
      ensures |coords| == 6 && |colors| == 3 ==>
                r == Returned(()) &&
                d.type4.elements == old(d.type4.elements) +
                  [ShadingElement(Capi.ConvShpoint(coords, 0, colors[0]), 0),
                   ShadingElement(Capi.ConvShpoint(coords, 2, colors[1]), 0),
                   ShadingElement(Capi.ConvShpoint(coords, 4, colors[2]), 0)]
    {
      if |coords| != 6 {
        return Raised("Coords must have exactly 6 doubles.");
      }
      if |colors| != 3 {
        return Raised("Triangle patch must have exactly 3 colors");
      }
      var rc := Capi.Type4AddTriangle(d, coords, colors);
      r := CppCheck(Capi.ConvErr(rc));
    }

    /**
     * `extend`: flag 1 or 2 and 2 numbers; the C call's BadStripStart on a
     * strip not yet started comes back as an exception.
     */
    method Extend(flag: nat, coords: seq<real>, color: Color) returns (r: Outcome<()>)
      requires Valid()
      modifies d.type4
      ensures r.Raised? ==> d.type4.elements == old(d.type4.elements)
      ensures !ExtendFlag(flag) ==> r == Raised("Bad flag value")
      ensures ExtendFlag(flag) && |coords| != 2 ==> r == Raised("Coords must have exactly 2 doubles")
      ensures ExtendFlag(flag) && |coords| == 2 && old(d.type4.elements) == [] ==>
                r == Raised(ErrorText(BadStripStart as int))
      ensures ExtendFlag(flag) && |coords| == 2 && old(d.type4.elements) != [] ==>
                r == Returned(()) &&
                d.type4.elements == old(d.type4.elements) + [ShadingElement(Capi.ConvShpoint(coords, 0, color), flag)]
    {
      if flag != 1 && flag != 2 {
        return Raised("Bad flag value");
      }
      if |coords| != 2 {
        return Raised("Coords must have exactly 2 doubles");
      }
      var rc := Capi.Type4Extend(d, flag, coords, color);
      r := CppCheck(Capi.ConvErr(rc));
    }
  }

  /** `Type6Shading`: owns a Type 6 shading handle. */
  class Type6Shading {
    const d: Capi.PdfShading

    ghost predicate Valid()
    {
      d.kind == Capi.CoonsPatches
    }

    constructor()
      ensures Valid() && d.type6.elements == [] && fresh(d.type6)
    {
      d := new Capi.PdfShading(Capi.CoonsPatches);
    }

    /** `add_patch`: 24 numbers and 4 colours make one full patch. */
    method AddPatch(coords: seq<real>, colors: seq<Color>) returns (r: Outcome<()>)
      requires Valid()
      modifies d.type6
      ensures |coords| != 24 ==>
                r == Raised("Coords must have exactly 24 doubles.") && d.type6.elements == old(d.type6.elements)
      ensures |coords| == 24 && |colors| != 4 ==>
                r == Raised("Shading patch must have exactly 4 colors") && d.type6.elements == old(d.type6.elements)
      ensures |coords| == 24 && |colors| == 4 ==>
                r == Returned(()) &&
                d.type6.elements == old(d.type6.elements) + [FullCoonsPatch(Capi.PointsOf(coords, 12), colors)]
    {
      if |coords| != 24 {
        return Raised("Coords must have exactly 24 doubles.");
      }
      if |colors| != 4 {
        return Raised("Shading patch must have exactly 4 colors");
      }
      var rc := Capi.Type6AddPatch(d, coords, colors);
      assert colors[..4] == colors;
      r := CppCheck(Capi.ConvErr(rc));
    }

    /**
     * `extend`: flag 1 or 2, 16 numbers and 2 colours make a continuation
     * patch. The count message speaks of 2 numbers although 16 are required.
     */
    method Extend(flag: nat, coords: seq<real>, colors: seq<Color>) returns (r: Outcome<()>)
      requires Valid()
      modifies d.type6
      ensures r.Raised? ==> d.type6.elements == old(d.type6.elements)
      ensures !ExtendFlag(flag) ==> r == Raised("Bad flag value")
      ensures ExtendFlag(flag) && |coords| != 16 ==> r == Raised("Coords must have exactly 2 doubles")
      ensures ExtendFlag(flag) && |coords| == 16 && |colors| != 2 ==>
                r == Raised("Shading extension must have exactly 2 colors")
      ensures ExtendFlag(flag) && |coords| == 16 && |colors| == 2 && old(d.type6.elements) == [] ==>
                r == Raised(ErrorText(BadStripStart as int))
      ensures ExtendFlag(flag) && |coords| == 16 && |colors| == 2 && old(d.type6.elements) != [] ==>
                r == Returned(()) &&
                d.type6.elements == old(d.type6.elements) + [ContinuationCoonsPatch(Capi.PointsOf(coords, 8), colors)]
    {
      if flag != 1 && flag != 2 {
        return Raised("Bad flag value");
      }
      if |coords| != 16 {
        return Raised("Coords must have exactly 2 doubles");
      }
      if |colors| != 2 {
        return Raised("Shading extension must have exactly 2 colors");
      }
      var rc := Capi.Type6Extend(d, flag, coords, colors);
      assert colors[..2] == colors;
      r := CppCheck(Capi.ConvErr(rc));
    }
  }

  // ---------------------------------------------------------------------------
  // Raster image size
  // ---------------------------------------------------------------------------

  /** The image kinds `raster_image_get_size` knows; anything else is UnsupportedFormat. */
  datatype RasterImage = RawPixels(md: RasterImageMetadata) | Jpg(w: int, h: int) | OtherImage

  /** `raster_image_get_size` in the C API: width first, then height. */
  function CGetSize(image: RasterImage): (r: Rvoe<(int, int)>)
    ensures image.OtherImage? <==> r.Err?
    ensures r.Err? ==> r.error == UnsupportedFormat
    ensures image.RawPixels? ==> r == Ok((image.md.w, image.md.h))
    ensures image.Jpg? ==> r == Ok((image.w, image.h))
  {
    match image
    case RawPixels(md) => Ok((md.w, md.h))
    case Jpg(w, h) => Ok((w, h))
    case OtherImage => Err(UnsupportedFormat)
  }

  /** `RasterImage::get_size` as written: the pair it builds is (h, w). */
  function GetSizeAsWritten(image: RasterImage): (r: Outcome<(int, int)>)
    ensures r.Raised? <==> image.OtherImage?
    ensures image.Jpg? ==> r == Returned((image.h, image.w))
    ensures r.Returned? ==> r.value == (GetSize(image).value.1, GetSize(image).value.0)
  {
    var c := CGetSize(image);
    if c.Err? then Raised(ErrorText(c.error as int))
    else Returned((c.value.1, c.value.0))
  }

  /** `RasterImage::get_size` as intended: the C API's (width, height) order. */
  function GetSize(image: RasterImage): (r: Outcome<(int, int)>)
    ensures r.Raised? <==> image.OtherImage?
    ensures image.RawPixels? ==> r == Returned((image.md.w, image.md.h))
    ensures image.Jpg? ==> r == Returned((image.w, image.h))
  {
    var c := CGetSize(image);
    if c.Err? then Raised(ErrorText(c.error as int))
    else Returned(c.value)
  }

  /** The wrapper answers with the C API's numbers, or raises its error. */
  lemma {:induction false} GetSizeMatchesC(image: RasterImage)
    ensures CGetSize(image).Ok? ==> GetSize(image) == Returned(CGetSize(image).value)
    ensures CGetSize(image).Ok? ==> GetSizeAsWritten(image) == Returned((CGetSize(image).value.1, CGetSize(image).value.0))
    ensures CGetSize(image).Err? ==> GetSize(image) == GetSizeAsWritten(image) == Raised(ErrorText(UnsupportedFormat as int))
  {
  }

  /** A 3-by-2 image comes back from the wrapper as written with its height where its width belongs. */
  lemma {:induction false} GetSizeSwapsNonSquare()
    ensures GetSizeAsWritten(Jpg(3, 2)) == Returned((2, 3))
    ensures GetSize(Jpg(3, 2)) == Returned((3, 2))
  {
  }
}
