// Page properties and image metadata (src/document.hpp).
//
// `PageProperties::merge_with` is an override merge: every field set in the
// argument replaces the receiver's, every unset field keeps the receiver's.

module DocumentTypes {
  import opened Errors
  import opened PdfCommon

  datatype PageProperties = PageProperties(
    mediabox: Option<PdfRectangle>,
    cropbox: Option<PdfRectangle>,
    bleedbox: Option<PdfRectangle>,
    trimbox: Option<PdfRectangle>,
    artbox: Option<PdfRectangle>,
    userUnit: Option<real>,
    transparencyProps: Option<TransparencyGroupProperties>)

  /** `PageProperties{}`: nothing set. */
  const NoProperties: PageProperties := PageProperties(None, None, None, None, None, None, None)

  function Override<T>(mine: Option<T>, theirs: Option<T>): Option<T>
  {
    if theirs.Some? then theirs else mine
  }

  /** `merge_with`: field by field, the argument's value when it has one. */
  function MergeWith(p: PageProperties, o: PageProperties): (r: PageProperties)
  {
    PageProperties(
      Override(p.mediabox, o.mediabox),
      Override(p.cropbox, o.cropbox),
      Override(p.bleedbox, o.bleedbox),
      Override(p.trimbox, o.trimbox),
      Override(p.artbox, o.artbox),
      Override(p.userUnit, o.userUnit),
      Override(p.transparencyProps, o.transparencyProps))
  }

  /** Every field set in `o` has `o`'s value in the result; every unset one keeps `p`'s. */
  lemma {:induction false} MergeTakesOverrides(p: PageProperties, o: PageProperties)
    ensures var r := MergeWith(p, o);
      && (o.mediabox.Some? ==> r.mediabox == o.mediabox) && (o.mediabox.None? ==> r.mediabox == p.mediabox)
      && (o.cropbox.Some? ==> r.cropbox == o.cropbox) && (o.cropbox.None? ==> r.cropbox == p.cropbox)
      && (o.bleedbox.Some? ==> r.bleedbox == o.bleedbox) && (o.bleedbox.None? ==> r.bleedbox == p.bleedbox)
      && (o.trimbox.Some? ==> r.trimbox == o.trimbox) && (o.trimbox.None? ==> r.trimbox == p.trimbox)
      && (o.artbox.Some? ==> r.artbox == o.artbox) && (o.artbox.None? ==> r.artbox == p.artbox)
      && (o.userUnit.Some? ==> r.userUnit == o.userUnit) && (o.userUnit.None? ==> r.userUnit == p.userUnit)
      && (o.transparencyProps.Some? ==> r.transparencyProps == o.transparencyProps)
      && (o.transparencyProps.None? ==> r.transparencyProps == p.transparencyProps)
  {
  }

  /** Merging nothing is the identity, and merging everything gives the argument. */
  lemma {:induction false} MergeIdentity(p: PageProperties)
    ensures MergeWith(p, NoProperties) == p
    ensures MergeWith(NoProperties, p) == p
  {
  }

  /** Merging the same override twice changes nothing more; merging is associative. */
  lemma {:induction false} MergeIdempotentAssociative(a: PageProperties, b: PageProperties, c: PageProperties)
    ensures MergeWith(MergeWith(a, b), b) == MergeWith(a, b)
    ensures MergeWith(MergeWith(a, b), c) == MergeWith(a, MergeWith(b, c))
  {
  }

  /** A registered ICC profile: its stream and colour-space objects and its channel count. */
  datatype IccInfo = IccInfo(streamNum: int, objectNum: int, numChannels: int)

  /** The colour space of an image: one of the device enumerators, or an ICC profile. */
  datatype ImageColorspaceType = DeviceImageCs(cs: int) | IccImageCs(icc: IccColorSpaceId)

  class ImageObjectMetadata {
    var w: int
    var h: int
    var depth: int
    var alphaDepth: int
    var cs: ImageColorspaceType
    var compression: int
    var decode: Option<seq<real>>

    constructor(cs0: ImageColorspaceType, compression0: int)
      ensures w == 0 && h == 0 && depth == 8 && alphaDepth == 0
      ensures cs == cs0 && compression == compression0 && decode == None
    {
      w, h, depth, alphaDepth := 0, 0, 8, 0;
      cs, compression := cs0, compression0;
      decode := None;
    }

    /** `copy_common_from`: size, colour space, compression and decode array; depths are kept. */
    method CopyCommonFrom(rmd: RawPixelImage)
      modifies this
      ensures w == rmd.md.w && h == rmd.md.h
      ensures cs == DeviceImageCs(rmd.md.cs) && compression == rmd.md.compression
      ensures decode == Some(rmd.decode)
      ensures depth == old(depth) && alphaDepth == old(alphaDepth)
    {
      w := rmd.md.w;
      h := rmd.md.h;
      cs := DeviceImageCs(rmd.md.cs);
      compression := rmd.md.compression;
      decode := Some(rmd.decode);
    }
  }
}
