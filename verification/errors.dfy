// Error codes and their human-readable texts (src/errorhandling.hpp, src/errorhandling.cpp).
//
// ErrorCode is a 32-bit enum class in the source; here it is the integer range
// [0, NumErrors) with one named constant per enumerator, in declaration order.
// `Rvoe<T>` ("return value or error") models `std::expected<T, ErrorCode>`; it
// supports Dafny's `:-` so that RETERR/ERC/ERCV propagation reads as in the source.

module Errors {

  const NumErrors: int := 78

  newtype ErrorCode = x: int | 0 <= x < 78

  const NoError: ErrorCode := 0
  const DynamicError: ErrorCode := 1
  const InvalidIndex: ErrorCode := 2
  const NegativeLineWidth: ErrorCode := 3
  const NoPages: ErrorCode := 4
  const ColorOutOfRange: ErrorCode := 5
  const BadId: ErrorCode := 6
  const BadEnum: ErrorCode := 7
  const NegativeDash: ErrorCode := 8
  const InvalidFlatness: ErrorCode := 9
  const ZeroLengthArray: ErrorCode := 10
  const CouldNotOpenFile: ErrorCode := 11
  const FileWriteError: ErrorCode := 12
  const ArgIsNull: ErrorCode := 13
  const IndexIsNegative: ErrorCode := 14
  const IndexOutOfBounds: ErrorCode := 15
  const BadUtf8: ErrorCode := 16
  const IncorrectColorChannelCount: ErrorCode := 17
  const InvalidDrawContextType: ErrorCode := 18
  const FileReadError: ErrorCode := 19
  const InvalidICCProfile: ErrorCode := 20
  const CompressionFailure: ErrorCode := 21
  const FreeTypeError: ErrorCode := 22
  const Unreachable: ErrorCode := 23
  const PatternNotAccepted: ErrorCode := 24
  const IconvError: ErrorCode := 25
  const BuiltinFontNotSupported: ErrorCode := 26
  const NoCmykProfile: ErrorCode := 27
  const UnsupportedFormat: ErrorCode := 28
  const NonBWColormap: ErrorCode := 29
  const MalformedFontFile: ErrorCode := 30
  const EmcOnEmpty: ErrorCode := 31
  const UnclosedMarkedContent: ErrorCode := 32
  const AnnotationReuse: ErrorCode := 33
  const StructureReuse: ErrorCode := 34
  const BadOperationForIntent: ErrorCode := 35
  const OutputProfileMissing: ErrorCode := 36
  const InputProfileUnknown: ErrorCode := 37
  const MissingIntentIdentifier: ErrorCode := 38
  const DrawStateEndMismatch: ErrorCode := 39
  const UnusedOcg: ErrorCode := 40
  const UnsupportedTIFF: ErrorCode := 41
  const WrongDrawContext: ErrorCode := 42
  const MissingMediabox: ErrorCode := 43
  const MaskAndAlpha: ErrorCode := 44
  const MissingGlyph: ErrorCode := 45
  const InvalidImageSize: ErrorCode := 46
  const MissingPixels: ErrorCode := 47
  const ColorspaceMismatch: ErrorCode := 48
  const BadBoolean: ErrorCode := 49
  const BadStripStart: ErrorCode := 50
  const IncorrectDocumentForObject: ErrorCode := 51
  const NotASCII: ErrorCode := 52
  const FileDoesNotExist: ErrorCode := 53
  const AnnotationMissingRect: ErrorCode := 54
  const SlashStart: ErrorCode := 55
  const NestedBMC: ErrorCode := 56
  const RoleAlreadyDefined: ErrorCode := 57
  const WritingTwice: ErrorCode := 58
  const ProfileProblem: ErrorCode := 59
  const ImageFormatNotPermitted: ErrorCode := 60
  const InvalidPageNumber: ErrorCode := 61
  const NonSequentialPageNumber: ErrorCode := 62
  const EmptyTitle: ErrorCode := 63
  const WrongDCForTransp: ErrorCode := 64
  const WrongDCForMatrix: ErrorCode := 65
  const EmptyFunctionList: ErrorCode := 66
  const IncorrectShadingType: ErrorCode := 67
  const IncorrectFunctionType: ErrorCode := 68
  const IncorrectAnnotationType: ErrorCode := 69
  const DuplicateName: ErrorCode := 70
  const EmbeddedNullInString: ErrorCode := 71
  const InvalidBufsize: ErrorCode := 72
  const MMapFail: ErrorCode := 73
  const InvalidSubfont: ErrorCode := 74
  const FontNotSpecified: ErrorCode := 75
  const InvalidBBox: ErrorCode := 76
  const TooManyGlyphsUsed: ErrorCode := 77

  /** `std::optional<T>`. */
  datatype Option<+T> = None | Some(value: T)

  /** Return value or error: `rvoe<T>`. */
  datatype Rvoe<+T> = Ok(value: T) | Err(error: ErrorCode)
  {
    predicate IsFailure() { Err? }

    function PropagateFailure<U>(): Rvoe<U>
      requires Err?
    {
      Err(error)
    }

    function Extract(): T
      requires Ok?
    {
      value
    }
  }

  /** `rvoe<NoReturnValue>`: success carries no value. */
  type Status = Rvoe<()>

  const Success: Status := Ok(())

  /** What a loop has collected so far, followed by what the rest of its input yields. */
  function Prepend<T>(head: seq<T>, rest: Rvoe<seq<T>>): Rvoe<seq<T>>
  {
    if rest.Err? then rest else Ok(head + rest.value)
  }

  /** Prepending in two steps is prepending the concatenation. */
  lemma {:induction false} PrependTwice<T>(a: seq<T>, b: seq<T>, rest: Rvoe<seq<T>>)
    ensures Prepend(a, Prepend(b, rest)) == Prepend(a + b, rest)
  {
    if rest.Ok? {
      assert a + (b + rest.value) == (a + b) + rest.value;
    }
  }

  /** The message table, indexed by error code, in groups of ten codes. */
  const ErrorTexts: seq<string> :=
    TextsFrom0 + TextsFrom10 + TextsFrom20 + TextsFrom30 + TextsFrom40 + TextsFrom50 + TextsFrom60 + TextsFrom70

  const TextsFrom0: seq<string> := [
    "No error.",
    "Unexpected error, the real error message should be in stdout or stderr.",
    "Invalid index.",
    "Negative line width.",
    "No pages defined.",
    "Color component out of range.",
    "Bad ID number.",
    "Enum out of range.",
    "Negative dash array element.",
    "Flatness value out of bounds."
  ]

  const TextsFrom10: seq<string> := [
    "Array has zero length.",
    "Could not open file.",
    "Writing to file failed.",
    "Required argument is NULL.",
    "Index is negative.",
    "Index out of bounds.",
    "Invalid UTF-8 string.",
    "Incorrect amoung of color channels for this colorspace.",
    "Invalid draw context type for this operation.",
    "Failed to load data from file."
  ]

  const TextsFrom20: seq<string> := [
    "Invalid ICC profile data.",
    "Compression failure.",
    "FreeType error.",
    "Unreachable code.",
    "Pattern can not be used in this operation.",
    "Iconv error.",
    "Builtin fonts can not be used in this operation.",
    "Output CMYK profile not defined.",
    "Unsupported file format.",
    "Only monochrome colormap images supported."
  ]

  const TextsFrom30: seq<string> := [
    "Malformed font file.",
    "EMC called even though no marked content block is active.",
    "Marked content not closed.",
    "Annotations (including widgets) can only be used once.",
    "Structures can only be used once.",
    "Operation prohibited by current output intent.",
    "Output color profile not defined.",
    "Input image color profile could not be determined.",
    "Output intent identifier missing.",
    "Draw state end mismatch."
  ]

  const TextsFrom40: seq<string> := [
    "OCG not used on this page.",
    "Unsupported TIFF image.",
    "Used object with a drawing context that was not used to create it.",
    "MediaBox is missing.",
    "Image used as a mask has an alpha channel.",
    "Font does not have the requested glyph.",
    "Invalid image size.",
    "Missing pixel data.",
    "Color spaces are not of the same type.",
    "Boolean integer value must be 0 or 1."
  ]

  const TextsFrom50: seq<string> := [
    "Gradient must start with a full patch.",
    "Object created for one document used with a different document",
    "Argument must be ASCII.",
    "File does not exist.",
    "Annotation is missing location rectangle.",
    "Argument must not start with a slash or be empty.",
    "Nesting marked content is forbidden.",
    "Rolemap entry is already defined.",
    "There can be only one call to the write function.",
    "Unspecified color profile error."
  ]

  const TextsFrom60: seq<string> := [
    "Image is not in format required by output settings.",
    "Page reference points to a non-existing page.",
    "Page number less than previous entry, page labeling must be added sequentially",
    "Title is empty.",
    "Transparency properties can only be set on pages and transparency groups.",
    "Matrix can only be set for form XObjects.",
    "Type3 Function must have at least one Type2 function inside",
    "Incorrect shading type.",
    "Incorrect function type.",
    "Incorrect annotation type."
  ]

  const TextsFrom70: seq<string> := [
    "Duplicated name.",
    "String must not have an embedded null character.",
    "Buffer size argument is invalid.",
    "MMaping file to memory failed.",
    "Invalid subfont.",
    "No font has been specified.",
    "Invalid values for bounding box.",
    "Too many glyphs (> 65k) used in font."
  ]

  const InvalidCodeText: string := "Invalid error code."


  /**
   * `error_text`: total on every 32-bit value. A code inside the table gives
   * its own entry; any other value gives the fixed "Invalid error code." text.
   */
  function ErrorText(code: int): (r: string)
    ensures 0 <= code < NumErrors ==> r == ErrorTexts[code]
    ensures !(0 <= code < NumErrors) ==> r == InvalidCodeText
  {
    if code < 0 || code >= |ErrorTexts| then InvalidCodeText else ErrorTexts[code]
  }

  /** The messages the bindings' tests rely on. */
  lemma {:induction false} KnownTexts()
    ensures ErrorText(NoError as int) == "No error."
    ensures ErrorText(NegativeLineWidth as int) == "Negative line width."
    ensures ErrorText(NoPages as int) == "No pages defined."
    ensures ErrorText(-1) == ErrorText(NumErrors) == "Invalid error code."
  {
    assert ErrorTexts[0] == "No error.";
    assert ErrorTexts[3] == "Negative line width.";
    assert ErrorTexts[4] == "No pages defined.";
  }
}
