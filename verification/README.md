# CapyPDF document-building core in Dafny

CapyPDF is a C++ library for writing PDF files. The Python and C bindings sit
on top of a core of state machines, registries, codecs and validators. This
project models that core and proves properties of the model. The model has
one Dafny module per source file:

- `CommandStream`: the content-stream nesting machine. It covers q/Q, BT/ET,
  BMC/BDC..EMC and dictionaries, plus the indentation kept in step with them.
- `DrawContext`: the draw context on top of that machine. Operator arguments
  are checked before any output, and resource, annotation, structure-item and
  optional-content usage is recorded.
- `Generator`: the `PdfGen` front end. It adds pages and form XObjects,
  routes images, pops the guarded page context and measures text width.
- `Document`: `PdfDocument`. It covers the object table, pages, page labels,
  the role map, outlines, structure items, ICC profiles and built-in fonts.
- `DocumentTypes`: the page-property override merge and image metadata.
- `PdfWriter`: `write_to_file` guards, font names, object placement,
  cross-reference table and stream layout, link destinations, page boxes and
  structure-element links.
- `ObjectFormat`: the PDF object formatter.
- `Text`: `TextSequence` and the `PdfText` event log.
- `Type3Fonts`: Type 3 fonts.
- `PdfCommon`: handles, `LimitDouble`, Type 4 and Type 6 shading elements,
  rectangles, checked strings, UTF-8 code point decoding and transparency
  group serialization.
- `Utils`: PDF string and name quoting, UTF-8 validation, UTF-16BE encoding.
- `Errors`: error codes, their texts and `rvoe<T>`.
- `BitFiddling`: bounds-checked slicing and byte order.
- `FontSubsetter`: the glyph subset table.
- `FtSubsetter`: the TrueType table readers and writers.
- `CffSubsetter`: CFF INDEX and DICT coding and the FDSelect ranges, following
  Adobe Technical Note #5176 (section 4, DICT data; section 5, INDEX data).
- `XmlFormatter`: the XMP writer.
- `PdfParser`: the string scanner, the recursive-descent parser and the
  pretty printer's key order.
- `Capi`: the C API's argument checks and setters.
- `CapyPdf`: the C++ wrapper's count checks.
- `Format`: the printf-style number rendering that several modules share.

Each class's mutating methods are proved against a validity predicate and
specification functions. Pure code is modelled as functions, with lemmas
relating them: round trips, idempotence, invariants and reference
definitions.

## Model

| member | source | states |
|---|---|---|
| Errors.ErrorText | src/errorhandling.cpp:106-112 | a code inside the table gets its own message; every other value gets "Invalid error code." |
| Errors.KnownTexts | src/errorhandling.cpp:13-20 | the messages for NoError, NegativeLineWidth and NoPages, and the fallback for -1 and NumErrors |
| BitFiddling.SizeToInt64 | src/bitfiddling.cpp:27-30 | a size_t offset below 2^63 keeps its value in int64; a larger one becomes negative |
| BitFiddling.GetSubstring | src/bitfiddling.cpp:5-25 | NULL is ArgIsNull, any negative argument IndexIsNegative, a range past the end IndexOutOfBounds; success exactly when the range fits, and then the slice |
| BitFiddling.GetSubstringOfView | src/bitfiddling.cpp:27-30 | the view overload succeeds exactly when the range fits the view and returns that slice |
| BitFiddling.HugeOffsetIsNegative | src/bitfiddling.cpp:27-30 | an offset of 2^63 or more is reported as IndexIsNegative |
| BitFiddling.LeRoundTrip | src/bitfiddling.hpp:49-61 | the value read back from the in-memory image of a scalar is the scalar |
| BitFiddling.LeBytesOfValue | src/bitfiddling.hpp:37-41 | every byte image is the image of the value read from it |
| BitFiddling.LeBytesTruncates | src/bitfiddling.hpp:59 | only the low bytes of a scalar reach its image |
| BitFiddling.ByteSwapInvolution | src/bitfiddling.hpp:11-18 | `byteswap` twice is the identity; on one byte it changes nothing |
| BitFiddling.ReversedImageIsBigEndian | src/bitfiddling.hpp:43-47 | the swapped in-memory image is the big-endian encoding of the same value |
| BitFiddling.Extract | src/bitfiddling.hpp:28-41 | succeeds exactly when the scalar fits before the end, and yields the scalar stored there |
| BitFiddling.ExtractAndSwap | src/bitfiddling.hpp:43-47 | succeeds exactly when the scalar fits, and yields the big-endian value stored there |
| BitFiddling.ByteBuffer.AppendRaw | src/bitfiddling.hpp:49-57 | the buffer grows by exactly the given bytes |
| BitFiddling.ByteBuffer.AppendBytes | src/bitfiddling.hpp:58-60 | the buffer grows by the scalar's image and keeps its old contents |
| BitFiddling.ByteBuffer.SwapAndAppendBytes | src/bitfiddling.hpp:63-66 | the buffer grows by the big-endian encoding, which reads back as the scalar |
| BitFiddling.SwapAppendExtractRoundTrip | src/bitfiddling.hpp:43-47 | `extract_and_swap` at the old end reads back what `swap_and_append_bytes` wrote |
| BitFiddling.AppendExtractRoundTrip | src/bitfiddling.hpp:37-61 | `extract` at the old end reads back what `append_bytes` wrote |
| Utils.ByteOf | src/utils.cpp:81-89 | the unsigned byte value of a character, below 256 |
| Utils.FlatMapAppend | src/utils.cpp:281-299 | appending one input character appends its escape: the step every quoting loop takes |
| Utils.UnescapeEscapedBody | src/utils.cpp:281-299 | undoing the backslash escapes of a quoted literal string gives back the input |
| Utils.EscapedBodyLength | src/utils.cpp:281-299 | escaping keeps every character and adds at most one backslash per character |
| Utils.AppendEscaped | src/utils.cpp:285-297 | the loop appends exactly the escaped body of the input to what it had |
| Utils.PdfStringQuote | src/utils.cpp:281-299 | the result is '(' escaped-body ')', and unescaping its inside gives back the input |
| Utils.U8StrToU8TextString | src/utils.cpp:304-325 | the result is '(' byte-order mark, escaped body, ')', and unescaping after the mark gives back the input |
| Utils.QuotedNameHasNoSlash | src/utils.cpp:354-370 | a quoted name contains no '/', so it cannot end a name early |
| Utils.NameRoundTrip | src/utils.cpp:354-370 | decoding the #xx escapes of a quoted name gives back the input |
| Utils.PdfNameQuote | src/utils.cpp:354-370 | '/' becomes #2F and '#' becomes #23; the result has no '/' and decodes to the input |
| Utils.LiteralCharacters | src/utils.cpp:81-89 | every character of an escaped name literal is printable, and only '#' among them needs quoting |
| Utils.LiteralRoundTrip | src/utils.cpp:383-402 | decoding the escaped bytes gives back the bytes |
| Utils.Bytes2PdfStringLiteral | src/utils.cpp:383-402 | optional '/', then each byte that needs quoting as #xx; decoding the rest gives back the bytes |
| Utils.ContinuationCount | src/utils.cpp:236-250 | 0 continuation bytes exactly for ASCII, -1 exactly for a stray continuation byte or a byte from F8 on, 1-3 otherwise |
| Utils.IsValidUtf8Character | src/utils.cpp:45-67 | true exactly when the announced continuation bytes are all present and of the form 10xxxxxx |
| Utils.IsValidUtf8 | src/utils.cpp:225-257 | the scan with early exits answers exactly the index-based validity predicate |
| Utils.Utf8ValidFromShift | src/utils.cpp:225-257 | whether a suffix is valid does not depend on what precedes it |
| Utils.AsciiIsValidUtf8 | src/utils.cpp:225-257 | pure ASCII text is valid UTF-8 |
| Utils.EncodedCharacterAccepted | src/utils.cpp:225-257 | one RFC 3629 encoded character is accepted and scanning resumes after it |
| Utils.EncodedTextAccepted | src/utils.cpp:225-257 | every RFC 3629 encoding of a code point sequence is accepted |
| Utils.LooserThanRfc3629 | src/utils.cpp:225-257 | the overlong C0 80 and the encoded surrogate ED A0 80 are accepted; a stray continuation byte, a truncated lead and an F8 lead are rejected |
| Utils.AppendGlyphToUtf16be | src/utils.cpp:69-79 | the old units are kept; a BMP value adds itself, a larger one adds two units |
| Utils.SurrogatePair | src/utils.cpp:69-79 | a supplementary code point becomes a high and a low surrogate that recombine to it |
| Utils.Utf16UnitsStep | src/utils.cpp:205-223 | the units of a longer prefix are those of the shorter one plus those of the next code point |
| Utils.UnitsHexAppend | src/utils.cpp:212-216 | the hexadecimal text of concatenated units is the concatenation of their texts |
| Utils.UnitHexValue | src/utils.cpp:212-216 | the four digits written for a unit are hexadecimal and read back as the unit |
| Utils.UnitsHexRoundTrip | src/utils.cpp:212-216 | the hexadecimal text of a unit sequence reads back as that sequence |
| Utils.AppendUnitsHex | src/utils.cpp:212-216 | the inner loop appends exactly four upper-case hex digits per unit, high byte first |
| Utils.Utf16HexStep | src/utils.cpp:205-223 | one code point's digits extend the encoding of the prefix |
| Utils.Utf8ToPdfUtf16be | src/utils.cpp:205-223 | the result is the hex text of the UTF-16 units, wrapped in "<FEFF" ... ">" when adornments are asked for |
| Utils.AdornedUtf16Layout | src/utils.cpp:205-223 | the adorned form is "<FEFF", four digits per unit, ">", and its inside reads back as the units |
| Utils.IsAscii | src/utils.cpp:372-380 | true exactly when no byte exceeds 127 |
| PdfCommon.Compare | src/pdfcommon.hpp:23-31 | handles compare by their numbers: zero exactly for equal handles, the sign of the number comparison otherwise |
| PdfCommon.HandleOrdering | src/pdfcommon.hpp:23-37 | the ordering is antisymmetric and transitive, and equal handles hash alike |
| PdfCommon.SubsetEqualityIsValueEquality | src/pdfcommon.hpp:514-523 | two font subsets are equal exactly when font and subset number agree, and `!=` is its negation |
| PdfCommon.Clamped | src/pdfcommon.hpp:249-257 | values in [0, 1] are kept, smaller ones become 0 and larger ones 1 |
| PdfCommon.ClampedIdempotentMonotone | src/pdfcommon.hpp:249-257 | clamping twice is clamping once, and clamping keeps order |
| PdfCommon.LimitDouble.constructor | src/pdfcommon.hpp:231 | the default value is 0 |
| PdfCommon.LimitDouble.FromReal | src/pdfcommon.hpp:235 | the stored value is the clamped argument |
| PdfCommon.LimitDouble.V | src/pdfcommon.hpp:237 | the value read is always in [0, 1] |
| PdfCommon.LimitDouble.Assign | src/pdfcommon.hpp:239-243 | assignment stores the clamped value |
| PdfCommon.LimitDouble.Clamp | src/pdfcommon.hpp:249-257 | the stored value becomes its clamped self |
| PdfCommon.ShadingType4.StartStrip | src/pdfcommon.hpp:468-472 | three vertices with flag 0 are appended, in order |
| PdfCommon.ShadingType4.ExtendStrip | src/pdfcommon.hpp:474-476 | one vertex with the given flag is appended and nothing else changes |
| PdfCommon.ConstructRectangle | src/pdfcommon.cpp:88-96 | success exactly when left < right and bottom < top, with the corners as given; InvalidBBox otherwise |
| PdfCommon.AccessorsSwapped | src/pdfcommon.hpp:216-217 | as written, `w()` of a 2-wide, 1-high rectangle is 1 and `h()` is 2 |
| PdfCommon.WidthAsWritten | src/pdfcommon.hpp:216 | `w()` as written is the rectangle's height |
| PdfCommon.HeightAsWritten | src/pdfcommon.hpp:217 | `h()` as written is the rectangle's width |
| PdfCommon.Width | src/pdfcommon.hpp:216 | the intended width is the distance from the left edge to the right edge |
| PdfCommon.Height | src/pdfcommon.hpp:217 | the intended height is the distance from the bottom edge to the top edge |
| PdfCommon.ConstructedExtent | src/pdfcommon.hpp:206-217 | with the accessors as intended, a constructed rectangle has width right - left and height top - bottom, both positive |
| PdfCommon.AsciiFromView | src/pdfcommon.cpp:122-131 | success exactly for ASCII text without NUL; NotASCII is reported before EmbeddedNullInString; the text is kept |
| PdfCommon.U8FromView | src/pdfcommon.cpp:140-149 | success exactly for valid UTF-8 without NUL; BadUtf8 before EmbeddedNullInString; the text is kept |
| PdfCommon.U8FromCstr | src/pdfcommon.cpp:133-138 | for a C string only the UTF-8 check can fail, with BadUtf8 |
| PdfCommon.AsciiIsU8 | src/pdfcommon.cpp:122-149 | text accepted as ASCII is accepted unchanged as UTF-8 |
| PdfCommon.UnpackOne | src/pdfcommon.cpp:18-32 | the loop computes the lead byte's payload followed by six bits from each continuation byte |
| PdfCommon.DecodeAt | src/pdfcommon.cpp:151-177 | on valid text a character takes 1 to 4 bytes, as many as its lead byte announces |
| PdfCommon.ExtractOneCodepoint | src/pdfcommon.cpp:151-177 | the method yields the code point and byte count of the character at the position |
| PdfCommon.UnpackEncoded | src/pdfcommon.cpp:18-32 | a multi-byte RFC 3629 encoding unpacks to its code point |
| PdfCommon.UnpackTwo | src/pdfcommon.cpp:18-32 | two-byte encodings unpack to their code point |
| PdfCommon.UnpackThree | src/pdfcommon.cpp:18-32 | three-byte encodings unpack to their code point |
| PdfCommon.UnpackFour | src/pdfcommon.cpp:18-32 | four-byte encodings unpack to their code point |
| PdfCommon.DecodeEncoded | src/pdfcommon.cpp:151-177 | the iterator reads an encoded code point back, with its length, whatever follows |
| PdfCommon.DecodeEncodedText | src/pdfcommon.hpp:72-110 | iterating over the encoding of a code point sequence yields that sequence |
| PdfCommon.DecodeCons | src/pdfcommon.hpp:72-110 | one encoded code point followed by valid text decodes to that code point followed by the text's code points |
| PdfCommon.DecodeAtShift | src/pdfcommon.cpp:151-177 | decoding does not depend on the text before the position |
| PdfCommon.CodepointsShift | src/pdfcommon.hpp:98-103 | the code points from a position do not depend on the text before it |
| PdfCommon.CodepointsStep | src/pdfcommon.hpp:98-103 | advancing the iterator by one character's byte count leaves the rest of the sequence |
| PdfCommon.GroupTokens | src/pdfcommon.cpp:98-116 | a transparency group dictionary starts /Type /Group /S /Transparency |
| PdfCommon.GroupTokensOptionalKeys | src/pdfcommon.cpp:98-116 | /CS, /I and /K appear exactly when set, each as one key-value pair |
| PdfCommon.AddOptionalEntry | src/pdfcommon.cpp:98-116 | a key and its value are written only when the value is set; the formatter's nesting is unchanged |
| PdfCommon.SerializeGroup | src/pdfcommon.cpp:98-116 | the formatter receives one dictionary holding exactly the group's tokens, and its nesting is restored |
| ObjectFormat.TokenEvents | src/objectformatter.hpp:58-70 | a run of tokens is recorded as one token event per text, in order |
| ObjectFormat.LevelIndent | src/objectformatter.cpp:45-51 | each nesting level indents two more spaces than the one around it |
| ObjectFormat.CountedItem | src/objectformatter.cpp:129-151 | counting an item keeps indentation and items-per-line; at top level it only counts |
| ObjectFormat.CountedItemFits | src/objectformatter.cpp:129-151 | after counting an item the counter stays below the line length of the container (two in a dictionary) |
| ObjectFormat.SeparatorIsLineBreak | src/objectformatter.cpp:129-151 | inside a container an item is followed by a newline exactly when the line is full and by one space otherwise |
| ObjectFormat.DictionaryPairPerLine | src/objectformatter.cpp:139-147 | in a dictionary a key is followed by a space and its value by a newline, and the counter is back where it started |
| ObjectFormat.ArrayLineBreaks | src/objectformatter.cpp:129-138 | in an array of n items per line the k-th item of a fresh line breaks the line exactly when k == n |
| ObjectFormat.CountedItemsKeepsLayout | src/objectformatter.cpp:129-151 | counting any number of items never changes indentation or line length |
| ObjectFormat.StashesFitPush | src/objectformatter.cpp:45-51 | saving a state that belongs to the current level keeps every saved state consistent with its level |
| ObjectFormat.StashesFitPop | src/objectformatter.cpp:27-43 | dropping the innermost saved state keeps the rest consistent with their levels |
| ObjectFormat.ObjectFormatter.constructor | src/objectformatter.cpp:11-12 | a new formatter is at top level with the given base indentation, no counters and an empty buffer |
| ObjectFormat.ObjectFormatter.CheckIndent | src/objectformatter.cpp:116-120 | the indentation is written only at the start of a line |
| ObjectFormat.ObjectFormatter.AddedItem | src/objectformatter.cpp:129-151 | the state is counted as one more item and the matching separator is appended; the formatter invariant holds afterwards |
| ObjectFormat.ObjectFormatter.DoPush | src/objectformatter.cpp:45-51 | the current state is saved, the opening bracket is written and the new level is indented two more spaces with a fresh counter |
| ObjectFormat.ObjectFormatter.BeginArray | src/objectformatter.cpp:14-17 | opens an array of the given items per line; the old state is saved on the stack |
| ObjectFormat.ObjectFormatter.BeginDict | src/objectformatter.cpp:19-22 | opens a dictionary; the old state is saved on the stack |
| ObjectFormat.ObjectFormatter.RestoreSaved | src/objectformatter.cpp:27-35 | popping a container of the kind that was opened restores exactly the state saved when it was opened |
| ObjectFormat.ObjectFormatter.DoPop | src/objectformatter.cpp:27-43 | the saved state comes back, the closing bracket is written (indented when it starts a line) and counts as one item of the enclosing container |
| ObjectFormat.ObjectFormatter.EndArray | src/objectformatter.cpp:24 | closes the innermost container, which must be an array: its saved state comes back, "]" is written (indented when it starts a line) followed by the enclosing container's separator, and it counts as one item there |
| ObjectFormat.ObjectFormatter.EndDict | src/objectformatter.cpp:25 | closes the innermost container, which must be a dictionary: its saved state comes back, ">>" is written (indented when it starts a line) followed by the enclosing container's separator, and it counts as one item there |
| ObjectFormat.ObjectFormatter.AddToken | src/objectformatter.cpp:58-68 | the token is written verbatim, indented at line start and followed by its separator |
| ObjectFormat.ObjectFormatter.AddTokenPair | src/objectformatter.cpp:53-56 | in every container, the output and state of two tokens in a row, each indented when it starts a line and followed by its separator; at the start of a dictionary line they make up exactly one line "key value" |
| ObjectFormat.ObjectFormatter.AddInt | src/objectformatter.cpp:70-80 | an integer token in decimal |
| ObjectFormat.ObjectFormatter.AddReal | src/objectformatter.cpp:82-86 | a real token in fixed notation with six decimals |
| ObjectFormat.ObjectFormatter.AddTokenWithSlash | src/objectformatter.cpp:94-108 | a name token: the text with one leading slash |
| ObjectFormat.ObjectFormatter.AddObjectRef | src/objectformatter.cpp:110-114 | an indirect reference "n 0 R" |
| ObjectFormat.ObjectFormatter.AddPdfString | src/objectformatter.cpp:122-127 | the text in parentheses as one token |
| ObjectFormat.ObjectFormatter.Steal | src/objectformatter.cpp:153-161 | with every container closed, returns the text written so far ending in exactly one added newline if it lacked one, and empties the buffer |
| Text.BracketsAlternate | src/pdftext.hpp:74-90 | in atoms built by the bracket rules the starts equal the ends, or exceed them by one while a bracket is open, and every prefix obeys the rules too |
| Text.TextSequence.constructor | src/pdftext.hpp:100-103 | a new sequence is empty with no bracket open |
| Text.TextSequence.IsActualtext | src/pdftext.hpp:94 | the flag is true exactly when the stored atoms leave an actual-text bracket open |
| Text.TextSequence.AppendAtom | src/pdftext.hpp:54-72 | a non-bracket atom is appended at the end and leaves the bracket state alone |
| Text.TextSequence.AppendKerning | src/pdftext.hpp:54-57 | appends one kerning value and succeeds |
| Text.TextSequence.AppendUnicode | src/pdftext.hpp:59-62 | appends one code point and succeeds |
| Text.TextSequence.AppendRawGlyph | src/pdftext.hpp:64-67 | appends one glyph with its code point and succeeds |
| Text.TextSequence.AppendLigatureGlyph | src/pdftext.hpp:69-72 | appends one glyph with the text it stands for and succeeds |
| Text.TextSequence.AppendActualtextStart | src/pdftext.hpp:74-81 | opens a bracket; with one already open it fails with DrawStateEndMismatch and changes nothing |
| Text.TextSequence.AppendActualtextEnd | src/pdftext.hpp:83-90 | closes the open bracket; with none open it fails with DrawStateEndMismatch and changes nothing |
| Text.TextSequence.StealGuts | src/pdftext.hpp:92 | hands out every stored atom and leaves the sequence empty |
| Text.TextSequence.Clear | src/pdftext.hpp:96-99 | empties the sequence and closes the bracket |
| Text.PdfText.constructor | src/pdftext.hpp:223 | a new text object has no events and remembers its creator |
| Text.PdfText.Append | src/pdftext.hpp:225-341 | every command but TJ appends exactly its own event and succeeds |
| Text.PdfText.CmdBDC | src/pdftext.hpp:225-228 | appends a marked-content start for the structure item |
| Text.PdfText.CmdEMC | src/pdftext.hpp:230-233 | appends a marked-content end |
| Text.PdfText.CmdTstar | src/pdftext.hpp:235-238 | appends a move to the next line |
| Text.PdfText.CmdTc | src/pdftext.hpp:240-243 | appends a character spacing |
| Text.PdfText.CmdTd | src/pdftext.hpp:245-248 | appends a line offset |
| Text.PdfText.CmdTD | src/pdftext.hpp:250-253 | appends a line offset that also sets the leading |
| Text.PdfText.CmdTf | src/pdftext.hpp:255-258 | appends a font and point size |
| Text.PdfText.RenderText | src/pdftext.hpp:260-263 | appends a run of text |
| Text.PdfText.CmdTJ | src/pdftext.hpp:267-274 | a sequence with an open bracket is refused with DrawStateEndMismatch and both objects stay as they were; otherwise its atoms become one TJ event and the sequence is emptied, so every TJ event holds matched brackets |
| Text.PdfText.CmdTL | src/pdftext.hpp:276-279 | appends a leading |
| Text.PdfText.CmdTm | src/pdftext.hpp:281-284 | appends a text matrix |
| Text.PdfText.CmdTr | src/pdftext.hpp:286-289 | appends a rendering mode |
| Text.PdfText.CmdTs | src/pdftext.hpp:291-294 | appends a rise |
| Text.PdfText.CmdTw | src/pdftext.hpp:296-299 | appends a word spacing |
| Text.PdfText.CmdTz | src/pdftext.hpp:301-304 | appends a horizontal scaling |
| Text.PdfText.SetStrokeColor | src/pdftext.hpp:306-309 | appends a stroke colour |
| Text.PdfText.SetNonstrokeColor | src/pdftext.hpp:311-314 | appends a fill colour |
| Text.PdfText.CmdW | src/pdftext.hpp:316-319 | appends a line width |
| Text.PdfText.CmdM | src/pdftext.hpp:320-323 | appends a miter limit |
| Text.PdfText.CmdJoin | src/pdftext.hpp:324-327 | appends a line join style |
| Text.PdfText.CmdCap | src/pdftext.hpp:328-331 | appends a line cap style |
| Text.PdfText.CmdD | src/pdftext.hpp:332-337 | appends a dash pattern made of exactly the first `array_size` values given |
| Text.PdfText.CmdGs | src/pdftext.hpp:338-341 | appends a graphics state reference |
| DocumentTypes.MergeTakesOverrides | src/document.hpp:83-110 | each field of the merge is the argument's where the argument sets it and the receiver's otherwise |
| DocumentTypes.MergeIdentity | src/document.hpp:83-110 | merging with empty properties, on either side, changes nothing |
| DocumentTypes.MergeIdempotentAssociative | src/document.hpp:83-110 | merging the same overrides twice is merging once, and merges may be grouped either way |
| DocumentTypes.ImageObjectMetadata.constructor | src/document.hpp:364-371 | fresh metadata has size 0 by 0, depth 8, no alpha and no decode array |
| DocumentTypes.ImageObjectMetadata.CopyCommonFrom | src/document.hpp:373-379 | size, colour space, compression and decode array come from the raw image; the depths are kept |
| Document.ObjectsGrown | src/document.cpp:600-604 | appending objects to the table keeps every registry that points into it (pages, structure items, ICC profiles, built-in fonts) valid |
| Document.PdfDocument.constructor | src/document.cpp:368-369 | a document before `init` has an empty object table and empty registries |
| Document.PdfDocument.AddObject | src/document.cpp:600-604 | the object is appended and its number is the old table size |
| Document.PdfDocument.Init | src/document.cpp:371-413 | object 0 is the placeholder and object 1 the info object; a CMYK document without a profile, or a PDF/X or PDF/A document without a profile or an intent identifier, fails; on success the page tree object exists and a given profile is ICC profile 0 |
| Document.PdfDocument.AddOutputProfile | src/document.cpp:375-396 | a non-empty output profile becomes ICC profile 0, stored in objects 2 and 3; an empty one changes nothing |
| Document.PdfDocument.AddInitialObjects | src/document.cpp:374-375 | the table starts with the placeholder object and the info object |
| Document.PdfDocument.AddCatalogObjects | src/document.cpp:397-412 | the page tree object is added; a subtype needs an output profile (OutputProfileMissing) and an intent identifier (MissingIntentIdentifier), and succeeds exactly when both are there |
| Document.PdfDocument.FindIccProfile | src/document.cpp:1046-1060 | finds a profile whose stream holds exactly these bytes, and answers none exactly when no profile does |
| Document.PdfDocument.AddIccProfile | src/document.cpp:1062-1079 | known contents give the existing id and change nothing; empty contents give id -1 and change nothing; new contents add a stream and a colour-space object and get the next id |
| Document.PdfDocument.StoreIccProfile | src/document.cpp:1071-1078 | new contents append the profile stream and then the colour space naming it, record the profile, and answer the next profile id |
| Document.PdfDocument.GetBuiltinFontId | src/document.cpp:1111-1127 | one font dictionary per built-in font: the first request adds it and a font record with no file or descriptor object (-1) and CID dictionary 0; a later request returns the same id and adds nothing |
| Document.PdfDocument.AddRolemapEntry | src/document.cpp:751-763 | an empty or slash-led name fails with SlashStart, a known name with RoleAlreadyDefined; otherwise the role gets the next id and names stay unique |
| Document.PdfDocument.AddPageLabeling | src/document.cpp:476-487 | a label starting before the previous one fails with NonSequentialPageNumber; otherwise it is appended, so labels stay in page order |
| Document.PdfDocument.AddOutline | src/document.cpp:1715-1725 | an empty title fails with EmptyTitle; otherwise the item gets the next id and is appended to its parent's children (-1 at top level) |
| Document.PdfDocument.CheckOutlineDestinations | src/document.cpp:905-925 | succeeds exactly when every outline destination names an existing page, else InvalidPageNumber |
| Document.PdfDocument.AddStructureItem | src/document.cpp:1788-1815 | a parent that is not an existing item fails with BadId; otherwise the item gets the next id, a delayed object, and its parent is an earlier item |
| Document.PdfDocument.AddFormXObject | src/document.cpp:489-494 | the XObject's stream object is added and recorded in the XObject list |
| Document.PdfDocument.CreateSubnavigation | src/document.cpp:496-598 | a root node, one node per step and a closing node, consecutively numbered from the old table size; the root's number is returned |
| Document.PdfDocument.CheckReuse | src/document.cpp:424-438 | passes exactly when no widget, annotation or structure item was used before; widgets and annotations are checked first (AnnotationReuse), then structure items (StructureReuse) |
| Document.PdfDocument.AnyUsed | src/document.cpp:423-432 | the scan finds a reused id exactly when some id of the set is already recorded as used |
| Document.PdfDocument.AddPage | src/document.cpp:415-475 | a page reusing a widget, annotation or structure item is refused with nothing added; otherwise its objects and use records are added and the invariant holds |
| Document.PdfDocument.RecordPage | src/document.cpp:439-474 | a page that passed the reuse checks is recorded: objects, page entry and use records |
| Document.PdfDocument.AddPageContent | src/document.cpp:439-457 | the resource dictionary and the content stream become two consecutive objects, followed by any navigation nodes |
| Document.PdfDocument.AddPageObjects | src/document.cpp:439-474 | resources, contents, navigation nodes and then the page object, whose number goes into the page list; structure items are queued for the parent tree |
| Document.PdfDocument.MarkUsed | src/document.cpp:462-467 | every widget or annotation of the page is recorded on the page object; other records stay as they were and nothing else is added |
| Document.PdfDocument.AssignMcids | src/document.cpp:468-471 | the k-th structure item of the page is recorded with page number and MCID k; other records stay as they were |
| Document.PdfDocument.AppendPage | src/document.cpp:443-473 | the page object records its page number, widgets, annotations, transition and parent-tree index, and the page list gains its offsets |
| Document.PdfDocument.RecordUse | src/document.cpp:461-471 | each widget and annotation is recorded against the page object, each structure item against the page with its position as marked-content id; other records are kept |
| Document.TablesGrown | src/document.cpp:600-604 | appending objects keeps the document invariant |
| Document.UseReplaced | src/document.cpp:468-471 | structure use that names existing pages keeps the invariant |
| Document.PageStepValid | src/document.cpp:439-474 | adding a page whose page object is the newest object keeps the invariant |
| Document.PageAppended | src/document.cpp:473 | a page list entry pointing at its own page object keeps the page list valid |
| DrawContext.DashCommand | src/drawcontext.cpp:384-389 | the dash line is one complete line: the array in brackets, the phase and the operator |
| DrawContext.CheckedTextHasFont | src/drawcontext.cpp:1046-1080 | text that passes the check never shows characters before a font is chosen by an earlier Tf, and the check's only success value is plain success |
| DrawContext.PdfDrawContext.constructor | src/drawcontext.cpp:35-39 | a new context belongs to its document, has its type and area, and has no commands, usage records or settings |
| DrawContext.PdfDrawContext.HasUnclosedState | src/drawcontext.hpp:203 | true exactly when a save, marked-content or text bracket is still open |
| DrawContext.PdfDrawContext.WriteLine | src/commandstreamformatter.cpp:22-31 | a line is written at the current indentation and the bracket state is kept |
| DrawContext.PdfDrawContext.CmdW | src/drawcontext.cpp:568-574 | a negative width fails with NegativeLineWidth and writes nothing; otherwise one "w" line |
| DrawContext.PdfDrawContext.CmdD | src/drawcontext.cpp:374-392 | an empty array fails with ZeroLengthArray, a negative element with NegativeDash, both before anything is written; otherwise one "d" line |
| DrawContext.PdfDrawContext.CheckDashArray | src/drawcontext.cpp:376-383 | an empty array is ZeroLengthArray, then a negative element is NegativeDash, and otherwise the checks pass |
| DrawContext.PdfDrawContext.BuildDashCommand | src/drawcontext.cpp:384-389 | the loop builds the dash line: each element with "%f" and a space inside brackets, then the phase and "d" |
| DrawContext.PdfDrawContext.CmdI | src/drawcontext.cpp:448-454 | succeeds exactly when the flatness lies in [0, 100]; otherwise InvalidFlatness with nothing written |
| DrawContext.PdfDrawContext.EnumCommand | src/pdfmacros.hpp:29-32 | an enum operand outside 0..max fails with BadEnum and writes nothing; otherwise the number and the operator |
| DrawContext.PdfDrawContext.CmdLineJoin | src/drawcontext.cpp:456-460 | join styles 0..2 are written with "j", others fail with BadEnum |
| DrawContext.PdfDrawContext.CmdLineCap | src/drawcontext.cpp:462-466 | cap styles 0..2 are written with "J", others fail with BadEnum |
| DrawContext.PdfDrawContext.CmdTr | src/drawcontext.cpp:556-560 | text modes 0..7 are written with "Tr", others fail with BadEnum |
| DrawContext.PdfDrawContext.CmdRi | src/drawcontext.cpp:521-526 | intents 0..3 are written by name with "ri", others fail with BadEnum |
| DrawContext.PdfDrawContext.CmdBMC | src/drawcontext.cpp:339-348 | a tag shorter than two characters or starting with a slash fails with SlashStart; an already open marked-content bracket fails with NestedBMC; otherwise the bracket is opened and one BMC line written |
| DrawContext.PdfDrawContext.CmdBDCOptionalContent | src/drawcontext.cpp:331-337 | the group is recorded as used even when opening the bracket fails with NestedBMC; otherwise one BDC line |
| DrawContext.PdfDrawContext.CmdEMC | src/drawcontext.cpp:419 | fails with DrawStateEndMismatch unless the innermost bracket is marked content, which it then closes |
| DrawContext.PdfDrawContext.CmdQSave | src/drawcontext.cpp:500-503 | always succeeds, opening a save bracket with a "q" line |
| DrawContext.PdfDrawContext.CmdQRestore | src/drawcontext.cpp:505 | fails with DrawStateEndMismatch unless the innermost bracket is a save, which it then closes with a "Q" line |
| DrawContext.PdfDrawContext.AddFormWidget | src/drawcontext.cpp:247-253 | a widget already used fails with AnnotationReuse; otherwise it is recorded |
| DrawContext.PdfDrawContext.Annotate | src/drawcontext.cpp:255-261 | an annotation already used fails with AnnotationReuse; otherwise it is recorded |
| DrawContext.PdfDrawContext.AddBcdStructure | src/drawcontext.cpp:1206-1214 | an item already used fails with StructureReuse; otherwise its marked-content id is its position in first-use order |
| DrawContext.PdfDrawContext.AddSimpleNavigation | src/drawcontext.cpp:1157-1175 | only pages (InvalidDrawContextType); every group must have been used (UnusedOcg); on success one navigation entry per group, in order |
| DrawContext.PdfDrawContext.SetTransition | src/drawcontext.cpp:1149-1155 | only pages, else InvalidDrawContextType; sets the transition and nothing else |
| DrawContext.PdfDrawContext.SetCustomPageProperties | src/drawcontext.cpp:1177-1183 | only pages, else InvalidDrawContextType; replaces the properties wholesale |
| DrawContext.PdfDrawContext.SetTransparencyProperties | src/drawcontext.cpp:1185-1195 | only pages and transparency groups, else WrongDCForTransp; sets the transparency part of the properties |
| DrawContext.PdfDrawContext.SetGroupMatrix | src/drawcontext.cpp:1197-1204 | only transparency groups, tiling patterns and form XObjects, else WrongDCForMatrix; sets the matrix |
| DrawContext.PdfDrawContext.SetColorIcc | src/drawcontext.cpp:707-723 | an unknown profile fails with BadId and a channel count mismatch with IncorrectColorChannelCount, both with nothing written or recorded; otherwise the colour space is recorded and two lines select it and set the values |
| DrawContext.PdfDrawContext.CheckRenderText | src/drawcontext.cpp:868-872 | text made by another context fails with WrongDrawContext; otherwise the outcome is that of the content check |
| DrawContext.PdfDrawContext.ValidateTextContents | src/drawcontext.cpp:1046-1082 | the one-pass loop gives the recursive text check's verdict: FontNotSpecified for text before any font is chosen, MissingGlyph for an uncovered character, Success otherwise |
| DrawContext.PdfDrawContext.AtomsHaveGlyphs | src/drawcontext.cpp:1062-1077 | the atom loop succeeds exactly when the font has a glyph for every Unicode character atom of the TJ |
| DrawContext.PdfDrawContext.StealCommandStream | src/commandstreamformatter.cpp:159-166 | with a bracket still open it fails with DrawStateEndMismatch; otherwise it hands out everything written and empties the buffer |
| DrawContext.PdfDrawContext.ClearAsWritten | src/drawcontext.cpp:121-140 | resets commands, settings and usage records except the structure items and form XObjects used |
| DrawContext.PdfDrawContext.Clear | src/drawcontext.cpp:121-140 | resets the context to the state of a new one |
| DrawContext.LineTerminated | src/commandstreamformatter.cpp:22-31 | a text that already ends with a newline gets no second one |
| DrawContext.ColorspaceSelection | src/drawcontext.cpp:714 | the colour-space selection is one complete line |
| DrawContext.ColorValuesLine | src/drawcontext.cpp:716-721 | the values line gets its newline from `append` |
| DrawContext.NavigationEntries | src/drawcontext.cpp:1171-1173 | one navigation entry per group, in order, each with the same transition |
| DrawContext.ReusedContextKeepsStructures | src/drawcontext.cpp:121-140 | a context cleared as written refuses the structure item its previous page used |
| DrawContext.ReusedContextStartsAfresh | src/drawcontext.cpp:121-140 | a context cleared as intended numbers its structure items from 0 again |
| CommandStream.Indentation | src/commandstreamformatter.cpp:129-149 | the indentation of a nesting level is two spaces per level and nothing else |
| CommandStream.Line | src/commandstreamformatter.cpp:22-31 | an empty text adds nothing; otherwise the indentation and the text, ending in a newline that is added only if the text lacks one |
| CommandStream.CommandStreamFormatter.constructor | src/commandstreamformatter.cpp:17 | a new formatter has no indentation, no open bracket and an empty buffer |
| CommandStream.CommandStreamFormatter.Append | src/commandstreamformatter.cpp:22-31 | appends the line for the text at the current indentation; brackets unchanged |
| CommandStream.CommandStreamFormatter.AppendRaw | src/commandstreamformatter.hpp:29-30 | appends the text verbatim |
| CommandStream.CommandStreamFormatter.AppendCommand | src/commandstreamformatter.cpp:33-39 | appends "operand operator" as one indented line |
| CommandStream.CommandStreamFormatter.AppendNumbers | src/commandstreamformatter.cpp:41-64 | appends the numeric operands, each followed by a space, then the operator, as one indented line |
| CommandStream.CommandStreamFormatter.HasState | src/commandstreamformatter.cpp:151-157 | true exactly when a bracket of that type is open |
| CommandStream.CommandStreamFormatter.MarkedContentDepth | src/commandstreamformatter.cpp:168-176 | counts the open marked-content brackets, which is never more than one |
| CommandStream.CommandStreamFormatter.Indent | src/commandstreamformatter.cpp:129-139 | a second text object fails with DrawStateEndMismatch and a second marked-content bracket with NestedBMC, changing nothing; otherwise pushes the bracket and indents two spaces |
| CommandStream.CommandStreamFormatter.Dedent | src/commandstreamformatter.cpp:141-149 | closes the innermost bracket if it has the given type and unindents two spaces; otherwise DrawStateEndMismatch and nothing changes |
| CommandStream.CommandStreamFormatter.BT | src/commandstreamformatter.cpp:87-91 | writes BT first, then opens a text object; a second one fails but the line stays written |
| CommandStream.CommandStreamFormatter.ET | src/commandstreamformatter.cpp:93-97 | closes a text object and writes ET at the outer indentation; a failure writes nothing |
| CommandStream.CommandStreamFormatter.SaveGState | src/commandstreamformatter.cpp:99-103 | always succeeds: writes q and opens a save bracket |
| CommandStream.CommandStreamFormatter.RestoreGState | src/commandstreamformatter.cpp:105-109 | closes a save bracket and writes Q; a failure writes nothing |
| CommandStream.CommandStreamFormatter.BMC | src/commandstreamformatter.cpp:111-115 | writes BMC first, then opens marked content; nesting fails with NestedBMC but the line stays written |
| CommandStream.CommandStreamFormatter.EMC | src/commandstreamformatter.cpp:117-121 | closes marked content and writes EMC; a failure writes nothing |
| CommandStream.CommandStreamFormatter.Clear | src/commandstreamformatter.cpp:123-127 | back to the state of a new formatter |
| CommandStream.CommandStreamFormatter.Steal | src/commandstreamformatter.cpp:159-166 | fails with DrawStateEndMismatch while a bracket is open; otherwise returns everything written and empties the buffer |
| Format.NatText | src/objectformatter.cpp:70-80 | the decimal text of a number: digits only, no leading zero, one digit exactly below ten |
| Format.NatTextRoundTrip | src/objectformatter.cpp:70-80 | reading the decimal text back gives the number |
| Format.NatTextInjective | src/objectformatter.cpp:70-80 | different numbers never share a decimal text |
| Format.IntText | src/objectformatter.cpp:70-74 | a signed number starts with a minus sign exactly when it is negative, and is otherwise its plain decimal text |
| Format.ZeroPadded | src/pdfwriter.cpp:54 | zero padding gives only digits and exactly the requested width when the number is shorter |
| Format.ZeroPaddedRoundTrip | src/pdfwriter.cpp:377 | reading a zero-padded text back gives the number |
| Format.ParseDigitsLeadingZeros | src/pdfwriter.cpp:377 | leading zeros do not change the value read back |
| Format.HexValue | src/utils.cpp:393 | a hexadecimal digit of either case stands for a value below 16 |
| Format.LowerHexDigit | src/utils.cpp:393 | a lower-case digit that reads back as its value |
| Format.UpperHexDigit | src/utils.cpp:216 | an upper-case digit that reads back as its value |
| Format.LowerHexByte | src/utils.cpp:393 | a byte in two hexadecimal digits |
| Format.HexByteRoundTrip | src/utils.cpp:393 | both hexadecimal renderings of a byte are two digits that read back as the byte |
| Format.RoundHalfEven | src/objectformatter.cpp:82-86 | the nearest integer; a value exactly between two integers goes to the even one |
| Format.TieToEven | src/objectformatter.cpp:82-86 | "%f" of 0.0078125, a tie at the sixth decimal, is "0.007812" |
| Generator.RouteImage | src/generator.cpp:73-85 | a JPEG goes to `embed_jpg`, raw pixels to `add_mask_image` exactly when a mask is asked for and to `add_image` otherwise, with the pixels unchanged |
| Generator.MaskFlagOnlyAffectsRawImages | src/generator.cpp:73-85 | the mask flag changes the call made for raw pixels and never for a JPEG |
| Generator.TruncDiv | src/generator.cpp:196 | integer division rounds toward zero for negative dividends as well |
| Generator.KernStep | src/generator.cpp:186-197 | a failing kerning lookup fails with FreeTypeError; otherwise the pair's kerning divided as integers by the em size |
| Generator.WidthWithoutKerning | src/generator.cpp:176-204 | without kerning the width is the sum of the advances |
| Generator.AdvanceSumAppend | src/generator.cpp:199-201 | the advances of two texts put together add up |
| Generator.WidthAdditiveWithoutKerning | src/generator.cpp:176-204 | without kerning, measuring two texts put together gives the sum of their widths |
| Generator.FailureIsFinal | src/generator.cpp:190-192 | once a kerning lookup fails the whole measurement fails with that error |
| Generator.Utf8TextWidth | src/generator.cpp:174-206 | an empty text measures 0; a built-in font fails with DynamicError, because its face lookup `fonts.at(size_t(-1))` throws before the BuiltinFontNotSupported test and the C boundary reports the exception; otherwise the advances plus the kerning between neighbours |
| Generator.PdfGen.constructor | src/generator.cpp:40-53 | the generator owns the document it is given |
| Generator.PdfGen.AddPage | src/generator.cpp:93-122 | a context of another document (IncorrectDocumentForObject), not a page (InvalidDrawContextType), with marked content (UnclosedMarkedContent) or another bracket (DrawStateEndMismatch) open is refused with nothing changed; reuse errors come from the document; on success the page gets the next page number and the context is emptied by the corrected full reset (the as-written `clear` keeps used structure items and form XObjects) |
| Generator.PdfGen.SubmitPage | src/generator.cpp:111-121 | the page is added exactly when none of its widgets, annotations or structure items is already used; then its index is the old page count, the page is recorded with the context's commands and usage, and the corrected full reset leaves the context empty; otherwise the document is unchanged and the error names the reuse |
| Generator.PdfGen.AddFormXObject | src/generator.cpp:130-145 | a context that is not a form XObject, or that has marked content open, is refused; on success the commands become a new form XObject with the next id and the context is emptied by the corrected full reset |
| Generator.PdfGen.PopContext | src/generator.cpp:19-38 | a page context going out of scope is added as a page or the process aborts; a form XObject context is left alone; any other type aborts |
| PdfWriter.CleanedHasNoDroppedCharacters | src/pdfwriter.cpp:34-47 | a cleaned font name holds no space and no backslash |
| PdfWriter.CleanedKeepsCleanNames | src/pdfwriter.cpp:34-47 | a name without spaces and backslashes is kept unchanged |
| PdfWriter.CleanedIdempotent | src/pdfwriter.cpp:34-47 | cleaning a cleaned name changes nothing |
| PdfWriter.CleanedAppend | src/pdfwriter.cpp:34-47 | cleaning works character by character, so the pieces of a name are cleaned independently and in order |
| PdfWriter.FontName2PdfName | src/pdfwriter.cpp:34-47 | the loop returns the name with every space and backslash removed and everything else kept in order |
| PdfWriter.Printf06 | src/pdfwriter.cpp:50-54 | the subset number padded to at least six characters, cut to the nine a ten-byte buffer keeps |
| PdfWriter.SubsetTag | src/pdfwriter.cpp:55-57 | the tag is always six letters |
| PdfWriter.SubsetFontName2PdfName | src/pdfwriter.cpp:50-61 | the subset tag, a plus sign and the cleaned font name |
| PdfWriter.TagDigits | src/pdfwriter.cpp:55-57 | reading the tag letters back as digits keeps its length |
| PdfWriter.SubsetTagRoundTrip | src/pdfwriter.cpp:50-61 | for subset numbers 0..999999 the tag is six letters A..J, one per digit of the zero-padded number, and reads back as the number |
| PdfWriter.SubsetTagInjective | src/pdfwriter.cpp:50-61 | different subset numbers in range get different tags |
| PdfWriter.VersionDigits | src/pdfwriter.cpp:27-32 | every version is written with three characters |
| PdfWriter.Header | src/pdfwriter.cpp:27-32 | every header is 15 bytes and starts with "%PDF-" |
| PdfWriter.WriteToFile | src/pdfwriter.cpp:167-175 | a document without pages fails with NoPages; a second attempt fails with WritingTwice even when the first failed; otherwise the outcome is that of the I/O |
| PdfWriter.WriteTwice | src/pdfwriter.cpp:167-175 | a document with pages is written at most once: the second attempt is refused whatever became of the first |
| PdfWriter.EndLine | src/pdfwriter.cpp:556-568 | the text is kept as a prefix and the result ends with a newline |
| PdfWriter.HeadStartsBody | src/pdfwriter.cpp:553-566 | the object head is a prefix of the object body, with or without a stream |
| PdfWriter.EndobjOnOwnLine | src/pdfwriter.cpp:567-570 | "endobj" always follows a newline |
| PdfWriter.FinishedObjectFrame | src/pdfwriter.cpp:545-572 | a finished object starts with "N 0 obj" and its dictionary and ends with "endobj" on a line of its own |
| PdfWriter.FinishedObjectStream | src/pdfwriter.cpp:558-566 | stream data starts on a new line after "stream" and is followed by a newline and "endstream" |
| PdfWriter.PdfWriter.constructor | src/pdfwriter.cpp:163-165 | objects are compressed exactly when the version is 1.5 or later; nothing is written yet |
| PdfWriter.PdfWriter.WriteHeader | src/pdfwriter.cpp:263-266 | the header of the document's version is written |
| PdfWriter.PdfWriter.AddDummyEntry | src/pdfwriter.cpp:271-275 | object 0 is recorded first, uncompressed at offset 0 |
| PdfWriter.PdfWriter.WriteFinishedObject | src/pdfwriter.cpp:545-572 | with compression on, a stream-less object goes to the object stream and is recorded at its offset there; otherwise it is written to the file and recorded at the file position where it starts |
| PdfWriter.PdfWriter.AppendToFile | src/pdfwriter.cpp:552-553 | an object written to the file is recorded at the position where it starts |
| PdfWriter.PdfWriter.WriteFinishedObjectToObjstm | src/pdfwriter.cpp:574-580 | the object is appended to the object stream and recorded, compressed, at the offset where it starts there |
| PdfWriter.PdfWriter.WriteCrossReferenceTable | src/pdfwriter.cpp:361-381 | the classic cross-reference table is appended to the file |
| PdfWriter.XrefLine | src/pdfwriter.cpp:377 | an in-use entry is exactly 20 bytes when the offset has at most ten digits |
| PdfWriter.CrossReferenceTable | src/pdfwriter.cpp:361-381 | the loop builds the header, the free entry for object 0 and one in-use line per recorded object |
| PdfWriter.XrefLinesOf | src/pdfwriter.cpp:371-379 | the loop writes one line per in-use entry, in object order, equal to the table's lines |
| PdfWriter.XrefLineLength | src/pdfwriter.cpp:377 | an offset below 10^10 takes exactly ten digits once padded |
| PdfWriter.LinesOf | src/pdfwriter.cpp:368-378 | one line per recorded object |
| PdfWriter.XrefLinesLayout | src/pdfwriter.cpp:368-378 | with offsets below 10^10 every entry line is 20 bytes and line k holds the offset of object k, so the table can be indexed by object number |
| PdfWriter.EncodeEntry | src/pdfwriter.cpp:461-487 | a stream entry is 1 + 8 + 4 = 13 bytes |
| PdfWriter.CompressedCount | src/pdfwriter.cpp:460-475 | never more compressed objects than recorded objects |
| PdfWriter.EncodedEntries | src/pdfwriter.cpp:460-479 | 13 bytes per recorded object |
| PdfWriter.EncodedEntriesLayout | src/pdfwriter.cpp:460-479 | the entry of object k occupies bytes 13k to 13k + 13 |
| PdfWriter.CrossReferenceStream | src/pdfwriter.cpp:420-504 | one entry per recorded object, then the object stream and the cross-reference stream as in-use entries: 13 bytes for each of the objects plus two, as the source asserts |
| PdfWriter.NextEntry | src/pdfwriter.cpp:461-478 | one loop step computes the entry of object i and the count of compressed objects so far |
| PdfWriter.StreamEntryKinds | src/pdfwriter.cpp:461-478 | entry 0 is free, a compressed object is a type-2 entry in the object stream, any other a type-1 entry with its file offset |
| PdfWriter.CompressedIndicesIncrease | src/pdfwriter.cpp:467-471 | later compressed objects get larger indices in the object stream |
| PdfWriter.CompressedIndicesRange | src/pdfwriter.cpp:467-471 | compressed indices run from 0 to the number of compressed objects minus one |
| PdfWriter.CompressedCountMonotone | src/pdfwriter.cpp:467-471 | counting a longer prefix gives at least as many, one more past a compressed object |
| PdfWriter.LinkDestinationObject | src/pdfwriter.cpp:897-902 | a destination page outside the document fails with InvalidPageNumber; otherwise the page's object number |
| PdfWriter.LinkDestinationIsPage | src/pdfwriter.cpp:897-902 | in a consistent document the destination is the page object of that very page |
| PdfWriter.PageBoxes | src/pdfwriter.cpp:746-759 | the media box is always written first, from the defaults merged with the page's own properties |
| PdfWriter.PageBoxesPreferPage | src/pdfwriter.cpp:746-759 | for the media box and each of the crop, bleed, trim and art boxes, a box the page sets wins over the default, a box only the defaults set is written with the default, and a box neither sets is not written |
| PdfWriter.ParentObject | src/pdfwriter.cpp:1019-1024 | /P is the structure root for an item without a parent and the parent's object otherwise |
| PdfWriter.StructureChildren | src/pdfwriter.cpp:1026-1034 | the loop collects the children of the item in index order |
| PdfWriter.ChildrenAreThoseWithThatParent | src/pdfwriter.cpp:1026-1034 | comparing object numbers finds exactly the items whose parent is this item, in increasing index order |
| PdfWriter.StructureKids | src/pdfwriter.cpp:1052-1071 | /K lists the children's objects when there are any; otherwise, for an item used on a page, that page's object and the item's MCID; otherwise nothing |
| FtSubsetter.FontIdForGlyph | src/ft_subsetter.cpp:1089-1105 | a regular glyph for codepoint 0 is glyph 0; every other glyph answers its stored glyph index |
| FtSubsetter.NotdefIsGlyphZero | src/ft_subsetter.cpp:1089-1105 | the .notdef entry maps to glyph 0 although its stored index is not 0 |
| FtSubsetter.Checksum | src/ft_subsetter.cpp:25-42 | a table checksum is always a 32-bit value |
| FtSubsetter.TtfChecksum | src/ft_subsetter.cpp:25-42 | the loop over whole words plus the zero-padded tail, in wrapping uint32 arithmetic, is the word sum modulo 2^32 |
| FtSubsetter.ChecksumOfPadded | src/ft_subsetter.cpp:34-40 | padding the data with zero bytes to a word boundary does not change the sum, so the tail may be read as a zero-padded word |
| FtSubsetter.ChecksumAppend | src/ft_subsetter.cpp:25-42 | the checksum of word-aligned pieces is the sum of their checksums modulo 2^32 |
| FtSubsetter.OffsetTable.SetTableSize | src/ft_subsetter.cpp:63-78 | as written: searchRange is 16 times the largest power of two strictly below the table count, and rangeShift is 16 times the count minus searchRange, both stored into int16_t fields; up to 2048 tables nothing wraps |
| FtSubsetter.SearchRangeWrapsPast2048 | src/ft_subsetter.cpp:63-78 | with 2049 tables the exponent is 11 and searchRange wraps to -32768 |
| FtSubsetter.OffsetTable.SetTableSizeOpenType | src/ft_subsetter.cpp:63-78 | the corrected computation: the three search fields meet the OpenType definition (largest power of two not above the count), and below 2048 tables they fit the int16_t fields |
| FtSubsetter.EightTablesAsWritten | src/ft_subsetter.cpp:63-78 | with eight tables the code writes searchRange 64, entrySelector 2 and rangeShift 64, which OpenType does not accept |
| FtSubsetter.SearchFieldsAgreeOffPowersOfTwo | src/ft_subsetter.cpp:63-78 | for table counts that are not powers of two, the code's fields are the OpenType ones |
| FtSubsetter.FindEntry | src/ft_subsetter.cpp:381-388 | no entry exactly when no directory entry has the tag; otherwise the first entry with the tag |
| FtSubsetter.LocaEntryMeaning | src/ft_subsetter.cpp:438-453 | a short entry reads when its two bytes lie in the buffer and is twice the stored value; a long entry needs four bytes and fails with IndexIsNegative when the signed value is negative |
| FtSubsetter.LocaEntry | src/ft_subsetter.cpp:438-453 | a loaded offset is never negative, and a short-format one is even and below 2^17; a short read can only fail with IndexOutOfBounds, a long one also with IndexIsNegative |
| FtSubsetter.Collect | src/ft_subsetter.cpp:438-453 | a successful collection has one value per read |
| FtSubsetter.CollectMeaning | src/ft_subsetter.cpp:438-453 | reading stops at the first failure: collecting succeeds exactly when every read does and then keeps every value in order, and a failure is the error of the first failing read |
| FtSubsetter.CollectStep | src/ft_subsetter.cpp:438-453 | one more successful read extends the collection by its value; one failed read ends it with that error |
| FtSubsetter.CollectFailureIsFinal | src/ft_subsetter.cpp:438-453 | once a read has failed, later reads do not change the outcome |
| FtSubsetter.LocaReads | src/ft_subsetter.cpp:438-453 | read k is the k-th loca entry |
| FtSubsetter.LocaEntries | src/ft_subsetter.cpp:438-453 | a loaded loca table has exactly the requested number of offsets |
| FtSubsetter.LocaEntriesMeaning | src/ft_subsetter.cpp:438-453 | the table loads exactly when every entry does, keeps each entry's value, and otherwise fails with the error of a failing entry |
| FtSubsetter.ShortLocaLoads | src/ft_subsetter.cpp:438-445 | format 0 loads exactly when the whole table lies in the buffer, and every offset is twice its stored 16-bit value |
| FtSubsetter.LongLocaNonNegative | src/ft_subsetter.cpp:446-453 | a loaded format 1 table lies in the buffer and holds only non-negative offsets; a failure is IndexOutOfBounds or IndexIsNegative |
| FtSubsetter.LoadLoca | src/ft_subsetter.cpp:426-458 | a missing loca table gives no offsets; with the corrected counter, formats 0 and 1 load num_glyphs + 1 entries (the as-written uint16_t loop never ends at 65535 glyphs); any other format is MalformedFontFile |
| FtSubsetter.LocaCounterNext | src/ft_subsetter.cpp:438 | the uint16 loop counter wraps from 65535 to 0 and otherwise counts up by one |
| FtSubsetter.LocaLoopNeverEndsAt65535 | src/ft_subsetter.cpp:438-453 | for a font with 65535 glyphs the condition `i <= num_glyphs` stays true forever, so the loop as written never ends |
| FtSubsetter.LocaPassesAsWritten | src/ft_subsetter.cpp:438-453 | the as-written loop pushes at most one entry per pass, answers -1 while it has not left, and pushes nothing when the counter starts past num_glyphs |
| FtSubsetter.LocaLoopEndsBelow65535 | src/ft_subsetter.cpp:438-453 | below 65535 glyphs the loop as written runs num_glyphs + 1 passes |
| FtSubsetter.LongMetricAt | src/ft_subsetter.cpp:491-497 | a long metric record reads exactly when its four bytes lie in the buffer |
| FtSubsetter.SideBearingAt | src/ft_subsetter.cpp:499-506 | a side bearing reads exactly when its two bytes lie in the buffer |
| FtSubsetter.LongMetricReads | src/ft_subsetter.cpp:491-497 | read k is the record four bytes on from read k - 1 |
| FtSubsetter.SideBearingReads | src/ft_subsetter.cpp:499-506 | read k is the bearing two bytes on from read k - 1 |
| FtSubsetter.LongMetrics | src/ft_subsetter.cpp:491-497 | loaded long metrics number exactly num_hmetrics |
| FtSubsetter.SideBearings | src/ft_subsetter.cpp:499-506 | loaded side bearings number exactly the requested count |
| FtSubsetter.HmtxAtLoads | src/ft_subsetter.cpp:481-509 | the table loads exactly when all its records lie in the buffer, and then holds num_hmetrics long metrics and num_glyphs - num_hmetrics bearings |
| FtSubsetter.PartsLoad | src/ft_subsetter.cpp:490-506 | the two loops succeed together exactly when all records lie in the buffer, with the counts above |
| FtSubsetter.CombineLoads | src/ft_subsetter.cpp:490-508 | the table is loaded exactly when both parts are, with their sizes |
| FtSubsetter.LongMetricsLoad | src/ft_subsetter.cpp:491-497 | the first loop succeeds exactly when all long metrics lie in the buffer |
| FtSubsetter.LongMetricsValues | src/ft_subsetter.cpp:491-497 | loaded long metric k is the record stored 4k bytes into the table |
| FtSubsetter.SideBearingsLoad | src/ft_subsetter.cpp:499-506 | the second loop succeeds exactly when all bearings lie in the buffer |
| FtSubsetter.SideBearingsValues | src/ft_subsetter.cpp:499-506 | loaded bearing k is the value stored 2k bytes after the long metrics |
| FtSubsetter.LoadHmtx | src/ft_subsetter.cpp:481-509 | a missing hmtx table, or more long metrics than glyphs, is MalformedFontFile; otherwise the table read at its offset |
| FtSubsetter.ReadHmtx | src/ft_subsetter.cpp:490-508 | the two loops together load the table read at the offset |
| FtSubsetter.ReadLongMetrics | src/ft_subsetter.cpp:491-497 | the first loop loads the long metrics or stops at the first failing read |
| FtSubsetter.ReadSideBearings | src/ft_subsetter.cpp:499-506 | the second loop loads the bearings or stops at the first failing read |
| FtSubsetter.SubsetHmtx | src/ft_subsetter.cpp:668-692 | one long metric per subset glyph and no trailing bearings; a glyph past the long metrics takes the last advance and its own bearing |
| FtSubsetter.MetricOf | src/ft_subsetter.cpp:674-683 | a glyph among the long metrics keeps its own record; a later glyph takes the last advance width and its own side bearing |
| FtSubsetter.SubsetMetricsPreserved | src/ft_subsetter.cpp:668-692 | in the subset table glyph k has exactly the metrics of the k-th subset glyph in the source, and its advance is the source's (the last long advance for glyphs past the long metrics) |
| FtSubsetter.GlyphSlices | src/ft_subsetter.cpp:522-529 | slice k is glyph k's slice |
| FtSubsetter.LoadGlyfGlyphs | src/ft_subsetter.cpp:511-532 | an offset past the buffer, or a loca table without exactly num_glyphs + 1 entries, is MalformedFontFile; otherwise the glyph slices, stopping at the first bad one |
| FtSubsetter.GlyphSlicesLoad | src/ft_subsetter.cpp:522-529 | the glyphs load exactly when every slice has a non-negative start and size and ends inside the glyf region |
| FtSubsetter.GlyphSlicesTile | src/ft_subsetter.cpp:522-529 | the loaded slices, laid end to end, are exactly the glyf bytes from the first loca offset to the last |
| FtSubsetter.LoadRawTable | src/ft_subsetter.cpp:543-560 | a missing table is empty; a present one loads exactly when it is non-empty and ends inside the buffer, and is then its bytes; otherwise IndexOutOfBounds |
| FtSubsetter.NumContours | src/ft_subsetter.cpp:837-841 | the count reads exactly when the glyph has at least two bytes; otherwise IndexOutOfBounds |
| FtSubsetter.IsCompositeGlyph | src/ft_subsetter.cpp:1014-1020 | empty data is not composite; otherwise composite exactly when the contour count is negative |
| FtSubsetter.CompositeIffSignBit | src/ft_subsetter.cpp:1014-1020 | a one-byte glyph fails with IndexOutOfBounds; a longer one is composite exactly when the top bit of its first byte is set |
| FtSubsetter.NextComponent | src/ft_subsetter.cpp:1040-1046 | the next record starts after the flags, the index and two arguments, words or bytes as ARGS_ARE_WORDS says |
| FtSubsetter.ComponentIds | src/ft_subsetter.cpp:1034-1050 | a successful walk yields at least one id, each a 16-bit value; a failure is IndexOutOfBounds |
| FtSubsetter.CompositeSubglyphs | src/ft_subsetter.cpp:1027-1052 | the do-while loop yields the component ids read after the 10-byte header, until a record without MORE_COMPONENTS |
| FtSubsetter.ComponentCountBound | src/ft_subsetter.cpp:1034-1050 | every record takes at least six bytes, so a walk yields at most one id per six bytes, plus one |
| FtSubsetter.ComponentIdsStep | src/ft_subsetter.cpp:1034-1050 | the walk is the id read at the record followed, when MORE_COMPONENTS is set, by the walk from the next record |
| FtSubsetter.PatchIndex | src/ft_subsetter.cpp:1081-1083 | writing a 16-bit value big-endian changes only its two bytes |
| FtSubsetter.PatchSuffix | src/ft_subsetter.cpp:1081-1083 | patching at an offset into the data after the header is patching the buffer at the header size plus that offset |
| FtSubsetter.WalkFrame | src/ft_subsetter.cpp:1062-1084 | the walk from a record reads nothing before that record |
| FtSubsetter.Reassigned | src/ft_subsetter.cpp:1062-1084 | the rewrite keeps the data's length |
| FtSubsetter.ReassignedStep | src/ft_subsetter.cpp:1062-1084 | one pass patches the record's index with its mapped value and then goes on from the next record only when MORE_COMPONENTS is set |
| FtSubsetter.WriteIndex | src/ft_subsetter.cpp:1081-1083 | the buffer becomes the old buffer with the index patched |
| FtSubsetter.ReassignRecord | src/ft_subsetter.cpp:1062-1084 | one pass leaves the header alone and keeps the rest of the rewrite unchanged: failing, ending or going on from the next record |
| FtSubsetter.ReassignCompositeGlyphNumbers | src/ft_subsetter.cpp:1054-1087 | the header is untouched and the buffer and status are those of the rewrite of the old data |
| FtSubsetter.ReassignedKeepsPrefix | src/ft_subsetter.cpp:1062-1084 | the rewrite changes no byte before the record it starts from |
| FtSubsetter.MapIds | src/ft_subsetter.cpp:1077-1080 | each id becomes its mapped value truncated to 16 bits, in the same order |
| FtSubsetter.MapIdsCons | src/ft_subsetter.cpp:1077-1080 | mapping a list that starts with an id maps that id first |
| FtSubsetter.ReassignedHead | src/ft_subsetter.cpp:1062-1084 | after the rewrite the first record keeps its flags and holds its mapped index |
| FtSubsetter.ReassignedRoundTrip | src/ft_subsetter.cpp:1027-1087 | on a well-formed composite glyph the rewrite succeeds, and reading its components back yields the mapped ids in the same order |
| FontSubsetter.Components | src/fontsubsetter.cpp:27-32 | the direct components of a glyph are 16-bit glyph indices |
| FontSubsetter.Closure | src/fontsubsetter.cpp:24-39 | a successful walk keeps every glyph already visited |
| FontSubsetter.AddEach | src/fontsubsetter.cpp:33-37 | the loop over the components keeps every glyph already visited |
| FontSubsetter.AddEachClosed | src/fontsubsetter.cpp:33-37 | after the loop each listed component is in the set, and every glyph it added has readable components that are all in the set too |
| FontSubsetter.ClosureClosed | src/fontsubsetter.cpp:24-47 | a successful walk from a glyph holds its components and is closed under taking components: it holds every glyph the composite needs, directly or through other composites |
| FontSubsetter.AddSubglyphs | src/fontsubsetter.cpp:24-39 | the recursive descent, inserting each new component and descending into it, gives the closure or the first error it meets |
| FontSubsetter.FirstMatch | src/fontsubsetter.cpp:185-227 | the offset found is the first entry matching the key; none means no entry matches |
| FontSubsetter.IndexMapMeaning | src/fontsubsetter.cpp:135-136 | the font-index map holds the glyph index of every entry after .notdef, and maps it to the last entry with that index |
| FontSubsetter.FontSubsetter.constructor | src/fontsubsetter.cpp:18-22 | a new subset holds .notdef alone and an empty map |
| FontSubsetter.FontSubsetter.SubglyphsToAdd | src/fontsubsetter.cpp:140-157 | on a TrueType font glyph 0 or a glyph past the table is MissingGlyph; what a composite adds are 16-bit glyph indices |
| FontSubsetter.FontSubsetter.Find | src/fontsubsetter.cpp:185-227 | the scan answers subset 0 and the offset of the first matching entry, or nothing when none matches |
| FontSubsetter.FontSubsetter.FindExistingGlyph | src/fontsubsetter.cpp:185-199 | found exactly when a regular glyph has this glyph index, at the first such offset |
| FontSubsetter.FontSubsetter.FindGlyphWithCodepoint | src/fontsubsetter.cpp:201-213 | found exactly when a regular glyph has this codepoint, at the first such offset |
| FontSubsetter.FontSubsetter.FindGlyph | src/fontsubsetter.cpp:215-227 | found exactly when a ligature has this text, at the first such offset |
| FontSubsetter.FontSubsetter.Append | src/fontsubsetter.cpp:135-136 | the entry goes last and the map sends its glyph index to its offset, keeping the map equal to the one the table determines |
| FontSubsetter.FontSubsetter.AppendComposites | src/fontsubsetter.cpp:162-169 | the old entries stay in place, and exactly one composite entry is added per component not yet mapped, none twice |
| FontSubsetter.FontSubsetter.HandleSubglyphs | src/fontsubsetter.cpp:140-172 | fails exactly when the expansion fails, and then leaves the table alone; otherwise it appends one composite entry per needed component not yet mapped |
| FontSubsetter.FontSubsetter.ExpandAndAppend | src/fontsubsetter.cpp:134-137 | after the components the entry goes last and its offset is the answer; an expansion error leaves the table unchanged |
| FontSubsetter.FontSubsetter.UncheckedInsertGlyph | src/fontsubsetter.cpp:123-138 | a full table is TooManyGlyphsUsed and glyph 0 is MissingGlyph, both leaving the table alone; otherwise the components and then the regular glyph are appended, answering its offset |
| FontSubsetter.FontSubsetter.UncheckedInsertLigature | src/fontsubsetter.cpp:174-183 | a full table is TooManyGlyphsUsed; otherwise the components and then the ligature are appended, answering its offset |
| FontSubsetter.FontSubsetter.GetGlyphSubset | src/fontsubsetter.cpp:63-93 | a glyph already in the table is answered with its offset and the table does not grow; otherwise it is inserted; after success the same request finds the answer in the table |
| FontSubsetter.FontSubsetter.GetLigatureSubset | src/fontsubsetter.cpp:95-121 | a regular glyph with the id, or else a ligature with the text, is answered without growing the table; otherwise the ligature is inserted; after success the same request finds it |
| FontSubsetter.FirstMatchAfterInsert | src/fontsubsetter.cpp:162-169 | after composites and one entry are appended to a table with no match, the only possible match is that entry |
| FontSubsetter.InsertedLookup | src/fontsubsetter.cpp:123-138 | after an insert, a key with no earlier match finds the inserted entry exactly when it matches that entry |
| FontSubsetter.AddsExactlyStep | src/fontsubsetter.cpp:162-169 | appending a composite for a component not added yet keeps the exact-addition property |
| FontSubsetter.InsertedShape | src/fontsubsetter.cpp:134-137 | a successful expansion followed by appending the entry has the shape of an insert |
| CffSubsetter.SafeSubspan | src/cffsubsetter.cpp:52-65 | the slice exists exactly when it ends inside the span, and is then those bytes; otherwise IndexOutOfBounds |
| CffSubsetter.ExtractIndexOffset | src/cffsubsetter.cpp:67-88 | a read needs the field and at least one more byte in the data (else IndexOutOfBounds) and a width of 1 to 4 (else MalformedFontFile); it yields the big-endian value of the field |
| CffSubsetter.BeRead | src/cffsubsetter.cpp:67-88 | a value written big-endian in a field reads back as that value |
| CffSubsetter.OffsetsFrom | src/cffsubsetter.cpp:105-124 | a read offset array has the requested length, is positive and never decreases |
| CffSubsetter.IndexAt | src/cffsubsetter.cpp:90-140 | an INDEX read needs its count in the data; an empty one leaves the position where it was, a non-empty one moves it past the data area, inside the data |
| CffSubsetter.DataBase | src/cffsubsetter.cpp:125 | the data area starts after the count and the offSize byte |
| CffSubsetter.IndexEntries | src/cffsubsetter.cpp:129-139 | the entries load exactly when the last offset lies in the data, one entry per pair of offsets; otherwise MalformedFontFile |
| CffSubsetter.ReadIndex | src/cffsubsetter.cpp:90-140 | the corrected reading: the same entries and errors, but the position always moves at least past the count |
| CffSubsetter.LoadIndex | src/cffsubsetter.cpp:90-140 | the step-by-step reading gives the entries and the position of the INDEX read, or its error |
| CffSubsetter.LoadIndexAdvancing | src/cffsubsetter.cpp:90-140 | the corrected loader gives the entries and the position of the corrected reading |
| CffSubsetter.NextOffset | src/cffsubsetter.cpp:106-121 | an accepted offset is positive and no smaller than the one before |
| CffSubsetter.OffsetsStep | src/cffsubsetter.cpp:106-123 | one accepted offset extends the part read so far and moves the position by offSize |
| CffSubsetter.OffsetsStop | src/cffsubsetter.cpp:106-121 | a rejected offset is the outcome of the whole array |
| CffSubsetter.OffsetsDone | src/cffsubsetter.cpp:105-124 | after the last offset the array read is the whole array |
| CffSubsetter.ReadNextOffset | src/cffsubsetter.cpp:106-121 | one pass of the loop reads the next offset or rejects it |
| CffSubsetter.ReadOffsets | src/cffsubsetter.cpp:105-124 | the loop reads the offset array, or stops at the first rejected offset |
| CffSubsetter.ReadEntries | src/cffsubsetter.cpp:129-139 | the loop yields the entries exactly when they lie in the data, else MalformedFontFile |
| CffSubsetter.ConcatLength | src/cffsubsetter.cpp:326-329 | the data area is as long as all entries together |
| CffSubsetter.ConcatEntry | src/cffsubsetter.cpp:326-329 | entry i lies in the data area right after the entries before it |
| CffSubsetter.OffsetArray | src/cffsubsetter.cpp:320-325 | the writer emits one offset per entry plus the end offset |
| CffSubsetter.Fields | src/cffsubsetter.cpp:322-325 | each offset takes four bytes |
| CffSubsetter.IndexBytes | src/cffsubsetter.cpp:316-331 | a written INDEX is 2 count bytes, an offSize byte of 4, four bytes per offset and the entries |
| CffSubsetter.AppendIndexTo | src/cffsubsetter.cpp:316-331 | the output grows by exactly the INDEX bytes, and each answered position holds its entry |
| CffSubsetter.AppendCount | src/cffsubsetter.cpp:317-318 | the count is written as a uint16 followed by offSize 4 |
| CffSubsetter.AppendOffsetArray | src/cffsubsetter.cpp:320-325 | the loop writes the offset array, each offset as a 32-bit field |
| CffSubsetter.AppendField | src/cffsubsetter.cpp:322 | one offset is appended as four big-endian bytes |
| CffSubsetter.AppendData | src/cffsubsetter.cpp:326-329 | the entries are appended in order, and each answered position holds its entry |
| CffSubsetter.OffsetArrayShape | src/cffsubsetter.cpp:320-325 | the written offsets start at 1, never decrease, and offset i is 1 plus the size of the entries before it |
| CffSubsetter.ReadFields | src/cffsubsetter.cpp:105-124 | the reader accepts the offset fields the writer wrote and gets their values back |
| CffSubsetter.EntriesInArea | src/cffsubsetter.cpp:326-329 | every entry sits in the written data area where the offsets say |
| CffSubsetter.EntriesBetween | src/cffsubsetter.cpp:129-139 | when every entry lies between its offsets, the reader yields exactly those entries and ends after the last |
| CffSubsetter.IndexAtImage | src/cffsubsetter.cpp:90-140 | a non-empty INDEX written by the writer reads back as its entries, with the position just past it |
| CffSubsetter.ReadIndexOfImage | src/cffsubsetter.cpp:90-140 | the same for the corrected reader: writing then reading an INDEX gives back its entries and ends just past it |
| CffSubsetter.EmptyAt | src/cffsubsetter.cpp:90-99 | the corrected reader reads an empty INDEX as no entries and moves past its two count bytes |
| CffSubsetter.EmptyIndexRereadAsWritten | src/cffsubsetter.cpp:94-99 | as written, an empty INDEX followed by an INDEX of one entry: the position does not move, so the second read sees the empty INDEX again instead of the entry |
| CffSubsetter.ToInt32 | src/cffsubsetter.cpp:195-200 | the 32 bits read as a two's-complement int32 |
| CffSubsetter.RealLength | src/cffsubsetter.cpp:201-206 | a real operand runs up to and including the first byte whose low nibble is 0xf; without one the read runs off the end (IndexOutOfBounds) |
| CffSubsetter.OperandOf | src/cffsubsetter.cpp:176-208 | each lead byte's value range and length: 32-246 one byte in -107..107, 247-250 and 251-254 two bytes in 108..1131 and -1131..-108, 28 three bytes unsigned, 29 five bytes as an int32, 30 a real read as -1; a short read is IndexOutOfBounds |
| CffSubsetter.Unpack | src/cffsubsetter.cpp:158-214 | unpacking fails only with MalformedFontFile (operands left at the end) or IndexOutOfBounds (a read past the end) |
| CffSubsetter.ReadOperand | src/cffsubsetter.cpp:176-208 | the operand branch reads the value and moves past it |
| CffSubsetter.SkipReal | src/cffsubsetter.cpp:201-206 | the real-number loop moves past the terminating nibble |
| CffSubsetter.UnpackDictionary | src/cffsubsetter.cpp:158-214 | the loop unpacks the DICT the way the recursive definition does |
| CffSubsetter.OperandBytes | src/cffsubsetter.cpp:583-586 | each operand is written as byte 29 and four more bytes |
| CffSubsetter.OperandsBytes | src/cffsubsetter.cpp:583-586 | operands take five bytes each |
| CffSubsetter.OperatorBytes | src/cffsubsetter.cpp:587-590 | an operator takes one byte, or two when escaped |
| CffSubsetter.DictWriter.constructor | src/cffsubsetter.hpp:179-190 | a new writer has no output and no offsets |
| CffSubsetter.DictWriter.AppendCommand | src/cffsubsetter.cpp:581-591 | records where the command starts, truncated to 16 bits, then appends the operands and the operator |
| CffSubsetter.DictWriter.AppendItem | src/cffsubsetter.hpp:182 | appending a parsed entry appends its operands and operator |
| CffSubsetter.Int32Bits | src/cffsubsetter.cpp:195-200 | reading back the 32 bits of an int32 gives the int32 |
| CffSubsetter.OperandRoundTrip | src/cffsubsetter.cpp:581-591 | an int32 operand written by the writer reads back as the same value, five bytes long |
| CffSubsetter.OperandStep | src/cffsubsetter.cpp:158-214 | reading a written operand adds it to the pending operands |
| CffSubsetter.OperandsRoundTrip | src/cffsubsetter.cpp:581-591 | written operands are read back in order |
| CffSubsetter.OperatorRoundTrip | src/cffsubsetter.cpp:163-172 | a written operator, escaped or not, ends an entry holding the pending operands |
| CffSubsetter.CommandRoundTrip | src/cffsubsetter.cpp:581-591 | a written command reads back as one entry with its operands and operator |
| CffSubsetter.DictRoundTrip | src/cffsubsetter.cpp:158-214 | written commands read back as the same entries, in order, whatever follows |
| CffSubsetter.DictSnoc | src/cffsubsetter.cpp:158-214 | one more written command at the end reads back as one more entry |
| CffSubsetter.DictReadBack | src/cffsubsetter.cpp:158-214 | unpacking a DICT the writer produced gives back exactly its entries |
| CffSubsetter.TrailingOperandsRejected | src/cffsubsetter.cpp:210-212 | operands after the last operator make the DICT MalformedFontFile |
| CffSubsetter.LastCovering | src/cffsubsetter.cpp:559-574 | the last range starting at or before the glyph |
| CffSubsetter.ScanFindsCovering | src/cffsubsetter.cpp:564-573 | on increasing ranges the search loop answers the font dict of the last range starting at or before the glyph |
| CffSubsetter.FontdictIdCovers | src/cffsubsetter.cpp:559-574 | for a CID font with increasing ranges, a glyph gets the font dict of the range that covers it |
| CffSubsetter.GetFontdictId | src/cffsubsetter.cpp:559-574 | the loop answers the font dict the lookup defines; a non-CID font answers the glyph id's low byte |
| CffSubsetter.BuildFdselect3 | src/cffsubsetter.cpp:401-422 | non-CID: one range per glyph on font dict 0; CID: a first range at 0 for glyph 0's dict, then a new range only where the dict changes; below 65537 glyphs the ranges increase from 0 and each output glyph is covered by the range of its own font dict |
| CffSubsetter.FdselectStep | src/cffsubsetter.cpp:406-413 | one glyph of the loop keeps the ranges built so far correct for the glyphs seen so far |
| CffSubsetter.NewRangeStep | src/cffsubsetter.cpp:410-412 | a changed font dict opens a range that keeps the ranges correct |
| CffSubsetter.NewRangeCovers | src/cffsubsetter.cpp:410-412 | the new range covers the glyph that opened it and leaves earlier glyphs covered as before |
| CffSubsetter.SameRangeStep | src/cffsubsetter.cpp:408-413 | an unchanged font dict extends the last range |
| CffSubsetter.CoveringAfterNewRange | src/cffsubsetter.cpp:410-412 | a range starting after a glyph does not change that glyph's font dict |
| Type3Fonts.Type3Font.constructor | src/type3font.hpp:29-30 | a new font has the matrix (0.001, 0, 0, 0.001, 0, 0) and no glyphs |
| Type3Fonts.Type3Font.SetFontMatrix | src/type3font.cpp:12-19 | the matrix holds the six arguments in order and the glyphs are kept |
| Type3Fonts.Type3Font.FindCodepoint | src/type3font.cpp:25-29 | the scan finds the codepoint exactly when some glyph is drawn for it |
| Type3Fonts.Type3Font.AddGlyph | src/type3font.cpp:21-35 | a context of another type is WrongDrawContext and a repeated codepoint CodepointAlreadyExists; an unclosed bracket in the stream is DrawStateEndMismatch; otherwise the stream moves into a new last glyph and the context's stream is emptied; a rejected call changes nothing and codepoints stay unique |
| XmlFormatter.IsValidTagNameAsWritten | src/xmlformatter.cpp:11-29 | as written the digit test `c >= '0' \|\| c <= '9'` holds for every character, so every name is accepted |
| XmlFormatter.SpaceInTagNameAccepted | src/xmlformatter.cpp:20-22 | the name "a b" passes the check as written though it is not a valid tag name |
| XmlFormatter.CheckTagName | src/xmlformatter.cpp:11-29 | the corrected check accepts exactly the names made of ASCII letters, digits and ':' |
| XmlFormatter.XmlQuoteChar | src/utils.cpp:458-475 | other characters are kept; '<', '>' and '&' become entities |
| XmlFormatter.XmlQuoteCharAsWritten | src/utils.cpp:458-475 | as written, characters other than '<', '>' and '&' are kept, and the quoting differs from the corrected one exactly on '&' |
| XmlFormatter.XmlUnquoteQuoted | src/utils.cpp:458-475 | with '&' written as "&amp;", an XML reader's entity replacement gives back the original text |
| XmlFormatter.UnquoteQuotedChar | src/utils.cpp:458-475 | each quoted character, followed by any text, reads back as itself followed by that text read back |
| XmlFormatter.AmpersandReadBackAsQuote | src/utils.cpp:467-469 | as written, '&' is quoted as "&quot;" and so reads back as a double quote |
| XmlFormatter.QuotingAgreesWithoutAmpersand | src/utils.cpp:458-475 | on text without '&' the quoting as written is the corrected quoting |
| XmlFormatter.QuotedAsWrittenReadsBack | src/utils.cpp:458-475 | text without '&', quoted as written, reads back as itself |
| XmlFormatter.AttributeEscapeChar | src/xmlformatter.cpp:67-73 | a double quote becomes backslash and quote; every other character is kept |
| XmlFormatter.AttributeEscapeStartsPlain | src/xmlformatter.cpp:67-73 | an escaped non-empty value never starts with a bare double quote |
| XmlFormatter.AttributeRoundTrip | src/xmlformatter.cpp:67-73 | removing the backslash before each escaped quote gives back the attribute value |
| XmlFormatter.XMLFormatter.constructor | src/xmlformatter.cpp:33 | a new formatter has no output, no indentation and no open tag |
| XmlFormatter.XMLFormatter.AddTextUnchecked | src/xmlformatter.cpp:35 | the text is appended and nothing else changes |
| XmlFormatter.XMLFormatter.StartTag | src/xmlformatter.cpp:37-53 | allowed only between tags; any name passes the check as written; after a '>' the tag starts a new line at the current indentation; the tag is left open |
| XmlFormatter.XMLFormatter.AddTagAttribute | src/xmlformatter.cpp:55-75 | allowed only in an open tag, with any name; appends ` name="value"` with the value escaped |
| XmlFormatter.XMLFormatter.FinishTag | src/xmlformatter.cpp:77-84 | closes the start tag with '>' and indents by two more spaces for its content |
| XmlFormatter.XMLFormatter.FinishStandaloneTag | src/xmlformatter.cpp:86-92 | closes the tag with "/>" and keeps the indentation |
| XmlFormatter.XMLFormatter.AddEndTag | src/xmlformatter.cpp:94-117 | needs an open element; writes the end tag with any name, on a new line after a '>', removes two spaces of indentation, and ends the document with a newline when the outermost element closes |
| XmlFormatter.XMLFormatter.AddContent | src/xmlformatter.cpp:119-124 | appends the content quoted as the code quotes it: '<' and '>' become entities and '&' becomes "&quot;" |
| XmlFormatter.XMLFormatter.Steal | src/xmlformatter.cpp:133-138 | only with every element closed: hands over the document and leaves the output empty |
| PdfParser.ScanForClose | src/pdfparser.cpp:54-95 | the scan answers -1 exactly when no prefix brings the parenthesis depth to 0; otherwise the length of the shortest such prefix, which ends with ')' |
| PdfParser.LexStringAsWritten | src/pdfparser.cpp:54-95 | the scan with every backslash setting the escape flag, as the code does |
| PdfParser.LexString | src/pdfparser.cpp:54-95 | the corrected scan, where an escaped backslash escapes nothing after it: the length up to the closing parenthesis, or -1 |
| PdfParser.ScanAppend | src/pdfparser.cpp:58-93 | scanning one more character is one more step of the loop |
| PdfParser.EscapesAreNeutral | src/pdfparser.cpp:61-83 | in the corrected scan the escapes "\\(", "\\)" and "\\\\" leave the depth and the escape flag unchanged |
| PdfParser.EscapedBackslashHidesParen | src/pdfparser.cpp:61-83 | as written, an escaped backslash followed by ')' leaves the depth unchanged: the parenthesis counts as escaped |
| PdfParser.EscapedBackslashExample | src/pdfparser.cpp:54-95 | on the body `\\))` the scan as written takes four characters, the corrected one stops after three |
| PdfParser.ValueAt | src/pdfparser.cpp:183-220 | a value of the grammar, when there is one, ends after its first token and within the input |
| PdfParser.DictBodyAt | src/pdfparser.cpp:222-239 | a dictionary body, when there is one, ends after its first token and within the input |
| PdfParser.ArrayBodyAt | src/pdfparser.cpp:241-254 | an array body, when there is one, ends after its first token and within the input |
| PdfParser.DenotesExtended | src/pdfparser.cpp:225-226 | appending dictionaries and arrays to the tables does not change what an already parsed value stands for |
| PdfParser.DenotesWithin | src/pdfparser.cpp:205-217 | a value that stands for a parsed tree refers only to tables that exist |
| PdfParser.DictEntryParsed | src/pdfparser.cpp:229-237 | a name and a parsed value add that entry, replacing an earlier one for the same key, and move the dictionary body on past the value |
| PdfParser.DictClosed | src/pdfparser.cpp:225-226 | ">>" ends the body with the entries collected so far, and storing the dictionary keeps the tables well formed |
| PdfParser.ArrayItemParsed | src/pdfparser.cpp:248-252 | a parsed value is appended and moves the array body on past the value |
| PdfParser.ArrayClosed | src/pdfparser.cpp:244-245 | "]" ends the body with the elements collected so far, and storing the array keeps the tables well formed |
| PdfParser.Parser.constructor | src/pdfparser.cpp:163-164 | a parser starts at the first token with empty tables |
| PdfParser.Parser.Advance | src/pdfparser.cpp:163-254 | accepting a token moves one token on and leaves the tables alone |
| PdfParser.Parser.Parse | src/pdfparser.cpp:163-181 | a definition is answered exactly when the tokens are "N G obj", one value of the grammar, at most "endobj", and nothing more; it carries that number and version, is well formed, uses the whole input, and its root, looked up through its tables, is the value the tokens describe |
| PdfParser.Parser.ParseValue | src/pdfparser.cpp:183-220 | a value is answered exactly when the tokens from the current one form a value of the grammar (a scalar token, "<<" and a dictionary body, "[" and an array body); the parser then stands just after it, the answer looked up through the tables is that value, and the tables only grew |
| PdfParser.Parser.ParseDict | src/pdfparser.cpp:222-239 | a dictionary is stored exactly when name and value pairs up to ">>" follow (any other token where a key belongs fails); it is stored last in the table, its index answered, and its entries are the parsed values, a later value for a key replacing an earlier one |
| PdfParser.Parser.ParseArray | src/pdfparser.cpp:241-254 | an array is stored exactly when values up to "]" follow; it is stored last in the table, its index answered, and its elements are the parsed values in order |
| PdfParser.CaseLessIrreflexive | src/pdfparser.cpp:279-281 | the case-insensitive comparison never puts a key before itself |
| PdfParser.CaseLessTransitive | src/pdfparser.cpp:279-281 | the case-insensitive comparison is transitive, so it is a valid sort order |
| PdfParser.InsertByCase | src/pdfparser.cpp:279-281 | inserting a key into a sorted list keeps it sorted and adds exactly that key |
| PdfParser.InsertBeforeFirst | src/pdfparser.cpp:279-281 | a key smaller than the first stays sorted in front |
| PdfParser.InsertAfterFirst | src/pdfparser.cpp:279-281 | a key not smaller than the first goes after it, keeping the list sorted |
| PdfParser.SortedDictKeys | src/pdfparser.cpp:273-286 | the pretty printer's key list is sorted case-insensitively and holds every key of the dictionary exactly once |
| Capi.ConvErr | src/capi.cpp:26-30 | success is code 0; an error is reported as its own ErrorCode number |
| Capi.NulFrom | src/capi.cpp:32-58 | the first NUL at or after a position: it is a NUL and nothing before it from that position is |
| Capi.CStringOf | src/capi.cpp:32-58 | the text of a NUL-terminated buffer is the prefix before its first NUL, and holds no NUL |
| Capi.ValidateAscii | src/capi.cpp:32-44 | NULL is ArgIsNull, a size below -1 is InvalidBufsize, non-ASCII text is NotASCII, ASCII text holding a NUL is EmbeddedNullInString (only a sized buffer can hold one); it succeeds exactly when the designated text is NUL-free ASCII, and then returns that text |
| Capi.ValidateUtf8 | src/capi.cpp:46-58 | the same argument checks; BadUtf8 for text that is not UTF-8, EmbeddedNullInString for UTF-8 text holding a NUL; it succeeds exactly when the designated text is NUL-free UTF-8, and then returns that text |
| Capi.NulAfterText | src/capi.cpp:32-58 | the terminating NUL of a text is found right after the text, whatever follows it |
| Capi.SizeConventionsAgree | src/capi.cpp:32-58 | a text passed with its length and the same text NUL-terminated (size -1) with any tail validate to the same answer, and valid text is returned unchanged |
| Capi.DocumentProperties.constructor | src/document.cpp:290-293 | new document properties give pages an A4 media box and are not tagged |
| Capi.DocumentProperties.SetDefaultPageProperties | src/capi.cpp:304-315 | properties without a media box are MissingMediabox and change nothing; otherwise they become the default, and tagging is untouched |
| Capi.DocumentProperties.SetTagged | src/capi.cpp:317-325 | an integer other than 0 or 1 is BadBoolean and changes nothing; otherwise tagging is on exactly for 1 |
| Capi.CheckBoolean | src/capi.cpp:17-20 | only 0 and 1 pass; anything else is BadBoolean |
| Capi.ColorObject.constructor | src/capi.cpp:1616-1622 | a new colour holds the colour given (black RGB in the C call) |
| Capi.ColorObject.SetSeparation | src/capi.cpp:1667-1678 | a tint outside [0, 1] is ColorOutOfRange and keeps the colour; otherwise the colour becomes that separation and tint |
| Capi.DestinationObject.constructor | src/capi.cpp:2500-2505 | a new destination is page 0 with an XYZ location where no coordinate is set |
| Capi.DestinationObject.Value | src/pdfcommon.hpp:612-615 | the destination value holds the object's page and location |
| Capi.DestinationObject.SetPageFit | src/capi.cpp:2507-2518 | a negative page is InvalidPageNumber and changes nothing; otherwise the page is set and the location is Fit |
| Capi.DestinationObject.SetPageXyz | src/capi.cpp:2520-2544 | the same page check; otherwise the location is XYZ with exactly the coordinates whose pointers were given |
| Capi.Annotation.Link | src/capi.cpp:2310-2315 | a new link annotation has neither a URI nor a destination, and no rectangle |
| Capi.Annotation.SetDestination | src/capi.cpp:2335-2348 | on a link, the destination is set and any URI cleared; any other annotation is IncorrectAnnotationType and keeps its contents; the rectangle never changes |
| Capi.Annotation.SetUri | src/capi.cpp:2350-2367 | a URI that fails ASCII validation is reported with that error whatever the annotation; then a non-link is IncorrectAnnotationType; on a link the URI is set and any destination cleared |
| Capi.FontProperties.constructor | src/pdfcommon.hpp:619-620 | new font properties select face 0 |
| Capi.FontProperties.SetSubfont | src/capi.cpp:2747-2758 | a face index outside [0, 65536) is InvalidSubfont and changes nothing; otherwise it is stored |
| Capi.AppendRawGlyph | src/capi.cpp:1395-1406 | glyph 0 is MissingGlyph and leaves the sequence unchanged; otherwise the sequence gains exactly one raw glyph with that codepoint |
| Capi.AppendLigatureGlyph | src/capi.cpp:1408-1425 | glyph 0 is MissingGlyph before the text is looked at; invalid UTF-8 is reported with its error; neither failure touches the sequence; otherwise one glyph carrying the text is appended |
| Capi.PdfShading.constructor | src/capi.cpp:2169-2232 | a new shading of the given kind has no elements |
| Capi.Type3ShadingNew | src/capi.cpp:2169-2178 | the six numbers become the two circles (x0, y0, r0) and (x1, y1, r1), in that order, with the function given |
| Capi.ConvShpoint | src/capi.cpp:97-103 | the vertex is the two numbers at the given position with the colour given |
| Capi.Type4GuardAsWritten | src/capi.cpp:2197-2200 | the guard as written fails only for a missing shading |
| Capi.Type4Guard | src/capi.cpp:2197-2200 | the intended guard passes exactly a Type 4 shading; anything else is IncorrectShadingType |
| Capi.Type4GuardPassesPatchMesh | src/capi.cpp:2193-2232 | a Coons patch mesh passes the guard as written but not the intended one |
| Capi.Type4AddTriangle | src/capi.cpp:2193-2208 | with the corrected kind guard, a shading that is not Type 4 is IncorrectShadingType and unchanged; otherwise three flag-0 vertices from the six numbers and three colours are appended, keeping every strip well formed |
| Capi.Type4Extend | src/capi.cpp:2210-2232 | with the corrected kind guard, wrong kind is IncorrectShadingType, a flag other than 1 or 2 is BadEnum, an empty strip is BadStripStart, and every error leaves the elements alone; otherwise exactly one vertex with that flag is appended |
| Capi.PointsOf | src/capi.cpp:105-113 | the points read from the number array: as many as asked for |
| Capi.GrabCoonsData | src/capi.cpp:105-113 | point i is the numbers at 2i and 2i+1, for every point asked for, and the colours are the first ones of the colour array |
| Capi.Type6AddPatch | src/capi.cpp:2253-2267 | a shading that is not a Coons mesh is IncorrectShadingType and unchanged; otherwise one full patch of 12 points and 4 colours is appended |
| Capi.Type6Extend | src/capi.cpp:2269-2296 | wrong kind is IncorrectShadingType, a flag outside 1 to 3 is BadEnum, an empty mesh is BadStripStart, and every error leaves the patches alone; otherwise one continuation patch of 8 points and 2 colours is appended |
| CapyPdf.CppCheck | include/capypdf.hpp:22-28 | the wrapper returns exactly when the C code is 0, and otherwise raises that code's message |
| CapyPdf.CheckedCallRaisesItsError | include/capypdf.hpp:22-28 | a C call that succeeds lets the wrapper return; one that fails makes it raise the message of the error the call reported |
| CapyPdf.NewType3Shading | include/capypdf.hpp:457-467 | a count other than 6 raises "Coords array must hold exactly 6 doubles"; six numbers become the two circles in order, with the function given |
| CapyPdf.WrapperFlagsNarrower | include/capypdf.hpp:535-537 | every flag the wrapper lets through is accepted by the C call, while flag 3, which the C call accepts, is refused by the wrapper |
| CapyPdf.Type4Shading.constructor | include/capypdf.hpp:480-484 | a new wrapper owns a fresh, empty Type 4 shading |
| CapyPdf.Type4Shading.AddTriangle | include/capypdf.hpp:485-498 | a count of numbers other than 6 or of colours other than 3 raises its message and changes nothing; otherwise three flag-0 vertices are appended |
| CapyPdf.Type4Shading.Extend | include/capypdf.hpp:499-507 | a flag other than 1 or 2, or a count other than 2, raises its message; an empty strip raises the BadStripStart message; nothing raised changes the shading; otherwise one vertex with that flag is appended |
| CapyPdf.Type6Shading.constructor | include/capypdf.hpp:514-518 | a new wrapper owns a fresh, empty Coons patch mesh |
| CapyPdf.Type6Shading.AddPatch | include/capypdf.hpp:519-532 | a count of numbers other than 24 or of colours other than 4 raises its message and changes nothing; otherwise one full patch is appended |
| CapyPdf.Type6Shading.Extend | include/capypdf.hpp:533-550 | a flag other than 1 or 2, 16 numbers missing (with the message that speaks of 2), or a colour count other than 2 raises; an empty mesh raises the BadStripStart message; nothing raised changes the mesh; otherwise one continuation patch is appended |
| CapyPdf.CGetSize | src/capi.cpp:1995-2010 | raw pixel and JPEG images answer (width, height); any other image, and only such, is UnsupportedFormat |
| CapyPdf.GetSizeMatchesC | include/capypdf.hpp:695-699 | the intended wrapper returns the C call's pair, the wrapper as written returns it swapped, and both raise the same message on error |
| CapyPdf.GetSizeAsWritten | include/capypdf.hpp:695-699 | as written, the call raises exactly for an unsupported image, and otherwise answers the intended pair with its halves exchanged: (height, width) |
| CapyPdf.GetSize | include/capypdf.hpp:695-699 | the intended wrapper raises exactly for an unsupported image, and otherwise answers (width, height) of the raw pixels or the JPEG |
| CapyPdf.GetSizeSwapsNonSquare | include/capypdf.hpp:695-699 | a 3-by-2 image is reported as (2, 3) by the wrapper as written and as (3, 2) by the intended one |

## Left out

- File and OS I/O are not modelled. This covers opening, syncing and renaming the output file, `ftell`, memory-mapped input, and file loading for fonts, ICC profiles and embedded files. The written file is the text produced so far, and writing never fails.
- The clock and random numbers are not modelled. This covers the date string and the trailer id.
- Foreign libraries are opaque. zlib stream compression is not modelled; streams are written as given. FreeType is a parameter: glyph advances, kerning and `FT_Get_Char_Index` are functions passed in. LittleCMS, the image file decoders and HarfBuzz are not part of this model.
- Floating point is modelled with reals. "%f" output is the value rounded to six decimals, a tie going to the even digit. This is what a correctly rounding printf writes in the default rounding mode for a value the double holds exactly; the rounding of a decimal constant to a double is not modelled. Mesh quantization, rotation, and `LimitDouble`'s NaN branch are not modelled.
- Handles hash by their id; the integer hash function itself is left abstract.
- Generator: the resource dictionary a context serializes is passed in. Object serialization of pages and form XObjects is not modelled beyond the bookkeeping that `add_page` and `add_form_xobject` do. Constructing the color converter and FreeType is not modelled.
- PdfParser: the regular-expression lexer `PdfLexer::next` is not modelled; the parser reads the token sequence it would produce. The pretty printer's output text is not modelled, only the order in which it prints dictionary keys.
- DrawContext: two glyph checks in `validate_text_contents` cannot be reached in the source. One checks the characters of Tj text and comes after a return. The other checks UTF-8 strings inside a TJ and is nested under the Unicode-character branch. The model has neither check.
- Type3Fonts.Type3Font.AddGlyph: the source reports a repeated codepoint as `CodepointAlreadyExists`, which is not an ErrorCode member. The model gives it an outcome of its own.
- Errors.ErrorText: src/errorhandling.cpp lists 80 messages, but src/errorhandling.hpp declares 78 codes. The last two messages, about font variations, have no code. The model's table holds the 78 messages that have one.
- Conditions on which the source aborts are preconditions. This covers a pop from an empty or mismatched object formatter stack, and XML writer misuse. It also covers a composite glyph expansion that overflows the subset (`CompositeFits`), `subset_hmtx` and `reassign_composite_glyph_numbers` on malformed input, and a second `add_simple_navigation` on one page context (src/drawcontext.cpp:1163-1165), which DrawContext.PdfDrawContext.AddSimpleNavigation requires not to have happened.
- BitFiddling and CffSubsetter positions are unbounded naturals. Buffers are required to be shorter than 2^63 bytes, so the source's size_t arithmetic cannot wrap.
- CffSubsetter.OperandOf: in the source, a read past the end of the DICT data throws from `std::string_view::at`. The model returns `Err(IndexOutOfBounds)`.
- CffSubsetter.Unpack: in the source, an escape byte 12 at the very end of the DICT data reads its second byte with `at`, which throws. The model returns `Err(IndexOutOfBounds)`.
- FontSubsetter.Components: in the source, a glyph index past the glyph table throws from `std::vector::at`, and a composite glyph shorter than its 10-byte header makes `subspan` undefined behaviour (src/ft_subsetter.cpp:1030). The model returns `Err(IndexOutOfBounds)` for both.
- CffSubsetter.OperandOf: the source decodes a byte-28 operand as an unsigned 16-bit value. Adobe Technical Note #5176 defines it as signed. The model follows the code.
- CffSubsetter.OperandOf: a real (byte 30) operand is skipped up to its terminating nibble and decodes as -1, as the source does. Reals are not decoded.
- CffSubsetter.ToInt32: the 32-bit shifts of a byte-29 operand are taken as producing the two's-complement value.
- CffSubsetter.DictRoundTrip: the round trip is stated for operators other than the escape byte 12 itself, and for operands in the 32-bit range.
- CffSubsetter.AppendIndexTo: the INDEX count is written truncated to 16 bits, as in the source. The read-back lemmas require fewer than 65536 entries.
- CffSubsetter.GetFontdictId: src/cffsubsetter.hpp declares a uint16 result and src/cffsubsetter.cpp a uint8. The model follows the .cpp.
- CffSubsetter.BuildFdselect3: range starts are 16-bit, so the strictly increasing starts are proved only for fonts of at most 65536 glyphs.
- `parse_cff_data` and `load_CFF_glyphs` are not part of this model. Only the INDEX, DICT and FDSelect routines they call are modelled.
- FtSubsetter.TtfChecksum: the checksum is the sum modulo 2^32, so it wraps as the source's uint32 does.
- Capi.Type6Extend: the C call checks the continuation flag (1, 2 or 3) but does not store it in the patch. The model does not record it either.
- Capi and CapyPdf: the count arguments of the C API and the wrapper are the lengths of the arrays passed. A shading's colour space and extents are not modelled.
- CapyPdf: with exceptions disabled, the wrapper prints the message and aborts instead of throwing. Both end the call with the message, which is what `Outcome.Raised` records.
- Generator.PdfGen.AddPage, Generator.PdfGen.SubmitPage, Generator.PdfGen.AddFormXObject, Generator.PdfGen.PopContext: these reset the context with the corrected DrawContext.PdfDrawContext.Clear and promise an empty context. The source calls `clear` as written (src/generator.cpp:120, 141), which keeps the used structure items and form XObjects, so a page context reused for a second page is refused with StructureReuse by the program. The as-written behaviour is DrawContext.PdfDrawContext.ClearAsWritten with DrawContext.ReusedContextKeepsStructures.
- Capi.Type4AddTriangle, Capi.Type4Extend: these use the corrected kind guard Capi.Type4Guard. The source tests the shading pointer instead (src/capi.cpp:2197-2200, 2216-2220), so a shading of another kind reaches a null Type 4 pointer, which is undefined behaviour; see Capi.Type4GuardAsWritten.
- FtSubsetter.LoadLoca: the model counts with an unbounded counter. The source's uint16_t counter never ends the loop at 65535 glyphs (src/ft_subsetter.cpp:438-453); see FtSubsetter.LocaLoopNeverEndsAt65535.
- ObjectFormat.ObjectFormatter.AddPdfString, ObjectFormat.ObjectFormatter.Steal, CommandStream.CommandStreamFormatter.Steal: the source passes text through "%s" or `c_str()` (src/objectformatter.cpp:125, 158; src/commandstreamformatter.cpp:163), which cuts it at the first NUL. The model keeps the whole text. The C API refuses strings with an embedded NUL (EmbeddedNullInString), so that text cannot reach these calls.
- XmlFormatter.XMLFormatter.StartTag, XmlFormatter.XMLFormatter.AddEndTag: `output.back()` on an empty output (src/xmlformatter.cpp:46, 104) is undefined behaviour. The model reads an empty output as not ending in '>'.
- Generator.Utf8TextWidth: a built-in font makes `fonts.at` throw `std::out_of_range` (src/generator.cpp:182). The model returns `Err(DynamicError)`, which is what the C entry point reports (src/capi.cpp:59-90); a C++ caller of `PdfGen` would see the exception instead. The font's face is a parameter, so an unknown font id, which also throws in `get`, is not modelled.
- FtSubsetter.OffsetTable.SetTableSizeOpenType: the corrected fields are unbounded integers. They are proved to fit the int16_t fields only below 2048 tables.

## Findings

| source | as written | input that shows it | evidently intended | confidence | as-written member | corrected member |
|---|---|---|---|---|---|---|
| src/capi.cpp:2197-2200 | the Type 4 calls test the shading pointer `sh`, which is never NULL, instead of the `get_if<ShadingType4>` result | a Coons patch mesh passed to `capy_type4_shading_add_triangle` gets past the guard and is used as a Type 4 shading | report IncorrectShadingType for any shading that is not Type 4 | high, not executed | Capi.Type4GuardAsWritten, Capi.Type4GuardPassesPatchMesh | Capi.Type4Guard |
| src/xmlformatter.cpp:20-22 | the digit test is `c >= '0' \|\| c <= '9'`, which every character passes | the tag name "a b" is accepted | accept only letters, digits and the name punctuation | high, not executed | XmlFormatter.IsValidTagNameAsWritten, XmlFormatter.SpaceInTagNameAccepted | XmlFormatter.CheckTagName |
| src/utils.cpp:467-469 | '&' is quoted as "&quot;" | the text "&" is read back as a double quote | quote '&' as "&amp;" | high, not executed | XmlFormatter.XmlQuoteCharAsWritten, XmlFormatter.AmpersandReadBackAsQuote | XmlFormatter.XmlQuoteChar, XmlFormatter.XmlUnquoteQuoted |
| src/pdfcommon.hpp:216-217 | `w()` returns y2 - y1 and `h()` returns x2 - x1 | the rectangle (0, 0, 2, 1) has `w()` 1 and `h()` 2 | width x2 - x1, height y2 - y1 | high, not executed | PdfCommon.WidthAsWritten, PdfCommon.AccessorsSwapped | PdfCommon.Width, PdfCommon.ConstructedExtent |
| src/ft_subsetter.cpp:438-453 | the `loca` loops count with a uint16_t `i <= num_glyphs` | a font with 65535 glyphs: `i` wraps to 0 and the loop never ends | a counter wide enough to reach num_glyphs + 1 | high, not executed | FtSubsetter.LocaLoopNeverEndsAt65535 | FtSubsetter.LoadLoca |
| src/ft_subsetter.cpp:63-78 | searchRange is built from the largest power of two strictly below the table count | eight tables give searchRange 64, entrySelector 2 and rangeShift 64 | the OpenType table directory values 128, 3 and 0 | medium, not executed | FtSubsetter.OffsetTable.SetTableSize, FtSubsetter.EightTablesAsWritten | FtSubsetter.OffsetTable.SetTableSizeOpenType, FtSubsetter.SearchFieldsAgreeOffPowersOfTwo |
| src/cffsubsetter.cpp:94-99 | an INDEX with count 0 returns without moving past its two count bytes | an empty INDEX followed by a one-entry INDEX: the second read finds the empty INDEX again | advance past the count, as section 5 of Adobe Technical Note #5176 lays the empty INDEX out | medium, not executed | CffSubsetter.LoadIndex, CffSubsetter.EmptyIndexRereadAsWritten | CffSubsetter.LoadIndexAdvancing |
| src/pdfparser.cpp:61-83 | every backslash sets the escape flag, including the second one of an escaped backslash | the body `\\)` followed by `)`: the first ')' is taken as escaped and the scan runs on | an escaped backslash escapes nothing after it | medium, not executed | PdfParser.LexStringAsWritten, PdfParser.EscapedBackslashExample | PdfParser.LexString, PdfParser.EscapesAreNeutral |
| src/drawcontext.cpp:121-140 | `clear` resets every usage record except the structure items and form XObjects used | a page context reused after `add_page` refuses the structure item its previous page used | reset the context to the state of a new one | medium, not executed | DrawContext.PdfDrawContext.ClearAsWritten, DrawContext.ReusedContextKeepsStructures | DrawContext.PdfDrawContext.Clear, DrawContext.ReusedContextStartsAfresh |
| include/capypdf.hpp:695-699 | `get_size` returns the pair {h, w} | a 3-by-2 JPEG is reported as (2, 3) | (w, h), the order the C call fills | low, not executed | CapyPdf.GetSizeAsWritten, CapyPdf.GetSizeSwapsNonSquare | CapyPdf.GetSize, CapyPdf.GetSizeMatchesC |
