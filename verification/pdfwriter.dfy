// The PDF writer (src/pdfwriter.cpp): the guards of `write_to_file`, font
// names, how finished objects are placed either in the file or in the object
// stream, the two kinds of cross-reference section, link destinations, page
// boxes and the parent/children links of structure elements.
//
// The file itself is modelled as the text written so far (`output`); its
// length is what `ftell` reports. Writing never fails in the model.

module PdfWriter {
  import opened Errors
  import opened Format
  import BitFiddling
  import opened PdfCommon
  import opened DocumentTypes
  import opened Document

  // ----- font names

  predicate Dropped(c: char) { c == ' ' || c == '\\' }

  /** A font name with every space and backslash removed, everything else kept in order. */
  function Cleaned(s: string): string
  {
    if s == [] then [] else Cleaned(s[..|s| - 1]) + (if Dropped(s[|s| - 1]) then [] else [s[|s| - 1]])
  }

  lemma {:induction false} CleanedHasNoDroppedCharacters(s: string)
    ensures forall i :: 0 <= i < |Cleaned(s)| ==> !Dropped(Cleaned(s)[i])
  {
    if s != [] {
      CleanedHasNoDroppedCharacters(s[..|s| - 1]);
    }
  }

  /** A name without spaces and backslashes is kept as it is; so cleaning twice changes nothing. */
  lemma {:induction false} CleanedKeepsCleanNames(s: string)
    requires forall i :: 0 <= i < |s| ==> !Dropped(s[i])
    ensures Cleaned(s) == s
  {
    if s != [] {
      CleanedKeepsCleanNames(s[..|s| - 1]);
      assert s[..|s| - 1] + [s[|s| - 1]] == s;
    }
  }

  lemma {:induction false} CleanedIdempotent(s: string)
    ensures Cleaned(Cleaned(s)) == Cleaned(s)
  {
    CleanedHasNoDroppedCharacters(s);
    CleanedKeepsCleanNames(Cleaned(s));
  }

  /** Cleaning works character by character: the pieces of a name are cleaned independently, in order. */
  lemma {:induction false} CleanedAppend(a: string, b: string)
    ensures Cleaned(a + b) == Cleaned(a) + Cleaned(b)
  {
    if b == [] {
      assert a + b == a;
    } else {
      assert (a + b)[..|a + b| - 1] == a + b[..|b| - 1];
      CleanedAppend(a, b[..|b| - 1]);
    }
  }

  /** `fontname2pdfname`. */
  method FontName2PdfName(original: string) returns (out: string)
    ensures out == Cleaned(original)
  {
    out := [];
    var i := 0;
    while i < |original|
      invariant 0 <= i <= |original|
      invariant out == Cleaned(original[..i])
    {
      assert original[..i + 1][..i] == original[..i];
      var c := original[i];
      if c != ' ' && c != '\\' {
        out := out + [c];
      }
      i := i + 1;
    }
    assert original[..i] == original;
  }

  /**
   * `snprintf(buf, 10, "%06d", n)`: the number zero-padded to six
   * characters, a minus sign counting as one of them; the buffer keeps at
   * most nine characters.
   */
  function Printf06(n: int): (r: string)
    ensures 6 <= |r| <= 9
  {
    var t := if n >= 0 then ZeroPadded(n, 6) else "-" + ZeroPadded(-n, 5);
    if |t| > 9 then t[..9] else t
  }

  /** The six letters 'A' + (character − '0') built from the formatted subset number. */
  function SubsetTag(n: int): (r: string)
    ensures |r| == 6
  {
    var digits := Printf06(n);
    seq(6, i requires 0 <= i < 6 => ('A' as int + (digits[i] as int - '0' as int)) as char)
  }

  /** `subsetfontname2pdfname`: the subset tag, '+', and the cleaned name. */
  method SubsetFontName2PdfName(original: string, subsetNumber: int) returns (out: string)
    ensures out == SubsetTag(subsetNumber) + "+" + Cleaned(original)
  {
    var buf := Printf06(subsetNumber);
    out := [];
    var i := 0;
    while i < 6
      invariant 0 <= i <= 6
      invariant out == SubsetTag(subsetNumber)[..i]
    {
      out := out + [('A' as int + (buf[i] as int - '0' as int)) as char];
      i := i + 1;
    }
    var cleaned := FontName2PdfName(original);
    out := out + "+" + cleaned;
  }

  function Pow10(k: nat): (r: nat)
    ensures r >= 1
  {
    if k == 0 then 1 else 10 * Pow10(k - 1)
  }

  /** A number below 10^k has at most k decimal digits. */
  lemma {:induction false} NatTextShort(n: nat, k: nat)
    requires 1 <= k && n < Pow10(k)
    ensures |NatText(n)| <= k
  {
    if n >= 10 {
      NatTextShort(n / 10, k - 1);
    }
  }

  /** The letters of a tag read back as the digits they stand for. */
  function TagDigits(tag: string): (r: string)
    requires forall i :: 0 <= i < |tag| ==> 'A' <= tag[i] <= 'J'
    ensures |r| == |tag|
  {
    seq(|tag|, i requires 0 <= i < |tag| => ('0' as int + (tag[i] as int - 'A' as int)) as char)
  }

  /**
   * For 0 <= n <= 999999 the tag is six letters from 'A' to 'J', one per
   * decimal digit of n zero-padded to six places, and it gives n back.
   */
  lemma {:induction false} SubsetTagRoundTrip(n: int)
    requires 0 <= n < 1000000
    ensures forall i :: 0 <= i < 6 ==> 'A' <= SubsetTag(n)[i] <= 'J'
    ensures TagDigits(SubsetTag(n)) == ZeroPadded(n, 6)
    ensures ParseDigits(TagDigits(SubsetTag(n))) == n
  {
    assert Pow10(6) == 1000000;
    NatTextShort(n, 6);
    var z := ZeroPadded(n, 6);
    assert |z| == 6 && Printf06(n) == z;
    assert TagDigits(SubsetTag(n)) == z;
    ZeroPaddedRoundTrip(n, 6);
  }

  /** Different subset numbers in range get different tags. */
  lemma {:induction false} SubsetTagInjective(m: int, n: int)
    requires 0 <= m < 1000000 && 0 <= n < 1000000
    requires SubsetTag(m) == SubsetTag(n)
    ensures m == n
  {
    SubsetTagRoundTrip(m);
    SubsetTagRoundTrip(n);
  }

  // ----- writing the file

  datatype PdfVersion = V13 | V14 | V15 | V16 | V17 | V20

  function VersionDigits(v: PdfVersion): (r: string)
    ensures |r| == 3
  {
    match v
    case V13 => "1.3"
    case V14 => "1.4"
    case V15 => "1.5"
    case V16 => "1.6"
    case V17 => "1.7"
    case V20 => "2.0"
  }

  /** Object streams and cross-reference streams exist from PDF 1.5 on. */
  predicate SupportsObjectStreams(v: PdfVersion)
  {
    !(v.V13? || v.V14?)
  }

  /** The header line and the comment of four high bytes that marks the file as binary. */
  function Header(v: PdfVersion): (r: string)
    ensures |r| == 15 && r[..5] == "%PDF-"
  {
    "%PDF-" + VersionDigits(v) + "\n%" + [0xe5 as char, 0xf6 as char, 0xc4 as char, 0xd6 as char] + "\n"
  }

  /**
   * `write_to_file`: a document without pages is refused, and so is every
   * call after the first, even when the first one failed, because the flag
   * is set before the file is opened. `io` is the outcome of opening,
   * writing, flushing, syncing, closing and renaming the file.
   */
  method WriteToFile(doc: PdfDocument, io: Status) returns (r: Status)
    modifies doc`writeAttempted
    ensures doc.pages == [] ==> r == Err(NoPages) && doc.writeAttempted == old(doc.writeAttempted)
    ensures doc.pages != [] && old(doc.writeAttempted) ==> r == Err(WritingTwice) && doc.writeAttempted
    ensures doc.pages != [] && !old(doc.writeAttempted) ==> r == io && doc.writeAttempted
  {
    if |doc.pages| == 0 {
      return Err(NoPages);
    }
    if doc.writeAttempted {
      return Err(WritingTwice);
    }
    doc.writeAttempted := true;
    r := io;
  }

  /** A document with pages is written at most once: a second attempt is refused whatever became of the first. */
  method WriteTwice(doc: PdfDocument, io1: Status, io2: Status) returns (first: Status, second: Status)
    requires doc.pages != [] && !doc.writeAttempted
    modifies doc`writeAttempted
    ensures first == io1 && second == Err(WritingTwice)
  {
    first := WriteToFile(doc, io1);
    second := WriteToFile(doc, io2);
  }

  /** Where an object was put: in the object stream (at an offset inside it) or in the file. */
  datatype ObjectOffset = ObjectOffset(storeCompressed: bool, offset: int)

  /** The text with a newline added unless it already ends with one. */
  function EndLine(s: string): (r: string)
    ensures |r| > 0 && r[|r| - 1] == '\n'
    ensures |r| >= |s| && r[..|s|] == s
  {
    if s != [] && s[|s| - 1] == '\n' then s else s + "\n"
  }

  function ObjectHead(objectNumber: int, dict: string): string
  {
    IntText(objectNumber) + " 0 obj\n" + dict
  }

  function StreamPart(stream: string): string
  {
    "stream\n" + stream + "\nendstream\n"
  }

  /** The text of an object written directly to the file. */
  function FinishedObject(objectNumber: int, dict: string, stream: string): (r: string)
  {
    var head := ObjectHead(objectNumber, dict);
    EndLine(if stream == [] then head else EndLine(head) + StreamPart(stream)) + "endobj\n"
  }

  lemma {:induction false} PrefixTransitive(a: string, b: string, c: string)
    requires |a| <= |b| <= |c| && b[..|a|] == a && c[..|b|] == b
    ensures c[..|a|] == a
  {
    assert c[..|a|] == c[..|b|][..|a|];
  }

  /** The head is a prefix of the body, whether or not a stream follows. */
  lemma {:induction false} HeadStartsBody(head: string, stream: string)
    ensures var body := if stream == [] then head else EndLine(head) + StreamPart(stream);
      |body| >= |head| && body[..|head|] == head
  {
    if stream != [] {
      var e := EndLine(head);
      PrefixTransitive(head, e, e + StreamPart(stream));
    }
  }

  /** A text ending in a newline, followed by "endobj\n", ends with "\nendobj\n". */
  lemma {:induction false} EndobjOnOwnLine(closed: string)
    requires |closed| > 0 && closed[|closed| - 1] == '\n'
    ensures var r := closed + "endobj\n"; |r| >= 8 && r[|r| - 8..] == "\nendobj\n"
  {
    var r := closed + "endobj\n";
    assert r[|r| - 8..] == [closed[|closed| - 1]] + "endobj\n";
  }

  /**
   * An object starts with "N 0 obj" and its dictionary and ends with
   * "endobj" on a line of its own.
   */
  lemma {:induction false} FinishedObjectFrame(objectNumber: int, dict: string, stream: string)
    ensures var r := FinishedObject(objectNumber, dict, stream);
      var head := ObjectHead(objectNumber, dict);
      && |r| >= |head| + 7 && |r| >= 8
      && r[..|head|] == head
      && r[|r| - 8..] == "\nendobj\n"
  {
    var head := ObjectHead(objectNumber, dict);
    var body := if stream == [] then head else EndLine(head) + StreamPart(stream);
    HeadStartsBody(head, stream);
    var closed := EndLine(body);
    PrefixTransitive(head, body, closed);
    PrefixTransitive(head, closed, closed + "endobj\n");
    EndobjOnOwnLine(closed);
    assert FinishedObject(objectNumber, dict, stream) == closed + "endobj\n";
  }

  /** A stream follows "stream" on a new line after the dictionary and is closed by "endstream" on a new line. */
  lemma {:induction false} FinishedObjectStream(objectNumber: int, dict: string, stream: string)
    requires stream != []
    ensures var r := FinishedObject(objectNumber, dict, stream);
      var at := |EndLine(ObjectHead(objectNumber, dict))|;
      && |r| >= at + |StreamPart(stream)|
      && r[at - 1] == '\n'
      && r[at..at + |StreamPart(stream)|] == StreamPart(stream)
  {
    var opening := EndLine(ObjectHead(objectNumber, dict));
    var body := opening + StreamPart(stream);
    assert body[|body| - 1] == '\n';
    assert EndLine(body) == body;
    var r := body + "endobj\n";
    assert r[|opening|..|opening| + |StreamPart(stream)|] == StreamPart(stream);
  }

  class PdfWriter {
    const compressObjects: bool
    var objectOffsets: seq<ObjectOffset>
    var objstmStream: string
    var output: string

    /**
     * Every entry points inside the object stream or the file; entries in the
     * object stream are in the order of their offsets.
     */
    ghost predicate Valid()
      reads this
    {
      && (forall i :: 0 <= i < |objectOffsets| ==> 0 <= objectOffsets[i].offset)
      && (forall i :: 0 <= i < |objectOffsets| && objectOffsets[i].storeCompressed ==>
            objectOffsets[i].offset <= |objstmStream|)
      && (forall i :: 0 <= i < |objectOffsets| && !objectOffsets[i].storeCompressed ==>
            objectOffsets[i].offset <= |output|)
      && (forall i, j :: 0 <= i < j < |objectOffsets| && objectOffsets[i].storeCompressed && objectOffsets[j].storeCompressed ==>
            objectOffsets[i].offset <= objectOffsets[j].offset)
    }

    /** The writer compresses objects exactly when the document's version is 1.5 or later. */
    constructor(version: PdfVersion)
      ensures compressObjects <==> SupportsObjectStreams(version)
      ensures objectOffsets == [] && objstmStream == [] && output == []
      ensures Valid()
    {
      compressObjects := SupportsObjectStreams(version);
      objectOffsets := [];
      objstmStream := [];
      output := [];
    }

    /** `write_header`. */
    method WriteHeader(version: PdfVersion)
      requires Valid()
      modifies this`output
      ensures Valid() && output == old(output) + Header(version)
    {
      output := output + Header(version);
    }

    /** The entry of the placeholder object 0, written before any other. */
    method AddDummyEntry()
      requires objectOffsets == []
      modifies this`objectOffsets
      ensures Valid() && objectOffsets == [ObjectOffset(false, 0)]
    {
      objectOffsets := [ObjectOffset(false, 0)];
    }

    /**
     * `write_finished_object`: when objects are compressed, a stream-less
     * object is appended to the object stream and recorded at its offset
     * there; anything else is written to the file and recorded at the file
     * position where it starts.
     */
    method WriteFinishedObject(objectNumber: int, dict: string, stream: string)
      requires Valid()
      modifies this`objectOffsets, this`objstmStream, this`output
      ensures Valid()
      ensures compressObjects && stream == [] ==>
                && objectOffsets == old(objectOffsets) + [ObjectOffset(true, |old(objstmStream)|)]
                && objstmStream == old(objstmStream) + dict
                && output == old(output)
      ensures !(compressObjects && stream == []) ==>
                && objectOffsets == old(objectOffsets) + [ObjectOffset(false, |old(output)|)]
                && output == old(output) + FinishedObject(objectNumber, dict, stream)
                && objstmStream == old(objstmStream)
    {
      if compressObjects && stream == [] {
        WriteFinishedObjectToObjstm(dict);
        return;
      }
      var text := FinishedObject(objectNumber, dict, stream);
      AppendToFile(text);
    }

    /** An object written to the file is recorded at the file position where it starts. */
    method AppendToFile(text: string)
      requires Valid()
      modifies this`objectOffsets, this`output
      ensures Valid()
      ensures objectOffsets == old(objectOffsets) + [ObjectOffset(false, |old(output)|)]
      ensures output == old(output) + text
    {
      objectOffsets := objectOffsets + [ObjectOffset(false, |output|)];
      output := output + text;
    }

    /** `write_finished_object_to_objstm`: the offset recorded is where the object starts in the object stream. */
    method WriteFinishedObjectToObjstm(dict: string)
      requires Valid()
      modifies this`objectOffsets, this`objstmStream
      ensures Valid()
      ensures objectOffsets == old(objectOffsets) + [ObjectOffset(true, |old(objstmStream)|)]
      ensures objstmStream == old(objstmStream) + dict
    {
      objectOffsets := objectOffsets + [ObjectOffset(true, |objstmStream|)];
      objstmStream := objstmStream + dict;
    }

    /** `write_cross_reference_table`: the classic table is appended to the file. */
    method WriteCrossReferenceTable()
      requires Valid()
      requires XrefTableWritable(objectOffsets)
      modifies this`output
      ensures Valid()
      ensures output == old(output) + XrefTable(objectOffsets)
    {
      var buf := CrossReferenceTable(objectOffsets);
      output := output + buf;
    }
  }

  // ----- the classic cross-reference table

  /** Every entry after the first is in the file (the source asserts this) at a non-negative offset. */
  predicate XrefTableWritable(offsets: seq<ObjectOffset>)
  {
    forall i :: 1 <= i < |offsets| ==> !offsets[i].storeCompressed && offsets[i].offset >= 0
  }

  const FreeLine: string := "0000000000 65535 f \n"

  /** An in-use entry: the offset as ten digits; with fewer than eleven digits the line is exactly 20 bytes. */
  function XrefLine(offset: nat): (r: string)
    ensures offset < 10000000000 ==> |r| == 20
  {
    XrefLineLength(offset);
    ZeroPadded(offset, 10) + " 00000 n \n"
  }

  /** The in-use lines of the entries `offsets`, in order. */
  function XrefLines(offsets: seq<ObjectOffset>): string
    requires forall i :: 0 <= i < |offsets| ==> offsets[i].offset >= 0
  {
    if offsets == [] then []
    else XrefLines(offsets[..|offsets| - 1]) + XrefLine(offsets[|offsets| - 1].offset)
  }

  /** The whole table: its subsection header, the free entry of object 0, then one line per object. */
  function XrefTable(offsets: seq<ObjectOffset>): string
    requires XrefTableWritable(offsets)
  {
    "xref\n0 " + NatText(|offsets|) + "\n" + (if offsets == [] then [] else FreeLine + XrefLines(offsets[1..]))
  }

  /** The table as the source builds it, line by line. */
  method CrossReferenceTable(offsets: seq<ObjectOffset>) returns (buf: string)
    requires XrefTableWritable(offsets)
    ensures buf == XrefTable(offsets)
  {
    buf := "xref\n0 " + NatText(|offsets|) + "\n";
    if offsets == [] {
      return;
    }
    var lines := XrefLinesOf(offsets[1..]);
    buf := buf + FreeLine + lines;
  }

  /** The loop of `write_cross_reference_table`: one line per in-use entry, in order. */
  method XrefLinesOf(entries: seq<ObjectOffset>) returns (buf: string)
    requires forall j :: 0 <= j < |entries| ==> entries[j].offset >= 0
    ensures buf == XrefLines(entries)
  {
    buf := [];
    for k := 0 to |entries|
      invariant buf == XrefLines(entries[..k])
    {
      XrefLinesSnoc(entries, k);
      buf := buf + XrefLine(entries[k].offset);
    }
    assert entries[..|entries|] == entries;
  }

  /** One more entry adds its line to the lines so far. */
  lemma {:induction false} XrefLinesSnoc(entries: seq<ObjectOffset>, k: nat)
    requires forall j :: 0 <= j < |entries| ==> entries[j].offset >= 0
    requires k < |entries|
    ensures XrefLines(entries[..k + 1]) == XrefLines(entries[..k]) + XrefLine(entries[k].offset)
  {
    assert entries[..k + 1][..k] == entries[..k];
  }

  /** An offset below 10^10 has ten digits once padded, as fixed-width entries require. */
  lemma {:induction false} XrefLineLength(offset: nat)
    ensures offset < 10000000000 ==> |ZeroPadded(offset, 10)| == 10
  {
    if offset < 10000000000 {
      assert Pow10(10) == 10000000000;
      NatTextShort(offset, 10);
    }
  }

  /** Slicing inside the left part of a concatenation. */
  lemma {:induction false} SliceOfLeft<T>(a: seq<T>, b: seq<T>, i: nat, j: nat)
    requires i <= j <= |a|
    ensures (a + b)[i..j] == a[i..j]
  {
  }

  /** Slicing out exactly the right part of a concatenation. */
  lemma {:induction false} SliceOfRight<T>(a: seq<T>, b: seq<T>)
    ensures (a + b)[|a|..|a| + |b|] == b
  {
  }

  function Concat(blocks: seq<string>): string
  {
    if blocks == [] then [] else Concat(blocks[..|blocks| - 1]) + blocks[|blocks| - 1]
  }

  /** Blocks of 20 bytes each: block k is found at bytes 20k up to 20k + 20. */
  lemma {:induction false} ConcatOfLines(blocks: seq<string>)
    requires forall i :: 0 <= i < |blocks| ==> |blocks[i]| == 20
    ensures |Concat(blocks)| == 20 * |blocks|
    ensures forall k :: 0 <= k < |blocks| ==> Concat(blocks)[20 * k..20 * k + 20] == blocks[k]
  {
    if blocks != [] {
      var n := |blocks| - 1;
      ConcatOfLines(blocks[..n]);
      var left := Concat(blocks[..n]);
      var right := blocks[n];
      forall k | 0 <= k < n
        ensures (left + right)[20 * k..20 * k + 20] == blocks[k]
      {
        EarlierBlock(blocks, n, k, left, right);
      }
      SliceOfRight(left, right);
    }
  }

  lemma {:induction false} EarlierBlock(blocks: seq<string>, n: nat, k: nat, left: string, right: string)
    requires k < n <= |blocks| && |left| == 20 * n
    requires left[20 * k..20 * k + 20] == blocks[..n][k]
    ensures (left + right)[20 * k..20 * k + 20] == blocks[k]
  {
    SliceOfLeft(left, right, 20 * k, 20 * k + 20);
  }

  /** The lines of the entries, one per entry. */
  function LinesOf(offsets: seq<ObjectOffset>): (r: seq<string>)
    requires forall i :: 0 <= i < |offsets| ==> offsets[i].offset >= 0
    ensures |r| == |offsets|
  {
    seq(|offsets|, i requires 0 <= i < |offsets| => XrefLine(offsets[i].offset))
  }

  lemma {:induction false} XrefLinesAreConcat(offsets: seq<ObjectOffset>)
    requires forall i :: 0 <= i < |offsets| ==> offsets[i].offset >= 0
    ensures XrefLines(offsets) == Concat(LinesOf(offsets))
  {
    if offsets != [] {
      XrefLinesAreConcat(offsets[..|offsets| - 1]);
      assert LinesOf(offsets)[..|offsets| - 1] == LinesOf(offsets[..|offsets| - 1]);
    }
  }

  /**
   * With every offset below 10^10 the in-use lines are 20 bytes each, and
   * line k holds the offset of entry k.
   */
  lemma {:induction false} XrefLinesLayout(offsets: seq<ObjectOffset>)
    requires forall i :: 0 <= i < |offsets| ==> 0 <= offsets[i].offset < 10000000000
    ensures |XrefLines(offsets)| == 20 * |offsets|
    ensures forall k :: 0 <= k < |offsets| ==> XrefLines(offsets)[20 * k..20 * k + 20] == XrefLine(offsets[k].offset)
  {
    var lines := LinesOf(offsets);
    forall i | 0 <= i < |lines|
      ensures |lines[i]| == 20
    {
      assert lines[i] == XrefLine(offsets[i].offset);
    }
    XrefLinesAreConcat(offsets);
    ConcatOfLines(lines);
    var all := XrefLines(offsets);
    assert all == Concat(lines);
    forall k | 0 <= k < |offsets|
      ensures all[20 * k..20 * k + 20] == XrefLine(offsets[k].offset)
    {
      assert all[20 * k..20 * k + 20] == lines[k];
    }
  }

  // ----- the cross-reference stream

  /** A cross-reference stream entry: its type and its two fields, 1 + 8 + 4 bytes wide. */
  datatype XrefEntry = XrefEntry(kind: int, field2: int, field3: int)

  const TwoTo32: int := 0x1_0000_0000

  predicate EntryFits(e: XrefEntry)
  {
    0 <= e.kind < 256 && 0 <= e.field2 < BitFiddling.TwoTo64 && 0 <= e.field3 < TwoTo32
  }

  /** The three fields, each written big-endian as `swap_and_append_bytes` does. */
  function EncodeEntry(e: XrefEntry): (r: seq<BitFiddling.Byte>)
    requires EntryFits(e)
    ensures |r| == 13
  {
    assert BitFiddling.Pow256(1) == 256 && BitFiddling.Pow256(4) == TwoTo32
      && BitFiddling.Pow256(8) == BitFiddling.TwoTo64;
    BitFiddling.ByteSwap(BitFiddling.LeBytes(e.kind, 1))
      + BitFiddling.ByteSwap(BitFiddling.LeBytes(e.field2, 8))
      + BitFiddling.ByteSwap(BitFiddling.LeBytes(e.field3, 4))
  }

  /** How many of `offsets` are in the object stream. */
  function CompressedCount(offsets: seq<ObjectOffset>): (n: nat)
    ensures n <= |offsets|
  {
    if offsets == [] then 0
    else CompressedCount(offsets[..|offsets| - 1]) + (if offsets[|offsets| - 1].storeCompressed then 1 else 0)
  }

  /**
   * Entry k of the stream: object 0 is free (type 0, next free 0,
   * generation 0xFFFFFFFF); an object in the object stream is type 2 with
   * its index among the compressed objects; any other is type 1 with its
   * file offset.
   */
  function EntryAt(offsets: seq<ObjectOffset>, k: nat, objstmNumber: int): XrefEntry
    requires k < |offsets|
  {
    if k == 0 then XrefEntry(0, 0, TwoTo32 - 1)
    else if offsets[k].storeCompressed then XrefEntry(2, objstmNumber, CompressedCount(offsets[1..k]))
    else XrefEntry(1, offsets[k].offset, 0)
  }

  predicate StreamWritable(offsets: seq<ObjectOffset>, objstmNumber: int)
  {
    && 0 <= objstmNumber < BitFiddling.TwoTo64
    && |offsets| < TwoTo32
    && forall i :: 0 <= i < |offsets| ==> 0 <= offsets[i].offset < BitFiddling.TwoTo64
  }

  lemma {:induction false} EntryAtFits(offsets: seq<ObjectOffset>, k: nat, objstmNumber: int)
    requires StreamWritable(offsets, objstmNumber) && k < |offsets|
    ensures EntryFits(EntryAt(offsets, k, objstmNumber))
  {
    if k > 0 && offsets[k].storeCompressed {
      assert CompressedCount(offsets[1..k]) <= k - 1;
    }
  }

  /** The encoded entries of the first n recorded objects. */
  function EncodedEntries(offsets: seq<ObjectOffset>, n: nat, objstmNumber: int): (r: seq<BitFiddling.Byte>)
    requires StreamWritable(offsets, objstmNumber) && n <= |offsets|
    ensures |r| == 13 * n
  {
    if n == 0 then []
    else
      EntryAtFits(offsets, n - 1, objstmNumber);
      EncodedEntries(offsets, n - 1, objstmNumber) + EncodeEntry(EntryAt(offsets, n - 1, objstmNumber))
  }

  /** Entry k occupies bytes 13k up to 13k + 13. */
  lemma {:induction false} EncodedEntriesLayout(offsets: seq<ObjectOffset>, n: nat, objstmNumber: int)
    requires StreamWritable(offsets, objstmNumber) && n <= |offsets|
    ensures forall k :: 0 <= k < n ==>
              EntryFits(EntryAt(offsets, k, objstmNumber))
              && EncodedEntries(offsets, n, objstmNumber)[13 * k..13 * k + 13] == EncodeEntry(EntryAt(offsets, k, objstmNumber))
  {
    if n > 0 {
      EncodedEntriesLayout(offsets, n - 1, objstmNumber);
      EntryAtFits(offsets, n - 1, objstmNumber);
      var left := EncodedEntries(offsets, n - 1, objstmNumber);
      var right := EncodeEntry(EntryAt(offsets, n - 1, objstmNumber));
      forall k | 0 <= k < n - 1
        ensures (left + right)[13 * k..13 * k + 13] == EncodeEntry(EntryAt(offsets, k, objstmNumber))
      {
        SliceOfLeft(left, right, 13 * k, 13 * k + 13);
      }
      SliceOfRight(left, right);
      forall k | 0 <= k < n
        ensures EntryFits(EntryAt(offsets, k, objstmNumber))
      {
        EntryAtFits(offsets, k, objstmNumber);
      }
    }
  }

  /**
   * The stream part of `write_cross_reference_stream`: one entry per
   * recorded object, then the object stream and the cross-reference stream
   * itself as type-1 entries; 13 bytes per entry in all.
   */
  method CrossReferenceStream(offsets: seq<ObjectOffset>, objstmNumber: int, objstmOffset: int, thisOffset: int)
    returns (stream: seq<BitFiddling.Byte>)
    requires StreamWritable(offsets, objstmNumber)
    requires 0 <= objstmOffset < BitFiddling.TwoTo64 && 0 <= thisOffset < BitFiddling.TwoTo64
    ensures stream == EncodedEntries(offsets, |offsets|, objstmNumber)
                      + EncodeEntry(XrefEntry(1, objstmOffset, 0)) + EncodeEntry(XrefEntry(1, thisOffset, 0))
    ensures |stream| == 13 * (|offsets| + 2)
  {
    stream := [];
    var compressedIndex := 0;
    var i := 0;
    while i < |offsets|
      invariant 0 <= i <= |offsets|
      invariant compressedIndex == if i == 0 then 0 else CompressedCount(offsets[1..i])
      invariant stream == EncodedEntries(offsets, i, objstmNumber)
    {
      var e;
      e, compressedIndex := NextEntry(offsets, i, objstmNumber, compressedIndex);
      EntryAtFits(offsets, i, objstmNumber);
      stream := stream + EncodeEntry(e);
      i := i + 1;
    }
    stream := stream + EncodeEntry(XrefEntry(1, objstmOffset, 0));
    stream := stream + EncodeEntry(XrefEntry(1, thisOffset, 0));
  }

  /** The entry of object i and the count of compressed objects after it: one step of the source's loop. */
  method NextEntry(offsets: seq<ObjectOffset>, i: nat, objstmNumber: int, compressedIndex: int) returns (e: XrefEntry, next: int)
    requires i < |offsets|
    requires compressedIndex == if i == 0 then 0 else CompressedCount(offsets[1..i])
    ensures e == EntryAt(offsets, i, objstmNumber)
    ensures next == CompressedCount(offsets[1..i + 1])
  {
    next := compressedIndex;
    if i == 0 {
      e := XrefEntry(0, 0, TwoTo32 - 1);
    } else if offsets[i].storeCompressed {
      e := XrefEntry(2, objstmNumber, compressedIndex);
      next := compressedIndex + 1;
    } else {
      e := XrefEntry(1, offsets[i].offset, 0);
    }
    if i >= 1 {
      assert offsets[1..i + 1][..i - 1] == offsets[1..i];
    }
  }

  /** The free entry comes first, and each compressed object is a type-2 entry in the object stream. */
  lemma {:induction false} StreamEntryKinds(offsets: seq<ObjectOffset>, k: nat, objstmNumber: int)
    requires k < |offsets|
    ensures k == 0 ==> EntryAt(offsets, k, objstmNumber).kind == 0
    ensures k > 0 && offsets[k].storeCompressed ==>
              EntryAt(offsets, k, objstmNumber).kind == 2 && EntryAt(offsets, k, objstmNumber).field2 == objstmNumber
    ensures k > 0 && !offsets[k].storeCompressed ==>
              EntryAt(offsets, k, objstmNumber) == XrefEntry(1, offsets[k].offset, 0)
  {
  }

  /** Compressed objects get indices in their order: a later compressed object has a larger index. */
  lemma {:induction false} CompressedIndicesIncrease(offsets: seq<ObjectOffset>, k1: nat, k2: nat, objstmNumber: int)
    requires 1 <= k1 < k2 < |offsets|
    requires offsets[k1].storeCompressed && offsets[k2].storeCompressed
    ensures EntryAt(offsets, k1, objstmNumber).field3 < EntryAt(offsets, k2, objstmNumber).field3
  {
    CompressedCountMonotone(offsets[1..k2], k1 - 1);
    assert offsets[1..k2][..k1 - 1] == offsets[1..k1];
    assert offsets[1..k2][..k1] == offsets[1..k1 + 1];
    assert offsets[1..k1 + 1][..k1 - 1] == offsets[1..k1];
  }

  /** The first compressed object has index 0 and the last has the number of compressed objects minus one. */
  lemma {:induction false} CompressedIndicesRange(offsets: seq<ObjectOffset>, k: nat, objstmNumber: int)
    requires 1 <= k < |offsets| && offsets[k].storeCompressed
    ensures 0 <= EntryAt(offsets, k, objstmNumber).field3 < CompressedCount(offsets[1..])
  {
    CompressedCountMonotone(offsets[1..], k);
    assert offsets[1..][..k - 1] == offsets[1..k];
    assert offsets[1..][..k] == offsets[1..k + 1];
    assert offsets[1..k + 1][..k - 1] == offsets[1..k];
  }

  /** Counting a longer prefix never gives less; counting one more compressed entry gives one more. */
  lemma {:induction false} CompressedCountMonotone(s: seq<ObjectOffset>, n: nat)
    requires n <= |s|
    ensures CompressedCount(s[..n]) <= CompressedCount(s)
    ensures n < |s| && s[n].storeCompressed ==> CompressedCount(s[..n]) < CompressedCount(s[..n + 1]) <= CompressedCount(s)
    decreases |s| - n
  {
    if n < |s| {
      assert s[..n + 1][..n] == s[..n];
      CompressedCountMonotone(s, n + 1);
    } else {
      assert s[..n] == s;
    }
  }

  // ----- annotations, pages and structure elements

  /** The page object a link destination points at; a page outside the document is refused. */
  function LinkDestinationObject(page: int, pages: seq<PageOffsets>): (r: Rvoe<int>)
    ensures r.Ok? <==> 0 <= page < |pages|
    ensures r.Err? ==> r == Err(InvalidPageNumber)
  {
    if page < 0 || page >= |pages| then Err(InvalidPageNumber) else Ok(pages[page].pageObjNum)
  }

  /** In a consistent document the destination is the page object of that very page. */
  lemma {:induction false} LinkDestinationIsPage(page: int, pages: seq<PageOffsets>, objects: seq<DocObject>)
    requires PagesValid(pages, objects)
    requires LinkDestinationObject(page, pages).Ok?
    ensures var n := LinkDestinationObject(page, pages).value;
      0 < n < |objects| && objects[n].PageObject? && objects[n].page.pageNum == page
  {
  }

  /** A page box as written: its name and rectangle. */
  datatype PageBox = PageBox(name: string, box: PdfRectangle)

  function OptionalBox(name: string, b: Option<PdfRectangle>): seq<PageBox>
  {
    if b.Some? then [PageBox(name, b.value)] else []
  }

  /**
   * The boxes of a page: the document defaults merged with the page's own
   * properties; the media box always, the other four when set.
   */
  function PageBoxes(defaults: PageProperties, custom: PageProperties): (r: seq<PageBox>)
    requires MergeWith(defaults, custom).mediabox.Some?
    ensures r != [] && r[0] == PageBox("MediaBox", MergeWith(defaults, custom).mediabox.value)
  {
    var p := MergeWith(defaults, custom);
    [PageBox("MediaBox", p.mediabox.value)]
      + OptionalBox("CropBox", p.cropbox) + OptionalBox("BleedBox", p.bleedbox)
      + OptionalBox("TrimBox", p.trimbox) + OptionalBox("ArtBox", p.artbox)
  }

  /** The box called `name` is listed with the value `b` holds, and not at all when `b` is unset. */
  predicate ListsBox(boxes: seq<PageBox>, name: string, b: Option<PdfRectangle>)
  {
    (b.Some? ==> PageBox(name, b.value) in boxes) && (b.None? ==> forall x :: x in boxes ==> x.name != name)
  }

  /** A box the page sets wins over the default; a box the page leaves unset comes from the defaults. */
  lemma {:induction false} PageBoxesPreferPage(defaults: PageProperties, custom: PageProperties)
    requires defaults.mediabox.Some?
    ensures PageBoxes(defaults, custom)[0].box == (if custom.mediabox.Some? then custom.mediabox.value else defaults.mediabox.value)
    ensures ListsBox(PageBoxes(defaults, custom), "CropBox", if custom.cropbox.Some? then custom.cropbox else defaults.cropbox)
    ensures ListsBox(PageBoxes(defaults, custom), "BleedBox", if custom.bleedbox.Some? then custom.bleedbox else defaults.bleedbox)
    ensures ListsBox(PageBoxes(defaults, custom), "TrimBox", if custom.trimbox.Some? then custom.trimbox else defaults.trimbox)
    ensures ListsBox(PageBoxes(defaults, custom), "ArtBox", if custom.artbox.Some? then custom.artbox else defaults.artbox)
  {
    var p := MergeWith(defaults, custom);
    var media, crop, bleed := [PageBox("MediaBox", p.mediabox.value)], OptionalBox("CropBox", p.cropbox), OptionalBox("BleedBox", p.bleedbox);
    var trim, art := OptionalBox("TrimBox", p.trimbox), OptionalBox("ArtBox", p.artbox);
    var r := PageBoxes(defaults, custom);
    assert r == media + crop + bleed + trim + art;
    assert forall x :: x in r <==> x in media || x in crop || x in bleed || x in trim || x in art;
  }

  /** The object a structure element names as its /P: the tree root, or its parent's object. */
  function ParentObject(items: seq<StructItem>, i: nat, rootObject: int): (r: int)
    requires StructureParentsEarlier(items) && i < |items|
    ensures items[i].parent.None? ==> r == rootObject
    ensures items[i].parent.Some? ==> r == items[items[i].parent.value.id].objId
  {
    if items[i].parent.Some? then items[items[i].parent.value.id].objId else rootObject
  }

  /** Item j names, through its parent's object, the object of item `target`. */
  predicate ChildOf(items: seq<StructItem>, j: nat, target: nat)
    requires StructureParentsEarlier(items) && j < |items| && target < |items|
  {
    items[j].parent.Some? && items[items[j].parent.value.id].objId == items[target].objId
  }

  /** The children of `target` among the first n items, in index order. */
  function ChildrenAmong(items: seq<StructItem>, target: nat, n: nat): seq<int>
    requires StructureParentsEarlier(items) && target < |items| && n <= |items|
  {
    if n == 0 then []
    else ChildrenAmong(items, target, n - 1) + (if ChildOf(items, n - 1, target) then [n - 1] else [])
  }

  /** The children loop of `write_delayed_structure_item`. */
  method StructureChildren(items: seq<StructItem>, target: nat) returns (children: seq<int>)
    requires StructureParentsEarlier(items) && target < |items|
    ensures children == ChildrenAmong(items, target, |items|)
  {
    children := [];
    var i := 0;
    while i < |items|
      invariant 0 <= i <= |items|
      invariant children == ChildrenAmong(items, target, i)
    {
      if items[i].parent.Some? {
        var currentParent := items[items[i].parent.value.id].objId;
        if currentParent == items[target].objId {
          children := children + [i];
        }
      }
      i := i + 1;
    }
  }

  /**
   * Because every item has its own object, the children found are exactly
   * the items whose parent is `target`, listed in increasing index order.
   */
  lemma {:induction false} ChildrenAreThoseWithThatParent(items: seq<StructItem>, objects: seq<DocObject>, target: nat, n: nat)
    requires StructureValid(items, objects) && target < |items| && n <= |items|
    ensures forall j :: j in ChildrenAmong(items, target, n) <==>
              0 <= j < n && items[j].parent == Some(Handle(target))
    ensures forall a, b :: 0 <= a < b < |ChildrenAmong(items, target, n)| ==>
              ChildrenAmong(items, target, n)[a] < ChildrenAmong(items, target, n)[b]
    ensures forall a :: 0 <= a < |ChildrenAmong(items, target, n)| ==> 0 <= ChildrenAmong(items, target, n)[a] < n
  {
    if n > 0 {
      ChildrenAreThoseWithThatParent(items, objects, target, n - 1);
      var j := n - 1;
      if items[j].parent.Some? {
        var p := items[j].parent.value.id;
        assert objects[items[p].objId] == StructItemObject(p);
        assert objects[items[target].objId] == StructItemObject(target);
        assert ChildOf(items, j, target) <==> p == target;
      }
    }
  }

  /** What a structure element's /K holds. */
  datatype Kids = ChildElements(objs: seq<int>) | MarkedContentOnPage(pageObject: int, mcid: int) | NoKids

  /**
   * /K of a structure element: the objects of its children when it has any;
   * otherwise, when it is used on a page, that page's object (as /Pg) and its
   * MCID; otherwise nothing.
   */
  function StructureKids(items: seq<StructItem>, use: map<StructureItemId, StructureUsage>, pages: seq<PageOffsets>, target: nat): (r: Kids)
    requires StructureParentsEarlier(items) && target < |items| && UseValid(use, |pages|)
    ensures var ch := ChildrenAmong(items, target, |items|);
      && (ch != [] ==> r.ChildElements? && |r.objs| == |ch|)
      && (ch == [] && Handle(target) in use ==>
            r == MarkedContentOnPage(pages[use[Handle(target)].pageNum].pageObjNum, use[Handle(target)].mcidNum))
      && (ch == [] && Handle(target) !in use ==> r == NoKids)
  {
    var ch := ChildrenAmong(items, target, |items|);
    if ch != [] then
      ChildrenAreThoseWithThatParentBounds(items, target, |items|);
      ChildElements(seq(|ch|, k requires 0 <= k < |ch| => items[ch[k]].objId))
    else if Handle(target) in use then
      var u := use[Handle(target)];
      MarkedContentOnPage(pages[u.pageNum].pageObjNum, u.mcidNum)
    else NoKids
  }

  /** Children lie among the items, so their objects can be looked up. */
  lemma {:induction false} ChildrenAreThoseWithThatParentBounds(items: seq<StructItem>, target: nat, n: nat)
    requires StructureParentsEarlier(items) && target < |items| && n <= |items|
    ensures forall a :: 0 <= a < |ChildrenAmong(items, target, n)| ==> 0 <= ChildrenAmong(items, target, n)[a] < n
  {
    if n > 0 {
      ChildrenAreThoseWithThatParentBounds(items, target, n - 1);
    }
  }
}
