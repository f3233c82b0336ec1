// TrueType table readers and writers used by the font subsetter
// (src/ft_subsetter.cpp, src/ft_subsetter.hpp).
//
// A font file is a byte sequence; every multi-byte field is big-endian, read
// with `extract` followed by a byte swap (BitFiddling.ExtractAndSwap). Signed
// fields are the two's-complement reading of the unsigned value.

module FtSubsetter {
  import opened Errors
  import opened BitFiddling

  const TwoTo16: int := 0x1_0000
  const TwoTo32: int := 0x1_0000_0000

  /** The signed reading of a 16-bit field. */
  function Int16(v: nat): (r: int)
    requires v < TwoTo16
    ensures -0x8000 <= r < 0x8000
    ensures r < 0 <==> v >= 0x8000
  {
    if v < 0x8000 then v else v - TwoTo16
  }

  /** An int stored into an int16_t field: reduced modulo 2^16 into the signed range. */
  function WrapInt16(x: int): (r: int)
    ensures -0x8000 <= r < 0x8000
    ensures (r - x) % TwoTo16 == 0
    ensures -0x8000 <= x < 0x8000 ==> r == x
  {
    Int16(x % TwoTo16)
  }

  /** The signed reading of a 32-bit field. */
  function Int32(v: nat): (r: int)
    requires v < TwoTo32
    ensures -0x8000_0000 <= r < 0x8000_0000
    ensures r < 0 <==> v >= 0x8000_0000
  {
    if v < 0x8000_0000 then v else v - TwoTo32
  }

  // ---------------------------------------------------------------------
  // Glyph entries of a subset (src/ft_subsetter.hpp)
  // ---------------------------------------------------------------------

  /** `TTGlyphs`: an entry of the subset's glyph list. */
  datatype TTGlyph =
    | RegularGlyph(codepoint: nat, glyphIndex: nat)
    | CompositeGlyph(glyphIndex: nat)
    | LigatureGlyph(text: string, glyphIndex: nat)

  /** The .notdef entry every subset starts with; its glyph index is `(uint32_t)-1`. */
  const Notdef: TTGlyph := RegularGlyph(0, 0xFFFF_FFFF)

  /**
   * `font_id_for_glyph`: the glyph's index in the original font. A regular
   * glyph for codepoint 0 is .notdef and maps to glyph 0 whatever its
   * stored index.
   */
  function FontIdForGlyph(g: TTGlyph): (r: nat)
    ensures g.RegularGlyph? && g.codepoint == 0 ==> r == 0
    ensures !(g.RegularGlyph? && g.codepoint == 0) ==> r == g.glyphIndex
  {
    if g.RegularGlyph? && g.codepoint == 0 then 0 else g.glyphIndex
  }

  /** The .notdef entry maps to glyph 0 although it stores 0xFFFFFFFF. */
  lemma {:induction false} NotdefIsGlyphZero()
    ensures Notdef.glyphIndex != 0 && FontIdForGlyph(Notdef) == 0
  {
  }

  // ---------------------------------------------------------------------
  // Table checksums
  // ---------------------------------------------------------------------

  function Zeros(n: nat): (r: seq<Byte>)
    ensures |r| == n && forall i :: 0 <= i < n ==> r[i] == 0
  {
    seq(n, _ => 0)
  }

  /**
   * The big-endian 32-bit word made of `w` followed by zero bytes: what
   * `memcpy` of a short tail into a zeroed word and a byte swap produce.
   */
  function PaddedWord(w: seq<Byte>): (r: nat)
    requires |w| <= 4
  {
    BeValue(w + Zeros(4 - |w|))
  }

  /** The sum, without wrap-around, of the data read as big-endian words. */
  function WordSum(data: seq<Byte>): (r: nat)
    decreases |data|
  {
    if |data| == 0 then 0
    else if |data| < 4 then PaddedWord(data)
    else BeValue(data[..4]) + WordSum(data[4..])
  }

  /** A TrueType table checksum: the word sum modulo 2^32. */
  function Checksum(data: seq<Byte>): (r: nat)
    ensures r < TwoTo32
  {
    WordSum(data) % TwoTo32
  }

  lemma {:induction false} ModAdd(a: int, b: int)
    ensures (a % TwoTo32 + b) % TwoTo32 == (a + b) % TwoTo32
  {
    var q := a / TwoTo32;
    assert a == q * TwoTo32 + a % TwoTo32;
    assert a + b == (a % TwoTo32 + b) + q * TwoTo32;
  }

  /** `ttf_checksum`: sums whole words, then the zero-padded tail, in uint32 arithmetic. */
  method TtfChecksum(data: seq<Byte>) returns (checksum: nat)
    ensures checksum == Checksum(data)
  {
    checksum := 0;
    var offset := 0;
    while offset + 4 <= |data|
      invariant offset <= |data|
      invariant checksum < TwoTo32
      invariant (checksum + WordSum(data[offset..])) % TwoTo32 == WordSum(data) % TwoTo32
    {
      var rest := data[offset..];
      assert rest[..4] == data[offset..offset + 4];
      assert rest[4..] == data[offset + 4..];
      var next := (checksum + BeValue(data[offset..offset + 4])) % TwoTo32;
      ModAdd(checksum + BeValue(data[offset..offset + 4]), WordSum(data[offset + 4..]));
      checksum := next;
      offset := offset + 4;
    }
    var tail := data[offset..];
    if |tail| != 0 {
      ModAdd(checksum + PaddedWord(tail), 0);
      checksum := (checksum + PaddedWord(tail)) % TwoTo32;
    } else {
      ModAdd(checksum, 0);
    }
  }

  /** Padding the data with zero bytes up to a word boundary leaves the checksum unchanged. */
  lemma {:induction false} ChecksumOfPadded(data: seq<Byte>)
    ensures WordSum(data + Zeros((4 - |data| % 4) % 4)) == WordSum(data)
    decreases |data|
  {
    var padded := data + Zeros((4 - |data| % 4) % 4);
    if |data| == 0 {
      assert padded == [];
    } else if |data| < 4 {
      assert padded == data + Zeros(4 - |data|);
      assert padded[..4] == padded && padded[4..] == [];
    } else {
      assert padded[..4] == data[..4];
      assert padded[4..] == data[4..] + Zeros((4 - |data[4..]| % 4) % 4);
      ChecksumOfPadded(data[4..]);
    }
  }

  /** Checksums of word-aligned pieces add up modulo 2^32. */
  lemma {:induction false} ChecksumAppend(a: seq<Byte>, b: seq<Byte>)
    requires |a| % 4 == 0
    ensures Checksum(a + b) == (Checksum(a) + Checksum(b)) % TwoTo32
  {
    WordSumAppend(a, b);
    ModAdd(WordSum(a), WordSum(b));
    ModAdd(WordSum(b), Checksum(a));
  }

  lemma {:induction false} WordSumAppend(a: seq<Byte>, b: seq<Byte>)
    requires |a| % 4 == 0
    ensures WordSum(a + b) == WordSum(a) + WordSum(b)
    decreases |a|
  {
    if |a| == 0 {
      assert a + b == b;
    } else {
      assert (a + b)[..4] == a[..4];
      assert (a + b)[4..] == a[4..] + b;
      WordSumAppend(a[4..], b);
    }
  }

  // ---------------------------------------------------------------------
  // The offset table (sfnt header)
  // ---------------------------------------------------------------------

  function Pow2(e: nat): (r: nat)
    ensures r >= 1
  {
    if e == 0 then 1 else 2 * Pow2(e - 1)
  }

  lemma {:induction false} Pow2Monotone(a: nat, b: nat)
    requires a <= b
    ensures Pow2(a) <= Pow2(b)
    decreases b
  {
    if a < b {
      Pow2Monotone(a, b - 1);
    }
  }

  /**
   * The binary-search fields of the sfnt offset table as the table-directory
   * definition of the OpenType specification gives them: searchRange is
   * 16 times the largest power of two not above the table count,
   * entrySelector is that power's exponent.
   */
  predicate OpenTypeSearchFields(numTables: int, searchRange: int, entrySelector: int, rangeShift: int)
  {
    0 <= entrySelector && numTables >= 1 &&
    Pow2(entrySelector) <= numTables < 2 * Pow2(entrySelector) &&
    searchRange == 16 * Pow2(entrySelector) &&
    rangeShift == 16 * numTables - searchRange
  }

  /** `TTOffsetTable`: the header fields that depend on the number of tables. */
  class OffsetTable {
    var numTables: int
    var searchRange: int
    var entrySelector: int
    var rangeShift: int

    constructor()
      ensures numTables == 0 && searchRange == 0 && entrySelector == 0 && rangeShift == 0
    {
      numTables, searchRange, entrySelector, rangeShift := 0, 0, 0, 0;
    }

    /**
     * `set_table_size` as written: `i` is the least exponent with
     * 2^i >= n and the power used is 2^(i-1), the largest power of two
     * strictly below n. (n == 1 would shift by -1; the writer always has
     * at least six tables.) The fields are int16_t, so searchRange and
     * rangeShift wrap once the count passes 2048.
     */
    method SetTableSize(newSize: int)
      requires 2 <= newSize < 0x8000
      modifies this
      ensures numTables == newSize
      ensures entrySelector >= 0 && Pow2(entrySelector) < newSize <= 2 * Pow2(entrySelector)
      ensures searchRange == WrapInt16(16 * Pow2(entrySelector))
      ensures rangeShift == WrapInt16(16 * newSize - searchRange)
      ensures newSize <= 2048 ==> searchRange == 16 * Pow2(entrySelector) && rangeShift == 16 * newSize - searchRange
    {
      numTables := newSize;
      var i := 0;
      while Pow2(i) < newSize
        invariant i == 0 || Pow2(i - 1) < newSize
        decreases newSize - Pow2(i)
      {
        i := i + 1;
      }
      assert i >= 1;
      var pow2 := Pow2(i - 1);
      searchRange := WrapInt16(16 * pow2);
      entrySelector := i - 1;
      rangeShift := WrapInt16(numTables * 16 - searchRange);
    }

    /** The OpenType computation: the largest power of two not above n. */
    method SetTableSizeOpenType(newSize: int)
      requires 1 <= newSize < 0x8000
      modifies this
      ensures numTables == newSize
      ensures OpenTypeSearchFields(numTables, searchRange, entrySelector, rangeShift)
      ensures newSize < 2048 ==> 0 < searchRange < 0x8000 && 0 <= rangeShift < 0x8000
    {
      numTables := newSize;
      var i := 0;
      while 2 * Pow2(i) <= newSize
        invariant Pow2(i) <= newSize
        decreases newSize - Pow2(i)
      {
        i := i + 1;
      }
      searchRange := 16 * Pow2(i);
      entrySelector := i;
      rangeShift := numTables * 16 - searchRange;
    }
  }

  /**
   * With 2049 tables the power used is 2^11, and 16 * 2^11 stored into the
   * int16_t searchRange wraps to -32768.
   */
  lemma {:induction false} SearchRangeWrapsPast2048(entrySelector: int)
    requires entrySelector >= 0 && Pow2(entrySelector) < 2049 <= 2 * Pow2(entrySelector)
    ensures entrySelector == 11
    ensures WrapInt16(16 * Pow2(entrySelector)) == -0x8000
  {
    if entrySelector >= 12 {
      Pow2Monotone(12, entrySelector);
    } else if entrySelector <= 10 {
      Pow2Monotone(entrySelector, 10);
    }
    assert Pow2(11) == 2048;
  }

  /**
   * With eight tables the computation as written gives searchRange 64 and
   * entrySelector 2, where OpenType demands 128 and 3.
   */
  lemma {:induction false} EightTablesAsWritten(searchRange: int, entrySelector: int, rangeShift: int)
    requires entrySelector >= 0 && Pow2(entrySelector) < 8 <= 2 * Pow2(entrySelector)
    requires searchRange == 16 * Pow2(entrySelector) && rangeShift == 16 * 8 - searchRange
    ensures entrySelector == 2 && searchRange == 64 && rangeShift == 64
    ensures !OpenTypeSearchFields(8, searchRange, entrySelector, rangeShift)
  {
    if entrySelector >= 3 {
      Pow2Monotone(3, entrySelector);
    } else if entrySelector <= 1 {
      Pow2Monotone(entrySelector, 1);
    }
  }

  /** Away from exact powers of two both computations agree. */
  lemma {:induction false} SearchFieldsAgreeOffPowersOfTwo(n: int, entrySelector: int)
    requires entrySelector >= 0 && Pow2(entrySelector) < n <= 2 * Pow2(entrySelector)
    requires n != 2 * Pow2(entrySelector)
    ensures OpenTypeSearchFields(n, 16 * Pow2(entrySelector), entrySelector, 16 * n - 16 * Pow2(entrySelector))
  {
  }

  // ---------------------------------------------------------------------
  // The table directory and table loaders
  // ---------------------------------------------------------------------

  /** `TTDirEntry`: a four-character tag and where the table lies in the file. */
  datatype DirEntry = DirEntry(tag: string, checksum: nat, offset: nat, length: nat)

  predicate EntryFits(e: DirEntry)
  {
    e.offset < TwoTo32 && e.length < TwoTo32
  }

  /** `find_entry`: the first directory entry with the tag. */
  function FindEntry(dir: seq<DirEntry>, tag: string): (r: Option<DirEntry>)
    ensures r.None? <==> forall i :: 0 <= i < |dir| ==> dir[i].tag != tag
    ensures r.Some? ==> exists i :: 0 <= i < |dir| && dir[i] == r.value && r.value.tag == tag &&
                                   forall j :: 0 <= j < i ==> dir[j].tag != tag
  {
    if |dir| == 0 then None
    else if dir[0].tag == tag then Some(dir[0])
    else
      var r := FindEntry(dir[1..], tag);
      assert forall j :: 1 <= j < |dir| ==> dir[j] == dir[1..][j - 1];
      r
  }

  /** A buffer the scalar readers accept, and directory offsets that fit uint32. */
  predicate Readable(dir: seq<DirEntry>, buf: seq<Byte>)
  {
    |buf| < TwoTo32 && forall i :: 0 <= i < |dir| ==> EntryFits(dir[i])
  }

  /** Entry `k` of a `loca` table at `base`: format 0 stores half offsets, format 1 full signed ones. */
  function LocaEntry(buf: seq<Byte>, base: nat, longFormat: bool, k: nat): (r: Rvoe<int>)
    requires |buf| < TwoTo32 && base < TwoTo32 && k <= 0x1_0000
    ensures r.Ok? ==> 0 <= r.value && (!longFormat ==> r.value % 2 == 0 && r.value < 2 * TwoTo16)
    ensures r.Err? && !longFormat ==> r.error == IndexOutOfBounds
    ensures r.Err? && longFormat ==> r.error == IndexOutOfBounds || r.error == IndexIsNegative
  {
    if !longFormat then
      var v :- ExtractAndSwap(buf, base + 2 * k, 2);
      Ok(2 * v)
    else
      var v :- ExtractAndSwap(buf, base + 4 * k, 4);
      if Int32(v) < 0 then Err(IndexIsNegative) else Ok(Int32(v))
  }

  lemma {:induction false} LocaEntryMeaning(buf: seq<Byte>, base: nat, longFormat: bool, k: nat)
    requires |buf| < TwoTo32 && base < TwoTo32 && k <= 0x1_0000
    ensures !longFormat ==> (LocaEntry(buf, base, longFormat, k).Ok? <==> base + 2 * k + 2 <= |buf|)
    ensures !longFormat && base + 2 * k + 2 <= |buf| ==>
              LocaEntry(buf, base, longFormat, k).value == 2 * BeValue(buf[base + 2 * k..base + 2 * k + 2])
    ensures longFormat && base + 4 * k + 4 > |buf| ==> LocaEntry(buf, base, longFormat, k) == Err(IndexOutOfBounds)
    ensures longFormat && base + 4 * k + 4 <= |buf| ==>
              var v := BeValue(buf[base + 4 * k..base + 4 * k + 4]);
              LocaEntry(buf, base, longFormat, k) == if Int32(v) < 0 then Err(IndexIsNegative) else Ok(Int32(v))
  {
  }

  /**
   * Reading entries one after another and stopping at the first failure,
   * as the `ERCV` inside the loaders' loops does.
   */
  function Collect<T>(attempts: seq<Rvoe<T>>): (r: Rvoe<seq<T>>)
    ensures r.Ok? ==> |r.value| == |attempts|
  {
    if |attempts| == 0 then Ok([])
    else
      var prev :- Collect(attempts[..|attempts| - 1]);
      var e :- attempts[|attempts| - 1];
      Ok(prev + [e])
  }

  /** Collecting succeeds exactly when every read does, and then keeps every value in order. */
  lemma {:induction false} CollectMeaning<T>(attempts: seq<Rvoe<T>>)
    ensures Collect(attempts).Ok? <==> forall k :: 0 <= k < |attempts| ==> attempts[k].Ok?
    ensures Collect(attempts).Ok? ==> forall k :: 0 <= k < |attempts| ==> Collect(attempts).value[k] == attempts[k].value
    ensures Collect(attempts).Err? ==>
              exists k :: 0 <= k < |attempts| && attempts[k].Err? && attempts[k].error == Collect(attempts).error &&
                          forall j :: 0 <= j < k ==> attempts[j].Ok?
  {
    if |attempts| > 0 {
      var init := attempts[..|attempts| - 1];
      CollectMeaning(init);
      assert forall k :: 0 <= k < |init| ==> init[k] == attempts[k];
      if Collect(init).Err? {
        var k :| 0 <= k < |init| && init[k].Err? && init[k].error == Collect(init).error &&
                 forall j :: 0 <= j < k ==> init[j].Ok?;
        assert attempts[k].Err? && attempts[k].error == Collect(attempts).error;
      }
    }
  }

  /** One more read extends a successful collection; a failed one stays failed. */
  lemma {:induction false} CollectStep<T>(attempts: seq<Rvoe<T>>, i: nat)
    requires i < |attempts|
    ensures Collect(attempts[..i]).Ok? && attempts[i].Ok? ==>
              Collect(attempts[..i + 1]) == Ok(Collect(attempts[..i]).value + [attempts[i].value])
    ensures Collect(attempts[..i]).Ok? && attempts[i].Err? ==> Collect(attempts[..i + 1]) == Err(attempts[i].error)
  {
    assert attempts[..i + 1][..i] == attempts[..i];
  }

  lemma {:induction false} CollectFailureIsFinal<T>(attempts: seq<Rvoe<T>>, i: nat)
    requires i <= |attempts| && Collect(attempts[..i]).Err?
    ensures Collect(attempts) == Collect(attempts[..i])
    decreases |attempts| - i
  {
    if i < |attempts| {
      var longer := attempts[..i + 1];
      assert longer[..|longer| - 1] == attempts[..i];
      assert Collect(longer) == Collect(attempts[..i]);
      CollectFailureIsFinal(attempts, i + 1);
    } else {
      assert attempts[..i] == attempts;
    }
  }

  /** The reads of the first `m` loca entries. */
  function LocaReads(buf: seq<Byte>, base: nat, longFormat: bool, m: nat): (r: seq<Rvoe<int>>)
    requires |buf| < TwoTo32 && base < TwoTo32 && m <= 0x1_0001
    ensures |r| == m && forall k :: 0 <= k < m ==> r[k] == LocaEntry(buf, base, longFormat, k)
  {
    if m == 0 then [] else LocaReads(buf, base, longFormat, m - 1) + [LocaEntry(buf, base, longFormat, m - 1)]
  }

  /** The first `m` loca entries, stopping at the first failing one. */
  function LocaEntries(buf: seq<Byte>, base: nat, longFormat: bool, m: nat): (r: Rvoe<seq<int>>)
    requires |buf| < TwoTo32 && base < TwoTo32 && m <= 0x1_0001
    ensures r.Ok? ==> |r.value| == m
  {
    Collect(LocaReads(buf, base, longFormat, m))
  }

  lemma {:induction false} LocaEntriesMeaning(buf: seq<Byte>, base: nat, longFormat: bool, m: nat)
    requires |buf| < TwoTo32 && base < TwoTo32 && m <= 0x1_0001
    ensures LocaEntries(buf, base, longFormat, m).Ok? <==>
              forall k :: 0 <= k < m ==> LocaEntry(buf, base, longFormat, k).Ok?
    ensures LocaEntries(buf, base, longFormat, m).Ok? ==>
              forall k :: 0 <= k < m ==> LocaEntries(buf, base, longFormat, m).value[k] ==
                                          LocaEntry(buf, base, longFormat, k).value
    ensures LocaEntries(buf, base, longFormat, m).Err? ==>
              exists k :: 0 <= k < m && LocaEntry(buf, base, longFormat, k).Err? &&
                          LocaEntry(buf, base, longFormat, k).error == LocaEntries(buf, base, longFormat, m).error
  {
    CollectMeaning(LocaReads(buf, base, longFormat, m));
  }

  /** Format 0: all entries load exactly when the whole table lies in the buffer, and are doubled. */
  lemma {:induction false} ShortLocaLoads(buf: seq<Byte>, base: nat, m: nat)
    requires |buf| < TwoTo32 && base < TwoTo32 && 1 <= m <= 0x1_0001
    ensures LocaEntries(buf, base, false, m).Ok? <==> base + 2 * m <= |buf|
    ensures LocaEntries(buf, base, false, m).Ok? ==>
              forall k :: 0 <= k < m ==> LocaEntries(buf, base, false, m).value[k] ==
                                          2 * BeValue(buf[base + 2 * k..base + 2 * k + 2])
  {
    LocaEntriesMeaning(buf, base, false, m);
    forall k | 0 <= k < m
      ensures LocaEntry(buf, base, false, k).Ok? <==> base + 2 * k + 2 <= |buf|
      ensures base + 2 * k + 2 <= |buf| ==>
                LocaEntry(buf, base, false, k).value == 2 * BeValue(buf[base + 2 * k..base + 2 * k + 2])
    {
      LocaEntryMeaning(buf, base, false, k);
    }
    if base + 2 * m > |buf| {
      assert LocaEntry(buf, base, false, m - 1).Err?;
    }
  }

  /** Format 1: a stored negative offset makes the load fail; loaded offsets are never negative. */
  lemma {:induction false} LongLocaNonNegative(buf: seq<Byte>, base: nat, m: nat)
    requires |buf| < TwoTo32 && base < TwoTo32 && 1 <= m <= 0x1_0001
    ensures LocaEntries(buf, base, true, m).Ok? ==>
              base + 4 * m <= |buf| &&
              forall k :: 0 <= k < m ==> 0 <= LocaEntries(buf, base, true, m).value[k] < 0x8000_0000
    ensures LocaEntries(buf, base, true, m).Err? ==>
              LocaEntries(buf, base, true, m).error in {IndexOutOfBounds, IndexIsNegative}
  {
    LocaEntriesMeaning(buf, base, true, m);
    forall k | 0 <= k < m
      ensures LocaEntry(buf, base, true, k).Ok? ==>
                base + 4 * k + 4 <= |buf| && 0 <= LocaEntry(buf, base, true, k).value < 0x8000_0000
      ensures LocaEntry(buf, base, true, k).Err? ==> LocaEntry(buf, base, true, k).error in {IndexOutOfBounds, IndexIsNegative}
    {
      LocaEntryMeaning(buf, base, true, k);
    }
    if LocaEntries(buf, base, true, m).Ok? {
      var last := m - 1;
      assert LocaEntry(buf, base, true, last).Ok?;
      assert base + 4 * last + 4 <= |buf|;
    }
  }

  /**
   * `load_loca` with a counter that cannot wrap: a missing table gives no
   * offsets, formats 0 and 1 read num_glyphs + 1 entries, any other format
   * is malformed.
   */
  method LoadLoca(dir: seq<DirEntry>, buf: seq<Byte>, indexToLocFormat: int, numGlyphs: nat)
    returns (r: Rvoe<seq<int>>)
    requires Readable(dir, buf) && numGlyphs < TwoTo16
    ensures FindEntry(dir, "loca").None? ==> r == Ok([])
    ensures FindEntry(dir, "loca").Some? && indexToLocFormat != 0 && indexToLocFormat != 1 ==>
              r == Err(MalformedFontFile)
    ensures FindEntry(dir, "loca").Some? && (indexToLocFormat == 0 || indexToLocFormat == 1) ==>
              r == LocaEntries(buf, FindEntry(dir, "loca").value.offset, indexToLocFormat == 1, numGlyphs + 1)
  {
    var loca := FindEntry(dir, "loca");
    if loca.None? {
      return Ok([]);
    }
    if indexToLocFormat != 0 && indexToLocFormat != 1 {
      return Err(MalformedFontFile);
    }
    var base := loca.value.offset;
    var longFormat := indexToLocFormat == 1;
    ghost var attempts := LocaReads(buf, base, longFormat, numGlyphs + 1);
    var offsets: seq<int> := [];
    var i := 0;
    while i <= numGlyphs
      invariant i <= numGlyphs + 1
      invariant Collect(attempts[..i]) == Ok(offsets)
    {
      var e := LocaEntry(buf, base, longFormat, i);
      CollectStep(attempts, i);
      if e.Err? {
        CollectFailureIsFinal(attempts, i + 1);
        return Err(e.error);
      }
      offsets := offsets + [e.value];
      i := i + 1;
    }
    assert attempts[..i] == attempts;
    return Ok(offsets);
  }

  /**
   * The loop counter of `load_loca` as written is a uint16_t compared with
   * `<=`: from glyph k the next counter value is (k + 1) mod 2^16.
   */
  function LocaCounterNext(i: nat): (r: nat)
    requires i < TwoTo16
    ensures r < TwoTo16
    ensures i < TwoTo16 - 1 ==> r == i + 1
  {
    (i + 1) % TwoTo16
  }

  /** How many entries the as-written loop has pushed after `steps` passes, or -1 if it never left. */
  function LocaPassesAsWritten(numGlyphs: nat, i: nat, steps: nat): (r: int)
    requires numGlyphs < TwoTo16 && i < TwoTo16
    ensures -1 <= r <= steps
    ensures i > numGlyphs ==> r == 0
    decreases steps
  {
    if !(i <= numGlyphs) then 0
    else if steps == 0 then -1
    else
      var rest := LocaPassesAsWritten(numGlyphs, LocaCounterNext(i), steps - 1);
      if rest < 0 then -1 else rest + 1
  }

  /** For a font with 65535 glyphs the as-written loop never exits, however long it runs. */
  lemma {:induction false} LocaLoopNeverEndsAt65535(i: nat, steps: nat)
    requires i < TwoTo16
    ensures LocaPassesAsWritten(TwoTo16 - 1, i, steps) == -1
    decreases steps
  {
    if steps > 0 {
      LocaLoopNeverEndsAt65535(LocaCounterNext(i), steps - 1);
    }
  }

  /** Below 65535 glyphs it runs num_glyphs + 1 passes, as the corrected loop does. */
  lemma {:induction false} LocaLoopEndsBelow65535(numGlyphs: nat, i: nat, steps: nat)
    requires numGlyphs < TwoTo16 - 1 && i <= numGlyphs + 1 && steps >= numGlyphs + 1 - i
    ensures LocaPassesAsWritten(numGlyphs, i, steps) == numGlyphs + 1 - i
    decreases numGlyphs + 1 - i
  {
    if i <= numGlyphs {
      LocaLoopEndsBelow65535(numGlyphs, i + 1, steps - 1);
    }
  }

  // ---------------------------------------------------------------------
  // Horizontal metrics
  // ---------------------------------------------------------------------

  /** `TTLongHorMetric`: an advance width (uint16) and a left side bearing (int16). */
  datatype LongHorMetric = LongHorMetric(advanceWidth: nat, lsb: int)

  /** `TTHmtx`: the long metrics, then the side bearings of the remaining glyphs. */
  datatype Hmtx = Hmtx(longhor: seq<LongHorMetric>, leftSideBearings: seq<int>)

  /** A 4-byte long metric record at `at`, each field swapped on its own. */
  function LongMetricAt(buf: seq<Byte>, at: nat): (r: Rvoe<LongHorMetric>)
    requires |buf| < TwoTo32 && at < TwoTo63
    ensures r.Ok? <==> at + 4 <= |buf|
  {
    var b :- GetSubstringOfView(buf, at, 4);
    Ok(LongHorMetric(BeValue(b[..2]), Int16(BeValue(b[2..]))))
  }

  /** A 2-byte side bearing at `at`. */
  function SideBearingAt(buf: seq<Byte>, at: nat): (r: Rvoe<int>)
    requires |buf| < TwoTo32 && at < TwoTo63
    ensures r.Ok? <==> at + 2 <= |buf|
  {
    var v :- ExtractAndSwap(buf, at, 2);
    Ok(Int16(v))
  }

  function LongMetricReads(buf: seq<Byte>, base: nat, count: nat): (r: seq<Rvoe<LongHorMetric>>)
    requires |buf| < TwoTo32 && base < TwoTo32 && count < TwoTo16
    ensures |r| == count && forall k :: 0 <= k < count ==> r[k] == LongMetricAt(buf, base + 4 * k)
  {
    if count == 0 then [] else LongMetricReads(buf, base, count - 1) + [LongMetricAt(buf, base + 4 * (count - 1))]
  }

  function SideBearingReads(buf: seq<Byte>, base: nat, count: nat): (r: seq<Rvoe<int>>)
    requires |buf| < TwoTo32 && base < TwoTo32 + 4 * TwoTo16 && count < TwoTo16
    ensures |r| == count && forall k :: 0 <= k < count ==> r[k] == SideBearingAt(buf, base + 2 * k)
  {
    if count == 0 then [] else SideBearingReads(buf, base, count - 1) + [SideBearingAt(buf, base + 2 * (count - 1))]
  }

  /** The long metrics of a table at `base`, read one after the other. */
  function LongMetrics(buf: seq<Byte>, base: nat, count: nat): (r: Rvoe<seq<LongHorMetric>>)
    requires |buf| < TwoTo32 && base < TwoTo32 && count < TwoTo16
    ensures r.Ok? ==> |r.value| == count
  {
    Collect(LongMetricReads(buf, base, count))
  }

  /** The side bearings that follow the long metrics at `base`, read one after the other. */
  function SideBearings(buf: seq<Byte>, base: nat, count: nat): (r: Rvoe<seq<int>>)
    requires |buf| < TwoTo32 && base < TwoTo32 + 4 * TwoTo16 && count < TwoTo16
    ensures r.Ok? ==> |r.value| == count
  {
    Collect(SideBearingReads(buf, base, count))
  }

  /** What `load_hmtx` reads from a table at `base`: the long metrics, then the bearings. */
  function HmtxAt(buf: seq<Byte>, base: nat, numGlyphs: nat, numHmetrics: nat): (r: Rvoe<Hmtx>)
    requires |buf| < TwoTo32 && base < TwoTo32 && numHmetrics <= numGlyphs < TwoTo16
  {
    Combine(LongMetrics(buf, base, numHmetrics),
            SideBearings(buf, base + 4 * numHmetrics, numGlyphs - numHmetrics))
  }

  /** The long metrics are read first, so their failure is the one reported. */
  function Combine(longhor: Rvoe<seq<LongHorMetric>>, bearings: Rvoe<seq<int>>): (r: Rvoe<Hmtx>)
  {
    if longhor.Err? then Err(longhor.error)
    else if bearings.Err? then Err(bearings.error)
    else Ok(Hmtx(longhor.value, bearings.value))
  }

  /**
   * The table loads exactly when every record lies in the buffer, and then
   * holds num_hmetrics long metrics and num_glyphs - num_hmetrics bearings.
   */
  lemma {:induction false} HmtxAtLoads(buf: seq<Byte>, base: nat, numGlyphs: nat, numHmetrics: nat)
    requires |buf| < TwoTo32 && base < TwoTo32 && numHmetrics <= numGlyphs < TwoTo16
    ensures HmtxAt(buf, base, numGlyphs, numHmetrics).Ok? <==>
              numGlyphs == 0 || base + 4 * numHmetrics + 2 * (numGlyphs - numHmetrics) <= |buf|
    ensures HmtxAt(buf, base, numGlyphs, numHmetrics).Ok? ==>
              var h := HmtxAt(buf, base, numGlyphs, numHmetrics).value;
              |h.longhor| == numHmetrics && |h.leftSideBearings| == numGlyphs - numHmetrics
  {
    PartsLoad(buf, base, numGlyphs, numHmetrics);
  }

  /** The two parts of the table load, and combine, exactly when every record lies in the buffer. */
  lemma {:induction false} PartsLoad(buf: seq<Byte>, base: nat, numGlyphs: nat, numHmetrics: nat)
    requires |buf| < TwoTo32 && base < TwoTo32 && numHmetrics <= numGlyphs < TwoTo16
    ensures var c := Combine(LongMetrics(buf, base, numHmetrics),
                             SideBearings(buf, base + 4 * numHmetrics, numGlyphs - numHmetrics));
      && (c.Ok? <==> numGlyphs == 0 || base + 4 * numHmetrics + 2 * (numGlyphs - numHmetrics) <= |buf|)
      && (c.Ok? ==> |c.value.longhor| == numHmetrics && |c.value.leftSideBearings| == numGlyphs - numHmetrics)
  {
    var count, bearingsBase := numGlyphs - numHmetrics, base + 4 * numHmetrics;
    var longs, bears := LongMetrics(buf, base, numHmetrics), SideBearings(buf, bearingsBase, count);
    LongMetricsLoad(buf, base, numHmetrics);
    SideBearingsLoad(buf, bearingsBase, count);
    CombineLoads(longs, bears, |buf|, base, numGlyphs, numHmetrics);
  }

  lemma {:induction false} CombineLoads(longs: Rvoe<seq<LongHorMetric>>, bears: Rvoe<seq<int>>, size: nat, base: nat, g: nat, h: nat)
    requires h <= g
    requires longs.Ok? <==> h == 0 || base + 4 * h <= size
    requires bears.Ok? <==> g - h == 0 || base + 4 * h + 2 * (g - h) <= size
    requires longs.Ok? ==> |longs.value| == h
    requires bears.Ok? ==> |bears.value| == g - h
    ensures Combine(longs, bears).Ok? <==> g == 0 || base + 4 * h + 2 * (g - h) <= size
    ensures Combine(longs, bears).Ok? ==>
              |Combine(longs, bears).value.longhor| == h && |Combine(longs, bears).value.leftSideBearings| == g - h
  {
  }

  /** The long metrics load exactly when all of them lie in the buffer. */
  lemma {:induction false} LongMetricsLoad(buf: seq<Byte>, base: nat, count: nat)
    requires |buf| < TwoTo32 && base < TwoTo32 && count < TwoTo16
    ensures LongMetrics(buf, base, count).Ok? <==> count == 0 || base + 4 * count <= |buf|
  {
    var longs := LongMetricReads(buf, base, count);
    CollectMeaning(longs);
    if count > 0 {
      assert longs[count - 1] == LongMetricAt(buf, base + 4 * (count - 1));
    }
  }

  /** Loaded long metric k is the record stored at base + 4k. */
  lemma {:induction false} LongMetricsValues(buf: seq<Byte>, base: nat, count: nat)
    requires |buf| < TwoTo32 && base < TwoTo32 && count < TwoTo16
    ensures LongMetrics(buf, base, count).Ok? ==>
              forall k :: 0 <= k < count ==>
                LongMetrics(buf, base, count).value[k] == LongMetricAt(buf, base + 4 * k).value
  {
    CollectMeaning(LongMetricReads(buf, base, count));
  }

  /** The side bearings load exactly when all of them lie in the buffer. */
  lemma {:induction false} SideBearingsLoad(buf: seq<Byte>, base: nat, count: nat)
    requires |buf| < TwoTo32 && base < TwoTo32 + 4 * TwoTo16 && count < TwoTo16
    ensures SideBearings(buf, base, count).Ok? <==> count == 0 || base + 2 * count <= |buf|
  {
    var bears := SideBearingReads(buf, base, count);
    CollectMeaning(bears);
    if count > 0 {
      assert bears[count - 1] == SideBearingAt(buf, base + 2 * (count - 1));
    }
  }

  /** Loaded side bearing k is the value stored at base + 2k. */
  lemma {:induction false} SideBearingsValues(buf: seq<Byte>, base: nat, count: nat)
    requires |buf| < TwoTo32 && base < TwoTo32 + 4 * TwoTo16 && count < TwoTo16
    ensures SideBearings(buf, base, count).Ok? ==>
              forall k :: 0 <= k < count ==>
                SideBearings(buf, base, count).value[k] == SideBearingAt(buf, base + 2 * k).value
  {
    CollectMeaning(SideBearingReads(buf, base, count));
  }

  /** `load_hmtx`: the table must exist and num_hmetrics may not exceed num_glyphs. */
  method LoadHmtx(dir: seq<DirEntry>, buf: seq<Byte>, numGlyphs: nat, numHmetrics: nat) returns (r: Rvoe<Hmtx>)
    requires Readable(dir, buf) && numGlyphs < TwoTo16 && numHmetrics < TwoTo16
    ensures FindEntry(dir, "hmtx").None? ==> r == Err(MalformedFontFile)
    ensures FindEntry(dir, "hmtx").Some? && numHmetrics > numGlyphs ==> r == Err(MalformedFontFile)
    ensures FindEntry(dir, "hmtx").Some? && numHmetrics <= numGlyphs ==>
              r == HmtxAt(buf, FindEntry(dir, "hmtx").value.offset, numGlyphs, numHmetrics)
  {
    var e := FindEntry(dir, "hmtx");
    if e.None? {
      return Err(MalformedFontFile);
    }
    if numHmetrics > numGlyphs {
      return Err(MalformedFontFile);
    }
    r := ReadHmtx(buf, e.value.offset, numGlyphs, numHmetrics);
  }

  /** The two loops of `load_hmtx`: long metrics first, then the side bearings after them. */
  method ReadHmtx(buf: seq<Byte>, base: nat, numGlyphs: nat, numHmetrics: nat) returns (r: Rvoe<Hmtx>)
    requires |buf| < TwoTo32 && base < TwoTo32 && numHmetrics <= numGlyphs < TwoTo16
    ensures r == HmtxAt(buf, base, numGlyphs, numHmetrics)
  {
    var longhor := ReadLongMetrics(buf, base, numHmetrics);
    if longhor.Err? {
      return Err(longhor.error);
    }
    var bearings := ReadSideBearings(buf, base + 4 * numHmetrics, numGlyphs - numHmetrics);
    if bearings.Err? {
      return Err(bearings.error);
    }
    return Ok(Hmtx(longhor.value, bearings.value));
  }

  /** The first loop of `load_hmtx`. */
  method ReadLongMetrics(buf: seq<Byte>, base: nat, count: nat) returns (r: Rvoe<seq<LongHorMetric>>)
    requires |buf| < TwoTo32 && base < TwoTo32 && count < TwoTo16
    ensures r == LongMetrics(buf, base, count)
  {
    ghost var longs := LongMetricReads(buf, base, count);
    var longhor: seq<LongHorMetric> := [];
    var i := 0;
    while i < count
      invariant i <= count
      invariant Collect(longs[..i]) == Ok(longhor)
    {
      var hm := LongMetricAt(buf, base + 4 * i);
      CollectStep(longs, i);
      if hm.Err? {
        CollectFailureIsFinal(longs, i + 1);
        return Err(hm.error);
      }
      longhor := longhor + [hm.value];
      i := i + 1;
    }
    assert longs[..i] == longs;
    return Ok(longhor);
  }

  /** The second loop of `load_hmtx`. */
  method ReadSideBearings(buf: seq<Byte>, base: nat, count: nat) returns (r: Rvoe<seq<int>>)
    requires |buf| < TwoTo32 && base < TwoTo32 + 4 * TwoTo16 && count < TwoTo16
    ensures r == SideBearings(buf, base, count)
  {
    ghost var bears := SideBearingReads(buf, base, count);
    var bearings: seq<int> := [];
    var j := 0;
    while j < count
      invariant j <= count
      invariant Collect(bears[..j]) == Ok(bearings)
    {
      var lsb := SideBearingAt(buf, base + 2 * j);
      CollectStep(bears, j);
      if lsb.Err? {
        CollectFailureIsFinal(bears, j + 1);
        return Err(lsb.error);
      }
      bearings := bearings + [lsb.value];
      j := j + 1;
    }
    assert bears[..j] == bears;
    return Ok(bearings);
  }

  /**
   * The metrics of glyph `gid` as the OpenType hmtx table defines them: a
   * glyph past the long metrics has the last advance width and its own
   * side bearing.
   */
  function MetricOf(h: Hmtx, gid: nat): (r: LongHorMetric)
    requires |h.longhor| > 0 && gid < |h.longhor| + |h.leftSideBearings|
    ensures gid < |h.longhor| ==> r == h.longhor[gid]
    ensures gid >= |h.longhor| ==>
              r.advanceWidth == h.longhor[|h.longhor| - 1].advanceWidth
              && r.lsb == h.leftSideBearings[gid - |h.longhor|]
  {
    if gid < |h.longhor| then h.longhor[gid]
    else LongHorMetric(h.longhor[|h.longhor| - 1].advanceWidth, h.leftSideBearings[gid - |h.longhor|])
  }

  /** Every glyph of the subset has a metric in the source table (`subset_hmtx` aborts otherwise). */
  predicate HasMetrics(h: Hmtx, glyphs: seq<TTGlyph>)
  {
    |h.longhor| > 0 && forall k :: 0 <= k < |glyphs| ==> FontIdForGlyph(glyphs[k]) < |h.longhor| + |h.leftSideBearings|
  }

  /**
   * `subset_hmtx`: one long metric per subset glyph, so the new table has
   * no trailing side bearings and every glyph keeps its advance and bearing.
   */
  method SubsetHmtx(source: Hmtx, glyphs: seq<TTGlyph>) returns (subset: Hmtx)
    requires HasMetrics(source, glyphs)
    ensures subset.leftSideBearings == [] && |subset.longhor| == |glyphs|
    ensures forall k :: 0 <= k < |glyphs| ==> subset.longhor[k] == MetricOf(source, FontIdForGlyph(glyphs[k]))
  {
    var longhor: seq<LongHorMetric> := [];
    var i := 0;
    while i < |glyphs|
      invariant i <= |glyphs| && |longhor| == i
      invariant forall k :: 0 <= k < i ==> longhor[k] == MetricOf(source, FontIdForGlyph(glyphs[k]))
    {
      var gid := FontIdForGlyph(glyphs[i]);
      if gid < |source.longhor| {
        longhor := longhor + [source.longhor[gid]];
      } else {
        var sidebearIndex := gid - |source.longhor|;
        longhor := longhor + [LongHorMetric(source.longhor[|source.longhor| - 1].advanceWidth,
                                            source.leftSideBearings[sidebearIndex])];
      }
      i := i + 1;
    }
    subset := Hmtx(longhor, []);
  }

  /** In the subset table, entry k carries exactly the metrics of the k-th subset glyph. */
  lemma {:induction false} SubsetMetricsPreserved(source: Hmtx, glyphs: seq<TTGlyph>, subset: Hmtx)
    requires HasMetrics(source, glyphs)
    requires subset.leftSideBearings == [] && |subset.longhor| == |glyphs|
    requires forall k :: 0 <= k < |glyphs| ==> subset.longhor[k] == MetricOf(source, FontIdForGlyph(glyphs[k]))
    ensures forall k :: 0 <= k < |glyphs| ==> MetricOf(subset, k) == MetricOf(source, FontIdForGlyph(glyphs[k]))
    ensures forall k :: 0 <= k < |glyphs| ==>
              var gid := FontIdForGlyph(glyphs[k]);
              MetricOf(subset, k).advanceWidth ==
                source.longhor[if gid < |source.longhor| then gid else |source.longhor| - 1].advanceWidth
  {
  }

  // ---------------------------------------------------------------------
  // Glyph data and raw tables
  // ---------------------------------------------------------------------

  /** The bytes of glyph k in a glyf region that starts at `offset`. */
  function GlyphSlice(buf: seq<Byte>, offset: nat, loca: seq<int>, k: nat): (r: Rvoe<seq<Byte>>)
    requires offset <= |buf| && k + 1 < |loca|
  {
    var dataOff := loca[k];
    var dataSize := loca[k + 1] - loca[k];
    if dataOff < 0 || dataSize < 0 || dataOff + dataSize > |buf| - offset then Err(IndexOutOfBounds)
    else Ok(buf[offset + dataOff..offset + dataOff + dataSize])
  }

  function GlyphSlices(buf: seq<Byte>, offset: nat, loca: seq<int>, count: nat): (r: seq<Rvoe<seq<Byte>>>)
    requires offset <= |buf| && count < |loca|
    ensures |r| == count && forall k :: 0 <= k < count ==> r[k] == GlyphSlice(buf, offset, loca, k)
  {
    if count == 0 then [] else GlyphSlices(buf, offset, loca, count - 1) + [GlyphSlice(buf, offset, loca, count - 1)]
  }

  /**
   * `load_GLYF_glyphs`: the glyf region starts at `offset`, the loca table
   * must have one entry per glyph plus the end marker, and every glyph's
   * slice must lie inside the region.
   */
  method LoadGlyfGlyphs(offset: nat, buf: seq<Byte>, numGlyphs: nat, loca: seq<int>) returns (r: Rvoe<seq<seq<Byte>>>)
    ensures offset > |buf| ==> r == Err(MalformedFontFile)
    ensures offset <= |buf| && numGlyphs + 1 != |loca| ==> r == Err(MalformedFontFile)
    ensures offset <= |buf| && numGlyphs + 1 == |loca| ==> r == Collect(GlyphSlices(buf, offset, loca, numGlyphs))
  {
    if offset > |buf| {
      return Err(MalformedFontFile);
    }
    if numGlyphs + 1 != |loca| {
      return Err(MalformedFontFile);
    }
    ghost var slices := GlyphSlices(buf, offset, loca, numGlyphs);
    var glyphData: seq<seq<Byte>> := [];
    var i := 0;
    while i < numGlyphs
      invariant i <= numGlyphs
      invariant Collect(slices[..i]) == Ok(glyphData)
    {
      var dataOff := loca[i];
      var dataSize := loca[i + 1] - loca[i];
      CollectStep(slices, i);
      if dataOff < 0 || dataSize < 0 || dataOff + dataSize > |buf| - offset {
        CollectFailureIsFinal(slices, i + 1);
        return Err(IndexOutOfBounds);
      }
      glyphData := glyphData + [buf[offset + dataOff..offset + dataOff + dataSize]];
      i := i + 1;
    }
    assert slices[..i] == slices;
    return Ok(glyphData);
  }

  /** Glyph k's slice is well placed: non-negative, non-decreasing, inside the glyf region. */
  predicate SliceInRegion(buf: seq<Byte>, offset: nat, loca: seq<int>, k: nat)
    requires offset <= |buf| && k + 1 < |loca|
  {
    0 <= loca[k] <= loca[k + 1] <= |buf| - offset
  }

  /** The glyphs load exactly when every slice is well placed. */
  lemma {:induction false} GlyphSlicesLoad(buf: seq<Byte>, offset: nat, loca: seq<int>, count: nat)
    requires offset <= |buf| && count < |loca|
    ensures Collect(GlyphSlices(buf, offset, loca, count)).Ok? <==>
              forall k :: 0 <= k < count ==> SliceInRegion(buf, offset, loca, k)
  {
    var slices := GlyphSlices(buf, offset, loca, count);
    CollectMeaning(slices);
    forall k | 0 <= k < count
      ensures slices[k].Ok? <==> SliceInRegion(buf, offset, loca, k)
    {
      assert slices[k] == GlyphSlice(buf, offset, loca, k);
    }
  }

  /** The loaded slices tile the glyf region from the first loca offset to the last. */
  lemma {:induction false} GlyphSlicesTile(buf: seq<Byte>, offset: nat, loca: seq<int>, count: nat)
    requires offset <= |buf| && 0 < count < |loca|
    requires forall k :: 0 <= k < count ==> SliceInRegion(buf, offset, loca, k)
    ensures Collect(GlyphSlices(buf, offset, loca, count)).Ok?
    ensures 0 <= loca[0] <= loca[count] <= |buf| - offset
    ensures Flatten(Collect(GlyphSlices(buf, offset, loca, count)).value) == buf[offset + loca[0]..offset + loca[count]]
    decreases count
  {
    var slices := GlyphSlices(buf, offset, loca, count);
    GlyphSlicesLoad(buf, offset, loca, count);
    CollectMeaning(slices);
    var vs := Collect(slices).value;
    assert SliceInRegion(buf, offset, loca, count - 1);
    if count == 1 {
      assert Flatten(vs) == vs[0] + Flatten(vs[1..]);
    } else {
      GlyphSlicesTile(buf, offset, loca, count - 1);
      var prev := GlyphSlices(buf, offset, loca, count - 1);
      CollectMeaning(prev);
      assert slices[..count - 1] == prev;
      assert vs[..count - 1] == Collect(prev).value;
      FlattenSnoc(vs[..count - 1], vs[count - 1]);
      assert vs == vs[..count - 1] + [vs[count - 1]];
      assert buf[offset + loca[0]..offset + loca[count]] ==
             buf[offset + loca[0]..offset + loca[count - 1]] + buf[offset + loca[count - 1]..offset + loca[count]];
    }
  }

  function Flatten(parts: seq<seq<Byte>>): (r: seq<Byte>)
  {
    if |parts| == 0 then [] else parts[0] + Flatten(parts[1..])
  }

  lemma {:induction false} FlattenSnoc(parts: seq<seq<Byte>>, last: seq<Byte>)
    ensures Flatten(parts + [last]) == Flatten(parts) + last
    decreases |parts|
  {
    if |parts| == 0 {
      assert parts + [last] == [last];
      assert Flatten([last]) == last + Flatten([]);
    } else {
      assert (parts + [last])[1..] == parts[1..] + [last];
      FlattenSnoc(parts[1..], last);
    }
  }

  /**
   * `load_raw_table`: a missing table is empty; a table must start inside
   * the buffer, end inside it and not be empty.
   */
  function LoadRawTable(dir: seq<DirEntry>, buf: seq<Byte>, tag: string): (r: Rvoe<seq<Byte>>)
    requires Readable(dir, buf)
    ensures FindEntry(dir, tag).None? ==> r == Ok([])
    ensures FindEntry(dir, tag).Some? ==>
              var e := FindEntry(dir, tag).value;
              (r.Ok? <==> e.offset + e.length <= |buf| && e.length > 0) &&
              (r.Ok? ==> r.value == buf[e.offset..e.offset + e.length] && |r.value| > 0) &&
              (r.Err? ==> r.error == IndexOutOfBounds)
  {
    var e := FindEntry(dir, tag);
    if e.None? then Ok([])
    else if e.value.offset > |buf| then Err(IndexOutOfBounds)
    else
      var endOffset := e.value.offset + e.value.length;
      if endOffset > |buf| then Err(IndexOutOfBounds)
      else if endOffset <= e.value.offset then Err(IndexOutOfBounds)
      else Ok(buf[e.value.offset..endOffset])
  }

  // ---------------------------------------------------------------------
  // Composite glyphs
  // ---------------------------------------------------------------------

  /** `num_contours`: the signed 16-bit count at the start of the glyph header. */
  function NumContours(glyph: seq<Byte>): (r: Rvoe<int>)
    requires |glyph| < TwoTo32
    ensures r.Ok? <==> |glyph| >= 2
    ensures r.Err? ==> r.error == IndexOutOfBounds
  {
    var v :- ExtractAndSwap(glyph, 0, 2);
    Ok(Int16(v))
  }

  /** `is_composite_glyph`: empty data is a simple (empty) glyph; otherwise a negative contour count. */
  function IsCompositeGlyph(glyph: seq<Byte>): (r: Rvoe<bool>)
    requires |glyph| < TwoTo32
    ensures |glyph| == 0 ==> r == Ok(false)
    ensures |glyph| > 0 ==> r == (var n :- NumContours(glyph); Ok(n < 0))
  {
    if |glyph| == 0 then Ok(false)
    else
      var numc :- NumContours(glyph);
      Ok(numc < 0)
  }

  /** A glyph is composite exactly when the top bit of its first byte is set. */
  lemma {:induction false} CompositeIffSignBit(glyph: seq<Byte>)
    requires |glyph| < TwoTo32
    ensures |glyph| == 1 ==> IsCompositeGlyph(glyph) == Err(IndexOutOfBounds)
    ensures |glyph| >= 2 ==> IsCompositeGlyph(glyph) == Ok(glyph[0] >= 0x80)
  {
    if |glyph| >= 2 {
      var w := glyph[..2];
      assert w[..1] == [glyph[0]] && [glyph[0]][..0] == [];
      assert BeValue(w) == 256 * (glyph[0] as int) + glyph[1];
    }
  }

  /** Bit 0x20 of a component's flags: another component follows. */
  predicate MoreComponents(flags: nat)
  {
    (flags / 0x20) % 2 == 1
  }

  /** Bit 0x01 of a component's flags: the two arguments are words, not bytes. */
  predicate ArgsAreWords(flags: nat)
  {
    flags % 2 == 1
  }

  /** Where the component record after the one at `off` starts. */
  function NextComponent(off: nat, flags: nat): (r: nat)
    ensures r == off + 2 + 2 + (if ArgsAreWords(flags) then 4 else 2)
  {
    off + 2 + 2 + if ArgsAreWords(flags) then 2 * 2 else 2 * 1
  }

  /**
   * The component glyph ids of the composite records starting at `off` of
   * the data after the 10-byte glyph header: each record is a flags word
   * and a glyph index, then two arguments, and the walk goes on while
   * MORE_COMPONENTS is set.
   */
  function ComponentIds(data: seq<Byte>, off: nat): (r: Rvoe<seq<nat>>)
    requires |data| < TwoTo32 && off <= |data| + 4
    ensures r.Ok? ==> |r.value| >= 1 && forall i :: 0 <= i < |r.value| ==> r.value[i] < TwoTo16
    ensures r.Err? ==> r.error == IndexOutOfBounds
    decreases |data| + 4 - off
  {
    var flags :- ExtractAndSwap(data, off, 2);
    var gid :- ExtractAndSwap(data, off + 2, 2);
    if MoreComponents(flags) then
      var rest :- ComponentIds(data, NextComponent(off, flags));
      Ok([gid] + rest)
    else Ok([gid])
  }

  /**
   * `composite_subglyphs`: the glyph must be composite, and its header
   * (10 bytes) present.
   */
  method CompositeSubglyphs(glyph: seq<Byte>) returns (r: Rvoe<seq<nat>>)
    requires 10 <= |glyph| < TwoTo32 && IsCompositeGlyph(glyph) == Ok(true)
    ensures r == ComponentIds(glyph[10..], 0)
  {
    var data := glyph[10..];
    var subglyphs: seq<nat> := [];
    var off := 0;
    var more := true;
    assert Prepend(subglyphs, ComponentIds(data, off)) == ComponentIds(data, 0) by {
      var whole := ComponentIds(data, 0);
      if whole.Ok? {
        assert [] + whole.value == whole.value;
      }
    }
    while more
      invariant off <= |data| + 4
      invariant more ==> ComponentIds(data, 0) == Prepend(subglyphs, ComponentIds(data, off))
      invariant !more ==> ComponentIds(data, 0) == Ok(subglyphs)
      decreases if more then |data| + 5 - off else 0
    {
      var flags := ExtractAndSwap(data, off, 2);
      if flags.Err? {
        return Err(flags.error);
      }
      var gid := ExtractAndSwap(data, off + 2, 2);
      if gid.Err? {
        return Err(gid.error);
      }
      var next := NextComponent(off, flags.value);
      ghost var rest := if MoreComponents(flags.value) then ComponentIds(data, next) else Ok([]);
      ComponentIdsStep(data, off, flags.value, gid.value);
      PrependTwice(subglyphs, [gid.value], rest);
      subglyphs := subglyphs + [gid.value];
      off := next;
      more := MoreComponents(flags.value);
    }
    return Ok(subglyphs);
  }

  /** Each component record is at least six bytes, so a walk yields at most |data| / 6 + 1 ids. */
  lemma {:induction false} ComponentCountBound(data: seq<Byte>, off: nat)
    requires |data| < TwoTo32 && off <= |data| + 4
    ensures ComponentIds(data, off).Ok? ==> off + 4 <= |data| && 6 * (|ComponentIds(data, off).value| - 1) + off + 4 <= |data|
    decreases |data| + 4 - off
  {
    var flags := ExtractAndSwap(data, off, 2);
    var gid := ExtractAndSwap(data, off + 2, 2);
    if flags.Ok? && gid.Ok? && MoreComponents(flags.value) {
      ComponentCountBound(data, NextComponent(off, flags.value));
    }
  }

  /** The data with the big-endian 16-bit value `v` written at `at`. */
  function PatchIndex(data: seq<Byte>, at: nat, v: nat): (r: seq<Byte>)
    requires at + 2 <= |data| && v < TwoTo16
    ensures |r| == |data|
    ensures r[..at] == data[..at] && r[at + 2..] == data[at + 2..]
    ensures r[at..at + 2] == [v / 256, v % 256]
  {
    data[..at] + [v / 256, v % 256] + data[at + 2..]
  }

  /** Patching after a prefix is patching the remainder. */
  lemma {:induction false} PatchSuffix(data: seq<Byte>, skip: nat, at: nat, v: nat)
    requires skip + at + 2 <= |data| && v < TwoTo16
    ensures PatchIndex(data, skip + at, v)[skip..] == PatchIndex(data[skip..], at, v)
  {
    assert data[skip..][..at] == data[skip..skip + at];
    assert data[skip..][at + 2..] == data[skip + at + 2..];
  }

  /**
   * Every glyph index the walk from `off` meets before it stops is a key of
   * the mapping (`reassign_composite_glyph_numbers` aborts at the first
   * one that is not).
   */
  predicate ComponentsMapped(data: seq<Byte>, off: nat, mapping: map<nat, nat>)
    requires |data| < TwoTo32 && off <= |data| + 4
    decreases |data| + 4 - off
  {
    var flags := ExtractAndSwap(data, off, 2);
    var gid := ExtractAndSwap(data, off + 2, 2);
    flags.Ok? && gid.Ok? ==>
      gid.value in mapping &&
      (MoreComponents(flags.value) ==> ComponentsMapped(data, NextComponent(off, flags.value), mapping))
  }

  /** The walk from `off` reads nothing before `off`. */
  lemma {:induction false} WalkFrame(data: seq<Byte>, other: seq<Byte>, off: nat, mapping: map<nat, nat>)
    requires |data| == |other| < TwoTo32 && off <= |data| + 4
    requires forall p :: off <= p < |data| ==> data[p] == other[p]
    ensures ComponentIds(data, off) == ComponentIds(other, off)
    ensures ComponentsMapped(data, off, mapping) == ComponentsMapped(other, off, mapping)
    decreases |data| + 4 - off
  {
    if off + 2 <= |data| {
      assert data[off..off + 2] == other[off..off + 2];
    }
    if off + 4 <= |data| {
      assert data[off + 2..off + 4] == other[off + 2..off + 4];
      var flags := ExtractAndSwap(data, off, 2);
      if MoreComponents(flags.value) {
        WalkFrame(data, other, NextComponent(off, flags.value), mapping);
      }
    }
  }

  /**
   * The rewrite the loop of `reassign_composite_glyph_numbers` performs
   * from the record at `off`: each glyph index becomes its mapped value,
   * truncated to the 16 bits of the field. The status is that of the walk;
   * a failed read leaves the earlier rewrites in place.
   */
  function Reassigned(data: seq<Byte>, off: nat, mapping: map<nat, nat>): (r: (seq<Byte>, Status))
    requires |data| < TwoTo32 && off <= |data| + 4 && ComponentsMapped(data, off, mapping)
    ensures |r.0| == |data|
    decreases |data| + 4 - off
  {
    var flags := ExtractAndSwap(data, off, 2);
    var gid := ExtractAndSwap(data, off + 2, 2);
    if flags.Err? || gid.Err? then (data, Err(IndexOutOfBounds))
    else
      var patched := PatchIndex(data, off + 2, mapping[gid.value] % TwoTo16);
      if MoreComponents(flags.value) then
        var next := NextComponent(off, flags.value);
        WalkFrame(data, patched, next, mapping);
        Reassigned(patched, next, mapping)
      else (patched, Success)
  }

  /** One record of the rewrite: patch its index, then go on from the next record. */
  lemma {:induction false} ReassignedStep(data: seq<Byte>, off: nat, mapping: map<nat, nat>)
    requires |data| < TwoTo32 && off <= |data| + 4 && ComponentsMapped(data, off, mapping)
    requires ExtractAndSwap(data, off, 2).Ok? && ExtractAndSwap(data, off + 2, 2).Ok?
    ensures ExtractAndSwap(data, off + 2, 2).value in mapping
    ensures var flags := ExtractAndSwap(data, off, 2).value;
      var patched := PatchIndex(data, off + 2, mapping[ExtractAndSwap(data, off + 2, 2).value] % TwoTo16);
      var next := NextComponent(off, flags);
      if MoreComponents(flags) then
        next <= |data| + 4 && ComponentsMapped(patched, next, mapping) &&
        Reassigned(data, off, mapping) == Reassigned(patched, next, mapping)
      else Reassigned(data, off, mapping) == (patched, Success)
  {
    var flags := ExtractAndSwap(data, off, 2).value;
    var patched := PatchIndex(data, off + 2, mapping[ExtractAndSwap(data, off + 2, 2).value] % TwoTo16);
    if MoreComponents(flags) {
      WalkFrame(data, patched, NextComponent(off, flags), mapping);
    }
  }

  /** Stores `v` big-endian in the two bytes at `at`. */
  method WriteIndex(buf: array<Byte>, at: nat, v: nat)
    requires at + 2 <= buf.Length && v < TwoTo16
    modifies buf
    ensures buf[..] == PatchIndex(old(buf[..]), at, v)
  {
    buf[at] := v / 256;
    buf[at + 1] := v % 256;
    assert buf[..] == old(buf[..])[..at] + [v / 256, v % 256] + old(buf[..])[at + 2..];
  }

  /**
   * One pass of the loop of `reassign_composite_glyph_numbers`: reads the
   * record at `off` of the data after the header, patches its glyph index
   * and answers where the next record starts, or None after the last one.
   */
  method ReassignRecord(buf: array<Byte>, off: nat, mapping: map<nat, nat>) returns (r: Rvoe<Option<nat>>)
    requires 10 <= buf.Length < TwoTo32 && off <= buf.Length - 10 + 4
    requires ComponentsMapped(buf[10..], off, mapping)
    modifies buf
    ensures buf[..10] == old(buf[..10])
    ensures r.Err? ==> Reassigned(old(buf[10..]), off, mapping) == (buf[10..], Err(r.error))
    ensures r.Ok? && r.value.None? ==> Reassigned(old(buf[10..]), off, mapping) == (buf[10..], Success)
    ensures r.Ok? && r.value.Some? ==>
      off < r.value.value <= buf.Length - 10 + 4 && ComponentsMapped(buf[10..], r.value.value, mapping) &&
      Reassigned(old(buf[10..]), off, mapping) == Reassigned(buf[10..], r.value.value, mapping)
  {
    var headerSize := 10;
    var data := buf[headerSize..];
    var flags :- ExtractAndSwap(data, off, 2);
    var indexOffset := off + 2;
    var gid :- ExtractAndSwap(data, indexOffset, 2);
    var next := NextComponent(off, flags);
    var v := mapping[gid] % TwoTo16;
    ReassignedStep(data, off, mapping);
    ghost var whole := buf[..];
    WriteIndex(buf, headerSize + indexOffset, v);
    PatchSuffix(whole, headerSize, indexOffset, v);
    if MoreComponents(flags) {
      return Ok(Some(next));
    }
    return Ok(None);
  }

  /** `reassign_composite_glyph_numbers`: patches the component indices of a glyph in place. */
  method ReassignCompositeGlyphNumbers(buf: array<Byte>, mapping: map<nat, nat>) returns (r: Status)
    requires 10 <= buf.Length < TwoTo32 && ComponentsMapped(buf[10..], 0, mapping)
    modifies buf
    ensures buf[..10] == old(buf[..10])
    ensures (buf[10..], r) == Reassigned(old(buf[10..]), 0, mapping)
  {
    ghost var target := Reassigned(buf[10..], 0, mapping);
    var off := 0;
    while true
      invariant off <= buf.Length - 10 + 4
      invariant buf[..10] == old(buf[..10])
      invariant ComponentsMapped(buf[10..], off, mapping)
      invariant target == Reassigned(buf[10..], off, mapping)
      decreases buf.Length + 4 - off
    {
      var step := ReassignRecord(buf, off, mapping);
      if step.Err? {
        return Err(step.error);
      }
      if step.value.None? {
        return Success;
      }
      off := step.value.value;
    }
  }

  /** The rewrite leaves every byte before the walk's start alone. */
  lemma {:induction false} ReassignedKeepsPrefix(data: seq<Byte>, off: nat, mapping: map<nat, nat>)
    requires |data| < TwoTo32 && off <= |data| + 4 && ComponentsMapped(data, off, mapping)
    ensures forall p :: 0 <= p < off && p < |data| ==> Reassigned(data, off, mapping).0[p] == data[p]
    decreases |data| + 4 - off
  {
    var flags := ExtractAndSwap(data, off, 2);
    var gid := ExtractAndSwap(data, off + 2, 2);
    if flags.Ok? && gid.Ok? && MoreComponents(flags.value) {
      var patched := PatchIndex(data, off + 2, mapping[gid.value] % TwoTo16);
      var next := NextComponent(off, flags.value);
      WalkFrame(data, patched, next, mapping);
      ReassignedKeepsPrefix(patched, next, mapping);
    }
  }

  /** The component ids mapped through `mapping`, each truncated to 16 bits. */
  function MapIds(ids: seq<nat>, mapping: map<nat, nat>): (r: seq<nat>)
    requires forall i :: 0 <= i < |ids| ==> ids[i] in mapping
    ensures |r| == |ids| && forall i :: 0 <= i < |ids| ==> r[i] == mapping[ids[i]] % TwoTo16
  {
    seq(|ids|, i requires 0 <= i < |ids| => mapping[ids[i]] % TwoTo16)
  }

  /** The record at `off` reads back with its flags kept and its index mapped. */
  lemma {:induction false} ReassignedHead(data: seq<Byte>, off: nat, mapping: map<nat, nat>)
    requires |data| < TwoTo32 && off <= |data| + 4 && ComponentsMapped(data, off, mapping)
    requires ExtractAndSwap(data, off, 2).Ok? && ExtractAndSwap(data, off + 2, 2).Ok?
    ensures ExtractAndSwap(data, off + 2, 2).value in mapping
    ensures ExtractAndSwap(Reassigned(data, off, mapping).0, off, 2) == ExtractAndSwap(data, off, 2)
    ensures ExtractAndSwap(Reassigned(data, off, mapping).0, off + 2, 2)
      == Ok(mapping[ExtractAndSwap(data, off + 2, 2).value] % TwoTo16)
  {
    var flags := ExtractAndSwap(data, off, 2).value;
    var gid := ExtractAndSwap(data, off + 2, 2).value;
    var v := mapping[gid] % TwoTo16;
    var patched := PatchIndex(data, off + 2, v);
    ReassignedStep(data, off, mapping);
    var result := Reassigned(data, off, mapping).0;
    if MoreComponents(flags) {
      var next := NextComponent(off, flags);
      ReassignedKeepsPrefix(patched, next, mapping);
      forall p | off <= p < off + 4
        ensures result[p] == patched[p]
      {
      }
    }
    assert result[off..off + 2] == data[off..off + 2];
    assert result[off + 2..off + 4] == [v / 256, v % 256];
    assert BeValue([v / 256, v % 256]) == v by {
      assert [v / 256, v % 256][..1] == [v / 256];
      assert [v / 256][..0] == [];
    }
  }

  /**
   * On a well-formed composite glyph the rewrite succeeds, and walking the
   * rewritten data yields the mapped ids in the same order: only the index
   * fields changed, and each to its mapped value.
   */
  lemma {:induction false} ReassignedRoundTrip(data: seq<Byte>, off: nat, mapping: map<nat, nat>)
    requires |data| < TwoTo32 && off <= |data| + 4 && ComponentsMapped(data, off, mapping)
    requires ComponentIds(data, off).Ok?
    ensures forall i :: 0 <= i < |ComponentIds(data, off).value| ==> ComponentIds(data, off).value[i] in mapping
    ensures Reassigned(data, off, mapping).1 == Success
    ensures ComponentIds(Reassigned(data, off, mapping).0, off) == Ok(MapIds(ComponentIds(data, off).value, mapping))
    decreases |data| + 4 - off
  {
    ReassignedStep(data, off, mapping);
    ReassignedHead(data, off, mapping);
    var flags := ExtractAndSwap(data, off, 2).value;
    var gid := ExtractAndSwap(data, off + 2, 2).value;
    var v := mapping[gid] % TwoTo16;
    var out := Reassigned(data, off, mapping).0;
    ComponentIdsStep(data, off, flags, gid);
    ComponentIdsStep(out, off, flags, v);
    if MoreComponents(flags) {
      var patched := PatchIndex(data, off + 2, v);
      var next := NextComponent(off, flags);
      WalkFrame(data, patched, next, mapping);
      ReassignedRoundTrip(patched, next, mapping);
      MapIdsCons(gid, ComponentIds(data, next).value, mapping);
    } else {
      assert MapIds([gid], mapping) == [v];
    }
  }

  /** The walk from `off`, given the flags and index read there. */
  lemma {:induction false} ComponentIdsStep(data: seq<Byte>, off: nat, flags: nat, gid: nat)
    requires |data| < TwoTo32 && off <= |data| + 4
    requires ExtractAndSwap(data, off, 2) == Ok(flags) && ExtractAndSwap(data, off + 2, 2) == Ok(gid)
    ensures NextComponent(off, flags) <= |data| + 4
    ensures ComponentIds(data, off)
         == Prepend([gid], if MoreComponents(flags) then ComponentIds(data, NextComponent(off, flags)) else Ok([]))
  {
    assert [gid] + [] == [gid];
  }

  /** Mapping a walk that starts with `id`. */
  lemma {:induction false} MapIdsCons(id: nat, rest: seq<nat>, mapping: map<nat, nat>)
    requires id in mapping && forall i :: 0 <= i < |rest| ==> rest[i] in mapping
    ensures forall i :: 0 <= i < |[id] + rest| ==> ([id] + rest)[i] in mapping
    ensures MapIds([id] + rest, mapping) == [mapping[id] % TwoTo16] + MapIds(rest, mapping)
  {
  }

}
