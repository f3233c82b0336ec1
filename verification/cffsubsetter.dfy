// Reading and writing the Compact Font Format structures the CFF subsetter
// works on (src/cffsubsetter.cpp, src/cffsubsetter.hpp): bounds-checked
// slicing, INDEX structures, DICT operand/operator coding and the FDSelect
// ranges of a CID-keyed font. The byte formats are those of Adobe Technical
// Note #5176 (section 4, DICT data; section 5, INDEX data).
//
// Positions are `nat`: the source's size_t arithmetic cannot wrap for inputs
// shorter than 2^63 bytes, which every requires below demands.

module CffSubsetter {
  import opened Errors
  import opened BitFiddling

  const TwoTo16: nat := 0x1_0000
  const TwoTo31: nat := 0x8000_0000
  const TwoTo32: nat := 0x1_0000_0000

  /** The big-endian encoding of `v` in `width` bytes (higher bytes of `v` dropped). */
  function Be(v: nat, width: nat): seq<Byte>
  {
    ByteSwap(LeBytes(v, width))
  }

  /** A value written with `Be` is read back by `extract_and_swap`. */
  lemma {:induction false} BeRead(data: seq<Byte>, pos: nat, v: nat, width: nat)
    requires |data| < TwoTo63 && pos + width <= |data|
    requires v < Pow256(width) && data[pos..pos + width] == Be(v, width)
    ensures BeValue(data[pos..pos + width]) == v
    ensures ExtractAndSwap(data, pos, width) == Ok(v)
  {
    ReversedImageIsBigEndian(LeBytes(v, width));
    LeRoundTrip(v, width);
  }

  // ---------------------------------------------------------------------
  // Slicing and INDEX offsets
  // ---------------------------------------------------------------------

  /** `safe_subspan`: `size` bytes at `offset`, rejecting an end that overflows or lies past the span. */
  function SafeSubspan(span: seq<Byte>, offset: nat, size: nat): (r: Rvoe<seq<Byte>>)
    requires |span| < TwoTo63 && offset < TwoTo64 && size < TwoTo64
    ensures r.Ok? <==> offset + size <= |span|
    ensures r.Ok? ==> |r.value| == size && r.value == span[offset..offset + size]
    ensures r.Err? ==> r.error == IndexOutOfBounds
  {
    if (offset + size) % TwoTo64 < offset then Err(IndexOutOfBounds)
    else if offset > |span| then Err(IndexOutOfBounds)
    else if offset + size > |span| then Err(IndexOutOfBounds)
    else Ok(span[offset..offset + size])
  }

  /**
   * `extract_index_offset`: an INDEX offset of `offSize` bytes, big-endian.
   * The bounds test is strict, so the byte after the field must exist too.
   */
  function ExtractIndexOffset(data: seq<Byte>, offset: nat, offSize: nat): (r: Rvoe<nat>)
    requires |data| < TwoTo63 && offSize < 256
    ensures r.Ok? <==> offset + offSize < |data| && 1 <= offSize <= 4
    ensures r.Ok? ==> r.value == BeValue(data[offset..offset + offSize])
    ensures r.Err? ==> r.error == (if offset + offSize < |data| then MalformedFontFile else IndexOutOfBounds)
  {
    if |data| <= offset + offSize then Err(IndexOutOfBounds)
    else if offSize == 1 then
      var s := data[offset..offset + 1];
      assert s[..0] == [] && BeValue(s) == s[0];
      Ok(data[offset])
    else if offSize == 2 then ExtractAndSwap(data, offset, 2)
    else if offSize == 3 then
      var s := data[offset..offset + 3];
      assert s[..2][..1][..0] == [] && s[..2][..1] == [s[0]] && s[..2] == [s[0], s[1]];
      assert BeValue(s[..2][..1]) == s[0];
      assert BeValue(s[..2]) == s[0] as int * 256 + s[1] as int;
      Ok(data[offset] as int * 65536 + data[offset + 1] as int * 256 + data[offset + 2] as int)
    else if offSize == 4 then ExtractAndSwap(data, offset, 4)
    else Err(MalformedFontFile)
  }

  /** Every value of `offsets` is positive and none is smaller than the one before. */
  predicate PositiveNondecreasing(offsets: seq<nat>)
  {
    (forall i :: 0 <= i < |offsets| ==> 0 < offsets[i]) &&
    (forall i, j :: 0 <= i <= j < |offsets| ==> offsets[i] <= offsets[j])
  }

  /**
   * The `k` values of an INDEX offset array starting at `pos`, read as
   * `load_index` reads them: each must be positive and no smaller than the
   * previous one (`prev`, 0 before the first), else MalformedFontFile.
   */
  function OffsetsFrom(data: seq<Byte>, pos: nat, offSize: nat, k: nat, prev: nat): (r: Rvoe<seq<nat>>)
    requires |data| < TwoTo63 && offSize < 256
    ensures r.Ok? ==> |r.value| == k && PositiveNondecreasing(r.value)
    ensures r.Ok? ==> forall i :: 0 <= i < k ==> prev <= r.value[i]
    ensures r.Ok? && k > 0 ==> 1 <= offSize <= 4
    decreases k
  {
    if k == 0 then Ok([])
    else
      var c :- ExtractIndexOffset(data, pos, offSize);
      if c == 0 || c < prev then Err(MalformedFontFile)
      else Prepend([c], OffsetsFrom(data, pos + offSize, offSize, k - 1, c))
  }

  // ---------------------------------------------------------------------
  // INDEX reading
  // ---------------------------------------------------------------------

  /** The entries of an INDEX and the position just past it. */
  datatype IndexRead = IndexRead(entries: seq<seq<Byte>>, next: nat)

  /**
   * What `load_index` reads at `offset`: the count, offSize, count + 1
   * offsets, then the entries, which lie between consecutive offsets counted
   * from the byte before the data area. A zero count yields no entries and
   * leaves the position where it was.
   */
  function IndexAt(data: seq<Byte>, offset: nat): (r: Rvoe<IndexRead>)
    requires |data| < TwoTo63 && offset < TwoTo64
    ensures r.Ok? ==> offset + 2 <= |data|
    ensures r.Ok? && r.value.entries == [] ==> r.value.next == offset
    ensures r.Ok? && r.value.entries != [] ==> offset + 2 < r.value.next <= |data|
  {
    var count :- ExtractAndSwap(data, offset, 2);
    if count == 0 then Ok(IndexRead([], offset))
    else
      var offSize :- Extract(data, offset + 2, 1);
      if offSize > 5 then Err(MalformedFontFile)
      else
        var offsets :- OffsetsFrom(data, offset + 3, offSize, count + 1, 0);
        IndexEntries(data, DataBase(offset, count, offSize), offsets)
  }

  /** The byte before the data area of an INDEX at `offset`: past the count, the offSize byte and `count + 1` offsets, minus one. */
  function DataBase(offset: nat, count: nat, offSize: nat): (r: nat)
    ensures offset + 2 <= r
  {
    offset + 2 + (count + 1) * offSize
  }

  /**
   * The entries an offset array delimits, counted from `base` (the byte
   * before the data area); the last offset must stay within the data.
   */
  function IndexEntries(data: seq<Byte>, base: nat, offsets: seq<nat>): (r: Rvoe<IndexRead>)
    requires 2 <= |offsets| && PositiveNondecreasing(offsets)
    ensures r.Ok? <==> base + offsets[|offsets| - 1] <= |data|
    ensures r.Ok? ==> |r.value.entries| == |offsets| - 1 && base < r.value.next <= |data|
    ensures r.Err? ==> r.error == MalformedFontFile
  {
    var count := |offsets| - 1;
    if base + offsets[count] > |data| then Err(MalformedFontFile)
    else
      Ok(IndexRead(seq(count, i requires 0 <= i < count => data[base + offsets[i]..base + offsets[i + 1]]),
                   base + offsets[count]))
  }

  /**
   * `load_index` as the INDEX format defines it: an empty INDEX still
   * occupies its 2-byte count, so reading goes on after it.
   */
  function ReadIndex(data: seq<Byte>, offset: nat): (r: Rvoe<IndexRead>)
    requires |data| < TwoTo63 && offset < TwoTo64
    ensures r.Ok? ==> offset + 2 <= r.value.next <= |data|
    ensures r.Ok? <==> IndexAt(data, offset).Ok?
    ensures r.Ok? ==> r.value.entries == IndexAt(data, offset).value.entries
  {
    var read :- IndexAt(data, offset);
    if read.entries == [] then Ok(IndexRead([], offset + 2)) else Ok(read)
  }

  /** `load_index`: the INDEX at `offset`, and where `offset` ends up. */
  method LoadIndex(data: seq<Byte>, offset: nat) returns (r: Rvoe<seq<seq<Byte>>>, next: nat)
    requires |data| < TwoTo63 && offset < TwoTo64
    ensures r.Ok? <==> IndexAt(data, offset).Ok?
    ensures r.Err? ==> r.error == IndexAt(data, offset).error
    ensures r.Ok? ==> IndexAt(data, offset).value == IndexRead(r.value, next)
  {
    next := offset;
    var cnt := ExtractAndSwap(data, next, 2);
    if cnt.Err? {
      return Err(cnt.error), next;
    }
    var count := cnt.value;
    if count == 0 {
      return Ok([]), next;
    }
    next := next + 2;
    var os := Extract(data, next, 1);
    if os.Err? {
      return Err(os.error), next;
    }
    var offSize := os.value;
    next := next + 1;
    if offSize > 5 {
      return Err(MalformedFontFile), next;
    }
    var offsets := ReadOffsets(data, next, offSize, count + 1);
    if offsets.Err? {
      return Err(offsets.error), next;
    }
    next := DataBase(offset, count, offSize);
    var entries := ReadEntries(data, next, offsets.value);
    if entries.Err? {
      return Err(entries.error), next;
    }
    next := next + offsets.value[count];
    return Ok(entries.value), next;
  }

  /** The loop state of `ReadOffsets`: what is read so far, followed by the rest, is the whole array. */
  ghost predicate OffsetsSoFar(whole: Rvoe<seq<nat>>, offsets: seq<nat>, data: seq<Byte>, at: nat, offSize: nat,
                               k: nat, prev: nat)
    requires |data| < TwoTo63 && offSize < 256
  {
    whole == Prepend(offsets, OffsetsFrom(data, at, offSize, k, prev))
  }

  /** One offset read: the offsets so far grow by it and the rest is read from the next position. */
  lemma {:induction false} OffsetsStep(whole: Rvoe<seq<nat>>, offsets: seq<nat>, data: seq<Byte>, at: nat, offSize: nat,
                                       k: nat, prev: nat, c: nat)
    requires |data| < TwoTo63 && offSize < 256 && k > 0
    requires ExtractIndexOffset(data, at, offSize) == Ok(c) && c > 0 && prev <= c
    requires OffsetsSoFar(whole, offsets, data, at, offSize, k, prev)
    ensures OffsetsSoFar(whole, offsets + [c], data, at + offSize, offSize, k - 1, c)
  {
    assert OffsetsFrom(data, at, offSize, k, prev) == Prepend([c], OffsetsFrom(data, at + offSize, offSize, k - 1, c));
    PrependTwice(offsets, [c], OffsetsFrom(data, at + offSize, offSize, k - 1, c));
  }

  /** The next offset of the array, which must be positive and at least the one before. */
  function NextOffset(data: seq<Byte>, at: nat, offSize: nat, prev: nat): (r: Rvoe<nat>)
    requires |data| < TwoTo63 && offSize < 256
    ensures r.Ok? ==> 0 < r.value && prev <= r.value
  {
    var c :- ExtractIndexOffset(data, at, offSize);
    if c == 0 || c < prev then Err(MalformedFontFile) else Ok(c)
  }

  /** An offset that cannot be read, or is zero or smaller than the one before, ends the whole read. */
  lemma {:induction false} OffsetsStop(whole: Rvoe<seq<nat>>, offsets: seq<nat>, data: seq<Byte>, at: nat, offSize: nat,
                                       k: nat, prev: nat)
    requires |data| < TwoTo63 && offSize < 256 && k > 0
    requires OffsetsSoFar(whole, offsets, data, at, offSize, k, prev)
    ensures NextOffset(data, at, offSize, prev).Err? ==> whole == Err(NextOffset(data, at, offSize, prev).error)
    ensures NextOffset(data, at, offSize, prev).Ok? ==> ExtractIndexOffset(data, at, offSize) == NextOffset(data, at, offSize, prev)
  {
  }

  /** With nothing left to read, the offsets so far are the whole array. */
  lemma {:induction false} OffsetsDone(whole: Rvoe<seq<nat>>, offsets: seq<nat>, data: seq<Byte>, at: nat, offSize: nat,
                                       prev: nat)
    requires |data| < TwoTo63 && offSize < 256
    requires OffsetsSoFar(whole, offsets, data, at, offSize, 0, prev)
    ensures whole == Ok(offsets)
  {
    assert offsets + [] == offsets;
  }

  /** One iteration's read and check. */
  method ReadNextOffset(data: seq<Byte>, at: nat, offSize: nat, prev: nat) returns (r: Rvoe<nat>)
    requires |data| < TwoTo63 && offSize < 256
    ensures r == NextOffset(data, at, offSize, prev)
  {
    var c := ExtractIndexOffset(data, at, offSize);
    if c.Err? {
      return Err(c.error);
    }
    if c.value <= 0 || prev > c.value {
      return Err(MalformedFontFile);
    }
    return Ok(c.value);
  }

  /** The offset-array loop of `load_index`: `n` offsets of `offSize` bytes from `pos`. */
  method ReadOffsets(data: seq<Byte>, pos: nat, offSize: nat, n: nat) returns (r: Rvoe<seq<nat>>)
    requires |data| < TwoTo63 && offSize < 256
    ensures r == OffsetsFrom(data, pos, offSize, n, 0)
  {
    ghost var whole := OffsetsFrom(data, pos, offSize, n, 0);
    var offsets: seq<nat> := [];
    var at: nat := pos;
    assert OffsetsSoFar(whole, offsets, data, at, offSize, n, 0) by {
      if whole.Ok? {
        assert [] + whole.value == whole.value;
      }
    }
    var prev: nat := 0;
    for i := 0 to n
      invariant |offsets| == i
      invariant OffsetsSoFar(whole, offsets, data, at, offSize, n - i, prev)
    {
      var c := ReadNextOffset(data, at, offSize, prev);
      OffsetsStop(whole, offsets, data, at, offSize, n - i, prev);
      if c.Err? {
        return Err(c.error);
      }
      OffsetsStep(whole, offsets, data, at, offSize, n - i, prev, c.value);
      offsets := offsets + [c.value];
      at := at + offSize;
      prev := c.value;
    }
    OffsetsDone(whole, offsets, data, at, offSize, prev);
    return Ok(offsets);
  }

  /** The entry loop of `load_index`: the slices between consecutive offsets, counted from `base`. */
  method ReadEntries(data: seq<Byte>, base: nat, offsets: seq<nat>) returns (r: Rvoe<seq<seq<Byte>>>)
    requires |data| < TwoTo63 && 2 <= |offsets| < TwoTo16 + 1 && PositiveNondecreasing(offsets)
    ensures r.Ok? <==> IndexEntries(data, base, offsets).Ok?
    ensures r.Err? ==> r.error == MalformedFontFile
    ensures r.Ok? ==> r.value == IndexEntries(data, base, offsets).value.entries
  {
    var count := |offsets| - 1;
    var entries: seq<seq<Byte>> := [];
    for j := 0 to count
      invariant |entries| == j
      invariant forall k :: 0 <= k < j ==> Delimited(data, base, offsets, entries, k)
    {
      assert offsets[j] <= offsets[j + 1] <= offsets[count];
      var entrysize := offsets[j + 1] - offsets[j];
      if base + offsets[j] > |data| || base + offsets[j] + entrysize > |data| {
        return Err(MalformedFontFile);
      }
      var entry := SafeSubspan(data, base + offsets[j], entrysize);
      ghost var before := entries;
      entries := entries + [entry.value];
      forall k | 0 <= k <= j
        ensures Delimited(data, base, offsets, entries, k)
      {
        if k < j {
          assert Delimited(data, base, offsets, before, k);
        }
      }
    }
    assert Delimited(data, base, offsets, entries, count - 1);
    assert entries == IndexEntries(data, base, offsets).value.entries by {
      forall k | 0 <= k < count
        ensures entries[k] == IndexEntries(data, base, offsets).value.entries[k]
      {
        assert Delimited(data, base, offsets, entries, k);
      }
    }
    return Ok(entries);
  }

  /** `load_index` with the empty INDEX skipped as the format defines: the position moves past its count. */
  method LoadIndexAdvancing(data: seq<Byte>, offset: nat) returns (r: Rvoe<seq<seq<Byte>>>, next: nat)
    requires |data| < TwoTo63 && offset < TwoTo64
    ensures r.Ok? <==> ReadIndex(data, offset).Ok?
    ensures r.Err? ==> r.error == ReadIndex(data, offset).error
    ensures r.Ok? ==> ReadIndex(data, offset).value == IndexRead(r.value, next)
  {
    r, next := LoadIndex(data, offset);
    if r.Ok? && r.value == [] {
      next := offset + 2;
    }
  }

  // ---------------------------------------------------------------------
  // INDEX writing
  // ---------------------------------------------------------------------

  /** The entries laid end to end. */
  function Concat(entries: seq<seq<Byte>>): seq<Byte>
  {
    if entries == [] then [] else Concat(entries[..|entries| - 1]) + entries[|entries| - 1]
  }

  /** How many data bytes the first `i` entries occupy. */
  function Before(entries: seq<seq<Byte>>, i: nat): nat
    requires i <= |entries|
  {
    if i == 0 then 0 else |entries[0]| + Before(entries[1..], i - 1)
  }

  /** Counting one more entry adds its size. */
  lemma {:induction false} BeforeSnoc(entries: seq<seq<Byte>>, i: nat)
    requires i < |entries|
    ensures Before(entries, i + 1) == Before(entries, i) + |entries[i]|
    decreases i
  {
    if i > 0 {
      BeforeSnoc(entries[1..], i - 1);
    }
  }

  lemma {:induction false} BeforeMonotonic(entries: seq<seq<Byte>>, i: nat, j: nat)
    requires i <= j <= |entries|
    ensures Before(entries, i) <= Before(entries, j)
    decreases j
  {
    if i < j {
      BeforeMonotonic(entries, i, j - 1);
      BeforeSnoc(entries, j - 1);
    }
  }

  lemma {:induction false} BeforeOfPrefix(entries: seq<seq<Byte>>, m: nat, k: nat)
    requires k <= m <= |entries|
    ensures Before(entries[..m], k) == Before(entries, k)
    decreases k
  {
    if k > 0 {
      assert entries[..m][1..] == entries[1..][..m - 1];
      BeforeOfPrefix(entries[1..], m - 1, k - 1);
    }
  }

  /** The concatenation is as long as all the entries together. */
  lemma {:induction false} ConcatLength(entries: seq<seq<Byte>>)
    ensures |Concat(entries)| == Before(entries, |entries|)
    decreases |entries|
  {
    if entries != [] {
      var n := |entries|;
      ConcatLength(entries[..n - 1]);
      BeforeOfPrefix(entries, n - 1, n - 1);
      BeforeSnoc(entries, n - 1);
    }
  }

  /** Entry `i` occupies the bytes of the concatenation right after those of the entries before it. */
  lemma {:induction false} ConcatEntry(entries: seq<seq<Byte>>, i: nat)
    requires i < |entries|
    ensures Before(entries, i) + |entries[i]| <= |Concat(entries)|
    ensures Concat(entries)[Before(entries, i)..Before(entries, i) + |entries[i]|] == entries[i]
    decreases |entries|
  {
    var n := |entries|;
    var init := entries[..n - 1];
    ConcatLength(init);
    BeforeSnoc(entries, i);
    if i == n - 1 {
      BeforeOfPrefix(entries, n - 1, n - 1);
    } else {
      ConcatEntry(init, i);
      BeforeOfPrefix(entries, n - 1, i);
      BeforeOfPrefix(entries, n - 1, i + 1);
      BeforeMonotonic(init, i + 1, n - 1);
      assert Concat(entries)[..|Concat(init)|] == Concat(init);
    }
  }

  /** `e` occupies the bytes of `data` from `start`. */
  predicate BytesAt(data: seq<Byte>, start: nat, e: seq<Byte>)
  {
    start + |e| <= |data| && data[start..start + |e|] == e
  }

  /** Entry `i` sits in the data area from `area` after the entries before it. */
  predicate Placed(data: seq<Byte>, area: nat, entries: seq<seq<Byte>>, i: nat)
    requires i < |entries|
  {
    BytesAt(data, area + Before(entries, i), entries[i])
  }

  /** The offset of entry `i`: 1 plus the bytes of the entries before it (offsets count from the byte before the data area). */
  function DataOffset(entries: seq<seq<Byte>>, i: nat): nat
    requires i <= |entries|
  {
    1 + Before(entries, i)
  }

  /** A running uint32 total: adding to the truncated value truncates the sum. */
  lemma {:induction false} AddTruncated(a: nat, s: nat)
    ensures (a % TwoTo32 + s) % TwoTo32 == (a + s) % TwoTo32
  {
    assert a == (a / TwoTo32) * TwoTo32 + a % TwoTo32;
    DivModUnique(a + s, TwoTo32, a / TwoTo32 + (a % TwoTo32 + s) / TwoTo32, (a % TwoTo32 + s) % TwoTo32);
  }

  /** The `|entries| + 1` offsets of the offset array. */
  function OffsetArray(entries: seq<seq<Byte>>): (r: seq<nat>)
    ensures |r| == |entries| + 1
  {
    seq(|entries| + 1, i requires 0 <= i <= |entries| => DataOffset(entries, i))
  }

  /** The width of an INDEX count, and the offSize `append_index_to` always uses. */
  const CountWidth: nat := 2
  const FieldWidth: nat := 4

  /** Offsets written as 4-byte big-endian fields, in order; the encoding keeps the low 32 bits of each. */
  function Fields(offsets: seq<nat>): (r: seq<Byte>)
    ensures |r| == 4 * |offsets|
  {
    if offsets == [] then [] else Be(offsets[0], FieldWidth) + Fields(offsets[1..])
  }

  lemma {:induction false} FieldsSnoc(offsets: seq<nat>, i: nat)
    requires i < |offsets|
    ensures Fields(offsets[..i + 1]) == Fields(offsets[..i]) + Be(offsets[i], FieldWidth)
    decreases i
  {
    if i > 0 {
      assert offsets[..i + 1][1..] == offsets[1..][..i];
      assert offsets[..i][1..] == offsets[1..][..i - 1];
      FieldsSnoc(offsets[1..], i - 1);
    }
  }

  /** What `append_index_to` writes: the count (as a uint16), offSize 4, the offset array, then the data. */
  function IndexBytes(entries: seq<seq<Byte>>): (r: seq<Byte>)
    ensures |r| == 7 + 4 * |entries| + |Concat(entries)|
  {
    Be(|entries| % TwoTo16, CountWidth) + [FieldWidth] + Fields(OffsetArray(entries)) + Concat(entries)
  }

  lemma {:induction false} Pow256Values()
    ensures Pow256(1) == 256 && Pow256(CountWidth) == TwoTo16 && Pow256(FieldWidth) == TwoTo32
  {
    assert Pow256(3) == 0x100_0000;
  }

  /** `append_index_to`: appends the INDEX image of `entries` and returns where each entry's data landed. */
  method AppendIndexTo(output: ByteBuffer, entries: seq<seq<Byte>>) returns (positions: seq<nat>)
    modifies output
    ensures output.bytes == old(output.bytes) + IndexBytes(entries)
    ensures |positions| == |entries|
    ensures forall i :: 0 <= i < |entries| ==> BytesAt(output.bytes, positions[i], entries[i])
  {
    ghost var h0 := output.bytes;
    ghost var count, fields := Be(|entries| % TwoTo16, CountWidth), Fields(OffsetArray(entries));
    AppendCount(output, |entries|);
    AppendOffsetArray(output, entries);
    positions := AppendData(output, entries);
    Associate(h0, count, [FieldWidth], fields, Concat(entries));
  }

  lemma {:induction false} Associate(h: seq<Byte>, a: seq<Byte>, b: seq<Byte>, c: seq<Byte>, d: seq<Byte>)
    ensures h + a + b + c + d == h + (a + b + c + d)
  {
  }

  /** The head of `append_index_to`: the count, truncated to a uint16, and offSize 4. */
  method AppendCount(output: ByteBuffer, count: nat)
    modifies output
    ensures output.bytes == old(output.bytes) + Be(count % TwoTo16, CountWidth) + [FieldWidth]
  {
    Pow256Values();
    output.SwapAndAppendBytes(count % TwoTo16, CountWidth);
    output.AppendRaw([FieldWidth]);
  }

  /** The offset loop of `append_index_to`: a running uint32 total, written before each entry and once after the last. */
  method AppendOffsetArray(output: ByteBuffer, entries: seq<seq<Byte>>)
    modifies output
    ensures output.bytes == old(output.bytes) + Fields(OffsetArray(entries))
  {
    ghost var offs := OffsetArray(entries);
    var offset: nat := 1;
    assert entries[..0] == [];
    for i := 0 to |entries|
      invariant offset == DataOffset(entries, i) % TwoTo32
      invariant output.bytes == old(output.bytes) + Fields(offs[..i])
    {
      AppendField(output, offset);
      OffsetField(entries, i, offset);
      OffsetStep(entries, i, offset);
      offset := (offset + |entries[i]|) % TwoTo32;
    }
    AppendField(output, offset);
    OffsetField(entries, |entries|, offset);
    assert offs[..|entries| + 1] == offs;
  }

  /** The field written for offset `i` is the `i`-th field of the offset array. */
  lemma {:induction false} OffsetField(entries: seq<seq<Byte>>, i: nat, offset: nat)
    requires i <= |entries| && offset == DataOffset(entries, i) % TwoTo32
    ensures Fields(OffsetArray(entries)[..i + 1]) == Fields(OffsetArray(entries)[..i]) + Be(offset, FieldWidth)
  {
    BeTruncates(DataOffset(entries, i));
    FieldsSnoc(OffsetArray(entries), i);
  }

  /** One turn of the offset loop leaves the running total of the entries so far, truncated. */
  lemma {:induction false} OffsetStep(entries: seq<seq<Byte>>, i: nat, offset: nat)
    requires i < |entries| && offset == DataOffset(entries, i) % TwoTo32
    ensures (offset + |entries[i]|) % TwoTo32 == DataOffset(entries, i + 1) % TwoTo32
  {
    BeforeSnoc(entries, i);
    RunningTotal(DataOffset(entries, i), |entries[i]|, DataOffset(entries, i + 1), offset);
  }

  lemma {:induction false} RunningTotal(before: nat, size: nat, after: nat, offset: nat)
    requires after == before + size && offset == before % TwoTo32
    ensures (offset + size) % TwoTo32 == after % TwoTo32
  {
    AddTruncated(before, size);
  }

  /** The 4-byte field of an offset is that of the offset truncated to a uint32. */
  lemma {:induction false} BeTruncates(v: nat)
    ensures Be(v % TwoTo32, FieldWidth) == Be(v, FieldWidth)
  {
    Pow256Values();
    LeBytesTruncates(v, FieldWidth);
  }

  /** One offset of the offset array: `swap_and_append_bytes` of a uint32. */
  method AppendField(output: ByteBuffer, offset: nat)
    requires offset < TwoTo32
    modifies output
    ensures output.bytes == old(output.bytes) + Be(offset, FieldWidth)
  {
    Pow256Values();
    output.SwapAndAppendBytes(offset, FieldWidth);
  }

  /** The data loop of `append_index_to`: each entry's bytes, recording where they start. */
  method AppendData(output: ByteBuffer, entries: seq<seq<Byte>>) returns (positions: seq<nat>)
    modifies output
    ensures output.bytes == old(output.bytes) + Concat(entries)
    ensures |positions| == |entries|
    ensures forall i :: 0 <= i < |entries| ==> BytesAt(output.bytes, positions[i], entries[i])
  {
    ghost var start := |output.bytes|;
    positions := [];
    assert entries[..0] == [];
    for i := 0 to |entries|
      invariant |positions| == i
      invariant output.bytes == old(output.bytes) + Concat(entries[..i])
      invariant |Concat(entries[..i])| == Before(entries, i)
      invariant forall k :: 0 <= k < i ==> positions[k] == start + Before(entries, k)
    {
      positions := positions + [|output.bytes|];
      assert entries[..i + 1][..i] == entries[..i];
      BeforeSnoc(entries, i);
      output.AppendRaw(entries[i]);
    }
    assert entries[..|entries|] == entries;
    assert output.bytes[start..start + |Concat(entries)|] == Concat(entries);
    EntriesInArea(output.bytes, start, entries);
    forall i | 0 <= i < |entries|
      ensures BytesAt(output.bytes, positions[i], entries[i])
    {
      assert Placed(output.bytes, start, entries, i);
    }
  }

  // ---------------------------------------------------------------------
  // INDEX round trip
  // ---------------------------------------------------------------------

  /** Each offset is positive, no smaller than the one before (`prev` before the first) and fits a uint32. */
  predicate Ascending(prev: nat, offsets: seq<nat>)
    decreases |offsets|
  {
    offsets == [] || (0 < offsets[0] && prev <= offsets[0] < TwoTo32 && Ascending(offsets[0], offsets[1..]))
  }

  /** Positive, non-decreasing offsets whose last fits a uint32 are ascending after any `prev` up to the first. */
  lemma {:induction false} AscendingOfSorted(prev: nat, offsets: seq<nat>)
    requires PositiveNondecreasing(offsets)
    requires offsets != [] ==> prev <= offsets[0] && offsets[|offsets| - 1] < TwoTo32
    ensures Ascending(prev, offsets)
    decreases |offsets|
  {
    if offsets != [] {
      var rest := offsets[1..];
      assert offsets[0] <= offsets[|offsets| - 1];
      if rest != [] {
        assert rest[0] == offsets[1] && offsets[0] <= offsets[1];
        assert rest[|rest| - 1] == offsets[|offsets| - 1];
      }
      assert PositiveNondecreasing(rest) by {
        forall i, j | 0 <= i <= j < |rest|
          ensures rest[i] <= rest[j]
        {
          assert rest[i] == offsets[i + 1] && rest[j] == offsets[j + 1];
        }
      }
      AscendingOfSorted(offsets[0], rest);
    }
  }

  /** The two halves of `a + b`, found at `pos`, are where their lengths put them. */
  lemma {:induction false} SplitAt(data: seq<Byte>, pos: nat, a: seq<Byte>, b: seq<Byte>)
    requires pos + |a + b| <= |data| && data[pos..pos + |a + b|] == a + b
    ensures data[pos..pos + |a|] == a && data[pos + |a|..pos + |a| + |b|] == b
  {
    SliceOfSlice(data, pos, pos + |a + b|, 0, |a|);
    SliceOfSlice(data, pos, pos + |a + b|, |a|, |a + b|);
  }

  /** Offsets written with `Fields` are read back by the offset loop of `load_index`. */
  lemma {:induction false} ReadFields(data: seq<Byte>, pos: nat, offsets: seq<nat>, prev: nat)
    requires |data| < TwoTo63 && pos + 4 * |offsets| < |data|
    requires data[pos..pos + 4 * |offsets|] == Fields(offsets)
    requires Ascending(prev, offsets)
    ensures OffsetsFrom(data, pos, FieldWidth, |offsets|, prev) == Ok(offsets)
    decreases |offsets|
  {
    if offsets != [] {
      FieldRead(data, pos, offsets);
      ReadFields(data, pos + 4, offsets[1..], offsets[0]);
      assert [offsets[0]] + offsets[1..] == offsets;
    }
  }

  /** The first field is read back, and the other fields follow it. */
  lemma {:induction false} FieldRead(data: seq<Byte>, pos: nat, offsets: seq<nat>)
    requires |data| < TwoTo63 && offsets != [] && pos + 4 * |offsets| < |data|
    requires data[pos..pos + 4 * |offsets|] == Fields(offsets) && offsets[0] < TwoTo32
    ensures ExtractIndexOffset(data, pos, FieldWidth) == Ok(offsets[0])
    ensures data[pos + 4..pos + 4 + 4 * |offsets[1..]|] == Fields(offsets[1..])
  {
    var head, rest := Be(offsets[0], FieldWidth), offsets[1..];
    assert Fields(offsets) == head + Fields(rest);
    SplitAt(data, pos, head, Fields(rest));
    Pow256Values();
    BeRead(data, pos, offsets[0], FieldWidth);
  }

  /** Without wrap-around, the offsets `append_index_to` writes are positive, non-decreasing and fit a uint32. */
  lemma {:induction false} OffsetArrayShape(entries: seq<seq<Byte>>)
    requires 1 + |Concat(entries)| < TwoTo32
    ensures PositiveNondecreasing(OffsetArray(entries))
    ensures forall i {:trigger OffsetArray(entries)[i]} :: 0 <= i <= |entries| ==>
      OffsetArray(entries)[i] == 1 + Before(entries, i) < TwoTo32
    ensures OffsetArray(entries)[|entries|] == 1 + |Concat(entries)|
  {
    var offs := OffsetArray(entries);
    ConcatLength(entries);
    forall i | 0 <= i <= |entries|
      ensures offs[i] == 1 + Before(entries, i) < TwoTo32
    {
      BeforeMonotonic(entries, i, |entries|);
    }
    forall i, j | 0 <= i <= j <= |entries|
      ensures offs[i] <= offs[j]
    {
      BeforeMonotonic(entries, i, j);
    }
  }

  /** The four parts of `whole == a + b + c + d`, placed at `p`, lie between the ends `q1` to `q4` their lengths give. */
  lemma {:induction false} SlicePartsAt(data: seq<Byte>, p: nat, whole: seq<Byte>, a: seq<Byte>, b: seq<Byte>, c: seq<Byte>, d: seq<Byte>,
                                        q1: nat, q2: nat, q3: nat, q4: nat)
    requires whole == a + b + c + d
    requires p + |whole| <= |data| && data[p..p + |whole|] == whole
    requires q1 == p + |a| && q2 == q1 + |b| && q3 == q2 + |c| && q4 == q3 + |d|
    ensures q4 == p + |whole|
    ensures data[p..q1] == a && data[q1..q2] == b && data[q2..q3] == c && data[q3..q4] == d
  {
    SliceOfSlice(data, p, p + |whole|, 0, |a|);
    SliceOfSlice(data, p, p + |whole|, |a|, |a| + |b|);
    SliceOfSlice(data, p, p + |whole|, |a| + |b|, |a| + |b| + |c|);
    SliceOfSlice(data, p, p + |whole|, |a| + |b| + |c|, |whole|);
  }

  /** What lies after `prefix` in `prefix + x + suffix` is `x`. */
  lemma {:induction false} PlacedAfter(prefix: seq<Byte>, x: seq<Byte>, suffix: seq<Byte>)
    ensures Found(prefix + x + suffix, |prefix|, x)
  {
    var data := prefix + x + suffix;
    assert data[|prefix|..|prefix| + |x|] == x;
    FoundSlice(data, |prefix|, x);
  }

  /** The entries laid out in the data area of an INDEX image, each after the ones before it. */
  lemma {:induction false} EntriesInArea(data: seq<Byte>, area: nat, entries: seq<seq<Byte>>)
    requires area + |Concat(entries)| <= |data| && data[area..area + |Concat(entries)|] == Concat(entries)
    ensures Before(entries, |entries|) == |Concat(entries)|
    ensures forall i :: 0 <= i < |entries| ==> Placed(data, area, entries, i)
  {
    ConcatLength(entries);
    forall i | 0 <= i < |entries|
      ensures Placed(data, area, entries, i)
    {
      EntryOfImage(data, area, entries, i);
    }
  }

  /** Entry `i` lies in the data area where the entries before it end. */
  lemma {:induction false} EntryOfImage(data: seq<Byte>, area: nat, entries: seq<seq<Byte>>, i: nat)
    requires i < |entries|
    requires area + |Concat(entries)| <= |data| && data[area..area + |Concat(entries)|] == Concat(entries)
    ensures Placed(data, area, entries, i)
  {
    ConcatEntry(entries, i);
    SliceOfSlice(data, area, area + |Concat(entries)|, Before(entries, i), Before(entries, i) + |entries[i]|);
  }

  /** Entry `i` lies between offsets `i` and `i + 1`, counted from `base`. */
  predicate Delimited(data: seq<Byte>, base: nat, offsets: seq<nat>, entries: seq<seq<Byte>>, i: nat)
    requires i < |entries| && i + 1 < |offsets|
  {
    offsets[i] <= offsets[i + 1] && base + offsets[i + 1] <= |data| && data[base + offsets[i]..base + offsets[i + 1]] == entries[i]
  }

  /** Offsets one past each entry's place delimit the entries, counted from the byte before the data area. */
  lemma {:induction false} AllDelimited(data: seq<Byte>, area: nat, base: nat, entries: seq<seq<Byte>>, offs: seq<nat>)
    requires base + 1 == area && |offs| == |entries| + 1
    requires forall i {:trigger offs[i]} :: 0 <= i <= |entries| ==> offs[i] == 1 + Before(entries, i)
    requires forall i :: 0 <= i < |entries| ==> Placed(data, area, entries, i)
    ensures forall i :: 0 <= i < |entries| ==> Delimited(data, base, offs, entries, i)
  {
    forall i | 0 <= i < |entries|
      ensures Delimited(data, base, offs, entries, i)
    {
      assert Placed(data, area, entries, i);
      BeforeSnoc(entries, i);
      assert offs[i] == 1 + Before(entries, i) && offs[i + 1] == 1 + Before(entries, i + 1);
    }
  }

  /** Entries found between consecutive offsets are what the entry loop returns. */
  lemma {:induction false} EntriesBetween(data: seq<Byte>, base: nat, offsets: seq<nat>, entries: seq<seq<Byte>>)
    requires 2 <= |offsets| && PositiveNondecreasing(offsets) && |entries| == |offsets| - 1
    requires base + offsets[|offsets| - 1] <= |data|
    requires forall i :: 0 <= i < |entries| ==> Delimited(data, base, offsets, entries, i)
    ensures IndexEntries(data, base, offsets) == Ok(IndexRead(entries, base + offsets[|offsets| - 1]))
  {
    var read := IndexEntries(data, base, offsets);
    forall i | 0 <= i < |entries|
      ensures read.value.entries[i] == entries[i]
    {
      assert Delimited(data, base, offsets, entries, i);
    }
    assert read.value.entries == entries;
  }

  /** A slice of a slice is a slice of the whole. */
  lemma {:induction false} SliceOfSlice(data: seq<Byte>, from: nat, to: nat, lo: nat, hi: nat)
    requires from <= to <= |data| && lo <= hi <= to - from
    ensures data[from..to][lo..hi] == data[from + lo..from + hi]
  {
    forall k | 0 <= k < hi - lo
      ensures data[from..to][lo..hi][k] == data[from + lo..from + hi][k]
    {
    }
  }

  /** `x` occurs in `data` at `p`. */
  predicate Found(data: seq<Byte>, p: nat, x: seq<Byte>)
    decreases |x|
  {
    p + |x| <= |data| && (x == [] || (data[p] == x[0] && Found(data, p + 1, x[1..])))
  }

  lemma {:induction false} FoundSlice(data: seq<Byte>, p: nat, x: seq<Byte>)
    ensures Found(data, p, x) <==> p + |x| <= |data| && data[p..p + |x|] == x
    decreases |x|
  {
    if x != [] && p + |x| <= |data| {
      FoundSlice(data, p + 1, x[1..]);
      assert data[p..p + |x|] == [data[p]] + data[p + 1..p + 1 + |x[1..]|];
      assert x == [x[0]] + x[1..];
    }
  }

  /**
   * `append_index_to` then `load_index`: wherever the image of a non-empty
   * INDEX lies in the font data, `load_index` reads its entries back and ends
   * just past it. At least one byte must follow its last offset: the
   * reader's bounds test is strict. (`PlacedAfter` puts an image appended to
   * a buffer at the buffer's old end.)
   */
  lemma {:induction false} IndexAtImage(data: seq<Byte>, p: nat, entries: seq<seq<Byte>>)
    requires |data| < TwoTo63 && 0 < |entries| < TwoTo16 && 1 + |Concat(entries)| < TwoTo32
    requires Found(data, p, IndexBytes(entries))
    requires 0 < |Concat(entries)| || p + |IndexBytes(entries)| < |data|
    ensures IndexAt(data, p) == Ok(IndexRead(entries, p + |IndexBytes(entries)|))
  {
    PartsOfImage(data, p, entries);
    IndexOfParts(data, p, entries);
    ImageEnd(p, entries);
  }

  /** Each part of an INDEX image found at `p` is read back by the step of `load_index` that reads it. */
  lemma {:induction false} PartsOfImage(data: seq<Byte>, p: nat, entries: seq<seq<Byte>>)
    requires |data| < TwoTo63 && 0 < |entries| < TwoTo16 && 1 + |Concat(entries)| < TwoTo32
    requires Found(data, p, IndexBytes(entries))
    requires 0 < |Concat(entries)| || p + |IndexBytes(entries)| < |data|
    ensures p + 3 <= |data|
    ensures PositiveNondecreasing(OffsetArray(entries))
    ensures ExtractAndSwap(data, p, 2) == Ok(|entries|) && Extract(data, p + 2, 1) == Ok(4)
    ensures OffsetsFrom(data, p + 3, FieldWidth, |entries| + 1, 0) == Ok(OffsetArray(entries))
    ensures var base := DataBase(p, |entries|, FieldWidth);
      IndexEntries(data, base, OffsetArray(entries)) == Ok(IndexRead(entries, base + 1 + |Concat(entries)|))
  {
    HeadOfImage(data, p, entries);
    FieldsOfImage(data, p, entries);
    OffsetArrayShape(entries);
    AreaOfImage(data, p, entries);
  }

  /** The count and offSize of an INDEX image found at `p` are read back. */
  lemma {:induction false} HeadOfImage(data: seq<Byte>, p: nat, entries: seq<seq<Byte>>)
    requires |data| < TwoTo63 && |entries| < TwoTo16
    requires Found(data, p, IndexBytes(entries))
    ensures p + 3 <= |data|
    ensures ExtractAndSwap(data, p, 2) == Ok(|entries|) && Extract(data, p + 2, 1) == Ok(4)
  {
    ImageParts(data, p, entries);
    assert data[p + 2] == data[p + 2..p + 3][0];
    HeadAt(data, p, |entries|);
  }

  /** The offset array of an INDEX image found at `p` is read back. */
  lemma {:induction false} FieldsOfImage(data: seq<Byte>, p: nat, entries: seq<seq<Byte>>)
    requires |data| < TwoTo63 && 1 + |Concat(entries)| < TwoTo32
    requires Found(data, p, IndexBytes(entries))
    requires 0 < |Concat(entries)| || p + |IndexBytes(entries)| < |data|
    ensures OffsetsFrom(data, p + 3, FieldWidth, |entries| + 1, 0) == Ok(OffsetArray(entries))
  {
    ImageParts(data, p, entries);
    OffsetsOfImage(data, p + 3, entries);
  }

  /** The entries of an INDEX image found at `p` are read back. */
  lemma {:induction false} AreaOfImage(data: seq<Byte>, p: nat, entries: seq<seq<Byte>>)
    requires 0 < |entries| && 1 + |Concat(entries)| < TwoTo32 && PositiveNondecreasing(OffsetArray(entries))
    requires Found(data, p, IndexBytes(entries))
    ensures var base := DataBase(p, |entries|, FieldWidth);
      IndexEntries(data, base, OffsetArray(entries)) == Ok(IndexRead(entries, base + 1 + |Concat(entries)|))
  {
    var base := DataBase(p, |entries|, FieldWidth);
    DataAreaOfImage(data, p, entries);
    EntriesOfImage(data, base, base + 1, entries);
  }

  /** The data area of an INDEX image found at `p` starts right after its last offset field. */
  lemma {:induction false} DataAreaOfImage(data: seq<Byte>, p: nat, entries: seq<seq<Byte>>)
    requires Found(data, p, IndexBytes(entries))
    ensures var area := DataBase(p, |entries|, FieldWidth) + 1;
      area + |Concat(entries)| <= |data| && data[area..area + |Concat(entries)|] == Concat(entries)
  {
    var n, cat, fields := |entries|, Concat(entries), Fields(OffsetArray(entries));
    ImageParts(data, p, entries);
    DataBaseOfImage(p, n);
    assert |fields| == 4 * (n + 1);
  }

  /** Where the parts of an INDEX image found at `p` lie. */
  lemma {:induction false} ImageParts(data: seq<Byte>, p: nat, entries: seq<seq<Byte>>)
    requires Found(data, p, IndexBytes(entries))
    ensures var fields := Fields(OffsetArray(entries));
      && p + 3 + |fields| + |Concat(entries)| == p + |IndexBytes(entries)|
      && data[p..p + 2] == Be(|entries| % TwoTo16, CountWidth)
      && data[p + 2..p + 3] == [FieldWidth]
      && data[p + 3..p + 3 + |fields|] == fields
      && data[p + 3 + |fields|..p + 3 + |fields| + |Concat(entries)|] == Concat(entries)
  {
    FoundSlice(data, p, IndexBytes(entries));
    var count, fields := Be(|entries| % TwoTo16, CountWidth), Fields(OffsetArray(entries));
    assert IndexBytes(entries) == count + [FieldWidth] + fields + Concat(entries);
    SlicePartsAt(data, p, IndexBytes(entries), count, [FieldWidth], fields, Concat(entries),
                 p + 2, p + 3, p + 3 + |fields|, p + 3 + |fields| + |Concat(entries)|);
  }

  /** The reader's end position is the end of the image. */
  lemma {:induction false} ImageEnd(p: nat, entries: seq<seq<Byte>>)
    ensures DataBase(p, |entries|, FieldWidth) + 1 + |Concat(entries)| == p + |IndexBytes(entries)|
    ensures Ok(IndexRead(entries, DataBase(p, |entries|, FieldWidth) + 1 + |Concat(entries)|))
         == Ok(IndexRead(entries, p + |IndexBytes(entries)|))
  {
  }

  /** `load_index` reads an INDEX whose count, offSize, offsets and entries are each read back. */
  lemma {:induction false} IndexOfParts(data: seq<Byte>, p: nat, entries: seq<seq<Byte>>)
    requires |data| < TwoTo63 && p + 3 <= |data| && 0 < |entries| && 1 + |Concat(entries)| < TwoTo32
    requires PositiveNondecreasing(OffsetArray(entries))
    requires ExtractAndSwap(data, p, 2) == Ok(|entries|) && Extract(data, p + 2, 1) == Ok(4)
    requires OffsetsFrom(data, p + 3, FieldWidth, |entries| + 1, 0) == Ok(OffsetArray(entries))
    requires var base := DataBase(p, |entries|, FieldWidth);
      IndexEntries(data, base, OffsetArray(entries)) == Ok(IndexRead(entries, base + 1 + |Concat(entries)|))
    ensures IndexAt(data, p) == Ok(IndexRead(entries, DataBase(p, |entries|, FieldWidth) + 1 + |Concat(entries)|))
  {
  }

  /** The offset array of an INDEX image read back by the offset loop of `load_index`. */
  lemma {:induction false} OffsetsOfImage(data: seq<Byte>, pos: nat, entries: seq<seq<Byte>>)
    requires |data| < TwoTo63 && 1 + |Concat(entries)| < TwoTo32
    requires pos + |Fields(OffsetArray(entries))| < |data|
    requires data[pos..pos + |Fields(OffsetArray(entries))|] == Fields(OffsetArray(entries))
    ensures OffsetsFrom(data, pos, FieldWidth, |entries| + 1, 0) == Ok(OffsetArray(entries))
  {
    OffsetArrayShape(entries);
    OffsetsAt(data, pos, OffsetArray(entries), Fields(OffsetArray(entries)));
  }

  /** The entry loop of `load_index` over a data area returns the entries and ends just past the area. */
  lemma {:induction false} EntriesOfImage(data: seq<Byte>, base: nat, area: nat, entries: seq<seq<Byte>>)
    requires 0 < |entries| && 1 + |Concat(entries)| < TwoTo32 && PositiveNondecreasing(OffsetArray(entries))
    requires base + 1 == area && area + |Concat(entries)| <= |data|
    requires data[area..area + |Concat(entries)|] == Concat(entries)
    ensures IndexEntries(data, base, OffsetArray(entries)) == Ok(IndexRead(entries, base + 1 + |Concat(entries)|))
  {
    EntriesInArea(data, area, entries);
    OffsetArrayShape(entries);
    AllDelimited(data, area, base, entries, OffsetArray(entries));
    EntriesBetween(data, base, OffsetArray(entries), entries);
  }

  /** Where the data area of an INDEX with offSize 4 begins, minus one. */
  lemma {:induction false} DataBaseOfImage(p: nat, n: nat)
    ensures DataBase(p, n, FieldWidth) == p + 6 + 4 * n
  {
  }

  /** A count and offSize 4 written at `p` are read back. */
  lemma {:induction false} HeadAt(data: seq<Byte>, p: nat, n: nat)
    requires |data| < TwoTo63 && p + 3 <= |data| && n < TwoTo16
    requires data[p..p + 2] == Be(n % TwoTo16, CountWidth) && data[p + 2] == 4
    ensures ExtractAndSwap(data, p, 2) == Ok(n)
    ensures Extract(data, p + 2, 1) == Ok(4)
  {
    Pow256Values();
    BeRead(data, p, n, CountWidth);
    assert data[p + 2..p + 3] == [4];
  }

  /** An offset array written at `pos` is read back by the offset loop of `load_index`. */
  lemma {:induction false} OffsetsAt(data: seq<Byte>, pos: nat, offs: seq<nat>, fields: seq<Byte>)
    requires |data| < TwoTo63 && fields == Fields(offs)
    requires pos + |fields| < |data| && data[pos..pos + |fields|] == fields
    requires 0 < |offs| && PositiveNondecreasing(offs) && offs[|offs| - 1] < TwoTo32
    ensures OffsetsFrom(data, pos, FieldWidth, |offs|, 0) == Ok(offs)
  {
    AscendingOfSorted(0, offs);
    ReadFields(data, pos, offs, 0);
  }

  /**
   * As written, `load_index` leaves the position on an empty INDEX, so the
   * next sequential read finds the same empty INDEX again: the one-entry
   * INDEX after it is never read.
   */
  lemma {:induction false} EmptyIndexRereadAsWritten()
    ensures var data := [0, 0] + IndexBytes([[7]]);
      IndexAt(data, 0) == Ok(IndexRead([], 0)) &&
      IndexAt(data, IndexAt(data, 0).value.next).value.entries != [[7]]
  {
    var data := [0, 0] + IndexBytes([[7]]);
    assert data[0..2] == [0, 0];
    assert BeValue([0, 0]) == 0 by {
      assert [0, 0][..1] == [0];
    }
  }

  /**
   * The corrected reader steps over an empty INDEX, its 2-byte count, so the
   * next read starts at what follows (`ReadIndexOfImage`).
   */
  lemma {:induction false} EmptyAt(data: seq<Byte>, p: nat)
    requires |data| < TwoTo63 && Found(data, p, [0, 0])
    ensures ReadIndex(data, p) == Ok(IndexRead([], p + 2))
  {
    FoundSlice(data, p, [0, 0]);
    assert BeValue([0, 0]) == 0 by {
      assert [0, 0][..1] == [0];
    }
  }

  /** `ReadIndex` on an INDEX image found at `p` gives what `IndexAt` gives. */
  lemma {:induction false} ReadIndexOfImage(data: seq<Byte>, p: nat, entries: seq<seq<Byte>>)
    requires |data| < TwoTo63 && 0 < |entries| < TwoTo16 && 1 + |Concat(entries)| < TwoTo32
    requires Found(data, p, IndexBytes(entries))
    requires 0 < |Concat(entries)| || p + |IndexBytes(entries)| < |data|
    ensures ReadIndex(data, p) == Ok(IndexRead(entries, p + |IndexBytes(entries)|))
  {
    IndexAtImage(data, p, entries);
  }

  // ---------------------------------------------------------------------
  // DICT data
  // ---------------------------------------------------------------------

  /** One DICT entry: the operands read since the previous operator, then the operator. */
  datatype DictItem = DictItem(operands: seq<int>, op: nat)

  /** The byte that introduces a two-byte operator (`DictOperator::Escape`). */
  const EscapeByte: Byte := 12

  /**
   * The values `DictOperator` names: the one-byte operators 0-21 and the
   * escaped ones, 12 followed by a second byte.
   */
  predicate IsDictOperator(op: nat)
  {
    op <= 21 || 0xc00 <= op <= 0xc0e || 0xc11 <= op <= 0xc17 || 0xc1e <= op <= 0xc26
  }

  predicate IsInt32(v: int)
  {
    -(TwoTo31 as int) <= v < TwoTo31
  }

  /** The int32 whose two's-complement bits are `u`. */
  function ToInt32(u: nat): (r: int)
    requires u < TwoTo32
    ensures IsInt32(r) && r % TwoTo32 == u
  {
    if u < TwoTo31 then u else u - TwoTo32
  }

  /** Lead bytes of an operand: 28-30 and 32-254. */
  predicate IsOperandLead(b: Byte)
  {
    28 <= b <= 30 || 32 <= b <= 254
  }

  /**
   * The nibbles of a real-number operand, `consumed` bytes in: they run up
   * to and including the first byte whose low nibble is 0xf.
   */
  function RealLength(rest: seq<Byte>, consumed: nat): (r: Rvoe<nat>)
    ensures r.Ok? ==> consumed < r.value <= consumed + |rest| && rest[r.value - consumed - 1] % 16 == 15
    ensures r.Ok? ==> forall k :: 0 <= k < r.value - consumed - 1 ==> rest[k] % 16 != 15
    ensures r.Err? <==> forall k :: 0 <= k < |rest| ==> rest[k] % 16 != 15
    ensures r.Err? ==> r.error == IndexOutOfBounds
    decreases |rest|
  {
    if rest == [] then Err(IndexOutOfBounds)
    else if rest[0] % 16 == 15 then Ok(consumed + 1)
    else
      var r := RealLength(rest[1..], consumed + 1);
      assert forall k :: 1 <= k < |rest| ==> rest[k] == rest[1..][k - 1];
      r
  }

  /**
   * The operand whose lead byte is `rest[0]`: its value and its length in
   * bytes (Adobe Technical Note #5176, section 4). A read past the end of the
   * data is an error.
   */
  function OperandOf(rest: seq<Byte>): (r: Rvoe<(int, nat)>)
    requires rest != [] && IsOperandLead(rest[0])
    ensures r.Ok? ==> 0 < r.value.1 <= |rest| && IsInt32(r.value.0)
    ensures 32 <= rest[0] <= 246 ==> r == Ok((rest[0] as int - 139, 1)) && -107 <= r.value.0 <= 107
    ensures 247 <= rest[0] <= 250 ==> (r.Ok? <==> 2 <= |rest|) && (r.Ok? ==> 108 <= r.value.0 <= 1131)
    ensures 251 <= rest[0] <= 254 ==> (r.Ok? <==> 2 <= |rest|) && (r.Ok? ==> -1131 <= r.value.0 <= -108)
    ensures rest[0] == 28 ==> (r.Ok? <==> 3 <= |rest|) && (r.Ok? ==> 0 <= r.value.0 < TwoTo16)
    ensures rest[0] == 29 ==> (r.Ok? <==> 5 <= |rest|) && (r.Ok? ==> r.value == (ToInt32(BeValue(rest[1..5])), 5))
    ensures rest[0] == 30 ==> r.Ok? ==> r.value.0 == -1
    ensures r.Err? ==> r.error == IndexOutOfBounds
  {
    var b0: int := rest[0];
    if 32 <= b0 <= 246 then Ok((b0 - 139, 1))
    else if 247 <= b0 <= 250 then
      if |rest| < 2 then Err(IndexOutOfBounds) else Ok(((b0 - 247) * 256 + rest[1] as int + 108, 2))
    else if 251 <= b0 <= 254 then
      if |rest| < 2 then Err(IndexOutOfBounds) else Ok((-(b0 - 251) * 256 - rest[1] as int - 108, 2))
    else if b0 == 28 then
      if |rest| < 3 then Err(IndexOutOfBounds) else Ok((rest[1] as int * 256 + rest[2], 3))
    else if b0 == 29 then
      if |rest| < 5 then Err(IndexOutOfBounds)
      else
        Pow256Values();
        Ok((ToInt32(BeValue(rest[1..5])), 5))
    else
      var n :- RealLength(rest[1..], 1);
      Ok((-1, n))
  }

  /**
   * `unpack_dictionary` on what is left of the data, `operands` read since
   * the last operator: bytes up to 21 are operators (12 with the byte after
   * it), operand bytes add an operand, other bytes are passed over, and
   * operands left at the end make the DICT malformed.
   */
  function Unpack(rest: seq<Byte>, operands: seq<int>): (r: Rvoe<seq<DictItem>>)
    ensures r.Err? ==> r.error == MalformedFontFile || r.error == IndexOutOfBounds
    decreases |rest|
  {
    if rest == [] then (if operands == [] then Ok([]) else Err(MalformedFontFile))
    else if rest[0] <= 21 then
      if rest[0] == EscapeByte then
        if |rest| < 2 then Err(IndexOutOfBounds)
        else Prepend([DictItem(operands, 0xc00 + rest[1] as int)], Unpack(rest[2..], []))
      else Prepend([DictItem(operands, rest[0])], Unpack(rest[1..], []))
    else if IsOperandLead(rest[0]) then
      var operand :- OperandOf(rest);
      Unpack(rest[operand.1..], operands + [operand.0])
    else Unpack(rest[1..], operands)
  }

  /** The operand loop of `unpack_dictionary`: the operand at `offset` and the position after it. */
  method ReadOperand(data: seq<Byte>, offset: nat) returns (r: Rvoe<(int, nat)>)
    requires offset < |data| && IsOperandLead(data[offset])
    ensures r.Err? <==> OperandOf(data[offset..]).Err?
    ensures r.Err? ==> r.error == IndexOutOfBounds
    ensures r.Ok? ==> r.value == (OperandOf(data[offset..]).value.0, offset + OperandOf(data[offset..]).value.1)
  {
    var b0: int := data[offset];
    var at := offset + 1;
    if 32 <= b0 <= 246 {
      return Ok((b0 - 139, at));
    }
    if b0 != 30 {
      var need := if b0 == 28 then 2 else if b0 == 29 then 4 else 1;
      if at + need > |data| {
        return Err(IndexOutOfBounds);
      }
      assert data[offset..][1..need + 1] == data[at..at + need];
      var v;
      if b0 <= 250 && b0 >= 247 {
        v := (b0 - 247) * 256 + data[at] as int + 108;
      } else if b0 >= 251 {
        v := -(b0 - 251) * 256 - data[at] as int - 108;
      } else if b0 == 28 {
        v := data[at] as int * 256 + data[at + 1];
      } else {
        Pow256Values();
        v := ToInt32(BeValue(data[at..at + 4]));
      }
      return Ok((v, at + need));
    }
    assert data[offset..][1..] == data[at..];
    var end := SkipReal(data, offset);
    if end.Err? {
      return Err(end.error);
    }
    return Ok((-1, end.value));
  }

  /** The nibble loop of a real-number operand whose lead byte is at `offset`: the position after its last byte. */
  method SkipReal(data: seq<Byte>, offset: nat) returns (r: Rvoe<nat>)
    requires offset < |data|
    ensures r.Err? <==> RealLength(data[offset + 1..], 1).Err?
    ensures r.Err? ==> r.error == IndexOutOfBounds
    ensures r.Ok? ==> r.value == offset + RealLength(data[offset + 1..], 1).value
  {
    var at := offset + 1;
    while true
      invariant offset < at <= |data|
      invariant RealLength(data[offset + 1..], 1) == RealLength(data[at..], at - offset)
      decreases |data| - at
    {
      if at >= |data| {
        return Err(IndexOutOfBounds);
      }
      var b1 := data[at];
      assert data[at..][1..] == data[at + 1..];
      at := at + 1;
      if b1 % 16 == 15 {
        return Ok(at);
      }
    }
  }

  /** `unpack_dictionary`: the entries of a DICT. */
  method UnpackDictionary(data: seq<Byte>) returns (r: Rvoe<seq<DictItem>>)
    ensures r == Unpack(data, [])
  {
    var dict: seq<DictItem> := [];
    var operands: seq<int> := [];
    var offset: nat := 0;
    assert data[offset..] == data;
    assert Unpack(data, []) == Prepend(dict, Unpack(data, [])) by {
      var u := Unpack(data, []);
      if u.Ok? {
        assert [] + u.value == u.value;
      }
    }
    while offset < |data|
      invariant offset <= |data|
      invariant Unpack(data, []) == Prepend(dict, Unpack(data[offset..], operands))
      decreases |data| - offset
    {
      var b0 := data[offset];
      ghost var rest := data[offset..];
      if b0 <= 21 {
        var op: nat := b0;
        if b0 == EscapeByte {
          if offset + 1 >= |data| {
            return Err(IndexOutOfBounds);
          }
          op := 0xc00 + data[offset + 1] as int;
          assert rest[2..] == data[offset + 2..];
          offset := offset + 2;
        } else {
          assert rest[1..] == data[offset + 1..];
          offset := offset + 1;
        }
        PrependTwice(dict, [DictItem(operands, op)], Unpack(data[offset..], []));
        dict := dict + [DictItem(operands, op)];
        operands := [];
      } else if IsOperandLead(b0) {
        var operand := ReadOperand(data, offset);
        if operand.Err? {
          return Err(operand.error);
        }
        assert rest[operand.value.1 - offset..] == data[operand.value.1..];
        offset := operand.value.1;
        operands := operands + [operand.value.0];
      } else {
        assert rest[1..] == data[offset + 1..];
        offset := offset + 1;
      }
    }
    if operands != [] {
      return Err(MalformedFontFile);
    }
    assert dict + [] == dict;
    return Ok(dict);
  }

  /** What `CFFDictWriter::append_command` writes for one operand: 29, then its big-endian int32 bits. */
  function OperandBytes(v: int): (r: seq<Byte>)
    ensures |r| == 5 && r[0] == 29
  {
    [29] + Be(v % TwoTo32, 4)
  }

  function OperandsBytes(operands: seq<int>): (r: seq<Byte>)
    ensures |r| == 5 * |operands|
  {
    if operands == [] then [] else OperandsBytes(operands[..|operands| - 1]) + OperandBytes(operands[|operands| - 1])
  }

  /** The operator: 12 first if it does not fit in a byte, then its low byte. */
  function OperatorBytes(op: nat): (r: seq<Byte>)
    ensures 1 <= |r| <= 2
  {
    (if op % TwoTo16 > 0xff then [EscapeByte] else []) + [op % 256]
  }

  function CommandBytes(operands: seq<int>, op: nat): (r: seq<Byte>)
  {
    OperandsBytes(operands) + OperatorBytes(op)
  }

  /** The bytes of a whole DICT, one command per entry. */
  function DictBytes(items: seq<DictItem>): (r: seq<Byte>)
  {
    if items == [] then [] else DictBytes(items[..|items| - 1]) + CommandBytes(items[|items| - 1].operands, items[|items| - 1].op)
  }

  /** `CFFDictWriter` and the `DictOutput` it fills: the bytes and where each command starts (a uint16). */
  class DictWriter {
    var output: seq<Byte>
    var offsets: seq<nat>

    constructor()
      ensures output == [] && offsets == []
    {
      output := [];
      offsets := [];
    }

    /** `append_command`: records where the command starts, then writes its operands and operator. */
    method AppendCommand(operands: seq<int>, op: nat)
      modifies this
      ensures output == old(output) + CommandBytes(operands, op)
      ensures offsets == old(offsets) + [|old(output)| % TwoTo16]
    {
      offsets := offsets + [|output| % TwoTo16];
      ghost var start := output;
      for i := 0 to |operands|
        invariant offsets == old(offsets) + [|old(output)| % TwoTo16]
        invariant output == start + OperandsBytes(operands[..i])
      {
        assert operands[..i + 1][..i] == operands[..i];
        output := output + [29] + Be(operands[i] % TwoTo32, 4);
      }
      assert operands[..|operands|] == operands;
      if op % TwoTo16 > 0xff {
        output := output + [EscapeByte];
      }
      output := output + [op % 256];
    }

    /** `append_command` of a parsed entry. */
    method AppendItem(e: DictItem)
      modifies this
      ensures output == old(output) + CommandBytes(e.operands, e.op)
      ensures offsets == old(offsets) + [|old(output)| % TwoTo16]
    {
      AppendCommand(e.operands, e.op);
    }
  }

  /** An entry `append_command` can write so that `unpack_dictionary` reads it back. */
  predicate WritableItem(e: DictItem)
  {
    IsDictOperator(e.op) && e.op != EscapeByte as nat && forall v :: v in e.operands ==> IsInt32(v)
  }

  /** The int32 bits of `v`, read back as an int32, are `v`. */
  lemma {:induction false} Int32Bits(v: int)
    requires IsInt32(v)
    ensures ToInt32(v % TwoTo32) == v
  {
    if v < 0 {
      DivModUnique(v, TwoTo32, -1, v + TwoTo32);
    } else {
      DivModUnique(v, TwoTo32, 0, v);
    }
  }

  /** An operand written by `append_command` is read back with its length, 5. */
  lemma {:induction false} OperandRoundTrip(v: int, rest: seq<Byte>)
    requires IsInt32(v)
    ensures OperandOf(OperandBytes(v) + rest) == Ok((v, 5))
  {
    var x := OperandBytes(v) + rest;
    var u := v % TwoTo32;
    Pow256Values();
    assert x[1..5] == Be(u, 4);
    ReversedImageIsBigEndian(LeBytes(u, 4));
    LeRoundTrip(u, 4);
    Int32Bits(v);
  }

  /** Reading a written operand adds it to the operands of the entry being read. */
  lemma {:induction false} OperandStep(v: int, rest: seq<Byte>, operands: seq<int>)
    requires IsInt32(v)
    ensures Unpack(OperandBytes(v) + rest, operands) == Unpack(rest, operands + [v])
  {
    var x := OperandBytes(v) + rest;
    OperandRoundTrip(v, rest);
    assert x[5..] == rest;
  }

  /** Written operands are read back, in order, as operands of the entry being read. */
  lemma {:induction false} OperandsRoundTrip(operands: seq<int>, rest: seq<Byte>, before: seq<int>)
    requires forall v :: v in operands ==> IsInt32(v)
    ensures Unpack(OperandsBytes(operands) + rest, before) == Unpack(rest, before + operands)
    decreases |operands|
  {
    if operands == [] {
      assert OperandsBytes(operands) + rest == rest;
      assert before + operands == before;
    } else {
      var init, last := operands[..|operands| - 1], operands[|operands| - 1];
      assert last in operands;
      assert forall v :: v in init ==> v in operands;
      assert OperandsBytes(operands) + rest == OperandsBytes(init) + (OperandBytes(last) + rest);
      OperandsRoundTrip(init, OperandBytes(last) + rest, before);
      OperandStep(last, rest, before + init);
      assert before + init + [last] == before + operands;
    }
  }

  /** A written operator closes the entry being read. */
  lemma {:induction false} OperatorRoundTrip(op: nat, rest: seq<Byte>, operands: seq<int>)
    requires IsDictOperator(op) && op != EscapeByte as nat
    ensures Unpack(OperatorBytes(op) + rest, operands) == Prepend([DictItem(operands, op)], Unpack(rest, []))
  {
    var x := OperatorBytes(op) + rest;
    if op <= 21 {
      assert x[1..] == rest;
    } else {
      assert x[2..] == rest;
    }
  }

  /** `append_command` then `unpack_dictionary`: the entry comes back whole, with the operands read before it. */
  lemma {:induction false} CommandRoundTrip(e: DictItem, rest: seq<Byte>, before: seq<int>)
    requires WritableItem(e)
    ensures Unpack(CommandBytes(e.operands, e.op) + rest, before)
         == Prepend([DictItem(before + e.operands, e.op)], Unpack(rest, []))
  {
    assert CommandBytes(e.operands, e.op) + rest == OperandsBytes(e.operands) + (OperatorBytes(e.op) + rest);
    OperandsRoundTrip(e.operands, OperatorBytes(e.op) + rest, before);
    OperatorRoundTrip(e.op, rest, before + e.operands);
  }

  /** A DICT written entry by entry is read back entry by entry, whatever follows it. */
  lemma {:induction false} DictRoundTrip(items: seq<DictItem>, rest: seq<Byte>)
    requires forall i :: 0 <= i < |items| ==> WritableItem(items[i])
    ensures Unpack(DictBytes(items) + rest, []) == Prepend(items, Unpack(rest, []))
    decreases |items|
  {
    if items == [] {
      assert DictBytes(items) + rest == rest;
      var u := Unpack(rest, []);
      if u.Ok? {
        assert items + u.value == u.value;
      }
    } else {
      var init, last := items[..|items| - 1], items[|items| - 1];
      DictRoundTrip(init, CommandBytes(last.operands, last.op) + rest);
      assert init + [last] == items;
      DictSnoc(init, last, rest);
    }
  }

  /** One more written entry is one more entry read back. */
  lemma {:induction false} DictSnoc(init: seq<DictItem>, last: DictItem, rest: seq<Byte>)
    requires WritableItem(last)
    requires Unpack(DictBytes(init) + (CommandBytes(last.operands, last.op) + rest), [])
          == Prepend(init, Unpack(CommandBytes(last.operands, last.op) + rest, []))
    ensures Unpack(DictBytes(init + [last]) + rest, []) == Prepend(init + [last], Unpack(rest, []))
  {
    var cmd := CommandBytes(last.operands, last.op);
    assert (init + [last])[..|init|] == init;
    assert DictBytes(init + [last]) + rest == DictBytes(init) + (cmd + rest);
    CommandRoundTrip(last, rest, []);
    assert [] + last.operands == last.operands;
    PrependTwice(init, [last], Unpack(rest, []));
  }

  /** The bytes of a written DICT unpack to its entries. */
  lemma {:induction false} DictReadBack(items: seq<DictItem>)
    requires forall i :: 0 <= i < |items| ==> WritableItem(items[i])
    ensures Unpack(DictBytes(items), []) == Ok(items)
  {
    DictRoundTrip(items, []);
    assert DictBytes(items) + [] == DictBytes(items);
    assert items + [] == items;
  }

  /** An operand after the last operator is left over: the DICT is malformed. */
  lemma {:induction false} TrailingOperandsRejected(items: seq<DictItem>, v: int)
    requires forall i :: 0 <= i < |items| ==> WritableItem(items[i])
    requires IsInt32(v)
    ensures Unpack(DictBytes(items) + OperandBytes(v), []) == Err(MalformedFontFile)
  {
    DictRoundTrip(items, OperandBytes(v));
    OperandStep(v, [], []);
    assert OperandBytes(v) + [] == OperandBytes(v);
  }

  // ---------------------------------------------------------------------
  // FDSelect
  // ---------------------------------------------------------------------

  /** `CFFSelectRange3`: glyphs from `first` up to the next range's `first` use font dict `fd`. */
  datatype SelectRange = SelectRange(first: nat, fd: Byte)

  /** `SubsetGlyphs`: a glyph of the subset and the source glyph it comes from. */
  datatype SubsetGlyph = SubsetGlyph(codepoint: nat, gid: nat)

  /** The parts of a parsed `CFFont` that choose a glyph's font dict. */
  datatype CffFont = CffFont(isCid: bool, fdselect: seq<SelectRange>)

  /** The ranges start strictly increasing. */
  predicate Increasing(ranges: seq<SelectRange>)
  {
    forall j, k :: 0 <= j < k < |ranges| ==> ranges[j].first < ranges[k].first
  }

  /** `get_fontdict_id` asserts that it never steps before the first range. */
  predicate CanLookUp(font: CffFont, glyphId: nat)
  {
    font.isCid ==> font.fdselect != [] && font.fdselect[0].first <= glyphId
  }

  /**
   * The search loop of `get_fontdict_id` from range `i`: the range starting
   * at the glyph, or the one before the first range starting after it, or
   * the last range.
   */
  function ScanFd(ranges: seq<SelectRange>, glyphId: nat, i: nat): Byte
    requires ranges != [] && ranges[0].first <= glyphId && i <= |ranges|
    requires 0 < i ==> ranges[i - 1].first <= glyphId
    decreases |ranges| - i
  {
    if i == |ranges| then ranges[|ranges| - 1].fd
    else if ranges[i].first == glyphId then ranges[i].fd
    else if ranges[i].first > glyphId then ranges[i - 1].fd
    else ScanFd(ranges, glyphId, i + 1)
  }

  /** `CFFont::get_fontdict_id`, whose uint8_t result keeps the low byte of a non-CID glyph id. */
  function FontdictId(font: CffFont, glyphId: nat): Byte
    requires CanLookUp(font, glyphId)
  {
    if font.isCid then ScanFd(font.fdselect, glyphId, 0) else glyphId % 256
  }

  /** The last range starting at or before the glyph. */
  function LastCovering(ranges: seq<SelectRange>, glyphId: nat): (r: nat)
    requires ranges != [] && ranges[0].first <= glyphId
    ensures r < |ranges| && ranges[r].first <= glyphId
    ensures forall j :: r < j < |ranges| ==> ranges[j].first > glyphId
  {
    if ranges[|ranges| - 1].first <= glyphId then |ranges| - 1
    else LastCovering(ranges[..|ranges| - 1], glyphId)
  }

  /** The font dict of the glyph under FDSelect format 3: that of the last range starting at or before it. */
  function CoveringFd(ranges: seq<SelectRange>, glyphId: nat): Byte
    requires ranges != [] && ranges[0].first <= glyphId
  {
    ranges[LastCovering(ranges, glyphId)].fd
  }

  /** On increasing ranges the search loop finds the covering range. */
  lemma {:induction false} ScanFindsCovering(ranges: seq<SelectRange>, glyphId: nat, i: nat)
    requires ranges != [] && ranges[0].first <= glyphId && Increasing(ranges)
    requires i <= LastCovering(ranges, glyphId) + 1
    requires 0 < i ==> ranges[i - 1].first <= glyphId
    ensures ScanFd(ranges, glyphId, i) == CoveringFd(ranges, glyphId)
    decreases |ranges| - i
  {
    var c := LastCovering(ranges, glyphId);
    if i < |ranges| && ranges[i].first < glyphId {
      ScanFindsCovering(ranges, glyphId, i + 1);
    }
  }

  /** For a CID font with increasing ranges, `get_fontdict_id` gives the covering range's font dict. */
  lemma {:induction false} FontdictIdCovers(font: CffFont, glyphId: nat)
    requires font.isCid && CanLookUp(font, glyphId) && Increasing(font.fdselect)
    ensures FontdictId(font, glyphId) == CoveringFd(font.fdselect, glyphId)
  {
    ScanFindsCovering(font.fdselect, glyphId, 0);
  }

  /** `get_fontdict_id`: the glyph id itself for a non-CID font, else the FDSelect search. */
  method GetFontdictId(font: CffFont, glyphId: nat) returns (fd: Byte)
    requires CanLookUp(font, glyphId)
    ensures fd == FontdictId(font, glyphId)
    ensures !font.isCid ==> fd == glyphId % 256
  {
    if !font.isCid {
      return glyphId % 256;
    }
    var ranges := font.fdselect;
    var i := 0;
    while i < |ranges|
      invariant i <= |ranges|
      invariant 0 < i ==> ranges[i - 1].first < glyphId
      invariant ScanFd(ranges, glyphId, 0) == ScanFd(ranges, glyphId, i)
    {
      if ranges[i].first == glyphId {
        return ranges[i].fd;
      }
      if ranges[i].first > glyphId {
        return ranges[i - 1].fd;
      }
      i := i + 1;
    }
    return ranges[|ranges| - 1].fd;
  }

  /** The font dict the output glyph `i` needs: glyph 0 is looked up as source glyph 0. */
  function GlyphFd(font: CffFont, sub: seq<SubsetGlyph>, i: nat): Byte
    requires i < |sub| && font.isCid && font.fdselect != [] && font.fdselect[0].first == 0
  {
    if i == 0 then FontdictId(font, 0) else FontdictId(font, sub[i].gid)
  }

  /**
   * `build_fdselect3`: for a CID source, a range wherever the font dict
   * changes from one output glyph to the next; otherwise one range per
   * glyph, all on font dict 0. Range starts are uint16_t.
   */
  method BuildFdselect3(font: CffFont, sub: seq<SubsetGlyph>) returns (result: seq<SelectRange>)
    requires font.isCid ==> font.fdselect != [] && font.fdselect[0].first == 0
    ensures !font.isCid ==> |result| == |sub| && forall i :: 0 <= i < |sub| ==> result[i] == SelectRange(i % TwoTo16, 0)
    ensures font.isCid ==> result != [] && result[0] == SelectRange(0, FontdictId(font, 0))
    ensures font.isCid ==> forall j :: 0 < j < |result| ==> result[j].fd != result[j - 1].fd
    ensures |sub| <= TwoTo16 ==> Increasing(result) && (result != [] ==> result[0].first == 0)
    ensures font.isCid && |sub| <= TwoTo16 ==> forall i :: 0 <= i < |sub| ==> CoveringFd(result, i) == GlyphFd(font, sub, i)
  {
    if !font.isCid {
      result := [];
      for i := 0 to |sub|
        invariant |result| == i && forall k :: 0 <= k < i ==> result[k] == SelectRange(k % TwoTo16, 0)
      {
        result := result + [SelectRange(i % TwoTo16, 0)];
      }
      return;
    }
    var fd0 := GetFontdictId(font, 0);
    result := [SelectRange(0, fd0)];
    var i := 1;
    while i < |sub|
      invariant 1 <= i && (i <= |sub| || |sub| == 0)
      invariant |sub| == 0 || FdselectSoFar(font, sub, result, i)
      invariant |sub| == 0 ==> result == [SelectRange(0, fd0)]
    {
      var fd := GetFontdictId(font, sub[i].gid);
      FdselectStep(font, sub, result, i, fd);
      if fd != result[|result| - 1].fd {
        result := result + [SelectRange(i % TwoTo16, fd)];
      }
      i := i + 1;
    }
  }

  /** What the ranges built for the first `i` output glyphs of a CID font satisfy. */
  ghost predicate FdselectSoFar(font: CffFont, sub: seq<SubsetGlyph>, result: seq<SelectRange>, i: nat)
    requires font.isCid && font.fdselect != [] && font.fdselect[0].first == 0
    requires 1 <= i <= |sub|
  {
    && result != [] && result[0] == SelectRange(0, FontdictId(font, 0))
    && (forall j :: 0 < j < |result| ==> result[j].fd != result[j - 1].fd)
    && result[|result| - 1].fd == GlyphFd(font, sub, i - 1)
    && (|sub| <= TwoTo16 ==>
          && Increasing(result) && result[|result| - 1].first < i
          && CoversUpTo(font, sub, result, i))
  }

  /** Each of the first `i` output glyphs is covered by a range with its font dict. */
  ghost predicate CoversUpTo(font: CffFont, sub: seq<SubsetGlyph>, result: seq<SelectRange>, i: nat)
    requires font.isCid && font.fdselect != [] && font.fdselect[0].first == 0
    requires i <= |sub| && result != [] && result[0].first == 0
  {
    forall k :: 0 <= k < i ==> CoveringFd(result, k) == GlyphFd(font, sub, k)
  }

  /** One step of `build_fdselect3`: a new range exactly where the font dict changes. */
  lemma {:induction false} FdselectStep(font: CffFont, sub: seq<SubsetGlyph>, result: seq<SelectRange>, i: nat, fd: Byte)
    requires font.isCid && font.fdselect != [] && font.fdselect[0].first == 0
    requires 1 <= i < |sub| && FdselectSoFar(font, sub, result, i)
    requires fd == FontdictId(font, sub[i].gid)
    ensures fd != result[|result| - 1].fd ==> FdselectSoFar(font, sub, result + [SelectRange(i % TwoTo16, fd)], i + 1)
    ensures fd == result[|result| - 1].fd ==> FdselectSoFar(font, sub, result, i + 1)
  {
    if fd != result[|result| - 1].fd {
      NewRangeStep(font, sub, result, i, fd);
    } else {
      SameRangeStep(font, sub, result, i);
    }
  }

  lemma {:induction false} NewRangeStep(font: CffFont, sub: seq<SubsetGlyph>, result: seq<SelectRange>, i: nat, fd: Byte)
    requires font.isCid && font.fdselect != [] && font.fdselect[0].first == 0
    requires 1 <= i < |sub| && FdselectSoFar(font, sub, result, i)
    requires fd == GlyphFd(font, sub, i) && fd != result[|result| - 1].fd
    ensures FdselectSoFar(font, sub, result + [SelectRange(i % TwoTo16, fd)], i + 1)
  {
    if |sub| <= TwoTo16 {
      NewRangeCovers(font, sub, result, i, fd);
    }
  }

  /** The new range covers glyph `i`, and the glyphs before it keep their ranges. */
  lemma {:induction false} NewRangeCovers(font: CffFont, sub: seq<SubsetGlyph>, result: seq<SelectRange>, i: nat, fd: Byte)
    requires font.isCid && font.fdselect != [] && font.fdselect[0].first == 0
    requires i < |sub| && result != [] && result[0].first == 0 && result[|result| - 1].first < i
    requires CoversUpTo(font, sub, result, i) && fd == GlyphFd(font, sub, i)
    ensures CoversUpTo(font, sub, result + [SelectRange(i, fd)], i + 1)
  {
    var after := result + [SelectRange(i, fd)];
    forall k | 0 <= k < i
      ensures CoveringFd(after, k) == GlyphFd(font, sub, k)
    {
      CoveringAfterNewRange(result, SelectRange(i, fd), k);
    }
    assert CoveringFd(after, i) == fd;
  }

  lemma {:induction false} SameRangeStep(font: CffFont, sub: seq<SubsetGlyph>, result: seq<SelectRange>, i: nat)
    requires font.isCid && font.fdselect != [] && font.fdselect[0].first == 0
    requires 1 <= i < |sub| && FdselectSoFar(font, sub, result, i)
    requires GlyphFd(font, sub, i) == result[|result| - 1].fd
    ensures FdselectSoFar(font, sub, result, i + 1)
  {
    if |sub| <= TwoTo16 {
      assert CoveringFd(result, i) == result[|result| - 1].fd;
      assert CoversUpTo(font, sub, result, i);
    }
  }

  /** A range starting after a glyph leaves that glyph's covering range as it was. */
  lemma {:induction false} CoveringAfterNewRange(ranges: seq<SelectRange>, next: SelectRange, glyphId: nat)
    requires ranges != [] && ranges[0].first <= glyphId < next.first
    ensures CoveringFd(ranges + [next], glyphId) == CoveringFd(ranges, glyphId)
  {
    assert (ranges + [next])[..|ranges|] == ranges;
  }
}
