/**
 * The glyph subset table of a TrueType font: the glyphs a document uses,
 * in the order it first asked for them, with .notdef at offset 0, and the
 * map from font glyph index to subset offset (src/fontsubsetter.cpp).
 */
module FontSubsetter {
  import opened Errors
  import opened BitFiddling
  import opened FtSubsetter

  /** `max_glyphs`: the capacity of the one subset. */
  const MaxGlyphs: nat := 65000

  /** `FontSubsetInfo`: which subset, and the offset in it. */
  datatype SubsetInfo = SubsetInfo(subset: int, offset: int)

  /** Every glyph's data fits the 32-bit offsets of a TrueType file. */
  predicate WellSized(glyphData: seq<seq<Byte>>)
  {
    forall i :: 0 <= i < |glyphData| ==> |glyphData[i]| < TwoTo32
  }

  // ---------------------------------------------------------------------
  // Composite closure (`add_subglyphs`, `get_all_subglyphs`)
  // ---------------------------------------------------------------------

  /**
   * The direct components of glyph `gid`: none for a simple glyph. A glyph
   * index past the table is IndexOutOfBounds, as is a composite glyph too
   * short for its header.
   */
  function Components(glyphData: seq<seq<Byte>>, gid: nat): (r: Rvoe<seq<nat>>)
    requires WellSized(glyphData)
    ensures r.Ok? ==> forall i :: 0 <= i < |r.value| ==> r.value[i] < TwoTo16
  {
    if gid >= |glyphData| then Err(IndexOutOfBounds)
    else
      var composite :- IsCompositeGlyph(glyphData[gid]);
      if !composite then Ok([])
      else if |glyphData[gid]| < 10 then Err(IndexOutOfBounds)
      else ComponentIds(glyphData[gid][10..], 0)
  }

  /** The glyph indices not yet visited: the measure that makes the walk finite. */
  ghost function Unvisited(visited: set<nat>): set<nat>
  {
    set i: nat | i < TwoTo16 && i !in visited
  }

  /** `add_subglyphs`: every glyph reachable from `gid`'s components, added to `visited`. */
  function Closure(glyphData: seq<seq<Byte>>, visited: set<nat>, gid: nat): (r: Rvoe<set<nat>>)
    requires WellSized(glyphData)
    ensures r.Ok? ==> visited <= r.value
    decreases Unvisited(visited), 1, 0
  {
    var ids :- Components(glyphData, gid);
    AddEach(glyphData, visited, ids)
  }

  /** The loop of `add_subglyphs`: descend into each id the set did not yet hold. */
  function AddEach(glyphData: seq<seq<Byte>>, visited: set<nat>, ids: seq<nat>): (r: Rvoe<set<nat>>)
    requires WellSized(glyphData)
    requires forall i :: 0 <= i < |ids| ==> ids[i] < TwoTo16
    ensures r.Ok? ==> visited <= r.value
    decreases Unvisited(visited), 0, |ids|
  {
    if ids == [] then Ok(visited)
    else if ids[0] in visited then AddEach(glyphData, visited, ids[1..])
    else
      assert ids[0] in Unvisited(visited) - Unvisited(visited + {ids[0]});
      var grown :- Closure(glyphData, visited + {ids[0]}, ids[0]);
      assert Unvisited(grown) <= Unvisited(visited + {ids[0]});
      AddEach(glyphData, grown, ids[1..])
  }

  /** The ids a component walk reaches are 16-bit. */
  predicate SixteenBit(s: set<nat>)
  {
    forall g :: g in s ==> g < TwoTo16
  }

  /**
   * A closure that succeeds is closed: each listed id is in it, and every
   * glyph it added was expanded without error, with all its components in it.
   */
  lemma {:induction false} AddEachClosed(glyphData: seq<seq<Byte>>, visited: set<nat>, ids: seq<nat>)
    requires WellSized(glyphData)
    requires forall i :: 0 <= i < |ids| ==> ids[i] < TwoTo16
    requires AddEach(glyphData, visited, ids).Ok?
    ensures forall i :: 0 <= i < |ids| ==> ids[i] in AddEach(glyphData, visited, ids).value
    ensures forall g :: g in AddEach(glyphData, visited, ids).value - visited ==>
      g < TwoTo16 && Components(glyphData, g).Ok? &&
      forall i :: 0 <= i < |Components(glyphData, g).value| ==>
        Components(glyphData, g).value[i] in AddEach(glyphData, visited, ids).value
    decreases Unvisited(visited), 0, |ids|
  {
    if ids == [] {
    } else if ids[0] in visited {
      AddEachClosed(glyphData, visited, ids[1..]);
      var s := AddEach(glyphData, visited, ids).value;
      forall i | 0 <= i < |ids|
        ensures ids[i] in s
      {
        if i > 0 {
          assert ids[i] == ids[1..][i - 1];
        }
      }
    } else {
      assert ids[0] in Unvisited(visited) - Unvisited(visited + {ids[0]});
      var grown := Closure(glyphData, visited + {ids[0]}, ids[0]).value;
      ClosureClosed(glyphData, visited + {ids[0]}, ids[0]);
      assert Unvisited(grown) <= Unvisited(visited + {ids[0]});
      AddEachClosed(glyphData, grown, ids[1..]);
      var s := AddEach(glyphData, visited, ids).value;
      assert s == AddEach(glyphData, grown, ids[1..]).value;
      forall i | 0 <= i < |ids|
        ensures ids[i] in s
      {
        if i > 0 {
          assert ids[i] == ids[1..][i - 1];
        }
      }
    }
  }

  /** See AddEachClosed: the same for the walk from one glyph. */
  lemma {:induction false} ClosureClosed(glyphData: seq<seq<Byte>>, visited: set<nat>, gid: nat)
    requires WellSized(glyphData)
    requires Closure(glyphData, visited, gid).Ok?
    ensures Components(glyphData, gid).Ok?
    ensures forall i :: 0 <= i < |Components(glyphData, gid).value| ==>
      Components(glyphData, gid).value[i] in Closure(glyphData, visited, gid).value
    ensures forall g :: g in Closure(glyphData, visited, gid).value - visited ==>
      g < TwoTo16 && Components(glyphData, g).Ok? &&
      forall i :: 0 <= i < |Components(glyphData, g).value| ==>
        Components(glyphData, g).value[i] in Closure(glyphData, visited, gid).value
    decreases Unvisited(visited), 1, 0
  {
    AddEachClosed(glyphData, visited, Components(glyphData, gid).value);
  }

  /** `add_subglyphs`, recursing on each id newly inserted into `visited`. */
  method AddSubglyphs(glyphData: seq<seq<Byte>>, visited: set<nat>, gid: nat) returns (r: Rvoe<set<nat>>)
    requires WellSized(glyphData)
    ensures r == Closure(glyphData, visited, gid)
    decreases Unvisited(visited), 1
  {
    if gid >= |glyphData| {
      return Err(IndexOutOfBounds);
    }
    var glyph := glyphData[gid];
    var composite := IsCompositeGlyph(glyph);
    if composite.Err? {
      return Err(composite.error);
    }
    if !composite.value {
      return Ok(visited);
    }
    if |glyph| < 10 {
      return Err(IndexOutOfBounds);
    }
    var subglyphs := CompositeSubglyphs(glyph);
    if subglyphs.Err? {
      return Err(subglyphs.error);
    }
    var ids := subglyphs.value;
    assert Components(glyphData, gid) == Ok(ids);
    var current := visited;
    for i := 0 to |ids|
      invariant visited <= current
      invariant AddEach(glyphData, visited, ids) == AddEach(glyphData, current, ids[i..])
    {
      var g := ids[i];
      assert ids[i..][1..] == ids[i + 1..];
      if g !in current {
        assert g in Unvisited(visited) - Unvisited(current + {g});
        var sub := AddSubglyphs(glyphData, current + {g}, g);
        if sub.Err? {
          return Err(sub.error);
        }
        current := sub.value;
      }
    }
    return Ok(current);
  }

  // ---------------------------------------------------------------------
  // The subset table
  // ---------------------------------------------------------------------

  /** What a lookup searches the table for. */
  datatype GlyphKey =
    | ByGlyphIndex(gid: nat)      // `find_existing_glyph`: a regular glyph with this index
    | ByCodepoint(codepoint: nat) // `find_glyph_with_codepoint`: a regular glyph for this character
    | ByText(text: string)        // `find_glyph`: a ligature with this text

  predicate Matches(g: TTGlyph, key: GlyphKey)
  {
    match key
    case ByGlyphIndex(gid) => g.RegularGlyph? && g.glyphIndex == gid
    case ByCodepoint(cp) => g.RegularGlyph? && g.codepoint == cp
    case ByText(text) => g.LigatureGlyph? && g.text == text
  }

  /** The first offset whose entry matches `key`. */
  function FirstMatch(glyphs: seq<TTGlyph>, key: GlyphKey): (r: Option<nat>)
    ensures r.Some? ==>
      r.value < |glyphs| && Matches(glyphs[r.value], key) &&
      forall j :: 0 <= j < r.value ==> !Matches(glyphs[j], key)
    ensures r.None? ==> forall j :: 0 <= j < |glyphs| ==> !Matches(glyphs[j], key)
  {
    if glyphs == [] then None
    else if Matches(glyphs[0], key) then Some(0)
    else
      var rest := FirstMatch(glyphs[1..], key);
      if rest.None? then None else Some(rest.value + 1)
  }

  /**
   * The font-index map the table keeps: each entry after .notdef maps its
   * glyph index to its offset, a later entry overriding an earlier one.
   */
  function IndexMap(glyphs: seq<TTGlyph>): map<nat, nat>
  {
    if |glyphs| <= 1 then map[]
    else IndexMap(glyphs[..|glyphs| - 1])[glyphs[|glyphs| - 1].glyphIndex := |glyphs| - 1]
  }

  /**
   * The map holds exactly the glyph indices of the entries after .notdef,
   * and each maps to the last entry with that index.
   */
  lemma {:induction false} IndexMapMeaning(glyphs: seq<TTGlyph>)
    ensures forall i :: 1 <= i < |glyphs| ==> glyphs[i].glyphIndex in IndexMap(glyphs)
    ensures forall k :: k in IndexMap(glyphs) ==>
      1 <= IndexMap(glyphs)[k] < |glyphs| && glyphs[IndexMap(glyphs)[k]].glyphIndex == k &&
      forall j :: IndexMap(glyphs)[k] < j < |glyphs| ==> glyphs[j].glyphIndex != k
  {
    if |glyphs| > 1 {
      var prefix := glyphs[..|glyphs| - 1];
      IndexMapMeaning(prefix);
      forall i | 1 <= i < |glyphs| - 1
        ensures glyphs[i].glyphIndex in IndexMap(glyphs)
      {
        assert prefix[i] == glyphs[i];
      }
      forall k | k in IndexMap(glyphs) && k != glyphs[|glyphs| - 1].glyphIndex
        ensures 1 <= IndexMap(glyphs)[k] < |glyphs| && glyphs[IndexMap(glyphs)[k]].glyphIndex == k
        ensures forall j :: IndexMap(glyphs)[k] < j < |glyphs| ==> glyphs[j].glyphIndex != k
      {
        assert prefix[IndexMap(prefix)[k]] == glyphs[IndexMap(prefix)[k]];
        forall j | IndexMap(glyphs)[k] < j < |glyphs| - 1
          ensures glyphs[j].glyphIndex != k
        {
          assert prefix[j] == glyphs[j];
        }
      }
    }
  }

  /**
   * The entries a composite expansion appended: one CompositeGlyph for each
   * id in `ids`, none twice.
   */
  predicate AddsExactly(added: seq<TTGlyph>, ids: set<nat>)
  {
    |added| == |ids| &&
    (forall i :: 0 <= i < |added| ==> added[i].CompositeGlyph? && added[i].glyphIndex in ids) &&
    (forall i, j :: 0 <= i < j < |added| ==> added[i].glyphIndex != added[j].glyphIndex)
  }

  /**
   * The table after an insert of `entry`, given what the composite
   * expansion would add: on its error the table is unchanged; otherwise the
   * new components not yet mapped come first, then the entry, whose offset
   * is the answer.
   */
  predicate InsertedAfter(oldGlyphs: seq<TTGlyph>, oldKeys: set<nat>, glyphs: seq<TTGlyph>,
                          toAdd: Rvoe<set<nat>>, entry: TTGlyph, r: Rvoe<SubsetInfo>)
  {
    if toAdd.Err? then r == Err(toAdd.error) && glyphs == oldGlyphs
    else
      |glyphs| == |oldGlyphs| + |toAdd.value - oldKeys| + 1 &&
      glyphs[..|oldGlyphs|] == oldGlyphs &&
      AddsExactly(glyphs[|oldGlyphs|..|glyphs| - 1], toAdd.value - oldKeys) &&
      glyphs[|glyphs| - 1] == entry &&
      r == Ok(SubsetInfo(0, |glyphs| - 1))
  }

  class FontSubsetter {
    /** The `glyf` entries of the font (`ttfile.glyphs`). */
    const glyphData: seq<seq<Byte>>
    /** Whether the font carries CFF outlines, which have no composite glyphs here. */
    const inCff: bool
    /** FreeType's character-to-glyph lookup for the face (`FT_Get_Char_Index`), 0 when missing. */
    const charIndex: nat -> nat
    /** `subset.glyphs`. */
    var glyphs: seq<TTGlyph>
    /** `subset.font_index_mapping`. */
    var mapping: map<nat, nat>

    ghost predicate Valid()
      reads this
    {
      WellSized(glyphData) &&
      1 <= |glyphs| <= MaxGlyphs && glyphs[0] == Notdef &&
      mapping == IndexMap(glyphs)
    }

    /** `create_startstate`: the subset holds .notdef alone. */
    constructor (glyphData: seq<seq<Byte>>, inCff: bool, charIndex: nat -> nat)
      requires WellSized(glyphData)
      ensures Valid()
      ensures this.glyphData == glyphData && this.inCff == inCff && this.charIndex == charIndex
      ensures glyphs == [Notdef] && mapping == map[]
    {
      this.glyphData := glyphData;
      this.inCff := inCff;
      this.charIndex := charIndex;
      glyphs := [Notdef];
      mapping := map[];
    }

    /** The glyph index an insert for `codepoint` uses. */
    function Resolve(codepoint: nat, glyphId: Option<nat>): nat
    {
      if glyphId.Some? then glyphId.value else charIndex(codepoint)
    }

    /**
     * What `handle_subglyphs(gid)` adds: nothing for a CFF font or a simple
     * glyph, the whole composite closure otherwise (before removing what is
     * already mapped).
     */
    function SubglyphsToAdd(gid: nat): (r: Rvoe<set<nat>>)
      requires WellSized(glyphData)
      ensures r.Err? ==> (!inCff && (gid == 0 || gid >= |glyphData|) ==> r.error == MissingGlyph)
      ensures r.Ok? ==> SixteenBit(r.value)
    {
      if inCff then Ok({})
      else if gid == 0 || gid >= |glyphData| then Err(MissingGlyph)
      else
        var composite :- IsCompositeGlyph(glyphData[gid]);
        if !composite then Ok({})
        else
          var all :- Closure(glyphData, {}, gid);
          ClosureClosed(glyphData, {}, gid);
          assert all - {} == all;
          Ok(all)
    }

    /** The expansion of `gid` fits: `handle_subglyphs` aborts when it does not. */
    predicate CompositeFits(gid: nat)
      requires WellSized(glyphData)
      reads this
    {
      SubglyphsToAdd(gid).Ok? ==> |glyphs| + |SubglyphsToAdd(gid).value| < MaxGlyphs
    }

    /** The offset a codepoint request is answered with without inserting. */
    function CodepointLookup(glyphs: seq<TTGlyph>, codepoint: nat, glyphId: Option<nat>): Option<nat>
    {
      if glyphId.Some? then FirstMatch(glyphs, ByGlyphIndex(glyphId.value))
      else FirstMatch(glyphs, ByCodepoint(codepoint))
    }

    /** The offset a ligature request is answered with without inserting. */
    function LigatureLookup(glyphs: seq<TTGlyph>, text: string, glyphId: nat): Option<nat>
    {
      var existing := FirstMatch(glyphs, ByGlyphIndex(glyphId));
      if existing.Some? then existing else FirstMatch(glyphs, ByText(text))
    }

    /** The linear scan shared by the three `find_*` lookups. */
    method Find(key: GlyphKey) returns (r: Option<SubsetInfo>)
      ensures r.None? <==> FirstMatch(glyphs, key).None?
      ensures r.Some? ==> r.value == SubsetInfo(0, FirstMatch(glyphs, key).value)
    {
      var i := 0;
      while i < |glyphs|
        invariant i <= |glyphs|
        invariant forall j :: 0 <= j < i ==> !Matches(glyphs[j], key)
      {
        if Matches(glyphs[i], key) {
          return Some(SubsetInfo(0, i));
        }
        i := i + 1;
      }
      return None;
    }

    /** `find_existing_glyph`. */
    method FindExistingGlyph(gid: nat) returns (r: Option<SubsetInfo>)
      ensures r.None? <==> forall j :: 0 <= j < |glyphs| ==> !(glyphs[j].RegularGlyph? && glyphs[j].glyphIndex == gid)
      ensures r.Some? ==> r.value == SubsetInfo(0, FirstMatch(glyphs, ByGlyphIndex(gid)).value)
    {
      r := Find(ByGlyphIndex(gid));
    }

    /** `find_glyph_with_codepoint`. */
    method FindGlyphWithCodepoint(codepoint: nat) returns (r: Option<SubsetInfo>)
      ensures r.None? <==> forall j :: 0 <= j < |glyphs| ==> !(glyphs[j].RegularGlyph? && glyphs[j].codepoint == codepoint)
      ensures r.Some? ==> r.value == SubsetInfo(0, FirstMatch(glyphs, ByCodepoint(codepoint)).value)
    {
      r := Find(ByCodepoint(codepoint));
    }

    /** `find_glyph`: a ligature with this text. */
    method FindGlyph(text: string) returns (r: Option<SubsetInfo>)
      ensures r.None? <==> forall j :: 0 <= j < |glyphs| ==> !(glyphs[j].LigatureGlyph? && glyphs[j].text == text)
      ensures r.Some? ==> r.value == SubsetInfo(0, FirstMatch(glyphs, ByText(text)).value)
    {
      r := Find(ByText(text));
    }
 
    /** Appends `entry` and maps its glyph index to its offset, as every insert does. */
    method Append(entry: TTGlyph)
      requires 1 <= |glyphs| && mapping == IndexMap(glyphs)
      modifies this
      ensures glyphs == old(glyphs) + [entry] && mapping == IndexMap(glyphs)
      ensures mapping == old(mapping)[entry.glyphIndex := |old(glyphs)|]
    {
      glyphs := glyphs + [entry];
      mapping := mapping[entry.glyphIndex := |glyphs| - 1];
      assert glyphs[..|glyphs| - 1] == old(glyphs);
    }

    /**
     * The loop of `handle_subglyphs`: one CompositeGlyph for each id of
     * `subglyphs` the map does not hold yet, taken in no particular order
     * (the ids come from an unordered set).
     */
    method AppendComposites(subglyphs: set<nat>)
      requires Valid() && |glyphs| + |subglyphs| < MaxGlyphs
      modifies this
      ensures Valid() && |glyphs| < MaxGlyphs
      ensures |old(glyphs)| <= |glyphs| && glyphs[..|old(glyphs)|] == old(glyphs)
      ensures AddsExactly(glyphs[|old(glyphs)|..], subglyphs - old(mapping).Keys)
    {
      ghost var keys := mapping.Keys;
      ghost var added: set<nat> := {};
      ghost var appended: seq<TTGlyph> := [];
      var remaining := subglyphs;
      while remaining != {}
        invariant remaining <= subglyphs
        invariant glyphs == old(glyphs) + appended
        invariant mapping == IndexMap(glyphs)
        invariant forall x :: x in mapping <==> x in keys || (x in subglyphs && x !in remaining)
        invariant forall x :: x in added <==> x in subglyphs && x !in remaining && x !in keys
        invariant AddsExactly(appended, added)
        decreases remaining
      {
        var g :| g in remaining;
        remaining := remaining - {g};
        if g !in mapping {
          Append(CompositeGlyph(g));
          AddsExactlyStep(appended, added, g);
          appended := appended + [CompositeGlyph(g)];
          added := added + {g};
        }
      }
      assert glyphs[..|old(glyphs)|] == old(glyphs) && glyphs[|old(glyphs)|..] == appended;
      assert added == subglyphs - keys;
      SubsetCardinality(subglyphs - keys, subglyphs);
    }

    /**
     * `handle_subglyphs`: nothing for a CFF font; glyph index 0 or one past
     * the glyph table is MissingGlyph; for a composite glyph, the glyphs of
     * its closure not yet in the table are appended.
     */
    method HandleSubglyphs(gid: nat) returns (r: Status)
      requires Valid() && CompositeFits(gid)
      modifies this
      ensures Valid()
      ensures r.Err? <==> SubglyphsToAdd(gid).Err?
      ensures r.Err? ==> r.error == SubglyphsToAdd(gid).error && glyphs == old(glyphs)
      ensures r.Ok? ==>
        |glyphs| < MaxGlyphs && |old(glyphs)| <= |glyphs| && glyphs[..|old(glyphs)|] == old(glyphs) &&
        AddsExactly(glyphs[|old(glyphs)|..], SubglyphsToAdd(gid).value - old(mapping).Keys)
    {
      if inCff {
        assert glyphs[..|glyphs|] == glyphs && glyphs[|glyphs|..] == [];
        return Success;
      }
      if gid == 0 || gid >= |glyphData| {
        return Err(MissingGlyph);
      }
      var composite := IsCompositeGlyph(glyphData[gid]);
      if composite.Err? {
        return Err(composite.error);
      }
      if !composite.value {
        assert glyphs[..|glyphs|] == glyphs && glyphs[|glyphs|..] == [];
        return Success;
      }
      var all := AddSubglyphs(glyphData, {}, gid);
      if all.Err? {
        return Err(all.error);
      }
      AppendComposites(all.value);
      return Success;
    }

    /** The answer to a codepoint request that inserts, and the table after it. */
    ghost predicate CodepointInserted(oldGlyphs: seq<TTGlyph>, oldKeys: set<nat>, codepoint: nat,
                                      glyphId: Option<nat>, r: Rvoe<SubsetInfo>)
      requires WellSized(glyphData)
      reads this
    {
      var gid := Resolve(codepoint, glyphId);
      if |oldGlyphs| >= MaxGlyphs then r == Err(TooManyGlyphsUsed) && glyphs == oldGlyphs
      else if gid == 0 then r == Err(MissingGlyph) && glyphs == oldGlyphs
      else InsertedAfter(oldGlyphs, oldKeys, glyphs, SubglyphsToAdd(gid), RegularGlyph(codepoint, gid), r)
    }

    /** The answer to a ligature request that inserts, and the table after it. */
    ghost predicate LigatureInserted(oldGlyphs: seq<TTGlyph>, oldKeys: set<nat>, text: string,
                                     glyphId: nat, r: Rvoe<SubsetInfo>)
      requires WellSized(glyphData)
      reads this
    {
      if |oldGlyphs| >= MaxGlyphs then r == Err(TooManyGlyphsUsed) && glyphs == oldGlyphs
      else InsertedAfter(oldGlyphs, oldKeys, glyphs, SubglyphsToAdd(glyphId), LigatureGlyph(text, glyphId), r)
    }

    /**
     * The tail both overloads of `unchecked_insert_glyph_to_last_subset`
     * share: expand the glyph's components, then append the entry.
     */
    method ExpandAndAppend(entry: TTGlyph) returns (r: Rvoe<SubsetInfo>)
      requires Valid() && |glyphs| < MaxGlyphs && CompositeFits(entry.glyphIndex)
      modifies this
      ensures Valid()
      ensures InsertedAfter(old(glyphs), old(mapping).Keys, glyphs, SubglyphsToAdd(entry.glyphIndex), entry, r)
    {
      var handled := HandleSubglyphs(entry.glyphIndex);
      if handled.Err? {
        return Err(handled.error);
      }
      ghost var expanded := glyphs;
      Append(entry);
      r := Ok(SubsetInfo(0, |glyphs| - 1));
      InsertedShape(old(glyphs), old(mapping).Keys, expanded, SubglyphsToAdd(entry.glyphIndex).value, entry, glyphs, r);
    }

    /** `unchecked_insert_glyph_to_last_subset` for a codepoint. */
    method UncheckedInsertGlyph(codepoint: nat, glyphId: Option<nat>) returns (r: Rvoe<SubsetInfo>)
      requires Valid()
      requires |glyphs| < MaxGlyphs ==> CompositeFits(Resolve(codepoint, glyphId))
      modifies this
      ensures Valid()
      ensures CodepointInserted(old(glyphs), old(mapping).Keys, codepoint, glyphId, r)
    {
      if |glyphs| >= MaxGlyphs {
        return Err(TooManyGlyphsUsed);
      }
      var glyphIndex := Resolve(codepoint, glyphId);
      if glyphIndex == 0 {
        return Err(MissingGlyph);
      }
      r := ExpandAndAppend(RegularGlyph(codepoint, glyphIndex));
    }

    /** `unchecked_insert_glyph_to_last_subset` for a ligature. */
    method UncheckedInsertLigature(text: string, glyphId: nat) returns (r: Rvoe<SubsetInfo>)
      requires Valid()
      requires |glyphs| < MaxGlyphs ==> CompositeFits(glyphId)
      modifies this
      ensures Valid()
      ensures LigatureInserted(old(glyphs), old(mapping).Keys, text, glyphId, r)
    {
      if |glyphs| >= MaxGlyphs {
        return Err(TooManyGlyphsUsed);
      }
      r := ExpandAndAppend(LigatureGlyph(text, glyphId));
    }

    /**
     * `get_glyph_subset(codepoint, glyph_id)`: an explicit glyph id already
     * in the table as a regular glyph, or else (without an id) a codepoint
     * already there, is answered with its offset and the table does not
     * grow; otherwise the glyph is inserted. Either way a repeated request
     * is answered from the table.
     */
    method GetGlyphSubset(codepoint: nat, glyphId: Option<nat>) returns (r: Rvoe<SubsetInfo>)
      requires Valid()
      requires CodepointLookup(glyphs, codepoint, glyphId).None? && |glyphs| < MaxGlyphs ==>
        CompositeFits(Resolve(codepoint, glyphId))
      modifies this
      ensures Valid()
      ensures CodepointLookup(old(glyphs), codepoint, glyphId).Some? ==>
        r == Ok(SubsetInfo(0, CodepointLookup(old(glyphs), codepoint, glyphId).value)) && glyphs == old(glyphs)
      ensures CodepointLookup(old(glyphs), codepoint, glyphId).None? ==>
        CodepointInserted(old(glyphs), old(mapping).Keys, codepoint, glyphId, r)
      ensures r.Ok? ==> CodepointLookup(glyphs, codepoint, glyphId) == Some(r.value.offset)
    {
      if glyphId.Some? {
        var existing := FindExistingGlyph(glyphId.value);
        if existing.Some? {
          return Ok(existing.value);
        }
      } else {
        var trial := FindGlyphWithCodepoint(codepoint);
        if trial.Some? {
          return Ok(trial.value);
        }
      }
      ghost var before := glyphs;
      r := UncheckedInsertGlyph(codepoint, glyphId);
      if r.Ok? {
        var gid := Resolve(codepoint, glyphId);
        var key := if glyphId.Some? then ByGlyphIndex(glyphId.value) else ByCodepoint(codepoint);
        InsertedLookup(before, old(mapping).Keys, glyphs, SubglyphsToAdd(gid), RegularGlyph(codepoint, gid), r, key);
      }
    }

    /**
     * `get_glyph_subset(text, glyph_id)`: a regular glyph with this id, or
     * else a ligature with this text, is answered with its offset and the
     * table does not grow; otherwise the ligature is inserted. Either way a
     * repeated request is answered from the table.
     */
    method GetLigatureSubset(text: string, glyphId: nat) returns (r: Rvoe<SubsetInfo>)
      requires Valid()
      requires LigatureLookup(glyphs, text, glyphId).None? && |glyphs| < MaxGlyphs ==> CompositeFits(glyphId)
      modifies this
      ensures Valid()
      ensures LigatureLookup(old(glyphs), text, glyphId).Some? ==>
        r == Ok(SubsetInfo(0, LigatureLookup(old(glyphs), text, glyphId).value)) && glyphs == old(glyphs)
      ensures LigatureLookup(old(glyphs), text, glyphId).None? ==>
        LigatureInserted(old(glyphs), old(mapping).Keys, text, glyphId, r)
      ensures r.Ok? ==> LigatureLookup(glyphs, text, glyphId) == Some(r.value.offset)
    {
      var existing := FindExistingGlyph(glyphId);
      if existing.Some? {
        return Ok(existing.value);
      }
      var trial := FindGlyph(text);
      if trial.Some? {
        return Ok(trial.value);
      }
      ghost var before := glyphs;
      r := UncheckedInsertLigature(text, glyphId);
      if r.Ok? {
        var entry := LigatureGlyph(text, glyphId);
        InsertedLookup(before, old(mapping).Keys, glyphs, SubglyphsToAdd(glyphId), entry, r, ByGlyphIndex(glyphId));
        InsertedLookup(before, old(mapping).Keys, glyphs, SubglyphsToAdd(glyphId), entry, r, ByText(text));
      }
    }
  }

  /** A subset is no larger than its superset. */
  lemma {:induction false} SubsetCardinality(small: set<nat>, large: set<nat>)
    requires small <= large
    ensures |small| <= |large|
    decreases large
  {
    if small != {} {
      var x :| x in small;
      SubsetCardinality(small - {x}, large - {x});
    }
  }

  /**
   * After composites and one final entry are appended to a table with no
   * match, the first match is that entry if it matches, and none otherwise:
   * composite entries match no key.
   */
  lemma {:induction false} FirstMatchAfterInsert(before: seq<TTGlyph>, after: seq<TTGlyph>, key: GlyphKey)
    requires FirstMatch(before, key).None?
    requires |before| < |after| && after[..|before|] == before
    requires forall i :: |before| <= i < |after| - 1 ==> after[i].CompositeGlyph?
    ensures FirstMatch(after, key) == if Matches(after[|after| - 1], key) then Some(|after| - 1) else None
  {
    forall j | 0 <= j < |before|
      ensures !Matches(after[j], key)
    {
      assert after[j] == before[j];
    }
  }

  /** The same, read off the shape an insert leaves. */
  lemma {:induction false} InsertedLookup(oldGlyphs: seq<TTGlyph>, oldKeys: set<nat>, glyphs: seq<TTGlyph>,
                       toAdd: Rvoe<set<nat>>, entry: TTGlyph, r: Rvoe<SubsetInfo>, key: GlyphKey)
    requires InsertedAfter(oldGlyphs, oldKeys, glyphs, toAdd, entry, r) && r.Ok?
    requires FirstMatch(oldGlyphs, key).None?
    ensures FirstMatch(glyphs, key) == if Matches(entry, key) then Some(r.value.offset) else None
  {
    var added := glyphs[|oldGlyphs|..|glyphs| - 1];
    forall i | |oldGlyphs| <= i < |glyphs| - 1
      ensures glyphs[i].CompositeGlyph?
    {
      assert glyphs[i] == added[i - |oldGlyphs|];
    }
    FirstMatchAfterInsert(oldGlyphs, glyphs, key);
  }

  /** One more composite, for an id not yet added. */
  lemma {:induction false} AddsExactlyStep(added: seq<TTGlyph>, ids: set<nat>, g: nat)
    requires AddsExactly(added, ids) && g !in ids
    ensures AddsExactly(added + [CompositeGlyph(g)], ids + {g})
  {
    var longer := added + [CompositeGlyph(g)];
    forall i | 0 <= i < |added|
      ensures longer[i] == added[i]
    {
    }
  }

  /** A successful expansion followed by the append of `entry` is an insert. */
  lemma {:induction false} InsertedShape(oldGlyphs: seq<TTGlyph>, oldKeys: set<nat>, expanded: seq<TTGlyph>, toAdd: set<nat>,
                      entry: TTGlyph, glyphs: seq<TTGlyph>, r: Rvoe<SubsetInfo>)
    requires |oldGlyphs| <= |expanded| && expanded[..|oldGlyphs|] == oldGlyphs
    requires AddsExactly(expanded[|oldGlyphs|..], toAdd - oldKeys)
    requires glyphs == expanded + [entry] && r == Ok(SubsetInfo(0, |glyphs| - 1))
    ensures InsertedAfter(oldGlyphs, oldKeys, glyphs, Ok(toAdd), entry, r)
  {
    assert glyphs[..|oldGlyphs|] == oldGlyphs;
    assert glyphs[|oldGlyphs|..|glyphs| - 1] == expanded[|oldGlyphs|..];
  }
}
