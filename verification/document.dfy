// The document assembler `PdfDocument` (src/document.cpp): the object
// table, pages, page labels, the role map, outlines, structure items, ICC
// profiles and built-in fonts.
//
// Object contents are kept only as far as the bookkeeping needs them: each
// entry of the object table records what kind of object it is and the
// indices it was created for. How the objects are later serialized is not
// part of this module.

module Document {
  import opened Errors
  import opened PdfCommon
  import opened DocumentTypes

  type OutlineId = Handle
  type RoleId = Handle

  /** A page as `add_page` records it for writing. */
  datatype DelayedPage = DelayedPage(
    pageNum: nat,
    usedFormWidgets: set<FormWidgetId>,
    usedAnnotations: set<AnnotationId>,
    transition: Option<Transition>,
    subnavRoot: Option<int>,
    customProps: PageProperties,
    structParents: Option<int>)

  /** An entry of `document_objects`. */
  datatype DocObject =
    | DummyIndexZero
    | InfoObject
    | DelayedPages
    | OutputIntent
    | DocumentMetadata
    | ResourceDict(resources: string)
    | ContentStream(commands: string)
    | PageObject(page: DelayedPage)
    | NavigationNode(step: nat)
    | FormXObjectStream(dict: string, stream: string)
    | IccStream(contents: string, channels: int)
    | IccColorspace(streamNum: int)
    | StructItemObject(itemId: nat)
    | BuiltinFontDict(font: nat)

  datatype PageOffsets = PageOffsets(resourceObjNum: int, commandsObjNum: int, pageObjNum: int)

  datatype StructureUsage = StructureUsage(pageNum: int, mcidNum: int)

  datatype PageLabel = PageLabel(startPage: nat, style: Option<int>, prefix: Option<string>, startNum: Option<nat>)

  datatype RolemapEntry = RolemapEntry(name: string, builtin: int)

  datatype Destination = Destination(page: int)

  datatype Outline = Outline(title: string, dest: Option<Destination>, parent: Option<OutlineId>)

  datatype StructureType = BuiltinType(stype: int) | RoleType(role: RoleId)

  datatype StructItem = StructItem(objId: int, stype: StructureType, parent: Option<StructureItemId>)

  /** `FontPDFObjects`, less `font_index_tmp`: the loaded-font index, which a builtin font leaves at size_t(-1). */
  datatype FontObjects = FontObjects(fontFileObj: int, fontDescriptorObj: int, fontObj: int, cidDictionaryObj: int)

  /** The document properties `init` looks at; `profile` is the colour manager's profile for the output colour space. */
  datatype InitProperties = InitProperties(
    outputColorspace: DeviceColorspace,
    profile: string,
    hasSubtype: bool,
    isPdfA: bool,
    intentConditionIdentifier: string,
    metadataXml: string)

  function ChannelCount(cs: DeviceColorspace): int
  {
    match cs
    case RGB => 3
    case Gray => 1
    case CMYK => 4
  }

  /** No value occurs twice. */
  predicate Distinct<T(==)>(s: seq<T>)
  {
    forall i, j :: 0 <= i < j < |s| ==> s[i] != s[j]
  }

  predicate StrictlyIncreasing(s: seq<int>)
  {
    forall i, j :: 0 <= i < j < |s| ==> s[i] < s[j]
  }

  predicate NonDecreasingLabels(labels: seq<PageLabel>)
  {
    forall i, j :: 0 <= i < j < |labels| ==> labels[i].startPage <= labels[j].startPage
  }

  predicate ValidRoleName(name: string)
  {
    name != [] && name[0] != '/'
  }

  /** Role names are well formed and unique. */
  predicate RolemapValid(rolemap: seq<RolemapEntry>)
  {
    (forall i :: 0 <= i < |rolemap| ==> ValidRoleName(rolemap[i].name))
    && (forall i, j :: 0 <= i < j < |rolemap| ==> rolemap[i].name != rolemap[j].name)
  }

  /**
   * The outline tree: every item has a recorded parent and is listed, in
   * creation order, among that parent's children, and each child list names
   * only items that record that parent. Parents are not checked to exist.
   */
  ghost predicate OutlinesValid(items: seq<Outline>, parent: map<int, int>, children: map<int, seq<int>>)
  {
    && (forall id :: id in parent <==> 0 <= id < |items|)
    && (forall id :: 0 <= id < |items| ==> parent[id] in children && id in children[parent[id]])
    && (forall p, j :: p in children && 0 <= j < |children[p]| ==>
          children[p][j] in parent && parent[children[p][j]] == p)
    && (forall p :: p in children ==> StrictlyIncreasing(children[p]))
  }

  /** A structure item's parent is an earlier item, so the structure forest has no cycles. */
  predicate StructureParentsEarlier(items: seq<StructItem>)
  {
    forall i :: 0 <= i < |items| && items[i].parent.Some? ==> 0 <= items[i].parent.value.id < i
  }

  // ----- the document's invariants, one registry at a time

  /** Object 0 is the placeholder that makes vector and PDF indices agree. */
  predicate ObjectsValid(objects: seq<DocObject>)
  {
    |objects| >= 1 && objects[0] == DummyIndexZero
  }

  /** Page `i` points at its own page object. */
  predicate PagesValid(pages: seq<PageOffsets>, objects: seq<DocObject>)
  {
    forall i :: 0 <= i < |pages| ==>
      0 < pages[i].pageObjNum < |objects| && objects[pages[i].pageObjNum].PageObject?
      && objects[pages[i].pageObjNum].page.pageNum == i
  }

  /** Structure usage names existing pages. */
  predicate UseValid(structureUse: map<StructureItemId, StructureUsage>, pageCount: nat)
  {
    forall s :: s in structureUse ==> 0 <= structureUse[s].pageNum < pageCount
  }

  /** Items have earlier parents and their own delayed objects. */
  predicate StructureValid(items: seq<StructItem>, objects: seq<DocObject>)
  {
    StructureParentsEarlier(items)
    && forall i :: 0 <= i < |items| ==> 0 < items[i].objId < |objects| && objects[items[i].objId] == StructItemObject(i)
  }

  /** Profiles point at their stream objects; their contents are non-empty and pairwise different. */
  predicate IccValid(icc: seq<IccInfo>, objects: seq<DocObject>)
  {
    && (forall i :: 0 <= i < |icc| ==>
          0 < icc[i].streamNum < |objects| && objects[icc[i].streamNum].IccStream?
          && objects[icc[i].streamNum].contents != [])
    && (forall i, j :: 0 <= i < j < |icc| ==>
          objects[icc[i].streamNum].contents != objects[icc[j].streamNum].contents)
  }

  /** Each memoised built-in font names its own font dictionary. */
  predicate FontsValid(builtinFonts: map<nat, FontId>, fontObjects: seq<FontObjects>, objects: seq<DocObject>)
  {
    forall f :: f in builtinFonts ==>
      0 <= builtinFonts[f].id < |fontObjects|
      && 0 < fontObjects[builtinFonts[f].id].fontObj < |objects|
      && objects[fontObjects[builtinFonts[f].id].fontObj] == BuiltinFontDict(f)
  }

  predicate IsPrefix<T(==)>(a: seq<T>, b: seq<T>)
  {
    |a| <= |b| && forall k :: 0 <= k < |a| ==> b[k] == a[k]
  }

  /** Appending objects keeps every registry that points into the table valid. */
  lemma {:induction false} ObjectsGrown(objs: seq<DocObject>, objs2: seq<DocObject>, pages: seq<PageOffsets>, items: seq<StructItem>,
                     icc: seq<IccInfo>, builtinFonts: map<nat, FontId>, fontObjects: seq<FontObjects>)
    requires IsPrefix(objs, objs2)
    requires ObjectsValid(objs) && PagesValid(pages, objs) && StructureValid(items, objs)
    requires IccValid(icc, objs) && FontsValid(builtinFonts, fontObjects, objs)
    ensures ObjectsValid(objs2) && PagesValid(pages, objs2) && StructureValid(items, objs2)
    ensures IccValid(icc, objs2) && FontsValid(builtinFonts, fontObjects, objs2)
  {
  }

  /** A profile with new, non-empty contents keeps the profiles valid and distinct. */
  lemma {:induction false} IccAppended(icc: seq<IccInfo>, objs: seq<DocObject>, contents: string, numChannels: int)
    requires |objs| >= 1 && IccValid(icc, objs) && contents != []
    requires forall i :: 0 <= i < |icc| ==> objs[icc[i].streamNum].contents != contents
    ensures IccValid(icc + [IccInfo(|objs|, |objs| + 1, numChannels)],
                     objs + [IccStream(contents, numChannels), IccColorspace(|objs|)])
  {
    var objs2 := objs + [IccStream(contents, numChannels), IccColorspace(|objs|)];
    var icc2 := icc + [IccInfo(|objs|, |objs| + 1, numChannels)];
    assert forall i :: 0 <= i < |icc| ==> icc2[i] == icc[i] && objs2[icc[i].streamNum] == objs[icc[i].streamNum];
    assert objs2[|objs|] == IccStream(contents, numChannels);
  }

  /** The registries of a document that point into its object table. */
  datatype DocTables = DocTables(
    objects: seq<DocObject>, pages: seq<PageOffsets>, structureUse: map<StructureItemId, StructureUsage>,
    structureItems: seq<StructItem>, iccProfiles: seq<IccInfo>, builtinFonts: map<nat, FontId>,
    fontObjects: seq<FontObjects>)

  /** The object-table invariant, registry by registry. */
  ghost predicate TablesValid(t: DocTables)
  {
    && ObjectsValid(t.objects)
    && PagesValid(t.pages, t.objects)
    && UseValid(t.structureUse, |t.pages|)
    && StructureValid(t.structureItems, t.objects)
    && IccValid(t.iccProfiles, t.objects)
    && FontsValid(t.builtinFonts, t.fontObjects, t.objects)
  }

  /** The tables after a new profile's stream and colour space are appended. */
  function IccAdded(t: DocTables, contents: string, numChannels: int): DocTables
  {
    var n := |t.objects|;
    t.(objects := t.objects + [IccStream(contents, numChannels), IccColorspace(n)],
       iccProfiles := t.iccProfiles + [IccInfo(n, n + 1, numChannels)])
  }

  lemma {:induction false} TablesWithIcc(t: DocTables, contents: string, numChannels: int)
    requires TablesValid(t) && contents != []
    requires forall i :: 0 <= i < |t.iccProfiles| ==> t.objects[t.iccProfiles[i].streamNum].contents != contents
    ensures TablesValid(IccAdded(t, contents, numChannels))
  {
    var t2 := IccAdded(t, contents, numChannels);
    ObjectsGrown(t.objects, t2.objects, t.pages, t.structureItems, t.iccProfiles, t.builtinFonts, t.fontObjects);
    IccAppended(t.iccProfiles, t.objects, contents, numChannels);
  }

  class PdfDocument {
    var objects: seq<DocObject>
    var pagesObject: int
    var outputProfile: Option<IccColorSpaceId>
    var pages: seq<PageOffsets>
    var formUse: map<FormWidgetId, int>
    var annotationUse: map<AnnotationId, int>
    var structureUse: map<StructureItemId, StructureUsage>
    var structureParentTreeItems: seq<seq<StructureItemId>>
    var pageLabels: seq<PageLabel>
    var rolemap: seq<RolemapEntry>
    var outlineItems: seq<Outline>
    var outlineParent: map<int, int>
    var outlineChildren: map<int, seq<int>>
    var structureItems: seq<StructItem>
    var iccProfiles: seq<IccInfo>
    var builtinFonts: map<nat, FontId>
    var fontObjects: seq<FontObjects>
    var formXobjects: seq<int>
    var writeAttempted: bool

    /** The object table and the registries that point into it are consistent. */
    ghost predicate Valid()
      reads this`objects, this`pages, this`structureUse, this`structureItems, this`iccProfiles
      reads this`builtinFonts, this`fontObjects
    {
      TablesValid(Tables())
    }

    function Tables(): DocTables
      reads this`objects, this`pages, this`structureUse, this`structureItems, this`iccProfiles
      reads this`builtinFonts, this`fontObjects
    {
      DocTables(objects, pages, structureUse, structureItems, iccProfiles, builtinFonts, fontObjects)
    }

    /** Page labels are in page order, role names are unique, and the outline tree is consistent. */
    ghost predicate RegistriesValid()
      reads this`pageLabels, this`rolemap, this`outlineItems, this`outlineParent, this`outlineChildren
    {
      NonDecreasingLabels(pageLabels) && RolemapValid(rolemap) && OutlinesValid(outlineItems, outlineParent, outlineChildren)
    }

    /** Objects are only ever appended. */
    twostate predicate ObjectsExtended()
      reads this
    {
      IsPrefix(old(objects), objects)
    }

    /** The document before `init`. */
    constructor()
      ensures objects == [] && pages == [] && iccProfiles == [] && pageLabels == [] && rolemap == []
      ensures outlineItems == [] && structureItems == [] && builtinFonts == map[] && fontObjects == []
      ensures formUse == map[] && annotationUse == map[] && structureUse == map[]
      ensures outlineParent == map[] && outlineChildren == map[] && outputProfile == None
      ensures !writeAttempted
    {
      objects := [];
      pagesObject := -1;
      outputProfile := None;
      pages := [];
      formUse := map[];
      annotationUse := map[];
      structureUse := map[];
      structureParentTreeItems := [];
      pageLabels := [];
      rolemap := [];
      outlineItems := [];
      outlineParent := map[];
      outlineChildren := map[];
      structureItems := [];
      iccProfiles := [];
      builtinFonts := map[];
      fontObjects := [];
      formXobjects := [];
      writeAttempted := false;
    }

    /** `add_object`: the new object's number is the old table size. */
    method AddObject(o: DocObject) returns (num: int)
      modifies this`objects
      ensures num == |old(objects)| && objects == old(objects) + [o]
    {
      num := |objects|;
      objects := objects + [o];
    }

    /**
     * `init`: the placeholder object 0 and the info object, the output
     * profile, the page tree, and for PDF/X and PDF/A the output intent,
     * which needs a profile and a condition identifier.
     */
    method Init(props: InitProperties) returns (r: Status)
      requires objects == [] && pages == [] && iccProfiles == [] && structureItems == []
      requires builtinFonts == map[] && fontObjects == [] && structureUse == map[] && outputProfile == None
      modifies this`objects, this`outputProfile, this`pagesObject, this`iccProfiles
      ensures |objects| >= 2 && objects[0] == DummyIndexZero && objects[1] == InfoObject
      ensures props.outputColorspace == CMYK && props.profile == [] ==> r == Err(OutputProfileMissing)
      ensures props.hasSubtype && props.profile == [] ==> r == Err(OutputProfileMissing)
      ensures r.Ok? <==> && (props.outputColorspace == CMYK ==> props.profile != [])
                         && (props.hasSubtype ==> props.profile != [] && props.intentConditionIdentifier != [])
      ensures r.Ok? ==> Valid() && 0 < pagesObject < |objects| && objects[pagesObject] == DelayedPages
      ensures r.Ok? ==> (outputProfile.Some? <==> props.profile != [])
      ensures r.Ok? && props.profile != [] ==>
                iccProfiles == [IccInfo(2, 3, ChannelCount(props.outputColorspace))] && outputProfile == Some(Handle(0))
    {
      AddInitialObjects();
      if props.outputColorspace == CMYK && props.profile == [] {
        return Err(OutputProfileMissing);
      }
      AddOutputProfile(props.profile, ChannelCount(props.outputColorspace));
      r := AddCatalogObjects(props);
    }

    /** The output profile, when there is one, becomes the first ICC profile. */
    method AddOutputProfile(profile: string, numChannels: int)
      requires Valid() && objects == [DummyIndexZero, InfoObject] && iccProfiles == [] && outputProfile == None
      modifies this`objects, this`iccProfiles, this`outputProfile
      ensures Valid() && |objects| >= 2 && objects[0] == DummyIndexZero && objects[1] == InfoObject
      ensures profile == [] ==> unchanged(this)
      ensures profile != [] ==> iccProfiles == [IccInfo(2, 3, numChannels)] && outputProfile == Some(Handle(0))
    {
      if profile != [] {
        var id := AddIccProfile(profile, numChannels);
        outputProfile := Some(id);
      }
    }

    /** Object 0, which no PDF object may use, and the document information object. */
    method AddInitialObjects()
      requires objects == [] && pages == [] && iccProfiles == [] && structureItems == []
      requires builtinFonts == map[] && structureUse == map[]
      modifies this`objects
      ensures objects == [DummyIndexZero, InfoObject] && Valid()
    {
      var zero := AddObject(DummyIndexZero);
      var info := AddObject(InfoObject);
    }

    /** The rest of `init`, after the output profile: the page tree, the output intent and the metadata. */
    method AddCatalogObjects(props: InitProperties) returns (r: Status)
      requires Valid()
      modifies this`objects, this`pagesObject
      ensures Valid() && ObjectsExtended()
      ensures r.Ok? <==> (props.hasSubtype ==> outputProfile.Some? && props.intentConditionIdentifier != [])
      ensures props.hasSubtype && outputProfile.None? ==> r == Err(OutputProfileMissing)
      ensures r.Ok? ==> pagesObject == |old(objects)| < |objects| && objects[pagesObject] == DelayedPages
    {
      ghost var t0 := Tables();
      pagesObject := AddObject(DelayedPages);
      if props.hasSubtype {
        if outputProfile.None? {
          TablesGrown(t0, objects);
          return Err(OutputProfileMissing);
        }
        if props.intentConditionIdentifier == [] {
          TablesGrown(t0, objects);
          return Err(MissingIntentIdentifier);
        }
        var intent := AddObject(OutputIntent);
      }
      if props.metadataXml != [] || props.isPdfA {
        var md := AddObject(DocumentMetadata);
      }
      TablesGrown(t0, objects);
      r := Success;
    }

    /** `find_icc_profile`: the first profile with exactly these contents. */
    method FindIccProfile(contents: string) returns (r: Option<IccColorSpaceId>)
      requires Valid()
      ensures r.Some? ==> 0 <= r.value.id < |iccProfiles| && objects[iccProfiles[r.value.id].streamNum].contents == contents
      ensures r.None? <==> forall i :: 0 <= i < |iccProfiles| ==> objects[iccProfiles[i].streamNum].contents != contents
    {
      var i := 0;
      while i < |iccProfiles|
        invariant 0 <= i <= |iccProfiles|
        invariant forall k :: 0 <= k < i ==> objects[iccProfiles[k].streamNum].contents != contents
      {
        if objects[iccProfiles[i].streamNum].contents == contents {
          return Some(Handle(i));
        }
        i := i + 1;
      }
      return None;
    }

    /**
     * `add_icc_profile`: byte-identical contents give the existing id, empty
     * contents give id -1 and register nothing; otherwise a stream object
     * and a colour-space object are added and the new profile's id returned.
     */
    method AddIccProfile(contents: string, numChannels: int) returns (r: IccColorSpaceId)
      requires Valid()
      modifies this`objects, this`iccProfiles
      ensures Valid() && ObjectsExtended()
      ensures 0 <= r.id < |iccProfiles| ==> objects[iccProfiles[r.id].streamNum].contents == contents
      ensures (exists i :: 0 <= i < |old(iccProfiles)| && old(objects)[old(iccProfiles)[i].streamNum].contents == contents) ==>
                0 <= r.id < |old(iccProfiles)| && unchanged(this)
      ensures contents == [] ==> r.id == -1 && unchanged(this)
      ensures (contents != [] && forall i :: 0 <= i < |old(iccProfiles)| ==> old(objects)[old(iccProfiles)[i].streamNum].contents != contents) ==>
                && r.id == |old(iccProfiles)|
                && objects == old(objects) + [IccStream(contents, numChannels), IccColorspace(|old(objects)|)]
                && iccProfiles == old(iccProfiles) + [IccInfo(|old(objects)|, |old(objects)| + 1, numChannels)]
    {
      var existing := FindIccProfile(contents);
      if existing.Some? {
        return existing.value;
      }
      if contents == [] {
        return Handle(-1);
      }
      r := StoreIccProfile(contents, numChannels);
    }

    /** The new-profile branch of `add_icc_profile`: the stream, then the colour space naming it. */
    method StoreIccProfile(contents: string, numChannels: int) returns (r: IccColorSpaceId)
      requires Valid() && contents != []
      requires forall i :: 0 <= i < |iccProfiles| ==> objects[iccProfiles[i].streamNum].contents != contents
      modifies this`objects, this`iccProfiles
      ensures Valid() && ObjectsExtended()
      ensures r.id == |old(iccProfiles)|
      ensures objects == old(objects) + [IccStream(contents, numChannels), IccColorspace(|old(objects)|)]
      ensures iccProfiles == old(iccProfiles) + [IccInfo(|old(objects)|, |old(objects)| + 1, numChannels)]
    {
      ghost var t := Tables();
      TablesWithIcc(t, contents, numChannels);
      var streamObjId := AddObject(IccStream(contents, numChannels));
      var objId := AddObject(IccColorspace(streamObjId));
      iccProfiles := iccProfiles + [IccInfo(streamObjId, objId, numChannels)];
      assert Tables() == IccAdded(t, contents, numChannels);
      r := Handle(|iccProfiles| - 1);
    }

    /** `get_builtin_font_id`: one font dictionary per built-in font, created on first use. */
    method GetBuiltinFontId(font: nat) returns (r: FontId)
      requires Valid()
      modifies this`objects, this`fontObjects, this`builtinFonts
      ensures Valid() && ObjectsExtended()
      ensures font in builtinFonts && builtinFonts[font] == r
      ensures font in old(builtinFonts) ==> r == old(builtinFonts)[font] && unchanged(this)
      ensures font !in old(builtinFonts) ==>
                && r.id == |old(fontObjects)|
                && objects == old(objects) + [BuiltinFontDict(font)]
                && fontObjects == old(fontObjects) + [FontObjects(-1, -1, |old(objects)|, 0)]
    {
      if font in builtinFonts {
        return builtinFonts[font];
      }
      ghost var o0 := objects;
      var fontObj := AddObject(BuiltinFontDict(font));
      ObjectsGrown(o0, objects, pages, structureItems, iccProfiles, builtinFonts, fontObjects);
      fontObjects := fontObjects + [FontObjects(-1, -1, fontObj, 0)];
      r := Handle(|fontObjects| - 1);
      builtinFonts := builtinFonts[font := r];
    }

    /** `add_rolemap_entry`: a new, well-formed role name gets the next role id. */
    method AddRolemapEntry(name: string, builtinType: int) returns (r: Rvoe<RoleId>)
      requires RegistriesValid()
      modifies this`rolemap
      ensures RegistriesValid()
      ensures !ValidRoleName(name) ==> r == Err(SlashStart) && unchanged(this)
      ensures ValidRoleName(name) && (exists i :: 0 <= i < |old(rolemap)| && old(rolemap)[i].name == name) ==>
                r == Err(RoleAlreadyDefined) && unchanged(this)
      ensures r.Ok? <==> ValidRoleName(name) && forall i :: 0 <= i < |old(rolemap)| ==> old(rolemap)[i].name != name
      ensures r.Ok? ==> r.value.id == |old(rolemap)| && rolemap == old(rolemap) + [RolemapEntry(name, builtinType)]
    {
      if name == [] || name[0] == '/' {
        return Err(SlashStart);
      }
      var i := 0;
      while i < |rolemap|
        invariant 0 <= i <= |rolemap|
        invariant forall k :: 0 <= k < i ==> rolemap[k].name != name
      {
        if rolemap[i].name == name {
          return Err(RoleAlreadyDefined);
        }
        i := i + 1;
      }
      rolemap := rolemap + [RolemapEntry(name, builtinType)];
      r := Ok(Handle(|rolemap| - 1));
    }

    /** `add_page_labeling`: a label may not start before the previous one. */
    method AddPageLabeling(startPage: nat, style: Option<int>, prefix: Option<string>, startNum: Option<nat>) returns (r: Status)
      requires RegistriesValid()
      modifies this`pageLabels
      ensures RegistriesValid()
      ensures r.Err? <==> old(pageLabels) != [] && old(pageLabels)[|old(pageLabels)| - 1].startPage > startPage
      ensures r.Err? ==> r.error == NonSequentialPageNumber && unchanged(this)
      ensures r.Ok? ==> pageLabels == old(pageLabels) + [PageLabel(startPage, style, prefix, startNum)]
    {
      if pageLabels != [] && pageLabels[|pageLabels| - 1].startPage > startPage {
        return Err(NonSequentialPageNumber);
      }
      pageLabels := pageLabels + [PageLabel(startPage, style, prefix, startNum)];
      r := Success;
    }

    /**
     * `add_outline`: a titled item gets the next id and is appended to its
     * parent's children (-1 for a top-level item); the parent is not checked.
     */
    method AddOutline(o: Outline) returns (r: Rvoe<OutlineId>)
      requires RegistriesValid()
      modifies this`outlineItems, this`outlineParent, this`outlineChildren
      ensures RegistriesValid()
      ensures o.title == [] ==> r == Err(EmptyTitle) && unchanged(this)
      ensures r.Ok? <==> o.title != []
      ensures r.Ok? ==> && r.value.id == |old(outlineItems)|
                        && outlineItems == old(outlineItems) + [o]
                        && outlineParent == old(outlineParent)[r.value.id := ParentIndex(o)]
                        && outlineChildren == old(outlineChildren)[ParentIndex(o) := ChildrenOf(old(outlineChildren), ParentIndex(o)) + [r.value.id]]
    {
      if o.title == [] {
        return Err(EmptyTitle);
      }
      var curId := |outlineItems|;
      var parId := ParentIndex(o);
      outlineParent := outlineParent[curId := parId];
      outlineChildren := outlineChildren[parId := ChildrenOf(outlineChildren, parId) + [curId]];
      outlineItems := outlineItems + [o];
      r := Ok(Handle(curId));
    }

    /**
     * The destination check of `create_outlines`: the first destination
     * outside the page list fails with InvalidPageNumber.
     */
    method CheckOutlineDestinations() returns (r: Status)
      ensures r.Ok? <==> forall i :: 0 <= i < |outlineItems| ==> DestinationValid(outlineItems[i], |pages|)
      ensures r.Err? ==> r.error == InvalidPageNumber
    {
      var curId := 0;
      while curId < |outlineItems|
        invariant 0 <= curId <= |outlineItems|
        invariant forall i :: 0 <= i < curId ==> DestinationValid(outlineItems[i], |pages|)
      {
        var item := outlineItems[curId];
        if item.dest.Some? {
          var physicalPage := item.dest.value.page;
          if physicalPage < 0 || physicalPage >= |pages| {
            return Err(InvalidPageNumber);
          }
        }
        curId := curId + 1;
      }
      r := Success;
    }

    /**
     * `add_structure_item` (both overloads): a parent must be an existing
     * item, else BadId; the item gets the next id and a delayed object.
     */
    method AddStructureItem(stype: StructureType, parent: Option<StructureItemId>) returns (r: Rvoe<StructureItemId>)
      requires Valid()
      modifies this`objects, this`structureItems
      ensures Valid() && ObjectsExtended()
      ensures r.Err? <==> parent.Some? && !(0 <= parent.value.id < |old(structureItems)|)
      ensures r.Err? ==> r.error == BadId && unchanged(this)
      ensures r.Ok? ==> && r.value.id == |old(structureItems)|
                        && objects == old(objects) + [StructItemObject(r.value.id)]
                        && structureItems == old(structureItems) + [StructItem(|old(objects)|, stype, parent)]
      ensures r.Ok? && parent.Some? ==> parent.value.id < r.value.id
    {
      if parent.Some? && (parent.value.id < 0 || parent.value.id >= |structureItems|) {
        return Err(BadId);
      }
      var stritemId := |structureItems|;
      ghost var o0 := objects;
      var objId := AddObject(StructItemObject(stritemId));
      ObjectsGrown(o0, objects, pages, structureItems, iccProfiles, builtinFonts, fontObjects);
      structureItems := structureItems + [StructItem(objId, stype, parent)];
      r := Ok(Handle(|structureItems| - 1));
    }

    /** `add_form_xobject`: the XObject's stream object, recorded in the XObject list. */
    method AddFormXObject(dict: string, stream: string) returns (id: int)
      requires Valid()
      modifies this`objects, this`formXobjects
      ensures Valid()
      ensures id == |old(formXobjects)| && formXobjects == old(formXobjects) + [|old(objects)|]
      ensures objects == old(objects) + [FormXObjectStream(dict, stream)]
    {
      ghost var o0 := objects;
      var xobjNum := AddObject(FormXObjectStream(dict, stream));
      ObjectsGrown(o0, objects, pages, structureItems, iccProfiles, builtinFonts, fontObjects);
      formXobjects := formXobjects + [xobjNum];
      id := |formXobjects| - 1;
    }

    /** Whether any key is already recorded in `use`: the reuse loops of `add_page`. */
    static method AnyUsed<K>(keys: set<K>, use: map<K, int>) returns (found: bool)
      ensures found <==> exists k :: k in keys && k in use
    {
      var rest := keys;
      while rest != {}
        invariant rest <= keys
        invariant forall k :: k in keys - rest ==> k !in use
        decreases |rest|
      {
        var k :| k in rest;
        if k in use {
          return true;
        }
        rest := rest - {k};
      }
      return false;
    }

    /** Records `value` for every key: the use-map updates of `add_page`. */
    static method MarkUsed<K>(keys: set<K>, use: map<K, int>, value: int) returns (r: map<K, int>)
      ensures forall k :: k in r <==> k in use || k in keys
      ensures forall k :: k in keys ==> r[k] == value
      ensures forall k :: k in use && k !in keys ==> r[k] == use[k]
    {
      r := use;
      var rest := keys;
      while rest != {}
        invariant rest <= keys
        invariant forall k :: k in r <==> k in use || (k in keys && k !in rest)
        invariant forall k :: k in keys && k !in rest ==> r[k] == value
        invariant forall k :: k in use && (k !in keys || k in rest) ==> r[k] == use[k]
        decreases |rest|
      {
        var k :| k in rest;
        r := r[k := value];
        rest := rest - {k};
      }
    }

    /**
     * `create_subnavigation`: a root node, one node per navigation step and
     * a closing node, consecutively numbered; the root's number is returned.
     */
    method CreateSubnavigation(subnav: seq<SubPageNavigation>) returns (root: int)
      requires subnav != []
      modifies this`objects
      ensures ObjectsExtended()
      ensures root == |old(objects)| && |objects| == |old(objects)| + |subnav| + 2
      ensures forall k :: |old(objects)| <= k < |objects| ==> objects[k].NavigationNode?
    {
      ghost var o0 := objects;
      root := AddObject(NavigationNode(0));
      var i := 0;
      while i < |subnav|
        invariant 0 <= i <= |subnav|
        invariant IsPrefix(o0, objects) && |objects| == |o0| + i + 1
        invariant forall k :: |o0| <= k < |objects| ==> objects[k].NavigationNode?
      {
        var node := AddObject(NavigationNode(i + 1));
        i := i + 1;
      }
      var last := AddObject(NavigationNode(|subnav| + 1));
    }

    /** The reuse checks of `add_page`, in their order. */
    method CheckReuse(fws: set<FormWidgetId>, annots: set<AnnotationId>, structs: seq<StructureItemId>) returns (r: Status)
      ensures r.Ok? <==> ReuseFree(fws, annots, structs, formUse, annotationUse, structureUse)
      ensures AnnotationsReused(fws, annots, formUse, annotationUse) ==> r == Err(AnnotationReuse)
      ensures r.Err? ==> r.error == AnnotationReuse || r.error == StructureReuse
    {
      var reused := AnyUsed(fws, formUse);
      if reused {
        return Err(AnnotationReuse);
      }
      reused := AnyUsed(annots, annotationUse);
      if reused {
        return Err(AnnotationReuse);
      }
      var i := 0;
      while i < |structs|
        invariant 0 <= i <= |structs|
        invariant forall k :: 0 <= k < i ==> structs[k] !in structureUse
      {
        if structs[i] in structureUse {
          return Err(StructureReuse);
        }
        i := i + 1;
      }
      r := Success;
    }

    /**
     * `add_page`: reused widgets or annotations (AnnotationReuse) and reused
     * structure items (StructureReuse) are refused before anything is added.
     * Otherwise the resource and content objects, the navigation nodes and
     * the page object are added, the widgets and annotations are recorded
     * against the page object, and the k-th structure item gets MCID k on
     * this page.
     */
    method AddPage(resourceDict: string, commandStream: string, customProps: PageProperties,
                   fws: set<FormWidgetId>, annots: set<AnnotationId>, structs: seq<StructureItemId>,
                   transition: Option<Transition>, subnav: seq<SubPageNavigation>) returns (r: Status)
      requires Valid() && Distinct(structs)
      modifies this`objects, this`pages, this`formUse, this`annotationUse, this`structureUse, this`structureParentTreeItems
      ensures Valid() && ObjectsExtended()
      ensures r.Ok? <==> ReuseFree(fws, annots, structs, old(formUse), old(annotationUse), old(structureUse))
      ensures AnnotationsReused(fws, annots, old(formUse), old(annotationUse)) ==> r == Err(AnnotationReuse)
      ensures r.Err? ==> (r.error == AnnotationReuse || r.error == StructureReuse) && unchanged(this)
      ensures r.Ok? ==> PageRecorded(resourceDict, commandStream, fws, annots, structs)
    {
      r := CheckReuse(fws, annots, structs);
      if r.Err? {
        return;
      }
      RecordPage(resourceDict, commandStream, customProps, fws, annots, structs, transition, subnav);
    }

    /**
     * What a successful `add_page` leaves behind: one more page whose
     * resource and content objects come first and whose page object is the
     * last object; every widget and annotation used on the page object; the
     * k-th structure item at MCID k of the new page, other usage kept.
     */
    twostate predicate PageRecorded(resourceDict: string, commandStream: string,
                                    fws: set<FormWidgetId>, annots: set<AnnotationId>, structs: seq<StructureItemId>)
      reads this
    {
      && |pages| == |old(pages)| + 1
      && pages[..|old(pages)|] == old(pages)
      && |objects| >= |old(objects)| + 3
      && pages[|old(pages)|] == PageOffsets(|old(objects)|, |old(objects)| + 1, |objects| - 1)
      && objects[|old(objects)|] == ResourceDict(resourceDict)
      && objects[|old(objects)| + 1] == ContentStream(commandStream)
      && (forall fw :: fw in fws ==> fw in formUse && formUse[fw] == |objects| - 1)
      && (forall a :: a in annots ==> a in annotationUse && annotationUse[a] == |objects| - 1)
      && (forall k :: 0 <= k < |structs| ==>
            structs[k] in structureUse && structureUse[structs[k]] == StructureUsage(|old(pages)|, k))
      && (forall s :: s in old(structureUse) ==> s in structureUse && structureUse[s] == old(structureUse)[s])
      && structureParentTreeItems == old(structureParentTreeItems) + (if structs == [] then [] else [structs])
    }

    /** The objects and records of a page that passed the reuse checks. */
    method RecordPage(resourceDict: string, commandStream: string, customProps: PageProperties,
                      fws: set<FormWidgetId>, annots: set<AnnotationId>, structs: seq<StructureItemId>,
                      transition: Option<Transition>, subnav: seq<SubPageNavigation>)
      requires Valid() && Distinct(structs)
      requires ReuseFree(fws, annots, structs, formUse, annotationUse, structureUse)
      modifies this`objects, this`pages, this`formUse, this`annotationUse, this`structureUse, this`structureParentTreeItems
      ensures Valid() && ObjectsExtended()
      ensures PageRecorded(resourceDict, commandStream, fws, annots, structs)
    {
      var pageObjectNum := AddPageObjects(resourceDict, commandStream, customProps, fws, annots, structs, transition, subnav);
      RecordUse(fws, annots, structs, pageObjectNum, |pages| - 1);
    }

    /** The resource and content objects of a page, then its navigation nodes. */
    method AddPageContent(resourceDict: string, commandStream: string, subnav: seq<SubPageNavigation>)
      returns (resourceNum: int, commandsNum: int, subnavRoot: Option<int>)
      requires Valid()
      modifies this`objects
      ensures Valid() && IsPrefix(old(objects), objects)
      ensures resourceNum == |old(objects)| && commandsNum == resourceNum + 1 && |objects| >= commandsNum + 1
      ensures objects[resourceNum] == ResourceDict(resourceDict) && objects[commandsNum] == ContentStream(commandStream)
    {
      ghost var t0 := Tables();
      resourceNum := AddObject(ResourceDict(resourceDict));
      commandsNum := AddObject(ContentStream(commandStream));
      subnavRoot := None;
      if subnav != [] {
        var root := CreateSubnavigation(subnav);
        subnavRoot := Some(root);
      }
      TablesGrown(t0, objects);
    }

    /**
     * The objects of a page in their order: resources, contents, navigation
     * nodes, then the page object, whose number goes into the page list.
     * A page using structure items gets the next entry of the structure
     * parent tree.
     */
    method AddPageObjects(resourceDict: string, commandStream: string, customProps: PageProperties,
                          fws: set<FormWidgetId>, annots: set<AnnotationId>, structs: seq<StructureItemId>,
                          transition: Option<Transition>, subnav: seq<SubPageNavigation>) returns (pageObjectNum: int)
      requires Valid()
      modifies this`objects, this`pages, this`structureParentTreeItems
      ensures Valid() && ObjectsExtended()
      ensures |objects| >= |old(objects)| + 3 && pageObjectNum == |objects| - 1
      ensures pages == old(pages) + [PageOffsets(|old(objects)|, |old(objects)| + 1, pageObjectNum)]
      ensures objects[|old(objects)|] == ResourceDict(resourceDict)
      ensures objects[|old(objects)| + 1] == ContentStream(commandStream)
      ensures structureParentTreeItems == old(structureParentTreeItems) + (if structs == [] then [] else [structs])
    {
      var resourceNum, commandsNum, subnavRoot := AddPageContent(resourceDict, commandStream, subnav);
      pageObjectNum := AppendPage(resourceNum, commandsNum, customProps, fws, annots, structs, transition, subnavRoot);
    }

    /** The page object and the page's entry in the page list, after the page's other objects. */
    method AppendPage(resourceNum: int, commandsNum: int, customProps: PageProperties,
                      fws: set<FormWidgetId>, annots: set<AnnotationId>, structs: seq<StructureItemId>,
                      transition: Option<Transition>, subnavRoot: Option<int>) returns (pageObjectNum: int)
      requires Valid()
      modifies this`objects, this`pages, this`structureParentTreeItems
      ensures Valid()
      ensures pageObjectNum == |old(objects)|
      ensures objects == old(objects) + [PageObject(DelayedPage(
                |old(pages)|, fws, annots, transition, subnavRoot, customProps,
                if structs == [] then None else Some(|old(structureParentTreeItems)|)))]
      ensures pages == old(pages) + [PageOffsets(resourceNum, commandsNum, pageObjectNum)]
      ensures structureParentTreeItems == old(structureParentTreeItems) + (if structs == [] then [] else [structs])
    {
      var structParents: Option<int> := None;
      if structs != [] {
        structParents := Some(|structureParentTreeItems|);
        structureParentTreeItems := structureParentTreeItems + [structs];
      }
      var p := DelayedPage(|pages|, fws, annots, transition, subnavRoot, customProps, structParents);
      ghost var t1 := Tables();
      pageObjectNum := |objects|;
      objects := objects + [PageObject(p)];
      PageStepValid(t1, t1.objects, objects, PageOffsets(resourceNum, commandsNum, pageObjectNum), structureUse);
      pages := pages + [PageOffsets(resourceNum, commandsNum, pageObjectNum)];
    }

    /** Widgets and annotations are recorded against the page object, structure items against the page. */
    method RecordUse(fws: set<FormWidgetId>, annots: set<AnnotationId>, structs: seq<StructureItemId>,
                     pageObjectNum: int, pageNum: nat)
      requires Valid() && Distinct(structs) && 0 <= pageNum < |pages|
      modifies this`formUse, this`annotationUse, this`structureUse
      ensures Valid()
      ensures forall fw :: fw in fws ==> fw in formUse && formUse[fw] == pageObjectNum
      ensures forall a :: a in annots ==> a in annotationUse && annotationUse[a] == pageObjectNum
      ensures forall k :: 0 <= k < |structs| ==>
                structs[k] in structureUse && structureUse[structs[k]] == StructureUsage(pageNum, k)
      ensures forall s :: s in old(structureUse) && s !in structs ==> s in structureUse && structureUse[s] == old(structureUse)[s]
    {
      ghost var t0 := Tables();
      formUse := MarkUsed(fws, formUse, pageObjectNum);
      annotationUse := MarkUsed(annots, annotationUse, pageObjectNum);
      var newUse := AssignMcids(structs, structureUse, pageNum);
      UseReplaced(t0, newUse);
      structureUse := newUse;
    }

    /** The MCID loop of `add_page`: the k-th structure item gets MCID k on page `pageNum`. */
    static method AssignMcids(structs: seq<StructureItemId>, use: map<StructureItemId, StructureUsage>, pageNum: int)
      returns (r: map<StructureItemId, StructureUsage>)
      requires Distinct(structs)
      ensures forall k :: 0 <= k < |structs| ==> structs[k] in r && r[structs[k]] == StructureUsage(pageNum, k)
      ensures forall s :: s in use && s !in structs ==> s in r && r[s] == use[s]
      ensures forall s :: s in r ==> s in use || s in structs
      ensures forall s :: s in r && s !in use ==> r[s].pageNum == pageNum
      ensures forall s :: s in r ==> (s in use && r[s] == use[s]) || r[s].pageNum == pageNum
    {
      r := use;
      var j := 0;
      while j < |structs|
        invariant 0 <= j <= |structs|
        invariant forall k :: 0 <= k < j ==> structs[k] in r && r[structs[k]] == StructureUsage(pageNum, k)
        invariant forall s :: s in use && s !in structs[..j] ==> s in r && r[s] == use[s]
        invariant forall s :: s in r ==> s in use || s in structs[..j]
        invariant forall s :: s in r && (s !in use || s in structs[..j]) ==> r[s].pageNum == pageNum
      {
        assert structs[..j + 1] == structs[..j] + [structs[j]];
        r := r[structs[j] := StructureUsage(pageNum, j)];
        j := j + 1;
      }
      assert structs[..j] == structs;
    }
  }

  predicate AnnotationsReused(fws: set<FormWidgetId>, annots: set<AnnotationId>,
                              formUse: map<FormWidgetId, int>, annotationUse: map<AnnotationId, int>)
  {
    (exists fw :: fw in fws && fw in formUse) || (exists a :: a in annots && a in annotationUse)
  }

  /** No widget, annotation or structure item of the page has been used on another page. */
  predicate ReuseFree(fws: set<FormWidgetId>, annots: set<AnnotationId>, structs: seq<StructureItemId>,
                      formUse: map<FormWidgetId, int>, annotationUse: map<AnnotationId, int>,
                      structureUse: map<StructureItemId, StructureUsage>)
  {
    && (forall fw :: fw in fws ==> fw !in formUse)
    && (forall a :: a in annots ==> a !in annotationUse)
    && (forall k :: 0 <= k < |structs| ==> structs[k] !in structureUse)
  }

  /** The object table and page list after a page's objects: every registry still points at the right objects. */
  /** Appending objects keeps the invariant. */
  lemma {:induction false} TablesGrown(t: DocTables, objs2: seq<DocObject>)
    requires TablesValid(t) && IsPrefix(t.objects, objs2)
    ensures TablesValid(t.(objects := objs2))
  {
    ObjectsGrown(t.objects, objs2, t.pages, t.structureItems, t.iccProfiles, t.builtinFonts, t.fontObjects);
  }

  /** New structure usage that names existing pages keeps the invariant. */
  lemma {:induction false} UseReplaced(t: DocTables, use2: map<StructureItemId, StructureUsage>)
    requires TablesValid(t) && UseValid(use2, |t.pages|)
    ensures TablesValid(t.(structureUse := use2))
  {
  }

  lemma {:induction false} PageStepValid(t: DocTables, objs1: seq<DocObject>, objs2: seq<DocObject>, offsets: PageOffsets,
                      use2: map<StructureItemId, StructureUsage>)
    requires TablesValid(t) && IsPrefix(t.objects, objs1)
    requires offsets.pageObjNum == |objs1| && IsPrefix(objs1, objs2) && |objs2| == |objs1| + 1
    requires objs2[|objs1|].PageObject? && objs2[|objs1|].page.pageNum == |t.pages|
    requires UseValid(use2, |t.pages| + 1) || use2 == t.structureUse
    ensures IsPrefix(t.objects, objs2)
    ensures TablesValid(t.(objects := objs2, pages := t.pages + [offsets], structureUse := use2))
  {
    ObjectsGrown(t.objects, objs2, t.pages, t.structureItems, t.iccProfiles, t.builtinFonts, t.fontObjects);
    PageAppended(t.pages, objs2, offsets);
  }

  /** A page whose page object is the last object keeps the page list valid. */
  lemma {:induction false} PageAppended(pages: seq<PageOffsets>, objects: seq<DocObject>, offsets: PageOffsets)
    requires PagesValid(pages, objects)
    requires offsets.pageObjNum == |objects| - 1 > 0 && objects[|objects| - 1].PageObject?
    requires objects[|objects| - 1].page.pageNum == |pages|
    ensures PagesValid(pages + [offsets], objects)
  {
  }

  /** The stored parent of an outline item: -1 for a top-level item. */
  function ParentIndex(o: Outline): int
  {
    if o.parent.Some? then o.parent.value.id else -1
  }

  function ChildrenOf(children: map<int, seq<int>>, p: int): seq<int>
  {
    if p in children then children[p] else []
  }

  predicate DestinationValid(o: Outline, pageCount: nat)
  {
    o.dest.Some? ==> 0 <= o.dest.value.page < pageCount
  }
}
