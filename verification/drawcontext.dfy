// The draw context (src/drawcontext.cpp, src/drawcontext.hpp).
//
// A PdfDrawContext owns a CommandStreamFormatter and records which resources,
// annotations, structure items and optional-content groups its commands use.
// Operator arguments are validated before anything is written. The document
// data a command consults (ICC profiles, object numbers, glyph coverage) is
// passed in as parameters, and the owning document is an object identity.

module DrawContext {
  import opened Errors
  import opened Format
  import opened PdfCommon
  import opened CommandStream
  import opened Text
  import opened DocumentTypes

  datatype DrawContextType = Page | FormXObject | TransparencyGroup | ColorTiling | Type3Font

  /** The largest enumerator of the line join, line cap, rendering intent and text mode enums. */
  const MaxLineJoin: int := 2
  const MaxLineCap: int := 2
  const MaxRenderingIntent: int := 3
  const MaxTextMode: int := 7

  /** `rendering_intent_names`, indexed by the enum. */
  function RenderingIntentName(ri: int): string
    requires 0 <= ri <= MaxRenderingIntent
  {
    if ri == 0 then "RelativeColorimetric"
    else if ri == 1 then "AbsoluteColorimetric"
    else if ri == 2 then "Saturation"
    else "Perceptual"
  }

  /** What the commands of a context have used, per kind. */
  datatype Usage = Usage(
    images: set<int>,
    subsetFonts: set<FontSubset>,
    fonts: set<int>,
    colorspaces: set<int>,
    gstates: set<int>,
    shadings: set<int>,
    patterns: set<int>,
    formXobjects: set<int>,
    widgets: set<FormWidgetId>,
    annotations: set<AnnotationId>,
    structures: seq<StructureItemId>,
    ocgs: set<OptionalContentGroupId>,
    trgroups: set<TransparencyGroupId>)

  const NoUsage: Usage := Usage({}, {}, {}, {}, {}, {}, {}, {}, {}, {}, [], {}, {})

  /** The page-level settings a context carries besides its commands. */
  datatype Settings = Settings(
    subNavigations: seq<SubPageNavigation>,
    transition: Option<Transition>,
    customProps: PageProperties,
    isFinalized: bool,
    usesAllColorspace: bool,
    groupMatrix: Option<PdfMatrix>)

  const DefaultSettings: Settings := Settings([], None, NoProperties, false, false, None)

  /** No value occurs twice. */
  predicate Distinct<T(==)>(s: seq<T>)
  {
    forall i, j :: 0 <= i < j < |s| ==> s[i] != s[j]
  }

  /** The text of `cmd_d`: the dash array in brackets, then the phase. */
  function DashCommand(dashArray: seq<real>, phase: real): (r: string)
    ensures r != [] && r[|r| - 1] == '\n'
  {
    "[ " + Operands(dashArray) + ("] " + RealText(phase) + " d\n")
  }

  predicate AllNonNegative(values: seq<real>)
  {
    forall i :: 0 <= i < |values| ==> values[i] >= 0.0
  }

  /** Every Unicode character of the atoms has a glyph in the font. */
  predicate AtomsCovered(atoms: seq<TextAtom>, font: FontId, hasChar: (FontId, int) -> bool)
  {
    forall i :: 0 <= i < |atoms| && atoms[i].UnicodeCharacter? ==> hasChar(font, atoms[i].codepoint)
  }

  /**
   * `validate_text_contents` from the given current font on: text needs a
   * font set by an earlier Tf, and every Unicode character of a TJ needs a glyph.
   */
  function TextCheck(events: seq<TextEvent>, font: Option<FontId>, hasChar: (FontId, int) -> bool): Status
    decreases |events|
  {
    if events == [] then Success
    else
      match events[0]
      case Tf(f, _) => TextCheck(events[1..], Some(f), hasChar)
      case TextArg(_) =>
        if font.None? then Err(FontNotSpecified) else TextCheck(events[1..], font, hasChar)
      case TJ(atoms) =>
        if font.None? then Err(FontNotSpecified)
        else if !AtomsCovered(atoms, font.value, hasChar) then Err(MissingGlyph)
        else TextCheck(events[1..], font, hasChar)
      case _ => TextCheck(events[1..], font, hasChar)
  }

  /** Text that passes the check never shows characters before a font has been chosen. */
  lemma {:induction false} CheckedTextHasFont(events: seq<TextEvent>, font: Option<FontId>, hasChar: (FontId, int) -> bool)
    requires TextCheck(events, font, hasChar).Ok?
    ensures TextCheck(events, font, hasChar) == Success
    ensures font.None? ==> forall i :: 0 <= i < |events| && (events[i].TJ? || events[i].TextArg?) ==>
              exists j :: 0 <= j < i && events[j].Tf?
    decreases |events|
  {
    if events != [] {
      var rest := events[1..];
      var next := if events[0].Tf? then Some(events[0].font) else font;
      CheckedTextHasFont(rest, next, hasChar);
      if font.None? {
        forall i | 0 <= i < |events| && (events[i].TJ? || events[i].TextArg?)
          ensures exists j :: 0 <= j < i && events[j].Tf?
        {
          if events[0].Tf? {
            assert 0 < i;
          } else {
            assert i > 0 && rest[i - 1] == events[i];
            var j :| 0 <= j < i - 1 && rest[j].Tf?;
            assert events[j + 1].Tf?;
          }
        }
      }
    }
  }

  class PdfDrawContext {
    const doc: object
    const contextType: DrawContextType
    const bbox: PdfRectangle
    const cmds: CommandStreamFormatter
    var usage: Usage
    var settings: Settings

    /** MCIDs are positions in `usage.structures`, so no structure item appears twice. */
    ghost predicate Valid()
      reads this, cmds
    {
      cmds.Valid() && Distinct(usage.structures)
    }

    /** The state of a new context. */
    ghost predicate IsEmpty()
      reads this, cmds
    {
      usage == NoUsage && settings == DefaultSettings && cmds.stack == [] && cmds.buf == [] && cmds.lead == []
    }

    constructor(d: object, dtype: DrawContextType, area: PdfRectangle)
      ensures Valid() && IsEmpty() && fresh(cmds)
      ensures doc == d && contextType == dtype && bbox == area
    {
      doc := d;
      contextType := dtype;
      bbox := area;
      cmds := new CommandStreamFormatter();
      usage := NoUsage;
      settings := DefaultSettings;
    }

    /** `has_unclosed_state`. */
    function HasUnclosedState(): (r: bool)
      reads this, cmds
      ensures r <==> cmds.stack != []
    {
      cmds.HasUnclosedState()
    }

    /** `append` of a text that already ends with a newline. */
    method WriteLine(text: string)
      requires Valid() && text != [] && text[|text| - 1] == '\n'
      modifies cmds
      ensures Valid() && cmds.stack == old(cmds.stack) && cmds.lead == old(cmds.lead)
      ensures cmds.buf == old(cmds.buf) + cmds.lead + text
    {
      LineTerminated(cmds.lead, text);
      ghost var b0 := cmds.buf;
      cmds.Append(text);
      assert cmds.buf == b0 + (cmds.lead + text);
    }

    /** `cmd_w`: a negative width is refused before anything is written. */
    method CmdW(w: real) returns (r: Status)
      requires Valid()
      modifies cmds
      ensures Valid() && cmds.stack == old(cmds.stack) && cmds.lead == old(cmds.lead)
      ensures w < 0.0 ==> r == Err(NegativeLineWidth) && cmds.buf == old(cmds.buf)
      ensures w >= 0.0 ==> r == Success && cmds.buf == old(cmds.buf) + cmds.lead + RealText(w) + " w\n"
    {
      if w < 0.0 {
        return Err(NegativeLineWidth);
      }
      ghost var b0 := cmds.buf;
      OperandsSingle(w);
      cmds.AppendNumbers([w], "w");
      OperandLine(b0, cmds.lead, RealText(w), "w");
      r := Success;
    }

    /**
     * `cmd_d`: an empty array and any negative element are refused before
     * anything is written; otherwise one "d" line.
     */
    method CmdD(dashArray: seq<real>, phase: real) returns (r: Status)
      requires Valid()
      modifies cmds
      ensures Valid() && cmds.stack == old(cmds.stack) && cmds.lead == old(cmds.lead)
      ensures dashArray == [] ==> r == Err(ZeroLengthArray) && cmds.buf == old(cmds.buf)
      ensures dashArray != [] && !AllNonNegative(dashArray) ==> r == Err(NegativeDash) && cmds.buf == old(cmds.buf)
      ensures dashArray != [] && AllNonNegative(dashArray) ==>
                r == Success && cmds.buf == old(cmds.buf) + cmds.lead + DashCommand(dashArray, phase)
    {
      r := CheckDashArray(dashArray);
      if r.Err? {
        return;
      }
      var cmd := BuildDashCommand(dashArray, phase);
      WriteLine(cmd);
      r := Success;
    }

    /** The argument checks of `cmd_d`, in the source's order. */
    static method CheckDashArray(dashArray: seq<real>) returns (r: Status)
      ensures dashArray == [] ==> r == Err(ZeroLengthArray)
      ensures dashArray != [] && !AllNonNegative(dashArray) ==> r == Err(NegativeDash)
      ensures dashArray != [] && AllNonNegative(dashArray) ==> r == Success
    {
      if |dashArray| == 0 {
        return Err(ZeroLengthArray);
      }
      var i := 0;
      while i < |dashArray|
        invariant 0 <= i <= |dashArray|
        invariant AllNonNegative(dashArray[..i])
      {
        if dashArray[i] < 0.0 {
          return Err(NegativeDash);
        }
        i := i + 1;
      }
      assert dashArray[..i] == dashArray;
      r := Success;
    }

    /** The text `cmd_d` builds with one "%f " per element. */
    static method BuildDashCommand(dashArray: seq<real>, phase: real) returns (cmd: string)
      ensures cmd == DashCommand(dashArray, phase)
    {
      cmd := "[ ";
      var i := 0;
      while i < |dashArray|
        invariant 0 <= i <= |dashArray|
        invariant cmd == "[ " + Operands(dashArray[..i])
      {
        OperandsPrefixStep(dashArray, i);
        var piece := RealText(dashArray[i]) + " ";
        AppendRegroups("[ ", Operands(dashArray[..i]), piece);
        cmd := cmd + piece;
        i := i + 1;
      }
      assert dashArray[..i] == dashArray;
      var tail := "] " + RealText(phase) + " d\n";
      cmd := cmd + tail;
    }

    /** `cmd_i`: the flatness must lie in [0, 100]. */
    method CmdI(flatness: real) returns (r: Status)
      requires Valid()
      modifies cmds
      ensures Valid() && cmds.stack == old(cmds.stack) && cmds.lead == old(cmds.lead)
      ensures r.Ok? <==> 0.0 <= flatness <= 100.0
      ensures r.Err? ==> r == Err(InvalidFlatness) && cmds.buf == old(cmds.buf)
      ensures r.Ok? ==> r == Success && cmds.buf == old(cmds.buf) + cmds.lead + RealText(flatness) + " i\n"
    {
      if flatness < 0.0 || flatness > 100.0 {
        return Err(InvalidFlatness);
      }
      ghost var b0 := cmds.buf;
      OperandsSingle(flatness);
      cmds.AppendNumbers([flatness], "i");
      OperandLine(b0, cmds.lead, RealText(flatness), "i");
      r := Success;
    }

    /** An integer-operand command guarded by CHECK_ENUM against `maxValue`. */
    method EnumCommand(value: int, maxValue: int, op: string) returns (r: Status)
      requires Valid()
      modifies cmds
      ensures Valid() && cmds.stack == old(cmds.stack) && cmds.lead == old(cmds.lead)
      ensures r.Ok? <==> 0 <= value <= maxValue
      ensures r.Err? ==> r == Err(BadEnum) && cmds.buf == old(cmds.buf)
      ensures r.Ok? ==> r == Success && cmds.buf == old(cmds.buf) + cmds.lead + IntText(value) + " " + op + "\n"
    {
      if value < 0 || value > maxValue {
        return Err(BadEnum);
      }
      cmds.AppendCommand(IntText(value), op);
      r := Success;
    }

    /** `cmd_j`. */
    method CmdLineJoin(joinStyle: int) returns (r: Status)
      requires Valid()
      modifies cmds
      ensures Valid() && cmds.stack == old(cmds.stack) && cmds.lead == old(cmds.lead)
      ensures r.Ok? <==> 0 <= joinStyle <= MaxLineJoin
      ensures r.Err? ==> r == Err(BadEnum) && cmds.buf == old(cmds.buf)
      ensures r.Ok? ==> r == Success && cmds.buf == old(cmds.buf) + cmds.lead + IntText(joinStyle) + " j\n"
    {
      r := EnumCommand(joinStyle, MaxLineJoin, "j");
    }

    /** `cmd_J`. */
    method CmdLineCap(capStyle: int) returns (r: Status)
      requires Valid()
      modifies cmds
      ensures Valid() && cmds.stack == old(cmds.stack) && cmds.lead == old(cmds.lead)
      ensures r.Ok? <==> 0 <= capStyle <= MaxLineCap
      ensures r.Err? ==> r == Err(BadEnum) && cmds.buf == old(cmds.buf)
      ensures r.Ok? ==> r == Success && cmds.buf == old(cmds.buf) + cmds.lead + IntText(capStyle) + " J\n"
    {
      r := EnumCommand(capStyle, MaxLineCap, "J");
    }

    /** `cmd_Tr`. */
    method CmdTr(mode: int) returns (r: Status)
      requires Valid()
      modifies cmds
      ensures Valid() && cmds.stack == old(cmds.stack) && cmds.lead == old(cmds.lead)
      ensures r.Ok? <==> 0 <= mode <= MaxTextMode
      ensures r.Err? ==> r == Err(BadEnum) && cmds.buf == old(cmds.buf)
      ensures r.Ok? ==> r == Success && cmds.buf == old(cmds.buf) + cmds.lead + IntText(mode) + " Tr\n"
    {
      r := EnumCommand(mode, MaxTextMode, "Tr");
    }

    /** `cmd_ri`: the intent's name as a PDF name. */
    method CmdRi(ri: int) returns (r: Status)
      requires Valid()
      modifies cmds
      ensures Valid() && cmds.stack == old(cmds.stack) && cmds.lead == old(cmds.lead)
      ensures r.Ok? <==> 0 <= ri <= MaxRenderingIntent
      ensures r.Err? ==> r == Err(BadEnum) && cmds.buf == old(cmds.buf)
      ensures r.Ok? ==> r == Success && cmds.buf == old(cmds.buf) + cmds.lead + "/" + RenderingIntentName(ri) + " ri\n"
    {
      if ri < 0 || ri > MaxRenderingIntent {
        return Err(BadEnum);
      }
      WriteLine("/" + RenderingIntentName(ri) + " ri\n");
      r := Success;
    }

    /**
     * `cmd_BMC`: the tag must have two characters and no leading slash; the
     * marked-content bracket must not be open already. The BMC line is written
     * at the new indentation.
     */
    method CmdBMC(tag: string) returns (r: Status)
      requires Valid()
      modifies cmds
      ensures Valid()
      ensures (|tag| < 2 || tag[0] == '/') ==>
                r == Err(SlashStart) && cmds.buf == old(cmds.buf) && cmds.stack == old(cmds.stack)
      ensures !(|tag| < 2 || tag[0] == '/') && MarkedContent in old(cmds.stack) ==>
                r == Err(NestedBMC) && cmds.buf == old(cmds.buf) && cmds.stack == old(cmds.stack)
      ensures !(|tag| < 2 || tag[0] == '/') && MarkedContent !in old(cmds.stack) ==>
                && r == Success
                && cmds.stack == old(cmds.stack) + [MarkedContent]
                && cmds.lead == old(cmds.lead) + "  "
                && cmds.buf == old(cmds.buf) + cmds.lead + ("/" + tag + " BMC\n")
    {
      if |tag| < 2 || tag[0] == '/' {
        return Err(SlashStart);
      }
      var ok := cmds.Indent(MarkedContent);
      if ok.Err? {
        return ok;
      }
      WriteLine("/" + tag + " BMC\n");
      r := Success;
    }

    /**
     * `cmd_BDC(ocg)`: the group is recorded as used before the bracket is
     * opened, so it stays recorded when opening fails.
     */
    method CmdBDCOptionalContent(ocgid: OptionalContentGroupId, ocgObjectNumber: int) returns (r: Status)
      requires Valid()
      modifies this, cmds
      ensures Valid() && settings == old(settings)
      ensures usage == old(usage).(ocgs := old(usage).ocgs + {ocgid})
      ensures MarkedContent in old(cmds.stack) ==>
                r == Err(NestedBMC) && cmds.buf == old(cmds.buf) && cmds.stack == old(cmds.stack)
      ensures MarkedContent !in old(cmds.stack) ==>
                && r == Success
                && cmds.stack == old(cmds.stack) + [MarkedContent]
                && cmds.lead == old(cmds.lead) + "  "
                && cmds.buf == old(cmds.buf) + cmds.lead + ("/OC /oc" + IntText(ocgObjectNumber) + " BDC\n")
    {
      usage := usage.(ocgs := usage.ocgs + {ocgid});
      var ok := cmds.Indent(MarkedContent);
      if ok.Err? {
        return ok;
      }
      WriteLine("/OC /oc" + IntText(ocgObjectNumber) + " BDC\n");
      r := Success;
    }

    /** `cmd_EMC`. */
    method CmdEMC() returns (r: Status)
      requires Valid()
      modifies cmds
      ensures Valid()
      ensures r.Err? <==> old(cmds.stack) == [] || old(cmds.stack)[|old(cmds.stack)| - 1] != MarkedContent
      ensures r.Err? ==> r == Err(DrawStateEndMismatch) && cmds.buf == old(cmds.buf) && cmds.stack == old(cmds.stack)
      ensures r.Ok? ==> cmds.stack + [MarkedContent] == old(cmds.stack) && cmds.buf == old(cmds.buf) + cmds.lead + "EMC\n"
    {
      r := cmds.EMC();
    }

    /** `cmd_q`: always succeeds. */
    method CmdQSave() returns (r: Status)
      requires Valid()
      modifies cmds
      ensures Valid() && r == Success
      ensures cmds.stack == old(cmds.stack) + [SaveState] && cmds.buf == old(cmds.buf) + old(cmds.lead) + "q\n"
    {
      r := cmds.SaveGState();
    }

    /** `cmd_Q`. */
    method CmdQRestore() returns (r: Status)
      requires Valid()
      modifies cmds
      ensures Valid()
      ensures r.Err? <==> old(cmds.stack) == [] || old(cmds.stack)[|old(cmds.stack)| - 1] != SaveState
      ensures r.Err? ==> r == Err(DrawStateEndMismatch) && cmds.buf == old(cmds.buf) && cmds.stack == old(cmds.stack)
      ensures r.Ok? ==> cmds.stack + [SaveState] == old(cmds.stack) && cmds.buf == old(cmds.buf) + cmds.lead + "Q\n"
    {
      r := cmds.RestoreGState();
    }

    /** `add_form_widget`: a widget can be placed once per context. */
    method AddFormWidget(widget: FormWidgetId) returns (r: Status)
      requires Valid()
      modifies this
      ensures Valid() && settings == old(settings)
      ensures widget in old(usage.widgets) ==> r == Err(AnnotationReuse) && usage == old(usage)
      ensures widget !in old(usage.widgets) ==>
                r == Success && usage == old(usage).(widgets := old(usage).widgets + {widget})
    {
      if widget in usage.widgets {
        return Err(AnnotationReuse);
      }
      usage := usage.(widgets := usage.widgets + {widget});
      r := Success;
    }

    /** `annotate`: an annotation can be placed once per context. */
    method Annotate(annotation: AnnotationId) returns (r: Status)
      requires Valid()
      modifies this
      ensures Valid() && settings == old(settings)
      ensures annotation in old(usage.annotations) ==> r == Err(AnnotationReuse) && usage == old(usage)
      ensures annotation !in old(usage.annotations) ==>
                r == Success && usage == old(usage).(annotations := old(usage).annotations + {annotation})
    {
      if annotation in usage.annotations {
        return Err(AnnotationReuse);
      }
      usage := usage.(annotations := usage.annotations + {annotation});
      r := Success;
    }

    /**
     * `add_bcd_structure`: the MCID of a structure item is its position in
     * first-use order; an item can be used once.
     */
    method AddBcdStructure(sid: StructureItemId) returns (r: Rvoe<int>)
      requires Valid()
      modifies this
      ensures Valid() && settings == old(settings)
      ensures sid in old(usage.structures) ==> r == Err(StructureReuse) && usage == old(usage)
      ensures sid !in old(usage.structures) ==>
                && r == Ok(|old(usage.structures)|)
                && usage == old(usage).(structures := old(usage).structures + [sid])
                && usage.structures[r.value] == sid
    {
      var i := 0;
      while i < |usage.structures|
        invariant 0 <= i <= |usage.structures|
        invariant sid !in usage.structures[..i]
      {
        if usage.structures[i] == sid {
          return Err(StructureReuse);
        }
        i := i + 1;
      }
      assert usage.structures[..i] == usage.structures;
      usage := usage.(structures := usage.structures + [sid]);
      r := Ok(|usage.structures| - 1);
    }

    /**
     * `add_simple_navigation`: pages only; every group must have been opened
     * with `cmd_BDC` on this context. The source aborts when navigation was
     * already added.
     */
    method AddSimpleNavigation(navs: seq<OptionalContentGroupId>, tr: Option<Transition>) returns (r: Status)
      requires Valid() && settings.subNavigations == []
      modifies this
      ensures Valid() && usage == old(usage)
      ensures contextType != Page ==> r == Err(InvalidDrawContextType) && settings == old(settings)
      ensures contextType == Page && (exists i :: 0 <= i < |navs| && navs[i] !in usage.ocgs) ==>
                r == Err(UnusedOcg) && settings == old(settings)
      ensures r.Ok? <==> contextType == Page && forall i :: 0 <= i < |navs| ==> navs[i] in usage.ocgs
      ensures r.Ok? ==> settings == old(settings).(subNavigations := NavigationEntries(navs, tr))
    {
      if contextType != Page {
        return Err(InvalidDrawContextType);
      }
      var i := 0;
      while i < |navs|
        invariant 0 <= i <= |navs|
        invariant forall k :: 0 <= k < i ==> navs[k] in usage.ocgs
      {
        if navs[i] !in usage.ocgs {
          return Err(UnusedOcg);
        }
        i := i + 1;
      }
      var entries: seq<SubPageNavigation> := [];
      i := 0;
      while i < |navs|
        invariant 0 <= i <= |navs|
        invariant entries == NavigationEntries(navs[..i], tr)
      {
        assert navs[..i + 1] == navs[..i] + [navs[i]];
        entries := entries + [SubPageNavigation(navs[i], tr)];
        i := i + 1;
      }
      assert navs[..i] == navs;
      settings := settings.(subNavigations := entries);
      r := Success;
    }

    /** `set_transition`: pages only. */
    method SetTransition(tr: Transition) returns (r: Status)
      requires Valid()
      modifies this
      ensures Valid() && usage == old(usage)
      ensures contextType != Page ==> r == Err(InvalidDrawContextType) && settings == old(settings)
      ensures contextType == Page ==> r == Success && settings == old(settings).(transition := Some(tr))
    {
      if contextType != Page {
        return Err(InvalidDrawContextType);
      }
      settings := settings.(transition := Some(tr));
      r := Success;
    }

    /** `set_custom_page_properties`: pages only; replaces the properties wholesale. */
    method SetCustomPageProperties(newProps: PageProperties) returns (r: Status)
      requires Valid()
      modifies this
      ensures Valid() && usage == old(usage)
      ensures contextType != Page ==> r == Err(InvalidDrawContextType) && settings == old(settings)
      ensures contextType == Page ==> r == Success && settings == old(settings).(customProps := newProps)
    {
      if contextType != Page {
        return Err(InvalidDrawContextType);
      }
      settings := settings.(customProps := newProps);
      r := Success;
    }

    /** `set_transparency_properties`: pages and transparency groups only. */
    method SetTransparencyProperties(props: TransparencyGroupProperties) returns (r: Status)
      requires Valid()
      modifies this
      ensures Valid() && usage == old(usage)
      ensures !(contextType == Page || contextType == TransparencyGroup) ==>
                r == Err(WrongDCForTransp) && settings == old(settings)
      ensures (contextType == Page || contextType == TransparencyGroup) ==>
                r == Success
                && settings == old(settings).(customProps := old(settings).customProps.(transparencyProps := Some(props)))
    {
      if !(contextType == Page || contextType == TransparencyGroup) {
        return Err(WrongDCForTransp);
      }
      settings := settings.(customProps := settings.customProps.(transparencyProps := Some(props)));
      r := Success;
    }

    /** `set_group_matrix`: transparency groups, tiling patterns and form XObjects only. */
    method SetGroupMatrix(mat: PdfMatrix) returns (r: Status)
      requires Valid()
      modifies this
      ensures Valid() && usage == old(usage)
      ensures !(contextType in {TransparencyGroup, ColorTiling, FormXObject}) ==>
                r == Err(WrongDCForMatrix) && settings == old(settings)
      ensures contextType in {TransparencyGroup, ColorTiling, FormXObject} ==>
                r == Success && settings == old(settings).(groupMatrix := Some(mat))
    {
      if !(contextType == TransparencyGroup || contextType == ColorTiling || contextType == FormXObject) {
        return Err(WrongDCForMatrix);
      }
      settings := settings.(groupMatrix := Some(mat));
      r := Success;
    }

    /**
     * `set_color(ICCColor)`: the profile must exist and have as many channels
     * as values are given; both are checked before anything is written.
     */
    method SetColorIcc(icc: IccColorSpaceId, values: seq<real>, stroke: bool, profiles: seq<IccInfo>) returns (r: Status)
      requires Valid()
      modifies this, cmds
      ensures Valid() && settings == old(settings) && cmds.stack == old(cmds.stack)
      ensures !(0 <= icc.id < |profiles|) ==> r == Err(BadId) && usage == old(usage) && cmds.buf == old(cmds.buf)
      ensures 0 <= icc.id < |profiles| && profiles[icc.id].numChannels != |values| ==>
                r == Err(IncorrectColorChannelCount) && usage == old(usage) && cmds.buf == old(cmds.buf)
      ensures 0 <= icc.id < |profiles| && profiles[icc.id].numChannels == |values| ==>
                && r == Success
                && usage == old(usage).(colorspaces := old(usage).colorspaces + {profiles[icc.id].objectNum})
                && cmds.buf == old(cmds.buf) + cmds.lead + ColorspaceSelection(profiles[icc.id].objectNum, stroke)
                     + cmds.lead + ColorValues(values, stroke)
    {
      if icc.id < 0 || icc.id >= |profiles| {
        return Err(BadId);
      }
      var info := profiles[icc.id];
      if info.numChannels != |values| {
        return Err(IncorrectColorChannelCount);
      }
      usage := usage.(colorspaces := usage.colorspaces + {info.objectNum});
      ghost var b0 := cmds.buf;
      WriteLine(ColorspaceSelection(info.objectNum, stroke));
      ghost var b1 := cmds.buf;
      var valuesLine := Operands(values) + (if stroke then "SCN" else "scn");
      ColorValuesLine(cmds.lead, values, stroke);
      cmds.Append(valuesLine);
      AppendRegroups(b1, cmds.lead, ColorValues(values, stroke));
      r := Success;
    }

    /**
     * The checks `render_text` makes before writing: the text must have been
     * created by this context, then `validate_text_contents` must accept it.
     */
    method CheckRenderText(text: PdfText, hasChar: (FontId, int) -> bool) returns (r: Status)
      ensures text.creator != this ==> r == Err(WrongDrawContext)
      ensures text.creator == this ==> r == TextCheck(text.events, None, hasChar)
    {
      if text.creator != this {
        return Err(WrongDrawContext);
      }
      r := ValidateTextContents(text.events, hasChar);
    }

    /** `validate_text_contents`: one pass over the events, tracking the current font. */
    static method ValidateTextContents(events: seq<TextEvent>, hasChar: (FontId, int) -> bool) returns (r: Status)
      ensures r == TextCheck(events, None, hasChar)
    {
      var font: Option<FontId> := None;
      var i := 0;
      while i < |events|
        invariant 0 <= i <= |events|
        invariant TextCheck(events, None, hasChar) == TextCheck(events[i..], font, hasChar)
      {
        assert events[i..][1..] == events[i + 1..];
        match events[i] {
          case Tf(f, _) =>
            font := Some(f);
          case TextArg(_) =>
            if font.None? {
              return Err(FontNotSpecified);
            }
          case TJ(atoms) =>
            if font.None? {
              return Err(FontNotSpecified);
            }
            var covered := AtomsHaveGlyphs(atoms, font.value, hasChar);
            if !covered {
              return Err(MissingGlyph);
            }
          case _ =>
        }
        i := i + 1;
      }
      r := Success;
    }

    /** The inner loop of `validate_text_contents` over the atoms of one TJ. */
    static method AtomsHaveGlyphs(atoms: seq<TextAtom>, font: FontId, hasChar: (FontId, int) -> bool) returns (ok: bool)
      ensures ok <==> AtomsCovered(atoms, font, hasChar)
    {
      var i := 0;
      while i < |atoms|
        invariant 0 <= i <= |atoms|
        invariant AtomsCovered(atoms[..i], font, hasChar)
      {
        if atoms[i].UnicodeCharacter? && !hasChar(font, atoms[i].codepoint) {
          assert !AtomsCovered(atoms, font, hasChar);
          return false;
        }
        i := i + 1;
      }
      assert atoms[..i] == atoms;
      return true;
    }

    /** Hands out the finished command stream; every bracket must be closed. */
    method StealCommandStream() returns (r: Rvoe<string>)
      requires Valid()
      modifies cmds
      ensures Valid() && cmds.stack == old(cmds.stack) && cmds.lead == old(cmds.lead)
      ensures old(cmds.stack) != [] ==> r == Err(DrawStateEndMismatch) && cmds.buf == old(cmds.buf)
      ensures old(cmds.stack) == [] ==> r == Ok(old(cmds.buf)) && cmds.buf == []
    {
      r := cmds.Steal();
    }

    /**
     * `clear` as written: every usage record and setting is reset except the
     * structure items and form XObjects.
     */
    method ClearAsWritten()
      requires Valid()
      modifies this, cmds
      ensures Valid()
      ensures usage == NoUsage.(structures := old(usage.structures), formXobjects := old(usage.formXobjects))
      ensures settings == DefaultSettings
      ensures cmds.stack == [] && cmds.buf == [] && cmds.lead == []
    {
      usage := NoUsage.(structures := usage.structures, formXobjects := usage.formXobjects);
      settings := DefaultSettings;
      cmds.Clear();
    }

    /** `clear`, resetting every record, as the context's reuse after `add_page` needs. */
    method Clear()
      modifies this, cmds
      ensures Valid() && IsEmpty()
    {
      usage := NoUsage;
      settings := DefaultSettings;
      cmds.Clear();
    }
  }

  lemma {:induction false} LineTerminated(lead: string, text: string)
    requires text != [] && text[|text| - 1] == '\n'
    ensures Line(lead, text) == lead + text
  {
  }

  /** The line selecting ICC colour space object `objectNum` for stroking or filling. */
  function ColorspaceSelection(objectNum: int, stroke: bool): (r: string)
    ensures r != [] && r[|r| - 1] == '\n'
  {
    "/CSpace" + IntText(objectNum) + (if stroke then " CS\n" else " cs\n")
  }

  /** The line setting the colour components: "SCN" for stroking, "scn" for filling. */
  function ColorValues(values: seq<real>, stroke: bool): string
  {
    Operands(values) + (if stroke then "SCN\n" else "scn\n")
  }

  /** `append` adds the newline the colour components line lacks. */
  lemma {:induction false} ColorValuesLine(lead: string, values: seq<real>, stroke: bool)
    ensures Line(lead, Operands(values) + (if stroke then "SCN" else "scn")) == lead + ColorValues(values, stroke)
  {
    var t := Operands(values) + (if stroke then "SCN" else "scn");
    assert t[|t| - 1] == 'N' || t[|t| - 1] == 'n';
  }

  lemma {:induction false} AppendRegroups<T>(a: seq<T>, b: seq<T>, c: seq<T>)
    ensures (a + b) + c == a + (b + c)
  {
  }

  /** A one-operand line, regrouped as the contracts state it. */
  lemma {:induction false} OperandLine(b: string, lead: string, t: string, op: string)
    ensures b + lead + (t + " ") + op + "\n" == b + lead + t + (" " + op + "\n")
  {
  }

  lemma {:induction false} OperandsPrefixStep(xs: seq<real>, i: nat)
    requires i < |xs|
    ensures Operands(xs[..i + 1]) == Operands(xs[..i]) + (RealText(xs[i]) + " ")
  {
    assert xs[..i + 1][..i] == xs[..i];
  }

  lemma {:induction false} OperandsSingle(x: real)
    ensures Operands([x]) == RealText(x) + " "
  {
    assert [x][..0] == [];
  }

  function NavigationEntries(navs: seq<OptionalContentGroupId>, tr: Option<Transition>): (r: seq<SubPageNavigation>)
    ensures |r| == |navs| && forall i :: 0 <= i < |navs| ==> r[i] == SubPageNavigation(navs[i], tr)
  {
    if navs == [] then [] else NavigationEntries(navs[..|navs| - 1], tr) + [SubPageNavigation(navs[|navs| - 1], tr)]
  }

  /**
   * A page context reused after `clear` as written still holds the structure
   * item of its previous page: using that item again is refused.
   */
  method ReusedContextKeepsStructures(d: object, sid: StructureItemId) returns (first: Rvoe<int>, second: Rvoe<int>)
    ensures first == Ok(0) && second == Err(StructureReuse)
  {
    var ctx := new PdfDrawContext(d, Page, PdfRectangle(0.0, 0.0, 1.0, 1.0));
    first := ctx.AddBcdStructure(sid);
    ctx.ClearAsWritten();
    second := ctx.AddBcdStructure(sid);
  }

  /** With the corrected `clear`, the reused context numbers its structure items from 0 again. */
  method ReusedContextStartsAfresh(d: object, sid: StructureItemId) returns (first: Rvoe<int>, second: Rvoe<int>)
    ensures first == Ok(0) && second == Ok(0)
  {
    var ctx := new PdfDrawContext(d, Page, PdfRectangle(0.0, 0.0, 1.0, 1.0));
    first := ctx.AddBcdStructure(sid);
    ctx.Clear();
    second := ctx.AddBcdStructure(sid);
  }
}
