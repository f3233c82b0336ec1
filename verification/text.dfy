// Text builders (src/pdftext.hpp).
//
// A TextSequence is the argument of one TJ operator: kerning values, code
// points and glyphs, optionally bracketed by actual-text markers that may not
// nest. A PdfText is an append-only log of text-object events that a draw
// context later renders; it remembers which context created it.

module Text {
  import opened Errors
  import opened PdfCommon

  datatype TextAtom =
    | KerningValue(kerning: int)
    | UnicodeCharacter(codepoint: int)
    | GlyphItem(glyphId: int, unicodeCodepoint: int)
    | GlyphTextItem(textGlyphId: int, sourceText: string)
    | ActualTextStart(actualText: string)
    | ActualTextEnd

  /**
   * Whether the actual-text bracket is open after the atoms, or None if they
   * open a bracket inside a bracket or close one that is not open.
   */
  function BracketState(atoms: seq<TextAtom>): Option<bool>
  {
    if atoms == [] then Some(false)
    else
      match BracketState(atoms[..|atoms| - 1])
      case None => None
      case Some(open) =>
        match atoms[|atoms| - 1]
        case ActualTextStart(_) => if open then None else Some(true)
        case ActualTextEnd => if open then Some(false) else None
        case _ => Some(open)
  }

  /** Atoms whose brackets all match: what one TJ event may hold. */
  predicate Closed(atoms: seq<TextAtom>)
  {
    BracketState(atoms) == Some(false)
  }

  function Starts(atoms: seq<TextAtom>): nat
  {
    if atoms == [] then 0
    else Starts(atoms[..|atoms| - 1]) + (if atoms[|atoms| - 1].ActualTextStart? then 1 else 0)
  }

  function Ends(atoms: seq<TextAtom>): nat
  {
    if atoms == [] then 0
    else Ends(atoms[..|atoms| - 1]) + (if atoms[|atoms| - 1].ActualTextEnd? then 1 else 0)
  }

  /**
   * Brackets alternate: every prefix of well-bracketed atoms has as many ends as
   * starts, or one start more while a bracket is open.
   */
  lemma {:induction false} BracketsAlternate(atoms: seq<TextAtom>)
    requires BracketState(atoms).Some?
    ensures Starts(atoms) == Ends(atoms) + (if BracketState(atoms).value then 1 else 0)
    ensures forall k :: 0 <= k <= |atoms| ==> BracketState(atoms[..k]).Some?
  {
    if atoms != [] {
      var init := atoms[..|atoms| - 1];
      BracketsAlternate(init);
      forall k | 0 <= k <= |atoms|
        ensures BracketState(atoms[..k]).Some?
      {
        if k < |atoms| {
          assert atoms[..k] == init[..k];
        } else {
          assert atoms[..k] == atoms;
        }
      }
    }
  }

  class TextSequence {
    var e: seq<TextAtom>
    var inActualtext: bool

    /** The flag is the bracket state of the stored atoms. */
    ghost predicate Valid()
      reads this
    {
      BracketState(e) == Some(inActualtext)
    }

    constructor()
      ensures Valid() && e == [] && !inActualtext
    {
      e := [];
      inActualtext := false;
    }

    /** `is_actualtext`. */
    function IsActualtext(): (r: bool)
      reads this
      requires Valid()
      ensures r <==> BracketState(e) == Some(true)
    {
      inActualtext
    }

    /** Appends an atom that is not a bracket. */
    method AppendAtom(a: TextAtom)
      requires Valid() && !a.ActualTextStart? && !a.ActualTextEnd?
      modifies this
      ensures Valid()
      ensures e == old(e) + [a] && inActualtext == old(inActualtext)
    {
      assert (e + [a])[..|e|] == e;
      e := e + [a];
    }

    method AppendKerning(k: int) returns (r: Status)
      requires Valid()
      modifies this
      ensures Valid() && r == Success
      ensures e == old(e) + [KerningValue(k)] && inActualtext == old(inActualtext)
    {
      AppendAtom(KerningValue(k));
      r := Success;
    }

    method AppendUnicode(codepoint: int) returns (r: Status)
      requires Valid()
      modifies this
      ensures Valid() && r == Success
      ensures e == old(e) + [UnicodeCharacter(codepoint)] && inActualtext == old(inActualtext)
    {
      AppendAtom(UnicodeCharacter(codepoint));
      r := Success;
    }

    method AppendRawGlyph(glyphId: int, unicodeCodepoint: int) returns (r: Status)
      requires Valid()
      modifies this
      ensures Valid() && r == Success
      ensures e == old(e) + [GlyphItem(glyphId, unicodeCodepoint)] && inActualtext == old(inActualtext)
    {
      AppendAtom(GlyphItem(glyphId, unicodeCodepoint));
      r := Success;
    }

    method AppendLigatureGlyph(glyphId: int, text: string) returns (r: Status)
      requires Valid()
      modifies this
      ensures Valid() && r == Success
      ensures e == old(e) + [GlyphTextItem(glyphId, text)] && inActualtext == old(inActualtext)
    {
      AppendAtom(GlyphTextItem(glyphId, text));
      r := Success;
    }

    /** Opens the actual-text bracket; a bracket may not be opened twice. */
    method AppendActualtextStart(at: string) returns (r: Status)
      requires Valid()
      modifies this
      ensures Valid()
      ensures old(inActualtext) ==> r == Err(DrawStateEndMismatch) && e == old(e) && inActualtext
      ensures !old(inActualtext) ==> r == Success && e == old(e) + [ActualTextStart(at)] && inActualtext
    {
      if inActualtext {
        return Err(DrawStateEndMismatch);
      }
      assert (e + [ActualTextStart(at)])[..|e|] == e;
      e := e + [ActualTextStart(at)];
      inActualtext := true;
      r := Success;
    }

    /** Closes the actual-text bracket; there must be one open. */
    method AppendActualtextEnd() returns (r: Status)
      requires Valid()
      modifies this
      ensures Valid()
      ensures !old(inActualtext) ==> r == Err(DrawStateEndMismatch) && e == old(e) && !inActualtext
      ensures old(inActualtext) ==> r == Success && e == old(e) + [ActualTextEnd] && !inActualtext
    {
      if !inActualtext {
        return Err(DrawStateEndMismatch);
      }
      assert (e + [ActualTextEnd])[..|e|] == e;
      e := e + [ActualTextEnd];
      inActualtext := false;
      r := Success;
    }

    /** `steal_guts`: hands out the atoms; the moved-from vector is left empty. */
    method StealGuts() returns (atoms: seq<TextAtom>)
      modifies this
      ensures atoms == old(e) && e == [] && inActualtext == old(inActualtext)
    {
      atoms := e;
      e := [];
    }

    method Clear()
      modifies this
      ensures Valid() && e == [] && !inActualtext
    {
      e := [];
      inActualtext := false;
    }
  }

  datatype TextEvent =
    | TStar
    | Tc(charSpacing: real)
    | Td(tdX: real, tdY: real)
    | TDLeading(tx: real, ty: real)
    | Tf(font: FontId, pointsize: real)
    | TextArg(text: string)
    | TJ(elements: seq<TextAtom>)
    | TL(leading: real)
    | Tm(m: PdfMatrix)
    | Tr(rmode: int)
    | Ts(rise: real)
    | Tw(wordSpacing: real)
    | Tz(scaling: real)
    | StructureItem(sid: StructureItemId)
    | Emc
    | StrokeColor(strokeColor: Color)
    | NonstrokeColor(nonstrokeColor: Color)
    | MiterLimit(miterlimit: real)
    | LineWidth(width: real)
    | LineJoin(joinStyle: int)
    | LineCap(capStyle: int)
    | Dash(dashArray: seq<real>, phase: real)
    | Gs(gid: int)

  /** Every TJ event in the log holds closed brackets. */
  predicate TJsClosed(events: seq<TextEvent>)
  {
    forall i :: 0 <= i < |events| && events[i].TJ? ==> Closed(events[i].elements)
  }

  /** A PdfText: the log of events, and the draw context that created it. */
  class PdfText {
    const creator: object
    var events: seq<TextEvent>

    ghost predicate Valid()
      reads this
    {
      TJsClosed(events)
    }

    constructor(dc: object)
      ensures Valid() && creator == dc && events == []
    {
      creator := dc;
      events := [];
    }

    /** Every command except TJ: appends its one event, in call order, and succeeds. */
    method Append(ev: TextEvent) returns (r: Status)
      requires Valid() && !ev.TJ?
      modifies this
      ensures Valid() && r == Success
      ensures events == old(events) + [ev]
    {
      events := events + [ev];
      r := Success;
    }

    method CmdBDC(sid: StructureItemId) returns (r: Status)
      requires Valid()
      modifies this
      ensures Valid() && r == Success && events == old(events) + [StructureItem(sid)]
    {
      r := Append(StructureItem(sid));
    }

    method CmdEMC() returns (r: Status)
      requires Valid()
      modifies this
      ensures Valid() && r == Success && events == old(events) + [Emc]
    {
      r := Append(Emc);
    }

    method CmdTstar() returns (r: Status)
      requires Valid()
      modifies this
      ensures Valid() && r == Success && events == old(events) + [TStar]
    {
      r := Append(TStar);
    }

    method CmdTc(charSpacing: real) returns (r: Status)
      requires Valid()
      modifies this
      ensures Valid() && r == Success && events == old(events) + [Tc(charSpacing)]
    {
      r := Append(Tc(charSpacing));
    }

    method CmdTd(tx: real, ty: real) returns (r: Status)
      requires Valid()
      modifies this
      ensures Valid() && r == Success && events == old(events) + [Td(tx, ty)]
    {
      r := Append(Td(tx, ty));
    }

    method CmdTD(tx: real, ty: real) returns (r: Status)
      requires Valid()
      modifies this
      ensures Valid() && r == Success && events == old(events) + [TDLeading(tx, ty)]
    {
      r := Append(TDLeading(tx, ty));
    }

    method CmdTf(font: FontId, pointsize: real) returns (r: Status)
      requires Valid()
      modifies this
      ensures Valid() && r == Success && events == old(events) + [Tf(font, pointsize)]
    {
      r := Append(Tf(font, pointsize));
    }

    method RenderText(text: string) returns (r: Status)
      requires Valid()
      modifies this
      ensures Valid() && r == Success && events == old(events) + [TextArg(text)]
    {
      r := Append(TextArg(text));
    }

    /**
     * `cmd_TJ`: a sequence with an open bracket is refused and left as it is;
     * otherwise all its atoms move into one TJ event and the sequence is reset.
     */
    method CmdTJ(sq: TextSequence) returns (r: Status)
      requires Valid() && sq.Valid()
      modifies this, sq
      ensures Valid() && sq.Valid()
      ensures old(sq.inActualtext) ==>
                (r == Err(DrawStateEndMismatch) && events == old(events) && sq.e == old(sq.e) && sq.inActualtext)
      ensures !old(sq.inActualtext) ==>
                (r == Success && events == old(events) + [TJ(old(sq.e))] && sq.e == [] && !sq.inActualtext)
    {
      if sq.IsActualtext() {
        return Err(DrawStateEndMismatch);
      }
      var atoms := sq.StealGuts();
      events := events + [TJ(atoms)];
      sq.Clear();
      r := Success;
    }

    method CmdTL(leading: real) returns (r: Status)
      requires Valid()
      modifies this
      ensures Valid() && r == Success && events == old(events) + [TL(leading)]
    {
      r := Append(TL(leading));
    }

    method CmdTm(m: PdfMatrix) returns (r: Status)
      requires Valid()
      modifies this
      ensures Valid() && r == Success && events == old(events) + [Tm(m)]
    {
      r := Append(Tm(m));
    }

    method CmdTr(rmode: int) returns (r: Status)
      requires Valid()
      modifies this
      ensures Valid() && r == Success && events == old(events) + [Tr(rmode)]
    {
      r := Append(Tr(rmode));
    }

    method CmdTs(rise: real) returns (r: Status)
      requires Valid()
      modifies this
      ensures Valid() && r == Success && events == old(events) + [Ts(rise)]
    {
      r := Append(Ts(rise));
    }

    method CmdTw(spacing: real) returns (r: Status)
      requires Valid()
      modifies this
      ensures Valid() && r == Success && events == old(events) + [Tw(spacing)]
    {
      r := Append(Tw(spacing));
    }

    method CmdTz(scaling: real) returns (r: Status)
      requires Valid()
      modifies this
      ensures Valid() && r == Success && events == old(events) + [Tz(scaling)]
    {
      r := Append(Tz(scaling));
    }

    method SetStrokeColor(c: Color) returns (r: Status)
      requires Valid()
      modifies this
      ensures Valid() && r == Success && events == old(events) + [StrokeColor(c)]
    {
      r := Append(StrokeColor(c));
    }

    method SetNonstrokeColor(c: Color) returns (r: Status)
      requires Valid()
      modifies this
      ensures Valid() && r == Success && events == old(events) + [NonstrokeColor(c)]
    {
      r := Append(NonstrokeColor(c));
    }

    method CmdW(lineWidth: real) returns (r: Status)
      requires Valid()
      modifies this
      ensures Valid() && r == Success && events == old(events) + [LineWidth(lineWidth)]
    {
      r := Append(LineWidth(lineWidth));
    }

    method CmdM(miterlimit: real) returns (r: Status)
      requires Valid()
      modifies this
      ensures Valid() && r == Success && events == old(events) + [MiterLimit(miterlimit)]
    {
      r := Append(MiterLimit(miterlimit));
    }

    method CmdJoin(joinStyle: int) returns (r: Status)
      requires Valid()
      modifies this
      ensures Valid() && r == Success && events == old(events) + [LineJoin(joinStyle)]
    {
      r := Append(LineJoin(joinStyle));
    }

    method CmdCap(capStyle: int) returns (r: Status)
      requires Valid()
      modifies this
      ensures Valid() && r == Success && events == old(events) + [LineCap(capStyle)]
    {
      r := Append(LineCap(capStyle));
    }

    /** `cmd_d`: the first `arraySize` values of the caller's array are copied. */
    method CmdD(dashArray: seq<real>, arraySize: nat, phase: real) returns (r: Status)
      requires Valid() && arraySize <= |dashArray|
      modifies this
      ensures Valid() && r == Success && events == old(events) + [Dash(dashArray[..arraySize], phase)]
    {
      r := Append(Dash(dashArray[..arraySize], phase));
    }

    method CmdGs(gsid: int) returns (r: Status)
      requires Valid()
      modifies this
      ensures Valid() && r == Success && events == old(events) + [Gs(gsid)]
    {
      r := Append(Gs(gsid));
    }
  }
}
