// Type 3 fonts (src/type3font.cpp, src/type3font.hpp): a font matrix and a
// list of glyphs, each the command stream of a Type 3 font draw context.

module Type3Fonts {
  import opened Errors
  import DrawContext

  datatype Type3Glyph = Type3Glyph(codepoint: nat, stream: string)

  /**
   * The outcome of `add_glyph`. The code reports a repeated codepoint as
   * `CodepointAlreadyExists`, which the ErrorCode enum does not define, so it
   * is an outcome of its own here.
   */
  datatype AddGlyphOutcome = GlyphAdded | GlyphRejected(code: ErrorCode) | CodepointAlreadyExists

  /** True when some glyph of `glyphs` is drawn for `codepoint`. */
  predicate HasCodepoint(glyphs: seq<Type3Glyph>, codepoint: nat)
  {
    exists i :: 0 <= i < |glyphs| && glyphs[i].codepoint == codepoint
  }

  /** Each codepoint has at most one glyph. */
  predicate UniqueCodepoints(glyphs: seq<Type3Glyph>)
  {
    forall i, j :: 0 <= i < j < |glyphs| ==> glyphs[i].codepoint != glyphs[j].codepoint
  }

  class Type3Font {
    const fontMatrix: array<real>
    var glyphs: seq<Type3Glyph>

    ghost predicate Valid()
      reads this
    {
      fontMatrix.Length == 6 && UniqueCodepoints(glyphs)
    }

    /** The default matrix maps the 1000-unit glyph space to text space. */
    constructor()
      ensures Valid() && fresh(fontMatrix)
      ensures fontMatrix[..] == [0.001, 0.0, 0.0, 0.001, 0.0, 0.0] && glyphs == []
    {
      var m := new real[6];
      m[0], m[1], m[2], m[3], m[4], m[5] := 0.001, 0.0, 0.0, 0.001, 0.0, 0.0;
      fontMatrix := m;
      glyphs := [];
    }

    /** `set_font_matrix`: the six entries in argument order. */
    method SetFontMatrix(a: real, b: real, c: real, d: real, e: real, f: real)
      requires Valid()
      modifies fontMatrix
      ensures Valid()
      ensures fontMatrix[..] == [a, b, c, d, e, f]
    {
      fontMatrix[0] := a;
      fontMatrix[1] := b;
      fontMatrix[2] := c;
      fontMatrix[3] := d;
      fontMatrix[4] := e;
      fontMatrix[5] := f;
    }

    /** The scan of `add_glyph` for a codepoint already drawn. */
    method FindCodepoint(codepoint: nat) returns (found: bool)
      ensures found <==> HasCodepoint(glyphs, codepoint)
    {
      var i := 0;
      while i < |glyphs|
        invariant 0 <= i <= |glyphs|
        invariant forall k :: 0 <= k < i ==> glyphs[k].codepoint != codepoint
      {
        if glyphs[i].codepoint == codepoint {
          return true;
        }
        i := i + 1;
      }
      return false;
    }

    /**
     * `add_glyph`: only a Type 3 font context can define a glyph, a codepoint
     * is defined once, and the context's stream must have no open bracket.
     * The stream is moved into the new glyph at the end of the list.
     */
    method AddGlyph(codepoint: nat, ctx: DrawContext.PdfDrawContext) returns (r: AddGlyphOutcome)
      requires Valid() && ctx.Valid()
      modifies this, ctx.cmds
      ensures Valid() && ctx.Valid()
      ensures ctx.cmds.stack == old(ctx.cmds.stack)
      ensures ctx.contextType != DrawContext.Type3Font ==>
                r == GlyphRejected(WrongDrawContext) && glyphs == old(glyphs) && ctx.cmds.buf == old(ctx.cmds.buf)
      ensures ctx.contextType == DrawContext.Type3Font && HasCodepoint(old(glyphs), codepoint) ==>
                r == CodepointAlreadyExists && glyphs == old(glyphs) && ctx.cmds.buf == old(ctx.cmds.buf)
      ensures ctx.contextType == DrawContext.Type3Font && !HasCodepoint(old(glyphs), codepoint) && ctx.cmds.stack != [] ==>
                r == GlyphRejected(DrawStateEndMismatch) && glyphs == old(glyphs) && ctx.cmds.buf == old(ctx.cmds.buf)
      ensures r == GlyphAdded <==>
                ctx.contextType == DrawContext.Type3Font && !HasCodepoint(old(glyphs), codepoint) && ctx.cmds.stack == []
      ensures r == GlyphAdded ==>
                glyphs == old(glyphs) + [Type3Glyph(codepoint, old(ctx.cmds.buf))] && ctx.cmds.buf == []
    {
      if ctx.contextType != DrawContext.Type3Font {
        return GlyphRejected(WrongDrawContext);
      }
      var present := FindCodepoint(codepoint);
      if present {
        return CodepointAlreadyExists;
      }
      var stream := ctx.StealCommandStream();
      if stream.Err? {
        return GlyphRejected(stream.error);
      }
      glyphs := glyphs + [Type3Glyph(codepoint, stream.value)];
      r := GlyphAdded;
    }
  }
}
