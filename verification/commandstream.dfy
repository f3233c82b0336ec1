// The content-stream nesting machine (src/commandstreamformatter.cpp,
// src/commandstreamformatter.hpp).
//
// A CommandStreamFormatter accumulates page-description operators in `buf`.
// It keeps a stack of open brackets (q/Q, BT/ET, BMC/BDC..EMC and dictionaries)
// and an indentation string `lead` that is always two spaces per open bracket.
// Text objects and marked-content sections may not nest.

module CommandStream {
  import opened Errors
  import opened Format

  datatype DrawStateType = MarkedContent | SaveState | Text | Dictionary

  /** Two spaces per nesting level. */
  function Indentation(depth: nat): (r: string)
    ensures |r| == 2 * depth
    ensures forall i :: 0 <= i < |r| ==> r[i] == ' '
  {
    if depth == 0 then "" else Indentation(depth - 1) + "  "
  }

  /**
   * The line `append` adds for `text` at indentation `lead`: nothing for an
   * empty text, otherwise the indentation, the text, and a newline unless the
   * text already ends with one.
   */
  function Line(lead: string, text: string): (r: string)
    ensures text == [] ==> r == []
    ensures text != [] ==> |lead| + |text| <= |r| <= |lead| + |text| + 1
    ensures text != [] ==> r[..|lead| + |text|] == lead + text
    ensures text != [] ==> r[|r| - 1] == '\n'
  {
    if text == [] then []
    else if text[|text| - 1] == '\n' then lead + text
    else lead + text + "\n"
  }

  /** The operand text of `append_command` for floating-point operands. */
  function Operands(args: seq<real>): string
  {
    if args == [] then "" else Operands(args[..|args| - 1]) + RealText(args[|args| - 1]) + " "
  }

  class CommandStreamFormatter {
    var lead: string
    var stack: seq<DrawStateType>
    var buf: string

    /** `lead` tracks the stack depth; Text and MarkedContent are never nested. */
    ghost predicate Valid()
      reads this
    {
      && lead == Indentation(|stack|)
      && multiset(stack)[MarkedContent] <= 1
      && multiset(stack)[Text] <= 1
    }

    predicate HasUnclosedState()
      reads this
    {
      stack != []
    }

    constructor()
      ensures Valid()
      ensures lead == [] && stack == [] && buf == []
    {
      lead := [];
      stack := [];
      buf := [];
    }

    /** `append`: one line of text at the current indentation. */
    method Append(text: string)
      modifies this
      ensures buf == old(buf) + Line(lead, text)
      ensures lead == old(lead) && stack == old(stack)
    {
      if text != [] {
        buf := buf + lead + text;
        if buf[|buf| - 1] != '\n' {
          buf := buf + "\n";
        }
      }
    }

    method AppendRaw(raw: string)
      modifies this
      ensures buf == old(buf) + raw
      ensures lead == old(lead) && stack == old(stack)
    {
      buf := buf + raw;
    }

    /** `append_command(arg, cmd)`: "<lead><arg> <cmd>\n". */
    method AppendCommand(arg: string, command: string)
      modifies this
      ensures buf == old(buf) + lead + arg + " " + command + "\n"
      ensures lead == old(lead) && stack == old(stack)
    {
      buf := buf + lead + arg + " " + command + "\n";
    }

    /** `append_command(double..., cmd)`: each operand in "%f" form, then the operator. */
    method AppendNumbers(args: seq<real>, command: string)
      modifies this
      ensures buf == old(buf) + lead + Operands(args) + command + "\n"
      ensures lead == old(lead) && stack == old(stack)
    {
      buf := buf + lead + Operands(args) + command + "\n";
    }

    /** `has_state`: a linear scan of the bracket stack. */
    method HasState(t: DrawStateType) returns (found: bool)
      ensures found <==> t in stack
    {
      var i := 0;
      while i < |stack|
        invariant 0 <= i <= |stack|
        invariant forall j :: 0 <= j < i ==> stack[j] != t
      {
        if stack[i] == t {
          return true;
        }
        i := i + 1;
      }
      return false;
    }

    /** `marked_content_depth`: never more than one, since BMC cannot nest. */
    method MarkedContentDepth() returns (depth: nat)
      requires Valid()
      ensures depth == multiset(stack)[MarkedContent]
      ensures depth <= 1
    {
      depth := 0;
      var i := 0;
      while i < |stack|
        invariant 0 <= i <= |stack|
        invariant depth == multiset(stack[..i])[MarkedContent]
      {
        assert stack[..i + 1] == stack[..i] + [stack[i]];
        if stack[i] == MarkedContent {
          depth := depth + 1;
        }
        i := i + 1;
      }
      assert stack[..i] == stack;
    }

    /**
     * `indent`: opens a bracket. A second Text object fails with
     * DrawStateEndMismatch and a second marked-content section with NestedBMC;
     * a failure changes nothing.
     */
    method Indent(t: DrawStateType) returns (r: Status)
      requires Valid()
      modifies this
      ensures Valid()
      ensures t == Text && Text in old(stack) ==> r == Err(DrawStateEndMismatch)
      ensures t == MarkedContent && MarkedContent in old(stack) ==> r == Err(NestedBMC)
      ensures r.Ok? <==> !((t == Text || t == MarkedContent) && t in old(stack))
      ensures r.Ok? ==> r == Success && stack == old(stack) + [t] && lead == old(lead) + "  "
      ensures r.Err? ==> stack == old(stack) && lead == old(lead)
      ensures buf == old(buf)
    {
      if t == Text || t == MarkedContent {
        var present := HasState(t);
        if present {
          return Err(if t == Text then DrawStateEndMismatch else NestedBMC);
        }
      }
      stack := stack + [t];
      lead := lead + "  ";
      return Success;
    }

    /**
     * `dedent`: closes the innermost bracket, which must be of type `t`;
     * otherwise DrawStateEndMismatch and nothing changes. On success the
     * stack and the indentation are exactly what they were before the
     * matching `Indent(t)`.
     */
    method Dedent(t: DrawStateType) returns (r: Status)
      requires Valid()
      modifies this
      ensures Valid()
      ensures r.Err? <==> old(stack) == [] || old(stack)[|old(stack)| - 1] != t
      ensures r.Err? ==> r == Err(DrawStateEndMismatch) && stack == old(stack) && lead == old(lead)
      ensures r.Ok? ==> r == Success && stack + [t] == old(stack) && lead + "  " == old(lead)
      ensures buf == old(buf)
    {
      if stack == [] || stack[|stack| - 1] != t {
        return Err(DrawStateEndMismatch);
      }
      var s := stack;
      assert s == s[..|s| - 1] + [t];
      stack := stack[..|stack| - 1];
      lead := lead[..|lead| - 2];
      return Success;
    }

    /** `BT`: the operator is written before the bracket is opened, even if that fails. */
    method BT() returns (r: Status)
      requires Valid()
      modifies this
      ensures Valid()
      ensures buf == old(buf) + old(lead) + "BT\n"
      ensures r.Ok? <==> Text !in old(stack)
      ensures r.Err? ==> r == Err(DrawStateEndMismatch) && stack == old(stack) && lead == old(lead)
      ensures r.Ok? ==> stack == old(stack) + [Text] && lead == old(lead) + "  "
    {
      Append("BT");
      r := Indent(Text);
    }

    /** `ET`: closes the text object first; a failure writes nothing. */
    method ET() returns (r: Status)
      requires Valid()
      modifies this
      ensures Valid()
      ensures r.Err? <==> old(stack) == [] || old(stack)[|old(stack)| - 1] != Text
      ensures r.Err? ==> r == Err(DrawStateEndMismatch) && buf == old(buf) && stack == old(stack) && lead == old(lead)
      ensures r.Ok? ==> stack + [Text] == old(stack) && lead + "  " == old(lead)
      ensures r.Ok? ==> buf == old(buf) + lead + "ET\n"
    {
      r := Dedent(Text);
      if r.Err? {
        return;
      }
      Append("ET");
    }

    /** `q`: always succeeds. */
    method SaveGState() returns (r: Status)
      requires Valid()
      modifies this
      ensures Valid()
      ensures r == Success
      ensures buf == old(buf) + old(lead) + "q\n"
      ensures stack == old(stack) + [SaveState] && lead == old(lead) + "  "
    {
      Append("q");
      r := Indent(SaveState);
    }

    /** `Q`: closes a save-state bracket first; a failure writes nothing. */
    method RestoreGState() returns (r: Status)
      requires Valid()
      modifies this
      ensures Valid()
      ensures r.Err? <==> old(stack) == [] || old(stack)[|old(stack)| - 1] != SaveState
      ensures r.Err? ==> r == Err(DrawStateEndMismatch) && buf == old(buf) && stack == old(stack) && lead == old(lead)
      ensures r.Ok? ==> stack + [SaveState] == old(stack) && lead + "  " == old(lead)
      ensures r.Ok? ==> buf == old(buf) + lead + "Q\n"
    {
      r := Dedent(SaveState);
      if r.Err? {
        return;
      }
      Append("Q");
    }

    /** `BMC`: like BT, the operator is written before the bracket is opened. */
    method BMC() returns (r: Status)
      requires Valid()
      modifies this
      ensures Valid()
      ensures buf == old(buf) + old(lead) + "BMC\n"
      ensures r.Ok? <==> MarkedContent !in old(stack)
      ensures r.Err? ==> r == Err(NestedBMC) && stack == old(stack) && lead == old(lead)
      ensures r.Ok? ==> stack == old(stack) + [MarkedContent] && lead == old(lead) + "  "
    {
      Append("BMC");
      r := Indent(MarkedContent);
    }

    /** `EMC`: closes a marked-content section first; a failure writes nothing. */
    method EMC() returns (r: Status)
      requires Valid()
      modifies this
      ensures Valid()
      ensures r.Err? <==> old(stack) == [] || old(stack)[|old(stack)| - 1] != MarkedContent
      ensures r.Err? ==> r == Err(DrawStateEndMismatch) && buf == old(buf) && stack == old(stack) && lead == old(lead)
      ensures r.Ok? ==> stack + [MarkedContent] == old(stack) && lead + "  " == old(lead)
      ensures r.Ok? ==> buf == old(buf) + lead + "EMC\n"
    {
      r := Dedent(MarkedContent);
      if r.Err? {
        return;
      }
      Append("EMC");
    }

    method Clear()
      modifies this
      ensures Valid()
      ensures lead == [] && stack == [] && buf == []
    {
      lead := [];
      stack := [];
      buf := [];
    }

    /**
     * `steal`: hands out the finished stream. Fails with DrawStateEndMismatch
     * while any bracket is open; on success the buffer is left empty.
     */
    method Steal() returns (r: Rvoe<string>)
      requires Valid()
      modifies this
      ensures Valid()
      ensures old(stack) != [] ==> r == Err(DrawStateEndMismatch) && buf == old(buf)
      ensures old(stack) == [] ==> r == Ok(old(buf)) && buf == []
      ensures stack == old(stack) && lead == old(lead)
    {
      if stack != [] {
        return Err(DrawStateEndMismatch);
      }
      r := Ok(buf);
      buf := [];
    }
  }
}
