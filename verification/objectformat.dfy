// The PDF object formatter (src/objectformatter.cpp, src/objectformatter.hpp).
//
// An ObjectFormatter writes nested dictionaries and arrays as text. The current
// FormatState (indentation, items per line, items on the current line) is
// saved on a stack by every `begin_*` and restored by the matching `end_*`.
// Inside a dictionary every second token ends a line, so each key/value pair
// sits on a line of its own; inside an array a line holds `array_elems_per_line`
// items. A pop with an empty stack or of the wrong kind aborts the program in
// the source and is a precondition here.

module ObjectFormat {
  import opened Errors
  import opened Format

  datatype ContainerType = Array | Dictionary

  datatype FormatState = FormatState(indent: string, elemsPerLine: int, numEntries: int)

  datatype FormatStash = FormatStash(kind: ContainerType, params: FormatState)

  /** What the formatter has been asked to write, in order: a token, or a container opened or closed. */
  datatype Event = Token(text: string) | Open(openKind: ContainerType) | Close(closeKind: ContainerType)

  function TokenEvents(texts: seq<string>): (r: seq<Event>)
    ensures |r| == |texts| && forall i :: 0 <= i < |texts| ==> r[i] == Token(texts[i])
  {
    seq(|texts|, i requires 0 <= i < |texts| => Token(texts[i]))
  }

  /** The indentation of nesting level `depth`: two more spaces per level. */
  function LevelIndent(base: string, depth: nat): (r: string)
    ensures |r| == |base| + 2 * depth
  {
    if depth == 0 then base else LevelIndent(base, depth - 1) + "  "
  }

  /** The counters a state may hold inside the given container (None: top level). */
  predicate Fits(enclosing: Option<ContainerType>, st: FormatState)
  {
    && st.numEntries >= 0
    && (enclosing == Some(Dictionary) ==> st.elemsPerLine == 0 && st.numEntries <= 1)
    && (enclosing == Some(Array) ==> st.numEntries == 0 || st.numEntries < st.elemsPerLine)
  }

  /** The line-breaking rule of `added_item` applied to one more item. */
  function CountedItem(enclosing: Option<ContainerType>, st: FormatState): (r: FormatState)
    ensures r.indent == st.indent && r.elemsPerLine == st.elemsPerLine
    ensures enclosing == None ==> r.numEntries == st.numEntries + 1
  {
    match enclosing
    case None => st.(numEntries := st.numEntries + 1)
    case Some(Array) =>
      if st.numEntries + 1 >= st.elemsPerLine then st.(numEntries := 0)
      else st.(numEntries := st.numEntries + 1)
    case Some(Dictionary) =>
      if st.numEntries + 1 >= 2 then st.(numEntries := 0)
      else st.(numEntries := st.numEntries + 1)
  }

  /** The separator `added_item` writes after an item: none at top level. */
  function ItemSeparator(enclosing: Option<ContainerType>, st: FormatState): (r: string)
  {
    if enclosing == None then ""
    else if CountedItem(enclosing, st).numEntries == 0 then "\n"
    else " "
  }

  /** Counting an item keeps the counters within the container's bounds. */
  lemma {:induction false} CountedItemFits(enclosing: Option<ContainerType>, st: FormatState)
    requires Fits(enclosing, st)
    ensures Fits(enclosing, CountedItem(enclosing, st))
  {
  }

  /**
   * Inside a container a separator is a newline exactly when the line is
   * full (the item count wraps to zero), otherwise a single space.
   */
  lemma {:induction false} SeparatorIsLineBreak(enclosing: Option<ContainerType>, st: FormatState)
    requires enclosing != None
    ensures ItemSeparator(enclosing, st) == "\n" <==> CountedItem(enclosing, st).numEntries == 0
    ensures ItemSeparator(enclosing, st) == " " <==> CountedItem(enclosing, st).numEntries != 0
  {
  }

  /**
   * In a dictionary, starting a fresh line, the first token is followed by a
   * space and the second by a newline: one key/value pair per line.
   */
  lemma {:induction false} DictionaryPairPerLine(st: FormatState)
    requires Fits(Some(Dictionary), st) && st.numEntries == 0
    ensures ItemSeparator(Some(Dictionary), st) == " "
    ensures ItemSeparator(Some(Dictionary), CountedItem(Some(Dictionary), st)) == "\n"
    ensures CountedItem(Some(Dictionary), CountedItem(Some(Dictionary), st)) == st
  {
  }

  /**
   * In an array with `n` >= 1 items per line, starting a fresh line, the
   * `k`-th item (counting from 1) breaks the line exactly when k == n.
   */
  lemma {:induction false} ArrayLineBreaks(st: FormatState, k: nat)
    requires st.numEntries == 0 && 1 <= k <= st.elemsPerLine
    ensures CountedItems(Some(Array), st, k - 1).numEntries == k - 1
    ensures ItemSeparator(Some(Array), CountedItems(Some(Array), st, k - 1)) == (if k == st.elemsPerLine then "\n" else " ")
  {
    if k > 1 {
      ArrayLineBreaks(st, k - 1);
      var prev := CountedItems(Some(Array), st, k - 2);
      assert prev.numEntries == k - 2;
      assert CountedItems(Some(Array), st, k - 1) == CountedItem(Some(Array), prev);
    }
    var cur := CountedItems(Some(Array), st, k - 1);
    assert cur.elemsPerLine == st.elemsPerLine by { CountedItemsKeepsLayout(st, k - 1); }
  }

  lemma {:induction false} CountedItemsKeepsLayout(st: FormatState, k: nat)
    ensures CountedItems(Some(Array), st, k).elemsPerLine == st.elemsPerLine
    ensures CountedItems(Some(Array), st, k).indent == st.indent
  {
    if k > 0 {
      CountedItemsKeepsLayout(st, k - 1);
    }
  }

  /** `k` items counted in a row. */
  function CountedItems(enclosing: Option<ContainerType>, st: FormatState, k: nat): FormatState
  {
    if k == 0 then st else CountedItem(enclosing, CountedItems(enclosing, st, k - 1))
  }

  function EnclosingAt(stack: seq<FormatStash>, i: nat): Option<ContainerType>
    requires i <= |stack|
  {
    if i == 0 then None else Some(stack[i - 1].kind)
  }

  /** Every saved state carries the indentation and counters of its own level. */
  ghost predicate StashesFit(base: string, stack: seq<FormatStash>)
  {
    forall i :: 0 <= i < |stack| ==> StashFits(base, stack, i)
  }

  /** The saved state at depth `i` carries the indentation and counters of its level. */
  ghost predicate StashFits(base: string, stack: seq<FormatStash>, i: nat)
    requires i < |stack|
  {
    stack[i].params.indent == LevelIndent(base, i) && Fits(EnclosingAt(stack, i), stack[i].params)
  }

  lemma {:induction false} StashesFitPush(base: string, stack: seq<FormatStash>, kind: ContainerType, st: FormatState)
    requires StashesFit(base, stack)
    requires st.indent == LevelIndent(base, |stack|) && Fits(EnclosingAt(stack, |stack|), st)
    ensures StashesFit(base, stack + [FormatStash(kind, st)])
  {
    var s := stack + [FormatStash(kind, st)];
    forall i | 0 <= i < |s|
      ensures StashFits(base, s, i)
    {
      if i < |stack| {
        assert StashFits(base, stack, i);
        assert s[i] == stack[i];
        assert EnclosingAt(s, i) == EnclosingAt(stack, i);
      }
    }
  }

  lemma {:induction false} StashesFitPop(base: string, stack: seq<FormatStash>)
    requires StashesFit(base, stack) && stack != []
    ensures StashesFit(base, stack[..|stack| - 1])
  {
    var s := stack[..|stack| - 1];
    forall i | 0 <= i < |s|
      ensures StashFits(base, s, i)
    {
      assert StashFits(base, stack, i);
      assert s[i] == stack[i];
      assert EnclosingAt(s, i) == EnclosingAt(stack, i);
    }
  }

  class ObjectFormatter {
    ghost const baseIndent: string
    var state: FormatState
    var stack: seq<FormatStash>
    var buf: string
    /** Everything requested since construction. */
    ghost var events: seq<Event>

    function Enclosing(): Option<ContainerType>
      reads this
    {
      EnclosingAt(stack, |stack|)
    }

    /**
     * The indentation is the base indentation plus two spaces per open
     * container, and every saved state is the state of its own level.
     */
    ghost predicate Valid()
      reads this
    {
      && state.indent == LevelIndent(baseIndent, |stack|)
      && Fits(Enclosing(), state)
      && StashesFit(baseIndent, stack)
    }

    constructor(base: string)
      ensures Valid()
      ensures baseIndent == base && state == FormatState(base, 0, 0)
      ensures stack == [] && buf == [] && events == []
    {
      baseIndent := base;
      state := FormatState(base, 0, 0);
      stack := [];
      buf := [];
      events := [];
    }

    /** `check_indent`: the indentation opens every fresh line. */
    method CheckIndent()
      modifies this
      ensures buf == old(buf) + (if state.numEntries == 0 then state.indent else "")
      ensures state == old(state) && stack == old(stack) && events == old(events)
    {
      if state.numEntries == 0 {
        buf := buf + state.indent;
      }
    }

    /** `added_item`: counts the item and writes its separator. */
    method AddedItem()
      requires Valid()
      modifies this
      ensures Valid()
      ensures stack == old(stack) && events == old(events)
      ensures state == CountedItem(Enclosing(), old(state))
      ensures buf == old(buf) + ItemSeparator(Enclosing(), old(state))
    {
      CountedItemFits(Enclosing(), state);
      if stack == [] {
        state := state.(numEntries := state.numEntries + 1);
        return;
      }
      var next := state.numEntries + 1;
      if stack[|stack| - 1].kind == Array {
        if next >= state.elemsPerLine {
          buf := buf + "\n";
          state := state.(numEntries := 0);
        } else {
          buf := buf + " ";
          state := state.(numEntries := next);
        }
      } else {
        if next >= 2 {
          buf := buf + "\n";
          state := state.(numEntries := 0);
        } else {
          buf := buf + " ";
          state := state.(numEntries := next);
        }
      }
    }

    /** `do_push`: saves the state and opens a container on a new line. */
    method DoPush(kind: ContainerType)
      requires Valid()
      modifies this
      ensures stack == old(stack) + [FormatStash(kind, old(state))]
      ensures events == old(events) + [Open(kind)]
      ensures state == FormatState(old(state).indent + "  ", old(state).elemsPerLine, 0)
      ensures buf == old(buf) + (if old(state).numEntries == 0 then old(state).indent else "")
                    + (if kind == Dictionary then "<<\n" else "[\n")
    {
      CheckIndent();
      stack := stack + [FormatStash(kind, state)];
      state := state.(indent := state.indent + "  ", numEntries := 0);
      buf := buf + (if kind == Dictionary then "<<\n" else "[\n");
      events := events + [Open(kind)];
    }

    method BeginArray(elemsPerLine: int)
      requires Valid()
      modifies this
      ensures Valid()
      ensures stack == old(stack) + [FormatStash(Array, old(state))]
      ensures events == old(events) + [Open(Array)]
      ensures state == FormatState(old(state).indent + "  ", elemsPerLine, 0)
      ensures buf == old(buf) + (if old(state).numEntries == 0 then old(state).indent else "") + "[\n"
    {
      StashesFitPush(baseIndent, stack, Array, state);
      DoPush(Array);
      state := state.(elemsPerLine := elemsPerLine);
    }

    method BeginDict()
      requires Valid()
      modifies this
      ensures Valid()
      ensures stack == old(stack) + [FormatStash(Dictionary, old(state))]
      ensures events == old(events) + [Open(Dictionary)]
      ensures state == FormatState(old(state).indent + "  ", 0, 0)
      ensures buf == old(buf) + (if old(state).numEntries == 0 then old(state).indent else "") + "<<\n"
    {
      StashesFitPush(baseIndent, stack, Dictionary, state);
      DoPush(Dictionary);
      state := state.(elemsPerLine := 0);
    }

    /** The first half of `do_pop`: the saved state becomes current again. */
    method RestoreSaved(kind: ContainerType)
      requires Valid()
      requires stack != [] && stack[|stack| - 1].kind == kind
      modifies this
      ensures Valid()
      ensures stack == old(stack)[..|old(stack)| - 1]
      ensures state == old(stack)[|old(stack)| - 1].params
      ensures events == old(events) + [Close(kind)] && buf == old(buf)
    {
      var top := stack[|stack| - 1];
      var rest := stack[..|stack| - 1];
      StashesFitPop(baseIndent, stack);
      assert StashFits(baseIndent, stack, |rest|);
      assert top.params.indent == LevelIndent(baseIndent, |rest|);
      assert EnclosingAt(stack, |rest|) == EnclosingAt(rest, |rest|);
      assert Fits(EnclosingAt(rest, |rest|), top.params);
      state := top.params;
      stack := rest;
      events := events + [Close(kind)];
    }

    /**
     * `do_pop`: restores the state saved by the matching `begin_*`, closes
     * the container (indented if it starts a line) and counts it as one item
     * of the enclosing container.
     */
    method DoPop(kind: ContainerType)
      requires Valid()
      requires stack != [] && stack[|stack| - 1].kind == kind
      modifies this
      ensures Valid()
      ensures stack == old(stack)[..|old(stack)| - 1]
      ensures events == old(events) + [Close(kind)]
      ensures var saved := old(stack)[|old(stack)| - 1].params;
              state == CountedItem(Enclosing(), saved)
              && buf == old(buf)
                        + (if old(buf) != [] && old(buf)[|old(buf)| - 1] == '\n' then saved.indent else "")
                        + (if kind == Dictionary then ">>" else "]")
                        + ItemSeparator(Enclosing(), saved)
    {
      RestoreSaved(kind);
      if buf != [] && buf[|buf| - 1] == '\n' {
        buf := buf + state.indent;
      }
      buf := buf + (if kind == Dictionary then ">>" else "]");
      AddedItem();
    }

    method EndArray()
      requires Valid()
      requires stack != [] && stack[|stack| - 1].kind == Array
      modifies this
      ensures Valid()
      ensures stack == old(stack)[..|old(stack)| - 1]
      ensures events == old(events) + [Close(Array)]
      ensures var saved := old(stack)[|old(stack)| - 1].params;
              state == CountedItem(Enclosing(), saved)
              && buf == old(buf)
                        + (if old(buf) != [] && old(buf)[|old(buf)| - 1] == '\n' then saved.indent else "")
                        + "]" + ItemSeparator(Enclosing(), saved)
    {
      DoPop(Array);
    }

    method EndDict()
      requires Valid()
      requires stack != [] && stack[|stack| - 1].kind == Dictionary
      modifies this
      ensures Valid()
      ensures stack == old(stack)[..|old(stack)| - 1]
      ensures events == old(events) + [Close(Dictionary)]
      ensures var saved := old(stack)[|old(stack)| - 1].params;
              state == CountedItem(Enclosing(), saved)
              && buf == old(buf)
                        + (if old(buf) != [] && old(buf)[|old(buf)| - 1] == '\n' then saved.indent else "")
                        + ">>" + ItemSeparator(Enclosing(), saved)
    {
      DoPop(Dictionary);
    }

    /** `add_token`: one raw token, indented if it starts a line. */
    method AddToken(text: string)
      requires Valid()
      modifies this
      ensures Valid()
      ensures stack == old(stack)
      ensures events == old(events) + [Token(text)]
      ensures state == CountedItem(Enclosing(), old(state))
      ensures buf == old(buf) + (if old(state).numEntries == 0 then old(state).indent else "")
                    + text + ItemSeparator(Enclosing(), old(state))
    {
      CheckIndent();
      buf := buf + text;
      AddedItem();
      events := events + [Token(text)];
    }

    /**
     * `add_token_pair`. At the start of a dictionary line the pair is
     * written as one complete line.
     */
    method AddTokenPair(key: string, value: string)
      requires Valid()
      modifies this
      ensures Valid()
      ensures stack == old(stack)
      ensures events == old(events) + [Token(key), Token(value)]
      ensures var mid := CountedItem(Enclosing(), old(state));
              state == CountedItem(Enclosing(), mid)
              && buf == old(buf) + (if old(state).numEntries == 0 then old(state).indent else "")
                        + key + ItemSeparator(Enclosing(), old(state))
                        + (if mid.numEntries == 0 then mid.indent else "")
                        + value + ItemSeparator(Enclosing(), mid)
      ensures Enclosing() == Some(Dictionary) && old(state).numEntries == 0 ==>
                buf == old(buf) + old(state).indent + key + " " + value + "\n"
                && state == old(state)
    {
      AddToken(key);
      AddToken(value);
    }

    /** `add_token(int32_t)`, `add_token(size_t)`: "%d" / "%zd". */
    method AddInt(n: int)
      requires Valid()
      modifies this
      ensures Valid()
      ensures stack == old(stack)
      ensures events == old(events) + [Token(IntText(n))]
      ensures state == CountedItem(Enclosing(), old(state))
      ensures buf == old(buf) + (if old(state).numEntries == 0 then old(state).indent else "")
                    + IntText(n) + ItemSeparator(Enclosing(), old(state))
    {
      AddToken(IntText(n));
    }

    /** `add_token(double)`: "%f". */
    method AddReal(x: real)
      requires Valid()
      modifies this
      ensures Valid()
      ensures stack == old(stack)
      ensures events == old(events) + [Token(RealText(x))]
      ensures state == CountedItem(Enclosing(), old(state))
      ensures buf == old(buf) + (if old(state).numEntries == 0 then old(state).indent else "")
                    + RealText(x) + ItemSeparator(Enclosing(), old(state))
    {
      AddToken(RealText(x));
    }

    /** `add_token_with_slash`: the name must not carry its own slash. */
    method AddTokenWithSlash(name: string)
      requires Valid()
      requires name == [] || name[0] != '/'
      modifies this
      ensures Valid()
      ensures stack == old(stack)
      ensures events == old(events) + [Token("/" + name)]
      ensures state == CountedItem(Enclosing(), old(state))
      ensures buf == old(buf) + (if old(state).numEntries == 0 then old(state).indent else "")
                    + "/" + name + ItemSeparator(Enclosing(), old(state))
    {
      AddToken("/" + name);
    }

    /** `add_object_ref(n)`: exactly "n 0 R". */
    method AddObjectRef(objectNumber: int)
      requires Valid()
      modifies this
      ensures Valid()
      ensures stack == old(stack)
      ensures events == old(events) + [Token(IntText(objectNumber) + " 0 R")]
      ensures state == CountedItem(Enclosing(), old(state))
      ensures buf == old(buf) + (if old(state).numEntries == 0 then old(state).indent else "")
                    + IntText(objectNumber) + " 0 R" + ItemSeparator(Enclosing(), old(state))
    {
      AddToken(IntText(objectNumber) + " 0 R");
    }

    /** `add_pdfstring`: the text in parentheses, unescaped. */
    method AddPdfString(text: string)
      requires Valid()
      modifies this
      ensures Valid()
      ensures stack == old(stack)
      ensures events == old(events) + [Token("(" + text + ")")]
      ensures state == CountedItem(Enclosing(), old(state))
      ensures buf == old(buf) + (if old(state).numEntries == 0 then old(state).indent else "")
                    + "(" + text + ")" + ItemSeparator(Enclosing(), old(state))
    {
      AddToken("(" + text + ")");
    }

    /**
     * `steal`: only with every container closed. The result always ends with
     * a newline and the buffer is left empty.
     */
    method Steal() returns (r: string)
      requires Valid()
      requires stack == []
      modifies this
      ensures Valid()
      ensures r == old(buf) + (if old(buf) == [] || old(buf)[|old(buf)| - 1] != '\n' then "\n" else "")
      ensures |r| > 0 && r[|r| - 1] == '\n'
      ensures buf == [] && state == old(state) && stack == old(stack) && events == old(events)
    {
      if buf == [] || buf[|buf| - 1] != '\n' {
        buf := buf + "\n";
      }
      r := buf;
      buf := [];
    }
  }
}
