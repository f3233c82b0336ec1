// The object parser (src/pdfparser.cpp, src/pdfparser.hpp): the
// parenthesis scanner of the lexer, the recursive-descent parser over the
// lexer's tokens, and the key order of the pretty printer.
//
// The regular-expression lexer `PdfLexer::next` is not modelled: the parser
// reads the token sequence it would produce, and the end of that sequence
// stands for PdfTokenFinished.

module PdfParser {
  import opened Errors

  // ---------------------------------------------------------------------
  // lex_string

  /** The scanner's state: open parentheses and whether a backslash escapes the next character. */
  datatype ScanState = ScanState(depth: int, escaped: bool)

  const ScanStart: ScanState := ScanState(1, false)

  /**
   * One character of `lex_string`. As written (`pairs` false) a backslash
   * always sets the escape flag, even when it is itself escaped; as literal
   * strings are defined (section 7.3.4.2 of ISO 32000-2, `pairs` true) "\\\\"
   * is an escaped backslash and escapes nothing after it.
   */
  function Step(s: ScanState, c: char, pairs: bool): ScanState
  {
    if c == '\\' then ScanState(s.depth, !(pairs && s.escaped))
    else if c == '(' then ScanState(if s.escaped then s.depth else s.depth + 1, false)
    else if c == ')' then ScanState(if s.escaped then s.depth else s.depth - 1, false)
    else ScanState(s.depth, false)
  }

  /** The state after scanning `t` from the start state. */
  function Scan(t: string, pairs: bool): ScanState
  {
    if t == [] then ScanStart else Step(Scan(t[..|t| - 1], pairs), t[|t| - 1], pairs)
  }

  predicate NoNul(t: string)
  {
    forall i :: 0 <= i < |t| ==> t[i] != '\0'
  }

  /**
   * The body of `lex_string`, on the text after an opening parenthesis: the
   * length up to and including the parenthesis that closes it, or -1.
   */
  method ScanForClose(t: string, pairs: bool) returns (r: int)
    requires NoNul(t)
    ensures r == -1 <==> forall k :: 0 <= k <= |t| ==> Scan(t[..k], pairs).depth != 0
    ensures r != -1 ==> 1 <= r <= |t| && Scan(t[..r], pairs).depth == 0 && t[r - 1] == ')'
    ensures r != -1 ==> forall k :: 0 <= k < r ==> Scan(t[..k], pairs).depth != 0
  {
    var state := ScanStart;
    var off := 0;
    assert t[..0] == [];
    while off < |t|
      invariant 0 <= off <= |t|
      invariant state == Scan(t[..off], pairs) && state.depth >= 1
      invariant forall k :: 0 <= k <= off ==> Scan(t[..k], pairs).depth != 0
    {
      assert t[..off + 1][..off] == t[..off];
      state := Step(state, t[off], pairs);
      off := off + 1;
      if state.depth == 0 {
        return off;
      }
    }
    assert t[..off] == t;
    return -1;
  }

  /** `lex_string` as written. */
  method LexStringAsWritten(t: string) returns (r: int)
    requires NoNul(t)
    ensures r == -1 <==> forall k :: 0 <= k <= |t| ==> Scan(t[..k], false).depth != 0
    ensures r != -1 ==> 1 <= r <= |t| && Scan(t[..r], false).depth == 0 && t[r - 1] == ')'
    ensures r != -1 ==> forall k :: 0 <= k < r ==> Scan(t[..k], false).depth != 0
  {
    r := ScanForClose(t, false);
  }

  /** `lex_string` with escaped backslashes honoured. */
  method LexString(t: string) returns (r: int)
    requires NoNul(t)
    ensures r == -1 <==> forall k :: 0 <= k <= |t| ==> Scan(t[..k], true).depth != 0
    ensures r != -1 ==> 1 <= r <= |t| && Scan(t[..r], true).depth == 0 && t[r - 1] == ')'
    ensures r != -1 ==> forall k :: 0 <= k < r ==> Scan(t[..k], true).depth != 0
  {
    r := ScanForClose(t, true);
  }

  lemma {:induction false} ScanAppend(p: string, c: char, pairs: bool)
    ensures Scan(p + [c], pairs) == Step(Scan(p, pairs), c, pairs)
  {
    assert (p + [c])[..|p|] == p;
  }

  /**
   * With escapes honoured, "\\(", "\\)" and an escaped backslash leave the
   * depth and the escape state as they were.
   */
  lemma {:induction false} EscapesAreNeutral(p: string)
    requires !Scan(p, true).escaped
    ensures Scan(p + "\\(", true) == Scan(p, true)
    ensures Scan(p + "\\)", true) == Scan(p, true)
    ensures Scan(p + "\\\\", true) == Scan(p, true)
  {
    ScanAppend(p, '\\', true);
    ScanAppend(p + "\\", '(', true);
    assert p + "\\" + "(" == p + "\\(";
    ScanAppend(p + "\\", ')', true);
    assert p + "\\" + ")" == p + "\\)";
    ScanAppend(p + "\\", '\\', true);
    assert p + "\\" + "\\" == p + "\\\\";
  }

  /** As written, an escaped backslash still escapes the parenthesis after it. */
  lemma {:induction false} EscapedBackslashHidesParen(p: string)
    requires !Scan(p, false).escaped
    ensures Scan(p + "\\\\)", false) == Scan(p, false).(escaped := false)
  {
    ScanAppend(p, '\\', false);
    ScanAppend(p + "\\", '\\', false);
    assert p + "\\" + "\\" == p + "\\\\";
    ScanAppend(p + "\\\\", ')', false);
    assert p + "\\\\" + ")" == p + "\\\\)";
  }

  /** A scan result is the first prefix length at which the depth reaches 0. */
  lemma {:induction false} ClosesAt(t: string, pairs: bool, m: nat, r: int)
    requires m <= |t| && Scan(t[..m], pairs).depth == 0
    requires forall k :: 0 <= k < m ==> Scan(t[..k], pairs).depth != 0
    requires r == -1 <==> forall k :: 0 <= k <= |t| ==> Scan(t[..k], pairs).depth != 0
    requires r != -1 ==> 1 <= r <= |t| && Scan(t[..r], pairs).depth == 0
    requires r != -1 ==> forall k :: 0 <= k < r ==> Scan(t[..k], pairs).depth != 0
    ensures r == m
  {
    assert r != -1;
  }

  /** As written, the body `\\))` keeps depth 1 through its first ')' and closes at the second. */
  lemma {:induction false} AsWrittenPrefixes(t: string)
    requires t == "\\\\))"
    ensures Scan(t[..4], false).depth == 0
    ensures forall k :: 0 <= k < 4 ==> Scan(t[..k], false).depth != 0
  {
    assert t[..0] == [] && t[..1] == "\\" && t[..2] == "\\\\";
    ScanAppend([], '\\', false);
    assert [] + ['\\'] == t[..1];
    ScanAppend(t[..1], '\\', false);
    assert t[..1] + ['\\'] == t[..2];
    ScanAppend(t[..2], ')', false);
    assert t[..2] + [')'] == t[..3];
    ScanAppend(t[..3], ')', false);
    assert t[..3] + [')'] == t[..4];
  }

  /** With escaped backslashes honoured, the same body closes at its first ')'. */
  lemma {:induction false} CorrectedPrefixes(t: string)
    requires t == "\\\\))"
    ensures Scan(t[..3], true).depth == 0
    ensures forall k :: 0 <= k < 3 ==> Scan(t[..k], true).depth != 0
  {
    assert t[..0] == [] && t[..1] == "\\" && t[..2] == "\\\\";
    ScanAppend([], '\\', true);
    assert [] + ['\\'] == t[..1];
    ScanAppend(t[..1], '\\', true);
    assert t[..1] + ['\\'] == t[..2];
    ScanAppend(t[..2], ')', true);
    assert t[..2] + [')'] == t[..3];
  }

  /**
   * The string body `\\)` followed by `)`: as written the escaped backslash
   * hides the first ')' and the scan takes four characters; as defined, the
   * first ')' closes the string after three.
   */
  method EscapedBackslashExample() returns (asWritten: int, corrected: int)
    ensures asWritten == 4 && corrected == 3
  {
    var t := "\\\\))";
    asWritten := LexStringAsWritten(t);
    AsWrittenPrefixes(t);
    ClosesAt(t, false, 4, asWritten);
    corrected := LexString(t);
    CorrectedPrefixes(t);
    ClosesAt(t, true, 3, corrected);
  }

  // ---------------------------------------------------------------------
  // The parser

  /** The lexer's tokens; the end of the token sequence is PdfTokenFinished. */
  datatype Token =
    | DictStart
    | DictEnd
    | ArrayStart
    | ArrayEnd
    | StringToken(stringText: string)
    | NameToken(name: string)
    | ObjNameToken(number: int, version: int)
    | ObjRefToken(objnum: int, refVersion: int)
    | EndObjToken
    | HexStringToken(hexText: string)
    | IntegerToken(intValue: int)
    | RealToken(realValue: real)
    | ErrorToken

  /** A parsed value; arrays and dictionaries are indices into the definition's tables. */
  datatype PdfValue =
    | IntValue(i: int)
    | RealValue(r: real)
    | ArrayNode(arrayIndex: nat)
    | DictNode(dictIndex: nat)
    | ObjRefNode(obj: int, version: int)
    | StringNode(text: string)
    | NameNode(nameText: string)
    | HexStringNode(hex: string)

  datatype PdfObjectDefinition = PdfObjectDefinition(
    number: int,
    version: int,
    arrays: seq<seq<PdfValue>>,
    dicts: seq<map<string, PdfValue>>,
    root: PdfValue)

  /** The node a token that is a complete value turns into. */
  function ScalarNode(t: Token): Option<PdfValue>
  {
    match t
    case IntegerToken(v) => Some(IntValue(v))
    case RealToken(v) => Some(RealValue(v))
    case ObjRefToken(o, v) => Some(ObjRefNode(o, v))
    case StringToken(s) => Some(StringNode(s))
    case NameToken(n) => Some(NameNode(n))
    case HexStringToken(h) => Some(HexStringNode(h))
    case _ => None
  }

  /** The value refers only to tables that exist. */
  predicate RefersWithin(v: PdfValue, arrayCount: nat, dictCount: nat)
  {
    (v.ArrayNode? ==> v.arrayIndex < arrayCount) && (v.DictNode? ==> v.dictIndex < dictCount)
  }

  /**
   * Every reference stored in the tables is in range, and an array or a
   * dictionary only contains arrays or dictionaries completed before it.
   */
  predicate WellFormedTables(arrays: seq<seq<PdfValue>>, dicts: seq<map<string, PdfValue>>)
  {
    && (forall i, j :: 0 <= i < |arrays| && 0 <= j < |arrays[i]| ==>
          RefersWithin(arrays[i][j], |arrays|, |dicts|) && (arrays[i][j].ArrayNode? ==> arrays[i][j].arrayIndex < i))
    && (forall i, k :: 0 <= i < |dicts| && k in dicts[i] ==>
          RefersWithin(dicts[i][k], |arrays|, |dicts|) && (dicts[i][k].DictNode? ==> dicts[i][k].dictIndex < i))
  }

  predicate WellFormed(def: PdfObjectDefinition)
  {
    WellFormedTables(def.arrays, def.dicts) && RefersWithin(def.root, |def.arrays|, |def.dicts|)
  }

  // ---------------------------------------------------------------------
  // The grammar the parser recognises

  /** A value as the tokens describe it, with arrays and dictionaries nested in place. */
  datatype Tree =
    | Scalar(value: PdfValue)
    | ArrayTree(items: seq<Tree>)
    | DictTree(entries: map<string, Tree>)

  /**
   * The value starting at token `i` and the position after it: a scalar
   * token, "<<" and a dictionary body, or "[" and an array body.
   */
  function ValueAt(tokens: seq<Token>, i: nat): (r: Option<(Tree, nat)>)
    requires i <= |tokens|
    ensures r.Some? ==> i < r.value.1 <= |tokens|
    decreases |tokens| - i, 0
  {
    if i == |tokens| then None
    else if ScalarNode(tokens[i]).Some? then Some((Scalar(ScalarNode(tokens[i]).value), i + 1))
    else if tokens[i] == DictStart then
      match DictBodyAt(tokens, i + 1, map[])
      case None => None
      case Some((m, j)) => Some((DictTree(m), j))
    else if tokens[i] == ArrayStart then
      match ArrayBodyAt(tokens, i + 1, [])
      case None => None
      case Some((items, j)) => Some((ArrayTree(items), j))
    else None
  }

  /**
   * The rest of a dictionary from token `i`, after the entries `acc`: name
   * and value pairs up to ">>", a later value for a key replacing an earlier one.
   */
  function DictBodyAt(tokens: seq<Token>, i: nat, acc: map<string, Tree>): (r: Option<(map<string, Tree>, nat)>)
    requires i <= |tokens|
    ensures r.Some? ==> i < r.value.1 <= |tokens|
    decreases |tokens| - i, 1
  {
    if i == |tokens| then None
    else if tokens[i] == DictEnd then Some((acc, i + 1))
    else if !tokens[i].NameToken? then None
    else
      match ValueAt(tokens, i + 1)
      case None => None
      case Some((v, j)) => DictBodyAt(tokens, j, acc[tokens[i].name := v])
  }

  /** The rest of an array from token `i`, after the elements `acc`: values up to "]". */
  function ArrayBodyAt(tokens: seq<Token>, i: nat, acc: seq<Tree>): (r: Option<(seq<Tree>, nat)>)
    requires i <= |tokens|
    ensures r.Some? ==> i < r.value.1 <= |tokens|
    decreases |tokens| - i, 1
  {
    if i == |tokens| then None
    else if tokens[i] == ArrayEnd then Some((acc, i + 1))
    else
      match ValueAt(tokens, i)
      case None => None
      case Some((v, j)) => ArrayBodyAt(tokens, j, acc + [v])
  }

  /** The value ending at `valueEnd` is followed by at most an `endobj` and then the end. */
  predicate ObjectEnds(tokens: seq<Token>, valueEnd: nat)
  {
    valueEnd == |tokens| || (valueEnd + 1 == |tokens| && tokens[valueEnd] == EndObjToken)
  }

  /** A whole object: "N G obj", one value, then an optional `endobj`. */
  function ObjectTree(tokens: seq<Token>): Option<Tree>
  {
    if |tokens| == 0 || !tokens[0].ObjNameToken? then None
    else
      match ValueAt(tokens, 1)
      case None => None
      case Some((t, j)) => if ObjectEnds(tokens, j) then Some(t) else None
  }

  /** `v`, looked up through the tables, is the tree `t`. */
  predicate Denotes(v: PdfValue, arrays: seq<seq<PdfValue>>, dicts: seq<map<string, PdfValue>>, t: Tree)
    decreases t
  {
    match t
    case Scalar(x) => v == x && !x.ArrayNode? && !x.DictNode?
    case ArrayTree(items) =>
      && v.ArrayNode? && v.arrayIndex < |arrays| && |arrays[v.arrayIndex]| == |items|
      && forall j :: 0 <= j < |items| ==> Denotes(arrays[v.arrayIndex][j], arrays, dicts, items[j])
    case DictTree(m) =>
      && v.DictNode? && v.dictIndex < |dicts| && dicts[v.dictIndex].Keys == m.Keys
      && forall k :: k in m ==> Denotes(dicts[v.dictIndex][k], arrays, dicts, m[k])
  }

  /** Appending to the tables keeps what a value denotes. */
  lemma {:induction false} DenotesExtended(v: PdfValue, arrays: seq<seq<PdfValue>>, dicts: seq<map<string, PdfValue>>,
                                           arrays2: seq<seq<PdfValue>>, dicts2: seq<map<string, PdfValue>>, t: Tree)
    requires Denotes(v, arrays, dicts, t)
    requires arrays <= arrays2
    requires dicts <= dicts2
    ensures Denotes(v, arrays2, dicts2, t)
    decreases t
  {
    match t
    case Scalar(_) =>
    case ArrayTree(items) =>
      forall j | 0 <= j < |items|
        ensures Denotes(arrays2[v.arrayIndex][j], arrays2, dicts2, items[j])
      {
        DenotesExtended(arrays[v.arrayIndex][j], arrays, dicts, arrays2, dicts2, items[j]);
      }
    case DictTree(m) =>
      forall k | k in m
        ensures Denotes(dicts2[v.dictIndex][k], arrays2, dicts2, m[k])
      {
        DenotesExtended(dicts[v.dictIndex][k], arrays, dicts, arrays2, dicts2, m[k]);
      }
  }

  /** A value that denotes a tree refers only to tables that exist. */
  lemma DenotesWithin(v: PdfValue, arrays: seq<seq<PdfValue>>, dicts: seq<map<string, PdfValue>>, t: Tree)
    requires Denotes(v, arrays, dicts, t)
    ensures RefersWithin(v, |arrays|, |dicts|)
  {
  }

  /** The pending entries of a dictionary under construction denote their trees. */
  predicate EntriesDenote(dict: map<string, PdfValue>, arrays: seq<seq<PdfValue>>, dicts: seq<map<string, PdfValue>>,
                          acc: map<string, Tree>)
  {
    dict.Keys == acc.Keys && forall k :: k in dict ==> Denotes(dict[k], arrays, dicts, acc[k])
  }

  /** The elements of an array under construction denote their trees. */
  predicate ItemsDenote(arr: seq<PdfValue>, arrays: seq<seq<PdfValue>>, dicts: seq<map<string, PdfValue>>,
                        acc: seq<Tree>)
  {
    |arr| == |acc| && forall j :: 0 <= j < |arr| ==> Denotes(arr[j], arrays, dicts, acc[j])
  }

  lemma {:induction false} EntriesExtended(dict: map<string, PdfValue>, arrays: seq<seq<PdfValue>>, dicts: seq<map<string, PdfValue>>,
                                           arrays2: seq<seq<PdfValue>>, dicts2: seq<map<string, PdfValue>>, acc: map<string, Tree>)
    requires EntriesDenote(dict, arrays, dicts, acc)
    requires arrays <= arrays2
    requires dicts <= dicts2
    ensures EntriesDenote(dict, arrays2, dicts2, acc)
  {
    forall k | k in dict
      ensures Denotes(dict[k], arrays2, dicts2, acc[k])
    {
      DenotesExtended(dict[k], arrays, dicts, arrays2, dicts2, acc[k]);
    }
  }

  lemma {:induction false} ItemsExtended(arr: seq<PdfValue>, arrays: seq<seq<PdfValue>>, dicts: seq<map<string, PdfValue>>,
                                         arrays2: seq<seq<PdfValue>>, dicts2: seq<map<string, PdfValue>>, acc: seq<Tree>)
    requires ItemsDenote(arr, arrays, dicts, acc)
    requires arrays <= arrays2
    requires dicts <= dicts2
    ensures ItemsDenote(arr, arrays2, dicts2, acc)
  {
    forall j | 0 <= j < |arr|
      ensures Denotes(arr[j], arrays2, dicts2, acc[j])
    {
      DenotesExtended(arr[j], arrays, dicts, arrays2, dicts2, acc[j]);
    }
  }

  /**
   * A dictionary under construction: the entries so far denote `acc`, refer
   * within the tables, and the rest of the body from `pos` completes `body`.
   */
  predicate DictProgress(tokens: seq<Token>, pos: nat, acc: map<string, Tree>, body: Option<(map<string, Tree>, nat)>,
                         dict: map<string, PdfValue>, arrays: seq<seq<PdfValue>>, dicts: seq<map<string, PdfValue>>)
  {
    && pos <= |tokens| && DictBodyAt(tokens, pos, acc) == body
    && EntriesDenote(dict, arrays, dicts, acc)
  }

  /** An array under construction, as for `DictProgress`. */
  predicate ArrayProgress(tokens: seq<Token>, pos: nat, acc: seq<Tree>, body: Option<(seq<Tree>, nat)>,
                          arr: seq<PdfValue>, arrays: seq<seq<PdfValue>>, dicts: seq<map<string, PdfValue>>)
  {
    && pos <= |tokens| && ArrayBodyAt(tokens, pos, acc) == body
    && ItemsDenote(arr, arrays, dicts, acc)
  }

  /** A name, then a parsed value, while the tables grew from `arrays0` and `dicts0`. */
  lemma DictEntryParsed(tokens: seq<Token>, keyAt: nat, acc: map<string, Tree>, body: Option<(map<string, Tree>, nat)>,
                        dict: map<string, PdfValue>, arrays0: seq<seq<PdfValue>>, dicts0: seq<map<string, PdfValue>>,
                        arrays: seq<seq<PdfValue>>, dicts: seq<map<string, PdfValue>>, v: PdfValue)
    requires DictProgress(tokens, keyAt, acc, body, dict, arrays0, dicts0)
    requires keyAt < |tokens| && tokens[keyAt].NameToken? && ValueAt(tokens, keyAt + 1).Some?
    requires arrays0 <= arrays
    requires dicts0 <= dicts
    requires Denotes(v, arrays, dicts, ValueAt(tokens, keyAt + 1).value.0) 
    ensures DictProgress(tokens, ValueAt(tokens, keyAt + 1).value.1, acc[tokens[keyAt].name := ValueAt(tokens, keyAt + 1).value.0],
                         body, dict[tokens[keyAt].name := v], arrays, dicts)
  {
    EntriesExtended(dict, arrays0, dicts0, arrays, dicts, acc);
  }

  /** ">>" closes the body; the finished dictionary can join the tables. */
  lemma DictClosed(tokens: seq<Token>, pos: nat, acc: map<string, Tree>, body: Option<(map<string, Tree>, nat)>,
                   dict: map<string, PdfValue>, arrays: seq<seq<PdfValue>>, dicts: seq<map<string, PdfValue>>)
    requires DictProgress(tokens, pos, acc, body, dict, arrays, dicts) && WellFormedTables(arrays, dicts)
    requires pos < |tokens| && tokens[pos] == DictEnd
    ensures body == Some((acc, pos + 1))
    ensures WellFormedTables(arrays, dicts + [dict])
    ensures Denotes(DictNode(|dicts|), arrays, dicts + [dict], DictTree(acc))
  {
    forall k | k in dict
      ensures RefersWithin(dict[k], |arrays|, |dicts|)
    {
      DenotesWithin(dict[k], arrays, dicts, acc[k]);
    }
    EntriesExtended(dict, arrays, dicts, arrays, dicts + [dict], acc);
  }

  /** A parsed value, while the tables grew from `arrays0` and `dicts0`. */
  lemma ArrayItemParsed(tokens: seq<Token>, at: nat, acc: seq<Tree>, body: Option<(seq<Tree>, nat)>,
                        arr: seq<PdfValue>, arrays0: seq<seq<PdfValue>>, dicts0: seq<map<string, PdfValue>>,
                        arrays: seq<seq<PdfValue>>, dicts: seq<map<string, PdfValue>>, v: PdfValue)
    requires ArrayProgress(tokens, at, acc, body, arr, arrays0, dicts0)
    requires at < |tokens| && tokens[at] != ArrayEnd && ValueAt(tokens, at).Some?
    requires arrays0 <= arrays
    requires dicts0 <= dicts
    requires Denotes(v, arrays, dicts, ValueAt(tokens, at).value.0) 
    ensures ArrayProgress(tokens, ValueAt(tokens, at).value.1, acc + [ValueAt(tokens, at).value.0], body, arr + [v], arrays, dicts)
  {
    ItemsExtended(arr, arrays0, dicts0, arrays, dicts, acc);
  }

  /** "]" closes the body; the finished array can join the tables. */
  lemma ArrayClosed(tokens: seq<Token>, pos: nat, acc: seq<Tree>, body: Option<(seq<Tree>, nat)>,
                    arr: seq<PdfValue>, arrays: seq<seq<PdfValue>>, dicts: seq<map<string, PdfValue>>)
    requires ArrayProgress(tokens, pos, acc, body, arr, arrays, dicts) && WellFormedTables(arrays, dicts)
    requires pos < |tokens| && tokens[pos] == ArrayEnd
    ensures body == Some((acc, pos + 1))
    ensures WellFormedTables(arrays + [arr], dicts)
    ensures Denotes(ArrayNode(|arrays|), arrays + [arr], dicts, ArrayTree(acc))
  {
    forall j | 0 <= j < |arr|
      ensures RefersWithin(arr[j], |arrays|, |dicts|)
    {
      DenotesWithin(arr[j], arrays, dicts, acc[j]);
    }
    ItemsExtended(arr, arrays, dicts, arrays + [arr], dicts, acc);
  }

  class Parser {
    const tokens: seq<Token>
    var pos: nat
    var arrays: seq<seq<PdfValue>>
    var dicts: seq<map<string, PdfValue>>

    /** The token in `pending`; None once the lexer has finished. */
    function Pending(): Option<Token>
      reads this
    {
      if pos < |tokens| then Some(tokens[pos]) else None
    }

    ghost predicate Valid()
      reads this
    {
      pos <= |tokens| && WellFormedTables(arrays, dicts)
    }

    /** The tables only grow: what was stored stays where it was. */
    twostate predicate Extends()
      reads this
    {
      old(arrays) <= arrays
      && old(dicts) <= dicts
    }

    constructor(lexed: seq<Token>)
      ensures Valid() && tokens == lexed && pos == 0 && arrays == [] && dicts == []
    {
      tokens := lexed;
      pos := 0;
      arrays := [];
      dicts := [];
    }

    /** `lex.next()` after an `accept`. */
    method Advance()
      requires Valid() && pos < |tokens|
      modifies this
      ensures Valid() && pos == old(pos) + 1 && arrays == old(arrays) && dicts == old(dicts)
    {
      pos := pos + 1;
    }

    /**
     * `parse`: an "N G obj" token, exactly one value, an optional `endobj`,
     * and then nothing. The object holds what the tokens describe.
     */
    method Parse() returns (r: Option<PdfObjectDefinition>)
      requires Valid() && pos == 0 && arrays == [] && dicts == []
      modifies this
      ensures r.Some? <==> ObjectTree(tokens).Some?
      ensures r.Some? ==> && r.value.number == tokens[0].number && r.value.version == tokens[0].version
                          && WellFormed(r.value)
                          && Denotes(r.value.root, r.value.arrays, r.value.dicts, ObjectTree(tokens).value)
                          && pos == |tokens|
    {
      if !(Pending().Some? && Pending().value.ObjNameToken?) {
        return None;
      }
      var root := Pending().value;
      Advance();
      var robj := ParseValue();
      if robj.None? {
        return None;
      }
      ghost var valueEnd := pos;
      if Pending() == Some(EndObjToken) {
        Advance();
      }
      if Pending().Some? {
        assert !ObjectEnds(tokens, valueEnd);
        return None;
      }
      assert ObjectEnds(tokens, valueEnd);
      r := Some(PdfObjectDefinition(root.number, root.version, arrays, dicts, robj.value));
    }

    /**
     * `parse_value`: a scalar token is its node; "<<" and "[" start a
     * dictionary or an array, stored in its table and referenced by index.
     * Anything else fails.
     */
    method ParseValue() returns (r: Option<PdfValue>)
      requires Valid()
      modifies this
      ensures Valid() && Extends()
      ensures r.Some? <==> ValueAt(tokens, old(pos)).Some?
      ensures r.Some? ==> && pos == ValueAt(tokens, old(pos)).value.1
                          && Denotes(r.value, arrays, dicts, ValueAt(tokens, old(pos)).value.0)
                          && RefersWithin(r.value, |arrays|, |dicts|)
      decreases |tokens| - pos, 0
    {
      if Pending().None? {
        return None;
      }
      var t := Pending().value;
      var node := ScalarNode(t);
      if node.Some? {
        Advance();
        return node;
      }
      if t == DictStart {
        Advance();
        var dictId := ParseDict();
        if dictId.None? {
          return None;
        }
        return Some(DictNode(dictId.value));
      }
      if t == ArrayStart {
        Advance();
        var arrayId := ParseArray();
        if arrayId.None? {
          return None;
        }
        return Some(ArrayNode(arrayId.value));
      }
      r := None;
    }

    /**
     * `parse_dict`: name keys, each followed by a value, until ">>". A later
     * value for a key replaces an earlier one. The finished dictionary is
     * appended to the table and its index returned.
     */
    method ParseDict() returns (r: Option<nat>)
      requires Valid()
      modifies this
      ensures Valid() && Extends()
      ensures r.Some? <==> DictBodyAt(tokens, old(pos), map[]).Some?
      ensures r.Some? ==> && r.value == |dicts| - 1
                          && pos == DictBodyAt(tokens, old(pos), map[]).value.1
                          && Denotes(DictNode(r.value), arrays, dicts, DictTree(DictBodyAt(tokens, old(pos), map[]).value.0))
      decreases |tokens| - pos, 1
    {
      var dict: map<string, PdfValue> := map[];
      ghost var acc: map<string, Tree> := map[];
      ghost var body := DictBodyAt(tokens, pos, map[]);
      while true
        invariant Valid() && Extends()
        invariant DictProgress(tokens, pos, acc, body, dict, arrays, dicts)
        decreases |tokens| - pos
      {
        if Pending() == Some(DictEnd) {
          DictClosed(tokens, pos, acc, body, dict, arrays, dicts);
          Advance();
          dicts := dicts + [dict];
          return Some(|dicts| - 1);
        }
        if !(Pending().Some? && Pending().value.NameToken?) {
          return None;
        }
        var key := Pending().value.name;
        ghost var keyAt, arrays0, dicts0 := pos, arrays, dicts;
        Advance();
        var v := ParseValue();
        if v.None? {
          return None;
        }
        DictEntryParsed(tokens, keyAt, acc, body, dict, arrays0, dicts0, arrays, dicts, v.value);
        acc := acc[key := ValueAt(tokens, keyAt + 1).value.0];
        dict := dict[key := v.value];
      }
    }

    /** `parse_array`: values until "]"; the finished array is appended to the table. */
    method ParseArray() returns (r: Option<nat>)
      requires Valid()
      modifies this
      ensures Valid() && Extends()
      ensures r.Some? <==> ArrayBodyAt(tokens, old(pos), []).Some?
      ensures r.Some? ==> && r.value == |arrays| - 1
                          && pos == ArrayBodyAt(tokens, old(pos), []).value.1
                          && Denotes(ArrayNode(r.value), arrays, dicts, ArrayTree(ArrayBodyAt(tokens, old(pos), []).value.0))
      decreases |tokens| - pos, 1
    {
      var arr: seq<PdfValue> := [];
      ghost var acc: seq<Tree> := [];
      ghost var body := ArrayBodyAt(tokens, pos, []);
      while true
        invariant Valid() && Extends()
        invariant ArrayProgress(tokens, pos, acc, body, arr, arrays, dicts)
        decreases |tokens| - pos
      {
        if Pending() == Some(ArrayEnd) {
          ArrayClosed(tokens, pos, acc, body, arr, arrays, dicts);
          Advance();
          arrays := arrays + [arr];
          return Some(|arrays| - 1);
        }
        ghost var at, arrays0, dicts0 := pos, arrays, dicts;
        var v := ParseValue();
        if v.None? {
          return None;
        }
        ArrayItemParsed(tokens, at, acc, body, arr, arrays0, dicts0, arrays, dicts, v.value);
        acc := acc + [ValueAt(tokens, at).value.0];
        arr := arr + [v.value];
      }
    }
  }

  // ---------------------------------------------------------------------
  // PrettyPrinter::print_dict key order

  /** `tolower` on ASCII. */
  function LowerAscii(c: char): char
  {
    if 'A' <= c <= 'Z' then (c as int + 32) as char else c
  }

  /** `strcasecmp(a, b) < 0`. */
  predicate CaseLess(a: string, b: string)
  {
    if a == [] then b != []
    else if b == [] then false
    else if LowerAscii(a[0]) != LowerAscii(b[0]) then LowerAscii(a[0]) < LowerAscii(b[0])
    else CaseLess(a[1..], b[1..])
  }

  lemma {:induction false} CaseLessIrreflexive(a: string)
    ensures !CaseLess(a, a)
  {
    if a != [] {
      CaseLessIrreflexive(a[1..]);
    }
  }

  lemma {:induction false} CaseLessTransitive(a: string, b: string, c: string)
    requires CaseLess(a, b) && CaseLess(b, c)
    ensures CaseLess(a, c)
  {
    if a != [] && b != [] && c != [] {
      if LowerAscii(a[0]) == LowerAscii(b[0]) && LowerAscii(b[0]) == LowerAscii(c[0]) {
        CaseLessTransitive(a[1..], b[1..], c[1..]);
      }
    }
  }

  /** No key is listed after a key that sorts case-insensitively after it. */
  predicate SortedByCase(keys: seq<string>)
  {
    forall i, j :: 0 <= i < j < |keys| ==> !CaseLess(keys[j], keys[i])
  }

  function InsertByCase(keys: seq<string>, x: string): (r: seq<string>)
    requires SortedByCase(keys)
    ensures SortedByCase(r) && multiset(r) == multiset(keys) + multiset{x}
  {
    if keys == [] then [x]
    else if CaseLess(x, keys[0]) then
      InsertBeforeFirst(keys, x);
      [x] + keys
    else
      var rest := InsertByCase(keys[1..], x);
      assert keys == [keys[0]] + keys[1..];
      InsertAfterFirst(keys, x, rest);
      [keys[0]] + rest
  }

  lemma {:induction false} InsertBeforeFirst(keys: seq<string>, x: string)
    requires keys != [] && SortedByCase(keys) && CaseLess(x, keys[0])
    ensures SortedByCase([x] + keys)
  {
    var r := [x] + keys;
    forall i, j | 0 <= i < j < |r|
      ensures !CaseLess(r[j], r[i])
    {
      if i == 0 && CaseLess(r[j], x) {
        if j == 1 {
          CaseLessTransitive(x, keys[0], x);
          CaseLessIrreflexive(x);
        } else {
          assert !CaseLess(keys[j - 1], keys[0]);
          CaseLessTransitive(r[j], x, keys[0]);
        }
      }
    }
  }

  lemma {:induction false} InsertAfterFirst(keys: seq<string>, x: string, rest: seq<string>)
    requires keys != [] && SortedByCase(keys) && !CaseLess(x, keys[0])
    requires SortedByCase(rest) && multiset(rest) == multiset(keys[1..]) + multiset{x}
    ensures SortedByCase([keys[0]] + rest)
  {
    var r := [keys[0]] + rest;
    forall i, j | 0 <= i < j < |r|
      ensures !CaseLess(r[j], r[i])
    {
      if i == 0 {
        assert r[j] in multiset(rest);
        if r[j] != x {
          assert r[j] in multiset(keys[1..]);
          var k :| 0 <= k < |keys[1..]| && keys[1..][k] == r[j];
          assert keys[k + 1] == r[j];
        }
      }
    }
  }

  /**
   * The key order of `print_dict`: every key once, sorted with `strcasecmp`.
   * Keys equal up to case may come in either order, as `std::sort` is not stable.
   */
  method SortedDictKeys(d: map<string, PdfValue>) returns (keys: seq<string>)
    ensures SortedByCase(keys)
    ensures multiset(keys) == multiset(d.Keys)
  {
    keys := [];
    var rest := d.Keys;
    while rest != {}
      invariant rest <= d.Keys
      invariant SortedByCase(keys)
      invariant multiset(keys) + multiset(rest) == multiset(d.Keys)
      decreases |rest|
    {
      var k :| k in rest;
      keys := InsertByCase(keys, k);
      assert multiset(rest) == multiset(rest - {k}) + multiset{k};
      rest := rest - {k};
    }
  }
}
