// The XML writer used for XMP metadata (src/xmlformatter.cpp) and the
// element-content quoting it relies on (src/utils.cpp).
//
// Conditions on which the source aborts are preconditions here. The class
// writes what the code writes: its tag-name check lets every name through
// and its quoting turns '&' into "&quot;"; the corrected check and quoting
// are defined beside it.

module XmlFormatter {
  import opened Utils

  datatype XmlState = Basic | TagOpen

  predicate IsTagChar(c: char)
  {
    ('a' <= c <= 'z') || ('A' <= c <= 'Z') || ('0' <= c <= '9') || c == ':'
  }

  /** The tag-name check the code evidently means: letters, digits and ':' only. */
  predicate IsValidTagName(name: string)
  {
    forall i :: 0 <= i < |name| ==> IsTagChar(name[i])
  }

  /**
   * The digit test of `is_valid_tag_name` as written, `c >= '0' || c <= '9'`,
   * which every character passes.
   */
  predicate PassesDigitTestAsWritten(c: char)
  {
    c >= '0' || c <= '9'
  }

  /** `is_valid_tag_name` as written: a scan that accepts every character. */
  method IsValidTagNameAsWritten(name: string) returns (valid: bool)
    ensures valid
  {
    var i := 0;
    while i < |name|
      invariant 0 <= i <= |name|
    {
      var c := name[i];
      if 'a' <= c <= 'z' || 'A' <= c <= 'Z' {
        i := i + 1;
        continue;
      }
      if PassesDigitTestAsWritten(c) {
        i := i + 1;
        continue;
      }
      if c == ':' {
        i := i + 1;
        continue;
      }
      assert false;
      return false;
    }
    return true;
  }

  /** The check as written accepts "a b", which has a character no tag name may contain. */
  method SpaceInTagNameAccepted() returns (valid: bool)
    ensures valid && !IsValidTagName("a b")
  {
    assert !IsTagChar("a b"[1]);
    valid := IsValidTagNameAsWritten("a b");
  }

  /** `is_valid_tag_name` corrected: the same scan with the digit test `'0' <= c <= '9'`. */
  method CheckTagName(name: string) returns (valid: bool)
    ensures valid <==> IsValidTagName(name)
  {
    var i := 0;
    while i < |name|
      invariant 0 <= i <= |name|
      invariant forall k :: 0 <= k < i ==> IsTagChar(name[k])
    {
      if !IsTagChar(name[i]) {
        return false;
      }
      i := i + 1;
    }
    return true;
  }

  /** `quote_xml_element_data_into` as written: '&' becomes "&quot;". */
  function XmlQuoteCharAsWritten(c: char): (r: string)
    ensures c != '<' && c != '>' && c != '&' ==> r == [c]
    ensures r == XmlQuoteChar(c) <==> c != '&'
  {
    if c == '<' then "&lt;" else if c == '>' then "&gt;" else if c == '&' then "&quot;" else [c]
  }

  /** The quoting evidently intended: '&' becomes "&amp;" (section 4.6 of the XML 1.0 recommendation). */
  function XmlQuoteChar(c: char): (r: string)
    ensures c != '<' && c != '>' && c != '&' ==> r == [c]
    ensures c == '<' || c == '>' || c == '&' ==> |r| >= 4 && r[0] == '&' && r[|r| - 1] == ';'
  {
    if c == '<' then "&lt;" else if c == '>' then "&gt;" else if c == '&' then "&amp;" else [c]
  }

  function XmlQuoteAsWritten(s: string): string
  {
    FlatMap(s, XmlQuoteCharAsWritten)
  }

  function XmlQuote(s: string): string
  {
    FlatMap(s, XmlQuoteChar)
  }

  /** An XML reader's replacement of the predefined entities. */
  function XmlUnquote(s: string): string
    decreases |s|
  {
    if s == [] then []
    else if |s| >= 4 && s[..4] == "&lt;" then "<" + XmlUnquote(s[4..])
    else if |s| >= 4 && s[..4] == "&gt;" then ">" + XmlUnquote(s[4..])
    else if |s| >= 5 && s[..5] == "&amp;" then "&" + XmlUnquote(s[5..])
    else if |s| >= 6 && s[..6] == "&quot;" then "\"" + XmlUnquote(s[6..])
    else [s[0]] + XmlUnquote(s[1..])
  }

  /** Quoting is undone by the reader. */
  lemma {:induction false} XmlUnquoteQuoted(s: string)
    ensures XmlUnquote(XmlQuote(s)) == s
    decreases |s|
  {
    if s != [] {
      var rest := XmlQuote(s[1..]);
      assert XmlQuote(s) == XmlQuoteChar(s[0]) + rest;
      XmlUnquoteQuoted(s[1..]);
      UnquoteQuotedChar(s[0], rest);
      assert s == [s[0]] + s[1..];
    }
  }

  /** No quoted character starts with an entity other than the one it produced. */
  lemma {:induction false} UnquoteQuotedChar(c: char, rest: string)
    ensures XmlUnquote(XmlQuoteChar(c) + rest) == [c] + XmlUnquote(rest)
  {
    if c == '<' {
      UnquoteEntity("&lt;", rest);
    } else if c == '>' {
      UnquoteEntity("&gt;", rest);
    } else if c == '&' {
      UnquoteAmp(rest);
    } else {
      UnquotePlain(c, rest);
    }
  }

  /** "&lt;" and "&gt;" are the first two entities the reader tries. */
  lemma {:induction false} UnquoteEntity(e: string, rest: string)
    requires e == "&lt;" || e == "&gt;"
    ensures XmlUnquote(e + rest) == (if e == "&lt;" then "<" else ">") + XmlUnquote(rest)
  {
    var t := e + rest;
    assert t[..4] == e && t[4..] == rest;
  }

  /** "&amp;" is not mistaken for "&lt;" or "&gt;". */
  lemma {:induction false} UnquoteAmp(rest: string)
    ensures XmlUnquote("&amp;" + rest) == "&" + XmlUnquote(rest)
  {
    var t := "&amp;" + rest;
    assert t[1] == 'a' && t[..4][1] == 'a';
    assert "&lt;"[1] == 'l' && "&gt;"[1] == 'g';
    assert t[..5] == "&amp;" && t[5..] == rest;
  }

  /** A character other than '&' starts no entity. */
  lemma {:induction false} UnquotePlain(c: char, rest: string)
    requires c != '&'
    ensures XmlUnquote([c] + rest) == [c] + XmlUnquote(rest)
  {
    var t := [c] + rest;
    assert t[0] == c && t[1..] == rest;
    assert "&lt;"[0] == '&' && "&gt;"[0] == '&' && "&amp;"[0] == '&' && "&quot;"[0] == '&';
    assert |t| >= 4 ==> t[..4][0] == c;
    assert |t| >= 5 ==> t[..5][0] == c;
    assert |t| >= 6 ==> t[..6][0] == c;
  }

  /** As written, the text "&" is read back as a double quote. */
  lemma {:induction false} AmpersandReadBackAsQuote()
    ensures XmlUnquote(XmlQuoteAsWritten("&")) == "\""
    ensures XmlUnquote(XmlQuote("&")) == "&"
  {
    assert XmlQuoteAsWritten("&") == "&quot;";
    var t := "&quot;";
    assert t[..4][1] == 'q' && "&lt;"[1] == 'l' && "&gt;"[1] == 'g' && t[..5][1] == 'q' && "&amp;"[1] == 'a';
    assert t[..4] != "&lt;" && t[..4] != "&gt;" && t[..5] != "&amp;" && t[..6] == "&quot;";
    assert XmlUnquote(t[6..]) == [];
    XmlUnquoteQuoted("&");
  }

  /** On text without '&' the quoting as written and the corrected quoting agree. */
  lemma {:induction false} QuotingAgreesWithoutAmpersand(s: string)
    requires forall i :: 0 <= i < |s| ==> s[i] != '&'
    ensures XmlQuoteAsWritten(s) == XmlQuote(s)
    decreases |s|
  {
    if s != [] {
      QuotingAgreesWithoutAmpersand(s[1..]);
      assert XmlQuoteAsWritten(s) == XmlQuoteCharAsWritten(s[0]) + XmlQuoteAsWritten(s[1..]);
      assert XmlQuote(s) == XmlQuoteChar(s[0]) + XmlQuote(s[1..]);
    }
  }

  /** Text without '&', quoted as written, reads back as itself. */
  lemma QuotedAsWrittenReadsBack(s: string)
    requires forall i :: 0 <= i < |s| ==> s[i] != '&'
    ensures XmlUnquote(XmlQuoteAsWritten(s)) == s
  {
    QuotingAgreesWithoutAmpersand(s);
    XmlUnquoteQuoted(s);
  }

  /** The attribute escaping of `add_tag_attribute`: '"' becomes backslash, quote. */
  function AttributeEscapeChar(c: char): (r: string)
    ensures c != '"' ==> r == [c]
    ensures c == '"' ==> r == "\\\""
  {
    if c == '"' then "\\\"" else [c]
  }

  function AttributeEscape(value: string): string
  {
    FlatMap(value, AttributeEscapeChar)
  }

  /** Reads an escaped attribute value back. */
  function AttributeUnescape(s: string): string
    decreases |s|
  {
    if s == [] then []
    else if |s| >= 2 && s[0] == '\\' && s[1] == '"' then "\"" + AttributeUnescape(s[2..])
    else [s[0]] + AttributeUnescape(s[1..])
  }

  lemma {:induction false} AttributeEscapeStartsPlain(s: string)
    requires s != []
    ensures AttributeEscape(s)[0] != '"'
  {
    assert AttributeEscape(s) == AttributeEscapeChar(s[0]) + AttributeEscape(s[1..]);
  }

  /** The escaped value holds no bare quote that could end the attribute, and reads back. */
  lemma {:induction false} AttributeRoundTrip(value: string)
    ensures AttributeUnescape(AttributeEscape(value)) == value
    decreases |value|
  {
    if value != [] {
      var c := value[0];
      var rest := AttributeEscape(value[1..]);
      var t := AttributeEscapeChar(c) + rest;
      assert AttributeEscape(value) == t;
      AttributeRoundTrip(value[1..]);
      if c == '"' {
        assert t[2..] == rest;
      } else {
        if c == '\\' && value[1..] != [] {
          AttributeEscapeStartsPlain(value[1..]);
          assert t[1] == rest[0];
        }
        assert t[1..] == rest;
      }
    }
  }

  function Spaces(n: nat): (r: string)
    ensures |r| == n && forall i :: 0 <= i < n ==> r[i] == ' '
  {
    if n == 0 then [] else Spaces(n - 1) + " "
  }

  /** The line break and indentation written before a tag that follows another tag. */
  function BreakAfterTag(output: string, indent: string): string
  {
    if |output| > 0 && output[|output| - 1] == '>' then "\n" + indent else ""
  }

  class XMLFormatter {
    var output: string
    var indent: string
    var state: XmlState
    /** The names of the elements opened and not yet closed, outermost first. */
    ghost var openTags: seq<string>
    /** The name of the tag being written while the state is TagOpen. */
    ghost var pendingTag: string

    /** Two spaces of indentation per open element. */
    ghost predicate Valid()
      reads this
    {
      indent == Spaces(2 * |openTags|)
    }

    constructor()
      ensures Valid() && output == [] && indent == [] && state == Basic && openTags == []
    {
      output := [];
      indent := [];
      state := Basic;
      openTags := [];
      pendingTag := [];
    }

    /** `add_text_unchecked`. */
    method AddTextUnchecked(txt: string)
      modifies this
      ensures output == old(output) + txt
      ensures indent == old(indent) && state == old(state) && openTags == old(openTags) && pendingTag == old(pendingTag)
    {
      output := output + txt;
    }

    /**
     * `start_tag`: only between tags; a tag following a tag goes on a new,
     * indented line. The name check as written passes every name
     * (`IsValidTagNameAsWritten`), so no name is refused.
     */
    method StartTag(name: string)
      requires Valid() && state == Basic
      modifies this
      ensures Valid() && state == TagOpen && pendingTag == name
      ensures output == old(output) + BreakAfterTag(old(output), old(indent)) + "<" + name
      ensures indent == old(indent) && openTags == old(openTags)
    {
      if |output| > 0 && output[|output| - 1] == '>' {
        output := output + "\n" + indent;
      }
      output := output + "<" + name;
      state := TagOpen;
      pendingTag := name;
    }

    /** `add_tag_attribute`: only inside an open tag; as in `StartTag`, any name passes. */
    method AddTagAttribute(name: string, value: string)
      requires Valid() && state == TagOpen
      modifies this
      ensures Valid() && state == TagOpen
      ensures output == old(output) + " " + name + "=\"" + AttributeEscape(value) + "\""
      ensures indent == old(indent) && openTags == old(openTags) && pendingTag == old(pendingTag)
    {
      output := output + " " + name + "=\"";
      var i := 0;
      while i < |value|
        invariant 0 <= i <= |value|
        invariant output == old(output) + " " + name + "=\"" + FlatMap(value[..i], AttributeEscapeChar)
        invariant indent == old(indent) && state == old(state) && openTags == old(openTags) && pendingTag == old(pendingTag)
      {
        ghost var before := output;
        if value[i] == '"' {
          output := output + "\\\"";
        } else {
          output := output + [value[i]];
        }
        FlatMapStep(old(output) + " " + name + "=\"", value, i, AttributeEscapeChar, before, output);
        i := i + 1;
      }
      assert value[..i] == value;
      output := output + "\"";
    }

    /** `finish_tag`: the element stays open and the indentation grows. */
    method FinishTag()
      requires Valid() && state == TagOpen
      modifies this
      ensures Valid() && state == Basic
      ensures output == old(output) + ">" && indent == old(indent) + "  "
      ensures openTags == old(openTags) + [old(pendingTag)]
    {
      output := output + ">";
      indent := indent + "  ";
      openTags := openTags + [pendingTag];
      state := Basic;
      assert Spaces(2 * |openTags|) == Spaces(2 * |old(openTags)|) + "  ";
    }

    /** `finish_standalone_tag`: the element is complete. */
    method FinishStandaloneTag()
      requires Valid() && state == TagOpen
      modifies this
      ensures Valid() && state == Basic
      ensures output == old(output) + "/>" && indent == old(indent) && openTags == old(openTags)
    {
      output := output + "/>";
      state := Basic;
    }

    /**
     * `add_end_tag`: closes the innermost open element. The name written is
     * the one given; the code does not compare it with the open element.
     * After the outermost element a newline follows. As in `StartTag`, any
     * name passes the check.
     */
    method AddEndTag(tag: string)
      requires Valid() && state == Basic && |indent| >= 2
      modifies this
      ensures Valid() && state == Basic
      ensures openTags == old(openTags)[..|old(openTags)| - 1] && indent + "  " == old(indent)
      ensures output == old(output) + BreakAfterTag(old(output), old(indent)) + "</" + tag + ">"
                          + (if indent == [] then "\n" else "")
    {
      if |output| > 0 && output[|output| - 1] == '>' {
        output := output + "\n" + indent;
      }
      output := output + "</" + tag + ">";
      indent := indent[..|indent| - 2];
      openTags := openTags[..|openTags| - 1];
      assert Spaces(2 * |old(openTags)|) == Spaces(2 * |openTags|) + "  ";
      if indent == [] {
        output := output + "\n";
      }
    }

    /**
     * `add_content`: element data, quoted as the code quotes it, only between
     * tags. Text without '&' reads back as itself (`QuotedAsWrittenReadsBack`).
     */
    method AddContent(content: string)
      requires Valid() && state == Basic
      modifies this
      ensures Valid() && state == Basic
      ensures output == old(output) + XmlQuoteAsWritten(content)
      ensures indent == old(indent) && openTags == old(openTags)
    {
      var i := 0;
      while i < |content|
        invariant 0 <= i <= |content|
        invariant output == old(output) + FlatMap(content[..i], XmlQuoteCharAsWritten)
        invariant indent == old(indent) && state == old(state) && openTags == old(openTags)
      {
        ghost var before := output;
        var c := content[i];
        if c == '<' {
          output := output + "&lt;";
        } else if c == '>' {
          output := output + "&gt;";
        } else if c == '&' {
          output := output + "&quot;";
        } else {
          output := output + [c];
        }
        FlatMapStep(old(output), content, i, XmlQuoteCharAsWritten, before, output);
        i := i + 1;
      }
      assert content[..i] == content;
    }

    /** `steal`: every element must be closed; the output is handed out. */
    method Steal() returns (document: string)
      requires Valid() && indent == []
      modifies this
      ensures openTags == [] && document == old(output) && output == []
    {
      document := output;
      output := [];
    }
  }
}
