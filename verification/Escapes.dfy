/**
 The escapes of the OAuth gateway page: text for HTML, and JSON for an inline
 script. Each is a chain of replacements; the order matters, since a later
 replacement sees what an earlier one wrote.
 */
module Escapes {
  import opened Prelude
  import opened Texts

  // ---------------------------------------------------------------------
  // HTML
  // ---------------------------------------------------------------------

  function HtmlEscape(s: string): string {
    ReplaceAll(ReplaceAll(ReplaceAll(ReplaceAll(ReplaceAll(s,
      ['&'], "&amp;"), ['<'], "&lt;"), ['>'], "&gt;"), ['"'], "&quot;"), ['\''], "&#39;")
  }

  /** What the chain makes of one character. */
  function HtmlChar(c: char): string {
    if c == '&' then "&amp;"
    else if c == '<' then "&lt;"
    else if c == '>' then "&gt;"
    else if c == '"' then "&quot;"
    else if c == '\'' then "&#39;"
    else [c]
  }

  lemma ChainOfConcat(a: string, b: string)
    ensures HtmlEscape(a + b) == HtmlEscape(a) + HtmlEscape(b)
  {
    var a1, b1 := ReplaceAll(a, ['&'], "&amp;"), ReplaceAll(b, ['&'], "&amp;");
    ReplaceOfConcat(a, b, '&', "&amp;");
    var a2, b2 := ReplaceAll(a1, ['<'], "&lt;"), ReplaceAll(b1, ['<'], "&lt;");
    ReplaceOfConcat(a1, b1, '<', "&lt;");
    var a3, b3 := ReplaceAll(a2, ['>'], "&gt;"), ReplaceAll(b2, ['>'], "&gt;");
    ReplaceOfConcat(a2, b2, '>', "&gt;");
    var a4, b4 := ReplaceAll(a3, ['"'], "&quot;"), ReplaceAll(b3, ['"'], "&quot;");
    ReplaceOfConcat(a3, b3, '"', "&quot;");
    ReplaceOfConcat(a4, b4, '\'', "&#39;");
  }

  /** One replacement on one character. */
  lemma ReplaceOne(x: char, c: char, with: string)
    ensures ReplaceAll([x], [c], with) == if x == c then with else [x]
  {
    assert [x][1..] == "" && [x][..1] == [x];
    assert with + "" == with;
  }

  lemma HtmlOne(c: char)
    ensures HtmlEscape([c]) == HtmlChar(c)
  {
    hide ReplaceAll;
    ReplaceOne(c, '&', "&amp;");
    ReplaceOne(c, '<', "&lt;");
    ReplaceOne(c, '>', "&gt;");
    ReplaceOne(c, '"', "&quot;");
    ReplaceOne(c, '\'', "&#39;");
    var s := HtmlChar(c);
    if c == '&' || c == '<' || c == '>' || c == '"' {
      ReplaceAbsentChar(s, '<', "&lt;");
      ReplaceAbsentChar(s, '>', "&gt;");
      ReplaceAbsentChar(s, '"', "&quot;");
      ReplaceAbsentChar(s, '\'', "&#39;");
    }
  }

  /** The chain of replacements is one pass, character by character. */
  lemma {:induction false} HtmlIsOnePass(s: string)
    ensures HtmlEscape(s) == Subst(s, HtmlChar)
    decreases |s|
  {
    if s != "" {
      assert s == [s[0]] + s[1..];
      ChainOfConcat([s[0]], s[1..]);
      HtmlOne(s[0]);
      HtmlIsOnePass(s[1..]);
    }
  }

  predicate HtmlSpecial(c: char) { c == '<' || c == '>' || c == '"' || c == '\'' }

  /** What a browser reads: the five references stand for their characters. */
  function HtmlRead(t: string): string {
    if t == "" then ""
    else if StartsWith(t, "&amp;") then ['&'] + HtmlRead(t[5..])
    else if StartsWith(t, "&lt;") then ['<'] + HtmlRead(t[4..])
    else if StartsWith(t, "&gt;") then ['>'] + HtmlRead(t[4..])
    else if StartsWith(t, "&quot;") then ['"'] + HtmlRead(t[6..])
    else if StartsWith(t, "&#39;") then ['\''] + HtmlRead(t[5..])
    else [t[0]] + HtmlRead(t[1..])
  }

  lemma Differs(t: string, w: string, k: nat)
    requires k < |w| && k < |t| && t[k] != w[k]
    ensures !StartsWith(t, w)
  {
    assert |w| <= |t| ==> t[..|w|][k] == t[k];
  }

  lemma Starts(w: string, rest: string)
    ensures StartsWith(w + rest, w) && (w + rest)[|w|..] == rest
  {
  }

  lemma ReadsAmp(rest: string)
    ensures HtmlRead("&amp;" + rest) == ['&'] + HtmlRead(rest)
  {
    Starts("&amp;", rest);
  }

  lemma ReadsLt(rest: string)
    ensures HtmlRead("&lt;" + rest) == ['<'] + HtmlRead(rest)
  {
    Starts("&lt;", rest);
    Differs("&lt;" + rest, "&amp;", 1);
  }

  lemma ReadsGt(rest: string)
    ensures HtmlRead("&gt;" + rest) == ['>'] + HtmlRead(rest)
  {
    Starts("&gt;", rest);
    Differs("&gt;" + rest, "&amp;", 1);
    Differs("&gt;" + rest, "&lt;", 1);
  }

  lemma ReadsQuot(rest: string)
    ensures HtmlRead("&quot;" + rest) == ['"'] + HtmlRead(rest)
  {
    var t := "&quot;" + rest;
    Starts("&quot;", rest);
    Differs(t, "&amp;", 1);
    Differs(t, "&lt;", 1);
    Differs(t, "&gt;", 1);
  }

  lemma ReadsApos(rest: string)
    ensures HtmlRead("&#39;" + rest) == ['\''] + HtmlRead(rest)
  {
    var t := "&#39;" + rest;
    Starts("&#39;", rest);
    Differs(t, "&amp;", 1);
    Differs(t, "&lt;", 1);
    Differs(t, "&gt;", 1);
    Differs(t, "&quot;", 1);
  }

  lemma ReadsChar(c: char, rest: string)
    ensures HtmlRead(HtmlChar(c) + rest) == [c] + HtmlRead(rest)
  {
    if c == '&' {
      ReadsAmp(rest);
    } else if c == '<' {
      ReadsLt(rest);
    } else if c == '>' {
      ReadsGt(rest);
    } else if c == '"' {
      ReadsQuot(rest);
    } else if c == '\'' {
      ReadsApos(rest);
    } else {
      var t := [c] + rest;
      assert t[0] == c && t[1..] == rest;
      Differs(t, "&amp;", 0);
      Differs(t, "&lt;", 0);
      Differs(t, "&gt;", 0);
      Differs(t, "&quot;", 0);
      Differs(t, "&#39;", 0);
    }
  }

  lemma {:induction false} SubstReadsBack(s: string)
    ensures HtmlRead(Subst(s, HtmlChar)) == s
    ensures forall k :: 0 <= k < |Subst(s, HtmlChar)| ==> !HtmlSpecial(Subst(s, HtmlChar)[k])
    decreases |s|
  {
    if s != "" {
      ReadsChar(s[0], Subst(s[1..], HtmlChar));
      SubstReadsBack(s[1..]);
      assert s == [s[0]] + s[1..];
    }
  }

  /** Escaped text has no markup and no quotes, and is read as the text it was. */
  lemma HtmlRoundTrip(s: string)
    ensures HtmlRead(HtmlEscape(s)) == s
    ensures forall k :: 0 <= k < |HtmlEscape(s)| ==> !HtmlSpecial(HtmlEscape(s)[k])
  {
    HtmlIsOnePass(s);
    SubstReadsBack(s);
  }

  // ---------------------------------------------------------------------
  // JSON in an inline script
  // ---------------------------------------------------------------------

  /** The replacements applied to serialised JSON. */
  function ScriptEscape(json: string): string {
    ReplaceAll(ReplaceAll(ReplaceAll(ReplaceAll(ReplaceAll(json,
      ['&'], "\\u0026"), ['<'], "\\u003c"), ['>'], "\\u003e"), ['\U{2028}'], "\\u2028"), ['\U{2029}'], "\\u2029")
  }

  function ScriptChar(c: char): string {
    if c == '&' then "\\u0026"
    else if c == '<' then "\\u003c"
    else if c == '>' then "\\u003e"
    else if c == '\U{2028}' then "\\u2028"
    else if c == '\U{2029}' then "\\u2029"
    else [c]
  }

  predicate ScriptSpecial(c: char) { c == '&' || c == '<' || c == '>' || c == '\U{2028}' || c == '\U{2029}' }

  lemma ScriptOfConcat(a: string, b: string)
    ensures ScriptEscape(a + b) == ScriptEscape(a) + ScriptEscape(b)
  {
    var a1, b1 := ReplaceAll(a, ['&'], "\\u0026"), ReplaceAll(b, ['&'], "\\u0026");
    ReplaceOfConcat(a, b, '&', "\\u0026");
    var a2, b2 := ReplaceAll(a1, ['<'], "\\u003c"), ReplaceAll(b1, ['<'], "\\u003c");
    ReplaceOfConcat(a1, b1, '<', "\\u003c");
    var a3, b3 := ReplaceAll(a2, ['>'], "\\u003e"), ReplaceAll(b2, ['>'], "\\u003e");
    ReplaceOfConcat(a2, b2, '>', "\\u003e");
    var a4, b4 := ReplaceAll(a3, ['\U{2028}'], "\\u2028"), ReplaceAll(b3, ['\U{2028}'], "\\u2028");
    ReplaceOfConcat(a3, b3, '\U{2028}', "\\u2028");
    ReplaceOfConcat(a4, b4, '\U{2029}', "\\u2029");
  }

  /** The last four replacements leave an escape alone. */
  lemma ScriptRest(s: string)
    requires '<' !in s && '>' !in s && '\U{2028}' !in s && '\U{2029}' !in s
    ensures ReplaceAll(s, ['<'], "\\u003c") == s && ReplaceAll(s, ['>'], "\\u003e") == s
    ensures ReplaceAll(s, ['\U{2028}'], "\\u2028") == s && ReplaceAll(s, ['\U{2029}'], "\\u2029") == s
  {
    ReplaceAbsentChar(s, '<', "\\u003c");
    ReplaceAbsentChar(s, '>', "\\u003e");
    ReplaceAbsentChar(s, '\U{2028}', "\\u2028");
    ReplaceAbsentChar(s, '\U{2029}', "\\u2029");
  }

  lemma ScriptOne(c: char)
    ensures ScriptEscape([c]) == ScriptChar(c)
  {
    ReplaceOne(c, '&', "\\u0026");
    ReplaceOne(c, '<', "\\u003c");
    ReplaceOne(c, '>', "\\u003e");
    ReplaceOne(c, '\U{2028}', "\\u2028");
    ReplaceOne(c, '\U{2029}', "\\u2029");
    if ScriptSpecial(c) {
      ScriptRest(ScriptChar(c));
    }
  }

  lemma {:induction false} ScriptIsOnePass(s: string)
    ensures ScriptEscape(s) == Subst(s, ScriptChar)
    decreases |s|
  {
    if s != "" {
      assert s == [s[0]] + s[1..];
      ScriptOfConcat([s[0]], s[1..]);
      ScriptOne(s[0]);
      ScriptIsOnePass(s[1..]);
    }
  }

  // Reading JSON text, section 7 of RFC 8259.

  /** A character outside strings, a quote included, or a code unit of a string. */
  datatype Unit = Mark(c: char) | Code(u: int)

  function HexDigit(c: char): Option<int> {
    if '0' <= c <= '9' then Some(c as int - '0' as int)
    else if 'a' <= c <= 'f' then Some(c as int - 'a' as int + 10)
    else if 'A' <= c <= 'F' then Some(c as int - 'A' as int + 10)
    else None
  }

  function HexOf(t: string): (r: Option<int>)
    requires |t| >= 6
  {
    var a, b, c, d := HexDigit(t[2]), HexDigit(t[3]), HexDigit(t[4]), HexDigit(t[5]);
    if a.None? || b.None? || c.None? || d.None? then None
    else Some(a.value * 4096 + b.value * 256 + c.value * 16 + d.value)
  }

  /** The code unit an escape sequence stands for, and its length. */
  function EscapeOf(t: string): (r: Option<(int, nat)>)
    requires t != "" && t[0] == '\\'
    ensures r.Some? ==> 2 <= r.value.1 <= |t| && forall k :: 0 <= k < r.value.1 ==> !ScriptSpecial(t[k])
  {
    if |t| < 2 then None
    else if t[1] == '"' then Some((0x22, 2))
    else if t[1] == '\\' then Some((0x5c, 2))
    else if t[1] == '/' then Some((0x2f, 2))
    else if t[1] == 'b' then Some((0x08, 2))
    else if t[1] == 'f' then Some((0x0c, 2))
    else if t[1] == 'n' then Some((0x0a, 2))
    else if t[1] == 'r' then Some((0x0d, 2))
    else if t[1] == 't' then Some((0x09, 2))
    else if t[1] == 'u' && |t| >= 6 && HexOf(t).Some? then Some((HexOf(t).value, 6))
    else None
  }

  function More(u: Unit, rest: Option<seq<Unit>>): Option<seq<Unit>> {
    if rest.Some? then Some([u] + rest.value) else None
  }

  /**
   The lexical reading of JSON text. Outside strings JSON has none of the
   characters that are replaced.
   */
  function Lex(t: string, inside: bool): Option<seq<Unit>>
    decreases |t|
  {
    if t == "" then if inside then None else Some([])
    else if t[0] == '"' then More(Mark('"'), Lex(t[1..], !inside))
    else if !inside then if ScriptSpecial(t[0]) then None else More(Mark(t[0]), Lex(t[1..], false))
    else if t[0] != '\\' then More(Code(t[0] as int), Lex(t[1..], true))
    else
      var e := EscapeOf(t);
      if e.None? then None else More(Code(e.value.0), Lex(t[e.value.1..], true))
  }

  lemma {:induction false} SubstKeeps(s: string)
    requires forall k :: 0 <= k < |s| ==> !ScriptSpecial(s[k])
    ensures Subst(s, ScriptChar) == s
    decreases |s|
  {
    if s != "" {
      SubstKeeps(s[1..]);
      assert s == [s[0]] + s[1..];
    }
  }

  /** Inside a string, the escape written for a character is read as that character. */
  lemma EscapeIsRead(c: char, rest: string)
    requires ScriptSpecial(c)
    ensures Lex(ScriptChar(c) + rest, true) == More(Code(c as int), Lex(rest, true))
  {
    var e := ScriptChar(c);
    var t := e + rest;
    assert t[0] == e[0] && t[1] == e[1] && t[2] == e[2] && t[3] == e[3] && t[4] == e[4] && t[5] == e[5];
    assert t[6..] == rest;
    assert EscapeOf(t) == Some((c as int, 6));
  }

  lemma EscapeIsKept(t: string, n: nat, rest: string)
    requires t != "" && t[0] == '\\' && EscapeOf(t).Some? && EscapeOf(t).value.1 == n
    ensures Lex(t[..n] + rest, true) == More(Code(EscapeOf(t).value.0), Lex(rest, true))
  {
    var s := t[..n] + rest;
    assert s[0] == t[0] && s[1] == t[1];
    if n == 6 {
      assert s[2] == t[2] && s[3] == t[3] && s[4] == t[4] && s[5] == t[5];
    }
    assert EscapeOf(s) == EscapeOf(t);
    assert s[n..] == rest;
  }

  lemma {:induction false} SubstReadsTheSame(t: string, inside: bool)
    requires Lex(t, inside).Some?
    ensures Lex(Subst(t, ScriptChar), inside) == Lex(t, inside)
    decreases |t|
  {
    if t == "" {
    } else if inside && t[0] == '\\' {
      var n := EscapeOf(t).value.1;
      SubstReadsTheSame(t[n..], true);
      assert t == t[..n] + t[n..];
      SubstOfConcat(t[..n], t[n..], ScriptChar);
      SubstKeeps(t[..n]);
      EscapeIsKept(t, n, Subst(t[n..], ScriptChar));
    } else if inside && ScriptSpecial(t[0]) {
      SubstReadsTheSame(t[1..], true);
      EscapeIsRead(t[0], Subst(t[1..], ScriptChar));
    } else {
      SubstReadsTheSame(t[1..], if t[0] == '"' then !inside else inside);
      var s := Subst(t, ScriptChar);
      assert s == [t[0]] + Subst(t[1..], ScriptChar);
      assert s[0] == t[0] && s[1..] == Subst(t[1..], ScriptChar);
    }
  }

  lemma {:induction false} SubstHasNoSpecial(t: string)
    ensures forall k :: 0 <= k < |Subst(t, ScriptChar)| ==> !ScriptSpecial(Subst(t, ScriptChar)[k])
    decreases |t|
  {
    if t != "" {
      SubstHasNoSpecial(t[1..]);
    }
  }

  /**
   What is put in the script cannot end it or start a comment or a line, and any
   JSON reader decodes it to the same value.
   */
  lemma ScriptReadsTheSame(json: string)
    requires Lex(json, false).Some?
    ensures Lex(ScriptEscape(json), false) == Lex(json, false)
    ensures forall k :: 0 <= k < |ScriptEscape(json)| ==> !ScriptSpecial(ScriptEscape(json)[k])
  {
    ScriptIsOnePass(json);
    SubstReadsTheSame(json, false);
    SubstHasNoSpecial(json);
  }
}
