/**
 * The default entity decoder, used when the renderer supplies none: it only
 * knows the five references reserved by the template syntax.
 */
module Entities {
  import opened Chars

  /**
   * `rawText.replace(/&(gt|lt|amp|apos|quot);/g, ...)`: a left-to-right scan
   * that replaces each of the five references by its character.
   */
  function DecodeEntities(s: string): (r: string)
    ensures '&' !in s ==> r == s
    ensures |r| <= |s|
    decreases |s|
  {
    if s == [] then []
    else if s[0] != '&' then [s[0]] + DecodeEntities(s[1..])
    else if StartsWith(s, "&gt;") then ">" + DecodeEntities(s[4..])
    else if StartsWith(s, "&lt;") then "<" + DecodeEntities(s[4..])
    else if StartsWith(s, "&amp;") then "&" + DecodeEntities(s[5..])
    else if StartsWith(s, "&apos;") then "'" + DecodeEntities(s[6..])
    else if StartsWith(s, "&quot;") then "\"" + DecodeEntities(s[6..])
    else [s[0]] + DecodeEntities(s[1..])
  }

  /** The default `decodeEntities` option; whether the text is an attribute value does not matter to it. */
  function DefaultDecodeEntities(rawText: string, asAttr: bool): (r: string)
    ensures |r| <= |rawText|
    ensures '&' !in rawText ==> r == rawText
  {
    DecodeEntities(rawText)
  }

  /** The reference that stands for `c`, or `c` itself when it needs none. */
  function EscapeChar(c: char): string {
    match c
    case '>' => "&gt;"
    case '<' => "&lt;"
    case '&' => "&amp;"
    case '\'' => "&apos;"
    case '"' => "&quot;"
    case _ => [c]
  }

  /** The inverse of the decoder: writes each of the five reserved characters as its reference. */
  function Escape(s: string): string {
    if s == [] then [] else EscapeChar(s[0]) + Escape(s[1..])
  }

  lemma DecodeEscapedChar(c: char, t: string)
    ensures DecodeEntities(EscapeChar(c) + t) == [c] + DecodeEntities(t)
  {
    var e := EscapeChar(c);
    var s := e + t;
    assert s[..|e|] == e && s[|e|..] == t;
    if c == '>' || c == '<' || c == '&' || c == '\'' || c == '"' {
      assert s[0] == '&' && s[1] == e[1];
      assert c != '>' ==> !StartsWith(s, "&gt;") by {
        if c != '>' { assert s[..4][1] != "&gt;"[1]; }
      }
      assert c != '<' ==> !StartsWith(s, "&lt;") by {
        if c != '<' { assert s[..4][1] != "&lt;"[1]; }
      }
      assert c != '&' ==> !StartsWith(s, "&amp;") by {
        if c != '&' && |s| >= 5 { assert s[..5][1] != "&amp;"[1] || s[..5][2] != "&amp;"[2]; }
      }
      assert c != '\'' ==> !StartsWith(s, "&apos;") by {
        if c != '\'' && |s| >= 6 { assert s[..6][1] != "&apos;"[1] || s[..6][2] != "&apos;"[2]; }
      }
    }
  }

  /** The five references form a table the decoder reads back exactly. */
  lemma {:induction false} DecodeEscape(s: string)
    ensures DecodeEntities(Escape(s)) == s
  {
    if s != [] {
      DecodeEscapedChar(s[0], Escape(s[1..]));
      DecodeEscape(s[1..]);
    }
  }
}
