/** The first step of the code highlighter, which makes a snippet's source
    safe to insert as HTML before the coloured spans are added:
    `code.replace(/</g, '&lt;').replace(/>/g, '&gt;')`. */
module Highlight {

  /** `s.replace(/c/g, rep)` for a single character `c` and a replacement
      without `$` patterns. */
  function ReplaceAll(s: string, c: char, rep: string): (r: string)
    ensures c !in rep ==> c !in r
    ensures forall d :: d in r ==> d in s || d in rep
  {
    if s == [] then []
    else (if s[0] == c then rep else [s[0]]) + ReplaceAll(s[1..], c, rep)
  }

  /** The escape step as the highlighter writes it. */
  function EscapeAngles(code: string): (r: string)
    ensures '<' !in r && '>' !in r
  {
    ReplaceAll(ReplaceAll(code, '<', "&lt;"), '>', "&gt;")
  }

  /** The output the escape step is meant to have, character by character:
      `<` and `>` become their entities and every other character stays. */
  function AngleEntity(ch: char): string
  {
    if ch == '<' then "&lt;" else if ch == '>' then "&gt;" else [ch]
  }

  function EscapeEach(code: string, f: char -> string): string
  {
    if code == [] then [] else f(code[0]) + EscapeEach(code[1..], f)
  }

  lemma {:induction false} ReplaceAllAppend(a: string, b: string, c: char, rep: string)
    ensures ReplaceAll(a + b, c, rep) == ReplaceAll(a, c, rep) + ReplaceAll(b, c, rep)
  {
    if a != [] {
      assert (a + b)[1..] == a[1..] + b;
      ReplaceAllAppend(a[1..], b, c, rep);
    } else {
      assert a + b == b;
    }
  }

  lemma {:induction false} ReplaceAbsent(s: string, c: char, rep: string)
    requires c !in s
    ensures ReplaceAll(s, c, rep) == s
  {
    if s != [] {
      ReplaceAbsent(s[1..], c, rep);
    }
  }

  /** The two passes together replace every `<` and every `>` and leave every
      other character as it was. */
  lemma {:induction false} EscapeAnglesPerCharacter(code: string)
    ensures EscapeAngles(code) == EscapeEach(code, AngleEntity)
  {
    if code != [] {
      var head := if code[0] == '<' then "&lt;" else [code[0]];
      var inner := ReplaceAll(code[1..], '<', "&lt;");
      assert ReplaceAll(code, '<', "&lt;") == head + inner;
      ReplaceAllAppend(head, inner, '>', "&gt;");
      if code[0] == '<' {
        ReplaceAbsent("&lt;", '>', "&gt;");
      } else if code[0] == '>' {
        assert ReplaceAll(head, '>', "&gt;") == "&gt;" + ReplaceAll([], '>', "&gt;");
      } else {
        assert ReplaceAll(head, '>', "&gt;") == head + ReplaceAll([], '>', "&gt;");
      }
      EscapeAnglesPerCharacter(code[1..]);
    }
  }

  // ---------------------------------------------------------------------
  // The browser reads the escaped text back as HTML

  /** How an HTML parser reads the entities `&lt;`, `&gt;` and `&amp;`. A real
      parser also decodes numeric references such as `&#60;`, other named
      references such as `&quot;` and legacy forms such as `&lt` without the
      semicolon; here any other `&` stands for itself. That difference does
      not touch the corrected escape below, where every `&` of the output
      starts one of these three entities. The as-written escape is affected
      more widely than shown: code holding `&#60;` or `&amp;` is displayed
      decoded as well. */
  function DecodeEntities(s: string): string
  {
    if s == [] then []
    else if "&lt;" <= s then "<" + DecodeEntities(s[4..])
    else if "&gt;" <= s then ">" + DecodeEntities(s[4..])
    else if "&amp;" <= s then "&" + DecodeEntities(s[5..])
    else [s[0]] + DecodeEntities(s[1..])
  }

  /** Without escaping `&`, two different sources escape to the same HTML,
      so a snippet whose code contains the text `&lt;` is shown as `<`. */
  lemma EscapeAnglesMergesSources()
    ensures "<" != "&lt;"
    ensures EscapeAngles("<") == EscapeAngles("&lt;") == "&lt;"
    ensures DecodeEntities(EscapeAngles("&lt;")) == "<"
  {
    var lt: string := "&lt;";
    assert "<"[1..] == [];
    assert ReplaceAll("<", '<', lt) == lt + ReplaceAll([], '<', lt);
    ReplaceAbsent(lt, '>', "&gt;");
    ReplaceAbsent(lt, '<', lt);
    DecodeLt([]);
    assert lt + [] == lt;
  }

  /** The escape the highlighter needs: `&` first, then `<` and `>`. */
  function HtmlEntity(ch: char): string
  {
    if ch == '&' then "&amp;" else AngleEntity(ch)
  }

  function EscapeHtml(code: string): (r: string)
    ensures '<' !in r && '>' !in r
  {
    if code == [] then []
    else
      var r := HtmlEntity(code[0]) + EscapeHtml(code[1..]);
      assert '<' !in HtmlEntity(code[0]) && '>' !in HtmlEntity(code[0]);
      r
  }

  lemma DecodeLt(rest: string)
    ensures DecodeEntities("&lt;" + rest) == "<" + DecodeEntities(rest)
  {
    var s := "&lt;" + rest;
    assert s[..4] == "&lt;" && s[4..] == rest;
  }

  lemma DecodeGt(rest: string)
    ensures DecodeEntities("&gt;" + rest) == ">" + DecodeEntities(rest)
  {
    var s := "&gt;" + rest;
    assert s[1] == 'g';
    assert s[..4] == "&gt;" && s[4..] == rest;
  }

  lemma DecodeAmp(rest: string)
    ensures DecodeEntities("&amp;" + rest) == "&" + DecodeEntities(rest)
  {
    var s := "&amp;" + rest;
    assert s[1] == 'a';
    assert s[..5] == "&amp;" && s[5..] == rest;
  }

  lemma DecodeOther(c: char, rest: string)
    requires c != '&'
    ensures DecodeEntities([c] + rest) == [c] + DecodeEntities(rest)
  {
    var s := [c] + rest;
    assert s[0] == c && s[1..] == rest;
  }

  /** The browser shows exactly the source. */
  lemma {:induction false} EscapeHtmlRoundTrip(code: string)
    ensures DecodeEntities(EscapeHtml(code)) == code
  {
    if code != [] {
      var rest := EscapeHtml(code[1..]);
      EscapeHtmlRoundTrip(code[1..]);
      assert EscapeHtml(code) == HtmlEntity(code[0]) + rest;
      if code[0] == '<' {
        DecodeLt(rest);
      } else if code[0] == '>' {
        DecodeGt(rest);
      } else if code[0] == '&' {
        DecodeAmp(rest);
      } else {
        DecodeOther(code[0], rest);
      }
      assert code == [code[0]] + code[1..];
    }
  }

  /** So different sources always give different HTML. */
  lemma EscapeHtmlInjective(a: string, b: string)
    requires EscapeHtml(a) == EscapeHtml(b)
    ensures a == b
  {
    EscapeHtmlRoundTrip(a);
    EscapeHtmlRoundTrip(b);
  }
}
