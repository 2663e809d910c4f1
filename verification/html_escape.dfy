/** `escapeHtml`: five global single-character replacements, `&` first. */
module HtmlEscape {

  /** `s.replace(/c/g, rep)` for a single character `c`. */
  function ReplaceAll(s: string, c: char, rep: string): (r: string)
  {
    if |s| == 0 then ""
    else (if s[0] == c then rep else [s[0]]) + ReplaceAll(s[1..], c, rep)
  }

  /** The source's chain `.replace(/&/g, "&amp;").replace(/</g, "&lt;").replace(/>/g, "&gt;")
      .replace(/"/g, "&quot;").replace(/'/g, "&#39;")`, one stage per call. */
  function EscapeChain(s: string): string {
    AfterAmp(ReplaceAll(s, '&', "&amp;"))
  }

  function AfterAmp(s: string): string { AfterLt(ReplaceAll(s, '<', "&lt;")) }
  function AfterLt(s: string): string { AfterGt(ReplaceAll(s, '>', "&gt;")) }
  function AfterGt(s: string): string { AfterQuot(ReplaceAll(s, '"', "&quot;")) }
  function AfterQuot(s: string): string { ReplaceAll(s, '\'', "&#39;") }

  /** Reference definition: each character escaped on its own. */
  function EscapeChar(c: char): string {
    match c
    case '&' => "&amp;"
    case '<' => "&lt;"
    case '>' => "&gt;"
    case '"' => "&quot;"
    case '\'' => "&#39;"
    case _ => [c]
  }

  function EscapePerChar(s: string): string {
    if |s| == 0 then "" else EscapeChar(s[0]) + EscapePerChar(s[1..])
  }

  /** The decoder of the five entities, the inverse used to state that escaping loses nothing. */
  function UnescapeHtml(s: string): string
    decreases |s|
  {
    if |s| == 0 then ""
    else if s[0] != '&' then [s[0]] + UnescapeHtml(s[1..])
    else if |s| >= 5 && s[..5] == "&amp;" then "&" + UnescapeHtml(s[5..])
    else if |s| >= 4 && s[..4] == "&lt;" then "<" + UnescapeHtml(s[4..])
    else if |s| >= 4 && s[..4] == "&gt;" then ">" + UnescapeHtml(s[4..])
    else if |s| >= 6 && s[..6] == "&quot;" then "\"" + UnescapeHtml(s[6..])
    else if |s| >= 5 && s[..5] == "&#39;" then "'" + UnescapeHtml(s[5..])
    else "&" + UnescapeHtml(s[1..])
  }

  lemma {:induction false} ReplaceAllAppend(a: string, b: string, c: char, rep: string)
    ensures ReplaceAll(a + b, c, rep) == ReplaceAll(a, c, rep) + ReplaceAll(b, c, rep)
    decreases |a|
  {
    if |a| == 0 {
      assert a + b == b;
    } else {
      assert (a + b)[1..] == a[1..] + b;
      ReplaceAllAppend(a[1..], b, c, rep);
    }
  }

  lemma {:induction false} ReplaceAllAbsent(s: string, c: char, rep: string)
    requires c !in s
    ensures ReplaceAll(s, c, rep) == s
    decreases |s|
  {
    if |s| > 0 {
      ReplaceAllAbsent(s[1..], c, rep);
      assert s == [s[0]] + s[1..];
    }
  }

  lemma ReplaceAllSingle(x: char, c: char, rep: string)
    ensures ReplaceAll([x], c, rep) == if x == c then rep else [x]
  {
    assert [x][1..] == "";
  }

  lemma EscapeHtmlAppend(a: string, b: string)
    ensures EscapeChain(a + b) == EscapeChain(a) + EscapeChain(b)
  {
    var a1, b1 := ReplaceAll(a, '&', "&amp;"), ReplaceAll(b, '&', "&amp;");
    ReplaceAllAppend(a, b, '&', "&amp;");
    var a2, b2 := ReplaceAll(a1, '<', "&lt;"), ReplaceAll(b1, '<', "&lt;");
    ReplaceAllAppend(a1, b1, '<', "&lt;");
    var a3, b3 := ReplaceAll(a2, '>', "&gt;"), ReplaceAll(b2, '>', "&gt;");
    ReplaceAllAppend(a2, b2, '>', "&gt;");
    var a4, b4 := ReplaceAll(a3, '"', "&quot;"), ReplaceAll(b3, '"', "&quot;");
    ReplaceAllAppend(a3, b3, '"', "&quot;");
    ReplaceAllAppend(a4, b4, '\'', "&#39;");
  }

  lemma AfterQuotFixed(e: string)
    requires '\'' !in e
    ensures AfterQuot(e) == e
  {
    ReplaceAllAbsent(e, '\'', "&#39;");
  }

  lemma AfterGtFixed(e: string)
    requires '"' !in e && '\'' !in e
    ensures AfterGt(e) == e
  {
    ReplaceAllAbsent(e, '"', "&quot;");
    AfterQuotFixed(e);
  }

  lemma AfterLtFixed(e: string)
    requires '>' !in e && '"' !in e && '\'' !in e
    ensures AfterLt(e) == e
  {
    ReplaceAllAbsent(e, '>', "&gt;");
    AfterGtFixed(e);
  }

  lemma AfterAmpFixed(e: string)
    requires '<' !in e && '>' !in e && '"' !in e && '\'' !in e
    ensures AfterAmp(e) == e
  {
    ReplaceAllAbsent(e, '<', "&lt;");
    AfterLtFixed(e);
  }

  /** The chain on one character yields exactly that character's entity: no later
      replacement touches what an earlier one produced. */
  lemma EscapeHtmlChar(x: char)
    ensures EscapeChain([x]) == EscapeChar(x)
  {
    ReplaceAllSingle(x, '&', "&amp;");
    if x == '&' {
      AfterAmpFixed("&amp;");
    } else {
      ReplaceAllSingle(x, '<', "&lt;");
      if x == '<' {
        AfterLtFixed("&lt;");
      } else {
        ReplaceAllSingle(x, '>', "&gt;");
        if x == '>' {
          AfterGtFixed("&gt;");
        } else {
          ReplaceAllSingle(x, '"', "&quot;");
          if x == '"' {
            AfterQuotFixed("&quot;");
          } else {
            ReplaceAllSingle(x, '\'', "&#39;");
          }
        }
      }
    }
  }

  /** Because `&` is replaced first, the sequential chain equals escaping each character
      independently: no entity is escaped twice. */
  lemma {:induction false} EscapeHtmlIsPerChar(s: string)
    ensures EscapeChain(s) == EscapePerChar(s)
    decreases |s|
  {
    if |s| == 0 {
      assert EscapeChain(s) == "";
    } else {
      assert s == [s[0]] + s[1..];
      EscapeHtmlAppend([s[0]], s[1..]);
      EscapeHtmlChar(s[0]);
      EscapeHtmlIsPerChar(s[1..]);
    }
  }

  lemma UnescapeEntity(e: string, c: char, t: string)
    requires e == EscapeChar(c)
    ensures UnescapeHtml(e + t) == [c] + UnescapeHtml(t)
  {
    var s := e + t;
    assert s[..|e|] == e && s[|e|..] == t;
    if c == '&' {
      assert s[..5] == "&amp;";
    } else if c == '<' {
      assert s[1] == 'l';
      assert s[..4] == "&lt;";
    } else if c == '>' {
      assert s[1] == 'g';
      assert s[..4] == "&gt;";
    } else if c == '"' {
      assert s[1] == 'q';
      assert s[..6] == "&quot;";
    } else if c == '\'' {
      assert s[1] == '#';
      assert s[..5] == "&#39;";
    } else {
      assert s[0] == c && s[1..] == t;
    }
  }

  lemma {:induction false} UnescapeEscapePerChar(s: string)
    ensures UnescapeHtml(EscapePerChar(s)) == s
    decreases |s|
  {
    if |s| > 0 {
      UnescapeEntity(EscapeChar(s[0]), s[0], EscapePerChar(s[1..]));
      UnescapeEscapePerChar(s[1..]);
      assert s == [s[0]] + s[1..];
    }
  }

  /** Escaping is lossless: decoding the five entities recovers the original text,
      including text that already contained entity-like sequences. */
  lemma EscapeHtmlRoundTrip(s: string)
    ensures UnescapeHtml(EscapeChain(s)) == s
  {
    EscapeHtmlIsPerChar(s);
    UnescapeEscapePerChar(s);
  }

  predicate NoMarkup(s: string) {
    '<' !in s && '>' !in s && '"' !in s && '\'' !in s
  }

  lemma {:induction false} EscapePerCharNoMarkup(s: string)
    ensures NoMarkup(EscapePerChar(s))
    decreases |s|
  {
    if |s| > 0 {
      EscapePerCharNoMarkup(s[1..]);
      var e := EscapeChar(s[0]);
      assert NoMarkup(e);
      assert forall x :: x in e + EscapePerChar(s[1..]) ==> x in e || x in EscapePerChar(s[1..]);
    }
  }

  /** The escaped text contains no raw `<`, `>`, `"` or `'`. */
  lemma EscapeHtmlNoMarkup(s: string)
    ensures NoMarkup(EscapeChain(s))
  {
    EscapeHtmlIsPerChar(s);
    EscapePerCharNoMarkup(s);
  }

  /** `escapeHtml(value)`: the five-stage chain, which escapes every character on its own,
      loses nothing, and leaves no raw `<`, `>`, `"` or `'`. */
  function EscapeHtml(s: string): (r: string)
    ensures r == EscapePerChar(s)
    ensures UnescapeHtml(r) == s
    ensures NoMarkup(r)
  {
    EscapeHtmlIsPerChar(s);
    UnescapeEscapePerChar(s);
    EscapePerCharNoMarkup(s);
    EscapeChain(s)
  }
}
