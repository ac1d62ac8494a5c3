/** HTML escaping of untrusted text (`escapeHtml`, js/app.js:8-15) and, as its
    partner, the decoding that undoes it. */
module Escape {

  /** The characters that carry meaning in HTML markup. */
  predicate IsMarkupChar(c: char) {
    c == '&' || c == '<' || c == '>' || c == '"' || c == '\''
  }

  /** No character that could open a tag or close an attribute value. */
  predicate NoRawMarkup(t: string) {
    '<' !in t && '>' !in t && '"' !in t && '\'' !in t
  }

  /** `t` begins with one of the five entities the escaping produces. */
  predicate StartsEntity(t: string) {
    "&amp;" <= t || "&lt;" <= t || "&gt;" <= t || "&quot;" <= t || "&#039;" <= t
  }

  /** Every `&` begins an entity, so no ampersand is left dangling. */
  predicate AmpersandsStartEntities(t: string) {
    forall i :: 0 <= i < |t| && t[i] == '&' ==> StartsEntity(t[i..])
  }

  /** Text that is inert when spliced into HTML. */
  predicate IsSafeMarkup(t: string) {
    NoRawMarkup(t) && AmpersandsStartEntities(t)
  }

  /** `String.prototype.replaceAll` with a one-character pattern: every
      occurrence of `c` becomes `rep`, every other character stays. */
  function ReplaceAll(s: string, c: char, rep: string): (r: string)
    ensures c !in s ==> r == s
    ensures c !in rep ==> c !in r
  {
    if |s| == 0 then ""
    else (if s[0] == c then rep else [s[0]]) + ReplaceAll(s[1..], c, rep)
  }

  /** Every character of the result comes from the replacement or is a kept
      character of the input other than `c`. */
  lemma {:induction false} ReplaceAllSources(s: string, c: char, rep: string)
    ensures forall x :: x in ReplaceAll(s, c, rep) ==> x in rep || (x in s && x != c)
    decreases |s|
  {
    if |s| > 0 {
      ReplaceAllSources(s[1..], c, rep);
      assert forall x :: x in s[1..] ==> x in s;
    }
  }

  /** A character absent from the input and from the replacement is absent from the result. */
  lemma {:induction false} ReplaceAllKeepsOut(s: string, c: char, rep: string, x: char)
    requires x !in s && x !in rep
    ensures x !in ReplaceAll(s, c, rep)
    decreases |s|
  {
    if |s| > 0 {
      assert x !in s[1..] by { assert s == [s[0]] + s[1..]; }
      ReplaceAllKeepsOut(s[1..], c, rep, x);
    }
  }

  /** Which markup characters each entity is free of. */
  lemma EntityFacts()
    ensures '<' !in "&amp;" && '>' !in "&amp;" && '"' !in "&amp;" && '\'' !in "&amp;"
    ensures '>' !in "&lt;" && '"' !in "&lt;" && '\'' !in "&lt;"
    ensures '<' !in "&gt;" && '"' !in "&gt;" && '\'' !in "&gt;"
    ensures '<' !in "&quot;" && '>' !in "&quot;" && '\'' !in "&quot;"
    ensures '<' !in "&#039;" && '>' !in "&#039;" && '"' !in "&#039;"
  {
  }

  /** `escapeHtml`: five replacements in sequence, `&` first so that the
      ampersands the later ones introduce are not escaped again. */
  function EscapeHtml(s: string): (r: string)
    ensures NoRawMarkup(r)
  {
    var a := ReplaceAll(s, '&', "&amp;");
    var b := ReplaceAll(a, '<', "&lt;");
    var c := ReplaceAll(b, '>', "&gt;");
    var d := ReplaceAll(c, '"', "&quot;");
    var e := ReplaceAll(d, '\'', "&#039;");
    EntityFacts();
    ReplaceAllKeepsOut(b, '>', "&gt;", '<');
    ReplaceAllKeepsOut(c, '"', "&quot;", '<');
    ReplaceAllKeepsOut(d, '\'', "&#039;", '<');
    ReplaceAllKeepsOut(c, '"', "&quot;", '>');
    ReplaceAllKeepsOut(d, '\'', "&#039;", '>');
    ReplaceAllKeepsOut(d, '\'', "&#039;", '"');
    e
  }

  /** Text without markup characters comes back unchanged. */
  lemma EscapeHtmlIdentity(s: string)
    requires forall i :: 0 <= i < |s| ==> !IsMarkupChar(s[i])
    ensures EscapeHtml(s) == s
  {
    assert '&' !in s && '<' !in s && '>' !in s && '"' !in s && '\'' !in s;
  }

  /** The replacement of one character, as a single lookup. */
  function EscapeChar(c: char): (r: string)
    ensures IsMarkupChar(c) <==> r != [c]
  {
    match c
    case '&' => "&amp;"
    case '<' => "&lt;"
    case '>' => "&gt;"
    case '"' => "&quot;"
    case '\'' => "&#039;"
    case _ => [c]
  }

  /** Escaping character by character: the reference the sequential
      replacements are compared with. */
  function EscapeEach(s: string): string {
    if |s| == 0 then "" else EscapeChar(s[0]) + EscapeEach(s[1..])
  }

  /** Decoding of the five entities, left to right; anything else is copied. */
  function Unescape(t: string): string
    decreases |t|
  {
    if |t| == 0 then ""
    else if "&amp;" <= t then "&" + Unescape(t[5..])
    else if "&lt;" <= t then "<" + Unescape(t[4..])
    else if "&gt;" <= t then ">" + Unescape(t[4..])
    else if "&quot;" <= t then "\"" + Unescape(t[6..])
    else if "&#039;" <= t then "'" + Unescape(t[6..])
    else [t[0]] + Unescape(t[1..])
  }

  lemma {:induction false} ReplaceAllAppend(a: string, b: string, c: char, rep: string)
    ensures ReplaceAll(a + b, c, rep) == ReplaceAll(a, c, rep) + ReplaceAll(b, c, rep)
    decreases |a|
  {
    if |a| == 0 {
      assert a + b == b;
    } else {
      assert (a + b)[0] == a[0];
      assert (a + b)[1..] == a[1..] + b;
      ReplaceAllAppend(a[1..], b, c, rep);
    }
  }

  /** The escaping distributes over concatenation. */
  lemma EscapeHtmlAppend(a: string, b: string)
    ensures EscapeHtml(a + b) == EscapeHtml(a) + EscapeHtml(b)
  {
    ReplaceAllAppend(a, b, '&', "&amp;");
    var a1, b1 := ReplaceAll(a, '&', "&amp;"), ReplaceAll(b, '&', "&amp;");
    ReplaceAllAppend(a1, b1, '<', "&lt;");
    var a2, b2 := ReplaceAll(a1, '<', "&lt;"), ReplaceAll(b1, '<', "&lt;");
    ReplaceAllAppend(a2, b2, '>', "&gt;");
    var a3, b3 := ReplaceAll(a2, '>', "&gt;"), ReplaceAll(b2, '>', "&gt;");
    ReplaceAllAppend(a3, b3, '"', "&quot;");
    var a4, b4 := ReplaceAll(a3, '"', "&quot;"), ReplaceAll(b3, '"', "&quot;");
    ReplaceAllAppend(a4, b4, '\'', "&#039;");
  }

  lemma ReplaceAllSingle(x: char, c: char, rep: string)
    ensures ReplaceAll([x], c, rep) == if x == c then rep else [x]
  {
    assert [x][1..] == "";
  }

  /** On one character the five replacements amount to one lookup: each entity
      holds none of the characters replaced after it. */
  lemma EscapeHtmlSingle(x: char)
    ensures EscapeHtml([x]) == EscapeChar(x)
  {
    if x == '&' { EscapeHtmlAmp(x); }
    else if x == '<' { EscapeHtmlLt(x); }
    else if x == '>' { EscapeHtmlGt(x); }
    else if x == '"' { EscapeHtmlQuot(x); }
    else if x == '\'' { EscapeHtmlApos(x); }
  }

  lemma EscapeHtmlAmp(x: char)
    requires x == '&'
    ensures EscapeHtml([x]) == "&amp;"
  {
    ReplaceAllSingle(x, '&', "&amp;");
    EntityFacts();
  }

  lemma EscapeHtmlLt(x: char)
    requires x == '<'
    ensures EscapeHtml([x]) == "&lt;"
  {
    ReplaceAllSingle(x, '&', "&amp;");
    ReplaceAllSingle(x, '<', "&lt;");
    EntityFacts();
  }

  lemma EscapeHtmlGt(x: char)
    requires x == '>'
    ensures EscapeHtml([x]) == "&gt;"
  {
    ReplaceAllSingle(x, '&', "&amp;");
    ReplaceAllSingle(x, '<', "&lt;");
    ReplaceAllSingle(x, '>', "&gt;");
    EntityFacts();
  }

  lemma EscapeHtmlQuot(x: char)
    requires x == '"'
    ensures EscapeHtml([x]) == "&quot;"
  {
    ReplaceAllSingle(x, '&', "&amp;");
    ReplaceAllSingle(x, '<', "&lt;");
    ReplaceAllSingle(x, '>', "&gt;");
    ReplaceAllSingle(x, '"', "&quot;");
    EntityFacts();
  }

  lemma EscapeHtmlApos(x: char)
    requires x == '\''
    ensures EscapeHtml([x]) == "&#039;"
  {
    ReplaceAllSingle(x, '&', "&amp;");
    ReplaceAllSingle(x, '<', "&lt;");
    ReplaceAllSingle(x, '>', "&gt;");
    ReplaceAllSingle(x, '"', "&quot;");
    ReplaceAllSingle(x, '\'', "&#039;");
  }

  /** The sequential replacements agree with character-by-character escaping. */
  lemma {:induction false} EscapeHtmlIsPerChar(s: string)
    ensures EscapeHtml(s) == EscapeEach(s)
    decreases |s|
  {
    if |s| == 0 {
      assert ReplaceAll(s, '&', "&amp;") == s;
    } else {
      assert s == [s[0]] + s[1..];
      EscapeHtmlAppend([s[0]], s[1..]);
      EscapeHtmlSingle(s[0]);
      EscapeHtmlIsPerChar(s[1..]);
    }
  }

  /** Decoding reads one escaped character back off the front. */
  lemma UnescapeFront(c: char, rest: string)
    ensures Unescape(EscapeChar(c) + rest) == [c] + Unescape(rest)
  {
    if IsMarkupChar(c) {
      UnescapeFrontEntity(c, rest);
    } else {
      var t := [c] + rest;
      assert t[0] == c && t[1..] == rest;
    }
  }

  lemma UnescapeFrontEntity(c: char, rest: string)
    requires IsMarkupChar(c)
    ensures Unescape(EscapeChar(c) + rest) == [c] + Unescape(rest)
  {
    var e := EscapeChar(c);
    var t := e + rest;
    assert e <= t && t[|e|..] == rest;
    if c == '<' {
      assert t[1] == 'l';
    } else if c == '>' {
      assert t[1] == 'g';
    } else if c == '"' {
      assert t[1] == 'q';
    } else if c == '\'' {
      assert t[1] == '#';
    }
  }

  /** Decoding undoes character-by-character escaping. */
  lemma {:induction false} UnescapeEscapeEach(s: string)
    ensures Unescape(EscapeEach(s)) == s
    decreases |s|
  {
    if |s| > 0 {
      var rest := EscapeEach(s[1..]);
      assert EscapeEach(s) == EscapeChar(s[0]) + rest;
      UnescapeFront(s[0], rest);
      UnescapeEscapeEach(s[1..]);
      assert s == [s[0]] + s[1..];
    }
  }

  /** `escapeHtml` is undone by `Unescape`. */
  lemma UnescapeEscapeHtml(s: string)
    ensures Unescape(EscapeHtml(s)) == s
  {
    EscapeHtmlIsPerChar(s);
    UnescapeEscapeEach(s);
  }

  /** The same five replacements with `&` moved last. The result is still free
      of raw markup, but, as `AmpersandLastConflates` shows, no longer decodable. */
  function EscapeAmpersandLast(s: string): (r: string)
    ensures NoRawMarkup(r)
  {
    var b := ReplaceAll(s, '<', "&lt;");
    var c := ReplaceAll(b, '>', "&gt;");
    var d := ReplaceAll(c, '"', "&quot;");
    var e := ReplaceAll(d, '\'', "&#039;");
    EntityFacts();
    ReplaceAllKeepsOut(b, '>', "&gt;", '<');
    ReplaceAllKeepsOut(c, '"', "&quot;", '<');
    ReplaceAllKeepsOut(d, '\'', "&#039;", '<');
    ReplaceAllKeepsOut(c, '"', "&quot;", '>');
    ReplaceAllKeepsOut(d, '\'', "&#039;", '>');
    ReplaceAllKeepsOut(d, '\'', "&#039;", '"');
    ReplaceAllKeepsOut(e, '&', "&amp;", '<');
    ReplaceAllKeepsOut(e, '&', "&amp;", '>');
    ReplaceAllKeepsOut(e, '&', "&amp;", '"');
    ReplaceAllKeepsOut(e, '&', "&amp;", '\'');
    ReplaceAll(e, '&', "&amp;")
  }

  /** Replacing `&` first is what makes the escaping decodable: with `&` last,
      `<` and the text `&lt;` would both become `&amp;lt;`. */
  lemma AmpersandLastConflates(x: char, e: string)
    requires x == '<' && e == "&lt;"
    ensures [x] != e && EscapeAmpersandLast([x]) == EscapeAmpersandLast(e)
  {
    ReplaceAllSingle(x, '<', "&lt;");
    EntityFacts();
    assert '<' !in e;
  }

  /** Distinct texts never escape to the same markup. */
  lemma EscapeHtmlInjective(a: string, b: string)
    ensures EscapeHtml(a) == EscapeHtml(b) ==> a == b
  {
    UnescapeEscapeHtml(a);
    UnescapeEscapeHtml(b);
  }

  lemma {:induction false} EscapeEachAmpersands(s: string)
    ensures AmpersandsStartEntities(EscapeEach(s))
    decreases |s|
  {
    if |s| > 0 {
      var e, rest := EscapeChar(s[0]), EscapeEach(s[1..]);
      var t := e + rest;
      assert EscapeEach(s) == t;
      EscapeEachAmpersands(s[1..]);
      forall i | 0 <= i < |t| && t[i] == '&'
        ensures StartsEntity(t[i..])
      {
        if i < |e| {
          assert e[i] == '&';
          assert i == 0 && e <= t;
        } else {
          assert t[i..] == rest[i - |e|..];
          assert rest[i - |e|] == '&';
        }
      }
    }
  }

  /** The output of `escapeHtml` is inert markup: no raw `<`, `>`, `"` or `'`,
      and every `&` begins one of the five entities. */
  lemma EscapeHtmlSafe(s: string)
    ensures IsSafeMarkup(EscapeHtml(s))
  {
    EscapeHtmlIsPerChar(s);
    EscapeEachAmpersands(s);
  }
}
