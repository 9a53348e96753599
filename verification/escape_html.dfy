/**
  `escapeHtml` from the web client: one pass over the string replacing each of
  `&`, `<`, `>`, `"`, `'` by its HTML entity. The five characters are all in
  the Basic Multilingual Plane, so matching JavaScript's UTF-16 code units and
  matching characters agree.
 */
module HtmlEscape {

  datatype Option<+T> = None | Some(value: T)

  /** The characters the replacement pattern `/[&<>"']/g` matches. */
  predicate IsSpecial(c: char)
  {
    c == '&' || c == '<' || c == '>' || c == '"' || c == '\''
  }

  /** The characters that must not appear raw in escaped output. */
  predicate IsMarkup(c: char)
  {
    c == '<' || c == '>' || c == '"' || c == '\''
  }

  /** The replacement for one character: its entity if special, itself otherwise. */
  function Entity(c: char): string
  {
    if c == '&' then "&amp;"
    else if c == '<' then "&lt;"
    else if c == '>' then "&gt;"
    else if c == '"' then "&quot;"
    else if c == '\'' then "&#39;"
    else [c]
  }

  /** Number of occurrences of `c` in `s`. */
  function Count(s: string, c: char): nat
  {
    multiset(s)[c]
  }

  /** How much longer escaping makes `s`: 4, 3, 3, 5 and 4 extra characters per special character. */
  function Overhead(s: string): nat
  {
    4 * Count(s, '&') + 3 * Count(s, '<') + 3 * Count(s, '>') + 5 * Count(s, '"') + 4 * Count(s, '\'')
  }

  /**
    Replaces every special character by its entity, left to right, without
    looking at the replacements again.
   */
  function Escape(s: string): (r: string)
    ensures forall i :: 0 <= i < |r| ==> !IsMarkup(r[i])
  {
    if |s| == 0 then "" else Entity(s[0]) + Escape(s[1..])
  }

  /** One character's contribution to the length of the escaped text. */
  lemma EntityLength(c: char)
    ensures |Entity(c)| == 1 + Overhead([c])
  {
    assert multiset([c]) == multiset{c};
  }

  /** The extra length is additive over concatenation. */
  lemma OverheadConcat(a: string, b: string)
    ensures Overhead(a + b) == Overhead(a) + Overhead(b)
  {
    assert multiset(a + b) == multiset(a) + multiset(b);
  }

  /** Escaping grows the text by exactly the entities' extra characters. */
  lemma {:induction false} EscapeLength(s: string)
    ensures |Escape(s)| == |s| + Overhead(s)
  {
    if |s| > 0 {
      assert s == [s[0]] + s[1..];
      EntityLength(s[0]);
      OverheadConcat([s[0]], s[1..]);
      EscapeLength(s[1..]);
    }
  }

  /** Text without special characters is returned unchanged. */
  lemma {:induction false} EscapePlain(s: string)
    requires forall i :: 0 <= i < |s| ==> !IsSpecial(s[i])
    ensures Escape(s) == s
  {
    if |s| > 0 {
      EscapePlain(s[1..]);
    }
  }

  /** `escapeHtml(str)`: `null` and `undefined` give the empty string. */
  function EscapeHtml(str: Option<string>): (r: string)
    ensures str.None? ==> r == ""
    ensures str.Some? ==> |r| == |str.value| + Overhead(str.value)
    ensures str.Some? ==> Unescape(r) == str.value
    ensures forall i :: 0 <= i < |r| ==> !IsMarkup(r[i])
  {
    match str
    case None => Escape("")
    case Some(s) =>
      EscapeLength(s);
      UnescapeEscape(s);
      Escape(s)
  }

  /** Decodes the five entities `Escape` produces; any other text is copied. */
  function Unescape(t: string): string
    decreases |t|
  {
    if |t| == 0 then ""
    else if |t| >= 5 && t[..5] == "&amp;" then "&" + Unescape(t[5..])
    else if |t| >= 4 && t[..4] == "&lt;" then "<" + Unescape(t[4..])
    else if |t| >= 4 && t[..4] == "&gt;" then ">" + Unescape(t[4..])
    else if |t| >= 6 && t[..6] == "&quot;" then "\"" + Unescape(t[6..])
    else if |t| >= 5 && t[..5] == "&#39;" then "'" + Unescape(t[5..])
    else [t[0]] + Unescape(t[1..])
  }

  /** Decoding an entity followed by more text: one step of `Unescape`. */
  lemma UnescapeEntity(c: char, rest: string)
    ensures Unescape(Entity(c) + rest) == [c] + Unescape(rest)
  {
    if c == '&' { UnescapeAmp(rest); }
    else if c == '<' { UnescapeLt(rest); }
    else if c == '>' { UnescapeGt(rest); }
    else if c == '"' { UnescapeQuot(rest); }
    else if c == '\'' { UnescapeApos(rest); }
    else { UnescapeOther(c, rest); }
  }

  lemma UnescapeOther(c: char, rest: string)
    requires !IsSpecial(c)
    ensures Unescape([c] + rest) == [c] + Unescape(rest)
  {
    var t := [c] + rest;
    assert t[0] == c && t[1..] == rest;
  }

  lemma UnescapeAmp(rest: string)
    ensures Unescape("&amp;" + rest) == "&" + Unescape(rest)
  {
    var t := "&amp;" + rest;
    assert t[..5] == "&amp;" && t[5..] == rest;
  }

  lemma UnescapeLt(rest: string)
    ensures Unescape("&lt;" + rest) == "<" + Unescape(rest)
  {
    var t := "&lt;" + rest;
    assert t[1] == 'l';
    assert t[..4] == "&lt;" && t[4..] == rest;
  }

  lemma UnescapeGt(rest: string)
    ensures Unescape("&gt;" + rest) == ">" + Unescape(rest)
  {
    var t := "&gt;" + rest;
    assert t[1] == 'g';
    assert t[..4] == "&gt;" && t[4..] == rest;
  }

  lemma UnescapeQuot(rest: string)
    ensures Unescape("&quot;" + rest) == "\"" + Unescape(rest)
  {
    var t := "&quot;" + rest;
    assert t[1] == 'q';
    assert t[..6] == "&quot;" && t[6..] == rest;
  }

  lemma UnescapeApos(rest: string)
    ensures Unescape("&#39;" + rest) == "'" + Unescape(rest)
  {
    var t := "&#39;" + rest;
    assert t[1] == '#';
    assert t[..5] == "&#39;" && t[5..] == rest;
  }

  /** Escaping loses nothing: decoding the entities gives the original text back. */
  lemma {:induction false} UnescapeEscape(s: string)
    ensures Unescape(Escape(s)) == s
  {
    if |s| > 0 {
      UnescapeEntity(s[0], Escape(s[1..]));
      UnescapeEscape(s[1..]);
    }
  }

  /** The escaping of a concatenation is the concatenation of the escapings: one independent step per character. */
  lemma {:induction false} EscapeConcat(a: string, b: string)
    ensures Escape(a + b) == Escape(a) + Escape(b)
  {
    if |a| > 0 {
      assert (a + b)[1..] == a[1..] + b;
      EscapeConcat(a[1..], b);
    } else {
      assert a + b == b;
    }
  }

  /** Inserted entities are not escaped again: a lone `&` becomes exactly `&amp;`, and escaping twice differs. */
  lemma SinglePass()
    ensures Escape("&") == "&amp;"
    ensures Escape(Escape("&")) == "&amp;amp;"
  {
    assert Escape("&") == "&amp;" + Escape("");
    EscapeConcat("&", "amp;");
    EscapePlain("amp;");
  }
}
