/**
  Python's `str.strip()` on the text of questions and answers, and the length
  bounds the database layer puts on the stripped text.
 */
module Text {

  /** The characters Python's `str.isspace` accepts (`str.strip()` with no argument removes these). */
  predicate IsSpace(c: char)
  {
    || ('\U{9}' <= c <= '\U{d}') || ('\U{1c}' <= c <= '\U{20}')
    || c == '\U{85}' || c == '\U{a0}' || c == '\U{1680}'
    || ('\U{2000}' <= c <= '\U{200a}') || c == '\U{2028}' || c == '\U{2029}'
    || c == '\U{202f}' || c == '\U{205f}' || c == '\U{3000}'
  }

  /** Number of whitespace characters at the front of `s`. */
  function Leading(s: string): (n: nat)
    ensures n <= |s|
    ensures forall k :: 0 <= k < n ==> IsSpace(s[k])
    ensures n < |s| ==> !IsSpace(s[n])
  {
    if |s| == 0 || !IsSpace(s[0]) then 0 else 1 + Leading(s[1..])
  }

  /** Number of whitespace characters at the end of `s`. */
  function Trailing(s: string): (n: nat)
    ensures n <= |s|
    ensures forall k :: |s| - n <= k < |s| ==> IsSpace(s[k])
    ensures n < |s| ==> !IsSpace(s[|s| - n - 1])
  {
    if |s| == 0 || !IsSpace(s[|s| - 1]) then 0 else 1 + Trailing(s[..|s| - 1])
  }

  predicate IsStripped(s: string)
  {
    |s| == 0 || (!IsSpace(s[0]) && !IsSpace(s[|s| - 1]))
  }

  /**
    `s.strip()`: the slice between the first and the last non-whitespace
    character; everything cut away is whitespace.
   */
  function Strip(s: string): (r: string)
    ensures IsStripped(r)
    ensures |r| <= |s|
    ensures exists i, j ::
              && 0 <= i <= j <= |s| && r == s[i..j]
              && (forall k :: 0 <= k < i ==> IsSpace(s[k]))
              && (forall k :: j <= k < |s| ==> IsSpace(s[k]))
    ensures r == [] <==> forall k :: 0 <= k < |s| ==> IsSpace(s[k])
  {
    var i := Leading(s);
    if i == |s| then
      assert s[0..0] == [];
      []
    else
      var j := |s| - Trailing(s);
      s[i..j]
  }

  /** A stripped string is its own strip. */
  lemma StripIdempotent(s: string)
    ensures Strip(Strip(s)) == Strip(s)
  {
    var r := Strip(s);
    if |r| > 0 {
      assert Leading(r) == 0;
      assert Trailing(r) == 0;
      assert r[0..|r|] == r;
    }
  }

  /** `not text or len(text) > limit` on already-stripped text. */
  predicate OutOfBounds(text: string, limit: nat)
  {
    |text| == 0 || |text| > limit
  }
}
