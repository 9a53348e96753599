/**
  Room codes: `_code(n)` joins `n` random picks from `string.ascii_uppercase +
  string.digits`. The random picks are an input here: a draw is the sequence
  of alphabet positions `random.choice` would have chosen.
 */
module Codes {

  const CodeLength: nat := 6
  /** `create_room` tries this many fresh codes before giving up. */
  const CodeAttempts: nat := 20

  const Uppercase: string := "ABCDEFGHIJKLMNOPQRSTUVWXYZ"
  const Digits: string := "0123456789"

  /** `string.ascii_uppercase + string.digits` */
  const Alphabet: string := Uppercase + Digits

  /** Position `k` of the alphabet, computed from the character ranges. */
  function AlphabetChar(k: int): char
    requires 0 <= k < 36
  {
    if k < 26 then ('A' as int + k) as char else ('0' as int + (k - 26)) as char
  }

  predicate IsCodeChar(c: char)
  {
    'A' <= c <= 'Z' || '0' <= c <= '9'
  }

  /** A room code: exactly six characters, each an upper-case ASCII letter or a digit. */
  predicate IsCode(s: string)
  {
    |s| == CodeLength && forall i :: 0 <= i < |s| ==> IsCodeChar(s[i])
  }

  /** The picks of one `_code(6)` call: six positions in the alphabet. */
  predicate IsDraw(d: seq<int>)
  {
    |d| == CodeLength && forall i :: 0 <= i < |d| ==> 0 <= d[i] < |Alphabet|
  }

  /** `"".join(chars[p] for p in picks)` */
  function Code(d: seq<int>): (s: string)
    requires forall i :: 0 <= i < |d| ==> 0 <= d[i] < |Alphabet|
    ensures |s| == |d|
    ensures forall i :: 0 <= i < |s| ==> IsCodeChar(s[i])
  {
    if |d| == 0 then [] else [Alphabet[d[0]]] + Code(d[1..])
  }

  /** The alphabet position of a code character (the inverse of `AlphabetChar`). */
  function Position(c: char): (k: int)
    requires IsCodeChar(c)
    ensures 0 <= k < 36
    ensures AlphabetChar(k) == c
  {
    if 'A' <= c <= 'Z' then c as int - 'A' as int else 26 + (c as int - '0' as int)
  }

  /** The picks that produce a given string of code characters. */
  function Picks(s: string): (d: seq<int>)
    requires forall i :: 0 <= i < |s| ==> IsCodeChar(s[i])
    ensures |d| == |s|
    ensures forall i :: 0 <= i < |d| ==> 0 <= d[i] < |Alphabet|
  {
    if |s| == 0 then [] else [Position(s[0])] + Picks(s[1..])
  }

  /** The alphabet is the 26 upper-case letters in order followed by the 10 digits in order. */
  lemma AlphabetByRanges()
    ensures |Alphabet| == 36
    ensures forall k :: 0 <= k < 36 ==> Alphabet[k] == AlphabetChar(k)
  {
  }

  /** Every draw yields a valid room code. */
  lemma DrawYieldsCode(d: seq<int>)
    requires IsDraw(d)
    ensures IsCode(Code(d))
  {
  }

  /** `Position` undoes indexing into the alphabet. */
  lemma PositionOfAlphabet(k: int)
    requires 0 <= k < |Alphabet|
    ensures IsCodeChar(Alphabet[k]) && Position(Alphabet[k]) == k
  {
    AlphabetByRanges();
    assert Alphabet[k] == AlphabetChar(k);
    if k < 26 {
      assert Alphabet[k] as int == 'A' as int + k;
    } else {
      assert Alphabet[k] as int == '0' as int + (k - 26);
    }
  }

  /** Distinct draws give distinct codes, since each code determines its draw. */
  lemma {:induction false} PicksOfCode(d: seq<int>)
    requires forall i :: 0 <= i < |d| ==> 0 <= d[i] < |Alphabet|
    ensures Picks(Code(d)) == d
  {
    if |d| > 0 {
      PicksOfCode(d[1..]);
      var c := Code(d);
      assert c[1..] == Code(d[1..]);
      PositionOfAlphabet(d[0]);
    }
  }

  /** Indexing the alphabet undoes `Position`. */
  lemma AlphabetOfPosition(c: char)
    requires IsCodeChar(c)
    ensures Alphabet[Position(c)] == c
  {
    AlphabetByRanges();
  }

  /** Every valid room code is reachable: some draw produces it. */
  lemma {:induction false} CodeOfPicks(s: string)
    requires forall i :: 0 <= i < |s| ==> IsCodeChar(s[i])
    ensures Code(Picks(s)) == s
  {
    if |s| > 0 {
      var d := Picks(s);
      assert d[0] == Position(s[0]) && d[1..] == Picks(s[1..]);
      CodeOfPicks(s[1..]);
      AlphabetOfPosition(s[0]);
      assert s == [s[0]] + s[1..];
    }
  }
}
