/**
  UTF-8 as RFC 3629 section 4 defines it, with the two facts a streaming decoder lives on:
  validity splits at any rune boundary, and every cut of valid text falls inside exactly one rune.
*/
module Utf8 {

  type Byte = bv8

  predicate IsTail(b: Byte) {
    0x80 <= b <= 0xBF
  }

  /** The second byte each lead byte admits: no overlong forms, no surrogates, nothing past U+10FFFF. */
  predicate SecondFits(lead: Byte, second: Byte) {
    if lead == 0xE0 then 0xA0 <= second <= 0xBF
    else if lead == 0xED then 0x80 <= second <= 0x9F
    else if lead == 0xF0 then 0x90 <= second <= 0xBF
    else if lead == 0xF4 then 0x80 <= second <= 0x8F
    else IsTail(second)
  }

  /** The length of the well-formed rune that s begins with; 0 when it begins with none. */
  function RuneSize(s: seq<Byte>): (n: nat)
    ensures n <= 4 && n <= |s|
    ensures forall i :: 1 <= i < n ==> IsTail(s[i])
  {
    if s == [] then 0
    else if s[0] <= 0x7F then 1
    else if 0xC2 <= s[0] <= 0xDF then
      if |s| >= 2 && IsTail(s[1]) then 2 else 0
    else if 0xE0 <= s[0] <= 0xEF then
      if |s| >= 3 && SecondFits(s[0], s[1]) && IsTail(s[2]) then 3 else 0
    else if 0xF0 <= s[0] <= 0xF4 then
      if |s| >= 4 && SecondFits(s[0], s[1]) && IsTail(s[2]) && IsTail(s[3]) then 4 else 0
    else 0
  }

  predicate Valid(s: seq<Byte>) {
    s == [] || (RuneSize(s) > 0 && Valid(s[RuneSize(s)..]))
  }

  /** After valid text, the whole is valid exactly when the rest is. */
  lemma {:induction false} ValidConcat(a: seq<Byte>, b: seq<Byte>)
    requires Valid(a)
    ensures Valid(a + b) <==> Valid(b)
    decreases |a|
  {
    if a == [] {
      assert a + b == b;
    } else {
      var n := RuneSize(a);
      assert (a + b)[..n] == a[..n];
      assert (a + b)[n..] == a[n..] + b;
      ValidConcat(a[n..], b);
    }
  }

  lemma RuneIsValid(s: seq<Byte>)
    requires RuneSize(s) > 0
    ensures Valid(s[..RuneSize(s)])
  {
    var n := RuneSize(s);
    assert s[..n][n..] == [];
  }

  /** A position inside or right after a rune of valid text: the rune starts at q and reaches at. */
  ghost predicate RuneReaches(s: seq<Byte>, q: nat, at: nat) {
    && q < at <= |s|
    && Valid(s[..q])
    && RuneSize(s[q..]) > 0
    && at <= q + RuneSize(s[q..])
  }

  lemma {:induction false} RuneAtCut(s: seq<Byte>, at: nat) returns (q: nat)
    requires Valid(s) && 0 < at <= |s|
    ensures RuneReaches(s, q, at)
    decreases |s|
  {
    var n := RuneSize(s);
    if at <= n {
      q := 0;
      assert s[0..] == s;
    } else {
      var inner := RuneAtCut(s[n..], at - n);
      q := n + inner;
      RuneIsValid(s);
      ValidConcat(s[..n], s[n..][..inner]);
      assert s[..q] == s[..n] + s[n..][..inner];
      assert s[q..] == s[n..][inner..];
    }
  }
}
