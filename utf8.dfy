/**
 * Well-formed UTF-8 as defined by the UTF8-octets syntax of RFC 3629, section 4:
 * the judgement `String::from_utf8` makes on a byte vector.
 */
module Utf8 {
  import opened Numbers

  /** UTF8-tail = %x80-BF */
  predicate IsTail(b: Byte) {
    0x80 <= b <= 0xBF
  }

  /**
   * The length of the UTF8-char at the start of `s` (1 to 4), or 0 when `s` does not
   * start with one: UTF8-1, UTF8-2, the four UTF8-3 forms and the three UTF8-4 forms.
   */
  function CharLength(s: seq<Byte>): (n: nat)
    ensures n <= |s| && n <= 4
    ensures n > 0 ==> |s| > 0
  {
    if |s| == 0 then 0
    else
      var b := s[0];
      if b <= 0x7F then 1
      else if 0xC2 <= b <= 0xDF then
        (if |s| >= 2 && IsTail(s[1]) then 2 else 0)
      else if b == 0xE0 then
        (if |s| >= 3 && 0xA0 <= s[1] <= 0xBF && IsTail(s[2]) then 3 else 0)
      else if 0xE1 <= b <= 0xEC || 0xEE <= b <= 0xEF then
        (if |s| >= 3 && IsTail(s[1]) && IsTail(s[2]) then 3 else 0)
      else if b == 0xED then
        (if |s| >= 3 && 0x80 <= s[1] <= 0x9F && IsTail(s[2]) then 3 else 0)
      else if b == 0xF0 then
        (if |s| >= 4 && 0x90 <= s[1] <= 0xBF && IsTail(s[2]) && IsTail(s[3]) then 4 else 0)
      else if 0xF1 <= b <= 0xF3 then
        (if |s| >= 4 && IsTail(s[1]) && IsTail(s[2]) && IsTail(s[3]) then 4 else 0)
      else if b == 0xF4 then
        (if |s| >= 4 && 0x80 <= s[1] <= 0x8F && IsTail(s[2]) && IsTail(s[3]) then 4 else 0)
      else 0
  }

  /** No byte of a character is 0xFF. */
  lemma CharBytesBelowFF(s: seq<Byte>)
    ensures forall i :: 0 <= i < CharLength(s) ==> s[i] <= 0xF4
  {
  }

  /** UTF8-octets = *( UTF8-char ) */
  predicate Valid(s: seq<Byte>)
    decreases |s|
  {
    |s| == 0 || (CharLength(s) > 0 && Valid(s[CharLength(s)..]))
  }

  /** What follows a complete character does not change how long that character is. */
  lemma CharLengthExtend(a: seq<Byte>, b: seq<Byte>)
    requires CharLength(a) > 0
    ensures CharLength(a + b) == CharLength(a)
  {
    var s := a + b;
    assert forall i :: 0 <= i < |a| ==> s[i] == a[i];
  }

  /** Two pieces of text written one after the other are text. */
  lemma {:induction false} ValidConcat(a: seq<Byte>, b: seq<Byte>)
    requires Valid(a) && Valid(b)
    ensures Valid(a + b)
    decreases |a|
  {
    if |a| > 0 {
      var n := CharLength(a);
      CharLengthExtend(a, b);
      assert Valid(a[n..]);
      assert (a + b)[n..] == a[n..] + b;
      ValidConcat(a[n..], b);
      assert Valid((a + b)[CharLength(a + b)..]);
    } else {
      assert a + b == b;
    }
  }

  /** Every ASCII byte is a one-byte character. */
  lemma {:induction false} AsciiIsValid(s: seq<Byte>)
    requires forall i :: 0 <= i < |s| ==> s[i] <= 0x7F
    ensures Valid(s)
    decreases |s|
  {
    if |s| > 0 {
      assert CharLength(s) == 1;
      AsciiIsValid(s[1..]);
    }
  }

  /**
   * 0xFF starts no character and continues none, so a byte sequence that holds it
   * anywhere is not text, whatever comes before or after it.
   */
  lemma {:induction false} StrayByteNeverValid(s: seq<Byte>)
    requires 0xFF in s
    ensures !Valid(s)
    decreases |s|
  {
    var n := CharLength(s);
    if n > 0 {
      CharBytesBelowFF(s);
      assert s == s[..n] + s[n..];
      assert 0xFF !in s[..n];
      StrayByteNeverValid(s[n..]);
    }
  }

  /**
   * U+20AC is E2 82 AC; cut after its second byte it is not text, and a lone 0xFF
   * never is.
   */
  lemma SplitCharacterExamples()
    ensures Valid([0xE2, 0x82, 0xAC])
    ensures !Valid([0xE2, 0x82])
    ensures !Valid([0xFF])
    ensures !Valid([0xE2])
  {
    var euro: seq<Byte> := [0xE2, 0x82, 0xAC];
    assert CharLength(euro) == 3;
    assert euro[3..] == [];
  }
}
