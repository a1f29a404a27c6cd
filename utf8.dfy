/** Well-formed UTF-8 byte sequences, as defined by the syntax in section 4
    of RFC 3629. `String::from_utf8` succeeds exactly on these. */
module Utf8 {
  import opened Words

  predicate IsTail(b: Byte) { 0x80 <= b <= 0xBF }

  /** Length of the UTF-8 character at the start of `s`, or 0 when `s` does
      not start with one. */
  function CharLength(s: seq<Byte>): (n: nat)
    ensures n <= 4 && n <= |s|
    ensures n == 1 <==> (|s| >= 1 && s[0] <= 0x7F)
  {
    if |s| == 0 then 0
    else if s[0] <= 0x7F then 1
    else if 0xC2 <= s[0] <= 0xDF then
      if |s| >= 2 && IsTail(s[1]) then 2 else 0
    else if 0xE0 <= s[0] <= 0xEF then
      if |s| >= 3 && IsTail(s[2]) &&
         (if s[0] == 0xE0 then 0xA0 <= s[1] <= 0xBF
          else if s[0] == 0xED then 0x80 <= s[1] <= 0x9F
          else IsTail(s[1]))
      then 3 else 0
    else if 0xF0 <= s[0] <= 0xF4 then
      if |s| >= 4 && IsTail(s[2]) && IsTail(s[3]) &&
         (if s[0] == 0xF0 then 0x90 <= s[1] <= 0xBF
          else if s[0] == 0xF4 then 0x80 <= s[1] <= 0x8F
          else IsTail(s[1]))
      then 4 else 0
    else 0
  }

  /** `UTF8-octets = *( UTF8-char )`. */
  predicate ValidUtf8(s: seq<Byte>)
    decreases |s|
  {
    s == [] || (CharLength(s) > 0 && ValidUtf8(s[CharLength(s)..]))
  }

  /** A character's length depends only on its own bytes. */
  lemma CharLengthPrefix(s: seq<Byte>, t: seq<Byte>)
    requires CharLength(s) > 0
    ensures CharLength(s + t) == CharLength(s)
  {
    var n := CharLength(s);
    assert (s + t)[..n] == s[..n];
  }

  /** Concatenating two well-formed sequences gives a well-formed sequence. */
  lemma {:induction false} ValidUtf8Append(a: seq<Byte>, b: seq<Byte>)
    requires ValidUtf8(a) && ValidUtf8(b)
    ensures ValidUtf8(a + b)
    decreases |a|
  {
    if a == [] {
      assert a + b == b;
    } else {
      var n := CharLength(a);
      CharLengthPrefix(a, b);
      assert (a + b)[n..] == a[n..] + b;
      ValidUtf8Append(a[n..], b);
    }
  }

  /** ASCII text, NUL bytes included, is well formed. */
  lemma {:induction false} AsciiIsValid(s: seq<Byte>)
    requires forall i :: 0 <= i < |s| ==> s[i] <= 0x7F
    ensures ValidUtf8(s)
  {
    if s != [] {
      assert CharLength(s) == 1;
      AsciiIsValid(s[1..]);
    }
  }

  /** A lone continuation byte is not well formed. */
  lemma LoneTailInvalid()
    ensures !ValidUtf8([0x80])
  {
  }
}
