/**
 The byte length of a string in UTF-8, as Rust's `String::len` reports it.
 A Dafny `char` is a Unicode scalar value; RFC 3629 (section 3) encodes
 each scalar value in one to four bytes according to its range.
 */
module Utf8 {

  /** Number of bytes RFC 3629 uses to encode the scalar value `c`. */
  function Width(c: char): (w: nat)
    ensures 1 <= w <= 4
    ensures w == 1 <==> c as int < 0x80
    ensures w == 4 <==> c as int >= 0x1_0000
  {
    if c as int < 0x80 then 1
    else if c as int < 0x800 then 2
    else if c as int < 0x1_0000 then 3
    else 4
  }

  /** `s.len()` for a Rust `String` holding the characters of `s`. */
  function ByteLen(s: string): (n: nat)
    ensures |s| <= n <= 4 * |s|
    ensures n == |s| <==> forall i :: 0 <= i < |s| ==> s[i] as int < 0x80
  {
    if s == [] then 0
    else
      var n := Width(s[0]) + ByteLen(s[1..]);
      assert forall i :: 1 <= i < |s| ==> s[i] == s[1..][i - 1];
      n
  }

  /** The byte length of a concatenation is the sum of the byte lengths. */
  lemma {:induction false} ByteLenAppend(a: string, b: string)
    ensures ByteLen(a + b) == ByteLen(a) + ByteLen(b)
  {
    if a == [] {
      assert a + b == b;
    } else {
      assert (a + b)[1..] == a[1..] + b;
      ByteLenAppend(a[1..], b);
    }
  }

  /** A string is never shorter in bytes than in characters, so any reason
      of at least `k` characters passes a byte-length bound of `k`. */
  lemma CharsBoundBytes(s: string, k: int)
    requires |s| >= k
    ensures ByteLen(s) >= k
  {
  }

  /** Eight copies of U+1F600 are eight characters but thirty-two bytes:
      a byte-length bound admits text far shorter than the bound in characters. */
  lemma FourByteCharsPassByteBound()
    ensures var s := seq(8, _ => '\U{1F600}'); |s| == 8 && ByteLen(s) == 32
  {
    var s := seq(8, _ => '\U{1F600}');
    assert forall i :: 0 <= i < |s| ==> Width(s[i]) == 4;
    FourByteRun(s);
  }

  /** A string made only of four-byte characters has four bytes per character. */
  lemma {:induction false} FourByteRun(s: string)
    requires forall i :: 0 <= i < |s| ==> Width(s[i]) == 4
    ensures ByteLen(s) == 4 * |s|
  {
    if s != [] {
      assert forall i :: 0 <= i < |s[1..]| ==> s[1..][i] == s[i + 1];
      FourByteRun(s[1..]);
    }
  }
}
