/** UTF-8 as RFC 3629 defines it: every Unicode scalar value becomes one to
    four octets. This is the octet layer of encodeURIComponent. */
module Utf8 {
  import opened Wrappers

  type Byte = b: int | 0 <= b < 0x100

  /** The scalar value of a character (Dafny characters are Unicode scalar values). */
  function CodePoint(c: char): (n: int)
    ensures 0 <= n < 0xD800 || 0xE000 <= n < 0x11_0000
  {
    c as int
  }

  predicate IsContinuation(b: Byte) {
    0x80 <= b < 0xC0
  }

  /** Number of octets announced by a leading octet; 0 when `b` cannot lead. */
  function SequenceLength(b: Byte): (n: nat)
    ensures n <= 4
  {
    if b < 0x80 then 1
    else if 0xC2 <= b < 0xE0 then 2
    else if 0xE0 <= b < 0xF0 then 3
    else if 0xF0 <= b < 0xF5 then 4
    else 0
  }

  /** The octets of one character, shortest form. */
  function EncodeChar(c: char): (bs: seq<Byte>)
    ensures 1 <= |bs| <= 4
    ensures SequenceLength(bs[0]) == |bs|
    ensures forall i :: 1 <= i < |bs| ==> IsContinuation(bs[i])
    ensures |bs| == 1 <==> CodePoint(c) < 0x80
  {
    var n := CodePoint(c);
    if n < 0x80 then [n]
    else if n < 0x800 then [0xC0 + n / 0x40, 0x80 + n % 0x40]
    else if n < 0x1_0000 then [0xE0 + n / 0x1000, 0x80 + (n / 0x40) % 0x40, 0x80 + n % 0x40]
    else [0xF0 + n / 0x4_0000, 0x80 + (n / 0x1000) % 0x40, 0x80 + (n / 0x40) % 0x40, 0x80 + n % 0x40]
  }

  /** Scalar value spelled by a well-shaped octet sequence, not yet range-checked. */
  function RawValue(bs: seq<Byte>): int
    requires 1 <= |bs| <= 4
  {
    if |bs| == 1 then bs[0]
    else if |bs| == 2 then (bs[0] as int - 0xC0) * 0x40 + (bs[1] as int - 0x80)
    else if |bs| == 3 then (bs[0] as int - 0xE0) * 0x1000 + (bs[1] as int - 0x80) * 0x40 + (bs[2] as int - 0x80)
    else (bs[0] as int - 0xF0) * 0x4_0000 + (bs[1] as int - 0x80) * 0x1000 + (bs[2] as int - 0x80) * 0x40 + (bs[3] as int - 0x80)
  }

  /** Smallest scalar value that needs `n` octets. */
  function MinValue(n: nat): int
    requires 1 <= n <= 4
  {
    if n == 1 then 0 else if n == 2 then 0x80 else if n == 3 then 0x800 else 0x1_0000
  }

  /** Decodes exactly one character from `bs`, refusing overlong forms,
      surrogates, values above U+10FFFF and bad continuation octets. */
  function DecodeChar(bs: seq<Byte>): (r: Option<char>)
  {
    if |bs| == 0 || SequenceLength(bs[0]) != |bs| then None
    else if exists i :: 1 <= i < |bs| && !IsContinuation(bs[i]) then None
    else
      var v := RawValue(bs);
      if v < MinValue(|bs|) || 0x11_0000 <= v || (0xD800 <= v < 0xE000) then None
      else Some(v as char)
  }

  /** Decoding the octets of a character gives that character back. */
  lemma DecodeOfEncode(c: char)
    ensures DecodeChar(EncodeChar(c)) == Some(c)
  {
    var n := CodePoint(c);
    if n < 0x80 {
    } else if n < 0x800 {
      DecodeOfEncode2(c);
    } else if n < 0x1_0000 {
      DecodeOfEncode3(c);
    } else {
      DecodeOfEncode4(c);
    }
  }

  lemma DecodeOfEncode2(c: char)
    requires 0x80 <= CodePoint(c) < 0x800
    ensures DecodeChar(EncodeChar(c)) == Some(c)
  {
    var n := CodePoint(c);
    var bs := EncodeChar(c);
    assert RawValue(bs) == (n / 0x40) * 0x40 + n % 0x40 == n;
  }

  lemma DecodeOfEncode3(c: char)
    requires 0x800 <= CodePoint(c) < 0x1_0000
    ensures DecodeChar(EncodeChar(c)) == Some(c)
  {
    var n := CodePoint(c);
    var bs := EncodeChar(c);
    assert RawValue(bs) == (n / 0x1000) * 0x1000 + ((n / 0x40) % 0x40) * 0x40 + n % 0x40 == n;
  }

  lemma DecodeOfEncode4(c: char)
    requires 0x1_0000 <= CodePoint(c)
    ensures DecodeChar(EncodeChar(c)) == Some(c)
  {
    var n := CodePoint(c);
    var bs := EncodeChar(c);
    var m1, m2 := n / 0x40, n / 0x1000;
    assert n == m1 * 0x40 + n % 0x40;
    assert m1 == m2 * 0x40 + m1 % 0x40;
    assert m2 == (n / 0x4_0000) * 0x40 + m2 % 0x40;
    assert RawValue(bs) == (n / 0x4_0000) * 0x4_0000 + (m2 % 0x40) * 0x1000
                           + (m1 % 0x40) * 0x40 + n % 0x40 == n;
  }

  /** The decoder accepts only shortest forms: whatever it accepts is the
      encoding of the character it returns. */
  lemma EncodeOfDecode(bs: seq<Byte>)
    requires DecodeChar(bs).Some?
    ensures EncodeChar(DecodeChar(bs).value) == bs
  {
    assert forall i :: 1 <= i < |bs| ==> IsContinuation(bs[i]);
    if |bs| == 2 {
      EncodeOfDecode2(bs);
    } else if |bs| == 3 {
      EncodeOfDecode3(bs);
    } else if |bs| == 4 {
      EncodeOfDecode4(bs);
    }
  }

  lemma EncodeOfDecode2(bs: seq<Byte>)
    requires DecodeChar(bs).Some? && |bs| == 2 && IsContinuation(bs[1])
    ensures EncodeChar(DecodeChar(bs).value) == bs
  {
    var v := RawValue(bs);
    assert CodePoint(DecodeChar(bs).value) == v;
    assert v / 0x40 == bs[0] as int - 0xC0 && v % 0x40 == bs[1] as int - 0x80;
  }

  lemma EncodeOfDecode3(bs: seq<Byte>)
    requires DecodeChar(bs).Some? && |bs| == 3 && IsContinuation(bs[1]) && IsContinuation(bs[2])
    ensures EncodeChar(DecodeChar(bs).value) == bs
  {
    var v := RawValue(bs);
    assert CodePoint(DecodeChar(bs).value) == v;
    assert v / 0x1000 == bs[0] as int - 0xE0;
    assert v / 0x40 == (bs[0] as int - 0xE0) * 0x40 + (bs[1] as int - 0x80);
    assert (v / 0x40) % 0x40 == bs[1] as int - 0x80;
    assert v % 0x40 == bs[2] as int - 0x80;
  }

  lemma EncodeOfDecode4(bs: seq<Byte>)
    requires DecodeChar(bs).Some? && |bs| == 4
    requires IsContinuation(bs[1]) && IsContinuation(bs[2]) && IsContinuation(bs[3])
    ensures EncodeChar(DecodeChar(bs).value) == bs
  {
    var v := RawValue(bs);
    assert CodePoint(DecodeChar(bs).value) == v;
    assert v / 0x4_0000 == bs[0] as int - 0xF0;
    assert v / 0x1000 == (bs[0] as int - 0xF0) * 0x40 + (bs[1] as int - 0x80);
    assert (v / 0x1000) % 0x40 == bs[1] as int - 0x80;
    assert v / 0x40 == ((bs[0] as int - 0xF0) * 0x40 + (bs[1] as int - 0x80)) * 0x40 + (bs[2] as int - 0x80);
    assert (v / 0x40) % 0x40 == bs[2] as int - 0x80;
    assert v % 0x40 == bs[3] as int - 0x80;
  }

  /** One character of each multi-octet length, with the octets RFC 3629
      gives for it. */
  lemma EncodeCharExamples()
    ensures EncodeChar('é') == [0xC3, 0xA9]
    ensures EncodeChar('€') == [0xE2, 0x82, 0xAC]
    ensures EncodeChar('😀') == [0xF0, 0x9F, 0x98, 0x80]
  {
    assert CodePoint('é') == 0xE9;
    assert CodePoint('€') == 0x20AC;
    assert CodePoint('😀') == 0x1F600;
  }
}
