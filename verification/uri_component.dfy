/** encodeURIComponent, the Encode operation of section 19.2.6 ("URI Handling
    Functions") of ECMA-262: every character outside the unreserved set is
    written as its UTF-8 octets (RFC 3629), each as a `%XX` triple with
    upper-case hex digits as in section 2.1 of RFC 3986. The unreserved set
    is that of RFC 3986 plus `! * ' ( )`.

    Decode is decodeURIComponent. It is proved to be the inverse of Encode,
    so the escaping loses nothing. */
module UriComponent {
  import opened Wrappers
  import Utf8

  /** ASCII letters, digits and `- _ . ! ~ * ' ( )`. */
  predicate IsUnreserved(c: char) {
    || 'A' <= c <= 'Z'
    || 'a' <= c <= 'z'
    || '0' <= c <= '9'
    || c in "-_.!~*'()"
  }

  predicate IsAsciiAlphanumeric(c: char) {
    'A' <= c <= 'Z' || 'a' <= c <= 'z' || '0' <= c <= '9'
  }

  predicate IsUpperHex(c: char) {
    '0' <= c <= '9' || 'A' <= c <= 'F'
  }

  const HexDigits: string := "0123456789ABCDEF"

  function HexDigit(n: nat): (c: char)
    requires n < 16
    ensures IsUpperHex(c)
  {
    HexDigits[n]
  }

  /** Value of a hex digit of either case, as decodeURIComponent reads it. */
  function HexValue(c: char): (r: Option<nat>)
    ensures r.Some? ==> r.value < 16
  {
    if '0' <= c <= '9' then Some(c as int - '0' as int)
    else if 'A' <= c <= 'F' then Some(c as int - 'A' as int + 10)
    else if 'a' <= c <= 'f' then Some(c as int - 'a' as int + 10)
    else None
  }

  lemma HexValueOfDigit(n: nat)
    requires n < 16
    ensures HexValue(HexDigit(n)) == Some(n)
  {
  }

  /** One octet as a `%XX` triple. */
  function EscapeOctet(b: Utf8.Byte): (t: string)
    ensures |t| == 3 && t[0] == '%' && IsUpperHex(t[1]) && IsUpperHex(t[2])
  {
    ['%', HexDigit(b / 16), HexDigit(b % 16)]
  }

  function EscapeOctets(bs: seq<Utf8.Byte>): (t: string)
    ensures |t| == 3 * |bs|
  {
    if |bs| == 0 then [] else EscapeOctet(bs[0]) + EscapeOctets(bs[1..])
  }

  /** The encoding of one character: itself when unreserved, otherwise its
      UTF-8 octets escaped. */
  function EncodeChar(c: char): (t: string)
    ensures IsUnreserved(c) ==> t == [c]
    ensures !IsUnreserved(c) ==> 3 <= |t| <= 12 && t[0] == '%'
  {
    if IsUnreserved(c) then [c] else EscapeOctets(Utf8.EncodeChar(c))
  }

  lemma EscapeOctetsOfPair(a: Utf8.Byte, b: Utf8.Byte)
    ensures EscapeOctets([a, b]) == EscapeOctet(a) + EscapeOctet(b)
  {
    assert [a, b][1..] == [b];
  }

  /** Space and `&` are single octets and are escaped as such. */
  lemma EncodeCharAsciiExamples()
    ensures EncodeChar(' ') == "%20"
    ensures EncodeChar('&') == "%26"
  {
    assert EscapeOctet(0x20) == "%20";
    assert EscapeOctet(0x26) == "%26";
  }

  lemma EncodeCharTwoOctetExample()
    ensures EncodeChar('é') == "%C3%A9"
  {
    Utf8.EncodeCharExamples();
    EscapeOctetsOfPair(0xC3, 0xA9);
    assert EscapeOctet(0xC3) == "%C3";
    assert EscapeOctet(0xA9) == "%A9";
  }

  lemma EncodeCharThreeOctetExample()
    ensures EncodeChar('€') == "%E2%82%AC"
  {
    Utf8.EncodeCharExamples();
    var bs: seq<Utf8.Byte> := [0xE2, 0x82, 0xAC];
    assert EscapeOctets(bs) == EscapeOctet(0xE2) + EscapeOctets(bs[1..]);
    EscapeOctetsOfPair(0x82, 0xAC);
    assert EscapeOctet(0xE2) == "%E2";
    assert EscapeOctet(0x82) == "%82";
    assert EscapeOctet(0xAC) == "%AC";
  }

  lemma EncodeCharFourOctetExample()
    ensures EncodeChar('😀') == "%F0%9F%98%80"
  {
    Utf8.EncodeCharExamples();
    var bs: seq<Utf8.Byte> := [0xF0, 0x9F, 0x98, 0x80];
    assert EscapeOctets(bs) == EscapeOctet(0xF0) + EscapeOctets(bs[1..]);
    assert EscapeOctets(bs[1..]) == EscapeOctet(0x9F) + EscapeOctets(bs[2..]);
    EscapeOctetsOfPair(0x98, 0x80);
    assert EscapeOctet(0xF0) == "%F0";
    assert EscapeOctet(0x9F) == "%9F";
    assert EscapeOctet(0x98) == "%98";
    assert EscapeOctet(0x80) == "%80";
  }

  /** `t` is a run of unreserved characters and `%XX` triples whose hex
      digits are upper case, and nothing else. */
  predicate IsEscaped(t: string)
    decreases |t|
  {
    if |t| == 0 then true
    else if IsUnreserved(t[0]) then IsEscaped(t[1..])
    else |t| >= 3 && t[0] == '%' && IsUpperHex(t[1]) && IsUpperHex(t[2]) && IsEscaped(t[3..])
  }

  /** encodeURIComponent. */
  function Encode(s: string): (t: string)
    ensures IsEscaped(t)
    ensures |t| >= |s|
  {
    if |s| == 0 then []
    else
      var head := EncodeChar(s[0]);
      EncodeCharIsEscaped(s[0]);
      var rest := Encode(s[1..]);
      EscapedConcat(head, rest);
      head + rest
  }

  /** Encoding works character by character: it distributes over
      concatenation. */
  lemma {:induction false} EncodeConcat(a: string, b: string)
    ensures Encode(a + b) == Encode(a) + Encode(b)
  {
    if |a| == 0 {
      assert a + b == b;
    } else {
      assert (a + b)[0] == a[0];
      assert (a + b)[1..] == a[1..] + b;
      EncodeConcat(a[1..], b);
    }
  }

  lemma EncodeExamples()
    ensures Encode("a b") == "a%20b"
    ensures Encode("a&b") == "a%26b"
  {
    EncodeCharAsciiExamples();
    assert Encode("b") == "b";
    assert Encode(" b") == "%20b";
    assert Encode("&b") == "%26b";
  }

  lemma {:induction false} EscapeOctetsIsEscaped(bs: seq<Utf8.Byte>)
    ensures IsEscaped(EscapeOctets(bs))
  {
    if |bs| > 0 {
      var t := EscapeOctets(bs);
      EscapeOctetsIsEscaped(bs[1..]);
      assert t[3..] == EscapeOctets(bs[1..]);
    }
  }

  lemma EncodeCharIsEscaped(c: char)
    ensures IsEscaped(EncodeChar(c))
  {
    if !IsUnreserved(c) {
      EscapeOctetsIsEscaped(Utf8.EncodeChar(c));
    }
  }

  lemma {:induction false} EscapedConcat(a: string, b: string)
    requires IsEscaped(a) && IsEscaped(b)
    ensures IsEscaped(a + b)
    decreases |a|
  {
    if |a| > 0 {
      assert (a + b)[0] == a[0];
      if IsUnreserved(a[0]) {
        assert (a + b)[1..] == a[1..] + b;
        EscapedConcat(a[1..], b);
      } else {
        assert (a + b)[1] == a[1] && (a + b)[2] == a[2];
        assert (a + b)[3..] == a[3..] + b;
        EscapedConcat(a[3..], b);
      }
    } else {
      assert a + b == b;
    }
  }

  /** Every character of an escaped string is unreserved, a `%`, or an
      upper-case hex digit. */
  lemma {:induction false} EscapedAlphabet(t: string)
    requires IsEscaped(t)
    ensures forall i :: 0 <= i < |t| ==> IsUnreserved(t[i]) || t[i] == '%' || IsUpperHex(t[i])
    decreases |t|
  {
    if |t| > 0 {
      if IsUnreserved(t[0]) {
        EscapedAlphabet(t[1..]);
        assert forall i :: 1 <= i < |t| ==> t[i] == t[1..][i - 1];
      } else {
        EscapedAlphabet(t[3..]);
        assert forall i :: 3 <= i < |t| ==> t[i] == t[3..][i - 3];
      }
    }
  }

  lemma OutsideAlphabet(t: string, c: char)
    requires IsEscaped(t)
    requires !IsUnreserved(c) && c != '%' && !IsUpperHex(c)
    ensures c !in t
  {
    EscapedAlphabet(t);
  }

  /** The query delimiters and space are neither unreserved, `%`, nor hex digits. */
  lemma DelimitersOutsideAlphabet()
    ensures forall c :: c in "&?=# " ==> !IsUnreserved(c) && c != '%' && !IsUpperHex(c)
  {
  }

  /** An encoded component never holds a raw query delimiter or space, so it
      cannot end the `subject`, `body` or `text` parameter it is placed in. */
  lemma EncodeHasNoDelimiters(s: string)
    ensures '&' !in Encode(s) && '?' !in Encode(s) && '=' !in Encode(s)
    ensures '#' !in Encode(s) && ' ' !in Encode(s)
  {
    var t := Encode(s);
    DelimitersOutsideAlphabet();
    OutsideAlphabet(t, '&');
    OutsideAlphabet(t, '?');
    OutsideAlphabet(t, '=');
    OutsideAlphabet(t, '#');
    OutsideAlphabet(t, ' ');
  }

  /** Encoding leaves a string unchanged exactly when all its characters are
      unreserved; in particular it is the identity on ASCII letters and digits. */
  lemma {:induction false} EncodeIdentity(s: string)
    ensures Encode(s) == s <==> forall i :: 0 <= i < |s| ==> IsUnreserved(s[i])
  {
    if |s| > 0 {
      EncodeIdentity(s[1..]);
      assert s == [s[0]] + s[1..];
      if IsUnreserved(s[0]) {
        assert Encode(s) == [s[0]] + Encode(s[1..]);
        assert forall i :: 1 <= i < |s| ==> s[i] == s[1..][i - 1];
      } else {
        assert |Encode(s)| >= 3 + |s[1..]| > |s|;
      }
    }
  }

  lemma AlphanumericUnchanged(s: string)
    requires forall i :: 0 <= i < |s| ==> IsAsciiAlphanumeric(s[i])
    ensures Encode(s) == s
  {
    EncodeIdentity(s);
  }

  /** Reads one `%XX` triple at the front of `s`. */
  function ReadOctet(s: string): (r: Option<Utf8.Byte>)
    ensures r.Some? ==> |s| >= 3
  {
    if |s| < 3 || s[0] != '%' then None
    else
      var hi :- HexValue(s[1]);
      var lo :- HexValue(s[2]);
      Some(hi * 16 + lo)
  }

  /** Reads a run of `%XX` triples covering all of `s`. */
  function ReadOctets(s: string): (r: Option<seq<Utf8.Byte>>)
    decreases |s|
  {
    if |s| == 0 then Some([])
    else
      var b :- ReadOctet(s);
      var rest :- ReadOctets(s[3..]);
      Some([b] + rest)
  }

  /** Reads the `%XX` triples of one UTF-8 encoded character at the front of
      `s`, and returns that character with the number of characters read. */
  function DecodeEscaped(s: string): (r: Option<(char, nat)>)
    ensures r.Some? ==> 3 <= r.value.1 <= |s|
  {
    var b :- ReadOctet(s);
    var n := Utf8.SequenceLength(b);
    if n == 0 || |s| < 3 * n then None
    else
      var bs :- ReadOctets(s[..3 * n]);
      var c :- Utf8.DecodeChar(bs);
      Some((c, 3 * n))
  }

  /** decodeURIComponent: `%XX` runs are read as UTF-8, anything else is
      kept; None where ECMA-262 throws URIError. */
  function Decode(s: string): (r: Option<string>)
    decreases |s|
  {
    if |s| == 0 then Some([])
    else if s[0] != '%' then
      var rest :- Decode(s[1..]);
      Some([s[0]] + rest)
    else
      var (c, k) :- DecodeEscaped(s);
      var rest :- Decode(s[k..]);
      Some([c] + rest)
  }

  lemma ReadOctetOfEscape(b: Utf8.Byte, rest: string)
    ensures ReadOctet(EscapeOctet(b) + rest) == Some(b)
  {
    HexValueOfDigit(b / 16);
    HexValueOfDigit(b % 16);
  }

  lemma {:induction false} ReadOctetsOfEscape(bs: seq<Utf8.Byte>)
    ensures ReadOctets(EscapeOctets(bs)) == Some(bs)
  {
    if |bs| > 0 {
      var t := EscapeOctets(bs);
      ReadOctetOfEscape(bs[0], EscapeOctets(bs[1..]));
      assert t[3..] == EscapeOctets(bs[1..]);
      ReadOctetsOfEscape(bs[1..]);
      assert [bs[0]] + bs[1..] == bs;
    }
  }

  /** The steps of DecodeEscaped, taken one at a time. */
  lemma DecodeEscapedSteps(t: string, b: Utf8.Byte, bs: seq<Utf8.Byte>, c: char)
    requires ReadOctet(t) == Some(b)
    requires 1 <= Utf8.SequenceLength(b) && 3 * Utf8.SequenceLength(b) <= |t|
    requires ReadOctets(t[..3 * Utf8.SequenceLength(b)]) == Some(bs)
    requires Utf8.DecodeChar(bs) == Some(c)
    ensures DecodeEscaped(t) == Some((c, 3 * Utf8.SequenceLength(b)))
  {
  }

  lemma DecodeEscapedOfEncode(c: char, rest: string)
    requires !IsUnreserved(c)
    ensures DecodeEscaped(EncodeChar(c) + rest) == Some((c, |EncodeChar(c)|))
  {
    var bs := Utf8.EncodeChar(c);
    var e := EscapeOctets(bs);
    var t := e + rest;
    var n := |bs|;
    assert EncodeChar(c) == e && |e| == 3 * n;
    assert t == EscapeOctet(bs[0]) + (EscapeOctets(bs[1..]) + rest) by {
      assert e == EscapeOctet(bs[0]) + EscapeOctets(bs[1..]);
    }
    ReadOctetOfEscape(bs[0], EscapeOctets(bs[1..]) + rest);
    assert t[..3 * n] == e;
    ReadOctetsOfEscape(bs);
    Utf8.DecodeOfEncode(c);
    DecodeEscapedSteps(t, bs[0], bs, c);
  }

  /** Decoding the encoding of one character, followed by anything, yields
      that character and continues with what follows. */
  lemma DecodeOfEncodeChar(c: char, rest: string, d: string)
    requires Decode(rest) == Some(d)
    ensures Decode(EncodeChar(c) + rest) == Some([c] + d)
  {
    var t := EncodeChar(c) + rest;
    if IsUnreserved(c) {
      assert t[1..] == rest;
    } else {
      DecodeEscapedOfEncode(c, rest);
      assert t[|EncodeChar(c)|..] == rest;
    }
  }

  /** decodeURIComponent undoes encodeURIComponent on every string. */
  lemma {:induction false} DecodeOfEncode(s: string)
    ensures Decode(Encode(s)) == Some(s)
  {
    if |s| > 0 {
      DecodeOfEncode(s[1..]);
      DecodeOfEncodeChar(s[0], Encode(s[1..]), s[1..]);
      assert [s[0]] + s[1..] == s;
    }
  }
}
