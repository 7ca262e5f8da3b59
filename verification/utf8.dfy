/** UTF-8 encoding (`str.encode('utf8')`), as used for outbound command bytes. */
module Utf8 {

  type Byte = b: int | 0 <= b < 256

  /** The newline byte. */
  const LF: Byte := 10

  /** The UTF-8 encoding of one Unicode scalar value. */
  function EncodeChar(c: char): (r: seq<Byte>)
    ensures 1 <= |r| <= 4
    ensures |r| == 1 <==> c as int < 0x80
    ensures |r| == 1 ==> r[0] == c as int
    ensures |r| > 1 ==> forall i :: 0 <= i < |r| ==> r[i] >= 0x80
  {
    var n := c as int;
    if n < 0x80 then [n]
    else if n < 0x800 then [0xC0 + n / 64, 0x80 + n % 64]
    else if n < 0x10000 then [0xE0 + n / 4096, 0x80 + (n / 64) % 64, 0x80 + n % 64]
    else [0xF0 + n / 262144, 0x80 + (n / 4096) % 64, 0x80 + (n / 64) % 64, 0x80 + n % 64]
  }

  function Encode(s: string): (r: seq<Byte>)
    ensures |r| >= |s|
  {
    if s == [] then [] else EncodeChar(s[0]) + Encode(s[1..])
  }

  /** Encoding is a homomorphism from concatenation to concatenation. */
  lemma {:induction false} EncodeAppend(a: string, b: string)
    ensures Encode(a + b) == Encode(a) + Encode(b)
  {
    if a == [] {
      assert a + b == b;
    } else {
      assert (a + b)[1..] == a[1..] + b;
      EncodeAppend(a[1..], b);
    }
  }

  /** The newline byte comes only from the newline character. */
  lemma NewlineByte(c: char)
    ensures multiset(EncodeChar(c))[LF] == if c == '\n' then 1 else 0
  {
    var e := EncodeChar(c);
    if |e| == 1 {
      assert e == [c as int];
    } else {
      assert LF !in e;
    }
  }

  /** The newline byte occurs in an encoding exactly as often as the newline
      character occurs in the text: no multi-byte sequence contains it. */
  lemma {:induction false} NewlineBytes(s: string)
    ensures multiset(Encode(s))[LF] == multiset(s)['\n']
  {
    if s != [] {
      NewlineBytes(s[1..]);
      NewlineByte(s[0]);
      assert multiset(Encode(s)) == multiset(EncodeChar(s[0])) + multiset(Encode(s[1..]));
      assert multiset(s) == multiset([s[0]]) + multiset(s[1..]) by {
        assert s == [s[0]] + s[1..];
      }
    }
  }

  /** ASCII text encodes to its own code points, one byte each. */
  lemma {:induction false} AsciiEncoding(s: string)
    requires forall i :: 0 <= i < |s| ==> s[i] as int < 0x80
    ensures |Encode(s)| == |s|
    ensures forall i :: 0 <= i < |s| ==> Encode(s)[i] == s[i] as int
  {
    if s != [] {
      AsciiEncoding(s[1..]);
    }
  }
}
