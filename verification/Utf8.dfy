/**
 UTF-8 (section 3 of RFC 3629) over well-formed Unicode strings, with the two decoders the
 browser offers: the strict one of the URI functions and the lossy one of the URL Standard.
 */
module Utf8 {

  type Byte = b: int | 0 <= b < 256

  function EncodeChar(c: char): (bytes: seq<Byte>)
    ensures 1 <= |bytes| <= 4
    ensures |bytes| == LengthFromLead(bytes[0])
    ensures c as int < 0x80 <==> bytes == [c as int]
  {
    var v := c as int;
    if v < 0x80 then [v]
    else if v < 0x800 then [0xC0 + v / 64, 0x80 + v % 64]
    else if v < 0x10000 then [0xE0 + v / 4096, 0x80 + v / 64 % 64, 0x80 + v % 64]
    else [0xF0 + v / 262144, 0x80 + v / 4096 % 64, 0x80 + v / 64 % 64, 0x80 + v % 64]
  }

  function Encode(s: string): seq<Byte> {
    if s == "" then [] else EncodeChar(s[0]) + Encode(s[1..])
  }

  /** How many bytes a leading byte announces; 0 for a byte that cannot lead. */
  function LengthFromLead(b: Byte): nat {
    if b < 0x80 then 1
    else if b < 0xC0 then 0
    else if b < 0xE0 then 2
    else if b < 0xF0 then 3
    else if b < 0xF8 then 4
    else 0
  }

  /** The first scalar value of a byte string, or the length of the ill-formed prefix to skip. */
  datatype First = Scalar(c: char, len: nat) | IllFormed(len: nat)

  predicate Continues(b: Byte) {
    0x80 <= b <= 0xBF
  }

  /** The second-byte window after a leading byte: narrower where a wider one would let in an
      over-long form, a surrogate, or a value past U+10FFFF. */
  predicate SecondByte(lead: Byte, b: Byte) {
    var lower := if lead == 0xE0 then 0xA0 else if lead == 0xF0 then 0x90 else 0x80;
    var upper := if lead == 0xED then 0x9F else if lead == 0xF4 then 0x8F else 0xBF;
    lower <= b <= upper
  }

  function DecodeFirst(b: seq<Byte>): (first: First)
    requires b != []
    ensures 1 <= first.len <= |b|
  {
    if b[0] < 0x80 then Scalar(b[0] as char, 1)
    else if b[0] < 0xC2 || b[0] > 0xF4 then IllFormed(1)
    else if |b| < 2 || !SecondByte(b[0], b[1]) then IllFormed(1)
    else if b[0] < 0xE0 then Scalar((Above(b[0], 0xC0) * 64 + Above(b[1], 0x80)) as char, 2)
    else if |b| < 3 || !Continues(b[2]) then IllFormed(2)
    else if b[0] < 0xF0 then
      Scalar((Above(b[0], 0xE0) * 4096 + Above(b[1], 0x80) * 64 + Above(b[2], 0x80)) as char, 3)
    else if |b| < 4 || !Continues(b[3]) then IllFormed(3)
    else
      Scalar((Above(b[0], 0xF0) * 262144 + Above(b[1], 0x80) * 4096
              + Above(b[2], 0x80) * 64 + Above(b[3], 0x80)) as char, 4)
  }

  function Above(b: Byte, marker: Byte): int {
    (b as int) - (marker as int)
  }

  /** "UTF-8 decode without BOM": every ill-formed prefix becomes one U+FFFD. */
  function DecodeLossy(b: seq<Byte>): string {
    if b == [] then ""
    else
      var first := DecodeFirst(b);
      [if first.Scalar? then first.c else '\U{FFFD}'] + DecodeLossy(b[first.len..])
  }

  lemma DecodeFirstOfEncoded(c: char, rest: seq<Byte>)
    ensures DecodeFirst(EncodeChar(c) + rest) == Scalar(c, |EncodeChar(c)|)
  {
    var v := c as int;
    var e := EncodeChar(c);
    var b := e + rest;
    assert b[..|e|] == e;
    assert forall k :: 0 <= k < |e| ==> b[k] == e[k];
    if v < 0x80 {
    } else if v < 0x800 {
      assert v == v / 64 * 64 + v % 64;
    } else if v < 0x10000 {
      assert v / 64 == v / 4096 * 64 + v / 64 % 64;
    } else {
      assert v / 4096 == v / 262144 * 64 + v / 4096 % 64;
      assert v / 64 == v / 4096 * 64 + v / 64 % 64;
    }
  }

  lemma Digits64(z: nat, y: nat, x: nat)
    requires y < 64 && x < 64
    ensures var v := z * 4096 + y * 64 + x; v / 4096 == z && v / 64 == z * 64 + y && v / 64 % 64 == y && v % 64 == x
  {
  }

  /** Only the one encoding of a character is accepted for it: no over-long form, no surrogate. */
  lemma DecodeFirstOnlyEncoded(b: seq<Byte>)
    requires b != [] && DecodeFirst(b).Scalar?
    ensures b[..DecodeFirst(b).len] == EncodeChar(DecodeFirst(b).c)
  {
    var first := DecodeFirst(b);
    if first.len == 3 {
      Digits64(Above(b[0], 0xE0), Above(b[1], 0x80), Above(b[2], 0x80));
    } else if first.len == 4 {
      Digits64(Above(b[0], 0xF0) * 64 + Above(b[1], 0x80), Above(b[2], 0x80), Above(b[3], 0x80));
    }
  }

  /** Decoding undoes encoding. */
  lemma {:induction false} DecodeEncode(s: string)
    ensures DecodeLossy(Encode(s)) == s
  {
    if s != "" {
      DecodeFirstOfEncoded(s[0], Encode(s[1..]));
      var b := Encode(s);
      assert b[|EncodeChar(s[0])|..] == Encode(s[1..]);
      DecodeEncode(s[1..]);
      assert [s[0]] + s[1..] == s;
    }
  }

  ghost predicate BeginsEncoding(b: seq<Byte>) {
    exists c: char :: b <= EncodeChar(c)
  }

  /** A byte string is refused just where no character's encoding starts it. */
  lemma IllFormedExactly(b: seq<Byte>)
    requires b != []
    ensures DecodeFirst(b).IllFormed? <==> forall c: char :: !(EncodeChar(c) <= b)
  {
    forall c: char | EncodeChar(c) <= b ensures DecodeFirst(b).Scalar? {
      DecodeFirstOfEncoded(c, b[|EncodeChar(c)|..]);
      assert b == EncodeChar(c) + b[|EncodeChar(c)|..];
    }
    if DecodeFirst(b).Scalar? {
      DecodeFirstOnlyEncoded(b);
      assert EncodeChar(DecodeFirst(b).c) <= b;
    }
  }

  /** What is skipped of an ill-formed byte string is the longest start of it that begins some encoding,
      or one byte. */
  lemma SkipsTheLongestStart(b: seq<Byte>)
    requires b != [] && DecodeFirst(b).IllFormed?
    ensures var n := DecodeFirst(b).len;
            (n > 1 ==> BeginsEncoding(b[..n])) && (|b| > n ==> !BeginsEncoding(b[..n + 1]))
  {
    var n := DecodeFirst(b).len;
    if n > 1 {
      var e := if n == 2 && b[0] < 0xF0 then b[..2] + [0x80]
               else if n == 2 then b[..2] + [0x80, 0x80] else b[..3] + [0x80];
      DecodeFirstOnlyEncoded(e);
      assert EncodeChar(DecodeFirst(e).c) == e;
      assert b[..n] <= EncodeChar(DecodeFirst(e).c);
    }
    if |b| > n {
      forall c: char ensures !(b[..n + 1] <= EncodeChar(c)) {
        DecodeFirstOfEncoded(c, []);
        assert EncodeChar(c) + [] == EncodeChar(c);
      }
    }
  }

  lemma LossyReadsOne(c: char, b: seq<Byte>)
    ensures DecodeLossy(EncodeChar(c) + b) == [c] + DecodeLossy(b)
  {
    DecodeFirstOfEncoded(c, b);
    assert (EncodeChar(c) + b)[|EncodeChar(c)|..] == b;
  }

  lemma Regroup<T>(a: seq<T>, b: seq<T>, c: seq<T>)
    ensures (a + b) + c == a + (b + c)
  {
  }

  /** The lossy decoder reads what is encoded, whatever follows. */
  lemma {:induction false} LossyReads(s: string, b: seq<Byte>)
    ensures DecodeLossy(Encode(s) + b) == s + DecodeLossy(b)
  {
    if s == "" {
      assert Encode(s) + b == b;
    } else {
      var head, tail := EncodeChar(s[0]), Encode(s[1..]);
      Regroup(head, tail, b);
      LossyReadsOne(s[0], tail + b);
      LossyReads(s[1..], b);
      Regroup([s[0]], s[1..], DecodeLossy(b));
      assert [s[0]] + s[1..] == s;
    }
  }

  /** And puts one U+FFFD for what it skips. */
  lemma LossyReplaces(s: string, b: seq<Byte>)
    requires b != [] && DecodeFirst(b).IllFormed?
    ensures DecodeLossy(Encode(s) + b) == s + ("\U{FFFD}" + DecodeLossy(b[DecodeFirst(b).len..]))
  {
    LossyReads(s, b);
  }

  /** One character of each length, byte by byte. */
  lemma EncodedBytes()
    ensures EncodeChar('A') == [0x41]
    ensures EncodeChar('\U{E9}') == [0xC3, 0xA9]
    ensures EncodeChar('\U{20AC}') == [0xE2, 0x82, 0xAC]
    ensures EncodeChar('\U{1F600}') == [0xF0, 0x9F, 0x98, 0x80]
  {
  }
}
