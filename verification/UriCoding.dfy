/**
 The URI component codec (section 19.2.6 of ECMA-262) and the `name=value` query reader
 (section 5.1 of the WHATWG URL Standard).
 */
module UriCoding {
  import opened Text
  import opened Utf8

  // ---------- encodeURIComponent ----------

  /** The characters encodeURIComponent writes as they are. */
  predicate IsUnreserved(c: char) {
    'a' <= c <= 'z' || 'A' <= c <= 'Z' || '0' <= c <= '9'
    || c in {'-', '_', '.', '!', '~', '*', '\'', '(', ')'}
  }

  function HexDigit(n: nat): (c: char)
    requires n < 16
    ensures HexValue(c) == Some(n) && IsUnreserved(c)
  {
    if n < 10 then (n + '0' as int) as char else (n - 10 + 'A' as int) as char
  }

  function HexValue(c: char): (v: Option<nat>)
    ensures v.Some? ==> v.value < 16
  {
    if '0' <= c <= '9' then Some(c as int - '0' as int)
    else if 'A' <= c <= 'F' then Some(c as int - 'A' as int + 10)
    else if 'a' <= c <= 'f' then Some(c as int - 'a' as int + 10)
    else None
  }

  function Escape(b: Byte): string {
    ['%', HexDigit(b / 16), HexDigit(b % 16)]
  }

  function EscapeAll(bytes: seq<Byte>): string {
    if bytes == [] then "" else Escape(bytes[0]) + EscapeAll(bytes[1..])
  }

  function EncodeOne(c: char): string {
    if IsUnreserved(c) then [c] else EscapeAll(EncodeChar(c))
  }

  function EncodeComponent(s: string): string {
    if s == "" then "" else EncodeOne(s[0]) + EncodeComponent(s[1..])
  }

  // ---------- decodeURIComponent ----------

  /** The byte an escape at the head of `s` denotes. */
  function EscapedByte(s: string): (b: Option<Byte>)
    ensures b.Some? ==> |s| >= 3
  {
    if |s| >= 3 && s[0] == '%' && HexValue(s[1]).Some? && HexValue(s[2]).Some?
    then Some(HexValue(s[1]).value * 16 + HexValue(s[2]).value)
    else None
  }

  /** The bytes of `n` consecutive escapes at the head of `s`. */
  function EscapedBytes(s: string, n: nat): (bytes: Option<seq<Byte>>)
    ensures bytes.Some? ==> |bytes.value| == n && 3 * n <= |s|
  {
    if n == 0 then Some([])
    else
      match EscapedByte(s)
      case None => None
      case Some(b) =>
        match EscapedBytes(s[3..], n - 1)
        case None => None
        case Some(rest) => Some([b] + rest)
  }

  /** `None` where decodeURIComponent throws. */
  function DecodeComponent(s: string): Option<string> {
    if s == "" then Some("")
    else if s[0] != '%' then Prepend(s[0], DecodeComponent(s[1..]))
    else
      match EscapedByte(s)
      case None => None
      case Some(lead) =>
        var n := LengthFromLead(lead);
        if n == 0 then None
        else
          match EscapedBytes(s, n)
          case None => None
          case Some(octets) =>
            var first := DecodeFirst(octets);
            if first.Scalar? && first.len == n then Prepend(first.c, DecodeComponent(s[3 * n..])) else None
  }

  function Prepend(c: char, rest: Option<string>): Option<string> {
    match rest
    case None => None
    case Some(r) => Some([c] + r)
  }

  lemma {:induction false} EscapedBytesOfEscapes(bytes: seq<Byte>, rest: string)
    ensures EscapedBytes(EscapeAll(bytes) + rest, |bytes|) == Some(bytes)
    ensures |EscapeAll(bytes)| == 3 * |bytes|
  {
    if bytes != [] {
      EscapedBytesOfEscapes(bytes[1..], rest);
      assert EscapeAll(bytes) + rest == Escape(bytes[0]) + (EscapeAll(bytes[1..]) + rest);
      EscapeReads(bytes[0], EscapeAll(bytes[1..]) + rest);
      assert [bytes[0]] + bytes[1..] == bytes;
    }
  }

  lemma EscapeReads(b: Byte, tail: string)
    ensures EscapedByte(Escape(b) + tail) == Some(b) && (Escape(b) + tail)[3..] == tail
  {
  }

  lemma DecodeEncodedOne(c: char, rest: string)
    ensures DecodeComponent(EncodeOne(c) + rest) == Prepend(c, DecodeComponent(rest))
  {
    var s := EncodeOne(c) + rest;
    if IsUnreserved(c) {
      assert s[1..] == rest;
    } else {
      var e := EncodeChar(c);
      var n := |e|;
      EscapedBytesOfEscapes(e, rest);
      assert s[3 * n..] == rest;
      assert EscapedBytes(s, n) == Some(e);
      assert EscapedByte(s) == Some(e[0]);
      DecodeFirstOfEncoded(c, []);
      assert e + [] == e;
    }
  }

  /** decodeURIComponent undoes encodeURIComponent. */
  lemma {:induction false} DecodeEncoded(s: string)
    ensures DecodeComponent(EncodeComponent(s)) == Some(s)
  {
    if s != "" {
      DecodeEncodedOne(s[0], EncodeComponent(s[1..]));
      DecodeEncoded(s[1..]);
      assert [s[0]] + s[1..] == s;
    }
  }

  /** What encodeURIComponent can write: none of it is a slash or a query separator. */
  predicate IsComponentText(s: string) {
    forall i :: 0 <= i < |s| ==> s[i] == '%' || IsUnreserved(s[i])
  }

  lemma {:induction false} EscapesAreComponentText(bytes: seq<Byte>)
    ensures IsComponentText(EscapeAll(bytes))
  {
    if bytes != [] {
      EscapesAreComponentText(bytes[1..]);
    }
  }

  lemma {:induction false} EncodedIsComponentText(s: string)
    ensures IsComponentText(EncodeComponent(s))
    ensures s != "" ==> EncodeComponent(s) != ""
  {
    if s != "" {
      EscapesAreComponentText(EncodeChar(s[0]));
      EscapedBytesOfEscapes(EncodeChar(s[0]), "");
      EncodedIsComponentText(s[1..]);
    }
  }

  lemma {:induction false} UnreservedUnchanged(s: string)
    requires forall i :: 0 <= i < |s| ==> IsUnreserved(s[i])
    ensures EncodeComponent(s) == s
  {
    if s != "" {
      UnreservedUnchanged(s[1..]);
      assert [s[0]] + s[1..] == s;
    }
  }

  lemma ComponentTextFree(s: string, c: char)
    requires IsComponentText(s) && c != '%' && !IsUnreserved(c)
    ensures Free(s, c)
  {
  }

  // ---------- the query reader ----------

  function PlusToSpace(s: string): string {
    if s == "" then "" else [if s[0] == '+' then ' ' else s[0]] + PlusToSpace(s[1..])
  }

  function ByteAt(b: seq<Byte>, i: nat): Option<nat> {
    if i < |b| && b[i] < 0x80 then HexValue(b[i] as char) else None
  }

  /** Percent-decoding of bytes: an escape that is not two hex digits stays as it is. */
  function PercentDecode(b: seq<Byte>): seq<Byte> {
    if b == [] then []
    else if b[0] == 0x25 && ByteAt(b, 1).Some? && ByteAt(b, 2).Some? then
      [ByteAt(b, 1).value * 16 + ByteAt(b, 2).value] + PercentDecode(b[3..])
    else [b[0]] + PercentDecode(b[1..])
  }

  function FormDecode(s: string): string {
    DecodeLossy(PercentDecode(Encode(PlusToSpace(s))))
  }

  /** Split at the first `=`; a piece without one is a name with an empty value. */
  function NameValue(piece: string): (string, string) {
    var parts := Split(piece, '=');
    (FormDecode(parts[0]), FormDecode(Join(parts[1..], '=')))
  }

  function Pairs(pieces: seq<string>): seq<(string, string)> {
    if |pieces| == 0 then []
    else if pieces[0] == "" then Pairs(pieces[1..])
    else [NameValue(pieces[0])] + Pairs(pieces[1..])
  }

  /** `new URLSearchParams(query)`, as the list of its pairs. One leading `?` is dropped. */
  function QueryPairs(query: string): seq<(string, string)> {
    Pairs(Split(if StartsWith(query, "?") then query[1..] else query, '&'))
  }

  /** `.get(name)`: the value of the first pair of that name. */
  function FirstValue(pairs: seq<(string, string)>, name: string): Option<string> {
    if |pairs| == 0 then None
    else if pairs[0].0 == name then Some(pairs[0].1)
    else FirstValue(pairs[1..], name)
  }

  function QueryValue(query: string, name: string): Option<string> {
    FirstValue(QueryPairs(query), name)
  }

  lemma {:induction false} AsciiEncode(s: string)
    requires forall i :: 0 <= i < |s| ==> s[i] as int < 0x80
    ensures |Encode(s)| == |s| && forall i :: 0 <= i < |s| ==> Encode(s)[i] == s[i] as int
  {
    if s != "" {
      AsciiEncode(s[1..]);
      assert Encode(s) == [s[0] as int] + Encode(s[1..]);
    }
  }

  lemma {:induction false} EncodeConcat(a: string, b: string)
    ensures Encode(a + b) == Encode(a) + Encode(b)
  {
    if a == "" {
      assert a + b == b;
    } else {
      assert (a + b)[1..] == a[1..] + b;
      EncodeConcat(a[1..], b);
    }
  }

  lemma {:induction false} PercentDecodeEscapes(bytes: seq<Byte>, rest: seq<Byte>)
    ensures PercentDecode(Encode(EscapeAll(bytes)) + rest) == bytes + PercentDecode(rest)
  {
    if bytes == [] {
      assert Encode(EscapeAll(bytes)) + rest == rest;
    } else {
      var e, more := Escape(bytes[0]), EscapeAll(bytes[1..]);
      EncodeConcat(e, more);
      Regroup(Encode(e), Encode(more), rest);
      PercentDecodeEscape(bytes[0], Encode(more) + rest);
      PercentDecodeEscapes(bytes[1..], rest);
      Regroup([bytes[0]], bytes[1..], PercentDecode(rest));
      assert [bytes[0]] + bytes[1..] == bytes;
    }
  }

  lemma PercentDecodeEscape(b: Byte, tail: seq<Byte>)
    ensures PercentDecode(Encode(Escape(b)) + tail) == [b] + PercentDecode(tail)
  {
    AsciiEncode(Escape(b));
    var bytes := Encode(Escape(b)) + tail;
    assert bytes[3..] == tail;
    assert ByteAt(bytes, 1) == Some(b / 16) && ByteAt(bytes, 2) == Some(b % 16);
  }

  lemma {:induction false} PercentDecodeEncoded(s: string)
    ensures PercentDecode(Encode(EncodeComponent(s))) == Encode(s)
  {
    if s != "" {
      var rest := Encode(EncodeComponent(s[1..]));
      EncodeConcat(EncodeOne(s[0]), EncodeComponent(s[1..]));
      PercentDecodeEncoded(s[1..]);
      if IsUnreserved(s[0]) {
        AsciiEncode([s[0]]);
        var b := Encode([s[0]]) + rest;
        assert b[1..] == rest;
      } else {
        PercentDecodeEscapes(EncodeChar(s[0]), rest);
      }
    }
  }

  lemma {:induction false} NoPlusUnchanged(s: string)
    requires Free(s, '+')
    ensures PlusToSpace(s) == s
  {
    if s != "" {
      assert Free(s[1..], '+');
      NoPlusUnchanged(s[1..]);
      assert [s[0]] + s[1..] == s;
    }
  }

  /** The query reader also undoes encodeURIComponent. */
  lemma FormDecodeEncoded(s: string)
    ensures FormDecode(EncodeComponent(s)) == s
  {
    EncodedIsComponentText(s);
    ComponentTextFree(EncodeComponent(s), '+');
    NoPlusUnchanged(EncodeComponent(s));
    PercentDecodeEncoded(s);
    DecodeEncode(s);
  }

  lemma NameValueOfEncoded(name: string, value: string)
    ensures NameValue(EncodeComponent(name) + "=" + EncodeComponent(value)) == (name, value)
  {
    var n, v := EncodeComponent(name), EncodeComponent(value);
    EncodedIsComponentText(name);
    EncodedIsComponentText(value);
    ComponentTextFree(n, '=');
    ComponentTextFree(v, '=');
    SplitHead(n, '=', v);
    SplitFree(v, '=');
    assert n + ['='] + v == n + "=" + v;
    assert ([n] + [v])[1..] == [v];
    FormDecodeEncoded(name);
    FormDecodeEncoded(value);
  }

  // ---------- segments ----------

  function EncodeSegments(segments: seq<string>): (encoded: seq<string>)
    ensures |encoded| == |segments|
    ensures forall i :: 0 <= i < |encoded| ==> encoded[i] == EncodeComponent(segments[i])
  {
    if |segments| == 0 then [] else [EncodeComponent(segments[0])] + EncodeSegments(segments[1..])
  }

  function DecodeAll(segments: seq<string>): (decoded: Option<seq<string>>)
    ensures decoded.Some? ==> |decoded.value| == |segments|
  {
    if |segments| == 0 then Some([])
    else
      var first := DecodeComponent(segments[0]);
      var rest := DecodeAll(segments[1..]);
      if first.Some? && rest.Some? then Some([first.value] + rest.value) else None
  }

  lemma {:induction false} DecodeEncodedSegments(segments: seq<string>)
    ensures DecodeAll(EncodeSegments(segments)) == Some(segments)
  {
    if |segments| > 0 {
      DecodeEncoded(segments[0]);
      DecodeEncodedSegments(segments[1..]);
      assert EncodeSegments(segments)[1..] == EncodeSegments(segments[1..]);
      assert [segments[0]] + segments[1..] == segments;
    }
  }

  lemma EncodedSegmentsFree(segments: seq<string>, c: char)
    requires c != '%' && !IsUnreserved(c)
    ensures forall i :: 0 <= i < |segments| ==> Free(EncodeSegments(segments)[i], c)
  {
    forall i | 0 <= i < |segments| ensures Free(EncodeSegments(segments)[i], c) {
      EncodedIsComponentText(segments[i]);
      ComponentTextFree(EncodeComponent(segments[i]), c);
    }
  }

  lemma EncodedSegmentsFilled(segments: seq<string>)
    requires "" !in segments
    ensures "" !in EncodeSegments(segments)
  {
    forall i | 0 <= i < |segments| ensures EncodeSegments(segments)[i] != "" {
      assert segments[i] in segments;
      EncodedIsComponentText(segments[i]);
    }
  }
}
