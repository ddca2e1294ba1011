/** What the URI decoder and the query reader make of text that no encoder wrote. */
module UriReading {
  import opened Text
  import opened Utf8
  import opened UriCoding

  // ---------- alphabets ----------

  /** What encodeURIComponent escapes: controls and space, 23 ASCII marks, and all that is not ASCII. */
  predicate IsEscaped(c: char) {
    c as int <= 0x20 || c as int >= 0x7F
    || c in {'"', '#', '$', '%', '&', '+', ',', '/', ':', ';', '<', '=', '>', '?', '@',
             '[', '\\', ']', '^', '`', '{', '|', '}'}
  }

  lemma UnreservedSpelled(c: char)
    ensures IsUnreserved(c) <==> !IsEscaped(c)
  {
  }

  lemma UnreservedExactly(c: char)
    ensures EncodeComponent([c]) == [c] <==> !IsEscaped(c)
  {
    UnreservedSpelled(c);
    assert EncodeComponent([c]) == EncodeOne(c) + EncodeComponent("");
    if !IsUnreserved(c) {
      EscapedBytesOfEscapes(EncodeChar(c), "");
      assert |EncodeOne(c)| >= 3;
    }
  }

  /** Hex digits are written in upper case and read in either. */
  lemma HexExactly(n: nat)
    requires n < 16
    ensures HexDigit(n) == "0123456789ABCDEF"[n]
    ensures HexValue("0123456789ABCDEF"[n]) == Some(n) && HexValue("0123456789abcdef"[n]) == Some(n)
  {
  }

  lemma NoOtherHex(c: char)
    ensures HexValue(c).Some? ==> c in "0123456789ABCDEF" || c in "0123456789abcdef"
  {
  }

  lemma EscapeExactly(b: Byte)
    ensures Escape(b) == "%" + ["0123456789ABCDEF"[b / 16]] + ["0123456789ABCDEF"[b % 16]]
  {
    HexExactly(b / 16);
    HexExactly(b % 16);
  }

  // ---------- decodeURIComponent ----------

  /** The text is one escape for each byte, in hex digits of either case. */
  predicate EscapesOf(text: string, bytes: seq<Byte>) {
    |text| == 3 * |bytes|
    && forall k :: 0 <= k < |bytes| ==>
                     text[3 * k] == '%' && HexValue(text[3 * k + 1]) == Some(bytes[k] / 16)
                     && HexValue(text[3 * k + 2]) == Some(bytes[k] % 16)
  }

  lemma EscapesTail(text: string, bytes: seq<Byte>)
    requires EscapesOf(text, bytes) && bytes != []
    ensures EscapesOf(text[3..], bytes[1..])
    ensures EscapedByte(text) == Some(bytes[0])
  {
    forall k | 0 <= k < |bytes| - 1
      ensures text[3..][3 * k] == '%' && HexValue(text[3..][3 * k + 1]) == Some(bytes[1..][k] / 16)
              && HexValue(text[3..][3 * k + 2]) == Some(bytes[1..][k] % 16)
    {
      assert bytes[1..][k] == bytes[k + 1];
      assert text[3 * (k + 1)] == '%';
    }
    assert text[3 * 0] == '%';
  }

  lemma {:induction false} EscapesRead(text: string, bytes: seq<Byte>, rest: string)
    requires EscapesOf(text, bytes)
    ensures EscapedBytes(text + rest, |bytes|) == Some(bytes)
  {
    if bytes != [] {
      EscapesTail(text, bytes);
      EscapesRead(text[3..], bytes[1..], rest);
      assert (text + rest)[3..] == text[3..] + rest;
      assert EscapedByte(text + rest) == EscapedByte(text);
      assert [bytes[0]] + bytes[1..] == bytes;
    }
  }

  lemma EscapesCons(text: string, b: Byte, bytes: seq<Byte>)
    requires |text| >= 3 && EscapedByte(text) == Some(b) && EscapesOf(text[3..], bytes)
    ensures EscapesOf(text, [b] + bytes)
  {
    var all := [b] + bytes;
    forall k | 0 <= k < |all|
      ensures text[3 * k] == '%' && HexValue(text[3 * k + 1]) == Some(all[k] / 16)
              && HexValue(text[3 * k + 2]) == Some(all[k] % 16)
    {
      if k > 0 {
        assert all[k] == bytes[k - 1];
        assert text[3..][3 * (k - 1)] == '%';
      }
    }
  }

  lemma {:induction false} ReadAreEscapes(s: string, n: nat)
    requires EscapedBytes(s, n).Some?
    ensures EscapesOf(s[..3 * n], EscapedBytes(s, n).value)
  {
    if n > 0 {
      ReadAreEscapes(s[3..], n - 1);
      assert s[3..][..3 * (n - 1)] == s[..3 * n][3..];
      EscapesCons(s[..3 * n], EscapedByte(s).value, EscapedBytes(s[3..], n - 1).value);
    }
  }

  ghost function Before(a: string, rest: Option<string>): Option<string> {
    if rest.Some? then Some(a + rest.value) else None
  }

  /** Text without a percent sign is read as it is, whatever else it holds. */
  lemma {:induction false} RawTextDecodes(a: string, b: string)
    requires Free(a, '%')
    ensures DecodeComponent(a + b) == Before(a, DecodeComponent(b))
  {
    if a == "" {
      assert a + b == b;
      assert DecodeComponent(b).Some? ==> "" + DecodeComponent(b).value == DecodeComponent(b).value;
    } else {
      assert (a + b)[0] == a[0] && (a + b)[1..] == a[1..] + b;
      assert a[0] in a;
      RawTextDecodes(a[1..], b);
      assert DecodeComponent(b).Some? ==> [a[0]] + (a[1..] + DecodeComponent(b).value) == a + DecodeComponent(b).value;
    }
  }

  /** The escapes of a character, in either hex case, are read as that character. */
  lemma EscapedCharDecodes(c: char, text: string, rest: string)
    requires EscapesOf(text, EncodeChar(c))
    ensures DecodeComponent(text + rest) == Before([c], DecodeComponent(rest))
  {
    var e := EncodeChar(c);
    var s := text + rest;
    EscapesRead(text, e, rest);
    EscapesTail(text, e);
    assert EscapedByte(s) == EscapedByte(text);
    DecodeFirstOfEncoded(c, []);
    assert e + [] == e;
    assert s[3 * |e|..] == rest;
  }

  /** And nothing else is: where text at a percent sign is read at all, it starts with the escapes of
      some character. */
  lemma OnlyEscapesDecode(s: string) returns (c: char, text: string)
    requires s != "" && s[0] == '%' && DecodeComponent(s).Some?
    ensures text <= s && EscapesOf(text, EncodeChar(c))
    ensures DecodeComponent(s) == Before([c], DecodeComponent(s[|text|..]))
  {
    var n := LengthFromLead(EscapedByte(s).value);
    var octets := EscapedBytes(s, n).value;
    ReadAreEscapes(s, n);
    DecodeFirstOnlyEncoded(octets);
    c, text := DecodeFirst(octets).c, s[..3 * n];
    assert octets[..n] == octets;
  }

  // ---------- the query reader ----------

  /** The text with a space for each plus. */
  ghost predicate Unplussed(a: string, r: string) {
    |r| == |a| && forall i :: 0 <= i < |a| ==> r[i] == if a[i] == '+' then ' ' else a[i]
  }

  lemma {:induction false} PlusesAreSpaces(a: string)
    ensures Unplussed(a, PlusToSpace(a))
  {
    if a != "" {
      PlusesAreSpaces(a[1..]);
    }
  }

  lemma PlusToSpaceConcat(a: string, b: string)
    ensures PlusToSpace(a + b) == PlusToSpace(a) + PlusToSpace(b)
  {
    PlusesAreSpaces(a + b);
    PlusesAreSpaces(a);
    PlusesAreSpaces(b);
  }

  lemma {:induction false} RawBytes(a: seq<Byte>, b: seq<Byte>)
    requires 0x25 !in a
    ensures PercentDecode(a + b) == a + PercentDecode(b)
  {
    if a == [] {
      assert a + b == b;
    } else {
      assert (a + b)[1..] == a[1..] + b && (a + b)[0] == a[0];
      RawBytes(a[1..], b);
    }
  }

  lemma {:induction false} NoPercentByte(s: string)
    requires Free(s, '%')
    ensures 0x25 !in Encode(s)
  {
    if s != "" {
      assert s[0] in s;
      assert Free(s[1..], '%');
      NoPercentByte(s[1..]);
      assert 0x25 !in EncodeChar(s[0]);
    }
  }

  /** Text without a percent sign is read as it is, with a space for each plus. */
  lemma RawTextFormDecodes(a: string, b: string)
    requires Free(a, '%')
    ensures exists r :: Unplussed(a, r) && FormDecode(a + b) == r + FormDecode(b)
  {
    var r := PlusToSpace(a);
    PlusesAreSpaces(a);
    PlusToSpaceConcat(a, b);
    EncodeConcat(r, PlusToSpace(b));
    assert Free(r, '%') by {
      forall i | 0 <= i < |r| ensures r[i] != '%' { assert a[i] in a; }
    }
    NoPercentByte(r);
    RawBytes(Encode(r), Encode(PlusToSpace(b)));
    LossyReads(r, PercentDecode(Encode(PlusToSpace(b))));
    assert FormDecode(a + b) == r + FormDecode(b);
  }

  lemma AsciiByte(s: string, i: nat)
    requires i < |s| && forall k :: 0 <= k <= i ==> s[k] as int < 0x80
    ensures i < |Encode(s)| && Encode(s)[i] == s[i] as int
  {
    var head := s[..i + 1];
    assert s == head + s[i + 1..];
    EncodeConcat(head, s[i + 1..]);
    AsciiEncode(head);
  }

  lemma EscapesAreAscii(text: string, bytes: seq<Byte>)
    requires EscapesOf(text, bytes)
    ensures |Encode(text)| == |text|
    ensures forall i :: 0 <= i < |text| ==> text[i] != '+' && Encode(text)[i] == text[i] as int && Encode(text)[i] < 0x80
  {
    forall i | 0 <= i < |text| ensures text[i] != '+' && text[i] as int < 0x80 {
      assert i == 3 * (i / 3) + i % 3;
      assert text[3 * (i / 3)] == '%';
    }
    AsciiEncode(text);
  }

  lemma PercentDecodeHead(all: seq<Byte>, b: Byte)
    requires |all| >= 3 && all[0] == 0x25 && all[1] < 0x80 && all[2] < 0x80
    requires HexValue(all[1] as char) == Some(b / 16) && HexValue(all[2] as char) == Some(b % 16)
    ensures PercentDecode(all) == [b] + PercentDecode(all[3..])
  {
    assert ByteAt(all, 1) == Some(b / 16) && ByteAt(all, 2) == Some(b % 16);
  }

  lemma {:induction false} PercentDecodeReads(raw: seq<Byte>, text: string, bytes: seq<Byte>, rest: seq<Byte>)
    requires EscapesOf(text, bytes) && |raw| == |text|
    requires forall i :: 0 <= i < |text| ==> raw[i] == text[i] as int && raw[i] < 0x80
    ensures PercentDecode(raw + rest) == bytes + PercentDecode(rest)
  {
    if bytes == [] {
      assert raw + rest == rest;
    } else {
      var all := raw + rest;
      EscapesTail(text, bytes);
      assert text[3 * 0] == '%' && all[0] == 0x25;
      assert all[1] as char == text[1] && all[2] as char == text[2];
      PercentDecodeHead(all, bytes[0]);
      assert all[3..] == raw[3..] + rest;
      PercentDecodeReads(raw[3..], text[3..], bytes[1..], rest);
      assert [bytes[0]] + (bytes[1..] + PercentDecode(rest)) == bytes + PercentDecode(rest);
    }
  }

  /** The query reader reads a character's escapes, in either hex case, as that character. */
  lemma EscapedCharFormDecodes(c: char, text: string, rest: string)
    requires EscapesOf(text, EncodeChar(c))
    ensures FormDecode(text + rest) == [c] + FormDecode(rest)
  {
    EscapesAreAscii(text, EncodeChar(c));
    PlusToSpaceConcat(text, rest);
    PlusesAreSpaces(text);
    assert PlusToSpace(text) == text;
    EncodeConcat(text, PlusToSpace(rest));
    PercentDecodeReads(Encode(text), text, EncodeChar(c), Encode(PlusToSpace(rest)));
    LossyReadsOne(c, PercentDecode(Encode(PlusToSpace(rest))));
  }

  predicate TwoHexDigits(s: string) {
    |s| >= 2 && HexValue(s[0]).Some? && HexValue(s[1]).Some?
  }

  lemma HexHead(s: string)
    ensures ByteAt(Encode(s), 0).Some? <==> s != "" && HexValue(s[0]).Some?
  {
    if s != "" {
      assert Encode(s)[0] == EncodeChar(s[0])[0];
    }
  }

  lemma HexSecond(s: string)
    requires s != "" && HexValue(s[0]).Some?
    ensures ByteAt(Encode(s), 1).Some? <==> |s| >= 2 && HexValue(s[1]).Some?
  {
    HexHead(s[1..]);
    assert Encode(s) == [s[0] as int] + Encode(s[1..]);
    assert |Encode(s)| > 1 ==> Encode(s)[1] == Encode(s[1..])[0];
  }

  /** A percent sign that no two hex digits follow stays, in a query, where it is. */
  lemma LonePercentStays(rest: string)
    requires !TwoHexDigits(rest)
    ensures FormDecode("%" + rest) == "%" + FormDecode(rest)
  {
    var r := PlusToSpace(rest);
    PlusesAreSpaces(rest);
    PlusToSpaceConcat("%", rest);
    assert PlusToSpace("%") == "%" by { PlusesAreSpaces("%"); }
    EncodeConcat("%", r);
    AsciiEncode("%");
    var all := Encode("%" + r);
    assert all[0] == 0x25 && all[1..] == Encode(r);
    HexHead(r);
    if ByteAt(Encode(r), 0).Some? {
      HexSecond(r);
    }
    assert PercentDecode(all) == [0x25] + PercentDecode(Encode(r));
    LossyReadsOne('%', PercentDecode(Encode(r)));
  }

  // ---------- the query's pairs ----------

  /** A pair is read around its first equals sign; without one, its value is empty. */
  lemma PairReadsAround(name: string, value: string)
    requires Free(name, '=')
    ensures NameValue(name + "=" + value) == (FormDecode(name), FormDecode(value))
    ensures NameValue(name) == (FormDecode(name), "")
  {
    SplitHead(name, '=', value);
    assert name + ['='] + value == name + "=" + value;
    assert ([name] + Split(value, '='))[1..] == Split(value, '=');
    JoinSplit(value, '=');
    SplitFree(name, '=');
    assert |Split(name, '=')[1..]| == 0;
    assert FormDecode("") == "";
  }

  /** The piece speaks of the name. */
  predicate Speaks(piece: string, name: string) {
    piece != "" && NameValue(piece).0 == name
  }

  lemma PairsHead(pieces: seq<string>, name: string)
    requires |pieces| > 0
    ensures FirstValue(Pairs(pieces), name)
            == if Speaks(pieces[0], name) then Some(NameValue(pieces[0]).1) else FirstValue(Pairs(pieces[1..]), name)
  {
    if pieces[0] != "" {
      assert Pairs(pieces) == [NameValue(pieces[0])] + Pairs(pieces[1..]);
      assert Pairs(pieces)[1..] == Pairs(pieces[1..]);
    }
  }

  lemma {:induction false} FirstToSpeak(pieces: seq<string>, name: string, i: nat)
    requires i <= |pieces| && forall j :: 0 <= j < i ==> !Speaks(pieces[j], name)
    ensures i < |pieces| && Speaks(pieces[i], name) ==>
              FirstValue(Pairs(pieces), name) == Some(NameValue(pieces[i]).1)
    ensures i == |pieces| ==> FirstValue(Pairs(pieces), name) == None
  {
    if |pieces| > 0 {
      PairsHead(pieces, name);
      if i > 0 {
        assert !Speaks(pieces[0], name);
        FirstToSpeak(pieces[1..], name, i - 1);
        assert i < |pieces| ==> pieces[1..][i - 1] == pieces[i];
      }
    }
  }

  /** A query's value of a name is that of the first of its pieces that speaks of it, empty pieces and
      one leading question mark aside; there is none when no piece does. */
  lemma QueryValueExactly(pieces: seq<string>, name: string, i: nat)
    requires |pieces| >= 1 && forall j :: 0 <= j < |pieces| ==> Free(pieces[j], '&')
    requires i <= |pieces| && forall j :: 0 <= j < i ==> !Speaks(pieces[j], name)
    requires i < |pieces| ==> Speaks(pieces[i], name)
    ensures var expected := if i < |pieces| then Some(NameValue(pieces[i]).1) else None;
            && QueryValue("?" + Join(pieces, '&'), name) == expected
            && (!StartsWith(pieces[0], "?") ==> QueryValue(Join(pieces, '&'), name) == expected)
  {
    var query := Join(pieces, '&');
    SplitJoin(pieces, '&');
    FirstToSpeak(pieces, name, i);
    StartsWithExactly("", "?", query);
    assert ("?" + query)[1..] == query;
    if !StartsWith(pieces[0], "?") {
      JoinStarts(pieces);
    }
  }

  lemma JoinStarts(pieces: seq<string>)
    requires |pieces| >= 1 && !StartsWith(pieces[0], "?")
    ensures !StartsWith(Join(pieces, '&'), "?")
  {
    var query := Join(pieces, '&');
    if |pieces| > 1 {
      assert query == pieces[0] + (['&'] + Join(pieces[1..], '&'));
      assert query[0] == if pieces[0] == "" then '&' else pieces[0][0];
    }
    assert pieces[0] != "" ==> pieces[0][..1] == [pieces[0][0]];
    assert query != "" ==> query[..1] == [query[0]];
  }
}
