/** JSON text of an array of strings (section 7 of RFC 8259), as `JSON.stringify` writes it, and a reader of it. */
module Json {
  import opened Text

  datatype Atom = Str(s: string) | Null

  // ---------- writing ----------

  function LowerHex(n: nat): char
    requires n < 16
  {
    if n < 10 then (n + '0' as int) as char else (n - 10 + 'a' as int) as char
  }

  function LowerHexValue(c: char): (v: Option<nat>)
    ensures v.Some? ==> v.value < 16
  {
    if '0' <= c <= '9' then Some(c as int - '0' as int)
    else if 'a' <= c <= 'f' then Some(c as int - 'a' as int + 10)
    else None
  }

  function WriteChar(c: char): (w: string)
    ensures w != "" && w[0] != '"'
  {
    if c == '"' then ['\\', '"']
    else if c == '\\' then ['\\', '\\']
    else
      match c as int
      case 8 => ['\\', 'b']
      case 9 => ['\\', 't']
      case 10 => ['\\', 'n']
      case 12 => ['\\', 'f']
      case 13 => ['\\', 'r']
      case v => if v < 32 then ['\\', 'u', '0', '0', LowerHex(v / 16), LowerHex(v % 16)] else [c]
  }

  function WriteChars(s: string): string {
    if s == "" then "" else WriteChar(s[0]) + WriteChars(s[1..])
  }

  function WriteAtom(a: Atom): string {
    match a
    case Null => "null"
    case Str(s) => "\"" + (WriteChars(s) + "\"")
  }

  function WriteItems(items: seq<Atom>): string
    requires |items| >= 1
  {
    if |items| == 1 then WriteAtom(items[0]) else WriteAtom(items[0]) + ("," + WriteItems(items[1..]))
  }

  /** `JSON.stringify` of an array of strings and nulls. */
  function JsonText(items: seq<Atom>): (text: string)
    ensures |text| >= 2 && text[|text| - 1] == ']'
  {
    if |items| == 0 then "[]" else "[" + WriteItems(items) + "]"
  }

  function Strings(items: seq<string>): (atoms: seq<Atom>)
    ensures |atoms| == |items| && forall i :: 0 <= i < |items| ==> atoms[i] == Str(items[i])
  {
    seq(|items|, i requires 0 <= i < |items| => Str(items[i]))
  }

  // ---------- reading ----------

  /** One character of a string and the text after it; `None` at the closing quote or on bad text. */
  function ReadChar(s: string): (r: Option<(char, string)>)
    ensures r.Some? ==> |r.value.1| < |s|
  {
    if s == "" || s[0] == '"' then None
    else if s[0] != '\\' then Some((s[0], s[1..]))
    else if |s| < 2 then None
    else
      match s[1]
      case '"' => Some(('"', s[2..]))
      case '\\' => Some(('\\', s[2..]))
      case 'b' => Some((8 as char, s[2..]))
      case 't' => Some((9 as char, s[2..]))
      case 'n' => Some((10 as char, s[2..]))
      case 'f' => Some((12 as char, s[2..]))
      case 'r' => Some((13 as char, s[2..]))
      case 'u' =>
        if |s| >= 6 && s[2] == '0' && s[3] == '0' && LowerHexValue(s[4]).Some? && LowerHexValue(s[5]).Some?
        then Some(((LowerHexValue(s[4]).value * 16 + LowerHexValue(s[5]).value) as char, s[6..]))
        else None
      case _ => None
  }

  function ReadChars(s: string): (r: Option<(string, string)>)
    ensures r.Some? ==> |r.value.1| < |s|
    decreases |s|
  {
    if s != "" && s[0] == '"' then Some(("", s[1..]))
    else
      match ReadChar(s)
      case None => None
      case Some((c, rest)) =>
        match ReadChars(rest)
        case None => None
        case Some((text, after)) => Some(([c] + text, after))
  }

  function ReadAtom(s: string): (r: Option<(Atom, string)>)
    ensures r.Some? ==> |r.value.1| < |s|
  {
    if |s| >= 4 && s[0] == 'n' && s[1] == 'u' && s[2] == 'l' && s[3] == 'l' then Some((Null, s[4..]))
    else if s != "" && s[0] == '"' then
      match ReadChars(s[1..])
      case None => None
      case Some((text, after)) => Some((Str(text), after))
    else None
  }

  function ReadItems(s: string): Option<seq<Atom>>
    decreases |s|
  {
    match ReadAtom(s)
    case None => None
    case Some((a, after)) =>
      if after == "]" then Some([a])
      else if after != "" && after[0] == ',' then
        match ReadItems(after[1..])
        case None => None
        case Some(items) => Some([a] + items)
      else None
  }

  function ReadArray(text: string): Option<seq<Atom>> {
    if text == "" || text[0] != '[' then None
    else if text[1..] == "]" then Some([])
    else ReadItems(text[1..])
  }

  // ---------- reading undoes writing ----------

  lemma ReadWrittenChar(c: char, rest: string)
    ensures ReadChar(WriteChar(c) + rest) == Some((c, rest))
  {
    var w := WriteChar(c);
    var s := w + rest;
    assert s[|w|..] == rest;
    assert forall k :: 0 <= k < |w| ==> s[k] == w[k];
  }

  lemma {:induction false} ReadWrittenChars(s: string, after: string)
    ensures ReadChars(WriteChars(s) + ("\"" + after)) == Some((s, after))
  {
    var rest := "\"" + after;
    if s == "" {
      assert WriteChars(s) + rest == rest && rest[1..] == after;
    } else {
      var tail := WriteChars(s[1..]) + rest;
      assert WriteChars(s) + rest == WriteChar(s[0]) + tail;
      ReadWrittenChar(s[0], tail);
      ReadWrittenChars(s[1..], after);
      assert [s[0]] + s[1..] == s;
    }
  }

  lemma ReadWrittenAtom(a: Atom, after: string)
    ensures ReadAtom(WriteAtom(a) + after) == Some((a, after))
  {
    match a
    case Null => assert (WriteAtom(a) + after)[4..] == after;
    case Str(s) => ReadWrittenStr(s, after);
  }

  lemma ReadWrittenStr(s: string, after: string)
    ensures ReadAtom(WriteAtom(Str(s)) + after) == Some((Str(s), after))
  {
    var text := WriteAtom(Str(s)) + after;
    assert text[1..] == WriteChars(s) + ("\"" + after);
    assert text[0] == '"';
    ReadWrittenChars(s, after);
  }

  lemma {:induction false} ReadWrittenItems(items: seq<Atom>)
    requires |items| >= 1
    ensures ReadItems(WriteItems(items) + "]") == Some(items)
  {
    if |items| == 1 {
      ReadWrittenAtom(items[0], "]");
      assert WriteItems(items) + "]" == WriteAtom(items[0]) + "]";
      assert [items[0]] == items;
    } else {
      var after := "," + (WriteItems(items[1..]) + "]");
      assert WriteItems(items) + "]" == WriteAtom(items[0]) + after;
      ReadWrittenAtom(items[0], after);
      assert after[1..] == WriteItems(items[1..]) + "]";
      ReadWrittenItems(items[1..]);
      assert [items[0]] + items[1..] == items;
    }
  }

  /** Every array reads back from its text. */
  lemma ReadUndoesWrite(items: seq<Atom>)
    ensures ReadArray(JsonText(items)) == Some(items)
  {
    if |items| == 0 {
      assert "[]"[1..] == "]";
    } else {
      assert JsonText(items)[1..] == WriteItems(items) + "]";
      ReadWrittenItems(items);
      assert WriteItems(items) != "" by {
        ReadWrittenAtom(items[0], "");
      }
    }
  }

  /** So equal texts are equal arrays. */
  lemma JsonTextIsInjective(a: seq<Atom>, b: seq<Atom>)
    ensures JsonText(a) == JsonText(b) <==> a == b
  {
    ReadUndoesWrite(a);
    ReadUndoesWrite(b);
  }

  lemma StringsTextIsInjective(a: seq<string>, b: seq<string>)
    ensures JsonText(Strings(a)) == JsonText(Strings(b)) <==> a == b
  {
    JsonTextIsInjective(Strings(a), Strings(b));
    if Strings(a) == Strings(b) {
      assert |a| == |b|;
      assert forall i :: 0 <= i < |a| ==> Strings(a)[i] == Str(a[i]) && Strings(b)[i] == Str(b[i]);
    }
  }

  // ---------- the text, letter by letter ----------

  /** Quotes and backslashes are escaped, and the control characters: five by a letter, the others by
      their code in four lower-case hex digits. Anything else is written as it is. */
  lemma CharsSpelled(c: char)
    ensures WriteChar('"') == "\\\"" && WriteChar('\\') == "\\\\"
    ensures WriteChar('\U{8}') == "\\b" && WriteChar('\U{9}') == "\\t" && WriteChar('\U{A}') == "\\n"
    ensures WriteChar('\U{C}') == "\\f" && WriteChar('\U{D}') == "\\r"
    ensures WriteChar('\U{0}') == "\\u0000" && WriteChar('\U{B}') == "\\u000b" && WriteChar('\U{1F}') == "\\u001f"
    ensures c >= ' ' && c != '"' && c != '\\' ==> WriteChar(c) == [c]
    ensures c < ' ' ==> |WriteChar(c)| == 2 || (|WriteChar(c)| == 6 && WriteChar(c)[..4] == "\\u00")
  {
  }

  /** Items stand between brackets and commas, strings between quotes. */
  lemma TextSpelled(a: Atom, b: Atom, rest: seq<Atom>, s: string)
    ensures JsonText([]) == "[]" && JsonText([a]) == "[" + WriteAtom(a) + "]"
    ensures WriteItems([a, b] + rest) == WriteAtom(a) + ("," + WriteItems([b] + rest))
    ensures WriteAtom(Null) == "null" && WriteAtom(Str(s)) == "\"" + (WriteChars(s) + "\"")
  {
    assert ([a, b] + rest)[1..] == [b] + rest;
  }
}
