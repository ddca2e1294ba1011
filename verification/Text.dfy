/**
 String operations of the host language that the modelled code leans on: splitting and
 joining on one character, decimal numerals, substring search and JavaScript white space.
 A `string` here is well-formed Unicode: one `char` is one Unicode scalar value.
 */
module Text {

  // ---------- Option ----------

  datatype Option<+T> = None | Some(value: T)

  // ---------- split and join ----------

  /** `s.split(c)` for a one-character separator: never empty. */
  function Split(s: string, c: char): (parts: seq<string>)
    ensures |parts| >= 1
  {
    if s == "" then [""]
    else
      var rest := Split(s[1..], c);
      if s[0] == c then [""] + rest else [[s[0]] + rest[0]] + rest[1..]
  }

  /** `parts.join(c)`. */
  function Join(parts: seq<string>, c: char): string {
    if |parts| == 0 then ""
    else if |parts| == 1 then parts[0]
    else parts[0] + [c] + Join(parts[1..], c)
  }

  ghost predicate Free(s: string, c: char) {
    c !in s
  }

  lemma {:induction false} SplitFree(s: string, c: char)
    requires Free(s, c)
    ensures Split(s, c) == [s]
  {
    if s != "" {
      assert Free(s[1..], c);
      SplitFree(s[1..], c);
      assert [s[0]] + s[1..] == s;
    }
  }

  /** The first separator ends the first part. */
  lemma {:induction false} SplitHead(a: string, c: char, b: string)
    requires Free(a, c)
    ensures Split(a + [c] + b, c) == [a] + Split(b, c)
  {
    var s := a + [c] + b;
    if a == "" {
      assert s[1..] == b;
    } else {
      assert s[1..] == a[1..] + [c] + b;
      assert Free(a[1..], c);
      SplitHead(a[1..], c, b);
      assert [a[0]] + a[1..] == a;
    }
  }

  lemma {:induction false} SplitPartsFree(s: string, c: char)
    ensures forall i :: 0 <= i < |Split(s, c)| ==> Free(Split(s, c)[i], c)
  {
    if s != "" {
      SplitPartsFree(s[1..], c);
    }
  }

  /** Splitting undoes joining separator-free parts. */
  lemma {:induction false} SplitJoin(parts: seq<string>, c: char)
    requires |parts| >= 1
    requires forall i :: 0 <= i < |parts| ==> Free(parts[i], c)
    ensures Split(Join(parts, c), c) == parts
  {
    if |parts| == 1 {
      SplitFree(parts[0], c);
    } else {
      SplitHead(parts[0], c, Join(parts[1..], c));
      SplitJoin(parts[1..], c);
    }
  }

  /** Joining undoes splitting, for every string. */
  lemma {:induction false} JoinSplit(s: string, c: char)
    ensures Join(Split(s, c), c) == s
  {
    if s != "" {
      var rest := Split(s[1..], c);
      JoinSplit(s[1..], c);
      if s[0] == c {
        assert ([""] + rest)[1..] == rest;
      } else {
        var parts := [[s[0]] + rest[0]] + rest[1..];
        assert parts[1..] == rest[1..];
        if |rest| == 1 {
          assert parts == [[s[0]] + rest[0]];
        } else {
          assert Join(rest, c) == rest[0] + [c] + Join(rest[1..], c);
        }
      }
    }
  }

  // ---------- decimal numerals ----------

  predicate IsDigit(c: char) {
    '0' <= c <= '9'
  }

  function DigitValue(c: char): (v: nat)
    requires IsDigit(c)
    ensures v < 10
  {
    c as int - '0' as int
  }

  /** The pattern /^[0-9]+$/. */
  predicate IsNumeral(s: string) {
    s != "" && forall i :: 0 <= i < |s| ==> IsDigit(s[i])
  }

  /** The integer a run of digits denotes, most significant digit first. */
  function NumeralValue(s: string): nat
    requires forall i :: 0 <= i < |s| ==> IsDigit(s[i])
  {
    if s == "" then 0 else 10 * NumeralValue(s[..|s| - 1]) + DigitValue(s[|s| - 1])
  }

  /** A natural number as a template string writes it. */
  function Decimal(n: nat): (s: string)
    ensures IsNumeral(s)
  {
    var digit := [(n % 10 + '0' as int) as char];
    if n < 10 then digit else Decimal(n / 10) + digit
  }

  lemma {:induction false} DecimalDenotes(n: nat)
    ensures NumeralValue(Decimal(n)) == n
  {
    var digit := [(n % 10 + '0' as int) as char];
    if n < 10 {
      assert digit[..0] == "";
      assert NumeralValue(digit[..0]) == 0;
    } else {
      DecimalDenotes(n / 10);
      var s := Decimal(n / 10) + digit;
      assert s[..|s| - 1] == Decimal(n / 10);
      assert s[|s| - 1] == digit[0];
    }
  }

  function Zeros(n: nat): (s: string)
    ensures |s| == n && forall i :: 0 <= i < n ==> s[i] == '0'
  {
    if n == 0 then "" else Zeros(n - 1) + "0"
  }

  lemma {:induction false} ZerosAreZero(n: nat)
    ensures NumeralValue(Zeros(n)) == 0
  {
    if n > 0 {
      assert Zeros(n)[..n - 1] == Zeros(n - 1);
      ZerosAreZero(n - 1);
    }
  }

  /** A run of digits is its number as it is written, after some leading zeros: the value is the one a
      reader of decimals would give. */
  lemma {:induction false} NumeralIsPadded(s: string)
    requires IsNumeral(s)
    ensures NumeralValue(s) == 0 ==> s == Zeros(|s|)
    ensures NumeralValue(s) > 0 ==>
              |Decimal(NumeralValue(s))| <= |s|
              && s == Zeros(|s| - |Decimal(NumeralValue(s))|) + Decimal(NumeralValue(s))
  {
    var last := |s| - 1;
    var front, v, d := s[..last], NumeralValue(s), DigitValue(s[last]);
    assert s == front + [s[last]];
    if front == "" {
      assert NumeralValue(front) == 0;
      assert Decimal(v) == [s[last]];
    } else {
      NumeralIsPadded(front);
      assert v == 10 * NumeralValue(front) + d && v / 10 == NumeralValue(front) && v % 10 == d;
      if NumeralValue(front) == 0 {
        assert v > 0 ==> Decimal(v) == [s[last]];
      } else {
        assert Decimal(v) == Decimal(v / 10) + [s[last]];
      }
    }
  }

  // ---------- searching ----------

  /** `s.startsWith(prefix)`. */
  predicate StartsWith(s: string, prefix: string) {
    |prefix| <= |s| && s[..|prefix|] == prefix
  }

  /** `s.includes(needle)`. */
  predicate Includes(s: string, needle: string) {
    exists i :: 0 <= i <= |s| && StartsWith(s[i..], needle)
  }

  lemma StartsWithExactly(s: string, prefix: string, tail: string)
    ensures StartsWith(prefix + tail, prefix)
    ensures StartsWith(s, prefix) ==> s == prefix + s[|prefix|..]
  {
  }

  /** A string includes just what it can be split around. */
  lemma IncludesExactly(s: string, needle: string)
    ensures Includes(s, needle) <==> exists a, b :: s == a + needle + b
  {
    if Includes(s, needle) {
      var i :| 0 <= i <= |s| && StartsWith(s[i..], needle);
      assert s == s[..i] + needle + s[i + |needle|..];
    }
    forall a, b | s == a + needle + b ensures Includes(s, needle) {
      assert s[|a|..] == needle + b;
      StartsWithExactly(s, needle, b);
    }
  }

  // ---------- white space ----------

  /** The white space and line terminators that `trim` and the pattern \s share. */
  predicate IsSpace(c: char) {
    var v := c as int;
    9 <= v <= 13 || v == 0x20 || v == 0xA0 || v == 0x1680 || 0x2000 <= v <= 0x200A
    || v == 0x2028 || v == 0x2029 || v == 0x202F || v == 0x205F || v == 0x3000 || v == 0xFEFF
  }

  /** Neither end is white space: what `trim` leaves alone. */
  predicate Trimmed(s: string) {
    s == "" || (!IsSpace(s[0]) && !IsSpace(s[|s| - 1]))
  }

  function TrimStart(s: string): (r: string)
    ensures r == "" || !IsSpace(r[0])
  {
    if s != "" && IsSpace(s[0]) then TrimStart(s[1..]) else s
  }

  function TrimEnd(s: string): (r: string)
    ensures r == "" || !IsSpace(r[|r| - 1])
    ensures r <= s
  {
    if s != "" && IsSpace(s[|s| - 1]) then TrimEnd(s[..|s| - 1]) else s
  }

  /** `s.trim()`: what is left starts and ends with no white space, and trimming it again does nothing. */
  function Trim(s: string): (r: string)
    ensures Trimmed(r)
    ensures Trimmed(s) ==> r == s
  {
    TrimEnd(TrimStart(s))
  }

  predicate AllSpace(s: string) {
    forall i :: 0 <= i < |s| ==> IsSpace(s[i])
  }

  lemma {:induction false} TrimStartOf(a: string, s: string)
    requires AllSpace(a) && (s == "" || !IsSpace(s[0]))
    ensures TrimStart(a + s) == s
  {
    if a == "" {
      assert a + s == s;
    } else {
      assert (a + s)[1..] == a[1..] + s;
      TrimStartOf(a[1..], s);
    }
  }

  lemma {:induction false} TrimEndOf(s: string, b: string)
    requires AllSpace(b) && (s == "" || !IsSpace(s[|s| - 1]))
    ensures TrimEnd(s + b) == s
  {
    if b == "" {
      assert s + b == s;
    } else {
      assert (s + b)[..|s + b| - 1] == s + b[..|b| - 1];
      TrimEndOf(s, b[..|b| - 1]);
    }
  }

  /** Trimming takes off the white space around a text, and only that. */
  lemma TrimOf(a: string, s: string, b: string)
    requires AllSpace(a) && AllSpace(b) && Trimmed(s)
    ensures Trim(a + s + b) == s
  {
    if s == "" {
      assert a + s + b == (a + b) + "";
      TrimStartOf(a + b, "");
    } else {
      assert a + s + b == a + (s + b);
      TrimStartOf(a, s + b);
      TrimEndOf(s, b);
    }
  }

  /** The text is `r` with white space around it. */
  ghost predicate Padded(s: string, r: string) {
    exists a, b :: AllSpace(a) && AllSpace(b) && s == a + r + b
  }

  lemma {:induction false} CutAtStart(s: string) returns (a: string)
    ensures AllSpace(a) && s == a + TrimStart(s)
  {
    if s != "" && IsSpace(s[0]) {
      var rest := CutAtStart(s[1..]);
      a := [s[0]] + rest;
      assert s == [s[0]] + (rest + TrimStart(s[1..]));
    } else {
      a := "";
    }
  }

  lemma {:induction false} CutAtEnd(s: string) returns (b: string)
    ensures AllSpace(b) && s == TrimEnd(s) + b
  {
    if s != "" && IsSpace(s[|s| - 1]) {
      var last := |s| - 1;
      var rest := CutAtEnd(s[..last]);
      b := rest + [s[last]];
      assert s == (TrimEnd(s[..last]) + rest) + [s[last]];
    } else {
      b := "";
    }
  }

  lemma PaddedBy(a: string, r: string, b: string)
    requires AllSpace(a) && AllSpace(b)
    ensures Padded(a + (r + b), r)
  {
    assert a + (r + b) == a + r + b;
  }

  lemma TrimIsPadded(s: string)
    ensures Padded(s, Trim(s))
  {
    var a := CutAtStart(s);
    var b := CutAtEnd(TrimStart(s));
    PaddedBy(a, TrimEnd(TrimStart(s)), b);
  }

  /** What trimming leaves is the one trimmed text that the given one pads. */
  lemma TrimExactly(s: string, r: string)
    ensures Trim(s) == r <==> Trimmed(r) && Padded(s, r)
  {
    TrimIsPadded(s);
    if Trimmed(r) && Padded(s, r) {
      var a, b :| AllSpace(a) && AllSpace(b) && s == a + r + b;
      TrimOf(a, r, b);
    }
  }

  lemma TrimStartsAt(a: string, s: string)
    requires AllSpace(a) && s != "" && !IsSpace(s[0])
    ensures Trim(a + s) == TrimEnd(s)
  {
    TrimStartOf(a, s);
  }

  /** Among the ASCII characters, the white space is tab, line feed, vertical tab, form feed, carriage
      return and space; past them, the Unicode spaces, the two separators and the byte order mark. */
  lemma SpacesExactly(c: char)
    ensures IsSpace(c) <==>
            c in "\U{9}\U{A}\U{B}\U{C}\U{D} \U{A0}\U{1680}\U{2000}\U{2001}\U{2002}\U{2003}\U{2004}\U{2005}"
            || c in "\U{2006}\U{2007}\U{2008}\U{2009}\U{200A}\U{2028}\U{2029}\U{202F}\U{205F}\U{3000}\U{FEFF}"
  {
  }
}
