/** The comment blanker: a six-mode lexer that overwrites comments with spaces. Text is UTF-16 code units. */
module StripComments {

  type CodeUnit = u: int | 0 <= u < 0x1_0000

  const NEWLINE: CodeUnit := 10
  const SPACE: CodeUnit := 32
  const DOUBLE_QUOTE: CodeUnit := 34
  const SINGLE_QUOTE: CodeUnit := 39
  const STAR: CodeUnit := 42
  const SLASH: CodeUnit := 47
  const BACKSLASH: CodeUnit := 92
  const BACKTICK: CodeUnit := 96

  predicate IsQuote(c: CodeUnit) {
    c == SINGLE_QUOTE || c == DOUBLE_QUOTE || c == BACKTICK
  }

  // ---------- the lexer, mode by mode ----------

  datatype Mode = Code | LineComment | BlockComment | Quoted(quote: CodeUnit)

  predicate OpensLine(s: seq<CodeUnit>) {
    |s| >= 2 && s[0] == SLASH && s[1] == SLASH
  }

  predicate OpensBlock(s: seq<CodeUnit>) {
    |s| >= 2 && s[0] == SLASH && s[1] == STAR
  }

  predicate ClosesBlock(s: seq<CodeUnit>) {
    |s| >= 2 && s[0] == STAR && s[1] == SLASH
  }

  /** One move of the lexer: the mode it goes to and what it writes for the units it consumes. */
  function Move(mode: Mode, s: seq<CodeUnit>): (m: (Mode, seq<CodeUnit>))
    requires s != []
    ensures 1 <= |m.1| <= 2 && |m.1| <= |s|
  {
    match mode
    case Code =>
      if OpensLine(s) then (LineComment, [SPACE, SPACE])
      else if OpensBlock(s) then (BlockComment, [SPACE, SPACE])
      else (if IsQuote(s[0]) then Quoted(s[0]) else Code, s[..1])
    case LineComment =>
      if s[0] == NEWLINE then (Code, s[..1]) else (LineComment, [SPACE])
    case BlockComment =>
      if ClosesBlock(s) then (Code, [SPACE, SPACE])
      else (BlockComment, [if s[0] == NEWLINE then NEWLINE else SPACE])
    case Quoted(q) =>
      if s[0] == BACKSLASH then (mode, if |s| == 1 then s else s[..2])
      else (if s[0] == q then Code else mode, s[..1])
  }

  /** What the lexer writes for `s` when it meets it in `mode`. */
  function Blank(mode: Mode, s: seq<CodeUnit>): (r: seq<CodeUnit>)
    ensures |r| == |s|
    decreases |s|
  {
    if s == [] then []
    else
      var (next, written) := Move(mode, s);
      written + Blank(next, s[|written|..])
  }

  // ---------- the loop ----------

  /** `goal` agrees from index `i` on with what the lexer still has to write. */
  ghost predicate Left(goal: seq<CodeUnit>, mode: Mode, text: seq<CodeUnit>, i: nat) {
    i <= |text| && |goal| == |text| && goal[i..] == Blank(mode, text[i..])
  }

  lemma LeftMoves(goal: seq<CodeUnit>, mode: Mode, text: seq<CodeUnit>, i: nat)
    requires i < |text| && Left(goal, mode, text, i)
    ensures var (next, written) := Move(mode, text[i..]);
            Left(goal, next, text, i + |written|)
            && goal[i] == written[0] && (|written| == 2 ==> goal[i + 1] == written[1])
  {
    var (next, written) := Move(mode, text[i..]);
    var n := |written|;
    assert text[i..][n..] == text[i + n..];
    assert goal[i..] == written + Blank(next, text[i + n..]);
    assert goal[i..][n..] == goal[i + n..];
    assert goal[i..][0] == goal[i] && (n == 2 ==> goal[i..][1] == goal[i + 1]);
  }

  /** Up to `seen` the buffer holds the goal, from there on still the text. */
  predicate Blended(buffer: seq<CodeUnit>, goal: seq<CodeUnit>, text: seq<CodeUnit>, seen: nat) {
    |buffer| == |goal| == |text|
    && forall k :: 0 <= k < |text| ==> buffer[k] == if k < seen then goal[k] else text[k]
  }

  lemma BlendMoves(was: seq<CodeUnit>, now: seq<CodeUnit>, goal: seq<CodeUnit>, text: seq<CodeUnit>, i: nat, n: nat)
    requires Blended(was, goal, text, i) && |now| == |text| && i + n <= |text| && 1 <= n <= 2
    requires now[i] == goal[i] && (n == 2 ==> now[i + 1] == goal[i + 1])
    requires forall k :: 0 <= k < |text| && !(i <= k < i + n) ==> now[k] == was[k]
    ensures Blended(now, goal, text, i + n)
  {
  }

  /** One pass of the loop body: it overwrites at most the units it consumes and answers the index
      it goes on from, which an escape may carry past the end. */
  method Pass(text: seq<CodeUnit>, out: array<CodeUnit>, mode: Mode, i: nat) returns (next: Mode, j: nat)
    requires i < |text| == out.Length
    requires forall k :: i <= k < |text| ==> out[k] == text[k]
    modifies out
    ensures var m := Move(mode, text[i..]);
            next == m.0 && i < j && (if j <= |text| then j else |text|) == i + |m.1|
            && out[i] == m.1[0] && (|m.1| == 2 ==> out[i + 1] == m.1[1])
            && forall k :: 0 <= k < |text| && !(i <= k < i + |m.1|) ==> out[k] == old(out[k])
  {
    next, j := mode, i;
    var c := text[i];
    if mode == Code {
      if c == SLASH && i + 1 < |text| && text[i + 1] == SLASH {
        next := LineComment;
      } else if c == SLASH && i + 1 < |text| && text[i + 1] == STAR {
        next := BlockComment;
      } else if IsQuote(c) {
        next := Quoted(c);
      }
      if next == LineComment || next == BlockComment {
        out[i] := SPACE;
        out[i + 1] := SPACE;
        j := j + 1;
      }
    } else if mode == LineComment {
      if c == NEWLINE {
        next := Code;
      } else {
        out[i] := SPACE;
      }
    } else if mode == BlockComment {
      if c == STAR && i + 1 < |text| && text[i + 1] == SLASH {
        out[i] := SPACE;
        out[i + 1] := SPACE;
        j := j + 1;
        next := Code;
      } else if c != NEWLINE {
        out[i] := SPACE;
      }
    } else {
      if c == BACKSLASH {
        j := j + 1;
      } else if c == mode.quote {
        next := Code;
      }
    }
    j := j + 1;
  }

  function Capped(i: nat, n: nat): nat {
    if i <= n then i else n
  }

  /** A pass brings the goal nearer. */
  method Advance(text: seq<CodeUnit>, out: array<CodeUnit>, mode: Mode, i: nat, ghost goal: seq<CodeUnit>)
    returns (next: Mode, j: nat)
    requires i < |text| == out.Length && Left(goal, mode, text, i) && Blended(out[..], goal, text, i)
    modifies out
    ensures i < j && Left(goal, next, text, Capped(j, |text|)) && Blended(out[..], goal, text, Capped(j, |text|))
  {
    ghost var was, n := out[..], |Move(mode, text[i..]).1|;
    LeftMoves(goal, mode, text, i);
    next, j := Pass(text, out, mode, i);
    BlendMoves(was, out[..], goal, text, i, n);
  }

  /** The original's loop: it reads `text` and overwrites a copy of it in place. */
  method Strip(text: seq<CodeUnit>) returns (r: seq<CodeUnit>)
    ensures r == Blank(Code, text)
  {
    var out := new CodeUnit[|text|](i requires 0 <= i < |text| => text[i]);
    ghost var goal := Blank(Code, text);
    assert text[0..] == text && goal[0..] == goal;
    var mode := Code;
    var i: nat := 0;
    while i < |text|
      invariant Left(goal, mode, text, Capped(i, |text|)) && Blended(out[..], goal, text, Capped(i, |text|))
    {
      mode, i := Advance(text, out, mode, i, goal);
    }
    r := out[..];
  }

  // ---------- what is kept ----------

  /** Every unit is kept or becomes a space, and a newline is always kept: lengths, offsets and line
      numbers do not move. */
  lemma {:induction false} KeptOrBlanked(mode: Mode, s: seq<CodeUnit>)
    ensures forall i :: 0 <= i < |s| ==>
                          Blank(mode, s)[i] == s[i] || (Blank(mode, s)[i] == SPACE && s[i] != NEWLINE)
    decreases |s|
  {
    if s != [] {
      var (next, written) := Move(mode, s);
      var rest := s[|written|..];
      KeptOrBlanked(next, rest);
      forall i | 0 <= i < |s|
        ensures Blank(mode, s)[i] == s[i] || (Blank(mode, s)[i] == SPACE && s[i] != NEWLINE)
      {
        if i >= |written| {
          assert Blank(mode, s)[i] == Blank(next, rest)[i - |written|];
        } else {
          assert Blank(mode, s)[i] == written[i];
        }
      }
    }
  }

  /** The newlines of the result are exactly the newlines of the text. */
  lemma NewlinesStay(s: seq<CodeUnit>, i: nat)
    requires i < |s|
    ensures Blank(Code, s)[i] == NEWLINE <==> s[i] == NEWLINE
  {
    KeptOrBlanked(Code, s);
  }

  /** The mode a second pass is in where the first was in `mode`: comments are spaces by then. */
  function Settled(mode: Mode): Mode {
    if mode.Quoted? then mode else Code
  }

  /** One move, on a text already cut where the move ends. */
  lemma Unfolds(mode: Mode, head: seq<CodeUnit>, tail: seq<CodeUnit>)
    requires head != [] && |Move(mode, head + tail).1| == |head|
    ensures Blank(mode, head + tail) == Move(mode, head + tail).1 + Blank(Move(mode, head + tail).0, tail)
  {
    assert (head + tail)[|head|..] == tail;
  }

  /** The second pass moves over what a move wrote just as the first pass moved, keeping it. */
  lemma MoveAgain(mode: Mode, s: seq<CodeUnit>, tail: seq<CodeUnit>)
    requires s != [] && |Move(mode, s).1| + |tail| == |s|
    requires mode.Quoted? || |Move(mode, s).1| == 1
    requires |Move(mode, s).1| == 1 && |s| > 1 ==> tail[0] == s[1] || tail[0] == SPACE
    ensures Move(Settled(mode), Move(mode, s).1 + tail) == (Settled(Move(mode, s).0), Move(mode, s).1)
  {
    var written := Move(mode, s).1;
    var r := written + tail;
    assert r[..|written|] == written && r[0] == written[0];
    assert |r| == |s| && (|written| == 1 && |s| > 1 ==> r[1] == tail[0]);
    if mode.LineComment? || mode.BlockComment? {
      assert !OpensLine(r) && !OpensBlock(r) && !IsQuote(r[0]);
    } else {
      assert r[0] == s[0] && (|s| == 1 ==> r == written);
    }
  }

  lemma SpacesAgain(tail: seq<CodeUnit>)
    ensures Blank(Code, [SPACE, SPACE] + tail) == [SPACE, SPACE] + Blank(Code, tail)
  {
    assert [SPACE, SPACE] + tail == [SPACE] + ([SPACE] + tail);
    assert ([SPACE] + tail)[..1] == [SPACE] && ([SPACE] + ([SPACE] + tail))[..1] == [SPACE];
    Unfolds(Code, [SPACE], [SPACE] + tail);
    Unfolds(Code, [SPACE], tail);
  }

  lemma Fixpoint(mode: Mode, next: Mode, written: seq<CodeUnit>, tail: seq<CodeUnit>)
    requires written != [] && Move(mode, written + tail) == (next, written) && Blank(next, tail) == tail
    ensures Blank(mode, written + tail) == written + tail
  {
    assert (written + tail)[|written|..] == tail;
  }

  lemma AgainAfterMove(mode: Mode, s: seq<CodeUnit>, next: Mode, written: seq<CodeUnit>, tail: seq<CodeUnit>)
    requires s != [] && Move(mode, s) == (next, written) && |written| + |tail| == |s|
    requires |written| == 1 && |s| > 1 ==> tail[0] == s[1] || tail[0] == SPACE
    requires Blank(Settled(next), tail) == tail
    ensures Blank(Settled(mode), written + tail) == written + tail
  {
    if !mode.Quoted? && |written| == 2 {
      SpacesAgain(tail);
    } else {
      MoveAgain(mode, s, tail);
      Fixpoint(Settled(mode), Settled(next), written, tail);
    }
  }

  lemma {:induction false} BlankAgain(mode: Mode, s: seq<CodeUnit>)
    ensures Blank(Settled(mode), Blank(mode, s)) == Blank(mode, s)
    decreases |s|
  {
    if s != [] {
      var (next, written) := Move(mode, s);
      var rest := s[|written|..];
      BlankAgain(next, rest);
      KeptOrBlanked(next, rest);
      AgainAfterMove(mode, s, next, written, Blank(next, rest));
    }
  }

  /** Stripping twice is stripping once. */
  lemma StripIsIdempotent(s: seq<CodeUnit>)
    ensures Blank(Code, Blank(Code, s)) == Blank(Code, s)
  {
    BlankAgain(Code, s);
  }

  // ---------- the grammar of comments and strings ----------

  /** Source text as its reader sees it: a unit of code, a line comment up to its newline, a block
      comment, a string literal. Only the last two can run into the end of the text. */
  datatype Token =
    | Plain(c: CodeUnit)
    | Line(body: seq<CodeUnit>)
    | Block(body: seq<CodeUnit>, closed: bool)
    | Literal(quote: CodeUnit, body: seq<CodeUnit>, closed: bool)

  /** The text of a token with the text after it. */
  function Source(t: Token, after: seq<CodeUnit>): seq<CodeUnit> {
    match t
    case Plain(c) => [c] + after
    case Line(body) => [SLASH, SLASH] + (body + after)
    case Block(body, closed) => [SLASH, STAR] + (body + Closing([STAR, SLASH], closed, after))
    case Literal(q, body, closed) => [q] + (body + Closing([q], closed, after))
  }

  function Closing(close: seq<CodeUnit>, closed: bool, after: seq<CodeUnit>): seq<CodeUnit> {
    if closed then close + after else after
  }

  function SourceOf(ts: seq<Token>): seq<CodeUnit> {
    if |ts| == 0 then [] else Source(ts[0], SourceOf(ts[1..]))
  }

  /** The inside of a literal: escapes and units other than its quote; `open` lets a lone backslash end it. */
  predicate LiteralBody(q: CodeUnit, body: seq<CodeUnit>, open: bool) {
    if body == [] then true
    else if body[0] == BACKSLASH then
      if |body| == 1 then open else LiteralBody(q, body[2..], open)
    else body[0] != q && LiteralBody(q, body[1..], open)
  }

  /** Each token is as long as it can be, given the text after it. */
  predicate Fits(t: Token, after: seq<CodeUnit>) {
    match t
    case Plain(c) => !IsQuote(c) && !OpensLine([c] + after) && !OpensBlock([c] + after)
    case Line(body) => NEWLINE !in body && (after == [] || after[0] == NEWLINE)
    case Block(body, closed) =>
      (forall i :: 0 <= i < |body| ==> !ClosesBlock(body[i..])) && (closed || after == [])
    case Literal(q, body, closed) => IsQuote(q) && LiteralBody(q, body, !closed) && (closed || after == [])
  }

  predicate Lexing(ts: seq<Token>) {
    |ts| == 0 || (Fits(ts[0], SourceOf(ts[1..])) && Lexing(ts[1..]))
  }

  function Blanked(body: seq<CodeUnit>): (r: seq<CodeUnit>)
    ensures |r| == |body|
    ensures forall i :: 0 <= i < |body| ==> r[i] == if body[i] == NEWLINE then NEWLINE else SPACE
  {
    if body == [] then [] else [if body[0] == NEWLINE then NEWLINE else SPACE] + Blanked(body[1..])
  }

  /** A comment blanked whole, delimiters and all; code and literals as they are. */
  function Stripped(t: Token, after: seq<CodeUnit>): seq<CodeUnit> {
    match t
    case Plain(_) => Source(t, after)
    case Literal(_, _, _) => Source(t, after)
    case Line(body) => [SPACE, SPACE] + (Blanked(body) + after)
    case Block(body, closed) => [SPACE, SPACE] + (Blanked(body) + Closing([SPACE, SPACE], closed, after))
  }

  function StrippedOf(ts: seq<Token>): seq<CodeUnit> {
    if |ts| == 0 then [] else Stripped(ts[0], StrippedOf(ts[1..]))
  }

  lemma {:induction false} BlankLineBody(body: seq<CodeUnit>, after: seq<CodeUnit>)
    requires NEWLINE !in body && (after == [] || after[0] == NEWLINE)
    ensures Blank(LineComment, body + after) == Blanked(body) + Blank(Code, after)
  {
    var s := body + after;
    if body == [] {
      assert s == after && Blanked(body) + Blank(Code, after) == Blank(Code, after);
      assert after != [] ==> Move(LineComment, after) == Move(Code, after);
    } else {
      assert s == [body[0]] + (body[1..] + after);
      Unfolds(LineComment, [body[0]], body[1..] + after);
      BlankLineBody(body[1..], after);
    }
  }

  lemma {:induction false} BlankBlockBody(body: seq<CodeUnit>, closed: bool, after: seq<CodeUnit>)
    requires forall i :: 0 <= i < |body| ==> !ClosesBlock(body[i..])
    requires closed || after == []
    ensures Blank(BlockComment, body + Closing([STAR, SLASH], closed, after))
            == Blanked(body) + Closing([SPACE, SPACE], closed, Blank(Code, after))
  {
    var end := Closing([STAR, SLASH], closed, after);
    if body == [] {
      assert body + end == end;
      if closed {
        Unfolds(BlockComment, [STAR, SLASH], after);
      }
    } else {
      assert body[0..] == body && [body[0]] + body[1..] == body;
      forall i | 0 <= i < |body[1..]| ensures !ClosesBlock(body[1..][i..]) {
        assert body[1..][i..] == body[i + 1..];
      }
      BlankBlockBody(body[1..], closed, after);
      assert |body| > 1 ==> body[1..][0] == body[1];
      BlankInBlock(body[0], body[1..], end, Blanked(body[1..]), Closing([SPACE, SPACE], closed, Blank(Code, after)));
    }
  }

  lemma BlankInBlock(c: CodeUnit, body: seq<CodeUnit>, end: seq<CodeUnit>, was: seq<CodeUnit>, blanked: seq<CodeUnit>)
    requires c == STAR ==> (if body == [] then end == [] || end[0] == STAR else body[0] != SLASH)
    requires Blank(BlockComment, body + end) == was + blanked
    ensures Blank(BlockComment, ([c] + body) + end) == ([if c == NEWLINE then NEWLINE else SPACE] + was) + blanked
  {
    var tail := body + end;
    assert ([c] + body) + end == [c] + tail;
    assert tail != [] ==> tail[0] == if body == [] then end[0] else body[0];
    StaysInBlock(c, tail);
  }

  lemma StaysInBlock(c: CodeUnit, tail: seq<CodeUnit>)
    requires c == STAR ==> tail == [] || tail[0] != SLASH
    ensures Blank(BlockComment, [c] + tail) == [if c == NEWLINE then NEWLINE else SPACE] + Blank(BlockComment, tail)
  {
    Unfolds(BlockComment, [c], tail);
  }

  lemma {:induction false} KeepLiteralBody(q: CodeUnit, body: seq<CodeUnit>, closed: bool, after: seq<CodeUnit>)
    requires IsQuote(q) && LiteralBody(q, body, !closed)
    requires closed || after == []
    ensures Blank(Quoted(q), body + Closing([q], closed, after)) == body + Closing([q], closed, Blank(Code, after))
    decreases |body|
  {
    var end := Closing([q], closed, after);
    if body == [] {
      assert body + end == end;
      if closed {
        assert end[..1] == [q];
        Unfolds(Quoted(q), [q], after);
      }
    } else if body == [BACKSLASH] {
      assert body + end == body;
    } else {
      var n := if body[0] == BACKSLASH then 2 else 1;
      KeepLiteralBody(q, body[n..], closed, after);
      assert body[..n] + body[n..] == body;
      KeepInLiteral(q, body[..n], body[n..], end, Closing([q], closed, Blank(Code, after)));
    }
  }

  lemma KeepInLiteral(q: CodeUnit, head: seq<CodeUnit>, body: seq<CodeUnit>, end: seq<CodeUnit>, kept: seq<CodeUnit>)
    requires head != [] && |head| == (if head[0] == BACKSLASH then 2 else 1) && head[0] != q
    requires Blank(Quoted(q), body + end) == body + kept
    ensures Blank(Quoted(q), (head + body) + end) == (head + body) + kept
  {
    var tail := body + end;
    assert (head + body) + end == head + tail;
    MoveInLiteral(q, head, tail);
    Unfolds(Quoted(q), head, tail);
    assert head + (body + kept) == (head + body) + kept;
  }

  lemma MoveInLiteral(q: CodeUnit, head: seq<CodeUnit>, tail: seq<CodeUnit>)
    requires head != [] && |head| == (if head[0] == BACKSLASH then 2 else 1) && head[0] != q
    ensures Move(Quoted(q), head + tail) == (Quoted(q), head)
  {
    assert (head + tail)[..|head|] == head && (head + tail)[0] == head[0];
  }

  lemma BlankToken(t: Token, after: seq<CodeUnit>)
    requires Fits(t, after)
    ensures Blank(Code, Source(t, after)) == Stripped(t, Blank(Code, after))
  {
    match t
    case Plain(c) =>
      assert ([c] + after)[..1] == [c];
      Unfolds(Code, [c], after);
    case Line(body) =>
      BlankLineBody(body, after);
      Unfolds(Code, [SLASH, SLASH], body + after);
    case Block(body, closed) =>
      BlankBlockBody(body, closed, after);
      Unfolds(Code, [SLASH, STAR], body + Closing([STAR, SLASH], closed, after));
    case Literal(q, body, closed) =>
      var rest := body + Closing([q], closed, after);
      KeepLiteralBody(q, body, closed, after);
      assert ([q] + rest)[..1] == [q];
      Unfolds(Code, [q], rest);
  }

  /** However the text is read as tokens, stripping blanks exactly its comments. */
  lemma {:induction false} StripBlanksComments(ts: seq<Token>)
    requires Lexing(ts)
    ensures Blank(Code, SourceOf(ts)) == StrippedOf(ts)
  {
    if |ts| > 0 {
      BlankToken(ts[0], SourceOf(ts[1..]));
      StripBlanksComments(ts[1..]);
    }
  }

  // ---------- every text can be read ----------

  lemma ReadLine(s: seq<CodeUnit>) returns (body: seq<CodeUnit>, after: seq<CodeUnit>)
    ensures s == body + after && Fits(Line(body), after)
  {
    body, after := [], s;
    while after != [] && after[0] != NEWLINE
      invariant s == body + after && NEWLINE !in body
    {
      body, after := body + [after[0]], after[1..];
    }
  }

  lemma {:induction false} ReadBlock(s: seq<CodeUnit>) returns (body: seq<CodeUnit>, closed: bool, after: seq<CodeUnit>)
    ensures s == body + Closing([STAR, SLASH], closed, after)
    ensures Fits(Block(body, closed), after)
  {
    if s == [] {
      body, closed, after := [], false, [];
    } else if ClosesBlock(s) {
      body, closed, after := [], true, s[2..];
      assert s == [STAR, SLASH] + s[2..];
    } else {
      body, closed, after := ReadBlock(s[1..]);
      assert s == [s[0]] + s[1..];
      BlockGrows(s[0], body, closed, after);
      body := [s[0]] + body;
    }
  }

  lemma BlockGrows(c: CodeUnit, body: seq<CodeUnit>, closed: bool, after: seq<CodeUnit>)
    requires Fits(Block(body, closed), after)
    requires !ClosesBlock([c] + (body + Closing([STAR, SLASH], closed, after)))
    ensures Fits(Block([c] + body, closed), after)
  {
    var all := [c] + body;
    forall i | 0 <= i < |all| ensures !ClosesBlock(all[i..]) {
      if i > 0 {
        assert all[i..] == body[i - 1..];
      } else if body != [] {
        assert (body + Closing([STAR, SLASH], closed, after))[0] == body[0];
      }
    }
  }

  lemma {:induction false} ReadLiteral(q: CodeUnit, s: seq<CodeUnit>)
    returns (body: seq<CodeUnit>, closed: bool, after: seq<CodeUnit>)
    requires IsQuote(q)
    ensures s == body + Closing([q], closed, after)
    ensures Fits(Literal(q, body, closed), after)
    decreases |s|
  {
    if s == [] || s == [BACKSLASH] {
      body, closed, after := s, false, [];
    } else if s[0] == BACKSLASH {
      body, closed, after := ReadLiteral(q, s[2..]);
      var rest := body;
      body := s[..2] + rest;
      assert body[2..] == rest;
    } else if s[0] == q {
      body, closed, after := [], true, s[1..];
    } else {
      body, closed, after := ReadLiteral(q, s[1..]);
      var rest := body;
      body := [s[0]] + rest;
      assert body[1..] == rest;
    }
  }

  /** Every text has a reading, so stripping is blanking its comments, for every text. */
  lemma {:induction false} EveryTextLexes(s: seq<CodeUnit>) returns (ts: seq<Token>)
    ensures Lexing(ts) && SourceOf(ts) == s
    ensures Blank(Code, s) == StrippedOf(ts)
    decreases |s|
  {
    if s == [] {
      ts := [];
    } else {
      var t, after;
      if OpensLine(s) {
        var body;
        body, after := ReadLine(s[2..]);
        t := Line(body);
      } else if OpensBlock(s) {
        var body, closed;
        body, closed, after := ReadBlock(s[2..]);
        t := Block(body, closed);
      } else if IsQuote(s[0]) {
        var body, closed;
        body, closed, after := ReadLiteral(s[0], s[1..]);
        t := Literal(s[0], body, closed);
      } else {
        t, after := Plain(s[0]), s[1..];
        assert [s[0]] + after == s;
      }
      assert s == Source(t, after);
      var rest := EveryTextLexes(after);
      ts := [t] + rest;
      assert ts[1..] == rest;
    }
    StripBlanksComments(ts);
  }

  // ---------- in code units ----------

  /** The inside of a literal quoted by `q`, unit by unit: a backslash (92) takes the next unit with it. */
  predicate Inside(q: CodeUnit, body: seq<CodeUnit>) {
    body == [] || (if body[0] == 92 then |body| >= 2 && Inside(q, body[2..]) else body[0] != q && Inside(q, body[1..]))
  }

  lemma {:induction false} InsideIsBody(q: CodeUnit, body: seq<CodeUnit>)
    requires Inside(q, body)
    ensures LiteralBody(q, body, false)
    decreases |body|
  {
    if body != [] {
      InsideIsBody(q, if body[0] == 92 then body[2..] else body[1..]);
    }
  }

  lemma {:induction false} PlainInside(q: CodeUnit, body: seq<CodeUnit>)
    requires q !in body && 92 !in body
    ensures Inside(q, body)
  {
    if body != [] {
      PlainInside(q, body[1..]);
    }
  }

  /** A literal in double quotes (34), single quotes (39) or backticks (96) is left as it is, slashes and
      escaped quotes in it included, and the code after it is read as code. */
  lemma LiteralsAreKept(q: CodeUnit, body: seq<CodeUnit>, after: seq<CodeUnit>)
    requires q == 34 || q == 39 || q == 96
    requires Inside(q, body) || (q !in body && 92 !in body)
    ensures Blank(Code, [q] + (body + ([q] + after))) == [q] + (body + ([q] + Blank(Code, after)))
  {
    if q !in body && 92 !in body {
      PlainInside(q, body);
    }
    InsideIsBody(q, body);
    BlankToken(Literal(q, body, true), after);
  }

  /** A line comment is blanked up to its newline (10). */
  lemma LineCommentsAreBlanked(body: seq<CodeUnit>, after: seq<CodeUnit>)
    requires 10 !in body
    ensures exists r: seq<CodeUnit> ::
              |r| == |body| && (forall i :: 0 <= i < |r| ==> r[i] == 32)
              && Blank(Code, [47, 47] + (body + ([10] + after))) == [32, 32] + (r + ([10] + Blank(Code, after)))
  {
    BlankToken(Line(body), [10] + after);
    assert ([10] + after)[..1] == [10];
    Unfolds(Code, [10], after);
    var r := Blanked(body);
    forall i | 0 <= i < |r| ensures r[i] == 32 { assert body[i] in body; }
    assert Blank(Code, [47, 47] + (body + ([10] + after))) == [32, 32] + (r + ([10] + Blank(Code, after)));
  }

  /** A block comment is blanked up to its first closing mark, newlines kept. */
  lemma BlockCommentsAreBlanked(body: seq<CodeUnit>, after: seq<CodeUnit>)
    requires forall i :: 0 <= i < |body| - 1 ==> !(body[i] == 42 && body[i + 1] == 47)
    ensures exists r: seq<CodeUnit> ::
              |r| == |body| && (forall i :: 0 <= i < |r| ==> r[i] == if body[i] == 10 then 10 else 32)
              && Blank(Code, [47, 42] + (body + ([42, 47] + after))) == [32, 32] + (r + ([32, 32] + Blank(Code, after)))
  {
    forall i | 0 <= i < |body| ensures !ClosesBlock(body[i..]) {
      assert |body[i..]| >= 2 ==> body[i..][0] == body[i] && body[i..][1] == body[i + 1];
    }
    BlankToken(Block(body, true), after);
    assert Blank(Code, [47, 42] + (body + ([42, 47] + after)))
        == [32, 32] + (Blanked(body) + ([32, 32] + Blank(Code, after)));
  }

  /** Any other unit is code, and kept; so is a slash that opens no comment. */
  lemma CodeIsKept(c: CodeUnit, after: seq<CodeUnit>)
    requires c != 34 && c != 39 && c != 96
    requires c == 47 ==> after == [] || (after[0] != 47 && after[0] != 42)
    ensures Blank(Code, [c] + after) == [c] + Blank(Code, after)
  {
    BlankToken(Plain(c), after);
  }
}
