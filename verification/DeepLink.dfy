/** The deep-link grammar: the parser of `#/…` hashes and the printer its grammar comment describes. */
module DeepLinks {
  import opened Text
  import opened UriCoding
  import opened HostKeys

  /** Which strings are terminal ids. The schema behind it is a UUID check; the grammar needs no
      more of it than that it refuses the empty string. */
  type IdTest = string -> bool

  datatype DeepLink =
    | HostLink(host: string)
    | TerminalLink(host: string, terminalId: string)
    | CodeLink(host: string, terminalId: string, path: string, line: Option<nat>)
    | InspectorLink(host: string, terminalId: string)
    | SettingsLink
  {
    /** The families that target a terminal, and so wait for its host's membership. */
    predicate TargetsTerminal() {
      TerminalLink? || CodeLink? || InspectorLink?
    }
  }

  datatype Reason =
    | EmptySegment | BadEncoding | SettingsHasSegments | HostArity | BadHost | TerminalArity
    | BadTerminalId | ExtraSegments | NoPath | BadLine | UnknownTab | UnknownFamily

  datatype Parsed = Link(link: DeepLink) | NoLink | Invalid(reason: Reason)

  const MAX_SAFE_INTEGER: nat := 0x1F_FFFF_FFFF_FFFF

  // ---------- the parser ----------

  /** The text before the first `?` and the text after it. */
  function SplitQuery(raw: string): (string, string) {
    var parts := Split(raw, '?');
    (parts[0], Join(parts[1..], '?'))
  }

  function Unhashed(hash: string): string {
    if StartsWith(hash, "#") then hash[1..] else hash
  }

  function PathPart(hash: string): string {
    SplitQuery(Unhashed(hash)).0
  }

  function QueryPart(hash: string): string {
    SplitQuery(Unhashed(hash)).1
  }

  /** Exactly one leading empty segment is dropped. */
  function RawSegments(pathPart: string): seq<string> {
    var parts := Split(pathPart, '/');
    if parts[0] == "" then parts[1..] else parts
  }

  function ParseDeepLink(hash: string, isId: IdTest): Parsed {
    var pathPart := PathPart(hash);
    if pathPart == "" || pathPart == "/" then NoLink
    else
      var raw := RawSegments(pathPart);
      if |raw| == 0 then NoLink
      else if "" in raw then Invalid(EmptySegment)
      else
        match DecodeAll(raw)
        case None => Invalid(BadEncoding)
        case Some(segments) => ParseSegments(segments, QueryPart(hash), isId)
  }

  function ParseSegments(segments: seq<string>, query: string, isId: IdTest): Parsed
    requires |segments| >= 1
  {
    var family, rest := segments[0], segments[1..];
    if family == "settings" then
      if |rest| != 0 then Invalid(SettingsHasSegments) else Link(SettingsLink)
    else if family == "h" then
      if |rest| != 1 then Invalid(HostArity)
      else if !IsEncodedHostKey(rest[0]) then Invalid(BadHost)
      else Link(HostLink(rest[0]))
    else if family == "t" then
      if |rest| < 2 then Invalid(TerminalArity)
      else if !IsEncodedHostKey(rest[0]) then Invalid(BadHost)
      else if !isId(rest[1]) then Invalid(BadTerminalId)
      else if |rest| == 2 then Link(TerminalLink(rest[0], rest[1]))
      else if |rest| > 3 then Invalid(ExtraSegments)
      else if rest[2] == "inspector" then Link(InspectorLink(rest[0], rest[1]))
      else if rest[2] == "code" then ParseCode(rest[0], rest[1], query)
      else Invalid(UnknownTab)
    else Invalid(UnknownFamily)
  }

  function ParseCode(host: string, terminalId: string, query: string): Parsed {
    var path := QueryValue(query, "path");
    if path == None || path == Some("") then Invalid(NoPath)
    else
      match QueryValue(query, "line")
      case None => Link(CodeLink(host, terminalId, path.value, None))
      case Some(text) =>
        if IsNumeral(text) && 1 <= NumeralValue(text) <= MAX_SAFE_INTEGER
        then Link(CodeLink(host, terminalId, path.value, Some(NumeralValue(text))))
        else Invalid(BadLine)
  }

  // ---------- the printer ----------

  /** A link every field of which is admissible. */
  predicate WellFormed(l: DeepLink, isId: IdTest) {
    match l
    case HostLink(host) => IsEncodedHostKey(host)
    case TerminalLink(host, id) => IsEncodedHostKey(host) && isId(id)
    case InspectorLink(host, id) => IsEncodedHostKey(host) && isId(id)
    case CodeLink(host, id, path, line) =>
      IsEncodedHostKey(host) && isId(id) && path != "" && (line.Some? ==> 1 <= line.value <= MAX_SAFE_INTEGER)
    case SettingsLink => true
  }

  function Segments(l: DeepLink): (segments: seq<string>)
    ensures |segments| >= 1
  {
    match l
    case HostLink(host) => ["h", host]
    case TerminalLink(host, id) => ["t", host, id]
    case CodeLink(host, id, _, _) => ["t", host, id, "code"]
    case InspectorLink(host, id) => ["t", host, id, "inspector"]
    case SettingsLink => ["settings"]
  }

  function Query(l: DeepLink): string {
    if !l.CodeLink? then ""
    else if l.line.None? then Pair("path", l.path)
    else Pair("path", l.path) + "&" + Pair("line", Decimal(l.line.value))
  }

  function Pair(name: string, value: string): string {
    name + "=" + EncodeComponent(value)
  }

  /** `#/h/<host>`, `#/t/<host>/<id>`, `#/t/<host>/<id>/code?path=<p>&line=<n>`,
      `#/t/<host>/<id>/inspector`, `#/settings`. */
  function PrintDeepLink(l: DeepLink): string {
    "#" + PathText(l) + (if l.CodeLink? then "?" + Query(l) else "")
  }

  function PathText(l: DeepLink): string {
    "/" + Join(EncodeSegments(Segments(l)), '/')
  }

  // ---------- parsing undoes printing ----------

  lemma {:induction false} JoinFree(parts: seq<string>, c: char, d: char)
    requires c != d
    requires forall i :: 0 <= i < |parts| ==> Free(parts[i], d)
    ensures Free(Join(parts, c), d)
  {
    if |parts| > 1 {
      JoinFree(parts[1..], c, d);
    }
  }

  lemma QuerySplitsOff(path: string, query: string)
    requires Free(path, '?')
    ensures SplitQuery(path) == (path, "")
    ensures SplitQuery(path + "?" + query) == (path, query)
  {
    SplitFree(path, '?');
    SplitHead(path, '?', query);
    assert path + ['?'] + query == path + "?" + query;
    assert ([path] + Split(query, '?'))[1..] == Split(query, '?');
    JoinSplit(query, '?');
  }

  lemma JoinedSegments(parts: seq<string>)
    requires |parts| >= 1 && forall i :: 0 <= i < |parts| ==> Free(parts[i], '/')
    ensures RawSegments("/" + Join(parts, '/')) == parts
  {
    var text := Join(parts, '/');
    SplitHead("", '/', text);
    assert "" + ['/'] + text == "/" + text;
    SplitJoin(parts, '/');
    assert ([""] + parts)[1..] == parts;
  }

  lemma PrintedSegments(l: DeepLink)
    ensures RawSegments(PathText(l)) == EncodeSegments(Segments(l))
    ensures Free(PathText(l), '?')
  {
    SegmentsPrint(Segments(l));
  }

  lemma SegmentsPrint(segments: seq<string>)
    requires |segments| >= 1
    ensures RawSegments("/" + Join(EncodeSegments(segments), '/')) == EncodeSegments(segments)
    ensures Free("/" + Join(EncodeSegments(segments), '/'), '?')
  {
    EncodedSegmentsFree(segments, '/');
    EncodedSegmentsFree(segments, '?');
    JoinFree(EncodeSegments(segments), '/', '?');
    JoinedSegments(EncodeSegments(segments));
  }

  lemma UnhashedHash(path: string, tail: string)
    ensures Unhashed("#" + path + tail) == path + tail
  {
    assert ("#" + path + tail)[..1] == "#";
  }

  /** What the parser makes of a printed link, before it looks at the segments. */
  lemma PrintedParts(l: DeepLink)
    ensures PathPart(PrintDeepLink(l)) == PathText(l)
    ensures QueryPart(PrintDeepLink(l)) == Query(l)
  {
    PrintedSegments(l);
    var tail := if l.CodeLink? then "?" + Query(l) else "";
    UnhashedHash(PathText(l), tail);
    TailSplitsOff(PathText(l), tail, Query(l));
  }

  lemma TailSplitsOff(path: string, tail: string, query: string)
    requires Free(path, '?')
    requires tail == "?" + query || (tail == "" && query == "")
    ensures SplitQuery(path + tail) == (path, query)
  {
    QuerySplitsOff(path, query);
    assert tail == "" ==> path + tail == path;
    assert path + ("?" + query) == path + "?" + query;
  }

  lemma PairReads(name: string, value: string)
    requires EncodeComponent(name) == name && name != ""
    ensures Free(Pair(name, value), '&') && Pair(name, value) != "" && Pair(name, value)[0] == name[0]
    ensures NameValue(Pair(name, value)) == (name, value)
  {
    EncodedIsComponentText(name);
    ComponentTextFree(name, '&');
    EncodedIsComponentText(value);
    ComponentTextFree(EncodeComponent(value), '&');
    NameValueOfEncoded(name, value);
  }

  lemma OnePair(piece: string)
    requires Free(piece, '&') && piece != "" && piece[0] != '?'
    ensures QueryPairs(piece) == [NameValue(piece)]
  {
    SplitFree(piece, '&');
    var pieces: seq<string> := [piece];
    assert |pieces[1..]| == 0;
    assert Pairs(pieces) == [NameValue(piece)];
  }

  lemma TwoPairs(first: string, second: string)
    requires Free(first, '&') && first != "" && first[0] != '?'
    requires Free(second, '&') && second != ""
    ensures QueryPairs(first + "&" + second) == [NameValue(first), NameValue(second)]
  {
    SplitFree(second, '&');
    SplitHead(first, '&', second);
    assert first + ['&'] + second == first + "&" + second;
    var last: seq<string> := [second];
    assert |last[1..]| == 0;
    assert Pairs(last) == [NameValue(second)];
    var pieces := [first] + last;
    assert pieces[1..] == last;
    assert Pairs(pieces) == [NameValue(first)] + Pairs(last);
  }

  lemma PrintedQueryReads(l: DeepLink)
    requires l.CodeLink?
    ensures QueryValue(Query(l), "path") == Some(l.path)
    ensures QueryValue(Query(l), "line") == if l.line.None? then None else Some(Decimal(l.line.value))
  {
    UnreservedUnchanged("path");
    UnreservedUnchanged("line");
    PairReads("path", l.path);
    assert "path" != "line" by { assert "path"[0] != "line"[0]; }
    if l.line.None? {
      OnePair(Pair("path", l.path));
      assert FirstValue([("path", l.path)][1..], "line") == None;
    } else {
      var digits := Decimal(l.line.value);
      UnreservedUnchanged(digits);
      PairReads("line", digits);
      TwoPairs(Pair("path", l.path), Pair("line", digits));
      var pairs := [("path", l.path)] + [("line", digits)];
      assert pairs[1..] == [("line", digits)];
      assert FirstValue(pairs[1..], "line") == Some(digits);
      assert FirstValue(pairs, "line") == Some(digits);
    }
  }

  // ---------- everything accepted is well formed ----------

  /** The decoded path segments of a hash, when it has a path and every escape in it is sound. */
  function DecodedSegments(hash: string): Option<seq<string>> {
    var raw := RawSegments(PathPart(hash));
    if "" in raw then None else DecodeAll(raw)
  }

  /** A code link's path and line are the first `path` and `line` of the query, `line` the exact
      integer its digits denote. */
  ghost predicate QuerySays(query: string, path: string, line: Option<nat>) {
    QueryValue(query, "path") == Some(path)
    && match QueryValue(query, "line")
       case None => line == None
       case Some(text) => IsNumeral(text) && line == Some(NumeralValue(text))
  }

  /** The language of the parser: a hash is accepted as a link exactly when the link is well formed,
      the decoded path is the link's segments, and a code link's query says its path and line. */
  lemma AcceptsExactly(hash: string, l: DeepLink, isId: IdTest)
    ensures ParseDeepLink(hash, isId) == Link(l)
            <==> WellFormed(l, isId)
                 && PathPart(hash) != "" && DecodedSegments(hash) == Some(Segments(l))
                 && (l.CodeLink? ==> QuerySays(QueryPart(hash), l.path, l.line))
  {
    var pathPart := PathPart(hash);
    var raw := RawSegments(pathPart);
    if pathPart == "/" {
      BareSlash();
    } else if pathPart != "" && "" !in raw && |raw| > 0 && DecodeAll(raw).Some? {
      SegmentsAcceptExactly(DecodeAll(raw).value, QueryPart(hash), l, isId);
    }
  }

  lemma BareSlash()
    ensures RawSegments("/") == [""]
  {
    SplitHead("", '/', "");
    assert "" + ['/'] + "" == "/";
  }

  lemma SegmentsAcceptExactly(segments: seq<string>, query: string, l: DeepLink, isId: IdTest)
    requires |segments| >= 1
    ensures ParseSegments(segments, query, isId) == Link(l)
            <==> WellFormed(l, isId) && segments == Segments(l)
                 && (l.CodeLink? ==> QuerySays(query, l.path, l.line))
  {
    assert segments == [segments[0]] + segments[1..];
    if |segments| == 4 && segments[0] == "t" {
      assert segments == [segments[0], segments[1], segments[2], segments[3]];
    }
  }

  // ---------- the two together ----------

  lemma FilledSegments(l: DeepLink, isId: IdTest)
    requires !isId("") && WellFormed(l, isId)
    ensures "" !in Segments(l)
  {
  }

  lemma PrintedDecodes(l: DeepLink, isId: IdTest)
    requires !isId("")
    requires WellFormed(l, isId)
    ensures PathPart(PrintDeepLink(l)) != ""
    ensures DecodedSegments(PrintDeepLink(l)) == Some(Segments(l))
  {
    var segments := Segments(l);
    PrintedParts(l);
    PrintedSegments(l);
    FilledSegments(l, isId);
    EncodedSegmentsFilled(segments);
    assert RawSegments(PathPart(PrintDeepLink(l))) == EncodeSegments(segments);
    DecodeEncodedSegments(segments);
  }

  lemma PrintedQuerySays(l: DeepLink)
    requires l.CodeLink?
    ensures QuerySays(QueryPart(PrintDeepLink(l)), l.path, l.line)
  {
    PrintedParts(l);
    PrintedQueryReads(l);
    if l.line.Some? {
      DecimalDenotes(l.line.value);
    }
  }

  /** Every well-formed link is what its printed hash parses to. */
  lemma ParseUndoesPrint(l: DeepLink, isId: IdTest)
    requires !isId("")
    requires WellFormed(l, isId)
    ensures ParseDeepLink(PrintDeepLink(l), isId) == Link(l)
  {
    PrintedDecodes(l, isId);
    if l.CodeLink? {
      PrintedQuerySays(l);
    }
    AcceptsExactly(PrintDeepLink(l), l, isId);
  }

  /** Nothing half-valid is accepted, and what is accepted prints to a hash that parses to itself. */
  lemma AcceptedIsWellFormed(hash: string, isId: IdTest)
    requires !isId("")
    requires ParseDeepLink(hash, isId).Link?
    ensures WellFormed(ParseDeepLink(hash, isId).link, isId)
    ensures ParseDeepLink(PrintDeepLink(ParseDeepLink(hash, isId).link), isId) == ParseDeepLink(hash, isId)
  {
    var l := ParseDeepLink(hash, isId).link;
    AcceptsExactly(hash, l, isId);
    ParseUndoesPrint(l, isId);
  }

  /** Two well-formed links never share a hash. */
  lemma PrintIsInjective(l: DeepLink, m: DeepLink, isId: IdTest)
    requires !isId("")
    requires WellFormed(l, isId) && WellFormed(m, isId)
    ensures PrintDeepLink(l) == PrintDeepLink(m) <==> l == m
  {
    ParseUndoesPrint(l, isId);
    ParseUndoesPrint(m, isId);
  }
}
