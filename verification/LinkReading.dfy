/** How the grammar reads hashes that no printer wrote: raw text, missing marks, and refusals. */
module LinkReading {
  import opened Text
  import opened UriCoding
  import opened UriReading
  import opened HostKeys
  import opened DeepLinks

  // ---------- raw text ----------

  /** A segment as a person would type it: non-empty, with nothing the grammar reads as a mark. */
  ghost predicate IsPlain(s: string) {
    s != "" && Free(s, '/') && Free(s, '?') && Free(s, '%')
  }

  lemma PlainDecodes(s: string)
    requires Free(s, '%')
    ensures DecodeComponent(s) == Some(s)
  {
    RawTextDecodes(s, "");
    assert s + "" == s;
  }

  lemma {:induction false} PlainSegmentsDecode(parts: seq<string>)
    requires forall i :: 0 <= i < |parts| ==> IsPlain(parts[i])
    ensures DecodeAll(parts) == Some(parts) && "" !in parts
  {
    if |parts| > 0 {
      assert IsPlain(parts[0]);
      PlainDecodes(parts[0]);
      PlainSegmentsDecode(parts[1..]);
      assert [parts[0]] + parts[1..] == parts;
    }
  }

  lemma PlainPathReads(parts: seq<string>, tail: string, query: string)
    requires |parts| >= 1 && forall i :: 0 <= i < |parts| ==> IsPlain(parts[i])
    requires tail == "?" + query || (tail == "" && query == "")
    ensures var hash := "#" + ("/" + Join(parts, '/')) + tail;
            PathPart(hash) == "/" + Join(parts, '/') && QueryPart(hash) == query && DecodedSegments(hash) == Some(parts)
  {
    var path := "/" + Join(parts, '/');
    JoinFree(parts, '/', '?');
    UnhashedHash(path, tail);
    TailSplitsOff(path, tail, query);
    JoinedSegments(parts);
    PlainSegmentsDecode(parts);
  }

  /** A well-formed link whose segments are plain is read from them as they are; a code link from any
      query that gives its path and line. */
  lemma PlainLinkParses(l: DeepLink, query: string, isId: IdTest)
    requires WellFormed(l, isId) && forall i :: 0 <= i < |Segments(l)| ==> IsPlain(Segments(l)[i])
    requires l.CodeLink? ==> QuerySays(query, l.path, l.line)
    ensures ParseDeepLink("#" + ("/" + Join(Segments(l), '/')) + (if l.CodeLink? then "?" + query else ""), isId) == Link(l)
  {
    var tail := if l.CodeLink? then "?" + query else "";
    PlainPathReads(Segments(l), tail, if l.CodeLink? then query else "");
    AcceptsExactly("#" + ("/" + Join(Segments(l), '/')) + tail, l, isId);
  }

  lemma TwoJoined(a: string, b: string)
    ensures Join([a, b], '/') == a + "/" + b
  {
    assert [a, b][1..] == [b];
  }

  lemma ThreeJoined(a: string, b: string, c: string)
    ensures Join([a, b, c], '/') == a + "/" + (b + "/" + c)
  {
    assert [a, b, c][1..] == [b, c];
    TwoJoined(b, c);
  }

  lemma FourJoined(a: string, b: string, c: string, d: string)
    ensures Join([a, b, c, d], '/') == a + "/" + (b + "/" + (c + "/" + d))
  {
    assert [a, b, c, d][1..] == [b, c, d];
    ThreeJoined(b, c, d);
  }

  /** `#/<family>/<host>`, with the marks apart and together. */
  lemma HostText(marks: string, hash: string, slash: string, family: string, host: string)
    requires marks == hash + (slash + (family + slash))
    ensures hash + (slash + (family + slash + host)) + "" == marks + host
  {
  }

  lemma TerminalText(marks: string, hash: string, slash: string, family: string, host: string, id: string)
    requires marks == hash + (slash + (family + slash))
    ensures hash + (slash + (family + slash + (host + slash + id))) + "" == marks + host + slash + id
  {
  }

  lemma TabText(
    marks: string, hash: string, slash: string, family: string, host: string, id: string, tab: string, tail: string)
    requires marks == hash + (slash + (family + slash))
    ensures hash + (slash + (family + slash + (host + slash + (id + slash + tab)))) + tail
            == marks + host + slash + id + (slash + tab + tail)
  {
    var inner := id + slash + tab;
    assert host + slash + inner == host + slash + id + (slash + tab);
    assert hash + (slash + (family + slash + (host + slash + inner))) == marks + (host + slash + inner);
  }

  /** A host typed raw, colon and at sign and all. */
  lemma RawHostLink(host: string, isId: IdTest)
    requires IsEncodedHostKey(host) && IsPlain(host)
    ensures ParseDeepLink("#/h/" + host, isId) == Link(HostLink(host))
  {
    var l := HostLink(host);
    assert Segments(l)[0] == "h" && IsPlain("h");
    PlainLinkParses(l, "", isId);
    TwoJoined("h", host);
    HostText("#/h/", "#", "/", "h", host);
  }

  lemma RawTerminalLink(host: string, id: string, isId: IdTest)
    requires IsEncodedHostKey(host) && IsPlain(host) && isId(id) && IsPlain(id)
    ensures ParseDeepLink("#/t/" + host + "/" + id, isId) == Link(TerminalLink(host, id))
  {
    var l := TerminalLink(host, id);
    assert IsPlain("t");
    PlainLinkParses(l, "", isId);
    ThreeJoined("t", host, id);
    TerminalText("#/t/", "#", "/", "t", host, id);
  }

  lemma RawInspectorLink(host: string, id: string, isId: IdTest)
    requires IsEncodedHostKey(host) && IsPlain(host) && isId(id) && IsPlain(id)
    ensures ParseDeepLink("#/t/" + host + "/" + id + ("/" + "inspector" + ""), isId) == Link(InspectorLink(host, id))
  {
    var l := InspectorLink(host, id);
    assert IsPlain("t") && IsPlain("inspector");
    PlainLinkParses(l, "", isId);
    FourJoined("t", host, id, "inspector");
    TabText("#/t/", "#", "/", "t", host, id, "inspector", "");
  }

  /** A code link takes its path and line from any query that gives them. */
  lemma RawCodeLink(host: string, id: string, query: string, path: string, line: Option<nat>, isId: IdTest)
    requires IsEncodedHostKey(host) && IsPlain(host) && isId(id) && IsPlain(id) && path != ""
    requires QuerySays(query, path, line) && (line.Some? ==> 1 <= line.value <= 9007199254740991)
    ensures ParseDeepLink("#/t/" + host + "/" + id + ("/" + "code" + ("?" + query)), isId)
            == Link(CodeLink(host, id, path, line))
  {
    var l := CodeLink(host, id, path, line);
    assert IsPlain("t") && IsPlain("code");
    PlainLinkParses(l, query, isId);
    FourJoined("t", host, id, "code");
    TabText("#/t/", "#", "/", "t", host, id, "code", "?" + query);
  }

  /** A value as a query may hold it raw: slashes and all, but no escape, plus or separator. */
  ghost predicate IsPlainValue(s: string) {
    Free(s, '%') && Free(s, '+') && Free(s, '&')
  }

  lemma PlainFormDecodes(s: string)
    requires Free(s, '%') && Free(s, '+')
    ensures FormDecode(s) == s
  {
    RawTextFormDecodes(s, "");
    var r :| Unplussed(s, r) && FormDecode(s + "") == r + FormDecode("");
    assert s + "" == s && FormDecode("") == "";
    forall i | 0 <= i < |s| ensures r[i] == s[i] { assert s[i] in s; }
  }

  lemma RawPair(name: string, value: string)
    requires IsPlainValue(name) && Free(name, '=') && IsPlainValue(value)
    ensures NameValue(name + "=" + value) == (name, value) && Free(name + "=" + value, '&')
  {
    PairReadsAround(name, value);
    PlainFormDecodes(name);
    PlainFormDecodes(value);
  }

  lemma TwoPairsSay(n1: string, v1: string, n2: string, v2: string)
    requires IsPlainValue(n1) && Free(n1, '=') && IsPlainValue(v1) && n1 != "" && n1[0] != '?'
    requires IsPlainValue(n2) && Free(n2, '=') && IsPlainValue(v2) && n1 != n2
    ensures var query := n1 + "=" + v1 + "&" + (n2 + "=" + v2);
            QueryValue(query, n1) == Some(v1) && QueryValue(query, n2) == Some(v2)
  {
    var first, second := n1 + "=" + v1, n2 + "=" + v2;
    RawPair(n1, v1);
    RawPair(n2, v2);
    assert first[0] == n1[0];
    TwoPairs(first, second);
    var pairs := [(n1, v1), (n2, v2)];
    assert pairs[1..] == [(n2, v2)];
    assert FirstValue(pairs, n2) == FirstValue(pairs[1..], n2);
  }

  /** Such as a raw path, and a line of any digits that denote it, leading zeros included. */
  lemma RawQuerySays(path: string, digits: string)
    requires IsPlainValue(path) && IsNumeral(digits)
    ensures QuerySays("path" + "=" + path + "&" + ("line" + "=" + digits), path, Some(NumeralValue(digits)))
  {
    assert IsPlainValue(digits);
    assert "path" != "line" by { assert "path"[0] != "line"[0]; }
    TwoPairsSay("path", path, "line", digits);
  }

  // ---------- marks that may be missing ----------

  /** The leading `#` may be missing, and so may the leading slash. */
  lemma MarksMayBeMissing(text: string, isId: IdTest)
    ensures !StartsWith(text, "#") ==> ParseDeepLink("#" + text, isId) == ParseDeepLink(text, isId)
    ensures (text == "" || text[0] !in {'/', '#'}) ==> ParseDeepLink("/" + text, isId) == ParseDeepLink(text, isId)
  {
    assert ("#" + text)[..1] == "#" && ("#" + text)[1..] == text;
    if !StartsWith(text, "#") {
      assert Unhashed("#" + text) == text == Unhashed(text);
    }
    if text == "" || text[0] !in {'/', '#'} {
      SlashMayBeMissing(text, isId);
    }
  }

  lemma SlashMayBeMissing(text: string, isId: IdTest)
    requires text == "" || text[0] !in {'/', '#'}
    ensures ParseDeepLink("/" + text, isId) == ParseDeepLink(text, isId)
  {
    var (path, query) := SplitQuery(text);
    assert text != "" ==> text[..1] == [text[0]];
    assert Unhashed("/" + text) == "/" + text && Unhashed(text) == text;
    assert ("/" + text)[1..] == text;
    var parts := Split(text, '?');
    assert Split("/" + text, '?') == ["/" + parts[0]] + parts[1..];
    assert SplitQuery("/" + text) == ("/" + path, query);
    HeadOfSplit(text, '?');
    if path != "" {
      assert path[0] == text[0];
      assert ("/" + path)[1..] == path;
      assert Split("/" + path, '/') == [""] + Split(path, '/');
      HeadOfSplit(path, '/');
    }
  }

  /** The first part is a start of the text, empty only before a separator or at its end. */
  lemma {:induction false} HeadOfSplit(s: string, c: char)
    ensures Split(s, c)[0] <= s
    ensures s != "" && s[0] != c ==> Split(s, c)[0] != ""
  {
    if s != "" {
      HeadOfSplit(s[1..], c);
    }
  }

  // ---------- no link, and refusals ----------

  ghost predicate IsBare(text: string, head: string) {
    text == head || exists query :: text == head + "?" + query
  }

  lemma BareExactly(raw: string, head: string)
    requires Free(head, '?')
    ensures IsBare(raw, head) <==> SplitQuery(raw).0 == head
  {
    forall query ensures SplitQuery(head + "?" + query).0 == head {
      QuerySplitsOff(head, query);
    }
    QuerySplitsOff(head, "");
    var parts := Split(raw, '?');
    JoinSplit(raw, '?');
    if |parts| > 1 {
      assert raw == parts[0] + "?" + Join(parts[1..], '?');
    }
  }

  lemma SomeSegment(path: string)
    requires path != ""
    ensures |RawSegments(path)| >= 1
  {
    JoinSplit(path, '/');
    assert |Split(path, '/')| == 1 ==> Split(path, '/')[0] == path;
  }

  lemma NoLinkIsBarePath(hash: string, isId: IdTest)
    ensures ParseDeepLink(hash, isId).NoLink? <==> PathPart(hash) == "" || PathPart(hash) == "/"
  {
    if PathPart(hash) != "" {
      SomeSegment(PathPart(hash));
    }
    RefusedEarlyExactly(hash, isId);
  }

  /** Only a bare `#`, slash or both, or nothing, is no link at all, whatever query follows. */
  lemma NoLinkExactly(hash: string, isId: IdTest)
    ensures ParseDeepLink(hash, isId).NoLink? <==>
            IsBare(hash, "") || IsBare(hash, "#" + "") || IsBare(hash, "/") || IsBare(hash, "#" + "/")
  {
    NoLinkIsBarePath(hash, isId);
    BareExactly(Unhashed(hash), "");
    BareExactly(Unhashed(hash), "/");
    HashedIsBare(hash, "");
    HashedIsBare(hash, "/");
  }

  lemma Hashed(raw: string, hash: string)
    ensures StartsWith("#" + raw, "#") && Unhashed("#" + raw) == raw
    ensures StartsWith(hash, "#") ==> hash == "#" + Unhashed(hash)
  {
    StartsWithExactly(hash, "#", raw);
    assert ("#" + raw)[1..] == raw;
  }

  lemma HashedIsBare(hash: string, head: string)
    requires head == "" || head == "/"
    ensures IsBare(Unhashed(hash), head) <==> IsBare(hash, head) || IsBare(hash, "#" + head)
  {
    var raw := Unhashed(hash);
    Hashed(head, hash);
    forall query ensures hash == "#" + head + "?" + query <==> StartsWith(hash, "#") && raw == head + "?" + query {
      Hashed(head + "?" + query, hash);
      assert "#" + head + "?" + query == "#" + (head + "?" + query);
    }
    forall query ensures hash == head + "?" + query ==> !StartsWith(hash, "#") {
      assert (head + "?" + query)[0] != '#';
    }
  }

  /** Why decoded segments are refused, reason by reason; what no reason fits is a link. */
  lemma RefusedExactly(s: seq<string>, query: string, isId: IdTest)
    requires |s| >= 1
    ensures var r := ParseSegments(s, query, isId);
            var terminal := s[0] == "t" && |s| >= 3 && IsEncodedHostKey(s[1]);
            var code := terminal && isId(s[2]) && |s| == 4 && s[3] == "code";
            var path, line := QueryValue(query, "path"), QueryValue(query, "line");
            && (r == Invalid(UnknownFamily) <==> s[0] !in ["settings", "h", "t"])
            && (r == Invalid(SettingsHasSegments) <==> s[0] == "settings" && |s| > 1)
            && (r == Invalid(HostArity) <==> s[0] == "h" && |s| != 2)
            && (r == Invalid(TerminalArity) <==> s[0] == "t" && |s| < 3)
            && (r == Invalid(BadHost) <==>
                  ((s[0] == "h" && |s| == 2) || (s[0] == "t" && |s| >= 3)) && !IsEncodedHostKey(s[1]))
            && (r == Invalid(BadTerminalId) <==> terminal && !isId(s[2]))
            && (r == Invalid(ExtraSegments) <==> terminal && isId(s[2]) && |s| > 4)
            && (r == Invalid(UnknownTab) <==> terminal && isId(s[2]) && |s| == 4 && s[3] !in ["inspector", "code"])
            && (r == Invalid(NoPath) <==> code && (path == None || path == Some("")))
            && (r == Invalid(BadLine) <==>
                  code && path.Some? && path != Some("") && line.Some?
                  && !(IsNumeral(line.value) && 1 <= NumeralValue(line.value) <= 9007199254740991))
            && r != Invalid(EmptySegment) && r != Invalid(BadEncoding) && !r.NoLink?
  {
    FamiliesDiffer();
  }

  lemma FamiliesDiffer()
    ensures "settings" != "h" && "settings" != "t" && "h" != "t" && "inspector" != "code"
  {
    assert "h"[0] != "t"[0] && "settings"[0] != "h"[0] && "settings"[0] != "t"[0] && "inspector"[0] != "code"[0];
  }

  /** An empty segment is refused before any escape is read, and a bad escape before any meaning. */
  lemma RefusedEarlyExactly(hash: string, isId: IdTest)
    ensures var r, raw := ParseDeepLink(hash, isId), RawSegments(PathPart(hash));
            && (r == Invalid(EmptySegment) <==> !r.NoLink? && "" in raw)
            && (r == Invalid(BadEncoding) <==> !r.NoLink? && "" !in raw && DecodeAll(raw).None?)
            && (!r.NoLink? && "" !in raw && DecodeAll(raw).Some? ==>
                  |raw| >= 1 && r == ParseSegments(DecodeAll(raw).value, QueryPart(hash), isId))
  {
    var path, raw := PathPart(hash), RawSegments(PathPart(hash));
    if path != "" && path != "/" && |raw| > 0 && "" !in raw && DecodeAll(raw).Some? {
      RefusedExactly(DecodeAll(raw).value, QueryPart(hash), isId);
    }
  }
}
