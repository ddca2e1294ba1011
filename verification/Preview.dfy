/** The per-segment path codec of the file preview route, and the URL built with it. */
module Preview {
  import opened Text
  import opened UriCoding
  import opened UriReading

  /** `path.split("/").map(encodeURIComponent).join("/")`. */
  function EncodePreviewPath(path: string): string {
    Join(EncodeSegments(Split(path, '/')), '/')
  }

  /** The inverse; `None` where a segment makes decodeURIComponent throw. */
  function DecodePreviewPath(encoded: string): Option<string> {
    match DecodeAll(Split(encoded, '/'))
    case None => None
    case Some(segments) => Some(Join(segments, '/'))
  }

  /** An encoded path has the same segment boundaries as the path it encodes. */
  lemma EncodedPathSegments(path: string)
    ensures Split(EncodePreviewPath(path), '/') == EncodeSegments(Split(path, '/'))
  {
    EncodedSegmentsFree(Split(path, '/'), '/');
    SplitJoin(EncodeSegments(Split(path, '/')), '/');
  }

  /** Every path survives the codec: empty segments, leading and trailing slashes, any character. */
  lemma PreviewPathRoundTrips(path: string)
    ensures DecodePreviewPath(EncodePreviewPath(path)) == Some(path)
  {
    EncodedPathSegments(path);
    DecodeEncodedSegments(Split(path, '/'));
    JoinSplit(path, '/');
  }

  const ROUTE_BASE := "/api/terminals"
  const FILE_SEGMENT := "file"

  function BuildTerminalFileUrl(host: string, terminalId: string, path: string): string {
    ROUTE_BASE + "/" + EncodeComponent(host) + "/" + terminalId + "/" + FILE_SEGMENT + "/" + EncodePreviewPath(path)
  }

  lemma FirstSegment(a: string, rest: string)
    requires Free(a, '/')
    ensures Split(a + "/" + rest, '/') == [a] + Split(rest, '/')
  {
    SplitHead(a, '/', rest);
    assert a + ['/'] + rest == a + "/" + rest;
  }

  lemma ThreeSegments(base: string, a: string, b: string, c: string, rest: string)
    requires Free(a, '/') && Free(b, '/') && Free(c, '/')
    ensures var url := base + "/" + a + "/" + b + "/" + c + "/" + rest;
            |url| > |base| && Split(url[|base| + 1..], '/') == [a, b, c] + Split(rest, '/')
  {
    var url := base + "/" + a + "/" + b + "/" + c + "/" + rest;
    assert url[|base| + 1..] == a + "/" + (b + "/" + (c + "/" + rest));
    FirstSegment(a, b + "/" + (c + "/" + rest));
    FirstSegment(b, c + "/" + rest);
    FirstSegment(c, rest);
    assert [a] + ([b] + ([c] + Split(rest, '/'))) == [a, b, c] + Split(rest, '/');
  }

  /** After the route base, a URL's segments spell host, terminal and path, in that order. */
  lemma UrlSegments(host: string, terminalId: string, path: string)
    requires Free(terminalId, '/')
    ensures var url := BuildTerminalFileUrl(host, terminalId, path);
            |url| > |ROUTE_BASE|
            && Split(url[|ROUTE_BASE| + 1..], '/')
               == [EncodeComponent(host), terminalId, FILE_SEGMENT] + EncodeSegments(Split(path, '/'))
  {
    EncodedIsComponentText(host);
    ComponentTextFree(EncodeComponent(host), '/');
    ThreeSegments(ROUTE_BASE, EncodeComponent(host), terminalId, FILE_SEGMENT, EncodePreviewPath(path));
    EncodedPathSegments(path);
  }

  /** Two URLs are equal only when host, terminal and path all are. */
  lemma FileUrlIsInjective(h1: string, t1: string, p1: string, h2: string, t2: string, p2: string)
    requires Free(t1, '/') && Free(t2, '/')
    ensures BuildTerminalFileUrl(h1, t1, p1) == BuildTerminalFileUrl(h2, t2, p2)
            <==> h1 == h2 && t1 == t2 && p1 == p2
  {
    if BuildTerminalFileUrl(h1, t1, p1) == BuildTerminalFileUrl(h2, t2, p2) {
      UrlSegments(h1, t1, p1);
      UrlSegments(h2, t2, p2);
      var e1, e2 := EncodeSegments(Split(p1, '/')), EncodeSegments(Split(p2, '/'));
      var s1, s2 := [EncodeComponent(h1), t1, FILE_SEGMENT] + e1, [EncodeComponent(h2), t2, FILE_SEGMENT] + e2;
      assert s1[0] == s2[0] && s1[1] == s2[1] && s1[3..] == e1 && s2[3..] == e2;
      DecodeEncoded(h1);
      DecodeEncoded(h2);
      DecodeEncodedSegments(Split(p1, '/'));
      DecodeEncodedSegments(Split(p2, '/'));
      JoinSplit(p1, '/');
      JoinSplit(p2, '/');
    }
  }

  /** The terminal id is written raw, so an id with a slash in it can shift into the path: the
      condition on the ids above cannot be dropped. */
  lemma SlashedTerminalIdsCollide(host: string, terminalId: string, a: string, b: string)
    requires Free(a, '/')
    ensures BuildTerminalFileUrl(host, terminalId + "/" + FILE_SEGMENT + "/" + EncodeComponent(a), b)
            == BuildTerminalFileUrl(host, terminalId, a + "/" + (FILE_SEGMENT + "/" + b))
  {
    UnreservedUnchanged(FILE_SEGMENT);
    Shift(ROUTE_BASE, FILE_SEGMENT, EncodeComponent(host), terminalId, a, b);
  }

  lemma Shift(base: string, file: string, h: string, t: string, a: string, b: string)
    requires Free(a, '/') && Free(file, '/') && EncodeComponent(file) == file
    ensures base + "/" + h + "/" + (t + "/" + file + "/" + EncodeComponent(a)) + "/" + file + "/" + EncodePreviewPath(b)
            == base + "/" + h + "/" + t + "/" + file + "/" + EncodePreviewPath(a + "/" + (file + "/" + b))
  {
    EncodeFirstSegment(a, file + "/" + b);
    EncodeFirstSegment(file, b);
    Regroup(base, h, t, file, EncodeComponent(a), EncodePreviewPath(b));
  }

  lemma Regroup(base: string, h: string, t: string, f: string, a: string, b: string)
    ensures base + "/" + h + "/" + (t + "/" + f + "/" + a) + "/" + f + "/" + b
            == base + "/" + h + "/" + t + "/" + f + "/" + (a + "/" + (f + "/" + b))
  {
  }

  lemma EncodeFirstSegment(a: string, rest: string)
    requires Free(a, '/')
    ensures EncodePreviewPath(a + "/" + rest) == EncodeComponent(a) + "/" + EncodePreviewPath(rest)
  {
    FirstSegment(a, rest);
    var segments := [a] + Split(rest, '/');
    assert segments[1..] == Split(rest, '/');
    var parts := EncodeSegments(segments);
    assert parts[1..] == EncodeSegments(Split(rest, '/'));
  }

  /** The route, segment by segment. */
  lemma UrlSpelled(host: string, terminalId: string, path: string)
    ensures BuildTerminalFileUrl(host, terminalId, path)
            == "/api/terminals" + "/" + EncodeComponent(host) + "/" + terminalId + "/" + "file" + "/"
               + EncodePreviewPath(path)
  {
  }

  /** A path typed raw is read as it is, and one with a bad escape in any segment is refused. */
  lemma RawPathDecodes(path: string)
    requires Free(path, '%')
    ensures DecodePreviewPath(path) == Some(path)
  {
    var parts := Split(path, '/');
    SplitKeepsFree(path, '/', '%');
    RawSegmentsDecode(parts);
    JoinSplit(path, '/');
  }

  lemma {:induction false} SplitKeepsFree(s: string, c: char, d: char)
    requires Free(s, d)
    ensures forall i :: 0 <= i < |Split(s, c)| ==> Free(Split(s, c)[i], d)
  {
    if s != "" {
      assert s[0] in s && Free(s[1..], d);
      SplitKeepsFree(s[1..], c, d);
    }
  }

  lemma {:induction false} RawSegmentsDecode(parts: seq<string>)
    requires forall i :: 0 <= i < |parts| ==> Free(parts[i], '%')
    ensures DecodeAll(parts) == Some(parts)
  {
    if |parts| > 0 {
      assert Free(parts[0], '%');
      RawTextDecodes(parts[0], "");
      assert parts[0] + "" == parts[0];
      RawSegmentsDecode(parts[1..]);
      assert [parts[0]] + parts[1..] == parts;
    }
  }

  lemma {:induction false} BadSegmentRefuses(parts: seq<string>, i: nat)
    requires i < |parts| && DecodeComponent(parts[i]).None?
    ensures DecodeAll(parts).None?
  {
    if i > 0 {
      BadSegmentRefuses(parts[1..], i - 1);
    }
  }

  lemma BadEscapeRefuses(path: string, i: nat)
    requires i < |Split(path, '/')| && DecodeComponent(Split(path, '/')[i]).None?
    ensures DecodePreviewPath(path).None?
  {
    BadSegmentRefuses(Split(path, '/'), i);
  }
}
