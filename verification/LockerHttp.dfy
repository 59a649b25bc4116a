/**
 The locker's HTTP framing (server/locker/server.go): requests are cut off the
 front of a growing buffer, the body by its Content-Length.
 */
module LockerHttp {
  import opened Decimals
  import opened Framing
  import opened GoStrings

  datatype Request = Request(method_: string, path: string, headers: map<string, string>, body: string)

  /**
   What parsing a buffer comes to: not a whole request yet, a request and the rest, or a slice
   with bounds out of order, which is a failure that ends the program.
   */
  type Parsed = Framed<char, Request>

  const BLANK_LINE := "\r\n\r\n"

  // ----- Go's strings functions used here -----

  predicate StandsAt(s: string, sub: string, i: nat) {
    i + |sub| <= |s| && s[i..i + |sub|] == sub
  }

  /** `strings.Index`, from a place on: the first occurrence. */
  function IndexFrom(s: string, sub: string, i: nat): (r: Option<nat>)
    requires i <= |s|
    ensures r.Some? ==> i <= r.value && StandsAt(s, sub, r.value) && forall k :: i <= k < r.value ==> !StandsAt(s, sub, k)
    ensures r.None? ==> forall k :: i <= k ==> !StandsAt(s, sub, k)
    decreases |s| - i
  {
    if StandsAt(s, sub, i) then Some(i)
    else if i < |s| then IndexFrom(s, sub, i + 1)
    else None
  }

  /** `strings.Split` on the line break "\r\n". */
  function SplitLines(s: string): (lines: seq<string>)
    ensures |lines| > 0
    decreases |s|
  {
    match IndexFrom(s, "\r\n", 0)
    case None => [s]
    case Some(i) => [s[..i]] + SplitLines(s[i + 2..])
  }

  predicate IsSpace(c: char) { c == ' ' || c == '\t' || c == '\n' || c == '\r' || c == 11 as char || c == 12 as char }

  function TrimLeftSpace(s: string): string {
    if s != [] && IsSpace(s[0]) then TrimLeftSpace(s[1..]) else s
  }

  function TrimRightSpace(s: string): string {
    if s != [] && IsSpace(s[|s| - 1]) then TrimRightSpace(s[..|s| - 1]) else s
  }

  function TrimSpace(s: string): string { TrimRightSpace(TrimLeftSpace(s)) }

  function ToLower(s: string): string {
    seq(|s|, i requires 0 <= i < |s| => if 'A' <= s[i] <= 'Z' then (s[i] as int + 32) as char else s[i])
  }

  // ----- Parsing -----

  /** The header fields of some lines; a repeated field keeps its last value. */
  function Headers(lines: seq<string>): map<string, string> {
    if lines == [] then map[]
    else
      var before := Headers(lines[..|lines| - 1]);
      match Cut(lines[|lines| - 1], ':')
      case None => before
      case Some((k, v)) => before[ToLower(TrimSpace(k)) := TrimSpace(v)]
  }

  /** The method and path of the request line; Go's split into at most three parts needs two. */
  function RequestLine(line: string): Option<(string, string)> {
    match Cut(line, ' ')
    case None => None
    case Some((m, rest)) =>
      match Cut(rest, ' ')
      case None => Some((m, rest))
      case Some((path, _)) => Some((m, path))
  }

  /** `ParseInt` without its error: zero for no number, the nearest number out of range. */
  function ContentLength(headers: map<string, string>): (n: int)
    ensures MIN_INT64 <= n <= MAX_INT64
  {
    if "content-length" in headers then Atoi(headers["content-length"]).0 else 0
  }

  function Parsing(data: string): (p: Parsed)
    ensures p.Complete? ==> |p.rest| + |BLANK_LINE| <= |data|
  {
    match IndexFrom(data, BLANK_LINE, 0)
    case None => Incomplete
    case Some(idx) =>
      var headerEnd := idx + 4;
      var lines := SplitLines(data[..idx]);
      match RequestLine(lines[0])
      case None => Incomplete
      case Some((m, path)) =>
        var headers := Headers(lines[1..]);
        var contentLen := ContentLength(headers);
        if contentLen < 0 || headerEnd + contentLen > MAX_INT64 then Failed
        else if |data| < headerEnd + contentLen then Incomplete
        else Complete(Request(m, path, headers, data[headerEnd..headerEnd + contentLen]), data[headerEnd + contentLen..])
  }

  method ParseHeaders(lines: seq<string>) returns (headers: map<string, string>)
    ensures headers == Headers(lines)
  {
    headers := map[];
    for i := 0 to |lines|
      invariant headers == Headers(lines[..i])
    {
      assert lines[..i + 1][..i] == lines[..i];
      match Cut(lines[i], ':') {
        case None =>
        case Some((k, v)) =>
          headers := headers[ToLower(TrimSpace(k)) := TrimSpace(v)];
      }
    }
    assert lines[..|lines|] == lines;
  }

  method ParseHttpRequest(data: string) returns (p: Parsed)
    ensures p == Parsing(data)
  {
    hide IndexFrom, SplitLines, RequestLine, Headers, ContentLength;
    var idx := IndexFrom(data, BLANK_LINE, 0);
    if idx.None? {
      return Incomplete;
    }
    var headerEnd := idx.value + 4;
    var lines := SplitLines(data[..idx.value]);
    var parts := RequestLine(lines[0]);
    if parts.None? {
      return Incomplete;
    }
    var headers := ParseHeaders(lines[1..]);
    var contentLen := ContentLength(headers);
    // The 64-bit sum: a negative one, or a negative length, passes the length test and fails the slice.
    var total := headerEnd + contentLen;
    if total > MAX_INT64 {
      total := total - 0x1_0000_0000_0000_0000;
    }
    if |data| < total {
      return Incomplete;
    }
    if total < headerEnd {
      return Failed;
    }
    p := Complete(Request(parts.value.0, parts.value.1, headers, data[headerEnd..total]), data[total..]);
  }

  // ----- Why the cuts do not matter -----

  /** The first occurrence stays the first when text is appended. */
  lemma IndexGrows(a: string, b: string, sub: string)
    requires IndexFrom(a, sub, 0).Some?
    ensures IndexFrom(a + b, sub, 0) == IndexFrom(a, sub, 0)
  {
    var i := IndexFrom(a, sub, 0).value;
    assert (a + b)[i..i + |sub|] == a[i..i + |sub|];
    assert StandsAt(a, sub, i) && StandsAt(a + b, sub, i);
    forall k | 0 <= k < i
      ensures !StandsAt(a + b, sub, k)
    {
      assert !StandsAt(a, sub, k);
      assert (a + b)[k..k + |sub|] == a[k..k + |sub|];
    }
  }

  /** A whole request is read the same when more text has arrived; only the rest grows. */
  lemma ParsingGrows(a: string, b: string)
    ensures Parsing(a).Failed? ==> Parsing(a + b).Failed?
    ensures Parsing(a).Complete? ==> Parsing(a + b) == Complete(Parsing(a).item, Parsing(a).rest + b)
  {
    hide IndexFrom, SplitLines, RequestLine, Headers, ContentLength;
    if IndexFrom(a, BLANK_LINE, 0).Some? {
      IndexGrows(a, b, BLANK_LINE);
      var idx := IndexFrom(a, BLANK_LINE, 0).value;
      assert (a + b)[..idx] == a[..idx];
      if Parsing(a).Complete? {
        var total := |a| - |Parsing(a).rest|;
        assert (a + b)[idx + 4..total] == a[idx + 4..total] && (a + b)[total..] == a[total..] + b;
      }
    }
  }

  /** A header block without a proper request line is never got past, whatever arrives later. */
  lemma MalformedRequestStays(a: string, b: string)
    requires IndexFrom(a, BLANK_LINE, 0).Some? && RequestLine(HeaderLines(a)[0]).None?
    ensures Parsing(a + b).Incomplete?
  {
    hide IndexFrom, SplitLines, RequestLine, Headers, ContentLength;
    HeadStays(a, b);
  }

  // ----- What is read of a request -----

  /** The request line is the method, the path and whatever follows, in this order. */
  lemma RequestLineReads(m: string, path: string, version: string)
    requires ' ' !in m && ' ' !in path
    ensures RequestLine(m + " " + path + " " + version) == Some((m, path))
    ensures RequestLine(m + " " + path) == Some((m, path))
  {
    hide Cut;
    var line := m + " " + path + " " + version;
    assert line == m + [' '] + (path + [' '] + version);
    CutAtFirst(m, ' ', path + [' '] + version);
    CutAtFirst(path, ' ', version);
    assert m + " " + path == m + [' '] + path;
    CutAtFirst(m, ' ', path);
  }

  /** Capitals become the small letters of the same place in the alphabet, and nothing else changes. */
  lemma LowerCase(s: string, i: nat)
    requires i < |s|
    ensures |ToLower(s)| == |s|
    ensures 'A' <= s[i] <= 'Z' ==> 'a' <= ToLower(s)[i] <= 'z' && ToLower(s)[i] as int - 'a' as int == s[i] as int - 'A' as int
    ensures !('A' <= s[i] <= 'Z') ==> ToLower(s)[i] == s[i]
  {
  }

  const WHITE_SPACE := [' ', '\t', '\n', '\r', 11 as char, 12 as char]

  lemma SpaceIsWhite(c: char)
    ensures IsSpace(c) <==> c in WHITE_SPACE
  {
    assert WHITE_SPACE[0] == ' ' && WHITE_SPACE[1] == '\t' && WHITE_SPACE[2] == '\n' && WHITE_SPACE[3] == '\r';
    assert WHITE_SPACE[4] == 11 as char && WHITE_SPACE[5] == 12 as char;
  }

  /** White space around a text is taken off, and none of the text. */
  lemma TrimStrips(before: string, s: string, after: string)
    requires (forall c :: c in before ==> c in WHITE_SPACE) && (forall c :: c in after ==> c in WHITE_SPACE)
    requires s != "" && s[0] !in WHITE_SPACE && s[|s| - 1] !in WHITE_SPACE
    ensures TrimSpace(before + s + after) == s
  {
    hide IsSpace, WHITE_SPACE;
    SpaceIsWhite(s[0]);
    SpaceIsWhite(s[|s| - 1]);
    assert before + s + after == before + (s + after);
    LeftStrips(before, s + after);
    RightStrips(s, after);
  }

  lemma {:induction false} LeftStrips(before: string, s: string)
    requires (forall c :: c in before ==> c in WHITE_SPACE) && s != "" && !IsSpace(s[0])
    ensures TrimLeftSpace(before + s) == s
  {
    hide IsSpace, WHITE_SPACE;
    if before == "" {
      assert before + s == s;
    } else {
      SpaceIsWhite(before[0]);
      assert (before + s)[1..] == before[1..] + s;
      LeftStrips(before[1..], s);
    }
  }

  lemma {:induction false} RightStrips(s: string, after: string)
    requires (forall c :: c in after ==> c in WHITE_SPACE) && s != "" && !IsSpace(s[|s| - 1])
    ensures TrimRightSpace(s + after) == s
  {
    hide IsSpace, WHITE_SPACE;
    if after == "" {
      assert s + after == s;
    } else {
      var n := |after| - 1;
      SpaceIsWhite(after[n]);
      assert (s + after)[..|s + after| - 1] == s + after[..n];
      RightStrips(s, after[..n]);
    }
  }

  /** A field is read under its name in small letters, with what stands behind the colon and the white space. */
  lemma FieldIsRead(name: string, white: string, value: string)
    requires ':' !in name && name != "" && name[0] !in WHITE_SPACE && name[|name| - 1] !in WHITE_SPACE
    requires forall c :: c in white ==> c in WHITE_SPACE
    requires value != "" && value[0] !in WHITE_SPACE && value[|value| - 1] !in WHITE_SPACE
    ensures Headers([name + ":" + white + value]) == map[ToLower(name) := value]
  {
    hide Cut, TrimSpace, ToLower, WHITE_SPACE;
    var line := name + ":" + white + value;
    assert line == name + [':'] + (white + value);
    CutAtFirst(name, ':', white + value);
    TrimStrips("", name, "");
    TrimStrips(white, value, "");
    assert "" + name + "" == name && white + value + "" == white + value;
    assert [line][..0] == [] && Headers([]) == map[];
  }

  /**
   A printed request, with anything behind it, is read as its method, path, length and body, and
   what is behind it is left.
   */
  lemma PrintedRequestIsRead(m: string, path: string, version: string, body: string, more: string)
    requires ' ' !in m && ' ' !in path && '\r' !in m && '\r' !in path && '\r' !in version
    requires |m| + |path| + |version| + |Itoa(|body|)| + |body| + 100 <= MAX_INT64
    ensures Parsing(m + " " + path + " " + version + "\r\n" + ("Content-Length: " + Itoa(|body|)) + BLANK_LINE + (body + more))
         == Complete(Request(m, path, map["content-length" := Itoa(|body|)], body), more)
  {
    hide IndexFrom, SplitLines, RequestLine, Headers, ToLower, Itoa, HeaderLines, Parsing, ContentLength;
    var line, field := m + " " + path + " " + version, "Content-Length: " + Itoa(|body|);
    LengthField(|body|);
    NoReturn(m, path, version);
    TwoLines(line, field);
    var head := line + "\r\n" + field + BLANK_LINE;
    HeadStays(head, body + more);
    RequestLineReads(m, path, version);
    var idx := |line| + 2 + |field|;
    LengthIsRead(|body|);
    var data := head + (body + more);
    assert data[idx + 4..idx + 4 + |body|] == body && data[idx + 4 + |body|..] == more;
    ReadsAs(data, idx, line, field, m, path, map["content-length" := Itoa(|body|)], |body|);
  }

  /** What parsing comes to when the header block is known. */
  lemma ReadsAs(data: string, idx: nat, line: string, field: string, m: string, path: string, headers: map<string, string>, n: nat)
    requires IndexFrom(data, BLANK_LINE, 0) == Some(idx) && HeaderLines(data) == [line, field]
    requires RequestLine(line) == Some((m, path)) && Headers([field]) == headers && ContentLength(headers) == n
    requires idx + 4 + n <= |data| && idx + 4 + n <= MAX_INT64
    ensures Parsing(data) == Complete(Request(m, path, headers, data[idx + 4..idx + 4 + n]), data[idx + 4 + n..])
  {
    hide IndexFrom, SplitLines, RequestLine, Headers, ContentLength;
    var lines := SplitLines(data[..idx]);
    assert lines == [line, field] && lines[0] == line && lines[1..] == [field];
  }

  lemma LengthIsRead(n: nat)
    requires n <= MAX_INT64
    ensures ContentLength(map["content-length" := Itoa(n)]) == n
  {
    hide Itoa, Atoi;
    AtoiOfItoa(n);
  }

  lemma NoReturn(m: string, path: string, version: string)
    requires '\r' !in m && '\r' !in path && '\r' !in version
    ensures '\r' !in m + " " + path + " " + version
  {
  }

  lemma LengthField(n: nat)
    ensures Headers(["Content-Length: " + Itoa(n)]) == map["content-length" := Itoa(n)]
    ensures '\r' !in "Content-Length: " + Itoa(n) && 0 < |"Content-Length: " + Itoa(n)|
  {
    hide Digits, Headers, ToLower;
    var value := Itoa(n);
    assert forall i :: 0 <= i < |value| ==> IsDigit(value[i]);
    SpaceIsWhite(value[0]);
    SpaceIsWhite(value[|value| - 1]);
    SpaceIsWhite(' ');
    LengthName();
    FieldIsRead("Content-Length", " ", value);
    assert "Content-Length" + ":" + " " == "Content-Length: ";
    assert "Content-Length" + ":" + " " + value == "Content-Length: " + value;
  }

  lemma LengthName()
    ensures ToLower("Content-Length") == "content-length"
    ensures "Content-Length"[0] !in WHITE_SPACE && "Content-Length"[13] !in WHITE_SPACE && ':' !in "Content-Length"
  {
    SpaceIsWhite('C');
    SpaceIsWhite('h');
  }

  // ----- Which header blocks get past the parser -----

  /** The lines in front of the first blank line. */
  function HeaderLines(data: string): (lines: seq<string>)
    requires IndexFrom(data, BLANK_LINE, 0).Some?
    ensures |lines| > 0
  {
    SplitLines(data[..IndexFrom(data, BLANK_LINE, 0).value])
  }

  /** The length that a header block announces, and where its body would end. */
  function Announced(data: string): (n: int)
    requires IndexFrom(data, BLANK_LINE, 0).Some?
  {
    ContentLength(Headers(HeaderLines(data)[1..]))
  }

  predicate LengthFits(data: string)
    requires IndexFrom(data, BLANK_LINE, 0).Some?
  {
    0 <= Announced(data) && IndexFrom(data, BLANK_LINE, 0).value + 4 + Announced(data) <= MAX_INT64
  }

  /** A buffer that starts with a request whose length is negative or takes the 64-bit end of the body past the largest number. */
  predicate StartsWithBadLength(data: string) {
    IndexFrom(data, BLANK_LINE, 0).Some? && RequestLine(HeaderLines(data)[0]).Some? && !LengthFits(data)
  }

  /** Appended text does not change the header block in front of it. */
  lemma HeadStays(a: string, b: string)
    requires IndexFrom(a, BLANK_LINE, 0).Some?
    ensures IndexFrom(a + b, BLANK_LINE, 0) == IndexFrom(a, BLANK_LINE, 0) && HeaderLines(a + b) == HeaderLines(a)
  {
    hide IndexFrom, SplitLines;
    IndexGrows(a, b, BLANK_LINE);
    var idx := IndexFrom(a, BLANK_LINE, 0).value;
    assert (a + b)[..idx] == a[..idx];
  }

  /** Parsing fails on the bad lengths and on nothing else. */
  lemma FailsIff(data: string)
    ensures Parsing(data).Failed? <==> StartsWithBadLength(data)
  {
    hide IndexFrom, SplitLines, RequestLine, Headers, ContentLength;
  }

  /** A header block can be completed by some further text exactly when its request line is proper and its length fits. */
  lemma CompletesIff(a: string)
    requires IndexFrom(a, BLANK_LINE, 0).Some?
    ensures (exists b :: Parsing(a + b).Complete?) <==> RequestLine(HeaderLines(a)[0]).Some? && LengthFits(a)
  {
    hide IndexFrom, SplitLines, RequestLine, Headers, ContentLength;
    forall b | Parsing(a + b).Complete?
      ensures RequestLine(HeaderLines(a)[0]).Some? && LengthFits(a)
    {
      HeadStays(a, b);
    }
    if RequestLine(HeaderLines(a)[0]).Some? && LengthFits(a) {
      var b := seq(Announced(a), _ => ' ');
      HeadStays(a, b);
      assert Parsing(a + b).Complete?;
    }
  }

  const NEGATIVE_LENGTH := "G /" + "\r\n" + "content-length:-1" + BLANK_LINE
  const NO_PATH := "G" + BLANK_LINE

  /** A request with a negative length fails as soon as its header block is there. */
  lemma NegativeLengthFails(b: string)
    ensures Parsing(NEGATIVE_LENGTH + b).Failed?
  {
    hide IndexFrom, SplitLines, RequestLine, Headers, ContentLength, Parsing;
    NegativeLengthLines();
    NegativeLengthRequest();
    NegativeLengthHeaders();
    FailsIff(NEGATIVE_LENGTH);
    ParsingGrows(NEGATIVE_LENGTH, b);
  }

  lemma FirstAt(s: string, sub: string, i: nat)
    requires StandsAt(s, sub, i) && forall k :: 0 <= k < i ==> !StandsAt(s, sub, k)
    ensures IndexFrom(s, sub, 0) == Some(i)
  {
    hide IndexFrom;
  }

  /** A header block of a request line and one field. */
  lemma TwoLines(a: string, b: string)
    requires '\r' !in a && '\r' !in b && b != []
    ensures var data := a + "\r\n" + b + BLANK_LINE;
      IndexFrom(data, BLANK_LINE, 0) == Some(|a| + 2 + |b|) && HeaderLines(data) == [a, b]
  {
    hide IndexFrom, SplitLines;
    var data, head, idx := a + "\r\n" + b + BLANK_LINE, a + "\r\n" + b, |a| + 2 + |b|;
    assert data[idx..idx + 4] == BLANK_LINE;
    forall k | 0 <= k < idx ensures !StandsAt(data, BLANK_LINE, k) {
      NotThere(data, BLANK_LINE, k, if k == |a| then 2 else 0);
    }
    FirstAt(data, BLANK_LINE, idx);
    assert data[..idx] == head;
    LineBreaks(a, b);
  }

  lemma NotThere(s: string, sub: string, k: nat, i: nat)
    requires i < |sub| && (k + i < |s| ==> s[k + i] != sub[i])
    ensures !StandsAt(s, sub, k)
  {
    if k + |sub| <= |s| {
      assert s[k..k + |sub|][i] == s[k + i];
    }
  }

  lemma LineBreaks(a: string, b: string)
    requires '\r' !in a && '\r' !in b
    ensures SplitLines(a + "\r\n" + b) == [a, b]
  {
    hide IndexFrom;
    var head := a + "\r\n" + b;
    assert head[|a|..|a| + 2] == "\r\n";
    forall k | 0 <= k < |a| ensures !StandsAt(head, "\r\n", k) {
      NotThere(head, "\r\n", k, 0);
    }
    FirstAt(head, "\r\n", |a|);
    OneLine(b);
    assert head[..|a|] == a && head[|a| + 2..] == b;
  }

  lemma OneLine(line: string)
    requires '\r' !in line
    ensures SplitLines(line) == [line]
  {
    hide IndexFrom;
    forall k | 0 <= k ensures !StandsAt(line, "\r\n", k) {
      NotThere(line, "\r\n", k, 0);
    }
  }

  lemma NegativeLengthLines()
    ensures IndexFrom(NEGATIVE_LENGTH, BLANK_LINE, 0) == Some(22)
    ensures HeaderLines(NEGATIVE_LENGTH) == ["G /", "content-length:-1"]
  {
    hide IndexFrom, HeaderLines;
    TwoLines("G /", "content-length:-1");
  }

  lemma NegativeLengthRequest()
    ensures RequestLine("G /").Some?
  {
    hide Cut;
    assert ' ' in "G /" by { assert "G /"[1] == ' '; }
  }

  lemma NegativeLengthHeaders()
    ensures ContentLength(Headers(["content-length:-1"])) == -1
  {
    hide Atoi, TrimSpace, ToLower, Cut;
    var name, line := "content-length", "content-length:-1";
    assert line == name + [':'] + "-1";
    CutAtFirst(name, ':', "-1");
    TrimmedAlready(name);
    TrimmedAlready("-1");
    LowerAlready(name);
    assert [line][..0] == [] && Headers([]) == map[];
    MinusOne();
  }

  lemma TrimmedAlready(s: string)
    requires s != "" && !IsSpace(s[0]) && !IsSpace(s[|s| - 1])
    ensures TrimSpace(s) == s
  {
  }

  lemma LowerAlready(s: string)
    requires forall i :: 0 <= i < |s| ==> !('A' <= s[i] <= 'Z')
    ensures ToLower(s) == s
  {
  }

  lemma MinusOne()
    ensures Atoi("-1").0 == -1
  {
    AtoiOfItoa(-1);
    assert Digits(1) == "1" && Itoa(-1) == "-1";
  }

  /** A request line without a space is never completed. */
  lemma NoPathNeverCompletes(b: string)
    ensures Parsing(NO_PATH + b).Incomplete?
  {
    hide IndexFrom, RequestLine, Headers, ContentLength, Parsing;
    var data := NO_PATH;
    assert data[1..5] == BLANK_LINE;
    NotThere(data, BLANK_LINE, 0, 0);
    FirstAt(data, BLANK_LINE, 1);
    assert data[..1] == "G";
    OneLine("G");
    NoSpaceNoRequest("G");
    MalformedRequestStays(data, b);
  }

  lemma NoSpaceNoRequest(line: string)
    requires ' ' !in line
    ensures RequestLine(line).None?
  {
  }

  lemma ParsingIsIncremental()
    ensures Incremental(Parsing)
  {
    forall a: string, b: string
      ensures Parsing(a).Failed? ==> Parsing(a + b).Failed?
      ensures Parsing(a).Complete? ==> Parsing(a + b) == Complete(Parsing(a).item, Parsing(a).rest + b)
    {
      ParsingGrows(a, b);
    }
  }

  /** The requests of a whole stream, parsed at once. */
  ghost function RequestsIn(stream: string): (d: Drained<char, Request>)
    ensures Progresses(Parsing) && d == Drain(Parsing, stream)
  {
    ParsingIsIncremental();
    Drain(Parsing, stream)
  }

  /** What is left of a stream after some of its requests were cut off. */
  ghost predicate CutsTo(stream: string, rest: string)
    decreases |stream|
  {
    stream == rest || (Parsing(stream).Complete? && CutsTo(Parsing(stream).rest, rest))
  }

  /** Serving a stream fails exactly when, behind some whole requests, a request with a bad length begins. */
  lemma {:induction false} StreamFailsIff(stream: string)
    ensures RequestsIn(stream).failed <==> exists rest :: CutsTo(stream, rest) && StartsWithBadLength(rest)
    decreases |stream|
  {
    hide Parsing, StartsWithBadLength;
    FailsIff(stream);
    if Parsing(stream).Complete? {
      var next := Parsing(stream).rest;
      ParsingShortens(stream);
      StreamFailsIff(next);
      forall rest | CutsTo(next, rest) && StartsWithBadLength(rest)
        ensures CutsTo(stream, rest)
      {
      }
    } else {
      assert CutsTo(stream, stream);
    }
  }

  lemma ParsingShortens(data: string)
    requires Parsing(data).Complete?
    ensures |Parsing(data).rest| < |data|
  {
  }

  // ----- The connection -----

  /** The locker's state after some requests, and the response written for each. */
  function Answered<S>(state: S, requests: seq<Request>, handle: (S, Request) -> (S, string)): (S, seq<string>) {
    if requests == [] then (state, [])
    else
      var last := |requests| - 1;
      var (before, written) := Answered(state, requests[..last], handle);
      var (after, response) := handle(before, requests[last]);
      (after, written + [response])
  }

  lemma AnsweredStep<S>(state: S, requests: seq<Request>, r: Request, handle: (S, Request) -> (S, string))
    ensures var (before, written) := Answered(state, requests, handle);
            var (after, response) := handle(before, r);
            Answered(state, requests + [r], handle) == (after, written + [response])
    ensures Answered(state, [], handle) == (state, [])
  {
    assert (requests + [r])[..|requests|] == requests;
  }

  /** The state after some requests, each handled in the state that the one before left. */
  function StateAfter<S>(state: S, requests: seq<Request>, handle: (S, Request) -> (S, string)): S {
    if requests == [] then state else StateAfter(handle(state, requests[0]).0, requests[1..], handle)
  }

  /** One response for each request, in order. */
  function ResponsesTo<S>(state: S, requests: seq<Request>, handle: (S, Request) -> (S, string)): seq<string> {
    if requests == [] then []
    else [handle(state, requests[0]).1] + ResponsesTo(handle(state, requests[0]).0, requests[1..], handle)
  }

  lemma {:induction false} OneMoreRequest<S>(state: S, requests: seq<Request>, r: Request, handle: (S, Request) -> (S, string))
    ensures StateAfter(state, requests + [r], handle) == handle(StateAfter(state, requests, handle), r).0
    ensures ResponsesTo(state, requests + [r], handle)
         == ResponsesTo(state, requests, handle) + [handle(StateAfter(state, requests, handle), r).1]
  {
    if requests == [] {
      assert requests + [r] == [r] && [r][1..] == [];
    } else {
      OneMoreRequest(handle(state, requests[0]).0, requests[1..], r, handle);
      assert (requests + [r])[1..] == requests[1..] + [r];
    }
  }

  /** Answering requests is folding the handler over them. */
  lemma {:induction false} AnsweringIsFolding<S>(state: S, requests: seq<Request>, handle: (S, Request) -> (S, string))
    ensures Answered(state, requests, handle).0 == StateAfter(state, requests, handle)
    ensures Answered(state, requests, handle).1 == ResponsesTo(state, requests, handle)
  {
    if requests == [] {
      assert Answered(state, requests, handle) == (state, []);
    } else {
      var n := |requests| - 1;
      AnsweringIsFolding(state, requests[..n], handle);
      OneMoreRequest(state, requests[..n], requests[n], handle);
      assert requests[..n] + [requests[n]] == requests;
    }
  }

  /** The reads that succeed before the first error; any error, a timeout too, ends the connection. */
  function DataReads(pieces: seq<string>): (chunks: seq<Read<char>>)
    ensures |chunks| == |pieces|
  {
    seq(|pieces|, i requires 0 <= i < |pieces| => Data(pieces[i]))
  }

  /** The connection: however the stream is cut into reads, each of its requests is answered, in order. */
  method HandleConnection<S>(pieces: seq<string>, init: S, handle: (S, Request) -> (S, string))
    returns (state: S, written: seq<string>, panicked: bool)
    ensures (state, written) == Answered(init, RequestsIn(StreamOf(DataReads(pieces))).items, handle)
    ensures var requests := RequestsIn(StreamOf(DataReads(pieces))).items;
      state == StateAfter(init, requests, handle) && written == ResponsesTo(init, requests, handle)
    ensures panicked == RequestsIn(StreamOf(DataReads(pieces))).failed
    ensures panicked <==> exists rest :: CutsTo(StreamOf(DataReads(pieces)), rest) && StartsWithBadLength(rest)
  {
    hide Answered, Parsing, CutsTo, StartsWithBadLength, StateAfter, ResponsesTo;
    ghost var chunks := DataReads(pieces);
    AnsweringIsFolding(init, RequestsIn(StreamOf(chunks)).items, handle);
    StreamFailsIff(StreamOf(chunks));
    ParsingIsIncremental();
    EmptyIsIncomplete();
    ChunkingDoesNotMatter(Parsing, [], chunks);
    assert [] + StreamOf(chunks) == StreamOf(chunks);
    state, written, panicked := init, [], false;
    ghost var done: seq<Request> := [];
    ghost var all := Reassembled(Parsing, [], chunks);
    var buf := "";
    assert chunks[0..] == chunks;
    BeforeNothing(all);
    AnsweredStep(init, [], Request("", "", map[], ""), handle);
    for i := 0 to |pieces|
      invariant (state, written) == Answered(init, done, handle)
      invariant !panicked && all == Before(done, Reassembled(Parsing, buf, chunks[i..]))
    {
      assert chunks[i..][1..] == chunks[i + 1..] && chunks[i..][0] == Data(pieces[i]);
      buf := buf + pieces[i];
      ghost var d := Drain(Parsing, buf);
      BeforeAgain(done, d.items, Reassembled(Parsing, d.rest, chunks[i + 1..]));
      state, written, buf, panicked := AnswerBuffered(buf, init, done, state, written, handle);
      done := done + d.items;
      if panicked {
        return;
      }
    }
    assert done + [] == done;
  }

  lemma EmptyIsIncomplete()
    ensures Parsing("").Incomplete?
  {
  }

  /** The inner loop: answer requests until the buffer holds none. */
  method AnswerBuffered<S>(buf: string, ghost init: S, ghost before: seq<Request>, state: S, written: seq<string>,
                           handle: (S, Request) -> (S, string))
    returns (state': S, written': seq<string>, rest: string, panicked: bool)
    requires (state, written) == Answered(init, before, handle)
    ensures (state', written') == Answered(init, before + RequestsIn(buf).items, handle)
    ensures panicked == RequestsIn(buf).failed && (!panicked ==> rest == RequestsIn(buf).rest)
  {
    hide Answered, Parsing;
    ParsingIsIncremental();
    state', written', rest, panicked := state, written, buf, false;
    ghost var done: seq<Request> := [];
    assert before + done == before;
    BeforeNothing(Drain(Parsing, buf));
    while true
      invariant (state', written') == Answered(init, before + done, handle)
      invariant !panicked && Drain(Parsing, buf) == Before(done, Drain(Parsing, rest))
      decreases |rest|
    {
      var p := ParseHttpRequest(rest);
      match p {
        case Failed =>
          panicked := true;
          assert done + [] == done;
          return;
        case Incomplete =>
          assert done + [] == done;
          return;
        case Complete(r, remaining) =>
          BeforeAgain(done, [r], Drain(Parsing, remaining));
          AnsweredStep(init, before + done, r, handle);
          assert before + (done + [r]) == before + done + [r];
          var result := handle(state', r);
          state', written' := result.0, written' + [result.1];
          done, rest := done + [r], remaining;
      }
    }
  }
}
