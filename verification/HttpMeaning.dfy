/**
 * Which bytes are a request: a request line, headers and an empty line, each
 * ended by CR LF; told without the parser's places and searches.
 */
module HttpMeaning {
  import opened HttpParse

  predicate Break(c: char) { c == '\r' || c == '\n' }

  predicate NoBreaks(s: string) { forall i :: 0 <= i < |s| ==> !Break(s[i]) }

  predicate AllBlank(s: string) { forall i :: 0 <= i < |s| ==> Blank(s[i]) }

  // ----- words

  lemma {:induction false} FirstBlankMeans(s: string)
    ensures var i := FirstBlank(s); NoBlanks(s[..i]) && (i < |s| ==> Blank(s[i]))
  {
    if s != "" && !Blank(s[0]) {
      FirstBlankMeans(s[1..]);
      var i := FirstBlank(s[1..]);
      assert s[..i + 1] == [s[0]] + s[1..][..i];
    }
  }

  lemma {:induction false} SkipBlanksMeans(s: string) returns (gap: string)
    ensures s == gap + SkipBlanks(s) && AllBlank(gap)
    ensures SkipBlanks(s) == "" || !Blank(SkipBlanks(s)[0])
  {
    if s != "" && Blank(s[0]) {
      var g := SkipBlanksMeans(s[1..]);
      gap := [s[0]] + g;
      assert s == [s[0]] + s[1..];
    } else {
      gap := "";
    }
  }

  lemma {:induction false} SkipsGap(gap: string, s: string)
    requires AllBlank(gap) && (s == "" || !Blank(s[0]))
    ensures SkipBlanks(gap + s) == s
  {
    if gap == "" {
      assert gap + s == s;
    } else {
      assert (gap + s)[1..] == gap[1..] + s;
      SkipsGap(gap[1..], s);
    }
  }

  lemma {:induction false} FromSlashMeans(s: string)
    ensures FromSlash(s) != "" <==> '/' in s
    ensures FromSlash(s) != "" ==> FromSlash(s)[0] == '/'
  {
    if s != "" && s[0] != '/' {
      FromSlashMeans(s[1..]);
      assert s == [s[0]] + s[1..];
    }
  }

  /** A path, or http:// and anything with a slash in it. */
  lemma {:induction false} IsPathIff(url: string)
    ensures IsPath(url) <==>
      || (url != "" && url[0] == '/')
      || (|url| >= 7 && SameFold(url[..7], "http://") && '/' in url[7..])
  {
    if |url| >= 7 && SameFold(url[..7], "http://") {
      FromSlashMeans(url[7..]);
      assert Lower(url[..7][0]) == Lower("http://"[0]);
    }
  }

  /** Verb, blanks, URL, blanks, version. */
  ghost predicate Words(s: string, verb: string, gap1: string, url: string, gap2: string, version: string) {
    && s == verb + (gap1 + (url + (gap2 + version)))
    && AllBlank(gap1) && gap1 != "" && AllBlank(gap2) && gap2 != "" && NoBlanks(url)
    && SameFold(verb, "GET") && SameFold(version, "HTTP/1.1") && IsPath(url)
  }

  lemma FoldNoBlanks(s: string, word: string)
    requires SameFold(s, word) && NoBlanks(word)
    ensures NoBlanks(s)
  {
    forall i | 0 <= i < |s| ensures !Blank(s[i]) {
      assert Lower(s[i]) == Lower(word[i]) && !Blank(word[i]);
    }
  }

  /** From the words to the request line, with any number of blanks between them. */
  lemma {:induction false} WordsAreLine(s: string, verb: string, gap1: string, url: string, gap2: string,
      version: string)
    requires Words(s, verb, gap1, url, gap2, version)
    ensures RequestLine(s)
  {
    hide FirstBlank, SkipBlanks, FromSlash;
    FoldNoBlanks(verb, "GET");
    FoldNoBlanks(version, "HTTP/1.1");
    var tail := url + (gap2 + version);
    FirstBlankIs(verb, gap1 + tail);
    var i := FirstBlank(s);
    assert s[..i] == verb && s[i + 1..] == gap1[1..] + tail;
    SkipsGap(gap1[1..], tail);
    FirstBlankIs(url, gap2 + version);
    var j := FirstBlank(tail);
    assert tail[..j] == url && tail[j + 1..] == gap2[1..] + version;
    SkipsGap(gap2[1..], version);
  }

  /** And back. */
  lemma {:induction false} LineHasWords(s: string)
      returns (verb: string, gap1: string, url: string, gap2: string, version: string)
    requires RequestLine(s)
    ensures Words(s, verb, gap1, url, gap2, version)
  {
    hide FirstBlank, SkipBlanks, FromSlash;
    hide NoBlanks, AllBlank, SameFold, IsPath, Blank;
    var rest: string;
    verb, gap1, rest := FirstWord(s);
    url, gap2, version := FirstWord(rest);
  }

  /** A word, the blanks after it, and what then follows. */
  lemma {:induction false} FirstWord(s: string) returns (word: string, gap: string, rest: string)
    requires FirstBlank(s) < |s|
    ensures word == s[..FirstBlank(s)] && rest == SkipBlanks(s[FirstBlank(s) + 1..])
    ensures s == word + (gap + rest) && NoBlanks(word) && AllBlank(gap) && gap != ""
  {
    hide FirstBlank, SkipBlanks;
    FirstBlankMeans(s);
    var i := FirstBlank(s);
    var g := SkipBlanksMeans(s[i + 1..]);
    word, gap, rest := s[..i], [s[i]] + g, SkipBlanks(s[i + 1..]);
    assert s == s[..i] + ([s[i]] + s[i + 1..]);
    assert [s[i]] + (g + rest) == gap + rest;
  }

  /** A line reads up to its first NUL. */
  lemma {:induction false} CStringMeans(s: string)
    ensures var t := CString(s); t <= s && NUL !in t && (|t| < |s| ==> s[|t|] == NUL)
  {
    if s != "" && s[0] != NUL {
      CStringMeans(s[1..]);
      assert s == [s[0]] + s[1..];
    }
  }

  // ----- lines

  lemma {:induction false} EndOfLineMeans(b: string, from: nat)
    requires from <= |b|
    ensures match EndOfLine(b, from)
      case LineOk(n) => from <= n - 2 && n <= |b| && NoBreaks(b[from..n - 2]) && b[n - 2] == '\r' && b[n - 1] == '\n'
      case LineBad(n) =>
        && from <= n < |b| && NoBreaks(b[from..n])
        && (b[n] == '\n' || (b[n] == '\r' && n + 1 < |b| && b[n + 1] != '\n'))
      case LineOpen(n) => from <= n <= |b| && NoBreaks(b[from..n]) && (n == |b| || (n == |b| - 1 && b[n] == '\r'))
    decreases |b| - from
  {
    if from < |b| && !Break(b[from]) {
      EndOfLineMeans(b, from + 1);
      match EndOfLine(b, from)
      case LineOk(n) => assert b[from..n - 2] == [b[from]] + b[from + 1..n - 2];
      case LineBad(n) => assert b[from..n] == [b[from]] + b[from + 1..n];
      case LineOpen(n) => assert b[from..n] == [b[from]] + b[from + 1..n];
    }
  }

  /** The search goes over a stretch without breaks. */
  lemma {:induction false} EndOfLineSkips(b: string, from: nat, n: nat)
    requires from <= n <= |b| && NoBreaks(b[from..n])
    ensures EndOfLine(b, from) == EndOfLine(b, n)
    decreases n - from
  {
    if from < n {
      assert !Break(b[from..n][0]);
      assert b[from + 1..n] == b[from..n][1..];
      EndOfLineSkips(b, from + 1, n);
    }
  }

  /** Lines as they are sent. */
  function Wire(lines: seq<string>): string {
    if lines == [] then "" else lines[0] + "\r\n" + Wire(lines[1..])
  }

  lemma WireFirst(b: string, s: nat, lines: seq<string>, rest: string)
    requires s <= |b| && b[s..] == Wire(lines) + rest && lines != [] && NoBreaks(lines[0])
    ensures var next := s + |lines[0]| + 2;
      && next <= |b| && EndOfLine(b, s) == LineOk(next) && b[s..next - 2] == lines[0]
      && b[next..] == Wire(lines[1..]) + rest
  {
    var line, tail := lines[0], Wire(lines[1..]) + rest;
    assert b[s..] == line + "\r\n" + tail;
    hide Wire, NoBreaks, EndOfLine;
    CutAt(b, s, line, tail);
    EndOfLineSkips(b, s, s + |line|);
    EndHere(b, s + |line|);
  }

  lemma EndHere(b: string, n: nat)
    requires n + 2 <= |b| && b[n] == '\r' && b[n + 1] == '\n'
    ensures EndOfLine(b, n) == LineOk(n + 2)
  {
  }

  lemma CutAt(b: string, s: nat, line: string, tail: string)
    requires s <= |b| && b[s..] == line + "\r\n" + tail
    ensures var n := s + |line|;
      n + 2 <= |b| && b[s..n] == line && b[n] == '\r' && b[n + 1] == '\n' && b[n + 2..] == tail
  {
    var t := b[s..];
    assert |b| == s + |t| && forall i :: 0 <= i < |t| ==> b[s + i] == t[i];
    assert t[|line|] == '\r' && t[|line| + 1] == '\n';
  }

  lemma WireMore(b: string, s: nat, next: nat, lines: seq<string>, rest: string)
    requires s <= next - 2 && next <= |b| && b[next - 2] == '\r' && b[next - 1] == '\n'
    requires b[next..] == Wire(lines) + rest
    ensures b[s..] == Wire([b[s..next - 2]] + lines) + rest
  {
    var line := b[s..next - 2];
    assert ([line] + lines)[1..] == lines;
    assert b[s..] == line + "\r\n" + b[next..];
  }

  ghost predicate Headers(lines: seq<string>) {
    forall i :: 0 <= i < |lines| ==> NoBreaks(lines[i]) && CString(lines[i]) != ""
  }

  /** Headers and then a line that reads as empty. */
  ghost predicate Closed(t: string, headers: seq<string>, last: string, rest: string) {
    t == Wire(headers + [last]) + rest && Headers(headers) && NoBreaks(last) && CString(last) == ""
  }

  /** Headers and then a line with a lone LF, or a CR before something else. */
  ghost predicate Broken(t: string, headers: seq<string>, rest: string, k: nat) {
    && t == Wire(headers) + rest && Headers(headers)
    && k < |rest| && NoBreaks(rest[..k])
    && (rest[k] == '\n' || (rest[k] == '\r' && k + 1 < |rest| && rest[k + 1] != '\n'))
  }

  // ----- from the bytes to the verdict

  lemma {:induction false} ClosedIsGet(b: string, s: nat, headers: seq<string>, last: string, rest: string)
    requires s <= |b| && Closed(b[s..], headers, last, rest)
    ensures Parse(b, Place(s, s, true)).0 == GetRequest
    decreases |headers|
  {
    hide EndOfLine, CString, RequestLine;
    var lines := headers + [last];
    WireFirst(b, s, lines, rest);
    if headers != [] {
      var next := s + |lines[0]| + 2;
      assert lines[1..] == headers[1..] + [last];
      ClosedIsGet(b, next, headers[1..], last, rest);
    }
  }

  lemma {:induction false} BrokenIsBad(b: string, s: nat, headers: seq<string>, rest: string, k: nat)
    requires s <= |b| && Broken(b[s..], headers, rest, k)
    ensures Parse(b, Place(s, s, true)).0 == BadRequest
    decreases |headers|
  {
    hide CString, RequestLine;
    if headers == [] {
      BreakFound(b, s, rest, k);
    } else {
      hide EndOfLine;
      WireFirst(b, s, headers, rest);
      BrokenIsBad(b, s + |headers[0]| + 2, headers[1..], rest, k);
    }
  }

  lemma {:induction false} BreakFound(b: string, s: nat, rest: string, k: nat)
    requires s <= |b| && Broken(b[s..], [], rest, k)
    ensures EndOfLine(b, s) == LineBad(s + k)
  {
    assert b[s..] == rest && rest[..k] == b[s..s + k];
    EndOfLineSkips(b, s, s + k);
    assert b[s + k] == rest[k] && (k + 1 < |rest| ==> b[s + k + 1] == rest[k + 1]);
  }

  // ----- from the verdict to the bytes

  lemma {:induction false} GetIsClosed(b: string, s: nat) returns (headers: seq<string>, last: string, rest: string)
    requires s <= |b| && Parse(b, Place(s, s, true)).0 == GetRequest
    ensures Closed(b[s..], headers, last, rest)
    decreases |b| - s
  {
    hide CString, RequestLine, EndOfLine;
    EndOfLineMeans(b, s);
    var next := EndOfLine(b, s).next;
    var line := b[s..next - 2];
    if CString(line) == "" {
      headers, last, rest := [], line, b[next..];
      assert b[next..] == Wire([]) + rest;
      WireMore(b, s, next, [], rest);
      assert [line] + [] == headers + [last];
    } else {
      var hs: seq<string>;
      hs, last, rest := GetIsClosed(b, next);
      headers := [line] + hs;
      WireMore(b, s, next, hs + [last], rest);
      assert [line] + (hs + [last]) == headers + [last];
    }
  }

  lemma {:induction false} BadIsBroken(b: string, s: nat) returns (headers: seq<string>, rest: string, k: nat)
    requires s <= |b| && Parse(b, Place(s, s, true)).0 == BadRequest
    ensures Broken(b[s..], headers, rest, k)
    decreases |b| - s
  {
    hide CString, RequestLine, EndOfLine;
    EndOfLineMeans(b, s);
    match EndOfLine(b, s)
    case LineBad(n) =>
      headers, rest, k := [], b[s..], n - s;
      assert rest[..k] == b[s..n];
    case LineOk(next) =>
      var line := b[s..next - 2];
      var hs: seq<string>;
      hs, rest, k := BadIsBroken(b, next);
      headers := [line] + hs;
      WireMore(b, s, next, hs, rest);
  }

  // ----- whole requests

  /** A request line, headers and an empty line, and perhaps more bytes. */
  ghost predicate IsRequest(b: string, first: string, headers: seq<string>, last: string, rest: string) {
    && b == first + "\r\n" + Wire(headers + [last]) + rest
    && NoBreaks(first) && RequestLine(CString(first))
    && Headers(headers) && NoBreaks(last) && CString(last) == ""
  }

  ghost predicate Starts(b: string, first: string, tail: string) {
    b == first + "\r\n" + tail && NoBreaks(first)
  }

  lemma FirstLine(b: string, first: string, tail: string)
    requires Starts(b, first, tail)
    ensures EndOfLine(b, 0) == LineOk(|first| + 2) && b[..|first|] == first && b[|first| + 2..] == tail
  {
    assert b[0..] == Wire([first]) + tail;
    WireFirst(b, 0, [first], tail);
    assert b[..|first|] == first;
  }

  /** Main result: which bytes are taken for a request, both ways. */
  lemma {:induction false} GetIff(b: string)
    ensures Parse(b, BEGIN).0 == GetRequest <==> exists first, headers, last, rest ::
      IsRequest(b, first, headers, last, rest)
  {
    hide EndOfLine, CString, RequestLine;
    if Parse(b, BEGIN).0 == GetRequest {
      EndOfLineMeans(b, 0);
      var next := EndOfLine(b, 0).next;
      var first := b[..next - 2];
      assert b[0..next - 2] == first;
      var headers, last, rest := GetIsClosed(b, next);
      assert b == first + "\r\n" + b[next..];
      assert IsRequest(b, first, headers, last, rest);
    }
    if first, headers, last, rest :| IsRequest(b, first, headers, last, rest) {
      RequestIsGet(b, first, headers, last, rest);
    }
  }

  lemma RequestIsGet(b: string, first: string, headers: seq<string>, last: string, rest: string)
    requires IsRequest(b, first, headers, last, rest)
    ensures Parse(b, BEGIN).0 == GetRequest
  {
    hide EndOfLine, CString, RequestLine;
    var tail := Wire(headers + [last]) + rest;
    assert b == first + "\r\n" + tail;
    FirstLine(b, first, tail);
    assert b[0..|first|] == first;
    ClosedIsGet(b, |first| + 2, headers, last, rest);
  }

  /**
   * And which are refused: those whose first line is broken or is no request
   * line, and those with a broken line among the headers.
   */
  lemma {:induction false} BadIff(b: string)
    ensures Parse(b, BEGIN).0 == BadRequest <==>
      || (exists k :: Broken(b, [], b, k))
      || (exists first, tail :: Starts(b, first, tail) && !RequestLine(CString(first)))
      || (exists first, tail, headers, rest, k :: Starts(b, first, tail) && Broken(tail, headers, rest, k))
  {
    hide EndOfLine, CString, RequestLine, Broken;
    EndOfLineMeans(b, 0);
    match EndOfLine(b, 0)
    case LineOpen(i) =>
      OpenIsNothing(b, i);
    case LineBad(i) =>
      assert b[0..i] == b[..i] && Wire([]) + b == b;
      assert Broken(b, [], b, i) by { BrokenHere(b, i); }
    case LineOk(next) =>
      var first, tail := b[..next - 2], b[next..];
      assert b[0..next - 2] == first;
      assert Starts(b, first, tail);
      OneFirstLine(b, first, tail);
      if RequestLine(CString(first)) {
        TailDecides(b, next);
      }
  }

  lemma BrokenHere(b: string, k: nat)
    requires k < |b| && NoBreaks(b[..k]) && (b[k] == '\n' || (b[k] == '\r' && k + 1 < |b| && b[k + 1] != '\n'))
    ensures Broken(b, [], b, k)
  {
  }

  lemma OpenIsNothing(b: string, i: nat)
    requires EndOfLine(b, 0) == LineOpen(i)
    ensures !exists k :: Broken(b, [], b, k)
    ensures !exists first, tail :: Starts(b, first, tail)
  {
    hide EndOfLine;
    forall k | Broken(b, [], b, k) ensures false {
      assert b[0..] == b;
      BreakFound(b, 0, b, k);
    }
    forall first, tail | Starts(b, first, tail) ensures false {
      FirstLine(b, first, tail);
    }
  }

  /** The first line, once complete, is the only one, and it is not broken. */
  lemma OneFirstLine(b: string, first: string, tail: string)
    requires Starts(b, first, tail)
    ensures !exists k :: Broken(b, [], b, k)
    ensures forall first', tail' :: Starts(b, first', tail') ==> first' == first && tail' == tail
  {
    hide EndOfLine;
    FirstLine(b, first, tail);
    forall k | Broken(b, [], b, k) ensures false {
      assert b[0..] == b;
      BreakFound(b, 0, b, k);
    }
    forall first', tail' | Starts(b, first', tail') ensures first' == first && tail' == tail {
      FirstLine(b, first', tail');
    }
  }

  lemma TailDecides(b: string, s: nat)
    requires s <= |b|
    ensures Parse(b, Place(s, s, true)).0 == BadRequest <==>
      exists headers, rest, k :: Broken(b[s..], headers, rest, k)
  {
    hide Parse, Broken;
    if Parse(b, Place(s, s, true)).0 == BadRequest {
      var headers, rest, k := BadIsBroken(b, s);
    }
    if headers, rest, k :| Broken(b[s..], headers, rest, k) {
      BrokenIsBad(b, s, headers, rest, k);
    }
  }
}
