/**
 * An incremental parser of request lines and headers. Bytes arrive in chunks;
 * the parser looks at each byte once, cuts complete lines by overwriting their
 * CR LF, and keeps its place between chunks.
 */
module HttpParse {
  const NUL: char := 0 as char

  datatype Code = NoRequest | GetRequest | BadRequest

  /** Where the current line starts, how far bytes were checked, and whether the request line is done. */
  datatype Place = Place(start: nat, checked: nat, inHeaders: bool)

  // ----- lines

  datatype LineEnd = LineOk(next: nat) | LineBad(at: nat) | LineOpen(at: nat)

  function EndOfLine(b: string, from: nat): (r: LineEnd)
    ensures from <= |b| ==>
      match r {
        case LineOk(n) => from + 2 <= n <= |b|
        case LineBad(n) => from <= n < |b|
        case LineOpen(n) => from <= n <= |b|
      }
    decreases |b| - from
  {
    if from >= |b| then LineOpen(from)
    else if b[from] == '\r' then
      if from + 1 == |b| then LineOpen(from) else if b[from + 1] == '\n' then LineOk(from + 2) else LineBad(from)
    else if b[from] == '\n' then LineBad(from)
    else EndOfLine(b, from + 1)
  }

  /** The text of a line as a C string: it ends at the first NUL. */
  function CString(s: string): string {
    if s == "" || s[0] == NUL then "" else [s[0]] + CString(s[1..])
  }

  predicate Blank(c: char) { c == ' ' || c == '\t' }

  function FirstBlank(s: string): (i: nat)
    ensures i <= |s|
  {
    if s == "" || Blank(s[0]) then 0 else 1 + FirstBlank(s[1..])
  }

  function SkipBlanks(s: string): string {
    if s != "" && Blank(s[0]) then SkipBlanks(s[1..]) else s
  }

  function Lower(c: char): char { if 'A' <= c <= 'Z' then c - 'A' + 'a' else c }

  predicate SameFold(a: string, b: string) { |a| == |b| && forall i :: 0 <= i < |a| ==> Lower(a[i]) == Lower(b[i]) }

  function FromSlash(s: string): string {
    if s == "" || s[0] == '/' then s else FromSlash(s[1..])
  }

  predicate IsPath(url: string) {
    var path := if |url| >= 7 && SameFold(url[..7], "http://") then FromSlash(url[7..]) else url;
    path != "" && path[0] == '/'
  }

  /** GET, a URL that is or contains a path, and HTTP/1.1, apart by blanks. */
  predicate RequestLine(s: string) {
    var i := FirstBlank(s);
    i < |s| && SameFold(s[..i], "GET") &&
    var rest := SkipBlanks(s[i + 1..]);
    var j := FirstBlank(rest);
    j < |rest| && SameFold(SkipBlanks(rest[j + 1..]), "HTTP/1.1") && IsPath(rest[..j])
  }

  predicate NoBlanks(s: string) { forall i :: 0 <= i < |s| ==> !Blank(s[i]) }

  lemma {:induction false} FirstBlankIs(a: string, b: string)
    requires NoBlanks(a) && (b == "" || Blank(b[0]))
    ensures FirstBlank(a + b) == |a|
  {
    if a == "" {
      assert a + b == b;
    } else {
      assert (a + b)[1..] == a[1..] + b;
      FirstBlankIs(a[1..], b);
    }
  }

  lemma {:induction false} CutAtBlank(word: string, tail: string)
    requires NoBlanks(word)
    ensures var s := word + (" " + tail);
      FirstBlank(s) == |word| < |s| && s[..|word|] == word && s[|word| + 1..] == tail
  {
    FirstBlankIs(word, " " + tail);
  }

  /** Three words apart by one blank are a request line exactly when each is right. */
  lemma {:induction false} RequestLineIff(verb: string, url: string, version: string)
    requires NoBlanks(verb) && NoBlanks(url) && NoBlanks(version) && url != "" && version != ""
    ensures RequestLine(verb + " " + url + " " + version) <==>
      SameFold(verb, "GET") && SameFold(version, "HTTP/1.1") && IsPath(url)
  {
    hide SameFold, FromSlash, FirstBlank;
    var s := verb + " " + url + " " + version;
    var tail := url + " " + version;
    assert s == verb + (" " + tail);
    CutAtBlank(verb, tail);
    assert SkipBlanks(tail) == tail;
    assert tail == url + (" " + version);
    CutAtBlank(url, version);
    assert SkipBlanks(version) == version;
  }

  // ----- what the bytes say, taken all at once

  function Parse(b: string, p: Place): (r: (Code, Place))
    requires p.start <= p.checked <= |b|
    ensures r.1.start <= r.1.checked <= |b| && p.start <= r.1.start && p.checked <= r.1.checked
    decreases |b| - p.checked
  {
    match EndOfLine(b, p.checked)
    case LineOpen(i) => (NoRequest, p.(checked := i))
    case LineBad(i) => (BadRequest, p.(checked := i))
    case LineOk(next) =>
      var text := CString(b[p.start..next - 2]);
      if !p.inHeaders then
        if RequestLine(text) then Parse(b, Place(next, next, true)) else (BadRequest, Place(next, next, false))
      else if text == "" then (GetRequest, Place(next, next, true))
      else Parse(b, Place(next, next, true))
  }

  // ----- bytes that come later do not change what was decided

  lemma {:induction false} EndOfLineStable(b: string, more: string, from: nat)
    requires from <= |b|
    ensures var r := EndOfLine(b, from);
      if r.LineOpen? then EndOfLine(b + more, from) == EndOfLine(b + more, r.at) else EndOfLine(b + more, from) == r
    decreases |b| - from
  {
    if from < |b| && b[from] != '\r' && b[from] != '\n' {
      EndOfLineStable(b, more, from + 1);
    }
  }

  /** Parsing a beginning and going on from there is the same as parsing the whole. */
  lemma {:induction false} ParseStable(b: string, more: string, p: Place)
    requires p.start <= p.checked <= |b|
    ensures var (code, q) := Parse(b, p);
      Parse(b + more, p) == if code == NoRequest then Parse(b + more, q) else (code, q)
    decreases |b| - p.checked
  {
    hide RequestLine, EndOfLine, CString;
    EndOfLineStable(b, more, p.checked);
    match EndOfLine(b, p.checked)
    case LineOpen(i) =>
    case LineBad(i) =>
    case LineOk(next) =>
      assert (b + more)[p.start..next - 2] == b[p.start..next - 2];
      ParseStable(b, more, Place(next, next, true));
  }

  const BEGIN: Place := Place(0, 0, false)

  function Joined(chunks: seq<string>): string {
    if chunks == [] then "" else Joined(chunks[..|chunks| - 1]) + chunks[|chunks| - 1]
  }

  /** Feeding chunk after chunk until there is a verdict. */
  function FeedAll(chunks: seq<string>): (r: (Code, Place))
    ensures r.1.start <= r.1.checked <= |Joined(chunks)|
  {
    if chunks == [] then (NoRequest, BEGIN)
    else
      var (code, p) := FeedAll(chunks[..|chunks| - 1]);
      if code != NoRequest then (code, p) else Parse(Joined(chunks), p)
  }

  /** However a request is divided, the verdict and the place reached are those of the whole. */
  lemma {:induction false} ChunkingIrrelevant(chunks: seq<string>)
    ensures FeedAll(chunks) == Parse(Joined(chunks), BEGIN)
  {
    if chunks == [] {
      assert EndOfLine("", 0) == LineOpen(0);
    } else {
      var n := |chunks| - 1;
      ChunkingIrrelevant(chunks[..n]);
      ParseStable(Joined(chunks[..n]), chunks[n], BEGIN);
    }
  }

  // ----- the parser

  class Parser {
    const buf: array<char>
    var read: nat
    var checked: nat
    var start: nat
    var inHeaders: bool
    ghost var bytes: string

    /** What is not yet cut into lines is still as it came. */
    ghost predicate Valid()
      reads this, buf
    {
      && start <= checked <= read <= buf.Length && |bytes| == read
      && (forall k :: start <= k < read ==> buf[k] == bytes[k])
      && (start > 0 ==> buf[start - 1] == NUL)
      && (forall k :: start <= k < checked ==> bytes[k] != '\r' && bytes[k] != '\n')
    }

    function Here(): Place
      reads this
    {
      Place(start, checked, inHeaders)
    }

    constructor (size: nat)
      ensures Valid() && buf.Length == size && bytes == "" && Here() == BEGIN
    {
      buf := new char[size](i => NUL);
      read, checked, start, inHeaders, bytes := 0, 0, 0, false, "";
    }

    /** The first line end from the checked position on. */
    method ParseLine() returns (r: LineEnd)
      requires Valid()
      modifies this`checked, buf
      ensures r == EndOfLine(bytes, old(checked))
      ensures start <= checked <= read && checked ==
        (match r case LineOk(n) => n case LineBad(n) => n case LineOpen(n) => n)
      ensures forall k :: start <= k < read && !(r.LineOk? && checked - 2 <= k < checked) ==> buf[k] == bytes[k]
      ensures r.LineOk? ==> start + 2 <= checked && buf[checked - 1] == NUL && buf[checked - 2] == NUL
      ensures !r.LineOk? ==> Valid()
    {
      while checked < read
        invariant Valid() && EndOfLine(bytes, checked) == EndOfLine(bytes, old(checked))
        decreases read - checked
      {
        var temp := buf[checked];
        if temp == '\r' {
          if checked + 1 == read {
            return LineOpen(checked);
          } else if buf[checked + 1] == '\n' {
            buf[checked] := NUL;
            buf[checked + 1] := NUL;
            checked := checked + 2;
            return LineOk(checked);
          }
          return LineBad(checked);
        } else if temp == '\n' {
          if checked > 1 && buf[checked - 1] == '\r' {
            assert false;
          }
          return LineBad(checked);
        }
        checked := checked + 1;
      }
      return LineOpen(checked);
    }

    /** A line, if there is one, and on to the next. */
    method TakeLine() returns (r: LineEnd, text: string)
      requires Valid()
      modifies this`checked, this`start, buf
      ensures Valid() && r == EndOfLine(bytes, old(checked))
      ensures checked == (match r case LineOk(n) => n case LineBad(n) => n case LineOpen(n) => n)
      ensures start == (if r.LineOk? then checked else old(start))
      ensures r.LineOk? ==> old(start) + 2 <= checked && text == CString(bytes[old(start)..checked - 2])
    {
      hide EndOfLine, CString;
      text := "";
      r := ParseLine();
      if r.LineOk? {
        text := CString(buf[start..checked]);
        LineText(buf[start..checked], bytes[start..checked - 2]);
        start := checked;
      }
    }

    method ParseContent() returns (code: Code)
      requires Valid()
      modifies this`checked, this`start, this`inHeaders, buf
      ensures Valid() && (code, Here()) == Parse(bytes, old(Here()))
    {
      hide RequestLine, EndOfLine, CString;
      while true
        invariant Valid() && Parse(bytes, Here()) == Parse(bytes, old(Here()))
        decreases read - checked
      {
        var r, text := TakeLine();
        if r.LineOpen? {
          return NoRequest;
        }
        if r.LineBad? {
          return BadRequest;
        }
        if !inHeaders {
          if !RequestLine(text) {
            return BadRequest;
          }
          inHeaders := true;
        } else if text == "" {
          return GetRequest;
        }
      }
    }

    /** recv: as many bytes as fit go to the end of the buffer. */
    method Feed(chunk: string) returns (code: Code)
      requires Valid() && read + |chunk| <= buf.Length
      modifies this, buf
      ensures Valid() && bytes == old(bytes) + chunk && (code, Here()) == Parse(bytes, old(Here()))
    {
      forall i | 0 <= i < |chunk| {
        buf[read + i] := chunk[i];
      }
      bytes := bytes + chunk;
      read := read + |chunk|;
      code := ParseContent();
    }
  }

  /** A verdict once reached is the verdict of the whole. */
  lemma {:induction false} VerdictStays(chunks: seq<string>, i: nat)
    requires i <= |chunks| && FeedAll(chunks[..i]).0 != NoRequest
    ensures FeedAll(chunks) == FeedAll(chunks[..i])
  {
    if i < |chunks| {
      var n := |chunks| - 1;
      assert chunks[..n][..i] == chunks[..i];
      VerdictStays(chunks[..n], i);
    } else {
      assert chunks[..i] == chunks;
    }
  }

  lemma {:induction false} JoinedPrefix(chunks: seq<string>, i: nat)
    requires i <= |chunks|
    ensures Joined(chunks[..i]) <= Joined(chunks)
    decreases |chunks|
  {
    if i < |chunks| {
      var n := |chunks| - 1;
      assert chunks[..n][..i] == chunks[..i];
      JoinedPrefix(chunks[..n], i);
    } else {
      assert chunks[..i] == chunks;
    }
  }

  /**
   * A connection: the bytes come in chunk by chunk until there is a verdict. It
   * and the place reached are those of all the bytes taken at once.
   */
  method Serve(p: Parser, chunks: seq<string>) returns (code: Code)
    requires p.Valid() && p.bytes == "" && p.Here() == BEGIN && |Joined(chunks)| <= p.buf.Length
    modifies p, p.buf
    ensures p.Valid() && p.bytes <= Joined(chunks) && (code, p.Here()) == Parse(Joined(chunks), BEGIN)
    ensures code == NoRequest ==> p.bytes == Joined(chunks)
  {
    hide Parse;
    code := NoRequest;
    var i := 0;
    assert chunks[..0] == [];
    while i < |chunks| && code == NoRequest
      invariant 0 <= i <= |chunks| && p.Valid() && p.bytes == Joined(chunks[..i]) &&
        (code, p.Here()) == FeedAll(chunks[..i])
      invariant |p.bytes| <= |Joined(chunks)|
      decreases |chunks| - i
    {
      assert chunks[..i + 1][..i] == chunks[..i] && chunks[..i + 1][i] == chunks[i];
      JoinedPrefix(chunks, i + 1);
      code := p.Feed(chunks[i]);
      i := i + 1;
    }
    JoinedPrefix(chunks, i);
    assert i == |chunks| ==> chunks[..i] == chunks;
    if code != NoRequest {
      VerdictStays(chunks, i);
    }
    ChunkingIrrelevant(chunks);
  }

  /** Cut at the CR, a line reads as the bytes before it do. */
  lemma {:induction false} LineText(s: string, t: string)
    requires |s| == |t| + 2 && s[..|t|] == t && s[|t|] == NUL
    ensures CString(s) == CString(t)
  {
    if t != "" && t[0] != NUL {
      assert s[0] == t[0];
      assert s[1..][..|t| - 1] == t[1..];
      LineText(s[1..], t[1..]);
    }
  }
}
