/**
 * The text layout of the index file: seven-column chain pointers and
 * variable-length "key:offset:length" records, written with sprintf and read
 * back with atol and strchr.
 */
module DbText {
  import opened Options
  import opened Numerals

  const PTR_SZ: nat := 7
  const PTR_MAX: nat := 9999999
  const IDXLEN_SZ: nat := 4
  const IDXLEN_MIN: nat := 6
  const IDXLEN_MAX: nat := 1024
  const DATLEN_MIN: nat := 2
  const DATLEN_MAX: nat := 1024
  const SEP: char := ':'

  /** One index record: the chain pointer, the key, and where its data lies. */
  datatype IdxRec = IdxRec(next: nat, key: string, datoff: nat, datlen: nat)

  // ----- writing

  function PtrText(p: nat): (s: string)
    requires p <= PTR_MAX
    ensures |s| == PTR_SZ
  {
    PtrWidth(p);
    PadLeft(Decimal(p), PTR_SZ)
  }

  function BodyText(key: string, datoff: nat, datlen: nat): string {
    key + [SEP] + Decimal(datoff) + [SEP] + Decimal(datlen) + "\n"
  }

  /** The bounds that the writer checks before it touches the file. */
  predicate Writable(r: IdxRec) {
    r.next <= PTR_MAX && IDXLEN_MIN <= |BodyText(r.key, r.datoff, r.datlen)| <= IDXLEN_MAX
  }

  /** Number of bytes a record occupies; independent of its chain pointer. */
  function RecSize(r: IdxRec): nat {
    PTR_SZ + IDXLEN_SZ + |BodyText(r.key, r.datoff, r.datlen)|
  }

  function RecText(r: IdxRec): (s: string)
    requires Writable(r)
    ensures |s| == RecSize(r)
  {
    var body := BodyText(r.key, r.datoff, r.datlen);
    LenWidth(|body|);
    PtrText(r.next) + PadLeft(Decimal(|body|), IDXLEN_SZ) + body
  }

  /**
   * The columns of a record: a right-justified pointer of seven, a
   * right-justified length of four, and the body.
   */
  lemma {:induction false} RecColumns(r: IdxRec)
    requires Writable(r)
    ensures var s, n := RecText(r), |r.key| + |Decimal(r.datoff)| + |Decimal(r.datlen)| + 3;
      var p, l := Decimal(r.next), Decimal(n);
      && |p| <= 7 && |l| <= 4 && |s| == 11 + n
      && (forall i :: 0 <= i < 7 - |p| ==> s[i] == ' ') && s[7 - |p|..7] == p
      && (forall i :: 7 <= i < 11 - |l| ==> s[i] == ' ') && s[11 - |l|..11] == l
      && s[11..] == r.key + ":" + Decimal(r.datoff) + ":" + Decimal(r.datlen) + "\n"
  {
    PtrWidth(r.next);
    var body := BodyText(r.key, r.datoff, r.datlen);
    LenWidth(|body|);
    var s, ptr, len := RecText(r), PtrText(r.next), PadLeft(Decimal(|body|), 4);
    assert s == ptr + len + body;
    assert s[..7] == ptr && s[7..11] == len && s[11..] == body;
    assert forall i :: 0 <= i < 7 ==> s[i] == s[..7][i];
    assert forall i :: 7 <= i < 11 ==> s[i] == s[7..11][i - 7];
    var p, l := Decimal(r.next), Decimal(|body|);
    assert s[7 - |p|..7] == ptr[7 - |p|..];
    assert s[11 - |l|..11] == len[4 - |l|..];
  }

  lemma PtrWidth(p: nat)
    requires p <= PTR_MAX
    ensures |Decimal(p)| <= PTR_SZ
  {
    DecimalLength(p, 7);
    assert Pow10(7) == 10 * 10 * 10 * Pow10(4) == 1000 * (10 * 10 * Pow10(2)) == 100000 * (10 * 10 * Pow10(0));
  }

  lemma LenWidth(n: nat)
    requires n <= IDXLEN_MAX
    ensures |Decimal(n)| <= IDXLEN_SZ
  {
    DecimalLength(n, 4);
    assert Pow10(4) == 10 * 10 * Pow10(2) == 100 * (10 * 10 * Pow10(0));
  }

  // ----- reading

  /** strchr: the position of the first c in s, or |s|. */
  function Find(s: string, c: char): (i: nat)
    ensures i <= |s| && c !in s[..i]
    ensures i < |s| ==> s[i] == c
  {
    if s == [] || s[0] == c then 0
    else
      var j := Find(s[1..], c);
      assert s[..1 + j] == [s[0]] + s[1..][..j];
      1 + j
  }

  /**
   * Splits the text of an index record at its separators. None stands for any
   * of the reader's consistency checks failing.
   */
  function ParseBody(body: string): Option<(string, nat, nat)> {
    if |body| == 0 || body[|body| - 1] != '\n' then None else
    var s := body[..|body| - 1];
    var i := Find(s, SEP);
    if i == |s| then None else
    var t := s[i + 1..];
    var j := Find(t, SEP);
    if j == |t| then None else
    var u := t[j + 1..];
    if Find(u, SEP) < |u| then None else
    var datoff := Atol(t[..j]);
    var datlen := Atol(u);
    if datoff < 0 || datlen <= 0 || datlen > DATLEN_MAX then None
    else Some((s[..i], datoff, datlen))
  }

  /** Reads the record at an offset of the index file; None is a failed check. */
  function ReadRec(idx: string, off: nat): Option<IdxRec> {
    if off + PTR_SZ + IDXLEN_SZ > |idx| then None else
    var next := Atol(idx[off..off + PTR_SZ]);
    var len := Atol(idx[off + PTR_SZ..off + PTR_SZ + IDXLEN_SZ]);
    if next < 0 || len < IDXLEN_MIN || len > IDXLEN_MAX || off + PTR_SZ + IDXLEN_SZ + len > |idx| then None else
    var body := ParseBody(idx[off + PTR_SZ + IDXLEN_SZ..off + PTR_SZ + IDXLEN_SZ + len]);
    if body.None? then None
    else Some(IdxRec(next, body.value.0, body.value.1, body.value.2))
  }

  // ----- reading undoes writing

  lemma {:induction false} FindFirst(s: string, c: char, t: string)
    requires c !in s
    ensures Find(s + [c] + t, c) == |s|
  {
    var w := s + [c] + t;
    assert w[|s|] == c && w[..|s|] == s;
    assert forall i :: 0 <= i < |s| ==> w[i] == s[i];
  }

  lemma FindNone(s: string, c: char)
    requires c !in s
    ensures Find(s, c) == |s|
  {
  }

  lemma DigitsHaveNoSep(s: string)
    requires AllDigits(s)
    ensures SEP !in s
  {
  }

  lemma AtolOfDecimal(n: nat)
    ensures Atol(Decimal(n)) == n
  {
    AtolOfPadded(n, 0);
  }

  /**
   * A record's text is read back as the same key, offset and length exactly
   * when the key holds no separator.
   */
  lemma {:induction false} BodyRoundTrip(key: string, datoff: nat, datlen: nat)
    requires 1 <= datlen <= DATLEN_MAX
    ensures ParseBody(BodyText(key, datoff, datlen)) == Some((key, datoff, datlen)) <==> SEP !in key
  {
    hide Decimal, Atol;
    var body := BodyText(key, datoff, datlen);
    var s := body[..|body| - 1];
    var o, l := Decimal(datoff), Decimal(datlen);
    assert s == key + [SEP] + (o + [SEP] + l);
    if SEP !in key {
      FindFirst(key, SEP, o + [SEP] + l);
      var t := s[|key| + 1..];
      assert t == o + [SEP] + l;
      DigitsHaveNoSep(o);
      FindFirst(o, SEP, l);
      assert t[|o| + 1..] == l && t[..|o|] == o && s[..|key|] == key;
      DigitsHaveNoSep(l);
      FindNone(l, SEP);
      AtolOfDecimal(datoff);
      AtolOfDecimal(datlen);
    }
  }

  /** A line of three fields apart by two separators. */
  ghost predicate Fields(body: string, key: string, t: string, u: string) {
    body == key + ":" + t + ":" + u + "\n" && ':' !in key && ':' !in t && ':' !in u
  }

  /** Any such line is taken, whatever the two numbers look like, when they are in range. */
  lemma {:induction false} FieldsRead(body: string, key: string, t: string, u: string)
    requires Fields(body, key, t, u)
    ensures ParseBody(body) ==
      if Atol(t) >= 0 && 1 <= Atol(u) <= 1024 then Some((key, Atol(t), Atol(u))) else None
  {
    hide Atol;
    var s := body[..|body| - 1];
    assert s == key + [SEP] + (t + [SEP] + u);
    FindFirst(key, SEP, t + [SEP] + u);
    var rest := s[|key| + 1..];
    assert rest == t + [SEP] + u && s[..|key|] == key;
    FindFirst(t, SEP, u);
    assert rest[|t| + 1..] == u && rest[..|t|] == t;
    FindNone(u, SEP);
  }

  /** And only such lines are. */
  lemma {:induction false} ReadHasFields(body: string) returns (t: string, u: string)
    requires ParseBody(body).Some?
    ensures Fields(body, ParseBody(body).value.0, t, u)
  {
    hide Atol, Find;
    var s := body[..|body| - 1];
    CutAtSep(s);
    var rest := s[Find(s, SEP) + 1..];
    CutAtSep(rest);
    t, u := rest[..Find(rest, SEP)], rest[Find(rest, SEP) + 1..];
    assert u == u[..Find(u, SEP)];
    var key := s[..Find(s, SEP)];
    assert body == s + "\n" && s == key + ":" + rest && rest == t + ":" + u;
    assert key + ":" + (t + ":" + u) == key + ":" + t + ":" + u;
  }

  lemma {:induction false} CutAtSep(s: string)
    requires Find(s, SEP) < |s|
    ensures var i := Find(s, SEP); s == s[..i] + ":" + s[i + 1..] && ':' !in s[..i]
  {
    hide Find;
    var i := Find(s, SEP);
    assert s == s[..i] + [s[i]] + s[i + 1..];
  }

  lemma SliceOfSlice<T>(s: seq<T>, off: nat, n: nat, a: nat, b: nat)
    requires a <= b <= n && off + n <= |s|
    ensures s[off..off + n][a..b] == s[off + a..off + b]
  {
    var x, y := s[off..off + n][a..b], s[off + a..off + b];
    assert |x| == |y|;
    assert forall i :: 0 <= i < |y| ==> x[i] == y[i];
  }

  lemma PtrRoundTrip(p: nat)
    requires p <= PTR_MAX
    ensures Atol(PtrText(p)) == p
  {
    AtolOfPadded(p, PTR_SZ);
  }

  lemma RecTextParts(r: IdxRec)
    requires Writable(r)
    ensures RecText(r)[0..PTR_SZ] == PtrText(r.next)
    ensures RecText(r)[PTR_SZ..PTR_SZ + IDXLEN_SZ] == PadLeft(Decimal(RecSize(r) - PTR_SZ - IDXLEN_SZ), IDXLEN_SZ)
    ensures RecText(r)[PTR_SZ + IDXLEN_SZ..RecSize(r)] == BodyText(r.key, r.datoff, r.datlen)
  {
    LenWidth(|BodyText(r.key, r.datoff, r.datlen)|);
  }

  /** The text of record r lies at an offset of the index file. */
  ghost predicate RecAt(idx: string, off: nat, r: IdxRec) {
    var body := BodyText(r.key, r.datoff, r.datlen);
    var p, q := off + PTR_SZ, off + PTR_SZ + IDXLEN_SZ;
    && Writable(r)
    && off + RecSize(r) <= |idx|
    && idx[off..p] == PtrText(r.next)
    && idx[p..q] == PadLeft(Decimal(|body|), IDXLEN_SZ)
    && idx[q..q + |body|] == body
  }

  lemma WrittenRecAt(idx: string, off: nat, r: IdxRec)
    requires Writable(r) && off + RecSize(r) <= |idx| && idx[off..off + RecSize(r)] == RecText(r)
    ensures RecAt(idx, off, r)
  {
    var n := RecSize(r);
    RecTextParts(r);
    SliceOfSlice(idx, off, n, 0, PTR_SZ);
    SliceOfSlice(idx, off, n, PTR_SZ, PTR_SZ + IDXLEN_SZ);
    SliceOfSlice(idx, off, n, PTR_SZ + IDXLEN_SZ, n);
  }

  /** A record found verbatim in the index file is read back field by field. */
  lemma {:induction false} RecRoundTrip(idx: string, off: nat, r: IdxRec)
    requires RecAt(idx, off, r) && SEP !in r.key && 1 <= r.datlen <= DATLEN_MAX
    ensures ReadRec(idx, off) == Some(r)
  {
    hide Atol, ParseBody, PadLeft, Decimal, BodyText, PtrText;
    PtrRoundTrip(r.next);
    AtolOfPadded(|BodyText(r.key, r.datoff, r.datlen)|, IDXLEN_SZ);
    BodyRoundTrip(r.key, r.datoff, r.datlen);
  }

  /** Blanking a key or moving it to another chain never changes the size of its record. */
  lemma SameSize(r: IdxRec, r': IdxRec)
    requires |r.key| == |r'.key| && r.datoff == r'.datoff && r.datlen == r'.datlen
    ensures RecSize(r) == RecSize(r')
  {
  }
}
