/**
 * The index file as a set of chain-pointer cells and records. A `Shape` is what
 * the bytes mean; each lemma shows that one primitive write of the library
 * (a pointer, a whole record in place, a record appended) takes a laid-out file
 * to a laid-out file with exactly the intended change of meaning.
 */
module DbLayout {
  import opened Options
  import opened DbText

  const NHASH: nat := 137
  /** Pointer cells in the header: the free list, then one for each hash chain. */
  const SLOTS: nat := NHASH + 1
  /** First index record: after the header and its newline. */
  const REC_START: nat := SLOTS * PTR_SZ + 1

  datatype Shape = Shape(heads: seq<nat>, recs: map<nat, IdxRec>)

  predicate RecOk(r: IdxRec) {
    SEP !in r.key && 1 <= r.datlen <= DATLEN_MAX
  }

  ghost predicate HeadAt(idx: string, i: nat, p: nat)
    requires REC_START <= |idx|
  {
    i < SLOTS && p <= PTR_MAX && idx[PTR_SZ * i..PTR_SZ * i + PTR_SZ] == PtrText(p)
  }

  ghost predicate RecordsAt(idx: string, recs: map<nat, IdxRec>) {
    forall off :: off in recs ==> REC_START <= off <= PTR_MAX && RecOk(recs[off]) && RecAt(idx, off, recs[off])
  }

  ghost predicate Apart(recs: map<nat, IdxRec>) {
    forall a, b :: a in recs && b in recs && a < b ==> a + RecSize(recs[a]) <= b
  }

  /** Records follow one another without gaps up to the end of the file. */
  ghost predicate Contiguous(end: nat, recs: map<nat, IdxRec>) {
    && (REC_START == end || REC_START in recs)
    && forall a :: a in recs ==> a + RecSize(recs[a]) == end || a + RecSize(recs[a]) in recs
  }

  ghost predicate Layout(idx: string, s: Shape) {
    && |s.heads| == SLOTS
    && REC_START <= |idx|
    && (forall i :: 0 <= i < SLOTS ==> HeadAt(idx, i, s.heads[i]))
    && RecordsAt(idx, s.recs)
    && Apart(s.recs)
    && Contiguous(|idx|, s.recs)
  }

  /** lseek and write inside the file. */
  function WriteAt(f: string, off: nat, t: string): (r: string)
    ensures |r| == |f|
    ensures off + |t| <= |f| ==> r[off..off + |t|] == t
  {
    if off + |t| <= |f| then f[..off] + t + f[off + |t|..] else f
  }

  lemma WriteFrame(f: string, off: nat, t: string, a: nat, b: nat)
    requires off + |t| <= |f| && a <= b <= |f|
    requires b <= off || off + |t| <= a
    ensures WriteAt(f, off, t)[a..b] == f[a..b]
  {
    var r := WriteAt(f, off, t);
    assert forall i :: a <= i < b ==> r[i] == f[i];
  }

  lemma RecFrame(f: string, off: nat, t: string, o: nat, r: IdxRec)
    requires off + |t| <= |f| && RecAt(f, o, r)
    requires o + RecSize(r) <= off || off + |t| <= o
    ensures RecAt(WriteAt(f, off, t), o, r)
  {
    WriteFrame(f, off, t, o, o + PTR_SZ);
    WriteFrame(f, off, t, o + PTR_SZ, o + PTR_SZ + IDXLEN_SZ);
    WriteFrame(f, off, t, o + PTR_SZ + IDXLEN_SZ, o + RecSize(r));
  }

  lemma RecSetNext(f: string, o: nat, r: IdxRec, v: nat)
    requires RecAt(f, o, r) && v <= PTR_MAX
    ensures RecAt(WriteAt(f, o, PtrText(v)), o, r.(next := v))
  {
    var t := PtrText(v);
    WriteFrame(f, o, t, o + PTR_SZ, o + PTR_SZ + IDXLEN_SZ);
    WriteFrame(f, o, t, o + PTR_SZ + IDXLEN_SZ, o + RecSize(r));
  }

  lemma HeadsFrame(f: string, off: nat, t: string, heads: seq<nat>, i: nat)
    requires |heads| == SLOTS && REC_START <= |f| && off + |t| <= |f| && i < SLOTS
    requires HeadAt(f, i, heads[i])
    requires PTR_SZ * i + PTR_SZ <= off || off + |t| <= PTR_SZ * i
    ensures HeadAt(WriteAt(f, off, t), i, heads[i])
  {
    WriteFrame(f, off, t, PTR_SZ * i, PTR_SZ * i + PTR_SZ);
  }

  /** Writing a header pointer changes that pointer and nothing else. */
  lemma {:induction false} SetHead(idx: string, s: Shape, k: nat, v: nat)
    requires Layout(idx, s) && k < SLOTS && v <= PTR_MAX
    ensures Layout(WriteAt(idx, PTR_SZ * k, PtrText(v)), s.(heads := s.heads[k := v]))
  {
    var t := PtrText(v);
    var idx' := WriteAt(idx, PTR_SZ * k, t);
    var heads' := s.heads[k := v];
    forall i | 0 <= i < SLOTS ensures HeadAt(idx', i, heads'[i]) {
      if i != k {
        HeadsFrame(idx, PTR_SZ * k, t, s.heads, i);
      }
    }
    forall off | off in s.recs ensures RecAt(idx', off, s.recs[off]) {
      RecFrame(idx, PTR_SZ * k, t, off, s.recs[off]);
    }
  }

  lemma SameSizes(recs: map<nat, IdxRec>, o: nat, r: IdxRec, end: nat)
    requires o in recs && RecSize(r) == RecSize(recs[o]) && Apart(recs) && Contiguous(end, recs)
    ensures Apart(recs[o := r]) && Contiguous(end, recs[o := r])
  {
    var recs' := recs[o := r];
    assert forall a :: a in recs ==> RecSize(recs'[a]) == RecSize(recs[a]);
  }

  lemma OneMore(recs: map<nat, IdxRec>, end: nat, r: IdxRec)
    requires Apart(recs) && Contiguous(end, recs)
    requires forall a :: a in recs ==> a + RecSize(recs[a]) <= end
    ensures Apart(recs[end := r]) && Contiguous(end + RecSize(r), recs[end := r])
  {
    var recs' := recs[end := r];
    assert forall a :: a in recs ==> a != end && recs'[a] == recs[a];
  }

  lemma InFile(idx: string, o: nat, r: IdxRec)
    requires RecAt(idx, o, r)
    ensures o + RecSize(r) <= |idx|
  {
  }

  /** Replacing a record's pointer, or its whole text by one of equal size. */
  lemma {:induction false} SetRec(idx: string, s: Shape, o: nat, r: IdxRec, off: nat, t: string)
    requires Layout(idx, s) && o in s.recs && RecOk(r) && RecSize(r) == RecSize(s.recs[o])
    requires o <= off && off + |t| <= o + RecSize(r)
    requires RecAt(WriteAt(idx, off, t), o, r)
    ensures Layout(WriteAt(idx, off, t), s.(recs := s.recs[o := r]))
  {
    hide RecAt, RecOk, RecSize, Contiguous;
    InFile(idx, o, s.recs[o]);
    var idx' := WriteAt(idx, off, t);
    var recs' := s.recs[o := r];
    forall i | 0 <= i < SLOTS ensures HeadAt(idx', i, s.heads[i]) {
      HeadsFrame(idx, off, t, s.heads, i);
    }
    forall a | a in recs' ensures REC_START <= a <= PTR_MAX && RecOk(recs'[a]) && RecAt(idx', a, recs'[a]) {
      if a != o {
        RecFrame(idx, off, t, a, s.recs[a]);
      }
    }
    SameSizes(s.recs, o, r, |idx|);
  }

  lemma SetNext(idx: string, s: Shape, o: nat, v: nat)
    requires Layout(idx, s) && o in s.recs && v <= PTR_MAX
    ensures Layout(WriteAt(idx, o, PtrText(v)), s.(recs := s.recs[o := s.recs[o].(next := v)]))
  {
    RecSetNext(idx, o, s.recs[o], v);
    SetRec(idx, s, o, s.recs[o].(next := v), o, PtrText(v));
  }

  lemma Rewrite(idx: string, s: Shape, o: nat, r: IdxRec)
    requires Layout(idx, s) && o in s.recs && RecOk(r) && Writable(r) && RecSize(r) == RecSize(s.recs[o])
    ensures Layout(WriteAt(idx, o, RecText(r)), s.(recs := s.recs[o := r]))
  {
    WrittenRecAt(WriteAt(idx, o, RecText(r)), o, r);
    SetRec(idx, s, o, r, o, RecText(r));
  }

  lemma ExtendRec(f: string, t: string, o: nat, r: IdxRec)
    requires RecAt(f, o, r)
    ensures RecAt(f + t, o, r)
  {
    var p, q := o + PTR_SZ, o + PTR_SZ + IDXLEN_SZ;
    assert (f + t)[o..p] == f[o..p];
    assert (f + t)[p..q] == f[p..q];
    assert (f + t)[q..o + RecSize(r)] == f[q..o + RecSize(r)];
  }

  /** Appending a record to the end of the file. */
  lemma {:induction false} Append(idx: string, s: Shape, r: IdxRec)
    requires Layout(idx, s) && RecOk(r) && Writable(r) && |idx| <= PTR_MAX
    ensures |idx| !in s.recs
    ensures Layout(idx + RecText(r), s.(recs := s.recs[|idx| := r]))
  {
    hide RecOk, RecText, Contiguous, Apart;
    var t := RecText(r);
    var idx' := idx + t;
    var recs' := s.recs[|idx| := r];
    forall i | 0 <= i < SLOTS ensures HeadAt(idx', i, s.heads[i]) {
      assert idx'[PTR_SZ * i..PTR_SZ * i + PTR_SZ] == idx[PTR_SZ * i..PTR_SZ * i + PTR_SZ];
    }
    assert idx'[|idx|..|idx| + RecSize(r)] == t;
    WrittenRecAt(idx', |idx|, r);
    forall a | a in recs' ensures REC_START <= a <= PTR_MAX && RecOk(recs'[a]) && RecAt(idx', a, recs'[a]) {
      if a != |idx| {
        ExtendRec(idx, t, a, s.recs[a]);
      }
    }
    OneMore(s.recs, |idx|, r);
  }

  /** The record at an offset; a blank one when there is none. */
  function RecIn(s: Shape, off: nat): IdxRec {
    if off in s.recs then s.recs[off] else IdxRec(0, "", 0, 0)
  }

  lemma ReadsBack(idx: string, s: Shape, off: nat)
    requires Layout(idx, s) && off in s.recs
    ensures ReadRec(idx, off) == Some(s.recs[off])
    ensures RecOk(s.recs[off]) && Writable(s.recs[off])
  {
    hide RecAt, ReadRec, Writable, BodyText;
    RecRoundTrip(idx, off, s.recs[off]);
    AtIsWritable(idx, off, s.recs[off]);
  }

  lemma AtIsWritable(idx: string, off: nat, r: IdxRec)
    requires RecAt(idx, off, r)
    ensures Writable(r)
  {
  }

  // ----- pointer cells

  /** A chain pointer lives in a header cell or at the front of a record. */
  predicate IsCell(s: Shape, o: nat) {
    o in s.recs || (o < REC_START - 1 && o % PTR_SZ == 0)
  }

  function Cell(s: Shape, o: nat): nat {
    if o in s.recs then s.recs[o].next
    else if o / PTR_SZ < |s.heads| then s.heads[o / PTR_SZ]
    else 0
  }

  function SetCell(s: Shape, o: nat, v: nat): Shape {
    if o in s.recs then s.(recs := s.recs[o := s.recs[o].(next := v)])
    else if o / PTR_SZ < |s.heads| then s.(heads := s.heads[o / PTR_SZ := v])
    else s
  }

  lemma ReadCell(idx: string, s: Shape, o: nat)
    requires Layout(idx, s) && IsCell(s, o)
    ensures o + PTR_SZ <= |idx| && Numerals.Atol(idx[o..o + PTR_SZ]) == Cell(s, o)
  {
    if o in s.recs {
      PtrRoundTrip(s.recs[o].next);
    } else {
      var i := o / PTR_SZ;
      assert HeadAt(idx, i, s.heads[i]);
      PtrRoundTrip(s.heads[i]);
    }
  }

  lemma WriteCell(idx: string, s: Shape, o: nat, v: nat)
    requires Layout(idx, s) && IsCell(s, o) && v <= PTR_MAX
    ensures o + PTR_SZ <= |idx| && Layout(WriteAt(idx, o, PtrText(v)), SetCell(s, o, v))
  {
    if o in s.recs {
      SetNext(idx, s, o, v);
    } else {
      assert o == PTR_SZ * (o / PTR_SZ);
      SetHead(idx, s, o / PTR_SZ, v);
    }
  }

  /** The file that creating a database writes: all pointers zero, no records. */
  function Blank(): string {
    Pointers(SLOTS) + "\n"
  }

  function Pointers(n: nat): (s: string)
    ensures |s| == PTR_SZ * n
  {
    if n == 0 then [] else Pointers(n - 1) + PtrText(0)
  }

  lemma {:induction false} PointersAt(n: nat, i: nat)
    requires i < n
    ensures Pointers(n)[PTR_SZ * i..PTR_SZ * i + PTR_SZ] == PtrText(0)
  {
    var s := Pointers(n);
    if i < n - 1 {
      PointersAt(n - 1, i);
      assert s[PTR_SZ * i..PTR_SZ * i + PTR_SZ] == Pointers(n - 1)[PTR_SZ * i..PTR_SZ * i + PTR_SZ];
    } else {
      assert s[PTR_SZ * i..PTR_SZ * i + PTR_SZ] == PtrText(0);
    }
  }

  lemma BlankLayout()
    ensures Layout(Blank(), Shape(seq(SLOTS, i => 0), map[]))
  {
    var s := Shape(seq(SLOTS, i => 0), map[]);
    forall i | 0 <= i < SLOTS ensures HeadAt(Blank(), i, s.heads[i]) {
      PointersAt(SLOTS, i);
      assert Blank()[PTR_SZ * i..PTR_SZ * i + PTR_SZ] == Pointers(SLOTS)[PTR_SZ * i..PTR_SZ * i + PTR_SZ];
    }
  }
}
