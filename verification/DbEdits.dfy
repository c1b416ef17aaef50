/**
 * What the library's multi-write edits do to the lists: deleting a record,
 * taking one off the free list, and putting a new one at the front of a chain.
 */
module DbEdits {
  import opened DbText
  import opened DbLayout
  import opened DbChains

  /** A shape after the writes of a deletion, in the order the library makes them. */
  function DeletedShape(s: Shape, off: nat, cell: nat, blank: string): Shape {
    var r := RecIn(s, off);
    var s1 := s.(recs := s.recs[off := IdxRec(Cell(s, 0), blank, r.datoff, r.datlen)]);
    SetCell(SetCell(s1, 0, off), cell, r.next)
  }

  function DeletedLists(l: Lists, k: nat, i: nat, off: nat, key: string): Lists {
    if k < |l.chains| then
      Lists(l.chains[k := Without(l.chains[k], i)][0 := [off] + l.chains[0]], l.slotOf[off := 0], l.where - {key})
    else l
  }

  /** Redirecting the predecessor first or last makes no difference. */
  lemma DeleteOrder(s: Shape, off: nat, cell: nat, blank: string)
    requires |s.heads| == SLOTS && off in s.recs && 0 !in s.recs && IsCell(s, cell) && cell != off && cell != 0
    ensures var r := IdxRec(s.heads[0], blank, s.recs[off].datoff, s.recs[off].datlen);
      var u1 := SetCell(s, cell, s.recs[off].next);
      var u2 := u1.(recs := u1.recs[off := r]);
      && |u2.heads| == SLOTS && u2.heads[0] == s.heads[0]
      && u2.(heads := u2.heads[0 := off]) == DeletedShape(s, off, cell, blank)
  {
  }

  lemma DeleteCells(s: Shape, l: Lists, loose: set<nat>, k: nat, i: nat)
    requires Filed(s, l, loose) && 1 <= k < SLOTS && i < |Chain(l, k)|
    ensures |s.heads| == SLOTS == |l.chains| && 0 !in s.recs
    ensures var off, cell := Chain(l, k)[i], CellOf(k, Chain(l, k), i);
      && off in s.recs && IsCell(s, cell) && cell != off && cell != 0
      && s.recs[off].next == At(Chain(l, k), i + 1)
  {
    CellLeadsTo(s, l, loose, k, i);
    assert Linked(s, k, l.chains[k]) && NoDup(l.chains[k]);
    assert LinkAt(s.recs, l.chains[k], i);
  }

  lemma {:induction false} DeleteFiled(s: Shape, l: Lists, loose: set<nat>, k: nat, i: nat, off: nat, blank: string,
      key: string)
    requires Filed(s, l, loose) && 1 <= k < SLOTS && i < |Chain(l, k)| && off == Chain(l, k)[i]
    ensures Filed(DeletedShape(s, off, CellOf(k, Chain(l, k), i), blank), DeletedLists(l, k, i, off, key), loose)
  {
    DeleteCells(s, l, loose, k, i);
    var c, cell := l.chains[k], CellOf(k, l.chains[k], i);
    var u1 := SetCell(s, cell, At(c, i + 1));
    var r := IdxRec(s.heads[0], blank, s.recs[off].datoff, s.recs[off].datlen);
    var u2 := u1.(recs := u1.recs[off := r]);
    var l1 := l.(chains := l.chains[k := Without(c, i)], slotOf := l.slotOf - {off});
    DeleteOrder(s, off, cell, blank);
    hide Filed, SetCell, Without, DeletedShape, CellOf, At;
    NotLoose(s, l, loose, k, i);
    Unlink(s, l, loose, k, i);
    ReRec(u1, l1, loose + {off}, off, r);
    PushOnly(u2, l1, loose + {off}, 0, off);
    assert loose + {off} - {off} == loose;
    assert l1.slotOf[off := 0] == l.slotOf[off := 0];
    SameExceptWhere(DeletedShape(s, off, cell, blank), loose,
      l1.(chains := l1.chains[0 := [off] + l1.chains[0]], slotOf := l1.slotOf[off := 0]),
        DeletedLists(l, k, i, off, key));
  }

  lemma NotLoose(s: Shape, l: Lists, loose: set<nat>, k: nat, i: nat)
    requires Filed(s, l, loose) && k < SLOTS && i < |Chain(l, k)|
    ensures Chain(l, k)[i] !in loose
  {
    assert Chain(l, k)[i] in l.slotOf.Keys;
  }

  lemma PushOnly(s: Shape, l: Lists, loose: set<nat>, k: nat, off: nat)
    requires Filed(s, l, loose) && off in loose && k < SLOTS
    requires |s.heads| == SLOTS == |l.chains| && RecIn(s, off).next == s.heads[k]
    ensures Filed(s.(heads := s.heads[k := off]),
                  l.(chains := l.chains[k := [off] + l.chains[k]], slotOf := l.slotOf[off := k]), loose - {off})
  {
    assert off in s.recs;
    Push(s, l, loose, k, off);
  }

  lemma ReRec(s: Shape, l: Lists, loose: set<nat>, off: nat, r: IdxRec)
    requires Filed(s, l, loose) && off in loose
    ensures Filed(s.(recs := s.recs[off := r]), l, loose)
  {
    assert off in s.recs;
    SetLoose(s, l, loose, off, r);
    assert loose + {off} == loose;
  }

  lemma SameExceptWhere(s: Shape, loose: set<nat>, l: Lists, l': Lists)
    requires Filed(s, l, loose) && l.chains == l'.chains && l.slotOf == l'.slotOf
    ensures Filed(s, l', loose)
  {
  }

  function InsertedShape(s: Shape, k: nat, off: nat, r: IdxRec): Shape {
    SetCell(s.(recs := s.recs[off := r]), PTR_SZ * k, off)
  }

  function InsertedLists(l: Lists, k: nat, off: nat, key: string): Lists {
    if k < |l.chains| then
      Lists(l.chains[k := [off] + l.chains[k]], l.slotOf[off := k], l.where[key := off])
    else l
  }

  lemma {:induction false} InsertFiled(s: Shape, l: Lists, loose: set<nat>, k: nat, off: nat, r: IdxRec, key: string)
    requires Filed(s, l, loose) && (off in loose || off !in s.recs) && off >= REC_START
    requires k < SLOTS && r.next == Cell(s, PTR_SZ * k)
    ensures Filed(InsertedShape(s, k, off, r), InsertedLists(l, k, off, key), loose - {off})
  {
    assert PTR_SZ * k !in s.recs && |s.heads| == SLOTS == |l.chains|;
    SetLoose(s, l, loose, off, r);
    assert loose + {off} - {off} == loose - {off};
    var s1 := s.(recs := s.recs[off := r]);
    assert PTR_SZ * k !in s1.recs && PTR_SZ * k / PTR_SZ == k;
    hide Filed;
    PushOnly(s1, l, loose + {off}, k, off);
    SameExceptWhere(InsertedShape(s, k, off, r), loose - {off},
      l.(chains := l.chains[k := [off] + l.chains[k]], slotOf := l.slotOf[off := k]), InsertedLists(l, k, off, key));
  }

  lemma NotFiled(s: Shape, l: Lists, loose: set<nat>, off: nat)
    requires Filed(s, l, loose) && (off in loose || off !in s.recs)
    ensures off !in l.slotOf
  {
    assert l.slotOf.Keys == s.recs.Keys - loose;
  }

  lemma TakeFreeFiled(s: Shape, l: Lists, loose: set<nat>, i: nat)
    requires Filed(s, l, loose) && i < |Chain(l, 0)|
    ensures var c := Chain(l, 0);
      && c[i] in s.recs && CellOf(0, c, i) != c[i]
      && (CellOf(0, c, i) in s.recs || CellOf(0, c, i) == 0)
      && var s' := SetCell(s, CellOf(0, c, i), RecIn(s, c[i]).next);
      c[i] in s'.recs && RecIn(s', c[i]) == RecIn(s, c[i]) && Filed(s', TakenLists(l, i), loose + {c[i]})
  {
    var c := l.chains[0];
    assert Linked(s, 0, c) && NoDup(c) && LinkAt(s.recs, c, i);
    assert i > 0 ==> LinkAt(s.recs, c, i - 1);
    hide Linked, LinkAt;
    Unlink(s, l, loose, 0, i);
    hide Filed;
  }

  lemma HeadersApart(s: Shape, cell: nat, v: nat)
    requires |s.heads| == SLOTS && (cell in s.recs || cell == 0) && forall off :: off in s.recs ==> off >= REC_START
    ensures forall k: nat :: 1 <= k < SLOTS ==> Cell(SetCell(s, cell, v), PTR_SZ * k) == Cell(s, PTR_SZ * k)
  {
  }

  function TakenLists(l: Lists, i: nat): Lists {
    if 0 < |l.chains| && i < |l.chains[0]| then
      l.(chains := l.chains[0 := Without(l.chains[0], i)], slotOf := l.slotOf - {l.chains[0][i]})
    else l
  }
}
