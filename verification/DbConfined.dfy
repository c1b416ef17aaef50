/**
 * A step of the concurrent store taken apart into the reads and writes it makes:
 * what it reads decides everything it does, and every read and every single
 * write lies in a region that its process has locked or in a record it owns.
 */
module DbConfined {
  import opened DbText
  import opened DbLayout
  import opened DbChains
  import opened DbView
  import opened DbEdits
  import opened DbSpec
  import opened DbConcurrent
  import opened DbConcurrentProof

  datatype Write =
    | PtrWrite(cell: nat, value: nat)
    | RecWrite(off: nat, rec: IdxRec)
    | DataWrite(at: nat, text: string)
    | DataAppend(text: string)
    | RecAppend(rec: IdxRec)

  function Apply(f: Files, w: Write): Files {
    match w
    case PtrWrite(cell, v) => f.(s := SetCell(f.s, cell, v))
    case RecWrite(off, r) => PutRec(f, off, r)
    case DataWrite(at, t) => f.(dat := WriteAt(f.dat, at, t))
    case DataAppend(t) => f.(dat := f.dat + t)
    case RecAppend(r) => AppendFiles(f, r)
  }

  function ApplyAll(f: Files, ws: seq<Write>): Files
    decreases |ws|
  {
    if ws == [] then f else ApplyAll(Apply(f, ws[0]), ws[1..])
  }

  function DeleteWrites(f: Files, off: nat, cell: nat): seq<Write> {
    var r := RecIn(f.s, off);
    [DataWrite(r.datoff, Blanks(|DataAt(f, off)|) + "\n"),
     RecWrite(off, IdxRec(Cell(f.s, 0), Blanks(|r.key|), r.datoff, r.datlen)),
     PtrWrite(0, off),
     PtrWrite(cell, r.next)]
  }

  function StoreWrites(f: Files, op: Op, pc: Pc): seq<Write>
    requires op.DoStore?
  {
    match pc
    case SameLen(off) => [DataWrite(RecIn(f.s, off).datoff, op.data + "\n")]
    case FreeBody(_) =>
      var c := Chain(f.l, FREE);
      var i := FindFit(f.s, c, |op.key|, |op.data| + 1, 0);
      if i < |c| then [PtrWrite(CellOf(FREE, c, i), RecIn(f.s, c[i]).next)] else []
    case Reuse(head, off) =>
      var datoff := RecIn(f.s, off).datoff;
      [DataWrite(datoff, op.data + "\n"), RecWrite(off, IdxRec(head, op.key, datoff, |op.data| + 1))]
    case DatBody(_) => [DataAppend(op.data + "\n")]
    case IdxBody(head, datoff) => [RecAppend(IdxRec(head, op.key, datoff, |op.data| + 1))]
    case Linking(off) => [PtrWrite(PTR_SZ * Slot(op), off)]
    case _ => []
  }

  /** The writes of a step, in the order the library makes them. */
  function Writes(f: Files, pr: Proc): seq<Write> {
    if pr.pc.DelBody? then DeleteWrites(f, pr.pc.off, pr.pc.cell)
    else if pr.op.DoStore? then StoreWrites(f, pr.op, pr.pc)
    else []
  }

  lemma ApplyOne(f: Files, w: Write)
    ensures ApplyAll(f, [w]) == Apply(f, w)
  {
    assert [w][1..] == [];
    assert ApplyAll(Apply(f, w), []) == Apply(f, w);
  }

  lemma ApplyTwo(f: Files, v: Write, w: Write)
    ensures ApplyAll(f, [v, w]) == Apply(Apply(f, v), w)
  {
    hide Apply;
    assert [v, w][1..] == [w];
    ApplyOne(Apply(f, v), w);
  }

  lemma ApplyDelete(f: Files, op: Op, off: nat, cell: nat)
    ensures DeleteFiles(f, op, off, cell) ==
      ApplyAll(f, DeleteWrites(f, off, cell)).(l := DeleteFiles(f, op, off, cell).l)
  {
    hide SetCell, Cell, WriteAt, DataAt, FindKey, ApplyAll;
    var ws := DeleteWrites(f, off, cell);
    assert ws[1..] == [ws[1], ws[2], ws[3]] && ws[1..][1..] == [ws[2], ws[3]];
    ApplyStep(f, ws);
    ApplyStep(Apply(f, ws[0]), ws[1..]);
    ApplyTwo(Apply(Apply(f, ws[0]), ws[1]), ws[2], ws[3]);
  }

  lemma ApplyStep(f: Files, ws: seq<Write>)
    requires ws != []
    ensures ApplyAll(f, ws) == ApplyAll(Apply(f, ws[0]), ws[1..])
  {
    hide Apply;
  }

  /** Up to the reading of the pointers as lists, a step is these writes and nothing else. */
  lemma {:induction false} StepWrites(sys: Sys, p: Pid)
    requires p in sys.procs
    ensures Act(sys, p).f == ApplyAll(sys.f, Writes(sys.f, sys.procs[p])).(l := Act(sys, p).f.l)
  {
    hide ApplyAll, DeleteFiles, DeleteWrites, WalkPc, StepMap, SetCell, Cell, WriteAt, RecSize, FindFit, RecIn, Chain,
      Slot, CellOf;
    var op, pc, f := sys.procs[p].op, sys.procs[p].pc, sys.f;
    ApplyNone(f);
    if pc.DelBody? {
      ApplyDelete(f, op, pc.off, pc.cell);
    } else if op.DoStore? {
      var ws := StoreWrites(f, op, pc);
      if |ws| == 1 {
        ApplyOne(f, ws[0]);
        assert ws == [ws[0]];
      } else if |ws| == 2 {
        ApplyTwo(f, ws[0], ws[1]);
        assert ws == [ws[0], ws[1]];
      }
    }
  }

  lemma ApplyNone(f: Files)
    ensures ApplyAll(f, []) == f
  {
  }

  // ----- reads

  /** The regions whose locks a process holds, for reading or for writing. */
  function Locked(pr: Proc): set<nat> {
    HeldW(pr) + if HoldsChain(pr) then {Slot(pr.op)} else {}
  }

  ghost predicate ListView(f: Files, g: Files, k: nat) {
    SameList(f, g, k) && forall o :: o in Chain(f.l, k) ==> SameRec(f, g, o)
  }

  /** The two states of the files are the same under the process's locks and in its own record. */
  ghost predicate SameView(f: Files, g: Files, pr: Proc) {
    && (forall k: nat :: k < SLOTS && k in Locked(pr) ==> ListView(f, g, k))
    && (IDX in Locked(pr) ==> g.eof == f.eof) && (DAT in Locked(pr) ==> |g.dat| == |f.dat|)
    && (pr.pc.Reuse? || pr.pc.Linking? ==> SameRec(f, g, pr.pc.off))
  }

  lemma {:induction false} FindFitSame(s: Shape, s': Shape, c: seq<nat>, keylen: nat, datlen: nat, i: nat)
    requires i <= |c| && forall o :: o in c ==> RecIn(s', o) == RecIn(s, o)
    ensures FindFit(s', c, keylen, datlen, i) == FindFit(s, c, keylen, datlen, i)
    decreases |c| - i
  {
    if i < |c| {
      FindFitSame(s, s', c, keylen, datlen, i + 1);
    }
  }

  lemma WalkSame(f: Files, g: Files, op: Op)
    requires ListView(f, g, Slot(op))
    ensures WalkPc(g, op) == WalkPc(f, op)
  {
    hide FindKey, Cell, CellOf, Hash, DataAt, RecIn;
    FindKeySame(f.s, g.s, Chain(f.l, Slot(op)), op.key, 0);
    FindKeyIs(f.s, Chain(f.l, Slot(op)), op.key);
  }

  lemma FindKeyIs(s: Shape, c: seq<nat>, key: string)
    ensures FindKey(s, c, key, 0) <= |c|
  {
  }

  /** The record found on the walk is on the chain, and the pointer to it is its cell. */
  lemma ChainRecord(f: Files, loose: set<nat>, op: Op, off: nat)
    requires Filed(f.s, f.l, loose) && Catalogue(f) && OnChain(f, op, off)
    ensures off in Chain(f.l, Slot(op)) && off in f.s.recs && off in f.l.slotOf && f.l.slotOf[off] == Slot(op)
    ensures RecIn(f.s, off).datlen == |DataAt(f, off)| + 1
  {
    hide Filed, Catalogue, Hash, DataAt;
    CatalogueFacts(f, loose, op.key);
  }

  lemma {:induction false} DeleteReads(f: Files, g: Files, loose: set<nat>, loose': set<nat>, op: Op, off: nat,
      cell: nat)
    requires Filed(f.s, f.l, loose) && Catalogue(f) && OnChain(f, op, off) && CellFor(f, op, cell)
    requires Filed(g.s, g.l, loose') && Catalogue(g) && OnChain(g, op, off) && CellFor(g, op, cell)
    requires ListView(f, g, Slot(op)) && ListView(f, g, FREE)
    ensures DeleteWrites(g, off, cell) == DeleteWrites(f, off, cell)
    ensures Cell(DeleteFiles(g, op, off, cell).s, PTR_SZ * Slot(op)) ==
      Cell(DeleteFiles(f, op, off, cell).s, PTR_SZ * Slot(op))
  {
    hide Filed, Catalogue, FindKey, Cell, DataAt, RecIn, CellFor, OnChain, Hash, DeletedShape;
    ChainRecord(f, loose, op, off);
    assert SameRec(f, g, off);
    HeadAfter(f, loose, op, off, cell);
    HeadAfter(g, loose', op, off, cell);
    assert SameList(f, g, FREE);
  }

  lemma HeadAfter(f: Files, loose: set<nat>, op: Op, off: nat, cell: nat)
    requires Filed(f.s, f.l, loose) && Catalogue(f) && OnChain(f, op, off) && CellFor(f, op, cell)
    ensures var k := Slot(op);
      Cell(DeleteFiles(f, op, off, cell).s, PTR_SZ * k) ==
        if cell == PTR_SZ * k then RecIn(f.s, off).next else Cell(f.s, PTR_SZ * k)
  {
    hide Catalogue, FindKey, CellFor, OnChain, Hash, Filed, DataAt;
    var k, c := Slot(op), Chain(f.l, Slot(op));
    DeleteSetup(f, loose, op, off, cell, k, c, FindKey(f.s, c, op.key, 0));
    HeadersOnly(f.s, f.l, loose);
    assert PTR_SZ * k !in f.s.recs && PTR_SZ * 0 !in f.s.recs;
    HeadAfterShape(f.s, off, cell, Blanks(|RecIn(f.s, off).key|), k);
  }

  lemma HeadAfterShape(s: Shape, off: nat, cell: nat, blank: string, k: nat)
    requires |s.heads| == SLOTS && off in s.recs && 1 <= k < SLOTS && PTR_SZ * k !in s.recs && 0 !in s.recs
    requires cell != off && (cell in s.recs || cell == PTR_SZ * k)
    ensures Cell(DeletedShape(s, off, cell, blank), PTR_SZ * k) ==
      if cell == PTR_SZ * k then RecIn(s, off).next else Cell(s, PTR_SZ * k)
  {
    assert PTR_SZ * k / PTR_SZ == k;
  }

  lemma {:induction false} FreeReads(f: Files, g: Files, op: Op)
    requires ListView(f, g, FREE) && op.DoStore?
    ensures var c := Chain(f.l, FREE);
      && Chain(g.l, FREE) == c
      && FindFit(g.s, c, |op.key|, |op.data| + 1, 0) == FindFit(f.s, c, |op.key|, |op.data| + 1, 0)
      && forall o :: o in c ==> RecIn(g.s, o) == RecIn(f.s, o)
  {
    hide FindFit, DataAt, RecIn;
    FindFitSame(f.s, g.s, Chain(f.l, FREE), |op.key|, |op.data| + 1, 0);
  }

  lemma {:induction false} StoreReads(sys: Sys, g: Files, p: Pid, op: Op, pc: Pc)
    requires p in sys.procs && sys.procs[p] == Proc(op, pc) && op.DoStore? && SameView(sys.f, g, Proc(op, pc))
    requires Filed(sys.f.s, sys.f.l, sys.owned.Keys) && Catalogue(sys.f) && ProcInv(sys.f, sys.m, Proc(op, pc))
    ensures StoreWrites(g, op, pc) == StoreWrites(sys.f, op, pc)
    ensures var sys' := ActStore(sys.(f := g), p, op, pc); sys' == ActStore(sys, p, op, pc).(f := sys'.f)
  {
    hide Filed, Catalogue, ProcInv, FindFit, DataAt, RecIn, Hash, RecSize, ListView, TakeFiles, LinkFiles, PutRec,
      Rewritten, CellOf;
    var f := sys.f;
    match pc
    case SameLen(off) =>
      ProcFacts(f, sys.m, Proc(op, pc));
      ChainRecord(f, sys.owned.Keys, op, off);
      assert ListView(f, g, Slot(op));
      ViewRec(f, g, Slot(op), off);
    case FreeBody(_) =>
      assert ListView(f, g, FREE);
      FreeReads(f, g, op);
    case _ =>
  }

  lemma ViewRec(f: Files, g: Files, k: nat, off: nat)
    requires ListView(f, g, k) && off in Chain(f.l, k)
    ensures SameRec(f, g, off)
  {
    hide SameRec;
  }

  /**
   * What a step does, and every value it writes, is decided by what lies under
   * its process's locks and in its own record: in any other state that is the
   * same there, it makes the same writes and the same move.
   */
  lemma {:induction false} ReadsConfined(sys: Sys, g: Files, p: Pid)
    requires p in sys.procs && SameView(sys.f, g, sys.procs[p])
    requires Inv(sys) && Inv(sys.(f := g))
    ensures Writes(g, sys.procs[p]) == Writes(sys.f, sys.procs[p])
    ensures var sys' := Act(sys.(f := g), p); sys' == Act(sys, p).(f := sys'.f)
  {
    hide Inv, Filed, Catalogue, ProcInv, LockInv, OwnInv, ClaimInv, Hash, WalkPc, ActStore, StoreWrites, DeleteWrites,
      DeleteFiles, Cell, StepMap, ListView, SameRec;
    var pr, f := sys.procs[p], sys.f;
    var op, pc := pr.op, pr.pc;
    InvProc(sys, p);
    InvProc(sys.(f := g), p);
    RemovesOnly(f, sys.m, pr);
    if pc.DelBody? {
      ProcFacts(f, sys.m, pr);
      ProcFacts(g, sys.m, pr);
      assert ListView(f, g, Slot(op)) && ListView(f, g, FREE);
      DeleteReads(f, g, sys.owned.Keys, sys.owned.Keys, op, pc.off, pc.cell);
    } else {
      if pc.Walk? {
        assert ListView(f, g, Slot(op));
        WalkSame(f, g, op);
      }
      if op.DoStore? {
        StoreReads(sys, g, p, op, pc);
      }
    }
  }

  // ----- writes

  ghost predicate PtrCovered(f: Files, slots: set<nat>, mine: set<nat>, cell: nat) {
    (exists k: nat :: k < SLOTS && k in slots && cell == PTR_SZ * k) ||
      (cell in f.s.recs && Touched(f, cell, slots, mine))
  }

  ghost predicate DataCovered(f: Files, slots: set<nat>, mine: set<nat>, at: nat, text: string) {
    exists off :: off in f.s.recs && Touched(f, off, slots, mine) && f.s.recs[off].datoff == at &&
      f.s.recs[off].datlen == |text|
  }

  /** The place written belongs to a locked list or end, or to a record that the process owns. */
  ghost predicate WriteCovered(f: Files, slots: set<nat>, mine: set<nat>, w: Write) {
    match w
    case PtrWrite(cell, _) => PtrCovered(f, slots, mine, cell)
    case RecWrite(off, r) => off in f.s.recs && Touched(f, off, slots, mine) && SameSpan(f.s.recs[off], r)
    case DataWrite(at, t) => DataCovered(f, slots, mine, at, t)
    case DataAppend(_) => DAT in slots
    case RecAppend(_) => IDX in slots
  }

  lemma {:induction false} DeleteCovered(f: Files, loose: set<nat>, op: Op, off: nat, cell: nat, mine: set<nat>)
    requires Filed(f.s, f.l, loose) && Catalogue(f) && OnChain(f, op, off) && CellFor(f, op, cell)
    ensures forall w :: w in DeleteWrites(f, off, cell) ==> WriteCovered(f, {Slot(op), FREE}, mine, w)
  {
    hide Filed, Catalogue, FindKey, CellFor, Hash, DataAt, Cell;
    ChainRecord(f, loose, op, off);
    DeleteSlots(f, loose, op, off, cell);
    var k, c := Slot(op), Chain(f.l, Slot(op));
    DeleteSetup(f, loose, op, off, cell, k, c, FindKey(f.s, c, op.key, 0));
    hide OnChain;
    var slots := {k, FREE};
    assert Touched(f, off, slots, mine);
    assert PtrCovered(f, slots, mine, 0) by { assert 0 == PTR_SZ * FREE; }
    assert PtrCovered(f, slots, mine, cell);
    assert DataCovered(f, slots, mine, RecIn(f.s, off).datoff, Blanks(|DataAt(f, off)|) + "\n");
  }

  lemma FreeCovered(f: Files, loose: set<nat>, op: Op, i: nat, slots: set<nat>, mine: set<nat>)
    requires Filed(f.s, f.l, loose) && i < |Chain(f.l, FREE)| && FREE in slots
    ensures PtrCovered(f, slots, mine, CellOf(FREE, Chain(f.l, FREE), i))
  {
    hide Filed;
    TakeCell(f.s, f.l, loose, i);
    assert 0 == PTR_SZ * FREE;
  }

  lemma {:induction false} StoreCovered(sys: Sys, p: Pid, op: Op, pc: Pc)
    requires p in sys.procs && sys.procs[p] == Proc(op, pc) && op.DoStore?
    requires Inv(sys)
    ensures forall w :: w in StoreWrites(sys.f, op, pc) ==> WriteCovered(sys.f, HeldW(Proc(op, pc)), Mine(sys, p), w)
  {
    hide Inv, Filed, Catalogue, ProcInv, LockInv, OwnInv, ClaimInv, Hash, FindFit, DataAt, CellOf, Mine;
    var f, slots, mine := sys.f, HeldW(Proc(op, pc)), Mine(sys, p);
    InvProc(sys, p);
    ProcFacts(f, sys.m, Proc(op, pc));
    if pc.Reuse? || pc.Linking? {
      OwnHere(sys, p);
      LooseRec(f.s, f.l, sys.owned.Keys, pc.off);
    }
    match pc
    case SameLen(off) =>
      ChainRecord(f, sys.owned.Keys, op, off);
      assert DataCovered(f, slots, mine, RecIn(f.s, off).datoff, op.data + "\n");
    case FreeBody(_) =>
      var c := Chain(f.l, FREE);
      var i := FindFit(f.s, c, |op.key|, |op.data| + 1, 0);
      if i < |c| {
        FreeCovered(f, sys.owned.Keys, op, i, slots, mine);
      }
    case Reuse(_, off) =>
      assert Touched(f, off, slots, mine);
      assert DataCovered(f, slots, mine, RecIn(f.s, off).datoff, op.data + "\n");
    case Linking(off) =>
      assert PtrCovered(f, slots, mine, PTR_SZ * Slot(op));
    case _ =>
  }

  lemma LooseRec(s: Shape, l: Lists, loose: set<nat>, off: nat)
    requires Filed(s, l, loose) && off in loose
    ensures off in s.recs
  {
  }

  /**
   * Every single write of every step lies in a region that its process has
   * write-locked or in a record it owns and that record's data.
   */
  lemma {:induction false} WritesConfined(sys: Sys, p: Pid)
    requires p in sys.procs
    requires Inv(sys)
    ensures forall w :: w in Writes(sys.f, sys.procs[p]) ==> WriteCovered(sys.f, HeldW(sys.procs[p]), Mine(sys, p), w)
  {
    hide Inv, Filed, Catalogue, ProcInv, LockInv, OwnInv, ClaimInv, Hash, StoreWrites, DeleteWrites, Mine, WriteCovered;
    var pr := sys.procs[p];
    InvProc(sys, p);
    RemovesOnly(sys.f, sys.m, pr);
    if pr.pc.DelBody? {
      ProcFacts(sys.f, sys.m, pr);
      DeleteCovered(sys.f, sys.owned.Keys, pr.op, pr.pc.off, pr.pc.cell, Mine(sys, p));
    } else if pr.op.DoStore? {
      StoreCovered(sys, p, pr.op, pr.pc);
    }
  }
}
