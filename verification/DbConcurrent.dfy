/**
 * Any number of processes using one store at once, each step being what one
 * process does between two lock calls. Records are filed, freed and owned as in
 * the sequential store, and data is read from and written to one data file at
 * the offsets that the records hold.
 */
module DbConcurrent {
  import opened Options
  import opened DbText
  import opened DbLayout
  import opened DbChains
  import opened DbView
  import opened DbEdits
  import opened DbSpec
  import Numerals

  type Pid = nat

  /** Lockable regions: header cells 0..SLOTS-1 and the two append regions. */
  const FREE: nat := 0
  const DAT: nat := SLOTS
  const IDX: nat := SLOTS + 1

  /** The two files: records, the lists through them, the end of the index, and the data file. */
  datatype Files = Files(s: Shape, l: Lists, eof: nat, dat: string)

  datatype Pc =
    | WaitChain
    | Walk
    | SameLen(off: nat)
    | DelWait(off: nat, cell: nat)
    | DelBody(off: nat, cell: nat)
    | FreeWait(head: nat)
    | FreeBody(head: nat)
    | Reuse(head: nat, off: nat)
    | DatWait(head: nat)
    | DatBody(head: nat)
    | IdxWait(head: nat, datoff: nat)
    | IdxBody(head: nat, datoff: nat)
    | Linking(off: nat)
    | Unlocking(reply: Reply)

  datatype Proc = Proc(op: Op, pc: Pc)
  datatype Commit = Commit(pid: Pid, op: Op, reply: Reply)

  /**
   * `m` is the abstract map and `log` the operations in the order they took
   * effect; both are for the proof only, as is `owned`, which records who holds
   * a record that is on no list.
   */
  datatype Sys = Sys(f: Files, m: map<string, string>, writer: map<nat, Pid>, readers: map<Pid, nat>,
                     owned: map<nat, Pid>, procs: map<Pid, Proc>, log: seq<Commit>)

  function Slot(op: Op): (k: nat)
    ensures 1 <= k < SLOTS
  {
    1 + Hash(op.key)
  }

  predicate LegalCall(op: Op) {
    op.DoStore? ==> op.flag in {DB_INSERT, DB_REPLACE, DB_STORE} && DATLEN_MIN <= |op.data| + 1 <= DATLEN_MAX
  }

  // ----- locks

  predicate CanWrite(sys: Sys, r: nat) {
    r !in sys.writer && forall q :: q in sys.readers ==> sys.readers[q] != r
  }

  predicate HoldsChain(pr: Proc) { !pr.pc.WaitChain? }

  function HeldW(pr: Proc): set<nat> {
    if pr.pc.WaitChain? || pr.op.DoFetch? then {}
    else match pr.pc
      case DelBody(_, _) => {Slot(pr.op), FREE}
      case FreeBody(_) => {Slot(pr.op), FREE}
      case DatBody(_) => {Slot(pr.op), DAT}
      case IdxBody(_, _) => {Slot(pr.op), IDX}
      case _ => {Slot(pr.op)}
  }

  predicate Enabled(sys: Sys, p: Pid) {
    p in sys.procs &&
    match sys.procs[p].pc
    case WaitChain => if sys.procs[p].op.DoFetch? then Slot(sys.procs[p].op) !in sys.writer
      else CanWrite(sys, Slot(sys.procs[p].op))
    case DelWait(_, _) => CanWrite(sys, FREE)
    case FreeWait(_) => CanWrite(sys, FREE)
    case DatWait(_) => CanWrite(sys, DAT)
    case IdxWait(_, _) => CanWrite(sys, IDX)
    case _ => true
  }

  // ----- what one process does between lock calls

  function FindKey(s: Shape, c: seq<nat>, key: string, i: nat): (r: nat)
    requires i <= |c|
    ensures i <= r <= |c| && (r < |c| ==> RecIn(s, c[r]).key == key)
    ensures forall j :: i <= j < r ==> RecIn(s, c[j]).key != key
    decreases |c| - i
  {
    if i == |c| || RecIn(s, c[i]).key == key then i else FindKey(s, c, key, i + 1)
  }

  function FindFit(s: Shape, c: seq<nat>, keylen: nat, datlen: nat, i: nat): (r: nat)
    requires i <= |c|
    ensures i <= r <= |c|
    ensures r < |c| ==> |RecIn(s, c[r]).key| == keylen && RecIn(s, c[r]).datlen == datlen
    decreases |c| - i
  {
    if i == |c| || (|RecIn(s, c[i]).key| == keylen && RecIn(s, c[i]).datlen == datlen) then i
    else FindFit(s, c, keylen, datlen, i + 1)
  }

  /** The data of record `off`, read at its offset and length, without the newline. */
  function DataAt(f: Files, off: nat): string {
    Chopped(DataOf(RecIn(f.s, off), f.dat))
  }

  function Chopped(t: string): string { if t == [] then [] else t[..|t| - 1] }

  /** The decision taken after walking the hash chain. */
  function WalkPc(f: Files, op: Op): Pc {
    var k := Slot(op);
    var c := Chain(f.l, k);
    var i := FindKey(f.s, c, op.key, 0);
    if i == |c| then
      match op
      case DoFetch(_) => Unlocking(Fetched(None))
      case DoRemove(_) => Unlocking(Removed(-1))
      case DoStore(_, _, flag) =>
        if flag == DB_REPLACE then Unlocking(StoreDone(Missing)) else FreeWait(Cell(f.s, PTR_SZ * k))
    else
      match op
      case DoFetch(_) => Unlocking(Fetched(Some(DataAt(f, c[i]))))
      case DoRemove(_) => DelWait(c[i], CellOf(k, c, i))
      case DoStore(_, data, flag) =>
        if flag == DB_INSERT then Unlocking(StoreDone(AlreadyExists))
        else if RecIn(f.s, c[i]).datlen == |data| + 1 then SameLen(c[i])
        else DelWait(c[i], CellOf(k, c, i))
  }

  function Blanks(n: nat): string { Numerals.Repeat(' ', n) }

  /** The data file with the text of one record replaced. */
  function Rewritten(f: Files, off: nat, data: string): string {
    WriteAt(f.dat, RecIn(f.s, off).datoff, data + "\n")
  }

  function DeleteFiles(f: Files, op: Op, off: nat, cell: nat): Files {
    var k := Slot(op);
    var i := FindKey(f.s, Chain(f.l, k), op.key, 0);
    f.(s := DeletedShape(f.s, off, cell, Blanks(|RecIn(f.s, off).key|)),
       l := DeletedLists(f.l, k, i, off, op.key),
       dat := Rewritten(f, off, Blanks(|DataAt(f, off)|)))
  }

  function TakeFiles(f: Files, i: nat): Files {
    var c := Chain(f.l, FREE);
    if i < |c| then f.(s := SetCell(f.s, CellOf(FREE, c, i), RecIn(f.s, c[i]).next), l := TakenLists(f.l, i))
    else f
  }

  function PutRec(f: Files, off: nat, r: IdxRec): Files {
    f.(s := f.s.(recs := f.s.recs[off := r]))
  }

  /** A record past the end of the index, for data that is already in the data file. */
  function AppendFiles(f: Files, r: IdxRec): Files {
    PutRec(f, f.eof, r).(eof := f.eof + RecSize(r))
  }

  function LinkFiles(f: Files, op: Op, off: nat): Files {
    f.(s := SetCell(f.s, PTR_SZ * Slot(op), off), l := InsertedLists(f.l, Slot(op), off, op.key))
  }

  function Goto(sys: Sys, p: Pid, pc: Pc): Sys {
    if p in sys.procs then sys.(procs := sys.procs[p := sys.procs[p].(pc := pc)]) else sys
  }

  function Lock(sys: Sys, p: Pid, r: nat): Sys { sys.(writer := sys.writer[r := p]) }

  function Unlock(sys: Sys, r: nat): Sys { sys.(writer := sys.writer - {r}) }

  function ActFree(sys: Sys, p: Pid, op: Op, head: nat): Sys
    requires op.DoStore?
  {
    var f := sys.f;
    var c := Chain(f.l, FREE);
    var i := FindFit(f.s, c, |op.key|, |op.data| + 1, 0);
    if i < |c| then
      Goto(Unlock(sys.(f := TakeFiles(f, i), owned := sys.owned[c[i] := p]), FREE), p, Reuse(head, c[i]))
    else
      Goto(Unlock(sys, FREE), p, DatWait(head))
  }

  function ActStore(sys: Sys, p: Pid, op: Op, pc: Pc): Sys
    requires op.DoStore?
  {
    var f := sys.f;
    match pc
    case SameLen(off) =>
      Goto(sys.(f := f.(dat := Rewritten(f, off, op.data))), p, Unlocking(StoreDone(Stored)))
    case FreeWait(head) => Goto(Lock(sys, p, FREE), p, FreeBody(head))
    case FreeBody(head) => ActFree(sys, p, op, head)
    case Reuse(head, off) =>
      var r := IdxRec(head, op.key, RecIn(f.s, off).datoff, |op.data| + 1);
      Goto(sys.(f := PutRec(f, off, r).(dat := Rewritten(f, off, op.data))), p, Linking(off))
    case DatWait(head) => Goto(Lock(sys, p, DAT), p, DatBody(head))
    case DatBody(head) =>
      Goto(Unlock(sys.(f := f.(dat := f.dat + (op.data + "\n"))), DAT), p, IdxWait(head, |f.dat|))
    case IdxWait(head, datoff) => Goto(Lock(sys, p, IDX), p, IdxBody(head, datoff))
    case IdxBody(head, datoff) =>
      var r := IdxRec(head, op.key, datoff, |op.data| + 1);
      Goto(Unlock(sys.(f := AppendFiles(f, r), owned := sys.owned[f.eof := p]), IDX), p, Linking(f.eof))
    case Linking(off) =>
      Goto(sys.(f := LinkFiles(f, op, off), owned := sys.owned - {off}), p, Unlocking(StoreDone(Stored)))
    case _ => sys
  }

  function Act(sys: Sys, p: Pid): Sys
    requires p in sys.procs
  {
    var op, pc, f := sys.procs[p].op, sys.procs[p].pc, sys.f;
    match pc
    case WaitChain =>
      if op.DoFetch? then Goto(sys.(readers := sys.readers[p := Slot(op)]), p, Walk)
      else Goto(Lock(sys, p, Slot(op)), p, Walk)
    case Walk => Goto(sys, p, WalkPc(f, op))
    case DelWait(off, cell) => Goto(Lock(sys, p, FREE), p, DelBody(off, cell))
    case DelBody(off, cell) =>
      var f' := DeleteFiles(f, op, off, cell);
      Goto(Unlock(sys.(f := f'), FREE), p,
           if op.DoStore? then DatWait(Cell(f'.s, PTR_SZ * Slot(op))) else Unlocking(Removed(0)))
    case Unlocking(reply) =>
      sys.(m := StepMap(sys.m, op), log := sys.log + [Commit(p, op, reply)], procs := sys.procs - {p},
           writer := if op.DoFetch? then sys.writer else sys.writer - {Slot(op)},
           readers := sys.readers - {p})
    case _ => if op.DoStore? then ActStore(sys, p, op, pc) else sys
  }

  function Begin(sys: Sys, p: Pid, op: Op): Sys {
    sys.(procs := sys.procs[p := Proc(op, WaitChain)])
  }

  datatype Event = Call(pid: Pid, op: Op) | Run(pid: Pid)

  predicate Possible(sys: Sys, e: Event) {
    match e
    case Call(p, op) => p !in sys.procs && LegalCall(op)
    case Run(p) => Enabled(sys, p)
  }

  function Next(sys: Sys, e: Event): Sys
    requires Possible(sys, e)
  {
    match e
    case Call(p, op) => Begin(sys, p, op)
    case Run(p) => Act(sys, p)
  }

  // ----- invariant

  /** Records follow one another up to the end of the index, and their data regions do not overlap. */
  ghost predicate Extents(recs: map<nat, IdxRec>, eof: nat, n: nat) {
    Tiled(recs, eof) && Regions(recs, n)
  }

  ghost predicate Tiled(recs: map<nat, IdxRec>, eof: nat) {
    && eof >= REC_START
    && (forall off :: off in recs ==> off + RecSize(recs[off]) <= eof)
    && Apart(recs) && Contiguous(eof, recs)
  }

  /** The data of a record is all there, with its newline. */
  ghost predicate Whole(f: Files, off: nat) {
    var t := DataOf(RecIn(f.s, off), f.dat);
    t != [] && |t| == RecIn(f.s, off).datlen && t[|t| - 1] == '\n'
  }

  /** Every stored key has its record on its own chain, nothing else is chained, and free records are blank. */
  ghost predicate Catalogue(f: Files) {
    && Extents(f.s.recs, f.eof, |f.dat|)
    && (forall off :: off in f.s.recs ==> Whole(f, off))
    && (forall x :: x in f.l.where ==> Catalogued(f, x))
    && (forall off :: off in f.l.slotOf && f.l.slotOf[off] != 0 ==>
          RecIn(f.s, off).key in f.l.where && f.l.where[RecIn(f.s, off).key] == off)
    && (forall off :: off in f.l.slotOf && f.l.slotOf[off] == FREE ==> AllBlank(RecIn(f.s, off).key))
  }

  ghost predicate Catalogued(f: Files, x: string)
    requires x in f.l.where
  {
    var off := f.l.where[x];
    off in f.l.slotOf && f.l.slotOf[off] == 1 + Hash(x) && RecIn(f.s, off).key == x
  }

  /** What the files hold under key x, and what the abstract map says. */
  function Held(f: Files, x: string): Option<string> {
    if x in f.l.where then Some(DataAt(f, f.l.where[x])) else None
  }

  function Look(m: map<string, string>, x: string): Option<string> {
    if x in m then Some(m[x]) else None
  }

  ghost predicate LockInv(sys: Sys) {
    && (forall r :: r in sys.writer ==> sys.writer[r] in sys.procs && r in HeldW(sys.procs[sys.writer[r]]))
    && (forall p :: p in sys.procs ==> forall r :: r in HeldW(sys.procs[p]) ==> r in sys.writer && sys.writer[r] == p)
    && (forall p :: p in sys.readers ==> p in sys.procs && HoldsChain(sys.procs[p]) && sys.procs[p].op.DoFetch?)
    && (forall p :: p in sys.procs && HoldsChain(sys.procs[p]) && sys.procs[p].op.DoFetch? ==>
          p in sys.readers && sys.readers[p] == Slot(sys.procs[p].op))
    && (forall p :: p in sys.readers ==> sys.readers[p] !in sys.writer)
  }

  /** A process between its two appends has data in the data file that no record holds yet. */
  predicate HasClaim(pr: Proc) { pr.op.DoStore? && (pr.pc.IdxWait? || pr.pc.IdxBody?) }

  function ClaimOf(pr: Proc): IdxRec {
    if HasClaim(pr) then IdxRec(0, "", pr.pc.datoff, |pr.op.data| + 1) else IdxRec(0, "", 0, 0)
  }

  ghost predicate ClaimClear(recs: map<nat, IdxRec>, pr: Proc) {
    forall off :: off in recs ==> Disjoint(recs[off], ClaimOf(pr))
  }

  /** Such data overlaps neither a record's nor another process's. */
  ghost predicate ClaimInv(f: Files, procs: map<Pid, Proc>) {
    && (forall p :: p in procs && HasClaim(procs[p]) ==> ClaimClear(f.s.recs, procs[p]))
    && (forall p, q :: p in procs && q in procs && p != q && HasClaim(procs[p]) && HasClaim(procs[q]) ==>
          Disjoint(ClaimOf(procs[p]), ClaimOf(procs[q])))
  }

  predicate Owns(pr: Proc, off: nat) {
    (pr.pc.Reuse? || pr.pc.Linking?) && pr.pc.off == off
  }

  /** A record on no list belongs to exactly one process in the middle of a store. */
  ghost predicate OwnInv(sys: Sys) {
    && (forall off :: off in sys.owned ==> sys.owned[off] in sys.procs && Owns(sys.procs[sys.owned[off]], off))
    && (forall p :: p in sys.procs && (sys.procs[p].pc.Reuse? || sys.procs[p].pc.Linking?) ==>
          sys.procs[p].pc.off in sys.owned && sys.owned[sys.procs[p].pc.off] == p)
  }

  /** Is the process past a change of the files that the abstract map has not seen? */
  predicate MayDiffer(pc: Pc) {
    pc.DatWait? || pc.DatBody? || pc.IdxWait? || pc.IdxBody? || pc.Linking? || pc.Unlocking?
  }

  ghost predicate OnChain(f: Files, op: Op, off: nat) {
    op.key in f.l.where && f.l.where[op.key] == off
  }

  predicate Head(f: Files, op: Op, head: nat) {
    op.key !in f.l.where && Cell(f.s, PTR_SZ * Slot(op)) == head
  }

  predicate WillStore(m: map<string, string>, op: Op) {
    op.DoStore? && StoreRc(m, op.key, op.flag).Stored?
  }

  ghost predicate ProcInv(f: Files, m: map<string, string>, pr: Proc) {
    var op := pr.op;
    LegalCall(op) &&
    match pr.pc
    case WaitChain => true
    case Walk => true
    case SameLen(off) => WillStore(m, op) && OnChain(f, op, off) && |DataAt(f, off)| == |op.data|
    case DelWait(off, cell) => (op.DoRemove? || WillStore(m, op)) && OnChain(f, op, off) && CellFor(f, op, cell)
    case DelBody(off, cell) => (op.DoRemove? || WillStore(m, op)) && OnChain(f, op, off) && CellFor(f, op, cell)
    case FreeWait(head) => WillStore(m, op) && Head(f, op, head)
    case FreeBody(head) => WillStore(m, op) && Head(f, op, head)
    case Reuse(head, off) =>
      WillStore(m, op) && Head(f, op, head) && |RecIn(f.s, off).key| == |op.key| &&
        RecIn(f.s, off).datlen == |op.data| + 1
    case DatWait(head) => WillStore(m, op) && Head(f, op, head)
    case DatBody(head) => WillStore(m, op) && Head(f, op, head)
    case IdxWait(head, _) => WillStore(m, op) && Head(f, op, head) && DataOf(ClaimOf(pr), f.dat) == op.data + "\n"
    case IdxBody(head, _) => WillStore(m, op) && Head(f, op, head) && DataOf(ClaimOf(pr), f.dat) == op.data + "\n"
    case Linking(off) =>
      WillStore(m, op) && Head(f, op, RecIn(f.s, off).next) && RecIn(f.s, off).key == op.key &&
        DataAt(f, off) == op.data
    case Unlocking(reply) =>
      reply == StepReply(m, op) && Held(f, op.key) == Look(StepMap(m, op), op.key)
  }

  /** The cell found on the walk is still the one that leads to the key's record. */
  ghost predicate CellFor(f: Files, op: Op, cell: nat) {
    var c := Chain(f.l, Slot(op));
    cell == CellOf(Slot(op), c, FindKey(f.s, c, op.key, 0))
  }

  ghost predicate Agrees(sys: Sys) {
    forall x :: Held(sys.f, x) == Look(sys.m, x) || Busy(sys, x)
  }

  ghost predicate Busy(sys: Sys, x: string) {
    exists p :: p in sys.procs && MayDiffer(sys.procs[p].pc) && sys.procs[p].op.key == x
  }

  ghost predicate FilesInv(sys: Sys) {
    Filed(sys.f.s, sys.f.l, sys.owned.Keys) && Catalogue(sys.f)
  }

  ghost predicate Inv(sys: Sys) {
    && FilesInv(sys)
    && LockInv(sys)
    && OwnInv(sys)
    && ClaimInv(sys.f, sys.procs)
    && (forall p :: p in sys.procs ==> ProcInv(sys.f, sys.m, sys.procs[p]))
    && Agrees(sys)
  }

  // ----- facts about the files alone

  /** Walking a key's chain finds its record, and only when it is stored. */
  lemma KeyIndex(f: Files, loose: set<nat>, op: Op)
    requires Filed(f.s, f.l, loose) && Catalogue(f)
    ensures var c := Chain(f.l, Slot(op));
      var i := FindKey(f.s, c, op.key, 0);
      && (op.key in f.l.where <==> i < |c|)
      && (i < |c| ==> c[i] == f.l.where[op.key])
  {
    hide Hash, Threaded, NoDup, Extents, Whole;
    var k := Slot(op);
    var c := Chain(f.l, k);
    var i := FindKey(f.s, c, op.key, 0);
    if i < |c| {
      assert c[i] in f.l.slotOf && f.l.slotOf[c[i]] == k;
    }
    if op.key in f.l.where {
      assert Catalogued(f, op.key);
      assert f.l.where[op.key] in c;
    }
  }

  predicate SameWhere(l: Lists, l': Lists, x: string) {
    (x in l.where <==> x in l'.where) && (x in l.where ==> l'.where[x] == l.where[x])
  }

  ghost predicate Touched(f: Files, off: nat, slots: set<nat>, mine: set<nat>) {
    (off in f.l.slotOf && f.l.slotOf[off] in slots) || off in mine
  }

  ghost predicate SameRec(f: Files, f': Files, off: nat) {
    RecIn(f'.s, off) == RecIn(f.s, off) && DataAt(f', off) == DataAt(f, off)
  }

  ghost predicate SameList(f: Files, f': Files, k: nat) {
    Chain(f'.l, k) == Chain(f.l, k) && Cell(f'.s, PTR_SZ * k) == Cell(f.s, PTR_SZ * k)
  }

  /** Byte i of the data file belongs to a record on one of these lists or among these. */
  ghost predicate Covered(f: Files, i: nat, slots: set<nat>, mine: set<nat>) {
    exists off :: off in f.s.recs && Touched(f, off, slots, mine) && InRegion(f.s.recs[off], i)
  }

  predicate InRegion(r: IdxRec, i: nat) { r.datoff <= i < r.datoff + r.datlen }

  /** In the data file no other bytes were changed, and without its lock none added. */
  ghost predicate SameBytes(f: Files, f': Files, slots: set<nat>, mine: set<nat>) {
    && |f.dat| <= |f'.dat| && (DAT !in slots ==> |f'.dat| == |f.dat|)
    && (forall i: nat :: i < |f.dat| && f'.dat[i] != f.dat[i] ==> Covered(f, i, slots, mine))
  }

  /** No record went, and without the lock on the end of the index none was added. */
  ghost predicate SameOffsets(f: Files, f': Files, slots: set<nat>) {
    && f.s.recs.Keys <= f'.s.recs.Keys && f.eof <= f'.eof
    && (forall off :: off in f'.s.recs && off !in f.s.recs ==> off >= f.eof)
    && (IDX !in slots ==> f'.s.recs.Keys == f.s.recs.Keys && f'.eof == f.eof)
  }

  /**
   * A step changed nothing outside some regions and some loose records: not the
   * lists, not the records, not the data, and not the ends of the files.
   */
  ghost predicate Untouched(f: Files, f': Files, slots: set<nat>, mine: set<nat>) {
    && (forall k: nat :: k < SLOTS && k !in slots ==> SameList(f, f', k))
    && (forall off :: off in f.s.recs && !Touched(f, off, slots, mine) ==> SameRec(f, f', off))
    && (forall x :: 1 + Hash(x) !in slots ==> SameWhere(f.l, f'.l, x))
    && SameOffsets(f, f', slots)
    && SameBytes(f, f', slots, mine)
  }

  // ----- the extents of records

  predicate SameSpan(r: IdxRec, r': IdxRec) {
    |r'.key| == |r.key| && r'.datoff == r.datoff && r'.datlen == r.datlen
  }

  ghost predicate SameSpans(recs: map<nat, IdxRec>, recs': map<nat, IdxRec>) {
    recs'.Keys == recs.Keys && forall off :: off in recs ==> SameSpan(recs[off], recs'[off])
  }

  lemma {:induction false} ExtentsSame(recs: map<nat, IdxRec>, recs': map<nat, IdxRec>, eof: nat, n: nat)
    requires Extents(recs, eof, n) && SameSpans(recs, recs')
    ensures Extents(recs', eof, n)
  {
    hide Tiled, Disjoint;
    TiledSame(recs, recs', eof);
    forall a, b | a in recs' && b in recs' && a != b ensures Disjoint(recs'[a], recs'[b]) {
      assert SameSpan(recs[a], recs'[a]) && SameSpan(recs[b], recs'[b]);
      DisjointSpan(recs[a], recs[b], recs'[a], recs'[b]);
    }
  }

  lemma DisjointSpan(a: IdxRec, b: IdxRec, a': IdxRec, b': IdxRec)
    requires SameSpan(a, a') && SameSpan(b, b')
    ensures Disjoint(a', b') <==> Disjoint(a, b)
  {
  }

  lemma {:induction false} TiledSame(recs: map<nat, IdxRec>, recs': map<nat, IdxRec>, eof: nat)
    requires Tiled(recs, eof) && SameSpans(recs, recs')
    ensures Tiled(recs', eof)
  {
    hide RecSize;
    forall off | off in recs ensures RecSize(recs'[off]) == RecSize(recs[off]) {
      assert SameSpan(recs[off], recs'[off]);
      SameSize(recs[off], recs'[off]);
    }
    hide SameSpans;
  }

  lemma {:induction false} ExtentsMore(recs: map<nat, IdxRec>, eof: nat, n: nat, n': nat)
    requires Extents(recs, eof, n) && n <= n'
    ensures Extents(recs, eof, n')
  {
    hide RecSize;
  }

  lemma {:induction false} ExtentsAppend(recs: map<nat, IdxRec>, eof: nat, n: nat, r: IdxRec)
    requires Extents(recs, eof, n) && r.datoff + r.datlen <= n && forall off :: off in recs ==> Disjoint(recs[off], r)
    ensures eof !in recs && Extents(recs[eof := r], eof + RecSize(r), n)
  {
    hide Disjoint, Tiled;
    TiledAppend(recs, eof, r);
    var recs' := recs[eof := r];
    forall a, b | a in recs' && b in recs' && a != b ensures Disjoint(recs'[a], recs'[b]) {
      if a != eof && b != eof {
        assert Disjoint(recs[a], recs[b]);
      } else {
        DisjointSwaps(recs'[a], recs'[b]);
      }
    }
  }

  lemma DisjointSwaps(a: IdxRec, b: IdxRec)
    ensures Disjoint(a, b) <==> Disjoint(b, a)
  {
  }

  lemma {:induction false} TiledAppend(recs: map<nat, IdxRec>, eof: nat, r: IdxRec)
    requires Tiled(recs, eof)
    ensures eof !in recs && Tiled(recs[eof := r], eof + RecSize(r))
  {
    forall off | off in recs ensures off < off + RecSize(recs[off]) {
    }
    assert RecSize(r) > 0;
    hide RecSize;
  }

  /** Writing a record's data changes that data and no other. */
  lemma {:induction false} RewriteData(f: Files, off: nat, data: string)
    requires Regions(f.s.recs, |f.dat|) && off in f.s.recs && f.s.recs[off].datlen == |data| + 1
    ensures DataOf(f.s.recs[off], Rewritten(f, off, data)) == data + "\n"
    ensures |Rewritten(f, off, data)| == |f.dat|
    ensures forall o :: o in f.s.recs && o != off ==>
      DataOf(f.s.recs[o], Rewritten(f, off, data)) == DataOf(f.s.recs[o], f.dat)
  {
    hide WriteAt, DataOf, Regions;
    OverwriteData(f.s.recs, off, f.dat, data + "\n");
  }

  lemma RewriteBytes(f: Files, off: nat, data: string, slots: set<nat>, mine: set<nat>, f': Files)
    requires Regions(f.s.recs, |f.dat|) && off in f.s.recs && f.s.recs[off].datlen == |data| + 1
    requires Touched(f, off, slots, mine) && f'.dat == Rewritten(f, off, data)
    ensures SameBytes(f, f', slots, mine)
  {
    forall i: nat | i < |f.dat| && f'.dat[i] != f.dat[i] ensures Covered(f, i, slots, mine) {
      assert InRegion(f.s.recs[off], i);
    }
  }

  /** Data read at the same place is the same, whatever the record's pointer. */
  lemma DataOfSpan(r: IdxRec, r': IdxRec, dat: string)
    requires r'.datoff == r.datoff && r'.datlen == r.datlen
    ensures DataOf(r', dat) == DataOf(r, dat)
  {
  }

  lemma WholeData(f: Files, off: nat)
    requires Whole(f, off)
    ensures DataOf(RecIn(f.s, off), f.dat) == DataAt(f, off) + "\n" && |DataAt(f, off)| + 1 == RecIn(f.s, off).datlen
  {
  }

  lemma WrittenWhole(f: Files, off: nat, data: string)
    requires DataOf(RecIn(f.s, off), f.dat) == data + "\n" && RecIn(f.s, off).datlen == |data| + 1
    ensures Whole(f, off) && DataAt(f, off) == data
  {
  }

  lemma CatalogueFacts(f: Files, loose: set<nat>, x: string)
    requires Filed(f.s, f.l, loose) && Catalogue(f) && x in f.l.where
    ensures var off := f.l.where[x];
      && off in f.s.recs && off !in loose && off in f.l.slotOf && f.l.slotOf[off] == 1 + Hash(x)
      && RecIn(f.s, off).key == x && RecIn(f.s, off).datlen == |DataAt(f, off)| + 1
      && off in Chain(f.l, 1 + Hash(x))
  {
    hide Hash, Threaded, NoDup, Extents, Whole, DataAt;
    assert Catalogued(f, x);
    assert f.l.where[x] in f.l.slotOf.Keys;
    WholeData(f, f.l.where[x]);
  }

  lemma SpaceFacts(f: Files)
    requires Catalogue(f)
    ensures Extents(f.s.recs, f.eof, |f.dat|) && Regions(f.s.recs, |f.dat|) && f.eof >= REC_START
    ensures forall o :: o in f.s.recs ==> Whole(f, o)
  {
    hide Whole, Hash, AllBlank, Regions, RecSize, Apart, Contiguous;
  }

  lemma {:induction false} RewriteKeeps(f: Files, f': Files, off: nat, data: string)
    requires Extents(f.s.recs, f.eof, |f.dat|) && (forall o :: o in f.s.recs ==> Whole(f, o))
    requires off in f.s.recs && f.s.recs[off].datlen == |data| + 1 && SameSpans(f.s.recs, f'.s.recs)
    requires f'.dat == Rewritten(f, off, data) && f'.eof == f.eof
    ensures Extents(f'.s.recs, f'.eof, |f'.dat|) && DataAt(f', off) == data
    ensures forall o :: o in f.s.recs ==> Whole(f', o) && (o != off ==> DataAt(f', o) == DataAt(f, o))
  {
    RewriteData(f, off, data);
    ExtentsSame(f.s.recs, f'.s.recs, f.eof, |f.dat|);
    hide Extents, Rewritten, DataOf, DataAt, Whole;
    forall o | o in f.s.recs
      ensures Whole(f', o) && (o != off ==> DataAt(f', o) == DataAt(f, o)) && (o == off ==> DataAt(f', off) == data)
    {
      assert SameSpan(f.s.recs[o], f'.s.recs[o]);
      DataOfSpan(f.s.recs[o], f'.s.recs[o], f'.dat);
      if o != off {
        WholeData(f, o);
        WrittenWhole(f', o, DataAt(f, o));
      } else {
        WrittenWhole(f', off, data);
      }
    }
  }

  lemma {:induction false} SameSpace(f: Files, f': Files)
    requires Extents(f.s.recs, f.eof, |f.dat|) && (forall o :: o in f.s.recs ==> Whole(f, o))
    requires SameSpans(f.s.recs, f'.s.recs) && f'.dat == f.dat && f'.eof == f.eof
    ensures Extents(f'.s.recs, f'.eof, |f'.dat|)
    ensures forall o :: o in f.s.recs ==> Whole(f', o) && DataAt(f', o) == DataAt(f, o)
  {
    ExtentsSame(f.s.recs, f'.s.recs, f.eof, |f.dat|);
    hide Extents, DataOf, DataAt, Whole;
    forall o | o in f.s.recs ensures Whole(f', o) && DataAt(f', o) == DataAt(f, o) {
      assert SameSpan(f.s.recs[o], f'.s.recs[o]);
      DataOfSpan(f.s.recs[o], f'.s.recs[o], f.dat);
      WholeData(f, o);
      WrittenWhole(f', o, DataAt(f, o));
    }
  }

  /** Data read below the old end of the data file is the same after an append. */
  lemma GrownData(r: IdxRec, dat: string, t: string)
    requires r.datoff + r.datlen <= |dat|
    ensures DataOf(r, dat + t) == DataOf(r, dat)
  {
    var a, b := r.datoff, r.datoff + r.datlen;
    assert (dat + t)[a..b] == dat[a..b];
  }

  lemma {:induction false} GrowKeeps(f: Files, f': Files, t: string)
    requires Catalogue(f) && f' == f.(dat := f.dat + t)
    ensures Catalogue(f') && (forall o :: o in f.s.recs ==> DataAt(f', o) == DataAt(f, o))
    ensures Untouched(f, f', {DAT}, {})
  {
    hide Catalogue, Extents, DataOf, DataAt, Whole, Hash, Untouched, SameBytes;
    GrowSpace(f, f', t);
    GrowCatalogue(f, f');
    GrowUntouched(f, f', t);
  }

  lemma {:induction false} GrowSpace(f: Files, f': Files, t: string)
    requires Catalogue(f) && f' == f.(dat := f.dat + t)
    ensures Extents(f.s.recs, f.eof, |f'.dat|)
    ensures forall o :: o in f.s.recs ==> Whole(f', o) && DataAt(f', o) == DataAt(f, o)
  {
    ExtentsMore(f.s.recs, f.eof, |f.dat|, |f'.dat|);
    hide Tiled, DataOf, DataAt, Whole, Hash, AllBlank;
    forall o | o in f.s.recs ensures Whole(f', o) && DataAt(f', o) == DataAt(f, o) {
      assert f.s.recs[o].datoff + f.s.recs[o].datlen <= |f.dat|;
      GrownData(f.s.recs[o], f.dat, t);
      WholeData(f, o);
      WrittenWhole(f', o, DataAt(f, o));
    }
  }

  lemma GrowCatalogue(f: Files, f': Files)
    requires Catalogue(f) && f'.s == f.s && f'.l == f.l && f'.eof == f.eof
    requires Extents(f.s.recs, f.eof, |f'.dat|) && forall o :: o in f.s.recs ==> Whole(f', o)
    ensures Catalogue(f')
  {
    hide Extents, Whole, Hash, AllBlank;
    forall x | x in f'.l.where ensures Catalogued(f', x) {
      assert Catalogued(f, x);
    }
  }

  lemma GrowUntouched(f: Files, f': Files, t: string)
    requires f' == f.(dat := f.dat + t) && forall o :: o in f.s.recs ==> DataAt(f', o) == DataAt(f, o)
    ensures Untouched(f, f', {DAT}, {})
  {
    hide DataAt, Hash;
  }

  // ----- deletion

  lemma DeleteSetup(f: Files, loose: set<nat>, op: Op, off: nat, cell: nat, k: nat, c: seq<nat>, i: nat)
    requires Filed(f.s, f.l, loose) && Catalogue(f) && OnChain(f, op, off) && CellFor(f, op, cell)
    requires k == Slot(op) && c == Chain(f.l, k) && i == FindKey(f.s, c, op.key, 0)
    ensures i < |c| && c[i] == off && off in f.s.recs && cell == CellOf(k, c, i)
    ensures (cell in f.s.recs || cell == PTR_SZ * k) && cell != off && off !in loose
    ensures |f.s.heads| == SLOTS == |f.l.chains|
  {
    KeyIndex(f, loose, op);
    CatalogueFacts(f, loose, op.key);
    DeleteCells(f.s, f.l, loose, k, i);
    if 0 < i {
      assert Linked(f.s, k, c) && LinkAt(f.s.recs, c, i - 1);
    }
  }

  /** What deletion leaves alone, in one place: everything but its record and the pointer to it. */
  ghost predicate Deleted(f: Files, f': Files, op: Op, off: nat, cell: nat) {
    && f'.l.where == f.l.where - {op.key} && f'.l.slotOf == f.l.slotOf[off := 0]
    && f'.dat == Rewritten(f, off, Blanks(|DataAt(f, off)|)) && f'.eof == f.eof
    && f'.s.recs.Keys == f.s.recs.Keys && off in f.s.recs
    && SameSpan(RecIn(f.s, off), RecIn(f'.s, off)) && AllBlank(RecIn(f'.s, off).key)
    && (forall o :: o != off ==> RecIn(f'.s, o).(next := 0) == RecIn(f.s, o).(next := 0))
    && (forall o :: o != off && o != cell ==> RecIn(f'.s, o) == RecIn(f.s, o))
    && (forall k: nat :: 1 <= k < SLOTS && k != Slot(op) ==> SameList(f, f', k))
  }

  lemma {:induction false} DeleteKeeps(f: Files, loose: set<nat>, op: Op, off: nat, cell: nat)
    requires Filed(f.s, f.l, loose) && Catalogue(f) && OnChain(f, op, off) && CellFor(f, op, cell)
    ensures var f' := DeleteFiles(f, op, off, cell);
      Filed(f'.s, f'.l, loose) && Deleted(f, f', op, off, cell)
  {
    var k, c := Slot(op), Chain(f.l, Slot(op));
    var i := FindKey(f.s, c, op.key, 0);
    DeleteSetup(f, loose, op, off, cell, k, c, i);
    DeleteFiledHere(f.s, f.l, loose, k, i, off, cell, Blanks(|RecIn(f.s, off).key|), op.key);
    DeleteShapeHere(f, loose, op, off, cell, k, c, i);
  }

  lemma DeleteFiledHere(s: Shape, l: Lists, loose: set<nat>, k: nat, i: nat, off: nat, cell: nat, blank: string,
      key: string)
    requires Filed(s, l, loose) && 1 <= k < SLOTS && i < |Chain(l, k)| && off == Chain(l, k)[i] &&
      cell == CellOf(k, Chain(l, k), i)
    ensures Filed(DeletedShape(s, off, cell, blank), DeletedLists(l, k, i, off, key), loose)
  {
    hide Filed, DeletedShape, DeletedLists;
    DeleteFiled(s, l, loose, k, i, off, blank, key);
  }

  lemma DeleteShapeHere(f: Files, loose: set<nat>, op: Op, off: nat, cell: nat, k: nat, c: seq<nat>, i: nat)
    requires Filed(f.s, f.l, loose) && k == Slot(op) && c == Chain(f.l, k) && i == FindKey(f.s, c, op.key, 0)
    requires i < |c| && c[i] == off && off in f.s.recs && cell != off && |f.s.heads| == SLOTS == |f.l.chains|
    requires cell in f.s.recs || cell == PTR_SZ * k
    ensures Deleted(f, DeleteFiles(f, op, off, cell), op, off, cell)
  {
    hide Filed, FindKey, DeletedShape, Cell;
    HeadersOnly(f.s, f.l, loose);
    var blank := Blanks(|RecIn(f.s, off).key|);
    DeleteFrame(f.s, off, cell, blank, k);
    hide RecIn, Slot;
    var f' := DeleteFiles(f, op, off, cell);
    assert f'.s == DeletedShape(f.s, off, cell, blank);
    assert AllBlank(RecIn(f'.s, off).key);
    forall j: nat | 1 <= j < SLOTS && j != k ensures SameList(f, f', j) {
    }
  }

  lemma {:induction false} DeleteCatalogue(f: Files, f': Files, loose: set<nat>, op: Op, off: nat, cell: nat)
    requires Filed(f.s, f.l, loose) && Catalogue(f) && OnChain(f, op, off) && Deleted(f, f', op, off, cell)
    ensures Catalogue(f')
    ensures forall x :: x != op.key ==> Held(f', x) == Held(f, x)
  {
    hide Filed, Hash, AllBlank, SameList, Extents, Whole, DataAt, Rewritten;
    CatalogueFacts(f, loose, op.key);
    DeleteSpans(f, f', op, off, cell);
    RewriteKeeps(f, f', off, Blanks(|DataAt(f, off)|));
    forall x | x in f'.l.where ensures Catalogued(f', x) && f.l.where[x] != off && f.l.where[x] in f.s.recs {
      CatalogueFacts(f, loose, x);
    }
    forall o | o in f'.l.slotOf && f'.l.slotOf[o] != 0
      ensures RecIn(f'.s, o).key in f'.l.where && f'.l.where[RecIn(f'.s, o).key] == o
    {
      assert o != off && RecIn(f'.s, o).key == RecIn(f.s, o).key;
      assert RecIn(f.s, o).key != op.key;
    }
    forall o | o in f'.l.slotOf && f'.l.slotOf[o] == FREE ensures AllBlank(RecIn(f'.s, o).key) {
      assert o != off ==> RecIn(f'.s, o).key == RecIn(f.s, o).key;
    }
  }

  lemma DeleteSpans(f: Files, f': Files, op: Op, off: nat, cell: nat)
    requires Deleted(f, f', op, off, cell)
    ensures SameSpans(f.s.recs, f'.s.recs)
  {
    hide AllBlank, SameList, Rewritten;
    forall o | o in f.s.recs ensures SameSpan(f.s.recs[o], f'.s.recs[o]) {
      if o != off {
        assert RecIn(f'.s, o).(next := 0) == RecIn(f.s, o).(next := 0);
      }
    }
  }

  lemma DeleteUntouched(f: Files, f': Files, loose: set<nat>, op: Op, off: nat, cell: nat)
    requires Filed(f.s, f.l, loose) && Catalogue(f) && OnChain(f, op, off) && CellFor(f, op, cell)
    requires Deleted(f, f', op, off, cell)
    ensures Untouched(f, f', {Slot(op), FREE}, {})
  {
    hide Filed, Catalogue, FindKey, Hash, AllBlank, SameList, CellFor, RecIn, DataAt, Rewritten;
    DeleteSlots(f, loose, op, off, cell);
    DeleteBytes(f, f', loose, op, off, cell);
    var slots := {Slot(op), FREE};
    forall o | o in f.s.recs && !Touched(f, o, slots, {}) ensures SameRec(f, f', o) {
      assert o != off && o != cell;
    }
    forall x | 1 + Hash(x) !in slots ensures SameWhere(f.l, f'.l, x) {
      assert x != op.key;
    }
  }

  lemma DeleteBytes(f: Files, f': Files, loose: set<nat>, op: Op, off: nat, cell: nat)
    requires Filed(f.s, f.l, loose) && Catalogue(f) && OnChain(f, op, off) && Deleted(f, f', op, off, cell)
    requires off in f.l.slotOf && f.l.slotOf[off] == Slot(op)
    ensures SameBytes(f, f', {Slot(op), FREE}, {})
    ensures forall o :: o in f.s.recs && o != off ==> DataAt(f', o) == DataAt(f, o)
  {
    hide Filed, Catalogue, Hash, AllBlank, SameList, Rewritten, DataAt, Whole, Extents, Regions, SameBytes;
    CatalogueFacts(f, loose, op.key);
    var data := Blanks(|DataAt(f, off)|);
    SpaceFacts(f);
    RewriteBytes(f, off, data, {Slot(op), FREE}, {}, f');
    DeleteSpans(f, f', op, off, cell);
    RewriteKeeps(f, f', off, data);
  }

  /** The deleted record and the pointer to it are on the key's own chain. */
  lemma DeleteSlots(f: Files, loose: set<nat>, op: Op, off: nat, cell: nat)
    requires Filed(f.s, f.l, loose) && Catalogue(f) && OnChain(f, op, off) && CellFor(f, op, cell)
    ensures off in f.l.slotOf && f.l.slotOf[off] == Slot(op)
    ensures cell in f.s.recs ==> cell in f.l.slotOf && f.l.slotOf[cell] == Slot(op)
  {
    var k, c := Slot(op), Chain(f.l, Slot(op));
    var i := FindKey(f.s, c, op.key, 0);
    DeleteSetup(f, loose, op, off, cell, k, c, i);
    OnlyOneSlot(f.s, f.l, loose, k, i);
    HeadersOnly(f.s, f.l, loose);
    if 0 < i {
      OnlyOneSlot(f.s, f.l, loose, k, i - 1);
    }
  }

  lemma OnlyOneSlot(s: Shape, l: Lists, loose: set<nat>, k: nat, i: nat)
    requires Filed(s, l, loose) && k < SLOTS && i < |Chain(l, k)|
    ensures Chain(l, k)[i] in l.slotOf && l.slotOf[Chain(l, k)[i]] == k
  {
  }

  lemma HeadersOnly(s: Shape, l: Lists, loose: set<nat>)
    requires Filed(s, l, loose)
    ensures forall k: nat :: k < SLOTS ==> PTR_SZ * k !in s.recs
    ensures |s.heads| == SLOTS == |l.chains|
  {
  }

  lemma DeleteFrame(s: Shape, off: nat, cell: nat, blank: string, k: nat)
    requires |s.heads| == SLOTS && off in s.recs && (cell in s.recs || cell == PTR_SZ * k) && 1 <= k < SLOTS &&
      cell != off
    requires forall j: nat :: j < SLOTS ==> PTR_SZ * j !in s.recs
    ensures var s' := DeletedShape(s, off, cell, blank);
      && s'.recs.Keys == s.recs.Keys
      && RecIn(s', off) == IdxRec(Cell(s, 0), blank, RecIn(s, off).datoff, RecIn(s, off).datlen)
      && (forall o :: o != off ==> RecIn(s', o).(next := 0) == RecIn(s, o).(next := 0))
      && (forall o :: o != off && o != cell ==> RecIn(s', o) == RecIn(s, o))
      && (forall j: nat :: 1 <= j < SLOTS && j != k ==> Cell(s', PTR_SZ * j) == Cell(s, PTR_SZ * j))
  {
    assert 0 !in s.recs by { assert PTR_SZ * 0 !in s.recs; }
    assert forall j: nat :: j < SLOTS ==> PTR_SZ * j / PTR_SZ == j;
  }

  // ----- the other edits

  /** Same records up to chain pointers, same data, same keys on the chains. */
  ghost predicate SameContent(f: Files, f': Files) {
    && f'.dat == f.dat && f'.eof == f.eof && f'.l.where == f.l.where
    && f'.s.recs.Keys == f.s.recs.Keys
    && (forall o :: RecIn(f'.s, o).(next := 0) == RecIn(f.s, o).(next := 0))
  }

  lemma SetCellContent(s: Shape, cell: nat, v: nat)
    ensures SetCell(s, cell, v).recs.Keys == s.recs.Keys
    ensures forall o :: RecIn(SetCell(s, cell, v), o).(next := 0) == RecIn(s, o).(next := 0)
    ensures forall o :: o != cell ==> RecIn(SetCell(s, cell, v), o) == RecIn(s, o)
  {
  }

  lemma {:induction false} TakeKeeps(f: Files, loose: set<nat>, i: nat)
    requires Filed(f.s, f.l, loose) && Catalogue(f) && i < |Chain(f.l, FREE)|
    ensures var f', off := TakeFiles(f, i), Chain(f.l, FREE)[i];
      && Filed(f'.s, f'.l, loose + {off}) && off !in loose && off in f.l.slotOf && f.l.slotOf[off] == 0
      && SameContent(f, f') && f'.l.slotOf == f.l.slotOf - {off}
  {
    hide Catalogue, Placed, Threaded;
    var c := Chain(f.l, FREE);
    HeadersOnly(f.s, f.l, loose);
    TakeFreeFiled(f.s, f.l, loose, i);
    NotLoose(f.s, f.l, loose, FREE, i);
    OnlyOneSlot(f.s, f.l, loose, FREE, i);
    hide Filed, CellOf;
    SetCellContent(f.s, CellOf(FREE, c, i), RecIn(f.s, c[i]).next);
    hide SetCell, RecIn;
  }

  lemma TakeUntouched(f: Files, loose: set<nat>, i: nat)
    requires Filed(f.s, f.l, loose) && i < |Chain(f.l, FREE)|
    ensures Untouched(f, TakeFiles(f, i), {FREE}, {})
  {
    var c, f' := Chain(f.l, FREE), TakeFiles(f, i);
    var off, cell := c[i], CellOf(FREE, c, i);
    TakeCell(f.s, f.l, loose, i);
    hide Filed, Hash, CellOf;
    HeadersApart(f.s, cell, RecIn(f.s, off).next);
    SetCellContent(f.s, cell, RecIn(f.s, off).next);
    hide SetCell, RecIn, Cell;
    forall k: nat | k < SLOTS && k !in {FREE} ensures SameList(f, f', k) {
    }
    forall o | o in f.s.recs && !Touched(f, o, {FREE}, {}) ensures SameRec(f, f', o) {
      assert o != cell;
    }
  }

  lemma TakeCell(s: Shape, l: Lists, loose: set<nat>, i: nat)
    requires Filed(s, l, loose) && i < |Chain(l, FREE)|
    ensures var cell := CellOf(FREE, Chain(l, FREE), i);
      && |s.heads| == SLOTS == |l.chains|
      && (cell in s.recs || cell == 0) && (forall off :: off in s.recs ==> off >= REC_START)
      && (cell in s.recs ==> cell in l.slotOf && l.slotOf[cell] == FREE)
  {
    HeadersOnly(s, l, loose);
    TakeFreeFiled(s, l, loose, i);
    if 0 < i {
      OnlyOneSlot(s, l, loose, FREE, i - 1);
    }
  }

  lemma SameContentCatalogue(f: Files, f': Files)
    requires Catalogue(f) && SameContent(f, f')
    requires forall off :: off in f'.l.slotOf ==> off in f.l.slotOf && f'.l.slotOf[off] == f.l.slotOf[off]
    requires f.l.slotOf.Keys <= f.s.recs.Keys && forall x :: x in f.l.where ==> f.l.where[x] in f'.l.slotOf
    ensures Catalogue(f') && forall x :: Held(f', x) == Held(f, x)
  {
    hide Hash, Extents, Whole, DataAt;
    ContentSpans(f, f');
    SameSpace(f, f');
    forall x | x in f'.l.where ensures Catalogued(f', x) && f.l.where[x] in f.s.recs {
      assert Catalogued(f, x);
    }
    forall off | off in f'.l.slotOf && f'.l.slotOf[off] != 0
      ensures RecIn(f'.s, off).key in f'.l.where && f'.l.where[RecIn(f'.s, off).key] == off
    {
      assert RecIn(f'.s, off).key == RecIn(f.s, off).key;
    }
    forall off | off in f'.l.slotOf && f'.l.slotOf[off] == FREE ensures AllBlank(RecIn(f'.s, off).key) {
      assert RecIn(f'.s, off).key == RecIn(f.s, off).key;
    }
  }

  lemma ContentSpans(f: Files, f': Files)
    requires SameContent(f, f')
    ensures SameSpans(f.s.recs, f'.s.recs)
  {
    forall o | o in f.s.recs ensures SameSpan(f.s.recs[o], f'.s.recs[o]) {
      assert RecIn(f'.s, o).(next := 0) == RecIn(f.s, o).(next := 0);
    }
  }

  lemma SlotsAreRecs(s: Shape, l: Lists, loose: set<nat>)
    requires Filed(s, l, loose)
    ensures l.slotOf.Keys <= s.recs.Keys
  {
  }

  lemma TakeCatalogue(f: Files, loose: set<nat>, i: nat)
    requires Filed(f.s, f.l, loose) && Catalogue(f) && i < |Chain(f.l, FREE)|
    ensures Catalogue(TakeFiles(f, i)) && forall x :: Held(TakeFiles(f, i), x) == Held(f, x)
  {
    hide Filed, TakeFiles, Hash, Catalogue, SameContent, Held;
    TakeKeeps(f, loose, i);
    SlotsAreRecs(f.s, f.l, loose);
    forall x | x in f.l.where ensures f.l.where[x] in TakeFiles(f, i).l.slotOf {
      CatalogueFacts(f, loose, x);
      assert f.l.where[x] != Chain(f.l, FREE)[i];
    }
    SameContentCatalogue(f, TakeFiles(f, i));
  }

  /** Writing an index record that is on no list, an old one or one past the end. */
  lemma {:induction false} PutFiled(f: Files, f': Files, loose: set<nat>, off: nat, r: IdxRec)
    requires Filed(f.s, f.l, loose) && (off in loose || (off !in f.s.recs && off >= REC_START))
    requires f'.s == f.s.(recs := f.s.recs[off := r]) && f'.l == f.l
    ensures Filed(f'.s, f'.l, loose + {off}) && off !in f.l.slotOf && (off in loose ==> off in f.s.recs)
    ensures forall k: nat :: k < SLOTS ==> SameList(f, f', k)
  {
    hide Placed, Threaded, Hash;
    SetLoose(f.s, f.l, loose, off, r);
    NotFiled(f.s, f.l, loose, off);
    HeadersOnly(f.s, f.l, loose);
    forall k: nat | k < SLOTS ensures SameList(f, f', k) {
      assert PTR_SZ * k !in f.s.recs && PTR_SZ * k != off;
    }
  }

  /** An edit that leaves the lists and the keys on them as they are. */
  lemma CatalogueSame(f: Files, f': Files, loose: set<nat>)
    requires Filed(f.s, f.l, loose) && Catalogue(f) && f'.l == f.l
    requires forall o :: o in f.l.slotOf ==> RecIn(f'.s, o).key == RecIn(f.s, o).key
    requires Extents(f'.s.recs, f'.eof, |f'.dat|) && forall o :: o in f'.s.recs ==> Whole(f', o)
    ensures Catalogue(f')
  {
    hide Filed, Hash, Extents, Whole, RecIn;
    forall x | x in f'.l.where ensures Catalogued(f', x) {
      assert Catalogued(f, x);
    }
  }

  lemma HeldSame(f: Files, f': Files, loose: set<nat>, x: string, off: nat)
    requires Filed(f.s, f.l, loose) && Catalogue(f) && SameWhere(f.l, f'.l, x) &&
      (x in f.l.where ==> f.l.where[x] != off)
    requires forall o :: o in f.s.recs && o != off ==> DataAt(f', o) == DataAt(f, o)
    ensures Held(f', x) == Held(f, x)
  {
    hide Filed, Catalogue, DataAt, Hash;
    if x in f.l.where {
      CatalogueFacts(f, loose, x);
    }
  }

  /** Only record `off` changed, and no list. */
  lemma OnlyRec(f: Files, f': Files, loose: set<nat>, off: nat, slots: set<nat>, mine: set<nat>)
    requires f'.l == f.l && SameOffsets(f, f', slots) && SameBytes(f, f', slots, mine)
    requires forall k: nat :: k < SLOTS ==> SameList(f, f', k)
    requires forall o :: o in f.s.recs && o != off ==> SameRec(f, f', o)
    requires off in f.s.recs ==> Touched(f, off, slots, mine)
    ensures Untouched(f, f', slots, mine)
  {
    hide Hash, SameList, SameRec, SameOffsets, SameBytes;
  }

  /** A loose record and its data written anew, in the room they have. */
  lemma {:induction false} ReuseKeeps(f: Files, f': Files, loose: set<nat>, off: nat, r: IdxRec, data: string)
    requires Filed(f.s, f.l, loose) && Catalogue(f) && off in loose && SameSpan(RecIn(f.s, off), r) &&
      r.datlen == |data| + 1
    requires f' == PutRec(f, off, r).(dat := Rewritten(f, off, data))
    ensures Filed(f'.s, f'.l, loose) && Catalogue(f') && SameSpans(f.s.recs, f'.s.recs)
    ensures Untouched(f, f', {}, {off}) && DataAt(f', off) == data
    ensures forall x :: Held(f', x) == Held(f, x)
  {
    hide Filed, Hash, Whole, DataAt, Rewritten, Extents, SameBytes, SameOffsets, SameSpans, RecIn, SameRec, SameList,
      Catalogue;
    PutFiled(f, f', loose, off, r);
    assert loose + {off} == loose;
    ReuseSpace(f, f', off, r, data);
    OtherRecs(f, f', off, r);
    OnlyRec(f, f', loose, off, {}, {off});
    CatalogueSame(f, f', loose);
    forall x ensures Held(f', x) == Held(f, x) {
      if x in f.l.where {
        CatalogueFacts(f, loose, x);
      }
      HeldSame(f, f', loose, x, off);
    }
  }

  lemma OtherRecs(f: Files, f': Files, off: nat, r: IdxRec)
    requires f'.s == f.s.(recs := f.s.recs[off := r]) && off !in f.l.slotOf
    requires forall o :: o in f.s.recs && o != off ==> DataAt(f', o) == DataAt(f, o)
    ensures f'.s.recs.Keys == f.s.recs.Keys + {off}
    ensures forall o :: o in f.l.slotOf ==> RecIn(f'.s, o).key == RecIn(f.s, o).key
    ensures forall o :: o in f.s.recs && o != off ==> SameRec(f, f', o)
  {
    hide DataAt;
  }

  lemma {:induction false} ReuseSpace(f: Files, f': Files, off: nat, r: IdxRec, data: string)
    requires Catalogue(f) && off in f.s.recs && SameSpan(RecIn(f.s, off), r) && r.datlen == |data| + 1
    requires f' == PutRec(f, off, r).(dat := Rewritten(f, off, data))
    ensures Extents(f'.s.recs, f'.eof, |f'.dat|) && SameSpans(f.s.recs, f'.s.recs) && DataAt(f', off) == data
    ensures forall o :: o in f.s.recs ==> Whole(f', o) && (o != off ==> DataAt(f', o) == DataAt(f, o))
    ensures SameBytes(f, f', {}, {off}) && SameOffsets(f, f', {})
  {
    hide Catalogue, Whole, DataAt, Rewritten, Extents, Regions, SameBytes;
    SpaceFacts(f);
    assert Touched(f, off, {}, {off});
    RewriteBytes(f, off, data, {}, {off}, f');
    assert SameSpans(f.s.recs, f'.s.recs);
    hide Touched, RecIn;
    RewriteKeeps(f, f', off, data);
  }

  /** A record appended to the index for data that lies in the data file apart from all other data. */
  lemma {:induction false} AppendKeeps(f: Files, f': Files, loose: set<nat>, r: IdxRec, data: string)
    requires Filed(f.s, f.l, loose) && Catalogue(f) && f' == AppendFiles(f, r)
    requires DataOf(r, f.dat) == data + "\n" && r.datlen == |data| + 1 && forall off :: off in f.s.recs ==>
      Disjoint(f.s.recs[off], r)
    ensures f.eof !in loose && Filed(f'.s, f'.l, loose + {f.eof}) && Catalogue(f')
    ensures Untouched(f, f', {IDX}, {}) && DataAt(f', f.eof) == data
    ensures forall x :: Held(f', x) == Held(f, x)
  {
    hide Filed, Hash, Whole, DataAt, Extents, RecSize, DataOf, SameOffsets, SameBytes, RecIn, SameRec, SameList,
      Catalogue;
    AppendSpace(f, f', r, data);
    PutFiled(f, f', loose, f.eof, r);
    NotLoose1(f.s, f.l, loose, f.eof);
    OtherRecs(f, f', f.eof, r);
    OnlyRec(f, f', loose, f.eof, {IDX}, {});
    CatalogueSame(f, f', loose);
    forall x ensures Held(f', x) == Held(f, x) {
      if x in f.l.where {
        CatalogueFacts(f, loose, x);
      }
      HeldSame(f, f', loose, x, f.eof);
    }
  }

  lemma NotLoose1(s: Shape, l: Lists, loose: set<nat>, off: nat)
    requires Filed(s, l, loose) && off !in s.recs
    ensures off !in loose
  {
  }

  lemma InFile(r: IdxRec, dat: string)
    requires DataOf(r, dat) != []
    ensures r.datoff + r.datlen <= |dat|
  {
  }

  lemma {:induction false} AppendSpace(f: Files, f': Files, r: IdxRec, data: string)
    requires f' == AppendFiles(f, r)
    requires DataOf(r, f.dat) == data + "\n" && r.datlen == |data| + 1 && forall off :: off in f.s.recs ==>
      Disjoint(f.s.recs[off], r)
    requires Catalogue(f)
    ensures f.eof >= REC_START && f.eof !in f.s.recs && Extents(f'.s.recs, f'.eof, |f'.dat|)
    ensures forall o :: o in f'.s.recs ==> Whole(f', o)
    ensures (forall o :: o in f.s.recs ==> DataAt(f', o) == DataAt(f, o)) && DataAt(f', f.eof) == data
    ensures SameBytes(f, f', {IDX}, {}) && SameOffsets(f, f', {IDX})
  {
    hide Catalogue, Whole, DataAt, Extents, RecSize, DataOf, Regions, Disjoint, SameBytes, SameOffsets;
    assert |data + "\n"| > 0;
    InFile(r, f.dat);
    SpaceFacts(f);
    ExtentsAppend(f.s.recs, f.eof, |f.dat|, r);
    AppendEnds(f, f', r);
    assert RecIn(f'.s, f.eof) == r;
    WrittenWhole(f', f.eof, data);
    forall o | o in f.s.recs ensures Whole(f', o) && DataAt(f', o) == DataAt(f, o) {
      assert RecIn(f'.s, o) == RecIn(f.s, o);
      WholeData(f, o);
      WrittenWhole(f', o, DataAt(f, o));
    }
    hide RecIn;
  }

  lemma AppendEnds(f: Files, f': Files, r: IdxRec)
    requires f' == AppendFiles(f, r)
    ensures SameBytes(f, f', {IDX}, {}) && SameOffsets(f, f', {IDX})
  {
    hide RecSize;
  }

  /** Making a finished record the first of its chain. */
  lemma {:induction false} LinkKeeps(f: Files, loose: set<nat>, op: Op, off: nat)
    requires Filed(f.s, f.l, loose) && off in loose
    requires RecIn(f.s, off).next == Cell(f.s, PTR_SZ * Slot(op))
    ensures Filed(LinkFiles(f, op, off).s, LinkFiles(f, op, off).l, loose - {off})
  {
    var k := Slot(op);
    assert off in f.s.recs;
    assert f.s.recs[off := f.s.recs[off]] == f.s.recs;
    hide Filed;
    LooseStart(f.s, f.l, loose, off);
    InsertFiled(f.s, f.l, loose, k, off, f.s.recs[off], op.key);
  }

  lemma LooseStart(s: Shape, l: Lists, loose: set<nat>, off: nat)
    requires Filed(s, l, loose) && off in loose
    ensures off >= REC_START
  {
    assert off in s.recs;
  }

  ghost predicate Linked1(f: Files, f': Files, op: Op, off: nat) {
    && f'.dat == f.dat && f'.eof == f.eof && f'.s.recs == f.s.recs && off in f.s.recs && off !in f.l.slotOf
    && f'.l.where == f.l.where[op.key := off] && f'.l.slotOf == f.l.slotOf[off := Slot(op)]
  }

  lemma {:induction false} LinkUntouched(f: Files, loose: set<nat>, op: Op, off: nat)
    requires Filed(f.s, f.l, loose) && off in loose
    ensures Linked1(f, LinkFiles(f, op, off), op, off)
    ensures Untouched(f, LinkFiles(f, op, off), {Slot(op)}, {off})
  {
    var k, f' := Slot(op), LinkFiles(f, op, off);
    HeadersOnly(f.s, f.l, loose);
    NotFiled(f.s, f.l, loose, off);
    assert off in f.s.recs;
    hide Filed, Hash, DataOf;
    assert PTR_SZ * k / PTR_SZ == k;
    forall j: nat | j < SLOTS && j !in {k} ensures SameList(f, f', j) {
      assert PTR_SZ * j / PTR_SZ == j;
    }
  }

  lemma LinkCatalogue(f: Files, f': Files, loose: set<nat>, op: Op, off: nat)
    requires Filed(f.s, f.l, loose) && Catalogue(f) && Linked1(f, f', op, off)
    requires RecIn(f.s, off).key == op.key && op.key !in f.l.where
    ensures Catalogue(f')
    ensures forall x :: x != op.key ==> Held(f', x) == Held(f, x)
    ensures Held(f', op.key) == Some(DataAt(f, off))
  {
    hide Filed, Hash, Extents, DataOf;
    forall x | x in f'.l.where ensures Catalogued(f', x) {
      if x != op.key {
        CatalogueFacts(f, loose, x);
      }
    }
    forall o | o in f'.l.slotOf && f'.l.slotOf[o] != 0
      ensures RecIn(f'.s, o).key in f'.l.where && f'.l.where[RecIn(f'.s, o).key] == o
    {
      if o != off {
        assert RecIn(f.s, o).key in f.l.where;
      }
    }
  }

  /** Overwriting data of the same length in place. */
  lemma {:induction false} OverwriteKeeps(f: Files, f': Files, loose: set<nat>, op: Op, off: nat)
    requires Filed(f.s, f.l, loose) && Catalogue(f) && op.DoStore? && OnChain(f, op, off) &&
      |DataAt(f, off)| == |op.data|
    requires f' == f.(dat := Rewritten(f, off, op.data))
    ensures Catalogue(f') && Untouched(f, f', {Slot(op)}, {})
    ensures (forall x :: x != op.key ==> Held(f', x) == Held(f, x)) && Held(f', op.key) == Some(op.data)
  {
    hide Filed, Hash, Whole, DataAt, Rewritten, SameBytes, SameOffsets, Extents, RecIn, Catalogue;
    CatalogueFacts(f, loose, op.key);
    OverwriteSpace(f, f', op, off);
    OnlyRec(f, f', loose, off, {Slot(op)}, {});
    CatalogueSame(f, f', loose);
    forall x | x != op.key ensures Held(f', x) == Held(f, x) {
      if x in f.l.where {
        CatalogueFacts(f, loose, x);
      }
      HeldSame(f, f', loose, x, off);
    }
  }

  lemma {:induction false} OverwriteSpace(f: Files, f': Files, op: Op, off: nat)
    requires Catalogue(f) && op.DoStore? && off in f.s.recs && RecIn(f.s, off).datlen == |op.data| + 1
    requires off in f.l.slotOf && f.l.slotOf[off] == Slot(op) && f' == f.(dat := Rewritten(f, off, op.data))
    ensures Extents(f'.s.recs, f'.eof, |f'.dat|) && DataAt(f', off) == op.data
    ensures forall o :: o in f.s.recs ==> Whole(f', o) && (o != off ==> DataAt(f', o) == DataAt(f, o))
    ensures SameBytes(f, f', {Slot(op)}, {}) && SameOffsets(f, f', {Slot(op)})
  {
    hide Catalogue, Hash, Whole, DataAt, Rewritten, Extents, Regions, SameBytes;
    SpaceFacts(f);
    RewriteBytes(f, off, op.data, {Slot(op)}, {}, f');
    RewriteKeeps(f, f', off, op.data);
  }
}
