/** Every step of every process keeps the invariant; what that gives for whole runs. */
module DbConcurrentProof {
  import opened Options
  import opened DbText
  import opened DbLayout
  import opened DbChains
  import opened DbView
  import opened DbEdits
  import opened DbSpec
  import opened DbConcurrent

  // ----- a process relies only on what its locks and its own record cover

  ghost predicate SameChain(f: Files, f': Files, op: Op) {
    && SameList(f, f', Slot(op))
    && (forall o :: o in Chain(f.l, Slot(op)) ==> SameRec(f, f', o))
    && SameWhere(f.l, f'.l, op.key)
    && Held(f', op.key) == Held(f, op.key)
  }

  lemma {:induction false} FindKeySame(s: Shape, s': Shape, c: seq<nat>, key: string, i: nat)
    requires i <= |c| && forall o :: o in c ==> RecIn(s', o) == RecIn(s, o)
    ensures FindKey(s', c, key, i) == FindKey(s, c, key, i)
    decreases |c| - i
  {
    if i < |c| {
      FindKeySame(s, s', c, key, i + 1);
    }
  }

  lemma WhereData(f: Files, f': Files, loose: set<nat>, op: Op)
    requires Filed(f.s, f.l, loose) && Catalogue(f) && op.key in f.l.where
    requires forall o :: o in Chain(f.l, Slot(op)) ==> SameRec(f, f', o)
    ensures SameRec(f, f', f.l.where[op.key])
  {
    hide Filed, Catalogue, Hash, SameRec;
    CatalogueFacts(f, loose, op.key);
  }

  lemma UntouchedChain(f: Files, f': Files, loose: set<nat>, slots: set<nat>, mine: set<nat>, op: Op)
    requires Filed(f.s, f.l, loose) && Catalogue(f) && Untouched(f, f', slots, mine) && Slot(op) !in slots &&
      mine <= loose
    ensures SameChain(f, f', op)
  {
    hide Filed, Catalogue, Untouched, Hash, SameRec, SameList, DataAt;
    var k := Slot(op);
    var c := Chain(f.l, k);
    forall o | o in c ensures SameRec(f, f', o) {
      var i: nat :| i < |c| && c[i] == o;
      ChainRec(f, f', loose, slots, mine, k, i);
    }
    UntouchedList(f, f', slots, mine, op);
    if op.key in f.l.where {
      WhereData(f, f', loose, op);
      SameData(f, f', f.l.where[op.key]);
    }
  }

  lemma SameData(f: Files, f': Files, off: nat)
    requires SameRec(f, f', off)
    ensures DataAt(f', off) == DataAt(f, off)
  {
    hide DataAt;
  }

  lemma ChainRec(f: Files, f': Files, loose: set<nat>, slots: set<nat>, mine: set<nat>, k: nat, i: nat)
    requires Filed(f.s, f.l, loose) && Untouched(f, f', slots, mine) && k !in slots && mine <= loose && k < SLOTS &&
      i < |Chain(f.l, k)|
    ensures SameRec(f, f', Chain(f.l, k)[i])
  {
    hide Filed, Hash, SameRec, SameList, SameBytes, SameOffsets;
    OnlyOneSlot(f.s, f.l, loose, k, i);
    NotLoose(f.s, f.l, loose, k, i);
    InRecs(f.s, f.l, loose, k, i);
  }

  lemma UntouchedList(f: Files, f': Files, slots: set<nat>, mine: set<nat>, op: Op)
    requires Untouched(f, f', slots, mine) && Slot(op) !in slots
    ensures SameList(f, f', Slot(op)) && SameWhere(f.l, f'.l, op.key)
  {
    hide SameList, SameRec, SameBytes, SameOffsets, Hash, SameWhere;
  }

  lemma InRecs(s: Shape, l: Lists, loose: set<nat>, k: nat, i: nat)
    requires Filed(s, l, loose) && k < SLOTS && i < |Chain(l, k)|
    ensures Chain(l, k)[i] in s.recs
  {
    assert Linked(s, k, l.chains[k]) && LinkAt(s.recs, l.chains[k], i);
  }

  lemma {:induction false} ProcStable(f: Files, f': Files, loose: set<nat>, m: map<string, string>,
      m': map<string, string>, pr: Proc)
    requires ProcInv(f, m, pr)
    requires HoldsChain(pr) ==> SameChain(f, f', pr.op) && Look(m', pr.op.key) == Look(m, pr.op.key)
    requires Filed(f.s, f.l, loose) && Catalogue(f)
    requires pr.pc.Reuse? || pr.pc.Linking? ==> SameRec(f, f', pr.pc.off)
    requires HasClaim(pr) ==> DataOf(ClaimOf(pr), f'.dat) == DataOf(ClaimOf(pr), f.dat)
    ensures ProcInv(f', m', pr)
  {
    hide Filed, Catalogue, Hash, FindKey, Cell, CellOf, DataOf, ClaimOf, DataAt;
    if HoldsChain(pr) {
      FindKeySame(f.s, f'.s, Chain(f.l, Slot(pr.op)), pr.op.key, 0);
      if pr.op.key in f.l.where {
        WhereData(f, f', loose, pr.op);
      }
    }
  }

  /** The records that process p owns. */
  ghost function Mine(sys: Sys, p: Pid): set<nat> {
    set off | off in sys.owned && sys.owned[off] == p
  }

  /** Two processes never hold conflicting locks on a chain. */
  lemma ChainsApart(sys: Sys, p: Pid, q: Pid)
    requires LockInv(sys) && p in sys.procs && q in sys.procs && p != q && HoldsChain(sys.procs[q])
    ensures Slot(sys.procs[q].op) !in HeldW(sys.procs[p])
  {
    var k := Slot(sys.procs[q].op);
    if sys.procs[q].op.DoFetch? {
      assert sys.readers[q] == k;
    } else {
      assert k in HeldW(sys.procs[q]);
    }
  }

  lemma KeysApart(sys: Sys, p: Pid, q: Pid)
    requires LockInv(sys) && p in sys.procs && q in sys.procs && p != q && HoldsChain(sys.procs[q])
    requires HoldsChain(sys.procs[p]) && !sys.procs[p].op.DoFetch?
    ensures sys.procs[p].op.key != sys.procs[q].op.key
  {
    hide LockInv;
    ChainsApart(sys, p, q);
    assert Slot(sys.procs[p].op) in HeldW(sys.procs[p]);
  }

  /**
   * A step confined to the lists a process has write-locked and the record it
   * owns leaves every other process's assertions standing.
   */
  lemma {:induction false} OthersKept(sys: Sys, f': Files, m': map<string, string>, p: Pid, q: Pid)
    requires Inv(sys) && p in sys.procs && q in sys.procs && p != q
    requires Untouched(sys.f, f', HeldW(sys.procs[p]), Mine(sys, p))
    requires HoldsChain(sys.procs[q]) ==> Look(m', sys.procs[q].op.key) == Look(sys.m, sys.procs[q].op.key)
    ensures ProcInv(f', m', sys.procs[q])
  {
    var pr := sys.procs[q];
    hide LockInv, Untouched, Agrees, ProcInv, Filed, Catalogue, Slot, ClaimInv, HasClaim, DataOf;
    if HasClaim(pr) {
      ClaimKept(sys, f', p, q);
    }
    if HoldsChain(pr) {
      ChainsApart(sys, p, q);
      UntouchedChain(sys.f, f', sys.owned.Keys, HeldW(sys.procs[p]), Mine(sys, p), pr.op);
    }
    if pr.pc.Reuse? || pr.pc.Linking? {
      LooseKept(sys, f', p, pr.pc.off);
    }
    ProcStable(sys.f, f', sys.owned.Keys, sys.m, m', pr);
  }

  lemma LooseKept(sys: Sys, f': Files, p: Pid, off: nat)
    requires FilesInv(sys) && p in sys.procs && off in sys.owned && sys.owned[off] != p
    requires Untouched(sys.f, f', HeldW(sys.procs[p]), Mine(sys, p))
    ensures SameRec(sys.f, f', off)
  {
    NotFiled(sys.f.s, sys.f.l, sys.owned.Keys, off);
    assert off in sys.f.s.recs;
  }

  /** Data that a process has appended stays as it is until its record is written. */
  lemma ClaimKept(sys: Sys, f': Files, p: Pid, q: Pid)
    requires Inv(sys) && p in sys.procs && q in sys.procs && HasClaim(sys.procs[q])
    requires Untouched(sys.f, f', HeldW(sys.procs[p]), Mine(sys, p))
    ensures DataOf(ClaimOf(sys.procs[q]), f'.dat) == DataOf(ClaimOf(sys.procs[q]), sys.f.dat)
  {
    hide FilesInv, LockInv, OwnInv, Agrees, Hash, HeldW, Mine, SameList, SameRec, SameWhere, SameOffsets;
    assert ProcInv(sys.f, sys.m, sys.procs[q]);
    assert ClaimClear(sys.f.s.recs, sys.procs[q]);
    hide Untouched, ProcInv, ClaimInv;
    BytesKept(sys.f, f', HeldW(sys.procs[p]), Mine(sys, p), ClaimOf(sys.procs[q]));
  }

  lemma BytesKept(f: Files, f': Files, slots: set<nat>, mine: set<nat>, r: IdxRec)
    requires SameBytes(f, f', slots, mine) && DataOf(r, f.dat) != []
    requires forall off :: off in f.s.recs ==> Disjoint(f.s.recs[off], r)
    ensures DataOf(r, f'.dat) == DataOf(r, f.dat)
  {
    forall i: nat | r.datoff <= i < r.datoff + r.datlen ensures f'.dat[i] == f.dat[i] {
      assert !Covered(f, i, slots, mine);
    }
  }

  // ----- claims on the data file

  predicate NoNewClaim(pr: Proc, pc: Pc) {
    HasClaim(pr.(pc := pc)) ==> HasClaim(pr) && ClaimOf(pr.(pc := pc)) == ClaimOf(pr)
  }

  lemma {:induction false} ClearSame(recs: map<nat, IdxRec>, recs': map<nat, IdxRec>, pr: Proc)
    requires ClaimClear(recs, pr) && SameSpans(recs, recs')
    ensures ClaimClear(recs', pr)
  {
    hide ClaimOf;
    forall off | off in recs' ensures Disjoint(recs'[off], ClaimOf(pr)) {
      assert SameSpan(recs[off], recs'[off]) && Disjoint(recs[off], ClaimOf(pr));
    }
  }

  lemma {:induction false} ClaimsSame(f: Files, f': Files, procs: map<Pid, Proc>, p: Pid, pc: Pc)
    requires ClaimInv(f, procs) && p in procs && SameSpans(f.s.recs, f'.s.recs) && NoNewClaim(procs[p], pc)
    ensures ClaimInv(f', procs[p := procs[p].(pc := pc)])
  {
    hide HasClaim, ClaimOf, SameSpans, ClaimClear, Disjoint;
    var procs' := procs[p := procs[p].(pc := pc)];
    forall q | q in procs' && HasClaim(procs'[q]) ensures ClaimClear(f'.s.recs, procs'[q]) {
      ClearSame(f.s.recs, f'.s.recs, procs[q]);
      ClearAlike(f'.s.recs, procs[q], procs'[q]);
    }
  }

  lemma ClearAlike(recs: map<nat, IdxRec>, pr: Proc, pr': Proc)
    requires ClaimClear(recs, pr) && ClaimOf(pr') == ClaimOf(pr)
    ensures ClaimClear(recs, pr')
  {
    hide ClaimOf;
  }

  /** The end of the data file is claimed by nobody else. */
  lemma {:induction false} ClaimsGrow(sys: Sys, f': Files, p: Pid, head: nat)
    requires Inv(sys) && p in sys.procs && sys.procs[p].op.DoStore? && f'.s == sys.f.s
    ensures ClaimInv(f', sys.procs[p := sys.procs[p].(pc := IdxWait(head, |sys.f.dat|))])
  {
    hide LockInv, OwnInv, Agrees, ProcInv, Hash, Filed, Tiled;
    var procs' := sys.procs[p := sys.procs[p].(pc := IdxWait(head, |sys.f.dat|))];
    assert Regions(f'.s.recs, |sys.f.dat|);
    forall q | q in sys.procs && q != p && HasClaim(sys.procs[q])
      ensures ClaimOf(sys.procs[q]).datoff + ClaimOf(sys.procs[q]).datlen <= |sys.f.dat|
    {
      assert ProcInv(sys.f, sys.m, sys.procs[q]);
      ClaimLanded(sys.f, sys.m, sys.procs[q]);
    }
  }

  lemma ClaimLanded(f: Files, m: map<string, string>, pr: Proc)
    requires ProcInv(f, m, pr) && HasClaim(pr)
    ensures DataOf(ClaimOf(pr), f.dat) == pr.op.data + "\n" && ClaimOf(pr).datoff + ClaimOf(pr).datlen <= |f.dat|
  {
    hide Hash, Cell, WillStore, Head;
  }

  /** A claim becomes the data of a record. */
  lemma {:induction false} ClaimsAppend(f: Files, f': Files, procs: map<Pid, Proc>, p: Pid, pc: Pc, r: IdxRec)
    requires ClaimInv(f, procs) && p in procs && HasClaim(procs[p]) && pc.Linking?
    requires r.datoff == ClaimOf(procs[p]).datoff && r.datlen == ClaimOf(procs[p]).datlen &&
      f'.s.recs == f.s.recs[f.eof := r]
    ensures ClaimInv(f', procs[p := procs[p].(pc := pc)])
  {
    hide ClaimOf;
    var procs' := procs[p := procs[p].(pc := pc)];
    forall q | q in procs' && HasClaim(procs'[q]) ensures ClaimClear(f'.s.recs, procs'[q]) {
      assert q != p && ClaimClear(f.s.recs, procs[q]) && Disjoint(ClaimOf(procs[p]), ClaimOf(procs[q]));
    }
  }

  // ----- locks and ownership

  lemma LockSame(sys: Sys, p: Pid, pc: Pc)
    requires LockInv(sys) && p in sys.procs && HoldsChain(sys.procs[p]) && !pc.WaitChain?
    requires HeldW(sys.procs[p].(pc := pc)) == HeldW(sys.procs[p])
    ensures LockInv(Goto(sys, p, pc))
  {
    hide Hash;
  }

  lemma LockTake(sys: Sys, p: Pid, r: nat, pc: Pc)
    requires LockInv(sys) && p in sys.procs && CanWrite(sys, r) && !pc.WaitChain?
    requires !sys.procs[p].op.DoFetch?
    requires HeldW(sys.procs[p].(pc := pc)) == HeldW(sys.procs[p]) + {r}
    ensures LockInv(Goto(Lock(sys, p, r), p, pc))
  {
    hide Hash, HeldW;
  }

  lemma LockDrop(sys: Sys, p: Pid, r: nat, pc: Pc)
    requires LockInv(sys) && p in sys.procs && !pc.WaitChain? && !sys.procs[p].op.DoFetch?
    requires r in HeldW(sys.procs[p]) && HeldW(sys.procs[p].(pc := pc)) == HeldW(sys.procs[p]) - {r}
    ensures LockInv(Goto(Unlock(sys, r), p, pc))
  {
    hide Hash, HeldW;
  }

  lemma OwnSame(sys: Sys, p: Pid, pc: Pc)
    requires OwnInv(sys) && p in sys.procs
    requires forall off :: Owns(sys.procs[p].(pc := pc), off) <==> Owns(sys.procs[p], off)
    ensures OwnInv(Goto(sys, p, pc))
  {
    assert pc.Reuse? || pc.Linking? ==> Owns(sys.procs[p].(pc := pc), pc.off);
  }

  lemma OwnGain(sys: Sys, p: Pid, pc: Pc, off: nat)
    requires OwnInv(sys) && p in sys.procs && off !in sys.owned
    requires !sys.procs[p].pc.Reuse? && !sys.procs[p].pc.Linking? && (pc.Reuse? || pc.Linking?) && pc.off == off
    ensures OwnInv(Goto(sys.(owned := sys.owned[off := p]), p, pc))
  {
  }

  lemma OwnLose(sys: Sys, p: Pid, pc: Pc, off: nat)
    requires OwnInv(sys) && p in sys.procs && Owns(sys.procs[p], off) && !pc.Reuse? && !pc.Linking?
    ensures OwnInv(Goto(sys.(owned := sys.owned - {off}), p, pc))
  {
  }

  // ----- the files and the abstract map

  /** A step that changes what is held only under its own key, and says so. */
  lemma AgreeStep(sys: Sys, sys': Sys, p: Pid, pc: Pc)
    requires Agrees(sys) && p in sys.procs && sys'.m == sys.m && sys'.procs == sys.procs[p := sys.procs[p].(pc := pc)]
    requires MayDiffer(sys.procs[p].pc) ==> MayDiffer(pc)
    requires forall x :: Held(sys'.f, x) == Held(sys.f, x) || (x == sys.procs[p].op.key && MayDiffer(pc))
    ensures Agrees(sys')
  {
    hide Held, Look;
    forall x ensures Held(sys'.f, x) == Look(sys'.m, x) || Busy(sys', x) {
      if x == sys.procs[p].op.key && MayDiffer(pc) {
        assert p in sys'.procs && MayDiffer(sys'.procs[p].pc) && sys'.procs[p].op.key == x;
      } else if Busy(sys, x) {
        var q :| q in sys.procs && MayDiffer(sys.procs[q].pc) && sys.procs[q].op.key == x;
        assert q in sys'.procs && MayDiffer(sys'.procs[q].pc) && sys'.procs[q].op.key == x;
      }
    }
  }

  /** A process that has its chain and has changed nothing sees the abstract map. */
  lemma SeesMap(sys: Sys, p: Pid)
    requires Inv(sys) && p in sys.procs && HoldsChain(sys.procs[p]) && !MayDiffer(sys.procs[p].pc)
    ensures Held(sys.f, sys.procs[p].op.key) == Look(sys.m, sys.procs[p].op.key)
  {
    hide FilesInv, LockInv, OwnInv, Held, Slot, ProcInv, ClaimInv;
    var x := sys.procs[p].op.key;
    if Busy(sys, x) {
      var q :| q in sys.procs && MayDiffer(sys.procs[q].pc) && sys.procs[q].op.key == x;
      FetchAgrees(sys.f, sys.m, sys.procs[q]);
      if !sys.procs[q].op.DoFetch? {
        KeysApart(sys, q, p);
      }
    }
  }

  lemma FetchAgrees(f: Files, m: map<string, string>, pr: Proc)
    requires ProcInv(f, m, pr) && MayDiffer(pr.pc)
    ensures pr.op.DoFetch? ==> Held(f, pr.op.key) == Look(m, pr.op.key)
  {
    hide Held, Head, DataAt, DataOf, RecIn;
  }

  // ----- putting the pieces of one step together

  lemma UntouchedMore(f: Files, f': Files, slots: set<nat>, mine: set<nat>, slots': set<nat>, mine': set<nat>)
    requires Untouched(f, f', slots, mine) && slots <= slots' && mine <= mine'
    ensures Untouched(f, f', slots', mine')
  {
    hide Hash, SameList, SameRec, SameWhere;
  }

  lemma {:induction false} StepInv(sys: Sys, sys': Sys, p: Pid, pc: Pc)
    requires Inv(sys) && p in sys.procs && sys'.m == sys.m && sys'.procs == sys.procs[p := sys.procs[p].(pc := pc)]
    requires FilesInv(sys') && LockInv(sys') && OwnInv(sys') && ClaimInv(sys'.f, sys'.procs)
    requires ProcInv(sys'.f, sys.m, sys.procs[p].(pc := pc))
    requires Untouched(sys.f, sys'.f, HeldW(sys.procs[p]), Mine(sys, p))
    requires MayDiffer(sys.procs[p].pc) ==> MayDiffer(pc)
    requires forall x :: Held(sys'.f, x) == Held(sys.f, x) || (x == sys.procs[p].op.key && MayDiffer(pc))
    ensures Inv(sys')
  {
    hide FilesInv, LockInv, OwnInv, Agrees, ProcInv, Untouched, HeldW, Held, MayDiffer, ClaimInv;
    AgreeStep(sys, sys', p, pc);
    forall q | q in sys'.procs ensures ProcInv(sys'.f, sys'.m, sys'.procs[q]) {
      if q != p {
        OthersKept(sys, sys'.f, sys'.m, p, q);
      }
    }
  }

  lemma Unchanged(f: Files, slots: set<nat>, mine: set<nat>)
    ensures Untouched(f, f, slots, mine)
  {
  }

  /** Steps that leave the files as they are. */
  lemma {:induction false} QuietInv(sys: Sys, sys': Sys, p: Pid, pc: Pc)
    requires Inv(sys) && p in sys.procs && sys'.m == sys.m && sys'.procs == sys.procs[p := sys.procs[p].(pc := pc)]
    requires sys'.f == sys.f && sys'.owned == sys.owned && NoNewClaim(sys.procs[p], pc)
    requires LockInv(sys') && OwnInv(sys') && ProcInv(sys'.f, sys.m, sys.procs[p].(pc := pc))
    requires MayDiffer(sys.procs[p].pc) ==> MayDiffer(pc)
    ensures Inv(sys')
  {
    hide LockInv, OwnInv, Agrees, ProcInv, HeldW, MayDiffer, Filed, Catalogue, Untouched, NoNewClaim, ClaimInv;
    assert FilesInv(sys');
    Unchanged(sys.f, HeldW(sys.procs[p]), Mine(sys, p));
    ClaimsSame(sys.f, sys.f, sys.procs, p, pc);
    hide FilesInv, Untouched;
    StepInv(sys, sys', p, pc);
  }

  lemma {:induction false} BeginInv(sys: Sys, p: Pid, op: Op)
    requires Inv(sys) && p !in sys.procs && LegalCall(op)
    ensures Inv(Begin(sys, p, op))
  {
    hide Filed, Catalogue, Hash, Slot, Held, Look, ProcInv, LockInv, OwnInv, HeldW, ClaimInv;
    var sys' := Begin(sys, p, op);
    BeginLocks(sys, p, op);
    BeginClaims(sys.f, sys.procs, p, op);
    forall x ensures Held(sys'.f, x) == Look(sys'.m, x) || Busy(sys', x) {
      if Busy(sys, x) {
        var q :| q in sys.procs && MayDiffer(sys.procs[q].pc) && sys.procs[q].op.key == x;
        assert q in sys'.procs && MayDiffer(sys'.procs[q].pc) && sys'.procs[q].op.key == x;
      }
    }
    forall q | q in sys'.procs ensures ProcInv(sys'.f, sys'.m, sys'.procs[q]) {
      if q == p {
        StartProc(sys.f, sys.m, op);
      }
    }
  }

  lemma BeginLocks(sys: Sys, p: Pid, op: Op)
    requires LockInv(sys) && OwnInv(sys) && p !in sys.procs
    ensures LockInv(Begin(sys, p, op)) && OwnInv(Begin(sys, p, op))
  {
    hide Hash;
  }

  lemma BeginClaims(f: Files, procs: map<Pid, Proc>, p: Pid, op: Op)
    requires ClaimInv(f, procs) && p !in procs
    ensures ClaimInv(f, procs[p := Proc(op, WaitChain)])
  {
    hide ClaimClear, ClaimOf;
  }

  lemma StartProc(f: Files, m: map<string, string>, op: Op)
    requires LegalCall(op)
    ensures ProcInv(f, m, Proc(op, WaitChain))
  {
  }

  lemma InvProc(sys: Sys, p: Pid)
    requires Inv(sys) && p in sys.procs
    ensures ProcInv(sys.f, sys.m, sys.procs[p]) && LockInv(sys) && OwnInv(sys)
    ensures Filed(sys.f.s, sys.f.l, sys.owned.Keys) && Catalogue(sys.f) && ClaimInv(sys.f, sys.procs)
  {
    hide ProcInv, LockInv, OwnInv, Filed, Catalogue, Agrees, ClaimInv;
  }

  // ----- one lemma for each kind of step

  lemma {:induction false} ReadLockInv(sys: Sys, p: Pid)
    requires Inv(sys) && p in sys.procs && sys.procs[p].pc.WaitChain? && sys.procs[p].op.DoFetch?
    requires Slot(sys.procs[p].op) !in sys.writer
    ensures Inv(Goto(sys.(readers := sys.readers[p := Slot(sys.procs[p].op)]), p, Walk))
  {
    hide Inv, ProcInv, LockInv, OwnInv, Filed, Catalogue, Hash;
    InvProc(sys, p);
    var sys1 := sys.(readers := sys.readers[p := Slot(sys.procs[p].op)]);
    ReadTake(sys, p);
    OwnSame(sys1, p, Walk);
    WalkStart(sys.f, sys.m, sys.procs[p]);
    QuietInv(sys, Goto(sys1, p, Walk), p, Walk);
  }

  lemma WalkStart(f: Files, m: map<string, string>, pr: Proc)
    requires ProcInv(f, m, pr)
    ensures ProcInv(f, m, pr.(pc := Walk))
  {
  }

  lemma ReadTake(sys: Sys, p: Pid)
    requires LockInv(sys) && p in sys.procs && sys.procs[p].pc.WaitChain? && sys.procs[p].op.DoFetch?
    requires Slot(sys.procs[p].op) !in sys.writer
    ensures LockInv(Goto(sys.(readers := sys.readers[p := Slot(sys.procs[p].op)]), p, Walk))
    ensures OwnInv(sys) ==> OwnInv(sys.(readers := sys.readers[p := Slot(sys.procs[p].op)]))
  {
    hide Hash;
  }

  /** Taking a write lock: the chain, the free list or an append region. */
  lemma {:induction false} WriteLockInv(sys: Sys, p: Pid, r: nat, pc: Pc)
    requires Inv(sys) && p in sys.procs && !sys.procs[p].op.DoFetch? && CanWrite(sys, r)
    requires !pc.WaitChain? && !pc.Reuse? && !pc.Linking? && !sys.procs[p].pc.Reuse? && !sys.procs[p].pc.Linking?
    requires NoNewClaim(sys.procs[p], pc) && HeldW(sys.procs[p].(pc := pc)) == HeldW(sys.procs[p]) + {r}
    requires ProcInv(sys.f, sys.m, sys.procs[p].(pc := pc)) && (MayDiffer(sys.procs[p].pc) ==> MayDiffer(pc))
    ensures Inv(Goto(Lock(sys, p, r), p, pc))
  {
    hide Inv, ProcInv, LockInv, Filed, Catalogue, HeldW, CanWrite, MayDiffer, NoNewClaim, ClaimInv;
    InvProc(sys, p);
    LockTake(sys, p, r, pc);
    assert OwnInv(Lock(sys, p, r));
    OwnSame(Lock(sys, p, r), p, pc);
    hide OwnInv;
    QuietInv(sys, Goto(Lock(sys, p, r), p, pc), p, pc);
  }

  lemma {:induction false} WalkProc(f: Files, loose: set<nat>, m: map<string, string>, op: Op)
    requires Filed(f.s, f.l, loose) && Catalogue(f) && Held(f, op.key) == Look(m, op.key) && LegalCall(op)
    ensures ProcInv(f, m, Proc(op, WalkPc(f, op)))
  {
    hide Filed, Catalogue, Hash, FindKey, Cell, CellOf;
    KeyIndex(f, loose, op);
    if op.key in f.l.where {
      CatalogueFacts(f, loose, op.key);
    }
  }

  lemma {:induction false} WalkInv(sys: Sys, p: Pid)
    requires Inv(sys) && p in sys.procs && sys.procs[p].pc.Walk?
    ensures Inv(Goto(sys, p, WalkPc(sys.f, sys.procs[p].op)))
  {
    hide Inv, ProcInv, LockInv, OwnInv, Filed, Catalogue, Hash, Held, Look;
    InvProc(sys, p);
    SeesMap(sys, p);
    LegalProc(sys.f, sys.m, sys.procs[p]);
    WalkProc(sys.f, sys.owned.Keys, sys.m, sys.procs[p].op);
    var pc := WalkPc(sys.f, sys.procs[p].op);
    WalkHolds(sys.f, sys.procs[p]);
    hide WalkPc;
    LockSame(sys, p, pc);
    OwnSame(sys, p, pc);
    QuietInv(sys, Goto(sys, p, pc), p, pc);
  }

  lemma LegalProc(f: Files, m: map<string, string>, pr: Proc)
    requires ProcInv(f, m, pr)
    ensures LegalCall(pr.op)
  {
  }

  lemma WalkHolds(f: Files, pr: Proc)
    requires pr.pc.Walk?
    ensures var pc := WalkPc(f, pr.op);
      && HeldW(pr.(pc := pc)) == HeldW(pr) && !pc.WaitChain? && !pc.Reuse? && !pc.Linking? && NoNewClaim(pr, pc)
  {
    hide FindKey, Cell, CellOf, Hash, DataAt;
  }

  /** Everything a change of the files must satisfy for the process that makes it. */
  ghost predicate GoodEdit(sys: Sys, p: Pid, f': Files, owned': map<nat, Pid>, pc: Pc)
    requires p in sys.procs
  {
    && Filed(f'.s, f'.l, owned'.Keys) && Catalogue(f')
    && Untouched(sys.f, f', HeldW(sys.procs[p]), Mine(sys, p))
    && ProcInv(f', sys.m, sys.procs[p].(pc := pc))
    && (MayDiffer(sys.procs[p].pc) ==> MayDiffer(pc))
    && (forall x :: Held(f', x) == Held(sys.f, x) || (x == sys.procs[p].op.key && MayDiffer(pc)))
    && ClaimInv(f', sys.procs[p := sys.procs[p].(pc := pc)])
  }

  lemma EditStep(sys: Sys, sys': Sys, p: Pid, pc: Pc)
    requires Inv(sys) && p in sys.procs && sys'.m == sys.m && sys'.procs == sys.procs[p := sys.procs[p].(pc := pc)]
    requires GoodEdit(sys, p, sys'.f, sys'.owned, pc) && LockInv(sys') && OwnInv(sys')
    ensures Inv(sys')
  {
    hide Inv, ProcInv, LockInv, OwnInv, Filed, Catalogue, Untouched, HeldW, Held, MayDiffer, Mine, ClaimInv;
    StepInv(sys, sys', p, pc);
  }

  lemma {:induction false} EditKeep(sys: Sys, p: Pid, f': Files, owned': map<nat, Pid>, pc: Pc)
    requires Inv(sys) && p in sys.procs && GoodEdit(sys, p, f', owned', pc)
    requires HoldsChain(sys.procs[p]) && !pc.WaitChain? && HeldW(sys.procs[p].(pc := pc)) == HeldW(sys.procs[p])
    requires OwnInv(Goto(sys.(owned := owned'), p, pc))
    ensures Inv(Goto(sys.(f := f', owned := owned'), p, pc))
  {
    hide Inv, LockInv, OwnInv, HeldW, GoodEdit;
    var sys1 := sys.(f := f', owned := owned');
    InvLocks(sys);
    LockOwned(sys, f', owned');
    LockSame(sys1, p, pc);
    OwnFiles(Goto(sys1, p, pc), Goto(sys.(owned := owned'), p, pc));
    EditStep(sys, Goto(sys1, p, pc), p, pc);
  }

  lemma {:induction false} EditDrop(sys: Sys, p: Pid, r: nat, f': Files, owned': map<nat, Pid>, pc: Pc)
    requires Inv(sys) && p in sys.procs && GoodEdit(sys, p, f', owned', pc)
    requires !sys.procs[p].op.DoFetch? && !pc.WaitChain?
    requires r in HeldW(sys.procs[p]) && HeldW(sys.procs[p].(pc := pc)) == HeldW(sys.procs[p]) - {r}
    requires OwnInv(Goto(sys.(owned := owned'), p, pc))
    ensures Inv(Goto(Unlock(sys.(f := f', owned := owned'), r), p, pc))
  {
    hide Inv, LockInv, OwnInv, HeldW, GoodEdit;
    var sys1 := sys.(f := f', owned := owned');
    InvLocks(sys);
    LockOwned(sys, f', owned');
    LockDrop(sys1, p, r, pc);
    OwnFiles(Goto(Unlock(sys1, r), p, pc), Goto(sys.(owned := owned'), p, pc));
    EditStep(sys, Goto(Unlock(sys1, r), p, pc), p, pc);
  }

  lemma InvLocks(sys: Sys)
    requires Inv(sys)
    ensures LockInv(sys) && OwnInv(sys) && ClaimInv(sys.f, sys.procs)
  {
    hide LockInv, OwnInv, ProcInv, Agrees, FilesInv, ClaimInv;
  }

  lemma LockOwned(sys: Sys, f': Files, owned': map<nat, Pid>)
    requires LockInv(sys)
    ensures LockInv(sys.(f := f', owned := owned'))
  {
    hide Hash, HeldW, Slot;
  }

  lemma OwnFiles(sys: Sys, sys0: Sys)
    requires OwnInv(sys0) && sys.procs == sys0.procs && sys.owned == sys0.owned
    ensures OwnInv(sys)
  {
  }

  /** What a process in the middle of its operation may rely on. */
  lemma ProcFacts(f: Files, m: map<string, string>, pr: Proc)
    requires ProcInv(f, m, pr)
    ensures LegalCall(pr.op)
    ensures pr.pc.DelBody? ==> OnChain(f, pr.op, pr.pc.off) && CellFor(f, pr.op, pr.pc.cell)
    ensures pr.pc.SameLen? ==>
      WillStore(m, pr.op) && OnChain(f, pr.op, pr.pc.off) && |DataAt(f, pr.pc.off)| == |pr.op.data|
    ensures pr.pc.Reuse? ==>
      |RecIn(f.s, pr.pc.off).key| == |pr.op.key| && pr.op.DoStore? && RecIn(f.s, pr.pc.off).datlen == |pr.op.data| + 1
    ensures pr.pc.Linking? ==>
      WillStore(m, pr.op) && Head(f, pr.op, RecIn(f.s, pr.pc.off).next) && RecIn(f.s, pr.pc.off).key == pr.op.key
      && DataAt(f, pr.pc.off) == pr.op.data
  {
    hide Hash, CellFor, OnChain, Head, RecIn, DataAt;
  }

  lemma OwnHere(sys: Sys, p: Pid)
    requires OwnInv(sys) && p in sys.procs && (sys.procs[p].pc.Reuse? || sys.procs[p].pc.Linking?)
    ensures sys.procs[p].pc.off in sys.owned && sys.procs[p].pc.off in Mine(sys, p)
  {
  }

  // deletion

  lemma {:induction false} DeleteEditFiles(sys: Sys, p: Pid, off: nat, cell: nat, f': Files)
    requires Inv(sys) && p in sys.procs && sys.procs[p].pc == DelBody(off, cell) && !sys.procs[p].op.DoFetch?
    requires f' == DeleteFiles(sys.f, sys.procs[p].op, off, cell)
    ensures Filed(f'.s, f'.l, sys.owned.Keys) && Catalogue(f') && Deleted(sys.f, f', sys.procs[p].op, off, cell)
    ensures forall x :: x != sys.procs[p].op.key ==> Held(f', x) == Held(sys.f, x)
    ensures Untouched(sys.f, f', {Slot(sys.procs[p].op), FREE}, {}) && SameSpans(sys.f.s.recs, f'.s.recs)
  {
    var op, f := sys.procs[p].op, sys.f;
    hide Inv, LockInv, OwnInv, Filed, Catalogue, Hash, Held, DeleteFiles, Untouched, Deleted, CellFor, ProcInv,
      ClaimInv, SameSpans;
    InvProc(sys, p);
    ProcFacts(f, sys.m, sys.procs[p]);
    DeleteKeeps(f, sys.owned.Keys, op, off, cell);
    DeleteCatalogue(f, f', sys.owned.Keys, op, off, cell);
    DeleteUntouched(f, f', sys.owned.Keys, op, off, cell);
    DeleteSpans(f, f', op, off, cell);
  }

  lemma {:induction false} DeleteEdit(sys: Sys, p: Pid, off: nat, cell: nat, f': Files, pc: Pc)
    requires Inv(sys) && p in sys.procs && sys.procs[p].pc == DelBody(off, cell) && !sys.procs[p].op.DoFetch?
    requires f' == DeleteFiles(sys.f, sys.procs[p].op, off, cell)
    requires var op := sys.procs[p].op;
      pc == if op.DoStore? then DatWait(Cell(f'.s, PTR_SZ * Slot(op))) else Unlocking(Removed(0))
    ensures GoodEdit(sys, p, f', sys.owned, pc)
  {
    hide Inv, LockInv, OwnInv, Filed, Catalogue, Hash, Held, DeleteFiles, Untouched, Deleted, Cell, ProcInv, Look,
      ClaimInv, SameSpans;
    DeleteEditFiles(sys, p, off, cell, f');
    SeesMap(sys, p);
    InvProc(sys, p);
    ClaimsSame(sys.f, f', sys.procs, p, pc);
    DeleteProc(sys.f, f', sys.m, sys.procs[p].op, off, cell, pc);
    WithinLocks(sys, p, f', {Slot(sys.procs[p].op), FREE}, {});
    hide Mine, HeldW, Slot;
  }

  lemma WithinLocks(sys: Sys, p: Pid, f': Files, slots: set<nat>, mine: set<nat>)
    requires p in sys.procs && slots <= HeldW(sys.procs[p]) && mine <= Mine(sys, p) && Untouched(sys.f, f', slots, mine)
    ensures Untouched(sys.f, f', HeldW(sys.procs[p]), Mine(sys, p))
  {
    hide Untouched, HeldW, Mine;
    UntouchedMore(sys.f, f', slots, mine, HeldW(sys.procs[p]), Mine(sys, p));
  }

  lemma DeleteProc(f: Files, f': Files, m: map<string, string>, op: Op, off: nat, cell: nat, pc: Pc)
    requires ProcInv(f, m, Proc(op, DelBody(off, cell))) && Deleted(f, f', op, off, cell)
    requires Held(f, op.key) == Look(m, op.key)
    requires pc == if op.DoStore? then DatWait(Cell(f'.s, PTR_SZ * Slot(op))) else Unlocking(Removed(0))
    ensures ProcInv(f', m, Proc(op, pc))
  {
    hide Hash, CellFor, AllBlank, SameList, Cell, RecIn, DataAt, Rewritten;
  }

  lemma {:induction false} DeleteInv(sys: Sys, p: Pid, off: nat, cell: nat, f': Files, pc: Pc)
    requires Inv(sys) && p in sys.procs && sys.procs[p].pc == DelBody(off, cell) && !sys.procs[p].op.DoFetch?
    requires f' == DeleteFiles(sys.f, sys.procs[p].op, off, cell)
    requires var op := sys.procs[p].op;
      pc == if op.DoStore? then DatWait(Cell(f'.s, PTR_SZ * Slot(op))) else Unlocking(Removed(0))
    ensures Inv(Goto(Unlock(sys.(f := f'), FREE), p, pc))
  {
    hide Inv, OwnInv, GoodEdit, DeleteFiles, Cell, Hash;
    DeleteEdit(sys, p, off, cell, f', pc);
    InvLocks(sys);
    OwnSame(sys, p, pc);
    EditDrop(sys, p, FREE, f', sys.owned, pc);
  }

  // taking a free record

  lemma {:induction false} TakeEditFiles(sys: Sys, p: Pid, head: nat, i: nat, off: nat, f': Files)
    requires Inv(sys) && p in sys.procs && sys.procs[p].op.DoStore? && sys.procs[p].pc == FreeBody(head)
    requires i < |Chain(sys.f.l, FREE)| && off == Chain(sys.f.l, FREE)[i] && f' == TakeFiles(sys.f, i)
    ensures Filed(f'.s, f'.l, sys.owned[off := p].Keys) && Catalogue(f') && SameContent(sys.f, f') && off !in sys.owned
    ensures forall x :: Held(f', x) == Held(sys.f, x)
    ensures Untouched(sys.f, f', {FREE}, {}) && SameSpans(sys.f.s.recs, f'.s.recs)
  {
    hide Inv, LockInv, OwnInv, Filed, Catalogue, Hash, Held, TakeFiles, Untouched, ProcInv, SameContent, ClaimInv,
      SameSpans;
    InvProc(sys, p);
    TakeKeeps(sys.f, sys.owned.Keys, i);
    TakeCatalogue(sys.f, sys.owned.Keys, i);
    TakeUntouched(sys.f, sys.owned.Keys, i);
    ContentSpans(sys.f, f');
    assert sys.owned[off := p].Keys == sys.owned.Keys + {off};
  }

  lemma {:induction false} TakeEdit(sys: Sys, p: Pid, head: nat, i: nat, off: nat, f': Files)
    requires Inv(sys) && p in sys.procs && sys.procs[p].op.DoStore? && sys.procs[p].pc == FreeBody(head)
    requires i < |Chain(sys.f.l, FREE)| && off == Chain(sys.f.l, FREE)[i] && f' == TakeFiles(sys.f, i)
    requires |RecIn(sys.f.s, off).key| == |sys.procs[p].op.key| &&
      RecIn(sys.f.s, off).datlen == |sys.procs[p].op.data| + 1
    ensures GoodEdit(sys, p, f', sys.owned[off := p], Reuse(head, off)) && off !in sys.owned
  {
    hide Inv, LockInv, OwnInv, Filed, Catalogue, Hash, Held, TakeFiles, Untouched, ProcInv, SameContent, RecIn,
      ClaimInv, SameSpans;
    TakeEditFiles(sys, p, head, i, off, f');
    InvProc(sys, p);
    ClaimsSame(sys.f, f', sys.procs, p, Reuse(head, off));
    TakeProc(sys.f, f', sys.m, sys.procs[p].op, head, off);
    WithinLocks(sys, p, f', {FREE}, {});
    hide Mine, HeldW, Slot;
  }

  lemma TakeProc(f: Files, f': Files, m: map<string, string>, op: Op, head: nat, off: nat)
    requires ProcInv(f, m, Proc(op, FreeBody(head))) && SameContent(f, f') && op.DoStore? &&
      Untouched(f, f', {FREE}, {})
    requires |RecIn(f.s, off).key| == |op.key| && RecIn(f.s, off).datlen == |op.data| + 1
    ensures ProcInv(f', m, Proc(op, Reuse(head, off)))
  {
    hide Hash, Cell, RecIn;
    assert SameList(f, f', Slot(op));
    assert RecIn(f'.s, off).(next := 0) == RecIn(f.s, off).(next := 0);
    assert RecIn(f'.s, off).key == RecIn(f.s, off).key && RecIn(f'.s, off).datlen == RecIn(f.s, off).datlen;
  }

  lemma {:induction false} TakeInv(sys: Sys, p: Pid, head: nat, i: nat, off: nat, f': Files)
    requires Inv(sys) && p in sys.procs && sys.procs[p].op.DoStore? && sys.procs[p].pc == FreeBody(head)
    requires i < |Chain(sys.f.l, FREE)| && off == Chain(sys.f.l, FREE)[i] && f' == TakeFiles(sys.f, i)
    requires |RecIn(sys.f.s, off).key| == |sys.procs[p].op.key| &&
      RecIn(sys.f.s, off).datlen == |sys.procs[p].op.data| + 1
    ensures Inv(Goto(Unlock(sys.(f := f', owned := sys.owned[off := p]), FREE), p, Reuse(head, off)))
  {
    hide Inv, OwnInv, GoodEdit, TakeFiles, Hash;
    TakeEdit(sys, p, head, i, off, f');
    InvLocks(sys);
    OwnGain(sys, p, Reuse(head, off), off);
    EditDrop(sys, p, FREE, f', sys.owned[off := p], Reuse(head, off));
  }

  // writing a record that is on no list

  lemma PutProc(f: Files, f': Files, m: map<string, string>, op: Op, head: nat, off: nat, r: IdxRec, pc: Pc)
    requires ProcInv(f, m, Proc(op, pc)) && op.DoStore? && SameList(f, f', Slot(op))
    requires pc == Reuse(head, off) || (pc.IdxBody? && pc.head == head)
    requires f'.s == f.s.(recs := f.s.recs[off := r]) && f'.l == f.l && DataAt(f', off) == op.data
    requires r.key == op.key && r.next == head
    ensures ProcInv(f', m, Proc(op, Linking(off)))
  {
    hide Hash, Cell, DataAt, DataOf;
  }

  lemma {:induction false} ReuseEditFiles(sys: Sys, p: Pid, op: Op, head: nat, off: nat, r: IdxRec, f': Files)
    requires p in sys.procs && sys.procs[p] == Proc(op, Reuse(head, off)) && op.DoStore?
    requires r == IdxRec(head, op.key, RecIn(sys.f.s, off).datoff, |op.data| + 1)
    requires f' == PutRec(sys.f, off, r).(dat := Rewritten(sys.f, off, op.data))
    requires Inv(sys)
    ensures Filed(f'.s, f'.l, sys.owned.Keys) && Catalogue(f') && off in Mine(sys, p) &&
      SameSpans(sys.f.s.recs, f'.s.recs)
    ensures Untouched(sys.f, f', {}, {off}) && DataAt(f', off) == op.data
    ensures forall x :: Held(f', x) == Held(sys.f, x)
  {
    var f := sys.f;
    hide Inv, LockInv, OwnInv, Filed, Catalogue, Hash, Held, Cell, ProcInv, Untouched, Rewritten, SameSpans, DataAt,
      ClaimInv, RecIn, Mine;
    InvProc(sys, p);
    ProcFacts(f, sys.m, sys.procs[p]);
    OwnHere(sys, p);
    ReuseKeeps(f, f', sys.owned.Keys, off, r, op.data);
  }

  lemma {:induction false} ReuseEdit(sys: Sys, p: Pid, op: Op, head: nat, off: nat, r: IdxRec, f': Files)
    requires p in sys.procs && sys.procs[p] == Proc(op, Reuse(head, off)) && op.DoStore?
    requires r == IdxRec(head, op.key, RecIn(sys.f.s, off).datoff, |op.data| + 1)
    requires f' == PutRec(sys.f, off, r).(dat := Rewritten(sys.f, off, op.data))
    requires Inv(sys)
    ensures GoodEdit(sys, p, f', sys.owned, Linking(off))
  {
    var f := sys.f;
    hide Inv, LockInv, OwnInv, Filed, Catalogue, Hash, Held, Cell, ProcInv, Mine, Rewritten, SameSpans, DataAt,
      ClaimInv, RecIn, Untouched, SameList;
    ReuseEditFiles(sys, p, op, head, off, r, f');
    InvProc(sys, p);
    UntouchedList(f, f', {}, {off}, op);
    PutProc(f, f', sys.m, op, head, off, r, Reuse(head, off));
    ClaimsSame(f, f', sys.procs, p, Linking(off));
    WithinLocks(sys, p, f', {}, {off});
    hide HeldW, Slot;
  }

  lemma {:induction false} ReuseInv(sys: Sys, p: Pid, head: nat, off: nat, r: IdxRec, f': Files)
    requires Inv(sys) && p in sys.procs && sys.procs[p].op.DoStore? && sys.procs[p].pc == Reuse(head, off)
    requires r == IdxRec(head, sys.procs[p].op.key, RecIn(sys.f.s, off).datoff, |sys.procs[p].op.data| + 1)
    requires f' == PutRec(sys.f, off, r).(dat := Rewritten(sys.f, off, sys.procs[p].op.data))
    ensures Inv(Goto(sys.(f := f'), p, Linking(off)))
  {
    hide Inv, OwnInv, GoodEdit, Hash, ClaimInv;
    ReuseEdit(sys, p, sys.procs[p].op, head, off, r, f');
    InvLocks(sys);
    OwnSame(sys, p, Linking(off));
    EditKeep(sys, p, f', sys.owned, Linking(off));
  }

  // appending to the data file, then to the index

  lemma {:induction false} GrowEdit(sys: Sys, p: Pid, op: Op, head: nat, f': Files)
    requires p in sys.procs && sys.procs[p] == Proc(op, DatBody(head)) && op.DoStore?
    requires f' == sys.f.(dat := sys.f.dat + (op.data + "\n"))
    requires Inv(sys)
    ensures GoodEdit(sys, p, f', sys.owned, IdxWait(head, |sys.f.dat|))
  {
    var f := sys.f;
    hide Inv, LockInv, OwnInv, Filed, Catalogue, Hash, Held, Cell, ProcInv, Mine, Untouched, DataAt, ClaimInv;
    InvProc(sys, p);
    GrowKeeps(f, f', op.data + "\n");
    HeldGrown(f, f', sys.owned.Keys);
    GrowProc(f, f', sys.m, op, head);
    ClaimsGrow(sys, f', p, head);
    WithinLocks(sys, p, f', {DAT}, {});
    hide HeldW, Slot;
  }

  lemma HeldGrown(f: Files, f': Files, loose: set<nat>)
    requires Filed(f.s, f.l, loose) && Catalogue(f) && f'.l == f.l
    requires forall o :: o in f.s.recs ==> DataAt(f', o) == DataAt(f, o)
    ensures forall x :: Held(f', x) == Held(f, x)
  {
    hide Filed, Catalogue, DataAt, Hash;
    forall x ensures Held(f', x) == Held(f, x) {
      if x in f.l.where {
        CatalogueFacts(f, loose, x);
      }
    }
  }

  lemma GrowProc(f: Files, f': Files, m: map<string, string>, op: Op, head: nat)
    requires ProcInv(f, m, Proc(op, DatBody(head))) && op.DoStore? && f' == f.(dat := f.dat + (op.data + "\n"))
    ensures ProcInv(f', m, Proc(op, IdxWait(head, |f.dat|)))
  {
    hide Hash, Cell, DataAt;
    var n := |f.dat|;
    assert f'.dat[n..n + |op.data| + 1] == op.data + "\n";
  }

  lemma {:induction false} GrowInv(sys: Sys, p: Pid, head: nat, f': Files)
    requires Inv(sys) && p in sys.procs && sys.procs[p].op.DoStore? && sys.procs[p].pc == DatBody(head)
    requires f' == sys.f.(dat := sys.f.dat + (sys.procs[p].op.data + "\n"))
    ensures Inv(Goto(Unlock(sys.(f := f'), DAT), p, IdxWait(head, |sys.f.dat|)))
  {
    hide Inv, OwnInv, GoodEdit, Hash, ClaimInv;
    GrowEdit(sys, p, sys.procs[p].op, head, f');
    InvLocks(sys);
    OwnSame(sys, p, IdxWait(head, |sys.f.dat|));
    EditDrop(sys, p, DAT, f', sys.owned, IdxWait(head, |sys.f.dat|));
  }

  lemma {:induction false} AppendEditFiles(sys: Sys, p: Pid, op: Op, head: nat, r: IdxRec, f': Files)
    requires p in sys.procs && sys.procs[p] == Proc(op, IdxBody(head, r.datoff)) && op.DoStore?
    requires r.key == op.key && r.next == head && r.datlen == |op.data| + 1
    requires f' == AppendFiles(sys.f, r)
    requires Inv(sys)
    ensures Filed(f'.s, f'.l, sys.owned[sys.f.eof := p].Keys) && Catalogue(f') && sys.f.eof !in sys.owned
    ensures Untouched(sys.f, f', {IDX}, {}) && DataAt(f', sys.f.eof) == op.data
    ensures forall x :: Held(f', x) == Held(sys.f, x)
  {
    var f := sys.f;
    hide Inv, LockInv, OwnInv, Filed, Catalogue, Hash, Held, RecSize, ProcInv, Untouched, DataAt, DataOf, ClaimInv,
      AppendFiles, Disjoint;
    InvProc(sys, p);
    OwnClaim(sys, p, r);
    AppendKeeps(f, f', sys.owned.Keys, r, op.data);
    assert sys.owned[f.eof := p].Keys == sys.owned.Keys + {f.eof};
  }

  lemma OwnClaim(sys: Sys, p: Pid, r: IdxRec)
    requires Inv(sys) && p in sys.procs && HasClaim(sys.procs[p])
    requires r.datoff == sys.procs[p].pc.datoff && r.datlen == |sys.procs[p].op.data| + 1
    ensures DataOf(r, sys.f.dat) == sys.procs[p].op.data + "\n"
    ensures forall off :: off in sys.f.s.recs ==> Disjoint(sys.f.s.recs[off], r)
  {
    hide FilesInv, LockInv, OwnInv, Agrees, ProcInv, DataOf;
    assert ProcInv(sys.f, sys.m, sys.procs[p]);
    ClaimLanded(sys.f, sys.m, sys.procs[p]);
    assert ClaimClear(sys.f.s.recs, sys.procs[p]);
    DataOfSpan(ClaimOf(sys.procs[p]), r, sys.f.dat);
    forall off | off in sys.f.s.recs ensures Disjoint(sys.f.s.recs[off], r) {
      assert Disjoint(sys.f.s.recs[off], ClaimOf(sys.procs[p]));
    }
  }

  lemma {:induction false} AppendEdit(sys: Sys, p: Pid, op: Op, head: nat, r: IdxRec, f': Files)
    requires p in sys.procs && sys.procs[p] == Proc(op, IdxBody(head, r.datoff)) && op.DoStore?
    requires r.key == op.key && r.next == head && r.datlen == |op.data| + 1
    requires f' == AppendFiles(sys.f, r)
    requires Inv(sys)
    ensures GoodEdit(sys, p, f', sys.owned[sys.f.eof := p], Linking(sys.f.eof)) && sys.f.eof !in sys.owned
  {
    var f, off := sys.f, sys.f.eof;
    hide Inv, LockInv, OwnInv, Filed, Catalogue, Hash, Held, Cell, RecSize, ProcInv, Mine, Untouched, DataAt,
      ClaimInv, RecIn;
    AppendEditFiles(sys, p, op, head, r, f');
    InvProc(sys, p);
    UntouchedList(f, f', {IDX}, {}, op);
    PutProc(f, f', sys.m, op, head, off, r, IdxBody(head, r.datoff));
    ClaimsAppend(f, f', sys.procs, p, Linking(off), r);
    WithinLocks(sys, p, f', {IDX}, {});
    hide HeldW, Slot;
  }

  lemma {:induction false} AppendInv(sys: Sys, p: Pid, head: nat, r: IdxRec, f': Files)
    requires Inv(sys) && p in sys.procs && sys.procs[p].op.DoStore? && sys.procs[p].pc == IdxBody(head, r.datoff)
    requires r.key == sys.procs[p].op.key && r.next == head && r.datlen == |sys.procs[p].op.data| + 1
    requires f' == AppendFiles(sys.f, r)
    ensures Inv(Goto(Unlock(sys.(f := f', owned := sys.owned[sys.f.eof := p]), IDX), p, Linking(sys.f.eof)))
  {
    hide Inv, OwnInv, GoodEdit, Hash, RecSize, ClaimInv;
    AppendEdit(sys, p, sys.procs[p].op, head, r, f');
    InvLocks(sys);
    OwnGain(sys, p, Linking(sys.f.eof), sys.f.eof);
    EditDrop(sys, p, IDX, f', sys.owned[sys.f.eof := p], Linking(sys.f.eof));
  }

  // linking a finished record in, or overwriting data in place

  lemma StoredProc(f: Files, m: map<string, string>, op: Op)
    requires LegalCall(op) && WillStore(m, op) && Held(f, op.key) == Some(op.data)
    ensures ProcInv(f, m, Proc(op, Unlocking(StoreDone(Stored))))
  {
  }

  lemma {:induction false} LinkEditFiles(sys: Sys, p: Pid, op: Op, off: nat, f': Files)
    requires p in sys.procs && sys.procs[p] == Proc(op, Linking(off)) && op.DoStore?
    requires f' == LinkFiles(sys.f, op, off)
    requires Inv(sys)
    ensures Filed(f'.s, f'.l, (sys.owned - {off}).Keys) && Catalogue(f') && off in Mine(sys, p) &&
      f'.s.recs == sys.f.s.recs
    ensures forall x :: x != op.key ==> Held(f', x) == Held(sys.f, x)
    ensures Held(f', op.key) == Some(op.data)
    ensures Untouched(sys.f, f', {Slot(op)}, {off})
  {
    var f := sys.f;
    hide Inv, LockInv, OwnInv, Filed, Catalogue, Hash, Held, Untouched, LinkFiles, Linked1, Cell, ProcInv, WillStore,
      DataAt, ClaimInv, Mine;
    InvProc(sys, p);
    ProcFacts(f, sys.m, sys.procs[p]);
    OwnHere(sys, p);
    LinkKeeps(f, sys.owned.Keys, op, off);
    LinkUntouched(f, sys.owned.Keys, op, off);
    LinkCatalogue(f, f', sys.owned.Keys, op, off);
    LinkedRecs(f, f', op, off);
    assert (sys.owned - {off}).Keys == sys.owned.Keys - {off};
  }

  lemma LinkedRecs(f: Files, f': Files, op: Op, off: nat)
    requires Linked1(f, f', op, off)
    ensures f'.s.recs == f.s.recs
  {
  }

  lemma {:induction false} LinkEdit(sys: Sys, p: Pid, op: Op, off: nat, f': Files)
    requires p in sys.procs && sys.procs[p] == Proc(op, Linking(off)) && op.DoStore?
    requires f' == LinkFiles(sys.f, op, off)
    requires Inv(sys)
    ensures GoodEdit(sys, p, f', sys.owned - {off}, Unlocking(StoreDone(Stored)))
  {
    hide Inv, LockInv, OwnInv, Filed, Catalogue, Hash, Held, Untouched, LinkFiles, ProcInv, WillStore, Mine, ClaimInv,
      DataAt;
    LinkEditFiles(sys, p, op, off, f');
    InvProc(sys, p);
    ClaimsSame(sys.f, f', sys.procs, p, Unlocking(StoreDone(Stored)));
    ProcFacts(sys.f, sys.m, sys.procs[p]);
    StoredProc(f', sys.m, op);
    WithinLocks(sys, p, f', {Slot(op)}, {off});
    hide HeldW, Slot;
  }

  lemma {:induction false} LinkInv(sys: Sys, p: Pid, off: nat, f': Files)
    requires Inv(sys) && p in sys.procs && sys.procs[p].op.DoStore? && sys.procs[p].pc == Linking(off)
    requires f' == LinkFiles(sys.f, sys.procs[p].op, off)
    ensures Inv(Goto(sys.(f := f', owned := sys.owned - {off}), p, Unlocking(StoreDone(Stored))))
  {
    hide Inv, OwnInv, GoodEdit, Hash, LinkFiles;
    LinkEdit(sys, p, sys.procs[p].op, off, f');
    InvLocks(sys);
    OwnLose(sys, p, Unlocking(StoreDone(Stored)), off);
    EditKeep(sys, p, f', sys.owned - {off}, Unlocking(StoreDone(Stored)));
  }

  lemma {:induction false} SameLenFiles(sys: Sys, p: Pid, op: Op, off: nat, f': Files)
    requires p in sys.procs && sys.procs[p] == Proc(op, SameLen(off)) && op.DoStore?
    requires f' == sys.f.(dat := Rewritten(sys.f, off, op.data))
    requires Inv(sys)
    ensures Filed(f'.s, f'.l, sys.owned.Keys) && Catalogue(f')
    ensures forall x :: x != op.key ==> Held(f', x) == Held(sys.f, x)
    ensures Held(f', op.key) == Some(op.data)
    ensures Untouched(sys.f, f', {Slot(op)}, {})
  {
    hide Inv, LockInv, OwnInv, Filed, Catalogue, Hash, Held, Untouched, ProcInv, WillStore, DataAt, Rewritten, ClaimInv;
    InvProc(sys, p);
    ProcFacts(sys.f, sys.m, sys.procs[p]);
    OverwriteKeeps(sys.f, f', sys.owned.Keys, op, off);
  }

  lemma {:induction false} SameLenEdit(sys: Sys, p: Pid, op: Op, off: nat, f': Files)
    requires p in sys.procs && sys.procs[p] == Proc(op, SameLen(off)) && op.DoStore?
    requires f' == sys.f.(dat := Rewritten(sys.f, off, op.data))
    requires Inv(sys)
    ensures GoodEdit(sys, p, f', sys.owned, Unlocking(StoreDone(Stored)))
  {
    hide Inv, LockInv, OwnInv, Filed, Catalogue, Hash, Held, Untouched, ProcInv, WillStore, Mine, DataAt, Rewritten,
      ClaimInv;
    SameLenFiles(sys, p, op, off, f');
    InvProc(sys, p);
    ClaimsSame(sys.f, f', sys.procs, p, Unlocking(StoreDone(Stored)));
    ProcFacts(sys.f, sys.m, sys.procs[p]);
    StoredProc(f', sys.m, op);
    WithinLocks(sys, p, f', {Slot(op)}, {});
    hide HeldW, Slot;
  }

  lemma {:induction false} SameLenInv(sys: Sys, p: Pid, off: nat, f': Files)
    requires Inv(sys) && p in sys.procs && sys.procs[p].op.DoStore? && sys.procs[p].pc == SameLen(off)
    requires f' == sys.f.(dat := Rewritten(sys.f, off, sys.procs[p].op.data))
    ensures Inv(Goto(sys.(f := f'), p, Unlocking(StoreDone(Stored))))
  {
    hide Inv, OwnInv, GoodEdit, Hash;
    SameLenEdit(sys, p, sys.procs[p].op, off, f');
    InvLocks(sys);
    OwnSame(sys, p, Unlocking(StoreDone(Stored)));
    EditKeep(sys, p, f', sys.owned, Unlocking(StoreDone(Stored)));
  }

  /** Giving back a region without having changed anything. */
  lemma {:induction false} DropInv(sys: Sys, p: Pid, r: nat, pc: Pc)
    requires Inv(sys) && p in sys.procs && sys.procs[p].op.DoStore? && r in HeldW(sys.procs[p]) &&
      NoNewClaim(sys.procs[p], pc)
    requires !pc.WaitChain? && !pc.Reuse? && !pc.Linking? && !sys.procs[p].pc.Reuse? && !sys.procs[p].pc.Linking?
    requires HeldW(sys.procs[p].(pc := pc)) == HeldW(sys.procs[p]) - {r}
    requires ProcInv(sys.f, sys.m, sys.procs[p].(pc := pc)) && (MayDiffer(sys.procs[p].pc) ==> MayDiffer(pc))
    ensures Inv(Goto(Unlock(sys, r), p, pc))
  {
    hide Inv, ProcInv, LockInv, OwnInv, Filed, Catalogue, HeldW, MayDiffer, NoNewClaim, ClaimInv;
    InvProc(sys, p);
    LockDrop(sys, p, r, pc);
    OwnFiles(Unlock(sys, r), sys);
    OwnSame(Unlock(sys, r), p, pc);
    QuietInv(sys, Goto(Unlock(sys, r), p, pc), p, pc);
  }

  // ----- the commit

  lemma CommitLocks(sys: Sys, sys': Sys, p: Pid)
    requires LockInv(sys) && p in sys.procs && HoldsChain(sys.procs[p]) && sys.procs[p].pc.Unlocking?
    requires sys'.procs == sys.procs - {p} && sys'.readers == sys.readers - {p}
    requires sys'.writer == if sys.procs[p].op.DoFetch? then sys.writer else sys.writer - {Slot(sys.procs[p].op)}
    ensures LockInv(sys')
  {
    hide Hash, Slot;
    var op := sys.procs[p].op;
    assert HeldW(sys.procs[p]) == if op.DoFetch? then {} else {Slot(op)};
    hide HeldW;
    forall r | r in sys'.writer ensures sys'.writer[r] in sys'.procs && r in HeldW(sys'.procs[sys'.writer[r]]) {
      assert sys.writer[r] != p;
    }
    forall q | q in sys'.procs
      ensures forall r :: r in HeldW(sys'.procs[q]) ==> r in sys'.writer && sys'.writer[r] == q
    {
    }
  }

  lemma CommitOwns(sys: Sys, sys': Sys, p: Pid)
    requires OwnInv(sys) && p in sys.procs && sys.procs[p].pc.Unlocking?
    requires sys'.procs == sys.procs - {p} && sys'.owned == sys.owned
    ensures OwnInv(sys')
  {
  }

  lemma CommitClaims(f: Files, procs: map<Pid, Proc>, p: Pid)
    requires ClaimInv(f, procs)
    ensures ClaimInv(f, procs - {p})
  {
    hide ClaimClear, ClaimOf;
  }

  lemma CommitLook(m: map<string, string>, op: Op, x: string)
    requires x != op.key
    ensures Look(StepMap(m, op), x) == Look(m, x)
  {
  }

  /** Giving the chain back is where an operation takes effect on the abstract map. */
  lemma {:induction false} CommitInv(sys: Sys, p: Pid, reply: Reply)
    requires Inv(sys) && p in sys.procs && sys.procs[p].pc == Unlocking(reply)
    ensures Inv(Act(sys, p))
    ensures reply == StepReply(sys.m, sys.procs[p].op)
  {
    hide ProcInv, LockInv, OwnInv, Filed, Catalogue, Hash, Held, Look, StepMap, StepReply, ClaimInv;
    var sys', op := Act(sys, p), sys.procs[p].op;
    CommitLocks(sys, sys', p);
    CommitOwns(sys, sys', p);
    CommitClaims(sys.f, sys.procs, p);
    CommitProc(sys.f, sys.m, op, reply);
    forall q | q in sys'.procs ensures ProcInv(sys'.f, sys'.m, sys'.procs[q]) {
      CommitOther(sys, p, q, reply);
    }
    forall x ensures Held(sys'.f, x) == Look(sys'.m, x) || Busy(sys', x) {
      if x != op.key {
        CommitLook(sys.m, op, x);
        if Busy(sys, x) {
          var q :| q in sys.procs && MayDiffer(sys.procs[q].pc) && sys.procs[q].op.key == x;
          assert q in sys'.procs && MayDiffer(sys'.procs[q].pc) && sys'.procs[q].op.key == x;
        }
      }
    }
  }

  lemma CommitProc(f: Files, m: map<string, string>, op: Op, reply: Reply)
    requires ProcInv(f, m, Proc(op, Unlocking(reply)))
    ensures reply == StepReply(m, op) && Held(f, op.key) == Look(StepMap(m, op), op.key)
  {
    hide StepMap, StepReply, Held, Look;
  }

  lemma CommitOther(sys: Sys, p: Pid, q: Pid, reply: Reply)
    requires Inv(sys) && p in sys.procs && sys.procs[p].pc == Unlocking(reply) && q in sys.procs && q != p
    ensures ProcInv(sys.f, StepMap(sys.m, sys.procs[p].op), sys.procs[q])
  {
    hide Inv, ProcInv, Filed, Catalogue, LockInv, OwnInv, Look, Hash;
    var op, m' := sys.procs[p].op, StepMap(sys.m, sys.procs[p].op);
    Unchanged(sys.f, HeldW(sys.procs[p]), Mine(sys, p));
    hide HeldW, Mine;
    if HoldsChain(sys.procs[q]) && !op.DoFetch? {
      InvLocks(sys);
      KeysApart(sys, p, q);
      CommitLook(sys.m, op, sys.procs[q].op.key);
    }
    hide StepMap;
    OthersKept(sys, sys.f, m', p, q);
  }

  // ----- every step

  lemma {:induction false} StoreLockInv(sys: Sys, p: Pid, op: Op, pc: Pc)
    requires Inv(sys) && Enabled(sys, p) && op.DoStore? && sys.procs[p] == Proc(op, pc)
    requires pc.FreeWait? || pc.DatWait? || pc.IdxWait?
    ensures Inv(ActStore(sys, p, op, pc))
  {
    hide Inv, Hash, RecSize, TakeFiles, PutRec, AppendFiles, Rewritten, LinkFiles, ActFree, Slot, Chain, ProcInv,
      CanWrite;
    InvProc(sys, p);
    NextProc(sys.f, sys.m, op, pc);
    match pc
    case FreeWait(head) => WriteLockInv(sys, p, FREE, FreeBody(head));
    case DatWait(head) => WriteLockInv(sys, p, DAT, DatBody(head));
    case IdxWait(head, datoff) => WriteLockInv(sys, p, IDX, IdxBody(head, datoff));
  }

  lemma {:induction false} StoreStepInv(sys: Sys, p: Pid, op: Op, pc: Pc)
    requires Inv(sys) && Enabled(sys, p) && op.DoStore? && sys.procs[p] == Proc(op, pc)
    requires !pc.WaitChain? && !pc.Walk? && !pc.DelWait? && !pc.DelBody? && !pc.Unlocking?
    ensures Inv(ActStore(sys, p, op, pc))
  {
    hide Inv, Hash, RecSize, TakeFiles, PutRec, AppendFiles, Rewritten, LinkFiles, ActFree, Slot, Chain, CanWrite;
    var f := sys.f;
    match pc
    case SameLen(off) => SameLenInv(sys, p, off, f.(dat := Rewritten(f, off, op.data)));
    case FreeBody(head) => FreeStepInv(sys, p, op, head);
    case Reuse(head, off) =>
      var r := IdxRec(head, op.key, RecIn(f.s, off).datoff, |op.data| + 1);
      ReuseInv(sys, p, head, off, r, PutRec(f, off, r).(dat := Rewritten(f, off, op.data)));
    case DatBody(head) => GrowInv(sys, p, head, f.(dat := f.dat + (op.data + "\n")));
    case IdxBody(head, datoff) =>
      var r := IdxRec(head, op.key, datoff, |op.data| + 1);
      AppendInv(sys, p, head, r, AppendFiles(f, r));
    case Linking(off) => LinkInv(sys, p, off, LinkFiles(f, op, off));
    case _ => StoreLockInv(sys, p, op, pc);
  }

  /** Waiting for a lock and getting it carries the same facts. */
  lemma NextProc(f: Files, m: map<string, string>, op: Op, pc: Pc)
    requires ProcInv(f, m, Proc(op, pc))
    ensures pc.DelWait? ==> ProcInv(f, m, Proc(op, DelBody(pc.off, pc.cell)))
    ensures pc.FreeWait? ==> ProcInv(f, m, Proc(op, FreeBody(pc.head)))
    ensures pc.FreeBody? ==> ProcInv(f, m, Proc(op, DatWait(pc.head)))
    ensures pc.DatWait? ==> ProcInv(f, m, Proc(op, DatBody(pc.head)))
    ensures pc.IdxWait? ==> ProcInv(f, m, Proc(op, IdxBody(pc.head, pc.datoff)))
  {
    hide Hash, Cell, CellFor, RecIn, DataAt, DataOf;
  }

  lemma FreeStepInv(sys: Sys, p: Pid, op: Op, head: nat)
    requires Inv(sys) && p in sys.procs && op.DoStore? && sys.procs[p] == Proc(op, FreeBody(head))
    ensures Inv(ActFree(sys, p, op, head))
  {
    hide Inv, Hash, TakeFiles, ProcInv, Slot, RecIn, Filed, Catalogue, LockInv, OwnInv, ClaimInv;
    InvProc(sys, p);
    NextProc(sys.f, sys.m, op, FreeBody(head));
    var c := Chain(sys.f.l, FREE);
    var i := FindFit(sys.f.s, c, |op.key|, |op.data| + 1, 0);
    if i < |c| {
      TakeInv(sys, p, head, i, c[i], TakeFiles(sys.f, i));
    } else {
      DropInv(sys, p, FREE, DatWait(head));
    }
  }

  lemma RemovesOnly(f: Files, m: map<string, string>, pr: Proc)
    requires ProcInv(f, m, pr)
    ensures pr.pc.DelWait? || pr.pc.DelBody? ==> !pr.op.DoFetch?
    ensures !pr.op.DoStore? ==> pr.pc.WaitChain? || pr.pc.Walk? || pr.pc.DelWait? || pr.pc.DelBody? || pr.pc.Unlocking?
  {
    hide Hash, Cell, CellFor, RecIn, DataAt, OnChain, Head, Held, Look, StepReply, StepMap;
  }

  /** Every step of every process, in every state, keeps the invariant. */
  lemma {:induction false} ActInv(sys: Sys, p: Pid)
    requires Inv(sys) && Enabled(sys, p)
    ensures Inv(Act(sys, p))
  {
    hide Inv, Hash, ProcInv, ActStore, WalkPc, DeleteFiles, StepMap, Cell, Slot;
    var op, pc := sys.procs[p].op, sys.procs[p].pc;
    InvProc(sys, p);
    RemovesOnly(sys.f, sys.m, sys.procs[p]);
    match pc
    case WaitChain =>
      if op.DoFetch? {
        ReadLockInv(sys, p);
      } else {
        WalkStart(sys.f, sys.m, sys.procs[p]);
        WriteLockInv(sys, p, Slot(op), Walk);
      }
    case Walk => WalkInv(sys, p);
    case DelWait(off, cell) =>
      NextProc(sys.f, sys.m, op, pc);
      WriteLockInv(sys, p, FREE, DelBody(off, cell));
    case DelBody(off, cell) =>
      var f' := DeleteFiles(sys.f, op, off, cell);
      DeleteInv(sys, p, off, cell, f', if op.DoStore? then DatWait(Cell(f'.s, PTR_SZ * Slot(op)))
        else Unlocking(Removed(0)));
    case Unlocking(reply) => CommitInv(sys, p, reply);
    case _ => StoreStepInv(sys, p, op, pc);
  }

  lemma NextInv(sys: Sys, e: Event)
    requires Inv(sys) && Possible(sys, e)
    ensures Inv(Next(sys, e))
  {
    hide Inv, Act, Enabled;
    match e
    case Call(p, op) => BeginInv(sys, p, op);
    case Run(p) => ActInv(sys, p);
  }

  // ----- whole runs

  function Start(): Sys {
    Sys(Files(Shape(seq(SLOTS, i => 0), map[]), Lists(seq(SLOTS, i => []), map[], map[]), REC_START, []),
        map[], map[], map[], map[], map[], [])
  }

  lemma StartInv()
    ensures Inv(Start())
  {
  }

  /** A run from a newly created database. */
  ghost predicate IsRun(states: seq<Sys>, events: seq<Event>) {
    && |states| == |events| + 1
    && states[0] == Start()
    && (forall i :: 0 <= i < |events| ==> Possible(states[i], events[i]) && states[i + 1] == Next(states[i], events[i]))
  }

  function LogOps(log: seq<Commit>): (ops: seq<Op>)
    ensures |ops| == |log|
  {
    seq(|log|, i requires 0 <= i < |log| => log[i].op)
  }

  /** The log replayed one operation at a time gives the same answers and the same map. */
  ghost predicate Replays(sys: Sys) {
    && sys.m == RunMap(map[], LogOps(sys.log))
    && forall i :: 0 <= i < |sys.log| ==>
         sys.log[i].reply == StepReply(RunMap(map[], LogOps(sys.log)[..i]), sys.log[i].op)
  }

  function LogReplies(log: seq<Commit>): (replies: seq<Reply>)
    ensures |replies| == |log|
  {
    seq(|log|, i requires 0 <= i < |log| => log[i].reply)
  }

  function CallOf(e: Event, p: Pid): seq<Op> {
    if e.Call? && e.pid == p then [e.op] else []
  }

  /** The operations that p called, in order. */
  function Called(events: seq<Event>, p: Pid): seq<Op> {
    if events == [] then [] else Called(events[..|events| - 1], p) + CallOf(events[|events| - 1], p)
  }

  /** The operations of p in the log, in order. */
  function Committed(log: seq<Commit>, p: Pid): seq<Op> {
    if log == [] then []
    else
      var c := log[|log| - 1];
      Committed(log[..|log| - 1], p) + if c.pid == p then [c.op] else []
  }

  function PendingOps(sys: Sys, p: Pid): seq<Op> {
    if p in sys.procs then [sys.procs[p].op] else []
  }

  /**
   * Main result. In every state of every run: the invariant holds; the
   * concurrent operations so far are equivalent to running them one after
   * another in the order in which they gave back their chains; and that order
   * holds each process's operations once each, in the order it called them.
   */
  lemma {:induction false} RunIsSerial(states: seq<Sys>, events: seq<Event>, n: nat, p: Pid)
    requires IsRun(states, events) && n < |states|
    ensures Inv(states[n]) && Replays(states[n])
    ensures Called(events[..n], p) == Committed(states[n].log, p) + PendingOps(states[n], p)
  {
    hide Inv, Replays, Start, Next, Possible, Called, Committed, PendingOps;
    if n == 0 {
      StartGood(p);
    } else {
      RunIsSerial(states, events, n - 1, p);
      assert states[n] == Next(states[n - 1], events[n - 1]);
      assert events[..n] == events[..n - 1] + [events[n - 1]];
      NextInv(states[n - 1], events[n - 1]);
      NextReplays(states[n - 1], events[n - 1]);
      NextInOrder(states[n - 1], events[..n - 1], events[n - 1], p);
    }
  }

  /**
   * The log of every state of every run answers what a serial execution
   * answers, told code by code: there are maps between its entries, from the
   * empty one to the map of the files, and entry i takes map i to map i + 1
   * and answers as it says; so a fetch answers the last write before it.
   */
  lemma {:induction false} LogIsSerial(states: seq<Sys>, events: seq<Event>, n: nat, i: nat)
    returns (maps: seq<map<string, string>>)
    requires IsRun(states, events) && n < |states| && i < |states[n].log|
    ensures Serial(map[], LogOps(states[n].log), LogReplies(states[n].log), maps)
    ensures maps[|states[n].log|] == states[n].m
    ensures var op, reply := states[n].log[i].op, states[n].log[i].reply;
      var w := LastWrite(LogOps(states[n].log), LogReplies(states[n].log), op.key, i);
      op.DoFetch? ==> reply == Fetched(if w.Some? then w.value else None)
  {
    hide Inv, IsRun, Called, Committed, PendingOps, StepReply, RunMap, Serial;
    RunIsSerial(states, events, n, 0);
    var ops, replies := LogOps(states[n].log), LogReplies(states[n].log);
    maps := MapsOf(map[], ops, |ops|);
    AnswersAreSerial(map[], ops, replies);
    assert ops[..|ops|] == ops;
    if ops[i].DoFetch? {
      FetchReadsLast(map[], ops, replies, maps, i);
    }
  }

  lemma StartGood(p: Pid)
    ensures Inv(Start()) && Replays(Start())
    ensures Called([], p) == Committed(Start().log, p) + PendingOps(Start(), p)
  {
    StartInv();
    hide Inv;
  }

  lemma {:induction false} NextInOrder(sys: Sys, events: seq<Event>, e: Event, p: Pid)
    requires Possible(sys, e) && Called(events, p) == Committed(sys.log, p) + PendingOps(sys, p)
    ensures Called(events + [e], p) == Committed(Next(sys, e).log, p) + PendingOps(Next(sys, e), p)
  {
    assert (events + [e])[..|events|] == events;
    assert e.Run? ==> e.pid in sys.procs;
    hide Act, Enabled, Committed, Called;
    assert Called(events + [e], p) == Called(events, p) + CallOf(e, p) by { CalledMore(events, e, p); }
    if e.Run? {
      var q := e.pid;
      ActOps(sys, q);
      if sys.procs[q].pc.Unlocking? {
        CommitLogs(sys, q);
        CommittedMore(sys.log, Commit(q, sys.procs[q].op, sys.procs[q].pc.reply), p);
      } else {
        OnlyCommitsLog(sys, q);
      }
    }
  }

  lemma CalledMore(events: seq<Event>, e: Event, p: Pid)
    ensures Called(events + [e], p) == Called(events, p) + CallOf(e, p)
  {
    assert (events + [e])[..|events|] == events;
  }

  lemma CommittedMore(log: seq<Commit>, c: Commit, p: Pid)
    ensures Committed(log + [c], p) == Committed(log, p) + if c.pid == p then [c.op] else []
  {
    assert (log + [c])[..|log|] == log;
  }

  /** A step ends the operation of its process exactly when it commits it. */
  lemma ActOps(sys: Sys, q: Pid)
    requires q in sys.procs
    ensures q in Act(sys, q).procs <==> !sys.procs[q].pc.Unlocking?
    ensures q in Act(sys, q).procs ==> Act(sys, q).procs[q].op == sys.procs[q].op
    ensures forall p :: p != q ==> (p in Act(sys, q).procs <==> p in sys.procs)
    ensures forall p :: p != q && p in sys.procs ==> Act(sys, q).procs[p] == sys.procs[p]
  {
    hide WalkPc, DeleteFiles, Cell, Slot, ActStore;
    if sys.procs[q].op.DoStore? {
      StoreOps(sys, q, sys.procs[q].op, sys.procs[q].pc);
    }
  }

  lemma StoreOps(sys: Sys, q: Pid, op: Op, pc: Pc)
    requires op.DoStore? && q in sys.procs
    ensures q in ActStore(sys, q, op, pc).procs && ActStore(sys, q, op, pc).procs[q].op == sys.procs[q].op
    ensures forall p :: p != q ==> (p in ActStore(sys, q, op, pc).procs <==> p in sys.procs)
    ensures forall p :: p != q && p in sys.procs ==> ActStore(sys, q, op, pc).procs[p] == sys.procs[p]
  {
    hide Cell, Slot, PutRec, AppendFiles, Rewritten, TakeFiles, LinkFiles, RecSize, FindFit, RecIn, Chain;
  }

  lemma NextReplays(sys: Sys, e: Event)
    requires Inv(sys) && Possible(sys, e) && Replays(sys)
    ensures Replays(Next(sys, e))
  {
    assert e.Run? ==> e.pid in sys.procs;
    hide Inv, WalkPc, DeleteFiles, Cell, Hash, StepMap, StepReply, Replays, Act, Enabled, Slot;
    if e.Run? && sys.procs[e.pid].pc.Unlocking? {
      var p := e.pid;
      CommitInv(sys, p, sys.procs[p].pc.reply);
      CommitLogs(sys, p);
      ReplayOne(sys, Act(sys, p), Commit(p, sys.procs[p].op, sys.procs[p].pc.reply));
    } else {
      if e.Run? {
        OnlyCommitsLog(sys, e.pid);
      }
      SameReplays(sys, Next(sys, e));
    }
  }

  lemma CommitLogs(sys: Sys, p: Pid)
    requires p in sys.procs && sys.procs[p].pc.Unlocking?
    ensures Act(sys, p).m == StepMap(sys.m, sys.procs[p].op)
    ensures Act(sys, p).log == sys.log + [Commit(p, sys.procs[p].op, sys.procs[p].pc.reply)]
  {
  }

  lemma OnlyCommitsLog(sys: Sys, p: Pid)
    requires p in sys.procs && !sys.procs[p].pc.Unlocking?
    ensures Act(sys, p).m == sys.m && Act(sys, p).log == sys.log
  {
    hide WalkPc, DeleteFiles, Cell, Slot, ActStore;
    if sys.procs[p].op.DoStore? {
      StoreKeepsLog(sys, p, sys.procs[p].op, sys.procs[p].pc);
    }
  }

  lemma StoreKeepsLog(sys: Sys, p: Pid, op: Op, pc: Pc)
    requires op.DoStore?
    ensures ActStore(sys, p, op, pc).m == sys.m && ActStore(sys, p, op, pc).log == sys.log
  {
    hide Cell, Slot, PutRec, AppendFiles, Rewritten, TakeFiles, LinkFiles, RecSize, FindFit, RecIn, Chain;
  }

  lemma SameReplays(sys: Sys, sys': Sys)
    requires Replays(sys) && sys'.m == sys.m && sys'.log == sys.log
    ensures Replays(sys')
  {
  }

  lemma ReplayOne(sys: Sys, sys': Sys, c: Commit)
    requires Replays(sys) && c.reply == StepReply(sys.m, c.op)
    requires sys'.m == StepMap(sys.m, c.op) && sys'.log == sys.log + [c]
    ensures Replays(sys')
  {
    hide StepMap, StepReply;
    var log' := sys.log + [c];
    var ops, ops' := LogOps(sys.log), LogOps(log');
    assert ops'[..|ops|] == ops;
    forall i | 0 <= i < |log'| ensures log'[i].reply == StepReply(RunMap(map[], ops'[..i]), log'[i].op) {
      if i < |sys.log| {
        assert ops'[..i] == ops[..i];
      }
    }
  }

  // ----- steps stay within the locks

  lemma StoreConfined(sys: Sys, p: Pid, op: Op, pc: Pc)
    requires Inv(sys) && p in sys.procs && op.DoStore? && sys.procs[p] == Proc(op, pc)
    ensures Untouched(sys.f, ActStore(sys, p, op, pc).f, HeldW(sys.procs[p]), Mine(sys, p))
  {
    hide Inv, Hash, RecSize, TakeFiles, LinkFiles, Slot, Untouched, HeldW, Mine, Filed, Catalogue, ProcInv, Held;
    var f := sys.f;
    Unchanged(f, HeldW(sys.procs[p]), Mine(sys, p));
    match pc
    case SameLen(off) => SameLenEdit(sys, p, op, off, f.(dat := Rewritten(f, off, op.data)));
    case FreeBody(head) =>
      var c := Chain(f.l, FREE);
      var i := FindFit(f.s, c, |op.key|, |op.data| + 1, 0);
      if i < |c| {
        TakeEdit(sys, p, head, i, c[i], TakeFiles(f, i));
      }
    case Reuse(head, off) =>
      var r := IdxRec(head, op.key, RecIn(f.s, off).datoff, |op.data| + 1);
      ReuseEdit(sys, p, op, head, off, r, PutRec(f, off, r).(dat := Rewritten(f, off, op.data)));
    case DatBody(head) => GrowEdit(sys, p, op, head, f.(dat := f.dat + (op.data + "\n")));
    case IdxBody(head, datoff) =>
      var r := IdxRec(head, op.key, datoff, |op.data| + 1);
      AppendEdit(sys, p, op, head, r, AppendFiles(f, r));
    case Linking(off) => LinkEdit(sys, p, op, off, LinkFiles(f, op, off));
    case _ =>
  }

  /**
   * A step changes only the lists that its process has write-locked, the free
   * list among them, the record it owns, and the data of those; and the end of
   * the index and of the data file only with the lock for that.
   */
  lemma {:induction false} StepConfined(sys: Sys, p: Pid)
    requires Inv(sys) && p in sys.procs
    ensures Untouched(sys.f, Act(sys, p).f, HeldW(sys.procs[p]), Mine(sys, p))
  {
    hide Inv, Hash, Slot, Untouched, HeldW, Mine, ActStore, DeleteFiles, Cell, WalkPc, Filed, Catalogue, ProcInv, Held;
    var op, pc, f := sys.procs[p].op, sys.procs[p].pc, sys.f;
    Unchanged(f, HeldW(sys.procs[p]), Mine(sys, p));
    InvProc(sys, p);
    RemovesOnly(f, sys.m, sys.procs[p]);
    if pc.DelBody? {
      var f' := DeleteFiles(f, op, pc.off, pc.cell);
      DeleteEdit(sys, p, pc.off, pc.cell, f',
        if op.DoStore? then DatWait(Cell(f'.s, PTR_SZ * Slot(op))) else Unlocking(Removed(0)));
    } else if op.DoStore? {
      StoreConfined(sys, p, op, pc);
    }
  }

  // ----- deadlock, ownership and the quiet state

  /** A region's holder, if it is not a chain, can always move. */
  lemma InnerHolderMoves(sys: Sys, r: nat)
    requires LockInv(sys) && r in sys.writer && (r == FREE || r >= SLOTS)
    ensures sys.writer[r] in sys.procs && Enabled(sys, sys.writer[r])
  {
    hide Hash;
  }

  /** Locks are taken in the order chain, free list, append region, so some process can always move. */
  lemma {:induction false} NoDeadlock(sys: Sys)
    requires Inv(sys) && sys.procs.Keys != {}
    ensures exists p :: Enabled(sys, p)
  {
    hide FilesInv, OwnInv, Agrees, ProcInv, Hash, LockInv, ClaimInv, Enabled;
    var p :| p in sys.procs;
    var q := Blocker(sys, p);
    if !Enabled(sys, q) {
      var r := Blocker(sys, q);
      assert Enabled(sys, r);
    }
  }

  function WaitsFor(pr: Proc): nat {
    match pr.pc
    case DelWait(_, _) => FREE
    case FreeWait(_) => FREE
    case DatWait(_) => DAT
    case IdxWait(_, _) => IDX
    case _ => Slot(pr.op)
  }

  /** Who has to move before a waiting process can: never again a process waiting for a chain. */
  ghost function Blocker(sys: Sys, p: Pid): (q: Pid)
    requires p in sys.procs && LockInv(sys)
    ensures q in sys.procs
    ensures sys.procs[p].pc.WaitChain? && !Enabled(sys, p) ==> HoldsChain(sys.procs[q])
    ensures HoldsChain(sys.procs[p]) ==> Enabled(sys, q)
    ensures Enabled(sys, p) ==> q == p
  {
    hide Hash;
    if Enabled(sys, p) then p
    else
      var r := WaitsFor(sys.procs[p]);
      if r in sys.writer then
        assert HoldsChain(sys.procs[p]) ==> Enabled(sys, sys.writer[r]) by {
          if HoldsChain(sys.procs[p]) {
            InnerHolderMoves(sys, r);
          }
        }
        sys.writer[r]
      else
        var q :| q in sys.readers && sys.readers[q] == r;
        q
  }

  /**
   * Every record is on exactly one list, once, and that list is the free list or
   * the chain of its key's hash; or it is on none and belongs to exactly one
   * process that is in the middle of a store.
   */
  lemma {:induction false} OneOwner(sys: Sys, off: nat)
    requires Inv(sys) && off in sys.f.s.recs
    ensures off in sys.owned <==> (forall k: nat :: k < SLOTS ==> off !in Chain(sys.f.l, k))
    ensures off !in sys.owned ==>
      exists k: nat, i: nat :: ListedAt(sys, off, k, i) && (k == 0 || k == 1 + Hash(RecIn(sys.f.s, off).key))
    ensures forall k: nat, i: nat, k': nat, i': nat :: ListedAt(sys, off, k, i) && ListedAt(sys, off, k', i') ==>
      k == k' && i == i'
    ensures off in sys.owned <==> exists p :: p in sys.procs && Owns(sys.procs[p], off)
    ensures forall p, q :: p in sys.procs && q in sys.procs && Owns(sys.procs[p], off) && Owns(sys.procs[q], off) ==>
      p == q
  {
    hide LockInv, Agrees, ProcInv, Hash, Threaded, Extents, Whole, ClaimInv;
    var l := sys.f.l;
    assert l.slotOf.Keys == sys.f.s.recs.Keys - sys.owned.Keys;
    if off !in sys.owned {
      var k := l.slotOf[off];
      assert off in l.chains[k];
      var i :| 0 <= i < |l.chains[k]| && l.chains[k][i] == off;
      assert ListedAt(sys, off, k, i);
      if k != 0 {
        assert Catalogued(sys.f, RecIn(sys.f.s, off).key);
      }
    }
    forall k: nat, i: nat, k': nat, i': nat | ListedAt(sys, off, k, i) && ListedAt(sys, off, k', i')
      ensures k == k' && i == i' {
      assert l.slotOf[l.chains[k][i]] == k && l.slotOf[l.chains[k'][i']] == k';
      assert NoDup(l.chains[k]);
    }
  }

  predicate ListedAt(sys: Sys, off: nat, k: nat, i: nat) {
    k < SLOTS && i < |Chain(sys.f.l, k)| && Chain(sys.f.l, k)[i] == off
  }

  /** With no operation in progress the files hold exactly the abstract map. */
  lemma QuietAgrees(sys: Sys, x: string)
    requires Inv(sys) && sys.procs.Keys == {}
    ensures Held(sys.f, x) == Look(sys.m, x)
  {
    hide FilesInv, LockInv, OwnInv, ClaimInv;
    assert !Busy(sys, x);
  }

  /**
   * With no operation in progress the files are what a sequential store would
   * have left: every record on one list, index and data regions apart, and the
   * chained records and their data the abstract map.
   */
  lemma {:induction false} QuietRepresents(sys: Sys)
    requires Inv(sys) && sys.procs.Keys == {}
    ensures Filed(sys.f.s, sys.f.l, {}) && Tiled(sys.f.s.recs, sys.f.eof)
    ensures Regions(Info(sys.f.s.recs), |sys.f.dat|) && Mapped(Info(sys.f.s.recs), sys.f.l, sys.f.dat, sys.m)
  {
    hide LockInv, Agrees, ProcInv, ClaimInv, Hash, Filed, Tiled, Regions, Held, Look, AllBlank;
    assert sys.owned.Keys == {};
    var f := sys.f;
    InfoRegions(f.s.recs, |f.dat|);
    SlotsAreRecs(f.s, f.l, {});
    forall x ensures Held(f, x) == Look(sys.m, x) {
      QuietAgrees(sys, x);
    }
    hide FilesInv, OwnInv, Inv;
    QuietMapped(f, sys.m);
  }

  lemma InfoRegions(recs: map<nat, IdxRec>, n: nat)
    requires Regions(recs, n)
    ensures Regions(Info(recs), n)
  {
    forall a, b | a in recs && b in recs && a != b ensures Disjoint(Info(recs)[a], Info(recs)[b]) {
      assert Disjoint(recs[a], recs[b]);
    }
  }

  lemma {:induction false} QuietMapped(f: Files, m: map<string, string>)
    requires Filed(f.s, f.l, {}) && Catalogue(f) && f.l.slotOf.Keys <= f.s.recs.Keys
    requires forall x :: Held(f, x) == Look(m, x)
    ensures Mapped(Info(f.s.recs), f.l, f.dat, m)
  {
    hide Filed, Hash, AllBlank, Extents, Whole, DataAt, DataOf;
    var info := Info(f.s.recs);
    forall x ensures x in f.l.where <==> x in m {
      assert Held(f, x) == Look(m, x);
    }
    assert f.l.where.Keys == m.Keys;
    assert forall off :: off in f.l.slotOf ==> info[off].key == RecIn(f.s, off).key;
    forall x | x in m ensures Holds(info, f.l.slotOf, f.dat, x, f.l.where[x], m[x]) {
      assert Held(f, x) == Look(m, x);
      var off := f.l.where[x];
      CatalogueFacts(f, {}, x);
      WholeData(f, off);
      DataOfSpan(RecIn(f.s, off), info[off], f.dat);
    }
  }
}
