/**
 * What the locking of the object table guarantees over whole runs: every run
 * of any number of threads does what the table under one big lock does, in the
 * order of the log; nothing that is freed is known to anybody; nobody is stuck
 * for ever.
 */
module RefTableRuns {
  import opened Options
  import opened RefTableCoarse
  import opened RefTable
  import opened RefTableProof

  // ----- refinement of the table under one lock

  /** The commit is what the one-lock table does and answers at this point. */
  ghost predicate Commits(sys: Sys, sys': Sys, c: Commit) {
    && sys'.log == sys.log + [c]
    && Abs(sys'.mem) == Apply(Abs(sys.mem), c.op)
    && c.result == Result(Abs(sys.mem), c.op)
  }

  ghost predicate Stutters(sys: Sys, sys': Sys) {
    sys'.log == sys.log && Abs(sys'.mem) == Abs(sys.mem)
  }

  ghost predicate Refines(sys: Sys, sys': Sys) {
    Stutters(sys, sys') || (|sys'.log| > |sys.log| && Commits(sys, sys', sys'.log[|sys.log|]))
  }

  lemma {:induction false} MemRefines(sys: Sys, t: Tid, pc: Pc)
    requires Inv(sys) && t in sys.threads && sys.threads[t] == pc
    ensures Refines(sys, MemStep(sys, t, pc))
  {
    hide Inv, MemInv, LockInv, LimboInv, Abs, Found, Hold, Rele, Alloc, NextMem, LinkMem, IncMem, DecMem, UnlinkMem,
      FreeMem,
         FooAt, HeadAt, BucketOf, Bucket, SearchAt, Before, Owned, Token, Tabled, Sole;
    InvOf(sys, t);
    var mem := sys.mem;
    match pc
    case AllocNext(o) => NextKeeps(mem, t, o, HeadAt(mem, BucketOf(mem, o)));
    case AllocHead(o) => OwnedLimbo(mem, t, o); LinkAbs(mem, o);
    case HoldInc(o) => TokenTabled(sys, t, o); IncAbs(mem, t, o);
    case FindTest(id, cur) => FindTestPc(mem, sys.flock, t, id, cur);
    case FindInc(id, o) => TabledNotNull(mem, o); IncAbs(mem, t, o);
    case ReleTest(o) => TokenTabled(sys, t, o); if FooAt(mem, o).count != 1 { DecAbs(mem, t, o); }
    case ReleRecheck(o) => TokenTabled(sys, t, o); if FooAt(mem, o).count != 1 { DecAbs(mem, t, o); }
    case ReleHead(o) =>
      ReleHeadPc(mem, sys.flock, t, o);
      if HeadAt(mem, BucketOf(mem, o)) == o { UnlinkAbs(mem, t, o, 0); }
    case ReleWalk(o, x) =>
      ReleWalkPc(mem, sys.flock, t, o, x);
      if FooAt(mem, x).next == o { UnlinkAbs(mem, t, o, x); }
    case ReleFree(o) => FreeKeeps(mem, t, o);
    case _ =>
  }

  lemma OwnedLimbo(mem: Mem, t: Tid, o: nat)
    requires Owned(mem, t, o)
    ensures o in mem.limbo
  {
  }

  lemma TabledNotNull(mem: Mem, o: nat)
    requires MemInv(mem) && Tabled(mem, o)
    ensures o != 0
  {
  }

  lemma {:induction false} NextRefines(sys: Sys, e: Event)
    requires Inv(sys) && Possible(sys, e)
    ensures Refines(sys, Next(sys, e))
  {
    hide Inv, Abs, MemStep, NewMem, GiveMem, Commits;
    match e
    case CallAlloc(t, o, id) => NewAbs(sys.mem, t, o, id);
    case Give(t, u, o) =>
      InvOf(sys, t);
      TokenTabled(sys, t, o);
      GiveKeeps(sys.mem, t, u, o);
    case Run(t) => MemRefines(sys, t, sys.threads[t]);
    case _ =>
  }

  function Start(): Sys {
    Sys(Mem(seq(NHASH, i => 0), map[], seq(NHASH, i => []), map[], map[]), None, map[], map[], [])
  }

  /** A run from the zeroed table. */
  ghost predicate IsRun(states: seq<Sys>, events: seq<Event>) {
    && |states| == |events| + 1
    && states[0] == Start()
    && (forall i :: 0 <= i < |events| ==> Possible(states[i], events[i]) && states[i + 1] == Next(states[i], events[i]))
  }

  function LogOps(log: seq<Commit>): (ops: seq<Op>)
    ensures |ops| == |log|
  {
    seq(|log|, i requires 0 <= i < |log| => log[i].op)
  }

  function Empty(): Table { Table(seq(NHASH, i => []), map[]) }

  /** The log replayed under one lock gives the same answers and the same table. */
  ghost predicate Replays(sys: Sys) {
    && Abs(sys.mem) == Replay(Empty(), LogOps(sys.log))
    && forall i :: 0 <= i < |sys.log| ==>
         sys.log[i].result == Result(Replay(Empty(), LogOps(sys.log)[..i]), sys.log[i].op)
  }

  lemma StartGood()
    ensures Inv(Start()) && Replays(Start())
  {
    var sys := Start();
    forall b: nat | b < NHASH ensures Linked(sys.mem.fh, sys.mem.heap, sys.mem.lists[b], b) {
    }
    assert Abs(sys.mem).objs == Empty().objs;
  }

  lemma StartOrder(t: Tid)
    ensures Called([], t) == OpsOf(Committed(Start().log, t)) + PendingOps(Start(), t) && Answered(Start(), t)
  {
  }

  lemma {:induction false} ReplayOne(sys: Sys, sys': Sys, c: Commit)
    requires Replays(sys) && Commits(sys, sys', c)
    ensures Replays(sys')
  {
    hide Abs, Apply, Result;
    var ops, ops' := LogOps(sys.log), LogOps(sys'.log);
    assert ops' == ops + [c.op] && ops'[..|ops| + 1 - 1] == ops;
    forall i | 0 <= i < |sys'.log|
      ensures sys'.log[i].result == Result(Replay(Empty(), ops'[..i]), sys'.log[i].op)
    {
      if i < |sys.log| {
        assert ops'[..i] == ops[..i] && sys'.log[i] == sys.log[i];
      }
    }
  }

  lemma {:induction false} NextReplays(sys: Sys, e: Event)
    requires Inv(sys) && Possible(sys, e) && Replays(sys)
    ensures Replays(Next(sys, e))
  {
    hide Inv, Next, Possible, Abs, Commits;
    NextRefines(sys, e);
    var sys' := Next(sys, e);
    if !Stutters(sys, sys') {
      ReplayOne(sys, sys', sys'.log[|sys.log|]);
    }
  }

  // ----- each thread's operations take effect once each, in the order it called them

  /** The operation has had its effect and only has locks, or memory, to give back. */
  predicate Done(pc: Pc) {
    || pc.AllocLock? || pc.AllocUnhash? || pc.AllocUnlock? || pc.HoldUnlock? || pc.FindUnlock? || pc.FindUnhash?
    || pc.ReleUnlock? || pc.ReleUnlock2? || pc.ReleUnhash2? || pc.ReleUnhash? || pc.ReleUnlockF? || pc.ReleFree?
  }

  function OpOf(mem: Mem, pc: Pc): Op
    requires !Done(pc)
  {
    match pc
    case AllocHash(o) => OpAlloc(o, FooAt(mem, o).id)
    case AllocNext(o) => OpAlloc(o, FooAt(mem, o).id)
    case AllocHead(o) => OpAlloc(o, FooAt(mem, o).id)
    case HoldLock(o) => OpHold(o)
    case HoldInc(o) => OpHold(o)
    case FindHash(id) => OpFind(id)
    case FindHead(id) => OpFind(id)
    case FindTest(id, _) => OpFind(id)
    case FindLock(id, _) => OpFind(id)
    case FindInc(id, _) => OpFind(id)
    case ReleLock(o) => OpRele(o)
    case ReleTest(o) => OpRele(o)
    case ReleDrop(o) => OpRele(o)
    case ReleHash(o) => OpRele(o)
    case ReleRelock(o) => OpRele(o)
    case ReleRecheck(o) => OpRele(o)
    case ReleHead(o) => OpRele(o)
    case ReleWalk(o, _) => OpRele(o)
  }

  /** What the C function is about to return. */
  function Answer(pc: Pc): nat {
    match pc
    case AllocLock(o) => o
    case AllocUnhash(o) => o
    case AllocUnlock(o) => o
    case FindUnlock(o) => o
    case FindUnhash(res) => res
    case _ => 0
  }

  function PendingOps(sys: Sys, t: Tid): seq<Op> {
    if t !in sys.threads || Done(sys.threads[t]) then [] else [OpOf(sys.mem, sys.threads[t])]
  }

  function CallOf(e: Event, t: Tid): seq<Op> {
    match e
    case CallAlloc(u, o, id) => if u == t then [OpAlloc(o, id)] else []
    case CallHold(u, o) => if u == t then [OpHold(o)] else []
    case CallFind(u, id) => if u == t then [OpFind(id)] else []
    case CallRele(u, o) => if u == t then [OpRele(o)] else []
    case _ => []
  }

  /** The operations that t called, in order. */
  function Called(events: seq<Event>, t: Tid): seq<Op> {
    if events == [] then [] else Called(events[..|events| - 1], t) + CallOf(events[|events| - 1], t)
  }

  /** The commits of t, in the order of the log. */
  function Committed(log: seq<Commit>, t: Tid): seq<Commit> {
    if log == [] then []
    else
      var c := log[|log| - 1];
      Committed(log[..|log| - 1], t) + if c.tid == t then [c] else []
  }

  function OpsOf(cs: seq<Commit>): (ops: seq<Op>)
    ensures |ops| == |cs|
  {
    seq(|cs|, i requires 0 <= i < |cs| => cs[i].op)
  }

  /** A thread whose operation is done returns what the log says of its latest operation. */
  ghost predicate Answered(sys: Sys, t: Tid) {
    t in sys.threads && Done(sys.threads[t]) ==>
      var cs := Committed(sys.log, t);
      cs != [] && cs[|cs| - 1].result == Answer(sys.threads[t])
  }

  /** The pending operation is still pending, or nothing is left of it but what it answers. */
  ghost predicate Continues(sys: Sys, sys': Sys, t: Tid) {
    && t in sys.threads && sys'.log == sys.log && PendingOps(sys', t) == PendingOps(sys, t)
    && (t in sys'.threads && Done(sys'.threads[t]) ==>
          Done(sys.threads[t]) && Answer(sys'.threads[t]) == Answer(sys.threads[t]))
  }

  /** The pending operation enters the log with the answer that t will return. */
  ghost predicate TakesEffect(sys: Sys, sys': Sys, t: Tid) {
    && t in sys.threads && !Done(sys.threads[t]) && t in sys'.threads && Done(sys'.threads[t])
    && sys'.log == sys.log + [Commit(t, OpOf(sys.mem, sys.threads[t]), Answer(sys'.threads[t]))]
  }

  lemma LockContinues(sys: Sys, t: Tid, pc: Pc)
    requires t in sys.threads && sys.threads[t] == pc && (WaitsHash(pc) || WaitsLock(pc))
    ensures Continues(sys, LockStep(sys, t, pc), t)
  {
    hide FooAt;
  }

  lemma UnlockContinues(sys: Sys, t: Tid, pc: Pc)
    requires t in sys.threads && sys.threads[t] == pc && Unlocks(pc)
    ensures Continues(sys, UnlockStep(sys, t, pc), t)
  {
    hide FooAt;
    assert Done(pc) || pc.ReleDrop?;
  }

  lemma {:induction false} ReleOwnStep(sys: Sys, t: Tid, pc: Pc)
    requires t in sys.threads && sys.threads[t] == pc
    requires pc.ReleTest? || pc.ReleRecheck? || pc.ReleHead? || pc.ReleWalk? || pc.ReleFree?
    ensures Continues(sys, MemStep(sys, t, pc), t) || TakesEffect(sys, MemStep(sys, t, pc), t)
  {
    hide HeadAt, BucketOf, DecMem, UnlinkMem, FreeMem, FooAt;
  }

  lemma {:induction false} MemOwnStep(sys: Sys, t: Tid, pc: Pc)
    requires t in sys.threads && sys.threads[t] == pc && !WaitsHash(pc) && !WaitsLock(pc) && !Unlocks(pc)
    ensures Continues(sys, MemStep(sys, t, pc), t) || TakesEffect(sys, MemStep(sys, t, pc), t)
  {
    hide HeadAt, BucketOf, LinkMem, IncMem, DecMem, UnlinkMem, FreeMem, FooAt;
    if pc.ReleTest? || pc.ReleRecheck? || pc.ReleHead? || pc.ReleWalk? || pc.ReleFree? {
      ReleOwnStep(sys, t, pc);
    } else if pc.AllocNext? {
      NextId(sys.mem, pc.o);
      hide NextMem;
    }
  }

  lemma NextId(mem: Mem, o: nat)
    ensures FooAt(NextMem(mem, o, HeadAt(mem, BucketOf(mem, o))), o).id == FooAt(mem, o).id
  {
  }

  lemma {:induction false} OwnStep(sys: Sys, t: Tid)
    requires t in sys.threads
    ensures Continues(sys, Act(sys, t), t) || TakesEffect(sys, Act(sys, t), t)
  {
    var pc := sys.threads[t];
    hide Continues, TakesEffect, LockStep, UnlockStep, MemStep, WaitsHash, WaitsLock, Unlocks;
    if WaitsHash(pc) || WaitsLock(pc) {
      LockContinues(sys, t, pc);
    } else if Unlocks(pc) {
      UnlockContinues(sys, t, pc);
    } else {
      MemOwnStep(sys, t, pc);
    }
  }

  lemma IdKept(sys: Sys, t: Tid, o: nat)
    requires Inv(sys) && t in sys.threads && o in sys.mem.heap && sys.threads[t] != ReleFree(o)
    ensures o in Act(sys, t).mem.heap && FooAt(Act(sys, t).mem, o).id == FooAt(sys.mem, o).id
  {
    hide Inv, HeadAt, Without, IndexOf, Bucket;
  }

  ghost predicate Ledger(sys: Sys, events: seq<Event>, t: Tid) {
    Called(events, t) == OpsOf(Committed(sys.log, t)) + PendingOps(sys, t) && Answered(sys, t)
  }

  lemma CommittedMore(log: seq<Commit>, c: Commit, t: Tid)
    ensures Committed(log + [c], t) == Committed(log, t) + if c.tid == t then [c] else []
  {
    assert (log + [c])[..|log|] == log;
  }

  lemma CalledMore(events: seq<Event>, e: Event, t: Tid)
    ensures Called(events + [e], t) == Called(events, t) + CallOf(e, t)
  {
    assert (events + [e])[..|events|] == events;
  }

  lemma {:induction false} OwnLedger(sys: Sys, events: seq<Event>, t: Tid)
    requires t in sys.threads && Ledger(sys, events, t)
    ensures Ledger(Act(sys, t), events + [Run(t)], t)
  {
    hide Act, Called, OpOf, Answer, Committed, Done;
    OwnStep(sys, t);
    CalledMore(events, Run(t), t);
    var sys' := Act(sys, t);
    if !Continues(sys, sys', t) {
      var c := Commit(t, OpOf(sys.mem, sys.threads[t]), Answer(sys'.threads[t]));
      CommittedMore(sys.log, c, t);
      assert OpsOf(Committed(sys.log, t) + [c]) == OpsOf(Committed(sys.log, t)) + [c.op];
    }
  }

  /** A step of another thread leaves t, its pending operation and its commits alone. */
  lemma {:induction false} OtherStep(sys: Sys, u: Tid, t: Tid)
    requires Inv(sys) && u in sys.threads && t != u
    ensures Committed(Act(sys, u).log, t) == Committed(sys.log, t)
    ensures PendingOps(Act(sys, u), t) == PendingOps(sys, t)
    ensures t in sys.threads <==> t in Act(sys, u).threads
    ensures t in sys.threads ==> Act(sys, u).threads[t] == sys.threads[t]
  {
    hide Inv, OpOf, Answer, Committed;
    OwnStep(sys, u);
    OtherThreads(sys, u, t);
    hide Act;
    var sys' := Act(sys, u);
    if TakesEffect(sys, sys', u) {
      CommittedMore(sys.log, Commit(u, OpOf(sys.mem, sys.threads[u]), Answer(sys'.threads[u])), t);
    }
    if t in sys.threads && !Done(sys.threads[t]) {
      OtherPending(sys, u, t);
    }
  }

  lemma OtherThreads(sys: Sys, u: Tid, t: Tid)
    requires u in sys.threads && t != u
    ensures t in sys.threads <==> t in Act(sys, u).threads
    ensures t in sys.threads ==> Act(sys, u).threads[t] == sys.threads[t]
  {
    hide MemStep, UnlockStep;
    var pc := sys.threads[u];
    UnlockThreads(sys, u, t, pc);
    MemThreads(sys, u, t, pc);
    LockThreads(sys, u, pc);
    hide LockStep;
  }

  lemma UnlockThreads(sys: Sys, u: Tid, t: Tid, pc: Pc)
    requires t != u
    ensures t in sys.threads <==> t in UnlockStep(sys, u, pc).threads
    ensures t in sys.threads ==> UnlockStep(sys, u, pc).threads[t] == sys.threads[t]
  {
  }

  lemma MemThreads(sys: Sys, u: Tid, t: Tid, pc: Pc)
    requires t != u
    ensures t in sys.threads <==> t in MemStep(sys, u, pc).threads
    ensures t in sys.threads ==> MemStep(sys, u, pc).threads[t] == sys.threads[t]
  {
    hide NextMem, LinkMem, IncMem, DecMem, UnlinkMem, FreeMem, FooAt, HeadAt, BucketOf, Bucket;
  }

  lemma {:induction false} OtherPending(sys: Sys, u: Tid, t: Tid)
    requires Inv(sys) && u in sys.threads && t != u && t in sys.threads && !Done(sys.threads[t])
    ensures OpOf(Act(sys, u).mem, sys.threads[t]) == OpOf(sys.mem, sys.threads[t])
  {
    hide Inv, Act, MemInv, LockInv, LimboInv;
    var pc := sys.threads[t];
    if pc.AllocHash? || pc.AllocNext? || pc.AllocHead? {
      InvOf(sys, t);
      InvOf(sys, u);
      KeysMatch(sys.mem);
      IdKept(sys, u, pc.o);
    }
  }

  lemma {:induction false} NextLedger(sys: Sys, events: seq<Event>, e: Event, t: Tid)
    requires Inv(sys) && Possible(sys, e) && Ledger(sys, events, t)
    ensures Ledger(Next(sys, e), events + [e], t)
  {
    hide Inv, Act, Called, Committed, Done;
    CalledMore(events, e, t);
    if e.Run? {
      if e.t == t {
        OwnLedger(sys, events, t);
      } else {
        OtherStep(sys, e.t, t);
      }
    } else {
      CallPending(sys, e, t);
    }
  }

  lemma {:induction false} CallPending(sys: Sys, e: Event, t: Tid)
    requires Inv(sys) && Possible(sys, e) && !e.Run?
    ensures Next(sys, e).log == sys.log && PendingOps(Next(sys, e), t) == PendingOps(sys, t) + CallOf(e, t)
    ensures t in Next(sys, e).threads && Done(Next(sys, e).threads[t]) ==>
      t in sys.threads && Next(sys, e).threads[t] == sys.threads[t]
  {
    hide Inv, MemInv, LockInv, LimboInv, NewMem, GiveMem;
    InvOf(sys, t);
    KeysMatch(sys.mem);
    if e.CallAlloc? {
      NewId(sys.mem, e.t, e.o, e.id);
    } else if e.Give? {
      GiveHeap(sys.mem, e.t, e.u, e.o);
    }
    hide FooAt;
  }

  lemma NewId(mem: Mem, t: Tid, o: nat, id: int)
    requires o !in mem.heap
    ensures FooAt(NewMem(mem, t, o, id), o).id == id
    ensures forall x :: x in mem.heap ==> FooAt(NewMem(mem, t, o, id), x) == FooAt(mem, x)
  {
  }

  lemma GiveHeap(mem: Mem, t: Tid, u: Tid, o: nat)
    ensures forall x :: FooAt(GiveMem(mem, t, u, o), x) == FooAt(mem, x)
  {
  }

  /**
   * Main result. In every state of every run: the invariant holds; the table is
   * what the table under one lock would be after the operations of the log, and
   * every logged answer is the one it would have given; and the log holds, for
   * each thread, exactly the operations that thread called, in the order of its
   * calls, up to the one still pending.
   */
  lemma {:induction false} RunIsSerial(states: seq<Sys>, events: seq<Event>, n: nat, t: Tid)
    requires IsRun(states, events) && n < |states|
    ensures Inv(states[n]) && Replays(states[n])
    ensures Called(events[..n], t) == OpsOf(Committed(states[n].log, t)) + PendingOps(states[n], t)
    ensures Answered(states[n], t)
  {
    hide Inv, Replays, Next, Possible, Called, Committed, PendingOps, Answered, Start, OpsOf;
    if n == 0 {
      StartGood();
      StartOrder(t);
    } else {
      RunIsSerial(states, events, n - 1, t);
      assert states[n] == Next(states[n - 1], events[n - 1]);
      assert events[..n] == events[..n - 1] + [events[n - 1]];
      NextInv(states[n - 1], events[n - 1]);
      NextReplays(states[n - 1], events[n - 1]);
      NextLedger(states[n - 1], events[..n - 1], events[n - 1], t);
    }
  }

  // ----- memory safety

  /** The objects that the rest of the operation may still read, write, lock or free; null among them. */
  function Mentions(pc: Pc): set<nat> {
    match pc
    case FindHash(_) => {}
    case FindHead(_) => {}
    case FindTest(_, cur) => {cur}
    case FindLock(_, o) => {o}
    case FindInc(_, o) => {o}
    case FindUnhash(res) => {res}
    case ReleUnhash2 => {}
    case ReleWalk(o, x) => {o, x}
    case _ => {pc.o}
  }

  /** A search or a removal stands on an object of the table. */
  lemma {:induction false} WalkTabled(mem: Mem, flock: map<nat, Tid>, t: Tid, pc: Pc)
    requires MemInv(mem) && PcInv(mem, flock, t, pc)
    ensures pc.FindTest? && pc.cur != 0 ==> Tabled(mem, pc.cur)
    ensures pc.ReleWalk? ==> Tabled(mem, pc.x)
  {
    hide MemInv, Bucket, Abs;
    if pc.FindTest? && pc.cur != 0 {
      var i: nat :| SearchAt(mem, pc.id, pc.cur, i);
      BucketBound(pc.id);
      ListedTabled(mem, Bucket(pc.id), pc.cur);
    } else if pc.ReleWalk? {
      var i: nat :| Before(mem, pc.o, pc.x, i);
      BucketRange(mem, pc.o);
      ListedTabled(mem, BucketOf(mem, pc.o), pc.x);
    }
  }

  lemma BucketBound(id: int)
    ensures Bucket(id) < NHASH
  {
  }

  lemma LimboOwns(mem: Mem, flock: map<nat, Tid>, t: Tid, pc: Pc)
    requires PcInv(mem, flock, t, pc) && Limbo(pc)
    ensures Mentions(pc) == {pc.o} && Owned(mem, t, pc.o)
  {
    hide Owned, Token, Tabled, Sole, SearchAt, Before, Abs, Found, FooAt, HeadAt, BucketOf;
  }

  predicate InFind(pc: Pc) {
    pc.FindHash? || pc.FindHead? || pc.FindTest? || pc.FindLock? || pc.FindInc? || pc.FindUnlock? || pc.FindUnhash?
  }

  lemma FindEntitled(mem: Mem, flock: map<nat, Tid>, t: Tid, pc: Pc, o: nat)
    requires MemInv(mem) && PcInv(mem, flock, t, pc) && InFind(pc) && o in Mentions(pc) && o != 0
    ensures Token(mem, t, o) || Tabled(mem, o)
  {
    hide MemInv, Owned, Token, Tabled, Sole, SearchAt, Before, Abs, Found, FooAt, HeadAt, BucketOf;
    WalkTabled(mem, flock, t, pc);
  }

  lemma OtherEntitled(mem: Mem, flock: map<nat, Tid>, t: Tid, pc: Pc, o: nat)
    requires MemInv(mem) && PcInv(mem, flock, t, pc) && !InFind(pc) && !Limbo(pc) && o in Mentions(pc)
    ensures Token(mem, t, o) || Tabled(mem, o)
  {
    hide MemInv, Owned, Token, Tabled, Sole, SearchAt, Before, Abs, Found, FooAt, HeadAt, BucketOf;
    WalkTabled(mem, flock, t, pc);
  }

  /** What a thread still has to do with an object entitles it to that object. */
  lemma {:induction false} MentionKinds(mem: Mem, flock: map<nat, Tid>, t: Tid, pc: Pc, o: nat)
    requires MemInv(mem) && PcInv(mem, flock, t, pc) && o in Mentions(pc) && o != 0
    ensures Owned(mem, t, o) || Token(mem, t, o) || Tabled(mem, o)
  {
    hide MemInv, PcInv, Mentions, InFind, Limbo, Owned, Token, Tabled;
    if InFind(pc) {
      FindEntitled(mem, flock, t, pc, o);
    } else if Limbo(pc) {
      LimboOwns(mem, flock, t, pc);
    } else {
      OtherEntitled(mem, flock, t, pc, o);
    }
  }

  /** Every object that a thread can still touch is allocated. */
  lemma {:induction false} TouchesAllocated(sys: Sys, t: Tid, o: nat)
    requires Inv(sys) && t in sys.threads && o in Mentions(sys.threads[t]) && o != 0
    ensures o in sys.mem.heap
  {
    hide Inv, PcInv, MemInv, LockInv, LimboInv, Mentions;
    InvOf(sys, t);
    MentionKinds(sys.mem, sys.flock, t, sys.threads[t], o);
    KeysMatch(sys.mem);
  }

  /**
   * When a thread frees an object, no list holds it, no other reference to it
   * exists, nobody has its lock, and no other thread will touch it again.
   */
  lemma {:induction false} FreeIsSafe(sys: Sys, t: Tid, o: nat)
    requires Inv(sys) && t in sys.threads && sys.threads[t] == ReleFree(o)
    ensures o in sys.mem.heap && RefsOf(sys.mem, o) == multiset{t} && o !in sys.flock
    ensures forall b: nat :: b < NHASH ==> o !in ListAt(sys.mem, b)
    ensures forall u :: u in sys.threads && u != t ==> o !in Mentions(sys.threads[u])
  {
    hide Inv, MemInv, LockInv, LimboInv, Mentions;
    InvOf(sys, t);
    KeysMatch(sys.mem);
    ObjIn(sys.mem, o);
    NotNull(sys.mem, o);
    forall b: nat | b < NHASH ensures o !in ListAt(sys.mem, b) {
      if o in ListAt(sys.mem, b) {
        ListedTabled(sys.mem, b, o);
      }
    }
    hide PcInv;
    forall u | u in sys.threads && u != t ensures o !in Mentions(sys.threads[u]) {
      InvOf(sys, u);
      if o in Mentions(sys.threads[u]) {
        MentionKinds(sys.mem, sys.flock, u, sys.threads[u], o);
      }
    }
  }

  lemma NotNull(mem: Mem, o: nat)
    requires MemInv(mem) && o in mem.heap
    ensures o != 0
  {
  }

  /** f_count is the number of references, so an object with a reference is never freed or unlinked. */
  lemma {:induction false} CountsReferences(sys: Sys, o: nat)
    requires Inv(sys)
    ensures o in sys.mem.heap <==> |RefsOf(sys.mem, o)| >= 1
    ensures o in sys.mem.heap ==> FooAt(sys.mem, o).count == |RefsOf(sys.mem, o)|
    ensures |RefsOf(sys.mem, o)| >= 2 ==> o in Abs(sys.mem).objs && o in ListAt(sys.mem, BucketOf(sys.mem, o))
  {
    hide Inv, MemInv;
    InvOf(sys, 0);
    KeysMatch(sys.mem);
    if o in sys.mem.heap {
      ObjIn(sys.mem, o);
      if o in sys.mem.limbo {
        assert |multiset{sys.mem.limbo[o]}| == 1;
      }
    }
  }

  /** Between operations nothing is allocated but the table. */
  lemma {:induction false} NoLeak(sys: Sys)
    requires Inv(sys) && sys.threads == map[]
    ensures sys.mem.heap.Keys == Abs(sys.mem).objs.Keys
    ensures sys.flock == map[] && sys.hash.None?
  {
    hide MemInv, PcInv;
    assert forall o :: o !in sys.mem.limbo;
    assert forall o :: o !in sys.flock;
    assert forall o :: o in sys.mem.heap <==> o in Abs(sys.mem).objs;
  }

  // ----- progress

  /** A holder of an f_lock never waits; the holder of the hash lock waits for an f_lock at most. */
  lemma LockOrder(pc: Pc)
    ensures LockedBy(pc) != {} ==> !WaitsHash(pc) && !WaitsLock(pc)
    ensures HasHash(pc) ==> !WaitsHash(pc)
  {
  }

  lemma {:induction false} LockHolderRuns(sys: Sys, o: nat)
    requires Inv(sys) && o in sys.flock
    ensures Enabled(sys, sys.flock[o])
  {
    hide MemInv, LimboInv, PcInv, WaitsHash, WaitsLock, HasHash, LockedBy;
    var v := sys.flock[o];
    LockOrder(sys.threads[v]);
  }

  /** Whatever t waits for, some thread can move: no deadlock. */
  lemma {:induction false} NoDeadlock(sys: Sys, t: Tid) returns (v: Tid)
    requires Inv(sys) && t in sys.threads
    ensures Enabled(sys, v)
    ensures Enabled(sys, t) ==> v == t
    ensures !Enabled(sys, t) ==> v != t && (HasHash(sys.threads[v]) || LockedBy(sys.threads[v]) != {})
  {
    hide MemInv, LimboInv, PcInv, WaitsHash, WaitsLock, HasHash, LockedBy, Wanted;
    v := t;
    if WaitsHash(sys.threads[v]) && sys.hash.Some? {
      v := sys.hash.value;
      LockOrder(sys.threads[v]);
    }
    if WaitsLock(sys.threads[v]) && Wanted(sys.threads[v]) in sys.flock {
      LockHolderRuns(sys, Wanted(sys.threads[v]));
      v := sys.flock[Wanted(sys.threads[v])];
      LockOrder(sys.threads[v]);
    }
  }
}
