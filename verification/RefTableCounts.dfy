/**
 * The counts told from what the threads did: f_count of an object in the table
 * is the number of allocations, holds and finds of it less its releases, and
 * each thread's references are its own of these and the gifts it was given.
 */
module RefTableCounts {
  import opened Options
  import opened RefTableCoarse
  import opened RefTable
  import opened RefTableProof
  import opened RefTableRuns

  /** What an operation that has taken effect adds to the references to o. */
  function Adds(c: Commit, o: nat): int {
    match c.op
    case OpAlloc(x, _) => if x == o then 1 else 0
    case OpHold(x) => if x == o then 1 else 0
    case OpFind(_) => if c.result == o && o != 0 then 1 else 0
    case OpRele(x) => if x == o then -1 else 0
  }

  /** References to o taken less given back, in the log. */
  function Taken(log: seq<Commit>, o: nat): int {
    if log == [] then 0 else Taken(log[..|log| - 1], o) + Adds(log[|log| - 1], o)
  }

  /** The same for the operations of t alone. */
  function TakenBy(log: seq<Commit>, t: Tid, o: nat): int {
    if log == [] then 0
    else TakenBy(log[..|log| - 1], t, o) + if log[|log| - 1].tid == t then Adds(log[|log| - 1], o) else 0
  }

  function Gift(e: Event, t: Tid, o: nat): int {
    if e.Give? && e.o == o then (if e.u == t then 1 else 0) - (if e.t == t then 1 else 0) else 0
  }

  /** References to o that t was given less those it gave away. */
  function Gifts(events: seq<Event>, t: Tid, o: nat): int {
    if events == [] then 0 else Gifts(events[..|events| - 1], t, o) + Gift(events[|events| - 1], t, o)
  }

  // ----- references to objects in the table

  /** The one reference to an object not (yet, or any more) in the table is not counted. */
  function Share(mem: Mem, t: Tid, o: nat): int {
    RefsOf(mem, o)[t] as int - if Owned(mem, t, o) then 1 else 0
  }

  function Total(mem: Mem, o: nat): int { |RefsOf(mem, o)| as int - if o in mem.limbo then 1 else 0 }

  ghost predicate Moves(mem: Mem, mem': Mem, t: Tid, o: nat, share: int, total: int) {
    Share(mem', t, o) == Share(mem, t, o) + share && Total(mem', o) == Total(mem, o) + total
  }

  lemma SameMoves(mem: Mem, mem': Mem, t: Tid, o: nat)
    requires RefsOf(mem', o) == RefsOf(mem, o) && (o in mem'.limbo <==> o in mem.limbo)
    requires o in mem.limbo ==> mem'.limbo[o] == mem.limbo[o]
    ensures Moves(mem, mem', t, o, 0, 0)
  {
  }

  lemma OneLess(m: multiset<Tid>, r: Tid, t: Tid)
    requires r in m
    ensures (m - multiset{r})[t] == m[t] - (if r == t then 1 else 0) && |m - multiset{r}| == |m| - 1
  {
    assert m == m - multiset{r} + multiset{r};
  }

  lemma IncMoves(mem: Mem, r: Tid, x: nat, t: Tid, o: nat)
    ensures Moves(mem, IncMem(mem, r, x), t, o, if x == o && r == t then 1 else 0, if x == o then 1 else 0)
  {
    if x == o {
      assert RefsOf(IncMem(mem, r, x), o) == RefsOf(mem, o) + multiset{r};
    } else {
      SameMoves(mem, IncMem(mem, r, x), t, o);
    }
  }

  lemma DecMoves(mem: Mem, r: Tid, x: nat, t: Tid, o: nat)
    requires Token(mem, r, x)
    ensures Moves(mem, DecMem(mem, r, x), t, o, if x == o && r == t then -1 else 0, if x == o then -1 else 0)
  {
    if x == o {
      assert RefsOf(DecMem(mem, r, x), o) == RefsOf(mem, o) - multiset{r};
      OneLess(RefsOf(mem, o), r, t);
    } else {
      SameMoves(mem, DecMem(mem, r, x), t, o);
    }
  }

  lemma NextMoves(mem: Mem, x: nat, v: nat, t: Tid, o: nat)
    ensures Moves(mem, NextMem(mem, x, v), t, o, 0, 0)
  {
    SameMoves(mem, NextMem(mem, x, v), t, o);
  }

  lemma LinkMoves(mem: Mem, r: Tid, x: nat, t: Tid, o: nat)
    requires MemInv(mem) && Owned(mem, r, x)
    ensures Moves(mem, LinkMem(mem, x), t, o, if x == o && r == t then 1 else 0, if x == o then 1 else 0)
  {
    hide ObjInv, Linked;
    BucketRange(mem, x);
    if x != o {
      SameMoves(mem, LinkMem(mem, x), t, o);
    }
  }

  lemma UnlinkMoves(mem: Mem, r: Tid, x: nat, prev: nat, t: Tid, o: nat)
    requires MemInv(mem) && Tabled(mem, x)
    ensures Moves(mem, UnlinkMem(mem, r, x, prev), t, o, if x == o && r == t then -1 else 0, if x == o then -1 else 0)
  {
    hide ObjInv, Linked;
    BucketRange(mem, x);
    if x != o {
      SameMoves(mem, UnlinkMem(mem, r, x, prev), t, o);
    }
  }

  lemma {:induction false} FreeMoves(mem: Mem, r: Tid, x: nat, t: Tid, o: nat)
    requires MemInv(mem) && Owned(mem, r, x)
    ensures Moves(mem, FreeMem(mem, x), t, o, 0, 0)
  {
    hide MemInv;
    if x == o {
      OwnedIn(mem, r, x);
      ObjIn(mem, x);
      assert RefsOf(mem, o) == multiset{r};
      assert RefsOf(FreeMem(mem, x), o) == multiset{};
    } else {
      SameMoves(mem, FreeMem(mem, x), t, o);
    }
  }

  lemma NewMoves(mem: Mem, r: Tid, x: nat, id: int, t: Tid, o: nat)
    requires MemInv(mem) && x !in mem.heap
    ensures Moves(mem, NewMem(mem, r, x, id), t, o, 0, 0)
  {
    hide MemInv;
    KeysMatch(mem);
    if x == o {
      assert RefsOf(mem, o) == multiset{} && o !in mem.limbo;
      assert RefsOf(NewMem(mem, r, x, id), o) == multiset{r};
    } else {
      SameMoves(mem, NewMem(mem, r, x, id), t, o);
    }
  }

  lemma GiveMoves(mem: Mem, r: Tid, u: Tid, x: nat, t: Tid, o: nat)
    requires Token(mem, r, x)
    ensures Moves(mem, GiveMem(mem, r, u, x), t, o, Gift(Give(r, u, x), t, o), 0)
  {
    if x == o {
      assert RefsOf(GiveMem(mem, r, u, x), o) == RefsOf(mem, o) - multiset{r} + multiset{u};
      OneLess(RefsOf(mem, o), r, t);
    } else {
      SameMoves(mem, GiveMem(mem, r, u, x), t, o);
    }
  }

  // ----- one event

  /** The event moves the references as its entry in the log, or the gift, says. */
  ghost predicate Accounted(sys: Sys, sys': Sys, t: Tid, o: nat, gift: int) {
    || (sys'.log == sys.log && Moves(sys.mem, sys'.mem, t, o, gift, 0))
    || (|sys'.log| == |sys.log| + 1 && gift == 0 &&
        var c := sys'.log[|sys.log|];
        && sys'.log == sys.log + [c]
        && Moves(sys.mem, sys'.mem, t, o, if c.tid == t then Adds(c, o) else 0, Adds(c, o)))
  }

  lemma Unmoved(mem: Mem, t: Tid, o: nat)
    ensures Moves(mem, mem, t, o, 0, 0)
  {
  }

  lemma {:induction false} MemAccounted(sys: Sys, r: Tid, pc: Pc, t: Tid, o: nat)
    requires Inv(sys) && r in sys.threads && sys.threads[r] == pc
    ensures Accounted(sys, MemStep(sys, r, pc), t, o, 0)
  {
    hide Inv, MemInv, LockInv, LimboInv, Abs, Found, NextMem, LinkMem, IncMem, DecMem, UnlinkMem, FreeMem, Moves,
      FooAt, HeadAt, BucketOf, Bucket, SearchAt, Before, Owned, Token, Tabled, Sole;
    InvOf(sys, r);
    var mem := sys.mem;
    Unmoved(mem, t, o);
    match pc
    case AllocNext(x) => NextMoves(mem, x, HeadAt(mem, BucketOf(mem, x)), t, o);
    case AllocHead(x) => LinkMoves(mem, r, x, t, o);
    case HoldInc(x) => IncMoves(mem, r, x, t, o);
    case FindInc(_, x) =>
      TabledNotNull(mem, x);
      IncMoves(mem, r, x, t, o);
    case ReleTest(x) => DecMoves(mem, r, x, t, o);
    case ReleRecheck(x) => DecMoves(mem, r, x, t, o);
    case ReleHead(x) => UnlinkMoves(mem, r, x, 0, t, o);
    case ReleWalk(x, prev) => UnlinkMoves(mem, r, x, prev, t, o);
    case ReleFree(x) => FreeMoves(mem, r, x, t, o);
    case _ =>
  }

  lemma {:induction false} NextAccounted(sys: Sys, e: Event, t: Tid, o: nat)
    requires Inv(sys) && Possible(sys, e)
    ensures Accounted(sys, Next(sys, e), t, o, Gift(e, t, o))
  {
    hide Inv, MemInv, LockInv, LimboInv, PcInv, MemStep, LockStep, UnlockStep, NewMem, GiveMem, Moves, Gift;
    InvOf(sys, 0);
    Unmoved(sys.mem, t, o);
    NoGift(e, t, o);
    match e
    case CallAlloc(r, x, id) => NewMoves(sys.mem, r, x, id, t, o);
    case Give(r, u, x) => GiveMoves(sys.mem, r, u, x, t, o);
    case Run(r) =>
      MemAccounted(sys, r, sys.threads[r], t, o);
      LocksOnly(sys, r, sys.threads[r]);
    case _ =>
  }

  lemma NoGift(e: Event, t: Tid, o: nat)
    ensures !e.Give? ==> Gift(e, t, o) == 0
  {
  }

  lemma LocksOnly(sys: Sys, r: Tid, pc: Pc)
    ensures LockStep(sys, r, pc).mem == sys.mem && LockStep(sys, r, pc).log == sys.log
    ensures UnlockStep(sys, r, pc).mem == sys.mem && UnlockStep(sys, r, pc).log == sys.log
  {
  }

  // ----- every run

  lemma LogGrows(log: seq<Commit>, c: Commit, t: Tid, o: nat)
    ensures Taken(log + [c], o) == Taken(log, o) + Adds(c, o)
    ensures TakenBy(log + [c], t, o) == TakenBy(log, t, o) + if c.tid == t then Adds(c, o) else 0
  {
    hide Adds;
    assert (log + [c])[..|log|] == log;
  }

  /**
   * In every state of every run, what a thread holds and what all hold together
   * is what the log and the gifts say.
   */
  lemma {:induction false} SharesCounted(states: seq<Sys>, events: seq<Event>, n: nat, t: Tid, o: nat)
    requires IsRun(states, events) && n < |states|
    ensures Inv(states[n])
    ensures Share(states[n].mem, t, o) == TakenBy(states[n].log, t, o) + Gifts(events[..n], t, o)
    ensures Total(states[n].mem, o) == Taken(states[n].log, o)
  {
    hide Inv, Next, Possible, Taken, TakenBy, Gift, Adds, Share, Total;
    if n == 0 {
      AtStart(t, o);
    } else {
      SharesCounted(states, events, n - 1, t, o);
      var sys, e := states[n - 1], events[n - 1];
      assert states[n] == Next(sys, e);
      NextInv(sys, e);
      NextAccounted(sys, e, t, o);
      assert events[..n][..n - 1] == events[..n - 1];
      if states[n].log != sys.log {
        LogGrows(sys.log, states[n].log[|sys.log|], t, o);
      }
    }
  }

  lemma AtStart(t: Tid, o: nat)
    ensures Inv(Start()) && Share(Start().mem, t, o) == 0 == Total(Start().mem, o)
    ensures Taken(Start().log, o) == 0 == TakenBy(Start().log, t, o) && Gifts([], t, o) == 0
  {
    StartGood();
    hide Inv;
  }

  /**
   * Main result: of an object in the table f_count is the number of times it was
   * allocated, held and found less the number of times it was released, and at
   * least 1; the references of each thread are its own of these and its gifts.
   */
  lemma {:induction false} CountIsHistory(states: seq<Sys>, events: seq<Event>, n: nat, t: Tid, o: nat)
    requires IsRun(states, events) && n < |states| && Tabled(states[n].mem, o)
    ensures FooAt(states[n].mem, o).count == Taken(states[n].log, o) >= 1
    ensures RefsOf(states[n].mem, o)[t] == TakenBy(states[n].log, t, o) + Gifts(events[..n], t, o)
  {
    hide Taken, TakenBy, Gifts, Bucketed, LockInv, LimboInv, PcInv, Next, Possible;
    SharesCounted(states, events, n, t, o);
    assert ObjInv(states[n].mem, o);
  }

  /** And an object that no longer exists has been released as often as it was taken. */
  lemma {:induction false} GoneIsBalanced(states: seq<Sys>, events: seq<Event>, n: nat, t: Tid, o: nat)
    requires IsRun(states, events) && n < |states| && o !in states[n].mem.heap
    ensures Taken(states[n].log, o) == 0 && TakenBy(states[n].log, t, o) + Gifts(events[..n], t, o) == 0
  {
    hide Taken, TakenBy, Gifts, Bucketed, ObjInv, LockInv, LimboInv, PcInv, Next, Possible;
    SharesCounted(states, events, n, t, o);
    KeysMatch(states[n].mem);
  }

  // ----- what a find answers

  /** Every object is listed in the bucket of its id, and only objects are listed. */
  ghost predicate Filed(t: Table) {
    && |t.lists| == NHASH && 0 !in t.objs
    && (forall o :: o in t.objs ==> o in t.lists[Bucket(t.objs[o].id)])
    && (forall b, o :: 0 <= b < NHASH && o in t.lists[b] ==> o in t.objs)
  }

  /** A find answers an object with that id, and null exactly when there is none. */
  lemma {:induction false} FoundIff(t: Table, id: int)
    requires Filed(t)
    ensures Found(t, id) == 0 <==> forall o :: o in t.objs ==> t.objs[o].id != id
    ensures Found(t, id) != 0 ==> Found(t, id) in t.objs && t.objs[Found(t, id)].id == id
  {
    hide Bucket;
    BucketBound(id);
    var c := t.lists[Bucket(id)];
    assert ListOf(t, id) == c;
    forall k | 0 <= k < |c| ensures c[k] != 0 && c[k] in t.objs {
      assert c[k] in c;
    }
    MatchIs(t, c, id, 0);
    assert forall o :: o in t.objs && t.objs[o].id == id ==> o in c;
  }

  lemma {:induction false} AbsFiled(mem: Mem)
    requires MemInv(mem)
    ensures Filed(Abs(mem))
  {
    hide Bucket, Linked;
    var t := Abs(mem);
    forall o | o in t.objs ensures o in t.lists[Bucket(t.objs[o].id)] {
      BucketBound(t.objs[o].id);
      assert ObjInv(mem, o);
    }
    forall b, o | 0 <= b < NHASH && o in t.lists[b] ensures o in t.objs {
      ListedTabled(mem, b, o);
    }
  }

  /** At its effect a find holds an object of that id, or no object of the table has it. */
  lemma {:induction false} FindTruth(sys: Sys, t: Tid, o: nat)
    requires t in sys.threads && Tabled(sys.mem, o)
    requires Inv(sys)
    ensures match sys.threads[t]
      case FindTest(id, cur) => cur == 0 ==> FooAt(sys.mem, o).id != id
      case FindInc(id, x) => Tabled(sys.mem, x) && FooAt(sys.mem, x).id == id
      case _ => true
  {
    hide Inv, MemInv, LockInv, LimboInv, Bucket, Found, SearchAt;
    InvOf(sys, t);
    AbsFiled(sys.mem);
    match sys.threads[t]
    case FindTest(id, cur) =>
      FindTestPc(sys.mem, sys.flock, t, id, cur);
      FoundIff(Abs(sys.mem), id);
      if cur == 0 {
        assert Abs(sys.mem).objs[o].id == FooAt(sys.mem, o).id;
      }
    case FindInc(id, x) =>
      TabledNotNull(sys.mem, x);
      FoundIff(Abs(sys.mem), id);
    case _ =>
  }
}
