/**
 * The object table with a lock on the hash lists and one lock in each object.
 * Any number of threads run alloc, hold, find and rele; each step is one lock
 * call or one access to shared memory, and any thread may move at any time.
 */
module RefTable {
  import opened Options
  import opened RefTableCoarse

  type Tid = nat

  /**
   * Shared memory. `lists`, `refs` and `limbo` are for the proof: the bucket
   * lists, the threads holding references to each object, and the thread that
   * alone knows an object not (yet, or any more) in the table.
   */
  datatype Mem = Mem(fh: seq<nat>, heap: map<nat, Foo>, lists: seq<seq<nat>>,
                     refs: map<nat, multiset<Tid>>, limbo: map<nat, Tid>)

  datatype Pc =
    | AllocHash(o: nat) | AllocNext(o: nat) | AllocHead(o: nat)
    | AllocLock(o: nat) | AllocUnhash(o: nat) | AllocUnlock(o: nat)
    | HoldLock(o: nat) | HoldInc(o: nat) | HoldUnlock(o: nat)
    | FindHash(id: int) | FindHead(id: int) | FindTest(id: int, cur: nat)
    | FindLock(id: int, o: nat) | FindInc(id: int, o: nat)
    | FindUnlock(o: nat) | FindUnhash(res: nat)
    | ReleLock(o: nat) | ReleTest(o: nat) | ReleUnlock(o: nat)
    | ReleDrop(o: nat) | ReleHash(o: nat) | ReleRelock(o: nat) | ReleRecheck(o: nat) | ReleUnlock2(o: nat) | ReleUnhash2
    | ReleHead(o: nat) | ReleWalk(o: nat, x: nat) | ReleUnhash(o: nat) | ReleUnlockF(o: nat) | ReleFree(o: nat)

  datatype Commit = Commit(tid: Tid, op: Op, result: nat)

  /** A thread with no entry in `threads` is between operations. */
  datatype Sys = Sys(mem: Mem, hash: Option<Tid>, flock: map<nat, Tid>, threads: map<Tid, Pc>, log: seq<Commit>)

  // ----- the memory effects

  function FooAt(mem: Mem, o: nat): Foo {
    if o in mem.heap then mem.heap[o] else Foo(0, 0, 0)
  }

  function RefsOf(mem: Mem, o: nat): multiset<Tid> {
    if o in mem.refs then mem.refs[o] else multiset{}
  }

  function BucketOf(mem: Mem, o: nat): nat { Bucket(FooAt(mem, o).id) }

  function ListAt(mem: Mem, b: nat): seq<nat> {
    if b < |mem.lists| then mem.lists[b] else []
  }

  function HeadAt(mem: Mem, b: nat): nat {
    if b < |mem.fh| then mem.fh[b] else 0
  }

  function NewMem(mem: Mem, t: Tid, o: nat, id: int): Mem {
    mem.(heap := mem.heap[o := Foo(1, id, 0)], refs := mem.refs[o := multiset{t}], limbo := mem.limbo[o := t])
  }

  function IncMem(mem: Mem, t: Tid, o: nat): Mem {
    mem.(heap := mem.heap[o := FooAt(mem, o).(count := FooAt(mem, o).count + 1)],
         refs := mem.refs[o := RefsOf(mem, o) + multiset{t}])
  }

  function DecMem(mem: Mem, t: Tid, o: nat): Mem {
    mem.(heap := mem.heap[o := FooAt(mem, o).(count := FooAt(mem, o).count - 1)],
         refs := mem.refs[o := RefsOf(mem, o) - multiset{t}])
  }

  function NextMem(mem: Mem, o: nat, v: nat): Mem {
    mem.(heap := mem.heap[o := FooAt(mem, o).(next := v)])
  }

  function LinkMem(mem: Mem, o: nat): Mem {
    var b := BucketOf(mem, o);
    if b < |mem.fh| && b < |mem.lists| then
      mem.(fh := mem.fh[b := o], lists := mem.lists[b := [o] + mem.lists[b]], limbo := mem.limbo - {o})
    else mem
  }

  /** Redirecting fh (x == 0) or the f_next of x past o. */
  function UnlinkMem(mem: Mem, t: Tid, o: nat, x: nat): Mem {
    var b := BucketOf(mem, o);
    if b < |mem.fh| && b < |mem.lists| then
      var m1 := mem.(lists := mem.lists[b := Without(mem.lists[b], IndexOf(mem.lists[b], o))],
        limbo := mem.limbo[o := t]);
      if x == 0 then m1.(fh := mem.fh[b := FooAt(mem, o).next]) else NextMem(m1, x, FooAt(mem, o).next)
    else mem
  }

  function FreeMem(mem: Mem, o: nat): Mem {
    mem.(heap := mem.heap - {o}, refs := mem.refs - {o}, limbo := mem.limbo - {o})
  }

  function GiveMem(mem: Mem, t: Tid, u: Tid, o: nat): Mem {
    mem.(refs := mem.refs[o := RefsOf(mem, o) - multiset{t} + multiset{u}])
  }

  /** The table that the memory represents. */
  function Abs(mem: Mem): Table {
    Table(mem.lists, map o | o in mem.heap && o !in mem.limbo :: Entry(mem.heap[o].id, mem.heap[o].count))
  }

  // ----- steps

  predicate HasHash(pc: Pc) {
    || pc.AllocNext? || pc.AllocHead? || pc.AllocLock? || pc.AllocUnhash?
    || pc.FindHead? || pc.FindTest? || pc.FindLock? || pc.FindInc? || pc.FindUnlock? || pc.FindUnhash?
    || pc.ReleRelock? || pc.ReleRecheck? || pc.ReleUnlock2? || pc.ReleUnhash2? || pc.ReleHead? || pc.ReleWalk? ||
      pc.ReleUnhash?
  }

  /** The object whose f_lock the thread holds. */
  function LockedBy(pc: Pc): set<nat> {
    match pc
    case AllocUnhash(o) => {o}
    case AllocUnlock(o) => {o}
    case HoldInc(o) => {o}
    case HoldUnlock(o) => {o}
    case FindInc(_, o) => {o}
    case FindUnlock(o) => {o}
    case ReleTest(o) => {o}
    case ReleUnlock(o) => {o}
    case ReleDrop(o) => {o}
    case ReleRecheck(o) => {o}
    case ReleUnlock2(o) => {o}
    case ReleHead(o) => {o}
    case ReleWalk(o, _) => {o}
    case ReleUnhash(o) => {o}
    case ReleUnlockF(o) => {o}
    case _ => {}
  }

  predicate WaitsHash(pc: Pc) { pc.AllocHash? || pc.FindHash? || pc.ReleHash? }

  predicate WaitsLock(pc: Pc) { pc.AllocLock? || pc.HoldLock? || pc.FindLock? || pc.ReleLock? || pc.ReleRelock? }

  function Wanted(pc: Pc): nat {
    if pc.AllocLock? || pc.HoldLock? || pc.FindLock? || pc.ReleLock? || pc.ReleRelock? then pc.o else 0
  }

  predicate Enabled(sys: Sys, t: Tid) {
    && t in sys.threads
    && (WaitsHash(sys.threads[t]) ==> sys.hash.None?)
    && (WaitsLock(sys.threads[t]) ==> Wanted(sys.threads[t]) !in sys.flock)
  }

  function Go(sys: Sys, t: Tid, pc: Pc): Sys { sys.(threads := sys.threads[t := pc]) }

  function Return(sys: Sys, t: Tid): Sys { sys.(threads := sys.threads - {t}) }

  function Effect(sys: Sys, t: Tid, mem: Mem, op: Op, result: nat): Sys {
    sys.(mem := mem, log := sys.log + [Commit(t, op, result)])
  }

  /** The step of a thread that takes a lock. */
  function LockStep(sys: Sys, t: Tid, pc: Pc): Sys {
    match pc
    case AllocHash(o) => Go(sys.(hash := Some(t)), t, AllocNext(o))
    case FindHash(id) => Go(sys.(hash := Some(t)), t, FindHead(id))
    case ReleHash(o) => Go(sys.(hash := Some(t)), t, ReleRelock(o))
    case AllocLock(o) => Go(sys.(flock := sys.flock[o := t]), t, AllocUnhash(o))
    case HoldLock(o) => Go(sys.(flock := sys.flock[o := t]), t, HoldInc(o))
    case FindLock(id, o) => Go(sys.(flock := sys.flock[o := t]), t, FindInc(id, o))
    case ReleLock(o) => Go(sys.(flock := sys.flock[o := t]), t, ReleTest(o))
    case ReleRelock(o) => Go(sys.(flock := sys.flock[o := t]), t, ReleRecheck(o))
    case _ => sys
  }

  /** The step of a thread that releases a lock. */
  function UnlockStep(sys: Sys, t: Tid, pc: Pc): Sys {
    match pc
    case AllocUnhash(o) => Go(sys.(hash := None), t, AllocUnlock(o))
    case AllocUnlock(o) => Return(sys.(flock := sys.flock - {o}), t)
    case HoldUnlock(o) => Return(sys.(flock := sys.flock - {o}), t)
    case FindUnlock(o) => Go(sys.(flock := sys.flock - {o}), t, FindUnhash(o))
    case FindUnhash(_) => Return(sys.(hash := None), t)
    case ReleUnlock(o) => Return(sys.(flock := sys.flock - {o}), t)
    case ReleDrop(o) => Go(sys.(flock := sys.flock - {o}), t, ReleHash(o))
    case ReleUnlock2(o) => Go(sys.(flock := sys.flock - {o}), t, ReleUnhash2)
    case ReleUnhash2 => Return(sys.(hash := None), t)
    case ReleUnhash(o) => Go(sys.(hash := None), t, ReleUnlockF(o))
    case ReleUnlockF(o) => Go(sys.(flock := sys.flock - {o}), t, ReleFree(o))
    case _ => sys
  }

  /** The step of a thread that reads or writes shared memory. */
  function MemStep(sys: Sys, t: Tid, pc: Pc): Sys {
    var mem := sys.mem;
    match pc
    case AllocNext(o) => Go(sys.(mem := NextMem(mem, o, HeadAt(mem, BucketOf(mem, o)))), t, AllocHead(o))
    case AllocHead(o) => Go(Effect(sys, t, LinkMem(mem, o), OpAlloc(o, FooAt(mem, o).id), o), t, AllocLock(o))
    case HoldInc(o) => Go(Effect(sys, t, IncMem(mem, t, o), OpHold(o), 0), t, HoldUnlock(o))
    case FindHead(id) => Go(sys, t, FindTest(id, HeadAt(mem, Bucket(id))))
    case FindTest(id, cur) =>
      if cur == 0 then Go(Effect(sys, t, mem, OpFind(id), 0), t, FindUnhash(0))
      else if FooAt(mem, cur).id == id then Go(sys, t, FindLock(id, cur))
      else Go(sys, t, FindTest(id, FooAt(mem, cur).next))
    case FindInc(id, o) => Go(Effect(sys, t, IncMem(mem, t, o), OpFind(id), o), t, FindUnlock(o))
    case ReleTest(o) =>
      if FooAt(mem, o).count == 1 then Go(sys, t, ReleDrop(o))
      else Go(Effect(sys, t, DecMem(mem, t, o), OpRele(o), 0), t, ReleUnlock(o))
    case ReleRecheck(o) =>
      if FooAt(mem, o).count != 1 then Go(Effect(sys, t, DecMem(mem, t, o), OpRele(o), 0), t, ReleUnlock2(o))
      else Go(sys, t, ReleHead(o))
    case ReleHead(o) =>
      if HeadAt(mem, BucketOf(mem, o)) == o then
        Go(Effect(sys, t, UnlinkMem(mem, t, o, 0), OpRele(o), 0), t, ReleUnhash(o))
      else Go(sys, t, ReleWalk(o, HeadAt(mem, BucketOf(mem, o))))
    case ReleWalk(o, x) =>
      if FooAt(mem, x).next == o then Go(Effect(sys, t, UnlinkMem(mem, t, o, x), OpRele(o), 0), t, ReleUnhash(o))
      else Go(sys, t, ReleWalk(o, FooAt(mem, x).next))
    case ReleFree(o) => Return(sys.(mem := FreeMem(mem, o)), t)
    case _ => sys
  }

  function Act(sys: Sys, t: Tid): Sys
    requires t in sys.threads
  {
    var pc := sys.threads[t];
    if WaitsHash(pc) || WaitsLock(pc) then LockStep(sys, t, pc)
    else if Unlocks(pc) then UnlockStep(sys, t, pc)
    else MemStep(sys, t, pc)
  }

  predicate Unlocks(pc: Pc) {
    || pc.AllocUnhash? || pc.AllocUnlock? || pc.HoldUnlock? || pc.FindUnlock? || pc.FindUnhash? || pc.ReleUnlock?
    || pc.ReleDrop? || pc.ReleUnlock2? || pc.ReleUnhash2? || pc.ReleUnhash? || pc.ReleUnlockF?
  }

  /** Calls, single steps, and handing a reference from an idle thread to another thread. */
  datatype Event =
    | CallAlloc(t: Tid, o: nat, id: int)
    | CallHold(t: Tid, o: nat)
    | CallFind(t: Tid, id: int)
    | CallRele(t: Tid, o: nat)
    | Give(t: Tid, u: Tid, o: nat)
    | Run(t: Tid)

  /** Hold and rele demand that the caller has a reference; malloc returns unused memory. */
  predicate Possible(sys: Sys, e: Event) {
    match e
    case CallAlloc(t, o, _) => t !in sys.threads && o != 0 && o !in sys.mem.heap
    case CallHold(t, o) => t !in sys.threads && t in RefsOf(sys.mem, o)
    case CallFind(t, _) => t !in sys.threads
    case CallRele(t, o) => t !in sys.threads && t in RefsOf(sys.mem, o)
    case Give(t, _, o) => t !in sys.threads && t in RefsOf(sys.mem, o)
    case Run(t) => Enabled(sys, t)
  }

  function Next(sys: Sys, e: Event): Sys
    requires Possible(sys, e)
  {
    match e
    case CallAlloc(t, o, id) => Go(sys.(mem := NewMem(sys.mem, t, o, id)), t, AllocHash(o))
    case CallHold(t, o) => Go(sys, t, HoldLock(o))
    case CallFind(t, id) => Go(sys, t, FindHash(id))
    case CallRele(t, o) => Go(sys, t, ReleLock(o))
    case Give(t, u, o) => sys.(mem := GiveMem(sys.mem, t, u, o))
    case Run(t) => Act(sys, t)
  }

  // ----- invariant

  /** The count is the number of references, never 0; and outside the table there is one reference only. */
  ghost predicate ObjInv(mem: Mem, o: nat) {
    && FooAt(mem, o).count == |RefsOf(mem, o)| && |RefsOf(mem, o)| >= 1
    && (o in mem.limbo <==> o !in ListAt(mem, BucketOf(mem, o)))
    && (o in mem.limbo ==> RefsOf(mem, o) == multiset{mem.limbo[o]})
  }

  ghost predicate MemInv(mem: Mem) {
    && Bucketed(mem.fh, mem.heap, mem.lists)
    && mem.refs.Keys == mem.heap.Keys && 0 !in mem.heap && mem.limbo.Keys <= mem.heap.Keys
    && (forall o :: o in mem.heap ==> ObjInv(mem, o))
  }

  ghost predicate LockInv(sys: Sys) {
    && (forall t :: t in sys.threads && HasHash(sys.threads[t]) ==> sys.hash == Some(t))
    && (sys.hash.Some? ==> sys.hash.value in sys.threads && HasHash(sys.threads[sys.hash.value]))
    && (forall t :: t in sys.threads ==> forall o :: o in LockedBy(sys.threads[t]) ==>
      o in sys.flock && sys.flock[o] == t)
    && (forall o :: o in sys.flock ==> sys.flock[o] in sys.threads && o in LockedBy(sys.threads[sys.flock[o]]))
  }

  predicate Limbo(pc: Pc) {
    pc.AllocHash? || pc.AllocNext? || pc.AllocHead? || pc.ReleUnhash? || pc.ReleUnlockF? || pc.ReleFree?
  }

  /** An object outside the table belongs to the one thread that is creating or destroying it. */
  ghost predicate LimboInv(sys: Sys) {
    forall o :: o in sys.mem.limbo ==>
      sys.mem.limbo[o] in sys.threads && Limbo(sys.threads[sys.mem.limbo[o]]) && sys.threads[sys.mem.limbo[o]].o == o
  }

  predicate Owned(mem: Mem, t: Tid, o: nat) { o in mem.limbo && mem.limbo[o] == t }

  predicate Token(mem: Mem, t: Tid, o: nat) { t in RefsOf(mem, o) }

  predicate Sole(mem: Mem, t: Tid, o: nat) { o in mem.refs && mem.refs[o] == multiset{t} }

  predicate Tabled(mem: Mem, o: nat) { o in mem.heap && o !in mem.limbo }

  /** The search has passed i objects of its bucket without a match and stands at `cur`. */
  ghost predicate SearchAt(mem: Mem, id: int, cur: nat, i: nat) {
    var c := ListAt(mem, Bucket(id));
    i <= |c| && cur == At(c, i) && Match(Abs(mem), c, id, i) == Found(Abs(mem), id)
  }

  /** x precedes o in o's bucket. */
  ghost predicate Before(mem: Mem, o: nat, x: nat, i: nat) {
    var c := ListAt(mem, BucketOf(mem, o));
    i < IndexOf(c, o) < |c| && c[i] == x
  }

  ghost predicate PcInv(mem: Mem, flock: map<nat, Tid>, t: Tid, pc: Pc) {
    match pc
    case AllocHash(o) => Owned(mem, t, o) && FooAt(mem, o).count == 1
    case AllocNext(o) => Owned(mem, t, o) && FooAt(mem, o).count == 1
    case AllocHead(o) => Owned(mem, t, o) && FooAt(mem, o).count == 1 &&
      FooAt(mem, o).next == HeadAt(mem, BucketOf(mem, o))
    case AllocLock(o) => Token(mem, t, o)
    case AllocUnhash(o) => Token(mem, t, o)
    case AllocUnlock(o) => Token(mem, t, o)
    case HoldLock(o) => Token(mem, t, o)
    case HoldInc(o) => Token(mem, t, o)
    case HoldUnlock(o) => Token(mem, t, o)
    case FindHash(_) => true
    case FindHead(_) => true
    case FindTest(id, cur) => exists i: nat :: SearchAt(mem, id, cur, i)
    case FindLock(id, o) => o == Found(Abs(mem), id) && Tabled(mem, o)
    case FindInc(id, o) => o == Found(Abs(mem), id) && Tabled(mem, o)
    case FindUnlock(o) => Token(mem, t, o)
    case FindUnhash(res) => res != 0 ==> Token(mem, t, res)
    case ReleLock(o) => Token(mem, t, o)
    case ReleTest(o) => Token(mem, t, o)
    case ReleUnlock(o) => Tabled(mem, o)
    case ReleDrop(o) => Token(mem, t, o)
    case ReleHash(o) => Token(mem, t, o)
    case ReleRelock(o) => Token(mem, t, o)
    case ReleRecheck(o) => Token(mem, t, o)
    case ReleUnlock2(o) => Tabled(mem, o)
    case ReleUnhash2 => true
    case ReleHead(o) => Sole(mem, t, o) && Tabled(mem, o)
    case ReleWalk(o, x) => Sole(mem, t, o) && Tabled(mem, o) && exists i: nat :: Before(mem, o, x, i)
    case ReleUnhash(o) => Owned(mem, t, o)
    case ReleUnlockF(o) => Owned(mem, t, o)
    case ReleFree(o) => Owned(mem, t, o) && o !in flock
  }

  ghost predicate Inv(sys: Sys) {
    && MemInv(sys.mem)
    && LockInv(sys)
    && LimboInv(sys)
    && (forall t :: t in sys.threads ==> PcInv(sys.mem, sys.flock, t, sys.threads[t]))
  }
}
