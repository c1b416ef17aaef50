/**
 * Semaphores with an open count that survives crashes: one System V set of
 * three members, used by any number of processes through create, op and close,
 * where any process may die between any two kernel calls. Each step is one
 * kernel call.
 */
module SemSet {
  import opened Options

  const BIGCOUNT: int := 10000
  /** The kernel's bound on a semaphore value, and on an adjustment. */
  const SEMVMX: int := 32767

  type Pid = nat

  /**
   * The set that the key names: the value, the process counter and the lock.
   * `base` and `drift` are for the proof: the last initial value, and what
   * clamped adjustments have added to the value since.
   */
  datatype Set = Set(id: nat, v0: int, v1: int, v2: int, base: int, drift: int)

  datatype Pc =
    | Idle
    | CreateGet(init: int)
    | CreateLock(id: nat, init: int)
    | CreateSleep(id: nat, init: int)
    | CreateTest(id: nat, init: int)
    | CreateSet0(id: nat, init: int)
    | CreateSet1(id: nat)
    | CreateEnd(id: nat)
    | CloseLock(id: nat)
    | CloseTest(id: nat)
    | CloseRemove(id: nat)
    | CloseUnlock(id: nat)
    | CloseDump(id: nat)
    | OpWait(id: nat, amount: int)

  /** `adj0`, `adj1`, `adj2` are what the kernel adds to the set when the process exits. */
  datatype Proc = Proc(pc: Pc, id: nat, opens: nat, adj0: int, adj1: int, adj2: int)

  datatype Sys = Sys(sems: Option<Set>, nextId: nat, procs: seq<Proc>)

  const NEWBORN: Proc := Proc(Idle, 0, 0, 0, 0, 0)

  // ----- kernel calls

  function Clamp(v: int): int {
    if v < 0 then 0 else if v > SEMVMX then SEMVMX else v
  }

  /** An int stored in the short sem_op field. */
  function Short(x: int): (r: int)
    ensures -32768 <= r <= 32767 && (x - r) % 65536 == 0
    ensures r == x <==> -32768 <= x <= 32767
  {
    (x + 32768) % 65536 - 32768
  }

  predicate Current(sys: Sys, id: nat) { sys.sems.Some? && sys.sems.value.id == id }

  /** SETVAL forgets every process's adjustment of that member; IPC_RMID forgets them all. */
  function Forget0(procs: seq<Proc>): (r: seq<Proc>)
    ensures |r| == |procs|
  {
    seq(|procs|, i requires 0 <= i < |procs| => procs[i].(adj0 := 0))
  }

  function Forget1(procs: seq<Proc>): (r: seq<Proc>)
    ensures |r| == |procs|
  {
    seq(|procs|, i requires 0 <= i < |procs| => procs[i].(adj1 := 0))
  }

  function ForgetAll(procs: seq<Proc>): (r: seq<Proc>)
    ensures |r| == |procs|
  {
    seq(|procs|, i requires 0 <= i < |procs| => procs[i].(adj0 := 0, adj1 := 0, adj2 := 0))
  }

  function Goto(sys: Sys, p: Pid, pc: Pc): Sys
    requires p < |sys.procs|
  {
    sys.(procs := sys.procs[p := sys.procs[p].(pc := pc)])
  }

  /** The values after the exit of a process with these adjustments. */
  function Adjusted(s: Set, x: Proc): Set {
    s.(v0 := Clamp(s.v0 + x.adj0), v1 := Clamp(s.v1 + x.adj1), v2 := Clamp(s.v2 + x.adj2),
       drift := s.drift + Clamp(s.v0 + x.adj0) - (s.v0 + x.adj0))
  }

  /** Exit, wanted or not; also what err_sys does. The slot is free for a new process. */
  function Die(sys: Sys, p: Pid): Sys
    requires p < |sys.procs|
  {
    Sys(if sys.sems.Some? then Some(Adjusted(sys.sems.value, sys.procs[p])) else None,
        sys.nextId, sys.procs[p := NEWBORN])
  }

  /** Waiting for [2] to be 0 and then taking it. */
  function TakeLock(sys: Sys, p: Pid, pc: Pc): Sys
    requires p < |sys.procs| && sys.sems.Some?
  {
    var s, x := sys.sems.value, sys.procs[p];
    sys.(sems := Some(s.(v2 := s.v2 + 1)), procs := sys.procs[p := x.(adj2 := x.adj2 - 1, pc := pc)])
  }

  // ----- steps

  function CreateStep(sys: Sys, p: Pid, pc: Pc): Sys
    requires p < |sys.procs|
  {
    var x := sys.procs[p];
    match pc
    case CreateGet(init) =>
      if sys.sems.Some? then Goto(sys, p, CreateLock(sys.sems.value.id, init))
      else Goto(sys.(sems := Some(Set(sys.nextId, 0, 0, 0, 0, 0)), nextId := sys.nextId + 1), p,
        CreateLock(sys.nextId, init))
    case CreateLock(id, init) =>
      if !Current(sys, id) then Goto(sys, p, CreateGet(init))
      else if sys.sems.value.v2 != 0 then Goto(sys, p, CreateSleep(id, init))
      else TakeLock(sys, p, CreateTest(id, init))
    case CreateSleep(id, init) =>
      if !Current(sys, id) then Die(sys, p)
      else if sys.sems.value.v2 != 0 then sys
      else TakeLock(sys, p, CreateTest(id, init))
    case CreateTest(id, init) =>
      if !Current(sys, id) then Die(sys, p)
      else Goto(sys, p, if sys.sems.value.v1 == 0 then CreateSet0(id, init) else CreateEnd(id))
    case CreateSet0(id, init) =>
      if !Current(sys, id) || init < 0 || init > SEMVMX then Die(sys, p)
      else
        var s := sys.sems.value;
        Goto(sys.(sems := Some(s.(v0 := init, base := init, drift := 0)), procs := Forget0(sys.procs)), p,
          CreateSet1(id))
    case CreateSet1(id) =>
      if !Current(sys, id) then Die(sys, p)
      else
        var s := sys.sems.value;
        Goto(sys.(sems := Some(s.(v1 := BIGCOUNT)), procs := Forget1(sys.procs)), p, CreateEnd(id))
    case CreateEnd(id) =>
      if !Current(sys, id) then Die(sys, p)
      else
        var s := sys.sems.value;
        sys.(sems := Some(s.(v1 := s.v1 - 1, v2 := s.v2 - 1)),
             procs := sys.procs[p := Proc(Idle, id, x.opens + 1, x.adj0, x.adj1 + 1, x.adj2 + 1)])
    case _ => sys
  }

  function CloseStep(sys: Sys, p: Pid, pc: Pc): Sys
    requires p < |sys.procs|
  {
    var x := sys.procs[p];
    match pc
    case CloseLock(id) =>
      if !Current(sys, id) then Die(sys, p)
      else
        var s := sys.sems.value;
        sys.(sems := Some(s.(v1 := s.v1 + 1, v2 := s.v2 + 1)),
             procs := sys.procs[p := Proc(CloseTest(id), x.id, if x.opens > 0 then x.opens - 1 else 0,
                                          x.adj0, x.adj1 - 1, x.adj2 - 1)])
    case CloseTest(id) =>
      if !Current(sys, id) then Die(sys, p)
      else Goto(sys, p, if sys.sems.value.v1 > BIGCOUNT then CloseDump(id)
                        else if sys.sems.value.v1 == BIGCOUNT then CloseRemove(id) else CloseUnlock(id))
    case CloseRemove(id) =>
      if !Current(sys, id) then Die(sys, p)
      else Goto(sys.(sems := None, procs := ForgetAll(sys.procs)), p, Idle)
    case CloseUnlock(id) =>
      if !Current(sys, id) then Die(sys, p)
      else
        var s := sys.sems.value;
        sys.(sems := Some(s.(v2 := s.v2 - 1)), procs := sys.procs[p := x.(pc := Idle, adj2 := x.adj2 + 1)])
    case _ => Die(sys, p)
  }

  function OpStep(sys: Sys, p: Pid, id: nat, amount: int): Sys
    requires p < |sys.procs|
  {
    var x := sys.procs[p];
    if !Current(sys, id) || amount == 0 then Die(sys, p)
    else
      var s := sys.sems.value;
      if s.v0 + amount > SEMVMX || x.adj0 - amount > SEMVMX || x.adj0 - amount < -SEMVMX - 1 then Die(sys, p)
      else sys.(sems := Some(s.(v0 := s.v0 + amount)), procs := sys.procs[p := x.(pc := Idle, adj0 := x.adj0 - amount)])
  }

  predicate InCreate(pc: Pc) {
    || pc.CreateGet? || pc.CreateLock? || pc.CreateSleep? || pc.CreateTest? || pc.CreateSet0? || pc.CreateSet1? ||
      pc.CreateEnd?
  }

  predicate InClose(pc: Pc) {
    pc.CloseLock? || pc.CloseTest? || pc.CloseRemove? || pc.CloseUnlock? || pc.CloseDump?
  }

  function Act(sys: Sys, p: Pid): Sys
    requires p < |sys.procs|
  {
    var pc := sys.procs[p].pc;
    if InCreate(pc) then CreateStep(sys, p, pc)
    else if InClose(pc) then CloseStep(sys, p, pc)
    else if pc.OpWait? then OpStep(sys, p, pc.id, pc.amount)
    else sys
  }

  /** Whether the kernel call would return now rather than sleep. */
  predicate Enabled(sys: Sys, p: Pid) {
    && p < |sys.procs| && sys.procs[p].pc != Idle
    && match sys.procs[p].pc {
      case CreateSleep(id, _) => Current(sys, id) ==> sys.sems.value.v2 == 0
      case CreateEnd(id) => Current(sys, id) ==> sys.sems.value.v1 >= 1 && sys.sems.value.v2 >= 1
      case CloseLock(id) => Current(sys, id) ==> sys.sems.value.v2 == 0
      case CloseUnlock(id) => Current(sys, id) ==> sys.sems.value.v2 >= 1
      case OpWait(id, amount) => Current(sys, id) ==> sys.sems.value.v0 + amount >= 0
      case _ => true
    }
  }

  /** Refuse is semget failing for lack of room or permission. */
  datatype Event =
    | CallCreate(p: Pid, init: int)
    | CallClose(p: Pid)
    | CallOp(p: Pid, amount: int)
    | Refuse(p: Pid)
    | Run(p: Pid)
    | Crash(p: Pid)

  /** Close and op are for processes that have the set open. */
  predicate Possible(sys: Sys, e: Event) {
    && e.p < |sys.procs|
    && match e {
      case CallCreate(p, _) => sys.procs[p].pc.Idle?
      case CallClose(p) => sys.procs[p].pc.Idle? && sys.procs[p].opens > 0
      case CallOp(p, _) => sys.procs[p].pc.Idle? && sys.procs[p].opens > 0
      case Refuse(p) => sys.procs[p].pc.CreateGet?
      case Run(p) => Enabled(sys, p)
      case Crash(p) => true
    }
  }

  function Next(sys: Sys, e: Event): Sys
    requires Possible(sys, e)
  {
    match e
    case CallCreate(p, init) => Goto(sys, p, CreateGet(init))
    case CallClose(p) => Goto(sys, p, CloseLock(sys.procs[p].id))
    case CallOp(p, amount) => Goto(sys, p, OpWait(sys.procs[p].id, Short(amount)))
    case Refuse(p) => Goto(sys, p, Idle)
    case Run(p) => Act(sys, p)
    case Crash(p) => Die(sys, p)
  }

  /** No set yet, and n newborn processes. */
  function Start(n: nat): Sys { Sys(None, 0, seq(n, i => NEWBORN)) }

  ghost predicate IsRun(states: seq<Sys>, events: seq<Event>) {
    && |states| == |events| + 1
    && states[0] == Start(|states[0].procs|)
    && (forall i :: 0 <= i < |events| ==> Possible(states[i], events[i]) && states[i + 1] == Next(states[i], events[i]))
  }

  // ----- totals over the processes

  predicate HasLock(pc: Pc) {
    || pc.CreateTest? || pc.CreateSet0? || pc.CreateSet1? || pc.CreateEnd?
    || pc.CloseTest? || pc.CloseRemove? || pc.CloseUnlock? || pc.CloseDump?
  }

  function Opens(x: Proc): int { x.opens }
  function LockBit(x: Proc): int { if HasLock(x.pc) then 1 else 0 }
  function Adj0(x: Proc): int { x.adj0 }

  function Sum(f: Proc -> int, procs: seq<Proc>): int {
    if procs == [] then 0 else Sum(f, procs[..|procs| - 1]) + f(procs[|procs| - 1])
  }

  function TotalOpens(sys: Sys): int { Sum(Opens, sys.procs) }

  lemma {:induction false} SumUpdate(f: Proc -> int, procs: seq<Proc>, p: Pid, x: Proc)
    requires p < |procs|
    ensures Sum(f, procs[p := x]) == Sum(f, procs) - f(procs[p]) + f(x)
  {
    var n := |procs| - 1;
    if p == n {
      assert procs[p := x][..n] == procs[..n];
    } else {
      assert procs[p := x][..n] == procs[..n][p := x];
      SumUpdate(f, procs[..n], p, x);
    }
  }

  lemma {:induction false} SumSame(f: Proc -> int, procs: seq<Proc>, procs': seq<Proc>)
    requires |procs| == |procs'| && forall i :: 0 <= i < |procs| ==> f(procs[i]) == f(procs'[i])
    ensures Sum(f, procs) == Sum(f, procs')
  {
    if procs != [] {
      var n := |procs| - 1;
      SumSame(f, procs[..n], procs'[..n]);
    }
  }

  /** Two different terms of a sum of naturals never exceed the sum. */
  lemma {:induction false} SumBound(f: Proc -> int, procs: seq<Proc>, p: Pid, q: Pid)
    requires p < |procs| && q < |procs| && forall i :: 0 <= i < |procs| ==> f(procs[i]) >= 0
    ensures Sum(f, procs) >= f(procs[p])
    ensures p != q ==> Sum(f, procs) >= f(procs[p]) + f(procs[q])
  {
    var n := |procs| - 1;
    SumNat(f, procs[..n]);
    if p < n && q < n {
      SumBound(f, procs[..n], p, q);
    } else if p < n {
      SumBound(f, procs[..n], p, p);
    } else if q < n {
      SumBound(f, procs[..n], q, q);
    }
  }

  lemma {:induction false} SumNat(f: Proc -> int, procs: seq<Proc>)
    requires forall i :: 0 <= i < |procs| ==> f(procs[i]) >= 0
    ensures Sum(f, procs) >= 0
  {
    if procs != [] {
      SumNat(f, procs[..|procs| - 1]);
    }
  }

  lemma {:induction false} SumZero(f: Proc -> int, procs: seq<Proc>)
    requires forall i :: 0 <= i < |procs| ==> f(procs[i]) == 0
    ensures Sum(f, procs) == 0
  {
    if procs != [] {
      SumZero(f, procs[..|procs| - 1]);
    }
  }
}
