/** What holds of the semaphore set in every run, crashes included. */
module SemProof {
  import opened Options
  import opened SemSet

  // ----- invariant

  ghost predicate ProcInv(s: Set, total: int, x: Proc) {
    && x.adj1 == x.opens && x.adj2 == -LockBit(x)
    && (x.opens > 0 ==> x.id == s.id)
    && (HasLock(x.pc) ==> x.pc.id == s.id)
    && (x.pc.CloseLock? || x.pc.OpWait? ==> x.pc.id == s.id && x.opens > 0)
    && (x.pc.CreateSet0? || x.pc.CreateSet1? ==> s.v1 == 0 && total == 0)
    && (x.pc.CreateEnd? ==> s.v1 == BIGCOUNT - total && s.v1 >= 1)
    && (x.pc.CloseRemove? ==> s.v1 == BIGCOUNT && total == 0)
    && !x.pc.CloseDump?
  }

  /** A process when the key names no set. */
  predicate NoSetInv(x: Proc) {
    x.adj0 == 0 && x.adj1 == 0 && x.adj2 == 0 && x.opens == 0 && !HasLock(x.pc) && !x.pc.CloseLock? && !x.pc.OpWait?
  }

  /** Not initialised and not open, or the counter counts the opens down from BIGCOUNT. */
  predicate Counter(v1: int, total: int) {
    (v1 == 0 && total == 0) || (0 <= v1 && v1 == BIGCOUNT - total)
  }

  ghost predicate SetInv(s: Set, procs: seq<Proc>) {
    && 0 <= s.v0 <= SEMVMX && s.v0 == s.base + s.drift - Sum(Adj0, procs)
    && Counter(s.v1, Sum(Opens, procs))
    && s.v2 == Sum(LockBit, procs) && s.v2 <= 1
    && (forall i :: 0 <= i < |procs| ==> ProcInv(s, Sum(Opens, procs), procs[i]))
  }

  ghost predicate Inv(sys: Sys) {
    match sys.sems
    case None => forall i :: 0 <= i < |sys.procs| ==> NoSetInv(sys.procs[i])
    case Some(s) => s.id < sys.nextId && SetInv(s, sys.procs)
  }

  // ----- changing one process

  lemma ProcKept(s: Set, s': Set, total: int, total': int, x: Proc)
    requires ProcInv(s, total, x) && s'.id == s.id
    requires HasLock(x.pc) ==> s'.v1 + total' == s.v1 + total && 0 <= total' <= total
    ensures ProcInv(s', total', x)
  {
  }

  /** With the lock held by p or by nobody, no other process is in a locked section. */
  lemma {:induction false} OthersUnlocked(s: Set, procs: seq<Proc>, p: Pid, q: Pid)
    requires SetInv(s, procs) && p < |procs| && q < |procs| && q != p && (HasLock(procs[p].pc) || s.v2 == 0)
    ensures !HasLock(procs[q].pc)
  {
    SumBound(LockBit, procs, p, q);
  }

  /** The one-process step from which every step below is built. */
  lemma {:induction false} StepKeeps(s: Set, s': Set, procs: seq<Proc>, p: Pid, x': Proc)
    requires SetInv(s, procs) && p < |procs| && s'.id == s.id
    requires s'.v2 == s.v2 - LockBit(procs[p]) + LockBit(x') && s'.v2 <= 1
    requires 0 <= s'.v0 <= SEMVMX && s'.v0 == s'.base + s'.drift - Sum(Adj0, procs) + procs[p].adj0 - x'.adj0
    requires var total' := Sum(Opens, procs) - procs[p].opens + x'.opens;
      && Counter(s'.v1, total') && ProcInv(s', total', x')
      && (HasLock(procs[p].pc) || s.v2 == 0
          || (s'.v1 + total' == s.v1 + Sum(Opens, procs) && total' <= Sum(Opens, procs)))
    ensures SetInv(s', procs[p := x'])
  {
    hide ProcInv, Counter, HasLock, LockBit;
    var procs' := procs[p := x'];
    var total, total' := Sum(Opens, procs), Sum(Opens, procs');
    SumUpdate(Opens, procs, p, x');
    SumUpdate(LockBit, procs, p, x');
    SumUpdate(Adj0, procs, p, x');
    SumNat(Opens, procs');
    forall i | 0 <= i < |procs'| ensures ProcInv(s', total', procs'[i]) {
      if i != p {
        if HasLock(procs[p].pc) || s.v2 == 0 {
          OthersUnlocked(s, procs, p, i);
        }
        ProcKept(s, s', total, total', procs[i]);
      }
    }
  }

  lemma {:induction false} MemberFacts(s: Set, procs: seq<Proc>, p: Pid)
    requires SetInv(s, procs) && p < |procs|
    ensures ProcInv(s, Sum(Opens, procs), procs[p]) && Counter(s.v1, Sum(Opens, procs))
    ensures 0 <= procs[p].opens <= Sum(Opens, procs) && LockBit(procs[p]) <= s.v2 && 0 <= s.v2 <= 1
    ensures 0 <= s.v0 <= SEMVMX && s.v0 == s.base + s.drift - Sum(Adj0, procs)
  {
    SumBound(Opens, procs, p, p);
    SumBound(LockBit, procs, p, p);
  }

  /** Exit: the adjustments of [1] and [2] never leave the range of a semaphore. */
  lemma {:induction false} DieKeeps(s: Set, procs: seq<Proc>, p: Pid)
    requires SetInv(s, procs) && p < |procs|
    ensures SetInv(Adjusted(s, procs[p]), procs[p := NEWBORN])
    ensures Adjusted(s, procs[p]).v1 == s.v1 + procs[p].opens
    ensures Adjusted(s, procs[p]).v2 == s.v2 - LockBit(procs[p])
  {
    hide SetInv;
    MemberFacts(s, procs, p);
    StepKeeps(s, Adjusted(s, procs[p]), procs, p, NEWBORN);
  }

  lemma {:induction false} DieInv(sys: Sys, p: Pid)
    requires Inv(sys) && p < |sys.procs|
    ensures Inv(Die(sys, p))
  {
    hide SetInv;
    if sys.sems.Some? {
      DieKeeps(sys.sems.value, sys.procs, p);
    }
  }

  // ----- create

  lemma {:induction false} NewSet(procs: seq<Proc>, id: nat)
    requires forall i :: 0 <= i < |procs| ==> NoSetInv(procs[i])
    ensures SetInv(Set(id, 0, 0, 0, 0, 0), procs)
  {
    SumZero(Opens, procs);
    SumZero(LockBit, procs);
    SumZero(Adj0, procs);
  }

  lemma {:induction false} CreateGetInv(sys: Sys, p: Pid, pc: Pc)
    requires Inv(sys) && p < |sys.procs| && sys.procs[p].pc == pc && pc.CreateGet?
    ensures Inv(CreateStep(sys, p, pc))
  {
    hide SetInv;
    var s := if sys.sems.Some? then sys.sems.value else Set(sys.nextId, 0, 0, 0, 0, 0);
    if sys.sems.None? {
      NewSet(sys.procs, sys.nextId);
    }
    MemberFacts(s, sys.procs, p);
    StepKeeps(s, s, sys.procs, p, sys.procs[p].(pc := CreateLock(s.id, pc.init)));
  }

  lemma {:induction false} TakeKeeps(s: Set, procs: seq<Proc>, p: Pid, init: int)
    requires SetInv(s, procs) && p < |procs| && s.v2 == 0 && (procs[p].pc.CreateLock? || procs[p].pc.CreateSleep?)
    ensures SetInv(s.(v2 := s.v2 + 1), procs[p := procs[p].(adj2 := procs[p].adj2 - 1, pc := CreateTest(s.id, init))])
  {
    hide SetInv;
    MemberFacts(s, procs, p);
    StepKeeps(s, s.(v2 := s.v2 + 1), procs, p, procs[p].(adj2 := procs[p].adj2 - 1, pc := CreateTest(s.id, init)));
  }

  lemma {:induction false} CreateLockInv(sys: Sys, p: Pid, pc: Pc)
    requires Inv(sys) && p < |sys.procs| && sys.procs[p].pc == pc && (pc.CreateLock? || pc.CreateSleep?)
    ensures Inv(CreateStep(sys, p, pc))
  {
    hide SetInv, Die;
    if pc.CreateSleep? && !Current(sys, pc.id) {
      DieInv(sys, p);
    } else if Current(sys, pc.id) && sys.sems.value.v2 == 0 {
      TakeKeeps(sys.sems.value, sys.procs, p, pc.init);
    } else if sys.sems.Some? && pc.CreateLock? {
      var s := sys.sems.value;
      var pc' := if Current(sys, pc.id) then CreateSleep(pc.id, pc.init) else CreateGet(pc.init);
      MemberFacts(s, sys.procs, p);
      StepKeeps(s, s, sys.procs, p, sys.procs[p].(pc := pc'));
    }
  }

  lemma {:induction false} CreateTestInv(sys: Sys, p: Pid, pc: Pc)
    requires Inv(sys) && p < |sys.procs| && sys.procs[p].pc == pc && pc.CreateTest? && TotalOpens(sys) < BIGCOUNT
    ensures Inv(CreateStep(sys, p, pc))
  {
    hide SetInv;
    var s := sys.sems.value;
    MemberFacts(s, sys.procs, p);
    StepKeeps(s, s, sys.procs, p,
              sys.procs[p].(pc := if s.v1 == 0 then CreateSet0(pc.id, pc.init) else CreateEnd(pc.id)));
  }

  lemma {:induction false} ForgetKeeps(s: Set, procs: seq<Proc>, init: int)
    requires SetInv(s, procs) && 0 <= init <= SEMVMX
    ensures SetInv(s.(v0 := init, base := init, drift := 0), Forget0(procs))
  {
    var procs' := Forget0(procs);
    SumSame(Opens, procs, procs');
    SumSame(LockBit, procs, procs');
    SumZero(Adj0, procs');
    var s' := s.(v0 := init, base := init, drift := 0);
    forall i | 0 <= i < |procs'| ensures ProcInv(s', Sum(Opens, procs'), procs'[i]) {
      assert ProcInv(s, Sum(Opens, procs), procs[i]);
    }
  }

  lemma {:induction false} CreateSet0Inv(sys: Sys, p: Pid, pc: Pc)
    requires Inv(sys) && p < |sys.procs| && sys.procs[p].pc == pc && pc.CreateSet0?
    ensures Inv(CreateStep(sys, p, pc))
  {
    hide SetInv, Die;
    if 0 <= pc.init <= SEMVMX {
      var s := sys.sems.value;
      var s', procs' := s.(v0 := pc.init, base := pc.init, drift := 0), Forget0(sys.procs);
      MemberFacts(s, sys.procs, p);
      ForgetKeeps(s, sys.procs, pc.init);
      MemberFacts(s', procs', p);
      StepKeeps(s', s', procs', p, procs'[p].(pc := CreateSet1(pc.id)));
    } else {
      DieInv(sys, p);
    }
  }

  /** Nobody has it open, so forgetting the adjustments of [1] forgets nothing. */
  lemma {:induction false} NothingForgotten(s: Set, procs: seq<Proc>)
    requires SetInv(s, procs) && Sum(Opens, procs) == 0
    ensures Forget1(procs) == procs
    ensures forall i :: 0 <= i < |procs| ==> procs[i].opens == 0
  {
    forall i | 0 <= i < |procs| ensures procs[i].opens == 0 && Forget1(procs)[i] == procs[i] {
      SumBound(Opens, procs, i, i);
      assert ProcInv(s, Sum(Opens, procs), procs[i]);
    }
  }

  lemma {:induction false} CreateSet1Inv(sys: Sys, p: Pid, pc: Pc)
    requires Inv(sys) && p < |sys.procs| && sys.procs[p].pc == pc && pc.CreateSet1?
    ensures Inv(CreateStep(sys, p, pc))
  {
    hide SetInv, Forget1;
    var s := sys.sems.value;
    MemberFacts(s, sys.procs, p);
    NothingForgotten(s, sys.procs);
    StepKeeps(s, s.(v1 := BIGCOUNT), sys.procs, p, sys.procs[p].(pc := CreateEnd(pc.id)));
  }

  lemma {:induction false} CreateEndInv(sys: Sys, p: Pid, pc: Pc)
    requires Inv(sys) && p < |sys.procs| && sys.procs[p].pc == pc && pc.CreateEnd?
    ensures Inv(CreateStep(sys, p, pc))
  {
    hide SetInv;
    var s, x := sys.sems.value, sys.procs[p];
    MemberFacts(s, sys.procs, p);
    StepKeeps(s, s.(v1 := s.v1 - 1, v2 := s.v2 - 1), sys.procs, p,
              Proc(Idle, pc.id, x.opens + 1, x.adj0, x.adj1 + 1, x.adj2 + 1));
  }

  // ----- close

  lemma {:induction false} CloseLockInv(sys: Sys, p: Pid, pc: Pc)
    requires Inv(sys) && Enabled(sys, p) && sys.procs[p].pc == pc && pc.CloseLock?
    ensures Inv(CloseStep(sys, p, pc))
  {
    hide SetInv;
    var s, x := sys.sems.value, sys.procs[p];
    MemberFacts(s, sys.procs, p);
    StepKeeps(s, s.(v1 := s.v1 + 1, v2 := s.v2 + 1), sys.procs, p,
              Proc(CloseTest(pc.id), x.id, x.opens - 1, x.adj0, x.adj1 - 1, x.adj2 - 1));
  }

  lemma {:induction false} CloseTestInv(sys: Sys, p: Pid, pc: Pc)
    requires Inv(sys) && p < |sys.procs| && sys.procs[p].pc == pc && pc.CloseTest?
    ensures Inv(CloseStep(sys, p, pc))
  {
    hide SetInv;
    var s := sys.sems.value;
    MemberFacts(s, sys.procs, p);
    StepKeeps(s, s, sys.procs, p, sys.procs[p].(pc := if s.v1 == BIGCOUNT then CloseRemove(pc.id)
      else CloseUnlock(pc.id)));
  }

  lemma {:induction false} CloseRemoveInv(sys: Sys, p: Pid, pc: Pc)
    requires Inv(sys) && p < |sys.procs| && sys.procs[p].pc == pc && pc.CloseRemove?
    ensures Inv(CloseStep(sys, p, pc)) && CloseStep(sys, p, pc).sems.None?
    ensures TotalOpens(sys) == 0
  {
    hide SetInv;
    var s := sys.sems.value;
    MemberFacts(s, sys.procs, p);
    NothingForgotten(s, sys.procs);
    var sys' := CloseStep(sys, p, pc);
    forall i | 0 <= i < |sys'.procs| ensures NoSetInv(sys'.procs[i]) {
      if i != p {
        OthersUnlocked(s, sys.procs, p, i);
        MemberFacts(s, sys.procs, i);
      }
    }
  }

  lemma {:induction false} CloseUnlockInv(sys: Sys, p: Pid, pc: Pc)
    requires Inv(sys) && p < |sys.procs| && sys.procs[p].pc == pc && pc.CloseUnlock?
    ensures Inv(CloseStep(sys, p, pc))
  {
    hide SetInv;
    var s, x := sys.sems.value, sys.procs[p];
    MemberFacts(s, sys.procs, p);
    StepKeeps(s, s.(v2 := s.v2 - 1), sys.procs, p, x.(pc := Idle, adj2 := x.adj2 + 1));
  }

  // ----- op and the rest

  lemma {:induction false} OpInv(sys: Sys, p: Pid, id: nat, amount: int)
    requires Inv(sys) && Enabled(sys, p) && sys.procs[p].pc == OpWait(id, amount)
    ensures Inv(OpStep(sys, p, id, amount))
  {
    hide SetInv, Die;
    var s, x := sys.sems.value, sys.procs[p];
    MemberFacts(s, sys.procs, p);
    if amount == 0 || s.v0 + amount > SEMVMX || x.adj0 - amount > SEMVMX || x.adj0 - amount < -SEMVMX - 1 {
      DieInv(sys, p);
    } else {
      StepKeeps(s, s.(v0 := s.v0 + amount), sys.procs, p, x.(pc := Idle, adj0 := x.adj0 - amount));
    }
  }

  lemma {:induction false} ActInv(sys: Sys, p: Pid)
    requires Inv(sys) && Enabled(sys, p) && TotalOpens(sys) < BIGCOUNT
    ensures Inv(Act(sys, p))
  {
    hide Inv, CreateStep, CloseStep, OpStep;
    var pc := sys.procs[p].pc;
    match pc
    case CreateGet(_) => CreateGetInv(sys, p, pc);
    case CreateLock(_, _) => CreateLockInv(sys, p, pc);
    case CreateSleep(_, _) => CreateLockInv(sys, p, pc);
    case CreateTest(_, _) => CreateTestInv(sys, p, pc);
    case CreateSet0(_, _) => CreateSet0Inv(sys, p, pc);
    case CreateSet1(_) => CreateSet1Inv(sys, p, pc);
    case CreateEnd(_) => CreateEndInv(sys, p, pc);
    case CloseLock(_) => CloseLockInv(sys, p, pc);
    case CloseTest(_) => CloseTestInv(sys, p, pc);
    case CloseRemove(_) => CloseRemoveInv(sys, p, pc);
    case CloseUnlock(_) => CloseUnlockInv(sys, p, pc);
    case OpWait(id, amount) => OpInv(sys, p, id, amount);
    case CloseDump(_) => NeverDumps(sys, p);
  }

  /** The consistency check of sem_close never fires. */
  lemma NeverDumps(sys: Sys, p: Pid)
    requires Inv(sys) && p < |sys.procs|
    ensures !sys.procs[p].pc.CloseDump?
  {
    hide SetInv;
    if sys.sems.Some? {
      MemberFacts(sys.sems.value, sys.procs, p);
    }
  }

  lemma {:induction false} CallInv(sys: Sys, e: Event)
    requires Inv(sys) && Possible(sys, e) && !e.Run? && !e.Crash?
    ensures Inv(Next(sys, e))
  {
    hide SetInv;
    if sys.sems.Some? {
      var s := sys.sems.value;
      MemberFacts(s, sys.procs, e.p);
      StepKeeps(s, s, sys.procs, e.p, Next(sys, e).procs[e.p]);
    }
  }

  lemma {:induction false} NextInv(sys: Sys, e: Event)
    requires Inv(sys) && Possible(sys, e) && TotalOpens(sys) < BIGCOUNT
    ensures Inv(Next(sys, e))
  {
    hide Inv, Act, Die, Enabled;
    match e
    case Run(p) => ActInv(sys, p);
    case Crash(p) => DieInv(sys, p);
    case _ => CallInv(sys, e);
  }

  /** Main result: the invariant holds as long as fewer than BIGCOUNT opens were outstanding before. */
  lemma {:induction false} RunInv(states: seq<Sys>, events: seq<Event>, n: nat)
    requires IsRun(states, events) && n < |states|
    requires forall i :: 0 <= i < n ==> TotalOpens(states[i]) < BIGCOUNT
    ensures Inv(states[n])
  {
    if n > 0 {
      hide Inv, Next, Possible;
      RunInv(states, events, n - 1);
      NextInv(states[n - 1], events[n - 1]);
    }
  }

  // ----- what the invariant means

  /** Member [2] is a lock: one process at a time is between taking and giving it back. */
  lemma {:induction false} MutualExclusion(sys: Sys, p: Pid, q: Pid)
    requires Inv(sys) && p < |sys.procs| && q < |sys.procs| && HasLock(sys.procs[p].pc) && HasLock(sys.procs[q].pc)
    ensures p == q && sys.sems.Some? && sys.sems.value.v2 == 1
  {
    hide SetInv;
    MemberFacts(sys.sems.value, sys.procs, p);
    if p != q {
      OthersUnlocked(sys.sems.value, sys.procs, p, q);
    }
  }

  /** Member [1] counts the live opens; 0 means not initialised, and then nobody has it open. */
  lemma {:induction false} CounterCountsOpens(sys: Sys)
    requires Inv(sys) && sys.sems.Some? && TotalOpens(sys) < BIGCOUNT
    ensures sys.sems.value.v1 == 0 ==> TotalOpens(sys) == 0
    ensures sys.sems.value.v1 != 0 ==> sys.sems.value.v1 == BIGCOUNT - TotalOpens(sys)
  {
    SumNat(Opens, sys.procs);
  }

  /** While a process initialises the set nobody has it open. */
  lemma {:induction false} InitOnlyUnopened(sys: Sys, p: Pid, q: Pid)
    requires Inv(sys) && p < |sys.procs| && q < |sys.procs|
    requires sys.procs[p].pc.CreateSet0? || sys.procs[p].pc.CreateSet1?
    ensures sys.procs[q].opens == 0
  {
    hide SetInv;
    MemberFacts(sys.sems.value, sys.procs, p);
    NothingForgotten(sys.sems.value, sys.procs);
  }

  /** The set disappears only when nobody has it open, and no close or op is under way. */
  lemma {:induction false} RemovedOnlyUnopened(sys: Sys, e: Event, q: Pid)
    requires Inv(sys) && Possible(sys, e) && q < |sys.procs|
    requires sys.sems.Some? && (Next(sys, e).sems.None? || Next(sys, e).sems.value.id != sys.sems.value.id)
    ensures sys.procs[q].opens == 0 && !sys.procs[q].pc.OpWait? && !sys.procs[q].pc.CloseLock?
    ensures e.Run? && sys.procs[e.p].pc.CloseRemove?
  {
    hide SetInv;
    var s := sys.sems.value;
    MemberFacts(s, sys.procs, e.p);
    if sys.procs[e.p].pc.CloseRemove? {
      NothingForgotten(s, sys.procs);
      MemberFacts(s, sys.procs, q);
    }
  }

  /** A process that has the set open still names the set that the key names. */
  lemma {:induction false} OpenIsCurrent(sys: Sys, p: Pid)
    requires Inv(sys) && p < |sys.procs| && sys.procs[p].opens > 0
    ensures Current(sys, sys.procs[p].id)
  {
    hide SetInv;
    if sys.sems.Some? {
      MemberFacts(sys.sems.value, sys.procs, p);
    }
  }

  /** A dead process leaves its lock free and its opens uncounted, and nobody else's affected. */
  lemma {:induction false} CrashRecovers(sys: Sys, p: Pid)
    requires Inv(sys) && p < |sys.procs| && sys.sems.Some?
    ensures var s, s' := sys.sems.value, Die(sys, p).sems.value;
      && s'.v2 == (if HasLock(sys.procs[p].pc) then 0 else s.v2)
      && s'.v1 == s.v1 + sys.procs[p].opens
      && TotalOpens(Die(sys, p)) == TotalOpens(sys) - sys.procs[p].opens
      && (s'.drift == s.drift <==> 0 <= s.v0 + sys.procs[p].adj0 <= SEMVMX)
    ensures forall q :: 0 <= q < |sys.procs| && q != p ==> Die(sys, p).procs[q] == sys.procs[q]
  {
    hide SetInv;
    DieKeeps(sys.sems.value, sys.procs, p);
    MemberFacts(sys.sems.value, sys.procs, p);
    SumUpdate(Opens, sys.procs, p, NEWBORN);
  }

  /** The value is the initial value with every live process's operations applied, up to the drift. */
  lemma {:induction false} ValueConserved(sys: Sys)
    requires Inv(sys) && sys.sems.Some?
    ensures sys.sems.value.v0 == sys.sems.value.base + sys.sems.value.drift - Sum(Adj0, sys.procs)
    ensures 0 <= sys.sems.value.v0 <= SEMVMX
  {
  }

  /** The drift changes only when the value is set, or an exit would take it out of range. */
  lemma {:induction false} DriftOnlyByClamp(sys: Sys, e: Event)
    requires Inv(sys) && Possible(sys, e) && sys.sems.Some? && Next(sys, e).sems.Some?
    requires Next(sys, e).sems.value.drift != sys.sems.value.drift ||
      Next(sys, e).sems.value.base != sys.sems.value.base
    ensures (e.Run? && sys.procs[e.p].pc.CreateSet0?) || !(0 <= sys.sems.value.v0 + sys.procs[e.p].adj0 <= SEMVMX)
  {
    hide SetInv, Forget0, Forget1, ForgetAll;
  }

  /** Whoever waits for the lock waits for a live process that can move. */
  lemma {:induction false} LockHolderRuns(sys: Sys, p: Pid) returns (q: Pid)
    requires Inv(sys) && p < |sys.procs| && !Enabled(sys, p)
    requires InCreate(sys.procs[p].pc) || InClose(sys.procs[p].pc)
    ensures q != p && Enabled(sys, q) && HasLock(sys.procs[q].pc)
  {
    hide SetInv;
    var s := sys.sems.value;
    MemberFacts(s, sys.procs, p);
    q := LockHolder(s, sys.procs);
    MemberFacts(s, sys.procs, q);
  }

  lemma {:induction false} LockHolder(s: Set, procs: seq<Proc>) returns (q: Pid)
    requires SetInv(s, procs) && s.v2 != 0
    ensures q < |procs| && HasLock(procs[q].pc)
  {
    if forall i :: 0 <= i < |procs| ==> LockBit(procs[i]) == 0 {
      SumZero(LockBit, procs);
    }
    q :| q < |procs| && LockBit(procs[q]) != 0;
  }

  // ----- the limit of BIGCOUNT

  /** The next creator initialises a set that is open exactly when BIGCOUNT opens are outstanding. */
  lemma {:induction false} ReinitIff(sys: Sys, p: Pid)
    requires Inv(sys) && p < |sys.procs| && sys.procs[p].pc.CreateTest?
    ensures Next(sys, Run(p)).procs[p].pc.CreateSet0? && TotalOpens(sys) > 0 <==> TotalOpens(sys) == BIGCOUNT
  {
    hide SetInv;
    MemberFacts(sys.sems.value, sys.procs, p);
  }

  /** Process 0 has opened the set k times; process 1 has done nothing. */
  function OpenedTimes(k: nat): Sys {
    Sys(Some(Set(0, 0, BIGCOUNT - k, 0, 0, 0)), 1, [Proc(Idle, 0, k, 0, k, 0), NEWBORN])
  }

  lemma Extend(states: seq<Sys>, events: seq<Event>, e: Event) returns (states': seq<Sys>, events': seq<Event>)
    requires IsRun(states, events) && Possible(states[|events|], e)
    ensures IsRun(states', events') && |events'| == |events| + 1 && states'[|events'|] == Next(states[|events|], e)
    ensures events' == events + [e] && states'[|events|] == states[|events|]
  {
    states', events' := states + [Next(states[|events|], e)], events + [e];
  }

  /** Steps of process p until it returns from sem_create. */
  lemma {:induction false} OpenAgain(states: seq<Sys>, events: seq<Event>, k: nat)
      returns (states': seq<Sys>, events': seq<Event>)
    requires IsRun(states, events) && states[|events|] == OpenedTimes(k) && 1 <= k < BIGCOUNT
    ensures IsRun(states', events') && states'[|events'|] == OpenedTimes(k + 1)
  {
    hide IsRun;
    var t, e := Extend(states, events, CallCreate(0, 0));
    t, e := Extend(t, e, Run(0));
    t, e := Extend(t, e, Run(0));
    t, e := Extend(t, e, Run(0));
    states', events' := Extend(t, e, Run(0));
  }

  /** Process 0 holds the lock of a new set and finds it uninitialised. */
  function FirstLocked(): Sys {
    Sys(Some(Set(0, 0, 0, 1, 0, 0)), 1, [Proc(CreateSet0(0, 0), 0, 0, 0, 0, -1), NEWBORN])
  }

  lemma {:induction false} LockFirst() returns (states: seq<Sys>, events: seq<Event>)
    ensures IsRun(states, events) && states[|events|] == FirstLocked()
  {
    states, events := [Start(2)], [];
    assert states[0].procs == [NEWBORN, NEWBORN];
    hide IsRun, Start;
    states, events := Extend(states, events, CallCreate(0, 0));
    states, events := Extend(states, events, Run(0));
    states, events := Extend(states, events, Run(0));
    states, events := Extend(states, events, Run(0));
  }

  lemma {:induction false} OpenFirst() returns (states: seq<Sys>, events: seq<Event>)
    ensures IsRun(states, events) && states[|events|] == OpenedTimes(1)
  {
    hide IsRun;
    states, events := LockFirst();
    states, events := Extend(states, events, Run(0));
    assert states[|events|].procs == [Proc(CreateSet1(0), 0, 0, 0, 0, -1), NEWBORN];
    states, events := Extend(states, events, Run(0));
    assert states[|events|].procs == [Proc(CreateEnd(0), 0, 0, 0, 0, -1), NEWBORN];
    states, events := Extend(states, events, Run(0));
  }

  lemma {:induction false} OpenTimes(k: nat) returns (states: seq<Sys>, events: seq<Event>)
    requires 1 <= k <= BIGCOUNT
    ensures IsRun(states, events) && states[|events|] == OpenedTimes(k)
  {
    if k == 1 {
      states, events := OpenFirst();
    } else {
      states, events := OpenTimes(k - 1);
      states, events := OpenAgain(states, events, k - 1);
    }
  }

  /** So with BIGCOUNT opens the promise fails: process 1 comes to initialise what process 0 has open. */
  lemma {:induction false} ReinitHappens() returns (states: seq<Sys>, events: seq<Event>)
    ensures IsRun(states, events)
    ensures var sys := states[|events|];
      |sys.procs| == 2 && sys.procs[1].pc.CreateSet0? && sys.procs[0].opens == BIGCOUNT
  {
    states, events := OpenTimes(BIGCOUNT);
    hide IsRun;
    states, events := Extend(states, events, CallCreate(1, 0));
    states, events := Extend(states, events, Run(1));
    states, events := Extend(states, events, Run(1));
    states, events := Extend(states, events, Run(1));
  }

  // ----- a set removed under a creator

  /**
   * In every state of every run a creator can be ended by the kernel in two ways
   * only: it slept on the lock when the set was removed, or its initial value is
   * out of range. One that had not gone to sleep goes back and creates the set.
   */
  lemma {:induction false} CreateDiesIff(sys: Sys, p: Pid)
    requires Inv(sys) && Enabled(sys, p) && InCreate(sys.procs[p].pc)
    ensures var pc := sys.procs[p].pc;
      && (Act(sys, p) == Die(sys, p) <==>
            (pc.CreateSleep? && !Current(sys, pc.id)) || (pc.CreateSet0? && !(0 <= pc.init <= SEMVMX)))
      && (Act(sys, p).procs[p].pc.CreateGet? <==> pc.CreateLock? && !Current(sys, pc.id))
      && (Act(sys, p).procs[p].pc.CreateGet? ==> Act(sys, p) == Goto(sys, p, CreateGet(pc.init)))
  {
    hide SetInv, Forget0, Forget1;
    var pc := sys.procs[p].pc;
    if HasLock(pc) {
      MemberFacts(sys.sems.value, sys.procs, p);
    }
    CreateKeepsPc(sys, p);
  }

  lemma CreateKeepsPc(sys: Sys, p: Pid)
    requires p < |sys.procs| && InCreate(sys.procs[p].pc)
    ensures var pc, pc' := sys.procs[p].pc, CreateStep(sys, p, sys.procs[p].pc).procs[p].pc;
      && (pc.CreateLock? && Current(sys, pc.id) ==> pc'.CreateSleep? || pc'.CreateTest?)
      && (pc.CreateSleep? && Current(sys, pc.id) ==> pc'.CreateSleep? || pc'.CreateTest?)
      && (pc.CreateTest? && Current(sys, pc.id) ==> pc'.CreateSet0? || pc'.CreateEnd?)
      && (pc.CreateSet0? && Current(sys, pc.id) && 0 <= pc.init <= SEMVMX ==> pc'.CreateSet1?)
      && (pc.CreateSet1? && Current(sys, pc.id) ==> pc'.CreateEnd?)
  {
  }

  /** It happens: process 0 closes the set while process 1 sleeps on its lock, and process 1 is ended. */
  lemma {:induction false} SleeperDies() returns (states: seq<Sys>, events: seq<Event>)
    ensures IsRun(states, events) && |events| > 0 && events[|events| - 1] == Run(1)
    ensures var sys := states[|events| - 1];
      && |sys.procs| == 2 && sys.procs[1].pc == CreateSleep(0, 0) && sys.sems.None?
      && states[|events|] == Die(sys, 1)
  {
    hide IsRun;
    states, events := OpenFirst();
    states, events := Extend(states, events, CallClose(0));
    states, events := Extend(states, events, Run(0));
    states, events := Extend(states, events, CallCreate(1, 0));
    states, events := Extend(states, events, Run(1));
    states, events := Extend(states, events, Run(1));
    states, events := Extend(states, events, Run(0));
    states, events := Extend(states, events, Run(0));
    states, events := Extend(states, events, Run(1));
  }

  // ----- an amount that does not fit

  /** An amount of 65536 is not zero, but is stored as zero and ends the process. */
  lemma AmountLost() returns (states: seq<Sys>, events: seq<Event>)
    ensures IsRun(states, events) && |events| >= 2 && events[|events| - 2] == CallOp(0, 65536)
    ensures |states[|events| - 1].procs| == 2 && states[|events|] == Die(states[|events| - 1], 0)
  {
    hide IsRun;
    states, events := OpenFirst();
    assert Short(65536) == 0;
    states, events := Extend(states, events, CallOp(0, 65536));
    states, events := Extend(states, events, Run(0));
  }

  // ----- what the calls do when nobody interferes

  /** n steps of p, one after the other. */
  ghost predicate Alone(sys: Sys, p: Pid, n: nat, sys': Sys)
    decreases n
  {
    if n == 0 then sys' == sys else Enabled(sys, p) && Alone(Act(sys, p), p, n - 1, sys')
  }

  lemma AloneStep(sys: Sys, p: Pid, n: nat, sys': Sys)
    requires n > 0 && Enabled(sys, p) && Alone(Act(sys, p), p, n - 1, sys')
    ensures Alone(sys, p, n, sys')
  {
  }

  lemma ForgetNothing(procs: seq<Proc>, p: Pid, x: Proc)
    requires p < |procs| && x.adj0 == 0 && x.adj1 == 0
    requires forall i :: 0 <= i < |procs| ==> procs[i].adj0 == 0 && procs[i].adj1 == 0
    ensures Forget0(procs[p := x]) == procs[p := x] && Forget1(procs[p := x]) == procs[p := x]
  {
  }

  /** The first create makes a set with the initial value, one open and a free lock. */
  lemma {:induction false} FirstCreate(sys: Sys, p: Pid, init: int)
    requires Inv(sys) && sys.sems.None? && Possible(sys, CallCreate(p, init)) && 0 <= init <= SEMVMX
    ensures Alone(Next(sys, CallCreate(p, init)), p, 6,
                  Sys(Some(Set(sys.nextId, init, BIGCOUNT - 1, 0, init, 0)), sys.nextId + 1,
                      sys.procs[p := Proc(Idle, sys.nextId, 1, 0, 1, 0)]))
  {
    hide Alone, Forget0, Forget1;
    var id, procs, x := sys.nextId, sys.procs, sys.procs[p];
    assert NoSetInv(x);
    var s1 := Next(sys, CallCreate(p, init));
    var s2 := Act(s1, p);
    var s3 := Act(s2, p);
    var s4 := Act(s3, p);
    assert s4 == Sys(Some(Set(id, 0, 0, 1, 0, 0)), id + 1, procs[p := Proc(CreateSet0(id, init), x.id, 0, 0, 0, -1)]);
    ForgetNothing(procs, p, Proc(CreateSet0(id, init), x.id, 0, 0, 0, -1));
    var s5 := Act(s4, p);
    assert s5 == Sys(Some(Set(id, init, 0, 1, init, 0)), id + 1, procs[p := Proc(CreateSet1(id), x.id, 0, 0, 0, -1)]);
    ForgetNothing(procs, p, Proc(CreateSet1(id), x.id, 0, 0, 0, -1));
    var s6 := Act(s5, p);
    assert s6 == Sys(Some(Set(id, init, BIGCOUNT, 1, init, 0)), id + 1,
      procs[p := Proc(CreateEnd(id), x.id, 0, 0, 0, -1)]);
    var s7 := Act(s6, p);
    assert s7 == Sys(Some(Set(id, init, BIGCOUNT - 1, 0, init, 0)), id + 1, procs[p := Proc(Idle, id, 1, 0, 1, 0)]);
    AloneSix(s1, s2, s3, s4, s5, s6, s7, p);
  }

  lemma AloneSix(s1: Sys, s2: Sys, s3: Sys, s4: Sys, s5: Sys, s6: Sys, s7: Sys, p: Pid)
    requires Enabled(s1, p) && s2 == Act(s1, p) && Enabled(s2, p) && s3 == Act(s2, p) && Enabled(s3, p) &&
      s4 == Act(s3, p)
    requires Enabled(s4, p) && s5 == Act(s4, p) && Enabled(s5, p) && s6 == Act(s5, p) && Enabled(s6, p) &&
      s7 == Act(s6, p)
    ensures Alone(s1, p, 6, s7)
  {
    hide Act, Enabled;
    assert Alone(s7, p, 0, s7);
    AloneStep(s6, p, 1, s7);
    AloneStep(s5, p, 2, s7);
    AloneStep(s4, p, 3, s7);
    AloneStep(s3, p, 4, s7);
    AloneStep(s2, p, 5, s7);
    AloneStep(s1, p, 6, s7);
  }

  /** The last close removes the set; one before it only gives back its open and the lock. */
  lemma {:induction false} CloseAlone(sys: Sys, p: Pid) returns (sys': Sys)
    requires Inv(sys) && Possible(sys, CallClose(p)) && sys.sems.Some? && sys.sems.value.v2 == 0
    ensures Alone(Next(sys, CallClose(p)), p, 3, sys')
    ensures TotalOpens(sys) == 1 ==> sys'.sems.None?
    ensures TotalOpens(sys) > 1 ==> sys'.sems == Some(sys.sems.value.(v1 := sys.sems.value.v1 + 1))
    ensures |sys'.procs| == |sys.procs| && sys'.procs[p].opens == sys.procs[p].opens - 1 && sys'.procs[p].pc == Idle
  {
    hide SetInv, ForgetAll, Alone;
    var s := sys.sems.value;
    MemberFacts(s, sys.procs, p);
    var s1 := Next(sys, CallClose(p));
    var s2 := Act(s1, p);
    var s3 := Act(s2, p);
    sys' := Act(s3, p);
    assert Alone(sys', p, 0, sys') by { NoStep(sys', p); }
    AloneStep(s3, p, 1, sys');
    AloneStep(s2, p, 2, sys');
    AloneStep(s1, p, 3, sys');
    ForgottenAt(s3.procs, p);
  }

  lemma NoStep(sys: Sys, p: Pid)
    ensures Alone(sys, p, 0, sys)
  {
  }

  lemma ForgottenAt(procs: seq<Proc>, p: Pid)
    requires p < |procs|
    ensures ForgetAll(procs)[p].opens == procs[p].opens
  {
  }

  /** An operation waits exactly while it would make the value negative, and then adds its amount. */
  lemma {:induction false} OpAdds(sys: Sys, p: Pid, amount: int)
    requires Inv(sys) && Possible(sys, CallOp(p, amount)) && -32768 <= amount <= 32767 && amount != 0
    requires sys.sems.Some? && sys.sems.value.v0 + amount <= SEMVMX &&
      -SEMVMX - 1 <= sys.procs[p].adj0 - amount <= SEMVMX
    ensures var called := Next(sys, CallOp(p, amount));
      && (Enabled(called, p) <==> sys.sems.value.v0 + amount >= 0)
      && (Enabled(called, p) ==>
            Act(called, p).sems == Some(sys.sems.value.(v0 := sys.sems.value.v0 + amount)) &&
              Act(called, p).procs[p].pc == Idle)
  {
    hide SetInv;
    MemberFacts(sys.sems.value, sys.procs, p);
    assert Short(amount) == amount;
  }
}
