/**
 * The open count told from the events alone: what a process has open is the
 * creates that returned to it less the closes it called since it was born.
 */
module SemOpens {
  import opened Options
  import opened SemSet
  import opened SemProof

  /** The event ends the process: a crash, or a step that leaves what its exit leaves. */
  predicate Ends(sys: Sys, e: Event)
    requires Possible(sys, e)
  {
    e.Crash? || (e.Run? && Next(sys, e) == Die(sys, e.p))
  }

  /** A create of p returns an identifier: p was in create, is idle now and did not end. */
  predicate Returned(sys: Sys, e: Event)
    requires Possible(sys, e)
  {
    e.Run? && InCreate(sys.procs[e.p].pc) && |Next(sys, e).procs| > e.p && Next(sys, e).procs[e.p].pc.Idle?
  }

  /** Creates that returned to p less closes that p called, in the first n events, since p was born. */
  ghost function Held(states: seq<Sys>, events: seq<Event>, p: Pid, n: nat): int
    requires IsRun(states, events) && n <= |events|
  {
    if n == 0 then 0
    else
      var sys, e := states[n - 1], events[n - 1];
      if e.p != p then Held(states, events, p, n - 1)
      else if Ends(sys, e) then 0
      else if Returned(sys, e) then Held(states, events, p, n - 1) + 1
      else if e.CallClose? then Held(states, events, p, n - 1) - 1
      else Held(states, events, p, n - 1)
  }

  /** A close that has not yet given its open back. */
  function Closing(x: Proc): int { if x.pc.CloseLock? then 1 else 0 }

  /** One event changes what p has open, less a close under way, as its kind says. */
  lemma OpensStep(sys: Sys, e: Event, p: Pid)
    requires Possible(sys, e) && p < |sys.procs| && sys.procs[p].opens >= Closing(sys.procs[p])
    ensures |Next(sys, e).procs| == |sys.procs| && Next(sys, e).procs[p].opens >= Closing(Next(sys, e).procs[p])
    ensures Next(sys, e).procs[p].opens - Closing(Next(sys, e).procs[p]) ==
            if e.p == p && Ends(sys, e) then 0
            else sys.procs[p].opens - Closing(sys.procs[p])
                 + (if e.p == p && Returned(sys, e) then 1 else if e.p == p && e.CallClose? then -1 else 0)
  {
    if e.Run? {
      var pc := sys.procs[e.p].pc;
      if InCreate(pc) {
        CreateOpens(sys, e.p, pc, p);
      } else if InClose(pc) {
        CloseOpens(sys, e.p, pc, p);
      }
      hide CreateStep, CloseStep, Enabled;
    } else {
      hide CreateStep, CloseStep, OpStep;
    }
  }

  predicate SameOpens(x: Proc, x': Proc) { x'.opens == x.opens && Closing(x') == Closing(x) }

  lemma CreateOpens(sys: Sys, q: Pid, pc: Pc, p: Pid)
    requires q < |sys.procs| && p < |sys.procs| && pc == sys.procs[q].pc && InCreate(pc)
    ensures var sys' := CreateStep(sys, q, pc);
      && |sys'.procs| == |sys.procs|
      && (q != p || (sys' != Die(sys, q) && sys'.procs[p].pc != Idle) ==> SameOpens(sys.procs[p], sys'.procs[p]))
      && (q == p && sys' != Die(sys, q) && sys'.procs[p].pc.Idle? ==> sys'.procs[p].opens == sys.procs[p].opens + 1)
      && (q == p && sys' == Die(sys, q) ==> sys'.procs[p] == NEWBORN)
  {
  }

  lemma CloseOpens(sys: Sys, q: Pid, pc: Pc, p: Pid)
    requires q < |sys.procs| && p < |sys.procs| && pc == sys.procs[q].pc && InClose(pc)
    requires sys.procs[p].opens >= Closing(sys.procs[p])
    ensures var sys' := CloseStep(sys, q, pc);
      && |sys'.procs| == |sys.procs|
      && (q != p ==> SameOpens(sys.procs[p], sys'.procs[p]))
      && (q == p && sys' != Die(sys, q) ==>
            sys'.procs[p].opens == sys.procs[p].opens - Closing(sys.procs[p]) && Closing(sys'.procs[p]) == 0)
      && (q == p && sys' == Die(sys, q) ==> sys'.procs[p] == NEWBORN)
  {
  }

  /** In every state of every run, with no bound on how often the set is opened. */
  lemma {:induction false} OpensCounted(states: seq<Sys>, events: seq<Event>, p: Pid, n: nat)
    requires IsRun(states, events) && n <= |events| && p < |states[0].procs|
    ensures |states[n].procs| == |states[0].procs| && states[n].procs[p].opens >= Closing(states[n].procs[p])
    ensures states[n].procs[p].opens == Held(states, events, p, n) + Closing(states[n].procs[p])
  {
    hide Next, Possible, Ends, Returned;
    if n > 0 {
      OpensCounted(states, events, p, n - 1);
      OpensStep(states[n - 1], events[n - 1], p);
    }
  }

  /** Opens of the first k processes, told from the events. */
  ghost function TotalHeld(states: seq<Sys>, events: seq<Event>, k: nat, n: nat): int
    requires IsRun(states, events) && n <= |events| && k <= |states[n].procs|
  {
    if k == 0 then 0
    else TotalHeld(states, events, k - 1, n) + Held(states, events, k - 1, n) + Closing(states[n].procs[k - 1])
  }

  lemma {:induction false} TotalCounted(states: seq<Sys>, events: seq<Event>, k: nat, n: nat)
    requires IsRun(states, events) && n <= |events| && k <= |states[n].procs|
    ensures Sum(Opens, states[n].procs[..k]) == TotalHeld(states, events, k, n)
  {
    hide Next, Possible, Held;
    if k > 0 {
      assert states[n].procs[..k][..k - 1] == states[n].procs[..k - 1];
      TotalCounted(states, events, k - 1, n);
      SameCount(states, events, n);
      OpensCounted(states, events, k - 1, n);
    }
  }

  lemma {:induction false} SameCount(states: seq<Sys>, events: seq<Event>, n: nat)
    requires IsRun(states, events) && n <= |events|
    ensures |states[n].procs| == |states[0].procs|
  {
    if n > 0 {
      SameCount(states, events, n - 1);
    }
  }

  /**
   * Main result. As long as fewer than BIGCOUNT opens were outstanding, member
   * [1] of a set in use is BIGCOUNT less the creates that returned and were not
   * yet given back by a close or by the end of their process.
   */
  lemma {:induction false} CounterCountsEvents(states: seq<Sys>, events: seq<Event>, n: nat)
    requires IsRun(states, events) && n <= |events|
    requires forall i :: 0 <= i <= n ==> TotalOpens(states[i]) < BIGCOUNT
    ensures var held := TotalHeld(states, events, |states[n].procs|, n);
      match states[n].sems
      case None => held == 0
      case Some(s) => if s.v1 == 0 then held == 0 else s.v1 == BIGCOUNT - held
  {
    hide Next, Possible, Held, SetInv;
    RunInv(states, events, n);
    TotalCounted(states, events, |states[n].procs|, n);
    var procs := states[n].procs;
    assert procs[..|procs|] == procs;
    if states[n].sems.Some? {
      CounterCountsOpens(states[n]);
    } else {
      NoneOpen(procs);
    }
  }

  lemma {:induction false} NoneOpen(procs: seq<Proc>)
    requires forall i :: 0 <= i < |procs| ==> NoSetInv(procs[i])
    ensures Sum(Opens, procs) == 0
  {
    if procs != [] {
      NoneOpen(procs[..|procs| - 1]);
    }
  }

  /**
   * A create of a set in use, with the lock free and nobody interfering: the
   * value stays whatever initial value is asked for, the counter goes down by
   * exactly one, the lock is free again and the process has one open more,
   * which its end would give back.
   */
  lemma {:induction false} NextCreate(sys: Sys, p: Pid, init: int)
    requires Possible(sys, CallCreate(p, init)) && sys.sems.Some? && sys.sems.value.v1 >= 1 && sys.sems.value.v2 == 0
    requires Inv(sys)
    ensures var s, x := sys.sems.value, sys.procs[p];
      Alone(Next(sys, CallCreate(p, init)), p, 4,
            sys.(sems := Some(s.(v1 := s.v1 - 1)),
                 procs := sys.procs[p := Proc(Idle, s.id, x.opens + 1, x.adj0, x.adj1 + 1, 0)]))
  {
    hide Alone, SetInv;
    var s, x, procs := sys.sems.value, sys.procs[p], sys.procs;
    MemberFacts(s, procs, p);
    var s1 := Next(sys, CallCreate(p, init));
    var s2 := Act(s1, p);
    assert s2 == sys.(procs := procs[p := x.(pc := CreateLock(s.id, init))]);
    var s3 := Act(s2, p);
    assert s3 == sys.(sems := Some(s.(v2 := 1)), procs := procs[p := x.(adj2 := -1, pc := CreateTest(s.id, init))]);
    var s4 := Act(s3, p);
    assert s4 == sys.(sems := Some(s.(v2 := 1)), procs := procs[p := x.(adj2 := -1, pc := CreateEnd(s.id))]);
    var s5 := Act(s4, p);
    assert s5 == sys.(sems := Some(s.(v1 := s.v1 - 1)),
      procs := procs[p := Proc(Idle, s.id, x.opens + 1, x.adj0, x.adj1 + 1, 0)]);
    AloneFour(s1, s2, s3, s4, s5, p);
  }

  lemma AloneFour(s1: Sys, s2: Sys, s3: Sys, s4: Sys, s5: Sys, p: Pid)
    requires Enabled(s1, p) && s2 == Act(s1, p) && Enabled(s2, p) && s3 == Act(s2, p)
    requires Enabled(s3, p) && s4 == Act(s3, p) && Enabled(s4, p) && s5 == Act(s4, p)
    ensures Alone(s1, p, 4, s5)
  {
    hide Act, Enabled;
    assert Alone(s5, p, 0, s5);
    AloneStep(s4, p, 1, s5);
    AloneStep(s3, p, 2, s5);
    AloneStep(s2, p, 3, s5);
    AloneStep(s1, p, 4, s5);
  }

  /**
   * A create that finds a set whose counter is 0, left by a creator that died
   * before it was done, initialises it as the first create does.
   */
  lemma {:induction false} RepairCreate(sys: Sys, p: Pid, init: int) returns (sys': Sys)
    requires Possible(sys, CallCreate(p, init)) && sys.sems.Some? && sys.sems.value.v1 == 0 && sys.sems.value.v2 == 0
    requires 0 <= init <= SEMVMX
    requires Inv(sys)
    ensures Alone(Next(sys, CallCreate(p, init)), p, 6, sys')
    ensures sys'.sems == Some(Set(sys.sems.value.id, init, BIGCOUNT - 1, 0, init, 0))
    ensures p < |sys'.procs| && sys'.procs[p].pc == Idle && sys'.procs[p].opens == sys.procs[p].opens + 1
  {
    hide Alone, SetInv, Forget0, Forget1;
    var s, x, procs := sys.sems.value, sys.procs[p], sys.procs;
    MemberFacts(s, procs, p);
    var s1 := Next(sys, CallCreate(p, init));
    var s2 := Act(s1, p);
    assert s2 == sys.(procs := procs[p := x.(pc := CreateLock(s.id, init))]);
    var s3 := Act(s2, p);
    assert s3 == sys.(sems := Some(s.(v2 := 1)), procs := procs[p := x.(adj2 := -1, pc := CreateTest(s.id, init))]);
    var s4 := Act(s3, p);
    assert s4 == sys.(sems := Some(s.(v2 := 1)), procs := procs[p := x.(adj2 := -1, pc := CreateSet0(s.id, init))]);
    var s5 := Act(s4, p);
    ForgottenProc(s4.procs, p);
    var s6 := Act(s5, p);
    ForgottenProc(s5.procs, p);
    sys' := Act(s6, p);
    AloneSix(s1, s2, s3, s4, s5, s6, sys', p);
  }

  lemma ForgottenProc(procs: seq<Proc>, p: Pid)
    requires p < |procs|
    ensures Forget0(procs)[p] == procs[p].(adj0 := 0) && Forget1(procs)[p] == procs[p].(adj1 := 0)
  {
  }
}
