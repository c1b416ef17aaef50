/**
 * When timers with an expiry fire, over any run of operations: what a container
 * of timers promises, whether it deletes at once or lazily.
 */
module TimerRuns {
  /** The timers held, by address, with their expiries, and which of them are cancelled. */
  datatype State = State(held: map<nat, int>, dead: set<nat>)

  datatype Op =
    | Add(o: nat, expire: int) | Cancel(o: nat) | Remove(o: nat) | Extend(o: nat, expire: int) | Tick(now: int)

  predicate Legal(st: State, op: Op) {
    match op
    case Add(o, _) => o != 0 && o !in st.held
    case Cancel(o) => o != 0 && o in st.held
    case Remove(o) => o != 0 && o in st.held
    case Extend(o, expire) => o in st.held && st.held[o] <= expire
    case Tick(_) => true
  }

  function Later(held: map<nat, int>, now: int): map<nat, int> { map o | o in held && held[o] > now :: held[o] }

  function After(st: State, op: Op): State {
    match op
    case Add(o, expire) => st.(held := st.held[o := expire])
    case Cancel(o) => st.(dead := st.dead + {o})
    case Remove(o) => State(st.held - {o}, st.dead - {o})
    case Extend(o, expire) => st.(held := st.held[o := expire])
    case Tick(now) => State(Later(st.held, now), set o | o in st.dead && o in Later(st.held, now))
  }

  /** The timers called back: those that are due and not cancelled. */
  function Fires(st: State, op: Op): set<nat> {
    match op
    case Tick(now) => set o | o in st.held && st.held[o] <= now && o !in st.dead
    case _ => {}
  }

  function AfterAll(st: State, ops: seq<Op>): State {
    if ops == [] then st else After(AfterAll(st, ops[..|ops| - 1]), ops[|ops| - 1])
  }

  predicate LegalAll(st: State, ops: seq<Op>) {
    ops == [] || (LegalAll(st, ops[..|ops| - 1]) && Legal(AfterAll(st, ops[..|ops| - 1]), ops[|ops| - 1]))
  }

  function FiresAt(st: State, ops: seq<Op>, i: nat): set<nat>
    requires i < |ops|
  {
    Fires(AfterAll(st, ops[..i]), ops[i])
  }

  lemma {:induction false} LegalPrefix(st: State, ops: seq<Op>, k: nat)
    requires LegalAll(st, ops) && k < |ops|
    ensures LegalAll(st, ops[..k]) && Legal(AfterAll(st, ops[..k]), ops[k])
  {
    var n := |ops| - 1;
    if k < n {
      LegalPrefix(st, ops[..n], k);
      assert ops[..n][..k] == ops[..k];
    }
  }

  /** No operation but ticks concerns timer o. */
  predicate Untouched(ops: seq<Op>, o: nat) {
    forall i :: 0 <= i < |ops| ==> ops[i].Tick? || ops[i].o != o
  }

  predicate NoneDue(ops: seq<Op>, expire: int) { forall i :: 0 <= i < |ops| && ops[i].Tick? ==> ops[i].now < expire }

  /** Until a tick reaches its expiry a timer waits. */
  lemma {:induction false} Waits(st: State, ops: seq<Op>, o: nat)
    requires o in st.held && o !in st.dead && Untouched(ops, o) && NoneDue(ops, st.held[o])
    ensures var st' := AfterAll(st, ops); o in st'.held && st'.held[o] == st.held[o] && o !in st'.dead
  {
    if ops != [] {
      Waits(st, ops[..|ops| - 1], o);
    }
  }

  /**
   * A timer that is held, not cancelled and not touched again, in any run: it
   * fires on the first tick that reaches its expiry, on none before, and is then
   * held no more.
   */
  lemma {:induction false} FiresWhenDue(st: State, ops: seq<Op>, o: nat, i: nat)
    requires i < |ops| && o in st.held && o !in st.dead && Untouched(ops, o) && NoneDue(ops[..i], st.held[o])
    ensures o in FiresAt(st, ops, i) <==> ops[i].Tick? && st.held[o] <= ops[i].now
    ensures o in FiresAt(st, ops, i) ==> o !in AfterAll(st, ops[..i + 1]).held
  {
    Waits(st, ops[..i], o);
    assert ops[..i + 1][..i] == ops[..i];
  }

  /** So a timer fires as the call that set its expiry last asked for. */
  lemma {:induction false} FiresAsAsked(st: State, call: Op, ops: seq<Op>, i: nat)
    requires (call.Add? || call.Extend?) && Legal(st, call) && call.o !in st.dead
    requires i < |ops| && Untouched(ops, call.o) && NoneDue(ops[..i], call.expire)
    ensures call.o in FiresAt(After(st, call), ops, i) <==> ops[i].Tick? && call.expire <= ops[i].now
  {
    FiresWhenDue(After(st, call), ops, call.o, i);
  }

  /** A timer that is not held and not added does not fire. */
  lemma {:induction false} Silent(st: State, ops: seq<Op>, o: nat)
    requires o !in st.held && LegalAll(st, ops) && forall e :: Add(o, e) !in ops
    ensures o !in AfterAll(st, ops).held
    ensures forall i :: 0 <= i < |ops| ==> o !in FiresAt(st, ops, i)
  {
    if ops != [] {
      var n := |ops| - 1;
      Silent(st, ops[..n], o);
      forall i | 0 <= i < n ensures o !in FiresAt(st, ops, i) {
        assert ops[..n][..i] == ops[..i] && ops[..n][i] == ops[i];
        assert o !in FiresAt(st, ops[..n], i);
      }
      assert ops[n].Add? ==> Add(o, ops[n].expire) !in ops;
    }
  }

  lemma GoneAfter(st: State, ops: seq<Op>, o: nat, i: nat)
    requires i < |ops| && o in FiresAt(st, ops, i)
    ensures o !in AfterAll(st, ops[..i + 1]).held
  {
    assert ops[..i + 1][..i] == ops[..i];
  }

  /** Once it has fired it does not fire again, unless the address is used for a new timer. */
  lemma {:induction false} FiresOnce(st: State, ops: seq<Op>, o: nat, i: nat, j: nat)
    requires LegalAll(st, ops) && i < j < |ops| && o in FiresAt(st, ops, i) && forall e :: Add(o, e) !in ops
    ensures o !in FiresAt(st, ops, j)
  {
    GoneAfter(st, ops, o, i);
    hide After, Fires, LegalAll;
    var st1, rest := AfterAll(st, ops[..i + 1]), ops[i + 1..];
    LegalSuffix(st, ops, i + 1);
    Silent(st1, rest, o);
    AfterSplit(st, ops[..i + 1], rest[..j - i - 1]);
    assert ops[..i + 1] + rest[..j - i - 1] == ops[..j];
    assert o !in FiresAt(st1, rest, j - i - 1);
  }

  /** A cancelled timer does not fire, however long it is still held. */
  lemma {:induction false} CancelledSilent(st: State, ops: seq<Op>, o: nat, i: nat)
    requires LegalAll(st, ops) && i < |ops| && o in st.dead && o in st.held && forall e :: Add(o, e) !in ops
    ensures o !in FiresAt(st, ops, i)
  {
    LegalPrefix(st, ops, i);
    StaysDead(st, ops[..i], o);
  }

  lemma {:induction false} StaysDead(st: State, ops: seq<Op>, o: nat)
    requires LegalAll(st, ops) && o in st.dead && o in st.held && forall e :: Add(o, e) !in ops
    ensures o in AfterAll(st, ops).held ==> o in AfterAll(st, ops).dead
  {
    if ops != [] {
      var n := |ops| - 1;
      StaysDead(st, ops[..n], o);
      assert ops[n].Add? ==> Add(o, ops[n].expire) !in ops;
    }
  }

  lemma {:induction false} LegalSuffix(st: State, ops: seq<Op>, k: nat)
    requires LegalAll(st, ops) && k <= |ops|
    ensures LegalAll(AfterAll(st, ops[..k]), ops[k..])
  {
    if k < |ops| {
      var n := |ops| - 1;
      assert ops[..n][..k] == ops[..k] && ops[..n][k..] == ops[k..][..n - k];
      LegalSuffix(st, ops[..n], k);
      AfterSplit(st, ops[..k], ops[k..n]);
      assert ops[..k] + ops[k..n] == ops[..n] && ops[k..][..n - k] == ops[k..n];
    }
  }

  lemma {:induction false} AfterSplit(st: State, a: seq<Op>, b: seq<Op>)
    ensures AfterAll(st, a + b) == AfterAll(AfterAll(st, a), b)
  {
    if b == [] {
      assert a + b == a;
    } else {
      assert (a + b)[..|a + b| - 1] == a + b[..|b| - 1];
      AfterSplit(st, a, b[..|b| - 1]);
    }
  }
}
