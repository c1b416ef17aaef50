/**
 * What the pointers of a laid-out file mean: the free list and the hash chains
 * as sequences of record offsets, and the key/data map the chained records hold.
 */
module DbChains {
  import opened DbText
  import opened DbLayout

  /**
   * The lists threaded through the file. Slot 0 is the free list and slot 1 + h
   * is hash chain h; `slotOf` names the list each filed record is on and `where`
   * the record of each stored key.
   */
  datatype Lists = Lists(chains: seq<seq<nat>>, slotOf: map<nat, nat>, where: map<string, nat>)

  ghost predicate NoDup(c: seq<nat>) {
    forall i, j :: 0 <= i < j < |c| ==> c[i] != c[j]
  }

  /** The i-th offset of a list, 0 past its end. */
  function At(c: seq<nat>, i: nat): nat {
    if i < |c| then c[i] else 0
  }

  /** The pointer cell that leads to the i-th record of list k. */
  function CellOf(k: nat, c: seq<nat>, i: nat): nat {
    if 0 < i <= |c| then c[i - 1] else PTR_SZ * k
  }

  /** List k, empty when there is no such list. */
  function Chain(l: Lists, k: nat): seq<nat> {
    if k < |l.chains| then l.chains[k] else []
  }

  function Without(c: seq<nat>, i: nat): (r: seq<nat>)
    ensures i < |c| ==> |r| == |c| - 1
    ensures i < |c| ==> forall j :: 0 <= j < |r| ==> r[j] == if j < i then c[j] else c[j + 1]
  {
    if i < |c| then c[..i] + c[i + 1..] else c
  }

  ghost predicate LinkAt(recs: map<nat, IdxRec>, c: seq<nat>, i: nat) {
    i < |c| && c[i] in recs && recs[c[i]].next == At(c, i + 1)
  }

  /** Following the pointers from header cell k visits exactly c and then stops. */
  ghost predicate Linked(s: Shape, k: nat, c: seq<nat>) {
    && k < |s.heads|
    && s.heads[k] == At(c, 0)
    && (forall i: nat :: i < |c| ==> LinkAt(s.recs, c, i))
  }

  ghost predicate Threaded(s: Shape, chains: seq<seq<nat>>) {
    && |s.heads| == SLOTS == |chains|
    && (forall k :: 0 <= k < SLOTS ==> Linked(s, k, chains[k]))
  }

  /** No offset occurs twice, on one list or on two. */
  ghost predicate Placed(chains: seq<seq<nat>>, slotOf: map<nat, nat>) {
    && |chains| == SLOTS
    && (forall k :: 0 <= k < SLOTS ==> NoDup(chains[k]))
    && (forall k, i :: 0 <= k < SLOTS && 0 <= i < |chains[k]| ==>
          chains[k][i] in slotOf && slotOf[chains[k][i]] == k)
    && (forall off :: off in slotOf ==> slotOf[off] < SLOTS && off in chains[slotOf[off]])
  }

  /** Every record lies exactly once on exactly one list, except the loose ones, which lie on none. */
  ghost predicate Filed(s: Shape, l: Lists, loose: set<nat>) {
    && Threaded(s, l.chains)
    && Placed(l.chains, l.slotOf)
    && l.slotOf.Keys == s.recs.Keys - loose
    && loose <= s.recs.Keys
    && (forall off :: off in s.recs ==> off >= REC_START)
  }

  lemma CellLeadsTo(s: Shape, l: Lists, loose: set<nat>, k: nat, i: nat)
    requires Filed(s, l, loose) && k < SLOTS && i <= |l.chains[k]|
    ensures var o := CellOf(k, l.chains[k], i);
      IsCell(s, o) && Cell(s, o) == At(l.chains[k], i)
  {
    var c := l.chains[k];
    assert Linked(s, k, c);
    if i == 0 {
      assert PTR_SZ * k !in s.recs;
    } else {
      assert LinkAt(s.recs, c, i - 1);
    }
  }

  // ----- taking a record off its list

  lemma StillIn(c: seq<nat>, i: nat, x: nat)
    requires i < |c| && x in c && x != c[i]
    ensures x in Without(c, i)
  {
    var j :| 0 <= j < |c| && c[j] == x;
    var r := Without(c, i);
    if j < i {
      assert r[j] == x;
    } else {
      assert r[j - 1] == x;
    }
  }

  lemma UnlinkPlaced(chains: seq<seq<nat>>, slotOf: map<nat, nat>, k: nat, i: nat)
    requires Placed(chains, slotOf) && k < SLOTS && i < |chains[k]|
    ensures Placed(chains[k := Without(chains[k], i)], slotOf - {chains[k][i]})
  {
    var c := chains[k];
    var chains', slotOf' := chains[k := Without(c, i)], slotOf - {c[i]};
    assert NoDup(c);
    assert NoDup(chains'[k]);
    forall j, n | 0 <= j < SLOTS && 0 <= n < |chains'[j]|
      ensures chains'[j][n] in slotOf' && slotOf'[chains'[j][n]] == j
    {
      if j == k {
        var n' := if n < i then n else n + 1;
        assert chains'[k][n] == c[n'];
      } else {
        assert chains[j][n] in slotOf;
      }
    }
    forall off | off in slotOf' ensures slotOf'[off] < SLOTS && off in chains'[slotOf'[off]] {
      if slotOf[off] == k {
        StillIn(c, i, off);
      }
    }
  }

  lemma OtherListsKept(s: Shape, l: Lists, loose: set<nat>, k: nat, i: nat, v: nat, j: nat)
    requires Filed(s, l, loose) && k < SLOTS && i <= |l.chains[k]| && j < SLOTS && j != k
    requires IsCell(s, CellOf(k, l.chains[k], i))
    ensures Linked(SetCell(s, CellOf(k, l.chains[k], i), v), j, l.chains[j])
  {
    var d := l.chains[j];
    var o: nat := CellOf(k, l.chains[k], i);
    assert Linked(s, j, d);
    var s' := SetCell(s, o, v);
    assert i > 0 ==> l.slotOf[o] == k;
    assert i == 0 ==> o !in s.recs && o / PTR_SZ == k;
    forall n: nat | n < |d| ensures LinkAt(s'.recs, d, n) {
      assert LinkAt(s.recs, d, n);
      assert l.slotOf[d[n]] == j;
    }
  }

  lemma UnlinkFirst(s: Shape, k: nat, c: seq<nat>)
    requires Linked(s, k, c) && |c| > 0
    ensures Linked(s.(heads := s.heads[k := At(c, 1)]), k, Without(c, 0))
  {
    var c' := Without(c, 0);
    forall n: nat | n < |c'| ensures LinkAt(s.recs, c', n) {
      assert LinkAt(s.recs, c, n + 1);
    }
  }

  lemma UnlinkLater(s: Shape, k: nat, c: seq<nat>, i: nat)
    requires Linked(s, k, c) && NoDup(c) && 0 < i < |c| && c[i - 1] in s.recs
    ensures Linked(s.(recs := s.recs[c[i - 1] := s.recs[c[i - 1]].(next := At(c, i + 1))]), k, Without(c, i))
  {
    var o := c[i - 1];
    var recs' := s.recs[o := s.recs[o].(next := At(c, i + 1))];
    var c' := Without(c, i);
    forall n: nat | n < |c'| ensures LinkAt(recs', c', n) {
      var m := if n < i then n else n + 1;
      assert LinkAt(s.recs, c, m);
      assert c[m] == o <==> m == i - 1;
    }
  }

  /** Redirecting the cell before a record takes it off its list. */
  lemma {:induction false} Unlink(s: Shape, l: Lists, loose: set<nat>, k: nat, i: nat)
    requires Filed(s, l, loose) && k < SLOTS && i < |l.chains[k]|
    ensures var c := l.chains[k];
      IsCell(s, CellOf(k, c, i)) &&
      Filed(SetCell(s, CellOf(k, c, i), At(c, i + 1)),
            l.(chains := l.chains[k := Without(c, i)], slotOf := l.slotOf - {c[i]}),
            loose + {c[i]})
  {
    hide Linked, NoDup;
    CellLeadsTo(s, l, loose, k, i);
    var c := l.chains[k];
    var s' := SetCell(s, CellOf(k, c, i), At(c, i + 1));
    var l' := l.(chains := l.chains[k := Without(c, i)], slotOf := l.slotOf - {c[i]});
    assert Placed(l'.chains, l'.slotOf) by { UnlinkPlaced(l.chains, l.slotOf, k, i); }
    assert Threaded(s', l'.chains) by { UnlinkThreaded(s, l, loose, k, i); }
    assert s'.recs.Keys == s.recs.Keys;
    assert c[i] in l.slotOf.Keys;
    assert l'.slotOf.Keys == l.slotOf.Keys - {c[i]} == s.recs.Keys - (loose + {c[i]});
  }

  lemma UnlinkThreaded(s: Shape, l: Lists, loose: set<nat>, k: nat, i: nat)
    requires Filed(s, l, loose) && k < SLOTS && i < |l.chains[k]|
    requires IsCell(s, CellOf(k, l.chains[k], i))
    ensures Threaded(SetCell(s, CellOf(k, l.chains[k], i), At(l.chains[k], i + 1)),
                     l.chains[k := Without(l.chains[k], i)])
  {
    var c := l.chains[k];
    var s' := SetCell(s, CellOf(k, c, i), At(c, i + 1));
    var chains' := l.chains[k := Without(c, i)];
    forall j | 0 <= j < SLOTS ensures Linked(s', j, chains'[j]) {
      if j != k {
        OtherListsKept(s, l, loose, k, i, At(c, i + 1), j);
      } else if i == 0 {
        assert PTR_SZ * k !in s.recs;
        UnlinkFirst(s, k, c);
      } else {
        assert Linked(s, k, c) && NoDup(c) && LinkAt(s.recs, c, i - 1);
        UnlinkLater(s, k, c, i);
      }
    }
  }

  // ----- putting a record on a list

  lemma PushPlaced(chains: seq<seq<nat>>, slotOf: map<nat, nat>, k: nat, off: nat)
    requires Placed(chains, slotOf) && k < SLOTS && off !in slotOf
    ensures Placed(chains[k := [off] + chains[k]], slotOf[off := k])
  {
    var c := chains[k];
    var c' := [off] + c;
    var chains', slotOf' := chains[k := c'], slotOf[off := k];
    assert NoDup(c);
    assert forall i :: 0 <= i < |c| ==> c[i] in slotOf;
    assert NoDup(c');
    forall j, n | 0 <= j < SLOTS && 0 <= n < |chains'[j]|
      ensures chains'[j][n] in slotOf' && slotOf'[chains'[j][n]] == j
    {
      if j != k {
        assert chains[j][n] in slotOf;
      } else if n > 0 {
        assert c'[n] == c[n - 1];
      }
    }
    forall o | o in slotOf' ensures slotOf'[o] < SLOTS && o in chains'[slotOf'[o]] {
      if o == off {
        assert c'[0] == off;
      } else if slotOf[o] == k {
        assert o in c;
      }
    }
  }

  /** A loose record that points at the first record of list k becomes its first. */
  lemma {:induction false} Push(s: Shape, l: Lists, loose: set<nat>, k: nat, off: nat)
    requires Filed(s, l, loose) && k < SLOTS && off in loose && s.recs[off].next == s.heads[k]
    ensures Filed(s.(heads := s.heads[k := off]),
                  l.(chains := l.chains[k := [off] + l.chains[k]], slotOf := l.slotOf[off := k]),
                  loose - {off})
  {
    PushPlaced(l.chains, l.slotOf, k, off);
    var s' := s.(heads := s.heads[k := off]);
    var c := l.chains[k];
    var c' := [off] + c;
    var chains' := l.chains[k := c'];
    forall j | 0 <= j < SLOTS ensures Linked(s', j, chains'[j]) {
      assert Linked(s, j, l.chains[j]);
      if j == k {
        forall n: nat | n < |c'| ensures LinkAt(s'.recs, c', n) {
          assert n > 0 ==> LinkAt(s.recs, c, n - 1);
        }
      }
    }
  }

  /** Writing over a loose record, or bringing in a new one, disturbs no list. */
  lemma {:induction false} SetLoose(s: Shape, l: Lists, loose: set<nat>, off: nat, r: IdxRec)
    requires Filed(s, l, loose) && off >= REC_START && (off in loose || off !in s.recs)
    ensures Filed(s.(recs := s.recs[off := r]), l, loose + {off})
  {
    var s' := s.(recs := s.recs[off := r]);
    forall k | 0 <= k < SLOTS ensures Linked(s', k, l.chains[k]) {
      var c := l.chains[k];
      assert Linked(s, k, c);
      forall n: nat | n < |c| ensures LinkAt(s'.recs, c, n) {
        assert LinkAt(s.recs, c, n);
        assert c[n] in l.slotOf;
      }
    }
  }
}
