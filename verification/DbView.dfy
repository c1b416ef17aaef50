/** The key/data map that the filed records and the data file represent. */
module DbView {
  import opened DbText
  import opened DbLayout
  import opened DbChains

  /** A C `char` is signed: bytes from 128 up count as negative. */
  function SignedChar(c: char): int {
    var b := c as int % 256;
    if b < 128 then b else b - 256
  }

  const WORD: int := 0x1_0000_0000_0000_0000

  /** The running hash of key[i..], in 64-bit unsigned arithmetic. */
  function HashFrom(key: string, i: nat, h: nat): nat
    requires i <= |key|
    decreases |key| - i
  {
    if i == |key| then h
    else HashFrom(key, i + 1, (h + SignedChar(key[i]) * (i + 1)) % WORD)
  }

  function Hash(key: string): (h: nat)
    ensures h < NHASH
  {
    HashFrom(key, 0, 0) % NHASH
  }

  /** Each byte, as a signed number, times its place from 1 on. */
  function WeightedSum(key: string, n: nat): int
    requires n <= |key|
  {
    if n == 0 then 0
    else
      var b := key[n - 1] as int % 256;
      WeightedSum(key, n - 1) + n * (if b < 128 then b else b - 256)
  }

  /** The hash is that sum in 64 bits, modulo the size of the table. */
  lemma {:induction false} HashIs(key: string)
    ensures Hash(key) == WeightedSum(key, |key|) % WORD % 137
  {
    HashFromIs(key, 0);
  }

  lemma {:induction false} HashFromIs(key: string, i: nat)
    requires i <= |key|
    ensures HashFrom(key, i, WeightedSum(key, i) % WORD) == WeightedSum(key, |key|) % WORD
    decreases |key| - i
  {
    if i < |key| {
      var x := SignedChar(key[i]) * (i + 1);
      assert WeightedSum(key, i + 1) == WeightedSum(key, i) + x;
      SumWraps(WeightedSum(key, i), x);
      HashFromIs(key, i + 1);
    }
  }

  lemma SumWraps(a: int, b: int)
    ensures (a % WORD + b) % WORD == (a + b) % WORD
  {
    assert a + b == a / WORD * WORD + (a % WORD + b);
  }

  /** For the keys of an index that are plain ASCII nothing wraps. */
  lemma {:induction false} AsciiHash(key: string, n: nat)
    requires n <= |key| <= IDXLEN_MAX && forall i :: 0 <= i < |key| ==> key[i] as int < 128
    ensures 0 <= WeightedSum(key, n) <= n * 131072
    ensures n == |key| ==> Hash(key) == WeightedSum(key, n) % 137
  {
    if n > 0 {
      AsciiHash(key, n - 1);
      assert n * key[n - 1] as int <= 1024 * 128 by {
        SmallProduct(n, key[n - 1] as int);
      }
    }
    HashIs(key);
  }

  lemma SmallProduct(a: nat, b: nat)
    requires a <= 1024 && b <= 128
    ensures 0 <= a * b <= 1024 * 128
  {
    assert a * b <= 1024 * b;
  }

  predicate AllBlank(key: string) { forall i :: 0 <= i < |key| ==> key[i] == ' ' }

  /** The records without their chain pointers. */
  function Info(recs: map<nat, IdxRec>): (r: map<nat, IdxRec>)
    ensures r.Keys == recs.Keys
  {
    map off | off in recs :: recs[off].(next := 0)
  }

  /** The data regions of the records lie in the data file and do not overlap. */
  ghost predicate Regions(info: map<nat, IdxRec>, n: nat) {
    && (forall a :: a in info ==> info[a].datoff + info[a].datlen <= n)
    && (forall a, b :: a in info && b in info && a != b ==> Disjoint(info[a], info[b]))
  }

  predicate Disjoint(a: IdxRec, b: IdxRec) {
    a.datoff + a.datlen <= b.datoff || b.datoff + b.datlen <= a.datoff
  }

  function DataOf(r: IdxRec, dat: string): string {
    if r.datoff + r.datlen <= |dat| then dat[r.datoff..r.datoff + r.datlen] else []
  }

  /** Record `off` holds key k with its data, newline-terminated, on the chain of k's hash. */
  ghost predicate Holds(info: map<nat, IdxRec>, slotOf: map<nat, nat>, dat: string, k: string, off: nat, data: string) {
    && off in info && off in slotOf
    && slotOf[off] == 1 + Hash(k)
    && info[off].key == k
    && DataOf(info[off], dat) == data + "\n"
  }

  ghost predicate Mapped(info: map<nat, IdxRec>, l: Lists, dat: string, m: map<string, string>) {
    && l.slotOf.Keys <= info.Keys
    && l.where.Keys == m.Keys
    && (forall off :: off in l.slotOf && l.slotOf[off] != 0 ==>
          info[off].key in l.where && l.where[info[off].key] == off)
    && (forall off :: off in l.slotOf && l.slotOf[off] == 0 ==> AllBlank(info[off].key))
    && (forall k :: k in m ==> Holds(info, l.slotOf, dat, k, l.where[k], m[k]))
  }

  /** The data file changed at most inside the region of `off`. */
  ghost predicate SameElsewhere(info: map<nat, IdxRec>, off: nat, dat: string, dat': string) {
    forall o :: o in info && o != off ==> DataOf(info[o], dat') == DataOf(info[o], dat)
  }

  lemma InfoOfSetCell(s: Shape, o: nat, v: nat)
    ensures Info(SetCell(s, o, v).recs) == Info(s.recs)
  {
  }

  lemma {:induction false} MapRemove(info: map<nat, IdxRec>, l: Lists, dat: string, m: map<string, string>,
                   k: string, blank: string, dat': string)
    requires Mapped(info, l, dat, m) && k in m && AllBlank(blank)
    requires SameElsewhere(info, l.where[k], dat, dat')
    ensures var off := l.where[k];
      Mapped(info[off := info[off].(key := blank)],
             l.(slotOf := l.slotOf[off := 0], where := l.where - {k}), dat', m - {k})
  {
    var off := l.where[k];
    assert Holds(info, l.slotOf, dat, k, off, m[k]);
    var info' := info[off := info[off].(key := blank)];
    var slotOf', where', m' := l.slotOf[off := 0], l.where - {k}, m - {k};
    forall k' | k' in m' ensures Holds(info', slotOf', dat', k', where'[k'], m'[k']) {
      assert Holds(info, l.slotOf, dat, k', l.where[k'], m[k']);
      assert l.where[k'] != off;
    }
    forall o | o in slotOf' && slotOf'[o] != 0 ensures info'[o].key in where' && where'[info'[o].key] == o {
      assert o != off && info[o].key in l.where;
    }
    forall o | o in slotOf' && slotOf'[o] == 0 ensures AllBlank(info'[o].key) {
      assert o == off || AllBlank(info[o].key);
    }
    assert where'.Keys == m'.Keys;
  }

  lemma {:induction false} MapAdd(info: map<nat, IdxRec>, l: Lists, dat: string, m: map<string, string>,
                k: string, data: string, off: nat, r: IdxRec, dat': string)
    requires Mapped(info, l, dat, m) && k !in m && off !in l.slotOf
    requires r.key == k && DataOf(r, dat') == data + "\n"
    requires SameElsewhere(info, off, dat, dat')
    ensures Mapped(info[off := r], l.(slotOf := l.slotOf[off := 1 + Hash(k)], where := l.where[k := off]),
                   dat', m[k := data])
  {
    var info', slotOf' := info[off := r], l.slotOf[off := 1 + Hash(k)];
    var where', m' := l.where[k := off], m[k := data];
    forall k' | k' in m' ensures Holds(info', slotOf', dat', k', where'[k'], m'[k']) {
      if k' != k {
        assert Holds(info, l.slotOf, dat, k', l.where[k'], m[k']);
      }
    }
    forall o | o in slotOf' && slotOf'[o] != 0 ensures info'[o].key in where' && where'[info'[o].key] == o {
      if o != off {
        assert info[o].key in l.where;
      }
    }
  }

  lemma {:induction false} MapReplace(info: map<nat, IdxRec>, l: Lists, dat: string, m: map<string, string>,
                    k: string, data: string, dat': string)
    requires Mapped(info, l, dat, m) && k in m
    requires DataOf(info[l.where[k]], dat') == data + "\n"
    requires SameElsewhere(info, l.where[k], dat, dat')
    ensures Mapped(info, l, dat', m[k := data])
  {
    var m' := m[k := data];
    forall k' | k' in m' ensures Holds(info, l.slotOf, dat', k', l.where[k'], m'[k']) {
      assert Holds(info, l.slotOf, dat, k', l.where[k'], m[k']);
      assert Holds(info, l.slotOf, dat, k, l.where[k], m[k]);
    }
  }

  /** Taking a record off the free list, with or without writing its data region. */
  lemma {:induction false} MapTakeFree(info: map<nat, IdxRec>, l: Lists, dat: string, m: map<string, string>, off: nat)
    requires Mapped(info, l, dat, m) && off in l.slotOf && l.slotOf[off] == 0
    ensures Mapped(info, l.(slotOf := l.slotOf - {off}), dat, m)
  {
    forall k | k in m ensures Holds(info, l.slotOf - {off}, dat, k, l.where[k], m[k]) {
      assert Holds(info, l.slotOf, dat, k, l.where[k], m[k]);
    }
  }

  // ----- writes to the data file

  lemma {:induction false} OverwriteData(info: map<nat, IdxRec>, off: nat, dat: string, t: string)
    requires Regions(info, |dat|) && off in info && |t| == info[off].datlen
    ensures info[off].datoff + |t| <= |dat|
    ensures DataOf(info[off], WriteAt(dat, info[off].datoff, t)) == t
    ensures SameElsewhere(info, off, dat, WriteAt(dat, info[off].datoff, t))
  {
    var dat' := WriteAt(dat, info[off].datoff, t);
    forall o | o in info && o != off ensures DataOf(info[o], dat') == DataOf(info[o], dat) {
      assert Disjoint(info[o], info[off]);
      WriteFrame(dat, info[off].datoff, t, info[o].datoff, info[o].datoff + info[o].datlen);
    }
  }

  lemma {:induction false} AppendData(info: map<nat, IdxRec>, off: nat, r: IdxRec, dat: string, t: string)
    requires Regions(info, |dat|) && off !in info && r.datoff == |dat| && r.datlen == |t|
    ensures DataOf(r, dat + t) == t
    ensures SameElsewhere(info, off, dat, dat + t)
    ensures Regions(info[off := r], |dat + t|)
  {
    forall o | o in info ensures DataOf(info[o], dat + t) == DataOf(info[o], dat) {
      var a, b := info[o].datoff, info[o].datoff + info[o].datlen;
      assert (dat + t)[a..b] == dat[a..b];
    }
  }

  lemma SameRegions(info: map<nat, IdxRec>, off: nat, r: IdxRec, n: nat)
    requires Regions(info, n) && off in info && r.datoff == info[off].datoff && r.datlen == info[off].datlen
    ensures Regions(info[off := r], n)
  {
    var info' := info[off := r];
    forall a, b | a in info' && b in info' && a != b ensures Disjoint(info'[a], info'[b]) {
      assert Disjoint(info[a], info[b]);
    }
  }
}
