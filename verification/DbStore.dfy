/**
 * The key/value store itself, for one process: the two files are strings, every
 * operation reads and rewrites them as the library does, and the contracts say
 * what happens to the map from keys to data that the files represent.
 */
module DbStore {
  import opened Options
  import opened DbText
  import opened DbLayout
  import opened DbChains
  import opened DbView
  import opened DbEdits
  import opened DbSpec
  import Numerals

  datatype Whence = SeekSet | SeekEnd

  /** A file pair represents map m, except that the loose records are on no list. */
  ghost predicate Represents(idx: string, dat: string, s: Shape, l: Lists, loose: set<nat>, m: map<string, string>) {
    && Layout(idx, s)
    && Filed(s, l, loose)
    && Regions(Info(s.recs), |dat|)
    && Mapped(Info(s.recs), l, dat, m)
  }

  // ----- walking a list

  lemma CellRead(idx: string, dat: string, s: Shape, l: Lists, loose: set<nat>, m: map<string, string>, k: nat, i: nat)
    requires Represents(idx, dat, s, l, loose, m) && k < SLOTS && i <= |Chain(l, k)|
    ensures |s.heads| == SLOTS && IsCell(s, CellOf(k, Chain(l, k), i))
    ensures Cell(s, CellOf(k, Chain(l, k), i)) == At(Chain(l, k), i)
  {
    hide Layout, Regions, Mapped;
    CellLeadsTo(s, l, loose, k, i);
  }

  lemma OnList(idx: string, dat: string, s: Shape, l: Lists, loose: set<nat>, m: map<string, string>, k: nat, i: nat)
    requires Represents(idx, dat, s, l, loose, m) && k < SLOTS && i < |Chain(l, k)|
    ensures var off := Chain(l, k)[i];
      && off in s.recs && off in l.slotOf && off != 0
      && l.slotOf[off] == k
      && RecIn(s, off).next == At(Chain(l, k), i + 1)
  {
    hide Layout, Regions, Mapped;
    assert Linked(s, k, l.chains[k]);
    assert LinkAt(s.recs, l.chains[k], i);
  }

  /** The record found on the chain of its key's hash is that key's record. */
  lemma FoundRecord(idx: string, dat: string, s: Shape, l: Lists, m: map<string, string>, key: string, off: nat)
    requires Represents(idx, dat, s, l, {}, m)
    requires off in s.recs && off in l.slotOf && l.slotOf[off] == 1 + Hash(key) && RecIn(s, off).key == key
    ensures key in m && key in l.where && l.where[key] == off
    ensures DataOf(RecIn(s, off), dat) == m[key] + "\n"
  {
    hide Layout, Filed, Regions;
    assert Info(s.recs)[off].key == key;
    assert Holds(Info(s.recs), l.slotOf, dat, key, l.where[key], m[key]);
  }

  lemma KeyOnChain(idx: string, dat: string, s: Shape, l: Lists, m: map<string, string>, key: string, c: seq<nat>)
    requires Represents(idx, dat, s, l, {}, m) && c == Chain(l, 1 + Hash(key)) && key in m
    ensures exists j :: 0 <= j < |c| && RecIn(s, c[j]).key == key
  {
    hide Layout, Regions, Threaded, NoDup, Hash;
    var off := l.where[key];
    assert Holds(Info(s.recs), l.slotOf, dat, key, off, m[key]);
    assert off in c && RecIn(s, off).key == key;
  }

  lemma DeletedInfo(s: Shape, off: nat, cell: nat, blank: string)
    requires off in s.recs
    ensures Info(DeletedShape(s, off, cell, blank).recs) == Info(s.recs)[off := Info(s.recs)[off].(key := blank)]
  {
    var r := s.recs[off];
    var s1 := s.(recs := s.recs[off := IdxRec(Cell(s, 0), blank, r.datoff, r.datlen)]);
    InfoOfSetCell(s1, 0, off);
    InfoOfSetCell(SetCell(s1, 0, off), cell, r.next);
  }

  /** Everything about a deletion but the text of the index file. */
  lemma {:induction false} DeleteEffect(idx: string, dat: string, s: Shape, l: Lists, m: map<string, string>,
                                        key: string, i: nat, off: nat, blank: string, wiped: string)
    requires Represents(idx, dat, s, l, {}, m) && key in m && key in l.where && off == l.where[key]
    requires i < |Chain(l, 1 + Hash(key))| && Chain(l, 1 + Hash(key))[i] == off
    requires AllBlank(blank) && |wiped| == RecIn(s, off).datlen
    ensures var k := 1 + Hash(key);
      var s', l' := DeletedShape(s, off, CellOf(k, Chain(l, k), i), blank), DeletedLists(l, k, i, off, key);
      var dat' := WriteAt(dat, RecIn(s, off).datoff, wiped);
      && Filed(s', l', {}) && Regions(Info(s'.recs), |dat'|) && Mapped(Info(s'.recs), l', dat', m - {key})
  {
    var k := 1 + Hash(key);
    var cell := CellOf(k, Chain(l, k), i);
    hide Hash, Filed, Regions, Mapped, DeletedShape, WriteAt;
    DeleteCells(s, l, {}, k, i);
    DeleteFiled(s, l, {}, k, i, off, blank, key);
    DeletedInfo(s, off, cell, blank);
    OverwriteData(Info(s.recs), off, dat, wiped);
    var dat' := WriteAt(dat, s.recs[off].datoff, wiped);
    MapRemove(Info(s.recs), l, dat, m, key, blank, dat');
    SameRegions(Info(s.recs), off, Info(s.recs)[off].(key := blank), |dat|);
    MappedIgnoresChains(Info(DeletedShape(s, off, cell, blank).recs),
      l.(slotOf := l.slotOf[off := 0], where := l.where - {key}), DeletedLists(l, k, i, off, key), dat', m - {key});
  }

  lemma MappedIgnoresChains(info: map<nat, IdxRec>, l: Lists, l': Lists, dat: string, m: map<string, string>)
    requires Mapped(info, l, dat, m) && l'.slotOf == l.slotOf && l'.where == l.where
    ensures Mapped(info, l', dat, m)
  {
  }

  /** Everything about an insertion but the text of the index file. */
  lemma {:induction false} InsertEffect(idx: string, dat: string, s: Shape, l: Lists, loose: set<nat>,
      m: map<string, string>,
                                        key: string, data: string, off: nat, r: IdxRec, dat': string)
    requires Represents(idx, dat, s, l, loose, m) && key !in m
    requires loose <= {off} && (off in loose || off !in s.recs) && off >= REC_START
    requires r.key == key && r.next == Cell(s, PTR_SZ * (1 + Hash(key))) && r.datlen == |data| + 1
    requires off in s.recs ==>
      r.datoff == RecIn(s, off).datoff && r.datlen == RecIn(s, off).datlen &&
        dat' == WriteAt(dat, r.datoff, data + "\n")
    requires off !in s.recs ==> r.datoff == |dat| && dat' == dat + (data + "\n")
    ensures var s', l' := InsertedShape(s, 1 + Hash(key), off, r), InsertedLists(l, 1 + Hash(key), off, key);
      && Filed(s', l', {}) && Regions(Info(s'.recs), |dat'|) && Mapped(Info(s'.recs), l', dat', m[key := data])
  {
    var k := 1 + Hash(key);
    hide Hash, Layout, Regions, Mapped, WriteAt, SetCell;
    NotFiled(s, l, loose, off);
    assert |l.chains| == SLOTS;
    InsertFiled(s, l, loose, k, off, r, key);
    assert loose - {off} == {};
    hide Filed;
    var info, r0 := Info(s.recs), r.(next := 0);
    var s1 := s.(recs := s.recs[off := r]);
    assert Info(s1.recs) == info[off := r0];
    InfoOfSetCell(s1, PTR_SZ * k, off);
    if off in s.recs {
      OverwriteData(info, off, dat, data + "\n");
      SameRegions(info, off, r0, |dat|);
    } else {
      AppendData(info, off, r0, dat, data + "\n");
    }
    MapAdd(info, l, dat, m, key, data, off, r0, dat');
    MappedIgnoresChains(info[off := r0], l.(slotOf := l.slotOf[off := k], where := l.where[key := off]),
      InsertedLists(l, k, off, key), dat', m[key := data]);
  }

  /** Facts about one record that the writers of a deletion or a reuse rely on. */
  lemma InPlace(idx: string, s: Shape, off: nat, key: string, next: nat)
    requires Layout(idx, s) && off in s.recs && |key| == |s.recs[off].key| && next <= PTR_MAX
    ensures var r := IdxRec(next, key, s.recs[off].datoff, s.recs[off].datlen);
      RecSize(r) == RecSize(s.recs[off]) && Writable(r) && 1 <= r.datlen <= DATLEN_MAX
    ensures REC_START <= off <= PTR_MAX
  {
    ReadsBack(idx, s, off);
    SameSize(s.recs[off], IdxRec(next, key, s.recs[off].datoff, s.recs[off].datlen));
  }

  lemma CellBound(idx: string, s: Shape, o: nat)
    requires Layout(idx, s) && IsCell(s, o)
    ensures Cell(s, o) <= PTR_MAX
  {
    hide RecSize;
    if o in s.recs {
      ReadsBack(idx, s, o);
    } else {
      assert HeadAt(idx, o / PTR_SZ, s.heads[o / PTR_SZ]);
    }
  }

  lemma HeaderCell(s: Shape, k: nat)
    requires k < SLOTS
    ensures IsCell(s, PTR_SZ * k)
  {
  }

  lemma ShapeFacts(idx: string, dat: string, s: Shape, l: Lists, loose: set<nat>, m: map<string, string>)
    requires Represents(idx, dat, s, l, loose, m)
    ensures |s.heads| == SLOTS == |l.chains|
    ensures forall off :: off in s.recs ==> off >= REC_START
    ensures l.where.Keys == m.Keys
  {
  }

  /** Everything about taking a record off the free list but the text of the index file. */
  lemma {:induction false} TakeFreeEffect(idx: string, dat: string, s: Shape, l: Lists, m: map<string, string>, i: nat)
    requires Represents(idx, dat, s, l, {}, m) && i < |Chain(l, 0)|
    ensures Layout(idx, s) && |s.heads| == SLOTS
    ensures var off, cell := Chain(l, 0)[i], CellOf(0, Chain(l, 0), i);
      var s', l' := SetCell(s, cell, RecIn(s, off).next), TakenLists(l, i);
      && off in s.recs && off in s'.recs && IsCell(s, cell) && RecIn(s, off).next <= PTR_MAX
      && RecIn(s', off) == RecIn(s, off)
      && (forall k: nat :: 1 <= k < SLOTS ==> Cell(s', PTR_SZ * k) == Cell(s, PTR_SZ * k))
      && forall idx' :: Layout(idx', s') ==> Represents(idx', dat, s', l', {off}, m)
  {
    var c := Chain(l, 0);
    var off, cell := c[i], CellOf(0, c, i);
    hide Layout, Filed, Regions, Mapped;
    ShapeFacts(idx, dat, s, l, {}, m);
    OnList(idx, dat, s, l, {}, m, 0, i);
    CellRead(idx, dat, s, l, {}, m, 0, i);
    CellBound(idx, s, off);
    TakeFreeOnly(s, l, i);
    MapTakeFree(Info(s.recs), l, dat, m, off);
    InfoOfSetCell(s, cell, RecIn(s, off).next);
    HeadersApart(s, cell, RecIn(s, off).next);
    hide SetCell;
    MappedIgnoresChains(Info(s.recs), l.(slotOf := l.slotOf - {off}), TakenLists(l, i), dat, m);
  }

  lemma TakeFreeOnly(s: Shape, l: Lists, i: nat)
    requires Filed(s, l, {}) && i < |Chain(l, 0)|
    ensures var c := Chain(l, 0);
      && c[i] in s.recs && CellOf(0, c, i) != c[i]
      && (CellOf(0, c, i) in s.recs || CellOf(0, c, i) == 0)
      && var s' := SetCell(s, CellOf(0, c, i), RecIn(s, c[i]).next);
      c[i] in s'.recs && RecIn(s', c[i]) == RecIn(s, c[i]) && Filed(s', TakenLists(l, i), {c[i]})
  {
    hide Filed, SetCell, TakenLists;
    TakeFreeFiled(s, l, {}, i);
    assert {} + {Chain(l, 0)[i]} == {Chain(l, 0)[i]};
  }

  /** What each write of an insertion needs, and what they add up to. */
  lemma {:induction false} InsertReady(idx: string, dat: string, s: Shape, l: Lists, loose: set<nat>,
      m: map<string, string>,
                                       key: string, data: string, off: nat, head: nat)
    requires Represents(idx, dat, s, l, loose, m) && key !in m && SEP !in key
    requires off in s.recs ==> loose == {off} && Fits(s, off, |key|, |data| + 1)
    requires off !in s.recs ==> loose == {} && off == |idx|
    requires head == Cell(s, PTR_SZ * (1 + Hash(key)))
    ensures Layout(idx, s) && |s.heads| == SLOTS && IsCell(s, PTR_SZ * (1 + Hash(key))) && head <= PTR_MAX
    ensures off in s.recs ==>
      && off <= PTR_MAX && RecIn(s, off).datoff + RecIn(s, off).datlen <= |dat|
      && var r := IdxRec(head, key, RecIn(s, off).datoff, RecIn(s, off).datlen);
      RecSize(r) == RecSize(s.recs[off]) && Writable(r)
    ensures var datoff := if off in s.recs then RecIn(s, off).datoff else |dat|;
      var dat' := if off in s.recs then WriteAt(dat, datoff, data + "\n") else dat + (data + "\n");
      var r, k := IdxRec(head, key, datoff, |data| + 1), 1 + Hash(key);
      && IsCell(s.(recs := s.recs[off := r]), PTR_SZ * k)
      && forall idx' :: Layout(idx', InsertedShape(s, k, off, r)) ==>
           Represents(idx', dat', InsertedShape(s, k, off, r), InsertedLists(l, k, off, key), {}, m[key := data])
  {
    var k := 1 + Hash(key);
    hide Hash, Filed, Regions, Mapped, RecSize, Writable, WriteAt, RecordsAt, Apart, Contiguous;
    ShapeFacts(idx, dat, s, l, loose, m);
    HeaderCell(s, k);
    hide Layout;
    CellBound(idx, s, PTR_SZ * k);
    if off in s.recs {
      InPlace(idx, s, off, key, head);
      InRegion(s, dat, off);
      assert off in s.recs && loose == {off};
      var r := IdxRec(head, key, RecIn(s, off).datoff, |data| + 1);
      InsertEffect(idx, dat, s, l, loose, m, key, data, off, r, WriteAt(dat, r.datoff, data + "\n"));
    } else {
      EndIsPastHeader(idx, s);
      InsertEffect(idx, dat, s, l, loose, m, key, data, off, IdxRec(head, key, |dat|, |data| + 1), dat + (data + "\n"));
    }
  }

  lemma EndIsPastHeader(idx: string, s: Shape)
    requires Layout(idx, s)
    ensures |idx| >= REC_START
  {
  }

  lemma ReplaceEffect(idx: string, dat: string, s: Shape, l: Lists, m: map<string, string>, key: string, data: string)
    requires Represents(idx, dat, s, l, {}, m) && key in m && key in l.where && l.where[key] in s.recs
    requires |data| + 1 == RecIn(s, l.where[key]).datlen
    ensures var r := RecIn(s, l.where[key]);
      && r.datoff + r.datlen <= |dat|
      && Represents(idx, WriteAt(dat, r.datoff, data + "\n"), s, l, {}, m[key := data])
  {
    hide Layout, Filed, Mapped, WriteAt;
    var off := l.where[key];
    OverwriteData(Info(s.recs), off, dat, data + "\n");
    MapReplace(Info(s.recs), l, dat, m, key, data, WriteAt(dat, RecIn(s, off).datoff, data + "\n"));
  }

  lemma EndFresh(idx: string, s: Shape)
    requires Layout(idx, s)
    ensures |idx| !in s.recs
  {
  }

  // ----- the sequential scan

  /** Record boundaries in the index file, its end included. */
  ghost predicate Boundary(idx: string, s: Shape, pos: nat) {
    pos == |idx| || pos in s.recs
  }

  lemma NextBoundary(idx: string, s: Shape, pos: nat)
    requires Layout(idx, s) && pos in s.recs
    ensures Boundary(idx, s, pos + RecSize(s.recs[pos]))
    ensures pos < pos + RecSize(s.recs[pos]) <= |idx|
    ensures forall o :: o in s.recs && pos < o ==> pos + RecSize(s.recs[pos]) <= o
  {
    hide BodyText;
  }

  lemma FirstBoundary(idx: string, s: Shape)
    requires Layout(idx, s)
    ensures Boundary(idx, s, REC_START) && forall o :: o in s.recs ==> o >= REC_START && o < |idx|
  {
    hide BodyText;
  }

  /** A record whose key is not blank is a stored pair. */
  lemma NonblankIsLive(idx: string, dat: string, s: Shape, l: Lists, m: map<string, string>, off: nat)
    requires Represents(idx, dat, s, l, {}, m) && off in s.recs && !AllBlank(RecIn(s, off).key)
    ensures var k := RecIn(s, off).key;
      && k in m && k in l.where && l.where[k] == off && DataOf(RecIn(s, off), dat) == m[k] + "\n"
  {
    hide Layout, Regions, Threaded, Placed, Hash;
    assert off in l.slotOf.Keys;
    assert Info(s.recs)[off].key == RecIn(s, off).key;
    assert Holds(Info(s.recs), l.slotOf, dat, RecIn(s, off).key, off, m[RecIn(s, off).key]);
  }

  lemma StoredIsFiled(idx: string, dat: string, s: Shape, l: Lists, m: map<string, string>, k: string)
    requires Represents(idx, dat, s, l, {}, m) && k in m
    ensures k in l.where && l.where[k] in s.recs && RecIn(s, l.where[k]).key == k
  {
    hide Layout, Filed, Regions, Hash;
    assert Holds(Info(s.recs), l.slotOf, dat, k, l.where[k], m[k]);
  }

  predicate ListedAt(l: Lists, off: nat, k: nat, i: nat) { k < SLOTS && i < |Chain(l, k)| && Chain(l, k)[i] == off }

  /**
   * Every record of the file is on one list, once: the free list if its key is
   * blanked out, else the chain of its key's hash, where it is that key's record.
   */
  lemma {:induction false} OneListEach(idx: string, dat: string, s: Shape, l: Lists, m: map<string, string>, off: nat)
    requires Represents(idx, dat, s, l, {}, m) && off in s.recs
    ensures exists k: nat, i: nat :: ListedAt(l, off, k, i)
    ensures forall k: nat, i: nat, k': nat, i': nat :: ListedAt(l, off, k, i) && ListedAt(l, off, k', i') ==>
      k == k' && i == i'
    ensures forall k: nat, i: nat :: ListedAt(l, off, k, i) && k == 0 ==> AllBlank(RecIn(s, off).key)
    ensures forall k: nat, i: nat :: ListedAt(l, off, k, i) && k != 0 ==>
      k == 1 + Hash(RecIn(s, off).key) && RecIn(s, off).key in m && RecIn(s, off).key in l.where &&
        l.where[RecIn(s, off).key] == off
  {
    hide Represents, Filed, Mapped, Hash, AllBlank;
    var k, i := OnOneList(idx, dat, s, l, m, off);
    KeyOfList(idx, dat, s, l, m, off);
  }

  lemma {:induction false} OnOneList(idx: string, dat: string, s: Shape, l: Lists, m: map<string, string>, off: nat)
      returns (k: nat, i: nat)
    requires Represents(idx, dat, s, l, {}, m) && off in s.recs
    ensures off in l.slotOf && l.slotOf[off] == k && ListedAt(l, off, k, i)
    ensures forall k': nat, i': nat :: ListedAt(l, off, k', i') ==> k' == k && i' == i
  {
    hide Layout, Regions, Threaded, Mapped;
    k := l.slotOf[off];
    assert off in l.chains[k];
    i :| 0 <= i < |l.chains[k]| && l.chains[k][i] == off;
    forall k': nat, i': nat | ListedAt(l, off, k', i') ensures k' == k && i' == i {
      assert l.slotOf[l.chains[k'][i']] == k';
      assert NoDup(l.chains[k]);
    }
  }

  lemma {:induction false} KeyOfList(idx: string, dat: string, s: Shape, l: Lists, m: map<string, string>, off: nat)
    requires Represents(idx, dat, s, l, {}, m) && off in s.recs && off in l.slotOf
    ensures l.slotOf[off] == 0 ==> AllBlank(RecIn(s, off).key)
    ensures l.slotOf[off] != 0 ==>
      l.slotOf[off] == 1 + Hash(RecIn(s, off).key) && RecIn(s, off).key in m && RecIn(s, off).key in l.where &&
        l.where[RecIn(s, off).key] == off
  {
    hide Layout, Regions, Filed, Hash, AllBlank;
    assert Info(s.recs)[off].key == RecIn(s, off).key;
    if l.slotOf[off] != 0 {
      var key := RecIn(s, off).key;
      assert Holds(Info(s.recs), l.slotOf, dat, key, off, m[key]);
    }
  }

  /** Some record on the free list has exactly these key and data lengths. */
  ghost predicate FreeFits(s: Shape, l: Lists, keylen: nat, datlen: nat) {
    exists i: nat :: i < |Chain(l, 0)| && Fits(s, Chain(l, 0)[i], keylen, datlen)
  }

  predicate Fits(s: Shape, off: nat, keylen: nat, datlen: nat) {
    |RecIn(s, off).key| == keylen && RecIn(s, off).datlen == datlen
  }

  // ----- the sizes on the free list

  function SizeOf(s: Shape, off: nat): (nat, nat) { (|RecIn(s, off).key|, RecIn(s, off).datlen) }

  function Sizes(s: Shape, c: seq<nat>): (r: seq<(nat, nat)>)
    ensures |r| == |c|
  {
    seq(|c|, i requires 0 <= i < |c| => SizeOf(s, c[i]))
  }

  ghost function FreeSizes(s: Shape, l: Lists): multiset<(nat, nat)> { multiset(Sizes(s, Chain(l, 0))) }

  lemma FitsIff(s: Shape, l: Lists, keylen: nat, datlen: nat)
    ensures FreeFits(s, l, keylen, datlen) <==> (keylen, datlen) in FreeSizes(s, l)
  {
    hide RecIn;
    var c := Chain(l, 0);
    if FreeFits(s, l, keylen, datlen) {
      var i: nat :| i < |c| && Fits(s, c[i], keylen, datlen);
      assert Sizes(s, c)[i] == (keylen, datlen);
    }
    if (keylen, datlen) in Sizes(s, c) {
      var i :| 0 <= i < |c| && Sizes(s, c)[i] == (keylen, datlen);
      assert Fits(s, c[i], keylen, datlen);
    }
  }

  lemma SizesSame(s: Shape, s': Shape, c: seq<nat>)
    requires forall off :: off in c ==> SizeOf(s', off) == SizeOf(s, off)
    ensures Sizes(s', c) == Sizes(s, c)
  {
    hide SizeOf;
  }

  lemma CellSizes(s: Shape, o: nat, v: nat)
    ensures forall off :: SizeOf(SetCell(s, o, v), off) == SizeOf(s, off)
  {
  }

  lemma {:induction false} DeletedSizes(s: Shape, l: Lists, loose: set<nat>, k: nat, i: nat, off: nat, cell: nat,
      blank: string, key: string)
    requires Filed(s, l, loose) && 1 <= k < SLOTS && i < |Chain(l, k)| && off == Chain(l, k)[i]
    ensures FreeSizes(DeletedShape(s, off, cell, blank), DeletedLists(l, k, i, off, key)) ==
      FreeSizes(s, l) + multiset{(|blank|, RecIn(s, off).datlen)}
  {
    var c, s' := Chain(l, 0), DeletedShape(s, off, cell, blank);
    assert l.slotOf[l.chains[k][i]] == k;
    assert off !in c;
    hide Filed;
    var s1 := s.(recs := s.recs[off := IdxRec(Cell(s, 0), blank, RecIn(s, off).datoff, RecIn(s, off).datlen)]);
    CellSizes(s1, 0, off);
    CellSizes(SetCell(s1, 0, off), cell, RecIn(s, off).next);
    assert forall o :: o != off ==> SizeOf(s1, o) == SizeOf(s, o);
    assert SizeOf(s1, off) == (|blank|, RecIn(s, off).datlen);
    hide SizeOf, SetCell, Cell, RecIn;
    SizesSame(s, s', c);
    assert Sizes(s', [off] + c) == [SizeOf(s', off)] + Sizes(s', c);
  }

  lemma {:induction false} TakenSizes(s: Shape, l: Lists, i: nat, cell: nat, v: nat)
    requires i < |Chain(l, 0)|
    ensures SizeOf(s, Chain(l, 0)[i]) in FreeSizes(s, l)
    ensures FreeSizes(SetCell(s, cell, v), TakenLists(l, i)) == FreeSizes(s, l) - multiset{SizeOf(s, Chain(l, 0)[i])}
  {
    CellSizes(s, cell, v);
    hide SizeOf, SetCell;
    var c := Chain(l, 0);
    SizesSame(s, SetCell(s, cell, v), Without(c, i));
    var a, b := c[..i], c[i + 1..];
    assert Sizes(s, c) == Sizes(s, a) + [SizeOf(s, c[i])] + Sizes(s, b);
    assert Without(c, i) == a + b;
    assert Sizes(s, a + b) == Sizes(s, a) + Sizes(s, b);
  }

  lemma InsertedSizes(s: Shape, l: Lists, loose: set<nat>, k: nat, off: nat, r: IdxRec, key: string)
    requires Filed(s, l, loose) && (off in loose || off !in s.recs) && 1 <= k < SLOTS
    ensures FreeSizes(InsertedShape(s, k, off, r), InsertedLists(l, k, off, key)) == FreeSizes(s, l)
  {
    var c := Chain(l, 0);
    NotFiled(s, l, loose, off);
    assert off !in c;
    assert |l.chains| == SLOTS;
    hide Filed;
    var s1 := s.(recs := s.recs[off := r]);
    assert forall o :: o != off ==> SizeOf(s1, o) == SizeOf(s, o);
    CellSizes(s1, PTR_SZ * k, off);
    hide SizeOf, SetCell;
    SizesSame(s, InsertedShape(s, k, off, r), c);
  }

  class Db {
    var idx: string
    var dat: string
    var idxpos: nat
    var idxbuf: string
    var datbuf: string
    var idxoff: nat
    var idxlen: nat
    var datoff: nat
    var datlen: nat
    var ptrval: nat
    var ptroff: nat
    var chainoff: nat

    ghost var s: Shape
    ghost var l: Lists
    ghost var m: map<string, string>

    ghost predicate Valid()
      reads this
    {
      Represents(idx, dat, s, l, {}, m)
    }

    /** What decides whether the next store can be written. */
    ghost function Now(): Room
      reads this
    {
      Room(m, FreeSizes(s, l), |idx|, |dat|)
    }

    /** A newly created database: the header is written and nothing is stored. */
    constructor ()
      ensures Valid() && m == map[] && idx == Blank() && dat == []
      ensures Now() == Room(map[], multiset{}, REC_START, 0)
    {
      idx, dat := Blank(), [];
      idxpos, idxbuf, datbuf, idxoff, idxlen := REC_START, [], [], REC_START, 0;
      datoff, datlen, ptrval, ptroff, chainoff := 0, 0, 0, 0, 0;
      s := Shape(seq(SLOTS, i => 0), map[]);
      l := Lists(seq(SLOTS, i => []), map[], map[]);
      m := map[];
      new;
      hide Layout;
      BlankLayout();
    }

    method ReadPtr(off: nat) returns (p: nat)
      requires Layout(idx, s) && |s.heads| == SLOTS && IsCell(s, off)
      modifies `idxpos
      ensures p == Cell(s, off)
    {
      hide Layout;
      ReadCell(idx, s, off);
      p := Numerals.Atol(idx[off..off + PTR_SZ]);
      idxpos := off + PTR_SZ;
    }

    method WritePtr(off: nat, v: nat) returns (ok: bool)
      requires Layout(idx, s) && |s.heads| == SLOTS && IsCell(s, off)
      modifies `idx, `s, `idxpos
      ensures ok <==> v <= PTR_MAX
      ensures ok ==> Layout(idx, s) && s == SetCell(old(s), off, v) && |idx| == |old(idx)|
    {
      hide Layout;
      if v > PTR_MAX {
        return false;
      }
      WriteCell(idx, s, off, v);
      idx, s := WriteAt(idx, off, PtrText(v)), SetCell(s, off, v);
      idxpos := off + PTR_SZ;
      return true;
    }

    method ReadIdx(off: nat) returns (next: nat)
      requires Layout(idx, s) && off in s.recs
      modifies `idxoff, `idxlen, `idxbuf, `ptrval, `datoff, `datlen, `idxpos
      ensures IdxRec(ptrval, idxbuf, datoff, datlen) == s.recs[off]
      ensures idxoff == off && next == ptrval && idxpos == off + RecSize(s.recs[off])
    {
      hide Layout, ReadRec;
      ReadsBack(idx, s, off);
      var r := ReadRec(idx, off).value;
      idxoff := off;
      ptrval, idxbuf, datoff, datlen := r.next, r.key, r.datoff, r.datlen;
      idxlen := |BodyText(r.key, r.datoff, r.datlen)|;
      idxpos := off + PTR_SZ + IDXLEN_SZ + idxlen;
      next := ptrval;
    }

    method ReadDat()
      requires 1 <= datlen && datoff + datlen <= |dat| && dat[datoff + datlen - 1] == '\n'
      modifies `datbuf
      ensures datbuf + "\n" == dat[datoff..datoff + datlen]
    {
      datbuf := dat[datoff..datoff + datlen - 1];
    }

    method WriteDat(data: string, off: nat, whence: Whence)
      requires whence == SeekSet ==> off + |data| + 1 <= |dat|
      modifies `dat, `datoff, `datlen
      ensures datlen == |data| + 1
      ensures whence == SeekSet ==> datoff == off && dat == WriteAt(old(dat), off, data + "\n")
      ensures whence == SeekEnd ==> datoff == |old(dat)| && dat == old(dat) + (data + "\n")
    {
      datoff := if whence == SeekEnd then |dat| else off;
      datlen := |data| + 1;
      dat := if whence == SeekEnd then dat + (data + "\n") else WriteAt(dat, off, data + "\n");
    }

    /** Writes an index record for the current data region, in place or at the end. */
    method WriteIdx(key: string, off: nat, whence: Whence, next: nat) returns (ok: bool)
      requires Layout(idx, s) && SEP !in key && 1 <= datlen <= DATLEN_MAX && next <= PTR_MAX
      requires whence == SeekSet ==> off in s.recs && RecSize(IdxRec(next, key, datoff, datlen)) == RecSize(s.recs[off])
      modifies `idx, `s, `idxoff, `idxlen, `idxbuf, `ptrval, `idxpos
      ensures ok <==> Writable(IdxRec(next, key, datoff, datlen))
      ensures ok ==> |idx| == |old(idx)| + if whence == SeekEnd then RecSize(IdxRec(next, key, datoff, datlen)) else 0
      ensures ok ==> idxoff == (if whence == SeekEnd then |old(idx)| else off)
      ensures ok && idxoff <= PTR_MAX && whence == SeekEnd ==> idxoff !in old(s).recs
      ensures ok && (whence == SeekEnd ==> idxoff <= PTR_MAX) ==> Layout(idx, s)
      ensures ok ==> s == old(s).(recs := old(s).recs[idxoff := IdxRec(next, key, datoff, datlen)])
    {
      hide Layout, BodyText, RecText;
      ptrval := next;
      var r := IdxRec(next, key, datoff, datlen);
      idxbuf := key;
      idxlen := |BodyText(key, datoff, datlen)|;
      if idxlen < IDXLEN_MIN || idxlen > IDXLEN_MAX {
        return false;
      }
      if whence == SeekEnd {
        if |idx| <= PTR_MAX {
          Append(idx, s, r);
        }
        idxoff := |idx|;
        idx := idx + RecText(r);
      } else {
        FitsInPlace(idx, s, off, r);
        Rewrite(idx, s, off, r);
        idxoff := off;
        idx := WriteAt(idx, off, RecText(r));
      }
      s := s.(recs := s.recs[idxoff := r]);
      idxpos := idxoff + RecSize(r);
      return true;
    }

    method ComputeHash(key: string) returns (h: nat)
      ensures h == Hash(key)
    {
      h := 0;
      for i := 0 to |key|
        invariant HashFrom(key, i, h) == HashFrom(key, 0, 0)
      {
        h := (h + SignedChar(key[i]) * (i + 1)) % WORD;
      }
      h := h % NHASH;
    }

    /** Walks the hash chain of a key. */
    method FindAndLock(key: string) returns (found: bool, ghost pos: nat)
      requires Valid()
      modifies `idxoff, `idxlen, `idxbuf, `ptrval, `datoff, `datlen, `idxpos, `ptroff, `chainoff
      ensures chainoff == PTR_SZ * (1 + Hash(key))
      ensures found <==> key in m
      ensures found ==> pos < |Chain(l, 1 + Hash(key))| && idxoff == Chain(l, 1 + Hash(key))[pos]
      ensures found ==> key in l.where && idxoff == l.where[key] && idxoff in s.recs
      ensures found ==> ptroff == CellOf(1 + Hash(key), Chain(l, 1 + Hash(key)), pos)
      ensures found ==> IdxRec(ptrval, idxbuf, datoff, datlen) == RecIn(s, idxoff)
      ensures found ==> DataOf(RecIn(s, idxoff), dat) == m[key] + "\n"
    {
      hide Layout, Filed, Regions, Mapped, Hash, RecSize, IsCell;
      var h := ComputeHash(key);
      chainoff := h * PTR_SZ + PTR_SZ;
      ptroff := chainoff;
      ghost var k, c := 1 + h, Chain(l, 1 + h);
      pos := 0;
      CellRead(idx, dat, s, l, {}, m, k, 0);
      var offset := ReadPtr(ptroff);
      while offset != 0
        invariant chainoff == PTR_SZ * k
        invariant pos <= |c| && offset == At(c, pos) && ptroff == CellOf(k, c, pos)
        invariant forall j :: 0 <= j < pos ==> RecIn(s, c[j]).key != key
        decreases |c| - pos
      {
        OnList(idx, dat, s, l, {}, m, k, pos);
        var next := ReadIdx(offset);
        if idxbuf == key {
          FoundRecord(idx, dat, s, l, m, key, offset);
          return true, pos;
        }
        ptroff := offset;
        offset := next;
        pos := pos + 1;
      }
      if pos < |c| {
        OnList(idx, dat, s, l, {}, m, k, pos);
      }
      if key in m {
        KeyOnChain(idx, dat, s, l, m, key, c);
        assert false;
      }
      return false, pos;
    }

    /** The mapped data, or nothing when the key is absent; the files stay as they are. */
    method Fetch(key: string) returns (r: Option<string>)
      requires Valid()
      modifies this
      ensures Valid() && m == old(m) && idx == old(idx) && dat == old(dat)
      ensures r == if key in m then Some(m[key]) else None
      ensures Now() == old(Now())
    {
      hide Represents, Hash;
      var found, pos := FindAndLock(key);
      if !found {
        return None;
      }
      DataReadable(s, dat, idxoff, m[key]);
      ReadDat();
      return Some(datbuf);
    }

    /** The index-file half of a deletion: onto the free list and off the chain. */
    method FreeRecord(blank: string)
      requires Layout(idx, s) && |s.heads| == SLOTS && IsCell(s, 0) && Cell(s, 0) <= PTR_MAX && SEP !in blank
      requires idxoff in s.recs && idxoff <= PTR_MAX && ptrval <= PTR_MAX && 1 <= datlen <= DATLEN_MAX
      requires IdxRec(ptrval, s.recs[idxoff].key, datoff, datlen) == s.recs[idxoff]
      requires RecSize(IdxRec(Cell(s, 0), blank, datoff, datlen)) == RecSize(s.recs[idxoff])
      requires Writable(IdxRec(Cell(s, 0), blank, datoff, datlen))
      requires IsCell(SetCell(s.(recs := s.recs[idxoff := IdxRec(Cell(s, 0), blank, datoff, datlen)]), 0, idxoff),
        ptroff)
      requires SLOTS ==
        |SetCell(s.(recs := s.recs[idxoff := IdxRec(Cell(s, 0), blank, datoff, datlen)]), 0, idxoff).heads|
      modifies `idx, `s, `idxpos, `idxoff, `idxlen, `idxbuf, `ptrval
      ensures Layout(idx, s) && s == DeletedShape(old(s), old(idxoff), ptroff, blank)
      ensures |idx| == |old(idx)| && idxoff == old(idxoff)
    {
      hide Layout, RecSize, Writable, BodyText, SetCell, IsCell, Cell;
      var freeptr := ReadPtr(0);
      var saveptr := ptrval;
      var ok := WriteIdx(blank, idxoff, SeekSet, freeptr);
      HeaderCell(s, 0);
      ok := WritePtr(0, idxoff);
      ok := WritePtr(ptroff, saveptr);
    }

    /** All the writes of a deletion: the data, then the index. */
    method EraseRecord(ghost key: string, ghost pos: nat)
      requires key in m && key in l.where && idxoff == l.where[key]
      requires pos < |Chain(l, 1 + Hash(key))| && idxoff == Chain(l, 1 + Hash(key))[pos]
      requires ptroff == CellOf(1 + Hash(key), Chain(l, 1 + Hash(key)), pos)
      requires idxoff in s.recs && IdxRec(ptrval, idxbuf, datoff, datlen) == RecIn(s, idxoff)
      requires Valid()
      modifies `idx, `dat, `s, `datbuf, `datoff, `datlen, `idxpos, `idxoff, `idxlen, `idxbuf, `ptrval
      ensures Represents(idx, dat, s, DeletedLists(l, 1 + Hash(key), pos, idxoff, key), {}, m - {key})
      ensures s == DeletedShape(old(s), idxoff, ptroff, Numerals.Repeat(' ', |old(idxbuf)|))
      ensures |idx| == |old(idx)| && |dat| == |old(dat)| && idxoff == old(idxoff)
    {
      hide Represents, Hash, Layout, Filed, Regions, Mapped, Info, DataOf;
      hide RecSize, Writable, BodyText, SetCell, IsCell, Cell, DeletedLists, DeletedShape, CellOf, WriteAt;
      var blank := Numerals.Repeat(' ', |idxbuf|);
      RecBounds(idx, dat, s, l, {}, m, idxoff);
      datbuf := Numerals.Repeat(' ', datlen - 1);
      DeleteReady(idx, dat, s, l, m, key, pos, idxoff, blank, datbuf + "\n");
      WriteDat(datbuf, datoff, SeekSet);
      FreeRecord(blank);
    }

    /** Deletes the record that FindAndLock left in the fields. */
    method DoDelete(ghost key: string, ghost pos: nat)
      requires key in m && key in l.where && idxoff == l.where[key]
      requires pos < |Chain(l, 1 + Hash(key))| && idxoff == Chain(l, 1 + Hash(key))[pos]
      requires ptroff == CellOf(1 + Hash(key), Chain(l, 1 + Hash(key)), pos)
      requires idxoff in s.recs && IdxRec(ptrval, idxbuf, datoff, datlen) == RecIn(s, idxoff)
      requires Valid()
      modifies this
      ensures Valid() && m == old(m) - {key}
      ensures Now() == Freed(old(Now()), key) && |idx| == |old(idx)| && |dat| == |old(dat)| && chainoff == old(chainoff)
    {
      hide Represents, Hash, FreeSizes, DeletedLists, DeletedShape, CellOf;
      DeleteRoom(idx, dat, s, l, m, key, pos, ptroff, Numerals.Repeat(' ', |idxbuf|));
      EraseRecord(key, pos);
      l, m := DeletedLists(l, 1 + Hash(key), pos, idxoff, key), m - {key};
    }

    /** Removes a key; 0 when it was there and -1 when it was not. */
    method Delete(key: string) returns (rc: int)
      requires Valid()
      modifies this
      ensures Valid() && m == old(m) - {key}
      ensures rc == if key in old(m) then 0 else -1
      ensures Now() == StepRoom(old(Now()), DoRemove(key))
    {
      hide Represents, Hash, FreeSizes;
      var found, pos := FindAndLock(key);
      if found {
        DoDelete(key, pos);
        rc := 0;
      } else {
        rc := -1;
      }
    }

    /** Takes a record of exactly these sizes off the free list, if there is one. */
    method FindFree(keylen: nat, dlen: nat) returns (found: bool)
      requires Valid()
      modifies `idx, `s, `l, `idxoff, `idxlen, `idxbuf, `ptrval, `datoff, `datlen, `idxpos
      ensures found <==> FreeFits(old(s), old(l), keylen, dlen)
      ensures !found ==> s == old(s) && l == old(l) && idx == old(idx)
      ensures found ==> Represents(idx, dat, s, l, {idxoff}, m) && idxoff in s.recs && Fits(s, idxoff, keylen, dlen)
      ensures found ==> datoff == RecIn(s, idxoff).datoff && |idx| == |old(idx)|
      ensures found ==>
        (keylen, dlen) in old(FreeSizes(s, l)) && FreeSizes(s, l) == old(FreeSizes(s, l)) - multiset{(keylen, dlen)}
      ensures forall k: nat :: 1 <= k < SLOTS ==> Cell(s, PTR_SZ * k) == Cell(old(s), PTR_SZ * k)
    {
      hide Represents, Layout, RecSize, IsCell, SetCell, Cell, TakenLists, FreeSizes;
      var saveoffset := 0;
      ghost var c, pos := Chain(l, 0), 0;
      CellRead(idx, dat, s, l, {}, m, 0, 0);
      LaidOut(idx, dat, s, l, {}, m);
      var offset := ReadPtr(saveoffset);
      while offset != 0
        invariant idx == old(idx) && s == old(s) && l == old(l)
        invariant pos <= |c| && offset == At(c, pos) && saveoffset == CellOf(0, c, pos)
        invariant forall j: nat :: j < pos ==> !Fits(s, c[j], keylen, dlen)
        decreases |c| - pos
      {
        OnList(idx, dat, s, l, {}, m, 0, pos);
        var next := ReadIdx(offset);
        if |idxbuf| == keylen && datlen == dlen {
          TakeFreeEffect(idx, dat, s, l, m, pos);
          assert Fits(s, c[pos], keylen, dlen);
          TakenSizes(s, l, pos, saveoffset, ptrval);
          var ok := WritePtr(saveoffset, ptrval);
          l := TakenLists(l, pos);
          return true;
        }
        saveoffset := offset;
        offset := next;
        pos := pos + 1;
      }
      if pos < |c| {
        OnList(idx, dat, s, l, {}, m, 0, pos);
      }
      return false;
    }

    /** Writes data and index record, reusing record idxoff or appending, and makes it first on its chain. */
    method PutRecord(key: string, data: string, head: nat, reuse: bool) returns (ok: bool)
      requires Represents(idx, dat, s, l, if reuse then {idxoff} else {}, m) && key !in m && SEP !in key
      requires |data| + 1 <= DATLEN_MAX && chainoff == PTR_SZ * (1 + Hash(key)) && head == Cell(s, chainoff)
      requires reuse ==> idxoff in s.recs && Fits(s, idxoff, |key|, |data| + 1) && datoff == RecIn(s, idxoff).datoff
      requires !reuse ==> |idx| !in s.recs
      modifies this
      ensures ok <==> reuse || Appendable(key, |old(dat)|, |data| + 1, |old(idx)|)
      ensures ok ==> Valid() && m == old(m)[key := data]
      ensures ok ==> Now() == if reuse then old(Now()).(m := old(m)[key := data]) else Appended(old(Now()), key, data)
    {
      hide Represents, Layout, Hash, RecSize, BodyText, IsCell, SetCell, Cell, WriteAt, InsertedLists, FreeSizes;
      InsertReady(idx, dat, s, l, if reuse then {idxoff} else {}, m, key, data, if reuse then idxoff else |idx|, head);
      ghost var off := if reuse then idxoff else |idx|;
      PutRoom(idx, dat, s, l, if reuse then {idxoff} else {}, m, key, data, off, head, if reuse then datoff else |dat|);
      var whence := if reuse then SeekSet else SeekEnd;
      WriteDat(data, datoff, whence);
      ok := WriteIdx(key, idxoff, whence, head);
      if !ok || idxoff > PTR_MAX {
        return false;
      }
      ok := WritePtr(chainoff, idxoff);
      l, m := InsertedLists(l, 1 + Hash(key), idxoff, key), m[key := data];
    }

    /** Insert, replace or either, by flag. */
    method Store(key: string, data: string, flag: int) returns (rc: Rc)
      requires Valid() && SEP !in key
      modifies this
      ensures rc.Dumped? <==> Dumps(old(Now()), key, data, flag)
      ensures !rc.Dumped? ==> Valid() && rc == StoreRc(old(m), key, flag)
      ensures !rc.Dumped? ==> m == StepMap(old(m), DoStore(key, data, flag))
      ensures !rc.Dumped? ==> StoreDoes(old(m), key, data, flag, rc, m)
      ensures !rc.Dumped? ==> Now() == StepRoom(old(Now()), DoStore(key, data, flag))
    {
      hide Represents, Hash, FreeSizes, Appendable, Cell, IsCell, WriteAt, RecSize;
      if flag != DB_INSERT && flag != DB_REPLACE && flag != DB_STORE {
        return InvalidFlag;
      }
      if |data| + 1 < DATLEN_MIN || |data| + 1 > DATLEN_MAX {
        return Dumped;
      }
      var found, pos := FindAndLock(key);
      if !found {
        if flag == DB_REPLACE {
          return Missing;
        }
        var ok := InsertNew(key, data);
        return if ok then Stored else Dumped;
      }
      if flag == DB_INSERT {
        return AlreadyExists;
      }
      var ok := Replace(key, data, pos);
      return if ok then Stored else Dumped;
    }

    /** Stores a key that is there: in place if the data has the same length, else in a new record. */
    method Replace(key: string, data: string, ghost pos: nat) returns (ok: bool)
      requires key in m && key in l.where && idxoff == l.where[key] && SEP !in key && |data| + 1 <= DATLEN_MAX
      requires pos < |Chain(l, 1 + Hash(key))| && idxoff == Chain(l, 1 + Hash(key))[pos]
      requires ptroff == CellOf(1 + Hash(key), Chain(l, 1 + Hash(key)), pos) && chainoff == PTR_SZ * (1 + Hash(key))
      requires idxoff in s.recs && IdxRec(ptrval, idxbuf, datoff, datlen) == RecIn(s, idxoff)
      requires DataOf(RecIn(s, idxoff), dat) == m[key] + "\n"
      requires Valid()
      modifies this
      ensures ok <==> |data| == |old(m)[key]| || Appendable(key, |old(dat)|, |data| + 1, |old(idx)|)
      ensures ok ==> Valid() && m == old(m)[key := data]
      ensures ok && |data| == |old(m)[key]| ==> Now() == old(Now()).(m := old(m)[key := data])
      ensures ok && |data| != |old(m)[key]| ==> Now() == Appended(Freed(old(Now()), key), key, data)
    {
      hide Represents, Hash, FreeSizes, Appendable, Cell, IsCell, WriteAt, RecSize;
      DataLength(s, dat, idxoff, m[key]);
      if |data| + 1 != datlen {
        DoDelete(key, pos);
        ChainCell(idx, dat, s, l, {}, m, key);
        var head := ReadPtr(chainoff);
        ok := PutRecord(key, data, head, false);
        assert (old(m) - {key})[key := data] == old(m)[key := data];
        return;
      }
      ReplaceEffect(idx, dat, s, l, m, key, data);
      WriteDat(data, datoff, SeekSet);
      m := m[key := data];
      return true;
    }

    /** Stores a key that is not there yet, in a free record of the same size or at the end. */
    method InsertNew(key: string, data: string) returns (ok: bool)
      requires Valid() && key !in m && SEP !in key
      requires |data| + 1 <= DATLEN_MAX && chainoff == PTR_SZ * (1 + Hash(key))
      modifies this
      ensures ok <==> (|key|, |data| + 1) in old(Now()).free || Appendable(key, |old(dat)|, |data| + 1, |old(idx)|)
      ensures ok ==> Valid() && m == old(m)[key := data] && Now() == Inserted(old(Now()), key, data)
    {
      hide Represents, Layout, Hash, FreeFits, FreeSizes, Appendable, Cell, IsCell, RecSize;
      FitsIff(s, l, |key|, |data| + 1);
      ChainCell(idx, dat, s, l, {}, m, key);
      var head := ReadPtr(chainoff);
      var reuse := FindFree(|key|, |data| + 1);
      ok := PutRecord(key, data, head, reuse);
    }

    method Rewind()
      requires Valid()
      modifies `idxoff, `idxpos
      ensures idxpos == REC_START && Boundary(idx, s, idxpos)
    {
      hide Layout, Filed, Regions, Mapped;
      FirstBoundary(idx, s);
      idxoff := SLOTS * PTR_SZ + 1;
      idxpos := idxoff;
    }

    /** The next stored pair in file order, skipping records with blank keys. */
    method NextRec() returns (r: Option<(string, string)>)
      requires Valid() && Boundary(idx, s, idxpos)
      modifies `idxoff, `idxlen, `idxbuf, `datbuf, `ptrval, `datoff, `datlen, `idxpos
      ensures Boundary(idx, s, idxpos) && old(idxpos) <= idxpos
      ensures r.None? ==> idxpos == |idx|
      ensures r.None? ==> forall o :: o in s.recs && old(idxpos) <= o ==> AllBlank(RecIn(s, o).key)
      ensures r.Some? ==>
        var k := r.value.0;
        && k in m && m[k] == r.value.1 && !AllBlank(k)
        && k in l.where && old(idxpos) <= l.where[k] < idxpos
        && forall o :: o in s.recs && old(idxpos) <= o < idxpos && o != l.where[k] ==> AllBlank(RecIn(s, o).key)
    {
      hide Represents, Layout, RecSize, DataOf;
      LaidOut(idx, dat, s, l, {}, m);
      FirstBoundary(idx, s);
      while idxpos != |idx|
        invariant Boundary(idx, s, idxpos) && old(idxpos) <= idxpos <= |idx|
        invariant forall o :: o in s.recs && old(idxpos) <= o < idxpos ==> AllBlank(RecIn(s, o).key)
        decreases |idx| - idxpos
      {
        ghost var off := idxpos;
        NextBoundary(idx, s, off);
        var next := ReadIdx(idxpos);
        var i := 0;
        while i < |idxbuf| && idxbuf[i] == ' '
          invariant 0 <= i <= |idxbuf| && AllBlank(idxbuf[..i])
        {
          i := i + 1;
        }
        if i < |idxbuf| {
          NonblankIsLive(idx, dat, s, l, m, off);
          DataReadable(s, dat, off, m[idxbuf]);
          ReadDat();
          return Some((idxbuf, datbuf));
        }
        assert idxbuf[..i] == idxbuf;
      }
      return None;
    }

    /**
     * A full scan from the start returns every stored pair exactly once, except
     * that pairs under an all-blank key are never returned.
     */
    method Scan() returns (pairs: seq<(string, string)>)
      requires Valid()
      modifies this
      ensures Valid() && m == old(m) && idx == old(idx) && dat == old(dat)
      ensures forall i :: 0 <= i < |pairs| ==> pairs[i].0 in m && pairs[i].1 == m[pairs[i].0] && !AllBlank(pairs[i].0)
      ensures forall i, j :: 0 <= i < j < |pairs| ==> pairs[i].0 != pairs[j].0
      ensures forall k :: k in m && !AllBlank(k) ==> (k, m[k]) in pairs
    {
      hide Represents, Boundary;
      pairs := [];
      Rewind();
      ScanStart(idx, dat, s, l, m);
      while true
        invariant Boundary(idx, s, idxpos) && idx == old(idx) && dat == old(dat) && s == old(s) && l == old(l) &&
          m == old(m)
        invariant forall i :: 0 <= i < |pairs| ==>
          pairs[i].0 in m && pairs[i].1 == m[pairs[i].0] && !AllBlank(pairs[i].0)
          && pairs[i].0 in l.where && l.where[pairs[i].0] < idxpos
        invariant forall i, j :: 0 <= i < j < |pairs| ==> pairs[i].0 != pairs[j].0
        invariant forall k :: k in m && !AllBlank(k) && k in l.where && l.where[k] < idxpos ==> (k, m[k]) in pairs
        decreases |idx| - idxpos
      {
        ghost var start := idxpos;
        BoundaryInFile(idx, dat, s, l, m, start);
        var r := NextRec();
        if r.None? {
          forall k | k in m && !AllBlank(k) ensures (k, m[k]) in pairs {
            StoredIsFiled(idx, dat, s, l, m, k);
          }
          return;
        }
        ghost var before := pairs;
        pairs := pairs + [r.value];
        forall k | k in m && !AllBlank(k) && k in l.where && l.where[k] < idxpos ensures (k, m[k]) in pairs {
          StoredIsFiled(idx, dat, s, l, m, k);
          if l.where[k] < start {
            assert (k, m[k]) in before;
          } else {
            StoredIsFiled(idx, dat, s, l, m, r.value.0);
            assert k == r.value.0;
            assert pairs[|before|] == (k, m[k]);
          }
        }
      }
    }
  }

  lemma {:induction false} DeleteRoom(idx: string, dat: string, s: Shape, l: Lists, m: map<string, string>,
      key: string, pos: nat, cell: nat, blank: string)
    requires Represents(idx, dat, s, l, {}, m) && key in m && key in l.where && pos < |Chain(l, 1 + Hash(key))|
    requires l.where[key] == Chain(l, 1 + Hash(key))[pos] && |blank| == |RecIn(s, l.where[key]).key|
    ensures
      FreeSizes(DeletedShape(s, l.where[key], cell, blank), DeletedLists(l, 1 + Hash(key), pos, l.where[key], key)) ==
      FreeSizes(s, l) + multiset{(|key|, |m[key]| + 1)}
  {
    hide Layout, Regions, Hash, FreeSizes, DeletedShape, DeletedLists, Mapped;
    StoredIsFiled(idx, dat, s, l, m, key);
    StoredLength(idx, dat, s, l, m, key);
    DeletedSizes(s, l, {}, 1 + Hash(key), pos, l.where[key], cell, blank, key);
  }

  lemma StoredLength(idx: string, dat: string, s: Shape, l: Lists, m: map<string, string>, key: string)
    requires Represents(idx, dat, s, l, {}, m) && key in m && key in l.where && l.where[key] in s.recs
    ensures RecIn(s, l.where[key]).datlen == |m[key]| + 1
  {
    hide Layout, Filed, Regions, Hash;
    assert Holds(Info(s.recs), l.slotOf, dat, key, l.where[key], m[key]);
    DataLength(s, dat, l.where[key], m[key]);
  }

  lemma {:induction false} PutRoom(idx: string, dat: string, s: Shape, l: Lists, loose: set<nat>,
      m: map<string, string>,
                  key: string, data: string, off: nat, head: nat, datoff: nat)
    requires Represents(idx, dat, s, l, loose, m) && (off in loose || off !in s.recs)
    ensures var r := IdxRec(head, key, datoff, |data| + 1);
      && FreeSizes(InsertedShape(s, 1 + Hash(key), off, r), InsertedLists(l, 1 + Hash(key), off, key)) ==
           FreeSizes(s, l)
      && RecSize(r) == RecSize(IdxRec(0, key, datoff, |data| + 1))
  {
    hide Layout, Regions, Hash, FreeSizes, InsertedLists, InsertedShape, Mapped, Filed;
    var r := IdxRec(head, key, datoff, |data| + 1);
    SameSize(r, IdxRec(0, key, datoff, |data| + 1));
    InsertedSizes(s, l, loose, 1 + Hash(key), off, r, key);
  }

  lemma ScanStart(idx: string, dat: string, s: Shape, l: Lists, m: map<string, string>)
    requires Represents(idx, dat, s, l, {}, m)
    ensures forall k :: k in m ==> k in l.where && l.where[k] >= REC_START
  {
    hide Layout, Regions, Mapped;
    forall k | k in m ensures k in l.where && l.where[k] >= REC_START {
      StoredIsFiled(idx, dat, s, l, m, k);
    }
  }

  lemma BoundaryInFile(idx: string, dat: string, s: Shape, l: Lists, m: map<string, string>, pos: nat)
    requires Represents(idx, dat, s, l, {}, m) && Boundary(idx, s, pos)
    ensures pos <= |idx|
  {
    hide Filed, Regions, Mapped;
    FirstBoundary(idx, s);
  }

  lemma DataLength(s: Shape, dat: string, off: nat, data: string)
    requires DataOf(RecIn(s, off), dat) == data + "\n"
    ensures RecIn(s, off).datlen == |data| + 1
  {
    assert |DataOf(RecIn(s, off), dat)| == |data| + 1;
  }

  lemma ChainCell(idx: string, dat: string, s: Shape, l: Lists, loose: set<nat>, m: map<string, string>, key: string)
    requires Represents(idx, dat, s, l, loose, m)
    ensures Layout(idx, s) && |s.heads| == SLOTS && IsCell(s, PTR_SZ * (1 + Hash(key))) && |idx| !in s.recs
  {
    hide Layout, Regions, Mapped, Hash;
    ShapeFacts(idx, dat, s, l, loose, m);
    EndFresh(idx, s);
    HeaderCell(s, 1 + Hash(key));
  }

  lemma LaidOut(idx: string, dat: string, s: Shape, l: Lists, loose: set<nat>, m: map<string, string>)
    requires Represents(idx, dat, s, l, loose, m)
    ensures Layout(idx, s)
  {
  }

  lemma DataReadable(s: Shape, dat: string, off: nat, data: string)
    requires DataOf(RecIn(s, off), dat) == data + "\n"
    ensures var r := RecIn(s, off);
      && 1 <= r.datlen && r.datoff + r.datlen <= |dat| && dat[r.datoff + r.datlen - 1] == '\n'
      && dat[r.datoff..r.datoff + r.datlen] == data + "\n"
      && forall buf :: buf + "\n" == data + "\n" ==> buf == data
  {
    var r := RecIn(s, off);
    assert dat[r.datoff + r.datlen - 1] == (data + "\n")[r.datlen - 1];
    forall buf | buf + "\n" == data + "\n" ensures buf == data {
      assert buf == (buf + "\n")[..|buf|] == (data + "\n")[..|buf|];
    }
  }

  /** What each write of a deletion needs, and what they add up to. */
  lemma DeleteReady(idx: string, dat: string, s: Shape, l: Lists, m: map<string, string>,
                    key: string, i: nat, off: nat, blank: string, wiped: string)
    requires Represents(idx, dat, s, l, {}, m) && key in m && key in l.where && off == l.where[key] && off in s.recs
    requires i < |Chain(l, 1 + Hash(key))| && Chain(l, 1 + Hash(key))[i] == off
    requires AllBlank(blank) && |blank| == |RecIn(s, off).key| && |wiped| == RecIn(s, off).datlen
    ensures Layout(idx, s) && |s.heads| == SLOTS && IsCell(s, 0) && Cell(s, 0) <= PTR_MAX
    ensures off <= PTR_MAX && RecIn(s, off).next <= PTR_MAX
    ensures var r := RecIn(s, off);
      var r' := IdxRec(Cell(s, 0), blank, r.datoff, r.datlen);
      var k := 1 + Hash(key);
      var cell := CellOf(k, Chain(l, k), i);
      var s', l', dat' := DeletedShape(s, off, cell, blank), DeletedLists(l, k, i, off, key),
        WriteAt(dat, r.datoff, wiped);
      && r.datoff + r.datlen <= |dat| && 1 <= r.datlen <= DATLEN_MAX
      && RecSize(r') == RecSize(r) && Writable(r')
      && IsCell(SetCell(s.(recs := s.recs[off := r']), 0, off), cell)
      && |SetCell(s.(recs := s.recs[off := r']), 0, off).heads| == SLOTS
      && forall idx' :: Layout(idx', s') ==> Represents(idx', dat', s', l', {}, m - {key})
  {
    hide Hash, Layout, Filed, Regions, Mapped, RecSize, Writable, DeletedLists, DeletedShape;
    ShapeFacts(idx, dat, s, l, {}, m);
    HeaderCell(s, 0);
    CellBound(idx, s, 0);
    InPlace(idx, s, off, blank, Cell(s, 0));
    var k := 1 + Hash(key);
    var cell := CellOf(k, Chain(l, k), i);
    CellRead(idx, dat, s, l, {}, m, k, i);
    CellBound(idx, s, off);
    InRegion(s, dat, off);
    CellStays(s, off, IdxRec(Cell(s, 0), blank, s.recs[off].datoff, s.recs[off].datlen), cell);
    DeleteEffect(idx, dat, s, l, m, key, i, off, blank, wiped);
  }

  lemma RecBounds(idx: string, dat: string, s: Shape, l: Lists, loose: set<nat>, m: map<string, string>, off: nat)
    requires Represents(idx, dat, s, l, loose, m) && off in s.recs
    ensures 1 <= RecIn(s, off).datlen <= DATLEN_MAX && SEP !in RecIn(s, off).key
  {
    hide Filed, Regions, Mapped;
    ReadsBack(idx, s, off);
  }

  lemma InRegion(s: Shape, dat: string, off: nat)
    requires Regions(Info(s.recs), |dat|) && off in s.recs
    ensures s.recs[off].datoff + s.recs[off].datlen <= |dat|
  {
    assert Info(s.recs)[off].datlen == s.recs[off].datlen;
  }

  lemma CellStays(s: Shape, off: nat, r: IdxRec, cell: nat)
    requires off in s.recs && IsCell(s, cell)
    ensures IsCell(SetCell(s.(recs := s.recs[off := r]), 0, off), cell)
  {
  }

  lemma FitsInPlace(idx: string, s: Shape, off: nat, r: IdxRec)
    requires Layout(idx, s) && off in s.recs && Writable(r) && RecSize(r) == RecSize(s.recs[off])
    ensures off + |RecText(r)| <= |idx|
  {
  }

  predicate LegalOp(op: Op) {
    op.DoStore? ==> SEP !in op.key
  }

  /** One operation; None when the process ended. */
  method Step(db: Db, op: Op) returns (r: Option<Reply>)
    requires db.Valid() && LegalOp(op)
    modifies db
    ensures r.None? <==> Ends(old(db.Now()), op)
    ensures r.Some? ==> db.Valid() && db.m == StepMap(old(db.m), op) && r.value == StepReply(old(db.m), op)
    ensures r.Some? ==> db.Now() == StepRoom(old(db.Now()), op)
  {
    hide Represents, FreeSizes, Dumps;
    match op {
      case DoFetch(key) =>
        var data := db.Fetch(key);
        return Some(Fetched(data));
      case DoRemove(key) =>
        var rc := db.Delete(key);
        return Some(Removed(rc));
      case DoStore(key, data, flag) =>
        var rc := db.Store(key, data, flag);
        return if rc.Dumped? then None else Some(StoreDone(rc));
    }
  }

  /**
   * Any sequence of operations on the two files answers exactly as the abstract
   * map does and leaves files that represent it. It goes through to the end
   * unless a store ends the process, and then it stops at the first that must,
   * which the operations and the sizes at the start decide.
   */
  method Run(db: Db, ops: seq<Op>) returns (replies: seq<Reply>, ghost maps: seq<map<string, string>>)
    requires db.Valid() && forall i :: 0 <= i < |ops| ==> LegalOp(ops[i])
    modifies db
    ensures Serial(old(db.m), ops, replies, maps) && (|replies| == |ops| ==> maps[|ops|] == db.m)
    ensures |replies| == Returns(old(db.Now()), ops, 0)
    ensures forall i :: 0 <= i < |replies| ==> replies[i] == StepReply(RunMap(old(db.m), ops[..i]), ops[i])
    ensures |replies| == |ops| ==>
      db.Valid() && db.m == RunMap(old(db.m), ops) && db.Now() == RunRoom(old(db.Now()), ops)
  {
    hide Represents, FreeSizes, Ends, StepRoom, StepMap, StepReply, Returns, RunRoom, RunMap, Serial;
    replies := [];
    RunStarts(db.Now(), ops);
    for n := 0 to |ops|
      invariant |replies| == n && db.Valid() && db.m == RunMap(old(db.m), ops[..n])
      invariant db.Now() == RunRoom(old(db.Now()), ops[..n]) &&
        Returns(old(db.Now()), ops, 0) == Returns(old(db.Now()), ops, n)
      invariant forall i :: 0 <= i < n ==> replies[i] == StepReply(RunMap(old(db.m), ops[..i]), ops[i])
    {
      RunGoesOn(old(db.Now()), ops, n);
      assert LegalOp(ops[n]);
      var r := Step(db, ops[n]);
      if r.None? {
        break;
      }
      replies := replies + [r.value];
    }
    maps := MapsOf(old(db.m), ops, |replies|);
    AnswersAreSerial(old(db.m), ops, replies);
    assert ops[..|ops|] == ops;
    RunDone(old(db.Now()), ops);
  }

  lemma RunStarts(room: Room, ops: seq<Op>)
    ensures RunRoom(room, ops[..0]) == room && RunMap(room.m, ops[..0]) == room.m
  {
  }

  lemma RunGoesOn(room: Room, ops: seq<Op>, n: nat)
    requires n < |ops|
    ensures Returns(room, ops, n) == if Ends(RunRoom(room, ops[..n]), ops[n]) then n else Returns(room, ops, n + 1)
    ensures RunRoom(room, ops[..n + 1]) == StepRoom(RunRoom(room, ops[..n]), ops[n])
    ensures RunMap(room.m, ops[..n + 1]) == StepMap(RunMap(room.m, ops[..n]), ops[n])
  {
    hide Ends, StepRoom, StepMap;
    assert ops[..n + 1][..n] == ops[..n];
  }

  lemma RunDone(room: Room, ops: seq<Op>)
    ensures Returns(room, ops, |ops|) == |ops|
  {
  }

  /** In particular nothing stops early where there is room for the records of ordinary stores. */
  method RunAll(db: Db, ops: seq<Op>) returns (replies: seq<Reply>, ghost maps: seq<map<string, string>>)
    requires db.Valid() && forall i :: 0 <= i < |ops| ==> LegalOp(ops[i]) && Ordinary(ops[i])
    requires |db.idx| + |ops| * MAX_REC <= PTR_MAX && |db.dat| + |ops| * DATLEN_MAX <= PTR_MAX
    modifies db
    ensures |replies| == |ops| && db.Valid() && db.m == RunMap(old(db.m), ops)
    ensures forall i :: 0 <= i < |ops| ==> replies[i] == StepReply(RunMap(old(db.m), ops[..i]), ops[i])
    ensures Serial(old(db.m), ops, replies, maps) && maps[|ops|] == db.m
  {
    hide Represents, FreeSizes, Returns, Ordinary, Serial, RunMap, StepReply;
    RoomSuffices(db.Now(), ops, 0);
    replies, maps := Run(db, ops);
  }
}
