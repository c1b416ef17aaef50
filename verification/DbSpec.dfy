/** The store as its callers see it: a map from keys to data. */
module DbSpec {
  import opened Options
  import opened Numerals
  import opened DbText

  const DB_INSERT: int := 1
  const DB_REPLACE: int := 2
  const DB_STORE: int := 3

  /** Outcomes of a store: 0, 1, -1 with ENOENT, -1 with EINVAL, or err_dump. */
  datatype Rc = Stored | AlreadyExists | Missing | InvalidFlag | Dumped

  datatype Op = DoFetch(key: string) | DoRemove(key: string) | DoStore(key: string, data: string, flag: int)
  datatype Reply = Fetched(data: Option<string>) | Removed(status: int) | StoreDone(rc: Rc)

  function StoreRc(m: map<string, string>, key: string, flag: int): Rc {
    if flag != DB_INSERT && flag != DB_REPLACE && flag != DB_STORE then InvalidFlag
    else if key !in m then if flag == DB_REPLACE then Missing else Stored
    else if flag == DB_INSERT then AlreadyExists else Stored
  }

  function StepMap(m: map<string, string>, op: Op): map<string, string> {
    match op
    case DoFetch(_) => m
    case DoRemove(key) => m - {key}
    case DoStore(key, data, flag) => if StoreRc(m, key, flag).Stored? then m[key := data] else m
  }

  function StepReply(m: map<string, string>, op: Op): Reply {
    match op
    case DoFetch(key) => Fetched(if key in m then Some(m[key]) else None)
    case DoRemove(key) => Removed(if key in m then 0 else -1)
    case DoStore(key, data, flag) => StoreDone(StoreRc(m, key, flag))
  }

  function RunMap(m: map<string, string>, ops: seq<Op>): map<string, string> {
    if ops == [] then m else StepMap(RunMap(m, ops[..|ops| - 1]), ops[|ops| - 1])
  }

  // ----- what the answers say, told without the functions above

  /** One operation takes map m to m' and answers so. */
  ghost predicate Does(m: map<string, string>, op: Op, reply: Reply, m': map<string, string>) {
    match op
    case DoFetch(key) =>
      && m' == m && reply.Fetched? && (reply.data.Some? <==> key in m) && (key in m ==> reply.data == Some(m[key]))
    case DoRemove(key) =>
      reply == Removed(if key in m then 0 else -1) && m'.Keys == m.Keys - {key} && forall k :: k in m' ==> m'[k] == m[k]
    case DoStore(key, data, flag) => reply.StoreDone? && StoreDoes(m, key, data, flag, reply.rc, m')
  }

  /** The four return codes of a store, each with exactly its condition, and the map after it. */
  ghost predicate StoreDoes(m: map<string, string>, key: string, data: string, flag: int, rc: Rc,
      m': map<string, string>)
  {
    && (rc.InvalidFlag? <==> flag !in {1, 2, 3})
    && (rc.Missing? <==> flag == 2 && key !in m)
    && (rc.AlreadyExists? <==> flag == 1 && key in m)
    && !rc.Dumped?
    && m' == if rc.Stored? then m[key := data] else m
  }

  lemma StepDoes(m: map<string, string>, op: Op)
    ensures Does(m, op, StepReply(m, op), StepMap(m, op))
  {
  }

  /** The maps between the operations, from m on. */
  ghost predicate Serial(m: map<string, string>, ops: seq<Op>, replies: seq<Reply>, maps: seq<map<string, string>>) {
    && |replies| <= |ops| && |maps| == |replies| + 1 && maps[0] == m
    && forall i :: 0 <= i < |replies| ==> Does(maps[i], ops[i], replies[i], maps[i + 1])
  }

  ghost function MapsOf(m: map<string, string>, ops: seq<Op>, n: nat): (maps: seq<map<string, string>>)
    requires n <= |ops|
    ensures |maps| == n + 1 && forall i :: 0 <= i <= n ==> maps[i] == RunMap(m, ops[..i])
  {
    seq(n + 1, i requires 0 <= i <= n => RunMap(m, ops[..i]))
  }

  lemma {:induction false} AnswersAreSerial(m: map<string, string>, ops: seq<Op>, replies: seq<Reply>)
    requires |replies| <= |ops|
    requires forall i :: 0 <= i < |replies| ==> replies[i] == StepReply(RunMap(m, ops[..i]), ops[i])
    ensures Serial(m, ops, replies, MapsOf(m, ops, |replies|))
  {
    hide StepReply, StepMap, Does;
    assert ops[..0] == [];
    forall i | 0 <= i < |replies| ensures Does(RunMap(m, ops[..i]), ops[i], replies[i], RunMap(m, ops[..i + 1])) {
      StepDoes(RunMap(m, ops[..i]), ops[i]);
      assert ops[..i + 1][..i] == ops[..i];
    }
  }

  /** What the answers alone say of a key: the data of the last store that was answered 0, unless removed since. */
  function LastWrite(ops: seq<Op>, replies: seq<Reply>, key: string, n: nat): Option<Option<string>>
    requires n <= |ops| && n <= |replies|
  {
    if n == 0 then None
    else if ops[n - 1].key == key && ops[n - 1].DoStore? && replies[n - 1] == StoreDone(Stored) then
      Some(Some(ops[n - 1].data))
    else if ops[n - 1].key == key && ops[n - 1].DoRemove? then Some(None)
    else LastWrite(ops, replies, key, n - 1)
  }

  /** A key is as the last write left it, and as it was at the start if there was none. */
  lemma {:induction false} ReadsLastWrite(m: map<string, string>, ops: seq<Op>, replies: seq<Reply>,
      maps: seq<map<string, string>>, key: string, n: nat)
    requires Serial(m, ops, replies, maps) && n <= |replies|
    ensures var w := LastWrite(ops, replies, key, n);
      && (key in maps[n] <==> if w.Some? then w.value.Some? else key in m)
      && (key in maps[n] ==> maps[n][key] == if w.Some? then w.value.value else m[key])
  {
    if n > 0 {
      ReadsLastWrite(m, ops, replies, maps, key, n - 1);
      assert Does(maps[n - 1], ops[n - 1], replies[n - 1], maps[n]);
    }
  }

  lemma FetchReadsLast(m: map<string, string>, ops: seq<Op>, replies: seq<Reply>,
      maps: seq<map<string, string>>, i: nat)
    requires Serial(m, ops, replies, maps) && i < |replies| && ops[i].DoFetch?
    ensures var w := LastWrite(ops, replies, ops[i].key, i);
      replies[i] == Fetched(if w.Some? then w.value else if ops[i].key in m then Some(m[ops[i].key]) else None)
  {
    ReadsLastWrite(m, ops, replies, maps, ops[i].key, i);
    assert Does(maps[i], ops[i], replies[i], maps[i + 1]);
  }

  // ----- when a store ends the process

  /** What decides it: the map, the key and data lengths on the free list, and the lengths of both files. */
  datatype Room = Room(m: map<string, string>, free: multiset<(nat, nat)>, idxlen: nat, datlen: nat)

  /** An index record for these lengths and offsets can be appended and linked in. */
  predicate Appendable(key: string, datoff: nat, datlen: nat, idxoff: nat) {
    Writable(IdxRec(0, key, datoff, datlen)) && idxoff <= PTR_MAX
  }

  /** A store of this key must append records to both files. */
  predicate NeedsAppend(room: Room, key: string, data: string, flag: int) {
    if key in room.m then flag != DB_INSERT && |room.m[key]| != |data|
    else flag != DB_REPLACE && (|key|, |data| + 1) !in room.free
  }

  /** Exactly when a store ends the process instead of returning. */
  predicate Dumps(room: Room, key: string, data: string, flag: int) {
    && !StoreRc(room.m, key, flag).InvalidFlag?
    && (|| !(DATLEN_MIN <= |data| + 1 <= DATLEN_MAX)
        || (NeedsAppend(room, key, data, flag) && !Appendable(key, room.datlen, |data| + 1, room.idxlen)))
  }

  /**
   * The same in lengths: the data is empty or longer than 1023, or the record
   * must be appended and its text is not 6 to 1024 characters long or the index
   * has outgrown a pointer of seven digits.
   */
  lemma DumpsIff(room: Room, key: string, data: string, flag: int)
    ensures var n := |key| + |Decimal(room.datlen)| + |Decimal(|data| + 1)| + 3;
      var added := key !in room.m && flag in {1, 3} && (|key|, |data| + 1) !in room.free;
      var grows := key in room.m && flag in {2, 3} && |room.m[key]| != |data|;
      Dumps(room, key, data, flag) <==>
      flag in {1, 2, 3} &&
      (data == "" || |data| > 1023 || ((added || grows) && !(6 <= n <= 1024 && room.idxlen <= 9999999)))
  {
    hide Decimal;
  }

  /** A store that fits the record of a key removed before it takes that record: no file grows. */
  lemma FreedIsReused(room: Room, key: string, key': string, data: string)
    requires key in room.m && |key'| == |key| && |data| == |room.m[key]| && (key' == key || key' !in room.m)
    ensures var room1 := StepRoom(room, DoRemove(key));
      var room2 := StepRoom(room1, DoStore(key', data, 1));
      && room1.free == room.free + multiset{(|key|, |data| + 1)} && room1.m == room.m - {key}
      && room2 == room.(m := (room.m - {key})[key' := data])
      && room1.idxlen == room.idxlen && room1.datlen == room.datlen
  {
    var room1 := StepRoom(room, DoRemove(key));
    assert room1.free - multiset{(|key|, |data| + 1)} == room.free;
  }

  predicate Ends(room: Room, op: Op) { op.DoStore? && Dumps(room, op.key, op.data, op.flag) }

  /** Both files grow by one record. */
  function Appended(room: Room, key: string, data: string): Room {
    room.(m := room.m[key := data], datlen := room.datlen + |data| + 1,
          idxlen := room.idxlen + RecSize(IdxRec(0, key, room.datlen, |data| + 1)))
  }

  /** The record of a key that is there goes to the free list. */
  function Freed(room: Room, key: string): Room
    requires key in room.m
  {
    room.(m := room.m - {key}, free := room.free + multiset{(|key|, |room.m[key]| + 1)})
  }

  /** A key that is not there takes a free record of its size or is appended. */
  function Inserted(room: Room, key: string, data: string): Room {
    if (|key|, |data| + 1) in room.free then
      room.(m := room.m[key := data], free := room.free - multiset{(|key|, |data| + 1)})
    else Appended(room, key, data)
  }

  function StepRoom(room: Room, op: Op): Room {
    match op
    case DoFetch(_) => room
    case DoRemove(key) => if key in room.m then Freed(room, key) else room
    case DoStore(key, data, flag) =>
      if !StoreRc(room.m, key, flag).Stored? then room
      else if key !in room.m then Inserted(room, key, data)
      else if |room.m[key]| == |data| then room.(m := room.m[key := data])
      else Appended(Freed(room, key), key, data)
  }

  function RunRoom(room: Room, ops: seq<Op>): Room {
    if ops == [] then room else StepRoom(RunRoom(room, ops[..|ops| - 1]), ops[|ops| - 1])
  }

  /** How many operations return: all, or those before the first store that ends the process. */
  function Returns(room: Room, ops: seq<Op>, n: nat): (r: nat)
    requires n <= |ops|
    ensures n <= r <= |ops|
    decreases |ops| - n
  {
    if n == |ops| || Ends(RunRoom(room, ops[..n]), ops[n]) then n else Returns(room, ops, n + 1)
  }

  lemma StepRoomMap(room: Room, op: Op)
    ensures StepRoom(room, op).m == StepMap(room.m, op)
  {
    if op.DoStore? && op.key in room.m {
      assert (room.m - {op.key})[op.key := op.data] == room.m[op.key := op.data];
    }
    if op.DoRemove? && op.key !in room.m {
      assert room.m - {op.key} == room.m;
    }
  }

  lemma {:induction false} RunRoomMap(room: Room, ops: seq<Op>)
    ensures RunRoom(room, ops).m == RunMap(room.m, ops)
    decreases |ops|
  {
    hide StepRoom, StepMap;
    if ops != [] {
      RunRoomMap(room, ops[..|ops| - 1]);
      StepRoomMap(RunRoom(room, ops[..|ops| - 1]), ops[|ops| - 1]);
    }
  }

  const MAX_REC: nat := PTR_SZ + IDXLEN_SZ + IDXLEN_MAX

  /** A store that a caller may make wherever there is room. */
  predicate Ordinary(op: Op) {
    op.DoStore? ==> 1 <= |op.key| <= 1000 && DATLEN_MIN <= |op.data| + 1 <= DATLEN_MAX
  }

  lemma Fitting(key: string, datoff: nat, datlen: nat)
    requires 1 <= |key| <= 1000 && datoff <= PTR_MAX && datlen <= DATLEN_MAX
    ensures Writable(IdxRec(0, key, datoff, datlen)) && RecSize(IdxRec(0, key, datoff, datlen)) <= MAX_REC
  {
    PtrWidth(datoff);
    LenWidth(datlen);
  }

  lemma {:induction false} StepFits(room: Room, op: Op)
    requires Ordinary(op) && room.idxlen <= PTR_MAX && room.datlen <= PTR_MAX
    ensures !Ends(room, op)
    ensures StepRoom(room, op).idxlen <= room.idxlen + MAX_REC && StepRoom(room, op).datlen <= room.datlen + DATLEN_MAX
  {
    hide Writable, RecSize;
    if op.DoStore? {
      Fitting(op.key, room.datlen, |op.data| + 1);
    }
  }

  lemma {:induction false} RunFits(room: Room, ops: seq<Op>, n: nat)
    requires n <= |ops| && forall i :: 0 <= i < |ops| ==> Ordinary(ops[i])
    requires room.idxlen + |ops| * MAX_REC <= PTR_MAX && room.datlen + |ops| * DATLEN_MAX <= PTR_MAX
    ensures var r := RunRoom(room, ops[..n]);
      r.idxlen <= room.idxlen + n * MAX_REC && r.datlen <= room.datlen + n * DATLEN_MAX
  {
    hide StepRoom, Ordinary;
    if n > 0 {
      RunFits(room, ops, n - 1);
      assert ops[..n][..n - 1] == ops[..n - 1] && ops[..n][n - 1] == ops[n - 1];
      StepFits(RunRoom(room, ops[..n - 1]), ops[n - 1]);
    }
  }

  /** With ordinary stores and room for them below the largest pointer, every operation returns. */
  lemma {:induction false} RoomSuffices(room: Room, ops: seq<Op>, n: nat)
    requires n <= |ops| && forall i :: 0 <= i < |ops| ==> Ordinary(ops[i])
    requires room.idxlen + |ops| * MAX_REC <= PTR_MAX && room.datlen + |ops| * DATLEN_MAX <= PTR_MAX
    ensures Returns(room, ops, n) == |ops|
    decreases |ops| - n
  {
    hide Ends, Ordinary;
    if n < |ops| {
      RunFits(room, ops, n);
      StepFits(RunRoom(room, ops[..n]), ops[n]);
      RoomSuffices(room, ops, n + 1);
    }
  }
}
