/**
 * The server side of a stream: from a connection request through queueing,
 * assignment, attempts, errors and retries to an established or closed
 * connection. What other parts answer (load balancing, the connection layer,
 * timers, the client) is given to each step.
 */
module BackendConn {
  import opened Division
  import opened Options

  datatype State = INI | REQ | QUE | TAR | ASS | CON | CER | RDY | EST | DIS | CLO

  type Server = nat

  datatype Assign = AssignOk | AssignFull | AssignNone | AssignQueued | AssignError

  /** What assign_server_and_queue answers: a status, the target it leaves, and whether that is marked assigned. */
  datatype Answer = Answer(status: Assign, target: Option<Server>, marked: bool)

  /** What pendconn_dequeue brings back: the flags kept with the entry, and the server that picked it, if one did. */
  datatype Dequeued = Dequeued(marked: bool, direct: bool, picked: Option<Server>)

  /**
   * connect_server: refused before the session is counted, with an internal
   * error or a retryable one; or begun, in the state it leaves, with an error
   * afterwards when the multiplexer cannot be created.
   */
  datatype Connect = Refused(internal: bool) | Begun(state: State, muxFails: bool)

  /** The flags that are looked at: the client, the connection, the timers. */
  datatype World = World(abort: bool, error: bool, expired: bool, wroteData: bool)

  /**
   * What a retry looks at: the certificate error, whether the endpoint can be
   * reset, whether the server is down, whether requests are hashed to servers,
   * whether one server at most is active, and whether the connection was reused.
   */
  datatype Cer = Cer(sniMismatch: bool, canReset: bool, down: bool, hashed: bool, oneServer: bool, reused: bool)

  /** Every so many retries, counted from the first or, below zero, back from the last. */
  predicate DueByCount(retries: int, maxRetries: int, after: int) {
    || (after > 0 && retries % after == 0)
    || (after < 0 && maxRetries + 1 + after != 0 && retries % (maxRetries + 1 + after) == 0)
  }

  /** Reasons to try another server. */
  predicate Due(c: Cer, retries: int, maxRetries: int, after: int, direct: bool) {
    c.down || DueByCount(retries, maxRetries, after) || (!direct && !c.oneServer && !c.hashed)
  }

  /** An interval of -1, which is the default, means the last retry; 1 means every retry; 0 means none. */
  lemma DueOnLast(retries: int, maxRetries: int)
    requires 1 <= retries <= maxRetries
    ensures DueByCount(retries, maxRetries, -1) <==> retries == maxRetries
    ensures DueByCount(retries, maxRetries, 1) && !DueByCount(retries, maxRetries, 0)
  {
    if retries < maxRetries {
      DivUnique(retries, maxRetries, 0, retries);
    } else {
      DivUnique(retries, maxRetries, 1, 0);
    }
    DivUnique(retries, 1, retries, 0);
  }

  function ShareOf(share: map<Server, int>, v: Server): int { if v in share then share[v] else 0 }

  /** The session is counted on the current server, once, exactly when the flag says so. */
  ghost predicate CountedOnce(counted: bool, target: Option<Server>, share: map<Server, int>) {
    && (counted ==> target.Some?)
    && forall v: Server :: ShareOf(share, v) == if counted && target == Some(v) then 1 else 0
  }

  function AfterAssign(a: Assign): State { if a == AssignOk then ASS else if a == AssignQueued then QUE else CLO }

  /** The flags of a stream that names its server: kept, or both cleared by a redispatch. */
  predicate Flags(cleared: bool, direct: bool, hasServer: bool, direct': bool, hasServer': bool) {
    direct' == (direct && !cleared) && hasServer' == (hasServer && !cleared)
  }

  class BackStream {
    const maxRetries: int
    const redispatchAllowed: bool
    const retryOnConnFailure: bool
    const redispatchAfter: int
    var state: State
    var retries: int
    var target: Option<Server>
    var counted: bool
    var hasServer: bool
    var direct: bool
    var forcePersist: bool
    /** For the proof: calls of connect_server since the request, and this stream's share of each server's cur_sess. */
    ghost var attempts: nat
    ghost var share: map<Server, int>

    ghost function Limit(): int
      reads this
    {
      (if maxRetries > 0 then maxRetries else 0) + 1
    }

    ghost predicate Counted()
      reads this
    {
      CountedOnce(counted, target, share)
    }

    ghost predicate Valid()
      reads this
    {
      && Counted() && retries < Limit() && attempts <= Limit() && (state != CLO ==> retries >= 0)
      && (state in {INI, REQ, QUE, TAR, ASS} ==> !counted)
      && (state == INI ==> attempts == 0)
      && (state in {REQ, QUE, TAR, ASS} ==> attempts <= retries)
      && (state in {CON, RDY, CER, EST, DIS} ==> attempts <= retries + 1)
      && (state == CLO ==> attempts <= retries + 1 || retries >= maxRetries)
    }

    constructor (maxRetries: int, redispatchAllowed: bool, retryOnConnFailure: bool, redispatchAfter: int)
      ensures Valid() && state == INI && attempts == 0 && this.maxRetries == maxRetries
    {
      this.maxRetries, this.redispatchAllowed := maxRetries, redispatchAllowed;
      this.retryOnConnFailure, this.redispatchAfter := retryOnConnFailure, redispatchAfter;
      state, retries, target, counted, hasServer, direct, forcePersist := INI, 0, None, false, false, false, false;
      attempts, share := 0, map[];
    }

    /** A request, perhaps with a server that a cookie names; or nothing more to send. */
    method Request(shut: bool, named: Option<Server>, forcePersist: bool)
      requires Valid() && state == INI
      modifies this
      ensures Valid() && state == (if shut then CLO else REQ) && attempts == 0
      ensures !shut ==> target == named && direct == hasServer == named.Some?
    {
      if shut {
        state := CLO;
        return;
      }
      state, retries, this.forcePersist := REQ, 0, forcePersist;
      target, direct, hasServer := named, named.Some?, named.Some?;
    }

    /** Count the session on the current server. */
    method Enter()
      requires Counted() && !counted
      modifies this`counted, this`share
      ensures Counted() && counted == target.Some?
    {
      if target.Some? {
        counted := true;
        share := share[target.value := ShareOf(share, target.value) + 1];
      }
    }

    /** Take it off again, if it was counted. */
    method Leave()
      requires Counted()
      modifies this`counted, this`share
      ensures Counted() && !counted
    {
      if target.Some? && counted {
        counted := false;
        ghost var share0 := share;
        share := share[target.value := ShareOf(share, target.value) - 1];
        forall v: Server ensures ShareOf(share, v) == 0 {
          assert ShareOf(share0, v) == if target == Some(v) then 1 else 0;
        }
      }
    }

    /** srv_redispatch_connect: a second assignment only for a full server that is not forced. */
    method Redispatch(first: Answer, second: Answer) returns (failed: bool, calls: nat)
      requires Valid() && state == REQ
      modifies this`state, this`target, this`direct, this`hasServer
      ensures Valid() && attempts == old(attempts) && (state == REQ || (state == QUE && failed))
      ensures calls <= 2
      ensures calls == 2 <==> first.status == AssignFull && old(direct) && !forcePersist && redispatchAllowed
      ensures !failed <==> (if calls == 2 then second else first).status == AssignOk
      ensures state == QUE <==> (if calls == 2 then second else first).status == AssignQueued
      ensures target == (if calls == 2 then second else first).target
      ensures hasServer == (!failed || (if calls == 2 then second else first).marked)
    {
      var answer := first;
      calls := 0;
      while true
        invariant calls <= 1 && Valid() && state == REQ && attempts == old(attempts)
        invariant calls == 0 ==> answer == first && direct == old(direct)
        invariant calls == 1 ==>
          answer == second && !direct && first.status == AssignFull && old(direct) && !forcePersist && redispatchAllowed
        decreases 2 - calls
      {
        calls := calls + 1;
        target, hasServer := answer.target, answer.marked || answer.status == AssignOk;
        if answer.status == AssignOk {
          return false, calls;
        }
        if answer.status == AssignFull && direct && !forcePersist && redispatchAllowed {
          direct, hasServer := false, false;
          answer := second;
          continue;
        }
        if answer.status == AssignQueued {
          state := QUE;
        }
        return true, calls;
      }
    }

    /** The second answer counts when the first server is full and the stream may leave it. */
    function LastAnswer(first: Answer, second: Answer, direct: bool): Answer
      reads this
    {
      if first.status == AssignFull && direct && !forcePersist && redispatchAllowed then second else first
    }

    /** An applet is created at once, or not; anything else needs a server. */
    method HandleReq(applet: Option<bool>, first: Answer, second: Answer)
      requires Valid()
      modifies this`state, this`target, this`direct, this`hasServer
      ensures Valid() && attempts == old(attempts)
      ensures old(state) != REQ ==> state == old(state)
      ensures old(state) == REQ && applet.Some? ==> state == if applet.value then RDY else CLO
      ensures old(state) == REQ && applet.None? ==>
        var answer := LastAnswer(first, second, old(direct));
        && state == AfterAssign(answer.status) && target == answer.target
        && hasServer == (answer.status == AssignOk || answer.marked)
    {
      if state != REQ {
        return;
      }
      if applet.Some? {
        target := None;
        state := if applet.value then RDY else CLO;
        return;
      }
      var failed, calls := Redispatch(first, second);
      if failed {
        if state != QUE {
          state := CLO;
        }
        return;
      }
      state := ASS;
    }

    /** stream_choose_redispatch on the n-th retry: the server is left when it may be and when that is due. */
    predicate Leaves(c: Cer, n: int, direct: bool)
      reads this
    {
      target.Some? && redispatchAllowed && !forcePersist && Due(c, n, maxRetries, redispatchAfter, direct)
    }

    /** A new request that forgets the server, or another attempt on it. */
    method ChooseRedispatch(c: Cer)
      modifies this`state, this`direct, this`hasServer
      ensures state == REQ <==>
        && target.Some? && redispatchAllowed && !forcePersist
        && (c.down || DueByCount(retries, maxRetries, redispatchAfter)
            || (!old(direct) && !c.oneServer && !c.hashed))
      ensures state in {REQ, ASS} && Flags(state == REQ, old(direct), old(hasServer), direct, hasServer)
    {
      if target.Some? && redispatchAllowed && !forcePersist && Due(c, retries, maxRetries, redispatchAfter, direct) {
        direct, hasServer := false, false;
        state := REQ;
      } else {
        state := ASS;
      }
    }

    /** back_handle_st_cer: give up, or spend a retry. */
    method HandleCer(w: World, c: Cer)
      requires Valid() && state == CER
      modifies this`state, this`retries, this`counted, this`share, this`direct, this`hasServer
      ensures Valid() && state in {CLO, TAR, ASS, REQ} && attempts == old(attempts) && !counted
      ensures state == CLO <==>
        old(retries) >= maxRetries || (c.sniMismatch && w.error && old(target).Some?) || !retryOnConnFailure ||
          !c.canReset
      ensures state != CLO ==> retries == old(retries) + 1 <= maxRetries
      ensures state != CLO ==>
        (state == TAR <==>
         w.error && !c.reused &&
         (c.oneServer || !Leaves(c, old(retries) + 1, old(direct))))
      ensures state != CLO && state != TAR ==> (state == REQ <==> Leaves(c, old(retries) + 1, old(direct)))
      ensures state == REQ ==> !direct && !hasServer
      ensures Flags(state != CLO && Leaves(c, old(retries) + 1, old(direct)), old(direct), old(hasServer), direct,
                    hasServer)
    {
      hide DueByCount;
      var mustTar := w.error;
      if target.Some? {
        Leave();
        if w.error && c.sniMismatch {
          retries := maxRetries;
        }
      }
      if retries >= maxRetries || !retryOnConnFailure {
        state := CLO;
        return;
      }
      if !c.canReset {
        state := CLO;
        return;
      }
      retries := retries + 1;
      ChooseRedispatch(c);
      if mustTar && (state == ASS || c.oneServer) && !c.reused {
        state := TAR;
      }
    }

    /** The assigned state: connect, unless the client has gone. */
    method Attempt(w: World, connect: Connect, c: Cer)
      requires Valid() && state == ASS && (connect.Begun? ==> connect.state in {CON, RDY, EST})
      modifies this`state, this`retries, this`counted, this`share, this`direct, this`hasServer, this`attempts
      ensures Valid() && attempts == old(attempts) + if w.abort then 0 else 1
      ensures w.abort ==> state == CLO
      ensures !w.abort && connect.Begun? ==>
        state == (if connect.muxFails then CLO else connect.state) && counted == target.Some?
      ensures !w.abort && connect.Refused? && connect.internal ==> state == CLO
      ensures !w.abort && connect == Refused(false) ==>
        && (state == CLO <==> old(retries) >= maxRetries || !retryOnConnFailure || !c.canReset)
        && (state != CLO ==>
              && retries == old(retries) + 1
              && state == if Leaves(c, retries, old(direct)) then REQ else ASS)
        && !counted
        && Flags(state == REQ, old(direct), old(hasServer), direct, hasServer)
      ensures w.abort || connect != Refused(false) ==>
        retries == old(retries) && direct == old(direct) && hasServer == old(hasServer)
    {
      hide Leaves, CountedOnce;
      if w.abort {
        state := CLO;
        return;
      }
      attempts := attempts + 1;
      match connect {
        case Begun(st, muxFails) =>
          state := st;
          Enter();
          if muxFails {
            state := CLO;
          }
        case Refused(internal) =>
          if internal {
            state := CLO;
            return;
          }
          state := CER;
          HandleCer(w.(error := false), c);
      }
    }

    /** The queued state: out of the queue with what the entry brings, or still waiting. */
    method Dequeue(w: World, dequeued: Option<Dequeued>)
      requires Valid() && state == QUE
      modifies this`state, this`target, this`direct, this`hasServer
      ensures Valid()
      ensures dequeued.Some? ==>
        && state == (if dequeued.value.marked || dequeued.value.picked.Some? then ASS else REQ)
        && hasServer == (state == ASS) && direct == dequeued.value.direct
        && target == (if dequeued.value.picked.Some? then dequeued.value.picked else old(target))
      ensures dequeued.None? ==>
        state == (if w.expired || w.abort then CLO else QUE) && target == old(target) && hasServer == old(hasServer)
    {
      if dequeued.Some? {
        direct, hasServer := dequeued.value.direct, dequeued.value.marked;
        if dequeued.value.picked.Some? {
          target, hasServer := dequeued.value.picked, true;
        }
        state := if hasServer then ASS else REQ;
      } else if w.expired || w.abort {
        state := CLO;
      }
    }

    /** back_try_conn_req: in ASS, an attempt; in QUE and TAR, wait, give up or go on. */
    method TryConnReq(w: World, connect: Connect, c: Cer, dequeued: Option<Dequeued>)
      requires Valid() && (connect.Begun? ==> connect.state in {CON, RDY, EST})
      modifies this`state, this`retries, this`target, this`counted, this`share, this`direct, this`hasServer,
        this`attempts
      ensures Valid() && attempts <= old(attempts) + 1
      ensures attempts == old(attempts) + 1 <==> old(state) == ASS && !w.abort
      ensures old(state) == ASS && w.abort ==> state == CLO
      ensures old(state) == ASS && !w.abort && connect.Begun? ==>
        state == (if connect.muxFails then CLO else connect.state) && counted == target.Some?
      ensures old(state) == ASS && !w.abort && connect.Refused? && connect.internal ==> state == CLO
      ensures old(state) == ASS && !w.abort && connect == Refused(false) ==>
        && (state == CLO <==> old(retries) >= maxRetries || !retryOnConnFailure || !c.canReset)
        && (state != CLO ==>
              && retries == old(retries) + 1
              && state == if Leaves(c, retries, old(direct)) then REQ else ASS)
        && !counted && target == old(target)
        && Flags(state == REQ, old(direct), old(hasServer), direct, hasServer)
      ensures old(state) == ASS && (w.abort || connect != Refused(false)) ==>
        retries == old(retries) && target == old(target) && direct == old(direct) && hasServer == old(hasServer)
      ensures old(state) in {QUE, TAR} ==> retries == old(retries) && !counted
      ensures old(state) == TAR ==> target == old(target) && direct == old(direct) && hasServer == old(hasServer)
      ensures old(state) !in {ASS, QUE, TAR} ==> state == old(state) && retries == old(retries)
      ensures old(state) == QUE && dequeued.Some? ==>
        && state == (if dequeued.value.marked || dequeued.value.picked.Some? then ASS else REQ)
        && hasServer == (state == ASS) && direct == dequeued.value.direct
        && target == (if dequeued.value.picked.Some? then dequeued.value.picked else old(target))
      ensures old(state) == QUE && dequeued.None? ==>
        state == (if w.expired || w.abort then CLO else QUE) && target == old(target) && hasServer == old(hasServer)
      ensures old(state) == TAR ==>
        state == if w.abort then CLO else if w.expired then (if hasServer then ASS else REQ) else TAR
    {
      hide Leaves, CountedOnce;
      if state == ASS {
        Attempt(w, connect, c);
      } else if state == QUE {
        Dequeue(w, dequeued);
      } else if state == TAR {
        if w.abort {
          state := CLO;
        } else if w.expired {
          state := if hasServer then ASS else REQ;
        }
      }
    }

    method HandleCon(w: World)
      requires Valid() && state == CON
      modifies this`state
      ensures Valid() && (state == DIS <==> w.abort) && (state == CER <==> !w.abort && (w.expired || w.error))
      ensures state == CON <==> !w.abort && !w.expired && !w.error
    {
      if w.abort {
        state := DIS;
      } else if w.expired || w.error {
        state := CER;
      }
    }

    method HandleRdy(w: World)
      requires Valid() && state == RDY
      modifies this`state
      ensures Valid() && (state == DIS <==> !w.wroteData && w.abort) &&
        (state == CER <==> !w.wroteData && !w.abort && w.error)
      ensures state == EST <==> w.wroteData || (!w.abort && !w.error)
    {
      if !w.wroteData {
        if w.abort {
          state := DIS;
          return;
        }
        if w.error {
          state := CER;
          return;
        }
      }
      state := EST;
    }

    /** The connection layer reports success. */
    method BecomeReady()
      requires Valid() && state == CON
      modifies this`state
      ensures Valid() && state == RDY
    {
      state := RDY;
    }

    /** The server side was released. */
    method Released()
      requires Valid() && state == DIS
      modifies this`state, this`counted, this`share
      ensures Valid() && state == CLO && !counted && attempts == old(attempts)
    {
      state := CLO;
      if target.Some? {
        Leave();
      }
    }

    /** The connection is shut down: what is connected, connecting, waiting or failed is released. */
    method Shut()
      requires Valid()
      modifies this`state
      ensures Valid() && state == if old(state) in {CON, RDY, EST, CER, QUE, TAR} then DIS else old(state)
    {
      if state in {CON, RDY, EST, CER, QUE, TAR} {
        state := DIS;
      }
    }

    /**
     * do_l7_retry: after a bad response the request is tried again, while
     * retries are left. It also fails, with the retry spent, when the endpoint
     * cannot be reset.
     */
    method RetryRequest(c: Cer) returns (ok: bool)
      requires Valid() && state in {EST, CLO}
      modifies this`state, this`retries, this`counted, this`share, this`direct, this`hasServer
      ensures Valid() && attempts == old(attempts)
      ensures ok <==> old(retries) < maxRetries && c.canReset
      ensures old(retries) >= maxRetries ==>
        && state == old(state) && retries == old(retries) && counted == old(counted)
        && direct == old(direct) && hasServer == old(hasServer)
      ensures old(retries) < maxRetries ==> state in {REQ, ASS} && retries == old(retries) + 1 && !counted
      ensures old(retries) < maxRetries ==>
        && (state == REQ <==> Leaves(c, retries, old(direct)))
        && Flags(state == REQ, old(direct), old(hasServer), direct, hasServer)
    {
      hide DueByCount;
      if retries >= maxRetries {
        return false;
      }
      retries := retries + 1;
      if target.Some? {
        Leave();
      }
      ChooseRedispatch(c);
      return c.canReset;
    }

    /** The end of the stream. */
    method Free()
      requires Valid()
      modifies this`counted, this`share
      ensures Counted() && !counted && forall v: Server :: ShareOf(share, v) == 0
    {
      if target.Some? {
        Leave();
      }
    }
  }

  /** One call by the stream's task, with all that it may find; a shutdown; or a retry for the response. */
  datatype Event =
    | Task(w: World, connect: Connect, cer: Cer, dequeued: Option<Dequeued>, applet: Option<bool>,
           first: Answer, second: Answer, ready: bool, shut: bool, named: Option<Server>, forcePersist: bool)
    | Shutdown
    | BadResponse(cer: Cer)

  /** What connect_server can leave behind when it has begun. */
  predicate Sane(e: Event) { e.Task? && e.connect.Begun? ==> e.connect.state in {CON, RDY, EST} }

  /** Whether a stream with these retries gives up after a failed attempt. */
  predicate GivesUp(retries: int, maxRetries: int, onFailure: bool, c: Cer) {
    retries >= maxRetries || !onFailure || !c.canReset
  }

  /** The state after a task in states that look at the client, the connection and the timers only. */
  function Settled(state: State, w: World, ready: bool): State {
    match state
    case CON => if ready then RDY else if w.abort then DIS else if w.expired || w.error then CER else CON
    case RDY => if w.wroteData then EST else if w.abort then DIS else if w.error then CER else EST
    case DIS => CLO
    case _ => state
  }

  /** The handler that the stream task calls in the current state. */
  method Dispatch(s: BackStream, e: Event)
    requires s.Valid() && Sane(e)
    modifies s
    ensures s.Valid() && s.attempts <= old(s.attempts) + 1
    ensures s.attempts == old(s.attempts) + 1 <==> e.Task? && old(s.state) == ASS && !e.w.abort
    ensures e.Shutdown? ==>
      s.state == if old(s.state) in {CON, RDY, EST, CER, QUE, TAR} then DIS else old(s.state)
    ensures e.BadResponse? ==>
      s.state == if old(s.state) !in {EST, CLO} || old(s.retries) >= s.maxRetries then old(s.state)
        else if s.Leaves(e.cer, old(s.retries) + 1, old(s.direct)) then REQ
        else ASS
    ensures e.Task? && old(s.state) in {CON, RDY, DIS, EST, CLO} ==>
      s.state == Settled(old(s.state), e.w, e.ready) && s.retries == old(s.retries) && s.target == old(s.target)
    ensures e.Task? && old(s.state) == DIS ==> !s.counted
    ensures e.Task? && old(s.state) in {CON, RDY, EST, CLO} ==> s.counted == old(s.counted)
    ensures e.Task? && old(s.state) == INI ==> s.state == if e.shut then CLO else REQ
    ensures e.Task? && old(s.state) == REQ && e.applet.Some? ==> s.state == if e.applet.value then RDY else CLO
    ensures e.Task? && old(s.state) == REQ && e.applet.None? ==>
      s.state == AfterAssign(s.LastAnswer(e.first, e.second, old(s.direct)).status)
    ensures e.Task? && old(s.state) == QUE && e.dequeued.None? ==>
      s.state == if e.w.expired || e.w.abort then CLO else QUE
    ensures e.Task? && old(s.state) == QUE && e.dequeued.Some? ==>
      s.state == if e.dequeued.value.marked || e.dequeued.value.picked.Some? then ASS else REQ
    ensures e.Task? && old(s.state) == TAR ==>
      s.state == if e.w.abort then CLO else if !e.w.expired then TAR else if old(s.hasServer) then ASS else REQ
    ensures e.Task? && old(s.state) == ASS ==>
      s.state == if e.w.abort then CLO
        else match e.connect
          case Begun(st, muxFails) => if muxFails then CLO else st
          case Refused(internal) =>
            if internal || GivesUp(old(s.retries), s.maxRetries, s.retryOnConnFailure, e.cer) then CLO
            else if s.Leaves(e.cer, old(s.retries) + 1, old(s.direct)) then REQ
            else ASS
    ensures e.Task? && old(s.state) == CER ==>
      var leaves := s.Leaves(e.cer, old(s.retries) + 1, old(s.direct));
      (s.state != CLO ==> s.retries == old(s.retries) + 1) &&
      s.state ==
      if GivesUp(old(s.retries), s.maxRetries, s.retryOnConnFailure, e.cer) ||
        (e.cer.sniMismatch && e.w.error && s.target.Some?) then CLO
      else if e.w.error && !e.cer.reused && (e.cer.oneServer || !leaves) then TAR
      else if leaves then REQ
      else ASS
  {
    hide BackStream.Valid, BackStream.Counted, BackStream.Leaves;
    match e {
      case Shutdown => s.Shut();
      case BadResponse(cer) =>
        if s.state == EST || s.state == CLO {
          var ok := s.RetryRequest(cer);
        }
      case Task(w, connect, cer, dequeued, applet, first, second, ready, shut, named, forcePersist) =>
        match s.state {
          case INI => s.Request(shut, named, forcePersist);
          case REQ => s.HandleReq(applet, first, second);
          case QUE => s.TryConnReq(w, connect, cer, dequeued);
          case TAR => s.TryConnReq(w, connect, cer, dequeued);
          case ASS => s.TryConnReq(w, connect, cer, dequeued);
          case CON => if ready { s.BecomeReady(); } else { s.HandleCon(w); }
          case RDY => s.HandleRdy(w);
          case CER => s.HandleCer(w, cer);
          case DIS => s.Released();
          case EST =>
          case CLO =>
        }
    }
  }

  /**
   * Whatever happens up to any point of the stream's life, there are at most
   * conn_retries + 1 attempts, and the session counts once on its server exactly
   * when the flag says so.
   */
  method Drive(maxRetries: int, redispatchAllowed: bool, retryOnConnFailure: bool, redispatchAfter: int,
      events: seq<Event>)
      returns (s: BackStream)
    requires forall i :: 0 <= i < |events| ==> Sane(events[i])
    ensures fresh(s) && s.Valid() && s.maxRetries == maxRetries
    ensures s.attempts <= (if maxRetries > 0 then maxRetries else 0) + 1
    ensures CountedOnce(s.counted, s.target, s.share)
  {
    s := new BackStream(maxRetries, redispatchAllowed, retryOnConnFailure, redispatchAfter);
    for i := 0 to |events|
      invariant s.Valid() && fresh(s) && s.maxRetries == maxRetries
    {
      assert Sane(events[i]);
      Dispatch(s, events[i]);
    }
  }

  /** And wherever the stream ends, it leaves no server's count of sessions changed. */
  method WholeLife(maxRetries: int, redispatchAllowed: bool, retryOnConnFailure: bool, redispatchAfter: int,
      events: seq<Event>)
      returns (s: BackStream)
    requires forall i :: 0 <= i < |events| ==> Sane(events[i])
    ensures fresh(s) && s.attempts <= (if maxRetries > 0 then maxRetries else 0) + 1
    ensures !s.counted && forall v: Server :: ShareOf(s.share, v) == 0
  {
    s := Drive(maxRetries, redispatchAllowed, retryOnConnFailure, redispatchAfter, events);
    s.Free();
  }
}
