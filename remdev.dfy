/**
 * The DDX-RPC connection core (`RemDev`): the correlation table of outgoing requests, request
 * deadlines, the three registration flags, the lifecycle (`closed`, registration deadline,
 * disconnect notification) and the send side. Wall-clock time is a parameter `now` in
 * milliseconds. Handler liveness (`QPointer` auto-nulling) is a boolean in each entry.
 * What the connection writes is recorded in `outbox`, what it hands to requesters' handlers
 * in `delivered`, and its `deviceDisconnected` signals in `disconnects`.
 */
module RemDevCore {
  import opened Wrappers
  import opened JsonRpc
  import Sockets

  /** A locally generated request id. */
  type LocalId = int

  datatype DisconnectReason =
    | UnknownReason
    | ShuttingDown
    | Restarting
    | FatalError
    | ConnectionTerminated
    | RegistrationTimeout
    | BufferOverflow
    | StreamClosed
    | EncryptionRequired

  // ---------------------------------------------------------------------------------------
  // Registration state: a bitmask of three independent flags

  type RegState = bv8

  const UnregisteredState: RegState := 0x0
  const RegSentFlag: RegState := 0x1
  const RegAcceptedFlag: RegState := 0x2
  const RemoteRegAcceptedFlag: RegState := 0x4
  const RegisteredState: RegState := RegSentFlag | RegAcceptedFlag | RemoteRegAcceptedFlag

  predicate IsRegFlag(f: RegState) {
    f == RegSentFlag || f == RegAcceptedFlag || f == RemoteRegAcceptedFlag
  }

  predicate HasFlag(s: RegState, f: RegState) {
    s & f == f
  }

  /** The state reached from `s` by setting each flag of `flags` in turn. */
  function SetFlags(s: RegState, flags: seq<RegState>): RegState
    decreases |flags|
  {
    if flags == [] then s else SetFlags(s | flags[0], flags[1..])
  }

  /**
   * Setting flags only ever turns on the flags named: each flag is set afterwards exactly when
   * it was set before or was named, whatever the order, and no other bit changes.
   */
  lemma {:induction false} SetFlagsBits(s: RegState, flags: seq<RegState>)
    requires forall k :: 0 <= k < |flags| ==> IsRegFlag(flags[k])
    ensures HasFlag(SetFlags(s, flags), RegSentFlag) <==> HasFlag(s, RegSentFlag) || RegSentFlag in flags
    ensures HasFlag(SetFlags(s, flags), RegAcceptedFlag) <==> HasFlag(s, RegAcceptedFlag) || RegAcceptedFlag in flags
    ensures HasFlag(SetFlags(s, flags), RemoteRegAcceptedFlag) <==>
      HasFlag(s, RemoteRegAcceptedFlag) || RemoteRegAcceptedFlag in flags
    ensures SetFlags(s, flags) & !RegisteredState == s & !RegisteredState
    decreases |flags|
  {
    if flags != [] {
      SetFlagsBits(s | flags[0], flags[1..]);
      assert flags == [flags[0]] + flags[1..];
    }
  }

  /**
   * Starting unregistered, a connection reaches `RegisteredState` exactly when all three
   * flags have been set, in any order and with any repetition.
   */
  lemma RegisteredIffAllFlags(flags: seq<RegState>)
    requires forall k :: 0 <= k < |flags| ==> IsRegFlag(flags[k])
    ensures SetFlags(UnregisteredState, flags) == RegisteredState <==>
      RegSentFlag in flags && RegAcceptedFlag in flags && RemoteRegAcceptedFlag in flags
  {
    SetFlagsBits(UnregisteredState, flags);
  }

  // ---------------------------------------------------------------------------------------
  // RequestRef: one outstanding outgoing request

  /**
   * `handlerAlive` stands for the `QPointer` to the handler object still being non-null;
   * `time` is the issue time and `timeoutTime` the absolute deadline, 0 for none.
   */
  datatype RequestRef = RequestRef(
    handlerAlive: bool, handlerFn: string, methodName: string, time: int, timeoutTime: int)

  /** The `RequestRef` constructor: a timeout of 0 means no deadline. */
  function NewRequestRef(handlerAlive: bool, handlerFn: string, methodName: string, now: int, timeout: int): (r: RequestRef)
    ensures r.handlerAlive == handlerAlive && r.handlerFn == handlerFn && r.methodName == methodName && r.time == now
    ensures timeout == 0 ==> r.timeoutTime == 0
    ensures timeout != 0 ==> r.timeoutTime - r.time == timeout
  {
    RequestRef(handlerAlive, handlerFn, methodName, now, if timeout != 0 then now + timeout else 0)
  }

  /** `RequestRef::valid(checkTime)`; a `checkTime` of 0 skips the deadline test. */
  predicate IsLive(r: RequestRef, checkTime: int): (b: bool)
    ensures b ==> r.handlerAlive
    ensures checkTime == 0 || r.timeoutTime == 0 ==> (b <==> r.handlerAlive)
  {
    if checkTime != 0 && r.timeoutTime != 0 && r.timeoutTime < checkTime then false
    else r.handlerAlive
  }

  /** A deadline exists and `checkTime`, a real time, is past it. */
  predicate Expired(r: RequestRef, checkTime: int) {
    checkTime != 0 && r.timeoutTime != 0 && r.timeoutTime < checkTime
  }

  /** A request is no longer valid exactly when its handler is gone or its deadline passed. */
  lemma NotLiveIff(r: RequestRef, checkTime: int)
    ensures !IsLive(r, checkTime) <==> !r.handlerAlive || Expired(r, checkTime)
  {
  }

  /**
   * A request issued at a real time `now` with a positive timeout is live up to and including
   * its deadline `now + timeout` and not after; with a timeout of 0 it never expires.
   */
  lemma NewRequestLifetime(fn: string, methodName: string, now: int, timeout: int, checkTime: int)
    requires now >= 0 && timeout >= 0
    ensures timeout == 0 ==> NewRequestRef(true, fn, methodName, now, timeout).timeoutTime == 0
    ensures timeout == 0 ==> IsLive(NewRequestRef(true, fn, methodName, now, timeout), checkTime)
    ensures timeout > 0 ==> NewRequestRef(true, fn, methodName, now, timeout).timeoutTime == now + timeout
    ensures timeout > 0 && checkTime != 0 ==>
      (IsLive(NewRequestRef(true, fn, methodName, now, timeout), checkTime) <==> checkTime <= now + timeout)
    ensures !IsLive(NewRequestRef(false, fn, methodName, now, timeout), checkTime)
  {
  }

  // ---------------------------------------------------------------------------------------
  // Sweeping the correlation table

  /** Whether a sweep drops entry `r`: every entry when closing, else the ones no longer valid. */
  predicate Doomed(r: RequestRef, now: int, all: bool) {
    all || !IsLive(r, now)
  }

  /** The entries a sweep keeps. */
  function Survivors(table: map<LocalId, RequestRef>, now: int, all: bool): map<LocalId, RequestRef> {
    map k | k in table && !Doomed(table[k], now, all) :: table[k]
  }

  /** The ids whose handlers a sweep notifies: dropped entries whose handler is still alive. */
  function Notified(table: map<LocalId, RequestRef>, now: int, all: bool): set<LocalId> {
    set k | k in table && Doomed(table[k], now, all) && table[k].handlerAlive
  }

  /** The table part-way through a sweep: entries from `id` on are not yet visited. */
  function SweptBelow(table: map<LocalId, RequestRef>, now: int, all: bool, id: LocalId): map<LocalId, RequestRef> {
    map k | k in table && (id <= k || !Doomed(table[k], now, all)) :: table[k]
  }

  /** The ids a sweep has notified once it has visited every id below `id`. */
  function NotifiedBelow(table: map<LocalId, RequestRef>, now: int, all: bool, id: LocalId): set<LocalId> {
    set k | k in Notified(table, now, all) && k < id
  }

  /** Visiting id `id` removes it when doomed and notifies it when, in addition, its handler is alive. */
  lemma SweepStep(table: map<LocalId, RequestRef>, now: int, all: bool, id: LocalId)
    ensures id in SweptBelow(table, now, all, id) <==> id in table
    ensures id in table ==> SweptBelow(table, now, all, id)[id] == table[id]
    ensures id in table && Doomed(table[id], now, all) ==>
      SweptBelow(table, now, all, id + 1) == SweptBelow(table, now, all, id) - {id}
    ensures !(id in table && Doomed(table[id], now, all)) ==>
      SweptBelow(table, now, all, id + 1) == SweptBelow(table, now, all, id)
    ensures id !in NotifiedBelow(table, now, all, id)
    ensures id in table && Doomed(table[id], now, all) && table[id].handlerAlive ==>
      NotifiedBelow(table, now, all, id + 1) == NotifiedBelow(table, now, all, id) + {id}
    ensures !(id in table && Doomed(table[id], now, all) && table[id].handlerAlive) ==>
      NotifiedBelow(table, now, all, id + 1) == NotifiedBelow(table, now, all, id)
  {
  }

  /** Once every id of the table has been visited, the sweep has its final result. */
  lemma SweepDone(table: map<LocalId, RequestRef>, now: int, all: bool, id: LocalId)
    requires forall k :: k in table ==> k < id
    ensures SweptBelow(table, now, all, id) == Survivors(table, now, all)
    ensures NotifiedBelow(table, now, all, id) == Notified(table, now, all)
  {
  }

  /** The locally simulated error a handler receives when its request times out or is dropped. */
  function TimeoutResponse(code: int, id: LocalId, r: RequestRef): Response {
    Response(false, id, ErrorObject(code, "Request timed out", None), r.methodName)
  }

  /**
   * `ts` gives each id of `ids` exactly one simulated timeout error, for that id's entry of
   * `table`, and nothing else.
   */
  ghost predicate DeliversOnceEach(ts: seq<Response>, code: int, table: map<LocalId, RequestRef>, ids: set<LocalId>) {
    && (forall j :: 0 <= j < |ts| ==>
          ts[j].id in ids && ts[j].id in table && ts[j] == TimeoutResponse(code, ts[j].id, table[ts[j].id]))
    && (forall j1, j2 :: 0 <= j1 < j2 < |ts| ==> ts[j1].id != ts[j2].id)
    && (forall k :: k in ids ==> exists j :: 0 <= j < |ts| && ts[j].id == k)
  }

  /** Two sweeps in a row, over disjoint id sets of compatible tables, notify each id once. */
  lemma DeliversOnceEachAppend(ts1: seq<Response>, ts2: seq<Response>, code: int,
                               t1: map<LocalId, RequestRef>, t2: map<LocalId, RequestRef>,
                               a: set<LocalId>, b: set<LocalId>)
    requires DeliversOnceEach(ts1, code, t1, a) && DeliversOnceEach(ts2, code, t2, b)
    requires a !! b
    requires forall k :: k in t2 ==> k in t1 && t2[k] == t1[k]
    ensures DeliversOnceEach(ts1 + ts2, code, t1, a + b)
  {
    var ts := ts1 + ts2;
    forall k | k in a + b
      ensures exists j :: 0 <= j < |ts| && ts[j].id == k
    {
      if k in a {
        var j :| 0 <= j < |ts1| && ts1[j].id == k;
        assert ts[j] == ts1[j];
      } else {
        var j :| 0 <= j < |ts2| && ts2[j].id == k;
        assert ts[|ts1| + j] == ts2[j];
      }
    }
  }

  /** Notifying one more id extends a sweep's deliveries by exactly that id's error. */
  lemma DeliversOnceEachExtend(ts: seq<Response>, code: int, table: map<LocalId, RequestRef>, ids: set<LocalId>, k: LocalId)
    requires DeliversOnceEach(ts, code, table, ids)
    requires k in table && k !in ids
    ensures DeliversOnceEach(ts + [TimeoutResponse(code, k, table[k])], code, table, ids + {k})
  {
    var ts' := ts + [TimeoutResponse(code, k, table[k])];
    forall i | i in ids + {k}
      ensures exists j :: 0 <= j < |ts'| && ts'[j].id == i
    {
      if i == k {
        assert ts'[|ts|].id == i;
      } else {
        var j :| 0 <= j < |ts| && ts[j].id == i;
        assert ts'[j].id == i;
      }
    }
  }

  /** A simulated timeout error is a well-formed failed Response when the code is 32-bit. */
  lemma TimeoutResponseWellFormed(code: int, id: LocalId, r: RequestRef)
    requires -0x8000_0000 <= code < 0x8000_0000
    ensures WellFormedResponse(TimeoutResponse(code, id, r))
    ensures !TimeoutResponse(code, id, r).successful && TimeoutResponse(code, id, r).id == id
  {
    VerifyErrorObject(code, "Request timed out", None);
  }

  function FramesOf(f: Option<Message>): seq<Message> {
    if f.Some? then [f.value] else []
  }

  /** A line passed to `log`: tagged with the connection id, and marked when meant for the user. */
  datatype LogRecord = LogRecord(cid: string, msg: string, isAlert: bool)

  // ---------------------------------------------------------------------------------------

  class RemDev {
    /** The byte stream this connection runs over; `null` for a transport-less test device. */
    const transport: Sockets.Socket?
    /** The error code of a simulated timeout (`E_REQUEST_TIMEOUT`). */
    const requestTimeoutCode: int

    /** The correlation table: outstanding outgoing requests by their local id. */
    var reqs: map<LocalId, RequestRef>
    /** The last id handed out. */
    var lastId: LocalId
    var regState: RegState
    var registered: bool
    var closed: bool
    var registrationTimeoutTime: int

    /** Frames handed to the transport, oldest first. */
    var outbox: seq<Message>
    /** Responses queued to requesters' handlers, oldest first. */
    var delivered: seq<Response>
    /** `deviceDisconnected(this, reason, fromRemote)` emissions. */
    var disconnects: seq<(DisconnectReason, bool)>
    /** The connection id every log line is tagged with. */
    var cid: string
    /** Lines passed to `log`, oldest first. */
    var logLines: seq<LogRecord>

    /** The transport as a frame: empty for a transport-less device. */
    function TransportSet(): set<Sockets.Socket>
    {
      if transport == null then {} else {transport}
    }

    ghost predicate Valid()
      reads this
    {
      && 0 <= lastId
      && (forall id :: id in reqs ==> 0 < id <= lastId)
      && regState & !RegisteredState == 0
      && registered == (regState == RegisteredState)
      && |disconnects| <= 1
      && (closed <==> |disconnects| == 1)
      && (closed ==> reqs == map[])
      && -0x8000_0000 <= requestTimeoutCode < 0x8000_0000
      && (forall k :: 0 <= k < |delivered| ==> WellFormedResponse(delivered[k]))
    }

    constructor (transport: Sockets.Socket?, cid: string, now: int, registrationTimeout: int, requestTimeoutCode: int)
      requires -0x8000_0000 <= requestTimeoutCode < 0x8000_0000
      ensures Valid()
      ensures this.transport == transport && this.cid == cid && this.requestTimeoutCode == requestTimeoutCode
      ensures reqs == map[] && lastId == 0 && regState == UnregisteredState && !registered && !closed
      ensures registrationTimeoutTime == now + registrationTimeout
      ensures outbox == [] && delivered == [] && disconnects == [] && logLines == []
    {
      this.transport := transport;
      this.requestTimeoutCode := requestTimeoutCode;
      this.cid := cid;
      reqs := map[];
      lastId := 0;
      regState := UnregisteredState;
      registered := false;
      closed := false;
      registrationTimeoutTime := now + registrationTimeout;
      outbox := [];
      delivered := [];
      disconnects := [];
      logLines := [];
    }

    /** `log(msg, isAlert)`: one line tagged with the connection id; an alert is meant for the user. */
    method Log(msg: string, isAlert: bool)
      modifies this`logLines
      ensures logLines == old(logLines) + [LogRecord(cid, msg, isAlert)]
    {
      logLines := logLines + [LogRecord(cid, msg, isAlert)];
    }

    /**
     * `sendRequest`: on a closing connection returns -1 and sends nothing; otherwise takes the
     * next id, records the request under it and writes the request frame carrying that id.
     */
    method SendRequest(handlerAlive: bool, handlerFn: string, methodName: string, params: Option<Json>,
                       timeout: int, now: int) returns (id: LocalId)
      requires Valid()
      modifies this`reqs, this`lastId, this`outbox
      ensures Valid()
      ensures old(closed) ==> id == -1 && reqs == old(reqs) && lastId == old(lastId) && outbox == old(outbox)
      ensures !old(closed) ==>
        && id == old(lastId) + 1 && lastId == id && id !in old(reqs)
        && (forall k :: k in old(reqs) ==> k < id)
        && reqs == old(reqs)[id := NewRequestRef(handlerAlive, handlerFn, methodName, now, timeout)]
        && outbox == old(outbox) + [RequestMsg(methodName, JInt(id), params)]
    {
      if closed {
        id := -1;
        return;
      }
      lastId := lastId + 1;
      id := lastId;
      reqs := reqs[id := NewRequestRef(handlerAlive, handlerFn, methodName, now, timeout)];
      outbox := outbox + [RequestMsg(methodName, JInt(id), params)];
    }

    /** `sendResponse(req, result)`: a notification is released without writing anything. */
    method SendResponse(req: Request, result: Option<Json>)
      modifies this`outbox
      ensures outbox == old(outbox) + FramesOf(ResponseFrame(req, result))
    {
      outbox := outbox + FramesOf(ResponseFrame(req, result));
    }

    /** `sendResponse(id, result)`: a success response to a remote id, whose result is `true` when none is given. */
    method SendResponseTo(id: Json, result: Option<Json>)
      modifies this`outbox
      ensures outbox == old(outbox) + [SuccessMsg(id, result.GetOr(JBool(true)))]
      ensures result.None? ==> outbox[|outbox| - 1].result == JBool(true)
    {
      outbox := outbox + [SuccessMsg(id, result.GetOr(JBool(true)))];
    }

    /** `sendError(req, code, msg, data)`: a notification is released without writing anything. */
    method SendError(req: Request, code: int, message: string, data: Option<Json>)
      modifies this`outbox
      ensures outbox == old(outbox) + FramesOf(RequestErrorFrame(req, code, message, data))
      ensures req.IsRequest() ==> outbox == old(outbox) + [ErrorFrame(req.id, code, message, data)]
      ensures !req.IsRequest() ==> outbox == old(outbox)
    {
      outbox := outbox + FramesOf(RequestErrorFrame(req, code, message, data));
    }

    /** `sendError(id, code, msg, data)`: a missing id is sent as `null`. */
    method SendErrorTo(id: Option<Json>, code: int, message: string, data: Option<Json>)
      modifies this`outbox
      ensures outbox == old(outbox) + [ErrorFrame(id, code, message, data)]
    {
      outbox := outbox + [ErrorFrame(id, code, message, data)];
    }

    /** `sendNotification`: fire and forget; the correlation table is untouched. */
    method SendNotification(methodName: string, params: Option<Json>)
      modifies this`outbox
      ensures outbox == old(outbox) + [NotificationMsg(methodName, params)]
    {
      outbox := outbox + [NotificationMsg(methodName, params)];
    }

    /** Sets one registration flag; the connection is registered once all three are set. */
    method SetRegistrationFlag(f: RegState)
      requires Valid() && IsRegFlag(f)
      modifies this`regState, this`registered
      ensures Valid()
      ensures regState == SetFlags(old(regState), [f])
      ensures registered <==> regState == RegisteredState
    {
      regState := regState | f;
      registered := regState == RegisteredState;
    }

    /**
     * An incoming response for local request `id`: a matching entry is removed and, when its
     * handler is alive, the result or the verified error is queued to it. A response that
     * matches no entry (it may already have timed out) is logged and discarded.
     */
    method HandleResponse(m: Message)
      requires Valid() && (m.SuccessMsg? || m.ErrorMsg?)
      modifies this`reqs, this`delivered, this`logLines
      ensures Valid()
      ensures IsInt(m.id) && m.id.i in old(reqs) ==>
        var k := m.id.i;
        var ref := old(reqs)[k];
        && reqs == old(reqs) - {k}
        && delivered == old(delivered) +
             (if IsLive(ref, 0) && ResponseOf(k, ref.methodName, m).Some?
              then [ResponseOf(k, ref.methodName, m).value] else [])
      ensures !(IsInt(m.id) && m.id.i in old(reqs)) ==>
        && reqs == old(reqs) && delivered == old(delivered)
        && logLines == old(logLines) + [LogRecord(cid, "Response to an unknown request discarded", false)]
      ensures IsInt(m.id) && m.id.i in old(reqs) ==> logLines == old(logLines)
    {
      if IsInt(m.id) && m.id.i in reqs {
        Consume(m.id.i, m);
      } else {
        Log("Response to an unknown request discarded", false);
        assert Valid();
      }
    }

    /** The matched case of `handleResponse`: entry `k` leaves the table and its live handler hears `m`. */
    method Consume(k: int, m: Message)
      requires Valid() && k in reqs && (m.SuccessMsg? || m.ErrorMsg?)
      modifies this`reqs, this`delivered
      ensures Valid()
      ensures reqs == old(reqs) - {k}
      ensures delivered == old(delivered) +
        (if IsLive(old(reqs)[k], 0) && ResponseOf(k, old(reqs)[k].methodName, m).Some?
         then [ResponseOf(k, old(reqs)[k].methodName, m).value] else [])
    {
      var ref := reqs[k];
      reqs := reqs - {k};
      var r := ResponseOf(k, ref.methodName, m);
      if IsLive(ref, 0) && r.Some? {
        delivered := delivered + [r.value];
        assert delivered[|delivered| - 1] == r.value;
      }
    }

    /**
     * One pass over the correlation table: every doomed entry is removed, and each one whose
     * handler is alive gets exactly one simulated timeout error. Visiting order is arbitrary.
     */
    method Sweep(now: int, all: bool)
      requires Valid()
      modifies this`reqs, this`delivered
      ensures Valid()
      ensures reqs == Survivors(old(reqs), now, all)
      ensures old(delivered) <= delivered
      ensures DeliversOnceEach(delivered[|old(delivered)|..], requestTimeoutCode, old(reqs), Notified(old(reqs), now, all))
    {
      ghost var table := reqs;
      ghost var start := |delivered|;
      var id := 1;
      while id <= lastId
        invariant 1 <= id <= lastId + 1
        invariant reqs == SweptBelow(table, now, all, id)
        invariant old(delivered) <= delivered && start == |old(delivered)|
        invariant forall k :: 0 <= k < |delivered| ==> WellFormedResponse(delivered[k])
        invariant DeliversOnceEach(delivered[start..], requestTimeoutCode, table, NotifiedBelow(table, now, all, id))
      {
        SweepNext(table, start, now, all, id);
        id := id + 1;
      }
      SweepDone(table, now, all, id);
    }

    /** One turn of the sweep: the request with identifier `id` is timed out if it is doomed. */
    method SweepNext(ghost table: map<LocalId, RequestRef>, ghost start: nat, now: int, all: bool, id: LocalId)
      requires 1 <= id && start <= |delivered| && -0x8000_0000 <= requestTimeoutCode < 0x8000_0000
      requires reqs == SweptBelow(table, now, all, id)
      requires forall k :: 0 <= k < |delivered| ==> WellFormedResponse(delivered[k])
      requires DeliversOnceEach(delivered[start..], requestTimeoutCode, table, NotifiedBelow(table, now, all, id))
      modifies this`reqs, this`delivered
      ensures reqs == SweptBelow(table, now, all, id + 1)
      ensures old(delivered) <= delivered
      ensures forall k :: 0 <= k < |delivered| ==> WellFormedResponse(delivered[k])
      ensures DeliversOnceEach(delivered[start..], requestTimeoutCode, table, NotifiedBelow(table, now, all, id + 1))
    {
      SweepStep(table, now, all, id);
      if id in reqs && Doomed(reqs[id], now, all) {
        var ref := reqs[id];
        if ref.handlerAlive {
          TimeoutResponseWellFormed(requestTimeoutCode, id, ref);
          var t := TimeoutResponse(requestTimeoutCode, id, ref);
          DeliversOnceEachExtend(delivered[start..], requestTimeoutCode, table, NotifiedBelow(table, now, all, id), id);
          ghost var before := delivered;
          delivered := delivered + [t];
          assert delivered[start..] == before[start..] + [t];
        }
        reqs := reqs - {id};
      }
    }

    /** `NetDev::terminate`: the transport is disconnected whatever the reason. */
    method Terminate(reason: DisconnectReason, fromRemote: bool)
      modifies TransportSet()`state
      ensures transport != null ==> transport.state == Sockets.UnconnectedState
    {
      if transport != null {
        transport.DisconnectFromHost();
      }
    }

    /**
     * `close(reason, fromRemote)`: idempotent. The first call marks the connection closed,
     * fails every outstanding request with a simulated error, terminates the transport and
     * emits the single disconnect notification; later calls do nothing.
     */
    method Close(reason: DisconnectReason, fromRemote: bool) returns (emitted: bool)
      requires Valid()
      modifies this`closed, this`reqs, this`delivered, this`disconnects, TransportSet()`state
      ensures Valid() && closed
      ensures old(closed) ==>
        !emitted && reqs == old(reqs) && delivered == old(delivered) && disconnects == old(disconnects)
      ensures old(closed) && transport != null ==> transport.state == old(transport.state)
      ensures !old(closed) ==>
        && emitted && reqs == map[] && disconnects == [(reason, fromRemote)]
        && old(delivered) <= delivered
        && DeliversOnceEach(delivered[|old(delivered)|..], requestTimeoutCode, old(reqs), Notified(old(reqs), 0, true))
        && (transport != null ==> transport.state == Sockets.UnconnectedState)
    {
      if closed {
        emitted := false;
        return;
      }
      Sweep(0, true);
      assert forall k :: k in reqs ==> Doomed(reqs[k], 0, true);
      assert reqs == map[];
      closed := true;
      Terminate(reason, fromRemote);
      disconnects := disconnects + [(reason, fromRemote)];
      emitted := true;
    }

    /**
     * `timeoutPoll(now)`: removes every request that is no longer valid at `now`, giving each
     * live handler one simulated timeout error; then closes with `RegistrationTimeout` a
     * connection still unregistered past its registration deadline. That deadline always
     * applies: unlike request timeouts it cannot be disabled.
     */
    method TimeoutPoll(now: int)
      requires Valid()
      modifies this`closed, this`reqs, this`delivered, this`disconnects, TransportSet()`state
      ensures Valid()
      ensures old(delivered) <= delivered
      ensures var lapsed := !old(registered) && old(registrationTimeoutTime) < now;
        && (lapsed ==> closed && reqs == map[])
        && (lapsed && !old(closed) ==> disconnects == [(RegistrationTimeout, false)])
        && (lapsed ==> DeliversOnceEach(delivered[|old(delivered)|..], requestTimeoutCode, old(reqs),
                                        Notified(old(reqs), now, false) + Notified(Survivors(old(reqs), now, false), 0, true)))
        && (!lapsed ==> closed == old(closed) && disconnects == old(disconnects))
        && (lapsed && old(closed) ==> disconnects == old(disconnects))
        && (transport != null && (!lapsed || old(closed)) ==> transport.state == old(transport.state))
        && (transport != null && lapsed && !old(closed) ==> transport.state == Sockets.UnconnectedState)
        && (!lapsed ==> reqs == Survivors(old(reqs), now, false))
        && (!lapsed ==> DeliversOnceEach(delivered[|old(delivered)|..], requestTimeoutCode, old(reqs),
                                         Notified(old(reqs), now, false)))
    {
      Sweep(now, false);
      ghost var mid := delivered;
      ghost var swept := reqs;
      if !registered && registrationTimeoutTime < now {
        var _ := Close(RegistrationTimeout, false);
        if !old(closed) {
          assert delivered[|old(delivered)|..] == mid[|old(delivered)|..] + delivered[|mid|..];
          DeliversOnceEachAppend(mid[|old(delivered)|..], delivered[|mid|..], requestTimeoutCode,
                                 old(reqs), swept, Notified(old(reqs), now, false), Notified(swept, 0, true));
        } else {
          assert Survivors(old(reqs), now, false) == map[];
          assert Notified(swept, 0, true) == {};
        }
      }
    }
  }

  /**
   * Every live handler of a timed-out poll hears exactly once: the ids notified by the request
   * sweep and by the registration-timeout close together are exactly the table's live handlers.
   */
  lemma PollNotifiesEveryLiveHandler(table: map<LocalId, RequestRef>, now: int)
    ensures Notified(table, now, false) + Notified(Survivors(table, now, false), 0, true) ==
            set k | k in table && table[k].handlerAlive
    ensures Notified(table, now, false) !! Notified(Survivors(table, now, false), 0, true)
  {
    var live := set k | k in table && table[k].handlerAlive;
    forall k | k in live
      ensures k in Notified(table, now, false) + Notified(Survivors(table, now, false), 0, true)
    {
      if !Doomed(table[k], now, false) {
        assert k in Survivors(table, now, false);
      }
    }
  }
}
