/**
 * RAPI connections: a caller's request gets an id and a broker, the device calls back on a new
 * connection that carries the id, and the broker passes that connection's descriptor to the caller.
 */
module Connections {
  import opened Basics
  import opened Bytes
  import opened Wrappers

  /** A D-Bus invocation, and a connection made by the device. */
  type Call = nat
  type Conn = nat

  datatype Broker = Broker(id: u32, ctx: Option<Call>, conn: Option<Conn>, listening: bool)

  /** What has happened: requests received and answered, connections and the id each carried, the caller
      each id was issued for, the ids the device was asked to call back with (messages 5, 4, id written to
      the control connection), and the descriptors passed on. */
  datatype Seen = Seen(calls: set<Call>, replies: seq<Call>, conns: set<Conn>, carried: map<Conn, u32>,
                       issued: map<u32, Call>, asked: set<u32>, passed: seq<(u32, Conn)>)

  /** pending: connections whose id has not arrived, and whether the read for it is still in flight. */
  datatype Table = Table(reqId: u32, requests: map<u32, Broker>, pending: map<Conn, bool>, aborted: bool, seen: Seen)

  function Start(): Table {
    Table(0, map[], map[], false, Seen({}, [], {}, map[], map[], {}, []))
  }

  datatype Event =
    // a call of RequestConnection: whether the device is CONNECTED, and the message to it can be written
    | Request(call: Call, connected: bool, writes: bool)
    | ClientConnected(conn: Conn)
    | ClientRead(conn: Conn, numRead: int, id: u32, listens: bool)
    | Incoming(id: u32, passes: bool)

  /** Callers and connections are new objects; a read ends once; a broker without a service hears of no client. */
  predicate Enabled(t: Table, e: Event) {
    && !t.aborted
    && match e
       case Request(call, _, _) => call !in t.seen.calls && t.reqId < 0xFFFF_FFFF
       case ClientConnected(conn) => conn !in t.seen.conns
       case ClientRead(conn, n, _, _) => conn in t.pending && t.pending[conn] && -1 <= n <= 4
       case Incoming(id, _) => id in t.requests && t.requests[id].listening
  }

  function Reply(s: Seen, call: Call): Seen {
    s.(replies := s.replies + [call])
  }

  /** When the message cannot be written the caller is told, but its broker stays in the table with it. */
  function RequestCall(t: Table, call: Call, connected: bool, writes: bool): Table {
    var s := t.seen.(calls := t.seen.calls + {call});
    if !connected then t.(seen := Reply(s, call))
    else
      var id := Wrap32(t.reqId + 1);
      var s1 := s.(issued := s.issued[id := call]);
      t.(reqId := id, requests := t.requests[id := Broker(id, Some(call), None, false)],
         seen := if writes then s1.(asked := s1.asked + {id}) else Reply(s1, call))
  }

  function TakeConnection(t: Table, id: u32, conn: Conn, listens: bool): Table
    requires id in t.requests
  {
    var b := t.requests[id];
    // the assertion conn == NULL
    if b.conn.Some? then t.(aborted := true)
    else
      t.(requests := t.requests[id := Broker(b.id, None, Some(conn), listens)],
         seen := if b.ctx.Some? then Reply(t.seen, b.ctx.value) else t.seen)
  }

  function ClientEvent(t: Table, conn: Conn, n: int, id: u32, listens: bool): Table {
    if n != 4 then t.(pending := t.pending[conn := false])
    else
      var t1 := t.(pending := t.pending - {conn}, seen := t.seen.(carried := t.seen.carried[conn := id]));
      if id in t.requests then TakeConnection(t1, id, conn, listens) else t1
  }

  /** `passes`: the descriptor reached the client.  The broker is dropped either way. */
  function Pass(t: Table, id: u32, passes: bool): Table
    requires id in t.requests
  {
    var b := t.requests[id];
    t.(requests := t.requests - {b.id},
       seen := if passes && b.conn.Some? then t.seen.(passed := t.seen.passed + [(id, b.conn.value)]) else t.seen)
  }

  function Step(t: Table, e: Event): Table
    requires Enabled(t, e)
  {
    match e
    case Request(call, connected, writes) => RequestCall(t, call, connected, writes)
    case ClientConnected(conn) =>
      t.(pending := t.pending[conn := true], seen := t.seen.(conns := t.seen.conns + {conn}))
    case ClientRead(conn, n, id, listens) => ClientEvent(t, conn, n, id, listens)
    case Incoming(id, passes) => Pass(t, id, passes)
  }

  // ---- Invariant ----

  predicate Open(t: Table, id: u32) {
    id in t.requests && t.requests[id].conn.None?
  }

  predicate Injective(m: map<u32, Call>) {
    forall i, j :: i in m && j in m && m[i] == m[j] ==> i == j
  }

  /** Ids are issued once each; a request keeps the caller its id was issued for until a connection comes. */
  ghost predicate TableInv(t: Table) {
    && (forall id: u32 :: id in t.seen.issued <==> 1 <= id <= t.reqId)
    && (forall id :: id in t.seen.asked ==> id in t.seen.issued)
    && (forall id :: id in t.requests ==> id in t.seen.issued && t.requests[id].id == id)
    && (forall id :: id in t.requests ==>
          t.requests[id].ctx == if Open(t, id) then Some(t.seen.issued[id]) else None)
    && (forall id :: id in t.requests && t.requests[id].listening ==> t.requests[id].conn.Some?)
    && (forall id :: id in t.seen.issued ==> t.seen.issued[id] in t.seen.calls)
    && Injective(t.seen.issued)
  }

  /** How often the caller an id was issued for has been answered: once if the message failed, once when a
      connection was taken. */
  function Answers(t: Table, id: u32): nat {
    Bit(id !in t.seen.asked) + Bit(!Open(t, id))
  }

  function Count(s: seq<Call>, c: Call): nat {
    multiset(s)[c]
  }

  /** How often each caller has been answered; one that was refused an id, once. */
  ghost predicate ReplyInv(t: Table) {
    && (forall c :: c in t.seen.replies ==> c in t.seen.calls)
    && (forall id :: id in t.seen.issued ==> Count(t.seen.replies, t.seen.issued[id]) == Answers(t, id))
    && (forall c :: c in t.seen.calls && c !in t.seen.issued.Values ==> Count(t.seen.replies, c) == 1)
  }

  /** A connection is with the broker whose id it carried, and leaves with it, once. */
  ghost predicate ConnInv(t: Table) {
    && (forall c :: c in t.pending || c in t.seen.carried ==> c in t.seen.conns)
    && (forall c :: c in t.pending ==> c !in t.seen.carried)
    && (forall id :: id in t.requests && t.requests[id].conn.Some? ==>
          t.requests[id].conn.value in t.seen.carried && t.seen.carried[t.requests[id].conn.value] == id)
    && (forall p :: p in t.seen.passed ==> p.1 in t.seen.carried && t.seen.carried[p.1] == p.0)
    && (forall p :: p in t.seen.passed ==> p.0 in t.seen.issued && p.0 !in t.requests)
    && (forall i, j :: 0 <= i < j < |t.seen.passed| ==> t.seen.passed[i].0 != t.seen.passed[j].0)
  }

  lemma InjectiveAdd(m: map<u32, Call>, id: u32, call: Call)
    requires Injective(m) && id !in m && forall i :: i in m ==> m[i] != call
    ensures Injective(m[id := call])
  {
  }

  lemma RequestKeepsTable(t: Table, call: Call, connected: bool, writes: bool)
    requires TableInv(t) && Enabled(t, Request(call, connected, writes))
    ensures TableInv(RequestCall(t, call, connected, writes))
  {
    hide Injective;
    if connected {
      var id, t1 := t.reqId + 1, RequestCall(t, call, connected, writes);
      InjectiveAdd(t.seen.issued, id, call);
      assert t1.reqId == id && t1.requests == t.requests[id := Broker(id, Some(call), None, false)];
      assert t1.seen.issued == t.seen.issued[id := call];
      assert id !in t.seen.issued && id !in t.requests;
    }
  }

  lemma RequestKeepsConns(t: Table, call: Call, connected: bool, writes: bool)
    requires TableInv(t) && ConnInv(t) && Enabled(t, Request(call, connected, writes))
    ensures ConnInv(RequestCall(t, call, connected, writes))
  {
    hide Injective;
  }

  lemma TakeKeepsTable(t: Table, id: u32, conn: Conn, listens: bool)
    requires TableInv(t) && id in t.requests
    ensures TableInv(TakeConnection(t, id, conn, listens))
  {
    hide Injective;
  }

  lemma ReadKeepsTable(t: Table, conn: Conn, n: int, id: u32, listens: bool)
    requires TableInv(t)
    ensures TableInv(ClientEvent(t, conn, n, id, listens))
  {
    hide Injective, TakeConnection;
    if n == 4 && id in t.requests {
      var t1 := t.(pending := t.pending - {conn}, seen := t.seen.(carried := t.seen.carried[conn := id]));
      TakeKeepsTable(t1, id, conn, listens);
    }
  }

  lemma ReadKeepsConns(t: Table, conn: Conn, n: int, id: u32, listens: bool)
    requires TableInv(t) && ConnInv(t) && Enabled(t, ClientRead(conn, n, id, listens))
    ensures ConnInv(ClientEvent(t, conn, n, id, listens))
  {
    hide Injective;
  }

  lemma PassKeeps(t: Table, id: u32, passes: bool)
    requires TableInv(t) && ConnInv(t) && Enabled(t, Incoming(id, passes))
    ensures TableInv(Pass(t, id, passes)) && ConnInv(Pass(t, id, passes))
  {
    hide Injective;
  }

  lemma CountOneMore(s: seq<Call>, c: Call, x: Call)
    ensures Count(s + [c], x) == Count(s, x) + Bit(x == c)
  {
  }

  lemma NotCounted(s: seq<Call>, c: Call)
    ensures Count(s, c) == 0 <==> c !in s
  {
  }

  lemma RequestKeepsReplies(t: Table, call: Call, connected: bool, writes: bool)
    requires TableInv(t) && ReplyInv(t) && Enabled(t, Request(call, connected, writes))
    ensures ReplyInv(RequestCall(t, call, connected, writes))
  {
    hide Injective, Count;
    var t1 := RequestCall(t, call, connected, writes);
    NotCounted(t.seen.replies, call);
    forall c ensures Count(t.seen.replies + [call], c) == Count(t.seen.replies, c) + Bit(c == call) {
      CountOneMore(t.seen.replies, call, c);
    }
    forall c | c in t1.seen.calls && c !in t1.seen.issued.Values ensures Count(t1.seen.replies, c) == 1 {
      if connected {
        assert t1.seen.issued[t.reqId + 1] == call;
        ValuesGrow(t.seen.issued, t.reqId + 1, call, c);
      }
    }
  }

  lemma ValuesGrow(m: map<u32, Call>, id: u32, call: Call, c: Call)
    requires id !in m
    ensures c in m.Values ==> c in m[id := call].Values
  {
    if c in m.Values {
      var i :| i in m && m[i] == c;
      assert m[id := call][i] == c;
    }
  }

  lemma TakeKeepsReplies(t: Table, id: u32, conn: Conn, listens: bool)
    requires TableInv(t) && ReplyInv(t) && id in t.requests
    ensures ReplyInv(TakeConnection(t, id, conn, listens))
  {
    hide Count;
    if Open(t, id) {
      forall c
        ensures Count(t.seen.replies + [t.seen.issued[id]], c)
             == Count(t.seen.replies, c) + Bit(c == t.seen.issued[id])
      {
        CountOneMore(t.seen.replies, t.seen.issued[id], c);
      }
    }
  }

  lemma ReadKeepsReplies(t: Table, conn: Conn, n: int, id: u32, listens: bool)
    requires TableInv(t) && ReplyInv(t)
    ensures ReplyInv(ClientEvent(t, conn, n, id, listens))
  {
    hide Injective, TakeConnection, Count;
    if n == 4 && id in t.requests {
      var t1 := t.(pending := t.pending - {conn}, seen := t.seen.(carried := t.seen.carried[conn := id]));
      TakeKeepsReplies(t1, id, conn, listens);
    }
  }

  lemma PassKeepsReplies(t: Table, id: u32, passes: bool)
    requires TableInv(t) && ReplyInv(t) && Enabled(t, Incoming(id, passes))
    ensures ReplyInv(Pass(t, id, passes))
  {
    hide Injective, Count;
  }

  ghost predicate Inv(t: Table) {
    TableInv(t) && ReplyInv(t) && ConnInv(t)
  }

  lemma KeepsInv(t: Table, e: Event)
    requires Inv(t) && Enabled(t, e)
    ensures Inv(Step(t, e))
  {
    hide RequestCall, ClientEvent, Pass, Injective;
    match e
    case Request(call, connected, writes) =>
      RequestKeepsTable(t, call, connected, writes);
      RequestKeepsConns(t, call, connected, writes);
      RequestKeepsReplies(t, call, connected, writes);
    case ClientConnected(conn) =>
      ConnectedKeeps(t, conn);
    case ClientRead(conn, n, id, listens) =>
      ReadKeepsTable(t, conn, n, id, listens);
      ReadKeepsConns(t, conn, n, id, listens);
      ReadKeepsReplies(t, conn, n, id, listens);
    case Incoming(id, passes) =>
      PassKeeps(t, id, passes);
      PassKeepsReplies(t, id, passes);
  }

  lemma ConnectedKeeps(t: Table, conn: Conn)
    requires Inv(t) && Enabled(t, ClientConnected(conn))
    ensures Inv(Step(t, ClientConnected(conn)))
  {
    hide Injective, Count;
  }

  // ---- Runs ----

  ghost predicate IsRun(es: seq<Event>, ts: seq<Table>) {
    && |ts| == |es| + 1
    && ts[0] == Start()
    && forall i :: 0 <= i < |es| ==> Enabled(ts[i], es[i]) && ts[i + 1] == Step(ts[i], es[i])
  }

  lemma {:induction false} RunInv(es: seq<Event>, ts: seq<Table>, k: nat)
    requires IsRun(es, ts) && k <= |es|
    ensures Inv(ts[k])
  {
    hide Step, Inv;
    if k == 0 {
      StartInv();
    } else {
      RunInv(es, ts, k - 1);
      KeepsInv(ts[k - 1], es[k - 1]);
    }
  }

  lemma StartInv()
    ensures Inv(Start())
  {
  }

  /** The step at which the caller's request got this id. */
  predicate Requested(t: Table, e: Event, id: u32, call: Call) {
    e.Request? && e.call == call && e.connected && t.reqId + 1 == id
  }

  /** A connection's id has arrived in full. */
  predicate Carries(e: Event) {
    e.ClientRead? && e.numRead == 4
  }

  /** The step at which the broker of this id took a connection, and the one it took. */
  predicate Takes(t: Table, e: Event, id: u32) {
    Carries(e) && e.id == id && Open(t, id)
  }

  predicate Took(t: Table, e: Event, id: u32, conn: Conn) {
    Takes(t, e, id) && e.conn == conn
  }

  lemma {:induction false} IssuedByRequest(es: seq<Event>, ts: seq<Table>, k: nat, id: u32) returns (i: nat)
    requires IsRun(es, ts) && k <= |es| && id in ts[k].seen.issued
    ensures i < k && Requested(ts[i], es[i], id, ts[k].seen.issued[id])
  {
    hide Injective, TableInv, ReplyInv, ConnInv;
    if id in ts[k - 1].seen.issued && ts[k - 1].seen.issued[id] == ts[k].seen.issued[id] {
      i := IssuedByRequest(es, ts, k - 1, id);
    } else {
      i := k - 1;
    }
  }

  lemma {:induction false} HeldByTaking(es: seq<Event>, ts: seq<Table>, k: nat, id: u32) returns (j: nat)
    requires IsRun(es, ts) && k <= |es| && id in ts[k].requests && ts[k].requests[id].conn.Some?
    ensures j < k && Took(ts[j], es[j], id, ts[k].requests[id].conn.value)
  {
    hide Injective, TableInv, ReplyInv, ConnInv;
    if id in ts[k - 1].requests && ts[k - 1].requests[id].conn == ts[k].requests[id].conn {
      j := HeldByTaking(es, ts, k - 1, id);
    } else {
      j := k - 1;
    }
  }

  lemma {:induction false} PassedByClient(es: seq<Event>, ts: seq<Table>, k: nat, p: (u32, Conn)) returns (l: nat)
    requires IsRun(es, ts) && k <= |es| && p in ts[k].seen.passed
    ensures l < k && es[l] == Incoming(p.0, true) && p.0 in ts[l].requests && ts[l].requests[p.0].conn == Some(p.1)
  {
    hide Injective, TableInv, ReplyInv, ConnInv;
    if p in ts[k - 1].seen.passed {
      l := PassedByClient(es, ts, k - 1, p);
    } else {
      l := k - 1;
    }
  }

  lemma {:induction false} IssuedStays(es: seq<Event>, ts: seq<Table>, j: nat, k: nat, id: u32)
    requires IsRun(es, ts) && j <= k <= |es| && id in ts[j].seen.issued
    ensures id in ts[k].seen.issued && ts[k].seen.issued[id] == ts[j].seen.issued[id]
    decreases k
  {
    hide Step, Enabled, TableInv, ReplyInv, ConnInv;
    if j < k {
      IssuedStays(es, ts, j, k - 1, id);
      RunInv(es, ts, k - 1);
      IssuedStep(ts[k - 1], es[k - 1], id);
    }
  }

  lemma IssuedStep(t: Table, e: Event, id: u32)
    requires TableInv(t) && Enabled(t, e) && id in t.seen.issued
    ensures id in Step(t, e).seen.issued && Step(t, e).seen.issued[id] == t.seen.issued[id]
  {
    hide Injective;
  }

  /** A descriptor passed to a client comes from a connection that carried the id issued to a caller's
      request, was taken while that request was open, and left when a client came for it. */
  lemma PassedToItsCaller(es: seq<Event>, ts: seq<Table>, k: nat, id: u32, conn: Conn)
    requires IsRun(es, ts) && k <= |es| && (id, conn) in ts[k].seen.passed
    ensures id in ts[k].seen.issued
    ensures exists i, j, l :: 0 <= i < j < l < k && Requested(ts[i], es[i], id, ts[k].seen.issued[id])
                              && Took(ts[j], es[j], id, conn) && es[l] == Incoming(id, true)
    ensures forall conn1 :: (id, conn1) in ts[k].seen.passed ==> conn1 == conn
    ensures forall id1: u32 :: (id1, conn) in ts[k].seen.passed ==> id1 == id
  {
    hide Step, Injective, ReplyInv;
    var l := PassedByClient(es, ts, k, (id, conn));
    var j := HeldByTaking(es, ts, l, id);
    RunInv(es, ts, j);
    var i := IssuedByRequest(es, ts, j, id);
    IssuedStays(es, ts, j, k, id);
    RunInv(es, ts, k);
  }

  lemma HoldStep(t: Table, e: Event, id: u32, conn: Conn)
    requires TableInv(t) && Enabled(t, e) && id in t.seen.issued
    requires id in t.requests ==> t.requests[id].conn == Some(conn)
    ensures var t1 := Step(t, e);
            id in t1.requests ==> id in t.requests && t1.requests[id].conn == Some(conn)
    ensures e.Incoming? && e.id == id ==> id !in Step(t, e).requests
  {
    hide Injective;
  }

  /** The broker keeps the connection it took as long as it is in the table; once out it does not come back. */
  lemma {:induction false} HeldStays(es: seq<Event>, ts: seq<Table>, i: nat, k: nat, id: u32, conn: Conn)
    requires IsRun(es, ts) && i < k <= |es| && Took(ts[i], es[i], id, conn)
    ensures id in ts[k].seen.issued && (id in ts[k].requests ==> ts[k].requests[id].conn == Some(conn))
    decreases k
  {
    hide TableInv, ReplyInv, ConnInv, Injective;
    RunInv(es, ts, i);
    OpenIsIssued(es, ts, i, id);
    IssuedStays(es, ts, i, k, id);
    if i < k - 1 {
      hide Step, Enabled;
      HeldStays(es, ts, i, k - 1, id, conn);
      RunInv(es, ts, k - 1);
      HoldStep(ts[k - 1], es[k - 1], id, conn);
    }
  }

  lemma {:induction false} PassedStays(es: seq<Event>, ts: seq<Table>, j: nat, k: nat)
    requires IsRun(es, ts) && j <= k <= |es|
    ensures ts[j].seen.passed <= ts[k].seen.passed
    decreases k
  {
    hide TableInv, ReplyInv, ConnInv, Injective;
    if j < k {
      PassedStays(es, ts, j, k - 1);
    }
  }

  /** A connection's descriptor is passed to a client exactly if the connection carried the id of an open request, and
      a client that could be reached came for that id after it. */
  lemma PassedIff(es: seq<Event>, ts: seq<Table>, k: nat, id: u32, conn: Conn)
    requires IsRun(es, ts) && k <= |es|
    ensures (id, conn) in ts[k].seen.passed <==>
            exists i, j :: 0 <= i < j < k && Took(ts[i], es[i], id, conn) && es[j] == Incoming(id, true)
  {
    hide Step, Injective, Inv, Enabled;
    if (id, conn) in ts[k].seen.passed {
      var j := PassedByClient(es, ts, k, (id, conn));
      var i := HeldByTaking(es, ts, j, id);
    }
    if i, j :| 0 <= i < j < k && Took(ts[i], es[i], id, conn) && es[j] == Incoming(id, true) {
      HeldStays(es, ts, i, j, id, conn);
      PassStep(ts[j], id, conn);
      PassedStays(es, ts, j + 1, k);
    }
  }

  lemma PassStep(t: Table, id: u32, conn: Conn)
    requires Enabled(t, Incoming(id, true)) && (id in t.requests ==> t.requests[id].conn == Some(conn))
    ensures (id, conn) in Step(t, Incoming(id, true)).seen.passed
  {
  }

  /** After a client has come for an id, reached or not, the id is out of the table for good. */
  lemma {:induction false} IncomingRemoves(es: seq<Event>, ts: seq<Table>, j: nat, k: nat)
    requires IsRun(es, ts) && j < k <= |es| && es[j].Incoming?
    ensures es[j].id !in ts[k].requests && es[j].id in ts[k].seen.issued
    decreases k
  {
    hide TableInv, ReplyInv, ConnInv, Injective, Step, Enabled;
    RunInv(es, ts, k - 1);
    if j < k - 1 {
      IncomingRemoves(es, ts, j, k - 1);
      HoldStep(ts[k - 1], es[k - 1], es[j].id, 0);
      IssuedStays(es, ts, k - 1, k, es[j].id);
    } else {
      IncomingStep(ts[j], es[j]);
    }
  }

  lemma IncomingStep(t: Table, e: Event)
    requires TableInv(t) && Enabled(t, e) && e.Incoming?
    ensures e.id !in Step(t, e).requests && e.id in Step(t, e).seen.issued
  {
    hide Injective;
  }

  /** The assertion that a broker has no connection yet fails exactly when the device repeats an id whose
      broker took a connection and still waits for its client. */
  lemma AssertionFiresIff(t: Table, e: Event)
    requires Inv(t) && Enabled(t, e)
    ensures Step(t, e).aborted <==>
            Carries(e) && e.id in t.requests
            && exists c :: c in t.seen.carried && t.seen.carried[c] == e.id && t.requests[e.id].conn == Some(c)
  {
    hide Injective, ReplyInv;
  }

  /** A device that uses each id at most once never makes it fail. */
  lemma {:induction false} FreshIdsNeverAbort(es: seq<Event>, ts: seq<Table>, k: nat)
    requires IsRun(es, ts) && k <= |es|
    requires forall i, j :: 0 <= i < j < |es| && Carries(es[i]) && Carries(es[j]) ==> es[i].id != es[j].id
    ensures !ts[k].aborted
  {
    hide Step, Inv;
    if k > 0 && ts[k].aborted {
      RunInv(es, ts, k - 1);
      AssertionFiresIff(ts[k - 1], es[k - 1]);
      var i := HeldByTaking(es, ts, k - 1, es[k - 1].id);
      assert false;
    }
  }

  // ---- How often a caller is answered ----

  /** A caller's request got this id, but the message to the device could not be written. */
  predicate Unwritten(t: Table, e: Event, id: u32, call: Call) {
    Requested(t, e, id, call) && !e.writes
  }

  lemma {:induction false} AskedStays(es: seq<Event>, ts: seq<Table>, j: nat, k: nat, id: u32)
    requires IsRun(es, ts) && j <= k <= |es| && id in ts[j].seen.issued
    ensures id in ts[k].seen.asked <==> id in ts[j].seen.asked
    ensures !Open(ts[j], id) ==> !Open(ts[k], id)
    decreases k
  {
    hide Step, Inv, Open;
    if j < k {
      AskedStays(es, ts, j, k - 1, id);
      IssuedStays(es, ts, j, k - 1, id);
      RunInv(es, ts, k - 1);
      AskedStep(ts[k - 1], es[k - 1], id);
    }
  }

  lemma AskedStep(t: Table, e: Event, id: u32)
    requires Inv(t) && Enabled(t, e) && id in t.seen.issued
    ensures id in Step(t, e).seen.asked <==> id in t.seen.asked
    ensures !Open(t, id) ==> !Open(Step(t, e), id)
  {
    hide Injective, ReplyInv, ConnInv;
  }

  /** An issued id that is no longer open was taken by a connection. */
  lemma {:induction false} ClosedByTaking(es: seq<Event>, ts: seq<Table>, k: nat, id: u32) returns (j: nat)
    requires IsRun(es, ts) && k <= |es| && id in ts[k].seen.issued && !Open(ts[k], id)
    ensures j < k && Takes(ts[j], es[j], id)
  {
    hide Step, Inv, Open, Takes;
    NothingIssued(id);
    RunInv(es, ts, k - 1);
    CloseStep(ts[k - 1], es[k - 1], id);
    if Takes(ts[k - 1], es[k - 1], id) {
      j := k - 1;
    } else {
      j := ClosedByTaking(es, ts, k - 1, id);
    }
  }

  lemma NothingIssued(id: u32)
    ensures id !in Start().seen.issued
  {
  }

  lemma CloseStep(t: Table, e: Event, id: u32)
    requires Inv(t) && Enabled(t, e) && id in Step(t, e).seen.issued && !Open(Step(t, e), id)
    ensures Takes(t, e, id) || (id in t.seen.issued && !Open(t, id))
  {
    hide Injective, ReplyInv, ConnInv;
  }

  /** Over any run no caller is answered more than twice, and twice exactly when the message for its request could
      not be written and a connection later carried the request's id while it was open. */
  lemma AnsweredTwiceIff(es: seq<Event>, ts: seq<Table>, k: nat, c: Call)
    requires IsRun(es, ts) && k <= |es|
    ensures Count(ts[k].seen.replies, c) <= 2
    ensures Count(ts[k].seen.replies, c) == 2 <==>
            exists i, j, id :: 0 <= i < j < k && Unwritten(ts[i], es[i], id, c) && Takes(ts[j], es[j], id)
  {
    hide Step, Open, Count, Injective, ConnInv;
    RunInv(es, ts, k);
    NotCounted(ts[k].seen.replies, c);
    if id :| id in ts[k].seen.issued && ts[k].seen.issued[id] == c {
      var i := IssuedByRequest(es, ts, k, id);
      IssuedAt(es, ts, i, id, c);
      AskedStays(es, ts, i + 1, k, id);
      if id !in ts[k].seen.asked && !Open(ts[k], id) {
        var j := ClosedByTaking(es, ts, k, id);
        OpenIsIssued(es, ts, j, id);
        NotIssuedYet(es, ts, i, j, id, c);
        assert Unwritten(ts[i], es[i], id, c);
      }
    }
    if i, j, id :| 0 <= i < j < k && Unwritten(ts[i], es[i], id, c) && Takes(ts[j], es[j], id) {
      IssuedAt(es, ts, i, id, c);
      IssuedStays(es, ts, i + 1, k, id);
      AskedStays(es, ts, i + 1, k, id);
      OpenIsIssued(es, ts, j, id);
      TookCloses(es, ts, j, id);
      IssuedStays(es, ts, j, j + 1, id);
      AskedStays(es, ts, j + 1, k, id);
    }
  }

  /** The step of the request itself. */
  lemma IssuedAt(es: seq<Event>, ts: seq<Table>, i: nat, id: u32, c: Call)
    requires IsRun(es, ts) && i < |es| && Requested(ts[i], es[i], id, c)
    ensures id !in ts[i].seen.issued && id in ts[i + 1].seen.issued && ts[i + 1].seen.issued[id] == c
    ensures id in ts[i + 1].seen.asked <==> es[i].writes
  {
    hide Injective, ReplyInv, ConnInv;
    RunInv(es, ts, i);
  }

  lemma OpenIsIssued(es: seq<Event>, ts: seq<Table>, j: nat, id: u32)
    requires IsRun(es, ts) && j <= |es| && Open(ts[j], id)
    ensures id in ts[j].seen.issued
  {
    hide Step, Injective, ReplyInv, ConnInv;
    RunInv(es, ts, j);
  }

  /** What is issued at j was issued before. */
  lemma NotIssuedYet(es: seq<Event>, ts: seq<Table>, i: nat, j: nat, id: u32, c: Call)
    requires IsRun(es, ts) && i < |es| && j <= |es| && Requested(ts[i], es[i], id, c) && id in ts[j].seen.issued
    ensures i < j
  {
    hide Step, Injective, ReplyInv, ConnInv;
    IssuedAt(es, ts, i, id, c);
    if j <= i {
      IssuedStays(es, ts, j, i, id);
    }
  }

  lemma TookCloses(es: seq<Event>, ts: seq<Table>, j: nat, id: u32)
    requires IsRun(es, ts) && j < |es| && Takes(ts[j], es[j], id)
    ensures !Open(ts[j + 1], id)
  {
  }

  /** In every reachable state each table key is its broker's id, and an id issued to one caller; a connection is
      with the broker whose id it carried; a caller whose message was written is answered once its request has a
      connection, and never twice; no descriptor and no connection is passed twice. */
  lemma RequestsMatch(es: seq<Event>, ts: seq<Table>, k: nat)
    requires IsRun(es, ts) && k <= |es|
    ensures var t := ts[k];
            && (forall id :: id in t.requests ==> t.requests[id].id == id && id in t.seen.issued)
            && (forall i, j :: i in t.seen.issued && j in t.seen.issued && t.seen.issued[i] == t.seen.issued[j] ==>
                  i == j)
            && (forall id, c :: id in t.requests && t.requests[id].conn == Some(c) ==>
                  c in t.seen.carried && t.seen.carried[c] == id)
            && (forall id :: id in t.seen.asked ==>
                  id in t.seen.issued && Count(t.seen.replies, t.seen.issued[id]) == if Open(t, id) then 0 else 1)
            && (forall i, j :: 0 <= i < j < |t.seen.passed| ==>
                  t.seen.passed[i].0 != t.seen.passed[j].0 && t.seen.passed[i].1 != t.seen.passed[j].1)
  {
    hide Step, Count;
    RunInv(es, ts, k);
  }

  // ---- Witnesses ----

  /** The second answer is reachable. */
  lemma AnsweredTwice() returns (es: seq<Event>, ts: seq<Table>)
    ensures IsRun(es, ts) && |es| == 3 && ts[3].seen.replies == [7, 7]
  {
    es := [Request(7, true, false), ClientConnected(1), ClientRead(1, 4, 1, true)];
    var t1 := Step(Start(), es[0]);
    var t2 := Step(t1, es[1]);
    ts := [Start(), t1, t2, Step(t2, es[2])];
  }

  /** The failing assertion is reachable: the device carries the same id twice. */
  lemma RepeatedIdAborts() returns (es: seq<Event>, ts: seq<Table>)
    ensures IsRun(es, ts) && |es| == 5 && !ts[4].aborted && ts[5].aborted
  {
    es := [Request(7, true, true), ClientConnected(1), ClientRead(1, 4, 1, true), ClientConnected(2),
           ClientRead(2, 4, 1, true)];
    var t1 := Step(Start(), es[0]);
    var t2 := Step(t1, es[1]);
    var t3 := Step(t2, es[2]);
    var t4 := Step(t3, es[3]);
    ts := [Start(), t1, t2, t3, t4, Step(t4, es[4])];
  }

  /** A new connection that carries the id of an open request whose caller waits. */
  lemma Served(t: Table, id: u32, conn: Conn)
    requires !t.aborted && id in t.requests && t.requests[id].conn.None? && t.requests[id].ctx.Some?
    requires t.requests[id].id == id && conn !in t.seen.conns
    ensures Enabled(t, ClientConnected(conn))
    ensures var t1 := Step(t, ClientConnected(conn));
            && Enabled(t1, ClientRead(conn, 4, id, true))
            && var t2 := Step(t1, ClientRead(conn, 4, id, true));
               && t2.requests == t.requests[id := Broker(id, None, Some(conn), true)] && !t2.aborted
               && t2.seen.replies == t.seen.replies + [t.requests[id].ctx.value] && t2.seen.passed == t.seen.passed
               && t2.seen.conns == t.seen.conns + {conn}
  {
  }

  lemma TwoRequested() returns (ts: seq<Table>)
    ensures IsRun([Request(7, true, true), Request(8, true, true)], ts)
    ensures ts[2].requests == map[1 := Broker(1, Some(7), None, false), 2 := Broker(2, Some(8), None, false)]
    ensures ts[2].seen.replies == [] && ts[2].seen.passed == [] && ts[2].seen.conns == {} && !ts[2].aborted
  {
    var t1 := Step(Start(), Request(7, true, true));
    ts := [Start(), t1, Step(t1, Request(8, true, true))];
  }

  /** Two callers get one descriptor each. */
  lemma TwoPassed() returns (es: seq<Event>, ts: seq<Table>)
    ensures IsRun(es, ts) && |es| == 8 && es[0] == Request(7, true, true) && es[1] == Request(8, true, true)
    ensures ts[8].seen.passed == [(1, 1), (2, 2)] && ts[8].seen.replies == [7, 8] && ts[8].requests == map[]
  {
    hide Step, Enabled, Pass;
    ts := TwoRequested();
    var t2 := ts[2];
    Served(t2, 1, 1);
    var t3 := Step(t2, ClientConnected(1));
    var t4 := Step(t3, ClientRead(1, 4, 1, true));
    Served(t4, 2, 2);
    var t5 := Step(t4, ClientConnected(2));
    var t6 := Step(t5, ClientRead(2, 4, 2, true));
    PassIsStep(t6, 1);
    var t7 := Pass(t6, 1, true);
    PassIsStep(t7, 2);
    es := [Request(7, true, true), Request(8, true, true), ClientConnected(1), ClientRead(1, 4, 1, true),
           ClientConnected(2), ClientRead(2, 4, 2, true), Incoming(1, true), Incoming(2, true)];
    assert es[..2] == [Request(7, true, true), Request(8, true, true)];
    ts := ts + [t3, t4, t5, t6, t7, Pass(t7, 2, true)];
  }

  lemma PassIsStep(t: Table, id: u32)
    requires id in t.requests && t.requests[id].listening && !t.aborted
    requires t.requests[id].id == id && t.requests[id].conn.Some?
    ensures Enabled(t, Incoming(id, true))
    ensures var t1 := Pass(t, id, true);
            && Step(t, Incoming(id, true)) == t1 && t1.requests == t.requests - {id} && !t1.aborted
            && t1.seen.replies == t.seen.replies && t1.seen.passed == t.seen.passed + [(id, t.requests[id].conn.value)]
  {
  }
}
