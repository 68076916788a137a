/**
 * The control channel of the RNDIS host driver: rndis_command and rndis_query, one request in
 * flight, replies matched by transaction id.  USB transfers are parameters: what each returned.
 */
module RndisControl {
  import opened Basics
  import opened Bytes

  const CONTROL_BUFFER_SIZE: nat := 1025
  const POLLS: nat := 10

  const MSG_HALT: u32 := 3
  const MSG_QUERY: u32 := 4
  const MSG_RESET: u32 := 6
  const MSG_KEEPALIVE: u32 := 8
  const COMPLETION: u32 := 0x8000_0000
  const MSG_RESET_C: u32 := MSG_RESET + COMPLETION
  const STATUS_SUCCESS: u32 := 0

  const EDOM: int := 33
  const EL3RST: int := 47
  const ETIMEDOUT: int := 110

  /** One read of the response channel: the transfer's return code and the bytes it brought. */
  datatype Poll = Poll(ret: int, bytes: seq<byte>)
  {
    predicate Valid() {
      if ret < 0 then bytes == [] else |bytes| == ret <= CONTROL_BUFFER_SIZE
    }

    /** The control buffer after this read: it was cleared first. */
    function Buffer(): (b: seq<byte>)
      requires Valid()
      ensures |b| == CONTROL_BUFFER_SIZE
    {
      bytes + Zeros(CONTROL_BUFFER_SIZE - |bytes|)
    }

    function Type(): u32
      requires Valid()
    {
      Le32(Buffer(), 0)
    }

    function RequestId(): u32
      requires Valid()
    {
      Le32(Buffer(), 8)
    }

    function Status(): u32
      requires Valid()
    {
      Le32(Buffer(), 12)
    }

    /** A reply of type rsp that carries transaction id xid. */
    predicate Answers(rsp: u32, xid: u32)
      requires Valid()
    {
      ret >= 8 && Type() == rsp && RequestId() == xid
    }

    predicate IsPing(rsp: u32)
      requires Valid()
    {
      ret >= 8 && Type() != rsp && Type() == MSG_KEEPALIVE
    }
  }

  /** A reset's completion counts as success whatever its status. */
  predicate Succeeds(p: Poll, rsp: u32)
    requires p.Valid()
  {
    rsp == MSG_RESET_C || p.Status() == STATUS_SUCCESS
  }

  predicate AllValid(polls: seq<Poll>) {
    forall i :: 0 <= i < |polls| ==> polls[i].Valid()
  }

  /** What sending the buffer puts on the wire: as many bytes as its length word says, if it has them. */
  function OnWire(buf: seq<byte>): seq<byte>
    requires |buf| == CONTROL_BUFFER_SIZE
  {
    buf[..Min(Le32(buf, 4), |buf|)]
  }

  /** A query for an object: type, length, id, object, and an input of inLen zero bytes after twenty of header. */
  predicate IsQuery(q: seq<byte>, id: u32, oid: u32, inLen: nat) {
    && |q| == 28 + inLen
    && Le32(q, 0) == 4 && Le32(q, 4) == 28 + inLen && Le32(q, 8) == id
    && Le32(q, 12) == oid && Le32(q, 16) == inLen && Le32(q, 20) == 20
    && forall j :: 24 <= j < |q| ==> q[j] == 0
  }

  /** The message type that completes requests of type t. */
  function Completed(t: u32): u32 {
    if t < COMPLETION then t + COMPLETION else t
  }

  predicate CarriesXid(t: u32) {
    t != MSG_HALT && t != MSG_RESET
  }

  /** The first read that answers the request, or the number of reads. */
  function FirstAnswer(polls: seq<Poll>, rsp: u32, xid: u32): (i: nat)
    requires AllValid(polls)
    ensures i <= |polls|
    ensures i < |polls| ==> polls[i].Answers(rsp, xid)
    ensures forall j :: 0 <= j < i ==> !polls[j].Answers(rsp, xid)
  {
    if polls == [] || polls[0].Answers(rsp, xid) then 0
    else
      assert forall j :: 1 <= j < |polls| ==> polls[j] == polls[1..][j - 1];
      1 + FirstAnswer(polls[1..], rsp, xid)
  }

  /** The answer to a ping: its own first words with type, length and status filled in. */
  function Pong(p: Poll): seq<byte>
    requires p.Valid()
  {
    ToLe32(MSG_KEEPALIVE + COMPLETION) + ToLe32(16) + p.Buffer()[8..12] + ToLe32(STATUS_SUCCESS)
  }

  function Pongs(polls: seq<Poll>, rsp: u32): seq<seq<byte>>
    requires AllValid(polls)
  {
    if polls == [] then []
    else
      var n := |polls| - 1;
      Pongs(polls[..n], rsp) + if polls[n].IsPing(rsp) then [Pong(polls[n])] else []
  }

  lemma PongsSnoc(polls: seq<Poll>, n: nat, rsp: u32)
    requires AllValid(polls) && n < |polls|
    ensures Pongs(polls[..n + 1], rsp)
         == Pongs(polls[..n], rsp) + if polls[n].IsPing(rsp) then [Pong(polls[n])] else []
  {
    assert polls[..n + 1][..n] == polls[..n];
  }

  /** A pong names the ping it answers. */
  lemma PongEchoesId(p: Poll)
    requires p.Valid()
    ensures |Pong(p)| == 16 && Le32(Pong(p), 0) == Completed(MSG_KEEPALIVE)
    ensures Le32(Pong(p), 4) == |Pong(p)| && Le32(Pong(p), 8) == p.RequestId() && Le32(Pong(p), 12) == STATUS_SUCCESS
  {
    hide ToLe32, Poll.Buffer;
    var m := Pong(p);
    assert m[0..4] == ToLe32(MSG_KEEPALIVE + COMPLETION) && m[4..8] == ToLe32(16);
    assert m[8..12] == p.Buffer()[8..12] && m[12..16] == ToLe32(STATUS_SUCCESS);
    WordAt(m, 0);
    WordAt(m, 4);
    WordAt(m, 8);
    WordAt(m, 12);
    WordAt(p.Buffer(), 8);
  }

  /** A read that brings a ping: at least eight bytes, the first four of them 8, 0, 0, 0. */
  predicate BringsPing(p: Poll)
    requires p.Valid()
  {
    p.ret >= 8 && p.bytes[..4] == [8, 0, 0, 0]
  }

  function PingCount(polls: seq<Poll>): nat
    requires AllValid(polls)
  {
    if polls == [] then 0
    else
      var n := |polls| - 1;
      PingCount(polls[..n]) + Bit(BringsPing(polls[n]))
  }

  lemma PingIs(p: Poll, rsp: u32)
    requires p.Valid() && rsp != 8
    ensures p.IsPing(rsp) <==> BringsPing(p)
  {
    if p.ret >= 8 {
      assert p.Buffer()[..4] == p.bytes[..4];
      if p.Type() == 8 {
        SameWord(p.Buffer(), [8, 0, 0, 0], 0);
      }
    }
  }

  /** Every ping that comes while an answer of another type is awaited is answered, in order, and nothing else is. */
  lemma {:induction false} EveryPingAnswered(polls: seq<Poll>, rsp: u32)
    requires AllValid(polls) && rsp != 8
    ensures |Pongs(polls, rsp)| == PingCount(polls)
    ensures forall j :: 0 <= j < |polls| && BringsPing(polls[j]) ==>
              PingCount(polls[..j]) < |Pongs(polls, rsp)| && Pongs(polls, rsp)[PingCount(polls[..j])] == Pong(polls[j])
    decreases |polls|
  {
    hide Poll.IsPing, BringsPing, Pong;
    if polls != [] {
      var n := |polls| - 1;
      EveryPingAnswered(polls[..n], rsp);
      PingIs(polls[n], rsp);
      forall j | 0 <= j < n ensures polls[..n][..j] == polls[..j] {
      }
    }
  }

  // ---- Transaction ids ----

  /** The id handed out when the counter stands at c, and the counter afterwards.  Zero is skipped. */
  function TakeXid(c: u32): (r: (u32, u32)) {
    if c == 0 then (1, 2) else (c, Wrap32(c + 1))
  }

  /** The counter before command k of a run: commands that carry no id leave it alone. */
  function CounterBefore(c: u32, types: seq<u32>, k: nat): u32
    requires k <= |types|
  {
    if k == 0 then c
    else if CarriesXid(types[k - 1]) then TakeXid(CounterBefore(c, types, k - 1)).1
    else CounterBefore(c, types, k - 1)
  }

  /** The id command k of a run is sent with. */
  function XidOf(c: u32, types: seq<u32>, k: nat): u32
    requires k < |types|
  {
    TakeXid(CounterBefore(c, types, k)).0
  }

  /** How many of the first k commands carry an id. */
  function Carrying(types: seq<u32>, k: nat): (n: nat)
    requires k <= |types|
    ensures n <= k
  {
    if k == 0 then 0 else Carrying(types, k - 1) + Bit(CarriesXid(types[k - 1]))
  }

  lemma ModStep(x: nat)
    ensures (x + 1) % 0xFFFF_FFFF == if x % 0xFFFF_FFFF == 0xFFFF_FFFE then 0 else x % 0xFFFF_FFFF + 1
  {
  }

  lemma ModEqual(x: int, y: int)
    ensures x % 0xFFFF_FFFF == y % 0xFFFF_FFFF <==> (y - x) % 0xFFFF_FFFF == 0
  {
    var q, r := y / 0xFFFF_FFFF - x / 0xFFFF_FFFF, y % 0xFFFF_FFFF - x % 0xFFFF_FFFF;
    assert y - x == 0xFFFF_FFFF * q + r;
  }

  /** Where the cycle of ids starts: at the counter, or at 1. */
  function Start(c: u32): (s: nat)
    ensures s < 0xFFFF_FFFF
  {
    if c == 0 then 0 else c - 1
  }

  /** Ids run through 1 .. 2^32 - 1 in a cycle. */
  lemma {:induction false} XidCycle(c: u32, types: seq<u32>, k: nat)
    requires k < |types|
    ensures XidOf(c, types, k) == (Start(c) + Carrying(types, k)) % 0xFFFF_FFFF + 1
  {
    hide CarriesXid;
    if k > 0 {
      XidCycle(c, types, k - 1);
      ModStep(Start(c) + Carrying(types, k - 1));
    }
  }

  lemma {:induction false} CarryingGrows(types: seq<u32>, i: nat, j: nat)
    requires i < j <= |types| && CarriesXid(types[i])
    ensures Carrying(types, i) < Carrying(types, j) <= Carrying(types, i) + j - i
    decreases j
  {
    if j > i + 1 {
      CarryingGrows(types, i, j - 1);
    }
  }

  /** Two commands of a run share an id exactly when a whole number of cycles lies between them. */
  lemma XidsRepeatByCycle(c: u32, types: seq<u32>, i: nat, j: nat)
    requires i < |types| && j < |types|
    ensures XidOf(c, types, i) != 0
    ensures XidOf(c, types, i) == XidOf(c, types, j)
      <==> (Carrying(types, j) - Carrying(types, i)) % 0xFFFF_FFFF == 0
  {
    hide XidOf, Carrying;
    XidCycle(c, types, i);
    XidCycle(c, types, j);
    ModEqual(Start(c) + Carrying(types, i), Start(c) + Carrying(types, j));
  }

  /**
   * In a run of fewer than 2^32 commands, a reply to one command, however late it comes, is never
   * taken for the reply to another.
   */
  lemma StaleRepliesRejected(c: u32, types: seq<u32>, i: nat, j: nat, p: Poll)
    requires |types| <= 0xFFFF_FFFF && i < |types| && j < |types| && i != j
    requires CarriesXid(types[i]) && CarriesXid(types[j])
    requires p.Valid() && p.RequestId() == XidOf(c, types, i)
    ensures !p.Answers(Completed(types[j]), XidOf(c, types, j))
  {
    XidsRepeatByCycle(c, types, i, j);
    if i < j {
      CarryingGrows(types, i, j);
    } else {
      CarryingGrows(types, j, i);
    }
  }

  /** Only a read that brought the id itself can be taken for the reply: every byte of the id that is not zero is one
      of those read, and there is one, as the rest of the buffer is zero and the id is not. */
  lemma AnswerBringsItsId(c: u32, types: seq<u32>, k: nat, p: Poll)
    requires k < |types| && p.Valid() && p.Answers(Completed(types[k]), XidOf(c, types, k))
    ensures p.ret > 8
    ensures var id := ToLe32(XidOf(c, types, k));
            forall i :: 0 <= i < 4 && id[i] != 0 ==> 8 + i < p.ret && p.bytes[8 + i] == id[i]
  {
    hide ToLe32, XidOf;
    XidCycle(c, types, k);
    SameWord(p.Buffer()[8..12], ToLe32(XidOf(c, types, k)), 0);
  }

  lemma QueryIsNoReset()
    ensures Completed(MSG_QUERY) == 0x8000_0004 != MSG_RESET_C
  {
  }

  lemma SameBytes(s: seq<byte>, i: nat, t: seq<byte>, j: nat)
    requires i + 4 <= |s| && j + 4 <= |t| && s[i..i + 4] == t[j..j + 4]
    ensures Le32(s, i) == Le32(t, j)
  {
    WordAt(s, i);
    WordAt(t, j);
  }

  /** A query in the buffer goes out as one, whatever stands behind it. */
  lemma QueryOnWire(buf: seq<byte>, id: u32, oid: u32, inLen: nat)
    requires |buf| == CONTROL_BUFFER_SIZE && 28 + inLen <= CONTROL_BUFFER_SIZE
    requires Le32(buf, 0) == MSG_QUERY && Le32(buf, 4) == 28 + inLen
    requires Le32(buf, 12) == oid && Le32(buf, 16) == inLen && Le32(buf, 20) == 20
    requires forall j :: 24 <= j < 28 + inLen ==> buf[j] == 0
    ensures IsQuery(OnWire(buf[..8] + ToLe32(id) + buf[12..]), id, oid, inLen)
  {
    hide Le32, ToLe32;
    var w := buf[..8] + ToLe32(id) + buf[12..];
    SameBytes(w, 4, buf, 4);
    var q := OnWire(w);
    assert q == w[..28 + inLen];
    SameBytes(q, 0, buf, 0);
    SameBytes(q, 4, buf, 4);
    SameBytes(q, 8, ToLe32(id), 0);
    SameBytes(q, 12, buf, 12);
    SameBytes(q, 16, buf, 16);
    SameBytes(q, 20, buf, 20);
  }

  lemma NoPongs(polls: seq<Poll>, rsp: u32)
    requires AllValid(polls)
    ensures Pongs(polls[..0], rsp) == []
  {
  }

  lemma CarriesXidIs(t: u32)
    ensures CarriesXid(t) <==> t != MSG_HALT && t != MSG_RESET
  {
  }

  // ---- The driver's functions ----

  class RndisHost {
    var xid: u32

    constructor ()
      ensures xid == 0
    {
      xid := 0;
    }

    /**
     * Send the request in buf and wait for its reply.  `sendRet` is what sending returned,
     * `statusRet` what reading the status channel returned (0 when the device needs no such read).
     * `sent` is everything sent to the device, oldest first.
     */
    method Command(buf: array<byte>, sendRet: int, statusRet: int, polls: seq<Poll>)
      returns (ret: int, sent: seq<seq<byte>>)
      requires buf.Length == CONTROL_BUFFER_SIZE && |polls| == POLLS && AllValid(polls)
      modifies this, buf
      ensures var t, c := Le32(old(buf[..]), 0), old(xid);
        if !CarriesXid(t) then
          ret == sendRet && xid == c && sent == [OnWire(old(buf[..]))] && buf[..] == old(buf[..])
        else
          var (id, c') := TakeXid(c);
          var request := OnWire(old(buf[..8]) + ToLe32(id) + old(buf[12..]));
          xid == c' &&
          if sendRet < 0 || statusRet < 0 then
            ret == (if sendRet < 0 then sendRet else statusRet) && sent == [request]
          else
            var i := FirstAnswer(polls, Completed(t), id);
            && sent == [request] + Pongs(polls[..i], Completed(t))
            && (i < POLLS ==> buf[..] == polls[i].Buffer())
            && ret == if i == POLLS then -ETIMEDOUT else if Succeeds(polls[i], Completed(t)) then 0 else -EL3RST
    {
      hide FirstAnswer, Pongs, Pong, Completed, ToLe32, Poll.Buffer, CarriesXid, Le32, OnWire;
      ghost var before := buf[..];
      var msgType, id := Le32(buf[..], 0), 0;
      if msgType != MSG_HALT && msgType != MSG_RESET {
        id := xid;
        xid := Wrap32(xid + 1);
        if id == 0 {
          id := xid;
          xid := Wrap32(xid + 1);
        }
        PutWord(buf, 8, id);
      }
      CarriesXidIs(msgType);
      sent := [OnWire(buf[..])];
      if sendRet < 0 || id == 0 {
        return sendRet, sent;
      }
      if statusRet < 0 {
        return statusRet, sent;
      }
      ret, sent := Await(buf, Completed(msgType), id, polls, OnWire(buf[..]));
    }

    /** The polling half of rndis_command. */
    static method Await(buf: array<byte>, rsp: u32, id: u32, polls: seq<Poll>, request: seq<byte>)
      returns (ret: int, sent: seq<seq<byte>>)
      requires buf.Length == CONTROL_BUFFER_SIZE && |polls| == POLLS && AllValid(polls)
      modifies buf
      ensures var i := FirstAnswer(polls, rsp, id);
        && sent == [request] + Pongs(polls[..i], rsp)
        && (i < POLLS ==> buf[..] == polls[i].Buffer())
        && ret == if i == POLLS then -ETIMEDOUT else if Succeeds(polls[i], rsp) then 0 else -EL3RST
    {
      hide FirstAnswer, Pongs, Pong, ToLe32, Poll.Buffer, Le32;
      sent := [request];
      NoPongs(polls, rsp);
      var count := 0;
      while count < POLLS
        invariant 0 <= count <= POLLS && count <= FirstAnswer(polls, rsp, id)
        invariant sent == [request] + Pongs(polls[..count], rsp)
      {
        var p := polls[count];
        PongsSnoc(polls, count, rsp);
        Receive(buf, p);
        if p.ret >= 8 {
          if Le32(buf[..], 0) == rsp {
            if Le32(buf[..], 8) == id {
              if rsp == MSG_RESET_C {
                return 0, sent;
              }
              return if Le32(buf[..], 12) == STATUS_SUCCESS then 0 else -EL3RST, sent;
            }
          } else if Le32(buf[..], 0) == MSG_KEEPALIVE {
            Answer(buf, p);
            sent := sent + [buf[..16]];
          }
        }
        count := count + 1;
      }
      return -ETIMEDOUT, sent;
    }

    /** Turn the ping in the buffer into its answer. */
    static method Answer(buf: array<byte>, ghost p: Poll)
      requires p.Valid() && buf.Length == CONTROL_BUFFER_SIZE && buf[..] == p.Buffer()
      modifies buf
      ensures buf[..16] == Pong(p)
    {
      hide ToLe32, Poll.Buffer;
      PutWord(buf, 0, MSG_KEEPALIVE + COMPLETION);
      assert buf[..4] == ToLe32(MSG_KEEPALIVE + COMPLETION) && buf[8..12] == p.Buffer()[8..12];
      PutWord(buf, 4, 16);
      assert buf[..8] == ToLe32(MSG_KEEPALIVE + COMPLETION) + ToLe32(16) && buf[8..12] == p.Buffer()[8..12];
      PutWord(buf, 12, STATUS_SUCCESS);
      assert buf[..16] == buf[..8] + buf[8..12] + buf[12..16];
    }

    static method PutWord(buf: array<byte>, i: nat, x: u32)
      requires i + 4 <= buf.Length
      modifies buf
      ensures buf[..] == old(buf[..i]) + ToLe32(x) + old(buf[i + 4..])
      ensures Le32(buf[..], i) == x
      ensures forall j :: 0 <= j < buf.Length && !(i <= j < i + 4) ==> buf[j] == old(buf[j])
    {
      var w := ToLe32(x);
      buf[i], buf[i + 1], buf[i + 2], buf[i + 3] := w[0], w[1], w[2], w[3];
    }

    /** Clear the buffer and read into it. */
    static method Receive(buf: array<byte>, p: Poll)
      requires buf.Length == CONTROL_BUFFER_SIZE && p.Valid()
      modifies buf
      ensures buf[..] == p.Buffer()
    {
      forall i | 0 <= i < buf.Length {
        buf[i] := if i < |p.bytes| then p.bytes[i] else 0;
      }
    }

    /** The request: cleared first, then its fields. */
    static method BuildQuery(buf: array<byte>, oid: u32, inLen: nat)
      requires buf.Length == CONTROL_BUFFER_SIZE && 28 + inLen <= CONTROL_BUFFER_SIZE
      modifies buf
      ensures Le32(buf[..], 0) == MSG_QUERY && Le32(buf[..], 4) == 28 + inLen
      ensures Le32(buf[..], 12) == oid && Le32(buf[..], 16) == inLen && Le32(buf[..], 20) == 20
      ensures forall j :: 24 <= j < 28 + inLen ==> buf[j] == 0
    {
      hide ToLe32;
      forall i | 0 <= i < 28 + inLen {
        buf[i] := 0;
      }
      PutWord(buf, 0, MSG_QUERY);
      PutWord(buf, 4, 28 + inLen);
      PutWord(buf, 12, oid);
      PutWord(buf, 16, inLen);
      PutWord(buf, 20, 20);
    }

    /**
     * Query one object identifier.  On success the reply's payload is buf[at..at + len].
     * replyLen is the length the caller insists on, or -1.
     */
    method Query(buf: array<byte>, oid: u32, inLen: nat, replyLen: int,
                 sendRet: int, statusRet: int, polls: seq<Poll>)
      returns (ret: int, at: nat, len: nat, sent: seq<seq<byte>>)
      requires buf.Length == CONTROL_BUFFER_SIZE && |polls| == POLLS && AllValid(polls)
      requires 28 + inLen <= CONTROL_BUFFER_SIZE && replyLen >= -1
      modifies this, buf
      ensures xid == TakeXid(old(xid)).1 && ret <= 0
      ensures sent != [] && IsQuery(sent[0], TakeXid(old(xid)).0, oid, inLen)
      ensures var i := FirstAnswer(polls, 0x8000_0004, TakeXid(old(xid)).0);
        ret == 0 <==>
          (sendRet >= 0 && statusRet >= 0 && i < POLLS && polls[i].Status() == STATUS_SUCCESS
          && 8 + Le32(polls[i].Buffer(), 20) + Le32(polls[i].Buffer(), 16) <= CONTROL_BUFFER_SIZE
          && (replyLen == -1 || Le32(polls[i].Buffer(), 16) == replyLen))
      ensures sendRet < 0 ==> ret == sendRet
      ensures sendRet >= 0 && statusRet < 0 ==> ret == statusRet
      ensures var i := FirstAnswer(polls, 0x8000_0004, TakeXid(old(xid)).0);
        sendRet >= 0 && statusRet >= 0 && ret != 0 ==>
          ret == if i == 10 then -110 else if polls[i].Status() != STATUS_SUCCESS then -47 else -33
      ensures ret == 0 ==>
        && at + len <= CONTROL_BUFFER_SIZE && (replyLen == -1 || len == replyLen)
        && buf[..] == polls[FirstAnswer(polls, 0x8000_0004, TakeXid(old(xid)).0)].Buffer()
        && len == Le32(buf[..], 16) && at == 8 + Le32(buf[..], 20)
    {
      hide Pongs, Poll.Buffer, FirstAnswer, Completed, ToLe32, Le32, IsQuery, OnWire;
      at, len := 0, 0;
      QueryIsNoReset();
      BuildQuery(buf, oid, inLen);
      QueryOnWire(buf[..], TakeXid(xid).0, oid, inLen);
      ret, sent := Command(buf, sendRet, statusRet, polls);
      if ret < 0 {
        return;
      }
      var off, n := Le32(buf[..], 20), Le32(buf[..], 16);
      if off > CONTROL_BUFFER_SIZE - 8 || n > CONTROL_BUFFER_SIZE - 8 - off || (replyLen != -1 && n != replyLen) {
        return -EDOM, 0, 0, sent;
      }
      at, len := 8 + off, n;
    }
  }
}
