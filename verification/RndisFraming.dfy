/**
 * Packet framing of the RNDIS host driver: rndis_tx_fixup prints one frame as a
 * REMOTE_NDIS_PACKET_MSG (section 2.2 of [MS-RNDIS]), rndis_rx_fixup takes a batch apart.
 * The arithmetic is the driver's: 32-bit and unsigned.
 */
module RndisFraming {
  import opened Bytes
  import opened SocketBuffer

  const MSG_PACKET: u32 := 1

  datatype Header = Header(msgType: u32, msgLen: u32, dataOffset: u32, dataLen: u32)

  function ReadHeader(mem: seq<byte>, data: nat): Header
    requires data + LOOKAHEAD <= |mem|
  {
    Header(Le32(mem, data), Le32(mem, data + 4), Le32(mem, data + 8), Le32(mem, data + 12))
  }

  /** The driver's test; the sum is taken in 32 bits and may wrap. */
  predicate Accepts(h: Header, len: nat) {
    h.msgType == MSG_PACKET && h.msgLen <= len && Wrap32(h.dataOffset + h.dataLen + 8) <= h.msgLen
  }

  predicate Wraps(h: Header) {
    h.dataOffset + h.dataLen + 8 >= 0x1_0000_0000
  }

  /** The data pointer once the header has been pulled off. */
  function Body(h: Header, data: nat, tail: nat): (body: nat)
    requires data <= tail
    ensures data <= body <= tail
  {
    Pulled(data, tail, Wrap32(8 + h.dataOffset))
  }

  /** The driver's "at most one packet left" test, unsigned. */
  predicate IsLast(h: Header, body: nat, tail: nat)
    requires body <= tail
  {
    Wrap32(h.dataLen - (tail - body)) <= HEADER
  }

  /** The data pointer at the next turn of the loop. */
  function Next(h: Header, body: nat, tail: nat): (next: nat)
    requires body <= tail
    ensures body <= next <= tail
  {
    Pulled(body, tail, Wrap32(h.msgLen - HEADER))
  }

  function Payload(mem: seq<byte>, h: Header, body: nat, tail: nat): seq<byte>
    requires body <= tail <= |mem|
  {
    mem[body..Trimmed(body, tail, h.dataLen)]
  }

  /** What the driver returns, the packets it handed over, and what it leaves in the buffer. */
  datatype RxOutcome = RxOutcome(ok: bool, delivered: seq<seq<byte>>, data: nat, tail: nat, errors: nat)

  /**
   * What the receive loop does to a buffer whose allocation holds `mem`, when the first `clones`
   * attempts to clone the buffer succeed and the next one fails.
   */
  function RxLoop(mem: seq<byte>, data: nat, tail: nat, clones: nat): (o: RxOutcome)
    requires data <= tail && tail + LOOKAHEAD <= |mem|
    ensures data <= o.data <= o.tail <= tail
    decreases clones
  {
    if data == tail then RxOutcome(true, [], data, tail, 0)
    else
      var h := ReadHeader(mem, data);
      if !Accepts(h, tail - data) then RxOutcome(false, [], data, tail, 1)
      else
        var body := Body(h, data, tail);
        if IsLast(h, body, tail) then RxOutcome(true, [], body, Trimmed(body, tail, h.dataLen), 0)
        else if clones == 0 then RxOutcome(true, [], body, tail, 0)
        else
          After([Payload(mem, h, body, tail)], RxLoop(mem, Next(h, body, tail), tail, clones - 1))
  }

  /** Outcome o, with the packets ps handed over before. */
  function After(ps: seq<seq<byte>>, o: RxOutcome): RxOutcome {
    o.(delivered := ps + o.delivered)
  }

  lemma AfterNothing(o: RxOutcome)
    ensures After([], o) == o
  {
    assert [] + o.delivered == o.delivered;
  }

  lemma AfterAfter(ps: seq<seq<byte>>, qs: seq<seq<byte>>, o: RxOutcome)
    ensures After(ps, After(qs, o)) == After(ps + qs, o)
  {
    assert ps + (qs + o.delivered) == ps + qs + o.delivered;
  }

  /** One turn of the loop, with the packets ps handed over before it. */
  lemma RxTurn(mem: seq<byte>, data: nat, tail: nat, clones: nat, h: Header, ps: seq<seq<byte>>)
    requires data < tail && tail + LOOKAHEAD <= |mem| && h == ReadHeader(mem, data)
    ensures After(ps, RxLoop(mem, data, tail, clones)) ==
      var body := Body(h, data, tail);
      if !Accepts(h, tail - data) then RxOutcome(false, ps, data, tail, 1)
      else if IsLast(h, body, tail) then RxOutcome(true, ps, body, Trimmed(body, tail, h.dataLen), 0)
      else if clones == 0 then RxOutcome(true, ps, body, tail, 0)
      else After(ps + [Payload(mem, h, body, tail)], RxLoop(mem, Next(h, body, tail), tail, clones - 1))
  {
    var body := Body(h, data, tail);
    if !Accepts(h, tail - data) || IsLast(h, body, tail) || clones == 0 {
      assert ps + [] == ps;
    } else {
      AfterAfter(ps, [Payload(mem, h, body, tail)], RxLoop(mem, Next(h, body, tail), tail, clones - 1));
    }
  }

  lemma RxDone(mem: seq<byte>, data: nat, clones: nat, ps: seq<seq<byte>>)
    requires data + LOOKAHEAD <= |mem|
    ensures After(ps, RxLoop(mem, data, data, clones)) == RxOutcome(true, ps, data, data, 0)
  {
    assert ps + [] == ps;
  }

  function RxFixup(hardHeaderLen: nat, mem: seq<byte>, data: nat, tail: nat, clones: nat): (o: RxOutcome)
    requires data <= tail && tail + LOOKAHEAD <= |mem|
    ensures data <= o.data <= o.tail <= tail
  {
    if tail - data < hardHeaderLen then RxOutcome(false, [], data, tail, 0) else RxLoop(mem, data, tail, clones)
  }

  /** The bytes rndis_tx_fixup puts on the wire for payload p. */
  function Framed(p: seq<byte>): (m: seq<byte>)
    requires |p| + HEADER < U32
    ensures |m| == |p| + HEADER
  {
    ToLe32(MSG_PACKET) + ToLe32(|p| + HEADER) + ToLe32(HEADER - 8) + ToLe32(|p|) + Zeros(28) + p
  }

  // ---- The driver's methods ----

  lemma PayloadIsContents(skb: Skb, h: Header, tail: nat)
    requires skb.Valid() && skb.data <= tail <= skb.buf.Length && skb.tail == Trimmed(skb.data, tail, h.dataLen)
    ensures Payload(skb.buf[..], h, skb.data, tail) == skb.Contents()
  {
  }

  class UsbNet {
    var hardHeaderLen: nat
    var rxFrameErrors: nat

    constructor (hardHeaderLen: nat)
      ensures this.hardHeaderLen == hardHeaderLen && rxFrameErrors == 0
    {
      this.hardHeaderLen := hardHeaderLen;
      rxFrameErrors := 0;
    }

    /** The receive fixup; `up` are the packets it hands to usbnet_skb_return, oldest first. */
    method ReceiveFixup(skb: Skb, clones: nat) returns (ok: bool, up: seq<seq<byte>>)
      requires skb.Valid()
      modifies this, skb
      ensures skb.Valid() && skb.SameAllocation()
      ensures hardHeaderLen == old(hardHeaderLen) && rxFrameErrors >= old(rxFrameErrors)
      ensures RxFixup(hardHeaderLen, skb.buf[..], old(skb.data), old(skb.tail), clones)
        == RxOutcome(ok, up, skb.data, skb.tail, rxFrameErrors - old(rxFrameErrors))
    {
      hide RxLoop, After, ReadHeader, Accepts, Wrap32, Payload, Skb.Contents;
      up := [];
      if skb.Len() < hardHeaderLen {
        return false, up;
      }
      ghost var mem := skb.buf[..];
      var left := clones;
      AfterNothing(RxLoop(mem, skb.data, skb.tail, left));
      while skb.Len() != 0
        invariant skb.Valid() && skb.SameAllocation() && skb.tail == old(skb.tail) && mem == skb.buf[..]
        invariant hardHeaderLen == old(hardHeaderLen) && rxFrameErrors == old(rxFrameErrors)
        invariant RxLoop(mem, old(skb.data), skb.tail, clones) == After(up, RxLoop(mem, skb.data, skb.tail, left))
        decreases left
      {
        var h := ReadHeader(skb.buf[..], skb.data);
        RxTurn(mem, skb.data, skb.tail, left, h, up);
        if !Accepts(h, skb.Len()) {
          rxFrameErrors := rxFrameErrors + 1;
          return false, up;
        }
        skb.Pull(Wrap32(8 + h.dataOffset));
        if Wrap32(h.dataLen - skb.Len()) <= HEADER {
          skb.Trim(h.dataLen);
          return true, up;
        }
        if left == 0 {
          return true, up;
        }
        left := left - 1;
        var skb2 := new Skb.Clone(skb);
        ghost var tail := skb.tail;
        skb.Pull(Wrap32(h.msgLen - HEADER));
        skb2.Trim(h.dataLen);
        PayloadIsContents(skb2, h, tail);
        up := up + [skb2.Contents()];
      }
      RxDone(mem, skb.data, left, up);
      return true, up;
    }

    /** The transmit fixup.  The buffer is given away; a failed copy leaves nothing to send. */
    method TransmitFixup(skb: Skb, copySucceeds: bool) returns (sent: Skb?)
      requires skb.Valid() && skb.Len() + HEADER < U32
      requires copySucceeds ==> HEADER + skb.Len() + 1 < U32
      modifies skb, skb.buf
      ensures sent == null <==>
                !copySucceeds && (old(skb.cloned) || old(skb.data - skb.head + skb.end - skb.tail) < HEADER)
      ensures sent != null ==> sent.Valid() && sent.Contents() == Framed(old(skb.Contents()))
      ensures sent != null && old(skb.cloned) ==> fresh(sent) && fresh(sent.buf) && skb.buf[..] == old(skb.buf[..])
    {
      ghost var payload := skb.Contents();
      sent := skb;
      var len := skb.Len();
      if skb.cloned || skb.data - skb.head + skb.end - skb.tail < HEADER {
        if !copySucceeds {
          return null;
        }
        sent := new Skb(HEADER, skb.Contents(), 1);
      } else if skb.data - skb.head < HEADER {
        skb.Slide(skb.head + HEADER);
      }
      assert sent.Valid() && sent.Contents() == payload && sent.data - sent.head >= HEADER;
      sent.PushHeader();
      Fill(sent, len, payload);
    }

    /** Write the header into the 44 bytes just pushed. */
    static method Fill(skb: Skb, len: u32, ghost payload: seq<byte>)
      requires skb.Valid() && skb.Len() == len + HEADER < U32
      requires |payload| == len && skb.Contents()[HEADER..] == payload
      modifies skb.buf
      ensures skb.Contents() == Framed(payload)
    {
      var d := skb.data;
      var words := ToLe32(MSG_PACKET) + ToLe32(skb.Len()) + ToLe32(HEADER - 8) + ToLe32(len);
      var header := words + Zeros(28);
      forall i | 0 <= i < HEADER {
        skb.buf[d + i] := header[i];
      }
      assert skb.buf[d..d + HEADER] == header;
      assert skb.buf[d + HEADER..skb.tail] == payload;
      assert skb.Contents() == header + payload;
    }
  }
}
