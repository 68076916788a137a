/** The kernel's socket buffer, as far as the RNDIS driver uses it. */
module SocketBuffer {
  import opened Bytes

  /** sizeof (struct rndis_data_hdr): eleven 32-bit words. */
  const HEADER: nat := 44

  /** How far a header read may run past the data: the four words the driver looks at. */
  const LOOKAHEAD: nat := 16

  /** Where skb_pull leaves the data pointer: a request for more than there is changes nothing. */
  function Pulled(data: nat, tail: nat, n: nat): (data': nat)
    requires data <= tail
    ensures data <= data' <= tail
  {
    if n <= tail - data then data + n else data
  }

  /** Where skb_trim leaves the tail pointer. */
  function Trimmed(data: nat, tail: nat, n: nat): (tail': nat)
    requires data <= tail
    ensures data <= tail' <= tail
  {
    if n < tail - data then data + n else tail
  }

  class Skb {
    /** The allocation.  The kernel puts its shared-info block right behind `end`, so memory goes on there. */
    var buf: array<byte>
    var head: nat
    var data: nat
    var tail: nat
    var end: nat
    var cloned: bool

    ghost predicate Valid()
      reads this
    {
      head <= data <= tail <= end && end + LOOKAHEAD <= buf.Length && end - head < U32
    }

    twostate predicate SameAllocation()
      reads this
    {
      buf == old(buf) && head == old(head) && end == old(end) && cloned == old(cloned)
    }

    function Len(): nat
      reads this
      requires Valid()
    {
      tail - data
    }

    function Contents(): seq<byte>
      reads this, buf
      requires Valid()
    {
      buf[data..tail]
    }

    constructor (headroom: nat, payload: seq<byte>, tailroom: nat)
      requires headroom + |payload| + tailroom < U32
      ensures Valid() && fresh(buf) && Contents() == payload
      ensures head == 0 && data == headroom && end == tail + tailroom && !cloned
    {
      var b := new byte[headroom + |payload| + tailroom + LOOKAHEAD](_ => 0);
      forall i | 0 <= i < |payload| {
        b[headroom + i] := payload[i];
      }
      buf, head, data := b, 0, headroom;
      tail, end := headroom + |payload|, headroom + |payload| + tailroom;
      cloned := false;
      new;
      assert Contents() == payload;
    }

    /** skb_clone: a second descriptor over the same allocation. */
    constructor Clone(from: Skb)
      requires from.Valid()
      ensures Valid() && buf == from.buf && data == from.data && tail == from.tail && cloned
    {
      buf, head, data, tail, end := from.buf, from.head, from.data, from.tail, from.end;
      cloned := true;
    }

    method Pull(n: nat)
      requires Valid()
      modifies this
      ensures Valid() && SameAllocation() && tail == old(tail)
      ensures data == Pulled(old(data), tail, n)
    {
      if n <= tail - data {
        data := data + n;
      }
    }

    method Trim(n: nat)
      requires Valid()
      modifies this
      ensures Valid() && SameAllocation() && data == old(data)
      ensures tail == Trimmed(data, old(tail), n)
    {
      if n < tail - data {
        tail := data + n;
      }
    }

    /** Move the data so that it starts at `to`: memmove, source and destination may overlap. */
    method Slide(to: nat)
      requires Valid() && head <= to && to + (tail - data) <= end
      modifies this, buf
      ensures Valid() && SameAllocation() && data == to
      ensures Contents() == old(Contents())
    {
      var len := tail - data;
      ghost var was := Contents();
      assert forall i :: 0 <= i < len ==> was[i] == buf[data + i];
      forall i | 0 <= i < len {
        buf[to + i] := buf[data + i];
      }
      data, tail := to, to + len;
      assert forall i :: 0 <= i < len ==> buf[to + i] == was[i];
      assert Contents() == was;
    }

    /** __skb_push of a header; the caller has seen to the headroom. */
    method PushHeader()
      requires Valid() && data - head >= HEADER
      modifies this
      ensures Valid() && SameAllocation() && tail == old(tail) && data == old(data) - HEADER
    {
      data := data - HEADER;
    }
  }
}
