/** What the receive loop makes of a batch, against an independent definition of batches. */
module RndisBatch {
  import opened Bytes
  import opened SocketBuffer
  import opened RndisFraming

  /** A packet message with its payload right behind the header and, possibly, padding after it. */
  predicate IsMessage(m: seq<byte>) {
    && HEADER <= |m| < U32
    && Le32(m, 0) == MSG_PACKET && Le32(m, 4) == |m| && Le32(m, 8) == HEADER - 8
    && HEADER + Le32(m, 12) <= |m|
  }

  function PayloadOf(m: seq<byte>): seq<byte>
    requires IsMessage(m)
  {
    m[HEADER..HEADER + Le32(m, 12)]
  }

  predicate AreMessages(ms: seq<seq<byte>>) {
    forall i :: 0 <= i < |ms| ==> IsMessage(ms[i])
  }

  function Payloads(ms: seq<seq<byte>>): (ps: seq<seq<byte>>)
    requires AreMessages(ms)
    ensures |ps| == |ms| && forall i :: 0 <= i < |ms| ==> ps[i] == PayloadOf(ms[i])
  {
    if ms == [] then [] else [PayloadOf(ms[0])] + Payloads(ms[1..])
  }

  function Flatten(ms: seq<seq<byte>>): seq<byte> {
    if ms == [] then [] else ms[0] + Flatten(ms[1..])
  }

  lemma SliceOfSlice(s: seq<byte>, a: nat, b: nat, c: nat, d: nat)
    requires a <= b <= |s| && c <= d <= b - a
    ensures s[a..b][c..d] == s[a + c..a + d]
  {
    forall i | 0 <= i < d - c ensures s[a..b][c..d][i] == s[a + c..a + d][i] {
    }
  }

  lemma HeaderAt(mem: seq<byte>, data: nat, m: seq<byte>)
    requires At(mem, data, m) && |m| >= LOOKAHEAD
    ensures ReadHeader(mem, data) == ReadHeader(m, 0)
  {
    forall i: nat | i + 4 <= LOOKAHEAD ensures Le32(mem, data + i) == Le32(m, i) {
      SliceOfSlice(mem, data, data + |m|, i, i + 4);
      WordAt(mem, data + i);
      WordAt(m, i);
    }
  }

  /** Well-formed bytes that stop at `end`: nothing is left, or what is left the driver refuses. */
  ghost predicate Ends(mem: seq<byte>, end: nat, tail: nat)
    requires end <= tail && tail + LOOKAHEAD <= |mem|
  {
    end < tail ==> !Accepts(ReadHeader(mem, end), tail - end)
  }

  /**
   * The outcome for messages ms that stop at `end`.  An unpadded message at the very end stays in
   * the buffer as the packet the caller will return; everything else goes up through a clone.
   */
  function Expected(ms: seq<seq<byte>>, end: nat, tail: nat): RxOutcome
    requires AreMessages(ms) && |Flatten(ms)| <= end <= tail
  {
    if end < tail then RxOutcome(false, Payloads(ms), end, tail, 1)
    else if ms != [] && |PayloadOf(ms[|ms| - 1])| + HEADER == |ms[|ms| - 1]| then
      FlattenLast(ms);
      RxOutcome(true, Payloads(ms)[..|ms| - 1], tail - |PayloadOf(ms[|ms| - 1])|, tail, 0)
    else RxOutcome(true, Payloads(ms), tail, tail, 0)
  }

  lemma {:induction false} FlattenLast(ms: seq<seq<byte>>)
    requires ms != []
    ensures |ms[|ms| - 1]| <= |Flatten(ms)|
  {
    if |ms| > 1 {
      FlattenLast(ms[1..]);
    }
  }

  /** The cursor arithmetic for a message with data offset 36 whose fields do not wrap. */
  lemma FirstTurn(h: Header, data: nat, tail: nat)
    requires h.msgType == MSG_PACKET && h.dataOffset == HEADER - 8 && !Wraps(h)
    requires HEADER + h.dataLen <= h.msgLen <= tail - data < U32 - HEADER
    ensures Accepts(h, tail - data) && Body(h, data, tail) == data + HEADER
    ensures IsLast(h, data + HEADER, tail) <==> h.dataLen == tail - data - HEADER
    ensures Next(h, data + HEADER, tail) == data + h.msgLen
  {
    var left := tail - data - HEADER;
    assert Wrap32(h.dataLen - left) == if h.dataLen == left then 0 else 0x1_0000_0000 + h.dataLen - left;
  }

  lemma MessageSizes(m: seq<byte>)
    requires IsMessage(m)
    ensures |PayloadOf(m)| + HEADER <= |m|
  {
  }

  /** The loop's turn on a message: it is the last packet, or it goes up through a clone. */
  lemma MessageTurn(mem: seq<byte>, data: nat, tail: nat, clones: nat, m: seq<byte>)
    requires IsMessage(m) && At(mem, data, m) && data + |m| <= tail && tail + LOOKAHEAD <= |mem|
    requires tail - data < U32 - HEADER
    ensures |PayloadOf(m)| + HEADER == tail - data ==>
      RxLoop(mem, data, tail, clones) == RxOutcome(true, [], tail - |PayloadOf(m)|, tail, 0)
    ensures |PayloadOf(m)| + HEADER != tail - data && clones > 0 ==>
      RxLoop(mem, data, tail, clones) == After([PayloadOf(m)], RxLoop(mem, data + |m|, tail, clones - 1))
  {
    hide RxLoop, ReadHeader, Accepts, Body, IsLast, Next;
    var h := ReadHeader(mem, data);
    MessageHeader(mem, data, m);
    FirstTurn(h, data, tail);
    RxTurn(mem, data, tail, clones, h, []);
    AfterNothing(RxLoop(mem, data, tail, clones));
    if h.dataLen != tail - data - HEADER {
      MessageSizes(m);
      assert PayloadOf(m) == m[HEADER..HEADER + h.dataLen];
      assert Trimmed(data + HEADER, tail, h.dataLen) == data + HEADER + h.dataLen;
      SliceOfSlice(mem, data, data + |m|, HEADER, HEADER + h.dataLen);
      assert [] + [PayloadOf(m)] == [PayloadOf(m)];
    }
  }

  lemma MessageHeader(mem: seq<byte>, data: nat, m: seq<byte>)
    requires IsMessage(m) && At(mem, data, m)
    ensures ReadHeader(mem, data) == Header(MSG_PACKET, |m|, HEADER - 8, |PayloadOf(m)|)
    ensures !Wraps(ReadHeader(mem, data))
  {
    HeaderAt(mem, data, m);
  }

  /** The driver's loop yields exactly the expected outcome. */
  lemma {:induction false} ParsesBatch(mem: seq<byte>, data: nat, tail: nat, clones: nat, ms: seq<seq<byte>>)
    requires AreMessages(ms) && At(mem, data, Flatten(ms))
    requires var end := data + |Flatten(ms)|; end <= tail && tail + LOOKAHEAD <= |mem| && Ends(mem, end, tail)
    requires tail - data < U32 - HEADER && clones >= |ms|
    ensures RxLoop(mem, data, tail, clones) == Expected(ms, data + |Flatten(ms)|, tail)
    decreases |ms|
  {
    hide IsMessage, PayloadOf, At, RxLoop, Expected, Flatten, Payloads, Ends;
    if ms == [] {
      NothingExpected(mem, data, tail, clones, ms);
    } else {
      var m, rest := ms[0], ms[1..];
      FlattenCons(ms);
      AtSplit(mem, data, m, Flatten(rest));
      MessageSizes(m);
      MessageTurn(mem, data, tail, clones, m);
      if |PayloadOf(m)| + HEADER == tail - data {
        LastExpected(m, rest, data + |Flatten(ms)|, tail);
      } else {
        ParsesBatch(mem, data + |m|, tail, clones - 1, rest);
        ExpectedCons(m, rest, data + |Flatten(ms)|, tail);
      }
      assert ms == [m] + rest;
    }
  }

  lemma NothingExpected(mem: seq<byte>, data: nat, tail: nat, clones: nat, ms: seq<seq<byte>>)
    requires ms == [] && data + |Flatten(ms)| <= tail && tail + LOOKAHEAD <= |mem|
    requires Ends(mem, data + |Flatten(ms)|, tail)
    ensures RxLoop(mem, data, tail, clones) == Expected(ms, data + |Flatten(ms)|, tail)
  {
  }

  lemma FlattenCons(ms: seq<seq<byte>>)
    requires ms != []
    ensures Flatten(ms) == ms[0] + Flatten(ms[1..])
    ensures AreMessages(ms) ==> AreMessages(ms[1..])
    ensures |ms| == 1 ==> Flatten(ms[1..]) == []
  {
  }

  lemma LastExpected(m: seq<byte>, rest: seq<seq<byte>>, end: nat, tail: nat)
    requires IsMessage(m) && AreMessages(rest)
    requires |m| + |Flatten(rest)| <= |PayloadOf(m)| + HEADER && |m| <= end == tail
    ensures AreMessages([m] + rest) && rest == [] && |Flatten([m] + rest)| <= end
    ensures Expected([m] + rest, end, tail) == RxOutcome(true, [], tail - |PayloadOf(m)|, tail, 0)
  {
    MessageSizes(m);
    if rest != [] {
      MessageSizes(rest[0]);
    }
    assert [m] + rest == [m] && Flatten([m]) == m + [];
    assert Payloads([m])[..0] == [];
  }

  lemma ExpectedCons(m: seq<byte>, rest: seq<seq<byte>>, end: nat, tail: nat)
    requires IsMessage(m) && AreMessages(rest) && |m| + |Flatten(rest)| <= end <= tail
    requires rest == [] && end == tail ==> |PayloadOf(m)| + HEADER != |m|
    ensures AreMessages([m] + rest) && |Flatten([m] + rest)| <= end
    ensures Expected([m] + rest, end, tail) == After([PayloadOf(m)], Expected(rest, end, tail))
  {
    hide IsMessage, PayloadOf, Flatten, Payloads;
    var ms := [m] + rest;
    assert ms[1..] == rest;
    FlattenCons(ms);
    assert Payloads(ms) == [PayloadOf(m)] + Payloads(rest);
    if rest != [] {
      assert ms[|ms| - 1] == rest[|rest| - 1];
    }
  }

  // ---- Every input the driver handles as its author meant ----

  /**
   * Every message accepted at a message boundary has data offset 36 and fields whose sum fits in 32
   * bits.  Nothing is asked of the first message that is refused, or of what follows it.
   */
  ghost predicate Standard(mem: seq<byte>, data: nat, tail: nat)
    requires data <= tail && tail + LOOKAHEAD <= |mem|
    decreases tail - data
  {
    data < tail ==>
      var h := ReadHeader(mem, data);
      Accepts(h, tail - data) ==>
        h.dataOffset == HEADER - 8 && !Wraps(h) && Standard(mem, data + h.msgLen, tail)
  }

  /** The longest well-formed prefix, message by message. */
  ghost function Segments(mem: seq<byte>, data: nat, tail: nat): seq<seq<byte>>
    requires data <= tail && tail + LOOKAHEAD <= |mem| && Standard(mem, data, tail)
    decreases tail - data
  {
    if data == tail || !Accepts(ReadHeader(mem, data), tail - data) then []
    else
      var next := data + ReadHeader(mem, data).msgLen;
      [mem[data..next]] + Segments(mem, next, tail)
  }

  lemma AcceptedIsMessage(mem: seq<byte>, data: nat, tail: nat)
    requires data < tail && tail + LOOKAHEAD <= |mem|
    requires var h := ReadHeader(mem, data); Accepts(h, tail - data) && h.dataOffset == HEADER - 8 && !Wraps(h)
    ensures var next := data + ReadHeader(mem, data).msgLen;
      data < next <= tail && At(mem, data, mem[data..next]) && IsMessage(mem[data..next])
  {
    HeaderAt(mem, data, mem[data..data + ReadHeader(mem, data).msgLen]);
  }

  lemma {:induction false} SegmentsAreMessages(mem: seq<byte>, data: nat, tail: nat)
    requires data <= tail && tail + LOOKAHEAD <= |mem| && Standard(mem, data, tail)
    ensures var ms := Segments(mem, data, tail);
      && AreMessages(ms) && At(mem, data, Flatten(ms))
      && data + |Flatten(ms)| <= tail && Ends(mem, data + |Flatten(ms)|, tail)
      && |ms| <= tail - data
    decreases tail - data
  {
    hide ReadHeader, Accepts, IsMessage, Wraps;
    if data < tail && Accepts(ReadHeader(mem, data), tail - data) {
      AcceptedIsMessage(mem, data, tail);
      var next := data + ReadHeader(mem, data).msgLen;
      var rest := Segments(mem, next, tail);
      SegmentsAreMessages(mem, next, tail);
      AtSplit(mem, data, mem[data..next], Flatten(rest));
      assert ([mem[data..next]] + rest)[1..] == rest;
    }
  }

  /** No list of messages at the front of the buffer goes further than Segments. */
  lemma {:induction false} SegmentsAreLongest(mem: seq<byte>, data: nat, tail: nat, ms: seq<seq<byte>>)
    requires data <= tail && tail + LOOKAHEAD <= |mem| && Standard(mem, data, tail)
    requires AreMessages(ms) && At(mem, data, Flatten(ms)) && data + |Flatten(ms)| <= tail
    requires tail - data < U32 - HEADER
    ensures ms <= Segments(mem, data, tail)
    decreases |ms|
  {
    hide ReadHeader, IsMessage, Accepts, At, PayloadOf, Flatten, Body, IsLast, Next;
    if ms != [] {
      var m := ms[0];
      FlattenCons(ms);
      AtSplit(mem, data, m, Flatten(ms[1..]));
      MessageHeader(mem, data, m);
      MessageSizes(m);
      FirstTurn(ReadHeader(mem, data), data, tail);
      AtIs(mem, data, m);
      SegmentsAreLongest(mem, data + |m|, tail, ms[1..]);
      assert ms == [m] + ms[1..];
    }
  }

  /** For every standard input the driver delivers the payloads of the longest well-formed prefix. */
  lemma DeliversLongestPrefix(mem: seq<byte>, data: nat, tail: nat, clones: nat)
    requires data <= tail && tail + LOOKAHEAD <= |mem| && Standard(mem, data, tail)
    requires tail - data < U32 - HEADER && clones >= tail - data
    ensures var ms := Segments(mem, data, tail);
      && AreMessages(ms) && data + |Flatten(ms)| <= tail
      && RxLoop(mem, data, tail, clones) == Expected(ms, data + |Flatten(ms)|, tail)
  {
    hide *;
    SegmentsAreMessages(mem, data, tail);
    ParsesBatch(mem, data, tail, clones, Segments(mem, data, tail));
  }

  /** A buffer shorter than a header is refused untouched, and no error is counted. */
  lemma ShortRefused(hardHeaderLen: nat, mem: seq<byte>, data: nat, tail: nat, clones: nat)
    requires data <= tail && tail + LOOKAHEAD <= |mem| && tail - data < hardHeaderLen
    ensures RxFixup(hardHeaderLen, mem, data, tail, clones) == RxOutcome(false, [], data, tail, 0)
  {
  }

  // ---- Round trip ----

  /** What goes on the wire, word by word: type, length, data offset counted from its own field, data length, zeros
      for the other seven words, and the payload. */
  lemma FramedWords(p: seq<byte>)
    requires |p| + HEADER < U32
    ensures var m := Framed(p);
            && |m| == 44 + |p|
            && Le32(m, 0) == 1 && Le32(m, 4) == |m| && Le32(m, 8) == 36 && Le32(m, 12) == |p|
            && (forall i :: 16 <= i < 44 ==> m[i] == 0) && m[44..] == p
  {
    hide ToLe32;
    var m := Framed(p);
    assert m[0..4] == ToLe32(MSG_PACKET) && m[4..8] == ToLe32(|p| + HEADER);
    assert m[8..12] == ToLe32(HEADER - 8) && m[12..16] == ToLe32(|p|);
    assert m[16..44] == Zeros(28);
    WordAt(m, 0);
    WordAt(m, 4);
    WordAt(m, 8);
    WordAt(m, 12);
    forall i | 16 <= i < 44 ensures m[i] == 0 {
      assert m[i] == m[16..44][i - 16];
    }
  }

  predicate Framable(fs: seq<seq<byte>>) {
    forall i :: 0 <= i < |fs| ==> |fs[i]| + HEADER < U32
  }

  function FramedAll(fs: seq<seq<byte>>): (ms: seq<seq<byte>>)
    requires Framable(fs)
    ensures |ms| == |fs| && forall i :: 0 <= i < |fs| ==> ms[i] == Framed(fs[i])
  {
    seq(|fs|, i requires 0 <= i < |fs| => Framed(fs[i]))
  }

  lemma FramedIsMessage(p: seq<byte>)
    requires |p| + HEADER < U32
    ensures IsMessage(Framed(p)) && PayloadOf(Framed(p)) == p
  {
    var m := Framed(p);
    var words := ToLe32(MSG_PACKET) + ToLe32(|p| + HEADER) + ToLe32(HEADER - 8) + ToLe32(|p|);
    assert m[..16] == words;
    assert m[0..4] == ToLe32(MSG_PACKET) && m[4..8] == ToLe32(|p| + HEADER);
    assert m[8..12] == ToLe32(HEADER - 8) && m[12..16] == ToLe32(|p|);
    WordAt(m, 0);
    WordAt(m, 4);
    WordAt(m, 8);
    WordAt(m, 12);
    assert m[HEADER..] == p;
  }

  lemma FramedAllAreMessages(fs: seq<seq<byte>>)
    requires Framable(fs)
    ensures AreMessages(FramedAll(fs)) && Payloads(FramedAll(fs)) == fs
  {
    hide Framed, IsMessage, PayloadOf;
    forall i | 0 <= i < |fs| ensures IsMessage(FramedAll(fs)[i]) && PayloadOf(FramedAll(fs)[i]) == fs[i] {
      FramedIsMessage(fs[i]);
    }
  }

  /** Frames sent one after the other come out of the receive fixup unchanged and in order. */
  lemma RoundTrip(hardHeaderLen: nat, fs: seq<seq<byte>>, mem: seq<byte>, data: nat, clones: nat)
    requires fs != [] && Framable(fs) && clones >= |fs|
    requires var wire := Flatten(FramedAll(fs));
      hardHeaderLen <= |wire| < U32 - HEADER && At(mem, data, wire) && data + |wire| + LOOKAHEAD <= |mem|
    ensures var tail := data + |Flatten(FramedAll(fs))|;
      var o := RxFixup(hardHeaderLen, mem, data, tail, clones);
      && o.ok && o.errors == 0
      && o.delivered == fs[..|fs| - 1]
      && mem[o.data..o.tail] == fs[|fs| - 1]
  {
    hide RxLoop, IsMessage, PayloadOf, Framed, Flatten, FramedAll, Payloads;
    var ms, n := FramedAll(fs), |fs| - 1;
    var tail := data + |Flatten(ms)|;
    FramedAllAreMessages(fs);
    ParsesBatch(mem, data, tail, clones, ms);
    assert PayloadOf(ms[n]) == Payloads(ms)[n] == fs[n];
    LastAtEnd(mem, data, ms);
    FramedTail(fs[n]);
    assert |ms[n]| == |fs[n]| + HEADER;
    assert mem[tail - |fs[n]|..tail] == mem[tail - |ms[n]|..tail][HEADER..];
  }

  lemma FramedTail(p: seq<byte>)
    requires |p| + HEADER < U32
    ensures Framed(p)[HEADER..] == p
  {
  }

  lemma {:induction false} LastAtEnd(mem: seq<byte>, data: nat, ms: seq<seq<byte>>)
    requires ms != [] && At(mem, data, Flatten(ms))
    ensures |ms[|ms| - 1]| <= |Flatten(ms)|
    ensures At(mem, data + |Flatten(ms)| - |ms[|ms| - 1]|, ms[|ms| - 1])
    decreases |ms|
  {
    AtSplit(mem, data, ms[0], Flatten(ms[1..]));
    if |ms| > 1 {
      LastAtEnd(mem, data + |ms[0]|, ms[1..]);
    }
  }

  /** A batch followed by zero bytes: all payloads are delivered, and the driver reports an error. */
  lemma ZerosAfterBatch(mem: seq<byte>, data: nat, tail: nat, clones: nat, ms: seq<seq<byte>>)
    requires AreMessages(ms) && At(mem, data, Flatten(ms)) && clones >= |ms|
    requires data + |Flatten(ms)| < tail && tail + LOOKAHEAD <= |mem| && tail - data < U32 - HEADER
    requires mem[data + |Flatten(ms)|] == 0
    ensures RxLoop(mem, data, tail, clones)
         == RxOutcome(false, Payloads(ms), data + |Flatten(ms)|, tail, 1)
  {
    var end := data + |Flatten(ms)|;
    assert ReadHeader(mem, end).msgType % 2 == 0;
    ParsesBatch(mem, data, tail, clones, ms);
  }

  /** Message j is not the one that stays in the buffer as the last. */
  predicate NotLast(ms: seq<seq<byte>>, j: nat, data: nat, tail: nat)
    requires AreMessages(ms) && j < |ms|
  {
    data + |Flatten(ms[..j])| + HEADER + |PayloadOf(ms[j])| != tail
  }

  /** When memory for a clone is first short at message `clones` of a batch, those before it are delivered, and all
      from its payload on, other headers and padding with it, is left to go up as one packet with no error. */
  lemma {:induction false} RunsOutOfClones(mem: seq<byte>, data: nat, tail: nat, clones: nat, ms: seq<seq<byte>>)
    requires AreMessages(ms) && At(mem, data, Flatten(ms)) && clones < |ms| && NotLast(ms, clones, data, tail)
    requires data + |Flatten(ms)| <= tail && tail + LOOKAHEAD <= |mem| && tail - data < U32 - HEADER
    ensures RxLoop(mem, data, tail, clones)
         == RxOutcome(true, Payloads(ms[..clones]), data + |Flatten(ms[..clones])| + HEADER, tail, 0)
    decreases clones
  {
    hide IsMessage, PayloadOf, At, RxLoop, Flatten, Payloads;
    var m, rest := ms[0], ms[1..];
    FlattenCons(ms);
    AtSplit(mem, data, m, Flatten(rest));
    MessageSizes(m);
    if clones == 0 {
      NothingFlat(ms);
      NoCloneTurn(mem, data, tail, m);
    } else {
      var front := ms[..clones];
      FlattenCons(front);
      FlattenCons(rest);
      MessageSizes(rest[0]);
      assert front[1..] == rest[..clones - 1] && front == [m] + rest[..clones - 1];
      MessageTurn(mem, data, tail, clones, m);
      RunsOutOfClones(mem, data + |m|, tail, clones - 1, rest);
      PayloadsCons(m, rest[..clones - 1]);
    }
  }

  lemma PayloadsCons(m: seq<byte>, rest: seq<seq<byte>>)
    requires IsMessage(m) && AreMessages(rest)
    ensures Payloads([m] + rest) == [PayloadOf(m)] + Payloads(rest)
  {
    assert ([m] + rest)[1..] == rest;
  }

  lemma NothingFlat(ms: seq<seq<byte>>)
    ensures Flatten(ms[..0]) == [] && Payloads(ms[..0]) == []
  {
  }

  lemma NoCloneTurn(mem: seq<byte>, data: nat, tail: nat, m: seq<byte>)
    requires IsMessage(m) && At(mem, data, m) && data + |m| <= tail && tail + LOOKAHEAD <= |mem|
    requires tail - data < U32 - HEADER && data + HEADER + |PayloadOf(m)| != tail
    ensures RxLoop(mem, data, tail, 0) == RxOutcome(true, [], data + HEADER, tail, 0)
  {
    hide RxLoop, ReadHeader, Accepts, Body, IsLast, Next;
    var h := ReadHeader(mem, data);
    MessageHeader(mem, data, m);
    FirstTurn(h, data, tail);
    RxTurn(mem, data, tail, 0, h, []);
    AfterNothing(RxLoop(mem, data, tail, 0));
  }

  // ---- Termination, for all inputs ----

  /** Some turn of the loop leaves the buffer as it found it. */
  ghost predicate ReachesStall(mem: seq<byte>, data: nat, tail: nat)
    requires data <= tail && tail + LOOKAHEAD <= |mem|
    decreases tail - data
  {
    && data < tail
    && var h := ReadHeader(mem, data);
    && Accepts(h, tail - data)
    && var body := Body(h, data, tail);
    && !IsLast(h, body, tail)
    && var next := Next(h, body, tail);
    next == data || ReachesStall(mem, next, tail)
  }

  /** After a stall the loop only ends when memory for clones runs out. */
  lemma {:induction false} StallSpins(mem: seq<byte>, data: nat, tail: nat, clones: nat)
    requires data <= tail && tail + LOOKAHEAD <= |mem| && ReachesStall(mem, data, tail)
    ensures |RxLoop(mem, data, tail, clones).delivered| == clones
    decreases clones
  {
    if clones > 0 {
      var h := ReadHeader(mem, data);
      StallSpins(mem, Next(h, Body(h, data, tail), tail), tail, clones - 1);
    }
  }

  lemma {:induction false} NoStallEnds(mem: seq<byte>, data: nat, tail: nat, clones: nat)
    requires data <= tail && tail + LOOKAHEAD <= |mem| && !ReachesStall(mem, data, tail)
    ensures |RxLoop(mem, data, tail, clones).delivered| <= tail - data
    ensures clones >= tail - data ==> RxLoop(mem, data, tail, clones) == RxLoop(mem, data, tail, tail - data)
    decreases tail - data
  {
    hide ReadHeader, Accepts, Body, IsLast, Next, Payload;
    if data < tail {
      var h := ReadHeader(mem, data);
      var body := Body(h, data, tail);
      if Accepts(h, tail - data) && !IsLast(h, body, tail) && clones > 0 {
        var next := Next(h, body, tail);
        NoStallEnds(mem, next, tail, clones - 1);
        NoStallEnds(mem, next, tail, tail - data - 1);
      }
    }
  }

  /** The loop ends by itself, however many clones succeed, exactly when no turn stalls. */
  lemma EndsIffNoStall(mem: seq<byte>, data: nat, tail: nat)
    requires data <= tail && tail + LOOKAHEAD <= |mem|
    ensures !ReachesStall(mem, data, tail)
       <==> forall clones: nat :: |RxLoop(mem, data, tail, clones).delivered| <= tail - data
  {
    if ReachesStall(mem, data, tail) {
      StallSpins(mem, data, tail, tail - data + 1);
    } else {
      forall clones: nat ensures |RxLoop(mem, data, tail, clones).delivered| <= tail - data {
        NoStallEnds(mem, data, tail, clones);
      }
    }
  }

  /** Some header the loop accepts has fields whose sum does not fit in 32 bits. */
  ghost predicate ReachesWrap(mem: seq<byte>, data: nat, tail: nat)
    requires data <= tail && tail + LOOKAHEAD <= |mem|
    decreases tail - data
  {
    && data < tail
    && var h := ReadHeader(mem, data);
    && Accepts(h, tail - data)
    && var body := Body(h, data, tail);
    (Wraps(h) || (!IsLast(h, body, tail) && data < Next(h, body, tail) && ReachesWrap(mem, Next(h, body, tail), tail)))
  }

  /** Whatever the data offsets, only a wrapping header can stall the loop. */
  lemma {:induction false} StallNeedsWrap(mem: seq<byte>, data: nat, tail: nat)
    requires data <= tail && tail + LOOKAHEAD <= |mem| && ReachesStall(mem, data, tail)
    ensures ReachesWrap(mem, data, tail)
    decreases tail - data
  {
    hide ReadHeader, IsLast;
    var h := ReadHeader(mem, data);
    if !Wraps(h) {
      var body := Body(h, data, tail);
      assert body == data + 8 + h.dataOffset;
      StallNeedsWrap(mem, Next(h, body, tail), tail);
    }
  }

  /** The headers that keep the loop in place: the message is no longer than its header, the offset carries the data
      pointer nowhere or too far, and the data length is not near what is left in the buffer. */
  lemma StallingHeader(h: Header, data: nat, tail: nat)
    requires data < tail && tail - data < U32 - HEADER && Accepts(h, tail - data)
    ensures !IsLast(h, Body(h, data, tail), tail) && Next(h, Body(h, data, tail), tail) == data <==>
      && h.msgLen <= HEADER
      && (h.dataOffset == U32 - 8 || Wrap32(h.dataOffset + 8) > tail - data)
      && !(tail - data <= h.dataLen <= tail - data + HEADER)
  {
    var len := tail - data;
    assert Wrap32(h.msgLen - HEADER)
        == if h.msgLen >= HEADER then h.msgLen - HEADER else 0x1_0000_0000 + h.msgLen - HEADER;
    assert Wrap32(h.dataLen - len) == if h.dataLen >= len then h.dataLen - len else 0x1_0000_0000 + h.dataLen - len;
  }

  lemma WrapHeader(mem: seq<byte>)
    requires mem == ToLe32(MSG_PACKET) + ToLe32(HEADER) + ToLe32(0xFFFF_FFF8) + ToLe32(0) + Zeros(58)
    ensures ReadHeader(mem, 0) == Header(MSG_PACKET, HEADER, 0xFFFF_FFF8, 0)
  {
    hide ToLe32;
    assert mem[0..4] == ToLe32(MSG_PACKET) && mem[4..8] == ToLe32(HEADER);
    assert mem[8..12] == ToLe32(0xFFFF_FFF8) && mem[12..16] == ToLe32(0);
    WordAt(mem, 0);
    WordAt(mem, 4);
    WordAt(mem, 8);
    WordAt(mem, 12);
  }

  /** Such a header exists: 58 bytes that keep the loop in place. */
  lemma WrapCanStall()
    ensures var mem := ToLe32(MSG_PACKET) + ToLe32(HEADER) + ToLe32(0xFFFF_FFF8) + ToLe32(0) + Zeros(58);
      ReachesStall(mem, 0, 58)
  {
    var mem := ToLe32(MSG_PACKET) + ToLe32(HEADER) + ToLe32(0xFFFF_FFF8) + ToLe32(0) + Zeros(58);
    hide ReadHeader, ToLe32;
    WrapHeader(mem);
  }

  /** When the cursor lands on the end of the message it has just handed over. */
  lemma CursorLandsOnMessageEnd(h: Header, data: nat, tail: nat)
    requires data <= tail && tail - data < U32 - HEADER && Accepts(h, tail - data) && !Wraps(h)
    requires !IsLast(h, Body(h, data, tail), tail)
    ensures Next(h, Body(h, data, tail), tail) == data + h.msgLen <==>
      (h.dataOffset == HEADER - 8
      || (h.dataOffset + 8 == h.msgLen && (h.msgLen < HEADER || 2 * h.msgLen - HEADER > tail - data)))
  {
    var body := Body(h, data, tail);
    assert body == data + 8 + h.dataOffset;
    assert Wrap32(h.msgLen - HEADER)
        == if h.msgLen >= HEADER then h.msgLen - HEADER else 0x1_0000_0000 + h.msgLen - HEADER;
  }
}
