/** Size negotiation in generic_rndis_bind: the frame limit and the receive buffer. */
module RndisMtu {
  import opened Bytes
  import opened SocketBuffer
  import opened RndisFraming

  const EINVAL: int := 22

  function Pow2(k: nat): (p: nat)
    ensures p >= 1
  {
    if k == 0 then 1 else 2 * Pow2(k - 1)
  }

  /** Bitwise and of two words of w bits. */
  function And(x: int, y: int, w: nat): nat
    decreases w
  {
    if w == 0 then 0 else x % 2 * (y % 2) + 2 * And(x / 2, y / 2, w - 1)
  }

  /** Bitwise complement of a word of w bits. */
  function Not(x: int, w: nat): int {
    Pow2(w) - 1 - x
  }

  /** Clearing the low k bits rounds down to a multiple of 2^k. */
  lemma {:induction false} MaskRoundsDown(x: nat, k: nat, w: nat)
    requires k <= w && x < Pow2(w)
    ensures And(x, Not(Pow2(k) - 1, w), w) == x - x % Pow2(k)
    decreases w
  {
    if w > 0 {
      var j := if k == 0 then 0 else k - 1;
      MaskRoundsDown(x / 2, j, w - 1);
      MaskHalves(k, w);
      if k > 0 {
        HalfModulus(x, Pow2(j));
      }
    }
  }

  lemma MaskHalves(k: nat, w: nat)
    requires w > 0
    ensures var j := if k == 0 then 0 else k - 1;
      Not(Pow2(k) - 1, w) / 2 == Not(Pow2(j) - 1, w - 1)
      && Not(Pow2(k) - 1, w) % 2 == if k == 0 then 1 else 0
  {
  }

  lemma HalfModulus(x: nat, m: nat)
    requires m > 0
    ensures x % (2 * m) == x % 2 + 2 * (x / 2 % m)
  {
    var q, r := x / 2 / m, x / 2 % m;
    assert x == 2 * m * q + (x % 2 + 2 * r) by {
      assert x / 2 == m * q + r;
      assert 2 * (m * q) == 2 * m * q;
    }
    DivModUnique(x, 2 * m, q, x % 2 + 2 * r);
  }

  lemma MulAtLeast(m: int, d: int)
    requires m > 0
    ensures d >= 1 ==> m * d >= m
    ensures d <= -1 ==> m * d <= -m
  {
  }

  lemma DivModUnique(x: nat, m: nat, q: nat, r: nat)
    requires m > 0 && r < m && x == m * q + r
    ensures x % m == r && x / m == q
  {
    var d := x / m - q;
    assert m * d == r - x % m by {
      assert x == m * (x / m) + x % m;
      assert m * (x / m) - m * q == m * d;
    }
    MulAtLeast(m, d);
  }

  /** rx_urb_size as bind computes it, in 32 bits. */
  function UrbSize(hardMtu: u32, maxPacket: u32): nat
    requires maxPacket > 0
  {
    And(Wrap32(hardMtu + Wrap32(maxPacket + 1)), Not(maxPacket - 1, 32), 32)
  }

  lemma Pow2Of32()
    ensures Pow2(32) == 0x1_0000_0000
  {
    assert Pow2(8) == 0x100;
    assert Pow2(16) == 0x1_0000;
    assert Pow2(24) == 0x100_0000;
  }

  lemma {:induction false} Pow2Grows(j: nat, k: nat)
    requires j <= k
    ensures Pow2(j) <= Pow2(k)
    decreases k
  {
    if j < k {
      Pow2Grows(j, k - 1);
    }
  }

  /** With a power-of-two packet size: a multiple of it, and the next strictly above hardMtu exactly if the sum does
      not wrap around. */
  lemma UrbSizeIsNextMultiple(hardMtu: u32, maxPacket: u32, k: nat)
    requires maxPacket == Pow2(k)
    ensures var urb, sum := UrbSize(hardMtu, maxPacket), hardMtu + maxPacket + 1;
      && urb % maxPacket == 0 && urb <= sum && (hardMtu < urb <==> sum < U32)
      && (sum < U32 ==> sum - maxPacket < urb)
  {
    hide And, Pow2, Not, Wrap32;
    Pow2Of32();
    if k > 32 {
      Pow2Grows(32, k);
    }
    var x := Wrap32(hardMtu + Wrap32(maxPacket + 1));
    SumWraps(hardMtu, maxPacket);
    MaskRoundsDown(x, k, 32);
    RoundedDown(x, maxPacket);
  }

  lemma SumWraps(x: u32, y: u32)
    ensures Wrap32(x + Wrap32(y + 1)) == if x + y + 1 < U32 then x + y + 1 else x + y + 1 - U32
  {
    assert Wrap32(y + 1) == if y + 1 < U32 then y + 1 else 0;
  }

  lemma RoundedDown(x: nat, m: nat)
    requires m > 0
    ensures (x - x % m) % m == 0 && x - m < x - x % m
  {
    assert x - x % m == m * (x / m);
    DivModUnique(x - x % m, m, x / m, 0);
  }

  /** The sizes bind adds up fit in their words, as they do for any real MTU and packet size. */
  predicate SizesFit(hardHeaderLen: nat, mtu: nat, maxPacket: nat) {
    hardHeaderLen + HEADER < 0x1_0000 && mtu + hardHeaderLen + HEADER + maxPacket + 1 < U32
  }

  /** Every frame within the limit fits once framed. */
  ghost predicate FramesFit(limit: nat, maxTransfer: nat) {
    forall p: seq<byte> :: |p| <= limit ==> |p| + HEADER < U32 && |Framed(p)| <= maxTransfer
  }

  lemma LimitFits(limit: nat, maxTransfer: u32)
    requires limit + HEADER <= maxTransfer
    ensures FramesFit(limit, maxTransfer)
  {
  }

  /** What the sizes settled are good for, if none wraps around. */
  ghost predicate GoodSizes(headerLen: nat, mtu: nat, hardMtu: nat, maxTransfer: nat) {
    hardMtu == mtu + headerLen + HEADER && hardMtu <= maxTransfer && FramesFit(mtu + headerLen, maxTransfer)
  }

  lemma SettledSizes(headerLen: u16, mtu: u32, maxPacket: u32, maxTransfer: u32)
    requires SizesFit(headerLen, mtu, maxPacket)
    ensures (headerLen + HEADER) % 0x1_0000 == headerLen + HEADER
    ensures Wrap32(mtu + headerLen + HEADER) == mtu + headerLen + HEADER
    ensures mtu + headerLen + HEADER <= maxTransfer ==> GoodSizes(headerLen, mtu, mtu + headerLen + HEADER, maxTransfer)
    ensures headerLen + HEADER < maxTransfer < mtu + headerLen + HEADER ==>
              GoodSizes(headerLen, maxTransfer - headerLen - HEADER, maxTransfer, maxTransfer)
  {
    hide FramesFit;
    if mtu + headerLen + HEADER <= maxTransfer {
      LimitFits(mtu + headerLen, maxTransfer);
    } else if headerLen + HEADER < maxTransfer {
      LimitFits(maxTransfer - HEADER, maxTransfer);
    }
  }

  class NetDevice {
    /** Bytes in front of the payload of a frame: the Ethernet header, after binding the RNDIS header too. */
    var hardHeaderLen: u16
    var mtu: u32
    /** The longest transfer the device takes, header included. */
    var hardMtu: u32
    var rxUrbSize: nat

    constructor (mtu: u32)
      ensures hardHeaderLen == 14 && this.mtu == mtu && hardMtu == 0 && rxUrbSize == 0
    {
      hardHeaderLen, this.mtu, hardMtu, rxUrbSize := 14, mtu, 0, 0;
    }

    /**
     * The sizes generic_rndis_bind settles.  `initRet` is the result of the INIT command, maxTransfer
     * the device's answer to it, `rest` the result of the queries that follow.
     */
    method Bind(maxPacket: u32, initRet: int, maxTransfer: u32, rest: int) returns (ret: int)
      requires rest <= 0
      modifies this
      ensures hardHeaderLen == (old(hardHeaderLen) + HEADER) % 0x1_0000
      ensures var limit := Wrap32(old(mtu) + hardHeaderLen);
        && (ret == 0 <==>
              maxPacket > 0 && initRet >= 0 && rest == 0 && (maxTransfer >= limit || maxTransfer > hardHeaderLen))
        && (ret == 0 ==> hardMtu == if maxTransfer < limit then maxTransfer else limit)
        && (ret != 0 ==> ret == if maxPacket > 0 && initRet < 0 then initRet
                                else if maxPacket == 0 || (maxTransfer < limit && maxTransfer <= hardHeaderLen) then -22
                                else rest)
        && (ret == 0 ==> mtu == if maxTransfer < limit then maxTransfer - hardHeaderLen else old(mtu))
      ensures forall k: nat :: ret == 0 && maxPacket == Pow2(k) ==>
        && rxUrbSize % maxPacket == 0
        && var limit := old(mtu) + old(hardHeaderLen) + HEADER;
           SizesFit(old(hardHeaderLen), old(mtu), maxPacket) ==>
             hardMtu <= limit && limit + 1 < rxUrbSize <= limit + maxPacket + 1
      ensures ret == 0 && SizesFit(old(hardHeaderLen), old(mtu), maxPacket) ==>
        && GoodSizes(old(hardHeaderLen), mtu, hardMtu, maxTransfer)
        && (old(mtu) >= 1 ==> 1 <= mtu <= old(mtu))
    {
      hide UrbSize, Pow2, GoodSizes, Wrap32;
      ghost var headerLen := hardHeaderLen;
      if SizesFit(headerLen, mtu, maxPacket) {
        SettledSizes(headerLen, mtu, maxPacket, maxTransfer);
      }
      hardHeaderLen := (hardHeaderLen + HEADER) % 0x1_0000;
      hardMtu := Wrap32(mtu + hardHeaderLen);
      if maxPacket == 0 {
        return -EINVAL;
      }
      rxUrbSize := UrbSize(hardMtu, maxPacket);
      forall k: nat | maxPacket == Pow2(k)
        ensures rxUrbSize % maxPacket == 0
        ensures hardMtu + maxPacket + 1 < U32 ==> hardMtu + 1 < rxUrbSize <= hardMtu + maxPacket + 1
      {
        UrbSizeIsNextMultiple(hardMtu, maxPacket, k);
      }
      if initRet < 0 {
        return initRet;
      }
      if maxTransfer < hardMtu {
        if maxTransfer <= hardHeaderLen {
          return -EINVAL;
        }
        hardMtu := maxTransfer;
        mtu := hardMtu - hardHeaderLen;
      }
      return rest;
    }
  }
}
