/** Machine integers and the little-endian words every protocol here is made of. */
module Bytes {
  const U32: int := 0x1_0000_0000

  type byte = x: int | 0 <= x < 0x100
  type u16 = x: int | 0 <= x < 0x1_0000
  type u32 = x: int | 0 <= x < 0x1_0000_0000

  /** The value a 32-bit unsigned register keeps of x. */
  function Wrap32(x: int): u32 {
    x % 0x1_0000_0000
  }

  /** The little-endian word at byte offset i. */
  function Le16(s: seq<byte>, i: nat): u16
    requires i + 2 <= |s|
  {
    s[i] as int + 0x100 * s[i + 1] as int
  }

  function Le32(s: seq<byte>, i: nat): u32
    requires i + 4 <= |s|
  {
    s[i] as int + 0x100 * s[i + 1] as int + 0x1_0000 * s[i + 2] as int + 0x100_0000 * s[i + 3] as int
  }

  /** A word is the word of its four bytes. */
  lemma WordAt(s: seq<byte>, i: nat)
    requires i + 4 <= |s|
    ensures Le32(s, i) == Le32(s[i..i + 4], 0)
  {
  }

  lemma LowByte(a: byte, b: byte, x: nat, y: nat)
    requires a + 0x100 * x == b + 0x100 * y
    ensures a == b && x == y
  {
  }

  /** A word has one representation. */
  lemma SameWord(p: seq<byte>, q: seq<byte>, i: nat)
    requires i + 4 <= |p| && i + 4 <= |q| && Le32(p, i) == Le32(q, i)
    ensures p[i] == q[i] && p[i + 1] == q[i + 1] && p[i + 2] == q[i + 2] && p[i + 3] == q[i + 3]
  {
    var x: nat, y: nat := p[i + 2] as int + 0x100 * p[i + 3] as int, q[i + 2] as int + 0x100 * q[i + 3] as int;
    LowByte(p[i], q[i], p[i + 1] as int + 0x100 * x, q[i + 1] as int + 0x100 * y);
    LowByte(p[i + 1], q[i + 1], x, y);
    LowByte(p[i + 2], q[i + 2], p[i + 3], q[i + 3]);
  }

  lemma SameHalf(p: seq<byte>, q: seq<byte>, i: nat)
    requires i + 2 <= |p| && i + 2 <= |q| && Le16(p, i) == Le16(q, i)
    ensures p[i] == q[i] && p[i + 1] == q[i + 1]
  {
  }

  function ToLe16(x: u16): (s: seq<byte>)
    ensures |s| == 2 && Le16(s, 0) == x
  {
    [x % 0x100, x / 0x100]
  }

  function ToLe32(x: u32): (s: seq<byte>)
    ensures |s| == 4 && Le32(s, 0) == x
  {
    var a := x / 0x100;
    var b := a / 0x100;
    [x % 0x100, a % 0x100, b % 0x100, b / 0x100]
  }

  function Zeros(n: nat): (s: seq<byte>)
    ensures |s| == n && forall i :: 0 <= i < n ==> s[i] == 0
  {
    seq(n, _ => 0)
  }

  /** s stands in mem at offset i. */
  ghost predicate At(mem: seq<byte>, i: nat, s: seq<byte>) {
    i + |s| <= |mem| && mem[i..i + |s|] == s
  }

  lemma AtIs(mem: seq<byte>, i: nat, s: seq<byte>)
    requires At(mem, i, s)
    ensures i + |s| <= |mem| && mem[i..i + |s|] == s
  {
  }

  lemma AtSplit(mem: seq<byte>, i: nat, a: seq<byte>, b: seq<byte>)
    ensures At(mem, i, a + b) <==> At(mem, i, a) && At(mem, i + |a|, b)
  {
    if At(mem, i, a + b) {
      assert a == (a + b)[..|a|] && b == (a + b)[|a|..];
    }
    if At(mem, i, a) && At(mem, i + |a|, b) {
      assert mem[i..i + |a + b|] == a + b;
    }
  }

  lemma AtWord(mem: seq<byte>, i: nat, x: u32, rest: seq<byte>)
    requires At(mem, i, ToLe32(x) + rest)
    ensures i + 4 <= |mem| && Le32(mem, i) == x && At(mem, i + 4, rest)
  {
    AtSplit(mem, i, ToLe32(x), rest);
    WordAt(mem, i);
  }
}
