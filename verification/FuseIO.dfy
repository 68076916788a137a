/** Reading and writing a device's file in chunks, each of which the device may cut short. */
module FuseIO {
  import opened Basics
  import opened Bytes
  import opened Wrappers

  const RAPI_CHUNK: nat := 4096
  const EIO: int := 5

  /** How the device answers one transfer: it fails, or moves at most n bytes. */
  datatype Outcome = Fail | Move(n: nat)

  /** Where a seek to this offset leads: the file pointer is moved by a LONG, and not to before the start. */
  function Seek(offset: nat): Option<nat> {
    var low := offset % 0x1_0000_0000;
    if low < 0x8000_0000 then Some(low) else None
  }

  /** The offset asked for is the one used only below 2^31; others fail or lead elsewhere. */
  lemma SeekExactIff(offset: nat)
    ensures Seek(offset) == Some(offset) <==> offset < 0x8000_0000
  {
  }

  /** What one read would give: up to the size asked for or the end of the file. */
  function ReadAt(data: seq<byte>, pos: nat, size: nat): (r: seq<byte>)
    ensures |r| == if pos >= |data| then 0 else Min(size, |data| - pos)
  {
    if pos >= |data| then [] else data[pos..Min(pos + size, |data|)]
  }

  /** The bytes s in place from pos on. */
  function Over(d: seq<byte>, pos: nat, s: seq<byte>): seq<byte>
    requires pos <= |d|
  {
    d[..pos] + s + (if pos + |s| < |d| then d[pos + |s|..] else [])
  }

  /** What one write would make of the file: the bytes in place, after zeros if the file was shorter. */
  function WriteAt(data: seq<byte>, pos: nat, s: seq<byte>): seq<byte> {
    if s == [] then data else Over(if pos > |data| then data + Zeros(pos - |data|) else data, pos, s)
  }

  lemma OverTwice(d: seq<byte>, pos: nat, a: seq<byte>, b: seq<byte>)
    requires pos <= |d|
    ensures |Over(d, pos, a)| >= pos + |a| && Over(Over(d, pos, a), pos + |a|, b) == Over(d, pos, a + b)
  {
    var d1 := Over(d, pos, a);
    assert d1[..pos + |a|] == d[..pos] + a;
    if pos + |a| + |b| < |d| {
      assert d1[pos + |a| + |b|..] == d[pos + |a| + |b|..];
    }
  }

  /** Writing in two parts, the second after the first, is writing the whole. */
  lemma WriteTwice(data: seq<byte>, pos: nat, a: seq<byte>, b: seq<byte>)
    ensures WriteAt(WriteAt(data, pos, a), pos + |a|, b) == WriteAt(data, pos, a + b)
  {
    hide Over;
    if a == [] {
      assert a + b == b;
    } else if b == [] {
      assert a + b == a;
    } else {
      OverTwice(if pos > |data| then data + Zeros(pos - |data|) else data, pos, a, b);
    }
  }

  /** A read gives back what a write put there, and a write changes nothing else below the old end. */
  lemma ReadsWhatIsWritten(data: seq<byte>, pos: nat, s: seq<byte>)
    ensures ReadAt(WriteAt(data, pos, s), pos, |s|) == s
    ensures |WriteAt(data, pos, s)| == if s == [] || pos + |s| < |data| then |data| else pos + |s|
    ensures forall i :: 0 <= i < |data| && !(pos <= i < pos + |s|) ==> WriteAt(data, pos, s)[i] == data[i]
  {
  }

  /** Reading in two parts, the second where the first ended, is reading the whole. */
  lemma ReadTwice(data: seq<byte>, pos: nat, m: nat, size: nat)
    requires m <= size && (pos + m <= |data| || m == 0)
    ensures ReadAt(data, pos, m) + ReadAt(data, pos + m, size - m) == ReadAt(data, pos, size)
  {
  }

  /** A buffer with the bytes s put in at an index. */
  function Put(buf: seq<byte>, at: nat, s: seq<byte>): seq<byte>
    requires at + |s| <= |buf|
  {
    buf[..at] + s + buf[at + |s|..]
  }

  lemma PutIs(buf: seq<byte>, buf1: seq<byte>, at: nat, s: seq<byte>)
    requires at + |s| <= |buf| == |buf1|
    requires forall i :: 0 <= i < |s| ==> buf1[at + i] == s[i]
    requires forall i :: 0 <= i < |buf| && !(at <= i < at + |s|) ==> buf1[i] == buf[i]
    ensures buf1 == Put(buf, at, s)
  {
    forall i | 0 <= i < |buf| ensures buf1[i] == Put(buf, at, s)[i] {
      if at <= i < at + |s| {
        assert buf1[at + (i - at)] == s[i - at];
      }
    }
  }

  lemma PutTwice(buf: seq<byte>, s: seq<byte>, t: seq<byte>)
    requires |s| + |t| <= |buf|
    ensures |Put(buf, 0, s)| == |buf| && Put(Put(buf, 0, s), |s|, t) == Put(buf, 0, s + t)
  {
  }

  lemma PutNothing(buf: seq<byte>)
    ensures Put(buf, 0, []) == buf
  {
  }

  class RemoteFile {
    var data: seq<byte>
    var pos: nat
    /** The device's answers to the next transfers; after them it moves all it is asked for. */
    var schedule: seq<Outcome>

    constructor (contents: seq<byte>, answers: seq<Outcome>)
      ensures data == contents && schedule == answers
    {
      data, pos, schedule := contents, 0, answers;
    }

    method Answer(want: nat) returns (o: Outcome)
      modifies this
      ensures data == old(data) && pos == old(pos)
      ensures forall x :: x in schedule ==> x in old(schedule)
      ensures o.Fail? ==> Fail in old(schedule)
      ensures o.Move? ==> o.n <= want
      ensures o.Move? && want > 0 && o.n == 0 ==> Move(0) in old(schedule) && |schedule| < old(|schedule|)
      ensures |schedule| <= old(|schedule|)
    {
      if schedule == [] {
        return Move(want);
      }
      o := schedule[0];
      schedule := schedule[1..];
      if o.Move? {
        o := Move(Min(o.n, want));
      }
    }

    method CeSetFilePointer(distance: int) returns (ok: bool)
      modifies this
      ensures data == old(data) && schedule == old(schedule)
      ensures ok <==> distance >= 0
      ensures pos == if ok then distance else old(pos)
    {
      ok := distance >= 0;
      if ok {
        pos := distance;
      }
    }

    method CeReadFile(buf: array<byte>, at: nat, want: nat) returns (ok: bool, nread: nat)
      requires at + want <= buf.Length
      modifies this, buf
      ensures data == old(data) && (forall x :: x in schedule ==> x in old(schedule))
      ensures !ok ==> Fail in old(schedule)
      ensures nread <= want && pos == old(pos) + nread
      ensures ok && want > 0 && nread == 0 ==> old(pos) >= |data| || Move(0) in old(schedule)
      ensures nread > 0 ==> pos <= |data|
      ensures at + |ReadAt(data, old(pos), nread)| <= buf.Length
      ensures buf[..] == Put(old(buf[..]), at, ReadAt(data, old(pos), nread))
    {
      var left := if pos < |data| then Min(|data| - pos, want) else 0;
      var o := Answer(left);
      if o.Fail? {
        assert buf[..] == Put(buf[..], at, []);
        return false, 0;
      }
      nread := o.n;
      ghost var got := ReadAt(data, pos, nread);
      forall i | 0 <= i < nread {
        buf[at + i] := data[pos + i];
      }
      assert |got| == nread && forall i :: 0 <= i < nread ==> got[i] == data[pos + i];
      PutIs(old(buf[..]), buf[..], at, got);
      pos := pos + nread;
      ok := true;
    }

    method CeWriteFile(buf: array<byte>, at: nat, want: nat) returns (ok: bool, nwritten: nat)
      requires at + want <= buf.Length
      modifies this
      ensures (forall x :: x in schedule ==> x in old(schedule)) && |schedule| <= old(|schedule|)
      ensures !ok ==> Fail in old(schedule) && nwritten == 0
      ensures nwritten <= want && (ok && want > 0 && nwritten == 0 ==> |schedule| < old(|schedule|))
      ensures pos == old(pos) + nwritten && data == WriteAt(old(data), old(pos), buf[at..at + nwritten])
    {
      hide WriteAt;
      var o := Answer(want);
      if o.Fail? {
        NothingWritten(data, pos);
        assert buf[at..at] == [];
        return false, 0;
      }
      nwritten := o.n;
      data := WriteAt(data, pos, buf[at..at + nwritten]);
      pos := pos + nwritten;
      ok := true;
    }
  }

  /** The LONG a 64-bit offset is cast to. */
  function Long(offset: nat): int {
    var low := offset % 0x1_0000_0000;
    if low < 0x8000_0000 then low else low - 0x1_0000_0000
  }

  lemma LongSeek(offset: nat)
    ensures Seek(offset) == if Long(offset) < 0 then None else Some(Long(offset))
  {
  }

  lemma AtEnd(data: seq<byte>, pos: nat, m: nat, size: nat)
    requires m <= size && |ReadAt(data, pos, m)| == m && pos + m >= |data|
    ensures ReadAt(data, pos, m) == ReadAt(data, pos, size)
  {
  }

  /** Whatever the device's answers, what is read is what one read would give: of the whole size, unless the device
      gave no bytes before the end of the file, which is taken for the end. */
  method Read(h: RemoteFile, buf: array<byte>, size: nat, offset: nat) returns (ret: int)
    requires size <= buf.Length && size < 0x8000_0000
    modifies h, buf
    ensures h.data == old(h.data)
    ensures ret == -EIO ==> Seek(offset).None? || Fail in old(h.schedule)
    ensures ret != -EIO ==> Seek(offset).Some? && 0 <= ret <= size
                            && var got := ReadAt(h.data, Seek(offset).value, ret);
                               ret == |got| && |got| <= buf.Length && buf[..] == Put(old(buf[..]), 0, got)
    ensures ret != -EIO && ret != |ReadAt(h.data, Seek(offset).value, size)| ==> Move(0) in old(h.schedule)
  {
    hide ReadAt, Long, Seek;
    LongSeek(offset);
    var ok := h.CeSetFilePointer(Long(offset));
    if !ok {
      return -EIO;
    }
    var total;
    ok, total := ReadFrom(h, buf, size, h.pos);
    ret := if ok then total else -EIO;
  }

  method ReadFrom(h: RemoteFile, buf: array<byte>, size: nat, ghost start: nat) returns (ok: bool, total: nat)
    requires size <= buf.Length && h.pos == start
    modifies h, buf
    ensures h.data == old(h.data)
    ensures !ok ==> Fail in old(h.schedule)
    ensures ok ==> total == |ReadAt(h.data, start, total)| && total <= size
                   && buf[..] == Put(old(buf[..]), 0, ReadAt(h.data, start, total))
    ensures ok && total != |ReadAt(h.data, start, size)| ==> Move(0) in old(h.schedule)
  {
    hide ReadAt, Put;
    total := 0;
    ghost var before := buf[..];
    assert ReadAt(h.data, start, 0) == [];
    PutNothing(before);
    while total < size
      invariant total <= size && h.data == old(h.data)
      invariant forall x :: x in h.schedule ==> x in old(h.schedule)
      invariant h.pos == start + total && (total == 0 || h.pos <= |h.data|)
      invariant |ReadAt(h.data, start, total)| == total
      invariant buf[..] == Put(before, 0, ReadAt(h.data, start, total))
    {
      var chunk := Min(size - total, RAPI_CHUNK);
      var nread: nat;
      ok, nread := h.CeReadFile(buf, total, chunk);
      if !ok {
        return;
      }
      ReadTwice(h.data, start, total, total + nread);
      PutTwice(before, ReadAt(h.data, start, total), ReadAt(h.data, start + total, nread));
      if nread == 0 {
        if h.pos >= |h.data| {
          AtEnd(h.data, start, total, size);
        }
        return;
      }
      total := total + nread;
    }
    ok := true;
  }

  /** Whatever the device's answers, what is written is what one write of the whole would; a failure leaves a prefix. */
  method Write(h: RemoteFile, buf: array<byte>, size: nat, offset: nat) returns (ret: int)
    requires size <= buf.Length && size < 0x8000_0000
    modifies h
    ensures ret == -EIO ==> if Seek(offset).None? then h.data == old(h.data)
                            else Fail in old(h.schedule)
                                 && exists k :: 0 <= k < size
                                      && h.data == WriteAt(old(h.data), Seek(offset).value, buf[..k])
    ensures ret != -EIO ==> Seek(offset).Some? && ret == size
                            && h.data == WriteAt(old(h.data), Seek(offset).value, buf[..size])
  {
    hide WriteAt, Long, Seek;
    LongSeek(offset);
    var ok := h.CeSetFilePointer(Long(offset));
    if !ok {
      return -EIO;
    }
    var total;
    ok, total := WriteFrom(h, buf, size, h.pos);
    ret := if ok then total else -EIO;
  }

  method WriteFrom(h: RemoteFile, buf: array<byte>, size: nat, ghost start: nat) returns (ok: bool, total: nat)
    requires size <= buf.Length && h.pos == start
    modifies h
    ensures !ok ==> Fail in old(h.schedule) && total < size
    ensures ok ==> total == size
    ensures total <= size && h.data == WriteAt(old(h.data), start, buf[..total])
  {
    hide WriteAt;
    total := 0;
    ok := true;
    NothingWritten(h.data, start);
    assert buf[..0] == [];
    while total < size
      invariant total <= size && ok
      invariant forall x :: x in h.schedule ==> x in old(h.schedule)
      invariant h.pos == start + total && h.data == WriteAt(old(h.data), start, buf[..total])
      decreases size - total, |h.schedule|
    {
      var chunk := Min(size - total, RAPI_CHUNK);
      var nwritten: nat;
      ok, nwritten := h.CeWriteFile(buf, total, chunk);
      WriteTwice(old(h.data), start, buf[..total], buf[total..total + nwritten]);
      assert buf[..total] + buf[total..total + nwritten] == buf[..total + nwritten];
      if !ok {
        return;
      }
      total := total + nwritten;
    }
  }

  lemma NothingWritten(data: seq<byte>, pos: nat)
    ensures WriteAt(data, pos, []) == data
  {
  }

  // ---- When the writing loop ends ----

  /** What is written after n transfers that succeed, answer i moving at most answers(i) bytes. */
  function Written(answers: nat -> nat, size: nat, n: nat): (total: nat)
    ensures total <= size
  {
    if n == 0 then 0
    else
      var total := Written(answers, size, n - 1);
      total + Min(Min(size - total, RAPI_CHUNK), answers(n - 1))
  }

  lemma {:induction false} WrittenGrows(answers: nat -> nat, size: nat, i: nat, j: nat)
    requires i <= j
    ensures Written(answers, size, i) <= Written(answers, size, j)
    ensures (forall k :: i <= k < j ==> answers(k) == 0) ==> Written(answers, size, i) == Written(answers, size, j)
    decreases j
  {
    if i < j {
      WrittenGrows(answers, size, i, j - 1);
    }
  }

  /** From transfer i on, with bytes left to write, nothing is moved any more. */
  ghost predicate Stuck(answers: nat -> nat, size: nat, i: nat) {
    Written(answers, size, i) < size && forall k: nat :: k >= i ==> answers(k) == 0
  }

  lemma {:induction false} Finishes(answers: nat -> nat, size: nat, n: nat) returns (m: nat)
    requires forall i: nat :: !Stuck(answers, size, i)
    ensures Written(answers, size, m) == size
    decreases size - Written(answers, size, n)
  {
    if Written(answers, size, n) == size {
      m := n;
    } else {
      assert !Stuck(answers, size, n);
      var k: nat :| k >= n && answers(k) > 0;
      WrittenGrows(answers, size, n, k);
      m := Finishes(answers, size, k + 1);
    }
  }

  /** While transfers succeed the loop ends exactly if it never gets stuck. */
  lemma WriteEndsIff(answers: nat -> nat, size: nat)
    ensures (exists m: nat :: Written(answers, size, m) == size) <==> forall i: nat :: !Stuck(answers, size, i)
  {
    if m: nat, i: nat :| Written(answers, size, m) == size && Stuck(answers, size, i) {
      if m <= i {
        WrittenGrows(answers, size, m, i);
      } else {
        WrittenGrows(answers, size, i, m);
      }
      assert false;
    }
    if forall i: nat :: !Stuck(answers, size, i) {
      var m := Finishes(answers, size, 0);
    }
  }
}
