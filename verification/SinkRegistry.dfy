/** The desktop's table of listeners: numbers handed out by a cursor that wraps around. */
module SinkRegistry {
  import opened Bytes

  /** A listener. */
  type Sink = nat

  /** 0 is never handed out, and neither is the number at which the cursor goes back to 1. */
  const LIMIT: u32 := 0xFFFF_FFFF

  function Wrapped(cursor: u32): u32 {
    if cursor == LIMIT then 1 else cursor
  }

  /** The number n places after the cursor, going round 1..LIMIT-1. */
  function After(cursor: u32, n: nat): (id: u32)
    requires 1 <= cursor
    ensures 1 <= id < LIMIT
  {
    (Wrapped(cursor) - 1 + n) % 0xFFFF_FFFE + 1
  }

  /** The first number not in use, going round from the cursor. */
  ghost predicate FirstFree(cursor: u32, sinks: map<u32, Sink>, id: u32)
    requires 1 <= cursor
  {
    exists n: nat :: id == After(cursor, n) && id !in sinks && forall m: nat :: m < n ==> After(cursor, m) in sinks
  }

  lemma AfterNext(cursor: u32, n: nat)
    requires 1 <= cursor
    ensures After(cursor, n + 1) == Wrapped(After(cursor, n) + 1)
  {
    var x := Wrapped(cursor) - 1 + n;
    var q, r := x / 0xFFFF_FFFE, x % 0xFFFF_FFFE;
    assert x == q * 0xFFFF_FFFE + r;
    if r == 0xFFFF_FFFD {
      assert x + 1 == (q + 1) * 0xFFFF_FFFE;
    } else {
      assert x + 1 == q * 0xFFFF_FFFE + (r + 1);
    }
  }

  /** Every number is reached, within one round. */
  lemma Reaches(cursor: u32, id: u32) returns (n: nat)
    requires 1 <= cursor && 1 <= id < LIMIT
    ensures n < 0xFFFF_FFFE && After(cursor, n) == id
  {
    var w := Wrapped(cursor);
    n := if w <= id then id - w else id - w + 0xFFFF_FFFE;
  }

  lemma FirstFreeUnique(cursor: u32, sinks: map<u32, Sink>, a: u32, b: u32)
    requires 1 <= cursor && FirstFree(cursor, sinks, a) && FirstFree(cursor, sinks, b)
    ensures a == b
  {
    var n: nat :| a == After(cursor, n) && a !in sinks && forall m: nat :: m < n ==> After(cursor, m) in sinks;
    var k: nat :| b == After(cursor, k) && b !in sinks && forall m: nat :: m < k ==> After(cursor, m) in sinks;
    if n < k {
      assert false;
    } else if k < n {
      assert false;
    }
  }

  /** The search ends exactly when some number is free: with none free it goes round for ever. */
  lemma EndsIffFree(cursor: u32, sinks: map<u32, Sink>)
    requires 1 <= cursor
    ensures (exists id: u32 :: FirstFree(cursor, sinks, id)) <==> (exists id: u32 :: 1 <= id < LIMIT && id !in sinks)
    ensures (forall id: u32 :: 1 <= id < LIMIT ==> id in sinks) ==> forall n: nat :: After(cursor, n) in sinks
  {
    if id: u32 :| 1 <= id < LIMIT && id !in sinks {
      var n := Reaches(cursor, id);
      var k := FirstFrom(cursor, sinks, n);
      assert FirstFree(cursor, sinks, After(cursor, k));
    }
    if id: u32 :| FirstFree(cursor, sinks, id) {
      assert 1 <= id < LIMIT && id !in sinks;
    }
  }

  lemma {:induction false} FirstFrom(cursor: u32, sinks: map<u32, Sink>, n: nat) returns (k: nat)
    requires 1 <= cursor && After(cursor, n) !in sinks
    ensures k <= n && After(cursor, k) !in sinks && forall m: nat :: m < k ==> After(cursor, m) in sinks
  {
    hide After;
    if m: nat :| m < n && After(cursor, m) !in sinks {
      k := FirstFrom(cursor, sinks, m);
    } else {
      k := n;
    }
  }

  class Registry {
    var sinks: map<u32, Sink>
    var seqNum: u32

    constructor ()
      ensures sinks == map[] && seqNum == 1
    {
      sinks, seqNum := map[], 1;
    }

    /** Loops for ever when no number is free, which the caller must rule out. */
    method Advise(sink: Sink) returns (context: u32)
      requires 1 <= seqNum && exists id: u32 :: 1 <= id < LIMIT && id !in sinks
      modifies this
      ensures FirstFree(old(seqNum), old(sinks), context)
      ensures seqNum == context && sinks == old(sinks)[context := sink]
    {
      hide After, FirstFree;
      ghost var start := seqNum;
      ghost var free: u32 :| 1 <= free < LIMIT && free !in sinks;
      ghost var k := Reaches(start, free);
      ghost var n := 0;
      AfterNone(start);
      while true
        invariant n <= k && 1 <= seqNum && Wrapped(seqNum) == After(start, n)
        invariant forall m: nat :: m < n ==> After(start, m) in sinks
        invariant sinks == old(sinks)
        decreases k - n
      {
        if seqNum == LIMIT {
          seqNum := 1;
        }
        if seqNum in sinks {
          assert n != k;
          AfterNext(start, n);
          seqNum := seqNum + 1;
          n := n + 1;
          continue;
        }
        break;
      }
      Found(start, sinks, n);
      sinks := sinks[seqNum := sink];
      context := seqNum;
    }

    method UnAdvise(context: u32)
      modifies this
      ensures sinks == old(sinks) - {context} && seqNum == old(seqNum)
    {
      sinks := sinks - {context};
    }
  }

  lemma AfterNone(cursor: u32)
    requires 1 <= cursor
    ensures After(cursor, 0) == Wrapped(cursor)
  {
  }

  lemma Found(cursor: u32, sinks: map<u32, Sink>, n: nat)
    requires 1 <= cursor && After(cursor, n) !in sinks && forall m: nat :: m < n ==> After(cursor, m) in sinks
    ensures FirstFree(cursor, sinks, After(cursor, n))
  {
    hide After;
  }

  // ---- Runs ----

  datatype Event = Advised(id: u32, sink: Sink) | UnAdvised(id: u32)

  datatype Table = Table(sinks: map<u32, Sink>, cursor: u32)

  ghost predicate Step(t: Table, e: Event, t1: Table) {
    match e
    case Advised(id, sink) => 1 <= t.cursor && FirstFree(t.cursor, t.sinks, id) && t1 == Table(t.sinks[id := sink], id)
    case UnAdvised(id) => t1 == Table(t.sinks - {id}, t.cursor)
  }

  ghost predicate IsRun(es: seq<Event>, ts: seq<Table>) {
    && |ts| == |es| + 1
    && ts[0] == Table(map[], 1)
    && forall i :: 0 <= i < |es| ==> Step(ts[i], es[i], ts[i + 1])
  }

  /** The registration made at step i is still in force at step k. */
  predicate Active(es: seq<Event>, i: nat, k: nat, id: u32, sink: Sink)
    requires k <= |es|
  {
    i < k && es[i] == Advised(id, sink) && forall j :: i < j < k ==> es[j] != UnAdvised(id)
  }

  /** The table holds exactly the registrations not yet undone: none is overwritten, none is left over. */
  lemma {:induction false} TableIsActive(es: seq<Event>, ts: seq<Table>, k: nat, id: u32, sink: Sink)
    requires IsRun(es, ts) && k <= |es|
    ensures id in ts[k].sinks && ts[k].sinks[id] == sink <==> exists i :: Active(es, i, k, id, sink)
    decreases k
  {
    hide FirstFree;
    if k > 0 {
      var k0 := k - 1;
      var e := es[k0];
      TableIsActive(es, ts, k0, id, sink);
      FreshId(ts[k0], e, ts[k]);
      if i :| Active(es, i, k0, id, sink) && e != UnAdvised(id) {
        assert Active(es, i, k, id, sink);
      }
      if i :| Active(es, i, k, id, sink) && i != k0 {
        assert Active(es, i, k0, id, sink);
      }
      if e == Advised(id, sink) {
        assert Active(es, k0, k, id, sink);
      }
    }
  }

  lemma FreshId(t: Table, e: Event, t1: Table)
    requires Step(t, e, t1)
    ensures e.Advised? ==> e.id !in t.sinks && 1 <= e.id < LIMIT
  {
  }
}
