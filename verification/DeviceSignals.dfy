/** The daemon's signals, the set of ready paths they announce, and what a client does to its list on each. */
module DeviceSignals {
  import opened Basics
  import opened DeviceManager
  import opened ManagerCallbacks

  datatype Signal = Connected(path: Path) | Disconnected(path: Path) | DisconnectedUnnamed

  datatype Emission = Quiet | Emit(s: Signal)

  /** A device that has no path yet is lost without one. */
  ghost function Emits(m: Manager, e: Event): Emission
    requires Enabled(m, e)
  {
    match e
    case Export(_, path) => Emit(Connected(path))
    case Disconnect(k) =>
      Emit(match m.entries[k].device case Exported(path) => Disconnected(path) case _ => DisconnectedUnnamed)
    case _ => Quiet
  }

  // ---- The client's list ----

  function Removed(list: seq<Path>, path: Path): seq<Path> {
    if list == [] then [] else if list[0] == path then list[1..] else [list[0]] + Removed(list[1..], path)
  }

  function Handle(list: seq<Path>, s: Signal): seq<Path> {
    match s
    case Connected(path) => list + [path]
    case Disconnected(path) => Removed(list, path)
    case DisconnectedUnnamed => list
  }

  const DCCM_PREFIX: Path := "/org/synce/dccm/"

  /** What is left when the daemon goes away. */
  function WithoutDccm(list: seq<Path>): seq<Path> {
    if list == [] then []
    else (if DCCM_PREFIX <= list[0] then [] else [list[0]]) + WithoutDccm(list[1..])
  }

  // ---- Each path has one device ----

  function DeviceOf(m: Manager, k: Key): Device {
    if k in m.entries then m.entries[k].device else NoDevice
  }

  ghost predicate PathInv(m: Manager) {
    forall k, l :: DeviceOf(m, k).Exported? && DeviceOf(m, l) == DeviceOf(m, k) ==> k == l
  }

  function DeviceAfter(m: Manager, e: Event, k: Key): Device {
    match e
    case Export(l, path) => if k == l then Exported(path) else DeviceOf(m, k)
    case Disconnect(l) => if k == l then NoDevice else DeviceOf(m, k)
    case Connect(l, port, creates) =>
      if k == l && DeviceOf(m, k) == NoDevice && (port == 990 || port == 5679) && creates then Opening
      else DeviceOf(m, k)
    case _ => DeviceOf(m, k)
  }

  lemma DeviceStep(m: Manager, e: Event, k: Key)
    requires Inv(m) && Enabled(m, e)
    ensures DeviceOf(Step(m, e), k) == DeviceAfter(m, e, k)
  {
    hide TimerInv, Ready, EntryInv, CheckInterfaces;
    if e.CheckTick? {
      CheckKeepsDevices(m, e.probes);
    }
  }

  lemma ReadyIff(m: Manager, p: Path)
    ensures p in Ready(m) <==> exists k :: DeviceOf(m, k) == Exported(p)
  {
    if p in Ready(m) {
      var k :| k in m.entries && m.entries[k].device.Exported? && m.entries[k].device.path == p;
      assert DeviceOf(m, k) == Exported(p);
    }
    if k :| DeviceOf(m, k) == Exported(p) {
      assert k in m.entries && m.entries[k].device.path == p;
    }
  }

  lemma SameReady(m: Manager, m1: Manager)
    requires PathInv(m) && forall l :: DeviceOf(m1, l).Exported? || DeviceOf(m, l).Exported? ==>
               DeviceOf(m1, l) == DeviceOf(m, l)
    ensures PathInv(m1) && Ready(m1) == Ready(m)
  {
    hide DeviceOf, Ready;
    forall p ensures p in Ready(m1) <==> p in Ready(m) {
      ReadyIff(m1, p);
      ReadyIff(m, p);
    }
  }

  lemma ExportReady(m: Manager, m1: Manager, k: Key, path: Path)
    requires PathInv(m) && path !in Ready(m) && !DeviceOf(m, k).Exported?
    requires forall l :: DeviceOf(m1, l) == if l == k then Exported(path) else DeviceOf(m, l)
    ensures PathInv(m1) && Ready(m1) == Ready(m) + {path}
  {
    hide DeviceOf, Ready;
    ReadyIff(m, path);
    forall p ensures p in Ready(m1) <==> p in Ready(m) || p == path {
      ReadyIff(m1, p);
      ReadyIff(m, p);
      assert DeviceOf(m1, k) == Exported(path);
    }
  }

  lemma DisconnectReady(m: Manager, m1: Manager, k: Key, path: Path)
    requires PathInv(m) && DeviceOf(m, k) == Exported(path)
    requires forall l :: DeviceOf(m1, l) == if l == k then NoDevice else DeviceOf(m, l)
    ensures PathInv(m1) && path in Ready(m) && Ready(m1) == Ready(m) - {path}
  {
    hide DeviceOf, Ready;
    ReadyIff(m, path);
    forall p ensures p in Ready(m1) <==> p in Ready(m) && p != path {
      ReadyIff(m1, p);
      ReadyIff(m, p);
    }
  }

  /** How one step of the daemon changes the set of ready paths, and that each still has one device. */
  lemma ReadyStep(m: Manager, e: Event)
    requires Inv(m) && PathInv(m) && Enabled(m, e)
    ensures PathInv(Step(m, e))
    ensures Emits(m, e) == Quiet <==> !e.Export? && !e.Disconnect?
    ensures match Emits(m, e)
            case Emit(Connected(path)) => path !in Ready(m) && Ready(Step(m, e)) == Ready(m) + {path}
            case Emit(Disconnected(path)) => path in Ready(m) && Ready(Step(m, e)) == Ready(m) - {path}
            case _ => Ready(Step(m, e)) == Ready(m)
  {
    hide Step, ListInv, EntryInv, TimerInv, Ready;
    var m1 := Step(m, e);
    forall k ensures DeviceOf(m1, k) == DeviceAfter(m, e, k) {
      DeviceStep(m, e, k);
    }
    if e.Export? {
      ExportReady(m, m1, e.k, e.path);
    } else if e.Disconnect? && m.entries[e.k].device.Exported? {
      DisconnectReady(m, m1, e.k, m.entries[e.k].device.path);
    } else {
      SameReady(m, m1);
    }
  }

  // ---- Counting one path ----

  /** How often the path is listed after the queued signals, having been listed c times. */
  function Counted(c: nat, queue: seq<Signal>, p: Path): nat
    decreases |queue|
  {
    if queue == [] then c else Counted(Bump(c, queue[0], p), queue[1..], p)
  }

  function Bump(c: nat, s: Signal, p: Path): nat {
    match s
    case Connected(q) => if q == p then c + 1 else c
    case Disconnected(q) => if q == p && c > 0 then c - 1 else c
    case DisconnectedUnnamed => c
  }

  lemma {:induction false} CountedLater(c: nat, queue: seq<Signal>, s: Signal, p: Path)
    ensures Counted(c, queue + [s], p) == Bump(Counted(c, queue, p), s, p)
    decreases |queue|
  {
    if queue == [] {
      assert Counted(c, [s], p) == Counted(Bump(c, s, p), [], p);
    } else {
      assert (queue + [s])[1..] == queue[1..] + [s];
      CountedLater(Bump(c, queue[0], p), queue[1..], s, p);
    }
  }

  lemma {:induction false} RemovedCount(list: seq<Path>, path: Path)
    ensures multiset(Removed(list, path)) == multiset(list) - multiset{path}
  {
    if list != [] {
      assert list == [list[0]] + list[1..];
      if list[0] != path {
        RemovedCount(list[1..], path);
      }
    }
  }

  lemma HandleCount(list: seq<Path>, s: Signal, p: Path)
    ensures multiset(Handle(list, s))[p] == Bump(multiset(list)[p], s, p)
  {
    if s.Disconnected? {
      RemovedCount(list, s.path);
    }
  }

  // ---- The snapshot ----

  lemma {:induction false} PathsOnce(devices: seq<Key>, entries: map<Key, Entry>, p: Path)
    requires forall k :: k in devices ==> k in entries
    requires forall i, j :: 0 <= i < j < |devices| ==> devices[i] != devices[j]
    requires forall k, l :: k in devices && l in devices && entries[k].device == entries[l].device == Exported(p) ==>
               k == l
    ensures multiset(PathsOf(devices, entries))[p] == Bit(exists k :: k in devices && entries[k].device == Exported(p))
  {
    if devices != [] {
      PathsOnce(devices[1..], entries, p);
      assert forall k :: k in devices <==> k == devices[0] || k in devices[1..];
      if entries[devices[0]].device == Exported(p) {
        assert forall k :: k in devices[1..] ==> k != devices[0];
      }
    }
  }

  /** The snapshot lists each ready path once. */
  lemma SnapshotOnce(m: Manager, p: Path)
    requires ListInv(m) && PathInv(m)
    ensures multiset(PathsOf(m.devices, m.entries))[p] == Bit(p in Ready(m))
  {
    forall k, l | k in m.devices && l in m.devices && m.entries[k].device == m.entries[l].device == Exported(p)
      ensures k == l
    {
      assert DeviceOf(m, k) == DeviceOf(m, l);
    }
    PathsOnce(m.devices, m.entries, p);
    PathsAreReady(m);
    InPathsOf(m.devices, m.entries, p);
  }

  lemma {:induction false} RemovedIn(list: seq<Path>, path: Path, p: Path)
    requires p in Removed(list, path)
    ensures p in list
  {
    if list[0] != path && p != list[0] {
      RemovedIn(list[1..], path, p);
    }
  }

  /** When the daemon goes, its devices go from the list; only paths of others stay. */
  lemma {:induction false} WithoutDccmIn(list: seq<Path>)
    ensures forall p :: p in WithoutDccm(list) <==> p in list && !(DCCM_PREFIX <= p)
    ensures (forall p :: p in list ==> DCCM_PREFIX <= p) ==> WithoutDccm(list) == []
  {
    if list != [] {
      WithoutDccmIn(list[1..]);
      assert list[0] in list;
      assert forall p :: p in list <==> p == list[0] || p in list[1..];
      assert forall p :: p in list[1..] ==> p in list;
    }
  }

  lemma NoneReady()
    ensures Ready(Start()) == {}
  {
  }

  lemma StartPaths()
    ensures PathInv(Start())
  {
  }

  // ---- One more device ----

  /** A walk that finds only the last entry's address free. */
  lemma {:induction false} WalkToLast(m: Manager, i: nat, probes: seq<Probe>)
    requires i < |m.devices| == |probes| && probes[|probes| - 1] == Available(true)
    requires forall j :: i <= j < |probes| - 1 ==> probes[j] == Unavailable
    ensures Walk(m, i, probes) == (Created(m, m.devices[|m.devices| - 1], true), false)
    decreases |m.devices| - i
  {
    hide Created;
    if i < |m.devices| - 1 {
      WalkToLast(m, i + 1, probes);
    } else {
      CreatedKeepsDevices(m, m.devices[i], true);
    }
  }

  /** Whatever has happened a device may be plugged in, found, connect and become ready at a path that is free. */
  lemma OneMore(m: Manager, path: Path) returns (es: seq<Event>, ms: seq<Manager>)
    requires Inv(m) && PathInv(m) && path !in Ready(m)
    ensures |es| == 4 && |ms| == 5 && ms[0] == m
    ensures forall i :: 0 <= i < 4 ==> Enabled(ms[i], es[i]) && ms[i + 1] == Step(ms[i], es[i])
    ensures forall i :: 0 <= i < 3 ==> Emits(ms[i], es[i]) == Quiet && !es[i].Export?
    ensures es[3].Export? && es[3].path == path
  {
    hide EntryInv, TimerInv, ListInv, PathInv, Ready, Walk;
    var k := m.nextKey;
    var m1 := Step(m, Plug(false));
    KeepsInv(m, Plug(false));
    ReadyStep(m, Plug(false));
    assert m1.devices == m.devices + [k] && !m1.entries[k].listening;
    var probes := seq(|m.devices|, _ => Unavailable) + [Available(true)];
    WalkToLast(m1, 0, probes);
    var m2 := Step(m1, CheckTick(probes));
    KeepsInv(m1, CheckTick(probes));
    ReadyStep(m1, CheckTick(probes));
    assert m2.entries[k].listening && m2.entries[k].device == NoDevice;
    var m3 := Step(m2, Connect(k, 5679, true));
    ReadyStep(m2, Connect(k, 5679, true));
    es := [Plug(false), CheckTick(probes), Connect(k, 5679, true), Export(k, path)];
    ms := [m, m1, m2, m3, Step(m3, Export(k, path))];
  }

  lemma {:induction false} Longest(s: set<Path>) returns (n: nat)
    ensures forall p :: p in s ==> |p| < n
    decreases s
  {
    n := 0;
    if p :| p in s {
      n := Longest(s - {p});
      n := if |p| < n then n else |p| + 1;
    }
  }

  /** There is always a free path. */
  lemma FreePath(s: set<Path>) returns (p: Path)
    ensures DCCM_PREFIX <= p && p !in s
  {
    var n := Longest(s);
    p := DCCM_PREFIX + seq(n, _ => 'a');
    assert |p| >= n;
  }
}
