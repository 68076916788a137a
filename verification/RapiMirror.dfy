/** The desktop's list of devices as the client's mirror of the daemon's. */
module RapiMirror {
  import opened RapiObjects
  import opened Basics
  import M = DeviceSignals
  import D = DeviceManager

  function Paths(h: Heap, ds: seq<Id>): seq<D.Path>
    requires InRange(ds, h)
  {
    if ds == [] then [] else [h.devices[ds[0]].path] + Paths(h, ds[1..])
  }

  lemma {:induction false} PathsSame(h: Heap, h1: Heap, ds: seq<Id>)
    requires InRange(ds, h) && Descends(h, h1)
    ensures InRange(ds, h1) && Paths(h1, ds) == Paths(h, ds)
    decreases |ds|
  {
    if ds != [] {
      PathsSame(h, h1, ds[1..]);
    }
  }

  lemma {:induction false} PathsAppend(h: Heap, ds: seq<Id>, d: Id)
    requires InRange(ds, h) && d < |h.devices|
    ensures InRange(ds + [d], h) && Paths(h, ds + [d]) == Paths(h, ds) + [h.devices[d].path]
    decreases |ds|
  {
    if ds == [] {
      assert Paths(h, [d]) == [h.devices[d].path] + Paths(h, []);
    } else {
      assert (ds + [d])[1..] == ds[1..] + [d];
      PathsAppend(h, ds[1..], d);
    }
  }

  /** Taking a device off the list takes its path off the mirror: the first equal one. */
  lemma {:induction false} PathsRemoved(h: Heap, ds: seq<Id>, i: nat, path: D.Path)
    requires InRange(ds, h) && i < |ds| && h.devices[ds[i]].path == path
    requires forall k :: 0 <= k < i ==> h.devices[ds[k]].path != path
    ensures InRange(ds[..i] + ds[i + 1..], h) && Paths(h, ds[..i] + ds[i + 1..]) == M.Removed(Paths(h, ds), path)
    decreases i
  {
    if i == 0 {
      assert ds[..0] + ds[1..] == ds[1..];
    } else {
      var rest := ds[1..];
      PathsRemoved(h, rest, i - 1, path);
      assert ds[..i] + ds[i + 1..] == [ds[0]] + (rest[..i - 1] + rest[i..]);
      assert (ds[..i] + ds[i + 1..])[1..] == rest[..i - 1] + rest[i..];
    }
  }

  lemma {:induction false} NotListedRemoved(h: Heap, ds: seq<Id>, path: D.Path)
    requires InRange(ds, h) && forall k :: 0 <= k < |ds| ==> h.devices[ds[k]].path != path
    ensures M.Removed(Paths(h, ds), path) == Paths(h, ds)
    decreases |ds|
  {
    if ds != [] {
      assert Paths(h, ds)[1..] == Paths(h, ds[1..]);
      NotListedRemoved(h, ds[1..], path);
    }
  }

  /** What the client does on each signal is what the mirror does with its list. */
  lemma SignalsMirrored(h: Heap, path: D.Path, listeners: nat)
    requires Inv(h)
    ensures InRange(h.desktop.list, h)
    ensures h.desktop.alive ==>
              var h1 := Connect(h, path, listeners);
              && InRange(h1.desktop.list, h1)
              && Paths(h1, h1.desktop.list) == M.Handle(Paths(h, h.desktop.list), M.Connected(path))
    ensures var h1 := Disconnect(h, path, listeners);
            h1.desktop.alive ==>
              && InRange(h1.desktop.list, h1)
              && Paths(h1, h1.desktop.list) == M.Handle(Paths(h, h.desktop.list), M.Disconnected(path))
  {
    hide Inv, AddRefs, DeviceRelease, Paths, M.Removed;
    ListIsInRange(h);
    var l := h.desktop.list;
    var n := NewDevice(h, path);
    PathsSame(h, n, l);
    PathsAppend(n, l, |h.devices|);
    PathsSame(n, AddRefs(n, |h.devices|, listeners), n.desktop.list);
    var i := Listed(h, path, 0);
    if i == |l| {
      NotListedRemoved(h, l, path);
    } else {
      var u := Unlist(h, i);
      var a := AddRefs(u, l[i], listeners);
      PathsRemoved(h, l, i, path);
      PathsSame(h, u, u.desktop.list);
      PathsSame(u, a, u.desktop.list);
      PathsSame(a, DeviceRelease(a, l[i]), u.desktop.list);
    }
  }

  /** The snapshot's devices join the list in its order. */
  lemma {:induction false} SnapshotMirrored(h: Heap, paths: seq<D.Path>)
    requires InRange(h.desktop.list, h)
    ensures var h1 := NewDevices(h, paths);
            InRange(h1.desktop.list, h1) && Paths(h1, h1.desktop.list) == Paths(h, h.desktop.list) + paths
    decreases |paths|
  {
    hide Paths;
    if paths != [] {
      var n := NewDevice(h, paths[0]);
      PathsSame(h, n, h.desktop.list);
      PathsAppend(n, h.desktop.list, |h.devices|);
      SnapshotMirrored(n, paths[1..]);
      assert paths == [paths[0]] + paths[1..];
    }
  }

  /** Connecting to the daemon is a snapshot; a proxy that is overwritten changes nothing in the list. */
  lemma ConnectMirrored(h: Heap, paths: seq<D.Path>)
    requires Inv(h)
    ensures var h1 := UdevConnect(h, Proxy(paths));
            && InRange(h.desktop.list, h) && InRange(h1.desktop.list, h1)
            && Paths(h1, h1.desktop.list) == Paths(h, h.desktop.list) + paths
  {
    hide Inv, Paths;
    ListIsInRange(h);
    var w := h.(wiring := h.wiring.(proxy := true, leaked := h.wiring.leaked + Bit(h.wiring.proxy)));
    PathsSame(h, w, h.desktop.list);
    SnapshotMirrored(w, paths);
  }

  /** A desktop that has to be made lists the snapshot's devices, if the daemon is there, and is otherwise empty; one
      that exists stays as it is. */
  lemma GetMirrored(h: Heap, answer: Answer)
    requires Inv(h)
    ensures var h1 := Get(h, answer);
            if h.desktop.alive then h1.desktop == h.desktop.(refs := h.desktop.refs + 1) && h1.devices == h.devices
            else if answer.NoAnswer? then h1.desktop == h.desktop && h1.devices == h.devices
            else
              && h1.desktop.alive && InRange(h1.desktop.list, h1)
              && Paths(h1, h1.desktop.list) == (if answer.Owner? && answer.link.Proxy? then answer.link.paths else [])
  {
    hide Inv, NewDevices, Paths;
    if !h.desktop.alive && !answer.NoAnswer? {
      var made := h.(desktop := Desktop(1, true, []), held := h.held.(desktop := h.held.desktop + 1));
      NoPaths(made);
      if answer.Owner? && answer.link.Proxy? {
        MadeKeeps(h);
        ConnectMirrored(made, answer.link.paths);
      }
    }
  }

  lemma NoPaths(h: Heap)
    requires h.desktop.list == []
    ensures InRange(h.desktop.list, h) && Paths(h, h.desktop.list) == []
    ensures forall w :: InRange(h.desktop.list, h.(wiring := w)) && Paths(h.(wiring := w), h.desktop.list) == []
  {
  }

  lemma {:induction false} RemovedAt(list: seq<D.Path>, path: D.Path)
    ensures var i := Position(list, path);
            M.Removed(list, path) == if i == |list| then list else list[..i] + list[i + 1..]
  {
    if list != [] && list[0] != path {
      RemovedAt(list[1..], path);
      var j := Position(list[1..], path);
      if j < |list| - 1 {
        assert [list[0]] + (list[1..][..j] + list[1..][j + 1..]) == list[..j + 1] + list[j + 2..];
      }
    }
  }

  /** An orphan does with its own list what the mirror does. */
  lemma OrphanMirrored(h: Heap, o: Id, path: D.Path)
    requires o < |h.wiring.orphans|
    ensures var list := h.wiring.orphans[o].list;
            && OrphanAdd(h, o, path).wiring.orphans[o].list == M.Handle(list, M.Connected(path))
            && OrphanDisconnect(h, o, path).wiring.orphans[o].list == M.Handle(list, M.Disconnected(path))
            && forall paths :: OrphanConnect(h, o, Proxy(paths)).wiring.orphans[o].list == list + paths
  {
    hide M.Removed, OrphanDrop;
    RemovedAt(h.wiring.orphans[o].list, path);
  }

  /** The paths of the list as they are up to position i, and without dccm's from there. */
  function Remaining(h: Heap, i: nat): seq<D.Path>
    requires i <= |h.desktop.list| && InRange(h.desktop.list, h)
  {
    Paths(h, h.desktop.list[..i]) + M.WithoutDccm(Paths(h, h.desktop.list[i..]))
  }

  lemma RemainingEnd(h: Heap)
    requires InRange(h.desktop.list, h)
    ensures Remaining(h, |h.desktop.list|) == Paths(h, h.desktop.list)
  {
    var l := h.desktop.list;
    assert l[..|l|] == l && l[|l|..] == [];
  }

  lemma PathsFirst(h: Heap, ds: seq<Id>)
    requires ds != [] && InRange(ds, h)
    ensures InRange(ds[1..], h) && M.WithoutDccm(Paths(h, ds))
         == (if M.DCCM_PREFIX <= h.devices[ds[0]].path then [] else [h.devices[ds[0]].path])
          + M.WithoutDccm(Paths(h, ds[1..]))
  {
    assert Paths(h, ds)[0] == h.devices[ds[0]].path && Paths(h, ds)[1..] == Paths(h, ds[1..]);
  }

  lemma RemainingSkip(h: Heap, i: nat)
    requires i < |h.desktop.list| && InRange(h.desktop.list, h) && !(M.DCCM_PREFIX <= h.devices[h.desktop.list[i]].path)
    ensures Remaining(h, i + 1) == Remaining(h, i)
  {
    hide Paths, M.WithoutDccm;
    var l := h.desktop.list;
    assert l[i..][1..] == l[i + 1..] && l[..i + 1] == l[..i] + [l[i]];
    PathsFirst(h, l[i..]);
    PathsAppend(h, l[..i], l[i]);
  }

  lemma RemainingDrop(h: Heap, i: nat)
    requires Inv(h) && i < |h.desktop.list| && InRange(h.desktop.list, h)
    requires M.DCCM_PREFIX <= h.devices[h.desktop.list[i]].path
    requires Dropped(h, i).desktop.alive
    ensures var h1 := Dropped(h, i);
            i <= |h1.desktop.list| && InRange(h1.desktop.list, h1) && Remaining(h1, i) == Remaining(h, i)
  {
    hide Inv, Paths, M.WithoutDccm, Dropped;
    var l, h1 := h.desktop.list, Dropped(h, i);
    DroppedShape(h, i);
    assert l[i..][1..] == l[i + 1..] && h1.desktop.list[..i] == l[..i] && h1.desktop.list[i..] == l[i + 1..];
    PathsFirst(h, l[i..]);
    PathsSame(h, h1, l[..i]);
    PathsSame(h, h1, l[i + 1..]);
  }

  /** Once the daemon is lost without a fault the list keeps exactly the devices of others, in order. */
  lemma {:induction false} OfflineMirrored(h: Heap, i: nat)
    requires Inv(h) && i <= |h.desktop.list| && InRange(h.desktop.list, h)
    ensures var h1 := Offline(h, i);
            !h1.fault ==> InRange(h1.desktop.list, h1) && Paths(h1, h1.desktop.list) == Remaining(h, i)
    decreases |h.desktop.list| - i
  {
    hide Inv, Dropped, Paths, Remaining;
    if i == |h.desktop.list| {
      RemainingEnd(h);
    } else if M.DCCM_PREFIX <= h.devices[h.desktop.list[i]].path {
      DroppedShape(h, i);
      if Dropped(h, i).desktop.alive {
        RemainingDrop(h, i);
        OfflineMirrored(Dropped(h, i), i);
      }
    } else {
      RemainingSkip(h, i);
      OfflineMirrored(h, i + 1);
    }
  }
}
