/** The functions of the RAPI object layer, as they update its objects, proved against the heap's functions. */
module RapiLibrary {
  import opened RapiObjects
  import opened Basics
  import opened Wrappers
  import M = DeviceSignals
  import D = DeviceManager

  class Rapi {
    var desktop: Desktop
    var devices: seq<DeviceObj>
    var enums: seq<EnumObj>
    var sessions: seq<SessionObj>
    /** Whose references these are: the program's, and those in hand. */
    ghost var held: Held
    /** The handlers connected: a proxy that is overwritten is not kept anywhere. */
    var proxy: bool
    ghost var leaked: nat
    ghost var stale: nat
    ghost var orphans: seq<Orphan>
    var fault: bool

    ghost function View(): Heap
      reads this
    {
      Heap(desktop, devices, enums, sessions, held, Wiring(proxy, leaked, stale, orphans), fault)
    }

    constructor ()
      ensures View() == Begin()
    {
      desktop, devices, enums, sessions, fault := Desktop(0, false, []), [], [], [], false;
      held, proxy, leaked, stale, orphans := Held(0, multiset{}, multiset{}, multiset{}), false, 0, 0, [];
    }

    // ---- Desktop ----

    /** What is made is kept in irapi_desktop only once the bus has answered. */
    method IRAPIDesktopGet(answer: Answer) returns (ok: bool)
      modifies this
      ensures View() == old(Get(View(), answer)) && (ok <==> old(desktop.alive) || !answer.NoAnswer?)
    {
      hide NewDevices, Descends;
      if !desktop.alive {
        if answer.NoAnswer? {
          orphans := orphans + [Orphan([], 0, false, 0)];
          return false;
        }
        desktop := Desktop(0, true, []);
        if answer.Owner? {
          WithRefFirst(View(), answer.link);
          UdevConnect(answer.link);
        }
      }
      desktop := desktop.(refs := desktop.refs + 1);
      held := held.(desktop := held.desktop + 1);
      ok := true;
    }

    /** The field is overwritten whatever it holds; then the devices of the daemon's snapshot join the list. */
    method UdevConnect(link: Link)
      modifies this
      ensures View() == old(RapiObjects.UdevConnect(View(), link))
    {
      hide Descends;
      if proxy {
        leaked := leaked + 1;
      }
      proxy := link.Proxy?;
      if !proxy {
        return;
      }
      ghost var was := View();
      var i := 0;
      while i < |link.paths|
        invariant i <= |link.paths|
        invariant NewDevices(was, link.paths) == NewDevices(View(), link.paths[i..])
      {
        assert link.paths[i..][0] == link.paths[i] && link.paths[i..][1..] == link.paths[i + 1..];
        var newdev := |devices|;
        desktop := desktop.(refs := desktop.refs + 1);
        devices := devices + [DeviceObj(link.paths[i], true, 1, true)];
        desktop := desktop.(list := desktop.list + [newdev]);
        i := i + 1;
      }
    }

    method IRAPIDesktopAddRef()
      modifies this
      ensures View() == old(DesktopAddRef(View()))
    {
      desktop := desktop.(refs := desktop.refs + 1);
      held := held.(desktop := held.desktop + 1);
    }

    method IRAPIDesktopRelease()
      requires held.desktop > 0
      modifies this
      ensures View() == old(DesktopRelease(View()))
    {
      desktop := desktop.(refs := desktop.refs - 1);
      held := held.(desktop := held.desktop - 1);
      if desktop.refs > 0 {
        return;
      }
      desktop := Desktop(0, false, []);
      proxy, leaked, stale := false, 0, stale + leaked;
    }

    // ---- Devices ----

    method IRAPIDeviceAddRef(self: Id)
      requires self < |devices|
      modifies this
      ensures View() == old(DeviceAddRef(View(), self))
    {
      devices := devices[self := devices[self].(refs := devices[self].refs + 1)];
      held := held.(devices := held.devices + multiset{self});
    }

    /** The device is marked freed before its reference to the desktop goes, which cannot tell. */
    method IRAPIDeviceRelease(self: Id)
      requires self < |devices|
      modifies this
      ensures View() == old(DeviceRelease(View(), self))
    {
      hide Descends, Freed;
      ghost var was := View();
      devices := devices[self := devices[self].(refs := devices[self].refs - 1)];
      held := held.(devices := held.devices - multiset{self});
      if devices[self].refs > 0 {
        return;
      }
      devices := devices[self := devices[self].(alive := false)];
      held := held.(desktop := held.desktop + 1);
      assert devices == was.devices[self := was.devices[self].(refs := was.devices[self].refs - 1, alive := false)];
      IRAPIDesktopRelease();
    }

    // ---- Signals from the daemon ----

    method Tell(d: Id, listeners: nat)
      requires d < |devices|
      modifies this
      ensures View() == old(AddRefs(View(), d, listeners))
    {
      var n := 0;
      while n < listeners
        invariant n <= listeners && d < |devices|
        invariant AddRefs(View(), d, listeners - n) == old(AddRefs(View(), d, listeners))
      {
        IRAPIDeviceAddRef(d);
        n := n + 1;
      }
    }

    method OnDeviceConnected(path: D.Path, listeners: nat)
      modifies this
      ensures View() == old(Connect(View(), path, listeners))
    {
      var newdev := |devices|;
      desktop := desktop.(refs := desktop.refs + 1);
      devices := devices + [DeviceObj(path, true, 1, true)];
      desktop := desktop.(list := desktop.list + [newdev]);
      Tell(newdev, listeners);
    }

    method OnDeviceDisconnected(path: D.Path, listeners: nat)
      requires InRange(desktop.list, View())
      modifies this
      ensures View() == old(Disconnect(View(), path, listeners))
    {
      var i := 0;
      while i < |desktop.list| && devices[desktop.list[i]].path != path
        invariant i <= |desktop.list|
        invariant Listed(View(), path, 0) == Listed(View(), path, i)
      {
        i := i + 1;
      }
      if i == |desktop.list| {
        return;
      }
      var device := desktop.list[i];
      Drop(i);
      Tell(device, listeners);
      IRAPIDeviceRelease(device);
    }

    method Drop(i: nat)
      requires i < |desktop.list| && desktop.list[i] < |devices|
      modifies this
      ensures View() == old(Unlist(View(), i))
    {
      var device := desktop.list[i];
      devices := devices[device := devices[device].(connected := false)];
      desktop := desktop.(list := desktop.list[..i] + desktop.list[i + 1..]);
      held := held.(devices := held.devices + multiset{device});
    }

    /** The walk starts again at the head after each removal. */
    method UdevDisconnect()
      requires InRange(desktop.list, View())
      modifies this
      ensures View() == old(RapiObjects.UdevDisconnect(View()))
    {
      hide DeviceRelease, Offline, Unlist, Dropped, Descends, Freed, NoneBefore, InRange;
      proxy := false;
      ghost var was := View();
      SameRange(old(View()), was);
      NothingBefore(was);
      var i := 0;
      while i < |desktop.list|
        invariant i <= |desktop.list| && InRange(desktop.list, View())
        invariant Offline(View(), i) == Offline(was, 0)
        invariant NoneBefore(View(), i)
        decreases |desktop.list|, |desktop.list| - i
      {
        ghost var h := View();
        InRangeAt(h, i);
        var device := desktop.list[i];
        OfflineUnfold(h, i);
        if M.DCCM_PREFIX <= devices[device].path {
          DroppedList(h, i);
          Drop(i);
          IRAPIDeviceRelease(device);
          if !desktop.alive {
            fault := true;
            return;
          }
          OfflineRestart(View(), i);
          NothingBefore(View());
          i := 0;
        } else {
          OneMoreBefore(h, i);
          i := i + 1;
        }
      }
      OfflineUnfold(View(), i);
    }

    // ---- Enumerators ----

    method Collect(ds: seq<Id>)
      requires InRange(ds, View())
      modifies this
      ensures View() == old(NewEnum(AddRefAll(View(), ds), ds))
    {
      hide NewEnum, DeviceAddRef, Descends;
      var list: seq<Id> := [];
      var i := 0;
      while i < |ds|
        invariant i <= |ds| && list == ds[..i] && InRange(ds, View())
        invariant AddRefAll(View(), ds[i..]) == old(AddRefAll(View(), ds))
      {
        assert ds[i..][0] == ds[i] && ds[i..][1..] == ds[i + 1..];
        IRAPIDeviceAddRef(ds[i]);
        list := list + [ds[i]];
        i := i + 1;
      }
      assert list == ds;
      NewEnumIs(View(), ds);
      held := held.(devices := held.devices - multiset(list), enums := held.enums + multiset{|enums|});
      enums := enums + [EnumObj(list, 0, 1)];
    }

    method IRAPIDesktopEnumDevices() returns (e: Id)
      requires InRange(desktop.list, View())
      modifies this
      ensures View() == old(EnumDevices(View())) && e == old(|enums|)
    {
      e := |enums|;
      Collect(desktop.list);
    }

    method IRAPIEnumDevicesClone(self: Id) returns (e: Id)
      requires self < |enums| && InRange(enums[self].devices, View())
      modifies this
      ensures View() == old(Clone(View(), self)) && e == old(|enums|)
    {
      e := |enums|;
      Collect(enums[self].devices);
    }

    method IRAPIEnumDevicesAddRef(self: Id)
      requires self < |enums|
      modifies this
      ensures View() == old(EnumAddRef(View(), self))
    {
      enums := enums[self := enums[self].(refs := enums[self].refs + 1)];
      held := held.(enums := held.enums + multiset{self});
    }

    /** The enumerator is marked freed before its devices go, which cannot tell. */
    method IRAPIEnumDevicesRelease(self: Id)
      requires self < |enums| && InRange(enums[self].devices, View())
      modifies this
      ensures View() == old(EnumRelease(View(), self))
    {
      hide DeviceRelease, ReleaseAll;
      enums := enums[self := enums[self].(refs := enums[self].refs - 1)];
      held := held.(enums := held.enums - multiset{self});
      if enums[self].refs > 0 {
        return;
      }
      var ds := enums[self].devices;
      enums := enums[self := EnumObj([], 0, 0)];
      assert enums == old(enums)[self := EnumObj([], 0, 0)];
      held := held.(devices := held.devices + multiset(ds));
      ReleaseEach(ds);
    }

    method ReleaseEach(ds: seq<Id>)
      requires InRange(ds, View())
      modifies this
      ensures View() == old(ReleaseAll(View(), ds))
    {
      hide DeviceRelease;
      ghost var was := View();
      var i := 0;
      while i < |ds|
        invariant i <= |ds| && InRange(ds, View())
        invariant ReleaseAll(View(), ds[i..]) == ReleaseAll(was, ds)
      {
        assert ds[i..][0] == ds[i] && ds[i..][1..] == ds[i + 1..];
        IRAPIDeviceRelease(ds[i]);
        i := i + 1;
      }
    }

    /** The device is handed out without a reference of its own. */
    method IRAPIEnumDevicesNext(self: Id) returns (found: bool, device: Id)
      requires self < |enums|
      modifies this
      ensures View() == old(Next(View(), self))
      ensures (if found then Some(device) else None) == old(AtCursor(View(), self))
    {
      var o := enums[self];
      if o.current >= |o.devices| {
        return false, 0;
      }
      device := o.devices[o.current];
      enums := enums[self := o.(current := o.current + 1)];
      found := true;
    }

    method IRAPIEnumDevicesReset(self: Id)
      requires self < |enums|
      modifies this
      ensures View() == old(Reset(View(), self))
    {
      enums := enums[self := enums[self].(current := 0)];
    }

    method IRAPIEnumDevicesSkip(self: Id, n: nat) returns (ok: bool)
      requires self < |enums| && enums[self].current <= |enums[self].devices|
      modifies this
      ensures View() == old(Skip(View(), self, n))
      ensures ok <==> old(enums[self].current + n <= |enums[self].devices|)
    {
      ghost var was := View();
      var i := 0;
      while i < n
        invariant i <= n && View() == Skip(was, self, i) && was.enums[self].current + i <= |was.enums[self].devices|
      {
        if enums[self].current == |enums[self].devices| {
          return false;
        }
        enums := enums[self := enums[self].(current := enums[self].current + 1)];
        i := i + 1;
      }
      return true;
    }

    // ---- Sessions ----

    method IRAPIDeviceCreateSession(self: Id) returns (s: Id)
      requires self < |devices|
      modifies this
      ensures View() == old(CreateSession(View(), self)) && s == old(|sessions|)
    {
      s := |sessions|;
      IRAPIDeviceAddRef(self);
      sessions := sessions + [SessionObj(self, 1)];
      held := held.(devices := held.devices - multiset{self}, sessions := held.sessions + multiset{s});
    }

    method IRAPISessionAddRef(self: Id)
      requires self < |sessions|
      modifies this
      ensures View() == old(SessionAddRef(View(), self))
    {
      sessions := sessions[self := sessions[self].(refs := sessions[self].refs + 1)];
      held := held.(sessions := held.sessions + multiset{self});
    }

    method IRAPISessionRelease(self: Id)
      requires self < |sessions| && sessions[self].device < |devices|
      modifies this
      ensures View() == old(SessionRelease(View(), self))
    {
      sessions := sessions[self := sessions[self].(refs := sessions[self].refs - 1)];
      held := held.(sessions := held.sessions - multiset{self});
      if sessions[self].refs > 0 {
        return;
      }
      held := held.(devices := held.devices + multiset{sessions[self].device});
      IRAPIDeviceRelease(sessions[self].device);
    }

    method IRAPISessionGetDevice(self: Id) returns (device: Id)
      requires self < |sessions| && sessions[self].device < |devices|
      modifies this
      ensures device == old(sessions[self].device) && View() == old(DeviceAddRef(View(), sessions[self].device))
    {
      device := sessions[self].device;
      IRAPIDeviceAddRef(device);
    }
  }

  /** The reference of the desktop's first user may as well come before its devices. */
  lemma WithRefFirst(h: Heap, link: Link)
    ensures DesktopAddRef(RapiObjects.UdevConnect(h, link)) == RapiObjects.UdevConnect(DesktopAddRef(h), link)
  {
    hide Descends;
    if link.Proxy? {
      var w := h.wiring.(proxy := true, leaked := h.wiring.leaked + Bit(h.wiring.proxy));
      DevicesAfterRef(h.(wiring := w), link.paths);
    }
  }

  lemma {:induction false} DevicesAfterRef(h: Heap, paths: seq<D.Path>)
    ensures DesktopAddRef(NewDevices(h, paths)) == NewDevices(DesktopAddRef(h), paths)
    decreases |paths|
  {
    if paths != [] {
      DevicesAfterRef(NewDevice(h, paths[0]), paths[1..]);
    }
  }

  lemma NewEnumIs(h: Heap, ds: seq<Id>)
    ensures NewEnum(h, ds) == h.(enums := h.enums + [EnumObj(ds, 0, 1)],
              held := h.held.(devices := h.held.devices - multiset(ds), enums := h.held.enums + multiset{|h.enums|}))
  {
  }

  lemma OfflineUnfold(h: Heap, i: nat)
    requires i <= |h.desktop.list| && InRange(h.desktop.list, h)
    ensures Offline(h, i) ==
            if i == |h.desktop.list| then h
            else if M.DCCM_PREFIX <= h.devices[h.desktop.list[i]].path then
              var h1 := Dropped(h, i);
              if h1.desktop.alive then Offline(h1, i) else h1.(fault := true)
            else Offline(h, i + 1)
  {
    hide Dropped;
  }

  lemma SameRange(h: Heap, h1: Heap)
    requires InRange(h.desktop.list, h) && h1.desktop == h.desktop && h1.devices == h.devices
    ensures InRange(h1.desktop.list, h1)
  {
  }

  lemma InRangeAt(h: Heap, i: nat)
    requires InRange(h.desktop.list, h) && i < |h.desktop.list|
    ensures h.desktop.list[i] < |h.devices|
  {
  }

  /** No dccm device is listed before position i. */
  predicate NoneBefore(h: Heap, i: nat)
    requires i <= |h.desktop.list| && InRange(h.desktop.list, h)
  {
    forall k :: 0 <= k < i ==> !(M.DCCM_PREFIX <= h.devices[h.desktop.list[k]].path)
  }

  lemma NothingBefore(h: Heap)
    requires InRange(h.desktop.list, h)
    ensures NoneBefore(h, 0)
  {
  }

  lemma OneMoreBefore(h: Heap, i: nat)
    requires InRange(h.desktop.list, h) && i < |h.desktop.list| && NoneBefore(h, i)
    requires !(M.DCCM_PREFIX <= h.devices[h.desktop.list[i]].path)
    ensures NoneBefore(h, i + 1)
  {
  }

  lemma DroppedList(h: Heap, i: nat)
    requires InRange(h.desktop.list, h) && i < |h.desktop.list| && NoneBefore(h, i)
    ensures Dropped(h, i) == DeviceRelease(Unlist(h, i), h.desktop.list[i])
    ensures var h1 := Dropped(h, i);
            h1.desktop.alive ==>
              && |h1.desktop.list| == |h.desktop.list| - 1 && InRange(h1.desktop.list, h1)
              && NoneBefore(h1, i)
  {
    hide DeviceRelease, Freed;
  }

  /** Positions before i that hold no dccm device need not be walked again. */
  lemma {:induction false} OfflineRestart(h: Heap, i: nat)
    requires i <= |h.desktop.list| && InRange(h.desktop.list, h) && NoneBefore(h, i)
    ensures Offline(h, 0) == Offline(h, i)
  {
    hide Dropped;
    if i > 0 {
      OfflineRestart(h, i - 1);
    }
  }
}
