/** What each function of the library gives the program, or takes from it. */
module RapiHoldings {
  import opened RapiObjects
  import opened RapiRuns
  import M = DeviceSignals
  import D = DeviceManager
  import opened Basics
  import opened Wrappers

  /** Copies of one reference. */
  function Times(d: Id, n: nat): multiset<Id> {
    multiset{}[d := n]
  }

  /** The references the program holds after the call: one more for each object it got or added a reference to, one
      less for each it released; each listener told of a device has one; losing or finding the daemon changes none. */
  function HeldAfter(h: Heap, e: Event): Held
    requires Enabled(h, e)
  {
    var held := h.held;
    match e
    case GetDesktop(answer) =>
      if !h.desktop.alive && answer.NoAnswer? then held else held.(desktop := held.desktop + 1)
    case AddRefDesktop => held.(desktop := held.desktop + 1)
    case ReleaseDesktop => held.(desktop := held.desktop - 1)
    case DeviceConnected(_, listeners, Own) => held.(devices := held.devices + Times(|h.devices|, listeners))
    case DeviceDisconnected(path, listeners, Own) =>
      if InRange(h.desktop.list, h) && Listed(h, path, 0) < |h.desktop.list| then
        held.(devices := held.devices + Times(h.desktop.list[Listed(h, path, 0)], listeners))
      else held
    case AddRefDevice(d) => held.(devices := held.devices + multiset{d})
    case ReleaseDevice(d) => held.(devices := held.devices - multiset{d})
    case Enumerate => held.(enums := held.enums + multiset{|h.enums|})
    case CloneEnum(_) => held.(enums := held.enums + multiset{|h.enums|})
    case AddRefEnum(i) => held.(enums := held.enums + multiset{i})
    case ReleaseEnum(i) => held.(enums := held.enums - multiset{i})
    case OpenSession(_) => held.(sessions := held.sessions + multiset{|h.sessions|})
    case AddRefSession(s) => held.(sessions := held.sessions + multiset{s})
    case ReleaseSession(s) => held.(sessions := held.sessions - multiset{s})
    case SessionDevice(s) => held.(devices := held.devices + multiset{h.sessions[s].device})
    case _ => held
  }

  lemma {:induction false} AddRefsHeld(h: Heap, d: Id, listeners: nat)
    requires d < |h.devices|
    ensures AddRefs(h, d, listeners).held == h.held.(devices := h.held.devices + Times(d, listeners))
    decreases listeners
  {
    hide Descends;
    if listeners == 0 {
      assert h.held.devices + Times(d, 0) == h.held.devices;
    } else {
      AddRefsHeld(DeviceAddRef(h, d), d, listeners - 1);
      assert h.held.devices + multiset{d} + Times(d, listeners - 1) == h.held.devices + Times(d, listeners);
    }
  }

  lemma {:induction false} AddRefAllHeld(h: Heap, ds: seq<Id>)
    requires InRange(ds, h)
    ensures AddRefAll(h, ds).held == h.held.(devices := h.held.devices + multiset(ds))
    decreases |ds|
  {
    hide Descends;
    if ds == [] {
    } else {
      AddRefAllHeld(DeviceAddRef(h, ds[0]), ds[1..]);
      assert ds == [ds[0]] + ds[1..];
    }
  }

  lemma {:induction false} NewDevicesHeld(h: Heap, paths: seq<D.Path>)
    ensures NewDevices(h, paths).held == h.held
    decreases |paths|
  {
    hide Descends;
    if paths != [] {
      NewDevicesHeld(NewDevice(h, paths[0]), paths[1..]);
    }
  }

  lemma ReleaseHeld(h: Heap, d: Id)
    requires Inv(h) && h.held.devices[d] > 0 && d < |h.devices|
    ensures DeviceRelease(h, d).held == h.held.(devices := h.held.devices - multiset{d})
  {
    hide DesktopInv, EnumInv, SessionInv, InEnums, InSessions, Descends;
    assert DeviceInv(h, d);
    ReleaseEffect(h, d);
  }

  lemma {:induction false} ReleaseAllHeld(h: Heap, ds: seq<Id>)
    requires Inv(h) && multiset(ds) <= h.held.devices && InRange(ds, h)
    ensures ReleaseAll(h, ds).held == h.held.(devices := h.held.devices - multiset(ds))
    decreases |ds|
  {
    hide Inv, DeviceRelease, Descends;
    if ds == [] {
    } else {
      assert ds == [ds[0]] + ds[1..];
      ReleaseHeld(h, ds[0]);
      ReleaseKeeps(h, ds[0]);
      ReleaseAllHeld(DeviceRelease(h, ds[0]), ds[1..]);
    }
  }

  lemma DroppedHeld(h: Heap, i: nat)
    requires Inv(h) && i < |h.desktop.list| && InRange(h.desktop.list, h)
    ensures Dropped(h, i).held == h.held
  {
    hide Inv, DeviceRelease, Descends;
    UnlistKeeps(h, i);
    ReleaseHeld(Unlist(h, i), h.desktop.list[i]);
    assert h.held.devices + multiset{h.desktop.list[i]} - multiset{h.desktop.list[i]} == h.held.devices;
  }

  lemma {:induction false} OfflineHeld(h: Heap, i: nat)
    requires Inv(h) && i <= |h.desktop.list| && InRange(h.desktop.list, h)
    ensures Offline(h, i).held == h.held
    decreases |h.desktop.list| - i
  {
    hide Inv, Dropped, Descends;
    if i < |h.desktop.list| {
      if M.DCCM_PREFIX <= h.devices[h.desktop.list[i]].path {
        DroppedShape(h, i);
        DroppedHeld(h, i);
        if Dropped(h, i).desktop.alive {
          OfflineHeld(Dropped(h, i), i);
        }
      } else {
        OfflineHeld(h, i + 1);
      }
    }
  }

  lemma DisconnectHeld(h: Heap, path: D.Path, listeners: nat)
    requires Inv(h) && InRange(h.desktop.list, h)
    ensures var i := Listed(h, path, 0);
            Disconnect(h, path, listeners).held ==
              if i < |h.desktop.list| then h.held.(devices := h.held.devices + Times(h.desktop.list[i], listeners))
              else h.held
  {
    hide Inv, AddRefs, DeviceRelease, Descends;
    var i := Listed(h, path, 0);
    if i < |h.desktop.list| {
      var d := h.desktop.list[i];
      UnlistKeeps(h, i);
      AddRefsKeeps(Unlist(h, i), d, listeners);
      AddRefsHeld(Unlist(h, i), d, listeners);
      ReleaseHeld(AddRefs(Unlist(h, i), d, listeners), d);
      assert h.held.devices + multiset{d} + Times(d, listeners) - multiset{d} == h.held.devices + Times(d, listeners);
    }
  }

  lemma NewEnumHeld(h: Heap, ds: seq<Id>)
    requires InRange(ds, h)
    ensures NewEnum(AddRefAll(h, ds), ds).held == h.held.(enums := h.held.enums + multiset{|h.enums|})
  {
    hide Descends;
    AddRefAllHeld(h, ds);
    assert h.held.devices + multiset(ds) - multiset(ds) == h.held.devices;
  }

  lemma EnumReleaseHeld(h: Heap, e: Id)
    requires Inv(h) && h.held.enums[e] > 0 && e < |h.enums| && InRange(h.enums[e].devices, h)
    ensures EnumRelease(h, e).held == h.held.(enums := h.held.enums - multiset{e})
  {
    hide DeviceInv, DesktopInv, SessionInv, ReleaseAll, Descends;
    assert EnumInv(h, e);
    if h.enums[e].refs == 1 {
      var ds := h.enums[e].devices;
      var held := h.held.(enums := h.held.enums - multiset{e}, devices := h.held.devices + multiset(ds));
      EnumSetKeeps(h, e, EnumObj([], 0, 0), held);
      ReleaseAllHeld(h.(enums := h.enums[e := EnumObj([], 0, 0)], held := held), ds);
      assert h.held.devices + multiset(ds) - multiset(ds) == h.held.devices;
    }
  }

  lemma SessionReleaseHeld(h: Heap, s: Id)
    requires Inv(h) && h.held.sessions[s] > 0 && s < |h.sessions| && h.sessions[s].device < |h.devices|
    ensures SessionRelease(h, s).held == h.held.(sessions := h.held.sessions - multiset{s})
  {
    hide DeviceInv, DesktopInv, EnumInv, DeviceRelease, Descends;
    assert SessionInv(h, s);
    var o := h.sessions[s].(refs := h.sessions[s].refs - 1);
    if o.refs <= 0 {
      var held := h.held.(sessions := h.held.sessions - multiset{s}, devices := h.held.devices + multiset{o.device});
      SessionSetKeeps(h, s, o, held);
      ReleaseHeld(h.(sessions := h.sessions[s := o], held := held), o.device);
      assert h.held.devices + multiset{o.device} - multiset{o.device} == h.held.devices;
    }
  }

  lemma DesktopHeld(h: Heap, e: Event)
    requires Inv(h) && Enabled(h, e) && !Step(h, e).fault && (AboutDesktop(e) || IsSignal(e)) && !AboutOrphans(e)
    ensures Step(h, e).held == HeldAfter(h, e)
  {
    hide Inv, UdevDisconnect, UdevConnect, AddRefs, AddRefAll, NewDevices, Disconnect, Descends, NewEnum;
    InRangeAll(h);
    match e
    case GetDesktop(answer) =>
      if answer.Owner? {
        ConnectHeld(h.(desktop := Desktop(1, true, []), held := h.held.(desktop := h.held.desktop + 1)), answer.link);
      }
    case DaemonFound(link) => ConnectHeld(h, link);
    case DaemonLost => LossHeld(h);
    case DeviceConnected(path, listeners, _) => AddRefsHeld(NewDevice(h, path), |h.devices|, listeners);
    case DeviceDisconnected(path, listeners, _) => DisconnectHeld(h, path, listeners);
    case Enumerate => NewEnumHeld(h, h.desktop.list);
    case _ =>
  }

  lemma ObjectsHeld(h: Heap, e: Event)
    requires Inv(h) && Enabled(h, e) && !Step(h, e).fault && !AboutDesktop(e) && !IsSignal(e) && !AboutOrphans(e)
    ensures Step(h, e).held == HeldAfter(h, e)
  {
    hide Inv, DeviceRelease, AddRefAll, ReleaseAll, Descends, EnumRelease, SessionRelease, NewEnum;
    InRangeAll(h);
    match e
    case ReleaseDevice(d) => ReleaseHeld(h, d);
    case CloneEnum(i) => NewEnumHeld(h, h.enums[i].devices);
    case ReleaseEnum(i) => EnumReleaseHeld(h, i);
    case ReleaseSession(s) => SessionReleaseHeld(h, s);
    case OpenSession(d) => assert h.held.devices + multiset{d} - multiset{d} == h.held.devices;
    case _ =>
  }

  /** Each call that does not fault gives and takes exactly this. */
  lemma HeldStep(h: Heap, e: Event)
    requires Inv(h) && Enabled(h, e) && !Step(h, e).fault
    ensures Step(h, e).held == HeldAfter(h, e)
  {
    hide Inv, Step, Enabled;
    if AboutOrphans(e) {
      OrphanStep(h, e);
    } else if AboutDesktop(e) || IsSignal(e) {
      DesktopHeld(h, e);
    } else {
      ObjectsHeld(h, e);
    }
  }

  lemma ConnectHeld(h: Heap, link: Link)
    ensures UdevConnect(h, link).held == h.held
  {
    hide Descends;
    if link.Proxy? {
      var w := h.wiring.(proxy := true, leaked := h.wiring.leaked + Bit(h.wiring.proxy));
      NewDevicesHeld(h.(wiring := w), link.paths);
    }
  }

  lemma LossHeld(h: Heap)
    requires Inv(h) && h.desktop.alive && InRange(h.desktop.list, h)
    ensures UdevDisconnect(h).held == h.held
  {
    hide Inv, Offline;
    OrphansOf(h);
    RewireKeeps(h, h.wiring.(proxy := false));
    OfflineHeld(h.(wiring := h.wiring.(proxy := false)), 0);
  }
}
