/**
 * The reference counts of the RAPI objects: one desktop, its devices, enumerators of devices and sessions on
 * them.  Desktop and devices refer to each other.  An object's number is its address; none is used twice.
 */
module RapiObjects {
  import opened Basics
  import opened Wrappers
  import opened DeviceSignals
  import opened DeviceManager

  type Id = nat

  /** An object is alive until it is freed. */
  datatype DeviceObj = DeviceObj(path: Path, connected: bool, refs: int, alive: bool)
  datatype EnumObj = EnumObj(devices: seq<Id>, current: nat, refs: int)
  datatype SessionObj = SessionObj(device: Id, refs: int)
  datatype Desktop = Desktop(refs: int, alive: bool, list: seq<Id>)

  /** The references the program using the library holds, and those handed from one object to the next. */
  datatype Held = Held(desktop: nat, devices: multiset<Id>, enums: multiset<Id>, sessions: multiset<Id>)

  /** A desktop whose making failed once it listened for the daemon's name.  Nobody has a reference to it but the
      devices it goes on to list, each listed with its first and only reference. */
  datatype Orphan = Orphan(list: seq<Path>, refs: int, proxy: bool, leaked: nat)

  /** The handlers of the daemon's signals: whether the desktop's own proxy has one, those of proxies it has
      overwritten, those left over from desktops already freed, and the orphans with theirs. */
  datatype Wiring = Wiring(proxy: bool, leaked: nat, stale: nat, orphans: seq<Orphan>)

  /** fault: the library has used a desktop that does not exist, or freed one that is still referred to. */
  datatype Heap = Heap(desktop: Desktop, devices: seq<DeviceObj>, enums: seq<EnumObj>, sessions: seq<SessionObj>,
                       held: Held, wiring: Wiring, fault: bool)

  function Begin(): Heap {
    Heap(Desktop(0, false, []), [], [], [], Held(0, multiset{}, multiset{}, multiset{}), Wiring(false, 0, 0, []), false)
  }

  // ---- Who refers to a device ----

  function InEnums(enums: seq<EnumObj>, d: Id): nat {
    if enums == [] then 0 else multiset(enums[0].devices)[d] + InEnums(enums[1..], d)
  }

  function InSessions(sessions: seq<SessionObj>, d: Id): nat {
    if sessions == [] then 0
    else Bit(sessions[0].refs > 0 && sessions[0].device == d) + InSessions(sessions[1..], d)
  }

  function Owners(h: Heap, d: Id): nat {
    multiset(h.desktop.list)[d] + InEnums(h.enums, d) + InSessions(h.sessions, d) + h.held.devices[d]
  }

  function Alive(devices: seq<DeviceObj>): nat {
    if devices == [] then 0 else Bit(devices[0].alive) + Alive(devices[1..])
  }

  /** The count is the number of references, the list's among them, and the object is alive while there is one. */
  predicate DeviceInv(h: Heap, d: nat) {
    && multiset(h.desktop.list)[d] <= 1
    && if d < |h.devices| then h.devices[d].refs == Owners(h, d) && (h.devices[d].alive <==> h.devices[d].refs > 0)
       else Owners(h, d) == 0
  }

  predicate DesktopInv(h: Heap) {
    && h.desktop.refs == h.held.desktop + Alive(h.devices)
    && (h.desktop.alive <==> h.desktop.refs > 0)
    && (!h.desktop.alive ==> !h.wiring.proxy && h.wiring.leaked == 0)
    && OrphansInv(h.wiring.orphans)
  }

  predicate OrphansInv(orphans: seq<Orphan>) {
    forall o :: 0 <= o < |orphans| ==> orphans[o].refs == |orphans[o].list|
  }

  predicate EnumInv(h: Heap, e: nat) {
    if e < |h.enums| then h.enums[e].refs == h.held.enums[e] && (h.enums[e].refs == 0 ==> h.enums[e].devices == [])
                          && h.enums[e].current <= |h.enums[e].devices|
    else h.held.enums[e] == 0
  }

  predicate SessionInv(h: Heap, s: nat) {
    if s < |h.sessions| then h.sessions[s].refs == h.held.sessions[s] else h.held.sessions[s] == 0
  }

  ghost predicate Inv(h: Heap) {
    && DesktopInv(h)
    && (forall d: nat :: DeviceInv(h, d))
    && (forall e: nat :: EnumInv(h, e))
    && (forall s: nat :: SessionInv(h, s))
  }

  /** No device changes its path, and none that was freed lives again. */
  predicate Descends(h: Heap, h1: Heap) {
    && |h.devices| <= |h1.devices| && h1.fault == h.fault
    && forall d :: 0 <= d < |h.devices| ==>
         h1.devices[d].path == h.devices[d].path && (h1.devices[d].alive ==> h.devices[d].alive)
  }

  // ---- Desktop and devices ----

  function DeviceAddRef(h: Heap, d: Id): (r: Heap)
    requires d < |h.devices|
    ensures |r.devices| == |h.devices| && Descends(h, r) && r.desktop == h.desktop && r.wiring == h.wiring
    ensures r.enums == h.enums && r.sessions == h.sessions
  {
    h.(devices := h.devices[d := h.devices[d].(refs := h.devices[d].refs + 1)],
       held := h.held.(devices := h.held.devices + multiset{d}))
  }

  /** The handlers when the desktop is freed. */
  function Freed(w: Wiring, freed: bool): Wiring {
    if freed then Wiring(false, 0, w.stale + w.leaked, w.orphans) else w
  }

  function Broken(h: Heap): Heap {
    h.(fault := true)
  }

  /** Frees the desktop, whoever's last reference went.  It also takes the dccm devices off its list; there are none
      when this is due.  It disconnects the handler of its own proxy, but not those of proxies it has overwritten. */
  function Uninit(h: Heap): Heap {
    if h.desktop.refs > 0 then Broken(h) else h.(desktop := Desktop(0, false, []), wiring := Freed(h.wiring, true))
  }

  function DesktopRelease(h: Heap): Heap
    requires h.held.desktop > 0
  {
    var h1 := h.(desktop := h.desktop.(refs := h.desktop.refs - 1), held := h.held.(desktop := h.held.desktop - 1));
    if h1.desktop.refs > 0 then h1 else Uninit(h1)
  }

  /** A device that is freed gives up its reference to the desktop. */
  function DeviceRelease(h: Heap, d: Id): (r: Heap)
    requires d < |h.devices|
    ensures |r.devices| == |h.devices| && Descends(h, r) && r.enums == h.enums && r.sessions == h.sessions
    ensures r.desktop.alive ==> r.desktop == h.desktop.(refs := r.desktop.refs)
    ensures r.wiring == Freed(h.wiring, h.desktop.alive && !r.desktop.alive) || !h.desktop.alive
    ensures r.held.devices == h.held.devices - multiset{d} && r.held.enums == h.held.enums
    ensures r.held.sessions == h.held.sessions
  {
    var o := h.devices[d].(refs := h.devices[d].refs - 1);
    var h1 := h.(held := h.held.(devices := h.held.devices - multiset{d}));
    if o.refs > 0 then h1.(devices := h.devices[d := o])
    else
      DesktopRelease(h1.(devices := h.devices[d := o.(alive := false)],
                         held := h1.held.(desktop := h.held.desktop + 1)))
  }

  lemma {:induction false} AliveUpdate(devices: seq<DeviceObj>, d: Id, o: DeviceObj)
    requires d < |devices|
    ensures Alive(devices[d := o]) == Alive(devices) - Bit(devices[d].alive) + Bit(o.alive)
  {
    if d > 0 {
      assert devices[d := o][1..] == devices[1..][d - 1 := o];
      AliveUpdate(devices[1..], d - 1, o);
    } else {
      assert devices[d := o][1..] == devices[1..];
    }
  }

  lemma {:induction false} AliveSome(devices: seq<DeviceObj>, d: Id)
    requires d < |devices| && devices[d].alive
    ensures Alive(devices) > 0
  {
    if d > 0 {
      AliveSome(devices[1..], d - 1);
    }
  }

  lemma AddRefKeeps(h: Heap, d: Id)
    requires Inv(h) && d < |h.devices| && h.devices[d].alive
    ensures Inv(DeviceAddRef(h, d))
  {
    hide InEnums, InSessions, Alive, EnumInv, SessionInv;
    var h1 := DeviceAddRef(h, d);
    AliveUpdate(h.devices, d, h1.devices[d]);
    forall x: nat ensures DeviceInv(h1, x) {
      assert DeviceInv(h, x);
    }
    SameOthers(h, h1);
  }

  /** Enumerators and sessions the step does not touch. */
  lemma SameOthers(h: Heap, h1: Heap)
    requires Inv(h) && h1.enums == h.enums && h1.sessions == h.sessions
    requires h1.held.enums == h.held.enums && h1.held.sessions == h.held.sessions
    ensures (forall e: nat :: EnumInv(h1, e)) && (forall s: nat :: SessionInv(h1, s))
  {
    hide DeviceInv, DesktopInv;
    forall e: nat ensures EnumInv(h1, e) {
      assert EnumInv(h, e);
    }
    forall s: nat ensures SessionInv(h1, s) {
      assert SessionInv(h, s);
    }
  }

  lemma {:induction false} NoneAlive(devices: seq<DeviceObj>, d: Id)
    requires Alive(devices) == 0 && d < |devices|
    ensures !devices[d].alive
  {
    if d > 0 {
      NoneAlive(devices[1..], d - 1);
    }
  }

  /** The last reference to the desktop goes only when no device is left, so its list is empty. */
  lemma DesktopReleaseKeeps(h: Heap)
    requires Inv(h) && h.held.desktop > 0
    ensures Inv(DesktopRelease(h))
    ensures h.desktop.refs == 1 ==> h.desktop.list == []
  {
    hide InEnums, InSessions, Alive, EnumInv, SessionInv;
    var h1 := DesktopRelease(h);
    if h.desktop.refs == 1 && h.desktop.list != [] {
      var d := h.desktop.list[0];
      assert DeviceInv(h, d);
      NoneAlive(h.devices, d);
    }
    forall x: nat ensures DeviceInv(h1, x) {
      assert DeviceInv(h, x);
    }
    SameOthers(h, h1);
  }

  /** One reference less to d. */
  lemma LoseReference(h: Heap, d: Id, h1: Heap, x: Id)
    requires h.held.devices[d] > 0 && h1.held.devices == h.held.devices - multiset{d}
    requires h1.desktop.list == h.desktop.list && h1.enums == h.enums && h1.sessions == h.sessions
    ensures Owners(h1, x) == Owners(h, x) - Bit(x == d)
  {
    hide InEnums, InSessions;
  }

  lemma ReleaseKeeps(h: Heap, d: Id)
    requires Inv(h) && h.held.devices[d] > 0
    ensures d < |h.devices| && Inv(DeviceRelease(h, d))
  {
    hide Owners, Alive, EnumInv, SessionInv, DesktopRelease, Descends;
    assert DeviceInv(h, d);
    HeldIsOwned(h, d);
    var o := h.devices[d].(refs := h.devices[d].refs - 1);
    var h1 := h.(held := h.held.(devices := h.held.devices - multiset{d}));
    if o.refs > 0 {
      AliveUpdate(h.devices, d, o);
      h1 := h1.(devices := h.devices[d := o]);
    } else {
      AliveUpdate(h.devices, d, o.(alive := false));
      h1 := h1.(devices := h.devices[d := o.(alive := false)], held := h1.held.(desktop := h.held.desktop + 1));
    }
    forall x: nat ensures DeviceInv(h1, x) {
      assert DeviceInv(h, x);
      LoseReference(h, d, h1, x);
    }
    SameOthers(h, h1);
    if o.refs <= 0 {
      DesktopReleaseKeeps(h1);
    }
  }

  lemma HeldIsOwned(h: Heap, d: Id)
    ensures Owners(h, d) >= h.held.devices[d]
  {
    hide InEnums, InSessions;
  }

  // ---- The desktop's list ----

  predicate InRange(ds: seq<Id>, h: Heap) {
    forall k :: 0 <= k < |ds| ==> ds[k] < |h.devices|
  }

  function DesktopAddRef(h: Heap): Heap {
    h.(desktop := h.desktop.(refs := h.desktop.refs + 1), held := h.held.(desktop := h.held.desktop + 1))
  }

  /** A device joins the list, which holds its first reference, and itself holds one to the desktop. */
  function NewDevice(h: Heap, path: Path): Heap {
    h.(desktop := h.desktop.(refs := h.desktop.refs + 1, list := h.desktop.list + [|h.devices|]),
       devices := h.devices + [DeviceObj(path, true, 1, true)])
  }

  function NewDevices(h: Heap, paths: seq<Path>): (r: Heap)
    ensures Descends(h, r) && r.enums == h.enums && r.sessions == h.sessions
    ensures r.desktop.alive == h.desktop.alive && r.wiring == h.wiring
    decreases |paths|
  {
    if paths == [] then h else NewDevices(NewDevice(h, paths[0]), paths[1..])
  }

  /** Each listener that is told of the device gets a reference of its own. */
  function AddRefs(h: Heap, d: Id, listeners: nat): (r: Heap)
    requires d < |h.devices|
    ensures |r.devices| == |h.devices| && Descends(h, r) && r.desktop == h.desktop && r.wiring == h.wiring
    ensures r.enums == h.enums && r.sessions == h.sessions
    decreases listeners
  {
    if listeners == 0 then h else AddRefs(DeviceAddRef(h, d), d, listeners - 1)
  }

  function Connect(h: Heap, path: Path, listeners: nat): Heap {
    AddRefs(NewDevice(h, path), |h.devices|, listeners)
  }

  function Listed(h: Heap, path: Path, i: nat): (r: nat)
    requires i <= |h.desktop.list| && InRange(h.desktop.list, h)
    ensures i <= r <= |h.desktop.list|
    ensures r < |h.desktop.list| ==> h.devices[h.desktop.list[r]].path == path
    ensures forall k :: i <= k < r ==> h.devices[h.desktop.list[k]].path != path
    decreases |h.desktop.list| - i
  {
    if i == |h.desktop.list| || h.devices[h.desktop.list[i]].path == path then i else Listed(h, path, i + 1)
  }

  /** The device at position i leaves the list; the list's reference is now in hand. */
  function Unlist(h: Heap, i: nat): (r: Heap)
    requires i < |h.desktop.list| && h.desktop.list[i] < |h.devices|
    ensures |r.devices| == |h.devices| && Descends(h, r)
    ensures r.desktop == h.desktop.(list := h.desktop.list[..i] + h.desktop.list[i + 1..])
  {
    var d := h.desktop.list[i];
    h.(desktop := h.desktop.(list := h.desktop.list[..i] + h.desktop.list[i + 1..]),
       devices := h.devices[d := h.devices[d].(connected := false)],
       held := h.held.(devices := h.held.devices + multiset{d}))
  }

  function Disconnect(h: Heap, path: Path, listeners: nat): Heap
    requires InRange(h.desktop.list, h)
  {
    var i := Listed(h, path, 0);
    if i == |h.desktop.list| then h
    else DeviceRelease(AddRefs(Unlist(h, i), h.desktop.list[i], listeners), h.desktop.list[i])
  }

  lemma ListIsInRange(h: Heap)
    requires Inv(h)
    ensures InRange(h.desktop.list, h)
  {
    hide DesktopInv, EnumInv, SessionInv, InEnums, InSessions;
    forall k | 0 <= k < |h.desktop.list| ensures h.desktop.list[k] < |h.devices| {
      assert DeviceInv(h, h.desktop.list[k]);
    }
  }

  lemma {:induction false} AliveAppend(devices: seq<DeviceObj>, o: DeviceObj)
    ensures Alive(devices + [o]) == Alive(devices) + Bit(o.alive)
  {
    if devices == [] {
      assert [o][1..] == [];
    } else {
      assert (devices + [o])[1..] == devices[1..] + [o];
      AliveAppend(devices[1..], o);
    }
  }

  lemma NewDeviceKeeps(h: Heap, path: Path)
    requires Inv(h) && h.desktop.alive
    ensures Inv(NewDevice(h, path)) && NewDevice(h, path).desktop.alive
  {
    hide InEnums, InSessions, Alive, EnumInv, SessionInv;
    var h1 := NewDevice(h, path);
    AliveAppend(h.devices, DeviceObj(path, true, 1, true));
    forall x: nat ensures DeviceInv(h1, x) {
      assert DeviceInv(h, x);
    }
    SameOthers(h, h1);
  }

  lemma {:induction false} AddRefsKeeps(h: Heap, d: Id, listeners: nat)
    requires Inv(h) && d < |h.devices| && h.devices[d].alive
    ensures Inv(AddRefs(h, d, listeners)) && AddRefs(h, d, listeners).held.devices[d] == h.held.devices[d] + listeners
    decreases listeners
  {
    hide Inv;
    if listeners > 0 {
      AddRefKeeps(h, d);
      AddRefsKeeps(DeviceAddRef(h, d), d, listeners - 1);
    }
  }

  lemma UnlistKeeps(h: Heap, i: nat)
    requires Inv(h) && i < |h.desktop.list|
    ensures var d := h.desktop.list[i];
            && d < |h.devices| && h.devices[d].alive && Inv(Unlist(h, i))
            && Unlist(h, i).held.devices[d] == h.held.devices[d] + 1
  {
    hide InEnums, InSessions, Alive, EnumInv, SessionInv;
    var d := h.desktop.list[i];
    assert DeviceInv(h, d);
    var h1 := Unlist(h, i);
    AliveUpdate(h.devices, d, h1.devices[d]);
    var l := h.desktop.list;
    assert l == l[..i] + [d] + l[i + 1..];
    forall x: nat ensures DeviceInv(h1, x) {
      assert DeviceInv(h, x);
    }
    SameOthers(h, h1);
  }

  lemma DisconnectKeeps(h: Heap, path: Path, listeners: nat)
    requires Inv(h)
    ensures InRange(h.desktop.list, h) && Inv(Disconnect(h, path, listeners))
  {
    hide Inv, AddRefs, DeviceRelease;
    ListIsInRange(h);
    var i := Listed(h, path, 0);
    if i < |h.desktop.list| {
      var d := h.desktop.list[i];
      UnlistKeeps(h, i);
      AddRefsKeeps(Unlist(h, i), d, listeners);
      ReleaseKeeps(AddRefs(Unlist(h, i), d, listeners), d);
    }
  }

  // ---- Enumerators ----

  function AddRefAll(h: Heap, ds: seq<Id>): (r: Heap)
    requires InRange(ds, h)
    ensures |r.devices| == |h.devices| && Descends(h, r) && r.enums == h.enums && r.sessions == h.sessions
    ensures r.desktop == h.desktop && r.wiring == h.wiring
    decreases |ds|
  {
    if ds == [] then h else AddRefAll(DeviceAddRef(h, ds[0]), ds[1..])
  }

  function ReleaseAll(h: Heap, ds: seq<Id>): (r: Heap)
    requires InRange(ds, h)
    ensures Descends(h, r) && r.enums == h.enums && r.sessions == h.sessions
    decreases |ds|
  {
    if ds == [] then h else ReleaseAll(DeviceRelease(h, ds[0]), ds[1..])
  }

  /** A new enumerator takes over references in hand, and starts at the first device. */
  function NewEnum(h: Heap, ds: seq<Id>): Heap {
    h.(enums := h.enums + [EnumObj(ds, 0, 1)],
       held := h.held.(devices := h.held.devices - multiset(ds), enums := h.held.enums + multiset{|h.enums|}))
  }

  function EnumDevices(h: Heap): Heap
    requires InRange(h.desktop.list, h)
  {
    NewEnum(AddRefAll(h, h.desktop.list), h.desktop.list)
  }

  function Clone(h: Heap, e: Id): Heap
    requires e < |h.enums| && InRange(h.enums[e].devices, h)
  {
    NewEnum(AddRefAll(h, h.enums[e].devices), h.enums[e].devices)
  }

  function EnumAddRef(h: Heap, e: Id): Heap
    requires e < |h.enums|
  {
    h.(enums := h.enums[e := h.enums[e].(refs := h.enums[e].refs + 1)],
       held := h.held.(enums := h.held.enums + multiset{e}))
  }

  function EnumRelease(h: Heap, e: Id): Heap
    requires e < |h.enums| && InRange(h.enums[e].devices, h)
  {
    var o := h.enums[e].(refs := h.enums[e].refs - 1);
    var h1 := h.(held := h.held.(enums := h.held.enums - multiset{e}));
    if o.refs > 0 then h1.(enums := h.enums[e := o])
    else ReleaseAll(h1.(enums := h.enums[e := EnumObj([], 0, 0)],
                        held := h1.held.(devices := h.held.devices + multiset(o.devices))), o.devices)
  }

  lemma {:induction false} InEnumsUpdate(enums: seq<EnumObj>, e: Id, o: EnumObj, d: Id)
    requires e < |enums|
    ensures InEnums(enums[e := o], d) == InEnums(enums, d) - multiset(enums[e].devices)[d] + multiset(o.devices)[d]
  {
    if e > 0 {
      assert enums[e := o][1..] == enums[1..][e - 1 := o];
      InEnumsUpdate(enums[1..], e - 1, o, d);
    } else {
      assert enums[e := o][1..] == enums[1..];
    }
  }

  lemma {:induction false} InEnumsAppend(enums: seq<EnumObj>, o: EnumObj, d: Id)
    ensures InEnums(enums + [o], d) == InEnums(enums, d) + multiset(o.devices)[d]
  {
    if enums == [] {
      assert [o][1..] == [];
    } else {
      assert (enums + [o])[1..] == enums[1..] + [o];
      InEnumsAppend(enums[1..], o, d);
    }
  }

  predicate AllAlive(ds: seq<Id>, h: Heap) {
    forall k :: 0 <= k < |ds| ==> ds[k] < |h.devices| && h.devices[ds[k]].alive
  }

  /** A device an enumerator lists is alive: so what Next hands out without a new reference is valid. */
  lemma EnumHoldsDevices(h: Heap, e: Id)
    requires Inv(h) && e < |h.enums|
    ensures AllAlive(h.enums[e].devices, h)
  {
    hide DesktopInv, SessionInv, EnumInv, InSessions;
    var ds := h.enums[e].devices;
    forall k | 0 <= k < |ds| ensures ds[k] < |h.devices| && h.devices[ds[k]].alive {
      assert DeviceInv(h, ds[k]);
      InEnumsUpdate(h.enums, e, EnumObj([], 0, 0), ds[k]);
    }
  }

  lemma {:induction false} AddRefAllKeeps(h: Heap, ds: seq<Id>)
    requires Inv(h) && AllAlive(ds, h)
    ensures var h1 := AddRefAll(h, ds);
            && Inv(h1) && h1.enums == h.enums && h1.held == h.held.(devices := h.held.devices + multiset(ds))
    decreases |ds|
  {
    hide Inv;
    if ds == [] {
    } else {
      assert ds == [ds[0]] + ds[1..];
      AddRefKeeps(h, ds[0]);
      AddRefAllKeeps(DeviceAddRef(h, ds[0]), ds[1..]);
    }
  }

  lemma {:induction false} ReleaseAllKeeps(h: Heap, ds: seq<Id>)
    requires Inv(h) && multiset(ds) <= h.held.devices
    ensures InRange(ds, h) && Inv(ReleaseAll(h, ds))
    decreases |ds|
  {
    hide Inv, DesktopRelease;
    if ds != [] {
      assert ds == [ds[0]] + ds[1..];
      ReleaseKeeps(h, ds[0]);
      ReleaseAllKeeps(DeviceRelease(h, ds[0]), ds[1..]);
    }
  }

  lemma SameSessions(h: Heap, h1: Heap)
    requires Inv(h) && h1.sessions == h.sessions && h1.held.sessions == h.held.sessions
    ensures forall s: nat :: SessionInv(h1, s)
  {
    hide DeviceInv, DesktopInv, EnumInv;
    forall s: nat ensures SessionInv(h1, s) {
      assert SessionInv(h, s);
    }
  }

  lemma NewEnumOwners(h: Heap, ds: seq<Id>, d: Id)
    requires multiset(ds) <= h.held.devices
    ensures Owners(NewEnum(h, ds), d) == Owners(h, d)
  {
    hide InEnums, InSessions;
    InEnumsAppend(h.enums, EnumObj(ds, 0, 1), d);
  }

  lemma NewEnumKeeps(h: Heap, ds: seq<Id>)
    requires Inv(h) && multiset(ds) <= h.held.devices
    ensures Inv(NewEnum(h, ds))
  {
    hide Owners, Alive, SessionInv;
    var h1 := NewEnum(h, ds);
    forall x: nat ensures DeviceInv(h1, x) {
      assert DeviceInv(h, x);
      NewEnumOwners(h, ds, x);
    }
    forall e: nat ensures EnumInv(h1, e) {
      assert EnumInv(h, e);
    }
    SameSessions(h, h1);
  }

  lemma EnumDevicesKeeps(h: Heap)
    requires Inv(h)
    ensures InRange(h.desktop.list, h) && Inv(EnumDevices(h))
  {
    hide Inv, AddRefAll, NewEnum;
    ListIsInRange(h);
    ListIsAlive(h);
    AddRefAllKeeps(h, h.desktop.list);
    NewEnumKeeps(AddRefAll(h, h.desktop.list), h.desktop.list);
  }

  lemma ListIsAlive(h: Heap)
    requires Inv(h)
    ensures AllAlive(h.desktop.list, h)
  {
    hide DesktopInv, EnumInv, SessionInv, InEnums, InSessions;
    forall k | 0 <= k < |h.desktop.list| ensures h.desktop.list[k] < |h.devices| && h.devices[h.desktop.list[k]].alive {
      assert DeviceInv(h, h.desktop.list[k]);
    }
  }

  lemma CloneKeeps(h: Heap, e: Id)
    requires Inv(h) && e < |h.enums|
    ensures InRange(h.enums[e].devices, h) && Inv(Clone(h, e))
  {
    hide Inv, AddRefAll, NewEnum;
    EnumHoldsDevices(h, e);
    AddRefAllKeeps(h, h.enums[e].devices);
    NewEnumKeeps(AddRefAll(h, h.enums[e].devices), h.enums[e].devices);
  }

  /** A change to one enumerator that moves references between it and the program. */
  lemma EnumSetKeeps(h: Heap, e: Id, o: EnumObj, held: Held)
    requires Inv(h) && e < |h.enums| && o.current <= |o.devices| && (o.refs == 0 ==> o.devices == [])
    requires o.refs >= 0 && held.enums == h.held.enums[e := o.refs]
    requires held.devices + multiset(o.devices) == h.held.devices + multiset(h.enums[e].devices)
    requires held.desktop == h.held.desktop && held.sessions == h.held.sessions
    ensures Inv(h.(enums := h.enums[e := o], held := held))
  {
    hide InEnums, InSessions, Alive, SessionInv;
    var h1 := h.(enums := h.enums[e := o], held := held);
    forall x: nat ensures DeviceInv(h1, x) {
      assert DeviceInv(h, x);
      InEnumsUpdate(h.enums, e, o, x);
      assert (held.devices + multiset(o.devices))[x] == (h.held.devices + multiset(h.enums[e].devices))[x];
    }
    forall x: nat ensures EnumInv(h1, x) {
      assert EnumInv(h, x);
    }
    SameSessions(h, h1);
  }

  lemma EnumAddRefKeeps(h: Heap, e: Id)
    requires Inv(h) && e < |h.enums| && h.enums[e].refs > 0
    ensures Inv(EnumAddRef(h, e))
  {
    hide DeviceInv, DesktopInv, SessionInv;
    assert EnumInv(h, e);
    EnumSetKeeps(h, e, h.enums[e].(refs := h.enums[e].refs + 1), EnumAddRef(h, e).held);
  }

  lemma EnumReleaseKeeps(h: Heap, e: Id)
    requires Inv(h) && h.held.enums[e] > 0
    ensures e < |h.enums| && InRange(h.enums[e].devices, h) && Inv(EnumRelease(h, e))
  {
    hide DeviceInv, DesktopInv, SessionInv, ReleaseAll;
    assert EnumInv(h, e);
    EnumHoldsDevices(h, e);
    var o := h.enums[e].(refs := h.enums[e].refs - 1);
    var held := h.held.(enums := h.held.enums - multiset{e});
    if o.refs > 0 {
      EnumSetKeeps(h, e, o, held);
    } else {
      var held1 := held.(devices := h.held.devices + multiset(o.devices));
      EnumSetKeeps(h, e, EnumObj([], 0, 0), held1);
      ReleaseAllKeeps(h.(enums := h.enums[e := EnumObj([], 0, 0)], held := held1), o.devices);
    }
  }

  /** What Next hands out, without a reference of its own. */
  function AtCursor(h: Heap, e: Id): Option<Id>
    requires e < |h.enums|
  {
    var o := h.enums[e];
    if o.current < |o.devices| then Some(o.devices[o.current]) else None
  }

  /** The cursor: the next device, if there is one. */
  function Next(h: Heap, e: Id): Heap
    requires e < |h.enums|
  {
    var o := h.enums[e];
    if o.current < |o.devices| then h.(enums := h.enums[e := o.(current := o.current + 1)]) else h
  }

  function Skip(h: Heap, e: Id, n: nat): Heap
    requires e < |h.enums|
  {
    var o := h.enums[e];
    h.(enums := h.enums[e := o.(current := if o.current + n <= |o.devices| then o.current + n else |o.devices|)])
  }

  function Reset(h: Heap, e: Id): Heap
    requires e < |h.enums|
  {
    h.(enums := h.enums[e := h.enums[e].(current := 0)])
  }

  lemma CursorKeeps(h: Heap, e: Id, c: nat)
    requires Inv(h) && e < |h.enums| && c <= |h.enums[e].devices|
    ensures Inv(h.(enums := h.enums[e := h.enums[e].(current := c)]))
  {
    hide DeviceInv, DesktopInv, SessionInv;
    assert EnumInv(h, e);
    assert h.held.enums[e := h.enums[e].refs] == h.held.enums;
    EnumSetKeeps(h, e, h.enums[e].(current := c), h.held);
  }

  // ---- Sessions ----

  function CreateSession(h: Heap, d: Id): Heap
    requires d < |h.devices|
  {
    var h1 := DeviceAddRef(h, d);
    h1.(sessions := h.sessions + [SessionObj(d, 1)],
        held := h1.held.(devices := h1.held.devices - multiset{d},
                         sessions := h.held.sessions + multiset{|h.sessions|}))
  }

  function SessionAddRef(h: Heap, s: Id): Heap
    requires s < |h.sessions|
  {
    h.(sessions := h.sessions[s := h.sessions[s].(refs := h.sessions[s].refs + 1)],
       held := h.held.(sessions := h.held.sessions + multiset{s}))
  }

  function SessionRelease(h: Heap, s: Id): Heap
    requires s < |h.sessions| && h.sessions[s].device < |h.devices|
  {
    var o := h.sessions[s].(refs := h.sessions[s].refs - 1);
    var h1 := h.(sessions := h.sessions[s := o], held := h.held.(sessions := h.held.sessions - multiset{s}));
    if o.refs > 0 then h1
    else DeviceRelease(h1.(held := h1.held.(devices := h.held.devices + multiset{o.device})), o.device)
  }

  lemma {:induction false} InSessionsUpdate(sessions: seq<SessionObj>, s: Id, o: SessionObj, d: Id)
    requires s < |sessions|
    ensures InSessions(sessions[s := o], d)
         == InSessions(sessions, d) - Bit(sessions[s].refs > 0 && sessions[s].device == d)
          + Bit(o.refs > 0 && o.device == d)
  {
    if s > 0 {
      assert sessions[s := o][1..] == sessions[1..][s - 1 := o];
      InSessionsUpdate(sessions[1..], s - 1, o, d);
    } else {
      assert sessions[s := o][1..] == sessions[1..];
    }
  }

  lemma {:induction false} InSessionsAppend(sessions: seq<SessionObj>, o: SessionObj, d: Id)
    ensures InSessions(sessions + [o], d) == InSessions(sessions, d) + Bit(o.refs > 0 && o.device == d)
  {
    if sessions == [] {
      assert [o][1..] == [];
    } else {
      assert (sessions + [o])[1..] == sessions[1..] + [o];
      InSessionsAppend(sessions[1..], o, d);
    }
  }

  lemma SessionHoldsDevice(h: Heap, s: Id)
    requires Inv(h) && s < |h.sessions| && h.sessions[s].refs > 0
    ensures h.sessions[s].device < |h.devices| && h.devices[h.sessions[s].device].alive
  {
    hide DesktopInv, EnumInv, InEnums;
    var d := h.sessions[s].device;
    assert DeviceInv(h, d);
    InSessionsUpdate(h.sessions, s, SessionObj(d, 0), d);
  }

  lemma SameEnums(h: Heap, h1: Heap)
    requires Inv(h) && h1.enums == h.enums && h1.held.enums == h.held.enums
    ensures forall e: nat :: EnumInv(h1, e)
  {
    hide DeviceInv, DesktopInv, SessionInv;
    forall e: nat ensures EnumInv(h1, e) {
      assert EnumInv(h, e);
    }
  }

  lemma CreateSessionKeeps(h: Heap, d: Id)
    requires Inv(h) && d < |h.devices| && h.devices[d].alive
    ensures Inv(CreateSession(h, d))
  {
    hide InEnums, InSessions, Alive, EnumInv;
    AddRefKeeps(h, d);
    var h0, h1 := DeviceAddRef(h, d), CreateSession(h, d);
    forall x: nat ensures DeviceInv(h1, x) {
      assert DeviceInv(h0, x);
      InSessionsAppend(h.sessions, SessionObj(d, 1), x);
    }
    forall s: nat ensures SessionInv(h1, s) {
      assert SessionInv(h, s);
    }
    SameEnums(h0, h1);
  }

  /** A change to one session that moves its reference between it and the program. */
  lemma SessionSetKeeps(h: Heap, s: Id, o: SessionObj, held: Held)
    requires Inv(h) && s < |h.sessions| && o.device == h.sessions[s].device && o.refs >= 0
    requires held.sessions == h.held.sessions[s := o.refs]
    requires forall d :: held.devices[d] + Bit(o.refs > 0 && o.device == d)
                      == h.held.devices[d] + Bit(h.sessions[s].refs > 0 && o.device == d)
    requires held.desktop == h.held.desktop && held.enums == h.held.enums
    ensures Inv(h.(sessions := h.sessions[s := o], held := held))
  {
    hide InEnums, InSessions, Alive, EnumInv;
    var h1 := h.(sessions := h.sessions[s := o], held := held);
    forall x: nat ensures DeviceInv(h1, x) {
      assert DeviceInv(h, x);
      InSessionsUpdate(h.sessions, s, o, x);
    }
    forall x: nat ensures SessionInv(h1, x) {
      assert SessionInv(h, x);
    }
    SameEnums(h, h1);
  }

  lemma SessionAddRefKeeps(h: Heap, s: Id)
    requires Inv(h) && s < |h.sessions| && h.sessions[s].refs > 0
    ensures Inv(SessionAddRef(h, s))
  {
    hide DeviceInv, DesktopInv, EnumInv;
    assert SessionInv(h, s);
    SessionSetKeeps(h, s, h.sessions[s].(refs := h.sessions[s].refs + 1), SessionAddRef(h, s).held);
  }

  lemma SessionReleaseKeeps(h: Heap, s: Id)
    requires Inv(h) && h.held.sessions[s] > 0
    ensures s < |h.sessions| && h.sessions[s].device < |h.devices| && Inv(SessionRelease(h, s))
  {
    hide DeviceInv, DesktopInv, EnumInv, DeviceRelease;
    assert SessionInv(h, s);
    SessionHoldsDevice(h, s);
    var o := h.sessions[s].(refs := h.sessions[s].refs - 1);
    var held := h.held.(sessions := h.held.sessions - multiset{s});
    if o.refs > 0 {
      SessionSetKeeps(h, s, o, held);
    } else {
      var held1 := held.(devices := h.held.devices + multiset{o.device});
      SessionSetKeeps(h, s, o, held1);
      ReleaseKeeps(h.(sessions := h.sessions[s := o], held := held1), o.device);
    }
  }

  // ---- Getting the desktop, and losing the daemon ----

  /** How connecting to the daemon goes: no proxy can be had, or one, and the devices its snapshot names. */
  datatype Link = NoProxy | Proxy(paths: seq<Path>)

  /** What the bus says of the daemon's name: the call fails, or it has no owner, or one that can be connected to. */
  datatype Answer = NoAnswer | NoOwner | Owner(link: Link)

  /** The field is overwritten whatever it holds: a proxy already there keeps its handler. */
  function UdevConnect(h: Heap, link: Link): (r: Heap)
    ensures Descends(h, r) && r.enums == h.enums && r.sessions == h.sessions && r.desktop.alive == h.desktop.alive
    ensures r.wiring == h.wiring.(proxy := link.Proxy?, leaked := h.wiring.leaked + Bit(h.wiring.proxy))
  {
    var h1 := h.(wiring := h.wiring.(proxy := link.Proxy?, leaked := h.wiring.leaked + Bit(h.wiring.proxy)));
    match link
    case NoProxy => h1
    case Proxy(paths) => NewDevices(h1, paths)
  }

  /** The desktop, made if there is none and connected if the daemon has an owner.  When the bus does not answer it
      is not freed, and goes on listening for the daemon's name. */
  function Get(h: Heap, answer: Answer): Heap {
    if h.desktop.alive then DesktopAddRef(h)
    else if answer.NoAnswer? then h.(wiring := h.wiring.(orphans := h.wiring.orphans + [Orphan([], 0, false, 0)]))
    else
      var h1 := h.(desktop := Desktop(1, true, []), held := h.held.(desktop := h.held.desktop + 1));
      if answer.NoOwner? then h1 else UdevConnect(h1, answer.link)
  }

  lemma {:induction false} NewDevicesKeeps(h: Heap, paths: seq<Path>)
    requires Inv(h) && h.desktop.alive
    ensures Inv(NewDevices(h, paths)) && NewDevices(h, paths).desktop.alive
    decreases |paths|
  {
    hide Inv, NewDevice;
    if paths == [] {
    } else {
      NewDeviceKeeps(h, paths[0]);
      NewDevicesKeeps(NewDevice(h, paths[0]), paths[1..]);
    }
  }

  lemma DesktopAddRefKeeps(h: Heap)
    requires Inv(h) && h.desktop.alive
    ensures Inv(DesktopAddRef(h))
  {
    hide InEnums, InSessions, Alive, EnumInv, SessionInv;
    var h1 := DesktopAddRef(h);
    forall x: nat ensures DeviceInv(h1, x) {
      assert DeviceInv(h, x);
    }
    SameOthers(h, h1);
  }

  lemma RewireKeeps(h: Heap, w: Wiring)
    requires Inv(h) && OrphansInv(w.orphans) && (h.desktop.alive || (!w.proxy && w.leaked == 0))
    ensures Inv(h.(wiring := w))
  {
    hide InEnums, InSessions, Alive, EnumInv, SessionInv;
    var h1 := h.(wiring := w);
    forall x: nat ensures DeviceInv(h1, x) {
      assert DeviceInv(h, x);
    }
    SameOthers(h, h1);
  }

  lemma OrphansOf(h: Heap)
    requires Inv(h)
    ensures OrphansInv(h.wiring.orphans)
    ensures !h.desktop.alive ==> !h.wiring.proxy && h.wiring.leaked == 0
    ensures h.desktop.alive <==> h.desktop.refs > 0
  {
    hide DeviceInv, EnumInv, SessionInv;
  }

  lemma UdevConnectKeeps(h: Heap, link: Link)
    requires Inv(h) && h.desktop.alive
    ensures Inv(UdevConnect(h, link)) && UdevConnect(h, link).desktop.alive
  {
    hide Inv, NewDevices;
    var w := h.wiring.(proxy := link.Proxy?, leaked := h.wiring.leaked + Bit(h.wiring.proxy));
    OrphansOf(h);
    RewireKeeps(h, w);
    if link.Proxy? {
      NewDevicesKeeps(h.(wiring := w), link.paths);
    }
  }

  lemma MadeKeeps(h: Heap)
    requires Inv(h) && !h.desktop.alive
    ensures Inv(h.(desktop := Desktop(1, true, []), held := h.held.(desktop := h.held.desktop + 1)))
  {
    hide InEnums, InSessions, Alive, EnumInv, SessionInv;
    var h1 := h.(desktop := Desktop(1, true, []), held := h.held.(desktop := h.held.desktop + 1));
    if h.desktop.list != [] {
      ListIsAlive(h);
      AliveSome(h.devices, h.desktop.list[0]);
    }
    forall x: nat ensures DeviceInv(h1, x) {
      assert DeviceInv(h, x);
    }
    SameOthers(h, h1);
  }

  lemma GetKeeps(h: Heap, answer: Answer)
    requires Inv(h)
    ensures Inv(Get(h, answer))
  {
    hide Inv, UdevConnect;
    if h.desktop.alive {
      DesktopAddRefKeeps(h);
    } else if answer.NoAnswer? {
      OrphansOf(h);
      RewireKeeps(h, h.wiring.(orphans := h.wiring.orphans + [Orphan([], 0, false, 0)]));
    } else {
      MadeKeeps(h);
      if answer.Owner? {
        var h1 := h.(desktop := Desktop(1, true, []), held := h.held.(desktop := h.held.desktop + 1));
        UdevConnectKeeps(h1, answer.link);
      }
    }
  }

  function Dropped(h: Heap, i: nat): Heap
    requires i < |h.desktop.list| && InRange(h.desktop.list, h)
  {
    DeviceRelease(Unlist(h, i), h.desktop.list[i])
  }

  /** From position i on: every dccm device leaves the list.  Its list is used again after each release. */
  function Offline(h: Heap, i: nat): Heap
    requires i <= |h.desktop.list| && InRange(h.desktop.list, h)
    decreases |h.desktop.list| - i
  {
    if i == |h.desktop.list| then h
    else if DCCM_PREFIX <= h.devices[h.desktop.list[i]].path then
      var h1 := Dropped(h, i);
      if !h1.desktop.alive then h1.(fault := true) else Offline(h1, i)
    else Offline(h, i + 1)
  }

  /** The daemon is lost: the handler of the desktop's own proxy goes, then its devices. */
  function UdevDisconnect(h: Heap): Heap
    requires InRange(h.desktop.list, h)
  {
    Offline(h.(wiring := h.wiring.(proxy := false)), 0)
  }

  lemma {:induction false} OfflineKeeps(h: Heap, i: nat)
    requires Inv(h) && i <= |h.desktop.list| && InRange(h.desktop.list, h)
    ensures Inv(Offline(h, i))
    decreases |h.desktop.list| - i
  {
    hide Inv, DeviceRelease;
    if i < |h.desktop.list| {
      if DCCM_PREFIX <= h.devices[h.desktop.list[i]].path {
        UnlistKeeps(h, i);
        ReleaseKeeps(Unlist(h, i), h.desktop.list[i]);
        var h1 := DeviceRelease(Unlist(h, i), h.desktop.list[i]);
        if h1.desktop.alive {
          OfflineKeeps(h1, i);
        } else {
          FaultKeeps(h1);
        }
      } else {
        OfflineKeeps(h, i + 1);
      }
    }
  }

  lemma FaultKeeps(h: Heap)
    requires Inv(h)
    ensures Inv(h.(fault := true))
  {
    hide InEnums, InSessions, Alive, EnumInv, SessionInv;
    var h1 := h.(fault := true);
    forall x: nat ensures DeviceInv(h1, x) {
      assert DeviceInv(h, x);
    }
    SameOthers(h, h1);
  }

  /** Nothing refers to the desktop but dccm devices still to be unlisted that only the list refers to. */
  ghost predicate OnlyListed(h: Heap, i: nat)
    requires i <= |h.desktop.list|
  {
    && h.held.desktop == 0
    && forall d :: 0 <= d < |h.devices| && h.devices[d].alive ==>
         d in h.desktop.list[i..] && DCCM_PREFIX <= h.devices[d].path && h.devices[d].refs == 1
  }

  lemma {:induction false} SomeAlive(devices: seq<DeviceObj>) returns (d: Id)
    requires Alive(devices) > 0
    ensures d < |devices| && devices[d].alive
  {
    if devices[0].alive {
      d := 0;
    } else {
      d := SomeAlive(devices[1..]);
      d := d + 1;
    }
  }

  lemma DesktopAliveIff(h: Heap)
    requires Inv(h)
    ensures h.desktop.alive <==> h.held.desktop > 0 || exists d :: 0 <= d < |h.devices| && h.devices[d].alive
  {
    hide DeviceInv, EnumInv, SessionInv, Alive;
    if Alive(h.devices) > 0 {
      var d := SomeAlive(h.devices);
    }
    if d :| 0 <= d < |h.devices| && h.devices[d].alive {
      AliveSome(h.devices, d);
    }
  }

  lemma ReleaseEffect(h: Heap, d: Id)
    requires d < |h.devices| && h.devices[d].alive
    ensures var o, h1 := h.devices[d], DeviceRelease(h, d);
            && h1.devices == h.devices[d := o.(refs := o.refs - 1, alive := o.alive && o.refs > 1)]
            && h1.held.desktop == h.held.desktop
            && h1.fault == h.fault
  {
  }

  lemma ListedOnce(h: Heap, i: nat)
    requires Inv(h) && i < |h.desktop.list|
    ensures h.desktop.list[i] !in h.desktop.list[i + 1..]
  {
    hide DesktopInv, EnumInv, SessionInv, InEnums, InSessions;
    var l, d := h.desktop.list, h.desktop.list[i];
    assert DeviceInv(h, d);
    assert l == l[..i] + [d] + l[i + 1..];
    if d in l[i + 1..] {
      assert false;
    }
  }

  /** One device taken off the list and released. */
  lemma DroppedShape(h: Heap, i: nat)
    requires Inv(h) && i < |h.desktop.list| && InRange(h.desktop.list, h)
    ensures var d, h1 := h.desktop.list[i], Dropped(h, i);
            var o := h.devices[d];
            && Inv(h1) && h1.held.desktop == h.held.desktop && Descends(h, h1)
            && h1.devices == h.devices[d := o.(connected := false, refs := o.refs - 1, alive := o.refs > 1)]
            && (h1.desktop.alive ==> h1.desktop.list == h.desktop.list[..i] + h.desktop.list[i + 1..])
  {
    hide DesktopInv, DeviceInv, EnumInv, SessionInv, DeviceRelease;
    UnlistKeeps(h, i);
    ReleaseEffect(Unlist(h, i), h.desktop.list[i]);
    ReleaseKeeps(Unlist(h, i), h.desktop.list[i]);
  }

  lemma DroppedCounts(h: Heap, i: nat)
    requires Inv(h) && i < |h.desktop.list| && InRange(h.desktop.list, h)
    requires DCCM_PREFIX <= h.devices[h.desktop.list[i]].path
    ensures var h1 := Dropped(h, i);
            if h1.desktop.alive then OnlyListed(h1, i) <==> OnlyListed(h, i) else OnlyListed(h, i)
  {
    hide DesktopInv, DeviceInv, EnumInv, SessionInv, Dropped;
    var l, d, h1 := h.desktop.list, h.desktop.list[i], Dropped(h, i);
    DroppedShape(h, i);
    DesktopAliveIff(h1);
    ListedOnce(h, i);
    ListIsAlive(h);
    AliveCounts(h, d);
    assert l[i..] == [d] + l[i + 1..];
    assert forall x :: 0 <= x < |h.devices| && x != d ==> h1.devices[x] == h.devices[x];
    if h1.desktop.alive {
      assert h1.desktop.list[i..] == l[i + 1..];
    } else {
      assert !h1.devices[d].alive;
    }
  }

  lemma AliveCounts(h: Heap, d: Id)
    requires Inv(h) && d < |h.devices|
    ensures h.devices[d].alive <==> h.devices[d].refs > 0
  {
    hide DesktopInv, EnumInv, SessionInv, Owners;
    assert DeviceInv(h, d);
  }

  /** Losing the daemon makes the library use its desktop after freeing it exactly when the program holds no
      reference to the desktop and nothing else keeps any device. */
  lemma {:induction false} OfflineFaultIff(h: Heap, i: nat)
    requires Inv(h) && !h.fault && h.desktop.alive && i <= |h.desktop.list| && InRange(h.desktop.list, h)
    ensures Offline(h, i).fault <==> OnlyListed(h, i)
    decreases |h.desktop.list| - i
  {
    hide Inv, DeviceRelease, Unlist;
    if i == |h.desktop.list| {
      DesktopAliveIff(h);
    } else if DCCM_PREFIX <= h.devices[h.desktop.list[i]].path {
      DroppedShape(h, i);
      DroppedCounts(h, i);
      if Dropped(h, i).desktop.alive {
        OfflineFaultIff(Dropped(h, i), i);
      }
    } else {
      ListIsAlive(h);
      OfflineFaultIff(h, i + 1);
    }
  }

  // ---- Orphans ----

  function SetOrphan(h: Heap, o: Id, a: Orphan): Heap
    requires o < |h.wiring.orphans|
  {
    h.(wiring := h.wiring.(orphans := h.wiring.orphans[o := a]))
  }

  function OrphanConnect(h: Heap, o: Id, link: Link): Heap
    requires o < |h.wiring.orphans|
  {
    var a := h.wiring.orphans[o];
    var a1 := a.(proxy := link.Proxy?, leaked := a.leaked + Bit(a.proxy));
    SetOrphan(h, o, match link
                    case NoProxy => a1
                    case Proxy(paths) => a1.(list := a.list + paths, refs := a.refs + |paths|))
  }

  function OrphanAdd(h: Heap, o: Id, path: Path): Heap
    requires o < |h.wiring.orphans|
  {
    var a := h.wiring.orphans[o];
    SetOrphan(h, o, a.(list := a.list + [path], refs := a.refs + 1))
  }

  /** The device at position i leaves the orphan's list, which frees it.  When the orphan's last reference goes it is
      not the orphan that is freed, but the desktop of the program, which need not exist. */
  function OrphanDrop(h: Heap, o: Id, i: nat): (r: Heap)
    requires o < |h.wiring.orphans| && i < |h.wiring.orphans[o].list|
    ensures |r.wiring.orphans| == |h.wiring.orphans|
    ensures r.wiring.orphans[o].list == h.wiring.orphans[o].list[..i] + h.wiring.orphans[o].list[i + 1..]
  {
    var a := h.wiring.orphans[o];
    var h1 := SetOrphan(h, o, a.(list := a.list[..i] + a.list[i + 1..], refs := a.refs - 1));
    if a.refs > 1 then h1 else if !h.desktop.alive then Broken(h1) else Uninit(h1)
  }

  function Position(list: seq<Path>, path: Path): (i: nat)
    ensures i <= |list| && (i < |list| ==> list[i] == path) && path !in list[..i]
  {
    if list == [] || list[0] == path then 0 else 1 + Position(list[1..], path)
  }

  function OrphanDisconnect(h: Heap, o: Id, path: Path): Heap
    requires o < |h.wiring.orphans|
  {
    var i := Position(h.wiring.orphans[o].list, path);
    if i == |h.wiring.orphans[o].list| then h else OrphanDrop(h, o, i)
  }

  /** The walk over an orphan's list when the daemon is lost, from position i. */
  function OrphanWalk(h: Heap, o: Id, i: nat): Heap
    requires o < |h.wiring.orphans| && i <= |h.wiring.orphans[o].list|
    decreases |h.wiring.orphans[o].list| - i
  {
    var a := h.wiring.orphans[o];
    if i == |a.list| then h
    else if DCCM_PREFIX <= a.list[i] then
      var h1 := OrphanDrop(h, o, i);
      if h1.fault then h1 else OrphanWalk(h1, o, i)
    else OrphanWalk(h, o, i + 1)
  }

  function OrphanLoss(h: Heap, o: Id): Heap
    requires o < |h.wiring.orphans|
  {
    OrphanWalk(SetOrphan(h, o, h.wiring.orphans[o].(proxy := false)), o, 0)
  }

  /** The step concerns nothing but the orphans, and perhaps ends in a fault. */
  predicate OrphansOnly(h: Heap, r: Heap) {
    && r == h.(fault := r.fault, wiring := h.wiring.(orphans := r.wiring.orphans))
    && |r.wiring.orphans| == |h.wiring.orphans| && (h.fault ==> r.fault)
  }

  lemma OrphansKeep(h: Heap, r: Heap)
    requires Inv(h) && OrphansOnly(h, r) && OrphansInv(r.wiring.orphans)
    ensures Inv(r)
  {
    hide Inv;
    OrphansOf(h);
    var h1 := h.(wiring := r.wiring);
    RewireKeeps(h, r.wiring);
    if r.fault {
      FaultKeeps(h1);
    }
  }

  /** An orphan's last reference never goes without a fault: the desktop then freed does not exist, or has owners. */
  lemma OrphanDropIff(h: Heap, o: Id, i: nat)
    requires Inv(h) && o < |h.wiring.orphans| && i < |h.wiring.orphans[o].list|
    ensures var r := OrphanDrop(h, o, i);
            && OrphansOnly(h, r) && OrphansInv(r.wiring.orphans)
            && (r.fault <==> h.fault || |h.wiring.orphans[o].list| == 1)
  {
    hide Inv;
    OrphansOf(h);
  }

  predicate AllDccm(list: seq<Path>) {
    forall k :: 0 <= k < |list| ==> DCCM_PREFIX <= list[k]
  }

  lemma AllDccmBut(list: seq<Path>, i: nat)
    requires i < |list| && DCCM_PREFIX <= list[i]
    ensures AllDccm(list) <==> AllDccm(list[..i] + list[i + 1..])
  {
    var rest := list[..i] + list[i + 1..];
    if AllDccm(rest) {
      forall k | 0 <= k < |list| ensures DCCM_PREFIX <= list[k] {
        if k != i {
          assert list[k] == rest[if k < i then k else k - 1];
        }
      }
    }
  }

  /** Losing the daemon is a fault exactly if all an orphan lists, and it lists some, is the daemon's. */
  lemma {:induction false} OrphanWalkIff(h: Heap, o: Id, i: nat)
    requires Inv(h) && !h.fault && o < |h.wiring.orphans| && i <= |h.wiring.orphans[o].list|
    requires forall k :: 0 <= k < i ==> !(DCCM_PREFIX <= h.wiring.orphans[o].list[k])
    ensures var r, list := OrphanWalk(h, o, i), h.wiring.orphans[o].list;
            OrphansOnly(h, r) && OrphansInv(r.wiring.orphans) && (r.fault <==> list != [] && AllDccm(list))
    decreases |h.wiring.orphans[o].list| - i
  {
    hide Inv, OrphanDrop;
    var list := h.wiring.orphans[o].list;
    OrphansOf(h);
    if i < |list| && DCCM_PREFIX <= list[i] {
      var h1 := OrphanDrop(h, o, i);
      OrphanDropIff(h, o, i);
      OrphansKeep(h, h1);
      AllDccmBut(list, i);
      if !h1.fault {
        hide AllDccm;
        OrphanWalkIff(h1, o, i);
      }
    } else if i < |list| {
      OrphanWalkIff(h, o, i + 1);
    } else if list != [] {
      assert !(DCCM_PREFIX <= list[0]);
    }
  }
}
