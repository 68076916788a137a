/** Whole runs of the RAPI object layer: reference counts, no use of what was freed, nothing freed twice. */
module RapiRuns {
  import opened RapiObjects
  import M = DeviceSignals
  import D = DeviceManager
  import opened Basics
  import opened Wrappers

  /** Whose handler a signal runs: the desktop's, one left over from a desktop already freed, or an orphan's. */
  datatype Handler = Own | Left | Of(orphan: Id)

  /** A signal of the daemon, or about its name, runs one of its handlers. */
  datatype Event =
    | GetDesktop(answer: Answer) | AddRefDesktop | ReleaseDesktop
    | DeviceConnected(path: D.Path, listeners: nat, at: Handler)
    | DeviceDisconnected(path: D.Path, listeners: nat, at: Handler)
    | DaemonFound(link: Link) | DaemonLost
    | OrphanFound(o: Id, link: Link) | OrphanLost(o: Id)
    | AddRefDevice(d: Id) | ReleaseDevice(d: Id)
    | Enumerate | CloneEnum(e: Id) | AddRefEnum(e: Id) | ReleaseEnum(e: Id)
    | NextDevice(e: Id) | SkipDevices(e: Id, n: nat) | ResetEnum(e: Id)
    | OpenSession(d: Id) | AddRefSession(s: Id) | ReleaseSession(s: Id) | SessionDevice(s: Id)

  /** A handler of that kind is connected. */
  predicate Handled(w: Wiring, at: Handler) {
    match at
    case Own => w.proxy || w.leaked > 0
    case Left => w.stale > 0
    case Of(o) => o < |w.orphans| && (w.orphans[o].proxy || w.orphans[o].leaked > 0)
  }

  /** The program uses objects it has a reference to, or got from one it has, and releases only its own references. */
  predicate Enabled(h: Heap, e: Event) {
    && !h.fault
    && match e
       case GetDesktop(_) => true
       case AddRefDesktop => h.desktop.alive
       case ReleaseDesktop => h.held.desktop > 0
       case DeviceConnected(_, _, at) => Handled(h.wiring, at)
       case DeviceDisconnected(_, _, at) => Handled(h.wiring, at)
       case DaemonFound(_) => h.desktop.alive
       case DaemonLost => h.desktop.alive
       case OrphanFound(o, _) => o < |h.wiring.orphans|
       case OrphanLost(o) => o < |h.wiring.orphans|
       case AddRefDevice(d) => d < |h.devices| && h.devices[d].alive
       case ReleaseDevice(d) => h.held.devices[d] > 0
       case Enumerate => h.desktop.alive
       case CloneEnum(i) => i < |h.enums| && h.enums[i].refs > 0
       case AddRefEnum(i) => i < |h.enums| && h.enums[i].refs > 0
       case ReleaseEnum(i) => h.held.enums[i] > 0
       case NextDevice(i) => i < |h.enums| && h.enums[i].refs > 0
       case SkipDevices(i, _) => i < |h.enums| && h.enums[i].refs > 0
       case ResetEnum(i) => i < |h.enums| && h.enums[i].refs > 0
       case OpenSession(d) => d < |h.devices| && h.devices[d].alive
       case AddRefSession(s) => s < |h.sessions| && h.sessions[s].refs > 0
       case ReleaseSession(s) => h.held.sessions[s] > 0
       case SessionDevice(s) => s < |h.sessions| && h.sessions[s].refs > 0
  }

  /** Every object a step uses exists. */
  lemma InRangeAll(h: Heap)
    requires Inv(h)
    ensures InRange(h.desktop.list, h)
    ensures forall e :: 0 <= e < |h.enums| ==> InRange(h.enums[e].devices, h)
    ensures forall s :: 0 <= s < |h.sessions| && h.sessions[s].refs > 0 ==> h.sessions[s].device < |h.devices|
    ensures forall d: nat :: h.held.devices[d] > 0 ==> d < |h.devices| && h.devices[d].alive
    ensures forall e: nat :: h.held.enums[e] > 0 ==> e < |h.enums|
    ensures forall s: nat :: h.held.sessions[s] > 0 ==> s < |h.sessions| && h.sessions[s].refs > 0
  {
    hide DesktopInv, InEnums, InSessions;
    ListIsInRange(h);
    forall e | 0 <= e < |h.enums| ensures InRange(h.enums[e].devices, h) {
      EnumHoldsDevices(h, e);
    }
    forall s | 0 <= s < |h.sessions| && h.sessions[s].refs > 0 ensures h.sessions[s].device < |h.devices| {
      SessionHoldsDevice(h, s);
    }
    forall d: nat | h.held.devices[d] > 0 ensures d < |h.devices| && h.devices[d].alive {
      assert DeviceInv(h, d);
    }
    forall e: nat | h.held.enums[e] > 0 ensures e < |h.enums| {
      assert EnumInv(h, e);
    }
    forall s: nat | h.held.sessions[s] > 0 ensures s < |h.sessions| && h.sessions[s].refs > 0 {
      assert SessionInv(h, s);
    }
  }

  /** Nobody has given an orphan listeners: they are told of the desktop's devices only. */
  function Connects(h: Heap, path: D.Path, listeners: nat, at: Handler): Heap
    requires Handled(h.wiring, at)
  {
    match at
    case Own => if h.desktop.alive then Connect(h, path, listeners) else Broken(h)
    case Left => Broken(h)
    case Of(o) => OrphanAdd(h, o, path)
  }

  function Disconnects(h: Heap, path: D.Path, listeners: nat, at: Handler): Heap
    requires Handled(h.wiring, at)
  {
    match at
    case Own => if h.desktop.alive && InRange(h.desktop.list, h) then Disconnect(h, path, listeners) else Broken(h)
    case Left => Broken(h)
    case Of(o) => OrphanDisconnect(h, o, path)
  }

  function Step(h: Heap, e: Event): Heap
    requires Enabled(h, e)
  {
    match e
    case GetDesktop(answer) => Get(h, answer)
    case AddRefDesktop => DesktopAddRef(h)
    case ReleaseDesktop => DesktopRelease(h)
    case DeviceConnected(path, listeners, at) => Connects(h, path, listeners, at)
    case DeviceDisconnected(path, listeners, at) => Disconnects(h, path, listeners, at)
    case DaemonFound(link) => UdevConnect(h, link)
    case DaemonLost => if InRange(h.desktop.list, h) then UdevDisconnect(h) else Broken(h)
    case OrphanFound(o, link) => OrphanConnect(h, o, link)
    case OrphanLost(o) => OrphanLoss(h, o)
    case AddRefDevice(d) => DeviceAddRef(h, d)
    case ReleaseDevice(d) => if d < |h.devices| && h.devices[d].alive then DeviceRelease(h, d) else Broken(h)
    case Enumerate => if InRange(h.desktop.list, h) then EnumDevices(h) else Broken(h)
    case CloneEnum(i) => if InRange(h.enums[i].devices, h) then Clone(h, i) else Broken(h)
    case AddRefEnum(i) => EnumAddRef(h, i)
    case ReleaseEnum(i) => if i < |h.enums| && InRange(h.enums[i].devices, h) then EnumRelease(h, i) else Broken(h)
    case NextDevice(i) => Next(h, i)
    case SkipDevices(i, n) => Skip(h, i, n)
    case ResetEnum(i) => Reset(h, i)
    case OpenSession(d) => CreateSession(h, d)
    case AddRefSession(s) => SessionAddRef(h, s)
    case ReleaseSession(s) =>
      if s < |h.sessions| && h.sessions[s].device < |h.devices| then SessionRelease(h, s) else Broken(h)
    case SessionDevice(s) =>
      if h.sessions[s].device < |h.devices| then DeviceAddRef(h, h.sessions[s].device) else Broken(h)
  }

  predicate AboutDesktop(e: Event) {
    e.GetDesktop? || e.AddRefDesktop? || e.ReleaseDesktop? || e.DaemonFound? || e.DaemonLost? || e.Enumerate?
  }

  predicate AboutOrphans(e: Event) {
    e.OrphanFound? || e.OrphanLost? || (IsSignal(e) && e.at.Of?)
  }

  predicate IsSignal(e: Event) {
    e.DeviceConnected? || e.DeviceDisconnected?
  }

  predicate AboutEnums(e: Event) {
    e.CloneEnum? || e.AddRefEnum? || e.ReleaseEnum? || e.NextDevice? || e.SkipDevices? || e.ResetEnum?
  }

  lemma DesktopKeepsInv(h: Heap, e: Event)
    requires Inv(h) && Enabled(h, e) && AboutDesktop(e)
    ensures Inv(Step(h, e))
  {
    hide Inv, Get, DesktopAddRef, DesktopRelease, UdevConnect, Offline, EnumDevices;
    InRangeAll(h);
    match e
    case GetDesktop(answer) => GetKeeps(h, answer);
    case AddRefDesktop => DesktopAddRefKeeps(h);
    case ReleaseDesktop => DesktopReleaseKeeps(h);
    case DaemonFound(link) => UdevConnectKeeps(h, link);
    case DaemonLost =>
      OrphansOf(h);
      RewireKeeps(h, h.wiring.(proxy := false));
      OfflineKeeps(h.(wiring := h.wiring.(proxy := false)), 0);
    case Enumerate => EnumDevicesKeeps(h);
  }

  lemma SignalKeepsInv(h: Heap, e: Event)
    requires Inv(h) && Enabled(h, e) && IsSignal(e) && !e.at.Of?
    ensures Inv(Step(h, e))
  {
    hide Inv, AddRefs, NewDevice, Disconnect;
    FaultKeeps(h);
    InRangeAll(h);
    if h.desktop.alive && e.DeviceConnected? {
      NewDeviceKeeps(h, e.path);
      NewDeviceAlive(h, e.path);
      AddRefsKeeps(NewDevice(h, e.path), |h.devices|, e.listeners);
    } else if h.desktop.alive {
      DisconnectKeeps(h, e.path, e.listeners);
    }
  }

  /** What happens to an orphan concerns no object of the program, until its last reference goes. */
  lemma OrphanStep(h: Heap, e: Event)
    requires Inv(h) && Enabled(h, e) && AboutOrphans(e)
    ensures OrphansOnly(h, Step(h, e)) && OrphansInv(Step(h, e).wiring.orphans)
    ensures Step(h, e).fault <==> OrphanEnds(h, e)
  {
    hide Inv, OrphanDrop, OrphanWalk, AllDccm;
    OrphansOf(h);
    match e
    case DeviceDisconnected(path, _, Of(o)) =>
      var i := Position(h.wiring.orphans[o].list, path);
      if i < |h.wiring.orphans[o].list| {
        OrphanDropIff(h, o, i);
      }
    case OrphanLost(o) =>
      var h1 := SetOrphan(h, o, h.wiring.orphans[o].(proxy := false));
      OrphansKeep(h, h1);
      OrphanWalkIff(h1, o, 0);
    case _ =>
  }

  lemma EnumsKeepInv(h: Heap, e: Event)
    requires Inv(h) && Enabled(h, e) && AboutEnums(e)
    ensures Inv(Step(h, e))
  {
    hide Inv, Clone, EnumAddRef, EnumRelease;
    InRangeAll(h);
    match e
    case CloneEnum(i) => CloneKeeps(h, i);
    case AddRefEnum(i) => EnumAddRefKeeps(h, i);
    case ReleaseEnum(i) => EnumReleaseKeeps(h, i);
    case NextDevice(i) => CursorsKeep(h, i, 0);
    case SkipDevices(i, n) => CursorsKeep(h, i, n);
    case ResetEnum(i) => CursorsKeep(h, i, 0);
  }

  /** Devices and sessions. */
  lemma OthersKeepInv(h: Heap, e: Event)
    requires Inv(h) && Enabled(h, e) && !AboutDesktop(e) && !IsSignal(e) && !AboutOrphans(e) && !AboutEnums(e)
    ensures Inv(Step(h, e))
  {
    hide Inv, DeviceAddRef, DeviceRelease, CreateSession, SessionAddRef, SessionRelease;
    InRangeAll(h);
    match e
    case AddRefDevice(d) => AddRefKeeps(h, d);
    case ReleaseDevice(d) => ReleaseKeeps(h, d);
    case OpenSession(d) => CreateSessionKeeps(h, d);
    case AddRefSession(s) => SessionAddRefKeeps(h, s);
    case ReleaseSession(s) => SessionReleaseKeeps(h, s);
    case SessionDevice(s) =>
      SessionHoldsDevice(h, s);
      AddRefKeeps(h, h.sessions[s].device);
  }

  lemma KeepsInv(h: Heap, e: Event)
    requires Inv(h) && Enabled(h, e)
    ensures Inv(Step(h, e))
  {
    hide Inv, Enabled, Step;
    if AboutOrphans(e) {
      OrphanStep(h, e);
      OrphansKeep(h, Step(h, e));
    } else if AboutDesktop(e) {
      DesktopKeepsInv(h, e);
    } else if IsSignal(e) {
      SignalKeepsInv(h, e);
    } else if AboutEnums(e) {
      EnumsKeepInv(h, e);
    } else {
      OthersKeepInv(h, e);
    }
  }

  lemma NewDeviceAlive(h: Heap, path: D.Path)
    ensures |NewDevice(h, path).devices| == |h.devices| + 1 && NewDevice(h, path).devices[|h.devices|].alive
  {
  }

  lemma CursorsKeep(h: Heap, e: Id, n: nat)
    requires Inv(h) && e < |h.enums|
    ensures Inv(Next(h, e)) && Inv(Skip(h, e, n)) && Inv(Reset(h, e))
  {
    hide DeviceInv, DesktopInv, SessionInv;
    assert EnumInv(h, e);
    var o := h.enums[e];
    CursorKeeps(h, e, 0);
    CursorKeeps(h, e, if o.current + n <= |o.devices| then o.current + n else |o.devices|);
    if o.current < |o.devices| {
      CursorKeeps(h, e, o.current + 1);
    }
  }

  ghost predicate IsRun(es: seq<Event>, hs: seq<Heap>) {
    && |hs| == |es| + 1
    && hs[0] == Begin()
    && forall i :: 0 <= i < |es| ==> Enabled(hs[i], es[i]) && hs[i + 1] == Step(hs[i], es[i])
  }

  lemma BeginInv()
    ensures Inv(Begin())
  {
  }

  lemma {:induction false} RunInv(es: seq<Event>, hs: seq<Heap>, k: nat)
    requires IsRun(es, hs) && k <= |es|
    ensures Inv(hs[k])
  {
    hide Step, Inv, Enabled;
    if k == 0 {
      BeginInv();
    } else {
      RunInv(es, hs, k - 1);
      KeepsInv(hs[k - 1], es[k - 1]);
    }
  }

  // ---- No fault, and no object freed twice ----

  lemma {:induction false} OfflineDescends(h: Heap, i: nat)
    requires i <= |h.desktop.list| && InRange(h.desktop.list, h)
    ensures Descends(h, Offline(h, i).(fault := h.fault)) && Offline(h, i).enums == h.enums
    ensures Offline(h, i).sessions == h.sessions
    decreases |h.desktop.list| - i
  {
    hide DeviceRelease;
    if i < |h.desktop.list| {
      if M.DCCM_PREFIX <= h.devices[h.desktop.list[i]].path {
        DroppedDescends(h, i);
        var h1 := Dropped(h, i);
        if h1.desktop.alive {
          OfflineDescends(h1, i);
        }
      } else {
        OfflineDescends(h, i + 1);
      }
    }
  }

  lemma DroppedDescends(h: Heap, i: nat)
    requires i < |h.desktop.list| && InRange(h.desktop.list, h)
    ensures var h1 := Dropped(h, i); Descends(h, h1) && h1.enums == h.enums && h1.sessions == h.sessions
  {
    hide DeviceRelease;
  }

  lemma LostDescends(h: Heap)
    requires InRange(h.desktop.list, h)
    ensures Descends(h, UdevDisconnect(h).(fault := h.fault))
    ensures UdevDisconnect(h).enums == h.enums && UdevDisconnect(h).sessions == h.sessions
  {
    hide Offline;
    OfflineDescends(h.(wiring := h.wiring.(proxy := false)), 0);
  }

  lemma LostFaultIff(h: Heap)
    requires Inv(h) && !h.fault && h.desktop.alive && InRange(h.desktop.list, h)
    ensures UdevDisconnect(h).fault <==> OnlyListed(h, 0)
  {
    hide Inv, Offline;
    var h0 := h.(wiring := h.wiring.(proxy := false));
    OrphansOf(h);
    RewireKeeps(h, h0.wiring);
    OfflineFaultIff(h0, 0);
  }

  lemma HandledAlive(h: Heap)
    requires Inv(h)
    ensures Handled(h.wiring, Own) ==> h.desktop.alive
  {
    hide DeviceInv, EnumInv, SessionInv;
  }

  /** An orphan loses its last device. */
  predicate OrphanEnds(h: Heap, e: Event) {
    match e
    case DeviceDisconnected(path, _, Of(o)) => o < |h.wiring.orphans| && h.wiring.orphans[o].list == [path]
    case OrphanLost(o) => o < |h.wiring.orphans| && h.wiring.orphans[o].list != [] && AllDccm(h.wiring.orphans[o].list)
    case _ => false
  }

  /** The library uses a desktop that does not exist, or frees one in use, in three cases only: the daemon is lost
      while nothing else keeps the desktop; a signal runs a handler left over from a freed desktop; or the last device
      goes of a desktop whose making had failed. */
  lemma FaultIff(h: Heap, e: Event)
    requires Inv(h) && Enabled(h, e)
    ensures Step(h, e).fault <==>
            (e == DaemonLost && OnlyListed(h, 0)) || (IsSignal(e) && e.at == Left) || OrphanEnds(h, e)
  {
    hide Inv, DeviceAddRef, DeviceRelease, UdevDisconnect, UdevConnect, AddRefs, AddRefAll, ReleaseAll, NewDevices,
         Disconnect, OnlyListed, OrphanLoss, OrphanConnect, OrphanDisconnect, OrphanAdd, AllDccm;
    InRangeAll(h);
    HandledAlive(h);
    if AboutOrphans(e) {
      OrphanStep(h, e);
    } else if e == DaemonLost {
      LostFaultIff(h);
    } else if e.DeviceDisconnected? && InRange(h.desktop.list, h) {
      DisconnectDescends(h, e.path, e.listeners);
    }
  }

  /** An enumerator or session that was freed is not used again. */
  predicate StayFreed(h: Heap, h1: Heap) {
    && |h.enums| <= |h1.enums| && |h.sessions| <= |h1.sessions|
    && (forall e :: 0 <= e < |h.enums| && h.enums[e].refs == 0 ==> h1.enums[e] == h.enums[e])
    && (forall s :: 0 <= s < |h.sessions| && h.sessions[s].refs == 0 ==> h1.sessions[s] == h.sessions[s])
  }

  lemma DisconnectDescends(h: Heap, path: D.Path, listeners: nat)
    requires InRange(h.desktop.list, h)
    ensures var h1 := Disconnect(h, path, listeners);
            Descends(h, h1) && h1.enums == h.enums && h1.sessions == h.sessions
  {
    hide DeviceRelease, AddRefs;
  }

  lemma StepDescends(h: Heap, e: Event)
    requires Inv(h) && Enabled(h, e)
    ensures Descends(h, Step(h, e).(fault := h.fault))
  {
    hide Inv, DeviceAddRef, DeviceRelease, UdevDisconnect, UdevConnect, AddRefs, AddRefAll, ReleaseAll, NewDevices,
         Disconnect, OrphanLoss, OrphanConnect, OrphanDisconnect, OrphanAdd;
    InRangeAll(h);
    if AboutOrphans(e) {
      OrphanStep(h, e);
    } else if e == DaemonLost {
      LostDescends(h);
    } else if e.DeviceDisconnected? && InRange(h.desktop.list, h) {
      DisconnectDescends(h, e.path, e.listeners);
    }
  }

  lemma StepStaysFreed(h: Heap, e: Event)
    requires Inv(h) && Enabled(h, e)
    ensures StayFreed(h, Step(h, e))
  {
    hide DesktopInv, DeviceInv, SessionInv, DeviceAddRef, DeviceRelease, UdevDisconnect, UdevConnect, AddRefs,
         AddRefAll, ReleaseAll, NewDevices, Disconnect, Descends, OrphanLoss, OrphanConnect,
         OrphanDisconnect, OrphanAdd;
    InRangeAll(h);
    if AboutOrphans(e) {
      OrphanStep(h, e);
    } else if e == DaemonLost {
      LostDescends(h);
    } else if e.DeviceDisconnected? && InRange(h.desktop.list, h) {
      DisconnectDescends(h, e.path, e.listeners);
    }
    if e.ReleaseEnum? {
      assert EnumInv(h, e.e);
    }
  }

  /** An object once freed stays freed: each is freed once, when its last reference goes. */
  lemma {:induction false} FreedOnce(es: seq<Event>, hs: seq<Heap>, i: nat, j: nat)
    requires IsRun(es, hs) && i <= j <= |es|
    ensures Descends(hs[i], hs[j].(fault := hs[i].fault)) && StayFreed(hs[i], hs[j])
    decreases j
  {
    hide Step, Inv, Enabled;
    if i < j {
      FreedOnce(es, hs, i, j - 1);
      RunInv(es, hs, j - 1);
      StepDescends(hs[j - 1], es[j - 1]);
      StepStaysFreed(hs[j - 1], es[j - 1]);
    }
  }

  /** In every reachable state a device's count is one for the list, plus the enumerators' and sessions' references
      and the program's; the desktop's is the program's references and the live devices; and an object is alive
      exactly while its count is not zero. */
  lemma CountsMatch(es: seq<Event>, hs: seq<Heap>, k: nat)
    requires IsRun(es, hs) && k <= |es|
    ensures var h := hs[k];
            && (forall d :: 0 <= d < |h.devices| ==>
                  h.devices[d].refs == Bit(d in h.desktop.list) + InEnums(h.enums, d) + InSessions(h.sessions, d)
                                     + h.held.devices[d])
            && (forall d :: 0 <= d < |h.devices| ==> (h.devices[d].alive <==> h.devices[d].refs > 0))
            && h.desktop.refs == h.held.desktop + Alive(h.devices) && (h.desktop.alive <==> h.desktop.refs > 0)
            && (forall e :: 0 <= e < |h.enums| ==> h.enums[e].refs == h.held.enums[e])
            && (forall s :: 0 <= s < |h.sessions| ==> h.sessions[s].refs == h.held.sessions[s])
  {
    hide Step, Enabled, InEnums, InSessions, Alive;
    RunInv(es, hs, k);
    var h := hs[k];
    forall d | 0 <= d < |h.devices|
      ensures h.devices[d].refs == Bit(d in h.desktop.list) + InEnums(h.enums, d) + InSessions(h.sessions, d)
                                 + h.held.devices[d]
      ensures h.devices[d].alive <==> h.devices[d].refs > 0
    {
      assert DeviceInv(h, d);
    }
    forall e | 0 <= e < |h.enums| ensures h.enums[e].refs == h.held.enums[e] {
      assert EnumInv(h, e);
    }
    forall s | 0 <= s < |h.sessions| ensures h.sessions[s].refs == h.held.sessions[s] {
      assert SessionInv(h, s);
    }
  }

  // ---- Where handlers are left over ----

  /** Freeing the desktop is all that changed the handlers. */
  predicate Follows(h: Heap, r: Heap) {
    if h.desktop.alive then r.wiring == Freed(h.wiring, !r.desktop.alive) else r.wiring == h.wiring && !r.desktop.alive
  }

  lemma ReleaseFollows(h: Heap, d: Id)
    requires Inv(h) && h.held.devices[d] > 0
    ensures d < |h.devices| && h.desktop.alive && Follows(h, DeviceRelease(h, d))
  {
    hide EnumInv, SessionInv, DeviceRelease, InEnums, InSessions, Descends;
    assert DeviceInv(h, d);
    DesktopAliveIff(h);
  }

  lemma {:induction false} ReleaseAllFollows(h: Heap, ds: seq<Id>)
    requires Inv(h) && multiset(ds) <= h.held.devices && InRange(ds, h)
    ensures Follows(h, ReleaseAll(h, ds))
    decreases |ds|
  {
    hide Inv, DeviceRelease, Descends;
    if ds != [] {
      assert ds == [ds[0]] + ds[1..];
      ReleaseFollows(h, ds[0]);
      ReleaseKeeps(h, ds[0]);
      ReleaseAllFollows(DeviceRelease(h, ds[0]), ds[1..]);
    } else {
      NothingFollows(h);
    }
  }

  lemma NothingFollows(h: Heap)
    ensures Follows(h, h)
  {
  }

  lemma DisconnectFollows(h: Heap, path: D.Path, listeners: nat)
    requires Inv(h) && InRange(h.desktop.list, h)
    ensures Follows(h, Disconnect(h, path, listeners))
  {
    hide Inv, DeviceRelease, AddRefs, Descends;
    var i := Listed(h, path, 0);
    if i < |h.desktop.list| {
      var d := h.desktop.list[i];
      UnlistKeeps(h, i);
      AddRefsKeeps(Unlist(h, i), d, listeners);
      ReleaseFollows(AddRefs(Unlist(h, i), d, listeners), d);
    }
  }

  lemma EnumReleaseFollows(h: Heap, e: Id)
    requires Inv(h) && h.held.enums[e] > 0 && e < |h.enums| && InRange(h.enums[e].devices, h)
    ensures Follows(h, EnumRelease(h, e))
  {
    hide DeviceInv, DesktopInv, SessionInv, ReleaseAll, Descends;
    assert EnumInv(h, e);
    if h.enums[e].refs == 1 {
      var held := h.held.(enums := h.held.enums - multiset{e},
                             devices := h.held.devices + multiset(h.enums[e].devices));
      EnumSetKeeps(h, e, EnumObj([], 0, 0), held);
      ReleaseAllFollows(h.(enums := h.enums[e := EnumObj([], 0, 0)], held := held), h.enums[e].devices);
    }
  }

  lemma SessionReleaseFollows(h: Heap, s: Id)
    requires Inv(h) && h.held.sessions[s] > 0 && s < |h.sessions| && h.sessions[s].device < |h.devices|
    ensures Follows(h, SessionRelease(h, s))
  {
    hide DeviceInv, DesktopInv, EnumInv, DeviceRelease, Descends;
    assert SessionInv(h, s);
    var o := h.sessions[s].(refs := h.sessions[s].refs - 1);
    if o.refs <= 0 {
      var held := h.held.(sessions := h.held.sessions - multiset{s}, devices := h.held.devices + multiset{o.device});
      SessionSetKeeps(h, s, o, held);
      ReleaseFollows(h.(sessions := h.sessions[s := o], held := held), o.device);
    }
  }

  lemma {:induction false} OfflineFollows(h: Heap, i: nat)
    requires Inv(h) && h.desktop.alive && i <= |h.desktop.list| && InRange(h.desktop.list, h)
    ensures Follows(h, Offline(h, i))
    decreases |h.desktop.list| - i
  {
    hide Inv, Dropped, Descends;
    if i < |h.desktop.list| {
      if M.DCCM_PREFIX <= h.devices[h.desktop.list[i]].path {
        DroppedShape(h, i);
        DroppedFollows(h, i);
        if Dropped(h, i).desktop.alive {
          OfflineFollows(Dropped(h, i), i);
        }
      } else {
        OfflineFollows(h, i + 1);
      }
    }
  }

  lemma DroppedFollows(h: Heap, i: nat)
    requires Inv(h) && i < |h.desktop.list| && InRange(h.desktop.list, h)
    ensures Follows(h, Dropped(h, i))
  {
    hide Inv, DeviceRelease, Descends;
    UnlistKeeps(h, i);
    ReleaseFollows(Unlist(h, i), h.desktop.list[i]);
  }

  /** The daemon is found while the desktop is connected to it already. */
  predicate SecondConnect(h: Heap, e: Event) {
    e.DaemonFound? && h.wiring.proxy
  }

  predicate FreesDesktop(h: Heap, h1: Heap) {
    h.desktop.alive && !h1.desktop.alive
  }

  lemma DesktopRefs(h: Heap)
    requires Inv(h)
    ensures (h.desktop.alive <==> h.desktop.refs > 0) && (!h.desktop.alive ==> !h.wiring.proxy && h.wiring.leaked == 0)
    ensures h.held.desktop > 0 ==> h.desktop.alive
  {
    hide DeviceInv, EnumInv, SessionInv;
  }

  /** The making of a desktop fails, though it listens for the daemon's name by then. */
  predicate FailsInit(h: Heap, e: Event) {
    e == GetDesktop(NoAnswer) && !h.desktop.alive
  }

  /** The step may give up a reference to a device. */
  predicate MayFree(e: Event) {
    e.ReleaseDevice? || e.ReleaseEnum? || e.ReleaseSession? || (e.DeviceDisconnected? && e.at == Own)
  }

  lemma FreeingFollows(h: Heap, e: Event)
    requires Inv(h) && Enabled(h, e) && MayFree(e)
    ensures Follows(h, Step(h, e))
  {
    hide Inv, DeviceRelease, Disconnect, EnumRelease, SessionRelease, Follows;
    InRangeAll(h);
    HandledAlive(h);
    match e
    case DeviceDisconnected(path, listeners, _) => DisconnectFollows(h, path, listeners);
    case ReleaseDevice(d) => ReleaseFollows(h, d);
    case ReleaseEnum(i) => EnumReleaseFollows(h, i);
    case ReleaseSession(s) => SessionReleaseFollows(h, s);
  }

  lemma LossFollows(h: Heap)
    requires Inv(h) && h.desktop.alive && InRange(h.desktop.list, h)
    ensures Follows(h.(wiring := h.wiring.(proxy := false)), UdevDisconnect(h))
  {
    hide Inv, Offline, Follows;
    OrphansOf(h);
    RewireKeeps(h, h.wiring.(proxy := false));
    OfflineFollows(h.(wiring := h.wiring.(proxy := false)), 0);
  }

  /** A handler is leaked by a second connect, and left over when the desktop is freed after that.  An orphan is left
      by each desktop whose making fails, and stays. */
  predicate WiringFits(h: Heap, e: Event, h1: Heap) {
    && h1.wiring.leaked == (if h1.desktop.alive then h.wiring.leaked + Bit(SecondConnect(h, e)) else 0)
    && h1.wiring.stale == h.wiring.stale + (if FreesDesktop(h, h1) then h.wiring.leaked else 0)
    && |h1.wiring.orphans| == |h.wiring.orphans| + Bit(FailsInit(h, e))
  }

  lemma OtherWiring(h: Heap, e: Event)
    requires Inv(h) && Enabled(h, e) && !AboutOrphans(e) && !MayFree(e) && e != DaemonLost
    ensures WiringFits(h, e, Step(h, e))
  {
    hide Inv, DeviceAddRef, UdevConnect, AddRefs, AddRefAll, NewDevices, Descends;
    InRangeAll(h);
    DesktopRefs(h);
    HandledAlive(h);
  }

  lemma WiringStep(h: Heap, e: Event)
    requires Inv(h) && Enabled(h, e)
    ensures WiringFits(h, e, Step(h, e))
  {
    hide Inv, Step, Enabled, UdevDisconnect;
    DesktopRefs(h);
    if AboutOrphans(e) {
      OrphanStep(h, e);
    } else if MayFree(e) {
      FreeingFollows(h, e);
    } else if e == DaemonLost {
      InRangeAll(h);
      LostStep(h);
      LossFollows(h);
    } else {
      OtherWiring(h, e);
    }
  }

  lemma LostStep(h: Heap)
    requires Enabled(h, DaemonLost) && InRange(h.desktop.list, h)
    ensures h.desktop.alive && Step(h, DaemonLost) == UdevDisconnect(h)
  {
  }

  /** The handler leaked by step i is still the live desktop's at step k. */
  predicate LeakedSince(es: seq<Event>, hs: seq<Heap>, i: nat, k: nat) {
    i < k <= |es| && |hs| == |es| + 1 && SecondConnect(hs[i], es[i]) && forall j :: i < j <= k ==> hs[j].desktop.alive
  }

  lemma {:induction false} LeakedIff(es: seq<Event>, hs: seq<Heap>, k: nat)
    requires IsRun(es, hs) && k <= |es|
    ensures hs[k].wiring.leaked > 0 <==> exists i: nat :: LeakedSince(es, hs, i, k)
  {
    hide Step, Inv, Enabled, SecondConnect;
    if k > 0 {
      var k0 := k - 1;
      LeakedIff(es, hs, k0);
      RunInv(es, hs, k0);
      WiringStep(hs[k0], es[k0]);
      if SecondConnect(hs[k0], es[k0]) && hs[k].desktop.alive {
        assert LeakedSince(es, hs, k0, k);
      }
      if i: nat :| LeakedSince(es, hs, i, k0) && hs[k].desktop.alive {
        assert LeakedSince(es, hs, i, k);
      }
      if i: nat :| LeakedSince(es, hs, i, k) && i < k0 {
        assert LeakedSince(es, hs, i, k0);
      }
    }
  }

  /** A handler was leaked by step i, and step j freed the desktop. */
  predicate LeftOver(es: seq<Event>, hs: seq<Heap>, i: nat, j: nat) {
    j < |es| && LeakedSince(es, hs, i, j) && FreesDesktop(hs[j], hs[j + 1])
  }

  /** A handler is left over in a run exactly if the desktop was freed at some time after it had been connected a
      second time: only then can a signal run into the freed desktop. */
  lemma {:induction false} StaleIff(es: seq<Event>, hs: seq<Heap>, k: nat)
    requires IsRun(es, hs) && k <= |es|
    ensures hs[k].wiring.stale > 0 <==> exists i: nat, j: nat :: LeftOver(es, hs, i, j) && j < k
  {
    hide Step, Inv, Enabled, LeakedSince, SecondConnect;
    if k > 0 {
      var k0 := k - 1;
      StaleIff(es, hs, k0);
      LeakedIff(es, hs, k0);
      RunInv(es, hs, k0);
      WiringStep(hs[k0], es[k0]);
      if FreesDesktop(hs[k0], hs[k]) && hs[k0].wiring.leaked > 0 {
        var i: nat :| LeakedSince(es, hs, i, k0);
        assert LeftOver(es, hs, i, k0);
      }
      if i: nat, j: nat :| LeftOver(es, hs, i, j) && j < k && j >= k0 {
        assert LeakedSince(es, hs, i, k0);
      }
    }
  }

  // ---- What orphans lead to ----

  lemma {:induction false} OrphansIff(es: seq<Event>, hs: seq<Heap>, k: nat)
    requires IsRun(es, hs) && k <= |es|
    ensures hs[k].wiring.orphans != [] <==> exists i :: 0 <= i < k && FailsInit(hs[i], es[i])
  {
    hide Step, Inv, Enabled, FailsInit;
    if k > 0 {
      OrphansIff(es, hs, k - 1);
      RunInv(es, hs, k - 1);
      WiringStep(hs[k - 1], es[k - 1]);
    }
  }

  ghost predicate Leads(h: Heap, es: seq<Event>, hs: seq<Heap>) {
    && |hs| == |es| + 1
    && hs[0] == h
    && forall i :: 0 <= i < |es| ==> Enabled(hs[i], es[i]) && hs[i + 1] == Step(hs[i], es[i])
  }

  predicate ToOrphans(es: seq<Event>) {
    forall i :: 0 <= i < |es| ==> AboutOrphans(es[i])
  }

  /** Signals to orphans alone lead from h to a fault. */
  ghost predicate LeadsToFault(h: Heap, es: seq<Event>, hs: seq<Heap>) {
    Leads(h, es, hs) && ToOrphans(es) && hs[|es|].fault
  }

  lemma LeadsOn(h: Heap, e: Event, es: seq<Event>, hs: seq<Heap>)
    requires Enabled(h, e) && AboutOrphans(e) && LeadsToFault(Step(h, e), es, hs)
    ensures LeadsToFault(h, [e] + es, [h] + hs)
  {
    hide Step, Enabled, AboutOrphans;
  }

  /** The daemon's signals make an orphan fault: its devices go one by one. */
  lemma {:induction false} DrainOrphan(h: Heap, o: Id) returns (es: seq<Event>, hs: seq<Heap>)
    requires Inv(h) && !h.fault && o < |h.wiring.orphans| && h.wiring.orphans[o].proxy && h.wiring.orphans[o].list != []
    ensures LeadsToFault(h, es, hs)
    decreases if o < |h.wiring.orphans| then |h.wiring.orphans[o].list| else 0
  {
    hide Inv, Uninit;
    var list := h.wiring.orphans[o].list;
    var e := DeviceDisconnected(list[0], 0, Of(o));
    var h1 := Step(h, e);
    OrphanStep(h, e);
    OrphansOf(h);
    if h1.fault {
      es, hs := [e], [h, h1];
    } else {
      OrphansKeep(h, h1);
      es, hs := DrainOrphan(h1, o);
      LeadsOn(h, e, es, hs);
      es, hs := [e] + es, [h] + hs;
    }
  }

  /** At any time of a run without a fault so far, signals to orphans alone can lead to one exactly if the making of a
      desktop had failed. */
  lemma OrphanFaultIff(es: seq<Event>, hs: seq<Heap>, k: nat)
    requires IsRun(es, hs) && k <= |es| && !hs[k].fault
    ensures (exists es1, hs1 :: LeadsToFault(hs[k], es1, hs1)) <==> exists i :: 0 <= i < k && FailsInit(hs[i], es[i])
  {
    hide Step, Inv, FailsInit, OrphanDisconnect, OrphanLoss;
    OrphansIff(es, hs, k);
    RunInv(es, hs, k);
    var h := hs[k];
    if h.wiring.orphans != [] {
      var es1, hs1 := OrphanFaults(h);
    } else {
      forall es1, hs1 ensures !LeadsToFault(h, es1, hs1) {
        if es1 != [] {
          NoOrphanNoSignal(h, es1[0]);
        }
      }
    }
  }

  lemma NoOrphanNoSignal(h: Heap, e: Event)
    requires h.wiring.orphans == []
    ensures !(Enabled(h, e) && AboutOrphans(e))
  {
  }

  lemma OrphanFaults(h: Heap) returns (es: seq<Event>, hs: seq<Heap>)
    requires Inv(h) && !h.fault && h.wiring.orphans != []
    ensures LeadsToFault(h, es, hs)
  {
    hide Inv;
    var e := OrphanFound(0, Proxy([DEVICE_PATH]));
    OrphanStep(h, e);
    OrphansKeep(h, Step(h, e));
    es, hs := DrainOrphan(Step(h, e), 0);
    LeadsOn(h, e, es, hs);
    es, hs := [e] + es, [h] + hs;
  }

  // ---- Witnesses ----

  const DEVICE_PATH: D.Path := M.DCCM_PREFIX + "Device"

  lemma NewOne(h: Heap, path: D.Path)
    ensures NewDevices(h, [path]) == NewDevice(h, path)
  {
    assert [path][1..] == [];
    assert NewDevices(NewDevice(h, path), []) == NewDevice(h, path);
  }

  /** The first fault is reachable: the program lets go of the desktop while only the list keeps a device. */
  lemma LossFaults() returns (es: seq<Event>, hs: seq<Heap>)
    ensures IsRun(es, hs) && |es| == 3 && es[2] == DaemonLost && hs[3].fault
  {
    hide Inv, Descends, NewDevices, Offline;
    var none := Held(0, multiset{}, multiset{}, multiset{});
    var w := Heap(Desktop(1, true, []), [], [], [], none.(desktop := 1), Wiring(true, 0, 0, []), false);
    NewOne(w, DEVICE_PATH);
    var h1 := NewDevice(w, DEVICE_PATH);
    var h2 := h1.(desktop := Desktop(1, true, [0]), held := none);
    es := [GetDesktop(Owner(Proxy([DEVICE_PATH]))), ReleaseDesktop, DaemonLost];
    assert Step(Begin(), es[0]) == h1;
    assert Step(h1, es[1]) == h2;
    BeginInv();
    KeepsInv(Begin(), es[0]);
    KeepsInv(h1, es[1]);
    FaultIff(h2, es[2]);
    hs := [Begin(), h1, h2, Step(h2, es[2])];
  }

  /** So is the second: connected twice, the desktop is freed, and a signal comes. */
  lemma StaleSignalFaults() returns (es: seq<Event>, hs: seq<Heap>)
    ensures IsRun(es, hs) && |es| == 4 && es[3].DeviceConnected? && hs[4].fault
    ensures forall i :: 0 <= i < 4 ==> es[i] != DaemonLost
  {
    hide Inv, Descends, Offline;
    var none := Held(0, multiset{}, multiset{}, multiset{});
    var h1 := Heap(Desktop(1, true, []), [], [], [], none.(desktop := 1), Wiring(true, 0, 0, []), false);
    var h2 := h1.(wiring := Wiring(true, 1, 0, []));
    var h3 := Begin().(wiring := Wiring(false, 0, 1, []));
    es := [GetDesktop(Owner(Proxy([]))), DaemonFound(Proxy([])), ReleaseDesktop, DeviceConnected(DEVICE_PATH, 0, Left)];
    assert Step(Begin(), es[0]) == h1;
    assert Step(h1, es[1]) == h2;
    assert Step(h2, es[2]) == h3;
    hs := [Begin(), h1, h2, h3, Broken(h3)];
  }

  /** So is the third: the bus did not answer the first time, and the orphan's last device takes with it the desktop
      the program got the second time. */
  lemma OrphanFreesDesktop() returns (es: seq<Event>, hs: seq<Heap>)
    ensures IsRun(es, hs) && |es| == 4 && hs[4].fault && es[3] == DeviceDisconnected(DEVICE_PATH, 0, Of(0))
    ensures hs[3].desktop.alive && hs[3].held.desktop == 1 && forall i :: 0 <= i < 4 ==> es[i] != DaemonLost
  {
    hide Inv, Descends, Offline;
    var h1 := Begin().(wiring := Wiring(false, 0, 0, [Orphan([], 0, false, 0)]));
    var h2 := h1.(desktop := Desktop(1, true, []), held := h1.held.(desktop := 1));
    var h3 := h2.(wiring := Wiring(false, 0, 0, [Orphan([DEVICE_PATH], 1, true, 0)]));
    es := [GetDesktop(NoAnswer), GetDesktop(NoOwner), OrphanFound(0, Proxy([DEVICE_PATH])),
           DeviceDisconnected(DEVICE_PATH, 0, Of(0))];
    assert Step(Begin(), es[0]) == h1;
    assert Step(h1, es[1]) == h2;
    assert [] + [DEVICE_PATH] == [DEVICE_PATH];
    assert Step(h2, es[2]).wiring.orphans == h3.wiring.orphans;
    hs := [Begin(), h1, h2, h3, Step(h3, es[3])];
  }
}
