/** The callbacks of the device manager, as they update its list, proved against the transition system. */
module ManagerCallbacks {
  import opened DeviceManager

  class SynceDeviceManager {
    var devices: seq<Key>
    /** The entries the list points to. */
    var entries: map<Key, Entry>
    var ifaceCheckId: nat
    /** The main loop's live timers, and the next number and address to be handed out. */
    var timers: map<nat, Timer>
    var nextTimer: nat
    var nextKey: Key

    ghost function View(): Manager
      reads this
    {
      Manager(devices, entries, ifaceCheckId, timers, nextTimer, nextKey)
    }

    constructor ()
      ensures View() == Start()
    {
      devices, entries, ifaceCheckId, timers, nextTimer, nextKey := [], map[], 0, map[], 1, 0;
    }

    method TimeoutAdd(t: Timer) returns (id: nat)
      modifies this
      ensures id == old(nextTimer)
      ensures View() == old(View().(timers := timers[nextTimer := t], nextTimer := nextTimer + 1))
    {
      id := nextTimer;
      timers := timers[id := t];
      nextTimer := nextTimer + 1;
    }

    method DeviceConnected(rndis: bool)
      modifies this
      ensures View() == old(Plugged(View(), rndis))
    {
      var deventry := nextKey;
      nextKey := nextKey + 1;
      entries := entries[deventry := Entry(rndis, true, false, NoDevice, 0, 0, 0, NoConns)];
      devices := devices + [deventry];
      if ifaceCheckId > 0 {
        return;
      }
      ifaceCheckId := TimeoutAdd(CheckTimer);
    }

    method Create(deventry: Key, listens: bool) returns (ok: bool)
      requires deventry in entries
      modifies this
      ensures View() == old(CreateDevice(View(), deventry, listens)) && ok == listens
    {
      entries := entries[deventry := entries[deventry].(pending := false)];
      if !listens {
        return false;
      }
      entries := entries[deventry := entries[deventry].(listening := true)];
      if entries[deventry].rndis {
        entries := entries[deventry := entries[deventry].(triggers := entries[deventry].triggers + 1, retryCount := 0)];
        var id := TimeoutAdd(RetryTimer(deventry));
        entries := entries[deventry := entries[deventry].(retryId := id)];
      }
      return true;
    }

    /** Tries every entry's address in turn; the result says that the walk broke off. */
    method ProbeAll(probes: seq<Probe>) returns (early: bool)
      requires Inv(View()) && |probes| == |devices| && ProbesFit(View(), 0, probes)
      modifies this
      ensures (View(), early) == old(Walk(View(), 0, probes)) && Inv(View())
      ensures ifaceCheckId == old(ifaceCheckId)
    {
      hide EntryInv, TimerInv, CreateDevice;
      ghost var was := View();
      var i := 0;
      while i < |devices|
        invariant i <= |devices| == |probes|
        invariant Inv(View()) && ProbesFit(View(), i, probes) && Walk(View(), i, probes) == Walk(was, 0, probes)
        invariant ifaceCheckId == was.checkId
      {
        if probes[i].NoSocket? {
          return true;
        }
        if probes[i].Available? {
          CreateKeeps(View(), devices[i], probes[i].listens);
          CreateStep(View(), i, probes);
          var _ := Create(devices[i], probes[i].listens);
        }
        i := i + 1;
      }
      return false;
    }

    method Outstanding() returns (pending: bool)
      requires ListInv(View())
      ensures pending <==> AnyPending(View())
    {
      var i := 0;
      while i < |devices|
        invariant i <= |devices|
        invariant forall j :: 0 <= j < i ==> !entries[devices[j]].pending
      {
        if entries[devices[i]].pending {
          return true;
        }
        i := i + 1;
      }
      assert forall k :: k in entries ==> k in devices;
      return false;
    }

    /** The interface check's timer fires; the result says whether it is to fire again. */
    method CheckInterface(probes: seq<Probe>) returns (again: bool)
      requires Inv(View()) && Enabled(View(), CheckTick(probes))
      modifies this
      ensures View() == old(CheckInterfaces(View(), probes))
      ensures again <==> ifaceCheckId > 0
    {
      hide EntryInv, Walk, AnyPending, Ready;
      var early := ProbeAll(probes);
      if early {
        return true;
      }
      var pending := Outstanding();
      if pending {
        return true;
      }
      timers := timers - {ifaceCheckId};
      ifaceCheckId := 0;
      again := false;
    }

    /** The retry timer of an entry fires; the result says whether it is to fire again. */
    method TriggerRetry(deventry: Key) returns (again: bool)
      requires deventry in entries
      modifies this
      ensures View() == old(Retry(View(), deventry))
      ensures again <==> old(entries[deventry].device == NoDevice && entries[deventry].retryCount < MAX_RETRIES)
    {
      var e := entries[deventry];
      if e.device != NoDevice {
        entries := entries[deventry := e.(retryId := 0)];
        timers := timers - {e.retryId};
        return false;
      }
      if e.retryCount >= MAX_RETRIES {
        entries := entries[deventry := e.(retryId := 0)];
        timers := timers - {e.retryId};
        return false;
      }
      e := e.(retryCount := e.retryCount + 1);
      e := e.(triggers := e.triggers + 1);
      entries := entries[deventry := e];
      return true;
    }

    /** A connection to the service of an entry. */
    method ClientConnected(server: Key, port: nat, creates: bool)
      requires Inv(View()) && server in entries
      modifies this
      ensures View() == old(Incoming(View(), server, port, creates))
    {
      hide EntryInv, TimerInv;
      var i := 0;
      while i < |devices| && devices[i] != server
        invariant i <= |devices|
        invariant forall j :: 0 <= j < i ==> devices[j] != server
      {
        i := i + 1;
      }
      if i == |devices| {
        return;
      }
      var e := entries[devices[i]];
      if e.device != NoDevice {
        if port == 990 {
          entries := entries[devices[i] := HandedOver(e)];
        }
        return;
      }
      if port == 5679 {
        e := e.(device := if creates then Opening else NoDevice, conns := e.conns.(legacy := creates));
        entries := entries[devices[i] := e];
      } else if port == 990 {
        ZeroIsNoTimer(View());
        assert e.retryId == 0 ==> timers - {e.retryId} == timers;
        if e.retryId > 0 {
          timers := timers - {e.retryId};
          e := e.(retryId := 0);
        }
        entries := entries[devices[i] := e.(device := if creates then Opening else NoDevice)];
      }
    }

    method DeviceSendsDisconnected(device: Key)
      requires Inv(View()) && device in entries
      modifies this
      ensures View() == old(Lost(View(), device))
    {
      hide EntryInv, TimerInv;
      var i := 0;
      while i < |devices| && devices[i] != device
        invariant i <= |devices|
        invariant forall j :: 0 <= j < i ==> devices[j] != device
      {
        i := i + 1;
      }
      if i == |devices| {
        return;
      }
      WithoutAt(devices, i);
      ZeroIsNoTimer(View());
      var id := entries[device].retryId;
      assert id == 0 ==> timers - {id} == timers;
      devices := devices[..i] + devices[i + 1..];
      if id > 0 {
        timers := timers - {id};
      }
      entries := entries - {device};
    }

    /** The paths of the devices that have one, in list order. */
    method GetConnectedDevices() returns (list: seq<Path>)
      requires ListInv(View())
      ensures list == PathsOf(devices, entries)
    {
      hide PathsOf;
      list := [];
      var i := 0;
      assert devices[0..] == devices;
      while i < |devices|
        invariant i <= |devices|
        invariant PathsOf(devices, entries) == list + PathsOf(devices[i..], entries)
      {
        NextPath(devices, entries, i, list);
        var e := entries[devices[i]];
        if e.device.Exported? {
          list := list + [e.device.path];
        }
        i := i + 1;
      }
      NoPath(devices, entries);
    }
  }

  lemma NextPath(devices: seq<Key>, entries: map<Key, Entry>, i: nat, list: seq<Path>)
    requires i < |devices| && devices[i] in entries
    ensures var d := entries[devices[i]].device;
            list + PathsOf(devices[i..], entries)
              == (if d.Exported? then list + [d.path] else list) + PathsOf(devices[i + 1..], entries)
  {
    assert devices[i..][1..] == devices[i + 1..];
  }

  lemma NoPath(devices: seq<Key>, entries: map<Key, Entry>)
    ensures PathsOf(devices[|devices|..], entries) == []
  {
  }

  function PathsOf(devices: seq<Key>, entries: map<Key, Entry>): seq<Path> {
    if devices == [] then []
    else
      var ready := devices[0] in entries && entries[devices[0]].device.Exported?;
      (if ready then [entries[devices[0]].device.path] else []) + PathsOf(devices[1..], entries)
  }

  lemma {:induction false} InPathsOf(devices: seq<Key>, entries: map<Key, Entry>, p: Path)
    requires forall k :: k in devices ==> k in entries
    ensures p in PathsOf(devices, entries) <==> exists k :: k in devices && entries[k].device == Exported(p)
  {
    if devices != [] {
      InPathsOf(devices[1..], entries, p);
      assert forall k :: k in devices <==> k == devices[0] || k in devices[1..];
    }
  }

  /** They are the ready paths. */
  lemma PathsAreReady(m: Manager)
    requires ListInv(m)
    ensures forall p :: p in PathsOf(m.devices, m.entries) <==> p in Ready(m)
  {
    forall p ensures p in PathsOf(m.devices, m.entries) <==> p in Ready(m) {
      InPathsOf(m.devices, m.entries, p);
      if k :| k in m.entries && m.entries[k].device.Exported? && m.entries[k].device.path == p {
        assert m.entries[k].device == Exported(p);
      }
    }
  }

  lemma {:induction false} WithoutAt(devices: seq<Key>, i: nat)
    requires i < |devices| && forall j :: 0 <= j < i ==> devices[j] != devices[i]
    ensures Without(devices, devices[i]) == devices[..i] + devices[i + 1..]
  {
    if i > 0 {
      WithoutAt(devices[1..], i - 1);
    }
  }

  lemma ZeroIsNoTimer(m: Manager)
    requires Inv(m)
    ensures 0 !in m.timers
  {
    hide ListInv, EntryInv;
  }

  lemma CreateStep(m: Manager, i: nat, probes: seq<Probe>)
    requires Inv(m) && i < |m.devices| == |probes| && ProbesFit(m, i, probes) && probes[i].Available?
    ensures var m1 := CreateDevice(m, m.devices[i], probes[i].listens);
            m1.devices == m.devices && m1.checkId == m.checkId && ListInv(m1) && ProbesFit(m1, i + 1, probes)
            && Walk(m, i, probes) == Walk(m1, i + 1, probes)
  {
    hide EntryInv, TimerInv;
  }
}
