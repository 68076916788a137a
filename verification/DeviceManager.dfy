/**
 * The daemon's list of devices: interfaces that come up, the listening service and connection trigger of
 * each, and the two kinds of main-loop timers behind them.  Each callback is one step.
 */
module DeviceManager {
  import opened Basics

  type Path = string

  datatype Device = NoDevice | Opening | Exported(path: Path)

  /** Of which kind the device is, which its first connection's port decides, and how many later connections were
      handed to it: `handed` by one of the kind that takes them, `miscast` by one of the other. */
  datatype Conns = Conns(legacy: bool, handed: nat, miscast: nat)

  const NoConns := Conns(false, 0, 0)

  /** triggers counts the connection triggers sent to the device. */
  datatype Entry = Entry(rndis: bool, pending: bool, listening: bool, device: Device,
                         retryId: nat, retryCount: nat, triggers: nat, conns: Conns)

  /** An entry's address: the callback of a retry timer holds it. */
  type Key = nat

  datatype Timer = CheckTimer | RetryTimer(key: Key)

  /** devices: the list; entries: those allocated and not freed; timers: the live timers of the main loop,
      which numbers them from 1 and does not reuse a number. */
  datatype Manager = Manager(devices: seq<Key>, entries: map<Key, Entry>, checkId: nat,
                             timers: map<nat, Timer>, nextTimer: nat, nextKey: Key)

  const MAX_RETRIES: nat := 10

  function Start(): Manager {
    Manager([], map[], 0, map[], 1, 0)
  }

  // ---- Interface check ----

  /** Probing an entry's address: no socket to be had; address in use or not up; or free, and whether the
      listening sockets can then be made. */
  datatype Probe = NoSocket | Unavailable | Available(listens: bool)

  /** The entry's sockets are set up, or not; in either case its interface is no longer pending. */
  function CreateDevice(m: Manager, k: Key, listens: bool): Manager
    requires k in m.entries
  {
    var e := m.entries[k].(pending := false);
    if !listens then m.(entries := m.entries[k := e])
    else if !e.rndis then m.(entries := m.entries[k := e.(listening := true)])
    else
      var e1 := e.(listening := true, retryId := m.nextTimer, retryCount := 0, triggers := e.triggers + 1);
      m.(entries := m.entries[k := e1],
         timers := m.timers[m.nextTimer := RetryTimer(k)], nextTimer := m.nextTimer + 1)
  }

  function Created(m: Manager, k: Key, listens: bool): Manager {
    if k in m.entries then CreateDevice(m, k, listens) else m
  }

  ghost predicate ListInv(m: Manager) {
    && (forall k :: k in m.devices <==> k in m.entries)
    && (forall i, j :: 0 <= i < j < |m.devices| ==> m.devices[i] != m.devices[j])
  }

  /** The walk over the whole list from position i; it breaks off, returning true, when there is no socket. */
  function Walk(m: Manager, i: nat, probes: seq<Probe>): (Manager, bool)
    requires i <= |m.devices| == |probes|
    decreases |m.devices| - i
  {
    if i == |m.devices| then (m, false)
    else
      match probes[i]
      case NoSocket => (m, true)
      case Unavailable => Walk(m, i + 1, probes)
      case Available(listens) => Walk(Created(m, m.devices[i], listens), i + 1, probes)
  }

  predicate AnyPending(m: Manager) {
    exists k :: k in m.entries && m.entries[k].pending
  }

  function CheckInterfaces(m: Manager, probes: seq<Probe>): Manager
    requires |m.devices| == |probes|
  {
    var (m1, early) := Walk(m, 0, probes);
    if early || AnyPending(m1) then m1 else m1.(checkId := 0, timers := m1.timers - {m.checkId})
  }

  /** The walk comes to this entry: there was a socket for each before it. */
  predicate Reached(probes: seq<Probe>, i: nat, j: nat) {
    forall l :: i <= l <= j && l < |probes| ==> !probes[l].NoSocket?
  }

  /** An entry whose address is free: nothing is pending any more, and if its sockets can be made it listens and, for an
      RNDIS device, has had its first trigger and has a retry timer of its own. */
  predicate SetUp(m: Manager, m1: Manager, k: Key, listens: bool) {
    && k in m.entries && k in m1.entries
    && var e, e1 := m.entries[k], m1.entries[k];
    && !e1.pending && e1.device == e.device && e1.rndis == e.rndis && e1.conns == e.conns
    && e1.listening == (e.listening || listens)
    && if listens && e.rndis then
         && e1.triggers == e.triggers + 1 && e1.retryCount == 0 && e1.retryId >= m.nextTimer
         && e1.retryId in m1.timers && m1.timers[e1.retryId] == RetryTimer(k)
       else e1.triggers == e.triggers && e1.retryCount == e.retryCount && e1.retryId == e.retryId
  }

  /** The walk sets up each entry it comes to whose address is free, and leaves all others as they were; it breaks off
      exactly if there is no socket for one. */
  lemma {:induction false} WalkSetsUp(m: Manager, i: nat, probes: seq<Probe>, j: nat)
    requires ListInv(m) && i <= |m.devices| == |probes| && j < |probes|
    ensures var (m1, early) := Walk(m, i, probes);
            && (early <==> exists l :: i <= l < |probes| && probes[l].NoSocket?)
            && TimersGrow(m, m1)
            && if i <= j && Reached(probes, i, j) && probes[j].Available?
               then SetUp(m, m1, m.devices[j], probes[j].listens)
               else m1.entries[m.devices[j]] == m.entries[m.devices[j]]
    decreases |m.devices| - i
  {
    hide CreateDevice, SetUp, TimersGrow;
    GrowsOn(m, m, m);
    assert m.devices[j] in m.entries;
    if i < |m.devices| && probes[i].Available? {
      var k := m.devices[i];
      var m0 := CreateDevice(m, k, probes[i].listens);
      CreateSetsUp(m, k, probes[i].listens);
      SameKeys(m, m0);
      WalkSetsUp(m0, i + 1, probes, j);
      var m1 := Walk(m0, i + 1, probes).0;
      GrowsOn(m, m0, m1);
      if j == i {
        SetUpStays(m, m0, m1, k, probes[i].listens);
      } else {
        SetUpLater(m, m0, m1, m.devices[j], probes[j]);
      }
    } else if i < |m.devices| && !probes[i].NoSocket? {
      WalkSetsUp(m, i + 1, probes, j);
    }
  }

  predicate TimersGrow(m: Manager, m1: Manager) {
    && m.nextTimer <= m1.nextTimer && m1.entries.Keys == m.entries.Keys
    && (forall id :: id in m.timers && id < m.nextTimer ==> id in m1.timers && m1.timers[id] == m.timers[id])
  }

  lemma GrowsOn(m: Manager, m0: Manager, m1: Manager)
    ensures TimersGrow(m, m)
    ensures TimersGrow(m, m0) && TimersGrow(m0, m1) ==> TimersGrow(m, m1)
  {
  }

  lemma CreateSetsUp(m: Manager, k: Key, listens: bool)
    requires k in m.entries
    ensures var m0 := CreateDevice(m, k, listens);
            && SetUp(m, m0, k, listens) && TimersGrow(m, m0) && m0.devices == m.devices
            && m0.entries.Keys == m.entries.Keys
            && (listens && m.entries[k].rndis ==> m0.entries[k].retryId < m0.nextTimer)
            && forall l :: l in m.entries && l != k ==> m0.entries[l] == m.entries[l]
  {
  }

  lemma SetUpStays(m: Manager, m0: Manager, m1: Manager, k: Key, listens: bool)
    requires SetUp(m, m0, k, listens) && TimersGrow(m0, m1) && k in m1.entries && m1.entries[k] == m0.entries[k]
    requires listens && m.entries[k].rndis ==> m0.entries[k].retryId < m0.nextTimer
    ensures SetUp(m, m1, k, listens)
  {
  }

  lemma SetUpLater(m: Manager, m0: Manager, m1: Manager, l: Key, p: Probe)
    requires l in m.entries && l in m0.entries && m0.entries[l] == m.entries[l] && TimersGrow(m, m0)
    ensures p.Available? && SetUp(m0, m1, l, p.listens) ==> SetUp(m, m1, l, p.listens)
  {
  }

  lemma SameKeys(m: Manager, m0: Manager)
    requires ListInv(m) && m0.devices == m.devices && m0.entries.Keys == m.entries.Keys
    ensures ListInv(m0)
  {
    assert forall k :: k in m0.entries <==> k in m0.entries.Keys;
  }

  // ---- The other callbacks ----

  function Plugged(m: Manager, rndis: bool): Manager {
    var m1 := m.(devices := m.devices + [m.nextKey], nextKey := m.nextKey + 1,
                 entries := m.entries[m.nextKey := Entry(rndis, true, false, NoDevice, 0, 0, 0, NoConns)]);
    if m.checkId > 0 then m1
    else m1.(checkId := m.nextTimer, timers := m.timers[m.nextTimer := CheckTimer], nextTimer := m.nextTimer + 1)
  }

  function Retry(m: Manager, k: Key): Manager
    requires k in m.entries
  {
    var e := m.entries[k];
    if e.device != NoDevice || e.retryCount >= MAX_RETRIES then
      m.(entries := m.entries[k := e.(retryId := 0)], timers := m.timers - {e.retryId})
    else m.(entries := m.entries[k := e.(retryCount := e.retryCount + 1, triggers := e.triggers + 1)])
  }

  /** A later connection to port 990 is taken for one of an RNDIS device whatever the device is. */
  function HandedOver(e: Entry): Entry {
    var c := e.conns;
    e.(conns := if c.legacy then c.(miscast := c.miscast + 1) else c.(handed := c.handed + 1))
  }

  /** A device connects to the entry's service; `creates`: an object for it can be made. */
  function Incoming(m: Manager, k: Key, port: nat, creates: bool): Manager
    requires k in m.entries
  {
    var e := m.entries[k];
    var d := if creates then Opening else NoDevice;
    if e.device != NoDevice then (if port == 990 then m.(entries := m.entries[k := HandedOver(e)]) else m)
    else if port == 5679 then m.(entries := m.entries[k := e.(device := d, conns := e.conns.(legacy := creates))])
    else if port == 990 then
      m.(entries := m.entries[k := e.(device := d, retryId := 0)], timers := m.timers - {e.retryId})
    else m
  }

  function Without(devices: seq<Key>, k: Key): seq<Key> {
    if devices == [] then [] else if devices[0] == k then devices[1..] else [devices[0]] + Without(devices[1..], k)
  }

  function Lost(m: Manager, k: Key): Manager
    requires k in m.entries
  {
    m.(devices := Without(m.devices, k), entries := m.entries - {k}, timers := m.timers - {m.entries[k].retryId})
  }

  datatype Event =
    | Plug(rndis: bool)
    | CheckTick(probes: seq<Probe>)
    | RetryTick(id: nat)
    | Connect(k: Key, port: nat, creates: bool)
    | Export(k: Key, path: Path)
    | Disconnect(k: Key)

  /** The paths of the exported devices. */
  function Ready(m: Manager): set<Path> {
    set k | k in m.entries && m.entries[k].device.Exported? :: m.entries[k].device.path
  }

  /** From position i on, no entry that listens already is found available. */
  predicate ProbesFit(m: Manager, i: nat, probes: seq<Probe>)
    requires i <= |m.devices| == |probes|
  {
    forall j :: i <= j < |probes| && m.devices[j] in m.entries && m.entries[m.devices[j]].listening ==>
      !probes[j].Available?
  }

  /** A bind fails while the entry's own service listens; a timer fires while it is live; a path can be
      exported by one object at a time; an object is exported once and lost once. */
  ghost predicate Enabled(m: Manager, e: Event) {
    match e
    case Plug(_) => true
    case CheckTick(probes) =>
      m.checkId in m.timers && m.timers[m.checkId].CheckTimer? && |probes| == |m.devices| && ProbesFit(m, 0, probes)
    case RetryTick(id) => id in m.timers && m.timers[id].RetryTimer?
    case Connect(k, _, _) => k in m.entries && m.entries[k].listening
    case Export(k, path) => k in m.entries && m.entries[k].device.Opening? && path !in Ready(m)
    case Disconnect(k) => k in m.entries && !m.entries[k].device.NoDevice?
  }

  function Step(m: Manager, e: Event): Manager
    requires Enabled(m, e)
  {
    match e
    case Plug(rndis) => Plugged(m, rndis)
    case CheckTick(probes) => CheckInterfaces(m, probes)
    // the timer's entry is used without a look whether it still exists
    case RetryTick(id) => if m.timers[id].key in m.entries then Retry(m, m.timers[id].key) else m
    case Connect(k, port, creates) => Incoming(m, k, port, creates)
    case Export(k, path) => m.(entries := m.entries[k := m.entries[k].(device := Exported(path))])
    case Disconnect(k) => Lost(m, k)
  }

  // ---- Invariant ----

  predicate EntryInv(k: Key, e: Entry, timers: map<nat, Timer>) {
    && (e.retryId > 0 ==> e.retryId in timers && timers[e.retryId] == RetryTimer(k) && e.listening && e.rndis)
    && e.triggers == (if e.listening && e.rndis then 1 + e.retryCount else 0)
    && e.retryCount <= MAX_RETRIES
    && (e.pending ==> !e.listening)
    && (!e.listening ==> e.device == NoDevice)
  }

  /** The timer is the interface check's, or the one an existing entry knows as its own. */
  predicate TimerInv(m: Manager, id: nat)
    requires id in m.timers
  {
    && 0 < id < m.nextTimer
    && match m.timers[id]
       case CheckTimer => id == m.checkId
       case RetryTimer(k) => k in m.entries && m.entries[k].retryId == id
  }

  ghost predicate Inv(m: Manager) {
    && ListInv(m)
    && (forall k :: k in m.entries ==> EntryInv(k, m.entries[k], m.timers) && k < m.nextKey)
    && (forall id :: id in m.timers ==> TimerInv(m, id))
    && (m.checkId > 0 ==> m.checkId in m.timers && m.timers[m.checkId].CheckTimer?)
    && (forall k :: k in m.entries && m.entries[k].pending ==> m.checkId > 0)
    && m.nextTimer > 0
  }

  lemma StartInv()
    ensures Inv(Start())
  {
  }

  lemma CheckTimerKeeps(m: Manager)
    requires Inv(m) && m.checkId == 0
    ensures Inv(m.(checkId := m.nextTimer, timers := m.timers[m.nextTimer := CheckTimer], nextTimer := m.nextTimer + 1))
  {
    hide ListInv;
    SameList(m, m.(checkId := m.nextTimer, timers := m.timers[m.nextTimer := CheckTimer],
        nextTimer := m.nextTimer + 1));
  }

  lemma NewEntryKeeps(m: Manager, e: Entry)
    requires Inv(m) && m.checkId > 0 && e.retryId == 0 && EntryInv(m.nextKey, e, m.timers)
    ensures Inv(m.(devices := m.devices + [m.nextKey], entries := m.entries[m.nextKey := e], nextKey := m.nextKey + 1))
  {
    hide EntryInv;
    forall i | 0 <= i < |m.devices| ensures m.devices[i] != m.nextKey {
      assert m.devices[i] in m.entries;
    }
  }

  lemma PlugKeeps(m: Manager, rndis: bool)
    requires Inv(m)
    ensures Inv(Plugged(m, rndis))
  {
    hide ListInv, TimerInv;
    var e := Entry(rndis, true, false, NoDevice, 0, 0, 0, NoConns);
    if m.checkId > 0 {
      NewEntryKeeps(m, e);
    } else {
      CheckTimerKeeps(m);
      NewEntryKeeps(m.(checkId := m.nextTimer, timers := m.timers[m.nextTimer := CheckTimer],
          nextTimer := m.nextTimer + 1), e);
    }
  }

  /** A changed entry that keeps its timer. */
  lemma UpdateKeeps(m: Manager, k: Key, e: Entry)
    requires Inv(m) && k in m.entries && e.retryId == m.entries[k].retryId && !e.pending && EntryInv(k, e, m.timers)
    ensures Inv(m.(entries := m.entries[k := e]))
  {
    hide EntryInv;
  }

  /** A changed entry whose timer, if it had one, is removed. */
  lemma StopKeeps(m: Manager, k: Key, e: Entry)
    requires Inv(m) && k in m.entries && e.retryId == 0 && !e.pending && EntryInv(k, e, m.timers)
    ensures Inv(m.(entries := m.entries[k := e], timers := m.timers - {m.entries[k].retryId}))
  {
    hide ListInv;
    SameList(m, m.(entries := m.entries[k := e], timers := m.timers - {m.entries[k].retryId}));
  }

  lemma SameList(m: Manager, m1: Manager)
    requires ListInv(m) && m1.devices == m.devices && m1.entries.Keys == m.entries.Keys
    ensures ListInv(m1)
  {
    assert forall k :: k in m1.entries <==> k in m1.entries.Keys;
  }

  /** A changed entry that gets a new timer. */
  lemma BeginKeeps(m: Manager, k: Key, e: Entry)
    requires Inv(m) && k in m.entries && m.entries[k].retryId == 0 && e.retryId == m.nextTimer && !e.pending
    requires EntryInv(k, e, m.timers[m.nextTimer := RetryTimer(k)])
    ensures Inv(m.(entries := m.entries[k := e], timers := m.timers[m.nextTimer := RetryTimer(k)],
        nextTimer := m.nextTimer + 1))
  {
    hide ListInv;
    SameList(m, m.(entries := m.entries[k := e], timers := m.timers[m.nextTimer := RetryTimer(k)],
        nextTimer := m.nextTimer + 1));
  }

  lemma CreateKeeps(m: Manager, k: Key, listens: bool)
    requires Inv(m) && k in m.entries && !m.entries[k].listening
    ensures Inv(CreateDevice(m, k, listens))
  {
    hide ListInv, TimerInv;
    var e := m.entries[k].(pending := false);
    if listens && e.rndis {
      BeginKeeps(m, k, e.(listening := true, retryId := m.nextTimer, retryCount := 0, triggers := e.triggers + 1));
    } else {
      UpdateKeeps(m, k, if listens then e.(listening := true) else e);
    }
  }

  lemma RetryKeeps(m: Manager, id: nat)
    requires Inv(m) && Enabled(m, RetryTick(id))
    ensures Inv(Step(m, RetryTick(id)))
  {
    hide ListInv, Ready;
    var k := m.timers[id].key;
    var e := m.entries[k];
    if e.device != NoDevice || e.retryCount >= MAX_RETRIES {
      StopKeeps(m, k, e.(retryId := 0));
    } else {
      UpdateKeeps(m, k, e.(retryCount := e.retryCount + 1, triggers := e.triggers + 1));
    }
  }

  lemma IncomingKeeps(m: Manager, k: Key, port: nat, creates: bool)
    requires Inv(m) && k in m.entries && m.entries[k].listening
    ensures Inv(Incoming(m, k, port, creates))
  {
    hide ListInv, TimerInv;
    var e := m.entries[k];
    var d := if creates then Opening else NoDevice;
    if e.device != NoDevice {
      UpdateKeeps(m, k, HandedOver(e));
    } else {
      UpdateKeeps(m, k, e.(device := d, conns := e.conns.(legacy := creates)));
      StopKeeps(m, k, e.(device := d, retryId := 0));
    }
  }

  lemma {:induction false} WithoutIs(s: seq<Key>, k: Key)
    requires forall i, j :: 0 <= i < j < |s| ==> s[i] != s[j]
    ensures forall x :: x in Without(s, k) <==> x in s && x != k
    ensures forall i, j :: 0 <= i < j < |Without(s, k)| ==> Without(s, k)[i] != Without(s, k)[j]
  {
    if s != [] && s[0] != k {
      WithoutIs(s[1..], k);
      forall i, j | 0 <= i < j < |Without(s, k)| ensures Without(s, k)[i] != Without(s, k)[j] {
        assert Without(s, k)[j] in Without(s[1..], k);
      }
    }
  }

  lemma LostKeeps(m: Manager, k: Key)
    requires Inv(m) && k in m.entries
    ensures Inv(Lost(m, k))
  {
    hide Without;
    WithoutIs(m.devices, k);
  }

  lemma ExportKeeps(m: Manager, k: Key, path: Path)
    requires Inv(m) && Enabled(m, Export(k, path))
    ensures Inv(Step(m, Export(k, path)))
  {
    hide ListInv, TimerInv, Ready;
    UpdateKeeps(m, k, m.entries[k].(device := Exported(path)));
  }

  lemma {:induction false} WalkKeeps(m: Manager, i: nat, probes: seq<Probe>)
    requires Inv(m) && i <= |m.devices| == |probes| && ProbesFit(m, i, probes)
    ensures Inv(Walk(m, i, probes).0)
    ensures Walk(m, i, probes).0.checkId == m.checkId
    decreases |m.devices| - i
  {
    hide EntryInv, TimerInv;
    if i < |m.devices| && !probes[i].NoSocket? {
      if probes[i].Available? {
        CreateKeeps(m, m.devices[i], probes[i].listens);
        WalkKeeps(CreateDevice(m, m.devices[i], probes[i].listens), i + 1, probes);
      } else {
        WalkKeeps(m, i + 1, probes);
      }
    }
  }

  lemma CheckKeeps(m: Manager, probes: seq<Probe>)
    requires Inv(m) && Enabled(m, CheckTick(probes))
    ensures Inv(Step(m, CheckTick(probes)))
  {
    hide Walk, EntryInv, Ready;
    WalkKeeps(m, 0, probes);
    var m1 := Walk(m, 0, probes).0;
    if !Walk(m, 0, probes).1 && !AnyPending(m1) {
      EndKeeps(m1);
    }
  }

  /** The check timer ends. */
  lemma EndKeeps(m: Manager)
    requires Inv(m) && m.checkId in m.timers && !AnyPending(m)
    ensures Inv(m.(checkId := 0, timers := m.timers - {m.checkId}))
  {
    hide ListInv;
    var m1 := m.(checkId := 0, timers := m.timers - {m.checkId});
    SameList(m, m1);
    forall k | k in m1.entries ensures EntryInv(k, m1.entries[k], m1.timers) {
      assert EntryInv(k, m.entries[k], m.timers);
    }
  }

  lemma KeepsInv(m: Manager, e: Event)
    requires Inv(m) && Enabled(m, e)
    ensures Inv(Step(m, e))
  {
    hide EntryInv, TimerInv, ListInv, Plugged, CheckInterfaces, Retry, Incoming, Lost, Ready;
    match e
    case Plug(rndis) => PlugKeeps(m, rndis);
    case CheckTick(probes) => CheckKeeps(m, probes);
    case RetryTick(id) => RetryKeeps(m, id);
    case Connect(k, port, creates) => IncomingKeeps(m, k, port, creates);
    case Export(k, path) => ExportKeeps(m, k, path);
    case Disconnect(k) => LostKeeps(m, k);
  }

  // ---- Runs ----

  ghost predicate IsRun(es: seq<Event>, ms: seq<Manager>) {
    && |ms| == |es| + 1
    && ms[0] == Start()
    && forall i :: 0 <= i < |es| ==> Enabled(ms[i], es[i]) && ms[i + 1] == Step(ms[i], es[i])
  }

  lemma {:induction false} RunInv(es: seq<Event>, ms: seq<Manager>, k: nat)
    requires IsRun(es, ms) && k <= |es|
    ensures Inv(ms[k])
  {
    hide Step, Inv, Enabled, ListInv;
    if k == 0 {
      StartInv();
    } else {
      RunInv(es, ms, k - 1);
      KeepsInv(ms[k - 1], es[k - 1]);
    }
  }

  /** In every reachable state: a pending interface has the check timer; an entry has a live retry timer exactly
      when its trigger_retry_id says so, and it is that one; no timer is left of an entry that is gone; and a
      device gets no more than the first trigger and ten retries. */
  lemma TimersMatchEntries(es: seq<Event>, ms: seq<Manager>, n: nat)
    requires IsRun(es, ms) && n <= |es|
    ensures var m := ms[n];
            && (forall k :: k in m.entries && m.entries[k].pending ==>
                  m.checkId in m.timers && m.timers[m.checkId] == CheckTimer)
            && (m.checkId > 0 <==> CheckTimer in m.timers.Values)
            && (forall k :: k in m.entries ==> (m.entries[k].retryId > 0 <==> RetryTimer(k) in m.timers.Values))
            && (forall id, k :: id in m.timers && m.timers[id] == RetryTimer(k) ==>
                  k in m.entries && m.entries[k].retryId == id)
            && (forall k :: k in m.entries ==> m.entries[k].triggers <= 11)
  {
    hide Step, Enabled, ListInv;
    RunInv(es, ms, n);
  }

  /** A retry timer that fires either ends or has sent one more of at most ten retries. */
  lemma RetryProgress(m: Manager, id: nat)
    requires Inv(m) && Enabled(m, RetryTick(id))
    ensures var k, m1 := m.timers[id].key, Step(m, RetryTick(id));
            && k in m.entries && k in m1.entries
            && if m.entries[k].device == NoDevice && m.entries[k].retryCount < 10
               then id in m1.timers && m1.entries[k].triggers == m.entries[k].triggers + 1
                    && m1.entries[k].retryCount == m.entries[k].retryCount + 1
               else id !in m1.timers && m1.entries[k].triggers == m.entries[k].triggers
  {
    hide ListInv, Ready;
    assert EntryInv(m.timers[id].key, m.entries[m.timers[id].key], m.timers);
  }

  // ---- What each callback does ----

  /** A new interface is listed last, and pending; it does not listen and has no device; the check timer runs. */
  lemma PlugAdds(m: Manager, rndis: bool)
    requires Inv(m)
    ensures var m1 := Step(m, Plug(rndis));
            var k := m.nextKey;
            && k !in m.entries && m1.devices == m.devices + [k] && m1.entries.Keys == m.entries.Keys + {k}
            && m1.entries[k].pending && m1.entries[k].rndis == rndis && !m1.entries[k].listening
            && m1.entries[k].device == NoDevice && m1.entries[k].triggers == 0
            && m1.checkId in m1.timers && m1.timers[m1.checkId] == CheckTimer
            && (m.checkId > 0 ==> m1.checkId == m.checkId)
  {
    hide TimerInv, EntryInv;
  }

  /** The first connection to one of the two ports makes the device, if it can be made, and on port 990 ends the
      retries.  Any other connection changes neither the device nor the retries. */
  lemma ConnectMakes(m: Manager, k: Key, port: nat, creates: bool)
    requires Inv(m) && Enabled(m, Connect(k, port, creates))
    ensures var e, m1 := m.entries[k], Step(m, Connect(k, port, creates));
            && k in m1.entries && m1.devices == m.devices
            && var e1 := m1.entries[k];
               if e.device == NoDevice && (port == 990 || port == 5679) then
                 && e1.device == (if creates then Opening else NoDevice)
                 && e1.retryId == (if port == 990 then 0 else e.retryId)
                 && m1.timers == if port == 990 then m.timers - {e.retryId} else m.timers
               else e1.device == e.device && e1.retryId == e.retryId && m1.timers == m.timers
  {
    hide ListInv, TimerInv, EntryInv;
  }

  /** A callback that concerns one entry leaves all others as they were; a lost device takes its entry out. */
  lemma OthersStay(m: Manager, e: Event, l: Key)
    requires Inv(m) && Enabled(m, e) && !e.CheckTick?
    requires l in m.entries && (if e.RetryTick? then m.timers[e.id].key != l else e.Plug? || e.k != l)
    ensures l in Step(m, e).entries && Step(m, e).entries[l] == m.entries[l]
    ensures e.Disconnect? ==> e.k !in Step(m, e).entries && e.k !in Step(m, e).devices
  {
    hide TimerInv, EntryInv, Ready;
    if e.Disconnect? {
      WithoutIs(m.devices, e.k);
    }
  }

  /** The interface check ends exactly when it has come to every entry and none is pending any more. */
  lemma CheckEndsIff(m: Manager, probes: seq<Probe>)
    requires Inv(m) && Enabled(m, CheckTick(probes))
    ensures var m1 := Step(m, CheckTick(probes));
            && (m1.checkId == 0 <==> NoSocket !in probes && forall k :: k in m1.entries ==> !m1.entries[k].pending)
            && (m1.checkId > 0 ==> m1.checkId == m.checkId)
  {
    hide Walk, Ready, EntryInv;
    WalkKeeps(m, 0, probes);
    if |probes| > 0 {
      WalkSetsUp(m, 0, probes, 0);
    } else {
      EmptyWalk(m, probes);
    }
  }

  lemma EmptyWalk(m: Manager, probes: seq<Probe>)
    requires |m.devices| == |probes| == 0
    ensures Walk(m, 0, probes) == (m, false)
  {
  }

  // ---- Connections of the wrong kind ----

  function ConnsOf(m: Manager, k: Key): Conns {
    if k in m.entries then m.entries[k].conns else NoConns
  }

  predicate HasDevice(m: Manager, k: Key) {
    k in m.entries && m.entries[k].device != NoDevice
  }

  /** The step makes a device for the entry of a connection to the legacy port. */
  predicate MakesLegacy(m: Manager, e: Event, k: Key) {
    e == Connect(k, 5679, true) && !HasDevice(m, k)
  }

  predicate MakesRndis(m: Manager, e: Event, k: Key) {
    e == Connect(k, 990, true) && !HasDevice(m, k)
  }

  predicate HandsOver(m: Manager, e: Event, k: Key) {
    e.Connect? && e.k == k && e.port == 990 && HasDevice(m, k) && !ConnsOf(m, k).legacy
  }

  predicate Miscasts(m: Manager, e: Event, k: Key) {
    e.Connect? && e.k == k && e.port == 990 && HasDevice(m, k) && ConnsOf(m, k).legacy
  }

  predicate ConnsInv(m: Manager, k: Key) {
    k in m.entries && m.entries[k].device == NoDevice ==> m.entries[k].conns == NoConns
  }

  predicate SameDevices(m: Manager, m1: Manager) {
    && m1.entries.Keys == m.entries.Keys
    && forall k :: k in m.entries ==>
         m1.entries[k].device == m.entries[k].device && m1.entries[k].conns == m.entries[k].conns
  }

  lemma {:induction false} WalkKeepsDevices(m: Manager, i: nat, probes: seq<Probe>)
    requires i <= |m.devices| == |probes|
    ensures SameDevices(m, Walk(m, i, probes).0)
    decreases |m.devices| - i
  {
    hide Created, SameDevices;
    if i == |m.devices| || probes[i].NoSocket? {
      SameDevicesOn(m, m, m);
    } else if probes[i].Available? {
      var m1 := Created(m, m.devices[i], probes[i].listens);
      CreatedKeepsDevices(m, m.devices[i], probes[i].listens);
      WalkKeepsDevices(m1, i + 1, probes);
      SameDevicesOn(m, m1, Walk(m1, i + 1, probes).0);
    } else {
      WalkKeepsDevices(m, i + 1, probes);
    }
  }

  lemma SameDevicesOn(m: Manager, m1: Manager, m2: Manager)
    ensures SameDevices(m, m)
    ensures SameDevices(m, m1) && SameDevices(m1, m2) ==> SameDevices(m, m2)
  {
  }

  lemma CreatedKeepsDevices(m: Manager, k: Key, listens: bool)
    ensures SameDevices(m, Created(m, k, listens)) && Created(m, k, listens).devices == m.devices
  {
  }

  lemma CheckKeepsDevices(m: Manager, probes: seq<Probe>)
    requires |m.devices| == |probes|
    ensures SameDevices(m, CheckInterfaces(m, probes))
  {
    hide Walk, SameDevices;
    WalkKeepsDevices(m, 0, probes);
    SameDevicesOn(m, m, m);
    EndKeepsDevices(m, Walk(m, 0, probes).0, m.checkId);
  }

  lemma EndKeepsDevices(m: Manager, m1: Manager, id: nat)
    requires SameDevices(m, m1)
    ensures SameDevices(m, m1.(checkId := 0, timers := m1.timers - {id}))
  {
  }

  lemma ConnsStep(m: Manager, e: Event, k: Key)
    requires Inv(m) && ConnsInv(m, k) && Enabled(m, e) && k in Step(m, e).entries
    ensures ConnsInv(Step(m, e), k)
    ensures ConnsOf(Step(m, e), k).legacy <==> ConnsOf(m, k).legacy || MakesLegacy(m, e, k)
    ensures ConnsOf(Step(m, e), k).miscast == ConnsOf(m, k).miscast + Bit(Miscasts(m, e, k))
    ensures ConnsOf(Step(m, e), k).handed == ConnsOf(m, k).handed + Bit(HandsOver(m, e, k))
    ensures HasDevice(Step(m, e), k) <==> HasDevice(m, k) || MakesLegacy(m, e, k) || MakesRndis(m, e, k)
    ensures k !in m.entries ==> k == m.nextKey && ConnsOf(Step(m, e), k) == NoConns
  {
    hide ListInv, TimerInv, EntryInv, CheckInterfaces, Ready, Without;
    if e.CheckTick? {
      CheckKeepsDevices(m, e.probes);
    }
  }

  lemma {:induction false} KeysGrow(es: seq<Event>, ms: seq<Manager>, i: nat, j: nat)
    requires IsRun(es, ms) && i <= j <= |es|
    ensures ms[i].nextKey <= ms[j].nextKey
    ensures forall k :: k in ms[i].entries ==> k < ms[i].nextKey
    decreases j
  {
    hide Inv, Enabled, Retry, Incoming, Lost, Created;
    RunInv(es, ms, i);
    KeysOf(ms[i]);
    if i < j {
      KeysGrow(es, ms, i, j - 1);
      KeyStep(ms[j - 1], es[j - 1]);
    }
  }

  lemma KeysOf(m: Manager)
    requires Inv(m)
    ensures forall k :: k in m.entries ==> k < m.nextKey
  {
  }

  lemma KeyStep(m: Manager, e: Event)
    requires Enabled(m, e)
    ensures m.nextKey <= Step(m, e).nextKey
  {
    hide Ready, ProbesFit;
    if e.CheckTick? {
      WalkKeepsKey(m, 0, e.probes);
    }
  }

  lemma {:induction false} WalkKeepsKey(m: Manager, i: nat, probes: seq<Probe>)
    requires i <= |m.devices| == |probes|
    ensures Walk(m, i, probes).0.nextKey == m.nextKey
    decreases |m.devices| - i
  {
    if i < |m.devices| && !probes[i].NoSocket? {
      WalkKeepsKey(if probes[i].Available? then Created(m, m.devices[i], probes[i].listens) else m, i + 1, probes);
    }
  }

  predicate ToRndisPort(e: Event, k: Key) {
    e.Connect? && e.k == k && e.port == 990
  }

  /** An entry's device is of the legacy kind exactly if a connection to port 5679 made it, and a connection is
      handed to a device of the wrong kind exactly if one comes to port 990 after that. */
  lemma {:induction false} MiscastIff(es: seq<Event>, ms: seq<Manager>, n: nat, k: Key)
    requires IsRun(es, ms) && n <= |es| && k in ms[n].entries
    ensures ConnsInv(ms[n], k)
    ensures HasDevice(ms[n], k) && !ConnsOf(ms[n], k).legacy <==> exists i :: 0 <= i < n && MakesRndis(ms[i], es[i], k)
    ensures ConnsOf(ms[n], k).handed > 0 <==>
            exists i, j :: 0 <= i < j < n && MakesRndis(ms[i], es[i], k) && ToRndisPort(es[j], k)
    ensures ConnsOf(ms[n], k).legacy <==> exists i :: 0 <= i < n && MakesLegacy(ms[i], es[i], k)
    ensures ConnsOf(ms[n], k).miscast > 0 <==>
            exists i, j :: 0 <= i < j < n && MakesLegacy(ms[i], es[i], k) && ToRndisPort(es[j], k)
  {
    hide Step, Inv, Enabled;
    if n > 0 {
      var m, e := ms[n - 1], es[n - 1];
      RunInv(es, ms, n - 1);
      if k in m.entries {
        MiscastIff(es, ms, n - 1, k);
      }
      ConnsStep(m, e, k);
      forall i | 0 <= i < n && k in ms[i].entries ensures k in m.entries {
        KeysGrow(es, ms, i, n - 1);
      }
      MadeFromEntry(es, ms, k);
    }
  }

  lemma MadeFromEntry(es: seq<Event>, ms: seq<Manager>, k: Key)
    requires IsRun(es, ms)
    ensures forall i :: 0 <= i < |es| && (MakesLegacy(ms[i], es[i], k) || MakesRndis(ms[i], es[i], k)) ==>
              k in ms[i].entries
  {
    hide Step;
  }
}
