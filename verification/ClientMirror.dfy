/**
 * The RAPI client's list of devices as a mirror of the daemon's.  Daemon, bus and client are processes with an
 * in-order queue of signals to the client, the bus's about the daemon's name and the daemon's about its devices.
 * The client makes a proxy for the daemon, takes a snapshot, and follows the signals its proxies get.
 */
module ClientMirror {
  import opened Basics
  import opened Wrappers
  import opened DeviceManager
  import opened ManagerCallbacks
  import opened DeviceSignals

  /** The daemon has taken its name, or lost it; or a signal of its own, for the proxies there were at the time. */
  datatype Item = NameTaken | NameLost | Told(s: Signal, to: set<nat>)

  /** Not yet listening for the daemon's name; not yet having asked whether it is there; making a proxy; waiting
      for the snapshot, where `base` was ready when the proxy was made; or back in its main loop, where `twice`
      had become ready between the last proxy and its snapshot. */
  datatype Phase = Off | Asking | Connecting | Calling(base: set<Path>) | Running(twice: set<Path>)

  /** proxies: those with a handler; current: the one in dev_mgr_proxy; next: the number of the next.
      heard: whether the daemon is there by the signals handled so far. */
  datatype Client = Client(phase: Phase, proxies: set<nat>, current: Option<nat>, next: nat, heard: bool,
                           list: seq<Path>)

  datatype World = World(up: bool, mgr: Manager, queue: seq<Item>, client: Client)

  function Begin(): World {
    World(false, Start(), [], Client(Off, {}, None, 0, false, []))
  }

  datatype Act = Daemon(e: Event) | DaemonStarts | DaemonDies | Init | Ask | Subscribe | Snapshot | Deliver

  /** Signals wait while the client blocks in a call.  Every path the daemon exports has its prefix. */
  ghost predicate CanAct(w: World, a: Act) {
    match a
    case Daemon(e) => w.up && Enabled(w.mgr, e) && (e.Export? ==> DCCM_PREFIX <= e.path)
    case DaemonStarts => !w.up
    case DaemonDies => w.up
    case Init => w.client.phase == Off
    case Ask => w.client.phase == Asking
    case Subscribe => w.client.phase == Connecting
    case Snapshot => w.client.phase.Calling?
    case Deliver => w.client.phase.Running? && w.queue != []
  }

  function Named(w: World, i: Item): seq<Item> {
    if w.client.phase == Off then w.queue else w.queue + [i]
  }

  function Emitted(w: World, out: Emission): seq<Item> {
    match out
    case Quiet => w.queue
    case Emit(s) => if w.client.proxies == {} then w.queue else w.queue + [Told(s, w.client.proxies)]
  }

  /** A signal runs one handler for each of its proxies that still has one. */
  function HandleTimes(list: seq<Path>, s: Signal, n: nat): seq<Path>
    decreases n
  {
    if n == 0 then list else HandleTimes(Handle(list, s), s, n - 1)
  }

  function Delivered(c: Client, i: Item): Client {
    match i
    // another proxy is made whether or not there is one
    case NameTaken => c.(phase := Connecting, heard := true)
    case NameLost =>
      c.(phase := Running({}), heard := false, current := None, list := WithoutDccm(c.list),
         proxies := if c.current.Some? then c.proxies - {c.current.value} else c.proxies)
    case Told(s, to) => c.(list := HandleTimes(c.list, s, |to * c.proxies|))
  }

  ghost function Acted(w: World, a: Act): World
    requires CanAct(w, a)
  {
    var c := w.client;
    match a
    case Daemon(e) => w.(mgr := Step(w.mgr, e), queue := Emitted(w, Emits(w.mgr, e)))
    case DaemonStarts => w.(up := true, queue := Named(w, NameTaken))
    case DaemonDies => World(false, Start(), Named(w, NameLost), c)
    case Init => w.(client := c.(phase := Asking, heard := w.up))
    case Ask => w.(client := c.(phase := if w.up then Connecting else Running({})))
    case Subscribe =>
      w.(client := c.(phase := Calling(Ready(w.mgr)), proxies := c.proxies + {c.next}, current := Some(c.next),
                      next := c.next + 1))
    case Snapshot =>
      if w.up then
        w.(client := c.(phase := Running(Ready(w.mgr) - c.phase.base),
                        list := c.list + PathsOf(w.mgr.devices, w.mgr.entries)))
      else w.(client := c.(phase := Running({})))
    case Deliver => w.(client := Delivered(c, w.queue[0]), queue := w.queue[1..])
  }

  // ---- The daemon's name ----

  /** The signals about the name that are on their way tell, from `heard` on, of starts and ends by turns. */
  predicate Alternates(heard: bool, queue: seq<Item>, up: bool)
    decreases |queue|
  {
    if queue == [] then heard == up
    else match queue[0]
         case NameTaken => !heard && Alternates(true, queue[1..], up)
         case NameLost => heard && Alternates(false, queue[1..], up)
         case Told(_, _) => Alternates(heard, queue[1..], up)
  }

  lemma {:induction false} AlternatesLater(heard: bool, queue: seq<Item>, up: bool, i: Item)
    requires Alternates(heard, queue, up)
    ensures i.Told? ==> Alternates(heard, queue + [i], up)
    ensures i == NameTaken && !up ==> Alternates(heard, queue + [i], true)
    ensures i == NameLost && up ==> Alternates(heard, queue + [i], false)
    decreases |queue|
  {
    if queue == [] {
      assert [i][1..] == [];
    } else {
      assert (queue + [i])[1..] == queue[1..] + [i];
      AlternatesLater(if queue[0].Told? then heard else queue[0] == NameTaken, queue[1..], up, i);
    }
  }

  lemma {:induction false} AlternatesNames(heard: bool, queue: seq<Item>, up: bool)
    requires Alternates(heard, queue, up)
    ensures !heard && up ==> NameTaken in queue
    ensures heard && NameLost !in queue ==> up && NameTaken !in queue
    ensures heard && !up ==> NameLost in queue
    decreases |queue|
  {
    if queue != [] {
      assert forall i :: i in queue <==> i == queue[0] || i in queue[1..];
      AlternatesNames(if queue[0].Told? then heard else queue[0] == NameTaken, queue[1..], up);
    }
  }

  /** The daemon was not there when the client began to listen for its name, but is when the client asks. */
  predicate Races(w: World, a: Act) {
    a == Ask && w.up && !w.client.heard
  }

  /** One handler at most, and none more to come but in the place of that one. */
  predicate Single(c: Client) {
    && c.proxies <= (if c.current.Some? then {c.current.value} else {})
    && match c.phase
       case Connecting => c.heard && c.current.None?
       case Calling(_) => c.current.Some? ==> c.heard
       case Running(_) => c.current.Some? ==> c.heard
       case _ => true
  }

  predicate Numbered(c: Client, queue: seq<Item>) {
    && (c.current.Some? ==> c.current.value in c.proxies)
    && (forall n :: n in c.proxies ==> n < c.next)
    && (forall i, n :: i in queue && i.Told? && n in i.to ==> n < c.next)
  }

  predicate PhaseInv(w: World) {
    var c := w.client;
    match c.phase
    case Off => w.queue == [] && c.proxies == {} && c.current.None? && c.list == []
    case Asking => c.proxies == {} && c.current.None? && c.list == []
    case Connecting => !c.heard ==> NameTaken in w.queue
    case Calling(_) => c.current.Some? && (!c.heard ==> NameTaken in w.queue)
    case Running(_) =>
      if c.heard then c.current.None? ==> NameLost in w.queue
      else c.current.Some? ==> NameTaken in w.queue
  }

  ghost predicate PrefixInv(w: World) {
    && (forall p :: p in Ready(w.mgr) ==> DCCM_PREFIX <= p)
    && (forall p :: p in w.client.list ==> DCCM_PREFIX <= p)
    && (forall i :: i in w.queue && i.Told? && i.s.Connected? ==> DCCM_PREFIX <= i.s.path)
  }

  ghost predicate DaemonInv(w: World) {
    Inv(w.mgr) && PathInv(w.mgr) && (!w.up ==> w.mgr == Start())
  }

  ghost predicate NamesInv(w: World) {
    PhaseInv(w) && Numbered(w.client, w.queue) && (w.client.phase != Off ==> Alternates(w.client.heard, w.queue, w.up))
  }

  lemma KeepsDaemon(w: World, a: Act)
    requires DaemonInv(w) && CanAct(w, a)
    ensures DaemonInv(Acted(w, a))
  {
    hide Step, Inv, PathInv, Ready, Delivered, PathsOf;
    StartInv();
    StartPaths();
    if a.Daemon? {
      KeepsInv(w.mgr, a.e);
      ReadyStep(w.mgr, a.e);
    }
  }

  lemma KeepsNumbered(w: World, a: Act)
    requires NamesInv(w) && CanAct(w, a)
    ensures Numbered(Acted(w, a).client, Acted(w, a).queue)
  {
    hide Step, Inv, PathInv, Ready, Enabled, PathsOf, HandleTimes, WithoutDccm, Emits, Alternates;
    assert a == Deliver ==> w.queue == [w.queue[0]] + w.queue[1..];
  }

  lemma KeepsNames(w: World, a: Act)
    requires NamesInv(w) && CanAct(w, a)
    ensures NamesInv(Acted(w, a))
  {
    hide Step, Inv, PathInv, Ready, Enabled, PathsOf, HandleTimes, WithoutDccm, Emits, Numbered;
    KeepsNumbered(w, a);
    var c, w1 := w.client, Acted(w, a);
    if c.phase != Off {
      AlternatesNames(c.heard, w.queue, w.up);
      if |w1.queue| > |w.queue| {
        AlternatesLater(c.heard, w.queue, w.up, w1.queue[|w.queue|]);
      }
    }
    assert a == Deliver ==> w.queue == [w.queue[0]] + w1.queue;
  }

  /** There is one handler at most as long as the client does not ask in the race. */
  lemma SingleStep(w: World, a: Act)
    requires NamesInv(w) && CanAct(w, a)
    ensures Single(Acted(w, a).client) <==> Single(w.client) && !Races(w, a)
  {
    hide Step, Inv, PathInv, Ready, Enabled, PathsOf, HandleTimes, WithoutDccm, Emits;
    if w.client.phase != Off {
      AlternatesNames(w.client.heard, w.queue, w.up);
    }
  }

  lemma {:induction false} HandleTimesIn(list: seq<Path>, s: Signal, n: nat, p: Path)
    requires p in HandleTimes(list, s, n)
    ensures p in list || s == Connected(p)
    decreases n
  {
    if n > 0 {
      HandleTimesIn(Handle(list, s), s, n - 1, p);
      if s.Disconnected? && p in Removed(list, s.path) {
        RemovedIn(list, s.path, p);
      }
    }
  }

  lemma KeepsPrefixes(w: World, a: Act)
    requires DaemonInv(w) && PrefixInv(w) && CanAct(w, a)
    ensures PrefixInv(Acted(w, a))
  {
    hide Step, EntryInv, TimerInv, PathInv, Ready, PathsOf, HandleTimes, WithoutDccm;
    var w1 := Acted(w, a);
    NoneReady();
    match a
    case Daemon(e) => ReadyStep(w.mgr, e);
    case Snapshot => PathsAreReady(w.mgr);
    case Deliver =>
      WithoutDccmIn(w.client.list);
      forall p | p in w1.client.list ensures DCCM_PREFIX <= p {
        if w.queue[0].Told? {
          HandleTimesIn(w.client.list, w.queue[0].s, |w.queue[0].to * w.client.proxies|, p);
        }
      }
    case _ =>
  }

  // ---- The mirror of one handler ----

  function SignalsTo(queue: seq<Item>, n: nat): seq<Signal> {
    if queue == [] then []
    else (if queue[0].Told? && n in queue[0].to then [queue[0].s] else []) + SignalsTo(queue[1..], n)
  }

  lemma {:induction false} SignalsLater(queue: seq<Item>, i: Item, n: nat)
    ensures SignalsTo(queue + [i], n) == SignalsTo(queue, n) + SignalsTo([i], n)
  {
    if queue == [] {
      assert [] + [i] == [i];
    } else {
      assert (queue + [i])[1..] == queue[1..] + [i];
      SignalsLater(queue[1..], i, n);
    }
  }

  lemma {:induction false} NoSignals(queue: seq<Item>, n: nat)
    requires forall i :: i in queue && i.Told? ==> n !in i.to
    ensures SignalsTo(queue, n) == []
  {
    if queue != [] {
      NoSignals(queue[1..], n);
    }
  }

  /** Having listed the path once or not at all when the proxy was made, what the signals since then make of it. */
  predicate SinceBase(signals: seq<Signal>, p: Path, before: bool, now: bool) {
    var c0, c1 := Counted(0, signals, p), Counted(1, signals, p);
    if before then (if now then c1 == 1 && c0 <= 1 else c0 == 0 && c1 == 0)
    else (if now then c1 == 2 && c0 == 1 else c0 == 0 && c1 == 1)
  }

  /** What the signals on their way will make of the client's list, until the daemon goes. */
  ghost predicate PathMirrored(w: World, p: Path) {
    w.client.current.Some? && NameLost !in w.queue ==>
      var signals := SignalsTo(w.queue, w.client.current.value);
      match w.client.phase
      case Calling(base) => SinceBase(signals, p, p in base, p in Ready(w.mgr))
      case Running(twice) => Counted(multiset(w.client.list)[p], signals, p) == Bit(p in Ready(w.mgr)) + Bit(p in twice)
      case _ => true
  }

  ghost predicate Mirrored(w: World) {
    && (!w.client.phase.Running? || w.client.current.None? ==> w.client.list == [])
    && forall p :: PathMirrored(w, p)
  }

  ghost predicate WorldInv(w: World) {
    DaemonInv(w) && NamesInv(w) && PrefixInv(w) && (Single(w.client) ==> Mirrored(w))
  }

  /** Then no handler is left over, and the daemon is there as long as no signal says that it has gone. */
  lemma SingleUp(w: World)
    requires NamesInv(w) && Single(w.client) && w.client.current.Some? && NameLost !in w.queue
    ensures w.up && w.client.heard && w.client.proxies == {w.client.current.value} && NameTaken !in w.queue
  {
    AlternatesNames(w.client.heard, w.queue, w.up);
  }

  lemma DaemonMirrors(w: World, e: Event, p: Path)
    requires WorldInv(w) && CanAct(w, Daemon(e)) && Single(w.client)
    ensures PathMirrored(Acted(w, Daemon(e)), p)
  {
    hide Step, Inv, PathInv, Ready, Counted, Enabled, Emits, Alternates;
    ReadyStep(w.mgr, e);
    assert PathMirrored(w, p);
    var out := Emits(w.mgr, e);
    if w.client.current.Some? && NameLost !in w.queue && out.Emit? {
      SingleUp(w);
      var n := w.client.current.value;
      var signals := SignalsTo(w.queue, n);
      SignalsLater(w.queue, Told(out.s, w.client.proxies), n);
      assert SignalsTo([Told(out.s, w.client.proxies)], n) == [out.s];
      CountedLater(0, signals, out.s, p);
      CountedLater(1, signals, out.s, p);
      CountedLater(multiset(w.client.list)[p], signals, out.s, p);
    }
  }

  lemma DeliverMirrors(w: World, p: Path)
    requires WorldInv(w) && CanAct(w, Deliver) && Single(w.client) && w.queue[0].Told?
    ensures PathMirrored(Acted(w, Deliver), p)
  {
    hide Inv, PathInv, Ready, Counted, Handle;
    assert PathMirrored(w, p);
    assert w.queue == [w.queue[0]] + w.queue[1..];
    if w.client.current.Some? && NameLost !in w.queue {
      SingleUp(w);
      var n, i := w.client.current.value, w.queue[0];
      HandledOnce(w.client.list, i.s);
      if n in i.to {
        assert i.to * w.client.proxies == {n};
        HandleCount(w.client.list, i.s, p);
        CountedNext(multiset(w.client.list)[p], SignalsTo(w.queue, n), p);
      } else {
        assert i.to * w.client.proxies == {};
        assert SignalsTo(w.queue, n) == SignalsTo(w.queue[1..], n);
      }
    }
  }

  lemma HandledOnce(list: seq<Path>, s: Signal)
    ensures HandleTimes(list, s, 0) == list && HandleTimes(list, s, 1) == Handle(list, s)
  {
    assert HandleTimes(Handle(list, s), s, 0) == Handle(list, s);
  }

  lemma CountedNext(c: nat, signals: seq<Signal>, p: Path)
    requires signals != []
    ensures Counted(c, signals, p) == Counted(Bump(c, signals[0], p), signals[1..], p)
  {
  }

  lemma SnapshotMirrors(w: World, p: Path)
    requires WorldInv(w) && CanAct(w, Snapshot) && Single(w.client)
    ensures PathMirrored(Acted(w, Snapshot), p)
  {
    hide EntryInv, TimerInv, PathInv, Ready, Counted, PathsOf, Alternates;
    assert PathMirrored(w, p);
    if NameLost !in w.queue {
      SingleUp(w);
      SnapshotOnce(w.mgr, p);
      assert w.client.list + PathsOf(w.mgr.devices, w.mgr.entries) == PathsOf(w.mgr.devices, w.mgr.entries);
    }
  }

  lemma SubscribeMirrors(w: World, p: Path)
    requires WorldInv(w) && CanAct(w, Subscribe) && Single(w.client)
    ensures PathMirrored(Acted(w, Subscribe), p)
  {
    hide Inv, PathInv, Ready;
    NoSignals(w.queue, w.client.next);
  }

  lemma KeepsMirrored(w: World, a: Act)
    requires WorldInv(w) && CanAct(w, a) && Single(w.client)
    ensures Mirrored(Acted(w, a))
  {
    hide Step, Inv, PathInv, Ready, SinceBase, Counted, PathMirrored, Handle, PathsOf, WithoutDccm, Emits;
    var w1 := Acted(w, a);
    WithoutDccmIn(w.client.list);
    forall p ensures PathMirrored(w1, p) {
      match a
      case Daemon(e) => DaemonMirrors(w, e, p);
      case Subscribe => SubscribeMirrors(w, p);
      case Snapshot => SnapshotMirrors(w, p);
      case _ => OtherMirrors(w, a, p);
    }
  }

  lemma OtherMirrors(w: World, a: Act, p: Path)
    requires WorldInv(w) && CanAct(w, a) && Single(w.client) && !a.Daemon? && a != Subscribe && a != Snapshot
    ensures PathMirrored(Acted(w, a), p)
  {
    hide Inv, PathInv, Ready, SinceBase, Counted, Handle, PathsOf, WithoutDccm;
    assert PathMirrored(w, p);
    if w.client.phase != Off {
      AlternatesNames(w.client.heard, w.queue, w.up);
    }
    if a == Deliver && w.queue[0].Told? {
      DeliverMirrors(w, p);
    }
  }

  lemma KeepsWorld(w: World, a: Act)
    requires WorldInv(w) && CanAct(w, a)
    ensures WorldInv(Acted(w, a))
  {
    hide Acted, CanAct, DaemonInv, NamesInv, PrefixInv, Mirrored, Single;
    KeepsDaemon(w, a);
    KeepsNames(w, a);
    KeepsPrefixes(w, a);
    SingleStep(w, a);
    if Single(w.client) {
      KeepsMirrored(w, a);
    }
  }

  lemma BeginInv()
    ensures WorldInv(Begin()) && Single(Begin().client)
  {
    StartInv();
  }

  // ---- Runs ----

  ghost predicate Leads(w: World, acts: seq<Act>, ws: seq<World>) {
    && |ws| == |acts| + 1
    && ws[0] == w
    && forall i :: 0 <= i < |acts| ==> CanAct(ws[i], acts[i]) && ws[i + 1] == Acted(ws[i], acts[i])
  }

  ghost predicate IsHistory(acts: seq<Act>, ws: seq<World>) {
    Leads(Begin(), acts, ws)
  }

  /** The client has asked in the race. */
  ghost predicate Raced(acts: seq<Act>, ws: seq<World>, n: nat)
    requires n <= |acts| < |ws|
  {
    exists i :: 0 <= i < n && Races(ws[i], acts[i])
  }

  /** What the signals on their way will make of the list is known path by path, as long as the client has one
      handler; and it has more than one, or will have, exactly if it asked in the race. */
  lemma {:induction false} HistoryInv(acts: seq<Act>, ws: seq<World>, n: nat)
    requires IsHistory(acts, ws) && n <= |acts|
    ensures WorldInv(ws[n])
    ensures Single(ws[n].client) <==> !Raced(acts, ws, n)
  {
    hide Acted, CanAct, WorldInv, Inv, Races, Single;
    if n == 0 {
      BeginInv();
    } else {
      HistoryInv(acts, ws, n - 1);
      KeepsWorld(ws[n - 1], acts[n - 1]);
      NamesOf(ws[n - 1]);
      SingleStep(ws[n - 1], acts[n - 1]);
    }
  }

  lemma NamesOf(w: World)
    requires WorldInv(w)
    ensures NamesInv(w)
  {
  }

  /** No signal is on its way, the daemon is there, and the client is in its main loop. */
  predicate Quiescent(w: World) {
    w.up && w.client.phase.Running? && w.queue == []
  }

  ghost predicate Mirrors(w: World) {
    multiset(w.client.list) == multiset(Ready(w.mgr))
  }

  /** Whatever the daemon goes on to do, the list will mirror it whenever no signal is on its way. */
  ghost predicate MirrorsFromNow(w: World) {
    forall acts, ws :: Leads(w, acts, ws) && Follows(acts) && Quiescent(ws[|acts|]) ==> Mirrors(ws[|acts|])
  }

  predicate Follows(acts: seq<Act>) {
    forall i :: 0 <= i < |acts| ==> acts[i].Daemon? || acts[i] == Deliver
  }

  /** In a quiescent world with one handler the ready devices are listed once, and once more those of `twice`. */
  lemma QuiescentList(w: World)
    requires WorldInv(w) && Quiescent(w) && Single(w.client)
    ensures multiset(w.client.list) == multiset(Ready(w.mgr)) + multiset(w.client.phase.twice)
    ensures Mirrors(w) <==> w.client.phase.twice == {}
  {
    hide DaemonInv, Ready, Single, PrefixInv, Numbered;
    var twice := w.client.phase.twice;
    AlternatesNames(w.client.heard, w.queue, w.up);
    forall p ensures multiset(w.client.list)[p] == Bit(p in Ready(w.mgr)) + Bit(p in twice) {
      assert PathMirrored(w, p);
    }
    assert multiset(w.client.list) == multiset(Ready(w.mgr)) + multiset(twice);
    if p :| p in twice {
      assert multiset(w.client.list)[p] > multiset(Ready(w.mgr))[p];
    }
  }

  /** One handler, and nothing listed twice: this lasts. */
  ghost predicate Settled(w: World) {
    WorldInv(w) && Single(w.client) && w.up && w.client.phase == Running({}) && forall i :: i in w.queue ==> i.Told?
  }

  lemma SettledStep(w: World, a: Act)
    requires Settled(w) && CanAct(w, a) && (a.Daemon? || a == Deliver)
    ensures Settled(Acted(w, a))
  {
    hide WorldInv, Single, Step, Ready, HandleTimes, Enabled, Emits;
    KeepsWorld(w, a);
    NamesOf(w);
    SingleStep(w, a);
    if a == Deliver {
      assert w.queue[0].Told? && forall i :: i in w.queue[1..] ==> i in w.queue;
    }
  }

  lemma {:induction false} StaysSettled(w: World, acts: seq<Act>, ws: seq<World>, n: nat)
    requires Settled(w) && Leads(w, acts, ws) && Follows(acts) && n <= |acts|
    ensures Settled(ws[n])
  {
    hide Settled, CanAct, Acted;
    if n > 0 {
      StaysSettled(w, acts, ws, n - 1);
      SettledStep(ws[n - 1], acts[n - 1]);
    }
  }

  /** A device more, announced to all the proxies there are. */
  lemma Announced(w: World, p: Path) returns (acts: seq<Act>, ws: seq<World>)
    requires WorldInv(w) && w.up && p !in Ready(w.mgr) && DCCM_PREFIX <= p
    ensures Leads(w, acts, ws) && Follows(acts) && |acts| == 4 && (forall i :: 0 <= i < 4 ==> acts[i].Daemon?)
    ensures ws[4].up && ws[4].client == w.client && Ready(ws[4].mgr) == Ready(w.mgr) + {p}
    ensures ws[4].queue == w.queue + if w.client.proxies == {} then [] else [Told(Connected(p), w.client.proxies)]
  {
    hide Inv, PathInv, Ready, NamesInv, PrefixInv, Mirrored, Step, Enabled, Single;
    var es, ms := OneMore(w.mgr, p);
    KeepsAll(es, ms, 0);
    var told := if w.client.proxies == {} then [] else [Told(Connected(p), w.client.proxies)];
    acts := [Daemon(es[0]), Daemon(es[1]), Daemon(es[2]), Daemon(es[3])];
    ws := [w, w.(mgr := ms[1]), w.(mgr := ms[2]), w.(mgr := ms[3]), w.(mgr := ms[4], queue := w.queue + told)];
  }

  lemma {:induction false} KeepsAll(es: seq<Event>, ms: seq<Manager>, i: nat)
    requires |ms| == |es| + 1 && i <= |es| && Inv(ms[i]) && PathInv(ms[i])
    requires forall j :: i <= j < |es| ==> Enabled(ms[j], es[j]) && ms[j + 1] == Step(ms[j], es[j])
    requires forall j :: i <= j < |es| - 1 ==> Emits(ms[j], es[j]) == Quiet
    requires es != [] && es[|es| - 1].Export?
    ensures i < |es| ==> Ready(ms[|es|]) == Ready(ms[i]) + {es[|es| - 1].path}
    decreases |es| - i
  {
    hide Inv, PathInv, Ready, Step, Enabled;
    if i < |es| {
      ReadyStep(ms[i], es[i]);
      KeepsInv(ms[i], es[i]);
      KeepsAll(es, ms, i + 1);
    }
  }

  lemma {:induction false} ListedTimes(list: seq<Path>, p: Path, n: nat)
    ensures multiset(HandleTimes(list, Connected(p), n))[p] == multiset(list)[p] + n
    decreases n
  {
    if n > 0 {
      ListedTimes(list + [p], p, n - 1);
    }
  }

  lemma Joined(w: World, acts: seq<Act>, ws: seq<World>, acts1: seq<Act>, ws1: seq<World>)
    requires Leads(w, acts, ws) && Leads(ws[|acts|], acts1, ws1)
    ensures Leads(w, acts + acts1, ws[..|acts|] + ws1)
  {
    hide Acted, CanAct;
    var a, b := acts + acts1, ws[..|acts|] + ws1;
    forall i | 0 <= i < |a| ensures CanAct(b[i], a[i]) && b[i + 1] == Acted(b[i], a[i]) {
      if i < |acts| {
        assert b[i + 1] == ws[i + 1];
      }
    }
  }

  /** With more than one handler the next device is listed more than once. */
  lemma NextListedTwice(w: World)
    requires WorldInv(w) && Quiescent(w) && !Single(w.client)
    ensures !MirrorsFromNow(w)
  {
    hide WorldInv, Ready, HandleTimes, Step, Enabled, Single;
    var c := w.client;
    MoreProxies(w);
    var p := FreePath(Ready(w.mgr));
    var acts, ws := Announced(w, p);
    ListedTimes(c.list, p, |c.proxies|);
    assert c.proxies * c.proxies == c.proxies;
    var w1 := Acted(ws[4], Deliver);
    assert multiset(w1.client.list)[p] >= 2 && multiset(Ready(w1.mgr))[p] == 1;
    Joined(w, acts, ws, [Deliver], [ws[4], w1]);
    assert Follows(acts + [Deliver]) && (ws[..4] + [ws[4], w1])[5] == w1;
  }

  lemma MoreProxies(w: World)
    requires WorldInv(w) && Quiescent(w) && !Single(w.client)
    ensures |w.client.proxies| >= 2
  {
    hide DaemonInv, PrefixInv, Mirrored;
    AlternatesNames(w.client.heard, w.queue, w.up);
    var n := w.client.current.value;
    var m :| m in w.client.proxies && m != n;
    assert {n, m} <= w.client.proxies;
    Subset({n, m}, w.client.proxies);
  }

  lemma {:induction false} Subset(s: set<nat>, t: set<nat>)
    requires s <= t
    ensures |s| <= |t|
    decreases s
  {
    if x :| x in s {
      Subset(s - {x}, t - {x});
    }
  }

  /** Whenever no signal is on its way, a client that did not ask in the race lists every ready device once, and once
      more those that became ready between its proxy and its snapshot.  It mirrors the daemon from then on exactly
      if there were none of these and it did not ask in the race. */
  lemma MirrorExact(acts: seq<Act>, ws: seq<World>, n: nat)
    requires IsHistory(acts, ws) && n <= |acts| && Quiescent(ws[n])
    ensures !Raced(acts, ws, n) ==>
              multiset(ws[n].client.list) == multiset(Ready(ws[n].mgr)) + multiset(ws[n].client.phase.twice)
    ensures MirrorsFromNow(ws[n]) <==> !Raced(acts, ws, n) && ws[n].client.phase.twice == {}
  {
    hide WorldInv, Single, Ready, Acted, CanAct, Raced, Mirrors;
    HistoryInv(acts, ws, n);
    var w := ws[n];
    if !Single(w.client) {
      NextListedTwice(w);
    } else {
      QuiescentList(w);
      if w.client.phase.twice == {} {
        forall acts1, ws1 | Leads(w, acts1, ws1) && Follows(acts1) && Quiescent(ws1[|acts1|])
          ensures Mirrors(ws1[|acts1|])
        {
          StaysSettled(w, acts1, ws1, |acts1|);
          QuiescentList(ws1[|acts1|]);
        }
      } else {
        assert Leads(w, [], [w]) && Follows([]);
      }
    }
  }

  /** Between the making of a proxy at step i and its snapshot at step j. */
  ghost predicate Subscribing(acts: seq<Act>, i: nat, j: nat) {
    && i < j < |acts| && acts[i] == Subscribe && acts[j] == Snapshot
    && forall k :: i < k < j ==> acts[k].Daemon? || acts[k] == DaemonStarts || acts[k] == DaemonDies
  }

  lemma {:induction false} SubscribedSince(acts: seq<Act>, ws: seq<World>, i: nat, j: nat, k: nat)
    requires IsHistory(acts, ws) && Subscribing(acts, i, j) && i < k <= j
    ensures ws[k].client.phase == Calling(Ready(ws[i].mgr))
    ensures (forall l :: i < l < k && acts[l].Daemon? ==> !acts[l].e.Export?) ==> Ready(ws[k].mgr) <= Ready(ws[i].mgr)
    decreases k
  {
    hide Step, Inv, PathInv, Ready, Enabled, PrefixInv, NamesInv, Mirrored;
    if k > i + 1 {
      SubscribedSince(acts, ws, i, j, k - 1);
      HistoryInv(acts, ws, k - 1);
      NoneReady();
      if acts[k - 1].Daemon? {
        ReadyStep(ws[k - 1].mgr, acts[k - 1].e);
      }
    }
  }

  /** The devices listed twice are those ready at the snapshot but not when the proxy was made: none, if no device
      was exported in between. */
  lemma TwiceIff(acts: seq<Act>, ws: seq<World>, i: nat, j: nat)
    requires IsHistory(acts, ws) && Subscribing(acts, i, j)
    ensures ws[j + 1].client.phase == Running(Ready(ws[j].mgr) - Ready(ws[i].mgr))
    ensures (forall k :: i < k < j && acts[k].Daemon? ==> !acts[k].e.Export?) ==> ws[j + 1].client.phase == Running({})
  {
    hide Step, Inv, PathInv, Ready, Enabled, Emits, PrefixInv, NamesInv, Mirrored, PathsOf;
    SubscribedSince(acts, ws, i, j, j);
    HistoryInv(acts, ws, j);
    NoneReady();
  }

  /** When the client hears that the daemon has gone its list is empty. */
  lemma OfflineEmpties(acts: seq<Act>, ws: seq<World>, n: nat)
    requires IsHistory(acts, ws) && n < |acts| && acts[n] == Deliver && ws[n].queue[0] == NameLost
    ensures ws[n + 1].client.list == []
  {
    hide DaemonInv, Ready, WithoutDccm, NamesInv, Mirrored, Single;
    HistoryInv(acts, ws, n);
    WithoutDccmIn(ws[n].client.list);
  }

  // ---- Witnesses ----

  const DEVICE_PATH: Path := DCCM_PREFIX + "Device"

  lemma SnapshotOfOne(m: Manager, p: Path)
    requires ListInv(m) && PathInv(m) && Ready(m) == {p}
    ensures multiset(PathsOf(m.devices, m.entries)) == multiset{p}
  {
    hide ListInv, PathInv, Ready, PathsOf;
    forall q ensures multiset(PathsOf(m.devices, m.entries))[q] == multiset{p}[q] {
      SnapshotOnce(m, q);
    }
  }

  /** A device that becomes ready while the client waits for its snapshot is listed twice. */
  lemma ListedTwice() returns (acts: seq<Act>, ws: seq<World>)
    ensures IsHistory(acts, ws) && |acts| == 10 && Quiescent(ws[10]) && !Raced(acts, ws, 10)
    ensures Ready(ws[10].mgr) == ws[10].client.phase.twice == {DEVICE_PATH}
  {
    hide Ready, Step, Enabled, WorldInv, PathsOf, Races, Emits;
    var p := DEVICE_PATH;
    NoneReady();
    var c := Client(Connecting, {}, None, 0, true, []);
    var w1 := World(true, Start(), [], Begin().client);
    var w2, w3 := w1.(client := c.(phase := Asking)), w1.(client := c);
    var w4 := w1.(client := Client(Calling({}), {0}, Some(0), 1, true, []));
    var begun, first := [DaemonStarts, Init, Ask, Subscribe], [Begin(), w1, w2, w3, w4];
    assert IsHistory(begun, first);
    HistoryInv(begun, first, 4);
    var more, next := Announced(w4, p);
    var w8 := next[4];
    var w9 := Acted(w8, Snapshot);
    var w10 := Acted(w9, Deliver);
    Joined(w4, more, next, [Snapshot, Deliver], [w8, w9, w10]);
    acts, ws := more + [Snapshot, Deliver], next[..4] + [w8, w9, w10];
    Joined(Begin(), begun, first, acts, ws);
    acts, ws := begun + acts, first[..4] + ws;
    assert ws[10] == w10;
    HistoryInv(acts, ws, 10);
  }

  /** After asking in the race a device is listed twice though none became ready since long before. */
  lemma ConnectedTwice() returns (acts: seq<Act>, ws: seq<World>)
    ensures IsHistory(acts, ws) && |acts| == 12 && Quiescent(ws[12]) && acts[6] == Ask && Races(ws[6], acts[6])
    ensures forall i :: 6 <= i < 12 ==> !acts[i].Daemon?
    ensures Ready(ws[12].mgr) == {DEVICE_PATH} && ws[12].client.phase.twice == {}
    ensures multiset(ws[12].client.list) == multiset{DEVICE_PATH, DEVICE_PATH}
  {
    hide Ready, Step, Enabled, WorldInv, PathsOf, Emits;
    var p := DEVICE_PATH;
    NoneReady();
    var c := Client(Asking, {}, None, 0, false, []);
    var w1 := Begin().(client := c);
    var w2 := World(true, Start(), [NameTaken], c);
    var begun, first := [Init, DaemonStarts], [Begin(), w1, w2];
    assert IsHistory(begun, first);
    HistoryInv(begun, first, 2);
    var more, next := Announced(w2, p);
    Joined(Begin(), begun, first, more, next);
    acts, ws := begun + more, first[..2] + next;
    var w6 := next[4];
    assert ws[6] == w6;
    HistoryInv(acts, ws, 6);
    DaemonOf(w6);
    SnapshotOfOne(w6.mgr, p);
    var list := PathsOf(w6.mgr.devices, w6.mgr.entries);
    var w7 := w6.(client := c.(phase := Connecting));
    var w8 := w6.(client := Client(Calling({p}), {0}, Some(0), 1, false, []));
    var w9 := w6.(client := Client(Running({}), {0}, Some(0), 1, false, list));
    var w10 := World(true, w6.mgr, [], Client(Connecting, {0}, Some(0), 1, true, list));
    var w11 := w10.(client := Client(Calling({p}), {0, 1}, Some(1), 2, true, list));
    var w12 := w10.(client := Client(Running({}), {0, 1}, Some(1), 2, true, list + list));
    var rest, last := [Ask, Subscribe, Snapshot, Deliver, Subscribe, Snapshot], [w6, w7, w8, w9, w10, w11, w12];
    assert [] + list == list;
    assert Leads(w6, rest, last);
    Joined(Begin(), acts, ws, rest, last);
    acts, ws := acts + rest, ws[..6] + last;
    assert ws[12] == w12;
  }

  lemma DaemonOf(w: World)
    requires WorldInv(w)
    ensures DaemonInv(w)
  {
  }
}
