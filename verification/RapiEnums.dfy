/** What enumerators hand out over whole runs: the devices that were listed, in order, each once. */
module RapiEnums {
  import opened RapiObjects
  import opened RapiRuns
  import opened Basics
  import opened Wrappers

  /** The devices that calls of Next on this enumerator hand out from step i up to step k. */
  function Handed(es: seq<Event>, hs: seq<Heap>, e: Id, i: nat, k: nat): seq<Id>
    requires k <= |es| && |hs| == |es| + 1 && forall j :: i <= j < k ==> e < |hs[j].enums|
    decreases k
  {
    if k <= i then []
    else
      var found := if es[k - 1] == NextDevice(e) then AtCursor(hs[k - 1], e) else None;
      Handed(es, hs, e, i, k - 1) + if found.Some? then [found.value] else []
  }

  /** How often Next is called on it. */
  function Calls(es: seq<Event>, e: Id, i: nat, k: nat): nat
    requires k <= |es|
    decreases k
  {
    if k <= i then 0 else Calls(es, e, i, k - 1) + Bit(es[k - 1] == NextDevice(e))
  }

  function CursorAfter(c: nat, size: nat, ev: Event, e: Id): int {
    match ev
    case NextDevice(i) => if i == e && c < size then c + 1 else c
    case SkipDevices(i, n) => if i == e then Min(c + n, size) else c
    case ResetEnum(i) => if i == e then 0 else c
    case _ => c
  }

  /** A step that does not free the enumerator keeps its devices, and moves its cursor only if it concerns it. */
  lemma EnumStep(h: Heap, ev: Event, e: Id)
    requires Inv(h) && Enabled(h, ev) && e < |h.enums| && h.enums[e].refs > 0
    ensures var h1 := Step(h, ev);
            && e < |h1.enums|
            && (h1.enums[e].refs > 0 ==>
                  && h1.enums[e].devices == h.enums[e].devices
                  && h1.enums[e].current == CursorAfter(h.enums[e].current, |h.enums[e].devices|, ev, e))
  {
    hide DesktopInv, DeviceInv, SessionInv, DeviceAddRef, DeviceRelease, UdevDisconnect, UdevConnect, AddRefs,
         AddRefAll, ReleaseAll, NewDevices, Disconnect, Descends, OrphanLoss, OrphanConnect, OrphanDisconnect,
         OrphanAdd;
    InRangeAll(h);
    assert EnumInv(h, e);
    if AboutOrphans(ev) {
      OrphanStep(h, ev);
    } else if ev == DaemonLost {
      LostDescends(h);
    } else if ev.DeviceDisconnected? && InRange(h.desktop.list, h) {
      DisconnectDescends(h, ev.path, ev.listeners);
    }
  }

  /** The enumerator is neither moved but by Next, nor freed. */
  predicate OnlyNext(es: seq<Event>, hs: seq<Heap>, e: Id, i: nat, k: nat)
    requires k <= |es| && |hs| == |es| + 1
  {
    && (forall j :: i <= j < k ==> es[j] != ResetEnum(e) && !(es[j].SkipDevices? && es[j].e == e))
    && (forall j :: i <= j <= k ==> e < |hs[j].enums| && hs[j].enums[e].refs > 0)
  }

  /** Whatever else happens, its calls hand out its devices one after the other, from the cursor on, to the last. */
  lemma {:induction false} HandsOut(es: seq<Event>, hs: seq<Heap>, e: Id, i: nat, k: nat)
    requires IsRun(es, hs) && i <= k <= |es| && OnlyNext(es, hs, e, i, k)
    ensures var o, o1 := hs[i].enums[e], hs[k].enums[e];
            && o.current <= |o.devices| && o1.devices == o.devices
            && o1.current == Min(o.current + Calls(es, e, i, k), |o.devices|)
            && Handed(es, hs, e, i, k) == o.devices[o.current..o1.current]
    decreases k
  {
    hide Step, Inv, Enabled, OnlyNext;
    RunInv(es, hs, i);
    OnlyNextBefore(es, hs, e, i, k);
    CursorInside(hs[i], e);
    if i < k {
      HandsOut(es, hs, e, i, k - 1);
      RunInv(es, hs, k - 1);
      EnumStep(hs[k - 1], es[k - 1], e);
      OneNext(hs[k - 1].enums[e], hs[i].enums[e].current);
    }
  }

  lemma OnlyNextBefore(es: seq<Event>, hs: seq<Heap>, e: Id, i: nat, k: nat)
    requires k <= |es| && |hs| == |es| + 1 && i <= k && OnlyNext(es, hs, e, i, k)
    ensures forall j :: i <= j <= k ==> e < |hs[j].enums| && hs[j].enums[e].refs > 0
    ensures i < k ==> OnlyNext(es, hs, e, i, k - 1)
    ensures i < k ==> es[k - 1] != ResetEnum(e) && !(es[k - 1].SkipDevices? && es[k - 1].e == e)
  {
  }

  lemma OneNext(o: EnumObj, c: nat)
    requires c <= o.current <= |o.devices|
    ensures o.current < |o.devices| ==>
              o.devices[c..o.current + 1] == o.devices[c..o.current] + [o.devices[o.current]]
  {
  }

  lemma CursorInside(h: Heap, e: Id)
    requires Inv(h) && e < |h.enums|
    ensures h.enums[e].current <= |h.enums[e].devices|
  {
    hide DesktopInv, DeviceInv, SessionInv;
    assert EnumInv(h, e);
  }

  lemma NewEnumIs(h: Heap, ev: Event)
    requires Inv(h) && Enabled(h, ev) && (ev.Enumerate? || ev.CloneEnum?)
    ensures Step(h, ev).enums
         == h.enums + [EnumObj(if ev.Enumerate? then h.desktop.list else h.enums[ev.e].devices, 0, 1)]
  {
    hide Inv, AddRefAll, Descends;
    InRangeAll(h);
  }

  /** A new enumerator hands out the desktop's devices as they were listed, in order, each once; a copy those of the
      enumerator it was made from, from the first.  Called often enough it hands out all of them. */
  lemma EnumeratesAll(es: seq<Event>, hs: seq<Heap>, i: nat, k: nat)
    requires IsRun(es, hs) && i < k <= |es| && (es[i].Enumerate? || es[i].CloneEnum?)
    ensures |hs[i + 1].enums| == |hs[i].enums| + 1
    ensures es[i].CloneEnum? ==> es[i].e < |hs[i].enums|
    ensures var e := |hs[i].enums|;
            var list := if es[i].Enumerate? then hs[i].desktop.list else hs[i].enums[es[i].e].devices;
            && (es[i].Enumerate? ==> NoDup(list))
            && (OnlyNext(es, hs, e, i + 1, k) ==>
                  && Handed(es, hs, e, i + 1, k) == list[..Min(Calls(es, e, i + 1, k), |list|)]
                  && (Calls(es, e, i + 1, k) >= |list| ==> Handed(es, hs, e, i + 1, k) == list)
                  && (AtCursor(hs[k], e).None? <==> Handed(es, hs, e, i + 1, k) == list))
  {
    hide Step, Inv;
    var e := |hs[i].enums|;
    RunInv(es, hs, i);
    NewEnumIs(hs[i], es[i]);
    ListedOnceEach(hs[i]);
    if OnlyNext(es, hs, e, i + 1, k) {
      HandsOut(es, hs, e, i + 1, k);
    }
  }

  lemma ListedOnceEach(h: Heap)
    requires Inv(h)
    ensures NoDup(h.desktop.list)
  {
    hide Inv;
    forall i, j | 0 <= i < j < |h.desktop.list| ensures h.desktop.list[i] != h.desktop.list[j] {
      ListedOnce(h, i);
      assert h.desktop.list[j] == h.desktop.list[i + 1..][j - i - 1];
    }
  }

  /** After Reset it starts over; after Skip it goes on behind what was skipped, if there is more. */
  lemma StartsOver(es: seq<Event>, hs: seq<Heap>, i: nat, k: nat, e: Id)
    requires IsRun(es, hs) && i < k <= |es| && OnlyNext(es, hs, e, i + 1, k)
    requires es[i] == ResetEnum(e) || (es[i].SkipDevices? && es[i].e == e)
    ensures e < |hs[i].enums|
    ensures var o := hs[i].enums[e];
            var from := if es[i].ResetEnum? then 0 else Min(o.current + es[i].n, |o.devices|);
            && 0 <= from <= |o.devices|
            && Handed(es, hs, e, i + 1, k) == o.devices[from..][..Min(Calls(es, e, i + 1, k), |o.devices| - from)]
  {
    hide Step, Inv;
    RunInv(es, hs, i);
    EnumStep(hs[i], es[i], e);
    CursorInside(hs[i], e);
    HandsOut(es, hs, e, i + 1, k);
  }
}
