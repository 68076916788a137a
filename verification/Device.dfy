/** One RNDIS device of the daemon: its control connection and its table of RAPI connections. */
module Device {
  import opened Bytes
  import C = ControlChannel
  import T = Connections

  datatype Dev = Dev(ctl: C.Control, table: T.Table)

  datatype Event = Control(c: C.Event) | Connection(t: T.Event)

  /** A request for a connection sees the stage the control connection has reached. */
  predicate Enabled(d: Dev, e: Event) {
    && !d.ctl.aborted && !d.table.aborted
    && match e
       case Control(c) => C.Enabled(d.ctl, c)
       case Connection(t) => T.Enabled(d.table, t) && (t.Request? ==> t.connected == d.ctl.stage.Connected?)
  }

  function Step(d: Dev, e: Event): Dev
    requires Enabled(d, e)
  {
    match e
    case Control(c) => d.(ctl := C.Step(d.ctl, c))
    case Connection(t) => d.(table := T.Step(d.table, t))
  }

  ghost predicate Inv(d: Dev) {
    C.Inv(d.ctl) && T.Inv(d.table) && (d.table.seen.issued != map[] ==> d.ctl.stage == C.Connected)
  }

  ghost predicate IsRun(es: seq<Event>, ds: seq<Dev>) {
    && |ds| == |es| + 1
    && ds[0] == Dev(C.Start(), T.Start())
    && forall i :: 0 <= i < |es| ==> Enabled(ds[i], es[i]) && ds[i + 1] == Step(ds[i], es[i])
  }

  lemma IssuedStep(t: T.Table, e: T.Event)
    requires T.Enabled(t, e) && t.seen.issued == map[] && T.Step(t, e).seen.issued != map[]
    ensures e.Request? && e.connected
  {
  }

  lemma KeepsInv(d: Dev, e: Event)
    requires Inv(d) && Enabled(d, e)
    ensures Inv(Step(d, e))
  {
    hide C.Inv, T.Inv, C.Step, T.Step, C.Rank;
    match e
    case Control(c) =>
      C.KeepsInv(d.ctl, c);
      C.StageStep(d.ctl, c);
      StaysConnected(d.ctl.stage, C.Step(d.ctl, c).stage);
    case Connection(t) =>
      T.KeepsInv(d.table, t);
      if d.table.seen.issued == map[] && T.Step(d.table, t).seen.issued != map[] {
        IssuedStep(d.table, t);
      }
  }

  lemma StaysConnected(a: C.Stage, b: C.Stage)
    requires C.Rank(a) <= C.Rank(b)
    ensures a == C.Connected ==> b == C.Connected
  {
  }

  lemma {:induction false} RunInv(es: seq<Event>, ds: seq<Dev>, k: nat)
    requires IsRun(es, ds) && k <= |es|
    ensures Inv(ds[k])
  {
    hide Step, Inv;
    if k == 0 {
      StartInv();
    } else {
      RunInv(es, ds, k - 1);
      KeepsInv(ds[k - 1], es[k - 1]);
    }
  }

  lemma StartInv()
    ensures Inv(Dev(C.Start(), T.Start()))
  {
    hide C.Inv, T.Inv;
    C.StartInv();
    T.StartInv();
  }

  /** At this step the device lets the host in, or its unlock report is cut short. */
  predicate Opens(d: Dev, e: Event)
    requires Enabled(d, e)
  {
    e.Control? && e.c.ControlRead? && (C.LetsIn(d.ctl, e.c) || C.ShortUnlockRead(d.ctl, e.c))
  }

  /** No connection is ever asked for, and none passed on, before the device lets the host in. */
  lemma {:induction false} NothingBeforeLetIn(es: seq<Event>, ds: seq<Dev>, k: nat)
    requires IsRun(es, ds) && k <= |es|
    requires ds[k].ctl.stage == C.Connected || ds[k].table.requests != map[] || ds[k].table.seen.asked != {}
             || ds[k].table.seen.passed != []
    ensures exists i :: 0 <= i < k && Opens(ds[i], es[i])
  {
    hide Step, C.LetsIn, C.ShortUnlockRead, Inv;
    RunInv(es, ds, k);
    AskedOnlyWhenConnected(ds[k]);
    if ds[k - 1].ctl.stage == C.Connected {
      NothingBeforeLetIn(es, ds, k - 1);
    } else {
      RunInv(es, ds, k - 1);
      OpensStep(ds[k - 1], es[k - 1]);
    }
  }

  lemma AskedOnlyWhenConnected(d: Dev)
    requires Inv(d)
    ensures d.table.requests != map[] || d.table.seen.asked != {} || d.table.seen.passed != [] ==>
              d.ctl.stage == C.Connected
  {
    hide C.Inv, T.Injective, T.ReplyInv;
    if d.table.requests != map[] {
      var id :| id in d.table.requests;
      assert id in d.table.seen.issued;
    } else if d.table.seen.asked != {} {
      var id :| id in d.table.seen.asked;
      assert id in d.table.seen.issued;
    } else if d.table.seen.passed != [] {
      assert d.table.seen.passed[0] in d.table.seen.passed;
    }
  }

  lemma OpensStep(d: Dev, e: Event)
    requires Inv(d) && Enabled(d, e) && d.ctl.stage != C.Connected && Step(d, e).ctl.stage == C.Connected
    ensures Opens(d, e)
  {
    hide C.Step, C.LetsIn, C.ShortUnlockRead, C.Inv, T.Inv;
    C.EntersConnectedIff(d.ctl, e.c);
  }
}
