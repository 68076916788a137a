/**
 * The daemon's end of the control connection of an RNDIS device: handshake, information packet and
 * password exchange.  The main loop is single-threaded, so each callback is one step.
 */
module ControlChannel {
  import opened Basics
  import opened Bytes
  import opened InfoPacket
  import opened Wrappers

  datatype Stage = Handshake | GettingInfo | GotInfo | Auth | Connected

  function Rank(s: Stage): nat {
    match s
    case Handshake => 0
    case GettingInfo => 1
    case GotInfo => 2
    case Auth => 3
    case Connected => 4
  }

  const PW_UNSET: nat := 0
  const PW_PROVIDE: nat := 1
  const PW_PROVIDE_ON_DEVICE: nat := 2
  const PW_CHECKING: nat := 3
  const PW_UNLOCKED: nat := 4

  /** The test `flags & PROVIDE`: it also holds of CHECKING. */
  predicate ExpectsPassword(flags: nat) {
    flags % 2 == 1
  }

  /** The key a Windows Mobile 6 device sends: the password is entered on the device. */
  const KEY_ON_DEVICE: u32 := 0xFFFF_FFFF

  /** A D-Bus invocation. */
  type Call = nat

  datatype Message = Words(words: seq<u32>) | PasswordOf(call: Call)

  /** The password exchange: the flags, the device's key, the caller recorded, and who was answered: with an error,
      or, for those in `told`, with whether the device accepts the password. */
  datatype Login = Login(flags: nat, key: u32, ctx: Option<Call>, calls: set<Call>, replies: seq<Call>,
                         told: map<Call, bool>)

  /** inFlight: sizes of the reads not yet over; sent: control messages written; aborted: no memory for the packet. */
  datatype Control = Control(stage: Stage, infoSize: int, login: Login, inFlight: seq<nat>, sent: seq<Message>,
                             aborted: bool)

  function Start(): Control {
    Control(Handshake, -1, Login(PW_UNSET, 0, None, {}, [], map[]), [4], [], false)
  }

  /** The 32-bit word as gint32. */
  function Signed(x: u32): int {
    if x < 0x8000_0000 then x else x - 0x1_0000_0000
  }

  function HandshakeEvent(c: Control, n: int, buf: seq<byte>): Control {
    if n != 4 || |buf| < 4 then c
    else if Le32(buf, 0) == 0 then c.(sent := c.sent + [Words([3])], inFlight := c.inFlight + [4])
    else if Le32(buf, 0) == 4 then c.(stage := GettingInfo, inFlight := c.inFlight + [4])
    else if Le32(buf, 0) == 6 then c.(sent := c.sent + [Words([7, 8, 4, 5])], inFlight := c.inFlight + [4])
    else c
  }

  function InfoEvent(c: Control, n: int, buf: seq<byte>, allocates: bool, decodable: bool): Control {
    if c.infoSize == -1 then
      if n != 4 || |buf| < 4 then c
      else
        var size := Signed(Le32(buf, 0));
        // a negative size asks g_malloc for an enormous block, and it aborts
        if size < 0 || !allocates then c.(infoSize := size, aborted := true)
        else c.(infoSize := size, inFlight := c.inFlight + [size])
    else if n != c.infoSize then c
    else InfoComplete(c, Parse(buf, decodable))
  }

  function InfoComplete(c: Control, r: Parsed): Control {
    match r
    case Failed(None) => c.(stage := GotInfo)
    case Failed(Some(key)) => c.(stage := GotInfo, login := c.login.(key := key))
    case Parsed(_, key) =>
      if key == 0 then c.(stage := Connected, login := c.login.(key := key, flags := PW_UNSET))
      else if key != KEY_ON_DEVICE then c.(stage := Auth, login := c.login.(key := key, flags := PW_PROVIDE))
      else c.(stage := Auth, login := c.login.(key := key, flags := PW_PROVIDE_ON_DEVICE),
              sent := c.sent + [Words([8])], inFlight := c.inFlight + [4])
  }

  function Answer(l: Login, flags: nat, accepted: bool): Login {
    match l.ctx
    case None => l.(flags := flags)
    case Some(call) => l.(flags := flags, replies := l.replies + [call], ctx := None, told := l.told[call := accepted])
  }

  function AuthEvent(c: Control, n: int, buf: seq<byte>): Control {
    if c.login.key != KEY_ON_DEVICE then
      if n != 2 || |buf| < 2 then c
      else if Le16(buf, 0) != 0 then c.(stage := Connected, login := Answer(c.login, PW_UNLOCKED, true))
      else c.(login := Answer(c.login, PW_PROVIDE, false))
    // the number of bytes read is not looked at here
    else if |buf| >= 4 && Le32(buf, 0) == 0 then
      c.(stage := Connected, login := c.login.(flags := PW_UNLOCKED), sent := c.sent + [Words([0]), Words([0xC])])
    else c
  }

  datatype Event =
    // a control read is over: its result, the buffer, whether the packet fits in memory and its name decodes
    | ControlRead(numRead: int, buf: seq<byte>, allocates: bool, decodable: bool)
    | ProvidePassword(call: Call, writes: bool)

  predicate Enabled(c: Control, e: Event) {
    && !c.aborted
    && match e
       case ControlRead(n, buf, _, _) => c.inFlight != [] && |buf| == c.inFlight[0] && -1 <= n <= |buf|
       case ProvidePassword(call, _) => call !in c.login.calls
  }

  function ControlEvent(c: Control, n: int, buf: seq<byte>, allocates: bool, decodable: bool): Control
    requires c.inFlight != []
  {
    var c1 := c.(inFlight := c.inFlight[1..]);
    match c.stage
    case Handshake => HandshakeEvent(c1, n, buf)
    case Connected => c1
    case Auth => AuthEvent(c1, n, buf)
    case _ => InfoEvent(c1, n, buf, allocates, decodable)
  }

  /** `writes`: the password reaches the device.  When it does not, the caller is told but stays recorded. */
  function PasswordCall(c: Control, call: Call, writes: bool): Control {
    var l := c.login.(calls := c.login.calls + {call});
    if c.stage != Auth || !ExpectsPassword(l.flags) || l.ctx.Some? then c.(login := l.(replies := l.replies + [call]))
    else if !writes then c.(login := l.(ctx := Some(call), replies := l.replies + [call]))
    else c.(login := l.(ctx := Some(call), flags := PW_CHECKING),
            sent := c.sent + [PasswordOf(call)], inFlight := c.inFlight + [2])
  }

  function Step(c: Control, e: Event): Control
    requires Enabled(c, e)
  {
    match e
    case ControlRead(n, buf, allocates, decodable) => ControlEvent(c, n, buf, allocates, decodable)
    case ProvidePassword(call, writes) => PasswordCall(c, call, writes)
  }

  // ---- Invariant ----

  /** The size the next control message should have, by stage. */
  function ExpectedRead(c: Control): int {
    match c.stage
    case Handshake => 4
    case GettingInfo => if c.infoSize == -1 then 4 else c.infoSize
    case GotInfo => 0
    case Auth => if c.login.key == KEY_ON_DEVICE then 4 else 2
    case Connected => 0
  }

  /** A password has been sent and the device has not answered. */
  predicate Checking(c: Control) {
    c.stage == Auth && c.login.key != KEY_ON_DEVICE && c.login.flags == PW_CHECKING
  }

  /** At most one control read is in flight, of the size the stage expects. */
  predicate OneRead(c: Control) {
    && (c.inFlight == [] || c.inFlight == [ExpectedRead(c)])
    && (c.stage.GotInfo? || c.stage.Connected? ==> c.inFlight == [])
    && (c.stage == Handshake ==> c.infoSize == -1)
    && (c.stage == GettingInfo && !c.aborted ==> c.infoSize >= -1)
  }

  /** What the stage says about key, flags and recorded caller; a read waits in AUTH only for the right answer. */
  predicate LoginInv(c: Control) {
    && (c.stage != Auth ==> c.login.ctx == None)
    && (Rank(c.stage) < Rank(Auth) ==> c.login.flags == PW_UNSET)
    && (c.stage == Connected ==> c.login.flags == if c.login.key == 0 then PW_UNSET else PW_UNLOCKED)
    && (c.stage == Auth ==> c.login.key != 0)
    && (c.stage == Auth && c.login.key == KEY_ON_DEVICE ==>
          c.login.flags == PW_PROVIDE_ON_DEVICE && c.login.ctx == None)
    && (c.stage == Auth && c.login.key != KEY_ON_DEVICE ==>
          Checking(c) || (c.login.flags == PW_PROVIDE && c.inFlight == []))
    && (Checking(c) ==> c.login.ctx.Some? && c.sent != [] && c.sent[|c.sent| - 1] == PasswordOf(c.login.ctx.value))
  }

  /** No call is answered twice; the one call received but not answered is the one the device is checking. */
  ghost predicate ReplyInv(c: Control) {
    && NoDup(c.login.replies)
    && (forall x :: x in c.login.replies ==> x in c.login.calls)
    && (forall x :: x in c.login.told ==> x in c.login.replies)
    && (c.login.ctx.Some? ==> c.login.ctx.value in c.login.calls)
    && (forall x :: x in c.login.calls ==> (x in c.login.replies <==> !(Checking(c) && c.login.ctx == Some(x))))
  }

  ghost predicate Inv(c: Control) {
    OneRead(c) && LoginInv(c) && ReplyInv(c)
  }

  lemma EarlyReadKeeps(c: Control, n: int, buf: seq<byte>, allocates: bool, decodable: bool)
    requires OneRead(c) && LoginInv(c) && Enabled(c, ControlRead(n, buf, allocates, decodable))
    requires c.stage.Handshake? || c.stage.GettingInfo? || c.stage.GotInfo?
    ensures OneRead(ControlEvent(c, n, buf, allocates, decodable))
    ensures LoginInv(ControlEvent(c, n, buf, allocates, decodable))
  {
    hide Parse, Le32, Le16, AuthEvent;
  }

  lemma AuthReadKeeps(c: Control, n: int, buf: seq<byte>, allocates: bool, decodable: bool)
    requires OneRead(c) && LoginInv(c) && Enabled(c, ControlRead(n, buf, allocates, decodable)) && c.stage.Auth?
    ensures OneRead(ControlEvent(c, n, buf, allocates, decodable))
    ensures LoginInv(ControlEvent(c, n, buf, allocates, decodable))
  {
    hide Parse, Le32, Le16, HandshakeEvent, InfoEvent;
  }

  lemma ReadKeepsOneRead(c: Control, n: int, buf: seq<byte>, allocates: bool, decodable: bool)
    requires OneRead(c) && LoginInv(c) && Enabled(c, ControlRead(n, buf, allocates, decodable))
    ensures OneRead(ControlEvent(c, n, buf, allocates, decodable))
    ensures LoginInv(ControlEvent(c, n, buf, allocates, decodable))
  {
    hide ControlEvent, LoginInv, Enabled;
    match c.stage
    case Auth => AuthReadKeeps(c, n, buf, allocates, decodable);
    case Connected => NoReadWhenConnected(c, n, buf, allocates, decodable);
    case _ => EarlyReadKeeps(c, n, buf, allocates, decodable);
  }

  lemma NoReadWhenConnected(c: Control, n: int, buf: seq<byte>, allocates: bool, decodable: bool)
    requires OneRead(c) && c.stage.Connected?
    ensures !Enabled(c, ControlRead(n, buf, allocates, decodable))
  {
  }

  lemma ReadKeepsReplies(c: Control, n: int, buf: seq<byte>, allocates: bool, decodable: bool)
    requires Inv(c) && Enabled(c, ControlRead(n, buf, allocates, decodable))
    ensures ReplyInv(ControlEvent(c, n, buf, allocates, decodable))
  {
    hide Parse, Le32, Le16, HandshakeEvent, InfoEvent;
    var c1 := c.(inFlight := c.inFlight[1..]);
    match c.stage
    case Handshake => SameCalls(c1, HandshakeEvent(c1, n, buf)) by { HandshakeKeepsLogin(c1, n, buf); }
    case Connected =>
    case Auth =>
    case _ =>
      InfoKeepsCalls(c1, n, buf, allocates, decodable);
      SameCalls(c1, InfoEvent(c1, n, buf, allocates, decodable));
  }

  lemma SameCalls(c: Control, c1: Control)
    requires ReplyInv(c) && c.stage != Auth && c.login.ctx == None
    requires c1.login.ctx == None && c1.login.calls == c.login.calls && c1.login.replies == c.login.replies
    requires c1.login.told == c.login.told
    ensures ReplyInv(c1)
  {
  }

  lemma HandshakeKeepsLogin(c: Control, n: int, buf: seq<byte>)
    ensures HandshakeEvent(c, n, buf).login == c.login
  {
  }

  lemma InfoKeepsCalls(c: Control, n: int, buf: seq<byte>, allocates: bool, decodable: bool)
    ensures var l := InfoEvent(c, n, buf, allocates, decodable).login;
            l.ctx == c.login.ctx && l.calls == c.login.calls && l.replies == c.login.replies && l.told == c.login.told
  {
    hide Parse;
  }

  lemma CallKeepsInv(c: Control, call: Call, writes: bool)
    requires Inv(c) && Enabled(c, ProvidePassword(call, writes))
    ensures Inv(PasswordCall(c, call, writes))
  {
  }

  lemma KeepsInv(c: Control, e: Event)
    requires Inv(c) && Enabled(c, e)
    ensures Inv(Step(c, e))
  {
    hide ControlEvent, PasswordCall, OneRead, LoginInv, ReplyInv;
    match e
    case ControlRead(n, buf, allocates, decodable) =>
      ReadKeepsOneRead(c, n, buf, allocates, decodable);
      ReadKeepsReplies(c, n, buf, allocates, decodable);
    case ProvidePassword(call, writes) => CallKeepsInv(c, call, writes);
  }

  // ---- Runs ----

  ghost predicate IsRun(es: seq<Event>, cs: seq<Control>) {
    && |cs| == |es| + 1
    && cs[0] == Start()
    && forall i :: 0 <= i < |es| ==> Enabled(cs[i], es[i]) && cs[i + 1] == Step(cs[i], es[i])
  }

  lemma StartInv()
    ensures Inv(Start())
  {
  }

  lemma {:induction false} RunInv(es: seq<Event>, cs: seq<Control>, k: nat)
    requires IsRun(es, cs) && k <= |es|
    ensures Inv(cs[k])
  {
    hide Step, Inv;
    if k == 0 {
      StartInv();
    } else {
      RunInv(es, cs, k - 1);
      KeepsInv(cs[k - 1], es[k - 1]);
    }
  }

  /** In every reachable state at most one control read is in flight, of the size the stage expects; no caller is
      answered twice; and every caller is answered but the one whose password the device is checking.  That one is
      never answered once no read for the verdict is in flight. */
  lemma StreamDiscipline(es: seq<Event>, cs: seq<Control>, k: nat, j: nat)
    requires IsRun(es, cs) && k <= j <= |es|
    ensures var c := cs[k];
            && (c.inFlight == [] || c.inFlight == [ExpectedRead(c)])
            && (forall i, j :: 0 <= i < j < |c.login.replies| ==> c.login.replies[i] != c.login.replies[j])
            && (forall x :: x in c.login.calls ==> (x in c.login.replies <==> !(Checking(c) && c.login.ctx == Some(x))))
            && (Checking(c) ==> c.login.ctx.Some? && c.login.ctx.value !in c.login.replies)
            && (Checking(c) && c.inFlight == [] ==> c.login.ctx.value !in cs[j].login.replies)
  {
    hide Step, Enabled;
    RunInv(es, cs, k);
    if Checking(cs[k]) && cs[k].inFlight == [] {
      StillChecking(es, cs, k, j);
      RunInv(es, cs, j);
    }
  }

  lemma {:induction false} StillChecking(es: seq<Event>, cs: seq<Control>, k: nat, j: nat)
    requires IsRun(es, cs) && k <= j <= |es| && Checking(cs[k]) && cs[k].inFlight == []
    ensures Checking(cs[j]) && cs[j].inFlight == [] && cs[j].login.ctx == cs[k].login.ctx
    ensures cs[k].login.calls <= cs[j].login.calls
    decreases j
  {
    hide ControlEvent, OneRead, ReplyInv;
    if k < j {
      StillChecking(es, cs, k, j - 1);
      RunInv(es, cs, j - 1);
    }
  }

  lemma StageStep(c: Control, e: Event)
    requires Inv(c) && Enabled(c, e)
    ensures Rank(c.stage) <= Rank(Step(c, e).stage)
    ensures c.login.replies <= Step(c, e).login.replies
  {
    hide Parse, Le32, Le16, ReplyInv;
  }

  /** The stage never goes back, and an answer given stays given. */
  lemma {:induction false} StageNeverDecreases(es: seq<Event>, cs: seq<Control>, i: nat, j: nat)
    requires IsRun(es, cs) && i <= j <= |es|
    ensures Rank(cs[i].stage) <= Rank(cs[j].stage)
    ensures cs[i].login.replies <= cs[j].login.replies
    decreases j
  {
    hide Step, Inv, Rank;
    if i < j {
      StageNeverDecreases(es, cs, i, j - 1);
      RunInv(es, cs, j - 1);
      StageStep(cs[j - 1], es[j - 1]);
    }
  }

  // ---- When the device lets the host in ----

  /** What the device has said in this read: the bytes that arrived, not the whole buffer. */
  function Said(e: Event): seq<byte>
    requires e.ControlRead? && -1 <= e.numRead <= |e.buf|
  {
    if e.numRead < 0 then [] else e.buf[..e.numRead]
  }

  /** The device's information packet says that it has no password. */
  predicate NeedsNoPassword(c: Control, e: Event)
    requires e.ControlRead? && -1 <= e.numRead <= |e.buf|
  {
    && c.stage == GettingInfo
    && c.infoSize == |Said(e)| >= 0
    && e.numRead >= 0
    && Parse(Said(e), e.decodable).Parsed?
    && Parse(Said(e), e.decodable).pwKey == 0
  }

  /** The device accepts the password last sent to it, which the recorded caller provided. */
  predicate AcceptsPassword(c: Control, e: Event)
    requires e.ControlRead? && -1 <= e.numRead <= |e.buf|
  {
    && Checking(c)
    && c.login.ctx.Some? && c.sent != [] && c.sent[|c.sent| - 1] == PasswordOf(c.login.ctx.value)
    && |Said(e)| == 2
    && Le16(Said(e), 0) != 0
  }

  predicate WaitsForUnlock(c: Control) {
    c.stage == Auth && c.login.key == KEY_ON_DEVICE
  }

  /** The device reports that it has been unlocked. */
  predicate ReportsUnlocked(c: Control, e: Event)
    requires e.ControlRead? && -1 <= e.numRead <= |e.buf|
  {
    && WaitsForUnlock(c)
    && |Said(e)| == 4
    && Le32(Said(e), 0) == 0
  }

  predicate LetsIn(c: Control, e: Event)
    requires e.ControlRead? && -1 <= e.numRead <= |e.buf|
  {
    NeedsNoPassword(c, e) || AcceptsPassword(c, e) || ReportsUnlocked(c, e)
  }

  /** The read for the unlock report fell short, over a buffer that already held a zero word. */
  predicate ShortUnlockRead(c: Control, e: Event)
    requires e.ControlRead? && -1 <= e.numRead <= |e.buf|
  {
    WaitsForUnlock(c) && e.numRead < 4 && Le32At(e.buf) == 0
  }

  function Le32At(buf: seq<byte>): int {
    if |buf| < 4 then -1 else Le32(buf, 0)
  }

  /** CONNECTED is entered exactly when the device lets the host in, or its unlock report is cut short. */
  lemma EntersConnectedIff(c: Control, e: Event)
    requires Inv(c) && Enabled(c, e) && c.stage != Connected
    ensures Step(c, e).stage == Connected <==> e.ControlRead? && (LetsIn(c, e) || ShortUnlockRead(c, e))
  {
    hide Parse, Le32, Le16, ReplyInv;
    if e.ControlRead? && e.numRead == |e.buf| {
      assert e.buf[..e.numRead] == e.buf;
    }
  }

  lemma {:induction false} ConnectedHasReason(es: seq<Event>, cs: seq<Control>, k: nat)
    requires IsRun(es, cs) && k <= |es| && cs[k].stage == Connected
    ensures exists i :: 0 <= i < k && es[i].ControlRead? && (LetsIn(cs[i], es[i]) || ShortUnlockRead(cs[i], es[i]))
  {
    hide Step, LetsIn, ShortUnlockRead, Inv;
    if cs[k - 1].stage == Connected {
      ConnectedHasReason(es, cs, k - 1);
    } else {
      RunInv(es, cs, k - 1);
      EntersConnectedIff(cs[k - 1], es[k - 1]);
    }
  }

  /** The short read is reachable: for any device to be unlocked on its own screen, a control connection that
      breaks while the host waits for the report leaves it CONNECTED if the buffer was zero. */
  lemma UnlockedUnheard(r: Record) returns (es: seq<Event>, cs: seq<Control>)
    requires r.Valid() && r.pwKey == KEY_ON_DEVICE && |Encode(r)| < 0x8000_0000
    ensures IsRun(es, cs) && |es| == 4
    ensures es[3] == ControlRead(-1, [0, 0, 0, 0], true, true) && !LetsIn(cs[3], es[3])
    ensures cs[3].stage == Auth && cs[4].stage == Connected
  {
    hide Encode, Parse;
    RoundTrip(r);
    var buf := Encode(r);
    es := [ControlRead(4, [4, 0, 0, 0], true, true), ControlRead(4, ToLe32(|buf|), true, true),
           ControlRead(|buf|, buf, true, true), ControlRead(-1, [0, 0, 0, 0], true, true)];
    var c1 := Step(Start(), es[0]);
    var c2 := Step(c1, es[1]);
    var c3 := Step(c2, es[2]);
    cs := [Start(), c1, c2, c3, Step(c3, es[3])];
  }

  // ---- What is written to the device, and what callers are told ----

  /** What an event calls for, by the bytes that have come.  The words 0 and 6 of the handshake have answers; a packet
      with the key of a device to be unlocked on its own screen is confirmed, and so is its report; and a password
      that is wanted goes out. */
  function CalledFor(c: Control, e: Event): seq<Message> {
    match e
    case ProvidePassword(call, writes) => if Ready(c) && writes then [PasswordOf(call)] else []
    case ControlRead(n, buf, _, decodable) =>
      if c.stage == Handshake && n == 4 && buf == [0, 0, 0, 0] then [Words([3])]
      else if c.stage == Handshake && n == 4 && buf == [6, 0, 0, 0] then [Words([7, 8, 4, 5])]
      else if c.stage == GettingInfo && 0 <= c.infoSize == n && HasKey(buf, decodable, 0xFFFF_FFFF) then [Words([8])]
      else if c.stage == Auth && c.login.key == 0xFFFF_FFFF && buf == [0, 0, 0, 0] then [Words([0]), Words([12])]
      else []
  }

  predicate HasKey(buf: seq<byte>, decodable: bool, key: u32) {
    Parse(buf, decodable).Parsed? && Parse(buf, decodable).pwKey == key
  }

  function CalledForAll(es: seq<Event>, cs: seq<Control>, k: nat): seq<Message>
    requires k <= |es| && |cs| == |es| + 1
  {
    if k == 0 then [] else CalledForAll(es, cs, k - 1) + CalledFor(cs[k - 1], es[k - 1])
  }

  lemma WordIs(buf: seq<byte>, x: byte)
    requires |buf| == 4
    ensures Le32(buf, 0) == x <==> buf == [x, 0, 0, 0]
  {
    if Le32(buf, 0) == x {
      SameWord(buf, [x, 0, 0, 0], 0);
    }
  }

  lemma SentStep(c: Control, e: Event)
    requires Inv(c) && Enabled(c, e)
    ensures Step(c, e).sent == c.sent + CalledFor(c, e)
  {
    hide Parse, Le32, Le16, ReplyInv;
    if e.ControlRead? && |e.buf| == 4 {
      WordIs(e.buf, 0);
      WordIs(e.buf, 6);
      WordIs(e.buf, 4);
    }
  }

  /** Over any run exactly this is written to the device, in order. */
  lemma {:induction false} SentIsCalledFor(es: seq<Event>, cs: seq<Control>, k: nat)
    requires IsRun(es, cs) && k <= |es|
    ensures cs[k].sent == CalledForAll(es, cs, k)
  {
    hide Step, Inv, CalledFor;
    if k > 0 {
      SentIsCalledFor(es, cs, k - 1);
      RunInv(es, cs, k - 1);
      SentStep(cs[k - 1], es[k - 1]);
    }
  }

  /** The device's verdict on the password of this caller arrives: two bytes, both zero if it is rejected. */
  predicate Verdict(c: Control, e: Event, call: Call, accepted: bool) {
    && e.ControlRead? && e.numRead == 2 && c.stage == Auth && c.login.key != 0xFFFF_FFFF && c.login.ctx == Some(call)
    && (accepted <==> e.buf != [0, 0])
  }

  lemma ToldStep(c: Control, e: Event, call: Call, accepted: bool)
    requires Inv(c) && Enabled(c, e)
    ensures var old0, new0 := c.login.told, Step(c, e).login.told;
            call in new0 && new0[call] == accepted <==>
              (call in old0 && old0[call] == accepted) || Verdict(c, e, call, accepted)
  {
    hide Parse, Le32;
    if e.ControlRead? && |e.buf| == 2 {
      assert Le16(e.buf, 0) == 0 <==> e.buf == [0, 0];
    }
  }

  /** A caller is told that its password is accepted, or rejected, exactly if that is the verdict the device gave while
      the caller was recorded. */
  lemma {:induction false} ToldIff(es: seq<Event>, cs: seq<Control>, k: nat, call: Call, accepted: bool)
    requires IsRun(es, cs) && k <= |es|
    ensures call in cs[k].login.told && cs[k].login.told[call] == accepted <==>
            exists i :: 0 <= i < k && Verdict(cs[i], es[i], call, accepted)
  {
    hide Step, Inv, Verdict;
    if k > 0 {
      ToldIff(es, cs, k - 1, call, accepted);
      RunInv(es, cs, k - 1);
      ToldStep(cs[k - 1], es[k - 1], call, accepted);
    }
  }

  /** With any device that has a password of the older kind there is a run that logs in: both handshake requests, the
      packet's size, the packet, a password, and the verdict. */
  lemma LogsIn(r: Record) returns (es: seq<Event>, cs: seq<Control>)
    requires r.Valid() && r.pwKey != 0 && r.pwKey != KEY_ON_DEVICE && |Encode(r)| < 0x8000_0000
    ensures var whole := (buf: seq<byte>) => ControlRead(|buf|, buf, true, true);
            es == [whole([0, 0, 0, 0]), whole([6, 0, 0, 0]), whole([4, 0, 0, 0]), whole(ToLe32(|Encode(r)|)),
                   whole(Encode(r)), ProvidePassword(7, true), whole([1, 0])]
    ensures IsRun(es, cs) && cs[5].stage == Auth && cs[5].login.key == r.pwKey
    ensures cs[7].stage == Connected && cs[7].login.told == map[7 := true]
    ensures cs[7].sent == [Words([3]), Words([7, 8, 4, 5]), PasswordOf(7)]
  {
    hide Encode, Parse, Inv;
    RoundTrip(r);
    var buf := Encode(r);
    var whole := (buf: seq<byte>) => ControlRead(|buf|, buf, true, true);
    es := [whole([0, 0, 0, 0]), whole([6, 0, 0, 0]), whole([4, 0, 0, 0]), whole(ToLe32(|buf|)), whole(buf),
           ProvidePassword(7, true), whole([1, 0])];
    var c1 := Step(Start(), es[0]);
    var c2 := Step(c1, es[1]);
    var c3 := Step(c2, es[2]);
    var c4 := Step(c3, es[3]);
    var c5 := Step(c4, es[4]);
    var c6 := Step(c5, es[5]);
    cs := [Start(), c1, c2, c3, c4, c5, c6, Step(c6, es[6])];
  }

  // ---- A password that cannot be sent ----

  /** A password is wanted and none is being checked. */
  predicate Ready(c: Control) {
    c.stage == Auth && ExpectsPassword(c.login.flags) && c.login.ctx == None
  }

  /** Each password goes to the device exactly when one is wanted; otherwise the caller is refused at once. */
  lemma SentIffReady(c: Control, call: Call, writes: bool)
    requires Inv(c) && Enabled(c, ProvidePassword(call, writes))
    ensures var c1 := Step(c, ProvidePassword(call, writes));
            if Ready(c) && writes then Checking(c1) && c1.login.ctx == Some(call) && call !in c1.login.replies
            else c1.login.replies == c.login.replies + [call] && c1.sent == c.sent
  {
  }

  /** A caller is recorded, but no answer of the device is awaited. */
  predicate LockedOut(c: Control) {
    c.stage == Auth && c.login.key != KEY_ON_DEVICE && c.login.ctx.Some? && c.inFlight == []
  }

  /** A password that is wanted cannot be written. */
  predicate FailsToSend(c: Control, e: Event) {
    e.ProvidePassword? && !e.writes && Ready(c)
  }

  /** The read of the device's verdict on a password brings something else than its two bytes. */
  predicate LosesVerdict(c: Control, e: Event) {
    e.ControlRead? && Checking(c) && e.numRead != 2
  }

  lemma EntersLockOutIff(c: Control, e: Event)
    requires Inv(c) && Enabled(c, e) && !LockedOut(c)
    ensures LockedOut(Step(c, e)) <==> FailsToSend(c, e) || LosesVerdict(c, e)
  {
    hide Parse, Le32, Le16, ReplyInv;
  }

  /** Nothing ends a lock-out: no read is left to be over, and every caller is refused at once. */
  lemma LockOutStays(c: Control, e: Event)
    requires Inv(c) && Enabled(c, e) && LockedOut(c)
    ensures e.ProvidePassword? && LockedOut(Step(c, e))
    ensures Step(c, e).login.replies == c.login.replies + [e.call] && Step(c, e).sent == c.sent
    ensures Step(c, e).login.ctx == c.login.ctx && Step(c, e).login.flags == c.login.flags
  {
    hide ControlEvent;
  }

  /** In any run the login is locked out exactly if some password could not be written or some verdict was lost. */
  lemma {:induction false} LockedOutIff(es: seq<Event>, cs: seq<Control>, k: nat)
    requires IsRun(es, cs) && k <= |es|
    ensures LockedOut(cs[k]) <==> exists i :: 0 <= i < k && (FailsToSend(cs[i], es[i]) || LosesVerdict(cs[i], es[i]))
  {
    hide Step, Inv, LockedOut, FailsToSend, LosesVerdict;
    if k == 0 {
      NotAtStart();
    } else {
      var c, e := cs[k - 1], es[k - 1];
      LockedOutIff(es, cs, k - 1);
      RunInv(es, cs, k - 1);
      if LockedOut(c) {
        LockOutStays(c, e);
      } else {
        EntersLockOutIff(c, e);
      }
    }
  }

  lemma NotAtStart()
    ensures !LockedOut(Start())
  {
  }

  /** A caller whose verdict is lost is never answered; all the others are. */
  lemma {:induction false} LostVerdictStrands(es: seq<Event>, cs: seq<Control>, i: nat, j: nat)
    requires IsRun(es, cs) && i < j <= |es| && LosesVerdict(cs[i], es[i])
    ensures LockedOut(cs[j]) && Checking(cs[j]) && cs[i].login.ctx.Some? && cs[j].login.ctx == cs[i].login.ctx
    ensures forall x :: x in cs[j].login.calls ==> (x in cs[j].login.replies <==> Some(x) != cs[i].login.ctx)
    decreases j
  {
    hide Parse, Le32, Le16, OneRead, HandshakeEvent, InfoEvent, PasswordCall;
    RunInv(es, cs, j - 1);
    RunInv(es, cs, j);
    if i < j - 1 {
      LostVerdictStrands(es, cs, i, j - 1);
      LockOutStays(cs[j - 1], es[j - 1]);
    } else {
      EntersLockOutIff(cs[i], es[i]);
    }
  }

  /** After a password that could not be written the login never completes, and everyone is answered. */
  lemma {:induction false} FailedWriteLocksOut(es: seq<Event>, cs: seq<Control>, i: nat, j: nat)
    requires IsRun(es, cs) && i < j <= |es| && FailsToSend(cs[i], es[i])
    ensures LockedOut(cs[j]) && cs[j].login.ctx == Some(es[i].call) && !Checking(cs[j])
    ensures forall x :: x in cs[j].login.calls ==> x in cs[j].login.replies
    decreases j
  {
    hide ControlEvent, OneRead;
    RunInv(es, cs, j - 1);
    RunInv(es, cs, j);
    if i < j - 1 {
      FailedWriteLocksOut(es, cs, i, j - 1);
      LockOutStays(cs[j - 1], es[j - 1]);
    }
  }

  /** Both ways into a lock-out are reachable, against any device with a password of the older kind. */
  lemma LockOutsReachable(r: Record) returns (es: seq<Event>, cs: seq<Control>, ds: seq<Event>, bs: seq<Control>)
    requires r.Valid() && r.pwKey != 0 && r.pwKey != KEY_ON_DEVICE && |Encode(r)| < 0x8000_0000
    ensures IsRun(es, cs) && |es| == 4 && FailsToSend(cs[3], es[3]) && LockedOut(cs[4])
    ensures IsRun(ds, bs) && |ds| == 5 && LosesVerdict(bs[4], ds[4]) && LockedOut(bs[5])
    ensures forall i :: 0 <= i < 5 ==> !FailsToSend(bs[i], ds[i])
  {
    hide Encode, Parse;
    RoundTrip(r);
    var buf := Encode(r);
    var e0, e1 := ControlRead(4, [4, 0, 0, 0], true, true), ControlRead(4, ToLe32(|buf|), true, true);
    var e2 := ControlRead(|buf|, buf, true, true);
    var c1 := Step(Start(), e0);
    var c2 := Step(c1, e1);
    var c3 := Step(c2, e2);
    es := [e0, e1, e2, ProvidePassword(7, false)];
    cs := [Start(), c1, c2, c3, Step(c3, es[3])];
    ds := [e0, e1, e2, ProvidePassword(7, true), ControlRead(-1, [0, 0], true, true)];
    var c4 := Step(c3, ds[3]);
    bs := [Start(), c1, c2, c3, c4, Step(c4, ds[4])];
  }

  // ---- A report that does not unlock ----

  /** The device is to be unlocked on its own screen, but no report of it is awaited any more. */
  predicate Abandoned(c: Control) {
    WaitsForUnlock(c) && c.inFlight == []
  }

  /** The first report that leaves anything but a zero word in the buffer is the last: none is read again. */
  lemma AbandonedIff(c: Control, e: Event)
    requires Inv(c) && Enabled(c, e)
    ensures Abandoned(Step(c, e)) <==>
            Abandoned(c) || (e.ControlRead? && WaitsForUnlock(c) && Le32At(e.buf) != 0)
  {
    hide Parse, Le32, Le16, ReplyInv;
  }

  // ---- A connection that does not come to a login ----

  /** No read is in flight, and no password has been asked for yet. */
  predicate Stalled(c: Control) {
    !c.aborted && Rank(c.stage) < Rank(Auth) && c.inFlight == []
  }

  /** A handshake message or length that is not whole or not known, a packet that is not whole or cannot be read. */
  predicate BreaksOff(c: Control, e: Event) {
    e.ControlRead? &&
    match c.stage
    case Handshake => e.numRead != 4 || Le32At(e.buf) !in [0, 4, 6]
    case GettingInfo =>
      if c.infoSize == -1 then e.numRead != 4 else e.numRead != c.infoSize || Parse(e.buf, e.decodable).Failed?
    case _ => false
  }

  lemma StallStep(c: Control, e: Event)
    requires Inv(c) && Enabled(c, e)
    ensures Stalled(Step(c, e)) <==> Stalled(c) || BreaksOff(c, e)
  {
    hide Parse, Le32, Le16, ReplyInv, LoginInv;
  }

  /** Nothing goes on: every caller is refused at once. */
  lemma StallStays(c: Control, e: Event)
    requires Inv(c) && Enabled(c, e) && Stalled(c)
    ensures e.ProvidePassword? && Step(c, e) == c.(login := Step(c, e).login)
    ensures Step(c, e).login.replies == c.login.replies + [e.call]
  {
    hide ControlEvent, ReplyInv;
  }

  /** In any run the connection is stalled before a password is asked for exactly if such a read has broken it off. */
  lemma {:induction false} StalledIff(es: seq<Event>, cs: seq<Control>, k: nat)
    requires IsRun(es, cs) && k <= |es|
    ensures Stalled(cs[k]) <==> exists i :: 0 <= i < k && BreaksOff(cs[i], es[i])
  {
    hide Step, Inv, BreaksOff;
    if k > 0 {
      StalledIff(es, cs, k - 1);
      RunInv(es, cs, k - 1);
      StallStep(cs[k - 1], es[k - 1]);
    }
  }

  /** The process stops for want of memory exactly when a whole length is 2^31 or more, or its buffer cannot be had. */
  lemma AbortsIff(c: Control, e: Event)
    requires Inv(c) && Enabled(c, e)
    ensures Step(c, e).aborted <==>
            && e.ControlRead? && c.stage == GettingInfo && c.infoSize == -1 && e.numRead == 4
            && (Le32At(e.buf) >= 0x8000_0000 || !e.allocates)
  {
    hide Parse, Le32, Le16, ReplyInv, LoginInv;
  }
}
