/**
 * The control connection of a device older than Windows Mobile 5.  The password challenge comes before the
 * information packet, as a header too large to be a packet length; afterwards the host pings the device.
 */
module LegacyControl {
  import opened Bytes
  import opened Wrappers
  import opened ControlChannel

  const MAX_PACKET_SIZE: nat := 512
  const MIN_PACKET_SIZE: nat := 0x24
  const PING: u32 := 0x1234_5678

  /** challenge: the last password challenge received. */
  datatype Legacy = Legacy(ctl: Control, challenge: Option<u32>)

  function Begin(): Legacy {
    Legacy(Start(), None)
  }

  /** `parses`: the strings of the information packet are in bounds and decode. */
  datatype LegacyEvent =
    | LegacyRead(numRead: int, buf: seq<byte>, parses: bool)
    | LegacyPassword(call: Call, writes: bool)
    | SendPing

  predicate Possible(g: Legacy, e: LegacyEvent) {
    match e
    case LegacyRead(n, buf, _) => g.ctl.inFlight != [] && |buf| == g.ctl.inFlight[0] && -1 <= n <= |buf|
    case LegacyPassword(call, _) => call !in g.ctl.login.calls
    case SendPing => g.ctl.stage == Connected
  }

  function HeaderEvent(g: Legacy, header: u32): Legacy {
    var c := g.ctl;
    if header == 0 then g.(ctl := c.(inFlight := c.inFlight + [4]))
    else if header < MIN_PACKET_SIZE then g
    else if header < MAX_PACKET_SIZE then
      g.(ctl := c.(stage := GettingInfo, infoSize := header, inFlight := c.inFlight + [header]))
    else
      Legacy(c.(login := c.login.(key := header % 0x100), inFlight := c.inFlight + [4]), Some(header))
  }

  function PacketRead(c: Control, n: int, parses: bool): Control {
    if n != c.infoSize then c else PacketComplete(c, n, parses)
  }

  function PacketComplete(c: Control, length: int, parses: bool): Control {
    if length < 24 || !parses then c.(stage := GotInfo)
    else if c.login.key != 0 then c.(stage := Auth, login := c.login.(flags := PW_PROVIDE))
    else c.(stage := Connected, login := c.login.(flags := PW_UNSET))
  }

  function ReplyRead(c: Control, n: int, buf: seq<byte>): Control {
    if n != 2 || |buf| < 2 then c
    else if Le16(buf, 0) != 0 then c.(stage := Connected, login := Answer(c.login, PW_UNLOCKED, true))
    else c.(login := Answer(c.login, PW_PROVIDE, false))
  }

  /** A ping reply or anything else that is not an empty header ends the reading until the next ping. */
  function IdleRead(c: Control, n: int, buf: seq<byte>): Control {
    if n == 4 && |buf| >= 4 && Le32(buf, 0) == 0 then c.(inFlight := c.inFlight + [4]) else c
  }

  function ReadEvent(g: Legacy, n: int, buf: seq<byte>, parses: bool): Legacy
    requires g.ctl.inFlight != []
  {
    var c := g.ctl.(inFlight := g.ctl.inFlight[1..]);
    var g1 := g.(ctl := c);
    match c.stage
    case Handshake => if n != 4 || |buf| < 4 then g1 else HeaderEvent(g1, Le32(buf, 0))
    case Auth => g.(ctl := ReplyRead(c, n, buf))
    case Connected => g.(ctl := IdleRead(c, n, buf))
    case _ => g.(ctl := PacketRead(c, n, parses))
  }

  function Ping(c: Control): Control {
    c.(sent := c.sent + [Words([PING])], inFlight := c.inFlight + [4])
  }

  function LegacyStep(g: Legacy, e: LegacyEvent): Legacy
    requires Possible(g, e)
  {
    match e
    case LegacyRead(n, buf, parses) => ReadEvent(g, n, buf, parses)
    case LegacyPassword(call, writes) => g.(ctl := PasswordCall(g.ctl, call, writes))
    case SendPing => g.(ctl := Ping(g.ctl))
  }

  // ---- Invariant ----

  function Expects(c: Control): int {
    match c.stage
    case Handshake => 4
    case GettingInfo => c.infoSize
    case Auth => 2
    case _ => 0
  }

  /** Until CONNECTED one read at most is in flight, of the expected size; the key is the challenge's low byte. */
  ghost predicate LegacyInv(g: Legacy) {
    && (g.ctl.stage != Connected ==> g.ctl.inFlight == [] || g.ctl.inFlight == [Expects(g.ctl)])
    && (g.ctl.stage == Connected ==> forall i :: 0 <= i < |g.ctl.inFlight| ==> g.ctl.inFlight[i] == 4)
    && (g.ctl.stage == GotInfo ==> g.ctl.inFlight == [])
    && (g.ctl.stage == GettingInfo ==> MIN_PACKET_SIZE <= g.ctl.infoSize < MAX_PACKET_SIZE)
    && g.ctl.login.key == (match g.challenge case None => 0 case Some(h) => h % 0x100)
    && g.ctl.login.key != KEY_ON_DEVICE
    && LoginInv(g.ctl)
    && ReplyInv(g.ctl)
  }

  lemma BeginsValid()
    ensures LegacyInv(Begin())
  {
  }

  lemma ReadKeepsLegacy(g: Legacy, n: int, buf: seq<byte>, parses: bool)
    requires LegacyInv(g) && Possible(g, LegacyRead(n, buf, parses))
    ensures LegacyInv(ReadEvent(g, n, buf, parses))
  {
    hide LegacyInv, ReadEvent, Possible;
    if g.ctl.stage == Auth {
      AuthKeepsLegacy(g, n, buf, parses);
    } else {
      EarlyKeepsLegacy(g, n, buf, parses);
    }
  }

  lemma AuthKeepsLegacy(g: Legacy, n: int, buf: seq<byte>, parses: bool)
    requires LegacyInv(g) && Possible(g, LegacyRead(n, buf, parses)) && g.ctl.stage == Auth
    ensures LegacyInv(ReadEvent(g, n, buf, parses))
  {
    hide Le32, Le16, HeaderEvent, PacketRead, IdleRead;
  }

  lemma EarlyKeepsLegacy(g: Legacy, n: int, buf: seq<byte>, parses: bool)
    requires LegacyInv(g) && Possible(g, LegacyRead(n, buf, parses)) && g.ctl.stage != Auth
    ensures LegacyInv(ReadEvent(g, n, buf, parses))
  {
    hide Le32, Le16, ReplyRead;
  }

  lemma PasswordKeepsLegacy(g: Legacy, call: Call, writes: bool)
    requires LegacyInv(g) && Possible(g, LegacyPassword(call, writes))
    ensures LegacyInv(g.(ctl := PasswordCall(g.ctl, call, writes)))
  {
  }

  lemma KeepsLegacy(g: Legacy, e: LegacyEvent)
    requires LegacyInv(g) && Possible(g, e)
    ensures LegacyInv(LegacyStep(g, e))
  {
    hide ReadEvent, PasswordCall;
    match e
    case LegacyRead(n, buf, parses) => ReadKeepsLegacy(g, n, buf, parses);
    case LegacyPassword(call, writes) => PasswordKeepsLegacy(g, call, writes);
    case SendPing =>
  }

  // ---- Runs ----

  ghost predicate IsLegacyRun(es: seq<LegacyEvent>, gs: seq<Legacy>) {
    && |gs| == |es| + 1
    && gs[0] == Begin()
    && forall i :: 0 <= i < |es| ==> Possible(gs[i], es[i]) && gs[i + 1] == LegacyStep(gs[i], es[i])
  }

  lemma {:induction false} LegacyRunInv(es: seq<LegacyEvent>, gs: seq<Legacy>, k: nat)
    requires IsLegacyRun(es, gs) && k <= |es|
    ensures LegacyInv(gs[k])
  {
    hide LegacyStep, LegacyInv;
    if k == 0 {
      BeginsValid();
    } else {
      LegacyRunInv(es, gs, k - 1);
      KeepsLegacy(gs[k - 1], es[k - 1]);
    }
  }

  lemma LegacyStageStep(g: Legacy, e: LegacyEvent)
    requires LegacyInv(g) && Possible(g, e)
    ensures Rank(g.ctl.stage) <= Rank(LegacyStep(g, e).ctl.stage)
    ensures g.ctl.login.replies <= LegacyStep(g, e).ctl.login.replies
  {
    hide Le32, Le16, ReplyInv;
  }

  /** The stage never goes back, and an answer given stays given. */
  lemma {:induction false} LegacyStageNeverDecreases(es: seq<LegacyEvent>, gs: seq<Legacy>, i: nat, j: nat)
    requires IsLegacyRun(es, gs) && i <= j <= |es|
    ensures Rank(gs[i].ctl.stage) <= Rank(gs[j].ctl.stage)
    ensures gs[i].ctl.login.replies <= gs[j].ctl.login.replies
    decreases j
  {
    hide LegacyStep, LegacyInv, Rank;
    if i < j {
      LegacyStageNeverDecreases(es, gs, i, j - 1);
      LegacyRunInv(es, gs, j - 1);
      LegacyStageStep(gs[j - 1], es[j - 1]);
    }
  }

  /** A whole, readable information packet arrives though the last challenge, if any, has low byte zero. */
  predicate Unchallenged(g: Legacy, e: LegacyEvent) {
    && e.LegacyRead? && g.ctl.stage == GettingInfo && e.numRead == g.ctl.infoSize && e.parses
    && (g.challenge.None? || g.challenge.value % 0x100 == 0)
  }

  /** Two bytes, not both zero, answer the password last sent, which the recorded caller provided. */
  predicate Accepts(g: Legacy, e: LegacyEvent) {
    && e.LegacyRead? && Checking(g.ctl) && e.numRead == 2 && |e.buf| >= 2 && Le16(e.buf, 0) != 0
    && g.ctl.login.ctx.Some? && g.ctl.sent != [] && g.ctl.sent[|g.ctl.sent| - 1] == PasswordOf(g.ctl.login.ctx.value)
  }

  lemma LegacyEntersConnectedIff(g: Legacy, e: LegacyEvent)
    requires LegacyInv(g) && Possible(g, e) && g.ctl.stage != Connected
    ensures LegacyStep(g, e).ctl.stage == Connected <==> Unchallenged(g, e) || Accepts(g, e)
  {
    hide Le32, Le16, ReplyInv;
  }

  lemma {:induction false} LegacyConnectedHasReason(es: seq<LegacyEvent>, gs: seq<Legacy>, k: nat)
    requires IsLegacyRun(es, gs) && k <= |es| && gs[k].ctl.stage == Connected
    ensures exists i :: 0 <= i < k && (Unchallenged(gs[i], es[i]) || Accepts(gs[i], es[i]))
  {
    hide LegacyStep, Unchallenged, Accepts, LegacyInv;
    if gs[k - 1].ctl.stage == Connected {
      LegacyConnectedHasReason(es, gs, k - 1);
    } else {
      LegacyRunInv(es, gs, k - 1);
      LegacyEntersConnectedIff(gs[k - 1], es[k - 1]);
    }
  }

  // ---- A login that cannot go on ----

  predicate CannotSend(g: Legacy, e: LegacyEvent) {
    e.LegacyPassword? && !e.writes && Ready(g.ctl)
  }

  predicate VerdictLost(g: Legacy, e: LegacyEvent) {
    e.LegacyRead? && Checking(g.ctl) && e.numRead != 2
  }

  lemma LegacyEntersLockOutIff(g: Legacy, e: LegacyEvent)
    requires LegacyInv(g) && Possible(g, e) && !LockedOut(g.ctl)
    ensures LockedOut(LegacyStep(g, e).ctl) <==> CannotSend(g, e) || VerdictLost(g, e)
  {
    hide Le32, Le16, ReplyInv;
  }

  lemma LegacyLockOutStays(g: Legacy, e: LegacyEvent)
    requires LegacyInv(g) && Possible(g, e) && LockedOut(g.ctl)
    ensures e.LegacyPassword? && LockedOut(LegacyStep(g, e).ctl)
    ensures LegacyStep(g, e).ctl.login.replies == g.ctl.login.replies + [e.call]
  {
    hide ReadEvent, ReplyInv;
  }

  /** In any run the login is locked out exactly if some password could not be written or some verdict was lost. */
  lemma {:induction false} LegacyLockedOutIff(es: seq<LegacyEvent>, gs: seq<Legacy>, k: nat)
    requires IsLegacyRun(es, gs) && k <= |es|
    ensures LockedOut(gs[k].ctl) <==> exists i :: 0 <= i < k && (CannotSend(gs[i], es[i]) || VerdictLost(gs[i], es[i]))
  {
    hide LegacyStep, LegacyInv, CannotSend, VerdictLost;
    if k > 0 {
      var g, e := gs[k - 1], es[k - 1];
      LegacyLockedOutIff(es, gs, k - 1);
      LegacyRunInv(es, gs, k - 1);
      if LockedOut(g.ctl) {
        LegacyLockOutStays(g, e);
      } else {
        LegacyEntersLockOutIff(g, e);
      }
    }
  }

  // ---- What is written to the device, and what callers are told ----

  /** Passwords that are wanted, and pings. */
  function LegacyCalledFor(g: Legacy, e: LegacyEvent): seq<Message> {
    match e
    case LegacyRead(_, _, _) => []
    case LegacyPassword(call, writes) => if Ready(g.ctl) && writes then [PasswordOf(call)] else []
    case SendPing => [Words([0x1234_5678])]
  }

  function LegacyCalledForAll(es: seq<LegacyEvent>, gs: seq<Legacy>, k: nat): seq<Message>
    requires k <= |es| && |gs| == |es| + 1
  {
    if k == 0 then [] else LegacyCalledForAll(es, gs, k - 1) + LegacyCalledFor(gs[k - 1], es[k - 1])
  }

  lemma LegacySentStep(g: Legacy, e: LegacyEvent)
    requires LegacyInv(g) && Possible(g, e)
    ensures LegacyStep(g, e).ctl.sent == g.ctl.sent + LegacyCalledFor(g, e)
  {
    hide Le32, Le16, ReplyInv;
  }

  /** Over any run exactly this is written to the device, in order. */
  lemma {:induction false} LegacySentIsCalledFor(es: seq<LegacyEvent>, gs: seq<Legacy>, k: nat)
    requires IsLegacyRun(es, gs) && k <= |es|
    ensures gs[k].ctl.sent == LegacyCalledForAll(es, gs, k)
  {
    hide LegacyStep, LegacyInv, LegacyCalledFor;
    if k > 0 {
      LegacySentIsCalledFor(es, gs, k - 1);
      LegacyRunInv(es, gs, k - 1);
      LegacySentStep(gs[k - 1], es[k - 1]);
    }
  }

  predicate LegacyVerdict(g: Legacy, e: LegacyEvent, call: Call, accepted: bool) {
    && e.LegacyRead? && e.numRead == 2 && g.ctl.stage == Auth && g.ctl.login.ctx == Some(call)
    && (accepted <==> e.buf != [0, 0])
  }

  lemma LegacyToldStep(g: Legacy, e: LegacyEvent, call: Call, accepted: bool)
    requires LegacyInv(g) && Possible(g, e)
    ensures var old0, new0 := g.ctl.login.told, LegacyStep(g, e).ctl.login.told;
            call in new0 && new0[call] == accepted <==>
              (call in old0 && old0[call] == accepted) || LegacyVerdict(g, e, call, accepted)
  {
    hide Le32;
    if e.LegacyRead? && |e.buf| == 2 {
      assert Le16(e.buf, 0) == 0 <==> e.buf == [0, 0];
    }
  }

  /** A caller is told that its password is accepted, or rejected, exactly if that is the verdict the device gave while
      the caller was recorded. */
  lemma {:induction false} LegacyToldIff(es: seq<LegacyEvent>, gs: seq<Legacy>, k: nat, call: Call, accepted: bool)
    requires IsLegacyRun(es, gs) && k <= |es|
    ensures call in gs[k].ctl.login.told && gs[k].ctl.login.told[call] == accepted <==>
            exists i :: 0 <= i < k && LegacyVerdict(gs[i], es[i], call, accepted)
  {
    hide LegacyStep, LegacyInv, LegacyVerdict;
    if k > 0 {
      LegacyToldIff(es, gs, k - 1, call, accepted);
      LegacyRunInv(es, gs, k - 1);
      LegacyToldStep(gs[k - 1], es[k - 1], call, accepted);
    }
  }

  // ---- A connection that does not come to a login, and one that does ----

  predicate LegacyStalled(g: Legacy) {
    Rank(g.ctl.stage) < Rank(Auth) && g.ctl.inFlight == []
  }

  /** A header that is not whole or too small for a packet, a packet that is not whole or cannot be read. */
  predicate LegacyBreaksOff(g: Legacy, e: LegacyEvent) {
    e.LegacyRead? &&
    match g.ctl.stage
    case Handshake => e.numRead != 4 || 0 < Le32At(e.buf) < 0x24
    case GettingInfo => e.numRead != g.ctl.infoSize || !e.parses
    case _ => false
  }

  lemma LegacyStallStep(g: Legacy, e: LegacyEvent)
    requires LegacyInv(g) && Possible(g, e)
    ensures LegacyStalled(LegacyStep(g, e)) <==> LegacyStalled(g) || LegacyBreaksOff(g, e)
  {
    hide Le32, Le16, ReplyInv;
  }

  lemma {:induction false} LegacyStalledIff(es: seq<LegacyEvent>, gs: seq<Legacy>, k: nat)
    requires IsLegacyRun(es, gs) && k <= |es|
    ensures LegacyStalled(gs[k]) <==> exists i :: 0 <= i < k && LegacyBreaksOff(gs[i], es[i])
  {
    hide LegacyStep, LegacyInv, LegacyBreaksOff;
    if k > 0 {
      LegacyStalledIff(es, gs, k - 1);
      LegacyRunInv(es, gs, k - 1);
      LegacyStallStep(gs[k - 1], es[k - 1]);
    }
  }

  /** With any challenge and any packet of a possible size there is a run that logs in: an empty header, the challenge,
      the packet's size, the packet, a password, and the verdict. */
  lemma LegacyLogsIn(challenge: u32, packet: seq<byte>) returns (es: seq<LegacyEvent>, gs: seq<Legacy>)
    requires challenge >= 0x200 && challenge % 0x100 != 0 && 0x24 <= |packet| < 0x200
    ensures IsLegacyRun(es, gs) && |es| == 6 && gs[4].ctl.stage == Auth && gs[4].ctl.login.key == challenge % 0x100
    ensures gs[6].ctl.stage == Connected && gs[6].ctl.login.told == map[7 := true]
    ensures gs[6].ctl.sent == [PasswordOf(7)]
    ensures es == [LegacyRead(4, [0, 0, 0, 0], true), LegacyRead(4, ToLe32(challenge), true),
                   LegacyRead(4, ToLe32(|packet|), true), LegacyRead(|packet|, packet, true),
                   LegacyPassword(7, true), LegacyRead(2, [1, 0], true)]
  {
    hide ToLe32, LegacyInv;
    es := [LegacyRead(4, [0, 0, 0, 0], true), LegacyRead(4, ToLe32(challenge), true),
           LegacyRead(4, ToLe32(|packet|), true), LegacyRead(|packet|, packet, true),
           LegacyPassword(7, true), LegacyRead(2, [1, 0], true)];
    var g1 := LegacyStep(Begin(), es[0]);
    var g2 := LegacyStep(g1, es[1]);
    var g3 := LegacyStep(g2, es[2]);
    var g4 := LegacyStep(g3, es[3]);
    var g5 := LegacyStep(g4, es[4]);
    gs := [Begin(), g1, g2, g3, g4, g5, LegacyStep(g5, es[5])];
  }

  /** Once CONNECTED the host pings, and after each ping reads on as long as empty headers come; nothing else
      changes. */
  lemma LegacyIdle(g: Legacy, e: LegacyEvent)
    requires LegacyInv(g) && Possible(g, e) && g.ctl.stage == Connected && !e.LegacyPassword?
    ensures var c, g1 := g.ctl, LegacyStep(g, e);
            && g1.challenge == g.challenge
            && g1.ctl == c.(inFlight := g1.ctl.inFlight, sent := g1.ctl.sent)
            && g1.ctl.inFlight == if e.SendPing? then c.inFlight + [4]
                                  else c.inFlight[1..] + if e.numRead == 4 && e.buf == [0, 0, 0, 0] then [4] else []
  {
    hide Le32, Le16, ReplyInv;
    if e.LegacyRead? && |e.buf| == 4 {
      WordIs(e.buf, 0);
    }
  }
}
