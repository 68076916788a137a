/** The callbacks of one RNDIS device, as they update its fields, proved against the transition systems. */
module DeviceRndis {
  import opened Bytes
  import opened InfoPacket
  import opened Wrappers
  import C = ControlChannel
  import T = Connections

  class SynceDeviceRndis {
    var state: C.Stage
    var infoBufSize: int
    var pwFlags: nat
    var pwKey: u32
    var pwCtx: Option<C.Call>
    var reqId: u32
    var requests: map<u32, T.Broker>
    var pendingClientConns: map<T.Conn, bool>
    /** What the peers see: reads begun and not over, messages written, calls and answers. */
    ghost var inFlight: seq<nat>
    ghost var sent: seq<C.Message>
    ghost var pwCalls: set<C.Call>
    ghost var pwReplies: seq<C.Call>
    ghost var pwTold: map<C.Call, bool>
    ghost var seen: T.Seen
    ghost var gaveUp: bool
    ghost var asserted: bool

    ghost function Control(): C.Control
      reads this
    {
      C.Control(state, infoBufSize, C.Login(pwFlags, pwKey, pwCtx, pwCalls, pwReplies, pwTold), inFlight, sent, gaveUp)
    }

    ghost function Table(): T.Table
      reads this
    {
      T.Table(reqId, requests, pendingClientConns, asserted, seen)
    }

    constructor ()
      ensures Control() == C.Start() && Table() == T.Start()
    {
      state, infoBufSize, pwFlags, pwKey, pwCtx := C.Handshake, -1, C.PW_UNSET, 0, None;
      reqId, requests, pendingClientConns := 0, map[], map[];
      inFlight, sent, pwCalls, pwReplies, pwTold := [4], [], {}, [], map[];
      seen := T.Start().seen;
      gaveUp, asserted := false, false;
    }

    method Write(words: seq<u32>)
      modifies this
      ensures Control() == old(Control().(sent := sent + [C.Words(words)])) && Table() == old(Table())
    {
      sent := sent + [C.Words(words)];
    }

    method Read(size: nat)
      modifies this
      ensures Control() == old(Control().(inFlight := inFlight + [size])) && Table() == old(Table())
    {
      inFlight := inFlight + [size];
    }

    /** A read of the control connection is over. */
    method ConnEvent(numRead: int, iobuf: array<byte>, allocates: bool, decodable: bool)
      requires C.Enabled(Control(), C.ControlRead(numRead, iobuf[..], allocates, decodable)) && C.Inv(Control())
      modifies this
      ensures Control() == old(C.ControlEvent(Control(), numRead, iobuf[..], allocates, decodable))
      ensures Table() == old(Table())
    {
      hide Parse, Le32, Le16;
      inFlight := inFlight[1..];
      if state == C.Handshake {
        HandshakeEvent(numRead, iobuf);
      } else if C.Rank(state) < C.Rank(C.Auth) {
        if infoBufSize == -1 {
          if numRead != 4 {
            return;
          }
          infoBufSize := C.Signed(Le32(iobuf[..], 0));
          if infoBufSize < 0 || !allocates {
            gaveUp := true;
            return;
          }
          Read(infoBufSize);
        } else {
          if numRead != infoBufSize {
            return;
          }
          var r, _ := InfoReceived(iobuf, decodable);
          InfoParsed(r);
        }
      } else if state == C.Auth {
        AuthEvent(numRead, iobuf);
      }
    }

    method HandshakeEvent(numRead: int, iobuf: array<byte>)
      requires iobuf.Length == 4
      modifies this
      ensures Control() == old(C.HandshakeEvent(Control(), numRead, iobuf[..])) && Table() == old(Table())
    {
      hide Le32;
      if numRead != 4 {
        return;
      }
      var req := Le32(iobuf[..], 0);
      var resp: seq<u32> := [];
      if req == 0 {
        resp := resp + [3];
      } else if req == 4 {
        state := C.GettingInfo;
        Read(4);
      } else if req == 6 {
        resp := resp + [7];
        resp := resp + [8];
        resp := resp + [4];
        resp := resp + [5];
      }
      assert req == 0 ==> resp == [3];
      assert req == 6 ==> resp == [7, 8, 4, 5];
      if |resp| > 0 {
        Write(resp);
        Read(4);
      }
    }

    /** The rest of the handling of the information packet, its fields once read. */
    method InfoParsed(r: Parsed)
      modifies this
      ensures Control() == old(C.InfoComplete(Control(), r)) && Table() == old(Table())
    {
      state := C.GotInfo;
      match r
      case Failed(stored) =>
        if stored.Some? {
          pwKey := stored.value;
        }
      case Parsed(_, key) =>
        pwKey := key;
        if pwKey != 0 {
          if pwKey != C.KEY_ON_DEVICE {
            state := C.Auth;
            pwFlags := C.PW_PROVIDE;
          } else {
            state := C.Auth;
            Write([8]);
            Read(4);
            pwFlags := C.PW_PROVIDE_ON_DEVICE;
          }
        } else {
          pwFlags := C.PW_UNSET;
          state := C.Connected;
        }
    }

    method AuthEvent(numRead: int, iobuf: array<byte>)
      requires -1 <= numRead <= iobuf.Length && C.LoginInv(Control()) && state == C.Auth
      requires pwKey == C.KEY_ON_DEVICE ==> iobuf.Length == 4
      requires pwKey != C.KEY_ON_DEVICE ==> iobuf.Length == 2 && pwCtx.Some?
      modifies this
      ensures Control() == old(C.AuthEvent(Control(), numRead, iobuf[..])) && Table() == old(Table())
    {
      hide Le32, Le16;
      if pwKey != C.KEY_ON_DEVICE {
        if numRead != 2 {
          return;
        }
        var result := Le16(iobuf[..], 0);
        if result != 0 {
          state := C.Connected;
          pwFlags := C.PW_UNLOCKED;
        } else {
          pwFlags := C.PW_PROVIDE;
        }
        pwReplies := pwReplies + [pwCtx.value];
        pwTold := pwTold[pwCtx.value := result != 0];
        pwCtx := None;
      } else {
        var result := Le32(iobuf[..], 0);
        if result == 0 {
          state := C.Connected;
          pwFlags := C.PW_UNLOCKED;
          Write([0]);
          Write([0xC]);
        }
      }
    }

    method ProvidePassword(ctx: C.Call, writes: bool)
      requires C.Enabled(Control(), C.ProvidePassword(ctx, writes))
      modifies this
      ensures Control() == old(C.PasswordCall(Control(), ctx, writes)) && Table() == old(Table())
    {
      pwCalls := pwCalls + {ctx};
      var error := false;
      if state != C.Auth || !C.ExpectsPassword(pwFlags) {
        error := true;
      } else if pwCtx.Some? {
        error := true;
      } else {
        pwCtx := Some(ctx);
        if !writes {
          error := true;
        } else {
          sent := sent + [C.PasswordOf(ctx)];
          Read(2);
          pwFlags := C.PW_CHECKING;
        }
      }
      if error {
        pwReplies := pwReplies + [ctx];
      }
    }

    method RequestConnection(ctx: T.Call, writes: bool)
      requires T.Enabled(Table(), T.Request(ctx, state.Connected?, writes))
      modifies this
      ensures Table() == old(T.RequestCall(Table(), ctx, state.Connected?, writes))
      ensures Control() == old(if state.Connected? && writes
                               then Control().(sent := sent + [C.Words([5, 4, reqId + 1])]) else Control())
    {
      seen := seen.(calls := seen.calls + {ctx});
      if state != C.Connected {
        seen := T.Reply(seen, ctx);
        return;
      }
      reqId := Wrap32(reqId + 1);
      requests := requests[reqId := T.Broker(reqId, Some(ctx), None, false)];
      seen := seen.(issued := seen.issued[reqId := ctx]);
      if writes {
        Write([5, 4, reqId]);
        seen := seen.(asked := seen.asked + {reqId});
      } else {
        seen := T.Reply(seen, ctx);
      }
    }

    method ClientConnected(conn: T.Conn)
      requires T.Enabled(Table(), T.ClientConnected(conn))
      modifies this
      ensures Table() == old(T.Step(Table(), T.ClientConnected(conn))) && Control() == old(Control())
    {
      pendingClientConns := pendingClientConns[conn := true];
      seen := seen.(conns := seen.conns + {conn});
    }

    /** The read of the id on a connection from the device is over. */
    method ClientEvent(conn: T.Conn, numRead: int, id: u32, listens: bool)
      requires T.Enabled(Table(), T.ClientRead(conn, numRead, id, listens))
      modifies this
      ensures Table() == old(T.ClientEvent(Table(), conn, numRead, id, listens)) && Control() == old(Control())
    {
      if numRead != 4 {
        pendingClientConns := pendingClientConns[conn := false];
        return;
      }
      pendingClientConns := pendingClientConns - {conn};
      seen := seen.(carried := seen.carried[conn := id]);
      if id in requests {
        TakeConnection(id, conn, listens);
      }
    }

    /** The broker of this id gets its connection; its assertion that it has none stops the process. */
    method TakeConnection(id: u32, conn: T.Conn, listens: bool)
      requires id in requests
      modifies this
      ensures Table() == old(T.TakeConnection(Table(), id, conn, listens)) && Control() == old(Control())
    {
      var broker := requests[id];
      if broker.conn.Some? {
        asserted := true;
        return;
      }
      broker := broker.(conn := Some(conn), listening := listens);
      if broker.ctx.Some? {
        seen := T.Reply(seen, broker.ctx.value);
      }
      broker := broker.(ctx := None);
      requests := requests[id := broker];
    }

    /** A client comes to the broker's socket; then the broker is done. */
    method Incoming(id: u32, passes: bool)
      requires T.Enabled(Table(), T.Incoming(id, passes)) && T.TableInv(Table())
      modifies this
      ensures Table() == old(T.Pass(Table(), id, passes)) && Control() == old(Control())
    {
      var broker := requests[id];
      if passes {
        seen := seen.(passed := seen.passed + [(id, broker.conn.value)]);
      }
      requests := requests - {broker.id};
    }
  }
}
