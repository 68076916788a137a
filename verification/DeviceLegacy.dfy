/** The callbacks of one legacy device, as they update its fields, proved against the transition system. */
module DeviceLegacy {
  import opened Bytes
  import opened InfoPacket
  import opened Wrappers
  import C = ControlChannel
  import L = LegacyControl

  class SynceDeviceLegacy {
    var state: C.Stage
    var infoBufSize: int
    var pwFlags: nat
    var pwKey: u32
    var pwCtx: Option<C.Call>
    /** Whose password is kept for the connections to come. */
    var password: Option<C.Call>
    /** What the peers see: reads begun and not over, messages written, calls and answers, the challenge. */
    ghost var inFlight: seq<nat>
    ghost var sent: seq<C.Message>
    ghost var pwCalls: set<C.Call>
    ghost var pwReplies: seq<C.Call>
    ghost var pwTold: map<C.Call, bool>
    ghost var challenge: Option<u32>

    ghost function View(): L.Legacy
      reads this
    {
      var login := C.Login(pwFlags, pwKey, pwCtx, pwCalls, pwReplies, pwTold);
      L.Legacy(C.Control(state, infoBufSize, login, inFlight, sent, false), challenge)
    }

    constructor ()
      ensures View() == L.Begin() && password == None
    {
      state, infoBufSize, pwFlags, pwKey, pwCtx, password := C.Handshake, -1, C.PW_UNSET, 0, None, None;
      inFlight, sent, pwCalls, pwReplies, pwTold, challenge := [4], [], {}, [], map[], None;
    }

    /** A read of the control connection is over. */
    method ConnEvent(numRead: int, iobuf: array<byte>, parses: bool)
      requires L.LegacyInv(View()) && L.Possible(View(), L.LegacyRead(numRead, iobuf[..], parses))
      modifies this
      ensures View() == old(L.ReadEvent(View(), numRead, iobuf[..], parses))
    {
      hide Le32, Le16, L.ReplyRead;
      inFlight := inFlight[1..];
      if C.Rank(state) < C.Rank(C.GettingInfo) {
        if numRead != 4 {
          return;
        }
        var header := Le32(iobuf[..], 0);
        if header == 0 {
          inFlight := inFlight + [4];
          return;
        } else if header < L.MAX_PACKET_SIZE {
          if header < L.MIN_PACKET_SIZE {
            return;
          }
          state := C.GettingInfo;
          infoBufSize := header;
          inFlight := inFlight + [infoBufSize];
        } else {
          pwKey := header % 0x100;
          challenge := Some(header);
          inFlight := inFlight + [4];
        }
      } else if C.Rank(state) < C.Rank(C.Auth) {
        if numRead != infoBufSize {
          return;
        }
        InfoReceived(numRead, parses);
      } else if state == C.Auth {
        AuthEvent(numRead, iobuf);
      } else {
        if numRead != 4 || iobuf.Length < 4 {
          return;
        }
        if Le32(iobuf[..], 0) == 0 {
          inFlight := inFlight + [4];
        }
      }
    }

    /** The device's verdict on a password; one that is rejected is not kept. */
    method AuthEvent(numRead: int, iobuf: array<byte>)
      requires -1 <= numRead <= iobuf.Length == 2 && pwCtx.Some?
      modifies this
      ensures View() == old(View().(ctl := L.ReplyRead(View().ctl, numRead, iobuf[..])))
      ensures password == if numRead == 2 && iobuf[..] == [0, 0] then None else old(password)
    {
      hide Le32;
      if numRead != 2 {
        return;
      }
      var result := Le16(iobuf[..], 0);
      if result != 0 {
        state := C.Connected;
        pwFlags := C.PW_UNLOCKED;
      } else {
        password := None;
        pwFlags := C.PW_PROVIDE;
      }
      pwReplies := pwReplies + [pwCtx.value];
      pwTold := pwTold[pwCtx.value := result != 0];
      pwCtx := None;
    }

    method InfoReceived(length: int, parses: bool)
      modifies this
      ensures View() == old(View().(ctl := L.PacketComplete(View().ctl, length, parses)))
      ensures password == old(password)
    {
      state := C.GotInfo;
      if 24 > length || !parses {
        return;
      }
      if pwKey != 0 {
        state := C.Auth;
        pwFlags := C.PW_PROVIDE;
      } else {
        pwFlags := C.PW_UNSET;
        state := C.Connected;
      }
    }

    method ProvidePassword(ctx: C.Call, writes: bool)
      requires ctx !in pwCalls
      modifies this
      ensures View() == old(View().(ctl := C.PasswordCall(View().ctl, ctx, writes)))
      ensures password == if old(C.Ready(View().ctl)) then Some(ctx) else old(password)
    {
      if state != C.Auth || !C.ExpectsPassword(pwFlags) || pwCtx.Some? {
        pwCalls := pwCalls + {ctx};
        pwReplies := pwReplies + [ctx];
        return;
      }
      password := Some(ctx);
      ProvideToDevice(ctx, writes);
    }

    /** The implementation shared by all devices. */
    method ProvideToDevice(ctx: C.Call, writes: bool)
      requires ctx !in pwCalls
      modifies this
      ensures View() == old(View().(ctl := C.PasswordCall(View().ctl, ctx, writes))) && password == old(password)
    {
      pwCalls := pwCalls + {ctx};
      if state != C.Auth || !C.ExpectsPassword(pwFlags) || pwCtx.Some? {
        pwReplies := pwReplies + [ctx];
        return;
      }
      pwCtx := Some(ctx);
      if !writes {
        pwReplies := pwReplies + [ctx];
        return;
      }
      sent := sent + [C.PasswordOf(ctx)];
      inFlight := inFlight + [2];
      pwFlags := C.PW_CHECKING;
    }
  }
}
