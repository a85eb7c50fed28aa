/** The DNS-over-TLS socket of src/net_dot.c with its fields updated in place, refining DotSpec. */
module DotSocket {
  import opened Framing
  import opened FrameBuffers
  import DotSpec
  import FrameReceiver
  import FrameSender

  class Socket {
    const limit: nat
    const inp: RecvBuffer
    const out: SendBuffer
    var isReady: bool
    var isConnReady: bool
    var doReconnect: bool
    var nqpcSent: nat
    var nqpcRecv: nat
    ghost var past: seq<FrameSender.Conn>
    ghost var cleared: bool
    ghost var held: bool

    ghost function State(): DotSpec.Dot
      reads this, inp, out
    {
      DotSpec.Dot(out.tx, inp.rx, isReady, isConnReady, doReconnect, nqpcSent, nqpcRecv, past, cleared, held)
    }

    /** The buffers agree with their descriptions. */
    ghost predicate Valid()
      reads this, inp, inp.recvbuf, out, out.sendbuf
    {
      && inp.Valid() && out.Valid() && inp.recvbuf != out.sendbuf
      && (out.isSending ==> FrameSender.Loaded(out.tx))
    }

    constructor (limit: nat, immediate: bool)
      ensures Valid() && this.limit == limit && State() == DotSpec.Open(immediate)
      ensures fresh(inp) && fresh(inp.recvbuf) && fresh(out) && fresh(out.sendbuf)
    {
      this.limit := limit;
      inp := new RecvBuffer();
      out := new SendBuffer();
      isReady, isConnReady, doReconnect, nqpcSent, nqpcRecv := false, immediate, false, 0, 0;
      past, cleared, held := [], false, false;
    }

    method Reconnect(immediate: bool)
      requires Valid()
      modifies this, inp, out
      ensures Valid() && State() == DotSpec.Reconnect(old(State()), immediate)
    {
      past := past + [FrameSender.Left(out.tx)];
      isReady, isConnReady := false, immediate;
      nqpcSent, nqpcRecv := 0, 0;
      out.Renew(true);
      inp.Reset();
    }

    method Sockready(e: DotSpec.Env) returns (ret: int)
      requires Valid() && (isReady && out.isSending ==> DotSpec.CanWrite(out.tx, e.write))
      modifies this, inp, out
      ensures Valid() && (State(), ret) == DotSpec.Sockready(limit, old(State()), e)
    {
      if doReconnect {
        Reconnect(e.reopened);
        doReconnect := false;
      }
      if isReady {
        ret := Flush(e);
        if ret == 1 { ret := CheckLimit(e); }
      } else {
        ret := SetUp(e);
      }
    }

    /** Writing what is pending: 1 when nothing is left, 0 when sockready is to return. */
    method Flush(e: DotSpec.Env) returns (ret: int)
      requires Valid() && (out.isSending ==> DotSpec.CanWrite(out.tx, e.write))
      modifies this, inp, out
      ensures Valid() && (ret == 1 || ret == 0)
      ensures var d := old(State());
              if !d.tx.isSending then ret == 1 && State() == d
              else match e.write
                case SysLost => ret == 0 && State() == DotSpec.Reconnect(d, e.reopened)
                case SysOther => ret == 0 && State() == DotSpec.Reconnect(d, e.reopened)
                case WantIo => ret == 0 && State() == d
                case Broken => ret == 0 && State() == d
                case Wrote(n) => State() == DotSpec.Flushed(d, n) && (ret == 1 <==> !State().tx.isSending)
    {
      ret := 1;
      if out.isSending {
        match e.write {
          case SysLost =>
            Reconnect(e.reopened);
            ret := 0;
          case SysOther =>
            Reconnect(e.reopened);
            ret := 0;
          case WantIo =>
            ret := 0;
          case Broken =>
            ret := 0;
          case Wrote(n) =>
            var done := out.Wrote(n);
            if done { nqpcSent := nqpcSent + 1; } else { ret := 0; }
        }
      }
    }

    method CheckLimit(e: DotSpec.Env) returns (ret: int)
      requires Valid()
      modifies this, inp, out
      ensures Valid() && (State(), ret) == DotSpec.AtLimit(limit, old(State()), e)
    {
      ret := 1;
      if limit > 0 && nqpcSent >= limit {
        if nqpcRecv >= nqpcSent || e.expired { Reconnect(e.reopened); }
        ret := 0;
      }
    }

    method SetUp(e: DotSpec.Env) returns (ret: int)
      requires Valid()
      modifies this`isConnReady, this`doReconnect, this`isReady
      ensures Valid() && (State(), ret) == DotSpec.SettingUp(old(State()), e)
    {
      if !isConnReady {
        match e.poll {
          case NotWritable => return -1;
          case InProgress => return 0;
          case SocketError =>
            doReconnect := true;
            return 0;
          case Writable =>
        }
        isConnReady := true;
      }
      match e.tls {
        case Refused =>
          doReconnect := true;
          ret := 0;
        case Pending =>
          ret := 0;
        case Connected =>
          isReady := true;
          ret := if out.isSending then 0 else 1;
      }
    }

    method Sendto(msg: seq<byte>, w: DotSpec.SslWrite, immediate: bool) returns (done: bool)
      requires Valid() && out.sending == 0
      requires isReady ==> DotSpec.CanWrite(FrameSender.Load(out.tx, msg), w)
      modifies this, inp, out, out.sendbuf
      ensures Valid() && (State(), done) == DotSpec.Sendto(old(State()), msg, w, immediate)
    {
      out.Load(msg);
      done := false;
      if !isReady {
        out.Retry();
      } else if w == DotSpec.SysLost {
        Reconnect(immediate);
        out.Retry();
      } else {
        done := WriteNew(w);
      }
    }

    method WriteNew(w: DotSpec.SslWrite) returns (done: bool)
      requires Valid() && FrameSender.Loaded(out.tx) && DotSpec.CanWrite(out.tx, w) && !w.SysLost?
      modifies this`nqpcSent, this`held, out
      ensures Valid()
      ensures var d := old(State());
              match w
              case Wrote(n) => State() == DotSpec.Flushed(d, n) && done == !State().tx.isSending
              case SysOther => State() == d && !done
              case WantIo => State() == d.(tx := FrameSender.Retry(d.tx)) && !done
              case Broken => State() == d.(held := true) && !done
    {
      done := false;
      match w {
        case SysOther =>
        case WantIo =>
          out.Retry();
        case Broken =>
          held := true;
        case Wrote(n) =>
          done := WriteBytes(n);
      }
    }

    /** n bytes of the message went out. */
    method WriteBytes(n: nat) returns (done: bool)
      requires Valid() && FrameSender.Loaded(out.tx) && out.tx.sending + n <= |out.tx.sendbuf|
      modifies this`nqpcSent, out
      ensures Valid() && State() == DotSpec.Flushed(old(State()), n) && done == !State().tx.isSending
    {
      done := out.Wrote(n);
      if done { nqpcSent := nqpcSent + 1; }
    }

    /** What recv copies out: a message's length, or -1 and nothing. */
    twostate predicate CopiedOut(n: int, buf: array<byte>)
      reads inp, buf
    {
      if n >= 0 then
        && |inp.rx.delivered| == |old(inp.rx).delivered| + 1
        && n == |inp.rx.delivered[|inp.rx.delivered| - 1]|
        && buf[..] == Copied(old(buf[..]), inp.rx.delivered[|inp.rx.delivered| - 1])
      else
        buf[..] == old(buf[..]) && |inp.rx.delivered| <= |old(inp.rx).delivered|
    }

    /** Returns the length of the message copied into buf, or -1. */
    method Recv(r: DotSpec.SslRead, immediate: bool, buf: array<byte>) returns (n: int)
      requires Valid() && (!inp.haveMore && r.Got? ==> FrameReceiver.Readable(inp.rx, r.bytes))
      requires buf != inp.recvbuf && buf != out.sendbuf
      modifies this, inp, inp.recvbuf, out, buf
      ensures Valid() && State() == DotSpec.Recv(limit, old(State()), r, immediate)
      ensures CopiedOut(n, buf)
    {
      n := -1;
      if inp.haveMore {
        n := inp.TakeBuffered(buf);
        CountReceived();
      } else if isReady {
        match r {
          case Eof => Reconnect(immediate);
          case Lost => Reconnect(immediate);
          case Unavailable =>
          case Got(bytes) =>
            n := ReadMore(bytes, buf);
        }
      }
    }

    /** The message that a read completed, if it did. */
    method ReadMore(bytes: seq<byte>, buf: array<byte>) returns (n: int)
      requires Valid() && !inp.haveMore && FrameReceiver.Readable(inp.rx, bytes)
      requires buf != inp.recvbuf && buf != out.sendbuf
      modifies this`nqpcRecv, inp, inp.recvbuf, buf
      ensures Valid() && State() == DotSpec.Received(limit, old(State()), FrameReceiver.Receive(old(inp.rx), bytes))
      ensures CopiedOut(n, buf)
    {
      var got, k := inp.Receive(bytes, buf);
      n := if got then k else -1;
      if got { CountReceived(); }
    }

    method CountReceived()
      modifies this`nqpcRecv
      ensures nqpcRecv == if limit > 0 then old(nqpcRecv) + 1 else old(nqpcRecv)
    {
      if limit > 0 { nqpcRecv := nqpcRecv + 1; }
    }
  }
}
