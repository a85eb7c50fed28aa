/** The sending side of the TCP socket of src/net_tcp.c, updated in place, refining TcpSpec. */
module TcpSocket {
  import opened Framing
  import opened FrameBuffers
  import TcpSpec
  import FrameSender

  class Sender {
    const limit: nat
    const out: SendBuffer
    var isReady: bool
    var needReconnect: bool
    var nqpcSent: nat
    ghost var past: seq<FrameSender.Conn>
    ghost var cleared: bool

    ghost function State(): TcpSpec.Tcp
      reads this, out
    {
      TcpSpec.Tcp(out.tx, isReady, needReconnect, nqpcSent, past, cleared)
    }

    ghost predicate Valid()
      reads this, out, out.sendbuf
    {
      out.Valid() && (out.isSending ==> FrameSender.Loaded(out.tx))
    }

    constructor (limit: nat, immediate: bool)
      ensures Valid() && this.limit == limit && State() == TcpSpec.Open(immediate)
      ensures fresh(out) && fresh(out.sendbuf)
    {
      this.limit := limit;
      out := new SendBuffer();
      isReady, needReconnect, nqpcSent := immediate, false, 0;
      past, cleared := [], false;
    }

    /** perf__tcp_connect and the exchange of descriptors around it. */
    method Reconnect(immediate: bool, drop: bool)
      requires Valid()
      modifies this, out
      ensures Valid() && State() == TcpSpec.Reconnect(old(State()), immediate, drop)
    {
      past := past + [FrameSender.Left(out.tx)];
      isReady, nqpcSent := immediate, 0;
      cleared := false;
      out.Renew(drop);
    }

    method Sockready(e: TcpSpec.Env) returns (ret: int)
      requires Valid()
      requires out.isSending ==> TcpSpec.CanSend(out.tx, e.send) && TcpSpec.CanSend(out.tx, e.retried)
      modifies this, out
      ensures Valid() && (State(), ret) == TcpSpec.Sockready(limit, old(State()), e)
    {
      if e.reported || needReconnect {
        Reconnect(e.immediate, false);
        needReconnect := false;
      }
      if !isReady {
        ret := ConnCont(e);
      } else if out.isSending && (e.send.SendLost? || e.send.SendOther?) {
        Reconnect(e.reopened, true);
        ret := ConnCont(e);
      } else {
        ret := Flush(e);
        if ret == 1 { ret := CheckLimit(e); }
      }
    }

    /** Writing what is pending: 1 when nothing is left, 0 when sockready is to return. */
    method Flush(e: TcpSpec.Env) returns (ret: int)
      requires Valid() && (out.isSending ==> TcpSpec.CanSend(out.tx, e.send) && (e.send.Again? || e.send.Sent?))
      modifies this`nqpcSent, out
      ensures Valid() && ret == (if State().tx.isSending then 0 else 1)
      ensures State() == if old(out.isSending) && e.send.Sent? then TcpSpec.Flushed(old(State()), e.send.n) else old(State())
    {
      if !out.isSending { return 1; }
      if e.send.Again? { return 0; }
      var done := out.Wrote(e.send.n);
      if done { nqpcSent := nqpcSent + 1; }
      ret := if done then 1 else 0;
    }

    method CheckLimit(e: TcpSpec.Env) returns (ret: int)
      requires Valid()
      modifies this`needReconnect
      ensures Valid() && (State(), ret) == TcpSpec.AtLimit(limit, old(State()), e)
    {
      ret := 1;
      if limit > 0 && nqpcSent >= limit {
        if e.drained { needReconnect := true; }
        ret := 0;
      }
    }

    /** The part of sockready after the label conn_cont. */
    method ConnCont(e: TcpSpec.Env) returns (ret: int)
      requires Valid() && (out.isSending ==> TcpSpec.CanSend(out.tx, e.retried))
      modifies this, out
      ensures Valid() && (State(), ret) == TcpSpec.SettingUp(old(State()), e)
    {
      match e.poll {
        case NotWritable =>
          ret := -1;
        case InProgress =>
          ret := 0;
        case SocketError =>
          needReconnect := true;
          ret := 0;
        case Writable =>
          isReady := true;
          ret := 1;
          if out.isSending {
            if e.retried.Sent? {
              var done := out.Wrote(e.retried.n);
              if done { nqpcSent := nqpcSent + 1; } else { ret := 0; }
            } else {
              if e.retried != TcpSpec.Again { needReconnect := true; }
              ret := 0;
            }
          }
      }
    }

    method Sendto(msg: seq<byte>, reported: bool, s: TcpSpec.Send) returns (done: bool)
      requires Valid() && out.sending == 0
      requires !reported ==> TcpSpec.CanSend(FrameSender.Load(out.tx, msg), s)
      modifies this, out, out.sendbuf
      ensures Valid() && (State(), done) == TcpSpec.Sendto(old(State()), msg, reported, s)
    {
      out.Load(msg);
      done := false;
      if reported || s.SendLost? {
        needReconnect := true;
        out.Retry();
      } else if s.Sent? {
        done := out.Wrote(s.n);
        if done { nqpcSent := nqpcSent + 1; }
      }
    }
  }
}
