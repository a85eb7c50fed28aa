/**
 * The DNS-over-TLS socket of src/net_dot.c as a state machine whose calls are atomic: what each
 * call does to the connection, for every outcome of the TLS library and the system.
 */
module DotSpec {
  import opened Framing
  import FrameReceiver
  import FrameSender

  /** Outcomes of SSL_write, SSL_read, SSL_connect, and of polling a connecting socket. */
  datatype SslWrite = Wrote(n: nat) | WantIo | SysLost | SysOther | Broken
  datatype SslRead = Got(bytes: seq<byte>) | Eof | Lost | Unavailable
  datatype SslConnect = Connected | Pending | Refused
  datatype Poll = Writable | InProgress | SocketError | NotWritable

  /**
   * The socket. `past` lists the connections left behind; `cleared` says that the last sockready
   * returned 1 and no send followed; `held` that a send returned without unlocking.
   */
  datatype Dot = Dot(
    tx: FrameSender.Tx,
    rx: FrameReceiver.Rx,
    isReady: bool,
    isConnReady: bool,
    doReconnect: bool,
    sent: nat,
    received: nat,
    past: seq<FrameSender.Conn>,
    cleared: bool,
    held: bool)

  /** perf_net_dot_opensocket; connect(2) may succeed at once. */
  function Open(immediate: bool): Dot {
    Dot(FrameSender.START, FrameReceiver.START, false, immediate, false, 0, 0, [], false, false)
  }

  /** perf__dot_reconnect: a message that was partly written is given up, an unstarted one is kept. */
  function Reconnect(d: Dot, immediate: bool): Dot
    requires d.tx.sending <= |d.tx.sendbuf|
  {
    d.(tx := FrameSender.Renew(d.tx, true), rx := FrameReceiver.START,
       isReady := false, isConnReady := immediate, sent := 0, received := 0,
       past := d.past + [FrameSender.Left(d.tx)])
  }

  /** What the environment decides during one sockready. */
  datatype Env = Env(reopened: bool, write: SslWrite, expired: bool, poll: Poll, tls: SslConnect)

  ghost predicate CanWrite(tx: FrameSender.Tx, w: SslWrite) {
    w.Wrote? ==> 0 < w.n && tx.sending + w.n <= |tx.sendbuf| && 2 <= |tx.sendbuf|
  }

  function Flushed(d: Dot, n: nat): Dot
    requires d.tx.sending + n <= |d.tx.sendbuf| && 2 <= |d.tx.sendbuf|
  {
    var tx := FrameSender.Write(d.tx, n);
    d.(tx := tx, sent := if tx.isSending then d.sent else d.sent + 1)
  }

  /** The end of sockready on an established connection that has nothing left to flush. */
  function AtLimit(limit: nat, d: Dot, e: Env): (Dot, int)
    requires d.tx.sending <= |d.tx.sendbuf|
  {
    if limit > 0 && d.sent >= limit then
      (if d.received >= d.sent || e.expired then Reconnect(d, e.reopened) else d, 0)
    else
      (d, 1)
  }

  /** sockready on a connection that is still being set up. */
  function SettingUp(d: Dot, e: Env): (Dot, int) {
    if !d.isConnReady && e.poll == NotWritable then (d, -1)
    else if !d.isConnReady && e.poll == InProgress then (d, 0)
    else if !d.isConnReady && e.poll == SocketError then (d.(doReconnect := true), 0)
    else
      var d1 := d.(isConnReady := true);
      match e.tls
      case Refused => (d1.(doReconnect := true), 0)
      case Pending => (d1, 0)
      case Connected => (d1.(isReady := true), if d.tx.isSending then 0 else 1)
  }

  function Restarted(d: Dot, e: Env): Dot
    requires d.tx.sending <= |d.tx.sendbuf|
  {
    if d.doReconnect then Reconnect(d, e.reopened).(doReconnect := false) else d
  }

  /** perf__dot_sockready, with its result. */
  function Sockready(limit: nat, d: Dot, e: Env): (Dot, int)
    requires d.tx.sending <= |d.tx.sendbuf|
    requires e.write.Wrote? ==> d.isReady && d.tx.isSending ==>
               d.tx.sending + e.write.n <= |d.tx.sendbuf| && 2 <= |d.tx.sendbuf|
  {
    var d1 := Restarted(d, e);
    if d1.isReady && d1.tx.isSending then
      match e.write
      case SysLost => (Reconnect(d1, e.reopened), 0)
      case SysOther => (Reconnect(d1, e.reopened), 0)
      case WantIo => (d1, 0)
      case Broken => (d1, 0)
      case Wrote(n) =>
        var d2 := Flushed(d1, n);
        if d2.tx.isSending then (d2, 0) else AtLimit(limit, d2, e)
    else if d1.isReady then AtLimit(limit, d1, e)
    else SettingUp(d1, e)
  }

  /** perf__dot_sendto: true when the message was written whole at once. */
  function Sendto(d: Dot, msg: seq<byte>, w: SslWrite, immediate: bool): (Dot, bool)
    requires d.tx.sending == 0
    requires d.isReady ==> w.Wrote? ==> w.n <= |FrameSender.Load(d.tx, msg).sendbuf|
  {
    var d1 := d.(tx := FrameSender.Load(d.tx, msg));
    if !d.isReady then (d1.(tx := FrameSender.Retry(d1.tx)), false)
    else
      match w
      case Wrote(n) => var d2 := Flushed(d1, n); (d2, !d2.tx.isSending)
      case SysLost => var d2 := Reconnect(d1, immediate); (d2.(tx := FrameSender.Retry(d2.tx)), false)
      case SysOther => (d1, false)
      case WantIo => (d1.(tx := FrameSender.Retry(d1.tx)), false)
      case Broken => (d1.(held := true), false)
  }

  /** perf__dot_recv */
  function Recv(limit: nat, d: Dot, r: SslRead, immediate: bool): Dot
    requires d.tx.sending <= |d.tx.sendbuf|
  {
    if d.rx.haveMore then Received(limit, d, FrameReceiver.Deliver(d.rx))
    else if !d.isReady then d
    else
      match r
      case Eof => Reconnect(d, immediate)
      case Lost => Reconnect(d, immediate)
      case Unavailable => d
      case Got(bytes) => Received(limit, d, FrameReceiver.Receive(d.rx, bytes))
  }

  function Received(limit: nat, d: Dot, rx: FrameReceiver.Rx): Dot {
    d.(rx := rx, received := if limit > 0 && |rx.delivered| > |d.rx.delivered| then d.received + 1 else d.received)
  }
}

/** Every sequence of calls in which a send follows a sockready that returned 1. */
module DotRuns {
  import opened Framing
  import opened DotSpec
  import FrameReceiver
  import FrameSender

  datatype Call =
    | CallSockready(env: Env)
    | CallSendto(msg: seq<byte>, write: SslWrite, immediate: bool)
    | CallRecv(read: SslRead, immediate: bool)

  /** What the callers and the environment may do: see the comment at each case. */
  ghost predicate Enabled(d: Dot, c: Call) {
    match c
    case CallSockready(e) =>
      // the lock must be free; SSL_write writes part of what it is given
      !d.held && (d.isReady && d.tx.isSending ==> CanWrite(d.tx, e.write))
    case CallSendto(msg, w, _) =>
      // callers send only when sockready allowed it
      !d.held && d.cleared && (d.isReady ==> CanWrite(FrameSender.Load(d.tx, msg), w))
    case CallRecv(r, _) =>
      // with a message buffered the call neither locks nor reads
      d.rx.haveMore || (!d.held && (r.Got? ==> FrameReceiver.Readable(d.rx, r.bytes)))
  }

  ghost function Next(limit: nat, d: Dot, c: Call): Dot
    requires Inv(limit, d) && Enabled(d, c)
  {
    match c
    case CallSockready(e) =>
      var (d1, ret) := Sockready(limit, d, e);
      d1.(cleared := ret == 1)
    case CallSendto(msg, w, immediate) => Sendto(d, msg, w, immediate).0.(cleared := false)
    case CallRecv(r, immediate) => Recv(limit, d, r, immediate)
  }

  ghost predicate Inv(limit: nat, d: Dot) {
    && FrameSender.Inv(d.tx)
    && FrameReceiver.Inv(d.rx)
    && (!d.isReady ==> d.tx.wire == [] && d.tx.frames == [] && d.rx == FrameReceiver.START)
    && (d.doReconnect ==> !d.isReady)
    && (d.cleared ==> !d.tx.isSending)
    && d.sent == |d.tx.frames|
    && (limit > 0 ==> d.sent <= limit && (d.tx.isSending || d.cleared ==> d.sent < limit))
    && PastOk(limit, d.past)
  }

  ghost predicate PastOk(limit: nat, past: seq<FrameSender.Conn>) {
    forall i :: 0 <= i < |past| ==> FrameSender.ConnFramed(past[i]) && (limit > 0 ==> |past[i].frames| <= limit)
  }

  lemma {:induction false} OpenInv(limit: nat, immediate: bool)
    ensures Inv(limit, Open(immediate))
  {
  }

  lemma {:induction false} ReconnectKeepsInv(limit: nat, d: Dot, immediate: bool)
    requires Inv(limit, d)
    ensures Inv(limit, Reconnect(d, immediate))
    ensures Reconnect(d, immediate).tx.sending == 0
  {
    FrameSender.RenewKeepsInv(d.tx);
    LeaveKeepsPast(limit, d);
    assert FrameReceiver.Inv(FrameReceiver.START);
  }

  lemma {:induction false} LeaveKeepsPast(limit: nat, d: Dot)
    requires PastOk(limit, d.past) && FrameSender.Inv(d.tx) && (limit > 0 ==> |d.tx.frames| <= limit)
    ensures PastOk(limit, d.past + [FrameSender.Left(d.tx)])
  {
    FrameSender.LeftIsFramed(d.tx);
  }

  /** Writing on keeps everything, and leaves room below the limit while the message is unfinished. */
  lemma {:induction false} FlushedKeepsInv(limit: nat, d: Dot, n: nat)
    requires Inv(limit, d) && d.isReady && FrameSender.Loaded(d.tx) && d.tx.sending + n <= |d.tx.sendbuf|
    requires limit > 0 ==> d.sent < limit
    ensures Inv(limit, Flushed(d, n).(cleared := false))
  {
    FrameSender.WriteKeepsInv(d.tx, n);
  }

  lemma {:induction false} AtLimitKeepsInv(limit: nat, d: Dot, e: Env)
    requires Inv(limit, d) && !d.tx.isSending
    ensures var (d1, ret) := AtLimit(limit, d, e); Inv(limit, d1.(cleared := ret == 1))
  {
    ReconnectKeepsInv(limit, d.(cleared := false), e.reopened);
  }

  lemma {:induction false} SettingUpKeepsInv(limit: nat, d: Dot, e: Env)
    requires Inv(limit, d) && !d.isReady && !d.doReconnect
    ensures var (d1, ret) := SettingUp(d, e); Inv(limit, d1.(cleared := ret == 1))
  {
    var (d1, ret) := SettingUp(d, e);
    assert d1.tx == d.tx && d1.rx == d.rx && d1.sent == d.sent && d1.past == d.past;
    assert (d1.doReconnect ==> !d1.isReady) && (ret == 1 ==> !d.tx.isSending);
  }

  lemma {:induction false} FlushKeepsInv(limit: nat, d: Dot, e: Env)
    requires Inv(limit, d) && Enabled(d, CallSockready(e)) && d.isReady && d.tx.isSending
    ensures var (d1, ret) := Sockready(limit, d, e); Inv(limit, d1.(cleared := ret == 1))
  {
    match e.write
    case SysLost => ReconnectKeepsInv(limit, d, e.reopened);
    case SysOther => ReconnectKeepsInv(limit, d, e.reopened);
    case WantIo =>
    case Broken =>
    case Wrote(n) =>
      FlushedKeepsInv(limit, d, n);
      var d2 := Flushed(d, n);
      if !d2.tx.isSending { AtLimitKeepsInv(limit, d2, e); }
  }

  lemma {:induction false} SockreadyKeepsInv(limit: nat, d: Dot, e: Env)
    requires Inv(limit, d) && Enabled(d, CallSockready(e))
    ensures Inv(limit, Next(limit, d, CallSockready(e)))
  {
    if d.doReconnect {
      ReconnectKeepsInv(limit, d, e.reopened);
      SettingUpKeepsInv(limit, Restarted(d, e), e);
    } else if d.isReady && d.tx.isSending {
      FlushKeepsInv(limit, d, e);
    } else if d.isReady {
      AtLimitKeepsInv(limit, d, e);
    } else {
      SettingUpKeepsInv(limit, d, e);
    }
  }

  lemma {:induction false} SendtoKeepsInv(limit: nat, d: Dot, msg: seq<byte>, w: SslWrite, immediate: bool)
    requires Inv(limit, d) && Enabled(d, CallSendto(msg, w, immediate))
    ensures Inv(limit, Next(limit, d, CallSendto(msg, w, immediate)))
  {
    FrameSender.LoadKeepsInv(d.tx, msg);
    var d1 := d.(tx := FrameSender.Load(d.tx, msg), cleared := false);
    if d.isReady {
      if w.Wrote? { FlushedKeepsInv(limit, d1, w.n); }
      if w.SysLost? { ReconnectKeepsInv(limit, d1, immediate); }
    }
  }

  lemma {:induction false} RecvKeepsInv(limit: nat, d: Dot, r: SslRead, immediate: bool)
    requires Inv(limit, d) && Enabled(d, CallRecv(r, immediate))
    ensures Inv(limit, Next(limit, d, CallRecv(r, immediate)))
  {
    if d.rx.haveMore {
      FrameReceiver.ReceiveKeepsInv(d.rx, []);
      assert FrameReceiver.Buffer(d.rx, []) == d.rx;
    } else if d.isReady {
      if r.Eof? || r.Lost? { ReconnectKeepsInv(limit, d, immediate); }
      if r.Got? { FrameReceiver.ReceiveKeepsInv(d.rx, r.bytes); }
    }
  }

  lemma {:induction false} CallKeepsInv(limit: nat, d: Dot, c: Call)
    requires Inv(limit, d) && Enabled(d, c)
    ensures Inv(limit, Next(limit, d, c))
  {
    match c
    case CallSockready(e) => SockreadyKeepsInv(limit, d, e);
    case CallSendto(msg, w, immediate) => SendtoKeepsInv(limit, d, msg, w, immediate);
    case CallRecv(r, immediate) => RecvKeepsInv(limit, d, r, immediate);
  }

  /** d' is reached from d by these calls. */
  ghost predicate Run(limit: nat, d: Dot, calls: seq<Call>, d': Dot)
    requires Inv(limit, d)
    decreases |calls|
  {
    if calls == [] then d' == d
    else
      && Enabled(d, calls[0])
      && (CallKeepsInv(limit, d, calls[0]); Run(limit, Next(limit, d, calls[0]), calls[1..], d'))
  }

  lemma {:induction false} RunKeepsInv(limit: nat, d: Dot, calls: seq<Call>, d': Dot)
    requires Inv(limit, d) && Run(limit, d, calls, d')
    ensures Inv(limit, d')
    decreases |calls|
  {
    if calls != [] {
      CallKeepsInv(limit, d, calls[0]);
      RunKeepsInv(limit, Next(limit, d, calls[0]), calls[1..], d');
    }
  }

  /**
   * Whatever the outcomes, the bytes on the open connection are complete frames followed by
   * exactly the written part of sendbuf, those on every connection left behind are complete
   * frames followed by at most the start of one more, what was received is an unbroken
   * stream, and no connection completes more queries than the limit.
   */
  lemma {:induction false} ConnectionsFramed(limit: nat, immediate: bool, calls: seq<Call>, d: Dot)
    requires (OpenInv(limit, immediate); Run(limit, Open(immediate), calls, d))
    ensures AllSendable(d.tx.frames) && d.tx.sending <= |d.tx.sendbuf|
    ensures d.tx.wire == Stream(d.tx.frames) + d.tx.sendbuf[..d.tx.sending]
    ensures forall i :: 0 <= i < |d.past| ==> FrameSender.ConnFramed(d.past[i])
    ensures AllSendable(d.rx.delivered) && Stream(d.rx.delivered) + d.rx.buffered == d.rx.arrived
    ensures limit > 0 ==> |d.tx.frames| <= limit && forall i :: 0 <= i < |d.past| ==> |d.past[i].frames| <= limit
  {
    OpenInv(limit, immediate);
    RunKeepsInv(limit, Open(immediate), calls, d);
  }

  // ---- Which messages are carried ----

  /** A call that finds the connection lost in the middle of a message gives that message up. */
  ghost predicate DropsPartial(d: Dot, c: Call) {
    && d.tx.sending > 0 && d.isReady
    && match c
       case CallSockready(e) => e.write.SysLost? || e.write.SysOther?
       case CallRecv(r, _) => !d.rx.haveMore && (r.Eof? || r.Lost?)
       case CallSendto(_, _, _) => false
  }

  /** A sendto that fails, other than for want of I/O or for a lost connection, does not keep the message. */
  ghost predicate Refuses(d: Dot, w: SslWrite) { d.isReady && (w.SysOther? || w.Broken?) }

  /** What has been handed over and was not given up, in order. */
  ghost function Accepted(d: Dot, c: Call, before: seq<Frame>): seq<Frame> {
    if c.CallSendto? then (if Refuses(d, c.write) then before else before + [FrameSender.FirstPart(c.msg)])
    else if DropsPartial(d, c) && before != [] then before[..|before| - 1]
    else before
  }

  ghost function AllAccepted(limit: nat, d: Dot, calls: seq<Call>, before: seq<Frame>): seq<Frame>
    requires Inv(limit, d)
    decreases |calls|
  {
    if calls == [] || !Enabled(d, calls[0]) then before
    else
      CallKeepsInv(limit, d, calls[0]);
      AllAccepted(limit, Next(limit, d, calls[0]), calls[1..], Accepted(d, calls[0], before))
  }

  ghost function Books(d: Dot): seq<Frame> { FrameSender.Books(d.past, d.tx) }

  lemma {:induction false} ReconnectBooks(limit: nat, d: Dot, immediate: bool)
    requires Inv(limit, d)
    ensures Books(Reconnect(d, immediate)) == if d.tx.sending > 0 then Books(d)[..|Books(d)| - 1] else Books(d)
  {
    FrameSender.RenewBooks(d.past, d.tx, true);
    if d.tx.sending > 0 { FrameSender.BooksShort(d.past, d.tx); }
  }

  lemma {:induction false} AtLimitBooks(limit: nat, d: Dot, e: Env)
    requires Inv(limit, d) && !d.tx.isSending
    ensures Books(AtLimit(limit, d, e).0) == Books(d)
  {
    ReconnectBooks(limit, d, e.reopened);
  }

  lemma {:induction false} WroteBooks(limit: nat, d: Dot, e: Env)
    requires Inv(limit, d) && Enabled(d, CallSockready(e)) && d.isReady && d.tx.isSending && e.write.Wrote?
    ensures Books(Sockready(limit, d, e).0) == Books(d)
  {
    var d2 := Flushed(d, e.write.n);
    FrameSender.WriteBooks(d.past, d.tx, e.write.n);
    FlushedKeepsInv(limit, d, e.write.n);
    if !d2.tx.isSending { AtLimitBooks(limit, d2.(cleared := false), e); }
  }

  lemma {:induction false} LostBooks(limit: nat, d: Dot, e: Env)
    requires Inv(limit, d) && d.isReady && d.tx.isSending && (e.write.SysLost? || e.write.SysOther?)
    ensures Books(Reconnect(d, e.reopened)) == Accepted(d, CallSockready(e), Books(d))
  {
    ReconnectBooks(limit, d, e.reopened);
    FrameSender.BooksShort(d.past, d.tx);
  }

  lemma {:induction false} FlushBooks(limit: nat, d: Dot, e: Env)
    requires Inv(limit, d) && Enabled(d, CallSockready(e)) && d.isReady && d.tx.isSending
    ensures Books(Sockready(limit, d, e).0) == Accepted(d, CallSockready(e), Books(d))
  {
    if e.write.SysLost? || e.write.SysOther? { LostBooks(limit, d, e); } else if e.write.Wrote? { WroteBooks(limit, d, e); }
  }

  lemma {:induction false} SettingUpBooks(d: Dot, e: Env)
    ensures Books(SettingUp(d, e).0) == Books(d)
  {
  }

  lemma {:induction false} RestartBooks(limit: nat, d: Dot, e: Env)
    requires Inv(limit, d) && !d.isReady
    ensures Books(Restarted(d, e)) == Books(d) && !Restarted(d, e).isReady
  {
    if d.doReconnect { ReconnectBooks(limit, d, e.reopened); }
  }

  lemma {:induction false} SockreadyBooks(limit: nat, d: Dot, e: Env)
    requires Inv(limit, d) && Enabled(d, CallSockready(e))
    ensures Books(Sockready(limit, d, e).0) == Accepted(d, CallSockready(e), Books(d))
  {
    if d.isReady && d.tx.isSending {
      FlushBooks(limit, d, e);
    } else if d.isReady {
      AtLimitBooks(limit, d, e);
    } else {
      RestartBooks(limit, d, e);
      SettingUpBooks(Restarted(d, e), e);
    }
  }

  /** A message that is loaded, kept for later, or written on at once. */
  lemma {:induction false} LoadBooks(d: Dot, msg: seq<byte>)
    requires FrameSender.Kept(d.tx) && !d.tx.isSending
    ensures FrameSender.Books(d.past, FrameSender.Load(d.tx, msg)) == Books(d)
    ensures FrameSender.Books(d.past, FrameSender.Retry(FrameSender.Load(d.tx, msg))) == Books(d) + [FrameSender.FirstPart(msg)]
  {
    FrameSender.LoadHolds(d.tx, msg);
  }

  lemma {:induction false} LoadWriteBooks(d: Dot, msg: seq<byte>, n: nat)
    requires FrameSender.Kept(d.tx) && !d.tx.isSending && n <= |FrameSender.Load(d.tx, msg).sendbuf|
    ensures FrameSender.Loaded(FrameSender.Load(d.tx, msg))
    ensures FrameSender.Books(d.past, FrameSender.Write(FrameSender.Load(d.tx, msg), n)) == Books(d) + [FrameSender.FirstPart(msg)]
  {
    FrameSender.LoadHolds(d.tx, msg);
    FrameSender.LoadKeepsKept(d.tx, msg);
    FrameSender.WriteBooks(d.past, FrameSender.Load(d.tx, msg), n);
  }

  lemma {:induction false} SendLostBooks(limit: nat, d: Dot, msg: seq<byte>, immediate: bool)
    requires Inv(limit, d) && !d.tx.isSending
    ensures FrameSender.Load(d.tx, msg).sending <= |FrameSender.Load(d.tx, msg).sendbuf|
    ensures var d2 := Reconnect(d.(tx := FrameSender.Load(d.tx, msg)), immediate);
            Books(d2.(tx := FrameSender.Retry(d2.tx))) == Books(d) + [FrameSender.FirstPart(msg)]
  {
    var tx := FrameSender.Load(d.tx, msg);
    LoadBooks(d, msg);
    FrameSender.LoadKeepsInv(d.tx, msg);
    FrameSender.RenewBooks(d.past, FrameSender.Retry(tx), true);
    assert FrameSender.Left(tx) == FrameSender.Left(FrameSender.Retry(tx));
    assert FrameSender.Retry(FrameSender.Renew(tx, true)) == FrameSender.Renew(FrameSender.Retry(tx), true);
  }

  lemma {:induction false} SendtoBooks(limit: nat, d: Dot, msg: seq<byte>, w: SslWrite, immediate: bool)
    requires Inv(limit, d) && Enabled(d, CallSendto(msg, w, immediate))
    ensures Books(Sendto(d, msg, w, immediate).0) == Accepted(d, CallSendto(msg, w, immediate), Books(d))
  {
    if d.isReady && w.Wrote? {
      LoadWriteBooks(d, msg, w.n);
    } else if d.isReady && w.SysLost? {
      SendLostBooks(limit, d, msg, immediate);
    } else {
      LoadBooks(d, msg);
    }
  }

  lemma {:induction false} RecvBooks(limit: nat, d: Dot, r: SslRead, immediate: bool)
    requires Inv(limit, d) && Enabled(d, CallRecv(r, immediate))
    ensures Books(Recv(limit, d, r, immediate)) == Accepted(d, CallRecv(r, immediate), Books(d))
  {
    if !d.rx.haveMore && d.isReady && (r.Eof? || r.Lost?) {
      ReconnectBooks(limit, d, immediate);
      if d.tx.sending > 0 { FrameSender.BooksShort(d.past, d.tx); }
    }
  }

  /** A call adds the message it is handed to the books, or takes one off them, exactly as its outcome says. */
  lemma {:induction false} CallBooks(limit: nat, d: Dot, c: Call)
    requires Inv(limit, d) && Enabled(d, c)
    ensures Books(Next(limit, d, c)) == Accepted(d, c, Books(d))
  {
    match c
    case CallSockready(e) => SockreadyBooks(limit, d, e);
    case CallSendto(msg, w, immediate) => SendtoBooks(limit, d, msg, w, immediate);
    case CallRecv(r, immediate) => RecvBooks(limit, d, r, immediate);
  }

  lemma {:induction false} RunBooks(limit: nat, d: Dot, calls: seq<Call>, d': Dot)
    requires Inv(limit, d) && Run(limit, d, calls, d')
    ensures Books(d') == AllAccepted(limit, d, calls, Books(d))
    decreases |calls|
  {
    if calls != [] {
      CallKeepsInv(limit, d, calls[0]);
      CallBooks(limit, d, calls[0]);
      RunBooks(limit, Next(limit, d, calls[0]), calls[1..], d');
    }
  }

  /**
   * In every run the messages completed on all connections in order, and the one under way, are those
   * that were handed to sendto, cut to 65535 bytes, less the ones given up.
   */
  lemma {:induction false} CarriesMessages(limit: nat, immediate: bool, calls: seq<Call>, d: Dot)
    requires (OpenInv(limit, immediate); Run(limit, Open(immediate), calls, d))
    ensures Inv(limit, Open(immediate))
    ensures FrameSender.Completed(d.past) + d.tx.frames + FrameSender.Pending(d.tx) == AllAccepted(limit, Open(immediate), calls, [])
  {
    OpenInv(limit, immediate);
    RunBooks(limit, Open(immediate), calls, d);
    assert Books(Open(immediate)) == [];
  }

  // ---- What a call comes to ----

  function One(yes: bool): nat { if yes then 1 else 0 }

  ghost predicate Completes(d: Dot, e: Env) {
    d.isReady && d.tx.isSending && e.write.Wrote? && d.tx.sending + e.write.n == |d.tx.sendbuf|
  }

  /** When sockready opens a new connection: one is due, a write finds the old one lost, or the limit is reached and drained. */
  ghost predicate Reconnects(limit: nat, d: Dot, e: Env) {
    || d.doReconnect
    || (d.isReady && d.tx.isSending && (e.write.SysLost? || e.write.SysOther?))
    || (d.isReady && (!d.tx.isSending || Completes(d, e))
        && limit > 0 && d.sent + One(Completes(d, e)) >= limit
        && (d.received >= d.sent + One(Completes(d, e)) || e.expired))
  }

  /** What sockready answers, and what it has done to the connection. */
  ghost predicate AnswersFor(limit: nat, d: Dot, e: Env, d': Dot, ret: int) {
    && (ret == 1 <==> d'.isReady && !d'.tx.isSending && (limit == 0 || d'.sent < limit))
    && (ret == -1 <==> !d.isReady && !(if d.doReconnect then e.reopened else d.isConnReady) && e.poll == NotWritable)
    && (ret == -1 || ret == 0 || ret == 1)
  }

  ghost predicate ReconnectedFor(limit: nat, d: Dot, e: Env, d': Dot) {
    |d'.past| == |d.past| + One(Reconnects(limit, d, e))
  }

  ghost predicate ComesUpFor(limit: nat, d: Dot, e: Env, d': Dot) {
    d'.isReady <==>
    if d.isReady then !Reconnects(limit, d, e)
    else ((if d.doReconnect then e.reopened else d.isConnReady) || e.poll == Writable) && e.tls == Connected
  }

  /** A reconnect is left to the next call exactly when the connection or TLS on it fails to come up. */
  ghost predicate LeavesReconnect(d: Dot, e: Env) {
    && !d.isReady
    && if (if d.doReconnect then e.reopened else d.isConnReady) || e.poll == Writable then e.tls == Refused else e.poll == SocketError
  }

  lemma {:induction false} SetupFails(limit: nat, d: Dot, e: Env)
    requires Inv(limit, d) && Enabled(d, CallSockready(e))
    ensures Sockready(limit, d, e).0.doReconnect <==> LeavesReconnect(d, e)
  {
    if d.isReady && d.tx.isSending && e.write.Wrote? {
      assert !AtLimit(limit, Flushed(d, e.write.n), e).0.doReconnect by { FlushedKeepsInv(limit, d, e.write.n); }
    } else if !d.isReady {
      assert !Restarted(d, e).doReconnect;
    }
  }

  /** A connection that has become writable is not polled again. */
  lemma {:induction false} StaysWritable(limit: nat, d: Dot, e: Env)
    requires Inv(limit, d) && !d.isReady
    ensures Sockready(limit, d, e).0.isConnReady <==> (if d.doReconnect then e.reopened else d.isConnReady) || e.poll == Writable
  {
    var d1 := Restarted(d, e);
    assert !d1.isReady && d1.isConnReady == if d.doReconnect then e.reopened else d.isConnReady;
  }

  /** Sendto reports success exactly if the message went out whole at once. */
  lemma {:induction false} SendtoAnswers(limit: nat, d: Dot, msg: seq<byte>, w: SslWrite, immediate: bool)
    requires Inv(limit, d) && Enabled(d, CallSendto(msg, w, immediate))
    ensures Sendto(d, msg, w, immediate).1 <==> d.isReady && w == Wrote(|FrameSender.FirstPart(msg)| + 2)
  {
    FrameSender.LoadHolds(d.tx, msg);
  }

  /** Only a sendto that fails within TLS keeps the lock. */
  lemma {:induction false} LockKept(limit: nat, d: Dot, c: Call)
    requires Inv(limit, d) && Enabled(d, c) && !d.held
    ensures Next(limit, d, c).held <==> c.CallSendto? && d.isReady && c.write.Broken?
  {
    match c
    case CallSockready(e) => SockreadyHolds(limit, d, e);
    case CallSendto(_, _, _) =>
    case CallRecv(_, _) =>
  }

  lemma {:induction false} SockreadyHolds(limit: nat, d: Dot, e: Env)
    requires Inv(limit, d) && Enabled(d, CallSockready(e))
    ensures Sockready(limit, d, e).0.held == d.held
  {
    if d.isReady && d.tx.isSending && e.write.Wrote? {
      assert AtLimit(limit, Flushed(d, e.write.n), e).0.held == d.held by { FlushedKeepsInv(limit, d, e.write.n); }
    } else if !d.isReady {
      assert SettingUp(Restarted(d, e), e).0.held == d.held;
    }
  }

  lemma {:induction false} SettingUpAnswers(limit: nat, d: Dot, e: Env)
    requires Inv(limit, d) && !d.isReady
    ensures var r := SettingUp(Restarted(d, e), e);
            AnswersFor(limit, d, e, r.0, r.1) && ReconnectedFor(limit, d, e, r.0) && ComesUpFor(limit, d, e, r.0)
  {
    var d1 := Restarted(d, e);
    var (d', ret) := SettingUp(d1, e);
    assert !d1.isReady && d1.isConnReady == if d.doReconnect then e.reopened else d.isConnReady;
    assert d1.sent == 0 && |d1.past| == |d.past| + One(d.doReconnect) && d1.tx.isSending == d.tx.isSending;
    assert d'.past == d1.past && d'.tx == d1.tx && d'.sent == d1.sent;
  }

  lemma {:induction false} AtLimitAnswers(limit: nat, d: Dot, e: Env)
    requires Inv(limit, d) && d.isReady && !d.tx.isSending
    ensures var r := AtLimit(limit, d, e);
            AnswersFor(limit, d, e, r.0, r.1) && ReconnectedFor(limit, d, e, r.0) && ComesUpFor(limit, d, e, r.0)
  {
  }

  lemma {:induction false} WroteAnswers(limit: nat, d: Dot, e: Env)
    requires Inv(limit, d) && Enabled(d, CallSockready(e)) && d.isReady && d.tx.isSending && e.write.Wrote?
    ensures var d2 := Flushed(d, e.write.n);
            && d2.tx.sending <= |d2.tx.sendbuf|
            && var r := if d2.tx.isSending then (d2, 0) else AtLimit(limit, d2, e);
               AnswersFor(limit, d, e, r.0, r.1) && ReconnectedFor(limit, d, e, r.0) && ComesUpFor(limit, d, e, r.0)
  {
  }

  lemma {:induction false} LostAnswers(limit: nat, d: Dot, e: Env)
    requires Inv(limit, d) && d.isReady && d.tx.isSending && !e.write.Wrote?
    ensures var d' := if e.write.SysLost? || e.write.SysOther? then Reconnect(d, e.reopened) else d;
            AnswersFor(limit, d, e, d', 0) && ReconnectedFor(limit, d, e, d') && ComesUpFor(limit, d, e, d')
  {
  }

  /**
   * Sockready answers 1 exactly if a message can be sent now and -1 exactly if it gave up waiting for
   * the connection. It opens a new connection exactly when one is due, lost or drained, and the
   * connection is ready afterwards exactly if it was and stays, or comes up and TLS with it.
   */
  lemma {:induction false} SockreadyAnswers(limit: nat, d: Dot, e: Env)
    requires Inv(limit, d) && Enabled(d, CallSockready(e))
    ensures var r := Sockready(limit, d, e);
            AnswersFor(limit, d, e, r.0, r.1) && ReconnectedFor(limit, d, e, r.0) && ComesUpFor(limit, d, e, r.0)
  {
    if !d.isReady {
      SettingUpAnswers(limit, d, e);
    } else if !d.tx.isSending {
      AtLimitAnswers(limit, d, e);
    } else if e.write.Wrote? {
      WroteAnswers(limit, d, e);
    } else {
      LostAnswers(limit, d, e);
    }
  }

  /** The bytes that the system calls report as written are on the wire, and no others. */
  ghost function Written(d: Dot, c: Call): nat {
    match c
    case CallSockready(e) => if d.isReady && d.tx.isSending && e.write.Wrote? then e.write.n else 0
    case CallSendto(_, w, _) => if d.isReady && w.Wrote? then w.n else 0
    case CallRecv(_, _) => 0
  }

  ghost function Output(d: Dot): nat { FrameSender.Output(d.past, d.tx) }

  lemma {:induction false} ReconnectOutput(d: Dot, immediate: bool)
    requires d.tx.sending <= |d.tx.sendbuf|
    ensures Output(Reconnect(d, immediate)) == Output(d)
  {
    FrameSender.RenewOutput(d.past, d.tx, true);
  }

  lemma {:induction false} AtLimitOutput(limit: nat, d: Dot, e: Env)
    requires d.tx.sending <= |d.tx.sendbuf|
    ensures Output(AtLimit(limit, d, e).0) == Output(d)
  {
    ReconnectOutput(d, e.reopened);
  }

  lemma {:induction false} FlushOutput(limit: nat, d: Dot, e: Env)
    requires Inv(limit, d) && Enabled(d, CallSockready(e)) && d.isReady && d.tx.isSending
    ensures Output(Sockready(limit, d, e).0) == Output(d) + Written(d, CallSockready(e))
  {
    if e.write.Wrote? {
      var d2 := Flushed(d, e.write.n);
      FlushedKeepsInv(limit, d, e.write.n);
      if !d2.tx.isSending { AtLimitOutput(limit, d2, e); }
    } else {
      ReconnectOutput(d, e.reopened);
    }
  }

  lemma {:induction false} SettingUpOutput(d: Dot, e: Env)
    ensures Output(SettingUp(d, e).0) == Output(d)
  {
  }

  lemma {:induction false} SockreadyOutput(limit: nat, d: Dot, e: Env)
    requires Inv(limit, d) && Enabled(d, CallSockready(e))
    ensures Output(Sockready(limit, d, e).0) == Output(d) + Written(d, CallSockready(e))
  {
    if d.isReady && d.tx.isSending {
      FlushOutput(limit, d, e);
    } else if d.isReady {
      AtLimitOutput(limit, d, e);
    } else {
      if d.doReconnect { ReconnectOutput(d, e.reopened); }
      SettingUpOutput(Restarted(d, e), e);
    }
  }

  lemma {:induction false} SendtoOutput(limit: nat, d: Dot, msg: seq<byte>, w: SslWrite, immediate: bool)
    requires Inv(limit, d) && Enabled(d, CallSendto(msg, w, immediate))
    ensures Output(Sendto(d, msg, w, immediate).0) == Output(d) + Written(d, CallSendto(msg, w, immediate))
  {
    FrameSender.LoadKeepsInv(d.tx, msg);
    ReconnectOutput(d.(tx := FrameSender.Load(d.tx, msg)), immediate);
  }

  lemma {:induction false} CallOutput(limit: nat, d: Dot, c: Call)
    requires Inv(limit, d) && Enabled(d, c)
    ensures Output(Next(limit, d, c)) == Output(d) + Written(d, c)
  {
    match c
    case CallSockready(e) => SockreadyOutput(limit, d, e);
    case CallSendto(msg, w, immediate) => SendtoOutput(limit, d, msg, w, immediate);
    case CallRecv(r, immediate) => ReconnectOutput(d, immediate);
  }

  /** With a limit, what is counted as received are the messages delivered from this connection. */
  lemma {:induction false} ReceivedCounts(limit: nat, d: Dot, calls: seq<Call>, d': Dot)
    requires Inv(limit, d) && Run(limit, d, calls, d') && (limit > 0 ==> d.received == |d.rx.delivered|)
    ensures limit > 0 ==> d'.received == |d'.rx.delivered|
    decreases |calls|
  {
    if calls != [] {
      CallKeepsInv(limit, d, calls[0]);
      if limit > 0 { CallReceives(limit, d, calls[0]); }
      ReceivedCounts(limit, Next(limit, d, calls[0]), calls[1..], d');
    }
  }

  lemma {:induction false} CallReceives(limit: nat, d: Dot, c: Call)
    requires Inv(limit, d) && Enabled(d, c) && limit > 0 && d.received == |d.rx.delivered|
    ensures Next(limit, d, c).received == |Next(limit, d, c).rx.delivered|
  {
    match c
    case CallSockready(e) => SockreadyReceives(limit, d, e);
    case CallSendto(_, _, _) =>
    case CallRecv(r, immediate) => RecvReceives(limit, d, r, immediate);
  }

  ghost predicate SameReceived(d: Dot, d': Dot) {
    (d'.received == d.received && d'.rx == d.rx) || (d'.received == 0 && d'.rx == FrameReceiver.START)
  }

  lemma {:induction false} SockreadyReceives(limit: nat, d: Dot, e: Env)
    requires Inv(limit, d) && Enabled(d, CallSockready(e))
    ensures SameReceived(d, Sockready(limit, d, e).0)
  {
    if d.isReady && d.tx.isSending && e.write.Wrote? {
      assert SameReceived(d, AtLimit(limit, Flushed(d, e.write.n), e).0) by { FlushedKeepsInv(limit, d, e.write.n); }
    } else if d.isReady && !d.tx.isSending {
      assert SameReceived(d, AtLimit(limit, d, e).0);
    } else if !d.isReady {
      assert SameReceived(d, SettingUp(Restarted(d, e), e).0);
    }
  }

  lemma {:induction false} RecvReceives(limit: nat, d: Dot, r: SslRead, immediate: bool)
    requires Inv(limit, d) && Enabled(d, CallRecv(r, immediate)) && limit > 0 && d.received == |d.rx.delivered|
    ensures var d' := Recv(limit, d, r, immediate); d'.received == |d'.rx.delivered|
  {
  }
}
