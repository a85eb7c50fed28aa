/**
 * The sending side of the TCP socket of src/net_tcp.c: what sendto and sockready do, for every
 * outcome of the system calls and every report from the receiving thread.
 */
module TcpSpec {
  import opened Framing
  import FrameSender

  /** Outcomes of sendto(2), and of polling a connecting socket. */
  datatype Send = Sent(n: nat) | Again | SendLost | SendOther
  datatype Poll = Writable | InProgress | SocketError | NotWritable

  /** `past` and `cleared` are history, as in DotSpec. */
  datatype Tcp = Tcp(
    tx: FrameSender.Tx,
    isReady: bool,
    needReconnect: bool,
    sent: nat,
    past: seq<FrameSender.Conn>,
    cleared: bool)

  /** perf_net_tcp_opensocket; connect(2) may succeed at once. */
  function Open(immediate: bool): Tcp { Tcp(FrameSender.START, immediate, false, 0, [], false) }

  /** A new connection takes the place of the old one; whether to drop a partial message differs by caller. */
  function Reconnect(t: Tcp, immediate: bool, drop: bool): Tcp
    requires t.tx.sending <= |t.tx.sendbuf|
  {
    t.(tx := FrameSender.Renew(t.tx, drop), isReady := immediate, sent := 0, past := t.past + [FrameSender.Left(t.tx)],
       cleared := false)
  }

  /**
   * What the environment decides during one sockready: `reported` is whether the receiving
   * thread's report names the current descriptor, `drained` whether all responses came in or the
   * wait for them expired, `retried` the write right after a reconnect in the same call.
   */
  datatype Env = Env(
    reported: bool, immediate: bool, send: Send, reopened: bool,
    drained: bool, poll: Poll, retried: Send)

  ghost predicate CanSend(tx: FrameSender.Tx, s: Send) {
    s.Sent? ==> tx.sending + s.n <= |tx.sendbuf| && 2 <= |tx.sendbuf|
  }

  function Flushed(t: Tcp, n: nat): Tcp
    requires t.tx.sending + n <= |t.tx.sendbuf| && 2 <= |t.tx.sendbuf|
  {
    var tx := FrameSender.Write(t.tx, n);
    t.(tx := tx, sent := if tx.isSending then t.sent else t.sent + 1)
  }

  /** The first step of sockready. A message that was partly written is neither dropped nor restarted. */
  function Restarted(t: Tcp, e: Env): Tcp
    requires t.tx.sending <= |t.tx.sendbuf|
  {
    if e.reported || t.needReconnect then Reconnect(t, e.immediate, false).(needReconnect := false) else t
  }

  function AtLimit(limit: nat, t: Tcp, e: Env): (Tcp, int) {
    if limit > 0 && t.sent >= limit then (if e.drained then t.(needReconnect := true) else t, 0) else (t, 1)
  }

  /** conn_cont: waiting for the connection, then flushing what is pending. */
  function SettingUp(t: Tcp, e: Env): (Tcp, int)
    requires t.tx.isSending && e.retried.Sent? ==>
               t.tx.sending + e.retried.n <= |t.tx.sendbuf| && 2 <= |t.tx.sendbuf|
  {
    match e.poll
    case NotWritable => (t, -1)
    case InProgress => (t, 0)
    case SocketError => (t.(needReconnect := true), 0)
    case Writable =>
      var t1 := t.(isReady := true);
      if !t.tx.isSending then (t1, 1)
      else
        match e.retried
        case Again => (t1, 0)
        case SendLost => (t1.(needReconnect := true), 0)
        case SendOther => (t1.(needReconnect := true), 0)
        case Sent(n) => var t2 := Flushed(t1, n); (t2, if t2.tx.isSending then 0 else 1)
  }

  /** perf__tcp_sockready, with its result. */
  function Sockready(limit: nat, t: Tcp, e: Env): (Tcp, int)
    requires t.tx.sending <= |t.tx.sendbuf|
    requires e.send.Sent? && t.tx.isSending ==> t.tx.sending + e.send.n <= |t.tx.sendbuf| && 2 <= |t.tx.sendbuf|
    requires e.retried.Sent? && t.tx.isSending ==> t.tx.sending + e.retried.n <= |t.tx.sendbuf| && 2 <= |t.tx.sendbuf|
  {
    var t1 := Restarted(t, e);
    if !t1.isReady then SettingUp(t1, e)
    else if !t1.tx.isSending then AtLimit(limit, t1, e)
    else
      match e.send
      case Again => (t1, 0)
      case SendLost => SettingUp(Reconnect(t1, e.reopened, true), e)
      case SendOther => SettingUp(Reconnect(t1, e.reopened, true), e)
      case Sent(n) =>
        var t2 := Flushed(t1, n);
        if t2.tx.isSending then (t2, 0) else AtLimit(limit, t2, e)
  }

  /** perf__tcp_sendto: true when the message was written whole at once. */
  function Sendto(t: Tcp, msg: seq<byte>, reported: bool, s: Send): (Tcp, bool)
    requires t.tx.sending == 0
    requires !reported && s.Sent? ==> s.n <= |FrameSender.Load(t.tx, msg).sendbuf|
  {
    var t1 := t.(tx := FrameSender.Load(t.tx, msg));
    if reported then (t1.(needReconnect := true, tx := FrameSender.Retry(t1.tx)), false)
    else
      match s
      case SendLost => (t1.(needReconnect := true, tx := FrameSender.Retry(t1.tx)), false)
      case Again => (t1, false)
      case SendOther => (t1, false)
      case Sent(n) => var t2 := Flushed(t1, n); (t2, !t2.tx.isSending)
  }
}

/** Every sequence of calls in which a send follows a sockready that returned 1. */
module TcpRuns {
  import opened Framing
  import opened TcpSpec
  import FrameSender

  datatype Call =
    | CallSockready(env: Env)
    | CallSendto(msg: seq<byte>, reported: bool, send: Send)

  ghost predicate Enabled(t: Tcp, c: Call) {
    match c
    case CallSockready(e) => t.tx.isSending ==> CanSend(t.tx, e.send) && CanSend(t.tx, e.retried)
    case CallSendto(msg, reported, s) => t.cleared && (!reported ==> CanSend(FrameSender.Load(t.tx, msg), s))
  }

  ghost function Next(limit: nat, t: Tcp, c: Call): Tcp
    requires Inv(limit, t) && Enabled(t, c)
  {
    match c
    case CallSockready(e) =>
      var (t1, ret) := Sockready(limit, t, e);
      t1.(cleared := ret == 1)
    case CallSendto(msg, reported, s) => Sendto(t, msg, reported, s).0.(cleared := false)
  }

  ghost predicate Inv(limit: nat, t: Tcp) {
    && FrameSender.Kept(t.tx)
    && (!t.isReady ==> t.tx.wire == [] && t.tx.frames == [])
    && (t.needReconnect ==> t.tx.sending == 0 || t.tx.torn)
    && (t.cleared ==> !t.tx.isSending && t.isReady && !t.needReconnect)
    && t.sent == |t.tx.frames|
    && (limit > 0 ==> t.sent <= Most(limit) && (t.tx.isSending || t.cleared ==> t.sent < Most(limit)))
    && PastOk(limit, t.past)
  }

  /** A message flushed when the connection comes up is not held against the limit, so 1 acts as 2. */
  function Most(limit: nat): nat { if limit == 1 then 2 else limit }

  ghost predicate PastOk(limit: nat, past: seq<FrameSender.Conn>) {
    forall i :: 0 <= i < |past| ==>
      && (FrameSender.ConnFramed(past[i]) <==> !past[i].torn)
      && (limit > 0 ==> |past[i].frames| <= Most(limit))
  }

  lemma {:induction false} OpenInv(limit: nat, immediate: bool)
    ensures Inv(limit, Open(immediate))
  {
  }

  lemma {:induction false} ReconnectKeepsInv(limit: nat, t: Tcp, immediate: bool, drop: bool)
    requires Inv(limit, t)
    ensures Inv(limit, Reconnect(t, immediate, drop).(needReconnect := false))
  {
    FrameSender.RenewKeepsKept(t.tx, drop);
    LeaveKeepsPast(limit, t);
  }

  lemma {:induction false} LeaveKeepsPast(limit: nat, t: Tcp)
    requires PastOk(limit, t.past) && FrameSender.Kept(t.tx) && (limit > 0 ==> |t.tx.frames| <= Most(limit))
    ensures PastOk(limit, t.past + [FrameSender.Left(t.tx)])
  {
    FrameSender.LeftFramedIff(t.tx);
  }

  lemma {:induction false} FlushedKeepsInv(limit: nat, t: Tcp, n: nat)
    requires Inv(limit, t) && t.isReady && !t.needReconnect && FrameSender.Loaded(t.tx) && t.tx.sending + n <= |t.tx.sendbuf|
    requires limit > 0 ==> t.sent < Most(limit)
    ensures Inv(limit, Flushed(t, n).(cleared := false))
  {
    FrameSender.WriteKeepsKept(t.tx, n);
  }

  lemma {:induction false} SettingUpKeepsInv(limit: nat, t: Tcp, e: Env)
    requires Inv(limit, t) && t.sent == 0 && !t.needReconnect && (t.tx.isSending ==> CanSend(t.tx, e.retried))
    requires t.tx.sending == 0 || t.tx.torn
    ensures var (t1, ret) := SettingUp(t, e); Inv(limit, t1.(cleared := ret == 1))
  {
    if e.poll.Writable? && t.tx.isSending && e.retried.Sent? {
      FlushedKeepsInv(limit, t.(isReady := true), e.retried.n);
    }
  }

  lemma {:induction false} LostKeepsInv(limit: nat, t: Tcp, e: Env)
    requires Inv(limit, t) && Enabled(t, CallSockready(e)) && !t.needReconnect && t.tx.isSending
    ensures var (t1, ret) := SettingUp(Reconnect(t, e.reopened, true), e); Inv(limit, t1.(cleared := ret == 1))
  {
    ReconnectKeepsInv(limit, t, e.reopened, true);
    SettingUpKeepsInv(limit, Reconnect(t, e.reopened, true), e);
  }

  lemma {:induction false} ReadyKeepsInv(limit: nat, t: Tcp, e: Env)
    requires Inv(limit, t) && Enabled(t, CallSockready(e)) && !t.needReconnect && t.isReady && !e.reported
    ensures Inv(limit, Next(limit, t, CallSockready(e)))
  {
    if t.tx.isSending {
      match e.send
      case Again =>
      case Sent(n) => FlushedKeepsInv(limit, t, n);
      case SendLost => LostKeepsInv(limit, t, e);
      case SendOther => LostKeepsInv(limit, t, e);
    }
  }

  /** Sockready goes on after the first step as if there had been no report. */
  lemma {:induction false} AfterRestart(limit: nat, t: Tcp, e: Env)
    requires Inv(limit, t) && Enabled(t, CallSockready(e))
    ensures var t1, quiet := Restarted(t, e), e.(reported := false);
            && Inv(limit, t1) && Enabled(t1, CallSockready(quiet)) && !t1.needReconnect
            && Next(limit, t, CallSockready(e)) == Next(limit, t1, CallSockready(quiet))
  {
    if e.reported || t.needReconnect { ReconnectKeepsInv(limit, t, e.immediate, false); }
    SameAfterRestart(limit, t, e);
  }

  lemma {:induction false} SameAfterRestart(limit: nat, t: Tcp, e: Env)
    requires t.tx.sending <= |t.tx.sendbuf|
    requires t.tx.isSending ==> CanSend(t.tx, e.send) && CanSend(t.tx, e.retried)
    ensures var t1 := Restarted(t, e); t1.tx.sendbuf == t.tx.sendbuf && t1.tx.sending == t.tx.sending && t1.tx.isSending == t.tx.isSending
    ensures Sockready(limit, t, e) == Sockready(limit, Restarted(t, e), e.(reported := false))
  {
  }

  lemma {:induction false} SockreadyKeepsInv(limit: nat, t: Tcp, e: Env)
    requires Inv(limit, t) && Enabled(t, CallSockready(e))
    ensures Inv(limit, Next(limit, t, CallSockready(e)))
  {
    AfterRestart(limit, t, e);
    QuietKeepsInv(limit, Restarted(t, e), e.(reported := false));
  }

  lemma {:induction false} QuietKeepsInv(limit: nat, t: Tcp, e: Env)
    requires Inv(limit, t) && Enabled(t, CallSockready(e)) && !t.needReconnect && !e.reported
    ensures Inv(limit, Next(limit, t, CallSockready(e)))
  {
    if t.isReady { ReadyKeepsInv(limit, t, e); } else { SettingUpKeepsInv(limit, t, e); }
  }

  /** Every call, with every outcome of the system calls in it and every report, keeps the books. */
  lemma {:induction false} CallKeepsInv(limit: nat, t: Tcp, c: Call)
    requires Inv(limit, t) && Enabled(t, c)
    ensures Inv(limit, Next(limit, t, c))
  {
    match c
    case CallSockready(e) => SockreadyKeepsInv(limit, t, e);
    case CallSendto(msg, reported, s) =>
      FrameSender.LoadKeepsKept(t.tx, msg);
      if !reported && s.Sent? {
        FlushedKeepsInv(limit, t.(tx := FrameSender.Load(t.tx, msg)), s.n);
      }
  }

  ghost predicate Run(limit: nat, t: Tcp, calls: seq<Call>, t': Tcp)
    requires Inv(limit, t)
    decreases |calls|
  {
    if calls == [] then t' == t
    else
      && Enabled(t, calls[0])
      && (CallKeepsInv(limit, t, calls[0]); Run(limit, Next(limit, t, calls[0]), calls[1..], t'))
  }

  lemma {:induction false} RunKeepsInv(limit: nat, t: Tcp, calls: seq<Call>, t': Tcp)
    requires Inv(limit, t) && Run(limit, t, calls, t')
    ensures Inv(limit, t')
    decreases |calls|
  {
    if calls != [] {
      CallKeepsInv(limit, t, calls[0]);
      RunKeepsInv(limit, Next(limit, t, calls[0]), calls[1..], t');
    }
  }

  /**
   * In every run the open connection carries complete frames followed by exactly the written part of
   * sendbuf if and only if it did not take over in the middle of a message, every earlier one complete
   * frames and at most the start of one more if and only if it was not written on after doing so, and
   * none completes more queries than the limit, or 2 for a limit of 1.
   */
  lemma {:induction false} ConnectionsFramedIff(limit: nat, immediate: bool, calls: seq<Call>, t: Tcp)
    requires (OpenInv(limit, immediate); Run(limit, Open(immediate), calls, t))
    ensures FrameSender.Framed(t.tx) <==> !t.tx.torn
    ensures forall i :: 0 <= i < |t.past| ==> (FrameSender.ConnFramed(t.past[i]) <==> !t.past[i].torn)
    ensures limit > 0 ==> |t.tx.frames| <= Most(limit) && forall i :: 0 <= i < |t.past| ==> |t.past[i].frames| <= Most(limit)
  {
    OpenInv(limit, immediate);
    RunKeepsInv(limit, Open(immediate), calls, t);
    FrameSender.FramedIffWhole(t.tx);
  }

  // ---- When a connection takes over in the middle of a message ----

  /**
   * The one call that does it: the receiver's report makes sockready reconnect in the middle of a
   * message, unless an error from the very next write makes it give the message up.
   */
  ghost predicate Tears(t: Tcp, c: Call) {
    && c.CallSockready?
    && c.env.reported && t.tx.sending > 0
    && !(c.env.immediate && (c.env.send.SendLost? || c.env.send.SendOther?))
  }

  ghost predicate NoneTorn(t: Tcp) { !t.tx.torn && PastWhole(t) }

  ghost predicate PastWhole(t: Tcp) {
    forall i :: 0 <= i < |t.past| ==> !t.past[i].torn
  }

  lemma {:induction false} SettingUpLeaves(t: Tcp, e: Env)
    requires t.tx.isSending ==> CanSend(t.tx, e.retried)
    ensures SettingUp(t, e).0.tx.torn == t.tx.torn && SettingUp(t, e).0.past == t.past
  {
  }

  /** Nothing was written yet on a connection that took over; leaving it again tears nothing. */
  lemma {:induction false} LeaveUnwritten(t: Tcp, immediate: bool, drop: bool)
    requires PastWhole(t) && t.tx.sending <= |t.tx.sendbuf| && (t.tx.torn ==> t.tx.wire == [])
    ensures PastWhole(Reconnect(t, immediate, drop))
    ensures Reconnect(t, immediate, drop).tx.torn == (!drop && t.tx.sending > 0) && Reconnect(t, immediate, drop).tx.wire == []
  {
  }

  lemma {:induction false} ReadyTorn(limit: nat, t: Tcp, e: Env)
    requires Inv(limit, t) && Enabled(t, CallSockready(e)) && !t.needReconnect && !e.reported
    requires PastWhole(t) && (t.tx.torn ==> t.tx.wire == [] && t.tx.isSending)
    ensures NoneTorn(Next(limit, t, CallSockready(e))) <==>
            (t.tx.torn ==> t.isReady && (e.send.SendLost? || e.send.SendOther?))
    ensures t.tx.torn && t.isReady && (e.send.SendLost? || e.send.SendOther?) ==> !Next(limit, t, CallSockready(e)).tx.torn
    ensures Next(limit, t, CallSockready(e)).tx.torn ==> t.tx.torn
    ensures t.tx.torn && !(t.isReady && (e.send.SendLost? || e.send.SendOther?)) ==> Next(limit, t, CallSockready(e)).tx.torn
  {
    if !t.isReady {
      SettingUpLeaves(t, e);
    } else if t.tx.isSending && (e.send.SendLost? || e.send.SendOther?) {
      LeaveUnwritten(t, e.reopened, true);
      SettingUpLeaves(Reconnect(t, e.reopened, true), e);
    }
  }

  lemma {:induction false} SendtoLeaves(limit: nat, t: Tcp, msg: seq<byte>, reported: bool, s: Send)
    requires Inv(limit, t) && Enabled(t, CallSendto(msg, reported, s))
    ensures var t' := Next(limit, t, CallSendto(msg, reported, s)); t'.tx.torn == t.tx.torn && t'.past == t.past
  {
  }

  /** While all is whole, a call leaves it so exactly when it does not tear. */
  lemma {:induction false} TornIffTears(limit: nat, t: Tcp, c: Call)
    requires Inv(limit, t) && NoneTorn(t) && Enabled(t, c)
    ensures NoneTorn(Next(limit, t, c)) <==> !Tears(t, c)
    ensures Next(limit, t, c).tx.torn <==> Tears(t, c)
  {
    match c
    case CallSendto(msg, reported, s) => SendtoLeaves(limit, t, msg, reported, s);
    case CallSockready(e) => SockreadyTears(limit, t, e);
  }

  lemma {:induction false} SockreadyTears(limit: nat, t: Tcp, e: Env)
    requires Inv(limit, t) && NoneTorn(t) && Enabled(t, CallSockready(e))
    ensures NoneTorn(Next(limit, t, CallSockready(e))) <==> !Tears(t, CallSockready(e))
    ensures Next(limit, t, CallSockready(e)).tx.torn <==> Tears(t, CallSockready(e))
  {
    AfterRestart(limit, t, e);
    if e.reported || t.needReconnect { LeaveUnwritten(t, e.immediate, false); }
    ReadyTorn(limit, Restarted(t, e), e.(reported := false));
  }

  /** So from a framed state one call leaves the open connection framed exactly when it does not tear. */
  lemma {:induction false} FramedIffNotTorn(limit: nat, t: Tcp, c: Call)
    requires Inv(limit, t) && NoneTorn(t) && Enabled(t, c)
    ensures FrameSender.Framed(Next(limit, t, c).tx) <==> !Tears(t, c)
  {
    CallKeepsInv(limit, t, c);
    TornIffTears(limit, t, c);
    FrameSender.FramedIffWhole(Next(limit, t, c).tx);
  }

  ghost predicate NoTears(limit: nat, t: Tcp, calls: seq<Call>)
    requires Inv(limit, t)
    decreases |calls|
  {
    calls == [] ||
    (Enabled(t, calls[0]) && !Tears(t, calls[0])
     && (CallKeepsInv(limit, t, calls[0]); NoTears(limit, Next(limit, t, calls[0]), calls[1..])))
  }

  lemma {:induction false} RunKeepsWhole(limit: nat, t: Tcp, calls: seq<Call>, t': Tcp)
    requires Inv(limit, t) && NoneTorn(t) && Run(limit, t, calls, t') && NoTears(limit, t, calls)
    ensures Inv(limit, t') && NoneTorn(t')
    decreases |calls|
  {
    if calls != [] {
      CallKeepsInv(limit, t, calls[0]);
      TornIffTears(limit, t, calls[0]);
      RunKeepsWhole(limit, Next(limit, t, calls[0]), calls[1..], t');
    }
  }

  /** Without such a call every connection carries complete frames, as over TLS. */
  lemma {:induction false} ConnectionsFramed(limit: nat, immediate: bool, calls: seq<Call>, t: Tcp)
    requires (OpenInv(limit, immediate); Run(limit, Open(immediate), calls, t) && NoTears(limit, Open(immediate), calls))
    ensures AllSendable(t.tx.frames) && t.tx.sending <= |t.tx.sendbuf|
    ensures t.tx.wire == Stream(t.tx.frames) + t.tx.sendbuf[..t.tx.sending]
    ensures forall i :: 0 <= i < |t.past| ==> FrameSender.ConnFramed(t.past[i])
  {
    OpenInv(limit, immediate);
    RunKeepsWhole(limit, Open(immediate), calls, t);
  }

  // ---- Which messages are carried ----

  /** A sockready whose write fails in the middle of a message gives that message up. */
  ghost predicate DropsPartial(t: Tcp, e: Env) {
    && t.tx.sending > 0 && (e.send.SendLost? || e.send.SendOther?)
    && (if e.reported || t.needReconnect then e.immediate else t.isReady)
  }

  /** A sendto that cannot write, for any reason but a lost connection, does not keep the message. */
  ghost predicate Refuses(reported: bool, s: Send) { !reported && (s.Again? || s.SendOther?) }

  /** What has been handed over and was not given up, in order. */
  ghost function Accepted(t: Tcp, c: Call, before: seq<Frame>): seq<Frame> {
    match c
    case CallSendto(msg, reported, s) => if Refuses(reported, s) then before else before + [FrameSender.FirstPart(msg)]
    case CallSockready(e) => if DropsPartial(t, e) && before != [] then before[..|before| - 1] else before
  }

  ghost function AllAccepted(limit: nat, t: Tcp, calls: seq<Call>, before: seq<Frame>): seq<Frame>
    requires Inv(limit, t)
    decreases |calls|
  {
    if calls == [] || !Enabled(t, calls[0]) then before
    else
      CallKeepsInv(limit, t, calls[0]);
      AllAccepted(limit, Next(limit, t, calls[0]), calls[1..], Accepted(t, calls[0], before))
  }

  ghost function Books(t: Tcp): seq<Frame> { FrameSender.Books(t.past, t.tx) }

  lemma {:induction false} SettingUpBooks(limit: nat, t: Tcp, e: Env)
    requires Inv(limit, t) && (t.tx.isSending ==> CanSend(t.tx, e.retried))
    ensures Books(SettingUp(t, e).0) == Books(t)
  {
    if e.poll.Writable? && t.tx.isSending && e.retried.Sent? {
      FrameSender.WriteBooks(t.past, t.tx, e.retried.n);
    }
  }

  lemma {:induction false} LostBooks(limit: nat, t: Tcp, e: Env)
    requires Inv(limit, t) && Enabled(t, CallSockready(e)) && !t.needReconnect && t.tx.isSending
    ensures Books(SettingUp(Reconnect(t, e.reopened, true), e).0) ==
            if t.tx.sending > 0 then Books(t)[..|Books(t)| - 1] else Books(t)
  {
    FrameSender.RenewBooks(t.past, t.tx, true);
    FrameSender.BooksShort(t.past, t.tx);
    ReconnectKeepsInv(limit, t, e.reopened, true);
    SettingUpBooks(limit, Reconnect(t, e.reopened, true), e);
  }

  lemma {:induction false} QuietBooks(limit: nat, t: Tcp, e: Env)
    requires Inv(limit, t) && Enabled(t, CallSockready(e)) && !t.needReconnect && !e.reported
    ensures Books(Next(limit, t, CallSockready(e))) == Accepted(t, CallSockready(e), Books(t))
  {
    if !t.isReady {
      SettingUpBooks(limit, t, e);
    } else if t.tx.isSending {
      match e.send
      case Again =>
      case Sent(n) => FrameSender.WriteBooks(t.past, t.tx, n);
      case SendLost => LostBooks(limit, t, e);
      case SendOther => LostBooks(limit, t, e);
    }
  }

  lemma {:induction false} RestartBooks(limit: nat, t: Tcp, e: Env)
    requires Inv(limit, t)
    ensures Books(Restarted(t, e)) == Books(t)
  {
    if e.reported || t.needReconnect { FrameSender.RenewBooks(t.past, t.tx, false); }
  }

  lemma {:induction false} SameDrop(limit: nat, t: Tcp, e: Env)
    requires Inv(limit, t)
    ensures DropsPartial(Restarted(t, e), e.(reported := false)) == DropsPartial(t, e)
  {
  }

  lemma {:induction false} SockreadyBooks(limit: nat, t: Tcp, e: Env)
    requires Inv(limit, t) && Enabled(t, CallSockready(e))
    ensures Books(Next(limit, t, CallSockready(e))) == Accepted(t, CallSockready(e), Books(t))
  {
    AfterRestart(limit, t, e);
    RestartBooks(limit, t, e);
    SameDrop(limit, t, e);
    QuietBooks(limit, Restarted(t, e), e.(reported := false));
  }

  lemma {:induction false} SendtoBooks(limit: nat, t: Tcp, msg: seq<byte>, reported: bool, s: Send)
    requires Inv(limit, t) && Enabled(t, CallSendto(msg, reported, s))
    ensures Books(Sendto(t, msg, reported, s).0) == Accepted(t, CallSendto(msg, reported, s), Books(t))
  {
    FrameSender.LoadHolds(t.tx, msg);
    FrameSender.LoadKeepsKept(t.tx, msg);
    if !reported && s.Sent? { FrameSender.WriteBooks(t.past, FrameSender.Load(t.tx, msg), s.n); }
  }

  /** A call adds the message it is handed to the books, or takes one off them, exactly as its outcome says. */
  lemma {:induction false} CallBooks(limit: nat, t: Tcp, c: Call)
    requires Inv(limit, t) && Enabled(t, c)
    ensures Books(Next(limit, t, c)) == Accepted(t, c, Books(t))
  {
    match c
    case CallSockready(e) => SockreadyBooks(limit, t, e);
    case CallSendto(msg, reported, s) => SendtoBooks(limit, t, msg, reported, s);
  }

  lemma {:induction false} RunBooks(limit: nat, t: Tcp, calls: seq<Call>, t': Tcp)
    requires Inv(limit, t) && Run(limit, t, calls, t')
    ensures Books(t') == AllAccepted(limit, t, calls, Books(t))
    decreases |calls|
  {
    if calls != [] {
      CallKeepsInv(limit, t, calls[0]);
      CallBooks(limit, t, calls[0]);
      RunBooks(limit, Next(limit, t, calls[0]), calls[1..], t');
    }
  }

  /**
   * In every run the messages completed on all connections in order, and the one under way, are those
   * that were handed to sendto, cut to 65535 bytes, less the ones given up.
   */
  lemma {:induction false} CarriesMessages(limit: nat, immediate: bool, calls: seq<Call>, t: Tcp)
    requires (OpenInv(limit, immediate); Run(limit, Open(immediate), calls, t))
    ensures Inv(limit, Open(immediate))
    ensures FrameSender.Completed(t.past) + t.tx.frames + FrameSender.Pending(t.tx) == AllAccepted(limit, Open(immediate), calls, [])
  {
    OpenInv(limit, immediate);
    RunBooks(limit, Open(immediate), calls, t);
    assert Books(Open(immediate)) == [];
  }

  // ---- What a call comes to ----

  /** A sockready that finds the connection not ready, or lost by a failing write, waits for the new one. */
  ghost predicate Waits(t: Tcp, e: Env) {
    !ReadyAtFirst(t, e) || (t.tx.isSending && (e.send.SendLost? || e.send.SendOther?))
  }

  ghost predicate ReadyAtFirst(t: Tcp, e: Env) { if e.reported || t.needReconnect then e.immediate else t.isReady }

  /** What is left to send while it waits: a message that was partly written on a connection lost to a failing write is not. */
  ghost predicate StillSending(t: Tcp, e: Env) {
    t.tx.isSending && !(ReadyAtFirst(t, e) && t.tx.sending > 0)
  }

  /** The bytes that the system calls report as written in a call. */
  ghost function Written(t: Tcp, c: Call): nat {
    match c
    case CallSendto(_, reported, s) => if !reported && s.Sent? then s.n else 0
    case CallSockready(e) =>
      if Waits(t, e) then (if e.poll.Writable? && StillSending(t, e) && e.retried.Sent? then e.retried.n else 0)
      else if t.tx.isSending && e.send.Sent? then e.send.n
      else 0
  }

  ghost function Output(t: Tcp): nat { FrameSender.Output(t.past, t.tx) }

  lemma {:induction false} ReconnectOutput(t: Tcp, immediate: bool, drop: bool)
    requires t.tx.sending <= |t.tx.sendbuf|
    ensures Output(Reconnect(t, immediate, drop)) == Output(t)
  {
    FrameSender.RenewOutput(t.past, t.tx, drop);
  }

  lemma {:induction false} SettingUpOutput(t: Tcp, e: Env)
    requires t.tx.isSending ==> CanSend(t.tx, e.retried)
    ensures Output(SettingUp(t, e).0) ==
            Output(t) + if e.poll.Writable? && t.tx.isSending && e.retried.Sent? then e.retried.n else 0
  {
  }

  lemma {:induction false} LostOutput(limit: nat, t: Tcp, e: Env)
    requires Inv(limit, t) && Enabled(t, CallSockready(e)) && t.tx.isSending
    ensures Output(SettingUp(Reconnect(t, e.reopened, true), e).0) ==
            Output(t) + if e.poll.Writable? && t.tx.sending == 0 && e.retried.Sent? then e.retried.n else 0
  {
    ReconnectOutput(t, e.reopened, true);
    SettingUpOutput(Reconnect(t, e.reopened, true), e);
  }

  lemma {:induction false} QuietOutput(limit: nat, t: Tcp, e: Env)
    requires Inv(limit, t) && Enabled(t, CallSockready(e)) && !t.needReconnect && !e.reported
    ensures Output(Sockready(limit, t, e).0) == Output(t) + Written(t, CallSockready(e))
  {
    if !t.isReady {
      SettingUpOutput(t, e);
    } else if t.tx.isSending && (e.send.SendLost? || e.send.SendOther?) {
      LostOutput(limit, t, e);
    }
  }

  lemma {:induction false} SameWritten(limit: nat, t: Tcp, e: Env)
    requires Inv(limit, t)
    ensures Output(Restarted(t, e)) == Output(t)
    ensures Written(Restarted(t, e), CallSockready(e.(reported := false))) == Written(t, CallSockready(e))
  {
    if e.reported || t.needReconnect { ReconnectOutput(t, e.immediate, false); }
  }

  /** The bytes that the system calls report as written are on the wire, and no others. */
  lemma {:induction false} CallOutput(limit: nat, t: Tcp, c: Call)
    requires Inv(limit, t) && Enabled(t, c)
    ensures Output(Next(limit, t, c)) == Output(t) + Written(t, c)
  {
    match c
    case CallSockready(e) => SockreadyOutput(limit, t, e);
    case CallSendto(msg, reported, s) => FrameSender.LoadKeepsKept(t.tx, msg);
  }

  lemma {:induction false} SockreadyOutput(limit: nat, t: Tcp, e: Env)
    requires Inv(limit, t) && Enabled(t, CallSockready(e))
    ensures Output(Sockready(limit, t, e).0) == Output(t) + Written(t, CallSockready(e))
  {
    AfterRestart(limit, t, e);
    SameAfterRestart(limit, t, e);
    SameWritten(limit, t, e);
    QuietOutput(limit, Restarted(t, e), e.(reported := false));
  }

  /** What sockready answers, in terms of where it leaves the socket. */
  ghost predicate AnswersFor(limit: nat, waits: bool, e: Env, t': Tcp, ret: int) {
    && (ret == 1 <==> t'.isReady && !t'.tx.isSending && !t'.needReconnect
                      && if waits then e.poll.Writable? else limit == 0 || t'.sent < limit)
    && (ret == -1 <==> waits && e.poll == NotWritable)
    && (ret == -1 || ret == 0 || ret == 1)
  }

  /** Whether the connection is ready where sockready leaves it, `at` whether it was on being waited for. */
  ghost predicate ComesUpFor(waits: bool, at: bool, e: Env, t': Tcp) {
    t'.isReady <==> !waits || e.poll.Writable? || at
  }

  lemma {:induction false} SettingUpAnswers(limit: nat, t: Tcp, e: Env)
    requires !t.needReconnect && (t.tx.isSending ==> CanSend(t.tx, e.retried))
    ensures AnswersFor(limit, true, e, SettingUp(t, e).0, SettingUp(t, e).1)
    ensures ComesUpFor(true, t.isReady, e, SettingUp(t, e).0)
  {
  }

  lemma {:induction false} QuietAnswers(limit: nat, t: Tcp, e: Env)
    requires Inv(limit, t) && Enabled(t, CallSockready(e)) && !t.needReconnect && !e.reported
    ensures AnswersFor(limit, Waits(t, e), e, Sockready(limit, t, e).0, Sockready(limit, t, e).1)
    ensures ComesUpFor(Waits(t, e), ReadyAtFirst(t, e) && e.reopened, e, Sockready(limit, t, e).0)
  {
    if !t.isReady {
      SettingUpAnswers(limit, t, e);
    } else if t.tx.isSending && (e.send.SendLost? || e.send.SendOther?) {
      SettingUpAnswers(limit, Reconnect(t, e.reopened, true), e);
    }
  }

  lemma {:induction false} SameWait(limit: nat, t: Tcp, e: Env)
    requires Inv(limit, t)
    ensures Waits(Restarted(t, e), e.(reported := false)) == Waits(t, e)
    ensures ReadyAtFirst(Restarted(t, e), e.(reported := false)) == ReadyAtFirst(t, e)
  {
  }

  /**
   * Sockready answers 1 exactly if a message can be sent now, though not beyond the limit unless the
   * connection has just come up, and -1 exactly if it gave up waiting for the connection. A connection that
   * was waited for is ready afterwards exactly if it has become writable, or was so at once.
   */
  lemma {:induction false} SockreadyAnswers(limit: nat, t: Tcp, e: Env)
    requires Inv(limit, t) && Enabled(t, CallSockready(e))
    ensures AnswersFor(limit, Waits(t, e), e, Sockready(limit, t, e).0, Sockready(limit, t, e).1)
    ensures ComesUpFor(Waits(t, e), ReadyAtFirst(t, e) && e.reopened, e, Sockready(limit, t, e).0)
  {
    AfterRestart(limit, t, e);
    SameAfterRestart(limit, t, e);
    SameWait(limit, t, e);
    QuietAnswers(limit, Restarted(t, e), e.(reported := false));
  }

  /** Sendto reports success exactly if the message went out whole at once. */
  lemma {:induction false} SendtoAnswers(limit: nat, t: Tcp, msg: seq<byte>, reported: bool, s: Send)
    requires Inv(limit, t) && Enabled(t, CallSendto(msg, reported, s))
    ensures Sendto(t, msg, reported, s).1 <==> !reported && s == Sent(|FrameSender.FirstPart(msg)| + 2)
  {
    FrameSender.LoadHolds(t.tx, msg);
  }

  function One(yes: bool): nat { if yes then 1 else 0 }

  /** The connections a call opens: one for a loss reported or found before, one for a write that finds it lost. */
  ghost function Opened(t: Tcp, c: Call): nat {
    if c.CallSendto? then 0
    else
      var e := c.env;
      One(e.reported || t.needReconnect) + One(ReadyAtFirst(t, e) && t.tx.isSending && (e.send.SendLost? || e.send.SendOther?))
  }

  /** When a call leaves a reconnect to the next: the connection cannot be set up or is lost again, or is drained at the limit. */
  ghost predicate LeavesReconnect(limit: nat, t: Tcp, c: Call) {
    match c
    case CallSendto(_, reported, s) => reported || s.SendLost?
    case CallSockready(e) =>
      if Waits(t, e) then
        e.poll == SocketError || (e.poll.Writable? && StillSending(t, e) && (e.retried.SendLost? || e.retried.SendOther?))
      else
        var done := t.tx.isSending && e.send.Sent? && t.tx.sending + e.send.n == |t.tx.sendbuf|;
        && (done || !t.tx.isSending) && e.drained
        && limit > 0 && (if e.reported || t.needReconnect then 0 else t.sent) + One(done) >= limit
  }

  lemma {:induction false} SettingUpReconnects(t: Tcp, e: Env)
    requires !t.needReconnect && (t.tx.isSending ==> CanSend(t.tx, e.retried))
    ensures var t' := SettingUp(t, e).0;
            && t'.past == t.past
            && (t'.needReconnect <==> e.poll == SocketError
                                      || (e.poll.Writable? && t.tx.isSending && (e.retried.SendLost? || e.retried.SendOther?)))
  {
  }

  lemma {:induction false} QuietReconnects(limit: nat, t: Tcp, e: Env)
    requires Inv(limit, t) && Enabled(t, CallSockready(e)) && !t.needReconnect && !e.reported
    ensures var t' := Sockready(limit, t, e).0;
            && |t'.past| == |t.past| + Opened(t, CallSockready(e))
            && (t'.needReconnect <==> LeavesReconnect(limit, t, CallSockready(e)))
  {
    if !t.isReady {
      SettingUpReconnects(t, e);
    } else if t.tx.isSending && (e.send.SendLost? || e.send.SendOther?) {
      SettingUpReconnects(Reconnect(t, e.reopened, true), e);
    }
  }

  lemma {:induction false} SameReconnects(limit: nat, t: Tcp, e: Env)
    requires Inv(limit, t)
    ensures var t1, quiet := Restarted(t, e), CallSockready(e.(reported := false));
            && |t1.past| + Opened(t1, quiet) == |t.past| + Opened(t, CallSockready(e))
            && (LeavesReconnect(limit, t1, quiet) <==> LeavesReconnect(limit, t, CallSockready(e)))
  {
  }

  /** A call opens exactly these connections, and leaves a reconnect to the next exactly in these cases. */
  lemma {:induction false} CallReconnects(limit: nat, t: Tcp, c: Call)
    requires Inv(limit, t) && Enabled(t, c)
    ensures |Next(limit, t, c).past| == |t.past| + Opened(t, c)
    ensures Next(limit, t, c).needReconnect <==> LeavesReconnect(limit, t, c)
  {
    match c
    case CallSendto(msg, reported, s) =>
    case CallSockready(e) =>
      AfterRestart(limit, t, e);
      SameReconnects(limit, t, e);
      QuietReconnects(limit, Restarted(t, e), e.(reported := false));
  }

  const MSG: seq<byte> := []
  const QUIET := Env(false, true, Again, true, false, Writable, Again)

  lemma {:induction false} RunAppend(limit: nat, t: Tcp, calls: seq<Call>, t': Tcp, c: Call)
    requires Inv(limit, t) && Run(limit, t, calls, t')
    requires (RunKeepsInv(limit, t, calls, t'); Enabled(t', c))
    ensures Inv(limit, t') && Inv(limit, Next(limit, t', c)) && Run(limit, t, calls + [c], Next(limit, t', c))
    decreases |calls|
  {
    RunKeepsInv(limit, t, calls, t');
    CallKeepsInv(limit, t', c);
    if calls == [] {
      assert ([c])[1..] == [];
    } else {
      CallKeepsInv(limit, t, calls[0]);
      RunAppend(limit, Next(limit, t, calls[0]), calls[1..], t', c);
      assert (calls + [c])[1..] == calls[1..] + [c];
    }
  }

  /** A new socket is asked whether it is ready, and is. */
  lemma {:induction false} FirstReady(limit: nat) returns (calls: seq<Call>, t: Tcp)
    ensures Inv(limit, Open(true)) && Run(limit, Open(true), calls, t) && Inv(limit, t)
    ensures t == Open(true).(cleared := true)
  {
    var c := CallSockready(QUIET);
    OpenInv(limit, true);
    RunAppend(limit, Open(true), [], Open(true), c);
    calls, t := [] + [c], Next(limit, Open(true), c);
  }

  /** A socket that is told of a lost connection after one of two bytes goes on with the second byte. */
  lemma {:induction false} TornExample() returns (calls: seq<Call>, t: Tcp)
    ensures Inv(0, Open(true)) && Run(0, Open(true), calls, t)
    ensures t.tx.torn && t.tx.wire == [0] && t.tx.frames == [[]] && !FrameSender.Framed(t.tx)
  {
    calls, t := FirstReady(0);
    var c1, c2 := CallSendto(MSG, false, Sent(1)), CallSockready(QUIET.(reported := true, send := Sent(1)));
    RunAppend(0, Open(true), calls, t, c1);
    calls, t := calls + [c1], Next(0, t, c1);
    assert t.tx.sendbuf == [0, 0] && t.tx.sending == 1;
    RunAppend(0, Open(true), calls, t, c2);
    calls, t := calls + [c2], Next(0, t, c2);
    RunKeepsInv(0, Open(true), calls, t);
    FrameSender.FramedIffWhole(t.tx);
  }

  /** The connection is reported lost when a message is to be sent, which is then kept. */
  lemma {:induction false} LostBeforeSending() returns (calls: seq<Call>, t: Tcp)
    ensures Inv(1, Open(true)) && Run(1, Open(true), calls, t) && Inv(1, t)
    ensures t.tx == FrameSender.Tx([0, 0], 0, true, [], [], false) && t.needReconnect && t.sent == 0
  {
    calls, t := FirstReady(1);
    var c := CallSendto(MSG, true, Again);
    RunAppend(1, Open(true), calls, t, c);
    calls, t := calls + [c], Next(1, t, c);
  }

  /** On the next connection it is sent as soon as that comes up, and sockready returns 1. */
  lemma {:induction false} SentOnSettingUp() returns (calls: seq<Call>, t: Tcp)
    ensures Inv(1, Open(true)) && Run(1, Open(true), calls, t) && Inv(1, t)
    ensures t.cleared && t.sent == 1
  {
    calls, t := LostBeforeSending();
    var c := CallSockready(QUIET.(immediate := false, retried := Sent(2)));
    RunAppend(1, Open(true), calls, t, c);
    calls, t := calls + [c], Next(1, t, c);
  }

  /** So with a limit of one query per connection, two can complete on one connection. */
  lemma {:induction false} LimitOfOneExceeded() returns (calls: seq<Call>, t: Tcp)
    ensures Inv(1, Open(true)) && Run(1, Open(true), calls, t)
    ensures |t.tx.frames| == 2
  {
    calls, t := SentOnSettingUp();
    var c := CallSendto(MSG, false, Sent(2));
    RunAppend(1, Open(true), calls, t, c);
    calls, t := calls + [c], Next(1, t, c);
  }
}
