/**
 * The two atomic variables through which the sending and the receiving thread of one TCP socket
 * agree on reconnects (src/net_tcp.c): sock->fd, stored by the sender, and recv_need_reconn,
 * stored by the receiver. Each atomic access is one step; descriptors are never reused.
 */
module TcpHandshake {
  /** Where the receiving thread is: outside perf__tcp_recv, or inside, having loaded the descriptor. */
  datatype Receiving = Outside | Inside

  /**
   * `buffered` gives for every byte in recvbuf the connection it was read from. History: `fds`
   * lists the descriptors stored so far, `reports` those the receiver has reported as lost.
   */
  datatype State = State(
    fd: int,
    needReconn: int,
    recvfd: int,
    receiving: Receiving,
    buffered: seq<int>,
    fds: seq<int>,
    reports: seq<int>)

  function Open(fd: int): State { State(fd, -1, fd, Outside, [], [fd], []) }

  datatype Step =
    | Reconnect(newfd: int)  // sender: opens a descriptor and stores it into sock->fd
    | LoadFd                 // receiver: enters, resets its buffer if the descriptor changed
    | Read(n: nat)           // receiver: n bytes from the descriptor it loaded
    | Take(n: nat)           // receiver: hands out and drops the first n buffered bytes
    | Report                 // receiver: the connection is lost
    | Leave                  // receiver: nothing to hand out

  ghost predicate Enabled(s: State, step: Step) {
    match step
    case Reconnect(newfd) => newfd != -1 && newfd !in s.fds
    case LoadFd => s.receiving == Outside
    case Read(_) => s.receiving == Inside
    case Take(n) => s.receiving == Inside && n <= |s.buffered|
    case Report => s.receiving == Inside
    case Leave => s.receiving == Inside
  }

  ghost function Next(s: State, step: Step): State
    requires Enabled(s, step)
  {
    match step
    case Reconnect(newfd) => s.(fd := newfd, fds := s.fds + [newfd])
    case LoadFd => s.(receiving := Inside, recvfd := s.fd, buffered := if s.fd != s.recvfd then [] else s.buffered)
    case Read(n) => s.(buffered := s.buffered + seq(n, _ => s.recvfd))
    case Take(n) => s.(receiving := Outside, buffered := s.buffered[n..])
    case Report => s.(receiving := Outside, needReconn := s.recvfd, reports := s.reports + [s.recvfd])
    case Leave => s.(receiving := Outside)
  }

  /** The sender's test before sending and in sockready. */
  predicate MustReconnect(s: State) { s.needReconn == s.fd }

  ghost predicate Inv(s: State) {
    && s.fds != [] && s.fds[|s.fds| - 1] == s.fd
    && -1 !in s.fds
    && s.recvfd in s.fds
    && (forall i :: 0 <= i < |s.buffered| ==> s.buffered[i] == s.recvfd)
    && (forall i :: 0 <= i < |s.reports| ==> s.reports[i] in s.fds)
    && (s.needReconn == -1 || s.needReconn in s.reports)
    && (s.fd in s.reports ==> s.recvfd == s.fd && s.needReconn == s.fd)
  }

  lemma {:induction false} StepKeepsInv(s: State, step: Step)
    requires Inv(s) && Enabled(s, step)
    ensures Inv(Next(s, step))
  {
    match step
    case Reconnect(newfd) =>
      assert newfd !in s.reports;
    case Report =>
      var s' := Next(s, step);
      assert s'.reports[|s.reports|] == s.recvfd;
      assert forall r :: r in s'.reports ==> r in s.reports || r == s.recvfd;
    case LoadFd =>
    case Read(_) =>
    case Take(_) =>
    case Leave =>
  }

  ghost predicate Run(s: State, steps: seq<Step>, s': State)
    decreases |steps|
  {
    if steps == [] then s' == s else Enabled(s, steps[0]) && Run(Next(s, steps[0]), steps[1..], s')
  }

  lemma {:induction false} RunKeepsInv(s: State, steps: seq<Step>, s': State)
    requires Inv(s) && Run(s, steps, s')
    ensures Inv(s')
    decreases |steps|
  {
    if steps != [] {
      StepKeepsInv(s, steps[0]);
      RunKeepsInv(Next(s, steps[0]), steps[1..], s');
    }
  }

  /**
   * In every interleaving the sender finds a reason to reconnect exactly when the receiver has
   * reported the current connection: no report on it is ever overwritten, and no late report
   * on an earlier one is mistaken for it.
   */
  lemma {:induction false} ReconnectIffReported(fd: int, steps: seq<Step>, s: State)
    requires fd != -1 && Run(Open(fd), steps, s)
    ensures MustReconnect(s) <==> s.fd in s.reports
  {
    RunKeepsInv(Open(fd), steps, s);
  }

  /** ... and what the receiver has buffered was all read from the connection it works on. */
  lemma {:induction false} BufferedFromOneConnection(fd: int, steps: seq<Step>, s: State)
    requires fd != -1 && Run(Open(fd), steps, s)
    ensures forall i :: 0 <= i < |s.buffered| ==> s.buffered[i] == s.recvfd
  {
    RunKeepsInv(Open(fd), steps, s);
  }

  /** Once reported, a lost connection stays visible through every step but the sender's reconnect. */
  lemma {:induction false} ReportStaysVisible(s: State, steps: seq<Step>, s': State)
    requires Inv(s) && MustReconnect(s) && Run(s, steps, s')
    requires forall i :: 0 <= i < |steps| ==> !steps[i].Reconnect?
    ensures MustReconnect(s')
    decreases |steps|
  {
    if steps != [] {
      StepKeepsInv(s, steps[0]);
      var s1 := Next(s, steps[0]);
      assert s1.fd in s1.reports by { assert s.fd in s.reports && s1.reports[..|s.reports|] == s.reports; }
      ReportStaysVisible(s1, steps[1..], s');
    }
  }

  // ---- Told from the steps alone ----

  /** Whether the receiver works on the current connection, whether it has reported that one, and the bytes it holds. */
  datatype Summary = Summary(current: bool, told: bool, held: int)

  function Summed(x: Summary, step: Step): Summary {
    match step
    case Reconnect(_) => x.(current := false, told := false)
    case LoadFd => if x.current then x else x.(current := true, held := 0)
    case Read(n) => x.(held := x.held + n)
    case Take(n) => x.(held := x.held - n)
    case Report => x.(told := x.told || x.current)
    case Leave => x
  }

  function AllSummed(x: Summary, steps: seq<Step>): Summary
    decreases |steps|
  {
    if steps == [] then x else AllSummed(Summed(x, steps[0]), steps[1..])
  }

  ghost predicate Sums(s: State, x: Summary) {
    x == Summary(s.recvfd == s.fd, MustReconnect(s), |s.buffered|)
  }

  lemma {:induction false} StepSums(s: State, x: Summary, step: Step)
    requires Inv(s) && Sums(s, x) && Enabled(s, step)
    ensures Sums(Next(s, step), Summed(x, step))
  {
  }

  lemma {:induction false} RunSums(s: State, x: Summary, steps: seq<Step>, s': State)
    requires Inv(s) && Sums(s, x) && Run(s, steps, s')
    ensures Sums(s', AllSummed(x, steps))
    decreases |steps|
  {
    if steps != [] {
      StepKeepsInv(s, steps[0]);
      StepSums(s, x, steps[0]);
      RunSums(Next(s, steps[0]), Summed(x, steps[0]), steps[1..], s');
    }
  }

  /**
   * In every interleaving the sender must reconnect if and only if since its last reconnect the receiver
   * has come back to load the descriptor and has reported it lost, and the receiver holds the bytes that
   * it has read since it took the descriptor up, less those handed out.
   */
  lemma {:induction false} ToldByTheSteps(fd: int, steps: seq<Step>, s: State)
    requires fd != -1 && Run(Open(fd), steps, s)
    ensures Sums(s, AllSummed(Summary(true, false, 0), steps))
  {
    RunSums(Open(fd), Summary(true, false, 0), steps, s);
  }
}
