/** The sending half that net_tcp.c and net_dot.c share: one framed message, written in parts. */
module FrameSender {
  import opened Framing

  /**
   * The used part of sendbuf, how much of it has been written, and is_sending. The rest is history: the
   * bytes written on this connection, the messages completed on it, and whether it took over in the
   * middle of a message.
   */
  datatype Tx = Tx(sendbuf: seq<byte>, sending: nat, isSending: bool, wire: seq<byte>, frames: seq<Frame>, torn: bool)

  const START := Tx([], 0, false, [], [], false)

  ghost predicate Framed(tx: Tx) {
    && AllSendable(tx.frames)
    && tx.sending <= |tx.sendbuf|
    && tx.wire == Stream(tx.frames) + tx.sendbuf[..tx.sending]
  }

  /** Fewer bytes than the messages it is supposed to carry. */
  ghost predicate Short(tx: Tx) {
    AllSendable(tx.frames) && |tx.wire| < |Stream(tx.frames)| + tx.sending && (tx.wire == [] ==> tx.frames == [])
  }

  ghost predicate Kept(tx: Tx) {
    && tx.sending <= |tx.sendbuf|
    && (if tx.torn then Short(tx) else Framed(tx))
    && (tx.isSending ==> Loaded(tx) && tx.sending < |tx.sendbuf|)
    && (!tx.isSending ==> tx.sending == 0)
  }

  ghost predicate Inv(tx: Tx) { Kept(tx) && !tx.torn }

  /** sendbuf starts with the length of the rest. */
  ghost predicate Loaded(tx: Tx) {
    2 <= |tx.sendbuf| == LengthAt(tx.sendbuf) + 2
  }

  lemma {:induction false} LoadedIsPrefixed(tx: Tx)
    requires Loaded(tx)
    ensures Sendable(tx.sendbuf[2..]) && tx.sendbuf == Prefixed(tx.sendbuf[2..])
  {
  }

  /** Messages are cut to what fits into the buffer. */
  function Clip(msg: seq<byte>): (f: Frame)
    ensures Sendable(f)
  {
    if |msg| < BUF_SIZE - 2 then msg else msg[..BUF_SIZE - 2]
  }

  function Load(tx: Tx, msg: seq<byte>): Tx { tx.(sendbuf := Prefixed(Clip(msg))) }

  function Retry(tx: Tx): Tx { tx.(isSending := true, sending := 0) }

  /** n more bytes of sendbuf were written. */
  function Write(tx: Tx, n: nat): Tx
    requires tx.sending + n <= |tx.sendbuf| && 2 <= |tx.sendbuf|
  {
    var now := tx.sending + n;
    var tx' := tx.(wire := tx.wire + tx.sendbuf[tx.sending..now]);
    if now < |tx.sendbuf| then tx'.(isSending := true, sending := now)
    else tx'.(isSending := false, sending := 0, frames := tx.frames + [tx.sendbuf[2..]])
  }

  /** A new connection; `drop` gives up a message that was partly written. */
  function Renew(tx: Tx, drop: bool): Tx {
    var tx' := tx.(wire := [], frames := [], torn := !drop && tx.sending > 0);
    if drop && tx.sending > 0 then tx'.(sending := 0, isSending := false) else tx'
  }

  lemma {:induction false} LoadKeepsInv(tx: Tx, msg: seq<byte>)
    requires Inv(tx) && !tx.isSending
    ensures Inv(Load(tx, msg)) && Loaded(Load(tx, msg)) && Inv(Retry(Load(tx, msg)))
  {
    LengthOfPrefixed(Clip(msg), []);
  }

  lemma {:induction false} WriteKeepsInv(tx: Tx, n: nat)
    requires Inv(tx) && Loaded(tx) && tx.sending + n <= |tx.sendbuf|
    ensures Inv(Write(tx, n))
    ensures !Write(tx, n).isSending ==> |Write(tx, n).frames| == |tx.frames| + 1
    ensures Write(tx, n).isSending ==> Write(tx, n).frames == tx.frames
  {
    if tx.sending + n < |tx.sendbuf| { WritePart(tx, n); } else { WriteLast(tx, n); }
  }

  lemma {:induction false} WritePart(tx: Tx, n: nat)
    requires Framed(tx) && tx.sending + n < |tx.sendbuf| && 2 <= |tx.sendbuf|
    ensures Framed(Write(tx, n))
  {
    var now := tx.sending + n;
    Continued(tx.sendbuf, tx.sending, now);
    Regroup(Stream(tx.frames), tx.sendbuf[..tx.sending], tx.sendbuf[tx.sending..now]);
  }

  lemma {:induction false} WriteLast(tx: Tx, n: nat)
    requires Framed(tx) && Loaded(tx) && tx.sending + n == |tx.sendbuf|
    ensures Framed(Write(tx, n))
  {
    var now, f := tx.sending + n, tx.sendbuf[2..];
    Continued(tx.sendbuf, tx.sending, now);
    Regroup(Stream(tx.frames), tx.sendbuf[..tx.sending], tx.sendbuf[tx.sending..now]);
    LoadedIsPrefixed(tx);
    StreamAppend(tx.frames, f);
    Regroup(Stream(tx.frames), Prefixed(f), []);
  }

  lemma {:induction false} Continued(s: seq<byte>, from: nat, to: nat)
    requires from <= to <= |s|
    ensures s[..from] + s[from..to] == s[..to]
    ensures s[..|s|] == s && s[..0] == []
  {
  }

  lemma {:induction false} RenewKeepsInv(tx: Tx)
    requires Inv(tx)
    ensures Inv(Renew(tx, true)) && Renew(tx, true).sending == 0
    ensures tx.sending == 0 ==> Renew(tx, false) == Renew(tx, true)
  {
  }

  /** The connection carries what it should exactly when it did not take over in the middle of a message. */
  lemma {:induction false} FramedIffWhole(tx: Tx)
    requires Kept(tx)
    ensures Framed(tx) <==> !tx.torn
  {
  }

  /** Reconnecting in the middle of a message without dropping it breaks the framing. */
  lemma {:induction false} TornIsNotFramed(tx: Tx)
    requires Kept(tx) && tx.sending > 0
    ensures Kept(Renew(tx, false)) && !Framed(Renew(tx, false))
  {
  }

  lemma {:induction false} RenewKeepsKept(tx: Tx, drop: bool)
    requires Kept(tx)
    ensures Kept(Renew(tx, drop))
  {
  }

  lemma {:induction false} WriteKeepsShort(tx: Tx, n: nat)
    requires Kept(tx) && tx.torn && Loaded(tx) && tx.sending + n <= |tx.sendbuf|
    ensures Kept(Write(tx, n))
  {
    if tx.sending + n == |tx.sendbuf| {
      LoadedIsPrefixed(tx);
      StreamAppend(tx.frames, tx.sendbuf[2..]);
    }
  }

  lemma {:induction false} WriteKeepsKept(tx: Tx, n: nat)
    requires Kept(tx) && Loaded(tx) && tx.sending + n <= |tx.sendbuf|
    ensures Kept(Write(tx, n)) && Write(tx, n).torn == tx.torn
    ensures |Write(tx, n).frames| == if Write(tx, n).isSending then |tx.frames| else |tx.frames| + 1
  {
    if tx.torn { WriteKeepsShort(tx, n); } else { WriteKeepsInv(tx, n); }
  }

  lemma {:induction false} LoadKeepsKept(tx: Tx, msg: seq<byte>)
    requires Kept(tx) && !tx.isSending
    ensures Kept(Load(tx, msg)) && Loaded(Load(tx, msg)) && Kept(Retry(Load(tx, msg)))
  {
    LengthOfPrefixed(Clip(msg), []);
  }

  /** What can happen on a connection: a write goes on, or another message is loaded once the last is done. */
  datatype Op = WriteMore(n: nat) | LoadNext(msg: seq<byte>, retry: bool)

  ghost predicate Possible(tx: Tx, op: Op) {
    match op
    case WriteMore(n) => Loaded(tx) && tx.sending + n <= |tx.sendbuf|
    case LoadNext(_, _) => !tx.isSending
  }

  ghost function After(tx: Tx, op: Op): Tx
    requires Possible(tx, op)
  {
    match op
    case WriteMore(n) => Write(tx, n)
    case LoadNext(msg, retry) => if retry then Retry(Load(tx, msg)) else Load(tx, msg)
  }

  ghost predicate Ops(tx: Tx, ops: seq<Op>, tx': Tx)
    decreases |ops|
  {
    if ops == [] then tx' == tx else Possible(tx, ops[0]) && Ops(After(tx, ops[0]), ops[1..], tx')
  }

  /** ... and nothing that follows on that connection repairs it. */
  lemma {:induction false} TornStaysTorn(tx: Tx, ops: seq<Op>, tx': Tx)
    requires Kept(tx) && tx.torn && Ops(tx, ops, tx')
    ensures Kept(tx') && tx'.torn && !Framed(tx')
    decreases |ops|
  {
    if ops != [] {
      match ops[0]
      case WriteMore(n) => WriteKeepsKept(tx, n); TornStaysTorn(After(tx, ops[0]), ops[1..], tx');
      case LoadNext(msg, _) => LoadKeepsKept(tx, msg); TornStaysTorn(After(tx, ops[0]), ops[1..], tx');
    }
  }

  /** A connection that has been left: what was written on it, what had been completed, and what was begun. */
  datatype Conn = Conn(wire: seq<byte>, frames: seq<Frame>, tail: seq<byte>, torn: bool)

  function Left(tx: Tx): Conn
    requires tx.sending <= |tx.sendbuf|
  {
    Conn(tx.wire, tx.frames, if tx.wire == [] then [] else tx.sendbuf[..tx.sending], tx.torn && tx.wire != [])
  }

  /** Complete frames in order, then at most the start of one more. */
  ghost predicate ConnFramed(c: Conn) {
    && AllSendable(c.frames)
    && c.wire == Stream(c.frames) + c.tail
    && (c.tail == [] || exists f :: Sendable(f) && c.tail < Prefixed(f))
  }

  lemma {:induction false} LeftIsFramed(tx: Tx)
    requires Inv(tx)
    ensures ConnFramed(Left(tx)) && !Left(tx).torn
  {
    if tx.isSending && tx.wire != [] {
      LoadedIsPrefixed(tx);
      assert Left(tx).tail < Prefixed(tx.sendbuf[2..]);
    }
  }

  /** A connection that was left had carried what it should exactly when it was not written on in mid-message. */
  lemma {:induction false} LeftFramedIff(tx: Tx)
    requires Kept(tx)
    ensures ConnFramed(Left(tx)) <==> !Left(tx).torn
  {
    if !tx.torn { LeftIsFramed(tx); }
  }

  // ---- Which messages are carried ----

  /** As much of a message as its two length bytes can say. */
  function FirstPart(msg: seq<byte>): Frame { msg[..if |msg| <= 65535 then |msg| else 65535] }

  /** The buffer holds the length and that part of the message. */
  lemma {:induction false} LoadHolds(tx: Tx, msg: seq<byte>)
    ensures var n := |FirstPart(msg)|; Load(tx, msg).sendbuf == [n / 256, n % 256] + FirstPart(msg)
    ensures Load(tx, msg).sendbuf[2..] == FirstPart(msg)
    ensures Load(tx, msg).(sendbuf := tx.sendbuf) == tx
  {
    assert Clip(msg) == FirstPart(msg);
    assert Prefixed(FirstPart(msg))[2..] == FirstPart(msg);
  }

  /** The messages completed on the connections left behind, in order. */
  ghost function Completed(past: seq<Conn>): seq<Frame> {
    if past == [] then [] else Completed(past[..|past| - 1]) + past[|past| - 1].frames
  }

  ghost function Pending(tx: Tx): seq<Frame> { if tx.isSending && |tx.sendbuf| >= 2 then [tx.sendbuf[2..]] else [] }

  /** All messages completed so far, and the one under way. */
  ghost function Books(past: seq<Conn>, tx: Tx): seq<Frame> { Completed(past) + tx.frames + Pending(tx) }

  /** A write completes the message under way, or leaves it so. */
  lemma {:induction false} WriteBooks(past: seq<Conn>, tx: Tx, n: nat)
    requires Loaded(tx) && tx.sending + n <= |tx.sendbuf|
    ensures Books(past, Write(tx, n)) == Completed(past) + tx.frames + [tx.sendbuf[2..]]
  {
  }

  /** A new connection loses the message under way only if it was partly written and is dropped. */
  lemma {:induction false} RenewBooks(past: seq<Conn>, tx: Tx, drop: bool)
    requires Kept(tx)
    ensures Books(past + [Left(tx)], Renew(tx, drop)) ==
            if drop && tx.sending > 0 then Completed(past) + tx.frames else Books(past, tx)
  {
    assert (past + [Left(tx)])[..|past|] == past;
  }

  lemma {:induction false} BooksShort(past: seq<Conn>, tx: Tx)
    requires Kept(tx) && tx.isSending
    ensures var b := Books(past, tx); b != [] && b[..|b| - 1] == Completed(past) + tx.frames
  {
  }

  /** The bytes written on the connections left behind. */
  ghost function Bytes(past: seq<Conn>): nat {
    if past == [] then 0 else Bytes(past[..|past| - 1]) + |past[|past| - 1].wire|
  }

  /** All bytes written so far. */
  ghost function Output(past: seq<Conn>, tx: Tx): nat { Bytes(past) + |tx.wire| }

  lemma {:induction false} RenewOutput(past: seq<Conn>, tx: Tx, drop: bool)
    requires tx.sending <= |tx.sendbuf|
    ensures Output(past + [Left(tx)], Renew(tx, drop)) == Output(past, tx)
  {
    assert (past + [Left(tx)])[..|past|] == past;
  }
}
