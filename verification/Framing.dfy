/**
 * Length-prefixed DNS messages on a byte stream, as section 4.2.2 of RFC 1035 defines them and
 * both stream transports use them.
 */
module Framing {
  type byte = b: nat | b < 256

  /** TCP_RECV_BUF_SIZE and TCP_SEND_BUF_SIZE */
  const BUF_SIZE: nat := 65537

  type Frame = seq<byte>

  predicate Sendable(f: Frame) { |f| < 65536 }

  ghost predicate AllSendable(fs: seq<Frame>) {
    forall i :: 0 <= i < |fs| ==> Sendable(fs[i])
  }

  function Prefixed(f: Frame): (s: seq<byte>)
    requires Sendable(f)
    ensures |s| == |f| + 2 && s[2..] == f
  {
    [|f| / 256, |f| % 256] + f
  }

  ghost function Stream(fs: seq<Frame>): seq<byte>
    requires AllSendable(fs)
  {
    if fs == [] then [] else Prefixed(fs[0]) + Stream(fs[1..])
  }

  /** The length field at the start of a buffer. */
  function LengthAt(s: seq<byte>): (n: nat)
    requires |s| >= 2
    ensures n < 65536
  {
    256 * (s[0] as nat) + s[1]
  }

  lemma {:induction false} LengthOfPrefixed(f: Frame, rest: seq<byte>)
    requires Sendable(f)
    ensures LengthAt(Prefixed(f) + rest) == |f|
    ensures (Prefixed(f) + rest)[2..|f| + 2] == f && (Prefixed(f) + rest)[|f| + 2..] == rest
  {
  }

  lemma {:induction false} StreamAppend(fs: seq<Frame>, f: Frame)
    requires AllSendable(fs) && Sendable(f)
    ensures Stream(fs + [f]) == Stream(fs) + Prefixed(f)
  {
    if fs == [] {
      assert Stream([f]) == Prefixed(f) + Stream([]);
    } else {
      assert (fs + [f])[1..] == fs[1..] + [f];
      StreamAppend(fs[1..], f);
    }
  }

  lemma {:induction false} StreamConcat(fs: seq<Frame>, gs: seq<Frame>)
    requires AllSendable(fs) && AllSendable(gs)
    ensures Stream(fs + gs) == Stream(fs) + Stream(gs)
  {
    if fs == [] {
      assert fs + gs == gs;
    } else {
      assert (fs + gs)[1..] == fs[1..] + gs;
      StreamConcat(fs[1..], gs);
    }
  }

  /**
   * Framing is unambiguous: if complete frames `got` and some more bytes make up the start of
   * the stream of `sent`, then `got` are the first frames of `sent`.
   */
  lemma {:induction false} StreamPrefix(got: seq<Frame>, more: seq<byte>, sent: seq<Frame>)
    requires AllSendable(got) && AllSendable(sent)
    requires Stream(got) + more <= Stream(sent)
    ensures got <= sent && more <= Stream(sent[|got|..])
  {
    if got == [] {
      assert sent[0..] == sent && Stream(got) + more == more;
    } else {
      assert |Stream(got)| >= 2;
      Regroup(Prefixed(got[0]), Stream(got[1..]), more);
      FirstFrames(got[0], Stream(got[1..]) + more, sent[0], Stream(sent[1..]));
      StreamPrefix(got[1..], more, sent[1..]);
      assert sent[1..][|got| - 1..] == sent[|got|..];
      assert got == [got[0]] + got[1..] && sent == [sent[0]] + sent[1..];
    }
  }

  lemma {:induction false} FirstFrames(f: Frame, rest: seq<byte>, f': Frame, rest': seq<byte>)
    requires Sendable(f) && Sendable(f') && Prefixed(f) + rest <= Prefixed(f') + rest'
    ensures f == f' && rest <= rest'
  {
    var s, s' := Prefixed(f) + rest, Prefixed(f') + rest';
    LengthOfPrefixed(f, rest);
    LengthOfPrefixed(f', rest');
    assert s[0] == s'[0] && s[1] == s'[1];
    assert s == s'[..|s|];
  }

  lemma {:induction false} Regroup(a: seq<byte>, b: seq<byte>, c: seq<byte>)
    ensures (a + b) + c == a + (b + c) && (a + b) + [] == a + b
  {
  }
}

/** The receiving half that net_tcp.c and net_dot.c share: buffering and splitting frames. */
module FrameReceiver {
  import opened Framing

  /**
   * What a receive call delivers from, once it has read: at least three bytes and a complete
   * frame. An empty frame therefore counts only when a further byte has arrived.
   */
  predicate HasFrame(s: seq<byte>) { |s| > 2 && |s| >= LengthAt(s) + 2 }

  function FirstFrame(s: seq<byte>): Frame
    requires HasFrame(s)
  {
    s[2..LengthAt(s) + 2]
  }

  function AfterFrame(s: seq<byte>): seq<byte>
    requires HasFrame(s)
  {
    s[LengthAt(s) + 2..]
  }

  /** Buffered bytes and have_more, with what has arrived and been delivered so far as history. */
  datatype Rx = Rx(buffered: seq<byte>, haveMore: bool, arrived: seq<byte>, delivered: seq<Frame>)

  const START := Rx([], false, [], [])

  ghost predicate Inv(rx: Rx) {
    && (rx.haveMore <==> HasFrame(rx.buffered))
    && |rx.buffered| <= BUF_SIZE
    && AllSendable(rx.delivered)
    && Stream(rx.delivered) + rx.buffered == rx.arrived
  }

  /** What a call may read: nothing while a frame is waiting, else as much as there is room for. */
  ghost predicate Readable(rx: Rx, chunk: seq<byte>) {
    if rx.haveMore then chunk == [] else 0 < |chunk| <= BUF_SIZE - |rx.buffered|
  }

  function Buffer(rx: Rx, chunk: seq<byte>): Rx {
    rx.(buffered := rx.buffered + chunk, arrived := rx.arrived + chunk)
  }

  /** The part of a receive call after the read. */
  function Deliver(rx: Rx): Rx {
    if HasFrame(rx.buffered) then
      var rest := AfterFrame(rx.buffered);
      rx.(buffered := rest, haveMore := HasFrame(rest), delivered := rx.delivered + [FirstFrame(rx.buffered)])
    else
      rx
  }

  function Receive(rx: Rx, chunk: seq<byte>): Rx { Deliver(Buffer(rx, chunk)) }

  /** A call delivers one frame exactly when, with what it reads, one is there and a byte more than its length. */
  lemma {:induction false} DeliversOneIff(rx: Rx, chunk: seq<byte>)
    ensures var b := rx.buffered + chunk;
            var n := if |b| >= 2 then 256 * (b[0] as nat) + b[1] else 0;
            if |b| >= 3 && |b| >= n + 2 then
              && Receive(rx, chunk).delivered == rx.delivered + [b[2..n + 2]]
              && Receive(rx, chunk).buffered == b[n + 2..]
            else
              Receive(rx, chunk).delivered == rx.delivered && Receive(rx, chunk).buffered == b
  {
  }

  lemma {:induction false} ReceiveKeepsInv(rx: Rx, chunk: seq<byte>)
    requires Inv(rx) && Readable(rx, chunk)
    ensures Inv(Receive(rx, chunk))
  {
    var b := Buffer(rx, chunk);
    assert b.arrived == Stream(rx.delivered) + b.buffered;
    if HasFrame(b.buffered) {
      var f := FirstFrame(b.buffered);
      assert b.buffered == Prefixed(f) + AfterFrame(b.buffered);
      StreamAppend(rx.delivered, f);
      assert Stream(rx.delivered) + b.buffered == Stream(rx.delivered + [f]) + AfterFrame(b.buffered);
    }
  }

  /** Between calls there is room for a read, so a read of 0 bytes really means closed. */
  lemma {:induction false} RoomToRead(rx: Rx)
    requires Inv(rx) && !rx.haveMore
    ensures |rx.buffered| < BUF_SIZE
  {
  }

  /** Successive calls; the chunks are whatever the system calls returned. */
  ghost predicate Calls(rx: Rx, chunks: seq<seq<byte>>, rx': Rx)
    decreases |chunks|
  {
    if chunks == [] then rx' == rx
    else Readable(rx, chunks[0]) && Calls(Receive(rx, chunks[0]), chunks[1..], rx')
  }

  lemma {:induction false} CallsKeepInv(rx: Rx, chunks: seq<seq<byte>>, rx': Rx)
    requires Inv(rx) && Calls(rx, chunks, rx')
    ensures Inv(rx')
    decreases |chunks|
  {
    if chunks != [] {
      ReceiveKeepsInv(rx, chunks[0]);
      CallsKeepInv(Receive(rx, chunks[0]), chunks[1..], rx');
    }
  }

  /**
   * However the stream of `sent` is cut into reads, the calls so far have delivered its first
   * frames in order, and the buffer holds the start of the next ones.
   */
  lemma {:induction false} DeliversInOrder(chunks: seq<seq<byte>>, rx: Rx, sent: seq<Frame>)
    requires Calls(START, chunks, rx) && AllSendable(sent) && rx.arrived <= Stream(sent)
    ensures rx.delivered <= sent
    ensures rx.buffered <= Stream(sent[|rx.delivered|..])
  {
    CallsKeepInv(START, chunks, rx);
    StreamPrefix(rx.delivered, rx.buffered, sent);
  }

  /** An empty frame is delivered only with a byte after it. */
  ghost predicate EmptyFollowed(rx: Rx) {
    rx.delivered != [] && rx.delivered[|rx.delivered| - 1] == [] ==> rx.buffered != []
  }

  lemma {:induction false} CallsKeepFollowed(rx: Rx, chunks: seq<seq<byte>>, rx': Rx)
    requires EmptyFollowed(rx) && Calls(rx, chunks, rx')
    ensures EmptyFollowed(rx')
    decreases |chunks|
  {
    if chunks != [] {
      CallsKeepFollowed(Receive(rx, chunks[0]), chunks[1..], rx');
    }
  }

  /**
   * Once the whole stream has arrived and no frame waits, every frame has been delivered if and only
   * if the last one is not empty; an empty one alone waits for a byte after it.
   */
  lemma {:induction false} DeliversAll(chunks: seq<seq<byte>>, rx: Rx, sent: seq<Frame>)
    requires Calls(START, chunks, rx) && AllSendable(sent) && rx.arrived == Stream(sent) && !rx.haveMore
    ensures rx.delivered == sent <==> sent == [] || sent[|sent| - 1] != []
    ensures rx.delivered != sent ==> sent != [] && rx.delivered == sent[..|sent| - 1]
  {
    CallsKeepInv(START, chunks, rx);
    CallsKeepFollowed(START, chunks, rx);
    DeliversInOrder(chunks, rx, sent);
    var d := |rx.delivered|;
    StreamConcat(sent[..d], sent[d..]);
    assert sent == sent[..d] + sent[d..];
    assert rx.delivered == sent[..d];
    assert rx.buffered == Stream(sent[d..]);
    if d < |sent| {
      WaitingFrame(sent[d..]);
      assert sent[|sent| - 1] == sent[d..][|sent| - 1 - d];
    }
  }

  lemma {:induction false} WaitingFrame(fs: seq<Frame>)
    requires AllSendable(fs) && fs != [] && !HasFrame(Stream(fs))
    ensures fs == [[]]
  {
    LengthOfPrefixed(fs[0], Stream(fs[1..]));
    assert |fs| == 1 ==> fs[1..] == [];
  }
}
