/**
 * The two fixed buffers of a stream socket, edited in place: recvbuf with `at` and `have_more`,
 * and sendbuf with `sending` and `is_sending`. Each refines its value-level description.
 */
module FrameBuffers {
  import opened Framing
  import opened Memory
  import FrameReceiver
  import FrameSender

  /** The caller's buffer once as much of a frame as fits is at its start. */
  ghost function Copied(before: seq<byte>, f: Frame): seq<byte> {
    var k := if |before| < |f| then |before| else |f|;
    f[..k] + before[k..]
  }

  /** The caller's buffer has the frame as far as it fits, and is else as before. */
  lemma {:induction false} CopiedAt(before: seq<byte>, f: Frame, i: nat)
    requires i < |before|
    ensures |Copied(before, f)| == |before| && Copied(before, f)[i] == if i < |f| then f[i] else before[i]
  {
  }

  class RecvBuffer {
    const recvbuf: array<byte>
    var at: nat
    var haveMore: bool
    ghost var rx: FrameReceiver.Rx

    ghost predicate Holds()
      reads this, recvbuf
    {
      recvbuf.Length == BUF_SIZE && at <= BUF_SIZE && recvbuf[..at] == rx.buffered
    }

    ghost predicate Valid()
      reads this, recvbuf
    {
      Holds() && haveMore == rx.haveMore == FrameReceiver.HasFrame(rx.buffered)
    }

    constructor ()
      ensures Valid() && fresh(recvbuf) && rx == FrameReceiver.START
    {
      recvbuf := new byte[BUF_SIZE];
      at, haveMore := 0, false;
      rx := FrameReceiver.START;
    }

    /** A new connection: nothing read yet. */
    method Reset()
      requires recvbuf.Length == BUF_SIZE
      modifies this
      ensures Valid() && rx == FrameReceiver.START
    {
      haveMore, at := false, 0;
      rx := FrameReceiver.START;
    }

    /** The bytes that a read put behind those already there, then as for a buffered message. */
    method Receive(bytes: seq<byte>, buf: array<byte>) returns (got: bool, n: nat)
      requires Valid() && !haveMore && FrameReceiver.Readable(rx, bytes) && buf != recvbuf
      modifies this, recvbuf, buf
      ensures Valid() && rx == FrameReceiver.Receive(old(rx), bytes)
      ensures got == (|rx.delivered| == |old(rx).delivered| + 1)
      ensures if got then n == |rx.delivered[|rx.delivered| - 1]| && buf[..] == Copied(old(buf[..]), rx.delivered[|rx.delivered| - 1])
              else buf[..] == old(buf[..]) && rx.delivered == old(rx).delivered
    {
      CopyIn(recvbuf, at, bytes);
      at := at + |bytes|;
      rx := FrameReceiver.Buffer(rx, bytes);
      assert recvbuf[..at] == old(recvbuf[..at]) + bytes;
      got, n := at >= 3 && at >= LengthAt(recvbuf[..at]) + 2, 0;
      if got { n := TakeFrame(buf); }
    }

    /** A message that was already complete in the buffer. */
    method TakeBuffered(buf: array<byte>) returns (n: nat)
      requires Valid() && haveMore && buf != recvbuf
      modifies this, recvbuf, buf
      ensures Valid() && rx == FrameReceiver.Deliver(old(rx)) && |rx.delivered| == |old(rx).delivered| + 1
      ensures n == |rx.delivered[|rx.delivered| - 1]| && buf[..] == Copied(old(buf[..]), rx.delivered[|rx.delivered| - 1])
    {
      n := TakeFrame(buf);
    }

    /** Copying out the first message, moving the rest to the front, and looking for another. */
    method TakeFrame(buf: array<byte>) returns (n: nat)
      requires Holds() && buf != recvbuf
      requires FrameReceiver.HasFrame(rx.buffered)
      modifies this, recvbuf, buf
      ensures Valid() && rx == FrameReceiver.Deliver(old(rx))
      ensures n == |FrameReceiver.FirstFrame(old(rx).buffered)|
      ensures buf[..] == Copied(old(buf[..]), FrameReceiver.FirstFrame(old(rx).buffered))
    {
      n := CopyFrame(buf);
      MoveDown(recvbuf, 2 + n, at - 2 - n);
      at := at - 2 - n;
      assert recvbuf[..at] == FrameReceiver.AfterFrame(rx.buffered);
      rx := FrameReceiver.Deliver(rx);
      haveMore := at > 2 && at >= LengthAt(recvbuf[..at]) + 2;
    }

    method CopyFrame(buf: array<byte>) returns (n: nat)
      requires Holds() && buf != recvbuf && FrameReceiver.HasFrame(rx.buffered)
      modifies buf
      ensures n == LengthAt(rx.buffered)
      ensures buf[..] == Copied(old(buf[..]), FrameReceiver.FirstFrame(rx.buffered))
    {
      n := LengthAt(recvbuf[..at]);
      var len := if buf.Length < n then buf.Length else n;
      ghost var f := FrameReceiver.FirstFrame(rx.buffered);
      assert rx.buffered[2..2 + len] == f[..len];
      assert recvbuf[2..2 + len] == recvbuf[..at][2..2 + len];
      CopyOut(buf, 0, recvbuf, 2, len);
    }
  }

  class SendBuffer {
    const sendbuf: array<byte>
    var sending: nat
    var isSending: bool
    ghost var tx: FrameSender.Tx

    ghost predicate Valid()
      reads this, sendbuf
    {
      && sendbuf.Length == BUF_SIZE
      && |tx.sendbuf| <= BUF_SIZE
      && sendbuf[..|tx.sendbuf|] == tx.sendbuf
      && sending == tx.sending <= |tx.sendbuf|
      && isSending == tx.isSending
    }

    constructor ()
      ensures Valid() && fresh(sendbuf) && tx == FrameSender.START
    {
      sendbuf := new byte[BUF_SIZE];
      sending, isSending := 0, false;
      tx := FrameSender.START;
    }

    /** The length and as much of the message as fits. */
    method Load(msg: seq<byte>)
      requires Valid() && sending == 0
      modifies this`tx, sendbuf
      ensures Valid() && tx == FrameSender.Load(old(tx), msg) && FrameSender.Loaded(tx)
    {
      var f := FrameSender.Clip(msg);
      CopyIn(sendbuf, 0, [|f| / 256, |f| % 256]);
      CopyIn(sendbuf, 2, f);
      tx := FrameSender.Load(tx, msg);
      LengthOfPrefixed(f, []);
      assert sendbuf[..|f| + 2] == [|f| / 256, |f| % 256] + f;
    }

    method Retry()
      requires Valid()
      modifies this
      ensures Valid() && tx == FrameSender.Retry(old(tx))
    {
      isSending, sending := true, 0;
      tx := FrameSender.Retry(tx);
    }

    /** n more bytes went out; the end of the message is known from its length field. */
    method Wrote(n: nat) returns (done: bool)
      requires Valid() && FrameSender.Loaded(tx) && tx.sending + n <= |tx.sendbuf|
      modifies this
      ensures Valid() && tx == FrameSender.Write(old(tx), n) && done == !tx.isSending
    {
      assert sendbuf[..2] == tx.sendbuf[..2];
      var dnslen := LengthAt(sendbuf[..2]);
      tx := FrameSender.Write(tx, n);
      sending := sending + n;
      done := sending >= dnslen + 2;
      if done { sending, isSending := 0, false; } else { isSending := true; }
    }

    method Renew(drop: bool)
      requires Valid()
      modifies this
      ensures Valid() && tx == FrameSender.Renew(old(tx), drop)
    {
      if drop && sending > 0 { sending, isSending := 0, false; }
      tx := FrameSender.Renew(tx, drop);
    }
  }
}
