/** perf__tcp_recv (src/net_tcp.c), refining FrameReceiver on one connection after the other. */
module TcpReceive {
  import opened Framing
  import opened FrameBuffers
  import FrameReceiver

  /** What recv(2) returned: bytes, 0, or -1 with an errno that means a lost connection or not. */
  datatype Net = Data(bytes: seq<byte>) | Closed | Failed(lost: bool)

  /** The fields of the socket that belong to the receiving thread. */
  class Receiver {
    const inp: RecvBuffer
    var recvfd: int
    var recvNeedReconn: int

    ghost predicate Valid()
      reads this, inp, inp.recvbuf
    {
      inp.Valid()
    }

    constructor (fd: int)
      ensures Valid() && fresh(inp) && fresh(inp.recvbuf)
      ensures inp.rx == FrameReceiver.START && recvfd == fd && recvNeedReconn == -1
    {
      inp := new RecvBuffer();
      recvfd, recvNeedReconn := fd, -1;
    }

    /** Where a call starts from: a changed descriptor means a new connection, with nothing read yet. */
    ghost function Current(fd: int): FrameReceiver.Rx
      reads this, inp
    {
      if fd != recvfd then FrameReceiver.START else inp.rx
    }

    /** The length of a message, 0 for a closed connection (and for an empty message), or -1. */
    method Recv(fd: int, net: Net, buf: array<byte>) returns (n: int)
      requires Valid() && buf != inp.recvbuf
      requires net.Data? && !Current(fd).haveMore ==> FrameReceiver.Readable(Current(fd), net.bytes)
      modifies this, inp, inp.recvbuf, buf
      ensures Valid() && recvfd == fd
      ensures var rx0 := old(Current(fd));
              inp.rx == if rx0.haveMore then FrameReceiver.Deliver(rx0)
                        else if net.Data? then FrameReceiver.Receive(rx0, net.bytes)
                        else rx0
      ensures var lost := !old(Current(fd)).haveMore && (net.Closed? || (net.Failed? && net.lost));
              recvNeedReconn == if lost then fd else old(recvNeedReconn)
      ensures if |inp.rx.delivered| == |old(Current(fd)).delivered| + 1 then
                var f := inp.rx.delivered[|inp.rx.delivered| - 1];
                n == |f| && buf[..] == Copied(old(buf[..]), f)
              else
                && n == (if !old(Current(fd)).haveMore && net.Closed? then 0 else -1)
                && inp.rx.delivered == old(Current(fd)).delivered && buf[..] == old(buf[..])
    {
      if fd != recvfd {
        inp.Reset();
        recvfd := fd;
      }
      if inp.haveMore {
        n := inp.TakeBuffered(buf);
        return;
      }
      match net {
        case Closed =>
          recvNeedReconn := fd;
          n := 0;
        case Failed(lost) =>
          if lost { recvNeedReconn := fd; }
          n := -1;
        case Data(bytes) =>
          var got, k := inp.Receive(bytes, buf);
          n := if got then k else -1;
      }
    }
  }
}
