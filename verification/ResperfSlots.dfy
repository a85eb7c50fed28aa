/** How resperf addresses its query slots and its time buckets (src/resperf.c). */
module ResperfSlots {
  import opened CInt

  /** The ID that the query in a slot is sent with, and the socket it is sent on. */
  function Qid(slot: nat, nsocks: nat): nat
    requires nsocks > 0
  {
    Div(slot, nsocks)
  }

  function Sock(slot: nat, nsocks: nat): nat
    requires nsocks > 0
  {
    Mod(slot, nsocks)
  }

  /** The slot that a response is looked up in, computed in 32 bits. */
  function Index(qid: nat, sock: nat, nsocks: nat): nat { U32(Times(qid, nsocks) + sock) }

  /** The same without the 32 bits, as perf__net_sent computes it. */
  function Place(qid: nat, sock: nat, nsocks: nat): nat { Times(qid, nsocks) + sock }

  lemma {:induction false} IndexFits(qid: nat, sock: nat, nsocks: nat)
    requires qid < 65536 && sock < nsocks < 65536
    ensures Times(qid, nsocks) + sock < Times(65536, nsocks) <= TWO_32
    ensures Index(qid, sock, nsocks) == Times(qid, nsocks) + sock
  {
    TimesMono(qid + 1, 65536, nsocks);
    TimesIs(65536, nsocks);
    Fits32(Times(qid, nsocks) + sock);
  }

  /** A response with the ID and on the socket of a slot's query finds that slot. */
  lemma {:induction false} SlotFound(slot: nat, nsocks: nat)
    requires 0 < nsocks < 65536 && slot < Times(65536, nsocks)
    ensures Qid(slot, nsocks) < 65536 && Sock(slot, nsocks) < nsocks
    ensures Index(Qid(slot, nsocks), Sock(slot, nsocks), nsocks) == slot
  {
    DivMod(slot, nsocks);
    if Qid(slot, nsocks) >= 65536 {
      TimesMono(65536, Qid(slot, nsocks), nsocks);
    }
    IndexFits(Qid(slot, nsocks), Sock(slot, nsocks), nsocks);
  }

  /** No other response finds it. */
  lemma {:induction false} OnlyItsOwn(qid: nat, sock: nat, nsocks: nat)
    requires qid < 65536 && sock < nsocks < 65536
    ensures Index(qid, sock, nsocks) < Times(65536, nsocks)
    ensures Qid(Index(qid, sock, nsocks), nsocks) == qid && Sock(Index(qid, sock, nsocks), nsocks) == sock
  {
    IndexFits(qid, sock, nsocks);
    DivMod(Index(qid, sock, nsocks), nsocks);
    QuotientUnique(Index(qid, sock, nsocks), nsocks, qid, Qid(Index(qid, sock, nsocks), nsocks));
  }

  /** Conversion of a uint64_t to int: the low 32 bits, read as signed. */
  function ToInt(x: nat): int { if U32(x) < 0x8000_0000 then U32(x) else U32(x) - TWO_32 }

  /** find_bucket: the place of a time in the traffic period, kept inside the array. */
  function FindBucket(n: nat, traffic: nat, start: nat, when: nat): (b: nat)
    requires n > 0 && traffic > 0
    ensures b < n
  {
    var i := ToInt(Div(U64(Times(n, U64(when - start))), traffic));
    if i < 0 then 0 else if i > n - 1 then n - 1 else i
  }

  /** While nothing overflows, bucket b holds the times from b/n to (b+1)/n of the period; the last is open. */
  lemma {:induction false} BucketHolds(n: nat, traffic: nat, start: nat, when: nat)
    requires 0 < n && traffic > 0 && start <= when
    requires Times(n, when - start) < TWO_64 && Times(n, when - start) < Times(0x8000_0000, traffic)
    ensures var b := FindBucket(n, traffic, start, when);
            && Times(b, traffic) <= Times(n, when - start)
            && (b < n - 1 ==> Times(n, when - start) < Times(b + 1, traffic))
  {
    var x := Times(n, when - start);
    var d := Div(x, traffic);
    TimesMono(1, n, when - start);
    assert Times(1, when - start) == when - start + Times(0, when - start);
    Fits64(when - start);
    Fits64(x);
    DivMod(x, traffic);
    if d >= 0x8000_0000 {
      TimesMono(0x8000_0000, d, traffic);
    }
    Fits32(d);
    if d > n - 1 {
      TimesMono(n - 1, d, traffic);
    }
  }
}
