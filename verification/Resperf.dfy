/** The state of resperf, its three operations and a turn of its main loop, on fields. */
module Resperf {
  import opened Lists
  import opened Timeouts
  import opened ResperfSlots
  import opened ResperfSpec
  import opened ResperfRuns
  import opened CInt

  datatype LineResult = Ok | Failed | NoMore

  /** A delayed message that went out during a call, by the ID the transport had for it. */
  datatype Flush = Quiet | Sent(qid: nat)

  /** What sockready returns, and what it sent on the way. */
  datatype Ready = Ready(ret: int, flush: Flush)

  /** What the network and the input do during do_one_line. */
  datatype LineInput = LineInput(first: Ready, second: Ready, built: bool, outcome: Outcome)

  /** What a socket gives: nothing, or a response's ID and whether it counts as a failure. */
  datatype Packet = Nothing | Packet(qid: nat, failed: bool)

  /** A call of sockready: perf__net_sent runs if the socket still held the message. */
  ghost function Polled(c: Config, s: State, sock: nat, r: Ready): State
    requires Inv(c, s)
  {
    if r.flush.Sent? && Place(r.flush.qid, sock, c.nsocks) in s.waiting then Flushed(c, s, Place(r.flush.qid, sock, c.nsocks))
    else s
  }

  lemma {:induction false} PolledKeepsInv(c: Config, s: State, sock: nat, r: Ready)
    requires Inv(c, s)
    ensures Inv(c, Polled(c, s, sock, r))
    ensures var s' := Polled(c, s, sock, r); s'.lists == s.lists && s'.inProgress == s.inProgress && s'.now == s.now && s'.n == s.n
  {
    if r.flush.Sent? && Place(r.flush.qid, sock, c.nsocks) in s.waiting {
      FlushedKeepsInv(c, s, Place(r.flush.qid, sock, c.nsocks));
    }
  }

  /** do_one_line, and the bucket count that the main loop adds when it succeeds. */
  ghost function Line(c: Config, s: State, w: LineInput): (State, LineResult)
    requires Inv(c, s)
  {
    OutstandingSlots(s.lists, c.slots);
    if s.lists.unused == [] then (s, NoMore)
    else if s.inProgress[s.lists.unused[0]] then
      var polled := Polled(c, s, Sock(s.lists.unused[0], c.nsocks), w.first);
      PolledKeepsInv(c, s, Sock(s.lists.unused[0], c.nsocks), w.first);
      if w.first.ret == -1 then (polled, Failed)
      else FinishKeepsInv(c, polled); NewLine(c, FinishSend(polled), w)
    else NewLine(c, s, w)
  }

  ghost function NewLine(c: Config, s: State, w: LineInput): (State, LineResult)
    requires Inv(c, s)
  {
    OutstandingSlots(s.lists, c.slots);
    if s.lists.unused == [] then (s, NoMore)
    else
      var polled := Polled(c, s, Sock(s.lists.unused[0], c.nsocks), w.second);
      PolledKeepsInv(c, s, Sock(s.lists.unused[0], c.nsocks), w.second);
      if w.second.ret == 0 || w.second.ret == -1 || !w.built then (polled, Failed)
      else (SendHead(c, polled, w.outcome), if w.outcome == Outcome.Sent then Ok else Failed)
  }

  lemma {:induction false} LineKeepsInv(c: Config, s: State, w: LineInput)
    requires Inv(c, s)
    ensures Inv(c, Line(c, s, w).0) && Line(c, s, w).0.now == s.now
  {
    OutstandingSlots(s.lists, c.slots);
    if s.lists.unused != [] && s.inProgress[s.lists.unused[0]] {
      var sock := Sock(s.lists.unused[0], c.nsocks);
      PolledKeepsInv(c, s, sock, w.first);
      if w.first.ret != -1 {
        FinishKeepsInv(c, Polled(c, s, sock, w.first));
        NoneDelayedAfter(c, Polled(c, s, sock, w.first));
        NewLineKeepsInv(c, FinishSend(Polled(c, s, sock, w.first)), w);
      }
    } else {
      NewLineKeepsInv(c, s, w);
    }
  }

  lemma {:induction false} NewLineKeepsInv(c: Config, s: State, w: LineInput)
    requires Inv(c, s)
    requires s.lists.unused != [] ==> s.lists.unused[0] < |s.inProgress| ==> !s.inProgress[s.lists.unused[0]]
    ensures Inv(c, NewLine(c, s, w).0) && NewLine(c, s, w).0.now == s.now
  {
    OutstandingSlots(s.lists, c.slots);
    if s.lists.unused != [] {
      var sock := Sock(s.lists.unused[0], c.nsocks);
      PolledKeepsInv(c, s, sock, w.second);
      if !(w.second.ret == 0 || w.second.ret == -1 || !w.built) {
        SendKeepsInv(c, Polled(c, s, sock, w.second), w.outcome);
      }
    }
  }

  class Tester {
    const c: Config
    var lists: Pair<nat>
    var inProgress: seq<bool>
    var stamps: seq<nat>
    var n: Counts
    var queries: seq<nat>
    var responses: seq<nat>
    var failures: seq<nat>
    var now: nat
    var waiting: set<nat>
    ghost var retired: seq<nat>
    ghost var restamped: bool
    ghost var uneven: bool

    ghost function View(): State
      reads this
    {
      State(lists, inProgress, stamps, n, Tally(queries, responses, failures, retired), now, waiting, restamped, uneven)
    }

    ghost predicate Valid()
      reads this
    {
      Inv(c, View())
    }

    /** setup: every slot on instanding_list, in order, and nothing counted. */
    constructor (c: Config, now: nat)
      requires ValidConfig(c)
      ensures this.c == c && this.now == now && Init(c, View()) && Valid()
    {
      this.c, this.now := c, now;
      lists := Pair(seq(c.slots, i => i), []);
      inProgress, stamps := seq(c.slots, i => false), seq(c.slots, i => 0);
      n := Counts(0, 0, 0, 0);
      queries, responses, failures := seq(c.nBuckets, i => 0), seq(c.nBuckets, i => 0), seq(c.nBuckets, i => 0);
      waiting := {};
      retired, restamped, uneven := Zeros(c.nBuckets), false, false;
      new;
      InitInv(c, View());
    }

    /** The bucket's count of queries, which the main loop adds to a query that was sent. */
    ghost function Counted(): State
      requires c.nBuckets > 0 && c.traffic > 0
      reads this
    {
      View().(t := View().t.(queries := Bump(queries, BucketOf(c, now))))
    }

    /** perf__net_sent, whose assertion holds. */
    method NetSent(sock: nat, qid: nat)
      requires Valid() && Place(qid, sock, c.nsocks) in waiting
      modifies this
      ensures Valid() && View() == Flushed(c, old(View()), Place(qid, sock, c.nsocks))
    {
      var idx := Place(qid, sock, c.nsocks);
      FlushedKeepsInv(c, View(), idx);
      queries := Bump(queries, BucketOf(c, now));
      assert idx < c.slots;
      stamps := stamps[idx := now];
      waiting := waiting - {idx};
      restamped := restamped || idx in lists.outstanding;
      uneven := uneven || !inProgress[idx];
    }

    /** perf_net_sockready as far as it touches this state. */
    method Poll(sock: nat, r: Ready)
      requires Valid()
      modifies this
      ensures Valid() && View() == Polled(c, old(View()), sock, r)
    {
      if r.flush.Sent? && Place(r.flush.qid, sock, c.nsocks) in waiting { NetSent(sock, r.flush.qid); }
    }

    method FinishOne()
      requires lists.unused != [] && lists.unused[0] < |inProgress|
      modifies this
      ensures View() == FinishSend(old(View()))
    {
      var q := lists.unused[0];
      inProgress := inProgress[q := false];
      lists := Move(lists, q, PrependOutstanding);
      n := n.(sent := n.sent + 1, outstanding := n.outstanding + 1);
      uneven := uneven || q in waiting;
    }

    /** Stamping and sending what is at the head. */
    method SendOut(outcome: Outcome) returns (r: LineResult)
      requires c.nBuckets > 0 && c.traffic > 0
      requires lists.unused != [] && lists.unused[0] < |inProgress| == |stamps|
      modifies this
      ensures (if r == Ok then Counted() else View()) == SendHead(c, old(View()), outcome)
      ensures r == if outcome == Outcome.Sent then Ok else Failed
    {
      var q := lists.unused[0];
      stamps := stamps[q := now];
      waiting := waiting - {q};
      if outcome != Outcome.Sent {
        if outcome == Delayed { inProgress, waiting := inProgress[q := true], waiting + {q}; }
        return Failed;
      }
      lists := Move(lists, q, PrependOutstanding);
      n := n.(sent := n.sent + 1, outstanding := n.outstanding + 1);
      r := Ok;
    }

    /** A new query in the slot at the head, as far as do_one_line goes. */
    method SendNew(w: LineInput) returns (r: LineResult)
      requires Valid() && lists.unused != []
      modifies this
      ensures ((if r == Ok then Counted() else View()), r) == NewLine(c, old(View()), w)
    {
      OutstandingSlots(lists, c.slots);
      PolledKeepsInv(c, View(), Sock(lists.unused[0], c.nsocks), w.second);
      Poll(Sock(lists.unused[0], c.nsocks), w.second);
      if w.second.ret == 0 || w.second.ret == -1 || !w.built { return Failed; }
      r := SendOut(w.outcome);
    }

    /** A turn of the loop of do_one_line; true unless sockready failed. */
    method FinishDelayed(first: Ready) returns (ok: bool)
      requires Valid() && Enabled(c, View(), Finish)
      modifies this
      ensures Valid()
      ensures var polled := Polled(c, old(View()), Sock(old(lists.unused[0]), c.nsocks), first);
              ok == (first.ret != -1) && View() == if ok then FinishSend(polled) else polled
      ensures ok ==> forall q :: 0 <= q < |inProgress| ==> !inProgress[q]
      ensures ok ==> |lists.unused| < old(|lists.unused|)
    {
      var sock := Sock(lists.unused[0], c.nsocks);
      PolledKeepsInv(c, View(), sock, first);
      Poll(sock, first);
      ok := first.ret != -1;
      if ok {
        FinishKeepsInv(c, View());
        NoneDelayedAfter(c, View());
        LaunchLists(lists, c.slots);
        FinishOne();
      }
    }

    method DoOneLine(w: LineInput) returns (r: LineResult)
      requires Valid()
      modifies this
      ensures ((if r == Ok then Counted() else View()), r) == Line(c, old(View()), w)
    {
      OutstandingSlots(lists, c.slots);
      if lists.unused == [] { return NoMore; }
      ghost var finished := false;
      while inProgress[lists.unused[0]]
        invariant Valid() && lists.unused != [] && lists.unused[0] < c.slots
        invariant !finished ==> View() == old(View())
        invariant finished ==> !inProgress[lists.unused[0]] && w.first.ret != -1 && old(inProgress[lists.unused[0]])
        invariant finished ==> View() == FinishSend(Polled(c, old(View()), Sock(old(lists.unused[0]), c.nsocks), w.first))
        decreases |lists.unused|
      {
        var ok := FinishDelayed(w.first);
        if !ok { return Failed; }
        OutstandingSlots(lists, c.slots);
        if lists.unused == [] { return NoMore; }
        finished := true;
      }
      r := SendNew(w);
    }

    /** A line, and its bucket's count if it was sent. */
    method SendLine(w: LineInput) returns (r: LineResult)
      requires Valid()
      modifies this
      ensures Valid() && now == old(now) && (View(), r) == Line(c, old(View()), w)
    {
      LineKeepsInv(c, View(), w);
      r := DoOneLine(w);
      if r == Ok { CountQuery(); }
    }

    method CountQuery()
      requires c.nBuckets > 0 && c.traffic > 0
      modifies `queries
      ensures View() == old(Counted())
    {
      queries := Bump(queries, BucketOf(c, now));
    }

    method Tick(next: nat)
      modifies `now
      ensures View() == old(View()).(now := next)
    {
      now := next;
    }

    /** try_process_response: the socket is asked whether it is ready, whatever it answers, and then read. */
    method TryProcessResponse(sock: nat, r: Ready, p: Packet)
      requires Valid() && sock < c.nsocks && (p.Packet? ==> p.qid < 65536)
      modifies this
      ensures Valid()
      ensures var polled := Polled(c, old(View()), sock, r);
              View() == if p.Packet? then Response(c, polled, sock, p.qid, p.failed) else polled
    {
      PolledKeepsInv(c, View(), sock, r);
      Poll(sock, r);
      if p.Packet? { ProcessResponse(sock, p.qid, p.failed); }
    }

    method ProcessResponse(sock: nat, qid: nat, failed: bool)
      requires Valid() && sock < c.nsocks && qid < 65536
      modifies this
      ensures Valid() && View() == Response(c, old(View()), sock, qid, failed)
    {
      ResponseKeepsInv(c, View(), sock, qid, failed);
      var idx := Index(qid, sock, c.nsocks);
      if idx < c.slots && idx in lists.outstanding { TakeAnswer(idx, failed); }
    }

    method TakeAnswer(idx: nat, failed: bool)
      requires c.nBuckets > 0 && c.traffic > 0 && idx < |stamps|
      modifies this
      ensures View() == Answered(c, old(View()), idx, failed)
    {
      lists := Move(lists, idx, AppendUnused);
      n := n.(outstanding := n.outstanding - 1);
      var b := BucketOf(c, stamps[idx]);
      responses := Bump(responses, b);
      if failed { failures := Bump(failures, b); }
      n := n.(received := n.received + 1);
    }

    method RetireOne()
      requires c.nBuckets > 0 && c.traffic > 0
      requires lists.outstanding != [] && Tail(lists.outstanding) < |stamps|
      modifies this
      ensures View() == RetireTail(c, old(View()))
    {
      var q := Tail(lists.outstanding);
      lists := Move(lists, q, AppendUnused);
      n := n.(outstanding := n.outstanding - 1, timedOut := n.timedOut + 1);
      retired := Bump(retired, BucketOf(c, stamps[q]));
    }

    method RetireOldQueries()
      requires Valid()
      modifies this
      ensures Valid() && View() == RetireExpiredTail(c, old(View()))
    {
      OutstandingSlots(lists, c.slots);
      while lists.outstanding != [] && Expired(stamps[Tail(lists.outstanding)], now, c.timeout)
        invariant Valid() && RetireExpiredTail(c, View()) == RetireExpiredTail(c, old(View()))
        invariant lists.outstanding != [] ==> Tail(lists.outstanding) < |stamps|
        decreases |lists.outstanding|
      {
        RetireTailKeepsInv(c, View());
        RetireUnfolds(c, View());
        RetireOne();
        OutstandingSlots(lists, c.slots);
      }
    }
  }

  datatype Phase = Ramp | Sustain | Wait

  function Rank(p: Phase): nat { if p == Ramp then 0 else if p == Sustain then 1 else 2 }

  /** The phase that a turn of the main loop works in; at most one step on. */
  function Onward(p: Phase, elapsed: int, ramp: nat, traffic: nat): Phase {
    if p == Ramp && elapsed >= ramp then Sustain else if p == Sustain && elapsed >= traffic then Wait else p
  }

  /** The ramp lasts for its time, constant traffic until the end of all traffic, and waiting has no end of its own. */
  lemma {:induction false} PhaseTimes(p: Phase, elapsed: int, ramp: nat, traffic: nat)
    ensures Onward(p, elapsed, ramp, traffic) == Ramp <==> p == Ramp && elapsed < ramp
    ensures Onward(p, elapsed, ramp, traffic) == Sustain <==> (p == Ramp && elapsed >= ramp) || (p == Sustain && elapsed < traffic)
  {
  }

  /**
   * The test for having fallen behind. It compares an int with an unsigned int, so a negative number of
   * queries to send counts as a large one.
   */
  predicate FellBehind(shouldSend: int, maxFallBehind: nat) { maxFallBehind > 0 && U32(shouldSend) >= maxFallBehind }

  /** Having sent more than was scheduled is taken for having fallen behind. */
  lemma {:induction false} FellBehindIff(shouldSend: int, maxFallBehind: nat)
    requires -0x8000_0000 <= shouldSend < 0x8000_0000 && 0 < maxFallBehind <= 0x8000_0000
    ensures FellBehind(shouldSend, maxFallBehind) <==> shouldSend >= maxFallBehind || shouldSend < 0
  {
    if shouldSend < 0 {
      assert U32(shouldSend) == U32(shouldSend + 0x1_0000_0000);
      Fits32(shouldSend + 0x1_0000_0000);
    } else {
      Fits32(shouldSend);
    }
  }

  /** A line sends at most two queries, and two only if a delayed one was in progress. */
  lemma {:induction false} LineSends(c: Config, s: State, w: LineInput)
    requires Inv(c, s)
    ensures s.n.sent <= Line(c, s, w).0.n.sent <= s.n.sent + 2
    ensures Line(c, s, w).0.n.sent == s.n.sent + 2 ==> s.lists.unused != [] && Enabled(c, s, Finish) && w.first.ret != -1
  {
    OutstandingSlots(s.lists, c.slots);
    if s.lists.unused != [] && s.inProgress[s.lists.unused[0]] {
      PolledKeepsInv(c, s, Sock(s.lists.unused[0], c.nsocks), w.first);
      if w.first.ret != -1 {
        var s' := FinishSend(Polled(c, s, Sock(s.lists.unused[0], c.nsocks), w.first));
        FinishKeepsInv(c, Polled(c, s, Sock(s.lists.unused[0], c.nsocks), w.first));
        NewLineSends(c, s', w);
      }
    } else {
      NewLineSends(c, s, w);
    }
  }

  lemma {:induction false} NewLineSends(c: Config, s: State, w: LineInput)
    requires Inv(c, s)
    ensures s.n.sent <= NewLine(c, s, w).0.n.sent <= s.n.sent + 1
  {
    OutstandingSlots(s.lists, c.slots);
    if s.lists.unused != [] { PolledKeepsInv(c, s, Sock(s.lists.unused[0], c.nsocks), w.second); }
  }

  /**
   * With one query scheduled both of these lines are due, and together they send two: the first is
   * delayed, and the second completes it and sends another. So sending ends, whatever it may fall behind.
   */
  lemma {:induction false} AheadOfSchedule(c: Config, s0: State, maxFallBehind: nat) returns (w1: LineInput, w2: LineInput)
    requires Init(c, s0) && c.slots >= 2 && 0 < maxFallBehind <= 0x8000_0000
    ensures Inv(c, s0) && Inv(c, Line(c, s0, w1).0)
    ensures Line(c, s0, w1).0.n.sent == 0 && Line(c, Line(c, s0, w1).0, w2).0.n.sent == 2
    ensures FellBehind(1 - Line(c, Line(c, s0, w1).0, w2).0.n.sent, maxFallBehind)
  {
    var ready := Ready(1, Quiet);
    w1, w2 := LineInput(ready, ready, true, Delayed), LineInput(ready, ready, true, Outcome.Sent);
    InitInv(c, s0);
    LineKeepsInv(c, s0, w1);
    var s1 := Line(c, s0, w1).0;
    assert s1 == SendHead(c, s0, Delayed);
    SecondLine(c, s1, w2);
    FellBehindIff(-1, maxFallBehind);
  }

  lemma {:induction false} SecondLine(c: Config, s: State, w: LineInput)
    requires Inv(c, s) && Enabled(c, s, Finish) && |s.lists.unused| >= 2
    requires w == LineInput(Ready(1, Quiet), Ready(1, Quiet), true, Outcome.Sent)
    ensures Line(c, s, w).0.n.sent == s.n.sent + 2
  {
    OutstandingSlots(s.lists, c.slots);
    LaunchLists(s.lists, c.slots);
    FinishKeepsInv(c, s);
    OutstandingSlots(FinishSend(s).lists, c.slots);
  }

  /** No query outstanding had expired. */
  ghost predicate NoneExpired(s: State, c: Config, when: nat) {
    forall i :: 0 <= i < |s.lists.outstanding| ==> !ExpiredAt(s.lists.outstanding, s.stamps, i, when, c.timeout)
  }

  lemma {:induction false} RetireLeavesNone(c: Config, s: State)
    requires Inv(c, s) && !s.restamped
    ensures Inv(c, RetireExpiredTail(c, s)) && NoneExpired(RetireExpiredTail(c, s), c, s.now)
  {
    var all := RetiresTail(c, s);
    var m := RetiresExactly(c, s);
    RetireLeaves(c, s);
    var out, s' := s.lists.outstanding, RetireExpiredTail(c, s);
    forall i | 0 <= i < m
      ensures !ExpiredAt(s'.lists.outstanding, s.stamps, i, s.now, c.timeout)
    {
      assert !ExpiredAt(out, s.stamps, i, s.now, c.timeout);
    }
  }

  // ---- What a line and a call come to ----

  /** A message that a transport has sent is stamped and counted in the bucket of the time. */
  lemma {:induction false} PolledSends(c: Config, s: State, q: nat, ret: int)
    requires Inv(c, s) && q in s.waiting
    ensures q < c.slots
    ensures var s', b := Polled(c, s, Sock(q, c.nsocks), Ready(ret, Flush.Sent(Qid(q, c.nsocks)))), BucketOf(c, s.now);
            && s'.stamps == s.stamps[q := s.now] && s'.waiting == s.waiting - {q}
            && s'.t == s.t.(queries := s.t.queries[b := s.t.queries[b] + 1])
  {
    CallbackFindsSlot(c, s, q);
  }

  /** A delayed query at the head is taken for sent unless sockready fails; then, or if there is none, a new one is sent. */
  ghost predicate Finishes(s: State, w: LineInput) {
    s.lists.unused != [] && s.lists.unused[0] < |s.inProgress| && s.inProgress[s.lists.unused[0]] && w.first.ret != -1
  }

  ghost predicate Blocked(s: State, w: LineInput) {
    s.lists.unused != [] && s.lists.unused[0] < |s.inProgress| && s.inProgress[s.lists.unused[0]] && w.first.ret == -1
  }

  /** No slot is free for a new query. */
  ghost predicate NoSlot(s: State, w: LineInput) { |s.lists.unused| == if Finishes(s, w) then 1 else 0 }

  ghost predicate SendsNew(s: State, w: LineInput) {
    !Blocked(s, w) && !NoSlot(s, w) && w.second.ret != 0 && w.second.ret != -1 && w.built && w.outcome == Outcome.Sent
  }

  lemma {:induction false} NewLineIs(c: Config, s: State, w: LineInput)
    requires Inv(c, s)
    ensures var (s', r) := NewLine(c, s, w);
            var sends := s.lists.unused != [] && w.second.ret != 0 && w.second.ret != -1 && w.built && w.outcome == Outcome.Sent;
            && s'.n.sent == s.n.sent + One(sends)
            && r == (if s.lists.unused == [] then NoMore else if sends then Ok else Failed)
  {
    OutstandingSlots(s.lists, c.slots);
    if s.lists.unused != [] { PolledKeepsInv(c, s, Sock(s.lists.unused[0], c.nsocks), w.second); }
  }

  /** Exactly what a line sends, and what do_one_line returns. */
  lemma {:induction false} LineIs(c: Config, s: State, w: LineInput)
    requires Inv(c, s)
    ensures var (s', r) := Line(c, s, w);
            && s'.n.sent == s.n.sent + One(Finishes(s, w)) + One(SendsNew(s, w))
            && r == (if Blocked(s, w) then Failed else if NoSlot(s, w) then NoMore else if SendsNew(s, w) then Ok else Failed)
  {
    OutstandingSlots(s.lists, c.slots);
    if s.lists.unused != [] && s.inProgress[s.lists.unused[0]] {
      var polled := Polled(c, s, Sock(s.lists.unused[0], c.nsocks), w.first);
      PolledKeepsInv(c, s, Sock(s.lists.unused[0], c.nsocks), w.first);
      if w.first.ret != -1 {
        FinishKeepsInv(c, polled);
        LaunchLists(polled.lists, c.slots);
        NewLineIs(c, FinishSend(polled), w);
      }
    } else {
      NewLineIs(c, s, w);
    }
  }

  // ---- A turn of the main loop ----

  /** try_process_response on one socket. */
  ghost function Tried(c: Config, s: State, sock: nat, r: Ready, p: Packet): State
    requires Inv(c, s)
  {
    PolledKeepsInv(c, s, sock, r);
    var polled := Polled(c, s, sock, r);
    if p.Packet? then Response(c, polled, sock, p.qid, p.failed) else polled
  }

  lemma {:induction false} TriedKeepsInv(c: Config, s: State, sock: nat, r: Ready, p: Packet)
    requires Inv(c, s)
    ensures var s' := Tried(c, s, sock, r, p); Inv(c, s') && s'.now == s.now && s'.n.sent == s.n.sent
  {
    PolledKeepsInv(c, s, sock, r);
    if p.Packet? { ResponseKeepsInv(c, Polled(c, s, sock, r), sock, p.qid, p.failed); }
  }

  function NextSock(sock: nat, nsocks: nat): nat { if sock + 1 >= nsocks then 0 else sock + 1 }

  /** One socket after the other, and where the next turn goes on. */
  ghost function TriedAll(c: Config, s: State, sock: nat, inputs: seq<(Ready, Packet)>): (State, nat)
    requires Inv(c, s)
    decreases |inputs|
  {
    if inputs == [] then (s, sock)
    else
      TriedKeepsInv(c, s, sock, inputs[0].0, inputs[0].1);
      TriedAll(c, Tried(c, s, sock, inputs[0].0, inputs[0].1), NextSock(sock, c.nsocks), inputs[1..])
  }

  lemma {:induction false} TriedAllKeepsInv(c: Config, s: State, sock: nat, inputs: seq<(Ready, Packet)>)
    requires Inv(c, s)
    ensures var s' := TriedAll(c, s, sock, inputs).0; Inv(c, s') && s'.now == s.now && s'.n.sent == s.n.sent
    decreases |inputs|
  {
    if inputs != [] {
      TriedKeepsInv(c, s, sock, inputs[0].0, inputs[0].1);
      TriedAllKeepsInv(c, Tried(c, s, sock, inputs[0].0, inputs[0].1), NextSock(sock, c.nsocks), inputs[1..]);
    }
  }

  /** The sockets take turns. */
  lemma {:induction false} SocketsTakeTurns(c: Config, s: State, sock: nat, inputs: seq<(Ready, Packet)>)
    requires Inv(c, s) && sock < c.nsocks
    ensures TriedAll(c, s, sock, inputs).1 == Mod(sock + |inputs|, c.nsocks)
    decreases |inputs|
  {
    if inputs != [] {
      TriedKeepsInv(c, s, sock, inputs[0].0, inputs[0].1);
      SocketsTakeTurns(c, Tried(c, s, sock, inputs[0].0, inputs[0].1), NextSock(sock, c.nsocks), inputs[1..]);
      assert sock + 1 == c.nsocks ==> Mod(sock + |inputs|, c.nsocks) == Mod(|inputs| - 1, c.nsocks);
    }
  }

  /** The line is sent if one is due, then responses are taken, then expired queries retired, then the clock is read. */
  ghost function Turned(c: Config, s: State, due: bool, w: LineInput, sock: nat, inputs: seq<(Ready, Packet)>, next: nat): State
    requires Inv(c, s)
  {
    LineKeepsInv(c, s, w);
    var sent := if due then Line(c, s, w).0 else s;
    TriedAllKeepsInv(c, sent, sock, inputs);
    RetireExpiredTail(c, TriedAll(c, sent, sock, inputs).0).(now := next)
  }

  /** A response that is there counts, even if its query has expired by then. */
  lemma {:induction false} AnswerComesFirst(c: Config, s: State, q: nat, ret: int, failed: bool, w: LineInput, next: nat)
    requires Inv(c, s) && q in s.lists.outstanding
    ensures var s' := Turned(c, s, false, w, Sock(q, c.nsocks), [(Ready(ret, Quiet), Packet(Qid(q, c.nsocks), failed))], next);
            s'.n.received == s.n.received + 1 && s'.now == next
  {
    var input := (Ready(ret, Quiet), Packet(Qid(q, c.nsocks), failed));
    TriedOne(c, s, Sock(q, c.nsocks), input);
    ResponseFindsSlot(c, s, q, failed);
    TriedKeepsInv(c, s, Sock(q, c.nsocks), input.0, input.1);
    RetireCounts(c, Tried(c, s, Sock(q, c.nsocks), input.0, input.1), 0);
  }

  lemma {:induction false} TriedOne(c: Config, s: State, sock: nat, input: (Ready, Packet))
    requires Inv(c, s)
    ensures TriedAll(c, s, sock, [input]).0 == Tried(c, s, sock, input.0, input.1)
  {
    TriedKeepsInv(c, s, sock, input.0, input.1);
    assert [input][1..] == [];
  }

  class MainLoop {
    const t: Tester
    const ramp: nat
    const end: nat
    const maxFallBehind: nat
    var phase: Phase
    var currentSock: nat

    ghost predicate Valid()
      reads this, t
    {
      t.Valid() && currentSock < t.c.nsocks
    }

    constructor (t: Tester, ramp: nat, end: nat, maxFallBehind: nat)
      requires t.Valid()
      ensures this.t == t && this.ramp == ramp && this.end == end && this.maxFallBehind == maxFallBehind
      ensures Valid() && phase == Ramp
    {
      this.t, this.ramp, this.end, this.maxFallBehind := t, ramp, end, maxFallBehind;
      phase, currentSock := Ramp, 0;
    }

    /** Sending ends: it has fallen too far behind, or a line is due and no slot is free. */
    ghost predicate Ends(scheduled: int, s: State, w: LineInput)
      requires Inv(t.c, s)
    {
      || FellBehind(scheduled - s.n.sent, maxFallBehind)
      || (scheduled > s.n.sent && Line(t.c, s, w).1 == NoMore)
    }

    /** One line, if the schedule is ahead of what was sent. */
    method SendIfDue(scheduled: int, w: LineInput)
      requires Valid()
      modifies this`phase, t
      ensures Valid() && Rank(phase) >= Rank(old(phase)) && t.now == old(t.now)
      ensures phase == if Ends(scheduled, old(t.View()), w) then Wait else old(phase)
      ensures t.View() == (if scheduled > old(t.n.sent) then Line(t.c, old(t.View()), w).0 else old(t.View()))
    {
      var shouldSend := scheduled - t.n.sent;
      if FellBehind(shouldSend, maxFallBehind) { phase := Wait; }
      if shouldSend > 0 {
        var r := t.SendLine(w);
        if r == NoMore { phase := Wait; }
      }
    }

    method TryResponses(inputs: seq<(Ready, Packet)>)
      requires Valid() && forall i :: 0 <= i < |inputs| && inputs[i].1.Packet? ==> inputs[i].1.qid < 65536
      modifies this`currentSock, t
      ensures Valid() && t.n.sent == old(t.n.sent) && t.now == old(t.now)
      ensures (t.View(), currentSock) == TriedAll(t.c, old(t.View()), old(currentSock), inputs)
    {
      TriedAllKeepsInv(t.c, t.View(), currentSock, inputs);
      ghost var done := TriedAll(t.c, t.View(), currentSock, inputs);
      var i := 0;
      assert inputs[0..] == inputs;
      while i < |inputs|
        invariant 0 <= i <= |inputs| && Valid() && TriedAll(t.c, t.View(), currentSock, inputs[i..]) == done
      {
        TryNext(inputs[i].0, inputs[i].1);
        assert inputs[i..][1..] == inputs[i + 1..];
        i := i + 1;
      }
    }

    method TryNext(r: Ready, p: Packet)
      requires Valid() && (p.Packet? ==> p.qid < 65536)
      modifies this`currentSock, t
      ensures Valid() && currentSock == NextSock(old(currentSock), t.c.nsocks)
      ensures t.View() == Tried(t.c, old(t.View()), old(currentSock), r, p)
    {
      PolledKeepsInv(t.c, t.View(), currentSock, r);
      t.TryProcessResponse(currentSock, r, p);
      currentSock := if currentSock + 1 >= t.c.nsocks then 0 else currentSock + 1;
    }

    /** The phase that a turn sends in, and whether it sends. */
    ghost function Phase(): Phase
      reads this, t
    {
      Onward(phase, t.now - t.c.start, ramp, t.c.traffic)
    }

    /**
     * A turn of the main loop. Phases only go forward, nothing is sent in a turn that begins in the
     * wait phase, no query that had expired is left outstanding unless one was restamped, and the run
     * ends exactly in the wait phase with nothing outstanding or out of time.
     */
    method Turn(scheduled: int, w: LineInput, inputs: seq<(Ready, Packet)>, next: nat) returns (over: bool)
      requires Valid() && next >= t.now
      requires forall i :: 0 <= i < |inputs| && inputs[i].1.Packet? ==> inputs[i].1.qid < 65536
      modifies this, t
      ensures Valid() && Rank(phase) >= Rank(old(phase))
      ensures over <==> old(phase == Wait && (t.lists.outstanding == [] || t.now - t.c.start >= end))
      ensures over ==> phase == Wait && t.View() == old(t.View())
      ensures !over ==> t.View() == Turned(t.c, old(t.View()), old(Phase()) != Wait && scheduled > old(t.n.sent),
                                           w, old(currentSock), inputs, next)
      ensures !over ==> phase == if old(Phase()) != Wait && Ends(scheduled, old(t.View()), w) then Wait else old(Phase())
      ensures old(phase) == Wait ==> t.n.sent == old(t.n.sent)
      ensures !over ==> t.now == next && (!t.restamped ==> NoneExpired(t.View(), t.c, old(t.now)))
    {
      var elapsed := t.now - t.c.start;
      if phase == Wait && (elapsed >= end || t.lists.outstanding == []) { return true; }
      phase := Onward(phase, elapsed, ramp, t.c.traffic);
      if phase != Wait { SendIfDue(scheduled, w); }
      TryResponses(inputs);
      RetireAndTick(next);
      over := false;
    }

    method RetireAndTick(next: nat)
      requires Valid() && next >= t.now
      modifies t
      ensures Valid() && t.n.sent == old(t.n.sent) && t.restamped == old(t.restamped)
      ensures t.View() == RetireExpiredTail(t.c, old(t.View())).(now := next)
      ensures t.now == next && (!t.restamped ==> NoneExpired(t.View(), t.c, old(t.now)))
    {
      RetireLeaves(t.c, t.View());
      if !t.restamped { RetireLeavesNone(t.c, t.View()); }
      t.RetireOldQueries();
      TickKeepsInv(t.c, t.View(), next);
      t.Tick(next);
    }
  }

  lemma {:induction false} RetireUnfolds(c: Config, s: State)
    requires Inv(c, s) && s.lists.outstanding != [] && Tail(s.lists.outstanding) < c.slots
    requires Expired(s.stamps[Tail(s.lists.outstanding)], s.now, c.timeout) && Inv(c, RetireTail(c, s))
    ensures RetireExpiredTail(c, RetireTail(c, s)) == RetireExpiredTail(c, s)
  {
  }
}
