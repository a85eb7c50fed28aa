/**
 * The sender and the receiver thread of dnsperf sharing the queries of one thread slot
 * (src/dnsperf.c). A step is what one thread does while it holds the lock, or between two
 * accesses to shared state. The receiver's locked loops are taken apart into one step for each
 * query, which only adds interleavings.
 */
module QueryProtocol {
  import opened CInt
  import opened Lists
  import opened Timeouts

  const NQIDS: nat := 65536

  /** What the sending thread holds: a query taken from the unused list and not yet done with. */
  datatype Sender =
    | Idle
    | Holding(q: nat)  // taken, not yet stamped
    | Stamped(q: nat)  // stamped, about to send
    | Sent(q: nat)     // sent, not yet counted
    | Failed(q: nat)   // not sent, not yet given back
    | Stopped(q: nat)  // the input ended while it was held
    | Finished

  /** The receiving thread: idle, having seen an expired tail before locking, retiring, or counting. */
  datatype Receiver =
    | Waiting
    | SawTail(q: nat, now: nat, timeout: nat)
    | Retiring(now: nat, timeout: nat)
    | Counting(n: nat)
    | Gone

  datatype Stats = Stats(sent: nat, completed: nat, timedout: nat, interrupted: nat)

  /**
   * `lost` is history: queries that were never sent but have been counted as timed out or
   * completed. `clock` is the latest time a query was stamped with. `crashed` records that the
   * head of an empty list was taken.
   */
  datatype State = State(
    lists: Pair<nat>,
    stamps: seq<nat>,
    sender: Sender,
    receiver: Receiver,
    stats: Stats,
    lost: nat,
    clock: nat,
    crashed: bool)

  datatype Step =
    | Take(maxOutstanding: nat)             // sender: below the limit, so take the head of the unused list
    | Stamp(now: nat)                       // sender: about to send at this time
    | Send(ok: bool)                        // sender: the outcome of sendto
    | Count                                 // sender: num_sent++
    | GiveBack                              // sender: the request could not be built or sent
    | EndOfInput                            // sender: leaves its loop holding a query
    | Quit                                  // sender: leaves its loop
    | Restamp(q: nat, now: nat)             // sender: a transport finished a delayed send
    | LookAtTail(now: nat, timeout: nat)    // receiver: unlocked look in process_timeouts
    | Expire                                // receiver: times out the query it saw
    | RetireTail                            // receiver: times out a further expired tail
    | Unlock                                // receiver: leaves process_timeouts, no expired tail left
    | Match(q: nat)                         // receiver: a response for an outstanding query
    | CountMatched                          // receiver: num_completed++
    | Leave                                 // receiver: leaves its loop
    | Cancel                                // main: cancel_queries takes the tail

  function Held(s: Sender): bool {
    s.Holding? || s.Stamped? || s.Sent? || s.Failed? || s.Stopped?
  }

  predicate Holds(s: Sender, q: nat) { Held(s) && s.q == q }

  /** num_outstanding */
  function NumOutstanding(s: Stats): nat {
    if s.completed + s.timedout > s.sent then 0 else s.sent - s.completed - s.timedout
  }

  /** Matched under the lock but not yet in num_completed. */
  function Uncounted(r: Receiver): nat { if r.Counting? then r.n else 0 }

  predicate IsId(q: nat) { q < NQIDS }

  ghost function Pool(): set<nat> { set q | 0 <= q < NQIDS && IsId(q) }

  ghost predicate Init(s: State) {
    && s.lists == Pair(seq(NQIDS, i => i), [])
    && |s.stamps| == NQIDS
    && s.sender == Idle && s.receiver == Waiting
    && s.stats == Stats(0, 0, 0, 0) && s.lost == 0 && s.clock == 0 && !s.crashed
  }

  /** The condition at the end of the loop of process_timeouts. */
  predicate MoreToRetire(s: State, now: nat, timeout: nat)
    requires |s.stamps| == NQIDS
  {
    var out := s.lists.outstanding;
    out != [] && Tail(out) < NQIDS && s.stamps[Tail(out)] < now && Expired(s.stamps[Tail(out)], now, timeout)
  }

  ghost predicate Enabled(s: State, step: Step) {
    && |s.stamps| == NQIDS
    && var out := s.lists.outstanding;
       match step
       case Take(max) => s.sender.Idle? && NumOutstanding(s.stats) < max <= NQIDS
       case Stamp(now) => s.sender.Holding? && s.sender.q < NQIDS && now < UINT64_MAX
       case Send(_) => s.sender.Stamped?
       case Count => s.sender.Sent?
       case GiveBack => s.sender.Holding? || s.sender.Failed?
       case EndOfInput => s.sender.Holding?
       case Quit => s.sender.Idle?
       case Restamp(q, now) => q < NQIDS && now < UINT64_MAX
       case LookAtTail(now, timeout) =>
         && s.receiver.Waiting? && out != [] && Tail(out) < NQIDS
         && now < UINT64_MAX && Expired(s.stamps[Tail(out)], now, timeout)
       case Expire => s.receiver.SawTail?
       case RetireTail => s.receiver.Retiring? && MoreToRetire(s, s.receiver.now, s.receiver.timeout)
       case Unlock => s.receiver.Retiring? && !MoreToRetire(s, s.receiver.now, s.receiver.timeout)
       case Match(q) =>
         (s.receiver.Waiting? || s.receiver.Counting?) && q < NQIDS && q in out && s.stamps[q] != UINT64_MAX
       case CountMatched => s.receiver.Counting?
       case Leave => s.receiver.Waiting?
       case Cancel => (s.sender.Stopped? || s.sender.Finished?) && s.receiver.Gone? && out != [] && Tail(out) < NQIDS
  }

  ghost function Next(s: State, step: Step): State
    requires Enabled(s, step)
  {
    var out := s.lists.outstanding;
    match step
    case Take(_) =>
      if s.lists.unused == [] then s.(crashed := true)
      else
        var q := s.lists.unused[0];
        if q >= NQIDS then s
        else s.(lists := Move(s.lists, q, PrependOutstanding), stamps := s.stamps[q := UINT64_MAX], sender := Holding(q))
    case Stamp(now) =>
      s.(stamps := s.stamps[s.sender.q := now], sender := Stamped(s.sender.q), clock := if now > s.clock then now else s.clock)
    case Send(ok) => s.(sender := if ok then Sent(s.sender.q) else Failed(s.sender.q))
    case Count => s.(sender := Idle, stats := s.stats.(sent := s.stats.sent + 1))
    case GiveBack =>
      s.(lists := Move(s.lists, s.sender.q, PrependUnused), sender := Idle,
         lost := if s.sender.q in out then s.lost else s.lost + 1)
    case EndOfInput => s.(sender := Stopped(s.sender.q))
    case Quit => s.(sender := Finished)
    case Restamp(q, now) => if s.stamps[q] == UINT64_MAX then s else s.(stamps := s.stamps[q := now])
    case LookAtTail(now, timeout) => s.(receiver := SawTail(Tail(out), now, timeout))
    case Expire =>
      s.(lists := Move(s.lists, s.receiver.q, AppendUnused), receiver := Retiring(s.receiver.now, s.receiver.timeout),
         stats := s.stats.(timedout := s.stats.timedout + 1),
         lost := if s.receiver.q in out then s.lost else s.lost + 1)
    case RetireTail =>
      s.(lists := Move(s.lists, Tail(out), AppendUnused), stats := s.stats.(timedout := s.stats.timedout + 1))
    case Unlock => s.(receiver := Waiting)
    case Match(q) => s.(lists := Move(s.lists, q, AppendUnused), receiver := Counting(Uncounted(s.receiver) + 1))
    case CountMatched =>
      s.(receiver := if s.receiver.n <= 1 then Waiting else Counting(s.receiver.n - 1),
         stats := s.stats.(completed := s.stats.completed + 1))
    case Leave => s.(receiver := Gone)
    case Cancel =>
      var q := Tail(out);
      if s.stamps[q] == UINT64_MAX then s.(lists := Move(s.lists, q, AppendUnused), sender := Finished)
      else s.(lists := Move(s.lists, q, AppendUnused), stats := s.stats.(interrupted := s.stats.interrupted + 1))
  }

  /**
   * The books: every query sent, or counted without having been sent, or in the sender's hands,
   * has been matched, timed out or cancelled, or is outstanding.
   */
  ghost predicate Balanced(s: State) {
    s.stats.sent + s.lost + (if Held(s.sender) then 1 else 0)
    == s.stats.completed + Uncounted(s.receiver) + s.stats.timedout + s.stats.interrupted + |s.lists.outstanding|
  }

  /** UINT64_MAX marks exactly the outstanding query that the sender holds and has not stamped. */
  ghost predicate Marked(s: State)
    requires |s.stamps| == NQIDS
  {
    forall q :: q in s.lists.outstanding && q < NQIDS ==>
      (s.stamps[q] == UINT64_MAX <==> ((s.sender.Holding? || s.sender.Stopped?) && s.sender.q == q))
  }

  ghost predicate Inv(s: State) {
    && |s.stamps| == NQIDS
    && Partition(s.lists, Pool())
    && (Held(s.sender) ==> s.sender.q < NQIDS)
    && (s.receiver.SawTail? ==> s.receiver.q < NQIDS)
    && (s.receiver.SawTail? && Holds(s.sender, s.receiver.q) ==> s.receiver.q in s.lists.outstanding)
    && (s.receiver.Counting? ==> s.receiver.n > 0)
    && (s.stats.interrupted > 0 ==> s.sender.Stopped? || s.sender.Finished?)
    && Marked(s)
    && Balanced(s)
  }

  lemma {:induction false} InitInv(s: State)
    requires Init(s)
    ensures Inv(s)
  {
    assert Elems(s.lists.unused) == Pool() by {
      forall q: nat | q in Pool()
        ensures q in s.lists.unused
      {
        assert s.lists.unused[q] == q;
      }
    }
  }

  lemma {:induction false} SenderKeepsInv(s: State, step: Step)
    requires Inv(s) && Enabled(s, step)
    requires step.Take? || step.Stamp? || step.Send? || step.Count? || step.GiveBack?
             || step.EndOfInput? || step.Quit? || step.Restamp?
    ensures Inv(Next(s, step))
  {
    PartitionMembers(s.lists, Pool());
    if step.Take? && s.lists.unused != [] {
      Addition(s.lists, s.lists.unused[0], Pool());
    }
    if step.GiveBack? { Removal(s.lists, s.sender.q, PrependUnused, Pool()); }
  }

  lemma {:induction false} ReceiverKeepsInv(s: State, step: Step)
    requires Inv(s) && Enabled(s, step)
    requires step.LookAtTail? || step.Expire? || step.RetireTail? || step.Unlock?
             || step.Match? || step.CountMatched? || step.Leave? || step.Cancel?
    ensures Inv(Next(s, step))
  {
    if step.Expire? { Removal(s.lists, s.receiver.q, AppendUnused, Pool()); }
    if step.RetireTail? || step.Cancel? { Removal(s.lists, Tail(s.lists.outstanding), AppendUnused, Pool()); }
    if step.Match? { Removal(s.lists, step.q, AppendUnused, Pool()); }
  }

  lemma {:induction false} StepKeepsInv(s: State, step: Step)
    requires Inv(s) && Enabled(s, step)
    ensures Inv(Next(s, step))
  {
    if step.LookAtTail? || step.Expire? || step.RetireTail? || step.Unlock?
       || step.Match? || step.CountMatched? || step.Leave? || step.Cancel? {
      ReceiverKeepsInv(s, step);
    } else {
      SenderKeepsInv(s, step);
    }
  }

  ghost predicate Run(s: State, steps: seq<Step>, s': State)
    decreases |steps|
  {
    if steps == [] then s' == s else Enabled(s, steps[0]) && Run(Next(s, steps[0]), steps[1..], s')
  }

  lemma {:induction false} RunKeepsInv(s: State, steps: seq<Step>, s': State)
    requires Inv(s) && Run(s, steps, s')
    ensures Inv(s')
    decreases |steps|
  {
    if steps != [] {
      StepKeepsInv(s, steps[0]);
      RunKeepsInv(Next(s, steps[0]), steps[1..], s');
    }
  }

  /** The outstanding queries that the sender is not still working on. */
  ghost function OutstandingNotHeld(s: State): int {
    |s.lists.outstanding| - if Held(s.sender) && s.sender.q in s.lists.outstanding then 1 else 0
  }

  /** The query in the sender's hands has already been matched or timed out. */
  ghost predicate Overtaken(s: State) { Held(s.sender) && s.sender.q !in s.lists.outstanding }

  /**
   * In every interleaving all IDs stay on exactly one of the two lists, and the counters account
   * for every query. A query that was matched or timed out before the sender counted it appears
   * on the left until it is counted, and for ever if it then turns out not to have been sent.
   */
  lemma {:induction false} QueriesAccountedFor(s0: State, steps: seq<Step>, s: State)
    requires Init(s0) && Run(s0, steps, s)
    ensures Partition(s.lists, Pool())
    ensures s.stats.sent + s.lost + (if Overtaken(s) then 1 else 0)
            == s.stats.completed + Uncounted(s.receiver) + s.stats.timedout + s.stats.interrupted + OutstandingNotHeld(s)
  {
    InitInv(s0);
    RunKeepsInv(s0, steps, s);
  }

  // ---- The limit on outstanding queries ----

  ghost predicate OneLimit(steps: seq<Step>, max: nat) {
    forall i :: 0 <= i < |steps| && steps[i].Take? ==> steps[i].maxOutstanding == max
  }

  ghost predicate Bounded(s: State, max: nat) {
    |s.lists.outstanding| <= max + s.lost && (s.crashed ==> s.lost > NQIDS - max)
  }

  lemma {:induction false} PoolCount(n: nat)
    ensures |set q | 0 <= q < n && IsId(q)| == if n <= NQIDS then n else NQIDS
  {
    var pool := set q | 0 <= q < n && IsId(q);
    if n > 0 {
      PoolCount(n - 1);
      var less := set q | 0 <= q < n - 1 && IsId(q);
      assert pool == if IsId(n - 1) then less + {n - 1} else less;
    }
  }

  lemma {:induction false} ListLengths(p: Pair<nat>)
    requires Partition(p, Pool())
    ensures |p.unused| + |p.outstanding| == NQIDS
  {
    DistinctCount(p.unused);
    DistinctCount(p.outstanding);
    PoolCount(NQIDS);
  }

  lemma {:induction false} StepKeepsBounded(s: State, step: Step, max: nat)
    requires Inv(s) && Bounded(s, max) && Enabled(s, step) && (step.Take? ==> step.maxOutstanding == max)
    ensures Bounded(Next(s, step), max)
  {
    PartitionMembers(s.lists, Pool());
    if step.Take? {
      assert |s.lists.outstanding| <= NumOutstanding(s.stats) + s.lost;
      if s.lists.unused == [] {
        ListLengths(s.lists);
      } else {
        Addition(s.lists, s.lists.unused[0], Pool());
      }
    }
    if step.GiveBack? { Removal(s.lists, s.sender.q, PrependUnused, Pool()); }
    if step.Expire? { Removal(s.lists, s.receiver.q, AppendUnused, Pool()); }
    if step.RetireTail? || step.Cancel? { Removal(s.lists, Tail(s.lists.outstanding), AppendUnused, Pool()); }
    if step.Match? { Removal(s.lists, step.q, AppendUnused, Pool()); }
  }

  lemma {:induction false} RunKeepsBounded(s: State, steps: seq<Step>, s': State, max: nat)
    requires Inv(s) && Bounded(s, max) && Run(s, steps, s') && OneLimit(steps, max)
    ensures Bounded(s', max)
    decreases |steps|
  {
    if steps != [] {
      StepKeepsInv(s, steps[0]);
      StepKeepsBounded(s, steps[0], max);
      RunKeepsBounded(Next(s, steps[0]), steps[1..], s', max);
    }
  }

  /**
   * Although num_completed lags behind the matching, the limit holds up to the queries that were
   * counted without having been sent: without any, at most max_outstanding queries are
   * outstanding and the sender never takes the head of an empty list.
   */
  lemma {:induction false} LimitHolds(s0: State, steps: seq<Step>, s: State, max: nat)
    requires Init(s0) && Run(s0, steps, s) && OneLimit(steps, max)
    ensures |s.lists.outstanding| <= max + s.lost
    ensures s.crashed ==> s.lost > NQIDS - max
    ensures s.lost == 0 && max <= NQIDS ==> |s.lists.outstanding| <= max && !s.crashed
  {
    InitInv(s0);
    RunKeepsBounded(s0, steps, s, max);
  }

  lemma {:induction false} RunAppend(s: State, steps: seq<Step>, s': State, step: Step)
    requires Run(s, steps, s') && Enabled(s', step)
    ensures Run(s, steps + [step], Next(s', step))
    decreases |steps|
  {
    if steps == [] {
      assert Run(Next(s, step), [], Next(s', step));
      assert ([step])[1..] == [];
    } else {
      RunAppend(Next(s, steps[0]), steps[1..], s', step);
      assert (steps + [step])[1..] == steps[1..] + [step];
    }
  }

  /**
   * Exactly when taking a query goes beyond the limit, or finds no query to take: the queries counted
   * without having been sent make up for what the counters leave to the limit.
   */
  lemma {:induction false} TakeExceedsIff(s: State, max: nat)
    requires Inv(s) && Enabled(s, Take(max)) && !s.crashed
    ensures var done := s.stats.completed + Uncounted(s.receiver) + s.stats.timedout;
            && (Next(s, Take(max)).crashed <==> s.stats.sent + s.lost >= done + NQIDS)
            && (s.lists.unused != [] ==> (|Next(s, Take(max)).lists.outstanding| > max <==> s.stats.sent + s.lost >= done + max))
  {
    ListLengths(s.lists);
    if s.lists.unused != [] {
      PartitionMembers(s.lists, Pool());
      Addition(s.lists, s.lists.unused[0], Pool());
    }
  }

  /** The first query is taken and stamped, looks expired to the receiver, and is then not sent. */
  lemma {:induction false} SeenThenNotSent(s0: State) returns (steps: seq<Step>, s: State)
    requires Init(s0)
    ensures Run(s0, steps, s) && OneLimit(steps, 1) && |s.stamps| == NQIDS
    ensures s.lists == Pair(s0.lists.unused[1..], [0]) && s.sender == Failed(0) && s.receiver == SawTail(0, 1, 1)
    ensures s.stats == Stats(0, 0, 0, 0) && s.lost == 0
  {
    steps, s := [], s0;
    RunAppend(s0, steps, s, Take(1));
    steps, s := steps + [Take(1)], Next(s, Take(1));
    assert s.lists == Pair(s0.lists.unused[1..], [0]);
    RunAppend(s0, steps, s, Stamp(0));
    steps, s := steps + [Stamp(0)], Next(s, Stamp(0));
    RunAppend(s0, steps, s, LookAtTail(1, 1));
    steps, s := steps + [LookAtTail(1, 1)], Next(s, LookAtTail(1, 1));
    RunAppend(s0, steps, s, Send(false));
    steps, s := steps + [Send(false)], Next(s, Send(false));
  }

  /** It is given back and then timed out all the same. */
  lemma {:induction false} FailedSendTimedOut(s0: State) returns (steps: seq<Step>, s: State)
    requires Init(s0)
    ensures Run(s0, steps, s) && OneLimit(steps, 1)
    ensures |s.stamps| == NQIDS && s.sender.Idle? && s.lists.outstanding == []
    ensures s.lists.unused == s0.lists.unused[1..] + [0]
    ensures s.stats == Stats(0, 0, 1, 0) && s.lost == 1
  {
    var rest := s0.lists.unused[1..];
    steps, s := SeenThenNotSent(s0);
    WithoutStranger(rest, 0);
    RunAppend(s0, steps, s, GiveBack);
    steps, s := steps + [GiveBack], Next(s, GiveBack);
    assert s.lists == Pair([0] + rest, []);
    assert ([0] + rest)[1..] == rest;
    RunAppend(s0, steps, s, Expire);
    steps, s := steps + [Expire], Next(s, Expire);
  }

  /** The next query is sent; the counters cancel out. */
  lemma {:induction false} SentAfterLoss(s0: State) returns (steps: seq<Step>, s: State)
    requires Init(s0)
    ensures Run(s0, steps, s) && OneLimit(steps, 1) && |s.stamps| == NQIDS
    ensures s.sender.Idle? && s.lists.outstanding == [1] && s.lists.unused != [] && s.lists.unused[0] == 2
    ensures s.stats == Stats(1, 0, 1, 0) && s.lost == 1
  {
    steps, s := FailedSendTimedOut(s0);
    assert s.lists.unused[0] == 1 && s.lists.unused[1] == 2;
    RunAppend(s0, steps, s, Take(1));
    steps, s := steps + [Take(1)], Next(s, Take(1));
    assert s.lists.outstanding == [1] && s.lists.unused[0] == 2;
    RunAppend(s0, steps, s, Stamp(0));
    steps, s := steps + [Stamp(0)], Next(s, Stamp(0));
    RunAppend(s0, steps, s, Send(true));
    steps, s := steps + [Send(true)], Next(s, Send(true));
    RunAppend(s0, steps, s, Count);
    steps, s := steps + [Count], Next(s, Count);
  }

  /** After such a loss two queries can be outstanding under a limit of one. */
  lemma {:induction false} LimitExceededAfterLoss(s0: State) returns (steps: seq<Step>, s: State)
    requires Init(s0)
    ensures Run(s0, steps, s) && OneLimit(steps, 1)
    ensures |s.lists.outstanding| == 2 && s.lost == 1
  {
    steps, s := SentAfterLoss(s0);
    WithoutStranger([1], 2);
    RunAppend(s0, steps, s, Take(1));
    steps, s := steps + [Take(1)], Next(s, Take(1));
  }

  // ---- What each counter counts ----

  ghost predicate IsTimeout(step: Step) { step.Expire? || step.RetireTail? }

  /** A cancelled query that had been sent; the one that the sender had only just taken is not counted. */
  ghost predicate Interrupts(s: State, step: Step) {
    && step.Cancel? && s.lists.outstanding != []
    && var q := Tail(s.lists.outstanding); q < |s.stamps| && s.stamps[q] != UINT64_MAX
  }

  /** What the steps of a run come to, counter by counter. */
  ghost function Counted(s: State, steps: seq<Step>): Stats
    decreases |steps|
  {
    if steps == [] || !Enabled(s, steps[0]) then Stats(0, 0, 0, 0)
    else
      var rest := Counted(Next(s, steps[0]), steps[1..]);
      Stats(rest.sent + (if steps[0].Count? then 1 else 0),
            rest.completed + (if steps[0].Match? then 1 else 0),
            rest.timedout + (if IsTimeout(steps[0]) then 1 else 0),
            rest.interrupted + (if Interrupts(s, steps[0]) then 1 else 0))
  }

  lemma {:induction false} StepCounts(s: State, step: Step)
    requires Inv(s) && Enabled(s, step)
    ensures var s' := Next(s, step);
            && s'.stats.sent == s.stats.sent + (if step.Count? then 1 else 0)
            && s'.stats.completed + Uncounted(s'.receiver)
               == s.stats.completed + Uncounted(s.receiver) + (if step.Match? then 1 else 0)
            && s'.stats.timedout == s.stats.timedout + (if IsTimeout(step) then 1 else 0)
            && s'.stats.interrupted == s.stats.interrupted + (if Interrupts(s, step) then 1 else 0)
  {
  }

  lemma {:induction false} RunCounts(s: State, steps: seq<Step>, s': State)
    requires Inv(s) && Run(s, steps, s')
    ensures var n := Counted(s, steps);
            && s'.stats.sent == s.stats.sent + n.sent
            && s'.stats.completed + Uncounted(s'.receiver) == s.stats.completed + Uncounted(s.receiver) + n.completed
            && s'.stats.timedout == s.stats.timedout + n.timedout
            && s'.stats.interrupted == s.stats.interrupted + n.interrupted
    decreases |steps|
  {
    if steps != [] {
      StepKeepsInv(s, steps[0]);
      StepCounts(s, steps[0]);
      RunCounts(Next(s, steps[0]), steps[1..], s');
    }
  }

  /**
   * In every interleaving num_sent is the number of sends counted, num_completed with the matches not yet
   * counted the number of responses matched, num_timedout the number of queries timed out, and
   * num_interrupted the number of sent queries cancelled.
   */
  lemma {:induction false} CountersCount(s0: State, steps: seq<Step>, s: State)
    requires Init(s0) && Run(s0, steps, s)
    ensures var n := Counted(s0, steps);
            s.stats == n.(completed := s.stats.completed) && s.stats.completed + Uncounted(s.receiver) == n.completed
  {
    InitInv(s0);
    RunCounts(s0, steps, s);
  }

  /** The first query is sent and counted. */
  lemma {:induction false} FirstSent(s0: State) returns (steps: seq<Step>, s: State)
    requires Init(s0)
    ensures Run(s0, steps, s) && |s.stamps| == NQIDS && s.stamps[0] == 5
    ensures s.lists == Pair(s0.lists.unused[1..], [0]) && s.sender == Idle && s.receiver == Waiting && s.stats == Stats(1, 0, 0, 0)
  {
    steps, s := [], s0;
    RunAppend(s0, steps, s, Take(1));
    steps, s := steps + [Take(1)], Next(s, Take(1));
    assert s.lists == Pair(s0.lists.unused[1..], [0]);
    RunAppend(s0, steps, s, Stamp(5));
    steps, s := steps + [Stamp(5)], Next(s, Stamp(5));
    RunAppend(s0, steps, s, Send(true));
    steps, s := steps + [Send(true)], Next(s, Send(true));
    RunAppend(s0, steps, s, Count);
    steps, s := steps + [Count], Next(s, Count);
  }

  /** Its response is matched and counted, and its ID is the last to be used again. */
  lemma {:induction false} FirstAnswered(s0: State) returns (steps: seq<Step>, s: State)
    requires Init(s0)
    ensures Run(s0, steps, s) && s.lists == Pair(s0.lists.unused[1..] + [0], [])
    ensures s.stats == Stats(1, 1, 0, 0) && s.receiver == Waiting
  {
    steps, s := FirstSent(s0);
    WithoutStranger(s.lists.unused, 0);
    RunAppend(s0, steps, s, Match(0));
    steps, s := steps + [Match(0)], Next(s, Match(0));
    RunAppend(s0, steps, s, CountMatched);
    steps, s := steps + [CountMatched], Next(s, CountMatched);
  }

  /** Or it is interrupted: both threads leave, and the main thread cancels it. */
  lemma {:induction false} FirstCancelled(s0: State) returns (steps: seq<Step>, s: State)
    requires Init(s0)
    ensures Run(s0, steps, s) && s.lists == Pair(s0.lists.unused[1..] + [0], []) && s.stats == Stats(1, 0, 0, 1)
  {
    steps, s := FirstSent(s0);
    WithoutStranger(s.lists.unused, 0);
    RunAppend(s0, steps, s, Quit);
    steps, s := steps + [Quit], Next(s, Quit);
    RunAppend(s0, steps, s, Leave);
    steps, s := steps + [Leave], Next(s, Leave);
    RunAppend(s0, steps, s, Cancel);
    steps, s := steps + [Cancel], Next(s, Cancel);
  }

  /** A query taken when the input ends is cancelled without being counted. */
  lemma {:induction false} LastNotCounted(s0: State) returns (steps: seq<Step>, s: State)
    requires Init(s0)
    ensures Run(s0, steps, s) && s.lists == Pair(s0.lists.unused[1..] + [0], []) && s.stats == Stats(0, 0, 0, 0)
  {
    steps, s := [], s0;
    RunAppend(s0, steps, s, Take(1));
    steps, s := steps + [Take(1)], Next(s, Take(1));
    assert s.lists == Pair(s0.lists.unused[1..], [0]);
    WithoutStranger(s.lists.unused, 0);
    RunAppend(s0, steps, s, EndOfInput);
    steps, s := steps + [EndOfInput], Next(s, EndOfInput);
    RunAppend(s0, steps, s, Leave);
    steps, s := steps + [Leave], Next(s, Leave);
    RunAppend(s0, steps, s, Cancel);
    steps, s := steps + [Cancel], Next(s, Cancel);
  }

  /** Where a step puts a query: a new one from the head, one that was not sent back there, all others at the end. */
  lemma {:induction false} WhereQueriesGo(s: State, step: Step)
    requires Inv(s) && Enabled(s, step)
    ensures var p, p' := s.lists, Next(s, step).lists;
            match step
            case Take(_) => p' == if p.unused == [] then p else Pair(p.unused[1..], [p.unused[0]] + p.outstanding)
            case GiveBack => p' == Pair([s.sender.q] + Without(p.unused, s.sender.q), Without(p.outstanding, s.sender.q))
            case Expire => p' == Pair(Without(p.unused, s.receiver.q) + [s.receiver.q], Without(p.outstanding, s.receiver.q))
            case RetireTail => p' == Pair(p.unused + [Tail(p.outstanding)], p.outstanding[..|p.outstanding| - 1])
            case Cancel => p' == Pair(p.unused + [Tail(p.outstanding)], p.outstanding[..|p.outstanding| - 1])
            case Match(q) => p' == Pair(p.unused + [q], Without(p.outstanding, q))
            case _ => p' == p
  {
    PartitionMembers(s.lists, Pool());
    match step
    case Take(_) => if s.lists.unused != [] { Addition(s.lists, s.lists.unused[0], Pool()); }
    case RetireTail => TailLeaves(s);
    case Cancel => TailLeaves(s);
    case Match(q) => OnOneList(s.lists, q, Pool());
    case _ =>
  }

  /** The stamp of every query after a step: none for one just taken, the time for one sent or sent at last. */
  lemma {:induction false} StampsAre(s: State, step: Step, q: nat)
    requires Inv(s) && Enabled(s, step) && q < NQIDS
    ensures |Next(s, step).stamps| == NQIDS
    ensures Next(s, step).stamps[q] ==
            if step.Take? && s.lists.unused != [] && q == s.lists.unused[0] then 0xFFFF_FFFF_FFFF_FFFF
            else if step.Stamp? && s.sender.q == q then step.now
            else if step.Restamp? && step.q == q && s.stamps[q] != 0xFFFF_FFFF_FFFF_FFFF then step.now
            else s.stamps[q]
  {
    PartitionMembers(s.lists, Pool());
    assert s.lists.unused != [] ==> s.lists.unused[0] in Pool();
  }

  lemma {:induction false} TailLeaves(s: State)
    requires Inv(s) && s.lists.outstanding != [] && Tail(s.lists.outstanding) < NQIDS
    ensures var p := s.lists; var q := Tail(p.outstanding);
            Without(p.unused, q) == p.unused && Without(p.outstanding, q) == p.outstanding[..|p.outstanding| - 1]
  {
    OnOneList(s.lists, Tail(s.lists.outstanding), Pool());
    WithoutAt(s.lists.outstanding, |s.lists.outstanding| - 1);
  }

  // ---- Timestamps over UDP ----

  /** Newest first; a query without a timestamp can only be at the head. */
  ghost predicate Ordered(s: State)
    requires |s.stamps| == NQIDS
  {
    var out := s.lists.outstanding;
    && NewestFirst(out, s.stamps)
    && (forall i :: 0 <= i < |out| && out[i] < NQIDS && s.stamps[out[i]] != UINT64_MAX ==> s.stamps[out[i]] <= s.clock)
    && (forall i :: 1 <= i < |out| && out[i] < NQIDS ==> s.stamps[out[i]] != UINT64_MAX)
    && s.clock < UINT64_MAX
  }

  /** No delayed sends, and a clock that does not go back. */
  ghost predicate Steady(s: State, step: Step) {
    !step.Restamp? && (step.Stamp? ==> step.now >= s.clock)
  }

  lemma {:induction false} RemovalKeepsOrder(s: State, q: nat, s': State)
    requires |s.stamps| == NQIDS && Ordered(s) && Distinct(s.lists.outstanding)
    requires s'.stamps == s.stamps && s'.clock == s.clock && s'.lists.outstanding == Without(s.lists.outstanding, q)
    ensures Ordered(s')
  {
    var k := WithoutPlaces(s.lists.outstanding, q);
  }

  lemma {:induction false} StepKeepsOrdered(s: State, step: Step)
    requires Inv(s) && Ordered(s) && Enabled(s, step) && Steady(s, step)
    ensures Ordered(Next(s, step))
  {
    var s' := Next(s, step);
    PartitionMembers(s.lists, Pool());
    match step
    case Take(_) => if s.lists.unused != [] { Addition(s.lists, s.lists.unused[0], Pool()); TakeKeepsOrdered(s, s'); }
    case Stamp(now) => StampKeepsOrdered(s, now);
    case GiveBack => RemovalKeepsOrder(s, s.sender.q, s');
    case Expire => RemovalKeepsOrder(s, s.receiver.q, s');
    case RetireTail => RemovalKeepsOrder(s, Tail(s.lists.outstanding), s');
    case Cancel => RemovalKeepsOrder(s, Tail(s.lists.outstanding), s');
    case Match(q) => RemovalKeepsOrder(s, q, s');
    case _ =>
  }

  lemma {:induction false} TakeKeepsOrdered(s: State, s': State)
    requires Inv(s) && Ordered(s) && !Held(s.sender) && s.lists.unused != [] && s.lists.unused[0] < NQIDS
    requires var q := s.lists.unused[0];
             && q !in s.lists.outstanding
             && s'.lists.outstanding == [q] + s.lists.outstanding
             && s'.stamps == s.stamps[q := UINT64_MAX] && s'.clock == s.clock
    ensures Ordered(s')
  {
    var out := s.lists.outstanding;
    assert forall i :: 0 <= i < |out| ==> s.stamps[out[i]] != UINT64_MAX && s'.stamps[out[i]] == s.stamps[out[i]];
  }

  lemma {:induction false} StampKeepsOrdered(s: State, now: nat)
    requires Inv(s) && Ordered(s) && Enabled(s, Stamp(now)) && now >= s.clock
    ensures Ordered(Next(s, Stamp(now)))
  {
    var out, q := s.lists.outstanding, s.sender.q;
    if q in out {
      assert s.stamps[q] == UINT64_MAX;
      assert out[0] == q;
    }
  }

  /** Over UDP every run keeps the outstanding queries newest first. */
  lemma {:induction false} RunKeepsOrdered(s: State, steps: seq<Step>, s': State)
    requires Inv(s) && Ordered(s) && SteadyRun(s, steps, s')
    ensures Inv(s') && Ordered(s')
    decreases |steps|
  {
    if steps != [] {
      StepKeepsInv(s, steps[0]);
      StepKeepsOrdered(s, steps[0]);
      RunKeepsOrdered(Next(s, steps[0]), steps[1..], s');
    }
  }

  lemma {:induction false} InitOrdered(s: State)
    requires Init(s)
    ensures Inv(s) && Ordered(s)
  {
    InitInv(s);
  }

  ghost predicate SteadyRun(s: State, steps: seq<Step>, s': State)
    decreases |steps|
  {
    if steps == [] then s' == s
    else Enabled(s, steps[0]) && Steady(s, steps[0]) && SteadyRun(Next(s, steps[0]), steps[1..], s')
  }
}
