/**
 * What process_timeouts of src/dnsperf.c retires. It looks at the tail before it takes the lock and
 * then times that query out without looking again.
 */
module QueryTimeouts {
  import opened CInt
  import opened Lists
  import opened Timeouts
  import opened QueryProtocol

  // ---- The query that was seen ----

  /** The query in the sender's hands is at the head, if it is outstanding. */
  ghost predicate HeldFirst(s: State) {
    Held(s.sender) && s.sender.q in s.lists.outstanding ==> s.lists.outstanding[0] == s.sender.q
  }

  /** The query that was seen is still the tail, or has been given back and is the next to be taken. */
  ghost predicate SeenLast(s: State) {
    var p := s.lists;
    s.receiver.SawTail? ==>
      || (s.receiver.q in p.outstanding && Tail(p.outstanding) == s.receiver.q)
      || (p.outstanding == [] && p.unused != [] && p.unused[0] == s.receiver.q && !Held(s.sender))
  }

  lemma {:induction false} FirstStays(out: seq<nat>, q: nat)
    requires Distinct(out) && out != [] && out[0] != q
    ensures Without(out, q) != [] && Without(out, q)[0] == out[0]
  {
  }

  lemma {:induction false} LastStays(out: seq<nat>, q: nat)
    requires Distinct(out) && out != [] && Tail(out) != q
    ensures Without(out, q) != [] && Tail(Without(out, q)) == Tail(out)
  {
    if q in out {
      var k := TakenFrom(out, q);
    } else {
      WithoutStranger(out, q);
    }
  }

  lemma {:induction false} StepKeepsHeldFirst(s: State, step: Step)
    requires Inv(s) && HeldFirst(s) && Enabled(s, step)
    ensures HeldFirst(Next(s, step))
  {
    var out, s' := s.lists.outstanding, Next(s, step);
    PartitionMembers(s.lists, Pool());
    if step.Take? && s.lists.unused != [] { Addition(s.lists, s.lists.unused[0], Pool()); }
    if step.Expire? { RemovalKeepsHeldFirst(s, s', s.receiver.q); }
    if step.RetireTail? || step.Cancel? { RemovalKeepsHeldFirst(s, s', Tail(out)); }
    if step.Match? { RemovalKeepsHeldFirst(s, s', step.q); }
  }

  lemma {:induction false} RemovalKeepsHeldFirst(s: State, s': State, q: nat)
    requires Inv(s) && HeldFirst(s) && q < NQIDS
    requires s'.lists == Move(s.lists, q, AppendUnused) && (s'.sender == s.sender || !Held(s'.sender))
    ensures HeldFirst(s')
  {
    Removal(s.lists, q, AppendUnused, Pool());
    if Held(s'.sender) && s.sender.q in s'.lists.outstanding {
      FirstStays(s.lists.outstanding, q);
    }
  }

  lemma {:induction false} StepKeepsSeenLast(s: State, step: Step)
    requires Inv(s) && HeldFirst(s) && SeenLast(s) && Enabled(s, step)
    ensures SeenLast(Next(s, step))
  {
    PartitionMembers(s.lists, Pool());
    if s.receiver.SawTail? && step.Take? && s.lists.unused != [] {
      Addition(s.lists, s.lists.unused[0], Pool());
      assert s.lists.outstanding == [] ==> [s.lists.unused[0]] + s.lists.outstanding == [s.lists.unused[0]];
    }
    if s.receiver.SawTail? && step.GiveBack? { GiveBackKeepsSeenLast(s); }
  }

  lemma {:induction false} GiveBackKeepsSeenLast(s: State)
    requires Inv(s) && HeldFirst(s) && SeenLast(s) && Enabled(s, GiveBack) && s.receiver.SawTail?
    ensures SeenLast(Next(s, GiveBack))
  {
    var out, h := s.lists.outstanding, s.sender.q;
    if h == s.receiver.q {
      assert out == [h];
    } else {
      LastStays(out, h);
      assert Tail(Without(out, h)) in Without(out, h);
    }
  }

  lemma {:induction false} RunKeepsSeen(s: State, steps: seq<Step>, s': State)
    requires Inv(s) && HeldFirst(s) && SeenLast(s) && Run(s, steps, s')
    ensures Inv(s') && HeldFirst(s') && SeenLast(s')
    decreases |steps|
  {
    if steps != [] {
      StepKeepsInv(s, steps[0]);
      StepKeepsHeldFirst(s, steps[0]);
      StepKeepsSeenLast(s, steps[0]);
      RunKeepsSeen(Next(s, steps[0]), steps[1..], s');
    }
  }

  // ---- The locked loop ----

  lemma {:induction false} RetireShortens(s: State)
    requires Inv(s) && Enabled(s, RetireTail)
    ensures Inv(Next(s, RetireTail))
    ensures Next(s, RetireTail).lists.outstanding == s.lists.outstanding[..|s.lists.outstanding| - 1]
  {
    StepKeepsInv(s, RetireTail);
    WithoutTail(s.lists.outstanding);
  }

  lemma {:induction false} WithoutTail(out: seq<nat>)
    requires Distinct(out) && out != []
    ensures Without(out, Tail(out)) == out[..|out| - 1]
  {
    WithoutAt(out, |out| - 1);
  }

  /** The steps of the receiver from here to the unlocking, with the lock held. */
  ghost function Drain(s: State): State
    requires Inv(s) && s.receiver.Retiring?
    decreases |s.lists.outstanding|
  {
    if Enabled(s, RetireTail) then RetireShortens(s); Drain(Next(s, RetireTail)) else Next(s, Unlock)
  }

  /** The loop goes on exactly while the tail has expired. */
  lemma {:induction false} GuardSays(s: State)
    requires Inv(s) && s.receiver.Retiring? && s.receiver.timeout > 0
    ensures var out := s.lists.outstanding;
            Enabled(s, RetireTail) <==>
            out != [] && ExpiredAt(out, s.stamps, |out| - 1, s.receiver.now, s.receiver.timeout)
  {
    PartitionMembers(s.lists, Pool());
    assert s.lists.outstanding != [] ==> Tail(s.lists.outstanding) in Pool();
  }

  /** The loop takes the expired queries off the tail, down to place m, and counts them. */
  ghost predicate DrainsTo(s: State, m: nat)
    requires Inv(s) && s.receiver.Retiring?
  {
    && StopsAt(s.lists.outstanding, s.stamps, m, s.receiver.now, s.receiver.timeout)
    && Drain(s).lists.outstanding == s.lists.outstanding[..m]
    && Drain(s).stats == s.stats.(timedout := s.stats.timedout + |s.lists.outstanding| - m)
    && Drain(s).receiver == Waiting
  }

  lemma {:induction false} DrainsNothing(s: State)
    requires Inv(s) && s.receiver.Retiring? && s.receiver.timeout > 0 && !Enabled(s, RetireTail)
    ensures DrainsTo(s, |s.lists.outstanding|)
  {
    GuardSays(s);
    var out := s.lists.outstanding;
    assert out[..|out|] == out;
  }

  lemma {:induction false} DrainsMore(s: State, m: nat)
    requires Inv(s) && Enabled(s, RetireTail) && s.receiver.timeout > 0
    requires Inv(Next(s, RetireTail)) && DrainsTo(Next(s, RetireTail), m)
    ensures DrainsTo(s, m)
  {
    GuardSays(s);
    RetireShortens(s);
    StopsMore(s.lists.outstanding, s.stamps, m, s.receiver.now, s.receiver.timeout);
  }

  lemma {:induction false} DrainStops(s: State) returns (m: nat)
    requires Inv(s) && s.receiver.Retiring? && s.receiver.timeout > 0
    ensures DrainsTo(s, m)
    decreases |s.lists.outstanding|
  {
    if Enabled(s, RetireTail) {
      RetireShortens(s);
      m := DrainStops(Next(s, RetireTail));
      DrainsMore(s, m);
    } else {
      m := |s.lists.outstanding|;
      DrainsNothing(s);
    }
  }

  /** Exactly the expired queries have left the list, from its tail, and each was counted once. */
  ghost predicate RetiredExactly(s: State, s': State, now: nat, timeout: nat) {
    var out, m := s.lists.outstanding, |s'.lists.outstanding|;
    && m <= |out| && s'.lists.outstanding == out[..m]
    && CutAt(out, s.stamps, m, now, timeout)
    && s'.stats.timedout == s.stats.timedout + |out| - m
    && s'.receiver == Waiting
  }

  /** The first move takes the tail, if the query that was seen is still there. */
  lemma {:induction false} ExpireTakesTail(s: State) returns (m: nat)
    requires Inv(s) && s.receiver.SawTail? && s.receiver.timeout > 0
    requires s.receiver.q in s.lists.outstanding && Tail(s.lists.outstanding) == s.receiver.q
    ensures Inv(Next(s, Expire)) && s.lists.outstanding != []
    ensures var less, s' := s.lists.outstanding[..|s.lists.outstanding| - 1], Drain(Next(s, Expire));
            && StopsAt(less, s.stamps, m, s.receiver.now, s.receiver.timeout)
            && s'.lists.outstanding == less[..m]
            && s'.stats.timedout == s.stats.timedout + |s.lists.outstanding| - m
            && s'.receiver == Waiting
  {
    StepKeepsInv(s, Expire);
    WithoutTail(s.lists.outstanding);
    m := DrainStops(Next(s, Expire));
  }

  lemma {:induction false} SeenStillExpired(s: State)
    requires Inv(s) && s.receiver.SawTail? && s.receiver.timeout > 0
    requires s.receiver.q in s.lists.outstanding && Tail(s.lists.outstanding) == s.receiver.q
    requires Expired(s.stamps[s.receiver.q], s.receiver.now, s.receiver.timeout)
    ensures Inv(Next(s, Expire))
    ensures RetiredExactly(s, Drain(Next(s, Expire)), s.receiver.now, s.receiver.timeout) <==>
            ExpiredLast(s.lists.outstanding, s.stamps, s.receiver.now, s.receiver.timeout)
  {
    var m := ExpireTakesTail(s);
    TailThenRest(s.lists.outstanding, s.stamps, m, s.receiver.now, s.receiver.timeout);
  }

  lemma {:induction false} SeenNotExpired(s: State)
    requires Inv(s) && s.receiver.SawTail? && s.receiver.timeout > 0
    requires s.receiver.q in s.lists.outstanding && Tail(s.lists.outstanding) == s.receiver.q
    requires !Expired(s.stamps[s.receiver.q], s.receiver.now, s.receiver.timeout)
    ensures Inv(Next(s, Expire)) && !RetiredExactly(s, Drain(Next(s, Expire)), s.receiver.now, s.receiver.timeout)
  {
    var out := s.lists.outstanding;
    var m := ExpireTakesTail(s);
    var last := |out| - 1;
    assert !ExpiredAt(out, s.stamps, last, s.receiver.now, s.receiver.timeout);
  }

  lemma {:induction false} SeenGone(s: State)
    requires Inv(s) && s.receiver.SawTail? && s.receiver.timeout > 0
    requires s.lists.outstanding == []
    ensures Inv(Next(s, Expire)) && !RetiredExactly(s, Drain(Next(s, Expire)), s.receiver.now, s.receiver.timeout)
  {
    StepKeepsInv(s, Expire);
    var m := DrainStops(Next(s, Expire));
  }

  /**
   * In every run the locked loop retires exactly the expired queries if and only if the query that was
   * seen before the lock is still outstanding and still expired when the lock is taken, which the program
   * does not check, and no expired query is ahead of one that has not expired.
   */
  lemma {:induction false} RetiresExactlyIff(s0: State, steps: seq<Step>, s: State)
    requires Init(s0) && Run(s0, steps, s) && s.receiver.SawTail? && s.receiver.timeout > 0
    ensures Inv(s) && Inv(Next(s, Expire)) && s.receiver.q < NQIDS
    ensures RetiredExactly(s, Drain(Next(s, Expire)), s.receiver.now, s.receiver.timeout) <==>
            && s.receiver.q in s.lists.outstanding
            && Expired(s.stamps[s.receiver.q], s.receiver.now, s.receiver.timeout)
            && ExpiredLast(s.lists.outstanding, s.stamps, s.receiver.now, s.receiver.timeout)
  {
    InitInv(s0);
    RunKeepsSeen(s0, steps, s);
    if s.receiver.q !in s.lists.outstanding {
      SeenGone(s);
    } else if Expired(s.stamps[s.receiver.q], s.receiver.now, s.receiver.timeout) {
      SeenStillExpired(s);
    } else {
      SeenNotExpired(s);
    }
  }

  lemma {:induction false} SteadyIsRun(s: State, steps: seq<Step>, s': State)
    requires SteadyRun(s, steps, s')
    ensures Run(s, steps, s')
    decreases |steps|
  {
    if steps != [] { SteadyIsRun(Next(s, steps[0]), steps[1..], s'); }
  }

  /** Without delayed sends and with a steady clock the last of these always holds. */
  lemma {:induction false} SteadyRetiresExactlyIff(s0: State, steps: seq<Step>, s: State)
    requires Init(s0) && SteadyRun(s0, steps, s) && s.receiver.SawTail? && s.receiver.timeout > 0
    ensures Inv(s) && Inv(Next(s, Expire)) && s.receiver.q < NQIDS
    ensures RetiredExactly(s, Drain(Next(s, Expire)), s.receiver.now, s.receiver.timeout) <==>
            && s.receiver.q in s.lists.outstanding
            && Expired(s.stamps[s.receiver.q], s.receiver.now, s.receiver.timeout)
  {
    InitOrdered(s0);
    RunKeepsOrdered(s0, steps, s);
    SteadyIsRun(s0, steps, s);
    OrderedExpireLast(s.lists.outstanding, s.stamps, s.receiver.now, s.receiver.timeout);
    RetiresExactlyIff(s0, steps, s);
  }

  /** process_timeouts once it has the lock: the first move is unconditional. */
  method ProcessTimeouts(s: State) returns (s': State)
    requires Inv(s) && s.receiver.SawTail?
    ensures Inv(Next(s, Expire)) && s' == Drain(Next(s, Expire))
  {
    StepKeepsInv(s, Expire);
    var now, timeout, q := s.receiver.now, s.receiver.timeout, s.receiver.q;
    s' := s.(lists := Move(s.lists, q, AppendUnused), receiver := Retiring(now, timeout),
             stats := s.stats.(timedout := s.stats.timedout + 1),
             lost := if q in s.lists.outstanding then s.lost else s.lost + 1);
    while MoreToRetire(s', now, timeout)
      invariant Inv(s') && s'.receiver == Retiring(now, timeout) && Drain(s') == Drain(Next(s, Expire))
      decreases |s'.lists.outstanding|
    {
      RetireShortens(s');
      s' := s'.(lists := Move(s'.lists, Tail(s'.lists.outstanding), AppendUnused),
                stats := s'.stats.(timedout := s'.stats.timedout + 1));
    }
    s' := s'.(receiver := Waiting);
  }

  // ---- A run in which it does not ----

  lemma {:induction false} SteadyAppend(s: State, steps: seq<Step>, s': State, step: Step)
    requires SteadyRun(s, steps, s') && Enabled(s', step) && Steady(s', step)
    ensures SteadyRun(s, steps + [step], Next(s', step))
    decreases |steps|
  {
    if steps == [] {
      assert SteadyRun(Next(s, step), [], Next(s', step));
      assert ([step])[1..] == [];
    } else {
      SteadyAppend(Next(s, steps[0]), steps[1..], s', step);
      assert (steps + [step])[1..] == steps[1..] + [step];
    }
  }

  /** The first query is taken and stamped, and looks expired to the receiver. */
  lemma {:induction false} SeenExpired(s0: State, now: nat) returns (steps: seq<Step>, s: State)
    requires Init(s0) && 0 < now < UINT64_MAX
    ensures SteadyRun(s0, steps, s) && |s.stamps| == NQIDS
    ensures s.lists == Pair(s0.lists.unused[1..], [0]) && s.sender == Stamped(0) && s.receiver == SawTail(0, now, 1)
    ensures s.clock == 0 && s.stats == Stats(0, 0, 0, 0) && s.lost == 0
  {
    steps, s := [], s0;
    SteadyAppend(s0, steps, s, Take(1));
    steps, s := steps + [Take(1)], Next(s, Take(1));
    assert s.lists == Pair(s0.lists.unused[1..], [0]);
    SteadyAppend(s0, steps, s, Stamp(0));
    steps, s := steps + [Stamp(0)], Next(s, Stamp(0));
    SteadyAppend(s0, steps, s, LookAtTail(now, 1));
    steps, s := steps + [LookAtTail(now, 1)], Next(s, LookAtTail(now, 1));
  }

  /** It is not sent, given back and taken for the next query, which is not yet stamped. */
  lemma {:induction false} SeenRetaken(s0: State, now: nat) returns (steps: seq<Step>, s: State)
    requires Init(s0) && 0 < now < UINT64_MAX
    ensures SteadyRun(s0, steps, s) && |s.stamps| == NQIDS
    ensures s.lists == Pair(s0.lists.unused[1..], [0]) && s.sender == Holding(0) && s.receiver == SawTail(0, now, 1)
    ensures s.clock == 0 && s.stamps[0] == UINT64_MAX && s.stats == Stats(0, 0, 0, 0) && s.lost == 0
  {
    steps, s := SeenExpired(s0, now);
    var rest := s0.lists.unused[1..];
    SteadyAppend(s0, steps, s, Send(false));
    steps, s := steps + [Send(false)], Next(s, Send(false));
    WithoutStranger(rest, 0);
    SteadyAppend(s0, steps, s, GiveBack);
    steps, s := steps + [GiveBack], Next(s, GiveBack);
    assert s.lists == Pair([0] + rest, []);
    assert ([0] + rest)[1..] == rest;
    SteadyAppend(s0, steps, s, Take(1));
    steps, s := steps + [Take(1)], Next(s, Take(1));
    assert s.lists.outstanding == [0];
  }

  /** A query that the sender has only just taken is timed out. */
  lemma {:induction false} UnsentQueryRetired(s0: State) returns (steps: seq<Step>, s: State)
    requires Init(s0)
    ensures SteadyRun(s0, steps, s) && Inv(s) && s.receiver == SawTail(0, 1, 1) && s.sender == Holding(0)
    ensures Inv(Next(s, Expire)) && !RetiredExactly(s, Drain(Next(s, Expire)), 1, 1)
    ensures Next(s, Expire).stats.timedout == 1 && Next(s, Expire).lost == 0
  {
    steps, s := SeenRetaken(s0, 1);
    SteadyRetiresExactlyIff(s0, steps, s);
  }

  /** Having another stamp than the one that was seen is not enough to go wrong: the new one may be old as well. */
  lemma {:induction false} RestampedStillExact(s0: State) returns (steps: seq<Step>, s: State)
    requires Init(s0)
    ensures SteadyRun(s0, steps, s) && Inv(s) && s.receiver == SawTail(0, 5, 1) && s.stamps[0] == 1
    ensures Inv(Next(s, Expire)) && RetiredExactly(s, Drain(Next(s, Expire)), 5, 1)
  {
    steps, s := SeenRetaken(s0, 5);
    SteadyAppend(s0, steps, s, Stamp(1));
    steps, s := steps + [Stamp(1)], Next(s, Stamp(1));
    SteadyRetiresExactlyIff(s0, steps, s);
  }
}
