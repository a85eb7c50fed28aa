/** What every step of a resperf run keeps, and so every run. */
module ResperfRuns {
  import opened Lists
  import opened Timeouts
  import opened ResperfSlots
  import opened ResperfSpec
  import opened CInt

  // ---- The lists ----

  lemma {:induction false} LaunchLists(p: Pair<nat>, slots: nat)
    requires Partition(p, Slots(slots)) && p.unused != []
    ensures p.unused[0] < slots && p.unused[0] !in p.outstanding
    ensures Move(p, p.unused[0], PrependOutstanding) == Pair(p.unused[1..], [p.unused[0]] + p.outstanding)
    ensures Partition(Move(p, p.unused[0], PrependOutstanding), Slots(slots))
  {
    PartitionMembers(p, Slots(slots));
    assert p.unused[0] in Slots(slots);
    Addition(p, p.unused[0], Slots(slots));
  }

  lemma {:induction false} LandLists(p: Pair<nat>, q: nat, slots: nat)
    requires Partition(p, Slots(slots)) && q in p.outstanding
    ensures q < slots
    ensures Move(p, q, AppendUnused) == Pair(p.unused + [q], Without(p.outstanding, q))
    ensures Partition(Move(p, q, AppendUnused), Slots(slots))
    ensures |Without(p.outstanding, q)| == |p.outstanding| - 1
  {
    PartitionMembers(p, Slots(slots));
    assert q in Slots(slots);
    OnOneList(p, q, Slots(slots));
    Removal(p, q, AppendUnused, Slots(slots));
  }

  lemma {:induction false} OutstandingSlots(p: Pair<nat>, slots: nat)
    requires Partition(p, Slots(slots))
    ensures forall i :: 0 <= i < |p.outstanding| ==> p.outstanding[i] < slots
    ensures forall i :: 0 <= i < |p.unused| ==> p.unused[i] < slots
  {
    PartitionMembers(p, Slots(slots));
    forall i | 0 <= i < |p.outstanding| ensures p.outstanding[i] < slots { assert p.outstanding[i] in Slots(slots); }
    forall i | 0 <= i < |p.unused| ensures p.unused[i] < slots { assert p.unused[i] in Slots(slots); }
  }

  // ---- The tallies ----

  lemma {:induction false} CountCons(q: nat, out: seq<nat>, tags: seq<nat>, b: nat)
    requires q < |tags|
    ensures Count([q] + out, tags, b) == (if tags[q] == b then 1 else 0) + Count(out, tags, b)
  {
    assert ([q] + out)[1..] == out;
  }

  lemma {:induction false} CountWithout(out: seq<nat>, q: nat, tags: seq<nat>, b: nat)
    requires q in out && q < |tags|
    ensures Count(out, tags, b) == (if tags[q] == b then 1 else 0) + Count(Without(out, q), tags, b)
  {
    if out[0] != q {
      assert q in out[1..];
      CountWithout(out[1..], q, tags, b);
      assert ([out[0]] + Without(out[1..], q))[1..] == Without(out[1..], q);
    }
  }

  lemma {:induction false} CountOthers(out: seq<nat>, tags: seq<nat>, q: nat, tag: nat, b: nat)
    requires q < |tags| && q !in out
    ensures Count(out, tags[q := tag], b) == Count(out, tags, b)
  {
    if out != [] {
      assert out[0] != q;
      CountOthers(out[1..], tags, q, tag, b);
    }
  }

  lemma {:induction false} TagsUpdate(c: Config, stamps: seq<nat>, q: nat, when: nat)
    requires c.nBuckets > 0 && c.traffic > 0 && q < |stamps|
    ensures Tags(c, stamps[q := when]) == Tags(c, stamps)[q := BucketOf(c, when)]
  {
  }

  lemma {:induction false} CountOne(q: nat, tags: seq<nat>, b: nat)
    requires q < |tags|
    ensures Count([q], tags, b) == if tags[q] == b then 1 else 0
  {
    CountCons(q, [], tags, b);
    assert [q] + [] == [q];
  }

  // ---- The end of a delayed send ----

  lemma {:induction false} FinishTallied(c: Config, s: State)
    requires Sound(c, s) && Enabled(c, s, Finish) && Tallied(c, s) && s.lists.unused[0] !in s.waiting
    ensures Shape(c, FinishSend(s)) && Tallied(c, FinishSend(s))
  {
    var q, s', tags := s.lists.unused[0], FinishSend(s), Tags(c, s.stamps);
    LaunchLists(s.lists, c.slots);
    NoneDelayedAfter(c, s);
    OutstandingSlots(s'.lists, c.slots);
    assert Ahead(s) == [q] && Ahead(s') == [];
    forall b | 0 <= b < c.nBuckets
      ensures TalliedIn(s'.t, [], s'.lists.outstanding, tags, b)
    {
      assert TalliedIn(s.t, [q], s.lists.outstanding, tags, b);
      CountOne(q, tags, b);
      CountCons(q, s.lists.outstanding, tags, b);
    }
  }

  lemma {:induction false} NoneDelayedAfter(c: Config, s: State)
    requires Sound(c, s) && Enabled(c, s, Finish)
    ensures var s' := FinishSend(s); forall q :: 0 <= q < |s'.inProgress| ==> !s'.inProgress[q]
  {
    LaunchLists(s.lists, c.slots);
  }

  lemma {:induction false} FinishKeepsInv(c: Config, s: State)
    requires Inv(c, s) && Enabled(c, s, Finish)
    ensures Inv(c, FinishSend(s))
  {
    LaunchLists(s.lists, c.slots);
    NoneDelayedAfter(c, s);
    OutstandingSlots(s.lists, c.slots);
    if !s.restamped { NewestInFront(s.lists.outstanding, s.stamps, s.lists.unused[0]); }
    if !FinishSend(s).uneven { FinishTallied(c, s); }
  }

  // ---- A delayed message that is sent ----

  lemma {:induction false} FlushedTallied(c: Config, s: State, q: nat)
    requires Sound(c, s) && Tallied(c, s) && q in s.waiting && s.inProgress[q]
    ensures Tallied(c, Flushed(c, s, q))
  {
    var s', tags := Flushed(c, s, q), Tags(c, s.stamps);
    var tags' := tags[q := BucketOf(c, s.now)];
    TagsUpdate(c, s.stamps, q, s.now);
    LaunchLists(s.lists, c.slots);
    assert Ahead(s) == [] && Ahead(s') == [q];
    forall b | 0 <= b < c.nBuckets
      ensures TalliedIn(s'.t, [q], s'.lists.outstanding, tags', b)
    {
      assert TalliedIn(s.t, [], s.lists.outstanding, tags, b);
      CountOne(q, tags', b);
      CountOthers(s.lists.outstanding, tags, q, BucketOf(c, s.now), b);
    }
  }

  lemma {:induction false} FlushedInOrder(c: Config, s: State, q: nat)
    requires Sound(c, s) && InOrder(s) && q in s.waiting && q !in s.lists.outstanding
    ensures InOrder(Flushed(c, s, q))
  {
    StampedOrder(s.lists.outstanding, s.stamps, q, s.now);
    var s' := Flushed(c, s, q);
    forall x | 0 <= x < |s'.stamps| && s'.inProgress[x]
      ensures NoneAfter(s.lists.outstanding, s'.stamps, s'.stamps[x])
    {
      if x != q { SameStamps(s.lists.outstanding, s.stamps, q, s.now, s.stamps[x]); }
    }
  }

  lemma {:induction false} SameStamps(out: seq<nat>, stamps: seq<nat>, q: nat, now: nat, when: nat)
    requires q < |stamps| && q !in out && NoneAfter(out, stamps, when)
    ensures NoneAfter(out, stamps[q := now], when)
  {
    assert forall i :: 0 <= i < |out| ==> out[i] != q;
  }

  lemma {:induction false} FlushedKeepsInv(c: Config, s: State, q: nat)
    requires Inv(c, s) && Enabled(c, s, NetSent(q))
    ensures Inv(c, Flushed(c, s, q))
  {
    if !Flushed(c, s, q).restamped { FlushedInOrder(c, s, q); }
    if !Flushed(c, s, q).uneven { FlushedTallied(c, s, q); }
  }

  /** The callback's assertion: what a transport hands back is a slot, the one that was sent. */
  lemma {:induction false} CallbackFindsSlot(c: Config, s: State, q: nat)
    requires Inv(c, s) && q in s.waiting
    ensures Qid(q, c.nsocks) < 65536 && Sock(q, c.nsocks) < c.nsocks
    ensures Place(Qid(q, c.nsocks), Sock(q, c.nsocks), c.nsocks) == q < c.slots
  {
    SlotFound(q, c.nsocks);
    IndexFits(Qid(q, c.nsocks), Sock(q, c.nsocks), c.nsocks);
  }

  // ---- A new query ----

  lemma {:induction false} NoneDelayed(s: State)
    requires OneDelayed(s) && s.lists.unused != [] && s.lists.unused[0] < |s.inProgress|
    requires !s.inProgress[s.lists.unused[0]]
    ensures forall q :: 0 <= q < |s.inProgress| ==> !s.inProgress[q]
    ensures Ahead(s) == []
  {
  }

  lemma {:induction false} SentTallied(c: Config, s: State)
    requires Sound(c, s) && Tallied(c, s) && Enabled(c, s, Send(Sent))
    ensures Shape(c, SendHead(c, s, Sent)) && Tallied(c, SendHead(c, s, Sent))
  {
    var q, s', tags := s.lists.unused[0], SendHead(c, s, Sent), Tags(c, s.stamps);
    var tags' := tags[q := BucketOf(c, s.now)];
    LaunchLists(s.lists, c.slots);
    TagsUpdate(c, s.stamps, q, s.now);
    NoneDelayed(s);
    OutstandingSlots(s'.lists, c.slots);
    assert Ahead(s') == [];
    forall b | 0 <= b < c.nBuckets
      ensures TalliedIn(s'.t, [], s'.lists.outstanding, tags', b)
    {
      assert TalliedIn(s.t, [], s.lists.outstanding, tags, b);
      CountCons(q, s.lists.outstanding, tags', b);
      CountOthers(s.lists.outstanding, tags, q, BucketOf(c, s.now), b);
    }
  }

  lemma {:induction false} UnsentTallied(c: Config, s: State, outcome: Outcome)
    requires Sound(c, s) && Tallied(c, s) && Enabled(c, s, Send(outcome)) && outcome != Sent
    ensures Shape(c, SendHead(c, s, outcome)) && Tallied(c, SendHead(c, s, outcome))
  {
    var q, s', tags := s.lists.unused[0], SendHead(c, s, outcome), Tags(c, s.stamps);
    LaunchLists(s.lists, c.slots);
    TagsUpdate(c, s.stamps, q, s.now);
    NoneDelayed(s);
    assert Ahead(s') == [];
    var tags' := tags[q := BucketOf(c, s.now)];
    forall b | 0 <= b < c.nBuckets
      ensures TalliedIn(s'.t, [], s'.lists.outstanding, tags', b)
    {
      assert TalliedIn(s.t, [], s.lists.outstanding, tags, b);
      CountOthers(s.lists.outstanding, tags, q, BucketOf(c, s.now), b);
    }
  }

  lemma {:induction false} SendSound(c: Config, s: State, outcome: Outcome)
    requires Sound(c, s) && Enabled(c, s, Send(outcome))
    ensures Sound(c, SendHead(c, s, outcome))
  {
    LaunchLists(s.lists, c.slots);
    NoneDelayed(s);
  }

  lemma {:induction false} SendInOrder(c: Config, s: State, outcome: Outcome)
    requires Sound(c, s) && InOrder(s) && Enabled(c, s, Send(outcome))
    ensures InOrder(SendHead(c, s, outcome))
  {
    var q, out, s' := s.lists.unused[0], s.lists.outstanding, SendHead(c, s, outcome);
    LaunchLists(s.lists, c.slots);
    OutstandingSlots(s.lists, c.slots);
    NoneDelayed(s);
    StampedOrder(out, s.stamps, q, s.now);
    if outcome == Sent { NewestInFront(out, s'.stamps, q); }
  }

  lemma {:induction false} StampedOrder(out: seq<nat>, stamps: seq<nat>, q: nat, now: nat)
    requires NewestFirst(out, stamps) && q < |stamps| && q !in out
    requires forall x :: 0 <= x < |stamps| ==> stamps[x] <= now
    ensures NewestFirst(out, stamps[q := now]) && NoneAfter(out, stamps[q := now], now)
  {
    assert forall i :: 0 <= i < |out| ==> out[i] != q && stamps[q := now][out[i]] == stamps[out[i]];
  }

  lemma {:induction false} NewestInFront(out: seq<nat>, stamps: seq<nat>, q: nat)
    requires NewestFirst(out, stamps) && q < |stamps| && NoneAfter(out, stamps, stamps[q])
    ensures NewestFirst([q] + out, stamps)
  {
  }

  lemma {:induction false} SendKeepsInv(c: Config, s: State, outcome: Outcome)
    requires Inv(c, s) && Enabled(c, s, Send(outcome))
    ensures Inv(c, SendHead(c, s, outcome))
  {
    SendSound(c, s, outcome);
    if !s.restamped { SendInOrder(c, s, outcome); }
    if !s.uneven {
      if outcome == Sent { SentTallied(c, s); } else { UnsentTallied(c, s, outcome); }
    }
  }

  // ---- A query that is no longer outstanding ----

  /** A slot that has come back; which count went up is left open. */
  ghost predicate Landed(s: State, s': State, q: nat) {
    && s'.lists == Move(s.lists, q, AppendUnused)
    && s'.inProgress == s.inProgress && s'.stamps == s.stamps && s'.now == s.now
    && s'.waiting == s.waiting && s'.restamped == s.restamped && s'.uneven == s.uneven
    && s'.n.sent == s.n.sent && s'.n.outstanding == s.n.outstanding - 1
    && s'.n.received + s'.n.timedOut == s.n.received + s.n.timedOut + 1
  }

  lemma {:induction false} LandSound(c: Config, s: State, s': State, q: nat)
    requires Sound(c, s) && q in s.lists.outstanding && Landed(s, s', q)
    ensures Partition(s'.lists, Slots(c.slots)) && Balanced(s') && OneDelayed(s') && Past(s') && Ahead(s') == Ahead(s)
  {
    LandLists(s.lists, q, c.slots);
    assert s.lists.unused != [] ==> s'.lists.unused[0] == s.lists.unused[0];
  }

  lemma {:induction false} LandInOrder(c: Config, s: State, s': State, q: nat)
    requires Sound(c, s) && InOrder(s) && q in s.lists.outstanding && Landed(s, s', q)
    ensures InOrder(s')
  {
    LandLists(s.lists, q, c.slots);
    var k := WithoutPlaces(s.lists.outstanding, q);
    OutstandingSlots(s.lists, c.slots);
  }

  /** In the bucket of the query's stamp, one of the two counts has gone up by one. */
  ghost predicate LandedIn(t: Tally, t': Tally, tag: nat)
    requires |t.responses| == |t'.responses| && |t.retired| == |t'.retired| && |t.responses| == |t.retired|
  {
    && t'.queries == t.queries
    && forall b :: 0 <= b < |t.responses| ==>
         t'.responses[b] + t'.retired[b] == t.responses[b] + t.retired[b] + (if b == tag then 1 else 0)
  }

  lemma {:induction false} LandTallied(c: Config, s: State, s': State, q: nat)
    requires Sound(c, s) && Tallied(c, s) && q in s.lists.outstanding && Landed(s, s', q) && Shape(c, s')
    requires q < c.slots && LandedIn(s.t, s'.t, BucketOf(c, s.stamps[q])) && Ahead(s') == Ahead(s)
    ensures Tallied(c, s')
  {
    var tags := Tags(c, s.stamps);
    LandLists(s.lists, q, c.slots);
    forall b | 0 <= b < c.nBuckets
      ensures TalliedIn(s'.t, Ahead(s'), s'.lists.outstanding, tags, b)
    {
      assert TalliedIn(s.t, Ahead(s), s.lists.outstanding, tags, b);
      CountWithout(s.lists.outstanding, q, tags, b);
    }
  }

  lemma {:induction false} LandKeepsInv(c: Config, s: State, s': State, q: nat)
    requires Inv(c, s) && q in s.lists.outstanding && q < c.slots && Landed(s, s', q)
    requires |s'.t.queries| == |s'.t.responses| == |s'.t.failures| == |s'.t.retired| == c.nBuckets
    requires LandedIn(s.t, s'.t, BucketOf(c, s.stamps[q]))
    ensures Inv(c, s')
  {
    LandSound(c, s, s', q);
    if !s.restamped { LandInOrder(c, s, s', q); }
    if !s.uneven { LandTallied(c, s, s', q); }
  }

  lemma {:induction false} ResponseKeepsInv(c: Config, s: State, sock: nat, qid: nat, failed: bool)
    requires Inv(c, s)
    ensures Inv(c, Response(c, s, sock, qid, failed))
  {
    var q, s' := Index(qid, sock, c.nsocks), Response(c, s, sock, qid, failed);
    if q < c.slots && q in s.lists.outstanding {
      LandKeepsInv(c, s, s', q);
    }
  }

  lemma {:induction false} RetireTailKeepsInv(c: Config, s: State)
    requires Inv(c, s) && s.lists.outstanding != []
    ensures Tail(s.lists.outstanding) < c.slots && Inv(c, RetireTail(c, s))
    ensures RetireTail(c, s).lists.outstanding == s.lists.outstanding[..|s.lists.outstanding| - 1]
  {
    var out := s.lists.outstanding;
    var q := Tail(out);
    OutstandingSlots(s.lists, c.slots);
    LandLists(s.lists, q, c.slots);
    WithoutAt(out, |out| - 1);
    LandKeepsInv(c, s, RetireTail(c, s), q);
  }

  /** retire_old_queries */
  ghost function RetireExpiredTail(c: Config, s: State): State
    requires Inv(c, s)
    decreases |s.lists.outstanding|
  {
    if s.lists.outstanding == [] then s
    else
      RetireTailKeepsInv(c, s);
      if Expired(s.stamps[Tail(s.lists.outstanding)], s.now, c.timeout) then RetireExpiredTail(c, RetireTail(c, s))
      else s
  }

  /** Retiring leaves everything else alone. */
  lemma {:induction false} RetireLeaves(c: Config, s: State)
    requires Inv(c, s)
    ensures var s' := RetireExpiredTail(c, s);
            && s'.inProgress == s.inProgress && s'.stamps == s.stamps && s'.now == s.now && s'.waiting == s.waiting
            && s'.restamped == s.restamped && s'.uneven == s.uneven && s'.n.sent == s.n.sent
    decreases |s.lists.outstanding|
  {
    if s.lists.outstanding != [] {
      RetireTailKeepsInv(c, s);
      if Expired(s.stamps[Tail(s.lists.outstanding)], s.now, c.timeout) {
        RetireLeaves(c, RetireTail(c, s));
      }
    }
  }

  /** In every state the expired queries at the tail are retired, and counted as timed out. */
  lemma {:induction false} RetiresTail(c: Config, s: State) returns (m: nat)
    requires Inv(c, s)
    ensures Inv(c, RetireExpiredTail(c, s))
    ensures StopsAt(s.lists.outstanding, s.stamps, m, s.now, c.timeout)
    ensures RetireExpiredTail(c, s).lists.outstanding == s.lists.outstanding[..m]
    ensures RetireExpiredTail(c, s).n.timedOut == s.n.timedOut + |s.lists.outstanding| - m
    decreases |s.lists.outstanding|
  {
    var out := s.lists.outstanding;
    if out != [] { RetireTailKeepsInv(c, s); }
    if out != [] && Expired(s.stamps[Tail(out)], s.now, c.timeout) {
      m := RetiresTail(c, RetireTail(c, s));
      StopsMore(out, s.stamps, m, s.now, c.timeout);
    } else {
      m := |out|;
      assert out[..m] == out;
    }
  }

  /** The program retires exactly the expired queries if and only if those are at the tail. */
  lemma {:induction false} RetiresExactlyIff(c: Config, s: State) returns (m: nat)
    requires Inv(c, s)
    ensures m <= |s.lists.outstanding| && RetireExpiredTail(c, s).lists.outstanding == s.lists.outstanding[..m]
    ensures CutAt(s.lists.outstanding, s.stamps, m, s.now, c.timeout) <==>
            ExpiredLast(s.lists.outstanding, s.stamps, s.now, c.timeout)
  {
    m := RetiresTail(c, s);
    if ExpiredLast(s.lists.outstanding, s.stamps, s.now, c.timeout) {
      StopIsCut(s.lists.outstanding, s.stamps, m, s.now, c.timeout);
    }
  }

  /** As long as no outstanding query was restamped, exactly the expired ones are retired. */
  lemma {:induction false} RetiresExactly(c: Config, s: State) returns (m: nat)
    requires Inv(c, s) && !s.restamped
    ensures m <= |s.lists.outstanding| && RetireExpiredTail(c, s).lists.outstanding == s.lists.outstanding[..m]
    ensures CutAt(s.lists.outstanding, s.stamps, m, s.now, c.timeout)
  {
    OrderedExpireLast(s.lists.outstanding, s.stamps, s.now, c.timeout);
    m := RetiresExactlyIff(c, s);
  }

  // ---- Runs ----

  ghost function Next(c: Config, s: State, step: Step): State
    requires Inv(c, s) && Enabled(c, s, step)
  {
    match step
    case Finish => FinishSend(s)
    case NetSent(q) => Flushed(c, s, q)
    case Send(outcome) => SendHead(c, s, outcome)
    case Respond(sock, qid, failed) => Response(c, s, sock, qid, failed)
    case RetireAll => RetireExpiredTail(c, s)
    case Tick(now) => s.(now := now)
  }

  lemma {:induction false} StepKeepsInv(c: Config, s: State, step: Step)
    requires Inv(c, s) && Enabled(c, s, step)
    ensures Inv(c, Next(c, s, step))
  {
    match step
    case Finish => FinishKeepsInv(c, s);
    case NetSent(q) => FlushedKeepsInv(c, s, q);
    case Send(outcome) => SendKeepsInv(c, s, outcome);
    case Respond(sock, qid, failed) => ResponseKeepsInv(c, s, sock, qid, failed);
    case RetireAll => var m := RetiresTail(c, s);
    case Tick(now) => TickKeepsInv(c, s, now);
  }

  lemma {:induction false} TickKeepsInv(c: Config, s: State, now: nat)
    requires Inv(c, s) && now >= s.now
    ensures Inv(c, s.(now := now))
  {
    var s' := s.(now := now);
    assert Ahead(s') == Ahead(s);
    if !s.uneven {
      assert forall b :: 0 <= b < c.nBuckets ==> TalliedIn(s.t, Ahead(s), s.lists.outstanding, Tags(c, s.stamps), b);
    }
  }

  ghost predicate Run(c: Config, s: State, steps: seq<Step>, s': State)
    requires Inv(c, s)
    decreases |steps|
  {
    if steps == [] then s' == s
    else
      && Enabled(c, s, steps[0])
      && (StepKeepsInv(c, s, steps[0]); Run(c, Next(c, s, steps[0]), steps[1..], s'))
  }

  /** As setup leaves it: every slot unused, in order, nothing counted and nothing to send. */
  ghost predicate Init(c: Config, s: State) {
    && ValidConfig(c)
    && s.lists == Pair(seq(c.slots, i => i), [])
    && s.inProgress == seq(c.slots, i => false)
    && |s.stamps| == c.slots && Past(s)
    && s.n == Counts(0, 0, 0, 0)
    && s.t == Tally(Zeros(c.nBuckets), Zeros(c.nBuckets), Zeros(c.nBuckets), Zeros(c.nBuckets))
    && s.waiting == {} && !s.restamped && !s.uneven
  }

  ghost function Zeros(n: nat): seq<nat> { seq(n, i => 0) }

  lemma {:induction false} InitInv(c: Config, s: State)
    requires Init(c, s)
    ensures Inv(c, s)
  {
    var all := s.lists.unused;
    forall q | q in Slots(c.slots)
      ensures q in all
    {
      assert all[q] == q;
    }
    assert Elems(all) == Slots(c.slots);
    assert Elems(s.lists.outstanding) == {};
    assert Ahead(s) == [];
  }

  lemma {:induction false} RunKeepsInv(c: Config, s: State, steps: seq<Step>, s': State)
    requires Inv(c, s) && Run(c, s, steps, s')
    ensures Inv(c, s')
    decreases |steps|
  {
    if steps != [] {
      StepKeepsInv(c, s, steps[0]);
      RunKeepsInv(c, Next(c, s, steps[0]), steps[1..], s');
    }
  }

  /**
   * In every run the queries sent are those answered, timed out and on the outstanding list, and at
   * most one slot is in progress, at the head of instanding_list.
   */
  lemma {:induction false} QueriesAccountedFor(c: Config, s0: State, steps: seq<Step>, s: State)
    requires Init(c, s0)
    requires (InitInv(c, s0); Run(c, s0, steps, s))
    ensures s.n.sent == s.n.received + s.n.timedOut + s.n.outstanding
    ensures s.n.outstanding == |s.lists.outstanding| && |s.lists.unused| + |s.lists.outstanding| == c.slots
    ensures forall q :: 0 <= q < |s.inProgress| && s.inProgress[q] ==> s.lists.unused != [] && s.lists.unused[0] == q
  {
    InitInv(c, s0);
    RunKeepsInv(c, s0, steps, s);
    ListLengths(s.lists, c.slots);
  }

  lemma {:induction false} SlotsCount(n: nat)
    ensures |Slots(n)| == n
  {
    if n > 0 {
      SlotsCount(n - 1);
      assert Slots(n) == Slots(n - 1) + {n - 1};
    }
  }

  lemma {:induction false} ListLengths(p: Pair<nat>, slots: nat)
    requires Partition(p, Slots(slots))
    ensures |p.unused| + |p.outstanding| == slots
  {
    DistinctCount(p.unused);
    DistinctCount(p.outstanding);
    SlotsCount(slots);
  }

  // ---- What each counter counts ----

  /** A response for a query that is outstanding. */
  ghost predicate Hits(c: Config, s: State, step: Step) {
    step.Respond? && Times(step.qid, c.nsocks) + step.sock in s.lists.outstanding
  }

  /** The bucket of the query that a response is for. */
  ghost predicate HitsIn(c: Config, s: State, step: Step, b: nat)
    requires c.nBuckets > 0 && c.traffic > 0
  {
    Hits(c, s, step) && var q := Times(step.qid, c.nsocks) + step.sock; q < |s.stamps| && BucketOf(c, s.stamps[q]) == b
  }

  ghost predicate IsSend(step: Step) { step == Finish || step == Send(Sent) }

  /** A message goes out, in the bucket of the time. */
  ghost predicate GoesOutIn(c: Config, s: State, step: Step, b: nat)
    requires c.nBuckets > 0 && c.traffic > 0
  {
    (step.NetSent? || step == Send(Sent)) && BucketOf(c, s.now) == b
  }

  /** The counters, and those of one bucket. */
  datatype Numbers = Numbers(sent: int, received: int, timedOut: int, queries: nat, responses: nat, failures: nat)

  function One(yes: bool): nat { if yes then 1 else 0 }

  ghost function NumbersOf(c: Config, s: State, b: nat): Numbers
    requires Inv(c, s) && b < c.nBuckets
  {
    Numbers(s.n.sent, s.n.received, s.n.timedOut, s.t.queries[b], s.t.responses[b], s.t.failures[b])
  }

  /** What a step adds. */
  ghost function Added(c: Config, s: State, step: Step, b: nat, x: Numbers): Numbers
    requires Inv(c, s) && Enabled(c, s, step)
  {
    Numbers(x.sent + One(IsSend(step)),
            x.received + One(Hits(c, s, step)),
            x.timedOut + (if step == RetireAll then |s.lists.outstanding| - |Next(c, s, step).lists.outstanding| else 0),
            x.queries + One(GoesOutIn(c, s, step, b)),
            x.responses + One(HitsIn(c, s, step, b)),
            x.failures + One(HitsIn(c, s, step, b) && step.failed))
  }

  /** Retiring counts the queries that it takes off the list, in the buckets of their stamps, and nothing else. */
  lemma {:induction false} RetireCounts(c: Config, s: State, b: nat)
    requires Inv(c, s) && b < c.nBuckets
    ensures var s', tags := RetireExpiredTail(c, s), Tags(c, s.stamps);
            && Inv(c, s')
            && s'.n.received == s.n.received && s'.n.sent == s.n.sent
            && s'.n.timedOut == s.n.timedOut + |s.lists.outstanding| - |s'.lists.outstanding|
            && s'.t == s.t.(retired := s'.t.retired)
            && s'.t.retired[b] + Count(s'.lists.outstanding, tags, b) == s.t.retired[b] + Count(s.lists.outstanding, tags, b)
    decreases |s.lists.outstanding|
  {
    if s.lists.outstanding != [] {
      RetireTailKeepsInv(c, s);
      if Expired(s.stamps[Tail(s.lists.outstanding)], s.now, c.timeout) {
        var q := Tail(s.lists.outstanding);
        CountWithout(s.lists.outstanding, q, Tags(c, s.stamps), b);
        LandLists(s.lists, q, c.slots);
        RetireCounts(c, RetireTail(c, s), b);
      }
    }
  }

  lemma {:induction false} AnswerCounts(c: Config, s: State, step: Step, b: nat)
    requires Inv(c, s) && Enabled(c, s, step) && step.Respond? && b < c.nBuckets
    ensures Inv(c, Next(c, s, step)) && NumbersOf(c, Next(c, s, step), b) == Added(c, s, step, b, NumbersOf(c, s, b))
    ensures Next(c, s, step).t.retired == s.t.retired
  {
    ResponseKeepsInv(c, s, step.sock, step.qid, step.failed);
    IndexFits(step.qid, step.sock, c.nsocks);
    OutstandingSlots(s.lists, c.slots);
  }

  lemma {:induction false} StepCounts(c: Config, s: State, step: Step, b: nat)
    requires Inv(c, s) && Enabled(c, s, step) && b < c.nBuckets
    ensures Inv(c, Next(c, s, step)) && NumbersOf(c, Next(c, s, step), b) == Added(c, s, step, b, NumbersOf(c, s, b))
  {
    StepKeepsInv(c, s, step);
    if step.Respond? { AnswerCounts(c, s, step, b); }
    if step == RetireAll { RetireCounts(c, s, b); }
  }

  ghost function AllAdded(c: Config, s: State, steps: seq<Step>, b: nat, x: Numbers): Numbers
    requires Inv(c, s)
    decreases |steps|
  {
    if steps == [] || !Enabled(c, s, steps[0]) then x
    else
      StepKeepsInv(c, s, steps[0]);
      AllAdded(c, Next(c, s, steps[0]), steps[1..], b, Added(c, s, steps[0], b, x))
  }

  lemma {:induction false} RunCounts(c: Config, s: State, steps: seq<Step>, s': State, b: nat)
    requires Inv(c, s) && Run(c, s, steps, s') && b < c.nBuckets
    ensures Inv(c, s') && NumbersOf(c, s', b) == AllAdded(c, s, steps, b, NumbersOf(c, s, b))
    decreases |steps|
  {
    if steps != [] {
      StepCounts(c, s, steps[0], b);
      RunCounts(c, Next(c, s, steps[0]), steps[1..], s', b);
    }
  }

  /**
   * In every run the counters are the numbers of queries sent, of responses for an outstanding query and
   * of queries retired, and each bucket has the messages that went out in its time, and the responses
   * and failures for queries stamped in it.
   */
  lemma {:induction false} CountersCount(c: Config, s0: State, steps: seq<Step>, s: State, b: nat)
    requires Init(c, s0) && b < c.nBuckets
    requires (InitInv(c, s0); Run(c, s0, steps, s))
    ensures Inv(c, s0) && Inv(c, s) && NumbersOf(c, s, b) == AllAdded(c, s0, steps, b, Numbers(0, 0, 0, 0, 0, 0))
  {
    InitInv(c, s0);
    RunCounts(c, s0, steps, s, b);
  }

  /** The stamp of every slot after a step: the time, if a message was made or went out in it, and else what it was. */
  lemma {:induction false} StampsAre(c: Config, s: State, step: Step, q: nat)
    requires Inv(c, s) && Enabled(c, s, step) && q < c.slots
    ensures |Next(c, s, step).stamps| == c.slots
    ensures Next(c, s, step).stamps[q] ==
            if (step.Send? && q == s.lists.unused[0]) || step == NetSent(q) then s.now else s.stamps[q]
  {
    if step == RetireAll { RetireLeaves(c, s); }
  }

  /** A transport holds the message of a slot from when it is delayed until it goes out or the slot is used again. */
  lemma {:induction false} HeldIs(c: Config, s: State, step: Step, q: nat)
    requires Inv(c, s) && Enabled(c, s, step) && q < c.slots
    ensures q in Next(c, s, step).waiting <==>
            if step.Send? && q == s.lists.unused[0] then step.outcome == Delayed else q in s.waiting && step != NetSent(q)
  {
    if step == RetireAll { RetireLeaves(c, s); }
  }

  // ---- Runs without delayed sends, as over UDP ----

  ghost predicate NoDelays(steps: seq<Step>) {
    steps == [] || (steps[0] != Send(Delayed) && NoDelays(steps[1..]))
  }

  ghost predicate Undelayed(c: Config, s: State) {
    s.inProgress == seq(c.slots, i => false) && s.waiting == {} && !s.restamped && !s.uneven
  }

  lemma {:induction false} NoDelaysKeep(c: Config, s: State, steps: seq<Step>, s': State)
    requires Inv(c, s) && Run(c, s, steps, s') && NoDelays(steps) && Undelayed(c, s)
    ensures Undelayed(c, s')
    decreases |steps|
  {
    if steps != [] {
      StepKeepsInv(c, s, steps[0]);
      NoDelayStep(c, s, steps[0]);
      NoDelaysKeep(c, Next(c, s, steps[0]), steps[1..], s');
    }
  }

  lemma {:induction false} NoDelayStep(c: Config, s: State, step: Step)
    requires Inv(c, s) && Enabled(c, s, step) && step != Send(Delayed) && Undelayed(c, s)
    ensures Undelayed(c, Next(c, s, step))
  {
    if step == RetireAll {
      RetireLeaves(c, s);
    }
  }

  /**
   * Over UDP the outstanding list stays newest first, so exactly the expired queries are retired, and
   * of the queries sent in each bucket all were answered, were retired or are outstanding.
   */
  lemma {:induction false} UndelayedRuns(c: Config, s0: State, steps: seq<Step>, s: State, b: nat)
    requires Init(c, s0) && NoDelays(steps) && b < c.nBuckets
    requires (InitInv(c, s0); Run(c, s0, steps, s))
    ensures Shape(c, s) && InOrder(s)
    ensures s.t.queries[b] == s.t.responses[b] + s.t.retired[b] + Count(s.lists.outstanding, Tags(c, s.stamps), b)
  {
    InitInv(c, s0);
    RunKeepsInv(c, s0, steps, s);
    NoDelaysKeep(c, s0, steps, s);
    OutstandingSlots(s.lists, c.slots);
    assert Ahead(s) == [];
    assert TalliedIn(s.t, [], s.lists.outstanding, Tags(c, s.stamps), b);
  }

  // ---- Exactly when the buckets stop adding up ----

  /** A delayed query is taken to have been sent while a transport still holds its message. */
  ghost predicate TooEarly(s: State, step: Step) {
    step == Finish && s.lists.unused != [] && s.lists.unused[0] in s.waiting
  }

  /** Every message that a transport holds belongs to a query in progress, as long as none was taken for sent too early. */
  ghost predicate Even(s: State) {
    !s.uneven && forall q :: q in s.waiting ==> q < |s.inProgress| && s.inProgress[q]
  }

  lemma {:induction false} EvenIffNotTooEarly(c: Config, s: State, step: Step)
    requires Inv(c, s) && Even(s) && Enabled(c, s, step)
    ensures Even(Next(c, s, step)) <==> !TooEarly(s, step)
  {
    if step == RetireAll {
      RetireLeaves(c, s);
    }
  }

  /** A query that is moved before its message has gone out is in no count of the bucket of its stamp. */
  lemma {:induction false} TooEarlyMissesBucket(c: Config, s: State)
    requires Inv(c, s) && Even(s) && Enabled(c, s, Finish) && TooEarly(s, Finish)
    ensures Shape(c, FinishSend(s)) && !Tallied(c, FinishSend(s))
  {
    var q, s', tags := s.lists.unused[0], FinishSend(s), Tags(c, s.stamps);
    LaunchLists(s.lists, c.slots);
    NoneDelayedAfter(c, s);
    OutstandingSlots(s'.lists, c.slots);
    assert Ahead(s) == [] && Ahead(s') == [];
    var b := tags[q];
    assert TalliedIn(s.t, [], s.lists.outstanding, tags, b);
    CountCons(q, s.lists.outstanding, tags, b);
    assert !TalliedIn(s'.t, [], s'.lists.outstanding, tags, b);
  }

  /** While the buckets add up, a step leaves it so exactly when it takes no query for sent too early. */
  lemma {:induction false} TalliedIffNotTooEarly(c: Config, s: State, step: Step)
    requires Inv(c, s) && Even(s) && Enabled(c, s, step)
    ensures Inv(c, Next(c, s, step))
    ensures Tallied(c, Next(c, s, step)) <==> !TooEarly(s, step)
  {
    StepKeepsInv(c, s, step);
    EvenIffNotTooEarly(c, s, step);
    if TooEarly(s, step) { TooEarlyMissesBucket(c, s); }
  }

  /** The buckets add up in every state of a run. */
  ghost predicate AlwaysTallied(c: Config, s: State, steps: seq<Step>)
    requires Inv(c, s)
    decreases |steps|
  {
    && Tallied(c, s)
    && (steps != [] && Enabled(c, s, steps[0]) ==>
          (StepKeepsInv(c, s, steps[0]); AlwaysTallied(c, Next(c, s, steps[0]), steps[1..])))
  }

  ghost predicate NeverTooEarly(c: Config, s: State, steps: seq<Step>)
    requires Inv(c, s)
    decreases |steps|
  {
    steps != [] && Enabled(c, s, steps[0]) ==>
      && !TooEarly(s, steps[0])
      && (StepKeepsInv(c, s, steps[0]); NeverTooEarly(c, Next(c, s, steps[0]), steps[1..]))
  }

  lemma {:induction false} TalliedAsLong(c: Config, s: State, steps: seq<Step>, s': State)
    requires Inv(c, s) && Even(s) && Run(c, s, steps, s')
    ensures AlwaysTallied(c, s, steps) <==> NeverTooEarly(c, s, steps)
    decreases |steps|
  {
    if steps != [] {
      var next := Next(c, s, steps[0]);
      TalliedIffNotTooEarly(c, s, steps[0]);
      EvenIffNotTooEarly(c, s, steps[0]);
      if TooEarly(s, steps[0]) {
        assert !AlwaysTallied(c, next, steps[1..]);
      } else {
        TalliedAsLong(c, next, steps[1..], s');
      }
    }
  }

  /**
   * So in every run, whatever the transports do, each bucket accounts for its queries all the time if
   * and only if no delayed query is taken for sent while a transport still holds its message.
   */
  lemma {:induction false} BucketsAddUpIff(c: Config, s0: State, steps: seq<Step>, s: State)
    requires Init(c, s0)
    requires (InitInv(c, s0); Run(c, s0, steps, s))
    ensures Inv(c, s0) && (AlwaysTallied(c, s0, steps) <==> NeverTooEarly(c, s0, steps))
  {
    InitInv(c, s0);
    TalliedAsLong(c, s0, steps, s);
  }

  // ---- Exactly when the outstanding list stops being newest first ----

  /** A query sent now, though already outstanding, is newer than one ahead of it or than one in progress. */
  ghost predicate Overtakes(s: State, q: nat) {
    var out := s.lists.outstanding;
    && q in out
    && (|| (exists i, j :: 0 <= i < j < |out| && out[j] == q && out[i] < |s.stamps| && s.stamps[out[i]] < s.now)
        || (exists x :: 0 <= x < |s.inProgress| == |s.stamps| && s.inProgress[x] && s.stamps[x] < s.now))
  }

  lemma {:induction false} RestampedOrder(c: Config, s: State, q: nat)
    requires Sound(c, s) && InOrder(s) && q in s.waiting && q in s.lists.outstanding && !Overtakes(s, q)
    ensures InOrder(Flushed(c, s, q))
  {
    OutstandingSlots(s.lists, c.slots);
    OneDelayedElsewhere(c, s, q);
  }

  /** An outstanding query is not in progress. */
  lemma {:induction false} OneDelayedElsewhere(c: Config, s: State, q: nat)
    requires Sound(c, s) && q in s.lists.outstanding
    ensures q < c.slots && !s.inProgress[q]
  {
    OutstandingSlots(s.lists, c.slots);
    PartitionMembers(s.lists, Slots(c.slots));
  }

  lemma {:induction false} OvertakenOrder(c: Config, s: State, q: nat)
    requires Sound(c, s) && q in s.waiting && Overtakes(s, q)
    ensures !InOrder(Flushed(c, s, q))
  {
    var out, s' := s.lists.outstanding, Flushed(c, s, q);
    OneDelayedElsewhere(c, s, q);
    if i, j :| 0 <= i < j < |out| && out[j] == q && out[i] < |s.stamps| && s.stamps[out[i]] < s.now {
      assert out[i] != q && s'.stamps[out[i]] < s'.stamps[out[j]];
    } else {
      var x :| 0 <= x < |s.inProgress| && s.inProgress[x] && s.stamps[x] < s.now;
      var k :| 0 <= k < |out| && out[k] == q;
      assert !(s'.stamps[out[k]] <= s'.stamps[x]);
    }
  }

  /** While the list is newest first, a step leaves it so exactly when it lets no query overtake another. */
  lemma {:induction false} OrderIffNoneOvertakes(c: Config, s: State, step: Step)
    requires Inv(c, s) && !s.restamped && Enabled(c, s, step)
    ensures Inv(c, Next(c, s, step))
    ensures InOrder(Next(c, s, step)) <==> !(step.NetSent? && Overtakes(s, step.q))
  {
    StepKeepsInv(c, s, step);
    if step.NetSent? && step.q in s.lists.outstanding {
      if Overtakes(s, step.q) { OvertakenOrder(c, s, step.q); } else { RestampedOrder(c, s, step.q); }
    } else {
      OnlyRestampSets(c, s, step);
    }
  }

  lemma {:induction false} OnlyRestampSets(c: Config, s: State, step: Step)
    requires Inv(c, s) && Enabled(c, s, step) && !(step.NetSent? && step.q in s.lists.outstanding)
    ensures Next(c, s, step).restamped == s.restamped
  {
    if step == RetireAll { RetireLeaves(c, s); }
  }

  /** A response lands on the slot whose query had its ID and went out on its socket. */
  lemma {:induction false} ResponseFindsSlot(c: Config, s: State, q: nat, failed: bool)
    requires Inv(c, s) && q in s.lists.outstanding
    ensures q < c.slots && Qid(q, c.nsocks) < 65536 && Sock(q, c.nsocks) < c.nsocks
    ensures var s' := Response(c, s, Sock(q, c.nsocks), Qid(q, c.nsocks), failed);
            && s'.n.received == s.n.received + 1
            && s'.lists == Pair(s.lists.unused + [q], Without(s.lists.outstanding, q))
  {
    LandLists(s.lists, q, c.slots);
    SlotFound(q, c.nsocks);
  }

  // ---- A run in which an outstanding query is restamped ----

  lemma {:induction false} RunAppend(c: Config, s: State, steps: seq<Step>, s': State, step: Step)
    requires Inv(c, s) && Run(c, s, steps, s')
    requires (RunKeepsInv(c, s, steps, s'); Enabled(c, s', step))
    ensures Inv(c, s') && Run(c, s, steps + [step], Next(c, s', step))
    decreases |steps|
  {
    RunKeepsInv(c, s, steps, s');
    if steps == [] {
      StepKeepsInv(c, s, step);
      assert ([step])[1..] == [];
    } else {
      StepKeepsInv(c, s, steps[0]);
      RunAppend(c, Next(c, s, steps[0]), steps[1..], s', step);
      assert (steps + [step])[1..] == steps[1..] + [step];
    }
  }

  lemma {:induction false} Extend(c: Config, s0: State, steps: seq<Step>, s: State, step: Step)
    requires Inv(c, s0) && Run(c, s0, steps, s)
    requires (RunKeepsInv(c, s0, steps, s); Enabled(c, s, step))
    ensures Inv(c, s) && Run(c, s0, steps + [step], Next(c, s, step)) && Inv(c, Next(c, s, step))
  {
    RunAppend(c, s0, steps, s, step);
    RunKeepsInv(c, s0, steps + [step], Next(c, s, step));
  }

  /** Two slots on two sockets, at time 10. */
  ghost predicate TwoSlots(c: Config, s0: State) {
    Init(c, s0) && c.slots == 2 && c.nsocks == 2 && s0.now == 10
  }

  /** The first query is delayed. */
  lemma {:induction false} FirstDelayed(c: Config, s0: State) returns (steps: seq<Step>, s: State)
    requires TwoSlots(c, s0)
    ensures Inv(c, s0) && Run(c, s0, steps, s) && Inv(c, s)
    ensures s.lists == Pair([0, 1], []) && s.inProgress == [true, false] && s.stamps[0] == 10 && s.waiting == {0}
    ensures s.now == 10 && s.t == s0.t
  {
    InitInv(c, s0);
    assert s0.lists == Pair([0, 1], []) && s0.inProgress == [false, false];
    Extend(c, s0, [], s0, Send(Delayed));
    steps, s := [] + [Send(Delayed)], Next(c, s0, Send(Delayed));
  }

  /** At time 20 sockready answers 0, which is taken to mean that it was sent. */
  lemma {:induction false} FirstMoved(c: Config, s0: State) returns (steps: seq<Step>, s: State)
    requires TwoSlots(c, s0)
    ensures Inv(c, s0) && Run(c, s0, steps, s) && Inv(c, s)
    ensures s.lists == Pair([1], [0]) && s.inProgress == [false, false] && s.stamps[0] == 10 && s.waiting == {0}
    ensures s.now == 20 && s.t == s0.t
  {
    steps, s := FirstDelayed(c, s0);
    Extend(c, s0, steps, s, Tick(20));
    steps, s := steps + [Tick(20)], Next(c, s, Tick(20));
    Extend(c, s0, steps, s, Finish);
    steps, s := steps + [Finish], Next(c, s, Finish);
  }

  /** Until its message goes out it is outstanding in a bucket that has not counted it. */
  lemma {:induction false} MissingFromItsBucket(c: Config, s0: State) returns (steps: seq<Step>, s: State)
    requires TwoSlots(c, s0)
    ensures Inv(c, s0) && Run(c, s0, steps, s) && Inv(c, s)
    ensures !TalliedIn(s.t, Ahead(s), s.lists.outstanding, Tags(c, s.stamps), BucketOf(c, 10))
  {
    steps, s := FirstMoved(c, s0);
    CountOne(0, Tags(c, s.stamps), BucketOf(c, 10));
  }

  /** The second query is sent on the other socket. */
  lemma {:induction false} SecondSent(c: Config, s0: State) returns (steps: seq<Step>, s: State)
    requires TwoSlots(c, s0)
    ensures Inv(c, s0) && Run(c, s0, steps, s) && Inv(c, s)
    ensures s.lists == Pair([], [1, 0]) && s.stamps == [10, 20] && s.waiting == {0} && s.now == 20
  {
    steps, s := FirstMoved(c, s0);
    WithoutStranger([0], 1);
    Extend(c, s0, steps, s, Send(Sent));
    steps, s := steps + [Send(Sent)], Next(c, s, Send(Sent));
    assert s.lists.outstanding == [1, 0];
  }

  /** At time 30 the first message goes out, and its query gets a new stamp behind the second. */
  lemma {:induction false} FirstRestamped(c: Config, s0: State) returns (steps: seq<Step>, s: State)
    requires TwoSlots(c, s0)
    ensures Inv(c, s0) && Run(c, s0, steps, s) && Inv(c, s)
    ensures s.lists == Pair([], [1, 0]) && s.stamps == [30, 20] && s.now == 30 && s.restamped
  {
    steps, s := SecondSent(c, s0);
    Extend(c, s0, steps, s, Tick(30));
    steps, s := steps + [Tick(30)], Next(c, s, Tick(30));
    Extend(c, s0, steps, s, NetSent(0));
    steps, s := steps + [NetSent(0)], Next(c, s, NetSent(0));
  }

  /** When the second query has expired it is not retired, as the first, at the tail, has not. */
  lemma {:induction false} ExpiredQueryStays(c: Config, s0: State) returns (steps: seq<Step>, s: State)
    requires TwoSlots(c, s0)
    ensures Inv(c, s0) && Run(c, s0, steps, s) && Inv(c, s)
    ensures s.lists.outstanding == [1, 0] && ExpiredAt([1, 0], s.stamps, 0, s.now, c.timeout)
    ensures RetireExpiredTail(c, s).lists.outstanding == [1, 0]
  {
    steps, s := FirstRestamped(c, s0);
    var later := 20 + c.timeout;
    if later >= 30 {
      Extend(c, s0, steps, s, Tick(later));
      steps, s := steps + [Tick(later)], Next(c, s, Tick(later));
    }
  }
}
