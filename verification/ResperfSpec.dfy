/**
 * The run of resperf as steps of its single thread (src/resperf.c): slots on two lists, counters,
 * and one tally for each time bucket. What the network and the clock do is an argument of a step.
 */
module ResperfSpec {
  import opened Lists
  import opened ResperfSlots
  import opened Timeouts
  import CInt

  /** The settings of a run; `slots` is max_outstanding. */
  datatype Config = Config(slots: nat, nsocks: nat, timeout: nat, start: nat, traffic: nat, nBuckets: nat)

  ghost predicate ValidConfig(c: Config) {
    && 0 < c.nsocks < 65536
    && c.slots <= CInt.Times(65536, c.nsocks)
    && c.traffic > 0 && c.nBuckets > 0 && c.timeout > 0
  }

  datatype Counts = Counts(sent: int, outstanding: int, received: int, timedOut: int)

  /** Per bucket: queries, responses and failures as the program has them, and queries retired, which it does not keep. */
  datatype Tally = Tally(queries: seq<nat>, responses: seq<nat>, failures: seq<nat>, retired: seq<nat>)

  /**
   * `lists.unused` is instanding_list, and `waiting` are the slots whose message a transport still holds.
   * The last two are history. `restamped`: a query that was already on outstanding_list was sent only
   * then. `uneven`: a query was moved there before it was sent, or sent when no longer in progress.
   */
  datatype State = State(
    lists: Pair<nat>,
    inProgress: seq<bool>,
    stamps: seq<nat>,
    n: Counts,
    t: Tally,
    now: nat,
    waiting: set<nat>,
    restamped: bool,
    uneven: bool)

  predicate IsSlot(q: nat, slots: nat) { q < slots }

  ghost function Slots(slots: nat): set<nat> { set q | 0 <= q < slots && IsSlot(q, slots) }

  function BucketOf(c: Config, when: nat): (b: nat)
    requires c.nBuckets > 0 && c.traffic > 0
    ensures b < c.nBuckets
  {
    FindBucket(c.nBuckets, c.traffic, c.start, when)
  }

  function Bump(s: seq<nat>, i: nat): seq<nat> { if i < |s| then s[i := s[i] + 1] else s }

  // ---- Invariants ----

  ghost predicate Shape(c: Config, s: State) {
    && ValidConfig(c)
    && |s.inProgress| == |s.stamps| == c.slots
    && |s.t.queries| == |s.t.responses| == |s.t.failures| == |s.t.retired| == c.nBuckets
    && Partition(s.lists, Slots(c.slots))
    && forall q :: q in s.waiting ==> q < c.slots
  }

  /** Every query sent was answered, has timed out or is on the outstanding list. */
  ghost predicate Balanced(s: State) {
    && s.n.sent == s.n.received + s.n.timedOut + s.n.outstanding
    && s.n.outstanding == |s.lists.outstanding|
  }

  /** Only the slot at the head of instanding_list can be in progress. */
  ghost predicate OneDelayed(s: State) {
    forall q :: 0 <= q < |s.inProgress| && s.inProgress[q] ==> s.lists.unused != [] && s.lists.unused[0] == q
  }

  ghost predicate NoneAfter(out: seq<nat>, stamps: seq<nat>, when: nat) {
    forall i :: 0 <= i < |out| && out[i] < |stamps| ==> stamps[out[i]] <= when
  }

  ghost predicate Past(s: State) {
    forall q :: 0 <= q < |s.stamps| ==> s.stamps[q] <= s.now
  }

  /** The outstanding list is newest first, and a delayed query is newer than all of it. */
  ghost predicate InOrder(s: State) {
    && NewestFirst(s.lists.outstanding, s.stamps)
    && (forall q :: 0 <= q < |s.stamps| && q < |s.inProgress| && s.inProgress[q] ==>
          NoneAfter(s.lists.outstanding, s.stamps, s.stamps[q]))
  }

  /** The outstanding queries whose stamp falls in bucket b. */
  ghost function Count(out: seq<nat>, tags: seq<nat>, b: nat): nat {
    if out == [] then 0
    else (if out[0] < |tags| && tags[out[0]] == b then 1 else 0) + Count(out[1..], tags, b)
  }

  ghost function Tags(c: Config, stamps: seq<nat>): seq<nat>
    requires c.nBuckets > 0 && c.traffic > 0
  {
    seq(|stamps|, q requires 0 <= q < |stamps| => BucketOf(c, stamps[q]))
  }

  /** The slot whose delayed message has gone out but which is still at the head of instanding_list, if any. */
  ghost function Ahead(s: State): seq<nat> {
    var u := s.lists.unused;
    if u != [] && u[0] < |s.inProgress| && s.inProgress[u[0]] && u[0] !in s.waiting then [u[0]] else []
  }

  /** In one bucket: all that was sent was answered, was retired or is outstanding, or is about to be. */
  ghost predicate TalliedIn(t: Tally, ahead: seq<nat>, out: seq<nat>, tags: seq<nat>, b: nat)
    requires b < |t.queries| == |t.responses| == |t.retired|
  {
    t.queries[b] == t.responses[b] + t.retired[b] + Count(ahead, tags, b) + Count(out, tags, b)
  }

  ghost predicate Tallied(c: Config, s: State)
    requires Shape(c, s)
  {
    forall b :: 0 <= b < c.nBuckets ==> TalliedIn(s.t, Ahead(s), s.lists.outstanding, Tags(c, s.stamps), b)
  }

  /** What holds whatever the transports do. */
  ghost predicate Sound(c: Config, s: State) {
    Shape(c, s) && Balanced(s) && OneDelayed(s) && Past(s)
  }

  ghost predicate Inv(c: Config, s: State) {
    && Sound(c, s)
    && (!s.restamped ==> InOrder(s))
    && (!s.uneven ==> Tallied(c, s))
  }

  // ---- Steps ----

  datatype Outcome = Sent | Delayed | Lost

  datatype Step =
    | Finish                                     // a delayed send is taken to have gone through
    | NetSent(q: nat)                            // a transport has sent a delayed message
    | Send(outcome: Outcome)                     // a new query, from the head of instanding_list
    | Respond(sock: nat, qid: nat, failed: bool) // a response, expected or not
    | RetireAll                                  // retire_old_queries
    | Tick(now: nat)

  ghost predicate Enabled(c: Config, s: State, step: Step) {
    match step
    case NetSent(q) => q in s.waiting
    case Finish => s.lists.unused != [] && s.lists.unused[0] < |s.inProgress| && s.inProgress[s.lists.unused[0]]
    case Send(_) => s.lists.unused != [] && s.lists.unused[0] < |s.inProgress| && !s.inProgress[s.lists.unused[0]]
    case Respond(sock, qid, _) => sock < c.nsocks && qid < 65536
    case RetireAll => true
    case Tick(now) => now >= s.now
  }

  /** The head of instanding_list becomes the newest outstanding query. */
  function Launch(s: State, q: nat): State {
    s.(lists := Move(s.lists, q, PrependOutstanding),
       n := s.n.(sent := s.n.sent + 1, outstanding := s.n.outstanding + 1))
  }

  /** The end of a delayed send, as do_one_line sees it: sockready returned anything but -1. */
  function FinishSend(s: State): State
    requires s.lists.unused != [] && s.lists.unused[0] < |s.inProgress|
  {
    var q := s.lists.unused[0];
    Launch(s, q).(inProgress := s.inProgress[q := false], uneven := s.uneven || q in s.waiting)
  }

  /** perf__net_sent: the query gets a new stamp and is counted in the bucket of now. */
  function Flushed(c: Config, s: State, q: nat): State
    requires c.nBuckets > 0 && c.traffic > 0 && q < |s.stamps| == |s.inProgress|
  {
    s.(stamps := s.stamps[q := s.now],
       t := s.t.(queries := Bump(s.t.queries, BucketOf(c, s.now))),
       waiting := s.waiting - {q},
       restamped := s.restamped || q in s.lists.outstanding,
       uneven := s.uneven || !s.inProgress[q])
  }

  function SendHead(c: Config, s: State, outcome: Outcome): State
    requires c.nBuckets > 0 && c.traffic > 0
    requires s.lists.unused != [] && s.lists.unused[0] < |s.inProgress| == |s.stamps|
  {
    var q := s.lists.unused[0];
    var stamped := s.(stamps := s.stamps[q := s.now], waiting := s.waiting - {q});
    match outcome
    case Sent => Launch(stamped, q).(t := s.t.(queries := Bump(s.t.queries, BucketOf(c, s.now))))
    case Delayed => stamped.(inProgress := s.inProgress[q := true], waiting := s.waiting + {q})
    case Lost => stamped
  }

  /** The slot goes to the end of instanding_list. */
  function Land(s: State, q: nat): State {
    s.(lists := Move(s.lists, q, AppendUnused), n := s.n.(outstanding := s.n.outstanding - 1))
  }

  function Answered(c: Config, s: State, q: nat, failed: bool): State
    requires c.nBuckets > 0 && c.traffic > 0 && q < |s.stamps|
  {
    var b := BucketOf(c, s.stamps[q]);
    var landed := Land(s, q);
    landed.(n := landed.n.(received := s.n.received + 1),
            t := s.t.(responses := Bump(s.t.responses, b),
                      failures := if failed then Bump(s.t.failures, b) else s.t.failures))
  }

  function Response(c: Config, s: State, sock: nat, qid: nat, failed: bool): State
    requires c.nBuckets > 0 && c.traffic > 0 && |s.stamps| == c.slots
  {
    var q := Index(qid, sock, c.nsocks);
    if q >= c.slots || q !in s.lists.outstanding then s else Answered(c, s, q, failed)
  }

  function RetireTail(c: Config, s: State): State
    requires c.nBuckets > 0 && c.traffic > 0
    requires s.lists.outstanding != [] && Tail(s.lists.outstanding) < |s.stamps|
  {
    var q := Tail(s.lists.outstanding);
    var landed := Land(s, q);
    landed.(n := landed.n.(timedOut := s.n.timedOut + 1),
            t := s.t.(retired := Bump(s.t.retired, BucketOf(c, s.stamps[q]))))
  }
}
