/**
 * Any number of threads inside add_key_count (src/ext/hg64.c) at once. Each atomic access is one
 * step: loading the bin pointer, allocating a zeroed bin, the compare-and-exchange that installs
 * it (or frees it when another thread was first), and the fetch-and-add. Allocation may hand out
 * any address not in use, including one freed before.
 */
module Hg64Race {
  import opened CInt
  import opened Hg64Keys
  import Hg64

  type Address = nat

  datatype Pointer = Null | Ptr(at: Address)

  /** Where a thread is in add_key_count(key, inc). */
  datatype Thread =
    | Idle
    | Entered(key: nat, inc: nat)                 // about to load the bin pointer
    | Missing(key: nat, inc: nat)                 // loaded NULL, about to allocate
    | Racing(key: nat, inc: nat, mine: Address)  // holds a new bin, about to exchange
    | Adding(key: nat, inc: nat, block: Address)  // has a counter, about to add

  /**
   * The shared histogram, its heap of bins, and the threads. `installs` and `added` are history:
   * the bins installed and the increments made, in order.
   */
  datatype State = State(
    bins: seq<Pointer>,
    heap: map<Address, seq<nat>>,
    threads: seq<Thread>,
    installs: seq<nat>,
    added: seq<(nat, nat)>)

  datatype Action =
    | Call(thread: nat, key: nat, inc: nat)
    | Load(thread: nat)
    | Allocate(thread: nat, at: Address)
    | Exchange(thread: nat)
    | FetchAdd(thread: nat)

  ghost predicate Init(s: nat, st: State) {
    && ValidSigbits(s)
    && |st.bins| == 64
    && (forall b :: 0 <= b < 64 ==> st.bins[b] == Null)
    && st.heap == map[]
    && (forall i :: 0 <= i < |st.threads| ==> st.threads[i] == Idle)
    && st.installs == [] && st.added == []
  }

  /** What a thread may do next; the C code gives it no other choice. */
  ghost predicate Enabled(s: nat, st: State, a: Action)
    requires ValidSigbits(s)
  {
    && a.thread < |st.threads|
    && var t := st.threads[a.thread];
       match a
       case Call(_, key, inc) => t.Idle? && key < Keys(s) && 0 < inc < TWO_64
       case Load(_) => t.Entered?
       case Allocate(_, at) => t.Missing? && at !in st.heap
       case Exchange(_) => t.Racing?
       case FetchAdd(_) => t.Adding?
  }

  function BinOf(s: nat, key: nat): nat
    requires ValidSigbits(s) && key < Keys(s)
  {
    Hg64.Slot(s, key).0
  }

  function PlaceOf(s: nat, key: nat): nat
    requires ValidSigbits(s) && key < Keys(s)
  {
    Hg64.Slot(s, key).1
  }

  /** A thread's footing in the shared state. */
  ghost predicate ThreadOk(s: nat, st: State, t: Thread)
    requires ValidSigbits(s) && |st.bins| == 64
  {
    match t
    case Idle => true
    case Entered(key, inc) => key < Keys(s) && inc < TWO_64
    case Missing(key, inc) => key < Keys(s) && inc < TWO_64
    case Racing(key, inc, mine) =>
      && key < Keys(s) && inc < TWO_64
      && mine in st.heap
      && st.heap[mine] == Zeros(s)
      && forall b :: 0 <= b < 64 ==> st.bins[b] != Ptr(mine)
    case Adding(key, inc, block) =>
      key < Keys(s) && inc < TWO_64 && st.bins[BinOf(s, key)] == Ptr(block)
  }

  function Zeros(s: nat): seq<nat> { seq(BinSize(s), _ => 0) }

  /** The invariant of every run. */
  ghost predicate Inv(s: nat, st: State) {
    && ValidSigbits(s)
    && |st.bins| == 64
    && (forall i :: 0 <= i < |st.threads| ==> ThreadOk(s, st, st.threads[i]))
    && (forall i, j :: 0 <= i < j < |st.threads| && st.threads[i].Racing? && st.threads[j].Racing? ==>
          st.threads[i].mine != st.threads[j].mine)
    && (forall b :: 0 <= b < 64 && st.bins[b].Ptr? ==>
          st.bins[b].at in st.heap && |st.heap[st.bins[b].at]| == BinSize(s))
    && (forall b, c :: 0 <= b < c < 64 && st.bins[b].Ptr? ==> st.bins[b] != st.bins[c])
    && (forall b :: 0 <= b < 64 ==> (b in st.installs <==> st.bins[b].Ptr?))
    && (forall i, j :: 0 <= i < j < |st.installs| ==> st.installs[i] != st.installs[j])
    && (forall k :: 0 <= k < |st.added| ==> st.added[k].0 < Keys(s))
    && (forall b, c :: 0 <= b < 64 && 0 <= c < BinSize(s) ==> CounterAt(st, b, c) == SumAt(s, st.added, b, c))
  }

  /** What get_key_count reads: 0 for a bin that does not exist. */
  ghost function CounterAt(st: State, b: nat, c: nat): nat
    requires b < |st.bins|
  {
    if st.bins[b].Ptr? && st.bins[b].at in st.heap && c < |st.heap[st.bins[b].at]| then st.heap[st.bins[b].at][c] else 0
  }

  /** The increments made to one counter, to 64 bits. */
  ghost function SumAt(s: nat, added: seq<(nat, nat)>, b: nat, c: nat): nat
    requires ValidSigbits(s) && forall k :: 0 <= k < |added| ==> added[k].0 < Keys(s)
  {
    if added == [] then 0
    else
      var (key, inc) := added[|added| - 1];
      var before := SumAt(s, added[..|added| - 1], b, c);
      if Hg64.Slot(s, key) == (b, c) then U64(before + inc) else before
  }

  /** One step. An exchange that loses frees its block and goes on with the winner's. */
  ghost function Apply(s: nat, st: State, a: Action): State
    requires Inv(s, st) && Enabled(s, st, a)
  {
    var i := a.thread;
    var t := st.threads[i];
    match a
    case Call(_, key, inc) => st.(threads := st.threads[i := Entered(key, inc)])
    case Load(_) =>
      var p := st.bins[BinOf(s, t.key)];
      st.(threads := st.threads[i := if p == Null then Missing(t.key, t.inc) else Adding(t.key, t.inc, p.at)])
    case Allocate(_, at) =>
      st.(threads := st.threads[i := Racing(t.key, t.inc, at)], heap := st.heap[at := Zeros(s)])
    case Exchange(_) =>
      var b := BinOf(s, t.key);
      if st.bins[b] == Null then
        st.(threads := st.threads[i := Adding(t.key, t.inc, t.mine)], bins := st.bins[b := Ptr(t.mine)],
            installs := st.installs + [b])
      else
        st.(threads := st.threads[i := Adding(t.key, t.inc, st.bins[b].at)], heap := st.heap - {t.mine})
    case FetchAdd(_) =>
      var counters := st.heap[t.block];
      var c := PlaceOf(s, t.key);
      var raised: seq<nat> := counters[c := U64(counters[c] + t.inc)];
      st.(threads := st.threads[i := Idle],
          heap := st.heap[t.block := raised],
          added := st.added + [(t.key, t.inc)])
  }

  lemma {:induction false} InitInv(s: nat, st: State)
    requires Init(s, st)
    ensures Inv(s, st)
  {
  }

  lemma {:induction false} CallKeepsInv(s: nat, st: State, a: Action)
    requires Inv(s, st) && Enabled(s, st, a) && (a.Call? || a.Load?)
    ensures Inv(s, Apply(s, st, a))
  {
    var st' := Apply(s, st, a);
    forall j | 0 <= j < |st'.threads|
      ensures ThreadOk(s, st', st'.threads[j])
    {
      assert ThreadOk(s, st, st.threads[j]);
    }
    assert forall b, c :: 0 <= b < 64 && 0 <= c < BinSize(s) ==> CounterAt(st', b, c) == CounterAt(st, b, c);
  }

  lemma {:induction false} AllocateKeepsInv(s: nat, st: State, a: Action)
    requires Inv(s, st) && Enabled(s, st, a) && a.Allocate?
    ensures Inv(s, Apply(s, st, a))
  {
    var st' := Apply(s, st, a);
    forall j | 0 <= j < |st'.threads|
      ensures ThreadOk(s, st', st'.threads[j])
    {
      assert ThreadOk(s, st, st.threads[j]);
    }
    assert forall b, c :: 0 <= b < 64 && 0 <= c < BinSize(s) ==> CounterAt(st', b, c) == CounterAt(st, b, c);
  }

  lemma {:induction false} ExchangeKeepsInv(s: nat, st: State, a: Action)
    requires Inv(s, st) && Enabled(s, st, a) && a.Exchange?
    ensures Inv(s, Apply(s, st, a))
  {
    var st' := Apply(s, st, a);
    var t := st.threads[a.thread];
    assert ThreadOk(s, st, t);
    forall j | 0 <= j < |st'.threads|
      ensures ThreadOk(s, st', st'.threads[j])
    {
      assert ThreadOk(s, st, st.threads[j]);
    }
    forall b, c | 0 <= b < 64 && 0 <= c < BinSize(s)
      ensures CounterAt(st', b, c) == CounterAt(st, b, c)
    {
    }
  }

  lemma {:induction false} FetchAddKeepsInv(s: nat, st: State, a: Action)
    requires Inv(s, st) && Enabled(s, st, a) && a.FetchAdd?
    ensures Inv(s, Apply(s, st, a))
  {
    var st' := Apply(s, st, a);
    var t := st.threads[a.thread];
    assert ThreadOk(s, st, t);
    forall j | 0 <= j < |st'.threads|
      ensures ThreadOk(s, st', st'.threads[j])
    {
      assert ThreadOk(s, st, st.threads[j]);
    }
    assert st'.added[..|st'.added| - 1] == st.added;
    forall b, c | 0 <= b < 64 && 0 <= c < BinSize(s)
      ensures CounterAt(st', b, c) == SumAt(s, st'.added, b, c)
    {
      assert CounterAt(st, b, c) == SumAt(s, st.added, b, c);
    }
  }

  lemma {:induction false} StepKeepsInv(s: nat, st: State, a: Action)
    requires Inv(s, st) && Enabled(s, st, a)
    ensures Inv(s, Apply(s, st, a))
  {
    match a
    case Call(_, _, _) => CallKeepsInv(s, st, a);
    case Load(_) => CallKeepsInv(s, st, a);
    case Allocate(_, _) => AllocateKeepsInv(s, st, a);
    case Exchange(_) => ExchangeKeepsInv(s, st, a);
    case FetchAdd(_) => FetchAddKeepsInv(s, st, a);
  }

  /**
   * A run: every state follows from the one before by an enabled step. After a state outside the
   * invariant anything might follow; RunKeepsInv shows that there is none.
   */
  ghost predicate Run(s: nat, states: seq<State>, actions: seq<Action>) {
    && |states| == |actions| + 1
    && Init(s, states[0])
    && forall i :: 0 <= i < |actions| ==> StepOf(s, states[i], actions[i], states[i + 1])
  }

  ghost predicate StepOf(s: nat, st: State, a: Action, st': State) {
    ValidSigbits(s) && Enabled(s, st, a) && (Inv(s, st) ==> st' == Apply(s, st, a))
  }

  lemma {:induction false} RunKeepsInv(s: nat, states: seq<State>, actions: seq<Action>, n: nat)
    requires Run(s, states, actions) && n < |states|
    ensures Inv(s, states[n])
  {
    if n == 0 {
      InitInv(s, states[0]);
    } else {
      RunKeepsInv(s, states, actions, n - 1);
      assert StepOf(s, states[n - 1], actions[n - 1], states[n]);
      StepKeepsInv(s, states[n - 1], actions[n - 1]);
    }
  }

  /** The histogram as Hg64 sees it. */
  ghost function View(s: nat, st: State): (bins: seq<Hg64.Bin>)
    requires Inv(s, st)
    ensures |bins| == 64
  {
    seq(64, b requires 0 <= b < 64 => if st.bins[b] == Null then Hg64.Absent else Hg64.Counters(st.heap[st.bins[b].at]))
  }

  /** The table that adding the increments one after the other would give. */
  ghost function AddAll(s: nat, added: seq<(nat, nat)>): (t: seq<nat>)
    requires ValidSigbits(s) && forall k :: 0 <= k < |added| ==> added[k].0 < Keys(s)
    ensures |t| == Keys(s)
  {
    if added == [] then seq(Keys(s), _ => 0)
    else
      var (key, inc) := added[|added| - 1];
      var before := AddAll(s, added[..|added| - 1]);
      before[key := U64(before[key] + inc)]
  }

  lemma {:induction false} SumIsTable(s: nat, added: seq<(nat, nat)>, key: nat)
    requires ValidSigbits(s) && (forall k :: 0 <= k < |added| ==> added[k].0 < Keys(s)) && key < Keys(s)
    ensures AddAll(s, added)[key] == SumAt(s, added, BinOf(s, key), PlaceOf(s, key))
  {
    if added != [] { SumIsTable(s, added[..|added| - 1], key); }
  }

  lemma {:induction false} SumFits(s: nat, added: seq<(nat, nat)>, b: nat, c: nat)
    requires ValidSigbits(s) && forall k :: 0 <= k < |added| ==> added[k].0 < Keys(s)
    ensures SumAt(s, added, b, c) < TWO_64
  {
    if added != [] { SumFits(s, added[..|added| - 1], b, c); }
  }

  lemma {:induction false} ViewIsValid(s: nat, st: State)
    requires Inv(s, st)
    ensures Hg64.ValidBins(s, View(s, st))
  {
    forall b, c | 0 <= b < 64 && st.bins[b].Ptr? && 0 <= c < BinSize(s)
      ensures st.heap[st.bins[b].at][c] < TWO_64
    {
      assert CounterAt(st, b, c) == SumAt(s, st.added, b, c);
      SumFits(s, st.added, b, c);
    }
    var bins := View(s, st);
    forall b | 0 <= b < 64
      ensures Hg64.ValidBin(s, bins[b])
    {
    }
  }

  /**
   * In every state of every run each bin pointer has been installed at most once, and the
   * histogram is exactly what the completed increments give one after the other: losing the
   * exchange loses no count, and no freed block is ever touched.
   */
  lemma {:induction false} NoCountLost(s: nat, states: seq<State>, actions: seq<Action>, n: nat)
    requires Run(s, states, actions) && n < |states|
    ensures Inv(s, states[n]) && Hg64.ValidBins(s, View(s, states[n]))
    ensures Hg64.Table(s, View(s, states[n])) == AddAll(s, states[n].added)
    ensures forall i, j :: 0 <= i < j < |states[n].installs| ==> states[n].installs[i] != states[n].installs[j]
  {
    var st := states[n];
    RunKeepsInv(s, states, actions, n);
    ViewIsValid(s, st);
    forall key | 0 <= key < Keys(s)
      ensures Hg64.CountIn(s, View(s, st), key) == AddAll(s, st.added)[key]
    {
      SumIsTable(s, st.added, key);
      assert CounterAt(st, BinOf(s, key), PlaceOf(s, key)) == SumAt(s, st.added, BinOf(s, key), PlaceOf(s, key));
    }
  }

  // ---- Every call is counted ----

  /** What the calls among the actions were to add. */
  ghost function Called(actions: seq<Action>): seq<(nat, nat)> {
    if actions == [] then []
    else
      var a := actions[|actions| - 1];
      Called(actions[..|actions| - 1]) + if a.Call? then [(a.key, a.inc)] else []
  }

  /** What a thread has still to add. */
  function Owed(t: Thread): multiset<(nat, nat)> { if t.Idle? then multiset{} else multiset{(t.key, t.inc)} }

  ghost function AllOwed(threads: seq<Thread>): multiset<(nat, nat)> {
    if threads == [] then multiset{} else AllOwed(threads[..|threads| - 1]) + Owed(threads[|threads| - 1])
  }

  /** Two sums of bags that agree still do with the same bag added to both. */
  lemma {:induction false} BothWith<T>(a: multiset<T>, b: multiset<T>, c: multiset<T>, d: multiset<T>, e: multiset<T>)
    requires a + b == c + d
    ensures a + e + b == c + e + d
  {
    forall x: T
      ensures (a + e + b)[x] == (c + e + d)[x]
    {
      assert (a + b)[x] == (c + d)[x];
    }
  }

  lemma {:induction false} OwedAfter(threads: seq<Thread>, i: nat, t: Thread)
    requires i < |threads|
    ensures AllOwed(threads[i := t]) + Owed(threads[i]) == AllOwed(threads) + Owed(t)
  {
    var n := |threads| - 1;
    if i < n {
      OwedAfter(threads[..n], i, t);
      assert threads[i := t][..n] == threads[..n][i := t];
      BothWith(AllOwed(threads[..n][i := t]), Owed(threads[i]), AllOwed(threads[..n]), Owed(t), Owed(threads[n]));
    } else {
      assert threads[i := t][..n] == threads[..n];
    }
  }

  lemma {:induction false} NothingOwed(threads: seq<Thread>)
    requires forall i :: 0 <= i < |threads| ==> threads[i] == Idle
    ensures AllOwed(threads) == multiset{}
  {
    if threads != [] { NothingOwed(threads[..|threads| - 1]); }
  }

  function CallOf(a: Action): multiset<(nat, nat)> { if a.Call? then multiset{(a.key, a.inc)} else multiset{} }

  /** A step adds what its thread owes, or leaves it owing, and only a call makes it owe more. */
  lemma {:induction false} StepOwes(s: nat, st: State, a: Action)
    requires Inv(s, st) && Enabled(s, st, a)
    ensures var st' := Apply(s, st, a);
            && |st'.threads| == |st.threads| && st'.threads == st.threads[a.thread := st'.threads[a.thread]]
            && multiset(st'.added) + Owed(st'.threads[a.thread]) == multiset(st.added) + Owed(st.threads[a.thread]) + CallOf(a)
  {
  }

  lemma {:induction false} Carried<T>(added: multiset<T>, added': multiset<T>, all: multiset<T>, all': multiset<T>,
                                      t: multiset<T>, t': multiset<T>, call: multiset<T>)
    requires added' + t' == added + t + call && all' + t == all + t'
    ensures added' + all' == added + all + call
  {
    forall x: T
      ensures (added' + all')[x] == (added + all + call)[x]
    {
      assert (added' + t')[x] == (added + t + call)[x] && (all' + t)[x] == (all + t')[x];
    }
  }

  /** In every state of every run, what was called for has been added, or is owed by a thread that is still at it. */
  lemma {:induction false} CallsAccountedFor(s: nat, states: seq<State>, actions: seq<Action>, n: nat)
    requires Run(s, states, actions) && n < |states|
    ensures multiset(Called(actions[..n])) == multiset(states[n].added) + AllOwed(states[n].threads)
  {
    if n == 0 {
      NothingOwed(states[0].threads);
    } else {
      CallsAccountedFor(s, states, actions, n - 1);
      RunKeepsInv(s, states, actions, n - 1);
      var st, a, st' := states[n - 1], actions[n - 1], states[n];
      assert StepOf(s, st, a, st');
      StepOwes(s, st, a);
      OwedAfter(st.threads, a.thread, st'.threads[a.thread]);
      Carried(multiset(st.added), multiset(st'.added), AllOwed(st.threads), AllOwed(st'.threads),
              Owed(st.threads[a.thread]), Owed(st'.threads[a.thread]), CallOf(a));
      CalledNext(actions, n - 1);
    }
  }

  lemma {:induction false} CalledNext(actions: seq<Action>, n: nat)
    requires n < |actions|
    ensures multiset(Called(actions[..n + 1])) == multiset(Called(actions[..n])) + CallOf(actions[n])
  {
    assert actions[..n + 1][..n] == actions[..n];
  }

  /** The sum of the increments of one key. */
  ghost function SumOf(added: seq<(nat, nat)>, key: nat): nat {
    if added == [] then 0
    else SumOf(added[..|added| - 1], key) + if added[|added| - 1].0 == key then added[|added| - 1].1 else 0
  }

  lemma {:induction false} TableHasSum(s: nat, added: seq<(nat, nat)>, key: nat)
    requires ValidSigbits(s) && (forall k :: 0 <= k < |added| ==> added[k].0 < Keys(s)) && key < Keys(s)
    ensures AddAll(s, added)[key] == U64(SumOf(added, key))
  {
    if added == [] {
      Fits64(0);
    } else {
      TableHasSum(s, added[..|added| - 1], key);
      WrapTwice(SumOf(added[..|added| - 1], key), added[|added| - 1].1);
    }
  }

  lemma {:induction false} SumWithout(added: seq<(nat, nat)>, i: nat, key: nat)
    requires i < |added|
    ensures SumOf(added, key) == SumOf(added[..i] + added[i + 1..], key) + if added[i].0 == key then added[i].1 else 0
  {
    var n := |added| - 1;
    var rest := added[..i] + added[i + 1..];
    if i < n {
      SumWithout(added[..n], i, key);
      assert rest[..|rest| - 1] == added[..n][..i] + added[..n][i + 1..];
      assert rest[|rest| - 1] == added[n] && added[..n][i] == added[i];
    } else {
      assert rest == added[..n];
    }
  }

  /** Taking one element out of a sequence takes it out of the bag. */
  lemma {:induction false} BagWithout<T>(a: seq<T>, i: nat)
    requires i < |a|
    ensures multiset(a[..i] + a[i + 1..]) == multiset(a) - multiset{a[i]}
  {
    assert a == a[..i] + [a[i]] + a[i + 1..];
  }

  /** The order of the increments does not matter. */
  lemma {:induction false} SumOfSame(a: seq<(nat, nat)>, b: seq<(nat, nat)>, key: nat)
    requires multiset(a) == multiset(b)
    ensures SumOf(a, key) == SumOf(b, key)
    decreases |a|
  {
    if a == [] {
      assert |multiset(b)| == 0;
    } else {
      var i := SameBag(a, b);
      SumOfSame(a[..0] + a[1..], b[..i] + b[i + 1..], key);
      SumWithout(a, 0, key);
      SumWithout(b, i, key);
    }
  }

  lemma {:induction false} SameBag<T>(a: seq<T>, b: seq<T>) returns (i: nat)
    requires multiset(a) == multiset(b) && a != []
    ensures i < |b| && b[i] == a[0] && multiset(a[..0] + a[1..]) == multiset(b[..i] + b[i + 1..])
  {
    assert a[0] in multiset(b);
    i :| 0 <= i < |b| && b[i] == a[0];
    BagWithout(a, 0);
    BagWithout(b, i);
  }

  /** Once no thread is inside, every key counts the increments of all the calls that were made for it. */
  lemma {:induction false} EveryCallCounted(s: nat, states: seq<State>, actions: seq<Action>, n: nat, key: nat)
    requires Run(s, states, actions) && n < |states| && key < Keys(s)
    requires forall i :: 0 <= i < |states[n].threads| ==> states[n].threads[i] == Idle
    ensures Inv(s, states[n]) && Hg64.ValidBins(s, View(s, states[n]))
    ensures Hg64.CountIn(s, View(s, states[n]), key) == U64(SumOf(Called(actions[..n]), key))
  {
    NoCountLost(s, states, actions, n);
    CallsAccountedFor(s, states, actions, n);
    NothingOwed(states[n].threads);
    TableHasSum(s, states[n].added, key);
    SumOfSame(Called(actions[..n]), states[n].added, key);
    assert Hg64.Table(s, View(s, states[n]))[key] == Hg64.CountIn(s, View(s, states[n]), key);
  }

  /** Once set, a bin pointer keeps its value for the rest of the run. */
  lemma {:induction false} BinsNeverMove(s: nat, states: seq<State>, actions: seq<Action>, n: nat, n': nat, b: nat)
    requires Run(s, states, actions) && n <= n' < |states| && b < 64
    requires |states[n].bins| == 64 && states[n].bins[b].Ptr?
    ensures |states[n'].bins| == 64 && states[n'].bins[b] == states[n].bins[b]
    decreases n'
  {
    if n < n' {
      BinsNeverMove(s, states, actions, n, n' - 1, b);
      RunKeepsInv(s, states, actions, n' - 1);
      assert StepOf(s, states[n' - 1], actions[n' - 1], states[n']);
    }
  }
}
