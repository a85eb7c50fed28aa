/** How dnsperf splits its limits over threads and holds each thread to its rate (src/dnsperf.c). */
module RateLimit {
  import opened CInt

  const MILLION: nat := 1_000_000

  /** per_thread, on 32-bit values: `value * nthreads` cannot exceed `total`. */
  function PerThread(total: nat, nthreads: nat, offset: nat): nat
    requires nthreads > 0
  {
    var value := Div(total, nthreads);
    var tempTotal := Times(value, nthreads);
    if tempTotal < total && offset < total - tempTotal then value + 1 else value
  }

  /** The clamps on the number of threads in setup. */
  function Threads(threads: nat, maxQps: nat, clients: nat): nat {
    var limited := if maxQps > 0 && threads > maxQps then maxQps else threads;
    if limited > clients then clients else limited
  }

  /** The shares of the first n threads. */
  ghost function Shares(total: nat, nthreads: nat, n: nat): nat
    requires nthreads > 0
  {
    if n == 0 then 0 else Shares(total, nthreads, n - 1) + PerThread(total, nthreads, n - 1)
  }

  lemma {:induction false} SharesSoFar(total: nat, nthreads: nat, n: nat)
    requires nthreads > 0 && n <= nthreads
    ensures Shares(total, nthreads, n)
            == Times(n, Div(total, nthreads)) + if n < Mod(total, nthreads) then n else Mod(total, nthreads)
  {
    DivMod(total, nthreads);
    if n > 0 { SharesSoFar(total, nthreads, n - 1); }
  }

  /** The shares add up to the total. */
  lemma {:induction false} SharesSumToTotal(total: nat, nthreads: nat)
    requires nthreads > 0
    ensures Shares(total, nthreads, nthreads) == total
  {
    SharesSoFar(total, nthreads, nthreads);
    DivMod(total, nthreads);
    TimesCommutes(nthreads, Div(total, nthreads));
  }

  /** After the clamps every thread has a positive share of a rate limit, so none runs unlimited. */
  lemma {:induction false} EveryShareIsPositive(threads: nat, maxQps: nat, clients: nat, offset: nat)
    requires threads > 0 && clients > 0 && maxQps > 0
    ensures 0 < Threads(threads, maxQps, clients) <= clients
    ensures PerThread(maxQps, Threads(threads, maxQps, clients), offset) > 0
  {
  }

  /** The number of threads is the smallest of what was asked for, the clients and the rate, if there is one. */
  lemma {:induction false} ThreadsIsLeast(threads: nat, maxQps: nat, clients: nat)
    ensures var n := Threads(threads, maxQps, clients);
            && n <= threads && n <= clients && (maxQps > 0 ==> n <= maxQps)
            && (n == threads || n == clients || (maxQps > 0 && n == maxQps))
  {
  }

  /** The first threads have the larger shares, and no two differ by more than one. */
  lemma {:induction false} SharesAreEven(total: nat, nthreads: nat, i: nat, j: nat)
    requires nthreads > 0 && i <= j
    ensures PerThread(total, nthreads, j) <= PerThread(total, nthreads, i) <= PerThread(total, nthreads, j) + 1
  {
  }

  /**
   * The rate limiting state of one sending thread. The last ones are history: queries sent, seconds
   * begun, when the current one was begun and how many turns were given in it.
   */
  datatype Limiter = Limiter(
    maxQps: nat,
    start: nat,
    now: nat,
    qSlice: nat,
    reqTime: nat,
    qSent: nat,
    total: nat,
    slices: nat,
    begun: nat,
    turns: nat)

  function Begin(maxQps: nat, now: nat): Limiter {
    Limiter(maxQps, now, now, now + MILLION, now, 0, 0, 1, now, 0)
  }

  /** What the limiting code decides at the top of an iteration. */
  datatype Decision = Go | SliceFull(waitUs: int) | TooEarly(waitUs: int)

  function NewSlice(l: Limiter): Limiter {
    if l.qSlice <= l.now then
      l.(qSlice := l.qSlice + MILLION, qSent := 0, reqTime := l.now, slices := l.slices + 1, begun := l.now, turns := 0)
    else l
  }

  /** The block headed "Rate limiting", for a thread that has a limit. */
  function Decide(l: Limiter): (Limiter, Decision)
    requires l.maxQps > 0
  {
    var l1 := NewSlice(l);
    if l1.qSent >= l1.maxQps then (l1, SliceFull(l1.qSlice - l1.now))
    else if l1.reqTime > l1.now then (l1, TooEarly(l1.reqTime - l1.now))
    else (l1.(reqTime := l1.reqTime + Div(MILLION, l1.maxQps), turns := l1.turns + 1), Go)
  }

  datatype Event =
    | Tick(now: nat)      // the clock is read again
    | Iterate(sent: bool) // one iteration; `sent` says whether a query was counted, if one may be

  ghost predicate Possible(l: Limiter, e: Event) {
    && l.maxQps > 0
    && (e.Tick? ==> e.now >= l.now)
    && (e.Iterate? && e.sent ==> Decide(l).1 == Go)
  }

  ghost function After(l: Limiter, e: Event): Limiter
    requires Possible(l, e)
  {
    match e
    case Tick(now) => l.(now := now)
    case Iterate(sent) =>
      var l1 := Decide(l).0;
      if sent then l1.(qSent := l1.qSent + 1, total := l1.total + 1) else l1
  }

  ghost predicate Inv(l: Limiter) {
    && l.maxQps > 0 && l.slices > 0
    && l.qSlice == l.start + MILLION * l.slices
    && l.start + MILLION * (l.slices - 1) <= l.now
    && l.qSent <= l.maxQps
    && l.total <= Times(l.slices - 1, l.maxQps) + l.qSent
    && l.reqTime == DueAt(l)
  }

  /** When the next turn of the current second is due: as many steps of 1/maxQps after it was begun as turns were given. */
  ghost function DueAt(l: Limiter): nat
    requires l.maxQps > 0
  {
    l.begun + Times(l.turns, Div(1_000_000, l.maxQps))
  }

  /** A turn is given exactly when a second begins, or one is due and the second's queries are not all sent. */
  lemma {:induction false} TurnIff(l: Limiter)
    requires Inv(l)
    ensures Decide(l).1 ==
            if l.qSlice <= l.now then Go
            else if l.qSent >= l.maxQps then SliceFull(l.qSlice - l.now)
            else if DueAt(l) > l.now then TooEarly(DueAt(l) - l.now)
            else Go
  {
  }

  lemma {:induction false} TimesNext(n: nat, step: nat)
    ensures Times(n + 1, step) == Times(n, step) + step && Times(0, step) == 0
  {
  }

  lemma {:induction false} EventKeepsInv(l: Limiter, e: Event)
    requires Inv(l) && Possible(l, e)
    ensures Inv(After(l, e)) && After(l, e).maxQps == l.maxQps && After(l, e).start == l.start
  {
    TimesNext(l.turns, Div(MILLION, l.maxQps));
    TimesNext(0, Div(MILLION, l.maxQps));
  }

  /** A thread begins with a turn, in a second that begins then. */
  lemma {:induction false} BeginsWithATurn(maxQps: nat, now: nat)
    requires maxQps > 0
    ensures Inv(Begin(maxQps, now)) && Decide(Begin(maxQps, now)).1 == Go
    ensures Begin(maxQps, now).begun == now && Begin(maxQps, now).qSlice == now + 1_000_000
  {
  }

  /** The waits are never computed by a subtraction that wraps. */
  lemma {:induction false} WaitsNeverWrap(l: Limiter)
    requires Inv(l)
    ensures Decide(l).1.SliceFull? ==> 0 < Decide(l).1.waitUs <= MILLION
    ensures Decide(l).1.TooEarly? ==> 0 < Decide(l).1.waitUs
  {
  }

  ghost predicate Run(l: Limiter, events: seq<Event>, l': Limiter)
    decreases |events|
  {
    if events == [] then l' == l else Possible(l, events[0]) && Run(After(l, events[0]), events[1..], l')
  }

  lemma {:induction false} RunKeepsInv(l: Limiter, events: seq<Event>, l': Limiter)
    requires Inv(l) && Run(l, events, l')
    ensures Inv(l') && l'.maxQps == l.maxQps && l'.start == l.start
    decreases |events|
  {
    if events != [] {
      EventKeepsInv(l, events[0]);
      RunKeepsInv(After(l, events[0]), events[1..], l');
    }
  }

  /** Seconds begun between two times. */
  function SecondsBegun(start: nat, now: nat): nat { if now < start then 0 else (now - start) / MILLION + 1 }

  /** A thread has sent at most its rate for every second begun. */
  lemma {:induction false} ThreadRate(maxQps: nat, start: nat, events: seq<Event>, l: Limiter)
    requires maxQps > 0 && Run(Begin(maxQps, start), events, l)
    ensures l.now >= start && l.total <= Times(SecondsBegun(start, l.now), maxQps)
  {
    RunKeepsInv(Begin(maxQps, start), events, l);
    assert l.slices - 1 <= (l.now - start) / MILLION;
    TimesMono(l.slices, SecondsBegun(start, l.now), maxQps);
  }

  /** One run for every thread: from its share of the rate and its start to its limiter now. */
  datatype ThreadRun = ThreadRun(start: nat, events: seq<Event>, limiter: Limiter)

  ghost predicate ThreadsAt(ts: seq<ThreadRun>, maxQps: nat, start: nat, now: nat) {
    && 0 < |ts| <= maxQps
    && forall i :: 0 <= i < |ts| ==>
         && start <= ts[i].start && ts[i].limiter.now <= now
         && Run(Begin(PerThread(maxQps, |ts|, i), ts[i].start), ts[i].events, ts[i].limiter)
  }

  ghost function TotalSent(ts: seq<ThreadRun>, n: nat): nat
    requires n <= |ts|
  {
    if n == 0 then 0 else TotalSent(ts, n - 1) + ts[n - 1].limiter.total
  }

  lemma {:induction false} TotalBound(ts: seq<ThreadRun>, maxQps: nat, start: nat, now: nat, n: nat)
    requires ThreadsAt(ts, maxQps, start, now) && n <= |ts|
    ensures TotalSent(ts, n) <= Times(SecondsBegun(start, now), Shares(maxQps, |ts|, n))
  {
    if n > 0 {
      TotalBound(ts, maxQps, start, now, n - 1);
      var t, share := ts[n - 1], PerThread(maxQps, |ts|, n - 1);
      ThreadRate(share, t.start, t.events, t.limiter);
      TimesMono(SecondsBegun(t.start, t.limiter.now), SecondsBegun(start, now), share);
      TimesSum(SecondsBegun(start, now), Shares(maxQps, |ts|, n - 1), share);
    }
  }

  lemma {:induction false} TimesSum(a: nat, b: nat, c: nat)
    ensures Times(a, b + c) == Times(a, b) + Times(a, c)
  {
    if a > 0 { TimesSum(a - 1, b, c); }
  }

  /** All threads together keep to the requested rate. */
  lemma {:induction false} OverallRate(ts: seq<ThreadRun>, maxQps: nat, start: nat, now: nat)
    requires ThreadsAt(ts, maxQps, start, now) && start <= now
    ensures TotalSent(ts, |ts|) <= maxQps * ((now - start) / MILLION + 1)
  {
    TotalBound(ts, maxQps, start, now, |ts|);
    SharesSumToTotal(maxQps, |ts|);
    TimesIs(SecondsBegun(start, now), maxQps);
  }
}
