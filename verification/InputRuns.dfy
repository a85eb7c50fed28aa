/**
 * Handing out the items of an input file run after run, as perf_datafile_next does: the item
 * lists only, without files or buffers.
 */
module InputRuns {
  import opened CInt

  type Item = seq<nat>

  datatype Outcome = Next(item: Item) | End | NoData

  /** What is left of the current run, the runs completed, and whether anything was ever read. */
  datatype Feed = Feed(pass: seq<Item>, nruns: nat, readAny: bool)

  /** One call of perf_datafile_next on a file whose items are `all`. */
  function Step(all: seq<Item>, maxruns: nat, f: Feed): (Feed, Outcome) {
    if maxruns > 0 && maxruns == f.nruns then (f, End)
    else if f.pass != [] then (Feed(f.pass[1..], f.nruns, true), Next(f.pass[0]))
    else if !f.readAny then (f, NoData)
    else if maxruns == f.nruns + 1 then (Feed([], f.nruns + 1, true), End)
    else if all == [] then (Feed([], f.nruns + 1, true), End)
    else (Feed(all[1..], f.nruns + 1, true), Next(all[0]))
  }

  /** What one read of the current run takes from it. */
  datatype Read = Got | AtEnd | Failed

  ghost predicate Took(r: Read, item: Item, pass: seq<Item>, pass': seq<Item>) {
    match r
    case Got => pass == [item] + pass'
    case AtEnd => pass == [] && pass' == []
    case Failed => pass == pass'
  }

  /** The outcome of a call and the state it leaves, or a failed read that leaves nothing undone. */
  ghost predicate Done(all: seq<Item>, maxruns: nat, f: Feed, f': Feed, failed: bool, o: Outcome) {
    if failed then f' == f || Rewound(all, maxruns, f, f') else Step(all, maxruns, f) == (f', o)
  }

  /** The read of the current run settles the call, unless it is at its end and another run is due. */
  lemma {:induction false} FirstRead(
      all: seq<Item>, maxruns: nat, f: Feed, r: Read, item: Item, f': Feed, failed: bool, o: Outcome)
    requires !(maxruns > 0 && maxruns == f.nruns) && Took(r, item, f.pass, f'.pass)
    requires r == AtEnd && f.readAny ==> maxruns == f.nruns + 1
    requires f'.nruns == (if r == AtEnd && f.readAny then f.nruns + 1 else f.nruns)
    requires f'.readAny == (f.readAny || r == Got) && failed == (r == Failed)
    requires o == if r == Got then Next(item) else if f.readAny || failed then End else NoData
    ensures Done(all, maxruns, f, f', failed, o)
  {
  }

  /** The read after rewinding settles it. */
  lemma {:induction false} SecondRead(
      all: seq<Item>, maxruns: nat, f: Feed, r: Read, item: Item, f': Feed, failed: bool, o: Outcome)
    requires !(maxruns > 0 && maxruns == f.nruns) && f.pass == [] && f.readAny && maxruns != f.nruns + 1
    requires Took(r, item, all, f'.pass)
    requires f'.nruns == f.nruns + 1 && f'.readAny && failed == (r == Failed)
    requires o == if r == Got then Next(item) else End
    ensures Done(all, maxruns, f, f', failed, o)
  {
  }

  /** The state after the file has been rewound but the read that follows has failed. */
  ghost predicate Rewound(all: seq<Item>, maxruns: nat, f: Feed, f': Feed) {
    && f.pass == [] && f.readAny && maxruns != f.nruns + 1 && !(maxruns > 0 && maxruns == f.nruns)
    && f' == Feed(all, f.nruns + 1, true)
  }

  /** A failed read after rewinding loses nothing: the next call goes on as it would have. */
  lemma {:induction false} RewoundGoesOn(all: seq<Item>, maxruns: nat, f: Feed, f': Feed)
    requires Rewound(all, maxruns, f, f') && all != []
    ensures Step(all, maxruns, f') == Step(all, maxruns, f)
  {
  }

  ghost function Repeat(all: seq<Item>, n: nat): seq<Item> {
    if n == 0 then [] else all + Repeat(all, n - 1)
  }

  /** All that is still to come. */
  ghost function ToCome(all: seq<Item>, maxruns: nat, f: Feed): seq<Item> {
    if f.nruns >= maxruns then [] else f.pass + Repeat(all, maxruns - f.nruns - 1)
  }

  ghost predicate Inv(all: seq<Item>, maxruns: nat, f: Feed) {
    all != [] && f.nruns <= maxruns && (!f.readAny ==> f.pass == all && f.nruns == 0)
  }

  lemma {:induction false} StepTakesNext(all: seq<Item>, maxruns: nat, f: Feed)
    requires maxruns > 0 && Inv(all, maxruns, f)
    ensures var (f', o) := Step(all, maxruns, f);
            var before, after := ToCome(all, maxruns, f), ToCome(all, maxruns, f');
            && Inv(all, maxruns, f')
            && (if before == [] then o == End && after == [] else o == Next(before[0]) && after == before[1..])
  {
    var before := ToCome(all, maxruns, f);
    if f.nruns < maxruns && f.pass == [] && f.nruns + 1 < maxruns {
      assert before == all + Repeat(all, maxruns - f.nruns - 2);
    }
  }

  /** The k-th call from f on. */
  ghost function Call(all: seq<Item>, maxruns: nat, f: Feed, k: nat): Outcome
    decreases k
  {
    if k == 0 then Step(all, maxruns, f).1 else Call(all, maxruns, Step(all, maxruns, f).0, k - 1)
  }

  /** The state after k calls, none of which failed. */
  ghost function AfterCalls(all: seq<Item>, maxruns: nat, f: Feed, k: nat): Feed {
    if k == 0 then f else Step(all, maxruns, AfterCalls(all, maxruns, f, k - 1)).0
  }

  lemma {:induction false} CallIsLastStep(all: seq<Item>, maxruns: nat, f: Feed, k: nat)
    ensures Call(all, maxruns, f, k) == Step(all, maxruns, AfterCalls(all, maxruns, f, k)).1
    decreases k
  {
    if k > 0 {
      CallIsLastStep(all, maxruns, Step(all, maxruns, f).0, k - 1);
      FirstStepOff(all, maxruns, f, k - 1);
    }
  }

  lemma {:induction false} FirstStepOff(all: seq<Item>, maxruns: nat, f: Feed, k: nat)
    ensures AfterCalls(all, maxruns, Step(all, maxruns, f).0, k) == AfterCalls(all, maxruns, f, k + 1)
  {
    if k > 0 { FirstStepOff(all, maxruns, f, k - 1); }
  }

  /** What the first k calls give. */
  ghost function Calls(all: seq<Item>, maxruns: nat, f: Feed, k: nat): (os: seq<Outcome>)
    ensures |os| == k
  {
    if k == 0 then [] else Calls(all, maxruns, f, k - 1) + [Call(all, maxruns, f, k - 1)]
  }

  lemma {:induction false} CallsAt(all: seq<Item>, maxruns: nat, f: Feed, k: nat, i: nat)
    requires i < k
    ensures Calls(all, maxruns, f, k)[i] == Call(all, maxruns, f, i)
  {
    if i < k - 1 { CallsAt(all, maxruns, f, k - 1, i); }
  }

  /** The reader stands where so many successful calls leave it, but for a rewinding whose read has failed. */
  ghost predicate Stands(all: seq<Item>, maxruns: nat, f: Feed, f': Feed) {
    (all == [] ==> !f.readAny && f.pass == []) && (f' == f || Rewound(all, maxruns, f, f'))
  }

  /** A call from there that does not fail is the next of the calls; one that fails changes nothing. */
  lemma {:induction false} DoneFrom(all: seq<Item>, maxruns: nat, f: Feed, f': Feed, f'': Feed, failed: bool, o: Outcome)
    requires Stands(all, maxruns, f, f') && Done(all, maxruns, f', f'', failed, o)
    ensures failed ==> Stands(all, maxruns, f, f'')
    ensures !failed ==> o == Step(all, maxruns, f).1 && Stands(all, maxruns, Step(all, maxruns, f).0, f'')
  {
    if f' != f { RewoundGoesOn(all, maxruns, f, f'); }
  }

  lemma {:induction false} CallsGiveToCome(all: seq<Item>, maxruns: nat, f: Feed, k: nat)
    requires maxruns > 0 && Inv(all, maxruns, f)
    ensures var c := ToCome(all, maxruns, f);
            Call(all, maxruns, f, k) == if k < |c| then Next(c[k]) else End
    decreases k
  {
    StepTakesNext(all, maxruns, f);
    if k > 0 { CallsGiveToCome(all, maxruns, Step(all, maxruns, f).0, k - 1); }
  }

  /** The items come in order exactly maxruns times, and then the end for ever. */
  lemma {:induction false} RunsThrough(all: seq<Item>, maxruns: nat, k: nat)
    requires maxruns > 0 && all != []
    ensures var c := Repeat(all, maxruns);
            Call(all, maxruns, Feed(all, 0, false), k) == if k < |c| then Next(c[k]) else End
  {
    CallsGiveToCome(all, maxruns, Feed(all, 0, false), k);
  }

  /** The calls of a run give what is left of it, and then go on from its end. */
  lemma {:induction false} CallsOfRun(all: seq<Item>, f: Feed, k: nat)
    requires f.pass != [] || f.readAny
    ensures Call(all, 0, f, k) == if k < |f.pass| then Next(f.pass[k]) else Call(all, 0, Feed([], f.nruns, true), k - |f.pass|)
    decreases k
  {
    if f.pass != [] && k > 0 { CallsOfRun(all, Step(all, 0, f).0, k - 1); }
    if f.pass != [] && |f.pass| == 1 && k > 0 { assert f.pass[1..] == []; }
  }

  /** A run that is over goes on as the next one does. */
  lemma {:induction false} RoundAgain(all: seq<Item>, n: nat, k: nat)
    requires all != []
    ensures Call(all, 0, Feed([], n, true), k) == Call(all, 0, Feed(all, n + 1, true), k)
  {
  }

  /** A file without items is reported as invalid, however often it is asked for one. */
  lemma {:induction false} NothingToRead(maxruns: nat, k: nat)
    ensures Call([], maxruns, Feed([], 0, false), k) == NoData
  {
    if k > 0 { NothingToRead(maxruns, k - 1); }
  }

  /** Without a limit the items come round and round. */
  lemma {:induction false} RunsForEver(all: seq<Item>, n: nat, readAny: bool, k: nat)
    requires all != []
    ensures Call(all, 0, Feed(all, n, readAny), k) == Next(all[Mod(k, |all|)])
    decreases k
  {
    CallsOfRun(all, Feed(all, n, readAny), k);
    if k >= |all| {
      RoundAgain(all, n, k - |all|);
      RunsForEver(all, n + 1, true, k - |all|);
    }
  }

  lemma {:induction false} RepeatLength(all: seq<Item>, n: nat)
    ensures |Repeat(all, n)| == n * |all|
  {
    if n > 0 {
      RepeatLength(all, n - 1);
      assert n * |all| == (n - 1) * |all| + |all|;
    }
  }

  /** ... so however many calls are made, they give that: the first maxruns times as many as there are items do. */
  lemma {:induction false} CallsRunThrough(all: seq<Item>, maxruns: nat, k: nat, i: nat)
    requires maxruns > 0 && all != [] && i < k
    ensures var c := Repeat(all, maxruns);
            |c| == maxruns * |all| && Calls(all, maxruns, Feed(all, 0, false), k)[i] == if i < |c| then Next(c[i]) else End
  {
    CallsAt(all, maxruns, Feed(all, 0, false), k, i);
    RepeatLength(all, maxruns);
    RunsThrough(all, maxruns, i);
  }
}
