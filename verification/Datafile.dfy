/**
 * The buffered input reader of src/datafile.c: a window on the file that is refilled and
 * compacted in place, with the whole file kept once it has been read in one piece.
 */
module Datafile {
  import opened Framing
  import InputRuns
  import TextFormat
  import WireFormat

  datatype Result = Success | Eof | InvalidFile | Failure

  /** sizeof(databuf) */
  const SIZE: nat := 65538
  const ROOM: nat := SIZE - 1

  /** How many reads have failed in a call with this result. */
  function Failed(r: Result): nat { if r == Failure then 1 else 0 }

  /** The outcome of taking the first line of s, of whatever kind. */
  ghost predicate LineTaken(r: Result, line: seq<byte>, s: seq<byte>, rest: seq<byte>, cached: bool) {
    var n := TextFormat.LineLength(s);
    match r
    case Success => s != [] && line == s[..n] && (if n < |s| then n < ROOM && rest == s[n + 1..] else cached && rest == [])
    case Eof => rest == s && (s == [] || (!cached && (n == |s| || n >= ROOM)))
    case InvalidFile => false
    case Failure => rest == s
  }

  /**
   * The outcome of read_one_line, where s is what follows the skipped lines: its first line, even
   * without an end if the file is cached. Without the cache an unfinished last line is dropped,
   * and a line longer than the buffer ends the input.
   */
  ghost predicate LineRead(r: Result, line: seq<byte>, s: seq<byte>, rest: seq<byte>, cached: bool) {
    var n := TextFormat.LineLength(s);
    match r
    case Success =>
      && s != [] && line == s[..n] && !TextFormat.Skipped(line)
      && (if n < |s| then n < ROOM && rest == s[n + 1..] else cached && rest == [])
    case Eof =>
      || (s == [] && rest == [])
      || (TextFormat.DanglingComment(s) && cached && rest == [])
      || (!cached && rest == s && (0 < n == |s| || n >= ROOM))
    case InvalidFile => false
    case Failure => Skipping(s, rest, cached)
  }

  /** An unfinished last line is read exactly when the file is cached. */
  lemma {:induction false} UnfinishedIffCached(r: Result, line: seq<byte>, s: seq<byte>, rest: seq<byte>, cached: bool)
    requires LineRead(r, line, s, rest, cached) && r != Failure
    requires s != [] && TextFormat.LineLength(s) == |s| && !TextFormat.DanglingComment(s)
    ensures r == (if cached then Success else Eof) && (cached ==> line == s) && (!cached ==> rest == s)
  {
    assert s[..|s|] == s;
  }

  /** The lines up to s have been passed over, or s itself, a comment that the file ends with. */
  ghost predicate Skipping(s: seq<byte>, rest: seq<byte>, cached: bool) {
    TextFormat.AfterSkipped(rest) == s || (rest == [] && cached && TextFormat.DanglingComment(s))
  }

  lemma {:induction false} SkipStep(s0: seq<byte>, s: seq<byte>, c: bool, r: Result, line: seq<byte>, rest: seq<byte>, cached: bool)
    requires Skipping(s0, s, c) && (c ==> cached) && LineTaken(r, line, s, rest, cached)
    ensures if r == Success && TextFormat.Skipped(line) then Skipping(s0, rest, cached) && |rest| < |s|
            else LineRead(r, line, s0, rest, cached)
  {
    TextFormat.SkipOne(s);
    TextFormat.SkipOne(rest);
  }

  /** The outcome of readfunc; only a regular file that fits into the buffer is ever cached. */
  ghost predicate OneRead(text: bool, cacheable: bool, r: Result, item: seq<byte>, s: seq<byte>, rest: seq<byte>, cached: bool) {
    (cached ==> cacheable) &&
    if text then LineRead(r, item, TextFormat.AfterSkipped(s), rest, cached) else BlobRead(r, item, s, rest)
  }

  /** What a reader has still to hand out, and its two counters. */
  datatype Place = Place(rest: seq<byte>, nruns: nat, readAny: bool)

  /** A read that was made on the way, and whether the file was cached after it. */
  datatype Reading = Reading(r: Result, item: seq<byte>, rest: seq<byte>, cached: bool)

  /** A run is over and another one is due. */
  ghost predicate StartsOver(p: Place, maxruns: nat, first: Reading) {
    first.r == Eof && p.readAny && maxruns != p.nruns + 1
  }

  /** What becomes of the call after its first read: another from the start if a run is over and one is due. */
  ghost predicate Settled(text: bool, cacheable: bool, file: seq<byte>, maxruns: nat, p: Place, first: Reading, last: Reading,
                          r: Result, p': Place) {
    if StartsOver(p, maxruns, first) then
      && OneRead(text, cacheable, last.r, last.item, file, last.rest, last.cached)
      && r == last.r && p' == Place(last.rest, p.nruns + 1, true)
    else
      && last == first
      && r == (if first.r == Eof && !p.readAny then InvalidFile else first.r)
      && p' == Place(first.rest, if first.r == Eof && p.readAny then p.nruns + 1 else p.nruns, p.readAny || first.r == Success)
  }

  /** perf_datafile_next for any content. */
  ghost predicate NextDone(text: bool, cacheable: bool, file: seq<byte>, maxruns: nat, p: Place, first: Reading, last: Reading,
                           r: Result, item: seq<byte>, p': Place) {
    if maxruns > 0 && maxruns == p.nruns then r == Eof && p' == p
    else
      && OneRead(text, cacheable, first.r, first.item, p.rest, first.rest, first.cached)
      && Settled(text, cacheable, file, maxruns, p, first, last, r, p') && item == last.item
  }

  /** The items in a piece of input: the complete ones at its start. */
  ghost function Items(text: bool, s: seq<byte>): seq<InputRuns.Item> {
    if text then TextFormat.Lines(s) else WireFormat.Blobs(s)
  }

  /**
   * The content alone decides what is read: all items are complete, or these are lines that are never
   * cached. Otherwise an unfinished last line is read if and only if the file was cached by then.
   */
  ghost predicate Decides(text: bool, cacheable: bool, s: seq<byte>) {
    if text then !cacheable || TextFormat.WellFormed(s) else WireFormat.Leftover(s) == []
  }

  function Kind(r: Result): InputRuns.Read {
    if r == Success then InputRuns.Got else if r == Failure then InputRuns.Failed else InputRuns.AtEnd
  }

  /** The outcome of reading one item from such input. */
  ghost predicate ItemRead(text: bool, cacheable: bool, r: Result, item: seq<byte>, s: seq<byte>, rest: seq<byte>) {
    && r != InvalidFile
    && Decides(text, cacheable, rest)
    && InputRuns.Took(Kind(r), item, Items(text, s), Items(text, rest))
  }

  lemma {:induction false} LineIsItem(r: Result, line: seq<byte>, s: seq<byte>, rest: seq<byte>, cached: bool)
    requires TextFormat.WellFormed(s) && LineRead(r, line, TextFormat.AfterSkipped(s), rest, cached)
    ensures ItemRead(true, true, r, line, s, rest)
  {
    TextFormat.LinesAfterSkipped(s);
    if r == Failure {
      TextFormat.SkippedBack(rest);
      TextFormat.LinesAfterSkipped(rest);
    }
  }

  lemma {:induction false} UncachedIsItem(r: Result, line: seq<byte>, s: seq<byte>, rest: seq<byte>)
    requires LineRead(r, line, TextFormat.AfterSkipped(s), rest, false)
    ensures ItemRead(true, false, r, line, s, rest)
  {
    TextFormat.LinesAfterSkipped(s);
    TextFormat.LinesAfterSkipped(rest);
  }

  lemma {:induction false} BlobIsItem(r: Result, blob: Frame, s: seq<byte>, rest: seq<byte>, cacheable: bool)
    requires WireFormat.Leftover(s) == [] && BlobRead(r, blob, s, rest)
    ensures ItemRead(false, cacheable, r, blob, s, rest)
  {
  }

  lemma {:induction false} ReadIsItem(text: bool, cacheable: bool, r: Result, item: seq<byte>, s: seq<byte>, rest: seq<byte>,
                                      cached: bool)
    requires Decides(text, cacheable, s) && OneRead(text, cacheable, r, item, s, rest, cached)
    ensures ItemRead(text, cacheable, r, item, s, rest)
  {
    if !text {
      BlobIsItem(r, item, s, rest, cacheable);
    } else if cacheable {
      LineIsItem(r, item, s, rest, cached);
    } else {
      UncachedIsItem(r, item, s, rest);
    }
  }

  function OutcomeOf(r: Result, item: seq<byte>): InputRuns.Outcome {
    if r == Success then InputRuns.Next(item) else if r == InvalidFile then InputRuns.NoData else InputRuns.End
  }

  ghost function FeedOf(text: bool, p: Place): InputRuns.Feed { InputRuns.Feed(Items(text, p.rest), p.nruns, p.readAny) }

  /** Where the content decides, the call does what the list of items says. */
  lemma {:induction false} NextIsDone(text: bool, cacheable: bool, file: seq<byte>, maxruns: nat, p: Place,
                                      first: Reading, last: Reading, r: Result, item: seq<byte>, p': Place)
    requires NextDone(text, cacheable, file, maxruns, p, first, last, r, item, p')
    requires Decides(text, cacheable, file) && Decides(text, cacheable, p.rest)
    ensures Decides(text, cacheable, p'.rest)
    ensures InputRuns.Done(Items(text, file), maxruns, FeedOf(text, p), FeedOf(text, p'), r == Failure, OutcomeOf(r, item))
  {
    if !(maxruns > 0 && maxruns == p.nruns) {
      ReadIsItem(text, cacheable, first.r, first.item, p.rest, first.rest, first.cached);
      if StartsOver(p, maxruns, first) {
        ReadIsItem(text, cacheable, last.r, last.item, file, last.rest, last.cached);
        InputRuns.SecondRead(Items(text, file), maxruns, FeedOf(text, p), Kind(last.r), last.item, FeedOf(text, p'),
                             r == Failure, OutcomeOf(r, item));
      } else {
        InputRuns.FirstRead(Items(text, file), maxruns, FeedOf(text, p), Kind(first.r), first.item, FeedOf(text, p'),
                            r == Failure, OutcomeOf(r, item));
      }
    }
  }

  /** So many calls from a new reader have not failed, these were their outcomes, and the reader is at p. */
  ghost predicate AlongAt(text: bool, cacheable: bool, file: seq<byte>, maxruns: nat, p: Place, outcomes: seq<InputRuns.Outcome>) {
    var all := Items(text, file);
    var start := InputRuns.Feed(all, 0, false);
    && Decides(text, cacheable, file) && Decides(text, cacheable, p.rest)
    && InputRuns.Stands(all, maxruns, InputRuns.AfterCalls(all, maxruns, start, |outcomes|), FeedOf(text, p))
    && outcomes == InputRuns.Calls(all, maxruns, start, |outcomes|)
  }

  lemma {:induction false} NextGoesAlong(text: bool, cacheable: bool, file: seq<byte>, maxruns: nat, p: Place, first: Reading,
                                         last: Reading, r: Result, item: seq<byte>, p': Place, outcomes: seq<InputRuns.Outcome>)
    requires AlongAt(text, cacheable, file, maxruns, p, outcomes)
    requires NextDone(text, cacheable, file, maxruns, p, first, last, r, item, p')
    ensures AlongAt(text, cacheable, file, maxruns, p', if r == Failure then outcomes else outcomes + [OutcomeOf(r, item)])
  {
    var all := Items(text, file);
    var start := InputRuns.Feed(all, 0, false);
    NextIsDone(text, cacheable, file, maxruns, p, first, last, r, item, p');
    InputRuns.DoneFrom(all, maxruns, InputRuns.AfterCalls(all, maxruns, start, |outcomes|),
                       FeedOf(text, p), FeedOf(text, p'), r == Failure, OutcomeOf(r, item));
    InputRuns.CallIsLastStep(all, maxruns, start, |outcomes|);
  }

  /** The outcome of read_one_blob. */
  ghost predicate BlobRead(r: Result, blob: Frame, s: seq<byte>, rest: seq<byte>) {
    match r
    case Success => WireFormat.HasBlob(s) && blob == WireFormat.FirstBlob(s) && rest == WireFormat.AfterBlob(s)
    case Eof => s == [] && rest == s
    case InvalidFile => s != [] && !WireFormat.HasBlob(s) && rest == s
    case Failure => rest == s
  }

  class Datafile {
    const databuf: array<byte>
    const file: seq<byte>   // the contents behind the descriptor
    const isFile: bool      // a regular file, whose size is known
    const text: bool        // lines, or else blobs
    const maxruns: nat
    var pos: nat            // the descriptor's offset
    var at: nat
    var have: nat
    var cached: bool
    var nruns: nat
    var readAny: bool
    ghost var base: nat     // the file offset of databuf[0]
    ghost var broken: nat   // how many reads have failed

    /** The buffer is a window on the file that ends at the descriptor's offset, cached once it is all of a regular file. */
    ghost predicate Window()
      reads `pos, `at, `have, `cached, `base, databuf
    {
      && databuf.Length == SIZE
      && at <= have <= ROOM && pos == base + have <= |file|
      && (forall i :: 0 <= i < have ==> databuf[i] == file[base + i])
      && (cached <==> isFile && 0 < have == |file|)
    }

    ghost predicate Valid()
      reads `pos, `at, `have, `cached, `base, databuf
    {
      Window() && (text ==> databuf[have] == 0)
    }

    /** What has not been handed out yet. */
    ghost function Rest(): seq<byte>
      requires base + at <= |file|
      reads `base, `at
    {
      file[base + at..]
    }

    constructor (file: seq<byte>, isFile: bool, text: bool, maxruns: nat)
      ensures Valid() && fresh(databuf)
      ensures this.file == file && this.isFile == isFile && this.text == text && this.maxruns == maxruns
      ensures Rest() == file && nruns == 0 && !readAny && broken == 0
    {
      databuf := new byte[SIZE](_ => 0);
      this.file, this.isFile, this.text, this.maxruns := file, isFile, text, maxruns;
      pos, at, have, cached, nruns, readAny := 0, 0, 0, false, 0, false;
      base, broken := 0, 0;
      assert file[0..] == file;
    }

    /** What is buffered is the start of what is left, and all of it once the file is at its end. */
    lemma {:induction false} Buffered()
      requires Window()
      ensures databuf[at..have] == Rest()[..have - at]
      ensures pos == |file| ==> databuf[at..have] == Rest()
      ensures |Rest()| == have - at + (|file| - pos)
    {
    }

    /** Once cached, the buffer is the whole file, so replaying it is the same as reading it again. */
    lemma {:induction false} CachedIsWhole()
      requires Window() && cached
      ensures databuf[..have] == file && pos == |file|
    {
    }

    /** read_more: whatever the read returns, nothing is lost or handed out twice. */
    method ReadMore() returns (r: Result)
      requires Window() && !cached
      modifies this`at, this`have, this`pos, this`base, this`cached, this`broken, databuf
      ensures Window() && at == 0 && Rest() == old(Rest())
      ensures r == Success || r == Eof || r == Failure
      ensures broken == old(broken) + Failed(r)
      ensures r == Success ==> pos > old(pos) && have > old(have - at)
      ensures r != Success ==> pos == old(pos) && have == old(have - at) && !cached
      ensures r == Eof ==> pos == |file| || have == ROOM
    {
      Compact();
      var failed: bool := *;
      if failed {
        broken := broken + 1;
        return Failure;
      }
      var most := if ROOM - have < |file| - pos then ROOM - have else |file| - pos;
      if most == 0 { return Eof; }
      var n: nat := *;
      if n < 1 || n > most { n := most; }
      Append(n);
      return Success;
    }

    /** The next n bytes of the file go behind those already there. */
    method Append(n: nat)
      requires Window() && !cached && at == 0 && n > 0 && have + n <= ROOM && pos + n <= |file|
      modifies this`have, this`pos, this`cached, databuf
      ensures Window() && Rest() == old(Rest()) && have == old(have) + n && pos == old(pos) + n
    {
      forall i | 0 <= i < n { databuf[have + i] := file[pos + i]; }
      have, pos := have + n, pos + n;
      if isFile && have == |file| { cached := true; }
    }

    /** Moving what is left to the front of the buffer. */
    method Compact()
      requires Window() && !cached
      modifies this`at, this`have, this`base, databuf
      ensures Window() && at == 0 && Rest() == old(Rest()) && have == old(have - at)
    {
      if at > 0 && at < have {
        forall i | 0 <= i < have - at { databuf[i] := databuf[at + i]; }
        base := base + at;
        have := have - at;
        at := 0;
      } else if at == have {
        base := base + at;
        have, at := 0, 0;
      }
    }

    /** reopen_file */
    method Reopen()
      requires Valid()
      modifies this`at, this`have, this`pos, this`base, databuf
      ensures Valid() && Rest() == file
    {
      at := 0;
      if !cached {
        pos, have := 0, 0;
        base := 0;
        databuf[0] := 0;
      }
    }

    ghost predicate Cacheable() { isFile && |file| <= ROOM }

    ghost function Here(): Place
      requires base + at <= |file|
      reads `base, `at, `nruns, `readAny
    {
      Place(Rest(), nruns, readAny)
    }

    /** This is what a read from s came to, and where it has left the reader. */
    ghost predicate Took(s: seq<byte>, r: Result, item: seq<byte>, g: Reading, was: nat)
      reads `pos, `at, `have, `cached, `base, `broken, databuf
    {
      && Valid() && OneRead(text, Cacheable(), g.r, g.item, s, g.rest, g.cached)
      && r == g.r && item == g.item && Rest() == g.rest && broken == was + Failed(r)
    }

    /** readfunc: one line or one blob. */
    method ReadOne(ghost s: seq<byte>) returns (r: Result, item: seq<byte>, ghost g: Reading)
      requires Valid() && s == Rest()
      modifies this`at, this`have, this`pos, this`base, this`cached, this`broken, databuf
      ensures Took(s, r, item, g, old(broken))
    {
      if text {
        r, item := ReadOneLine();
      } else {
        r, item := ReadOneBlob();
      }
      g := Reading(r, item, Rest(), cached);
    }

    /** perf_datafile_next for queries and blobs. */
    method Next() returns (r: Result, item: seq<byte>, ghost first: Reading, ghost last: Reading)
      requires Valid()
      modifies this, databuf
      ensures Valid() && NextDone(text, Cacheable(), file, maxruns, old(Here()), first, last, r, item, Here())
      ensures broken == old(broken) + Failed(r)
    {
      item, first := [], Reading(Eof, [], [], false);
      last := first;
      if maxruns > 0 && maxruns == nruns { return Eof, item, first, last; }
      r, item, first := ReadOne(Rest());
      r, item, last := Settle(r, item, old(Here()), first);
    }

    /** The rest of the call. */
    method Settle(got: Result, gotItem: seq<byte>, ghost p: Place, ghost first: Reading)
      returns (r: Result, item: seq<byte>, ghost last: Reading)
      requires Valid() && Here() == Place(first.rest, p.nruns, p.readAny)
      requires got == first.r && gotItem == first.item
      modifies this, databuf
      ensures broken == old(broken) + if r == Failure && got != Failure then 1 else 0
      ensures Valid() && Settled(text, Cacheable(), file, maxruns, p, first, last, r, Here()) && item == last.item
    {
      r, item, last := got, gotItem, first;
      if r == Eof {
        if !readAny { return InvalidFile, item, last; }
        nruns := nruns + 1;
        if maxruns != nruns {
          r, item, last := StartOver(p, first);
          return;
        }
      }
      if r == Success { readAny := true; }
    }

    /** Another run. */
    method StartOver(ghost p: Place, ghost first: Reading) returns (r: Result, item: seq<byte>, ghost last: Reading)
      requires Valid() && StartsOver(p, maxruns, first) && nruns == p.nruns + 1 && readAny
      modifies this`at, this`have, this`pos, this`base, this`cached, this`broken, databuf
      ensures Valid() && Settled(text, Cacheable(), file, maxruns, p, first, last, r, Here()) && item == last.item
      ensures broken == old(broken) + Failed(r)
    {
      r, item, last := ReadAgain();
    }

    method ReadAgain() returns (r: Result, item: seq<byte>, ghost g: Reading)
      requires Valid()
      modifies this`at, this`have, this`pos, this`base, this`cached, this`broken, databuf
      ensures Took(file, r, item, g, old(broken))
    {
      Reopen();
      r, item, g := ReadOne(file);
    }

    /** So far these were the outcomes, and since `was` as many reads have failed. */
    ghost predicate Along(outcomes: seq<InputRuns.Outcome>, failures: nat, was: nat)
      reads `pos, `at, `have, `cached, `base, `nruns, `readAny, `broken, databuf
    {
      Valid() && AlongAt(text, Cacheable(), file, maxruns, Here(), outcomes) && broken == was + failures
    }

    /**
     * k calls on a new reader of complete items, or of lines that are never cached: those that do not fail
     * give the items in order, run after run.
     */
    method NextMany(k: nat) returns (outcomes: seq<InputRuns.Outcome>, failures: nat)
      requires Valid() && Decides(text, Cacheable(), file) && Rest() == file && nruns == 0 && !readAny
      modifies this, databuf
      ensures Valid() && |outcomes| + failures == k && broken == old(broken) + failures
      ensures var all := Items(text, file);
              outcomes == InputRuns.Calls(all, maxruns, InputRuns.Feed(all, 0, false), |outcomes|)
    {
      outcomes, failures := [], 0;
      while |outcomes| + failures < k
        invariant Along(outcomes, failures, old(broken)) && |outcomes| + failures <= k
      {
        var failed, o := NextOutcome(outcomes, failures, old(broken));
        if failed { failures := failures + 1; } else { outcomes := outcomes + [o]; }
      }
    }

    /** One call, as a step of the list of items. */
    method NextOutcome(ghost outcomes: seq<InputRuns.Outcome>, ghost failures: nat, ghost was: nat)
      returns (failed: bool, o: InputRuns.Outcome)
      requires Along(outcomes, failures, was)
      modifies this, databuf
      ensures failed ==> Along(outcomes, failures + 1, was)
      ensures !failed ==> Along(outcomes + [o], failures, was)
    {
      ghost var p, first, last := Here(), Reading(Eof, [], [], false), Reading(Eof, [], [], false);
      var r, item;
      r, item, first, last := Next();
      NextGoesAlong(text, Cacheable(), file, maxruns, p, first, last, r, item, Here(), outcomes);
      failed, o := r == Failure, OutcomeOf(r, item);
    }

    /** So many reads of blobs have not failed, and these were their outcomes. */
    ghost predicate AlongBlobs(outcomes: seq<WireFormat.Outcome>)
      reads `pos, `at, `have, `cached, `base, databuf
    {
      && Valid() && !text
      && Rest() == WireFormat.AfterCalls(file, |outcomes|) && outcomes == WireFormat.Calls(file, |outcomes|)
    }

    /** k reads of blobs from any content. */
    method ReadBlobs(k: nat) returns (outcomes: seq<WireFormat.Outcome>, failures: nat)
      requires Valid() && !text && Rest() == file
      modifies this`at, this`have, this`pos, this`base, this`cached, this`broken, databuf
      ensures Valid() && |outcomes| + failures == k && broken == old(broken) + failures
      ensures outcomes == WireFormat.Calls(file, |outcomes|)
    {
      outcomes, failures := [], 0;
      while |outcomes| + failures < k
        invariant AlongBlobs(outcomes) && |outcomes| + failures <= k && broken == old(broken) + failures
      {
        var failed, o := BlobOutcome(outcomes);
        if failed { failures := failures + 1; } else { outcomes := outcomes + [o]; }
      }
    }

    method BlobOutcome(ghost outcomes: seq<WireFormat.Outcome>) returns (failed: bool, o: WireFormat.Outcome)
      requires AlongBlobs(outcomes)
      modifies this`at, this`have, this`pos, this`base, this`cached, this`broken, databuf
      ensures failed ==> AlongBlobs(outcomes)
      ensures !failed ==> AlongBlobs(outcomes + [o])
      ensures broken == old(broken) + if failed then 1 else 0
    {
      WireFormat.CallIsLast(file, |outcomes|);
      var r, blob := ReadOneBlob();
      failed := r == Failure;
      o := if r == Success then WireFormat.Blob(blob) else if r == Eof then WireFormat.AtEnd else WireFormat.Invalid;
    }

    /** read_one_blob */
    method ReadOneBlob() returns (r: Result, blob: Frame)
      requires Valid() && !text
      modifies this`at, this`have, this`pos, this`base, this`cached, this`broken, databuf
      ensures Valid()
      ensures BlobRead(r, blob, old(Rest()), Rest())
      ensures broken == old(broken) + Failed(r)
    {
      blob := [];
      r := Fill(2);
      if r == Success {
        r, blob := TakeBlob();
      } else if r == Eof && have - at != 0 {
        r := InvalidFile;
      }
    }

    /** The second loop of read_one_blob, once the length field is there. */
    method TakeBlob() returns (r: Result, blob: Frame)
      requires Valid() && !text && have - at >= 2
      modifies this`at, this`have, this`pos, this`base, this`cached, this`broken, databuf
      ensures Valid()
      ensures BlobRead(r, blob, old(Rest()), Rest())
      ensures broken == old(broken) + Failed(r)
    {
      blob := [];
      var packetSize := Peek();
      r := Fill(2 + packetSize);
      if r == Success {
        blob := Consume(packetSize);
      } else if r == Eof {
        r := InvalidFile;
      }
    }

    /** The length field of the next blob. */
    method Peek() returns (packetSize: nat)
      requires Window() && have - at >= 2
      ensures |Rest()| >= 2 && packetSize == LengthAt(Rest())
    {
      Buffered();
      var head := databuf[at..have];
      packetSize := LengthAt(head);
    }

    method Consume(packetSize: nat) returns (blob: Frame)
      requires Valid() && have - at >= 2 + packetSize
      modifies this`at
      ensures Valid() && |old(Rest())| >= 2 + packetSize
      ensures blob == old(Rest())[2..2 + packetSize] && Rest() == old(Rest())[2 + packetSize..]
    {
      Buffered();
      blob := databuf[at..have][2..2 + packetSize];
      Advance(2 + packetSize);
    }

    /**
     * Both loops of read_one_blob: reading until n bytes are buffered. As n never exceeds the
     * room, a read is never asked for zero bytes, so Eof means that the file has ended.
     */
    method Fill(n: nat) returns (r: Result)
      requires Window() && n <= ROOM
      modifies this`at, this`have, this`pos, this`base, this`cached, this`broken, databuf
      ensures Window() && Rest() == old(Rest())
      ensures r == Success || r == Eof || r == Failure
      ensures broken == old(broken) + Failed(r)
      ensures r == Success ==> have - at >= n
      ensures r == Eof ==> |Rest()| == have - at < n
    {
      while have - at < n
        invariant Window() && Rest() == old(Rest()) && broken == old(broken)
        decreases |file| - pos
      {
        Buffered();
        if cached { return Eof; }
        r := ReadMore();
        Buffered();
        if r != Success { return; }
      }
      r := Success;
    }

    /** read_one_line */
    method ReadOneLine() returns (r: Result, line: seq<byte>)
      requires Valid() && text
      modifies this`at, this`have, this`pos, this`base, this`cached, this`broken, databuf
      ensures Valid()
      ensures LineRead(r, line, TextFormat.AfterSkipped(old(Rest())), Rest(), cached)
      ensures broken == old(broken) + Failed(r)
    {
      line := [];
      ghost var s0 := TextFormat.AfterSkipped(Rest());
      while true
        invariant Valid() && Skipping(s0, Rest(), cached) && broken == old(broken)
        decreases |Rest()|
      {
        ghost var s, c := Rest(), cached;
        r, line := TakeLine();
        SkipStep(s0, s, c, r, line, Rest(), cached);
        if r != Success || (|line| > 0 && line[0] != TextFormat.SEMICOLON) { return; }
      }
    }

    /** The next line of any kind, reading more while it may go on beyond the buffer. */
    method TakeLine() returns (r: Result, line: seq<byte>)
      requires Valid() && text
      modifies this`at, this`have, this`pos, this`base, this`cached, this`broken, databuf
      ensures Valid()
      ensures LineTaken(r, line, old(Rest()), Rest(), cached) && (old(cached) ==> cached)
      ensures broken == old(broken) + Failed(r)
    {
      var again := true;
      r, line := Eof, [];
      while again
        invariant Valid() && (old(cached) ==> cached)
        invariant again ==> Rest() == old(Rest()) && broken == old(broken)
        invariant !again ==> LineTaken(r, line, old(Rest()), Rest(), cached)
        invariant !again ==> broken == old(broken) + Failed(r)
        decreases again, |file| - pos
      {
        again, r, line := LookForLine();
      }
    }

    /** A turn of that loop: the line if all of it is there, or else another read. */
    method LookForLine() returns (again: bool, r: Result, line: seq<byte>)
      requires Valid() && text
      modifies this`at, this`have, this`pos, this`base, this`cached, this`broken, databuf
      ensures Valid() && (old(cached) ==> cached)
      ensures again ==> Rest() == old(Rest()) && broken == old(broken) && pos > old(pos)
      ensures !again ==> LineTaken(r, line, old(Rest()), Rest(), cached)
      ensures !again ==> broken == old(broken) + Failed(r)
    {
      line := [];
      Buffered();
      var curlen := TextFormat.LineLength(databuf[at..have]);
      var nrem := have - at;
      if curlen == nrem {
        if !cached {
          UnfinishedLine(Rest(), databuf[at..have]);
          r := ReadMoreText();
          if r != Success { return false, r, line; }
        }
        if have - at == 0 { return false, Eof, line; }
        if have - at > nrem { return true, Success, line; }
      }
      line := PassLine(curlen);
      return false, Success, line;
    }

    /** A read, and the terminator behind what it brought. */
    method ReadMoreText() returns (r: Result)
      requires Valid() && text && !cached
      modifies this`at, this`have, this`pos, this`base, this`cached, this`broken, databuf
      ensures Valid() && Rest() == old(Rest())
      ensures r == Success || r == Eof || r == Failure
      ensures broken == old(broken) + Failed(r)
      ensures r == Success ==> pos > old(pos) && have - at > old(have - at)
      ensures r != Success ==> have - at == old(have - at) && !cached
      ensures r == Eof ==> |Rest()| == have - at || have - at == ROOM
    {
      r := ReadMore();
      Buffered();
      databuf[have] := 0;
    }

    /** Advancing past a line, and past its end if that is in the buffer. */
    method PassLine(curlen: nat) returns (line: seq<byte>)
      requires Valid() && curlen == TextFormat.LineLength(databuf[at..have])
      requires have > at && (curlen == have - at ==> cached)
      modifies this`at
      ensures Valid()
      ensures LineTaken(Success, line, old(Rest()), Rest(), cached)
    {
      Buffered();
      ghost var s := Rest();
      LineOfBuffer(s, databuf[at..have], cached);
      line := databuf[at..have][..curlen];
      Advance(if at + curlen < have then curlen + 1 else curlen);
    }

    method Advance(n: nat)
      requires Valid() && at + n <= have
      modifies this`at
      ensures Valid() && n <= |old(Rest())| && Rest() == old(Rest())[n..]
    {
      at := at + n;
    }

    lemma {:induction false} LineOfBuffer(s: seq<byte>, b: seq<byte>, cached: bool)
      requires b <= s && 0 < |b| <= ROOM && (TextFormat.LineLength(b) < |b| || (b == s && cached))
      ensures var n := TextFormat.LineLength(b);
              LineTaken(Success, b[..n], s, s[if n < |b| then n + 1 else n..], cached)
    {
      TextFormat.LineOfPrefix(s, b);
    }

    /** A line that fills all that is buffered. */
    lemma {:induction false} UnfinishedLine(s: seq<byte>, b: seq<byte>)
      requires b <= s && TextFormat.LineLength(b) == |b|
      ensures TextFormat.LineLength(s) >= |b|
    {
      TextFormat.LineLengthSays(b);
      TextFormat.LineLengthSays(s);
    }
  }

  /** A reader that never caches, such as one of a pipe, gives the finished line and then the end: the rest is dropped. */
  method DropsUnfinished(isFile: bool, line: seq<byte>, rest: seq<byte>, k: nat)
    returns (reader: Datafile, outcomes: seq<InputRuns.Outcome>, failures: nat)
    requires 0 < |line| < ROOM && TextFormat.LineLength(line) == |line| && line[0] != TextFormat.SEMICOLON
    requires TextFormat.LineLength(rest) == |rest| && (isFile ==> |line| + 1 + |rest| > ROOM)
    ensures |outcomes| + failures == k && failures == reader.broken
    ensures forall i :: 0 <= i < |outcomes| ==> outcomes[i] == if i == 0 then InputRuns.Next(line) else InputRuns.End
  {
    reader := new Datafile(line + [TextFormat.NEWLINE] + rest, isFile, true, 1);
    outcomes, failures := reader.NextMany(k);
    TextFormat.OneFinishedLine(line, rest);
    forall i | 0 <= i < |outcomes|
      ensures outcomes[i] == if i == 0 then InputRuns.Next(line) else InputRuns.End
    {
      InputRuns.CallsRunThrough([line], 1, |outcomes|, i);
      assert InputRuns.Repeat([line], 1) == [line];
    }
  }
}
