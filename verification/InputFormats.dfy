/** What an input file contains, said without buffers: text lines, and length-prefixed blobs. */
module TextFormat {
  import opened Framing

  const NEWLINE: byte := 10
  const SEMICOLON: byte := 59

  /** sizeof(databuf) less the byte kept for the terminator. */
  const ROOM: nat := 65537

  /** A newline ends a line, and so does a NUL byte. */
  predicate IsEnd(b: byte) { b == NEWLINE || b == 0 }

  /** strcspn(s, "\n"): the length of the first line. */
  function LineLength(s: seq<byte>): (n: nat)
    ensures n <= |s|
  {
    if s == [] || IsEnd(s[0]) then 0 else 1 + LineLength(s[1..])
  }

  /** The line stops at the first end there is. */
  lemma {:induction false} LineLengthSays(s: seq<byte>)
    ensures LineLength(s) < |s| ==> IsEnd(s[LineLength(s)])
    ensures forall i :: 0 <= i < LineLength(s) ==> !IsEnd(s[i])
  {
    if s != [] && !IsEnd(s[0]) { LineLengthSays(s[1..]); }
  }

  lemma {:induction false} LineLengthIs(s: seq<byte>, n: nat)
    requires n <= |s| && (n < |s| ==> IsEnd(s[n])) && forall i :: 0 <= i < n ==> !IsEnd(s[i])
    ensures LineLength(s) == n
  {
    LineLengthSays(s);
  }

  predicate Skipped(line: seq<byte>) { line == [] || line[0] == SEMICOLON }

  /** What remains once leading empty lines and comments are passed over, if they fit the buffer. */
  ghost function AfterSkipped(s: seq<byte>): seq<byte>
    decreases |s|
  {
    var n := LineLength(s);
    if n < |s| && n < ROOM && Skipped(s[..n]) then AfterSkipped(s[n + 1..]) else s
  }

  lemma {:induction false} SkipOne(s: seq<byte>)
    ensures var n := LineLength(s);
            AfterSkipped(s) == if n < |s| && n < ROOM && Skipped(s[..n]) then AfterSkipped(s[n + 1..]) else s
  {
  }

  /** A comment that the file ends with, without a newline. */
  ghost predicate DanglingComment(s: seq<byte>) { s != [] && LineLength(s) == |s| && s[0] == SEMICOLON }

  /** A line that ends within a part of the input is the same line in the whole. */
  lemma {:induction false} LineOfPrefix(s: seq<byte>, part: seq<byte>)
    requires part <= s && (LineLength(part) < |part| || part == s)
    ensures LineLength(s) == LineLength(part) && s[..LineLength(s)] == part[..LineLength(part)]
  {
    LineLengthSays(part);
    LineLengthIs(s, LineLength(part));
  }

  /** Every line has its end, and fits into the buffer together with it. */
  ghost predicate WellFormed(s: seq<byte>)
    decreases |s|
  {
    s == [] || (LineLength(s) < |s| && LineLength(s) < ROOM && WellFormed(s[LineLength(s) + 1..]))
  }

  /** The lines that are neither empty nor comments, in order, up to one that has no end or does not fit. */
  ghost function Lines(s: seq<byte>): seq<seq<byte>>
    decreases |s|
  {
    var n := LineLength(s);
    if n == |s| || n >= ROOM then []
    else (if Skipped(s[..n]) then [] else [s[..n]]) + Lines(s[n + 1..])
  }

  lemma {:induction false} LinesAfterSkipped(s: seq<byte>)
    ensures Lines(AfterSkipped(s)) == Lines(s)
    ensures var t := AfterSkipped(s); var n := LineLength(t); n < |t| && n < ROOM ==> !Skipped(t[..n])
    ensures WellFormed(s) ==> WellFormed(AfterSkipped(s))
    decreases |s|
  {
    var n := LineLength(s);
    if n < |s| && n < ROOM && Skipped(s[..n]) { LinesAfterSkipped(s[n + 1..]); }
  }

  /** A line with its end, and something without. */
  lemma {:induction false} OneFinishedLine(line: seq<byte>, rest: seq<byte>)
    requires |line| < ROOM && LineLength(line) == |line| && !Skipped(line) && LineLength(rest) == |rest|
    ensures Lines(line + [NEWLINE] + rest) == [line]
  {
    var s := line + [NEWLINE] + rest;
    LineLengthSays(line);
    LineLengthIs(s, |line|);
    assert s[..|line|] == line && s[|line| + 1..] == rest;
  }

  /** A line ends at a newline or a NUL byte, or with the input. */
  lemma {:induction false} LineEnds(line: seq<byte>, rest: seq<byte>)
    requires forall i :: 0 <= i < |line| ==> line[i] !in {0, 10}
    requires rest != [] ==> rest[0] in {0, 10}
    ensures LineLength(line + rest) == |line|
  {
    LineLengthIs(line + rest, |line|);
  }

  /** A text of such lines, each with its newline. */
  ghost function Text(lines: seq<seq<byte>>): seq<byte> {
    if lines == [] then [] else lines[0] + [10] + Text(lines[1..])
  }

  /** The lines that are neither empty nor begin with a semicolon. */
  ghost function Queries(lines: seq<seq<byte>>): seq<seq<byte>> {
    if lines == [] then [] else (if lines[0] == [] || lines[0][0] == 59 then [] else [lines[0]]) + Queries(lines[1..])
  }

  /** What is read from a text of lines are those of its lines. */
  lemma {:induction false} LinesOfText(lines: seq<seq<byte>>)
    requires forall i :: 0 <= i < |lines| ==> |lines[i]| < 65537 && forall j :: 0 <= j < |lines[i]| ==> lines[i][j] !in {0, 10}
    ensures WellFormed(Text(lines)) && Lines(Text(lines)) == Queries(lines)
  {
    if lines != [] {
      var s, n := Text(lines), |lines[0]|;
      LinesOfText(lines[1..]);
      LineLengthIs(s, n);
      assert s[..n] == lines[0] && s[n + 1..] == Text(lines[1..]);
    }
  }

  /** If what follows the skipped lines is well formed, so is the whole. */
  lemma {:induction false} SkippedBack(s: seq<byte>)
    requires WellFormed(AfterSkipped(s))
    ensures WellFormed(s)
    decreases |s|
  {
    var n := LineLength(s);
    if n < |s| && n < ROOM && Skipped(s[..n]) { SkippedBack(s[n + 1..]); }
  }
}

/** The binary format: blobs with a two-byte length, one after the other. */
module WireFormat {
  import opened Framing

  predicate HasBlob(s: seq<byte>) { |s| >= 2 && |s| >= LengthAt(s) + 2 }

  function FirstBlob(s: seq<byte>): Frame
    requires HasBlob(s)
  {
    s[2..LengthAt(s) + 2]
  }

  function AfterBlob(s: seq<byte>): seq<byte>
    requires HasBlob(s)
  {
    s[LengthAt(s) + 2..]
  }

  /** The complete blobs at the start of s, and what follows them. */
  ghost function Blobs(s: seq<byte>): seq<Frame>
    decreases |s|
  {
    if HasBlob(s) then [FirstBlob(s)] + Blobs(AfterBlob(s)) else []
  }

  ghost function Leftover(s: seq<byte>): seq<byte>
    decreases |s|
  {
    if HasBlob(s) then Leftover(AfterBlob(s)) else s
  }

  /** Reading back what was written gives the list and leaves nothing over. */
  lemma {:induction false} BlobsOfStream(fs: seq<Frame>)
    requires AllSendable(fs)
    ensures Blobs(Stream(fs)) == fs && Leftover(Stream(fs)) == []
  {
    if fs != [] {
      var rest := Stream(fs[1..]);
      LengthOfPrefixed(fs[0], rest);
      BlobsOfStream(fs[1..]);
      assert FirstBlob(Stream(fs)) == fs[0] && AfterBlob(Stream(fs)) == rest;
    }
  }

  /** Any content is a stream of its complete blobs, the longest there is, followed by the rest. */
  lemma {:induction false} StreamOfBlobs(s: seq<byte>)
    ensures AllSendable(Blobs(s)) && s == Stream(Blobs(s)) + Leftover(s) && !HasBlob(Leftover(s))
    decreases |s|
  {
    if HasBlob(s) {
      var f, rest := FirstBlob(s), AfterBlob(s);
      StreamOfBlobs(rest);
      FirstBlobIsPrefixed(s);
      StreamCons(f, Blobs(rest));
      Regroup(Prefixed(f), Stream(Blobs(rest)), Leftover(s));
    }
  }

  lemma {:induction false} FirstBlobIsPrefixed(s: seq<byte>)
    requires HasBlob(s)
    ensures Sendable(FirstBlob(s)) && s == Prefixed(FirstBlob(s)) + AfterBlob(s)
  {
  }

  lemma {:induction false} StreamCons(f: Frame, fs: seq<Frame>)
    requires Sendable(f) && AllSendable(fs)
    ensures AllSendable([f] + fs) && Stream([f] + fs) == Prefixed(f) + Stream(fs)
  {
    assert ([f] + fs)[1..] == fs;
  }

  datatype Outcome = Blob(f: Frame) | AtEnd | Invalid

  /** The k-th of successive reads from s. */
  ghost function Call(s: seq<byte>, k: nat): Outcome
    decreases k
  {
    if !HasBlob(s) then (if s == [] then AtEnd else Invalid)
    else if k == 0 then Blob(FirstBlob(s))
    else Call(AfterBlob(s), k - 1)
  }

  /** What is left after k reads. */
  ghost function AfterCalls(s: seq<byte>, k: nat): seq<byte> {
    if k == 0 then s
    else
      var t := AfterCalls(s, k - 1);
      if HasBlob(t) then AfterBlob(t) else t
  }

  lemma {:induction false} CallIsLast(s: seq<byte>, k: nat)
    ensures Call(s, k) == Call(AfterCalls(s, k), 0)
    decreases k
  {
    if k > 0 {
      if HasBlob(s) {
        CallIsLast(AfterBlob(s), k - 1);
        FirstCallOff(s, k - 1);
      } else {
        NothingTaken(s, k);
      }
    }
  }

  lemma {:induction false} FirstCallOff(s: seq<byte>, k: nat)
    requires HasBlob(s)
    ensures AfterCalls(AfterBlob(s), k) == AfterCalls(s, k + 1)
  {
    if k > 0 { FirstCallOff(s, k - 1); }
  }

  lemma {:induction false} NothingTaken(s: seq<byte>, k: nat)
    requires !HasBlob(s)
    ensures AfterCalls(s, k) == s
  {
    if k > 0 { NothingTaken(s, k - 1); }
  }

  ghost function Calls(s: seq<byte>, k: nat): (os: seq<Outcome>)
    ensures |os| == k
  {
    if k == 0 then [] else Calls(s, k - 1) + [Call(s, k - 1)]
  }

  /** The first k reads give the complete blobs, then what follows them. */
  lemma {:induction false} CallsAt(s: seq<byte>, k: nat, i: nat)
    requires i < k
    ensures Calls(s, k)[i] == if i < |Blobs(s)| then Blob(Blobs(s)[i]) else if Leftover(s) == [] then AtEnd else Invalid
  {
    if i < k - 1 { CallsAt(s, k - 1, i); } else { CallsGiveBlobs(s, i); }
  }

  /** Reads give the complete blobs in order, then the end, or an error if anything is left over. */
  lemma {:induction false} CallsGiveBlobs(s: seq<byte>, k: nat)
    ensures Call(s, k) == if k < |Blobs(s)| then Blob(Blobs(s)[k]) else if Leftover(s) == [] then AtEnd else Invalid
    decreases k
  {
    if HasBlob(s) {
      if k > 0 { CallsGiveBlobs(AfterBlob(s), k - 1); }
    }
  }

  /** ... so what was written as a list of blobs is read back as that list. */
  lemma {:induction false} ReadsBack(fs: seq<Frame>, k: nat)
    requires AllSendable(fs)
    ensures Call(Stream(fs), k) == if k < |fs| then Blob(fs[k]) else AtEnd
  {
    BlobsOfStream(fs);
    CallsGiveBlobs(Stream(fs), k);
  }
}
