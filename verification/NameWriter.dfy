/** perf_dname_fromstring on the buffer: two scans of each label, and the label's bytes appended. */
module NameWriter {
  import opened Framing
  import opened DnsName
  import opened WireBuffer

  /** One turn of the first scan: past an octet, unless its escape is bad. */
  method SkipOctet(s: seq<byte>, from: nat) returns (ok: bool, at: nat, quoted: bool)
    requires from < |s| && s[from] != DOT
    ensures ok == FrontOf(s[from..]).Front?
    ensures ok ==> at == from + FrontOf(s[from..]).chars
    ensures !quoted ==> FrontOf(s[from..]) == Front(s[from], 1)
  {
    ghost var rest := s[from..];
    ok, at, quoted := true, from, s[from] == BACKSLASH;
    if quoted {
      at := at + 1;
      if at >= |s| { return false, at, quoted; }
      assert rest[1] == s[at];
      if IsDigit(s[at]) {
        at := at + 1;
        if at >= |s| || !IsDigit(s[at]) { return false, at, quoted; }
        assert rest[2] == s[at];
        at := at + 1;
        if at >= |s| || !IsDigit(s[at]) { return false, at, quoted; }
        assert rest[3] == s[at];
      }
    }
    at := at + 1;
  }

  /** How a scan that has come to `at` stands to the scan of the whole. */
  ghost predicate Scanned(s: seq<byte>, at: nat, labelLen: nat, quoted: bool) {
    && at <= |s|
    && var all, rest := ScanLabel(s), ScanLabel(s[at..]);
    && all.Bad? == rest.Bad?
    && (all.Label? ==>
          && labelLen + |rest.octets| == |all.octets|
          && at + rest.used == all.used
          && (!quoted ==> labelLen == at && s[..at] + rest.octets == all.octets))
  }

  lemma {:induction false} ScanUnfolds(s: seq<byte>, at: nat)
    requires at <= |s| && FrontOf(s[at..]).Front?
    ensures ScanLabel(s[at..]) == More(FrontOf(s[at..]).octet, FrontOf(s[at..]).chars, ScanLabel(s[at + FrontOf(s[at..]).chars..]))
  {
    assert s[at..][FrontOf(s[at..]).chars..] == s[at + FrontOf(s[at..]).chars..];
  }

  lemma {:induction false} ScanOn(s: seq<byte>, at: nat, labelLen: nat, was: bool, quoted: bool, f: Front)
    requires Scanned(s, at, labelLen, was) && f.Front? && at + f.chars <= |s|
    requires ScanLabel(s[at..]) == More(f.octet, f.chars, ScanLabel(s[at + f.chars..]))
    requires !quoted ==> f == Front(s[at], 1)
    ensures Scanned(s, at + f.chars, labelLen + 1, was || quoted)
  {
    var rest := ScanLabel(s[at + f.chars..]);
    if rest.Label? && !was && !quoted {
      assert s[..at + 1] + rest.octets == s[..at] + ([f.octet] + rest.octets);
    }
  }

  lemma {:induction false} ScanEnds(s: seq<byte>, at: nat, labelLen: nat, quoted: bool)
    requires Scanned(s, at, labelLen, quoted) && !FrontOf(s[at..]).Front?
    ensures ScanLabel(s).Label? == FrontOf(s[at..]).End?
    ensures ScanLabel(s).Label? ==> labelLen == |ScanLabel(s).octets| && at == ScanLabel(s).used
    ensures ScanLabel(s).Label? && !quoted ==> labelLen == at && s[..at] == ScanLabel(s).octets
  {
    if ScanLabel(s).Label? && !quoted { assert s[..at] + [] == s[..at]; }
  }

  method ScanNext(s: seq<byte>, from: nat, labelLen: nat, was: bool) returns (ok: bool, at: nat, quoted: bool)
    requires from < |s| && s[from] != DOT && Scanned(s, from, labelLen, was)
    ensures ok ==> from < at && Scanned(s, at, labelLen + 1, quoted)
    ensures !ok ==> ScanLabel(s).Bad?
  {
    ok, at, quoted := SkipOctet(s, from);
    if ok {
      ScanUnfolds(s, from);
      ScanOn(s, from, labelLen, was, quoted, FrontOf(s[from..]));
      quoted := was || quoted;
    } else {
      ScanEnds(s, from, labelLen, was);
    }
  }

  /** The first scan: the label's length and where it ends, or a bad escape. */
  method ScanOnce(s: seq<byte>) returns (ok: bool, labelLen: nat, at: nat, quoted: bool)
    ensures ok == ScanLabel(s).Label?
    ensures ok ==> labelLen == |ScanLabel(s).octets| && at == ScanLabel(s).used <= |s|
    ensures ok && !quoted ==> labelLen == at && s[..at] == ScanLabel(s).octets
  {
    labelLen, at, quoted := 0, 0, false;
    ScanStarts(s);
    while at < |s| && s[at] != DOT
      invariant Scanned(s, at, labelLen, quoted)
    {
      ok, at, quoted := ScanNext(s, at, labelLen, quoted);
      if !ok { return; }
      labelLen := labelLen + 1;
    }
    ScanEnds(s, at, labelLen, quoted);
    ok := true;
  }

  lemma {:induction false} ScanStarts(s: seq<byte>)
    ensures Scanned(s, 0, 0, false)
  {
    assert s[0..] == s;
    if ScanLabel(s).Label? { assert s[..0] + ScanLabel(s).octets == ScanLabel(s).octets; }
  }

  /** One turn of the second scan: the octet is appended, unless it is too large for one. */
  method PutOctet(s: seq<byte>, from: nat, target: Buffer) returns (ok: bool, at: nat)
    requires from <= |s| && FrontOf(s[from..]).Front?
    requires target.Valid() && (FrontOf(s[from..]).octet < 256 ==> target.Available() >= 1)
    modifies target`used, target.base
    ensures target.Valid() && ok == (FrontOf(s[from..]).octet < 256)
    ensures ok ==> at == from + FrontOf(s[from..]).chars && target.Contents() == old(target.Contents()) + [FrontOf(s[from..]).octet]
    ensures !ok ==> target.Contents() == old(target.Contents())
  {
    ok, at := true, from;
    ghost var rest := s[from..];
    if s[at] == BACKSLASH {
      at := at + 1;
      assert rest[1] == s[at];
      if IsDigit(s[at]) {
        assert rest[2] == s[at + 1] && rest[3] == s[at + 2];
        var v := EscapeValue(s[at], s[at + 1], s[at + 2]);
        at := at + 3;
        if v > 255 { return false, at; }
        target.PutUint8(v);
        return;
      }
    }
    target.PutUint8(s[at]);
    at := at + 1;
  }

  /** What the second scan of a label has appended when `rest` of it is to come. */
  ghost predicate Appended(all: Scan, rest: Scan, at: nat, done: seq<byte>) {
    && all.Label? && rest.Label?
    && at + rest.used == all.used
    && done + Writable(rest.octets) == Writable(all.octets)
    && |done| + |rest.octets| == |all.octets|
  }

  lemma {:induction false} WritableStep(octet: nat, octets: seq<nat>)
    ensures octet >= 256 ==> Writable([octet] + octets) == []
    ensures octet < 256 ==> Writable([octet] + octets) == [octet] + Writable(octets)
  {
    assert ([octet] + octets)[1..] == octets;
  }

  lemma {:induction false} AppendOn(all: Scan, rest: Scan, at: nat, done: seq<byte>, octet: byte, chars: nat, next: Scan)
    requires Appended(all, rest, at, done) && rest == More(octet, chars, next)
    ensures Appended(all, next, at + chars, done + [octet]) && |done| < |Writable(all.octets)|
  {
    WritableStep(octet, next.octets);
    assert done + [octet] + Writable(next.octets) == done + ([octet] + Writable(next.octets));
  }

  lemma {:induction false} AppendStops(all: Scan, rest: Scan, at: nat, done: seq<byte>, octet: nat, chars: nat, next: Scan)
    requires Appended(all, rest, at, done) && rest == More(octet, chars, next) && octet >= 256
    ensures done == Writable(all.octets) && |done| < |all.octets|
  {
    WritableStep(octet, next.octets);
    assert done + [] == done;
  }

  method CopyNext(s: seq<byte>, from: nat, target: Buffer, ghost all: Scan, ghost done: seq<byte>)
    returns (ok: bool, at: nat, ghost octet: byte)
    requires from < |s| && s[from] != DOT && Appended(all, ScanLabel(s[from..]), from, done)
    requires target.Valid() && |Writable(all.octets)| - |done| <= target.Available()
    modifies target`used, target.base
    ensures target.Valid()
    ensures ok ==> from < at <= |s| && Appended(all, ScanLabel(s[at..]), at, done + [octet])
    ensures ok ==> target.Contents() == old(target.Contents()) + [octet]
    ensures !ok ==> done == Writable(all.octets) && |done| < |all.octets| && target.Contents() == old(target.Contents())
  {
    ghost var f, rest := FrontOf(s[from..]), ScanLabel(s[from..]);
    ScanUnfolds(s, from);
    ghost var next := ScanLabel(s[from + f.chars..]);
    if f.octet < 256 {
      AppendOn(all, rest, from, done, f.octet, f.chars, next);
      octet := f.octet;
    } else {
      AppendStops(all, rest, from, done, f.octet, f.chars, next);
      octet := 0;
    }
    ok, at := PutOctet(s, from, target);
  }

  /** The second scan: the octets of a label whose first scan met a backslash. */
  method CopyQuoted(s: seq<byte>, target: Buffer, ghost all: Scan) returns (ok: bool, at: nat)
    requires all == ScanLabel(s) && all.Label?
    requires target.Valid() && |Writable(all.octets)| <= target.Available()
    modifies target`used, target.base
    ensures target.Valid() && target.Contents() == old(target.Contents()) + Writable(all.octets)
    ensures ok == (|Writable(all.octets)| == |all.octets|)
    ensures ok ==> at == all.used
  {
    at := 0;
    ghost var done: seq<byte> := [];
    AppendStarts(s);
    while at < |s| && s[at] != DOT
      invariant at <= |s| && Appended(all, ScanLabel(s[at..]), at, done)
      invariant target.Valid() && target.Contents() == old(target.Contents()) + done
    {
      ghost var octet;
      ghost var before := target.Contents();
      ok, at, octet := CopyNext(s, at, target, all, done);
      if !ok { return; }
      assert old(target.Contents()) + (done + [octet]) == before + [octet];
      done := done + [octet];
    }
    AppendEnds(s, at, done);
    ok := true;
  }

  lemma {:induction false} AppendStarts(s: seq<byte>)
    requires ScanLabel(s).Label?
    ensures Appended(ScanLabel(s), ScanLabel(s[0..]), 0, [])
  {
    assert s[0..] == s;
  }

  lemma {:induction false} AppendEnds(s: seq<byte>, at: nat, done: seq<byte>)
    requires at <= |s| && (at < |s| ==> s[at] == DOT) && Appended(ScanLabel(s), ScanLabel(s[at..]), at, done)
    ensures at == ScanLabel(s).used && done == Writable(ScanLabel(s).octets) && |done| == |ScanLabel(s).octets|
  {
    assert ScanLabel(s[at..]) == Label([], 0);
    assert done + [] == done;
  }

  /** The label's octets, copied whole when the first scan met no backslash. */
  method PutOctets(s: seq<byte>, labelLen: nat, quoted: bool, target: Buffer, ghost scan: Scan) returns (ok: bool, at: nat)
    requires scan == ScanLabel(s) && scan.Label? && labelLen == |scan.octets|
    requires !quoted ==> labelLen == scan.used <= |s| && s[..labelLen] == scan.octets
    requires target.Valid() && |Writable(scan.octets)| <= target.Available()
    modifies target`used, target.base
    ensures target.Valid() && target.Contents() == old(target.Contents()) + Writable(scan.octets)
    ensures ok == (|Writable(scan.octets)| == labelLen)
    ensures ok ==> at == scan.used
  {
    if quoted {
      ok, at := CopyQuoted(s, target, scan);
    } else {
      var octets := s[..labelLen];
      BytesAreWritable(octets);
      target.PutMem(octets);
      ok, at := true, labelLen;
    }
  }

  /** The length octet and the label. */
  method PutLabel(s: seq<byte>, labelLen: byte, quoted: bool, target: Buffer, ghost scan: Scan) returns (ok: bool, at: nat)
    requires scan == ScanLabel(s) && scan.Label? && labelLen == |scan.octets|
    requires !quoted ==> labelLen == scan.used <= |s| && s[..labelLen] == scan.octets
    requires target.Valid() && 1 + |Writable(scan.octets)| <= target.Available()
    modifies target`used, target.base
    ensures target.Valid() && target.Contents() == old(target.Contents()) + ([labelLen] + Writable(scan.octets))
    ensures ok == (|Writable(scan.octets)| == labelLen)
    ensures ok ==> at == scan.used
  {
    target.PutUint8(labelLen);
    ok, at := PutOctets(s, labelLen, quoted, target, scan);
    InFront(old(target.Contents()), labelLen, Writable(scan.octets));
  }

  lemma {:induction false} InFront(c: seq<byte>, b: byte, tail: seq<byte>)
    ensures c + [b] + tail == c + ([b] + tail)
  {
  }

  lemma {:induction false} BytesAreWritable(bytes: seq<byte>)
    ensures Writable(bytes) == bytes
  {
    if bytes != [] {
      BytesAreWritable(bytes[1..]);
      assert bytes == [bytes[0]] + bytes[1..];
    }
  }

  /** What one turn of the outer loop comes to: the call is over, or there is more of the string. */
  datatype Turn = Over(ok: bool) | Onward(s: seq<byte>, max: nat)

  ghost predicate TurnOf(s: seq<byte>, first: bool, max: nat, turn: Turn, written: seq<byte>) {
    match turn
    case Over(ok) => Emit(s, first, max) == Emitted(ok, written)
    case Onward(rest, left) =>
      && |rest| < |s|
      && var tail := Emit(rest, false, left);
         Emit(s, first, max) == Emitted(tail.ok, written + tail.bytes)
  }

  lemma {:induction false} TurnOfLabel(s: seq<byte>, scan: Scan, first: bool, max: nat)
    requires s != [] && scan == ScanLabel(s) && scan.Label? && Fits(scan.octets, max)
    ensures var w := Writable(scan.octets);
            var head := [|scan.octets| as byte] + w;
            && (|w| < |scan.octets| ==> TurnOf(s, first, max, Over(false), head))
            && (|w| == |scan.octets| && |s| - scan.used < 2 ==> TurnOf(s, first, max, Over(true), head + [0]))
            && (|w| == |scan.octets| && |s| - scan.used >= 2 ==>
                  TurnOf(s, first, max, Onward(s[scan.used + 1..], max - |scan.octets| - 1), head))
  {
  }

  /** One turn of the outer loop. */
  method TakeLabel(s: seq<byte>, first: bool, max: nat, target: Buffer) returns (turn: Turn, ghost more: seq<byte>)
    requires s != []
    requires target.Valid() && |Emit(s, first, max).bytes| <= target.Available()
    modifies target`used, target.base
    ensures target.Valid() && target.Contents() == old(target.Contents()) + more
    ensures TurnOf(s, first, max, turn, more)
  {
    more := [];
    var ok, labelLen, at, quoted := ScanOnce(s);
    if !ok { return Over(false), more; }
    if labelLen == 0 {
      if |s| > 1 || !first { return Over(false), more; }
      target.PutUint8(0);
      return Over(true), [0];
    }
    if labelLen > 63 || max - (labelLen + 1) < 0 { return Over(false), more; }
    turn, more := PutFitting(s, first, max, labelLen, quoted, target, ScanLabel(s));
  }

  method PutFitting(s: seq<byte>, first: bool, max: nat, labelLen: byte, quoted: bool, target: Buffer, ghost scan: Scan)
    returns (turn: Turn, ghost more: seq<byte>)
    requires s != [] && scan == ScanLabel(s) && scan.Label? && labelLen == |scan.octets| && Fits(scan.octets, max)
    requires !quoted ==> labelLen == scan.used <= |s| && s[..labelLen] == scan.octets
    requires target.Valid() && |Emit(s, first, max).bytes| <= target.Available()
    modifies target`used, target.base
    ensures target.Valid() && target.Contents() == old(target.Contents()) + more
    ensures TurnOf(s, first, max, turn, more)
  {
    TurnOfLabel(s, scan, first, max);
    more := [labelLen] + Writable(scan.octets);
    var ok, at := PutLabel(s, labelLen, quoted, target, scan);
    if !ok { return Over(false), more; }
    if |s| - at < 2 {
      target.PutUint8(0);
      return Over(true), more + [0];
    }
    return Onward(s[at + 1..], max - (labelLen as nat) - 1), more;
  }

  /** What was written and what is still to come are what the whole string comes to. */
  ghost predicate Pending(whole: Emitted, rest: Emitted, written: seq<byte>) {
    whole.ok == rest.ok && written + rest.bytes == whole.bytes
  }

  lemma {:induction false} PendingOn(whole: Emitted, written: seq<byte>, s: seq<byte>, first: bool, max: nat,
                                     turn: Turn, more: seq<byte>)
    requires Pending(whole, Emit(s, first, max), written) && TurnOf(s, first, max, turn, more)
    ensures turn.Over? ==> whole == Emitted(turn.ok, written + more)
    ensures turn.Onward? ==> Pending(whole, Emit(turn.s, false, turn.max), written + more)
  {
    if turn.Onward? {
      var tail := Emit(turn.s, false, turn.max);
      assert written + (more + tail.bytes) == written + more + tail.bytes;
    }
  }

  /** The outer loop. */
  method PutName(str: seq<byte>, target: Buffer) returns (ok: bool)
    requires target.Valid() && |Name(str).bytes| <= target.Available()
    modifies target`used, target.base
    ensures target.Valid() && target.Contents() == old(target.Contents()) + Name(str).bytes
    ensures ok == Name(str).ok
  {
    var s, first, max := str, true, 255;
    ghost var whole, written: seq<byte>, more := Name(str), [], [];
    while s != []
      invariant Pending(whole, Emit(s, first, max), written)
      invariant target.Valid() && target.Contents() == old(target.Contents()) + written
      decreases |s|
    {
      var turn;
      ghost var before := target.Contents();
      turn, more := TakeLabel(s, first, max, target);
      PendingOn(whole, written, s, first, max, turn, more);
      assert old(target.Contents()) + (written + more) == before + more;
      written := written + more;
      if turn.Over? {
        return turn.ok;
      }
      s, first, max := turn.s, false, turn.max;
    }
    ok := true;
  }

  /** The check for space, which counts characters, and then the name. */
  method FromString(str: seq<byte>, target: Buffer) returns (r: Result)
    requires target.Valid()
    requires |str| <= target.Available() ==> |Name(str).bytes| <= target.Available()
    modifies target`used, target.base
    ensures target.Valid()
    ensures old(target.Available()) < |str| ==> r == NoSpace && target.Contents() == old(target.Contents())
    ensures |str| <= old(target.Available()) ==>
              && r == (if Name(str).ok then Success else Failure)
              && target.Contents() == old(target.Contents()) + Name(str).bytes
  {
    if target.Available() < |str| { return NoSpace; }
    var ok := PutName(str, target);
    r := if ok then Success else Failure;
  }
}
