/**
 * DNS messages without compression, as section 4.1 of RFC 1035 lays them out: a reader that knows
 * nothing of how the program builds them.
 */
module MessageFormat {
  import opened Framing
  import opened DnsName
  import opened WireBuffer

  datatype Option<T> = None | Some(value: T)

  datatype Record = Record(owner: seq<seq<nat>>, rtype: nat, rclass: nat, ttl: seq<byte>, rdata: seq<byte>)
  datatype Message = Message(id: nat, flags: nat, name: seq<seq<nat>>, qtype: nat, qclass: nat, additional: seq<Record>)

  function At(s: seq<byte>, i: nat): nat
    requires i + 2 <= |s|
  {
    LengthAt(s[i..])
  }

  /** A name at the front, and what follows it. */
  function ReadName(s: seq<byte>): Option<(seq<seq<nat>>, seq<byte>)> {
    if s == [] || s[0] > 63 then None
    else if s[0] == 0 then Some(([], s[1..]))
    else if |s| < 1 + s[0] as nat then None
    else
      var n := s[0] as nat;
      match ReadName(s[1 + n..])
      case None => None
      case Some((ls, rest)) => Some(([s[1..1 + n]] + ls, rest))
  }

  /** The part of a record after its owner: type, class, TTL, RDLENGTH and as much RDATA. */
  function ReadBody(owner: seq<seq<nat>>, s: seq<byte>): Option<(Record, seq<byte>)> {
    if |s| < 10 || |s| < 10 + At(s, 8) then None
    else Some((Record(owner, At(s, 0), At(s, 2), s[4..8], s[10..10 + At(s, 8)]), s[10 + At(s, 8)..]))
  }

  function ReadRecord(s: seq<byte>): Option<(Record, seq<byte>)> {
    match ReadName(s)
    case None => None
    case Some((owner, rest)) => ReadBody(owner, rest)
  }

  /** So many records and nothing after them. */
  function ReadRecords(s: seq<byte>, count: nat): Option<seq<Record>>
    decreases count
  {
    if count == 0 then (if s == [] then Some([]) else None)
    else
      match ReadRecord(s)
      case None => None
      case Some((r, rest)) =>
        match ReadRecords(rest, count - 1)
        case None => None
        case Some(rs) => Some([r] + rs)
  }

  /** The question and the additional records: what follows the header. */
  datatype Sections = Sections(name: seq<seq<nat>>, qtype: nat, qclass: nat, additional: seq<Record>)

  function ReadSections(s: seq<byte>, count: nat): Option<Sections> {
    match ReadName(s)
    case None => None
    case Some((name, rest)) =>
      if |rest| < 4 then None
      else
        match ReadRecords(rest[4..], count)
        case None => None
        case Some(rs) => Some(Sections(name, At(rest, 0), At(rest, 2), rs))
  }

  /** One question, no answers and no authority, and as many additional records as ARCOUNT says. */
  function Read(s: seq<byte>): Option<Message> {
    if |s| < 12 || At(s, 4) != 1 || At(s, 6) != 0 || At(s, 8) != 0 then None
    else
      match ReadSections(s[12..], At(s, 10))
      case None => None
      case Some(x) => Some(Message(At(s, 0), At(s, 2), x.name, x.qtype, x.qclass, x.additional))
  }

  /** RDATA of a TSIG record, as section 4.2 of RFC 8945 lays it out. */
  datatype TsigFields = TsigFields(alg: seq<seq<nat>>, time: seq<byte>, fudge: nat, mac: seq<byte>,
                                   originalId: nat, error: nat, other: seq<byte>)

  function ReadTsig(rdata: seq<byte>): Option<TsigFields> {
    match ReadName(rdata)
    case None => None
    case Some((alg, s)) =>
      if |s| < 10 then None
      else
        var n := At(s, 8);
        if |s| < 16 + n || |s| != 16 + n + At(s, 14 + n) then None
        else Some(TsigFields(alg, s[..6], At(s, 6), s[10..10 + n], At(s, 10 + n), At(s, 12 + n), s[16 + n..]))
  }

  // ---- Writing what is read back ----

  lemma {:induction false} AtFront(a: seq<byte>, v: nat, b: seq<byte>)
    requires v < 65536
    ensures At(a + Uint16(v) + b, |a|) == v
  {
    var s := a + Uint16(v) + b;
    assert s[|a|..][0] == Uint16(v)[0] && s[|a|..][1] == Uint16(v)[1];
  }

  lemma {:induction false} ReadNameBack(ls: seq<seq<nat>>, rest: seq<byte>)
    requires AllLegal(ls)
    ensures ReadName(Wire(ls) + rest) == Some((ls, rest))
  {
    var s := Wire(ls) + rest;
    if ls == [] {
      assert s[1..] == rest;
    } else {
      var l := ls[0];
      WritableIsAll(l);
      ReadNameBack(ls[1..], rest);
      assert s == WireLabel(l) + (Wire(ls[1..]) + rest);
      ReadLabelBack(l, Wire(ls[1..]) + rest);
      assert [l] + ls[1..] == ls;
    }
  }

  lemma {:induction false} ReadLabelBack(l: seq<nat>, rest: seq<byte>)
    requires LegalLabel(l) && Writable(l) == l
    ensures var s := WireLabel(l) + rest;
            && s[0] == |l|
            && |s| >= 1 + |l|
            && s[1..1 + |l|] == l
            && s[1 + |l|..] == rest
  {
  }

  /** A record as it is written. */
  ghost function Body(rtype: nat, rclass: nat, ttl: seq<byte>, rdata: seq<byte>): seq<byte> {
    Uint16(rtype) + Uint16(rclass) + ttl + Uint16(|rdata|) + rdata
  }

  lemma {:induction false} ReadBodyBack(owner: seq<seq<nat>>, rtype: nat, rclass: nat, ttl: seq<byte>,
                                        rdata: seq<byte>, rest: seq<byte>)
    requires rtype < 65536 && rclass < 65536 && |ttl| == 4 && |rdata| < 65536
    ensures ReadBody(owner, Body(rtype, rclass, ttl, rdata) + rest) == Some((Record(owner, rtype, rclass, ttl, rdata), rest))
  {
    var s := Body(rtype, rclass, ttl, rdata) + rest;
    var t, c, n := Uint16(rtype), Uint16(rclass), Uint16(|rdata|);
    assert s == [] + t + (c + ttl + n + rdata + rest);
    AtFront([], rtype, c + ttl + n + rdata + rest);
    assert s == t + c + (ttl + n + rdata + rest);
    AtFront(t, rclass, ttl + n + rdata + rest);
    assert s == t + c + ttl + n + (rdata + rest);
    AtFront(t + c + ttl, |rdata|, rdata + rest);
    assert s[4..8] == ttl;
    assert s[10..10 + |rdata|] == rdata;
    assert s[10 + |rdata|..] == rest;
  }

  // ---- Adding a record ----

  lemma {:induction false} ReadNameMore(s: seq<byte>, more: seq<byte>)
    requires ReadName(s).Some?
    ensures ReadName(s + more) == Some((ReadName(s).value.0, ReadName(s).value.1 + more))
  {
    var n := s[0] as nat;
    if n == 0 {
      assert (s + more)[1..] == s[1..] + more;
    } else {
      ReadNameMore(s[1 + n..], more);
      assert (s + more)[1 + n..] == s[1 + n..] + more;
      assert (s + more)[1..1 + n] == s[1..1 + n];
    }
  }

  lemma {:induction false} AtMore(s: seq<byte>, i: nat, more: seq<byte>)
    requires i + 2 <= |s|
    ensures At(s + more, i) == At(s, i)
  {
    assert (s + more)[i..][0] == s[i..][0] && (s + more)[i..][1] == s[i..][1];
  }

  lemma {:induction false} ReadBodyMore(owner: seq<seq<nat>>, s: seq<byte>, more: seq<byte>)
    requires ReadBody(owner, s).Some?
    ensures ReadBody(owner, s + more) == Some((ReadBody(owner, s).value.0, ReadBody(owner, s).value.1 + more))
  {
    AtMore(s, 0, more);
    AtMore(s, 2, more);
    AtMore(s, 8, more);
    var n := At(s, 8);
    assert (s + more)[4..8] == s[4..8];
    assert (s + more)[10..10 + n] == s[10..10 + n];
    assert (s + more)[10 + n..] == s[10 + n..] + more;
  }

  lemma {:induction false} ReadRecordMore(s: seq<byte>, more: seq<byte>)
    requires ReadRecord(s).Some?
    ensures ReadRecord(s + more) == Some((ReadRecord(s).value.0, ReadRecord(s).value.1 + more))
  {
    ReadNameMore(s, more);
    ReadBodyMore(ReadName(s).value.0, ReadName(s).value.1, more);
  }

  lemma {:induction false} ReadRecordsMore(s: seq<byte>, count: nat, record: seq<byte>, r: Record)
    requires ReadRecords(s, count).Some? && ReadRecord(record) == Some((r, []))
    ensures ReadRecords(s + record, count + 1) == Some(ReadRecords(s, count).value + [r])
    decreases count
  {
    if count == 0 {
      assert s + record == record;
      assert ReadRecords([], 0) == Some([]);
      assert [r] + [] == [] + [r];
    } else {
      ReadRecordMore(s, record);
      var first, rest := ReadRecord(s).value.0, ReadRecord(s).value.1;
      ReadRecordsMore(rest, count - 1, record, r);
      assert [first] + (ReadRecords(rest, count - 1).value + [r]) == [first] + ReadRecords(rest, count - 1).value + [r];
    }
  }

  /** base[11]++: one more additional record. */
  function Counted(msg: seq<byte>): seq<byte>
    requires |msg| >= 12
  {
    msg[11 := (msg[11] as nat + 1) % 256]
  }

  lemma {:induction false} CountedAt(s: seq<byte>, i: nat, more: seq<byte>)
    requires |s| >= 12 && i <= 10
    ensures i < 10 ==> At(Counted(s) + more, i) == At(s, i)
    ensures i == 10 && s[11] < 255 ==> At(Counted(s) + more, i) == At(s, i) + 1
  {
    var t := Counted(s) + more;
    assert t[i..][0] == Counted(s)[i] && t[i..][1] == Counted(s)[i + 1];
    assert s[i..][0] == s[i] && s[i..][1] == s[i + 1];
  }

  lemma {:induction false} HeaderOfCounted(s: seq<byte>, more: seq<byte>)
    requires |s| >= 12 && s[11] < 255
    ensures var t := Counted(s) + more;
            && At(t, 0) == At(s, 0) && At(t, 2) == At(s, 2) && At(t, 4) == At(s, 4)
            && At(t, 6) == At(s, 6) && At(t, 8) == At(s, 8) && At(t, 10) == At(s, 10) + 1
  {
    CountedAt(s, 0, more);
    CountedAt(s, 2, more);
    CountedAt(s, 4, more);
    CountedAt(s, 6, more);
    CountedAt(s, 8, more);
    CountedAt(s, 10, more);
  }

  lemma {:induction false} CountedRest(s: seq<byte>, more: seq<byte>)
    requires |s| >= 12
    ensures (Counted(s) + more)[12..] == s[12..] + more
  {
  }

  lemma {:induction false} SectionsMore(s: seq<byte>, count: nat, record: seq<byte>, r: Record)
    requires ReadSections(s, count).Some? && ReadRecord(record) == Some((r, []))
    ensures var x := ReadSections(s, count).value;
            ReadSections(s + record, count + 1) == Some(x.(additional := x.additional + [r]))
  {
    ReadNameMore(s, record);
    var rest := ReadName(s).value.1;
    AtMore(rest, 0, record);
    AtMore(rest, 2, record);
    assert (rest + record)[4..] == rest[4..] + record;
    ReadRecordsMore(rest[4..], count, record, r);
  }

  /** A record put at the end, with the count raised, is read after the others. */
  lemma {:induction false} AddsRecord(s: seq<byte>, record: seq<byte>, r: Record)
    requires Read(s).Some? && s[11] < 255 && ReadRecord(record) == Some((r, []))
    ensures Read(Counted(s) + record) == Some(Read(s).value.(additional := Read(s).value.additional + [r]))
  {
    HeaderOfCounted(s, record);
    CountedRest(s, record);
    SectionsMore(s[12..], At(s, 10), record, r);
  }
}
