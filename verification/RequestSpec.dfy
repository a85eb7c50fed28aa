/**
 * What perf_dns_buildrequest writes for a query (src/dns.c, src/edns.c, src/tsig.c), and that the
 * message reads back. Looking up a query type and computing a digest are parameters.
 */
module RequestSpec {
  import opened Framing
  import opened DnsName
  import opened WireBuffer
  import opened MessageFormat

  /** What EVP_DigestSignFinal can return: at most EVP_MAX_MD_SIZE bytes. */
  type Digest = md: seq<byte> | |md| <= 64

  /** A query type in the table, which is a uint16_t. */
  type Qtype = v: nat | v < 65536

  // ---- The input line ----

  /** strcspn(s, " \t\n"), which also stops at the terminating NUL. */
  predicate EndsWord(b: byte) { b == 0 || b == 9 || b == 10 || b == 32 }

  predicate IsSpace(b: byte) { 9 <= b <= 13 || b == 32 }

  function Word(s: seq<byte>): (t: seq<byte>)
    ensures |t| <= |s|
  {
    if s == [] || EndsWord(s[0]) then [] else [s[0]] + Word(s[1..])
  }

  function AfterSpaces(s: seq<byte>): seq<byte> {
    if s == [] || !IsSpace(s[0]) then s else AfterSpaces(s[1..])
  }

  function Domain(line: seq<byte>): seq<byte> { Word(line) }

  function TypeText(line: seq<byte>): seq<byte> { Word(AfterSpaces(line[|Word(line)|..])) }

  // ---- Header and question ----

  const RD: nat := 0x0100

  function Header(qid: nat): (h: seq<byte>)
    ensures |h| == 12
  {
    Uint16(qid) + Uint16(RD) + Uint16(1) + Uint16(0) + Uint16(0) + Uint16(0)
  }

  function QueryResult(line: seq<byte>, qtypeOf: seq<byte> -> Option<Qtype>, available: nat): Result {
    if Domain(line) == [] then Failure
    else if available < |Domain(line)| then NoSpace
    else if !Name(Domain(line)).ok || TypeText(line) == [] || qtypeOf(TypeText(line)).None? then Failure
    else Success
  }

  function Question(line: seq<byte>, qtypeOf: seq<byte> -> Option<Qtype>): seq<byte>
    requires qtypeOf(TypeText(line)).Some?
  {
    Name(Domain(line)).bytes + Uint16(qtypeOf(TypeText(line)).value) + Uint16(1)
  }

  // ---- Additional records ----

  const MAX_EDNS_PACKET: nat := 4096
  const EDNSLEN: nat := 11

  datatype Edns = Edns(dnssec: bool, option: Option<seq<byte>>)

  function OptionBytes(e: Edns): seq<byte> { if e.option.Some? then e.option.value else [] }

  /** Section 6.1.2 of RFC 6891: owner, type and class, then extended code, version and flags. */
  function OptHead(dnssec: bool): (h: seq<byte>)
    ensures |h| == 9
  {
    [0] + Uint16(41) + Uint16(MAX_EDNS_PACKET) + [0] + [0] + Uint16(if dnssec then 0x8000 else 0)
  }

  function OptRecord(e: Edns): (r: seq<byte>)
    ensures |r| == EDNSLEN + |OptionBytes(e)|
  {
    OptHead(e.dnssec) + Uint16(|OptionBytes(e)|) + OptionBytes(e)
  }

  /** A key; the digest is some function of what is digested. */
  datatype Tsig = Tsig(name: seq<byte>, alg: seq<byte>, hmac: seq<byte> -> Digest)

  /** The fields that are digested after the message. */
  function DigestFields(key: Tsig, now: nat): seq<byte> {
    Name(key.name).bytes + Uint16(255) + Uint32(0) + Name(key.alg).bytes + DigestTail(now)
  }

  function DigestTail(now: nat): (t: seq<byte>)
    ensures |t| == 12
  {
    Uint16(0) + Uint32(now) + Uint16(300) + Uint16(0) + Uint16(0)
  }

  function Mac(msg: seq<byte>, key: Tsig, now: nat): Digest { key.hmac(msg + DigestFields(key, now)) }

  /** rdlen and totallen of the program. */
  function RdLength(key: Tsig, md: Digest): nat { |key.alg| + 18 + |md| }

  function TotalLength(key: Tsig, md: Digest): nat { |key.name| + 12 + RdLength(key, md) }

  /** Section 4.2 of RFC 8945, from the algorithm's name in wire form. */
  function TsigData(alg: seq<byte>, now: nat, md: Digest, id: seq<byte>): (d: seq<byte>)
    ensures |d| == |alg| + 14 + |md| + |id|
  {
    alg + TsigTail(Uint16(0) + Uint32(now), md, id)
  }

  function TsigTail(time: seq<byte>, md: Digest, id: seq<byte>): seq<byte> {
    time + Uint16(300) + Uint16(|md|) + md + id + Uint16(0) + Uint16(0)
  }

  /** From the owner in wire form; the length field is what the program computed. */
  function TsigBytes(owner: seq<byte>, rdlen: nat, data: seq<byte>): seq<byte> {
    owner + Uint16(250) + Uint16(255) + Uint32(0) + Uint16(rdlen) + data
  }

  function Data(msg: seq<byte>, key: Tsig, now: nat): seq<byte>
    requires |msg| >= 12
  {
    TsigData(Name(key.alg).bytes, now, Mac(msg, key, now), msg[..2])
  }

  function TsigRecord(msg: seq<byte>, key: Tsig, now: nat): seq<byte>
    requires |msg| >= 12
  {
    TsigBytes(Name(key.name).bytes, RdLength(key, Mac(msg, key, now)), Data(msg, key, now))
  }

  // ---- The whole message ----

  function WithOpt(msg: seq<byte>, e: Edns): seq<byte>
    requires |msg| >= 12
  {
    Counted(msg) + OptRecord(e)
  }

  function WithTsig(msg: seq<byte>, key: Tsig, now: nat): seq<byte>
    requires |msg| >= 12
  {
    Counted(msg) + TsigRecord(msg, key, now)
  }

  /** What came of building, and the message if it succeeded. */
  datatype Built = Built(r: Result, msg: seq<byte>)

  function AddEdns(b: Built, capacity: nat, e: Edns): Built
    requires 12 <= |b.msg| <= capacity
  {
    if b.r != Success then b
    else if capacity - |b.msg| < EDNSLEN + |OptionBytes(e)| then b.(r := NoSpace)
    else Built(Success, WithOpt(b.msg, e))
  }

  function AddTsig(b: Built, capacity: nat, key: Tsig, now: nat): Built
    requires 12 <= |b.msg| <= capacity
  {
    if b.r != Success then b
    else if !Name(key.name).ok then b.(r := Failure)
    else if TotalLength(key, Mac(b.msg, key, now)) > capacity - |b.msg| then b.(r := NoSpace)
    else Built(Success, WithTsig(b.msg, key, now))
  }

  /** An algorithm name as the program has them: legal, unescaped and without a final dot. */
  ghost predicate PlainName(alg: seq<byte>) { Name(alg).ok && |Name(alg).bytes| == |alg| + 2 }

  lemma {:induction false} OptReads(e: Edns)
    requires |OptionBytes(e)| < 65536
    ensures ReadRecord(OptRecord(e)) ==
            Some((Record([], 41, MAX_EDNS_PACKET, [0, 0] + Uint16(if e.dnssec then 0x8000 else 0), OptionBytes(e)), []))
  {
    var ttl := [0, 0] + Uint16(if e.dnssec then 0x8000 else 0);
    var body := Body(41, MAX_EDNS_PACKET, ttl, OptionBytes(e));
    assert Wire([]) == [0];
    ReadNameBack([], body);
    ReadBodyBack([], 41, MAX_EDNS_PACKET, ttl, OptionBytes(e), []);
    assert body + [] == body;
    assert OptRecord(e) == [0] + body;
  }

  ghost function KeyLabels(key: Tsig): seq<seq<nat>>
    requires key.name != [] && Name(key.name).ok
  {
    NameIff(key.name);
    NameLabels(Tokenize(key.name).toks)
  }

  lemma {:induction false} TsigBytesRead(owner: seq<seq<nat>>, data: seq<byte>)
    requires AllLegal(owner) && |data| < 65536
    ensures ReadRecord(TsigBytes(Wire(owner), |data|, data)) == Some((Record(owner, 250, 255, Uint32(0), data), []))
  {
    var body := Body(250, 255, Uint32(0), data);
    ReadNameBack(owner, body);
    ReadBodyBack(owner, 250, 255, Uint32(0), data, []);
    assert body + [] == body;
    Regroup(Wire(owner), Uint16(250), Uint16(255), Uint32(0), Uint16(|data|), data);
  }

  lemma {:induction false} Regroup(a: seq<byte>, b: seq<byte>, c: seq<byte>, d: seq<byte>, e: seq<byte>, f: seq<byte>)
    ensures a + b + c + d + e + f == a + (b + c + d + e + f)
  {
  }

  /** RDLENGTH is what is written after it. */
  lemma {:induction false} TsigReads(msg: seq<byte>, key: Tsig, now: nat)
    requires |msg| >= 12 && key.name != [] && Name(key.name).ok && PlainName(key.alg)
    ensures |Data(msg, key, now)| == RdLength(key, Mac(msg, key, now)) <= 338
    ensures ReadRecord(TsigRecord(msg, key, now)) == Some((Record(KeyLabels(key), 250, 255, Uint32(0), Data(msg, key, now)), []))
  {
    EmitLength(key.alg, true, 255);
    NameIff(key.name);
    TsigBytesRead(KeyLabels(key), Data(msg, key, now));
  }

  /** The fields of a TSIG record after the algorithm's name. */
  lemma {:induction false} TsigFieldsRead(alg: seq<seq<nat>>, now: nat, md: Digest, id: nat)
    requires AllLegal(alg) && id < 65536
    ensures ReadTsig(TsigData(Wire(alg), now, md, Uint16(id))) ==
            Some(TsigFields(alg, Uint16(0) + Uint32(now), 300, md, id, 0, []))
  {
    var time := Uint16(0) + Uint32(now);
    ReadNameBack(alg, TsigTail(time, md, Uint16(id)));
    TsigFieldsAt(time, md, id);
  }

  lemma {:induction false} TsigFieldsAt(time: seq<byte>, md: Digest, id: nat)
    requires |time| == 6 && id < 65536
    ensures var s := TsigTail(time, md, Uint16(id));
            var n := |md|;
            && |s| == 16 + n
            && At(s, 6) == 300 && At(s, 8) == n && At(s, 10 + n) == id && At(s, 12 + n) == 0 && At(s, 14 + n) == 0
            && s[..6] == time && s[10..10 + n] == md && s[16 + n..] == []
  {
    var f, l, i, z := Uint16(300), Uint16(|md|), Uint16(id), Uint16(0);
    var s := time + f + l + md + i + z + z;
    assert s == time + f + (l + md + i + z + z);
    AtFront(time, 300, l + md + i + z + z);
    assert s == time + f + l + (md + i + z + z);
    AtFront(time + f, |md|, md + i + z + z);
    assert s == time + f + l + md + i + (z + z);
    AtFront(time + f + l + md, id, z + z);
    AtFront(time + f + l + md + i, 0, z);
    assert s == time + f + l + md + i + z + z + [];
    AtFront(time + f + l + md + i + z, 0, []);
  }

  // ---- Header and question ----

  lemma {:induction false} HeaderAt(qid: nat, rest: seq<byte>)
    requires qid < 65536
    ensures var s := Header(qid) + rest;
            && At(s, 0) == qid && At(s, 2) == RD && At(s, 4) == 1
            && At(s, 6) == 0 && At(s, 8) == 0 && At(s, 10) == 0
            && s[11] == 0 && s[12..] == rest && s[..2] == Uint16(qid)
  {
    var s := Header(qid) + rest;
    assert s[0..] == s;
    assert s[2..][0] == 1 && s[2..][1] == 0;
    assert s[4..][0] == 0 && s[4..][1] == 1;
    assert s[6..][0] == 0 && s[6..][1] == 0;
    assert s[8..][0] == 0 && s[8..][1] == 0;
    assert s[10..][0] == 0 && s[10..][1] == 0;
  }

  lemma {:induction false} QuestionReads(name: seq<seq<nat>>, qtype: Qtype)
    requires AllLegal(name)
    ensures ReadSections(Wire(name) + Uint16(qtype) + Uint16(1), 0) == Some(Sections(name, qtype, 1, []))
  {
    var rest := Uint16(qtype) + Uint16(1);
    assert Wire(name) + Uint16(qtype) + Uint16(1) == Wire(name) + rest;
    ReadNameBack(name, rest);
    assert rest == [] + Uint16(qtype) + Uint16(1);
    AtFront([], qtype, Uint16(1));
    assert rest == Uint16(qtype) + Uint16(1) + [];
    AtFront(Uint16(qtype), 1, []);
    assert rest[4..] == [];
  }

  // ---- The request ----

  datatype Request = Request(qid: nat, line: seq<byte>, qtypeOf: seq<byte> -> Option<Qtype>,
                             edns: Option<Edns>, tsig: Option<Tsig>, now: nat)

  /** The room that a header and a question can take. */
  const ROOM: nat := 272

  lemma {:induction false} QuestionFits(line: seq<byte>, qtypeOf: seq<byte> -> Option<Qtype>)
    requires qtypeOf(TypeText(line)).Some?
    ensures |Question(line, qtypeOf)| <= 260
  {
    EmitLength(Domain(line), true, 255);
  }

  function AddQuestion(q: Request, capacity: nat): (b: Built)
    requires capacity >= ROOM
    ensures 12 <= |b.msg| <= capacity
  {
    var r := QueryResult(q.line, q.qtypeOf, capacity - 12);
    if r != Success then Built(r, Header(q.qid))
    else
      QuestionFits(q.line, q.qtypeOf);
      Built(Success, Header(q.qid) + Question(q.line, q.qtypeOf))
  }

  function Unsigned(q: Request, capacity: nat): (b: Built)
    requires capacity >= ROOM
    ensures 12 <= |b.msg| <= capacity
  {
    var b := AddQuestion(q, capacity);
    if q.edns.Some? then AddEdns(b, capacity, q.edns.value) else b
  }

  /** perf_dns_buildrequest for a query, in an empty buffer of some capacity. */
  function Build(q: Request, capacity: nat): Built
    requires capacity >= ROOM
  {
    var b := Unsigned(q, capacity);
    if q.tsig.Some? then AddTsig(b, capacity, q.tsig.value, q.now) else b
  }

  // ---- What it reads back as ----

  ghost function Asked(q: Request): Message
    requires q.qtypeOf(TypeText(q.line)).Some? && Tokenize(Domain(q.line)).Tokens?
  {
    Message(q.qid, RD, NameLabels(Tokenize(Domain(q.line)).toks), q.qtypeOf(TypeText(q.line)).value, 1, [])
  }

  function OptRead(e: Edns): Record {
    Record([], 41, MAX_EDNS_PACKET, [0, 0] + Uint16(if e.dnssec then 0x8000 else 0), OptionBytes(e))
  }

  /** The TSIG record that signs a message. */
  ghost function TsigRead(msg: seq<byte>, key: Tsig, now: nat): Record
    requires |msg| >= 12 && key.name != [] && Name(key.name).ok
  {
    Record(KeyLabels(key), 250, 255, Uint32(0), Data(msg, key, now))
  }

  ghost function And(m: Message, r: Record): Message { m.(additional := m.additional + [r]) }

  /** The bytes read as a message with as many additional records as ARCOUNT says. */
  ghost predicate ReadsAs(msg: seq<byte>, m: Message) {
    && |msg| >= 12
    && Read(msg) == Some(m)
    && msg[11] == |m.additional| < 255
    && msg[..2] == Uint16(m.id)
  }

  lemma {:induction false} QuestionBuilt(q: Request, capacity: nat)
    requires capacity >= ROOM && q.qid < 65536 && AddQuestion(q, capacity).r == Success
    ensures Tokenize(Domain(q.line)).Tokens? && q.qtypeOf(TypeText(q.line)).Some?
    ensures ReadsAs(AddQuestion(q, capacity).msg, Asked(q))
  {
    NameIff(Domain(q.line));
    var name := NameLabels(Tokenize(Domain(q.line)).toks);
    QuestionReads(name, q.qtypeOf(TypeText(q.line)).value);
    HeaderAt(q.qid, Question(q.line, q.qtypeOf));
  }

  lemma {:induction false} RecordAdded(msg: seq<byte>, m: Message, record: seq<byte>, r: Record)
    requires ReadsAs(msg, m) && |m.additional| < 2 && ReadRecord(record) == Some((r, []))
    ensures ReadsAs(Counted(msg) + record, And(m, r))
  {
    AddsRecord(msg, record, r);
    CountedEdges(msg, record);
  }

  lemma {:induction false} CountedEdges(msg: seq<byte>, record: seq<byte>)
    requires |msg| >= 12 && msg[11] < 255
    ensures (Counted(msg) + record)[11] == msg[11] as nat + 1
    ensures (Counted(msg) + record)[..2] == msg[..2]
  {
  }

  /** Every message that is built reads back, with the OPT record after the question. */
  lemma {:induction false} UnsignedReads(q: Request, capacity: nat)
    requires ROOM <= capacity < 65536 && q.qid < 65536 && Unsigned(q, capacity).r == Success
    ensures Tokenize(Domain(q.line)).Tokens? && q.qtypeOf(TypeText(q.line)).Some?
    ensures ReadsAs(Unsigned(q, capacity).msg, if q.edns.Some? then And(Asked(q), OptRead(q.edns.value)) else Asked(q))
  {
    QuestionBuilt(q, capacity);
    if q.edns.Some? {
      var e := q.edns.value;
      OptReads(e);
      RecordAdded(AddQuestion(q, capacity).msg, Asked(q), OptRecord(e), OptRead(e));
    }
  }

  ghost function AlgLabels(alg: seq<byte>): seq<seq<nat>>
    requires PlainName(alg)
  {
    NameIff(alg);
    NameLabels(Tokenize(alg).toks)
  }

  ghost predicate ValidKey(key: Tsig) { key.name != [] && PlainName(key.alg) }

  ghost function ReadBack(q: Request, capacity: nat): Message
    requires ROOM <= capacity < 65536 && q.qid < 65536 && Build(q, capacity).r == Success
    requires q.tsig.Some? ==> ValidKey(q.tsig.value)
  {
    UnsignedReads(q, capacity);
    var m := if q.edns.Some? then And(Asked(q), OptRead(q.edns.value)) else Asked(q);
    if q.tsig.Some? then And(m, TsigRead(Unsigned(q, capacity).msg, q.tsig.value, q.now)) else m
  }

  /**
   * Every message that is built fits its buffer and reads back as its ID, flags, name, type and class
   * IN, then OPT if asked for, then TSIG last if asked for.
   */
  lemma {:induction false} RequestReadsBack(q: Request, capacity: nat)
    requires ROOM <= capacity < 65536 && q.qid < 65536 && Build(q, capacity).r == Success
    requires q.tsig.Some? ==> ValidKey(q.tsig.value)
    ensures ReadsAs(Build(q, capacity).msg, ReadBack(q, capacity)) && |Build(q, capacity).msg| <= capacity
  {
    UnsignedReads(q, capacity);
    if q.tsig.Some? {
      var key, msg := q.tsig.value, Unsigned(q, capacity).msg;
      var m := if q.edns.Some? then And(Asked(q), OptRead(q.edns.value)) else Asked(q);
      TsigReads(msg, key, q.now);
      RecordAdded(msg, m, TsigRecord(msg, key, q.now), TsigRead(msg, key, q.now));
      TsigFits(msg, key, q.now);
    }
  }

  lemma {:induction false} TsigFits(msg: seq<byte>, key: Tsig, now: nat)
    requires |msg| >= 12 && PlainName(key.alg)
    ensures |TsigRecord(msg, key, now)| <= TotalLength(key, Mac(msg, key, now))
  {
    EmitLength(key.name, true, 255);
    assert |Data(msg, key, now)| == RdLength(key, Mac(msg, key, now));
  }

  /** The signature's fields read back too: the digest is that of the message before it was added. */
  lemma {:induction false} SignatureReadsBack(q: Request, capacity: nat)
    requires ROOM <= capacity < 65536 && q.qid < 65536 && Build(q, capacity).r == Success
    requires q.tsig.Some? && ValidKey(q.tsig.value)
    ensures var key, msg := q.tsig.value, Unsigned(q, capacity).msg;
            ReadTsig(Data(msg, key, q.now)) ==
            Some(TsigFields(AlgLabels(key.alg), Uint16(0) + Uint32(q.now), 300, Mac(msg, key, q.now), q.qid, 0, []))
  {
    var key, msg := q.tsig.value, Unsigned(q, capacity).msg;
    UnsignedReads(q, capacity);
    NameIff(key.alg);
    TsigFieldsRead(AlgLabels(key.alg), q.now, Mac(msg, key, q.now), q.qid);
  }

  /** Without a key name the record has no owner, and its type is read one byte too late. */
  lemma {:induction false} TsigNeedsName(msg: seq<byte>, key: Tsig, now: nat)
    requires |msg| >= 12 && Name(key.name).ok && PlainName(key.alg)
    ensures key.name != [] <==>
            var r := ReadRecord(TsigRecord(msg, key, now)); r.Some? && r.value.0.rtype == 250
  {
    if key.name != [] {
      TsigReads(msg, key, now);
    } else {
      var s := TsigRecord(msg, key, now);
      assert s[0] == 0 && s[1] == 250 && s[2] == 0;
      assert s[1..][0..][0] == 250 && s[1..][0..][1] == 0;
    }
  }
}
