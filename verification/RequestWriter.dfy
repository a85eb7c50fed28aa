/** Building a query in a buffer: build_query, perf_add_edns, perf_add_tsig and perf_dns_buildrequest. */
module RequestWriter {
  import opened Framing
  import opened DnsName
  import opened WireBuffer
  import opened MessageFormat
  import opened RequestSpec
  import NameWriter

  method SkipSpaces(s: seq<byte>) returns (rest: seq<byte>)
    ensures rest == AfterSpaces(s)
  {
    rest := s;
    while rest != [] && IsSpace(rest[0])
      invariant AfterSpaces(rest) == AfterSpaces(s)
    {
      rest := rest[1..];
    }
  }

  /** The type and class of the question, once its name is there. */
  method PutType(text: seq<byte>, qtypeOf: seq<byte> -> Option<Qtype>, msg: Buffer) returns (r: Result)
    requires msg.Valid() && msg.Available() >= 4
    modifies msg`used, msg.base
    ensures msg.Valid() && r == (if text == [] || qtypeOf(text).None? then Failure else Success)
    ensures r == Success ==> msg.Contents() == old(msg.Contents()) + Uint16(qtypeOf(text).value) + Uint16(1)
  {
    if text == [] || qtypeOf(text).None? { return Failure; }
    msg.PutUint16(qtypeOf(text).value);
    msg.PutUint16(1);
    r := Success;
  }

  method BuildQuery(line: seq<byte>, qtypeOf: seq<byte> -> Option<Qtype>, msg: Buffer) returns (r: Result)
    requires msg.Valid() && msg.Available() >= 260
    modifies msg`used, msg.base
    ensures msg.Valid() && r == QueryResult(line, qtypeOf, old(msg.Available()))
    ensures r == Success ==> msg.Contents() == old(msg.Contents()) + Question(line, qtypeOf)
  {
    var domain := Word(line);
    if domain == [] { return Failure; }
    var rest := SkipSpaces(line[|domain|..]);
    var text := Word(rest);
    EmitLength(domain, true, 255);
    r := NameWriter.FromString(domain, msg);
    if r == Success {
      r := PutType(text, qtypeOf, msg);
    }
  }

  method AddEdns(packet: Buffer, e: Edns) returns (r: Result)
    requires packet.Valid() && packet.used >= 12
    modifies packet`used, packet.base
    ensures packet.Valid()
    ensures Built(r, packet.Contents()) == RequestSpec.AddEdns(Built(Success, old(packet.Contents())), packet.base.Length, e)
  {
    var option := if e.option.Some? then e.option.value else [];
    if packet.Available() < EDNSLEN + |option| { return NoSpace; }
    PutOpt(packet, e, option);
    packet.Increment(11);
    r := Success;
  }

  method PutOptHead(packet: Buffer, dnssec: bool)
    requires packet.Valid() && packet.Available() >= 9
    modifies packet`used, packet.base
    ensures packet.Valid() && packet.Contents() == old(packet.Contents()) + OptHead(dnssec)
  {
    packet.PutUint8(0);
    packet.PutUint16(41);
    packet.PutUint16(MAX_EDNS_PACKET);
    packet.PutUint8(0);
    packet.PutUint8(0);
    packet.PutUint16(if dnssec then 0x8000 else 0);
    Regroup6(old(packet.Contents()), [0], Uint16(41), Uint16(MAX_EDNS_PACKET), [0], [0], Uint16(if dnssec then 0x8000 else 0));
  }

  lemma {:induction false} Regroup6(c: seq<byte>, s1: seq<byte>, s2: seq<byte>, s3: seq<byte>, s4: seq<byte>,
                                    s5: seq<byte>, s6: seq<byte>)
    ensures c + s1 + s2 + s3 + s4 + s5 + s6 == c + (s1 + s2 + s3 + s4 + s5 + s6)
  {
  }

  method PutOpt(packet: Buffer, e: Edns, option: seq<byte>)
    requires packet.Valid() && option == OptionBytes(e) && packet.Available() >= EDNSLEN + |option|
    modifies packet`used, packet.base
    ensures packet.Valid() && packet.Contents() == old(packet.Contents()) + OptRecord(e)
  {
    PutOptHead(packet, e.dnssec);
    packet.PutUint16(|option|);
    packet.PutMem(option);
  }

  /** What perf_tsig_parsekey makes sure of: a name of at most 256 characters and one of the algorithms. */
  ghost predicate Usable(key: Tsig) { |key.name| <= 256 && PlainName(key.alg) && |key.alg| <= 47 }

  method PutDigestTail(tmp: Buffer, now: nat)
    requires tmp.Valid() && tmp.Available() >= 12
    modifies tmp`used, tmp.base
    ensures tmp.Valid() && tmp.Contents() == old(tmp.Contents()) + DigestTail(now)
  {
    tmp.PutUint16(0);
    tmp.PutUint32(now);
    tmp.PutUint16(300);
    tmp.PutUint16(0);
    tmp.PutUint16(0);
  }

  /** The fields to digest, in a buffer of 512 bytes: they always fit. */
  method PutDigestFields(tmp: Buffer, key: Tsig, now: nat) returns (r: Result)
    requires tmp.Valid() && tmp.used == 0 && tmp.base.Length == 512 && Usable(key)
    modifies tmp`used, tmp.base
    ensures tmp.Valid() && r == (if Name(key.name).ok then Success else Failure)
    ensures r == Success ==> tmp.Contents() == DigestFields(key, now)
  {
    r := PutShort(tmp, key.name);
    if r != Success { return; }
    PutDigestRest(tmp, key.alg, now);
  }

  /** Class, TTL, algorithm and the rest. */
  method PutDigestRest(tmp: Buffer, alg: seq<byte>, now: nat)
    requires tmp.Valid() && tmp.used <= 256 && tmp.base.Length == 512 && PlainName(alg) && |alg| <= 47
    modifies tmp`used, tmp.base
    ensures tmp.Valid() && tmp.Contents() == old(tmp.Contents()) + Uint16(255) + Uint32(0) + Name(alg).bytes + DigestTail(now)
  {
    tmp.PutUint16(255);
    tmp.PutUint32(0);
    var r := PutShort(tmp, alg);
    PutDigestTail(tmp, now);
  }

  /** A name where there is room for any. */
  method PutShort(target: Buffer, name: seq<byte>) returns (r: Result)
    requires target.Valid() && |name| + 2 <= target.Available()
    modifies target`used, target.base
    ensures target.Valid() && r == (if Name(name).ok then Success else Failure)
    ensures target.Contents() == old(target.Contents()) + Name(name).bytes && |Name(name).bytes| <= 256
  {
    EmitLength(name, true, 255);
    r := NameWriter.FromString(name, target);
  }

  method PutTail(packet: Buffer, now: nat, md: Digest, id: seq<byte>)
    requires packet.Valid() && |id| == 2 && packet.Available() >= 16 + |md|
    modifies packet`used, packet.base
    ensures packet.Valid() && packet.Contents() == old(packet.Contents()) + TsigTail(Uint16(0) + Uint32(now), md, id)
  {
    PutTime(packet, now);
    packet.PutUint16(300);
    packet.PutUint16(|md|);
    packet.PutMem(md);
    packet.PutMem(id);
    packet.PutUint16(0);
    packet.PutUint16(0);
    Regroup7(old(packet.Contents()), Uint16(0) + Uint32(now), Uint16(300), Uint16(|md|), md, id, Uint16(0), Uint16(0));
  }

  lemma {:induction false} Regroup7(c: seq<byte>, s1: seq<byte>, s2: seq<byte>, s3: seq<byte>, s4: seq<byte>,
                                    s5: seq<byte>, s6: seq<byte>, s7: seq<byte>)
    ensures c + s1 + s2 + s3 + s4 + s5 + s6 + s7 == c + (s1 + s2 + s3 + s4 + s5 + s6 + s7)
  {
  }

  method PutTime(packet: Buffer, now: nat)
    requires packet.Valid() && packet.Available() >= 6
    modifies packet`used, packet.base
    ensures packet.Valid() && packet.Contents() == old(packet.Contents()) + (Uint16(0) + Uint32(now))
  {
    packet.PutUint16(0);
    packet.PutUint32(now);
  }

  /** Owner, type, class, TTL and RDLENGTH, then the data; the names were parsed before and fit. */
  method PutTsig(packet: Buffer, key: Tsig, now: nat, rdlen: nat, md: Digest, id: seq<byte>)
    requires packet.Valid() && Usable(key) && Name(key.name).ok && |id| == 2
    requires packet.Available() >= |key.name| + |key.alg| + |md| + 30
    modifies packet`used, packet.base
    ensures packet.Valid()
    ensures packet.Contents() == old(packet.Contents())
                                 + TsigBytes(Name(key.name).bytes, rdlen, TsigData(Name(key.alg).bytes, now, md, id))
  {
    ghost var c, owner := packet.Contents(), Name(key.name).bytes;
    EmitLength(key.name, true, 255);
    var r := PutShort(packet, key.name);
    packet.PutUint16(250);
    packet.PutUint16(255);
    packet.PutUint32(0);
    packet.PutUint16(rdlen);
    PutData(packet, key.alg, now, md, id);
    Regroup6(c, owner, Uint16(250), Uint16(255), Uint32(0), Uint16(rdlen), TsigData(Name(key.alg).bytes, now, md, id));
  }

  method PutData(packet: Buffer, alg: seq<byte>, now: nat, md: Digest, id: seq<byte>)
    requires packet.Valid() && PlainName(alg) && |id| == 2 && packet.Available() >= |alg| + |md| + 18
    modifies packet`used, packet.base
    ensures packet.Valid() && packet.Contents() == old(packet.Contents()) + TsigData(Name(alg).bytes, now, md, id)
  {
    var r := PutShort(packet, alg);
    PutTail(packet, now, md, id);
  }

  /** The digest of the packet as it stands and the fields to come. */
  method Sign(packet: Buffer, key: Tsig, now: nat) returns (r: Result, md: Digest)
    requires packet.Valid() && Usable(key)
    ensures r == (if Name(key.name).ok then Success else Failure)
    ensures r == Success ==> md == Mac(packet.Contents(), key, now)
  {
    var tmp := new Buffer(512);
    r := PutDigestFields(tmp, key, now);
    if r != Success { return r, []; }
    md := key.hmac(packet.base[..packet.used] + tmp.base[..tmp.used]);
  }

  lemma {:induction false} CountedInFront(msg: seq<byte>, record: seq<byte>)
    requires |msg| >= 12
    ensures Counted(msg + record) == Counted(msg) + record
  {
  }

  method AppendTsig(packet: Buffer, key: Tsig, now: nat, md: Digest)
    requires packet.Valid() && packet.used >= 12 && Usable(key) && Name(key.name).ok
    requires md == Mac(packet.Contents(), key, now) && packet.Available() >= TotalLength(key, md)
    modifies packet`used, packet.base
    ensures packet.Valid() && packet.Contents() == WithTsig(old(packet.Contents()), key, now)
  {
    var id := packet.base[..2];
    ghost var msg := packet.Contents();
    assert id == msg[..2];
    PutTsig(packet, key, now, RdLength(key, md), md, id);
    CountedInFront(msg, TsigRecord(msg, key, now));
    packet.Increment(11);
  }

  method AddTsig(packet: Buffer, key: Tsig, now: nat) returns (r: Result)
    requires packet.Valid() && packet.used >= 12 && Usable(key)
    modifies packet`used, packet.base
    ensures packet.Valid()
    ensures Built(r, packet.Contents()) == RequestSpec.AddTsig(Built(Success, old(packet.Contents())), packet.base.Length, key, now)
  {
    var md;
    r, md := Sign(packet, key, now);
    if r != Success { return; }
    if TotalLength(key, md) > packet.Available() { return NoSpace; }
    AppendTsig(packet, key, now, md);
  }

  method PutHeader(msg: Buffer, qid: nat)
    requires msg.Valid() && msg.used == 0 && msg.Available() >= 12
    modifies msg`used, msg.base
    ensures msg.Valid() && msg.Contents() == Header(qid)
  {
    msg.PutUint16(qid);
    msg.PutUint16(RD);
    msg.PutUint16(1);
    msg.PutUint16(0);
    msg.PutUint16(0);
    msg.PutUint16(0);
    Regroup6([], Uint16(qid), Uint16(RD), Uint16(1), Uint16(0), Uint16(0), Uint16(0));
  }

  /**
   * A query in an empty buffer. With room for a header and any question, as 512 and 4096 bytes have,
   * no write goes past the end.
   */
  method BuildRequest(q: Request, msg: Buffer) returns (r: Result)
    requires msg.Valid() && msg.used == 0 && msg.base.Length >= ROOM
    requires q.tsig.Some? ==> Usable(q.tsig.value)
    modifies msg`used, msg.base
    ensures msg.Valid() && r == Build(q, msg.base.Length).r
    ensures r == Success ==> msg.Contents() == Build(q, msg.base.Length).msg
  {
    r := BuildUnsigned(q, msg);
    if r == Success && q.tsig.Some? {
      r := AddTsig(msg, q.tsig.value, q.now);
    }
  }

  method BuildUnsigned(q: Request, msg: Buffer) returns (r: Result)
    requires msg.Valid() && msg.used == 0 && msg.base.Length >= ROOM
    modifies msg`used, msg.base
    ensures msg.Valid() && r == Unsigned(q, msg.base.Length).r
    ensures r == Success ==> msg.Contents() == Unsigned(q, msg.base.Length).msg
  {
    PutHeader(msg, q.qid);
    r := BuildQuery(q.line, q.qtypeOf, msg);
    if r == Success && q.edns.Some? {
      r := AddEdns(msg, q.edns.value);
    }
  }
}
