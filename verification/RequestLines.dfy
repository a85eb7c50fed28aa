/**
 * What an input line asks for (build_query of src/dns.c), and when a request for it is built: said from
 * the parts of the line, and with the results of src/edns.c and src/tsig.c.
 */
module RequestLines {
  import opened Framing
  import opened DnsName
  import opened WireBuffer
  import opened MessageFormat
  import opened RequestSpec

  // ---- The parts of a line ----

  lemma {:induction false} WordIs(word: seq<byte>, rest: seq<byte>)
    requires forall i :: 0 <= i < |word| ==> word[i] !in {0, 9, 10, 32}
    requires rest != [] ==> rest[0] in {0, 9, 10, 32}
    ensures Word(word + rest) == word
  {
    if word == [] {
      assert word + rest == rest;
    } else {
      assert (word + rest)[1..] == word[1..] + rest;
      WordIs(word[1..], rest);
    }
  }

  lemma {:induction false} SpacesEnd(spaces: seq<byte>, rest: seq<byte>)
    requires forall i :: 0 <= i < |spaces| ==> spaces[i] in {9, 10, 11, 12, 13, 32}
    requires rest != [] ==> rest[0] !in {9, 10, 11, 12, 13, 32}
    ensures AfterSpaces(spaces + rest) == rest
  {
    if spaces == [] {
      assert spaces + rest == rest;
    } else {
      assert (spaces + rest)[1..] == spaces[1..] + rest;
      SpacesEnd(spaces[1..], rest);
    }
  }

  /** A name, white space that begins with a blank, tab or newline, the text of a type, and what ends it. */
  datatype Parts = Parts(name: seq<byte>, spaces: seq<byte>, text: seq<byte>, rest: seq<byte>)

  ghost predicate AreParts(p: Parts) {
    && p.name != [] && (forall i :: 0 <= i < |p.name| ==> p.name[i] !in {0, 9, 10, 32})
    && p.spaces != [] && p.spaces[0] in {9, 10, 32}
    && (forall i :: 0 <= i < |p.spaces| ==> p.spaces[i] in {9, 10, 11, 12, 13, 32})
    && p.text != [] && p.text[0] !in {9, 10, 11, 12, 13, 32}
    && (forall i :: 0 <= i < |p.text| ==> p.text[i] !in {0, 9, 10, 32})
    && (p.rest != [] ==> p.rest[0] in {0, 9, 10, 32})
  }

  function LineOf(p: Parts): seq<byte> { p.name + p.spaces + p.text + p.rest }

  /** The first part is the name and the third the type. */
  lemma {:induction false} LineHas(p: Parts)
    requires AreParts(p)
    ensures Domain(LineOf(p)) == p.name && TypeText(LineOf(p)) == p.text
  {
    var after := p.spaces + (p.text + p.rest);
    assert LineOf(p) == p.name + after;
    WordIs(p.name, after);
    assert LineOf(p)[|p.name|..] == after;
    SpacesEnd(p.spaces, p.text + p.rest);
    WordIs(p.text, p.rest);
  }

  lemma {:induction false} WordSplits(s: seq<byte>)
    ensures Word(s) <= s && (forall i :: 0 <= i < |Word(s)| ==> Word(s)[i] !in {0, 9, 10, 32})
    ensures |Word(s)| < |s| ==> s[|Word(s)|] in {0, 9, 10, 32}
  {
    if s != [] && !EndsWord(s[0]) { WordSplits(s[1..]); }
  }

  lemma {:induction false} SpacesSplit(s: seq<byte>) returns (spaces: seq<byte>)
    ensures s == spaces + AfterSpaces(s) && (forall i :: 0 <= i < |spaces| ==> spaces[i] in {9, 10, 11, 12, 13, 32})
    ensures AfterSpaces(s) != [] ==> AfterSpaces(s)[0] !in {9, 10, 11, 12, 13, 32}
  {
    if s == [] || !IsSpace(s[0]) {
      spaces := [];
    } else {
      var more := SpacesSplit(s[1..]);
      spaces := [s[0]] + more;
    }
  }

  /** Every line in which a name and a type are found is made of such parts. */
  lemma {:induction false} LineSplits(line: seq<byte>) returns (p: Parts)
    requires Domain(line) != [] && TypeText(line) != []
    ensures AreParts(p) && LineOf(p) == line
  {
    var name := Word(line);
    WordSplits(line);
    var spaces := SpacesSplit(line[|name|..]);
    var after := AfterSpaces(line[|name|..]);
    WordSplits(after);
    var text := Word(after);
    p := Parts(name, spaces, text, after[|text|..]);
    assert line == name + line[|name|..];
    assert after == text + after[|text|..];
    assert line == name + (spaces + (text + after[|text|..]));
    assert line[|name|..] == spaces + after;
  }

  // ---- When a request is built ----

  ghost predicate LegalName(name: seq<byte>) {
    Tokenize(name).Tokens? && Legal(NameLabels(Tokenize(name).toks), 255)
  }

  /** The result for a line, in any free space. */
  lemma {:induction false} ResultOfLine(p: Parts, qtypeOf: seq<byte> -> Option<Qtype>, available: nat)
    requires AreParts(p)
    ensures QueryResult(LineOf(p), qtypeOf, available) ==
            if available < |p.name| then NoSpace
            else if !LegalName(p.name) || qtypeOf(p.text).None? then Failure
            else Success
  {
    LineHas(p);
    NameIff(p.name);
  }

  /** A line that begins with white space or is empty has no name. */
  lemma {:induction false} NoNameFails(line: seq<byte>, qtypeOf: seq<byte> -> Option<Qtype>, available: nat)
    requires line == [] || line[0] in {0, 9, 10, 32}
    ensures QueryResult(line, qtypeOf, available) == Failure
  {
  }

  /** A line with nothing but white space after the name has no type. */
  lemma {:induction false} NoTypeFails(name: seq<byte>, spaces: seq<byte>, qtypeOf: seq<byte> -> Option<Qtype>, available: nat)
    requires name != [] && forall i :: 0 <= i < |name| ==> name[i] !in {0, 9, 10, 32}
    requires (spaces != [] ==> spaces[0] in {9, 10, 32}) && forall i :: 0 <= i < |spaces| ==> spaces[i] in {9, 10, 11, 12, 13, 32}
    ensures QueryResult(name + spaces, qtypeOf, available) == if available < |name| then NoSpace else Failure
  {
    WordIs(name, spaces);
    assert (name + spaces)[|name|..] == spaces;
    assert spaces + [] == spaces;
    SpacesEnd(spaces, []);
  }

  /** The OPT record is refused exactly when it does not fit. */
  lemma {:induction false} EdnsIffFits(b: Built, capacity: nat, e: Edns)
    requires 12 <= |b.msg| <= capacity && b.r == Success
    ensures AddEdns(b, capacity, e).r == if |b.msg| + |OptRecord(e)| <= capacity then Success else NoSpace
  {
  }

  /** The TSIG record is refused exactly when its key's name is not legal or fewer bytes are free than reserved for it. */
  lemma {:induction false} TsigIffFits(b: Built, capacity: nat, key: Tsig, now: nat)
    requires 12 <= |b.msg| <= capacity && b.r == Success && key.name != []
    ensures AddTsig(b, capacity, key, now).r ==
            if !LegalName(key.name) then Failure
            else if capacity - |b.msg| < |key.name| + |key.alg| + 30 + |Mac(b.msg, key, now)| then NoSpace
            else Success
  {
    NameIff(key.name);
  }

  // ---- What it reads back as ----

  /** With the DO flag and the option for EDNS. */
  ghost function OptOf(e: Edns): Record {
    Record([], 41, 4096, if e.dnssec then [0, 0, 0x80, 0] else [0, 0, 0, 0], if e.option.Some? then e.option.value else [])
  }

  ghost function TsigOf(key: Tsig, data: seq<byte>): Record
    requires key.name != [] && LegalName(key.name)
  {
    Record(NameLabels(Tokenize(key.name).toks), 250, 255, [0, 0, 0, 0], data)
  }

  ghost function ExtrasOf(edns: Option<Edns>, tsig: Option<Tsig>, data: seq<byte>): seq<Record>
    requires tsig.Some? ==> tsig.value.name != [] && LegalName(tsig.value.name)
  {
    (if edns.Some? then [OptOf(edns.value)] else []) + (if tsig.Some? then [TsigOf(tsig.value, data)] else [])
  }

  lemma {:induction false} SameOpt(e: Edns)
    ensures OptRead(e) == OptOf(e)
  {
    assert Uint16(0x8000) == [0x80, 0] && Uint16(0) == [0, 0];
  }

  lemma {:induction false} ExtrasAre(q: Request, capacity: nat, data: seq<byte>)
    requires ROOM <= capacity < 65536 && q.qid < 65536 && Build(q, capacity).r == Success
    requires q.tsig.Some? ==> ValidKey(q.tsig.value) && data == Data(Unsigned(q, capacity).msg, q.tsig.value, q.now)
    ensures q.tsig.Some? ==> LegalName(q.tsig.value.name)
    ensures ReadBack(q, capacity).additional == ExtrasOf(q.edns, q.tsig, data)
  {
    UnsignedReads(q, capacity);
    if q.edns.Some? { SameOpt(q.edns.value); }
    if q.tsig.Some? { SameTsig(q.tsig.value, Unsigned(q, capacity).msg, q.now); }
  }

  lemma {:induction false} SameTsig(key: Tsig, msg: seq<byte>, now: nat)
    requires |msg| >= 12 && key.name != [] && Name(key.name).ok
    ensures LegalName(key.name) && TsigRead(msg, key, now) == TsigOf(key, Data(msg, key, now))
  {
    NameIff(key.name);
    assert Uint32(0) == [0, 0, 0, 0];
  }

  lemma {:induction false} QuestionIs(p: Parts, q: Request, capacity: nat)
    requires AreParts(p) && q.line == LineOf(p)
    requires ROOM <= capacity < 65536 && q.qid < 65536 && Build(q, capacity).r == Success
    requires q.tsig.Some? ==> ValidKey(q.tsig.value)
    ensures LegalName(p.name) && q.qtypeOf(p.text).Some?
    ensures var m := ReadBack(q, capacity);
            m == Message(q.qid, 0x0100, NameLabels(Tokenize(p.name).toks), q.qtypeOf(p.text).value, 1, m.additional)
  {
    LineHas(p);
    NameIff(p.name);
    UnsignedReads(q, capacity);
  }

  /**
   * Every request that is built for a line of these parts fits its buffer and reads back as its ID, RD,
   * the labels of the first part, the type that the third part names and class IN, then OPT, then TSIG.
   */
  lemma {:induction false} LineReadsBack(p: Parts, q: Request, capacity: nat, data: seq<byte>)
    requires AreParts(p) && q.line == LineOf(p)
    requires ROOM <= capacity < 65536 && q.qid < 65536 && Build(q, capacity).r == Success
    requires q.tsig.Some? ==> ValidKey(q.tsig.value) && data == Data(Unsigned(q, capacity).msg, q.tsig.value, q.now)
    ensures LegalName(p.name) && q.qtypeOf(p.text).Some? && (q.tsig.Some? ==> LegalName(q.tsig.value.name))
    ensures |Build(q, capacity).msg| <= capacity
    ensures Read(Build(q, capacity).msg) ==
            Some(Message(q.qid, 0x0100, NameLabels(Tokenize(p.name).toks), q.qtypeOf(p.text).value, 1,
                         ExtrasOf(q.edns, q.tsig, data)))
  {
    QuestionIs(p, q, capacity);
    ExtrasAre(q, capacity, data);
    RequestReadsBack(q, capacity);
  }

  // ---- What is signed ----

  /** The variables of section 4.3.3 of RFC 8945, read from the bytes that are digested after the message. */
  datatype TsigVariables = TsigVariables(name: seq<seq<nat>>, rclass: nat, ttl: nat, alg: seq<seq<nat>>,
                                         time: nat, fudge: nat, error: nat, other: seq<byte>)

  function Long(s: seq<byte>, i: nat): nat
    requires i + 4 <= |s|
  {
    0x1_0000 * At(s, i) + At(s, i + 2)
  }

  function ReadVariables(s: seq<byte>): Option<TsigVariables> {
    match ReadName(s)
    case None => None
    case Some((name, s1)) =>
      if |s1| < 6 then None
      else
        match ReadName(s1[6..])
        case None => None
        case Some((alg, s2)) =>
          if |s2| < 12 || |s2| != 12 + At(s2, 10) then None
          else Some(TsigVariables(name, At(s1, 0), Long(s1, 2), alg,
                                  0x1_0000_0000 * At(s2, 0) + Long(s2, 2), At(s2, 6), At(s2, 8), s2[12..]))
  }

  /** The digest is that of the message and of the key's name, class ANY, TTL 0, the algorithm, the time, fudge 300 and no error. */
  lemma {:induction false} DigestCovers(msg: seq<byte>, key: Tsig, now: nat)
    requires key.name != [] && LegalName(key.name) && PlainName(key.alg) && now < 0x1_0000_0000
    ensures Mac(msg, key, now) == key.hmac(msg + DigestFields(key, now))
    ensures ReadVariables(DigestFields(key, now)) ==
            Some(TsigVariables(NameLabels(Tokenize(key.name).toks), 255, 0, AlgLabels(key.alg), now, 300, 0, []))
  {
    NameIff(key.name);
    NameIff(key.alg);
    VariablesRead(NameLabels(Tokenize(key.name).toks), AlgLabels(key.alg), now);
  }

  lemma {:induction false} VariablesRead(name: seq<seq<nat>>, alg: seq<seq<nat>>, now: nat)
    requires AllLegal(name) && AllLegal(alg) && now < 0x1_0000_0000
    ensures ReadVariables(Wire(name) + Uint16(255) + Uint32(0) + Wire(alg) + DigestTail(now)) ==
            Some(TsigVariables(name, 255, 0, alg, now, 300, 0, []))
  {
    var s2 := DigestTail(now);
    var front := Uint16(255) + Uint32(0);
    Regroup4(Wire(name), Uint16(255), Uint32(0), Wire(alg), s2);
    ReadNameBack(name, front + (Wire(alg) + s2));
    ReadNameBack(alg, s2);
    assert (front + (Wire(alg) + s2))[6..] == Wire(alg) + s2;
    VariablesFront(Wire(alg) + s2);
    VariablesBack(now);
    VariablesFrom(Wire(name) + (front + (Wire(alg) + s2)), name, front + (Wire(alg) + s2), alg, s2);
  }

  lemma {:induction false} Regroup4(a: seq<byte>, b: seq<byte>, c: seq<byte>, d: seq<byte>, e: seq<byte>)
    ensures a + b + c + d + e == a + (b + c + (d + e))
  {
  }

  lemma {:induction false} VariablesFrom(s: seq<byte>, name: seq<seq<nat>>, s1: seq<byte>, alg: seq<seq<nat>>, s2: seq<byte>)
    requires ReadName(s) == Some((name, s1)) && |s1| >= 6 && ReadName(s1[6..]) == Some((alg, s2))
    requires |s2| >= 12 && |s2| == 12 + At(s2, 10)
    ensures ReadVariables(s) ==
            Some(TsigVariables(name, At(s1, 0), Long(s1, 2), alg,
                               0x1_0000_0000 * At(s2, 0) + Long(s2, 2), At(s2, 6), At(s2, 8), s2[12..]))
  {
  }

  lemma {:induction false} VariablesFront(rest: seq<byte>)
    ensures var s := Uint16(255) + Uint32(0) + rest; |s| >= 6 && At(s, 0) == 255 && Long(s, 2) == 0
  {
    var s := Uint16(255) + Uint32(0) + rest;
    assert s[0..][0] == 0 && s[0..][1] == 255;
    assert s[2..][0] == 0 && s[2..][1] == 0 && s[4..][0] == 0 && s[4..][1] == 0;
  }

  lemma {:induction false} VariablesBack(now: nat)
    requires now < 0x1_0000_0000
    ensures var s := DigestTail(now);
            && 0x1_0000_0000 * At(s, 0) + Long(s, 2) == now
            && At(s, 6) == 300 && At(s, 8) == 0 && At(s, 10) == 0 && s[12..] == []
  {
    var s, n := DigestTail(now), Uint32(now);
    Uint32Is(now);
    assert s[0..][0] == 0 && s[0..][1] == 0;
    assert s[2..][0] == n[0] && s[2..][1] == n[1] && s[4..][0] == n[2] && s[4..][1] == n[3];
    assert s[6..][0] == 1 && s[6..][1] == 44;
    assert s[8..][0] == 0 && s[8..][1] == 0 && s[10..][0] == 0 && s[10..][1] == 0;
  }
}
