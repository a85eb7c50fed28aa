/**
 * Domain names in presentation form (src/dns.c): what perf_dname_fromstring writes for a string,
 * and an independent reading of the string as labels separated by unescaped dots.
 */
module DnsName {
  import opened Framing

  const DOT: byte := 46
  const BACKSLASH: byte := 92

  predicate IsDigit(b: byte) { 48 <= b <= 57 }

  /**
   * The octet that \DDD stands for: the program reads its digits in base 7, as far as they go.
   * Section 5.1 of RFC 1035 reads them in base 10.
   */
  function EscapeValue(d0: byte, d1: byte, d2: byte): nat
    requires IsDigit(d0) && IsDigit(d1) && IsDigit(d2)
  {
    var v0, v1, v2 := d0 - 48, d1 - 48, d2 - 48;
    if v0 >= 7 then 0
    else if v1 >= 7 then v0
    else if v2 >= 7 then 7 * v0 + v1
    else 49 * v0 + 7 * v1 + v2
  }

  // ---- What the program does ----

  /** What stands at the front: the end of a label, an octet and the characters it takes, or a bad escape. */
  datatype Front = End | BadFront | Front(octet: nat, chars: nat)

  function FrontOf(s: seq<byte>): (r: Front)
    ensures r.Front? ==> 0 < r.chars <= |s|
  {
    if s == [] || s[0] == DOT then End
    else if s[0] != BACKSLASH then Front(s[0], 1)
    else if |s| < 2 then BadFront
    else if !IsDigit(s[1]) then Front(s[1], 2)
    else if |s| < 4 || !IsDigit(s[2]) || !IsDigit(s[3]) then BadFront
    else Front(EscapeValue(s[1], s[2], s[3]), 4)
  }

  /** The first scan of a label: its octets, and how many characters they take. */
  datatype Scan = Bad | Label(octets: seq<nat>, used: nat)

  function More(octet: nat, chars: nat, rest: Scan): Scan {
    if rest.Bad? then Bad else Label([octet] + rest.octets, chars + rest.used)
  }

  function ScanLabel(s: seq<byte>): (r: Scan)
    ensures r.Label? ==> |r.octets| <= r.used <= |s| && (r.used < |s| ==> s[r.used] == DOT)
    ensures r.Label? ==> (r.octets == [] <==> s == [] || s[0] == DOT)
  {
    match FrontOf(s)
    case End => Label([], 0)
    case BadFront => Bad
    case Front(octet, chars) => More(octet, chars, ScanLabel(s[chars..]))
  }

  ghost predicate AreOctets(octets: seq<nat>) {
    octets == [] || (octets[0] < 256 && AreOctets(octets[1..]))
  }

  /** The octets that get written before one that does not fit. */
  function Writable(octets: seq<nat>): (w: seq<byte>)
    ensures |w| <= |octets|
    ensures |w| == |octets| <==> AreOctets(octets)
  {
    if octets == [] || octets[0] >= 256 then [] else [octets[0]] + Writable(octets[1..])
  }

  lemma {:induction false} WritableIsAll(octets: seq<nat>)
    requires AreOctets(octets)
    ensures Writable(octets) == octets
  {
    if octets != [] {
      WritableIsAll(octets[1..]);
    }
  }

  /** Whether the call succeeds, and the bytes it has appended either way. */
  datatype Emitted = Emitted(ok: bool, bytes: seq<byte>)

  /** A label that the length limits allow. */
  predicate Fits(octets: seq<nat>, max: int) { 0 < |octets| <= 63 && max - |octets| - 1 >= 0 }

  /** perf_dname_fromstring, past its check for space. `max` is what is left of 255 octets. */
  function Emit(s: seq<byte>, first: bool, max: int): Emitted
    decreases |s|, 1
  {
    if s == [] then Emitted(true, [])
    else
      match ScanLabel(s)
      case Bad => Emitted(false, [])
      case Label(octets, used) =>
        if octets == [] then (if |s| > 1 || !first then Emitted(false, []) else Emitted(true, [0]))
        else if !Fits(octets, max) then Emitted(false, [])
        else EmitLabel(s, octets, used, max)
  }

  /** Writing the label, and what follows it. */
  function EmitLabel(s: seq<byte>, octets: seq<nat>, used: nat, max: int): Emitted
    requires used <= |s| && Fits(octets, max)
    decreases |s|, 0
  {
    var head := [|octets| as byte] + Writable(octets);
    if |Writable(octets)| < |octets| then Emitted(false, head)
    else if |s| - used < 2 then Emitted(true, head + [0])
    else
      var tail := Emit(s[used + 1..], false, max - |octets| - 1);
      Emitted(tail.ok, head + tail.bytes)
  }

  function Name(s: seq<byte>): Emitted { Emit(s, true, 255) }

  /** However the call ends, it has appended at most two bytes more than it was given, and at most 256. */
  lemma {:induction false} EmitLength(s: seq<byte>, first: bool, max: nat)
    ensures |Emit(s, first, max).bytes| <= |s| + 2
    ensures |Emit(s, first, max).bytes| <= max + 1
    decreases |s|
  {
    if s != [] {
      var scan := ScanLabel(s);
      if scan.Label? && Fits(scan.octets, max) {
        if |s| - scan.used >= 2 {
          EmitLength(s[scan.used + 1..], false, max - |scan.octets| - 1);
        }
        EmitLabelLength(s, scan.octets, scan.used, max);
      }
    }
  }

  lemma {:induction false} EmitLabelLength(s: seq<byte>, octets: seq<nat>, used: nat, max: nat)
    requires |octets| <= used <= |s| && Fits(octets, max)
    requires |s| - used >= 2 ==>
               var n := |Emit(s[used + 1..], false, max - |octets| - 1).bytes|;
               n <= |s| - used + 1 && n <= max - |octets|
    ensures |EmitLabel(s, octets, used, max).bytes| <= |s| + 2
    ensures |EmitLabel(s, octets, used, max).bytes| <= max + 1
  {
  }

  // ---- What the string means ----

  datatype Token = Dot | Octet(v: nat)
  datatype Tokens = BadEscape | Tokens(toks: seq<Token>)

  function Prepend(t: Token, rest: Tokens): Tokens {
    if rest.BadEscape? then BadEscape else Tokens([t] + rest.toks)
  }

  /** The string as octets and separating dots. */
  function Tokenize(s: seq<byte>): Tokens {
    if s == [] then Tokens([])
    else if s[0] == DOT then Prepend(Dot, Tokenize(s[1..]))
    else if s[0] != BACKSLASH then Prepend(Octet(s[0]), Tokenize(s[1..]))
    else if |s| < 2 then BadEscape
    else if !IsDigit(s[1]) then Prepend(Octet(s[1]), Tokenize(s[2..]))
    else if |s| < 4 || !IsDigit(s[2]) || !IsDigit(s[3]) then BadEscape
    else Prepend(Octet(EscapeValue(s[1], s[2], s[3])), Tokenize(s[4..]))
  }

  /** The octets between dots. */
  function Fields(t: seq<Token>): (f: seq<seq<nat>>)
    ensures f != []
  {
    if t == [] then [[]]
    else
      var f := Fields(t[1..]);
      if t[0].Dot? then [[]] + f else [[t[0].v] + f[0]] + f[1..]
  }

  /** A final dot does not begin another label. */
  function Labels(t: seq<Token>): seq<seq<nat>> {
    var f := Fields(t);
    if |f| > 1 && f[|f| - 1] == [] then f[..|f| - 1] else f
  }

  /** The labels of a name; a lone dot is the root. */
  function NameLabels(t: seq<Token>): seq<seq<nat>> { if t == [Dot] then [] else Labels(t) }

  ghost predicate LegalLabel(l: seq<nat>) { 1 <= |l| <= 63 && AreOctets(l) }

  ghost predicate AllLegal(ls: seq<seq<nat>>) { ls == [] || (LegalLabel(ls[0]) && AllLegal(ls[1..])) }

  /** The octets that labels take, each with its length. */
  ghost function Size(ls: seq<seq<nat>>): nat { if ls == [] then 0 else |ls[0]| + 1 + Size(ls[1..]) }

  ghost predicate Legal(ls: seq<seq<nat>>, max: int) { AllLegal(ls) && Size(ls) <= max }

  /** Section 3.1 of RFC 1035: each label after its length, ended by a zero octet. */
  ghost function Wire(ls: seq<seq<nat>>): seq<byte>
    requires AllLegal(ls)
  {
    if ls == [] then [0] else WireLabel(ls[0]) + Wire(ls[1..])
  }

  ghost function WireLabel(l: seq<nat>): seq<byte>
    requires LegalLabel(l)
  {
    [|l| as byte] + Writable(l)
  }

  ghost function OctetTokens(octets: seq<nat>): seq<Token> {
    if octets == [] then [] else [Octet(octets[0])] + OctetTokens(octets[1..])
  }

  function Concat(a: seq<Token>, b: Tokens): Tokens { if b.BadEscape? then BadEscape else Tokens(a + b.toks) }

  /** The scan of a label reads the tokens up to the next dot. */
  lemma {:induction false} ScanIsTokens(s: seq<byte>)
    ensures ScanLabel(s).Bad? ==> Tokenize(s).BadEscape?
    ensures ScanLabel(s).Label? ==>
              Tokenize(s) == Concat(OctetTokens(ScanLabel(s).octets), Tokenize(s[ScanLabel(s).used..]))
    decreases |s|, 1
  {
    if s == [] || s[0] == DOT {
      assert s[0..] == s;
      if Tokenize(s).Tokens? { assert [] + Tokenize(s).toks == Tokenize(s).toks; }
    } else if s[0] != BACKSLASH {
      ScanStep(s, s[0], 1);
    } else if |s| >= 2 && !IsDigit(s[1]) {
      ScanStep(s, s[1], 2);
    } else if |s| >= 4 && IsDigit(s[2]) && IsDigit(s[3]) {
      ScanStep(s, EscapeValue(s[1], s[2], s[3]), 4);
    }
  }

  lemma {:induction false} ScanStep(s: seq<byte>, octet: nat, chars: nat)
    requires 0 < chars <= |s|
    requires ScanLabel(s) == More(octet, chars, ScanLabel(s[chars..]))
    requires Tokenize(s) == Prepend(Octet(octet), Tokenize(s[chars..]))
    ensures ScanLabel(s).Bad? ==> Tokenize(s).BadEscape?
    ensures ScanLabel(s).Label? ==>
              Tokenize(s) == Concat(OctetTokens(ScanLabel(s).octets), Tokenize(s[ScanLabel(s).used..]))
    decreases |s|, 0
  {
    var rest := s[chars..];
    var scan := ScanLabel(rest);
    ScanIsTokens(rest);
    if scan.Label? {
      assert rest[scan.used..] == s[chars + scan.used..];
      ConcatStep(octet, scan.octets, Tokenize(rest[scan.used..]));
    }
  }

  lemma {:induction false} ConcatStep(octet: nat, octets: seq<nat>, t: Tokens)
    ensures Prepend(Octet(octet), Concat(OctetTokens(octets), t)) == Concat(OctetTokens([octet] + octets), t)
  {
    assert ([octet] + octets)[1..] == octets;
    if t.Tokens? {
      assert [Octet(octet)] + (OctetTokens(octets) + t.toks) == [Octet(octet)] + OctetTokens(octets) + t.toks;
    }
  }

  lemma {:induction false} FieldsStep(octet: nat, t: seq<Token>, first: seq<nat>, rest: seq<seq<nat>>)
    requires Fields(t) == [first] + rest
    ensures Fields([Octet(octet)] + t) == [[octet] + first] + rest
  {
    assert ([Octet(octet)] + t)[1..] == t;
  }

  lemma {:induction false} FieldsOfOne(octets: seq<nat>)
    ensures Fields(OctetTokens(octets)) == [octets]
  {
    if octets != [] {
      FieldsOfOne(octets[1..]);
      FieldsStep(octets[0], OctetTokens(octets[1..]), octets[1..], []);
      assert [octets[0]] + octets[1..] == octets;
    }
  }

  lemma {:induction false} FieldsOfLabel(octets: seq<nat>, t: seq<Token>)
    ensures Fields(OctetTokens(octets) + ([Dot] + t)) == [octets] + Fields(t)
  {
    var tail := [Dot] + t;
    if octets == [] {
      assert OctetTokens(octets) + tail == tail;
      assert tail[1..] == t;
    } else {
      FieldsOfLabel(octets[1..], t);
      FieldsStep(octets[0], OctetTokens(octets[1..]) + tail, octets[1..], Fields(t));
      assert OctetTokens(octets) + tail == [Octet(octets[0])] + (OctetTokens(octets[1..]) + tail);
      assert [octets[0]] + octets[1..] == octets;
    }
  }

  /** The labels of a string from those of what follows its first label. */
  lemma {:induction false} LabelsStep(octets: seq<nat>, t: seq<Token>)
    ensures Labels(OctetTokens(octets)) == [octets]
    ensures Labels(OctetTokens(octets) + [Dot]) == [octets]
    ensures t != [] ==> Labels(OctetTokens(octets) + ([Dot] + t)) == [octets] + Labels(t)
  {
    FieldsOfOne(octets);
    FieldsOfLabel(octets, []);
    assert [Dot] + [] == [Dot];
    if t != [] {
      FieldsOfLabel(octets, t);
      var f := Fields(t);
      LastFieldOf(t);
      var g := [octets] + f;
      assert g[|g| - 1] == f[|f| - 1];
      assert g[..|g| - 1] == [octets] + f[..|f| - 1];
    }
  }

  lemma {:induction false} LastFieldOf(t: seq<Token>)
    requires t != []
    ensures |Fields(t)| > 1 || Fields(t)[0] != []
  {
  }

  // ---- The program reads what the string means ----

  /** The labels that a string, or what is left of one, stands for. */
  function LabelsFrom(t: seq<Token>, first: bool): seq<seq<nat>> {
    if first && t == [Dot] then [] else Labels(t)
  }

  ghost predicate Means(e: Emitted, t: Tokens, first: bool, max: int) {
    && (e.ok <==> t.Tokens? && Legal(LabelsFrom(t.toks, first), max))
    && (e.ok ==> e.bytes == Wire(LabelsFrom(t.toks, first)))
  }

  lemma {:induction false} LegalStep(l: seq<nat>, ls: seq<seq<nat>>, max: int)
    ensures Legal([l] + ls, max) <==> LegalLabel(l) && Legal(ls, max - |l| - 1)
    ensures Legal([l] + ls, max) ==> Wire([l] + ls) == WireLabel(l) + Wire(ls)
  {
    assert ([l] + ls)[1..] == ls;
  }

  lemma {:induction false} EmitDot(s: seq<byte>, first: bool, max: nat)
    requires s != [] && s[0] == DOT
    ensures Means(Emit(s, first, max), Tokenize(s), first, max)
  {
    if |s| == 1 {
      assert Tokenize(s) == Tokens([Dot]);
      NoLegalDot([], max);
    } else if Tokenize(s).Tokens? {
      TokensOfSome(s[1..]);
      NoLegalDot(Tokenize(s[1..]).toks, max);
    }
  }

  /** Only the root begins with a dot. */
  lemma {:induction false} NoLegalDot(t: seq<Token>, max: nat)
    ensures !Legal(Labels([Dot] + t), max)
  {
    LabelsStep([], t);
    assert OctetTokens([]) + ([Dot] + t) == [Dot] + t;
    if t == [] {
      assert OctetTokens([]) + [Dot] == [Dot] + t;
    }
    var ls := Labels([Dot] + t);
    assert ls[0] == [];
  }

  /** What follows the label and its dot means what it should. */
  ghost predicate RestMeans(s: seq<byte>, octets: seq<nat>, used: nat, max: int) {
    && used + 2 <= |s|
    && var rest, left := s[used + 1..], max - |octets| - 1;
       Means(Emit(rest, false, left), Tokenize(rest), false, left)
  }

  lemma {:induction false} EmitLabelMeans(s: seq<byte>, octets: seq<nat>, used: nat, first: bool, max: nat)
    requires octets != [] && used <= |s| && Fits(octets, max)
    requires used < |s| ==> s[used] == DOT
    requires used + 2 <= |s| ==> RestMeans(s, octets, used, max)
    ensures Means(EmitLabel(s, octets, used, max), Concat(OctetTokens(octets), Tokenize(s[used..])), first, max)
  {
    if used == |s| {
      assert s[used..] == [];
      EmitLast(octets, [], max);
    } else if used + 1 == |s| {
      assert s[used..] == [DOT];
      assert Tokenize([DOT]) == Tokens([Dot]);
      EmitLast(octets, [Dot], max);
    } else {
      assert s[used..][1..] == s[used + 1..];
      EmitLabelThen(s, octets, used, first, max);
    }
  }

  lemma {:induction false} EmitLabelThen(s: seq<byte>, octets: seq<nat>, used: nat, first: bool, max: nat)
    requires octets != [] && Fits(octets, max) && RestMeans(s, octets, used, max)
    ensures Means(EmitLabel(s, octets, used, max),
                  Concat(OctetTokens(octets), Prepend(Dot, Tokenize(s[used + 1..]))), first, max)
  {
    TokensStartWith(octets);
    var rest := Tokenize(s[used + 1..]);
    if rest.Tokens? {
      TokensOfSome(s[used + 1..]);
      LabelsStep(octets, rest.toks);
      LegalStep(octets, Labels(rest.toks), max);
    }
  }

  /** A label over the limits leaves no legal reading. */
  lemma {:induction false} UnfitLabel(octets: seq<nat>, rest: seq<byte>, first: bool, max: nat)
    requires octets != [] && !Fits(octets, max) && (rest == [] || rest[0] == DOT)
    ensures Means(Emitted(false, []), Concat(OctetTokens(octets), Tokenize(rest)), first, max)
  {
    TokensStartWith(octets);
    if |rest| == 0 {
      EmitLast(octets, [], max);
    } else if |rest| == 1 {
      assert rest == [DOT];
      assert Tokenize([DOT]) == Tokens([Dot]);
      EmitLast(octets, [Dot], max);
    } else if Tokenize(rest[1..]).Tokens? {
      TokensOfSome(rest[1..]);
      var t := Tokenize(rest[1..]).toks;
      LabelsStep(octets, t);
      LegalStep(octets, Labels(t), max);
    }
  }

  /** A string that begins with a label means what it means after it. */
  lemma {:induction false} EmitStep(s: seq<byte>, scan: Scan, first: bool, max: nat)
    requires s != [] && s[0] != DOT && scan == ScanLabel(s)
    requires scan.Label? && Fits(scan.octets, max) && scan.used + 2 <= |s| ==>
               RestMeans(s, scan.octets, scan.used, max)
    ensures Means(Emit(s, first, max), Tokenize(s), first, max)
  {
    ScanIsTokens(s);
    if scan.Label? {
      if Fits(scan.octets, max) {
        EmitLabelMeans(s, scan.octets, scan.used, first, max);
      } else {
        UnfitLabel(scan.octets, s[scan.used..], first, max);
      }
    }
  }

  lemma {:induction false} TokensStartWith(octets: seq<nat>)
    requires octets != []
    ensures OctetTokens(octets) != [] && OctetTokens(octets)[0] == Octet(octets[0])
  {
  }

  lemma {:induction false} EmitLast(octets: seq<nat>, t: seq<Token>, max: nat)
    requires octets != [] && (t == [] || t == [Dot])
    ensures Legal(LabelsFrom(OctetTokens(octets) + t, true), max) <==> LegalLabel(octets) && |octets| + 1 <= max
    ensures Legal(LabelsFrom(OctetTokens(octets) + t, true), max) ==>
              Wire(LabelsFrom(OctetTokens(octets) + t, true)) == WireLabel(octets) + [0]
    ensures LabelsFrom(OctetTokens(octets) + t, true) == LabelsFrom(OctetTokens(octets) + t, false)
  {
    TokensStartWith(octets);
    LabelsStep(octets, []);
    assert OctetTokens(octets) + [] == OctetTokens(octets);
    LegalStep(octets, [], max);
    assert [octets] + [] == [octets];
  }

  lemma {:induction false} TokensOfSome(s: seq<byte>)
    requires s != [] && Tokenize(s).Tokens?
    ensures Tokenize(s).toks != []
  {
  }

  lemma {:induction false} EmitMeans(s: seq<byte>, first: bool, max: nat)
    requires s != []
    ensures Means(Emit(s, first, max), Tokenize(s), first, max)
    decreases |s|
  {
    if s[0] == DOT {
      EmitDot(s, first, max);
    } else {
      var scan := ScanLabel(s);
      if scan.Label? && Fits(scan.octets, max) && scan.used + 2 <= |s| {
        EmitMeans(s[scan.used + 1..], false, max - |scan.octets| - 1);
      }
      EmitStep(s, scan, first, max);
    }
  }

  /**
   * A non-empty string is accepted exactly when its escapes are well formed and it stands for labels of
   * 1 to 63 octets that take at most 255 octets before the root's; then what is written is their wire form.
   */
  lemma {:induction false} NameIff(s: seq<byte>)
    requires s != []
    ensures Name(s).ok <==> Tokenize(s).Tokens? && Legal(NameLabels(Tokenize(s).toks), 255)
    ensures Name(s).ok ==> Name(s).bytes == Wire(NameLabels(Tokenize(s).toks))
    ensures |Name(s).bytes| <= |s| + 2 && |Name(s).bytes| <= 256
  {
    EmitMeans(s, true, 255);
    EmitLength(s, true, 255);
  }

  lemma {:induction false} WireSize(ls: seq<seq<nat>>)
    requires AllLegal(ls)
    ensures |Wire(ls)| == Size(ls) + 1
  {
    if ls != [] {
      WritableIsAll(ls[0]);
      WireSize(ls[1..]);
    }
  }

  /** An accepted name keeps to the 255 octets of section 2.3.4 of RFC 1035 exactly when its labels take at most 254. */
  lemma {:induction false} WithinLimitIff(s: seq<byte>)
    requires s != [] && Name(s).ok
    ensures Tokenize(s).Tokens?
    ensures |Name(s).bytes| <= 255 <==> Size(NameLabels(Tokenize(s).toks)) <= 254
  {
    NameIff(s);
    WireSize(NameLabels(Tokenize(s).toks));
  }

  /** The check for space asks for as many bytes as there are characters; a name can take two more. */
  lemma {:induction false} NameOutgrowsItsText()
    ensures Name([97]) == Emitted(true, [1, 97, 0])
  {
    assert ScanLabel([97]) == More(97, 1, ScanLabel([97][1..]));
    assert Writable([97]) == [97];
  }

  /** A backslash and three digits are one octet, a backslash and anything else is that character. */
  lemma {:induction false} EscapesRead(d0: byte, d1: byte, d2: byte, c: byte, rest: seq<byte>)
    requires 48 <= d0 <= 57 && 48 <= d1 <= 57 && 48 <= d2 <= 57 && !(48 <= c <= 57)
    ensures Tokenize([92, d0, d1, d2] + rest) == Prepend(Octet(EscapeValue(d0, d1, d2)), Tokenize(rest))
    ensures Tokenize([92, c] + rest) == Prepend(Octet(c), Tokenize(rest))
  {
    assert ([92, d0, d1, d2] + rest)[4..] == rest;
    assert ([92, c] + rest)[2..] == rest;
  }

  /** The leading ones of these digits that base 7 has. */
  function SeptalPrefix(digits: seq<byte>): (r: seq<byte>) {
    if digits == [] || !(48 <= digits[0] <= 54) then [] else [digits[0]] + SeptalPrefix(digits[1..])
  }

  function Septal(digits: seq<byte>): int {
    if digits == [] then 0 else 7 * Septal(digits[..|digits| - 1]) + (digits[|digits| - 1] as int - 48)
  }

  /** As strtol reads it: the longest run of digits below 7 at the front, in base 7. */
  lemma {:induction false} EscapeIsSeptal(d0: byte, d1: byte, d2: byte)
    requires IsDigit(d0) && IsDigit(d1) && IsDigit(d2)
    ensures EscapeValue(d0, d1, d2) == Septal(SeptalPrefix([d0, d1, d2]))
  {
    PrefixStep(d2, []);
    PrefixStep(d1, [d2]);
    PrefixStep(d0, [d1, d2]);
    assert [d0] + [d1, d2] == [d0, d1, d2] && [d1] + [d2] == [d1, d2] && [d2] + [] == [d2];
    SeptalOne(d0);
    SeptalTwo(d0, d1);
    assert [d0, d1, d2][..2] == [d0, d1];
  }

  lemma {:induction false} PrefixStep(d: byte, rest: seq<byte>)
    ensures SeptalPrefix([d] + rest) == if 48 <= d <= 54 then [d] + SeptalPrefix(rest) else []
  {
    assert ([d] + rest)[1..] == rest;
  }

  lemma {:induction false} SeptalOne(d: byte)
    ensures Septal([d]) == d as int - 48
  {
    assert [d][..0] == [];
  }

  lemma {:induction false} SeptalTwo(d0: byte, d1: byte)
    ensures Septal([d0, d1]) == 7 * (d0 as int - 48) + (d1 as int - 48)
  {
    SeptalOne(d0);
    assert [d0, d1][..1] == [d0];
  }

  /** \DDD agrees with section 5.1 of RFC 1035 for the octets 0 to 6 and no others. */
  lemma {:induction false} EscapeIsDecimalIff(d0: byte, d1: byte, d2: byte)
    requires IsDigit(d0) && IsDigit(d1) && IsDigit(d2)
    ensures EscapeValue(d0, d1, d2) == 100 * (d0 - 48) + 10 * (d1 - 48) + (d2 - 48) <==>
            d0 == 48 && d1 == 48 && d2 < 55
  {
    var v0, v1, v2 := d0 - 48, d1 - 48, d2 - 48;
  }

  // ---- Printing ----

  function PrintOctet(octet: byte): seq<byte> {
    if octet == DOT || octet == BACKSLASH then [BACKSLASH, octet] else [octet]
  }

  function PrintLabel(l: seq<nat>): seq<byte>
    requires AreOctets(l)
  {
    if l == [] then [] else PrintOctet(l[0]) + PrintLabel(l[1..])
  }

  /** The labels with dots between them, dots and backslashes inside them escaped. */
  function Print(ls: seq<seq<nat>>): seq<byte>
    requires AllLegal(ls)
  {
    if ls == [] then [DOT]
    else if |ls| == 1 then PrintLabel(ls[0])
    else PrintLabel(ls[0]) + [DOT] + Print(ls[1..])
  }

  lemma {:induction false} TokensOfLabel(l: seq<nat>, rest: seq<byte>)
    requires AreOctets(l)
    ensures Tokenize(PrintLabel(l) + rest) == Concat(OctetTokens(l), Tokenize(rest))
  {
    if l == [] {
      assert PrintLabel(l) + rest == rest;
      if Tokenize(rest).Tokens? { assert [] + Tokenize(rest).toks == Tokenize(rest).toks; }
    } else {
      var more := PrintLabel(l[1..]) + rest;
      TokensOfLabel(l[1..], rest);
      assert PrintLabel(l) + rest == PrintOctet(l[0]) + more;
      TokensOfOctet(l[0], more);
      ConcatStep(l[0], l[1..], Tokenize(rest));
      assert [l[0]] + l[1..] == l;
    }
  }

  lemma {:induction false} TokensOfOctet(octet: byte, rest: seq<byte>)
    ensures Tokenize(PrintOctet(octet) + rest) == Prepend(Octet(octet), Tokenize(rest))
  {
    var s := PrintOctet(octet) + rest;
    if octet == DOT || octet == BACKSLASH {
      assert s[2..] == rest;
    } else {
      assert s[1..] == rest;
    }
  }

  lemma {:induction false} TokensOfPair(l: seq<nat>, more: seq<byte>)
    requires AreOctets(l)
    ensures Tokenize(PrintLabel(l) + [DOT] + more) == Concat(OctetTokens(l), Prepend(Dot, Tokenize(more)))
  {
    var rest := [DOT] + more;
    assert rest[1..] == more;
    assert PrintLabel(l) + [DOT] + more == PrintLabel(l) + rest;
    TokensOfLabel(l, rest);
  }

  /** The tokens are those of labels, and begin with an octet. */
  ghost predicate Reads(t: Tokens, ls: seq<seq<nat>>) {
    t.Tokens? && t.toks != [] && t.toks[0].Octet? && Labels(t.toks) == ls
  }

  lemma {:induction false} ReadsStep(l: seq<nat>, t: Tokens, ls: seq<seq<nat>>)
    requires l != [] && Reads(t, ls)
    ensures Reads(Concat(OctetTokens(l), Prepend(Dot, t)), [l] + ls)
  {
    TokensStartWith(l);
    LabelsStep(l, t.toks);
  }

  lemma {:induction false} ReadsOne(l: seq<nat>)
    requires l != [] && AreOctets(l)
    ensures Reads(Tokenize(PrintLabel(l)), [l])
  {
    TokensStartWith(l);
    TokensOfLabel(l, []);
    assert PrintLabel(l) + [] == PrintLabel(l);
    assert OctetTokens(l) + [] == OctetTokens(l);
    LabelsStep(l, []);
  }

  lemma {:induction false} PrintedLabels(ls: seq<seq<nat>>)
    requires ls != [] && AllLegal(ls)
    ensures Reads(Tokenize(Print(ls)), ls)
  {
    if |ls| == 1 {
      ReadsOne(ls[0]);
      assert ls == [ls[0]];
    } else {
      PrintedLabels(ls[1..]);
      TokensOfPair(ls[0], Print(ls[1..]));
      ReadsStep(ls[0], Tokenize(Print(ls[1..])), ls[1..]);
      assert [ls[0]] + ls[1..] == ls;
    }
  }

  /** Parsing what was printed gives the wire form of the labels. */
  lemma {:induction false} ParsesWhatPrints(ls: seq<seq<nat>>)
    requires Legal(ls, 255)
    ensures Name(Print(ls)) == Emitted(true, Wire(ls))
  {
    if ls == [] {
      assert ScanLabel([DOT]) == Label([], 0);
    } else {
      PrintedLabels(ls);
      var s := Print(ls);
      assert s != [];
      NameIff(s);
    }
  }

  /** So three labels of 63 octets and one of 62 are accepted, as a name of 256 octets. */
  lemma {:induction false} NameBeyondLimit(l: seq<nat>, last: seq<nat>)
    requires AreOctets(l) && AreOctets(last) && |l| == 63 && |last| == 62
    ensures AllLegal([l, l, l, last])
    ensures var name := Name(Print([l, l, l, last])); name.ok && |name.bytes| == 256
  {
    var ls := [l, l, l, last];
    LegalFour(l, l, l, last);
    ParsesWhatPrints(ls);
    WireSize(ls);
  }

  lemma {:induction false} LegalFour(a: seq<nat>, b: seq<nat>, c: seq<nat>, d: seq<nat>)
    requires LegalLabel(a) && LegalLabel(b) && LegalLabel(c) && LegalLabel(d)
    ensures AllLegal([a, b, c, d]) && Size([a, b, c, d]) == |a| + |b| + |c| + |d| + 4
  {
    SizeStep(d, []);
    SizeStep(c, [d]);
    SizeStep(b, [c, d]);
    SizeStep(a, [b, c, d]);
    assert [d] + [] == [d] && [c] + [d] == [c, d] && [b] + [c, d] == [b, c, d] && [a] + [b, c, d] == [a, b, c, d];
  }

  lemma {:induction false} SizeStep(l: seq<nat>, ls: seq<seq<nat>>)
    requires LegalLabel(l) && AllLegal(ls)
    ensures AllLegal([l] + ls) && Size([l] + ls) == |l| + 1 + Size(ls)
  {
    assert ([l] + ls)[1..] == ls;
  }
}
