/** The algorithm names that a TSIG key can have (src/tsig.c). */
module TsigAlgorithms {
  import opened DnsName
  import RequestSpec

  datatype Algorithm = HmacMd5 | HmacSha1 | HmacSha224 | HmacSha256 | HmacSha384 | HmacSha512

  /** A character that a name has as itself. */
  predicate PlainChar(c: char) { c < 128 as char && c != '.' && c != '\\' }

  ghost predicate PlainString(s: string) { forall i :: 0 <= i < |s| ==> PlainChar(s[i]) }

  function Ascii(s: string): (l: seq<nat>)
    requires PlainString(s)
    ensures |l| == |s|
  {
    if s == "" then [] else [s[0] as nat] + Ascii(s[1..])
  }

  ghost predicate PlainOctets(l: seq<nat>) {
    l == [] || (l[0] < 256 && l[0] != 46 && l[0] != 92 && PlainOctets(l[1..]))
  }

  ghost predicate AllPlain(ls: seq<seq<nat>>) {
    ls == [] || (1 <= |ls[0]| <= 63 && PlainOctets(ls[0]) && AllPlain(ls[1..]))
  }

  lemma {:induction false} AsciiIsPlain(s: string)
    requires PlainString(s)
    ensures PlainOctets(Ascii(s))
  {
    if s != "" {
      AsciiIsPlain(s[1..]);
    }
  }

  lemma {:induction false} PlainPrints(l: seq<nat>)
    requires PlainOctets(l)
    ensures AreOctets(l) && PrintLabel(l) == l
  {
    if l != [] {
      PlainPrints(l[1..]);
      assert l == [l[0]] + l[1..];
    }
  }

  lemma {:induction false} PlainLengths(ls: seq<seq<nat>>)
    requires ls != [] && AllPlain(ls)
    ensures AllLegal(ls) && |Print(ls)| == Size(ls) - 1 && |Wire(ls)| == Size(ls) + 1
  {
    PlainPrints(ls[0]);
    if |ls| > 1 {
      PlainLengths(ls[1..]);
    } else {
      assert ls[1..] == [];
      assert Wire([]) == [0];
    }
  }

  /** A label in front of others. */
  lemma {:induction false} PlainStep(s: string, ls: seq<seq<nat>>)
    requires PlainString(s) && 1 <= |s| <= 63 && AllPlain(ls)
    ensures AllPlain([Ascii(s)] + ls) && Size([Ascii(s)] + ls) == |s| + 1 + Size(ls)
  {
    AsciiIsPlain(s);
    assert ([Ascii(s)] + ls)[1..] == ls;
  }

  function TextLabels(a: Algorithm): (t: seq<string>)
    ensures 1 <= |t| <= 4 && forall i :: 0 <= i < |t| ==> PlainString(t[i]) && 1 <= |t[i]| <= 11
  {
    match a
    case HmacMd5 => ["hmac-md5", "sig-alg", "reg", "int"]
    case HmacSha1 => ["hmac-sha1"]
    case HmacSha224 => ["hmac-sha224"]
    case HmacSha256 => ["hmac-sha256"]
    case HmacSha384 => ["hmac-sha384"]
    case HmacSha512 => ["hmac-sha512"]
  }

  function AsciiAll(t: seq<string>): (ls: seq<seq<nat>>)
    requires forall i :: 0 <= i < |t| ==> PlainString(t[i])
    ensures |ls| == |t|
  {
    if t == [] then [] else [Ascii(t[0])] + AsciiAll(t[1..])
  }

  lemma {:induction false} AsciiAllPlain(t: seq<string>)
    requires forall i :: 0 <= i < |t| ==> PlainString(t[i]) && 1 <= |t[i]| <= 11
    ensures AllPlain(AsciiAll(t)) && Size(AsciiAll(t)) <= 12 * |t|
  {
    if t != [] {
      AsciiAllPlain(t[1..]);
      PlainStep(t[0], AsciiAll(t[1..]));
    }
  }

  function LabelsOf(a: Algorithm): seq<seq<nat>> { AsciiAll(TextLabels(a)) }

  lemma {:induction false} PlainLabelsName(ls: seq<seq<nat>>)
    requires ls != [] && AllPlain(ls) && Size(ls) <= 255
    ensures AllLegal(ls) && RequestSpec.PlainName(Print(ls)) && |Print(ls)| == Size(ls) - 1
  {
    PlainLengths(ls);
    ParsesWhatPrints(ls);
  }

  /** Each algorithm's name takes two bytes more than its text, as the program's lengths suppose. */
  lemma {:induction false} AlgorithmsArePlain(a: Algorithm)
    ensures AllLegal(LabelsOf(a)) && RequestSpec.PlainName(Print(LabelsOf(a))) && |Print(LabelsOf(a))| <= 47
  {
    var t := TextLabels(a);
    AsciiAllPlain(t);
    PlainLabelsName(AsciiAll(t));
  }
}
