/**
 * hg64 histograms (src/ext/hg64.c): sparse bins of 64-bit counters that are allocated on first
 * use, the sparse iterator, and the operations built on it.
 */
module Hg64 {
  import opened CInt
  import opened Hg64Keys

  /** A bin pointer: null, or the bin's counters. */
  datatype Bin = Absent | Counters(counts: seq<nat>)

  ghost predicate ValidBins(s: nat, bins: seq<Bin>) {
    && ValidSigbits(s)
    && |bins| == 64
    && forall b :: 0 <= b < 64 ==> ValidBin(s, bins[b])
  }

  ghost predicate ValidBin(s: nat, bin: Bin) {
    bin.Counters? ==>
      |bin.counts| == BinSize(s) && forall c :: 0 <= c < |bin.counts| ==> bin.counts[c] < TWO_64
  }

  /** Where a key's counter lives. */
  function Slot(s: nat, key: nat): (r: (nat, nat))
    requires ValidSigbits(s) && key < Keys(s)
    ensures r.0 < 64 && r.1 < BinSize(s) && key == Times(r.0, BinSize(s)) + r.1
  {
    SlotRange(s, key);
    (KeyBin(s, key), KeyPlace(s, key))
  }

  lemma {:induction false} SlotRange(s: nat, key: nat)
    requires ValidSigbits(s) && key < Keys(s)
    ensures 0 <= KeyBin(s, key) < 64 && 0 <= KeyPlace(s, key) < BinSize(s)
    ensures key == Times(KeyBin(s, key), BinSize(s)) + KeyPlace(s, key)
  {
    DivMod(key, BinSize(s));
    if Exponents(s) <= KeyBin(s, key) { TimesMono(Exponents(s), KeyBin(s, key), BinSize(s)); }
  }

  lemma {:induction false} SlotIs(s: nat, key: nat, b: nat, c: nat)
    requires ValidSigbits(s) && key < Keys(s) && c < BinSize(s) && key == Times(b, BinSize(s)) + c
    ensures Slot(s, key) == (b, c)
  {
    KeyBinIs(s, key, b);
  }

  /** get_key_count */
  function CountIn(s: nat, bins: seq<Bin>, key: nat): (n: nat)
    requires ValidSigbits(s) && |bins| == 64 && key < Keys(s)
    requires ValidBins(s, bins)
    ensures n < TWO_64
  {
    var (b, c) := Slot(s, key);
    if bins[b].Absent? then 0 else bins[b].counts[c]
  }

  /** A histogram as the caller sees it: one count for every key. */
  ghost function Table(s: nat, bins: seq<Bin>): (t: seq<nat>)
    requires ValidBins(s, bins)
    ensures |t| == Keys(s)
  {
    seq(Keys(s), k requires 0 <= k < Keys(s) => CountIn(s, bins, k))
  }

  class Histogram {
    const sigbits: nat
    var bin: seq<Bin>

    ghost predicate Valid()
      reads this
    {
      ValidBins(sigbits, bin)
    }

    ghost function Counts(): seq<nat>
      requires Valid()
      reads this
    {
      Table(sigbits, bin)
    }

    /** hg64_create, for the precisions it accepts. */
    constructor (sigbits: nat)
      requires ValidSigbits(sigbits)
      ensures Valid() && this.sigbits == sigbits
      ensures forall k :: 0 <= k < Keys(sigbits) ==> Counts()[k] == 0
    {
      this.sigbits := sigbits;
      bin := seq(64, _ => Absent);
    }

    /** add_key_count with key_to_new_counter inlined: a missing bin is created zeroed. */
    method AddKeyCount(key: nat, inc: nat)
      requires Valid() && key < Keys(sigbits) && inc < TWO_64
      modifies this
      ensures Valid()
      ensures Counts() == old(Counts())[key := U64(old(Counts())[key] + inc)]
    {
      if inc == 0 {
        Fits64(Counts()[key]);
        return;
      }
      var (b, c) := Slot(sigbits, key);
      ghost var before := bin;
      var counts := if bin[b].Absent? then seq(BinSize(sigbits), _ => 0) else bin[b].counts;
      bin := bin[b := Counters(counts[c := U64(counts[c] + inc)])];
      ghost var s, after := sigbits, bin;
      forall k | 0 <= k < Keys(s) && k != key
        ensures CountIn(s, after, k) == CountIn(s, before, k)
      {
        var slot := Slot(s, k);
        assert slot != (b, c);
      }
    }

    /** hg64_inc */
    method Inc(value: nat)
      requires Valid() && value < TWO_64
      modifies this
      ensures Valid() && ValueToKey(sigbits, value) < Keys(sigbits)
      ensures var k := ValueToKey(sigbits, value);
              Counts() == old(Counts())[k := U64(old(Counts())[k] + 1)]
    {
      ValueHasBucket(sigbits, value);
      AddKeyCount(ValueToKey(sigbits, value), 1);
    }

    /** hg64_next: it moves forward and passes over no key with a count. */
    method Next(key: nat) returns (next: nat)
      requires Valid() && key < Keys(sigbits)
      ensures key < next <= Keys(sigbits)
      ensures forall k :: key < k < next ==> Counts()[k] == 0
    {
      next := key + 1;
      while next < Keys(sigbits) && BitAnd(next, BinSize(sigbits) - 1) == 0 && bin[Slot(sigbits, next).0].Absent?
        invariant key < next <= Keys(sigbits)
        invariant forall k :: key < k < next ==> Counts()[k] == 0
        decreases Keys(sigbits) - next
      {
        EmptyBin(sigbits, bin, next);
        next := next + BinSize(sigbits);
      }
    }

    /** hg64_min_key */
    method MinKey() returns (key: nat)
      requires Valid()
      ensures key < Keys(sigbits)
      ensures forall k :: 0 <= k < key ==> Counts()[k] == 0
      ensures Counts()[key] > 0 || (key == 0 && forall k :: 0 <= k < Keys(sigbits) ==> Counts()[k] == 0)
    {
      SomeKeys(sigbits);
      key := 0;
      while key < Keys(sigbits)
        invariant 0 <= key <= Keys(sigbits)
        invariant forall k :: 0 <= k < key ==> Counts()[k] == 0
        decreases Keys(sigbits) - key
      {
        if CountIn(sigbits, bin, key) > 0 { return; }
        key := Next(key);
      }
      key := 0;
    }

    /** hg64_max_key */
    method MaxKey() returns (last: nat)
      requires Valid()
      ensures last < Keys(sigbits)
      ensures forall k :: last < k < Keys(sigbits) ==> Counts()[k] == 0
      ensures Counts()[last] > 0 || (last == 0 && forall k :: 0 <= k < Keys(sigbits) ==> Counts()[k] == 0)
    {
      SomeKeys(sigbits);
      last := 0;
      var key := 0;
      while key < Keys(sigbits)
        invariant LastBelow(Counts(), key, last)
        decreases Keys(sigbits) - key
      {
        var count := KeyCount(key);
        var next := Next(key);
        LastBelowNext(Counts(), key, last, next);
        if count > 0 { last := key; }
        key := next;
      }
    }

    /** get_key_count */
    method KeyCount(key: nat) returns (count: nat)
      requires Valid() && key < Keys(sigbits)
      ensures count == Counts()[key]
    {
      count := CountIn(sigbits, bin, key);
    }
  }

  /** The last key below n with a count, or 0 if there is none. */
  ghost predicate LastBelow(counts: seq<nat>, n: nat, last: nat) {
    && last <= n <= |counts| && last < |counts|
    && (forall k :: last < k < n ==> counts[k] == 0)
    && (counts[last] > 0 || (last == 0 && (n > 0 ==> counts[0] == 0)))
  }

  lemma {:induction false} LastBelowNext(counts: seq<nat>, n: nat, last: nat, next: nat)
    requires LastBelow(counts, n, last) && n < next <= |counts| && forall k :: n < k < next ==> counts[k] == 0
    ensures LastBelow(counts, next, if counts[n] > 0 then n else last)
  {
  }

  lemma {:induction false} SomeKeys(s: nat)
    requires ValidSigbits(s)
    ensures Keys(s) > 0
  {
    KeyBound(s, 0, 0);
  }

  /** A key at the start of an absent bin: the whole bin counts nothing and ends within the keys. */
  lemma {:induction false} EmptyBin(s: nat, bins: seq<Bin>, key: nat)
    requires ValidBins(s, bins) && key < Keys(s)
    requires BitAnd(key, BinSize(s) - 1) == 0 && bins[Slot(s, key).0].Absent?
    ensures key + BinSize(s) <= Keys(s)
    ensures forall k :: key <= k < key + BinSize(s) ==> CountIn(s, bins, k) == 0
  {
    var b := StartOfBin(s, key);
    AbsentBin(s, bins, key, b);
  }

  lemma {:induction false} StartOfBin(s: nat, key: nat) returns (b: nat)
    requires BitAnd(key, BinSize(s) - 1) == 0
    ensures key == Times(b, BinSize(s))
  {
    MaskedToZero(key, s);
    b := Shr(key, s);
  }

  lemma {:induction false} AbsentBin(s: nat, bins: seq<Bin>, key: nat, b: nat)
    requires ValidBins(s, bins) && key == Times(b, BinSize(s)) < Keys(s) && bins[Slot(s, key).0].Absent?
    ensures key + BinSize(s) <= Keys(s)
    ensures forall k :: key <= k < key + BinSize(s) ==> CountIn(s, bins, k) == 0
  {
    MultipleBelow(b, Exponents(s), BinSize(s));
    SlotIs(s, key, b, 0);
    forall k | key <= k < key + BinSize(s)
      ensures CountIn(s, bins, k) == 0
    {
      SlotIs(s, k, b, k - key);
    }
  }
}
