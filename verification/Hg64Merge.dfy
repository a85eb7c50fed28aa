/**
 * Merging and subtracting histograms (src/ext/hg64.c), specified on tables of counts: where each
 * source bucket's count ends up, how much of it is lost, and when a merge undoes a difference.
 */
module Hg64Spread {
  import opened CInt

  /**
   * How hg64_merge deals one source count out: the target keys low .. high that the bucket
   * overlaps, the count divided by their number, and what remains.
   */
  datatype Deal = Deal(low: nat, high: nat, div: nat, rem: nat) {
    ghost predicate Within(n: nat) { low <= high < n }

    function Width(): nat { if low <= high then high - low + 1 else 0 }

    ghost predicate Deals(count: nat) {
      && count < TWO_64
      && low <= high
      && rem < Width()
      && count == Times(Width(), div) + rem
    }
  }

  ghost predicate Bounded(t: seq<nat>) {
    forall k :: 0 <= k < |t| ==> t[k] < TWO_64
  }

  ghost predicate Fit(ds: seq<Deal>, t: seq<nat>) {
    Bounded(t) && forall k :: 0 <= k < |ds| ==> ds[k].Within(|t|)
  }

  /** What target key j receives. */
  function Share(d: Deal, j: nat): (inc: nat)
    ensures inc < TWO_64
  {
    U64(d.div + if j < d.rem then 1 else 0)
  }

  /** The table once the target keys below `upto` have had their share. */
  function Spread(t: seq<nat>, d: Deal, upto: nat): (r: seq<nat>)
    ensures |r| == |t|
  {
    if upto <= d.low then t
    else
      var r := Spread(t, d, upto - 1);
      if upto <= |t| then r[upto - 1 := U64(r[upto - 1] + Share(d, upto - 1))] else r
  }

  lemma {:induction false} SpreadAt(t: seq<nat>, d: Deal, upto: nat, j: nat)
    requires j < |t|
    ensures Spread(t, d, upto)[j] == if d.low <= j < upto then U64(t[j] + Share(d, j)) else t[j]
  {
    if upto > d.low { SpreadAt(t, d, upto - 1, j); }
  }

  lemma {:induction false} SpreadBounded(t: seq<nat>, d: Deal, upto: nat)
    requires Bounded(t)
    ensures Bounded(Spread(t, d, upto))
  {
    if upto > d.low { SpreadBounded(t, d, upto - 1); }
  }

  /** The target table after the first n source keys have been dealt out. */
  ghost function Merged(ds: seq<Deal>, t: seq<nat>, n: nat): (r: seq<nat>)
    requires n <= |ds|
    ensures |r| == |t| && (Bounded(t) ==> Bounded(r))
  {
    if n == 0 then t
    else
      var r, d := Merged(ds, t, n - 1), ds[n - 1];
      assert Bounded(r) ==> Bounded(Spread(r, d, d.high + 1)) by { if Bounded(r) { SpreadBounded(r, d, d.high + 1); } }
      Spread(r, d, d.high + 1)
  }

  ghost predicate Empty(d: Deal) { d.div == 0 && d.rem == 0 }

  /** Source keys without a count leave the table as it is, so the sparse iterator may skip them. */
  lemma {:induction false} SkippedKeys(ds: seq<Deal>, t: seq<nat>, n: nat, n': nat)
    requires Bounded(t) && n <= n' <= |ds|
    requires forall k :: n <= k < n' ==> Empty(ds[k])
    ensures Merged(ds, t, n') == Merged(ds, t, n)
    decreases n'
  {
    if n < n' {
      SkippedKeys(ds, t, n, n' - 1);
      SpreadNothing(Merged(ds, t, n' - 1), ds[n' - 1]);
    }
  }

  lemma {:induction false} SpreadNothing(t: seq<nat>, d: Deal)
    requires Bounded(t) && Empty(d)
    ensures Spread(t, d, d.high + 1) == t
  {
    Fits64(0);
    forall j | 0 <= j < |t|
      ensures Spread(t, d, d.high + 1)[j] == t[j]
    {
      SpreadAt(t, d, d.high + 1, j);
      Fits64(t[j]);
    }
  }

  lemma {:induction false} AdvanceMerged(ds: seq<Deal>, t: seq<nat>, k: nat, next: nat)
    requires Bounded(t) && k < next <= |ds|
    requires forall i :: k < i < next ==> Empty(ds[i])
    ensures Merged(ds, t, next) == Spread(Merged(ds, t, k), ds[k], ds[k].high + 1)
  {
    SkippedKeys(ds, t, k + 1, next);
  }

  // ---- Ranges of a single key ----

  /** The counts at the flagged ones of the first n source keys. */
  ghost function CountWhere(flags: seq<bool>, src: seq<nat>, n: nat): nat
    requires n <= |src| == |flags|
  {
    if n == 0 then 0 else CountWhere(flags, src, n - 1) + if flags[n - 1] then src[n - 1] else 0
  }

  /** Each of the first n source buckets overlaps one target key, and is flagged when that is j. */
  ghost predicate AllSingle(ds: seq<Deal>, src: seq<nat>, flags: seq<bool>, n: nat, j: nat)
    requires n <= |src| == |ds| == |flags|
  {
    n == 0 || (AllSingle(ds, src, flags, n - 1, j) && Single(ds[n - 1], src[n - 1], flags[n - 1], j))
  }

  ghost predicate Single(d: Deal, count: nat, flag: bool, j: nat) {
    d.Deals(count) && d.low == d.high && (flag <==> d.low == j)
  }

  /** What the merge of the first n source keys adds at key j are the flagged counts. */
  ghost predicate Receives(ds: seq<Deal>, t: seq<nat>, src: seq<nat>, flags: seq<bool>, n: nat, j: nat) {
    && n <= |src| == |ds| == |flags| && j < |t|
    && Merged(ds, t, n)[j] == U64(t[j] + CountWhere(flags, src, n))
  }

  /** When every source bucket overlaps one target key, that key receives its whole count. */
  lemma {:induction false} SingleKeyMerge(ds: seq<Deal>, src: seq<nat>, t: seq<nat>, flags: seq<bool>, n: nat, j: nat)
    requires Bounded(t) && n <= |src| == |ds| == |flags| && j < |t|
    requires AllSingle(ds, src, flags, n, j)
    ensures Receives(ds, t, src, flags, n, j)
    decreases n
  {
    if n == 0 {
      Fits64(t[j]);
    } else {
      SingleKeyMerge(ds, src, t, flags, n - 1, j);
      SpreadOne(Merged(ds, t, n - 1), ds[n - 1], src[n - 1], j);
      WrapTwice(t[j] + CountWhere(flags, src, n - 1), src[n - 1]);
    }
  }

  /** With one key flagged, only its count is taken. */
  lemma {:induction false} CountOne(flags: seq<bool>, src: seq<nat>, n: nat, j: nat)
    requires n <= |src| == |flags| && j < |src|
    requires forall k :: 0 <= k < n ==> (flags[k] <==> k == j)
    ensures CountWhere(flags, src, n) == if j < n then src[j] else 0
  {
    if n > 0 { CountOne(flags, src, n - 1, j); }
  }

  lemma {:induction false} SpreadOne(t: seq<nat>, d: Deal, count: nat, j: nat)
    requires d.low == d.high && d.Deals(count) && j < |t|
    ensures Spread(t, d, d.high + 1)[j] == if j == d.low then U64(t[j] + count) else t[j]
  {
    assert Times(1, d.div) == d.div;
    SpreadAt(t, d, d.high + 1, j);
    Fits64(count);
  }

  // ---- What any merge conserves and what it loses ----

  ghost function Total(t: seq<nat>, n: nat): nat
    requires n <= |t|
  {
    if n == 0 then 0 else Total(t, n - 1) + t[n - 1]
  }

  /**
   * The remainder is meant for the first keys of the range, but it is compared with absolute
   * keys: a range starting at `low` hands out `low` units too few, if that many remain.
   */
  ghost function LostBy(d: Deal): nat {
    if d.rem < d.low then d.rem else d.low
  }

  ghost function Lost(ds: seq<Deal>, n: nat): nat
    requires n <= |ds|
  {
    if n == 0 then 0 else Lost(ds, n - 1) + LostBy(ds[n - 1])
  }

  /** The shares of the keys low .. upto. */
  ghost function Shares(d: Deal, upto: nat): nat
    decreases upto
  {
    if upto <= d.low then 0 else Shares(d, upto - 1) + Share(d, upto - 1)
  }

  /** Truncation to 64 bits takes away a multiple of 2^64. */
  lemma {:induction false} Wraps(x: int) returns (w: int)
    ensures U64(x) == x - w * 0x1_0000_0000_0000_0000
  {
    U64Is(x);
    w := x / 0x1_0000_0000_0000_0000;
  }

  lemma {:induction false} SpreadTotal(t: seq<nat>, d: Deal, upto: nat, n: nat) returns (w: int)
    requires n <= |t|
    ensures Total(Spread(t, d, upto), n) + w * 0x1_0000_0000_0000_0000 == Total(t, n) + Shares(d, if n < upto then n else upto)
    decreases n
  {
    if n == 0 {
      w := 0;
    } else {
      w := SpreadTotal(t, d, upto, n - 1);
      SpreadAt(t, d, upto, n - 1);
      if d.low <= n - 1 < upto {
        var v := Wraps(t[n - 1] + Share(d, n - 1));
        w := w + v;
      }
    }
  }

  lemma {:induction false} SharesClosed(d: Deal, upto: nat)
    requires d.low <= upto && d.div < TWO_64 && (d.rem > 0 ==> d.div + 1 < TWO_64)
    ensures Shares(d, upto)
            == Times(upto - d.low, d.div)
               + if d.rem <= d.low then 0 else if upto < d.rem then upto - d.low else d.rem - d.low
  {
    if upto > d.low {
      SharesClosed(d, upto - 1);
      Fits64(d.div + if upto - 1 < d.rem then 1 else 0);
    }
  }

  ghost predicate Gives(d: Deal, count: nat) {
    Shares(d, d.high + 1) + LostBy(d) == count
  }

  /** One source bucket gives away all of its count but what LostBy says. */
  lemma {:induction false} SharesOfBucket(d: Deal, count: nat)
    requires d.Deals(count)
    ensures Gives(d, count)
  {
    TimesMono(1, d.Width(), d.div);
    if d.rem > 0 { TimesMono(2, d.Width(), d.div); }
    SharesClosed(d, d.high + 1);
  }

  /** The grand total after any merge, to the counters' 64 bits: nothing else is gained or lost. */
  lemma {:induction false} MergeTotal(ds: seq<Deal>, src: seq<nat>, t: seq<nat>, n: nat) returns (w: int)
    requires Fit(ds, t) && n <= |src| == |ds|
    requires forall k :: 0 <= k < |ds| ==> Gives(ds[k], src[k])
    ensures Total(Merged(ds, t, n), |t|) + Lost(ds, n) + w * 0x1_0000_0000_0000_0000 == Total(t, |t|) + Total(src, n)
    decreases n
  {
    if n == 0 {
      w := 0;
    } else {
      w := MergeTotal(ds, src, t, n - 1);
      var v := OneTotal(Merged(ds, t, n - 1), ds[n - 1], src[n - 1]);
      w := w + v;
    }
  }

  lemma {:induction false} OneTotal(t: seq<nat>, d: Deal, count: nat) returns (w: int)
    requires d.Within(|t|) && Gives(d, count)
    ensures Total(Spread(t, d, d.high + 1), |t|) + LostBy(d) + w * 0x1_0000_0000_0000_0000 == Total(t, |t|) + count
  {
    w := SpreadTotal(t, d, d.high + 1, |t|);
  }

  /** The total is conserved exactly when no count leaves a remainder. */
  lemma {:induction false} ConservesIff(ds: seq<Deal>, src: seq<nat>, t: seq<nat>)
    requires Fit(ds, t) && |src| == |ds|
    requires forall k :: 0 <= k < |ds| ==> Gives(ds[k], src[k])
    requires forall k :: 0 <= k < |ds| && ds[k].low == 0 ==> ds[k].rem == 0
    requires Lost(ds, |ds|) < TWO_64
    ensures U64(Total(Merged(ds, t, |ds|), |t|)) == U64(Total(t, |t|) + Total(src, |src|))
            <==> forall k :: 0 <= k < |ds| ==> ds[k].rem == 0
  {
    var w := MergeTotal(ds, src, t, |src|);
    LostNothing(ds, |ds|);
    NoWrapAround(Total(Merged(ds, t, |ds|), |t|), Lost(ds, |ds|), Total(t, |t|) + Total(src, |src|), w);
  }

  lemma {:induction false} NoWrapAround(x: nat, d: nat, y: nat, w: int)
    requires d < TWO_64 && x + d + w * 0x1_0000_0000_0000_0000 == y
    ensures U64(x) == U64(y) <==> d == 0
  {
    U64Is(x);
    U64Is(y);
  }

  lemma {:induction false} LostBound(ds: seq<Deal>, n: nat, most: nat)
    requires n <= |ds|
    requires forall k :: 0 <= k < |ds| ==> ds[k].Within(most)
    ensures Lost(ds, n) <= Times(n, most)
  {
    if n > 0 {
      LostBound(ds, n - 1, most);
      assert ds[n - 1].Within(most);
    }
  }

  lemma {:induction false} LostNothing(ds: seq<Deal>, n: nat)
    requires n <= |ds|
    requires forall k :: 0 <= k < |ds| && ds[k].low == 0 ==> ds[k].rem == 0
    ensures Lost(ds, n) == 0 <==> forall k :: 0 <= k < n ==> ds[k].rem == 0
  {
    if n > 0 { LostNothing(ds, n - 1); }
  }
}

/** The merge of two histograms of any precisions. */
module Hg64Merge {
  import opened CInt
  import opened Hg64Keys
  import opened Hg64
  import opened Hg64Spread

  ghost predicate IsTable(s: nat, t: seq<nat>) {
    ValidSigbits(s) && |t| == Keys(s) && Bounded(t)
  }

  /** The deal of one source count, over the keys of the two ends of its bucket. */
  function DealOf(ss: nat, ts: nat, k: nat, count: nat): (d: Deal)
    requires ValidSigbits(ss) && ValidSigbits(ts) && k < Keys(ss)
    ensures d.Within(Keys(ts))
    ensures count < TWO_64 ==> d.Deals(count)
    ensures count == 0 ==> Empty(d)
  {
    BucketsPartition(ss, k);
    var svmin, svmax := KeyToMinval(ss, k), KeyToMaxval(ss, k);
    ValueHasBucket(ts, svmax);
    KeyMonotone(ts, svmin, svmax);
    var tkmin, tkmax := ValueToKey(ts, svmin), ValueToKey(ts, svmax);
    Dealt(tkmin, tkmax, count)
  }

  function Dealt(tkmin: nat, tkmax: nat, count: nat): (d: Deal)
    requires tkmin <= tkmax
    ensures d.low == tkmin && d.high == tkmax
    ensures count < TWO_64 ==> d.Deals(count)
    ensures count == 0 ==> Empty(d)
  {
    var keys := tkmax - tkmin + 1;
    DivMod(count, keys);
    TimesCommutes(keys, Div(count, keys));
    Deal(tkmin, tkmax, Div(count, keys), Mod(count, keys))
  }

  /** The buckets of a source and a target key have a value in common. */
  ghost predicate Overlap(ss: nat, k: nat, ts: nat, j: nat) {
    KeyToMinval(ts, j) <= KeyToMaxval(ss, k) && KeyToMinval(ss, k) <= KeyToMaxval(ts, j)
  }

  /** A count is dealt to exactly the target keys whose buckets the source bucket overlaps. */
  lemma {:induction false} DealCovers(ss: nat, ts: nat, k: nat, count: nat, j: nat)
    requires ValidSigbits(ss) && ValidSigbits(ts) && k < Keys(ss) && j < Keys(ts)
    ensures var d := DealOf(ss, ts, k, count); d.low <= j <= d.high <==> Overlap(ss, k, ts, j)
  {
    BucketsPartition(ss, k);
    BucketsPartition(ts, j);
    var low, high := KeyToMinval(ss, k), KeyToMaxval(ss, k);
    ValueHasBucket(ts, low);
    ValueHasBucket(ts, high);
    CoversBetween(ts, low, high, j);
  }

  lemma {:induction false} CoversBetween(ts: nat, low: nat, high: nat, j: nat)
    requires ValidSigbits(ts) && low <= high < TWO_64 && j < Keys(ts)
    requires KeyToMinval(ts, j) <= KeyToMaxval(ts, j) < TWO_64
    requires ValueToKey(ts, low) < Keys(ts) && ValueToKey(ts, high) < Keys(ts)
    ensures ValueToKey(ts, low) <= j <= ValueToKey(ts, high) <==> KeyToMinval(ts, j) <= high && low <= KeyToMaxval(ts, j)
  {
    KeyBelow(ts, high, j);
    KeyAbove(ts, low, j);
  }

  lemma {:induction false} KeyBelow(ts: nat, value: nat, j: nat)
    requires ValidSigbits(ts) && value < TWO_64 && j < Keys(ts) && ValueToKey(ts, value) < Keys(ts)
    ensures j <= ValueToKey(ts, value) <==> KeyToMinval(ts, j) <= value
  {
    EndsMapBack(ts, j);
    if KeyToMinval(ts, j) <= value { KeyMonotone(ts, KeyToMinval(ts, j), value); } else { KeyMonotone(ts, value, KeyToMinval(ts, j)); }
    BucketIsPreimage(ts, j, value);
  }

  lemma {:induction false} KeyAbove(ts: nat, value: nat, j: nat)
    requires ValidSigbits(ts) && value < TWO_64 && j < Keys(ts) && ValueToKey(ts, value) < Keys(ts)
    ensures ValueToKey(ts, value) <= j <==> value <= KeyToMaxval(ts, j)
  {
    EndsMapBack(ts, j);
    if value <= KeyToMaxval(ts, j) { KeyMonotone(ts, value, KeyToMaxval(ts, j)); } else { KeyMonotone(ts, KeyToMaxval(ts, j), value); }
    BucketIsPreimage(ts, j, value);
  }

  /** The deals of the first n source keys. */
  ghost function Deals(ss: nat, ts: nat, src: seq<nat>, n: nat): (ds: seq<Deal>)
    requires IsTable(ss, src) && ValidSigbits(ts) && n <= |src|
    ensures |ds| == n
    ensures forall k :: 0 <= k < n ==> ds[k].Within(Keys(ts)) && (src[k] == 0 ==> Empty(ds[k]))
  {
    if n == 0 then [] else Deals(ss, ts, src, n - 1) + [DealOf(ss, ts, n - 1, src[n - 1])]
  }

  lemma {:induction false} DealAt(ss: nat, ts: nat, src: seq<nat>, n: nat, k: nat)
    requires IsTable(ss, src) && ValidSigbits(ts) && k < n <= |src|
    ensures Deals(ss, ts, src, n)[k] == DealOf(ss, ts, k, src[k])
  {
    if k < n - 1 { DealAt(ss, ts, src, n - 1, k); }
  }

  /** hg64_merge; source and target may be the same histogram. */
  method Merge(target: Histogram, source: Histogram)
    requires target.Valid() && source.Valid()
    modifies target
    ensures target.Valid()
    ensures target.Counts() == Merged(Deals(source.sigbits, target.sigbits, old(source.Counts()), Keys(source.sigbits)),
                                      old(target.Counts()), Keys(source.sigbits))
  {
    ghost var t, src := target.Counts(), source.Counts();
    ghost var ds := Deals(source.sigbits, target.sigbits, src, |src|);
    var skey := 0;
    while skey < Keys(source.sigbits)
      invariant target.Valid() && source.Valid() && 0 <= skey <= |src|
      invariant target.Counts() == Merged(ds, t, skey)
      invariant SameFrom(source.Counts(), src, skey)
      decreases |src| - skey
    {
      MergeKey(target, source, skey, ds, src);
      skey := SkipEmpty(source, skey, ds, t, src);
    }
  }

  ghost predicate SameFrom(t: seq<nat>, src: seq<nat>, n: nat) {
    |t| == |src| && forall k :: n <= k < |src| ==> t[k] == src[k]
  }

  /** The step to the next key: those passed over have no count, so merging them changes nothing. */
  method SkipEmpty(source: Histogram, skey: nat, ghost ds: seq<Deal>, ghost t: seq<nat>, ghost src: seq<nat>)
    returns (next: nat)
    requires source.Valid() && skey < |src| == |ds| == Keys(source.sigbits) && Bounded(t)
    requires SameFrom(source.Counts(), src, skey + 1)
    requires forall k :: 0 <= k < |src| && src[k] == 0 ==> Empty(ds[k])
    ensures skey < next <= |src| && SameFrom(source.Counts(), src, next)
    ensures Merged(ds, t, next) == Spread(Merged(ds, t, skey), ds[skey], ds[skey].high + 1)
  {
    next := source.Next(skey);
    ghost var c := source.Counts();
    assert forall k :: skey < k < next ==> c[k] == src[k] == 0;
    AdvanceMerged(ds, t, skey, next);
  }

  /** One pass of the outer loop; keys of the source still to come keep their counts. */
  method MergeKey(target: Histogram, source: Histogram, skey: nat, ghost ds: seq<Deal>, ghost src: seq<nat>)
    requires target.Valid() && source.Valid() && skey < |ds| == |src| == Keys(source.sigbits)
    requires Bounded(src) && SameFrom(source.Counts(), src, skey)
    modifies target
    ensures target.Valid() && source.Valid()
    ensures ds == Deals(source.sigbits, target.sigbits, src, |src|) ==>
              target.Counts() == Spread(old(target.Counts()), ds[skey], ds[skey].high + 1)
    ensures SameFrom(source.Counts(), src, skey + 1)
  {
    var d := TakeDeal(source, target.sigbits, skey, ds, src);
    ghost var c := source.Counts();
    MergeOne(target, d);
    assert SameFrom(source.Counts(), c, skey + 1);
  }

  method TakeDeal(source: Histogram, ts: nat, skey: nat, ghost ds: seq<Deal>, ghost src: seq<nat>) returns (d: Deal)
    requires source.Valid() && skey < |ds| == |src| == Keys(source.sigbits) && ValidSigbits(ts)
    requires Bounded(src) && source.Counts()[skey] == src[skey]
    ensures d.Within(Keys(ts))
    ensures ds == Deals(source.sigbits, ts, src, |src|) ==> d == ds[skey]
    ensures ts == source.sigbits ==> d.low == d.high == skey
  {
    d := DealOf(source.sigbits, ts, skey, CountIn(source.sigbits, source.bin, skey));
    DealAt(source.sigbits, ts, src, |src|, skey);
    if ts == source.sigbits { EndsMapBack(ts, skey); }
  }

  /** The inner loop of hg64_merge, for one source key. */
  method MergeOne(target: Histogram, d: Deal)
    requires target.Valid() && d.Within(Keys(target.sigbits))
    modifies target
    ensures target.Valid()
    ensures target.Counts() == Spread(old(target.Counts()), d, d.high + 1)
  {
    var tkey := d.low;
    while tkey <= d.high
      invariant target.Valid() && d.low <= tkey <= d.high + 1
      invariant target.Counts() == Spread(old(target.Counts()), d, tkey)
    {
      target.AddKeyCount(tkey, Share(d, tkey));
      tkey := tkey + 1;
    }
  }

  function Sub64(x: int, y: int): nat { U64(x - y) }

  function Difference(a: seq<nat>, b: seq<nat>, d: seq<nat>): (r: seq<nat>)
    requires |a| == |b| == |d|
    ensures |r| == |a|
  {
    seq(|a|, k requires 0 <= k < |a| => U64(d[k] + Sub64(a[k], b[k])))
  }

  /** hg64_diff, whose precision check the caller must pass. The three may be the same histogram. */
  method Diff(a: Histogram, b: Histogram, diff: Histogram)
    requires a.Valid() && b.Valid() && diff.Valid()
    requires a.sigbits == b.sigbits == diff.sigbits
    modifies diff
    ensures diff.Valid()
    ensures diff.Counts() == Difference(old(a.Counts()), old(b.Counts()), old(diff.Counts()))
  {
    ghost var ta, tb, td := a.Counts(), b.Counts(), diff.Counts();
    var s := a.sigbits;
    var key := 0;
    while key < Keys(s)
      invariant a.Valid() && b.Valid() && diff.Valid() && 0 <= key <= Keys(s)
      invariant forall k :: 0 <= k < key ==> diff.Counts()[k] == Difference(ta, tb, td)[k]
      invariant forall k :: key <= k < Keys(s) ==>
        a.Counts()[k] == ta[k] && b.Counts()[k] == tb[k] && diff.Counts()[k] == td[k]
    {
      diff.AddKeyCount(key, Sub64(CountIn(s, a.bin, key), CountIn(s, b.bin, key)));
      key := key + 1;
    }
  }

  // ---- A target that is no finer than the source ----

  /** A source bucket lies within one target bucket when the target has no more precision. */
  lemma {:induction false} CoarserBucket(ss: nat, ts: nat, k: nat, count: nat)
    requires ValidSigbits(ss) && ValidSigbits(ts) && ts <= ss && k < Keys(ss)
    ensures DealOf(ss, ts, k, count).low == DealOf(ss, ts, k, count).high
  {
    var j := DealOf(ss, ts, k, count).low;
    BucketsPartition(ss, k);
    BucketIsPreimage(ts, j, KeyToMinval(ss, k));
    BucketIsPreimage(ts, j, KeyToMaxval(ss, k));
    CoarserEnds(ss, k, ts, j);
  }

  lemma {:induction false} CoarserEnds(ss: nat, k: nat, ts: nat, j: nat)
    requires ValidSigbits(ss) && ValidSigbits(ts) && ts <= ss && k < Keys(ss) && j < Keys(ts)
    requires KeyToMinval(ts, j) <= KeyToMinval(ss, k) <= KeyToMaxval(ts, j)
    ensures KeyToMaxval(ss, k) <= KeyToMaxval(ts, j)
  {
    var e, m := KeyParts(ss, k);
    var e', m' := KeyParts(ts, j);
    CoarserParts(ss, e, m, ts, e', m');
  }

  lemma {:induction false} CoarserParts(ss: nat, e: nat, m: nat, ts: nat, e': nat, m': nat)
    requires ts <= ss && m < 2 * BinSize(ss) && m' < 2 * BinSize(ts) && (e > 0 ==> BinSize(ss) <= m)
    requires Times(m, Pow2(e)) < Times(m', Pow2(e')) + Pow2(e')
    ensures Times(m, Pow2(e)) + Pow2(e) <= Times(m', Pow2(e')) + Pow2(e')
  {
    Magnitude(ts, e', m');
    Magnitude(ss, e, m);
    if e' < e { Pow2Mono(ts + e' + 1, ss + e); }
    CoarserSpan(e, m, e', m');
  }

  /** A coarse span that holds the start of a fine span holds all of it. */
  lemma {:induction false} CoarserSpan(e: nat, m: nat, e': nat, m': nat)
    requires e <= e' && Times(m, Pow2(e)) < Times(m', Pow2(e')) + Pow2(e')
    ensures Times(m, Pow2(e)) + Pow2(e) <= Times(m', Pow2(e')) + Pow2(e')
  {
    var d := Pow2(e' - e);
    Pow2Add(e' - e, e);
    TimesAssoc(m' + 1, d, Pow2(e));
    var q := Times(m' + 1, d);
    if q <= m { TimesMono(q, m, Pow2(e)); }
    TimesMono(m + 1, q, Pow2(e));
  }

  ghost predicate BucketWithin(ss: nat, k: nat, ts: nat, j: nat) {
    KeyToMinval(ts, j) <= KeyToMinval(ss, k) && KeyToMaxval(ss, k) <= KeyToMaxval(ts, j)
  }

  lemma {:induction false} EnclosingKey(ss: nat, ts: nat, k: nat, j: nat, count: nat)
    requires ValidSigbits(ss) && ValidSigbits(ts) && ts <= ss && k < Keys(ss) && j < Keys(ts)
    ensures BucketWithin(ss, k, ts, j) <==> DealOf(ss, ts, k, count).low == j
  {
    CoarserBucket(ss, ts, k, count);
    BucketsPartition(ss, k);
    BucketIsPreimage(ts, j, KeyToMinval(ss, k));
    BucketIsPreimage(ts, j, KeyToMaxval(ss, k));
  }

  /** Which of the first n source buckets lie within target bucket j. */
  ghost function WithinFlags(ss: nat, ts: nat, j: nat, n: nat): (flags: seq<bool>)
    ensures |flags| == n
  {
    if n == 0 then [] else WithinFlags(ss, ts, j, n - 1) + [BucketWithin(ss, n - 1, ts, j)]
  }

  lemma {:induction false} WithinFlagAt(ss: nat, ts: nat, j: nat, n: nat, k: nat)
    requires k < n
    ensures WithinFlags(ss, ts, j, n)[k] == BucketWithin(ss, k, ts, j)
  {
    if k < n - 1 { WithinFlagAt(ss, ts, j, n - 1, k); }
  }

  /** A merge into a target that is no finer adds every count to the one bucket that encloses it. */
  lemma {:induction false} CoarserMerge(ss: nat, ts: nat, t: seq<nat>, src: seq<nat>, j: nat)
    requires IsTable(ss, src) && IsTable(ts, t) && ts <= ss && j < |t|
    ensures Receives(Deals(ss, ts, src, |src|), t, src, WithinFlags(ss, ts, j, |src|), |src|, j)
  {
    CoarserDeals(ss, ts, src, j, |src|);
    SingleKeyMerge(Deals(ss, ts, src, |src|), src, t, WithinFlags(ss, ts, j, |src|), |src|, j);
  }

  lemma {:induction false} CoarserDeals(ss: nat, ts: nat, src: seq<nat>, j: nat, n: nat)
    requires IsTable(ss, src) && ValidSigbits(ts) && ts <= ss && j < Keys(ts) && n <= |src|
    ensures AllSingle(Deals(ss, ts, src, |src|), src, WithinFlags(ss, ts, j, |src|), n, j)
  {
    if n > 0 {
      CoarserDeals(ss, ts, src, j, n - 1);
      CoarserDeal(ss, ts, src, n - 1, j);
    }
  }

  lemma {:induction false} CoarserDeal(ss: nat, ts: nat, src: seq<nat>, k: nat, j: nat)
    requires IsTable(ss, src) && ValidSigbits(ts) && ts <= ss && k < |src| && j < Keys(ts)
    ensures Single(Deals(ss, ts, src, |src|)[k], src[k], WithinFlags(ss, ts, j, |src|)[k], j)
  {
    DealAt(ss, ts, src, |src|, k);
    CoarserBucket(ss, ts, k, src[k]);
    EnclosingKey(ss, ts, k, j, src[k]);
    WithinFlagAt(ss, ts, j, |src|, k);
  }

  /** Merging a fresh difference of a and b back into b restores a. */
  lemma {:induction false} MergeUndoesDiff(s: nat, a: seq<nat>, b: seq<nat>, zero: seq<nat>)
    requires IsTable(s, a) && IsTable(s, b) && IsTable(s, zero)
    requires forall k :: 0 <= k < |zero| ==> zero[k] == 0
    requires forall k :: 0 <= k < |a| ==> b[k] <= a[k]
    ensures Bounded(Difference(a, b, zero))
    ensures Merged(Deals(s, s, Difference(a, b, zero), Keys(s)), b, Keys(s)) == a
  {
    var d := Difference(a, b, zero);
    DifferenceExact(a, b, zero);
    forall j | 0 <= j < |a|
      ensures Merged(Deals(s, s, d, |d|), b, Keys(s))[j] == a[j]
    {
      AddsBack(s, b, d, j);
      Fits64(a[j]);
    }
  }

  /** Between equal precisions a merge adds key by key. */
  lemma {:induction false} AddsBack(s: nat, t: seq<nat>, src: seq<nat>, j: nat)
    requires IsTable(s, t) && IsTable(s, src) && j < |t|
    ensures Merged(Deals(s, s, src, |src|), t, |src|)[j] == U64(t[j] + src[j])
  {
    CoarserMerge(s, s, t, src, j);
    forall k | 0 <= k < |src|
      ensures WithinFlags(s, s, j, |src|)[k] <==> k == j
    {
      WithinFlagAt(s, s, j, |src|, k);
      OnlyItself(s, k, j);
    }
    CountOne(WithinFlags(s, s, j, |src|), src, |src|, j);
  }

  lemma {:induction false} OnlyItself(s: nat, k: nat, j: nat)
    requires ValidSigbits(s) && k < Keys(s) && j < Keys(s)
    ensures BucketWithin(s, k, s, j) <==> k == j
  {
    BucketsPartition(s, k);
    BucketIsPreimage(s, j, KeyToMinval(s, k));
    EndsMapBack(s, k);
  }

  lemma {:induction false} DifferenceExact(a: seq<nat>, b: seq<nat>, zero: seq<nat>)
    requires |a| == |b| == |zero| && Bounded(a)
    requires forall k :: 0 <= k < |zero| ==> zero[k] == 0
    requires forall k :: 0 <= k < |a| ==> b[k] <= a[k]
    ensures Bounded(Difference(a, b, zero))
    ensures forall k :: 0 <= k < |a| ==> Difference(a, b, zero)[k] == a[k] - b[k]
  {
    forall k | 0 <= k < |a|
      ensures Difference(a, b, zero)[k] == a[k] - b[k]
    {
      Fits64(a[k] - b[k]);
    }
  }

  // ---- Any two precisions ----

  /** Every source count divides evenly over the target keys its bucket overlaps. */
  ghost predicate DividesEvenly(ss: nat, ts: nat, src: seq<nat>)
    requires IsTable(ss, src) && ValidSigbits(ts)
  {
    forall k :: 0 <= k < |src| ==> Deals(ss, ts, src, |src|)[k].rem == 0
  }

  /** A merge conserves the total exactly when every source count divides evenly. */
  lemma {:induction false} ConservesIffDivides(ss: nat, ts: nat, t: seq<nat>, src: seq<nat>)
    requires IsTable(ss, src) && IsTable(ts, t)
    ensures U64(Total(Merged(Deals(ss, ts, src, |src|), t, |src|), |t|)) == U64(Total(t, |t|) + Total(src, |src|))
            <==> DividesEvenly(ss, ts, src)
  {
    var ds := Deals(ss, ts, src, |src|);
    forall k | 0 <= k < |ds|
      ensures (ds[k].low == 0 ==> ds[k].rem == 0) && Gives(ds[k], src[k])
    {
      DealGives(ss, ts, src, k);
    }
    LostBound(ds, |ds|, Keys(ts));
    TableSizes(ss, ts);
    ConservesIff(ds, src, t);
  }

  lemma {:induction false} TableSizes(ss: nat, ts: nat)
    requires ValidSigbits(ss) && ValidSigbits(ts)
    ensures Times(Keys(ss), Keys(ts)) < TWO_64
  {
    KeyBound(ss, 0, 0);
    KeyBound(ts, 0, 0);
    TimesMono(Keys(ss), 0x20_0000, Keys(ts));
    TimesIs(0x20_0000, Keys(ts));
  }

  lemma {:induction false} DealGives(ss: nat, ts: nat, src: seq<nat>, k: nat)
    requires IsTable(ss, src) && ValidSigbits(ts) && k < |src|
    ensures var d := Deals(ss, ts, src, |src|)[k]; (d.low == 0 ==> d.rem == 0) && Gives(d, src[k])
  {
    DealAt(ss, ts, src, |src|, k);
    LowKeyZero(ss, ts, k, src[k]);
    SharesOfBucket(Deals(ss, ts, src, |src|)[k], src[k]);
  }

  /** Only the bucket of the value 0 reaches down to target key 0, and it overlaps that key alone. */
  lemma {:induction false} LowKeyZero(ss: nat, ts: nat, k: nat, count: nat)
    requires ValidSigbits(ss) && ValidSigbits(ts) && k < Keys(ss)
    ensures DealOf(ss, ts, k, count).low == 0 ==> DealOf(ss, ts, k, count).rem == 0
  {
    var d := DealOf(ss, ts, k, count);
    EndsMapBack(ss, k);
    if d.low == 0 {
      ZeroBucket(ss, ts, k);
      EndsMapBack(ts, 0);
      assert d.high == 0;
      WholeDeal(count);
    }
  }

  lemma {:induction false} ZeroBucket(ss: nat, ts: nat, k: nat)
    requires ValidSigbits(ss) && ValidSigbits(ts) && k < Keys(ss)
    requires KeyToMinval(ss, k) < TWO_64 && ValueToKey(ts, KeyToMinval(ss, k)) == 0
    ensures k == 0 && 0 < Keys(ts)
    ensures KeyToMinval(ts, 0) == KeyToMaxval(ss, 0) == 0
  {
    SomeKeys(ts);
    BinSizeBounds(ss);
    BinSizeBounds(ts);
    DenormalBounds(ts, 0);
    DenormalBounds(ss, 0);
    BucketIsPreimage(ts, 0, KeyToMinval(ss, k));
    EndsMapBack(ss, k);
    EndsMapBack(ss, 0);
  }

  lemma {:induction false} WholeDeal(count: nat)
    ensures Dealt(0, 0, count).rem == 0
  {
    ModOne(count);
  }

  lemma {:induction false} ModOne(x: nat)
    ensures Mod(x, 1) == 0
  {
    if x > 0 { ModOne(x - 1); }
  }

  /** The counts of a histogram that has seen one event. */
  ghost function OneEvent(s: nat, key: nat): (t: seq<nat>)
    requires ValidSigbits(s)
    ensures IsTable(s, t)
  {
    seq(Keys(s), k => if k == key then 1 else 0)
  }

  /** A single event vanishes exactly when its bucket overlaps several target keys. */
  lemma {:induction false} EventLostIff(ss: nat, ts: nat, key: nat, t: seq<nat>)
    requires ValidSigbits(ss) && IsTable(ts, t) && key < Keys(ss)
    ensures var src := OneEvent(ss, key);
            Merged(Deals(ss, ts, src, |src|), t, |src|) == t <==> DealOf(ss, ts, key, 1).low < DealOf(ss, ts, key, 1).high
  {
    var src := OneEvent(ss, key);
    var ds := Deals(ss, ts, src, |src|);
    DealAt(ss, ts, src, |src|, key);
    LowKeyZero(ss, ts, key, 1);
    OneDealt(ds, t, key);
  }

  lemma {:induction false} OneDealt(ds: seq<Deal>, t: seq<nat>, key: nat)
    requires Fit(ds, t) && key < |ds| && ds[key].Deals(1) && (ds[key].low == 0 ==> ds[key].rem == 0)
    requires forall k :: 0 <= k < |ds| && k != key ==> Empty(ds[k])
    ensures Merged(ds, t, |ds|) == t <==> ds[key].low < ds[key].high
  {
    SkippedKeys(ds, t, 0, key);
    AdvanceMerged(ds, t, key, |ds|);
    OneSpread(t, ds[key]);
  }

  lemma {:induction false} OneSpread(t: seq<nat>, d: Deal)
    requires Bounded(t) && d.Within(|t|) && d.Deals(1) && (d.low == 0 ==> d.rem == 0)
    ensures Spread(t, d, d.high + 1) == t <==> d.low < d.high
  {
    if d.low < d.high {
      NothingEach(d.Width(), d.div, d.rem);
      Fits64(0);
      forall j | 0 <= j < |t|
        ensures Spread(t, d, d.high + 1)[j] == t[j]
      {
        SpreadAt(t, d, d.high + 1, j);
        Fits64(t[j]);
      }
    } else {
      SpreadOne(t, d, 1, d.low);
      U64Is(t[d.low] + 1);
    }
  }

  lemma {:induction false} NothingEach(width: nat, div: nat, rem: nat)
    requires width > 1 && 1 == Times(width, div) + rem
    ensures div == 0 && rem == 1
  {
    TimesIs(width, div);
  }

  /** So a finer target loses counts: one event of value 4 at 1 bit vanishes in any target at 2 bits. */
  lemma {:induction false} FinerMergeLosesCount(ss: nat, ts: nat, key: nat, t: seq<nat>)
    requires ss == 1 && ts == 2 && key == 4 && IsTable(ts, t)
    ensures key < Keys(ss) && KeyToMinval(ss, key) == 4
    ensures var src := OneEvent(ss, key); src[key] == 1 && Merged(Deals(ss, ts, src, |src|), t, |src|) == t
  {
    BucketOfFour();
    EventLostIff(ss, ts, key, t);
  }

  /** At 1 bit 4 and 5 share a bucket, at 2 bits each has its own. */
  lemma {:induction false} BucketOfFour()
    ensures Keys(1) > 4 && KeyToMinval(1, 4) == 4 && DealOf(1, 2, 4, 1) == Deal(4, 5, 0, 1)
  {
    assert Pow2(1) == 2 && Pow2(2) == 4;
    KeyBound(1, 1, 2);
    KeyBound(2, 0, 4);
    KeyBound(2, 0, 5);
    NormalBounds(1, 4, 1, 2);
    NormalBounds(2, 4, 0, 4);
    NormalBounds(2, 5, 0, 5);
    BucketIsPreimage(2, 4, 4);
    BucketIsPreimage(2, 5, 5);
  }
}
