/**
 * The bucket layout of hg64 (src/ext/hg64.c): the branchless value-to-key map and its two
 * inverses, for every precision and every 64-bit value.
 */
module Hg64Keys {
  import opened CInt

  /** The precisions hg64_create accepts. */
  predicate ValidSigbits(s: int) { 1 <= s <= 15 }

  function BinSize(s: nat): (n: nat)
    ensures n > 0
  {
    Pow2(s)
  }

  function Exponents(s: nat): nat
    requires ValidSigbits(s)
  {
    64 - (s - 1)
  }

  function Keys(s: nat): nat
    requires ValidSigbits(s)
  {
    Times(Exponents(s), BinSize(s))
  }

  /** The bin a key belongs to, and its place there. */
  function KeyBin(s: nat, key: nat): nat { Div(key, BinSize(s)) }

  function KeyPlace(s: nat, key: nat): nat { Mod(key, BinSize(s)) }

  /** key_to_minval */
  function KeyToMinval(s: nat, key: nat): nat {
    var exponent := U32(KeyBin(s, key) - 1);
    var mantissa := KeyPlace(s, key) + BinSize(s);
    if key < BinSize(s) then key else Shl64(mantissa, exponent)
  }

  /** key_to_maxval */
  function KeyToMaxval(s: nat, key: nat): nat {
    var shift := U32(63 - KeyBin(s, key));
    var range := Shr(UINT64_MAX / 4, shift);
    U64(KeyToMinval(s, key) + range)
  }

  /** value_to_key */
  function ValueToKey(s: nat, value: nat): nat
    requires ValidSigbits(s) && value < TWO_64
  {
    var binned := BitOr(value, BinSize(s));
    assert binned < Pow2(64) by { BinnedFits(s, value); }
    var clz := Clz(binned, 64);
    ComposeKey(s, U32(63 - s - clz), value)
  }

  /** The exponent in the bits above the mantissa, whose leading bit adds one to it. */
  function ComposeKey(s: nat, exponent: nat, value: nat): nat {
    var mantissa := U32(Shr(value, exponent));
    U32(Times(exponent, Pow2(s)) + mantissa)
  }

  lemma {:induction false} BinnedFits(s: nat, value: nat)
    requires ValidSigbits(s) && value < TWO_64
    ensures BitOr(value, BinSize(s)) < Pow2(64)
  {
    var e := ExponentOf(s, value);
    Pow2Mono(s + e + 1, 64);
  }

  /** The exponent of a value's bucket: 0 for the denormal bin, else one per binary magnitude. */
  lemma {:induction false} ExponentOf(s: nat, value: nat) returns (e: nat)
    requires ValidSigbits(s) && value < TWO_64
    ensures e <= 63 - s && value < Pow2(s + e + 1)
    ensures e > 0 ==> Pow2(s + e) <= value
    ensures Pow2(s + e) <= BitOr(value, BinSize(s)) < Pow2(s + e + 1)
  {
    Pow2Known();
    var top := s;
    if value >= BinSize(s) { top := TopBit(value); }
    BitOrTop(value, s, top);
    if top > 63 { Pow2Mono(64, top); }
    e := top - s;
  }

  lemma {:induction false} BinSizeBounds(s: nat)
    requires ValidSigbits(s)
    ensures 2 <= BinSize(s) <= 32768
  {
    Pow2Mono(1, s);
    Pow2Mono(s, 15);
    assert Pow2(15) == 32768;
  }

  lemma {:induction false} KeyBinIs(s: nat, key: nat, q: nat)
    requires Times(q, BinSize(s)) <= key < Times(q, BinSize(s)) + BinSize(s)
    ensures KeyBin(s, key) == q && KeyPlace(s, key) == key - Times(q, BinSize(s))
  {
    DivMod(key, BinSize(s));
    QuotientUnique(key, BinSize(s), q, KeyBin(s, key));
  }

  /**
   * A key as exponent and mantissa. The mantissa has its leading bit set except in the
   * denormal bin, where the exponent is 0.
   */
  ghost predicate IsParts(s: nat, key: nat, e: nat, m: nat)
    requires ValidSigbits(s)
  {
    && e <= 63 - s
    && m < 2 * BinSize(s)
    && (e > 0 ==> BinSize(s) <= m)
    && key == Times(e, BinSize(s)) + m
  }

  lemma {:induction false} PartsUnique(b: nat, e: nat, m: nat, e': nat, m': nat)
    requires m < 2 * b && m' < 2 * b && (e > 0 ==> b <= m) && (e' > 0 ==> b <= m')
    requires Times(e, b) + m == Times(e', b) + m'
    ensures e == e' && m == m'
  {
    PartsOrder(b, e, m, e', m');
    PartsOrder(b, e', m', e, m);
  }

  lemma {:induction false} PartsOrder(b: nat, e: nat, m: nat, e': nat, m': nat)
    requires m < 2 * b && (e' > 0 ==> b <= m')
    requires Times(e, b) + m == Times(e', b) + m'
    ensures e' <= e
  {
    if e < e' { TimesMono(e + 1, e', b); }
  }

  /** What a mantissa shifted by its exponent spans. */
  lemma {:induction false} Magnitude(s: nat, e: nat, m: nat)
    requires m < 2 * BinSize(s)
    ensures Times(m, Pow2(e)) + Pow2(e) <= Pow2(s + e + 1)
    ensures BinSize(s) <= m ==> Pow2(s + e) <= Times(m, Pow2(e))
  {
    Pow2Add(s + 1, e);
    Pow2Add(s, e);
    TimesMono(m + 1, Pow2(s + 1), Pow2(e));
    if BinSize(s) <= m { TimesMono(BinSize(s), m, Pow2(e)); }
  }

  lemma {:induction false} MagnitudeFits(s: nat, e: nat, m: nat)
    requires ValidSigbits(s) && e <= 63 - s && m < 2 * BinSize(s)
    ensures Times(m, Pow2(e)) + Pow2(e) <= TWO_64
  {
    Magnitude(s, e, m);
    Pow2Mono(s + e + 1, 64);
    Pow2Known();
  }

  lemma {:induction false} KeyBound(s: nat, e: nat, m: nat)
    requires ValidSigbits(s) && e <= 63 - s && m < 2 * BinSize(s)
    ensures Times(e, BinSize(s)) + m < Keys(s) <= 0x20_0000
  {
    TimesMono(e + 2, Exponents(s), BinSize(s));
    BinSizeBounds(s);
    TimesMono(Exponents(s), 64, BinSize(s));
    TimesIs(64, BinSize(s));
  }

  /** value_to_key without the bit tricks: no intermediate truncation or wrap ever happens. */
  lemma {:induction false} ValueParts(s: nat, value: nat) returns (e: nat, m: nat)
    requires ValidSigbits(s) && value < TWO_64
    ensures IsParts(s, ValueToKey(s, value), e, m)
    ensures Times(m, Pow2(e)) <= value < Times(m, Pow2(e)) + Pow2(e)
  {
    e := ExponentOf(s, value);
    m := Shr(value, e);
    ShrSpan(value, e);
    MantissaRange(s, e, m, value);
    ValueToKeyIs(s, e, m, value);
  }

  lemma {:induction false} MantissaRange(s: nat, e: nat, m: nat, value: nat)
    requires Times(m, Pow2(e)) <= value < Times(m, Pow2(e)) + Pow2(e)
    requires value < Pow2(s + e + 1)
    ensures m < 2 * BinSize(s)
    ensures Pow2(s + e) <= value ==> BinSize(s) <= m
  {
    Pow2Add(s + 1, e);
    Pow2Add(s, e);
    if Pow2(s + 1) <= m { TimesMono(Pow2(s + 1), m, Pow2(e)); }
    if Pow2(s + e) <= value && m < BinSize(s) {
      TimesMono(m + 1, BinSize(s), Pow2(e));
    }
  }

  lemma {:induction false} ValueToKeyIs(s: nat, e: nat, m: nat, value: nat)
    requires ValidSigbits(s) && value < TWO_64 && e <= 63 - s && m < 2 * BinSize(s)
    requires Pow2(s + e) <= BitOr(value, BinSize(s)) < Pow2(s + e + 1)
    requires m == Shr(value, e)
    ensures ValueToKey(s, value) == Times(e, BinSize(s)) + m
  {
    KeyBound(s, e, m);
    ClzFindsTopBit(BitOr(value, BinSize(s)), 64, s + e);
    NoTruncation(s, e, m, value);
  }

  lemma {:induction false} NoTruncation(s: nat, e: nat, m: nat, value: nat)
    requires ValidSigbits(s) && value < TWO_64 && e <= 63 - s
    requires BitOr(value, BinSize(s)) < Pow2(64) && Clz(BitOr(value, BinSize(s)), 64) == 63 - s - e
    requires m == Shr(value, e) && Times(e, BinSize(s)) + m < TWO_32
    ensures ValueToKey(s, value) == Times(e, BinSize(s)) + m
  {
    Fits32(e);
    ComposeKeyIs(s, e, m, value);
  }

  lemma {:induction false} ComposeKeyIs(s: nat, e: nat, m: nat, value: nat)
    requires m == Shr(value, e) && m <= Times(e, BinSize(s)) + m < TWO_32
    ensures ComposeKey(s, e, value) == Times(e, BinSize(s)) + m
  {
    Fits32(m);
    Fits32(Times(e, BinSize(s)) + m);
  }

  lemma {:induction false} KeyParts(s: nat, key: nat) returns (e: nat, m: nat)
    requires ValidSigbits(s) && key < Keys(s)
    ensures IsParts(s, key, e, m)
    ensures KeyToMinval(s, key) == Times(m, Pow2(e))
    ensures KeyToMaxval(s, key) == Times(m, Pow2(e)) + Pow2(e) - 1 < TWO_64
  {
    var b := BinSize(s);
    BinSizeBounds(s);
    if key < b {
      e, m := 0, key;
      DenormalBounds(s, key);
      TimesOne(key);
    } else {
      DivMod(key, b);
      var q := KeyBin(s, key);
      if Exponents(s) <= q { TimesMono(Exponents(s), q, b); }
      e, m := q - 1, key - Times(q, b) + b;
      NormalBounds(s, key, e, m);
    }
  }

  lemma {:induction false} DenormalBounds(s: nat, key: nat)
    requires ValidSigbits(s) && key < BinSize(s) <= 32768
    ensures KeyToMinval(s, key) == KeyToMaxval(s, key) == key
  {
    Pow2Known();
    KeyBinIs(s, key, 0);
    ShrUnique(UINT64_MAX / 4, 63, 0);
  }

  lemma {:induction false} NormalBounds(s: nat, key: nat, e: nat, m: nat)
    requires ValidSigbits(s) && e <= 63 - s && BinSize(s) <= m < 2 * BinSize(s)
    requires BinSize(s) <= key == Times(e + 1, BinSize(s)) + (m - BinSize(s))
    ensures KeyToMinval(s, key) == Times(m, Pow2(e))
    ensures KeyToMaxval(s, key) == Times(m, Pow2(e)) + Pow2(e) - 1 < TWO_64
  {
    KeyBinIs(s, key, e + 1);
    MagnitudeFits(s, e, m);
    ShiftedMantissa(s, key, e, m);
    WidenedBound(s, key, e, Times(m, Pow2(e)));
  }

  lemma {:induction false} ShiftedMantissa(s: nat, key: nat, e: nat, m: nat)
    requires BinSize(s) <= key && e < 64 && KeyBin(s, key) == e + 1 && KeyPlace(s, key) == m - BinSize(s)
    requires Times(m, Pow2(e)) < TWO_64
    ensures KeyToMinval(s, key) == Times(m, Pow2(e))
  {
    Fits32(e);
    Fits64(Times(m, Pow2(e)));
  }

  lemma {:induction false} WidenedBound(s: nat, key: nat, e: nat, min: nat)
    requires e <= 62 && KeyBin(s, key) == e + 1 && KeyToMinval(s, key) == min
    requires min + Pow2(e) <= TWO_64
    ensures KeyToMaxval(s, key) == min + Pow2(e) - 1
  {
    RangeOf(e);
    Fits32(62 - e);
    Fits64(min + (Pow2(e) - 1));
  }

  lemma {:induction false} RangeOf(e: nat)
    requires e <= 62
    ensures Shr(UINT64_MAX / 4, 62 - e) == Pow2(e) - 1
  {
    Pow2Known();
    Pow2Add(e, 62 - e);
    ShrUnique(UINT64_MAX / 4, 62 - e, Pow2(e) - 1);
  }

  /** Two exponent and mantissa pairs that span a common value are the same pair. */
  lemma {:induction false} SpanUnique(s: nat, value: nat, e: nat, m: nat, e': nat, m': nat)
    requires m < 2 * BinSize(s) && m' < 2 * BinSize(s)
    requires (e > 0 ==> BinSize(s) <= m) && (e' > 0 ==> BinSize(s) <= m')
    requires Times(m, Pow2(e)) <= value < Times(m, Pow2(e)) + Pow2(e)
    requires Times(m', Pow2(e')) <= value < Times(m', Pow2(e')) + Pow2(e')
    ensures e == e' && m == m'
  {
    SpanOrder(s, value, e, m, e', m');
    SpanOrder(s, value, e', m', e, m);
    QuotientUnique(value, Pow2(e), m, m');
  }

  lemma {:induction false} SpanOrder(s: nat, value: nat, e: nat, m: nat, e': nat, m': nat)
    requires m < 2 * BinSize(s) && m' < 2 * BinSize(s) && (e' > 0 ==> BinSize(s) <= m')
    requires value < Times(m, Pow2(e)) + Pow2(e) && Times(m', Pow2(e')) <= value
    ensures e' <= e
  {
    Magnitude(s, e, m);
    Magnitude(s, e', m');
    if e < e' { Pow2Mono(s + e + 1, s + e'); }
  }

  /** Every value falls into a bucket the histogram has. */
  lemma {:induction false} ValueHasBucket(s: nat, value: nat)
    requires ValidSigbits(s) && value < TWO_64
    ensures ValueToKey(s, value) < Keys(s)
  {
    var e, m := ValueParts(s, value);
    KeyBound(s, e, m);
  }

  /** The values a bucket's bounds enclose are exactly those value_to_key sends to its key. */
  lemma {:induction false} BucketIsPreimage(s: nat, key: nat, value: nat)
    requires ValidSigbits(s) && key < Keys(s) && value < TWO_64
    ensures ValueToKey(s, value) == key <==> KeyToMinval(s, key) <= value <= KeyToMaxval(s, key)
  {
    var e, m := ValueParts(s, value);
    var e', m' := KeyParts(s, key);
    if ValueToKey(s, value) == key {
      PartsUnique(BinSize(s), e, m, e', m');
    } else if KeyToMinval(s, key) <= value <= KeyToMaxval(s, key) {
      SpanUnique(s, value, e, m, e', m');
    }
  }

  /** Consecutive buckets are adjacent, the first starts at 0 and the last ends at 2^64 - 1. */
  lemma {:induction false} BucketsPartition(s: nat, key: nat)
    requires ValidSigbits(s) && key < Keys(s)
    ensures KeyToMinval(s, 0) == 0
    ensures KeyToMinval(s, key) <= KeyToMaxval(s, key) < TWO_64
    ensures key + 1 < Keys(s) ==> KeyToMinval(s, key + 1) == KeyToMaxval(s, key) + 1
    ensures key + 1 == Keys(s) ==> KeyToMaxval(s, key) == UINT64_MAX
  {
    BinSizeBounds(s);
    DenormalBounds(s, 0);
    var e, m := KeyParts(s, key);
    if key + 1 < Keys(s) {
      AdjacentBuckets(s, key, e, m);
    } else {
      LastBucket(s, key, e, m);
    }
  }

  lemma {:induction false} AdjacentBuckets(s: nat, key: nat, e: nat, m: nat)
    requires ValidSigbits(s) && key + 1 < Keys(s) && IsParts(s, key, e, m)
    ensures KeyToMinval(s, key + 1) == Times(m, Pow2(e)) + Pow2(e)
  {
    var e', m' := KeyParts(s, key + 1);
    Successor(BinSize(s), e, m, e', m');
  }

  lemma {:induction false} Successor(b: nat, e: nat, m: nat, e': nat, m': nat)
    requires m < 2 * b && m' < 2 * b && (e > 0 ==> b <= m) && (e' > 0 ==> b <= m')
    requires Times(e, b) + m + 1 == Times(e', b) + m'
    ensures Times(m', Pow2(e')) == Times(m, Pow2(e)) + Pow2(e)
  {
    if m + 1 < 2 * b {
      PartsUnique(b, e, m + 1, e', m');
    } else {
      PartsUnique(b, e + 1, b, e', m');
      TimesAdd(b, b, Pow2(e));
      TimesDouble(b, Pow2(e));
    }
  }

  lemma {:induction false} LastBucket(s: nat, key: nat, e: nat, m: nat)
    requires ValidSigbits(s) && key + 1 == Keys(s) && IsParts(s, key, e, m)
    ensures Times(m, Pow2(e)) + Pow2(e) == TWO_64
  {
    TimesAdd(63 - s, 2, BinSize(s));
    PartsUnique(BinSize(s), e, m, 63 - s, 2 * BinSize(s) - 1);
    LastSpan(s, e, m);
  }

  lemma {:induction false} LastSpan(s: nat, e: nat, m: nat)
    requires s + 1 + e == 64 && m + 1 == 2 * BinSize(s)
    ensures Times(m, Pow2(e)) + Pow2(e) == TWO_64
  {
    Pow2Add(s + 1, e);
    Pow2Known();
  }

  lemma {:induction false} BucketsAscend(s: nat, key: nat, key': nat)
    requires ValidSigbits(s) && key < key' < Keys(s)
    ensures KeyToMaxval(s, key) < KeyToMinval(s, key')
    decreases key'
  {
    BucketsPartition(s, key' - 1);
    if key < key' - 1 { BucketsAscend(s, key, key' - 1); }
  }

  lemma {:induction false} KeyMonotone(s: nat, v: nat, w: nat)
    requires ValidSigbits(s) && v <= w < TWO_64
    ensures ValueToKey(s, v) <= ValueToKey(s, w)
  {
    var k, l := ValueToKey(s, v), ValueToKey(s, w);
    ValueHasBucket(s, v);
    ValueHasBucket(s, w);
    BucketIsPreimage(s, k, v);
    BucketIsPreimage(s, l, w);
    if l < k { BucketsAscend(s, l, k); }
  }

  /** Both ends of a bucket map back to its key. */
  lemma {:induction false} EndsMapBack(s: nat, key: nat)
    requires ValidSigbits(s) && key < Keys(s)
    ensures KeyToMinval(s, key) < TWO_64 && KeyToMaxval(s, key) < TWO_64
    ensures ValueToKey(s, KeyToMinval(s, key)) == key
    ensures ValueToKey(s, KeyToMaxval(s, key)) == key
  {
    BucketsPartition(s, key);
    BucketIsPreimage(s, key, KeyToMinval(s, key));
    BucketIsPreimage(s, key, KeyToMaxval(s, key));
  }

  /** A bucket holds a single value, or its width is below a 2^-sigbits fraction of its values. */
  lemma {:induction false} BucketPrecision(s: nat, key: nat)
    requires ValidSigbits(s) && key < Keys(s)
    ensures KeyToMaxval(s, key) == KeyToMinval(s, key)
            || (KeyToMaxval(s, key) - KeyToMinval(s, key)) * BinSize(s) < KeyToMinval(s, key)
  {
    var e, m := KeyParts(s, key);
    if e > 0 {
      Magnitude(s, e, m);
      Pow2Add(e, s);
      TimesIs(Pow2(e) - 1, BinSize(s));
    }
  }
}
