/**
 * The C integer operators the modelled sources rely on, over unbounded naturals. Products,
 * quotients and wrap-around are recursive functions with their laws as lemmas, so that proofs
 * which only pass such a value along need no non-linear arithmetic.
 */
module CInt {
  const TWO_32: nat := 0x1_0000_0000
  const TWO_64: nat := 0x1_0000_0000_0000_0000
  const UINT64_MAX: nat := TWO_64 - 1

  /** Conversion to `uint32_t`, which is `unsigned` here. */
  function U32(x: int): (r: nat)
    ensures r < TWO_32
    decreases x < 0, if x < 0 then -x else x
  {
    if x < 0 then U32(x + 0x1_0000_0000) else if x < 0x1_0000_0000 then x else U32(x - 0x1_0000_0000)
  }

  /** Conversion to `uint64_t`; negative arguments wrap as unsigned subtraction does. */
  function U64(x: int): (r: nat)
    ensures r < TWO_64
    decreases x < 0, if x < 0 then -x else x
  {
    if x < 0 then U64(x + 0x1_0000_0000_0000_0000)
    else if x < 0x1_0000_0000_0000_0000 then x
    else U64(x - 0x1_0000_0000_0000_0000)
  }

  function Pow2(n: nat): (p: nat)
    ensures p > 0
  {
    if n == 0 then 1 else 2 * Pow2(n - 1)
  }

  /** `a * b` */
  function Times(a: nat, b: nat): nat {
    if a == 0 then 0 else b + Times(a - 1, b)
  }

  /** `x / d` */
  function Div(x: nat, d: nat): nat
    requires d > 0
  {
    if x < d then 0 else 1 + Div(x - d, d)
  }

  /** `x % d` */
  function Mod(x: nat, d: nat): (r: nat)
    requires d > 0
    ensures r < d
  {
    if x < d then x else Mod(x - d, d)
  }

  /** `x << n` on a `uint64_t`. */
  function Shl64(x: nat, n: nat): nat { U64(Times(x, Pow2(n))) }

  /** `x >> n` on an unsigned value. */
  function Shr(x: nat, n: nat): nat {
    if n == 0 then x else Shr(x / 2, n - 1)
  }

  /** `a | b`, bit by bit. */
  function BitOr(a: nat, b: nat): nat
    decreases a + b
  {
    if a == 0 && b == 0 then 0
    else 2 * BitOr(a / 2, b / 2) + (if a % 2 == 1 || b % 2 == 1 then 1 else 0)
  }

  /** `a & b`, bit by bit. */
  function BitAnd(a: nat, b: nat): nat
    decreases a
  {
    if a == 0 || b == 0 then 0
    else 2 * BitAnd(a / 2, b / 2) + (if a % 2 == 1 && b % 2 == 1 then 1 else 0)
  }

  /** Number of leading zero bits of `x` seen as a word of `width` bits: `__builtin_clzll` at width 64. */
  function Clz(x: nat, width: nat): nat
    requires x < Pow2(width)
  {
    if width == 0 then 0
    else if x >= Pow2(width - 1) then 0
    else 1 + Clz(x, width - 1)
  }

  // ---- The recursive forms are the usual operators ----

  lemma {:induction false} U64Is(x: int)
    ensures U64(x) == x % 0x1_0000_0000_0000_0000
    decreases x < 0, if x < 0 then -x else x
  {
    if x < 0 {
      U64Is(x + 0x1_0000_0000_0000_0000);
    } else if x >= 0x1_0000_0000_0000_0000 {
      U64Is(x - 0x1_0000_0000_0000_0000);
    }
  }

  lemma {:induction false} WrapTwice(a: int, b: int)
    ensures U64(U64(a) + b) == U64(a + b)
  {
    U64Is(a);
    U64Is(U64(a) + b);
    U64Is(a + b);
  }

  lemma {:induction false} TimesIs(a: nat, b: nat)
    ensures Times(a, b) == a * b
  {
    if a != 0 {
      TimesIs(a - 1, b);
      assert a * b == (a - 1) * b + b;
    }
  }

  // ---- Laws ----

  lemma {:induction false} DivMod(x: nat, d: nat)
    requires d > 0
    ensures x == Times(Div(x, d), d) + Mod(x, d)
  {
    if x >= d { DivMod(x - d, d); }
  }

  lemma {:induction false} TimesMono(a: nat, b: nat, c: nat)
    requires a <= b
    ensures Times(a, c) <= Times(b, c)
  {
    if a < b { TimesMono(a, b - 1, c); }
  }

  lemma {:induction false} TimesAdd(a: nat, b: nat, c: nat)
    ensures Times(a + b, c) == Times(a, c) + Times(b, c)
  {
    if a > 0 { TimesAdd(a - 1, b, c); }
  }

  lemma {:induction false} TimesCommutes(a: nat, b: nat)
    ensures Times(a, b) == Times(b, a)
  {
    TimesIs(a, b);
    TimesIs(b, a);
  }

  lemma {:induction false} TimesDouble(a: nat, b: nat)
    ensures Times(a, 2 * b) == 2 * Times(a, b)
  {
    if a > 0 { TimesDouble(a - 1, b); }
  }

  lemma {:induction false} TimesAssoc(a: nat, b: nat, c: nat)
    ensures Times(Times(a, b), c) == Times(a, Times(b, c))
  {
    if a > 0 {
      TimesAssoc(a - 1, b, c);
      TimesAdd(b, Times(a - 1, b), c);
    }
  }

  /** A multiple of d below another is at least d below it. */
  lemma {:induction false} MultipleBelow(a: nat, b: nat, d: nat)
    requires Times(a, d) < Times(b, d)
    ensures a < b && Times(a, d) + d <= Times(b, d)
  {
    if a < b { TimesMono(a + 1, b, d); } else { TimesMono(b, a, d); }
  }

  lemma {:induction false} QuotientOrder(x: nat, d: nat, q: nat, r: nat)
    requires x < Times(q, d) + d && Times(r, d) <= x
    ensures r <= q
  {
    if q < r { TimesMono(q + 1, r, d); }
  }

  /** A value has one quotient by d. */
  lemma {:induction false} QuotientUnique(x: nat, d: nat, q: nat, r: nat)
    requires Times(q, d) <= x < Times(q, d) + d
    requires Times(r, d) <= x < Times(r, d) + d
    ensures q == r
  {
    QuotientOrder(x, d, q, r);
    QuotientOrder(x, d, r, q);
  }

  lemma {:induction false} Fits32(x: int)
    requires 0 <= x < TWO_32
    ensures U32(x) == x
  {
  }

  lemma {:induction false} Fits64(x: int)
    requires 0 <= x < TWO_64
    ensures U64(x) == x
  {
  }

  lemma {:induction false} Pow2Add(a: nat, b: nat)
    ensures Pow2(a + b) == Times(Pow2(a), Pow2(b))
  {
    if a == 0 {
      assert Times(1, Pow2(b)) == Pow2(b);
    } else {
      Pow2Add(a - 1, b);
      TimesAdd(Pow2(a - 1), Pow2(a - 1), Pow2(b));
    }
  }

  lemma {:induction false} Pow2Mono(a: nat, b: nat)
    requires a <= b
    ensures Pow2(a) <= Pow2(b)
  {
    if a < b { Pow2Mono(a, b - 1); }
  }

  lemma {:induction false} Pow2Known()
    ensures Pow2(16) == 65536 && Pow2(32) == TWO_32 && Pow2(62) == TWO_64 / 4 && Pow2(64) == TWO_64
  {
    assert Pow2(8) == 256;
    Pow2Square(8);
    Pow2Square(16);
    Pow2Square(32);
    assert Pow2(64) == 2 * Pow2(63) == 4 * Pow2(62);
  }

  lemma {:induction false} Pow2Square(n: nat)
    ensures Pow2(n + n) == Pow2(n) * Pow2(n)
  {
    Pow2Add(n, n);
    TimesIs(Pow2(n), Pow2(n));
  }

  /** Shifting right keeps the quotient by a power of two. */
  lemma {:induction false} ShrSpan(x: nat, n: nat)
    ensures Times(Shr(x, n), Pow2(n)) <= x < Times(Shr(x, n), Pow2(n)) + Pow2(n)
  {
    if n == 0 {
      TimesOne(x);
    } else {
      ShrSpan(x / 2, n - 1);
      TimesDouble(Shr(x, n), Pow2(n - 1));
    }
  }

  lemma {:induction false} TimesOne(a: nat)
    ensures Times(a, 1) == a
  {
    if a > 0 { TimesOne(a - 1); }
  }

  lemma {:induction false} ShrUnique(x: nat, n: nat, q: nat)
    requires Times(q, Pow2(n)) <= x < Times(q, Pow2(n)) + Pow2(n)
    ensures Shr(x, n) == q
  {
    ShrSpan(x, n);
    QuotientUnique(x, Pow2(n), q, Shr(x, n));
  }

  /** Counting leading zeros finds the highest set bit. */
  lemma {:induction false} ClzFindsTopBit(x: nat, width: nat, top: nat)
    requires top < width
    requires Pow2(top) <= x < Pow2(top + 1)
    ensures x < Pow2(width) && Clz(x, width) == width - 1 - top
    decreases width
  {
    Pow2Mono(top + 1, width);
    if width - 1 > top {
      Pow2Mono(top + 1, width - 1);
      ClzFindsTopBit(x, width - 1, top);
    }
  }

  lemma {:induction false} TopBit(x: nat) returns (top: nat)
    requires x > 0
    ensures Pow2(top) <= x < Pow2(top + 1)
  {
    if x == 1 {
      top := 0;
    } else {
      var t := TopBit(x / 2);
      top := t + 1;
    }
  }

  lemma {:induction false} BitOrZero(a: nat)
    ensures BitOr(a, 0) == a
  {
    if a != 0 { BitOrZero(a / 2); }
  }

  /** Setting bit `s` in a word moves its highest set bit to `s` or leaves it where it is. */
  lemma {:induction false} BitOrTop(v: nat, s: nat, top: nat)
    requires if v < Pow2(s) then top == s else Pow2(top) <= v < Pow2(top + 1)
    ensures top >= s
    ensures Pow2(top) <= BitOr(v, Pow2(s)) < Pow2(top + 1)
  {
    if v >= Pow2(s) && top < s { Pow2Mono(top + 1, s); }
    if s == 0 {
      BitOrOne(v, top);
    } else {
      assert Pow2(s) == 2 * Pow2(s - 1) && Pow2(top) == 2 * Pow2(top - 1);
      BitOrTop(v / 2, s - 1, top - 1);
      BitOrHalf(v, Pow2(s - 1));
    }
  }

  lemma {:induction false} BitOrOne(v: nat, top: nat)
    requires if v < 1 then top == 0 else Pow2(top) <= v < Pow2(top + 1)
    ensures Pow2(top) <= BitOr(v, 1) < Pow2(top + 1)
  {
    var h := v / 2;
    BitOrZero(h);
    assert BitOr(v, 1) == 2 * h + 1;
    if top == 0 {
      assert h == 0;
    } else {
      HalfBetween(v, h, Pow2(top - 1));
    }
  }

  lemma {:induction false} HalfBetween(v: nat, h: nat, p: nat)
    requires h == v / 2 && 2 * p <= v < 4 * p
    ensures 2 * p <= 2 * h + 1 < 4 * p
  {
  }

  lemma {:induction false} BitOrHalf(v: nat, w: nat)
    requires w > 0
    ensures BitOr(v, 2 * w) == 2 * BitOr(v / 2, w) + v % 2
  {
    assert 2 * w / 2 == w && 2 * w % 2 == 0;
  }

  /** Masking with 2^n - 1 gives 0 only for multiples of 2^n. */
  lemma {:induction false} MaskedToZero(x: nat, n: nat)
    requires BitAnd(x, Pow2(n) - 1) == 0
    ensures x == Times(Shr(x, n), Pow2(n))
  {
    if n == 0 {
      TimesOne(x);
    } else if x > 0 {
      assert (Pow2(n) - 1) / 2 == Pow2(n - 1) - 1 && (Pow2(n) - 1) % 2 == 1;
      MaskedToZero(x / 2, n - 1);
      TimesDouble(Shr(x, n), Pow2(n - 1));
    } else {
      ShrZero(n);
    }
  }

  lemma {:induction false} ShrZero(n: nat)
    ensures Shr(0, n) == 0
  {
    if n > 0 { ShrZero(n - 1); }
  }
}
