/** Unsigned machine words as naturals: powers of two, the bitwise operators the
    ring and the hash table use, and the facts about masks and bit smearing. */
module Bits {

  const WORD: nat := 0x1_0000_0000_0000_0000

  /** The largest power of two a 64-bit word holds. */
  const TOP_BIT: nat := 0x8000_0000_0000_0000

  function Pow2(k: nat): (p: nat)
    ensures p >= 1
  {
    if k == 0 then 1 else 2 * Pow2(k - 1)
  }

  ghost predicate IsPow2(c: nat) {
    exists k: nat :: c == Pow2(k)
  }

  /** Bitwise conjunction. */
  function And(a: nat, b: nat): (r: nat)
    ensures r <= a && r <= b
  {
    if a == 0 || b == 0 then 0 else 2 * And(a / 2, b / 2) + (if a % 2 == 1 && b % 2 == 1 then 1 else 0)
  }

  /** Bitwise disjunction. */
  function Or(a: nat, b: nat): (r: nat)
    ensures r >= a && r >= b
    decreases a + b
  {
    if a == 0 then b else if b == 0 then a
    else 2 * Or(a / 2, b / 2) + (if a % 2 + b % 2 == 0 then 0 else 1)
  }

  /** Bitwise exclusive or. */
  function Xor(a: nat, b: nat): (r: nat)
    decreases a + b
  {
    if a == 0 then b else if b == 0 then a
    else 2 * Xor(a / 2, b / 2) + (if a % 2 == b % 2 then 0 else 1)
  }

  /** Logical shift right. */
  function Shr(a: nat, s: nat): (r: nat)
    ensures r <= a
  {
    if s == 0 then a else Shr(a / 2, s - 1)
  }

  /** The difference of two free-running 64-bit counters. */
  function Sub64(a: nat, b: nat): (r: nat)
    ensures r < WORD
  {
    (a - b) % WORD
  }

  function Add64(a: nat, b: nat): (r: nat)
    ensures r < WORD
  {
    (a + b) % WORD
  }

  lemma {:induction false} Pow2At16(k: nat)
    requires k == 16
    ensures Pow2(k) == 0x1_0000
  {
    Pow2Add(8, 8);
    assert Pow2(8) == 256;
  }

  lemma {:induction false} Pow2At32(k: nat)
    requires k == 32
    ensures Pow2(k) == 0x1_0000_0000
  {
    hide Pow2;
    Pow2At16(16);
    Pow2Add(16, 16);
  }

  lemma {:induction false} WordIsPow2(k: nat)
    ensures k == 64 ==> Pow2(k) == WORD
    ensures k == 63 ==> Pow2(k) == TOP_BIT
  {
    hide Pow2;
    var h := 32;
    Pow2At32(h);
    Pow2Add(h, h);
    if k == 63 { Pow2Step(k + 1); }
  }

  lemma {:induction false} Pow2Step(k: nat)
    requires k > 0
    ensures Pow2(k) == 2 * Pow2(k - 1)
  {
  }

  lemma {:induction false} Pow2Add(a: nat, b: nat)
    ensures Pow2(a + b) == Pow2(a) * Pow2(b)
  {
    if a > 0 {
      Pow2Add(a - 1, b);
      assert Pow2(a + b) == 2 * Pow2(a - 1 + b);
    }
  }

  lemma {:induction false} Pow2Mono(a: nat, b: nat)
    requires a < b
    ensures Pow2(a) < Pow2(b)
  {
    if b > a + 1 { Pow2Mono(a, b - 1); }
  }

  /** A power of two is determined by its exponent, so the order carries over both ways. */
  lemma {:induction false} Pow2Order(a: nat, b: nat)
    ensures Pow2(a) < Pow2(b) <==> a < b
  {
    if a < b { Pow2Mono(a, b); }
    if b < a { Pow2Mono(b, a); }
  }

  /** Masking with 2^k - 1 is reduction modulo 2^k. */
  lemma {:induction false} MaskIsModulo(x: nat, k: nat)
    ensures And(x, Pow2(k) - 1) == x % Pow2(k)
  {
    hide And;
    if k == 0 {
      MaskNothing(x);
    } else {
      var h := Pow2(k - 1);
      assert Pow2(k) == 2 * h;
      hide Pow2;
      MaskIsModulo(x / 2, k - 1);
      MaskHalf(x, h, 2 * h);
    }
  }

  lemma {:induction false} MaskNothing(x: nat)
    ensures And(x, 0) == 0
  {
  }

  lemma {:induction false} MaskHalf(x: nat, h: nat, p: nat)
    requires h >= 1 && p == 2 * h && And(x / 2, h - 1) == (x / 2) % h
    ensures And(x, p - 1) == x % p
  {
    HalveModulo(x, h);
    AndOddHalves(x, h);
    hide And;
  }

  lemma {:induction false} AndOddHalves(x: nat, h: nat)
    requires h >= 1
    ensures And(x, 2 * h - 1) == 2 * And(x / 2, h - 1) + x % 2
  {
    assert (2 * h - 1) / 2 == h - 1 && (2 * h - 1) % 2 == 1;
  }

  lemma {:induction false} HalveModulo(x: nat, h: nat)
    requires h >= 1
    ensures x % (2 * h) == 2 * ((x / 2) % h) + x % 2
  {
    var q, r := (x / 2) / h, (x / 2) % h;
    assert x == q * (2 * h) + (2 * r + x % 2) by {
      assert x / 2 == q * h + r;
    }
    DivModUnique(x, 2 * h, q, 2 * r + x % 2);
  }

  lemma {:induction false} MulMono(a: nat, b: nat, d: nat)
    requires a <= b
    ensures a * d <= b * d
  {
    assert (b - a) * d >= 0;
  }

  lemma {:induction false} DivModUnique(x: nat, d: nat, q: nat, r: nat)
    requires d >= 1 && r < d && x == q * d + r
    ensures x / d == q && x % d == r
  {
    var q', r' := x / d, x % d;
    assert x == q' * d + r';
    if q' + 1 <= q { MulMono(q' + 1, q, d); }
    if q + 1 <= q' { MulMono(q + 1, q', d); }
  }

  /** Reduction by a divisor of the word is not disturbed by word wrap-around. */
  lemma {:induction false} ModuloThroughWrap(x: nat, k: nat)
    requires k <= 64
    ensures (x % WORD) % Pow2(k) == x % Pow2(k)
  {
    WordIsPow2(64);
    Pow2Add(k, 64 - k);
    WrapMultiple(x, Pow2(64 - k), Pow2(k));
  }

  lemma {:induction false} WrapMultiple(x: nat, d: nat, c: nat)
    requires c >= 1 && c * d == WORD
    ensures (x % WORD) % c == x % c
  {
    var w, r := x / WORD, x % WORD;
    MulAssoc(w, d, c);
    assert x == w * d * c + r;
    ModuloOfMultiple(w * d, r, c);
  }

  lemma {:induction false} MulAssoc(a: nat, b: nat, c: nat)
    ensures a * b * c == a * (b * c) == a * (c * b)
  {
  }

  lemma {:induction false} ModuloOfMultiple(m: nat, r: nat, c: nat)
    requires c >= 1
    ensures (m * c + r) % c == r % c
  {
    assert m * c + r == (m + r / c) * c + r % c by {
      assert r == (r / c) * c + r % c;
      assert (m + r / c) * c == m * c + (r / c) * c;
    }
    DivModUnique(m * c + r, c, m + r / c, r % c);
  }

  // ---------------------------------------------------------------- bit smearing

  lemma {:induction false} ShrIsDiv(a: nat, s: nat)
    ensures Shr(a, s) == a / Pow2(s)
    decreases s
  {
    if s > 0 {
      ShrIsDiv(a / 2, s - 1);
      HalveDiv(a, Pow2(s - 1), Pow2(s));
    }
  }

  lemma {:induction false} HalveDiv(a: nat, p: nat, d: nat)
    requires p >= 1 && d == 2 * p
    ensures a / d == (a / 2) / p
  {
    var q, r := (a / 2) / p, (a / 2) % p;
    assert a == q * d + (2 * r + a % 2) by {
      assert a / 2 == q * p + r;
      MulAssoc(q, 2, p);
    }
    DivModUnique(a, d, q, 2 * r + a % 2);
  }

  lemma {:induction false} OrBelow(a: nat, b: nat, q: nat)
    requires a < Pow2(q) && b < Pow2(q)
    ensures Or(a, b) < Pow2(q)
    decreases q
  {
    if a > 0 && b > 0 {
      OrBelow(a / 2, b / 2, q - 1);
    }
  }

  /** Or only touches the low bits when one operand fits in them. */
  lemma {:induction false} OrSplit(base: nat, hi: nat, lo: nat, b: nat, q: nat)
    requires base == hi * Pow2(q) && lo < Pow2(q) && b < Pow2(q)
    ensures Or(base + lo, b) == base + Or(lo, b)
    decreases q
  {
    hide Or;
    OrZero(base + lo);
    OrZero(lo);
    if b > 0 {
      var p := Pow2(q - 1);
      var h := hi * p;
      hide Pow2;
      Pow2Step(q);
      MulAssoc(hi, 2, p);
      assert base == 2 * h;
      OrSplit(h, hi, lo / 2, b / 2, q - 1);
      OrHalves(base + lo, b);
      OrHalves(lo, b);
      HalfOfSum(h, lo);
    }
  }

  lemma {:induction false} OrZero(a: nat)
    ensures Or(a, 0) == a
  {
  }

  lemma {:induction false} HalfOfSum(h: nat, lo: nat)
    ensures (2 * h + lo) / 2 == h + lo / 2 && (2 * h + lo) % 2 == lo % 2
  {
  }

  lemma {:induction false} OrHalves(a: nat, b: nat)
    ensures Or(a, b) == 2 * Or(a / 2, b / 2) + (if a % 2 + b % 2 == 0 then 0 else 1)
  {
  }

  /** The top `w` of the `p` low bits of `n` are set and nothing above them is. */
  ghost predicate TopOnes(n: nat, p: nat, w: nat)
    requires w <= p
  {
    Pow2(p) - Pow2(p - w) <= n < Pow2(p)
  }

  /** One smearing step doubles the run of leading ones. */
  lemma {:induction false} SmearStep(n: nat, p: nat, w: nat)
    requires w <= p && TopOnes(n, p, w)
    ensures var w' := if 2 * w <= p then 2 * w else p;
            TopOnes(Or(n, Shr(n, w)), p, w')
  {
    var q := p - w;
    var rest := if 2 * w <= p then Pow2(p - 2 * w) else 1;
    Pow2Add(w, q);
    assert Pow2(q) <= Pow2(w) * rest by {
      if 2 * w <= p { Pow2Add(w, p - 2 * w); } else { Pow2Order(q, w); }
    }
    ShrIsDiv(n, w);
    FillLowBits(n, Pow2(w), q, Pow2(p), rest);
  }

  lemma {:induction false} FillLowBits(n: nat, v: nat, q: nat, top: nat, rest: nat)
    requires v >= 1 && top == v * Pow2(q)
    requires top - Pow2(q) <= n < top
    requires Pow2(q) <= v * rest
    ensures top - rest <= Or(n, n / v) < top
  {
    hide Or, Pow2;
    var m, base := n / v, (v - 1) * Pow2(q);
    MulSucc(v - 1, Pow2(q));
    QuotientBounds(n, v, Pow2(q), rest);
    OrSplit(base, v - 1, n - base, m, q);
    OrBelow(n - base, m, q);
  }

  lemma {:induction false} MulSucc(a: nat, b: nat)
    ensures (a + 1) * b == a * b + b
  {
  }

  lemma {:induction false} QuotientBounds(n: nat, v: nat, c: nat, rest: nat)
    requires v >= 1
    requires v * c - c <= n < v * c
    requires c <= v * rest
    ensures c - rest <= n / v < c
  {
    DivBelow(n, v, c);
    if c > rest {
      assert v * (c - rest) == v * c - v * rest;
      DivAtLeast(n, v, c - rest);
    }
  }

  lemma {:induction false} DivBelow(n: nat, d: nat, b: nat)
    requires d >= 1 && n < d * b
    ensures n / d < b
  {
    if b <= n / d { MulMono(b, n / d, d); }
  }

  lemma {:induction false} DivAtLeast(n: nat, d: nat, b: nat)
    requires d >= 1 && n >= d * b
    ensures n / d >= b
  {
    if n / d + 1 <= b { MulMono(n / d + 1, b, d); }
  }

  // ---------------------------------------------------------------- single bits

  /** Bit i of v. */
  function Bit(v: nat, i: nat): nat { (v / Pow2(i)) % 2 }

  lemma {:induction false} BitFirst(v: nat)
    ensures Bit(v, 0) == v % 2
  {
  }

  lemma {:induction false} BitNext(v: nat, i: nat)
    requires i > 0
    ensures Bit(v, i) == Bit(v / 2, i - 1)
  {
    HalveDiv(v, Pow2(i - 1), Pow2(i));
  }

  lemma {:induction false} BitOfZero(i: nat)
    ensures Bit(0, i) == 0
  {
    DivModUnique(0, Pow2(i), 0, 0);
  }

  /** A bit of each result is the product, the maximum or the difference of the operands' bits. */
  lemma {:induction false} BitsOfAnd(a: nat, b: nat, i: nat)
    ensures Bit(And(a, b), i) == Bit(a, i) * Bit(b, i)
    decreases i
  {
    hide Bit;
    AndHalves(a, b);
    if i == 0 {
      BitFirst(a); BitFirst(b); BitFirst(And(a, b));
    } else {
      BitNext(a, i); BitNext(b, i); BitNext(And(a, b), i);
      BitsOfAnd(a / 2, b / 2, i - 1);
    }
  }

  lemma {:induction false} AndHalves(a: nat, b: nat)
    ensures And(a, b) / 2 == And(a / 2, b / 2) && And(a, b) % 2 == (a % 2) * (b % 2)
  {
  }

  lemma {:induction false} BitsOfOr(a: nat, b: nat, i: nat)
    ensures Bit(Or(a, b), i) == if Bit(a, i) > Bit(b, i) then Bit(a, i) else Bit(b, i)
    decreases i
  {
    hide Bit, Or;
    OrHalves(a, b);
    if i == 0 {
      BitFirst(a); BitFirst(b); BitFirst(Or(a, b));
    } else {
      BitNext(a, i); BitNext(b, i); BitNext(Or(a, b), i);
      BitsOfOr(a / 2, b / 2, i - 1);
    }
  }

  lemma {:induction false} BitsOfXor(a: nat, b: nat, i: nat)
    ensures Bit(Xor(a, b), i) == if Bit(a, i) == Bit(b, i) then 0 else 1
    decreases i
  {
    hide Bit, Xor;
    XorHalves(a, b);
    if i == 0 {
      BitFirst(a); BitFirst(b); BitFirst(Xor(a, b));
    } else {
      BitNext(a, i); BitNext(b, i); BitNext(Xor(a, b), i);
      BitsOfXor(a / 2, b / 2, i - 1);
    }
  }

  lemma {:induction false} XorHalves(a: nat, b: nat)
    ensures Xor(a, b) == 2 * Xor(a / 2, b / 2) + (if a % 2 == b % 2 then 0 else 1)
  {
  }

  lemma {:induction false} XorBelow(a: nat, b: nat, q: nat)
    requires a < Pow2(q) && b < Pow2(q)
    ensures Xor(a, b) < Pow2(q)
    decreases q
  {
    if a > 0 && b > 0 {
      XorBelow(a / 2, b / 2, q - 1);
    }
  }

  /** Numbers below 2^q are determined by their low q bits. */
  lemma {:induction false} SameBits(a: nat, b: nat, q: nat)
    requires a < Pow2(q) && b < Pow2(q) && forall i: nat :: i < q ==> Bit(a, i) == Bit(b, i)
    ensures a == b
    decreases q
  {
    if q > 0 {
      assert Bit(a, 0) == Bit(b, 0);
      BitFirst(a); BitFirst(b);
      hide Bit;
      forall i: nat | i < q - 1 ensures Bit(a / 2, i) == Bit(b / 2, i) {
        BitNext(a, i + 1); BitNext(b, i + 1);
        assert Bit(a, i + 1) == Bit(b, i + 1);
      }
      SameBits(a / 2, b / 2, q - 1);
    }
  }

  /** A number below 2^q other than zero has a bit among its low q. */
  lemma {:induction false} SomeBit(a: nat, q: nat)
    requires a < Pow2(q)
    ensures a != 0 <==> exists i: nat :: i < q && Bit(a, i) == 1
  {
    if a == 0 {
      forall i: nat | i < q ensures Bit(a, i) != 1 { BitOfZero(i); }
    } else if forall i: nat :: i < q ==> Bit(a, i) != 1 {
      forall i: nat | i < q ensures Bit(a, i) == Bit(0, i) { BitOfZero(i); assert Bit(a, i) != 1; }
      SameBits(a, 0, q);
    }
  }
}
