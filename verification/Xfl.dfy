/**
 XFL decimal floats packed into 64-bit integers (deps/sqlite-extensions/xfl.c): a mantissa of sixteen
 digits and an exponent, ordered by the packed code.
 */
module Xfl {
  import opened Wrappers

  const MIN_MANTISSA := 1_000_000_000_000_000
  const MAX_MANTISSA := 9_999_999_999_999_999
  const MIN_EXPONENT := -96
  const MAX_EXPONENT := 80

  /** 2^54, 2^62 and 2^63: where the exponent, the sign bit and the refused half of int64 begin. */
  const TWO54 := 0x40_0000_0000_0000
  const TWO62 := 0x4000_0000_0000_0000
  const TWO63 := 0x8000_0000_0000_0000

  const MANTISSA_MASK := TWO54 - 1
  const EXPONENT_MASK := 255

  const INVALID := -1

  predicate Int64(c: int) { -TWO63 <= c < TWO63 }

  /** Bit 62 is clear. */
  predicate Negative(c: int) { c / TWO62 % 2 == 0 }

  function Exponent(c: int): (e: int)
    ensures -97 <= e <= 158
  {
    if c < 0 then INVALID
    else if c == 0 then 0
    else
      var e := c / TWO54 % 256;
      (if Negative(c) then EXPONENT_MASK - e else e) - 97
  }

  function Mantissa(c: int): int {
    if c < 0 then INVALID
    else if c == 0 then 0
    else
      var m := c % TWO54;
      if Negative(c) then -(MANTISSA_MASK - m) else m
  }

  datatype Decimal = Decimal(m: int, e: int)

  /** The first normalising loop: digits are added below, unless the exponent runs out. */
  function Raise(d: Decimal): Option<Decimal>
    requires d.m > 0
    decreases MIN_MANTISSA - d.m
  {
    if d.m >= MIN_MANTISSA then Some(d)
    else if d.e - 1 < MIN_EXPONENT then None
    else Raise(Decimal(d.m * 10, d.e - 1))
  }

  /** The second: digits are cut off below. */
  function Lower(d: Decimal): Option<Decimal>
    requires d.m >= 0
    decreases d.m
  {
    if d.m <= MAX_MANTISSA then Some(d)
    else if d.e + 1 > MAX_EXPONENT then None
    else Lower(Decimal(d.m / 10, d.e + 1))
  }

  function Normal(d: Decimal): Option<Decimal>
    requires d.m > 0
  {
    match Raise(d)
    case None => None
    case Some(r) => if r.m >= 0 then Lower(r) else None
  }

  /** Sign, exponent and mantissa side by side; of a negative number the last two are complemented. */
  function Pack(negative: bool, d: Decimal): int {
    var exponent := d.e - MIN_EXPONENT + 1;
    if negative then (EXPONENT_MASK - exponent) * TWO54 + (MANTISSA_MASK - d.m)
    else (256 + exponent) * TWO54 + d.m
  }

  function Abs(x: int): (r: int) { if x < 0 then -x else x }

  function Make(m: int, e: int): int {
    if m == 0 then 0
    else match Normal(Decimal(Abs(m), e))
      case None => INVALID
      case Some(d) => Pack(m < 0, d)
  }

  function InvertSign(c: int): int {
    Make(-Mantissa(c), Exponent(c))
  }

  /** C's division by ten, toward zero. */
  function Tenth(m: int): int {
    if m < 0 then -(-m / 10) else m / 10
  }

  /** `n` digits cut off below. */
  function Align(m: int, n: int): int
    decreases n
  {
    if n <= 0 then m else Align(Tenth(m), n - 1)
  }

  function Max(a: int, b: int): int { if a < b then b else a }

  /** Both mantissas at the larger exponent, added. */
  function Aligned(a: int, b: int): int {
    Align(Mantissa(a), Exponent(b) - Exponent(a)) + Align(Mantissa(b), Exponent(a) - Exponent(b))
  }

  function Sum(a: int, b: int): int {
    if Mantissa(a) == 0 then b
    else if Mantissa(b) == 0 then a
    else Make(Aligned(a, b), Max(Exponent(a), Exponent(b)))
  }

  function Sub(a: int, b: int): int {
    Sum(a, InvertSign(b))
  }

  // ---- What a code means ----

  function Pow10(n: int): (p: int)
    ensures p > 0
    decreases n
  {
    if n <= 0 then 1 else 10 * Pow10(n - 1)
  }

  /** The number in units of 10^-97, where every exponent the decoder yields gives an integer. */
  function Value(c: int): int {
    Mantissa(c) * Pow10(Exponent(c) + 97)
  }

  predicate NormalRange(m: int, e: int) {
    MIN_MANTISSA <= Abs(m) <= MAX_MANTISSA && MIN_EXPONENT <= e <= MAX_EXPONENT
  }

  /** Zero, or a code with a normalised mantissa and an exponent in range. */
  predicate Valid(c: int) {
    c == 0 || (0 < c < TWO63 && NormalRange(Mantissa(c), Exponent(c)))
  }

  lemma PlusDecodes(d: Decimal)
    requires 0 < d.m < TWO54 && -97 <= d.e <= 158
    ensures var c := Pack(false, d); 0 < c < TWO63 && !Negative(c) && Exponent(c) == d.e && Mantissa(c) == d.m
  {
    var c := Pack(false, d);
    assert c / TWO54 == 256 + (d.e + 97);
    assert c % TWO54 == d.m;
    assert c / TWO62 == 1;
  }

  lemma MinusDecodes(d: Decimal)
    requires 0 < d.m < MANTISSA_MASK && -97 <= d.e <= 158
    ensures var c := Pack(true, d); 0 < c < TWO63 && Negative(c) && Exponent(c) == d.e && Mantissa(c) == -d.m
  {
    var c := Pack(true, d);
    assert c / TWO54 == EXPONENT_MASK - (d.e + 97);
    assert c % TWO54 == MANTISSA_MASK - d.m;
    assert c / TWO62 == 0;
  }

  lemma PackDecodes(negative: bool, d: Decimal)
    requires 0 < d.m < MANTISSA_MASK && -97 <= d.e <= 158
    ensures 0 < Pack(negative, d) < TWO63
    ensures Exponent(Pack(negative, d)) == d.e && Mantissa(Pack(negative, d)) == if negative then -d.m else d.m
  {
    hide Pack, Negative, Exponent, Mantissa;
    if negative {
      MinusDecodes(d);
    } else {
      PlusDecodes(d);
    }
  }

  lemma NormalKept(d: Decimal)
    requires MIN_MANTISSA <= d.m <= MAX_MANTISSA
    ensures Normal(d) == Some(d)
  {
  }

  /** Decoding undoes packing. */
  lemma MakeDecodes(m: int, e: int)
    requires NormalRange(m, e)
    ensures Valid(Make(m, e)) && Mantissa(Make(m, e)) == m && Exponent(Make(m, e)) == e
  {
    hide Negative, Exponent, Mantissa, Pack;
    NormalKept(Decimal(Abs(m), e));
    PackDecodes(m < 0, Decimal(Abs(m), e));
  }

  /** Packing undoes decoding. */
  lemma DecodeMakes(c: int)
    requires Valid(c)
    ensures Make(Mantissa(c), Exponent(c)) == c
  {
    if c != 0 {
      NormalKept(Decimal(Abs(Mantissa(c)), Exponent(c)));
      assert c == c / TWO54 * TWO54 + c % TWO54;
      assert c / TWO62 == c / TWO54 / 256;
      assert Mantissa(c) < 0 <==> Negative(c);
    }
  }

  // ---- Order ----

  lemma {:induction false} Pow10Add(a: int, b: int)
    requires a >= 0 && b >= 0
    ensures Pow10(a + b) == Pow10(a) * Pow10(b)
  {
    if a > 0 {
      Pow10Add(a - 1, b);
    }
  }

  lemma {:induction false} Pow10Grows(a: int, b: int)
    requires a <= b
    ensures Pow10(a) <= Pow10(b)
    decreases b - a
  {
    if a < b {
      Pow10Grows(a, b - 1);
    }
  }

  /** Of two normalised magnitudes, the one with the larger exponent is the larger. */
  lemma LargerExponentWins(m: int, e: int, m': int, e': int)
    requires NormalRange(m, e) && NormalRange(m', e') && m > 0 && m' > 0 && e < e'
    ensures m * Pow10(e + 97) < m' * Pow10(e' + 97)
  {
    var p, p' := Pow10(e + 97), Pow10(e' + 97);
    Pow10Grows(e + 98, e' + 97);
    assert 10 * p <= p';
    Times(m, 10 * MIN_MANTISSA - 1, p);
    Times(MIN_MANTISSA, m', p');
    assert MIN_MANTISSA * (10 * p) <= MIN_MANTISSA * p';
  }

  lemma Times(a: int, b: int, p: int)
    requires a <= b && p > 0
    ensures a * p <= b * p && (a < b ==> a * p < b * p)
  {
  }

  lemma MagnitudeOrder(m: int, e: int, m': int, e': int)
    requires NormalRange(m, e) && NormalRange(m', e') && m > 0 && m' > 0
    ensures m * Pow10(e + 97) < m' * Pow10(e' + 97) <==> e < e' || (e == e' && m < m')
  {
    if e < e' {
      LargerExponentWins(m, e, m', e');
    } else if e' < e {
      LargerExponentWins(m', e', m, e);
    } else if m < m' {
      Times(m, m', Pow10(e + 97));
    } else {
      Times(m', m, Pow10(e + 97));
    }
  }

  /** A valid code is its own packing. */
  lemma CodeShape(c: int)
    requires Valid(c) && c != 0
    ensures c == Pack(Mantissa(c) < 0, Decimal(Abs(Mantissa(c)), Exponent(c)))
  {
    hide Mantissa, Exponent, Pack;
    DecodeMakes(c);
    NormalKept(Decimal(Abs(Mantissa(c)), Exponent(c)));
  }

  lemma PackOrder(d: Decimal, d': Decimal)
    requires NormalRange(d.m, d.e) && NormalRange(d'.m, d'.e) && d.m > 0 && d'.m > 0
    ensures Pack(false, d) < Pack(false, d') <==> d.e < d'.e || (d.e == d'.e && d.m < d'.m)
    ensures Pack(true, d') < Pack(true, d) <==> d.e < d'.e || (d.e == d'.e && d.m < d'.m)
    ensures Pack(true, d) < Pack(false, d')
    ensures 0 < Pack(true, d) && 0 < Pack(false, d)
  {
  }

  lemma ValueSign(c: int)
    ensures Value(c) > 0 <==> Mantissa(c) > 0
    ensures Value(c) < 0 <==> Mantissa(c) < 0
  {
    if Mantissa(c) > 0 {
      Times(1, Mantissa(c), Pow10(Exponent(c) + 97));
    } else if Mantissa(c) < 0 {
      Times(Mantissa(c), -1, Pow10(Exponent(c) + 97));
    }
  }

  lemma NonzeroOrder(a: int, b: int)
    requires Valid(a) && Valid(b) && a != 0 && b != 0
    ensures a < b <==> Value(a) < Value(b)
  {
    hide Mantissa, Exponent, Pack;
    var m, e, m', e' := Abs(Mantissa(a)), Exponent(a), Abs(Mantissa(b)), Exponent(b);
    CodeShape(a);
    CodeShape(b);
    PackOrder(Decimal(m, e), Decimal(m', e'));
    PackOrder(Decimal(m', e'), Decimal(m, e));
    MagnitudeOrder(m, e, m', e');
    MagnitudeOrder(m', e', m, e);
    ValueSign(a);
    ValueSign(b);
  }

  /**
   The order of codes is the order of numbers, except that zero's code is below every negative
   number's.
   */
  lemma OrderIff(a: int, b: int)
    requires Valid(a) && Valid(b)
    ensures (a < b <==> Value(a) < Value(b)) <==> !(a == 0 && Value(b) < 0) && !(b == 0 && Value(a) < 0)
  {
    hide Mantissa, Exponent;
    ValueSign(a);
    ValueSign(b);
    if a != 0 && b != 0 {
      NonzeroOrder(a, b);
    } else {
      assert Mantissa(0) == 0 by { ZeroMantissa(); }
      if a != 0 { assert Mantissa(a) != 0; }
      if b != 0 { assert Mantissa(b) != 0; }
    }
  }

  lemma ZeroMantissa()
    ensures Mantissa(0) == 0 && Value(0) == 0
  {
  }

  // ---- Addition ----

  lemma {:induction false} AlignNegates(m: int, n: int)
    ensures Align(-m, n) == -Align(m, n)
    decreases n
  {
    if n > 0 {
      AlignNegates(Tenth(m), n - 1);
    }
  }

  /** Cutting digits off a magnitude rounds it down, by less than one unit of the last digit kept. */
  lemma {:induction false} AlignRoundsDown(m: int, n: int)
    requires m >= 0 && n >= 0
    ensures 0 <= Align(m, n) <= m
    ensures Align(m, n) * Pow10(n) <= m < (Align(m, n) + 1) * Pow10(n)
    decreases n
  {
    if n > 0 {
      AlignRoundsDown(m / 10, n - 1);
      TenTimes(Align(m / 10, n - 1), m, Pow10(n - 1));
    }
  }

  lemma TenTimes(a: int, m: int, p: int)
    requires a * p <= m / 10 < (a + 1) * p
    ensures a * (10 * p) <= m < (a + 1) * (10 * p)
  {
    var x, y := a * p, (a + 1) * p;
    assert a * (10 * p) == 10 * x;
    assert (a + 1) * (10 * p) == 10 * y;
  }

  /** Addition is commutative on every pair of codes but two different ones that both decode to zero. */
  lemma SumCommutesIff(a: int, b: int)
    ensures Sum(a, b) == Sum(b, a) <==> !(Mantissa(a) == 0 && Mantissa(b) == 0) || a == b
  {
    hide Mantissa, Exponent, Make, Align;
  }

  lemma InvertDecodes(c: int)
    requires Valid(c)
    ensures Valid(InvertSign(c)) && Mantissa(InvertSign(c)) == -Mantissa(c) && Exponent(InvertSign(c)) == Exponent(c)
  {
    hide Mantissa, Exponent, Make;
    if c == 0 {
      MakeOfZero();
    } else {
      MakeDecodes(-Mantissa(c), Exponent(c));
    }
  }

  lemma MakeOfZero()
    ensures Mantissa(0) == 0 && Exponent(0) == 0 && Make(0, 0) == 0
  {
  }

  lemma SubSelfIsZero(a: int)
    requires Valid(a)
    ensures Sub(a, a) == 0
  {
    InvertDecodes(a);
  }

  /** Raising keeps the number. */
  lemma {:induction false} RaiseExact(d: Decimal)
    requires d.m > 0 && d.e >= -97
    ensures Raise(d).Some? ==>
      var r := Raise(d).value;
      r.m >= MIN_MANTISSA && r.m * Pow10(r.e + 97) == d.m * Pow10(d.e + 97) && -97 <= r.e <= d.e
      && (r.m <= MAX_MANTISSA || r == d) && (r == d || MIN_EXPONENT <= r.e)
    decreases MIN_MANTISSA - d.m
  {
    if d.m < MIN_MANTISSA && d.e - 1 >= MIN_EXPONENT {
      var m, p := d.m, Pow10(d.e + 96);
      RaiseExact(Decimal(m * 10, d.e - 1));
      assert Pow10(d.e + 97) == 10 * p;
      assert m * 10 * p == m * (10 * p);
    }
  }

  /** Up to one digit too many: normalising cuts off at most that digit. */
  lemma NormalNearly(d: Decimal)
    requires 0 < d.m < 100 * MIN_MANTISSA && MIN_EXPONENT <= d.e <= MAX_EXPONENT && Normal(d).Some?
    ensures var r, u := Normal(d).value, Pow10(d.e + 97);
            NormalRange(r.m, r.e) && r.m > 0
            && d.m * u - 9 * u <= r.m * Pow10(r.e + 97) <= d.m * u
  {
    RaiseExact(d);
    if d.m > MAX_MANTISSA {
      LowerOnce(d);
      assert Pow10(d.e + 98) == 10 * Pow10(d.e + 97);
      DigitCut(d.m, Pow10(d.e + 97));
    }
  }

  lemma LowerOnce(d: Decimal)
    requires MAX_MANTISSA < d.m < 100 * MIN_MANTISSA && Normal(d).Some?
    ensures Normal(d) == Some(Decimal(d.m / 10, d.e + 1)) && d.e < MAX_EXPONENT
  {
    assert Raise(d) == Some(d);
    var cut := Decimal(d.m / 10, d.e + 1);
    assert cut.m <= MAX_MANTISSA;
    assert Lower(cut) == Some(cut);
  }

  lemma DigitCut(m: int, u: int)
    requires u > 0
    ensures m * u - 9 * u <= m / 10 * (10 * u) <= m * u
  {
    var q := m / 10;
    assert q * (10 * u) == (10 * q) * u;
    Times(10 * q, m, u);
    Times(m - 9, 10 * q, u);
    assert (m - 9) * u == m * u - 9 * u;
  }

  /** What `Make` of a mantissa with up to one digit too many yields. */
  lemma MakeNearly(m: int, e: int)
    requires Abs(m) < 100 * MIN_MANTISSA && MIN_EXPONENT <= e <= MAX_EXPONENT && Make(m, e) != INVALID
    ensures Valid(Make(m, e))
    ensures Abs(Value(Make(m, e)) - m * Pow10(e + 97)) <= 9 * Pow10(e + 97)
    ensures m >= 0 ==> 0 <= Value(Make(m, e)) <= m * Pow10(e + 97)
  {
    hide Mantissa, Exponent, Pack, Normal;
    if m == 0 {
      ZeroMantissa();
    } else {
      var d := Decimal(Abs(m), e);
      var r := Normal(d).value;
      NormalNearly(d);
      PackDecodes(m < 0, r);
      ValueSign(Make(m, e));
      Signs(m, r.m, Pow10(e + 97), Pow10(r.e + 97));
    }
  }

  lemma Signs(m: int, r: int, u: int, v: int)
    requires Abs(m) * u - 9 * u <= r * v <= Abs(m) * u
    ensures Abs((if m < 0 then -r else r) * v - m * u) <= 9 * u
  {
    assert -r * v == -(r * v) && Abs(m) * u == if m < 0 then -(m * u) else m * u;
  }

  lemma ScaledUp(a: int, k: int, q: int, p: int)
    requires a * q <= k < (a + 1) * q && p > 0
    ensures a * (q * p) <= k * p < a * (q * p) + q * p
  {
    var x, y := a * q, (a + 1) * q;
    Times(x, k, p);
    Times(k, y, p);
    assert x * p == a * (q * p);
    assert y == x + q && y * p == x * p + q * p;
  }

  lemma Mirrored(a: int, k: int, u: int, p: int)
    ensures -a * u == -(a * u) && -k * p == -(k * p)
  {
  }

  /** The truncated operand is off by less than one unit at the larger exponent. */
  lemma AlignError(m: int, n: int, p: int)
    requires n >= 0 && p > 0
    ensures Abs(Align(m, n) * (Pow10(n) * p) - m * p) < Pow10(n) * p
    ensures m >= 0 ==> Align(m, n) >= 0 && Align(m, n) * (Pow10(n) * p) <= m * p
    ensures Abs(Align(m, n)) <= Abs(m)
  {
    hide Align;
    var k := Abs(m);
    AlignRoundsDown(k, n);
    AlignNegates(m, n);
    ScaledUp(Align(k, n), k, Pow10(n), p);
    Mirrored(Align(k, n), k, Pow10(n) * p, p);
  }

  lemma AlignsTo(c: int, e: int)
    requires Valid(c) && c != 0 && Exponent(c) <= e
    ensures var a, u := Align(Mantissa(c), e - Exponent(c)), Pow10(e + 97);
            Abs(a * u - Value(c)) < u && Abs(a) <= MAX_MANTISSA && (e == Exponent(c) ==> a * u == Value(c))
            && (Mantissa(c) > 0 ==> a >= 0 && a * u <= Value(c))
  {
    hide Mantissa;
    Pow10Add(e - Exponent(c), Exponent(c) + 97);
    AlignError(Mantissa(c), e - Exponent(c), Pow10(Exponent(c) + 97));
  }

  lemma AlignedCommutes(a: int, b: int)
    ensures Aligned(a, b) == Aligned(b, a)
  {
    hide Align, Mantissa, Exponent;
  }

  lemma AlignedNearOrdered(a: int, b: int)
    requires Valid(a) && Valid(b) && a != 0 && b != 0 && Exponent(a) <= Exponent(b)
    ensures var u := Pow10(Exponent(b) + 97);
            Abs(Aligned(a, b) * u - (Value(a) + Value(b))) < u && Abs(Aligned(a, b)) <= 2 * MAX_MANTISSA
            && (Mantissa(a) > 0 && Mantissa(b) > 0 ==> Aligned(a, b) >= 0 && Aligned(a, b) * u <= Value(a) + Value(b))
  {
    hide Mantissa, Exponent, Value, Valid, Align;
    AlignsTo(a, Exponent(b));
    AlignsTo(b, Exponent(b));
    AlignNone(Mantissa(b), Exponent(a) - Exponent(b));
    AlignNone(Mantissa(b), 0);
    Distribute(Align(Mantissa(a), Exponent(b) - Exponent(a)), Mantissa(b), Pow10(Exponent(b) + 97));
  }

  /** Before packing the sum is off by less than one unit, and within one digit of normal. */
  lemma AlignedNear(a: int, b: int)
    requires Valid(a) && Valid(b) && a != 0 && b != 0
    ensures var u := Pow10(Max(Exponent(a), Exponent(b)) + 97);
            Abs(Aligned(a, b) * u - (Value(a) + Value(b))) < u && Abs(Aligned(a, b)) <= 2 * MAX_MANTISSA
            && (Mantissa(a) > 0 && Mantissa(b) > 0 ==> Aligned(a, b) >= 0 && Aligned(a, b) * u <= Value(a) + Value(b))
  {
    hide Mantissa, Exponent, Value, Valid, Aligned, Abs;
    if Exponent(a) <= Exponent(b) {
      AlignedNearOrdered(a, b);
    } else {
      AlignedNearOrdered(b, a);
      AlignedCommutes(a, b);
    }
  }

  lemma AlignNone(m: int, n: int)
    ensures n <= 0 ==> Align(m, n) == m
  {
  }

  lemma Distribute(x: int, y: int, u: int)
    ensures (x + y) * u == x * u + y * u
  {
  }

  /** The exponent at which a sum is rounded. */
  function RoundedAt(a: int, b: int): int {
    if Mantissa(a) == 0 then Exponent(b) else if Mantissa(b) == 0 then Exponent(a) else Max(Exponent(a), Exponent(b))
  }

  /**
   A sum that does not overflow is a valid code, off the exact sum by less than ten units of the
   larger exponent; of two non-negative numbers it never exceeds the exact sum.
   */
  lemma SumError(a: int, b: int)
    requires Valid(a) && Valid(b) && Sum(a, b) != INVALID
    ensures Valid(Sum(a, b))
    ensures Abs(Value(Sum(a, b)) - (Value(a) + Value(b))) < Pow10(RoundedAt(a, b) + 98)
    ensures Value(a) >= 0 && Value(b) >= 0 ==> 0 <= Value(Sum(a, b)) <= Value(a) + Value(b)
  {
    hide Mantissa, Exponent, Value, Make, Aligned;
    ValueSign(a);
    ValueSign(b);
    ZeroMantissa();
    if a != 0 && b != 0 {
      var e := Max(Exponent(a), Exponent(b));
      AlignedNear(a, b);
      MakeNearly(Aligned(a, b), e);
      assert Pow10(e + 98) == 10 * Pow10(e + 97);
    }
  }

  /** Raising fails exactly below the smallest normalised number. */
  lemma {:induction false} RaiseFailsIff(d: Decimal)
    requires d.m > 0 && d.e >= MIN_EXPONENT
    ensures Raise(d).None? <==> d.m * Pow10(d.e + 97) < 10 * MIN_MANTISSA
    decreases MIN_MANTISSA - d.m
  {
    var m, p := d.m, Pow10(d.e + 96);
    assert Pow10(d.e + 97) == 10 * p;
    if m >= MIN_MANTISSA {
      Times(MIN_MANTISSA, m, 10 * p);
      assert MIN_MANTISSA * (10 * p) >= MIN_MANTISSA * 10;
    } else if d.e - 1 >= MIN_EXPONENT {
      RaiseFailsIff(Decimal(m * 10, d.e - 1));
      assert m * 10 * p == m * (10 * p);
    }
  }

  /** Cutting fails exactly when a digit is to go and the exponent is at its top. */
  lemma LowerFailsIff(d: Decimal)
    requires 0 <= d.m < 100 * MIN_MANTISSA && d.e <= MAX_EXPONENT
    ensures Lower(d).None? <==> d.m > MAX_MANTISSA && d.e == MAX_EXPONENT
  {
    var cut := Decimal(d.m / 10, d.e + 1);
    assert cut.m <= MAX_MANTISSA;
    assert Lower(cut) == Some(cut);
  }

  lemma PackNotInvalid(m: int, e: int)
    requires m != 0 && Abs(m) < 100 * MIN_MANTISSA && MIN_EXPONENT <= e <= MAX_EXPONENT
      && Normal(Decimal(Abs(m), e)).Some?
    ensures Make(m, e) != INVALID
  {
    hide Normal, Pack;
    NormalNearly(Decimal(Abs(m), e));
    PackDecodes(m < 0, Normal(Decimal(Abs(m), e)).value);
  }

  lemma MakeFailsIff(m: int, e: int)
    requires m != 0 && Abs(m) < 100 * MIN_MANTISSA && MIN_EXPONENT <= e <= MAX_EXPONENT
    ensures Make(m, e) == INVALID
       <==> Abs(m) * Pow10(e + 97) < 10 * MIN_MANTISSA || (Abs(m) > MAX_MANTISSA && e == MAX_EXPONENT)
  {
    hide Pack, Pow10;
    var d := Decimal(Abs(m), e);
    RaiseFailsIff(d);
    RaiseExact(d);
    LowerFailsIff(d);
    if Raise(d).Some? {
      LowerFailsIff(Raise(d).value);
    }
    if Normal(d).Some? {
      PackNotInvalid(m, e);
    }
  }

  /** Addition fails exactly on underflow of a nonzero result and on overflow at the top exponent. */
  lemma SumFailsIff(a: int, b: int)
    requires Valid(a) && Valid(b) && a != 0 && b != 0
    ensures Sum(a, b) == INVALID <==>
      var s, e := Abs(Aligned(a, b)), Max(Exponent(a), Exponent(b));
      (0 < s && s * Pow10(e + 97) < 10 * MIN_MANTISSA) || (s > MAX_MANTISSA && e == MAX_EXPONENT)
  {
    hide Mantissa, Exponent, Make, Aligned, Pow10;
    AlignedNear(a, b);
    var e := Max(Exponent(a), Exponent(b));
    if Aligned(a, b) != 0 {
      MakeFailsIff(Aligned(a, b), e);
    } else {
      MakeZero(e);
    }
  }

  lemma MakeZero(e: int)
    ensures Make(0, e) == 0
  {
  }

  /** Division toward zero. */
  function Truncated(v: int, u: int): int
    requires u > 0
  {
    if v < 0 then -(-v / u) else v / u
  }

  lemma Cancels(a: int, b: int, u: int)
    requires u > 0 && a * u < b * u
    ensures a < b
  {
    if a >= b {
      Times(b, a, u);
    }
  }

  lemma QuotientIs(v: int, u: int, q: int)
    requires u > 0 && q * u <= v < (q + 1) * u
    ensures v / u == q
  {
    var r := v / u;
    assert r * u <= v < r * u + u;
    assert r * u + u == (r + 1) * u;
    Cancels(q, r + 1, u);
    Cancels(r, q + 1, u);
  }

  lemma AlignIsQuotient(k: int, n: int, p: int)
    requires k >= 0 && n >= 0 && p > 0
    ensures Align(k, n) == k * p / (Pow10(n) * p)
  {
    hide Align;
    var a, u := Align(k, n), Pow10(n) * p;
    AlignRoundsDown(k, n);
    ScaledUp(a, k, Pow10(n), p);
    assert (a + 1) * u == a * u + u;
    QuotientIs(k * p, u, a);
  }

  /** An aligned mantissa is the number in units of the larger exponent, cut toward zero. */
  lemma AlignIsTruncated(c: int, e: int)
    requires Exponent(c) <= e
    ensures Align(Mantissa(c), e - Exponent(c)) == Truncated(Value(c), Pow10(e + 97))
  {
    hide Mantissa, Exponent, Align;
    var m, n, p := Mantissa(c), e - Exponent(c), Pow10(Exponent(c) + 97);
    Pow10Add(n, Exponent(c) + 97);
    AlignIsQuotient(Abs(m), n, p);
    AlignNegates(m, n);
    Mirrored(Abs(m), Abs(m), p, p);
    ValueSign(c);
  }

  /** What two numbers add up to in units of 10^e, each cut to that unit. */
  function CutSum(a: int, b: int, e: int): int {
    Truncated(Value(a), Pow10(e + 97)) + Truncated(Value(b), Pow10(e + 97))
  }

  lemma AlignedIsCutSum(a: int, b: int)
    ensures Aligned(a, b) == CutSum(a, b, Max(Exponent(a), Exponent(b)))
  {
    hide Mantissa, Exponent, Align, Value;
    var e := Max(Exponent(a), Exponent(b));
    AlignIsTruncated(a, e);
    AlignIsTruncated(b, e);
    AlignNone(Mantissa(a), Exponent(b) - Exponent(a));
    AlignNone(Mantissa(b), Exponent(a) - Exponent(b));
    AlignNone(Mantissa(a), e - Exponent(a));
    AlignNone(Mantissa(b), e - Exponent(b));
  }

  /** A number at its own exponent is not cut. */
  lemma OwnUnit(c: int)
    ensures Truncated(Value(c), Pow10(Exponent(c) + 97)) == Mantissa(c)
  {
    hide Mantissa, Exponent, Align;
    AlignIsTruncated(c, Exponent(c));
    AlignNone(Mantissa(c), 0);
  }

  /** A mantissa of one digit too many loses that digit, and no more. */
  lemma MakeCuts(m: int, e: int)
    requires MAX_MANTISSA < Abs(m) < 100 * MIN_MANTISSA && MIN_EXPONENT <= e < MAX_EXPONENT
    ensures Value(Make(m, e)) == Truncated(m, 10) * Pow10(e + 98)
  {
    hide Mantissa, Exponent, Pack;
    var d := Decimal(Abs(m), e);
    assert Raise(d) == Some(d);
    var cut := Decimal(d.m / 10, e + 1);
    assert cut.m <= MAX_MANTISSA && Lower(cut) == Some(cut);
    assert Normal(d) == Some(cut);
    PackDecodes(m < 0, cut);
  }

  /** Whether a sum of `s` units of 10^e has no code. */
  predicate Unrepresentable(s: int, e: int) {
    (0 < Abs(s) && Abs(s) * Pow10(e + 97) < 10 * MIN_MANTISSA) || (Abs(s) > MAX_MANTISSA && e == MAX_EXPONENT)
  }

  /**
   What the sum of two nonzero numbers is, in full: both are cut to units of the larger exponent and added
   in those units. The result is that sum, exactly where it has at most sixteen digits and without its
   last digit otherwise, and the error code exactly where there is no code for it.
   */
  lemma SumIs(a: int, b: int)
    requires Valid(a) && Valid(b) && a != 0 && b != 0
    ensures var e := Max(Exponent(a), Exponent(b)); var s := CutSum(a, b, e);
            (Sum(a, b) == INVALID <==> Unrepresentable(s, e))
            && (Sum(a, b) != INVALID ==>
                  Valid(Sum(a, b))
                  && Value(Sum(a, b)) == if Abs(s) <= MAX_MANTISSA then s * Pow10(e + 97)
                                         else Truncated(s, 10) * Pow10(e + 98))
  {
    hide Mantissa, Exponent, Make, Aligned, CutSum, Truncated, Value;
    var e := Max(Exponent(a), Exponent(b));
    var s := CutSum(a, b, e);
    AlignedIsCutSum(a, b);
    AlignedNear(a, b);
    SumFailsIff(a, b);
    if Sum(a, b) != INVALID {
      MakeNearly(s, e);
      if s == 0 {
        MakeZero(e);
        ZeroMantissa();
      } else if Abs(s) <= MAX_MANTISSA {
        MakeExact(s, e);
      } else {
        MakeCuts(s, e);
      }
    }
  }

  /** With zero on either side the other number comes out. */
  lemma SumWithZero(c: int)
    ensures Sum(0, c) == c && (Valid(c) ==> Sum(c, 0) == c)
  {
    hide Exponent, Make;
    ZeroMantissa();
  }

  /** A number has one valid code, so its value tells the code. */
  lemma ValueTellsCode(a: int, b: int)
    requires Valid(a) && Valid(b) && Value(a) == Value(b)
    ensures a == b
  {
    hide Mantissa, Exponent;
    ZeroMantissa();
    ValueSign(a);
    ValueSign(b);
    if a != 0 && b != 0 {
      NonzeroOrder(a, b);
      NonzeroOrder(b, a);
    }
  }

  /** Numbers of one exponent whose mantissas add up to at most sixteen digits add up exactly. */
  lemma SumExact(a: int, b: int)
    requires Valid(a) && Valid(b) && a != 0 && b != 0 && Exponent(a) == Exponent(b)
    requires Abs(Mantissa(a) + Mantissa(b)) <= MAX_MANTISSA && Sum(a, b) != INVALID
    ensures Value(Sum(a, b)) == Value(a) + Value(b)
  {
    hide Mantissa, Exponent, Make, Truncated, Sum;
    SumIs(a, b);
    OwnUnit(a);
    OwnUnit(b);
    Distribute(Mantissa(a), Mantissa(b), Pow10(Exponent(a) + 97));
  }

  // ---- Subtraction ----

  lemma InvertNegates(c: int)
    requires Valid(c)
    ensures Valid(InvertSign(c)) && Value(InvertSign(c)) == -Value(c) && Exponent(InvertSign(c)) == Exponent(c)
  {
    hide Mantissa, Exponent, InvertSign;
    InvertDecodes(c);
    var m, p := Mantissa(c), Pow10(Exponent(c) + 97);
    assert -m * p == -(m * p);
  }

  /** Turning the sign gives the code of the negative number, and is undone by doing it again. */
  lemma InvertIff(c: int, d: int)
    requires Valid(c) && Valid(d)
    ensures d == InvertSign(c) <==> Value(d) == -Value(c)
    ensures d == InvertSign(c) <==> c == InvertSign(d)
  {
    hide Value, InvertSign, Valid;
    InvertNegates(c);
    InvertNegates(d);
    if Value(d) == -Value(c) {
      ValueTellsCode(d, InvertSign(c));
      ValueTellsCode(c, InvertSign(d));
    }
  }

  /** A difference that does not fail is valid, and off the exact one by less than ten units of the larger exponent. */
  lemma SubError(a: int, b: int)
    requires Valid(a) && Valid(b)
    ensures Sub(a, b) != INVALID ==>
      Valid(Sub(a, b)) && Abs(Value(Sub(a, b)) - (Value(a) - Value(b))) < Pow10(RoundedAt(a, b) + 98)
  {
    hide Mantissa, Exponent, Value, Sum, InvertSign;
    InvertDecodes(b);
    InvertNegates(b);
    if Sub(a, b) != INVALID {
      SumError(a, InvertSign(b));
    }
  }

  /** Subtracting is adding the number of the opposite sign, and gives the negative of the difference the other way. */
  lemma SubMirrors(a: int, b: int)
    requires Valid(a) && Valid(b) && a != 0 && b != 0
    ensures Value(InvertSign(b)) == -Value(b) && Sub(a, b) == Sum(a, InvertSign(b))
    ensures Sub(a, b) == INVALID <==> Sub(b, a) == INVALID
    ensures Sub(a, b) != INVALID ==> Value(Sub(a, b)) == -Value(Sub(b, a))
  {
    hide Mantissa, Exponent, Value, Sum, InvertSign, Truncated;
    var na, nb := InvertSign(a), InvertSign(b);
    InvertNegates(a);
    InvertNegates(b);
    NonzeroInvert(a);
    NonzeroInvert(b);
    SumIs(a, nb);
    SumIs(b, na);
    var e := Max(Exponent(a), Exponent(b));
    TruncatedNegates(Value(a), Pow10(e + 97));
    TruncatedNegates(Value(b), Pow10(e + 97));
    var s := CutSum(a, nb, e);
    assert CutSum(b, na, e) == -s;
    TruncatedNegates(s, 10);
    Mirrored(s, Truncated(s, 10), Pow10(e + 97), Pow10(e + 98));
  }

  lemma TruncatedNegates(v: int, u: int)
    requires u > 0
    ensures Truncated(-v, u) == -Truncated(v, u)
  {
    if v == 0 { QuotientIs(0, u, 0); }
  }

  lemma NonzeroInvert(c: int)
    requires Valid(c) && c != 0
    ensures InvertSign(c) != 0
  {
    hide Mantissa, Exponent, InvertSign;
    InvertDecodes(c);
    ZeroMantissa();
  }

  /** One, as it is stored. */
  lemma CodeOfOne()
    ensures Make(1, 0) == 6_089_866_696_204_910_592 && Value(Make(1, 0)) == Pow10(97)
  {
    hide Pow10;
    var r := Decimal(MIN_MANTISSA, -15);
    assert Raise(Decimal(1_000_000_000_000, -12)) == Some(r);
    assert Raise(Decimal(1_000_000_000, -9)) == Some(r);
    assert Raise(Decimal(1_000_000, -6)) == Some(r);
    assert Raise(Decimal(1_000, -3)) == Some(r);
    assert Raise(Decimal(1, 0)) == Some(r);
    MakeExact(1, 0);
  }

  // ---- The aggregate ----

  predicate NonNegative(c: int) { Valid(c) && Mantissa(c) >= 0 }

  /** The first number that does not fit. */
  const LIMIT := (MAX_MANTISSA + 1) * Pow10(MAX_EXPONENT + 97)

  /** A normalised sum is at least any of the normalised numbers it started from. */
  lemma MakeAtLeast(m: int, e: int, k: int)
    requires MIN_MANTISSA <= k <= MAX_MANTISSA && k <= m < 100 * MIN_MANTISSA
    requires MIN_EXPONENT <= e <= MAX_EXPONENT && Make(m, e) != INVALID
    ensures Value(Make(m, e)) >= k * Pow10(e + 97)
  {
    hide Mantissa, Exponent, Pow10;
    var d := Decimal(m, e);
    if m <= MAX_MANTISSA {
      MakeDecodes(m, e);
      Times(k, m, Pow10(e + 97));
    } else {
      assert Normal(d) == Some(Decimal(m / 10, e + 1)) && e < MAX_EXPONENT by { assert Normal(d).Some?; LowerOnce(d); }
      MinMantissaKept(m);
      PackDecodes(false, Decimal(m / 10, e + 1));
      LargerExponentWins(k, e, m / 10, e + 1);
    }
  }

  lemma MinMantissaKept(m: int)
    requires MAX_MANTISSA < m < 100 * MIN_MANTISSA
    ensures MIN_MANTISSA <= m / 10 <= MAX_MANTISSA
  {
  }

  /** The larger exponent of two positive numbers: the sum is no smaller than that number. */
  lemma SumAtLeastOrdered(a: int, b: int)
    requires NonNegative(a) && NonNegative(b) && a != 0 && b != 0 && Exponent(a) <= Exponent(b) && Sum(a, b) != INVALID
    ensures Value(b) <= Value(Sum(a, b)) && Value(a) <= Value(Sum(a, b))
  {
    hide Exponent, Mantissa, Make, Pow10;
    AlignedNearOrdered(a, b);
    AlignNone(Mantissa(b), Exponent(a) - Exponent(b));
    AlignError(Mantissa(a), Exponent(b) - Exponent(a), 1);
    MakeAtLeast(Aligned(a, b), Exponent(b), Mantissa(b));
    if Exponent(a) < Exponent(b) {
      LargerExponentWins(Mantissa(a), Exponent(a), Mantissa(b), Exponent(b));
    } else {
      AlignNone(Mantissa(a), 0);
      MakeAtLeast(Aligned(a, b), Exponent(b), Mantissa(a));
    }
  }

  lemma SumAtLeast(a: int, b: int)
    requires NonNegative(a) && NonNegative(b) && a != 0 && b != 0 && Sum(a, b) != INVALID
    ensures Value(b) <= Value(Sum(a, b)) && Value(a) <= Value(Sum(a, b))
  {
    hide Exponent, Mantissa, Make, Pow10, Aligned, Value;
    if Exponent(a) <= Exponent(b) {
      SumAtLeastOrdered(a, b);
    } else {
      SumCommutesIff(a, b);
      SumAtLeastOrdered(b, a);
    }
  }

  /** The larger number has no smaller exponent. */
  lemma ExponentGrows(a: int, c: int)
    requires NonNegative(a) && NonNegative(c) && a != 0 && c != 0 && Value(a) <= Value(c)
    ensures Exponent(a) <= Exponent(c)
  {
    hide Exponent, Mantissa, Pow10;
    if Exponent(c) < Exponent(a) {
      LargerExponentWins(Mantissa(c), Exponent(c), Mantissa(a), Exponent(a));
    }
  }

  /** Non-negative numbers whose exact sum is below the limit can be added. */
  lemma SumFits(a: int, b: int)
    requires NonNegative(a) && NonNegative(b) && Value(a) + Value(b) < LIMIT
    ensures Sum(a, b) != INVALID
  {
    hide Exponent, Mantissa, Make, Pow10, Aligned, Value;
    ZeroMantissa();
    if a != 0 && b != 0 {
      var e, s := Max(Exponent(a), Exponent(b)), Aligned(a, b);
      AlignedNear(a, b);
      SumFailsIff(a, b);
      AlignedLarge(a, b);
      Times(MIN_MANTISSA, s, Pow10(e + 97));
      TenUnits(e);
      if s > MAX_MANTISSA && e == MAX_EXPONENT {
        Times(MAX_MANTISSA + 1, s, Pow10(e + 97));
      }
    }
  }

  lemma TenUnits(e: int)
    requires e >= MIN_EXPONENT
    ensures MIN_MANTISSA * Pow10(e + 97) >= 10 * MIN_MANTISSA
  {
    Pow10Grows(1, e + 97);
    assert Pow10(1) == 10;
  }

  lemma AlignedLarge(a: int, b: int)
    requires NonNegative(a) && NonNegative(b) && a != 0 && b != 0
    ensures Aligned(a, b) >= MIN_MANTISSA
  {
    hide Exponent, Mantissa, Pow10, Align;
    if Exponent(a) <= Exponent(b) {
      AlignNone(Mantissa(b), Exponent(a) - Exponent(b));
      AlignError(Mantissa(a), Exponent(b) - Exponent(a), 1);
    } else {
      AlignNone(Mantissa(a), Exponent(b) - Exponent(a));
      AlignError(Mantissa(b), Exponent(a) - Exponent(b), 1);
    }
  }

  /** The aggregate after the first `n` rows. */
  function Fold(cs: seq<int>, n: int): int
    requires 0 <= n <= |cs|
  {
    if n == 0 then 0 else Sum(Fold(cs, n - 1), cs[n - 1])
  }

  function Exact(cs: seq<int>, n: int): int
    requires 0 <= n <= |cs|
  {
    if n == 0 then 0 else Exact(cs, n - 1) + Value(cs[n - 1])
  }

  ghost predicate AllNonNegative(cs: seq<int>) {
    forall i :: 0 <= i < |cs| ==> NonNegative(cs[i])
  }

  /** What one row adds: the sum is no smaller than before, and short by less than ten units of its own exponent. */
  lemma StepKeeps(f: int, c: int)
    requires NonNegative(f) && NonNegative(c) && Value(f) + Value(c) < LIMIT
    ensures NonNegative(Sum(f, c)) && Value(f) <= Value(Sum(f, c)) <= Value(f) + Value(c)
    ensures Value(f) + Value(c) - Value(Sum(f, c)) < Pow10(Exponent(Sum(f, c)) + 98)
    ensures f != 0 ==> Sum(f, c) != 0 && Exponent(f) <= Exponent(Sum(f, c))
    ensures f == 0 ==> Sum(f, c) == c
  {
    hide Exponent, Mantissa, Value, Aligned, Make;
    var r := Sum(f, c);
    SumFits(f, c);
    SumError(f, c);
    ValueSign(f);
    ValueSign(c);
    ValueSign(r);
    ZeroMantissa();
    if f != 0 && c != 0 {
      SumAtLeast(f, c);
      ExponentGrows(f, r);
      ExponentGrows(c, r);
      Pow10Grows(RoundedAt(f, c) + 98, Exponent(r) + 98);
    }
  }

  ghost predicate ShortBy(exact: int, f: int, n: int) {
    Value(f) <= exact && (f == 0 ==> exact == 0) && (n > 0 ==> exact - Value(f) < n * Pow10(Exponent(f) + 98))
    && (n == 0 ==> exact == Value(f))
  }

  lemma ShortByStep(exact: int, f: int, c: int, n: int)
    requires NonNegative(f) && NonNegative(c) && n >= 0 && ShortBy(exact, f, n) && Value(f) + Value(c) < LIMIT
    ensures ShortBy(exact + Value(c), Sum(f, c), n + 1)
  {
    hide Exponent, Mantissa, Value, Sum, NonNegative, LIMIT;
    StepKeeps(f, c);
    ZeroMantissa();
    var q := Pow10(Exponent(Sum(f, c)) + 98);
    Accumulates(n, q, q);
    if f != 0 {
      Pow10Grows(Exponent(f) + 98, Exponent(Sum(f, c)) + 98);
      Accumulates(n, Pow10(Exponent(f) + 98), q);
    }
  }

  lemma Accumulates(n: int, p: int, q: int)
    requires n >= 0 && 0 < p <= q
    ensures n * p + q <= (n + 1) * q && 0 <= n * q
  {
    Times(p, q, n + 1);
    assert (n + 1) * p == n * p + p && (n + 1) * q == n * q + q;
  }

  /**
   Adding up `n` non-negative numbers with exact total below the limit never fails; the result never
   exceeds the exact total and is short of it by less than `n` times ten units of its own exponent.
   */
  lemma {:induction false} FoldBounds(cs: seq<int>, n: int)
    requires 0 <= n <= |cs| && AllNonNegative(cs) && Exact(cs, n) < LIMIT
    ensures NonNegative(Fold(cs, n)) && ShortBy(Exact(cs, n), Fold(cs, n), n)
  {
    hide NonNegative, Value, Sum, ShortBy, LIMIT;
    if n == 0 {
      FoldNone();
    } else {
      ExactGrows(cs, n);
      FoldBounds(cs, n - 1);
      FoldStep(Exact(cs, n - 1), Fold(cs, n - 1), cs[n - 1], n - 1);
    }
  }

  lemma FoldNone()
    ensures NonNegative(0) && ShortBy(0, 0, 0)
  {
  }

  lemma ExactGrows(cs: seq<int>, n: int)
    requires 0 < n <= |cs| && AllNonNegative(cs)
    ensures Exact(cs, n - 1) <= Exact(cs, n)
  {
    hide Value;
    ValueSign(cs[n - 1]);
  }

  lemma FoldStep(exact: int, f: int, c: int, n: int)
    requires NonNegative(f) && NonNegative(c) && n >= 0 && ShortBy(exact, f, n) && exact + Value(c) < LIMIT
    ensures NonNegative(Sum(f, c)) && ShortBy(exact + Value(c), Sum(f, c), n + 1)
  {
    hide Value, NonNegative, Sum, Exponent;
    ShortByStep(exact, f, c, n);
    StepKeeps(f, c);
  }

  /** Each row leaves the aggregate's code where it is or raises it. */
  lemma FoldAscends(cs: seq<int>, n: int)
    requires 0 < n <= |cs| && AllNonNegative(cs) && Exact(cs, n) < LIMIT
    ensures Fold(cs, n - 1) <= Fold(cs, n)
  {
    hide Value, Mantissa, Sum, Exponent, LIMIT;
    ExactGrows(cs, n);
    FoldBounds(cs, n - 1);
    StepKeeps(Fold(cs, n - 1), cs[n - 1]);
    ValueSign(Fold(cs, n));
    ValueSign(Fold(cs, n - 1));
    OrderIff(Fold(cs, n), Fold(cs, n - 1));
  }

  /** Relative to the result, the shortfall is below `n` parts in 10^14. */
  lemma FoldRelativeError(cs: seq<int>, n: int)
    requires 0 < n <= |cs| && AllNonNegative(cs) && Exact(cs, n) < LIMIT && Exact(cs, n) > 0
    ensures (Exact(cs, n) - Value(Fold(cs, n))) * 100_000_000_000_000 < n * Value(Fold(cs, n))
  {
    hide Exponent, Mantissa, Fold, Exact;
    FoldBounds(cs, n);
    var f := Fold(cs, n);
    var p, u := Pow10(Exponent(f) + 97), Pow10(Exponent(f) + 98);
    Times(MIN_MANTISSA, Mantissa(f), p);
    assert u == 10 * p;
    assert MIN_MANTISSA * p == 100_000_000_000_000 * u;
    Shrinks(Exact(cs, n) - Value(f), n, u, Value(f));
  }

  lemma Shrinks(short: int, n: int, u: int, v: int)
    requires short < n * u && 100_000_000_000_000 * u <= v && n > 0
    ensures short * 100_000_000_000_000 < n * v
  {
    assert n * (100_000_000_000_000 * u) <= n * v;
    assert n * (100_000_000_000_000 * u) == 100_000_000_000_000 * (n * u);
  }

  /** Added to the error code, a number of exponent 0 or more comes out unchanged. */
  lemma InvalidIsForgotten(c: int)
    requires Valid(c) && c != 0 && Exponent(c) >= 0
    ensures Sum(INVALID, c) == c
  {
    hide Make, Align;
    DecodeMakes(c);
    AlignNone(Mantissa(c), INVALID - Exponent(c));
    AlignMinusOne(Exponent(c) + 1);
  }

  lemma {:induction false} AlignMinusOne(n: int)
    requires n > 0
    ensures Align(-1, n) == 0
  {
    AlignZero(n - 1);
  }

  lemma {:induction false} AlignZero(n: int)
    ensures Align(0, n) == 0
    decreases n
  {
    if n > 0 {
      AlignZero(n - 1);
    }
  }

  /** Added to the error code, a mantissa meets at most the one unit the code decodes to. */
  lemma InvalidAligned(c: int)
    requires Valid(c) && c != 0
    ensures Abs(Aligned(INVALID, c)) <= MAX_MANTISSA + 1
    ensures Exponent(c) >= 0 ==> Aligned(INVALID, c) == Mantissa(c)
  {
    hide Align, NormalRange;
    InvalidDecodes();
    var n := Exponent(c) + 1;
    if Exponent(c) >= 0 {
      AlignNone(Mantissa(c), -n);
      AlignMinusOne(n);
      assert NormalRange(Mantissa(c), Exponent(c));
      NormalMagnitude(Mantissa(c), Exponent(c));
    } else {
      NormalMagnitude(Mantissa(c), Exponent(c));
      AlignNone(-1, n);
      AlignError(Mantissa(c), -n, 1);
    }
  }

  lemma InvalidDecodes()
    ensures Mantissa(INVALID) == -1 && Exponent(INVALID) == -1
  {
  }

  lemma NormalMagnitude(m: int, e: int)
    requires NormalRange(m, e)
    ensures 0 < Abs(m) <= MAX_MANTISSA && e <= MAX_EXPONENT
  {
  }

  lemma LargeUnits(m: int, e: int)
    requires m != 0 && e >= -1
    ensures Abs(m) * Pow10(e + 97) >= 10 * MIN_MANTISSA
  {
    Pow10Grows(16, e + 97);
    SixteenDigits();
    Times(1, Abs(m), Pow10(e + 97));
  }

  lemma SixteenDigits()
    ensures Pow10(16) == 10 * MIN_MANTISSA
  {
    assert Pow10(8) == 100_000_000;
    Pow10Add(8, 8);
  }

  /** The error code survives adding a number exactly if the number is zero. */
  lemma InvalidSurvivesIff(c: int)
    requires Valid(c)
    ensures Sum(INVALID, c) == INVALID <==> c == 0
  {
    hide Mantissa, Exponent, Make, Aligned, Pow10;
    InvalidDecodes();
    ZeroMantissa();
    if c != 0 {
      var m, e := Aligned(INVALID, c), Max(-1, Exponent(c));
      InvalidAligned(c);
      NormalMagnitude(Mantissa(c), Exponent(c));
      if m == 0 {
        MakeZero(e);
      } else {
        LargeUnits(m, e);
        MakeFailsIff(m, e);
      }
    }
  }

  /** Nothing is cut off where no digit is too many, or where the one too many is a zero. */
  lemma MakeExact(m: int, e: int)
    requires m != 0 && Abs(m) <= MAX_MANTISSA + 1 && MIN_EXPONENT <= e <= MAX_EXPONENT && Make(m, e) != INVALID
    ensures Value(Make(m, e)) == m * Pow10(e + 97)
  {
    hide Mantissa, Exponent, Pack, Normal;
    var d := Decimal(Abs(m), e);
    NormalNearly(d);
    NormalExact(d);
    var r := Normal(d).value;
    PackDecodes(m < 0, r);
    Mirrored(r.m, Abs(m), Pow10(r.e + 97), Pow10(e + 97));
  }

  lemma NormalExact(d: Decimal)
    requires 0 < d.m <= MAX_MANTISSA + 1 && MIN_EXPONENT <= d.e <= MAX_EXPONENT && Normal(d).Some?
    ensures Normal(d).value.m * Pow10(Normal(d).value.e + 97) == d.m * Pow10(d.e + 97)
  {
    RaiseExact(d);
    if d.m > MAX_MANTISSA {
      LowerOnce(d);
      var u := Pow10(d.e + 97);
      assert Pow10(d.e + 98) == 10 * u;
      assert d.m / 10 == MIN_MANTISSA && d.m == 10 * MIN_MANTISSA;
      assert MIN_MANTISSA * (10 * u) == 10 * MIN_MANTISSA * u;
    }
  }

  /** Below exponent 0 the error code counts as a loss of at least a tenth. */
  lemma InvalidLowers(c: int)
    requires Valid(c) && c != 0 && Exponent(c) < 0
    ensures Value(Sum(INVALID, c)) != Value(c)
  {
    hide Mantissa, Exponent, Make, Align, Value, NormalRange;
    InvalidDecodes();
    InvalidAligned(c);
    InvalidSurvivesIff(c);
    NormalMagnitude(Mantissa(c), Exponent(c));
    var a, u := Align(Mantissa(c), -1 - Exponent(c)), Pow10(96);
    AlignsTo(c, -1);
    AlignNone(-1, Exponent(c) + 1);
    assert (a - 1) * u == a * u - u;
    if a != 1 {
      MakeExact(a - 1, -1);
    } else {
      MakeZero(-1);
      ZeroMantissa();
    }
  }

  /** Added to the error code, a nonzero number comes out unchanged exactly from exponent 0 on. */
  lemma InvalidForgottenIff(c: int)
    requires Valid(c) && c != 0
    ensures Sum(INVALID, c) == c <==> Exponent(c) >= 0
  {
    hide Sum, Valid, Value;
    if Exponent(c) >= 0 {
      InvalidIsForgotten(c);
    } else {
      InvalidLowers(c);
    }
  }

  ghost predicate AllValid(cs: seq<int>) {
    forall i :: 0 <= i < |cs| ==> Valid(cs[i])
  }

  ghost predicate AllZero(cs: seq<int>, m: int, n: int)
    requires 0 <= m <= n <= |cs|
  {
    forall i :: m <= i < n ==> cs[i] == 0
  }

  ghost predicate AllInvalid(cs: seq<int>, m: int, n: int)
    requires 0 <= m <= n <= |cs|
  {
    forall k :: m <= k <= n ==> Fold(cs, k) == INVALID
  }

  /**
   An aggregate that has failed still says so after any later rows exactly if all of them so far were
   zero: the first other row starts it afresh.
   */
  lemma {:induction false} FailureShowsIff(cs: seq<int>, m: int, n: int)
    requires 0 <= m <= n <= |cs| && AllValid(cs) && Fold(cs, m) == INVALID
    ensures AllInvalid(cs, m, n) <==> AllZero(cs, m, n)
    decreases n
  {
    hide Sum, Valid;
    if m < n {
      FailureShowsIff(cs, m, n - 1);
      InvalidSurvivesIff(cs[n - 1]);
      assert Fold(cs, n) == Sum(Fold(cs, n - 1), cs[n - 1]);
      assert AllZero(cs, m, n) <==> AllZero(cs, m, n - 1) && cs[n - 1] == 0;
      assert AllInvalid(cs, m, n) <==> AllInvalid(cs, m, n - 1) && Fold(cs, n) == INVALID;
      assert AllInvalid(cs, m, n - 1) ==> Fold(cs, n - 1) == INVALID;
    }
  }

  /** Twice the largest number and then 10^15: the aggregate fails at the second row and ends as the third. */
  lemma FailureLost()
    ensures var big, small := Make(MAX_MANTISSA, MAX_EXPONENT), Make(MIN_MANTISSA, 0);
            AllNonNegative([big, big, small]) && Fold([big, big, small], 2) == INVALID
              && Fold([big, big, small], 3) == small
  {
    hide Make, Mantissa, Exponent, Sum, Value;
    var big, small := Make(MAX_MANTISSA, MAX_EXPONENT), Make(MIN_MANTISSA, 0);
    MakeDecodes(MAX_MANTISSA, MAX_EXPONENT);
    MakeDecodes(MIN_MANTISSA, 0);
    ZeroMantissa();
    var rows := [big, big, small];
    assert Fold(rows, 1) == big by { SumFromZero(big); }
    assert Fold(rows, 2) == INVALID by { BigTwiceFails(big); }
    InvalidIsForgotten(small);
  }

  lemma SumFromZero(c: int)
    ensures Sum(0, c) == c
  {
  }

  lemma BigTwiceFails(big: int)
    requires Valid(big) && big != 0 && Mantissa(big) == MAX_MANTISSA && Exponent(big) == MAX_EXPONENT
    ensures Sum(big, big) == INVALID
  {
    hide Make, Mantissa, Exponent, Sum;
    AlignNone(Mantissa(big), 0);
    SumFailsIff(big, big);
  }

  // ---- Results fit 64 bits ----

  lemma {:induction false} RaiseFits(d: Decimal)
    requires d.m > 0 && -97 <= d.e <= 158
    ensures Raise(d).Some? ==> Raise(d).value.m > 0 && -97 <= Raise(d).value.e <= 158
    decreases MIN_MANTISSA - d.m
  {
    if d.m < MIN_MANTISSA && d.e - 1 >= MIN_EXPONENT {
      RaiseFits(Decimal(d.m * 10, d.e - 1));
    }
  }

  lemma {:induction false} LowerFits(d: Decimal)
    requires d.m > 0 && -97 <= d.e <= 158
    ensures Lower(d).Some? ==> 0 < Lower(d).value.m <= MAX_MANTISSA && -97 <= Lower(d).value.e <= 158
    decreases d.m
  {
    if d.m > MAX_MANTISSA && d.e + 1 <= MAX_EXPONENT {
      LowerFits(Decimal(d.m / 10, d.e + 1));
    }
  }

  lemma MakeInt64(m: int, e: int)
    requires -97 <= e <= 158
    ensures Int64(Make(m, e))
  {
    hide Pack;
    var d := Decimal(Abs(m), e);
    if m != 0 {
      RaiseFits(d);
      if Raise(d).Some? {
        LowerFits(Raise(d).value);
        if Normal(d).Some? {
          PackDecodes(m < 0, Normal(d).value);
        }
      }
    }
  }

  lemma SumInt64(a: int, b: int)
    requires Int64(a) && Int64(b)
    ensures Int64(Sum(a, b))
  {
    hide Make, Exponent, Mantissa;
    MakeInt64(Aligned(a, b), Max(Exponent(a), Exponent(b)));
  }

  // ---- The loops ----

  method XflMake(m: int, e: int) returns (code: int)
    requires -TWO63 < m < TWO63 && -97 <= e <= 158
    ensures code == Make(m, e)
  {
    if m == 0 {
      return 0;
    }
    var negative, mantissa, exponent := m < 0, Abs(m), e;
    while mantissa < MIN_MANTISSA
      invariant mantissa > 0
      invariant Raise(Decimal(mantissa, exponent)) == Raise(Decimal(Abs(m), e))
      decreases MIN_MANTISSA - mantissa
    {
      mantissa, exponent := mantissa * 10, exponent - 1;
      if exponent < MIN_EXPONENT {
        return INVALID;
      }
    }
    while mantissa > MAX_MANTISSA
      invariant mantissa >= 0
      invariant Lower(Decimal(mantissa, exponent)) == Normal(Decimal(Abs(m), e))
      decreases mantissa
    {
      mantissa, exponent := mantissa / 10, exponent + 1;
      if exponent > MAX_EXPONENT {
        return INVALID;
      }
    }
    return Pack(negative, Decimal(mantissa, exponent));
  }

  method XflSum(a: int, b: int) returns (sum: int)
    requires Int64(a) && Int64(b)
    ensures sum == Sum(a, b)
  {
    hide Make, Mantissa, Exponent;
    var am, ae, bm, be := Mantissa(a), Exponent(a), Mantissa(b), Exponent(b);
    if am == 0 {
      return b;
    }
    if bm == 0 {
      return a;
    }
    while ae < be
      invariant Align(am, be - ae) == Align(Mantissa(a), Exponent(b) - Exponent(a))
      invariant ae <= Max(Exponent(a), Exponent(b))
      invariant ae >= Exponent(a)
      decreases be - ae
    {
      am, ae := Tenth(am), ae + 1;
    }
    while be < ae
      invariant Align(bm, ae - be) == Align(Mantissa(b), Exponent(a) - Exponent(b))
      decreases ae - be
    {
      bm, be := Tenth(bm), be + 1;
    }
    sum := Make(am + bm, ae);
  }

  /** The window aggregate's context. */
  class Aggregate {
    var currentSum: int

    constructor ()
      ensures Ready() && currentSum == 0
    {
      currentSum := 0;
    }

    predicate Ready()
      reads this
    {
      Int64(currentSum)
    }

    method Step(value: int)
      requires Ready() && Int64(value)
      modifies this
      ensures Ready() && currentSum == Sum(old(currentSum), value)
    {
      SumInt64(currentSum, value);
      currentSum := XflSum(currentSum, value);
    }

    method Inverse(value: int)
      requires Ready() && Int64(value)
      modifies this
      ensures Ready() && currentSum == Sub(old(currentSum), value)
    {
      MakeInt64(-Mantissa(value), Exponent(value));
      SumInt64(currentSum, InvertSign(value));
      currentSum := XflSum(currentSum, InvertSign(value));
    }
  }

  /** Adding up the rows of a query. */
  method XflSumOf(rows: seq<int>) returns (sum: int)
    requires AllNonNegative(rows)
    ensures sum == Fold(rows, |rows|)
  {
    hide NonNegative, Value, Sum, LIMIT;
    var context := new Aggregate();
    for i := 0 to |rows|
      invariant context.Ready() && context.currentSum == Fold(rows, i)
    {
      assert Int64(rows[i]) by { ValidInt64(rows[i]); }
      context.Step(rows[i]);
    }
    sum := context.currentSum;
  }

  lemma ValidInt64(c: int)
    ensures NonNegative(c) ==> Int64(c)
  {
  }
}
