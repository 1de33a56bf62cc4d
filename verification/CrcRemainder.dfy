/**
 The check value as a remainder: bits are the coefficients of a polynomial over the integers modulo 2,
 the first one the highest, and a polynomial is the set of the exponents it has.
 */
module CrcRemainder {
  import opened Crc

  type Poly = set<nat>

  // The generator of section 3.2.9 of IEEE 802.3.
  const GENERATOR: Poly := {32, 26, 23, 22, 16, 12, 11, 10, 8, 7, 5, 4, 2, 1, 0}

  // Sums and differences are the same modulo 2.
  function Plus(a: Poly, b: Poly): (c: Poly)
    ensures forall e :: e in c <==> (e in a) != (e in b)
  {
    (a - b) + (b - a)
  }

  // x times a
  function Times(a: Poly): (c: Poly)
    ensures forall e :: e in c <==> e > 0 && e - 1 in a
  {
    set e | e in a :: e + 1
  }

  // x^k times a
  function Raised(a: Poly, k: nat): Poly {
    if k == 0 then a else Times(Raised(a, k - 1))
  }

  function PolyOf(s: seq<bool>): Poly {
    if s == [] then {} else Plus(Times(PolyOf(s[..|s| - 1])), if s[|s| - 1] then {0} else {})
  }

  // The product with the generator, one coefficient of the other factor after the other.
  function Product(q: seq<bool>): Poly {
    if q == [] then {} else Grown(Product(q[..|q| - 1]), q[|q| - 1])
  }

  function Grown(p: Poly, u: bool): Poly {
    Plus(Times(p), Taken(u))
  }

  function Taken(u: bool): Poly {
    if u then GENERATOR else {}
  }

  // The register's bits are the coefficients of a polynomial of degree below 32, its lowest bit the highest.
  predicate Coefficient(c: Word, e: nat) {
    e < 32 && c[31 - e]
  }

  function Register(c: Word): (p: Poly)
    ensures forall e :: e in p <==> Coefficient(c, e)
  {
    set e: nat | e < 32 && Coefficient(c, e)
  }

  // A hexadecimal digit of a number, the lowest first.
  function Digit(n: nat, j: nat): nat {
    if j == 0 then n % 16 else Digit(n / 16, j - 1)
  }

  lemma LowDigit(n: nat, r: nat)
    requires r < 4
    ensures Half(n, r) % 2 == Half(n % 16, r) % 2
  {
    var q, m := n / 16, n % 16;
    assert n == 16 * q + m;
    assert n / 2 == 8 * q + m / 2 && n / 2 / 2 == 4 * q + m / 2 / 2 && n / 2 / 2 / 2 == 2 * q + m / 2 / 2 / 2;
    HalfThree(n);
    HalfThree(m);
  }

  lemma HalfThree(n: nat)
    ensures Half(n, 0) == n && Half(n, 1) == n / 2 && Half(n, 2) == n / 2 / 2 && Half(n, 3) == n / 2 / 2 / 2
  {
    assert Half(n, 1) == Half(n / 2, 0);
    assert Half(n, 2) == Half(n / 2, 1) == Half(n / 2 / 2, 0);
    assert Half(n, 3) == Half(n / 2, 2) == Half(n / 2 / 2, 1) == Half(n / 2 / 2 / 2, 0);
  }

  lemma {:induction false} BitOfDigit(n: nat, j: nat, r: nat)
    requires r < 4
    ensures Half(n, 4 * j + r) % 2 == Half(Digit(n, j), r) % 2
    decreases j
  {
    if j == 0 {
      LowDigit(n, r);
    } else {
      HalfAdd(n, 4, 4 * (j - 1) + r);
      HalfFour(n);
      BitOfDigit(n / 16, j - 1, r);
    }
  }

  lemma {:induction false} DigitsDown(n: nat, d: seq<nat>)
    requires |d| > 0 && n == Value(d) && forall i :: 0 <= i < |d| ==> d[i] < 16
    ensures forall j :: 0 <= j < |d| ==> Digit(n, j) == d[j]
    decreases |d|
  {
    var more := Value(d[1..]);
    assert n == 16 * more + d[0];
    assert n / 16 == more && n % 16 == d[0];
    if |d| > 1 {
      DigitsDown(more, d[1..]);
    }
    forall j | 0 <= j < |d| ensures Digit(n, j) == d[j] {
      if j > 0 {
        assert d[j] == d[1..][j - 1];
      }
    }
  }

  // What the digits stand for.
  function Value(d: seq<nat>): nat {
    if d == [] then 0 else 16 * Value(d[1..]) + d[0]
  }

  lemma NextDigit(a: nat, more: seq<nat>)
    ensures Value([a] + more) == 16 * Value(more) + a
  {
    assert ([a] + more)[1..] == more;
  }

  lemma FourDigits(a: nat, b: nat, c: nat, d: nat, more: seq<nat>)
    ensures Value([a, b, c, d] + more) == 0x1_0000 * Value(more) + (0x1000 * d + 0x100 * c + 0x10 * b + a)
  {
    var s3, s2, s1 := [d] + more, [c] + ([d] + more), [b] + ([c] + ([d] + more));
    NextDigit(d, more);
    NextDigit(c, s3);
    NextDigit(b, s2);
    NextDigit(a, s1);
    assert [a, b, c, d] + more == [a] + s1;
  }

  // The digits of the source's constant
  lemma PolynomialDigits(n: nat)
    requires n == 0xEDB8_8320
    ensures Digit(n, 0) == 0x0 && Digit(n, 1) == 0x2 && Digit(n, 2) == 0x3 && Digit(n, 3) == 0x8
    ensures Digit(n, 4) == 0x8 && Digit(n, 5) == 0xB && Digit(n, 6) == 0xD && Digit(n, 7) == 0xE
  {
    var low, high: seq<nat> := [0x0, 0x2, 0x3, 0x8], [0x8, 0xB, 0xD, 0xE];
    FourDigits(0x8, 0xB, 0xD, 0xE, []);
    assert high + [] == high;
    FourDigits(0x0, 0x2, 0x3, 0x8, high);
    DigitsDown(n, low + high);
  }

  lemma BitOfNumber(n: nat, j: nat, r: nat)
    requires j < 8 && r < 4
    ensures BitsOf(n, 32)[4 * j + r] == (Half(Digit(n, j), r) % 2 == 1)
  {
    BitAt(n, 32, 4 * j + r);
    BitOfDigit(n, j, r);
  }

  lemma PolynomialIs(n: nat)
    requires n == 0xEDB8_8320
    ensures POLYNOMIAL == BitsOf(n, 32)
  {
  }

  // A word has the digits of a number.
  predicate HasBit(w: Word, n: nat, j: nat, r: nat)
    requires j < 8 && r < 4
  {
    w[4 * j + r] == (Half(Digit(n, j), r) % 2 == 1)
  }

  ghost predicate HasDigits(w: Word, n: nat) {
    forall j, r :: 0 <= j < 8 && 0 <= r < 4 ==> HasBit(w, n, j, r)
  }

  lemma NumberHasDigits(w: Word, n: nat)
    requires w == BitsOf(n, 32)
    ensures HasDigits(w, n)
  {
    forall j, r | 0 <= j < 8 && 0 <= r < 4 ensures HasBit(w, n, j, r) {
      BitOfNumber(n, j, r);
    }
  }

  lemma PolynomialHasDigits(n: nat)
    requires n == 0xEDB8_8320
    ensures HasDigits(POLYNOMIAL, n)
  {
    PolynomialIs(n);
    NumberHasDigits(BitsOf(n, 32), n);
  }

  lemma Digit0(w: Word, n: nat)
    requires HasDigits(w, n) && Digit(n, 0) == 0x0
    ensures !w[0] && !w[1] && !w[2] && !w[3]
  {
    HalfThree(0x0);
    assert HasBit(w, n, 0, 0) && HasBit(w, n, 0, 1) && HasBit(w, n, 0, 2) && HasBit(w, n, 0, 3);
  }

  lemma Digit1(w: Word, n: nat)
    requires HasDigits(w, n) && Digit(n, 1) == 0x2
    ensures !w[4] && w[5] && !w[6] && !w[7]
  {
    HalfThree(0x2);
    assert HasBit(w, n, 1, 0) && HasBit(w, n, 1, 1) && HasBit(w, n, 1, 2) && HasBit(w, n, 1, 3);
  }

  lemma Digit2(w: Word, n: nat)
    requires HasDigits(w, n) && Digit(n, 2) == 0x3
    ensures w[8] && w[9] && !w[10] && !w[11]
  {
    HalfThree(0x3);
    assert HasBit(w, n, 2, 0) && HasBit(w, n, 2, 1) && HasBit(w, n, 2, 2) && HasBit(w, n, 2, 3);
  }

  lemma Digit3(w: Word, n: nat)
    requires HasDigits(w, n) && Digit(n, 3) == 0x8
    ensures !w[12] && !w[13] && !w[14] && w[15]
  {
    HalfThree(0x8);
    assert HasBit(w, n, 3, 0) && HasBit(w, n, 3, 1) && HasBit(w, n, 3, 2) && HasBit(w, n, 3, 3);
  }

  lemma Digit4(w: Word, n: nat)
    requires HasDigits(w, n) && Digit(n, 4) == 0x8
    ensures !w[16] && !w[17] && !w[18] && w[19]
  {
    HalfThree(0x8);
    assert HasBit(w, n, 4, 0) && HasBit(w, n, 4, 1) && HasBit(w, n, 4, 2) && HasBit(w, n, 4, 3);
  }

  lemma Digit5(w: Word, n: nat)
    requires HasDigits(w, n) && Digit(n, 5) == 0xB
    ensures w[20] && w[21] && !w[22] && w[23]
  {
    HalfThree(0xB);
    assert HasBit(w, n, 5, 0) && HasBit(w, n, 5, 1) && HasBit(w, n, 5, 2) && HasBit(w, n, 5, 3);
  }

  lemma Digit6(w: Word, n: nat)
    requires HasDigits(w, n) && Digit(n, 6) == 0xD
    ensures w[24] && !w[25] && w[26] && w[27]
  {
    HalfThree(0xD);
    assert HasBit(w, n, 6, 0) && HasBit(w, n, 6, 1) && HasBit(w, n, 6, 2) && HasBit(w, n, 6, 3);
  }

  lemma Digit7(w: Word, n: nat)
    requires HasDigits(w, n) && Digit(n, 7) == 0xE
    ensures !w[28] && w[29] && w[30] && w[31]
  {
    HalfThree(0xE);
    assert HasBit(w, n, 7, 0) && HasBit(w, n, 7, 1) && HasBit(w, n, 7, 2) && HasBit(w, n, 7, 3);
  }

  predicate LowerBits(w: Word) {
    && !w[0] && !w[1] && !w[2] && !w[3]
    && !w[4] && w[5] && !w[6] && !w[7]
    && w[8] && w[9] && !w[10] && !w[11]
    && !w[12] && !w[13] && !w[14] && w[15]
  }

  predicate UpperBits(w: Word) {
    && !w[16] && !w[17] && !w[18] && w[19]
    && w[20] && w[21] && !w[22] && w[23]
    && w[24] && !w[25] && w[26] && w[27]
    && !w[28] && w[29] && w[30] && w[31]
  }

  lemma LowerAt(w: Word, k: nat)
    requires LowerBits(w) && 0 <= k < 16
    ensures w[k] <==> 31 - k in GENERATOR
  {
  }

  lemma UpperAt(w: Word, k: nat)
    requires UpperBits(w) && 16 <= k < 32
    ensures w[k] <==> 31 - k in GENERATOR
  {
  }

  lemma BitsKnown(w: Word, n: nat)
    requires n == 0xEDB8_8320 && HasDigits(w, n)
    ensures LowerBits(w) && UpperBits(w)
  {
    PolynomialDigits(n);
    Digit0(w, n);
    Digit1(w, n);
    Digit2(w, n);
    Digit3(w, n);
    Digit4(w, n);
    Digit5(w, n);
    Digit6(w, n);
    Digit7(w, n);
  }

  lemma WordAt(w: Word, n: nat, e: nat)
    requires n == 0xEDB8_8320 && HasDigits(w, n)
    ensures Coefficient(w, e) <==> e in GENERATOR && e != 32
  {
    BitsKnown(w, n);
    if e < 16 {
      UpperAt(w, 31 - e);
    } else if e < 32 {
      LowerAt(w, 31 - e);
    }
  }

  /** The constant of the source has the bits of the generator below x^32, in reverse. */
  lemma GeneratorBits(e: nat)
    ensures Coefficient(POLYNOMIAL, e) <==> e in GENERATOR && e != 32
  {
    PolynomialHasDigits(0xEDB8_8320);
    WordAt(POLYNOMIAL, 0xEDB8_8320, e);
  }

  // ---- Division ----

  lemma TimesPlus(a: Poly, b: Poly)
    ensures Times(Plus(a, b)) == Plus(Times(a), Times(b))
  {
  }

  lemma {:induction false} RaisedPlus(a: Poly, b: Poly, k: nat)
    ensures Raised(Plus(a, b), k) == Plus(Raised(a, k), Raised(b, k))
  {
    if k > 0 {
      RaisedPlus(a, b, k - 1);
      TimesPlus(Raised(a, k - 1), Raised(b, k - 1));
    }
  }

  lemma {:induction false} RaisedTimes(a: Poly, k: nat)
    ensures Raised(Times(a), k) == Times(Raised(a, k))
  {
    if k > 0 {
      RaisedTimes(a, k - 1);
    }
  }

  lemma {:induction false} RaisedAt(a: Poly, k: nat)
    ensures forall e :: e in Raised(a, k) <==> e >= k && e - k in a
  {
    if k > 0 {
      RaisedAt(a, k - 1);
    }
  }

  // What one bit of data makes of the register's polynomial: times x, the bit added at x^32, and the
  // generator taken away if that leaves x^32 there.
  function Divided(r: Poly, x: bool, u: bool): Poly {
    Plus(Plus(Times(r), if x then {32} else {}), if u then GENERATOR else {})
  }

  lemma CoefficientStep(c: Word, x: bool, e: nat)
    requires e < 32
    ensures Coefficient(Absorb(c, x), e) <==> ((e > 0 && Coefficient(c, e - 1)) != (c[0] != x && Coefficient(POLYNOMIAL, e)))
  {
    var d := c[0 := c[0] != x];
    BitStepAt(d, 31 - e);
    assert e > 0 ==> d[32 - e] == c[32 - e];
  }

  lemma DividedAt(c: Word, x: bool, e: nat)
    ensures e in Divided(Register(c), x, c[0] != x) <==> e < 32 && ((e > 0 && Coefficient(c, e - 1)) != (c[0] != x && Coefficient(POLYNOMIAL, e)))
  {
    GeneratorBits(e);
    assert Coefficient(c, 31) == c[0];
    assert e > 0 ==> (e - 1 in Register(c) <==> Coefficient(c, e - 1));
  }

  lemma AbsorbDivides(c: Word, x: bool)
    ensures Register(Absorb(c, x)) == Divided(Register(c), x, c[0] != x)
  {
    forall e: nat ensures e in Register(Absorb(c, x)) <==> e in Divided(Register(c), x, c[0] != x) {
      DividedAt(c, x, e);
      if e < 32 {
        CoefficientStep(c, x, e);
      }
    }
  }

  // The factor of the generator that the steps take away, one coefficient a bit.
  function Quotient(c: Word, s: seq<bool>): (q: seq<bool>)
    ensures |q| == |s|
  {
    if s == [] then []
    else Quotient(c, s[..|s| - 1]) + [AbsorbAll(c, s[..|s| - 1])[0] != s[|s| - 1]]
  }

  lemma AbsorbLast(c: Word, s: seq<bool>)
    requires s != []
    ensures AbsorbAll(c, s) == Absorb(AbsorbAll(c, s[..|s| - 1]), s[|s| - 1])
  {
    var front, last := s[..|s| - 1], [s[|s| - 1]];
    assert s == front + last;
    AbsorbAppend(c, front, last);
    assert last[1..] == [];
  }

  lemma Rearranged(p: Poly, r: Poly, x: bool, u: bool)
    ensures Plus(Times(Plus(p, r)), if x then {32} else {}) ==
              Plus(Plus(Times(p), if u then GENERATOR else {}), Divided(r, x, u))
  {
    TimesPlus(p, r);
    Cancelled(Times(p), Times(r), if x then {32} else {}, if u then GENERATOR else {});
  }

  lemma Cancelled(p: Poly, r: Poly, x: Poly, g: Poly)
    ensures Plus(Plus(p, r), x) == Plus(Plus(p, g), Plus(Plus(r, x), g))
  {
  }

  lemma NothingDivides()
    ensures Raised(PolyOf([]), 32) == {} && Register(ZERO) == {} && Product([]) == {}
  {
    RaisedAt({}, 32);
    forall e: nat ensures !Coefficient(ZERO, e) {
    }
  }

  ghost predicate IsRemainder(s: seq<bool>, c: Word) {
    Raised(PolyOf(s), 32) == Plus(Product(Quotient(ZERO, s)), Register(c))
  }

  lemma RemainderStep(front: seq<bool>, c: Word, x: bool)
    requires c == AbsorbAll(ZERO, front) && IsRemainder(front, c)
    ensures IsRemainder(front + [x], Absorb(c, x))
  {
    AbsorbDivides(c, x);
    LastBit(front, x);
    QuotientLast(front, x);
    Rearranged(Product(Quotient(ZERO, front)), Register(c), x, c[0] != x);
  }

  /**
   The register after a string of bits is the remainder, on division by the generator, of the bits'
   polynomial times x^32: the two differ by a multiple of the generator, and the degree is below 32.
   */
  lemma {:induction false} RegisterIsRemainder(s: seq<bool>)
    ensures Raised(PolyOf(s), 32) == Plus(Product(Quotient(ZERO, s)), Register(AbsorbAll(ZERO, s)))
    ensures forall e :: e in Register(AbsorbAll(ZERO, s)) ==> e < 32
    decreases |s|
  {
    if s == [] {
      NothingDivides();
    } else {
      var front, x := s[..|s| - 1], s[|s| - 1];
      assert s == front + [x];
      RegisterIsRemainder(front);
      AbsorbLast(ZERO, s);
      RemainderStep(front, AbsorbAll(ZERO, front), x);
    }
  }

  lemma LastBit(front: seq<bool>, x: bool)
    ensures Raised(PolyOf(front + [x]), 32) == Plus(Times(Raised(PolyOf(front), 32)), if x then {32} else {})
  {
    var s := front + [x];
    assert s[..|s| - 1] == front;
    RaisedPlus(Times(PolyOf(front)), if x then {0} else {}, 32);
    RaisedTimes(PolyOf(front), 32);
    RaisedBit(x);
  }

  lemma RaisedBit(x: bool)
    ensures Raised(if x then {0} else {}, 32) == if x then {32} else {}
  {
    RaisedAt(if x then {0} else {}, 32);
  }

  lemma QuotientLast(front: seq<bool>, x: bool)
    ensures Product(Quotient(ZERO, front + [x])) ==
              Plus(Times(Product(Quotient(ZERO, front))), if AbsorbAll(ZERO, front)[0] != x then GENERATOR else {})
  {
    var s := front + [x];
    assert s[..|s| - 1] == front;
    var q := Quotient(ZERO, s);
    assert q[..|q| - 1] == Quotient(ZERO, front);
  }

  // ---- The remainder is the only one ----

  lemma GrownDifference(p: Poly, q: Poly, x: bool, y: bool)
    ensures Grown(Plus(p, q), x != y) == Plus(Grown(p, x), Grown(q, y))
  {
    TimesPlus(p, q);
    var g, h := if x then GENERATOR else {}, if y then GENERATOR else {};
    assert (if x != y then GENERATOR else {}) == Plus(g, h);
    Regrouped(Times(p), Times(q), g, h);
  }

  lemma Regrouped(p: Poly, q: Poly, g: Poly, h: Poly)
    ensures Plus(Plus(p, q), Plus(g, h)) == Plus(Plus(p, g), Plus(q, h))
  {
  }

  lemma {:induction false} ProductDifference(p: seq<bool>, q: seq<bool>)
    requires |p| == |q|
    ensures Product(Difference(p, q)) == Plus(Product(p), Product(q))
    decreases |p|
  {
    if p != [] {
      var d, n := Difference(p, q), |p| - 1;
      assert d[..n] == Difference(p[..n], q[..n]);
      ProductDifference(p[..n], q[..n]);
      GrownDifference(Product(p[..n]), Product(q[..n]), p[n], q[n]);
    }
  }

  predicate Low(p: Poly) {
    forall e :: e in p ==> e < 32
  }

  lemma GeneratorDegree(e: nat)
    ensures 32 in GENERATOR && (e > 32 ==> e !in GENERATOR)
  {
  }

  lemma HighStays(p: Poly, u: bool, e: nat)
    requires e in p && e >= 32
    ensures e + 1 in Grown(p, u)
  {
    TakenDegree(u, e + 1);
    OnlyLeft(Times(p), Taken(u), e + 1);
  }

  lemma OnlyLeft(a: Poly, b: Poly, e: nat)
    requires e in a && e !in b
    ensures e in Plus(a, b)
  {
  }

  lemma TakenDegree(u: bool, e: nat)
    ensures (e > 32 ==> e !in Taken(u)) && (u ==> 32 in Taken(u)) && (!u ==> Taken(u) == {})
  {
    GeneratorDegree(e);
  }

  lemma GrownFromNothing(u: bool)
    ensures u ==> 32 in Grown({}, u)
    ensures !u ==> Grown({}, u) == {}
  {
    TakenDegree(u, 32);
    assert Times({}) == {};
  }

  lemma GrownIsHigh(p: Poly, u: bool)
    requires Low(Grown(p, u))
    ensures Low(p) && (p == {} ==> Grown(p, u) == {})
  {
    forall e | e in p ensures e < 32 {
      if e >= 32 {
        HighStays(p, u, e);
      }
    }
    GrownFromNothing(u);
  }

  // A multiple of the generator is nothing, or has a degree of 32 at least.
  lemma {:induction false} MultipleIsHigh(q: seq<bool>)
    requires Low(Product(q))
    ensures Product(q) == {}
    decreases |q|
  {
    if q != [] {
      GrownIsHigh(Product(q[..|q| - 1]), q[|q| - 1]);
      MultipleIsHigh(q[..|q| - 1]);
    }
  }

  // r is the remainder of p on division by the generator, with a quotient of n coefficients.
  ghost predicate Remainder(p: Poly, n: nat, r: Poly) {
    Low(r) && exists q: seq<bool> :: |q| == n && p == Plus(Product(q), r)
  }

  lemma Solved(a: Poly, r: Poly, b: Poly, t: Poly)
    requires Plus(a, r) == Plus(b, t)
    ensures Plus(a, b) == Plus(r, t)
  {
    forall e ensures e in Plus(a, b) <==> e in Plus(r, t) {
      assert e in Plus(a, r) <==> e in Plus(b, t);
    }
  }

  lemma NoDifference(r: Poly, t: Poly)
    requires Plus(r, t) == {}
    ensures r == t
  {
    forall e ensures e in r <==> e in t {
      assert e !in Plus(r, t);
    }
  }

  lemma RemainderIsUnique(p: Poly, n: nat, r: Poly, t: Poly)
    requires Remainder(p, n, r) && Remainder(p, n, t)
    ensures r == t
  {
    var q: seq<bool> :| |q| == n && p == Plus(Product(q), r);
    var u: seq<bool> :| |u| == n && p == Plus(Product(u), t);
    ProductDifference(q, u);
    Solved(Product(q), r, Product(u), t);
    MultipleIsHigh(Difference(q, u));
    NoDifference(r, t);
  }

  lemma RegisterInjective(c: Word, d: Word)
    requires Register(c) == Register(d)
    ensures c == d
  {
    forall i | 0 <= i < 32 ensures c[i] == d[i] {
      assert Coefficient(c, 31 - i) == c[i] && Coefficient(d, 31 - i) == d[i];
      assert (31 - i in Register(c)) == (31 - i in Register(d));
    }
  }

  /**
   A record passes exactly when its last four bytes are the remainder of its first 188 bytes times x^32
   on division by the generator of IEEE 802.3.
   */
  lemma PassesIffRemainder(record: seq<Byte>)
    requires |record| == RECORD
    ensures Passes(record) <==>
            Remainder(Raised(PolyOf(Flatten(record[..188])), 32), 8 * 188, Register(Flatten(record[188..])))
  {
    var bits, stored := Flatten(record[..188]), Flatten(record[188..]);
    CrcIsBitwise(ZERO, record[..188]);
    RegisterIsRemainder(bits);
    var c, p := AbsorbAll(ZERO, bits), Raised(PolyOf(bits), 32);
    assert |Quotient(ZERO, bits)| == 8 * 188;
    assert Remainder(p, 8 * 188, Register(c));
    if Remainder(p, 8 * 188, Register(stored)) {
      RemainderIsUnique(p, 8 * 188, Register(c), Register(stored));
      RegisterInjective(c, stored);
    }
  }

  // ---- A record that passes ----

  // 187 bytes of zero and 0x80, whose only bit goes in last
  function OneBit(): seq<Byte> {
    seq(187, i => Zeros(8)) + [Zeros(7) + [true]]
  }

  // 20, 83, B8 and ED, lowest bits first
  const B20: Byte := [false, false, false, false, false, true, false, false]
  const B83: Byte := [true, true, false, false, false, false, false, true]
  const BB8: Byte := [false, false, false, true, true, true, false, true]
  const BED: Byte := [true, false, true, true, false, true, true, true]

  function StoredBytes(): seq<Byte> {
    [B20, B83, BB8, BED]
  }

  lemma OneBitBits(zeros: seq<Byte>, z: seq<bool>)
    requires zeros == seq(187, i => Zeros(8)) && z == Flatten(zeros) + Zeros(7)
    ensures Flatten(OneBit()) == z + [true] && forall i :: 0 <= i < |z| ==> !z[i]
  {
    var last: Byte := Zeros(7) + [true];
    FlattenZeros(zeros);
    FlattenAppend(zeros, [last]);
    assert [last][1..] == [] && Flatten([last]) == last + [] == last;
  }

  lemma FirstBit(i: nat)
    requires i < 32
    ensures Absorb(ZERO, true)[i] == POLYNOMIAL[i]
  {
    BitStepAt(ZERO[0 := true], i);
  }

  lemma OneBitRegister()
    ensures AbsorbAll(ZERO, Flatten(OneBit())) == POLYNOMIAL
  {
    var zeros: seq<Byte> := seq(187, i => Zeros(8));
    var z := Flatten(zeros) + Zeros(7);
    OneBitBits(zeros, z);
    AbsorbAppend(ZERO, z, [true]);
    AbsorbZeros(ZERO, z);
    OneMore();
  }

  lemma OneMore()
    ensures AbsorbAll(ZERO, [true]) == POLYNOMIAL
  {
    assert [true][1..] == [];
    forall i | 0 <= i < 32 ensures Absorb(ZERO, true)[i] == POLYNOMIAL[i] {
      FirstBit(i);
    }
  }

  lemma FlatFirst(a: Byte, rest: seq<Byte>)
    ensures Flatten([a] + rest) == a + Flatten(rest)
  {
    assert ([a] + rest)[1..] == rest;
  }

  lemma FourFlat(a: Byte, b: Byte, c: Byte, d: Byte)
    ensures Flatten([a, b, c, d]) == a + (b + (c + (d + [])))
  {
    FlatFirst(d, []);
    FlatFirst(c, [d] + []);
    FlatFirst(b, [c] + ([d] + []));
    FlatFirst(a, [b] + ([c] + ([d] + [])));
    assert [a, b, c, d] == [a] + ([b] + ([c] + ([d] + [])));
  }

  lemma JoinedBits(w: Word)
    requires w == B20 + (B83 + (BB8 + (BED + [])))
    ensures LowerBits(w) && UpperBits(w)
  {
    assert forall i :: 0 <= i < 8 ==> w[i] == B20[i];
    assert forall i :: 8 <= i < 16 ==> w[i] == B83[i - 8];
    assert forall i :: 16 <= i < 24 ==> w[i] == BB8[i - 16];
    assert forall i :: 24 <= i < 32 ==> w[i] == BED[i - 24];
  }

  lemma SameBits(w: Word, v: Word)
    requires LowerBits(w) && UpperBits(w) && LowerBits(v) && UpperBits(v)
    ensures w == v
  {
  }

  lemma StoredIsPolynomial(w: Word)
    requires w == Flatten(StoredBytes())
    ensures w == POLYNOMIAL
  {
    FourFlat(B20, B83, BB8, BED);
    JoinedBits(w);
    PolynomialHasDigits(0xEDB8_8320);
    BitsKnown(POLYNOMIAL, 0xEDB8_8320);
    SameBits(w, POLYNOMIAL);
  }

  /** One record that passes: a single bit at the end of the body, and the generator's bits for its check value. */
  lemma OneBitPasses()
    ensures |OneBit() + StoredBytes()| == RECORD && Passes(OneBit() + StoredBytes())
  {
    var record := OneBit() + StoredBytes();
    assert record[..BODY] == OneBit() && record[BODY..] == StoredBytes();
    CrcIsBitwise(ZERO, OneBit());
    OneBitRegister();
    StoredIsPolynomial(Flatten(StoredBytes()));
  }
}
