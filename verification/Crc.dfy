/**
 The check value of the manufacturing record in `libbb/bb_persist.c`: a bitwise CRC with the
 reflected polynomial of section 3.2.9 of IEEE 802.3, started from zero and not complemented.
 A machine word is the sequence of its bits, lowest first.
 */
module Crc {

  const RECORD: nat := 192         // sizeof(bb_mfg_data_t)
  const BODY: nat := 188           // everything but the stored check value

  type Word = w: seq<bool> | |w| == 32 witness Zeros(32)
  type Byte = b: seq<bool> | |b| == 8 witness Zeros(8)

  function Zeros(n: nat): (s: seq<bool>)
    ensures |s| == n && forall i :: 0 <= i < n ==> !s[i]
  {
    seq(n, i => false)
  }

  const ZERO: Word := Zeros(32)

  // The lowest `width` bits of a number.
  function BitsOf(n: nat, width: nat): (s: seq<bool>)
    ensures |s| == width
  {
    if width == 0 then [] else [n % 2 == 1] + BitsOf(n / 2, width - 1)
  }

  const POLYNOMIAL: Word := BitsOf(0xEDB88320, 32)

  function Xor(a: Word, b: Word): (c: Word)
    ensures forall i :: 0 <= i < 32 ==> c[i] == (a[i] != b[i])
  {
    seq(32, i requires 0 <= i < 32 => a[i] != b[i])
  }

  // c >> 1
  function ShiftRight(c: Word): Word {
    c[1..] + [false]
  }

  function BitStep(c: Word): Word {
    Xor(ShiftRight(c), if c[0] then POLYNOMIAL else ZERO)
  }

  function Steps(c: Word, n: nat): Word
    decreases n
  {
    if n == 0 then c else Steps(BitStep(c), n - 1)
  }

  // Up to 32 bits in the low end of a word, as a byte is converted to uint32_t.
  function Wide(s: seq<bool>): Word
    requires |s| <= 32
  {
    s + Zeros(32 - |s|)
  }

  // The accumulator after the bytes, as the source's two loops compute it.
  function CrcFrom(c: Word, bytes: seq<Byte>): Word
    decreases |bytes|
  {
    if bytes == [] then c else CrcFrom(Steps(Xor(c, Wide(bytes[0])), |bytes[0]|), bytes[1..])
  }

  function CrcOf(bytes: seq<Byte>): Word {
    CrcFrom(ZERO, bytes)
  }

  // Bytes as one string of bits; four of them are a word as a little-endian machine reads it.
  function Flatten(bytes: seq<Byte>): (s: seq<bool>)
    ensures |s| == 8 * |bytes|
  {
    if bytes == [] then [] else bytes[0] + Flatten(bytes[1..])
  }

  predicate Passes(record: seq<Byte>)
    requires |record| == RECORD
  {
    CrcOf(record[..BODY]) == Flatten(record[BODY..])
  }

  // ---- The bit step ----

  // The polynomial's top bit is set.
  lemma TopBit()
    ensures POLYNOMIAL[31]
  {
    BitAt(0xEDB88320, 32, 31);
    HighestBit(0xEDB88320);
  }

  lemma HighestBit(n: nat)
    requires 0x8000_0000 <= n < 0x1_0000_0000
    ensures Half(n, 31) == 1
  {
    HalfAdd(n, 8, 23);
    HalfEight(n);
    HalfAdd(n / 256, 8, 15);
    HalfEight(n / 256);
    HalfAdd(n / 256 / 256, 8, 7);
    HalfEight(n / 256 / 256);
    HighBitOfByte(n / 256 / 256 / 256);
  }

  lemma HighBitOfByte(n: nat)
    requires 128 <= n < 256
    ensures Half(n, 7) == 1
  {
    HalfAdd(n, 4, 3);
    HalfFour(n);
    HalfAdd(n / 16, 2, 1);
    HalfTwo(n / 16);
  }

  lemma HalfTwo(n: nat)
    ensures Half(n, 2) == n / 4
  {
    HalfAdd(n, 1, 1);
    assert Half(n, 1) == n / 2 && Half(n / 2, 1) == n / 2 / 2;
  }

  lemma HalfFour(n: nat)
    ensures Half(n, 4) == n / 16
  {
    HalfAdd(n, 2, 2);
    HalfTwo(n);
    HalfTwo(n / 4);
  }

  lemma HalfEight(n: nat)
    ensures Half(n, 8) == n / 256
  {
    HalfAdd(n, 4, 4);
    HalfFour(n);
    HalfFour(n / 16);
  }

  function Half(n: nat, k: nat): nat {
    if k == 0 then n else Half(n / 2, k - 1)
  }

  lemma {:induction false} HalfAdd(n: nat, j: nat, k: nat)
    ensures Half(n, j + k) == Half(Half(n, j), k)
    decreases j
  {
    if j > 0 {
      HalfAdd(n / 2, j - 1, k);
    }
  }

  lemma {:induction false} BitAt(n: nat, width: nat, k: nat)
    requires k < width
    ensures BitsOf(n, width)[k] == (Half(n, k) % 2 == 1)
    decreases k
  {
    if k > 0 {
      BitAt(n / 2, width - 1, k - 1);
    }
  }

  lemma BitStepAt(c: Word, i: nat)
    requires i < 32
    ensures BitStep(c)[i] == ((if i < 31 then c[i + 1] else false) != (c[0] && POLYNOMIAL[i]))
  {
  }

  lemma LowBitKept(a: Word, b: Word)
    requires BitStep(a) == BitStep(b)
    ensures a[0] == b[0]
  {
    TopBit();
    BitStepAt(a, 31);
    BitStepAt(b, 31);
  }

  /** The step can be undone, because the polynomial's top bit is set: no two register values merge. */
  lemma BitStepInjective(a: Word, b: Word)
    requires BitStep(a) == BitStep(b)
    ensures a == b
  {
    LowBitKept(a, b);
    forall i | 0 < i < 32 ensures a[i] == b[i] {
      BitStepAt(a, i - 1);
      BitStepAt(b, i - 1);
    }
  }

  /** The step is linear over exclusive or. */
  lemma BitStepLinear(a: Word, b: Word)
    ensures BitStep(Xor(a, b)) == Xor(BitStep(a), BitStep(b))
  {
    forall i | 0 <= i < 32 ensures BitStep(Xor(a, b))[i] == Xor(BitStep(a), BitStep(b))[i] {
      BitStepAt(a, i);
      BitStepAt(b, i);
      BitStepAt(Xor(a, b), i);
    }
  }

  lemma BitStepZero(c: Word)
    ensures BitStep(c) == ZERO <==> c == ZERO
  {
    assert BitStep(ZERO) == ZERO;
    if BitStep(c) == ZERO {
      BitStepInjective(c, ZERO);
    }
  }

  lemma {:induction false} StepsZero(c: Word, n: nat)
    ensures Steps(c, n) == ZERO <==> c == ZERO
    decreases n
  {
    if n > 0 {
      BitStepZero(c);
      StepsZero(BitStep(c), n - 1);
    }
  }

  // ---- Bit by bit ----

  // One bit of data: added at the low end, and one step.
  function Absorb(c: Word, x: bool): Word {
    BitStep(c[0 := c[0] != x])
  }

  function AbsorbAll(c: Word, s: seq<bool>): Word
    decreases |s|
  {
    if s == [] then c else AbsorbAll(Absorb(c, s[0]), s[1..])
  }

  lemma {:induction false} AbsorbAppend(c: Word, s: seq<bool>, t: seq<bool>)
    ensures AbsorbAll(c, s + t) == AbsorbAll(AbsorbAll(c, s), t)
    decreases |s|
  {
    if s == [] {
      assert s + t == t;
    } else {
      assert (s + t)[1..] == s[1..] + t;
      AbsorbAppend(Absorb(c, s[0]), s[1..], t);
    }
  }

  // A step moves the bits that wait behind the lowest one down by a place.
  lemma WideStep(c: Word, s: seq<bool>)
    requires 0 < |s| <= 32
    ensures BitStep(Xor(c, Wide(s))) == Xor(Absorb(c, s[0]), Wide(s[1..]))
  {
    var low, behind := c[0 := c[0] != s[0]], Wide(s)[0 := false];
    assert Xor(c, Wide(s)) == Xor(low, behind);
    BitStepLinear(low, behind);
    assert Xor(ShiftRight(behind), ZERO) == ShiftRight(behind);
    assert ShiftRight(behind) == Wide(s[1..]);
  }

  /** Adding up to 32 bits to the register at once and stepping once for each is taking them bit by bit. */
  lemma {:induction false} AtOnce(c: Word, s: seq<bool>)
    requires |s| <= 32
    ensures Steps(Xor(c, Wide(s)), |s|) == AbsorbAll(c, s)
    decreases |s|
  {
    if s == [] {
      assert Xor(c, Wide(s)) == c;
    } else {
      WideStep(c, s);
      AtOnce(Absorb(c, s[0]), s[1..]);
    }
  }

  /** The byte loop computes what the bits alone decide. */
  lemma {:induction false} CrcIsBitwise(c: Word, bytes: seq<Byte>)
    ensures CrcFrom(c, bytes) == AbsorbAll(c, Flatten(bytes))
    decreases |bytes|
  {
    if bytes != [] {
      AtOnce(c, bytes[0]);
      AbsorbAppend(c, bytes[0], Flatten(bytes[1..]));
      CrcIsBitwise(AbsorbAll(c, bytes[0]), bytes[1..]);
    }
  }

  lemma {:induction false} FlattenAppend(a: seq<Byte>, b: seq<Byte>)
    ensures Flatten(a + b) == Flatten(a) + Flatten(b)
    decreases |a|
  {
    if a == [] {
      assert a + b == b;
    } else {
      assert (a + b)[1..] == a[1..] + b;
      FlattenAppend(a[1..], b);
      assert a[0] + (Flatten(a[1..]) + Flatten(b)) == a[0] + Flatten(a[1..]) + Flatten(b);
    }
  }

  lemma XorZero(a: Word, b: Word)
    ensures Xor(a, b) == ZERO <==> a == b
  {
    if Xor(a, b) == ZERO {
      assert forall i :: 0 <= i < 32 ==> Xor(a, b)[i] == (a[i] != b[i]);
    }
  }

  // The register is cleared by exactly one word.
  lemma WordClears(c: Word, s: Word)
    ensures AbsorbAll(c, s) == ZERO <==> c == s
  {
    AtOnce(c, s);
    assert Wide(s) == s;
    StepsZero(Xor(c, s), |s|);
    XorZero(c, s);
  }

  /** A record passes exactly when the CRC over all of it, stored value included, is zero. */
  lemma PassesIffWholeIsZero(record: seq<Byte>)
    requires |record| == RECORD
    ensures Passes(record) <==> CrcOf(record) == ZERO
  {
    var body, stored := record[..BODY], record[BODY..];
    assert record == body + stored;
    CrcIsBitwise(ZERO, record);
    CrcIsBitwise(ZERO, body);
    FlattenAppend(body, stored);
    AbsorbAppend(ZERO, Flatten(body), Flatten(stored));
    WordClears(CrcOf(body), Flatten(stored));
  }

  // ---- Detection ----

  function Difference(a: seq<bool>, b: seq<bool>): (d: seq<bool>)
    requires |a| == |b|
    ensures |d| == |a| && forall i :: 0 <= i < |d| ==> d[i] == (a[i] != b[i])
  {
    seq(|a|, i requires 0 <= i < |a| => a[i] != b[i])
  }

  /** The register after the difference of two strings is the difference of the registers. */
  lemma {:induction false} AbsorbDifference(c: Word, e: Word, a: seq<bool>, b: seq<bool>)
    requires |a| == |b|
    ensures AbsorbAll(Xor(c, e), Difference(a, b)) == Xor(AbsorbAll(c, a), AbsorbAll(e, b))
    decreases |a|
  {
    if a != [] {
      var x, y := c[0 := c[0] != a[0]], e[0 := e[0] != b[0]];
      assert Xor(c, e)[0 := Xor(c, e)[0] != (a[0] != b[0])] == Xor(x, y);
      BitStepLinear(x, y);
      assert Difference(a, b)[1..] == Difference(a[1..], b[1..]);
      AbsorbDifference(Absorb(c, a[0]), Absorb(e, b[0]), a[1..], b[1..]);
    }
  }

  lemma {:induction false} AbsorbZeros(c: Word, s: seq<bool>)
    requires forall i :: 0 <= i < |s| ==> !s[i]
    ensures AbsorbAll(c, s) == ZERO <==> c == ZERO
    decreases |s|
  {
    if s != [] {
      assert c[0 := c[0] != s[0]] == c;
      BitStepZero(c);
      AbsorbZeros(Absorb(c, s[0]), s[1..]);
    }
  }

  lemma ZerosAside(head: seq<bool>, burst: seq<bool>, rest: seq<bool>)
    requires (forall i :: 0 <= i < |head| ==> !head[i]) && (forall i :: 0 <= i < |rest| ==> !rest[i])
    ensures AbsorbAll(ZERO, head + (burst + rest)) == ZERO <==> AbsorbAll(ZERO, burst) == ZERO
  {
    AbsorbAppend(ZERO, head, burst + rest);
    AbsorbZeros(ZERO, head);
    AbsorbAppend(ZERO, burst, rest);
    AbsorbZeros(AbsorbAll(ZERO, burst), rest);
  }

  /** Zeros around 32 bits neither hide nor create a difference, and the bits leave one unless they are all zero. */
  lemma BurstLeavesTrace(d: seq<bool>, at: nat)
    requires at + 32 <= |d| && AbsorbAll(ZERO, d) == ZERO
    requires forall i :: 0 <= i < |d| && !(at <= i < at + 32) ==> !d[i]
    ensures forall i :: 0 <= i < |d| ==> !d[i]
  {
    var head, burst, rest := d[..at], d[at..at + 32], d[at + 32..];
    assert d == head + (burst + rest);
    ZerosAside(head, burst, rest);
    WordClears(ZERO, burst);
    forall i | at <= i < at + 32 ensures !d[i] {
      assert d[i] == burst[i - at];
    }
  }

  lemma {:induction false} FlattenInjective(a: seq<Byte>, b: seq<Byte>)
    requires |a| == |b| && Flatten(a) == Flatten(b)
    ensures a == b
    decreases |a|
  {
    if a != [] {
      assert Flatten(a)[..8] == a[0] && Flatten(b)[..8] == b[0];
      assert Flatten(a)[8..] == Flatten(a[1..]) && Flatten(b)[8..] == Flatten(b[1..]);
      FlattenInjective(a[1..], b[1..]);
    }
  }

  /**
   Two different passing records never differ only within 32 consecutive bits, wherever in the
   record these begin; four consecutive bytes are one case.
   */
  lemma BurstDetected(a: seq<Byte>, b: seq<Byte>, at: nat)
    requires |a| == |b| == RECORD && at + 32 <= 8 * RECORD && Passes(a) && Passes(b)
    requires forall i :: 0 <= i < 8 * RECORD && !(at <= i < at + 32) ==> Flatten(a)[i] == Flatten(b)[i]
    ensures a == b
  {
    var x, y := Flatten(a), Flatten(b);
    PassesIffWholeIsZero(a);
    PassesIffWholeIsZero(b);
    CrcIsBitwise(ZERO, a);
    CrcIsBitwise(ZERO, b);
    AbsorbDifference(ZERO, ZERO, x, y);
    assert Xor(ZERO, ZERO) == ZERO;
    var d := Difference(x, y);
    BurstLeavesTrace(d, at);
    forall i | 0 <= i < |x| ensures x[i] == y[i] {
      assert !d[i];
    }
    FlattenInjective(a, b);
  }

  /** The start from zero has a price: an erased record of zeros passes. */
  lemma AllZeroPasses(record: seq<Byte>)
    requires |record| == RECORD && forall i :: 0 <= i < RECORD ==> record[i] == Zeros(8)
    ensures Passes(record)
  {
    FlattenZeros(record);
    CrcIsBitwise(ZERO, record);
    AbsorbZeros(ZERO, Flatten(record));
    PassesIffWholeIsZero(record);
  }

  lemma {:induction false} FlattenZeros(bytes: seq<Byte>)
    requires forall i :: 0 <= i < |bytes| ==> bytes[i] == Zeros(8)
    ensures forall i :: 0 <= i < |Flatten(bytes)| ==> !Flatten(bytes)[i]
    decreases |bytes|
  {
    if bytes != [] {
      FlattenZeros(bytes[1..]);
    }
  }

  // ---- The check in bb_mfg_read ----

  // The inner loop
  method StepLoop(crc: Word, n: nat) returns (c: Word)
    ensures c == Steps(crc, n)
  {
    c := crc;
    for j := 0 to n
      invariant Steps(c, n - j) == Steps(crc, n)
    {
      StepsFirst(c, n - j);
      c := BitStep(c);
    }
  }

  // One byte of the accumulator loop
  method AddByte(crc: Word, b: Byte) returns (c: Word)
    ensures c == Steps(Xor(crc, Wide(b)), |b|)
  {
    c := StepLoop(Xor(crc, Wide(b)), |b|);
  }

  lemma StepsFirst(c: Word, n: nat)
    requires n > 0
    ensures Steps(c, n) == Steps(BitStep(c), n - 1)
  {
  }

  lemma {:induction false} CrcSnoc(c: Word, bytes: seq<Byte>, b: Byte)
    ensures CrcFrom(c, bytes + [b]) == Steps(Xor(CrcFrom(c, bytes), Wide(b)), |b|)
    decreases |bytes|
  {
    if bytes == [] {
      assert (bytes + [b])[1..] == [];
    } else {
      assert (bytes + [b])[1..] == bytes[1..] + [b];
      CrcSnoc(Steps(Xor(c, Wide(bytes[0])), 8), bytes[1..], b);
    }
  }

  method CrcLoop(p: array<Byte>, n: nat) returns (crc: Word)
    requires n <= p.Length
    ensures crc == CrcOf(p[..n])
  {
    crc := ZERO;
    for i := 0 to n
      invariant crc == CrcOf(p[..i])
    {
      assert p[..i + 1] == p[..i] + [p[i]];
      CrcSnoc(ZERO, p[..i], p[i]);
      crc := AddByte(crc, p[i]);
    }
  }

  // What bb_mfg_read decides about a freshly read record.
  method Check(p: array<Byte>) returns (ok: bool)
    requires p.Length == RECORD
    ensures ok <==> CrcOf(p[..]) == ZERO
  {
    var crc := CrcLoop(p, BODY);
    ok := crc == Flatten(p[BODY..]);
    assert p[..][..BODY] == p[..BODY] && p[..][BODY..] == p[BODY..];
    PassesIffWholeIsZero(p[..]);
  }
}
