/** Bit sequences, the numbers they spell, and the Exp-Golomb codes of ITU-T H.264, sections 9.1 and 9.1.1. */
module BitCodes {
  import opened Common

  const MAX_U32 := 0xFFFF_FFFF

  /** Bit i of data, most significant bit of each byte first. */
  function BitAt(data: seq<Byte>, i: nat): bool
    requires i < 8 * |data|
  {
    data[i / 8] / Pow2(7 - i % 8) % 2 == 1
  }

  /** The bits from position p up to q. */
  function BitsOf(data: seq<Byte>, p: nat, q: nat): (r: seq<bool>)
    requires p <= q <= 8 * |data|
    ensures |r| == q - p
  {
    seq(q - p, i requires 0 <= i < q - p => BitAt(data, p + i))
  }

  lemma BitsSplit(data: seq<Byte>, p: nat, m: nat, q: nat)
    requires p <= m <= q <= 8 * |data|
    ensures BitsOf(data, p, q) == BitsOf(data, p, m) + BitsOf(data, m, q)
    ensures BitsOf(data, p, q)[..m - p] == BitsOf(data, p, m) && BitsOf(data, p, q)[m - p..] == BitsOf(data, m, q)
  {
  }

  function Bit(b: bool): nat
  {
    if b then 1 else 0
  }

  /** The number spelled by bits, most significant first. */
  function Value(bits: seq<bool>): nat
  {
    if bits == [] then 0 else 2 * Value(bits[..|bits| - 1]) + Bit(bits[|bits| - 1])
  }

  lemma {:induction false} ValueBound(bits: seq<bool>)
    ensures Value(bits) < Pow2(|bits|)
  {
    if bits != [] {
      ValueBound(bits[..|bits| - 1]);
    }
  }

  /** Reading in two parts gives the same number as reading at once. */
  lemma {:induction false} ValueConcat(a: seq<bool>, b: seq<bool>)
    ensures Value(a + b) == Value(a) * Pow2(|b|) + Value(b)
  {
    if b == [] {
      assert a + b == a;
    } else {
      var init := b[..|b| - 1];
      assert (a + b)[..|a + b| - 1] == a + init;
      ValueConcat(a, init);
      MulTwice(Value(a), Pow2(|init|));
    }
  }

  /** n mod 2^t in terms of n / 2. */
  lemma ModStep(m: nat, t: nat)
    requires t > 0
    ensures m % Pow2(t) == 2 * (m / 2 % Pow2(t - 1)) + m % 2
  {
    var p := Pow2(t - 1);
    var q, r := m / 2 / p, m / 2 % p;
    assert m / 2 == q * p + r;
    MulTwice(q, p);
    DivModUnique(q, 2 * r + m % 2, 2 * p);
  }

  lemma DivStep(b: nat, k: nat)
    ensures b / Pow2(k) / 2 == b / Pow2(k + 1)
  {
    var p := Pow2(k);
    var q := b / p;
    var r := b % p;
    assert b == q * p + r;
    var h, l := q / 2, q % 2;
    MulTwice(h, p);
    assert q * p == h * (2 * p) + l * p;
    DivModUnique(h, l * p + r, 2 * p);
  }

  /** The number spelled by n binary digits of b, above the lowest k. */
  function Digits(b: nat, k: nat, n: nat): nat
  {
    b / Pow2(k) % Pow2(n)
  }

  lemma NoDigits(b: nat, k: nat)
    ensures Digits(b, k, 0) == 0
  {
  }

  lemma DigitStep(b: nat, k: nat, n: nat)
    requires n > 0
    ensures Digits(b, k, n) == 2 * Digits(b, k + 1, n - 1) + b / Pow2(k) % 2
  {
    hide Pow2;
    DivStep(b, k);
    ModStep(b / Pow2(k), n);
  }

  lemma BitInByte(data: seq<Byte>, i: nat, above: nat)
    requires i < |data| && above < 8
    ensures BitAt(data, 8 * i + 7 - above) == (data[i] / Pow2(above) % 2 == 1)
  {
    hide Pow2;
    DivModUnique(i, 7 - above, 8);
  }

  /** take bits of a byte of which left bits are left, as the source cuts them out. */
  lemma {:induction false} ByteBits(data: seq<Byte>, i: nat, left: nat, take: nat)
    requires i < |data| && take <= left <= 8
    ensures Value(BitsOf(data, 8 * i + 8 - left, 8 * i + 8 - left + take))
            == Digits(data[i], left - take, take)
  {
    hide Pow2, BitAt, BitsOf, Value, Digits;
    var p := 8 * i + 8 - left;
    if take == 0 {
      NoBits(data, p);
      NoDigits(data[i], left);
    } else {
      ByteBits(data, i, left, take - 1);
      LastBit(data, p, p + take);
      DigitStep(data[i], left - take, take);
      BitInByte(data, i, left - take);
    }
  }

  lemma NoBits(data: seq<Byte>, p: nat)
    requires p <= 8 * |data|
    ensures Value(BitsOf(data, p, p)) == 0
  {
  }

  lemma LastBit(data: seq<Byte>, p: nat, q: nat)
    requires p < q <= 8 * |data|
    ensures Value(BitsOf(data, p, q)) == 2 * Value(BitsOf(data, p, q - 1)) + Bit(BitAt(data, q - 1))
  {
    assert BitsOf(data, p, q)[..q - p - 1] == BitsOf(data, p, q - 1);
  }

  // ---------- Exp-Golomb codes ----------

  function Zeros(n: nat): seq<bool>
  {
    seq(n, _ => false)
  }

  /** How many bits before the first one bit. */
  function LeadingZeros(bits: seq<bool>): (n: nat)
    ensures n <= |bits|
    ensures forall i :: 0 <= i < n ==> !bits[i]
    ensures n < |bits| ==> bits[n]
  {
    if bits == [] || bits[0] then 0 else 1 + LeadingZeros(bits[1..])
  }

  lemma LeadingZerosUnique(bits: seq<bool>, n: nat)
    requires n <= |bits| && (forall i :: 0 <= i < n ==> !bits[i]) && (n < |bits| ==> bits[n])
    ensures LeadingZeros(bits) == n
  {
  }

  /** The n bits that spell v. */
  function Spell(v: nat, n: nat): (bits: seq<bool>)
    ensures |bits| == n
  {
    if n == 0 then [] else Spell(v / 2, n - 1) + [v % 2 == 1]
  }

  lemma {:induction false} SpellValue(v: nat, n: nat)
    requires v < Pow2(n)
    ensures Value(Spell(v, n)) == v
  {
    if n > 0 {
      HalfBelow(v, n);
      hide Pow2;
      SpellValue(v / 2, n - 1);
      assert Spell(v, n)[..n - 1] == Spell(v / 2, n - 1);
    }
  }

  lemma HalfBelow(v: nat, n: nat)
    requires n > 0 && v < Pow2(n)
    ensures v / 2 < Pow2(n - 1)
  {
  }

  /** The number of information bits of codeNum v. */
  function InfoBits(v: nat): (k: nat)
    ensures Pow2(k) <= v + 1 < 2 * Pow2(k)
  {
    if v == 0 then 0 else 1 + InfoBits((v - 1) / 2)
  }

  /** ue(v): k zeros, a one, and k information bits, where v = 2^k - 1 + information. */
  function Code(v: nat): seq<bool>
  {
    var k := InfoBits(v);
    Zeros(k) + [true] + Spell(v + 1 - Pow2(k), k)
  }

  lemma {:induction false} ZerosValue(n: nat)
    ensures Value(Zeros(n)) == 0
  {
    if n > 0 {
      assert Zeros(n)[..n - 1] == Zeros(n - 1);
      ZerosValue(n - 1);
    }
  }

  /** The codeword of v spells v + 1, with as many zeros in front as there are bits behind the first one. */
  lemma CodeValue(v: nat)
    ensures Value(Code(v)) == v + 1 && |Code(v)| == 2 * LeadingZeros(Code(v)) + 1
  {
    hide *;
    var k := InfoBits(v);
    CodeZeros(v);
    SpellValue(v + 1 - Pow2(k), k);
    ZerosValue(k);
    MarkedValue(Zeros(k), Spell(v + 1 - Pow2(k), k));
  }

  /** A one bit in front of k others counts 2^k. */
  lemma MarkedValue(zeros: seq<bool>, info: seq<bool>)
    requires Value(zeros) == 0
    ensures Value(zeros + [true] + info) == Pow2(|info|) + Value(info)
  {
    hide Pow2, Value;
    ValueConcat(zeros, [true]);
    OneBit();
    ValueConcat(zeros + [true], info);
  }

  lemma CodeZeros(v: nat)
    ensures LeadingZeros(Code(v)) == InfoBits(v) && |Code(v)| == 2 * InfoBits(v) + 1
    ensures Code(v) == Zeros(InfoBits(v)) + [true] + Spell(v + 1 - Pow2(InfoBits(v)), InfoBits(v))
  {
    hide Pow2, Spell, InfoBits;
    LeadingZerosUnique(Code(v), InfoBits(v));
  }

  lemma OneBit()
    ensures Value([true]) == 1
  {
    assert [true][..0] == [];
  }

  /** A whole codeword is available. */
  predicate HasCode(bits: seq<bool>)
  {
    2 * LeadingZeros(bits) + 1 <= |bits|
  }

  datatype Decoded = Invalid | Decoded(value: nat, rest: seq<bool>)

  /** What the prefix scan of the source makes of the available bits: a number of information bits and where they
      begin.  The scan gives up after half of the bits; with an even number of them it does so without noticing. */
  datatype Prefix = NoPrefix | Prefix(infoBits: nat, rest: seq<bool>)

  function ScanPrefix(bits: seq<bool>): (p: Prefix)
    ensures p.Prefix? ==> p.infoBits <= |p.rest| <= |bits| && p.rest == bits[|bits| - |p.rest|..]
  {
    var z := LeadingZeros(bits);
    if HasCode(bits) then Prefix(z, bits[z + 1..])
    else if |bits| == 0 || |bits| % 2 == 1 then NoPrefix
    else Prefix(|bits| / 2, bits[|bits| / 2..])
  }

  /** The unsigned value read from the available bits. */
  function ReadCode(bits: seq<bool>): Decoded
  {
    match ScanPrefix(bits)
    case NoPrefix => Invalid
    case Prefix(k, rest) =>
      var info := Value(rest[..k]);
      if k > 32 || (k == 32 && info != 0) then Invalid
      else Decoded(if k == 32 then MAX_U32 else info + Pow2(k) - 1, rest[k..])
  }

  lemma SmallWidths()
    ensures Pow2(15) == 0x8000 && Pow2(16) == 0x1_0000 && Pow2(17) == 0x2_0000
  {
    assert Pow2(2) == 4 && Pow2(4) == 16 && Pow2(6) == 64 && Pow2(8) == 256 && Pow2(10) == 1024;
    assert Pow2(12) == 4096 && Pow2(14) == 16384;
  }

  lemma Widths()
    ensures Pow2(31) == 0x8000_0000 && Pow2(32) == 0x1_0000_0000 && Pow2(33) == 0x2_0000_0000
  {
    hide Pow2;
    SmallWidths();
    Pow2Add(16, 15);
    Pow2Add(16, 16);
    Pow2Add(16, 17);
  }

  /** A 32-bit value has at most 32 information bits, and 32 only if it is the largest. */
  lemma CodeWidth(v: nat, k: nat)
    requires v <= MAX_U32 && Pow2(k) <= v + 1 < 2 * Pow2(k)
    ensures k <= 32 && (k == 32 <==> v == MAX_U32)
  {
    hide Pow2;
    Widths();
    if k > 32 {
      Pow2Monotone(33, k);
    }
    if k < 32 {
      Pow2Monotone(k, 31);
    }
  }

  lemma ScanCode(k: nat, info: seq<bool>, tail: seq<bool>)
    requires |info| == k
    ensures ScanPrefix(Zeros(k) + [true] + info + tail) == Prefix(k, info + tail)
    ensures HasCode(Zeros(k) + [true] + info + tail)
  {
    var bits := Zeros(k) + [true] + info + tail;
    LeadingZerosUnique(bits, k);
    assert bits[k + 1..] == info + tail;
  }

  /** The reader inverts the code for every 32-bit value, whatever follows, and stops right behind the codeword. */
  lemma CodeRoundTrip(v: nat, tail: seq<bool>)
    requires v <= MAX_U32
    ensures HasCode(Code(v) + tail) && ReadCode(Code(v) + tail) == Decoded(v, tail)
  {
    hide Pow2, Spell, Value, Zeros, InfoBits, ScanPrefix, HasCode;
    var k := InfoBits(v);
    var info := Spell(v + 1 - Pow2(k), k);
    SpellValue(v + 1 - Pow2(k), k);
    ScanCode(k, info, tail);
    assert (info + tail)[..k] == info && (info + tail)[k..] == tail;
    CodeWidth(v, k);
    Widths();
  }

  /** Without a complete codeword the read fails, except that an even positive number of bits passes for a codeword
      when half of it can be information. */
  lemma IncompleteCode(bits: seq<bool>)
    requires !HasCode(bits)
    ensures ReadCode(bits) == Invalid <==>
            |bits| == 0 || |bits| % 2 == 1 || |bits| > 64 || (|bits| == 64 && Value(bits[32..]) != 0)
  {
    if |bits| > 0 && |bits| % 2 == 0 {
      var half := bits[|bits| / 2..];
      assert half[..|bits| / 2] == half;
    }
  }

  /** Two zero bits are no codeword and read as the value 1. */
  lemma IncompleteAccepted()
    ensures !HasCode([false, false]) && ReadCode([false, false]) == Decoded(1, [])
  {
    var bits := [false, false];
    LeadingZerosUnique(bits, 2);
    assert bits[1..] == [false] && bits[1..][..1] == [false] && bits[1..][1..] == [];
    assert [false][..0] == [];
    assert Value([false]) == 0 && Pow2(1) == 2;
  }

  /** Every value that is read fits 32 bits. */
  lemma ReadFits(bits: seq<bool>)
    ensures ReadCode(bits).Decoded? ==> ReadCode(bits).value <= MAX_U32
  {
    hide Pow2, Value, ScanPrefix;
    var p := ScanPrefix(bits);
    if p.Prefix? && p.infoBits < 32 {
      ValueBound(p.rest[..p.infoBits]);
      Pow2Monotone(p.infoBits, 31);
      Widths();
    }
  }

  // ---------- signed values ----------

  /** se(v): the codeNum of a signed value, section 9.1.1. */
  function SignedCodeNum(s: int): nat
  {
    if s > 0 then 2 * s - 1 else -2 * s
  }

  /** The signed value of codeNum u, as the source computes it. */
  function ToSigned(u: nat): int
  {
    (u % 2 * 2 - 1) * (u / 2 + u % 2)
  }

  /** The signed mapping: magnitude Ceil(u / 2), positive for odd u; it inverts the assignment of codeNums. */
  lemma SignedMapping(u: nat, s: int)
    ensures ToSigned(u) == if u % 2 == 1 then (u + 1) / 2 else -(u / 2)
    ensures ToSigned(SignedCodeNum(s)) == s && SignedCodeNum(ToSigned(u)) == u
    ensures -0x8000_0000 < s < 0x8000_0000 <==> SignedCodeNum(s) < MAX_U32
  {
    SignedCases(u);
    SignedCases(SignedCodeNum(s));
  }

  lemma SignedCases(u: nat)
    ensures ToSigned(u) == if u % 2 == 1 then (u + 1) / 2 else -(u / 2)
  {
  }
}
