/** Vocabulary shared by the models: bytes, powers of two, little- and big-endian fields. */
module Common {

  type Byte = b: int | 0 <= b < 256

  datatype Option<+T> = None | Some(value: T)

  function Min(a: int, b: int): int { if a <= b then a else b }

  function Max(a: int, b: int): int { if a >= b then a else b }

  lemma SliceOfSlice<T>(s: seq<T>, a: nat, b: nat, p: nat, q: nat)
    requires a <= b <= |s| && p <= q <= b - a
    ensures s[a..b][p..q] == s[a + p..a + q]
  {
    forall i | 0 <= i < q - p
      ensures s[a..b][p..q][i] == s[a + p..a + q][i]
    {
    }
  }

  lemma ConcatAssoc<T>(a: seq<T>, b: seq<T>, c: seq<T>)
    ensures (a + b) + c == a + (b + c)
  {
  }

  /** memcpy of data to offset at of dst. */
  method Store(dst: array<Byte>, at: nat, data: seq<Byte>)
    requires at + |data| <= dst.Length
    modifies dst
    ensures dst[at..at + |data|] == data && dst[..at + |data|] == old(dst[..at]) + data
    ensures forall i :: 0 <= i < at || at + |data| <= i < dst.Length ==> dst[i] == old(dst[i])
  {
    forall i | 0 <= i < |data| {
      dst[at + i] := data[i];
    }
  }

  /** f with d written at offset at; a gap past the end of f reads as zero. */
  function Splice(f: seq<Byte>, at: nat, d: seq<Byte>): (r: seq<Byte>)
  {
    seq(if d == [] then |f| else Max(|f|, at + |d|),
        i requires i >= 0 => if at <= i < at + |d| then d[i - at] else if i < |f| then f[i] else 0)
  }

  /** What was written is read back, and the rest of the file is unchanged. */
  lemma SpliceReads(f: seq<Byte>, at: nat, d: seq<Byte>)
    ensures d != [] ==> at + |d| <= |Splice(f, at, d)| && Splice(f, at, d)[at..at + |d|] == d
    ensures at <= |f| ==> Splice(f, at, d)[..at] == f[..at]
    ensures at + |d| <= |f| ==> Splice(f, at, d)[at + |d|..] == f[at + |d|..]
  {
  }

  /** Two consecutive writes are one. */
  lemma SpliceMore(f: seq<Byte>, at: nat, a: seq<Byte>, b: seq<Byte>)
    ensures Splice(Splice(f, at, a), at + |a|, b) == Splice(f, at, a + b)
  {
  }

  lemma SpliceNothing(f: seq<Byte>, at: nat)
    ensures Splice(f, at, []) == f
  {
  }

  /** Moving element k of s to the end of r while another takes its place. */
  lemma HandOver<T>(r: seq<T>, s: seq<T>, k: nat, other: T)
    requires k < |s|
    ensures r + s[k..] == (r + [s[k]]) + s[k := other][k + 1..]
  {
  }

  /** Two ways to cut one sequence. */
  lemma SplitPrefix<T>(a: seq<T>, r: seq<T>, b: seq<T>, u: seq<T>, n: nat)
    requires a + r == b + u && |a| == |b| + n
    ensures n <= |u| && a == b + u[..n] && r == u[n..]
  {
    assert a == (a + r)[..|a|];
    assert r == (a + r)[|a|..];
  }

  /** What is left of s from at on, without its first part. */
  lemma Dropped<T>(s: seq<T>, at: nat, a: seq<T>, b: seq<T>)
    requires at <= |s| && s[at..] == a + b
    ensures at + |a| <= |s| && s[at + |a|..] == b
  {
    assert s[at + |a|..] == s[at..][|a|..];
  }

  lemma JoinSlices<T>(s: seq<T>, a: nat, b: nat, c: nat)
    requires a <= b <= c <= |s|
    ensures s[a..b] + s[b..c] == s[a..c]
  {
  }

  function Pow2(n: nat): (p: nat)
    ensures p >= 1
  {
    if n == 0 then 1 else 2 * Pow2(n - 1)
  }

  lemma {:induction false} Pow2Add(a: nat, b: nat)
    ensures Pow2(a + b) == Pow2(a) * Pow2(b)
  {
    if a != 0 {
      Pow2Add(a - 1, b);
      assert Pow2(a + b) == 2 * Pow2((a - 1) + b);
      assert 2 * (Pow2(a - 1) * Pow2(b)) == (2 * Pow2(a - 1)) * Pow2(b);
    }
  }

  lemma Pow2Of31()
    ensures Pow2(31) == 0x8000_0000
  {
    assert Pow2(8) == 256 && Pow2(7) == 128;
    Pow2Add(8, 8);
    Pow2Add(8, 7);
    Pow2Add(16, 15);
  }

  lemma {:induction false} Pow2Monotone(a: nat, b: nat)
    requires a <= b
    ensures Pow2(a) <= Pow2(b)
  {
    if a < b {
      Pow2Monotone(a, b - 1);
    }
  }

  /** Quotient and remainder of a number given in the form q * d + r. */
  lemma DivModUnique(q: int, r: int, d: int)
    requires 0 <= r < d
    ensures (q * d + r) / d == q && (q * d + r) % d == r
  {
    var x := q * d + r;
    var e := x / d - q;
    assert d * e == r - x % d;
    MulSmall(d, e);
  }

  /** A multiple of d strictly between -d and d is zero. */
  lemma MulSmall(d: int, e: int)
    requires d > 0 && -d < d * e < d
    ensures e == 0
  {
    MulOrder(d, 1, e);
    MulOrder(d, e, -1);
  }

  lemma MulOrder(d: nat, a: int, b: int)
    ensures a <= b ==> d * a <= d * b
  {
    var k := b - a;
    assert d * b == d * a + d * k;
  }

  lemma MulTwice(a: int, b: int)
    ensures a * (2 * b) == 2 * (a * b) == 2 * a * b
  {
  }

  /** A number with high digit q below g and low digit r below m is below g * m, and conversely. */
  lemma MixedRadix(q: nat, r: nat, g: nat, m: nat)
    requires r < m
    ensures q < g <==> q * m + r < g * m
    ensures (q * m + r) / m == q && (q * m + r) % m == r
  {
    DivModUnique(q, r, m);
    MulOrder(m, q + 1, g);
    MulOrder(m, g, q);
    assert m * (q + 1) == q * m + m;
  }

  /** The two digits of a number below g * m. */
  lemma TwoDigits(i: nat, g: nat, m: nat)
    requires m > 0 && i < g * m
    ensures 0 <= i / m < g && 0 <= i % m < m && i == i / m * m + i % m
  {
    var q, r := i / m, i % m;
    assert i == q * m + r;
    MixedRadix(q, r, g, m);
  }

  /** The four bytes of a 32-bit field, least significant first; the value is reduced modulo 2^32. */
  function Le32(v: nat): (s: seq<Byte>)
    ensures |s| == 4
  {
    [v % 256, v / 256 % 256, v / 0x1_0000 % 256, v / 0x100_0000 % 256]
  }

  function FromLe32(s: seq<Byte>): nat
    requires |s| == 4
  {
    var (a: int, b: int, c: int, d: int) := (s[0], s[1], s[2], s[3]);
    a + 256 * b + 0x1_0000 * c + 0x100_0000 * d
  }

  lemma Le32RoundTrip(v: nat)
    requires v < 0x1_0000_0000
    ensures FromLe32(Le32(v)) == v
  {
    Digits256(v);
  }

  /** The base-256 digits of a 32-bit number. */
  lemma Digits256(v: nat)
    requires v < 0x1_0000_0000
    ensures v == v % 256 + 256 * (v / 256 % 256) + 0x1_0000 * (v / 0x1_0000 % 256) + 0x100_0000 * (v / 0x100_0000 % 256)
  {
    assert v / 0x1_0000 == v / 256 / 256;
    assert v / 0x100_0000 == v / 0x1_0000 / 256;
  }

  /** The four bytes of a 32-bit field, most significant first. */
  function Be32(v: nat): (s: seq<Byte>)
    ensures |s| == 4
  {
    [v / 0x100_0000 % 256, v / 0x1_0000 % 256, v / 256 % 256, v % 256]
  }

  function FromBe32(s: seq<Byte>): nat
    requires |s| == 4
  {
    var (a: int, b: int, c: int, d: int) := (s[0], s[1], s[2], s[3]);
    d + 256 * c + 0x1_0000 * b + 0x100_0000 * a
  }

  lemma Be32RoundTrip(v: nat)
    requires v < 0x1_0000_0000
    ensures FromBe32(Be32(v)) == v
  {
    Digits256(v);
  }

  function Le16(v: nat): (s: seq<Byte>)
    ensures |s| == 2
  {
    [v % 256, v / 256 % 256]
  }

  function FromLe16(s: seq<Byte>): nat
    requires |s| == 2
  {
    var (a: int, b: int) := (s[0], s[1]);
    a + 256 * b
  }

  lemma Le16RoundTrip(v: nat)
    requires v < 0x1_0000
    ensures FromLe16(Le16(v)) == v
  {
  }

  function Le64(v: nat): (s: seq<Byte>)
    ensures |s| == 8
  {
    Le32(v % 0x1_0000_0000) + Le32(v / 0x1_0000_0000)
  }

  function FromLe64(s: seq<Byte>): nat
    requires |s| == 8
  {
    FromLe32(s[..4]) + 0x1_0000_0000 * FromLe32(s[4..])
  }

  lemma Le64RoundTrip(v: nat)
    requires v < 0x1_0000_0000_0000_0000
    ensures FromLe64(Le64(v)) == v
  {
    Le32RoundTrip(v % 0x1_0000_0000);
    Le32RoundTrip(v / 0x1_0000_0000);
    hide Le32, FromLe32;
    assert Le64(v)[..4] == Le32(v % 0x1_0000_0000) && Le64(v)[4..] == Le32(v / 0x1_0000_0000);
  }

  // ---------- fields in the middle of something ----------

  function Field16(s: seq<Byte>, at: nat): nat
    requires at + 2 <= |s|
  {
    FromLe16(s[at..at + 2])
  }

  function Field32(s: seq<Byte>, at: nat): nat
    requires at + 4 <= |s|
  {
    FromLe32(s[at..at + 4])
  }

  function Field64(s: seq<Byte>, at: nat): nat
    requires at + 8 <= |s|
  {
    FromLe64(s[at..at + 8])
  }

  // ---------- the order of bytes ----------

  /** The number spelled by bytes, least significant first. */
  function LittleEndian(s: seq<Byte>): nat
  {
    if s == [] then 0
    else
      var first: int := s[0];
      first + 256 * LittleEndian(s[1..])
  }

  lemma LittleEndianPair(a: seq<Byte>, b: seq<Byte>)
    requires |a| == 2
    ensures LittleEndian(a + b) == LittleEndian(a) + 0x1_0000 * LittleEndian(b)
  {
    var s := a + b;
    assert s[0] == a[0] && s[1..][0] == a[1] && s[1..][1..] == b;
    assert a[1..][0] == a[1] && a[1..][1..] == [];
    assert LittleEndian(s[1..]) == (a[1] as int) + 256 * LittleEndian(b);
    assert LittleEndian(a[1..]) == (a[1] as int) + 256 * LittleEndian([]);
  }

  /** The fields of all widths are read in this order. */
  lemma FieldsLittleEndian(a: seq<Byte>, b: seq<Byte>, c: seq<Byte>)
    requires |a| == 2 && |b| == 4 && |c| == 8
    ensures FromLe16(a) == LittleEndian(a) && FromLe32(b) == LittleEndian(b) && FromLe64(c) == LittleEndian(c)
  {
    PairLittleEndian(a);
    QuadLittleEndian(b);
    QuadLittleEndian(c[..4]);
    QuadLittleEndian(c[4..]);
    LittleEndianPair(c[..2], c[2..]);
    LittleEndianPair(c[2..4], c[4..]);
    LittleEndianPair(c[..2], c[2..4]);
    hide LittleEndian, FromLe32;
    assert c[..2] + c[2..] == c && c[2..4] + c[4..] == c[2..] && c[..2] + c[2..4] == c[..4];
  }

  lemma PairLittleEndian(s: seq<Byte>)
    requires |s| == 2
    ensures FromLe16(s) == LittleEndian(s)
  {
    assert s[1..][0] == s[1] && s[1..][1..] == [];
    assert LittleEndian(s[1..]) == (s[1] as int) + 256 * LittleEndian([]);
  }

  lemma QuadLittleEndian(s: seq<Byte>)
    requires |s| == 4
    ensures FromLe32(s) == LittleEndian(s)
  {
    PairLittleEndian(s[..2]);
    PairLittleEndian(s[2..]);
    LittleEndianPair(s[..2], s[2..]);
    hide LittleEndian;
    assert s[..2] + s[2..] == s;
  }
}
