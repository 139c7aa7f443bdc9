/** The bit reader of containers/core/containers_bits.c.

    The buffer pointer stands on the byte being consumed, one before the next byte to fetch; it starts in front of
    the data.  An invalidated stream has a null pointer but keeps its byte and bit counts. */
module BitReader {
  import opened Common
  import opened BitCodes

  /** The fields of a stream: pointer (relative to the data), whether it is non-null, bytes and bits left. */
  datatype Cursor = Cursor(at: int, valid: bool, bytes: nat, bits: nat)

  /** The cursor n bits on. */
  function After(c: Cursor, n: nat): Cursor
    requires n <= 8 * c.bytes + c.bits
  {
    var left := 8 * c.bytes + c.bits - n;
    Cursor(c.at + c.bytes - left / 8, c.valid, left / 8, left % 8)
  }

  /** The buffer holds the counted bits; the byte count times eight fits 32 bits. */
  predicate Sound(data: seq<Byte>, c: Cursor)
  {
    && c.bits < 8 && c.bytes < 0x2000_0000
    && (c.valid && 8 * c.bytes + c.bits > 0 ==> c.bits <= 8 * (c.at + 1) && c.at + 1 + c.bytes <= |data|)
  }

  /** The bits behind the cursor. */
  function RestOf(data: seq<Byte>, c: Cursor): (r: seq<bool>)
    requires Sound(data, c)
    ensures |r| == if c.valid then 8 * c.bytes + c.bits else 0
  {
    if c.valid && 8 * c.bytes + c.bits > 0 then BitsOf(data, 8 * (c.at + 1) - c.bits, 8 * (c.at + 1 + c.bytes))
    else []
  }

  /** After n bits the rest is the rest without them. */
  lemma RestAfter(data: seq<Byte>, c: Cursor, n: nat)
    requires Sound(data, c) && c.valid && n <= |RestOf(data, c)|
    ensures Sound(data, After(c, n)) && RestOf(data, After(c, n)) == RestOf(data, c)[n..]
  {
    hide BitAt;
    var d := After(c, n);
    if n < |RestOf(data, c)| {
      var p: nat := 8 * (c.at + 1) - c.bits;
      assert 8 * (d.at + 1) - d.bits == p + n;
      BitsSplit(data, p, p + n, 8 * (c.at + 1 + c.bytes));
    }
  }

  /** Moving on in two steps or in one ends in the same state. */
  lemma AfterAfter(c: Cursor, a: nat, b: nat)
    requires a + b <= 8 * c.bytes + c.bits
    ensures After(After(c, a), b) == After(c, a + b)
  {
  }

  /** Two consecutive reads together spell what one read of all the bits spells. */
  lemma SplitRead(bits: seq<bool>, a: nat, b: nat)
    requires a + b <= |bits|
    ensures Value(bits[..a + b]) == Value(bits[..a]) * Pow2(b) + Value(bits[a..][..b])
    ensures bits[a..][b..] == bits[a + b..]
  {
    assert bits[..a + b] == bits[..a] + bits[a..][..b];
    ValueConcat(bits[..a], bits[a..][..b]);
  }

  /** Where the unsigned read of a codeword ends, a skip of it ends too; the skip also passes codewords of more than
      32 information bits, which the read refuses. */
  lemma SkipLandsWhereReadLands(bits: seq<bool>)
    ensures ReadCode(bits).Decoded? ==>
              ScanPrefix(bits).Prefix? && ReadCode(bits).rest == ScanPrefix(bits).rest[ScanPrefix(bits).infoBits..]
    ensures HasCode(bits) && LeadingZeros(bits) > 32 ==> ScanPrefix(bits).Prefix? && ReadCode(bits) == Invalid
  {
  }

  /** One round of the read loop appends the digits taken from the current byte. */
  lemma ReadStep(data: seq<Byte>, p: nat, at: nat, left: nat, take: nat, value: nat)
    requires at < |data| && take <= left <= 8 && p <= 8 * at + 8 - left
    requires value == Value(BitsOf(data, p, 8 * at + 8 - left))
    ensures value * Pow2(take) + Digits(data[at], left - take, take)
            == Value(BitsOf(data, p, 8 * at + 8 - left + take))
  {
    hide Pow2, Digits, BitAt, Value;
    var m := 8 * at + 8 - left;
    ByteBits(data, at, left, take);
    BitsSplit(data, p, m, m + take);
    ValueConcat(BitsOf(data, p, m), BitsOf(data, m, m + take));
  }

  /** The whole byte is all of its eight digits. */
  lemma WholeByte(b: Byte)
    ensures Digits(b, 0, 8) == b
  {
    assert Pow2(4) == 16 && Pow2(8) == 256;
  }

  class BitStream {
    const data: seq<Byte>
    var at: int
    var valid: bool
    var bytes: nat
    var bits: nat

    ghost function Fields(): Cursor
      reads this
    {
      Cursor(at, valid, bytes, bits)
    }

    ghost predicate Valid()
      reads this
    {
      Sound(data, Fields())
    }

    /** The bits still to be read. */
    ghost function Rest(): (r: seq<bool>)
      requires Valid()
      reads this
      ensures |r| == if valid then 8 * bytes + bits else 0
    {
      RestOf(data, Fields())
    }

    constructor (buffer: seq<Byte>)
      requires |buffer| < 0x2000_0000
      ensures Valid() && valid && data == buffer
      ensures Rest() == BitsOf(buffer, 0, 8 * |buffer|)
      ensures Fields() == Cursor(-1, true, |buffer|, 0)
    {
      data := buffer;
      at := -1;
      valid := true;
      bytes := |buffer|;
      bits := 0;
    }

    method Available() returns (n: nat)
      requires Valid()
      ensures n == |Rest()|
    {
      if !valid {
        return 0;
      }
      n := 8 * bytes + bits;
    }

    method Invalidate()
      requires bits < 8 && bytes < 0x2000_0000
      modifies this`valid
      ensures Valid() && !valid && Rest() == []
    {
      valid := false;
    }

    /** Skips n bits, or invalidates the stream if there are not so many.  Skipping nothing on an invalidated stream
        that still counts some bytes leaves a stream that is empty but not marked invalid. */
    method Skip(n: nat)
      requires Valid()
      modifies this`at, this`valid, this`bytes, this`bits
      ensures Valid()
      ensures old(|Rest()|) < n ==> !valid && bytes == old(bytes)
      ensures old(|Rest()|) >= n ==> Rest() == old(Rest())[n..]
      ensures old(|Rest()|) >= n && old(valid) ==> Fields() == After(old(Fields()), n)
      ensures !old(valid) && n == 0 ==> (valid <==> old(bytes) > 0)
    {
      hide BitsOf, BitAt;
      var have := Available();
      if have < n {
        Invalidate();
        return;
      }
      have := have - n;
      var newBytes := have / 8;
      bits := have % 8;
      at := at + (bytes - newBytes);
      valid := valid || bytes > newBytes;
      bytes := newBytes;
      if old(valid) {
        RestAfter(data, old(Fields()), n);
      }
    }

    /** Reads the number spelled by the next n bits. */
    method ReadU32(n: nat) returns (value: nat)
      requires Valid() && n <= 32
      modifies this`at, this`valid, this`bytes, this`bits
      ensures Valid()
      ensures old(|Rest()|) < n ==> value == 0 && !valid
      ensures old(|Rest()|) >= n ==> value == Value(old(Rest())[..n]) < Pow2(n) && Rest() == old(Rest())[n..]
      ensures old(|Rest()|) >= n && old(valid) ==> Fields() == After(old(Fields()), n)
      ensures old(|Rest()|) >= n && !old(valid) ==> Fields() == old(Fields())
    {
      hide Pow2, Value, BitAt, Digits, BitsOf, BitStream.Rest;
      value := 0;
      var have := Available();
      if n > have {
        Invalidate();
        return;
      }
      if n > 0 {
        value := ReadBits(n);
      } else {
        EmptyValue(Rest());
        assert Rest()[0..] == Rest();
        assert valid ==> Fields() == After(Fields(), 0);
      }
      ValueBound(old(Rest())[..n]);
    }

    /** The reading part of ReadU32. */
    method ReadBits(n: nat) returns (value: nat)
      requires Valid() && valid && 0 < n <= |Rest()| && n <= 32
      modifies this`at, this`bytes, this`bits
      ensures Valid() && Fields() == After(old(Fields()), n)
      ensures value == Value(old(Rest())[..n]) && Rest() == old(Rest())[n..]
    {
      hide Pow2, Value, BitAt, Digits, BitsOf;
      ghost var total := |Rest()|;
      ghost var start: nat := 8 * (at + 1) - bits;
      value := TakeBits(n, start, total);
      BitsSplit(data, start, start + n, start + total);
      RestAfter(data, old(Fields()), n);
    }

    /** The loop of ReadU32: the bits behind position start of the data. */
    method TakeBits(n: nat, ghost start: nat, ghost total: nat) returns (value: nat)
      requires n <= total == 8 * bytes + bits && bits < 8 && -1 <= at
      requires start == 8 * (at + 1) - bits && start + total <= 8 * |data|
      modifies this`at, this`bytes, this`bits
      ensures bits < 8 && 8 * bytes + bits == total - n && 8 * (at + 1) - bits == start + n
      ensures at + bytes == old(at + bytes)
      ensures value == Value(BitsOf(data, start, start + n))
    {
      hide *;
      var needed: nat := n;
      var left: nat := bits;
      value := 0;
      NoBits(data, start);
      while needed > 0
        invariant needed <= n && left < 8 && -1 <= at
        invariant 8 * bytes + left == total - (n - needed)
        invariant 8 * (at + 1) - left == start + (n - needed)
        invariant at + bytes == old(at + bytes)
        invariant value == Value(BitsOf(data, start, start + (n - needed)))
      {
        if left == 0 {
          bytes := bytes - 1;
          at := at + 1;
          left := 8;
        }
        var take: nat := left;
        if needed < take {
          take := needed;
        }
        ReadStep(data, start, at, left, take, value);
        left := left - take;
        needed := needed - take;
        WholeByte(data[at]);
        value := value * Pow2(take) + if take == 8 then data[at] else Digits(data[at], left, take);
      }
      bits := left;
    }

    lemma AtStart()
      requires Valid()
      ensures var c := Cursor(at, valid, bytes, bits);
              && c == Fields() && Sound(data, c) && Rest() == RestOf(data, c)
              && bits < 8 && bytes < 0x2000_0000
              && |Rest()| == if valid then 8 * bytes + bits else 0
    {
      SoundBounds(data, Cursor(at, valid, bytes, bits));
      hide BitsOf, BitAt;
    }

    /** Counts the zero bits in front of the next one bit and removes both. */
    method LeadingZeroBits() returns (zeros: nat)
      requires Valid()
      modifies this`at, this`valid, this`bytes, this`bits
      ensures Valid()
      ensures match ScanPrefix(old(Rest()))
              case NoPrefix => zeros == 0 && !valid && bytes == (if old(valid) then old(|Rest()|) / 16 else old(bytes))
              case Prefix(k, rest) => zeros == k && valid && Rest() == rest
    {
      hide *;
      ghost var before := Cursor(at, valid, bytes, bits);
      AtStart();
      ghost var was := Rest();
      var left := Available();
      if left == 0 {
        NothingToScan();
        Invalidate();
        return 0;
      }
      var newBits;
      zeros, left, newBits := ScanZeros(left);
      ScanEnds(was, zeros, left);
      EighthOf(bytes, newBits, left);
      if zeros > left {
        Invalidate();
        return 0;
      }
      bits := newBits;
      Finish(before, was, |was| - left);
    }

    /** The stream after its last field has been stored. */
    lemma Finish(before: Cursor, was: seq<bool>, n: nat)
      requires Sound(data, before) && before.valid && was == RestOf(data, before) && n <= |was|
      requires valid && bits < 8 && 8 * bytes + bits == |was| - n && at + bytes == before.at + before.bytes
      ensures Valid() && valid && Rest() == was[n..]
    {
      assert Fields() == After(before, n);
      RestAfter(data, before, n);
    }

    /** The scan loop of LeadingZeroBits.  It stops behind the first one bit, or else when it has passed half of the
        available bits. */
    method ScanZeros(available: nat) returns (zeros: nat, left: nat, newBits: nat)
      requires Valid() && valid && available == |Rest()| > 0
      modifies this`at, this`bytes
      ensures newBits < 8 && 8 * bytes + newBits == left <= available && at + bytes == old(at + bytes)
      ensures if HasCode(old(Rest())) then zeros == LeadingZeros(old(Rest())) && left == available - zeros - 1
              else zeros == (available + 1) / 2 && left == available / 2
    {
      hide Pow2, BitAt;
      ghost var was := Rest();
      ghost var start := 8 * (at + 1) - bits;
      var current, mask := 0, 0;
      left, newBits := available, bits;
      if newBits > 0 {
        current := data[at];
        mask := Pow2(newBits - 1);
      }
      zeros := 0;
      while zeros < left
        invariant zeros <= available && left == available - zeros && zeros <= left + 1
        invariant newBits < 8 && 8 * bytes + newBits == left && at + bytes == old(at + bytes)
        invariant 8 * (at + 1) - newBits == start + zeros && -1 <= at
        invariant newBits > 0 ==> at >= 0 && current == data[at] && mask == Pow2(newBits - 1)
        invariant forall i :: 0 <= i < zeros ==> !was[i]
      {
        if newBits == 0 {
          assert bytes > 0; // so the check for a missing byte in the source never fires
          bytes := bytes - 1;
          at := at + 1;
          current := data[at];
          newBits := 8;
          mask := 0x80;
          TopBit();
        }
        newBits := newBits - 1;
        left := left - 1;
        BitInByte(data, at, newBits);
        assert was[zeros] == BitAt(data, start + zeros);
        if current / mask % 2 == 1 {
          LeadingZerosUnique(was, zeros);
          return;
        }
        NextMask(newBits);
        mask := mask / 2;
        zeros := zeros + 1;
      }
      LeadingZerosAtLeast(was, zeros);
    }

    /** ue(v): the value of the codeword read, which is removed; otherwise zero and the stream is invalid. */
    method ReadU32ExpGolomb() returns (codeNum: nat)
      requires Valid()
      modifies this`at, this`valid, this`bytes, this`bits
      ensures Valid() && codeNum <= MAX_U32
      ensures match ReadCode(old(Rest()))
              case Invalid => codeNum == 0 && !valid
              case Decoded(value, rest) => codeNum == value && valid && Rest() == rest
    {
      hide Pow2, Value, BitsOf, ScanPrefix, ReadCode, BitStream.Rest, RestOf;
      ReadCodeCases(Rest());
      ReadFits(Rest());
      var zeros := LeadingZeroBits();
      if zeros > 32 {
        Invalidate();
        return 0;
      }
      Pow2Zero();
      codeNum := ReadU32(zeros);
      if zeros == 32 {
        if codeNum != 0 {
          Invalidate();
          return 0;
        }
        return 0xFFFF_FFFF;
      }
      codeNum := codeNum + Pow2(zeros) - 1;
    }

    /** se(v): the signed value of the codeword read; the codeNum that does not fit 32 bits invalidates the stream. */
    method ReadS32ExpGolomb() returns (value: int)
      requires Valid()
      modifies this`at, this`valid, this`bytes, this`bits
      ensures Valid()
      ensures match ReadCode(old(Rest()))
              case Invalid => value == 0 && !valid
              case Decoded(u, rest) =>
                if u == MAX_U32 then value == 0 && !valid
                else value == ToSigned(u) && valid && Rest() == rest
      ensures -0x8000_0000 < value < 0x8000_0000
    {
      hide ReadCode, BitStream.Rest;
      var u := ReadU32ExpGolomb();
      if u == 0xFFFF_FFFF {
        Invalidate();
        return 0;
      }
      SignedMapping(u, 0);
      var sign: int := u % 2 * 2;
      sign := sign - 1;
      value := sign * (u / 2 + u % 2);
    }

    /** Skips a codeword.  If there is none the stream is left empty, but it passes for valid when at least two bytes
        were available, because skipping no bits moves the null pointer on. */
    method SkipExpGolomb()
      requires Valid()
      modifies this`at, this`valid, this`bytes, this`bits
      ensures Valid()
      ensures match ScanPrefix(old(Rest()))
              case Prefix(k, rest) => valid && Rest() == rest[k..]
              case NoPrefix => Rest() == [] && (valid <==> if old(valid) then old(|Rest()|) >= 16 else old(bytes) > 0)
    {
      hide ScanPrefix, BitStream.Rest;
      var zeros := LeadingZeroBits();
      Skip(zeros);
    }
  }

  lemma SoundBounds(data: seq<Byte>, c: Cursor)
    requires Sound(data, c)
    ensures c.bits < 8 && c.bytes < 0x2000_0000
  {
  }

  lemma EighthOf(bytes: nat, bits: nat, all: nat)
    requires 8 * bytes + bits == all && bits < 8
    ensures bytes == all / 8
  {
  }

  lemma NothingToScan()
    ensures ScanPrefix([]) == NoPrefix
  {
  }

  /** What the scan loop finds is what the prefix scan is specified to find. */
  lemma ScanEnds(bits: seq<bool>, zeros: nat, left: nat)
    requires |bits| > 0
    requires if HasCode(bits) then zeros == LeadingZeros(bits) && left == |bits| - zeros - 1
             else zeros == (|bits| + 1) / 2 && left == |bits| / 2
    ensures ScanPrefix(bits) == if zeros > left then NoPrefix else Prefix(zeros, bits[|bits| - left..])
    ensures zeros > left ==> left / 8 == |bits| / 16
  {
    var z := LeadingZeros(bits);
    hide LeadingZeros;
    if HasCode(bits) {
      assert |bits| - left == z + 1;
    } else if |bits| % 2 == 0 {
      assert |bits| - left == |bits| / 2;
    }
  }

  /** The cases of the value that is read. */
  lemma ReadCodeCases(bits: seq<bool>)
    ensures match ScanPrefix(bits)
            case NoPrefix => ReadCode(bits) == Invalid
            case Prefix(k, rest) =>
              && (k > 32 ==> ReadCode(bits) == Invalid)
              && (k == 32 ==> ReadCode(bits) == if Value(rest[..k]) != 0 then Invalid else Decoded(MAX_U32, rest[k..]))
              && (k < 32 ==> ReadCode(bits) == Decoded(Value(rest[..k]) + Pow2(k) - 1, rest[k..]))
  {
    hide Pow2, Value, ScanPrefix;
  }

  lemma TopBit()
    ensures Pow2(7) == 0x80
  {
  }

  lemma Pow2Zero()
    ensures Pow2(0) == 1
  {
  }

  lemma NextMask(n: nat)
    ensures n > 0 ==> Pow2(n) / 2 == Pow2(n - 1)
  {
  }

  lemma EmptyValue(bits: seq<bool>)
    ensures Value(bits[..0]) == 0
  {
  }

  /** Half of the bits being zero means that no whole codeword is there. */
  lemma LeadingZerosAtLeast(bits: seq<bool>, n: nat)
    requires n <= |bits| <= 2 * n && forall i :: 0 <= i < n ==> !bits[i]
    ensures !HasCode(bits)
  {
  }

  lemma OddZeros(n: nat)
    requires n % 2 == 1
    ensures ScanPrefix(Zeros(n)) == NoPrefix
  {
    LeadingZerosUnique(Zeros(n), n);
  }

  lemma ZeroBits(data: seq<Byte>, p: nat)
    requires p <= 8 * |data| && forall i :: 0 <= i < |data| ==> data[i] == 0
    ensures BitsOf(data, p, 8 * |data|) == Zeros(8 * |data| - p)
  {
    hide Pow2;
    forall i | p <= i < 8 * |data|
      ensures !BitAt(data, i)
    {
      ZeroDigit(Pow2(7 - i % 8));
    }
  }

  lemma ZeroDigit(d: nat)
    requires d > 0
    ensures 0 / d % 2 == 0
  {
  }

  /** An input for which the documented promise fails that skipping a truncated codeword invalidates the stream:
      seventeen zero bits. */
  method SkipTruncated() returns (stream: BitStream)
    ensures stream.data == [0, 0, 0] && stream.Valid() && stream.Rest() == [] && stream.valid
  {
    stream := new BitStream([0, 0, 0]);
    ghost var all := stream.Rest();
    stream.Skip(7);
    ZeroBits([0, 0, 0], 0);
    assert stream.Rest() == all[7..] == Zeros(17);
    OddZeros(17);
    stream.SkipExpGolomb();
  }
}
