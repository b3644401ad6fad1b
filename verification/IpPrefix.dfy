/** Byte-wise prefix masks and range membership, proved equal to arithmetic on the address as one big
    number (section 3.1 of RFC 4632); and the ordering of addresses and ranges of both families. */
module IpPrefix {
  import opened Options

  type Bytes = seq<bv8>

  const BYTE_BITS := 8
  const IPV4_SIZE := 4
  const IPV6_SIZE := 16

  // ----- addresses as numbers

  function Pow2(n: nat): (p: nat)
    ensures 0 < p
  {
    if n == 0 then 1 else 2 * Pow2(n - 1)
  }

  /** A byte as a number, by its bits. */
  function Num(b: bv8): nat
    decreases b
  {
    if b == 0 then 0 else 2 * Num(b >> 1) + (if b & 1 == 1 then 1 else 0)
  }

  /** The address read big-endian. */
  function Value(a: Bytes): nat {
    if a == [] then 0 else 256 * Value(a[..|a| - 1]) + Num(a[|a| - 1])
  }

  // ----- what the byte loops compute

  function AndBytes(a: Bytes, b: Bytes): (r: Bytes)
    requires |a| == |b|
    ensures |r| == |a| && forall i :: 0 <= i < |r| ==> r[i] == a[i] & b[i]
  {
    seq(|a|, i requires 0 <= i < |a| => a[i] & b[i])
  }

  /** How many of the first `bits` bits of an address fall into byte i. */
  function BitsIn(bits: nat, i: nat): (n: nat)
    ensures n <= 8
  {
    if bits <= 8 * i then 0 else if 8 * i + 8 <= bits then 8 else bits - 8 * i
  }

  /** A byte with its first `n` bits set. */
  function MaskByte(n: nat): bv8
    requires n <= 8
  {
    if n == 0 then 0 else if n == 1 then 0x80 else if n == 2 then 0xC0 else if n == 3 then 0xE0 else if n == 4 then 0xF0
    else if n == 5 then 0xF8 else if n == 6 then 0xFC else if n == 7 then 0xFE else 0xFF
  }

  function MaskBytes(size: nat, bits: nat): (m: Bytes)
    ensures |m| == size && forall i :: 0 <= i < size ==> m[i] == MaskByte(BitsIn(bits, i))
  {
    seq(size, i requires 0 <= i < size => MaskByte(BitsIn(bits, i)))
  }

  predicate Contains(ip: Bytes, mask: Bytes, address: Bytes)
    requires |ip| == |mask| == |address|
  {
    AndBytes(mask, address) == AndBytes(mask, ip)
  }

  // ----- the code

  /** The shift create_mask uses, cut to a byte. */
  lemma {:induction false} MaskByteIsShift(n: nat)
    requires n <= 8
    ensures 0xFF << (8 - n) == MaskByte(n)
  {
    if n == 0 { assert (0xFF as bv8) << 8 == 0; }
    else if n == 1 { assert (0xFF as bv8) << 7 == 0x80; }
    else if n == 2 { assert (0xFF as bv8) << 6 == 0xC0; }
    else if n == 3 { assert (0xFF as bv8) << 5 == 0xE0; }
    else if n == 4 { assert (0xFF as bv8) << 4 == 0xF0; }
    else if n == 5 { assert (0xFF as bv8) << 3 == 0xF8; }
    else if n == 6 { assert (0xFF as bv8) << 2 == 0xFC; }
    else if n == 7 { assert (0xFF as bv8) << 1 == 0xFE; }
    else { assert (0xFF as bv8) << 0 == 0xFF; }
  }

  /** and_arrays: also correct when the destination is one of the operands. */
  method AndArrays(a: array<bv8>, b: array<bv8>, dst: array<bv8>)
    requires a.Length == b.Length == dst.Length
    modifies dst
    ensures dst[..] == AndBytes(old(a[..]), old(b[..]))
  {
    ghost var x, y := a[..], b[..];
    for i := 0 to dst.Length
      invariant forall j :: i <= j < dst.Length ==> a[j] == x[j] && b[j] == y[j]
      invariant forall j :: 0 <= j < i ==> dst[j] == x[j] & y[j]
    {
      dst[i] := a[i] & b[i];
    }
  }

  /** create_mask: one byte at a time while bits are left; too many bits throw. */
  method CreateMask(size: nat, bits: nat) returns (mask: Option<array<bv8>>)
    requires bits < 0x100
    ensures mask.None? <==> 8 * size < bits
    ensures mask.Some? ==> fresh(mask.value) && mask.value[..] == MaskBytes(size, bits)
  {
    if size * BYTE_BITS < bits {
      return None;
    }
    var retval := new bv8[size](_ => 0);
    var left, i := bits, 0;
    while i < size && 0 < left
      invariant 0 <= i <= size
      invariant left == if bits <= 8 * i then 0 else bits - 8 * i
      invariant forall j :: 0 <= j < i ==> retval[j] == MaskByte(BitsIn(bits, j))
      invariant forall j :: i <= j < size ==> retval[j] == 0
    {
      var n := if BYTE_BITS <= left then BYTE_BITS else left;
      retval[i] := 0xFF << (BYTE_BITS - n);
      MaskByteIsShift(n);
      left := left - n;
      i := i + 1;
    }
    return Some(retval);
  }

  /** ip_range_base::contains. */
  method RangeContains(ip: array<bv8>, mask: array<bv8>, address: array<bv8>) returns (r: bool)
    requires ip.Length == mask.Length == address.Length
    ensures r <==> Contains(ip[..], mask[..], address[..])
  {
    var ipResult := new bv8[ip.Length](_ => 0);
    var localResult := new bv8[ip.Length](_ => 0);
    AndArrays(mask, address, ipResult);
    AndArrays(mask, ip, localResult);
    r := ipResult[..] == localResult[..];
  }

  // ----- the mask as a number

  lemma {:induction false} PowByte(n: nat)
    ensures Pow2(n + 8) == 256 * Pow2(n)
  {
    assert Pow2(n + 2) == 4 * Pow2(n) && Pow2(n + 4) == 4 * Pow2(n + 2);
    assert Pow2(n + 6) == 4 * Pow2(n + 4) && Pow2(n + 8) == 4 * Pow2(n + 6);
  }

  lemma {:induction false} SmallPowers()
    ensures Pow2(0) == 1 && Pow2(1) == 2 && Pow2(2) == 4 && Pow2(3) == 8 && Pow2(4) == 16
    ensures Pow2(5) == 32 && Pow2(6) == 64 && Pow2(7) == 128 && Pow2(8) == 256
  {
    assert Pow2(2) == 4 && Pow2(4) == 4 * Pow2(2) && Pow2(6) == 4 * Pow2(4) && Pow2(8) == 4 * Pow2(6);
  }

  lemma {:induction false} MaskByteValue(n: nat)
    requires n <= 8
    ensures Num(MaskByte(n)) == 256 - Pow2(8 - n)
  {
    SmallPowers();
    assert Num(0xFF) == 255 by { assert Num(3) == 3; assert Num(15) == 15; assert Num(63) == 63; assert Num(255) == 255; }
    assert Num(0xFE) == 254 by { assert Num(3) == 3; assert Num(15) == 15; assert Num(63) == 63; assert Num(254) == 254; }
    assert Num(0xFC) == 252 by { assert Num(3) == 3; assert Num(15) == 15; assert Num(63) == 63; assert Num(252) == 252; }
    assert Num(0xF8) == 248 by { assert Num(3) == 3; assert Num(15) == 15; assert Num(62) == 62; assert Num(248) == 248; }
    assert Num(0xF0) == 240 by { assert Num(3) == 3; assert Num(15) == 15; assert Num(60) == 60; assert Num(240) == 240; }
    assert Num(0xE0) == 224 by { assert Num(3) == 3; assert Num(14) == 14; assert Num(56) == 56; assert Num(224) == 224; }
    assert Num(0xC0) == 192 by { assert Num(3) == 3; assert Num(12) == 12; assert Num(48) == 48; assert Num(192) == 192; }
    assert Num(0x80) == 128 by { assert Num(2) == 2; assert Num(8) == 8; assert Num(32) == 32; assert Num(128) == 128; }
  }

  function Min(a: nat, b: nat): nat {
    if a <= b then a else b
  }

  lemma {:induction false} MaskValueAny(size: nat, bits: nat)
    ensures Value(MaskBytes(size, bits)) == Pow2(8 * size) - Pow2(8 * size - Min(bits, 8 * size))
  {
    if size != 0 {
      var m, n := MaskBytes(size, bits), size - 1;
      MaskValueAny(n, bits);
      assert m[..n] == MaskBytes(n, bits);
      MaskByteValue(BitsIn(bits, n));
      PowByte(8 * n);
      if bits <= 8 * n {
        PowByte(8 * n - bits);
        assert Pow2(8) == 256 by { SmallPowers(); }
      } else {
        assert Pow2(0) == 1;
      }
    }
  }

  /** create_mask(n) read big-endian is 2^(8s) - 2^(8s-n). */
  lemma {:induction false} MaskValue(size: nat, bits: nat)
    requires bits <= 8 * size
    ensures Value(MaskBytes(size, bits)) == Pow2(8 * size) - Pow2(8 * size - bits)
  {
    MaskValueAny(size, bits);
  }

  // ----- bytes under a mask

  /** A number without its last n bits. */
  function Shifted(v: nat, n: nat): nat {
    if n == 0 then v else Shifted(v, n - 1) / 2
  }

  /** A byte without its last n bits. */
  function Shr(a: bv8, n: nat): bv8 {
    if n == 0 then a else Shr(a, n - 1) >> 1
  }

  /** On bit vectors alone: a mask of the high bits compares what a shift keeps. */
  lemma {:induction false} MaskComparesHighBits(a: bv8, b: bv8)
    ensures (0x80 & a) == (0x80 & b) <==> a >> 7 == b >> 7
    ensures (0xC0 & a) == (0xC0 & b) <==> a >> 6 == b >> 6
    ensures (0xE0 & a) == (0xE0 & b) <==> a >> 5 == b >> 5
    ensures (0xF0 & a) == (0xF0 & b) <==> a >> 4 == b >> 4
    ensures (0x00 & a) == (0x00 & b)
  {
  }

  lemma {:induction false} MaskComparesMostBits(a: bv8, b: bv8)
    ensures (0xF8 & a) == (0xF8 & b) <==> a >> 3 == b >> 3
    ensures (0xFC & a) == (0xFC & b) <==> a >> 2 == b >> 2
    ensures (0xFE & a) == (0xFE & b) <==> a >> 1 == b >> 1
    ensures (0xFF & a) == (0xFF & b) <==> a == b
  {
  }

  lemma {:induction false} ShiftsAreShifts(a: bv8)
    ensures Shr(a, 0) == a && Shr(a, 1) == a >> 1 && Shr(a, 2) == a >> 2 && Shr(a, 3) == a >> 3 && Shr(a, 4) == a >> 4
    ensures Shr(a, 5) == a >> 5 && Shr(a, 6) == a >> 6 && Shr(a, 7) == a >> 7 && Shr(a, 8) == 0
  {
    assert Shr(a, 1) == a >> 1;
    assert Shr(a, 2) == a >> 2;
    assert Shr(a, 3) == a >> 3;
    assert Shr(a, 4) == a >> 4;
    assert Shr(a, 5) == a >> 5;
    assert Shr(a, 6) == a >> 6;
    assert Shr(a, 7) == a >> 7;
  }

  /** The cases of one byte under a mask, each with its own constant. */
  function MaskedBits(n: nat, a: bv8): bv8
    requires n <= 8
  {
    if n == 0 then 0 else if n == 1 then 0x80 & a else if n == 2 then 0xC0 & a else if n == 3 then 0xE0 & a
    else if n == 4 then 0xF0 & a else if n == 5 then 0xF8 & a else if n == 6 then 0xFC & a
    else if n == 7 then 0xFE & a else a
  }

  lemma {:induction false} MaskedByCases(n: nat, a: bv8)
    requires n <= 8
    ensures MaskByte(n) & a == MaskedBits(n, a)
  {
    assert 0x00 & a == 0 && 0xFF & a == a;
  }

  lemma {:induction false} CasesCompare(n: nat, a: bv8, b: bv8)
    requires n <= 8
    ensures MaskedBits(n, a) == MaskedBits(n, b) <==> Shr(a, 8 - n) == Shr(b, 8 - n)
  {
    if n <= 4 {
      HighCasesCompare(n, a, b);
    } else {
      ShiftsAreShifts(a);
      ShiftsAreShifts(b);
      MaskComparesMostBits(a, b);
    }
  }

  lemma {:induction false} HighCasesCompare(n: nat, a: bv8, b: bv8)
    requires n <= 4
    ensures MaskedBits(n, a) == MaskedBits(n, b) <==> Shr(a, 8 - n) == Shr(b, 8 - n)
  {
    ShiftsAreShifts(a);
    ShiftsAreShifts(b);
    MaskComparesHighBits(a, b);
  }

  lemma {:induction false} MaskKeeps(n: nat, a: bv8, b: bv8)
    requires n <= 8
    ensures (MaskByte(n) & a) == (MaskByte(n) & b) <==> Shr(a, 8 - n) == Shr(b, 8 - n)
  {
    MaskedByCases(n, a);
    MaskedByCases(n, b);
    CasesCompare(n, a, b);
  }

  lemma {:induction false} ShiftOnce(x: bv8)
    ensures Num(x >> 1) == Num(x) / 2
  {
    if x == 0 {
      assert x >> 1 == 0;
    }
  }

  lemma {:induction false} Halves(a: bv8, b: bv8)
    ensures a == b <==> a >> 1 == b >> 1 && a & 1 == b & 1
    ensures a < b <==> a >> 1 < b >> 1 || (a >> 1 == b >> 1 && a & 1 == 0 && b & 1 == 1)
    ensures (a & 1 == 0 || a & 1 == 1) && (b & 1 == 0 || b & 1 == 1)
    ensures a != 0 ==> a >> 1 < a
    ensures a == 0 ==> a >> 1 == 0 && a & 1 == 0
    ensures b == 0 ==> b >> 1 == 0 && b & 1 == 0
  {
  }

  lemma {:induction false} NumUnfold(a: bv8)
    ensures Num(a) == 2 * Num(a >> 1) + (if a & 1 == 1 then 1 else 0)
  {
    Halves(a, a);
  }

  /** The number of a byte says which byte it is, and keeps the order of bytes. */
  lemma {:induction false} NumOrder(a: bv8, b: bv8)
    ensures a == b <==> Num(a) == Num(b)
    ensures a < b <==> Num(a) < Num(b)
    decreases a, b
  {
    Halves(a, b);
    Halves(b, a);
    NumUnfold(a);
    NumUnfold(b);
    if a != 0 || b != 0 {
      NumOrder(a >> 1, b >> 1);
    }
  }

  /** It is the number Dafny converts the byte to. */
  lemma {:induction false} NumIsNat(a: bv8)
    ensures Num(a) == a as nat
    decreases a
  {
    if a != 0 {
      Halves(a, a);
      NumIsNat(a >> 1);
      HalfAsNat(a);
    }
  }

  lemma {:induction false} HalfAsNat(a: bv8)
    ensures a as nat == 2 * (a >> 1) as nat + (if a & 1 == 1 then 1 else 0)
  {
  }

  /** The number a right shift leaves. */
  lemma {:induction false} ShrNumber(a: bv8, n: nat)
    ensures Num(Shr(a, n)) == Shifted(Num(a), n)
  {
    if n != 0 {
      ShrNumber(a, n - 1);
      ShiftOnce(Shr(a, n - 1));
    }
  }

  lemma {:induction false} ByteBound(x: bv8)
    ensures Num(x) < 256
  {
    ShiftsAreShifts(x);
    ShrNumber(x, 8);
    EightHalvings(Num(x));
  }

  lemma {:induction false} EightHalvings(v: nat)
    requires Shifted(v, 8) == 0
    ensures v < 256
  {
    assert Shifted(v, 7) < 2;
    assert Shifted(v, 6) < 4;
    assert Shifted(v, 5) < 8;
    assert Shifted(v, 4) < 16;
    assert Shifted(v, 3) < 32;
    assert Shifted(v, 2) < 64;
    assert Shifted(v, 1) < 128;
  }

  lemma {:induction false} ByteAgrees(n: nat, a: bv8, b: bv8)
    requires n <= 8
    ensures (MaskByte(n) & a) == (MaskByte(n) & b) <==> Shifted(Num(a), 8 - n) == Shifted(Num(b), 8 - n)
  {
    MaskKeeps(n, a, b);
    ShrNumber(a, 8 - n);
    ShrNumber(b, 8 - n);
    NumOrder(Shr(a, 8 - n), Shr(b, 8 - n));
  }

  // ----- membership as arithmetic

  lemma {:induction false} ShiftedTwice(v: nat, a: nat, b: nat)
    ensures Shifted(v, a + b) == Shifted(Shifted(v, a), b)
  {
    if b != 0 {
      ShiftedTwice(v, a, b - 1);
    }
  }

  /** Shifting a number and a byte below it, bit by bit. */
  lemma {:induction false} Halvings(v: nat, x: nat)
    requires x < 256
    ensures var u := 256 * v + x;
      && Shifted(u, 1) == 128 * v + Shifted(x, 1) && Shifted(x, 1) < 128
      && Shifted(u, 2) == 64 * v + Shifted(x, 2) && Shifted(x, 2) < 64
      && Shifted(u, 3) == 32 * v + Shifted(x, 3) && Shifted(x, 3) < 32
      && Shifted(u, 4) == 16 * v + Shifted(x, 4) && Shifted(x, 4) < 16
      && Shifted(u, 5) == 8 * v + Shifted(x, 5) && Shifted(x, 5) < 8
      && Shifted(u, 6) == 4 * v + Shifted(x, 6) && Shifted(x, 6) < 4
      && Shifted(u, 7) == 2 * v + Shifted(x, 7) && Shifted(x, 7) < 2
      && Shifted(u, 8) == v && Shifted(x, 8) == 0
  {
    var u := 256 * v + x;
    assert Shifted(u, 1) == 128 * v + Shifted(x, 1);
    assert Shifted(u, 2) == 64 * v + Shifted(x, 2);
    assert Shifted(u, 3) == 32 * v + Shifted(x, 3);
    assert Shifted(u, 4) == 16 * v + Shifted(x, 4);
    assert Shifted(u, 5) == 8 * v + Shifted(x, 5);
    assert Shifted(u, 6) == 4 * v + Shifted(x, 6);
    assert Shifted(u, 7) == 2 * v + Shifted(x, 7);
    assert Shifted(u, 8) == v + Shifted(x, 8);
  }

  lemma {:induction false} ShiftedByte(v: nat, x: nat, n: nat)
    requires x < 256
    ensures Shifted(256 * v + x, 8 + n) == Shifted(v, n)
  {
    Halvings(v, x);
    ShiftedTwice(256 * v + x, 8, n);
  }

  lemma {:induction false} ShiftedLow(v: nat, x: nat, w: nat, y: nat, n: nat)
    requires x < 256 && y < 256 && n < 8
    ensures Shifted(256 * v + x, n) == Shifted(256 * w + y, n) <==> v == w && Shifted(x, n) == Shifted(y, n)
  {
    if n == 0 {
    } else if n < 5 {
      ShiftedFew(v, x, w, y, n);
    } else {
      ShiftedMany(v, x, w, y, n);
    }
  }

  lemma {:induction false} ShiftedFew(v: nat, x: nat, w: nat, y: nat, n: nat)
    requires x < 256 && y < 256 && 0 < n < 5
    ensures Shifted(256 * v + x, n) == Shifted(256 * w + y, n) <==> v == w && Shifted(x, n) == Shifted(y, n)
  {
    Halvings(v, x);
    Halvings(w, y);
    assert n == 1 || n == 2 || n == 3 || n == 4;
  }

  lemma {:induction false} ShiftedMany(v: nat, x: nat, w: nat, y: nat, n: nat)
    requires x < 256 && y < 256 && 5 <= n < 8
    ensures Shifted(256 * v + x, n) == Shifted(256 * w + y, n) <==> v == w && Shifted(x, n) == Shifted(y, n)
  {
    Halvings(v, x);
    Halvings(w, y);
    assert n == 5 || n == 6 || n == 7;
  }

  /** The prefix of length n: the number without its last 8s - n bits. */
  function Prefix(a: Bytes, bits: nat): nat
    requires bits <= 8 * |a|
  {
    Shifted(Value(a), 8 * |a| - bits)
  }

  /** Byte i agrees on the bits of it that the prefix covers. */
  predicate SameIn(x: bv8, y: bv8, bits: nat, i: nat) {
    Shifted(Num(x), 8 - BitsIn(bits, i)) == Shifted(Num(y), 8 - BitsIn(bits, i))
  }

  /** The first n bytes agree. */
  predicate Agree(a: Bytes, b: Bytes, bits: nat)
    requires |a| == |b|
  {
    forall i :: 0 <= i < |a| ==> SameIn(a[i], b[i], bits, i)
  }

  /** What masking does to byte i of an address. */
  predicate Masked(r: bv8, x: bv8, bits: nat, i: nat) {
    r == MaskByte(BitsIn(bits, i)) & x
  }

  lemma {:induction false} MaskedByte(r: bv8, r': bv8, x: bv8, x': bv8, bits: nat, i: nat)
    requires Masked(r, x, bits, i) && Masked(r', x', bits, i)
    ensures r == r' <==> SameIn(x, x', bits, i)
  {
    var n := BitsIn(bits, i);
    ByteAgrees(n, x, x');
  }

  lemma {:induction false} MaskedAt(a: Bytes, bits: nat, i: nat)
    requires i < |a|
    ensures Masked(AndBytes(MaskBytes(|a|, bits), a)[i], a[i], bits, i)
  {
  }

  lemma {:induction false} AgreeIsEqual(m: Bytes, a: Bytes, b: Bytes, bits: nat)
    requires |m| == |a| == |b| && m == MaskBytes(|m|, bits)
    ensures AndBytes(m, a) == AndBytes(m, b) <==> Agree(a, b, bits)
  {
    var x, y := AndBytes(m, a), AndBytes(m, b);
    forall i | 0 <= i < |m|
      ensures x[i] == y[i] <==> SameIn(a[i], b[i], bits, i)
    {
      MaskedAt(a, bits, i);
      MaskedAt(b, bits, i);
      MaskedByte(x[i], y[i], a[i], b[i], bits, i);
    }
    assert x == y <==> forall i :: 0 <= i < |m| ==> x[i] == y[i];
  }

  /** Two addresses agree under the mask exactly when their prefixes are the same number. */
  lemma {:induction false} AgreeExactly(a: Bytes, b: Bytes, bits: nat)
    requires |a| == |b| && bits <= 8 * |a|
    ensures Agree(a, b, bits) <==> Prefix(a, bits) == Prefix(b, bits)
  {
    if a != [] {
      var n := |a| - 1;
      AgreeLast(a, b, bits);
      AgreeExactly(a[..n], b[..n], Min(bits, 8 * n));
      PrefixLast(a, b, bits);
    }
  }

  lemma {:induction false} AgreeLast(a: Bytes, b: Bytes, bits: nat)
    requires |a| == |b| && a != []
    ensures var n := |a| - 1;
      Agree(a, b, bits) <==> Agree(a[..n], b[..n], Min(bits, 8 * n)) && SameIn(a[n], b[n], bits, n)
  {
    var n := |a| - 1;
    assert forall i :: 0 <= i < n ==> BitsIn(bits, i) == BitsIn(Min(bits, 8 * n), i);
    forall i | 0 <= i < n
      ensures SameIn(a[i], b[i], bits, i) == SameIn(a[..n][i], b[..n][i], Min(bits, 8 * n), i)
    {
    }
  }

  /** The same split for numbers: n bytes make v, and x is the byte behind them. */
  lemma {:induction false} SplitShift(v: nat, x: nat, w: nat, y: nat, n: nat, bits: nat)
    requires x < 256 && y < 256 && bits <= 8 * n + 8
    ensures var k, low := 8 * n - Min(bits, 8 * n), 8 - BitsIn(bits, n);
      Shifted(256 * v + x, 8 * n + 8 - bits) == Shifted(256 * w + y, 8 * n + 8 - bits) <==>
        Shifted(v, k) == Shifted(w, k) && Shifted(x, low) == Shifted(y, low)
  {
    if bits <= 8 * n {
      ShiftedByte(v, x, 8 * n - bits);
      ShiftedByte(w, y, 8 * n - bits);
      Halvings(v, x);
      Halvings(w, y);
    } else {
      ShiftedLow(v, x, w, y, 8 * n + 8 - bits);
    }
  }

  lemma {:induction false} PrefixLast(a: Bytes, b: Bytes, bits: nat)
    requires |a| == |b| && a != [] && bits <= 8 * |a|
    ensures var n := |a| - 1; var fewer := Min(bits, 8 * n);
      Prefix(a, bits) == Prefix(b, bits) <==>
        Prefix(a[..n], fewer) == Prefix(b[..n], fewer) && SameIn(a[n], b[n], bits, n)
  {
    var n := |a| - 1;
    ByteBound(a[n]);
    ByteBound(b[n]);
    SplitShift(Value(a[..n]), Num(a[n]), Value(b[..n]), Num(b[n]), n, bits);
  }

  // ----- shifting is dividing

  lemma {:induction false} Distribute(p: int, k: int, d: int)
    ensures (p + k) * d == p * d + k * d
  {
  }

  lemma {:induction false} MulStep(p: int, q: int, d: nat)
    requires p < q
    ensures p * d + d <= q * d
  {
    Distribute(p, q - p, d);
    Distribute(1, q - p - 1, d);
    Nonnegative(q - p - 1, d);
  }

  lemma {:induction false} Nonnegative(k: nat, d: nat)
    ensures 0 <= k * d
  {
  }

  lemma {:induction false} DivUnique(x: int, d: nat, q: int, r: int)
    requires 0 < d && x == q * d + r && 0 <= r < d
    ensures x / d == q
  {
    var p := x / d;
    assert x == p * d + x % d;
    if p < q { MulStep(p, q, d); }
    if q < p { MulStep(q, p, d); }
  }

  lemma {:induction false} HalfAgain(x: nat, d: nat)
    requires 0 < d
    ensures x / (2 * d) == x / d / 2
  {
    var h, l := x / d, x % d;
    var q, r := h / 2, h % 2;
    Distribute(q, q, d);
    Distribute(q + q, r, d);
    assert h == q + q + r && x == h * d + l;
    TwiceAndBit(q, r, d);
    DivUnique(x, 2 * d, q, r * d + l);
  }

  lemma {:induction false} TwiceAndBit(q: nat, r: nat, d: nat)
    requires r < 2
    ensures q * (2 * d) == q * d + q * d && r * d == if r == 0 then 0 else d
  {
  }

  lemma {:induction false} ShiftedIsDivision(v: nat, n: nat)
    ensures Shifted(v, n) == v / Pow2(n)
  {
    if n != 0 {
      ShiftedIsDivision(v, n - 1);
      HalfAgain(v, Pow2(n - 1));
    }
  }

  /** contains(a) holds exactly when a and the base agree after division by 2^(8s-n). */
  lemma {:induction false} ContainsExactly(ip: Bytes, bits: nat, address: Bytes)
    requires |ip| == |address| && bits <= 8 * |ip|
    ensures Contains(ip, MaskBytes(|ip|, bits), address) <==>
      Value(address) / Pow2(8 * |ip| - bits) == Value(ip) / Pow2(8 * |ip| - bits)
  {
    ContainsPrefix(ip, bits, address);
    QuotientsAgree(Value(address), Value(ip), 8 * |ip| - bits);
  }

  lemma {:induction false} QuotientsAgree(v: nat, w: nat, n: nat)
    ensures Shifted(v, n) == Shifted(w, n) <==> v / Pow2(n) == w / Pow2(n)
  {
    ShiftedIsDivision(v, n);
    ShiftedIsDivision(w, n);
  }

  lemma {:induction false} ContainsPrefix(ip: Bytes, bits: nat, address: Bytes)
    requires |ip| == |address| && bits <= 8 * |ip|
    ensures Contains(ip, MaskBytes(|ip|, bits), address) <==> Prefix(address, bits) == Prefix(ip, bits)
  {
    AgreeIsEqual(MaskBytes(|ip|, bits), address, ip, bits);
    AgreeExactly(address, ip, bits);
  }

  lemma {:induction false} PrefixShorter(a: Bytes, long: nat, short: nat)
    requires short <= long <= 8 * |a|
    ensures Prefix(a, short) == Shifted(Prefix(a, long), long - short)
  {
    ShiftedTwice(Value(a), 8 * |a| - long, long - short);
  }

  /** If two prefix ranges share x, then everything in the one with the longer prefix is in the other. */
  lemma {:induction false} SharedMeansNested(ip: Bytes, bits: nat, ip': Bytes, bits': nat, x: Bytes, y: Bytes)
    requires |ip| == |ip'| == |x| == |y| && bits <= bits' <= 8 * |ip|
    requires InPrefix(ip, bits, x) && InPrefix(ip', bits', x) && InPrefix(ip', bits', y)
    ensures InPrefix(ip, bits, y)
  {
    ContainsPrefix(ip, bits, x);
    ContainsPrefix(ip', bits', x);
    ContainsPrefix(ip', bits', y);
    ContainsPrefix(ip, bits, y);
    PrefixShorter(x, bits', bits);
    PrefixShorter(y, bits', bits);
  }

  predicate InPrefix(ip: Bytes, bits: nat, address: Bytes) {
    |ip| == |address| && bits <= 8 * |ip| && Contains(ip, MaskBytes(|ip|, bits), address)
  }

  /** Any two prefix ranges of one family are disjoint, or the one with the longer prefix lies in the other. */
  lemma {:induction false} NestedOrDisjoint(ip: Bytes, bits: nat, ip': Bytes, bits': nat)
    requires |ip| == |ip'| && bits <= bits' <= 8 * |ip|
    ensures
      || (forall x: Bytes :: !(InPrefix(ip, bits, x) && InPrefix(ip', bits', x)))
      || (forall y: Bytes :: InPrefix(ip', bits', y) ==> InPrefix(ip, bits, y))
  {
    if x: Bytes :| InPrefix(ip, bits, x) && InPrefix(ip', bits', x) {
      forall y: Bytes | InPrefix(ip', bits', y)
        ensures InPrefix(ip, bits, y)
      {
        SharedMeansNested(ip, bits, ip', bits', x, y);
      }
    }
  }

  // ----- ordering

  datatype Item = Address(bytes: Bytes) | Range(base: Bytes, mask: Bytes)

  function Ip(item: Item): Bytes {
    match item case Address(bytes) => bytes case Range(base, _) => base
  }

  predicate LexLess(a: Bytes, b: Bytes)
    requires |a| == |b|
  {
    a != [] && (a[0] < b[0] || (a[0] == b[0] && LexLess(a[1..], b[1..])))
  }

  /** ip_range_less, over any mix of addresses and ranges of both families. */
  predicate RangeLess(l: Item, r: Item) {
    if |Ip(l)| < |Ip(r)| then true else if |Ip(r)| < |Ip(l)| then false else LexLess(Ip(l), Ip(r))
  }

  lemma {:induction false} LexLast(a: Bytes, b: Bytes)
    requires |a| == |b| && a != []
    ensures var n := |a| - 1;
      LexLess(a, b) <==> LexLess(a[..n], b[..n]) || (a[..n] == b[..n] && a[n] < b[n])
  {
    var n := |a| - 1;
    if n != 0 {
      LexLast(a[1..], b[1..]);
      assert a[1..][..n - 1] == a[..n][1..] && b[1..][..n - 1] == b[..n][1..];
      assert a[..n] == [a[0]] + a[..n][1..] && b[..n] == [b[0]] + b[..n][1..];
    }
  }

  lemma {:induction false} LexIsNumeric(a: Bytes, b: Bytes)
    requires |a| == |b|
    ensures LexLess(a, b) <==> Value(a) < Value(b)
    ensures a == b <==> Value(a) == Value(b)
  {
    if a != [] {
      var n := |a| - 1;
      LexIsNumeric(a[..n], b[..n]);
      LexLast(a, b);
      NumOrder(a[n], b[n]);
      ByteBound(a[n]);
      ByteBound(b[n]);
      assert a == a[..n] + [a[n]] && b == b[..n] + [b[n]];
    }
  }

  /** The order is that of address family and then of the address as a number; masks play no part. So
      it is a strict weak order, as an ordered container needs. */
  lemma {:induction false} OrderIsNumeric(l: Item, r: Item)
    ensures RangeLess(l, r) <==>
      |Ip(l)| < |Ip(r)| || (|Ip(l)| == |Ip(r)| && Value(Ip(l)) < Value(Ip(r)))
    ensures !RangeLess(l, r) && !RangeLess(r, l) <==> Ip(l) == Ip(r)
  {
    if |Ip(l)| == |Ip(r)| {
      LexIsNumeric(Ip(l), Ip(r));
      LexIsNumeric(Ip(r), Ip(l));
    }
  }

  lemma {:induction false} StrictWeakOrder(a: Item, b: Item, c: Item)
    ensures !RangeLess(a, a)
    ensures RangeLess(a, b) && RangeLess(b, c) ==> RangeLess(a, c)
    ensures !RangeLess(a, b) && !RangeLess(b, a) && !RangeLess(b, c) && !RangeLess(c, b) ==>
      !RangeLess(a, c) && !RangeLess(c, a)
  {
    OrderIsNumeric(a, a);
    OrderIsNumeric(a, b);
    OrderIsNumeric(b, c);
    OrderIsNumeric(a, c);
    OrderIsNumeric(b, a);
    OrderIsNumeric(c, b);
    OrderIsNumeric(c, a);
  }

  /** operator< on ranges of one family: by base, then by mask. */
  predicate TieLess(ip: Bytes, mask: Bytes, ip': Bytes, mask': Bytes)
    requires |ip| == |mask| == |ip'| == |mask'|
  {
    LexLess(ip, ip') || (!LexLess(ip', ip) && LexLess(mask, mask'))
  }

  /** It is the order of base and mask as one number, so exactly one of <, ==, > holds. */
  lemma {:induction false} TieIsNumeric(ip: Bytes, mask: Bytes, ip': Bytes, mask': Bytes)
    requires |ip| == |mask| == |ip'| == |mask'|
    ensures TieLess(ip, mask, ip', mask') <==> Value(ip + mask) < Value(ip' + mask')
    ensures ip == ip' && mask == mask' <==> Value(ip + mask) == Value(ip' + mask')
  {
    LexIsNumeric(ip + mask, ip' + mask');
    LexIsNumeric(ip, ip');
    LexIsNumeric(ip', ip);
    LexConcat(ip, mask, ip', mask');
    assert (ip + mask)[..|ip|] == ip && (ip' + mask')[..|ip|] == ip';
    assert (ip + mask)[|ip|..] == mask && (ip' + mask')[|ip|..] == mask';
  }

  lemma {:induction false} LexConcat(a: Bytes, m: Bytes, b: Bytes, m': Bytes)
    requires |a| == |b| && |m| == |m'|
    ensures LexLess(a + m, b + m') <==> LexLess(a, b) || (a == b && LexLess(m, m'))
  {
    if a == [] {
      assert a + m == m && b + m' == m';
    } else {
      LexConcat(a[1..], m, b[1..], m');
      assert (a + m)[1..] == a[1..] + m && (b + m')[1..] == b[1..] + m';
      assert a == [a[0]] + a[1..] && b == [b[0]] + b[1..];
    }
  }

  // ----- mixed lists of ranges

  predicate Matches(range: Item, address: Bytes)
    requires range.Range? && |range.base| == |range.mask|
  {
    |range.base| == |address| && Contains(range.base, range.mask, address)
  }

  /** contains over ranges of both families: a range of the other family never matches. */
  method ContainsAny(ranges: seq<Item>, address: Bytes) returns (found: bool)
    requires forall i :: 0 <= i < |ranges| ==> ranges[i].Range? && |ranges[i].base| == |ranges[i].mask|
    ensures found <==> exists i :: 0 <= i < |ranges| && Matches(ranges[i], address)
  {
    found := false;
    var i := 0;
    while i < |ranges| && !found
      invariant 0 <= i <= |ranges|
      invariant found <==> exists j :: 0 <= j < i && Matches(ranges[j], address)
    {
      if |ranges[i].base| == |address| {
        found := AndBytes(ranges[i].mask, address) == AndBytes(ranges[i].mask, ranges[i].base);
      }
      i := i + 1;
    }
  }

  const MAPPED_PREFIX: Bytes := [0, 0, 0, 0, 0, 0, 0, 0, 0, 0, 0xFF, 0xFF]

  /** is_ipv4: the IPv4 address in 4 or 16 bytes; any other length throws. */
  function IsIpv4(address: Bytes): Option<Option<Bytes>> {
    if |address| == IPV4_SIZE then Some(Some(address))
    else if |address| == IPV6_SIZE then
      if address[..12] == MAPPED_PREFIX then Some(Some(address[12..])) else Some(None)
    else None
  }

  /** Exactly the plain and the IPv4-mapped form of an address give it back. */
  lemma {:induction false} MappedExactly(address: Bytes, v4: Bytes)
    requires |v4| == IPV4_SIZE
    ensures IsIpv4(address) == Some(Some(v4)) <==> address == v4 || address == MAPPED_PREFIX + v4
  {
    if |address| == IPV6_SIZE {
      assert address == address[..12] + address[12..];
      if address == MAPPED_PREFIX + v4 {
        assert address[..12] == MAPPED_PREFIX && address[12..] == v4;
      }
    }
  }

  /** The three outcomes: an IPv4 address for 4 bytes and for 16 in the mapped form, none for 16 in another form,
      and an exception for every other length. */
  lemma {:induction false} Ipv4Outcomes(address: Bytes)
    ensures IsIpv4(address) == None <==> |address| != 4 && |address| != 16
    ensures IsIpv4(address) == Some(None) <==> |address| == 16 && Value(address) / Pow2(32) != 0xFFFF
  {
    if |address| == 16 {
      ValueHigh(address, 4);
      ShiftedIsDivision(Value(address), 32);
      MappedValue();
      LexIsNumeric(address[..12], MAPPED_PREFIX);
    }
  }

  /** Without its last k bytes an address is its number without the last 8k bits. */
  lemma {:induction false} ValueHigh(a: Bytes, k: nat)
    requires k <= |a|
    ensures Value(a[..|a| - k]) == Shifted(Value(a), 8 * k)
  {
    if k == 0 {
      assert a[..|a|] == a;
    } else {
      var n := |a| - 1;
      ValueHigh(a[..n], k - 1);
      assert a[..n][..n - (k - 1)] == a[..|a| - k];
      ByteBound(a[n]);
      ShiftedByte(Value(a[..n]), Num(a[n]), 8 * (k - 1));
    }
  }

  lemma {:induction false} ZeroValue(n: nat)
    ensures Value(seq(n, _ => 0)) == 0
  {
    if n != 0 {
      var zeros: Bytes := seq(n, _ => 0);
      assert zeros[..n - 1] == seq(n - 1, _ => 0);
      ZeroValue(n - 1);
    }
  }

  lemma {:induction false} MappedValue()
    ensures Value(MAPPED_PREFIX) == 0xFFFF
  {
    SmallPowers();
    MaskByteValue(8);
    ZeroValue(10);
    assert MAPPED_PREFIX[..11][..10] == seq(10, _ => 0);
    assert MAPPED_PREFIX[..11][10] == 0xFF && MAPPED_PREFIX[11] == 0xFF;
  }
}
