// internal/ipam/ipam.go: the address allocator.
//
// The code works on four bytes in place; the specification is "the least free
// number in an interval".
module Ipam {
  import opened Text

  const SPACE: nat := 0x1_0000_0000

  // uint8
  newtype byte = x: int | 0 <= x < 256

  type Bytes = b: seq<byte> | |b| == 4 witness [0, 0, 0, 0]

  // Network byte order.
  function Value(b: Bytes): (v: nat)
    ensures v < SPACE
  {
    b[0] as int * 0x100_0000 + b[1] as int * 0x1_0000 + b[2] as int * 0x100 + b[3] as int
  }

  lemma ValueInjective(a: Bytes, b: Bytes)
    requires Value(a) == Value(b)
    ensures a == b
  {
    assert a[0] == b[0];
    assert a[1] == b[1];
    assert a[2] == b[2];
    assert a == [a[0], a[1], a[2], a[3]] && b == [b[0], b[1], b[2], b[3]];
  }

  function Pow2(n: nat): (p: nat)
    ensures p >= 1
  {
    if n == 0 then 1 else 2 * Pow2(n - 1)
  }

  lemma {:induction false} Pow2Sum(a: nat, b: nat)
    ensures Pow2(a + b) == Pow2(a) * Pow2(b)
  {
    if a > 0 {
      Pow2Sum(a - 1, b);
      assert Pow2(a + b) == 2 * Pow2(a - 1 + b);
      assert 2 * (Pow2(a - 1) * Pow2(b)) == (2 * Pow2(a - 1)) * Pow2(b);
    }
  }

  lemma Pow2Values()
    ensures Pow2(5) == 32 && Pow2(8) == 0x100 && Pow2(16) == 0x1_0000 && Pow2(24) == 0x100_0000 && Pow2(32) == SPACE
  {
    assert Pow2(4) == 16;
    assert Pow2(8) == 0x100;
    Pow2Sum(8, 8);
    Pow2Sum(16, 8);
    Pow2Sum(16, 16);
  }

  // Number of addresses in a block with `ones` leading mask bits.
  function Size(ones: nat): (s: nat)
    requires ones <= 32
    ensures s >= 1
  {
    Pow2(32 - ones)
  }

  // ---- bitwise operators --------------------------------------------------

  // a & b, bit by bit
  function BitAnd(a: nat, b: nat): (r: nat)
    ensures r <= a
  {
    if a == 0 then 0 else 2 * BitAnd(a / 2, b / 2) + (if a % 2 == 1 && b % 2 == 1 then 1 else 0)
  }

  // a | b, bit by bit
  function BitOr(a: nat, b: nat): (r: nat)
    ensures r <= a + b
  {
    if a == 0 then b else 2 * BitOr(a / 2, b / 2) + (if a % 2 == 1 || b % 2 == 1 then 1 else 0)
  }

  // Masking off the low j bits of an n-bit number rounds it down to a multiple of 2^j.
  lemma {:induction false} MaskRounds(b: nat, n: nat, j: nat) returns (c: nat)
    requires j <= n && b < Pow2(n)
    ensures Pow2(j) <= Pow2(n)
    ensures BitAnd(b, Pow2(n) - Pow2(j)) == c * Pow2(j)
    ensures c * Pow2(j) <= b < c * Pow2(j) + Pow2(j)
  {
    if j == 0 {
      AndFull(b, n);
      c := b;
    } else {
      c := MaskRounds(b / 2, n - 1, j - 1);
      assert Pow2(n) == 2 * Pow2(n - 1) && Pow2(j) == 2 * Pow2(j - 1);
      AndEven(b, Pow2(n - 1) - Pow2(j - 1));
      DoubleMultiple(c, Pow2(j - 1), b);
    }
  }

  lemma {:induction false} AndEven(b: nat, m: nat)
    ensures BitAnd(b, 2 * m) == 2 * BitAnd(b / 2, m)
  {
  }

  lemma DoubleMultiple(c: nat, p: nat, b: nat)
    requires c * p <= b / 2 < c * p + p
    ensures c * (2 * p) == 2 * (c * p) && c * (2 * p) <= b < c * (2 * p) + 2 * p
  {
  }

  lemma {:induction false} AndFull(b: nat, n: nat)
    requires b < Pow2(n)
    ensures BitAnd(b, Pow2(n) - 1) == b
  {
    if b > 0 {
      AndFull(b / 2, n - 1);
      AndOdd(b, Pow2(n - 1) - 1);
    }
  }

  lemma {:induction false} AndOdd(b: nat, m: nat)
    ensures BitAnd(b, 2 * m + 1) == 2 * BitAnd(b / 2, m) + b % 2
  {
    assert (2 * m + 1) / 2 == m && (2 * m + 1) % 2 == 1;
  }

  lemma {:induction false} AndZero(a: nat)
    ensures BitAnd(a, 0) == 0
  {
    if a > 0 { AndZero(a / 2); }
  }

  // Filling in the low j bits of a multiple of 2^j adds them.
  lemma {:induction false} OrFills(c: nat, j: nat)
    ensures BitOr(c * Pow2(j), Pow2(j) - 1) == c * Pow2(j) + Pow2(j) - 1
  {
    if j == 0 {
      OrZero(c);
    } else {
      OrFills(c, j - 1);
      MulTwice(c, Pow2(j - 1));
      OrDoubled(c * Pow2(j - 1), Pow2(j - 1));
    }
  }

  lemma {:induction false} OrDoubled(a: nat, p: nat)
    requires p >= 1 && BitOr(a, p - 1) == a + p - 1
    ensures BitOr(2 * a, 2 * p - 1) == 2 * a + 2 * p - 1
  {
    OrOdd(a, p - 1);
  }

  lemma MulTwice(c: nat, p: nat)
    ensures c * (2 * p) == 2 * (c * p)
  {
  }

  lemma {:induction false} OrOdd(a: nat, m: nat)
    ensures BitOr(2 * a, 2 * m + 1) == 2 * BitOr(a, m) + 1
  {
    assert (2 * a) / 2 == a && (2 * m + 1) / 2 == m && (2 * m + 1) % 2 == 1;
  }

  lemma {:induction false} OrZero(a: nat)
    ensures BitOr(a, 0) == a
  {
    if a > 0 { OrZero(a / 2); }
  }

  function ByteAnd(a: byte, b: byte): byte {
    BitAnd(a as int, b as int) as byte
  }

  lemma {:induction false} OrBound(a: nat, b: nat, n: nat)
    requires a < Pow2(n) && b < Pow2(n)
    ensures BitOr(a, b) < Pow2(n)
  {
    if a > 0 {
      OrBound(a / 2, b / 2, n - 1);
    }
  }

  function ByteOr(a: byte, b: byte): byte {
    assert BitOr(a as int, b as int) < 256 by { Pow2Values(); OrBound(a as int, b as int, 8); }
    BitOr(a as int, b as int) as byte
  }

  // ^b
  function ByteNot(b: byte): byte { 255 - b }

  // ---- masks --------------------------------------------------------------

  // One byte of net.CIDRMask with k leading ones.
  function MaskByte(k: nat): byte
    requires k <= 8
  {
    [0, 128, 192, 224, 240, 248, 252, 254, 255][k]
  }

  lemma MaskByteValue(k: nat)
    requires k <= 8
    ensures MaskByte(k) as int == Pow2(8) - Pow2(8 - k)
  {
    Pow2Values();
    assert Pow2(4) == 16;
    assert Pow2(8 - k) == [256, 128, 64, 32, 16, 8, 4, 2, 1][k];
  }

  function Clamp(n: int): (k: nat)
    ensures k <= 8
  {
    if n < 0 then 0 else if n > 8 then 8 else n
  }

  // net.CIDRMask(ones, 32)
  function CIDRMask(ones: nat): Bytes
    requires ones <= 32
  {
    [MaskByte(Clamp(ones)), MaskByte(Clamp(ones - 8)), MaskByte(Clamp(ones - 16)), MaskByte(Clamp(ones - 24))]
  }

  // net.IP.Mask
  function And(a: Bytes, m: Bytes): Bytes {
    [ByteAnd(a[0], m[0]), ByteAnd(a[1], m[1]), ByteAnd(a[2], m[2]), ByteAnd(a[3], m[3])]
  }

  // a | ^m
  function OrNot(a: Bytes, m: Bytes): Bytes {
    [ByteOr(a[0], ByteNot(m[0])), ByteOr(a[1], ByteNot(m[1])), ByteOr(a[2], ByteNot(m[2])), ByteOr(a[3], ByteNot(m[3]))]
  }

  // net.IPNet.Contains
  predicate MaskMatch(ip: Bytes, base: Bytes, mask: Bytes) {
    And(ip, mask) == And(base, mask)
  }

  predicate InBlock(v: int, base: nat, ones: nat)
    requires ones <= 32
  {
    base <= v < base + Size(ones)
  }

  lemma {:induction false} NotMask(k: nat)
    requires k <= 8
    ensures MaskByte(k) as int == 0x100 - Pow2(8 - k) && ByteNot(MaskByte(k)) as int == Pow2(8 - k) - 1
  {
    assert Pow2(8) == 0x100 by { Pow2Values(); }
    MaskByteValue(k);
  }

  // A masked byte is a multiple of 2^(8-k), and or-ing in the inverted mask adds it.
  lemma {:induction false} MaskedByte(b: byte, k: nat) returns (c: nat)
    requires k <= 8
    ensures ByteAnd(b, MaskByte(k)) as int == c * Pow2(8 - k)
    ensures c * Pow2(8 - k) <= b as int < c * Pow2(8 - k) + Pow2(8 - k)
    ensures ByteNot(MaskByte(k)) as int == Pow2(8 - k) - 1
    ensures ByteAnd(b, MaskByte(k)) == b ==>
              ByteOr(b, ByteNot(MaskByte(k))) as int == b as int + Pow2(8 - k) - 1
  {
    hide Pow2, MaskByte, BitAnd, BitOr, ByteNot;
    assert Pow2(8) == 0x100 by { Pow2Values(); }
    NotMask(k);
    c := MaskRounds(b as int, 8, 8 - k);
    if ByteAnd(b, MaskByte(k)) == b {
      ByteFills(b, ByteNot(MaskByte(k)), c, 8 - k);
    }
  }

  lemma {:induction false} ByteFills(b: byte, low: byte, c: nat, j: nat)
    requires b as int == c * Pow2(j) && low as int == Pow2(j) - 1
    ensures ByteOr(b, low) as int == b as int + Pow2(j) - 1
  {
    OrFills(c, j);
    hide Pow2, BitOr;
  }

  lemma WholeByte(b: byte)
    ensures ByteAnd(b, MaskByte(8)) == b && ByteOr(b, ByteNot(MaskByte(8))) == b
  {
    hide BitAnd, BitOr;
    Pow2Values();
    AndFull(b as int, 8);
    OrZero(b as int);
  }

  lemma EmptyByte(b: byte)
    ensures ByteAnd(b, MaskByte(0)) == 0
    ensures ByteOr(0, ByteNot(MaskByte(0))) == 255
  {
    AndZero(b as int);
  }

  // A byte x split by the mask at weight `unit`, whole bytes h above it and
  // dropped bytes `low` below: the masked address is a multiple of the block size.
  lemma SplitBlock(h: nat, k: nat, d: nat, x: nat, low: nat, unit: nat) returns (c: nat)
    requires k <= 8 && low < unit
    requires d * Pow2(8 - k) <= x < d * Pow2(8 - k) + Pow2(8 - k)
    ensures c * (Pow2(8 - k) * unit) == (h * 0x100 + d * Pow2(8 - k)) * unit
    ensures c * (Pow2(8 - k) * unit) <= (h * 0x100 + x) * unit + low < c * (Pow2(8 - k) * unit) + Pow2(8 - k) * unit
    ensures (x + Pow2(8 - k) - 1) * unit + unit - 1 == x * unit + Pow2(8 - k) * unit - 1
  {
    assert Pow2(k) * Pow2(8 - k) == 0x100 by { Pow2Sum(k, 8 - k); Pow2Values(); }
    hide Pow2;
    c := h * Pow2(k) + d;
    Distribute(h, Pow2(k), d, Pow2(8 - k), unit);
    Remainder(h * 0x100 + d * Pow2(8 - k), x - d * Pow2(8 - k), Pow2(8 - k), low, unit);
    Topped(x, Pow2(8 - k), unit);
  }

  lemma Topped(x: nat, p: nat, unit: nat)
    requires p >= 1
    ensures (x + p - 1) * unit + unit - 1 == x * unit + p * unit - 1
  {
    assert (x + p - 1) * unit == x * unit + p * unit - unit;
  }

  lemma Remainder(m: nat, y: nat, p: nat, low: nat, unit: nat)
    requires y < p && low < unit
    ensures m * unit <= (m + y) * unit + low < m * unit + p * unit
  {
    MulMono(y + 1, p, unit);
    assert (y + 1) * unit == y * unit + unit;
    assert (m + y) * unit == m * unit + y * unit;
  }

  lemma Distribute(h: nat, w: nat, d: nat, p: nat, unit: nat)
    requires w * p == 0x100
    ensures (h * w + d) * (p * unit) == (h * 0x100 + d * p) * unit
  {
    calc {
      (h * w + d) * (p * unit);
      ((h * w + d) * p) * unit;
      { assert (h * w + d) * p == h * (w * p) + d * p; }
      (h * 0x100 + d * p) * unit;
    }
  }

  // Masking an address rounds it down to a multiple of the block size, and
  // or-ing in the inverted mask of a block's base gives the block's last number.
  lemma MaskedAddress(b: Bytes, ones: nat) returns (c: nat)
    requires ones <= 32
    ensures Value(And(b, CIDRMask(ones))) == c * Size(ones)
    ensures c * Size(ones) <= Value(b) < c * Size(ones) + Size(ones)
    ensures And(b, CIDRMask(ones)) == b ==> Value(OrNot(b, CIDRMask(ones))) == Value(b) + Size(ones) - 1
  {
    hide Pow2, MaskByte, ByteAnd, ByteOr, ByteNot;
    if ones < 8 {
      c := SplitInByte0(b, ones);
    } else if ones < 16 {
      c := SplitInByte1(b, ones - 8);
    } else if ones < 24 {
      c := SplitInByte2(b, ones - 16);
    } else {
      c := SplitInByte3(b, ones - 24);
    }
  }

  lemma SplitInByte0(b: Bytes, k: nat) returns (c: nat)
    requires k < 8
    ensures Value(And(b, CIDRMask(k))) == c * Size(k)
    ensures c * Size(k) <= Value(b) < c * Size(k) + Size(k)
    ensures And(b, CIDRMask(k)) == b ==> Value(OrNot(b, CIDRMask(k))) == Value(b) + Size(k) - 1
  {
    Pow2Values();
    SizeOfSplit(k, 24);
    hide Pow2, MaskByte, ByteAnd, ByteOr, ByteNot;
    EmptyByte(b[1]);
    EmptyByte(b[2]);
    EmptyByte(b[3]);
    var d := MaskedByte(b[0], k);
    c := SplitBlock(0, k, d, b[0] as int, b[1] as int * 0x1_0000 + b[2] as int * 0x100 + b[3] as int, 0x100_0000);
  }

  lemma SplitInByte1(b: Bytes, k: nat) returns (c: nat)
    requires k < 8
    ensures Value(And(b, CIDRMask(k + 8))) == c * Size(k + 8)
    ensures c * Size(k + 8) <= Value(b) < c * Size(k + 8) + Size(k + 8)
    ensures And(b, CIDRMask(k + 8)) == b ==> Value(OrNot(b, CIDRMask(k + 8))) == Value(b) + Size(k + 8) - 1
  {
    Pow2Values();
    SizeOfSplit(k, 16);
    hide Pow2, MaskByte, ByteAnd, ByteOr, ByteNot;
    WholeByte(b[0]);
    EmptyByte(b[2]);
    EmptyByte(b[3]);
    var d := MaskedByte(b[1], k);
    c := SplitBlock(b[0] as int, k, d, b[1] as int, b[2] as int * 0x100 + b[3] as int, 0x1_0000);
  }

  lemma SplitInByte2(b: Bytes, k: nat) returns (c: nat)
    requires k < 8
    ensures Value(And(b, CIDRMask(k + 16))) == c * Size(k + 16)
    ensures c * Size(k + 16) <= Value(b) < c * Size(k + 16) + Size(k + 16)
    ensures And(b, CIDRMask(k + 16)) == b ==> Value(OrNot(b, CIDRMask(k + 16))) == Value(b) + Size(k + 16) - 1
  {
    Pow2Values();
    SizeOfSplit(k, 8);
    hide Pow2, MaskByte, ByteAnd, ByteOr, ByteNot;
    WholeByte(b[0]);
    WholeByte(b[1]);
    EmptyByte(b[3]);
    var d := MaskedByte(b[2], k);
    c := SplitBlock(b[0] as int * 0x100 + b[1] as int, k, d, b[2] as int, b[3] as int, 0x100);
  }

  lemma SplitInByte3(b: Bytes, k: nat) returns (c: nat)
    requires k <= 8
    ensures Value(And(b, CIDRMask(k + 24))) == c * Size(k + 24)
    ensures c * Size(k + 24) <= Value(b) < c * Size(k + 24) + Size(k + 24)
    ensures And(b, CIDRMask(k + 24)) == b ==> Value(OrNot(b, CIDRMask(k + 24))) == Value(b) + Size(k + 24) - 1
  {
    hide Pow2, MaskByte, ByteAnd, ByteOr, ByteNot;
    WholeByte(b[0]);
    WholeByte(b[1]);
    WholeByte(b[2]);
    var d := MaskedByte(b[3], k);
    c := SplitBlock(b[0] as int * 0x1_0000 + b[1] as int * 0x100 + b[2] as int, k, d, b[3] as int, 0, 1);
  }

  lemma SizeOfSplit(k: nat, low: nat)
    requires k <= 8
    ensures Pow2(8 - k + low) == Pow2(8 - k) * Pow2(low)
  {
    Pow2Sum(8 - k, low);
  }

  lemma SameMultiple(c1: nat, c2: nat, s: nat, v: nat)
    requires s >= 1
    requires c1 * s <= v < c1 * s + s
    requires c2 * s <= v < c2 * s + s
    ensures c1 == c2
  {
    assert c1 < c2 ==> (c1 + 1) * s <= c2 * s by { if c1 < c2 { MulMono(c1 + 1, c2, s); } }
    assert c2 < c1 ==> (c2 + 1) * s <= c1 * s by { if c2 < c1 { MulMono(c2 + 1, c1, s); } }
    assert (c1 + 1) * s == c1 * s + s && (c2 + 1) * s == c2 * s + s;
  }

  // Masking twice is masking once.
  lemma MaskTwice(b: Bytes, ones: nat)
    requires ones <= 32
    ensures And(And(b, CIDRMask(ones)), CIDRMask(ones)) == And(b, CIDRMask(ones))
  {
    var once := And(b, CIDRMask(ones));
    var c := MaskedAddress(b, ones);
    var d := MaskedAddress(once, ones);
    SameMultiple(c, d, Size(ones), c * Size(ones));
    ValueInjective(once, And(once, CIDRMask(ones)));
  }

  // The byte-wise mask test is membership of an interval, and `ip | ^mask` is
  // the interval's last number.
  lemma MaskTestIsInterval(ip: Bytes, base: Bytes, ones: nat)
    requires ones <= 32
    requires And(base, CIDRMask(ones)) == base
    ensures MaskMatch(ip, base, CIDRMask(ones)) <==> InBlock(Value(ip), Value(base), ones)
    ensures Value(OrNot(base, CIDRMask(ones))) == Value(base) + Size(ones) - 1
  {
    var m := CIDRMask(ones);
    var c := MaskedAddress(ip, ones);
    var d := MaskedAddress(base, ones);
    if InBlock(Value(ip), Value(base), ones) {
      SameMultiple(c, d, Size(ones), Value(ip));
      ValueInjective(And(ip, m), And(base, m));
    }
  }

  // A block never runs past the end of the address space.
  lemma BlockFits(base: Bytes, ones: nat)
    requires ones <= 32
    requires And(base, CIDRMask(ones)) == base
    ensures Value(base) + Size(ones) <= SPACE
    ensures ones >= 1 && Value(base) + Size(ones) == SPACE ==> Value(base) > 0
    ensures ones == 0 ==> Value(base) == 0 && Size(ones) == SPACE
  {
    MaskTestIsInterval(base, base, ones);
    Pow2Values();
    if ones >= 1 {
      Pow2Sum(1, 31);
      Pow2Sum(ones - 1, 32 - ones);
      MulMono(1, Pow2(ones - 1), Size(ones));
    }
  }

  // ---- textual addresses --------------------------------------------------

  function Dotted(n: nat): string {
    Dec(n / 0x100_0000) + ['.']
    + (Dec(n / 0x1_0000 % 0x100) + ['.'] + (Dec(n / 0x100 % 0x100) + ['.'] + Dec(n % 0x100)))
  }

  // net.IP.String on four bytes.
  function IPString(b: Bytes): string {
    Dec(b[0] as int) + ['.'] + (Dec(b[1] as int) + ['.'] + (Dec(b[2] as int) + ['.'] + Dec(b[3] as int)))
  }

  // The form stored in peers.assigned_ip.
  function Host(n: nat): string {
    Dotted(n) + "/32"
  }

  lemma {:induction false} IPStringIsDotted(b: Bytes)
    ensures IPString(b) == Dotted(Value(b))
  {
    hide Dec;
    var n := Value(b);
    assert n / 0x100_0000 == b[0] as int;
    assert n / 0x1_0000 == b[0] as int * 0x100 + b[1] as int;
    assert n / 0x100 == (b[0] as int * 0x100 + b[1] as int) * 0x100 + b[2] as int;
  }

  lemma HostInjective(n: nat, m: nat)
    requires Host(n) == Host(m)
    ensures n == m
  {
    hide Dotted, Dec, Split, Num;
    assert Dotted(n) == Host(n)[..|Host(n)| - 3] == Host(m)[..|Host(m)| - 3] == Dotted(m);
    DottedParts(n);
    DottedParts(m);
    SameParts(Dec(n / 0x100_0000), Dec(n / 0x1_0000 % 0x100), Dec(n / 0x100 % 0x100), Dec(n % 0x100),
              Dec(m / 0x100_0000), Dec(m / 0x1_0000 % 0x100), Dec(m / 0x100 % 0x100), Dec(m % 0x100));
    DecInjective(n / 0x100_0000, m / 0x100_0000);
    DecInjective(n / 0x1_0000 % 0x100, m / 0x1_0000 % 0x100);
    DecInjective(n / 0x100 % 0x100, m / 0x100 % 0x100);
    DecInjective(n % 0x100, m % 0x100);
    FromParts(n);
    FromParts(m);
  }

  lemma SameParts(a: string, b: string, c: string, d: string, e: string, f: string, g: string, h: string)
    requires [a, b, c, d] == [e, f, g, h]
    ensures a == e && b == f && c == g && d == h
  {
    assert [a, b, c, d][0] == [e, f, g, h][0] && [a, b, c, d][1] == [e, f, g, h][1];
    assert [a, b, c, d][2] == [e, f, g, h][2] && [a, b, c, d][3] == [e, f, g, h][3];
  }

  lemma FromParts(n: nat)
    ensures n == n / 0x100_0000 * 0x100_0000 + n / 0x1_0000 % 0x100 * 0x1_0000 + n / 0x100 % 0x100 * 0x100 + n % 0x100
  {
    Regroup8(n);
    Regroup16(n);
  }

  lemma Regroup8(n: nat)
    ensures n / 0x1_0000 == n / 0x100 / 0x100
  {
  }

  lemma Regroup16(n: nat)
    ensures n / 0x100_0000 == n / 0x1_0000 / 0x100
  {
  }

  lemma DecInjective(n: nat, m: nat)
    requires Dec(n) == Dec(m)
    ensures n == m
  {
    NumDec(n);
    NumDec(m);
  }

  lemma DottedParts(n: nat)
    ensures Split(Dotted(n), '.') ==
            [Dec(n / 0x100_0000), Dec(n / 0x1_0000 % 0x100), Dec(n / 0x100 % 0x100), Dec(n % 0x100)]
  {
    FourParts(Dec(n / 0x100_0000), Dec(n / 0x1_0000 % 0x100), Dec(n / 0x100 % 0x100), Dec(n % 0x100));
  }

  lemma FourParts(a: string, b: string, c: string, d: string)
    requires Digits(a) && Digits(b) && Digits(c) && Digits(d)
    ensures Split(a + ['.'] + (b + ['.'] + (c + ['.'] + d)), '.') == [a, b, c, d]
  {
    SplitHead(d, [], '.');
    SplitHead(c, d, '.');
    SplitHead(b, c + ['.'] + d, '.');
    SplitHead(a, b + ['.'] + (c + ['.'] + d), '.');
  }

  // ---- specification ------------------------------------------------------

  // What the configured server address reserves, if anything.
  function Reserved(serverAddr: string): Option<string> {
    if serverAddr == "" then None else Some(Before(serverAddr, '/') + "/32")
  }

  // The hosts lo..hi-1 in numeric order, without the reserved one.
  function Usable(lo: nat, hi: nat, reserved: Option<string>): seq<string>
    decreases hi - lo
  {
    if lo >= hi then []
    else (if reserved == Some(Host(lo)) then [] else [Host(lo)]) + Usable(lo + 1, hi, reserved)
  }

  function FirstFree(hosts: seq<string>, used: seq<string>): Option<string> {
    if hosts == [] then None
    else if hosts[0] in used then FirstFree(hosts[1..], used)
    else Some(hosts[0])
  }

  datatype Result = Ip(ip: string) | TooSmall | ReadFailed | Exhausted

  // Every host of a block that could ever be handed out, in numeric order.
  function Hosts(base: nat, ones: nat, serverAddr: string): seq<string>
    requires ones <= 32
  {
    Usable(base + 1, base + Size(ones) - 1, Reserved(serverAddr))
  }

  // `used` is None when the store could not be read.
  function Allocation(base: nat, ones: nat, serverAddr: string, used: Option<seq<string>>): Result
    requires ones <= 32
  {
    if ones > 27 then TooSmall
    else if used.None? then ReadFailed
    else match FirstFree(Hosts(base, ones, serverAddr), used.value)
         case Some(h) => Ip(h)
         case None => Exhausted
  }

  predicate Free(n: nat, reserved: Option<string>, used: seq<string>)
  {
    Host(n) !in used && reserved != Some(Host(n))
  }

  // n is the numerically least free host of lo..hi-1.
  predicate LeastFree(n: nat, lo: nat, hi: nat, reserved: Option<string>, used: seq<string>)
  {
    lo <= n < hi && Free(n, reserved, used) && forall m | lo <= m < n :: !Free(m, reserved, used)
  }

  // One more host at the front of the range.
  lemma Unroll(v: nat, hi: nat, reserved: Option<string>, used: seq<string>)
    requires v < hi
    ensures FirstFree(Usable(v, hi, reserved), used) ==
            if Free(v, reserved, used) then Some(Host(v)) else FirstFree(Usable(v + 1, hi, reserved), used)
  {
    hide Host;
    var rest := Usable(v + 1, hi, reserved);
    assert ([Host(v)] + rest)[1..] == rest && [] + rest == rest;
  }

  lemma NothingLeft(v: nat, hi: nat, reserved: Option<string>, used: seq<string>)
    requires v >= hi
    ensures FirstFree(Usable(v, hi, reserved), used) == None
  {
  }

  // What is still to be found once `rounds` addresses of the block were passed.
  function Remaining(base: nat, rounds: nat, hi: nat, reserved: Option<string>, used: seq<string>): Option<string> {
    FirstFree(Usable(if rounds == 0 then base + 1 else base + rounds, hi, reserved), used)
  }

  lemma NextCandidate(base: nat, rounds: nat, hi: nat, reserved: Option<string>, used: seq<string>)
    ensures Remaining(base, rounds, hi, reserved, used) ==
            if 0 < rounds && base + rounds < hi && Free(base + rounds, reserved, used) then Some(Host(base + rounds))
            else Remaining(base, rounds + 1, hi, reserved, used)
    ensures base + rounds >= hi > base ==> Remaining(base, rounds, hi, reserved, used) == None
  {
    hide Host, Usable, FirstFree;
    var v := base + rounds;
    if v >= hi {
      NothingLeft(v, hi, reserved, used);
      NothingLeft(v + 1, hi, reserved, used);
    } else if 0 < rounds {
      Unroll(v, hi, reserved, used);
    }
  }

  lemma {:induction false} FirstFreeIsLeast(lo: nat, hi: nat, reserved: Option<string>, used: seq<string>, n: nat)
    ensures FirstFree(Usable(lo, hi, reserved), used) == Some(Host(n)) <==> LeastFree(n, lo, hi, reserved, used)
    decreases hi - lo
  {
    hide Host;
    if lo < hi {
      Unroll(lo, hi, reserved, used);
      FirstFreeIsLeast(lo + 1, hi, reserved, used, n);
      if Host(n) == Host(lo) {
        HostInjective(n, lo);
      }
    }
  }

  lemma {:induction false} NoneFree(lo: nat, hi: nat, reserved: Option<string>, used: seq<string>)
    ensures FirstFree(Usable(lo, hi, reserved), used) == None
            <==> forall m | lo <= m < hi :: !Free(m, reserved, used)
    decreases hi - lo
  {
    hide Host;
    if lo < hi {
      Unroll(lo, hi, reserved, used);
      NoneFree(lo + 1, hi, reserved, used);
    }
  }

  // The answer is the least address that is not the network, the broadcast, the
  // server or assigned; there is none exactly when all of those are taken.
  lemma AllocationIsLeast(base: nat, ones: nat, serverAddr: string, used: seq<string>, n: nat)
    requires ones <= 27
    ensures Allocation(base, ones, serverAddr, Some(used)) == Ip(Host(n))
            <==> LeastFree(n, base + 1, base + Size(ones) - 1, Reserved(serverAddr), used)
    ensures Allocation(base, ones, serverAddr, Some(used)) == Exhausted
            <==> forall m | base < m < base + Size(ones) - 1 :: !Free(m, Reserved(serverAddr), used)
  {
    hide Host, Usable, FirstFree;
    FirstFreeIsLeast(base + 1, base + Size(ones) - 1, Reserved(serverAddr), used, n);
    NoneFree(base + 1, base + Size(ones) - 1, Reserved(serverAddr), used);
  }

  // The configured server address names host n, with or without a prefix length.
  ghost predicate ServerIs(serverAddr: string, n: nat) {
    serverAddr == Dotted(n) || exists t: string :: serverAddr == Dotted(n) + "/" + t
  }

  // With the server at host s the answer is the least address that is not the
  // network, the broadcast, the server or assigned.
  lemma {:induction false} ServerIsSpared(base: nat, ones: nat, serverAddr: string, s: nat, used: seq<string>, n: nat)
    requires ones <= 27 && ServerIs(serverAddr, s)
    ensures Allocation(base, ones, serverAddr, Some(used)) != Ip(Dotted(s) + "/32")
    ensures Allocation(base, ones, serverAddr, Some(used)) == Ip(Dotted(n) + "/32")
            <==> (base < n < base + Size(ones) - 1 && n != s && Dotted(n) + "/32" !in used
                  && forall m | base < m < n :: m == s || Dotted(m) + "/32" in used)
    ensures Allocation(base, ones, serverAddr, Some(used)) == Exhausted
            <==> forall m | base < m < base + Size(ones) - 1 :: m == s || Dotted(m) + "/32" in used
  {
    hide Dotted, Host, Allocation, Reserved, Size, ServerIs, Free;
    AllocationIsLeast(base, ones, serverAddr, used, n);
    AllocationIsLeast(base, ones, serverAddr, used, s);
    FreeUnlessServer(serverAddr, s, used);
    HostText(n);
    HostText(s);
  }

  lemma {:induction false} SparesTheServer(base: nat, ones: nat, serverAddr: string, used: Option<seq<string>>)
    requires ones <= 32
    ensures forall s: nat | ServerIs(serverAddr, s) :: Allocation(base, ones, serverAddr, used) != Ip(Dotted(s) + "/32")
  {
    hide Dotted, Hosts, FirstFree, ServerIs;
    forall s: nat | ServerIs(serverAddr, s) ensures Allocation(base, ones, serverAddr, used) != Ip(Dotted(s) + "/32") {
      if ones <= 27 && used.Some? {
        ServerIsSpared(base, ones, serverAddr, s, used.value, s);
      }
    }
  }

  lemma {:induction false} FreeUnlessServer(serverAddr: string, s: nat, used: seq<string>)
    requires ServerIs(serverAddr, s)
    ensures forall m: nat :: Free(m, Reserved(serverAddr), used) <==> m != s && Dotted(m) + "/32" !in used
  {
    hide Dotted, Reserved, ServerIs;
    ReservedServer(serverAddr, s);
    forall m: nat ensures Free(m, Reserved(serverAddr), used) <==> m != s && Dotted(m) + "/32" !in used {
      if Host(m) == Host(s) { HostInjective(m, s); }
    }
  }

  lemma {:induction false} HostText(n: nat)
    ensures Host(n) == Dotted(n) + "/32"
  {
  }

  // With no server configured only the network, the broadcast and the assigned are skipped.
  lemma {:induction false} NoServerConfigured(base: nat, ones: nat, used: seq<string>, n: nat)
    requires ones <= 27
    ensures Allocation(base, ones, "", Some(used)) == Ip(Dotted(n) + "/32")
            <==> (base < n < base + Size(ones) - 1 && Dotted(n) + "/32" !in used
                  && forall m | base < m < n :: Dotted(m) + "/32" in used)
  {
    hide Dotted, Host, Allocation, Size, Free;
    AllocationIsLeast(base, ones, "", used, n);
    forall m: nat ensures Free(m, Reserved(""), used) <==> Dotted(m) + "/32" !in used {
      FreeUnlessUsed(m, used);
    }
    HostText(n);
  }

  lemma {:induction false} FreeUnlessUsed(n: nat, used: seq<string>)
    ensures Free(n, Reserved(""), used) <==> Dotted(n) + "/32" !in used
  {
  }

  lemma {:induction false} ReservedServer(serverAddr: string, s: nat)
    requires ServerIs(serverAddr, s)
    ensures Reserved(serverAddr) == Some(Host(s))
  {
    DottedHasNoSlash(s);
    hide Dotted;
    if serverAddr == Dotted(s) {
      SplitHead(Dotted(s), [], '/');
    } else {
      var t: string :| serverAddr == Dotted(s) + "/" + t;
      SplitHead(Dotted(s), t, '/');
      assert Before(serverAddr, '/') == Dotted(s);
    }
  }

  lemma {:induction false} DottedHasNoSlash(n: nat)
    ensures '/' !in Dotted(n) && Dotted(n) != ""
  {
    assert !IsDigit('/');
    hide Dec;
  }

  predicate Distinct(s: seq<string>) {
    forall i, j | 0 <= i < j < |s| :: s[i] != s[j]
  }

  lemma {:induction false} UsableMembers(lo: nat, hi: nat, reserved: Option<string>)
    ensures forall h | h in Usable(lo, hi, reserved) :: exists n :: lo <= n < hi && h == Host(n)
    ensures Distinct(Usable(lo, hi, reserved))
    ensures |Usable(lo, hi, reserved)| >= hi - lo - 1
    ensures (forall m | lo <= m < hi :: reserved != Some(Host(m))) ==> |Usable(lo, hi, reserved)| >= hi - lo
    decreases hi - lo
  {
    hide Host;
    if lo < hi {
      UsableMembers(lo + 1, hi, reserved);
      var rest := Usable(lo + 1, hi, reserved);
      forall m | lo + 1 <= m < hi ensures Host(m) != Host(lo) {
        if Host(m) == Host(lo) { HostInjective(m, lo); }
      }
      assert Host(lo) !in rest;
      assert Usable(lo, hi, reserved) == rest || Usable(lo, hi, reserved) == [Host(lo)] + rest;
    }
  }

  // With the first k hosts taken and no other, the next host is handed out.
  lemma {:induction false} FirstFreeOfSegment(hosts: seq<string>, k: nat, used: seq<string>)
    requires Distinct(hosts) && k <= |hosts|
    requires forall i | 0 <= i < |hosts| :: hosts[i] in used <==> i < k
    ensures FirstFree(hosts, used) == if k < |hosts| then Some(hosts[k]) else None
  {
    if hosts != [] && k > 0 {
      FirstFreeOfSegment(hosts[1..], k - 1, used);
    }
  }

  // Fewer assigned addresses inside the block than hosts: allocation succeeds.
  lemma {:induction false} Pigeonhole(base: nat, ones: nat, serverAddr: string, used: seq<string>)
    requires ones <= 27
    requires |set u | u in used && u in Hosts(base, ones, serverAddr)| < |Hosts(base, ones, serverAddr)|
    ensures Allocation(base, ones, serverAddr, Some(used)).Ip?
  {
    hide Usable, Size, Reserved, Host;
    var hosts := Hosts(base, ones, serverAddr);
    UsableMembers(base + 1, base + Size(ones) - 1, Reserved(serverAddr));
    if FirstFree(hosts, used) == None {
      FirstFreeNone(hosts, used);
      assert (set u | u in used && u in hosts) == (set h | h in hosts);
      DistinctCount(hosts);
    }
  }

  lemma {:induction false} FirstFreeNone(hosts: seq<string>, used: seq<string>)
    requires FirstFree(hosts, used) == None
    ensures forall h | h in hosts :: h in used
  {
    if hosts != [] {
      FirstFreeNone(hosts[1..], used);
    }
  }

  lemma {:induction false} DistinctCount(s: seq<string>)
    requires Distinct(s)
    ensures |set h | h in s| == |s|
  {
    if s != [] {
      DistinctCount(s[1..]);
      assert (set h | h in s) == {s[0]} + (set h | h in s[1..]);
      assert s[0] !in s[1..];
    } else {
      assert (set h | h in s) == {};
    }
  }

  // A block of the smallest size still offers at least 29 hosts.
  lemma {:induction false} RoomForHosts(base: nat, ones: nat, serverAddr: string)
    requires ones <= 27
    ensures |Hosts(base, ones, serverAddr)| >= Size(ones) - 3 >= 29
  {
    hide Usable, Size;
    UsableMembers(base + 1, base + Size(ones) - 1, Reserved(serverAddr));
    SmallestBlock(ones);
  }

  lemma {:induction false} SmallestBlock(ones: nat)
    requires ones <= 27
    ensures Size(ones) >= 32
  {
    Pow2Values();
    Pow2Sum(27 - ones, 5);
    MulMono(1, Pow2(27 - ones), 32);
  }

  // ---- the code -----------------------------------------------------------

  // The *net.IPNet that net.ParseCIDR returns: the address is already masked.
  class IPNet {
    const ip: array<byte>
    const mask: array<byte>
    const ones: nat

    ghost predicate Valid()
      reads ip, mask
    {
      ip.Length == 4 && mask.Length == 4 && ones <= 32 &&
      mask[..] == CIDRMask(ones) && And(ip[..], mask[..]) == ip[..]
    }

    ghost function Base(): nat
      requires Valid()
      reads ip, mask
    {
      Value(ip[..])
    }

    constructor (addr: Bytes, ones: nat)
      requires ones <= 32
      ensures Valid() && fresh(ip) && fresh(mask) && this.ones == ones
      ensures ip[..] == And(addr, CIDRMask(ones))
    {
      var m := CIDRMask(ones);
      this.ones := ones;
      this.mask := new byte[4](i requires 0 <= i < 4 => m[i]);
      this.ip := new byte[4](i requires 0 <= i < 4 => And(addr, m)[i]);
      new;
      assert mask[..] == m;
      assert ip[..] == And(addr, m);
      MaskTwice(addr, ones);
    }
  }

  // ip[j]++ on a uint8
  function Increment(b: byte): byte {
    if b == 255 then 0 else b + 1
  }

  // Byte j went up by one, those after it wrapped from 255 to 0.
  lemma Carried(a: Bytes, b: Bytes, j: int)
    requires -1 <= j < 4 && (forall k | 0 <= k < j :: b[k] == a[k])
    requires forall k | j < k < 4 :: a[k] == 255 && b[k] == 0
    requires j >= 0 ==> b[j] as int == a[j] as int + 1
    ensures Value(b) == (Value(a) + 1) % SPACE
  {
  }

  method IncIP(ip: array<byte>)
    requires ip.Length == 4
    modifies ip
    ensures Value(ip[..]) == (old(Value(ip[..])) + 1) % SPACE
  {
    hide Value;
    ghost var was := ip[..];
    var j := ip.Length - 1;
    while j >= 0
      invariant -1 <= j <= 3
      invariant forall k | j < k < 4 :: ip[k] == 0 && was[k] == 255
      invariant forall k | 0 <= k <= j :: ip[k] == was[k]
    {
      ip[j] := Increment(ip[j]);
      if ip[j] != 0 {
        break;
      }
      j := j - 1;
    }
    Carried(was, ip[..], j);
  }

  method IsNetworkOrBroadcast(ip: array<byte>, cidr: IPNet) returns (r: bool)
    requires cidr.Valid() && ip.Length == 4
    ensures r <==> Value(ip[..]) == cidr.Base() || Value(ip[..]) == cidr.Base() + Size(cidr.ones) - 1
  {
    hide ByteOr, ByteNot, Value, CIDRMask, And, Size;
    MaskTestIsInterval(ip[..], cidr.ip[..], cidr.ones);
    if ip[..] == cidr.ip[..] {
      return true;
    }
    if Value(ip[..]) == cidr.Base() { ValueInjective(ip[..], cidr.ip[..]); }
    var broadcast := new byte[cidr.ip.Length];
    for i := 0 to cidr.ip.Length
      invariant broadcast[..i] == OrNot(cidr.ip[..], cidr.mask[..])[..i]
    {
      broadcast[i] := ByteOr(cidr.ip[i], ByteNot(cidr.mask[i]));
    }
    assert broadcast[..] == OrNot(cidr.ip[..], cidr.mask[..]);
    r := ip[..] == broadcast[..];
    if !r && Value(ip[..]) == Value(broadcast[..]) { ValueInjective(ip[..], broadcast[..]); }
  }

  // The lookup table of ipam.go:39-46.
  method UsedSet(used: seq<string>, serverAddr: string) returns (usedSet: set<string>)
    ensures forall h :: h in usedSet <==> h in used || Reserved(serverAddr) == Some(h)
  {
    usedSet := {};
    for i := 0 to |used|
      invariant forall h :: h in usedSet <==> h in used[..i]
    {
      usedSet := usedSet + {used[i]};
    }
    if serverAddr != "" {
      usedSet := usedSet + {Before(serverAddr, '/') + "/32"};
    }
  }

  // On a /0 block the loop has no end when every host is taken, so there a free
  // host is required; SlashZeroNeverStops shows that nothing less would do.
  method Allocate(cidr: IPNet, serverAddr: string, used: Option<seq<string>>)
    returns (r: Result, ghost rounds: nat)
    requires cidr.Valid()
    requires cidr.ones == 0 && used.Some? ==>
               exists h :: h in Hosts(cidr.Base(), 0, serverAddr) && h !in used.value
    ensures r == Allocation(cidr.Base(), cidr.ones, serverAddr, used)
    ensures r.TooSmall? <==> cidr.ones > 27
    ensures r.ReadFailed? <==> cidr.ones <= 27 && used.None?
    ensures forall s: nat | ServerIs(serverAddr, s) :: r != Ip(Dotted(s) + "/32")
    ensures rounds <= Size(cidr.ones)
  {
    hide Value, Dotted, IPString, MaskByte, CIDRMask, And, OrNot, Size, Usable, FirstFree, Reserved, Before, ServerIs;
    SparesTheServer(cidr.Base(), cidr.ones, serverAddr, used);
    rounds := 0;
    if 32 - cidr.ones < 5 {
      return TooSmall, 0;
    }
    if used.None? {
      return ReadFailed, 0;
    }
    var usedSet := UsedSet(used.value, serverAddr);
    ghost var reserved := Reserved(serverAddr);
    ghost var base, last := cidr.Base(), cidr.Base() + Size(cidr.ones) - 1;
    BlockFits(cidr.ip[..], cidr.ones);
    RoomForHosts(base, cidr.ones, serverAddr);
    if cidr.ones == 0 && FirstFree(Hosts(base, 0, serverAddr), used.value) == None {
      FirstFreeNone(Hosts(base, 0, serverAddr), used.value);
    }
    // ipnet.IP.Mask allocates, so the increments below never touch cidr.ip
    var masked := And(cidr.ip[..], cidr.mask[..]);
    var ip := new byte[4](i requires 0 <= i < 4 => masked[i]);
    assert ip[..] == masked;
    ghost var want := Remaining(base, 0, last, reserved, used.value);
    while MaskMatch(ip[..], cidr.ip[..], cidr.mask[..])
      invariant fresh(ip)
      invariant rounds <= Size(cidr.ones) && Value(ip[..]) == (base + rounds) % SPACE
      invariant Remaining(base, rounds, last, reserved, used.value) == want
      invariant rounds > Size(cidr.ones) - 1 ==> want == None
      decreases Size(cidr.ones) - rounds
    {
      MaskTestIsInterval(ip[..], cidr.ip[..], cidr.ones);
      IPStringIsDotted(ip[..]);
      assert rounds < Size(cidr.ones) && Value(ip[..]) == base + rounds;
      var taken := IPString(ip[..]) + "/32" in usedSet;
      var special := false;
      if !taken {
        special := IsNetworkOrBroadcast(ip, cidr);
      }
      NextCandidate(base, rounds, last, reserved, used.value);
      if !taken && !special {
        return Ip(IPString(ip[..]) + "/32"), rounds;
      }
      IncIP(ip);
      rounds := rounds + 1;
    }
    MaskTestIsInterval(ip[..], cidr.ip[..], cidr.ones);
    r := Exhausted;
  }

  // A full /0: whatever number of rounds has passed, the candidate is inside the
  // block and is skipped, so the loop of Allocate never returns.
  lemma SlashZeroNeverStops(base: Bytes, serverAddr: string, used: seq<string>, rounds: nat, ip: Bytes)
    requires And(base, CIDRMask(0)) == base
    requires forall h | h in Hosts(Value(base), 0, serverAddr) :: h in used
    requires Value(ip) == (Value(base) + rounds) % SPACE
    ensures MaskMatch(ip, base, CIDRMask(0))
    ensures IPString(ip) + "/32" in used || Reserved(serverAddr) == Some(IPString(ip) + "/32")
            || ip == base || ip == OrNot(base, CIDRMask(0))
  {
    BlockFits(base, 0);
    MaskTestIsInterval(ip, base, 0);
    IPStringIsDotted(ip);
    if Value(ip) == Value(base) {
      ValueInjective(ip, base);
    } else if Value(ip) == SPACE - 1 {
      ValueInjective(ip, OrNot(base, CIDRMask(0)));
    } else if Free(Value(ip), Reserved(serverAddr), used) {
      UsableHas(1, SPACE - 1, Reserved(serverAddr), Value(ip));
    }
  }

  lemma {:induction false} UsableHas(lo: nat, hi: nat, reserved: Option<string>, n: nat)
    requires lo <= n < hi && reserved != Some(Host(n))
    ensures Host(n) in Usable(lo, hi, reserved)
    decreases hi - lo
  {
    if lo < n {
      UsableHas(lo + 1, hi, reserved, n);
    }
  }
}
