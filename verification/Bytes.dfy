/**
 Bytes, little-endian integers and the CRC-32 (IEEE 802.3) checksum that the
 write-ahead log and the snapshot file are built from.
 */
module Bytes {

  type byte = x: int | 0 <= x < 256

  const U32: nat := 0x1_0000_0000
  const U64: nat := 0x1_0000_0000_0000_0000

  type u32 = x: int | 0 <= x < 0x1_0000_0000
  type u64 = x: int | 0 <= x < 0x1_0000_0000_0000_0000

  datatype Option<T> = None | Some(value: T)

  function Pow256(k: nat): (p: nat)
    ensures p > 0
  {
    if k == 0 then 1 else 256 * Pow256(k - 1)
  }

  /** The k low bytes of n, least significant first. */
  function LE(n: nat, k: nat): (b: seq<byte>)
    ensures |b| == k
    decreases k, n
  {
    if k == 0 then [] else [n % 256] + LE(n / 256, k - 1)
  }

  function FromLE(b: seq<byte>): (n: nat)
    ensures n < Pow256(|b|)
  {
    if b == [] then 0 else b[0] + 256 * FromLE(b[1..])
  }

  lemma {:induction false} LERoundTrip(n: nat, k: nat)
    requires n < Pow256(k)
    ensures FromLE(LE(n, k)) == n
    decreases k
  {
    if k > 0 {
      LERoundTrip(n / 256, k - 1);
      assert LE(n, k)[1..] == LE(n / 256, k - 1);
    }
  }

  lemma LowDigit(x: byte, m: nat)
    ensures (x + 256 * m) % 256 == x && (x + 256 * m) / 256 == m
  {
  }

  lemma {:induction false} LEInverse(b: seq<byte>)
    ensures LE(FromLE(b), |b|) == b
  {
    if b != [] {
      LEInverse(b[1..]);
      LowDigit(b[0], FromLE(b[1..]));
      assert b == [b[0]] + b[1..];
    }
  }

  lemma DivDiv(n: nat, m: nat)
    requires m > 0
    ensures n / 256 / m == n / (256 * m)
  {
    var q, r := n / 256 / m, n / 256 % m;
    assert n / 256 == q * m + r;
    assert n == (256 * m) * q + (256 * r + n % 256);
    assert 256 * r + n % 256 < 256 * m;
    DivIs(n, 256 * m, q, 256 * r + n % 256);
  }

  lemma DivIs(n: nat, d: nat, q: nat, r: nat)
    requires d > 0 && n == d * q + r && r < d
    ensures n / d == q
  {
    var k, m := n / d, n % d;
    assert n == d * k + m && 0 <= m < d;
    Remainders(d, k, m, q, r);
  }

  lemma Remainders(d: nat, k: nat, m: nat, q: nat, r: nat)
    requires m < d && r < d && d * k + m == d * q + r
    ensures k == q
  {
    assert d * (k - q) == r - m;
    if k > q {
      Multiple(d, k - q);
    } else if k < q {
      Multiple(d, q - k);
    }
  }

  lemma Multiple(d: nat, t: nat)
    requires t > 0
    ensures d * t >= d
  {
    assert d * t == d + d * (t - 1);
  }

  /** Byte i holds the digit of 256 to the i. */
  lemma {:induction false} LEAt(n: nat, k: nat, i: nat)
    requires i < k
    ensures LE(n, k)[i] == n / Pow256(i) % 256
    decreases i
  {
    if i > 0 {
      LEAt(n / 256, k - 1, i - 1);
      DivDiv(n, Pow256(i - 1));
    }
  }

  lemma Widths()
    ensures Pow256(1) == 256
    ensures Pow256(4) == U32
    ensures Pow256(8) == U64
  {
    assert Pow256(2) == 65536 && Pow256(3) == 16777216;
    assert Pow256(5) == 256 * U32 && Pow256(6) == 65536 * U32 && Pow256(7) == 16777216 * U32;
  }

  /** A 4-byte field holds n exactly when n fits 32 bits; otherwise it wraps. */
  function Put32(n: nat): (b: seq<byte>)
    ensures |b| == 4
  {
    LE(n % U32, 4)
  }

  lemma Put32Whole(n: u32)
    ensures Put32(n) == LE(n, 4)
  {
    hide LE;
  }

  lemma Put32RoundTrip(n: nat)
    ensures FromLE(Put32(n)) == n % U32
  {
    Widths();
    LERoundTrip(n % U32, 4);
  }

  lemma Get32RoundTrip(b: seq<byte>)
    requires |b| == 4
    ensures FromLE(b) < U32 && Put32(FromLE(b)) == b
  {
    hide LE, FromLE;
    Widths();
    LEInverse(b);
  }

  lemma Put64RoundTrip(n: u64)
    ensures FromLE(LE(n, 8)) == n
  {
    Widths();
    LERoundTrip(n, 8);
  }

  lemma Get64RoundTrip(b: seq<byte>)
    requires |b| == 8
    ensures FromLE(b) < U64 && LE(FromLE(b), 8) == b
  {
    hide LE, FromLE;
    Widths();
    LEInverse(b);
  }

  /** 32-bit words (float bit patterns) back to back. */
  function Words(v: seq<u32>): (b: seq<byte>)
    ensures |b| == 4 * |v|
  {
    if v == [] then [] else Put32(v[0]) + Words(v[1..])
  }

  function FromWords(b: seq<byte>): (v: seq<u32>)
    requires |b| % 4 == 0
    ensures 4 * |v| == |b|
  {
    if b == [] then [] else Get32RoundTrip(b[..4]); [FromLE(b[..4])] + FromWords(b[4..])
  }

  lemma {:induction false} WordsAt(v: seq<u32>, i: nat)
    requires i < |v|
    ensures Words(v)[4 * i..4 * i + 4] == Put32(v[i])
  {
    hide Put32;
    if i > 0 {
      WordsAt(v[1..], i - 1);
      assert Words(v)[4 * i..4 * i + 4] == Words(v[1..])[4 * (i - 1)..4 * (i - 1) + 4];
    }
  }

  lemma {:induction false} WordsRoundTrip(v: seq<u32>)
    ensures FromWords(Words(v)) == v
  {
    if v != [] {
      WordsRoundTrip(v[1..]);
      Put32RoundTrip(v[0]);
      assert Words(v)[..4] == Put32(v[0]);
      assert Words(v)[4..] == Words(v[1..]);
      assert v == [v[0]] + v[1..];
    }
  }

  lemma {:induction false} FromWordsRoundTrip(b: seq<byte>)
    requires |b| % 4 == 0
    ensures Words(FromWords(b)) == b
  {
    if b != [] {
      FromWordsRoundTrip(b[4..]);
      Get32RoundTrip(b[..4]);
      assert FromWords(b)[1..] == FromWords(b[4..]);
      assert b == b[..4] + b[4..];
    }
  }

  lemma {:induction false} WordsAppend(v: seq<u32>, x: u32)
    ensures Words(v + [x]) == Words(v) + Put32(x)
  {
    hide Put32;
    if v == [] {
      assert v + [x] == [x];
      assert Words([x]) == Put32(x) + Words([]);
    } else {
      WordsAppend(v[1..], x);
      assert (v + [x])[1..] == v[1..] + [x];
    }
  }

  lemma {:induction false} FromWordsAppend(b: seq<byte>, w: seq<byte>)
    requires |b| % 4 == 0 && |w| == 4
    ensures FromLE(w) < U32
    ensures FromWords(b + w) == FromWords(b) + [FromLE(w)]
  {
    Get32RoundTrip(w);
    if b == [] {
      assert b + w == w;
      assert w[..4] == w && w[4..] == [];
      assert FromWords(w) == [FromLE(w)];
    } else {
      FromWordsAppend(b[4..], w);
      assert (b + w)[..4] == b[..4];
      assert (b + w)[4..] == b[4..] + w;
    }
  }

  // ---- CRC-32, reflected polynomial 0xEDB88320 ----

  /** A byte in the low bits of a register. */
  function Bits(b: byte): bv32 {
    (b as bv8) as bv32
  }

  /** The number a register holds. */
  function Number(c: bv32): u32 {
    c as int
  }

  function Xor(c: bv32, d: bv32): bv32 {
    c ^ d
  }

  function CrcBit(c: bv32): bv32 {
    if c & 1 == 1 then (c >> 1) ^ 0xEDB8_8320 else c >> 1
  }

  function CrcEight(c: bv32): bv32 {
    CrcBit(CrcBit(CrcBit(CrcBit(CrcBit(CrcBit(CrcBit(CrcBit(c))))))))
  }

  function CrcByte(c: bv32, b: byte): bv32 {
    CrcEight(Xor(c, Bits(b)))
  }

  function CrcFrom(c: bv32, data: seq<byte>): bv32
    decreases |data|
  {
    if data == [] then c else CrcFrom(CrcByte(c, data[0]), data[1..])
  }

  function Crc32(data: seq<byte>): u32 {
    Number(Xor(CrcFrom(0xFFFF_FFFF, data), 0xFFFF_FFFF))
  }

  // ---- Every byte counts ----

  lemma NextBits(b: bv8)
    requires b as int < 255
    ensures (b + 1) as int == b as int + 1
  {
  }

  /** Every byte is the number of some eight bits. */
  lemma {:induction false} EightBits(x: byte) returns (b: bv8)
    ensures b as int == x
  {
    b := 0;
    if x > 0 {
      var c := EightBits(x - 1);
      NextBits(c);
      b := c + 1;
    }
  }

  lemma BitsOfNumber(b: bv8)
    ensures (b as int) as bv8 == b
  {
  }

  lemma ByteOfBits(x: byte)
    ensures (x as bv8) as int == x
  {
    var b := EightBits(x);
    BitsOfNumber(b);
  }

  lemma BitsInjective(x: byte, y: byte)
    ensures Bits(x) == Bits(y) ==> x == y
  {
    ByteOfBits(x);
    ByteOfBits(y);
  }

  lemma BitInjective(c: bv32, d: bv32)
    ensures CrcBit(c) == CrcBit(d) ==> c == d
  {
  }

  lemma EightInjective(c: bv32, d: bv32)
    ensures CrcEight(c) == CrcEight(d) ==> c == d
  {
    hide CrcBit;
    var x1, y1 := CrcBit(c), CrcBit(d);
    var x2, y2 := CrcBit(x1), CrcBit(y1);
    var x3, y3 := CrcBit(x2), CrcBit(y2);
    var x4, y4 := CrcBit(x3), CrcBit(y3);
    var x5, y5 := CrcBit(x4), CrcBit(y4);
    var x6, y6 := CrcBit(x5), CrcBit(y5);
    var x7, y7 := CrcBit(x6), CrcBit(y6);
    BitInjective(x7, y7);
    BitInjective(x6, y6);
    BitInjective(x5, y5);
    BitInjective(x4, y4);
    BitInjective(x3, y3);
    BitInjective(x2, y2);
    BitInjective(x1, y1);
    BitInjective(c, d);
  }

  lemma XorInjective(c: bv32, d: bv32, x: bv32)
    ensures Xor(c, x) == Xor(d, x) ==> c == d
    ensures Xor(x, c) == Xor(x, d) ==> c == d
  {
  }

  lemma ByteInjective(c: bv32, d: bv32, x: byte)
    ensures CrcByte(c, x) == CrcByte(d, x) ==> c == d
  {
    hide CrcEight, Bits, Xor;
    EightInjective(Xor(c, Bits(x)), Xor(d, Bits(x)));
    XorInjective(c, d, Bits(x));
  }

  lemma ByteMatters(c: bv32, x: byte, y: byte)
    ensures CrcByte(c, x) == CrcByte(c, y) ==> x == y
  {
    hide CrcEight, Bits, Xor;
    EightInjective(Xor(c, Bits(x)), Xor(c, Bits(y)));
    XorInjective(Bits(x), Bits(y), c);
    BitsInjective(x, y);
  }

  lemma RegisterOfNumber(c: bv32)
    ensures (c as int) as bv32 == c
  {
  }

  lemma NumberInjective(c: bv32, d: bv32)
    ensures Number(c) == Number(d) ==> c == d
  {
    RegisterOfNumber(c);
    RegisterOfNumber(d);
  }

  lemma {:induction false} CrcFromInjective(c: bv32, d: bv32, data: seq<byte>)
    ensures CrcFrom(c, data) == CrcFrom(d, data) ==> c == d
    decreases |data|
  {
    hide CrcByte;
    if data != [] {
      CrcFromInjective(CrcByte(c, data[0]), CrcByte(d, data[0]), data[1..]);
      ByteInjective(c, d, data[0]);
    }
  }

  lemma {:induction false} CrcFromAppend(c: bv32, a: seq<byte>, b: seq<byte>)
    ensures CrcFrom(c, a + b) == CrcFrom(CrcFrom(c, a), b)
    decreases |a|
  {
    hide CrcByte;
    if a == [] {
      assert a + b == b;
    } else {
      assert (a + b)[1..] == a[1..] + b;
      CrcFromAppend(CrcByte(c, a[0]), a[1..], b);
    }
  }

  lemma CrcFromHead(c: bv32, x: byte, b: seq<byte>)
    ensures CrcFrom(c, [x] + b) == CrcFrom(CrcByte(c, x), b)
  {
    hide CrcByte;
    assert ([x] + b)[1..] == b;
  }

  lemma CrcFromMatters(c: bv32, a: seq<byte>, x: byte, y: byte, b: seq<byte>)
    ensures CrcFrom(c, a + ([x] + b)) == CrcFrom(c, a + ([y] + b)) ==> x == y
  {
    hide CrcByte, CrcFrom;
    var d := CrcFrom(c, a);
    CrcFromAppend(c, a, [x] + b);
    CrcFromAppend(c, a, [y] + b);
    CrcFromHead(d, x, b);
    CrcFromHead(d, y, b);
    CrcFromInjective(CrcByte(d, x), CrcByte(d, y), b);
    ByteMatters(d, x, y);
  }

  /** Changing one byte always changes the checksum. */
  lemma OneByteChangesTheSum(data: seq<byte>, i: nat, x: byte)
    requires i < |data| && data[i] != x
    ensures Crc32(data[i := x]) != Crc32(data)
  {
    hide CrcFrom, Number, Xor;
    var start := 0xFFFF_FFFF;
    var a, b := data[..i], data[i + 1..];
    assert data == a + ([data[i]] + b) && data[i := x] == a + ([x] + b);
    CrcFromMatters(start, a, x, data[i], b);
    var p, q := CrcFrom(start, data[i := x]), CrcFrom(start, data);
    XorInjective(p, q, start);
    NumberInjective(Xor(p, start), Xor(q, start));
  }

  /** The standard check value of this checksum, that of the characters 1 to 9. */
  lemma CheckValue()
    ensures Crc32([0x31, 0x32, 0x33, 0x34, 0x35, 0x36, 0x37, 0x38, 0x39]) == 0xCBF4_3926
  {
    hide CrcFrom;
    var a: seq<byte>, b: seq<byte> := [0x31, 0x32, 0x33, 0x34, 0x35], [0x36, 0x37, 0x38, 0x39];
    FirstFive();
    CrcFromAppend(0xFFFF_FFFF, a, b);
    LastFour();
    assert a + b == [0x31, 0x32, 0x33, 0x34, 0x35, 0x36, 0x37, 0x38, 0x39];
  }

  lemma FirstFive()
    ensures CrcFrom(0xFFFF_FFFF, [0x31, 0x32, 0x33, 0x34, 0x35]) == 0x340A_C5E3
  {
    assert CrcByte(0xFFFF_FFFF, 0x31) == 0x7C23_1048;
    assert CrcByte(0x7C23_1048, 0x32) == 0xB0AC_BB32;
    assert CrcByte(0xB0AC_BB32, 0x33) == 0x77B7_9C2D;
    assert CrcByte(0x77B7_9C2D, 0x34) == 0x641C_1F5C;
    assert CrcByte(0x641C_1F5C, 0x35) == 0x340A_C5E3;
  }

  lemma LastFour()
    ensures CrcFrom(0x340A_C5E3, [0x36, 0x37, 0x38, 0x39]) == 0x340B_C6D9
  {
    assert CrcByte(0x340A_C5E3, 0x36) == 0xF68D_2C9E;
    assert CrcByte(0xF68D_2C9E, 0x37) == 0xAFFC_9660;
    assert CrcByte(0xAFFC_9660, 0x38) == 0x651F_2550;
    assert CrcByte(0x651F_2550, 0x39) == 0x340B_C6D9;
  }
}
