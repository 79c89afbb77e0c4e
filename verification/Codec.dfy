/** The integer and string encodings of src/Bytearray.cc, over sequences of bytes. */
module Codec {

  type byte = b: int | 0 <= b < 256

  const M32: nat := 0x1_0000_0000
  const M64: nat := 0x1_0000_0000_0000_0000

  function Pow(b: nat, n: nat): nat {
    if n == 0 then 1 else b * Pow(b, n - 1)
  }

  lemma {:induction false} PowPositive(b: nat, n: nat)
    requires b > 0
    ensures Pow(b, n) > 0
  {
    if n > 0 {
      PowPositive(b, n - 1);
    }
  }

  // ------------------------------------------------------------------ bits

  /** The number of bits of a word with m values. */
  function Bits(m: nat): nat { if m == M32 then 32 else 64 }

  /** x ^ y and x | y on words of n bits. */
  function Xor(x: nat, y: nat, n: nat): nat
    decreases n
  {
    if n == 0 then 0 else (x + y) % 2 + 2 * Xor(x / 2, y / 2, n - 1)
  }

  function Or(x: nat, y: nat, n: nat): nat
    decreases n
  {
    if n == 0 then 0 else (if x % 2 == 1 || y % 2 == 1 then 1 else 0) + 2 * Or(x / 2, y / 2, n - 1)
  }

  lemma {:induction false} XorZero(x: nat, n: nat)
    requires x < Pow(2, n)
    ensures Xor(x, 0, n) == x
    decreases n
  {
    if n > 0 {
      XorZero(x / 2, n - 1);
    }
  }

  /** Exclusive or with all ones is the complement. */
  lemma {:induction false} XorOnes(x: nat, n: nat)
    requires x < Pow(2, n)
    ensures Xor(x, Pow(2, n) - 1, n) == Pow(2, n) - 1 - x
    decreases n
  {
    if n > 0 {
      XorOnes(x / 2, n - 1);
      XorOnesStep(x, Pow(2, n - 1), Xor(x / 2, Pow(2, n - 1) - 1, n - 1));
    }
  }

  lemma XorOnesStep(x: nat, p: nat, r: nat)
    requires x < 2 * p && r == p - 1 - x / 2
    ensures (2 * p - 1) / 2 == p - 1 && (x + (2 * p - 1)) % 2 + 2 * r == 2 * p - 1 - x
  {
  }

  lemma {:induction false} OrZero(y: nat, n: nat)
    requires y < Pow(2, n)
    ensures Or(0, y, n) == y
    decreases n
  {
    if n > 0 {
      OrZero(y / 2, n - 1);
    }
  }

  /** Or of a number below 2^k and a multiple of 2^k is their sum. */
  lemma {:induction false} OrIsAdd(x: nat, q: nat, k: nat, n: nat)
    requires k <= n && x < Pow(2, k) && q * Pow(2, k) < Pow(2, n)
    ensures Or(x, q * Pow(2, k), n) == x + q * Pow(2, k)
    decreases n
  {
    if k == 0 {
      OrZero(q * Pow(2, k), n);
    } else {
      var y := q * Pow(2, k - 1);
      assert q * Pow(2, k) == 2 * y by {
        assert q * (2 * Pow(2, k - 1)) == 2 * (q * Pow(2, k - 1));
      }
      OrIsAdd(x / 2, q, k - 1, n - 1);
      assert (2 * y) % 2 == 0 && (2 * y) / 2 == y;
    }
  }

  lemma {:induction false} PowPlus(b: nat, i: nat, j: nat)
    ensures Pow(b, i + j) == Pow(b, i) * Pow(b, j)
  {
    if i > 0 {
      PowPlus(b, i - 1, j);
      assert b * (Pow(b, i - 1) * Pow(b, j)) == b * Pow(b, i - 1) * Pow(b, j);
    }
  }

  lemma PowersOf2()
    ensures Pow(2, 7) == 0x80 && Pow(2, 32) == M32 && Pow(2, 64) == M64
  {
    assert Pow(2, 1) == 2 * Pow(2, 0);
    assert Pow(2, 4) == 2 * 2 * 2 * Pow(2, 1);
    assert Pow(2, 7) == 2 * 2 * 2 * Pow(2, 4);
    PowPlus(2, 4, 4);
    PowPlus(2, 8, 8);
    PowPlus(2, 16, 16);
    PowPlus(2, 32, 32);
  }

  lemma WordBits(m: nat)
    requires m in {M32, M64}
    ensures m == Pow(2, Bits(m))
  {
    PowersOf2();
  }

  // ------------------------------------------------------------------ zigzag

  /** Two's complement: the unsigned value that has the bits of v, and back.  m is 2^32 or 2^64. */
  function Unsigned(v: int, m: nat): int { if v < 0 then v + m else v }

  function Signed(u: int, m: nat): int { if u < m / 2 then u else u - m }

  predicate InSigned(v: int, m: nat) { -(m / 2) <= v < m / 2 }

  /** EncodeZigzag32 and EncodeZigzag64; -v and the doubling wrap around, so that the most negative
      number is no exception. */
  function EncodeZigzag(v: int, m: nat): int
    requires m > 0
  {
    if v < 0 then (Unsigned(-v, m) % m * 2 - 1) % m else (v * 2) % m
  }

  /** DecodeZigzag32 and DecodeZigzag64 (see ZigzagOnBits) */
  function DecodeZigzag(u: int, m: nat): int {
    Signed(if u % 2 == 0 then u / 2 else m - 1 - u / 2, m)
  }

  /** Zigzag is a bijection between the signed and the unsigned numbers of either width: both round
      trips, for every value including the most negative one. */
  lemma ZigzagBijection(v: int, u: int, m: nat)
    requires m in {M32, M64}
    ensures InSigned(v, m) ==> 0 <= EncodeZigzag(v, m) < m && DecodeZigzag(EncodeZigzag(v, m), m) == v
    ensures 0 <= u < m ==> InSigned(DecodeZigzag(u, m), m) && EncodeZigzag(DecodeZigzag(u, m), m) == u
  {
    if InSigned(v, m) {
      ZigzagForth(v, m);
    }
    if 0 <= u < m {
      ZigzagBack(u, m);
    }
  }

  lemma ZigzagForth(v: int, m: nat)
    requires m in {M32, M64} && InSigned(v, m)
    ensures 0 <= EncodeZigzag(v, m) < m && DecodeZigzag(EncodeZigzag(v, m), m) == v
  {
    if v < 0 {
      SmallMod(-v, m);
      SmallMod(-v * 2 - 1, m);
      assert EncodeZigzag(v, m) == -v * 2 - 1;
    } else {
      SmallMod(v * 2, m);
      assert EncodeZigzag(v, m) == v * 2;
    }
  }

  lemma ZigzagBack(u: int, m: nat)
    requires m in {M32, M64} && 0 <= u < m
    ensures InSigned(DecodeZigzag(u, m), m) && EncodeZigzag(DecodeZigzag(u, m), m) == u
  {
  }

  /** Small magnitudes get small codes, which is what the encoding is for. */
  lemma ZigzagMagnitude(v: int, m: nat)
    requires m in {M32, M64} && InSigned(v, m)
    ensures EncodeZigzag(v, m) == if v < 0 then -2 * v - 1 else 2 * v
  {
  }

  /** The C expression (v >> 1) ^ -(v & 1) computes this function, on words of either width. */
  lemma ZigzagOnBits(u: nat, m: nat)
    requires m in {M32, M64} && u < m
    ensures DecodeZigzag(u, m) == Signed(Xor(u / 2, -(u % 2) % m, Bits(m)), m)
  {
    WordBits(m);
    assert -(u % 2) % m == if u % 2 == 0 then 0 else m - 1;
    XorMask(u, m, Bits(m), -(u % 2) % m);
  }

  lemma XorMask(u: nat, m: nat, n: nat, mask: nat)
    requires m == Pow(2, n) && u < m && mask == if u % 2 == 0 then 0 else m - 1
    ensures Xor(u / 2, mask, n) == if u % 2 == 0 then u / 2 else m - 1 - u / 2
  {
    if u % 2 == 0 {
      XorZero(u / 2, n);
    } else {
      XorOnes(u / 2, n);
    }
  }

  // ------------------------------------------------------------------ varints

  /** writeUint32 and writeUint64: seven bits a byte, lowest first, the top bit says "more". */
  function Varint(v: nat): (r: seq<byte>)
    ensures |r| >= 1
  {
    if v < 0x80 then [v] else [v % 0x80 + 0x80] + Varint(v / 0x80)
  }

  lemma {:induction false} VarintLength(v: nat, k: nat)
    requires k >= 1 && v < Pow(0x80, k)
    ensures |Varint(v)| <= k
    decreases k
  {
    if v >= 0x80 {
      assert k > 1 by {
        assert Pow(0x80, 0) == 1;
      }
      VarintLength(v / 0x80, k - 1);
    }
  }

  /** At most 5 bytes for any 32-bit value, and 10 for any 64-bit value. */
  lemma VarintAtMost(v: nat)
    ensures v < M32 ==> |Varint(v)| <= 5
    ensures v < M64 ==> |Varint(v)| <= 10
  {
    assert Pow(0x80, 5) == 0x8_0000_0000 by {
      assert Pow(0x80, 3) == 0x20_0000;
    }
    assert Pow(0x80, 10) >= M64 by {
      assert Pow(0x80, 7) == 0x80 * 0x80 * Pow(0x80, 5);
      assert Pow(0x80, 9) == 0x80 * 0x80 * Pow(0x80, 7);
    }
    if v < M32 {
      VarintLength(v, 5);
    }
    if v < M64 {
      VarintLength(v, 10);
    }
  }

  /** What the reading loop makes of the bytes that follow: a value and how many it took, or that it
      ran out of bytes after that many. */
  datatype VarResult = Value(value: nat, used: nat) | Short(used: nat)

  /** (n & 0x7f) << i, where w is 2^i. */
  function Group(n: byte, w: nat, m: nat): nat
    requires m > 0
  {
    n % 0x80 * w % m
  }

  /** readUint32 and readUint64 with k groups to go, the next one of weight w; m is the modulus of
      the result type.  The groups are added up here; that the loop, which joins them with |=,
      computes the same is GroupsDisjoint. */
  function VarRead(s: seq<byte>, k: nat, w: nat, m: nat): (r: VarResult)
    requires m > 0
    ensures r.used <= |s| && r.used <= k
    decreases k
  {
    if k == 0 then Value(0, 0)
    else if s == [] then Short(0)
    else if s[0] < 0x80 then Value(Group(s[0], w, m), 1)
    else
      match VarRead(s[1..], k - 1, w * 0x80, m)
      case Short(u) => Short(u + 1)
      case Value(v, u) => Value(Group(s[0], w, m) + v, u + 1)
  }

  /** A group of seven bits occupies other bits than the groups in front of it, also where its top
      bits are shifted out of the word. */
  lemma GroupsDisjoint(result: nat, g: byte, w: nat, i: nat, m: nat, n: nat)
    requires m > 0 && m == Pow(2, n) && w == Pow(2, 7 * i) && 7 * i < n && result < w
    ensures Or(result, Group(g, w, m), n) == result + Group(g, w, m)
    ensures result + Group(g, w, m) < w * 0x80 == Pow(2, 7 * (i + 1)) && result + Group(g, w, m) < m
  {
    var v := Pow(2, n - 7 * i);
    PowersOf2();
    PowPlus(2, 7 * i, n - 7 * i);
    PowPlus(2, 7 * i, 7);
    PowPositive(2, 7 * i);
    PowPositive(2, n - 7 * i);
    ModProduct(g % 0x80, w, v, Group(g, w, m), m);
    OrGroup(result, g % 0x80 % v, w, v, 7 * i, n);
  }

  lemma OrGroup(x: nat, r: nat, w: nat, v: nat, k: nat, n: nat)
    requires k <= n && w == Pow(2, k) && w * v == Pow(2, n) && x < w && r < v && r < 0x80
    ensures Or(x, r * w, n) == x + r * w && x + r * w < w * 0x80 && x + r * w < w * v
  {
    Room(x, r, w, v);
    OrIsAdd(x, r, k, n);
  }

  lemma ModProduct(g: nat, w: nat, v: nat, group: nat, m: nat)
    requires w > 0 && v > 0 && m == w * v && m > 0 && group == g * w % m
    ensures group == g % v * w && g % v < v && g % v <= g
  {
    var q, r := g / v, g % v;
    DivMod(g, v, q, r);
    Distribute(q, r, w, v);
    ModUnique(g * w, m, q, r * w);
  }

  lemma DivMod(g: nat, v: nat, q: nat, r: nat)
    requires v > 0 && q == g / v && r == g % v
    ensures g == q * v + r && r < v && r <= g
  {
    MulLe(0, q, v);
  }

  lemma Distribute(q: nat, r: nat, w: nat, v: nat)
    requires r < v && w > 0
    ensures (q * v + r) * w == q * (w * v) + r * w && 0 <= r * w < w * v
  {
    assert (q * v + r) * w == q * v * w + r * w;
    assert q * v * w == q * (w * v);
    MulLe(0, r, w);
    MulLe(r + 1, v, w);
    MulLe(r, r, w);
  }

  lemma ModUnique(x: nat, d: nat, q: nat, r: nat)
    requires d > 0 && x == q * d + r && r < d
    ensures x % d == r
  {
    var k := x / d;
    assert x == k * d + x % d;
    if k < q {
      MulLe(k + 1, q, d);
      assert false;
    } else if k > q {
      MulLe(q + 1, k, d);
      assert false;
    }
  }

  lemma MulLe(a: nat, b: nat, c: nat)
    requires a <= b
    ensures a * c <= b * c && (a + 1) * c == a * c + c
  {
  }

  lemma Room(x: nat, r: nat, w: nat, v: nat)
    requires x < w && r < 0x80 && r < v
    ensures x + r * w < w * 0x80 && x + r * w < w * v
  {
    MulLe(r, r, w);
    MulLe(r + 1, 0x80, w);
    MulLe(r + 1, v, w);
  }

  /** Reading undoes writing, whatever follows. */
  lemma {:induction false} VarRoundTrip(v: nat, t: seq<byte>, k: nat, w: nat, m: nat)
    requires |Varint(v)| <= k && v * w < m && w > 0
    ensures VarRead(Varint(v) + t, k, w, m) == Value(v * w, |Varint(v)|)
    decreases k
  {
    var s := Varint(v) + t;
    if v < 0x80 {
      VarReadLast(s, k, w, m, v);
    } else {
      var low, high := v % 0x80, v / 0x80;
      Groups(v, w, low, high);
      assert s[0] == low + 0x80 && s[1..] == Varint(high) + t;
      VarRoundTrip(high, t, k - 1, w * 0x80, m);
      VarReadStep(s, k, w, m, low, high * (w * 0x80), |Varint(high)|);
    }
  }

  lemma VarReadLast(s: seq<byte>, k: nat, w: nat, m: nat, v: nat)
    requires k > 0 && s != [] && s[0] == v < 0x80 && v * w < m
    ensures VarRead(s, k, w, m) == Value(v * w, 1)
  {
    SmallMod(v * w, m);
  }

  lemma SmallMod(x: int, m: nat)
    requires 0 <= x < m
    ensures x % m == x
  {
  }

  lemma VarReadStep(s: seq<byte>, k: nat, w: nat, m: nat, low: nat, rest: nat, used: nat)
    requires k > 0 && s != [] && s[0] >= 0x80 && low == s[0] % 0x80 && low * w < m
    requires VarRead(s[1..], k - 1, w * 0x80, m) == Value(rest, used)
    ensures VarRead(s, k, w, m) == Value(low * w + rest, used + 1)
  {
    SmallMod(low * w, m);
  }

  lemma Groups(v: nat, w: nat, low: nat, high: nat)
    requires low == v % 0x80 && high == v / 0x80
    ensures low * w + high * (w * 0x80) == v * w
    ensures low * w <= v * w && high * (w * 0x80) <= v * w
  {
    assert v == high * 0x80 + low;
    assert v * w == (high * 0x80 + low) * w == high * (w * 0x80) + low * w;
    assert 0 <= low * w && 0 <= high * (w * 0x80);
  }

  // ------------------------------------------------------------------ fixed width

  function Little(v: nat, n: nat): (r: seq<byte>)
    ensures |r| == n
    decreases n
  {
    if n == 0 then [] else [v % 256] + Little(v / 256, n - 1)
  }

  function FromLittle(s: seq<byte>): nat {
    if s == [] then 0 else s[0] + 256 * FromLittle(s[1..])
  }

  function Reverse(s: seq<byte>): (r: seq<byte>)
    ensures |r| == |s|
    ensures forall i :: 0 <= i < |s| ==> r[i] == s[|s| - 1 - i]
  {
    if s == [] then [] else Reverse(s[1..]) + [s[0]]
  }

  lemma ReverseTwice(s: seq<byte>)
    ensures Reverse(Reverse(s)) == s
  {
  }

  lemma {:induction false} LittleRoundTrip(v: nat, n: nat)
    requires v < Pow(256, n)
    ensures FromLittle(Little(v, n)) == v
    decreases n
  {
    if n > 0 {
      LittleRoundTrip(v / 256, n - 1);
      assert Little(v, n)[1..] == Little(v / 256, n - 1);
    }
  }

  lemma LittleOf(d: nat, q: nat, n: nat, p: nat)
    requires d < 256 && q < p
    ensures Little(d + 256 * q, n + 1) == [d] + Little(q, n) && d + 256 * q < 256 * p
  {
    assert (d + 256 * q) % 256 == d && (d + 256 * q) / 256 == q;
  }

  lemma {:induction false} FromLittleRoundTrip(s: seq<byte>)
    ensures FromLittle(s) < Pow(256, |s|) && Little(FromLittle(s), |s|) == s
  {
    if s != [] {
      FromLittleRoundTrip(s[1..]);
      LittleOf(s[0], FromLittle(s[1..]), |s| - 1, Pow(256, |s| - 1));
      assert [s[0]] + s[1..] == s;
    }
  }

  datatype Endian = LittleEndian | BigEndian

  /** The bytes of an n-byte value in memory. */
  function Memory(v: nat, n: nat, order: Endian): (r: seq<byte>)
    ensures |r| == n
  {
    if order.LittleEndian? then Little(v, n) else Reverse(Little(v, n))
  }

  function FromMemory(s: seq<byte>, order: Endian): nat {
    if order.LittleEndian? then FromLittle(s) else FromLittle(Reverse(s))
  }

  lemma DivDiv(v: nat, a: nat, b: nat)
    requires a > 0 && b > 0
    ensures a * b > 0 && v / a / b == v / (a * b)
  {
    var q, r := v / a, v % a;
    var k, j := q / b, q % b;
    DivMod(v, a, q, r);
    DivMod(q, b, k, j);
    MulLe(1, a, b);
    NestedSum(v, a, b, q, r, k, j);
    QuotientUnique(v, a * b, k, j * a + r);
  }

  lemma NestedSum(v: nat, a: nat, b: nat, q: nat, r: nat, k: nat, j: nat)
    requires v == q * a + r && r < a && q == k * b + j && j < b
    ensures v == k * (a * b) + (j * a + r) && 0 <= j * a + r < a * b
  {
    assert (k * b + j) * a == k * (a * b) + j * a by {
      assert (k * b + j) * a == k * b * a + j * a;
      assert k * b * a == k * (a * b);
    }
    MulLe(0, j, a);
    MulLe(j + 1, b, a);
    MulLe(j, j, a);
  }

  lemma QuotientUnique(x: nat, d: nat, q: nat, r: nat)
    requires d > 0 && x == q * d + r && r < d
    ensures x / d == q
  {
    ModUnique(x, d, q, r);
    var k := x / d;
    assert x == k * d + x % d;
    assert (k - q) * d == 0;
  }

  lemma {:induction false} LittleAt(v: nat, n: nat, i: nat)
    requires i < n
    ensures Pow(256, i) > 0 && Little(v, n)[i] == v / Pow(256, i) % 256
    decreases n
  {
    PowPositive(256, i);
    if i > 0 {
      LittleAt(v / 256, n - 1, i - 1);
      PowPositive(256, i - 1);
      DivDiv(v, 256, Pow(256, i - 1));
      assert Little(v, n)[i] == Little(v / 256, n - 1)[i - 1];
    }
  }

  /** The byte of weight 256^k of a number. */
  function Digit(v: nat, k: nat): nat {
    PowPositive(256, k);
    v / Pow(256, k) % 256
  }

  /** The bytes of a value in memory, by position: the most significant one comes first in the big-endian
      order and last in the other. */
  lemma MemoryAt(v: nat, n: nat, order: Endian, i: nat)
    requires i < n
    ensures Memory(v, n, order)[i] == Digit(v, if order == BigEndian then n - 1 - i else i)
  {
    LittleAt(v, n, if order == BigEndian then n - 1 - i else i);
  }

  /** The bytes of a varint, by position: seven bits a byte, lowest first, and the top bit on all but the
      last byte. */
  lemma {:induction false} VarintAt(v: nat, i: nat)
    requires i < |Varint(v)|
    ensures Pow(0x80, i) > 0
    ensures Varint(v)[i] == v / Pow(0x80, i) % 0x80 + if i + 1 < |Varint(v)| then 0x80 else 0
    decreases i
  {
    PowPositive(0x80, i);
    if i > 0 {
      VarintAt(v / 0x80, i - 1);
      PowPositive(0x80, i - 1);
      DivDiv(v, 0x80, Pow(0x80, i - 1));
      assert Varint(v)[i] == Varint(v / 0x80)[i - 1];
    }
  }

  /** byteswap */
  function Swap(v: nat, n: nat): nat {
    FromLittle(Reverse(Little(v, n)))
  }

  /** WRITE_FIXED on a machine whose own order is `host`: the bytes that are written. */
  function WriteFixed(v: nat, n: nat, order: Endian, host: Endian): seq<byte> {
    Memory(if order != host then Swap(v, n) else v, n, host)
  }

  /** READ_FIXED */
  function ReadFixed(s: seq<byte>, order: Endian, host: Endian): nat {
    var v := FromMemory(s, host);
    if order != host then Swap(v, |s|) else v
  }

  lemma SwapMemory(v: nat, n: nat)
    requires v < Pow(256, n)
    ensures Swap(v, n) < Pow(256, n) && Little(Swap(v, n), n) == Reverse(Little(v, n))
    ensures Swap(Swap(v, n), n) == v
  {
    var r := Reverse(Little(v, n));
    FromLittleRoundTrip(r);
    ReverseTwice(Little(v, n));
    LittleRoundTrip(v, n);
  }

  /** What is on the wire depends on the order that was chosen and not on the machine. */
  lemma WireOrder(v: nat, n: nat, order: Endian, host: Endian)
    requires v < Pow(256, n)
    ensures WriteFixed(v, n, order, host) == Memory(v, n, order)
  {
    SwapMemory(v, n);
    ReverseTwice(Little(v, n));
  }

  /** What is read depends on the bytes and the order that was chosen and not on the machine. */
  lemma ReadOrder(s: seq<byte>, order: Endian, host: Endian)
    ensures ReadFixed(s, order, host) == FromMemory(s, order)
  {
    FromLittleRoundTrip(s);
    FromLittleRoundTrip(Reverse(s));
    ReverseTwice(s);
  }

  /** A fixed-width value reads back, also on a machine of the other order. */
  lemma FixedRoundTrip(v: nat, n: nat, order: Endian, host1: Endian, host2: Endian)
    requires v < Pow(256, n)
    ensures ReadFixed(WriteFixed(v, n, order, host1), order, host2) == v
    ensures |WriteFixed(v, n, order, host1)| == n
  {
    WireOrder(v, n, order, host1);
    SwapMemory(v, n);
    LittleRoundTrip(v, n);
    ReverseTwice(Little(v, n));
    LittleRoundTrip(Swap(v, n), n);
  }
}
