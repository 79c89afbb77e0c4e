/** The typed interface of src/Bytearray.cc: integers and strings written to a block chain and read
    back from it. */
module TypedStream {
  import opened Codec
  import opened ByteArrays

  /** How a string carries its length. */
  datatype Prefix = F16 | F32 | F64 | Vint

  /** The kinds of value, and the values. */
  datatype Shape =
    | UFix(n: nat)          // uint8_t .. uint64_t
    | SFix(n: nat)          // int8_t .. int64_t
    | UVar(m: nat)          // readUint32, readUint64; m is the modulus of the type
    | SVar(m: nat)          // readInt32, readInt64
    | Str(prefix: Prefix)

  datatype Item = Num(shape: Shape, v: int) | Text(prefix: Prefix, s: seq<byte>)
  {
    function Kind(): Shape {
      match this { case Num(s, _) => s case Text(p, _) => Str(p) }
    }
  }

  function PrefixWidth(p: Prefix): nat {
    match p { case F16 => 2 case F32 => 4 case F64 => 8 case Vint => 8 }
  }

  /** The values of each C type. */
  predicate ItemOk(i: Item) {
    match i
    case Num(UFix(n), v) => n in {1, 2, 4, 8} && 0 <= v < Pow(256, n)
    case Num(SFix(n), v) => n in {1, 2, 4, 8} && InSigned(v, Pow(256, n))
    case Num(UVar(m), v) => m in {M32, M64} && 0 <= v < m
    case Num(SVar(m), v) => m in {M32, M64} && InSigned(v, m)
    case Num(Str(_), _) => false
    case Text(p, s) => |s| < Pow(256, PrefixWidth(p))
  }

  /** The length field in front of a string; a length that does not fit loses its high bits. */
  function LengthField(p: Prefix, n: nat, order: Endian): seq<byte> {
    if p == Vint then Varint(n % M64)
    else PowPositive(256, PrefixWidth(p)); Memory(n % Pow(256, PrefixWidth(p)), PrefixWidth(p), order)
  }

  /** The bytes of a value. */
  function Encode(i: Item, order: Endian): seq<byte>
    requires ItemOk(i)
  {
    match i
    case Num(UFix(n), v) => Memory(v, n, order)
    case Num(SFix(n), v) => Memory(Unsigned(v, Pow(256, n)), n, order)
    case Num(UVar(m), v) => Varint(v)
    case Num(SVar(m), v) => ZigzagBijection(v, 0, m); Varint(EncodeZigzag(v, m))
    case Text(p, s) => LengthField(p, |s|, order) + s
  }

  predicate AllOk(items: seq<Item>) {
    forall i :: 0 <= i < |items| ==> ItemOk(items[i])
  }

  function Join(parts: seq<seq<byte>>): seq<byte> {
    if parts == [] then [] else Join(parts[..|parts| - 1]) + parts[|parts| - 1]
  }

  function Parts(items: seq<Item>, order: Endian): (r: seq<seq<byte>>)
    requires AllOk(items)
    ensures |r| == |items| && forall i :: 0 <= i < |items| ==> r[i] == Encode(items[i], order)
  {
    seq(|items|, i requires 0 <= i < |items| => Encode(items[i], order))
  }

  /** The bytes of a list of values. */
  function EncodeAll(items: seq<Item>, order: Endian): seq<byte>
    requires AllOk(items)
  {
    Join(Parts(items, order))
  }

  lemma EncodeNotEmpty(i: Item, order: Endian)
    requires ItemOk(i)
    ensures |Encode(i, order)| >= 1
    ensures i.Text? ==> |Encode(i, order)| >= 1 + |i.s|
  {
  }

  // ------------------------------------------------------------------ what reading makes of any bytes

  predicate ShapeOk(shape: Shape) {
    match shape
    case UFix(n) => n in {1, 2, 4, 8}
    case SFix(n) => n in {1, 2, 4, 8}
    case UVar(m) => m in {M32, M64}
    case SVar(m) => m in {M32, M64}
    case Str(_) => true
  }

  /** At most this many groups of seven bits are read. */
  function MaxGroups(m: nat): nat { if m == M32 then 5 else 10 }

  function FixRead(s: seq<byte>, n: nat, order: Endian): (r: VarResult)
    ensures r.used <= |s|
  {
    if n <= |s| then Value(FromMemory(s[..n], order), n) else Short(0)
  }

  /** The number that is read first: the bits of the value, or the length of the string. */
  function NumberRead(shape: Shape, s: seq<byte>, order: Endian): (r: VarResult)
    requires ShapeOk(shape)
    ensures r.used <= |s|
  {
    match shape
    case UFix(n) => FixRead(s, n, order)
    case SFix(n) => FixRead(s, n, order)
    case UVar(m) => VarRead(s, MaxGroups(m), 1, m)
    case SVar(m) => VarRead(s, MaxGroups(m), 1, m)
    case Str(p) => if p == Vint then VarRead(s, MaxGroups(M64), 1, M64) else FixRead(s, PrefixWidth(p), order)
  }

  /** How many bytes are asked for first. */
  function First(shape: Shape): nat {
    match shape
    case UFix(n) => n
    case SFix(n) => n
    case UVar(_) => 1
    case SVar(_) => 1
    case Str(p) => if p == Vint then 1 else PrefixWidth(p)
  }

  /** The number as a value of its type. */
  function Reinterpret(shape: Shape, v: nat): int {
    match shape
    case SFix(n) => Signed(v, Pow(256, n))
    case SVar(m) => DecodeZigzag(v, m)
    case _ => v
  }

  /** A value and how many bytes it took, or that the bytes ran out after that many. */
  datatype Decoded = Got(item: Item, used: nat) | Out(used: nat)

  function Decode(shape: Shape, s: seq<byte>, order: Endian): (d: Decoded)
    requires ShapeOk(shape)
    ensures d.used <= |s|
  {
    match NumberRead(shape, s, order)
    case Short(u) => Out(u)
    case Value(v, u) =>
      if !shape.Str? then Got(Num(shape, Reinterpret(shape, v)), u)
      else TextRead(shape.prefix, s, u, v)
  }

  /** The n bytes of a string, behind its length field. */
  function TextRead(p: Prefix, s: seq<byte>, u: nat, n: nat): (d: Decoded)
    requires u <= |s|
    ensures d.used <= |s|
  {
    if n <= |s| - u then Got(Text(p, s[u..u + n]), u + n) else Out(u)
  }

  /** Decoding undoes encoding, whatever follows. */
  lemma DecodeUndoesEncode(i: Item, t: seq<byte>, order: Endian)
    requires ItemOk(i)
    ensures ShapeOk(i.Kind()) && Decode(i.Kind(), Encode(i, order) + t, order) == Got(i, |Encode(i, order)|)
  {
    match i
    case Num(shape, v) => NumBack(shape, v, t, order, Raw(shape, v));
    case Text(p, s) => TextBack(p, s, t, order, LengthField(p, |s|, order));
  }

  /** The bits of a value, as a number. */
  function Raw(shape: Shape, v: int): (raw: nat)
    requires ItemOk(Num(shape, v))
    ensures shape.UFix? || shape.SFix? ==> raw < Pow(256, shape.n)
    ensures shape.UVar? || shape.SVar? ==> raw < shape.m
  {
    match shape
    case SFix(n) => PowersOf256(); Unsigned(v, Pow(256, n))
    case SVar(m) => ZigzagBijection(v, 0, m); EncodeZigzag(v, m)
    case _ => v
  }

  lemma NumBack(shape: Shape, v: int, t: seq<byte>, order: Endian, raw: nat)
    requires ItemOk(Num(shape, v)) && raw == Raw(shape, v)
    ensures var e := Encode(Num(shape, v), order);
      Decode(shape, e + t, order) == Got(Num(shape, v), |e|)
  {
    match shape
    case UFix(n) => FixBack(raw, n, t, order);
    case SFix(n) =>
      FixBack(raw, n, t, order);
      SignedBack(v, n);
    case UVar(m) => VarBack(raw, t, m);
    case SVar(m) =>
      VarBack(raw, t, m);
      ZigzagBijection(v, 0, m);
    case Str(_) =>
  }

  lemma SignedBack(v: int, n: nat)
    requires n in {1, 2, 4, 8} && InSigned(v, Pow(256, n))
    ensures Signed(Unsigned(v, Pow(256, n)), Pow(256, n)) == v
  {
    PowersOf256();
  }

  lemma FixBack(v: nat, n: nat, t: seq<byte>, order: Endian)
    requires v < Pow(256, n)
    ensures FixRead(Memory(v, n, order) + t, n, order) == Value(v, n)
  {
    assert (Memory(v, n, order) + t)[..n] == Memory(v, n, order);
    FixedRoundTrip(v, n, order, order, order);
  }

  lemma VarBack(v: nat, t: seq<byte>, m: nat)
    requires m in {M32, M64} && v < m
    ensures VarRead(Varint(v) + t, MaxGroups(m), 1, m) == Value(v, |Varint(v)|)
  {
    VarintAtMost(v);
    VarRoundTrip(v, t, MaxGroups(m), 1, m);
  }

  lemma TextBack(p: Prefix, s: seq<byte>, t: seq<byte>, order: Endian, f: seq<byte>)
    requires |s| < Pow(256, PrefixWidth(p)) && f == LengthField(p, |s|, order)
    ensures Decode(Str(p), f + s + t, order) == Got(Text(p, s), |f| + |s|)
  {
    LengthBack(p, |s|, s + t, order);
    assert f + s + t == f + (s + t);
    assert (f + s + t)[|f|..|f| + |s|] == s;
  }

  lemma LengthBack(p: Prefix, n: nat, t: seq<byte>, order: Endian)
    requires n < Pow(256, PrefixWidth(p))
    ensures NumberRead(Str(p), LengthField(p, n, order) + t, order) == Value(n, |LengthField(p, n, order)|)
  {
    LengthFits(p, n, order);
    if p == Vint {
      VarBack(n, t, M64);
    } else {
      FixBack(n, PrefixWidth(p), t, order);
    }
  }

  lemma LengthFits(p: Prefix, n: nat, order: Endian)
    requires n < Pow(256, PrefixWidth(p))
    ensures LengthField(p, n, order) == if p == Vint then Varint(n) else Memory(n, PrefixWidth(p), order)
    ensures p == Vint ==> n < M64
  {
    PowersOf256();
    SmallMod(n, Pow(256, PrefixWidth(p)));
  }

  lemma PowersOf256()
    ensures Pow(256, 1) == 256 && Pow(256, 2) == 0x1_0000 && Pow(256, 4) == M32 && Pow(256, 8) == M64
  {
    assert Pow(256, 1) == 256 * Pow(256, 0);
    assert Pow(256, 3) == 256 * Pow(256, 2);
    assert Pow(256, 5) == 256 * Pow(256, 4);
    assert Pow(256, 7) == 256 * 256 * Pow(256, 5);
  }

  // ------------------------------------------------------------------ the format, byte by byte

  /** The n bytes of a number in front of others, the most significant one first or last. */
  predicate HoldsNumber(e: seq<byte>, v: nat, n: nat, order: Endian) {
    && n <= |e|
    && forall i :: 0 <= i < n ==> e[i] == Digit(v, if order == BigEndian then n - 1 - i else i)
  }

  lemma MemoryHolds(v: nat, n: nat, order: Endian, s: seq<byte>)
    ensures HoldsNumber(Memory(v, n, order) + s, v, n, order)
  {
    var e := Memory(v, n, order) + s;
    forall i | 0 <= i < n ensures e[i] == Digit(v, if order == BigEndian then n - 1 - i else i) {
      MemoryAt(v, n, order, i);
    }
  }

  /** Strings are written behind a length of two, four or eight bytes, in the order of the array; every
      string that is shorter than 2^16, 2^32 or 2^64 bytes can be written and is read back. */
  lemma FixedLengthText(p: Prefix, n: nat, s: seq<byte>, order: Endian, t: seq<byte>)
    requires (p == F16 && n == 2 && |s| < 0x1_0000) || (p == F32 && n == 4 && |s| < 0x1_0000_0000)
             || (p == F64 && n == 8 && |s| < 0x1_0000_0000_0000_0000)
    ensures ItemOk(Text(p, s))
    ensures var e := Encode(Text(p, s), order);
      && |e| == n + |s| && HoldsNumber(e, |s|, n, order) && e[n..] == s
      && Decode(Str(p), e + t, order) == Got(Text(p, s), n + |s|)
  {
    PowersOf256();
    var f := LengthField(p, |s|, order);
    LengthFits(p, |s|, order);
    MemoryHolds(|s|, n, order, s);
    TextBack(p, s, t, order, f);
  }

  /** The variable length: groups of seven bits in front of the string. */
  lemma VarLengthText(s: seq<byte>, order: Endian, t: seq<byte>)
    requires |s| < 0x1_0000_0000_0000_0000
    ensures ItemOk(Text(Vint, s))
    ensures var e := Encode(Text(Vint, s), order);
      && e == Varint(|s|) + s && |e| <= 10 + |s|
      && Decode(Str(Vint), e + t, order) == Got(Text(Vint, s), |e|)
  {
    PowersOf256();
    LengthFits(Vint, |s|, order);
    VarintAtMost(|s|);
    TextBack(Vint, s, t, order, LengthField(Vint, |s|, order));
  }

  /** Fixed-width numbers of one, two, four or eight bytes take just these; a negative one is written in
      two's complement. */
  lemma FixedNumber(shape: Shape, n: nat, v: int, order: Endian)
    requires n in {1, 2, 4, 8}
    requires (shape == UFix(n) && 0 <= v < Pow(256, n)) || (shape == SFix(n) && -(Pow(256, n) / 2) <= v < Pow(256, n) / 2)
    ensures ItemOk(Num(shape, v))
    ensures var e := Encode(Num(shape, v), order);
      && |e| == n && HoldsNumber(e, if v < 0 then Pow(256, n) + v else v, n, order)
  {
    PowersOf256();
    var e := Encode(Num(shape, v), order);
    MemoryHolds(if v < 0 then Pow(256, n) + v else v, n, order, []);
    assert e + [] == e;
  }

  /** What is written of a variable-length number: the numbers of a signed type alternate, so that small
      ones of either sign take few bytes. */
  predicate Writes(shape: Shape, v: int, u: nat) {
    || (shape == UVar(0x1_0000_0000) && v == u < 0x1_0000_0000)
    || (shape == UVar(0x1_0000_0000_0000_0000) && v == u < 0x1_0000_0000_0000_0000)
    || (shape == SVar(0x1_0000_0000) && -0x8000_0000 <= v < 0x8000_0000 && u == if v < 0 then -2 * v - 1 else 2 * v)
    || (shape == SVar(0x1_0000_0000_0000_0000) && -0x8000_0000_0000_0000 <= v < 0x8000_0000_0000_0000
        && u == if v < 0 then -2 * v - 1 else 2 * v)
  }

  /** Variable-length numbers: seven bits a byte, lowest first, and the top bit on all but the last. */
  lemma VarNumber(shape: Shape, v: int, u: nat, order: Endian)
    requires Writes(shape, v, u)
    ensures ItemOk(Num(shape, v))
    ensures var e := Encode(Num(shape, v), order);
      && (u < 0x1_0000_0000 ==> |e| <= 5) && |e| <= 10
      && forall i :: 0 <= i < |e| ==>
           Pow(0x80, i) > 0 && e[i] == u / Pow(0x80, i) % 0x80 + if i + 1 < |e| then 0x80 else 0
  {
    if shape.SVar? {
      ZigzagMagnitude(v, shape.m);
    }
    VarintAtMost(u);
    forall i | 0 <= i < |Varint(u)|
      ensures Pow(0x80, i) > 0
      ensures Varint(u)[i] == u / Pow(0x80, i) % 0x80 + if i + 1 < |Varint(u)| then 0x80 else 0
    {
      VarintAt(u, i);
    }
  }

  // ------------------------------------------------------------------ writing

  /** What every typed write does: bytes appear at the write position; nothing else changes. */
  twostate predicate Wrote(ba: ByteArray, bytes: seq<byte>)
    requires old(ba.Valid())
    reads ba, ba.Links, ba.Store
  {
    && ba.Valid() && fresh(ba.Links - old(ba.Links)) && fresh(ba.Store - old(ba.Store))
    && Splice(old(ba.cells), old(ba.wpos), bytes) <= ba.cells
    && ba.wpos == old(ba.wpos) + |bytes| && ba.size == (if old(ba.size) < ba.wpos then ba.wpos else old(ba.size))
    && ba.rpos == old(ba.rpos) && ba.anchor == old(ba.anchor) && ba.endian == old(ba.endian)
    && (ba.capacity == old(ba.capacity) || ba.capacity < ba.wpos + ba.base)
  }

  method Put(ba: ByteArray, bytes: seq<byte>)
    requires ba.Valid()
    modifies ba, ba.Links, ba.Store
    ensures Wrote(ba, bytes)
  {
    MissingEnough(|bytes|, ba.capacity - ba.wpos, ba.base);
    assert Start(0, ba.base) == 0;
    ba.Write(bytes);
  }

  /** writeFint8 .. writeFuint64: the bits of the value, in the order of the array on a machine of
      any order. */
  method WriteFix(ba: ByteArray, v: nat, n: nat, host: Endian)
    requires ba.Valid() && v < Pow(256, n)
    modifies ba, ba.Links, ba.Store
    ensures Wrote(ba, Memory(v, n, old(ba.endian)))
  {
    WireOrder(v, n, ba.endian, host);
    Put(ba, WriteFixed(v, n, ba.endian, host));
  }

  /** The loop of writeUint32 and writeUint64, which collects the groups in a small buffer. */
  method VarBytes(value: nat) returns (bytes: seq<byte>)
    requires value < M64
    ensures bytes == Varint(value)
  {
    var tmp := new byte[10];
    VarintAtMost(value);
    var i := 0;
    var v := value;
    while v >= 0x80
      invariant i + |Varint(v)| == |Varint(value)| <= 10
      invariant Varint(value) == tmp[..i] + Varint(v)
      decreases v
    {
      ghost var before := tmp[..i];
      tmp[i] := v % 0x80 + 0x80;
      assert tmp[..i + 1] == before + [v % 0x80 + 0x80];
      assert before + ([v % 0x80 + 0x80] + Varint(v / 0x80)) == before + [v % 0x80 + 0x80] + Varint(v / 0x80);
      i := i + 1;
      v := v / 0x80;
    }
    ghost var before := tmp[..i];
    tmp[i] := v;
    assert tmp[..i + 1] == before + [v];
    return tmp[..i + 1];
  }

  /** writeUint32 and writeUint64 */
  method WriteVar(ba: ByteArray, value: nat)
    requires ba.Valid() && value < M64
    modifies ba, ba.Links, ba.Store
    ensures Wrote(ba, Varint(value))
  {
    var bytes := VarBytes(value);
    Put(ba, bytes);
  }

  /** writeStringF16, F32, F64 and Vint: the length, then the bytes. */
  method WriteString(ba: ByteArray, p: Prefix, s: seq<byte>, host: Endian)
    requires ba.Valid()
    modifies ba, ba.Links, ba.Store
    ensures Wrote(ba, LengthField(p, |s|, old(ba.endian)) + s)
  {
    ghost var c0, w, field := ba.cells, ba.wpos, LengthField(p, |s|, ba.endian);
    WriteLength(ba, p, |s|, host);
    ghost var c1 := ba.cells;
    Put(ba, s);
    WriteTwice(c0, c1, ba.cells, w, field, s);
  }

  method WriteLength(ba: ByteArray, p: Prefix, n: nat, host: Endian)
    requires ba.Valid()
    modifies ba, ba.Links, ba.Store
    ensures Wrote(ba, LengthField(p, n, old(ba.endian)))
  {
    PowPositive(256, PrefixWidth(p));
    if p == Vint {
      WriteVar(ba, n % M64);
    } else {
      WriteFix(ba, n % Pow(256, PrefixWidth(p)), PrefixWidth(p), host);
    }
  }

  method WriteItem(ba: ByteArray, i: Item, host: Endian)
    requires ba.Valid() && ItemOk(i)
    modifies ba, ba.Links, ba.Store
    ensures Wrote(ba, Encode(i, old(ba.endian)))
  {
    PowersOf256();
    match i
    case Num(UFix(n), v) => WriteFix(ba, v, n, host);
    case Num(SFix(n), v) => WriteFix(ba, Unsigned(v, Pow(256, n)), n, host);
    case Num(UVar(m), v) => WriteVar(ba, v);
    case Num(SVar(m), v) =>
      ZigzagBijection(v, 0, m);
      WriteVar(ba, EncodeZigzag(v, m));
    case Text(p, s) => WriteString(ba, p, s, host);
  }

  // ------------------------------------------------------------------ reading

  /** A reader that has never met a node and stands where the chain ended when it was built: the first
      read of a byte that is there dereferences a null pointer. */
  ghost predicate Lost(ba: ByteArray, n: nat)
    reads ba
  {
    ba.rpos == ba.anchor && ba.rpos + n <= ba.size
  }

  /** READ_FIXED */
  method ReadFix(ba: ByteArray, n: nat, host: Endian) returns (v: nat, st: Status)
    requires ba.Valid() && n > 0
    modifies ba`readNode, ba`rpos, ba`anchor
    ensures ba.Valid()
    ensures old(Lost(ba, n)) ==> st == NullNode && unchanged(ba)
    ensures !old(Lost(ba, n)) ==> Fetched(ba, old(ba.rpos), FixRead(ba.cells[old(ba.rpos)..ba.size], n, ba.endian), v, st)
  {
    ghost var rest := ba.cells[ba.rpos..ba.size];
    var buf := new byte[n];
    st := ba.Read(buf, n);
    v := 0;
    if st == Done {
      TakeOf(ba.cells, ba.rpos - n, ba.size, n);
      assert buf[..] == buf[..n] == rest[..n];
      ReadOrder(buf[..], ba.endian, host);
      v := ReadFixed(buf[..], ba.endian, host);
    }
  }

  lemma TakeOf(cells: seq<byte>, start: nat, size: nat, n: nat)
    requires start + n <= size <= |cells|
    ensures cells[start..size][..n] == cells[start..start + n]
  {
    var a, b := cells[start..size][..n], cells[start..start + n];
    assert forall k :: 0 <= k < n ==> a[k] == cells[start..size][k] == b[k];
  }

  /** What reading a number does. */
  ghost predicate Fetched(ba: ByteArray, start: nat, r: VarResult, v: nat, st: Status)
    reads ba
  {
    && st == (if r.Value? then Done else OutOfRange) && ba.rpos == start + r.used
    && (st == Done ==> v == r.value && ba.anchor == ba.capacity)
  }

  /** The whole reading is what has been read so far, from i bytes, and the reading of the rest. */
  function Joined(result: nat, i: nat, rest: VarResult): VarResult {
    match rest case Value(v, u) => Value(result + v, i + u) case Short(u) => Short(i + u)
  }

  /** readUint32 and readUint64 */
  method ReadVar(ba: ByteArray, m: nat) returns (result: nat, st: Status)
    requires ba.Valid() && m in {M32, M64}
    modifies ba`readNode, ba`rpos, ba`anchor
    ensures ba.Valid()
    ensures old(Lost(ba, 1)) ==> st == NullNode && ba.rpos == old(ba.rpos)
    ensures !old(Lost(ba, 1)) ==> Fetched(ba, old(ba.rpos), VarRead(ba.cells[old(ba.rpos)..ba.size], MaxGroups(m), 1, m), result, st)
  {
    WordBits(m);
    result, st := ReadGroups(ba, m, Bits(m), MaxGroups(m), VarRead(ba.cells[ba.rpos..ba.size], MaxGroups(m), 1, m));
  }

  /** The loop of both, over the bits of the word: k groups of seven bits, byte by byte. */
  method ReadGroups(ba: ByteArray, m: nat, bits: nat, ghost k: nat, ghost r: VarResult) returns (result: nat, st: Status)
    requires ba.Valid() && m > 0 && m == Pow(2, bits) && k > 0 && 7 * (k - 1) < bits <= 7 * k
    requires r == VarRead(ba.cells[ba.rpos..ba.size], k, 1, m)
    modifies ba`readNode, ba`rpos, ba`anchor
    ensures ba.Valid()
    ensures old(Lost(ba, 1)) ==> st == NullNode && ba.rpos == old(ba.rpos)
    ensures !old(Lost(ba, 1)) ==> Fetched(ba, old(ba.rpos), r, result, st)
  {
    ghost var lost, start := Lost(ba, 1), ba.rpos;
    ghost var rest := ba.cells[start..ba.size];
    result, st := 0, Done;
    var i: nat := 0;
    var w: nat := 1;
    while 7 * i < bits
      invariant i <= k && ba.Valid() && (i > 0 ==> !lost && ba.anchor == ba.capacity) && (lost <==> Lost(ba, 1))
      invariant ba.rpos == start + i && st == Done && rest == ba.cells[ba.rpos..ba.size]
      invariant result < w == Pow(2, 7 * i) && r == Joined(result, i, VarRead(rest, k - i, w, m))
      decreases k - i
    {
      var more;
      result, more, st := ReadGroup(ba, result, w, i, m, bits, k, r, start, rest, lost);
      if !more {
        return;
      }
      rest := rest[1..];
      w := w * 0x80;
      i := i + 1;
    }
  }

  /** One round of the loop. */
  method ReadGroup(ba: ByteArray, result: nat, w: nat, i: nat, m: nat, bits: nat,
                   ghost k: nat, ghost r: VarResult, ghost start: nat, ghost rest: seq<byte>, ghost lost: bool)
    returns (joined: nat, more: bool, st: Status)
    requires ba.Valid() && m > 0 && m == Pow(2, bits) && i < k && 7 * i < bits && result < w == Pow(2, 7 * i)
    requires (lost <==> Lost(ba, 1)) && ba.rpos == start + i && rest == ba.cells[ba.rpos..ba.size] && r == Joined(result, i, VarRead(rest, k - i, w, m))
    modifies ba`readNode, ba`rpos, ba`anchor
    ensures ba.Valid()
    ensures lost ==> !more && st == NullNode && ba.rpos == start + i
    ensures !lost && !more ==> Fetched(ba, start, r, joined, st)
    ensures more ==> st == Done && !Lost(ba, 1) && ba.rpos == start + (i + 1) && ba.anchor == ba.capacity
    ensures more ==>
              && rest != [] && rest[1..] == ba.cells[ba.rpos..ba.size] && joined < w * 0x80 == Pow(2, 7 * (i + 1))
              && r == Joined(joined, i + 1, VarRead(rest[1..], k - (i + 1), w * 0x80, m))
  {
    var n;
    n, st := ReadByte(ba);
    joined, more := result, false;
    VarStep(r, rest, k - i, w, m, result, i);
    if st == Done {
      more := n >= 0x80;
      GroupsDisjoint(result, n, w, i, m, bits);
      joined := Or(result, Group(n, w, m), bits);
      assert rest[0] == n && rest[1..] == ba.cells[ba.rpos..ba.size];
    }
  }

  lemma VarStep(r: VarResult, rest: seq<byte>, k: nat, w: nat, m: nat, result: nat, i: nat)
    requires k > 0 && m > 0 && r == Joined(result, i, VarRead(rest, k, w, m))
    ensures rest == [] ==> r == Short(i)
    ensures rest != [] && rest[0] < 0x80 ==> r == Value(result + Group(rest[0], w, m), i + 1)
    ensures rest != [] && rest[0] >= 0x80 ==>
      r == Joined(result + Group(rest[0], w, m), i + 1, VarRead(rest[1..], k - 1, w * 0x80, m))
  {
  }

  /** readFuint8 */
  method ReadByte(ba: ByteArray) returns (n: byte, st: Status)
    requires ba.Valid()
    modifies ba`readNode, ba`rpos, ba`anchor
    ensures ba.Valid()
    ensures st == if ba.size == old(ba.rpos) then OutOfRange else if old(ba.rpos == ba.anchor) then NullNode else Done
    ensures st == Done ==> ba.rpos == old(ba.rpos) + 1 && ba.anchor == ba.capacity && n == ba.cells[old(ba.rpos)]
    ensures st != Done ==> unchanged(ba)
  {
    var buf := new byte[1];
    st := ba.Read(buf, 1);
    n := buf[0];
    assert st == Done ==> buf[..1][0] == n;
  }

  /** The number in front of a value. */
  method ReadNumber(ba: ByteArray, shape: Shape, host: Endian) returns (v: nat, st: Status)
    requires ba.Valid() && ShapeOk(shape)
    modifies ba`readNode, ba`rpos, ba`anchor
    ensures ba.Valid()
    ensures old(Lost(ba, First(shape))) ==> st == NullNode && ba.rpos == old(ba.rpos)
    ensures !old(Lost(ba, First(shape))) ==>
              Fetched(ba, old(ba.rpos), NumberRead(shape, ba.cells[old(ba.rpos)..ba.size], ba.endian), v, st)
  {
    match shape
    case UFix(n) => v, st := ReadFix(ba, n, host);
    case SFix(n) => v, st := ReadFix(ba, n, host);
    case UVar(m) => v, st := ReadVar(ba, m);
    case SVar(m) => v, st := ReadVar(ba, m);
    case Str(p) =>
      if p == Vint {
        v, st := ReadVar(ba, M64);
      } else {
        v, st := ReadFix(ba, PrefixWidth(p), host);
      }
  }

  /** Reading a value, whatever the bytes are: it is what they decode to.  The read node is null for a
      reader that is lost, and for an empty string whose length field ends exactly where the chain
      ends: reading its zero bytes dereferences it, too. */
  method ReadItem(ba: ByteArray, shape: Shape, host: Endian) returns (r: Item, st: Status)
    requires ba.Valid() && ShapeOk(shape)
    modifies ba`readNode, ba`rpos, ba`anchor
    ensures ba.Valid()
    ensures old(Lost(ba, First(shape))) ==> st == NullNode && ba.rpos == old(ba.rpos)
    ensures !old(Lost(ba, First(shape))) ==>
              ReadIs(ba, old(ba.rpos), Decode(shape, ba.cells[old(ba.rpos)..ba.size], ba.endian), r, st)
  {
    ghost var start, rest := ba.rpos, ba.cells[ba.rpos..ba.size];
    var v;
    v, st := ReadNumber(ba, shape, host);
    r := Num(shape, Reinterpret(shape, v));
    if st == Done && shape.Str? {
      r, st := ReadText(ba, shape.prefix, v, start, rest, ba.rpos - start);
    }
  }

  /** The bytes of a string. */
  method ReadText(ba: ByteArray, p: Prefix, n: nat, ghost start: nat, ghost rest: seq<byte>, ghost u: nat)
    returns (r: Item, st: Status)
    requires ba.Valid() && ba.anchor == ba.capacity && ba.rpos == start + u && rest == ba.cells[start..ba.size]
    modifies ba`readNode, ba`rpos, ba`anchor
    ensures ba.Valid() && ReadIs(ba, start, TextRead(p, rest, u, n), r, st)
  {
    var s;
    s, st := ReadBytes(ba, n);
    SliceOf(ba.cells, start, ba.size, u, n);
    r := Text(p, s);
  }

  predicate EmptyText(i: Item) { i.Text? && i.s == [] }

  lemma SliceOf(cells: seq<byte>, start: nat, size: nat, u: nat, v: nat)
    requires start + u <= size <= |cells|
    ensures start + u + v <= size ==> cells[start..size][u..u + v] == cells[start + u..start + u + v]
  {
    if start + u + v <= size {
      var a, b := cells[start..size][u..u + v], cells[start + u..start + u + v];
      assert forall k :: 0 <= k < v ==> a[k] == cells[start..size][u + k] == b[k];
    }
  }

  ghost predicate ReadIs(ba: ByteArray, start: nat, d: Decoded, r: Item, st: Status)
    reads ba
  {
    && ba.rpos == start + d.used
    && st == (if d.Out? then OutOfRange else if EmptyText(d.item) && ba.rpos == ba.capacity then NullNode else Done)
    && (st == Done ==> r == d.item && ba.anchor == ba.capacity)
  }

  /** The next n bytes as a string. */
  method ReadBytes(ba: ByteArray, n: nat) returns (r: seq<byte>, st: Status)
    requires ba.Valid() && ba.anchor == ba.capacity
    modifies ba`readNode, ba`rpos, ba`anchor
    ensures ba.Valid()
    ensures st == if old(ba.rpos) + n > ba.size then OutOfRange else if old(ba.rpos) == ba.capacity then NullNode else Done
    ensures st == Done ==>
              ba.rpos == old(ba.rpos) + n && ba.anchor == ba.capacity && r == ba.cells[old(ba.rpos)..old(ba.rpos) + n]
    ensures st != Done ==> ba.rpos == old(ba.rpos)
  {
    var buf := new byte[n];
    st := ba.Read(buf, n);
    r := buf[..n];
  }

  // ------------------------------------------------------------------ lists of values

  lemma JoinStep(parts: seq<seq<byte>>, i: nat)
    requires i < |parts|
    ensures Join(parts[..i + 1]) == Join(parts[..i]) + parts[i]
  {
    assert parts[..i + 1][..i] == parts[..i];
  }

  /** Every part is found behind the parts in front of it. */
  lemma {:induction false} JoinAt(parts: seq<seq<byte>>, i: nat, a: seq<byte>)
    requires i < |parts| && a == Join(parts[..i])
    ensures a + parts[i] <= Join(parts) && Join(parts[..i + 1]) == a + parts[i]
    decreases |parts|
  {
    var last := |parts| - 1;
    JoinStep(parts, i);
    if i == last {
      assert parts[..i + 1] == parts;
    } else {
      assert parts[..last][..i] == parts[..i] && parts[..last][i] == parts[i];
      JoinAt(parts[..last], i, a);
      PrefixOfSum(a + parts[i], Join(parts[..last]), parts[last]);
    }
  }

  lemma PrefixOfSum(a: seq<byte>, b: seq<byte>, c: seq<byte>)
    requires a <= b
    ensures a <= b + c
  {
  }

  /** Only the last part ends where the whole ends, if no part is empty. */
  lemma JoinEnd(parts: seq<seq<byte>>, i: nat)
    requires i < |parts| && forall j :: 0 <= j < |parts| ==> |parts[j]| >= 1
    ensures |Join(parts[..i])| + |parts[i]| == |Join(parts)| <==> i + 1 == |parts|
    ensures |Join(parts)| > 0
  {
    JoinAt(parts, i, Join(parts[..i]));
    if i + 1 < |parts| {
      JoinAt(parts, i + 1, Join(parts[..i + 1]));
    } else {
      assert parts[..i + 1] == parts;
    }
  }

  lemma PartsNotEmpty(items: seq<Item>, order: Endian)
    requires AllOk(items)
    ensures forall j :: 0 <= j < |items| ==> |Parts(items, order)[j]| >= 1
  {
    forall j | 0 <= j < |items| ensures |Parts(items, order)[j]| >= 1 {
      EncodeNotEmpty(items[j], order);
    }
  }

  lemma SomethingWritten(items: seq<Item>, order: Endian)
    requires AllOk(items) && items != []
    ensures |EncodeAll(items, order)| > 0
  {
    PartsNotEmpty(items, order);
    JoinEnd(Parts(items, order), 0);
  }

  /** A chain that was only grown when it had to be is exactly full when the number of bytes is a
      multiple of the block size. */
  lemma FullChain(total: nat, n: nat, b: nat)
    requires b > 0 && 0 < total <= Start(n, b) < total + b
    ensures total == Start(n, b) <==> total % b == 0
  {
    IndexDivides(total, b);
    StartStep(total / b, n, b);
    StartStep(n, total / b, b);
    StartStep(total / b + 1, n, b);
    StartStep(n, total / b + 1, b);
    assert Start(total / b + 1, b) == Start(total / b, b) + b;
  }

  /** A value that is appended. */
  method Append(ba: ByteArray, i: Item, host: Endian)
    requires ba.Valid() && ItemOk(i) && ba.wpos == ba.size
    modifies ba, ba.Links, ba.Store
    ensures ba.Valid() && fresh(ba.Links - old(ba.Links)) && fresh(ba.Store - old(ba.Store))
    ensures ba.cells[..ba.size] == old(ba.cells[..ba.size]) + Encode(i, old(ba.endian)) && ba.wpos == ba.size
    ensures ba.rpos == old(ba.rpos) && ba.anchor == old(ba.anchor) && ba.endian == old(ba.endian)
    ensures ba.capacity == old(ba.capacity) || ba.capacity < ba.size + ba.base
  {
    ghost var c0, w, e := ba.cells, ba.wpos, Encode(i, ba.endian);
    WriteItem(ba, i, host);
    AppendedIs(c0, w, e, ba.cells);
  }

  lemma AppendedIs(c0: seq<byte>, w: nat, e: seq<byte>, c1: seq<byte>)
    requires w <= |c0| && Splice(c0, w, e) <= c1
    ensures c1[..w + |e|] == c0[..w] + e
  {
    assert c1[..w + |e|] == Splice(c0, w, e)[..w + |e|];
  }

  method WriteAll(ba: ByteArray, items: seq<Item>, host: Endian)
    requires ba.Valid() && AllOk(items) && ba.wpos == ba.size == ba.rpos == 0 && ba.capacity == ba.anchor == ba.base
    modifies ba, ba.Links, ba.Store
    ensures ba.Valid() && ba.endian == old(ba.endian) && ba.rpos == 0 && ba.anchor == ba.base
    ensures fresh(ba.Links - old(ba.Links)) && fresh(ba.Store - old(ba.Store))
    ensures ba.cells[..ba.size] == EncodeAll(items, ba.endian)
    ensures ba.capacity == ba.base || ba.capacity < ba.size + ba.base
  {
    ghost var parts := Parts(items, ba.endian);
    var i := 0;
    while i < |items|
      invariant i <= |items| && ba.Valid() && ba.endian == old(ba.endian) && ba.rpos == 0 && ba.anchor == ba.base
      invariant fresh(ba.Links - old(ba.Links)) && fresh(ba.Store - old(ba.Store))
      invariant Holds(ba, parts, i)
    {
      AppendNext(ba, items, i, host, parts);
      i := i + 1;
    }
    assert parts[..|items|] == parts;
  }

  /** The first n parts have been written, in a chain that is no longer than needed. */
  ghost predicate Holds(ba: ByteArray, parts: seq<seq<byte>>, n: nat)
    requires ba.Valid() && n <= |parts|
    reads ba, ba.Links, ba.Store
  {
    && ba.wpos == ba.size && ba.cells[..ba.size] == Join(parts[..n])
    && (ba.capacity == ba.base || ba.capacity < ba.size + ba.base)
  }

  method AppendNext(ba: ByteArray, items: seq<Item>, i: nat, host: Endian, ghost parts: seq<seq<byte>>)
    requires ba.Valid() && AllOk(items) && i < |items| && parts == Parts(items, ba.endian) && Holds(ba, parts, i)
    modifies ba, ba.Links, ba.Store
    ensures ba.Valid() && fresh(ba.Links - old(ba.Links)) && fresh(ba.Store - old(ba.Store))
    ensures Holds(ba, parts, i + 1)
    ensures ba.rpos == old(ba.rpos) && ba.anchor == old(ba.anchor) && ba.endian == old(ba.endian)
  {
    JoinStep(parts, i);
    Append(ba, items[i], host);
  }

  /** What lies ahead of a reader that has read the parts before `i`. */
  lemma PartAhead(s: seq<byte>, parts: seq<seq<byte>>, i: nat, start: nat)
    requires i < |parts| && start == |Join(parts[..i])| && s == Join(parts)
    requires forall j :: 0 <= j < |parts| ==> |parts[j]| >= 1
    ensures start + |parts[i]| <= |s| && s[start..] == parts[i] + s[start + |parts[i]|..]
    ensures |Join(parts[..i + 1])| == start + |parts[i]|
    ensures start + |parts[i]| == |s| <==> i + 1 == |parts|
  {
    JoinAt(parts, i, Join(parts[..i]));
    JoinEnd(parts, i);
    SliceAhead(s, Join(parts[..i]), parts[i]);
  }

  lemma SliceAhead(s: seq<byte>, a: seq<byte>, b: seq<byte>)
    requires a + b <= s
    ensures s[|a|..] == b + s[|a| + |b|..]
  {
    var t := s[|a| + |b|..];
    assert s == a + b + t;
  }

  /** Reading the value number `i`; only the last one can fail. */
  method ReadNext(ba: ByteArray, items: seq<Item>, i: nat, host: Endian) returns (r: Item, st: Status)
    requires ba.Valid() && AllOk(items) && i < |items| && ba.rpos == |Join(Parts(items, ba.endian)[..i])|
    requires ba.cells[..ba.size] == EncodeAll(items, ba.endian) && ba.rpos != ba.anchor
    modifies ba`readNode, ba`rpos, ba`anchor
    ensures ba.Valid()
    ensures st == if i + 1 == |items| && EmptyText(items[i]) && ba.size == ba.capacity then NullNode else Done
    ensures st == Done ==> r == items[i] && ba.rpos == |Join(Parts(items, ba.endian)[..i + 1])|
    ensures st == Done && i + 1 < |items| ==> ba.rpos != ba.anchor
  {
    ghost var parts := Parts(items, ba.endian);
    PartsNotEmpty(items, ba.endian);
    ghost var s, start := ba.cells[..ba.size], ba.rpos;
    PartAhead(s, parts, i, start);
    DecodeUndoesEncode(items[i], s[start + |parts[i]|..], ba.endian);
    assert ba.cells[start..ba.size] == s[start..];
    r, st := ReadItem(ba, items[i].Kind(), host);
  }

  /** Reading the whole list; it fails if it ends with an empty string and the chain is full. */
  method ReadAll(ba: ByteArray, items: seq<Item>, host: Endian) returns (out: seq<Item>, st: Status)
    requires ba.Valid() && AllOk(items) && ba.rpos == 0 && ba.anchor > 0
    requires ba.cells[..ba.size] == EncodeAll(items, ba.endian)
    modifies ba`readNode, ba`rpos, ba`anchor
    ensures st == if items != [] && EmptyText(items[|items| - 1]) && ba.size == ba.capacity then NullNode else Done
    ensures st == Done ==> out == items
  {
    ghost var parts := Parts(items, ba.endian);
    assert parts[..0] == [];
    out, st := [], Done;
    var i := 0;
    while i < |items|
      invariant i <= |items| && ba.Valid() && ba.rpos == |Join(parts[..i])| && out == items[..i]
      invariant i < |items| ==> ba.rpos != ba.anchor
      invariant i == |items| ==> !(items != [] && EmptyText(items[|items| - 1]) && ba.size == ba.capacity)
    {
      var r, s := ReadNext(ba, items, i, host);
      if s != Done {
        st := s;
        return;
      }
      TakeOne(items, i);
      out := out + [r];
      i := i + 1;
    }
  }

  lemma TakeOne<T>(s: seq<T>, i: nat)
    requires i < |s|
    ensures s[..i] + [s[i]] == s[..i + 1]
    ensures i + 1 == |s| ==> s[..i + 1] == s
  {
  }

  /** Typed stream round trip, exactly.  For every list of values, every block size, either byte
      order, and machines of any order on the two sides, what is read back is the list that was
      written - unless the list ends with an empty string and its bytes fill the blocks exactly, in
      which case the last read dereferences a null node. */
  method RoundTrip(items: seq<Item>, blockSize: nat, order: Endian, writer: Endian, reader: Endian)
    returns (out: seq<Item>, st: Status)
    requires AllOk(items) && blockSize >= 1
    ensures st == if items != [] && EmptyText(items[|items| - 1]) && |EncodeAll(items, order)| % blockSize == 0
                  then NullNode else Done
    ensures st == Done ==> out == items
  {
    var ba := new ByteArray(blockSize);
    ba.endian := order;
    WriteAll(ba, items, writer);
    if items != [] {
      SomethingWritten(items, order);
      FullChain(ba.size, |ba.nodes|, blockSize);
    }
    out, st := ReadAll(ba, items, reader);
  }
}
