/** The resumable decoder of the chunked transfer coding (section 4.1 of RFC 7230), as
    phr_decode_chunked of src/Http/picohttpparser.c implements it.

    `Step` says what one byte does to a decoder, `Decode` what a whole input does; both are
    values only.  The method at the end is the C loop: it works in place on the caller's buffer
    and is proved to do exactly what `Decode` says.  A byte is a `char`. */
module Chunked {
  import opened Common

  const SIZE_MOD: nat := 0x1_0000_0000_0000_0000
  const MAX_HEX: nat := 16

  // ------------------------------------------------------------------ decoder states

  datatype Phase = Size | Ext | HeaderLF | Data | DataCR | DataLF | TrailerHead | TrailerMiddle

  /** The part of struct phr_chunked_decoder that decides what happens to the next byte. */
  datatype Decoder = Decoder(phase: Phase, left: nat, hex: nat, trailer: bool)
  {
    /** What holds of every decoder that starts zero-filled. */
    predicate Valid() {
      && left < SIZE_MOD
      && hex <= MAX_HEX
      && (phase == Size ==> left < Pow16(hex))
      && (phase != Size ==> hex == 0)
      && (phase == Data ==> left > 0)
      && (phase in {DataCR, DataLF, TrailerHead, TrailerMiddle} ==> left == 0)
    }
  }

  function Pow16(n: nat): nat {
    if n == 0 then 1 else 16 * Pow16(n - 1)
  }

  lemma {:induction false} Pow16Monotone(m: nat, n: nat)
    requires m <= n
    ensures 1 <= Pow16(m) <= Pow16(n)
  {
    if m < n {
      Pow16Monotone(m, n - 1);
    } else if m > 0 {
      Pow16Monotone(m - 1, m - 1);
    }
  }

  lemma Pow16One()
    ensures Pow16(1) == 16
  {
    assert Pow16(0) == 1;
  }

  lemma Pow16Limit()
    ensures Pow16(MAX_HEX) == SIZE_MOD
  {
    assert Pow16(4) == 0x1_0000;
    assert Pow16(8) == 0x1_0000_0000;
    assert Pow16(12) == 0x1_0000_0000_0000;
  }

  function Start(trailer: bool): Decoder {
    Decoder(Size, 0, 0, trailer)
  }

  /** decode_hex: the value of a hexadecimal digit, -1 for any other byte. */
  function DecodeHex(c: char): (v: int)
    ensures -1 <= v < 16
  {
    if '0' <= c <= '9' then c as int - '0' as int
    else if 'A' <= c <= 'F' then c as int - 'A' as int + 10
    else if 'a' <= c <= 'f' then c as int - 'a' as int + 10
    else -1
  }

  // ------------------------------------------------------------------ one byte

  datatype Action =
    | Keep(d: Decoder)    // the byte is framing
    | Emit(d: Decoder)    // the byte is data
    | Finish(d: Decoder)  // the byte ends the coding
    | Reject(d: Decoder)  // the byte is not acceptable and stays unread

  function ExtStep(d: Decoder, c: char): Action {
    if c == '\r' then Keep(d.(phase := HeaderLF))
    else if c == '\n' then Reject(d)
    else Keep(d)
  }

  function Step(d: Decoder, c: char): Action {
    match d.phase
    case Size =>
      var v := DecodeHex(c);
      if v == -1 then
        if d.hex == 0 || c !in {' ', '\t', ';', '\n', '\r'} then Reject(d)
        else ExtStep(d.(phase := Ext, hex := 0), c)
      else if d.hex == MAX_HEX then Reject(d)
      else Keep(d.(left := (d.left * 16 + v) % SIZE_MOD, hex := d.hex + 1))
    case Ext => ExtStep(d, c)
    case HeaderLF =>
      if c != '\n' then Reject(d)
      else if d.left > 0 then Keep(d.(phase := Data))
      else if d.trailer then Keep(d.(phase := TrailerHead))
      else Finish(d)
    case Data =>
      if d.left <= 1 then Emit(d.(phase := DataCR, left := 0)) else Emit(d.(left := d.left - 1))
    case DataCR =>
      if c == '\r' then Keep(d.(phase := DataLF)) else Reject(d)
    case DataLF =>
      if c == '\n' then Keep(d.(phase := Size)) else Reject(d)
    case TrailerHead =>
      if c == '\r' then Keep(d)
      else if c == '\n' then Finish(d)
      else Keep(d.(phase := TrailerMiddle))
    case TrailerMiddle =>
      if c == '\n' then Keep(d.(phase := TrailerHead)) else Keep(d)
  }

  /** The chunk size is accumulated without wrap-around: the reduction modulo 2^64 that size_t
      arithmetic performs never changes the value. */
  lemma SizeNeverWraps(d: Decoder, c: char)
    requires d.Valid() && d.phase == Size && d.hex < MAX_HEX && DecodeHex(c) >= 0
    ensures Step(d, c) == Keep(d.(left := d.left * 16 + DecodeHex(c), hex := d.hex + 1))
    ensures d.left * 16 + DecodeHex(c) < Pow16(d.hex + 1) <= SIZE_MOD
  {
    Pow16Monotone(d.hex + 1, MAX_HEX);
    Pow16Limit();
  }

  /** Every byte leads from a reachable decoder to a reachable decoder. */
  lemma StepValid(d: Decoder, c: char)
    requires d.Valid()
    ensures Step(d, c).d.Valid()
  {
    if d.phase == Size && d.hex < MAX_HEX && DecodeHex(c) >= 0 {
      SizeNeverWraps(d, c);
    } else {
      assert Pow16(0) == 1;
    }
  }

  // ------------------------------------------------------------------ a whole input

  datatype Outcome =
    | More(d: Decoder, out: string)
    | Done(d: Decoder, out: string, rest: string)
    | Failed(d: Decoder, out: string, rest: string)
  {
    function Prefixed(s: string): Outcome {
      match this
      case More(d, o) => More(d, s + o)
      case Done(d, o, r) => Done(d, s + o, r)
      case Failed(d, o, r) => Failed(d, s + o, r)
    }

    /** The outcome once more input follows. */
    function Then(s: string): Outcome {
      match this
      case More(d, o) => Decode(d, s).Prefixed(o)
      case Done(d, o, r) => Done(d, o, r + s)
      case Failed(d, o, r) => Failed(d, o, r + s)
    }
  }

  function Decode(d: Decoder, s: string): Outcome
    decreases |s|
  {
    if s == "" then More(d, "") else
    match Step(d, s[0])
    case Keep(d') => Decode(d', s[1..])
    case Emit(d') => Decode(d', s[1..]).Prefixed([s[0]])
    case Finish(d') => Done(d', "", s[1..])
    case Reject(d') => Failed(d', "", s)
  }

  lemma PrefixedTwice(o: Outcome, s: string, t: string)
    ensures o.Prefixed(t).Prefixed(s) == o.Prefixed(s + t)
    ensures o.Prefixed("") == o
  {
    assert (s + t) + o.out == s + (t + o.out);
    assert "" + o.out == o.out;
  }

  lemma {:induction false} DecodeValid(d: Decoder, s: string)
    requires d.Valid()
    ensures Decode(d, s).d.Valid()
    decreases |s|
  {
    if s != "" {
      StepValid(d, s[0]);
      match Step(d, s[0])
      case Keep(d') => DecodeValid(d', s[1..]);
      case Emit(d') => DecodeValid(d', s[1..]);
      case Finish(_) =>
      case Reject(_) =>
    }
  }

  /** Split invariance: decoding a + b at once is decoding a and, if that asks for more, then b
      with the decoder that a left behind.  Return code, output and leftover all agree, from every
      decoder state. */
  lemma {:induction false} SplitInvariance(d: Decoder, a: string, b: string)
    ensures Decode(d, a + b) == Decode(d, a).Then(b)
    decreases |a|
  {
    if a == "" {
      assert a + b == b;
      PrefixedTwice(Decode(d, b), "", "");
    } else {
      assert (a + b)[1..] == a[1..] + b;
      match Step(d, a[0])
      case Keep(d') => SplitInvariance(d', a[1..], b);
      case Emit(d') =>
        SplitInvariance(d', a[1..], b);
        var o := Decode(d', a[1..]);
        match o {
          case More(d2, out) => PrefixedTwice(Decode(d2, b), [a[0]], out);
          case Done(_, _, _) =>
          case Failed(_, _, _) =>
        }
      case Finish(_) =>
      case Reject(_) =>
    }
  }

  /** What a sequence of calls does to a stream that arrives in pieces. */
  function DecodePieces(d: Decoder, pieces: seq<string>): Outcome
    decreases |pieces|
  {
    if pieces == [] then More(d, "")
    else
      var o := Decode(d, pieces[0]);
      if o.More? then DecodePieces(o.d, pieces[1..]).Prefixed(o.out)
      else o.Then(Concat(pieces[1..]))
  }

  /** However the network cuts the stream, the outcome is that of the whole stream. */
  lemma {:induction false} PiecesDoNotMatter(d: Decoder, pieces: seq<string>)
    ensures DecodePieces(d, pieces) == Decode(d, Concat(pieces))
    decreases |pieces|
  {
    if pieces != [] {
      SplitInvariance(d, pieces[0], Concat(pieces[1..]));
      var o := Decode(d, pieces[0]);
      if o.More? {
        PiecesDoNotMatter(o.d, pieces[1..]);
      }
    }
  }

  /** Nothing is invented and nothing is lost: output, leftover and framing add up. */
  lemma {:induction false} DecodeShrinks(d: Decoder, s: string)
    ensures |Decode(d, s).out| <= |s|
    ensures !Decode(d, s).More? ==> |Decode(d, s).out| + |Decode(d, s).rest| <= |s|
    ensures !Decode(d, s).More? ==> Decode(d, s).rest == s[|s| - |Decode(d, s).rest|..]
    decreases |s|
  {
    if s != "" {
      match Step(d, s[0])
      case Keep(d') => DecodeShrinks(d', s[1..]);
      case Emit(d') => DecodeShrinks(d', s[1..]);
      case Finish(_) =>
      case Reject(_) =>
    }
  }

  // ------------------------------------------------------------------ the encoding

  /** A chunk as a sender writes it: the size in hexadecimal, an extension, the data. */
  datatype Chunk = Chunk(digits: string, ext: string, data: string)
  {
    predicate WellFormed() {
      1 <= |digits| <= MAX_HEX && AllHex(digits) && HexValue(digits) == |data| && ExtOk(ext)
    }
  }

  predicate AllHex(s: string) {
    forall i :: 0 <= i < |s| ==> DecodeHex(s[i]) >= 0
  }

  function HexValue(s: string): nat
    requires AllHex(s)
  {
    if s == "" then 0 else HexValue(s[..|s| - 1]) * 16 + DecodeHex(s[|s| - 1])
  }

  predicate ExtOk(ext: string) {
    && (ext != "" ==> ext[0] in {' ', '\t', ';'})
    && forall i :: 0 <= i < |ext| ==> ext[i] != '\r' && ext[i] != '\n'
  }

  /** A trailer field line, without its line feed. */
  predicate LineOk(line: string) {
    !AllCr(line) && forall i :: 0 <= i < |line| ==> line[i] != '\n'
  }

  predicate AllCr(s: string) {
    forall i :: 0 <= i < |s| ==> s[i] == '\r'
  }

  function EncodeChunk(c: Chunk): string {
    c.digits + c.ext + "\r\n" + c.data + "\r\n"
  }

  function EncodeChunks(cs: seq<Chunk>): string {
    if cs == [] then "" else EncodeChunk(cs[0]) + EncodeChunks(cs[1..])
  }

  /** Trailer lines, and the line that ends them: one that is empty but for carriage returns. */
  function EncodeTrailer(lines: seq<string>, end: string): string {
    if lines == [] then end + "\n" else lines[0] + "\n" + EncodeTrailer(lines[1..], end)
  }

  function Payload(cs: seq<Chunk>): string {
    if cs == [] then "" else cs[0].data + Payload(cs[1..])
  }

  /** A decoder that is given bytes b moves from d to d' and puts out s. */
  predicate Moves(d: Decoder, b: string, d': Decoder, s: string) {
    Decode(d, b) == More(d', s)
  }

  lemma MovesTrans(d: Decoder, a: string, d1: Decoder, s: string, b: string, d2: Decoder, t: string)
    requires Moves(d, a, d1, s) && Moves(d1, b, d2, t)
    ensures Moves(d, a + b, d2, s + t)
  {
    SplitInvariance(d, a, b);
  }

  lemma {:induction false} DigitsMove(digits: string, trailer: bool)
    requires |digits| <= MAX_HEX && AllHex(digits)
    ensures Decoder(Size, HexValue(digits), |digits|, trailer).Valid()
    ensures Moves(Start(trailer), digits, Decoder(Size, HexValue(digits), |digits|, trailer), "")
    decreases |digits|
  {
    if digits == "" {
    } else {
      var k := |digits| - 1;
      var d := Decoder(Size, HexValue(digits[..k]), k, trailer);
      var d' := Decoder(Size, HexValue(digits), k + 1, trailer);
      DigitsMove(digits[..k], trailer);
      SizeNeverWraps(d, digits[k]);
      assert Step(d, digits[k]) == Keep(d');
      assert Moves(d, [digits[k]], d', "") by {
        assert Decode(d', [digits[k]][1..]) == More(d', "");
      }
      MovesTrans(Start(trailer), digits[..k], d, "", [digits[k]], d', "");
      assert digits == digits[..k] + [digits[k]];
      StepValid(d, digits[k]);
    }
  }

  lemma {:induction false} ExtMoves(d: Decoder, ext: string)
    requires d.phase == Ext && forall i :: 0 <= i < |ext| ==> ext[i] != '\r' && ext[i] != '\n'
    ensures Moves(d, ext, d, "")
    decreases |ext|
  {
    if ext != "" {
      ExtMoves(d, ext[1..]);
    }
  }

  /** The line that announces a chunk. */
  lemma HeaderMoves(digits: string, ext: string, trailer: bool)
    requires 1 <= |digits| <= MAX_HEX && AllHex(digits) && ExtOk(ext)
    ensures Moves(Start(trailer), digits + ext + "\r", Decoder(HeaderLF, HexValue(digits), 0, trailer), "")
  {
    var d0 := Decoder(Size, HexValue(digits), |digits|, trailer);
    DigitsMove(digits, trailer);
    AfterDigits(HexValue(digits), |digits|, ext, trailer);
    MovesTrans(Start(trailer), digits, d0, "", ext + "\r", Decoder(HeaderLF, HexValue(digits), 0, trailer), "");
    assert digits + (ext + "\r") == digits + ext + "\r";
  }

  lemma AfterDigits(v: nat, n: nat, ext: string, trailer: bool)
    requires 1 <= n <= MAX_HEX && ExtOk(ext)
    ensures Moves(Decoder(Size, v, n, trailer), ext + "\r", Decoder(HeaderLF, v, 0, trailer), "")
  {
    var d0, d1, d2 := Decoder(Size, v, n, trailer), Decoder(Ext, v, 0, trailer), Decoder(HeaderLF, v, 0, trailer);
    if ext == "" {
      assert ext + "\r" == "\r";
      assert Step(d0, '\r') == Keep(d2);
      assert Decode(d2, "\r"[1..]) == More(d2, "");
    } else {
      assert Step(d0, ext[0]) == Keep(d1);
      ExtMoves(d1, ext[1..]);
      assert Moves(d1, "\r", d2, "") by {
        assert Decode(d2, "\r"[1..]) == More(d2, "");
      }
      MovesTrans(d0, ext, d1, "", "\r", d2, "");
    }
  }

  lemma {:induction false} DataMoves(data: string, trailer: bool)
    requires 0 < |data| < SIZE_MOD
    ensures Moves(Decoder(Data, |data|, 0, trailer), data, Decoder(DataCR, 0, 0, trailer), data)
    decreases |data|
  {
    var d := Decoder(Data, |data|, 0, trailer);
    assert data == [data[0]] + data[1..];
    if |data| > 1 {
      DataMoves(data[1..], trailer);
    } else {
      assert data[1..] == "";
    }
  }

  lemma ChunkMoves(c: Chunk, trailer: bool)
    requires c.WellFormed() && c.data != ""
    ensures Moves(Start(trailer), EncodeChunk(c), Start(trailer), c.data)
  {
    DigitsMove(c.digits, trailer);
    var n := |c.data|;
    var d2 := Decoder(HeaderLF, n, 0, trailer);
    var d3 := Decoder(Data, n, 0, trailer);
    var d4 := Decoder(DataCR, 0, 0, trailer);
    var d5 := Decoder(DataLF, 0, 0, trailer);
    var h := c.digits + c.ext + "\r";
    HeaderMoves(c.digits, c.ext, trailer);
    assert Moves(d2, "\n", d3, "") by {
      assert Decode(d3, "\n"[1..]) == More(d3, "");
    }
    MovesTrans(Start(trailer), h, d2, "", "\n", d3, "");
    DataMoves(c.data, trailer);
    MovesTrans(Start(trailer), h + "\n", d3, "", c.data, d4, c.data);
    assert Moves(d4, "\r", d5, "") by {
      assert Decode(d5, "\r"[1..]) == More(d5, "");
    }
    assert Moves(d5, "\n", Start(trailer), "") by {
      assert Decode(Start(trailer), "\n"[1..]) == More(Start(trailer), "");
    }
    MovesTrans(d4, "\r", d5, "", "\n", Start(trailer), "");
    MovesTrans(Start(trailer), h + "\n" + c.data, d4, "" + c.data, "\r" + "\n", Start(trailer), "");
    assert h + "\n" + c.data + ("\r" + "\n") == EncodeChunk(c);
    assert "" + c.data + "" == c.data;
  }

  lemma {:induction false} ChunksMove(cs: seq<Chunk>, trailer: bool)
    requires forall i :: 0 <= i < |cs| ==> cs[i].WellFormed() && cs[i].data != ""
    ensures Moves(Start(trailer), EncodeChunks(cs), Start(trailer), Payload(cs))
    decreases |cs|
  {
    if cs != [] {
      ChunkMoves(cs[0], trailer);
      ChunksMove(cs[1..], trailer);
      MovesTrans(Start(trailer), EncodeChunk(cs[0]), Start(trailer), cs[0].data,
                 EncodeChunks(cs[1..]), Start(trailer), Payload(cs[1..]));
    }
  }

  lemma {:induction false} MiddleMoves(d: Decoder, s: string)
    requires d.phase == TrailerMiddle && forall i :: 0 <= i < |s| ==> s[i] != '\n'
    ensures Moves(d, s, d, "")
    decreases |s|
  {
    if s != "" {
      MiddleMoves(d, s[1..]);
    }
  }

  /** Inside a trailer line, or in front of one as long as there were only carriage returns. */
  lemma {:induction false} LineMoves(line: string)
    requires forall i :: 0 <= i < |line| ==> line[i] != '\n'
    ensures Moves(Decoder(TrailerHead, 0, 0, true), line,
                  Decoder(if AllCr(line) then TrailerHead else TrailerMiddle, 0, 0, true), "")
    decreases |line|
  {
    if line != "" {
      if line[0] == '\r' {
        LineMoves(line[1..]);
        assert AllCr(line) == AllCr(line[1..]) by {
          assert line == [line[0]] + line[1..];
        }
      } else {
        MiddleMoves(Decoder(TrailerMiddle, 0, 0, true), line[1..]);
      }
    }
  }

  lemma OneLine(line: string, rest: string)
    requires forall i :: 0 <= i < |line| ==> line[i] != '\n'
    ensures var d := Decoder(TrailerHead, 0, 0, true);
      Decode(d, line + "\n" + rest) == if AllCr(line) then Done(d, "", rest) else Decode(d, rest)
  {
    var d, m := Decoder(TrailerHead, 0, 0, true), Decoder(TrailerMiddle, 0, 0, true);
    LineMoves(line);
    SplitInvariance(d, line, "\n" + rest);
    assert line + ("\n" + rest) == line + "\n" + rest && ("\n" + rest)[1..] == rest;
    PrefixedTwice(Decode(if AllCr(line) then d else m, "\n" + rest), "", "");
  }

  lemma {:induction false} TrailerFinishes(lines: seq<string>, end: string, tail: string)
    requires AllCr(end) && forall i :: 0 <= i < |lines| ==> LineOk(lines[i])
    ensures Decode(Decoder(TrailerHead, 0, 0, true), EncodeTrailer(lines, end) + tail)
         == Done(Decoder(TrailerHead, 0, 0, true), "", tail)
    decreases |lines|
  {
    if lines == [] {
      OneLine(end, tail);
    } else {
      var rest := EncodeTrailer(lines[1..], end);
      OneLine(lines[0], rest + tail);
      TrailerFinishes(lines[1..], end, tail);
      assert lines[0] + "\n" + (rest + tail) == EncodeTrailer(lines, end) + tail;
    }
  }

  /** Decoding undoes encoding: for every list of non-empty chunks with any extensions, any
      rendering of the sizes in at most 16 digits and any trailer lines, the decoder puts out
      exactly the data and stops exactly at the end of the message - or, when it was told not to
      consume the trailer, exactly where the trailer begins. */
  lemma DecodeUndoesEncode(cs: seq<Chunk>, last: Chunk, lines: seq<string>, end: string, trailer: bool, tail: string)
    requires forall i :: 0 <= i < |cs| ==> cs[i].WellFormed() && cs[i].data != ""
    requires last.WellFormed() && last.data == ""
    requires AllCr(end) && forall i :: 0 <= i < |lines| ==> LineOk(lines[i])
    ensures
      var message := EncodeChunks(cs) + (last.digits + last.ext + "\r\n") + EncodeTrailer(lines, end);
      var o := Decode(Start(trailer), message + tail);
      o.Done? && o.out == Payload(cs) && o.rest == if trailer then tail else EncodeTrailer(lines, end) + tail
  {
    var front := EncodeChunks(cs) + (last.digits + last.ext + "\r");
    var back := "\n" + (EncodeTrailer(lines, end) + tail);
    FrontMoves(cs, last, trailer);
    EndFinishes(lines, end, trailer, tail);
    Reassociate(EncodeChunks(cs), last.digits + last.ext, EncodeTrailer(lines, end), tail);
    FinishAfter(Start(trailer), front, Decoder(HeaderLF, 0, 0, trailer), Payload(cs), back);
  }

  lemma Reassociate(a: string, b: string, t: string, tail: string)
    ensures (a + (b + "\r")) + ("\n" + (t + tail)) == (a + (b + "\r\n") + t) + tail
  {
  }

  /** What is decoded behind a part that only moves the decoder on. */
  lemma FinishAfter(d: Decoder, front: string, h: Decoder, out: string, back: string)
    requires Moves(d, front, h, out) && Decode(h, back).Done? && Decode(h, back).out == ""
    ensures var o := Decode(d, front + back);
      o.Done? && o.out == out && o.rest == Decode(h, back).rest
  {
    SplitInvariance(d, front, back);
    assert out + "" == out;
  }

  lemma FrontMoves(cs: seq<Chunk>, last: Chunk, trailer: bool)
    requires forall i :: 0 <= i < |cs| ==> cs[i].WellFormed() && cs[i].data != ""
    requires last.WellFormed() && last.data == ""
    ensures Moves(Start(trailer), EncodeChunks(cs) + (last.digits + last.ext + "\r"),
                  Decoder(HeaderLF, 0, 0, trailer), Payload(cs))
  {
    ChunksMove(cs, trailer);
    HeaderMoves(last.digits, last.ext, trailer);
    MovesTrans(Start(trailer), EncodeChunks(cs), Start(trailer), Payload(cs),
               last.digits + last.ext + "\r", Decoder(HeaderLF, 0, 0, trailer), "");
    assert Payload(cs) + "" == Payload(cs);
  }

  lemma EndFinishes(lines: seq<string>, end: string, trailer: bool, tail: string)
    requires AllCr(end) && forall i :: 0 <= i < |lines| ==> LineOk(lines[i])
    ensures
      var o := Decode(Decoder(HeaderLF, 0, 0, trailer), "\n" + (EncodeTrailer(lines, end) + tail));
      o.Done? && o.out == "" && o.rest == if trailer then tail else EncodeTrailer(lines, end) + tail
  {
    var more := EncodeTrailer(lines, end) + tail;
    assert ("\n" + more)[1..] == more;
    if trailer {
      TrailerFinishes(lines, end, tail);
    }
  }

  // ------------------------------------------------------------------ a canonical sender

  /** The shortest lower-case hexadecimal rendering. */
  function ToHex(n: nat): string {
    var c := "0123456789abcdef"[n % 16];
    if n < 16 then [c] else ToHex(n / 16) + [c]
  }

  lemma {:induction false} ToHexRoundTrip(n: nat, width: nat)
    requires 1 <= width && n < Pow16(width)
    ensures 1 <= |ToHex(n)| <= width && AllHex(ToHex(n)) && HexValue(ToHex(n)) == n
    decreases n
  {
    var c := "0123456789abcdef"[n % 16];
    assert DecodeHex(c) == n % 16;
    if n < 16 {
      assert ToHex(n) == [c];
      assert [c][..0] == "";
    } else {
      assert width > 1 by {
        Pow16One();
      }
      ToHexRoundTrip(n / 16, width - 1);
      assert ToHex(n)[..|ToHex(n)| - 1] == ToHex(n / 16);
    }
  }

  /** The hexadecimal digits, in either case, and no other byte. */
  lemma HexDigits(c: char, v: nat)
    requires v < 16
    ensures DecodeHex(c) == v <==> c == "0123456789abcdef"[v] || c == "0123456789ABCDEF"[v]
  {
    assert "0123456789abcdef"[v] == if v < 10 then ('0' as int + v) as char else ('a' as int + v - 10) as char;
    assert "0123456789ABCDEF"[v] == if v < 10 then ('0' as int + v) as char else ('A' as int + v - 10) as char;
  }

  /** Every digit is as given, in one case or the other. */
  predicate SameDigits(a: string, b: string) {
    |a| == |b| && forall i :: 0 <= i < |a| ==> a[i] == b[i] || ('a' <= b[i] <= 'f' && a[i] as int == b[i] as int - 32)
  }

  /** A size may be written in capitals, in small letters or in any mixture. */
  lemma {:induction false} AnyCaseReadsBack(n: nat, digits: string, width: nat)
    requires 1 <= width && n < Pow16(width) && SameDigits(digits, ToHex(n))
    ensures 1 <= |digits| <= width && AllHex(digits) && HexValue(digits) == n
  {
    ToHexRoundTrip(n, width);
    SameValue(digits, ToHex(n));
  }

  lemma {:induction false} SameValue(a: string, b: string)
    requires SameDigits(a, b) && AllHex(b)
    ensures AllHex(a) && HexValue(a) == HexValue(b)
  {
    if a != "" {
      var last := |a| - 1;
      assert forall i :: 0 <= i < last ==> a[..last][i] == a[i] && b[..last][i] == b[i];
      SameValue(a[..last], b[..last]);
    }
  }

  /** Any list of non-empty pieces shorter than 2^64 bytes can be sent this way. */
  lemma CanonicalChunk(data: string)
    requires |data| < SIZE_MOD
    ensures Chunk(ToHex(|data|), "", data).WellFormed()
  {
    Pow16Limit();
    ToHexRoundTrip(|data|, MAX_HEX);
  }

  lemma SpelledChunk(data: string, digits: string)
    requires |data| < SIZE_MOD && SameDigits(digits, ToHex(|data|))
    ensures Chunk(digits, "", data).WellFormed()
  {
    Pow16Limit();
    AnyCaseReadsBack(|data|, digits, MAX_HEX);
  }

  // ------------------------------------------------------------------ the overhead account

  /** _total_read and _total_overhead: 64-bit counters. */
  datatype Totals = Totals(read: nat, overhead: nat)
  {
    /** The limit on framing: at least 100 KB of it, and less than a quarter of everything read put out. */
    predicate Tripped() {
      overhead >= 100 * 1024 && (read - overhead) % SIZE_MOD < read / 4
    }
  }

  /** A call that is given n bytes counts all of them as read, and as overhead whatever it did not
      put out - but only when it asks for more. */
  function Charge(t: Totals, n: nat, o: Outcome): Totals
    requires |o.out| <= n
  {
    var read := (t.read + n) % SIZE_MOD;
    Totals(read, if o.More? then (t.overhead + (n - |o.out|)) % SIZE_MOD else t.overhead)
  }

  function Tally(t: Totals, d: Decoder, pieces: seq<string>): Totals
    decreases |pieces|
  {
    if pieces == [] then t
    else
      DecodeShrinks(d, pieces[0]);
      var o := Decode(d, pieces[0]);
      Tally(Charge(t, |pieces[0]|, o), o.d, pieces[1..])
  }

  /** After any run of calls that all ask for more, bytes read minus overhead is the number of
      bytes put out, also when the 64-bit counters have wrapped around. */
  lemma {:induction false} TallyBalances(t: Totals, d: Decoder, pieces: seq<string>)
    requires DecodePieces(d, pieces).More?
    ensures var t' := Tally(t, d, pieces);
      (t'.read - t'.overhead) % SIZE_MOD == (t.read - t.overhead + |DecodePieces(d, pieces).out|) % SIZE_MOD
    decreases |pieces|
  {
    if pieces != [] {
      var o := Decode(d, pieces[0]);
      DecodeShrinks(d, pieces[0]);
      var t1 := Charge(t, |pieces[0]|, o);
      assert o.More?;
      ChargeBalances(t, |pieces[0]|, o);
      TallyBalances(t1, o.d, pieces[1..]);
      var k := |DecodePieces(o.d, pieces[1..]).out|;
      assert |DecodePieces(d, pieces).out| == |o.out| + k;
      ModAdd(t1.read - t1.overhead, t.read - t.overhead + |o.out|, k);
    }
  }

  lemma ChargeBalances(t: Totals, n: nat, o: Outcome)
    requires o.More? && |o.out| <= n
    ensures var t' := Charge(t, n, o);
      (t'.read - t'.overhead) % SIZE_MOD == (t.read - t.overhead + |o.out|) % SIZE_MOD
  {
    var a := t.read + n;
    var b := t.overhead + (n - |o.out|);
    assert a - b == t.read - t.overhead + |o.out|;
    assert a % SIZE_MOD == a - SIZE_MOD * (a / SIZE_MOD);
    assert b % SIZE_MOD == b - SIZE_MOD * (b / SIZE_MOD);
    ModShift(a - b, b / SIZE_MOD - a / SIZE_MOD);
  }

  lemma ModShift(x: int, k: int)
    ensures (x + SIZE_MOD * k) % SIZE_MOD == x % SIZE_MOD
  {
    var y := x + SIZE_MOD * k;
    assert x == SIZE_MOD * (x / SIZE_MOD) + x % SIZE_MOD;
    assert y == SIZE_MOD * (y / SIZE_MOD) + y % SIZE_MOD;
    var m := y / SIZE_MOD - x / SIZE_MOD - k;
    assert SIZE_MOD * m == x % SIZE_MOD - y % SIZE_MOD;
    assert m == 0;
  }

  lemma ModAdd(x: int, y: int, k: int)
    requires x % SIZE_MOD == y % SIZE_MOD
    ensures (x + k) % SIZE_MOD == (y + k) % SIZE_MOD
  {
    var q := x / SIZE_MOD - y / SIZE_MOD;
    assert x == SIZE_MOD * (x / SIZE_MOD) + x % SIZE_MOD;
    assert y == SIZE_MOD * (y / SIZE_MOD) + y % SIZE_MOD;
    ModShift(y + k, q);
    assert x + k == y + k + SIZE_MOD * q;
  }

  lemma {:induction false} TallyPlain(t: Totals, d: Decoder, pieces: seq<string>)
    requires DecodePieces(d, pieces).More?
    requires t.overhead <= t.read && t.read + |Concat(pieces)| < SIZE_MOD
    ensures |DecodePieces(d, pieces).out| <= |Concat(pieces)|
    ensures Tally(t, d, pieces) ==
      Totals(t.read + |Concat(pieces)|, t.overhead + |Concat(pieces)| - |DecodePieces(d, pieces).out|)
    decreases |pieces|
  {
    if pieces != [] {
      var o := Decode(d, pieces[0]);
      DecodeShrinks(d, pieces[0]);
      assert o.More?;
      assert |Concat(pieces)| == |pieces[0]| + |Concat(pieces[1..])|;
      var t1 := Charge(t, |pieces[0]|, o);
      assert t1 == Totals(t.read + |pieces[0]|, t.overhead + (|pieces[0]| - |o.out|));
      TallyPlain(t1, o.d, pieces[1..]);
    }
  }

  /** The account of a message that has come in pieces and is not complete: the limit is met when at
      least 102400 bytes were framing and less than a quarter of all the bytes was put out, however
      they were cut. */
  lemma LimitOnFraming(d: Decoder, pieces: seq<string>)
    requires var o := Decode(d, Concat(pieces)); o.More?
    requires |Concat(pieces)| < 0x1_0000_0000_0000_0000
    ensures var n, out := |Concat(pieces)|, |Decode(d, Concat(pieces)).out|;
      Tally(Totals(0, 0), d, pieces).Tripped() <==> n - out >= 102_400 && 4 * (out + 1) <= n
  {
    PiecesDoNotMatter(d, pieces);
    TallyPlain(Totals(0, 0), d, pieces);
  }

  // ------------------------------------------------------------------ the in-place loop

  /** How a case of the C switch ends: it falls through to the next state, it leaves the loop for
      want of input or because of an error, or the message is complete. */
  datatype Flow = Next | Starved | Wrong | Complete

  lemma {:induction false} DataMovesPartly(left: nat, data: string, trailer: bool)
    requires |data| < left
    ensures Moves(Decoder(Data, left, 0, trailer), data, Decoder(Data, left - |data|, 0, trailer), data)
    decreases |data|
  {
    if data != "" {
      DataMovesPartly(left - 1, data[1..], trailer);
      assert data == [data[0]] + data[1..];
    }
  }

  /** All of the data that is there is put out, up to the end of the chunk. */
  lemma DataTaken(left: nat, s: string, trailer: bool)
    requires 0 < left < SIZE_MOD
    ensures |s| < left ==>
      Decode(Decoder(Data, left, 0, trailer), s) == More(Decoder(Data, left - |s|, 0, trailer), s)
    ensures |s| >= left ==>
      Decode(Decoder(Data, left, 0, trailer), s)
      == Decode(Decoder(DataCR, 0, 0, trailer), s[left..]).Prefixed(s[..left])
  {
    if |s| < left {
      DataMovesPartly(left, s, trailer);
    } else {
      assert s == s[..left] + s[left..];
      DataMoves(s[..left], trailer);
      SplitInvariance(Decoder(Data, left, 0, trailer), s[..left], s[left..]);
    }
  }

  /** memmove towards the front of one buffer; the two regions may overlap. */
  method MoveDown(buf: array<char>, dst: nat, src: nat, n: nat)
    requires dst <= src && src + n <= buf.Length
    modifies buf
    ensures buf[dst..dst + n] == old(buf[src..src + n])
    ensures forall i :: 0 <= i < dst || dst + n <= i < buf.Length ==> buf[i] == old(buf[i])
  {
    forall i | 0 <= i < n {
      buf[dst + i] := buf[src + i];
    }
  }

  lemma SizeRejected(d: Decoder, s: string)
    requires d.phase == Size && s != "" && (d.hex == MAX_HEX || DecodeHex(s[0]) == -1)
    requires DecodeHex(s[0]) == -1 ==> d.hex == 0 || s[0] !in {' ', '\t', ';', '\n', '\r'}
    ensures Decode(d, s) == Failed(d, "", s)
  {
  }

  lemma SizeEnded(d: Decoder, s: string)
    requires d.phase == Size && d.Valid() && s != "" && DecodeHex(s[0]) == -1
    requires d.hex != 0 && s[0] in {' ', '\t', ';', '\n', '\r'}
    ensures Decode(d, s) == Decode(d.(phase := Ext, hex := 0), s) && d.(phase := Ext, hex := 0).Valid()
  {
    StepValid(d, s[0]);
  }

  lemma Slice(buf: array<char>, i: nat, n: nat)
    requires i < n <= buf.Length
    ensures buf[i..n] != "" && buf[i..n][0] == buf[i] && buf[i..n][1..] == buf[i + 1..n]
  {
  }

  class ChunkedDecoder {
    var bytesLeft: nat
    var consumeTrailer: bool
    var hexCount: nat
    var state: Phase
    var totals: Totals

    constructor (trailer: bool)
      ensures View() == Start(trailer) && totals == Totals(0, 0)
    {
      bytesLeft, consumeTrailer, hexCount, state, totals := 0, trailer, 0, Size, Totals(0, 0);
    }

    function View(): Decoder
      reads this
    {
      Decoder(state, bytesLeft, hexCount, consumeTrailer)
    }

    /** What a case of the switch may do between buf[src] and buf[src']: go from decoder d to the
        present one without output. */
    ghost predicate Did(flow: Flow, d: Decoder, buf: array<char>, src: nat, src': nat, n: nat)
      requires n <= buf.Length
      reads this, buf
    {
      && src <= src' <= n
      && (flow == Complete ==> Decode(d, buf[src..n]) == Done(View(), "", buf[src'..n]))
      && (flow != Complete ==> Decode(d, buf[src..n]) == Decode(View(), buf[src'..n]))
      && (flow == Starved ==> src' == n)
      && (flow == Wrong ==> Decode(View(), buf[src'..n]) == Failed(View(), "", buf[src'..n]))
    }

    /** One digit more of the size. */
    method AddDigit(v: nat, ghost c: char)
      requires state == Size && View().Valid() && v == DecodeHex(c) && hexCount < MAX_HEX
      modifies this`bytesLeft, this`hexCount
      ensures Step(old(View()), c) == Keep(View()) && View().Valid()
    {
      StepValid(View(), c);
      bytesLeft := (bytesLeft * 16 + v) % SIZE_MOD;
      hexCount := hexCount + 1;
    }

    method ReadSize(buf: array<char>, start: nat, n: nat) returns (src: nat, flow: Flow)
      requires state == Size && View().Valid() && start <= n <= buf.Length
      modifies this`bytesLeft, this`hexCount, this`state
      ensures Did(flow, old(View()), buf, start, src, n) && View().Valid()
      ensures flow == Next ==> state == Ext && src < n
      ensures flow != Complete
    {
      src := start;
      while true
        invariant start <= src <= n && state == Size && View().Valid()
        invariant Decode(old(View()), buf[start..n]) == Decode(View(), buf[src..n])
        decreases n - src
      {
        if src == n {
          return src, Starved;
        }
        Slice(buf, src, n);
        var v := DecodeHex(buf[src]);
        if v == -1 {
          if hexCount == 0 || buf[src] !in {' ', '\t', ';', '\n', '\r'} {
            SizeRejected(View(), buf[src..n]);
            return src, Wrong;
          }
          SizeEnded(View(), buf[src..n]);
          break;
        }
        if hexCount == MAX_HEX {
          SizeRejected(View(), buf[src..n]);
          return src, Wrong;
        }
        AddDigit(v, buf[src]);
        src := src + 1;
      }
      hexCount := 0;
      state := Ext;
      flow := Next;
    }

    method ReadExt(buf: array<char>, start: nat, n: nat) returns (src: nat, flow: Flow)
      requires state == Ext && View().Valid() && start <= n <= buf.Length
      modifies this`state
      ensures Did(flow, old(View()), buf, start, src, n) && View().Valid()
      ensures flow == Next ==> state == HeaderLF && start < src
      ensures flow != Complete
    {
      src := start;
      while true
        invariant start <= src <= n && state == Ext && View() == old(View())
        invariant Decode(old(View()), buf[start..n]) == Decode(View(), buf[src..n])
        decreases n - src
      {
        if src == n {
          return src, Starved;
        }
        Slice(buf, src, n);
        if buf[src] == '\r' {
          break;
        } else if buf[src] == '\n' {
          return src, Wrong;
        }
        src := src + 1;
      }
      src := src + 1;
      state := HeaderLF;
      flow := Next;
    }

    method ReadHeaderLF(buf: array<char>, start: nat, n: nat) returns (src: nat, flow: Flow)
      requires state == HeaderLF && View().Valid() && start <= n <= buf.Length
      modifies this`state
      ensures Did(flow, old(View()), buf, start, src, n) && View().Valid()
      ensures flow == Next ==> start < src && (state == Data || state == TrailerHead)
    {
      src := start;
      if src == n {
        return src, Starved;
      }
      Slice(buf, src, n);
      if buf[src] != '\n' {
        return src, Wrong;
      }
      src := src + 1;
      if bytesLeft == 0 {
        if consumeTrailer {
          state := TrailerHead;
          return src, Next;
        } else {
          return src, Complete;
        }
      }
      state := Data;
      flow := Next;
    }

    /** Copies what there is of the chunk down to buf[dst..]. */
    method ReadData(buf: array<char>, start: nat, dst0: nat, n: nat) returns (src: nat, dst: nat, flow: Flow)
      requires state == Data && View().Valid() && dst0 <= start <= n <= buf.Length
      modifies this`bytesLeft, this`state, buf
      ensures start <= src <= n && dst0 <= dst <= src && View().Valid()
      ensures forall i :: 0 <= i < dst0 || src <= i < buf.Length ==> buf[i] == old(buf[i])
      ensures Decode(old(View()), old(buf[start..n])) == Decode(View(), buf[src..n]).Prefixed(buf[dst0..dst])
      ensures flow == Starved ==> src == n
      ensures flow == Next ==> state == DataCR
      ensures flow == Next || flow == Starved
    {
      var avail := n - start;
      DataTaken(bytesLeft, buf[start..n], consumeTrailer);
      if avail < bytesLeft {
        src, dst := CopyDown(buf, start, dst0, avail, n);
        bytesLeft := bytesLeft - avail;
        assert buf[src..n] == "";
        assert buf[dst0..dst] + "" == buf[dst0..dst];
        flow := Starved;
      } else {
        src, dst := CopyDown(buf, start, dst0, bytesLeft, n);
        bytesLeft := 0;
        state := DataCR;
        flow := Next;
      }
    }

    /** Copies k bytes down and moves both positions behind them. */
    static method CopyDown(buf: array<char>, src0: nat, dst0: nat, k: nat, n: nat) returns (src: nat, dst: nat)
      requires dst0 <= src0 && src0 + k <= n <= buf.Length
      modifies buf
      ensures src == src0 + k && dst == dst0 + k
      ensures buf[dst0..dst] == old(buf[src0..n])[..k]
      ensures buf[src..n] == old(buf[src0..n])[k..]
      ensures forall i :: 0 <= i < dst0 || src <= i < buf.Length ==> buf[i] == old(buf[i])
    {
      ghost var all := buf[..];
      TwoParts(all, src0, src0 + k, n);
      if dst0 != src0 {
        MoveDown(buf, dst0, src0, k);
      }
      src, dst := src0 + k, dst0 + k;
      assert buf[dst0..dst] == all[src0..src];
      assert buf[src..n] == all[src..n];
    }

    static lemma TwoParts(s: string, a: nat, b: nat, c: nat)
      requires a <= b <= c <= |s|
      ensures s[a..c][..b - a] == s[a..b] && s[a..c][b - a..] == s[b..c]
    {
      var x, y, z := s[a..c], s[a..b], s[b..c];
      forall i | 0 <= i < b - a ensures x[..b - a][i] == y[i] {
        assert x[i] == s[a + i] == y[i];
      }
      forall i | 0 <= i < c - b ensures x[b - a..][i] == z[i] {
        assert x[b - a + i] == s[b + i] == z[i];
      }
    }

    /** The CR or the LF after the data of a chunk. */
    method ReadDataEnd(buf: array<char>, start: nat, n: nat) returns (src: nat, flow: Flow)
      requires (state == DataCR || state == DataLF) && View().Valid() && start <= n <= buf.Length
      modifies this`state
      ensures Did(flow, old(View()), buf, start, src, n) && View().Valid()
      ensures flow == Next ==> start < src && state == if old(state) == DataCR then DataLF else Size
      ensures flow != Complete
    {
      src := start;
      if src == n {
        return src, Starved;
      }
      Slice(buf, src, n);
      if buf[src] != (if state == DataCR then '\r' else '\n') {
        return src, Wrong;
      }
      src := src + 1;
      state := if state == DataCR then DataLF else Size;
      flow := Next;
    }

    method ReadTrailerHead(buf: array<char>, start: nat, n: nat) returns (src: nat, flow: Flow)
      requires state == TrailerHead && View().Valid() && start <= n <= buf.Length
      modifies this`state
      ensures Did(flow, old(View()), buf, start, src, n) && View().Valid()
      ensures flow == Next ==> start < src && state == TrailerMiddle
      ensures flow != Wrong
    {
      src := start;
      while true
        invariant start <= src <= n && View() == old(View())
        invariant Decode(old(View()), buf[start..n]) == Decode(View(), buf[src..n])
        decreases n - src
      {
        if src == n {
          return src, Starved;
        }
        Slice(buf, src, n);
        if buf[src] != '\r' {
          break;
        }
        src := src + 1;
      }
      src := src + 1;
      if buf[src - 1] == '\n' {
        return src, Complete;
      }
      state := TrailerMiddle;
      flow := Next;
    }

    method ReadTrailerMiddle(buf: array<char>, start: nat, n: nat) returns (src: nat, flow: Flow)
      requires state == TrailerMiddle && View().Valid() && start <= n <= buf.Length
      modifies this`state
      ensures Did(flow, old(View()), buf, start, src, n) && View().Valid()
      ensures flow == Next ==> start < src && state == TrailerHead
      ensures flow == Next || flow == Starved
    {
      src := start;
      while true
        invariant start <= src <= n && View() == old(View())
        invariant Decode(old(View()), buf[start..n]) == Decode(View(), buf[src..n])
        decreases n - src
      {
        if src == n {
          return src, Starved;
        }
        Slice(buf, src, n);
        if buf[src] == '\n' {
          break;
        }
        src := src + 1;
      }
      src := src + 1;
      state := TrailerHead;
      flow := Next;
    }

    /** What holds at the head of the loop: the output so far followed by what the unread input
        decodes to is what the whole input decodes to, and the unread input is untouched. */
    static ghost predicate Halfway(d: Decoder, whole: Outcome, was: string, buf: array<char>, src: nat, dst: nat, n: nat)
      reads buf
    {
      && dst <= src <= n <= buf.Length == |was| && d.Valid()
      && (forall i :: src <= i < buf.Length ==> buf[i] == was[i])
      && whole == Decode(d, buf[src..n]).Prefixed(buf[..dst])
    }

    /** What holds when the loop ends. */
    static ghost predicate Ended(d: Decoder, whole: Outcome, was: string, buf: array<char>, src: nat, dst: nat, n: nat, flow: Flow)
      reads buf
    {
      && dst <= src <= n <= buf.Length == |was| && d.Valid()
      && (forall i :: src <= i < buf.Length ==> buf[i] == was[i])
      && (flow == Complete ==> whole == Done(d, buf[..dst], buf[src..n]))
      && (flow == Wrong ==> whole == Failed(d, buf[..dst], buf[src..n]))
      && (flow == Starved ==> src == n && whole == More(d, buf[..dst]))
      && flow != Next
    }

    lemma Continue(d: Decoder, whole: Outcome, was: string, buf: array<char>, src: nat, src': nat, dst: nat, n: nat, flow: Flow)
      requires Halfway(d, whole, was, buf, src, dst, n)
      requires View().Valid() && Did(flow, d, buf, src, src', n)
      ensures flow == Next ==> Halfway(View(), whole, was, buf, src', dst, n)
      ensures flow != Next ==> Ended(View(), whole, was, buf, src', dst, n, flow)
    {
      assert buf[..dst] + "" == buf[..dst];
      assert flow == Starved ==> buf[src'..n] == "";
    }

    /** The data case inside the loop. */
    method CopyData(ghost whole: Outcome, ghost was: string, buf: array<char>, src0: nat, dst0: nat, n: nat)
      returns (src: nat, dst: nat, flow: Flow)
      requires state == Data && Halfway(View(), whole, was, buf, src0, dst0, n)
      modifies this`bytesLeft, this`state, buf
      ensures src0 <= src && (flow == Next || flow == Starved)
      ensures flow == Next ==> state == DataCR && Halfway(View(), whole, was, buf, src, dst, n)
      ensures flow == Starved ==> Ended(View(), whole, was, buf, src, dst, n, flow)
    {
      ghost var before := buf[..dst0];
      src, dst, flow := ReadData(buf, src0, dst0, n);
      PrefixedTwice(Decode(View(), buf[src..n]), before, buf[dst0..dst]);
      assert buf[..dst] == before + buf[dst0..dst];
      if flow == Starved {
        assert buf[src..n] == "";
        assert buf[..dst] + "" == buf[..dst];
      }
    }

    /** The line that announces a chunk: size, extension, CR LF. */
    method Header(ghost whole: Outcome, ghost was: string, buf: array<char>, src0: nat, dst: nat, n: nat)
      returns (src: nat, flow: Flow)
      requires state in {Size, Ext, HeaderLF} && Halfway(View(), whole, was, buf, src0, dst, n)
      modifies this`bytesLeft, this`hexCount, this`state
      ensures flow == Next ==> src0 < src && state in {Data, TrailerHead}
      ensures flow == Next ==> Halfway(View(), whole, was, buf, src, dst, n)
      ensures flow != Next ==> Ended(View(), whole, was, buf, src, dst, n, flow)
    {
      src := src0;
      if state == Size {
        ghost var d := View();
        src, flow := ReadSize(buf, src0, n);
        Continue(d, whole, was, buf, src0, src, dst, n, flow);
        if flow != Next { return; }
      }
      if state == Ext {
        ghost var d, src1 := View(), src;
        src, flow := ReadExt(buf, src, n);
        Continue(d, whole, was, buf, src1, src, dst, n, flow);
        if flow != Next { return; }
      }
      ghost var d, src1 := View(), src;
      src, flow := ReadHeaderLF(buf, src, n);
      Continue(d, whole, was, buf, src1, src, dst, n, flow);
    }

    /** The end of a chunk: CR, then LF, then the next size. */
    method ChunkEnd(ghost whole: Outcome, ghost was: string, buf: array<char>, src0: nat, dst: nat, n: nat)
      returns (src: nat, flow: Flow)
      requires state in {DataCR, DataLF} && Halfway(View(), whole, was, buf, src0, dst, n)
      modifies this`state
      ensures flow == Next ==> src0 < src && Halfway(View(), whole, was, buf, src, dst, n)
      ensures flow != Next ==> Ended(View(), whole, was, buf, src, dst, n, flow)
    {
      src := src0;
      if state == DataCR {
        ghost var d := View();
        src, flow := ReadDataEnd(buf, src0, n);
        Continue(d, whole, was, buf, src0, src, dst, n, flow);
        if flow != Next { return; }
      }
      ghost var d, src1 := View(), src;
      src, flow := ReadDataEnd(buf, src, n);
      Continue(d, whole, was, buf, src1, src, dst, n, flow);
    }

    /** A line of the trailer. */
    method Trailer(ghost whole: Outcome, ghost was: string, buf: array<char>, src0: nat, dst: nat, n: nat)
      returns (src: nat, flow: Flow)
      requires state in {TrailerHead, TrailerMiddle} && Halfway(View(), whole, was, buf, src0, dst, n)
      modifies this`state
      ensures flow == Next ==> src0 < src && Halfway(View(), whole, was, buf, src, dst, n)
      ensures flow != Next ==> Ended(View(), whole, was, buf, src, dst, n, flow)
    {
      src := src0;
      if state == TrailerHead {
        ghost var d := View();
        src, flow := ReadTrailerHead(buf, src0, n);
        Continue(d, whole, was, buf, src0, src, dst, n, flow);
        if flow != Next { return; }
      }
      ghost var d, src1 := View(), src;
      src, flow := ReadTrailerMiddle(buf, src, n);
      Continue(d, whole, was, buf, src1, src, dst, n, flow);
    }

    /** The loop: the write position never passes the read position, so compaction never touches
        input that is still unread. */
    method Loop(buf: array<char>, n: nat) returns (src: nat, dst: nat, flow: Flow)
      requires View().Valid() && n <= buf.Length
      modifies this`bytesLeft, this`hexCount, this`state, buf
      ensures Ended(View(), Decode(old(View()), old(buf[..n])), old(buf[..]), buf, src, dst, n, flow)
    {
      ghost var whole := Decode(View(), buf[..n]);
      ghost var was := buf[..];
      src, dst := 0, 0;
      assert buf[0..n] == buf[..n] && buf[..0] == "";
      PrefixedTwice(whole, "", "");
      while true
        invariant Halfway(View(), whole, was, buf, src, dst, n)
        decreases n - src
      {
        if state in {Size, Ext, HeaderLF} {
          src, flow := Header(whole, was, buf, src, dst, n);
          if flow != Next { return; }
          if state == TrailerHead { continue; }
        }
        if state == Data {
          src, dst, flow := CopyData(whole, was, buf, src, dst, n);
          if flow != Next { return; }
        }
        if state in {DataCR, DataLF} {
          src, flow := ChunkEnd(whole, was, buf, src, dst, n);
        } else {
          src, flow := Trailer(whole, was, buf, src, dst, n);
        }
        if flow != Next { return; }
      }
    }

    /** phr_decode_chunked.  The decoded data replaces the front of the buffer and is followed by
        exactly the bytes that were not consumed; nothing behind the input is touched.  The return
        value is the number of bytes left over, -1 for an error or -2 for "send more". */
    method PhrDecodeChunked(buf: array<char>, n: nat) returns (ret: int, size: nat)
      requires View().Valid() && n <= buf.Length
      modifies this, buf
      ensures
        var o := Decode(old(View()), old(buf[..n]));
        && View() == o.d && View().Valid()
        && size == |o.out| <= n && buf[..size] == o.out
        && totals == Charge(old(totals), n, o)
        && (forall i :: n <= i < buf.Length ==> buf[i] == old(buf[i]))
        && (o.More? ==> ret == if totals.Tripped() then -1 else -2)
        && (o.Done? ==> ret == |o.rest| && size + ret <= n && buf[size..size + ret] == o.rest)
        && (o.Failed? ==> ret == -1 && size + |o.rest| <= n && buf[size..size + |o.rest|] == o.rest)
    {
      totals := totals.(read := (totals.read + n) % SIZE_MOD);
      var rest, flow;
      size, rest, flow := LoopAndCompact(buf, n);
      ret := if flow == Complete then rest else if flow == Wrong then -1 else -2;
      if ret == -2 {
        var tripped := Account(n - size);
        if tripped {
          ret := -1;
        }
      }
    }

    /** The loop, and the memmove that puts the undecoded bytes behind the data. */
    method LoopAndCompact(buf: array<char>, n: nat) returns (size: nat, rest: nat, flow: Flow)
      requires View().Valid() && n <= buf.Length
      modifies this`bytesLeft, this`hexCount, this`state, buf
      ensures var o := Decode(old(View()), old(buf[..n]));
        && View() == o.d && View().Valid() && size == |o.out| && size + rest <= n && buf[..size] == o.out
        && (forall i :: n <= i < buf.Length ==> buf[i] == old(buf[i]))
        && (flow == Starved <==> o.More?) && (flow == Wrong <==> o.Failed?) && (flow == Complete <==> o.Done?)
        && (!o.More? ==> rest == |o.rest| && buf[size..size + rest] == o.rest)
    {
      var src, dst;
      src, dst, flow := Loop(buf, n);
      size, rest := dst, n - src;
      ghost var data := buf[..dst];
      if dst != src {
        MoveDown(buf, dst, src, n - src);
      }
      assert buf[..dst] == data;
    }

    /** The bytes of a call that were not data count as overhead, and there is a limit to it. */
    method Account(more: nat) returns (tripped: bool)
      modifies this`totals
      ensures totals == old(totals).(overhead := (old(totals).overhead + more) % SIZE_MOD)
      ensures tripped == totals.Tripped()
    {
      totals := totals.(overhead := (totals.overhead + more) % SIZE_MOD);
      tripped := totals.Tripped();
    }
  }
}
