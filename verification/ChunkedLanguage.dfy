/** Which byte strings the decoder of chunked messages accepts: exactly the encodings.

    Module Chunked proves that an encoding is decoded; here a message that the decoder completes is
    taken apart again, and an input that it rejects is shown to be the beginning of no message. */
module ChunkedLanguage {
  import opened Chunked

  /** The part `a` in front of the input has been decoded. */
  lemma Peel(d: Decoder, s: string, k: nat, d1: Decoder, out: string)
    requires k <= |s| && Moves(d, s[..k], d1, out)
    ensures Decode(d, s) == Decode(d1, s[k..]).Prefixed(out)
  {
    assert s == s[..k] + s[k..];
    SplitInvariance(d, s[..k], s[k..]);
  }

  lemma PeelSilently(d: Decoder, s: string, k: nat, d1: Decoder)
    requires k <= |s| && Moves(d, s[..k], d1, "")
    ensures Decode(d, s) == Decode(d1, s[k..])
  {
    Peel(d, s, k, d1, "");
    PrefixedTwice(Decode(d1, s[k..]), "", "");
  }

  // ------------------------------------------------------------------ the line that announces a chunk

  /** Where the hexadecimal digits end. */
  lemma {:induction false} DigitSpan(s: string) returns (k: nat)
    ensures k <= |s| && AllHex(s[..k]) && (k < |s| ==> DecodeHex(s[k]) == -1)
    decreases |s|
  {
    if s == "" || DecodeHex(s[0]) == -1 {
      k := 0;
    } else {
      var k1 := DigitSpan(s[1..]);
      k := k1 + 1;
      assert s[..k] == [s[0]] + s[1..][..k1];
    }
  }

  /** Where the line ends. */
  lemma {:induction false} LineSpan(s: string) returns (k: nat)
    ensures k <= |s| && (forall i :: 0 <= i < k ==> s[i] != '\r' && s[i] != '\n')
    ensures k < |s| ==> s[k] == '\r' || s[k] == '\n'
    decreases |s|
  {
    if s == "" || s[0] == '\r' || s[0] == '\n' {
      k := 0;
    } else {
      var k1 := LineSpan(s[1..]);
      k := k1 + 1;
    }
  }

  /** The size of a chunk is one to sixteen digits. */
  lemma SizeShape(s: string, trailer: bool) returns (k: nat)
    requires Decode(Start(trailer), s).Done?
    ensures 1 <= k <= 16 && k < |s| && AllHex(s[..k]) && DecodeHex(s[k]) == -1
    ensures Decode(Start(trailer), s) == Decode(Decoder(Size, HexValue(s[..k]), k, trailer), s[k..])
  {
    k := DigitSpan(s);
    var n := if k > 16 then 16 else k;
    assert s[..k][..n] == s[..n];
    DigitsMove(s[..n], trailer);
    PeelSilently(Start(trailer), s, n, Decoder(Size, HexValue(s[..n]), n, trailer));
    if k > 16 {
      assert false;
    }
  }

  /** Behind it there is an extension or nothing, and then a carriage return. */
  lemma ExtShape(v: nat, n: nat, s: string, trailer: bool) returns (k: nat)
    requires 1 <= n <= 16 && s != "" && DecodeHex(s[0]) == -1
    requires Decode(Decoder(Size, v, n, trailer), s).Done?
    ensures k < |s| && s[k] == '\r' && ExtOk(s[..k])
    ensures Decode(Decoder(Size, v, n, trailer), s) == Decode(Decoder(HeaderLF, v, 0, trailer), s[k + 1..])
  {
    k := LineSpan(s);
    var ext := s[..k];
    var d, e := Decoder(Size, v, n, trailer), Decoder(Ext, v, 0, trailer);
    if k > 0 {
      assert Step(d, s[0]) == Keep(e);
      ExtMoves(e, ext[1..]);
      assert ext == [s[0]] + ext[1..];
      assert Moves(d, ext, e, "");
      PeelSilently(d, s, k, e);
    }
    if k < |s| && s[k] == '\r' {
      AfterDigits(v, n, ext, trailer);
      assert s[..k + 1] == ext + "\r";
      PeelSilently(d, s, k + 1, Decoder(HeaderLF, v, 0, trailer));
    } else if k < |s| {
      assert false;
    } else {
      assert false;
    }
  }

  lemma HeadText(s: string, n: nat, m: nat)
    requires n + m < |s| && s[n..][m] == '\r'
    ensures s[n..][m + 1..] == s[n + m + 1..] && s[..n + m + 1] == s[..n] + s[n..][..m] + "\r"
  {
  }

  lemma FeedNext(v: nat, s: string, trailer: bool)
    requires Decode(Decoder(HeaderLF, v, 0, trailer), s).Done?
    ensures s != "" && s[0] == '\n'
  {
  }

  /** The line that announces a chunk of n bytes, up to the line feed. */
  lemma HeadShape(s: string, trailer: bool) returns (digits: string, ext: string, k: nat)
    requires Decode(Start(trailer), s).Done?
    ensures 1 <= |digits| <= 16 && AllHex(digits) && ExtOk(ext) && HexValue(digits) < SIZE_MOD
    ensures k < |s| && s[..k] == digits + ext + "\r" && s[k] == '\n'
    ensures Decode(Start(trailer), s) == Decode(Decoder(HeaderLF, HexValue(digits), 0, trailer), s[k..])
  {
    var n := SizeShape(s, trailer);
    digits := s[..n];
    var v := HexValue(digits);
    DigitsMove(digits, trailer);
    var m := ExtShape(v, n, s[n..], trailer);
    ext := s[n..][..m];
    k := n + m + 1;
    HeadText(s, n, m);
    FeedNext(v, s[k..], trailer);
  }

  // ------------------------------------------------------------------ the data

  /** The announced bytes follow, and a line end. */
  lemma DataShape(v: nat, s: string, trailer: bool)
    requires 0 < v < SIZE_MOD && Decode(Decoder(Data, v, 0, trailer), s).Done?
    ensures v + 2 <= |s| && s[v] == '\r' && s[v + 1] == '\n'
    ensures Decode(Decoder(Data, v, 0, trailer), s) == Decode(Start(trailer), s[v + 2..]).Prefixed(s[..v])
  {
    var d := Decoder(Data, v, 0, trailer);
    if |s| < v {
      DataMovesPartly(v, s, trailer);
      assert false;
    } else {
      DataMoves(s[..v], trailer);
      Peel(d, s, v, Decoder(DataCR, 0, 0, trailer), s[..v]);
      LineEndShape(s[v..], trailer);
      assert s[v..][2..] == s[v + 2..];
    }
  }

  lemma LineEndShape(s: string, trailer: bool)
    requires Decode(Decoder(DataCR, 0, 0, trailer), s).Done?
    ensures |s| >= 2 && s[0] == '\r' && s[1] == '\n'
    ensures Decode(Decoder(DataCR, 0, 0, trailer), s) == Decode(Start(trailer), s[2..])
  {
    if |s| >= 2 {
      assert s[1..][0] == s[1] && s[1..][1..] == s[2..];
    }
  }

  lemma ChunkText(s: string, k: nat, v: nat, c: Chunk)
    requires k + v + 3 <= |s| && s[..k] == c.digits + c.ext + "\r" && s[k + 1..k + 1 + v] == c.data
    requires s[k] == '\n' && s[k + 1 + v] == '\r' && s[k + 2 + v] == '\n'
    ensures s[..k + v + 3] == EncodeChunk(c)
  {
    assert s[..k + v + 3] == s[..k] + "\n" + s[k + 1..k + 1 + v] + "\r\n";
    assert c.digits + c.ext + "\r" + "\n" == c.digits + c.ext + "\r\n";
  }

  /** A chunk, when the announced size is not 0. */
  lemma ChunkShape(s: string, trailer: bool, digits: string, ext: string, k: nat) returns (c: Chunk, m: nat)
    requires AllHex(digits) && 1 <= |digits| <= 16 && ExtOk(ext) && 0 < HexValue(digits) < SIZE_MOD
    requires k < |s| && s[..k] == digits + ext + "\r" && s[k] == '\n'
    requires Decode(Decoder(HeaderLF, HexValue(digits), 0, trailer), s[k..]).Done?
    ensures c.WellFormed() && c.data != "" && 0 < m <= |s| && s[..m] == EncodeChunk(c)
    ensures Decode(Decoder(HeaderLF, HexValue(digits), 0, trailer), s[k..]) ==
            Decode(Start(trailer), s[m..]).Prefixed(c.data)
  {
    var v := HexValue(digits);
    var t := s[k + 1..];
    assert s[k..][0] == '\n' && s[k..][1..] == t;
    DataShape(v, t, trailer);
    c := Chunk(digits, ext, t[..v]);
    m := k + 1 + v + 2;
    assert t[v + 2..] == s[m..] && s[k + 1..k + 1 + v] == t[..v];
    ChunkText(s, k, v, c);
  }

  // ------------------------------------------------------------------ the trailer

  /** Where the line feed is. */
  lemma {:induction false} FeedSpan(s: string) returns (k: nat)
    ensures k <= |s| && (forall i :: 0 <= i < k ==> s[i] != '\n') && (k < |s| ==> s[k] == '\n')
    decreases |s|
  {
    if s == "" || s[0] == '\n' {
      k := 0;
    } else {
      var k1 := FeedSpan(s[1..]);
      k := k1 + 1;
    }
  }

  /** The trailer is a list of lines, and a line of nothing but carriage returns. */
  lemma {:induction false} TrailerShape(s: string) returns (lines: seq<string>, end: string, rest: string)
    requires Decode(Decoder(TrailerHead, 0, 0, true), s).Done?
    ensures AllCr(end) && (forall i :: 0 <= i < |lines| ==> LineOk(lines[i]))
    ensures s == EncodeTrailer(lines, end) + rest
    ensures Decode(Decoder(TrailerHead, 0, 0, true), s).out == "" && Decode(Decoder(TrailerHead, 0, 0, true), s).rest == rest
    decreases |s|
  {
    var k := FeedSpan(s);
    if k == |s| {
      LineMoves(s);
      assert false;
    } else {
      var line, more := s[..k], s[k + 1..];
      OneLine(line, more);
      assert s == line + "\n" + more;
      if AllCr(line) {
        lines, end, rest := [], line, more;
      } else {
        var lines1;
        lines1, end, rest := TrailerShape(more);
        lines := [line] + lines1;
        assert lines[1..] == lines1;
        assert s == line + "\n" + (EncodeTrailer(lines1, end) + rest);
      }
    }
  }

  // ------------------------------------------------------------------ the whole message

  /** What may be decoded: chunks, a last one without data, and the trailer when it is consumed. */
  predicate Message(cs: seq<Chunk>, last: Chunk, lines: seq<string>, end: string) {
    && (forall i :: 0 <= i < |cs| ==> cs[i].WellFormed() && cs[i].data != "")
    && last.WellFormed() && last.data == ""
    && AllCr(end) && (forall i :: 0 <= i < |lines| ==> LineOk(lines[i]))
  }

  function Encoding(cs: seq<Chunk>, last: Chunk, trailer: bool, lines: seq<string>, end: string): string {
    EncodeChunks(cs) + (last.digits + last.ext + "\r\n") + if trailer then EncodeTrailer(lines, end) else ""
  }

  /** Behind the last chunk. */
  lemma EndShape(s: string, trailer: bool)
    returns (lines: seq<string>, end: string, rest: string)
    requires s != "" && s[0] == '\n' && Decode(Decoder(HeaderLF, 0, 0, trailer), s).Done?
    ensures AllCr(end) && (forall i :: 0 <= i < |lines| ==> LineOk(lines[i]))
    ensures s == "\n" + (if trailer then EncodeTrailer(lines, end) else "") + rest
    ensures var o := Decode(Decoder(HeaderLF, 0, 0, trailer), s); o.out == "" && o.rest == rest
  {
    if trailer {
      lines, end, rest := TrailerShape(s[1..]);
      assert s == "\n" + (EncodeTrailer(lines, end) + rest);
    } else {
      lines, end, rest := [], "", s[1..];
      assert s == "\n" + s[1..];
    }
  }

  lemma LastText(last: Chunk, t: string, rest: string)
    ensures (last.digits + last.ext + "\r") + ("\n" + t + rest) == EncodeChunks([]) + (last.digits + last.ext + "\r\n") + t + rest
  {
  }

  lemma MoreText(c: Chunk, cs: seq<Chunk>, last: Chunk, trailer: bool, lines: seq<string>, end: string, rest: string)
    ensures EncodeChunk(c) + (Encoding(cs, last, trailer, lines, end) + rest) ==
            Encoding([c] + cs, last, trailer, lines, end) + rest
    ensures Payload([c] + cs) == c.data + Payload(cs)
  {
    assert ([c] + cs)[1..] == cs;
    var t := (last.digits + last.ext + "\r\n") + if trailer then EncodeTrailer(lines, end) else "";
    assert Encoding(cs, last, trailer, lines, end) == EncodeChunks(cs) + t;
    assert Encoding([c] + cs, last, trailer, lines, end) == EncodeChunk(c) + EncodeChunks(cs) + t;
  }

  /** Whatever the decoder completes is the encoding of a message: its output is the data of the chunks,
      and what it leaves is what follows the message. */
  lemma {:induction false} MessageShape(s: string, trailer: bool)
    returns (cs: seq<Chunk>, last: Chunk, lines: seq<string>, end: string, rest: string)
    requires Decode(Start(trailer), s).Done?
    ensures Message(cs, last, lines, end) && s == Encoding(cs, last, trailer, lines, end) + rest
    ensures Decode(Start(trailer), s).out == Payload(cs) && Decode(Start(trailer), s).rest == rest
    decreases |s|
  {
    var digits, ext, k := HeadShape(s, trailer);
    if HexValue(digits) == 0 {
      lines, end, rest := EndShape(s[k..], trailer);
      cs, last := [], Chunk(digits, ext, "");
      LastText(last, if trailer then EncodeTrailer(lines, end) else "", rest);
      assert s == s[..k] + s[k..];
    } else {
      var c, m := ChunkShape(s, trailer, digits, ext, k);
      var cs1;
      cs1, last, lines, end, rest := MessageShape(s[m..], trailer);
      cs := [c] + cs1;
      MoreText(c, cs1, last, trailer, lines, end, rest);
      assert s == s[..m] + s[m..];
    }
  }

  /** And it completes all of them: the converse, on the very same strings. */
  lemma MessageAccepted(cs: seq<Chunk>, last: Chunk, lines: seq<string>, end: string, trailer: bool, rest: string)
    requires Message(cs, last, lines, end)
    ensures var o := Decode(Start(trailer), Encoding(cs, last, trailer, lines, end) + rest);
      o.Done? && o.out == Payload(cs) && o.rest == rest
  {
    if trailer {
      DecodeUndoesEncode(cs, last, lines, end, true, rest);
    } else {
      var back := "\n" + rest;
      assert back[1..] == rest;
      FrontMoves(cs, last, false);
      FinishAfter(Start(false), EncodeChunks(cs) + (last.digits + last.ext + "\r"), Decoder(HeaderLF, 0, 0, false),
                  Payload(cs), back);
      assert EncodeChunks(cs) + (last.digits + last.ext + "\r") + back == Encoding(cs, last, false, lines, end) + rest;
    }
  }

  // ------------------------------------------------------------------ rejection

  lemma Before(d: Decoder, a: string, d1: Decoder, out: string, t: string)
    requires Moves(d, a, d1, out) && Decode(d1, t).Done?
    ensures Decode(d, a + t).Done?
  {
    SplitInvariance(d, a, t);
  }

  lemma OneByte(d: Decoder, c: char, d1: Decoder, t: string)
    requires Step(d, c) == Keep(d1) && Decode(d1, t).Done?
    ensures Decode(d, [c] + t).Done?
  {
    assert ([c] + t)[1..] == t;
  }

  lemma FromStart(trailer: bool) returns (t: string)
    ensures Decode(Start(trailer), t).Done?
  {
    var last := Chunk("0", "", "");
    assert HexValue("0") == 0 by {
      assert "0"[..0] == "";
    }
    MessageAccepted([], last, [], "", trailer, "");
    t := Encoding([], last, trailer, [], "") + "";
  }

  lemma FromLineEnd(trailer: bool) returns (t: string)
    ensures Decode(Decoder(DataCR, 0, 0, trailer), t).Done? && t != "" && t[0] == '\r'
    ensures Decode(Decoder(DataLF, 0, 0, trailer), t[1..]).Done?
  {
    var more := FromStart(trailer);
    OneByte(Decoder(DataLF, 0, 0, trailer), '\n', Start(trailer), more);
    OneByte(Decoder(DataCR, 0, 0, trailer), '\r', Decoder(DataLF, 0, 0, trailer), "\n" + more);
    t := "\r" + ("\n" + more);
    assert t[1..] == "\n" + more;
  }

  lemma FromData(v: nat, trailer: bool) returns (t: string)
    requires 0 < v < SIZE_MOD
    ensures Decode(Decoder(Data, v, 0, trailer), t).Done?
  {
    var more := FromLineEnd(trailer);
    var data := seq(v, _ => ' ');
    DataMoves(data, trailer);
    Before(Decoder(Data, v, 0, trailer), data, Decoder(DataCR, 0, 0, trailer), data, more);
    t := data + more;
  }

  lemma FromFeed(v: nat, trailer: bool) returns (t: string)
    requires v < SIZE_MOD
    ensures Decode(Decoder(HeaderLF, v, 0, trailer), t).Done?
  {
    if v > 0 {
      var more := FromData(v, trailer);
      OneByte(Decoder(HeaderLF, v, 0, trailer), '\n', Decoder(Data, v, 0, trailer), more);
      t := "\n" + more;
    } else if trailer {
      OneLine("", "");
      OneByte(Decoder(HeaderLF, v, 0, trailer), '\n', Decoder(TrailerHead, 0, 0, true), "" + "\n" + "");
      t := "\n" + ("" + "\n" + "");
    } else {
      t := "\n";
    }
  }

  /** From every reachable decoder state some input completes a message. */
  lemma Completable(d: Decoder) returns (t: string)
    requires d.Valid()
    ensures Decode(d, t).Done?
  {
    match d.phase {
      case Size =>
        if d.hex == 0 {
          t := FromStart(d.trailer);
        } else {
          var more := FromFeed(d.left, d.trailer);
          OneByte(d, '\r', Decoder(HeaderLF, d.left, 0, d.trailer), more);
          t := "\r" + more;
        }
      case Ext =>
        var more := FromFeed(d.left, d.trailer);
        OneByte(d, '\r', Decoder(HeaderLF, d.left, 0, d.trailer), more);
        t := "\r" + more;
      case HeaderLF => t := FromFeed(d.left, d.trailer);
      case Data => t := FromData(d.left, d.trailer);
      case DataCR => t := FromLineEnd(d.trailer);
      case DataLF =>
        var more := FromLineEnd(d.trailer);
        t := more[1..];
      case TrailerHead => t := "\n";
      case TrailerMiddle =>
        t := "\n\n";
        assert t[1..] == "\n";
    }
  }

  /** A stream is rejected exactly when no continuation of it holds a message. */
  lemma RejectedForGood(s: string, trailer: bool)
    ensures Decode(Start(trailer), s).Failed? <==> forall t :: !Decode(Start(trailer), s + t).Done?
  {
    var o := Decode(Start(trailer), s);
    if o.Failed? {
      forall t ensures !Decode(Start(trailer), s + t).Done? {
        SplitInvariance(Start(trailer), s, t);
      }
    } else if o.Done? {
      assert s + "" == s;
    } else {
      StartValid(trailer);
      DecodeValid(Start(trailer), s);
      var t := Completable(o.d);
      SplitInvariance(Start(trailer), s, t);
      assert Decode(Start(trailer), s + t).Done?;
    }
  }

  lemma StartValid(trailer: bool)
    ensures Start(trailer).Valid()
  {
    assert Pow16(0) == 1;
  }
}
