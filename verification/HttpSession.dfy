/** The receive loop of src/Http/HttpSession.cc, over the read loop of src/Stream.cc. */
module HttpSession {
  import opened RequestParser
  import opened HeaderMap
  import opened Http
  import opened Common

  const BUFFER: nat := 4096
  const CONTENT_LENGTH := "Content-Length"

  // ------------------------------------------------------------------ segments

  /** The segments in which the bytes of a stream arrive: every way in which the network can cut it. */
  predicate Cuts(segments: seq<string>, s: string) {
    NoneEmpty(segments) && Concat(segments) == s
  }

  predicate NoneEmpty(segments: seq<string>) {
    forall i :: 0 <= i < |segments| ==> segments[i] != ""
  }

  /** What one read of at most `room` bytes leaves to arrive: it ends with the first segment, or in the
      middle of it. */
  function AfterRead(segments: seq<string>, room: nat): seq<string>
    requires segments != []
  {
    if |segments[0]| <= room then segments[1..] else [segments[0][room..]] + segments[1..]
  }

  function Least(a: nat, b: nat): nat { if a < b then a else b }

  /** How many bytes are in the receive buffer when there are at least r of them, with `have` there
      already: the loop of recvRequest stops reading then. */
  function Reads(segments: seq<string>, have: nat, r: nat): (n: nat)
    requires have <= BUFFER
    ensures have <= n <= BUFFER && n <= have + |Concat(segments)|
    ensures r <= BUFFER && r <= have + |Concat(segments)| ==> r <= n
  {
    if have >= r || segments == [] then have
    else if |segments[0]| <= BUFFER - have then Reads(segments[1..], have + |segments[0]|, r)
    else BUFFER
  }

  /** One read more changes nothing about where the reading ends. */
  lemma ReadsStep(segments: seq<string>, have: nat, r: nat)
    requires NoneEmpty(segments) && segments != [] && have < r && have < BUFFER
    ensures NoneEmpty(AfterRead(segments, BUFFER - have))
    ensures Reads(AfterRead(segments, BUFFER - have), have + Least(|segments[0]|, BUFFER - have), r) == Reads(segments, have, r)
  {
    var room := BUFFER - have;
    var after := AfterRead(segments, room);
    if |segments[0]| <= room {
      assert forall i :: 0 <= i < |after| ==> after[i] == segments[i + 1];
    } else {
      assert forall i :: 1 <= i < |after| ==> after[i] == segments[i];
      assert |after[0]| > 0 && Reads(after, BUFFER, r) == BUFFER;
    }
  }

  /** A connected socket: the segments that will arrive, and whether the connection then fails or is
      finished by the peer. */
  class Socket {
    var segments: seq<string>
    const broken: bool
    var open: bool

    constructor (segments: seq<string>, broken: bool)
      ensures this.segments == segments && this.broken == broken
    {
      this.segments, this.broken, this.open := segments, broken, true;
    }

    predicate Valid()
      reads this
    {
      NoneEmpty(segments)
    }

    function Stream(): string
      reads this
    {
      Concat(segments)
    }

    /** What recv returns when nothing arrives any more. */
    function AtEnd(): int { if broken then -1 else 0 }

    /** recv: the bytes of one segment, as far as there is room for them. */
    method Recv(buf: array<char>, offset: nat, room: nat) returns (len: int)
      requires Valid() && offset + room <= buf.Length && room > 0
      modifies this`segments, buf
      ensures Valid() && len <= room && len <= |old(Stream())|
      ensures len > 0 ==> Stream() == old(Stream())[len..] && buf[offset..offset + len] == old(Stream())[..len]
      ensures len <= 0 ==> Stream() == old(Stream()) == ""
      ensures old(segments) == [] ==> len == AtEnd() && segments == []
      ensures old(segments) != [] ==> len == Least(|old(segments)[0]|, room) > 0 && segments == AfterRead(old(segments), room)
      ensures forall i :: 0 <= i < buf.Length && (i < offset || offset + len <= i) ==> buf[i] == old(buf[i])
    {
      if segments == [] {
        len := if broken then -1 else 0;
        return;
      }
      var s := segments[0];
      len := if |s| <= room then |s| else room;
      forall i | 0 <= i < len {
        buf[offset + i] := s[i];
      }
      assert Stream() == s[..len] + (s[len..] + Concat(segments[1..]));
      if len == |s| {
        assert s[len..] + Concat(segments[1..]) == Concat(segments[1..]);
        segments := segments[1..];
      } else {
        segments := [s[len..]] + segments[1..];
      }
    }

    method Close()
      modifies this`open
      ensures !open
    {
      open := false;
    }

    /** readfixsize: the number of bytes asked for, as an int - or what recv returned when the stream
        ends early. */
    method ReadFixSize(buf: array<char>, start: nat, len: nat) returns (ret: int)
      requires Valid() && start + len <= buf.Length
      modifies this`segments, buf
      ensures Valid()
      ensures forall i :: 0 <= i < start || start + len <= i < buf.Length ==> buf[i] == old(buf[i])
      ensures len <= |old(Stream())| ==>
        ret == ToInt(len) && buf[start..start + len] == old(Stream())[..len] && Stream() == old(Stream())[len..]
      ensures len > |old(Stream())| ==> ret == AtEnd() && Stream() == ""
    {
      ghost var s := Stream();
      var offset: nat := 0;
      while offset < len
        invariant offset <= len && offset <= |s| && Valid() && Stream() == s[offset..]
        invariant buf[start..start + offset] == s[..offset]
        invariant forall i :: 0 <= i < start || start + len <= i < buf.Length ==> buf[i] == old(buf[i])
      {
        ret := ReadPart(buf, start, offset, len - offset, s);
        if ret <= 0 {
          return;
        }
        offset := offset + ret;
      }
      ret := ToInt(len);
    }

    /** One read, behind the bytes that have been read before. */
    method ReadPart(buf: array<char>, start: nat, offset: nat, left: nat, ghost s: string) returns (ret: int)
      requires Valid() && left > 0 && start + offset + left <= buf.Length
      requires offset <= |s| && Stream() == s[offset..] && buf[start..start + offset] == s[..offset]
      modifies this`segments, buf
      ensures Valid() && ret <= left
      ensures ret <= 0 ==> ret == AtEnd() && Stream() == "" && offset == |s|
      ensures ret > 0 ==>
                && offset + ret <= |s| && Stream() == s[offset + ret..]
                && buf[start..start + (offset + ret)] == s[..offset + ret]
      ensures forall i :: 0 <= i < buf.Length && (i < start || start + offset + left <= i) ==> buf[i] == old(buf[i])
    {
      ghost var before := buf[start..start + offset];
      ret := Recv(buf, start + offset, left);
      if ret > 0 {
        assert buf[start..start + offset] == before;
        assert buf[start..start + (offset + ret)] == before + buf[start + offset..start + offset + ret];
        Pieces(s, 0, offset, ret);
        assert s[..offset + ret] == s[0..offset + ret] && s[..offset] == s[0..offset];
      }
    }
  }

  // ------------------------------------------------------------------ what is received

  /** The length of the body: std::stoll on the header, 0 when it is missing or unreadable. */
  function ContentLength(headers: Map, stoll: string -> Option<int>): int {
    var text := GetOr(headers, CONTENT_LENGTH, "");
    if text == "" then 0 else match stoll(text) { case Some(n) => n case None => 0 }
  }

  /** What becomes of a request whose head ends at r, when `over` bytes behind it were received
      together with it. */
  function WithBody(req: Req, s: string, r: nat, over: nat, length: int): Option<Req>
    requires r + over <= |s|
  {
    if length <= 0 then Some(req)
    else if length <= over || (r + length <= |s| && 0 < ToInt(length - over)) then
      Some(req.(body := s[r..r + length]))
    else None
  }

  /** The condition under which it does not matter how many bytes were over-read: the length fits
      an int, or its low 32 bits stay clear of the two places where an int changes sign. */
  predicate Indifferent(length: int, room: nat) {
    length <= INT_MAX
    || var low := length % INT_MOD; low == 0 || room < low <= INT_MAX || low > INT_MAX + room
  }

  lemma ToIntPositive(x: int)
    requires x >= 0
    ensures 0 < ToInt(x) <==> 0 < x % INT_MOD <= INT_MAX
  {
    ToIntIs(x);
  }

  lemma LowMinus(x: int, o: nat)
    requires x >= INT_MAX && o < BUFFER
    ensures (x - o) % INT_MOD == if o <= x % INT_MOD then x % INT_MOD - o else x % INT_MOD - o + INT_MOD
  {
    var low := x % INT_MOD;
    var k := x / INT_MOD;
    assert x == INT_MOD * k + low;
    if o <= low {
      assert x - o == INT_MOD * k + (low - o);
    } else {
      assert x - o == INT_MOD * (k - 1) + (low - o + INT_MOD);
    }
  }

  predicate Arrives(length: int, over: nat) {
    length <= over || 0 < ToInt(length - over)
  }

  lemma ArrivesIff(req: Req, s: string, r: nat, over: nat, length: int)
    requires r + over <= |s| && r + length <= |s|
    ensures WithBody(req, s, r, over, length)
         == if !Arrives(length, over) then None
            else if length <= 0 then Some(req) else Some(req.(body := s[r..r + length]))
  {
  }

  /** The result is the same for every number of over-read bytes that there is room for. */
  predicate Unaffected(req: Req, s: string, r: nat, length: int, room: nat)
    requires r <= |s|
  {
    forall o1: nat, o2: nat | o1 <= room && o2 <= room && r + o1 <= |s| && r + o2 <= |s| ::
      WithBody(req, s, r, o1, length) == WithBody(req, s, r, o2, length)
  }

  lemma IndependenceOf(req: Req, s: string, r: nat, length: int, room: nat)
    requires room < BUFFER && r <= |s| && r + length <= |s|
    ensures Unaffected(req, s, r, length, room) <==> Indifferent(length, room)
  {
    forall o: nat | r + o <= |s| ensures WithBody(req, s, r, o, length).Some? <==> Arrives(length, o) {
      ArrivesIff(req, s, r, o, length);
    }
    if !Indifferent(length, room) {
      var (o1, o2) := Splitting(length, room);
      Split(length, room, o1, o2);
      assert WithBody(req, s, r, o1, length) != WithBody(req, s, r, o2, length);
    } else {
      forall o1: nat, o2: nat | o1 <= room && o2 <= room && r + o1 <= |s| && r + o2 <= |s|
        ensures WithBody(req, s, r, o1, length) == WithBody(req, s, r, o2, length)
      {
        ArrivesIff(req, s, r, o1, length);
        ArrivesIff(req, s, r, o2, length);
        if length > INT_MAX {
          IndifferentSame(length, room, o1);
          IndifferentSame(length, room, o2);
        } else {
          SmallArrives(length, o1);
          SmallArrives(length, o2);
        }
      }
    }
  }

  /** What a stream asks for: the request of its head, where the head ends, and the declared length. */
  datatype Want = Want(req: Req, r: nat, length: int) {
    predicate Fits(s: string) { 0 < r <= BUFFER && r <= |s| }
  }

  /** What a stream asks for, if it begins with a head that fits into the buffer. */
  function Wanted(s: string, stoll: string -> Option<int>): (w: Option<Want>)
    ensures w.Some? ==> w.value.Fits(s)
  {
    WantOf(Request(s, 100), stoll)
  }

  function WantOf(q: P<Head>, stoll: string -> Option<int>): Option<Want> {
    match q
    case Ok(head, r) =>
      var req := Apply(FRESH, head);
      if r <= BUFFER then Some(Want(req, r, ContentLength(req.headers, stoll))) else None
    case _ => None
  }

  /** What recvRequest makes of the segments in which a stream arrives. */
  function Outcome(segments: seq<string>, stoll: string -> Option<int>): Option<Req> {
    OutcomeGiven(segments, Concat(segments), Wanted(Concat(segments), stoll))
  }

  function OutcomeGiven(segments: seq<string>, s: string, w: Option<Want>): Option<Req>
    requires Concat(segments) == s && (w.Some? ==> w.value.Fits(s))
  {
    match w case None => None case Some(v) => OutcomeOf(segments, s, v)
  }

  function OutcomeOf(segments: seq<string>, s: string, w: Want): Option<Req>
    requires Concat(segments) == s && w.Fits(s)
  {
    WithBody(w.req, s, w.r, Reads(segments, 0, w.r) - w.r, w.length)
  }

  /** The cut behind n bytes: they arrive together, and the others later. */
  function CutBehind(s: string, n: nat): seq<string>
    requires 0 < n <= |s|
  {
    if n == |s| then [s] else [s[..n], s[n..]]
  }

  lemma ConcatTwo(a: string, b: string)
    ensures Concat([a, b]) == a + b
  {
    assert [a, b][1..] == [b] && [b][1..] == [];
    assert Concat([b]) == b + "";
  }

  lemma CutBehindReads(s: string, r: nat, over: nat)
    requires 0 < r && r + over <= BUFFER && r + over <= |s|
    ensures Cuts(CutBehind(s, r + over), s) && Reads(CutBehind(s, r + over), 0, r) == r + over
  {
    var n := r + over;
    if n < |s| {
      ConcatTwo(s[..n], s[n..]);
    } else {
      assert Concat([s]) == s + Concat([s][1..]);
    }
  }

  lemma OutcomeIs(segments: seq<string>, s: string, w: Want, stoll: string -> Option<int>)
    requires Concat(segments) == s && Wanted(s, stoll) == Some(w)
    ensures Outcome(segments, stoll) == OutcomeOf(segments, s, w)
  {
  }

  /** However the stream is cut, the result is the same. */
  ghost predicate CutsDoNotMatter(s: string, stoll: string -> Option<int>) {
    forall a, b :: Cuts(a, s) && Cuts(b, s) ==> Outcome(a, stoll) == Outcome(b, stoll)
  }

  /** The same for what a stream asks for, wherever that comes from. */
  predicate SameBody(w: Want, s: string, a: seq<string>, b: seq<string>)
    requires Concat(a) == Concat(b) == s && w.Fits(s)
  {
    OutcomeOf(a, s, w) == OutcomeOf(b, s, w)
  }

  lemma BodiesIff(w: Want, s: string)
    requires w.Fits(s) && w.r + w.length <= |s|
    ensures Indifferent(w.length, BUFFER - w.r) <==> forall a, b :: Cuts(a, s) && Cuts(b, s) ==> SameBody(w, s, a, b)
  {
    IndependenceOf(w.req, s, w.r, w.length, BUFFER - w.r);
    if Indifferent(w.length, BUFFER - w.r) {
      forall a, b | Cuts(a, s) && Cuts(b, s) ensures SameBody(w, s, a, b) {
        SameOver(w.req, s, w.r, w.length, Reads(a, 0, w.r) - w.r, Reads(b, 0, w.r) - w.r);
      }
    } else {
      var (o1, o2) := Splitting(w.length, BUFFER - w.r);
      Split(w.length, BUFFER - w.r, o1, o2);
      CutArrives(s, w, o1);
      CutArrives(s, w, o2);
      assert !SameBody(w, s, CutBehind(s, w.r + o1), CutBehind(s, w.r + o2));
    }
  }

  lemma CutArrives(s: string, w: Want, over: nat)
    requires w.Fits(s) && w.r + over <= BUFFER && w.r + over <= |s| && w.r + w.length <= |s|
    ensures Cuts(CutBehind(s, w.r + over), s)
    ensures OutcomeOf(CutBehind(s, w.r + over), s, w).Some? <==> Arrives(w.length, over)
  {
    CutBehindReads(s, w.r, over);
    ArrivesIff(w.req, s, w.r, over, w.length);
  }

  lemma SameOver(req: Req, s: string, r: nat, length: int, o1: nat, o2: nat)
    requires r <= BUFFER && r <= |s| && Unaffected(req, s, r, length, BUFFER - r)
    requires o1 <= BUFFER - r && o2 <= BUFFER - r && r + o1 <= |s| && r + o2 <= |s|
    ensures WithBody(req, s, r, o1, length) == WithBody(req, s, r, o2, length)
  {
  }

  /** Segmentation independence, exactly.  For every stream that holds a whole request, every way of
      cutting it gives the same result if and only if the declared length is Indifferent. */
  lemma SegmentationIndependence(s: string, w: Want, stoll: string -> Option<int>)
    requires Wanted(s, stoll) == Some(w) && w.r + w.length <= |s|
    ensures CutsDoNotMatter(s, stoll) <==> Indifferent(w.length, BUFFER - w.r)
  {
    BodiesIff(w, s);
    if CutsDoNotMatter(s, stoll) {
      forall a, b | Cuts(a, s) && Cuts(b, s) ensures SameBody(w, s, a, b) {
        SameOutcome(a, b, s, w, stoll);
      }
    } else {
      var a, b :| Cuts(a, s) && Cuts(b, s) && Outcome(a, stoll) != Outcome(b, stoll);
      SameOutcome(a, b, s, w, stoll);
    }
  }

  lemma SameOutcome(a: seq<string>, b: seq<string>, s: string, w: Want, stoll: string -> Option<int>)
    requires Cuts(a, s) && Cuts(b, s) && Wanted(s, stoll) == Some(w)
    ensures Outcome(a, stoll) == Outcome(b, stoll) <==> SameBody(w, s, a, b)
  {
    OutcomeIs(a, s, w, stoll);
    OutcomeIs(b, s, w, stoll);
  }

  /** Every length up to 2^31 - 1 is received whole: the body is the declared number of bytes
      behind the head, however the stream was cut. */
  lemma WholeBody(segments: seq<string>, s: string, w: Want, stoll: string -> Option<int>)
    requires Concat(segments) == s && Wanted(s, stoll) == Some(w)
    requires 0 < w.length <= INT_MAX && w.r + w.length <= |s|
    ensures Outcome(segments, stoll) == Some(w.req.(body := s[w.r..w.r + w.length]))
  {
    OutcomeIs(segments, s, w, stoll);
    WholeBodyOf(segments, s, w);
  }

  lemma WholeBodyOf(segments: seq<string>, s: string, w: Want)
    requires Concat(segments) == s && w.Fits(s)
    requires 0 < w.length <= INT_MAX && w.r + w.length <= |s|
    ensures OutcomeOf(segments, s, w) == Some(w.req.(body := s[w.r..w.r + w.length]))
  {
    var over := Reads(segments, 0, w.r) - w.r;
    ArrivesIff(w.req, s, w.r, over, w.length);
    SmallArrives(w.length, over);
  }

  lemma SmallArrives(length: int, over: nat)
    requires length <= INT_MAX
    ensures Arrives(length, over)
  {
    if length > over {
      ToIntPositive(length - over);
    }
  }

  lemma IndifferentSame(length: int, room: nat, o: nat)
    requires length > INT_MAX && room < BUFFER && Indifferent(length, room) && o <= room
    ensures Arrives(length, o) == Arrives(length, 0)
  {
    ToIntPositive(length - o);
    ToIntPositive(length);
    LowMinus(length, o);
  }

  /** Two over-read counts that make a difference. */
  function Splitting(length: int, room: nat): (nat, nat)
    requires length > INT_MAX
  {
    var low := length % INT_MOD;
    if low <= room then (0, low) else (if low > INT_MAX then low - INT_MAX else 0, 0)
  }

  lemma Split(length: int, room: nat, o1: nat, o2: nat)
    requires length > INT_MAX && room < BUFFER && !Indifferent(length, room) && (o1, o2) == Splitting(length, room)
    ensures o1 <= room && o2 <= room && Arrives(length, o1) && !Arrives(length, o2)
  {
    ToIntPositive(length - o1);
    ToIntPositive(length - o2);
    LowMinus(length, o1);
    LowMinus(length, o2);
  }

  // ------------------------------------------------------------------ the loop

  /** The part of recvRequest that reads the head: the parser's request is filled in exactly when
      the stream begins with a head that is accepted, as q says, and fits into the buffer. */
  method ReceiveHead(sock: Socket, parser: HttpRequestParser, data: array<char>, ghost s: string, ghost q: P<Head>)
    returns (ok: bool, offset: nat, nparse: nat)
    requires sock.Valid() && sock.Stream() == s && q == Request(s, 100)
    requires data.Length == BUFFER && parser.request.View() == FRESH && !parser.error
    modifies sock, parser, parser.request, data
    ensures sock.Valid()
    ensures ok <==> q.Ok? && q.pos <= BUFFER
    ensures ok ==> nparse == q.pos <= offset <= BUFFER && Buffered(sock, data, s, offset)
    ensures ok ==> parser.request.View() == Apply(FRESH, q.value) && offset == Reads(old(sock.segments), 0, nparse)
  {
    offset, nparse := 0, 0;
    while true
      invariant offset < BUFFER && Buffered(sock, data, s, offset) && (q.Ok? ==> offset < q.pos)
      invariant q.Ok? ==> Reads(sock.segments, offset, q.pos) == Reads(old(sock.segments), 0, q.pos)
      invariant parser.request.View() == FRESH && !parser.error
      decreases |s| - offset
    {
      var len, code := ReadAndParse(sock, parser, data, offset, s, q);
      if len <= 0 {
        sock.Close();
        return false, offset, 0;
      }
      offset := offset + len;
      if parser.error || code == -1 {
        sock.Close();
        return false, offset, 0;
      }
      if code > 0 {
        return true, offset, code;
      }
      if offset == BUFFER {
        sock.Close();
        return false, offset, 0;
      }
    }
  }

  /** The first `offset` bytes of the stream are in the buffer, and the others are still to arrive. */
  ghost predicate Buffered(sock: Socket, data: array<char>, s: string, offset: nat)
    reads sock, data
  {
    && sock.Valid() && offset <= data.Length && offset <= |s|
    && sock.Stream() == s[offset..] && data[..offset] == s[..offset]
  }

  /** One round of the loop: one read, and the parser on everything that has been received. */
  method ReadAndParse(sock: Socket, parser: HttpRequestParser, data: array<char>, offset: nat, ghost s: string, ghost q: P<Head>)
    returns (len: int, code: int)
    requires data.Length == BUFFER && offset < BUFFER && Buffered(sock, data, s, offset)
    requires q == Request(s, 100) && (q.Ok? ==> offset < q.pos)
    requires parser.request.View() == FRESH && !parser.error
    modifies sock`segments, parser, parser.request, data
    ensures sock.Valid() && (len <= 0 ==> offset == |s|)
    ensures len > 0 ==> Buffered(sock, data, s, offset + len)
    ensures len > 0 && q.Ok? ==> Reads(sock.segments, offset + len, q.pos) == Reads(old(sock.segments), offset, q.pos)
    ensures len > 0 && q.Ok? && q.pos <= offset + len ==>
              code == q.pos && !parser.error && parser.request.View() == Apply(FRESH, q.value)
    ensures len > 0 && !(q.Ok? && q.pos <= offset + len) ==>
              code < 0 && parser.request.View() == FRESH && (parser.error <==> code == -1) && (q.Ok? ==> !parser.error)
  {
    ghost var before := sock.segments;
    code := -2;
    len := RecvMore(sock, data, offset, s);
    if len > 0 {
      if q.Ok? {
        ReadsStep(before, offset, q.pos);
      }
      code := Examine(parser, data, offset + len, offset, s, q);
    }
  }

  /** The parser is run on what has been received. */
  method Examine(parser: HttpRequestParser, data: array<char>, offset: nat, last: nat, ghost s: string, ghost q: P<Head>)
    returns (code: int)
    requires parser.request.View() == FRESH && !parser.error && last <= offset <= data.Length && offset <= |s|
    requires data[..offset] == s[..offset] && q == Request(s, 100) && (q.Ok? ==> last < q.pos)
    modifies parser, parser.request
    ensures q.Ok? && q.pos <= offset ==>
              code == q.pos && !parser.error && parser.request.View() == Apply(FRESH, q.value)
    ensures !(q.Ok? && q.pos <= offset) ==> code < 0 && parser.request.View() == FRESH && (parser.error <==> code == -1)
    ensures q.Ok? ==> !parser.error
  {
    Verdict(s, q, offset, last);
    code := parser.Execute(data, offset, last);
  }

  /** One read behind the bytes received so far. */
  method RecvMore(sock: Socket, data: array<char>, offset: nat, ghost s: string) returns (len: int)
    requires offset < data.Length && Buffered(sock, data, s, offset)
    modifies sock`segments, data
    ensures sock.Valid() && (len <= 0 ==> offset == |s|)
    ensures len > 0 ==> Buffered(sock, data, s, offset + len)
    ensures len > 0 ==>
              && old(sock.segments) != [] && len == Least(|old(sock.segments)[0]|, data.Length - offset)
              && sock.segments == AfterRead(old(sock.segments), data.Length - offset)
  {
    ghost var before := data[..offset];
    len := sock.Recv(data, offset, data.Length - offset);
    if len > 0 {
      assert data[..offset] == before;
      assert data[..offset + len] == before + data[offset..offset + len];
      Pieces(s, 0, offset, len);
      assert s[..offset + len] == s[0..offset + len] && s[..offset] == s[0..offset];
    }
  }

  /** The verdict on what has been received is the verdict on the whole stream as soon as the head is
      complete; before, it asks for more, and a stream without a head never gets one. */
  lemma Verdict(s: string, q: P<Head>, offset: nat, last: nat)
    requires q == Request(s, 100) && offset <= |s| && (q.Ok? ==> last < q.pos)
    ensures q.Ok? ==> Parse(s[..offset], 100, last) == if offset < q.pos then Partial else q
    ensures !q.Ok? ==> !Parse(s[..offset], 100, last).Ok?
  {
    if q.Ok? {
      ResumedVerdicts(s, 100, offset, last);
    } else {
      VerdictStable(s[..offset], s[offset..], 100);
      assert s == s[..offset] + s[offset..];
    }
  }

  /** Where the stream goes on behind a request: behind what was declared or, if that is less, behind
      what was over-read. */
  function Behind(r: nat, over: nat, length: int): nat {
    r + if length > over then length else over
  }

  predicate Continues(segments: seq<string>, s: string, w: Option<Want>, rest: string)
    requires Concat(segments) == s && (w.Some? ==> w.value.Fits(s))
  {
    && w.Some?
    && var Want(_, r, length) := w.value;
    var end := Behind(r, Reads(segments, 0, r) - r, length);
    end <= |s| && rest == s[end..]
  }

  /** recvRequest.  The result is determined by the segments in which the stream arrives; the bytes
      that are not part of the request and were over-read are gone. */
  method RecvRequest(sock: Socket, stoll: string -> Option<int>) returns (req: HttpRequest?)
    requires sock.Valid()
    modifies sock
    ensures sock.Valid() && (req != null ==> fresh(req))
    ensures Delivers(req, Outcome(old(sock.segments), stoll))
    ensures req != null ==>
              Continues(old(sock.segments), old(sock.Stream()), Wanted(old(sock.Stream()), stoll), sock.Stream())
  {
    ghost var s := sock.Stream();
    req := RecvWanted(sock, stoll, s, Request(s, 100), Wanted(s, stoll));
  }

  /** The object that is handed out, or null. */
  predicate Delivers(req: HttpRequest?, r: Option<Req>)
    reads req
  {
    if req == null then r.None? else r == Some(req.View())
  }

  /** The same, told what the stream asks for. */
  method RecvWanted(sock: Socket, stoll: string -> Option<int>, ghost s: string, ghost q: P<Head>, ghost w: Option<Want>)
    returns (req: HttpRequest?)
    requires sock.Valid() && sock.Stream() == s && q == Request(s, 100)
    requires w == WantOf(q, stoll) && (w.Some? ==> w.value.Fits(s))
    modifies sock
    ensures sock.Valid() && (req != null ==> fresh(req))
    ensures Delivers(req, OutcomeGiven(old(sock.segments), s, w))
    ensures req != null ==> Continues(old(sock.segments), s, w, sock.Stream())
  {
    ghost var segments := sock.segments;
    var parser := new HttpRequestParser();
    var data := new char[BUFFER];
    var ok, offset, nparse := ReceiveWanted(sock, parser, data, s, q, w, stoll);
    if !ok {
      return null;
    }
    req := Deliver(sock, parser.request, data, nparse, offset, stoll, segments, s, w.value);
  }

  /** The head of what the stream asks for. */
  method ReceiveWanted(sock: Socket, parser: HttpRequestParser, data: array<char>, ghost s: string, ghost q: P<Head>,
                       ghost w: Option<Want>, ghost stoll: string -> Option<int>)
    returns (ok: bool, offset: nat, nparse: nat)
    requires sock.Valid() && sock.Stream() == s && q == Request(s, 100) && w == WantOf(q, stoll)
    requires data.Length == BUFFER && parser.request.View() == FRESH && !parser.error
    modifies sock, parser, parser.request, data
    ensures sock.Valid() && (ok <==> w.Some?)
    ensures ok ==> nparse == w.value.r <= offset && Buffered(sock, data, s, offset)
    ensures ok ==> parser.request.View() == w.value.req && w.value.length == ContentLength(w.value.req.headers, stoll)
    ensures ok ==> offset == Reads(old(sock.segments), 0, nparse)
  {
    ok, offset, nparse := ReceiveHead(sock, parser, data, s, q);
  }

  /** The rest of what the stream asks for. */
  method Deliver(sock: Socket, parsed: HttpRequest, data: array<char>, nparse: nat, offset: nat,
                 stoll: string -> Option<int>, ghost segments: seq<string>, ghost s: string, ghost w: Want)
    returns (req: HttpRequest?)
    requires nparse <= offset && Buffered(sock, data, s, offset)
    requires parsed.View() == w.req && nparse == w.r && w.length == ContentLength(w.req.headers, stoll)
    requires Concat(segments) == s && w.Fits(s) && offset == Reads(segments, 0, nparse)
    modifies sock, parsed`body
    ensures sock.Valid() && (req == null || req == parsed)
    ensures Delivers(req, OutcomeGiven(segments, s, Some(w)))
    ensures req != null ==> Continues(segments, s, Some(w), sock.Stream())
  {
    OutcomeWith(segments, s, w, nparse, offset - nparse);
    req := Complete(sock, parsed, data, nparse, offset, stoll, s, w);
  }

  lemma OutcomeWith(segments: seq<string>, s: string, w: Want, r: nat, over: nat)
    requires Concat(segments) == s && w.Fits(s) && r == w.r && Reads(segments, 0, r) - r == over
    ensures r + over <= |s| && OutcomeGiven(segments, s, Some(w)) == WithBody(w.req, s, r, over, w.length)
    ensures forall rest :: Continues(segments, s, Some(w), rest) <==>
              Behind(r, over, w.length) <= |s| && rest == s[Behind(r, over, w.length)..]
  {
  }

  /** The part of recvRequest behind its loop. */
  method Complete(sock: Socket, parsed: HttpRequest, data: array<char>, nparse: nat, offset: nat,
                  stoll: string -> Option<int>, ghost s: string, ghost w: Want) returns (req: HttpRequest?)
    requires nparse <= offset && Buffered(sock, data, s, offset)
    requires parsed.View() == w.req && nparse == w.r && w.length == ContentLength(w.req.headers, stoll)
    modifies sock, parsed`body
    ensures sock.Valid() && (req == null || req == parsed)
    ensures Delivers(req, WithBody(w.req, s, nparse, offset - nparse, w.length))
    ensures req != null ==>
              Behind(nparse, offset - nparse, w.length) <= |s| && sock.Stream() == s[Behind(nparse, offset - nparse, w.length)..]
  {
    var length := BodyLength(parsed, stoll);
    var ok := Finish(sock, parsed, data, nparse, offset, length, s);
    req := if ok then parsed else null;
  }

  method BodyLength(req: HttpRequest, stoll: string -> Option<int>) returns (length: int)
    ensures length == ContentLength(req.headers, stoll)
  {
    length := 0;
    var length_str := GetOr(req.headers, CONTENT_LENGTH, "");
    if length_str != "" {
      var n := stoll(length_str);
      length := match n { case Some(v) => v case None => 0 };
    }
  }

  /** The body, if there is to be one. */
  method Finish(sock: Socket, req: HttpRequest, data: array<char>, nparse: nat, offset: nat,
                length: int, ghost s: string) returns (ok: bool)
    requires nparse <= offset && Buffered(sock, data, s, offset)
    modifies sock, req`body
    ensures sock.Valid()
    ensures ok <==> WithBody(old(req.View()), s, nparse, offset - nparse, length).Some?
    ensures ok ==> Some(req.View()) == WithBody(old(req.View()), s, nparse, offset - nparse, length)
    ensures ok ==>
              Behind(nparse, offset - nparse, length) <= |s| && sock.Stream() == s[Behind(nparse, offset - nparse, length)..]
  {
    ok := true;
    if length > 0 {
      var body;
      ok, body := ReceiveBody(sock, data, nparse, offset, length, s);
      if ok {
        req.body := body;
      }
    }
  }

  /** The part of recvRequest that reads the body: what was over-read is copied, the rest is read. */
  method ReceiveBody(sock: Socket, data: array<char>, nparse: nat, offset: nat, length: nat, ghost s: string)
    returns (ok: bool, body: string)
    requires nparse <= offset && Buffered(sock, data, s, offset) && length > 0
    modifies sock
    ensures sock.Valid()
    ensures var over := offset - nparse;
      ok <==> (length <= over || (nparse + length <= |s| && 0 < ToInt(length - over)))
    ensures ok ==> nparse + length <= |s| && body == s[nparse..nparse + length]
    ensures ok ==> sock.Stream() == s[Behind(nparse, offset - nparse, length)..]
  {
    var buf := new char[length];
    var body_read_len := offset - nparse;
    var copy_len := if body_read_len < length then body_read_len else length;
    CopyFront(buf, data, nparse, copy_len, offset, s);
    var left_len := length - body_read_len;
    if left_len <= 0 {
      assert buf[..] == buf[..copy_len];
      return true, buf[..];
    }
    ok := ReadRest(sock, buf, nparse, offset, left_len, s);
    body := buf[..];
  }

  /** What was over-read, up to the length of the body. */
  method CopyFront(buf: array<char>, data: array<char>, nparse: nat, n: nat, ghost offset: nat, ghost s: string)
    requires buf != data && n <= buf.Length && nparse + n <= offset <= data.Length && offset <= |s|
    requires data[..offset] == s[..offset]
    modifies buf
    ensures buf[..n] == s[nparse..nparse + n]
  {
    ghost var d := data[..];
    forall i | 0 <= i < n {
      buf[i] := data[nparse + i];
    }
    SameRange(d, s, offset, nparse, nparse + n);
    assert buf[..n] == d[nparse..nparse + n];
  }

  /** The rest of the body, behind what was over-read. */
  method ReadRest(sock: Socket, buf: array<char>, nparse: nat, offset: nat, left: nat, ghost s: string) returns (ok: bool)
    requires sock.Valid() && nparse <= offset <= |s| && sock.Stream() == s[offset..] && left > 0
    requires buf.Length == offset - nparse + left && buf[..offset - nparse] == s[nparse..offset]
    modifies sock, buf
    ensures sock.Valid() && (ok <==> offset + left <= |s| && 0 < ToInt(left))
    ensures ok ==> buf[..] == s[nparse..offset + left] && sock.Stream() == s[offset + left..]
  {
    var over := offset - nparse;
    ghost var front := buf[..over];
    var got := sock.ReadFixSize(buf, over, left);
    ok := got > 0;
    if ok {
      Pieces(s, nparse, offset, left);
      assert buf[..over] == front;
      assert buf[..] == buf[..over] + buf[over..over + left];
    } else {
      sock.Close();
    }
  }

  lemma SameRange(a: string, b: string, n: nat, i: nat, j: nat)
    requires i <= j <= n <= |a| && n <= |b| && a[..n] == b[..n]
    ensures a[i..j] == b[i..j]
  {
    var x, y := a[i..j], b[i..j];
    forall k | 0 <= k < j - i ensures x[k] == y[k] {
      assert x[k] == a[i + k] == a[..n][i + k] == b[..n][i + k] == b[i + k] == y[k];
    }
  }

  lemma Pieces(s: string, a: nat, b: nat, l: nat)
    requires a <= b && b + l <= |s|
    ensures s[a..b + l] == s[a..b] + s[b..][..l] && s[b..][l..] == s[b + l..]
  {
  }

  /** Two connections over which the same stream arrives, cut differently: one request is received,
      the other is not.  Every length that is not Indifferent has such cuts. */
  method TwoCuts(s: string, stoll: string -> Option<int>) returns (first: HttpRequest?, second: HttpRequest?)
    requires Wanted(s, stoll).Some?
    requires var w := Wanted(s, stoll).value; w.r + w.length <= |s| && !Indifferent(w.length, BUFFER - w.r)
    ensures first != null && second == null
  {
    var w := Wanted(s, stoll).value;
    var (o1, o2) := Splitting(w.length, BUFFER - w.r);
    CutsDiffer(s, w, stoll, o1, o2);
    var a := new Socket(CutBehind(s, w.r + o1), false);
    var b := new Socket(CutBehind(s, w.r + o2), false);
    first := RecvRequest(a, stoll);
    second := RecvRequest(b, stoll);
  }

  lemma CutsDiffer(s: string, w: Want, stoll: string -> Option<int>, o1: nat, o2: nat)
    requires Wanted(s, stoll) == Some(w) && w.r + w.length <= |s|
    requires !Indifferent(w.length, BUFFER - w.r) && (o1, o2) == Splitting(w.length, BUFFER - w.r)
    ensures 0 < w.r + o1 <= |s| && 0 < w.r + o2 <= |s|
    ensures NoneEmpty(CutBehind(s, w.r + o1)) && NoneEmpty(CutBehind(s, w.r + o2))
    ensures Outcome(CutBehind(s, w.r + o1), stoll).Some?
    ensures Outcome(CutBehind(s, w.r + o2), stoll).None?
  {
    Split(w.length, BUFFER - w.r, o1, o2);
    CutOutcome(s, w, stoll, o1);
    CutOutcome(s, w, stoll, o2);
  }

  lemma CutOutcome(s: string, w: Want, stoll: string -> Option<int>, over: nat)
    requires Wanted(s, stoll) == Some(w) && w.r + over <= BUFFER && w.r + over <= |s| && w.r + w.length <= |s|
    ensures NoneEmpty(CutBehind(s, w.r + over))
    ensures Outcome(CutBehind(s, w.r + over), stoll).Some? <==> Arrives(w.length, over)
  {
    CutArrives(s, w, over);
    OutcomeIs(CutBehind(s, w.r + over), s, w, stoll);
  }

  // ------------------------------------------------------------------ sent and received

  /** What is meant by reading a number: decimal digits are read as their value. */
  ghost predicate ReadsDecimals(stoll: string -> Option<int>) {
    forall s :: AllDigits(s) ==> stoll(s) == Some(DecimalValue(s))
  }

  /** The length of the body is what stands under any spelling of the header, and 0 if there is none. */
  lemma DeclaredBy(h: Map, value: string, stoll: string -> Option<int>)
    requires HeaderMap.Valid(h) && NoNul(h)
    ensures Has(h, "Content-Length", value) && AllDigits(value) && ReadsDecimals(stoll) ==>
              ContentLength(h, stoll) == DecimalValue(value)
    ensures (forall v :: !Has(h, "Content-Length", v)) ==> ContentLength(h, stoll) == 0
  {
    GetBySpelling(h, CONTENT_LENGTH, value);
    if Get(h, CONTENT_LENGTH).Some? {
      GetBySpelling(h, CONTENT_LENGTH, Get(h, CONTENT_LENGTH).value);
    }
  }

  /** The key that recvRequest looks up is the one that dump prints, and not that of the connection. */
  lemma LengthKeys(key: string)
    requires key == CONTENT_LENGTH
    ensures Same(LENGTH_PRINTED, key) && !Same(CONNECTION_PRINTED, key)
  {
    LengthSpelling(LENGTH_PRINTED, key);
    SpelledSame(LENGTH_PRINTED, key);
    ConnectionDiffers(CONNECTION_PRINTED, key);
  }

  lemma LengthSpelling(l: string, key: string)
    requires l == LENGTH_PRINTED && key == CONTENT_LENGTH
    ensures Spelling(l, key) && '\0' !in l && '\0' !in key
  {
  }

  lemma SpelledSame(a: string, b: string)
    requires Spelling(a, b) && '\0' !in a && '\0' !in b
    ensures Same(a, b)
  {
    SameIsSpelling(a, b);
  }

  lemma ConnectionDiffers(c: string, key: string)
    requires c == CONNECTION_PRINTED && key == CONTENT_LENGTH
    ensures !Same(c, key)
  {
    assert c[3] == 'n' && key[3] == 't';
    assert forall i :: 0 <= i <= 3 ==> c[i] != '\0' && key[i] != '\0';
    DifferAt(c, key, 3);
  }

  /** No header of the request declares a length of its own. */
  predicate NoLength(q: Req) {
    Get(q.headers, "Content-Length").None?
  }

  lemma SentLength(q: Req, h: Map, stoll: string -> Option<int>, key: string)
    requires key == CONTENT_LENGTH && Get(h, key) == Expected(q, key) && ReadsDecimals(stoll)
    requires q.body != "" || Get(q.headers, key).None?
    ensures ContentLength(h, stoll) == |q.body|
  {
    LengthKeys(key);
    DecReadsBack(|q.body|);
  }

  /** The stream that dump writes asks for the request that was printed. */
  lemma SentWants(q: Req, stoll: string -> Option<int>) returns (w: Want)
    requires Sendable(q) && |HeadText(q)| <= 4096 && ReadsDecimals(stoll) && (q.body != "" || NoLength(q))
    ensures Wanted(HeadText(q) + q.body, stoll) == Some(w) && w.r == |HeadText(q)| && w.length == |q.body|
    ensures IsSent(w.req.(body := q.body), q) && w.req.body == ""
  {
    PrintThenParse(q);
    var r := Request(HeadText(q) + q.body, 100);
    w := WantOf(r, stoll).value;
    SentLength(q, w.req.headers, stoll, CONTENT_LENGTH);
  }

  /** What the receiver can tell about a request is what was sent. */
  ghost predicate IsSent(p: Req, q: Req) {
    && p.method_ == q.method_ && p.path == q.path && p.query == q.query && p.version == q.version && p.close == q.close
    && p.body == q.body && forall k :: Get(p.headers, k) == Expected(q, k)
  }

  /** Sent is received: however the network cuts what dump writes, and whatever the connection does
      afterwards, recvRequest delivers the request that was sent, with its whole body. */
  lemma SentIsReceived(q: Req, segments: seq<string>, stoll: string -> Option<int>)
    requires Sendable(q) && |HeadText(q)| <= 4096 && |q.body| <= 0x7FFF_FFFF && ReadsDecimals(stoll)
    requires q.body != "" || NoLength(q)
    requires Cuts(segments, HeadText(q) + q.body)
    ensures Outcome(segments, stoll).Some? && IsSent(Outcome(segments, stoll).value, q)
  {
    var w := SentWants(q, stoll);
    var s := HeadText(q) + q.body;
    OutcomeIs(segments, s, w, stoll);
    if q.body != "" {
      WholeBodyOf(segments, s, w);
      assert s[w.r..w.r + w.length] == q.body;
    } else {
      assert OutcomeOf(segments, s, w) == Some(w.req);
      assert w.req.(body := q.body) == w.req;
    }
  }

  /** A request whose head is longer than that is never received. */
  lemma LongHeadRefused(q: Req, segments: seq<string>, stoll: string -> Option<int>)
    requires Sendable(q) && |HeadText(q)| > 4096 && Cuts(segments, HeadText(q) + q.body)
    ensures Outcome(segments, stoll) == None
  {
    PrintThenParse(q);
    assert WantOf(Request(HeadText(q) + q.body, 100), stoll) == None;
  }

  /** The same with the objects: one request is dumped, and another one received from a connection. */
  method SendAndReceive(sent: HttpRequest, segments: seq<string>, broken: bool, stoll: string -> Option<int>)
    returns (text: string, received: HttpRequest?)
    requires Sendable(sent.View()) && ReadsDecimals(stoll) && (sent.body != "" || NoLength(sent.View()))
    requires |HeadText(sent.View())| <= 4096 && |sent.body| <= 0x7FFF_FFFF
    requires Cuts(segments, HeadText(sent.View()) + sent.body)
    ensures text == Concat(segments) && received != null && IsSent(received.View(), sent.View())
  {
    var os := sent.Dump();
    text := os.value;
    SentIsReceived(sent.View(), segments, stoll);
    var sock := new Socket(segments, broken);
    received := RecvRequest(sock, stoll);
  }
}
