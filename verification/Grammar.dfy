/** The language of request heads, position by position: what the parser of module RequestParser accepts,
    with both directions, and what it rejects. */
module Grammar {
  import opened Common
  import opened RequestParser

  // ------------------------------------------------------------------ bytes and stretches of bytes

  /** Visible characters that are no delimiters: section 3.2.6 of RFC 7230. */
  predicate TokenByte(c: char) {
    '!' <= c <= '~' && c !in {'"', '(', ')', ',', '/', ':', ';', '<', '=', '>', '?', '@', '[', '\\', ']', '{', '}'}
  }

  lemma TokenBytes(c: char)
    ensures IsToken(c) <==> TokenByte(c)
  {
  }

  predicate Tokens(s: string, i: nat, j: nat) {
    i <= j <= |s| && forall k :: i <= k < j ==> TokenByte(s[k])
  }

  predicate Spaces(s: string, i: nat, j: nat) {
    i <= j <= |s| && forall k :: i <= k < j ==> s[k] == ' '
  }

  /** Spaces and tabs. */
  predicate Blanks(s: string, i: nat, j: nat) {
    i <= j <= |s| && forall k :: i <= k < j ==> s[k] == ' ' || s[k] == '\t'
  }

  /** No control characters other than tabs. */
  predicate Text(s: string, i: nat, j: nat) {
    i <= j <= |s| && forall k :: i <= k < j ==> s[k] == '\t' || (s[k] >= ' ' && s[k] != '\U{7F}')
  }

  /** No control characters and no spaces. */
  predicate Graphic(s: string, i: nat, j: nat) {
    i <= j <= |s| && forall k :: i <= k < j ==> s[k] > ' ' && s[k] != '\U{7F}'
  }

  /** A bare LF, or CR LF. */
  predicate EndOfLine(s: string, q: nat, p: nat) {
    p <= |s| && ((p == q + 1 && s[q] == '\n') || (p == q + 2 && s[q] == '\r' && s[q + 1] == '\n'))
  }

  predicate Ends<T>(r: P<T>, p: nat) { r.Ok? && r.pos == p }

  lemma {:induction false} TokenIs(s: string, i: nat, stop: char, j: nat)
    requires stop == ':' || stop == ' '
    ensures Ends(Token(s, i, stop), j) <==> Tokens(s, i, j) && j < |s| && s[j] == stop
    decreases |s| - i
  {
    if i < |s| && s[i] != stop && IsToken(s[i]) {
      TokenIs(s, i + 1, stop, j);
    }
  }

  lemma {:induction false} SkipIs(s: string, i: nat, tabs: bool, j: nat)
    ensures Ends(Skip(s, i, tabs), j) <==>
              && (if tabs then Blanks(s, i, j) else Spaces(s, i, j))
              && j < |s| && s[j] != ' ' && (tabs ==> s[j] != '\t')
    decreases |s| - i
  {
    if i < |s| && (s[i] == ' ' || (tabs && s[i] == '\t')) {
      SkipIs(s, i + 1, tabs, j);
    }
  }

  lemma {:induction false} TargetIs(s: string, i: nat, j: nat)
    ensures Ends(Target(s, i), j) <==> Graphic(s, i, j) && j < |s| && s[j] == ' '
    decreases |s| - i
  {
    if i < |s| && s[i] > ' ' && s[i] != '\U{7F}' {
      TargetIs(s, i + 1, j);
    }
  }

  lemma {:induction false} LineEndIs(s: string, i: nat, q: nat, p: nat)
    ensures Ends(LineEnd(s, i), p) && LineEnd(s, i).value == q <==> Text(s, i, q) && EndOfLine(s, q, p)
    decreases |s| - i
  {
    if i < |s| && !IsCtl(s[i]) {
      LineEndIs(s, i + 1, q, p);
    }
  }

  lemma {:induction false} TrimIs(s: string, a: nat, b: nat, e: nat)
    requires a <= b <= |s|
    ensures TrimEnd(s, a, b) == e <==> a <= e && Blanks(s, e, b) && (a < e ==> s[e - 1] != ' ' && s[e - 1] != '\t')
    decreases b
  {
    if a < b && IsBlank(s[b - 1]) {
      TrimIs(s, a, b - 1, e);
    }
  }

  // ------------------------------------------------------------------ header lines

  /** Where the parts of a header line end: the name, the blanks behind its colon, the value, the blanks
      behind it, and the line. */
  datatype LineSpan = LineSpan(colon: nat, first: nat, last: nat, text: nat, end: nat)

  /** The value from `first` to `last` has no blank at its end, and only blanks follow it. */
  predicate ValueSpan(s: string, x: LineSpan) {
    && x.first <= x.last && Text(s, x.first, x.text) && Blanks(s, x.last, x.text) && EndOfLine(s, x.text, x.end)
    && (x.first < x.last ==> s[x.last - 1] != ' ' && s[x.last - 1] != '\t')
  }

  /** A name of at least one token byte, a colon, blanks, and a value that does not begin with a blank. */
  predicate NamedLine(s: string, i: nat, x: LineSpan) {
    && i < x.colon && Tokens(s, i, x.colon) && x.colon < |s| && s[x.colon] == ':'
    && Blanks(s, x.colon + 1, x.first) && x.first < |s| && s[x.first] != ' ' && s[x.first] != '\t'
    && ValueSpan(s, x)
  }

  /** A line that begins with a blank continues the one before it. */
  predicate ContinuedLine(s: string, i: nat, x: LineSpan) {
    i < |s| && (s[i] == ' ' || s[i] == '\t') && x.first == i && ValueSpan(s, x)
  }

  predicate LineIs(s: string, i: nat, folding: bool, h: Header, x: LineSpan) {
    match h.name
    case Some(name) => NamedLine(s, i, x) && name == s[i..x.colon] && h.value == s[x.first..x.last]
    case None => folding && ContinuedLine(s, i, x) && h.value == s[x.first..x.last]
  }

  lemma ValueIs(s: string, x: LineSpan)
    ensures ValueSpan(s, x) ==> Value(s, x.first) == Ok(s[x.first..x.last], x.end)
  {
    if ValueSpan(s, x) {
      LineEndIs(s, x.first, x.text, x.end);
      TrimIs(s, x.first, x.text, x.last);
    }
  }

  lemma ValueShape(s: string, i: nat) returns (x: LineSpan)
    requires Value(s, i).Ok?
    ensures x.first == i && ValueSpan(s, x) && Value(s, i) == Ok(s[i..x.last], x.end)
  {
    var l := LineEnd(s, i);
    x := LineSpan(0, i, TrimEnd(s, i, l.value), l.value, l.pos);
    LineEndIs(s, i, l.value, l.pos);
    TrimIs(s, i, l.value, x.last);
  }

  /** Every line of this form is accepted ... */
  lemma LineAccepted(s: string, i: nat, folding: bool, h: Header, x: LineSpan)
    requires i < |s| && LineIs(s, i, folding, h, x)
    ensures HeaderLine(s, i, folding) == Ok(h, x.end)
  {
    ValueIs(s, x);
    if h.name.Some? {
      TokenIs(s, i, ':', x.colon);
      SkipIs(s, x.colon + 1, true, x.first);
    }
  }

  /** ... and no other one. */
  lemma LineShape(s: string, i: nat, folding: bool) returns (x: LineSpan)
    requires i < |s| && HeaderLine(s, i, folding).Ok?
    ensures LineIs(s, i, folding, HeaderLine(s, i, folding).value, x) && HeaderLine(s, i, folding).pos == x.end
  {
    if folding && IsBlank(s[i]) {
      x := ValueShape(s, i);
    } else {
      var colon := Token(s, i, ':').pos;
      var first := Skip(s, colon + 1, true).pos;
      TokenIs(s, i, ':', colon);
      SkipIs(s, colon + 1, true, first);
      x := ValueShape(s, first);
      x := x.(colon := colon);
    }
  }

  /** A byte that is neither part of a name nor a colon makes the head unacceptable, and so does an
      empty name. */
  lemma BadNameRejected(s: string, i: nat, folding: bool, j: nat)
    requires i <= j < |s| && Tokens(s, i, j) && !TokenByte(s[j]) && (s[j] != ':' || j == i)
    requires folding ==> s[i] != ' ' && s[i] != '\t'
    ensures HeaderLine(s, i, folding) == Bad
  {
    TokenRejects(s, i, j);
  }

  lemma {:induction false} TokenRejects(s: string, i: nat, j: nat)
    requires i <= j < |s| && Tokens(s, i, j) && !TokenByte(s[j])
    ensures s[j] != ':' ==> Token(s, i, ':') == Bad
    ensures s[j] == ':' && j == i ==> Token(s, i, ':').Ok? && Token(s, i, ':').pos == i
    decreases j - i
  {
    if i < j {
      TokenRejects(s, i + 1, j);
    }
  }

  // ------------------------------------------------------------------ blocks of header lines

  /** The lines from the n-th on, with these spans, and the empty line behind them. */
  predicate Block(s: string, i: nat, n: nat, hs: seq<Header>, xs: seq<LineSpan>, p: nat)
    decreases |hs|
  {
    if hs == [] then EndOfLine(s, i, p)
    else i < |s| && xs != [] && LineIs(s, i, n > 0, hs[0], xs[0]) && Block(s, xs[0].end, n + 1, hs[1..], xs[1..], p)
  }

  lemma LineStart(s: string, i: nat, folding: bool, h: Header, x: LineSpan)
    requires i < |s| && LineIs(s, i, folding, h, x)
    ensures s[i] != '\r' && s[i] != '\n' && HeaderLine(s, i, folding) == Ok(h, x.end)
  {
    LineAccepted(s, i, folding, h, x);
  }

  lemma NoLines(s: string, i: nat, n: nat, max: nat, p: nat)
    requires EndOfLine(s, i, p)
    ensures Headers(s, i, n, max) == Ok([], p)
  {
    EolIs(s, i, p);
  }

  lemma {:induction false} BlockAccepted(s: string, i: nat, n: nat, max: nat, hs: seq<Header>, xs: seq<LineSpan>, p: nat)
    requires Block(s, i, n, hs, xs, p) && n + |hs| <= max
    ensures Headers(s, i, n, max) == Ok(hs, p)
    decreases |hs|
  {
    if hs == [] {
      NoLines(s, i, n, max, p);
    } else {
      LineStart(s, i, n > 0, hs[0], xs[0]);
      BlockAccepted(s, xs[0].end, n + 1, max, hs[1..], xs[1..], p);
      OneMoreLine(s, i, n, max, hs, xs[0].end, p);
    }
  }

  lemma OneMoreLine(s: string, i: nat, n: nat, max: nat, hs: seq<Header>, j: nat, p: nat)
    requires hs != [] && i < |s| && s[i] != '\r' && s[i] != '\n' && n != max
    requires HeaderLine(s, i, n > 0) == Ok(hs[0], j) && Headers(s, j, n + 1, max) == Ok(hs[1..], p)
    ensures Headers(s, i, n, max) == Ok(hs, p)
  {
    HeadersIs(s, i, n, max, hs[0], hs[1..], j, p);
    assert hs == [hs[0]] + hs[1..];
  }

  lemma {:induction false} BlockShape(s: string, i: nat, n: nat, max: nat) returns (xs: seq<LineSpan>)
    requires Headers(s, i, n, max).Ok? && n <= max
    ensures Block(s, i, n, Headers(s, i, n, max).value, xs, Headers(s, i, n, max).pos)
    ensures n + |Headers(s, i, n, max).value| <= max
    decreases |s| - i
  {
    xs := [];
    if s[i] != '\r' && s[i] != '\n' {
      var x := LineShape(s, i, n != 0);
      var rest := BlockShape(s, x.end, n + 1, max);
      xs := [x] + rest;
      assert Headers(s, i, n, max).value[1..] == Headers(s, x.end, n + 1, max).value && xs[1..] == rest;
    }
  }

  /** One header line too many is not acceptable, whatever follows. */
  lemma {:induction false} LimitRejects(s: string, i: nat, n: nat, max: nat, hs: seq<Header>, xs: seq<LineSpan>, p: nat)
    requires Block(s, i, n, hs, xs, p) && n <= max && n + |hs| > max
    ensures Headers(s, i, n, max) == Bad
    decreases |hs|
  {
    LineStart(s, i, n > 0, hs[0], xs[0]);
    if n < max {
      LimitRejects(s, xs[0].end, n + 1, max, hs[1..], xs[1..], p);
    }
  }

  // ------------------------------------------------------------------ heads

  /** Where the parts of a request line end: the method, the spaces, the target, the spaces, and the line;
      and the spans of the header lines. */
  datatype HeadSpan = HeadSpan(name: nat, target: nat, last: nat, version: nat, lines: nat, spans: seq<LineSpan>)

  /** A method and spaces, a target and spaces, the version and an end of line, and header lines. */
  predicate HeadIs(s: string, i: nat, head: Head, y: HeadSpan, p: nat) {
    NameIs(s, i, head.method_, y) && PathIs(s, head.path, y) && TailIs(s, head.minor, head.headers, y, p)
  }

  predicate NameIs(s: string, i: nat, name: string, y: HeadSpan) {
    && i < y.name && Tokens(s, i, y.name) && y.name < |s| && s[y.name] == ' ' && name == s[i..y.name]
    && Spaces(s, y.name + 1, y.target) && y.target < |s| && s[y.target] != ' '
  }

  predicate PathIs(s: string, path: string, y: HeadSpan) {
    && y.target < y.last && Graphic(s, y.target, y.last) && y.last < |s| && s[y.last] == ' ' && path == s[y.target..y.last]
    && Spaces(s, y.last + 1, y.version) && y.version < |s| && s[y.version] != ' '
  }

  predicate TailIs(s: string, minor: nat, headers: seq<Header>, y: HeadSpan, p: nat) {
    && IsVersion(s, y.version) && minor == s[y.version + 7] as int - '0' as int
    && EndOfLine(s, y.version + 8, y.lines) && Block(s, y.lines, 0, headers, y.spans, p)
  }

  predicate IsVersion(s: string, v: nat) {
    v + 9 <= |s| && s[v..v + 7] == "HTTP/1." && '0' <= s[v + 7] <= '9'
  }

  lemma VersionIs(s: string, v: nat)
    ensures Version(s, v).Ok? <==> IsVersion(s, v)
    ensures Version(s, v).Ok? ==> Version(s, v) == Ok(s[v + 7] as int - '0' as int, v + 8)
  {
  }

  lemma EolIs(s: string, i: nat, p: nat)
    ensures Ends(Eol(s, i), p) <==> EndOfLine(s, i, p)
  {
  }

  lemma TailAccepted(s: string, name: string, path: string, minor: nat, headers: seq<Header>, y: HeadSpan, p: nat, max: nat)
    requires TailIs(s, minor, headers, y, p) && |headers| <= max
    ensures RequestTail(s, name, path, y.version, max) == Ok(Head(name, path, minor, headers), p)
  {
    VersionIs(s, y.version);
    EolIs(s, y.version + 8, y.lines);
    BlockAccepted(s, y.lines, 0, max, headers, y.spans, p);
    TailStep(s, name, path, y.version, max, minor, y.version + 8, y.lines, headers, p);
  }

  lemma TailStep(s: string, name: string, path: string, v: nat, max: nat, minor: nat, w: nat, h: nat, hs: seq<Header>, p: nat)
    requires Version(s, v) == Ok(minor, w) && Ends(Eol(s, w), h) && Headers(s, h, 0, max) == Ok(hs, p)
    ensures RequestTail(s, name, path, v, max) == Ok(Head(name, path, minor, hs), p)
  {
  }

  lemma PathAccepted(s: string, name: string, path: string, y: HeadSpan, max: nat)
    requires name != "" && PathIs(s, path, y)
    ensures RequestTarget(s, name, y.target, max) == RequestTail(s, name, path, y.version, max)
  {
    TargetIs(s, y.target, y.last);
    SkipIs(s, y.last + 1, false, y.version);
  }

  lemma NameAccepted(s: string, i: nat, name: string, y: HeadSpan, max: nat)
    requires NameIs(s, i, name, y)
    ensures RequestFrom(s, i, max) == RequestTarget(s, name, y.target, max)
  {
    TokenIs(s, i, ' ', y.name);
    SkipIs(s, y.name + 1, false, y.target);
    RequestFromIs(s, i, max);
  }

  lemma HeadAccepted(s: string, i: nat, head: Head, y: HeadSpan, p: nat, max: nat)
    requires HeadIs(s, i, head, y, p) && |head.headers| <= max
    ensures RequestFrom(s, i, max) == Ok(head, p)
  {
    NameAccepted(s, i, head.method_, y, max);
    PathAccepted(s, head.method_, head.path, y, max);
    TailAccepted(s, head.method_, head.path, head.minor, head.headers, y, p, max);
  }

  lemma TailShape(s: string, name: string, path: string, v: nat, max: nat) returns (h: nat, xs: seq<LineSpan>)
    requires RequestTail(s, name, path, v, max).Ok?
    ensures var r := RequestTail(s, name, path, v, max);
      && r.value.method_ == name && r.value.path == path && |r.value.headers| <= max
      && TailIs(s, r.value.minor, r.value.headers, HeadSpan(0, 0, 0, v, h, xs), r.pos)
  {
    h := Eol(s, v + 8).pos;
    VersionIs(s, v);
    EolIs(s, v + 8, h);
    xs := BlockShape(s, h, 0, max);
  }

  lemma PathShape(s: string, name: string, a: nat, max: nat) returns (b: nat, v: nat)
    requires RequestTarget(s, name, a, max).Ok?
    ensures name != "" && a <= b <= |s| && PathIs(s, s[a..b], HeadSpan(0, a, b, v, 0, []))
    ensures RequestTarget(s, name, a, max) == RequestTail(s, name, s[a..b], v, max)
  {
    b := Target(s, a).pos;
    v := Skip(s, b + 1, false).pos;
    TargetIs(s, a, b);
    SkipIs(s, b + 1, false, v);
  }

  lemma NameShape(s: string, i: nat, max: nat) returns (m: nat, a: nat)
    requires RequestFrom(s, i, max).Ok?
    ensures i <= m <= |s| && RequestFrom(s, i, max) == RequestTarget(s, s[i..m], a, max)
    ensures i < m ==> NameIs(s, i, s[i..m], HeadSpan(m, a, 0, 0, 0, []))
  {
    m := Token(s, i, ' ').pos;
    a := Skip(s, m + 1, false).pos;
    TokenIs(s, i, ' ', m);
    SkipIs(s, m + 1, false, a);
    RequestFromIs(s, i, max);
  }

  lemma HeadShape(s: string, i: nat, max: nat, r: P<Head>) returns (y: HeadSpan)
    requires r == RequestFrom(s, i, max) && r.Ok?
    ensures HeadIs(s, i, r.value, y, r.pos) && |r.value.headers| <= max
  {
    var m, a := NameShape(s, i, max);
    var b, v := PathShape(s, s[i..m], a, max);
    var h, xs := TailShape(s, s[i..m], s[a..b], v, max);
    y := HeadSpan(m, a, b, v, h, xs);
  }

  /** Behind at most one empty line. */
  predicate Begins(s: string, i: nat) {
    (i == 0 && s != "" && s[0] != '\r' && s[0] != '\n') || EndOfLine(s, 0, i)
  }

  /** The parser accepts every head of this form with at most `max` header lines ... */
  lemma RequestAccepted(s: string, max: nat, i: nat, head: Head, y: HeadSpan, p: nat)
    requires Begins(s, i) && HeadIs(s, i, head, y, p) && |head.headers| <= max
    ensures Request(s, max) == Ok(head, p)
  {
    EolIs(s, 0, i);
    HeadAccepted(s, i, head, y, p, max);
  }

  /** ... and nothing else. */
  lemma RequestShape(s: string, max: nat) returns (i: nat, y: HeadSpan)
    requires Request(s, max).Ok?
    ensures Begins(s, i) && HeadIs(s, i, Request(s, max).value, y, Request(s, max).pos)
    ensures |Request(s, max).value.headers| <= max
  {
    i := if s[0] == '\r' || s[0] == '\n' then Eol(s, 0).pos else 0;
    EolIs(s, 0, i);
    y := HeadShape(s, i, max, Request(s, max));
  }
}
