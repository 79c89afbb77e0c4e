/** The request-head parser of src/Http/picohttpparser.c (sections 3.1.1 and 3.2 of RFC 7230), on
    the portable path without vector instructions.

    The grammar is a set of functions over the text received so far: each says whether the text
    read from position `i` is acceptable, unacceptable, or so far only a beginning.  The methods
    are the C loops over a buffer and are proved to compute those functions.  A byte is a `char`,
    so every theorem covers arbitrary bytes. */
module RequestParser {
  import opened Common

  /** What the C functions return: a value and the position behind it, -2 or -1. */
  datatype P<+T> = Ok(value: T, pos: nat) | Partial | Bad

  /** A header line; a continuation line of the previous header has no name. */
  datatype Header = Header(name: Option<string>, value: string)

  datatype Head = Head(method_: string, path: string, minor: nat, headers: seq<Header>)

  // ------------------------------------------------------------------ character classes

  /** IS_PRINTABLE_ASCII */
  predicate IsPrintable(c: char) { ' ' <= c <= '~' }

  /** The bytes that end a line scan: controls other than HTAB, and DEL. */
  predicate IsCtl(c: char) { (c < ' ' && c != '\t') || c == '\U{7F}' }

  /** token_char_map */
  predicate IsToken(c: char) {
    || '0' <= c <= '9' || 'A' <= c <= 'Z' || 'a' <= c <= 'z'
    || c in {'!', '#', '$', '%', '&', '\'', '*', '+', '-', '.', '^', '_', '`', '|', '~'}
  }

  predicate IsBlank(c: char) { c == ' ' || c == '\t' }

  // ------------------------------------------------------------------ the grammar

  /** An end of line: CR LF or a bare LF. */
  function Eol(s: string, i: nat): (r: P<()>)
    ensures r.Ok? ==> i < r.pos <= |s| && r.pos <= i + 2
  {
    if i >= |s| then Partial
    else if s[i] == '\r' then
      if i + 1 >= |s| then Partial else if s[i + 1] == '\n' then Ok((), i + 2) else Bad
    else if s[i] == '\n' then Ok((), i + 1)
    else Bad
  }

  /** The rest of a line, byte at a time; the value is where its text ends. */
  function LineEnd(s: string, i: nat): (r: P<nat>)
    ensures r.Ok? ==> i <= r.value < r.pos <= |s|
    decreases |s| - i
  {
    if i >= |s| then Partial
    else if !IsCtl(s[i]) then LineEnd(s, i + 1)
    else match Eol(s, i) { case Ok(_, p) => Ok(i, p) case Partial => Partial case Bad => Bad }
  }

  /** A token up to the byte `stop`, which is not consumed. */
  function Token(s: string, i: nat, stop: char): (r: P<()>)
    ensures r.Ok? ==> i <= r.pos < |s| && s[r.pos] == stop
    decreases |s| - i
  {
    if i >= |s| then Partial
    else if s[i] == stop then Ok((), i)
    else if !IsToken(s[i]) then Bad
    else Token(s, i + 1, stop)
  }

  /** The request target up to a space, which is not consumed. */
  function Target(s: string, i: nat): (r: P<()>)
    ensures r.Ok? ==> i <= r.pos < |s| && s[r.pos] == ' '
    decreases |s| - i
  {
    if i >= |s| then Partial
    else if s[i] == ' ' then Ok((), i)
    else if s[i] < ' ' || s[i] == '\U{7F}' then Bad
    else Target(s, i + 1)
  }

  /** Skips spaces - and tabs, where `tabs` allows them - up to some other byte. */
  function Skip(s: string, i: nat, tabs: bool): (r: P<()>)
    ensures r.Ok? ==> i <= r.pos < |s| && s[r.pos] != ' '
    decreases |s| - i
  {
    if i >= |s| then Partial
    else if s[i] == ' ' || (tabs && s[i] == '\t') then Skip(s, i + 1, tabs)
    else Ok((), i)
  }

  const VERSION := "HTTP/1."

  function Version(s: string, i: nat): (r: P<nat>)
    ensures r.Ok? ==> r.pos == i + 8 < |s| && r.value < 10
  {
    if |s| < i + 9 then Partial
    else if s[i..i + 7] != VERSION || !('0' <= s[i + 7] <= '9') then Bad
    else Ok(s[i + 7] as int - '0' as int, i + 8)
  }

  /** Where the text from a to b ends once trailing blanks are removed. */
  function TrimEnd(s: string, a: nat, b: nat): (e: nat)
    requires a <= b <= |s|
    ensures a <= e <= b
    decreases b
  {
    if a < b && IsBlank(s[b - 1]) then TrimEnd(s, a, b - 1) else b
  }

  /** The value of a header, from its first byte at i. */
  function Value(s: string, i: nat): (r: P<string>)
    ensures r.Ok? ==> i < r.pos <= |s| && s[r.pos - 1] == '\n'
  {
    match LineEnd(s, i)
    case Ok(e, p) => LineEndsInLF(s, i); Ok(s[i..TrimEnd(s, i, e)], p)
    case Partial => Partial
    case Bad => Bad
  }

  lemma {:induction false} LineEndsInLF(s: string, i: nat)
    requires LineEnd(s, i).Ok?
    ensures s[LineEnd(s, i).pos - 1] == '\n'
    decreases |s| - i
  {
    if !IsCtl(s[i]) {
      LineEndsInLF(s, i + 1);
    }
  }

  /** A header line; `folding` says that a line before it could be continued. */
  function HeaderLine(s: string, i: nat, folding: bool): (r: P<Header>)
    requires i < |s|
    ensures r.Ok? ==> i < r.pos <= |s| && s[r.pos - 1] == '\n'
  {
    if folding && IsBlank(s[i]) then
      match Value(s, i) { case Ok(v, p) => Ok(Header(None, v), p) case Partial => Partial case Bad => Bad }
    else
      match Token(s, i, ':')
      case Partial => Partial
      case Bad => Bad
      case Ok(_, colon) =>
        if colon == i then Bad else
        match Skip(s, colon + 1, true)
        case Partial => Partial
        case Bad => Bad
        case Ok(_, v) =>
          match Value(s, v)
          case Partial => Partial
          case Bad => Bad
          case Ok(value, p) => Ok(Header(Some(s[i..colon]), value), p)
  }

  /** The header lines from the n-th on, and the blank line behind them. */
  function Headers(s: string, i: nat, n: nat, max: nat): (r: P<seq<Header>>)
    ensures r.Ok? ==> i < r.pos <= |s|
    decreases |s| - i
  {
    if i >= |s| then Partial
    else if s[i] == '\r' || s[i] == '\n' then
      match Eol(s, i) { case Ok(_, p) => Ok([], p) case Partial => Partial case Bad => Bad }
    else if n == max then Bad
    else
      match HeaderLine(s, i, n != 0)
      case Partial => Partial
      case Bad => Bad
      case Ok(h, p) => Cons(h, Headers(s, p, n + 1, max))
  }

  function Cons(h: Header, r: P<seq<Header>>): P<seq<Header>> {
    match r { case Ok(hs, p) => Ok([h] + hs, p) case Partial => Partial case Bad => Bad }
  }

  lemma HeadersIs(s: string, i: nat, n: nat, max: nat, first: Header, rest: seq<Header>, j: nat, end: nat)
    requires i < |s| && s[i] != '\r' && s[i] != '\n' && n != max
    requires HeaderLine(s, i, n != 0) == Ok(first, j) && Headers(s, j, n + 1, max) == Ok(rest, end)
    ensures Headers(s, i, n, max) == Ok([first] + rest, end)
  {
  }

  /** From the method on: the request line and the headers. */
  function RequestFrom(s: string, i: nat, max: nat): (r: P<Head>)
    ensures r.Ok? ==> i < r.pos <= |s|
  {
    match Token(s, i, ' ')
    case Partial => Partial
    case Bad => Bad
    case Ok(_, m) =>
      match Skip(s, m + 1, false)
      case Partial => Partial
      case Bad => Bad
      case Ok(_, a) => RequestTarget(s, s[i..m], a, max)
  }

  /** From the request target on. */
  function RequestTarget(s: string, method_: string, a: nat, max: nat): (r: P<Head>)
    ensures r.Ok? ==> a < r.pos <= |s|
  {
    match Target(s, a)
    case Partial => Partial
    case Bad => Bad
    case Ok(_, b) =>
      match Skip(s, b + 1, false)
      case Partial => Partial
      case Bad => Bad
      case Ok(_, v) =>
        if method_ == "" || b == a then Bad else RequestTail(s, method_, s[a..b], v, max)
  }

  /** From the version on. */
  function RequestTail(s: string, method_: string, path: string, v: nat, max: nat): (r: P<Head>)
    ensures r.Ok? ==> v < r.pos <= |s|
  {
    match Version(s, v)
    case Partial => Partial
    case Bad => Bad
    case Ok(minor, w) =>
      match Eol(s, w)
      case Partial => Partial
      case Bad => Bad
      case Ok(_, h) =>
        match Headers(s, h, 0, max)
        case Partial => Partial
        case Bad => Bad
        case Ok(hs, p) => Ok(Head(method_, path, minor, hs), p)
  }

  /** parse_request: one leading empty line is skipped. */
  function Request(s: string, max: nat): (r: P<Head>)
    ensures r.Ok? ==> 0 < r.pos <= |s|
  {
    if s == "" then Partial
    else if s[0] == '\r' || s[0] == '\n' then
      match Eol(s, 0) { case Ok(_, i) => RequestFrom(s, i, max) case Partial => Partial case Bad => Bad }
    else RequestFrom(s, 0, max)
  }

  /** is_complete: has the text from i on two ends of line in a row?  `cnt` were just seen. */
  function Prescan(s: string, i: nat, cnt: nat): P<()>
    decreases |s| - i
  {
    if i >= |s| then Partial
    else if s[i] == '\r' || s[i] == '\n' then
      match Eol(s, i)
      case Partial => Partial
      case Bad => Bad
      case Ok(_, p) => if cnt + 1 == 2 then Ok((), p) else Prescan(s, p, cnt + 1)
    else Prescan(s, i + 1, 0)
  }

  function BackUp(last: nat): nat { if last < 3 then 0 else last - 3 }

  /** phr_parse_request, given how much of the text an earlier call has seen. */
  function Parse(s: string, max: nat, last: nat): P<Head> {
    if last != 0 && !Prescan(s, BackUp(last), 0).Ok? then
      if Prescan(s, BackUp(last), 0).Partial? then Partial else Bad
    else Request(s, max)
  }

  // ------------------------------------------------------------------ more input changes no verdict

  /** Reading s and reading s + t agree as soon as either reading stays within s. */
  predicate Settled<T>(short: P<T>, long: P<T>, room: int) {
    !short.Partial? || (long.Ok? && long.pos <= room)
  }

  lemma EolStable(s: string, t: string, i: nat)
    ensures Settled(Eol(s, i), Eol(s + t, i), |s|) ==> Eol(s + t, i) == Eol(s, i)
  {
  }

  lemma {:induction false} LineEndStable(s: string, t: string, i: nat)
    ensures Settled(LineEnd(s, i), LineEnd(s + t, i), |s|) ==> LineEnd(s + t, i) == LineEnd(s, i)
    decreases |s| - i
  {
    if i < |s| {
      EolStable(s, t, i);
      LineEndStable(s, t, i + 1);
    }
  }

  lemma {:induction false} TokenStable(s: string, t: string, i: nat, stop: char)
    ensures Settled(Token(s, i, stop), Token(s + t, i, stop), |s| - 1) ==> Token(s + t, i, stop) == Token(s, i, stop)
    decreases |s| - i
  {
    if i < |s| {
      TokenStable(s, t, i + 1, stop);
    }
  }

  lemma {:induction false} TargetStable(s: string, t: string, i: nat)
    ensures Settled(Target(s, i), Target(s + t, i), |s| - 1) ==> Target(s + t, i) == Target(s, i)
    decreases |s| - i
  {
    if i < |s| {
      TargetStable(s, t, i + 1);
    }
  }

  lemma {:induction false} SkipStable(s: string, t: string, i: nat, tabs: bool)
    ensures Settled(Skip(s, i, tabs), Skip(s + t, i, tabs), |s| - 1) ==> Skip(s + t, i, tabs) == Skip(s, i, tabs)
    decreases |s| - i
  {
    if i < |s| {
      SkipStable(s, t, i + 1, tabs);
    }
  }

  lemma {:induction false} TrimStable(s: string, t: string, a: nat, b: nat)
    requires a <= b <= |s|
    ensures TrimEnd(s + t, a, b) == TrimEnd(s, a, b)
    decreases b
  {
    if a < b {
      TrimStable(s, t, a, b - 1);
    }
  }

  lemma VersionStable(s: string, t: string, i: nat)
    ensures Settled(Version(s, i), Version(s + t, i), |s| - 1) ==> Version(s + t, i) == Version(s, i)
  {
    if |s| >= i + 9 {
      assert (s + t)[i..i + 7] == s[i..i + 7];
    }
  }

  lemma ValueStable(s: string, t: string, i: nat)
    ensures Settled(Value(s, i), Value(s + t, i), |s|) ==> Value(s + t, i) == Value(s, i)
  {
    LineEndStable(s, t, i);
    var l := LineEnd(s, i);
    if l.Ok? {
      TrimStable(s, t, i, l.value);
      assert (s + t)[i..TrimEnd(s, i, l.value)] == s[i..TrimEnd(s, i, l.value)];
    }
  }

  lemma HeaderLineStable(s: string, t: string, i: nat, folding: bool)
    requires i < |s|
    ensures Settled(HeaderLine(s, i, folding), HeaderLine(s + t, i, folding), |s|) ==>
      HeaderLine(s + t, i, folding) == HeaderLine(s, i, folding)
  {
    if folding && IsBlank(s[i]) {
      ValueStable(s, t, i);
    } else {
      NamedLineStable(s, t, i, folding);
    }
  }

  lemma NamedLineStable(s: string, t: string, i: nat, folding: bool)
    requires i < |s| && !(folding && IsBlank(s[i]))
    ensures Settled(HeaderLine(s, i, folding), HeaderLine(s + t, i, folding), |s|) ==>
      HeaderLine(s + t, i, folding) == HeaderLine(s, i, folding)
  {
    TokenStable(s, t, i, ':');
    var k := Token(s, i, ':');
    if k.Ok? {
      SkipStable(s, t, k.pos + 1, true);
      var v := Skip(s, k.pos + 1, true);
      if v.Ok? {
        ValueStable(s, t, v.pos);
        assert (s + t)[i..k.pos] == s[i..k.pos];
      }
    }
  }

  lemma {:induction false} HeadersStable(s: string, t: string, i: nat, n: nat, max: nat)
    ensures Settled(Headers(s, i, n, max), Headers(s + t, i, n, max), |s|) ==>
      Headers(s + t, i, n, max) == Headers(s, i, n, max)
    decreases |s| - i
  {
    if i < |s| {
      EolStable(s, t, i);
      HeaderLineStable(s, t, i, n != 0);
      var h := HeaderLine(s, i, n != 0);
      if h.Ok? {
        HeadersStable(s, t, h.pos, n + 1, max);
      }
    }
  }

  lemma RequestTailStable(s: string, t: string, method_: string, path: string, v: nat, max: nat)
    ensures Settled(RequestTail(s, method_, path, v, max), RequestTail(s + t, method_, path, v, max), |s|) ==>
      RequestTail(s + t, method_, path, v, max) == RequestTail(s, method_, path, v, max)
  {
    VersionStable(s, t, v);
    var w := Version(s, v);
    if w.Ok? {
      EolStable(s, t, w.pos);
      var h := Eol(s, w.pos);
      if h.Ok? {
        HeadersStable(s, t, h.pos, 0, max);
      }
    }
  }

  lemma RequestTargetStable(s: string, t: string, method_: string, a: nat, max: nat)
    ensures Settled(RequestTarget(s, method_, a, max), RequestTarget(s + t, method_, a, max), |s|) ==>
      RequestTarget(s + t, method_, a, max) == RequestTarget(s, method_, a, max)
  {
    TargetStable(s, t, a);
    var b := Target(s, a);
    if b.Ok? {
      SkipStable(s, t, b.pos + 1, false);
      var v := Skip(s, b.pos + 1, false);
      if v.Ok? {
        RequestTailStable(s, t, method_, s[a..b.pos], v.pos, max);
        assert (s + t)[a..b.pos] == s[a..b.pos];
      }
    }
  }

  lemma RequestFromStable(s: string, t: string, i: nat, max: nat)
    ensures Settled(RequestFrom(s, i, max), RequestFrom(s + t, i, max), |s|) ==>
      RequestFrom(s + t, i, max) == RequestFrom(s, i, max)
  {
    TokenStable(s, t, i, ' ');
    var m := Token(s, i, ' ');
    if m.Ok? {
      SkipStable(s, t, m.pos + 1, false);
      var a := Skip(s, m.pos + 1, false);
      if a.Ok? {
        RequestTargetStable(s, t, s[i..m.pos], a.pos, max);
        assert (s + t)[i..m.pos] == s[i..m.pos];
      }
    }
  }

  /** A verdict, good or bad, never changes when more bytes arrive; and an accepted request is
      accepted from its own bytes alone. */
  lemma VerdictStable(s: string, t: string, max: nat)
    ensures !Request(s, max).Partial? ==> Request(s + t, max) == Request(s, max)
    ensures Request(s + t, max).Ok? && Request(s + t, max).pos <= |s| ==> Request(s, max) == Request(s + t, max)
  {
    if s == "" {
    } else {
      EolStable(s, t, 0);
      RequestFromStable(s, t, 0, max);
      var e := Eol(s, 0);
      if e.Ok? {
        RequestFromStable(s, t, e.pos, max);
      }
    }
  }

  /** A request of r bytes is "incomplete" on every prefix that is shorter than r, and is accepted
      with the same result on all the others. */
  lemma PrefixVerdicts(s: string, max: nat, k: nat)
    requires Request(s, max).Ok? && k <= |s|
    ensures Request(s[..k], max) == if k < Request(s, max).pos then Partial else Request(s, max)
  {
    assert s == s[..k] + s[k..];
    VerdictStable(s[..k], s[k..], max);
  }

  // ------------------------------------------------------------------ the pre-scan is sound

  /** Every CR between i and j is followed by an LF between i and j. */
  predicate Clean(s: string, i: nat, j: nat) {
    i <= j <= |s| && forall k :: i <= k < j && s[k] == '\r' ==> k + 1 < j && s[k + 1] == '\n'
  }

  lemma {:induction false} LineEndClean(s: string, i: nat)
    requires LineEnd(s, i).Ok?
    ensures Clean(s, i, LineEnd(s, i).pos)
    decreases |s| - i
  {
    if !IsCtl(s[i]) {
      LineEndClean(s, i + 1);
    }
  }

  lemma {:induction false} TokenClean(s: string, i: nat, stop: char)
    requires Token(s, i, stop).Ok? && stop != '\r'
    ensures Clean(s, i, Token(s, i, stop).pos)
    decreases |s| - i
  {
    if s[i] != stop {
      TokenClean(s, i + 1, stop);
    }
  }

  lemma {:induction false} TargetClean(s: string, i: nat)
    requires Target(s, i).Ok?
    ensures Clean(s, i, Target(s, i).pos)
    decreases |s| - i
  {
    if s[i] != ' ' {
      TargetClean(s, i + 1);
    }
  }

  lemma {:induction false} SkipClean(s: string, i: nat, tabs: bool)
    requires Skip(s, i, tabs).Ok?
    ensures Clean(s, i, Skip(s, i, tabs).pos)
    decreases |s| - i
  {
    if s[i] == ' ' || (tabs && s[i] == '\t') {
      SkipClean(s, i + 1, tabs);
    }
  }

  lemma HeaderLineClean(s: string, i: nat, folding: bool)
    requires i < |s| && HeaderLine(s, i, folding).Ok?
    ensures Clean(s, i, HeaderLine(s, i, folding).pos)
  {
    if folding && IsBlank(s[i]) {
      LineEndClean(s, i);
    } else {
      var k := Token(s, i, ':').pos;
      TokenClean(s, i, ':');
      var v := Skip(s, k + 1, true).pos;
      SkipClean(s, k + 1, true);
      LineEndClean(s, v);
    }
  }

  /** An empty line at e, behind an end of line, that ends at r. */
  predicate BlankLine(s: string, e: nat, r: nat) {
    && 0 < e < r <= |s| && s[e - 1] == '\n'
    && Eol(s, e) == Ok((), r)
  }

  lemma {:induction false} HeadersEnd(s: string, i: nat, n: nat, max: nat) returns (e: nat)
    requires 0 < i <= |s| && s[i - 1] == '\n' && Headers(s, i, n, max).Ok?
    ensures i <= e && BlankLine(s, e, Headers(s, i, n, max).pos)
    ensures Clean(s, i, Headers(s, i, n, max).pos)
    decreases |s| - i
  {
    if s[i] == '\r' || s[i] == '\n' {
      e := i;
    } else {
      HeaderLineClean(s, i, n != 0);
      e := HeadersEnd(s, HeaderLine(s, i, n != 0).pos, n + 1, max);
    }
  }

  lemma CleanJoin(s: string, i: nat, j: nat, k: nat)
    requires Clean(s, i, j) && Clean(s, j, k)
    ensures Clean(s, i, k)
  {
  }

  lemma RequestTailEnd(s: string, method_: string, path: string, v: nat, max: nat) returns (e: nat)
    requires RequestTail(s, method_, path, v, max).Ok?
    ensures BlankLine(s, e, RequestTail(s, method_, path, v, max).pos)
    ensures Clean(s, v, RequestTail(s, method_, path, v, max).pos)
  {
    assert Clean(s, v, v + 8) by {
      assert forall k :: v <= k < v + 7 ==> s[k] == s[v..v + 7][k - v] == VERSION[k - v];
    }
    var h := Eol(s, v + 8).pos;
    e := HeadersEnd(s, h, 0, max);
    CleanJoin(s, v, v + 8, h);
    CleanJoin(s, v, h, RequestTail(s, method_, path, v, max).pos);
  }

  lemma TargetParts(s: string, a: nat)
    requires Target(s, a).Ok? && Skip(s, Target(s, a).pos + 1, false).Ok?
    ensures Clean(s, a, Skip(s, Target(s, a).pos + 1, false).pos)
  {
    TargetClean(s, a);
    SkipClean(s, Target(s, a).pos + 1, false);
  }

  lemma RequestTargetIs(s: string, method_: string, a: nat, max: nat) returns (b: nat, v: nat)
    requires RequestTarget(s, method_, a, max).Ok?
    ensures Clean(s, a, v) && a <= b <= |s| && RequestTarget(s, method_, a, max) == RequestTail(s, method_, s[a..b], v, max)
  {
    b := Target(s, a).pos;
    v := Skip(s, b + 1, false).pos;
    TargetParts(s, a);
  }

  lemma RequestTargetEnd(s: string, method_: string, a: nat, max: nat) returns (e: nat)
    requires RequestTarget(s, method_, a, max).Ok?
    ensures BlankLine(s, e, RequestTarget(s, method_, a, max).pos)
    ensures Clean(s, a, RequestTarget(s, method_, a, max).pos)
  {
    var b, v := RequestTargetIs(s, method_, a, max);
    e := RequestTailEnd(s, method_, s[a..b], v, max);
    CleanJoin(s, a, v, RequestTarget(s, method_, a, max).pos);
  }

  lemma RequestFromIs(s: string, i: nat, max: nat)
    requires Token(s, i, ' ').Ok? && Skip(s, Token(s, i, ' ').pos + 1, false).Ok?
    ensures var m := Token(s, i, ' ').pos;
      RequestFrom(s, i, max) == RequestTarget(s, s[i..m], Skip(s, m + 1, false).pos, max)
  {
  }

  lemma RequestFromStops(s: string, i: nat, max: nat)
    ensures Token(s, i, ' ').Partial? ==> RequestFrom(s, i, max) == Partial
    ensures Token(s, i, ' ').Bad? ==> RequestFrom(s, i, max) == Bad
    ensures Token(s, i, ' ').Ok? && Skip(s, Token(s, i, ' ').pos + 1, false).Partial? ==> RequestFrom(s, i, max) == Partial
    ensures Token(s, i, ' ').Ok? && Skip(s, Token(s, i, ' ').pos + 1, false).Bad? ==> RequestFrom(s, i, max) == Bad
  {
  }

  lemma NameClean(s: string, i: nat)
    requires Token(s, i, ' ').Ok? && Skip(s, Token(s, i, ' ').pos + 1, false).Ok?
    ensures Clean(s, i, Skip(s, Token(s, i, ' ').pos + 1, false).pos)
  {
    TokenClean(s, i, ' ');
    SkipClean(s, Token(s, i, ' ').pos + 1, false);
  }

  lemma RequestFromParts(s: string, i: nat, max: nat) returns (m: nat, a: nat)
    requires RequestFrom(s, i, max).Ok?
    ensures Clean(s, i, a) && i <= m <= |s| && RequestFrom(s, i, max) == RequestTarget(s, s[i..m], a, max)
  {
    m := Token(s, i, ' ').pos;
    a := Skip(s, m + 1, false).pos;
    NameClean(s, i);
    RequestFromIs(s, i, max);
  }

  lemma RequestFromEnd(s: string, i: nat, max: nat) returns (e: nat)
    requires RequestFrom(s, i, max).Ok?
    ensures BlankLine(s, e, RequestFrom(s, i, max).pos)
    ensures Clean(s, i, RequestFrom(s, i, max).pos)
  {
    var m, a := RequestFromParts(s, i, max);
    e := RequestTargetEnd(s, s[i..m], a, max);
    CleanJoin(s, i, a, RequestFrom(s, i, max).pos);
  }

  lemma RequestEnd(s: string, max: nat) returns (e: nat)
    requires Request(s, max).Ok?
    ensures BlankLine(s, e, Request(s, max).pos)
    ensures Clean(s, 0, Request(s, max).pos)
  {
    if s[0] == '\r' || s[0] == '\n' {
      e := RequestFromEnd(s, Eol(s, 0).pos, max);
    } else {
      e := RequestFromEnd(s, 0, max);
    }
  }

  lemma {:induction false} PrescanFinds(s: string, i: nat, cnt: nat, e: nat, r: nat)
    requires Clean(s, 0, r) && BlankLine(s, e, r) && i < e && cnt < 2
    ensures Prescan(s, i, cnt).Ok?
    decreases |s| - i
  {
    if s[i] == '\r' || s[i] == '\n' {
      var p := Eol(s, i).pos;
      assert p <= e;
      if cnt + 1 < 2 && p < e {
        PrescanFinds(s, p, cnt + 1, e, r);
      }
    } else {
      PrescanFinds(s, i + 1, 0, e, r);
    }
  }

  lemma {:induction false} PrescanWaits(s: string, k: nat, i: nat, cnt: nat, r: nat)
    requires Clean(s, 0, r) && k <= r && cnt < 2
    ensures !Prescan(s[..k], i, cnt).Bad?
    decreases k - i
  {
    if i < k {
      if s[i] == '\r' || s[i] == '\n' {
        var p := Eol(s[..k], i);
        if p.Ok? && cnt + 1 < 2 {
          PrescanWaits(s, k, p.pos, cnt + 1, r);
        }
      } else {
        PrescanWaits(s, k, i + 1, 0, r);
      }
    }
  }

  /** The pre-scan never loses a request: wherever an earlier, shorter reading of the text ended,
      the resumed parse accepts exactly what the parse from scratch accepts. */
  lemma PrescanSound(s: string, max: nat, last: nat)
    requires Request(s, max).Ok? && last < Request(s, max).pos
    ensures Parse(s, max, last) == Request(s, max)
  {
    if last != 0 {
      var e := RequestEnd(s, max);
      PrescanFinds(s, BackUp(last), 0, e, Request(s, max).pos);
    }
  }

  /** What a receiver sees that calls again whenever more bytes have arrived: on every text that
      begins with an acceptable request of r bytes, with k bytes there now and fewer than r at the
      last call, the answer is "incomplete" until k reaches r, and then the request. */
  lemma ResumedVerdicts(s: string, max: nat, k: nat, last: nat)
    requires Request(s, max).Ok? && k <= |s| && last < Request(s, max).pos
    ensures Parse(s[..k], max, last) == if k < Request(s, max).pos then Partial else Request(s, max)
  {
    PrefixVerdicts(s, max, k);
    var r := Request(s, max).pos;
    if k < r {
      var e := RequestEnd(s, max);
      PrescanWaits(s, k, BackUp(last), 0, r);
    } else {
      PrescanSound(s[..k], max, last);
    }
  }

  // ------------------------------------------------------------------ the C loops

  lemma LineEndStep(s: string, i: nat)
    requires i < |s| && !IsCtl(s[i])
    ensures LineEnd(s, i) == LineEnd(s, i + 1)
  {
  }

  lemma SliceOf(buf: array<char>, n: nat, a: nat, b: nat)
    requires a <= b <= n <= buf.Length
    ensures buf[a..b] == buf[..n][a..b]
  {
  }

  /** The unrolled body of the scan: up to eight bytes, stopping at one that is not printable. */
  method ScanEight(buf: array<char>, n: nat, i: nat) returns (j: nat, stopped: bool)
    requires i + 8 <= n <= buf.Length
    ensures i <= j <= i + 8 && LineEnd(buf[..n], i) == LineEnd(buf[..n], j)
    ensures stopped ==> j < i + 8 && !IsPrintable(buf[j])
    ensures !stopped ==> j == i + 8
  {
    j, stopped := ScanFour(buf, n, i);
    if !stopped {
      j, stopped := ScanFour(buf, n, j);
    }
  }

  /** One half of the unrolled body. */
  method ScanFour(buf: array<char>, n: nat, i: nat) returns (j: nat, stopped: bool)
    requires i + 4 <= n <= buf.Length
    ensures i <= j <= i + 4 && LineEnd(buf[..n], i) == LineEnd(buf[..n], j)
    ensures stopped ==> j < i + 4 && !IsPrintable(buf[j])
    ensures !stopped ==> j == i + 4
  {
    ghost var s := buf[..n];
    j := i;
    if !IsPrintable(buf[j]) { return j, true; }
    LineEndStep(s, j);
    j := j + 1;
    if !IsPrintable(buf[j]) { return j, true; }
    LineEndStep(s, j);
    j := j + 1;
    if !IsPrintable(buf[j]) { return j, true; }
    LineEndStep(s, j);
    j := j + 1;
    if !IsPrintable(buf[j]) { return j, true; }
    LineEndStep(s, j);
    j := j + 1;
    stopped := false;
  }

  /** get_token_to_eol: eight bytes at a time while there are eight, then byte by byte.  Both ways
      of scanning together are the byte-at-a-time scan. */
  method GetTokenToEol(buf: array<char>, n: nat, start: nat) returns (r: P<nat>)
    requires start <= n <= buf.Length
    ensures r == LineEnd(buf[..n], start)
  {
    ghost var s := buf[..n];
    var i := start;
    var found := false;
    while !found && n - i >= 8
      invariant start <= i <= n && LineEnd(s, start) == LineEnd(s, i)
      invariant found ==> i < n && IsCtl(buf[i])
      decreases n - i, !found
    {
      var stopped;
      i, stopped := ScanEight(buf, n, i);
      if stopped {
        if (buf[i] < ' ' && buf[i] != '\t') || buf[i] == '\U{7F}' {
          found := true;
        } else {
          LineEndStep(s, i);
          i := i + 1;
        }
      }
    }
    while !found
      invariant start <= i <= n && LineEnd(s, start) == LineEnd(s, i)
      invariant found ==> i < n && IsCtl(buf[i])
      decreases n - i, !found
    {
      if i == n {
        return Partial;
      }
      if !IsPrintable(buf[i]) && ((buf[i] < ' ' && buf[i] != '\t') || buf[i] == '\U{7F}') {
        found := true;
      } else {
        LineEndStep(s, i);
        i := i + 1;
      }
    }
    if buf[i] == '\r' {
      if i + 1 == n {
        return Partial;
      }
      if buf[i + 1] != '\n' {
        return Bad;
      }
      r := Ok(i, i + 2);
    } else if buf[i] == '\n' {
      r := Ok(i, i + 1);
    } else {
      r := Bad;
    }
  }

  /** is_complete */
  method IsComplete(buf: array<char>, n: nat, last: nat) returns (r: P<()>)
    requires last <= n <= buf.Length
    ensures r == Prescan(buf[..n], BackUp(last), 0)
  {
    var cnt := 0;
    var i := if last < 3 then 0 else last - 3;
    while true
      invariant i <= n && cnt < 2
      invariant Prescan(buf[..n], BackUp(last), 0) == Prescan(buf[..n], i, cnt)
      decreases n - i
    {
      if i == n {
        return Partial;
      }
      if buf[i] == '\r' {
        i := i + 1;
        if i == n {
          return Partial;
        }
        if buf[i] != '\n' {
          return Bad;
        }
        i := i + 1;
        cnt := cnt + 1;
      } else if buf[i] == '\n' {
        i := i + 1;
        cnt := cnt + 1;
      } else {
        i := i + 1;
        cnt := 0;
      }
      if cnt == 2 {
        return Ok((), i);
      }
    }
  }

  /** parse_token */
  method ParseToken(buf: array<char>, n: nat, start: nat, stop: char) returns (r: P<()>)
    requires start <= n <= buf.Length
    ensures r == Token(buf[..n], start, stop)
  {
    var i := start;
    if i == n {
      return Partial;
    }
    while buf[i] != stop
      invariant start <= i < n && Token(buf[..n], start, stop) == Token(buf[..n], i, stop)
      decreases n - i
    {
      if !IsToken(buf[i]) {
        return Bad;
      }
      i := i + 1;
      if i == n {
        return Partial;
      }
    }
    r := Ok((), i);
  }

  /** ADVANCE_TOKEN */
  method AdvanceToken(buf: array<char>, n: nat, start: nat) returns (r: P<()>)
    requires start <= n <= buf.Length
    ensures r == Target(buf[..n], start)
  {
    var i := start;
    if i == n {
      return Partial;
    }
    while buf[i] != ' '
      invariant start <= i < n && Target(buf[..n], start) == Target(buf[..n], i)
      decreases n - i
    {
      if !IsPrintable(buf[i]) && (buf[i] < ' ' || buf[i] == '\U{7F}') {
        return Bad;
      }
      i := i + 1;
      if i == n {
        return Partial;
      }
    }
    r := Ok((), i);
  }

  /** The loops that skip blanks in front of a field. */
  method SkipBlanks(buf: array<char>, n: nat, start: nat, tabs: bool) returns (r: P<()>)
    requires start <= n <= buf.Length
    ensures r == Skip(buf[..n], start, tabs)
  {
    var i := start;
    while true
      invariant start <= i <= n && Skip(buf[..n], start, tabs) == Skip(buf[..n], i, tabs)
      decreases n - i
    {
      if i == n {
        return Partial;
      }
      if !(buf[i] == ' ' || (tabs && buf[i] == '\t')) {
        return Ok((), i);
      }
      i := i + 1;
    }
  }

  /** parse_http_version */
  method ParseHttpVersion(buf: array<char>, n: nat, start: nat) returns (r: P<nat>)
    requires start <= n <= buf.Length
    ensures r == Version(buf[..n], start)
  {
    ghost var s := buf[..n];
    if n - start < 9 {
      return Partial;
    }
    var k := 0;
    while k < 7
      invariant k <= 7 && s[start..start + k] == VERSION[..k]
    {
      if buf[start + k] != VERSION[k] {
        assert s[start..start + 7][k] != VERSION[k];
        return Bad;
      }
      assert s[start..start + k + 1] == s[start..start + k] + [s[start + k]];
      assert VERSION[..k + 1] == VERSION[..k] + [VERSION[k]];
      k := k + 1;
    }
    assert VERSION[..7] == VERSION;
    if buf[start + 7] < '0' || '9' < buf[start + 7] {
      return Bad;
    }
    r := Ok(buf[start + 7] as int - '0' as int, start + 8);
  }

  /** The value of a header line and the loop that removes its trailing blanks. */
  method ParseValue(buf: array<char>, n: nat, start: nat) returns (r: P<string>)
    requires start <= n <= buf.Length
    ensures r == Value(buf[..n], start)
  {
    ghost var s := buf[..n];
    var l := GetTokenToEol(buf, n, start);
    match l {
      case Partial => return Partial;
      case Bad => return Bad;
      case Ok(end, p) =>
        var e := end;
        while e != start && IsBlank(buf[e - 1])
          invariant start <= e <= end && TrimEnd(s, start, end) == TrimEnd(s, start, e)
        {
          e := e - 1;
        }
        SliceOf(buf, n, start, e);
        r := Ok(buf[start..e], p);
    }
  }

  function Append(acc: seq<Header>, r: P<seq<Header>>): P<seq<Header>> {
    match r { case Ok(hs, p) => Ok(acc + hs, p) case Partial => Partial case Bad => Bad }
  }

  /** One round of parse_headers. */
  method ParseHeaderLine(buf: array<char>, n: nat, i: nat, folding: bool) returns (r: P<Header>)
    requires i < n <= buf.Length
    ensures r == HeaderLine(buf[..n], i, folding)
  {
    var name := None;
    var v := i;
    if !(folding && (buf[i] == ' ' || buf[i] == '\t')) {
      var k := ParseToken(buf, n, i, ':');
      if !k.Ok? {
        return if k.Partial? then Partial else Bad;
      }
      if k.pos == i {
        return Bad;
      }
      var w := SkipBlanks(buf, n, k.pos + 1, true);
      if !w.Ok? {
        return if w.Partial? then Partial else Bad;
      }
      SliceOf(buf, n, i, k.pos);
      name, v := Some(buf[i..k.pos]), w.pos;
    }
    var x := ParseValue(buf, n, v);
    match x {
      case Partial => return Partial;
      case Bad => return Bad;
      case Ok(value, p) => r := Ok(Header(name, value), p);
    }
  }

  /** Where the loop stops. */
  lemma HeadersStop(s: string, i: nat, max: nat, acc: seq<Header>, r: P<seq<Header>>)
    requires i <= |s| && r == Append(acc, Headers(s, i, |acc|, max))
    ensures i == |s| ==> r == Partial
    ensures i < |s| && s[i] == '\r' ==>
              r == if i + 1 == |s| then Partial else if s[i + 1] == '\n' then Ok(acc, i + 2) else Bad
    ensures i < |s| && s[i] == '\n' ==> r == Ok(acc, i + 1)
    ensures i < |s| && s[i] != '\r' && s[i] != '\n' ==>
              if |acc| == max then r == Bad else
              var h := HeaderLine(s, i, acc != []);
              (h.Partial? ==> r == Partial) && (h.Bad? ==> r == Bad)
  {
    assert acc + [] == acc;
  }

  lemma HeadersStep(s: string, i: nat, max: nat, acc: seq<Header>)
    requires i < |s| && s[i] != '\r' && s[i] != '\n' && |acc| != max
    ensures var h := HeaderLine(s, i, acc != []);
      h.Ok? ==>
        Append(acc, Headers(s, i, |acc|, max)) == Append(acc + [h.value], Headers(s, h.pos, |acc| + 1, max))
  {
    var h := HeaderLine(s, i, acc != []);
    if h.Ok? {
      var rest := Headers(s, h.pos, |acc| + 1, max);
      if rest.Ok? {
        assert acc + ([h.value] + rest.value) == acc + [h.value] + rest.value;
      }
    }
  }

  /** parse_headers */
  method ParseHeaders(buf: array<char>, n: nat, start: nat, max: nat) returns (r: P<seq<Header>>)
    requires start <= n <= buf.Length
    ensures r == Headers(buf[..n], start, 0, max)
  {
    ghost var s := buf[..n];
    var i := start;
    var headers: seq<Header> := [];
    ghost var whole := Headers(s, start, 0, max);
    if whole.Ok? {
      assert [] + whole.value == whole.value;
    }
    while true
      invariant start <= i <= n
      invariant whole == Append(headers, Headers(s, i, |headers|, max))
      decreases n - i
    {
      HeadersStop(s, i, max, headers, whole);
      if i == n {
        return Partial;
      }
      if buf[i] == '\r' {
        if i + 1 == n {
          return Partial;
        }
        return if buf[i + 1] == '\n' then Ok(headers, i + 2) else Bad;
      } else if buf[i] == '\n' {
        return Ok(headers, i + 1);
      }
      if |headers| == max {
        return Bad;
      }
      var h := ParseHeaderLine(buf, n, i, |headers| != 0);
      if !h.Ok? {
        return if h.Partial? then Partial else Bad;
      }
      HeadersStep(s, i, max, headers);
      headers := headers + [h.value];
      i := h.pos;
    }
  }

  /** From the version to the end of parse_request. */
  method ParseRequestTail(buf: array<char>, n: nat, method_: string, path: string, v: nat, max: nat)
    returns (r: P<Head>)
    requires v <= n <= buf.Length
    ensures r == RequestTail(buf[..n], method_, path, v, max)
  {
    var w := ParseHttpVersion(buf, n, v);
    if !w.Ok? {
      return if w.Partial? then Partial else Bad;
    }
    var i := w.pos;
    if buf[i] == '\r' {
      i := i + 1;
      if i == n {
        return Partial;
      }
      if buf[i] != '\n' {
        return Bad;
      }
      i := i + 1;
    } else if buf[i] == '\n' {
      i := i + 1;
    } else {
      return Bad;
    }
    var hs := ParseHeaders(buf, n, i, max);
    match hs {
      case Partial => r := Partial;
      case Bad => r := Bad;
      case Ok(h, p) => r := Ok(Head(method_, path, w.value, h), p);
    }
  }

  /** The request line, behind a blank line that may be in front of it. */
  method ParseRequestFrom(buf: array<char>, n: nat, i: nat, max: nat) returns (r: P<Head>)
    requires i <= n <= buf.Length
    ensures r == RequestFrom(buf[..n], i, max)
  {
    RequestFromStops(buf[..n], i, max);
    var name := ParseToken(buf, n, i, ' ');
    match name {
      case Partial => r := Partial;
      case Bad => r := Bad;
      case Ok(_, m) =>
        var blank := SkipBlanks(buf, n, m + 1, false);
        match blank {
          case Partial => r := Partial;
          case Bad => r := Bad;
          case Ok(_, a) =>
            RequestFromIs(buf[..n], i, max);
            r := ParseRequestTarget(buf, n, buf[..n][i..m], a, max);
        }
    }
  }

  /** The same from the request target on. */
  method ParseRequestTarget(buf: array<char>, n: nat, method_: string, a: nat, max: nat) returns (r: P<Head>)
    requires a <= n <= buf.Length
    ensures r == RequestTarget(buf[..n], method_, a, max)
  {
    var b := AdvanceToken(buf, n, a);
    if !b.Ok? {
      return if b.Partial? then Partial else Bad;
    }
    var v := SkipBlanks(buf, n, b.pos + 1, false);
    if !v.Ok? {
      return if v.Partial? then Partial else Bad;
    }
    if |method_| == 0 || b.pos - a == 0 {
      return Bad;
    }
    r := ParseRequestTail(buf, n, method_, buf[..n][a..b.pos], v.pos, max);
  }

  /** parse_request */
  method ParseRequest(buf: array<char>, n: nat, max: nat) returns (r: P<Head>)
    requires n <= buf.Length
    ensures r == Request(buf[..n], max)
  {
    ghost var s := buf[..n];
    var i := 0;
    if i == n {
      return Partial;
    }
    if buf[0] == '\r' {
      if n == 1 {
        return Partial;
      }
      if buf[1] != '\n' {
        return Bad;
      }
      i := 2;
    } else if buf[0] == '\n' {
      i := 1;
    }
    r := ParseRequestFrom(buf, n, i, max);
  }

  /** phr_parse_request */
  method PhrParseRequest(buf: array<char>, n: nat, max: nat, last: nat) returns (r: P<Head>)
    requires last <= n <= buf.Length
    ensures r == Parse(buf[..n], max, last)
  {
    if last != 0 {
      var c := IsComplete(buf, n, last);
      if !c.Ok? {
        return if c.Partial? then Partial else Bad;
      }
    }
    r := ParseRequest(buf, n, max);
  }
}
