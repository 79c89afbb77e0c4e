/** HTTP requests: printing (HttpRequest::dump, src/Http/Http.cc) and filling in from a parsed head
    (HttpRequestParser::execute, src/Http/HttpParser.cc). */
module Http {
  import opened RequestParser
  import opened HeaderMap
  import opened Common

  // The header that decides about the connection, as it is looked up and as it is printed.
  const CONNECTION := "Connection"
  const CONNECTION_PRINTED := "connection"
  const KEEP_ALIVE := "keep-alive"
  const LENGTH_PRINTED := "content-length"

  // ------------------------------------------------------------------ methods

  /** HTTP_METHOD_MAP */
  datatype Method =
    | DELETE | GET | HEAD | POST | PUT | CONNECT | OPTIONS | TRACE | COPY | LOCK
    | MKCOL | MOVE | PROPFIND | PROPPATCH | SEARCH | UNLOCK | BIND | REBIND | UNBIND | ACL
    | REPORT | MKACTIVITY | CHECKOUT | MERGE | MSEARCH | NOTIFY | SUBSCRIBE | UNSUBSCRIBE | PATCH | PURGE
    | MKCALENDAR | LINK | UNLINK | SOURCE

  /** HttpMethodToString */
  function MethodToString(m: Method): string {
    match m
    case DELETE => "DELETE"
    case GET => "GET"
    case HEAD => "HEAD"
    case POST => "POST"
    case PUT => "PUT"
    case CONNECT => "CONNECT"
    case OPTIONS => "OPTIONS"
    case TRACE => "TRACE"
    case COPY => "COPY"
    case LOCK => "LOCK"
    case MKCOL => "MKCOL"
    case MOVE => "MOVE"
    case PROPFIND => "PROPFIND"
    case PROPPATCH => "PROPPATCH"
    case SEARCH => "SEARCH"
    case UNLOCK => "UNLOCK"
    case BIND => "BIND"
    case REBIND => "REBIND"
    case UNBIND => "UNBIND"
    case ACL => "ACL"
    case REPORT => "REPORT"
    case MKACTIVITY => "MKACTIVITY"
    case CHECKOUT => "CHECKOUT"
    case MERGE => "MERGE"
    case MSEARCH => "M-SEARCH"
    case NOTIFY => "NOTIFY"
    case SUBSCRIBE => "SUBSCRIBE"
    case UNSUBSCRIBE => "UNSUBSCRIBE"
    case PATCH => "PATCH"
    case PURGE => "PURGE"
    case MKCALENDAR => "MKCALENDAR"
    case LINK => "LINK"
    case UNLINK => "UNLINK"
    case SOURCE => "SOURCE"
  }

  /** The number of a method in the enumeration. */
  function Ordinal(m: Method): (k: nat)
    ensures k < INVALID_METHOD
  {
    match m
    case DELETE => 0
    case GET => 1
    case HEAD => 2
    case POST => 3
    case PUT => 4
    case CONNECT => 5
    case OPTIONS => 6
    case TRACE => 7
    case COPY => 8
    case LOCK => 9
    case MKCOL => 10
    case MOVE => 11
    case PROPFIND => 12
    case PROPPATCH => 13
    case SEARCH => 14
    case UNLOCK => 15
    case BIND => 16
    case REBIND => 17
    case UNBIND => 18
    case ACL => 19
    case REPORT => 20
    case MKACTIVITY => 21
    case CHECKOUT => 22
    case MERGE => 23
    case MSEARCH => 24
    case NOTIFY => 25
    case SUBSCRIBE => 26
    case UNSUBSCRIBE => 27
    case PATCH => 28
    case PURGE => 29
    case MKCALENDAR => 30
    case LINK => 31
    case UNLINK => 32
    case SOURCE => 33
  }

  const INVALID_METHOD: nat := 34

  function MethodOf(k: nat): Method
    requires k < INVALID_METHOD
  {
    if k == 0 then DELETE
    else if k == 1 then GET
    else if k == 2 then HEAD
    else if k == 3 then POST
    else if k == 4 then PUT
    else if k == 5 then CONNECT
    else if k == 6 then OPTIONS
    else if k == 7 then TRACE
    else if k == 8 then COPY
    else if k == 9 then LOCK
    else if k == 10 then MKCOL
    else if k == 11 then MOVE
    else if k == 12 then PROPFIND
    else if k == 13 then PROPPATCH
    else if k == 14 then SEARCH
    else if k == 15 then UNLOCK
    else if k == 16 then BIND
    else if k == 17 then REBIND
    else if k == 18 then UNBIND
    else if k == 19 then ACL
    else if k == 20 then REPORT
    else if k == 21 then MKACTIVITY
    else if k == 22 then CHECKOUT
    else if k == 23 then MERGE
    else if k == 24 then MSEARCH
    else if k == 25 then NOTIFY
    else if k == 26 then SUBSCRIBE
    else if k == 27 then UNSUBSCRIBE
    else if k == 28 then PATCH
    else if k == 29 then PURGE
    else if k == 30 then MKCALENDAR
    else if k == 31 then LINK
    else if k == 32 then UNLINK
    else SOURCE
  }

  /** StringToHttpMethod compares with one name after the other; None is INVALID_METHOD. */
  function StringToMethod(name: string, k: nat := 0): (r: Option<Method>)
    ensures r.Some? ==> MethodToString(r.value) == name
    ensures r.None? ==> forall j :: k <= j < INVALID_METHOD ==> MethodToString(MethodOf(j)) != name
    decreases INVALID_METHOD - k
  {
    if k >= INVALID_METHOD then None
    else if MethodToString(MethodOf(k)) == name then Some(MethodOf(k))
    else StringToMethod(name, k + 1)
  }

  lemma AllListed(m: Method)
    ensures MethodOf(Ordinal(m)) == m
  {
  }

  /** A number that tells the names apart: length, first, third and last but one character. */
  function Fingerprint(s: string): int {
    if |s| < 3 then 0
    else ((|s| * 128 + s[0] as int) * 128 + s[2] as int) * 128 + s[|s| - 2] as int
  }

  function MethodNumber(m: Method): int {
    match m
    case DELETE => 13706836
    case GET => 7465541
    case HEAD => 9576641
    case POST => 9710035
    case PUT => 7613013
    case CONNECT => 15787843
    case OPTIONS => 15985230
    case TRACE => 11870403
    case COPY => 9496656
    case LOCK => 9642435
    case MKCOL => 11755983
    case MOVE => 9661270
    case PROPFIND => 18098126
    case PROPPATCH => 20195267
    case SEARCH => 13951171
    case UNLOCK => 13985347
    case BIND => 9480014
    case REBIND => 13934926
    case UNBIND => 13984078
    case ACL => 7366211
    case REPORT => 13936722
    case MKACTIVITY => 22241492
    case CHECKOUT => 17883861
    case MERGE => 11757895
    case MSEARCH => 18049475
    case NOTIFY => 13871686
    case SUBSCRIBE => 20242754
    case UNSUBSCRIBE => 24472002
    case PATCH => 11807299
    case PURGE => 11807047
    case MKCALENDAR => 22241729
    case LINK => 9643854
    case UNLINK => 13985358
    case SOURCE => 13953731
  }

  lemma Fingerprints(m: Method)
    ensures Fingerprint(MethodToString(m)) == MethodNumber(m)
  {
  }

  lemma NumbersDiffer(m: Method, n: Method)
    ensures MethodNumber(m) == MethodNumber(n) ==> m == n
  {
  }

  /** No two methods print alike, so reading a printed method gives it back. */
  lemma MethodRoundTrip(m: Method)
    ensures StringToMethod(MethodToString(m)) == Some(m)
  {
    var r := StringToMethod(MethodToString(m));
    AllListed(m);
    Fingerprints(m);
    Fingerprints(r.value);
    NumbersDiffer(m, r.value);
  }

  lemma MethodIsToken(m: Method)
    ensures MethodToString(m) != "" && forall i :: 0 <= i < |MethodToString(m)| ==> IsToken(MethodToString(m)[i])
  {
    if m in {DELETE, GET, HEAD, POST, PUT, CONNECT, OPTIONS, TRACE, COPY, LOCK, MKCOL, MOVE} {
      FirstMethodIsToken(m);
    } else if m in {PROPFIND, PROPPATCH, SEARCH, UNLOCK, BIND, REBIND, UNBIND, ACL, REPORT, MKACTIVITY, CHECKOUT} {
      SecondMethodIsToken(m);
    }
  }

  lemma FirstMethodIsToken(m: Method)
    requires m in {DELETE, GET, HEAD, POST, PUT, CONNECT, OPTIONS, TRACE, COPY, LOCK, MKCOL, MOVE}
    ensures MethodToString(m) != "" && forall i :: 0 <= i < |MethodToString(m)| ==> IsToken(MethodToString(m)[i])
  {
  }

  lemma SecondMethodIsToken(m: Method)
    requires m in {PROPFIND, PROPPATCH, SEARCH, UNLOCK, BIND, REBIND, UNBIND, ACL, REPORT, MKACTIVITY, CHECKOUT}
    ensures MethodToString(m) != "" && forall i :: 0 <= i < |MethodToString(m)| ==> IsToken(MethodToString(m)[i])
  {
  }

  // ------------------------------------------------------------------ requests as values

  datatype Req = Req(
    method_: Option<Method>, path: string, query: string, fragment: string, version: nat,
    headers: Map, body: string, close: bool, websocket: bool)

  /** What the default constructor makes. */
  const FRESH := Req(Some(GET), "/", "", "", 0x11, [], "", true, false)

  function Dec(n: nat): (s: string)
    ensures s != "" && forall i :: 0 <= i < |s| ==> '0' <= s[i] <= '9'
  {
    var d := [('0' as int + n % 10) as char];
    if n < 10 then d else Dec(n / 10) + d
  }

  function Flag(close: bool): string { if close then "close" else KEEP_ALIVE }

  function TargetText(q: Req): string {
    q.path + (if q.query == "" then "" else "?") + q.query
           + (if q.fragment == "" then "" else "#") + q.fragment
  }

  function RequestLine(q: Req): string
    requires q.method_.Some?
  {
    (MethodToString(q.method_.value) + " ") + ((TargetText(q) + " ") + (VersionText(q.version) + "\r\n"))
  }

  function VersionText(v: nat): string { "HTTP/" + Dec(v / 16) + "." + Dec(v % 16) }

  /** The header lines that are printed, in order. */
  function Lines(q: Req): seq<Entry> {
    (if q.websocket then q.headers else [Entry(CONNECTION_PRINTED, Flag(q.close))] + Without(q.headers, CONNECTION_PRINTED))
    + (if q.body == "" then [] else [Entry(LENGTH_PRINTED, Dec(|q.body|))])
  }

  function PrintLine(e: Entry): string { e.key + ": " + e.value + "\r\n" }

  function PrintLines(es: seq<Entry>): string {
    if es == [] then "" else PrintLine(es[0]) + PrintLines(es[1..])
  }

  /** Everything in front of the body. */
  function HeadText(q: Req): string
    requires q.method_.Some?
  {
    RequestLine(q) + (PrintLines(Lines(q)) + "\r\n")
  }

  lemma {:induction false} PrintLinesAppend(a: seq<Entry>, b: seq<Entry>)
    ensures PrintLines(a + b) == PrintLines(a) + PrintLines(b)
    decreases |a|
  {
    if a == [] {
      assert a + b == b;
    } else {
      assert (a + b)[1..] == a[1..] + b;
      PrintLinesAppend(a[1..], b);
    }
  }

  // ------------------------------------------------------------------ filling in a parsed head

  /** std::string::find, with the length for npos. */
  function Find(s: string, c: char): (k: nat)
    ensures k <= |s| && (k < |s| ==> s[k] == c) && forall i :: 0 <= i < k ==> s[i] != c
  {
    if s == "" || s[0] == c then 0 else Find(s[1..], c) + 1
  }

  function ToEntries(hs: seq<Header>): seq<Entry> {
    seq(|hs|, i requires 0 <= i < |hs| => Entry(match hs[i].name { case Some(n) => n case None => "" }, hs[i].value))
  }

  /** What an accepted head makes of the request object. */
  function Apply(q: Req, head: Head): Req {
    var k := Find(head.path, '?');
    var headers := SetAll(q.headers, ToEntries(head.headers));
    q.(method_ := StringToMethod(head.method_),
       path := head.path[..k],
       query := if k < |head.path| then head.path[k + 1..] else q.query,
       version := if head.minor == 1 then 0x11 else 0x10,
       headers := headers,
       close := GetOr(headers, CONNECTION, "") != KEEP_ALIVE)
  }

  // ------------------------------------------------------------------ printing, then parsing

  predicate NameOk(s: string) {
    s != "" && forall i :: 0 <= i < |s| ==> IsToken(s[i])
  }

  /** No control characters, and no blank at either end. */
  predicate ValueOk(s: string) {
    && (forall i :: 0 <= i < |s| ==> !IsCtl(s[i]))
    && (s != "" ==> !IsBlank(s[0]) && !IsBlank(s[|s| - 1]))
  }

  predicate TargetOk(s: string) {
    forall i :: 0 <= i < |s| ==> s[i] > ' ' && s[i] != '\U{7F}'
  }

  /** The requests that can be sent: a known method, HTTP/1.0 or HTTP/1.1, a target without spaces
      or controls, header names that are tokens, and at most 100 header lines. */
  predicate Sendable(q: Req) {
    && q.method_.Some? && !q.websocket && q.fragment == "" && q.version in {0x10, 0x11}
    && TargetText(q) != "" && TargetOk(q.path) && TargetOk(q.query) && '?' !in q.path
    && Valid(q.headers)
    && (forall i :: 0 <= i < |q.headers| ==> NameOk(q.headers[i].key) && ValueOk(q.headers[i].value))
    && |Lines(q)| <= 100
  }

  predicate At(s: string, i: nat, t: string) {
    i + |t| <= |s| && s[i..i + |t|] == t
  }

  lemma AtSplit(s: string, i: nat, a: string, b: string)
    requires At(s, i, a + b)
    ensures At(s, i, a) && At(s, i + |a|, b)
  {
    assert s[i..i + |a + b|][..|a|] == a;
    assert s[i..i + |a + b|][|a|..] == b;
  }

  lemma AtChar(s: string, i: nat, t: string, k: nat)
    requires At(s, i, t) && k < |t|
    ensures s[i + k] == t[k]
  {
    assert s[i..i + |t|][k] == t[k];
  }

  lemma {:induction false} TokenAt(s: string, i: nat, name: string, stop: char)
    requires At(s, i, name + [stop])
    requires forall k :: 0 <= k < |name| ==> IsToken(name[k]) && name[k] != stop
    ensures Token(s, i, stop) == Ok((), i + |name|)
    decreases |name|
  {
    AtChar(s, i, name + [stop], 0);
    if name != "" {
      assert name + [stop] == [name[0]] + (name[1..] + [stop]);
      AtSplit(s, i, [name[0]], name[1..] + [stop]);
      TokenAt(s, i + 1, name[1..], stop);
    }
  }

  lemma {:induction false} TargetAt(s: string, i: nat, t: string)
    requires At(s, i, t + " ") && TargetOk(t)
    ensures Target(s, i) == Ok((), i + |t|)
    decreases |t|
  {
    AtChar(s, i, t + " ", 0);
    if t != "" {
      assert t + " " == [t[0]] + (t[1..] + " ");
      AtSplit(s, i, [t[0]], t[1..] + " ");
      TargetAt(s, i + 1, t[1..]);
    }
  }

  lemma {:induction false} LineEndAt(s: string, i: nat, v: string)
    requires At(s, i, v + "\r\n") && forall k :: 0 <= k < |v| ==> !IsCtl(v[k])
    ensures LineEnd(s, i) == Ok(i + |v|, i + |v| + 2)
    decreases |v|
  {
    AtChar(s, i, v + "\r\n", 0);
    if v == "" {
      AtChar(s, i, v + "\r\n", 1);
    } else {
      assert v + "\r\n" == [v[0]] + (v[1..] + "\r\n");
      AtSplit(s, i, [v[0]], v[1..] + "\r\n");
      LineEndAt(s, i + 1, v[1..]);
    }
  }

  lemma ValueAt(s: string, i: nat, v: string)
    requires At(s, i, v + "\r\n") && ValueOk(v)
    ensures Value(s, i) == Ok(v, i + |v| + 2)
  {
    LineEndAt(s, i, v);
    AtSplit(s, i, v, "\r\n");
    if v != "" {
      AtChar(s, i, v, |v| - 1);
    }
  }

  lemma LineParts(k: string, v: string)
    ensures k + ": " + v + "\r\n" == (k + ":") + (" " + v + "\r\n")
    ensures k + ": " + v + "\r\n" == (k + ": ") + (v + "\r\n")
  {
    assert k + ": " == k + ":" + " ";
  }

  /** The parts of a printed line, where `colon` is the position of its colon. */
  lemma EntryAt(s: string, i: nat, e: Entry, colon: nat)
    requires At(s, i, PrintLine(e)) && colon == i + |e.key|
    ensures At(s, i, e.key + ":") && At(s, colon + 2, e.value + "\r\n")
    ensures colon + 1 < |s| && s[colon + 1] == ' '
  {
    LineParts(e.key, e.value);
    AtSplit(s, i, e.key + ":", " " + e.value + "\r\n");
    AtSplit(s, i, e.key + ": ", e.value + "\r\n");
    AtChar(s, i, e.key + ": ", |e.key| + 1);
  }

  lemma NameAt(s: string, i: nat, name: string, colon: nat)
    requires At(s, i, name + ":") && NameOk(name) && colon == i + |name|
    ensures Token(s, i, ':') == Ok((), colon)
    ensures colon < |s| && s[i..colon] == name && !IsBlank(s[i]) && s[i] == name[0]
  {
    TokenAt(s, i, name, ':');
    AtSplit(s, i, name, ":");
    AtChar(s, i, name, 0);
  }

  lemma BlankAt(s: string, colon: nat, value: string)
    requires colon + 1 < |s| && s[colon + 1] == ' ' && At(s, colon + 2, value + "\r\n") && ValueOk(value)
    ensures Skip(s, colon + 1, true) == Ok((), colon + 2)
  {
    AtChar(s, colon + 2, value + "\r\n", 0);
  }

  lemma HeaderLineAt(s: string, i: nat, e: Entry, folding: bool, colon: nat)
    requires At(s, i, PrintLine(e)) && NameOk(e.key) && ValueOk(e.value) && colon == i + |e.key|
    ensures HeaderLine(s, i, folding) == Ok(Header(Some(e.key), e.value), colon + 2 + |e.value| + 2)
    ensures i < |s| && s[i] == e.key[0]
  {
    EntryAt(s, i, e, colon);
    NameAt(s, i, e.key, colon);
    BlankAt(s, colon, e.value);
    ValueAt(s, colon + 2, e.value);
    HeaderLineIs(s, i, folding, colon, colon + 2, e.key, e.value, colon + 2 + |e.value| + 2);
  }

  lemma HeaderLineIs(s: string, i: nat, folding: bool, colon: nat, v: nat, name: string, value: string, p: nat)
    requires i < colon < |s| && s[i..colon] == name && !IsBlank(s[i])
    requires Token(s, i, ':') == Ok((), colon) && Skip(s, colon + 1, true) == Ok((), v) && Value(s, v) == Ok(value, p)
    ensures HeaderLine(s, i, folding) == Ok(Header(Some(name), value), p)
  {
  }

  lemma PrintLineLength(e: Entry)
    ensures |PrintLine(e)| == |e.key| + |e.value| + 4
  {
  }

  function ToHeaders(es: seq<Entry>): seq<Header> {
    seq(|es|, i requires 0 <= i < |es| => Header(Some(es[i].key), es[i].value))
  }

  predicate EntriesOk(es: seq<Entry>) {
    forall k :: 0 <= k < |es| ==> NameOk(es[k].key) && ValueOk(es[k].value)
  }

  lemma {:induction false} HeadersAt(s: string, i: nat, es: seq<Entry>, n: nat, max: nat, end: nat)
    requires At(s, i, PrintLines(es) + "\r\n") && n + |es| <= max && EntriesOk(es) && end == i + |PrintLines(es)| + 2
    ensures Headers(s, i, n, max) == Ok(ToHeaders(es), end)
    decreases |es|
  {
    if es == [] {
      EndAt(s, i, n, max);
      assert ToHeaders(es) == [];
    } else {
      var j, rest := i + |PrintLine(es[0])|, es[1..];
      PrintLinesStep(es, "\r\n");
      FirstHeaderAt(s, i, es[0], PrintLines(rest) + "\r\n", n != 0, j);
      RestOk(es);
      HeadersAt(s, j, rest, n + 1, max, end);
      HeadersConsAt(s, i, es, rest, n, max, j, end);
    }
  }

  lemma RestOk(es: seq<Entry>)
    requires es != [] && EntriesOk(es)
    ensures EntriesOk(es[1..])
  {
    assert forall k :: 0 <= k < |es[1..]| ==> es[1..][k] == es[k + 1];
  }

  lemma FirstHeaderAt(s: string, i: nat, e: Entry, more: string, folding: bool, j: nat)
    requires At(s, i, PrintLine(e) + more) && NameOk(e.key) && ValueOk(e.value) && j == i + |PrintLine(e)|
    ensures i < |s| && s[i] != '\r' && s[i] != '\n'
    ensures HeaderLine(s, i, folding) == Ok(Header(Some(e.key), e.value), j)
    ensures At(s, j, more)
  {
    PrintLineLength(e);
    AtSplit(s, i, PrintLine(e), more);
    HeaderLineAt(s, i, e, folding, i + |e.key|);
  }

  lemma PrintLinesStep(es: seq<Entry>, more: string)
    requires es != []
    ensures PrintLines(es) + more == PrintLine(es[0]) + (PrintLines(es[1..]) + more)
    ensures |PrintLines(es)| == |PrintLine(es[0])| + |PrintLines(es[1..])|
  {
    Associate(PrintLine(es[0]), PrintLines(es[1..]), more);
  }

  lemma Associate(a: string, b: string, c: string)
    ensures a + (b + c) == (a + b) + c
  {
  }

  lemma EndAt(s: string, i: nat, n: nat, max: nat)
    requires At(s, i, PrintLines([]) + "\r\n")
    ensures Headers(s, i, n, max) == Ok([], i + 2)
  {
    assert PrintLines([]) + "\r\n" == "\r\n";
    AtChar(s, i, "\r\n", 0);
    AtChar(s, i, "\r\n", 1);
  }

  lemma HeadersConsAt(s: string, i: nat, es: seq<Entry>, rest: seq<Entry>, n: nat, max: nat, j: nat, end: nat)
    requires es != [] && rest == es[1..] && i < |s| && s[i] != '\r' && s[i] != '\n' && n != max
    requires HeaderLine(s, i, n != 0) == Ok(Header(Some(es[0].key), es[0].value), j)
    requires Headers(s, j, n + 1, max) == Ok(ToHeaders(rest), end)
    ensures Headers(s, i, n, max) == Ok(ToHeaders(es), end)
  {
    var first := Header(Some(es[0].key), es[0].value);
    assert ToHeaders(es) == [first] + ToHeaders(rest);
    HeadersIs(s, i, n, max, first, ToHeaders(rest), j, end);
  }

  lemma FlagOk(close: bool)
    ensures NameOk(CONNECTION_PRINTED) && ValueOk(Flag(close))
  {
  }

  lemma LengthOk(n: nat)
    ensures NameOk(LENGTH_PRINTED) && ValueOk(Dec(n))
  {
  }

  predicate EntryOk(e: Entry) { NameOk(e.key) && ValueOk(e.value) }

  lemma LinesOk(q: Req)
    requires Sendable(q)
    ensures forall k :: 0 <= k < |Lines(q)| ==> NameOk(Lines(q)[k].key) && ValueOk(Lines(q)[k].value)
  {
    FlagOk(q.close);
    LengthOk(|q.body|);
    forall e | e in Lines(q) ensures EntryOk(e) {
      if e in Without(q.headers, CONNECTION_PRINTED) {
        assert e in q.headers;
      }
    }
    forall k | 0 <= k < |Lines(q)| ensures NameOk(Lines(q)[k].key) && ValueOk(Lines(q)[k].value) {
      assert Lines(q)[k] in Lines(q) && EntryOk(Lines(q)[k]);
    }
  }

  lemma VersionTextIs(v: nat)
    requires v in {0x10, 0x11}
    ensures VersionText(v) == VERSION + (if v == 0x11 then "1" else "0")
  {
  }

  lemma TargetTextOk(q: Req)
    requires Sendable(q)
    ensures TargetOk(TargetText(q)) && TargetText(q) != ""
  {
    var mark := if q.query == "" then "" else "?";
    TargetConcat(q.path, mark);
    TargetConcat(q.path + mark, q.query);
    assert q.path + mark + q.query + "" + "" == TargetText(q);
    assert q.path + mark + q.query + "" + "" == q.path + mark + q.query;
  }

  lemma TargetConcat(a: string, b: string)
    requires TargetOk(a) && TargetOk(b)
    ensures TargetOk(a + b) && |a + b| == |a| + |b|
  {
  }

  lemma MethodAt(s: string, name: string)
    requires At(s, 0, name + " ") && NameOk(name)
    ensures Token(s, 0, ' ') == Ok((), |name|)
    ensures s != "" && s[0] != '\r' && s[0] != '\n'
    ensures s[0..|name|] == name
  {
    TokenAt(s, 0, name, ' ');
    AtSplit(s, 0, name, " ");
    AtChar(s, 0, name, 0);
  }

  lemma TargetPartAt(s: string, a: nat, t: string)
    requires At(s, a, t + " ") && TargetOk(t) && t != ""
    ensures Skip(s, a, false) == Ok((), a) && Target(s, a) == Ok((), a + |t|) && s[a..a + |t|] == t
  {
    TargetAt(s, a, t);
    AtSplit(s, a, t, " ");
    AtChar(s, a, t, 0);
  }

  lemma VersionPartAt(s: string, v: nat, version: nat)
    requires At(s, v, VersionText(version) + "\r\n") && version in {0x10, 0x11}
    ensures Skip(s, v, false) == Ok((), v)
    ensures Version(s, v) == Ok(if version == 0x11 then 1 else 0, v + 8)
    ensures Eol(s, v + 8) == Ok((), v + 10)
  {
    var digit := if version == 0x11 then "1" else "0";
    VersionTextIs(version);
    AtSplit(s, v, VERSION + digit, "\r\n");
    AtChar(s, v + 8, "\r\n", 0);
    AtChar(s, v + 8, "\r\n", 1);
    AtSplit(s, v, VERSION, digit);
    AtChar(s, v + 7, digit, 0);
    AtChar(s, v, VERSION, 0);
  }

  lemma MethodStepAt(s: string, name: string, max: nat)
    requires At(s, 0, name + " ") && NameOk(name)
    requires Skip(s, |name| + 1, false) == Ok((), |name| + 1)
    ensures Request(s, max) == RequestTarget(s, name, |name| + 1, max)
  {
    MethodAt(s, name);
  }

  lemma TargetStepAt(s: string, method_: string, a: nat, b: nat, v: nat, max: nat)
    requires method_ != "" && a != b
    requires Target(s, a) == Ok((), b) && Skip(s, b + 1, false) == Ok((), v)
    ensures RequestTarget(s, method_, a, max) == RequestTail(s, method_, s[a..b], v, max)
  {
  }

  lemma LineAt(s: string, name: string, t: string, version: nat, a: nat, v: nat, max: nat)
    requires version in {0x10, 0x11} && NameOk(name) && TargetOk(t) && t != ""
    requires a == |name| + 1 && v == a + |t| + 1
    requires At(s, 0, name + " ") && At(s, a, t + " ") && At(s, v, VersionText(version) + "\r\n")
    ensures Request(s, max) == RequestTail(s, name, t, v, max)
  {
    TargetPartAt(s, a, t);
    MethodStepAt(s, name, max);
    TargetLineAt(s, name, t, version, a, a + |t|, v, max);
  }

  lemma TargetLineAt(s: string, name: string, t: string, version: nat, a: nat, b: nat, v: nat, max: nat)
    requires version in {0x10, 0x11} && name != "" && b == a + |t| && a != b && v == b + 1
    requires Target(s, a) == Ok((), b) && s[a..b] == t && At(s, v, VersionText(version) + "\r\n")
    ensures RequestTarget(s, name, a, max) == RequestTail(s, name, t, v, max)
  {
    VersionPartAt(s, v, version);
    TargetStepAt(s, name, a, b, v, max);
  }

  lemma HeadAt(s: string, name: string, t: string, version: nat, es: seq<Entry>, v: nat, h: nat)
    requires version in {0x10, 0x11} && At(s, v, VersionText(version) + "\r\n")
    requires h == v + 10 && At(s, h, PrintLines(es) + "\r\n") && |es| <= 100
    requires forall k :: 0 <= k < |es| ==> NameOk(es[k].key) && ValueOk(es[k].value)
    ensures RequestTail(s, name, t, v, 100)
         == Ok(Head(name, t, if version == 0x11 then 1 else 0, ToHeaders(es)), h + |PrintLines(es)| + 2)
  {
    VersionPartAt(s, v, version);
    HeadersAt(s, h, es, 0, 100, h + |PrintLines(es)| + 2);
  }

  lemma PartsAt(s: string, x: string, y: string, z: string, a: nat, v: nat)
    requires At(s, 0, x + (y + z)) && a == |x| && v == a + |y|
    ensures At(s, 0, x) && At(s, a, y) && At(s, v, z)
  {
    AtSplit(s, 0, x, y + z);
    AtSplit(s, a, y, z);
  }

  /** A text made of a request line and header lines reads back part by part. */
  lemma PartsReadBack(name: string, t: string, version: nat, es: seq<Entry>, body: string)
    requires version in {0x10, 0x11} && NameOk(name) && TargetOk(t) && t != "" && |es| <= 100
    requires forall k :: 0 <= k < |es| ==> NameOk(es[k].key) && ValueOk(es[k].value)
    ensures var head := (name + " ") + ((t + " ") + (VersionText(version) + "\r\n")) + (PrintLines(es) + "\r\n");
      Request(head + body, 100)
      == Ok(Head(name, t, if version == 0x11 then 1 else 0, ToHeaders(es)), |head|)
  {
    var line := (name + " ") + ((t + " ") + (VersionText(version) + "\r\n"));
    var more := PrintLines(es) + "\r\n";
    var s := line + more + body;
    var a := |name| + 1;
    var v := a + |t| + 1;
    var h := v + 10;
    VersionTextIs(version);
    assert At(s, 0, line + more);
    AtSplit(s, 0, line, more);
    PartsAt(s, name + " ", t + " ", VersionText(version) + "\r\n", a, v);
    LineAt(s, name, t, version, a, v, 100);
    HeadAt(s, name, t, version, es, v, h);
  }

  /** Printing a request and parsing the text accepts exactly the head: the method, the target and
      the version that were printed, and the header lines one by one. */
  lemma HeadReadsBack(q: Req)
    requires Sendable(q)
    ensures Request(HeadText(q) + q.body, 100)
         == Ok(Head(MethodToString(q.method_.value), TargetText(q), if q.version == 0x11 then 1 else 0,
                    ToHeaders(Lines(q))), |HeadText(q)|)
  {
    MethodIsToken(q.method_.value);
    TargetTextOk(q);
    LinesOk(q);
    PartsReadBack(MethodToString(q.method_.value), TargetText(q), q.version, Lines(q), q.body);
  }

  lemma FindMark(path: string, query: string)
    requires '?' !in path
    ensures Find(path + "?" + query, '?') == |path|
    ensures Find(path, '?') == |path|
  {
    var s := path + "?" + query;
    assert s[|path|] == '?';
    assert forall i :: 0 <= i < |path| ==> s[i] == path[i];
  }

  /** What a lookup must find in the headers of a request that was printed and read back. */
  function Expected(q: Req, k: string): Option<string> {
    if q.body != "" && Same(LENGTH_PRINTED, k) then Some(Dec(|q.body|))
    else if Same(CONNECTION_PRINTED, k) then Some(Flag(q.close))
    else Get(q.headers, k)
  }

  /** What lookups find after the printed lines have been read in. */
  lemma LinesLookup(q: Req, k: string)
    requires !q.websocket && Valid(q.headers)
    ensures Get(SetAll([], Lines(q)), k) == Expected(q, k)
  {
    var first := [Entry(CONNECTION_PRINTED, Flag(q.close))];
    var kept := Without(q.headers, CONNECTION_PRINTED);
    var m1 := Set([], CONNECTION_PRINTED, Flag(q.close));
    SetAllAppend([], first, kept);
    assert SetAll([], first) == m1;
    SetGet([], CONNECTION_PRINTED, Flag(q.close), k);
    SetAllGet(m1, q.headers, CONNECTION_PRINTED, k);
    var m2 := SetAll(m1, kept);
    if q.body == "" {
      assert Lines(q) == first + kept;
    } else {
      var last := [Entry(LENGTH_PRINTED, Dec(|q.body|))];
      SetAllAppend([], first + kept, last);
      assert Lines(q) == (first + kept) + last;
      SetGet(m2, LENGTH_PRINTED, Dec(|q.body|), k);
    }
  }

  /** The k-th character of a folded key. */
  lemma {:induction false} FoldAt(s: string, k: nat)
    requires k < |s| && forall i :: 0 <= i <= k ==> s[i] != '\0'
    ensures k < |Fold(s)| && Fold(s)[k] == Lower(s[k])
  {
    if k > 0 {
      assert forall i :: 0 <= i <= k - 1 ==> s[1..][i] == s[i + 1];
      FoldAt(s[1..], k - 1);
    }
  }

  lemma SameButFirst(a: string, b: string)
    requires a != "" && b != "" && a[0] != '\0' && b[0] != '\0' && Lower(a[0]) == Lower(b[0]) && a[1..] == b[1..]
    ensures Same(a, b)
  {
  }

  lemma DifferAt(a: string, b: string, k: nat)
    requires k < |a| && k < |b| && Lower(a[k]) != Lower(b[k])
    requires forall i :: 0 <= i <= k ==> a[i] != '\0' && b[i] != '\0'
    ensures !Same(a, b)
  {
    FoldAt(a, k);
    FoldAt(b, k);
  }

  /** The key that the parser looks up is that of the printed connection line. */
  lemma ConnectionKey(key: string)
    requires key == CONNECTION
    ensures Same(CONNECTION_PRINTED, key)
  {
    var c := CONNECTION_PRINTED;
    assert c[1..] == key[1..];
    SameButFirst(c, key);
  }

  lemma LengthKey(key: string)
    requires key == CONNECTION
    ensures !Same(LENGTH_PRINTED, key)
  {
    var l := LENGTH_PRINTED;
    assert l[3] == 't' && key[3] == 'n';
    assert forall i :: 0 <= i <= 3 ==> l[i] != '\0' && key[i] != '\0';
    DifferAt(l, key, 3);
  }

  /** The target splits at the first question mark, where the printer joined it. */
  lemma TargetSplits(q: Req)
    requires Sendable(q)
    ensures var t := TargetText(q);
      var k := Find(t, '?');
      t[..k] == q.path && (if k < |t| then t[k + 1..] else "") == q.query
  {
    FindMark(q.path, q.query);
    var t := TargetText(q);
    assert t == if q.query == "" then q.path else q.path + "?" + q.query;
  }

  lemma EntriesBack(es: seq<Entry>)
    ensures ToEntries(ToHeaders(es)) == es
  {
  }

  lemma HeadersReadBack(q: Req)
    requires !q.websocket && Valid(q.headers)
    ensures var h := SetAll([], ToEntries(ToHeaders(Lines(q))));
      && Valid(h) && (forall k :: Get(h, k) == Expected(q, k))
      && (GetOr(h, CONNECTION, "") != KEEP_ALIVE) == q.close
  {
    EntriesBack(Lines(q));
    SetAllValid([], Lines(q));
    var h := SetAll([], Lines(q));
    forall k ensures Get(h, k) == Expected(q, k) {
      LinesLookup(q, k);
    }
    CloseReadsBack(q, h, CONNECTION);
  }

  lemma CloseReadsBack(q: Req, h: Map, key: string)
    requires key == CONNECTION && Get(h, key) == Expected(q, key)
    ensures (GetOr(h, key, "") != KEEP_ALIVE) == q.close
  {
    ConnectionKey(key);
    LengthKey(key);
    FlagReadsBack(q.close);
  }

  /** Print, then parse: for every sendable request the parser consumes exactly the printed head,
      leaves the body, and recovers method, path, query, version and close flag; every header is
      found again, case-insensitively, with `connection` and `content-length` as printed. */
  lemma PrintThenParse(q: Req)
    requires Sendable(q)
    ensures var r := Request(HeadText(q) + q.body, 100);
      && r.Ok? && r.pos == |HeadText(q)|
      && var p := Apply(FRESH, r.value);
      && p.method_ == q.method_ && p.path == q.path && p.query == q.query
      && p.version == q.version && p.close == q.close && Valid(p.headers)
      && forall k :: Get(p.headers, k) == Expected(q, k)
  {
    HeadReadsBack(q);
    MethodRoundTrip(q.method_.value);
    TargetSplits(q);
    HeadersReadBack(q);
  }

  lemma FlagReadsBack(close: bool)
    ensures (Flag(close) != KEEP_ALIVE) == close
  {
  }

  // ------------------------------------------------------------------ the objects

  // ------------------------------------------------------------------ the format, in its own terms

  predicate AllDigits(s: string) {
    s != "" && forall i :: 0 <= i < |s| ==> '0' <= s[i] <= '9'
  }

  /** The number that decimal digits stand for. */
  function DecimalValue(s: string): nat
    requires forall i :: 0 <= i < |s| ==> '0' <= s[i] <= '9'
  {
    if s == "" then 0 else 10 * DecimalValue(s[..|s| - 1]) + (s[|s| - 1] as int - '0' as int)
  }

  lemma {:induction false} DecReadsBack(n: nat)
    ensures AllDigits(Dec(n)) && DecimalValue(Dec(n)) == n
  {
    if n >= 10 {
      DecReadsBack(n / 10);
      assert Dec(n)[..|Dec(n)| - 1] == Dec(n / 10);
    }
  }

  /** The connection is kept exactly if a connection header, in any spelling, says so. */
  lemma KeptAlive(h: Map)
    requires Valid(h) && NoNul(h)
    ensures GetOr(h, CONNECTION, "") == KEEP_ALIVE <==> Has(h, "Connection", "keep-alive")
  {
    GetBySpelling(h, CONNECTION, KEEP_ALIVE);
  }

  /** What an accepted head does to the close flag. */
  lemma CloseDecided(q: Req, head: Head)
    requires Valid(Apply(q, head).headers) && NoNul(Apply(q, head).headers)
    ensures Apply(q, head).close <==> !Has(Apply(q, head).headers, "Connection", "keep-alive")
  {
    KeptAlive(Apply(q, head).headers);
  }

  lemma MethodNamed(name: string)
    ensures forall m :: StringToMethod(name) == Some(m) <==> MethodToString(m) == name
  {
    var r := StringToMethod(name);
    forall m ensures r == Some(m) <==> MethodToString(m) == name {
      if MethodToString(m) == name {
        MethodRoundTrip(m);
      }
    }
  }

  /** What an accepted head does to the rest of the request: the method is the one of that name, if there
      is one; the target is path and query, joined by its first question mark; and every version but
      HTTP/1.1 counts as 1.0. */
  lemma HeadApplied(q: Req, head: Head)
    ensures var p := Apply(q, head);
      && (forall m :: p.method_ == Some(m) <==> MethodToString(m) == head.method_)
      && '?' !in p.path && (head.path == p.path + "?" + p.query || (head.path == p.path && p.query == q.query))
      && p.version == (if head.minor == 1 then 0x11 else 0x10)
      && p.fragment == q.fragment && p.body == q.body && p.websocket == q.websocket
  {
    MethodNamed(head.method_);
    var k := Find(head.path, '?');
    if k < |head.path| {
      assert head.path == head.path[..k] + [head.path[k]] + head.path[k + 1..];
    } else {
      assert head.path[..k] == head.path;
    }
  }

  /** The request line as it is printed. */
  lemma RequestLineIs(q: Req)
    requires q.method_.Some?
    ensures RequestLine(q) == MethodToString(q.method_.value) + " " + TargetText(q)
                              + " HTTP/" + Dec(q.version / 16) + "." + Dec(q.version % 16) + "\r\n"
  {
    var m, t, a, b := MethodToString(q.method_.value), TargetText(q), Dec(q.version / 16), Dec(q.version % 16);
    var v := VersionText(q.version);
    assert v == "HTTP/" + a + "." + b;
    assert RequestLine(q) == (m + " ") + ((t + " ") + (v + "\r\n"));
    assert (m + " " + t + " HTTP/" + a + "." + b + "\r\n") == m + " " + t + " " + v + "\r\n";
  }

  /** The header lines as they are printed: each is a key, a colon, a blank, a value and an end of line. */
  lemma HeaderLinesAre(q: Req)
    requires !q.websocket
    ensures Lines(q) == [Entry("connection", if q.close then "close" else "keep-alive")] + Without(q.headers, "connection")
                        + (if q.body == "" then [] else [Entry("content-length", Dec(|q.body|))])
  {
  }

  lemma EveryLineIs(es: seq<Entry>, i: nat)
    requires i < |es|
    ensures PrintLines(es) == PrintLines(es[..i]) + (es[i].key + ": " + es[i].value + "\r\n") + PrintLines(es[i + 1..])
  {
    assert es == es[..i] + es[i..];
    PrintLinesAppend(es[..i], es[i..]);
    assert es[i..][0] == es[i] && es[i..][1..] == es[i + 1..];
    Associate(PrintLines(es[..i]), PrintLine(es[i]), PrintLines(es[i + 1..]));
  }

  class HttpRequest {
    var method_: Option<Method>
    var path: string
    var query: string
    var fragment: string
    var version: nat
    var headers: Map
    var body: string
    var close: bool
    var websocket: bool

    constructor ()
      ensures View() == FRESH
    {
      method_, path, query, fragment, version := Some(GET), "/", "", "", 0x11;
      headers, body, close, websocket := [], "", true, false;
    }

    function View(): Req
      reads this
    {
      Req(method_, path, query, fragment, version, headers, body, close, websocket)
    }

    /** setHeader: the key is found from now on, under every spelling; nothing else changes. */
    method SetHeader(key: string, value: string)
      modifies this`headers
      ensures headers == Set(old(headers), key, value)
      ensures forall k :: Get(headers, k) == if Same(key, k) then Some(value) else Get(old(headers), k)
      ensures Valid(old(headers)) ==> Valid(headers)
    {
      forall k ensures Get(Set(headers, key, value), k) == if Same(key, k) then Some(value) else Get(headers, k) {
        SetGet(headers, key, value, k);
      }
      if Valid(headers) {
        SetValid(headers, key, value);
      }
      headers := Set(headers, key, value);
    }

    /** init: the close flag follows the Connection header. */
    method Init()
      modifies this`close
      ensures close == (GetOr(headers, CONNECTION, "") != KEEP_ALIVE)
    {
      var con := GetOr(headers, CONNECTION, "");
      close := con != KEEP_ALIVE;
    }

    /** dump: what is written is the head of the request followed by its body.  For the invalid method
        the name is read past the end of the table of names: no result. */
    method Dump() returns (os: Option<string>)
      ensures os == if method_.None? then None else Some(HeadText(View()) + body)
    {
      if method_.None? {
        return None;
      }
      var text := DumpAll();
      return Some(text);
    }

    method DumpAll() returns (os: string)
      requires method_.Some?
      ensures os == HeadText(View()) + body
    {
      os := MethodToString(method_.value) + " ";
      os := os + (path + (if query == "" then "" else "?") + query
                       + (if fragment == "" then "" else "#") + fragment);
      os := os + " ";
      os := os + ("HTTP/" + Dec(version / 16) + "." + Dec(version % 16));
      os := os + "\r\n";
      Regroup(MethodToString(method_.value) + " ", TargetText(View()), VersionText(version), "\r\n");
      assert os == RequestLine(View());
      var lines := DumpHeaders();
      os := os + lines;
      if body != "" {
        os := os + (LENGTH_PRINTED + ": " + Dec(|body|) + "\r\n");
        os := os + "\r\n";
        os := os + body;
      } else {
        os := os + "\r\n";
      }
      TailText(View(), lines, os);
    }

    /** The loop over the headers, behind the connection line. */
    method DumpHeaders() returns (os: string)
      ensures os == PrintLines(FrontLines(View()))
    {
      ghost var first := if websocket then [] else [Entry(CONNECTION_PRINTED, Flag(close))];
      os := "";
      if !websocket {
        os := "connection: " + Flag(close) + "\r\n";
        assert os == PrintLine(first[0]);
      }
      assert os == PrintLines(first);
      var rest := headers;
      while rest != []
        invariant PrintLines(first) + PrintLines(Kept(headers, websocket)) == os + PrintLines(Kept(rest, websocket))
        decreases |rest|
      {
        KeptStep(os, rest, websocket);
        if websocket || !Same(rest[0].key, CONNECTION_PRINTED) {
          os := os + (rest[0].key + ": " + rest[0].value + "\r\n");
        }
        rest := rest[1..];
      }
      assert os + "" == os;
      PrintLinesAppend(first, Kept(headers, websocket));
      assert websocket ==> first + headers == headers;
    }
  }

  /** The headers that are printed as they are. */
  function Kept(headers: Map, websocket: bool): seq<Entry> {
    if websocket then headers else Without(headers, CONNECTION_PRINTED)
  }

  /** Printing the next header. */
  lemma KeptStep(os: string, rest: seq<Entry>, websocket: bool)
    requires rest != []
    ensures os + PrintLines(Kept(rest, websocket)) ==
            (if websocket || !Same(rest[0].key, CONNECTION_PRINTED) then os + PrintLine(rest[0]) else os)
            + PrintLines(Kept(rest[1..], websocket))
  {
    if websocket || !Same(rest[0].key, CONNECTION_PRINTED) {
      var kept := Kept(rest[1..], websocket);
      assert Kept(rest, websocket) == [rest[0]] + kept;
      assert Kept(rest, websocket)[1..] == kept;
      Associate(os, PrintLine(rest[0]), PrintLines(kept));
    }
  }

  lemma Regroup(m: string, t: string, v: string, e: string)
    ensures (((m + t) + " ") + v) + e == m + ((t + " ") + (v + e))
  {
  }

  /** The header lines in front of the content length. */
  function FrontLines(q: Req): seq<Entry> {
    if q.websocket then q.headers else [Entry(CONNECTION_PRINTED, Flag(q.close))] + Without(q.headers, CONNECTION_PRINTED)
  }

  lemma TailText(q: Req, lines: string, os: string)
    requires q.method_.Some? && lines == PrintLines(FrontLines(q))
    requires os == if q.body == "" then (RequestLine(q) + lines) + "\r\n"
      else (((RequestLine(q) + lines) + PrintLine(Entry(LENGTH_PRINTED, Dec(|q.body|)))) + "\r\n") + q.body
    ensures os == HeadText(q) + q.body
  {
    if q.body == "" {
      assert Lines(q) == FrontLines(q);
      RegroupLines(RequestLine(q), lines, "", "");
    } else {
      var e := Entry(LENGTH_PRINTED, Dec(|q.body|));
      assert Lines(q) == FrontLines(q) + [e];
      PrintLinesAppend(FrontLines(q), [e]);
      assert PrintLines([e]) == PrintLine(e);
      RegroupLines(RequestLine(q), lines, PrintLine(e), q.body);
    }
  }

  lemma RegroupLines(r: string, l: string, e: string, b: string)
    ensures (((r + l) + e) + "\r\n") + b == (r + ((l + e) + "\r\n")) + b
    ensures (r + l) + "\r\n" == (r + (l + "\r\n")) + ""
  {
  }

  class HttpRequestParser {
    const request: HttpRequest
    var error: bool
    var finished: bool

    constructor ()
      ensures fresh(request) && request.View() == FRESH && !error && !finished
    {
      request := new HttpRequest();
      error, finished := false, false;
    }

    /** execute: parses the first n bytes of data, of which an earlier call has seen `last`. */
    method Execute(data: array<char>, n: nat, last: nat) returns (ret: int)
      requires last <= n <= data.Length
      modifies this, request
      ensures match Parse(data[..n], 100, last)
        case Ok(head, r) => ret == r && finished && error == old(error) && request.View() == Apply(old(request.View()), head)
        case Bad => ret == -1 && error && finished == old(finished) && request.View() == old(request.View())
        case Partial => ret == -2 && error == old(error) && finished == old(finished) && request.View() == old(request.View())
    {
      var p := PhrParseRequest(data, n, 100, last);
      match p {
        case Partial => ret := -2;
        case Bad =>
          error := true;
          ret := -1;
        case Ok(head, r) =>
          finished := true;
          Fill(head);
          ret := r;
      }
    }

    /** The loop over the parsed header lines. */
    method FillHeaders(hs: seq<Header>)
      modifies request`headers
      ensures request.headers == SetAll(old(request.headers), ToEntries(hs))
    {
      ghost var entries := ToEntries(hs);
      var i := 0;
      assert entries[0..] == entries;
      while i < |hs|
        invariant i <= |hs|
        invariant SetAll(old(request.headers), entries) == SetAll(request.headers, entries[i..])
      {
        assert entries[i..][1..] == entries[i + 1..];
        request.SetHeader(match hs[i].name { case Some(n) => n case None => "" }, hs[i].value);
        i := i + 1;
      }
    }

    /** Path and query, split at the first question mark. */
    method FillTarget(target: string)
      modifies request`path, request`query
      ensures var k := Find(target, '?');
        && request.path == target[..k]
        && request.query == if k < |target| then target[k + 1..] else old(request.query)
    {
      var mark := Find(target, '?');
      if mark < |target| {
        request.path := target[..mark];
        request.query := target[mark + 1..];
      } else {
        request.path := target;
        assert target[..mark] == target;
      }
    }

    /** Method, target and version. */
    method FillLine(head: Head)
      modifies request`path, request`query, request`version, request`method_
      ensures var k := Find(head.path, '?');
        var q := old(request.View());
        request.View() == q.(
          method_ := StringToMethod(head.method_), path := head.path[..k],
          query := if k < |head.path| then head.path[k + 1..] else q.query,
          version := if head.minor == 1 then 0x11 else 0x10)
    {
      FillTarget(head.path);
      request.version := if head.minor == 1 then 0x11 else 0x10;
      request.method_ := StringToMethod(head.method_);
    }

    /** The part of execute that fills in the request object. */
    method Fill(head: Head)
      modifies request
      ensures request.View() == Apply(old(request.View()), head)
    {
      FillLine(head);
      ghost var q := request.View();
      FillHeaders(head.headers);
      assert request.View() == q.(headers := SetAll(q.headers, ToEntries(head.headers)));
      request.Init();
    }
  }
}
