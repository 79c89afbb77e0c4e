/** std::map with CompareIngnoreCase (src/Http/Http.cc:9-11, src/Http/Http.cc:147-172): the entries
    in iteration order, which is the order of the folded keys. */
module HeaderMap {
  import opened Common

  datatype Entry = Entry(key: string, value: string)

  type Map = seq<Entry>

  function Lower(c: char): char {
    if 'A' <= c <= 'Z' then (c as int + 32) as char else c
  }

  /** What strcasecmp sees of a key: the bytes up to the first NUL, without case. */
  function Fold(key: string): string {
    if key == "" || key[0] == '\0' then "" else [Lower(key[0])] + Fold(key[1..])
  }

  predicate Same(a: string, b: string) { Fold(a) == Fold(b) }

  /** The same character, or the two cases of one ASCII letter. */
  predicate SameLetter(c: char, d: char) {
    || c == d
    || ('A' <= c <= 'Z' && d as int == c as int + 32)
    || ('A' <= d <= 'Z' && c as int == d as int + 32)
  }

  /** Two spellings of one key. */
  predicate Spelling(a: string, b: string) {
    |a| == |b| && forall i :: 0 <= i < |a| ==> SameLetter(a[i], b[i])
  }

  lemma {:induction false} FoldedIs(s: string)
    requires '\0' !in s
    ensures |Fold(s)| == |s| && forall i :: 0 <= i < |s| ==> Fold(s)[i] == Lower(s[i])
  {
    if s != "" {
      FoldedIs(s[1..]);
      assert forall i :: 0 < i < |s| ==> s[i] == s[1..][i - 1];
    }
  }

  /** Keys without NUL are the same exactly if they are spelled alike up to the case of ASCII letters. */
  lemma SameIsSpelling(a: string, b: string)
    requires '\0' !in a && '\0' !in b
    ensures Same(a, b) <==> Spelling(a, b)
  {
    FoldedIs(a);
    FoldedIs(b);
    if Same(a, b) {
      forall i | 0 <= i < |a| ensures SameLetter(a[i], b[i]) {
        assert Lower(a[i]) == Fold(a)[i] == Fold(b)[i] == Lower(b[i]);
      }
    }
    if Spelling(a, b) {
      assert forall i :: 0 <= i < |a| ==> SameLetter(a[i], b[i]) && Fold(a)[i] == Fold(b)[i];
    }
  }

  /** Of a key with a NUL only what comes before it counts. */
  lemma {:induction false} NulEndsKey(s: string, rest: string)
    ensures Same(s + "\0" + rest, s)
  {
    if s != "" {
      NulEndsKey(s[1..], rest);
      assert (s + "\0" + rest)[1..] == s[1..] + "\0" + rest;
    }
  }

  /** Lexicographic order, as strcasecmp(a, b) < 0 gives it on folded keys. */
  predicate Less(a: string, b: string) {
    b != "" && (a == "" || a[0] < b[0] || (a[0] == b[0] && Less(a[1..], b[1..])))
  }

  /** The first difference decides; a shorter key comes before its continuations. */
  lemma {:induction false} LessIs(a: string, b: string, k: nat)
    requires k <= |a| && k < |b| && a[..k] == b[..k] && (k == |a| || a[k] != b[k])
    ensures Less(a, b) <==> k == |a| || a[k] < b[k]
    decreases k
  {
    if k > 0 {
      assert a[0] == a[..k][0] == b[..k][0] == b[0];
      assert a[1..][..k - 1] == a[..k][1..] && b[1..][..k - 1] == b[..k][1..];
      LessIs(a[1..], b[1..], k - 1);
    }
  }

  lemma {:induction false} LessTotal(a: string, b: string)
    ensures Less(a, b) || a == b || Less(b, a)
  {
    if a != "" && b != "" && a[0] == b[0] {
      LessTotal(a[1..], b[1..]);
      assert a == [a[0]] + a[1..] && b == [b[0]] + b[1..];
    }
  }

  lemma {:induction false} LessStrict(a: string, b: string, c: string)
    ensures !Less(a, a)
    ensures Less(a, b) && Less(b, c) ==> Less(a, c)
    decreases |a|
  {
    if a != "" {
      LessStrict(a[1..], if b != "" then b[1..] else b, if c != "" then c[1..] else c);
    }
  }

  /** Keys strictly ascend: the map holds each key, up to case, once. */
  predicate Valid(m: Map) {
    forall i, j :: 0 <= i < j < |m| ==> Less(Fold(m[i].key), Fold(m[j].key))
  }

  /** find */
  function Get(m: Map, key: string): Option<string> {
    if m == [] then None
    else if Same(m[0].key, key) then Some(m[0].value)
    else Get(m[1..], key)
  }

  /** getHeader(key, def) */
  function GetOr(m: Map, key: string, def: string): string {
    match Get(m, key) { case Some(v) => v case None => def }
  }

  /** m[key] = value: an entry that is there keeps the spelling of its key. */
  function Set(m: Map, key: string, value: string): Map {
    if m == [] then [Entry(key, value)]
    else if Same(m[0].key, key) then [Entry(m[0].key, value)] + m[1..]
    else if Less(Fold(key), Fold(m[0].key)) then [Entry(key, value)] + m
    else [m[0]] + Set(m[1..], key, value)
  }

  lemma {:induction false} SetGet(m: Map, key: string, value: string, k: string)
    ensures Get(Set(m, key, value), k) == if Same(key, k) then Some(value) else Get(m, k)
  {
    if m != [] && !Same(m[0].key, key) && !Less(Fold(key), Fold(m[0].key)) {
      SetGet(m[1..], key, value, k);
    }
  }

  lemma {:induction false} SetKeys(m: Map, key: string, value: string, low: string)
    requires forall i :: 0 <= i < |m| ==> Less(low, Fold(m[i].key))
    requires Less(low, Fold(key))
    ensures forall i :: 0 <= i < |Set(m, key, value)| ==> Less(low, Fold(Set(m, key, value)[i].key))
  {
    if m != [] && !Same(m[0].key, key) && !Less(Fold(key), Fold(m[0].key)) {
      SetKeys(m[1..], key, value, low);
    }
  }

  lemma {:induction false} SetValid(m: Map, key: string, value: string)
    requires Valid(m)
    ensures Valid(Set(m, key, value))
  {
    if m == [] || Same(m[0].key, key) {
    } else if Less(Fold(key), Fold(m[0].key)) {
      forall i | 0 <= i < |m| ensures Less(Fold(key), Fold(m[i].key)) {
        LessStrict(Fold(key), Fold(m[0].key), Fold(m[i].key));
      }
    } else {
      SetValid(m[1..], key, value);
      LessTotal(Fold(key), Fold(m[0].key));
      SetKeys(m[1..], key, value, Fold(m[0].key));
    }
  }

  /** No key occurs twice, so lookup does not depend on the order of the entries. */
  lemma GetAt(m: Map, i: nat)
    requires Valid(m) && i < |m|
    ensures Get(m, m[i].key) == Some(m[i].value)
  {
    if i > 0 {
      LessStrict(Fold(m[0].key), Fold(m[i].key), "");
      GetAt(m[1..], i - 1);
    }
  }

  // ------------------------------------------------------------------ many settings in a row

  function SetAll(m: Map, lines: seq<Entry>): Map
    decreases |lines|
  {
    if lines == [] then m else SetAll(Set(m, lines[0].key, lines[0].value), lines[1..])
  }

  lemma {:induction false} GetFound(m: Map, k: string) returns (i: nat)
    requires Get(m, k).Some?
    ensures i < |m| && Same(m[i].key, k) && Get(m, k) == Some(m[i].value)
  {
    if Same(m[0].key, k) {
      i := 0;
    } else {
      i := GetFound(m[1..], k);
      i := i + 1;
    }
  }

  predicate NoNul(m: Map) {
    forall i :: 0 <= i < |m| ==> '\0' !in m[i].key
  }

  /** The map has an entry under some spelling of the key, with this value. */
  predicate Has(m: Map, k: string, value: string) {
    exists i :: 0 <= i < |m| && Spelling(m[i].key, k) && m[i].value == value
  }

  lemma GetBySame(m: Map, i: nat, k: string)
    requires Valid(m) && i < |m| && Same(m[i].key, k)
    ensures Get(m, k) == Some(m[i].value)
  {
    GetAt(m, i);
    GetOfSame(m, m[i].key, k);
  }

  lemma {:induction false} GetOfSame(m: Map, k1: string, k2: string)
    requires Same(k1, k2)
    ensures Get(m, k1) == Get(m, k2)
  {
    if m != [] {
      GetOfSame(m[1..], k1, k2);
    }
  }

  /** Looking up finds what is there under any spelling of the key, and nothing else. */
  lemma GetBySpelling(m: Map, k: string, value: string)
    requires Valid(m) && NoNul(m) && '\0' !in k
    ensures Get(m, k) == Some(value) <==> Has(m, k, value)
  {
    if Get(m, k) == Some(value) {
      var i := GetFound(m, k);
      SameIsSpelling(m[i].key, k);
    }
    if Has(m, k, value) {
      var i :| 0 <= i < |m| && Spelling(m[i].key, k) && m[i].value == value;
      SameIsSpelling(m[i].key, k);
      GetBySame(m, i, k);
    }
  }

  lemma {:induction false} SetAllValid(m: Map, lines: seq<Entry>)
    requires Valid(m)
    ensures Valid(SetAll(m, lines))
    decreases |lines|
  {
    if lines != [] {
      SetValid(m, lines[0].key, lines[0].value);
      SetAllValid(Set(m, lines[0].key, lines[0].value), lines[1..]);
    }
  }

  lemma {:induction false} SetAllAppend(m: Map, a: seq<Entry>, b: seq<Entry>)
    ensures SetAll(m, a + b) == SetAll(SetAll(m, a), b)
    decreases |a|
  {
    if a == [] {
      assert a + b == b;
    } else {
      assert (a + b)[1..] == a[1..] + b;
      SetAllAppend(Set(m, a[0].key, a[0].value), a[1..], b);
    }
  }

  /** Setting every entry of a map - without those the filter drops - makes lookups what they were
      in that map, and leaves the other keys alone. */
  lemma {:induction false} SetAllGet(m: Map, h: Map, drop: string, k: string)
    requires Valid(h)
    ensures Get(SetAll(m, Without(h, drop)), k)
         == if Same(drop, k) || Get(h, k).None? then Get(m, k) else Get(h, k)
    decreases |h|
  {
    if h != [] {
      var e := h[0];
      if Same(e.key, drop) {
        SetAllGet(m, h[1..], drop, k);
      } else {
        SetAllGet(Set(m, e.key, e.value), h[1..], drop, k);
        SetGet(m, e.key, e.value, k);
        assert Without(h, drop)[1..] == Without(h[1..], drop);
        if Same(e.key, k) {
          NotLater(h, k);
        }
      }
      if Same(e.key, k) && Same(e.key, drop) {
        NotLater(h, k);
      }
    }
  }

  lemma {:induction false} GetNone(m: Map, k: string)
    requires forall i :: 0 <= i < |m| ==> !Same(m[i].key, k)
    ensures Get(m, k).None?
  {
    if m != [] {
      GetNone(m[1..], k);
    }
  }

  lemma NotLater(h: Map, k: string)
    requires Valid(h) && h != [] && Same(h[0].key, k)
    ensures Get(h[1..], k).None?
  {
    forall i | 0 <= i < |h[1..]| ensures !Same(h[1..][i].key, k) {
      assert h[1..][i] == h[i + 1];
      LessStrict(Fold(h[0].key), Fold(h[i + 1].key), "");
    }
    GetNone(h[1..], k);
  }

  /** The entries whose key is not `drop`, up to case. */
  function Without(m: Map, drop: string): (r: Map)
    ensures |r| <= |m|
    ensures forall i :: 0 <= i < |r| ==> r[i] in m && !Same(r[i].key, drop)
  {
    if m == [] then []
    else if Same(m[0].key, drop) then Without(m[1..], drop)
    else [m[0]] + Without(m[1..], drop)
  }
}
