/** The block chain of src/Bytearray.cc: a linked list of equal blocks with a cached read node and a
    cached write node, which together behave as one array of cells. */
module ByteArrays {
  import opened Codec

  // ------------------------------------------------------------------ positions in a chain

  /** Where block k begins. */
  function Start(k: nat, b: nat): nat {
    if k == 0 then 0 else Start(k - 1, b) + b
  }

  lemma {:induction false} StartStep(j: nat, k: nat, b: nat)
    ensures j < k ==> Start(j, b) + b <= Start(k, b)
    ensures j <= k ==> Start(j, b) <= Start(k, b)
    decreases k
  {
    if j < k {
      StartStep(j, k - 1, b);
    }
  }

  lemma {:induction false} StartSum(j: nat, k: nat, b: nat)
    ensures Start(j + k, b) == Start(j, b) + Start(k, b)
    decreases k
  {
    if k > 0 {
      StartSum(j, k - 1, b);
    }
  }

  /** The block of a position: position / block size. */
  function Index(p: nat, b: nat): nat
    requires b > 0
  {
    if p < b then 0 else Index(p - b, b) + 1
  }

  lemma {:induction false} IndexDivides(p: nat, b: nat)
    requires b > 0
    ensures Index(p, b) == p / b && p % b == p - Start(p / b, b)
    ensures Start(Index(p, b), b) <= p < Start(Index(p, b), b) + b
  {
    if p >= b {
      IndexDivides(p - b, b);
      DivLess(p, b);
      StartSum(p / b - 1, 1, b);
      assert Start(1, b) == Start(0, b) + b;
    } else {
      assert p / b == 0;
    }
  }

  lemma MulOrder(b: nat, x: int, y: int)
    ensures x <= y ==> b * x <= b * y
  {
  }

  lemma DivLess(p: nat, b: nat)
    requires 0 < b <= p
    ensures p / b == (p - b) / b + 1 && p % b == (p - b) % b
  {
    var q := (p - b) / b;
    var d := q + 1 - p / b;
    assert p - b == b * q + (p - b) % b;
    assert p == b * (p / b) + p % b;
    assert b * d == b * q + b - b * (p / b);
    MulOrder(b, 1, d);
    MulOrder(b, d, -1);
  }

  /** Position o of block k. */
  lemma {:induction false} Locate(k: nat, o: nat, b: nat)
    requires o < b
    ensures Index(Start(k, b) + o, b) == k
  {
    if k > 0 {
      Locate(k - 1, o, b);
      assert Start(k, b) + o - b == Start(k - 1, b) + o;
    }
  }

  lemma {:induction false} BlockOf(p: nat, n: nat, b: nat)
    requires b > 0
    ensures p < Start(n, b) <==> Index(p, b) < n
    ensures Start(Index(p, b), b) <= p < Start(Index(p, b), b) + b
  {
    if p >= b {
      if n > 0 {
        BlockOf(p - b, n - 1, b);
      } else {
        BlockOf(p - b, 0, b);
      }
    }
  }

  /** s with b written over it from position p on, which may reach past its end. */
  function Splice(s: seq<byte>, p: nat, b: seq<byte>): (r: seq<byte>)
    requires p <= |s|
    ensures |r| == if p + |b| <= |s| then |s| else p + |b|
  {
    s[..p] + b + (if p + |b| <= |s| then s[p + |b|..] else [])
  }

  lemma SplicePrefix(s: seq<byte>, g: seq<byte>, p: nat, b: seq<byte>)
    requires s <= g && p <= |s| && p + |b| <= |g|
    ensures Splice(s, p, b) <= Splice(g, p, b)
  {
    assert g == s + g[|s|..];
  }

  lemma SpliceTwice(s: seq<byte>, p: nat, a: seq<byte>, b: seq<byte>)
    requires p <= |s| && p + |a| + |b| <= |s|
    ensures Splice(Splice(s, p, a), p + |a|, b) == Splice(s, p, a + b)
  {
  }

  lemma SpliceSplit(s: seq<byte>, p: nat, src: seq<byte>, n: nat)
    requires p + |src| <= |s| && n <= |src|
    ensures Splice(Splice(s, p, src[..n]), p + n, src[n..]) == Splice(s, p, src)
    ensures n == |src| ==> src[..n] == src
  {
    SpliceTwice(s, p, src[..n], src[n..]);
    assert src[..n] + src[n..] == src;
  }

  /** Two writes in a row are one write, also if the chain grows. */
  lemma WriteTwice(c0: seq<byte>, c1: seq<byte>, c2: seq<byte>, w: nat, a: seq<byte>, b: seq<byte>)
    requires w <= |c0| && Splice(c0, w, a) <= c1 && Splice(c1, w + |a|, b) <= c2
    ensures Splice(c0, w, a + b) <= c2
  {
    var s := Splice(c0, w, a);
    var l, r := Splice(c0, w, a + b), Splice(c1, w + |a|, b);
    forall i | 0 <= i < |l| ensures l[i] == r[i] {
      if i < w + |a| {
        assert r[i] == c1[i] == s[i];
      } else if i >= w + |a| + |b| {
        assert r[i] == c1[i] == s[i];
      }
    }
    assert l <= r;
  }

  /** The number of blocks that must be added for n more bytes when `free` are left. */
  function Missing(n: nat, free: nat, b: nat): nat
    requires b > 0
  {
    if n <= free then 0 else (n - free + b - 1) / b
  }

  lemma MissingEnough(n: nat, free: nat, b: nat)
    requires b > 0
    ensures var m := Missing(n, free, b);
      && n <= free + Start(m, b)
      && (n > free ==> m >= 1 && free + Start(m, b) < n + b)
  {
    if n > free {
      var x := n - free + b - 1;
      IndexDivides(x, b);
      BlockOf(x, 1, b);
    }
  }

  /** Two blocks of a chain are the same or apart. */
  lemma Apart(j: nat, k: nat, n: nat, b: nat)
    requires j < n && k < n && b > 0
    ensures Start(j, b) + b <= Start(n, b) && Start(k, b) + b <= Start(n, b)
    ensures j == k <==> Start(j, b) == Start(k, b)
    ensures j != k ==> Start(j, b) + b <= Start(k, b) || Start(k, b) + b <= Start(j, b)
  {
    StartStep(k, n, b);
    StartStep(j, n, b);
    StartStep(j, k, b);
    StartStep(k, j, b);
  }

  lemma SpliceAt(s: seq<byte>, p: nat, src: seq<byte>, i: nat)
    requires p + |src| <= |s| && i < |s|
    ensures Splice(s, p, src)[i] == if p <= i < p + |src| then src[i - p] else s[i]
  {
  }

  /** Writing into one block changes that block and no other. */
  lemma SpliceInside(s: seq<byte>, p: nat, b: nat, o: nat, src: seq<byte>)
    requires p + b <= |s| && o + |src| <= b
    ensures Splice(s, p + o, src)[p..p + b] == Splice(s[p..p + b], o, src)
  {
    var l, r := Splice(s, p + o, src)[p..p + b], Splice(s[p..p + b], o, src);
    forall i | 0 <= i < b ensures l[i] == r[i] {
      SpliceAt(s, p + o, src, p + i);
      SpliceAt(s[p..p + b], o, src, i);
    }
  }

  lemma SpliceOutside(s: seq<byte>, p: nat, b: nat, o: nat, src: seq<byte>, q: nat)
    requires p + b <= |s| && q + b <= |s| && o + |src| <= b && (q + b <= p || p + b <= q)
    ensures Splice(s, p + o, src)[q..q + b] == s[q..q + b]
  {
    var l, r := Splice(s, p + o, src)[q..q + b], s[q..q + b];
    forall i | 0 <= i < b ensures l[i] == r[i] {
      SpliceAt(s, p + o, src, q + i);
    }
  }

  // ------------------------------------------------------------------ the chain

  class Node {
    const data: array<byte>
    var next: Node?

    constructor (size: nat)
      ensures fresh(data) && data.Length == size && next == null
    {
      data := new byte[size];
      next := null;
    }
  }

  /** A piece of one block: what an iovec points to. */
  datatype Seg = Seg(node: Node, off: nat, len: nat)

  /** How an operation ends: the C++ exception std::out_of_range, or a null node dereferenced. */
  datatype Status = Done | OutOfRange | NullNode

  class ByteArray {
    const base: nat
    var root: Node
    var readNode: Node?
    var writeNode: Node?
    var rpos: nat
    var wpos: nat
    var capacity: nat
    var size: nat
    var endian: Endian

    ghost var nodes: seq<Node>
    /** The capacity there was when the read node was last set. */
    ghost var anchor: nat
    /** The nodes, and the arrays in which they keep their bytes. */
    ghost var Links: set<object>
    ghost var Store: set<object>

    /** All cells of all blocks, in order. */
    ghost var cells: seq<byte>

    /** Block i of a list of nodes: it is linked to the next one, shares neither node nor memory with
        a later one, and holds its part of the cells. */
    static ghost predicate BlockOk(ns: seq<Node>, links: set<object>, store: set<object>, b: nat, cs: seq<byte>, i: nat)
      requires |cs| == Start(|ns|, b) && i < |ns|
      reads links, store
    {
      && ns[i] in links && ns[i].data in store && ns[i].data.Length == b
      && ns[i].next == (if i + 1 < |ns| then ns[i + 1] else null)
      && (forall j :: i < j < |ns| ==> ns[i] != ns[j] && ns[i].data != ns[j].data)
      && ns[i].data[..] == Block(cs, i, |ns|, b)
    }

    /** The blocks from the i-th on. */
    static ghost predicate Linked(ns: seq<Node>, links: set<object>, store: set<object>, b: nat, cs: seq<byte>, i: nat)
      requires |cs| == Start(|ns|, b)
      reads links, store
      decreases |ns| - i
    {
      i >= |ns| || (BlockOk(ns, links, store, b, cs, i) && Linked(ns, links, store, b, cs, i + 1))
    }

    static lemma {:induction false} LinkedAt(ns: seq<Node>, links: set<object>, store: set<object>, b: nat,
                                             cs: seq<byte>, i: nat, k: nat)
      requires |cs| == Start(|ns|, b) && i <= k < |ns|
      requires Linked(ns, links, store, b, cs, i)
      ensures BlockOk(ns, links, store, b, cs, k)
      decreases k - i
    {
      if i < k {
        LinkedAt(ns, links, store, b, cs, i + 1, k);
      }
    }

    static lemma {:induction false} LinkedAll(ns: seq<Node>, links: set<object>, store: set<object>, b: nat,
                                              cs: seq<byte>, i: nat)
      requires |cs| == Start(|ns|, b)
      requires forall k :: i <= k < |ns| ==> BlockOk(ns, links, store, b, cs, k)
      ensures Linked(ns, links, store, b, cs, i)
      decreases |ns| - i
    {
      if i < |ns| {
        LinkedAll(ns, links, store, b, cs, i + 1);
      }
    }

    static ghost function Block(cs: seq<byte>, k: nat, n: nat, b: nat): seq<byte>
      requires |cs| == Start(n, b) && k < n
    {
      StartStep(k, n, b);
      cs[Start(k, b)..Start(k, b) + b]
    }

    ghost predicate Chain()
      reads this, Links, Store
    {
      && this !in Links && this !in Store && Links !! Store && base >= 1
      && |nodes| >= 1 && nodes[0] == root && |cells| == capacity == Start(|nodes|, base)
      && Linked(nodes, Links, Store, base, cells, 0)
    }

    /** What Chain says about all blocks. */
    lemma Opened()
      requires Chain()
      ensures forall i :: 0 <= i < |nodes| ==> nodes[i] in Links && nodes[i].data in Store
      ensures forall i :: 0 <= i < |nodes| ==> nodes[i].data.Length == base
      ensures forall i {:trigger nodes[i].next} :: 0 <= i < |nodes| - 1 ==> nodes[i].next == nodes[i + 1]
      ensures nodes[|nodes| - 1].next == null
      ensures forall i, j :: 0 <= i < j < |nodes| ==> nodes[i] != nodes[j] && nodes[i].data != nodes[j].data
      ensures forall i :: 0 <= i < |nodes| ==> nodes[i].data[..] == Block(cells, i, |nodes|, base)
    {
      forall i | 0 <= i < |nodes|
        ensures nodes[i] in Links && nodes[i].data in Store && nodes[i].data.Length == base
        ensures nodes[i].data[..] == Block(cells, i, |nodes|, base)
        ensures nodes[i].next == if i + 1 < |nodes| then nodes[i + 1] else null
      {
        At(i);
      }
      At(|nodes| - 1);
      forall i, j | 0 <= i < j < |nodes| ensures nodes[i] != nodes[j] && nodes[i].data != nodes[j].data {
        At(i);
      }
    }

    /** What Chain says about one block. */
    lemma At(k: nat)
      requires Chain() && k < |nodes|
      ensures BlockOk(nodes, Links, Store, base, cells, k)
    {
      LinkedAt(nodes, Links, Store, base, cells, 0, k);
    }

    /** The node of a position, null at the end of the chain. */
    static ghost function NodeAt(ns: seq<Node>, p: nat, b: nat): Node?
      requires b >= 1
    {
      if Index(p, b) < |ns| then ns[Index(p, b)] else null
    }

    /** The cached write node is the one at wpos / base.  So is the cached read node, unless the read
        position was at the very end of the chain when it was last set: then it is null, and stays
        null when the chain grows. */
    ghost predicate Cursors(ns: seq<Node>)
      reads this
    {
      && base >= 1 && rpos <= size <= Start(|ns|, base) && wpos <= size && rpos <= anchor <= Start(|ns|, base)
      && writeNode == NodeAt(ns, wpos, base)
      && readNode == if rpos == anchor then null else NodeAt(ns, rpos, base)
    }

    ghost predicate Valid()
      reads this, Links, Store
    {
      Chain() && Cursors(nodes)
    }

    constructor (baseSize: nat)
      requires baseSize >= 1
      ensures Valid() && fresh(Links) && fresh(Store) && base == baseSize
      ensures size == rpos == wpos == 0 && capacity == anchor == base && endian == BigEndian
    {
      base := baseSize;
      var n := new Node(baseSize);
      root, readNode, writeNode := n, n, n;
      rpos, wpos, size, capacity, endian := 0, 0, 0, baseSize, BigEndian;
      nodes, anchor, cells := [n], baseSize, n.data[..];
      Links, Store := {n}, {n.data};
      new;
      BlockOf(0, 1, base);
      assert Start(1, base) == Start(0, base) + base;
      LinkedAll(nodes, Links, Store, base, cells, 0);
    }

    lemma NodeStep(p: nat, k: nat, o: nat)
      requires Chain() && k < |nodes| && p == Start(k, base) + o && o <= base
      ensures o < base ==> NodeAt(nodes, p, base) == nodes[k] && Index(p, base) == k && p < capacity
      ensures o == base ==> NodeAt(nodes, p, base) == nodes[k].next && p == Start(k + 1, base) && p <= capacity
    {
      StartStep(k, |nodes|, base);
      At(k);
      if o < base {
        Locate(k, o, base);
      } else {
        var q := Start(k + 1, base);
        Locate(k + 1, 0, base);
        assert q + 0 == q == p;
      }
    }

    /** memcpy into one block. */
    method PutChunk(node: Node, ghost k: nat, o: nat, src: seq<byte>)
      requires Chain() && k < |nodes| && nodes[k] == node && o + |src| <= base
      modifies node.data, this`cells
      ensures Chain() && Start(k, base) + o + |src| <= capacity
      ensures cells == Splice(old(cells), Start(k, base) + o, src)
    {
      ghost var was := cells;
      Apart(k, k, |nodes|, base);
      Opened();
      assert BlockOk(nodes, Links, Store, base, was, k);
      CopyIn(node.data, o, src);
      cells := Splice(was, Start(k, base) + o, src);
      forall j | 0 <= j < |nodes| ensures BlockOk(nodes, Links, Store, base, cells, j) {
        BlockKept(was, cells, k, o, src, j);
      }
      LinkedAll(nodes, Links, Store, base, cells, 0);
    }

    /** Block j of a chain in which part of block k has been overwritten. */
    lemma BlockKept(was: seq<byte>, cs: seq<byte>, k: nat, o: nat, src: seq<byte>, j: nat)
      requires base >= 1 && |was| == Start(|nodes|, base) && k < |nodes| && j < |nodes| && o + |src| <= base
      requires Start(k, base) + base <= |was| && cs == Splice(was, Start(k, base) + o, src)
      requires nodes[j] in Links && nodes[j].data in Store && nodes[j].data.Length == base
      requires nodes[j].next == (if j + 1 < |nodes| then nodes[j + 1] else null)
      requires forall i :: j < i < |nodes| ==> nodes[j] != nodes[i] && nodes[j].data != nodes[i].data
      requires nodes[j].data[..] == if j == k then Splice(Block(was, k, |nodes|, base), o, src) else Block(was, j, |nodes|, base)
      ensures BlockOk(nodes, Links, Store, base, cs, j)
    {
      BlockAfter(was, |nodes|, base, k, o, src, j);
    }

    static lemma BlockAfter(was: seq<byte>, n: nat, b: nat, k: nat, o: nat, src: seq<byte>, j: nat)
      requires b >= 1 && |was| == Start(n, b) && k < n && j < n && o + |src| <= b
      ensures Start(k, b) + b <= |was|
      ensures Block(Splice(was, Start(k, b) + o, src), j, n, b)
           == if j == k then Splice(Block(was, k, n, b), o, src) else Block(was, j, n, b)
    {
      Apart(j, k, n, b);
      var p := Start(k, b);
      if j == k {
        BlockInside(was, Splice(was, p + o, src), n, b, k, p, o, src);
      } else {
        BlockOutside(was, Splice(was, p + o, src), n, b, p, o, src, j, Start(j, b));
      }
    }

    static lemma BlockInside(was: seq<byte>, cs: seq<byte>, n: nat, b: nat, k: nat, p: nat, o: nat, src: seq<byte>)
      requires |was| == Start(n, b) && k < n && p == Start(k, b) && o + |src| <= b && p + b <= |was|
      requires cs == Splice(was, p + o, src) && |cs| == |was|
      ensures Block(cs, k, n, b) == Splice(Block(was, k, n, b), o, src)
    {
      BlockIs(was, k, n, b, p);
      BlockIs(cs, k, n, b, p);
      SpliceInside(was, p, b, o, src);
    }

    static lemma BlockOutside(was: seq<byte>, cs: seq<byte>, n: nat, b: nat, p: nat, o: nat, src: seq<byte>, j: nat, q: nat)
      requires |was| == Start(n, b) && j < n && q == Start(j, b) && o + |src| <= b && p + b <= |was| && q + b <= |was|
      requires cs == Splice(was, p + o, src) && |cs| == |was| && (q + b <= p || p + b <= q)
      ensures Block(cs, j, n, b) == Block(was, j, n, b)
    {
      BlockIs(was, j, n, b, q);
      BlockIs(cs, j, n, b, q);
      SpliceOutside(was, p, b, o, src, q);
    }

    static lemma BlockIs(cs: seq<byte>, k: nat, n: nat, b: nat, p: nat)
      requires |cs| == Start(n, b) && k < n && p == Start(k, b)
      ensures p + b <= |cs| && Block(cs, k, n, b) == cs[p..p + b]
    {
      StartStep(k, n, b);
    }

    static method CopyIn(a: array<byte>, o: nat, src: seq<byte>)
      requires o + |src| <= a.Length
      modifies a
      ensures a[..] == Splice(old(a[..]), o, src)
    {
      forall i | 0 <= i < |src| {
        a[o + i] := src[i];
      }
    }

    // ---------------------------------------------------------------- growth

    method AppendNode(tail: Node) returns (n: Node)
      requires Chain() && tail == nodes[|nodes| - 1]
      modifies this`nodes, this`Links, this`Store, this`capacity, this`cells, tail`next
      ensures Chain() && fresh(n) && fresh(n.data)
      ensures nodes == old(nodes) + [n] && Links == old(Links) + {n} && Store == old(Store) + {n.data}
      ensures capacity == old(capacity) + base && old(cells) <= cells
    {
      ghost var was, k := cells, |nodes|;
      Opened();
      n := new Node(base);
      tail.next := n;
      capacity := capacity + base;
      nodes, Links, Store, cells := nodes + [n], Links + {n}, Store + {n.data}, cells + n.data[..];
      forall j | 0 <= j < |nodes| ensures BlockOk(nodes, Links, Store, base, cells, j) {
        StartStep(j, k, base);
        if j < k {
          assert Block(cells, j, |nodes|, base) == Block(was, j, k, base);
        }
      }
      LinkedAll(nodes, Links, Store, base, cells, 0);
    }

    /** The walk to the last node. */
    method Tail() returns (tmp: Node)
      requires Chain()
      ensures tmp == nodes[|nodes| - 1]
    {
      tmp := root;
      ghost var k := 0;
      while tmp.next != null
        invariant k < |nodes| && tmp == nodes[k]
        decreases |nodes| - k
      {
        At(k);
        tmp := tmp.next;
        k := k + 1;
      }
      At(k);
    }

    method AppendNodes(tail: Node, cnt: nat) returns (first: Node?)
      requires Chain() && tail == nodes[|nodes| - 1]
      modifies this`nodes, this`Links, this`Store, this`capacity, this`cells, tail`next
      ensures Chain() && fresh(Links - old(Links)) && fresh(Store - old(Store))
      ensures old(nodes) <= nodes && |nodes| == |old(nodes)| + cnt
      ensures cnt > 0 ==> first == nodes[|old(nodes)|]
      ensures capacity == old(capacity) + Start(cnt, base) && old(cells) <= cells
    {
      first := null;
      var tmp := tail;
      var i := 0;
      while i < cnt
        invariant i <= cnt && Chain() && tmp == nodes[|nodes| - 1] && (tmp == tail || fresh(tmp))
        invariant fresh(Links - old(Links)) && fresh(Store - old(Store))
        invariant old(nodes) <= nodes && |nodes| == |old(nodes)| + i
        invariant if i > 0 then first == nodes[|old(nodes)|] else first == null
        invariant capacity == old(capacity) + Start(i, base) && old(cells) <= cells
      {
        tmp := AppendNode(tmp);
        if first == null {
          first := tmp;
        }
        i := i + 1;
      }
    }

    /** addCapacity: room for n more bytes at the write position.  Only the write node is set again,
        which is why a read node that is null stays null. */
    method AddCapacity(n: nat)
      requires Valid()
      modifies this`capacity, this`writeNode, this`nodes, this`Links, this`Store, this`cells, Links
      ensures Valid() && fresh(Links - old(Links)) && fresh(Store - old(Store))
      ensures old(cells) <= cells
      ensures capacity == old(capacity) + Start(Missing(n, old(capacity) - wpos, base), base)
    {
      if n == 0 {
        return;
      }
      var free := capacity - wpos;
      if free >= n {
        return;
      }
      var cnt := (n - free + base - 1) / base;
      MissingEnough(n, free, base);
      Grow(cnt, free);
    }

    method Grow(cnt: nat, free: nat)
      requires Valid() && cnt > 0 && free == capacity - wpos
      modifies this`capacity, this`writeNode, this`nodes, this`Links, this`Store, this`cells, Links
      ensures Valid() && fresh(Links - old(Links)) && fresh(Store - old(Store))
      ensures old(cells) <= cells && capacity == old(capacity) + Start(cnt, base)
    {
      ghost var before := nodes;
      var tail := Tail();
      At(|nodes| - 1);
      var first := AppendNodes(tail, cnt);
      if free == 0 {
        writeNode := first;
      }
      CursorsKept(before, old(writeNode));
    }

    /** Growth keeps the cursors right, if the write node is set again when it was at the end. */
    lemma CursorsKept(before: seq<Node>, was: Node?)
      requires before < nodes && base >= 1 && rpos <= size && wpos <= size <= Start(|before|, base)
      requires rpos <= anchor <= Start(|before|, base)
      requires was == NodeAt(before, wpos, base)
      requires readNode == if rpos == anchor then null else NodeAt(before, rpos, base)
      requires writeNode == if wpos == Start(|before|, base) then nodes[|before|] else was
      ensures Cursors(nodes)
    {
      StartStep(|before|, |nodes|, base);
      BlockOf(wpos, |before|, base);
      BlockOf(rpos, |before|, base);
      if wpos == Start(|before|, base) {
        Locate(|before|, 0, base);
        assert wpos + 0 == wpos;
      }
    }

    // ---------------------------------------------------------------- writing

    /** The loop of write, once there is room: block by block, from the cached write node on. */
    method WriteLoop(buf: seq<byte>)
      requires Chain() && 0 < |buf| && wpos + |buf| <= capacity && writeNode == NodeAt(nodes, wpos, base)
      modifies this`writeNode, this`wpos, this`cells, Store
      ensures Chain() && cells == Splice(old(cells), old(wpos), buf)
      ensures wpos == old(wpos) + |buf| && writeNode == NodeAt(nodes, wpos, base)
    {
      IndexDivides(wpos, base);
      BlockOf(wpos, |nodes|, base);
      ghost var k: nat := Index(wpos, base);
      var offset: nat := wpos % base;
      var leftcap: nat := base - offset;
      var src_offset: nat := 0;
      var left: nat := |buf|;
      ghost var goal := Splice(cells, wpos, buf);
      while true
        invariant Chain() && src_offset + left == |buf| && 0 < left && wpos == old(wpos) + src_offset
        invariant k < |nodes| && writeNode == nodes[k] && offset < base && leftcap == base - offset
        invariant wpos == Start(k, base) + offset && wpos + left <= capacity
        invariant Splice(cells, wpos, buf[src_offset..]) == goal
        decreases left
      {
        if leftcap >= left {
          WriteLast(k, offset, buf[src_offset..]);
          return;
        }
        WriteNext(k, offset, buf, src_offset, src_offset + leftcap);
        src_offset := src_offset + leftcap;
        left := left - leftcap;
        offset := 0;
        leftcap := base;
        k := k + 1;
      }
    }

    /** A block is filled from buf[i..j], and buf[j..] remains to be written. */
    method WriteNext(ghost k: nat, offset: nat, buf: seq<byte>, i: nat, j: nat)
      requires Chain() && k < |nodes| && writeNode == nodes[k] && wpos == Start(k, base) + offset && offset < base
      requires i <= j < |buf| && j - i == base - offset && wpos + (|buf| - i) <= capacity
      modifies this`writeNode, this`wpos, this`cells, Store
      ensures Chain() && wpos == old(wpos) + (j - i) == Start(k + 1, base)
      ensures k + 1 < |nodes| && writeNode == nodes[k + 1]
      ensures Splice(cells, wpos, buf[j..]) == Splice(old(cells), old(wpos), buf[i..])
    {
      NextSplice(cells, wpos, buf, i, j);
      WriteFull(k, offset, buf[i..j]);
    }

    static lemma NextSplice(s: seq<byte>, p: nat, buf: seq<byte>, i: nat, j: nat)
      requires i <= j <= |buf| && p + (|buf| - i) <= |s|
      ensures Splice(Splice(s, p, buf[i..j]), p + (j - i), buf[j..]) == Splice(s, p, buf[i..])
    {
      SpliceTwice(s, p, buf[i..j], buf[j..]);
      assert buf[i..j] + buf[j..] == buf[i..];
    }

    /** The branch of the loop that ends it. */
    method WriteLast(ghost k: nat, offset: nat, src: seq<byte>)
      requires Chain() && k < |nodes| && writeNode == nodes[k] && wpos == Start(k, base) + offset
      requires 0 < |src| && offset + |src| <= base
      modifies this`writeNode, this`wpos, this`cells, Store
      ensures Chain() && wpos == old(wpos) + |src| <= capacity && cells == Splice(old(cells), old(wpos), src)
      ensures writeNode == NodeAt(nodes, wpos, base)
    {
      At(k);
      PutChunk(writeNode, k, offset, src);
      NodeStep(wpos + |src|, k, offset + |src|);
      if offset + |src| == base {
        writeNode := writeNode.next;
      }
      wpos := wpos + |src|;
    }

    /** The branch that fills up a block and goes on. */
    method WriteFull(ghost k: nat, offset: nat, src: seq<byte>)
      requires Chain() && k < |nodes| && writeNode == nodes[k] && wpos == Start(k, base) + offset
      requires 0 < |src| && offset + |src| == base && wpos + |src| < capacity
      modifies this`writeNode, this`wpos, this`cells, Store
      ensures Chain() && cells == Splice(old(cells), old(wpos), src)
      ensures wpos == old(wpos) + |src| == Start(k + 1, base) && k + 1 < |nodes| && writeNode == nodes[k + 1]
    {
      At(k);
      PutChunk(writeNode, k, offset, src);
      NextBlock(k);
      wpos := wpos + |src|;
      writeNode := writeNode.next;
    }

    /** There is a next block as long as the end of this one is not the end of the chain. */
    lemma NextBlock(k: nat)
      requires Chain() && k < |nodes| && Start(k, base) + base < capacity
      ensures k + 1 < |nodes| && nodes[k].next == nodes[k + 1] && Start(k + 1, base) == Start(k, base) + base
    {
      At(k);
      StartStep(|nodes|, k + 1, base);
    }

    /** write: the bytes replace what was at the write position, and the chain grows if it must. */
    method Write(buf: seq<byte>)
      requires Valid()
      modifies this`capacity, this`writeNode, this`nodes, this`Links, this`Store, this`cells, this`wpos, this`size
      modifies Links, Store
      ensures Valid() && fresh(Links - old(Links)) && fresh(Store - old(Store))
      ensures Splice(old(cells), old(wpos), buf) <= cells
      ensures wpos == old(wpos) + |buf| && size == if old(size) < wpos then wpos else old(size)
      ensures capacity == old(capacity) + Start(Missing(|buf|, old(capacity - wpos), base), base)
    {
      if |buf| == 0 {
        assert Splice(cells, wpos, []) == cells;
        return;
      }
      AddCapacity(|buf|);
      MissingEnough(|buf|, old(capacity - wpos), base);
      WriteInside(buf, old(cells));
    }

    /** write, once there is room. */
    method WriteInside(buf: seq<byte>, ghost before: seq<byte>)
      requires Valid() && 0 < |buf| && wpos + |buf| <= capacity && before <= cells && wpos <= |before|
      modifies this`writeNode, this`cells, this`wpos, this`size, Store
      ensures Valid() && Splice(before, old(wpos), buf) <= cells
      ensures wpos == old(wpos) + |buf| && size == if old(size) < wpos then wpos else old(size)
    {
      ghost var grown := cells;
      WriteLoop(buf);
      SplicePrefix(before, grown, old(wpos), buf);
      if size < wpos {
        size := wpos;
      }
    }

    // ---------------------------------------------------------------- reading

    /** The copying loop of both reads: n bytes from offset o of block k on.  It fails by reading
        past the last block. */
    method Gather(node: Node, ghost k0: nat, o: nat, buf: array<byte>, n: nat) returns (end: Node?, ok: bool)
      requires Chain() && k0 < |nodes| && nodes[k0] == node && o < base && n <= buf.Length && buf !in Links + Store
      modifies buf
      ensures ok <==> Start(k0, base) + o + n <= capacity
      ensures ok ==> buf[..n] == cells[Start(k0, base) + o..Start(k0, base) + o + n]
      ensures ok ==> end == NodeAt(nodes, Start(k0, base) + o + n, base)
      ensures buf[n..] == old(buf[n..])
    {
      ghost var p := Start(k0, base) + o;
      ghost var k: nat := k0;
      NodeStep(p, k, o);
      var tmp := node;
      var offset: nat := o;
      var leftcap: nat := base - o;
      var dest: nat := 0;
      var left: nat := n;
      if left == 0 {
        assert cells[p..p] == [];
        return tmp, true;
      }
      while true
        invariant dest + left == n && 0 < left
        invariant k < |nodes| && tmp == nodes[k] && offset < base && leftcap == base - offset
        invariant p + dest == Start(k, base) + offset && p + dest <= capacity
        invariant buf[..dest] == cells[p..p + dest] && buf[n..] == old(buf[n..])
        decreases left
      {
        if leftcap >= left {
          end := GatherLast(tmp, k, offset, buf, p, dest, left);
          return end, true;
        }
        var next := GatherBlock(tmp, k, offset, buf, p, dest);
        if next == null {
          return null, false;
        }
        dest := dest + leftcap;
        left := left - leftcap;
        offset := 0;
        tmp := next;
        leftcap := base;
        k := k + 1;
      }
    }

    /** The branch of the loop that ends it. */
    method GatherLast(node: Node, ghost k: nat, o: nat, buf: array<byte>, ghost p: nat, dest: nat, n: nat)
      returns (end: Node?)
      requires Chain() && k < |nodes| && nodes[k] == node && o + n <= base && o < base
      requires dest + n <= buf.Length && buf !in Links + Store
      requires p + dest == Start(k, base) + o <= capacity && buf[..dest] == cells[p..p + dest]
      modifies buf
      ensures p + (dest + n) <= capacity && buf[..dest + n] == cells[p..p + (dest + n)]
      ensures buf[dest + n..] == old(buf[dest + n..]) && end == NodeAt(nodes, p + (dest + n), base)
    {
      CopyOut(node, k, o, buf, p, dest, n);
      NodeStep(p + (dest + n), k, o + n);
      end := if o + n == base then node.next else node;
    }

    /** The rest of a block is copied, and the next node is fetched. */
    method GatherBlock(node: Node, ghost k: nat, o: nat, buf: array<byte>, ghost p: nat, dest: nat) returns (next: Node?)
      requires Chain() && k < |nodes| && nodes[k] == node && o < base
      requires dest + (base - o) <= buf.Length && buf !in Links + Store
      requires p + dest == Start(k, base) + o <= capacity && buf[..dest] == cells[p..p + dest]
      modifies buf
      ensures p + dest + (base - o) == Start(k + 1, base) <= capacity
      ensures buf[..dest + (base - o)] == cells[p..p + dest + (base - o)] && buf[dest + (base - o)..] == old(buf[dest + (base - o)..])
      ensures if next == null then Start(k + 1, base) == capacity else k + 1 < |nodes| && next == nodes[k + 1]
    {
      CopyOut(node, k, o, buf, p, dest, base - o);
      At(k);
      StartStep(|nodes|, k + 1, base);
      next := node.next;
    }

    static lemma SliceOf(s: seq<byte>, a: nat, b: nat, o: nat, n: nat)
      requires a + b <= |s| && o + n <= b
      ensures s[a..a + b][o..o + n] == s[a + o..a + o + n]
    {
      var x, y, z := s[a..a + b], s[a..a + b][o..o + n], s[a + o..a + o + n];
      forall i | 0 <= i < n ensures y[i] == z[i] {
        assert y[i] == x[o + i] == s[a + (o + i)] == z[i];
      }
    }

    /** memcpy out of one block, behind the bytes that were copied before. */
    method CopyOut(node: Node, ghost k: nat, o: nat, buf: array<byte>, ghost p: nat, dest: nat, n: nat)
      requires Chain() && k < |nodes| && nodes[k] == node && o + n <= base
      requires dest + n <= buf.Length && buf !in Links + Store
      requires p + dest == Start(k, base) + o <= capacity && buf[..dest] == cells[p..p + dest]
      modifies buf
      ensures p + dest + n <= capacity && buf[..dest + n] == cells[p..p + dest + n]
      ensures buf[dest + n..] == old(buf[dest + n..])
    {
      Apart(k, k, |nodes|, base);
      At(k);
      ghost var front, part := buf[..dest], node.data[o..o + n];
      assert part == node.data[..][o..o + n];
      CopiedOut(cells, Start(k, base), base, o, n, p, dest, node.data[..], front, part);
      CopyBetween(node.data, o, buf, dest, n);
    }

    static lemma CopiedOut(cells: seq<byte>, start: nat, b: nat, o: nat, n: nat, p: nat, dest: nat,
                           block: seq<byte>, front: seq<byte>, part: seq<byte>)
      requires start + b <= |cells| && o + n <= b && p + dest == start + o
      requires block == cells[start..start + b] && front == cells[p..p + dest] && part == block[o..o + n]
      ensures front + part == cells[p..p + dest + n]
    {
      SliceOf(cells, start, b, o, n);
      SliceJoin(cells, p, p + dest, p + dest + n);
    }

    static lemma SliceJoin(s: seq<byte>, a: nat, b: nat, c: nat)
      requires a <= b <= c <= |s|
      ensures s[a..b] + s[b..c] == s[a..c]
    {
      var x, y, z := s[a..b], s[b..c], s[a..c];
      forall i | 0 <= i < c - a ensures (x + y)[i] == z[i] {
        if i >= b - a {
          assert (x + y)[i] == y[i - (b - a)] == s[b + (i - (b - a))];
        }
      }
    }

    /** memcpy */
    static method CopyBetween(a: array<byte>, o: nat, buf: array<byte>, dest: nat, n: nat)
      requires a != buf && o + n <= a.Length && dest + n <= buf.Length
      modifies buf
      ensures buf[..dest + n] == old(buf[..dest]) + a[o..o + n] && buf[dest + n..] == old(buf[dest + n..])
    {
      forall i | 0 <= i < n {
        buf[dest + i] := a[o + i];
      }
    }

    /** read: the next n bytes.  As written, it uses the cached read node before it looks at n. */
    method Read(buf: array<byte>, n: nat) returns (st: Status)
      requires Valid() && n <= buf.Length && buf !in Links + Store
      modifies this`readNode, this`rpos, this`anchor, buf
      ensures Valid()
      ensures st == if n > old(size - rpos) then OutOfRange else if old(rpos == anchor) then NullNode else Done
      ensures st == Done ==> buf[..n] == cells[old(rpos)..old(rpos) + n] && rpos == old(rpos) + n
      ensures st == Done ==> anchor == if n == 0 then old(anchor) else capacity
      ensures st != Done ==> unchanged(this) && unchanged(buf)
      ensures buf[n..] == old(buf[n..])
    {
      if n > size - rpos {
        return OutOfRange;
      }
      ReadNodeNull();
      if readNode == null {
        return NullNode;
      }
      ReadFrom(readNode, buf, n);
      return Done;
    }

    method ReadFrom(node: Node, buf: array<byte>, n: nat)
      requires Valid() && node == readNode && rpos + n <= size && n <= buf.Length && buf !in Links + Store
      modifies this`readNode, this`rpos, this`anchor, buf
      ensures Valid() && rpos == old(rpos) + n && anchor == if n == 0 then old(anchor) else capacity
      ensures buf[..n] == cells[old(rpos)..rpos] && buf[n..] == old(buf[n..])
    {
      IndexDivides(rpos, base);
      BlockOf(rpos, |nodes|, base);
      var offset := rpos % base;
      var end, ok := Gather(node, Index(rpos, base), offset, buf, n);
      if n > 0 {
        AtEnd(rpos + n);
        readNode := end;
        anchor := capacity;
      }
      rpos := rpos + n;
    }

    /** The cached read node is null exactly when the read position is the anchor. */
    lemma ReadNodeNull()
      requires Valid()
      ensures readNode == null <==> rpos == anchor
    {
      BlockOf(rpos, |nodes|, base);
    }

    lemma AtEnd(p: nat)
      requires Chain() && p <= capacity
      ensures NodeAt(nodes, p, base) == null <==> p == capacity
    {
      BlockOf(p, |nodes|, base);
    }

    /** The positional read.  `size - position` is computed modulo 2^64. */
    method ReadAt(buf: array<byte>, n: nat, position: nat) returns (st: Status)
      requires Valid() && n <= buf.Length && buf !in Links + Store && size < M64 && position < M64
      modifies buf
      ensures st ==
        if n > (size - position) % M64 then OutOfRange
        else if position / base == rpos / base && rpos == anchor then NullNode
        else if position >= capacity || position + n > capacity then NullNode
        else Done
      ensures st == Done ==> buf[..n] == cells[position..position + n]
      ensures buf[n..] == old(buf[n..])
    {
      if n > (size - position) % M64 {
        return OutOfRange;
      }
      var node_idx := position / base;
      var cur_node_idx := rpos / base;
      IndexDivides(position, base);
      IndexDivides(rpos, base);
      BlockOf(position, |nodes|, base);
      ReadNodeNull();
      var tmp: Node?;
      if node_idx == cur_node_idx {
        tmp := readNode;
        if tmp == null {
          return NullNode;
        }
      } else {
        tmp := Walk(node_idx);
        if tmp == null {
          return NullNode;
        }
      }
      var _, ok := Gather(tmp, Index(position, base), position % base, buf, n);
      st := if ok then Done else NullNode;
    }

    /** Following the list from the root. */
    method Walk(idx: nat) returns (tmp: Node?)
      requires Chain()
      ensures tmp == if idx < |nodes| then nodes[idx] else null
    {
      tmp := root;
      var i := 0;
      while i < idx && tmp != null
        invariant i <= idx && i <= |nodes| && tmp == if i < |nodes| then nodes[i] else null
      {
        At(i);
        tmp := tmp.next;
        i := i + 1;
      }
    }

    // ---------------------------------------------------------------- positions

    /** The walk of the two position setters: the node of position v, null at the very end. */
    method Seek(v0: nat) returns (node: Node?)
      requires Chain() && v0 <= capacity
      ensures node == NodeAt(nodes, v0, base)
    {
      var v: nat := v0;
      node := root;
      ghost var k := 0;
      while v > base
        invariant k < |nodes| && node == nodes[k] && v0 == Start(k, base) + v
        decreases v
      {
        v := v - base;
        NextBlock(k);
        node := node.next;
        k := k + 1;
      }
      NodeStep(v0, k, v);
      if v == base {
        node := node.next;
      }
    }

    method SetReadPosition(v: nat) returns (st: Status)
      requires Valid()
      modifies this`readNode, this`rpos, this`anchor
      ensures Valid()
      ensures st == if v > size then OutOfRange else Done
      ensures st == Done ==> rpos == v && anchor == capacity
      ensures st != Done ==> unchanged(this)
    {
      if v > size {
        return OutOfRange;
      }
      rpos := v;
      anchor := capacity;
      readNode := Seek(v);
      AtEnd(v);
      return Done;
    }

    method SetWritePosition(v: nat) returns (st: Status)
      requires Valid()
      modifies this`writeNode, this`wpos, this`size
      ensures Valid()
      ensures st == if v > capacity then OutOfRange else Done
      ensures st == Done ==> wpos == v && size == if v > old(size) then v else old(size)
      ensures st != Done ==> unchanged(this)
    {
      if v > capacity {
        return OutOfRange;
      }
      wpos := v;
      if wpos > size {
        size := wpos;
      }
      writeNode := Seek(v);
      return Done;
    }

    /** The loop that takes one node after the other out of the list. */
    method Unlink(head: Node)
      requires Chain() && head == nodes[0]
      modifies head`next
      ensures head.next == null
    {
      Opened();
      var tmp := head.next;
      ghost var k: nat := 1;
      while tmp != null
        invariant 1 <= k <= |nodes| && tmp == (if k < |nodes| then nodes[k] else null)
        invariant forall i {:trigger nodes[i].next} :: 1 <= i < |nodes| - 1 ==> nodes[i].next == nodes[i + 1]
        invariant |nodes| > 1 ==> nodes[|nodes| - 1].next == null
        decreases |nodes| - k
      {
        head.next := tmp.next;
        tmp := head.next;
        k := k + 1;
      }
      head.next := null;
    }

    /** clear: only the first block is kept. */
    method Clear()
      requires Valid()
      modifies this, root
      ensures Valid() && Links <= old(Links) && Store <= old(Store)
      ensures rpos == wpos == size == 0 && capacity == anchor == base
      ensures cells == old(cells)[..base] && endian == old(endian)
    {
      Apart(0, 0, |nodes|, base);
      At(0);
      Unlink(root);
      rpos, wpos, size := 0, 0, 0;
      capacity := base;
      readNode, writeNode := root, root;
      Single(cells[..base]);
    }

    /** A single node is a chain. */
    ghost method Single(cs: seq<byte>)
      requires base >= 1 && root.next == null && root.data.Length == base && root.data[..] == cs
      requires rpos == wpos == size == 0 && capacity == base && readNode == writeNode == root
      modifies this`nodes, this`Links, this`Store, this`cells, this`anchor
      ensures Valid() && Links == {root} && Store == {root.data} && cells == cs && anchor == base
    {
      nodes, anchor, cells := [root], base, cs;
      Links, Store := {root}, {root.data};
      BlockOf(0, 1, base);
      assert Start(1, base) == Start(0, base) + base;
      LinkedAll(nodes, Links, Store, base, cells, 0);
    }

    // ---------------------------------------------------------------- segment lists

    /** The segments lie in successive blocks from block k on, and end to end they are the cells
        from p to q: ordered, disjoint, and without a gap. */
    static ghost predicate Covers(ns: seq<Node>, base: nat, segs: seq<Seg>, k: nat, p: nat, q: nat)
    {
      if segs == [] then p == q
      else
        var g := segs[0];
        && k < |ns| && g.node == ns[k] && p == Start(k, base) + g.off
        && 0 < g.len && g.off + g.len <= base && (|segs| > 1 ==> g.off + g.len == base)
        && Covers(ns, base, segs[1..], k + 1, p + g.len, q)
    }

    /** The bytes of a segment list, in order. */
    static ghost function Bytes(segs: seq<Seg>, store: set<object>): seq<byte>
      reads store
    {
      if segs == [] then []
      else
        var g := segs[0];
        (if g.node.data in store && g.off + g.len <= g.node.data.Length then g.node.data[g.off..g.off + g.len] else [])
        + Bytes(segs[1..], store)
    }

    /** Reading a segment list is reading the cells it covers. */
    lemma {:induction false} CoveredBytes(segs: seq<Seg>, k: nat, p: nat, q: nat)
      requires Chain() && Covers(nodes, base, segs, k, p, q)
      ensures p <= q && (p <= capacity ==> q <= capacity && Bytes(segs, Store) == cells[p..q])
      decreases |segs|
    {
      if segs != [] {
        var g := segs[0];
        SegmentBytes(k, g, p);
        CoveredBytes(segs[1..], k + 1, p + g.len, q);
        if q <= capacity {
          SliceJoin(cells, p, p + g.len, q);
        }
      }
    }

    lemma SegmentBytes(k: nat, g: Seg, p: nat)
      requires Chain() && k < |nodes| && g.node == nodes[k] && g.off + g.len <= base && p == Start(k, base) + g.off
      ensures g.node.data in Store && g.node.data.Length == base && p + g.len <= capacity
      ensures g.node.data[g.off..g.off + g.len] == cells[p..p + g.len]
    {
      At(k);
      Apart(k, k, |nodes|, base);
      BlockIs(cells, k, |nodes|, base, Start(k, base));
      SliceOf(cells, Start(k, base), base, g.off, g.len);
      assert g.node.data[g.off..g.off + g.len] == g.node.data[..][g.off..g.off + g.len];
    }

    lemma {:induction false} CoversMore(segs: seq<Seg>, k: nat, p: nat, q: nat, g: Seg)
      requires Covers(nodes, base, segs, k, p, q) && k + |segs| < |nodes| && g.node == nodes[k + |segs|]
      requires q == Start(k + |segs|, base) + g.off && 0 < g.len && g.off + g.len <= base
      requires segs != [] ==> segs[|segs| - 1].off + segs[|segs| - 1].len == base
      ensures Covers(nodes, base, segs + [g], k, p, q + g.len)
      decreases |segs|
    {
      if segs == [] {
        assert (segs + [g])[1..] == [];
      } else {
        assert (segs + [g])[1..] == segs[1..] + [g];
        CoversMore(segs[1..], k + 1, p + segs[0].len, q, g);
      }
    }

    /** The loop that all three segment functions share: len bytes from offset o of block k0 on. */
    method Segments(node: Node, ghost k0: nat, o: nat, len: nat) returns (segs: seq<Seg>)
      requires Chain() && k0 < |nodes| && nodes[k0] == node && o < base
      requires 0 < len && Start(k0, base) + o + len <= capacity
      ensures Covers(nodes, base, segs, k0, Start(k0, base) + o, Start(k0, base) + o + len)
    {
      ghost var p := Start(k0, base) + o;
      segs := [];
      var tmp := node;
      var offset: nat := o;
      var leftcap: nat := base - o;
      var left: nat := len;
      while true
        invariant 0 < left <= len && k0 + |segs| < |nodes| && tmp == nodes[k0 + |segs|]
        invariant offset < base && leftcap == base - offset
        invariant p + (len - left) == Start(k0 + |segs|, base) + offset
        invariant Covers(nodes, base, segs, k0, p, p + (len - left))
        invariant segs != [] ==> segs[|segs| - 1].off + segs[|segs| - 1].len == base
        decreases left
      {
        if leftcap >= left {
          CoversMore(segs, k0, p, p + (len - left), Seg(tmp, offset, left));
          return segs + [Seg(tmp, offset, left)];
        }
        CoversMore(segs, k0, p, p + (len - left), Seg(tmp, offset, leftcap));
        NextBlock(k0 + |segs|);
        segs := segs + [Seg(tmp, offset, leftcap)];
        left := left - leftcap;
        offset := 0;
        tmp := tmp.next;
        leftcap := base;
      }
    }

    /** The segments from a position on. */
    method SegmentsAt(node: Node?, p: nat, len: nat) returns (segs: seq<Seg>)
      requires Chain() && node == NodeAt(nodes, p, base) && 0 < len && p + len <= capacity
      ensures Covers(nodes, base, segs, Index(p, base), p, p + len)
    {
      IndexDivides(p, base);
      BlockOf(p, |nodes|, base);
      segs := Segments(node, Index(p, base), p % base, len);
    }

    /** getReadBuffers */
    method GetReadBuffers(len: nat) returns (segs: seq<Seg>, n: nat, st: Status)
      requires Valid()
      ensures n == if len < size - rpos then len else size - rpos
      ensures st == if n > 0 && rpos == anchor then NullNode else Done
      ensures st == Done ==> Covers(nodes, base, segs, Index(rpos, base), rpos, rpos + n)
    {
      n := if len < size - rpos then len else size - rpos;
      if n == 0 {
        return [], 0, Done;
      }
      ReadNodeNull();
      if readNode == null {
        return [], n, NullNode;
      }
      segs := SegmentsAt(readNode, rpos, n);
      st := Done;
    }

    /** getWriteBuffers: the chain grows if it must; neither position moves. */
    method GetWriteBuffers(len: nat) returns (segs: seq<Seg>)
      requires Valid()
      modifies this`capacity, this`writeNode, this`nodes, this`Links, this`Store, this`cells, Links
      ensures Valid() && fresh(Links - old(Links)) && fresh(Store - old(Store))
      ensures old(cells) <= cells && wpos + len <= capacity
      ensures capacity == old(capacity) + Start(Missing(len, old(capacity) - wpos, base), base)
      ensures Covers(nodes, base, segs, Index(wpos, base), wpos, wpos + len)
    {
      if len == 0 {
        return [];
      }
      AddCapacity(len);
      MissingEnough(len, old(capacity) - wpos, base);
      segs := SegmentsAt(writeNode, wpos, len);
    }

    /** What the kernel does with the buffers of a receive call: it fills them in order. */
    method Scatter(segs: seq<Seg>, ghost k: nat, ghost p: nat, ghost q: nat, src: seq<byte>)
      requires Chain() && Covers(nodes, base, segs, k, p, q) && |src| <= q - p && q <= capacity
      modifies this`cells, Store
      ensures Chain() && p + |src| <= capacity && cells == Splice(old(cells), p, src)
      decreases |segs|
    {
      if src == [] {
        assert Splice(cells, p, src) == cells;
        return;
      }
      var g := segs[0];
      var n := if |src| <= g.len then |src| else g.len;
      At(k);
      SpliceSplit(cells, p, src, n);
      PutChunk(g.node, k, g.off, src[..n]);
      if n < |src| {
        Scatter(segs[1..], k + 1, p + g.len, q, src[n..]);
      }
    }

    // ---------------------------------------------------------------- where the code departs from its intent

    /** The cached read node is the one at the read position if and only if the chain has not grown
        since the read position was put at its end. */
    lemma ReadCursorRight()
      requires Valid()
      ensures readNode == NodeAt(nodes, rpos, base) <==> (rpos == anchor ==> anchor == capacity)
    {
      BlockOf(rpos, |nodes|, base);
    }
  }

  /** A chain of one block of one byte, which has been written and read. */
  method CaughtUp(b: byte) returns (ba: ByteArray)
    ensures ba.Valid() && fresh(ba) && fresh(ba.Links) && fresh(ba.Store)
    ensures ba.size == ba.rpos == ba.wpos == ba.capacity == ba.anchor == ba.base == 1
  {
    ba := new ByteArray(1);
    ba.Write([b]);
    assert Start(0, 1) == 0;
    var buf := new byte[1];
    var st := ba.Read(buf, 1);
  }

  /** A reader that has caught up with the writer at the end of a block cannot read what is written
      next: the bytes are there, and reading them dereferences a null node. */
  method CaughtUpReader(b: byte) returns (available: nat, st: Status)
    ensures available == 1 && st == NullNode
  {
    var ba := CaughtUp(b);
    ba.Write([b]);
    available := ba.size - ba.rpos;
    var buf := new byte[1];
    st := ba.Read(buf, 1);
  }
}
