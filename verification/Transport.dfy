/** Moving the contents of block chains over a connection: SocketStream::read and write over
    segment lists (src/Stream/SocketStream.cc) and the loops around short transfers
    (src/Stream.cc). */
module Transport {
  import opened Codec
  import opened ByteArrays
  import opened Common

  /** The most that one system call transfers. */
  const MAX_COUNT: nat := 0x7FFF_F000

  /** One direction of a connection: the bytes under way, and what the next calls will do.  A number
      says how many bytes a call transfers at most, and 0 that it fails. */
  class Wire {
    var bytes: seq<byte>
    var plan: seq<nat>

    constructor (script: seq<nat>)
      ensures bytes == [] && plan == script
    {
      bytes, plan := [], script;
    }

    method Next(most: nat) returns (n: int)
      modifies this`plan
      ensures Calmer(this, n)
      ensures n == -1 || 0 <= n <= most
      ensures n != -1 && most > 0 ==> 0 < n <= MAX_COUNT
    {
      n := if most <= MAX_COUNT then most else MAX_COUNT;
      if plan != [] {
        if plan[0] == 0 {
          n := -1;
        } else if plan[0] < n {
          n := plan[0];
        }
        plan := plan[1..];
      }
    }

    /** sendmsg */
    method Send(data: seq<byte>) returns (n: int)
      modifies this
      ensures Calmer(this, n)
      ensures n == -1 || 0 <= n <= |data|
      ensures n != -1 && data != [] ==> 0 < n
      ensures bytes == old(bytes) + (if n > 0 then data[..n] else [])
    {
      n := Next(|data|);
      if n > 0 {
        bytes := bytes + data[..n];
      } else {
        assert bytes + [] == bytes;
      }
    }

    /** recvmsg: what is taken off the connection goes into the buffers; 0 is the end of the stream. */
    method Recv(room: nat) returns (data: seq<byte>, n: int)
      modifies this
      ensures Calmer(this, n)
      ensures n == -1 || n == |data| <= room
      ensures n != -1 && room > 0 && old(bytes) != [] ==> 0 < n
      ensures n == -1 ==> data == []
      ensures old(bytes) == data + bytes
    {
      n := Next(if room <= |bytes| then room else |bytes|);
      if n > 0 {
        data, bytes := bytes[..n], bytes[n..];
      } else {
        data := [];
      }
    }
  }

  /** Only a connection whose script says so fails a call. */
  twostate predicate Calmer(wire: Wire, n: int)
    reads wire
  {
    (n == -1 ==> 0 in old(wire.plan)) && (0 in wire.plan ==> 0 in old(wire.plan))
  }

  /** The bytes between two positions of a chain. */
  ghost function Between(ba: ByteArray, p: nat, q: nat): seq<byte>
    requires p <= q <= |ba.cells|
    reads ba
  {
    ba.cells[p..q]
  }

  /** SocketStream::write: what is sent is what the read position then moves over. */
  method SocketWrite(ba: ByteArray, wire: Wire, len: nat) returns (ret: int, st: Status)
    requires ba.Valid() && wire !in ba.Links + ba.Store
    modifies ba`readNode, ba`rpos, ba`anchor, wire
    ensures ba.Valid()
    ensures st == if 0 < len && old(ba.rpos < ba.size && ba.rpos == ba.anchor) then NullNode else Done
    ensures st == NullNode ==> unchanged(wire) && unchanged(ba)
    ensures ret == -1 || (0 <= ret <= len && (ret == 0 ==> len == 0 || st == NullNode || old(ba.rpos == ba.size)))
    ensures ba.rpos == old(ba.rpos) + (if ret > 0 then ret else 0) && ba.rpos <= ba.size
    ensures wire.bytes == old(wire.bytes) + Between(ba, old(ba.rpos), ba.rpos)
    ensures ret > 0 ==> ba.anchor == ba.capacity
    ensures ret <= 0 ==> ba.anchor == old(ba.anchor)
    ensures Calmer(wire, ret)
  {
    var data;
    data, st := Ahead(ba, len);
    assert wire.bytes + [] == wire.bytes;
    if st != Done {
      return 0, st;
    }
    ret := wire.Send(data);
    if ret > 0 {
      ghost var p := ba.rpos;
      assert data[..ret] == ba.cells[p..p + ret];
      st := ba.SetReadPosition(ba.rpos + ret);
    }
  }

  /** The segments at the read position, as the bytes they hold. */
  method Ahead(ba: ByteArray, len: nat) returns (data: seq<byte>, st: Status)
    requires ba.Valid()
    ensures st == if 0 < len && ba.rpos < ba.size && ba.rpos == ba.anchor then NullNode else Done
    ensures st == Done ==> data == ba.cells[ba.rpos..ba.rpos + (if len < ba.size - ba.rpos then len else ba.size - ba.rpos)]
  {
    var segs, n;
    segs, n, st := ba.GetReadBuffers(len);
    if st == Done {
      data := Collect(ba, segs, Index(ba.rpos, ba.base), ba.rpos, ba.rpos + n);
    } else {
      data := [];
    }
  }

  /** What the kernel reads from the buffers of a send call. */
  method Collect(ba: ByteArray, segs: seq<Seg>, ghost k: nat, ghost p: nat, ghost q: nat) returns (data: seq<byte>)
    requires ba.Valid() && ByteArray.Covers(ba.nodes, ba.base, segs, k, p, q) && q <= ba.capacity
    ensures p <= q && data == ba.cells[p..q]
    decreases |segs|
  {
    ba.CoveredBytes(segs, k, p, q);
    if segs == [] {
      return [];
    }
    var g := segs[0];
    ba.At(k);
    var rest := Collect(ba, segs[1..], k + 1, p + g.len, q);
    data := g.node.data[g.off..g.off + g.len] + rest;
  }

  /** SocketStream::read: what is received appears at the write position, which moves behind it. */
  method SocketRead(ba: ByteArray, wire: Wire, len: nat) returns (ret: int)
    requires ba.Valid() && wire !in ba.Links + ba.Store
    modifies ba, ba.Links, ba.Store, wire
    ensures ba.Valid() && fresh(ba.Links - old(ba.Links)) && fresh(ba.Store - old(ba.Store))
    ensures ret == -1 || (0 <= ret <= len && (ret == 0 ==> len == 0 || old(wire.bytes) == []))
    ensures ret <= 0 ==> wire.bytes == old(wire.bytes) && ba.wpos == old(ba.wpos)
    ensures ret > 0 ==> ba.wpos == old(ba.wpos) + ret && ret <= |old(wire.bytes)|
    ensures ret > 0 ==> wire.bytes == old(wire.bytes)[ret..]
    ensures Splice(old(ba.cells), old(ba.wpos), if ret > 0 then old(wire.bytes)[..ret] else []) <= ba.cells
    ensures ba.size == (if old(ba.size) < ba.wpos then ba.wpos else old(ba.size))
    ensures ba.rpos == old(ba.rpos) && ba.anchor == old(ba.anchor) && ba.endian == old(ba.endian)
    ensures Calmer(wire, ret)
  {
    ghost var c0, w := ba.cells, ba.wpos;
    var segs := ba.GetWriteBuffers(len);
    ghost var grown := ba.cells;
    var data;
    data, ret := wire.Recv(len);
    assert Splice(c0, w, []) == c0;
    if ret > 0 {
      Deliver(ba, segs, len, data);
      SplicePrefix(c0, grown, w, data);
      assert old(wire.bytes)[..ret] == data && old(wire.bytes)[ret..] == wire.bytes;
    } else {
      assert data == [] && wire.bytes == old(wire.bytes);
    }
  }

  /** The received bytes go into the segments, and the write position moves behind them. */
  method Deliver(ba: ByteArray, segs: seq<Seg>, len: nat, data: seq<byte>)
    requires ba.Valid() && 0 < |data| <= len && ba.wpos + len <= ba.capacity
    requires ByteArray.Covers(ba.nodes, ba.base, segs, Index(ba.wpos, ba.base), ba.wpos, ba.wpos + len)
    modifies ba`cells, ba`writeNode, ba`wpos, ba`size, ba.Store
    ensures ba.Valid() && ba.cells == Splice(old(ba.cells), old(ba.wpos), data)
    ensures ba.wpos == old(ba.wpos) + |data| && ba.size == if old(ba.size) < ba.wpos then ba.wpos else old(ba.size)
  {
    ba.Scatter(segs, Index(ba.wpos, ba.base), ba.wpos, ba.wpos + len, data);
    var _ := ba.SetWritePosition(ba.wpos + |data|);
  }

  /** writefixsize over a block chain.  However short the single sends are, the bytes sent are the
      next ones in order, and without an error there are len of them. */
  method WriteFixSize(ba: ByteArray, wire: Wire, len: nat) returns (ret: int, st: Status)
    requires ba.Valid() && wire !in ba.Links + ba.Store
    modifies ba`readNode, ba`rpos, ba`anchor, wire
    ensures ba.Valid() && old(ba.rpos) <= ba.rpos <= ba.size && ba.rpos <= old(ba.rpos) + len
    ensures wire.bytes == old(wire.bytes) + Between(ba, old(ba.rpos), ba.rpos)
    ensures st == if 0 < len && old(ba.rpos < ba.size && ba.rpos == ba.anchor) then NullNode else Done
    ensures st == Done ==>
      || (ba.rpos == old(ba.rpos) + len && ret == ToInt(len))
      || (ret == 0 && ba.rpos == ba.size < old(ba.rpos) + len)
      || (ret == -1 && 0 in old(wire.plan))
    ensures 0 in wire.plan ==> 0 in old(wire.plan)
  {
    ghost var p := ba.rpos;
    var left := len;
    assert wire.bytes + [] == wire.bytes;
    while left > 0
      invariant 0 <= left <= len && ba.Valid() && ba.rpos == p + (len - left)
      invariant wire.bytes == old(wire.bytes) + Between(ba, p, ba.rpos)
      invariant 0 in wire.plan ==> 0 in old(wire.plan)
      invariant left == len ==> ba.rpos == p && ba.anchor == old(ba.anchor)
      invariant left < len ==> ba.anchor == ba.capacity && !old(ba.rpos < ba.size && ba.rpos == ba.anchor)
    {
      ghost var q := ba.rpos;
      ret, st := SocketWrite(ba, wire, left);
      assert Between(ba, p, q) + Between(ba, q, ba.rpos) == Between(ba, p, ba.rpos);
      if st != Done || ret <= 0 {
        return;
      }
      left := left - ret;
    }
    return ToInt(len), Done;
  }

  /** readfixsize over a block chain: the bytes received are the next ones of the connection in
      order, and they appear in order at the write position. */
  method ReadFixSize(ba: ByteArray, wire: Wire, len: nat) returns (ret: int, ghost k: nat)
    requires ba.Valid() && wire !in ba.Links + ba.Store
    modifies ba, ba.Links, ba.Store, wire
    ensures ba.Valid() && fresh(ba.Links - old(ba.Links)) && fresh(ba.Store - old(ba.Store))
    ensures k <= len && k <= |old(wire.bytes)| && wire.bytes == old(wire.bytes)[k..]
    ensures ba.wpos == old(ba.wpos) + k && Splice(old(ba.cells), old(ba.wpos), old(wire.bytes)[..k]) <= ba.cells
    ensures ba.rpos == old(ba.rpos) && (0 in wire.plan ==> 0 in old(wire.plan))
    ensures
      || (k == len && ret == ToInt(len))
      || (ret == 0 && k == |old(wire.bytes)| < len)
      || (ret == -1 && 0 in old(wire.plan))
  {
    ghost var c0, w, all := ba.cells, ba.wpos, wire.bytes;
    var left := len;
    k := 0;
    assert Splice(c0, w, all[..0]) == c0;
    while left > 0
      invariant 0 <= left <= len && k == len - left && k <= |all| && ba.Valid()
      invariant fresh(ba.Links - old(ba.Links)) && fresh(ba.Store - old(ba.Store)) && wire !in ba.Links + ba.Store
      invariant wire.bytes == all[k..] && ba.wpos == w + k && Splice(c0, w, all[..k]) <= ba.cells
      invariant ba.rpos == old(ba.rpos) && (0 in wire.plan ==> 0 in old(wire.plan))
    {
      ret := ReadPart(ba, wire, left, c0, w, all, k);
      if ret <= 0 {
        return;
      }
      left := left - ret;
      k := k + ret;
    }
    ret := ToInt(len);
  }

  /** One read, behind the k bytes that have been received before. */
  method ReadPart(ba: ByteArray, wire: Wire, left: nat, ghost c0: seq<byte>, ghost w: nat, ghost all: seq<byte>, ghost k: nat)
    returns (ret: int)
    requires ba.Valid() && wire !in ba.Links + ba.Store && left > 0
    requires k <= |all| && wire.bytes == all[k..] && ba.wpos == w + k && w <= |c0| && Splice(c0, w, all[..k]) <= ba.cells
    modifies ba, ba.Links, ba.Store, wire
    ensures ba.Valid() && fresh(ba.Links - old(ba.Links)) && fresh(ba.Store - old(ba.Store))
    ensures ret == -1 || (0 <= ret <= left && (ret == 0 ==> k == |all|))
    ensures var n := if ret > 0 then ret else 0;
      k + n <= |all| && wire.bytes == all[k + n..] && ba.wpos == w + (k + n) && Splice(c0, w, all[..k + n]) <= ba.cells
    ensures ba.rpos == old(ba.rpos) && Calmer(wire, ret)
  {
    ghost var c1 := ba.cells;
    ret := SocketRead(ba, wire, left);
    if ret <= 0 {
      assert Splice(c1, w + k, []) == c1;
    } else {
      ReceivedMore(c0, c1, ba.cells, w, all, k, ret);
    }
  }

  lemma ReceivedMore(c0: seq<byte>, c1: seq<byte>, c2: seq<byte>, w: nat, all: seq<byte>, k: nat, n: nat)
    requires w <= |c0| && k + n <= |all| && Splice(c0, w, all[..k]) <= c1 && w + k <= |c1|
    requires Splice(c1, w + k, all[k..][..n]) <= c2
    ensures Splice(c0, w, all[..k + n]) <= c2 && all[k..][n..] == all[k + n..]
  {
    assert all[..k] + all[k..][..n] == all[..k + n];
    WriteTwice(c0, c1, c2, w, all[..k], all[k..][..n]);
  }

  /** Gather, send, receive, scatter.  Between two chains of any block sizes, over a connection on
      which no call fails but every send and every receive may be as short as it pleases, exactly the
      next len bytes arrive, in order, and nothing is left over. */
  method Transfer(src: ByteArray, dst: ByteArray, wire: Wire, len: nat) returns (sent: int, got: int)
    requires src.Valid() && dst.Valid() && wire.bytes == [] && 0 !in wire.plan
    requires src.rpos + len <= src.size && src.rpos != src.anchor
    requires wire !in src.Links + src.Store + dst.Links + dst.Store
    requires ({src} + src.Links + src.Store) !! ({dst} + dst.Links + dst.Store)
    modifies src`readNode, src`rpos, src`anchor, dst, dst.Links, dst.Store, wire
    ensures src.Valid() && dst.Valid() && sent == got == ToInt(len) && wire.bytes == []
    ensures src.rpos == old(src.rpos) + len && dst.wpos == old(dst.wpos) + len
    ensures src.cells == old(src.cells)
    ensures Splice(old(dst.cells), old(dst.wpos), src.cells[old(src.rpos)..old(src.rpos) + len]) <= dst.cells
  {
    var st;
    sent, st := WriteFixSize(src, wire, len);
    ghost var moved := Between(src, old(src.rpos), src.rpos);
    assert [] + moved == moved;
    ghost var k;
    got, k := ReadFixSize(dst, wire, len);
    assert moved[..len] == moved;
  }
}
