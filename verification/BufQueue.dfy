/** A queue of fixed-size buffers with a bounded stock of free ones, and positions in it that
    can be read, overwritten and moved without leaving the buffers. */
module BufQueue {
  import opened Sequences
  import opened Bytes

  /** The link at the start of every buffer. */
  const NODE_SIZE: nat := 8

  /** A position: offset `off` of the `node`-th buffer the queue ever used. */
  datatype Pos = Pos(node: nat, off: nat)

  ghost predicate Uniform(bufs: seq<seq<byte>>, size: nat) {
    forall i :: 0 <= i < |bufs| ==> |bufs[i]| == size
  }

  /** Where buffer i starts, with `size` bytes in each. */
  function Start(size: nat, i: nat): nat { i * size }

  /** Offset of a position from the first byte ever queued. */
  function Abs(size: nat, p: Pos): nat { Start(size, p.node) + p.off }

  lemma StartNext(size: nat, i: nat)
    ensures Start(size, i + 1) == Start(size, i) + size && Start(size, 0) == 0
  {
    assert (i + 1) * size == i * size + size;
  }

  lemma StartSum(size: nat, i: nat, j: nat)
    ensures Start(size, i + j) == Start(size, i) + Start(size, j)
  {
    assert (i + j) * size == i * size + j * size;
  }

  /** Order of positions is order of offsets. */
  lemma StartOrder(size: nat, i: nat, a: nat, j: nat, b: nat)
    requires a < size && b < size && Start(size, i) + a <= Start(size, j) + b
    ensures i <= j
  {
    hide Start;
    if i > j {
      StartSum(size, j + 1, i - j - 1);
      StartNext(size, j);
    }
  }

  lemma FlatSize(bufs: seq<seq<byte>>, size: nat)
    requires Uniform(bufs, size)
    ensures |Flat(bufs)| == Start(size, |bufs|)
  {
    FlatUniform(bufs, size);
  }

  /** Overwriting inside one buffer. */
  lemma SpliceBuf(bufs: seq<seq<byte>>, size: nat, i: nat, off: nat, data: seq<byte>)
    requires Uniform(bufs, size) && i < |bufs| && off + |data| <= size
    ensures var bufs' := bufs[i := Splice(bufs[i], off, data)];
      && Uniform(bufs', size)
      && Start(size, i) + off + |data| <= |Flat(bufs)|
      && Flat(bufs') == Splice(Flat(bufs), Start(size, i) + off, data)
  {
    FlatSplice(bufs, i, off, data);
    FlatSize(bufs[..i], size);
  }

  /** Reading inside one buffer. */
  lemma SliceBuf(bufs: seq<seq<byte>>, size: nat, i: nat, off: nat, n: nat)
    requires Uniform(bufs, size) && i < |bufs| && off + n <= size
    ensures Start(size, i) + off + n <= |Flat(bufs)|
    ensures bufs[i][off..off + n] == Flat(bufs)[Start(size, i) + off..Start(size, i) + off + n]
  {
    hide Flat, Start, Uniform;
    BufInside(bufs, size, i);
    FlatSize(bufs[..i], size);
    FlatAt(bufs, i);
    var a, f := Flat(bufs[..i]), Flat(bufs);
    assert f[|a|..|a| + size] == bufs[i];
    SubSlice(f, |a|, |a| + size, off, off + n);
  }

  lemma BufInside(bufs: seq<seq<byte>>, size: nat, i: nat)
    requires Uniform(bufs, size) && i < |bufs|
    ensures |bufs[i]| == size && Uniform(bufs[..i], size)
  {
  }

  lemma UniformPart(bufs: seq<seq<byte>>, size: nat, k: nat)
    requires Uniform(bufs, size) && k <= |bufs|
    ensures Uniform(bufs[..k], size)
  {
  }

  lemma UniformEdit(bufs: seq<seq<byte>>, size: nat, k: nat, b: seq<byte>)
    requires Uniform(bufs, size) && k <= |bufs| && |b| == size
    ensures Uniform(bufs + [b], size) && Uniform(bufs[k..], size)
  {
  }

  /** All nodes the allocator ever gave out. */
  ghost function AllNodes(n: nat): multiset<nat> {
    if n == 0 then multiset{} else AllNodes(n - 1) + multiset{n - 1}
  }

  function Reversed<T>(s: seq<T>): (r: seq<T>)
    ensures |r| == |s|
  {
    if s == [] then [] else Reversed(s[1..]) + [s[0]]
  }

  lemma {:induction false} ReversedSnoc<T>(s: seq<T>, x: T)
    ensures Reversed(s + [x]) == [x] + Reversed(s)
  {
    if s == [] {
      assert Reversed<T>([]) == [];
      assert Reversed([x]) == Reversed([x][1..]) + [x];
    } else {
      ReversedSnoc(s[1..], x);
      assert (s + [x])[1..] == s[1..] + [x];
    }
  }

  lemma {:induction false} ReversedElements<T>(s: seq<T>)
    ensures multiset(Reversed(s)) == multiset(s)
  {
    if s != [] {
      ReversedElements(s[1..]);
      assert s == [s[0]] + s[1..];
    }
  }

  lemma KeptOne(s: seq<nat>, k: nat, tail: seq<nat>)
    requires k < |s|
    ensures Reversed(s[..k + 1]) + tail == [s[k]] + (Reversed(s[..k]) + tail)
  {
    hide Reversed;
    ReversedSnoc(s[..k], s[k]);
    assert s[..k + 1] == s[..k] + [s[k]];
  }

  lemma KeptNone(s: seq<nat>, tail: seq<nat>)
    ensures Reversed(s[..0]) + tail == tail
  {
  }

  class BufQueue {
    const usedSize: nat
    var used: seq<nat>             // nodes in use, by address, oldest first
    var bufs: seq<seq<byte>>       // their contents
    var free: seq<nat>
    var freeLeft: nat
    var nbuffers: nat
    var memLeft: nat
    var nextNode: nat              // the allocator gives out distinct nodes

    var base: nat                  // how many nodes have left the front
    ghost var returned: seq<nat>   // nodes given back to the allocator
    ghost const maxFree: nat
    ghost const memLimit: nat

    function AllocSize(): nat { usedSize + NODE_SIZE }

    /** No buffer is lost: each is in use, free, or was returned; the free stock is bounded,
        and memory taken plus memory left is constant. */
    ghost predicate Counted()
      reads this`used, this`free, this`freeLeft, this`nbuffers, this`memLeft, this`nextNode, this`returned
    {
      && nbuffers == |used| + |free|
      && freeLeft + |free| == maxFree
      && memLeft + Start(AllocSize(), nbuffers) == memLimit
      && multiset(used) + multiset(free) + multiset(returned) == AllNodes(nextNode)
    }

    ghost predicate Valid()
      reads this
    {
      usedSize > 0 && |bufs| == |used| && Uniform(bufs, usedSize) && Counted()
    }

    ghost function Content(): seq<byte>
      reads this`bufs
    {
      Flat(bufs)
    }

    /** Strictly inside a buffer in use. */
    ghost predicate Inside(p: Pos)
      reads this`bufs, this`base
    {
      base <= p.node < base + |bufs| && p.off < usedSize
    }

    /** Offset in the content. */
    ghost function At(p: Pos): nat
      requires base <= p.node
      reads this`base
    {
      Start(usedSize, p.node - base) + p.off
    }

    constructor (usedSize: nat, maxFreeBuffers: nat, memLeft: nat)
      requires usedSize > 0
      ensures Valid() && fresh(this) && this.usedSize == usedSize && this.memLeft == memLeft == memLimit
      ensures used == [] && base == 0 && maxFree == maxFreeBuffers
    {
      this.usedSize := usedSize;
      used, bufs, free, freeLeft, nbuffers := [], [], [], maxFreeBuffers, 0;
      this.memLeft := memLeft;
      nextNode, base, returned := 0, 0, [];
      maxFree, memLimit := maxFreeBuffers, memLeft;
    }

    /** Takes a free buffer, or allocates one within the memory limit; its content is
        whatever was there. */
    method Get() returns (ok: bool)
      requires Valid()
      modifies this
      ensures Valid() && base == old(base) && returned == old(returned)
      ensures ok <==> old(free) != [] || old(memLeft) >= AllocSize()
      ensures !ok ==> used == old(used) && bufs == old(bufs) && free == old(free) && memLeft == old(memLeft)
      ensures ok ==> |bufs| == |old(bufs)| + 1 && bufs[..|old(bufs)|] == old(bufs) && used[..|old(used)|] == old(used)
      ensures old(free) != [] ==>
        used == old(used) + [old(free)[0]] && free == old(free)[1..] && nbuffers == old(nbuffers)
      ensures ok && old(free) == [] ==> nbuffers == old(nbuffers) + 1 && memLeft == old(memLeft) - AllocSize()
    {
      hide AllNodes, Start, Uniform, Counted;
      var result;
      if free != [] {
        result := TakeFree();
      } else {
        if memLeft < AllocSize() {
          return false;
        }
        result := Allocate();
      }
      var data: seq<byte> :| |data| == usedSize by {
        assert |Zeros(usedSize)| == usedSize;
      }
      UniformEdit(bufs, usedSize, 0, data);
      Link(result);
      bufs := bufs + [data];
      ok := true;
    }

    /** The counts while one node is on its way into use. */
    ghost predicate CountedWith(node: nat)
      reads this`used, this`free, this`freeLeft, this`nbuffers, this`memLeft, this`nextNode, this`returned
    {
      && nbuffers == |used| + 1 + |free|
      && freeLeft + |free| == maxFree
      && memLeft + Start(AllocSize(), nbuffers) == memLimit
      && multiset(used) + multiset{node} + multiset(free) + multiset(returned) == AllNodes(nextNode)
    }

    method TakeFree() returns (node: nat)
      requires Counted() && free != []
      modifies this`free, this`freeLeft
      ensures CountedWith(node) && node == old(free)[0] && free == old(free)[1..]
    {
      hide AllNodes, Start;
      assert free == [free[0]] + free[1..];
      node := free[0];
      free, freeLeft := free[1..], freeLeft + 1;
    }

    method Allocate() returns (node: nat)
      requires Counted() && memLeft >= AllocSize()
      modifies this`nextNode, this`memLeft, this`nbuffers
      ensures CountedWith(node) && memLeft == old(memLeft) - AllocSize() && nbuffers == old(nbuffers) + 1
    {
      hide AllNodes, Start;
      TokenNext(nextNode);
      StartNext(AllocSize(), nbuffers);
      node := nextNode;
      nextNode, memLeft, nbuffers := nextNode + 1, memLeft - AllocSize(), nbuffers + 1;
    }

    method Link(node: nat)
      requires CountedWith(node)
      modifies this`used
      ensures Counted() && used == old(used) + [node]
    {
      hide AllNodes, Start;
      used := used + [node];
    }

    /** Whether node k of the queue holds the limit. */
    predicate Holds(limit: Pos, node: nat) {
      limit.node == node && limit.off < usedSize
    }

    /** How many nodes lie before the one that holds the limit; all but the last if none
        does. */
    ghost function Before(limit: Pos): nat
      requires bufs != []
      reads this`bufs, this`base
    {
      if Inside(limit) then limit.node - base else |bufs| - 1
    }

    /** Releases the nodes before the one that holds the limit: into the free stock while
        it has room, the rest to the allocator. */
    method Free(limit: Pos)
      requires Valid()
      modifies this
      ensures Valid()
      ensures old(used) == [] ==> used == [] && base == old(base) && free == old(free)
      ensures old(used) != [] ==>
        var k := old(Before(limit));
        && k < |old(used)| && base == old(base) + k
        && used == old(used)[k..] && bufs == old(bufs)[k..]
        && var m := Least(k, old(freeLeft));
        && free == Reversed(old(used)[..m]) + old(free)
        && returned == old(returned) + old(used)[m..k]
    {
      hide AllNodes, Start, Uniform, Counted, CountedFrom, Reversed;
      if used == [] {
        return;
      }
      ghost var b := bufs[0];
      FirstBuf();
      var cur := Release(limit);
      UniformEdit(bufs, usedSize, cur, b);
      DropUsed(cur);
      bufs, base := bufs[cur..], base + cur;
    }

    lemma FirstBuf()
      requires Valid() && bufs != []
      ensures |bufs[0]| == usedSize
    {
    }

    method DropUsed(cur: nat)
      requires cur <= |used| && CountedFrom(cur)
      modifies this`used
      ensures Counted() && used == old(used)[cur..]
    {
      used := used[cur..];
    }

    /** The first `cur` nodes in use have been released, with room for `room` free ones. */
    ghost predicate Released(cur: nat, room: nat, free0: seq<nat>, returned0: seq<nat>)
      requires cur <= |used|
      reads this`used, this`free, this`freeLeft, this`nbuffers, this`memLeft, this`nextNode, this`returned
    {
      var m := Least(cur, room);
      && free == Reversed(used[..m]) + free0 && returned == returned0 + used[m..cur]
      && freeLeft == room - m && CountedFrom(cur)
    }

    /** Walks the nodes in use from the oldest, releasing them. */
    method Release(limit: Pos) returns (cur: nat)
      requires Valid() && used != []
      modifies this`free, this`freeLeft, this`returned, this`memLeft, this`nbuffers
      ensures cur == Before(limit) < |used| && Released(cur, old(freeLeft), old(free), old(returned))
    {
      hide Released;
      cur := 0;
      NoneReleased();
      while true
        invariant cur <= Before(limit) < |used|
        invariant Released(cur, old(freeLeft), old(free), old(returned))
        decreases |used| - cur
      {
        if Holds(limit, base + cur) {
          break;                       // the buffer contains the limit
        }
        if cur + 1 == |used| {
          break;                       // not found; the last buffer may be used for reading
        }
        ReleaseOne(cur, old(freeLeft), old(free), old(returned));
        cur := cur + 1;
      }
    }

    lemma NoneReleased()
      requires Counted()
      ensures Released(0, freeLeft, free, returned)
    {
      hide AllNodes, Start, Reversed;
      KeptNone(used, free);
      assert used[0..] == used;
      assert returned + used[0..0] == returned;
    }

    method ReleaseOne(cur: nat, ghost room: nat, ghost free0: seq<nat>, ghost returned0: seq<nat>)
      requires cur < |used| && Released(cur, room, free0, returned0)
      modifies this`free, this`freeLeft, this`returned, this`memLeft, this`nbuffers
      ensures Released(cur + 1, room, free0, returned0)
    {
      hide AllNodes, Start, Reversed, CountedFrom;
      if freeLeft <= 0 {
        Return(cur);
      } else {
        Keep(cur, free0);
      }
    }

    /** The counts when the first `cur` nodes in use have been released. */
    ghost predicate CountedFrom(cur: nat)
      requires cur <= |used|
      reads this`used, this`free, this`freeLeft, this`nbuffers, this`memLeft, this`nextNode, this`returned
    {
      && nbuffers == |used| - cur + |free|
      && freeLeft + |free| == maxFree
      && memLeft + Start(AllocSize(), nbuffers) == memLimit
      && multiset(used[cur..]) + multiset(free) + multiset(returned) == AllNodes(nextNode)
    }

    method Return(cur: nat)
      requires cur < |used| && CountedFrom(cur)
      modifies this`returned, this`memLeft, this`nbuffers
      ensures CountedFrom(cur + 1) && returned == old(returned) + [used[cur]]
    {
      hide AllNodes, Start;
      StartNext(AllocSize(), nbuffers - 1);
      assert used[cur..] == [used[cur]] + used[cur + 1..];
      returned := returned + [used[cur]];
      memLeft, nbuffers := memLeft + AllocSize(), nbuffers - 1;
    }

    method Keep(cur: nat, ghost tail: seq<nat>)
      requires cur < |used| && CountedFrom(cur) && freeLeft > 0 && free == Reversed(used[..cur]) + tail
      modifies this`free, this`freeLeft
      ensures CountedFrom(cur + 1) && freeLeft == old(freeLeft) - 1 && free == Reversed(used[..cur + 1]) + tail
    {
      hide AllNodes, Start, Reversed;
      assert used[cur..] == [used[cur]] + used[cur + 1..];
      KeptOne(used, cur, tail);
      free, freeLeft := [used[cur]] + free, freeLeft - 1;
    }

    /** Gives every buffer back. */
    method Delete()
      requires Valid()
      modifies this
      ensures Valid() && used == [] && free == [] && nbuffers == 0 && freeLeft == maxFree && memLeft == memLimit
      ensures multiset(returned) == AllNodes(nextNode)
    {
      hide AllNodes, Start, Uniform;
      StartNext(AllocSize(), 0);
      returned := returned + free + used;
      freeLeft, free := freeLeft + |free|, [];
      base := base + |used|;
      used, bufs := [], [];
      memLeft := memLeft + Start(AllocSize(), nbuffers);
      nbuffers := 0;
      UniformNone(usedSize);
    }

    /** Overwrites from a position on, across buffers; the position moves behind the data
        and must end inside a buffer. */
    method StreamWrite(p: Pos, data: seq<byte>) returns (ok: bool, q: Pos)
      requires Valid() && Inside(p)
      modifies this`bufs
      ensures Valid() && |bufs| == |old(bufs)| && Content() == Overwritten(old(Content()), At(p), data)
      ensures ok <==> At(p) + |data| < |old(Content())|
      ensures ok ==> Inside(q) && At(q) == At(p) + |data|
    {
      hide AllNodes, Start, Uniform, Splice, Flat, Counted;
      var node: nat, pos: nat, done: nat := p.node, p.off, 0;
      ghost var all, at := Content(), At(p);
      FlatSize(bufs, usedSize);
      InContent(p);
      SpliceNone(all, at);
      while done < |data|
        invariant Valid() && base <= node < base + |bufs| && pos < usedSize && done <= |data|
        invariant Start(usedSize, node - base) + pos == at + done < |all|
        invariant |bufs| == |old(bufs)| && Content() == Splice(all, at, data[..done])
        decreases |data| - done
      {
        var chunk := Least(usedSize - pos, |data| - done);
        WriteBuf(node - base, pos, data[done..done + chunk]);
        InContentEnd();
        WriteMore(all, at, data, done, chunk);
        pos, done := pos + chunk, done + chunk;
        if pos >= usedSize {
          StartNext(usedSize, node - base);
          if node + 1 == base + |bufs| {
            AllWritten(all, at, data, done);
            return false, p;
          }
          node, pos := node + 1, 0;
        }
        InContent(Pos(node, pos));
      }
      assert data[..done] == data;
      return true, Pos(node, pos);
    }

    method WriteBuf(i: nat, pos: nat, data: seq<byte>)
      requires Valid() && i < |bufs| && pos + |data| <= usedSize
      modifies this`bufs
      ensures Valid() && |bufs| == |old(bufs)| && Start(usedSize, i) + pos + |data| <= |old(Content())|
      ensures Content() == Splice(old(Content()), Start(usedSize, i) + pos, data)
    {
      hide AllNodes, Start, Uniform, Splice, Flat, Counted;
      SpliceBuf(bufs, usedSize, i, pos, data);
      BufInside(bufs, usedSize, i);
      bufs := bufs[i := Splice(bufs[i], pos, data)];
    }

    lemma InContentEnd()
      requires Valid()
      ensures |Content()| == Start(usedSize, |bufs|)
    {
      FlatSize(bufs, usedSize);
    }

    /** A position inside the queue lies before the end of the content. */
    lemma InContent(p: Pos)
      requires Valid() && Inside(p)
      ensures At(p) < |Content()| == Start(usedSize, |bufs|)
      ensures p.off == 0 ==> At(p) == Start(usedSize, p.node - base)
    {
      hide Counted, Flat, Uniform;
      FlatSize(bufs, usedSize);
      var i := p.node - base;
      StartNext(usedSize, i);
      StartSum(usedSize, i + 1, |bufs| - (i + 1));
    }

    method StreamRead(p: Pos, size: nat) returns (ok: bool, data: seq<byte>, q: Pos)
      requires Valid() && Inside(p)
      ensures ok <==> At(p) + size < |Content()|
      ensures ok ==> Inside(q) && At(q) == At(p) + size && data == Content()[At(p)..At(p) + size]
    {
      hide AllNodes, Start, Uniform, Flat, Counted;
      var node: nat, pos: nat := p.node, p.off;
      ghost var all, at := Content(), At(p);
      InContent(p);
      data := [];
      while |data| < size
        invariant base <= node < base + |bufs| && pos < usedSize && |data| <= size
        invariant Start(usedSize, node - base) + pos == at + |data| < |all|
        invariant data == all[at..at + |data|]
        decreases size - |data|
      {
        var chunk := Least(usedSize - pos, size - |data|);
        var i := node - base;
        SliceBuf(bufs, usedSize, i, pos, chunk);
        BufInside(bufs, usedSize, i);
        assert all[at..at + |data| + chunk] == all[at..at + |data|] + all[at + |data|..at + |data| + chunk];
        data := data + bufs[i][pos..pos + chunk];
        pos := pos + chunk;
        if pos >= usedSize {
          StartNext(usedSize, i);
          if node + 1 == base + |bufs| {
            return false, data, p;
          }
          node, pos := node + 1, 0;
        }
        InContent(Pos(node, pos));
      }
      return true, data, Pos(node, pos);
    }

    method StreamSkip(p: Pos, size: nat) returns (ok: bool, q: Pos)
      requires Valid() && Inside(p)
      ensures ok <==> At(p) + size < |Content()|
      ensures ok ==> Inside(q) && At(q) == At(p) + size
    {
      hide AllNodes, Start, Uniform, Flat, Counted;
      var node: nat, pos: nat, left: nat := p.node, p.off, size;
      InContent(p);
      while true
        invariant base <= node < base + |bufs| && pos < usedSize && left <= size
        invariant Start(usedSize, node - base) + pos + left == At(p) + size
        decreases left
      {
        InContent(Pos(node, pos));
        if left < usedSize - pos {
          InContent(Pos(node, pos + left));
          return true, Pos(node, pos + left);
        }
        left := left - (usedSize - pos);
        StartNext(usedSize, node - base);
        if node + 1 == base + |bufs| {
          return false, p;
        }
        node, pos := node + 1, 0;
      }
    }

    /** What a write leaves behind, a read from the same position returns, and both end at
        the same place as a skip. */
    method WriteThenRead(p: Pos, data: seq<byte>) returns (back: seq<byte>, written: Pos, read: Pos, skipped: Pos)
      requires Valid() && Inside(p) && At(p) + |data| < |Content()|
      modifies this`bufs
      ensures Valid() && back == data && written == read == skipped && Inside(read) && At(read) == At(p) + |data|
    {
      hide AllNodes, Start, Uniform, Flat, Counted;
      ghost var all := Content();
      InContentEnd();
      var ok, q := StreamWrite(p, data);
      InContentEnd();
      SpliceInside(all, At(p), data, At(p), At(p) + |data|);
      var okRead, bytes, r := StreamRead(p, |data|);
      var okSkip, t := StreamSkip(p, |data|);
      SamePlace(q, r);
      SamePlace(q, t);
      assert Splice(all[At(p)..At(p) + |data|], 0, data) == data;
      back, written, read, skipped := bytes, q, r, t;
    }

    /** Positions are determined by their offsets. */
    lemma SamePlace(p: Pos, q: Pos)
      requires Inside(p) && Inside(q) && At(p) == At(q)
      ensures p == q
    {
      hide Start;
      StartOrder(usedSize, p.node - base, p.off, q.node - base, q.off);
      StartOrder(usedSize, q.node - base, q.off, p.node - base, p.off);
    }
  }

  /** What a write that runs off the end leaves: as much as fits. */
  function Overwritten(all: seq<byte>, at: nat, data: seq<byte>): (r: seq<byte>) {
    if at + |data| <= |all| then Splice(all, at, data)
    else if at <= |all| then Splice(all, at, data[..|all| - at])
    else all
  }

  lemma WriteMore(all: seq<byte>, at: nat, data: seq<byte>, p: nat, k: nat)
    requires p + k <= |data| && at + p + k <= |all|
    ensures Splice(Splice(all, at, data[..p]), at + p, data[p..p + k]) == Splice(all, at, data[..p + k])
  {
    hide Splice;
    var d := data[..p + k];
    SpliceNext(all, at, d, p, k);
    assert d[..p] == data[..p] && d[p..p + k] == data[p..p + k] && d[..p + k] == d;
  }

  lemma AllWritten(all: seq<byte>, at: nat, data: seq<byte>, done: nat)
    requires done <= |data| && at + done == |all|
    ensures Overwritten(all, at, data) == Splice(all, at, data[..done])
  {
    hide Splice;
    assert |data| == done ==> data[..done] == data;
  }

  function Least(a: nat, b: nat): (r: nat)
    ensures r <= a && r <= b && (r == a || r == b)
  {
    if a <= b then a else b
  }

  lemma UniformNone(size: nat)
    ensures Uniform([], size)
  {
  }

  lemma TokenNext(n: nat)
    ensures AllNodes(n + 1) == AllNodes(n) + multiset{n}
  {
  }
}
