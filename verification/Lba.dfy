/** The large buffer allocator: blocks of fixed-size buffers, grouped in bins by how
    many of their buffers are in use, with the occupied bins on an ordered active list. */
module Lba {
  import opened LbaBins

  const BLOCK_SIZE: nat := 0x8_0000
  const BLOCK_HDR: nat := 40
  const BUF_HDR: nat := 8

  /** A block: the free list links slots that were used and freed; slots from `inited`
      on were never used. */
  datatype Block = Block(binIndex: nat, free: seq<nat>, inited: nat, used: nat)

  /** A buffer is a slot of a block. */
  type BlockId = nat
  datatype Buffer = Buffer(block: BlockId, slot: nat)

  ghost predicate BlockOk(b: Block, c: nat, n: nat)
    requires n > 0
  {
    && b.binIndex == BinOf(b.used, c, n)
    && b.used + |b.free| == b.inited <= n
    && Distinct(b.free) && forall s :: s in b.free ==> s < b.inited
  }

  /** Each block is linked in exactly one bin: the one it names. */
  ghost predicate Placed(bins: seq<seq<nat>>, blocks: map<BlockId, Block>) {
    && (forall i :: 0 <= i < |bins| ==> Distinct(bins[i]))
    && (forall i, x :: 0 <= i < |bins| && x in bins[i] ==> x in blocks && blocks[x].binIndex == i)
    && (forall x :: x in blocks ==> blocks[x].binIndex < |bins| && x in bins[blocks[x].binIndex])
  }

  ghost predicate BlocksOk(blocks: map<BlockId, Block>, c: nat, n: nat)
    requires n > 0
  {
    forall x :: x in blocks ==> BlockOk(blocks[x], c, n)
  }

  /** At most one block has no buffer in use. */
  ghost predicate OneSpare(blocks: map<BlockId, Block>) {
    forall x, y :: x in blocks && y in blocks && blocks[x].used == 0 && blocks[y].used == 0 ==> x == y
  }

  ghost predicate Live(blocks: map<BlockId, Block>, b: Buffer) {
    b.block in blocks && b.slot < blocks[b.block].inited && b.slot !in blocks[b.block].free
  }

  /** A block added with its first buffer in use. */
  lemma LiveWithBlock(blocks: map<BlockId, Block>, x: BlockId, b: Block)
    requires x !in blocks && b.inited == 1 && b.free == []
    ensures !Live(blocks, Buffer(x, 0))
    ensures forall y :: Live(blocks[x := b], y) <==> Live(blocks, y) || y == Buffer(x, 0)
  {
  }

  lemma PlacedAdd(bins: seq<seq<nat>>, blocks: map<BlockId, Block>, x: BlockId, b: Block)
    requires Placed(bins, blocks) && x !in blocks && b.binIndex < |bins|
    ensures x !in bins[b.binIndex]
    ensures Placed(bins[b.binIndex := bins[b.binIndex] + [x]], blocks[x := b])
  {
    var i := b.binIndex;
    SnocDistinct(bins[i], x);
    var bins' := bins[i := bins[i] + [x]];
    forall j, y | 0 <= j < |bins'| && y in bins'[j]
      ensures y in blocks[x := b] && blocks[x := b][y].binIndex == j
    {
      if y != x || j != i {
        assert y in bins[j];
      }
    }
  }

  lemma PlacedRemove(bins: seq<seq<nat>>, blocks: map<BlockId, Block>, x: BlockId)
    requires Placed(bins, blocks) && x in blocks
    ensures var i := blocks[x].binIndex;
      Placed(bins[i := Remove(bins[i], x)], blocks - {x})
  {
    hide Remove, Distinct;
    var i := blocks[x].binIndex;
    var bins' := bins[i := Remove(bins[i], x)];
    RemoveDistinct(bins[i], x);
    forall j, y | 0 <= j < |bins'| ensures y in bins'[j] <==> y in bins[j] && y != x {
      RemoveElems(bins[i], x, y);
    }
  }

  lemma PlacedMove(bins: seq<seq<nat>>, blocks: map<BlockId, Block>, x: BlockId, b: Block)
    requires Placed(bins, blocks) && x in blocks && b.binIndex < |bins|
    ensures var i, j := blocks[x].binIndex, b.binIndex;
      var bins1 := bins[i := Remove(bins[i], x)];
      Placed(bins1[j := bins1[j] + [x]], blocks[x := b])
  {
    PlacedRemove(bins, blocks, x);
    var i := blocks[x].binIndex;
    PlacedAdd(bins[i := Remove(bins[i], x)], blocks - {x}, x, b);
    assert (blocks - {x})[x := b] == blocks[x := b];
  }

  lemma PlacedSame(bins: seq<seq<nat>>, blocks: map<BlockId, Block>, x: BlockId, b: Block)
    requires Placed(bins, blocks) && x in blocks && b.binIndex == blocks[x].binIndex
    ensures Placed(bins, blocks[x := b])
  {
  }

  lemma SpareUpdate(blocks: map<BlockId, Block>, x: BlockId, b: Block)
    requires OneSpare(blocks)
    requires b.used == 0 ==> forall y :: y in blocks && y != x ==> blocks[y].used != 0
    ensures OneSpare(blocks[x := b]) && OneSpare(blocks - {x})
  {
  }

  ghost function Upto(n: nat): set<nat> {
    if n == 0 then {} else Upto(n - 1) + {n - 1}
  }

  lemma {:induction false} UptoHas(n: nat, s: nat)
    ensures s in Upto(n) <==> s < n
  {
    if n > 0 {
      UptoHas(n - 1, s);
    }
  }

  lemma {:induction false} UptoSize(n: nat)
    ensures |Upto(n)| == n
  {
    if n > 0 {
      UptoSize(n - 1);
      UptoHas(n - 1, n - 1);
    }
  }

  /** The slots of a block that are in use. */
  ghost function LiveSlots(b: Block): set<nat> {
    set s | s in Upto(b.inited) && s !in b.free
  }

  ghost function Elems(q: seq<nat>): set<nat> {
    set s | s in q
  }

  lemma {:induction false} ElemsSize(q: seq<nat>)
    requires Distinct(q)
    ensures |Elems(q)| == |q|
  {
    if q != [] {
      ElemsSize(q[1..]);
      assert Elems(q) == Elems(q[1..]) + {q[0]};
    }
  }

  /** `used` counts the buffers in use: none is lost, none is listed twice. */
  lemma SlotsConserved(b: Block, c: nat, n: nat)
    requires n > 0 && BlockOk(b, c, n)
    ensures |LiveSlots(b)| == b.used
  {
    UptoSize(b.inited);
    ElemsSize(b.free);
    forall s | s in b.free ensures s in Upto(b.inited) {
      UptoHas(b.inited, s);
    }
    assert LiveSlots(b) == Upto(b.inited) - Elems(b.free);
    assert Elems(b.free) <= Upto(b.inited);
  }

  lemma OnlyLive(b: Block, c: nat, n: nat, s: nat, t: nat)
    requires n > 0 && BlockOk(b, c, n) && b.used == 1
    requires s in LiveSlots(b) && t in LiveSlots(b)
    ensures s == t
  {
    SlotsConserved(b, c, n);
    var rest := LiveSlots(b) - {s};
    assert |rest| == 0;
    assert t == s || t in rest;
  }

  /** Taking a slot: the last freed one, or one never used. */
  function TakeSlot(b: Block): (r: (nat, Block)) {
    if b.free != [] then (b.free[0], b.(free := b.free[1..], used := b.used + 1))
    else (b.inited, b.(inited := b.inited + 1, used := b.used + 1))
  }

  /** A slot taken in one block. */
  lemma LiveWithSlot(blocks: map<BlockId, Block>, x: BlockId, i: nat, c: nat, n: nat)
    requires x in blocks && 1 <= c <= n && BlockOk(blocks[x], c, n) && blocks[x].binIndex < c
    ensures var (s, b) := TakeSlot(blocks[x]);
      && !Live(blocks, Buffer(x, s))
      && forall y :: Live(blocks[x := b.(binIndex := i)], y) <==> Live(blocks, y) || y == Buffer(x, s)
  {
    TakeSlotOk(blocks[x], c, n);
  }

  lemma TakeSlotOk(b: Block, c: nat, n: nat)
    requires 1 <= c <= n && BlockOk(b, c, n) && b.binIndex < c
    ensures b.free != [] || b.inited < n
    ensures var (s, t) := TakeSlot(b);
      && BlockOk(t.(binIndex := BinOf(t.used, c, n)), c, n)
      && b.binIndex <= BinOf(t.used, c, n) <= b.binIndex + 1 && BinOf(t.used, c, n) <= c
      && s !in LiveSlots(b) && LiveSlots(t) == LiveSlots(b) + {s}
  {
    hide BinOf;
    BinFull(b.used, c, n);
    BinFull(b.used + 1, c, n);
    BinStep(b.used, c, n);
    var (s, t) := TakeSlot(b);
    UptoHas(b.inited, b.inited);
    UptoHas(b.inited, s);
    if b.free != [] {
      assert b.free == [s] + b.free[1..];
      assert forall y :: y in b.free <==> y == s || y in b.free[1..];
      assert LiveSlots(t) == LiveSlots(b) + {s};
    } else {
      assert Upto(t.inited) == Upto(b.inited) + {s};
    }
  }

  /** Giving a slot back. */
  function GiveSlot(b: Block, s: nat): Block
    requires b.used > 0
  {
    b.(free := [s] + b.free, used := b.used - 1)
  }

  lemma GiveSlotOk(b: Block, c: nat, n: nat, s: nat)
    requires 1 <= c <= n && BlockOk(b, c, n) && s in LiveSlots(b)
    ensures b.used > 0
    ensures var t := GiveSlot(b, s);
      && BlockOk(t.(binIndex := BinOf(t.used, c, n)), c, n)
      && BinOf(t.used, c, n) <= b.binIndex <= BinOf(t.used, c, n) + 1 && b.binIndex <= c
      && LiveSlots(t) == LiveSlots(b) - {s}
  {
    SlotsConserved(b, c, n);
    assert LiveSlots(b) != {};
    BinFull(b.used, c, n);
    BinStep(b.used - 1, c, n);
    UptoHas(b.inited, s);
    var f := [s] + b.free;
    assert f[1..] == b.free;
  }

  /** A block found in bin `i`, the last on the active list, sees no occupied bin above. */
  lemma HighestBin(bins: seq<seq<nat>>, i: nat, c: nat)
    requires c < |bins| && Occupied(bins, 0, c) != []
    requires i == Occupied(bins, 0, c)[|Occupied(bins, 0, c)| - 1]
    ensures i < c && bins[i] != [] && Occupied(bins, i + 1, c) == []
    ensures forall j :: i < j < c ==> bins[j] == []
  {
    var q := Occupied(bins, 0, c);
    assert i in q;
    OccupiedHas(bins, 0, c, i);
    OccupiedAround(bins, i, c);
    var r := Occupied(bins, i + 1, c);
    if r != [] {
      assert r[|r| - 1] == q[|q| - 1];
      assert r[|r| - 1] in r;
      OccupiedHas(bins, i + 1, c, i);
    }
    forall j | i < j < c ensures bins[j] == [] {
      OccupiedHas(bins, i + 1, c, j);
    }
  }

  lemma FirstOccupied(bins: seq<seq<nat>>, bins': seq<seq<nat>>, i: nat, c: nat)
    requires i <= c < |bins| == |bins'| && Occupied(bins, 0, c) == []
    requires bins'[i] != [] && forall j :: 0 <= j < |bins| && j != i ==> bins'[j] == bins[j]
    ensures Occupied(bins', 0, c) == if i == c then [] else [i]
  {
    if i == c {
      OccupiedSame(bins, bins', 0, c);
    } else {
      OccupiedAround(bins, i, c);
      OccupiedAround(bins', i, c);
      OccupiedSame(bins, bins', 0, i);
      OccupiedSame(bins, bins', i + 1, c);
    }
  }

  lemma PlacedHas(bins: seq<seq<nat>>, blocks: map<BlockId, Block>, x: BlockId)
    requires Placed(bins, blocks) && x in blocks
    ensures blocks[x].binIndex < |bins| && x in bins[blocks[x].binIndex]
    ensures Distinct(bins[blocks[x].binIndex]) && Distinct(bins[0])
  {
  }

  lemma RemoveOnly(q: seq<nat>, x: nat)
    requires x in q && Distinct(q)
    ensures Remove(q, x) == [] <==> q == [x]
  {
    RemoveDistinct(q, x);
  }

  /** Freeing the last buffer of block x unmaps it when bin 0 holds another block. */
  ghost predicate Unmaps(blocks: map<BlockId, Block>, bins: seq<seq<nat>>, x: BlockId)
    requires x in blocks && bins != []
  {
    blocks[x].used == 1 && bins[0] != [] && bins[0] != [x]
  }

  /** ... and then unlinks the sentinel of the active list when x was alone in the bin
      of full blocks, which takes blocks of a single buffer. */
  ghost predicate Unlinks(blocks: map<BlockId, Block>, bins: seq<seq<nat>>, x: BlockId)
    requires x in blocks && bins != []
  {
    Unmaps(blocks, bins, x) && blocks[x].binIndex == |bins| - 1 && bins[|bins| - 1] == [x]
  }

  function Rebin(b: Block, c: nat, n: nat): Block
    requires n > 0
  {
    b.(binIndex := BinOf(b.used, c, n))
  }

  lemma Ends(q: seq<nat>, x: nat)
    requires Distinct(q)
    ensures q != [] ==> (q[0] != x || q[|q| - 1] != x <==> q != [x])
  {
    if |q| > 1 {
      assert q[|q| - 1] == q[1..][|q| - 2];
      assert q[|q| - 1] in q[1..];
    }
  }

  /** What is in use after a slot of block x is given back, or x is unmapped. */
  lemma FreedLive(blocks: map<BlockId, Block>, x: BlockId, s: nat, c: nat, n: nat)
    requires 1 <= c <= n && x in blocks && BlockOk(blocks[x], c, n) && s in LiveSlots(blocks[x])
    requires blocks[x].used > 0
    ensures forall b :: Live(blocks[x := Rebin(GiveSlot(blocks[x], s), c, n)], b) <==>
      Live(blocks, b) && b != Buffer(x, s)
    ensures blocks[x].used == 1 ==>
      forall b :: Live(blocks - {x}, b) <==> Live(blocks, b) && b != Buffer(x, s)
  {
    hide BinOf;
    UptoHas(blocks[x].inited, s);
    var t := Rebin(GiveSlot(blocks[x], s), c, n);
    assert forall y :: y in t.free <==> y == s || y in blocks[x].free;
    assert t.inited == blocks[x].inited;
    forall b ensures Live(blocks[x := t], b) <==> Live(blocks, b) && b != Buffer(x, s) {
      assert b.block == x ==> (b == Buffer(x, s) <==> b.slot == s);
    }
    if blocks[x].used == 1 {
      forall b: Buffer | b.block == x && Live(blocks, b) ensures b.slot == s {
        UptoHas(blocks[x].inited, b.slot);
        OnlyLive(blocks[x], c, n, s, b.slot);
      }
    }
  }

  class Lba {
    const bufSize: nat             // including the per-buffer header
    const blockBufs: nat
    const binCount: nat
    var blocks: map<BlockId, Block>
    var bins: seq<seq<BlockId>>    // bin binCount holds the full blocks
    var active: seq<nat>           // occupied bins below binCount, by used count
    var sentinelLinked: bool       // bin binCount still heads the active list
    var nextBlock: BlockId         // where the next mapping will be

    ghost predicate Sound()
      reads this
    {
      && 1 <= binCount <= blockBufs && |bins| == binCount + 1
      && BlocksOk(blocks, binCount, blockBufs)
      && Placed(bins, blocks)
      && active == Occupied(bins, 0, binCount)
      && OneSpare(blocks)
      && forall x :: x in blocks ==> x < nextBlock
    }

    ghost predicate Valid()
      reads this
    {
      Sound() && sentinelLinked
    }

    constructor (bufSize: nat, blockBufs: nat, binCount: nat)
      requires 1 <= binCount <= blockBufs
      ensures Valid() && blocks == map[]
      ensures this.bufSize == bufSize && this.blockBufs == blockBufs && this.binCount == binCount
    {
      this.bufSize, this.blockBufs, this.binCount := bufSize, blockBufs, binCount;
      blocks, bins, active, sentinelLinked, nextBlock := map[], seq(binCount + 1, _ => []), [], true, 0;
      new;
      assert active == Occupied(bins, 0, binCount) by {
        if active != Occupied(bins, 0, binCount) {
          OccupiedHas(bins, 0, binCount, Occupied(bins, 0, binCount)[0]);
        }
      }
    }

    /** Maps a block whose first buffer is in use. */
    method BlockAlloc() returns (buf: Buffer)
      requires Valid() && active == []
      modifies this
      ensures Valid() && buf == Buffer(old(nextBlock), 0)
      ensures blocks == old(blocks)[buf.block := Block(BinOf(1, binCount, blockBufs), [], 1, 1)]
    {
      hide Placed, Occupied, OneSpare, BinOf;
      var x, i := nextBlock, BinOf(1, binCount, blockBufs);
      var b := Block(i, [], 1, 1);
      BinFull(1, binCount, blockBufs);
      PlacedAdd(bins, blocks, x, b);
      SpareUpdate(blocks, x, b);
      ghost var bins0 := bins;
      nextBlock := nextBlock + 1;
      blocks := blocks[x := b];
      bins := bins[i := bins[i] + [x]];
      if i != binCount && i !in active {
        active := [i] + active;
      }
      FirstOccupied(bins0, bins, i, binCount);
      buf := Buffer(x, 0);
    }

    /** Takes a buffer of the given block, and moves the block to the bin it now
        belongs to. */
    method BlockAllocBuf(x: BlockId) returns (buf: Buffer)
      requires Valid() && active != [] && x in blocks && blocks[x].binIndex == active[|active| - 1]
      modifies this
      ensures Valid() && buf.block == x && x in blocks
      ensures buf.slot == TakeSlot(old(blocks[x])).0
      ensures blocks == old(blocks)[x := TakeSlot(old(blocks[x])).1.(binIndex := blocks[x].binIndex)]
    {
      hide Placed, Occupied, OneSpare, BinOf, Distinct, Remove, LiveSlots;
      var b, i := blocks[x], blocks[x].binIndex;
      HighestBin(bins, i, binCount);
      TakeSlotOk(b, binCount, blockBufs);
      if b.free == [] && b.inited >= blockBufs {
        assert false;              // no free buffers in active block
      }
      var (s, b') := TakeSlot(b);
      buf := Buffer(x, s);
      var j := BinOf(b'.used, binCount, blockBufs);
      SpareUpdate(blocks, x, b'.(binIndex := j));
      if j == i {
        PlacedSame(bins, blocks, x, b');
        blocks := blocks[x := b'];
        return;
      }
      PlacedMove(bins, blocks, x, b'.(binIndex := j));
      ghost var bins0 := bins;
      blocks := blocks[x := b'.(binIndex := j)];
      bins := bins[i := Remove(bins[i], x)];
      bins := bins[j := bins[j] + [x]];
      RelinkUpOk(bins0, bins, i, binCount);
      active := RelinkUp(active, bins, i, binCount);
    }

    method Alloc() returns (buf: Buffer)
      requires Valid()
      modifies this
      ensures Valid()
      // the buffer was not in use, and nothing else changed hands
      ensures !Live(old(blocks), buf)
      ensures forall b :: Live(blocks, b) <==> Live(old(blocks), b) || b == buf
      ensures blocks.Keys == old(blocks).Keys + {buf.block}
      ensures forall x :: x in old(blocks) && x != buf.block ==> blocks[x] == old(blocks)[x]
      ensures blocks[buf.block].used == 1 + if buf.block in old(blocks) then old(blocks)[buf.block].used else 0
      // memory is mapped only when every block is full
      ensures buf.block !in old(blocks) <==> forall x :: x in old(blocks) ==> old(blocks)[x].used == blockBufs
      // a block of the highest bin that is not full is preferred
      ensures forall x :: buf.block in old(blocks) && x in old(blocks) && old(blocks)[x].used < blockBufs ==>
        old(blocks)[x].binIndex <= old(blocks)[buf.block].binIndex < binCount
    {
      hide Occupied, OneSpare, BinOf, Distinct, Remove, Live;
      ghost var was := blocks;
      if active == [] {
        AllFull();
        buf := BlockAlloc();
        LiveWithBlock(was, buf.block, blocks[buf.block]);
        return;
      }
      var bin := active[|active| - 1];
      HighestBin(bins, bin, binCount);
      if bins[bin] == [] {
        assert false;              // no blocks in active bin
      }
      var x := bins[bin][|bins[bin]| - 1];
      assert x in bins[bin];
      NotFull(x);
      OthersLower(bin);
      buf := BlockAllocBuf(x);
      LiveWithSlot(was, x, blocks[x].binIndex, binCount, blockBufs);
    }

    /** Unmaps a block none of whose buffers is in use. */
    method BlockFree(x: BlockId)
      requires Sound() && x in blocks
      modifies this
      ensures Sound() && blocks == old(blocks) - {x}
      ensures sentinelLinked == (old(sentinelLinked) &&
        !(old(blocks[x].binIndex) == binCount && old(bins[binCount]) == [x]))
    {
      hide Placed, Occupied, OneSpare, BinOf, Distinct;
      var i := blocks[x].binIndex;
      BinFull(blocks[x].used, binCount, blockBufs);
      PlacedRemove(bins, blocks, x);
      PlacedHas(bins, blocks, x);
      SpareUpdate(blocks, x, blocks[x].(used := 1));
      RemoveOnly(bins[i], x);
      ghost var bins0 := bins;
      bins := bins[i := Remove(bins[i], x)];
      blocks := blocks - {x};
      if i < binCount {
        RelinkGoneOk(bins0, bins, i, binCount);
      } else {
        OccupiedSame(bins0, bins, 0, binCount);
      }
      if bins[i] == [] {
        if i == binCount {
          sentinelLinked := false;
        } else {
          active := Remove(active, i);
        }
      }
    }

    method BlockFreeBuf(x: BlockId, s: nat)
      requires Valid() && Live(blocks, Buffer(x, s)) && blocks[x].used > 0
      modifies this
      ensures Sound() && sentinelLinked == !Unlinks(old(blocks), old(bins), x)
      ensures Unmaps(old(blocks), old(bins), x) ==> blocks == old(blocks) - {x}
      ensures !Unmaps(old(blocks), old(bins), x) ==>
        blocks == old(blocks[x := Rebin(GiveSlot(blocks[x], s), binCount, blockBufs)])
    {
      hide Placed, Occupied, OneSpare, BinOf, Distinct, Remove, LiveSlots;
      var b, i := blocks[x], blocks[x].binIndex;
      LiveSlot(x, s);
      GiveSlotOk(b, binCount, blockBufs, s);
      PlacedHas(bins, blocks, x);
      Ends(bins[0], x);
      // free the block only if bin 0 holds some other block
      if b.used == 1 && bins[0] != [] && (bins[0][0] != x || bins[0][|bins[0]| - 1] != x) {
        BlockFree(x);
        return;
      }
      var b' := GiveSlot(b, s);
      var j := BinOf(b'.used, binCount, blockBufs);
      NoOtherSpare(x);
      SpareUpdate(blocks, x, b'.(binIndex := j));
      if j == i {
        PlacedSame(bins, blocks, x, b');
        blocks := blocks[x := b'];
        return;
      }
      PlacedMove(bins, blocks, x, b'.(binIndex := j));
      ghost var bins0 := bins;
      blocks := blocks[x := b'.(binIndex := j)];
      bins := bins[i := Remove(bins[i], x)];
      bins := bins[j := bins[j] + [x]];
      RelinkDownOk(bins0, bins, j, binCount);
      active := RelinkDown(active, bins, j, binCount);
    }

    lemma LiveSlot(x: BlockId, s: nat)
      requires Valid() && Live(blocks, Buffer(x, s))
      ensures BlockOk(blocks[x], binCount, blockBufs) && s in LiveSlots(blocks[x])
    {
      UptoHas(blocks[x].inited, s);
    }

    /** A block that becomes free while bin 0 holds no other one is the only spare. */
    lemma NoOtherSpare(x: BlockId)
      requires Valid() && x in blocks
      ensures blocks[x].used == 1 && !Unmaps(blocks, bins, x) ==>
        forall y :: y in blocks && y != x ==> blocks[y].used != 0
    {
      if blocks[x].used == 1 && !Unmaps(blocks, bins, x) {
        forall y | y in blocks && y != x ensures blocks[y].used != 0 {
          BinFull(0, binCount, blockBufs);
          PlacedHas(bins, blocks, y);
        }
      }
    }

    method Free(buf: Buffer)
      requires Valid() && Live(blocks, buf)
      modifies this
      ensures Sound()
      // the sentinel is lost exactly when x, alone in the bin of full blocks, is unmapped
      ensures sentinelLinked <==> !Unlinks(old(blocks), old(bins), buf.block)
      ensures blockBufs >= 2 ==> Valid()
      // exactly this buffer goes out of use
      ensures forall b :: Live(blocks, b) <==> Live(old(blocks), b) && b != buf
      // its block is unmapped when that was its last buffer and bin 0 holds another block
      ensures blocks.Keys == old(blocks).Keys - if Unmaps(old(blocks), old(bins), buf.block) then {buf.block} else {}
      ensures forall x :: x in blocks && x != buf.block ==> blocks[x] == old(blocks)[x]
      ensures buf.block in blocks ==> blocks[buf.block].used == old(blocks)[buf.block].used - 1
    {
      hide Placed, Occupied, OneSpare, BinOf, Distinct, Remove;
      var x, s := buf.block, buf.slot;
      ghost var b := blocks[x];
      LiveSlot(x, s);
      GiveSlotOk(b, binCount, blockBufs, s);
      ManyBufs(x);
      FreedLive(blocks, x, s, binCount, blockBufs);
      BlockFreeBuf(x, s);
    }

    lemma ManyBufs(x: BlockId)
      requires Valid() && x in blocks
      ensures blockBufs >= 2 ==> !Unlinks(blocks, bins, x)
    {
      BinFull(blocks[x].used, binCount, blockBufs);
    }

    lemma AllFull()
      requires Valid() && active == []
      ensures forall x :: x in blocks ==> blocks[x].used == blockBufs
    {
      forall x | x in blocks ensures blocks[x].used == blockBufs {
        BinFull(blocks[x].used, binCount, blockBufs);
        OccupiedHas(bins, 0, binCount, blocks[x].binIndex);
      }
    }

    lemma NotFull(x: BlockId)
      requires Valid() && x in blocks && blocks[x].binIndex < binCount
      ensures blocks[x].used < blockBufs
    {
      BinFull(blocks[x].used, binCount, blockBufs);
    }

    lemma OthersLower(bin: nat)
      requires Valid() && bin < binCount && forall j :: bin < j < binCount ==> bins[j] == []
      ensures forall x :: x in blocks && blocks[x].used < blockBufs ==> blocks[x].binIndex <= bin
    {
      forall x | x in blocks && blocks[x].used < blockBufs ensures blocks[x].binIndex <= bin {
        BinFull(blocks[x].used, binCount, blockBufs);
        assert x in bins[blocks[x].binIndex];
      }
    }
  }

  /** Sizing: how many buffers fit in a block, and in how many bins blocks are grouped.
      None when the buffer is too small for a free-list link or too large for a block. */
  method Create(bufSize: nat, bins: nat) returns (lba: Lba?)
    requires bins >= 1
    ensures lba != null <==> bufSize >= 8 && BLOCK_HDR + (bufSize + BUF_HDR) <= BLOCK_SIZE
    ensures lba != null ==> fresh(lba) && lba.Valid() && lba.blocks == map[]
    ensures lba != null ==> lba.bufSize == bufSize + BUF_HDR && lba.blockBufs == (BLOCK_SIZE - BLOCK_HDR) / lba.bufSize
    ensures lba != null ==> lba.binCount == if bins > lba.blockBufs then lba.blockBufs else bins
  {
    if bufSize < 8 {
      return null;
    }
    var size := bufSize + BUF_HDR;
    var blockBufs := (BLOCK_SIZE - BLOCK_HDR) / size;
    DivBounds(BLOCK_SIZE - BLOCK_HDR, size);
    if blockBufs <= 0 {
      return null;
    }
    NoDivide(BLOCK_SIZE - BLOCK_HDR, size);
    lba := new Lba(size, blockBufs, if bins > blockBufs then blockBufs else bins);
  }

  lemma NoDivide(x: nat, n: nat)
    requires n > 0
    ensures x / n > 0 <==> n <= x
  {
    DivBounds(x, n);
    if x < n {
      DivUnique(x, n, 0);
    }
  }

  /** Where the buffer of a slot starts inside its block. */
  function SlotOffset(slot: nat, size: nat): nat {
    BLOCK_HDR + size * slot + BUF_HDR
  }

  /** Buffers of one block do not overlap, and lie inside it. */
  lemma SlotsDisjoint(size: nat, n: nat, s: nat, t: nat)
    requires size > BUF_HDR && n == (BLOCK_SIZE - BLOCK_HDR) / size && s < n && t < n
    ensures BLOCK_HDR <= SlotOffset(s, size) && SlotOffset(s, size) + (size - BUF_HDR) <= BLOCK_SIZE
    ensures s < t ==> SlotOffset(s, size) + (size - BUF_HDR) <= SlotOffset(t, size) - BUF_HDR
  {
    DivBounds(BLOCK_SIZE - BLOCK_HDR, size);
    MulStep(size, s, n);
    if s < t {
      MulStep(size, s, t);
    }
  }

  lemma RestHas(q: seq<nat>)
    ensures |q| > 1 ==> q[1] in q[1..]
  {
    if |q| > 1 {
      assert q[1..][0] == q[1];
    }
  }

  lemma EmptyOrHas(q: seq<nat>)
    ensures q == [] || q[0] in q
  {
  }

  lemma OnlyOne(q: seq<nat>, x: nat)
    requires Distinct(q) && x in q && forall y :: y in q ==> y == x
    ensures q == [x]
  {
    assert forall i :: 0 <= i < |q| ==> q[i] in q;
    RestHas(q);
  }

  /** With one buffer per block, the full blocks are in bin 1 and the others in bin 0. */
  lemma TwoBins(lba: Lba, x: BlockId)
    requires lba.Sound() && lba.binCount == lba.blockBufs == 1 && x in lba.blocks
    ensures lba.blocks[x].used <= 1 && lba.blocks[x].binIndex == lba.blocks[x].used
    ensures x in lba.bins[lba.blocks[x].used]
  {
    BinFull(lba.blocks[x].used, 1, 1);
    BinFull(1, 1, 1);
  }

  lemma TwoBlocks(lba: Lba, p: BlockId, q: BlockId)
    requires lba.Sound() && lba.binCount == lba.blockBufs == 1 && p != q && lba.blocks.Keys == {p, q}
    requires lba.blocks[q].used == 1
    ensures if lba.blocks[p].used == 1 then lba.bins[0] == [] else lba.bins[0] == [p] && lba.bins[1] == [q]
  {
    TwoBins(lba, p);
    TwoBins(lba, q);
    forall y | y in lba.bins[0] ensures y == p && lba.blocks[p].used == 0 {
      assert y in lba.blocks.Keys;
    }
    forall y | y in lba.bins[1] ensures (y == p || y == q) && lba.blocks[y].used == 1 {
      assert y in lba.blocks.Keys;
    }
    EmptyOrHas(lba.bins[0]);
    if lba.blocks[p].used != 1 {
      OnlyOne(lba.bins[0], p);
      OnlyOne(lba.bins[1], q);
    }
  }

  /** With one buffer per block the active list is lost: two buffers are taken and both
      given back, and the second block is unmapped from the bin of full blocks. */
  method OneBufferPerBlock(size: nat) returns (lba: Lba)
    ensures !lba.sentinelLinked
  {
    hide Occupied, OneSpare, BinOf, Distinct, Live, Placed, BlocksOk;
    lba := new Lba(size, 1, 1);
    var a := lba.Alloc();
    var b := lba.Alloc();
    assert lba.blocks.Keys == {a.block, b.block} && a.block != b.block;
    TwoBlocks(lba, a.block, b.block);
    lba.Free(a);
    assert lba.blocks.Keys == {a.block, b.block};
    TwoBlocks(lba, a.block, b.block);
    TwoBins(lba, b.block);
    lba.Free(b);
  }
}
