/** The streaming KLPF writer: a chain of windows over memory, filled in place, with
    headers reserved when a block opens and patched, through markers, when it closes. */
module PersistWriter {
  import opened Sequences
  import opened Bytes
  import opened PersistChain
  import opened PersistFormat
  import opened Wrappers

  const BUF_SIZE: nat := 2048

  /** The size field of the file header, which starts the first buffer. */
  const SIZE_FIELD: Marker := Marker(4, 1, 4)

  datatype OpenBlock = OpenBlock(marker: Marker, id: u32, headerSize: u32)

  /** The innermost block gets its header length unless it already has one. */
  function SetHeader(bs: seq<OpenBlock>, size: nat, fl: flags): (r: seq<OpenBlock>)
    ensures |r| == |bs|
  {
    if bs == [] || bs[|bs| - 1].headerSize != 0 || size < bs[|bs| - 1].marker.size then bs
    else
      var b := bs[|bs| - 1];
      bs[..|bs| - 1] + [b.(headerSize := HeaderWord(size - b.marker.size, fl))]
  }

  class WriteCtx {
    var mem: Memory
    var out: seq<Buf>
    var buf: Buf
    var linked: bool               // ctx->buf is the last link of the chain
    var size: nat
    var blocks: seq<OpenBlock>
    var hasHeader: bool

    ghost var parts: seq<seq<byte>>            // the data of each link
    ghost var marks: set<(Marker, nat)>        // reserved intervals

    ghost predicate Chained()
      reads this
    {
      && InMemory(mem, buf) && buf.temporary && buf.pos <= buf.last <= buf.end && buf.pos < buf.end
      && Disjoint(mem, out) && parts == Parts(mem, out)
      && if linked then out != [] && out[|out| - 1] == buf
         else buf.pos == buf.last && forall i :: 0 <= i < |out| ==> Apart(out[i], buf)
    }

    /** No link is empty, and the current buffer is linked as soon as it holds data. */
    ghost predicate Ready()
      reads this
    {
      Chained() && NonEmpty(parts) && (linked <==> buf.pos < buf.last)
    }

    /** Inside a write: the current buffer is the last link, and alone may be empty. */
    ghost predicate Filling()
      reads this
    {
      Chained() && linked && NonEmpty(parts[..|parts| - 1])
    }

    ghost predicate Marked()
      reads this
    {
      forall m :: m in marks ==> MarkOk(out, parts, m.0, m.1)
    }

    /** The byte string written so far. */
    ghost function Content(): seq<byte>
      reads this`parts
    {
      Flat(parts)
    }

    ghost predicate Valid()
      reads this
    {
      && Ready() && Marked()
      && size == |Content()|
      && |blocks| <= MAX_DEPTH
      && (forall i :: 0 <= i < |blocks| ==> (blocks[i].marker, BLOCK_HDR) in marks)
      && (hasHeader ==> (SIZE_FIELD, 4) in marks)
    }

    constructor ()
      ensures Valid() && marks == {}
      ensures Content() == [] && blocks == [] && !hasHeader
    {
      mem, out, buf, linked := [Zeros(BUF_SIZE)], [], Buf(0, 0, 0, BUF_SIZE, true), false;
      size, blocks, hasHeader, marks, parts := 0, [], false, {}, [];
    }

    /** A context whose output starts with a file header; its size field is `stale`
        until the context is closed. */
    constructor File(ftype: u32, created: u64, stale: u32)
      ensures Valid() && blocks == []
      ensures hasHeader <==> ftype != 0
      ensures Content() == if ftype != 0 then FileHeader(stale, ftype, created) else []
    {
      mem, out, buf, linked := [Zeros(BUF_SIZE)], [], Buf(0, 0, 0, BUF_SIZE, true), false;
      size, blocks, hasHeader, marks, parts := 0, [], false, {}, [];
      new;
      if ftype != 0 {
        WriteFileHeader(FileHeader(stale, ftype, created));
      }
    }

    method WriteFileHeader(header: seq<byte>)
      requires Valid() && out == [] && blocks == [] && |header| == FILE_HDR
      requires !linked && buf == Buf(0, 0, 0, BUF_SIZE, true)
      modifies this
      ensures Valid() && blocks == [] && hasHeader && Content() == header
    {
      hide Disjoint, Parts, Flat, Apart, InMemory, NonEmpty, MarkOk, Grows, Fills;
      NonEmptyFlat(parts);
      AppendBuf();
      Put(header);
      size := FILE_HDR;
      hasHeader := true;
      MarkHeader();
      marks := {(SIZE_FIELD, 4)};
    }

    ghost method MarkHeader()
      requires Chained() && |Content()| == FILE_HDR && |out| == 1 && out[0].pos == 0 && out[0].temporary
      ensures MarkOk(out, parts, SIZE_FIELD, 4)
    {
      assert parts == [parts[0]];
      FlatHead(parts);
      assert parts[..0] == [] && parts[1..] == [];
    }

    /** A fresh buffer becomes the current one; it is not linked until it gets data. */
    method AllocTempBuf()
      requires Chained()
      modifies this`mem, this`buf, this`linked
      ensures Chained() && !linked && buf.end - buf.last == BUF_SIZE
    {
      buf := Buf(|mem|, 0, 0, BUF_SIZE, true);
      mem := mem + [Zeros(BUF_SIZE)];
      linked := false;
    }

    /** Links the (still empty) current buffer. */
    method AppendBuf()
      requires Ready() && !linked
      modifies this`out, this`linked, this`parts
      ensures Filling() && out == old(out) + [buf] && parts == old(parts) + [[]]
      ensures Grows(old(out), old(parts), out, parts)
      ensures Content() == old(Content())
    {
      hide Disjoint, Parts, Flat, Apart, InMemory, NonEmpty, Grows;
      FlatSnoc(parts, []);
      LinkFresh(mem, out, buf);
      out := out + [buf];
      parts := parts + [[]];
      linked := true;
    }

    /** Copies data into the current buffer. */
    method Put(data: seq<byte>)
      requires Filling() && |data| <= buf.end - buf.last
      modifies this`mem, this`out, this`buf, this`parts
      ensures Filling() && buf == old(buf).(last := old(buf).last + |data|)
      ensures buf.pos < buf.last ==> Ready()
      ensures Fills(old(out), old(parts), out, parts) && |out| == old(|out|)
      ensures Content() == old(Content()) + data
    {
      hide Flat, Disjoint;
      ghost var mem0, out0, last := mem, out, parts[|parts| - 1];
      AppendToLast(parts, data);
      mem := mem[buf.region := Splice(mem[buf.region], buf.last, data)];
      buf := buf.(last := buf.last + |data|);
      out := out[|out| - 1 := buf];
      parts := parts[|out| - 1 := parts[|out| - 1] + data];
      PutKeeps(mem0, out0, data, mem, out);
      assert |last + data| == buf.last - buf.pos;
    }

    /** Fills the current buffer to its end and links a fresh one behind it. */
    method PutToEnd(data: seq<byte>)
      requires Filling() && |data| == buf.end - buf.last
      modifies this`mem, this`out, this`buf, this`parts, this`linked
      ensures Filling() && buf.end - buf.last == BUF_SIZE
      ensures Fills(old(out), old(parts), out, parts)
      ensures Content() == old(Content()) + data
    {
      hide Flat, Disjoint, Parts, Grows;
      Put(data);
      ghost var out1, ds1 := out, parts;
      AllocTempBuf();
      AppendBuf();
      GrowsTrans(old(out), old(parts), out1, ds1, out, parts);
    }

    /** The copy loop shared by writes and reservations. */
    method Fill(data: seq<byte>)
      requires Filling() && data != []
      modifies this`mem, this`out, this`buf, this`parts, this`linked
      ensures Ready() && linked
      ensures Fills(old(out), old(parts), out, parts)
      ensures Content() == old(Content()) + data
    {
      hide Disjoint, Parts, Flat, NonEmpty, Grows, InMemory, Apart;
      var p := 0;
      GrowsRefl(out, parts);
      assert TempFrom(out, |out| - 1);
      assert Fills(out, parts, out, parts);
      hide Fills, TempFrom;
      while true
        invariant 0 <= p < |data|
        invariant Filling() && Fills(old(out), old(parts), out, parts)
        invariant Content() == old(Content()) + data[..p]
        decreases |data| - p, buf.end - buf.last < BUF_SIZE
      {
        var left := buf.end - buf.last;
        ghost var out1, ds1 := out, parts;
        if |data| - p <= left {
          Put(data[p..]);
          assert data[..p] + data[p..] == data;
          FillsTrans(old(out), old(parts), out1, ds1, out, parts);
          break;
        }
        PutToEnd(data[p..p + left]);
        assert data[..p] + data[p..p + left] == data[..p + left];
        FillsTrans(old(out), old(parts), out1, ds1, out, parts);
        p := p + left;
      }
    }

    /** Links the current buffer if this is its first data. */
    method Begin()
      requires Ready()
      modifies this`out, this`linked, this`parts
      ensures Filling() && Content() == old(Content())
      ensures Grows(old(out), old(parts), out, parts)
    {
      hide Disjoint, Parts, Flat, Grows;
      if buf.last <= buf.pos {
        AppendBuf();
      } else {
        GrowsRefl(out, parts);
      }
    }

    method Write(data: seq<byte>)
      requires Valid()
      modifies this
      ensures Valid() && marks == old(marks) && blocks == old(blocks) && hasHeader == old(hasHeader)
      ensures Content() == old(Content()) + data
    {
      hide Disjoint, Parts, Grows, MarkOk, Flat, NonEmpty;
      if |data| <= 0 {
        return;
      }
      size := size + |data|;
      Begin();
      ghost var out1, ds1 := out, parts;
      Fill(data);
      GrowsTrans(old(out), old(parts), out1, ds1, out, parts);
      KeepMarks(old(out), old(parts));
    }

    /** A full buffer is replaced by a fresh one; otherwise its room is split off. */
    method FlushBuf()
      requires Valid() && buf.pos < buf.last
      modifies this`mem, this`buf, this`linked, this`out
      ensures Valid() && !linked
    {
      hide Flat, MarkOk, Disjoint, Parts;
      var b := buf;
      if b.last >= b.end {
        AllocTempBuf();
        return;
      }
      ghost var out0 := out;
      out := out[|out| - 1 := b.(end := b.last)];
      buf := Buf(b.region, b.last, b.last, b.end, true);
      linked := false;
      SplitKeeps(mem, out0, out, buf);
      GrowsRefl(out0, parts);
      KeepMarks(out0, parts);
    }

    /** Links memory of the caller without copying it; empty buffers must not be linked. */
    method Append(data: seq<byte>)
      requires Valid() && data != []
      modifies this
      ensures Valid() && marks == old(marks) && blocks == old(blocks) && hasHeader == old(hasHeader)
      ensures Content() == old(Content()) + data
    {
      hide Flat, MarkOk, Disjoint, Parts, NonEmpty, InMemory;
      if buf.last > buf.pos {
        FlushBuf();
      }
      Attach(data);
    }

    method Attach(data: seq<byte>)
      requires Valid() && !linked && data != []
      modifies this`size, this`out, this`mem, this`parts
      ensures Valid() && Content() == old(Content()) + data
    {
      hide Flat, MarkOk, Disjoint, Parts, NonEmpty, InMemory;
      size := size + |data|;
      ghost var out0, ds0 := out, parts;
      FlatSnoc(parts, data);
      NonEmptySnoc(parts, data);
      AttachKeeps(mem, out, buf, data, mem + [data], out + [Buf(|mem|, 0, |data|, |data|, false)]);
      out := out + [Buf(|mem|, 0, |data|, |data|, false)];
      mem := mem + [data];
      parts := parts + [data];
      KeepMarks(out0, ds0);
    }

    method ReserveBytes(stale: seq<byte>) returns (m: Marker)
      requires Ready() && Marked() && stale != []
      modifies this`mem, this`out, this`buf, this`parts, this`linked
      ensures Ready() && Marked()
      ensures Content() == old(Content()) + stale
      ensures m.size == old(size)
      ensures old(size) == old(|Content()|) ==> MarkOk(out, parts, m, |stale|)
    {
      hide Disjoint, Parts, Flat, MarkOk, Grows, NonEmpty;
      Begin();
      m := Marker(size, |out|, buf.last);
      ghost var out1, ds1 := out, parts;
      PartAt(mem, out, |out| - 1);
      Fill(stale);
      GrowsTrans(old(out), old(parts), out1, ds1, out, parts);
      KeepMarks(old(out), old(parts));
      NewMark(out1, ds1, out, parts, |stale|);
    }

    /** Reserves bytes; the reserved memory keeps whatever (`stale`) it held. */
    method Reserve(stale: seq<byte>) returns (m: Option<Marker>)
      requires Valid()
      modifies this
      ensures Valid() && blocks == old(blocks) && hasHeader == old(hasHeader)
      ensures Content() == old(Content()) + stale
      ensures m == None <==> stale == []
      ensures m.Some? ==> m.value.size == old(size)
      ensures marks == old(marks) + if m.Some? then {(m.value, |stale|)} else {}
    {
      hide Disjoint, Parts, Flat, MarkOk, Grows, NonEmpty;
      if |stale| <= 0 {
        return None;
      }
      var first := ReserveBytes(stale);
      m := Some(first);
      size := size + |stale|;
      marks := marks + {(m.value, |stale|)};
    }

    /** Overwrites one stretch of a link. */
    method Patch(k: nat, at: nat, data: seq<byte>)
      requires Ready() && k < |out| && out[k].temporary
      requires out[k].pos <= at && at + |data| <= out[k].last
      modifies this`mem, this`parts
      ensures Ready() && |parts| == old(|parts|)
      ensures forall i :: 0 <= i < |parts| ==> |parts[i]| == |old(parts)[i]|
      ensures |Flat(old(parts)[..k])| + (at - out[k].pos) + |data| <= |old(Content())|
      ensures Content() == Splice(old(Content()), |Flat(old(parts)[..k])| + (at - out[k].pos), data)
    {
      hide Flat, Disjoint;
      ghost var mem0 := mem;
      PartAt(mem, out, k);
      FlatSplice(parts, k, at - out[k].pos, data);
      mem := mem[out[k].region := Splice(mem[out[k].region], at, data)];
      PatchKeeps(mem0, out, k, at, data, mem);
      parts := parts[k := Splice(parts[k], at - out[k].pos, data)];
    }

    /** The link a marker points into. */
    lemma LinkAt(m: Marker, n: nat)
      requires Ready() && MarkOk(out, parts, m, n) && n > 0
      ensures 1 <= m.next <= |out| == |parts| && out[m.next - 1].temporary
      ensures out[m.next - 1].pos <= m.pos <= out[m.next - 1].last
      ensures |parts[m.next - 1]| == out[m.next - 1].last - out[m.next - 1].pos
      ensures |Flat(parts[..m.next - 1])| + (m.pos - out[m.next - 1].pos) == m.size && m.size + n <= |Content()|
    {
      hide Flat, Disjoint, Parts, NonEmpty, InMemory, Apart;
      MarkBound(out, parts, m, n);
      PartAt(mem, out, m.next - 1);
    }

    /** Overwrites the part of an interval that lies in its first link. */
    method PatchPart(k: nat, pos: nat, part: seq<byte>, ghost m: Marker, ghost n: nat)
      requires Ready() && MarkOk(out, parts, m, n) && m.next == k + 1 && m.pos == pos
      requires 0 < n && |part| <= n && k < |out| && pos + |part| <= out[k].last
      modifies this`mem, this`parts
      ensures Ready() && MarkOk(out, parts, m, n) && |parts| == |old(parts)|
      ensures forall i :: 0 <= i < |parts| ==> |parts[i]| == |old(parts)[i]|
      ensures m.size + n <= |old(Content())| && Content() == Splice(old(Content()), m.size, part)
    {
      hide Ready, Flat, MarkOk, Splice;
      ghost var ds := parts;
      LinkAt(m, n);
      Patch(k, pos, part);
      MarkKeeps(out, ds, parts, m, n);
    }

    /** The copy loop of a marker write, across the links the interval covers. */
    method PatchFrom(m: Marker, data: seq<byte>, ghost n: nat) returns (m': Marker)
      requires Ready() && MarkOk(out, parts, m, n) && 0 < |data| <= n
      modifies this`mem, this`parts
      ensures Ready() && |parts| == |old(parts)|
      ensures forall i :: 0 <= i < |parts| ==> |parts[i]| == |old(parts)[i]|
      ensures m.size + |data| <= |old(Content())|
      ensures Content() == Splice(old(Content()), m.size, data)
      ensures m'.size == m.size + |data| && MarkOk(out, parts, m', n - |data|)
    {
      hide Ready, Flat, MarkOk, Splice;
      LinkAt(m, n);
      var k: nat, pos: nat, p: nat := m.next - 1, m.pos, 0;
      ghost var all := Content();
      SpliceNone(all, m.size);
      while true
        invariant Ready() && |parts| == |old(parts)|
        invariant forall i :: 0 <= i < |parts| ==> |parts[i]| == |old(parts)[i]|
        invariant 0 <= p < |data| && m.size + |data| <= |all|
        invariant MarkOk(out, parts, Marker(m.size + p, k + 1, pos), n - p)
        invariant Content() == Splice(all, m.size, data[..p])
        decreases |out| - k
      {
        ghost var cur := Marker(m.size + p, k + 1, pos);
        LinkAt(cur, n - p);
        var left := out[k].last - pos;
        if |data| - p <= left {
          PatchPart(k, pos, data[p..], cur, n - p);
          SpliceSplit(all, m.size, data, p);
          LinkAt(cur, n - p);
          MarkWithin(out, parts, cur, n - p, |data| - p);
          m' := Marker(m.size + |data|, k + 1, pos + (|data| - p));
          break;
        }
        PatchPart(k, pos, data[p..p + left], cur, n - p);
        SpliceNext(all, m.size, data, p, left);
        LinkAt(cur, n - p);
        MarkStep(out, parts, cur, n - p, left);
        k := k + 1;
        pos := out[k].pos;
        p := p + left;
      }
    }

    /** Overwrites the start of a reserved interval; the marker moves on to the rest of it. */
    method MarkerWrite(m: Marker, data: seq<byte>, ghost n: nat) returns (m': Marker)
      requires Valid() && (m, n) in marks && 0 < |data| <= n
      modifies this`mem, this`parts, this`marks
      ensures Valid() && marks == old(marks) + {(m', n - |data|)} && m'.size == m.size + |data|
      ensures m.size + |data| <= |old(Content())|
      ensures Content() == Splice(old(Content()), m.size, data)
    {
      hide Flat, Disjoint, MarkOk, Parts, NonEmpty;
      m' := PatchFrom(m, data, n);
      forall mk | mk in marks ensures MarkOk(out, parts, mk.0, mk.1) {
        MarkKeeps(out, old(parts), parts, mk.0, mk.1);
      }
      marks := marks + {(m', n - |data|)};
    }

    /** Fixes the header length of the innermost open block, once. */
    method BlockSetHeader(fl: flags)
      requires Valid()
      modifies this`blocks
      ensures Valid() && blocks == SetHeader(old(blocks), size, fl)
    {
      hide Disjoint, Parts, Flat, NonEmpty, HeaderWord, Apart, InMemory, MarkOk;
      if |blocks| <= 0 {
        return;
      }
      var n := |blocks| - 1;
      var block := blocks[n];
      if block.headerSize != 0 {
        return;
      }
      assert (block.marker, BLOCK_HDR) in marks;
      MarkBound(out, parts, block.marker, BLOCK_HDR);
      blocks := blocks[..n] + [block.(headerSize := HeaderWord(size - block.marker.size, fl))];
    }

    /** Opens a block: fixes the parent's header and reserves room for the new one. */
    method BlockOpen(id: u32, stale: seq<byte>) returns (ok: bool)
      requires Valid() && |stale| == BLOCK_HDR
      modifies this
      ensures Valid() && hasHeader == old(hasHeader) && old(marks) <= marks
      ensures ok <==> |old(blocks)| < MAX_DEPTH
      ensures !ok ==> blocks == old(blocks) && Content() == old(Content())
      ensures ok ==> (
        && Content() == old(Content()) + stale && |blocks| == |old(blocks)| + 1
        && blocks[..|blocks| - 1] == SetHeader(old(blocks), old(size), FLAG_CONTAINER)
        && blocks[|blocks| - 1].marker.size == old(size)
        && blocks[|blocks| - 1].id == id && blocks[|blocks| - 1].headerSize == 0)
    {
      hide Disjoint, Parts, Flat, MarkOk, NonEmpty;
      if |blocks| >= MAX_DEPTH {
        return false;
      }
      BlockSetHeader(FLAG_CONTAINER);
      var m := Reserve(stale);
      blocks := blocks + [OpenBlock(m.value, id, 0)];
      ok := true;
    }

    /** Closes the innermost block by writing its header over the reserved bytes. */
    method BlockClose()
      requires Valid() && |blocks| > 0
      modifies this
      ensures Valid() && hasHeader == old(hasHeader) && old(marks) <= marks
      ensures blocks == old(blocks)[..|old(blocks)| - 1]
      ensures var b := old(blocks)[|old(blocks)| - 1];
        && b.marker.size + BLOCK_HDR <= old(size)
        && Content() == Splice(old(Content()), b.marker.size, BlockHeader(b.id, old(size) - b.marker.size,
             if b.headerSize == 0 then BLOCK_HDR else b.headerSize))
    {
      hide Disjoint, Parts, Flat, NonEmpty;
      var b := blocks[|blocks| - 1];
      assert (b.marker, BLOCK_HDR) in marks;
      assert MarkOk(out, parts, b.marker, BLOCK_HDR);
      blocks := blocks[..|blocks| - 1];
      var headerSize := if b.headerSize == 0 then BLOCK_HDR else b.headerSize;
      var _ := MarkerWrite(b.marker, BlockHeader(b.id, size - b.marker.size, headerSize), BLOCK_HDR);
    }

    /** Writes a complete block whose data is at hand. */
    method WriteBlock(id: u32, headerSize: u32, data: seq<byte>)
      requires Valid()
      modifies this
      ensures Valid() && marks == old(marks) && hasHeader == old(hasHeader)
      ensures blocks == SetHeader(old(blocks), old(size), FLAG_CONTAINER)
      ensures Content() == old(Content()) + BlockHeader(id, BLOCK_HDR + |data|, headerSize) + data
    {
      hide Disjoint, Parts, Flat, MarkOk, NonEmpty;
      BlockSetHeader(FLAG_CONTAINER);
      Write(BlockHeader(id, BLOCK_HDR + |data|, headerSize));
      Write(data);
    }

    /** Ends the output; fails while a block is open. */
    method Close() returns (ok: bool)
      requires Valid()
      modifies this`mem, this`parts, this`marks
      ensures Valid() && (ok <==> blocks == []) && old(marks) <= marks
      ensures hasHeader ==> 8 <= |old(Content())|
      ensures Content() == if ok && hasHeader then Splice(old(Content()), 4, LE(size % U32, 4)) else old(Content())
    {
      hide Disjoint, Parts, Flat, NonEmpty, Apart, InMemory;
      if hasHeader {
        assert MarkOk(out, parts, SIZE_FIELD, 4);
      }
      hide MarkOk;
      if |blocks| != 0 {
        return false;
      }
      if hasHeader {
        var _ := MarkerWrite(SIZE_FIELD, LE(size % U32, 4), 4);
      }
      ok := true;
    }

    /** Moves the whole output of another context behind this one, without copying. */
    method WriteChain(other: WriteCtx) returns (ok: bool)
      requires Valid() && other.Valid() && other != this
      modifies this, other`mem, other`parts, other`marks
      ensures Valid() && blocks == old(blocks) && hasHeader == old(hasHeader) && marks == old(marks)
      ensures ok <==> other.blocks == [] && old(other.Content()) != []
      ensures Content() == if ok then old(Content()) + other.Content() else old(Content())
      ensures ok && other.hasHeader ==> (8 <= |old(other.Content())|
        && other.Content() == Splice(old(other.Content()), 4, LE(other.size % U32, 4)))
      ensures ok && !other.hasHeader ==> other.Content() == old(other.Content())
    {
      hide Disjoint, Parts, Flat, NonEmpty, Apart, InMemory, MarkOk;
      NonEmptyFlat(other.parts);
      var closed := other.Close();
      if !closed || other.out == [] {
        return false;
      }
      if buf.last > buf.pos {
        FlushBuf();
      }
      size := size + other.size;
      Adopt(other.mem, other.out, other.parts);
      ok := true;
    }

    method Adopt(mem2: Memory, out2: seq<Buf>, ghost parts2: seq<seq<byte>>)
      requires Ready() && !linked && Marked()
      requires Disjoint(mem2, out2) && parts2 == Parts(mem2, out2) && NonEmpty(parts2)
      modifies this`mem, this`out, this`parts
      ensures Ready() && !linked && Marked()
      ensures Content() == old(Content()) + Flat(parts2)
    {
      hide Disjoint, Parts, Flat, Apart, InMemory, MarkOk, Rebase;
      ghost var out0, ds0 := out, parts;
      AdoptKeeps(mem, out, buf, mem2, out2);
      FlatAppend(parts, parts2);
      out := out + Rebase(out2, |mem|);
      mem := mem + mem2;
      parts := parts + parts2;
      KeepMarks(out0, ds0);
    }

    /** The bytes of the chain, link by link. */
    method Output() returns (s: seq<byte>)
      requires Valid()
      ensures s == Content()
    {
      hide Flat, NonEmpty, MarkOk, Apart;
      FlatNone<byte>();
      s := [];
      for i := 0 to |out|
        invariant s == Flat(parts[..i])
      {
        FlatPrefixSnoc(parts, i);
        s := s + mem[out[i].region][out[i].pos..out[i].last];
      }
      assert parts[..|out|] == parts;
    }

    /** Writes the parts of a list one after the other. */
    method WriteListData(list: seq<seq<byte>>)
      requires Valid()
      modifies this
      ensures Valid() && marks == old(marks) && blocks == old(blocks) && hasHeader == old(hasHeader)
      ensures Content() == old(Content()) + Flat(list)
    {
      hide Disjoint, Parts, Flat, NonEmpty, Apart, InMemory, MarkOk, Chained;
      FlatNone<byte>();
      for i := 0 to |list|
        invariant Valid() && marks == old(marks) && blocks == old(blocks) && hasHeader == old(hasHeader)
        invariant Content() == old(Content()) + Flat(list[..i])
      {
        FlatPrefixSnoc(list, i);
        Write(list[i]);
      }
      assert list[..|list|] == list;
    }

    /** Links `n` bytes of a chain of the caller's buffers, from an offset into the first. */
    method AppendBufChainN(chain: seq<seq<byte>>, offset: nat, n: nat)
      requires Valid()
      requires chain != [] && offset < |chain[0]| && NonEmpty(chain) && 0 < n <= |Flat(chain)| - offset
      modifies this
      ensures Valid() && marks == old(marks) && blocks == old(blocks) && hasHeader == old(hasHeader)
      ensures offset + n <= |Flat(chain)|
      ensures Content() == old(Content()) + Flat(chain)[offset..offset + n]
    {
      hide Disjoint, Parts, Flat, NonEmpty, Apart, InMemory, MarkOk, Chained;
      var i, data, left := 0, chain[0][offset..], n;
      FlatHead(chain);
      assert chain[0..] == chain;
      ghost var all := Flat(chain)[offset..];
      while true
        invariant Valid() && marks == old(marks) && blocks == old(blocks) && hasHeader == old(hasHeader)
        invariant 0 <= i < |chain| && 0 < left <= n && data != []
        invariant all[n - left..] == data + Flat(chain[i + 1..])
        invariant Content() == old(Content()) + all[..n - left]
        decreases |chain| - i
      {
        if left <= |data| {
          TakeMore(all, n - left, left);
          Associate(old(Content()), all[..n - left], data[..left]);
          Append(data[..left]);
          return;
        }
        TakeMore(all, n - left, |data|);
        Halves(data, Flat(chain[i + 1..]));
        Associate(old(Content()), all[..n - left], data);
        Append(data);
        left := left - |data|;
        i := i + 1;
        FlatNone<byte>();
        FlatHead(chain[i..]);
        DropTwice(chain, i, 1);
        NonEmptyAt(chain, i);
        data := chain[i];
      }
    }

    ghost method KeepMarks(out0: seq<Buf>, ds0: seq<seq<byte>>)
      requires Grows(out0, ds0, out, parts)
      requires forall m :: m in marks ==> MarkOk(out0, ds0, m.0, m.1)
      ensures Marked()
    {
      forall m | m in marks ensures MarkOk(out, parts, m.0, m.1) {
        MarkGrows(out0, ds0, out, parts, m.0, m.1);
      }
    }
  }

  lemma LastOpen(ctx: WriteCtx)
    requires ctx.Valid() && ctx.blocks != []
    ensures ctx.blocks[|ctx.blocks| - 1].marker.size + BLOCK_HDR <= ctx.size
  {
    hide Disjoint, Parts, Flat, NonEmpty, MarkOk, Apart, InMemory;
    var m := ctx.blocks[|ctx.blocks| - 1].marker;
    assert (m, BLOCK_HDR) in ctx.marks;
    MarkBound(ctx.out, ctx.parts, m, BLOCK_HDR);
  }
}
