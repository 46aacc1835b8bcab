/** The bounded memory reader and the KLPF reader on top of it. */
module PersistReader {
  import opened Sequences
  import opened Bytes
  import opened PersistFormat
  import opened PersistBlocks
  import opened Wrappers

  class MemRStream {
    const data: seq<byte>
    var pos: nat
    const end: nat

    ghost predicate Valid()
      reads this
    {
      pos <= end <= |data|
    }

    /** The bytes still to be read. */
    ghost function Left(): seq<byte>
      requires Valid()
      reads this
    {
      data[pos..end]
    }

    constructor (data: seq<byte>, pos: nat, end: nat)
      requires pos <= end <= |data|
      ensures Valid() && this.data == data && this.pos == pos && this.end == end
    {
      this.data, this.pos, this.end := data, pos, end;
    }

    /** A pointer to the next `size` bytes, or None when fewer are left. */
    method GetPtr(size: nat) returns (p: Option<nat>)
      requires Valid()
      modifies this`pos
      ensures Valid() && (p.Some? <==> size <= |old(Left())|)
      ensures p == None ==> Left() == old(Left())
      ensures p.Some? ==> p.value == old(pos) && Left() == old(Left())[size..] && pos == old(pos) + size
    {
      if size > end - pos {
        return None;
      }
      p := Some(pos);
      pos := pos + size;
    }

    method Read(size: nat) returns (bytes: Option<seq<byte>>)
      requires Valid()
      modifies this`pos
      ensures Valid() && (bytes.Some? <==> size <= |old(Left())|)
      ensures bytes == None ==> Left() == old(Left())
      ensures bytes.Some? ==> bytes.value == old(Left())[..size] && Left() == old(Left())[size..]
      ensures bytes.Some? ==> pos == old(pos) + size
    {
      if size > end - pos {
        return None;
      }
      bytes := Some(data[pos..pos + size]);
      pos := pos + size;
    }

    /** A reader over the next `size` bytes. */
    method GetStream(size: nat) returns (sub: MemRStream?)
      requires Valid()
      modifies this`pos
      ensures Valid() && (sub != null <==> size <= |old(Left())|)
      ensures sub == null ==> Left() == old(Left())
      ensures sub != null ==> fresh(sub) && sub.Valid() && sub.data == data && sub.pos == old(pos)
      ensures sub != null ==> sub.Left() == old(Left())[..size] && Left() == old(Left())[size..]
    {
      var p := GetPtr(size);
      if p == None {
        return null;
      }
      sub := new MemRStream(data, p.value, pos);
    }

    /** Splits the next block off: a pointer to its header and a reader over the rest. */
    method ReadBlock() returns (header: Option<nat>, block: MemRStream?)
      requires Valid()
      modifies this`pos
      ensures Valid() && (header.Some? <==> block != null)
      ensures header == None <==> TakeBlock(old(Left())) == None
      ensures header.Some? ==> (
        && fresh(block) && block.Valid() && block.data == data
        && header.value == old(pos) && block.pos == header.value + BLOCK_HDR
        && TakeBlock(old(Left())) == Some((data[header.value..block.end], Left())))
    {
      var s := data[pos..end];
      header := GetPtr(BLOCK_HDR);
      if header == None {
        return None, null;
      }
      var size := UnLE(data[header.value + 4..header.value + 8]);
      SubSlice(data, header.value, end, 4, 8);
      if size < BLOCK_HDR {
        return None, null;
      }
      block := GetStream(size - BLOCK_HDR);
      if block == null {
        return None, null;
      }
      assert data[header.value..block.end] == s[..size];
      assert Left() == s[size..];
    }

    /** Skips to the end of the header at `header`, part of which has been read. */
    method SkipBlockHeader(header: nat) returns (ok: bool)
      requires Valid() && header + BLOCK_HDR <= pos
      modifies this`pos
      ensures Valid()
      ensures var head := UnLE(data[header + 8..header + 12]) % HEADER_SIZE_LIMIT;
        && (ok <==> old(pos) <= header + head <= end)
        && (ok ==> pos == header + head)
    {
      var size := UnLE(data[header + 8..header + 12]) % HEADER_SIZE_LIMIT;
      var read := pos - header;
      if size < read {
        return false;
      } else if size > read {
        var p := GetPtr(size - read);
        if p == None {
          return false;
        }
      }
      ok := true;
    }
  }

  /** Reads blocks until the stream ends, dispatching known ids to their handlers. */
  method ConfReadBlocks(conf: Conf, ctx: nat, rs: MemRStream) returns (r: Result<seq<Seen>>)
    requires rs.Valid()
    modifies rs
    ensures r == ReadBlocks(conf, ctx, old(rs.Left()))
    decreases rs.end - rs.pos, 1
  {
    hide ReadOne, TakeBlock, UnLE;
    var seen := [];
    ghost var all := rs.Left();
    assert forall more: seq<Seen> :: [] + more == more;
    while rs.pos < rs.end
      invariant rs.Valid()
      invariant rs.pos >= old(rs.pos)
      invariant ReadBlocks(conf, ctx, all) ==
        match ReadBlocks(conf, ctx, rs.Left()) case BadData => BadData case Ok(more) => Ok(seen + more)
      decreases rs.end - rs.pos
    {
      ghost var left := rs.Left();
      var header, block := rs.ReadBlock();
      if header == None {
        return BadData;
      }
      var h := header.value;
      SubSlice(rs.data, h, block.end, 0, 4);
      Field32Bound(rs.data[h..h + 4]);
      match conf(ctx, UnLE(rs.data[h..h + 4])) {
        case None =>
        case Some(kind) =>
          var one := HandleBlock(conf, kind, h, block);
          if one.BadData? {
            return BadData;
          }
          ghost var seen0 := seen;
          seen := seen + [one.value];
          assert forall more :: seen + more == seen0 + ([one.value] + more);
      }
    }
    assert rs.Left() == [];
    r := Ok(seen);
    assert seen + [] == seen;
  }

  /** A block handler: reads its header fields, skips the others, reads the body. */
  method HandleBlock(conf: Conf, kind: Kind, header: nat, block: MemRStream) returns (r: Result<Seen>)
    requires block.Valid() && block.pos == header + BLOCK_HDR
    modifies block
    ensures r == ReadOne(conf, kind, block.data[header..block.end])
    decreases block.end - block.pos, 2
  {
    hide ReadOne, ReadBlocks, UnLE;
    ghost var b := block.data[header..block.end];
    SubSlice(block.data, header, block.end, 0, 4);
    SubSlice(block.data, header, block.end, 8, 12);
    ReadOneIs(conf, kind, b);
    var fields := block.Read(kind.fields);
    if fields == None {
      return BadData;
    }
    SubSlice(block.data, header, block.end, BLOCK_HDR, |b|);
    SubSlice(b, BLOCK_HDR, |b|, 0, kind.fields);
    var ok := block.SkipBlockHeader(header);
    if !ok {
      return BadData;
    }
    SubSlice(block.data, header, block.end, block.pos - header, |b|);
    ToEnd(b, block.pos - header);
    var id, fl := UnLE(block.data[header..header + 4]), UnLE(block.data[header + 8..header + 12]) / HEADER_SIZE_LIMIT;
    if kind.Leaf? {
      return Ok(Seen(id, fl, fields.value, SeenData(block.data[block.pos..block.end])));
    }
    var kids := ConfReadBlocks(conf, kind.ctx, block);
    match kids {
      case BadData => return BadData;
      case Ok(bs) => return Ok(Seen(id, fl, fields.value, SeenBlocks(bs)));
    }
  }

  /** Reading one block, case by case. */
  lemma ReadOneIs(conf: Conf, kind: Kind, b: seq<byte>)
    requires |b| >= BLOCK_HDR
    ensures UnLE(b[..4]) < U32 && UnLE(b[8..12]) < U32
    ensures var id, word, n := UnLE(b[..4]), UnLE(b[8..12]), BLOCK_HDR + kind.fields;
      var head := word % HEADER_SIZE_LIMIT;
      ReadOne(conf, kind, b) ==
        if n > |b| || head < n || head > |b| then BadData
        else if kind.Leaf? then Ok(Seen(id, word / HEADER_SIZE_LIMIT, b[BLOCK_HDR..n], SeenData(b[head..])))
        else match ReadBlocks(conf, kind.ctx, b[head..])
          case BadData => BadData
          case Ok(kids) => Ok(Seen(id, word / HEADER_SIZE_LIMIT, b[BLOCK_HDR..n], SeenBlocks(kids)))
  {
    hide ReadBlocks, UnLE;
    Field32Bound(b[..4]);
    Field32Bound(b[8..12]);
  }

  datatype FileStatus = Opened(body: seq<byte>) | Malformed | Declined

  /** What opening a file of the wanted type amounts to. */
  function OpenFile(buf: seq<byte>, ftype: u32): FileStatus {
    if |buf| < FILE_HDR || UnLE(buf[..4]) != FILE_MAGIC || UnLE(buf[20..24]) != ftype then Malformed
    else
      var version, head := UnLE(buf[16..20]), UnLE(buf[8..12]) % HEADER_SIZE_LIMIT;
      if version < FILE_MIN_VERSION || version > FILE_MAX_VERSION then Declined
      else if head < FILE_HDR || head > |buf| then Malformed
      else Opened(buf[head..])
  }

  method ReadFileHeader(buf: seq<byte>, ftype: u32) returns (status: FileStatus, rs: MemRStream?)
    ensures status == OpenFile(buf, ftype)
    ensures status.Opened? <==> rs != null
    ensures rs != null ==> fresh(rs) && rs.Valid() && rs.Left() == status.body
  {
    rs := null;
    if |buf| < FILE_HDR {
      return Malformed, null;
    }
    if UnLE(buf[..4]) != FILE_MAGIC {
      return Malformed, null;
    }
    if UnLE(buf[20..24]) != ftype {
      return Malformed, null;
    }
    var version := UnLE(buf[16..20]);
    if version < FILE_MIN_VERSION {
      return Declined, null;
    }
    if version > FILE_MAX_VERSION {
      return Declined, null;
    }
    var head := UnLE(buf[8..12]) % HEADER_SIZE_LIMIT;
    if head < FILE_HDR {
      return Malformed, null;
    }
    if head > |buf| {
      return Malformed, null;
    }
    rs := new MemRStream(buf, head, |buf|);
    status := Opened(buf[head..]);
  }

  /** A file header of the current version opens, and hides itself from the reader. */
  lemma OpenOwnFile(size: u32, ftype: u32, created: u64, body: seq<byte>)
    ensures OpenFile(FileHeader(size, ftype, created) + body, ftype) == Opened(body)
  {
    var word := HeaderWord(FILE_HDR, FLAG_CONTAINER);
    var s := FileHeader(size, ftype, created) + body;
    WordParts(FILE_HDR, FLAG_CONTAINER);
    HeaderSlices(size, ftype, created, body);
    Field32(FILE_MAGIC);
    Field32(ftype);
    Field32(FILE_VERSION);
    Field32(word);
    assert s[FILE_HDR..] == body;
  }

  /** A file header with any fields. */
  function AnyHeader(magic: u32, size: u32, head: nat, fl: flags, spare: u32, version: u32, ftype: u32, created: u64):
      (h: seq<byte>)
    requires head < HEADER_SIZE_LIMIT
    ensures |h| == FILE_HDR
  {
    LE(magic, 4) + LE(size, 4) + LE(head + fl * HEADER_SIZE_LIMIT, 4) + LE(spare, 4) + LE(version, 4) + LE(ftype, 4)
    + LE(created, 8)
  }

  /** What becomes of any file: too short, with another magic or of another type, it is
      malformed; else another version than 9 or 10 is declined; else its header is passed
      over, if that is neither shorter than 32 bytes nor longer than the file. */
  lemma OpenAnyFile(magic: u32, size: u32, head: nat, fl: flags, spare: u32, version: u32, ftype: u32, created: u64,
                    body: seq<byte>, wanted: u32)
    requires head < HEADER_SIZE_LIMIT
    ensures OpenFile(AnyHeader(magic, size, head, fl, spare, version, ftype, created) + body, wanted) ==
      if magic != 0x66706c6b || ftype != wanted then Malformed
      else if version != 9 && version != 10 then Declined
      else if head < 32 || head > 32 + |body| then Malformed
      else Opened(body[head - 32..])
  {
    var word := head + fl * HEADER_SIZE_LIMIT;
    FieldSlices(LE(magic, 4), LE(size, 4), LE(word, 4), LE(spare, 4), LE(version, 4), LE(ftype, 4),
      LE(created, 8), body);
    Field32(magic);
    Field32(word);
    Field32(version);
    Field32(ftype);
    WordHead(head, fl);
    var s := AnyHeader(magic, size, head, fl, spare, version, ftype, created) + body;
    hide LE, UnLE, OpenFile, AnyHeader;
    OpenByFields(s, magic, word, version, ftype, wanted);
    if 32 <= head <= 32 + |body| {
      DropTwice(s, 32, head - 32);
    }
  }

  lemma WordHead(head: nat, fl: flags)
    requires head < HEADER_SIZE_LIMIT
    ensures (head + fl * HEADER_SIZE_LIMIT) % HEADER_SIZE_LIMIT == head
  {
  }

  lemma OpenByFields(s: seq<byte>, magic: nat, word: nat, version: nat, ftype: nat, wanted: u32)
    requires |s| >= 32 && UnLE(s[..4]) == magic && UnLE(s[8..12]) == word
    requires UnLE(s[16..20]) == version && UnLE(s[20..24]) == ftype
    ensures var head := word % HEADER_SIZE_LIMIT;
      OpenFile(s, wanted) ==
      if magic != 0x66706c6b || ftype != wanted then Malformed
      else if version != 9 && version != 10 then Declined
      else if head < 32 || head > |s| then Malformed
      else Opened(s[head..])
  {
    hide UnLE;
  }

  lemma OpenShortFile(buf: seq<byte>, wanted: u32)
    requires |buf| < 32
    ensures OpenFile(buf, wanted) == Malformed
  {
  }

  lemma HeaderSlices(size: u32, ftype: u32, created: u64, body: seq<byte>)
    ensures var s := FileHeader(size, ftype, created) + body;
      && s[..4] == LE(FILE_MAGIC, 4) && s[8..12] == LE(HeaderWord(FILE_HDR, FLAG_CONTAINER), 4)
      && s[16..20] == LE(FILE_VERSION, 4) && s[20..24] == LE(ftype, 4)
  {
    hide LE, HeaderWord;
  }
}
