/** Writing block trees: the client side of the writer, and the round trip. */
module PersistSave {
  import opened Sequences
  import opened Bytes
  import opened PersistFormat
  import opened PersistBlocks
  import opened PersistWriter
  import opened PersistReader
  import opened Wrappers

  /** Bytes given to the writer: copied, or linked without copying. */
  datatype Piece = Copied(bytes: seq<byte>) | Linked(bytes: seq<byte>)

  function PieceBytes(ps: seq<Piece>): seq<byte> {
    if ps == [] then [] else PieceBytes(ps[..|ps| - 1]) + ps[|ps| - 1].bytes
  }

  /** How one block is written: header pieces, an optional call that fixes the header
      length and its flags, then data pieces or child blocks. */
  datatype Plan = Plan(id: u32, header: seq<Piece>, mark: Option<flags>, body: PlanBody)
  datatype PlanBody = Pieces(pieces: seq<Piece>) | Plans(plans: seq<Plan>)

  /** Empty buffers must not be linked. */
  ghost predicate NoEmptyLinks(p: Plan) {
    && (forall q :: q in p.header && q.Linked? ==> q.bytes != [])
    && match p.body
       case Pieces(ps) => forall q :: q in ps && q.Linked? ==> q.bytes != []
       case Plans(ps) => forall q :: q in ps ==> NoEmptyLinks(q)
  }

  /** The block a plan writes. Without an explicit mark, the first child fixes the
      header length, and a block with no child has no header beyond the common one. */
  ghost function Meaning(p: Plan): Block {
    var head := PieceBytes(p.header);
    match p.body
    case Pieces(ps) =>
      if p.mark.Some? then Block(p.id, p.mark.value, head, Data(PieceBytes(ps)))
      else Block(p.id, 0, [], Data(head + PieceBytes(ps)))
    case Plans(ps) =>
      if p.mark.Some? then Block(p.id, p.mark.value, head, Children(Meanings(ps)))
      else if ps == [] then Block(p.id, 0, [], Data(head))
      else Block(p.id, FLAG_CONTAINER, head, Children(Meanings(ps)))
  }

  ghost function Meanings(ps: seq<Plan>): (bs: seq<Block>)
    ensures |bs| == |ps|
  {
    if ps == [] then [] else Meanings(ps[..|ps| - 1]) + [Meaning(ps[|ps| - 1])]
  }

  ghost function Depth(p: Plan): (d: nat)
    ensures d >= 1
  {
    match p.body
    case Pieces(_) => 1
    case Plans(ps) => 1 + Depths(ps)
  }

  ghost function Depths(ps: seq<Plan>): nat {
    if ps == [] then 0
    else
      var a, b := Depths(ps[..|ps| - 1]), Depth(ps[|ps| - 1]);
      if a > b then a else b
  }

  lemma {:induction false} EncodeAllSnoc(bs: seq<Block>, b: Block)
    ensures EncodeAll(bs + [b]) == EncodeAll(bs) + Encode(b)
  {
    hide Encode;
    if bs == [] {
      assert EncodeAll([b]) == Encode(b) + EncodeAll([]);
    } else {
      EncodeAllSnoc(bs[1..], b);
      assert (bs + [b])[1..] == bs[1..] + [b];
    }
  }

  lemma {:induction false} FitAt(bs: seq<Block>, i: nat)
    requires FitAll(bs) && i < |bs|
    ensures Fits(bs[i])
  {
    if i > 0 {
      FitAt(bs[1..], i - 1);
    }
  }

  /** Setting a container's header length a second time changes nothing. */
  lemma SetHeaderOnce(bs: seq<OpenBlock>, s1: nat, s2: nat)
    requires bs != [] ==> bs[|bs| - 1].marker.size <= s1
    ensures SetHeader(SetHeader(bs, s1, FLAG_CONTAINER), s2, FLAG_CONTAINER) == SetHeader(bs, s1, FLAG_CONTAINER)
  {
    if bs != [] {
      ContainerWordNonzero(s1 - bs[|bs| - 1].marker.size);
    }
  }

  lemma ContainerWordNonzero(n: nat)
    ensures HeaderWord(n, FLAG_CONTAINER) != 0
  {
    var top := n / HEADER_SIZE_LIMIT % 16;
    if top != 0 {
      assert ((top as bv4) | (FLAG_CONTAINER as bv4)) != 0;
    }
  }

  lemma FitsChildren(b: Block)
    requires Fits(b)
    ensures b.body.Children? ==> FitAll(b.body.kids)
  {
  }

  /** Fixing the header length of a block just below its size so far. */
  lemma SetHeaderLast(bs: seq<OpenBlock>, b: OpenBlock, size: nat, fl: flags)
    requires b.marker.size <= size
    ensures SetHeader(bs + [b], size, fl) == bs +
      [if b.headerSize != 0 then b else b.(headerSize := HeaderWord(size - b.marker.size, fl))]
  {
    hide HeaderWord;
    assert (bs + [b])[..|bs|] == bs;
  }

  lemma {:induction false} MeaningsAt(ps: seq<Plan>, i: nat)
    requires i < |ps|
    ensures Meanings(ps)[i] == Meaning(ps[i]) && Meanings(ps[..i + 1]) == Meanings(ps[..i]) + [Meaning(ps[i])]
    ensures Depth(ps[i]) <= Depths(ps)
    ensures Depths(ps[..i + 1]) == if Depths(ps[..i]) > Depth(ps[i]) then Depths(ps[..i]) else Depth(ps[i])
    decreases |ps|
  {
    var n := |ps| - 1;
    assert ps[..i + 1][..i] == ps[..i];
    if i < n {
      MeaningsAt(ps[..n], i);
      assert ps[..n][i] == ps[i];
    } else {
      assert ps[..i + 1] == ps;
    }
  }

  lemma NoPlans(ps: seq<Plan>)
    requires ps == []
    ensures Depths(ps) == 0 && EncodeAll(Meanings(ps)) == []
  {
  }

  lemma NextPlan(ps: seq<Plan>, i: nat)
    requires i < |ps| && FitAll(Meanings(ps))
    ensures Fits(Meaning(ps[i]))
    ensures EncodeAll(Meanings(ps[..i + 1])) == EncodeAll(Meanings(ps[..i])) + Encode(Meaning(ps[i]))
    ensures Depth(ps[i]) <= Depths(ps)
    ensures Depths(ps[..i + 1]) == if Depths(ps[..i]) > Depth(ps[i]) then Depths(ps[..i]) else Depth(ps[i])
  {
    hide Meanings, Depths, EncodeAll, Fits, Depth, Meaning, Encode, FitAll;
    MeaningsAt(ps, i);
    FitAt(Meanings(ps), i);
    EncodeAllSnoc(Meanings(ps[..i]), Meaning(ps[i]));
  }

  /** The header word an open block has when it is about to close; 0 if never fixed. */
  ghost function FixedWord(p: Plan): u32 {
    var head := BLOCK_HDR + |PieceBytes(p.header)|;
    if p.mark.Some? then HeaderWord(head, p.mark.value)
    else if p.body.Plans? && p.body.plans != [] then HeaderWord(head, FLAG_CONTAINER)
    else 0
  }

  lemma ClosingWord(p: Plan)
    requires Fits(Meaning(p))
    ensures (if FixedWord(p) == 0 then BLOCK_HDR else FixedWord(p))
      == HeaderWord(BLOCK_HDR + |Meaning(p).header|, Meaning(p).fl)
    ensures p.mark.Some? ==> FixedWord(p) != 0
  {
  }

  lemma BodyIs(p: Plan)
    ensures Meaning(p).header + BodyBytes(Meaning(p)) == InnerBytes(p) && Meaning(p).id == p.id
  {
  }

  /** Patching the reserved header completes the encoding of a block. */
  lemma CloseEncodes(c0: seq<byte>, stale: seq<byte>, b: Block)
    requires |stale| == BLOCK_HDR && Fits(b)
    ensures var body := b.header + BodyBytes(b);
      Splice(c0 + stale + body, |c0|, BlockHeader(b.id, BLOCK_HDR + |body|, HeaderWord(BLOCK_HDR + |b.header|, b.fl)))
      == c0 + Encode(b)
  {
    hide *;
    var body, word := b.header + BodyBytes(b), HeaderWord(BLOCK_HDR + |b.header|, b.fl);
    EncodeIs(b);
    var h := BlockHeader(b.id, BLOCK_HDR + |body|, word);
    SpliceAt(c0, stale, body, h);
    assert c0 + h + body == c0 + (h + b.header + BodyBytes(b));
  }

  method WritePieces(ctx: WriteCtx, ps: seq<Piece>)
    requires ctx.Valid() && forall q :: q in ps && q.Linked? ==> q.bytes != []
    modifies ctx
    ensures ctx.Valid() && ctx.blocks == old(ctx.blocks) && ctx.hasHeader == old(ctx.hasHeader) &&
      ctx.marks == old(ctx.marks)
    ensures ctx.Content() == old(ctx.Content()) + PieceBytes(ps)
  {
    hide WriteCtx.Chained, WriteCtx.Ready, WriteCtx.Marked, WriteCtx.Content;
    for i := 0 to |ps|
      invariant ctx.Valid() && ctx.blocks == old(ctx.blocks) && ctx.hasHeader == old(ctx.hasHeader) &&
        ctx.marks == old(ctx.marks)
      invariant ctx.Content() == old(ctx.Content()) + PieceBytes(ps[..i])
    {
      assert ps[..i + 1][..i] == ps[..i];
      match ps[i] {
        case Copied(bytes) => ctx.Write(bytes);
        case Linked(bytes) => ctx.Append(bytes);
      }
    }
    assert ps[..|ps|] == ps;
  }

  ghost function InnerBytes(p: Plan): seq<byte> {
    PieceBytes(p.header) + BodyOf(p.body)
  }

  ghost function BodyOf(b: PlanBody): seq<byte> {
    match b case Pieces(ps) => PieceBytes(ps) case Plans(ps) => EncodeAll(Meanings(ps))
  }

  /** Writes the block of a plan; fails only when blocks would nest too deep. */
  method WritePlan(ctx: WriteCtx, p: Plan) returns (ok: bool)
    requires ctx.Valid() && NoEmptyLinks(p) && Fits(Meaning(p))
    modifies ctx
    ensures ctx.Valid() && ctx.hasHeader == old(ctx.hasHeader) && old(ctx.marks) <= ctx.marks
    ensures ok <==> |old(ctx.blocks)| + Depth(p) <= MAX_DEPTH
    ensures ok ==> ctx.blocks == SetHeader(old(ctx.blocks), old(ctx.size), FLAG_CONTAINER)
    ensures ok ==> ctx.Content() == old(ctx.Content()) + Encode(Meaning(p))
    decreases p, 1
  {
    hide WriteCtx.Chained, WriteCtx.Ready, WriteCtx.Marked, WriteCtx.Content, Encode, SetHeader, HeaderWord, Fits,
      Meaning, NoEmptyLinks, Splice, FixedWord, InnerBytes;
    ghost var c0, off, m := ctx.Content(), ctx.size, Meaning(p);
    assert |Zeros(BLOCK_HDR)| == BLOCK_HDR;
    var stale: seq<byte> :| |stale| == BLOCK_HDR;
    ok := ctx.BlockOpen(p.id, stale);
    if !ok {
      return;
    }
    ok := WriteInside(ctx, p);
    if !ok {
      return;
    }
    ClosingWord(p);
    BodyIs(p);
    assert ctx.Content() == c0 + stale + (m.header + BodyBytes(m));
    ctx.BlockClose();
    CloseEncodes(c0, stale, m);
  }

  /** Everything between opening and closing a block. */
  method WriteInside(ctx: WriteCtx, p: Plan) returns (ok: bool)
    requires ctx.Valid() && NoEmptyLinks(p) && Fits(Meaning(p))
    requires ctx.blocks != []
    requires ctx.blocks[|ctx.blocks| - 1].headerSize == 0
    requires ctx.blocks[|ctx.blocks| - 1].marker.size + BLOCK_HDR == ctx.size
    modifies ctx
    ensures ctx.Valid() && ctx.hasHeader == old(ctx.hasHeader) && old(ctx.marks) <= ctx.marks
    ensures ok <==> |old(ctx.blocks)| - 1 + Depth(p) <= MAX_DEPTH
    ensures ok ==> ctx.blocks == old(ctx.blocks[|ctx.blocks| - 1 :=
      ctx.blocks[|ctx.blocks| - 1].(headerSize := FixedWord(p))])
    ensures ok ==> ctx.Content() == old(ctx.Content()) + InnerBytes(p)
    decreases p, 0
  {
    hide WriteCtx.Chained, WriteCtx.Ready, WriteCtx.Marked, WriteCtx.Content, Encode, SetHeader, HeaderWord, Fits;
    ghost var outer, open := ctx.blocks[..|ctx.blocks| - 1], ctx.blocks[|ctx.blocks| - 1];
    ghost var off := open.marker.size;
    assert ctx.blocks == outer + [open];
    ClosingWord(p);
    FitsChildren(Meaning(p));
    WritePieces(ctx, p.header);
    ghost var at := ctx.size;
    if p.mark.Some? {
      SetHeaderLast(outer, open, at, p.mark.value);
      ctx.BlockSetHeader(p.mark.value);
      open := open.(headerSize := HeaderWord(at - off, p.mark.value));
    }
    assert ctx.blocks == outer + [open];
    SetHeaderLast(outer, open, at, FLAG_CONTAINER);
    ok := WriteBody(ctx, p.body);
    Associate(old(ctx.Content()), PieceBytes(p.header), BodyOf(p.body));
  }

  method WriteBody(ctx: WriteCtx, body: PlanBody) returns (ok: bool)
    requires ctx.Valid()
    requires match body
      case Pieces(ps) => forall q :: q in ps && q.Linked? ==> q.bytes != []
      case Plans(ps) => (forall p :: p in ps ==> NoEmptyLinks(p)) && FitAll(Meanings(ps))
    modifies ctx
    ensures ctx.Valid() && ctx.hasHeader == old(ctx.hasHeader) && old(ctx.marks) <= ctx.marks
    ensures ok <==> body.Pieces? || |old(ctx.blocks)| + Depths(body.plans) <= MAX_DEPTH
    ensures ok ==> (ctx.blocks == if body.Pieces? || body.plans == [] then old(ctx.blocks)
                                  else SetHeader(old(ctx.blocks), old(ctx.size), FLAG_CONTAINER))
    ensures ok ==> ctx.Content() == old(ctx.Content()) + BodyOf(body)
    decreases body, 2
  {
    hide WriteCtx.Chained, WriteCtx.Ready, WriteCtx.Marked, WriteCtx.Content, Encode, SetHeader, HeaderWord, Fits;
    ok := true;
    match body {
      case Pieces(ps) => WritePieces(ctx, ps);
      case Plans(ps) => ok := WritePlans(ctx, ps);
    }
  }

  method WritePlans(ctx: WriteCtx, ps: seq<Plan>) returns (ok: bool)
    requires ctx.Valid() && (forall p :: p in ps ==> NoEmptyLinks(p)) && FitAll(Meanings(ps))
    modifies ctx
    ensures ctx.Valid() && ctx.hasHeader == old(ctx.hasHeader) && old(ctx.marks) <= ctx.marks
    ensures ok <==> |old(ctx.blocks)| + Depths(ps) <= MAX_DEPTH
    ensures ok ==> (ctx.blocks ==
      if ps == [] then old(ctx.blocks) else SetHeader(old(ctx.blocks), old(ctx.size), FLAG_CONTAINER))
    ensures ok ==> ctx.Content() == old(ctx.Content()) + EncodeAll(Meanings(ps))
    decreases ps, 1
  {
    hide WriteCtx.Chained, WriteCtx.Ready, WriteCtx.Marked, WriteCtx.Content, Encode, SetHeader, HeaderWord, Fits,
      Meaning, NoEmptyLinks;
    if ctx.blocks != [] {
      LastOpen(ctx);
    }
    NoPlans(ps[..0]);
    ghost var c0, b0, s0 := ctx.Content(), ctx.blocks, ctx.size;
    hide Meanings, Depths, EncodeAll, FitAll, Depth;
    for i := 0 to |ps|
      invariant ctx.Valid() && ctx.hasHeader == old(ctx.hasHeader) && old(ctx.marks) <= ctx.marks
      invariant |b0| + Depths(ps[..i]) <= MAX_DEPTH
      invariant ctx.blocks == if i == 0 then b0 else SetHeader(b0, s0, FLAG_CONTAINER)
      invariant i == 0 ==> ctx.size == s0
      invariant ctx.Content() == c0 + EncodeAll(Meanings(ps[..i]))
    {
      NextPlan(ps, i);
      SetHeaderOnce(b0, s0, ctx.size);
      ok := WritePlan(ctx, ps[i]);
      if !ok {
        return;
      }
    }
    assert ps[..|ps|] == ps;
    ok := true;
  }

  /** A file with the given blocks. */
  function FileBytes(ftype: u32, created: u64, bs: seq<Block>): seq<byte> {
    FileHeader((FILE_HDR + |EncodeAll(bs)|) % U32, ftype, created) + EncodeAll(bs)
  }

  /** Opens a file context, writes the blocks of some plans and closes it. */
  method SaveFile(ftype: u32, created: u64, ps: seq<Plan>) returns (ctx: WriteCtx, ok: bool)
    requires ftype != 0 && (forall p :: p in ps ==> NoEmptyLinks(p)) && FitAll(Meanings(ps))
    ensures fresh(ctx) && ctx.Valid()
    ensures ok <==> Depths(ps) <= MAX_DEPTH
    ensures ok ==> ctx.Content() == FileBytes(ftype, created, Meanings(ps))
  {
    hide WriteCtx.Chained, WriteCtx.Ready, WriteCtx.Marked, WriteCtx.Content, Fits, Meaning, NoEmptyLinks, FileHeader,
      LE, Splice;
    ghost var stale: u32 := 0;
    ctx := new WriteCtx.File(ftype, created, 0);
    ghost var size := (FILE_HDR + |EncodeAll(Meanings(ps))|) % U32;
    ok := WritePlans(ctx, ps);
    if !ok {
      return;
    }
    assert ctx.size == FILE_HDR + |EncodeAll(Meanings(ps))|;
    ok := ctx.Close();
    FileHeaderSize(stale, size, ftype, created);
    SpliceFront(FileHeader(stale, ftype, created), EncodeAll(Meanings(ps)), 4, LE(size, 4));
  }

  lemma SpliceFront(a: seq<byte>, b: seq<byte>, at: nat, data: seq<byte>)
    requires at + |data| <= |a|
    ensures Splice(a + b, at, data) == Splice(a, at, data) + b
  {
  }

  /** What is written is read back: the reader sees exactly the known part of the tree
      that was written, or rejects it because a known header is too short for it. */
  method SaveAndLoad(conf: Conf, root: nat, ftype: u32, created: u64, ps: seq<Plan>)
      returns (saved: bool, r: Result<seq<Seen>>)
    requires ftype != 0 && (forall p :: p in ps ==> NoEmptyLinks(p)) && FitAll(Meanings(ps))
    requires Conforms(conf, root, Meanings(ps))
    ensures saved <==> Depths(ps) <= MAX_DEPTH
    ensures saved ==> (r == if Complete(conf, root, Meanings(ps)) then Ok(See(conf, root, Meanings(ps))) else BadData)
  {
    hide WriteCtx.Chained, WriteCtx.Ready, WriteCtx.Marked, WriteCtx.Content, Fits, Meaning, NoEmptyLinks, FileHeader,
      LE, ReadBlocks, EncodeAll, OpenFile;
    r := BadData;
    var ctx: WriteCtx;
    ctx, saved := SaveFile(ftype, created, ps);
    if !saved {
      return;
    }
    var file := ctx.Output();
    ghost var bs := Meanings(ps);
    OpenOwnFile((FILE_HDR + |EncodeAll(bs)|) % U32, ftype, created, EncodeAll(bs));
    var status, rs := ReadFileHeader(file, ftype);
    ReadEncoded(conf, root, bs);
    r := ConfReadBlocks(conf, root, rs);
  }
}
