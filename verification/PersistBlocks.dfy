/** Block trees, their encoding, and what a reader that knows some block ids makes
    of an encoded tree. */
module PersistBlocks {
  import opened Sequences
  import opened Bytes
  import opened PersistFormat
  import opened Wrappers

  datatype Block = Block(id: u32, fl: flags, header: seq<byte>, body: Body)
  datatype Body = Data(data: seq<byte>) | Children(kids: seq<Block>)

  function Encode(b: Block): (s: seq<byte>)
    ensures |s| >= BLOCK_HDR
  {
    var body := match b.body case Data(d) => d case Children(kids) => EncodeAll(kids);
    var head := BLOCK_HDR + |b.header|;
    BlockHeader(b.id, head + |body|, HeaderWord(head, b.fl)) + b.header + body
  }

  function EncodeAll(bs: seq<Block>): seq<byte> {
    if bs == [] then [] else Encode(bs[0]) + EncodeAll(bs[1..])
  }

  /** Every size fits its field. */
  ghost predicate Fits(b: Block) {
    && |Encode(b)| < U32
    && BLOCK_HDR + |b.header| < HEADER_SIZE_LIMIT
    && (b.body.Children? ==> FitAll(b.body.kids))
  }

  ghost predicate FitAll(bs: seq<Block>) {
    bs != [] ==> Fits(bs[0]) && FitAll(bs[1..])
  }

  /** What a reader knows about a block id: how many header bytes its handler reads,
      and whether the rest is data or blocks read in a context of their own. */
  datatype Kind = Leaf(fields: nat) | Container(fields: nat, ctx: nat)

  type Conf = (nat, u32) -> Option<Kind>

  datatype Seen = Seen(id: u32, fl: flags, fields: seq<byte>, body: SeenBody)
  datatype SeenBody = SeenData(data: seq<byte>) | SeenBlocks(blocks: seq<Seen>)

  /** Splits off the first block: the bytes its size field announces. */
  function TakeBlock(s: seq<byte>): (r: Option<(seq<byte>, seq<byte>)>)
    ensures r.Some? ==> |r.value.0| >= BLOCK_HDR && r.value.0 + r.value.1 == s
  {
    if |s| < BLOCK_HDR then None
    else
      var size := UnLE(s[4..8]);
      if size < BLOCK_HDR || size > |s| then None else Some((s[..size], s[size..]))
  }

  /** One-shot reading of a run of blocks. */
  function ReadBlocks(conf: Conf, ctx: nat, s: seq<byte>): Result<seq<Seen>>
    decreases |s|, 1
  {
    if s == [] then Ok([])
    else match TakeBlock(s)
      case None => BadData
      case Some((block, rest)) =>
        Field32Bound(block[..4]);
        match conf(ctx, UnLE(block[..4]))
        case None => ReadBlocks(conf, ctx, rest)
        case Some(kind) =>
          match ReadOne(conf, kind, block)
          case BadData => BadData
          case Ok(seen) =>
            match ReadBlocks(conf, ctx, rest)
            case BadData => BadData
            case Ok(more) => Ok([seen] + more)
  }

  function ReadOne(conf: Conf, kind: Kind, block: seq<byte>): Result<Seen>
    requires |block| >= BLOCK_HDR
    decreases |block|, 0
  {
    Field32Bound(block[..4]);
    Field32Bound(block[8..12]);
    var id, word := UnLE(block[..4]), UnLE(block[8..12]);
    var head := word % HEADER_SIZE_LIMIT;
    if kind.fields > |block| - BLOCK_HDR || head < BLOCK_HDR + kind.fields || head > |block| then BadData
    else
      var fields := block[BLOCK_HDR..BLOCK_HDR + kind.fields];
      if kind.Leaf? then Ok(Seen(id, word / HEADER_SIZE_LIMIT, fields, SeenData(block[head..])))
      else
        match ReadBlocks(conf, kind.ctx, block[head..])
        case BadData => BadData
        case Ok(kids) => Ok(Seen(id, word / HEADER_SIZE_LIMIT, fields, SeenBlocks(kids)))
  }

  lemma Field32Bound(s: seq<byte>)
    requires |s| == 4
    ensures UnLE(s) < U32
  {
    RadixValues();
  }

  /** The tree agrees with what the reader knows: data where it expects data,
      blocks where it expects blocks. */
  ghost predicate Conforms(conf: Conf, ctx: nat, bs: seq<Block>)
    decreases bs
  {
    bs != [] ==>
      && (match conf(ctx, bs[0].id)
          case None => true
          case Some(Leaf(_)) => bs[0].body.Data?
          case Some(Container(_, sub)) => bs[0].body.Children? && Conforms(conf, sub, bs[0].body.kids))
      && Conforms(conf, ctx, bs[1..])
  }

  /** Every known block carries the header fields its handler reads. */
  ghost predicate Complete(conf: Conf, ctx: nat, bs: seq<Block>)
    requires Conforms(conf, ctx, bs)
    decreases bs
  {
    bs != [] ==>
      && (match conf(ctx, bs[0].id)
          case None => true
          case Some(Leaf(n)) => n <= |bs[0].header|
          case Some(Container(n, sub)) => n <= |bs[0].header| && Complete(conf, sub, bs[0].body.kids))
      && Complete(conf, ctx, bs[1..])
  }

  /** The known part of a tree. */
  ghost function See(conf: Conf, ctx: nat, bs: seq<Block>): seq<Seen>
    requires Conforms(conf, ctx, bs) && Complete(conf, ctx, bs)
    decreases bs
  {
    if bs == [] then []
    else
      var b, rest := bs[0], See(conf, ctx, bs[1..]);
      match conf(ctx, b.id)
      case None => rest
      case Some(Leaf(n)) => [Seen(b.id, b.fl, b.header[..n], SeenData(b.body.data))] + rest
      case Some(Container(n, sub)) =>
        [Seen(b.id, b.fl, b.header[..n], SeenBlocks(See(conf, sub, b.body.kids)))] + rest
  }

  lemma ThreeFields(a: seq<byte>, b: seq<byte>, c: seq<byte>, tail: seq<byte>)
    requires |a| == |b| == |c| == 4
    ensures var s := a + b + c + tail; s[..4] == a && s[4..8] == b && s[8..12] == c
  {
  }

  lemma HeaderFields(id: u32, size: u32, word: u32, tail: seq<byte>)
    ensures var s := BlockHeader(id, size, word) + tail;
      UnLE(s[..4]) == id && UnLE(s[4..8]) == size && UnLE(s[8..12]) == word
  {
    hide LE, UnLE;
    ThreeFields(LE(id, 4), LE(size, 4), LE(word, 4), tail);
    Field32(id);
    Field32(size);
    Field32(word);
  }

  lemma WordParts(n: nat, fl: flags)
    requires n < HEADER_SIZE_LIMIT
    ensures HeaderWord(n, fl) % HEADER_SIZE_LIMIT == n && HeaderWord(n, fl) / HEADER_SIZE_LIMIT == fl
  {
  }

  ghost function BodyBytes(b: Block): seq<byte> {
    match b.body case Data(d) => d case Children(kids) => EncodeAll(kids)
  }

  /** The layout of one encoded block. */
  lemma Layout(b: Block, rest: seq<byte>)
    requires Fits(b)
    ensures TakeBlock(Encode(b) + rest) == Some((Encode(b), rest))
    ensures var s := Encode(b); var head := BLOCK_HDR + |b.header|;
      && UnLE(s[..4]) == b.id
      && UnLE(s[8..12]) == HeaderWord(head, b.fl)
      && s[BLOCK_HDR..head] == b.header && s[head..] == BodyBytes(b)
  {
    var body, head := BodyBytes(b), BLOCK_HDR + |b.header|;
    var word, s := HeaderWord(head, b.fl), Encode(b);
    hide *;
    var h := BlockHeader(b.id, head + |body|, word);
    EncodeIs(b);
    Associate(h, b.header, body);
    FitsSize(b);
    HeaderFields(b.id, |s|, word, b.header + body);
    HeaderFields(b.id, |s|, word, b.header + body + rest);
    Associate(h, b.header + body, rest);
    TakeSize(s, rest);
    Halves(h + b.header, body);
    Between(h, b.header, body);
  }

  lemma EncodeIs(b: Block)
    ensures var head := BLOCK_HDR + |b.header|;
      && Encode(b) == BlockHeader(b.id, head + |BodyBytes(b)|, HeaderWord(head, b.fl)) + b.header + BodyBytes(b)
      && |Encode(b)| == head + |BodyBytes(b)|
  {
  }

  lemma FitsSize(b: Block)
    requires Fits(b)
    ensures BLOCK_HDR <= |Encode(b)| < U32
  {
  }

  lemma TakeSize(s: seq<byte>, rest: seq<byte>)
    requires |s| >= BLOCK_HDR && UnLE((s + rest)[4..8]) == |s|
    ensures TakeBlock(s + rest) == Some((s, rest))
  {
    assert (s + rest)[..|s|] == s && (s + rest)[|s|..] == rest;
  }

  /** Reading encoded blocks with anything behind them yields their known part and what is
      read of the rest, and fails if either fails: a known block that is shorter than its
      handler expects is refused. */
  lemma {:induction false} ReadAhead(conf: Conf, ctx: nat, bs: seq<Block>, tail: seq<byte>)
    requires FitAll(bs) && Conforms(conf, ctx, bs)
    ensures ReadBlocks(conf, ctx, EncodeAll(bs) + tail) ==
      if Complete(conf, ctx, bs) then
        match ReadBlocks(conf, ctx, tail)
        case BadData => BadData
        case Ok(more) => Ok(See(conf, ctx, bs) + more)
      else BadData
    decreases bs, 1
  {
    hide Encode, Fits, ReadOne, TakeBlock, ReadBlocks, UnLE;
    if bs == [] {
      NoBlocks(conf, ctx, tail);
    } else {
      var b, rest := bs[0], EncodeAll(bs[1..]) + tail;
      Layout(b, rest);
      Associate(Encode(b), EncodeAll(bs[1..]), tail);
      ReadAhead(conf, ctx, bs[1..], tail);
      ReadFirst(conf, ctx, Encode(b), b.id, rest);
      match conf(ctx, b.id) {
        case None =>
        case Some(kind) => ReadEncodedOne(conf, kind, b);
      }
      if Complete(conf, ctx, bs) && ReadBlocks(conf, ctx, tail).Ok? {
        SeeFirst(conf, ctx, bs, ReadBlocks(conf, ctx, tail));
      }
    }
  }

  lemma NoBlocks(conf: Conf, ctx: nat, tail: seq<byte>)
    ensures EncodeAll([]) + tail == tail && Complete(conf, ctx, []) && See(conf, ctx, []) == []
    ensures forall more: seq<Seen> :: [] + more == more
  {
  }

  lemma ReadFirst(conf: Conf, ctx: nat, block: seq<byte>, id: u32, rest: seq<byte>)
    requires |block| >= BLOCK_HDR && UnLE(block[..4]) == id && TakeBlock(block + rest) == Some((block, rest))
    ensures ReadBlocks(conf, ctx, block + rest) ==
      match conf(ctx, id)
      case None => ReadBlocks(conf, ctx, rest)
      case Some(kind) =>
        match ReadOne(conf, kind, block)
        case BadData => BadData
        case Ok(seen) =>
          match ReadBlocks(conf, ctx, rest)
          case BadData => BadData
          case Ok(more) => Ok([seen] + more)
  {
    hide TakeBlock, UnLE, ReadOne;
  }

  lemma SeeFirst(conf: Conf, ctx: nat, bs: seq<Block>, r: Result<seq<Seen>>)
    requires bs != [] && Conforms(conf, ctx, bs) && Complete(conf, ctx, bs) && r.Ok?
    ensures See(conf, ctx, bs) + r.value ==
      match conf(ctx, bs[0].id)
      case None => See(conf, ctx, bs[1..]) + r.value
      case Some(Leaf(n)) =>
        [Seen(bs[0].id, bs[0].fl, bs[0].header[..n], SeenData(bs[0].body.data))] + (See(conf, ctx, bs[1..]) + r.value)
      case Some(Container(n, sub)) =>
        [Seen(bs[0].id, bs[0].fl, bs[0].header[..n], SeenBlocks(See(conf, sub, bs[0].body.kids)))]
        + (See(conf, ctx, bs[1..]) + r.value)
  {
  }

  /** Reading an encoded tree yields its known part, and fails exactly when some
      known block is shorter than its handler expects. */
  lemma ReadEncoded(conf: Conf, ctx: nat, bs: seq<Block>)
    requires FitAll(bs) && Conforms(conf, ctx, bs)
    ensures ReadBlocks(conf, ctx, EncodeAll(bs)) ==
      if Complete(conf, ctx, bs) then Ok(See(conf, ctx, bs)) else BadData
    decreases bs, 2
  {
    hide FitAll, Conforms, Complete, See, EncodeAll;
    ReadAhead(conf, ctx, bs, []);
    assert EncodeAll(bs) + [] == EncodeAll(bs);
    if Complete(conf, ctx, bs) {
      assert See(conf, ctx, bs) + [] == See(conf, ctx, bs);
    }
  }

  /** Bytes that are too few for a header, or whose size field does not fit, are refused. */
  lemma BrokenTail(conf: Conf, ctx: nat, tail: seq<byte>)
    requires tail != []
    requires |tail| < 12 || UnLE(tail[4..8]) < 12 || UnLE(tail[4..8]) > |tail|
    ensures ReadBlocks(conf, ctx, tail) == BadData
  {
    hide UnLE;
  }

  /** So is a run of blocks, whatever they are, that is cut off inside its last one. */
  lemma CutOff(conf: Conf, ctx: nat, bs: seq<Block>, b: Block, n: nat)
    requires FitAll(bs) && Conforms(conf, ctx, bs) && Fits(b) && 0 < n < |Encode(b)|
    ensures ReadBlocks(conf, ctx, EncodeAll(bs) + Encode(b)[..n]) == BadData
  {
    hide FitAll, Conforms, Complete, See, EncodeAll, ReadBlocks, TakeBlock, Encode, UnLE, Fits;
    var s := Encode(b);
    assert |s| >= 12;
    assert UnLE(s[4..8]) == |s| by { SizeField(b); }
    if n >= 12 {
      assert s[..n][4..8] == s[4..8];
    }
    BrokenTail(conf, ctx, s[..n]);
    ReadAhead(conf, ctx, bs, s[..n]);
  }

  lemma SizeField(b: Block)
    requires Fits(b)
    ensures UnLE(Encode(b)[4..8]) == |Encode(b)|
  {
    hide Encode, UnLE, BlockHeader, HeaderWord;
    var head := BLOCK_HDR + |b.header|;
    EncodeIs(b);
    FitsSize(b);
    Associate(BlockHeader(b.id, |Encode(b)|, HeaderWord(head, b.fl)), b.header, BodyBytes(b));
    HeaderFields(b.id, |Encode(b)|, HeaderWord(head, b.fl), b.header + BodyBytes(b));
  }

  lemma SlicePrefix(s: seq<byte>, h: seq<byte>, at: nat, n: nat)
    requires at + |h| <= |s| && s[at..at + |h|] == h && n <= |h|
    ensures s[at..at + n] == h[..n]
  {
    assert s[at..at + n] == s[at..at + |h|][..n];
  }

  lemma {:induction false} ReadEncodedOne(conf: Conf, kind: Kind, b: Block)
    requires Fits(b)
    requires if kind.Leaf? then b.body.Data? else b.body.Children? && Conforms(conf, kind.ctx, b.body.kids)
    ensures ReadOne(conf, kind, Encode(b)) ==
      if |b.header| < kind.fields then BadData
      else if kind.Leaf? then Ok(Seen(b.id, b.fl, b.header[..kind.fields], SeenData(b.body.data)))
      else if Complete(conf, kind.ctx, b.body.kids) then
        Ok(Seen(b.id, b.fl, b.header[..kind.fields], SeenBlocks(See(conf, kind.ctx, b.body.kids))))
      else BadData
    decreases b, 3
  {
    if kind.Container? {
      ReadEncoded(conf, kind.ctx, b.body.kids);
    }
    hide Encode, Fits, Conforms, Complete, See, ReadBlocks, TakeBlock, HeaderWord;
    Layout(b, []);
    WordParts(BLOCK_HDR + |b.header|, b.fl);
    if kind.fields <= |b.header| {
      SlicePrefix(Encode(b), b.header, BLOCK_HDR, kind.fields);
    }
  }

  /** `new` is `old` with blocks of unknown id added among the children of any
      container, and with bytes added behind the headers of known blocks. */
  ghost predicate Extends(conf: Conf, ctx: nat, bs: seq<Block>, bs': seq<Block>)
    requires Conforms(conf, ctx, bs) && Conforms(conf, ctx, bs')
    decreases bs'
  {
    if bs' == [] then bs == []
    else match conf(ctx, bs'[0].id)
      case None =>
        || Extends(conf, ctx, bs, bs'[1..])
        || (bs != [] && conf(ctx, bs[0].id).None? && Extends(conf, ctx, bs[1..], bs'[1..]))
      case Some(kind) =>
        && bs != []
        && bs[0].id == bs'[0].id && bs[0].fl == bs'[0].fl && bs[0].header <= bs'[0].header
        && (if kind.Leaf? then bs[0].body == bs'[0].body
            else Extends(conf, kind.ctx, bs[0].body.kids, bs'[0].body.kids))
        && Extends(conf, ctx, bs[1..], bs'[1..])
  }

  /** Readers are forward compatible: extensions read as the original did. */
  lemma {:induction false} ForwardCompatible(conf: Conf, ctx: nat, bs: seq<Block>, bs': seq<Block>)
    requires Conforms(conf, ctx, bs) && Conforms(conf, ctx, bs') && Extends(conf, ctx, bs, bs')
    requires Complete(conf, ctx, bs)
    ensures Complete(conf, ctx, bs') && See(conf, ctx, bs') == See(conf, ctx, bs)
    decreases bs'
  {
    if bs' != [] {
      match conf(ctx, bs'[0].id) {
        case None =>
          if Extends(conf, ctx, bs, bs'[1..]) {
            ForwardCompatible(conf, ctx, bs, bs'[1..]);
          } else {
            ForwardCompatible(conf, ctx, bs[1..], bs'[1..]);
          }
        case Some(kind) =>
          assert bs[0].header[..kind.fields] == bs'[0].header[..kind.fields];
          ForwardCompatible(conf, ctx, bs[1..], bs'[1..]);
          if kind.Container? {
            ForwardCompatible(conf, kind.ctx, bs[0].body.kids, bs'[0].body.kids);
          }
      }
    }
  }

  /** The same on bytes. */
  lemma ForwardCompatibleBytes(conf: Conf, ctx: nat, bs: seq<Block>, bs': seq<Block>)
    requires FitAll(bs) && FitAll(bs') && Conforms(conf, ctx, bs) && Conforms(conf, ctx, bs')
    requires Extends(conf, ctx, bs, bs') && Complete(conf, ctx, bs)
    ensures ReadBlocks(conf, ctx, EncodeAll(bs')) == ReadBlocks(conf, ctx, EncodeAll(bs))
  {
    ForwardCompatible(conf, ctx, bs, bs');
    ReadEncoded(conf, ctx, bs);
    ReadEncoded(conf, ctx, bs');
  }
}
