/** Sender and receiver together: what is written on a track is what the handlers of a
    session at the other end of the connection see. */
module KmpEndToEnd {
  import opened Sequences
  import opened Bytes
  import opened KmpFormat
  import opened KmpPackets
  import opened KmpSession
  import opened KmpAccounts
  import opened KmpIn
  import opened KmpUpstreams
  import opened KmpOut

  /** What is written on a track: a media info, a frame at once from a chain of buffers, the
      first from `off` on, or in pieces, a keepalive. */
  datatype Op = Info(info: MediaInfo, extra: seq<byte>) | Whole(frame: Frame, input: seq<seq<byte>>, off: nat)
              | Pieces(frame: Frame, pieces: seq<seq<byte>>) | Idle

  predicate Sized(op: Op) {
    match op
    case Info(m, extra) => |m.params| == 16 && |extra| <= MAX_DATA_SIZE
    case Whole(_, input, off) => input != [] && off <= |input[0]| && |From(input, 0, off)| <= MAX_DATA_SIZE
    case Pieces(_, pieces) => |Flat(pieces)| <= MAX_DATA_SIZE
    case Idle => true
  }

  predicate IsFrame(op: Op) { op.Whole? || op.Pieces? }

  function FrameData(op: Op): seq<byte>
    requires IsFrame(op) && Sized(op)
  {
    if op.Whole? then From(op.input, 0, op.off) else Flat(op.pieces)
  }

  function Packet(op: Op): seq<byte>
    requires Sized(op)
  {
    match op
    case Info(m, extra) => MediaInfoPacket(m, extra)
    case Idle => NullPacket()
    case _ => FramePacket(op.frame, FrameData(op))
  }

  /** What the stream has announced so far, and how many frames the receiver will still
      skip; with `skipKey`, the first frame behind these need not be a key frame. */
  datatype Context = Context(timescale: u32, mediaType: u32, waitKey: bool, skip: nat, skipKey: bool)

  const NOTHING: Context := Context(0, 0, false, 0, false)

  predicate FrameLegal(f: Frame, data: seq<byte>, x: Context) {
    && x.timescale != 0
    && (x.skip > 0 || (data != [] && (x.mediaType == MEDIA_SUBTITLE ==> f.ptsDelay > 0) && (x.waitKey ==> IsKey(f.fl))))
  }

  predicate OpLegal(op: Op, x: Context) {
    Sized(op) && match op
      case Info(m, _) => m.timescale != 0
      case Idle => true
      case _ => FrameLegal(op.frame, FrameData(op), x)
  }

  function AfterFrame(x: Context): Context {
    if x.skip == 0 then x.(waitKey := false)
    else x.(skip := x.skip - 1, waitKey := x.waitKey && !(x.skip == 1 && x.skipKey))
  }

  function After(op: Op, x: Context): Context {
    match op
    case Info(m, _) => x.(timescale := m.timescale, mediaType := m.mediaType, waitKey := m.mediaType == MEDIA_VIDEO)
    case Idle => x
    case _ => AfterFrame(x)
  }

  /** Frames have a media info before them; behind the frames to skip they have data, a
      positive duration if they are subtitles, and the first one behind a video media info
      is a key frame. */
  ghost predicate Legal(ops: seq<Op>, x: Context) {
    ops != [] ==> OpLegal(ops[0], x) && Legal(ops[1..], After(ops[0], x))
  }

  function Heard(sess: Session): Context {
    Context(sess.timescale, sess.mediaType, sess.waitKey, sess.skipLeft, sess.skipWaitKey)
  }

  ghost predicate AllSized(ops: seq<Op>) { forall i :: 0 <= i < |ops| ==> Sized(ops[i]) }

  /** The byte stream behind the connect packet. */
  function Stream(ops: seq<Op>): seq<byte>
    requires AllSized(ops)
  {
    if ops == [] then [] else Packet(ops[0]) + Stream(ops[1..])
  }

  function FrameEvent(id: nat, f: Frame, data: seq<byte>): Event {
    NewFrame(Wrap(id), f.(fl := f.fl % 2), data)
  }

  /** What one write shows the handlers, the next frame being number `id`, and with `skip`
      frames still to be skipped. */
  function Added(op: Op, id: nat, skip: nat): seq<Event>
    requires Sized(op)
  {
    match op
    case Info(m, extra) => [NewMediaInfo(m, extra)]
    case Idle => []
    case _ => if skip > 0 then [] else [FrameEvent(id, op.frame, FrameData(op))]
  }

  function IdAfter(op: Op, id: nat): nat {
    if IsFrame(op) then id + 1 else id
  }

  function SkipAfter(op: Op, skip: nat): nat {
    if IsFrame(op) && skip > 0 then skip - 1 else skip
  }

  function Expected(ops: seq<Op>, id: nat, skip: nat): seq<Event>
    requires AllSized(ops)
  {
    if ops == [] then []
    else Added(ops[0], id, skip) + Expected(ops[1..], IdAfter(ops[0], id), SkipAfter(ops[0], skip))
  }

  /** All but the first n frames. */
  function WithoutFrames(es: seq<Event>, n: nat): seq<Event> {
    if es == [] then []
    else if es[0].NewFrame? && n > 0 then WithoutFrames(es[1..], n - 1)
    else [es[0]] + WithoutFrames(es[1..], n)
  }

  /** Skipping takes away the first frames; the others keep their ids. */
  lemma {:induction false} SkippedFrames(ops: seq<Op>, id: nat, n: nat)
    requires AllSized(ops)
    ensures Expected(ops, id, n) == WithoutFrames(Expected(ops, id, 0), n)
    decreases |ops|
  {
    if ops != [] {
      var rest, later := ops[1..], IdAfter(ops[0], id);
      SkippedFrames(rest, later, SkipAfter(ops[0], n));
      hide Expected, WithoutFrames;
      ExpectedHead(ops, id, n);
      ExpectedHead(ops, id, 0);
      if ops[0] == Idle {
        assert [] + Expected(rest, later, 0) == Expected(rest, later, 0);
      } else {
        WithoutOne(Added(ops[0], id, 0)[0], Expected(rest, later, 0), n);
      }
    }
  }

  lemma ExpectedHead(ops: seq<Op>, id: nat, n: nat)
    requires AllSized(ops) && ops != []
    ensures Expected(ops, id, n) == Added(ops[0], id, n) + Expected(ops[1..], IdAfter(ops[0], id), SkipAfter(ops[0], n))
  {
  }

  lemma WithoutOne(e: Event, es: seq<Event>, n: nat)
    ensures WithoutFrames([e] + es, n) ==
      if e.NewFrame? && n > 0 then [] + WithoutFrames(es, n - 1) else [e] + WithoutFrames(es, n)
  {
    assert ([e] + es)[1..] == es;
  }

  /** A run that is legal for a receiver with nothing to skip is so for one that resumes,
      if that one does not wait for a key frame behind what it skips. */
  lemma {:induction false} LegalResumed(ops: seq<Op>, x: Context, y: Context)
    requires Legal(ops, x) && x.skip == 0 && y.timescale == x.timescale && y.mediaType == x.mediaType
    requires if y.skip > 0 then y.skipKey else y.waitKey == x.waitKey
    ensures Legal(ops, y)
    decreases |ops|
  {
    if ops != [] {
      LegalResumed(ops[1..], After(ops[0], x), After(ops[0], y));
    }
  }

  predicate Accepts(o: Outcome) { o == Took || o == Left }

  ghost predicate Willing(hs: Handlers) {
    forall es, e :: Accepts(hs.react(es, e))
  }

  /** A session past its connect packet. */
  ghost predicate Live(sess: Session, id: nat) {
    sess.phase == Later && sess.curId == Wrap(id)
  }

  lemma LegalSized(ops: seq<Op>, x: Context)
    requires Legal(ops, x)
    ensures AllSized(ops)
  {
    if ops != [] {
      LegalSized(ops[1..], After(ops[0], x));
    }
  }

  lemma WillingTo(hs: Handlers, es: seq<Event>, e: Event)
    requires Willing(hs)
    ensures Accepts(hs.react(es, e))
  {
  }

  /** One packet at the front of the stream. */
  lemma OnePacket(hs: Handlers, sess: Session, h: Header, body: seq<byte>, rest: seq<byte>)
    requires sess.phase == Later && HeaderOk(h) && h.headerSize + h.dataSize == |body| + HDR_SIZE
    ensures Consistent(sess, EncHeader(h) + body + rest)
    ensures Parse(hs, sess, EncHeader(h) + body + rest) ==
      var (sess', st) := OnPacket(hs, sess, h, body);
      if st.Stop? then Ended(sess', st.rc) else Parse(hs, sess'.(phase := Later), rest)
  {
    hide EncHeader, DecHeader, OnPacket, Parse;
    HeaderRoundTrip(h, []);
    assert EncHeader(h) + [] == EncHeader(h);
    WholeLater(hs, sess, EncHeader(h), body, rest);
  }

  lemma InfoStep(hs: Handlers, sess: Session, id: nat, m: MediaInfo, extra: seq<byte>, rest: seq<byte>)
    returns (sess': Session)
    requires Willing(hs) && Live(sess, id) && Sized(Info(m, extra)) && m.timescale != 0
    ensures Live(sess', id) && sess'.events == sess.events + [NewMediaInfo(m, extra)]
    ensures Heard(sess') == After(Info(m, extra), Heard(sess))
    ensures Consistent(sess, MediaInfoPacket(m, extra) + rest)
    ensures Parse(hs, sess, MediaInfoPacket(m, extra) + rest) == Parse(hs, sess', rest)
  {
    hide EncHeader, EncMediaInfo, DecMediaInfo, Parse, Wrap, Willing;
    var h := Header(PACKET_MEDIA_INFO, HDR_SIZE + MEDIA_INFO_SIZE, |extra|, 0);
    var body := EncMediaInfo(m) + extra;
    MediaInfoRoundTrip(m, extra);
    assert body[MEDIA_INFO_SIZE..] == extra;
    WillingTo(hs, sess.events, NewMediaInfo(m, extra));
    assert MediaInfoPacket(m, extra) + rest == EncHeader(h) + body + rest;
    OnePacket(hs, sess, h, body, rest);
    sess' := OnPacket(hs, sess, h, body).0;
  }

  lemma FrameStep(hs: Handlers, sess: Session, id: nat, f: Frame, data: seq<byte>, rest: seq<byte>)
    returns (sess': Session)
    requires Willing(hs) && Live(sess, id) && |data| <= MAX_DATA_SIZE
    requires FrameLegal(f, data, Heard(sess))
    ensures Live(sess', id + 1) && Heard(sess') == AfterFrame(Heard(sess))
    ensures sess'.events == sess.events + if sess.skipLeft > 0 then [] else [FrameEvent(id, f, data)]
    ensures Consistent(sess, FramePacket(f, data) + rest)
    ensures Parse(hs, sess, FramePacket(f, data) + rest) == Parse(hs, sess', rest)
  {
    hide EncHeader, EncFrame, DecFrame, Parse, Wrap, Willing, IsKey;
    var h := Header(PACKET_FRAME, FRAME_PACKET_SIZE, |data|, 0);
    var body := EncFrame(f) + data;
    FrameRoundTrip(f, data);
    assert body[FRAME_SIZE..] == data;
    WillingTo(hs, sess.events, FrameEvent(id, f, data));
    IdStep(0, id);
    assert FramePacket(f, data) + rest == EncHeader(h) + body + rest;
    OnePacket(hs, sess, h, body, rest);
    sess' := OnPacket(hs, sess, h, body).0;
  }

  lemma IdleStep(hs: Handlers, sess: Session, rest: seq<byte>)
    requires sess.phase == Later
    ensures Consistent(sess, NullPacket() + rest)
    ensures Parse(hs, sess, NullPacket() + rest) == Parse(hs, sess, rest)
  {
    hide EncHeader, Parse;
    var h := Header(PACKET_NULL, HDR_SIZE, 0, 0);
    assert NullPacket() + rest == EncHeader(h) + [] + rest;
    OnePacket(hs, sess, h, [], rest);
  }

  /** Every run of writes is delivered in order, with the same fields and data. */
  lemma {:induction false} Delivery(hs: Handlers, sess: Session, id: nat, ops: seq<Op>)
    requires Willing(hs) && Live(sess, id) && Legal(ops, Heard(sess))
    ensures AllSized(ops) && Consistent(sess, Stream(ops))
    ensures var p := Parse(hs, sess, Stream(ops));
      && p.Running? && p.pending == [] && p.sess.phase == Later
      && p.sess.events == sess.events + Expected(ops, id, sess.skipLeft)
    decreases |ops|
  {
    hide Parse, Willing, Live, Packet, OpLegal, Added, IdAfter, SkipAfter, Consistent;
    LegalSized(ops, Heard(sess));
    LivePhase(sess, id);
    if ops == [] {
      ParseNothing(hs, sess);
      LaterConsistent(sess, []);
      assert sess.events + [] == sess.events;
    } else {
      var sess' := DeliveryStep(hs, sess, id, ops[0], Stream(ops[1..]));
      Delivery(hs, sess', IdAfter(ops[0], id), ops[1..]);
      Associate(sess.events, Added(ops[0], id, sess.skipLeft), Expected(ops[1..], IdAfter(ops[0], id), sess'.skipLeft));
      LaterConsistent(sess, Stream(ops));
    }
  }

  lemma LivePhase(sess: Session, id: nat)
    requires Live(sess, id)
    ensures sess.phase == Later
  {
  }

  lemma DeliveryStep(hs: Handlers, sess: Session, id: nat, op: Op, rest: seq<byte>) returns (sess': Session)
    requires Willing(hs) && Live(sess, id) && OpLegal(op, Heard(sess))
    ensures Live(sess', IdAfter(op, id)) && Heard(sess') == After(op, Heard(sess))
    ensures sess'.skipLeft == SkipAfter(op, sess.skipLeft)
    ensures sess'.events == sess.events + Added(op, id, sess.skipLeft)
    ensures Consistent(sess, Packet(op) + rest)
    ensures Parse(hs, sess, Packet(op) + rest) == Parse(hs, sess', rest)
  {
    hide Parse, Willing, Consistent, MediaInfoPacket, FramePacket, NullPacket, FrameLegal;
    match op
    case Info(m, extra) => sess' := InfoStep(hs, sess, id, m, extra, rest);
    case Idle =>
      IdleStep(hs, sess, rest);
      sess' := sess;
      assert sess.events + [] == sess.events;
    case _ => sess' := FrameStep(hs, sess, id, op.frame, FrameData(op), rest);
  }

  /** A connect packet: its header and data. */
  predicate ConnectPacket(c: seq<byte>) {
    |c| >= CONNECT_SIZE && ConnectOk(c[..CONNECT_SIZE]) && PacketSize(c) == |c|
  }

  function InitialId(c: seq<byte>): u64
    requires |c| >= CONNECT_SIZE
  {
    Long(c[..CONNECT_SIZE], 80)
  }

  /** What the handlers see of the connect packet. */
  function Greeting(hs: Handlers, c: seq<byte>): seq<Event>
    requires ConnectPacket(c)
  {
    ConnectSize(c);
    [Connected(c[..CONNECT_SIZE])] + if hs.wantsConnectData then [ConnectData(c[DecHeader(c).headerSize..])] else []
  }

  /** The handlers accept the connection. */
  predicate Welcomes(hs: Handlers, c: seq<byte>)
    requires ConnectPacket(c)
  {
    && hs.connected(c[..CONNECT_SIZE]).Accept?
    && (hs.wantsConnectData ==> hs.react([Connected(c[..CONNECT_SIZE])], Greeting(hs, c)[1]) == Took)
  }

  /** What a stream starts from: the receiver says how many frames it has already. */
  function Reply(hs: Handlers, c: seq<byte>): Context
    requires ConnectPacket(c) && Welcomes(hs, c)
  {
    var reply := hs.connected(c[..CONNECT_SIZE]);
    NOTHING.(skip := reply.skipCount, skipKey := reply.skipWaitKey)
  }

  /** What the handlers see of a whole stream. */
  function Shown(hs: Handlers, c: seq<byte>, ops: seq<Op>): seq<Event>
    requires ConnectPacket(c) && Welcomes(hs, c) && AllSized(ops)
  {
    Greeting(hs, c) + Expected(ops, InitialId(c), Reply(hs, c).skip)
  }

  lemma Opening(hs: Handlers, sess: Session, c: seq<byte>, rest: seq<byte>) returns (sess': Session)
    requires sess.phase == Awaiting && sess.events == [] && Heard(sess) == NOTHING
    requires ConnectPacket(c) && Welcomes(hs, c)
    ensures Live(sess', InitialId(c)) && sess'.events == Greeting(hs, c)
    ensures Heard(sess') == Reply(hs, c)
    ensures Consistent(sess, c + rest) && Parse(hs, sess, c + rest) == Parse(hs, sess', rest)
  {
    hide Parse, DecHeader, ConnectOk, Long, OnConnectData;
    ConnectSize(c);
    ConnectHeader(c);
    var head, data := c[..CONNECT_SIZE], c[CONNECT_SIZE..];
    var sess1 := OnConnect(hs, sess, head).0;
    assert c + rest == head + data + rest;
    assert (c + rest)[..CONNECT_SIZE] == head;
    assert head[..CONNECT_SIZE] == head;
    WholeFirst(hs, sess1, head, data, rest);
    ParseAwaiting(hs, sess, c + rest);
    sess' := ConnectDataStep(hs, sess1, c);
    IdSmall(InitialId(c));
  }

  lemma IdSmall(id: u64)
    ensures Wrap(id) == id
  {
  }

  lemma ParseAwaiting(hs: Handlers, sess: Session, s: seq<byte>)
    requires sess.phase == Awaiting && |s| >= CONNECT_SIZE && OnConnect(hs, sess, s[..CONNECT_SIZE]).1.Go?
    ensures var sess' := OnConnect(hs, sess, s[..CONNECT_SIZE]).0;
      Consistent(sess, s) && Consistent(sess', s) && Parse(hs, sess, s) == Parse(hs, sess', s)
  {
    hide DecHeader, OnConnect;
    OnConnectPhase(hs, sess, s[..CONNECT_SIZE]);
  }

  lemma ConnectDataStep(hs: Handlers, sess: Session, c: seq<byte>) returns (sess': Session)
    requires ConnectPacket(c) && Welcomes(hs, c) && sess.events == [Connected(c[..CONNECT_SIZE])]
    requires CONNECT_SIZE <= DecHeader(c).headerSize <= |c|
    ensures sess' == sess.(phase := Later, events := Greeting(hs, c))
    ensures var (s, st) := OnConnectData(hs, sess, DecHeader(c), c[CONNECT_SIZE..]);
      st == Go && s.(phase := Later) == sess'
  {
    hide DecHeader, ConnectOk;
    var data, k := c[CONNECT_SIZE..], DecHeader(c).headerSize - CONNECT_SIZE;
    assert data[k..] == c[DecHeader(c).headerSize..];
    sess' := OnConnectData(hs, sess, DecHeader(c), data).0.(phase := Later);
  }

  /** End to end: for any run of writes, any connect packet before it and any way of cutting
      the bytes into reads, the handlers see the connection, then the same media infos and
      frames in order, frame k carrying id initial + k, but for those they asked to skip. */
  lemma EndToEnd(hs: Handlers, c: seq<byte>, ops: seq<Op>, chunks: seq<seq<byte>>)
    requires ConnectPacket(c) && Welcomes(hs, c) && Willing(hs) && Legal(ops, Reply(hs, c))
    requires AllSized(ops) && Flat(chunks) == c + Stream(ops)
    ensures Settled(hs, START)
    ensures var p := FeedAll(hs, START, chunks);
      p.Running? && p.pending == [] && p.sess.phase == Later && p.sess.events == Shown(hs, c, ops)
  {
    ChunkIndependence(hs, chunks);
    var id := InitialId(c);
    assert Shown(hs, c, ops) == Greeting(hs, c) + Expected(ops, id, Reply(hs, c).skip);
    ReplyIs(hs, c);
    hide *;
    NewSessionIs(NEW_SESSION);
    var sess := Opening(hs, NEW_SESSION, c, Stream(ops));
    Delivery(hs, sess, id, ops);
  }

  lemma ReplyIs(hs: Handlers, c: seq<byte>)
    requires ConnectPacket(c) && Welcomes(hs, c)
    ensures forall sess :: Heard(sess) == Reply(hs, c) ==> sess.skipLeft == Reply(hs, c).skip
  {
  }

  lemma NewSessionIs(sess: Session)
    requires sess == NEW_SESSION
    ensures sess.phase == Awaiting && sess.events == [] && Heard(sess) == NOTHING
  {
  }

  /** The end packet behind the run ends the session, as it should. */
  lemma EndToEndFinished(hs: Handlers, c: seq<byte>, ops: seq<Op>, chunks: seq<seq<byte>>)
    requires ConnectPacket(c) && Welcomes(hs, c) && Willing(hs) && Legal(ops, Reply(hs, c))
    requires AllSized(ops) && Flat(chunks) == c + Stream(ops) + EndPacket()
    ensures Settled(hs, START)
    ensures var p := FeedAll(hs, START, chunks);
      p.Ended? && p.rc == 200 && p.sess.events == Shown(hs, c, ops) + [EndOfStream]
  {
    hide *;
    ChunkIndependence(hs, chunks);
    var s := c + Stream(ops);
    FlatOne(s);
    EndToEnd(hs, c, ops, [s]);
    ChunkIndependence(hs, [s]);
    StartConsistent(s);
    ParseSplit(hs, NEW_SESSION, s, EndPacket());
    EndStep(hs, Parse(hs, NEW_SESSION, s));
  }

  lemma FlatOne(s: seq<byte>)
    ensures Flat([s]) == s
  {
    FlatNone<byte>();
    FlatHead([s]);
    assert [s][1..] == [] && s + [] == s;
  }

  lemma EndStep(hs: Handlers, p: Parsed)
    requires p.Running? && p.pending == [] && p.sess.phase == Later
    ensures Feed(hs, p, EndPacket()) == Ended(p.sess.(events := p.sess.events + [EndOfStream]), 200)
  {
    hide EncHeader, Parse;
    var h := Header(PACKET_END_OF_STREAM, HDR_SIZE, 0, 0);
    assert EndPacket() == EncHeader(h) + [] + [] && [] + EndPacket() == EndPacket();
    OnePacket(hs, p.sess, h, [], []);
  }

  /** And if only a part of the bytes has come through so far, they have seen a part of that. */
  lemma EndToEndSoFar(hs: Handlers, c: seq<byte>, ops: seq<Op>, chunks: seq<seq<byte>>)
    requires ConnectPacket(c) && Welcomes(hs, c) && Willing(hs) && Legal(ops, Reply(hs, c))
    requires AllSized(ops) && Flat(chunks) <= c + Stream(ops)
    ensures Settled(hs, START)
    ensures var p := FeedAll(hs, START, chunks);
      p.Running? && p.sess.events <= Shown(hs, c, ops)
  {
    hide *;
    ghost var s, all := Flat(chunks), c + Stream(ops);
    var rest := all[|s|..];
    assert s + rest == all;
    ChunkIndependence(hs, chunks);
    FlatSnoc(chunks, rest);
    EndToEnd(hs, c, ops, chunks + [rest]);
    ChunkIndependence(hs, chunks + [rest]);
    PartSeen(hs, s, rest);
  }

  /** A session that is alive after more bytes was alive before, and had seen no more. */
  lemma PartSeen(hs: Handlers, s: seq<byte>, rest: seq<byte>)
    requires Parse(hs, NEW_SESSION, s + rest).Running?
    ensures Parse(hs, NEW_SESSION, s).Running?
    ensures Parse(hs, NEW_SESSION, s).sess.events <= Parse(hs, NEW_SESSION, s + rest).sess.events
  {
    StartConsistent(s);
    ParsedConsistent(hs, NEW_SESSION, s);
    ParseSplit(hs, NEW_SESSION, s, rest);
    hide Parse;
    var p := Parse(hs, NEW_SESSION, s);
    if p.Running? {
      ConsistentMore(p.sess, p.pending, rest);
      EventsGrow(hs, p.sess, p.pending + rest);
    }
  }

  method WriteOp(t: Track, op: Op, ghost x: Context) returns (ok: bool)
    requires t.Valid() && OpLegal(op, x) && (x.timescale != 0 ==> t.queue.bufs != [])
    modifies t, t.queue
    ensures t.Safe() && (ok ==> t.Valid() && t.stream == old(t.stream) + Packet(op) && t.open == old(t.open))
    ensures ok && After(op, x).timescale != 0 ==> t.queue.bufs != []
    ensures !ok ==> t.Stuck() && t.Sendable() <= old(t.stream) + Packet(op)
    ensures !ok ==> |old(t.stream)| <= |t.stream| <= |old(t.stream) + Packet(op)|
    ensures Broken(t.upstreams) == Broken(old(t.upstreams)) && Kept(old(t.upstreams), t.upstreams, |t.stream|)
  {
    hide Track.Valid, Track.Safe, Track.Stuck, Track.Sendable, Broken, Kept, MediaInfoPacket, FramePacket, NullPacket,
      EncHeader, EncFrame;
    match op {
      case Info(m, extra) =>
        ok := t.WriteMediaInfo(m, extra);
      case Whole(f, input, off) =>
        var size := ChainSize(input, off);
        WholeIs(f, FrameData(op));
        ok := t.WriteFrame(Header(PACKET_FRAME, FRAME_PACKET_SIZE, size, 0), f, input, off);
      case Pieces(f, pieces) =>
        ok := t.WriteFrameInPieces(f, pieces);
        return;
      case Idle =>
        ok := t.KeepAlive();
    }
    if !ok {
      t.SendableWithin(old(t.stream) + Packet(op));
    }
  }

  /** Writes a run on a track. Whatever happens, what may be sent is a part of its packets. */
  method WriteAll(t: Track, ops: seq<Op>, ghost x: Context) returns (ok: bool)
    requires t.Valid() && Legal(ops, x) && (x.timescale != 0 ==> t.queue.bufs != [])
    modifies t, t.queue
    ensures AllSized(ops) && t.Safe()
    ensures ok ==> t.Valid() && t.stream == old(t.stream) + Stream(ops) && t.open == old(t.open)
    ensures t.Sendable() <= old(t.stream) + Stream(ops)
    ensures !ok ==> t.Stuck() && |old(t.stream)| <= |t.stream| <= |old(t.stream) + Stream(ops)|
    ensures Broken(t.upstreams) == Broken(old(t.upstreams)) && Kept(old(t.upstreams), t.upstreams, |t.stream|)
    decreases |ops|
  {
    hide Track.Valid, Track.Safe, Track.Stuck, Track.Sendable, Broken, Kept, Packet, OpLegal, After;
    LegalSized(ops, x);
    SafeTrack(t);
    if ops == [] {
      t.SendableWithin(t.stream);
      KeptRefl(t.upstreams, |t.stream|);
      return true;
    }
    ghost var before := t.stream;
    ok := WriteOp(t, ops[0], x);
    Associate(before, Packet(ops[0]), Stream(ops[1..]));
    if ok {
      ghost var us, n0 := t.upstreams, |t.stream|;
      ok := WriteAll(t, ops[1..], After(ops[0], x));
      KeptTrans(old(t.upstreams), us, t.upstreams, n0, |t.stream|);
    }
  }

  lemma SafeTrack(t: Track)
    requires t.Valid()
    ensures t.Safe()
  {
  }

  /** The header of a frame written at once is filled in by its caller. */
  method ChainSize(input: seq<seq<byte>>, off: nat) returns (size: nat)
    requires input != [] && off <= |input[0]|
    ensures size == |From(input, 0, off)|
  {
    FlatNone<byte>();
    size := |input[0]| - off;
    assert input[1..][..0] == [];
    for i := 1 to |input|
      invariant size == |input[0]| - off + |Flat(input[1..][..i - 1])|
    {
      FlatPrefixSnoc(input[1..], i - 1);
      size := size + |input[i]|;
    }
    assert input[1..][..|input| - 1] == input[1..];
  }

  lemma WholeIs(f: Frame, data: seq<byte>)
    requires |data| < U32
    ensures FramePacket(f, data) == EncHeader(Header(PACKET_FRAME, FRAME_PACKET_SIZE, |data|, 0)) + EncFrame(f) + data
  {
  }

  /** With connections that take data, and memory for the whole stream, writing cannot fail. */
  lemma CannotFail(t: Track, n: nat)
    requires t.Safe() && !Broken(t.upstreams) && t.Ample(n) && |t.stream| <= n
    ensures !t.Stuck()
  {
    hide Track.Safe, Track.Ample, Broken;
    t.EnoughMemory(n);
  }

  /** Every connection takes n bytes at once. */
  ghost predicate Wide(us: seq<Upstream>, n: nat) {
    forall i :: 0 <= i < |us| ==> us[i].ready && us[i].window >= n
  }

  /** Writes a run on a track and flushes it: a connection that is still ready has taken
      all of it, and with wide connections and memory for the stream all of them have. */
  method Broadcast(t: Track, ops: seq<Op>, ghost x: Context) returns (ok: bool)
    requires t.Valid() && t.stream == [] && t.open == [] && Legal(ops, x) && x.timescale == 0
    modifies t, t.queue
    ensures AllSized(ops) && t.Safe() && |t.upstreams| == |old(t.upstreams)| && t.Sendable() <= Stream(ops)
    ensures ok ==> forall i :: 0 <= i < |t.upstreams| && t.upstreams[i].ready ==> t.upstreams[i].wire == Stream(ops)
    ensures !Broken(old(t.upstreams)) && t.Ample(|Stream(ops)|) && Wide(old(t.upstreams), |Stream(ops)|) ==>
      ok && forall i :: 0 <= i < |t.upstreams| ==> t.upstreams[i].wire == Stream(ops)
  {
    hide Track.Valid, Track.Safe, Track.Ample, Track.Freed, Track.Sendable, Broken, Kept, Legal;
    ok := WriteAll(t, ops, x);
    if ok {
      assert [] + Stream(ops) == Stream(ops);
      ghost var us := t.upstreams;
      ok := t.Flush();
      KeptTrans(old(t.upstreams), us, t.upstreams, |t.stream|, |t.stream|);
      t.SendableWithin(Stream(ops));
    } else if !Broken(t.upstreams) && t.Ample(|Stream(ops)|) {
      CannotFail(t, |Stream(ops)|);
    }
    StillWide(old(t.upstreams), t.upstreams, |t.stream|);
  }

  lemma StillWide(us: seq<Upstream>, us': seq<Upstream>, n: nat)
    requires Kept(us, us', n)
    ensures |us'| == |us| && (Wide(us, n) ==> Wide(us', n))
  {
    forall i | 0 <= i < |us| && Wide(us, n) ensures us'[i].ready && us'[i].window >= n {
      KeptAt(us, us', n, i);
    }
  }

  /** A track and a session joined: the run is written, and whatever way the bytes of an
      upstream are cut on the way, the handlers at its other end see the first part of the
      run, and the whole run if the connection is ready in the end. With wide connections
      and memory for the stream, they do. */
  method Transmit(t: Track, i: nat, hs: Handlers, c: seq<byte>, ops: seq<Op>, cut: seq<byte> -> seq<seq<byte>>,
                  capacity: nat -> nat)
    returns (ok: bool, k: KmpIn)
    requires t.Valid() && t.stream == [] && t.open == [] && i < |t.upstreams|
    requires ConnectPacket(c) && Welcomes(hs, c) && Willing(hs) && Legal(ops, Reply(hs, c))
    requires (forall s :: Flat(cut(s)) == s) && (forall i :: capacity(i) > 0)
    modifies t, t.queue
    ensures AllSized(ops) && fresh(k) && k.Valid() && k.events <= Shown(hs, c, ops)
    ensures i < |t.upstreams| && (ok && t.upstreams[i].ready ==> k.events == Shown(hs, c, ops))
    ensures !Broken(old(t.upstreams)) && t.Ample(|Stream(ops)|) && Wide(old(t.upstreams), |Stream(ops)|) ==>
      ok && k.events == Shown(hs, c, ops)
  {
    hide Track.Valid, Track.Safe, Track.Ample, Track.Sendable, Broken, KmpIn.Valid, Greeting, Expected, ConnectPacket,
      Welcomes, Willing, Legal, Wide, Shown;
    ReplyStart(hs, c);
    ok := Broadcast(t, ops, Reply(hs, c));
    k := Relay(t, i, hs, c, ops, cut, capacity);
  }

  /** Writes a run and ends the track. */
  method WriteToEnd(t: Track, i: nat, ops: seq<Op>, ghost x: Context) returns (ok: bool)
    requires t.Valid() && t.stream == [] && t.open == [] && i < |t.upstreams| && Legal(ops, x) && x.timescale == 0
    modifies t, t.queue
    ensures i < |t.upstreams| && AllSized(ops)
    ensures ok && t.upstreams[i].ready ==> t.upstreams[i].wire == Stream(ops) + EndPacket()
  {
    hide Track.Valid, Track.Safe, Track.Freed, Track.Sendable, Track.Stuck, Broken, Kept, Legal, EndPacket;
    ok := WriteAll(t, ops, x);
    KeptAt(old(t.upstreams), t.upstreams, |t.stream|, i);
    if ok {
      assert [] + Stream(ops) == Stream(ops);
      ghost var us := t.upstreams;
      ValidNoError(t);
      ok := t.SendEndOfStream();
      KeptAt(us, t.upstreams, |t.stream|, i);
    }
  }

  /** A finished track: the run, the end packet, and a flush. The handlers at the end of an
      upstream whose connection is ready in the end see the run and its end. */
  method Finish(t: Track, i: nat, hs: Handlers, c: seq<byte>, ops: seq<Op>, cut: seq<byte> -> seq<seq<byte>>,
                capacity: nat -> nat)
    returns (ok: bool, k: KmpIn, st: Status)
    requires t.Valid() && t.stream == [] && t.open == [] && i < |t.upstreams|
    requires ConnectPacket(c) && Welcomes(hs, c) && Willing(hs) && Legal(ops, Reply(hs, c))
    requires (forall s :: Flat(cut(s)) == s) && (forall i :: capacity(i) > 0)
    modifies t, t.queue
    ensures i < |t.upstreams| && AllSized(ops) && fresh(k) && k.Owned()
    ensures ok && t.upstreams[i].ready ==> st == Stop(200) && k.events == Shown(hs, c, ops) + [EndOfStream]
  {
    hide *;
    ReplyStart(hs, c);
    ok := WriteToEnd(t, i, ops, Reply(hs, c));
    var chunks := cut(c + t.upstreams[i].wire);
    k, st := Serve(hs, chunks, capacity);
    if ok && t.upstreams[i].ready {
      Associate(c, Stream(ops), EndPacket());
      EndToEndFinished(hs, c, ops, chunks);
      ChunkIndependence(hs, chunks);
      StartConsistent(Flat(chunks));
      ArrivedEnded(k, st, Parse(hs, NEW_SESSION, Flat(chunks)));
    }
  }

  lemma ValidNoError(t: Track)
    requires t.Valid()
    ensures t.Safe() && !t.writeError
  {
  }

  lemma ArrivedEnded(k: KmpIn, st: Status, p: Parsed)
    requires k.Arrived(st, p) && p.Ended?
    ensures st == Stop(p.rc) && k.events == p.sess.events
  {
  }

  lemma ReplyStart(hs: Handlers, c: seq<byte>)
    requires ConnectPacket(c) && Welcomes(hs, c)
    ensures Reply(hs, c).timescale == 0
  {
  }

  /** At any moment of a run, also after a failure, what an upstream has sent makes the
      handlers at its other end see the first part of the run, and all of it once
      everything is sent. */
  method Relay(t: Track, i: nat, hs: Handlers, c: seq<byte>, ops: seq<Op>, cut: seq<byte> -> seq<seq<byte>>,
    capacity: nat -> nat)
    returns (k: KmpIn)
    requires t.Safe() && i < |t.upstreams| && AllSized(ops) && t.Sendable() <= Stream(ops)
    requires ConnectPacket(c) && Welcomes(hs, c) && Willing(hs) && Legal(ops, Reply(hs, c))
    requires (forall s :: Flat(cut(s)) == s) && (forall i :: capacity(i) > 0)
    ensures fresh(k) && k.Valid() && k.events <= Shown(hs, c, ops)
    ensures t.upstreams[i].wire == Stream(ops) ==> k.events == Shown(hs, c, ops)
  {
    hide Track.Valid, Track.Safe, Track.Sendable, KmpIn.Valid, Parse, Greeting, Expected, ConnectPacket, Welcomes,
      Willing, Legal;
    t.WireSendable(i);
    var chunks := cut(c + t.upstreams[i].wire);
    EndToEndSoFar(hs, c, ops, chunks);
    if t.upstreams[i].wire == Stream(ops) {
      EndToEnd(hs, c, ops, chunks);
    }
    ChunkIndependence(hs, chunks);
    var st;
    k, st := Serve(hs, chunks, capacity);
  }
}
