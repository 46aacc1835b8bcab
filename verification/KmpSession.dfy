/** What a KMP connection means: the one-shot reading of its byte stream. Packets are
    taken whole from the front of the stream, and each is answered by a session step. */
module KmpSession {
  import opened Bytes
  import opened KmpFormat

  const OK: int := 200
  const BAD_REQUEST: int := 400
  const INTERNAL_ERROR: int := 500

  datatype Event =
    | Connected(header: seq<byte>)
    | ConnectData(data: seq<byte>)
    | NewMediaInfo(info: MediaInfo, extra: seq<byte>)
    | NewFrame(id: u64, frame: Frame, data: seq<byte>)
    | EndOfStream

  /** What a handler returns: it took ownership of the data, left it, or failed. */
  datatype Outcome = Took | Left | Abort | Error

  datatype ConnectReply = Accept(skipCount: u64, skipWaitKey: bool) | Refuse(rc: int)

  /** The event handlers of a session; each may depend on all events so far. */
  datatype Handlers = Handlers(
    connected: seq<byte> -> ConnectReply,
    wantsConnectData: bool,
    react: (seq<Event>, Event) -> Outcome)

  datatype Stats = Stats(frames: nat, keyFrames: nat, dataBytes: nat,
                         duplicate: nat, empty: nat, emptyDuration: nat, noMediaInfo: nat, noKey: nat)
  {
    /** All frame packets counted so far. */
    function Total(): nat {
      frames + duplicate + empty + emptyDuration + noMediaInfo + noKey
    }
  }

  /** Before the connect packet header, inside the connect packet, after it. */
  datatype Phase = Awaiting | First | Later

  datatype Session = Session(
    phase: Phase,
    events: seq<Event>,
    initialId: u64,
    curId: u64,
    skipCount: u64,
    skipLeft: u64,
    skipWaitKey: bool,
    waitKey: bool,
    timescale: u32,
    mediaType: u32,
    stats: Stats)

  const NEW_SESSION: Session :=
    Session(Awaiting, [], 0, 0, 0, 0, false, false, 0, 0, Stats(0, 0, 0, 0, 0, 0, 0, 0))

  datatype Status = Go | Stop(rc: int)

  function IsKey(fl: u32): bool { fl % 2 == 1 }

  predicate KnownType(t: u32) {
    t == PACKET_CONNECT || t == PACKET_MEDIA_INFO || t == PACKET_FRAME || t == PACKET_NULL || t == PACKET_END_OF_STREAM
  }

  predicate HeaderOk(h: Header) {
    KnownType(h.ptype) && HDR_SIZE <= h.headerSize <= MAX_HEADER_SIZE && h.dataSize <= MAX_DATA_SIZE
  }

  predicate ConnectOk(s: seq<byte>)
    requires |s| == CONNECT_SIZE
  {
    var h := DecHeader(s);
    && h.ptype == PACKET_CONNECT && CONNECT_SIZE <= h.headerSize <= MAX_HEADER_SIZE && h.dataSize <= MAX_DATA_SIZE
    && Long(s, 80) < INVALID_FRAME_ID
  }

  /** The connect packet header is complete. */
  function OnConnect(hs: Handlers, sess: Session, s: seq<byte>): (Session, Status)
    requires |s| == CONNECT_SIZE
  {
    if !ConnectOk(s) then (sess, Stop(BAD_REQUEST))
    else
      var sess' := sess.(events := sess.events + [Connected(s)]);
      match hs.connected(s)
      case Refuse(rc) => (sess', Stop(rc))
      case Accept(skip, waitKey) =>
        (sess'.(phase := First, initialId := Long(s, 80), curId := Long(s, 80), skipCount := skip, skipLeft := skip,
                skipWaitKey := waitKey), Go)
  }

  /** Hands an event to its handler. */
  function Emit(hs: Handlers, sess: Session, e: Event): (Session, Outcome) {
    (sess.(events := sess.events + [e]), hs.react(sess.events, e))
  }

  /** A connect packet is complete; `body` is what follows the part already read. */
  function OnConnectData(hs: Handlers, sess: Session, h: Header, body: seq<byte>): (Session, Status)
    requires h.headerSize <= |body| + CONNECT_SIZE
  {
    if !hs.wantsConnectData then (sess, Go)
    else
      var skip := if h.headerSize > CONNECT_SIZE then h.headerSize - CONNECT_SIZE else 0;
      var (sess', o) := Emit(hs, sess, ConnectData(body[skip..]));
      (sess', if o == Took then Go else if o == Abort then Stop(INTERNAL_ERROR) else Stop(BAD_REQUEST))
  }

  function OnMediaInfo(hs: Handlers, sess: Session, h: Header, body: seq<byte>): (Session, Status)
    requires HDR_SIZE <= h.headerSize <= |body| + HDR_SIZE
  {
    if h.headerSize - HDR_SIZE < MEDIA_INFO_SIZE then (sess, Stop(BAD_REQUEST))
    else
      var info := DecMediaInfo(body);
      if info.timescale == 0 then (sess, Stop(BAD_REQUEST))
      else
        var (sess', o) := Emit(hs, sess, NewMediaInfo(info, body[h.headerSize - HDR_SIZE..]));
        match o
        case Abort => (sess', Stop(INTERNAL_ERROR))
        case Error => (sess', Stop(BAD_REQUEST))
        case _ => (sess'.(timescale := info.timescale, mediaType := info.mediaType,
                          waitKey := info.mediaType == MEDIA_VIDEO), Go)
  }

  /** Frame ids are 64-bit counters. */
  function Wrap(n: nat): u64 { n % U64 }

  function NextId(sess: Session): Session {
    sess.(curId := Wrap(sess.curId + 1))
  }

  /** A frame is delivered, or counted under the first reason to skip it. */
  function TakeFrame(hs: Handlers, sess: Session, frame: Frame, size: nat, data: seq<byte>): (Session, Status) {
    var st := sess.stats;
    if sess.skipLeft > 0 then
      var left := sess.skipLeft - 1;
      (sess.(skipLeft := left, stats := st.(duplicate := st.duplicate + 1),
             waitKey := sess.waitKey && !(left == 0 && sess.skipWaitKey)), Go)
    else if sess.timescale == 0 then
      (sess.(stats := st.(noMediaInfo := st.noMediaInfo + 1)), Go)
    else if size == 0 then
      (sess.(stats := st.(empty := st.empty + 1)), Go)
    else if sess.mediaType == MEDIA_SUBTITLE && frame.ptsDelay <= 0 then
      (sess.(stats := st.(emptyDuration := st.emptyDuration + 1)), Go)
    else if sess.waitKey && !IsKey(frame.fl) then
      (sess.(stats := st.(noKey := st.noKey + 1)), Go)
    else
      var sess1 := sess.(waitKey := false, stats := st.(frames := st.frames + 1,
        keyFrames := st.keyFrames + if IsKey(frame.fl) then 1 else 0, dataBytes := st.dataBytes + size));
      var (sess2, o) := Emit(hs, sess1, NewFrame(sess.curId, frame.(fl := frame.fl % 2), data));
      (sess2, if o == Abort then Stop(INTERNAL_ERROR) else if o == Error then Stop(BAD_REQUEST) else Go)
  }

  function OnFrame(hs: Handlers, sess: Session, h: Header, body: seq<byte>): (Session, Status)
    requires HDR_SIZE <= h.headerSize && h.headerSize + h.dataSize == |body| + HDR_SIZE
  {
    if h.headerSize - HDR_SIZE < FRAME_SIZE then (sess, Stop(BAD_REQUEST))
    else
      var (sess', st) := TakeFrame(hs, sess, DecFrame(body), h.dataSize, body[h.headerSize - HDR_SIZE..]);
      (if st.Go? then NextId(sess') else sess', st)
  }

  /** A packet behind the connect packet is complete. */
  function OnPacket(hs: Handlers, sess: Session, h: Header, body: seq<byte>): (Session, Status)
    requires HeaderOk(h) && h.headerSize + h.dataSize == |body| + HDR_SIZE
  {
    if h.ptype == PACKET_CONNECT then OnConnectData(hs, sess, h, body)
    else if h.ptype == PACKET_MEDIA_INFO then OnMediaInfo(hs, sess, h, body)
    else if h.ptype == PACKET_FRAME then OnFrame(hs, sess, h, body)
    else if h.ptype == PACKET_NULL then (sess, Go)
    else (Emit(hs, sess, EndOfStream).0, Stop(OK))
  }

  /** A session in progress, with the bytes of the packet still incomplete, or over. */
  datatype Parsed = Running(sess: Session, pending: seq<byte>) | Ended(sess: Session, rc: int)

  ghost predicate Consistent(sess: Session, s: seq<byte>) {
    sess.phase == First ==> |s| >= CONNECT_SIZE && ConnectOk(s[..CONNECT_SIZE])
  }

  function Rank(p: Phase): nat {
    match p case Awaiting => 2 case First => 1 case Later => 0
  }

  /** The total length of the packet at the front of s. */
  function PacketSize(s: seq<byte>): nat
    requires |s| >= HDR_SIZE
  {
    DecHeader(s).headerSize + DecHeader(s).dataSize
  }

  lemma ConnectHeader(s: seq<byte>)
    requires |s| >= CONNECT_SIZE
    ensures DecHeader(s) == DecHeader(s[..CONNECT_SIZE])
  {
    forall i: nat | i <= 12 ensures Word(s, i) == Word(s[..CONNECT_SIZE], i) {
      assert s[..CONNECT_SIZE][i..i + 4] == s[i..i + 4];
    }
  }

  /** One-shot reading of all the packets that s completes. */
  function Parse(hs: Handlers, sess: Session, s: seq<byte>): Parsed
    requires Consistent(sess, s)
    decreases |s|, Rank(sess.phase)
  {
    match sess.phase
    case Awaiting =>
      if |s| < CONNECT_SIZE then Running(sess, s)
      else
        var (sess', st) := OnConnect(hs, sess, s[..CONNECT_SIZE]);
        if st.Stop? then Ended(sess', st.rc) else Parse(hs, sess', s)
    case First =>
      ConnectHeader(s);
      var size := PacketSize(s);
      if |s| < size then Running(sess, s)
      else
        var (sess', st) := OnConnectData(hs, sess, DecHeader(s), s[CONNECT_SIZE..size]);
        if st.Stop? then Ended(sess', st.rc) else Parse(hs, sess'.(phase := Later), s[size..])
    case Later =>
      if |s| < HDR_SIZE then Running(sess, s)
      else if !HeaderOk(DecHeader(s)) then Ended(sess, BAD_REQUEST)
      else
        var size := PacketSize(s);
        if |s| < size then Running(sess, s)
        else
          var (sess', st) := OnPacket(hs, sess, DecHeader(s), s[HDR_SIZE..size]);
          if st.Stop? then Ended(sess', st.rc) else Parse(hs, sess'.(phase := Later), s[size..])
  }

  /** Reading some more of the stream. */
  function Feed(hs: Handlers, p: Parsed, chunk: seq<byte>): Parsed
    requires p.Running? ==> Consistent(p.sess, p.pending)
  {
    match p
    case Running(sess, pending) => ConsistentMore(sess, pending, chunk); Parse(hs, sess, pending + chunk)
    case Ended(_, _) => p
  }

  lemma ConsistentMore(sess: Session, s: seq<byte>, t: seq<byte>)
    requires Consistent(sess, s)
    ensures Consistent(sess, s + t)
  {
    if sess.phase == First {
      assert (s + t)[..CONNECT_SIZE] == s[..CONNECT_SIZE];
    }
  }

  lemma HeaderMore(s: seq<byte>, t: seq<byte>)
    requires |s| >= HDR_SIZE
    ensures DecHeader(s + t) == DecHeader(s)
  {
    forall i: nat | i <= 12 ensures Word(s + t, i) == Word(s, i) {
      assert (s + t)[i..i + 4] == s[i..i + 4];
    }
  }

  /** What a read leaves pending is consistent, and incomplete. */
  lemma {:induction false} ParsedConsistent(hs: Handlers, sess: Session, s: seq<byte>)
    requires Consistent(sess, s)
    ensures var p := Parse(hs, sess, s);
      p.Running? ==> Consistent(p.sess, p.pending) && Parse(hs, p.sess, p.pending) == p
    decreases |s|, Rank(sess.phase)
  {
    hide OnConnect, OnConnectData, OnPacket, HeaderOk, DecHeader;
    match sess.phase
    case Awaiting =>
      if |s| >= CONNECT_SIZE {
        OnConnectPhase(hs, sess, s[..CONNECT_SIZE]);
        var (sess', st) := OnConnect(hs, sess, s[..CONNECT_SIZE]);
        if st.Go? {
          ParsedConsistent(hs, sess', s);
        }
      }
    case First =>
      ConnectHeader(s);
      ConnectSize(s);
      var size := PacketSize(s);
      if |s| >= size {
        var (sess', st) := OnConnectData(hs, sess, DecHeader(s), s[CONNECT_SIZE..size]);
        ParsedConsistent(hs, sess'.(phase := Later), s[size..]);
      }
    case Later =>
      if |s| >= HDR_SIZE && HeaderOk(DecHeader(s)) {
        LaterSize(s);
        var size := PacketSize(s);
        if |s| >= size {
          var (sess', st) := OnPacket(hs, sess, DecHeader(s), s[HDR_SIZE..size]);
          ParsedConsistent(hs, sess'.(phase := Later), s[size..]);
        }
      }
  }

  lemma OnConnectPhase(hs: Handlers, sess: Session, s: seq<byte>)
    requires |s| == CONNECT_SIZE
    ensures OnConnect(hs, sess, s).1.Go? ==> ConnectOk(s) && OnConnect(hs, sess, s).0.phase == First
  {
  }

  lemma ConnectSize(s: seq<byte>)
    requires |s| >= CONNECT_SIZE && ConnectOk(s[..CONNECT_SIZE])
    ensures CONNECT_SIZE <= DecHeader(s).headerSize <= PacketSize(s)
  {
    ConnectHeader(s);
  }

  lemma LaterSize(s: seq<byte>)
    requires |s| >= HDR_SIZE && HeaderOk(DecHeader(s))
    ensures HDR_SIZE <= DecHeader(s).headerSize <= PacketSize(s)
  {
  }

  /** Reading a stream in two pieces is reading it in one. */
  lemma {:induction false} ParseSplit(hs: Handlers, sess: Session, s: seq<byte>, t: seq<byte>)
    requires Consistent(sess, s)
    ensures var p := Parse(hs, sess, s);
      && (p.Running? ==> Consistent(p.sess, p.pending))
      && Consistent(sess, s + t)
      && Parse(hs, sess, s + t) == Feed(hs, p, t)
    decreases |s|, Rank(sess.phase)
  {
    ConsistentMore(sess, s, t);
    ParsedConsistent(hs, sess, s);
    match sess.phase
    case Awaiting =>
      if |s| >= CONNECT_SIZE {
        assert (s + t)[..CONNECT_SIZE] == s[..CONNECT_SIZE];
        var (sess', st) := OnConnect(hs, sess, s[..CONNECT_SIZE]);
        OnConnectPhase(hs, sess, s[..CONNECT_SIZE]);
        hide OnConnect, DecHeader;
        if st.Go? {
          ParseSplit(hs, sess', s, t);
        }
      }
    case First => SplitFirst(hs, sess, s, t);
    case Later => SplitLater(hs, sess, s, t);
  }

  lemma SplitFirst(hs: Handlers, sess: Session, s: seq<byte>, t: seq<byte>)
    requires sess.phase == First && Consistent(sess, s) && Consistent(sess, s + t)
    requires var p := Parse(hs, sess, s); p.Running? ==> Consistent(p.sess, p.pending)
    ensures Parse(hs, sess, s + t) == Feed(hs, Parse(hs, sess, s), t)
    decreases |s|, Rank(sess.phase), 0
  {
    hide OnConnectData, DecHeader;
    HeaderMore(s, t);
    ConnectSize(s);
    var size := PacketSize(s);
    if |s| >= size {
      assert (s + t)[CONNECT_SIZE..size] == s[CONNECT_SIZE..size];
      assert (s + t)[size..] == s[size..] + t;
      var (sess', st) := OnConnectData(hs, sess, DecHeader(s), s[CONNECT_SIZE..size]);
      ParseSplit(hs, sess'.(phase := Later), s[size..], t);
    }
  }

  lemma SplitLater(hs: Handlers, sess: Session, s: seq<byte>, t: seq<byte>)
    requires sess.phase == Later && Consistent(sess, s) && Consistent(sess, s + t)
    requires var p := Parse(hs, sess, s); p.Running? ==> Consistent(p.sess, p.pending)
    ensures Parse(hs, sess, s + t) == Feed(hs, Parse(hs, sess, s), t)
    decreases |s|, Rank(sess.phase), 0
  {
    hide OnPacket, DecHeader;
    if |s| >= HDR_SIZE {
      HeaderMore(s, t);
      if HeaderOk(DecHeader(s)) {
        LaterSize(s);
        var size := PacketSize(s);
        if |s| >= size {
          assert (s + t)[HDR_SIZE..size] == s[HDR_SIZE..size];
          assert (s + t)[size..] == s[size..] + t;
          var (sess', st) := OnPacket(hs, sess, DecHeader(s), s[HDR_SIZE..size]);
          ParseSplit(hs, sess'.(phase := Later), s[size..], t);
        }
      }
    }
  }
}
