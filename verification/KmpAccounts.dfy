/** Properties of KMP sessions over whole streams: independence from how the stream is
    cut into reads, and the accounting of frame ids. */
module KmpAccounts {
  import opened Sequences
  import opened Bytes
  import opened KmpFormat
  import opened KmpSession

  /** A state that reading can be in: nothing more can be taken from what is pending. */
  ghost predicate Settled(hs: Handlers, p: Parsed) {
    p.Running? ==> Consistent(p.sess, p.pending) && Parse(hs, p.sess, p.pending) == p
  }

  const START: Parsed := Running(NEW_SESSION, [])

  lemma FeedSettled(hs: Handlers, p: Parsed, chunk: seq<byte>)
    requires Settled(hs, p)
    ensures Settled(hs, Feed(hs, p, chunk))
  {
    if p.Running? {
      ConsistentMore(p.sess, p.pending, chunk);
      ParsedConsistent(hs, p.sess, p.pending + chunk);
    }
  }

  function FeedAll(hs: Handlers, p: Parsed, chunks: seq<seq<byte>>): Parsed
    requires Settled(hs, p)
    decreases |chunks|
  {
    if chunks == [] then p
    else FeedSettled(hs, p, chunks[0]); FeedAll(hs, Feed(hs, p, chunks[0]), chunks[1..])
  }

  lemma {:induction false} FeedAllIsFeed(hs: Handlers, p: Parsed, chunks: seq<seq<byte>>)
    requires Settled(hs, p)
    ensures FeedAll(hs, p, chunks) == Feed(hs, p, Flat(chunks))
    decreases |chunks|
  {
    if chunks == [] {
      if p.Running? {
        assert p.pending + [] == p.pending;
      }
    } else {
      FeedSettled(hs, p, chunks[0]);
      FeedAllIsFeed(hs, Feed(hs, p, chunks[0]), chunks[1..]);
      FeedTwice(hs, p, chunks[0], Flat(chunks[1..]));
    }
  }

  lemma FeedTwice(hs: Handlers, p: Parsed, a: seq<byte>, b: seq<byte>)
    requires Settled(hs, p) && Settled(hs, Feed(hs, p, a))
    ensures Feed(hs, Feed(hs, p, a), b) == Feed(hs, p, a + b)
  {
    hide Parse, Consistent;
    if p.Running? {
      ConsistentMore(p.sess, p.pending, a);
      ParseSplit(hs, p.sess, p.pending + a, b);
      Associate(p.pending, a, b);
    }
  }

  /** For every byte stream, valid or not, and any two ways of cutting it into reads, the
      events with their data and the way the session ends are the same: those of reading
      the stream in one piece. */
  lemma ChunkIndependence(hs: Handlers, chunks: seq<seq<byte>>)
    ensures Settled(hs, START)
    ensures FeedAll(hs, START, chunks) == Parse(hs, NEW_SESSION, Flat(chunks))
  {
    FeedAllIsFeed(hs, START, chunks);
    assert [] + Flat(chunks) == Flat(chunks);
  }

  /** The frames delivered so far. */
  function Delivered(es: seq<Event>): seq<Event> {
    DeliveredIn(es, |es|)
  }

  function DeliveredIn(es: seq<Event>, n: nat): seq<Event>
    requires n <= |es|
  {
    if n == 0 then [] else DeliveredIn(es, n - 1) + if es[n - 1].NewFrame? then [es[n - 1]] else []
  }

  /** Every frame packet moves the current id and exactly one counter; delivered frame j is
      frame packet number ks[j], behind the prefix to skip, and carries that packet's id. */
  ghost predicate Accounted(sess: Session, ks: seq<nat>) {
    && sess.curId == Wrap(sess.initialId + sess.stats.Total())
    && sess.stats.duplicate + sess.skipLeft == sess.skipCount
    && |Delivered(sess.events)| == |ks| == sess.stats.frames
    && (forall i, j :: 0 <= i < j < |ks| ==> ks[i] < ks[j])
    && (forall j :: 0 <= j < |ks| ==>
          && sess.skipCount <= ks[j] < sess.stats.Total()
          && Delivered(sess.events)[j].NewFrame?
          && Delivered(sess.events)[j].id == Wrap(sess.initialId + ks[j]))
    && (sess.phase == Awaiting ==> ks == [] && sess.stats.Total() == 0)
  }

  lemma {:induction false} DeliveredPrefix(es: seq<Event>, fs: seq<Event>, n: nat)
    requires n <= |es|
    ensures DeliveredIn(es + fs, n) == DeliveredIn(es, n)
  {
    if n > 0 {
      DeliveredPrefix(es, fs, n - 1);
    }
  }

  lemma EmitDelivered(es: seq<Event>, e: Event)
    ensures Delivered(es + [e]) == Delivered(es) + if e.NewFrame? then [e] else []
  {
    DeliveredPrefix(es, [e], |es|);
  }

  lemma IdStep(a: nat, k: nat)
    ensures Wrap(Wrap(a + k) + 1) == Wrap(a + (k + 1))
  {
  }

  lemma FrameAccounts(hs: Handlers, sess: Session, h: Header, body: seq<byte>, ks: seq<nat>) returns (ks': seq<nat>)
    requires Accounted(sess, ks) && sess.phase != Awaiting
    requires HDR_SIZE <= h.headerSize && h.headerSize + h.dataSize == |body| + HDR_SIZE
    ensures OnFrame(hs, sess, h, body).1.Go? ==> Accounted(OnFrame(hs, sess, h, body).0, ks')
  {
    hide DecFrame, Delivered, IsKey, Wrap, Accounted;
    ks' := ks;
    var sess' := OnFrame(hs, sess, h, body).0;
    if OnFrame(hs, sess, h, body).1.Go? {
      if sess'.stats.frames > sess.stats.frames {
        assert sess'.events == sess.events + [sess'.events[|sess.events|]];
        FrameDelivered(sess, sess', ks, sess'.events[|sess.events|]);
        ks' := ks + [sess.stats.Total()];
      } else {
        FrameSkipped(sess, sess', ks);
      }
    }
  }

  lemma FrameDelivered(sess: Session, sess': Session, ks: seq<nat>, e: Event)
    requires Accounted(sess, ks) && sess.phase != Awaiting && sess.skipLeft == 0
    requires e.NewFrame? && e.id == sess.curId && sess'.events == sess.events + [e]
    requires sess'.curId == Wrap(sess.curId + 1) && sess'.initialId == sess.initialId && sess'.phase == sess.phase
    requires sess'.skipCount == sess.skipCount && sess'.skipLeft == 0 && sess'.stats.duplicate == sess.stats.duplicate
    requires sess'.stats.frames == sess.stats.frames + 1 && sess'.stats.Total() == sess.stats.Total() + 1
    ensures Accounted(sess', ks + [sess.stats.Total()])
  {
    hide Delivered, Wrap;
    IdStep(sess.initialId, sess.stats.Total());
    EmitDelivered(sess.events, e);
  }

  lemma FrameSkipped(sess: Session, sess': Session, ks: seq<nat>)
    requires Accounted(sess, ks) && sess.phase != Awaiting && sess'.events == sess.events
    requires sess'.curId == Wrap(sess.curId + 1) && sess'.initialId == sess.initialId && sess'.phase == sess.phase
    requires sess'.skipCount == sess.skipCount
    requires sess'.stats.duplicate + sess'.skipLeft == sess.stats.duplicate + sess.skipLeft
    requires sess'.stats.frames == sess.stats.frames && sess'.stats.Total() == sess.stats.Total() + 1
    ensures Accounted(sess', ks)
  {
    hide Delivered, Wrap;
    IdStep(sess.initialId, sess.stats.Total());
  }

  lemma PacketAccounts(hs: Handlers, sess: Session, h: Header, body: seq<byte>, ks: seq<nat>) returns (ks': seq<nat>)
    requires Accounted(sess, ks) && sess.phase != Awaiting
    requires HeaderOk(h) && h.headerSize + h.dataSize == |body| + HDR_SIZE
    ensures OnPacket(hs, sess, h, body).1.Go? ==> Accounted(OnPacket(hs, sess, h, body).0.(phase := Later), ks')
  {
    ks' := ks;
    if h.ptype == PACKET_FRAME {
      hide OnFrame, HeaderOk;
      ks' := FrameAccounts(hs, sess, h, body, ks);
    } else {
      hide OnFrame, Delivered, DecMediaInfo;
      EventsAccount(hs, sess, h, body, ks);
    }
  }

  lemma EventsAccount(hs: Handlers, sess: Session, h: Header, body: seq<byte>, ks: seq<nat>)
    requires Accounted(sess, ks) && sess.phase != Awaiting
    requires HeaderOk(h) && h.headerSize + h.dataSize == |body| + HDR_SIZE && h.ptype != PACKET_FRAME
    ensures Accounted(OnPacket(hs, sess, h, body).0.(phase := Later), ks)
  {
    hide Delivered, DecMediaInfo, Accounted;
    var sess' := OnPacket(hs, sess, h, body).0.(phase := Later);
    if |sess'.events| > |sess.events| {
      assert sess'.events == sess.events + [sess'.events[|sess.events|]];
    }
    OtherEvent(sess, sess', ks);
  }

  /** An event that is not a frame. */
  lemma OtherEvent(sess: Session, sess': Session, ks: seq<nat>)
    requires Accounted(sess, ks) && sess.phase != Awaiting && sess'.phase == Later
    requires sess'.events != sess.events ==> exists e: Event :: !e.NewFrame? && sess'.events == sess.events + [e]
    requires sess'.curId == sess.curId && sess'.initialId == sess.initialId && sess'.stats == sess.stats
    requires sess'.skipCount == sess.skipCount && sess'.skipLeft == sess.skipLeft
    ensures Accounted(sess', ks)
  {
    hide Delivered, Wrap;
    if sess'.events != sess.events {
      var e: Event :| !e.NewFrame? && sess'.events == sess.events + [e];
      EmitDelivered(sess.events, e);
    }
  }

  lemma ConnectAccounts(hs: Handlers, sess: Session, h: Header, body: seq<byte>, ks: seq<nat>)
    requires Accounted(sess, ks) && sess.phase != Awaiting && h.headerSize <= |body| + CONNECT_SIZE
    ensures Accounted(OnConnectData(hs, sess, h, body).0.(phase := Later), ks)
  {
    hide Delivered;
    var sess' := OnConnectData(hs, sess, h, body).0;
    if |sess'.events| > |sess.events| {
      EmitDelivered(sess.events, sess'.events[|sess.events|]);
    }
  }

  lemma OpenAccounts(hs: Handlers, sess: Session, s: seq<byte>)
    requires Accounted(sess, []) && sess.phase == Awaiting && |s| == CONNECT_SIZE
    ensures OnConnect(hs, sess, s).1.Go? ==> Accounted(OnConnect(hs, sess, s).0, [])
  {
    hide Delivered;
    var (sess', st) := OnConnect(hs, sess, s);
    EmitDelivered(sess.events, Connected(s));
  }

  /** The accounting holds in every reachable live session. */
  lemma {:induction false} ParseAccounts(hs: Handlers, sess: Session, s: seq<byte>, ks: seq<nat>)
    returns (ks': seq<nat>)
    requires Consistent(sess, s) && Accounted(sess, ks)
    ensures var p := Parse(hs, sess, s); p.Running? ==> Accounted(p.sess, ks')
    decreases |s|, Rank(sess.phase)
  {
    hide OnConnect, OnConnectData, OnPacket, HeaderOk, DecHeader, Accounted;
    ks' := ks;
    match sess.phase
    case Awaiting =>
      if |s| >= CONNECT_SIZE {
        OnConnectPhase(hs, sess, s[..CONNECT_SIZE]);
        NoFramesYet(sess, ks);
        OpenAccounts(hs, sess, s[..CONNECT_SIZE]);
        var (sess', st) := OnConnect(hs, sess, s[..CONNECT_SIZE]);
        if st.Go? {
          ks' := ParseAccounts(hs, sess', s, []);
        }
      }
    case First =>
      ConnectSize(s);
      var size := PacketSize(s);
      if |s| >= size {
        var (sess', st) := OnConnectData(hs, sess, DecHeader(s), s[CONNECT_SIZE..size]);
        ConnectAccounts(hs, sess, DecHeader(s), s[CONNECT_SIZE..size], ks);
        ks' := ParseAccounts(hs, sess'.(phase := Later), s[size..], ks);
      }
    case Later =>
      if |s| >= HDR_SIZE && HeaderOk(DecHeader(s)) {
        LaterSize(s);
        var size := PacketSize(s);
        if |s| >= size {
          var (sess', st) := OnPacket(hs, sess, DecHeader(s), s[HDR_SIZE..size]);
          var ks1 := PacketAccounts(hs, sess, DecHeader(s), s[HDR_SIZE..size], ks);
          if st.Go? {
            ks' := ParseAccounts(hs, sess'.(phase := Later), s[size..], ks1);
          }
        }
      }
  }

  lemma NoFramesYet(sess: Session, ks: seq<nat>)
    requires Accounted(sess, ks) && sess.phase == Awaiting
    ensures ks == []
  {
  }

  lemma FreshAccounted(sess: Session)
    requires sess.events == [] && sess.curId == sess.initialId == sess.skipLeft == sess.skipCount == 0
    requires sess.stats.Total() == 0 && sess.stats.duplicate == 0 && sess.stats.frames == 0
    ensures Accounted(sess, [])
  {
    hide Wrap;
    SmallWrap(sess.initialId + sess.stats.Total());
  }

  lemma SmallWrap(n: nat)
    requires n < U64
    ensures Wrap(n) == n
  {
  }

  lemma StartAccounted()
    ensures Accounted(NEW_SESSION, [])
  {
    hide Accounted;
    assert NEW_SESSION.stats.duplicate == 0 && NEW_SESSION.stats.frames == 0;
    FreshAccounted(NEW_SESSION);
  }

  lemma StartConsistent(s: seq<byte>)
    ensures Consistent(NEW_SESSION, s)
  {
    hide ConnectOk;
  }

  /** ... from the start of every stream. */
  lemma StreamAccounts(hs: Handlers, chunks: seq<seq<byte>>) returns (ks: seq<nat>)
    ensures Settled(hs, START)
    ensures var p := FeedAll(hs, START, chunks); p.Running? ==> Accounted(p.sess, ks)
  {
    ChunkIndependence(hs, chunks);
    hide *;
    StartAccounted();
    StartConsistent(Flat(chunks));
    ks := ParseAccounts(hs, NEW_SESSION, Flat(chunks), []);
  }

  lemma OpenGrows(hs: Handlers, sess: Session, s: seq<byte>)
    requires |s| == CONNECT_SIZE
    ensures sess.events <= OnConnect(hs, sess, s).0.events
  {
    hide DecHeader, ConnectOk;
  }

  lemma ConnectGrows(hs: Handlers, sess: Session, h: Header, body: seq<byte>)
    requires CONNECT_SIZE <= h.headerSize <= |body| + CONNECT_SIZE
    ensures sess.events <= OnConnectData(hs, sess, h, body).0.events
  {
  }

  lemma PacketGrows(hs: Handlers, sess: Session, h: Header, body: seq<byte>)
    requires HeaderOk(h) && h.headerSize + h.dataSize == |body| + HDR_SIZE
    ensures sess.events <= OnPacket(hs, sess, h, body).0.events
  {
    hide DecMediaInfo, DecFrame;
  }

  /** What the handlers have seen is never taken back. */
  lemma {:induction false} EventsGrow(hs: Handlers, sess: Session, s: seq<byte>)
    requires Consistent(sess, s)
    ensures sess.events <= Parse(hs, sess, s).sess.events
    decreases |s|, Rank(sess.phase)
  {
    hide OnConnect, OnConnectData, OnPacket, HeaderOk, DecHeader;
    match sess.phase
    case Awaiting =>
      if |s| >= CONNECT_SIZE {
        OnConnectPhase(hs, sess, s[..CONNECT_SIZE]);
        OpenGrows(hs, sess, s[..CONNECT_SIZE]);
        var (sess', st) := OnConnect(hs, sess, s[..CONNECT_SIZE]);
        if st.Go? {
          EventsGrow(hs, sess', s);
        }
      }
    case First =>
      ConnectSize(s);
      var size := PacketSize(s);
      if |s| >= size {
        ConnectGrows(hs, sess, DecHeader(s), s[CONNECT_SIZE..size]);
        var (sess', st) := OnConnectData(hs, sess, DecHeader(s), s[CONNECT_SIZE..size]);
        if st.Go? {
          EventsGrow(hs, sess'.(phase := Later), s[size..]);
        }
      }
    case Later =>
      if |s| >= HDR_SIZE && HeaderOk(DecHeader(s)) {
        LaterSize(s);
        var size := PacketSize(s);
        if |s| >= size {
          PacketGrows(hs, sess, DecHeader(s), s[HDR_SIZE..size]);
          var (sess', st) := OnPacket(hs, sess, DecHeader(s), s[HDR_SIZE..size]);
          if st.Go? {
            EventsGrow(hs, sess'.(phase := Later), s[size..]);
          }
        }
      }
  }
}
