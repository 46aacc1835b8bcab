/** Which frames a receiver delivers and why it drops the others, told from the packets of
    the stream, without the state of the session. */
module KmpReasons {
  import opened Sequences
  import opened Bytes
  import opened KmpFormat
  import opened KmpSession
  import opened KmpAccounts
  import opened Wrappers

  /** A packet behind the connect packet, taken apart. */
  datatype Packet =
    | Info(info: MediaInfo, extra: seq<byte>)
    | Picture(frame: Frame, data: seq<byte>)
    | Note(data: seq<byte>)
    | End
    | Nothing

  /** A media info without a timescale, like one or a frame that is cut short, says nothing. */
  function Taken(h: Header, body: seq<byte>): Packet
    requires HeaderOk(h) && h.headerSize + h.dataSize == |body| + HDR_SIZE
  {
    var k := h.headerSize - HDR_SIZE;
    if h.ptype == PACKET_MEDIA_INFO && k >= MEDIA_INFO_SIZE && DecMediaInfo(body).timescale > 0 then
      Info(DecMediaInfo(body), body[k..])
    else if h.ptype == PACKET_FRAME && k >= FRAME_SIZE then Picture(DecFrame(body), body[k..])
    else if h.ptype == PACKET_CONNECT then
      Note(body[if h.headerSize > CONNECT_SIZE then h.headerSize - CONNECT_SIZE else 0..])
    else if h.ptype == PACKET_END_OF_STREAM then End
    else Nothing
  }

  /** The complete packets at the front of a stream. */
  function Packets(s: seq<byte>): seq<Packet> {
    if |s| < HDR_SIZE || !HeaderOk(DecHeader(s)) || |s| < PacketSize(s) then []
    else
      var size := PacketSize(s);
      [Taken(DecHeader(s), s[HDR_SIZE..size])] + Packets(s[size..])
  }

  /** How many of the first n packets are frames. */
  function Pictures(ps: seq<Packet>, n: nat): (k: nat)
    requires n <= |ps|
    ensures k <= n
  {
    if n == 0 then 0 else Pictures(ps, n - 1) + if ps[n - 1].Picture? then 1 else 0
  }

  /** The last media info among the first n packets. */
  function LastInfo(ps: seq<Packet>, n: nat): (r: Option<nat>)
    requires n <= |ps|
    ensures r.Some? ==> r.value < n && ps[r.value].Info?
    ensures r.Some? ==> forall j :: r.value < j < n ==> !ps[j].Info?
    ensures r == None ==> forall j :: 0 <= j < n ==> !ps[j].Info?
  {
    if n == 0 then None else if ps[n - 1].Info? then Some(n - 1) else LastInfo(ps, n - 1)
  }

  datatype Reason = Duplicate | NoMediaInfo | Empty | EmptyDuration | NoKey | Kept

  /** The receiver asked to skip `skip` frames, and may have the last of them stand for a
      key frame. */
  datatype Resume = Resume(skip: nat, standsForKey: bool)

  /** Why frame packet k is dropped, or that it is kept. */
  ghost function Why(ps: seq<Packet>, k: nat, r: Resume): Reason
    requires k < |ps| && ps[k].Picture?
    decreases k, 1
  {
    var m := LastInfo(ps, k);
    if Pictures(ps, k) < r.skip then Duplicate
    else if m == None then NoMediaInfo
    else if ps[k].data == [] then Empty
    else if ps[m.value].info.mediaType == MEDIA_SUBTITLE && ps[k].frame.ptsDelay <= 0 then EmptyDuration
    else if Waits(ps, k, r) && ps[k].frame.fl % 2 == 0 then NoKey
    else Kept
  }

  /** Packet j is the last frame to skip, and stands for a key frame. */
  ghost predicate Resumes(ps: seq<Packet>, j: nat, r: Resume)
    requires j < |ps|
  {
    ps[j].Picture? && r.standsForKey && Pictures(ps, j) + 1 == r.skip
  }

  /** The last of the first n media infos is a video's, and since then neither a frame was
      kept nor the frames to skip came to their end. */
  ghost predicate Waits(ps: seq<Packet>, n: nat, r: Resume)
    requires n <= |ps|
    decreases n, 0
  {
    var m := LastInfo(ps, n);
    && m.Some? && ps[m.value].info.mediaType == MEDIA_VIDEO
    && forall j :: m.value < j < n && ps[j].Picture? ==> Why(ps, j, r) != Kept && !Resumes(ps, j, r)
  }

  /** How many of the first n packets have their own reason. */
  ghost function Tally(ps: seq<Packet>, n: nat, r: Resume, why: Reason): nat
    requires n <= |ps|
  {
    if n == 0 then 0
    else Tally(ps, n - 1, r, why) + if ps[n - 1].Picture? && Why(ps, n - 1, r) == why then 1 else 0
  }

  /** How many of the first n packets are kept key frames. */
  ghost function KeyTally(ps: seq<Packet>, n: nat, r: Resume): nat
    requires n <= |ps|
  {
    if n == 0 then 0
    else
      KeyTally(ps, n - 1, r) +
      if ps[n - 1].Picture? && Why(ps, n - 1, r) == Kept && ps[n - 1].frame.fl % 2 == 1 then 1 else 0
  }

  /** How many bytes the kept frames among the first n packets have. */
  ghost function ByteTally(ps: seq<Packet>, n: nat, r: Resume): nat
    requires n <= |ps|
  {
    if n == 0 then 0
    else ByteTally(ps, n - 1, r) + if ps[n - 1].Picture? && Why(ps, n - 1, r) == Kept then |ps[n - 1].data| else 0
  }

  /** What packet k shows the handlers. */
  ghost function Shows(ps: seq<Packet>, k: nat, r: Resume, id: nat, wants: bool): seq<Event>
    requires k < |ps|
  {
    match ps[k]
    case Info(info, extra) => [NewMediaInfo(info, extra)]
    case Picture(f, data) =>
      if Why(ps, k, r) == Kept then [NewFrame(Wrap(id + Pictures(ps, k)), f.(fl := f.fl % 2), data)] else []
    case Note(data) => if wants then [ConnectData(data)] else []
    case End => [EndOfStream]
    case Nothing => []
  }

  ghost function Story(base: seq<Event>, ps: seq<Packet>, n: nat, r: Resume, id: nat, wants: bool): seq<Event>
    requires n <= |ps|
  {
    if n == 0 then base else Story(base, ps, n - 1, r, id, wants) + Shows(ps, n - 1, r, id, wants)
  }

  /** The session after n packets. */
  ghost predicate Told(hs: Handlers, sess: Session, base: seq<Event>, ps: seq<Packet>, n: nat, r: Resume, id: nat) {
    && n <= |ps| && sess.phase == Later
    && sess.skipLeft == (if Pictures(ps, n) < r.skip then r.skip - Pictures(ps, n) else 0)
    && sess.skipWaitKey == r.standsForKey && sess.curId == Wrap(id + Pictures(ps, n))
    && Announced(sess, ps, n)
    && sess.waitKey == Waits(ps, n, r)
    && Counted(sess.stats, ps, n, r)
    && sess.events == Story(base, ps, n, r, id, hs.wantsConnectData)
  }

  ghost predicate Announced(sess: Session, ps: seq<Packet>, n: nat)
    requires n <= |ps|
  {
    match LastInfo(ps, n)
    case None => sess.timescale == 0
    case Some(m) => sess.timescale == ps[m].info.timescale > 0 && sess.mediaType == ps[m].info.mediaType
  }

  /** Each counter counts the frames with its own reason; of those kept, the key frames and
      the bytes are counted, too. */
  ghost predicate Counted(st: Stats, ps: seq<Packet>, n: nat, r: Resume)
    requires n <= |ps|
  {
    && st.duplicate == Tally(ps, n, r, Duplicate) && st.noMediaInfo == Tally(ps, n, r, NoMediaInfo)
    && st.empty == Tally(ps, n, r, Empty) && st.emptyDuration == Tally(ps, n, r, EmptyDuration)
    && st.noKey == Tally(ps, n, r, NoKey) && st.frames == Tally(ps, n, r, Kept)
    && st.keyFrames == KeyTally(ps, n, r) && st.dataBytes == ByteTally(ps, n, r)
  }

  lemma WaitsNext(ps: seq<Packet>, n: nat, r: Resume)
    requires n < |ps|
    ensures Waits(ps, n + 1, r) ==
      if ps[n].Info? then ps[n].info.mediaType == MEDIA_VIDEO
      else Waits(ps, n, r) && !(ps[n].Picture? && (Why(ps, n, r) == Kept || Resumes(ps, n, r)))
  {
    hide Why, Resumes;
    assert LastInfo(ps, n + 1) == if ps[n].Info? then Some(n) else LastInfo(ps, n);
  }

  lemma StoryNext(base: seq<Event>, ps: seq<Packet>, n: nat, r: Resume, id: nat, wants: bool)
    requires n < |ps|
    ensures Story(base, ps, n + 1, r, id, wants) == Story(base, ps, n, r, id, wants) + Shows(ps, n, r, id, wants)
  {
  }

  /** One more frame, counted under `why`. */
  ghost predicate Bumped(st: Stats, st': Stats, why: Reason, p: Packet)
    requires p.Picture?
  {
    && st'.keyFrames == st.keyFrames + (if why == Kept && p.frame.fl % 2 == 1 then 1 else 0)
    && st'.dataBytes == st.dataBytes + (if why == Kept then |p.data| else 0)
    && st'.duplicate == st.duplicate + (if why == Duplicate then 1 else 0)
    && st'.noMediaInfo == st.noMediaInfo + (if why == NoMediaInfo then 1 else 0)
    && st'.empty == st.empty + (if why == Empty then 1 else 0)
    && st'.emptyDuration == st.emptyDuration + (if why == EmptyDuration then 1 else 0)
    && st'.noKey == st.noKey + (if why == NoKey then 1 else 0)
    && st'.frames == st.frames + (if why == Kept then 1 else 0)
  }

  lemma CountedNext(st: Stats, st': Stats, ps: seq<Packet>, n: nat, r: Resume)
    requires n < |ps| && Counted(st, ps, n, r)
    requires if ps[n].Picture? then Bumped(st, st', Why(ps, n, r), ps[n]) else st' == st
    ensures Counted(st', ps, n + 1, r)
  {
    hide Why;
  }

  /** What the state decides is what the packets tell. */
  lemma TakesFor(hs: Handlers, sess: Session, base: seq<Event>, ps: seq<Packet>, n: nat, r: Resume, id: nat)
    requires Told(hs, sess, base, ps, n, r, id) && n < |ps| && ps[n].Picture?
    ensures var (f, data, why) := (ps[n].frame, ps[n].data, Why(ps, n, r));
      var sess' := TakeFrame(hs, sess, f, |data|, data).0;
      && Bumped(sess.stats, sess'.stats, why, ps[n])
      && sess'.events == sess.events + (if why == Kept then [NewFrame(sess.curId, f.(fl := f.fl % 2), data)] else [])
      && sess'.skipLeft == (if why == Duplicate then sess.skipLeft - 1 else sess.skipLeft)
      && sess'.waitKey == (sess.waitKey && why != Kept && !Resumes(ps, n, r))
      && sess' == sess.(stats := sess'.stats, events := sess'.events, skipLeft := sess'.skipLeft,
        waitKey := sess'.waitKey)
  {
    hide Waits, Wrap, Counted, Story;
    assert sess.events + [] == sess.events;
  }

  lemma PictureTold(hs: Handlers, sess: Session, base: seq<Event>, ps: seq<Packet>, n: nat, r: Resume, id: nat,
                    h: Header, body: seq<byte>)
    requires Told(hs, sess, base, ps, n, r, id) && n < |ps| && ps[n].Picture?
    requires HeaderOk(h) && h.headerSize + h.dataSize == |body| + HDR_SIZE && ps[n] == Taken(h, body)
    ensures var (sess', st) := OnPacket(hs, sess, h, body);
      && sess'.events == Story(base, ps, n + 1, r, id, hs.wantsConnectData)
      && (st.Go? ==> Told(hs, sess', base, ps, n + 1, r, id))
  {
    TakesFor(hs, sess, base, ps, n, r, id);
    hide DecFrame, DecMediaInfo, Waits, Wrap, KnownType, Counted, Story, Why, Bumped, TakeFrame, Resumes;
    assert |ps[n].data| == h.dataSize;
    WaitsNext(ps, n, r);
    IdStep(id, Pictures(ps, n));
    StoryNext(base, ps, n, r, id, hs.wantsConnectData);
    var sess1 := TakeFrame(hs, sess, ps[n].frame, h.dataSize, ps[n].data).0;
    CountedNext(sess.stats, sess1.stats, ps, n, r);
    WhyDuplicate(ps, n, r);
  }

  lemma WhyDuplicate(ps: seq<Packet>, n: nat, r: Resume)
    requires n < |ps| && ps[n].Picture?
    ensures Why(ps, n, r) == Duplicate <==> Pictures(ps, n) < r.skip
    ensures LastInfo(ps, n + 1) == LastInfo(ps, n) && Pictures(ps, n + 1) == Pictures(ps, n) + 1
  {
  }

  lemma OtherTold(hs: Handlers, sess: Session, base: seq<Event>, ps: seq<Packet>, n: nat, r: Resume, id: nat,
                  h: Header, body: seq<byte>)
    requires Told(hs, sess, base, ps, n, r, id) && n < |ps| && !ps[n].Picture?
    requires HeaderOk(h) && h.headerSize + h.dataSize == |body| + HDR_SIZE && ps[n] == Taken(h, body)
    ensures var (sess', st) := OnPacket(hs, sess, h, body);
      && sess'.events == Story(base, ps, n + 1, r, id, hs.wantsConnectData)
      && (st.Go? ==> Told(hs, sess', base, ps, n + 1, r, id))
  {
    hide DecFrame, DecMediaInfo, Waits, Wrap, Counted, Story, Why, Resumes;
    WaitsNext(ps, n, r);
    StoryNext(base, ps, n, r, id, hs.wantsConnectData);
    CountedNext(sess.stats, sess.stats, ps, n, r);
    assert sess.events + [] == sess.events;
  }

  /** For every stream behind an accepted connect packet, valid or not: the handlers see
      what its packets tell, up to where reading stops; while it goes on, the session has
      read all of them, and each counter counts the frames with its own reason. */
  lemma {:induction false} ParseTold(hs: Handlers, sess: Session, s: seq<byte>, base: seq<Event>, ps: seq<Packet>,
                                     n: nat, r: Resume, id: nat) returns (m: nat)
    requires Told(hs, sess, base, ps, n, r, id) && ps[n..] == Packets(s)
    ensures Consistent(sess, s) && m <= |ps|
    ensures var p := Parse(hs, sess, s);
      && p.sess.events == Story(base, ps, m, r, id, hs.wantsConnectData)
      && (p.Running? ==> m == |ps| && Told(hs, p.sess, base, ps, |ps|, r, id))
    decreases |s|
  {
    hide DecHeader, HeaderOk, OnPacket, Story, Taken;
    ToldLater(hs, sess, base, ps, n, r, id);
    m := n;
    if |s| >= HDR_SIZE && HeaderOk(DecHeader(s)) && |s| >= PacketSize(s) {
      LaterSize(s);
      var h, body, rest := DecHeader(s), s[HDR_SIZE..PacketSize(s)], s[PacketSize(s)..];
      assert ps[n] == ps[n..][0] && ps[n + 1..] == ps[n..][1..];
      if ps[n].Picture? {
        PictureTold(hs, sess, base, ps, n, r, id, h, body);
      } else {
        OtherTold(hs, sess, base, ps, n, r, id, h, body);
      }
      var (sess', st) := OnPacket(hs, sess, h, body);
      m := n + 1;
      if st.Go? {
        ToldLater(hs, sess', base, ps, n + 1, r, id);
        hide Told;
        m := ParseTold(hs, sess', rest, base, ps, n + 1, r, id);
      }
    }
  }

  lemma ToldLater(hs: Handlers, sess: Session, base: seq<Event>, ps: seq<Packet>, n: nat, r: Resume, id: nat)
    requires Told(hs, sess, base, ps, n, r, id)
    ensures n <= |ps| && sess.phase == Later && sess.(phase := Later) == sess
    ensures sess.events == Story(base, ps, n, r, id, hs.wantsConnectData)
  {
  }

  /** The connection is accepted, and its connect packet is complete. */
  predicate Connects(hs: Handlers, s: seq<byte>) {
    && |s| >= CONNECT_SIZE && ConnectOk(s[..CONNECT_SIZE]) && hs.connected(s[..CONNECT_SIZE]).Accept?
    && DecHeader(s).headerSize <= PacketSize(s) <= |s|
    && (hs.wantsConnectData ==>
          hs.react([Connected(s[..CONNECT_SIZE])], ConnectData(s[DecHeader(s).headerSize..PacketSize(s)])) == Took)
  }

  function Welcome(hs: Handlers, s: seq<byte>): seq<Event>
    requires Connects(hs, s)
  {
    [Connected(s[..CONNECT_SIZE])] +
    if hs.wantsConnectData then [ConnectData(s[DecHeader(s).headerSize..PacketSize(s)])] else []
  }

  function Asked(hs: Handlers, s: seq<byte>): Resume
    requires Connects(hs, s)
  {
    var reply := hs.connected(s[..CONNECT_SIZE]);
    Resume(reply.skipCount, reply.skipWaitKey)
  }

  /** No media info and no frame. */
  predicate Silent(es: seq<Event>) { forall k :: 0 <= k < |es| ==> !es[k].NewMediaInfo? && !es[k].NewFrame? }

  lemma ToldAtFirst(hs: Handlers, sess: Session, base: seq<Event>, ps: seq<Packet>, r: Resume, id: u64)
    requires sess.phase == Later && sess.events == base && sess.curId == id && sess.skipLeft == r.skip
    requires sess.skipWaitKey == r.standsForKey && !sess.waitKey && sess.timescale == 0
    requires sess.stats == NEW_SESSION.stats
    ensures Told(hs, sess, base, ps, 0, r, id)
  {
    assert Counted(sess.stats, ps, 0, r);
  }

  lemma ConnectBody(hs: Handlers, sess: Session, s: seq<byte>)
    requires sess.phase == First && Consistent(sess, s) && sess.events == [Connected(s[..CONNECT_SIZE])]
    requires |s| >= CONNECT_SIZE && CONNECT_SIZE <= DecHeader(s).headerSize <= PacketSize(s)
    ensures var size, k, p := PacketSize(s), DecHeader(s).headerSize, Parse(hs, sess, s);
      if |s| < size then p == Running(sess, s)
      else if !hs.wantsConnectData then p == Parse(hs, sess.(phase := Later), s[size..])
      else
        var e := ConnectData(s[k..size]);
        var sess' := sess.(events := sess.events + [e]);
        if hs.react(sess.events, e) == Took then p == Parse(hs, sess'.(phase := Later), s[size..])
        else p.Ended? && p.sess == sess'
  {
    hide DecHeader, OnPacket, ConnectOk;
    var size, k := PacketSize(s), DecHeader(s).headerSize;
    ConnectHeader(s);
    if |s| >= size {
      SubSlice(s, CONNECT_SIZE, size, k - CONNECT_SIZE, size - CONNECT_SIZE);
      ToEnd(s[CONNECT_SIZE..size], k - CONNECT_SIZE);
    }
  }

  /** The connect packet: after it the session is new, and the handlers have seen nothing
      else; without it they have not seen a frame. */
  lemma Connecting(hs: Handlers, s: seq<byte>)
    ensures Consistent(NEW_SESSION, s)
    ensures !Connects(hs, s) ==> Silent(Parse(hs, NEW_SESSION, s).sess.events)
    ensures Connects(hs, s) ==>
      var sess := NEW_SESSION.(phase := Later, events := Welcome(hs, s), initialId := Long(s[..CONNECT_SIZE], 80),
        curId := Long(s[..CONNECT_SIZE], 80), skipCount := Asked(hs, s).skip, skipLeft := Asked(hs, s).skip,
        skipWaitKey := Asked(hs, s).standsForKey);
      Consistent(sess, s[PacketSize(s)..]) && Parse(hs, NEW_SESSION, s) == Parse(hs, sess, s[PacketSize(s)..])
  {
    hide DecHeader, Long, OnPacket;
    StartConsistent(s);
    if |s| >= CONNECT_SIZE {
      var c := s[..CONNECT_SIZE];
      OnConnectPhase(hs, NEW_SESSION, c);
      var (sess, st) := OnConnect(hs, NEW_SESSION, c);
      if st.Go? {
        ConnectSize(s);
        ConnectBody(hs, sess, s);
        assert sess.events == [Connected(c)] && [Connected(c)] + [] == [Connected(c)];
        if Connects(hs, s) {
          assert sess.(phase := Later, events := Welcome(hs, s)) == NEW_SESSION.(phase := Later,
            events := Welcome(hs, s),
            initialId := Long(c, 80), curId := Long(c, 80), skipCount := Asked(hs, s).skip,
            skipLeft := Asked(hs, s).skip, skipWaitKey := Asked(hs, s).standsForKey);
        }
      }
    }
  }

  /** For every stream, valid or not, cut into reads in any way: the handlers see what its
      packets tell, and each counter counts the frames with its own reason. */
  lemma StreamTold(hs: Handlers, chunks: seq<seq<byte>>) returns (m: nat)
    requires Connects(hs, Flat(chunks))
    ensures Settled(hs, START)
    ensures var s, p := Flat(chunks), FeedAll(hs, START, chunks);
      var base, r, id := Welcome(hs, s), Asked(hs, s), Long(s[..CONNECT_SIZE], 80);
      var ps := Packets(s[PacketSize(s)..]);
      && m <= |ps| && p.sess.events == Story(base, ps, m, r, id, hs.wantsConnectData)
      && (p.Running? ==> m == |ps| && Told(hs, p.sess, base, ps, |ps|, r, id))
  {
    ChunkIndependence(hs, chunks);
    var s := Flat(chunks);
    Connecting(hs, s);
    var base, r, id := Welcome(hs, s), Asked(hs, s), Long(s[..CONNECT_SIZE], 80);
    var sess := NEW_SESSION.(phase := Later, events := base, initialId := id, curId := id, skipCount := r.skip,
      skipLeft := r.skip, skipWaitKey := r.standsForKey);
    var ps := Packets(s[PacketSize(s)..]);
    hide *;
    ToldAtFirst(hs, sess, base, ps, r, id);
    assert ps[0..] == ps;
    m := ParseTold(hs, sess, s[PacketSize(s)..], base, ps, 0, r, id);
  }

  /** The last media info among the first n events. */
  function InfoAt(es: seq<Event>, n: nat): (r: Option<nat>)
    requires n <= |es|
    ensures r.Some? ==> r.value < n && es[r.value].NewMediaInfo?
  {
    if n == 0 then None else if es[n - 1].NewMediaInfo? then Some(n - 1) else InfoAt(es, n - 1)
  }

  predicate FirstBehind(es: seq<Event>, m: nat, k: nat)
    requires k <= |es|
  {
    forall j :: m < j < k ==> !es[j].NewFrame?
  }

  predicate Between(m: nat, mark: Option<nat>, k: nat) { mark.Some? && m < mark.value <= k }

  /** Frame k has data and a media info before it, a positive duration if it is a subtitle,
      and if it is the first one behind a video media info, it is a key frame, unless the
      frames to skip ended in between, before event `mark`. */
  ghost predicate FrameOk(es: seq<Event>, k: nat, mark: Option<nat>)
    requires k < |es| && es[k].NewFrame?
  {
    var m := InfoAt(es, k);
    && m.Some? && es[k].data != [] && es[m.value].info.timescale > 0
    && (es[m.value].info.mediaType == MEDIA_SUBTITLE ==> es[k].frame.ptsDelay > 0)
    && (es[m.value].info.mediaType == MEDIA_VIDEO && FirstBehind(es, m.value, k) && !Between(m.value, mark, k) ==>
          es[k].frame.fl == 1)
  }

  ghost predicate Credible(es: seq<Event>, mark: Option<nat>) {
    forall k :: 0 <= k < |es| && es[k].NewFrame? ==> FrameOk(es, k, mark)
  }

  lemma {:induction false} InfoAtMore(es: seq<Event>, more: seq<Event>, n: nat)
    requires n <= |es|
    ensures InfoAt(es + more, n) == InfoAt(es, n)
  {
    if n > 0 {
      InfoAtMore(es, more, n - 1);
    }
  }

  lemma FrameOkMore(es: seq<Event>, more: seq<Event>, k: nat, mark: Option<nat>)
    requires k < |es| && es[k].NewFrame? && FrameOk(es, k, mark)
    ensures FrameOk(es + more, k, mark)
  {
    InfoAtMore(es, more, k);
    var t := es + more;
    assert forall j :: 0 <= j < |es| ==> t[j] == es[j];
  }

  lemma {:induction false} StoryGrows(base: seq<Event>, ps: seq<Packet>, j: nat, n: nat, r: Resume, id: nat,
                                      wants: bool)
    requires j <= n <= |ps|
    ensures Story(base, ps, j, r, id, wants) <= Story(base, ps, n, r, id, wants)
  {
    if j < n {
      StoryGrows(base, ps, j, n - 1, r, id, wants);
    }
  }

  /** An event that packet j shows has its place in the story. */
  lemma StoryAt(base: seq<Event>, ps: seq<Packet>, j: nat, n: nat, r: Resume, id: nat, wants: bool)
    requires j < n <= |ps| && |Shows(ps, j, r, id, wants)| == 1
    ensures var at := |Story(base, ps, j, r, id, wants)|;
      && at < |Story(base, ps, j + 1, r, id, wants)| <= |Story(base, ps, n, r, id, wants)|
      && Story(base, ps, n, r, id, wants)[at] == Shows(ps, j, r, id, wants)[0]
  {
    hide Story, Shows;
    StoryNext(base, ps, j, r, id, wants);
    StoryGrows(base, ps, j + 1, n, r, id, wants);
  }

  lemma {:induction false} SilentInfo(es: seq<Event>, n: nat)
    requires Silent(es) && n <= |es|
    ensures InfoAt(es, n) == None
  {
    if n > 0 {
      SilentInfo(es, n - 1);
    }
  }

  lemma InfoSnoc(es: seq<Event>, e: Event)
    ensures InfoAt(es + [e], |es| + 1) == if e.NewMediaInfo? then Some(|es|) else InfoAt(es, |es|)
  {
    InfoAtMore(es, [e], |es|);
  }

  lemma ShowsOne(ps: seq<Packet>, k: nat, r: Resume, id: nat, wants: bool)
    requires k < |ps|
    ensures var x := Shows(ps, k, r, id, wants);
      if ps[k].Info? then x == [NewMediaInfo(ps[k].info, ps[k].extra)]
      else |x| <= 1 && (x == [] || !x[0].NewMediaInfo?)
  {
    hide Why;
  }

  lemma OneOrNone<T>(s: seq<T>, x: seq<T>)
    requires |x| <= 1
    ensures s + x == if x == [] then s else s + [x[0]]
  {
  }

  /** The last media info of the story is that of the packets. */
  lemma {:induction false} StoryInfo(base: seq<Event>, ps: seq<Packet>, n: nat, r: Resume, id: nat, wants: bool)
    requires n <= |ps| && Silent(base)
    ensures var es := Story(base, ps, n, r, id, wants);
      InfoAt(es, |es|) == match LastInfo(ps, n)
        case None => None
        case Some(m) => Some(|Story(base, ps, m, r, id, wants)|)
  {
    hide Shows, InfoAt, Silent;
    if n == 0 {
      SilentInfo(base, |base|);
    } else {
      StoryInfo(base, ps, n - 1, r, id, wants);
      var before, x := Story(base, ps, n - 1, r, id, wants), Shows(ps, n - 1, r, id, wants);
      ShowsOne(ps, n - 1, r, id, wants);
      StoryNext(base, ps, n - 1, r, id, wants);
      OneOrNone(before, x);
      hide Story;
      if x != [] {
        InfoSnoc(before, x[0]);
      }
    }
  }

  lemma {:induction false} PicturesGrow(ps: seq<Packet>, j: nat, n: nat)
    requires j <= n <= |ps|
    ensures Pictures(ps, j) <= Pictures(ps, n)
  {
    if j < n {
      PicturesGrow(ps, j, n - 1);
    }
  }

  /** The frames to skip end once. */
  lemma ResumesOnce(ps: seq<Packet>, j: nat, k: nat, r: Resume)
    requires j < k < |ps|
    ensures !(Resumes(ps, j, r) && Resumes(ps, k, r))
  {
    PicturesGrow(ps, j + 1, k);
  }

  /** Where in the story they end. */
  ghost predicate Marks(base: seq<Event>, ps: seq<Packet>, n: nat, r: Resume, id: nat, wants: bool, mark: Option<nat>)
    requires n <= |ps|
  {
    forall j :: 0 <= j < n && Resumes(ps, j, r) ==> mark == Some(|Story(base, ps, j + 1, r, id, wants)|)
  }

  /** What a kept frame needs of the events before it. */
  lemma FrameBehind(before: seq<Event>, e: Event, m: nat, mark: Option<nat>)
    requires InfoAt(before, |before|) == Some(m) && e.NewFrame? && e.data != []
    requires m < |before| && before[m].NewMediaInfo? && before[m].info.timescale > 0
    requires before[m].info.mediaType == MEDIA_SUBTITLE ==> e.frame.ptsDelay > 0
    requires before[m].info.mediaType == MEDIA_VIDEO && FirstBehind(before, m, |before|) && !Between(m, mark, |before|)
      ==> e.frame.fl == 1
    ensures FrameOk(before + [e], |before|, mark)
  {
    InfoAtMore(before, [e], |before|);
    hide InfoAt;
    assert FirstBehind(before + [e], m, |before|) ==> FirstBehind(before, m, |before|) by {
      FirstBehindMore(before, [e], m, |before|);
    }
  }

  lemma FirstBehindMore(es: seq<Event>, more: seq<Event>, m: nat, k: nat)
    requires k <= |es|
    ensures FirstBehind(es + more, m, k) <==> FirstBehind(es, m, k)
  {
    assert forall j :: 0 <= j < |es| ==> (es + more)[j] == es[j];
  }

  /** After a video media info a frame was kept, or the frames to skip came to their end. */
  lemma Waited(base: seq<Event>, ps: seq<Packet>, k: nat, r: Resume, id: nat, wants: bool, mark: Option<nat>)
    requires k < |ps| && Marks(base, ps, k, r, id, wants, mark)
    requires LastInfo(ps, k).Some? && ps[LastInfo(ps, k).value].info.mediaType == MEDIA_VIDEO && !Waits(ps, k, r)
    ensures var before, m := Story(base, ps, k, r, id, wants), |Story(base, ps, LastInfo(ps, k).value, r, id, wants)|;
      !FirstBehind(before, m, |before|) || Between(m, mark, |before|)
  {
    var m := LastInfo(ps, k).value;
    var before := Story(base, ps, k, r, id, wants);
    var j :| m < j < k && ps[j].Picture? && (Why(ps, j, r) == Kept || Resumes(ps, j, r));
    hide Waits;
    InfoShown(base, ps, m, j, r, id, wants);
    StoryGrows(base, ps, j, k, r, id, wants);
    if Why(ps, j, r) == Kept {
      assert |Shows(ps, j, r, id, wants)| == 1 && Shows(ps, j, r, id, wants)[0].NewFrame? by { hide Why; }
      StoryAt(base, ps, j, k, r, id, wants);
    } else {
      StoryGrows(base, ps, j, j + 1, r, id, wants);
      StoryGrows(base, ps, j + 1, k, r, id, wants);
    }
  }

  lemma InfoShown(base: seq<Event>, ps: seq<Packet>, m: nat, n: nat, r: Resume, id: nat, wants: bool)
    requires m < n <= |ps| && ps[m].Info?
    ensures var at, es := |Story(base, ps, m, r, id, wants)|, Story(base, ps, n, r, id, wants);
      at < |es| && es[at] == NewMediaInfo(ps[m].info, ps[m].extra)
  {
    hide Story, Shows;
    ShowsOne(ps, m, r, id, wants);
    StoryAt(base, ps, m, n, r, id, wants);
  }

  lemma KeptOk(base: seq<Event>, ps: seq<Packet>, k: nat, r: Resume, id: nat, wants: bool, mark: Option<nat>)
    requires k < |ps| && ps[k].Picture? && Why(ps, k, r) == Kept && Silent(base)
    requires Marks(base, ps, k, r, id, wants, mark)
    requires forall j :: 0 <= j < |ps| && ps[j].Info? ==> ps[j].info.timescale > 0
    ensures var before, x := Story(base, ps, k, r, id, wants), Shows(ps, k, r, id, wants);
      |x| == 1 && x[0].NewFrame? && FrameOk(before + [x[0]], |before|, mark)
  {
    var before := Story(base, ps, k, r, id, wants);
    var m := LastInfo(ps, k).value;
    StoryInfo(base, ps, k, r, id, wants);
    InfoShown(base, ps, m, k, r, id, wants);
    hide Story, InfoAt, LastInfo, Pictures, Marks, Silent, FrameOk, Wrap, FirstBehind, Between;
    var at := |Story(base, ps, m, r, id, wants)|;
    assert !Waits(ps, k, r) && ps[m].info.mediaType == MEDIA_VIDEO ==>
        !FirstBehind(before, at, |before|) || Between(at, mark, |before|) by {
      if !Waits(ps, k, r) && ps[m].info.mediaType == MEDIA_VIDEO {
        Waited(base, ps, k, r, id, wants, mark);
      }
    }
    hide Waits;
    FrameBehind(before, Shows(ps, k, r, id, wants)[0], at, mark);
  }

  lemma CredibleMore(before: seq<Event>, x: seq<Event>, mark: Option<nat>)
    requires Credible(before, mark) && |x| <= 1
    requires x != [] && x[0].NewFrame? ==> FrameOk(before + [x[0]], |before|, mark)
    ensures Credible(before + x, mark)
  {
    hide FrameOk;
    OneOrNone(before, x);
    var es := before + x;
    forall k | 0 <= k < |es| && es[k].NewFrame? ensures FrameOk(es, k, mark) {
      if k < |before| {
        FrameOkMore(before, x, k, mark);
      }
    }
  }

  lemma {:induction false} StoryCredible(base: seq<Event>, ps: seq<Packet>, n: nat, r: Resume, id: nat, wants: bool,
                                         mark: Option<nat>)
    requires n <= |ps| && Silent(base) && Marks(base, ps, n, r, id, wants, mark)
    requires forall j :: 0 <= j < |ps| && ps[j].Info? ==> ps[j].info.timescale > 0
    ensures Credible(Story(base, ps, n, r, id, wants), mark)
  {
    hide FrameOk, Resumes, Wrap, Why;
    if n > 0 {
      StoryCredible(base, ps, n - 1, r, id, wants, mark);
      if ps[n - 1].Picture? && Why(ps, n - 1, r) == Kept {
        KeptOk(base, ps, n - 1, r, id, wants, mark);
      }
      FramesKept(ps, n - 1, r, id, wants);
      StoryNext(base, ps, n - 1, r, id, wants);
      hide Credible, Story, Shows;
      CredibleMore(Story(base, ps, n - 1, r, id, wants), Shows(ps, n - 1, r, id, wants), mark);
    }
  }

  lemma FramesKept(ps: seq<Packet>, k: nat, r: Resume, id: nat, wants: bool)
    requires k < |ps|
    ensures var x := Shows(ps, k, r, id, wants);
      |x| <= 1 && (x != [] && x[0].NewFrame? ==> ps[k].Picture? && Why(ps, k, r) == Kept)
  {
    hide Why;
  }

  lemma {:induction false} InfosTimed(s: seq<byte>)
    ensures forall j :: 0 <= j < |Packets(s)| && Packets(s)[j].Info? ==> Packets(s)[j].info.timescale > 0
    decreases |s|
  {
    hide DecHeader, DecMediaInfo, DecFrame, KnownType;
    if |s| >= HDR_SIZE && HeaderOk(DecHeader(s)) && |s| >= PacketSize(s) {
      InfosTimed(s[PacketSize(s)..]);
    }
  }

  lemma Marked(base: seq<Event>, ps: seq<Packet>, n: nat, r: Resume, id: nat, wants: bool) returns (mark: Option<nat>)
    requires n <= |ps|
    ensures Marks(base, ps, n, r, id, wants, mark)
    ensures mark.Some? ==> r.standsForKey && r.skip > 0
  {
    mark := None;
    if j :| 0 <= j < n && Resumes(ps, j, r) {
      mark := Some(|Story(base, ps, j + 1, r, id, wants)|);
      forall k | 0 <= k < n && Resumes(ps, k, r) ensures k == j {
        if k != j {
          ResumesOnce(ps, if j < k then j else k, if j < k then k else j, r);
        }
      }
    }
  }

  lemma SilentWelcome(hs: Handlers, s: seq<byte>)
    requires Connects(hs, s)
    ensures Silent(Welcome(hs, s)) && |s| >= CONNECT_SIZE >= 88 && CONNECT_SIZE >= HDR_SIZE && PacketSize(s) <= |s|
  {
    hide DecHeader, ConnectOk;
  }

  lemma SilentCredible(es: seq<Event>)
    requires Silent(es)
    ensures Credible(es, None)
  {
    hide FrameOk;
  }

  /** For every stream, valid or not: whatever frame the handlers see can be believed. */
  lemma StreamCredible(hs: Handlers, chunks: seq<seq<byte>>) returns (mark: Option<nat>)
    ensures Settled(hs, START)
    ensures Credible(FeedAll(hs, START, chunks).sess.events, mark)
    ensures mark.Some? ==>
      Connects(hs, Flat(chunks)) && Asked(hs, Flat(chunks)).standsForKey && Asked(hs, Flat(chunks)).skip > 0
  {
    hide *;
    ChunkIndependence(hs, chunks);
    var s := Flat(chunks);
    mark := None;
    if Connects(hs, s) {
      var m := StreamTold(hs, chunks);
      SilentWelcome(hs, s);
      var base, r, id := Welcome(hs, s), Asked(hs, s), Long(s[..CONNECT_SIZE], 80);
      var ps := Packets(s[PacketSize(s)..]);
      InfosTimed(s[PacketSize(s)..]);
      mark := Marked(base, ps, m, r, id, hs.wantsConnectData);
      StoryCredible(base, ps, m, r, id, hs.wantsConnectData, mark);
    } else {
      Connecting(hs, s);
      SilentCredible(Parse(hs, NEW_SESSION, s).sess.events);
    }
  }

  /** What a handler's answer means for the connection. */
  function Answer(o: Outcome): Status {
    match o
    case Took => Go
    case Left => Go
    case Abort => Stop(500)
    case Error => Stop(400)
  }

  /** How a session answers a packet. */
  lemma PacketAnswered(hs: Handlers, sess: Session, h: Header, body: seq<byte>)
    requires HeaderOk(h) && h.headerSize + h.dataSize == |body| + HDR_SIZE
    ensures var (sess', st) := OnPacket(hs, sess, h, body);
      match Taken(h, body)
      case Info(info, extra) => st == Answer(hs.react(sess.events, NewMediaInfo(info, extra)))
      case Picture(f, data) =>
        if sess'.events == sess.events then st == Go
        else sess'.events == sess.events + [NewFrame(sess.curId, f.(fl := f.fl % 2), data)]
             && st == Answer(hs.react(sess.events, sess'.events[|sess.events|]))
      case Note(data) =>
        if !hs.wantsConnectData || hs.react(sess.events, ConnectData(data)) == Took then st == Go
        else st == Stop(if hs.react(sess.events, ConnectData(data)) == Abort then 500 else 400)
      case End => st == Stop(200)
      case Nothing => if h.ptype == PACKET_NULL then st == Go && sess' == sess else st == Stop(400)
  {
    hide DecFrame, DecMediaInfo, Wrap, IsKey;
  }

  /** A header of unknown type, or with sizes out of bounds, ends the session. */
  lemma HeaderRefused(hs: Handlers, sess: Session, h: Header, rest: seq<byte>)
    requires sess.phase == Later
    requires h.headerSize < 16 || h.headerSize > 0x1_0000 || h.dataSize > 0x100_0000 ||
      h.ptype !in {0x74636e63, 0x666e696d, 0x6d617266, 0x6c6c756e, 0x74736f65}
    ensures Consistent(sess, EncHeader(h) + rest) && Parse(hs, sess, EncHeader(h) + rest) == Ended(sess, 400)
  {
    hide EncHeader, DecHeader;
    HeaderRoundTrip(h, rest);
  }

  /** A connect packet header is refused before the handlers see it if it is not one, its
      sizes are out of bounds, or it starts from no frame id; else they decide. */
  lemma ConnectRefused(hs: Handlers, c: seq<byte>, rest: seq<byte>)
    requires |c| == 104
    ensures Consistent(NEW_SESSION, c + rest)
    ensures var bad := Word(c, 0) != 0x74636e63 || Word(c, 4) < 104 || Word(c, 4) > 0x1_0000 ||
                       Word(c, 8) > 0x100_0000 || Long(c, 80) == 0xffff_ffff_ffff_ffff;
      var p := Parse(hs, NEW_SESSION, c + rest);
      && (bad ==> p == Ended(NEW_SESSION, 400))
      && (!bad && hs.connected(c).Refuse? ==> p == Ended(NEW_SESSION.(events := [Connected(c)]), hs.connected(c).rc))
      && (!bad && hs.connected(c).Accept? ==> [Connected(c)] <= p.sess.events)
  {
    hide Word, Long, OnPacket, OnConnectData;
    StartConsistent(c + rest);
    assert (c + rest)[..CONNECT_SIZE] == c;
    var (sess, st) := OnConnect(hs, NEW_SESSION, c);
    if st.Go? {
      OnConnectPhase(hs, NEW_SESSION, c);
      hide Parse, ConnectOk;
      assert [] + [Connected(c)] == [Connected(c)];
      ParseAfter(hs, c, rest);
      EventsGrow(hs, sess, c + rest);
    }
  }

  lemma ParseAfter(hs: Handlers, c: seq<byte>, rest: seq<byte>)
    requires |c| == CONNECT_SIZE && OnConnect(hs, NEW_SESSION, c).1.Go?
    ensures var sess := OnConnect(hs, NEW_SESSION, c).0;
      && Consistent(NEW_SESSION, c + rest) && Consistent(sess, c + rest)
      && Parse(hs, NEW_SESSION, c + rest) == Parse(hs, sess, c + rest)
  {
    hide OnConnect, ConnectOk;
    OnConnectPhase(hs, NEW_SESSION, c);
    assert (c + rest)[..CONNECT_SIZE] == c;
  }
}
