/** The KMP receiver: reassembles packets from reads of any size, over input buffers of
    any size, and hands them to the session's handlers. */
module KmpIn {
  import opened Sequences
  import opened Bytes
  import opened BufChain
  import opened KmpFormat
  import opened KmpSession
  import opened KmpAccounts

  /** One token for each node ever taken from the chain allocator. */
  ghost function AllNodes(n: nat): multiset<nat> {
    if n == 0 then multiset{} else AllNodes(n - 1) + multiset{n - 1}
  }

  class KmpIn {
    const hs: Handlers
    var headerRead: bool
    var connectBuf: seq<byte>      // the connect packet header, as it arrives
    var mem: Buffers               // input buffers; the last one is being filled
    var pos: nat                   // unread data of the active buffer starts here
    var end: nat                   // capacity of the active buffer

    // parser
    var packetHeader: seq<byte>
    var headerPos: nat
    var packetLeft: nat
    var chain: seq<Node>           // data of the current packet
    var nextNode: nat

    // session
    var events: seq<Event>
    var initialId: u64
    var curFrameId: u64
    var skipLeft: u64
    var skipWaitKey: bool
    var waitKey: bool
    var timescale: u32
    var mediaType: u32
    var stats: Stats

    ghost var phase: Phase
    ghost var skipCount: u64
    ghost var returned: seq<nat>   // nodes given back to the allocator
    ghost var handed: seq<nat>     // nodes a handler took

    ghost function Sess(): Session
      reads this`events, this`initialId, this`curFrameId, this`skipLeft, this`skipWaitKey, this`waitKey,
        this`timescale, this`mediaType, this`stats, this`phase, this`skipCount
    {
      Session(phase, events, initialId, curFrameId, skipCount, skipLeft, skipWaitKey, waitKey, timescale, mediaType,
        stats)
    }

    function Last(): nat
      reads this`mem
    {
      if mem == [] then 0 else |mem[|mem| - 1]|
    }

    /** Bytes received and not yet looked at. */
    ghost function Unread(): seq<byte>
      requires pos <= Last()
      reads this`mem, this`pos
    {
      if mem == [] then [] else mem[|mem| - 1][pos..]
    }

    ghost function Data(): seq<byte>
      requires ChainOk(mem, chain)
      reads this`mem, this`chain
    {
      Gather(mem, chain)
    }

    /** Every node taken from the allocator is in the current packet, was returned, or is
        owned by a handler: in exactly one of these places, once. */
    ghost predicate Owned()
      reads this`chain, this`nextNode, this`returned, this`handed
    {
      multiset(Ids(chain)) + multiset(returned) + multiset(handed) == AllNodes(nextNode)
    }

    /** The bytes of the incomplete packet. */
    ghost function Pending(): seq<byte>
      requires ChainOk(mem, chain) && headerPos <= |packetHeader|
      reads this`headerRead, this`connectBuf, this`packetHeader, this`headerPos, this`packetLeft, this`mem, this`chain,
        this`phase
    {
      if !headerRead then connectBuf
      else if packetLeft == 0 then packetHeader[..headerPos]
      else (if phase == First then connectBuf else packetHeader) + Data()
    }

    /** A packet whose header is complete, and has `packetLeft` bytes to come. */
    ghost predicate InPacket()
      requires ChainOk(mem, chain) && |packetHeader| == HDR_SIZE
      reads this`packetHeader, this`headerPos, this`connectBuf, this`packetLeft, this`mem, this`chain, this`phase
    {
      && headerPos == 0
      && if phase == First then
           && |connectBuf| == CONNECT_SIZE && ConnectOk(connectBuf)
           && DecHeader(packetHeader) == DecHeader(connectBuf)
           && CONNECT_SIZE + |Data()| + packetLeft == PacketSize(packetHeader)
         else
           && HeaderOk(DecHeader(packetHeader))
           && HDR_SIZE + |Data()| + packetLeft == PacketSize(packetHeader)
    }

    ghost predicate Framed()
      reads this`headerRead, this`connectBuf, this`packetHeader, this`headerPos, this`packetLeft, this`mem, this`chain,
        this`phase, this`pos, this`end
    {
      && pos <= Last() <= end && (mem == [] ==> end == 0)
      && ChainOk(mem, chain)
      && |packetHeader| == HDR_SIZE && headerPos < HDR_SIZE
      && (headerRead <==> phase != Awaiting)
      && |connectBuf| <= CONNECT_SIZE && (!headerRead ==> |connectBuf| < CONNECT_SIZE)
      && (packetLeft == 0 ==> chain == [] && phase != First)
      && (packetLeft > 0 ==> headerRead && InPacket())
      && (!headerRead ==> chain == [] && packetLeft == 0)
    }

    ghost predicate Valid()
      reads this
    {
      Framed() && Owned()
    }

    constructor (hs: Handlers)
      ensures Valid() && this.hs == hs
      ensures Sess() == NEW_SESSION && Pending() == [] && pos == Last()
    {
      this.hs := hs;
      headerRead, connectBuf, mem, pos, end := false, [], [], 0, 0;
      packetHeader, headerPos, packetLeft, chain, nextNode := Zeros(HDR_SIZE), 0, 0, [], 0;
      events, initialId, curFrameId, skipLeft, skipWaitKey, waitKey := [], 0, 0, 0, false, false;
      timescale, mediaType, stats := 0, 0, Stats(0, 0, 0, 0, 0, 0, 0, 0);
      phase, skipCount, returned, handed := Awaiting, 0, [], [];
    }

    /** Calls the handler of an event. */
    method Call(e: Event) returns (o: Outcome)
      modifies this`events
      ensures events == old(events) + [e] && o == hs.react(old(events), e)
    {
      o := hs.react(events, e);
      events := events + [e];
    }

    /** Returns the first nodes of the current packet to the allocator. */
    method FreePrefix(n: nat, rest: seq<Node>)
      requires n <= |chain| && Ids(rest) == Ids(chain)[n..] && Owned()
      modifies this`chain, this`returned
      ensures Owned() && chain == rest
    {
      ghost var ids := Ids(chain);
      assert ids == ids[..n] + ids[n..];
      returned := returned + ids[..n];
      chain := rest;
    }

    /** The current packet's nodes now belong to a handler. */
    method HandOver()
      requires Owned()
      modifies this`chain, this`handed
      ensures Owned() && chain == []
    {
      handed := handed + Ids(chain);
      chain := [];
    }

    /** Releases what is left of the current packet. */
    method FreeChain()
      requires Owned()
      modifies this`chain, this`returned
      ensures Owned() && chain == []
    {
      if chain != [] {
        returned := returned + Ids(chain);
        chain := [];
      }
    }

    /** Copies the structure behind the packet header, skips the header bytes this version
        does not know, and releases the nodes that held them. */
    method CopyPacketHeader(headerSize: nat, size: nat) returns (bytes: seq<byte>, st: Status)
      requires Owned() && ChainOk(mem, chain) && HDR_SIZE <= headerSize <= |Data()| + HDR_SIZE
      modifies this`chain, this`returned
      ensures Owned() && ChainOk(mem, chain)
      ensures headerSize - HDR_SIZE < size ==> st == Stop(BAD_REQUEST)
      ensures headerSize - HDR_SIZE >= size ==>
        st == Go && bytes == old(Data())[..size] && Data() == old(Data())[headerSize - HDR_SIZE..]
    {
      hide AllNodes, Gather, ChainOk;
      var headerLeft := headerSize - HDR_SIZE;
      bytes := [];
      if headerLeft < size {
        return bytes, Stop(BAD_REQUEST);
      }
      var ok, n, rest;
      bytes, ok, n, rest := Copy(mem, chain, size);
      if !ok {
        assert false;              // read header failed
      }
      headerLeft := headerLeft - size;
      if headerLeft > 0 {
        var m;
        ok, m, rest := Skip(mem, rest, headerLeft);
        if !ok {
          assert false;            // skip failed
        }
        n := n + m;
      }
      if n > 0 {
        FreePrefix(n, rest);
      } else {
        TrimFirst(rest);
      }
      st := Go;
    }

    method TrimFirst(rest: seq<Node>)
      requires Owned() && Ids(rest) == Ids(chain)
      modifies this`chain
      ensures Owned() && chain == rest
    {
      chain := rest;
    }

    /** A connect packet is complete. */
    method ConnectDataReady() returns (st: Status)
      requires Owned() && ChainOk(mem, chain) && |packetHeader| >= HDR_SIZE
      requires DecHeader(packetHeader).headerSize <= |Data()| + CONNECT_SIZE
      modifies this`chain, this`events
      ensures Owned() && ChainOk(mem, chain)
      ensures (Sess(), st) == OnConnectData(hs, old(Sess()), DecHeader(packetHeader), old(Data()))
      ensures |chain| == |old(chain)|
    {
      hide AllNodes, Gather, ChainOk, DecHeader, Owned;
      if !hs.wantsConnectData {
        return Go;
      }
      var h := DecHeader(packetHeader);
      var data := chain;
      if h.headerSize > CONNECT_SIZE {
        data := SkipInPlace(h.headerSize - CONNECT_SIZE);
      }
      var o := Call(ConnectData(Gather(mem, data)));
      match o {
        case Took => st := Go;
        case Abort => st := Stop(INTERNAL_ERROR);
        case _ => st := Stop(BAD_REQUEST);
      }
    }

    /** The chain behind a number of bytes; its nodes stay in the packet. */
    method SkipInPlace(size: nat) returns (rest: seq<Node>)
      requires Owned() && ChainOk(mem, chain) && size <= |Data()|
      modifies this`chain
      ensures Owned() && ChainOk(mem, chain) && |chain| == |old(chain)|
      ensures ChainOk(mem, rest) && Gather(mem, rest) == old(Data())[size..]
    {
      hide AllNodes, Gather, ChainOk, Owned;
      var ok, n;
      ok, n, rest := Skip(mem, chain, size);
      if !ok {
        assert false;              // skip failed
      }
      TrimAt(n, rest);
    }

    /** A skip trimmed node n in place; the nodes before it stay in the packet. */
    method TrimAt(n: nat, rest: seq<Node>)
      requires Owned() && ChainOk(mem, chain) && ChainOk(mem, rest)
      requires n <= |chain| && Ids(rest) == Ids(chain)[n..]
      modifies this`chain
      ensures Owned() && ChainOk(mem, chain) && |chain| == |old(chain)|
    {
      hide AllNodes, ChainOk, Ids;
      Trimmed(mem, chain, n, rest);
      assert |Ids(rest)| == |rest| && |Ids(chain)| == |chain|;
      chain := chain[..n] + rest;
    }

    method MediaInfoReady() returns (st: Status)
      requires Owned() && ChainOk(mem, chain) && |packetHeader| >= HDR_SIZE
      requires HDR_SIZE <= DecHeader(packetHeader).headerSize <= |Data()| + HDR_SIZE
      modifies this`chain, this`returned, this`handed, this`events, this`timescale, this`mediaType, this`waitKey
      ensures Owned() && ChainOk(mem, chain)
      ensures (Sess(), st) == OnMediaInfo(hs, old(Sess()), DecHeader(packetHeader), old(Data()))
    {
      hide AllNodes, Gather, ChainOk, DecHeader, DecMediaInfo, Owned;
      var h := DecHeader(packetHeader);
      var bytes;
      bytes, st := CopyPacketHeader(h.headerSize, MEDIA_INFO_SIZE);
      if st != Go {
        return;
      }
      InfoPrefix(old(Data()));
      var info := DecMediaInfo(bytes);
      if info.timescale <= 0 {
        return Stop(BAD_REQUEST);
      }
      st := Announce(info);
    }

    method Announce(info: MediaInfo) returns (st: Status)
      requires Owned() && ChainOk(mem, chain)
      modifies this`chain, this`handed, this`events, this`timescale, this`mediaType, this`waitKey
      ensures Owned() && ChainOk(mem, chain)
      ensures events == old(events) + [NewMediaInfo(info, old(Data()))]
      ensures st == (match hs.react(old(events), events[|old(events)|])
        case Abort => Stop(INTERNAL_ERROR) case Error => Stop(BAD_REQUEST) case _ => Go)
      ensures if st.Go? then timescale == info.timescale && mediaType == info.mediaType &&
        waitKey == (mediaType == MEDIA_VIDEO)
        else timescale == old(timescale) && mediaType == old(mediaType) && waitKey == old(waitKey)
    {
      hide AllNodes, Gather, ChainOk, Owned;
      var o := Call(NewMediaInfo(info, Gather(mem, chain)));
      match o {
        case Took => HandOver(); NoNodes();
        case Left =>
        case Abort => return Stop(INTERNAL_ERROR);
        case Error => return Stop(BAD_REQUEST);
      }
      timescale, mediaType, waitKey := info.timescale, info.mediaType, info.mediaType == MEDIA_VIDEO;
      st := Go;
    }

    lemma NoNodes()
      ensures ChainOk(mem, [])
    {
    }

    method FrameReady() returns (st: Status)
      requires Owned() && ChainOk(mem, chain) && |packetHeader| >= HDR_SIZE
      requires HDR_SIZE <= DecHeader(packetHeader).headerSize
      requires DecHeader(packetHeader).headerSize + DecHeader(packetHeader).dataSize == |Data()| + HDR_SIZE
      modifies this`chain, this`returned, this`handed, this`events, this`curFrameId, this`skipLeft, this`waitKey,
        this`stats
      ensures Owned() && ChainOk(mem, chain)
      ensures (Sess(), st) == OnFrame(hs, old(Sess()), DecHeader(packetHeader), old(Data()))
    {
      hide AllNodes, Gather, ChainOk, DecHeader, DecFrame, Owned, Wrap, TakeFrame;
      var h := DecHeader(packetHeader);
      var bytes;
      bytes, st := CopyPacketHeader(h.headerSize, FRAME_SIZE);
      if st != Go {
        return;
      }
      FramePrefix(old(Data()));
      st := SkipOrDeliver(DecFrame(bytes), h.dataSize);
      if st != Go {
        return;
      }
      curFrameId := Wrap(curFrameId + 1);
    }

    /** Counts the first reason to skip the frame, or delivers it. */
    method SkipOrDeliver(frame: Frame, size: nat) returns (st: Status)
      requires Owned() && ChainOk(mem, chain)
      modifies this`chain, this`handed, this`events, this`skipLeft, this`waitKey, this`stats
      ensures Owned() && ChainOk(mem, chain)
      ensures (Sess(), st) == TakeFrame(hs, old(Sess()), frame, size, old(Data()))
    {
      hide AllNodes, Gather, ChainOk, Owned, IsKey;
      st := Go;
      if skipLeft > 0 {
        skipLeft := skipLeft - 1;
        stats := stats.(duplicate := stats.duplicate + 1);
        if skipLeft <= 0 && skipWaitKey {
          waitKey := false;
        }
      } else if timescale <= 0 {
        stats := stats.(noMediaInfo := stats.noMediaInfo + 1);
      } else if size == 0 {
        stats := stats.(empty := stats.empty + 1);
      } else if mediaType == MEDIA_SUBTITLE && frame.ptsDelay <= 0 {
        stats := stats.(emptyDuration := stats.emptyDuration + 1);
      } else if waitKey && !IsKey(frame.fl) {
        stats := stats.(noKey := stats.noKey + 1);
      } else {
        st := Deliver(frame, size);
      }
    }

    method Deliver(frame: Frame, size: nat) returns (st: Status)
      requires Owned() && ChainOk(mem, chain)
      modifies this`chain, this`handed, this`events, this`waitKey, this`stats
      ensures Owned() && ChainOk(mem, chain)
      ensures events == old(events) + [NewFrame(curFrameId, frame.(fl := frame.fl % 2), old(Data()))] && !waitKey
      ensures stats == old(stats).(frames := old(stats).frames + 1, dataBytes := old(stats).dataBytes + size,
        keyFrames := old(stats).keyFrames + if IsKey(frame.fl) then 1 else 0)
      ensures st == (match hs.react(old(events), events[|old(events)|])
        case Abort => Stop(INTERNAL_ERROR) case Error => Stop(BAD_REQUEST) case _ => Go)
    {
      hide AllNodes, Gather, ChainOk, Owned, IsKey;
      waitKey := false;
      stats := stats.(frames := stats.frames + 1, dataBytes := stats.dataBytes + size);
      if IsKey(frame.fl) {
        stats := stats.(keyFrames := stats.keyFrames + 1);
      }
      var o := Call(NewFrame(curFrameId, frame.(fl := frame.fl % 2), Gather(mem, chain)));
      match o {
        case Took => HandOver(); NoNodes(); st := Go;
        case Left => st := Go;
        case Abort => st := Stop(INTERNAL_ERROR);
        case Error => st := Stop(BAD_REQUEST);
      }
    }

    /** Appends `n` unread bytes to the current packet: to its last node when they follow
        it in memory, to a new node otherwise. */
    method LinkData(n: nat)
      requires Owned() && ChainOk(mem, chain) && mem != [] && 0 < n <= Last() - pos
      modifies this`chain, this`nextNode
      ensures Owned() && ChainOk(mem, chain) && chain != []
      ensures Data() == old(Data()) + mem[|mem| - 1][pos..pos + n]
    {
      hide AllNodes, Gather, ChainOk;
      var cur := |mem| - 1;
      if chain != [] && chain[|chain| - 1].buf == cur && chain[|chain| - 1].off + chain[|chain| - 1].size == pos {
        GrowLast(n);
      } else {
        var part := Node(nextNode, cur, pos, n);
        NewPart(part);
        nextNode := nextNode + 1;
        chain := chain + [part];
      }
    }

    lemma NewPart(part: Node)
      requires Owned() && ChainOk(mem, chain) && NodeOk(mem, part) && part.id == nextNode
      ensures ChainOk(mem, chain + [part]) && Gather(mem, chain + [part]) == Data() + NodeBytes(mem, part)
      ensures multiset(Ids(chain + [part])) + multiset(returned) + multiset(handed) == AllNodes(nextNode + 1)
    {
      hide ChainOk, Gather;
      assert ChainOk(mem, [part]) by {
        OnePart(part);
      }
      GatherAppend(mem, chain, [part]);
      GatherOne(mem, part);
      assert Ids(chain + [part]) == Ids(chain) + [part.id];
    }

    lemma OnePart(part: Node)
      requires NodeOk(mem, part)
      ensures ChainOk(mem, [part])
    {
    }

    method GrowLast(n: nat)
      requires mem != [] && pos + n <= Last() && chain != []
      requires var l := chain[|chain| - 1]; l.buf == |mem| - 1 && l.off + l.size == pos
      requires ChainOk(mem, chain) && Owned()
      modifies this`chain
      ensures Owned() && ChainOk(mem, chain) && chain != []
      ensures Data() == old(Data()) + mem[|mem| - 1][pos..pos + n]
    {
      hide AllNodes, Gather, ChainOk, NodeOk, Ids;
      LastGrown(mem, chain, n);
      var k := |chain| - 1;
      chain := chain[..k] + [chain[k].(size := chain[k].size + n)];
    }

    /** What precedes the data of the current packet. */
    ghost function Head(): seq<byte>
      reads this`connectBuf, this`packetHeader, this`phase
    {
      if phase == First then connectBuf else packetHeader
    }

    /** Collects the bytes of a packet header. */
    method CollectHeader() returns (done: bool)
      requires Valid() && headerRead && packetLeft == 0 && pos < Last()
      modifies this`packetHeader, this`headerPos, this`pos
      ensures old(pos) < pos <= Last() && |packetHeader| == HDR_SIZE
      ensures var s := old(Pending() + Unread());
        && (!done ==> Valid() && pos == Last() && Pending() == s)
        && (done ==> headerPos == 0 && packetHeader + Unread() == s)
    {
      hide AllNodes, Gather, ChainOk, DecHeader, Owned;
      var last, data := Last(), mem[|mem| - 1];
      var headerLeft, bufLeft := HDR_SIZE - headerPos, last - pos;
      ghost var h := packetHeader;
      hide Splice;
      if bufLeft < headerLeft {
        HeaderPart(h, headerPos, data[pos..last]);
        ToEnd(data, pos);
        packetHeader := Splice(packetHeader, headerPos, data[pos..last]);
        headerPos, pos := headerPos + bufLeft, last;
        return false;
      }
      HeaderDone(h, headerPos, data, pos);
      packetHeader := Splice(packetHeader, headerPos, data[pos..pos + headerLeft]);
      headerPos, pos := 0, pos + headerLeft;
      done := true;
    }

    /** Collects a packet header and checks it. */
    method TakeHeader() returns (done: bool, st: Status)
      requires Valid() && headerRead && packetLeft == 0 && pos < Last()
      modifies this`packetHeader, this`headerPos, this`packetLeft, this`pos
      ensures old(pos) < pos <= Last()
      ensures var s := old(Pending() + Unread());
        && (st.Stop? ==> |s| >= HDR_SIZE && !HeaderOk(DecHeader(s)) && st.rc == BAD_REQUEST)
        && (st.Go? && !done ==> Valid() && packetLeft == 0 && pos == Last() && Pending() == s)
        && (st.Go? && done ==>
              && |packetHeader| == HDR_SIZE && headerPos == 0 && HeaderOk(DecHeader(packetHeader))
              && packetLeft == PacketSize(packetHeader) - HDR_SIZE && packetHeader + Unread() == s)
    {
      hide AllNodes, Gather, ChainOk, DecHeader, Owned, Framed, Pending;
      done := CollectHeader();
      st := Go;
      if !done {
        return;
      }
      HeaderMore(packetHeader, Unread());
      var header := DecHeader(packetHeader);
      if !KnownType(header.ptype) {
        return done, Stop(BAD_REQUEST);
      }
      if header.headerSize < HDR_SIZE || header.headerSize > MAX_HEADER_SIZE {
        return done, Stop(BAD_REQUEST);
      }
      if header.dataSize > MAX_DATA_SIZE {
        return done, Stop(BAD_REQUEST);
      }
      packetLeft := header.headerSize + header.dataSize - HDR_SIZE;
    }

    /** Moves unread bytes into the current packet. */
    method TakeData()
      requires Owned() && ChainOk(mem, chain) && pos <= Last()
      modifies this`chain, this`nextNode, this`pos, this`packetLeft
      ensures Owned() && ChainOk(mem, chain) && pos <= Last()
      ensures Data() + Unread() == old(Data() + Unread())
      ensures |Data()| + packetLeft == old(|Data()| + packetLeft)
      ensures packetLeft > 0 ==> pos == Last()
      ensures old(packetLeft) == 0 ==> chain == old(chain)
      ensures old(pos) <= pos && (old(packetLeft) > 0 && old(pos) < Last() ==> pos > old(pos))
    {
      hide AllNodes, Gather, ChainOk, Owned;
      var size := if Last() - pos < packetLeft then Last() - pos else packetLeft;
      if size > 0 {
        LinkData(size);
        ghost var data := mem[|mem| - 1];
        assert data[pos..] == data[pos..pos + size] + data[pos + size..];
        pos := pos + size;
        packetLeft := packetLeft - size;
      }
    }

    /** A whole packet is in; its handler runs and its nodes are released. */
    method PacketReady() returns (st: Status)
      requires Owned() && ChainOk(mem, chain) && |packetHeader| == HDR_SIZE && phase != Awaiting
      requires packetLeft == 0 && InPacket()
      modifies this`chain, this`returned, this`handed, this`events, this`timescale, this`mediaType, this`waitKey,
        this`curFrameId, this`skipLeft, this`stats, this`phase
      ensures Owned() && ChainOk(mem, chain)
      ensures var (sess', st') := (if old(phase) == First
        then OnConnectData(hs, old(Sess()), DecHeader(packetHeader), old(Data()))
        else OnPacket(hs, old(Sess()), DecHeader(packetHeader), old(Data())));
        && st == st' && Sess() == (if st.Go? then sess'.(phase := Later) else sess')
      ensures st.Go? ==> chain == [] && phase == Later
    {
      hide AllNodes, Gather, ChainOk, DecHeader, Owned, OnConnectData, OnMediaInfo, OnFrame;
      var h := DecHeader(packetHeader);
      ghost var first := phase == First;
      if h.ptype == PACKET_CONNECT {
        st := ConnectDataReady();
      } else if h.ptype == PACKET_MEDIA_INFO {
        st := MediaInfoReady();
      } else if h.ptype == PACKET_FRAME {
        st := FrameReady();
      } else if h.ptype == PACKET_NULL {
        st := Go;
      } else {
        var _ := Call(EndOfStream);
        return Stop(OK);
      }
      if st != Go {
        return;
      }
      FreeChain();
      NoNodes();
      phase := Later;
    }

    /** How reading ended: the events so far and the code. */
    ghost predicate EndsAs(p: Parsed, rc: int)
      reads this`events
    {
      p.Ended? && p.sess.events == events && p.rc == rc
    }

    /** Reading on from here comes to `target`, or has stopped there. */
    ghost predicate Reached(st: Status, target: Parsed)
      reads this
    {
      if st.Stop? then EndsAs(target, st.rc)
      else
        && Valid() && headerRead
        && Consistent(Sess(), Pending() + Unread())
        && Parse(hs, Sess(), Pending() + Unread()) == target
    }

    /** The header of the current packet is complete. */
    ghost predicate Open()
      reads this
    {
      && Owned() && ChainOk(mem, chain) && pos <= Last() <= end && (mem == [] ==> end == 0)
      && headerRead && phase != Awaiting && |packetHeader| == HDR_SIZE && |connectBuf| <= CONNECT_SIZE
      && InPacket()
    }

    lemma BetweenPackets()
      requires headerRead && phase == Later && chain == [] && headerPos == 0 && packetLeft == 0
      requires |connectBuf| <= CONNECT_SIZE && |packetHeader| == HDR_SIZE
      requires pos <= Last() <= end && (mem == [] ==> end == 0)
      ensures Framed() && Pending() + Unread() == Unread()
    {
      hide DecHeader, ConnectOk;
    }

    /** The current packet is complete; it is handled. */
    method Complete() returns (st: Status)
      requires Open() && packetLeft == 0
      modifies this
      ensures Owned() && ChainOk(mem, chain) && end == old(end) && mem == old(mem) && pos == old(pos)
      ensures var s := old(Head() + Data() + Unread());
        Consistent(old(Sess()), s) && Reached(st, Parse(hs, old(Sess()), s))
    {
      hide AllNodes, Gather, ChainOk, DecHeader, Owned, Consistent, ConnectOk, HeaderOk, OnPacket, OnConnectData, Parse;
      if phase == First {
        WholeFirst(hs, Sess(), Head(), Data(), Unread());
      } else {
        WholeLater(hs, Sess(), Head(), Data(), Unread());
      }
      st := PacketReady();
      if st == Go {
        BetweenPackets();
        LaterConsistent(Sess(), Unread());
      }
    }

    /** The current packet needs more data than there is. */
    lemma StillOpen()
      requires Open() && packetLeft > 0
      ensures var s := Head() + Data() + Unread();
        Consistent(Sess(), s) && Reached(Go, Parse(hs, Sess(), s))
    {
      hide AllNodes, Gather, ChainOk, DecHeader, Owned, Consistent, ConnectOk, HeaderOk, Parse;
      assert Framed();
      PendingConsistent(Unread());
    }

    /** Takes data; a complete packet is handled. */
    method Advance() returns (st: Status)
      requires Open()
      modifies this
      ensures Owned() && ChainOk(mem, chain) && end == old(end) && mem == old(mem)
      ensures old(pos) <= pos && (old(packetLeft) > 0 && old(pos) < old(Last()) ==> pos > old(pos))
      ensures var s := old(Head() + Data() + Unread());
        Consistent(old(Sess()), s) && Reached(st, Parse(hs, old(Sess()), s))
    {
      hide AllNodes, Gather, ChainOk, DecHeader, Owned, Consistent, ConnectOk, HeaderOk, Parse;
      ghost var head, sess, data := Head(), Sess(), Data();
      ghost var s := head + data + Unread();
      TakeData();
      Associate(head, data, old(Unread()));
      Associate(head, Data(), Unread());
      hide Reached;
      if packetLeft > 0 {
        StillOpen();
        return Go;
      }
      st := Complete();
    }

    /** One round: header bytes if a header is due, data, and the packet if complete. */
    method Step() returns (st: Status)
      requires Valid() && headerRead && pos < Last()
      modifies this
      ensures Owned() && ChainOk(mem, chain) && end == old(end) && mem == old(mem)
      ensures st.Go? ==> pos > old(pos)
      ensures var s := old(Pending() + Unread());
        Consistent(old(Sess()), s) && Reached(st, Parse(hs, old(Sess()), s))
    {
      hide AllNodes, ChainOk, DecHeader, Owned, Consistent, Parse, ConnectOk, HeaderOk;
      ghost var s := Pending() + Unread();
      PendingConsistent(Unread());
      if packetLeft <= 0 {
        var done;
        done, st := TakeHeader();
        if st != Go {
          BadHeader(hs, Sess(), s);
          return;
        }
        if !done {
          assert Pending() + Unread() == s;
          return;
        }
        assert Data() == [];
        assert Head() + Data() + Unread() == s;
      }
      st := Advance();
    }

    /** Consumes all unread data; returns Go when more is needed. */
    method ProcessBuffer() returns (st: Status)
      requires Valid() && headerRead
      modifies this
      ensures Owned() && ChainOk(mem, chain)
      ensures var s := old(Pending() + Unread());
        && Consistent(old(Sess()), s)
        && (st.Go? ==>
              && Valid() && headerRead && pos == Last() && end == old(end) && mem == old(mem)
              && Parse(hs, old(Sess()), s) == Running(Sess(), Pending()))
        && (st.Stop? ==> EndsAs(Parse(hs, old(Sess()), s), st.rc))
    {
      hide AllNodes, Gather, ChainOk, DecHeader, Owned, Consistent, Parse;
      ghost var s0 := Pending() + Unread();
      PendingConsistent(Unread());
      ghost var target := Parse(hs, Sess(), s0);
      while pos < Last()
        invariant end == old(end) && mem == old(mem) && Reached(Go, target)
        decreases Last() - pos
      {
        st := Step();
        if st != Go {
          return;
        }
      }
      assert Pending() + Unread() == Pending();
      PendingIncomplete();
      st := Go;
    }

    /** A new input buffer replaces the full one. */
    method GetInputBuf(capacity: nat)
      requires Valid() && pos == Last() && capacity > 0
      modifies this`mem, this`pos, this`end
      ensures Valid() && pos == Last() < end && Pending() == old(Pending())
    {
      hide AllNodes, Gather, ChainOk, DecHeader, Owned, ConnectOk, HeaderOk, Extends;
      Grown(mem, mem + [[]]);
      GatherExtends(mem, mem + [[]], chain);
      mem := mem + [[]];
      pos, end := 0, capacity;
    }

    /** A read into the active buffer. */
    method Recv(data: seq<byte>)
      requires Valid() && pos == Last() && mem != [] && Last() + |data| <= end
      modifies this`mem
      ensures Valid() && Unread() == data && Pending() == old(Pending())
    {
      hide AllNodes, Gather, ChainOk, DecHeader, Owned, ConnectOk, HeaderOk, Extends;
      var k := |mem| - 1;
      Grown(mem, mem[k := mem[k] + data]);
      GatherExtends(mem, mem[k := mem[k] + data], chain);
      mem := mem[k := mem[k] + data];
    }

    /** Reads from a connection with `input` waiting, as much as fits. */
    method ReadPackets(input: seq<byte>, capacity: nat) returns (n: nat, st: Status)
      requires Valid() && headerRead && pos == Last() && capacity > 0 && input != []
      modifies this
      ensures Owned() && 0 < n <= |input|
      ensures Consistent(old(Sess()), old(Pending()))
      ensures Arrived(st, Feed(hs, old(Running(Sess(), Pending())), input[..n]))
    {
      hide AllNodes, Gather, ChainOk, DecHeader, Owned, ConnectOk, HeaderOk, Parse, Consistent;
      PendingIsConsistent();
      if Last() >= end {
        GetInputBuf(capacity);
      }
      n := if |input| < end - Last() then |input| else end - Last();
      Recv(input[..n]);
      st := ProcessBuffer();
    }

    /** All input so far was consumed, or reading has ended. */
    ghost predicate Arrived(st: Status, p: Parsed)
      reads this
    {
      if st.Stop? then EndsAs(p, st.rc)
      else Valid() && pos == Last() && p == Running(Sess(), Pending())
    }

    lemma PendingIsConsistent()
      requires Framed()
      ensures Consistent(Sess(), Pending())
    {
      PendingConsistent([]);
      assert Pending() + [] == Pending();
    }

    /** Collects the connect packet header; once it is complete, checks it, calls the
        handler and starts the parser. */
    method ReadHeader(input: seq<byte>) returns (n: nat, st: Status)
      requires Valid() && !headerRead && pos == Last() && input != []
      modifies this
      ensures Owned() && 0 < n <= |input|
      ensures Consistent(old(Sess()), old(Pending()))
      ensures Arrived(st, Feed(hs, old(Running(Sess(), Pending())), input[..n]))
    {
      hide AllNodes, Gather, ChainOk, DecHeader, Owned, ConnectOk, HeaderOk;
      PendingIsConsistent();
      n := if |input| < CONNECT_SIZE - |connectBuf| then |input| else CONNECT_SIZE - |connectBuf|;
      connectBuf := connectBuf + input[..n];
      if |connectBuf| < CONNECT_SIZE {
        return n, Go;
      }
      assert connectBuf[..CONNECT_SIZE] == connectBuf;
      st := Connect();
    }

    /** The connect packet header is complete. */
    method Connect() returns (st: Status)
      requires Owned() && !headerRead && |connectBuf| == CONNECT_SIZE && phase == Awaiting && chain == []
      requires |packetHeader| == HDR_SIZE && pos == Last() <= end && (mem == [] ==> end == 0)
      modifies this
      ensures Owned()
      ensures Arrived(st, Parse(hs, old(Sess()), old(connectBuf)))
    {
      hide AllNodes, Gather, DecHeader, Owned, Parse, OnConnectData;
      ConnectParse(hs, Sess(), connectBuf);
      var header := DecHeader(connectBuf);
      if header.ptype != PACKET_CONNECT {
        return Stop(BAD_REQUEST);
      }
      if header.headerSize < CONNECT_SIZE || header.headerSize > MAX_HEADER_SIZE {
        return Stop(BAD_REQUEST);
      }
      if header.dataSize > MAX_DATA_SIZE {
        return Stop(BAD_REQUEST);
      }
      var initialFrameId := Long(connectBuf, 80);
      if initialFrameId >= INVALID_FRAME_ID {
        return Stop(BAD_REQUEST);
      }
      events := events + [Connected(connectBuf)];
      var reply := hs.connected(connectBuf);
      if reply.Refuse? {
        return Stop(reply.rc);
      }
      st := StartParser(reply.skipCount, reply.skipWaitKey);
    }

    /** The session after an accepted connect packet header. */
    ghost function Accepted(skip: u64, waitForKey: bool): Session
      requires |connectBuf| == CONNECT_SIZE
      reads this
    {
      var id := Long(connectBuf, 80);
      Sess().(phase := First, initialId := id, curId := id, skipCount := skip, skipLeft := skip,
        skipWaitKey := waitForKey)
    }

    lemma InConnect()
      requires headerRead && phase == First && chain == [] && headerPos == 0 && packetLeft > 0
      requires |connectBuf| == CONNECT_SIZE && ConnectOk(connectBuf) && packetHeader == connectBuf[..HDR_SIZE]
      requires packetLeft == PacketSize(connectBuf) - CONNECT_SIZE
      requires pos <= Last() <= end && (mem == [] ==> end == 0)
      ensures Framed() && Pending() == connectBuf
    {
      hide DecHeader, ConnectOk;
      DecHeaderOf(connectBuf);
      assert connectBuf + [] == connectBuf;
    }

    lemma AfterConnect()
      requires headerRead && phase == Later && chain == [] && headerPos == 0 && packetLeft == 0
      requires |connectBuf| == CONNECT_SIZE && |packetHeader| == HDR_SIZE
      requires pos <= Last() <= end && (mem == [] ==> end == 0)
      ensures Framed() && Pending() == []
    {
    }

    /** The connect packet header was accepted; its data may follow. */
    ghost predicate Connecting()
      reads this`connectBuf, this`headerRead, this`phase, this`chain, this`headerPos, this`packetHeader,
        this`packetLeft,
        this`pos, this`mem, this`end
    {
      && headerRead && phase == First && chain == [] && headerPos == 0
      && |connectBuf| == CONNECT_SIZE && ConnectOk(connectBuf) && packetHeader == connectBuf[..HDR_SIZE]
      && CONNECT_SIZE <= PacketSize(connectBuf) && packetLeft == PacketSize(connectBuf) - CONNECT_SIZE
      && DecHeader(connectBuf).headerSize <= CONNECT_SIZE + packetLeft
      && pos == Last() <= end && (mem == [] ==> end == 0)
    }

    method InitParser()
      requires |connectBuf| == CONNECT_SIZE && ConnectOk(connectBuf) && chain == []
      requires pos == Last() <= end && (mem == [] ==> end == 0)
      modifies this`headerPos, this`packetLeft, this`packetHeader, this`headerRead, this`phase
      ensures Connecting() && phase == First
    {
      hide DecHeader, ConnectOk, PacketSize;
      assert connectBuf[..CONNECT_SIZE] == connectBuf;
      ConnectSize(connectBuf);
      headerPos, packetLeft := 0, PacketSize(connectBuf) - CONNECT_SIZE;
      packetHeader := connectBuf[..HDR_SIZE];
      headerRead, phase := true, First;
    }

    method InitSkip(skip: u64, waitForKey: bool)
      modifies this`skipLeft, this`skipWaitKey, this`skipCount
      ensures Sess() == old(Sess()).(skipCount := skip, skipLeft := skip, skipWaitKey := waitForKey)
    {
      skipLeft, skipWaitKey, skipCount := skip, waitForKey, skip;
    }

    method BeginSession(skip: u64, waitForKey: bool)
      requires |connectBuf| == CONNECT_SIZE && ConnectOk(connectBuf) && chain == []
      requires pos == Last() <= end && (mem == [] ==> end == 0)
      modifies this`headerPos, this`packetLeft, this`packetHeader, this`headerRead, this`phase,
        this`skipLeft, this`skipWaitKey, this`skipCount
      ensures Connecting()
      ensures Sess() == old(Sess()).(phase := First, skipCount := skip, skipLeft := skip, skipWaitKey := waitForKey)
    {
      hide ConnectOk, DecHeader, PacketSize;
      InitParser();
      InitSkip(skip, waitForKey);
    }

    method InitIds(id: u64)
      modifies this`initialId, this`curFrameId
      ensures Sess() == old(Sess()).(initialId := id, curId := id)
    {
      initialId, curFrameId := id, id;
    }

    method StartParser(skip: u64, waitForKey: bool) returns (st: Status)
      requires Owned() && |connectBuf| == CONNECT_SIZE && ConnectOk(connectBuf) && chain == []
      requires pos == Last() <= end && (mem == [] ==> end == 0)
      modifies this
      ensures Owned()
      ensures var (c, sess) := old((connectBuf, Accepted(skip, waitForKey)));
        Arrived(st, Opened(hs, sess, c))
    {
      hide AllNodes, DecHeader, Owned, OnConnectData, Long, ConnectOk, Framed, Pending, ChainOk, Gather, PacketSize,
        Opened, Connecting;
      var initialFrameId := Long(connectBuf, 80);
      BeginSession(skip, waitForKey);
      OpenedIds(hs, Sess(), connectBuf, initialFrameId);
      st := ConnectBody();
      if st != Go {
        return;
      }
      InitIds(initialFrameId);
    }

    /** A connect packet with nothing behind the part already read is complete. */
    method ConnectBody() returns (st: Status)
      requires Owned() && Connecting()
      modifies this`chain, this`events, this`phase
      ensures Owned()
      ensures pos == Last()
      ensures var p := Opened(hs, old(Sess()), connectBuf);
        if st.Stop? then EndsAs(p, st.rc) else Framed() && p == Running(Sess(), Pending())
    {
      hide AllNodes, DecHeader, Owned, OnConnectData, ConnectOk, Framed, Pending, ChainOk, Gather, PacketSize;
      NoNodes();
      DecHeaderOf(connectBuf);
      GatherNone(mem);
      if packetLeft <= 0 {
        st := ConnectDataReady();
        if st != Go {
          return;
        }
        phase := Later;
        AfterConnect();
      } else {
        InConnect();
        st := Go;
      }
    }

    /** The read handler, called with `input` waiting on the connection: all of it is read,
        unless reading ends before. */
    method ReadHandler(input: seq<byte>, capacity: nat -> nat) returns (st: Status)
      requires Valid() && pos == Last() && forall i :: capacity(i) > 0
      modifies this
      ensures Owned()
      ensures Consistent(old(Sess()), old(Pending()))
      ensures Arrived(st, Feed(hs, old(Running(Sess(), Pending())), input))
    {
      hide AllNodes, Gather, ChainOk, DecHeader, Owned, ConnectOk, HeaderOk, Parse, Consistent, Feed;
      PendingIsConsistent();
      ghost var start := Running(Sess(), Pending());
      PendingSettled();
      var i := 0;
      FeedNone(hs, start);
      st := Go;
      while i < |input|
        invariant i <= |input| && Owned() && st == Go
        invariant Settled(hs, start) && Arrived(Go, Feed(hs, start, input[..i]))
      {
        PendingIsConsistent();
        var n;
        if !headerRead {
          n, st := ReadHeader(input[i..]);
        } else {
          n, st := ReadPackets(input[i..], capacity(|mem|));
        }
        FeedMore(hs, start, input, i, n);
        i := i + n;
        if st != Go {
          StopStays(hs, start, input, i);
          return;
        }
      }
      assert input[..i] == input;
    }

    lemma PendingSettled()
      requires Framed()
      ensures Settled(hs, Running(Sess(), Pending()))
    {
      PendingIsConsistent();
      PendingIncomplete();
    }

    /** Disconnect: the nodes of an incomplete packet are returned. */
    method Cleanup()
      requires Owned()
      modifies this`chain, this`returned
      ensures chain == [] && multiset(returned) + multiset(handed) == AllNodes(nextNode)
    {
      FreeChain();
    }

    /** What is pending is the start of a packet of the current phase. */
    lemma PendingConsistent(t: seq<byte>)
      requires Framed()
      ensures Consistent(Sess(), Pending() + t)
    {
      hide Gather, ChainOk, DecHeader;
      if phase == First {
        assert (Pending() + t)[..CONNECT_SIZE] == connectBuf;
      }
    }

    /** ... and not a whole one. */
    lemma PendingIncomplete()
      requires Framed() && Consistent(Sess(), Pending())
      ensures Parse(hs, Sess(), Pending()) == Running(Sess(), Pending())
    {
      hide Gather, ChainOk, DecHeader, Consistent;
      if packetLeft > 0 {
        if phase == First {
          ConnectHeaderOf(connectBuf, Data());
        } else {
          HeaderMore(packetHeader, Data());
        }
      }
    }
  }

  lemma HeaderPart(h: seq<byte>, at: nat, data: seq<byte>)
    requires at + |data| <= |h|
    ensures |Splice(h, at, data)| == |h| && Splice(h, at, data)[..at + |data|] == h[..at] + data
  {
  }

  lemma HeaderDone(h: seq<byte>, at: nat, data: seq<byte>, pos: nat)
    requires |h| == HDR_SIZE && at < HDR_SIZE && pos + (HDR_SIZE - at) <= |data|
    ensures var n := HDR_SIZE - at;
      Splice(h, at, data[pos..pos + n]) + data[pos + n..] == h[..at] + data[pos..]
  {
    var n := HDR_SIZE - at;
    assert Splice(h, at, data[pos..pos + n]) == h[..at] + data[pos..pos + n];
    assert data[pos..] == data[pos..pos + n] + data[pos + n..];
  }

  /** A whole connect packet at the front of the stream. */
  lemma WholeFirst(hs: Handlers, sess: Session, head: seq<byte>, data: seq<byte>, rest: seq<byte>)
    requires sess.phase == First && |head| == CONNECT_SIZE && ConnectOk(head)
    requires CONNECT_SIZE + |data| == PacketSize(head)
    ensures DecHeader(head).headerSize <= |data| + CONNECT_SIZE
    ensures Consistent(sess, head + data + rest)
    ensures Parse(hs, sess, head + data + rest) ==
      var (sess', st) := OnConnectData(hs, sess, DecHeader(head), data);
      if st.Stop? then Ended(sess', st.rc) else Parse(hs, sess'.(phase := Later), rest)
  {
    hide DecHeader, ConnectOk, OnConnectData;
    var s := head + data + rest;
    assert s[..CONNECT_SIZE] == head;
    ConnectHeader(s);
    assert s[CONNECT_SIZE..PacketSize(s)] == data && s[PacketSize(s)..] == rest;
  }

  /** A whole packet behind the connect packet. */
  lemma WholeLater(hs: Handlers, sess: Session, head: seq<byte>, data: seq<byte>, rest: seq<byte>)
    requires sess.phase == Later && |head| == HDR_SIZE && HeaderOk(DecHeader(head))
    requires HDR_SIZE + |data| == PacketSize(head)
    ensures Consistent(sess, head + data + rest)
    ensures Parse(hs, sess, head + data + rest) ==
      var (sess', st) := OnPacket(hs, sess, DecHeader(head), data);
      if st.Stop? then Ended(sess', st.rc) else Parse(hs, sess'.(phase := Later), rest)
  {
    hide DecHeader, OnPacket;
    var s := head + data + rest;
    assert s == head + (data + rest);
    HeaderMore(head, data + rest);
    assert s[HDR_SIZE..PacketSize(s)] == data && s[PacketSize(s)..] == rest;
  }

  lemma LaterConsistent(sess: Session, s: seq<byte>)
    requires sess.phase == Later
    ensures Consistent(sess, s)
  {
  }

  lemma BadHeader(hs: Handlers, sess: Session, s: seq<byte>)
    requires sess.phase == Later && |s| >= HDR_SIZE && !HeaderOk(DecHeader(s))
    ensures Consistent(sess, s) && Parse(hs, sess, s) == Ended(sess, BAD_REQUEST)
  {
    hide DecHeader;
  }

  /** A whole connection: for any way the stream arrives and any sizes of the input
      buffers, the handlers see what a one-shot reading of the stream would show them. */
  method Serve(hs: Handlers, chunks: seq<seq<byte>>, capacity: nat -> nat) returns (k: KmpIn, st: Status)
    requires forall i :: capacity(i) > 0
    ensures fresh(k) && k.hs == hs && k.Owned()
    ensures k.Arrived(st, Parse(hs, NEW_SESSION, Flat(chunks)))
  {
    hide AllNodes, KmpIn.Owned, KmpIn.Framed, Parse, Consistent, Feed;
    k := new KmpIn(hs);
    st := Go;
    StartSettled(hs);
    var i := 0;
    ghost var seen: seq<byte> := [];
    FeedNone(hs, START);
    while i < |chunks|
      invariant i <= |chunks| && fresh(k) && k.hs == hs && k.Owned() && st == Go
      invariant seen == Flat(chunks[..i])
      invariant Settled(hs, START) && k.Arrived(Go, Feed(hs, START, seen))
    {
      st := k.ReadHandler(chunks[i], capacity);
      FeedSettled(hs, START, seen);
      FeedTwice(hs, START, seen, chunks[i]);
      seen := seen + chunks[i];
      FlatPrefixSnoc(chunks, i);
      i := i + 1;
      if st != Go {
        StopStaysFlat(hs, chunks, i);
        return;
      }
    }
    assert chunks[..i] == chunks;
    StartFeed(hs, Flat(chunks));
  }

  lemma StartSettled(hs: Handlers)
    ensures Settled(hs, START)
  {
    ChunkIndependence(hs, []);
  }

  lemma StartFeed(hs: Handlers, s: seq<byte>)
    requires Settled(hs, START)
    ensures Feed(hs, START, s) == Parse(hs, NEW_SESSION, s)
  {
    assert [] + s == s;
  }

  lemma StopStaysFlat(hs: Handlers, chunks: seq<seq<byte>>, i: nat)
    requires Settled(hs, START) && i <= |chunks| && Feed(hs, START, Flat(chunks[..i])).Ended?
    ensures Parse(hs, NEW_SESSION, Flat(chunks)) == Feed(hs, START, Flat(chunks[..i]))
  {
    hide Parse;
    FlatCut(chunks, i);
    var s := Flat(chunks);
    assert s[..|Flat(chunks[..i])|] == Flat(chunks[..i]);
    StopStays(hs, START, s, |Flat(chunks[..i])|);
    StartFeed(hs, s);
  }

  lemma Grown(mem: Buffers, mem': Buffers)
    requires |mem| <= |mem'| && forall i :: 0 <= i < |mem| ==> mem[i] <= mem'[i]
    ensures Extends(mem, mem')
  {
  }

  /** An accepted connect packet header, with nothing behind it yet. */
  function Opened(hs: Handlers, sess: Session, c: seq<byte>): Parsed
    requires |c| >= HDR_SIZE
  {
    if PacketSize(c) > CONNECT_SIZE then Running(sess, c)
    else
      var (sess', st) := OnConnectData(hs, sess, DecHeader(c), []);
      if st.Stop? then Ended(sess', st.rc) else Running(sess'.(phase := Later), [])
  }

  /** What the connect packet header alone leads to. */
  lemma ConnectParse(hs: Handlers, sess: Session, c: seq<byte>)
    requires sess.phase == Awaiting && |c| == CONNECT_SIZE
    ensures Consistent(sess, c)
    ensures Parse(hs, sess, c) ==
      var (sess', st) := OnConnect(hs, sess, c);
      if st.Stop? then Ended(sess', st.rc) else Opened(hs, sess', c)
  {
    hide DecHeader, OnConnectData;
    assert c[..CONNECT_SIZE] == c;
    var (sess', st) := OnConnect(hs, sess, c);
    if st.Go? {
      ConnectSize(c);
      if PacketSize(c) <= CONNECT_SIZE {
        assert c[CONNECT_SIZE..PacketSize(c)] == [] && c[PacketSize(c)..] == [];
        var (sess'', st') := OnConnectData(hs, sess', DecHeader(c), []);
        ParseNothing(hs, sess''.(phase := Later));
        assert Parse(hs, sess, c) == Parse(hs, sess', c);
      }
    }
  }

  lemma ParseNothing(hs: Handlers, sess: Session)
    requires sess.phase == Later
    ensures Parse(hs, sess, []) == Running(sess, [])
  {
  }

  function WithIds(p: Parsed, id: u64): Parsed {
    p.(sess := p.sess.(initialId := id, curId := id))
  }

  /** The connect data handler runs before the frame ids are set. */
  lemma OpenedIds(hs: Handlers, sess: Session, c: seq<byte>, id: u64)
    requires |c| >= HDR_SIZE
    ensures Opened(hs, sess.(initialId := id, curId := id), c) == WithIds(Opened(hs, sess, c), id)
  {
    hide DecHeader;
  }

  lemma FeedNone(hs: Handlers, p: Parsed)
    requires Settled(hs, p)
    ensures Feed(hs, p, []) == p
  {
    if p.Running? {
      assert p.pending + [] == p.pending;
    }
  }

  lemma FeedMore(hs: Handlers, p: Parsed, input: seq<byte>, i: nat, n: nat)
    requires Settled(hs, p) && i + n <= |input|
    ensures Settled(hs, Feed(hs, p, input[..i]))
    ensures Feed(hs, Feed(hs, p, input[..i]), input[i..][..n]) == Feed(hs, p, input[..i + n])
  {
    FeedSettled(hs, p, input[..i]);
    FeedTwice(hs, p, input[..i], input[i..][..n]);
    TakeMore(input, i, n);
  }

  lemma StopStays(hs: Handlers, p: Parsed, input: seq<byte>, i: nat)
    requires Settled(hs, p) && i <= |input| && Feed(hs, p, input[..i]).Ended?
    ensures Feed(hs, p, input) == Feed(hs, p, input[..i])
  {
    FeedSettled(hs, p, input[..i]);
    FeedTwice(hs, p, input[..i], input[i..]);
    assert input[..i] + input[i..] == input;
  }

  lemma DecHeaderOf(c: seq<byte>)
    requires |c| == CONNECT_SIZE
    ensures DecHeader(c[..HDR_SIZE]) == DecHeader(c)
  {
    hide DecHeader;
    HeaderMore(c[..HDR_SIZE], c[HDR_SIZE..]);
    assert c == c[..HDR_SIZE] + c[HDR_SIZE..];
  }

  lemma ConnectHeaderOf(c: seq<byte>, t: seq<byte>)
    requires |c| == CONNECT_SIZE
    ensures DecHeader(c + t) == DecHeader(c)
  {
    HeaderMore(c, t);
  }

  lemma InfoPrefix(s: seq<byte>)
    requires |s| >= MEDIA_INFO_SIZE
    ensures DecMediaInfo(s[..MEDIA_INFO_SIZE]) == DecMediaInfo(s)
  {
    hide UnLE;
    var t := s[..MEDIA_INFO_SIZE];
    assert t[0..4] == s[0..4] && t[4..8] == s[4..8] && t[8..12] == s[8..12] && t[12..16] == s[12..16];
    assert t[16..32] == s[16..32];
  }

  lemma FramePrefix(s: seq<byte>)
    requires |s| >= FRAME_SIZE
    ensures DecFrame(s[..FRAME_SIZE]) == DecFrame(s)
  {
    hide UnLE;
    var t := s[..FRAME_SIZE];
    assert t[0..8] == s[0..8] && t[8..16] == s[8..16] && t[16..20] == s[16..20] && t[20..24] == s[20..24];
  }
}
