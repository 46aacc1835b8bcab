/** One caption service: collects the settings and the text of a caption and writes it as a
    frame of nested boxes, whose sizes are filled in when they are known. */
module CcService {
  import opened Bytes
  import opened CcBoxes
  import opened CcSettings
  import opened CcTime
  import opened KmpFormat
  import opened KmpOut
  import opened KmpPackets
  import opened KmpUpstreams
  import opened Sequences
  import opened Wrappers


  datatype State = Idle | Started | WroteHeader

  class Service {
    const out: Track
    var state: State
    var buf: seq<byte>             // the used part of the buffer
    var curFrame: Marker
    var vttc: Marker
    var payl: Marker
    var error: bool

    ghost var base: seq<byte>      // the stream before the current frame
    ghost var settings: seq<byte>  // of the current frame
    ghost var text: seq<byte>

    /** What precedes the text of the current frame in the stream. */
    ghost function Lead(): seq<byte>
      reads this`base, this`settings
    {
      base + Zeros(FRAME_PACKET_SIZE) + Zeros(BOX_HEADER) + SettingsBox(settings)
    }

    ghost predicate InFrame()
      reads this`buf, this`curFrame, this`vttc, this`payl, this`base, this`settings, this`text, out`open, out`stream
    {
      && out.open == [curFrame, vttc, payl]
      && curFrame.written == |base| && vttc.written == |base| + FRAME_PACKET_SIZE && payl.written == |Lead()|
      && out.stream + buf == Lead() + Zeros(BOX_HEADER) + text && |buf| <= BUF_SIZE
    }

    ghost predicate Valid()
      reads this, out, out.queue
    {
      && out.Valid() && out.queue.bufs != []
      && (if state == WroteHeader then InFrame() else out.open == [] && |buf| <= BUF_SIZE)
    }

    constructor (out: Track)
      requires out.Valid() && out.queue.bufs != [] && out.open == []
      ensures Valid() && this.out == out && state == Idle && buf == [] && !error
    {
      this.out := out;
      state, buf, error := Idle, [], false;
      base, settings, text := [], [], [];
    }

    method FrameStart()
      requires Valid()
      modifies this`state, this`error
      ensures error == old(error || state != Idle)
      ensures state == (if error then old(state) else Started)
      ensures old(state) == Idle ==> Valid()
    {
      hide Track.Valid, Track.Stuck, Broken;
      if error {
        return;
      }
      if state != Idle {
        error := true;
        return;
      }
      state := Started;
    }

    method AddSetting(str: seq<byte>)
      requires Valid()
      modifies this`buf, this`error
      ensures Valid() && error == old(error || state != Started)
      ensures buf == if error then old(buf) else AddTo(old(buf), str)
    {
      hide Track.Valid, Track.Stuck, Broken, InFrame;
      if error {
        return;
      }
      if state != Started {
        error := true;
        return;
      }
      if |str| + 1 > BUF_SIZE - |buf| {
        return;
      }
      if |buf| > 0 {
        buf := buf + [0x20];
      }
      buf := buf + str;
    }

    method Write(data: seq<byte>)
      requires out.Valid() && out.queue.bufs != [] && !error
      modifies this`error, out`pos, out`last, out`end, out`written, out`sendPending, out`writeError, out`upstreams,
        out`stream, out.queue
      ensures error == out.writeError && (error ==> out.Stuck())
      ensures Broken(out.upstreams) == Broken(old(out.upstreams))
      ensures !error ==> out.Valid() && out.queue.bufs != [] && out.stream == old(out.stream) + data
    {
      hide Track.Safe, Track.Stuck, Track.AllHanded, Broken;
      var ok := out.Write(data);
      if !ok {
        error := true;
      }
    }

    method WriteSettings()
      requires out.Valid() && out.queue.bufs != [] && buf != [] && !error
      modifies this`error, out`pos, out`last, out`end, out`written, out`sendPending, out`writeError, out`upstreams,
        out`stream, out.queue
      ensures !error ==> out.Valid() && out.queue.bufs != [] && out.stream == old(out.stream) + SettingsBox(buf)
      ensures (error ==> out.Stuck()) && Broken(out.upstreams) == Broken(old(out.upstreams))
    {
      hide Track.Valid, Track.Stuck, Broken, BE32;
      var header := BE32(BOX_HEADER + |buf|) + STTG;
      Write(header);
      if error {
        return;
      }
      Write(buf);
      assert header + buf == SettingsBox(buf);
    }

    /** The first piece of text of a caption: everything before the text is written. */
    method Open()
      requires Valid() && !error && state == Started
      modifies this, out, out.queue
      ensures !error ==>
        Valid() && state == WroteHeader && base == old(out.stream) && settings == old(buf) && text == []
      ensures (error ==> out.Stuck()) && Broken(out.upstreams) == Broken(old(out.upstreams))
    {
      hide Track.Valid, Track.Safe, Track.Stuck, SettingsBox, Broken;
      base, settings, text := out.stream, buf, [];
      StartFrame();
      if error {
        return;
      }
      OpenBoxes();
      if error {
        return;
      }
      StartText();
    }

    /** Room for the packet header; the outer box starts behind it. */
    method StartFrame()
      requires out.Valid() && out.queue.bufs != [] && out.open == [] && !error
      modifies this`error, this`curFrame, this`vttc, out`pos, out`last, out`end, out`written, out`sendPending,
        out`writeError, out`upstreams, out`stream, out.queue, out`sendBlocked, out`open
      ensures !error ==> out.Valid() && out.queue.bufs != [] && out.open == [curFrame, vttc]
      ensures !error ==> curFrame.written == |old(out.stream)| && vttc.written == |old(out.stream)| + FRAME_PACKET_SIZE
      ensures !error ==> out.stream == old(out.stream) + Zeros(FRAME_PACKET_SIZE)
      ensures (error ==> out.Stuck()) && Broken(out.upstreams) == Broken(old(out.upstreams))
    {
      hide Track.Valid, Track.Safe, Track.Stuck, Broken;
      var ok, m := out.FrameStart();
      if !ok {
        error := true;
        return;
      }
      curFrame := m;
      vttc := out.MarkerStart();
    }

    /** The inner box starts; room for its header is kept in the buffer. */
    method StartText()
      requires out.Valid() && out.queue.bufs != [] && out.open == [curFrame, vttc]
      requires curFrame.written == |base| && vttc.written == |base| + FRAME_PACKET_SIZE && out.stream == Lead() &&
        text == []
      modifies this`payl, this`buf, this`state, out`sendBlocked, out`open
      ensures Valid() && state == WroteHeader
    {
      hide Track.Valid, SettingsBox, Lead;
      payl := out.MarkerStart();
      buf, state := Zeros(BOX_HEADER), WroteHeader;
      NothingYet(out.stream + buf);
    }

    lemma NothingYet(s: seq<byte>)
      ensures text == [] ==> s + text == s
    {
    }

    /** Room for the outer header, then the settings. */
    method OpenBoxes()
      requires out.Valid() && out.queue.bufs != [] && !error
      modifies this`error, out`pos, out`last, out`end, out`written, out`sendPending, out`writeError, out`upstreams,
        out`stream, out.queue
      ensures !error ==> out.Valid() && out.queue.bufs != []
      ensures !error ==> out.stream == old(out.stream) + Zeros(BOX_HEADER) + SettingsBox(buf)
      ensures (error ==> out.Stuck()) && Broken(out.upstreams) == Broken(old(out.upstreams))
    {
      hide Track.Valid, Track.Stuck, Broken;
      Write(Zeros(BOX_HEADER));
      if error {
        return;
      }
      if |buf| > 0 {
        WriteSettings();
      } else {
        assert out.stream + [] == out.stream;
      }
    }

    /** Collects text; full buffers are written out. */
    method Collect(data: seq<byte>)
      requires Valid() && !error && state == WroteHeader
      modifies this`buf, this`text, this`error, out`pos, out`last, out`end, out`written, out`sendPending,
        out`writeError, out`upstreams, out`stream, out.queue
      ensures !error ==> Valid() && text == old(text) + data
      ensures (error ==> out.Stuck()) && Broken(out.upstreams) == Broken(old(out.upstreams))
    {
      hide Track.Valid, Track.Stuck, Broken, Lead;
      var p := 0;
      ghost var text0 := text;
      while p < |data|
        invariant Broken(out.upstreams) == Broken(old(out.upstreams))
        invariant p <= |data| && !error && out.Valid() && out.queue.bufs != [] && InFrame() && text == text0 + data[..p]
        decreases |data| - p, |buf|
      {
        var size := BUF_SIZE - |buf|;
        ghost var s, b, t := out.stream, buf, text;
        if size >= |data| - p {
          MoreText(s, b, Lead() + Zeros(BOX_HEADER), t, data[p..]);
          assert data[..p] + data[p..] == data;
          text, buf := text + data[p..], buf + data[p..];
          return;
        }
        MoreText(s, b, Lead() + Zeros(BOX_HEADER), t, data[p..p + size]);
        assert data[..p + size] == data[..p] + data[p..p + size];
        Write(buf + data[p..p + size]);
        if error {
          return;
        }
        text, buf := text + data[p..p + size], [];
        p := p + size;
      }
      assert data[..p] == data;
    }

    method FrameWrite(data: seq<byte>)
      requires !error ==> Valid()
      modifies this, out, out.queue
      ensures old(error) || old(state) == Idle ==> error && out.stream == old(out.stream)
      ensures Broken(out.upstreams) == Broken(old(out.upstreams))
      ensures error ==> old(error) || old(state) == Idle || out.Stuck()
      ensures !error ==> Valid() && state == WroteHeader
      ensures !error && old(state) == Started ==> base == old(out.stream) && settings == old(buf) && text == data
      ensures !error && old(state) == WroteHeader ==>
        base == old(base) && settings == old(settings) && text == old(text) + data
    {
      hide Track.Valid, Track.Stuck, Broken, InFrame;
      if error {
        return;
      }
      match state {
        case Started =>
          Open();
          if !error {
            Collect(data);
          }
        case WroteHeader =>
          Collect(data);
        case Idle =>
          error := true;
      }
    }

    /** The end of a caption: if it had text, one frame has been added to the stream, a box
        of its settings and its text; if it had none, nothing is written. */
    method FrameEnd(start: i64, end: i64, timescale: nat, lastCreated: i64)
      requires !error ==> Valid()
      modifies this, out, out.queue
      ensures old(error) || old(state) == Idle ==> error && out.stream == old(out.stream)
      ensures Broken(out.upstreams) == Broken(old(out.upstreams))
      ensures error ==> old(error) || old(state) == Idle || out.Stuck()
      ensures !error ==> Valid() && state == Idle
      ensures !error && old(state) == Started ==> out.stream == old(out.stream) && buf == old(buf)
      ensures !error && old(state) == WroteHeader ==>
        buf == [] && out.stream == old(base) + CaptionFrame(Timing(start, end, timescale, lastCreated), old(settings),
          old(text))
    {
      hide Track.Valid, Track.Stuck, Broken, InFrame, Timing;
      if error {
        return;
      }
      match state {
        case Started =>
        case Idle =>
          error := true;
          return;
        case WroteHeader =>
          CloseBoxes();
          if error {
            return;
          }
          CloseFrame(Timing(start, end, timescale, lastCreated));
          if error {
            return;
          }
      }
      state := Idle;
    }

    /** Writes the rest of the text. */
    method Flush()
      requires Valid() && !error && state == WroteHeader
      modifies this`buf, this`error, out`pos, out`last, out`end, out`written, out`sendPending, out`writeError,
        out`upstreams, out`stream, out.queue
      ensures !error ==> out.Valid() && out.queue.bufs != [] && buf == []
      ensures !error ==> out.stream == Lead() + Zeros(BOX_HEADER) + text
      ensures (error ==> out.Stuck()) && Broken(out.upstreams) == Broken(old(out.upstreams))
    {
      hide Track.Valid, Track.Stuck, Broken, Lead;
      if |buf| > 0 {
        Write(buf);
        if error {
          return;
        }
        buf := [];
      }
      assert out.stream + [] == out.stream;
    }

    /** Writes the rest of the text and fills in the sizes of the boxes, inner first. */
    method CloseBoxes()
      requires Valid() && !error && state == WroteHeader
      modifies this`buf, this`error, out`pos, out`last, out`end, out`written, out`sendPending, out`writeError,
        out`upstreams, out`stream, out.queue, out`sendBlocked, out`open
      ensures !error ==> out.Valid() && out.queue.bufs != [] && out.open == [curFrame] && buf == []
      ensures !error ==> out.stream == base + Zeros(FRAME_PACKET_SIZE) + Sample(settings, text)
      ensures curFrame.written == |base|
      ensures (error ==> out.Stuck()) && Broken(out.upstreams) == Broken(old(out.upstreams))
    {
      hide Track.Valid, Track.Stuck, Broken, BE32, Sample, SettingsBox, Splice;
      Flush();
      if error {
        return;
      }
      ClosePaylBox();
      if error {
        return;
      }
      CloseVttcBox();
    }

    method CloseVttcBox()
      requires out.Valid() && out.queue.bufs != [] && !error && out.open == [curFrame, vttc]
      requires vttc.written == |base| + FRAME_PACKET_SIZE && out.stream == Lead() + Box(PAYL, text)
      modifies this`error, out`sendBlocked, out`open, out`stream, out`upstreams, out`sendPending, out.queue`bufs
      ensures !error ==> out.Valid() && out.queue.bufs != [] && out.open == [curFrame]
      ensures !error ==> out.stream == base + Zeros(FRAME_PACKET_SIZE) + Sample(settings, text)
      ensures (error ==> out.Stuck()) && Broken(out.upstreams) == Broken(old(out.upstreams))
    {
      hide Track.Valid, Track.Stuck, Broken, BE32, Sample, SettingsBox, Splice;
      CloseVttc(base, settings, text);
      var size := out.Length() - vttc.written;
      var ok := out.MarkerEnd(vttc, BE32(size) + VTTC);
      if !ok {
        out.BrokenIsStuck();
        error := true;
      }
    }

    method ClosePaylBox()
      requires out.Valid() && out.queue.bufs != [] && !error && out.open == [curFrame, vttc, payl] &&
        payl.written == |Lead()|
      requires out.stream == Lead() + Zeros(BOX_HEADER) + text
      modifies this`error, out`sendBlocked, out`open, out`stream, out`upstreams, out`sendPending, out.queue`bufs
      ensures !error ==> out.Valid() && out.queue.bufs != [] && out.open == [curFrame, vttc]
      ensures !error ==> out.stream == Lead() + Box(PAYL, text)
      ensures (error ==> out.Stuck()) && Broken(out.upstreams) == Broken(old(out.upstreams))
    {
      hide Track.Valid, Track.Stuck, Broken, BE32, SettingsBox, Splice;
      ClosePayl(base, settings, text);
      var size := out.Length() - payl.written;
      var ok := out.MarkerEnd(payl, BE32(size) + PAYL);
      if !ok {
        out.BrokenIsStuck();
        error := true;
      }
    }

    method CloseFrame(frame: Frame)
      requires out.Valid() && out.queue.bufs != [] && out.open == [curFrame] && !error && curFrame.written == |base|
      requires out.stream == base + Zeros(FRAME_PACKET_SIZE) + Sample(settings, text)
      modifies this`error, out`sendBlocked, out`open, out`stream, out`upstreams, out`sendPending, out.queue`bufs
      ensures !error ==> out.Valid() && out.queue.bufs != [] && out.open == []
      ensures !error ==> out.stream == base + CaptionFrame(frame, settings, text)
      ensures (error ==> out.Stuck()) && Broken(out.upstreams) == Broken(old(out.upstreams))
    {
      hide Track.Valid, Track.Stuck, Broken, Sample, EncHeader, EncFrame, Splice;
      var ok := out.FrameEnd(curFrame, Header(PACKET_FRAME, FRAME_PACKET_SIZE, 0, 0), frame);
      if !ok {
        out.BrokenIsStuck();
        error := true;
        return;
      }
      ghost var data := Sample(settings, text);
      SpliceAt(base, Zeros(FRAME_PACKET_SIZE), data, CaptionHead(frame, |data|));
    }
  }

  lemma MoreText(s: seq<byte>, buf: seq<byte>, lead: seq<byte>, text: seq<byte>, d: seq<byte>)
    requires s + buf == lead + text
    ensures s + (buf + d) == lead + (text + d) && (s + (buf + d)) + [] == lead + (text + d)
  {
    assert s + (buf + d) == (s + buf) + d;
    assert lead + (text + d) == (lead + text) + d;
  }

  /** The packet header and the frame structure of a caption; the size is a 32-bit field. */
  function CaptionHead(frame: Frame, size: nat): (s: seq<byte>)
    ensures |s| == FRAME_PACKET_SIZE
  {
    EncHeader(Header(PACKET_FRAME, FRAME_PACKET_SIZE, size % U32, 0)) + EncFrame(frame)
  }

  function CaptionFrame(frame: Frame, settings: seq<byte>, text: seq<byte>): seq<byte> {
    CaptionHead(frame, |Sample(settings, text)|) + Sample(settings, text)
  }

  /** A caption is a frame packet, and its data a sample with the settings and the text. */
  lemma CaptionRead(frame: Frame, settings: seq<byte>, text: seq<byte>)
    requires |Sample(settings, text)| < U32
    ensures CaptionFrame(frame, settings, text) == FramePacket(frame, Sample(settings, text))
    ensures var s := CaptionFrame(frame, settings, text);
      && DecHeader(s) == Header(0x6d617266, 40, |s| - 40, 0) && DecFrame(s[16..]) == frame
      && ReadSample(s[40..]) == Some((settings, text))
  {
    hide EncHeader, EncFrame, DecHeader, DecFrame, Sample, ReadSample;
    var sample := Sample(settings, text);
    var h := Header(PACKET_FRAME, FRAME_PACKET_SIZE, |sample|, 0);
    SampleRoundTrip(settings, text);
    HeaderRoundTrip(h, EncFrame(frame) + sample);
    FrameRoundTrip(frame, sample);
    Associate(EncHeader(h), EncFrame(frame), sample);
    Halves(EncHeader(h), EncFrame(frame) + sample);
    Halves(EncHeader(h) + EncFrame(frame), sample);
  }

  /** A caption from its start to its end. */
  method Caption(svc: Service, settings: seq<seq<byte>>, pieces: seq<seq<byte>>,
                 start: i64, end: i64, timescale: nat, lastCreated: i64)
    requires svc.Valid() && !svc.error && svc.state == Idle
    modifies svc, svc.out, svc.out.queue
    ensures svc.error ==> svc.out.Stuck()
    ensures Broken(svc.out.upstreams) == Broken(old(svc.out.upstreams))
    ensures !svc.error ==> svc.Valid() && svc.state == Idle
    ensures var frame := CaptionFrame(Timing(start, end, timescale, lastCreated), AllSettings(old(svc.buf), settings),
      Flat(pieces));
      !svc.error && pieces != [] ==> svc.buf == [] && svc.out.stream == old(svc.out.stream) + frame
    ensures !svc.error && pieces == [] ==>
      svc.buf == AllSettings(old(svc.buf), settings) && svc.out.stream == old(svc.out.stream)
  {
    hide Service.Valid, Track.Stuck, Broken, Timing, CaptionFrame, AddTo;
    svc.FrameStart();
    var i := 0;
    assert settings[..0] == [];
    while i < |settings|
      invariant Broken(svc.out.upstreams) == Broken(old(svc.out.upstreams))
      invariant i <= |settings| && svc.Valid() && !svc.error && svc.state == Started
      invariant svc.buf == AllSettings(old(svc.buf), settings[..i]) && svc.out.stream == old(svc.out.stream)
    {
      svc.AddSetting(settings[i]);
      assert settings[..i + 1][..i] == settings[..i];
      i := i + 1;
    }
    assert settings[..i] == settings;
    ghost var all := svc.buf;
    i := 0;
    assert pieces[..0] == [];
    while i < |pieces|
      invariant Broken(svc.out.upstreams) == Broken(old(svc.out.upstreams))
      invariant i <= |pieces| && !svc.error && svc.Valid()
      invariant if i == 0 then svc.state == Started && svc.out.stream == old(svc.out.stream) && svc.buf == all
        else (svc.state == WroteHeader && svc.base == old(svc.out.stream) && svc.settings == all
              && svc.text == Flat(pieces[..i]))
    {
      svc.FrameWrite(pieces[i]);
      if svc.error {
        return;
      }
      FlatPrefixSnoc(pieces, i);
      i := i + 1;
    }
    assert pieces[..i] == pieces;
    svc.FrameEnd(start, end, timescale, lastCreated);
  }

  /** A caption, with its timing. */
  datatype Cue = Cue(settings: seq<seq<byte>>, pieces: seq<seq<byte>>, start: i64, end: i64, timescale: nat,
    lastCreated: i64) {
    function Framed(settings: seq<byte>): seq<byte> {
      CaptionFrame(Timing(start, end, timescale, lastCreated), settings, Flat(pieces))
    }
  }

  /** What some captions leave in the buffer. */
  function LeftBehind(buf: seq<byte>, cues: seq<Cue>): seq<byte> {
    if cues == [] then buf
    else
      var n := |cues| - 1;
      if cues[n].pieces != [] then [] else AllSettings(LeftBehind(buf, cues[..n]), cues[n].settings)
  }

  /** The frames of some captions. */
  function Frames(buf: seq<byte>, cues: seq<Cue>): seq<byte> {
    if cues == [] then []
    else
      var n := |cues| - 1;
      Frames(buf, cues[..n]) +
      if cues[n].pieces == [] then [] else cues[n].Framed(AllSettings(LeftBehind(buf, cues[..n]), cues[n].settings))
  }

  /** The frames they should have. */
  function OwnFrames(cues: seq<Cue>): seq<byte> {
    if cues == [] then []
    else
      var n := |cues| - 1;
      OwnFrames(cues[..n]) + if cues[n].pieces == [] then [] else cues[n].Framed(Joined(cues[n].settings))
  }

  /** Since the last caption with text, no setting was kept. */
  predicate Clean(cues: seq<Cue>) {
    cues != [] ==>
      var n := |cues| - 1;
      || cues[n].pieces != []
      || (Clean(cues[..n])
          && forall i :: 0 <= i < |cues[n].settings| ==> cues[n].settings[i] == [] || |cues[n].settings[i]| >= BUF_SIZE)
  }

  lemma {:induction false} CleanLeavesNothing(cues: seq<Cue>)
    ensures LeftBehind([], cues) == [] <==> Clean(cues)
    decreases |cues|
  {
    if cues != [] {
      var n := |cues| - 1;
      CleanLeavesNothing(cues[..n]);
      Leftover(LeftBehind([], cues[..n]), cues[n].settings);
      NothingKept(cues[n].settings);
    }
  }

  /** The k-th caption finds nothing in the buffer, and its settings fit. */
  predicate Proper(cues: seq<Cue>, k: nat)
    requires k < |cues|
  {
    Clean(cues[..k]) && |Joined(cues[k].settings)| <= BUF_SIZE && FirstFits(cues[k].settings)
  }

  /** A run of captions has the frames it should have if each with text is like that. */
  lemma {:induction false} ProperFrames(cues: seq<Cue>)
    requires forall k :: 0 <= k < |cues| && cues[k].pieces != [] ==> Proper(cues, k)
    ensures Frames([], cues) == OwnFrames(cues)
    decreases |cues|
  {
    if cues != [] {
      var n := |cues| - 1;
      forall k | 0 <= k < n && cues[..n][k].pieces != [] ensures Proper(cues[..n], k) {
        assert cues[..n][..k] == cues[..k] && Proper(cues, k);
      }
      ProperFrames(cues[..n]);
      if cues[n].pieces != [] {
        assert Proper(cues, n);
        CleanLeavesNothing(cues[..n]);
        OwnSettings(cues[n].settings);
      }
    }
  }

  /** A run of captions. */
  method Captions(svc: Service, cues: seq<Cue>)
    requires svc.Valid() && !svc.error && svc.state == Idle
    modifies svc, svc.out, svc.out.queue
    ensures svc.error ==> svc.out.Stuck()
    ensures Broken(svc.out.upstreams) == Broken(old(svc.out.upstreams))
    ensures !svc.error ==> svc.Valid() && svc.state == Idle && svc.buf == LeftBehind(old(svc.buf), cues)
    ensures !svc.error ==> svc.out.stream == old(svc.out.stream) + Frames(old(svc.buf), cues)
  {
    hide Service.Valid, Timing, CaptionFrame, AllSettings, Track.Stuck, Broken;
    assert cues[..0] == [];
    for i := 0 to |cues|
      invariant svc.Valid() && !svc.error && svc.state == Idle && svc.buf == LeftBehind(old(svc.buf), cues[..i])
      invariant svc.out.stream == old(svc.out.stream) + Frames(old(svc.buf), cues[..i])
      invariant Broken(svc.out.upstreams) == Broken(old(svc.out.upstreams))
    {
      var c := cues[i];
      assert cues[..i + 1][..i] == cues[..i];
      Caption(svc, c.settings, c.pieces, c.start, c.end, c.timescale, c.lastCreated);
      if svc.error {
        return;
      }
    }
    assert cues[..|cues|] == cues;
  }

  /** A caption with a setting but no text, then one with text and a setting of its own: the
      frame shows both settings. */
  method WrongFrame(svc: Service, text: seq<byte>)
    requires svc.Valid() && !svc.error && svc.state == Idle && svc.buf == []
    modifies svc, svc.out, svc.out.queue
    ensures svc.error ==> svc.out.Stuck()
    ensures var c := Cue([[0x62]], [text], 0, 0, 1, 0); !svc.error ==>
      && svc.out.stream == old(svc.out.stream) + c.Framed([0x61, 0x20, 0x62])
      && svc.out.stream != old(svc.out.stream) + c.Framed(Joined(c.settings))
  {
    hide Service.Valid, Timing, CaptionFrame, Track.Stuck, Broken;
    Caption(svc, [[0x61]], [], 0, 0, 1, 0);
    if svc.error {
      return;
    }
    assert [[0x61]][..0] == [];
    assert svc.buf == [0x61];
    Caption(svc, [[0x62]], [text], 0, 0, 1, 0);
    assert [[0x62]][..0] == [];
    assert AllSettings([0x61], [[0x62]]) == [0x61, 0x20, 0x62];
    FrameSize(Timing(0, 0, 1, 0), [0x61, 0x20, 0x62], Flat([text]));
    FrameSize(Timing(0, 0, 1, 0), [0x62], Flat([text]));
  }

  lemma FrameSize(frame: Frame, settings: seq<byte>, text: seq<byte>)
    requires settings != []
    ensures |CaptionFrame(frame, settings, text)| == FRAME_PACKET_SIZE + 3 * BOX_HEADER + |settings| + |text|
  {
    SampleSizes(settings, text);
  }

  /** Filling in the inner box. */
  lemma ClosePayl(base: seq<byte>, settings: seq<byte>, text: seq<byte>)
    ensures var lead := base + Zeros(FRAME_PACKET_SIZE) + Zeros(BOX_HEADER) + SettingsBox(settings);
      Splice(lead + Zeros(BOX_HEADER) + text, |lead|, BE32(BOX_HEADER + |text|) + PAYL) == lead + Box(PAYL, text)
  {
    hide BE32, SettingsBox;
    var lead := base + Zeros(FRAME_PACKET_SIZE) + Zeros(BOX_HEADER) + SettingsBox(settings);
    var head := BE32(BOX_HEADER + |text|) + PAYL;
    SpliceAt(lead, Zeros(BOX_HEADER), text, head);
    assert head + text == Box(PAYL, text);
    assert lead + head + text == lead + (head + text);
  }

  /** Filling in the outer box. */
  lemma CloseVttc(base: seq<byte>, settings: seq<byte>, text: seq<byte>)
    ensures var inner := SettingsBox(settings) + Box(PAYL, text);
      var start := base + Zeros(FRAME_PACKET_SIZE);
      && start + Zeros(BOX_HEADER) + SettingsBox(settings) + Box(PAYL, text) == start + Zeros(BOX_HEADER) + inner
      && Splice(start + Zeros(BOX_HEADER) + inner, |start|,
        BE32(BOX_HEADER + |inner|) + VTTC) == start + Sample(settings, text)
  {
    hide BE32, SettingsBox;
    var inner := SettingsBox(settings) + Box(PAYL, text);
    var start := base + Zeros(FRAME_PACKET_SIZE);
    var head := BE32(BOX_HEADER + |inner|) + VTTC;
    SpliceAt(start, Zeros(BOX_HEADER), inner, head);
    assert head + inner == Sample(settings, text);
    assert start + head + inner == start + (head + inner);
  }
}
