/** KMP packets: their headers and the structures behind them. */
module KmpFormat {
  import opened Bytes

  const MAX_HEADER_SIZE: nat := 64 * 1024
  const MAX_DATA_SIZE: nat := 16 * 1024 * 1024
  const INVALID_FRAME_ID: u64 := 0xffff_ffff_ffff_ffff

  const PACKET_CONNECT: u32 := 0x74636e63         // cnct
  const PACKET_MEDIA_INFO: u32 := 0x666e696d      // minf
  const PACKET_FRAME: u32 := 0x6d617266           // fram
  const PACKET_NULL: u32 := 0x6c6c756e            // null
  const PACKET_END_OF_STREAM: u32 := 0x74736f65   // eost
  const PACKET_ACK_FRAMES: u32 := 0x666b6361      // ackf

  const MEDIA_VIDEO: u32 := 0
  const MEDIA_SUBTITLE: u32 := 2

  const HDR_SIZE: nat := 16
  const CONNECT_SIZE: nat := 104
  const MEDIA_INFO_SIZE: nat := 32
  const FRAME_SIZE: nat := 24

  datatype Header = Header(ptype: u32, headerSize: u32, dataSize: u32, reserved: u32)

  /** `params` holds the video or audio fields, as stored. */
  datatype MediaInfo = MediaInfo(mediaType: u32, codecId: u32, timescale: u32, bitrate: u32, params: seq<byte>)

  datatype Frame = Frame(created: i64, dts: i64, fl: u32, ptsDelay: i32)

  function EncHeader(h: Header): (s: seq<byte>)
    ensures |s| == HDR_SIZE
  {
    LE(h.ptype, 4) + LE(h.headerSize, 4) + LE(h.dataSize, 4) + LE(h.reserved, 4)
  }

  function Word(s: seq<byte>, at: nat): (n: u32)
    requires at + 4 <= |s|
  {
    RadixValues();
    UnLE(s[at..at + 4])
  }

  function Long(s: seq<byte>, at: nat): (n: u64)
    requires at + 8 <= |s|
  {
    RadixValues();
    UnLE(s[at..at + 8])
  }

  function DecHeader(s: seq<byte>): Header
    requires |s| >= HDR_SIZE
  {
    Header(Word(s, 0), Word(s, 4), Word(s, 8), Word(s, 12))
  }

  function EncMediaInfo(m: MediaInfo): (s: seq<byte>)
    requires |m.params| == 16
    ensures |s| == MEDIA_INFO_SIZE
  {
    LE(m.mediaType, 4) + LE(m.codecId, 4) + LE(m.timescale, 4) + LE(m.bitrate, 4) + m.params
  }

  function DecMediaInfo(s: seq<byte>): (m: MediaInfo)
    requires |s| >= MEDIA_INFO_SIZE
    ensures |m.params| == 16
  {
    MediaInfo(Word(s, 0), Word(s, 4), Word(s, 8), Word(s, 12), s[16..32])
  }

  function EncFrame(f: Frame): (s: seq<byte>)
    ensures |s| == FRAME_SIZE
  {
    LE(OfI64(f.created), 8) + LE(OfI64(f.dts), 8) + LE(f.fl, 4) + LE(OfI32(f.ptsDelay), 4)
  }

  function DecFrame(s: seq<byte>): Frame
    requires |s| >= FRAME_SIZE
  {
    Frame(ToI64(Long(s, 0)), ToI64(Long(s, 8)), Word(s, 16), ToI32(Word(s, 20)))
  }

  lemma WordAt(a: seq<byte>, n: u32, b: seq<byte>)
    ensures Word(a + LE(n, 4) + b, |a|) == n
  {
    var s := a + LE(n, 4) + b;
    assert s[|a|..|a| + 4] == LE(n, 4);
    Field32(n);
  }

  lemma LongAt(a: seq<byte>, n: u64, b: seq<byte>)
    ensures Long(a + LE(n, 8) + b, |a|) == n
  {
    var s := a + LE(n, 8) + b;
    assert s[|a|..|a| + 8] == LE(n, 8);
    Field64(n);
  }

  lemma HeaderRoundTrip(h: Header, tail: seq<byte>)
    ensures DecHeader(EncHeader(h) + tail) == h
    ensures var s := EncHeader(h) + tail;
      Word(s, 0) == h.ptype && Word(s, 4) == h.headerSize && Word(s, 8) == h.dataSize && Word(s, 12) == h.reserved
  {
    hide Word, LE;
    var a, b, c, d := LE(h.ptype, 4), LE(h.headerSize, 4), LE(h.dataSize, 4), LE(h.reserved, 4);
    var s := EncHeader(h) + tail;
    assert s == [] + a + (b + c + d + tail);
    assert s == a + b + (c + d + tail);
    assert s == (a + b) + c + (d + tail);
    assert s == (a + b + c) + d + tail;
    WordAt([], h.ptype, b + c + d + tail);
    WordAt(a, h.headerSize, c + d + tail);
    WordAt(a + b, h.dataSize, d + tail);
    WordAt(a + b + c, h.reserved, tail);
  }

  lemma MediaInfoRoundTrip(m: MediaInfo, tail: seq<byte>)
    requires |m.params| == 16
    ensures DecMediaInfo(EncMediaInfo(m) + tail) == m
    ensures var s := EncMediaInfo(m) + tail;
      && Word(s, 0) == m.mediaType && Word(s, 4) == m.codecId && Word(s, 8) == m.timescale && Word(s, 12) == m.bitrate
      && s[16..32] == m.params
  {
    hide Word, LE;
    var a, b, c, d := LE(m.mediaType, 4), LE(m.codecId, 4), LE(m.timescale, 4), LE(m.bitrate, 4);
    var s := EncMediaInfo(m) + tail;
    var p := m.params + tail;
    assert s == [] + a + (b + c + d + p);
    assert s == a + b + (c + d + p);
    assert s == (a + b) + c + (d + p);
    assert s == (a + b + c) + d + p;
    WordAt([], m.mediaType, b + c + d + p);
    WordAt(a, m.codecId, c + d + p);
    WordAt(a + b, m.timescale, d + p);
    WordAt(a + b + c, m.bitrate, p);
    assert s[16..32] == m.params;
  }

  lemma FrameRoundTrip(f: Frame, tail: seq<byte>)
    ensures DecFrame(EncFrame(f) + tail) == f
    ensures var s := EncFrame(f) + tail;
      && Long(s, 0) == f.created % U64 && Long(s, 8) == f.dts % U64
      && Word(s, 16) == f.fl && Word(s, 20) == f.ptsDelay % U32
  {
    hide Word, Long, LE;
    var a, b, c, d := LE(OfI64(f.created), 8), LE(OfI64(f.dts), 8), LE(f.fl, 4), LE(OfI32(f.ptsDelay), 4);
    var s := EncFrame(f) + tail;
    assert s == [] + a + (b + c + d + tail);
    assert s == a + b + (c + d + tail);
    assert s == (a + b) + c + (d + tail);
    assert s == (a + b + c) + d + tail;
    LongAt([], OfI64(f.created), b + c + d + tail);
    LongAt(a, OfI64(f.dts), c + d + tail);
    WordAt(a + b, f.fl, d + tail);
    WordAt(a + b + c, OfI32(f.ptsDelay), tail);
  }
}
