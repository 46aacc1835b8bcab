/** The packets a sender writes behind the connect packet. */
module KmpPackets {
  import opened Bytes
  import opened KmpFormat

  const FRAME_PACKET_SIZE: nat := HDR_SIZE + FRAME_SIZE

  function MediaInfoPacket(m: MediaInfo, extra: seq<byte>): seq<byte>
    requires |m.params| == 16 && |extra| < U32
  {
    EncHeader(Header(PACKET_MEDIA_INFO, HDR_SIZE + MEDIA_INFO_SIZE, |extra|, 0)) + EncMediaInfo(m) + extra
  }

  function FramePacket(f: Frame, data: seq<byte>): seq<byte>
    requires |data| < U32
  {
    EncHeader(Header(PACKET_FRAME, FRAME_PACKET_SIZE, |data|, 0)) + EncFrame(f) + data
  }

  function NullPacket(): seq<byte> {
    EncHeader(Header(PACKET_NULL, HDR_SIZE, 0, 0))
  }

  function EndPacket(): seq<byte> {
    EncHeader(Header(PACKET_END_OF_STREAM, HDR_SIZE, 0, 0))
  }
}
