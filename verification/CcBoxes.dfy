/** The boxes of a caption sample (section 4.2 of ISO/IEC 14496-12). */
module CcBoxes {
  import opened Bytes
  import opened Wrappers

  const BOX_HEADER: nat := 8

  const VTTC: seq<byte> := [0x76, 0x74, 0x74, 0x63]
  const STTG: seq<byte> := [0x73, 0x74, 0x74, 0x67]
  const PAYL: seq<byte> := [0x70, 0x61, 0x79, 0x6c]

  /** The low 32 bits, most significant byte first. */
  function BE32(n: nat): (s: seq<byte>)
    ensures |s| == 4
  {
    [n / 0x100_0000 % 0x100, n / 0x1_0000 % 0x100, n / 0x100 % 0x100, n % 0x100]
  }

  function UnBE32(s: seq<byte>): (n: nat)
    requires |s| == 4
  {
    var a: int, b: int, c: int := s[0], s[1], s[2];
    0x100_0000 * a + 0x1_0000 * b + 0x100 * c + s[3]
  }

  lemma BE32RoundTrip(n: nat)
    requires n < U32
    ensures UnBE32(BE32(n)) == n
  {
    var a, b, c := n / 0x100, n / 0x1_0000, n / 0x100_0000;
    assert b == a / 0x100 && c == b / 0x100 && c < 0x100;
    assert n == a * 0x100 + n % 0x100 && a == b * 0x100 + a % 0x100 && b == c * 0x100 + b % 0x100;
  }

  /** A box; its size field counts the header too. */
  function Box(kind: seq<byte>, content: seq<byte>): (s: seq<byte>)
    requires |kind| == 4
    ensures |s| == BOX_HEADER + |content|
  {
    BE32(BOX_HEADER + |content|) + kind + content
  }

  /** What a reader takes off the front: kind, content, and the rest. */
  function TakeBox(s: seq<byte>): Option<(seq<byte>, seq<byte>, seq<byte>)> {
    if |s| < BOX_HEADER then None
    else
      var size := UnBE32(s[..4]);
      if size < BOX_HEADER || size > |s| then None
      else Some((s[4..8], s[8..size], s[size..]))
  }

  lemma BoxRoundTrip(kind: seq<byte>, content: seq<byte>, rest: seq<byte>)
    requires |kind| == 4 && BOX_HEADER + |content| < U32
    ensures TakeBox(Box(kind, content) + rest) == Some((kind, content, rest))
  {
    hide BE32, UnBE32;
    var s := Box(kind, content) + rest;
    assert s[..4] == BE32(BOX_HEADER + |content|);
    BE32RoundTrip(BOX_HEADER + |content|);
    assert s[4..8] == kind && s[8..BOX_HEADER + |content|] == content && s[BOX_HEADER + |content|..] == rest;
  }

  /** Present only if there are settings. */
  function SettingsBox(settings: seq<byte>): seq<byte> {
    if settings == [] then [] else Box(STTG, settings)
  }

  /** The sample: one box, with the settings, if any, and the text. */
  function Sample(settings: seq<byte>, text: seq<byte>): seq<byte> {
    Box(VTTC, SettingsBox(settings) + Box(PAYL, text))
  }

  /** The settings and the text of a sample: one vttc box and nothing behind it, with an
      optional sttg box and then one payl box in it. */
  function ReadSample(s: seq<byte>): Option<(seq<byte>, seq<byte>)> {
    match TakeBox(s)
    case None => None
    case Some((kind, content, rest)) =>
      if kind != VTTC || rest != [] then None
      else
        match TakeBox(content)
        case None => None
        case Some((kind1, content1, rest1)) =>
          if kind1 == PAYL then if rest1 == [] then Some(([], content1)) else None
          else if kind1 != STTG then None
          else
            match TakeBox(rest1)
            case None => None
            case Some((kind2, content2, rest2)) =>
              if kind2 == PAYL && rest2 == [] then Some((content1, content2)) else None
  }

  /** A reader of the boxes gets the settings and the text back, every size being true. */
  lemma SampleRoundTrip(settings: seq<byte>, text: seq<byte>)
    requires |Sample(settings, text)| < U32
    ensures ReadSample(Sample(settings, text)) == Some((settings, text))
  {
    hide Box, TakeBox;
    SampleSizes(settings, text);
    var inner := SettingsBox(settings) + Box(PAYL, text);
    BoxRoundTrip(VTTC, inner, []);
    assert Box(VTTC, inner) + [] == Sample(settings, text);
    BoxRoundTrip(PAYL, text, []);
    assert Box(PAYL, text) + [] == Box(PAYL, text);
    if settings == [] {
      assert inner == Box(PAYL, text);
    } else {
      BoxRoundTrip(STTG, settings, Box(PAYL, text));
    }
  }

  lemma SampleSizes(settings: seq<byte>, text: seq<byte>)
    ensures |SettingsBox(settings)| <= BOX_HEADER + |settings|
    ensures |Sample(settings, text)| == BOX_HEADER + |SettingsBox(settings) + Box(PAYL, text)|
    ensures BOX_HEADER + |text| <= |Sample(settings, text)|
    ensures settings != [] ==> BOX_HEADER + |settings| <= |Sample(settings, text)|
  {
  }
}
