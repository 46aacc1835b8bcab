/** Escaped strings as code points: what is written with escapes of any kind is read back by
    a reader of UTF-8 (section 3 of RFC 3629) from the decoded string. */
module JsonUnicode {
  import opened Sequences
  import opened Bytes
  import opened JsonGrammar
  import opened JsonPrint
  import opened JsonSpec
  import opened JsonString
  import opened Wrappers

  predicate Follows(b: byte) { 0x80 <= b <= 0xbf }

  /** The first code point of a UTF-8 text, in the shortest form, and its length. */
  function ReadPoint(s: seq<byte>): (r: Option<(nat, nat)>)
    ensures r.Some? ==> 0 < r.value.1 <= |s|
  {
    if s == [] then None
    else
      var a: int, b: int, c: int := s[0], if |s| > 1 then s[1] else 0, if |s| > 2 then s[2] else 0;
      if a <= 0x7f then Some((a, 1))
      else if 0xc2 <= a <= 0xdf then
        if |s| < 2 || !Follows(b) then None else Some(((a - 0xc0) * 64 + (b - 0x80), 2))
      else if 0xe0 <= a <= 0xef then
        if |s| < 3 || !Follows(b) || !Follows(c) || (a == 0xe0 && b < 0xa0) then None
        else Some(((a - 0xe0) * 4096 + (b - 0x80) * 64 + (c - 0x80), 3))
      else None
  }

  function ReadPoints(s: seq<byte>): Option<seq<nat>> {
    if s == [] then Some([])
    else
      match ReadPoint(s)
      case None => None
      case Some((ch, n)) =>
        match ReadPoints(s[n..])
        case None => None
        case Some(rest) => Some([ch] + rest)
  }

  lemma Groups(ch: nat)
    ensures ch == ch / 0x40 * 64 + ch % 0x40
    ensures ch / 0x40 == ch / 0x1000 * 64 + ch / 0x40 % 0x40
  {
    assert ch / 0x1000 == ch / 0x40 / 0x40;
  }

  /** Every code of four hex digits comes out as UTF-8. */
  lemma Utf8RoundTrip(ch: nat, rest: seq<byte>)
    requires ch < 0x1_0000
    ensures ReadPoint(Utf8(ch) + rest) == Some((ch, |Utf8(ch)|)) && (Utf8(ch) + rest)[|Utf8(ch)|..] == rest
  {
    var u := Utf8(ch);
    Halves(u, rest);
    Groups(ch);
    var s := u + rest;
    assert s[0] == u[0] && (|u| > 1 ==> s[1] == u[1]) && (|u| > 2 ==> s[2] == u[2]);
  }

  /** The letters that may stand behind a backslash, and what they stand for. */
  const LETTERS: seq<byte> := [0x22, 0x5c, 0x2f, 0x62, 0x66, 0x6e, 0x72, 0x74]
  const MEANINGS: seq<byte> := [0x22, 0x5c, 0x2f, 8, 12, 10, 13, 9]

  /** How a character is written: as it is, with a letter, or as a code whose digits are in
      upper or lower case. */
  datatype Written = Plainly(c: byte) | Short(k: nat) | Code(ch: nat, upper: seq<bool>)

  predicate WrittenOk(w: Written) {
    match w
    case Plainly(c) => c < 0x80 && c != BACKSLASH
    case Short(k) => k < 8
    case Code(ch, upper) => ch < 0x1_0000 && |upper| == 4
  }

  function Digit(d: nat, upper: bool): byte
    requires d < 16
  {
    if d < 10 then d + 0x30 else if upper then d + 0x37 else d + 0x57
  }

  function Spelled(w: Written): (s: seq<byte>)
    requires WrittenOk(w)
    ensures s != []
  {
    match w
    case Plainly(c) => [c]
    case Short(k) => [BACKSLASH, LETTERS[k]]
    case Code(ch, upper) =>
      [BACKSLASH, 0x75, Digit(ch / 0x1000, upper[0]), Digit(ch / 0x100 % 16, upper[1]), Digit(ch / 16 % 16, upper[2]),
       Digit(ch % 16, upper[3])]
  }

  function Point(w: Written): nat
    requires WrittenOk(w)
  {
    match w
    case Plainly(c) => c
    case Short(k) => MEANINGS[k]
    case Code(ch, _) => ch
  }

  function SpelledAll(ws: seq<Written>): seq<byte>
    requires forall i :: 0 <= i < |ws| ==> WrittenOk(ws[i])
  {
    if ws == [] then [] else Spelled(ws[0]) + SpelledAll(ws[1..])
  }

  function PointsOf(ws: seq<Written>): seq<nat>
    requires forall i :: 0 <= i < |ws| ==> WrittenOk(ws[i])
  {
    if ws == [] then [] else [Point(ws[0])] + PointsOf(ws[1..])
  }

  lemma DigitRead(d: nat, upper: bool)
    requires d < 16
    ensures HexDigit(Digit(d, upper)) == Some(d)
  {
  }

  lemma HexOf(s: seq<byte>, a: nat, b: nat, c: nat, d: nat)
    requires |s| == 4
    requires HexDigit(s[0]) == Some(a) && HexDigit(s[1]) == Some(b) && HexDigit(s[2]) == Some(c) &&
      HexDigit(s[3]) == Some(d)
    ensures Hex(s) == Some(((a * 16 + b) * 16 + c) * 16 + d)
  {
  }

  lemma HexDigits(ch: nat)
    requires ch < 0x1_0000
    ensures ((ch / 0x1000 * 16 + ch / 0x100 % 16) * 16 + ch / 16 % 16) * 16 + ch % 16 == ch
  {
    var p, q := ch / 16, ch / 0x100;
    assert ch == p * 16 + ch % 16 && p == q * 16 + p % 16 && q == q / 16 * 16 + q % 16;
    assert q == p / 16 && q / 16 == ch / 0x1000;
  }

  lemma HexRead(ch: nat, upper: seq<bool>)
    requires ch < 0x1_0000 && |upper| == 4
    ensures Hex(Spelled(Code(ch, upper))[2..6]) == Some(ch)
  {
    var a, b, c, d := ch / 0x1000, ch / 0x100 % 16, ch / 16 % 16, ch % 16;
    DigitRead(a, upper[0]);
    DigitRead(b, upper[1]);
    DigitRead(c, upper[2]);
    DigitRead(d, upper[3]);
    HexDigits(ch);
    var s := Spelled(Code(ch, upper))[2..6];
    assert s == [Digit(a, upper[0]), Digit(b, upper[1]), Digit(c, upper[2]), Digit(d, upper[3])];
    hide Hex, HexDigit, Digit, Spelled;
    HexOf(s, a, b, c, d);
  }

  /** One written character decodes to the UTF-8 bytes of its code point. */
  lemma SpelledDecoded(w: Written, rest: seq<byte>)
    requires WrittenOk(w)
    ensures var s := Spelled(w) + rest;
      Point(w) < 0x1_0000 && DecodeOne(s) == Some((Utf8(Point(w)), |Spelled(w)|)) && s[|Spelled(w)|..] == rest
  {
    Halves(Spelled(w), rest);
    var s := Spelled(w) + rest;
    match w
    case Plainly(c) =>
    case Short(k) => assert s[0] == BACKSLASH && s[1] == LETTERS[k];
    case Code(ch, upper) =>
      HexRead(ch, upper);
      hide Hex, Digit;
      assert s[..6] == Spelled(w) && s[2..6] == Spelled(w)[2..6];
  }

  /** Whatever way the characters of a text are written in a string, decoding the string
      gives the UTF-8 form of the text. */
  lemma {:induction false} WrittenRead(ws: seq<Written>)
    requires forall i :: 0 <= i < |ws| ==> WrittenOk(ws[i])
    ensures Decode(SpelledAll(ws)).Some? && ReadPoints(Decode(SpelledAll(ws)).value) == Some(PointsOf(ws))
  {
    if ws != [] {
      var w, s := ws[0], SpelledAll(ws[1..]);
      WrittenRead(ws[1..]);
      SpelledDecoded(w, s);
      var u, t := Utf8(Point(w)), Decode(s).value;
      hide DecodeOne, Spelled, Utf8, ReadPoint;
      Utf8RoundTrip(Point(w), t);
      assert u + t != [];
    }
  }

  /** The characters of hex digits. */
  predicate HexChar(c: byte) { 0x30 <= c <= 0x39 || 0x41 <= c <= 0x46 || 0x61 <= c <= 0x66 }

  /** What is refused: a backslash at the end or before another letter, a code that is cut
      short or has another digit. */
  lemma RefusedEscape(s: seq<byte>)
    requires s != []
    ensures DecodeOne(s) == None <==>
      && s[0] == BACKSLASH
      && (|s| < 2
          || (s[1] !in LETTERS && s[1] != 0x75)
          || (s[1] == 0x75 && (|s| < 6 || exists i :: 2 <= i < 6 && !HexChar(s[i]))))
  {
    if |s| >= 6 {
      var h := s[2..6];
      assert h[0] == s[2] && h[1] == s[3] && h[2] == s[4] && h[3] == s[5];
    }
    if |s| >= 2 {
      assert s[1] in LETTERS <==> exists k :: 0 <= k < 8 && LETTERS[k] == s[1];
      assert s[1] in LETTERS <==> Simple(s[1]).Some?;
    }
  }
}
