/** Decoding the escapes of a JSON string, over the string itself. */
module JsonString {
  import opened Sequences
  import opened Bytes
  import opened JsonGrammar
  import opened JsonPrint
  import opened JsonSpec
  import opened Wrappers

  /** What a character behind a backslash stands for; 'u' stands for a code. */
  function Simple(c: byte): Option<byte> {
    if c == QUOTE || c == BACKSLASH || c == 0x2f then Some(c)
    else if c == 0x62 then Some(8)
    else if c == 0x66 then Some(12)
    else if c == 0x6e then Some(10)
    else if c == 0x72 then Some(13)
    else if c == 0x74 then Some(9)
    else None
  }

  const CODE: byte := 0x75

  function HexDigit(c: byte): (d: Option<nat>)
    ensures d.Some? ==> d.value < 16
  {
    var n: int := c;
    if 0x30 <= n <= 0x39 then Some(n - 0x30)
    else if 0x61 <= n <= 0x66 then Some(n - 0x57)
    else if 0x41 <= n <= 0x46 then Some(n - 0x37)
    else None
  }

  function Hex(s: seq<byte>): (n: Option<nat>)
    requires |s| == 4
    ensures n.Some? ==> n.value < 0x1_0000
  {
    var a, b, c, d := HexDigit(s[0]), HexDigit(s[1]), HexDigit(s[2]), HexDigit(s[3]);
    if a.Some? && b.Some? && c.Some? && d.Some? then Some(((a.value * 16 + b.value) * 16 + c.value) * 16 + d.value)
    else None
  }

  function Utf8(ch: nat): (s: seq<byte>)
    requires ch < 0x1_0000
    ensures 1 <= |s| <= 3
  {
    if ch < 0x80 then [ch]
    else if ch < 0x800 then [ch / 0x40 + 0xc0, ch % 0x40 + 0x80]
    else [ch / 0x1000 + 0xe0, ch / 0x40 % 0x40 + 0x80, ch % 0x40 + 0x80]
  }

  /** The first character of a string, decoded, and how much it takes. */
  function DecodeOne(s: seq<byte>): (r: Option<(seq<byte>, nat)>)
    requires s != []
    ensures r.Some? ==> |r.value.0| <= r.value.1 <= |s| && r.value.1 > 0
  {
    if s[0] != BACKSLASH then Some(([s[0]], 1))
    else if |s| < 2 then None
    else if s[1] == CODE then
      if |s| < 6 || Hex(s[2..6]).None? then None else Some((Utf8(Hex(s[2..6]).value), 6))
    else if Simple(s[1]).None? then None
    else Some(([Simple(s[1]).value], 2))
  }

  /** The decoded string; None if an escape is wrong. */
  function Decode(s: seq<byte>): Option<seq<byte>> {
    if s == [] then Some([])
    else
      match DecodeOne(s)
      case None => None
      case Some((out, n)) =>
        match Decode(s[n..])
        case None => None
        case Some(rest) => Some(out + rest)
  }

  function Behind(s: seq<byte>, r: Option<seq<byte>>): Option<seq<byte>> {
    match r
    case None => None
    case Some(t) => Some(s + t)
  }

  /** Decodes a string over itself: the place written to never passes the place read from. */
  method DecodeInPlace(a: array<byte>, start: nat, len: nat) returns (ok: bool, n: nat)
    requires start + len <= a.Length
    modifies a
    ensures n <= len && a[..start] == old(a[..start]) && a[start + len..] == old(a[start + len..])
    ensures ok ==> Decode(old(a[start..start + len])) == Some(a[start..start + n])
    ensures !ok ==> Decode(old(a[start..start + len])) == None
  {
    hide Decode, DecodeOne, Behind;
    var cur, p, end := start, start, start + len;
    ghost var src, done, rest := a[start..end], [], a[start..end];
    BehindNothing(src);
    n := 0;
    while cur < end
      invariant start <= p <= cur <= end
      invariant a[..start] == old(a[..start]) && a[end..] == old(a[end..])
      invariant a[start..p] == done && a[cur..end] == rest
      invariant Decode(src) == Behind(done, Decode(rest))
    {
      DecodeStep(rest, done);
      var one := DecodeOne(a[cur..end]);
      if one.None? {
        return false, 0;
      }
      var out, k := one.value.0, one.value.1;
      Replace(a, start, p, out, cur, k, end);
      done, rest := done + out, rest[k..];
      p, cur := p + |out|, cur + k;
    }
    DecodeNothing(done);
    ok, n := true, p - start;
  }

  /** Writes bytes behind one another. */
  method Store(a: array<byte>, p: nat, out: seq<byte>)
    requires p + |out| <= a.Length
    modifies a
    ensures forall k :: 0 <= k < |out| ==> a[p + k] == out[k]
    ensures forall k :: 0 <= k < p || p + |out| <= k < a.Length ==> a[k] == old(a[k])
  {
    var i := 0;
    while i < |out|
      invariant i <= |out|
      invariant forall k :: 0 <= k < i ==> a[p + k] == out[k]
      invariant forall k :: 0 <= k < p || p + i <= k < a.Length ==> a[k] == old(a[k])
    {
      a[p + i] := out[i];
      i := i + 1;
    }
  }

  /** Puts decoded bytes behind those decoded so far; what is still to be read stays. */
  method Replace(a: array<byte>, start: nat, p: nat, out: seq<byte>, ghost cur: nat, ghost k: nat, ghost end: nat)
    requires start <= p && p + |out| <= cur + k <= end <= a.Length
    modifies a
    ensures a[start..p + |out|] == old(a[start..p]) + out && a[cur + k..end] == old(a[cur..end])[k..]
    ensures a[..start] == old(a[..start]) && a[end..] == old(a[end..])
  {
    ghost var was := a[..];
    SubSlice(was, cur, end, k, end - cur);
    ToEnd(was[cur..end], k);
    assert old(a[cur..end]) == was[cur..end];
    Store(a, p, out);
    Stored(was, a[..], start, p, out, cur + k, end);
    hide Same;
  }

  ghost predicate Same(s: seq<byte>, t: seq<byte>, from: nat, to: nat)
    requires |s| == |t| && to <= |s|
  {
    forall k :: from <= k < to ==> t[k] == s[k]
  }

  lemma SameSlice(s: seq<byte>, t: seq<byte>, from: nat, to: nat, i: nat, j: nat)
    requires |s| == |t| && from <= i <= j <= to <= |s| && Same(s, t, from, to)
    ensures t[i..j] == s[i..j]
  {
  }

  /** What a store leaves: the bytes before, the new ones, and those still to be read. */
  lemma Stored(s: seq<byte>, t: seq<byte>, start: nat, p: nat, out: seq<byte>, cur: nat, end: nat)
    requires |s| == |t| && start <= p && p + |out| <= cur <= end <= |s|
    requires Same(s, t, 0, p) && Same(s, t, p + |out|, |s|)
    requires forall k :: 0 <= k < |out| ==> t[p + k] == out[k]
    ensures t[start..p + |out|] == s[start..p] + out && t[cur..end] == s[cur..end]
    ensures t[..start] == s[..start] && t[end..] == s[end..]
  {
    var q := p + |out|;
    SameSlice(s, t, q, |s|, cur, end);
    SameSlice(s, t, q, |s|, end, |s|);
    SameSlice(s, t, 0, p, 0, start);
    SameSlice(s, t, 0, p, start, p);
    assert t[p..q] == out;
    assert t[start..q] == t[start..p] + t[p..q];
  }

  lemma BehindNothing(s: seq<byte>)
    ensures Decode(s) == Behind([], Decode(s))
  {
    hide Decode;
    if Decode(s).Some? {
      assert [] + Decode(s).value == Decode(s).value;
    }
  }

  lemma BehindMore(s: seq<byte>, t: seq<byte>, r: Option<seq<byte>>)
    ensures Behind(s, Behind(t, r)) == Behind(s + t, r)
  {
    if r.Some? {
      assert s + (t + r.value) == s + t + r.value;
    }
  }

  lemma DecodeNothing(s: seq<byte>)
    ensures Behind(s, Decode([])) == Some(s)
  {
    assert s + [] == s;
  }

  lemma DecodeStep(s: seq<byte>, done: seq<byte>)
    requires s != []
    ensures DecodeOne(s).None? ==> Behind(done, Decode(s)) == None
    ensures DecodeOne(s).Some? ==> var (out, n) := DecodeOne(s).value;
      n <= |s| && Behind(done, Decode(s)) == Behind(done + out, Decode(s[n..]))
  {
    hide DecodeOne;
    if DecodeOne(s).Some? {
      var (out, n) := DecodeOne(s).value;
      assert Decode(s) == Behind(out, Decode(s[n..]));
      hide Decode, Behind;
      BehindMore(done, out, Decode(s[n..]));
    }
  }

  /** A string value as it is used: decoded only if it has escapes. */
  method GetString(a: array<byte>, start: nat, len: nat, escape: bool) returns (ok: bool, n: nat)
    requires start + len <= a.Length && escape == ((BACKSLASH as byte) in a[start..start + len])
    modifies a
    ensures n <= len && ok == Decode(old(a[start..start + len])).Some?
    ensures ok ==> Decode(old(a[start..start + len])) == Some(a[start..start + n])
    ensures !escape ==> a[..] == old(a[..])
    ensures a[..start] == old(a[..start]) && a[start + len..] == old(a[start + len..])
  {
    if escape {
      ok, n := DecodeInPlace(a, start, len);
    } else {
      Plain(a[start..start + len]);
      ok, n := true, len;
    }
  }

  /** Where the text of a string lies. */
  datatype Span = Span(start: nat, len: nat)

  ghost predicate Apart(x: Span, y: Span) { x.start + x.len <= y.start || y.start + y.len <= x.start }

  lemma SliceOutside(s: seq<byte>, t: seq<byte>, x: Span, y: Span)
    requires |s| == |t| && x.start + x.len <= |s| && y.start + y.len <= |s| && Apart(x, y)
    requires t[..x.start] == s[..x.start] && t[x.start + x.len..] == s[x.start + x.len..]
    ensures t[y.start..y.start + y.len] == s[y.start..y.start + y.len]
  {
    var e, lo, hi := x.start + x.len, y.start, y.start + y.len;
    if e <= lo {
      SubSlice(s, e, |s|, lo - e, hi - e);
      SubSlice(t, e, |t|, lo - e, hi - e);
      assert s[e..|s|] == s[e..] && t[e..|t|] == t[e..];
    } else {
      SubSlice(s, 0, x.start, lo, hi);
      SubSlice(t, 0, x.start, lo, hi);
      assert s[0..x.start] == s[..x.start] && t[0..x.start] == t[..x.start];
    }
  }

  lemma SliceFront(s: seq<byte>, t: seq<byte>, y: Span, n: nat)
    requires |s| == |t| && y.start + y.len <= |s| && n <= y.len
    requires t[y.start..y.start + y.len] == s[y.start..y.start + y.len]
    ensures t[y.start..y.start + n] == s[y.start..y.start + n]
  {
    SubSlice(s, y.start, y.start + y.len, 0, n);
    SubSlice(t, y.start, y.start + y.len, 0, n);
  }

  ghost predicate Within(spans: seq<Span>, n: nat) {
    && (forall i :: 0 <= i < |spans| ==> spans[i].start + spans[i].len <= n)
    && (forall i, j :: 0 <= i < j < |spans| ==> Apart(spans[i], spans[j]))
  }

  /** The i-th string is in place, decoded to n bytes. */
  ghost predicate InPlace(s: seq<byte>, t: seq<byte>, x: Span, n: nat)
    requires |s| == |t| && x.start + x.len <= |s|
  {
    n <= x.len && Decode(s[x.start..x.start + x.len]) == Some(t[x.start..x.start + n])
  }

  /** The strings of one text, used one after the other: decoding one in place leaves the
      others as they are, decoded or not. */
  method GetStrings(a: array<byte>, spans: seq<Span>) returns (ok: bool, lens: seq<nat>)
    requires Within(spans, a.Length)
    modifies a
    ensures ok ==> |lens| == |spans| && forall i :: 0 <= i < |spans| ==> InPlace(old(a[..]), a[..], spans[i], lens[i])
    ensures !ok ==> exists i ::
      0 <= i < |spans| && Decode(old(a[..])[spans[i].start..spans[i].start + spans[i].len]) == None
  {
    hide Decode, Apart;
    lens := [];
    ghost var src := a[..];
    hide InPlace;
    for i := 0 to |spans|
      invariant |lens| == i
      invariant forall j :: 0 <= j < i ==> InPlace(src, a[..], spans[j], lens[j])
      invariant forall j :: i <= j < |spans| ==>
        a[..][spans[j].start..spans[j].start + spans[j].len] == src[spans[j].start..spans[j].start + spans[j].len]
    {
      var x := spans[i];
      ghost var was := a[..];
      var n;
      ok, n := GetString(a, x.start, x.len, HasEscape(a, x));
      if !ok {
        assert Decode(src[x.start..x.start + x.len]) == None;
        return;
      }
      OthersKept(src, was, a[..], spans, i, lens);
      OneInPlace(src, was, a[..], x, n);
      lens := lens + [n];
    }
    ok := true;
  }

  lemma OneInPlace(src: seq<byte>, s: seq<byte>, t: seq<byte>, x: Span, n: nat)
    requires |src| == |s| == |t| && x.start + x.len <= |s| && n <= x.len
    requires s[x.start..x.start + x.len] == src[x.start..x.start + x.len]
    requires Decode(s[x.start..x.start + x.len]) == Some(t[x.start..x.start + n])
    ensures InPlace(src, t, x, n)
  {
  }

  predicate HasEscape(a: array<byte>, x: Span)
    requires x.start + x.len <= a.Length
    reads a
  {
    (BACKSLASH as byte) in a[x.start..x.start + x.len]
  }

  lemma OthersKept(src: seq<byte>, s: seq<byte>, t: seq<byte>, spans: seq<Span>, i: nat, lens: seq<nat>)
    requires |src| == |s| == |t| && i < |spans| && |lens| == i && Within(spans, |s|)
    requires t[..spans[i].start] == s[..spans[i].start]
    requires t[spans[i].start + spans[i].len..] == s[spans[i].start + spans[i].len..]
    requires forall j :: 0 <= j < i ==> InPlace(src, s, spans[j], lens[j])
    requires forall j :: i <= j < |spans| ==>
      s[spans[j].start..spans[j].start + spans[j].len] == src[spans[j].start..spans[j].start + spans[j].len]
    ensures forall j :: 0 <= j < i ==> InPlace(src, t, spans[j], lens[j])
    ensures forall j :: i < j < |spans| ==>
      t[spans[j].start..spans[j].start + spans[j].len] == src[spans[j].start..spans[j].start + spans[j].len]
  {
    hide Decode;
    forall j | 0 <= j < i ensures InPlace(src, t, spans[j], lens[j]) {
      assert InPlace(src, s, spans[j], lens[j]);
      SliceOutside(s, t, spans[i], spans[j]);
      SliceFront(s, t, spans[j], lens[j]);
    }
    forall j | i < j < |spans|
      ensures t[spans[j].start..spans[j].start + spans[j].len] == src[spans[j].start..spans[j].start + spans[j].len]
    {
      SliceOutside(s, t, spans[i], spans[j]);
    }
  }

  /** A string without escapes is itself. */
  lemma {:induction false} Plain(s: seq<byte>)
    requires (BACKSLASH as byte) !in s
    ensures Decode(s) == Some(s)
  {
    if s != [] {
      Plain(s[1..]);
      assert s == [s[0]] + s[1..];
    }
  }

  // Escaping

  function HexChar(d: nat): (c: tchar)
    requires d < 16
  {
    if d < 10 then d + 0x30 else d + 0x57
  }

  /** A byte as it is written in a string: quotes, backslashes and control characters are
      escaped. */
  function EscapeOne(b: byte): (s: text)
    ensures |s| > 0
  {
    var n: int := b;
    if n == 0x22 then [BACKSLASH, QUOTE]
    else if n == 0x5c then [BACKSLASH, BACKSLASH]
    else if n == 8 then [BACKSLASH, 0x62]
    else if n == 12 then [BACKSLASH, 0x66]
    else if n == 10 then [BACKSLASH, 0x6e]
    else if n == 13 then [BACKSLASH, 0x72]
    else if n == 9 then [BACKSLASH, 0x74]
    else if n < 0x20 then [BACKSLASH, 0x75, 0x30, 0x30, HexChar(n / 16), HexChar(n % 16)]
    else [n]
  }

  function Escaped(s: seq<byte>): text {
    if s == [] then [] else EscapeOne(s[0]) + Escaped(s[1..])
  }

  function AsBytes(s: text): (r: seq<byte>)
    ensures |r| == |s| && forall i :: 0 <= i < |s| ==> r[i] == s[i]
  {
    seq(|s|, i requires 0 <= i < |s| => s[i])
  }

  lemma AsBytesAppend(s: text, t: text)
    ensures AsBytes(s + t) == AsBytes(s) + AsBytes(t)
  {
  }

  lemma DecodeEscapeOne(b: byte, tail: seq<byte>)
    ensures var s := AsBytes(EscapeOne(b)) + tail;
      s != [] && DecodeOne(s) == Some(([b], |EscapeOne(b)|)) && s[|EscapeOne(b)|..] == tail
  {
    var e := EscapeOne(b);
    var s := AsBytes(e) + tail;
    assert s[0] == e[0];
    if |e| > 1 {
      assert s[1] == e[1];
    }
    if |e| == 6 {
      var h := s[2..6];
      assert h[0] == 0x30 && h[1] == 0x30 && h[2] == HexChar(b / 16) && h[3] == HexChar(b % 16);
      assert Hex(h) == Some(b);
    }
  }

  /** Escaping any bytes gives a string that can be quoted, and decoding gives them back. */
  lemma {:induction false} DecodeEscaped(s: seq<byte>)
    ensures Decode(AsBytes(Escaped(s))) == Some(s) && RawOk(Escaped(s))
  {
    hide DecodeOne, EscapeOne;
    if s != [] {
      DecodeEscaped(s[1..]);
      var e, rest := EscapeOne(s[0]), Escaped(s[1..]);
      AsBytesAppend(e, rest);
      DecodeEscapeOne(s[0], AsBytes(rest));
      EscapeOneOk(s[0], rest);
      assert s == [s[0]] + s[1..];
    }
  }

  lemma EscapeOneOk(b: byte, rest: text)
    requires RawOk(rest)
    ensures RawOk(EscapeOne(b) + rest)
  {
    var e := EscapeOne(b);
    var s := e + rest;
    if |e| == 1 {
      assert s[1..] == rest;
    } else if |e| == 2 {
      assert s[2..] == rest;
    } else {
      assert s[2..][1..] == s[3..] && s[3..][1..] == s[4..] && s[4..][1..] == s[5..] && s[5..][1..] == rest;
      assert RawOk(s[5..]);
      assert RawOk(s[4..]);
      assert RawOk(s[3..]);
    }
  }

  /** Any bytes, written as a JSON string and parsed, come back. */
  lemma StringsRoundTrip(s: seq<byte>)
    ensures var raw := Escaped(s);
      && ParseText(Print(Str(raw, BACKSLASH in raw))) == Some(Str(raw, BACKSLASH in raw))
      && Decode(AsBytes(raw)) == Some(s)
  {
    hide Decode, Escaped, ParseText, Print, RawOk;
    DecodeEscaped(s);
    RoundTrip(Str(Escaped(s), BACKSLASH in Escaped(s)));
  }
}
