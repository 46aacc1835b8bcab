/** The JSON pretty-printer: it copies tokens and writes the spaces between them anew, into
    buffers of a fixed size. */
module JsonPretty {
  import opened Sequences
  import opened Bytes
  import opened JsonTokens

  const INDENT: nat := 4
  const MAX_DEPTH: nat := 16
  const MAX_SEP_LEN: nat := 1 + MAX_DEPTH * INDENT
  const BUF_SIZE: nat := 1024

  /** A line break and the indentation. */
  function Separator(len: nat): (s: seq<byte>)
    requires len > 0
    ensures |s| == len && s[0] == 0x0a && AllSpaces(s)
  {
    [0x0a] + seq(len - 1, _ => 0x20)
  }

  function Deeper(len: nat): (r: nat)
    ensures len > 0 ==> r > 0
  {
    if len + INDENT > MAX_SEP_LEN then MAX_SEP_LEN else len + INDENT
  }

  function Shallower(len: nat): (r: nat)
    ensures len > 0 ==> r > 0
  {
    if len > INDENT then len - INDENT else len
  }

  function FirstSeparator(level: nat): (n: nat)
    ensures 0 < n <= MAX_SEP_LEN
  {
    if 1 + level * INDENT > MAX_SEP_LEN then MAX_SEP_LEN else 1 + level * INDENT
  }

  /** The output depends on the tokens only. An empty container stays on its line. */
  function Layout(ts: seq<Token>, sep: nat): seq<byte>
    requires sep > 0
    decreases |ts|
  {
    if ts == [] then []
    else if ts[0].Word? then ts[0].w + Layout(ts[1..], sep)
    else if IsOpen(ts[0].c) then
      if |ts| == 1 then [ts[0].c]
      else if ts[1].Mark? && IsClose(ts[1].c) then [ts[0].c] + ([ts[1].c] + Layout(ts[2..], sep))
      else [ts[0].c] + (Separator(Deeper(sep)) + Layout(ts[1..], Deeper(sep)))
    else if IsClose(ts[0].c) then Separator(Shallower(sep)) + [ts[0].c] + Layout(ts[1..], Shallower(sep))
    else if ts[0].c == COMMA then [COMMA] + Separator(sep) + Layout(ts[1..], sep)
    else [ts[0].c, 0x20] + Layout(ts[1..], sep)
  }

  /** Output buffers are filled before another is taken. */
  class Writer {
    var chunks: seq<seq<byte>>     // the last one is being filled
    var size: nat                  // of those before it

    ghost predicate Valid()
      reads this
    {
      && chunks != [] && |chunks[|chunks| - 1]| <= BUF_SIZE
      && (forall i :: 0 <= i < |chunks| - 1 ==> |chunks[i]| == BUF_SIZE)
      && size == |Flat(chunks[..|chunks| - 1])|
    }

    ghost function Written(): seq<byte>
      reads this`chunks
    {
      Flat(chunks)
    }

    constructor ()
      ensures Valid() && Written() == [] && fresh(this)
    {
      chunks, size := [[]], 0;
      new;
      FlatNone<byte>();
      FlatHead(chunks);
      assert chunks[..0] == [] && chunks[1..] == [];
    }

    method Write(data: seq<byte>)
      requires Valid()
      modifies this
      ensures Valid() && Written() == old(Written()) + data
    {
      hide Flat;
      var p := 0;
      assert Written() + data[..0] == Written();
      while true
        invariant Valid() && p <= |data| && Written() == old(Written()) + data[..p]
        decreases |data| - p, |chunks[|chunks| - 1]|
      {
        var srcLeft, dstLeft := |data| - p, BUF_SIZE - |chunks[|chunks| - 1]|;
        if srcLeft <= dstLeft {
          Fill(data[p..]);
          assert data[..p] + data[p..] == data;
          break;
        }
        Fill(data[p..p + dstLeft]);
        assert data[..p + dstLeft] == data[..p] + data[p..p + dstLeft];
        p := p + dstLeft;
        Alloc();
      }
    }

    method Fill(data: seq<byte>)
      requires Valid() && |chunks[|chunks| - 1]| + |data| <= BUF_SIZE
      modifies this`chunks
      ensures Valid() && Written() == old(Written()) + data
      ensures |chunks[|chunks| - 1]| == |old(chunks)[|old(chunks)| - 1]| + |data|
    {
      hide Flat;
      var k := |chunks| - 1;
      FlatSnoc(chunks[..k], chunks[k]);
      FlatSnoc(chunks[..k], chunks[k] + data);
      assert chunks == chunks[..k] + [chunks[k]];
      assert chunks[k := chunks[k] + data] == chunks[..k] + [chunks[k] + data];
      assert chunks[k := chunks[k] + data][..k] == chunks[..k];
      chunks := chunks[k := chunks[k] + data];
    }

    method Alloc()
      requires Valid() && |chunks[|chunks| - 1]| == BUF_SIZE
      modifies this
      ensures Valid() && Written() == old(Written()) && chunks[|chunks| - 1] == []
    {
      hide Flat;
      var k := |chunks| - 1;
      FlatSnoc(chunks[..k], chunks[k]);
      FlatSnoc(chunks, []);
      assert chunks == chunks[..k] + [chunks[k]];
      assert (chunks + [[]])[..k + 1] == chunks;
      size := size + |chunks[k]|;
      chunks := chunks + [[]];
    }

    /** The size of all that was written. */
    method Close() returns (total: nat)
      requires Valid()
      modifies this`size
      ensures total == |Written()| == size
    {
      hide Flat;
      var k := |chunks| - 1;
      FlatSnoc(chunks[..k], chunks[k]);
      assert chunks == chunks[..k] + [chunks[k]];
      size := size + |chunks[k]|;
      total := size;
    }
  }

  /** The rest of the output from here, with what has not been copied yet. */
  ghost function Rest(json: seq<byte>, start: nat, p: nat, sep: nat): seq<byte>
    requires start <= p <= |json| && sep > 0
  {
    json[start..p] + Layout(Lex(json[p..]), sep)
  }

  /** What the character under the cursor leads to. */
  lemma LayoutStep(s: seq<byte>, sep: nat)
    requires s != [] && sep > 0
    ensures var c, out := s[0], Layout(Lex(s), sep);
      if IsSpace(c) then out == Layout(Lex(s[1..]), sep)
      else if IsOpen(c) then OpenStep(s, sep)
      else if IsClose(c) then out == Separator(Shallower(sep)) + [c] + Layout(Lex(s[1..]), Shallower(sep))
      else if c == COMMA then out == [c] + Separator(sep) + Layout(Lex(s[1..]), sep)
      else if c == COLON then out == [c, 0x20] + Layout(Lex(s[1..]), sep)
      else out == s[..WordLength(s)] + Layout(Lex(s[WordLength(s)..]), sep)
  {
    hide Separator, SkipCSpaces, WordLength;
    var c := s[0];
    if IsOpen(c) {
      var t := SkipCSpaces(s[1..]);
      var ts := Lex(t);
      assert ([Mark(c)] + ts)[1..] == ts;
      FirstToken(t);
      assert |ts| > 0 ==> ([Mark(c)] + ts)[2..] == ts[1..];
    } else if IsMark(c) {
      assert ([Mark(c)] + Lex(s[1..]))[1..] == Lex(s[1..]);
    } else if !IsSpace(c) {
      var w, rest := s[..WordLength(s)], Lex(s[WordLength(s)..]);
      assert ([Word(w)] + rest)[1..] == rest;
    }
  }

  /** Behind an opening mark: nothing, a closing mark, or the first token inside. */
  ghost predicate OpenStep(s: seq<byte>, sep: nat)
    requires s != [] && sep > 0
  {
    var c, t, out := s[0], SkipCSpaces(s[1..]), Layout(Lex(s), sep);
    if t == [] then out == [c]
    else if IsClose(t[0]) then out == [c] + ([t[0]] + Layout(Lex(t[1..]), sep))
    else out == [c] + (Separator(Deeper(sep)) + Layout(Lex(t), Deeper(sep)))
  }

  lemma FirstToken(t: seq<byte>)
    requires t == [] || !IsCSpace(t[0])
    ensures Lex(t) == [] <==> t == []
    ensures t != [] && IsClose(t[0]) ==> Lex(t)[0] == Mark(t[0]) && Lex(t)[1..] == Lex(t[1..])
    ensures t != [] && !IsClose(t[0]) ==> !(Lex(t)[0].Mark? && IsClose(Lex(t)[0].c))
  {
    hide SkipCSpaces, WordLength;
    if t != [] && IsMark(t[0]) && !IsOpen(t[0]) {
      assert ([Mark(t[0])] + Lex(t[1..]))[1..] == Lex(t[1..]);
    }
  }

  /** Passes over the spaces behind an opening mark. */
  method PassSpaces(json: seq<byte>, p: nat) returns (q: nat)
    requires p <= |json|
    ensures p <= q <= |json| && json[q..] == SkipCSpaces(json[p..])
  {
    q := p;
    while q < |json| && IsCSpace(json[q])
      invariant p <= q <= |json| && SkipCSpaces(json[q..]) == SkipCSpaces(json[p..])
    {
      assert json[q..][1..] == json[q + 1..];
      q := q + 1;
    }
  }

  /** Passes over a string or a literal. */
  method PassWord(json: seq<byte>, p: nat) returns (q: nat)
    requires p < |json|
    ensures p < q <= |json| && q == p + WordLength(json[p..])
  {
    hide StringRest, LiteralRest;
    ghost var s := json[p + 1..];
    assert json[p..][1..] == s;
    q := p + 1;
    if json[p] == QUOTE {
      assert json[q..] == s;
      while q < |json|
        invariant p < q <= |json| && StringRest(s) == q - (p + 1) + StringRest(json[q..])
        decreases |json| - q
      {
        StringStep(json, q);
        if json[q] == QUOTE {
          q := q + 1;
          return;
        }
        if json[q] == BACKSLASH && q + 1 < |json| {
          q := q + 1;
        }
        q := q + 1;
      }
      StringEnds(json, q);
    } else {
      assert json[q..] == s;
      while q < |json| && !EndsWord(json[q])
        invariant p < q <= |json| && LiteralRest(s) == q - (p + 1) + LiteralRest(json[q..])
      {
        LiteralStep(json, q);
        q := q + 1;
      }
      LiteralEnds(json, q);
    }
  }

  lemma StringStep(json: seq<byte>, q: nat)
    requires q < |json|
    ensures StringRest(json[q..]) ==
      if json[q] == QUOTE then 1
      else if json[q] == BACKSLASH && q + 1 < |json| then 2 + StringRest(json[q + 2..])
      else 1 + StringRest(json[q + 1..])
  {
    var s := json[q..];
    assert s[1..] == json[q + 1..];
    if |s| > 1 {
      assert s[2..] == json[q + 2..];
    }
  }

  lemma StringEnds(json: seq<byte>, q: nat)
    requires q == |json|
    ensures StringRest(json[q..]) == 0
  {
  }

  lemma LiteralStep(json: seq<byte>, q: nat)
    requires q < |json| && !EndsWord(json[q])
    ensures LiteralRest(json[q..]) == 1 + LiteralRest(json[q + 1..])
  {
    assert json[q..][1..] == json[q + 1..];
  }

  lemma LiteralEnds(json: seq<byte>, q: nat)
    requires q <= |json| && (q == |json| || EndsWord(json[q]))
    ensures LiteralRest(json[q..]) == 0
  {
  }

  /** One round of the scan. */
  method Step(ctx: Writer, json: seq<byte>, p0: nat, start0: nat, sep0: nat) returns (p: nat, start: nat, sep: nat)
    requires ctx.Valid() && start0 <= p0 < |json| && 0 < sep0 <= MAX_SEP_LEN
    modifies ctx
    ensures ctx.Valid() && start <= p <= |json| && p > p0 && 0 < sep <= MAX_SEP_LEN
    ensures ctx.Written() + Rest(json, start, p, sep) == old(ctx.Written()) + Rest(json, start0, p0, sep0)
  {
    hide Lex, Layout, Flat, Separator, OpenStep, WordLength, Writer.Valid;
    p, start, sep := p0, start0, sep0;
    ghost var before, s, done := ctx.Written(), json[p..], json[start..p];
    LayoutStep(s, sep);
    var c := json[p];
    assert s[1..] == json[p + 1..];
    if IsSpace(c) {
      ctx.Write(json[start..p]);
      p := p + 1;
      start := p;
      Joined(before, done, [], [], Layout(Lex(json[p..]), sep));
    } else if IsOpen(c) {
      p, start, sep := Open(ctx, json, p, start, sep);
    } else if c == COMMA {
      SliceMore(json, start, p);
      p := p + 1;
      ctx.Write(json[start..p]);
      start := p;
      ctx.Write(Separator(sep));
      Joined(before, done, [c], Separator(sep), Layout(Lex(json[p..]), sep));
    } else if c == COLON {
      SliceMore(json, start, p);
      p := p + 1;
      ctx.Write(json[start..p]);
      start := p;
      ctx.Write([0x20]);
      assert [c, 0x20] == [c] + [0x20];
      Joined(before, done, [c], [0x20], Layout(Lex(json[p..]), sep));
    } else if IsClose(c) {
      ctx.Write(json[start..p]);
      start := p;
      p := p + 1;
      sep := Shallower(sep);
      ctx.Write(Separator(sep));
      assert json[start..p] == [c];
      JoinedLast(before, done, Separator(sep), [c], Layout(Lex(json[p..]), sep));
    } else {
      p := PassWord(json, p);
      assert json[start..p] == done + s[..p - p0] && json[p..] == s[p - p0..];
      JoinedLast(before, [], done, s[..p - p0], Layout(Lex(json[p..]), sep));
    }
  }

  /** An opening mark: the indentation grows unless the container is empty. */
  method Open(ctx: Writer, json: seq<byte>, p0: nat, start0: nat, sep0: nat) returns (p: nat, start: nat, sep: nat)
    requires ctx.Valid() && start0 <= p0 < |json| && 0 < sep0 <= MAX_SEP_LEN
    requires IsOpen(json[p0]) && OpenStep(json[p0..], sep0)
    modifies ctx
    ensures ctx.Valid() && start <= p <= |json| && p > p0 && 0 < sep <= MAX_SEP_LEN
    ensures ctx.Written() + Rest(json, start, p, sep) == old(ctx.Written()) + Rest(json, start0, p0, sep0)
  {
    hide Lex, Layout, Flat, Separator, Writer.Valid, SkipCSpaces;
    p, start, sep := p0, start0, sep0;
    ghost var before, s, done, c := ctx.Written(), json[p..], json[start..p], json[p];
    SliceMore(json, start, p);
    p := p + 1;
    assert s[1..] == json[p..];
    ctx.Write(json[start..p]);
    p := PassSpaces(json, p);
    start := p;
    ghost var t := json[p..];
    if p >= |json| {
      LexNone();
      assert Layout(Lex(t), sep) == [] && json[start..p] == [];
      Joined(before, done, [c], [], []);
      return;
    }
    if IsClose(json[p]) {
      p := p + 1;
      assert json[start..p] == [t[0]] && json[p..] == t[1..];
      JoinedLast(before, done, [c], [t[0]], Layout(Lex(json[p..]), sep));
      return;
    }
    sep := Deeper(sep);
    ctx.Write(Separator(sep));
    Joined(before, done, [c], Separator(sep), Layout(Lex(t), sep));
  }

  lemma SliceMore(json: seq<byte>, start: nat, p: nat)
    requires start <= p < |json|
    ensures json[start..p + 1] == json[start..p] + [json[p]]
  {
  }

  /** What was pending is written, and two more pieces. */
  lemma Joined(before: seq<byte>, done: seq<byte>, a: seq<byte>, b: seq<byte>, rest: seq<byte>)
    ensures before + (done + a) + b + ([] + rest) == before + (done + (a + b + rest))
    ensures before + (done + a) + b + ([] + rest) == before + (done + (a + (b + rest)))
    ensures before + done + ([] + rest) == before + (done + rest)
    ensures before + (done + a) + ([] + rest) == before + (done + (a + rest))
  {
  }

  lemma JoinedLast(before: seq<byte>, done: seq<byte>, a: seq<byte>, b: seq<byte>, rest: seq<byte>)
    ensures before + done + a + (b + rest) == before + (done + (a + b + rest))
    ensures before + (done + a) + (b + rest) == before + (done + (a + b + rest))
    ensures before + (a + b + rest) == before + (a + (b + rest))
    ensures before + (done + a) + (b + rest) == before + (done + (a + (b + rest)))
  {
  }

  method Pretty(json: seq<byte>, level: nat) returns (chunks: seq<seq<byte>>, size: nat)
    ensures Flat(chunks) == Layout(Lex(json), FirstSeparator(level)) && size == |Flat(chunks)|
    ensures chunks != [] && |chunks[|chunks| - 1]| <= BUF_SIZE
    ensures forall i :: 0 <= i < |chunks| - 1 ==> |chunks[i]| == BUF_SIZE
  {
    hide Lex, Layout, Flat, Separator;
    var ctx := new Writer();
    var sep := FirstSeparator(level);
    ghost var all := Layout(Lex(json), sep);
    var p: nat, start: nat := 0, 0;
    assert json[0..] == json && json[0..0] == [] && [] + all == all;
    while p < |json|
      invariant start <= p <= |json| && 0 < sep <= MAX_SEP_LEN && ctx.Valid() && fresh(ctx)
      invariant ctx.Written() + Rest(json, start, p, sep) == all
      decreases |json| - p
    {
      p, start, sep := Step(ctx, json, p, start, sep);
    }
    LexNone();
    assert json[p..] == [];
    assert json[start..p] + [] == json[start..p];
    ctx.Write(json[start..p]);
    size := ctx.Close();
    chunks := ctx.chunks;
  }

  lemma LexNone()
    ensures Lex([]) == [] && forall sep: nat :: sep > 0 ==> Layout([], sep) == []
  {
  }

  // What the output keeps

  /** The spaces of the output: those before each token, the last at the end. */
  function Gaps(ts: seq<Token>, sep: nat, lead: seq<byte>): (ws: seq<seq<byte>>)
    requires sep > 0
    ensures |ws| == |ts| + 1
    decreases |ts|
  {
    if ts == [] then [lead]
    else if ts[0].Word? then [lead] + Gaps(ts[1..], sep, [])
    else if IsOpen(ts[0].c) then
      if |ts| == 1 then [lead] + [[]]
      else if ts[1].Mark? && IsClose(ts[1].c) then [lead] + ([[]] + Gaps(ts[2..], sep, []))
      else [lead] + Gaps(ts[1..], Deeper(sep), Separator(Deeper(sep)))
    else if IsClose(ts[0].c) then [lead + Separator(Shallower(sep))] + Gaps(ts[1..], Shallower(sep), [])
    else if ts[0].c == COMMA then [lead] + Gaps(ts[1..], sep, Separator(sep))
    else [lead] + Gaps(ts[1..], sep, [0x20])
  }

  lemma RenderCons(t: Token, ts: seq<Token>, w: seq<byte>, ws: seq<seq<byte>>)
    requires Spacing(ts, ws) && AllSpaces(w)
    ensures Spacing([t] + ts, [w] + ws)
    ensures Render([t] + ts, [w] + ws) == w + Text(t) + Render(ts, ws)
  {
    assert ([t] + ts)[1..] == ts && ([w] + ws)[1..] == ws;
  }

  /** The output is the same tokens, with other spaces. */
  lemma {:induction false} LayoutIsRendering(ts: seq<Token>, sep: nat, lead: seq<byte>)
    requires sep > 0 && AllSpaces(lead)
    ensures Render(ts, Gaps(ts, sep, lead)) == lead + Layout(ts, sep)
    ensures Spacing(ts, Gaps(ts, sep, lead))
    decreases |ts|
  {
    hide *;
    if ts == [] {
      NoLayout(sep, lead);
    } else if ts[0].Mark? && IsOpen(ts[0].c) {
      OpenIsRendering(ts, sep, lead);
    } else {
      var before, sep', next := TokenLayout(ts, sep, lead);
      LayoutIsRendering(ts[1..], sep', next);
      RenderCons(ts[0], ts[1..], lead + before, Gaps(ts[1..], sep', next));
      assert ts == [ts[0]] + ts[1..];
      Associate(lead, before, Text(ts[0]));
      Associate(lead, before + Text(ts[0]), next + Layout(ts[1..], sep'));
    }
  }

  lemma NoLayout(sep: nat, lead: seq<byte>)
    requires sep > 0 && AllSpaces(lead)
    ensures Render([], Gaps([], sep, lead)) == lead + Layout([], sep) && Spacing([], Gaps([], sep, lead))
  {
    RenderNone(lead);
  }

  /** A token that opens nothing: what comes before it, and before the next one. */
  lemma TokenLayout(ts: seq<Token>, sep: nat, lead: seq<byte>) returns (before: seq<byte>, sep': nat, next: seq<byte>)
    requires ts != [] && !(ts[0].Mark? && IsOpen(ts[0].c)) && sep > 0 && AllSpaces(lead)
    ensures sep' > 0 && AllSpaces(lead + before) && AllSpaces(next)
    ensures Layout(ts, sep) == before + Text(ts[0]) + (next + Layout(ts[1..], sep'))
    ensures Gaps(ts, sep, lead) == [lead + before] + Gaps(ts[1..], sep', next)
  {
    hide Separator, AllSpaces, Deeper, Shallower, TokenOk, Layout, Gaps;
    SpacesAre(sep, lead);
    OneLayout(ts, sep, lead);
    before, sep', next := [], sep, [];
    assert lead + [] == lead;
    if ts[0].Mark? {
      if IsClose(ts[0].c) {
        SpacesAre(Shallower(sep), lead);
        before, sep' := Separator(Shallower(sep)), Shallower(sep);
      } else {
        next := if ts[0].c == COMMA then Separator(sep) else [0x20];
        Associate([ts[0].c], next, Layout(ts[1..], sep));
        assert [ts[0].c] + [0x20] == [ts[0].c, 0x20];
      }
    } else {
      assert [] + Layout(ts[1..], sep) == Layout(ts[1..], sep);
    }
  }

  lemma OneLayout(ts: seq<Token>, sep: nat, lead: seq<byte>)
    requires ts != [] && !(ts[0].Mark? && IsOpen(ts[0].c)) && sep > 0
    ensures ts[0].Word? ==>
      Layout(ts, sep) == ts[0].w + Layout(ts[1..], sep) && Gaps(ts, sep, lead) == [lead] + Gaps(ts[1..], sep, [])
    ensures ts[0].Mark? && IsClose(ts[0].c) ==> var s := Shallower(sep);
      && Layout(ts, sep) == Separator(s) + [ts[0].c] + Layout(ts[1..], s)
      && Gaps(ts, sep, lead) == [lead + Separator(s)] + Gaps(ts[1..], s, [])
    ensures ts[0].Mark? && !IsClose(ts[0].c) ==> var next := if ts[0].c == COMMA then Separator(sep) else [0x20];
      && Layout(ts, sep) == (if ts[0].c == COMMA then [COMMA] + next else [ts[0].c, 0x20]) + Layout(ts[1..], sep)
      && Gaps(ts, sep, lead) == [lead] + Gaps(ts[1..], sep, next)
  {
  }

  /** How an opening mark is laid out. */
  lemma OpenLayout(ts: seq<Token>, sep: nat, lead: seq<byte>)
    requires ts != [] && ts[0].Mark? && IsOpen(ts[0].c) && sep > 0
    ensures var c, gaps, out := ts[0].c, Gaps(ts, sep, lead), Layout(ts, sep);
      if |ts| == 1 then gaps == [lead] + [[]] && out == [c]
      else if ts[1].Mark? && IsClose(ts[1].c) then
        gaps == [lead] + ([[]] + Gaps(ts[2..], sep, [])) && out == [c] + ([ts[1].c] + Layout(ts[2..], sep))
      else
        && gaps == [lead] + Gaps(ts[1..], Deeper(sep), Separator(Deeper(sep)))
        && out == [c] + (Separator(Deeper(sep)) + Layout(ts[1..], Deeper(sep)))
  {
    hide Separator, Deeper;
  }

  lemma {:induction false} OpenIsRendering(ts: seq<Token>, sep: nat, lead: seq<byte>)
    requires ts != [] && ts[0].Mark? && IsOpen(ts[0].c) && sep > 0 && AllSpaces(lead)
    ensures Render(ts, Gaps(ts, sep, lead)) == lead + Layout(ts, sep)
    ensures Spacing(ts, Gaps(ts, sep, lead))
    decreases |ts|, 0
  {
    hide Separator, Render, AllSpaces, Spacing, Deeper, Layout, Gaps;
    SpacesAre(sep, lead);
    SpacesAre(Deeper(sep), lead);
    OpenLayout(ts, sep, lead);
    assert ts == [ts[0]] + ts[1..];
    if |ts| == 1 {
      RenderNone([]);
      RenderCons(ts[0], [], lead, [[]]);
      assert ts == [ts[0]] + [];
    } else if ts[1].Mark? && IsClose(ts[1].c) {
      LayoutIsRendering(ts[2..], sep, []);
      var ws := Gaps(ts[2..], sep, []);
      assert ts[1..] == [ts[1]] + ts[2..];
      RenderCons(ts[1], ts[2..], [], ws);
      RenderCons(ts[0], ts[1..], lead, [[]] + ws);
    } else {
      LayoutIsRendering(ts[1..], Deeper(sep), Separator(Deeper(sep)));
      RenderCons(ts[0], ts[1..], lead, Gaps(ts[1..], Deeper(sep), Separator(Deeper(sep))));
    }
  }

  lemma SpacesAre(sep: nat, lead: seq<byte>)
    requires sep > 0 && AllSpaces(lead)
    ensures AllSpaces([]) && AllSpaces([0x20]) && AllSpaces(Separator(sep)) && AllSpaces(lead + Separator(sep))
  {
  }

  lemma RenderNone(w: seq<byte>)
    ensures Render([], [w]) == w && (AllSpaces(w) ==> Spacing([], [w]))
  {
  }

  /** For every valid JSON text, whatever its spaces: the output without spaces outside
      strings is the text without spaces outside strings; texts of the same tokens give the
      same output; and printing the output again changes nothing. */
  lemma MeaningPreserved(ts: seq<Token>, ws: seq<seq<byte>>, level: nat)
    requires Valid(ts) && Spacing(ts, ws)
    ensures var s, sep := Render(ts, ws), FirstSeparator(level);
      && Layout(Lex(s), sep) == Layout(ts, sep)
      && Compact(Layout(Lex(s), sep)) == Compact(s)
      && Layout(Lex(Layout(Lex(s), sep)), sep) == Layout(Lex(s), sep)
  {
    hide Lex, Layout, Compact, Render, Wellformed, Spacing, Valid, FirstSeparator;
    ValidWellformed(ts);
    var sep := FirstSeparator(level);
    LexRender(ts, ws);
    NoSpaces();
    LayoutIsRendering(ts, sep, []);
    LexRender(ts, Gaps(ts, sep, []));
    assert [] + Layout(ts, sep) == Layout(ts, sep);
  }

  lemma NoSpaces()
    ensures AllSpaces([])
  {
  }

  /** How a token changes the depth of what follows. */
  function Delta(t: Token): int {
    if !t.Mark? then 0 else if IsOpen(t.c) then 1 else if IsClose(t.c) then -1 else 0
  }

  /** How deep the token behind the first n is nested. */
  function DepthAt(ts: seq<Token>, n: nat, d: int): int
    requires n <= |ts|
  {
    if n == 0 then d else DepthAt(ts[1..], n - 1, d + Delta(ts[0]))
  }

  ghost predicate Fits(ts: seq<Token>, n: nat, d: int) { n <= |ts| && 0 <= DepthAt(ts, n, d) <= 16 }

  ghost predicate WithinBound(ts: seq<Token>, d: int) {
    forall n :: 0 <= n <= |ts| ==> Fits(ts, n, d)
  }

  function NewLine(depth: nat): seq<byte> { [0x0a] + seq(4 * depth, _ => 0x20) }

  /** What stands behind a token, and in front of one, at some depth. */
  function Trailing(t: Token, depth: int): seq<byte> {
    if !t.Mark? || IsClose(t.c) then []
    else if IsOpen(t.c) || t.c == COMMA then if depth < 0 then [] else NewLine(depth)
    else [0x20]
  }

  function Leading(t: Token, depth: int): seq<byte> {
    if t.Mark? && IsClose(t.c) && depth >= 0 then NewLine(depth) else []
  }

  function Between(ts: seq<Token>, k: nat, d: int): seq<byte>
    requires 0 < k < |ts|
  {
    if ts[k - 1].Mark? && IsOpen(ts[k - 1].c) && ts[k].Mark? && IsClose(ts[k].c) then []
    else Trailing(ts[k - 1], DepthAt(ts, k, d)) + Leading(ts[k], DepthAt(ts, k + 1, d))
  }

  lemma NewLineIs(depth: nat)
    requires depth <= 16
    ensures Separator(1 + 4 * depth) == NewLine(depth)
    ensures Deeper(1 + 4 * depth) == if depth < 16 then 1 + 4 * (depth + 1) else 65
    ensures Shallower(1 + 4 * depth) == if depth > 0 then 1 + 4 * (depth - 1) else 1
  {
  }

  lemma BoundAt(ts: seq<Token>, d: int, n: nat)
    requires WithinBound(ts, d) && n <= |ts|
    ensures 0 <= DepthAt(ts, n, d) <= 16
  {
    assert Fits(ts, n, d);
  }

  lemma BoundRest(ts: seq<Token>, d: int)
    requires WithinBound(ts, d) && ts != []
    ensures WithinBound(ts[1..], d + Delta(ts[0])) && 0 <= d <= 16 && 0 <= d + Delta(ts[0]) <= 16
  {
    BoundAt(ts, d, 0);
    var rest, d' := ts[1..], d + Delta(ts[0]);
    forall n | 0 <= n <= |rest| ensures Fits(rest, n, d') {
      BoundAt(ts, d, n + 1);
    }
    BoundAt(ts[1..], d + Delta(ts[0]), 0);
  }

  lemma BetweenRest(ts: seq<Token>, k: nat, d: int)
    requires 1 < k < |ts|
    ensures Between(ts, k, d) == Between(ts[1..], k - 1, d + Delta(ts[0]))
  {
  }

  /** While the depth stays within the bound, each line is indented by the depth of its
      first token, and there are no other spaces but one behind a colon. */
  lemma {:induction false} IndentIsDepth(ts: seq<Token>, d: nat, lead: seq<byte>, k: nat)
    requires WithinBound(ts, d) && k < |ts|
    ensures Gaps(ts, 1 + 4 * d, lead)[k] ==
      if k == 0 then lead + Leading(ts[0], DepthAt(ts, 1, d)) else Between(ts, k, d)
    decreases |ts|, 1
  {
    hide WithinBound, Separator, NewLine, Gaps, Between;
    BoundRest(ts, d);
    DepthNext(ts, d);
    var t, d' := ts[0], d + Delta(ts[0]);
    if t.Mark? && IsOpen(t.c) && |ts| == 1 {
      GapsOne(ts, d, lead);
    } else if t.Mark? && IsOpen(t.c) && ts[1].Mark? && IsClose(ts[1].c) {
      IndentPair(ts, d, lead, k);
    } else {
      GapsStep(ts, d, lead);
      if k == 1 {
        IndentIsDepth(ts[1..], d', Trailing(t, d'), 0);
        BetweenFirst(ts, d);
      } else if k > 1 {
        IndentIsDepth(ts[1..], d', Trailing(t, d'), k - 1);
        BetweenRest(ts, k, d);
      }
    }
  }

  lemma DepthNext(ts: seq<Token>, d: int)
    requires ts != []
    ensures DepthAt(ts, 1, d) == d + Delta(ts[0])
    ensures |ts| > 1 ==> DepthAt(ts, 2, d) == DepthAt(ts[1..], 1, d + Delta(ts[0])) == d + Delta(ts[0]) + Delta(ts[1])
    ensures |ts| > 2 ==>
      ts[1..][1..] == ts[2..] && DepthAt(ts, 3, d) == DepthAt(ts[2..], 1, d + Delta(ts[0]) + Delta(ts[1]))
  {
    if |ts| > 2 {
      assert ts[1..][1..] == ts[2..];
      assert DepthAt(ts, 3, d) == DepthAt(ts[1..], 2, d + Delta(ts[0]));
    }
  }

  lemma GapsOne(ts: seq<Token>, d: nat, lead: seq<byte>)
    requires |ts| == 1 && ts[0].Mark? && IsOpen(ts[0].c)
    ensures Gaps(ts, 1 + 4 * d, lead)[0] == lead == lead + Leading(ts[0], d + 1)
  {
  }

  lemma GapsStep(ts: seq<Token>, d: nat, lead: seq<byte>)
    requires ts != [] && d <= 16 && 0 <= d + Delta(ts[0]) <= 16
    requires ts[0].Mark? && IsOpen(ts[0].c) ==> |ts| > 1 && !(ts[1].Mark? && IsClose(ts[1].c))
    ensures var d' := d + Delta(ts[0]);
      Gaps(ts, 1 + 4 * d, lead) == [lead + Leading(ts[0], d')] + Gaps(ts[1..], 1 + 4 * d', Trailing(ts[0], d'))
  {
    NewLineIs(d);
    NewLineIs(d + Delta(ts[0]));
    hide Separator, NewLine, Deeper, Shallower;
    assert lead + [] == lead;
  }

  lemma GapsPair(ts: seq<Token>, d: nat, lead: seq<byte>)
    requires |ts| > 1 && ts[0].Mark? && IsOpen(ts[0].c) && ts[1].Mark? && IsClose(ts[1].c)
    ensures Gaps(ts, 1 + 4 * d, lead) == [lead] + ([[]] + Gaps(ts[2..], 1 + 4 * d, []))
    ensures Delta(ts[0]) == 1 && Delta(ts[1]) == -1 && Leading(ts[0], d + 1) == []
  {
  }

  /** Nothing stands between the brackets of an empty container. */
  lemma {:induction false} IndentPair(ts: seq<Token>, d: nat, lead: seq<byte>, k: nat)
    requires WithinBound(ts, d) && k < |ts|
    requires |ts| > 1 && ts[0].Mark? && IsOpen(ts[0].c) && ts[1].Mark? && IsClose(ts[1].c)
    ensures Gaps(ts, 1 + 4 * d, lead)[k] ==
      if k == 0 then lead + Leading(ts[0], DepthAt(ts, 1, d)) else Between(ts, k, d)
    decreases |ts|, 0
  {
    hide WithinBound, Gaps, Between, Leading, Trailing, DepthAt;
    GapsPair(ts, d, lead);
    DepthNext(ts, d);
    BoundRest(ts, d);
    BoundRest(ts[1..], d + 1);
    BetweenPair(ts, d);
    NothingAdded(lead);
    if k >= 2 {
      DropTwice(ts, 1, 1);
      DropTwice(ts, 2, k - 2);
      IndentIsDepth(ts[2..], d, [], k - 2);
      if k > 2 {
        BetweenRest(ts, k, d);
        BetweenRest(ts[1..], k - 1, d + 1);
      }
    }
  }

  lemma NothingAdded(s: seq<byte>)
    ensures s + [] == s
  {
  }

  /** Around the closing bracket of an empty container. */
  lemma BetweenPair(ts: seq<Token>, d: int)
    requires |ts| > 1 && ts[0].Mark? && IsOpen(ts[0].c) && ts[1].Mark? && IsClose(ts[1].c)
    ensures Between(ts, 1, d) == []
    ensures |ts| > 2 ==> Between(ts, 2, d) == [] + Leading(ts[2], DepthAt(ts, 3, d))
  {
  }

  lemma BetweenFirst(ts: seq<Token>, d: int)
    requires |ts| > 1
    requires !(ts[0].Mark? && IsOpen(ts[0].c) && ts[1].Mark? && IsClose(ts[1].c))
    ensures var d' := d + Delta(ts[0]);
      Between(ts, 1, d) == Trailing(ts[0], d') + Leading(ts[1], DepthAt(ts[1..], 1, d'))
  {
    DepthNext(ts, d);
  }

  /** While the depth of a text stays within the bound, its printing at some level is its
      tokens, each line indented by the depth of its first token. */
  lemma PrintIndents(ts: seq<Token>, level: nat) returns (ws: seq<seq<byte>>)
    requires WithinBound(ts, level)
    ensures |ws| == |ts| + 1 && Layout(ts, FirstSeparator(level)) == Render(ts, ws)
    ensures forall k :: 0 < k < |ts| ==> ws[k] == Between(ts, k, level)
  {
    hide WithinBound, Gaps, Between, Layout, Render;
    BoundAt(ts, level, 0);
    NoSpaces();
    ws := Gaps(ts, 1 + 4 * level, []);
    LayoutIsRendering(ts, 1 + 4 * level, []);
    assert [] + Layout(ts, 1 + 4 * level) == Layout(ts, 1 + 4 * level);
    forall k | 0 < k < |ts| ensures ws[k] == Between(ts, k, level) {
      IndentIsDepth(ts, level, [], k);
    }
  }
}
