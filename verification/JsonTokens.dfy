/** JSON text as tokens with spaces between them. */
module JsonTokens {
  import opened Bytes
  import opened Wrappers

  const QUOTE: byte := 0x22
  const COMMA: byte := 0x2c
  const COLON: byte := 0x3a
  const BACKSLASH: byte := 0x5c

  predicate IsSpace(c: byte) { c == 0x20 || c == 0x0d || c == 0x0a || c == 0x09 }

  /** The C library's spaces, vertical tab and form feed among them. */
  predicate IsCSpace(c: byte) { c == 0x20 || 9 <= c <= 13 }

  predicate IsOpen(c: byte) { c == 0x5b || c == 0x7b }
  predicate IsClose(c: byte) { c == 0x5d || c == 0x7d }

  /** Where a literal ends. */
  predicate EndsWord(c: byte) { IsClose(c) || c == COMMA || IsSpace(c) }

  predicate IsMark(c: byte) { IsOpen(c) || IsClose(c) || c == COMMA || c == COLON }

  /** A bracket, brace, comma or colon; or a string or literal. */
  datatype Token = Mark(c: byte) | Word(w: seq<byte>)

  function Text(t: Token): seq<byte> {
    match t
    case Mark(c) => [c]
    case Word(w) => w
  }

  function Texts(ts: seq<Token>): seq<byte> {
    if ts == [] then [] else Text(ts[0]) + Texts(ts[1..])
  }

  function SkipCSpaces(s: seq<byte>): (r: seq<byte>)
    ensures |r| <= |s| && (r != [] ==> !IsCSpace(r[0]))
  {
    if s != [] && IsCSpace(s[0]) then SkipCSpaces(s[1..]) else s
  }

  /** How much of what follows its opening quote belongs to a string. */
  function StringRest(s: seq<byte>): (n: nat)
    ensures n <= |s|
  {
    if s == [] then 0
    else if s[0] == QUOTE then 1
    else if s[0] == BACKSLASH && |s| > 1 then 2 + StringRest(s[2..])
    else 1 + StringRest(s[1..])
  }

  /** How much of what follows its first character belongs to a literal. */
  function LiteralRest(s: seq<byte>): (n: nat)
    ensures n <= |s| && (n < |s| ==> EndsWord(s[n]))
  {
    if s == [] || EndsWord(s[0]) then 0 else 1 + LiteralRest(s[1..])
  }

  function WordLength(s: seq<byte>): (n: nat)
    requires s != []
    ensures 0 < n <= |s|
  {
    1 + if s[0] == QUOTE then StringRest(s[1..]) else LiteralRest(s[1..])
  }

  /** The tokens of a text. */
  function Lex(s: seq<byte>): seq<Token>
    decreases |s|
  {
    if s == [] then []
    else if IsSpace(s[0]) then Lex(s[1..])
    else if IsOpen(s[0]) then [Mark(s[0])] + Lex(SkipCSpaces(s[1..]))
    else if IsMark(s[0]) then [Mark(s[0])] + Lex(s[1..])
    else [Word(s[..WordLength(s)])] + Lex(s[WordLength(s)..])
  }

  /** Without the spaces outside strings. */
  function Compact(s: seq<byte>): seq<byte>
    decreases |s|
  {
    if s == [] then []
    else if IsSpace(s[0]) then Compact(s[1..])
    else if s[0] == QUOTE then s[..WordLength(s)] + Compact(s[WordLength(s)..])
    else [s[0]] + Compact(s[1..])
  }

  predicate AllSpaces(s: seq<byte>) { forall i :: 0 <= i < |s| ==> s[i] in {9, 10, 13, 32} }

  /** A whole string, or a literal. */
  predicate WordOk(w: seq<byte>) {
    && w != [] && !IsSpace(w[0]) && !IsCSpace(w[0]) && !IsMark(w[0])
    && if w[0] == QUOTE then Closed(w[1..]) else Plain(w)
  }

  /** What follows an opening quote, up to its closing quote and no further. */
  predicate Closed(s: seq<byte>) {
    s != [] && (if s[0] == QUOTE then |s| == 1
                else if s[0] == BACKSLASH then |s| > 1 && Closed(s[2..])
                else Closed(s[1..]))
  }

  predicate Plain(w: seq<byte>) { forall i :: 0 <= i < |w| ==> !EndsWord(w[i]) && w[i] != QUOTE }

  predicate TokenOk(t: Token) {
    match t
    case Mark(c) => IsMark(c)
    case Word(w) => WordOk(w)
  }

  /** Behind a literal comes a comma or a closing mark, or nothing. */
  predicate Follows(t: Token, next: seq<Token>) {
    t.Word? && t.w != [] && t.w[0] != QUOTE ==> next == [] || (next[0].Mark? && EndsWord(next[0].c))
  }

  predicate Wellformed(ts: seq<Token>) {
    ts != [] ==> TokenOk(ts[0]) && Follows(ts[0], ts[1..]) && Wellformed(ts[1..])
  }

  /** The tokens with spaces between them: ws[i] stands before token i, the last at the end. */
  function Render(ts: seq<Token>, ws: seq<seq<byte>>): seq<byte>
    requires |ws| == |ts| + 1
  {
    ws[0] + if ts == [] then [] else Text(ts[0]) + Render(ts[1..], ws[1..])
  }

  predicate Spacing(ts: seq<Token>, ws: seq<seq<byte>>) {
    |ws| == |ts| + 1 && forall i :: 0 <= i < |ws| ==> AllSpaces(ws[i])
  }

  lemma {:induction false} LexSpaces(a: seq<byte>, s: seq<byte>)
    requires AllSpaces(a)
    ensures Lex(a + s) == Lex(s) && Compact(a + s) == Compact(s)
  {
    if a == [] {
      assert a + s == s;
    } else {
      assert (a + s)[1..] == a[1..] + s;
      LexSpaces(a[1..], s);
    }
  }

  lemma {:induction false} SkipSpaces(a: seq<byte>, s: seq<byte>)
    requires AllSpaces(a) && (s == [] || !IsCSpace(s[0]))
    ensures SkipCSpaces(a + s) == s
  {
    if a == [] {
      assert a + s == s;
    } else {
      assert (a + s)[1..] == a[1..] + s;
      SkipSpaces(a[1..], s);
    }
  }

  lemma {:induction false} ClosedRest(s: seq<byte>, rest: seq<byte>)
    requires Closed(s)
    ensures StringRest(s + rest) == |s|
    decreases |s|
  {
    if s[0] != QUOTE {
      if s[0] == BACKSLASH {
        ClosedRest(s[2..], rest);
        assert (s + rest)[2..] == s[2..] + rest;
      } else {
        ClosedRest(s[1..], rest);
        assert (s + rest)[1..] == s[1..] + rest;
      }
    }
  }

  lemma {:induction false} PlainRest(s: seq<byte>, rest: seq<byte>)
    requires Plain(s) && (rest == [] || EndsWord(rest[0]))
    ensures LiteralRest(s + rest) == |s|
  {
    if s == [] {
      assert s + rest == rest;
    } else {
      PlainRest(s[1..], rest);
      assert (s + rest)[1..] == s[1..] + rest;
    }
  }

  lemma WordEnds(w: seq<byte>, rest: seq<byte>)
    requires WordOk(w) && (w[0] != QUOTE ==> rest == [] || EndsWord(rest[0]))
    ensures WordLength(w + rest) == |w|
  {
    var s := w + rest;
    assert s[1..] == w[1..] + rest;
    if w[0] == QUOTE {
      ClosedRest(w[1..], rest);
    } else {
      PlainRest(w[1..], rest);
    }
  }

  lemma {:induction false} CompactPlain(w: seq<byte>, s: seq<byte>)
    requires Plain(w)
    ensures Compact(w + s) == w + Compact(s)
  {
    if w == [] {
      assert w + s == s;
    } else {
      assert (w + s)[1..] == w[1..] + s;
      CompactPlain(w[1..], s);
    }
  }

  /** What follows a token in a rendering. */
  lemma RenderStarts(ts: seq<Token>, ws: seq<seq<byte>>, t: Token)
    requires Spacing(ts, ws) && Wellformed([t] + ts)
    ensures var r := Render(ts, ws);
      t.Word? && t.w[0] != QUOTE ==> r == [] || EndsWord(r[0])
  {
    assert ([t] + ts)[1..] == ts;
    assert AllSpaces(ws[0]);
  }

  lemma TokenStarts(t: Token)
    requires TokenOk(t)
    ensures Text(t) != [] && !IsSpace(Text(t)[0]) && !IsCSpace(Text(t)[0])
  {
  }

  /** Reading a rendering gives the tokens back, whatever the spaces; and so does dropping
      the spaces give their texts. */
  lemma {:induction false} LexRender(ts: seq<Token>, ws: seq<seq<byte>>)
    requires Spacing(ts, ws) && Wellformed(ts)
    ensures Lex(Render(ts, ws)) == ts && Compact(Render(ts, ws)) == Texts(ts)
    decreases |ts|
  {
    hide Lex, Compact, WordOk, Plain;
    var body := if ts == [] then [] else Text(ts[0]) + Render(ts[1..], ws[1..]);
    assert AllSpaces(ws[0]);
    LexSpaces(ws[0], body);
    if ts == [] {
      LexNothing();
    } else {
      LexRender(ts[1..], ws[1..]);
      assert ts == [ts[0]] + ts[1..];
      RenderStarts(ts[1..], ws[1..], ts[0]);
      if ts[0].Mark? {
        LexMark(ts[0].c, ts[1..], ws[1..]);
      } else {
        LexWord(ts[0].w, Render(ts[1..], ws[1..]));
      }
    }
  }

  lemma LexNothing()
    ensures Lex([]) == [] && Compact([]) == []
  {
  }

  lemma LexWord(w: seq<byte>, rest: seq<byte>)
    requires WordOk(w) && (w[0] != QUOTE ==> rest == [] || EndsWord(rest[0]))
    ensures Lex(w + rest) == [Word(w)] + Lex(rest) && Compact(w + rest) == w + Compact(rest)
  {
    hide WordLength;
    WordEnds(w, rest);
    var s := w + rest;
    assert s[..|w|] == w && s[|w|..] == rest && s[0] == w[0];
    if w[0] != QUOTE {
      CompactPlain(w, rest);
    }
  }

  /** The spaces behind an opening mark are passed over at once. */
  lemma LexMark(c: byte, ts: seq<Token>, ws: seq<seq<byte>>)
    requires IsMark(c) && Spacing(ts, ws) && Wellformed(ts)
    ensures var rest := Render(ts, ws);
      Lex([c] + rest) == [Mark(c)] + Lex(rest) && Compact([c] + rest) == [c] + Compact(rest)
  {
    hide WordOk, Wellformed, Compact;
    var rest := Render(ts, ws);
    assert ([c] + rest)[1..] == rest;
    CompactMark(c, rest);
    if IsOpen(c) {
      var body := if ts == [] then [] else Text(ts[0]) + Render(ts[1..], ws[1..]);
      assert AllSpaces(ws[0]);
      if ts != [] {
        assert TokenOk(ts[0]) by { FirstOk(ts); }
        TokenStarts(ts[0]);
      }
      SkipSpaces(ws[0], body);
      LexSpaces(ws[0], body);
    }
  }

  lemma FirstOk(ts: seq<Token>)
    requires Wellformed(ts) && ts != []
    ensures TokenOk(ts[0])
  {
  }

  lemma CompactMark(c: byte, rest: seq<byte>)
    requires IsMark(c)
    ensures Compact([c] + rest) == [c] + Compact(rest)
  {
    assert ([c] + rest)[1..] == rest;
  }

  // Valid JSON

  /** A value at the front: a literal or string, an array, or an object (section 2 of
      RFC 8259). */
  function TakeValue(ts: seq<Token>): (r: Option<seq<Token>>)
    ensures r.Some? ==> |r.value| < |ts|
    decreases |ts|, 0
  {
    if ts == [] then None
    else if ts[0].Word? then if WordOk(ts[0].w) then Some(ts[1..]) else None
    else if ts[0].c == 0x5b then
      if |ts| > 1 && ts[1] == Mark(0x5d) then Some(ts[2..]) else TakeElements(ts[1..])
    else if ts[0].c == 0x7b then
      if |ts| > 1 && ts[1] == Mark(0x7d) then Some(ts[2..]) else TakeMembers(ts[1..])
    else None
  }

  function TakeElements(ts: seq<Token>): (r: Option<seq<Token>>)
    ensures r.Some? ==> |r.value| < |ts|
    decreases |ts|, 1
  {
    match TakeValue(ts)
    case None => None
    case Some(rest) =>
      if rest == [] then None
      else if rest[0] == Mark(0x5d) then Some(rest[1..])
      else if rest[0] == Mark(COMMA) then TakeElements(rest[1..])
      else None
  }

  function TakeMembers(ts: seq<Token>): (r: Option<seq<Token>>)
    ensures r.Some? ==> |r.value| < |ts|
    decreases |ts|, 1
  {
    if |ts| < 2 || !ts[0].Word? || !WordOk(ts[0].w) || ts[0].w[0] != QUOTE || ts[1] != Mark(COLON) then None
    else
      match TakeValue(ts[2..])
      case None => None
      case Some(rest) =>
        if rest == [] then None
        else if rest[0] == Mark(0x7d) then Some(rest[1..])
        else if rest[0] == Mark(COMMA) then TakeMembers(rest[1..])
        else None
  }

  /** The tokens of a JSON text. */
  predicate Valid(ts: seq<Token>) {
    TakeValue(ts) == Some([])
  }

  /** What may follow a value. */
  predicate After(rest: seq<Token>) {
    rest == [] || (rest[0].Mark? && EndsWord(rest[0].c))
  }

  /** In front of well-formed tokens, a value leaves them well-formed. */
  lemma {:induction false} ValueWellformed(ts: seq<Token>)
    ensures TakeValue(ts).Some? && After(TakeValue(ts).value) && Wellformed(TakeValue(ts).value) ==> Wellformed(ts)
    decreases |ts|, 0
  {
    hide WordOk;
    if ts != [] && ts[0].Mark? {
      if ts[0].c == 0x5b {
        if |ts| > 1 && ts[1] == Mark(0x5d) {
          MarkFirst(ts[1..]);
        } else {
          ElementsWellformed(ts[1..]);
        }
        MarkFirst(ts);
      } else if ts[0].c == 0x7b {
        if |ts| > 1 && ts[1] == Mark(0x7d) {
          MarkFirst(ts[1..]);
        } else {
          MembersWellformed(ts[1..]);
        }
        MarkFirst(ts);
      }
    }
  }

  lemma MarkFirst(ts: seq<Token>)
    ensures ts != [] && ts[0].Mark? && IsMark(ts[0].c) && Wellformed(ts[1..]) ==> Wellformed(ts)
    ensures |ts| > 1 ==> ts[1..][1..] == ts[2..]
  {
  }

  lemma {:induction false} ElementsWellformed(ts: seq<Token>)
    ensures TakeElements(ts).Some? && Wellformed(TakeElements(ts).value) ==> Wellformed(ts)
    decreases |ts|, 1
  {
    hide TakeValue;
    ValueWellformed(ts);
    if TakeValue(ts).Some? && TakeValue(ts).value != [] {
      var rest := TakeValue(ts).value;
      if rest[0] == Mark(COMMA) {
        ElementsWellformed(rest[1..]);
      }
      MarkFirst(rest);
    }
  }

  lemma {:induction false} MembersWellformed(ts: seq<Token>)
    ensures TakeMembers(ts).Some? && Wellformed(TakeMembers(ts).value) ==> Wellformed(ts)
    decreases |ts|, 1
  {
    hide TakeValue, WordOk;
    if |ts| >= 2 {
      ValueWellformed(ts[2..]);
      MarkFirst(ts[1..]);
      assert ts[1..][1..] == ts[2..];
      if TakeValue(ts[2..]).Some? && TakeValue(ts[2..]).value != [] {
        var rest := TakeValue(ts[2..]).value;
        if rest[0] == Mark(COMMA) {
          MembersWellformed(rest[1..]);
        }
        MarkFirst(rest);
      }
    }
  }

  /** The tokens of every valid text are well-formed. */
  lemma ValidWellformed(ts: seq<Token>)
    requires Valid(ts)
    ensures Wellformed(ts)
  {
    ValueWellformed(ts);
  }
}
