/** The texts the parser accepts, as a grammar: values with any spaces between the tokens. */
module JsonGrammar {
  import opened Sequences
  import opened JsonSpec
  import opened Wrappers

  /** A value as it is written; `gap` stands behind the opening bracket or brace. */
  datatype Text =
    | Word(v: Value)
    | Number(negative: bool, whole: text, places: text)
    | Quotation(raw: text)
    | List(gap: text, entries: seq<Entry>)
    | Table(gap: text, pairs: seq<Pair>)

  /** An element of an array, between spaces. */
  datatype Entry = Entry(ahead: text, t: Text, after: text)

  /** A key and its value, with spaces before the key, on both sides of the colon and behind
      the value. */
  datatype Pair = Pair(ahead: text, key: text, colon: text, behind: text, t: Text, after: text)

  predicate Gap(s: text) { forall i :: 0 <= i < |s| ==> s[i] in {9, 10, 11, 12, 13, 32} }

  function Quoted(s: text): text
  {
    [QUOTE] + s + [QUOTE]
  }

  function Spelling(v: Value): text { if v.Bool? then (if v.b then TRUE else FALSE) else NULL }

  function Written(t: Text): text
    decreases t
  {
    match t
    case Word(v) => Spelling(v)
    case Number(negative, whole, places) => (if negative then [MINUS] else []) + Figures(whole, places)
    case Quotation(raw) => Quoted(raw)
    case List(gap, entries) => [OPEN_ARRAY] + (gap + WrittenEntries(entries) + [CLOSE_ARRAY])
    case Table(gap, pairs) => [OPEN_OBJECT] + (gap + WrittenPairs(pairs) + [CLOSE_OBJECT])
  }

  function Figures(whole: text, places: text): text {
    if places == [] then whole else whole + [POINT] + places
  }

  function WrittenEntries(es: seq<Entry>): text
    decreases es
  {
    if es == [] then []
    else es[0].ahead + Written(es[0].t) + es[0].after + if |es| == 1 then [] else [COMMA] + WrittenEntries(es[1..])
  }

  function WrittenPairs(ps: seq<Pair>): text
    decreases ps
  {
    if ps == [] then [] else WrittenPair(ps[0]) + if |ps| == 1 then [] else [COMMA] + WrittenPairs(ps[1..])
  }

  function WrittenPair(p: Pair): text
    decreases p
  {
    p.ahead + Quoted(p.key) + (p.colon + [COLON] + p.behind + Written(p.t) + p.after)
  }

  /** The type an array has if its first element is written so. */
  function KindIn(t: Text): Kind {
    match t
    case Word(v) => if v.Bool? then KBool else KNull
    case Number(_, _, places) => if places == [] then KInt else KFrac
    case Quotation(_) => KString
    case List(_, _) => KArray
    case Table(_, _) => KObject
  }

  /** The value a text stands for. */
  function Meaning(t: Text): Value
    decreases t
  {
    match t
    case Word(v) => v
    case Number(negative, whole, places) => Num(Signed(negative, Dec(whole + places)), Pow10(|places|))
    case Quotation(raw) => Str(raw, BACKSLASH in raw)
    case List(_, es) =>
      if es == [] then Arr(KNull, [], [])
      else
        var k := KindIn(es[0].t);
        Arr(k, Meanings(es), Parts(KindSize(k), |es|, PART_FIRST_COUNT))
    case Table(_, ps) => Obj(Fields(ps))
  }

  function Meanings(es: seq<Entry>): (vs: seq<Value>)
    ensures |vs| == |es|
    decreases es
  {
    if es == [] then [] else [Meaning(es[0].t)] + Meanings(es[1..])
  }

  function Fields(ps: seq<Pair>): (fs: seq<Field>)
    ensures |fs| == |ps|
    decreases ps
  {
    if ps == [] then [] else [FieldOf(ps[0])] + Fields(ps[1..])
  }

  function FieldOf(p: Pair): Field
    decreases p
  {
    Field(KeyHash(p.key, 0), LowerKey(p.key), Meaning(p.t))
  }

  /** The characters of a string: no open quote, and something behind every backslash. */
  predicate RawOk(s: text) {
    s == [] || (if s[0] == QUOTE then false
                else if s[0] == BACKSLASH then |s| > 1 && RawOk(s[2..])
                else RawOk(s[1..]))
  }

  predicate NumberGood(whole: text, places: text) {
    && whole != [] && AllDigits(whole) && AllDigits(places) && |places| <= 19
    && Dec(whole + places) <= MAX_NUMBER
  }

  /** What may follow the first element of an array of type k; numbers with and without places
      can stand together if the first has places. */
  predicate Fits(t: Text, k: Kind) { k != KNull && (KindIn(t) == k || (k == KFrac && KindIn(t) == KInt)) }

  /** Containers `depth` deep: arrays of one type without nulls, and the limits on depth,
      elements and numbers. */
  predicate Good(t: Text, depth: nat)
    decreases t
  {
    match t
    case Word(v) => v.Null? || v.Bool?
    case Number(_, whole, places) => NumberGood(whole, places)
    case Quotation(raw) => RawOk(raw)
    case List(gap, es) =>
      && Gap(gap)
      && (es != [] ==> depth < 32 && |es| <= 524288 && EntriesGood(es, depth + 1, KindIn(es[0].t)))
    case Table(gap, ps) => Gap(gap) && (ps != [] ==> depth < 32 && |ps| <= 524288 && PairsGood(ps, depth + 1))
  }

  predicate EntriesGood(es: seq<Entry>, depth: nat, k: Kind)
    decreases es
  {
    es == [] ||
    (Gap(es[0].ahead) && Gap(es[0].after) && Fits(es[0].t, k) && Good(es[0].t, depth) && EntriesGood(es[1..], depth, k))
  }

  predicate PairGood(p: Pair, depth: nat)
    decreases p
  {
    && Gap(p.ahead) && Gap(p.colon) && Gap(p.behind) && Gap(p.after) && RawOk(p.key) && Good(p.t, depth)
  }

  predicate PairsGood(ps: seq<Pair>, depth: nat)
    decreases ps
  {
    ps == [] || (PairGood(ps[0], depth) && PairsGood(ps[1..], depth))
  }

  /** What may follow a value. */
  predicate Delimited(rest: text) { rest == [] || (!IsDigit(rest[0]) && rest[0] != POINT) }

  // Spaces

  lemma Spaceless(s: text)
    requires s == [] || !IsSpace(s[0])
    ensures JsonSpec.SkipSpaces(s) == s
  {
  }

  lemma {:induction false} SkipGap(g: text, s: text)
    requires Gap(g)
    ensures JsonSpec.SkipSpaces(g + s) == JsonSpec.SkipSpaces(s)
  {
    if g == [] {
      assert g + s == s;
    } else {
      SkipGap(g[1..], s);
      Behead(g, s);
    }
  }

  /** The spaces at the front of a text. */
  function Ahead(s: text): text { s[..|s| - |JsonSpec.SkipSpaces(s)|] }

  lemma {:induction false} AheadIs(s: text)
    ensures Gap(Ahead(s)) && s == Ahead(s) + JsonSpec.SkipSpaces(s)
    ensures JsonSpec.SkipSpaces(s) != [] ==> !IsSpace(JsonSpec.SkipSpaces(s)[0])
  {
    if s != [] && IsSpace(s[0]) {
      AheadIs(s[1..]);
      assert Ahead(s) == [s[0]] + Ahead(s[1..]);
    }
  }

  lemma GapDelimits(g: text, rest: text)
    requires Gap(g) && Delimited(rest)
    ensures Delimited(g + rest)
  {
    if g == [] {
      assert g + rest == rest;
    } else {
      assert (g + rest)[0] == g[0];
    }
  }

  // Numbers

  lemma {:induction false} DigitsOf(ds: text, rest: text)
    requires AllDigits(ds) && (rest == [] || !IsDigit(rest[0]))
    ensures Digits(ds + rest) == |ds|
  {
    if ds == [] {
      assert ds + rest == rest;
    } else {
      assert (ds + rest)[1..] == ds[1..] + rest;
      DigitsOf(ds[1..], rest);
    }
  }

  lemma PrefixDigits(ds: text, n: nat)
    requires n <= |ds| && AllDigits(ds)
    ensures AllDigits(ds[..n]) && AllDigits(ds[n..]) && 0 <= Dec(ds[..n]) <= Dec(ds)
  {
    hide Dec;
    assert AllDigits(ds[..n]);
    DecNat(ds[..n]);
    DecPrefix(ds, n);
  }

  lemma {:induction false} DecPrefix(ds: text, n: nat)
    requires n <= |ds| && AllDigits(ds)
    ensures 0 <= Dec(ds[..n]) <= Dec(ds)
  {
    DecNat(ds);
    if n == |ds| {
      assert ds[..n] == ds;
    } else {
      var shorter := ds[..|ds| - 1];
      assert shorter[..n] == ds[..n];
      DecPrefix(shorter, n);
    }
  }

  /** A sign and digits, with something else behind them. */
  lemma TakeIntOf(negative: bool, ds: text, rest: text)
    requires ds != [] && AllDigits(ds) && (rest == [] || !IsDigit(rest[0])) && Dec(ds) <= MAX_NUMBER
    ensures var s := (if negative then [MINUS] else []) + ds + rest;
      TakeInt(s) == Some((negative, Dec(ds), rest)) && (if negative then s[1..] else s) == ds + rest
  {
    hide Dec, Digits;
    var s := (if negative then [MINUS] else []) + ds + rest;
    var t := ds + rest;
    assert IsDigit(ds[0]);
    if negative {
      assert s[1..] == t;
    } else {
      assert s == t && s[0] == ds[0];
    }
    DigitsOf(ds, rest);
    assert t[..|ds|] == ds && t[|ds|..] == rest;
  }

  lemma PlacesShape(sign: text, a: text, b: text, rest: text)
    ensures sign + (a + [POINT] + b) + rest == sign + a + ([POINT] + b + rest)
    ensures ([POINT] + b + rest)[0] == POINT && ([POINT] + b + rest)[1..] == b + rest
  {
    AssociateAll(a, [POINT], b, rest);
    Associate(sign, a + [POINT] + b, rest);
    Associate(sign, a, [POINT] + b + rest);
    Associate([POINT], b, rest);
    Halves([POINT], b + rest);
  }

  lemma PlacesRead(s: text, negative: bool, a: text, b: text, rest: text)
    requires var tail := [POINT] + b + rest;
      && tail[1..] == b + rest && TakeInt(s).Some? && TakeInt(s).value.0 == negative && TakeInt(s).value.2 == tail
      && (if negative then s[1..] else s) == a + tail && Digits(a + tail) == |a| && Digits(b + rest) == |b|
    requires 0 < |b| <= MAX_PLACES && 0 <= Dec(a + b) <= MAX_NUMBER
    ensures TakeNumber(s) == Some((Num(Signed(negative, Dec(a + b)), Pow10(|b|)), rest))
  {
    hide Dec, Digits, Pow10, TakeInt;
    Halves(a, [POINT] + b + rest);
    Halves(b, rest);
  }

  lemma PowNone()
    ensures Pow10(0) == 1
  {
  }

  lemma FirstDigit(ds: text)
    requires AllDigits(ds)
    ensures ds != [] ==> IsDigit(ds[0])
  {
  }

  lemma AcceptPlaces(negative: bool, whole: text, places: text, rest: text)
    requires NumberGood(whole, places) && places != [] && Delimited(rest)
    ensures TakeNumber((if negative then [MINUS] else []) + (whole + [POINT] + places) + rest)
      == Some((Num(Signed(negative, Dec(whole + places)), Pow10(|places|)), rest))
    ensures TakeInt((if negative then [MINUS] else []) + (whole + [POINT] + places) + rest)
      == Some((negative, Dec(whole), [POINT] + places + rest))
  {
    var sign: text := if negative then [MINUS] else [];
    var tail := [POINT] + places + rest;
    var s := sign + (whole + [POINT] + places) + rest;
    hide Dec, Digits, Pow10, TakeInt, TakeNumber, AllDigits;
    PlacesShape(sign, whole, places, rest);
    WholeDigits(whole, places);
    FirstDigit(whole);
    TakeIntOf(negative, whole, tail);
    DigitsOf(whole, tail);
    DigitsOf(places, rest);
    PlacesRead(s, negative, whole, places, rest);
  }

  lemma WholeDigits(whole: text, places: text)
    requires NumberGood(whole, places)
    ensures AllDigits(whole + places) && 0 <= Dec(whole) <= Dec(whole + places) <= MAX_NUMBER
  {
    hide Dec;
    assert AllDigits(whole + places);
    Halves(whole, places);
    PrefixDigits(whole + places, |whole|);
  }

  lemma NoPlaces(whole: text)
    ensures whole + [] == whole
  {
  }

  /** A number, with any digits. */
  lemma AcceptNumber(negative: bool, whole: text, places: text, rest: text)
    requires NumberGood(whole, places) && Delimited(rest)
    ensures var t := Number(negative, whole, places);
      var s := Written(t) + rest;
      && TakeNumber(s) == Some((Meaning(t), rest))
      && (places == [] ==> TakeWhole(s) == Some((Meaning(t), rest)))
  {
    hide Dec, Digits, Pow10, TakeInt, NumberGood;
    if places == [] {
      PowNone();
      NoPlaces(whole);
      NoPlacesGood(whole);
      TakeIntOf(negative, whole, rest);
    } else {
      AcceptPlaces(negative, whole, places, rest);
    }
  }

  lemma NoPlacesGood(whole: text)
    requires NumberGood(whole, [])
    ensures whole != [] && AllDigits(whole) && Dec(whole) <= MAX_NUMBER
  {
    hide Dec;
    NoPlaces(whole);
  }

  lemma NumberKind(negative: bool, whole: text, places: text, rest: text)
    requires NumberGood(whole, places) && Delimited(rest)
    ensures var t := Number(negative, whole, places);
      KindOf(Written(t) + rest) == Some(KindIn(t))
  {
    hide Dec, Digits;
    var sign: text := if negative then [MINUS] else [];
    var t := Number(negative, whole, places);
    var tail := if places == [] then rest else [POINT] + places + rest;
    FirstDigit(whole);
    NumberShape(negative, whole, places, rest);
    DigitsOf(whole, tail);
    Halves(whole, tail);
    var s := Written(t) + rest;
    assert First(s) == if negative then MINUS else whole[0];
    assert (if negative then s[1..] else s) == whole + tail;
  }

  lemma NumberShape(negative: bool, whole: text, places: text, rest: text)
    ensures var tail := if places == [] then rest else [POINT] + places + rest;
      Written(Number(negative, whole, places)) + rest == (if negative then [MINUS] else []) + (whole + tail)
  {
    var sign: text := if negative then [MINUS] else [];
    Associate(sign, Figures(whole, places), rest);
    if places != [] {
      AssociateAll(whole, [POINT], places, rest);
    }
  }

  // Strings

  lemma {:induction false} RawEnd(raw: text, rest: text)
    requires RawOk(raw)
    ensures StringEnd(raw + [QUOTE] + rest) == Some(|raw|)
    decreases |raw|
  {
    var s := raw + [QUOTE] + rest;
    if raw != [] {
      if raw[0] == BACKSLASH {
        RawEnd(raw[2..], rest);
        assert s[2..] == raw[2..] + [QUOTE] + rest;
      } else {
        RawEnd(raw[1..], rest);
        assert s[1..] == raw[1..] + [QUOTE] + rest;
      }
    }
  }

  lemma AcceptString(raw: text, rest: text)
    requires RawOk(raw)
    ensures TakeString((Quoted(raw) + rest)[1..]) == Some((Str(raw, BACKSLASH in raw), rest))
  {
    hide StringEnd, RawOk;
    QuotedRest(raw, rest);
    RawEnd(raw, rest);
  }

  lemma QuotedRest(raw: text, rest: text)
    ensures var s := raw + [QUOTE] + rest;
      (Quoted(raw) + rest)[1..] == s && s[..|raw|] == raw && s[|raw| + 1..] == rest
    ensures First(Quoted(raw) + rest) == QUOTE
  {
    var s := raw + [QUOTE] + rest;
    Associate([QUOTE], raw, [QUOTE]);
    Associate([QUOTE], raw + [QUOTE], rest);
    Halves([QUOTE], s);
    Associate(raw, [QUOTE], rest);
    Halves(raw, [QUOTE] + rest);
    Halves(raw + [QUOTE], rest);
  }

  // Every text of the grammar is accepted

  /** How a value begins. */
  predicate Opens(t: Text, c: int) {
    match t
    case Word(v) => c == (if v.Bool? then (if v.b then 0x74 else 0x66) else 0x6e)
    case Number(negative, _, _) => if negative then c == MINUS else 0x30 <= c <= 0x39
    case Quotation(_) => c == QUOTE
    case List(_, _) => c == OPEN_ARRAY
    case Table(_, _) => c == OPEN_OBJECT
  }

  lemma Starts(t: Text, rest: text, depth: nat)
    requires Good(t, depth)
    ensures var s := Written(t) + rest;
      Opens(t, First(s)) && JsonSpec.SkipSpaces(s) == s
  {
    hide EntriesGood, PairsGood, WrittenEntries, WrittenPairs, RawOk, Dec;
    var w := Written(t);
    if t.Number? {
      NumberShape(t.negative, t.whole, t.places, rest);
      FirstDigit(t.whole);
    } else if t.Quotation? {
      QuotedRest(t.raw, rest);
    } else {
      assert (w + rest)[0] == w[0];
    }
  }

  lemma AcceptWord(v: Value, rest: text)
    ensures TakeWord(Spelling(v) + rest, Spelling(v), v) == Some((v, rest))
  {
    Halves(Spelling(v), rest);
  }

  /** A value at the front of a text, whatever is behind it. */
  lemma {:induction false} AcceptValue(t: Text, rest: text, depth: nat)
    requires Good(t, depth) && Delimited(rest)
    ensures TakeValue(Written(t) + rest, depth) == Some((Meaning(t), rest))
    decreases t, 1
  {
    hide TakeArray, TakeObject, TakeString, TakeWord, TakeNumber, EntriesGood, PairsGood, WrittenEntries, WrittenPairs,
      RawOk, Quoted, Meanings, Fields, Dec, Figures;
    Starts(t, rest, depth);
    match t
    case Word(v) => AcceptWord(v, rest);
    case Number(negative, whole, places) => AcceptNumber(negative, whole, places, rest);
    case Quotation(raw) => AcceptString(raw, rest);
    case List(_, _) => AcceptList(t, rest, depth);
    case Table(_, _) => AcceptTable(t, rest, depth);
  }

  /** An element of an array. */
  lemma {:induction false} AcceptTyped(t: Text, rest: text, depth: nat, k: Kind)
    requires Good(t, depth) && Delimited(rest) && Fits(t, k)
    ensures TakeTyped(Written(t) + rest, depth, k) == Some((Meaning(t), rest))
    decreases t, 1
  {
    hide TakeArray, TakeObject, TakeString, TakeWord, TakeNumber, TakeWhole, EntriesGood, PairsGood, WrittenEntries,
      WrittenPairs, RawOk, Quoted, Meanings, Fields, Dec, Figures;
    Starts(t, rest, depth);
    match t
    case Word(v) => AcceptWord(v, rest);
    case Number(negative, whole, places) => AcceptNumber(negative, whole, places, rest);
    case Quotation(raw) => AcceptString(raw, rest);
    case List(_, _) => AcceptList(t, rest, depth);
    case Table(_, _) => AcceptTable(t, rest, depth);
  }

  /** The type of an array shows in its first element. */
  lemma HeadShows(t: Text, rest: text, depth: nat)
    requires Good(t, depth) && Fits(t, KindIn(t)) && Delimited(rest)
    ensures KindOf(Written(t) + rest) == Some(KindIn(t))
  {
    hide Written, Digits, EntriesGood, PairsGood, RawOk, Dec;
    Starts(t, rest, depth);
    if t.Number? {
      NumberKind(t.negative, t.whole, t.places, rest);
    }
  }

  lemma BracketShape(open: tchar, gap: text, body: text, close: tchar, rest: text)
    ensures var s := [open] + (gap + body + [close]) + rest;
      First(s) == open && s[1..] == gap + (body + ([close] + rest))
    ensures First([close] + rest) == close && ([close] + rest)[1..] == rest
  {
    Associate([open], gap + body + [close], rest);
    Halves([open], gap + body + [close] + rest);
    AssociateAll(gap, body, [close], rest);
    Associate(body, [close], rest);
    Halves([close], rest);
  }

  lemma {:induction false} AcceptList(t: Text, rest: text, depth: nat)
    requires t.List? && Good(t, depth)
    ensures First(Written(t) + rest) == OPEN_ARRAY && TakeArray(Written(t) + rest, depth) == Some((Meaning(t), rest))
    decreases t, 0
  {
    hide TakeItems, WrittenEntries, EntriesGood, Parts, KindOf, KindIn, Meanings, Gap;
    var es, body := t.entries, WrittenEntries(t.entries) + ([CLOSE_ARRAY] + rest);
    BracketShape(OPEN_ARRAY, t.gap, WrittenEntries(es), CLOSE_ARRAY, rest);
    SkipGap(t.gap, body);
    if es == [] {
      NoneWritten(rest);
    } else {
      EntriesStart(es, rest, depth + 1, KindIn(es[0].t));
      AcceptEntries(es, rest, depth + 1, KindIn(es[0].t), 0);
    }
  }

  lemma NoneWritten(rest: text)
    ensures WrittenEntries([]) + ([CLOSE_ARRAY] + rest) == [CLOSE_ARRAY] + rest
    ensures WrittenPairs([]) + ([CLOSE_OBJECT] + rest) == [CLOSE_OBJECT] + rest
    ensures JsonSpec.SkipSpaces([CLOSE_ARRAY] + rest) == [CLOSE_ARRAY] + rest
    ensures JsonSpec.SkipSpaces([CLOSE_OBJECT] + rest) == [CLOSE_OBJECT] + rest
  {
  }

  /** What is behind the first element and its spaces. */
  function BehindEntry(es: seq<Entry>, close: text): text
    requires es != []
  {
    if |es| == 1 then close else [COMMA] + (WrittenEntries(es[1..]) + close)
  }

  lemma EntriesShape(es: seq<Entry>, close: text)
    requires es != []
    ensures WrittenEntries(es) + close ==
      es[0].ahead + (Written(es[0].t) + (es[0].after + BehindEntry(es, close)))
  {
    hide Written;
    var (a, w, b) := (es[0].ahead, Written(es[0].t), es[0].after);
    if |es| == 1 {
      assert a + w + b + [] == a + w + b;
    } else {
      var more := WrittenEntries(es[1..]);
      hide WrittenEntries;
      Associate(a + w + b, [COMMA] + more, close);
      Associate([COMMA], more, close);
    }
    AssociateAll(a, w, b, BehindEntry(es, close));
  }

  /** An element, its spaces and the comma or bracket behind it. */
  lemma EntryStart(es: seq<Entry>, rest: text, depth: nat, k: Kind)
    requires es != [] && EntriesGood(es, depth, k)
    ensures var after, tail := es[0].after, BehindEntry(es, [CLOSE_ARRAY] + rest);
      && JsonSpec.SkipSpaces(WrittenEntries(es) + ([CLOSE_ARRAY] + rest)) == Written(es[0].t) + (after + tail)
      && Delimited(after + tail) && JsonSpec.SkipSpaces(after + tail) == tail
      && First(tail) == (if |es| == 1 then CLOSE_ARRAY else COMMA)
      && tail[1..] == (if |es| == 1 then rest else WrittenEntries(es[1..]) + ([CLOSE_ARRAY] + rest))
  {
    hide Written, WrittenEntries, Good, Gap, Fits, JsonSpec.SkipSpaces;
    var after, tail := es[0].after, BehindEntry(es, [CLOSE_ARRAY] + rest);
    EntriesShape(es, [CLOSE_ARRAY] + rest);
    SkipGap(es[0].ahead, Written(es[0].t) + (after + tail));
    Starts(es[0].t, after + tail, depth);
    assert Delimited(tail);
    GapDelimits(after, tail);
    SkipGap(after, tail);
    Spaceless(tail);
  }

  lemma EntriesStart(es: seq<Entry>, rest: text, depth: nat, k: Kind)
    requires es != [] && k == KindIn(es[0].t) && EntriesGood(es, depth, k)
    ensures var u := JsonSpec.SkipSpaces(WrittenEntries(es) + ([CLOSE_ARRAY] + rest));
      First(u) != CLOSE_ARRAY && KindOf(u) == Some(k)
  {
    hide Written, WrittenEntries, Good, Gap, KindOf, BehindEntry;
    EntryStart(es, rest, depth, k);
    var behind := es[0].after + BehindEntry(es, [CLOSE_ARRAY] + rest);
    Starts(es[0].t, behind, depth);
    HeadShows(es[0].t, behind, depth);
  }

  lemma {:induction false} AcceptEntries(es: seq<Entry>, rest: text, depth: nat, k: Kind, n: nat)
    requires es != [] && EntriesGood(es, depth, k) && n + |es| <= MAX_ELEMENTS
    ensures TakeItems(JsonSpec.SkipSpaces(WrittenEntries(es) + ([CLOSE_ARRAY] + rest)), depth, k, n)
      == Some((Meanings(es), rest))
    decreases es, 2
  {
    hide TakeTyped, Written, Good, Meaning, Fits, Gap, JsonSpec.SkipSpaces, WrittenEntries, Delimited, BehindEntry;
    var behind := es[0].after + BehindEntry(es, [CLOSE_ARRAY] + rest);
    EntryStart(es, rest, depth, k);
    AcceptTyped(es[0].t, behind, depth, k);
    if |es| > 1 {
      AcceptEntries(es[1..], rest, depth, k, n + 1);
    } else {
      assert Meanings(es) == [Meaning(es[0].t)];
    }
  }

  lemma {:induction false} AcceptTable(t: Text, rest: text, depth: nat)
    requires t.Table? && Good(t, depth)
    ensures First(Written(t) + rest) == OPEN_OBJECT && TakeObject(Written(t) + rest, depth) == Some((Meaning(t), rest))
    decreases t, 0
  {
    hide TakeFields, WrittenPairs, PairsGood, Fields, Gap;
    var ps, body := t.pairs, WrittenPairs(t.pairs) + ([CLOSE_OBJECT] + rest);
    BracketShape(OPEN_OBJECT, t.gap, WrittenPairs(ps), CLOSE_OBJECT, rest);
    SkipGap(t.gap, body);
    if ps == [] {
      NoneWritten(rest);
    } else {
      PairStart(ps, rest, depth + 1);
      AcceptPairs(ps, rest, depth + 1, 0);
    }
  }

  function BehindPair(ps: seq<Pair>, close: text): text
    requires ps != []
  {
    if |ps| == 1 then close else [COMMA] + (WrittenPairs(ps[1..]) + close)
  }

  /** A key, and all that is behind it. */
  function FromKey(p: Pair, tail: text): text {
    Quoted(p.key) + (p.colon + ([COLON] + (p.behind + (Written(p.t) + (p.after + tail)))))
  }

  lemma PairShape(p: Pair, tail: text)
    ensures WrittenPair(p) + tail == p.ahead + FromKey(p, tail)
  {
    hide Written, Quoted;
    var (a, q, c, b, w, e) := (p.ahead, Quoted(p.key), p.colon, p.behind, Written(p.t), p.after);
    var x := c + [COLON] + b + w + e;
    Associate(a + q, x, tail);
    Associate(a, q, x + tail);
    Associate(c + [COLON] + b + w, e, tail);
    Associate(c + [COLON] + b, w, e + tail);
    AssociateAll(c, [COLON], b, w + (e + tail));
    Associate([COLON], b, w + (e + tail));
  }

  lemma PairsShape(ps: seq<Pair>, close: text)
    requires ps != []
    ensures WrittenPairs(ps) + close == WrittenPair(ps[0]) + BehindPair(ps, close)
  {
    hide WrittenPair;
    var w := WrittenPair(ps[0]);
    if |ps| == 1 {
      assert w + [] == w;
    } else {
      var more := WrittenPairs(ps[1..]);
      hide WrittenPairs;
      Associate(w, [COMMA] + more, close);
      Associate([COMMA], more, close);
    }
  }

  lemma PairStart(ps: seq<Pair>, rest: text, depth: nat)
    requires ps != [] && PairsGood(ps, depth)
    ensures var tail := BehindPair(ps, [CLOSE_OBJECT] + rest);
      && JsonSpec.SkipSpaces(WrittenPairs(ps) + ([CLOSE_OBJECT] + rest)) == FromKey(ps[0], tail)
      && First(FromKey(ps[0], tail)) == QUOTE && Delimited(tail) && JsonSpec.SkipSpaces(tail) == tail
      && First(tail) == (if |ps| == 1 then CLOSE_OBJECT else COMMA)
      && tail[1..] == (if |ps| == 1 then rest else WrittenPairs(ps[1..]) + ([CLOSE_OBJECT] + rest))
  {
    hide Written, WrittenPairs, WrittenPair, Good, Gap, JsonSpec.SkipSpaces, Quoted, RawOk;
    var p, tail := ps[0], BehindPair(ps, [CLOSE_OBJECT] + rest);
    PairsShape(ps, [CLOSE_OBJECT] + rest);
    PairShape(p, tail);
    SkipGap(p.ahead, FromKey(p, tail));
    QuotedRest(p.key, p.colon + ([COLON] + (p.behind + (Written(p.t) + (p.after + tail)))));
    Spaceless(FromKey(p, tail));
    Spaceless(tail);
  }

  lemma {:induction false} AcceptPairs(ps: seq<Pair>, rest: text, depth: nat, n: nat)
    requires ps != [] && PairsGood(ps, depth) && n + |ps| <= MAX_ELEMENTS
    ensures TakeFields(JsonSpec.SkipSpaces(WrittenPairs(ps) + ([CLOSE_OBJECT] + rest)), depth, n)
      == Some((Fields(ps), rest))
    decreases ps, 3
  {
    hide TakeField, PairGood, FieldOf, JsonSpec.SkipSpaces, WrittenPairs, Delimited, BehindPair, FromKey;
    var tail := BehindPair(ps, [CLOSE_OBJECT] + rest);
    PairStart(ps, rest, depth);
    PairAfter(ps[0], tail, depth);
    AcceptPair(ps[0], tail, depth);
    if |ps| > 1 {
      AcceptPairs(ps[1..], rest, depth, n + 1);
    } else {
      assert Fields(ps) == [FieldOf(ps[0])];
    }
  }

  lemma PairAfter(p: Pair, tail: text, depth: nat)
    requires PairGood(p, depth) && JsonSpec.SkipSpaces(tail) == tail
    ensures JsonSpec.SkipSpaces(p.after + tail) == tail
  {
    hide JsonSpec.SkipSpaces, Gap, Good, RawOk;
    SkipGap(p.after, tail);
  }

  lemma {:induction false} AcceptPair(p: Pair, tail: text, depth: nat)
    requires PairGood(p, depth) && Delimited(tail)
    ensures TakeField(FromKey(p, tail), depth) == Some((FieldOf(p), p.after + tail))
    decreases p, 2
  {
    hide Written, TakeValue, StringEnd, RawOk, KeyHash, LowerKey, Good, Meaning, Quoted, JsonSpec.SkipSpaces, Gap;
    var value := Written(p.t) + (p.after + tail);
    var colon := [COLON] + (p.behind + value);
    QuotedRest(p.key, p.colon + colon);
    RawEnd(p.key, p.colon + colon);
    SkipGap(p.colon, colon);
    Spaceless(colon);
    Halves([COLON], p.behind + value);
    SkipGap(p.behind, value);
    Starts(p.t, p.after + tail, depth);
    GapDelimits(p.after, tail);
    AcceptValue(p.t, p.after + tail, depth);
  }

  // Everything the parser accepts is a text of the grammar

  lemma {:induction false} EndRaw(s: text)
    requires StringEnd(s).Some?
    ensures RawOk(s[..StringEnd(s).value])
    decreases |s|
  {
    var n := StringEnd(s).value;
    if s[0] == BACKSLASH {
      EndRaw(s[2..]);
      assert s[..n][2..] == s[2..][..n - 2];
    } else if s[0] != QUOTE {
      EndRaw(s[1..]);
      assert s[..n][1..] == s[1..][..n - 1];
    }
  }

  lemma ReadString(s: text, depth: nat) returns (t: Text)
    requires First(s) == QUOTE && TakeString(s[1..]).Some?
    ensures t.Quotation? && Good(t, depth) && Meaning(t) == TakeString(s[1..]).value.0
    ensures s == Written(t) + TakeString(s[1..]).value.1
  {
    hide StringEnd, RawOk;
    var u, n := s[1..], StringEnd(s[1..]).value;
    EndRaw(u);
    t := Quotation(u[..n]);
    Uncons(s);
    Rejoin(u, n);
    Uncons(u[n..]);
    DropTwice(u, n, 1);
    AssociateAll([QUOTE], u[..n], [QUOTE], u[n + 1..]);
  }

  lemma ReadWord(s: text, v: Value, depth: nat)
    requires v.Null? || v.Bool?
    requires TakeWord(s, Spelling(v), v).Some?
    ensures Good(Word(v), depth) && s == Written(Word(v)) + TakeWord(s, Spelling(v), v).value.1
  {
    Rejoin(s, |Spelling(v)|);
  }

  lemma SignSplit(s: text)
    requires TakeInt(s).Some?
    ensures var (negative, v, rest) := TakeInt(s).value;
      var t := if negative then s[1..] else s;
      var n := Digits(t);
      && n > 0 && AllDigits(t[..n]) && Dec(t[..n]) == v && rest == t[n..] && t == t[..n] + rest
      && s == (if negative then [MINUS] else []) + t && negative == (First(s) == MINUS)
  {
    hide Dec, Digits;
    var t := if First(s) == MINUS then s[1..] else s;
    DigitsAre(t);
    Rejoin(t, Digits(t));
    if First(s) == MINUS {
      Uncons(s);
    }
  }

  lemma ReadWhole(s: text) returns (t: Text)
    requires TakeInt(s).Some?
    ensures t.Number? && t.places == [] && NumberGood(t.whole, []) && TakeWhole(s).Some?
    ensures Meaning(t) == TakeWhole(s).value.0 && s == Written(t) + TakeWhole(s).value.1
  {
    hide Dec, Digits, TakeInt;
    SignSplit(s);
    var (negative, v, rest) := TakeInt(s).value;
    var u := if negative then s[1..] else s;
    var whole := u[..Digits(u)];
    t := Number(negative, whole, []);
    NoPlaces(whole);
    IntBound(s);
    PowNone();
    Associate(if negative then [MINUS] else [], whole, rest);
  }

  lemma IntBound(s: text)
    ensures TakeInt(s).Some? ==> TakeInt(s).value.1 <= MAX_NUMBER
  {
  }

  lemma ReadNumber(s: text) returns (t: Text)
    requires TakeNumber(s).Some?
    ensures t.Number? && NumberGood(t.whole, t.places)
    ensures Meaning(t) == TakeNumber(s).value.0 && s == Written(t) + TakeNumber(s).value.1
    ensures t.places == [] ==> First(TakeInt(s).value.2) != POINT
  {
    hide Dec, Digits, TakeInt, Pow10;
    var (negative, v, rest) := TakeInt(s).value;
    if First(rest) != POINT {
      t := ReadWhole(s);
    } else {
      SignSplit(s);
      var u := if negative then s[1..] else s;
      PlacesTaken(s, u, rest[1..]);
      t := Number(negative, u[..Digits(u)], rest[1..][..Digits(rest[1..])]);
      PlacesJoin(negative, u[..Digits(u)], rest);
    }
  }

  lemma PlacesTaken(s: text, u: text, p: text)
    requires TakeNumber(s).Some? && TakeInt(s).Some?
    requires First(TakeInt(s).value.2) == POINT && p == TakeInt(s).value.2[1..]
    requires u == if TakeInt(s).value.0 then s[1..] else s
    ensures var whole, places := u[..Digits(u)], p[..Digits(p)];
      && TakeNumber(s).value == (Num(Signed(TakeInt(s).value.0, Dec(whole + places)), Pow10(|places|)), p[Digits(p)..])
      && AllDigits(places) && 0 < |places| <= MAX_PLACES && Dec(whole + places) <= MAX_NUMBER
  {
    hide Dec, Digits, TakeInt, Pow10;
    DigitsAre(p);
  }

  lemma PlacesJoin(negative: bool, whole: text, rest: text)
    requires First(rest) == POINT && Digits(rest[1..]) > 0
    ensures var p := rest[1..];
      Written(Number(negative, whole, p[..Digits(p)])) + p[Digits(p)..] ==
      (if negative then [MINUS] else []) + (whole + rest)
  {
    hide Digits;
    var p := rest[1..];
    Uncons(rest);
    Rejoin(p, Digits(p));
    NumberShape(negative, whole, p[..Digits(p)], p[Digits(p)..]);
    Associate([POINT], p[..Digits(p)], p[Digits(p)..]);
  }

  /** A number in an array whose first number has places. */
  lemma PointShows(s: text)
    requires TakeInt(s).Some? && KindOf(s) == Some(KFrac)
    ensures First(TakeInt(s).value.2) == POINT
  {
    hide Dec, Digits;
  }

  lemma {:induction false} ReadValue(s: text, depth: nat) returns (t: Text)
    requires TakeValue(s, depth).Some?
    ensures Good(t, depth) && Meaning(t) == TakeValue(s, depth).value.0
    ensures s == Written(t) + TakeValue(s, depth).value.1
    decreases |s|, 2
  {
    hide Good, Meaning, Written, TakeString, TakeArray, TakeObject, TakeNumber, TakeWord;
    var c := First(s);
    if c == QUOTE {
      t := ReadString(s, depth);
    } else if c == OPEN_ARRAY {
      t := ReadList(s, depth);
    } else if c == OPEN_OBJECT {
      t := ReadTable(s, depth);
    } else if c == 0x6e || c == 0x74 || c == 0x66 {
      t := ReadConstant(s, depth);
    } else {
      t := ReadNumber(s);
      NumberIsGood(t, depth);
    }
  }

  lemma NumberIsGood(t: Text, depth: nat)
    requires t.Number? && NumberGood(t.whole, t.places)
    ensures Good(t, depth)
  {
  }

  lemma ReadConstant(s: text, depth: nat) returns (t: Text)
    requires First(s) == 0x6e || First(s) == 0x74 || First(s) == 0x66
    requires TakeValue(s, depth).Some?
    ensures t.Word? && Good(t, depth) && t.v == Meaning(t) == TakeValue(s, depth).value.0
    ensures s == Written(t) + TakeValue(s, depth).value.1
    ensures if First(s) == 0x6e then t.v == Null else t.v == Bool(First(s) == 0x74)
  {
    hide Written, TakeWord;
    var v := if First(s) == 0x6e then Null else Bool(First(s) == 0x74);
    t := Word(v);
    ReadWord(s, v, depth);
    WordTaken(s, v);
  }

  lemma WordTaken(s: text, v: Value)
    ensures TakeWord(s, Spelling(v), v).Some? ==> TakeWord(s, Spelling(v), v).value.0 == v
  {
  }

  lemma {:induction false} ReadTyped(s: text, depth: nat, k: Kind) returns (t: Text)
    requires TakeTyped(s, depth, k).Some?
    ensures Good(t, depth) && Fits(t, k) && Meaning(t) == TakeTyped(s, depth, k).value.0
    ensures s == Written(t) + TakeTyped(s, depth, k).value.1
    ensures KindOf(s) == Some(k) ==> KindIn(t) == k
    decreases |s|, 3
  {
    hide Good, Meaning, Written, TakeString, TakeArray, TakeObject, TakeNumber, TakeWord, KindOf, TakeInt;
    match k
    case KString => t := ReadString(s, depth);
    case KArray => t := ReadList(s, depth);
    case KObject => t := ReadTable(s, depth);
    case KBool => t := ReadConstant(s, depth);
    case KFrac =>
      t := ReadNumber(s);
      NumberIsGood(t, depth);
      NumberTaken(s);
      if KindOf(s) == Some(k) {
        PointShows(s);
      }
    case KInt =>
      t := ReadWhole(s);
      NumberIsGood(t, depth);
  }

  lemma NumberTaken(s: text)
    requires TakeNumber(s).Some?
    ensures TakeInt(s).Some?
  {
    hide TakeInt, Dec, Digits;
  }

  lemma {:induction false} ReadList(s: text, depth: nat) returns (t: Text)
    requires First(s) == OPEN_ARRAY && TakeArray(s, depth).Some?
    ensures t.List? && Good(t, depth) && Meaning(t) == TakeArray(s, depth).value.0
    ensures s == Written(t) + TakeArray(s, depth).value.1
    decreases |s|, 1
  {
    hide TakeItems, EntriesGood, Parts, KindOf, KindIn, Meanings, WrittenEntries, Gap, JsonSpec.SkipSpaces;
    var gap, u, rest := Ahead(s[1..]), JsonSpec.SkipSpaces(s[1..]), TakeArray(s, depth).value.1;
    AheadIs(s[1..]);
    Uncons(s);
    var es := [];
    if First(u) == CLOSE_ARRAY {
      Uncons(u);
      NoneWritten(rest);
    } else {
      NothingAhead(u);
      es := ReadEntries([], u, depth + 1, KindOf(u).value, 0);
    }
    t := List(gap, es);
    BracketJoin(OPEN_ARRAY, gap, WrittenEntries(es), CLOSE_ARRAY, rest);
  }

  lemma NothingAhead(s: text)
    ensures Gap([]) && [] + s == s
  {
  }

  lemma BracketJoin(open: tchar, gap: text, body: text, close: tchar, rest: text)
    ensures [open] + (gap + (body + ([close] + rest))) == [open] + (gap + body + [close]) + rest
  {
    Associate([open], gap + body + [close], rest);
    AssociateAll(gap, body, [close], rest);
    Associate(body, [close], rest);
  }

  lemma {:induction false} ReadEntries(ahead: text, s: text, depth: nat, k: Kind, n: nat) returns (es: seq<Entry>)
    requires Gap(ahead) && TakeItems(s, depth, k, n).Some?
    ensures es != [] && n + |es| <= MAX_ELEMENTS && EntriesGood(es, depth, k)
    ensures Meanings(es) == TakeItems(s, depth, k, n).value.0
    ensures ahead + s == WrittenEntries(es) + ([CLOSE_ARRAY] + TakeItems(s, depth, k, n).value.1)
    ensures KindOf(s) == Some(k) ==> KindIn(es[0].t) == k
    decreases |s|, 4
  {
    hide TakeTyped, Good, Fits, Meaning, Written, KindOf, KindIn, Gap, JsonSpec.SkipSpaces, WrittenEntries, Ahead;
    var t := ReadTyped(s, depth, k);
    var rest, close := TakeTyped(s, depth, k).value.1, [CLOSE_ARRAY] + TakeItems(s, depth, k, n).value.1;
    AheadIs(rest);
    var u := JsonSpec.SkipSpaces(rest);
    Uncons(u);
    var e := Entry(ahead, t, Ahead(rest));
    es := [e];
    if First(u) == COMMA {
      AheadIs(u[1..]);
      var more := ReadEntries(Ahead(u[1..]), JsonSpec.SkipSpaces(u[1..]), depth, k, n + 1);
      es := [e] + more;
      assert es[1..] == more;
      assert u == BehindEntry(es, close);
    } else {
      assert u == BehindEntry(es, close);
    }
    EntriesShape(es, close);
  }

  lemma {:induction false} ReadTable(s: text, depth: nat) returns (t: Text)
    requires First(s) == OPEN_OBJECT && TakeObject(s, depth).Some?
    ensures t.Table? && Good(t, depth) && Meaning(t) == TakeObject(s, depth).value.0
    ensures s == Written(t) + TakeObject(s, depth).value.1
    decreases |s|, 1
  {
    hide TakeFields, PairsGood, Fields, WrittenPairs, Gap, JsonSpec.SkipSpaces;
    var gap, u, rest := Ahead(s[1..]), JsonSpec.SkipSpaces(s[1..]), TakeObject(s, depth).value.1;
    AheadIs(s[1..]);
    Uncons(s);
    var ps := [];
    if First(u) == CLOSE_OBJECT {
      Uncons(u);
      NoneWritten(rest);
    } else {
      NothingAhead(u);
      ps := ReadPairs([], u, depth + 1, 0);
    }
    t := Table(gap, ps);
    BracketJoin(OPEN_OBJECT, gap, WrittenPairs(ps), CLOSE_OBJECT, rest);
  }

  lemma {:induction false} ReadPairs(ahead: text, s: text, depth: nat, n: nat) returns (ps: seq<Pair>)
    requires Gap(ahead) && TakeFields(s, depth, n).Some?
    ensures ps != [] && n + |ps| <= MAX_ELEMENTS && PairsGood(ps, depth)
    ensures Fields(ps) == TakeFields(s, depth, n).value.0
    ensures ahead + s == WrittenPairs(ps) + ([CLOSE_OBJECT] + TakeFields(s, depth, n).value.1)
    decreases |s|, 4
  {
    hide TakeField, PairGood, FieldOf, WrittenPair, Gap, JsonSpec.SkipSpaces, WrittenPairs, Ahead;
    var rest, close := TakeField(s, depth).value.1, [CLOSE_OBJECT] + TakeFields(s, depth, n).value.1;
    AheadIs(rest);
    var u := JsonSpec.SkipSpaces(rest);
    Uncons(u);
    var p := ReadPair(ahead, Ahead(rest), s, u, depth);
    ps := [p];
    if First(u) == COMMA {
      AheadIs(u[1..]);
      var more := ReadPairs(Ahead(u[1..]), JsonSpec.SkipSpaces(u[1..]), depth, n + 1);
      ps := [p] + more;
      assert ps[1..] == more;
      assert u == BehindPair(ps, close);
    } else {
      assert u == BehindPair(ps, close);
    }
    PairsShape(ps, close);
  }

  lemma {:induction false} ReadPair(ahead: text, after: text, s: text, tail: text, depth: nat) returns (p: Pair)
    requires Gap(ahead) && Gap(after) && TakeField(s, depth).Some? && TakeField(s, depth).value.1 == after + tail
    ensures PairGood(p, depth) && FieldOf(p) == TakeField(s, depth).value.0
    ensures ahead + s == WrittenPair(p) + tail
    decreases |s|, 3
  {
    hide TakeValue, StringEnd, RawOk, KeyHash, LowerKey, Good, Meaning, Written, WrittenPair, Gap, JsonSpec.SkipSpaces,
      Quoted, Ahead;
    var u, n := s[1..], StringEnd(s[1..]).value;
    var raw, v := u[..n], u[n + 1..];
    EndRaw(u);
    AheadIs(v);
    var w := JsonSpec.SkipSpaces(v);
    AheadIs(w[1..]);
    var x := JsonSpec.SkipSpaces(w[1..]);
    var t := ReadValue(x, depth);
    p := Pair(ahead, raw, Ahead(v), Ahead(w[1..]), t, after);
    PairShape(p, tail);
    Uncons(w);
    QuotedSplit(s);
  }

  lemma QuotedSplit(s: text)
    requires First(s) == QUOTE && StringEnd(s[1..]).Some?
    ensures var u, n := s[1..], StringEnd(s[1..]).value;
      s == Quoted(u[..n]) + u[n + 1..]
  {
    hide StringEnd;
    var u, n := s[1..], StringEnd(s[1..]).value;
    Uncons(s);
    Rejoin(u, n);
    Uncons(u[n..]);
    DropTwice(u, n, 1);
    AssociateAll([QUOTE], u[..n], [QUOTE], u[n + 1..]);
  }

  /** A whole text of the grammar, with spaces on both sides. */
  ghost predicate IsText(s: text, v: Value) {
    exists before, t, after ::
      Gap(before) && Gap(after) && Good(t, 0) && Meaning(t) == v && s == before + Written(t) + after
  }

  lemma AcceptText(before: text, t: Text, after: text)
    requires Gap(before) && Gap(after) && Good(t, 0)
    ensures ParseText(before + Written(t) + after) == Some(Meaning(t))
  {
    hide Gap, Good, Meaning, Written, TakeValue, JsonSpec.SkipSpaces;
    var s := Written(t) + after;
    Associate(before, Written(t), after);
    SkipGap(before, s);
    Starts(t, after, 0);
    NoPlaces(after);
    GapDelimits(after, []);
    AcceptValue(t, after, 0);
    SkipGap(after, []);
    Spaceless([]);
  }

  lemma ReadText(s: text) returns (before: text, t: Text, after: text)
    requires ParseText(s).Some?
    ensures Gap(before) && Gap(after) && Good(t, 0) && Meaning(t) == ParseText(s).value
    ensures s == before + Written(t) + after
  {
    hide Gap, Good, Meaning, Written, TakeValue, JsonSpec.SkipSpaces, Ahead;
    AheadIs(s);
    var u := JsonSpec.SkipSpaces(s);
    t := ReadValue(u, 0);
    before, after := Ahead(s), TakeValue(u, 0).value.1;
    AheadIs(after);
    NoPlaces(Ahead(after));
    Associate(before, Written(t), after);
  }

  /** The parser accepts exactly the texts of the grammar, and returns what they mean. */
  lemma ParsesExactly(s: text, v: Value)
    ensures ParseText(s) == Some(v) <==> IsText(s, v)
  {
    hide Gap, Good, Meaning, Written, ParseText;
    if ParseText(s) == Some(v) {
      var before, t, after := ReadText(s);
    }
    if IsText(s, v) {
      var before, t, after :| Gap(before) && Gap(after) && Good(t, 0) && Meaning(t) == v
        && s == before + Written(t) + after;
      AcceptText(before, t, after);
    }
  }
}
