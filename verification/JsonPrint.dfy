/** Compact printing, and the round trip with the parser. */
module JsonPrint {
  import opened Sequences
  import opened JsonSpec
  import opened JsonGrammar
  import opened Wrappers

  /** Decimal digits. */
  function Show(n: nat): (s: text)
    ensures |s| > 0
  {
    if n < 10 then [n + 0x30] else Show(n / 10) + [n % 10 + 0x30]
  }

  function Padded(ds: text, n: nat): (r: text)
    ensures |r| >= n && |r| >= |ds|
    decreases n - |ds|
  {
    if |ds| >= n then ds else Padded([0x30] + ds, n)
  }

  /** The number of places a denominator stands for. */
  function Places(denom: nat): nat {
    if denom < 10 then 0 else 1 + Places(denom / 10)
  }

  function Abs(n: int): nat { if n < 0 then -n else n }

  /** A number with its decimal point k places from the end. */
  function PointAt(num: int, k: nat): Text {
    var ds := Padded(Show(Abs(num)), k + 1);
    Number(num < 0, ds[..|ds| - k], ds[|ds| - k..])
  }

  /** The text of a value without spaces. */
  function Compact(v: Value): Text
    decreases v
  {
    match v
    case Null => Word(v)
    case Bool(_) => Word(v)
    case Num(num, denom) => PointAt(num, Places(denom))
    case Str(raw, _) => Quotation(raw)
    case Arr(_, items, _) => List([], CompactItems(items))
    case Obj(fields) => Table([], CompactFields(fields))
  }

  function CompactItems(items: seq<Value>): (es: seq<Entry>)
    ensures |es| == |items|
    decreases items
  {
    if items == [] then [] else [Entry([], Compact(items[0]), [])] + CompactItems(items[1..])
  }

  function CompactField(f: Field): Pair
    decreases f
  {
    Pair([], f.key, [], [], Compact(f.value), [])
  }

  function CompactFields(fields: seq<Field>): (ps: seq<Pair>)
    ensures |ps| == |fields|
    decreases fields
  {
    if fields == [] then [] else [CompactField(fields[0])] + CompactFields(fields[1..])
  }

  function Print(v: Value): text { Written(Compact(v)) }

  predicate NumberOk(num: int, denom: nat) {
    denom == Pow10(Places(denom)) && Places(denom) <= MAX_PLACES && Abs(num) <= MAX_NUMBER
  }

  /** An element of an array of type k; the first one sets whether numbers have places. */
  predicate OfKind(v: Value, k: Kind) {
    match v
    case Null => false
    case Bool(_) => k == KBool
    case Num(_, denom) => k == KFrac || (k == KInt && denom == 1)
    case Str(_, _) => k == KString
    case Arr(_, _, _) => k == KArray
    case Obj(_) => k == KObject
  }

  predicate SetsKind(v: Value, k: Kind) {
    OfKind(v, k) && (k == KFrac ==> v.Num? && v.denom != 1)
  }

  /** The values the parser supports, `depth` containers deep: arrays of one type without
      nulls, keys in lower case, limits on depth, elements and numbers. */
  predicate Supported(v: Value, depth: nat)
    decreases v
  {
    match v
    case Null => true
    case Bool(_) => true
    case Num(num, denom) => NumberOk(num, denom)
    case Str(raw, escape) => RawOk(raw) && escape == (BACKSLASH in raw)
    case Arr(k, items, counts) =>
      if items == [] then k == KNull && counts == []
      else
        && depth < MAX_DEPTH && |items| <= MAX_ELEMENTS && SetsKind(items[0], k)
        && counts == Parts(KindSize(k), |items|, PART_FIRST_COUNT)
        && ItemsSupported(items, depth + 1, k)
    case Obj(fields) =>
      fields == [] || (depth < MAX_DEPTH && |fields| <= MAX_ELEMENTS && FieldsSupported(fields, depth + 1))
  }

  predicate ItemsSupported(items: seq<Value>, depth: nat, k: Kind)
    decreases items
  {
    items == [] || (OfKind(items[0], k) && Supported(items[0], depth) && ItemsSupported(items[1..], depth, k))
  }

  predicate FieldSupported(f: Field, depth: nat)
    decreases f
  {
    RawOk(f.key) && LowerKey(f.key) == f.key && f.hash == KeyHash(f.key, 0) && Supported(f.value, depth)
  }

  predicate FieldsSupported(fields: seq<Field>, depth: nat)
    decreases fields
  {
    fields == [] || (FieldSupported(fields[0], depth) && FieldsSupported(fields[1..], depth))
  }

  // Printing

  lemma {:induction false} DecShow(n: nat)
    ensures AllDigits(Show(n)) && Dec(Show(n)) == n
  {
    var s := Show(n);
    if n < 10 {
      assert s[..0] == [];
    } else {
      DecShow(n / 10);
      assert s[..|s| - 1] == Show(n / 10);
    }
  }

  lemma {:induction false} DecZero(ds: text)
    ensures Dec([0x30] + ds) == Dec(ds)
  {
    var z := [0x30] + ds;
    if ds == [] {
      assert z[..0] == [] && DigitValue(z[0]) == 0;
    } else {
      DecZero(ds[..|ds| - 1]);
      assert z[..|z| - 1] == [0x30] + ds[..|ds| - 1];
    }
  }

  lemma {:induction false} DecPadded(ds: text, n: nat)
    requires AllDigits(ds)
    ensures AllDigits(Padded(ds, n)) && Dec(Padded(ds, n)) == Dec(ds)
    decreases n - |ds|
  {
    if |ds| < n {
      DecZero(ds);
      DecPadded([0x30] + ds, n);
    }
  }

  lemma PlacesNone(denom: nat)
    requires denom == Pow10(Places(denom))
    ensures Places(denom) == 0 <==> denom == 1
  {
  }

  lemma PointSplits(num: int, denom: nat)
    requires NumberOk(num, denom)
    ensures var t := PointAt(num, Places(denom));
      NumberGood(t.whole, t.places) && Meaning(t) == Num(num, denom) && (t.places == [] <==> denom == 1)
  {
    hide Dec, Show, Padded, Pow10, Places;
    var n, k := Abs(num), Places(denom);
    var ds := Padded(Show(n), k + 1);
    DecShow(n);
    DecPadded(Show(n), k + 1);
    PrefixDigits(ds, |ds| - k);
    Rejoin(ds, |ds| - k);
    PlacesNone(denom);
  }

  lemma NumberRoundTrip(num: int, denom: nat, rest: text)
    requires NumberOk(num, denom) && Delimited(rest)
    ensures TakeNumber(Print(Num(num, denom)) + rest) == Some((Num(num, denom), rest))
  {
    hide Written, TakeNumber, Meaning, NumberGood, PointAt;
    PointSplits(num, denom);
    var t := PointAt(num, Places(denom));
    assert t.Number? by { PointIs(num, Places(denom)); }
    AcceptNumber(t.negative, t.whole, t.places, rest);
  }

  lemma PointIs(num: int, k: nat)
    ensures PointAt(num, k).Number?
  {
  }

  /** The compact text of a supported value is one of the grammar and means the value. */
  lemma {:induction false} CompactMeans(v: Value, depth: nat)
    requires Supported(v, depth)
    ensures Good(Compact(v), depth) && Meaning(Compact(v)) == v
    ensures forall k :: OfKind(v, k) ==> Fits(Compact(v), k)
    ensures forall k :: SetsKind(v, k) ==> KindIn(Compact(v)) == k
    decreases v, 0
  {
    hide NumberGood, NumberOk, PointAt, RawOk, EntriesGood, PairsGood, ItemsSupported, FieldsSupported, Meanings,
      Fields, Parts;
    match v
    case Null =>
    case Bool(_) =>
    case Num(num, denom) =>
      PointSplits(num, denom);
      PointIs(num, Places(denom));
    case Str(_, _) =>
    case Arr(k, items, _) =>
      NoGap();
      if items != [] {
        ItemsMean(items, depth + 1, k);
        FirstSupported(items, depth + 1, k);
        CompactMeans(items[0], depth + 1);
        assert CompactItems(items)[0].t == Compact(items[0]);
      }
    case Obj(fields) =>
      NoGap();
      if fields != [] {
        FieldsMean(fields, depth + 1);
      }
  }

  lemma NoGap()
    ensures Gap([])
  {
  }

  lemma FirstSupported(items: seq<Value>, depth: nat, k: Kind)
    requires items != [] && ItemsSupported(items, depth, k)
    ensures Supported(items[0], depth)
  {
  }

  lemma {:induction false} ItemsMean(items: seq<Value>, depth: nat, k: Kind)
    requires ItemsSupported(items, depth, k)
    ensures EntriesGood(CompactItems(items), depth, k) && Meanings(CompactItems(items)) == items
    decreases items, 1
  {
    hide Good, Meaning, Compact, Supported, OfKind, SetsKind, Fits, KindIn;
    NoGap();
    if items != [] {
      CompactMeans(items[0], depth);
      ItemsMean(items[1..], depth, k);
      Halves([Entry([], Compact(items[0]), [])], CompactItems(items[1..]));
      Uncons(items);
    }
  }

  lemma {:induction false} FieldsMean(fields: seq<Field>, depth: nat)
    requires FieldsSupported(fields, depth)
    ensures PairsGood(CompactFields(fields), depth) && Fields(CompactFields(fields)) == fields
    decreases fields, 2
  {
    hide PairGood, FieldOf, CompactField, FieldSupported;
    if fields != [] {
      FieldMeans(fields[0], depth);
      FieldsMean(fields[1..], depth);
      Halves([CompactField(fields[0])], CompactFields(fields[1..]));
      Uncons(fields);
    }
  }

  lemma {:induction false} FieldMeans(f: Field, depth: nat)
    requires FieldSupported(f, depth)
    ensures PairGood(CompactField(f), depth) && FieldOf(CompactField(f)) == f
    decreases f, 1
  {
    hide Good, Meaning, Compact, Supported, OfKind, SetsKind, Fits, KindIn, RawOk, LowerKey, KeyHash;
    NoGap();
    CompactMeans(f.value, depth);
  }

  /** For every supported value, parsing its compact printing returns it. */
  lemma RoundTrip(v: Value)
    requires Supported(v, 0)
    ensures ParseText(Print(v)) == Some(v)
  {
    hide Written, Compact, Good, Meaning, Supported, ParseText, OfKind, SetsKind, Fits, KindIn;
    CompactMeans(v, 0);
    NoGap();
    var s := Written(Compact(v));
    AcceptText([], Compact(v), []);
    assert [] + s + [] == s;
  }

  // Everything the parser returns is supported

  lemma {:induction false} PowOfPlaces(m: nat)
    ensures Places(Pow10(m)) == m
  {
    if m > 0 {
      PowOfPlaces(m - 1);
    }
  }

  /** Lower case is reached in one step. */
  lemma {:induction false} LowerAgain(s: text, h: nat)
    requires RawOk(s)
    ensures RawOk(LowerKey(s)) && LowerKey(LowerKey(s)) == LowerKey(s) && KeyHash(LowerKey(s), h) == KeyHash(s, h)
    decreases |s|
  {
    hide HashStep;
    var l := LowerKey(s);
    if s != [] {
      if s[0] == BACKSLASH {
        LowerAgain(s[2..], HashStep(h, s[0]));
        assert l[2..] == LowerKey(s[2..]);
      } else {
        LowerAgain(s[1..], HashStep(h, Lower(s[0])));
        assert l[1..] == LowerKey(s[1..]);
      }
    }
  }

  lemma NumberSupported(negative: bool, whole: text, places: text)
    requires NumberGood(whole, places)
    ensures var v := Meaning(Number(negative, whole, places));
      v.Num? && NumberOk(v.num, v.denom) && (places == [] <==> v.denom == 1)
  {
    hide Dec, Pow10, Places;
    WholeDigits(whole, places);
    PowOfPlaces(|places|);
    PlacesNone(Pow10(|places|));
  }

  /** What a text of the grammar means is a supported value. */
  lemma {:induction false} MeaningSupported(t: Text, depth: nat)
    requires Good(t, depth)
    ensures Supported(Meaning(t), depth)
    ensures forall k :: Fits(t, k) ==> OfKind(Meaning(t), k)
    ensures forall k :: Fits(t, k) && KindIn(t) == k ==> SetsKind(Meaning(t), k)
    decreases t, 0
  {
    hide NumberGood, NumberOk, RawOk, EntriesGood, PairsGood, ItemsSupported, FieldsSupported, Meanings, Fields, Parts;
    match t
    case Word(_) =>
    case Number(negative, whole, places) => NumberSupported(negative, whole, places);
    case Quotation(_) =>
    case List(_, es) =>
      if es != [] {
        EntriesSupported(es, depth + 1, KindIn(es[0].t));
        FirstGood(es, depth + 1, KindIn(es[0].t));
        MeaningSupported(es[0].t, depth + 1);
      }
    case Table(_, ps) =>
      if ps != [] {
        PairsSupported(ps, depth + 1);
      }
  }

  lemma FirstGood(es: seq<Entry>, depth: nat, k: Kind)
    requires es != [] && EntriesGood(es, depth, k)
    ensures Good(es[0].t, depth) && Fits(es[0].t, k) && Meanings(es)[0] == Meaning(es[0].t)
  {
  }

  lemma {:induction false} EntriesSupported(es: seq<Entry>, depth: nat, k: Kind)
    requires EntriesGood(es, depth, k)
    ensures ItemsSupported(Meanings(es), depth, k)
    decreases es, 1
  {
    hide Good, Meaning, Supported, OfKind, SetsKind, Fits, KindIn, Gap;
    if es != [] {
      MeaningSupported(es[0].t, depth);
      EntriesSupported(es[1..], depth, k);
      assert Meanings(es)[1..] == Meanings(es[1..]);
    }
  }

  lemma {:induction false} PairsSupported(ps: seq<Pair>, depth: nat)
    requires PairsGood(ps, depth)
    ensures FieldsSupported(Fields(ps), depth)
    decreases ps, 2
  {
    hide PairGood, FieldOf, FieldSupported;
    if ps != [] {
      PairSupported(ps[0], depth);
      PairsSupported(ps[1..], depth);
      assert Fields(ps)[1..] == Fields(ps[1..]);
    }
  }

  lemma {:induction false} PairSupported(p: Pair, depth: nat)
    requires PairGood(p, depth)
    ensures FieldSupported(FieldOf(p), depth)
    decreases p, 1
  {
    hide Good, Meaning, Supported, OfKind, SetsKind, Fits, KindIn, RawOk, LowerKey, KeyHash, Gap;
    LowerAgain(p.key, 0);
    MeaningSupported(p.t, depth);
  }

  /** A text is a supported value or nothing: what was parsed prints to a text that parses to
      the same value. */
  lemma ParsePrintParse(s: text)
    ensures ParseText(s).Some? ==>
      Supported(ParseText(s).value, 0) && ParseText(Print(ParseText(s).value)) == ParseText(s)
  {
    hide Written, Good, Meaning, Supported, ParseText, OfKind, SetsKind, Fits, KindIn, Print;
    if ParseText(s).Some? {
      var _, t, _ := ReadText(s);
      MeaningSupported(t, 0);
      RoundTrip(ParseText(s).value);
    }
  }
}
