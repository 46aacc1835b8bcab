/** What a JSON text means to the parser: a reading that takes values off the front of the
    text. The text is a C string, so none of its characters is zero. */
module JsonSpec {
  import opened Wrappers

  type tchar = x: int | 0 < x < 0x100 witness 1
  type text = seq<tchar>

  const MAX_ELEMENTS: nat := 524288
  const MAX_DEPTH: nat := 32
  const PART_FIRST_COUNT: nat := 5
  const PART_MAX_SIZE: nat := 65536
  const PART_HEADER: nat := 32

  /** The largest magnitude of a number, without its decimal point. */
  const MAX_NUMBER: nat := 9223372036854775799
  const MAX_PLACES: nat := 19

  const QUOTE: tchar := 0x22
  const COMMA: tchar := 0x2c
  const MINUS: tchar := 0x2d
  const POINT: tchar := 0x2e
  const COLON: tchar := 0x3a
  const OPEN_ARRAY: tchar := 0x5b
  const BACKSLASH: tchar := 0x5c
  const CLOSE_ARRAY: tchar := 0x5d
  const OPEN_OBJECT: tchar := 0x7b
  const CLOSE_OBJECT: tchar := 0x7d

  const TRUE: text := [0x74, 0x72, 0x75, 0x65]
  const FALSE: text := [0x66, 0x61, 0x6c, 0x73, 0x65]
  const NULL: text := [0x6e, 0x75, 0x6c, 0x6c]

  /** The type of the elements of an array; an empty one has none. */
  datatype Kind = KNull | KBool | KInt | KFrac | KString | KArray | KObject

  /** `counts` are the sizes of the parts the elements of an array are stored in. */
  datatype Value =
    | Null
    | Bool(b: bool)
    | Num(num: int, denom: nat)
    | Str(raw: text, escape: bool)
    | Arr(kind: Kind, items: seq<Value>, counts: seq<nat>)
    | Obj(fields: seq<Field>)

  datatype Field = Field(hash: nat, key: text, value: Value)

  predicate IsSpace(c: tchar) { c == 0x20 || 9 <= c <= 13 }
  predicate IsDigit(c: tchar) { 0x30 <= c <= 0x39 }
  predicate IsUpper(c: tchar) { 0x41 <= c <= 0x5a }

  function Lower(c: tchar): tchar { if IsUpper(c) then c + 0x20 else c }

  /** The character at the front; 0 at the end of the text. */
  function First(s: text): (c: int)
    ensures 0 <= c < 0x100 && (c == 0 <==> s == [])
  {
    if s == [] then 0 else s[0]
  }

  function SkipSpaces(s: text): (r: text)
    ensures |r| <= |s|
  {
    if s != [] && IsSpace(s[0]) then SkipSpaces(s[1..]) else s
  }

  /** The length of the digits at the front. */
  function Digits(s: text): (n: nat)
    ensures n <= |s|
  {
    if s != [] && IsDigit(s[0]) then 1 + Digits(s[1..]) else 0
  }

  function DigitValue(c: tchar): int {
    var n: int := c;
    n - 0x30
  }

  /** The value of a run of digits. */
  function Dec(ds: text): int {
    if ds == [] then 0 else Dec(ds[..|ds| - 1]) * 10 + DigitValue(ds[|ds| - 1])
  }

  predicate AllDigits(ds: text) { forall i :: 0 <= i < |ds| ==> IsDigit(ds[i]) }

  lemma {:induction false} DigitsAre(s: text)
    ensures AllDigits(s[..Digits(s)])
    ensures Digits(s) < |s| ==> !IsDigit(s[Digits(s)])
  {
    if s != [] && IsDigit(s[0]) {
      DigitsAre(s[1..]);
      assert s[..Digits(s)] == [s[0]] + s[1..][..Digits(s[1..])];
    }
  }

  lemma {:induction false} DecNat(ds: text)
    requires AllDigits(ds)
    ensures Dec(ds) >= 0
  {
    if ds != [] {
      DecNat(ds[..|ds| - 1]);
    }
  }

  function Signed(negative: bool, n: int): int { if negative then -n else n }

  function Pow10(k: nat): (p: nat)
    ensures p > 0
  {
    if k == 0 then 1 else 10 * Pow10(k - 1)
  }

  /** An optional sign and digits; the value must not be too large. */
  function TakeInt(s: text): (r: Option<(bool, nat, text)>)
    ensures r.Some? ==> |r.value.2| < |s| && r.value.1 <= MAX_NUMBER
  {
    var negative := First(s) == MINUS;
    var t := if negative then s[1..] else s;
    var n := Digits(t);
    DigitsAre(t);
    DecNat(t[..n]);
    if n == 0 || Dec(t[..n]) > MAX_NUMBER then None else Some((negative, Dec(t[..n]), t[n..]))
  }

  function TakeWhole(s: text): (r: Option<(Value, text)>)
    ensures r.Some? ==> |r.value.1| < |s|
  {
    match TakeInt(s)
    case None => None
    case Some((negative, v, rest)) => Some((Num(Signed(negative, v), 1), rest))
  }

  /** A number, as a fraction: the digits on both sides of the point, over a power of ten. */
  function TakeNumber(s: text): (r: Option<(Value, text)>)
    ensures r.Some? ==> r.value.0.Num? && |r.value.1| < |s|
  {
    match TakeInt(s)
    case None => None
    case Some((negative, v, rest)) =>
      if First(rest) != POINT then Some((Num(Signed(negative, v), 1), rest))
      else
        var u := rest[1..];
        var t := if negative then s[1..] else s;
        var n, m := Digits(t), Digits(u);
        if m == 0 || m > MAX_PLACES then None
        else
          var d := Dec(t[..n] + u[..m]);
          if d > MAX_NUMBER then None else Some((Num(Signed(negative, d), Pow10(m)), u[m..]))
  }

  /** The length of a string up to its closing quote. */
  function StringEnd(s: text): (r: Option<nat>)
    ensures r.Some? ==> r.value < |s| && s[r.value] == QUOTE
  {
    if s == [] then None
    else if s[0] == QUOTE then Some(0)
    else if s[0] == BACKSLASH then
      if |s| == 1 then None
      else
        match StringEnd(s[2..])
        case None => None
        case Some(n) => Some(n + 2)
    else
      match StringEnd(s[1..])
      case None => None
      case Some(n) => Some(n + 1)
  }

  /** A string, behind its opening quote. */
  function TakeString(s: text): (r: Option<(Value, text)>)
    ensures r.Some? ==> |r.value.1| < |s|
  {
    match StringEnd(s)
    case None => None
    case Some(n) => Some((Str(s[..n], BACKSLASH in s[..n]), s[n + 1..]))
  }

  /** A key as it is stored: in lower case, but for what follows a backslash. */
  function LowerKey(s: text): (r: text)
    ensures |r| == |s|
  {
    if s == [] then []
    else if s[0] == BACKSLASH && |s| > 1 then [s[0], s[1]] + LowerKey(s[2..])
    else [Lower(s[0])] + LowerKey(s[1..])
  }

  const U64: nat := 0x1_0000_0000_0000_0000

  function HashStep(hash: nat, c: tchar): nat { (hash * 31 + c) % U64 }

  /** The hash of a key; the character behind a backslash does not count. */
  function KeyHash(key: text, hash: nat): nat {
    if key == [] then hash
    else if key[0] == BACKSLASH && |key| > 1 then KeyHash(key[2..], HashStep(hash, key[0]))
    else KeyHash(key[1..], HashStep(hash, Lower(key[0])))
  }

  /** A constant word. */
  function TakeWord(s: text, w: text, v: Value): (r: Option<(Value, text)>)
    requires w != []
    ensures r.Some? ==> |r.value.1| < |s|
  {
    if w <= s then Some((v, s[|w|..])) else None
  }

  /** The type of the elements is that of the first. */
  function KindOf(s: text): Option<Kind> {
    var c := First(s);
    if c == QUOTE then Some(KString)
    else if c == OPEN_ARRAY then Some(KArray)
    else if c == OPEN_OBJECT then Some(KObject)
    else if c == 0x66 || c == 0x74 then Some(KBool)
    else
      var t := if c == MINUS then s[1..] else s;
      var n := Digits(t);
      if n == 0 then None else if First(t[n..]) == POINT then Some(KFrac) else Some(KInt)
  }

  function KindSize(k: Kind): (n: nat)
    ensures n > 0
  {
    match k
    case KString => 24
    case KArray => 48
    case KObject => 40
    case KFrac => 16
    case _ => 8
  }

  /** With room for c elements of `unit` bytes in a part, there is room for twice as many in
      the next, up to a limit. */
  function NextCount(unit: nat, c: nat): (r: nat)
    ensures r >= c
  {
    if c * unit < (PART_MAX_SIZE - PART_HEADER) / 2 then 2 * c else c
  }

  /** The parts that n elements take, the first with room for c. */
  function Parts(unit: nat, n: nat, c: nat): seq<nat>
    requires c > 0
    decreases n
  {
    if n <= c then [n] else [c] + Parts(unit, n - c, NextCount(unit, c))
  }

  /** One array element. */
  function TakeTyped(s: text, depth: nat, k: Kind): (r: Option<(Value, text)>)
    ensures r.Some? ==> |r.value.1| < |s|
    decreases |s|, 3
  {
    match k
    case KString => if First(s) == QUOTE then TakeString(s[1..]) else None
    case KArray => if First(s) == OPEN_ARRAY then TakeArray(s, depth) else None
    case KObject => if First(s) == OPEN_OBJECT then TakeObject(s, depth) else None
    case KBool =>
      if First(s) == 0x74 then TakeWord(s, TRUE, Bool(true))
      else if First(s) == 0x66 then TakeWord(s, FALSE, Bool(false)) else None
    case KFrac => TakeNumber(s)
    case KInt => TakeWhole(s)
    case KNull => None
  }

  /** The elements from here to the closing bracket, n having been taken before. */
  function TakeItems(s: text, depth: nat, k: Kind, n: nat): (r: Option<(seq<Value>, text)>)
    ensures r.Some? ==> |r.value.1| < |s| && |r.value.0| > 0
    decreases |s|, 4
  {
    if n >= MAX_ELEMENTS then None
    else
      match TakeTyped(s, depth, k)
      case None => None
      case Some((v, rest)) =>
        var t := SkipSpaces(rest);
        if First(t) == CLOSE_ARRAY then Some(([v], t[1..]))
        else if First(t) == COMMA then
          match TakeItems(SkipSpaces(t[1..]), depth, k, n + 1)
          case None => None
          case Some((vs, rest')) => Some(([v] + vs, rest'))
        else None
  }

  function TakeArray(s: text, depth: nat): (r: Option<(Value, text)>)
    requires First(s) == OPEN_ARRAY
    ensures r.Some? ==> |r.value.1| < |s|
    decreases |s|, 1
  {
    var t := SkipSpaces(s[1..]);
    if First(t) == CLOSE_ARRAY then Some((Arr(KNull, [], []), t[1..]))
    else if depth >= MAX_DEPTH then None
    else
      match KindOf(t)
      case None => None
      case Some(k) =>
        match TakeItems(t, depth + 1, k, 0)
        case None => None
        case Some((vs, rest)) => Some((Arr(k, vs, Parts(KindSize(k), |vs|, PART_FIRST_COUNT)), rest))
  }

  /** A key and its value. */
  function TakeField(s: text, depth: nat): (r: Option<(Field, text)>)
    ensures r.Some? ==> |r.value.1| < |s|
    decreases |s|, 3
  {
    if First(s) != QUOTE then None
    else
      match StringEnd(s[1..])
      case None => None
      case Some(n) =>
        var raw := s[1..][..n];
        var t := SkipSpaces(s[1..][n + 1..]);
        if First(t) != COLON then None
        else
          match TakeValue(SkipSpaces(t[1..]), depth)
          case None => None
          case Some((v, rest)) => Some((Field(KeyHash(raw, 0), LowerKey(raw), v), rest))
  }

  function TakeFields(s: text, depth: nat, n: nat): (r: Option<(seq<Field>, text)>)
    ensures r.Some? ==> |r.value.1| < |s|
    decreases |s|, 4
  {
    if n >= MAX_ELEMENTS then None
    else
      match TakeField(s, depth)
      case None => None
      case Some((f, rest)) =>
        var t := SkipSpaces(rest);
        if First(t) == CLOSE_OBJECT then Some(([f], t[1..]))
        else if First(t) == COMMA then
          match TakeFields(SkipSpaces(t[1..]), depth, n + 1)
          case None => None
          case Some((fs, rest')) => Some(([f] + fs, rest'))
        else None
  }

  function TakeObject(s: text, depth: nat): (r: Option<(Value, text)>)
    requires First(s) == OPEN_OBJECT
    ensures r.Some? ==> |r.value.1| < |s|
    decreases |s|, 1
  {
    var t := SkipSpaces(s[1..]);
    if First(t) == CLOSE_OBJECT then Some((Obj([]), t[1..]))
    else if depth >= MAX_DEPTH then None
    else
      match TakeFields(t, depth + 1, 0)
      case None => None
      case Some((fs, rest)) => Some((Obj(fs), rest))
  }

  /** A value at the front of the text. */
  function TakeValue(s: text, depth: nat): (r: Option<(Value, text)>)
    ensures r.Some? ==> |r.value.1| < |s|
    decreases |s|, 2
  {
    var c := First(s);
    if c == QUOTE then TakeString(s[1..])
    else if c == OPEN_ARRAY then TakeArray(s, depth)
    else if c == OPEN_OBJECT then TakeObject(s, depth)
    else if c == 0x6e then TakeWord(s, NULL, Null)
    else if c == 0x74 then TakeWord(s, TRUE, Bool(true))
    else if c == 0x66 then TakeWord(s, FALSE, Bool(false))
    else TakeNumber(s)
  }

  /** The whole text is one value, with spaces around it. */
  function ParseText(s: text): Option<Value> {
    match TakeValue(SkipSpaces(s), 0)
    case None => None
    case Some((v, rest)) => if SkipSpaces(rest) == [] then Some(v) else None
  }

  function Sum(ns: seq<nat>): nat {
    if ns == [] then 0 else ns[0] + Sum(ns[1..])
  }

  /** No part is empty, and together they hold all elements. */
  lemma {:induction false} PartsSum(unit: nat, n: nat, c: nat)
    requires c > 0 && n > 0
    ensures Sum(Parts(unit, n, c)) == n
    ensures forall i :: 0 <= i < |Parts(unit, n, c)| ==> Parts(unit, n, c)[i] > 0
    decreases n
  {
    hide NextCount;
    if n > c {
      PartsSum(unit, n - c, NextCount(unit, c));
    } else {
      assert Parts(unit, n, c)[1..] == [];
    }
  }

  /** Behind a full part of c elements comes one with room for twice as many, if with its
      header it stays below 64 kilobytes, else one with room for as many. */
  predicate Follows(unit: nat, c: nat, next: nat, full: bool) {
    var room := if 2 * (c * unit) + 32 < 65536 then 2 * c else c;
    if full then next == room else next <= room
  }

  lemma Doubled(unit: nat, c: nat)
    requires c * unit + 32 <= 65536
    ensures Follows(unit, c, NextCount(unit, c), true) && NextCount(unit, c) * unit + 32 <= 65536
  {
    assert (2 * c) * unit == 2 * (c * unit);
  }

  lemma Smaller(unit: nat, n: nat, c: nat)
    requires n <= c && c * unit + 32 <= 65536
    ensures n * unit + 32 <= 65536
  {
  }

  /** The parts grow that way, and all but the last are full. */
  lemma {:induction false} PartsGrow(unit: nat, n: nat, c: nat)
    requires c > 0 && n > 0 && c * unit + 32 <= 65536
    ensures var ps := Parts(unit, n, c);
      && |ps| > 0 && ps[0] <= c && (|ps| > 1 ==> ps[0] == c)
      && (forall i :: 0 <= i < |ps| ==> ps[i] * unit + 32 <= 65536)
      && forall i :: 0 < i < |ps| ==> Follows(unit, ps[i - 1], ps[i], i < |ps| - 1)
    decreases n
  {
    hide NextCount, Follows;
    if n > c {
      Doubled(unit, c);
      PartsGrow(unit, n - c, NextCount(unit, c));
      FollowsLess(unit, c, NextCount(unit, c));
    } else {
      Smaller(unit, n, c);
    }
  }

  lemma FollowsLess(unit: nat, c: nat, room: nat)
    requires Follows(unit, c, room, true)
    ensures forall n: nat :: n <= room ==> Follows(unit, c, n, false)
  {
  }
}
