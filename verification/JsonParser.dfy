/** The JSON parser: a cursor over the text, which it changes only behind itself. */
module JsonParser {
  import opened Sequences
  import opened JsonSpec
  import opened Wrappers

  const LLONG_MAX: nat := 0x7fff_ffff_ffff_ffff
  const ULLONG_MAX: nat := 0xffff_ffff_ffff_ffff

  class Parser {
    var buf: text
    var pos: nat
    var depth: nat

    ghost predicate Valid()
      reads this`buf, this`pos
    {
      pos <= |buf|
    }

    /** What has not been looked at. */
    ghost function Rest(): text
      requires Valid()
      reads this`buf, this`pos
    {
      buf[pos..]
    }

    constructor (s: text)
      ensures Valid() && Rest() == s && buf == s && depth == 0
    {
      buf, pos, depth := s, 0, 0;
    }

    /** The character under the cursor. */
    function Cur(): (c: int)
      requires Valid()
      reads this`buf, this`pos
      ensures c == First(Rest())
    {
      if pos < |buf| then buf[pos] else 0
    }

    method SkipSpaces()
      requires Valid()
      modifies this`pos
      ensures Valid() && Rest() == JsonSpec.SkipSpaces(old(Rest())) && pos >= old(pos)
    {
      while Cur() != 0 && IsSpace(buf[pos])
        invariant Valid() && pos >= old(pos) && JsonSpec.SkipSpaces(Rest()) == JsonSpec.SkipSpaces(old(Rest()))
        decreases |buf| - pos
      {
        DropTwice(buf, pos, 1);
        pos := pos + 1;
      }
    }

    /** Moves to the closing quote of a string. */
    method ScanString() returns (found: bool, escape: bool)
      requires Valid()
      modifies this`pos
      ensures Valid() && pos >= old(pos) && found == StringEnd(old(Rest())).Some?
      ensures found ==> var n := StringEnd(old(Rest())).value;
        pos == old(pos) + n && escape == (BACKSLASH in old(Rest())[..n])
    {
      hide StringEnd;
      ghost var s, p := Rest(), 0;
      escape := false;
      while Cur() != 0
        invariant Valid() && pos == old(pos) + p && p <= |s| && escape == (BACKSLASH in s[..p])
        invariant StringEnd(s) == Later(StringEnd(s[p..]), p)
        decreases |buf| - pos
      {
        ScanStep(s, p);
        assert s[p] == buf[pos];
        if buf[pos] == BACKSLASH {
          pos := pos + 1;
          if Cur() == 0 {
            return false, escape;
          }
          escape := true;
          p := p + 1;
        } else if buf[pos] == QUOTE {
          return true, escape;
        }
        pos := pos + 1;
        p := p + 1;
      }
      EndStep(s[p..]);
      found := false;
    }

    /** A string, with the cursor on its opening quote. */
    method ParseString() returns (ok: bool, v: Value)
      requires Valid() && First(Rest()) == QUOTE
      modifies this`pos
      ensures Valid() && pos >= old(pos)
      ensures var r := TakeString(old(Rest())[1..]); ok == r.Some? && (ok ==> (v, Rest()) == r.value)
    {
      hide StringEnd;
      v := Null;
      pos := pos + 1;
      assert Rest() == old(Rest())[1..];
      var start, escape := pos, false;
      ok, escape := ScanString();
      if ok {
        SplitAt(buf, start, pos - start);
        v := Str(buf[start..pos], escape);
        pos := pos + 1;
      }
    }

    /** Moves to the closing quote of a key, turning it into lower case on the way. */
    method ScanKey() returns (found: bool, hash: nat)
      requires Valid()
      modifies this
      ensures Kept(old(buf)) && depth == old(depth) && pos >= old(pos) && found == StringEnd(old(Rest())).Some?
      ensures found ==> var n := StringEnd(old(Rest())).value;
        && pos == old(pos) + n && hash == KeyHash(old(Rest())[..n], 0)
        && buf[old(pos)..pos] == LowerKey(old(Rest())[..n])
    {
      hide KeyAt, StringEnd, LowerKey, KeyHash;
      hash := 0;
      ghost var s, start := Rest(), pos;
      KeyAtStart();
      found := false;
      while Cur() != 0 && !found
        invariant Kept(old(buf)) && depth == old(depth) && start <= pos <= |buf|
        invariant !found ==> KeyAt(old(buf), start, hash)
        invariant found ==>
          && StringEnd(s) == Some(pos - start) && hash == KeyHash(s[..pos - start], 0)
          && buf[start..pos] == LowerKey(s[..pos - start])
        decreases |buf| - pos, !found
      {
        var step;
        step, hash := KeyChar(old(buf), start, hash);
        if step == Bad {
          return;
        }
        found := step == Closed;
      }
      if !found {
        KeyUnclosed(old(buf), start, hash);
      }
    }

    /** In the middle of a key that starts at `start`. */
    ghost predicate KeyAt(was: text, start: nat, hash: nat)
      reads this`buf, this`pos
    {
      && Kept(was) && start <= pos
      && KeyRead(was[start..], pos - start, buf[start..pos], hash)
    }

    lemma KeyAtStart()
      requires Valid()
      ensures Kept(buf) && KeyAt(buf, pos, 0)
    {
      hide StringEnd, LowerKey, KeyHash;
      var s := Rest();
      assert s[0..] == s && buf[pos..pos] == [];
      if StringEnd(s).Some? {
        KeyStart(s, s[..StringEnd(s).value]);
      }
    }

    lemma KeyUnclosed(was: text, start: nat, hash: nat)
      requires KeyAt(was, start, hash) && pos == |buf|
      ensures StringEnd(was[start..]) == None
    {
      hide StringEnd, KeySoFar;
      var s := was[start..];
      assert s[pos - start..] == [];
      EndStep(s[pos - start..]);
    }

    /** One character of a key, or two. */
    method KeyChar(ghost was: text, ghost start: nat, hash0: nat) returns (step: Step, hash: nat)
      requires KeyAt(was, start, hash0) && pos < |buf|
      modifies this`buf, this`pos
      ensures Kept(was) && start <= pos && if step == Closed then pos == old(pos) else pos > old(pos)
      ensures step == More ==> KeyAt(was, start, hash)
      ensures step == Bad ==> StringEnd(was[start..]) == None
      ensures step == Closed ==> var s, n := was[start..], pos - start;
        n <= |s| && StringEnd(s) == Some(n) && hash == KeyHash(s[..n], 0) && buf[start..pos] == LowerKey(s[..n])
    {
      hide KeyAt, StringEnd, LowerKey, KeyHash, HashStep;
      hash := hash0;
      KeyOpen(was, start, hash0);
      if buf[pos] == QUOTE {
        return Closed, hash;
      }
      if buf[pos] == BACKSLASH {
        step, hash := KeyEscape(was, start, hash0);
      } else {
        hash := KeyPlain(was, start, hash0);
        step := More;
      }
    }

    lemma KeyOpen(was: text, start: nat, hash: nat)
      requires KeyAt(was, start, hash) && pos < |buf|
      ensures Kept(was) && start <= pos
      ensures buf[pos] == QUOTE ==> var s, n := was[start..], pos - start;
        n <= |s| && StringEnd(s) == Some(n) && hash == KeyHash(s[..n], 0) && buf[start..pos] == LowerKey(s[..n])
    {
      hide StringEnd, LowerKey, KeyHash, KeySoFar;
      var s, p := was[start..], pos - start;
      KeptHere(was);
      EndStep(s[p..]);
      if buf[pos] == QUOTE {
        KeyDone(s, s[..p], buf[start..pos], hash);
      }
    }

    method KeyPlain(ghost was: text, ghost start: nat, hash0: nat) returns (hash: nat)
      requires KeyAt(was, start, hash0) && pos < |buf| && buf[pos] != QUOTE && buf[pos] != BACKSLASH
      modifies this`buf, this`pos
      ensures Kept(was) && KeyAt(was, start, hash) && pos == old(pos) + 1
    {
      hide StringEnd, HashStep, Lower, KeyRead;
      ghost var s, p, key := was[start..], pos - start, buf[start..pos];
      KeptHere(was);
      CharRead(s, p, key, hash0);
      var c := LowerCur(was);
      assert buf[start..pos] == key;
      KeyGrows(buf, start, pos);
      hash := HashStep(hash0, c);
      Pass(was);
    }

    /** The character behind a backslash stays as it is. */
    method KeyEscape(ghost was: text, ghost start: nat, hash0: nat) returns (step: Step, hash: nat)
      requires KeyAt(was, start, hash0) && pos < |buf| && buf[pos] == BACKSLASH
      modifies this`pos
      ensures Kept(was) && start <= pos && pos > old(pos) && step != Closed
      ensures step == More ==> KeyAt(was, start, hash)
      ensures step == Bad ==> StringEnd(was[start..]) == None
    {
      hide StringEnd, HashStep, KeyRead;
      ghost var s, p, key := was[start..], pos - start, buf[start..pos];
      KeptHere(was);
      CharRead(s, p, key, hash0);
      hash := hash0;
      KeyGrows(buf, start, pos);
      PassSame(was);
      if Cur() == 0 {
        return Bad, hash;
      }
      KeptHere(was);
      KeyGrows(buf, start, pos);
      Associate(key, [BACKSLASH], [buf[pos]]);
      assert [BACKSLASH] + [buf[pos]] == [s[p], s[p + 1]];
      hash := HashStep(hash, BACKSLASH);
      PassSame(was);
      step := More;
    }

    /** Moves over a character. */
    method PassSame(ghost was: text)
      requires Kept(was) && pos < |buf|
      modifies this`pos
      ensures Kept(was) && pos == old(pos) + 1
    {
      assert buf[pos + 1..] == buf[pos..][1..] && was[pos + 1..] == was[pos..][1..];
      pos := pos + 1;
    }

    lemma KeptHere(was: text)
      requires Kept(was) && pos < |buf|
      ensures |buf| == |was| && buf[pos] == was[pos]
    {
      assert buf[pos..][0] == was[pos..][0];
    }

    /** Moves over a character that was changed. */
    method Pass(ghost was: text)
      requires KeptBehind(was)
      modifies this`pos
      ensures Kept(was) && pos == old(pos) + 1
    {
      pos := pos + 1;
    }

    /** Turns the character under the cursor into lower case. */
    method LowerCur(ghost was: text) returns (c: tchar)
      requires Kept(was) && pos < |buf|
      modifies this`buf
      ensures c == Lower(was[pos]) && buf == old(buf)[pos := c] && KeptBehind(was)
      ensures !IsUpper(was[pos]) ==> Kept(was)
    {
      assert buf[pos..][0] == buf[pos] && was[pos..][0] == was[pos];
      assert buf[pos + 1..] == buf[pos..][1..] && was[pos + 1..] == was[pos..][1..];
      c := buf[pos];
      if IsUpper(c) {
        c := Lower(c);
      }
      buf := buf[pos := c];
    }

    /** Nothing has changed behind the character under the cursor. */
    ghost predicate KeptBehind(was: text)
      reads this`buf, this`pos
    {
      pos < |buf| == |was| && buf[pos + 1..] == was[pos + 1..]
    }

    /** An optional sign and digits. The guard before each digit keeps the value in range. */
    method ParseInt() returns (ok: bool, value: int, negative: bool)
      requires Valid()
      modifies this`pos
      ensures Valid() && pos >= old(pos)
      ensures var r := TakeInt(old(Rest())); ok == r.Some? && (ok ==> (negative, value, Rest()) == r.value)
    {
      hide Dec, Digits, TakeInt;
      ghost var s := Rest();
      value, negative := 0, Cur() == MINUS;
      if negative {
        DropTwice(buf, pos, 1);
        pos := pos + 1;
      }
      IntOf(s, Rest(), negative);
      DigitsStep(Rest());
      if Cur() == 0 || !IsDigit(buf[pos]) {
        return false, value, negative;
      }
      ok, value := ParseDigits();
    }

    /** The value of the digits under the cursor; stops where it would grow too large. */
    method ParseDigits() returns (ok: bool, value: int)
      requires Valid() && Digits(Rest()) > 0
      modifies this`pos
      ensures Valid() && pos >= old(pos)
      ensures var t := old(Rest()); ok == (Dec(t[..Digits(t)]) <= MAX_NUMBER)
      ensures ok ==> var t := old(Rest()); value == Dec(t[..Digits(t)]) && Rest() == t[Digits(t)..]
    {
      hide Dec, Digits;
      value := 0;
      ghost var t, n, start := Rest(), 0, pos;
      DecNone(t);
      while true
        invariant Valid() && pos == start + n && n < Digits(t) && Rest() == t[n..] && value == Dec(t[..n]) >= 0
        decreases |buf| - pos
      {
        DigitAt(t, n);
        if value > LLONG_MAX / 10 - 1 {
          TooLarge(t, n);
          return false, value;
        }
        DropTwice(buf, pos, 1);
        assert buf[pos] == t[n];
        value := value * 10 + DigitValue(buf[pos]);
        assert value <= LLONG_MAX;
        pos, n := pos + 1, n + 1;
        DigitsMore(t, n);
        if Cur() == 0 || !IsDigit(buf[pos]) {
          break;
        }
      }
      ok := true;
    }

    /** The digits behind the point, up to where they end. */
    method ParsePlaces(ghost w: text, ghost n: nat, value0: int) returns (ok: bool, value: int, denom: nat)
      requires Valid() && 0 < Digits(Rest()) && n <= |w| && AllDigits(w)
      requires w[n..] == Rest()[..Digits(Rest())] && value0 == Dec(w[..n]) && 0 <= value0 <= MAX_NUMBER
      modifies this`pos
      ensures Valid() && pos >= old(pos)
      ensures var m := Digits(old(Rest())); ok == (m <= MAX_PLACES && Dec(w) <= MAX_NUMBER)
      ensures ok ==> var m := Digits(old(Rest()));
        value == Dec(w) && denom == Pow10(m) <= ULLONG_MAX && Rest() == old(Rest())[m..]
    {
      hide Dec, Digits, Pow10, AllDigits;
      ghost var u, j := Rest(), 0;
      ghost var m := Digits(u);
      value, denom := value0, 1;
      PowSmall(0);
      assert |w| == n + m;
      while true
        invariant Valid() && pos == old(pos) + j && j < m == Digits(u) && Rest() == u[j..] && |w| == n + m
        invariant value == Dec(w[..n + j]) >= 0 && denom == Pow10(j)
        decreases |buf| - pos
      {
        DigitAt(u, j);
        PowSmall(j);
        if value > LLONG_MAX / 10 - 1 || denom > ULLONG_MAX / 10 {
          if value > LLONG_MAX / 10 - 1 {
            NextDigit(w, n + j);
            DecGrows(w, n + j + 1, |w|);
            assert w[..|w|] == w;
          }
          return false, value, denom;
        }
        assert w[n + j] == w[n..][j] == u[j] == buf[pos];
        NextDigit(w, n + j);
        value, denom := value * 10 + DigitValue(buf[pos]), denom * 10;
        PowSmall(j + 1);
        pos, j := pos + 1, j + 1;
        DigitsMore(u, j);
        if Cur() == 0 || !IsDigit(buf[pos]) {
          break;
        }
      }
      assert w[..n + j] == w;
      ok := true;
    }

    method ParseFraction() returns (ok: bool, v: Value)
      requires Valid()
      modifies this`pos
      ensures Valid() && pos >= old(pos)
      ensures var r := TakeNumber(old(Rest())); ok == r.Some? && (ok ==> (v, Rest()) == r.value)
    {
      hide Dec, Digits, Pow10, TakeNumber, TakeInt, AllDigits;
      ghost var s := Rest();
      var value, negative;
      v := Null;
      NumberInt(s);
      ok, value, negative := ParseInt();
      if !ok {
        return;
      }
      var denom := 1;
      if Cur() == POINT {
        ghost var w, n := NumberPlaces(s);
        DropTwice(buf, pos, 1);
        pos := pos + 1;
        DigitsStep(Rest());
        if Cur() == 0 || !IsDigit(buf[pos]) {
          return false, v;
        }
        ok, value, denom := ParsePlaces(w, n, value);
        if !ok {
          return;
        }
      }
      if negative {
        value := -value;
      }
      v := Num(value, denom);
    }

    /** Moves over one character. */
    method Advance()
      requires Valid() && pos < |buf|
      modifies this`pos
      ensures Valid() && pos == old(pos) + 1 && Rest() == old(Rest())[1..]
    {
      assert buf[pos + 1..] == buf[pos..][1..];
      pos := pos + 1;
    }

    method ParseWord(w: text, v0: Value) returns (ok: bool, v: Value)
      requires Valid() && w != []
      modifies this`pos
      ensures Valid() && pos >= old(pos)
      ensures var r := TakeWord(old(Rest()), w, v0); ok == r.Some? && (ok ==> (v, Rest()) == r.value)
    {
      v := v0;
      ok := w <= buf[pos..];
      if ok {
        assert buf[pos + |w|..] == buf[pos..][|w|..];
        pos := pos + |w|;
      }
    }

    /** The type of the value under the cursor, which stays where it is. */
    method GetValueType() returns (ok: bool, k: Kind)
      requires Valid()
      ensures ok == KindOf(Rest()).Some? && (ok ==> k == KindOf(Rest()).value)
    {
      hide Digits;
      var c := Cur();
      ok := true;
      if c == QUOTE {
        return ok, KString;
      } else if c == OPEN_ARRAY {
        return ok, KArray;
      } else if c == OPEN_OBJECT {
        return ok, KObject;
      } else if c == 0x66 || c == 0x74 {
        return ok, KBool;
      }
      var i := pos;
      if c == MINUS {
        i := i + 1;
      }
      ghost var t, n, start := buf[i..], 0, i;
      assert t == if c == MINUS then Rest()[1..] else Rest();
      DigitsMore(t, 0);
      if i >= |buf| || !IsDigit(buf[i]) {
        return false, KNull;
      }
      while i < |buf| && IsDigit(buf[i])
        invariant i == start + n <= |buf| && n <= Digits(t)
        invariant n < Digits(t) <==> n < |t| && IsDigit(t[n])
      {
        i, n := i + 1, n + 1;
        DigitsMore(t, n);
      }
      assert t[n..] == buf[i..];
      k := if i < |buf| && buf[i] == POINT then KFrac else KInt;
    }

    /** One element of an array of type k. */
    method ParseTyped(k: Kind) returns (ok: bool, v: Value)
      requires Valid()
      modifies this
      ensures Kept(old(buf)) && pos >= old(pos)
      ensures var r := TakeTyped(old(Rest()), old(depth), k);
        ok == r.Some? && (ok ==> (v, Rest()) == r.value && depth == old(depth))
      decreases |buf| - pos, 3
    {
      hide TakeString, TakeArray, TakeObject, TakeNumber, TakeInt, TakeWord;
      ok, v := false, Null;
      var c := Cur();
      match k {
        case KString =>
          if c == QUOTE {
            ok, v := ParseString();
          }
        case KArray =>
          if c == OPEN_ARRAY {
            ok, v := ParseArray();
          }
        case KObject =>
          if c == OPEN_OBJECT {
            ok, v := ParseObject();
          }
        case KBool =>
          if c == 0x74 {
            ok, v := ParseWord(TRUE, Bool(true));
          } else if c == 0x66 {
            ok, v := ParseWord(FALSE, Bool(false));
          }
        case KFrac =>
          ok, v := ParseFraction();
        case KInt =>
          var value, negative;
          ok, value, negative := ParseInt();
          if negative {
            value := -value;
          }
          v := Num(value, 1);
        case KNull =>
      }
    }

    method ParseValue() returns (ok: bool, v: Value)
      requires Valid()
      modifies this
      ensures Valid() && Kept(old(buf)) && pos >= old(pos)
      ensures var r := TakeValue(old(Rest()), old(depth));
        ok == r.Some? && (ok ==> (v, Rest()) == r.value && depth == old(depth))
      decreases |buf| - pos, 2
    {
      hide TakeString, TakeArray, TakeObject, TakeNumber, TakeWord;
      var c := Cur();
      if c == QUOTE {
        ok, v := ParseString();
      } else if c == OPEN_ARRAY {
        ok, v := ParseArray();
      } else if c == OPEN_OBJECT {
        ok, v := ParseObject();
      } else if c == 0x6e {
        ok, v := ParseWord(NULL, Null);
      } else if c == 0x74 {
        ok, v := ParseWord(TRUE, Bool(true));
      } else if c == 0x66 {
        ok, v := ParseWord(FALSE, Bool(false));
      } else {
        ok, v := ParseFraction();
      }
    }

    /** An array, with the cursor on its bracket. */
    method ParseArray() returns (ok: bool, v: Value)
      requires Valid() && First(Rest()) == OPEN_ARRAY
      modifies this
      ensures Kept(old(buf)) && pos >= old(pos)
      ensures var r := TakeArray(old(Rest()), old(depth));
        ok == r.Some? && (ok ==> (v, Rest()) == r.value && depth == old(depth))
      decreases |buf| - pos, 1
    {
      hide KindOf, TakeItems, Parts;
      ok, v := false, Null;
      Advance();
      SkipSpaces();
      if Cur() == CLOSE_ARRAY {
        Advance();
        return true, Arr(KNull, [], []);
      }
      if depth >= MAX_DEPTH {
        return;
      }
      depth := depth + 1;
      var kind;
      ok, kind := GetValueType();
      if !ok {
        return;
      }
      var items, counts;
      ok, items, counts := ParseItems(kind);
      if ok {
        depth := depth - 1;
        v := Arr(kind, items, counts);
      }
    }

    /** The elements of an array, in parts that double in size. */
    method ParseItems(k: Kind) returns (ok: bool, items: seq<Value>, counts: seq<nat>)
      requires Valid()
      modifies this
      ensures Kept(old(buf)) && pos >= old(pos)
      ensures var r := TakeItems(old(Rest()), old(depth), k, 0);
        && ok == r.Some?
        && (ok ==>
              && (items, Rest()) == r.value && depth == old(depth)
              && counts == Parts(KindSize(k), |items|, PART_FIRST_COUNT))
      decreases |buf| - pos, 5
    {
      hide TakeItems, Parts, NextCount, PartsOpen;
      ghost var s0 := Rest();
      var unit := KindSize(k);
      items, counts := [], [];
      var room, inPart := PART_FIRST_COUNT, 0;
      PartsStart(unit);
      BeforeNothing(TakeItems(s0, depth, k, 0));
      var step := More;
      while step == More
        invariant Kept(old(buf)) && pos >= old(pos) && (step == More ==> depth == old(depth))
        invariant TakeItems(s0, old(depth), k, 0) == (match step
          case More => Before(items, TakeItems(Rest(), old(depth), k, |items|))
          case Closed => Some((items, Rest()))
          case Bad => None)
        invariant step == Closed ==> depth == old(depth) && inPart > 0
        invariant 0 < room && inPart <= room && inPart <= |items| && PartsOpen(unit, |items| - inPart, counts, room)
        decreases |buf| - pos, step == More
      {
        if |items| >= MAX_ELEMENTS {
          TooMany(Rest(), depth, k, |items|);
          return false, items, counts;
        }
        if inPart >= room {
          PartsNext(unit, |items| - inPart, counts, room);
          counts := counts + [inPart];
          room, inPart := NextCount(unit, room), 0;
        }
        ghost var was, p := buf, pos;
        var v;
        step, v := ParseItem(k, |items|);
        KeptOn(old(buf), was, p);
        BeforeMore(items, v, TakeItems(Rest(), old(depth), k, |items| + 1));
        if step != Bad {
          items, inPart := items + [v], inPart + 1;
        }
      }
      ok := step == Closed;
      if ok {
        PartsEnd(unit, |items| - inPart, counts, room, inPart);
        counts := counts + [inPart];
      }
    }

    /** One element and what follows it. */
    method ParseItem(k: Kind, n: nat) returns (step: Step, v: Value)
      requires Valid() && n < MAX_ELEMENTS
      modifies this
      ensures Kept(old(buf)) && if step == More then pos > old(pos) else pos >= old(pos)
      ensures step != Bad ==> depth == old(depth)
      ensures TakeItems(old(Rest()), old(depth), k, n) == (match step
        case More => Before([v], TakeItems(Rest(), depth, k, n + 1))
        case Closed => Some(([v], Rest()))
        case Bad => None)
      decreases |buf| - pos, 4
    {
      hide TakeTyped;
      var ok;
      ok, v := ParseTyped(k);
      if !ok {
        return Bad, v;
      }
      ghost var was, p := buf, pos;
      SkipSpaces();
      var c := Cur();
      if c == CLOSE_ARRAY {
        Advance();
        KeptOn(old(buf), was, p);
        return Closed, v;
      }
      if c == COMMA {
        Advance();
        SkipSpaces();
        KeptOn(old(buf), was, p);
        return More, v;
      }
      KeptOn(old(buf), was, p);
      step := Bad;
    }

    lemma KeptOn(was: text, mid: text, p: nat)
      requires |mid| == |was| && p <= |mid| && mid[p..] == was[p..] && Kept(mid) && pos >= p
      ensures Kept(was)
    {
      assert mid[pos..] == mid[p..][pos - p..] && was[pos..] == was[p..][pos - p..];
    }

    method ParseObject() returns (ok: bool, v: Value)
      requires Valid() && First(Rest()) == OPEN_OBJECT
      modifies this
      ensures Kept(old(buf)) && pos >= old(pos)
      ensures var r := TakeObject(old(Rest()), old(depth));
        ok == r.Some? && (ok ==> (v, Rest()) == r.value && depth == old(depth))
      decreases |buf| - pos, 1
    {
      hide TakeFields;
      ok, v := false, Null;
      Advance();
      SkipSpaces();
      if Cur() == CLOSE_OBJECT {
        Advance();
        return true, Obj([]);
      }
      if depth >= MAX_DEPTH {
        return;
      }
      depth := depth + 1;
      var fields;
      ok, fields := ParseFields();
      if ok {
        depth := depth - 1;
        v := Obj(fields);
      }
    }

    method ParseFields() returns (ok: bool, fields: seq<Field>)
      requires Valid()
      modifies this
      ensures Kept(old(buf)) && pos >= old(pos)
      ensures var r := TakeFields(old(Rest()), old(depth), 0);
        ok == r.Some? && (ok ==> (fields, Rest()) == r.value && depth == old(depth))
      decreases |buf| - pos, 5
    {
      hide TakeFields;
      ghost var s0 := Rest();
      fields := [];
      BeforeNothing(TakeFields(s0, depth, 0));
      var step := More;
      while step == More
        invariant Kept(old(buf)) && pos >= old(pos) && (step != Bad ==> depth == old(depth))
        invariant TakeFields(s0, old(depth), 0) == (match step
          case More => Before(fields, TakeFields(Rest(), old(depth), |fields|))
          case Closed => Some((fields, Rest()))
          case Bad => None)
        decreases |buf| - pos, step == More
      {
        if |fields| >= MAX_ELEMENTS {
          TooManyFields(Rest(), depth, |fields|);
          return false, fields;
        }
        ghost var was, p := buf, pos;
        var f;
        step, f := ParseField(|fields|);
        KeptOn(old(buf), was, p);
        BeforeMore(fields, f, TakeFields(Rest(), old(depth), |fields| + 1));
        if step != Bad {
          fields := fields + [f];
        }
      }
      ok := step == Closed;
    }

    /** One key and its value, and what follows them. */
    method ParseField(n: nat) returns (step: Step, f: Field)
      requires Valid() && n < MAX_ELEMENTS
      modifies this
      ensures Kept(old(buf)) && if step == More then pos > old(pos) else pos >= old(pos)
      ensures step != Bad ==> depth == old(depth)
      ensures TakeFields(old(Rest()), old(depth), n) == (match step
        case More => Before([f], TakeFields(Rest(), depth, n + 1))
        case Closed => Some(([f], Rest()))
        case Bad => None)
      decreases |buf| - pos, 4
    {
      hide TakeField;
      var ok;
      ok, f := ParseKeyValue();
      if !ok {
        return Bad, f;
      }
      ghost var was, p := buf, pos;
      SkipSpaces();
      var c := Cur();
      if c == CLOSE_OBJECT {
        Advance();
        KeptOn(old(buf), was, p);
        return Closed, f;
      }
      if c == COMMA {
        Advance();
        SkipSpaces();
        KeptOn(old(buf), was, p);
        return More, f;
      }
      KeptOn(old(buf), was, p);
      step := Bad;
    }

    method ParseKeyValue() returns (ok: bool, f: Field)
      requires Valid()
      modifies this
      ensures Kept(old(buf)) && pos >= old(pos)
      ensures var r := TakeField(old(Rest()), old(depth));
        ok == r.Some? && (ok ==> (f, Rest()) == r.value && depth == old(depth))
      decreases |buf| - pos, 3
    {
      hide TakeValue, StringEnd, LowerKey, KeyHash;
      f := Field(0, [], Null);
      if Cur() != QUOTE {
        return false, f;
      }
      var hash, key;
      ok, key, hash := ParseObjectKey();
      if !ok {
        return;
      }
      ghost var was, p := buf, pos;
      SkipSpaces();
      if Cur() != COLON {
        KeptOn(old(buf), was, p);
        return false, f;
      }
      Advance();
      SkipSpaces();
      KeptOn(old(buf), was, p);
      was, p := buf, pos;
      var v;
      ok, v := ParseValue();
      KeptOn(old(buf), was, p);
      f := Field(hash, key, v);
    }

    /** A key, with the cursor on its quote; the text is changed to what is stored. */
    method ParseObjectKey() returns (ok: bool, key: text, hash: nat)
      requires Valid() && First(Rest()) == QUOTE
      modifies this
      ensures Kept(old(buf)) && depth == old(depth)
      ensures ok == StringEnd(old(Rest())[1..]).Some? && pos > old(pos)
      ensures ok ==> var s := old(Rest())[1..]; var n := StringEnd(s).value;
        && key == LowerKey(s[..n]) && hash == KeyHash(s[..n], 0) && Rest() == s[n + 1..]
        && buf[old(pos) + 1..old(pos) + 1 + n] == key
    {
      hide StringEnd, LowerKey, KeyHash;
      key := [];
      Advance();
      var start := pos;
      ghost var was := buf;
      ok, hash := ScanKey();
      KeptOn(old(buf), was, pos);
      if ok {
        key := buf[start..pos];
        KeptHere(was);
        SplitAt(was, start, pos - start);
        PassSame(was);
        KeptOn(old(buf), was, pos);
      }
    }

    /** Only what lies behind the cursor has changed. */
    ghost predicate Kept(was: text)
      reads this`buf, this`pos
    {
      pos <= |buf| == |was| && buf[pos..] == was[pos..]
    }
  }

  lemma DigitsStep(t: text)
    ensures Digits(t) == 0 <==> t == [] || !IsDigit(t[0])
  {
  }

  lemma DecNone(t: text)
    ensures Dec(t[..0]) == 0
  {
  }

  lemma {:induction false} DigitsMore(t: text, n: nat)
    requires n <= Digits(t)
    ensures n < Digits(t) <==> n < |t| && IsDigit(t[n])
  {
    DigitsAre(t);
    if n < Digits(t) {
      assert IsDigit(t[..Digits(t)][n]);
    }
  }

  /** One more digit. */
  lemma DigitAt(t: text, n: nat)
    requires n < Digits(t)
    ensures IsDigit(t[n]) && Dec(t[..n + 1]) == Dec(t[..n]) * 10 + DigitValue(t[n]) && 0 <= DigitValue(t[n]) <= 9
    ensures t[n..][1..] == t[n + 1..]
  {
    DigitsMore(t, n);
    assert t[..n + 1][..n] == t[..n];
  }

  /** More digits never make the value smaller. */
  lemma {:induction false} DecGrows(t: text, n: nat, m: nat)
    requires n <= m <= |t| && AllDigits(t[..m])
    ensures 0 <= Dec(t[..n]) <= Dec(t[..m])
    decreases m
  {
    assert AllDigits(t[..n]) by {
      assert forall i :: 0 <= i < n ==> t[..n][i] == t[..m][i];
    }
    DecNat(t[..n]);
    if n < m {
      assert t[..m][..m - 1] == t[..m - 1];
      assert AllDigits(t[..m - 1]) by {
        assert forall i :: 0 <= i < m - 1 ==> t[..m - 1][i] == t[..m][i];
      }
      DecGrows(t, n, m - 1);
      assert IsDigit(t[..m][m - 1]);
    }
  }

  /** Where the guard stops, the number is too large; where it does not, the value fits. */
  lemma TooLarge(t: text, n: nat)
    requires n < Digits(t) && Dec(t[..n]) > LLONG_MAX / 10 - 1
    ensures Dec(t[..Digits(t)]) > MAX_NUMBER
  {
    hide Dec, Digits;
    DigitsAre(t);
    DigitAt(t, n);
    DecGrows(t, n + 1, Digits(t));
  }

  /** The denominator fits for 19 places and no more. */
  lemma PowSmall(j: nat)
    ensures Pow10(j) > ULLONG_MAX / 10 <==> j >= MAX_PLACES
    ensures j > 0 ==> Pow10(j) == Pow10(j - 1) * 10
    ensures Pow10(0) == 1
  {
    assert Pow10(3) == 1000;
    assert Pow10(6) == 1000000;
    assert Pow10(9) == 1000000000;
    assert Pow10(12) == 1000000000000;
    assert Pow10(15) == 1000000000000000;
    assert Pow10(18) == 1000000000000000000;
    assert Pow10(19) == 10000000000000000000;
    if j <= 18 {
      PowGrows(j, 18);
    } else {
      PowGrows(19, j);
    }
  }

  lemma {:induction false} PowGrows(i: nat, j: nat)
    requires i <= j
    ensures Pow10(i) <= Pow10(j)
    decreases j
  {
    if i < j {
      PowGrows(i, j - 1);
    }
  }

  lemma NextDigit(w: text, k: nat)
    requires k < |w| && AllDigits(w)
    ensures Dec(w[..k + 1]) == Dec(w[..k]) * 10 + DigitValue(w[k]) && 0 <= DigitValue(w[k]) <= 9
    ensures AllDigits(w[..|w|])
  {
    assert w[..k + 1][..k] == w[..k];
    assert w[..|w|] == w;
  }

  function Before<T>(xs: seq<T>, r: Option<(seq<T>, text)>): Option<(seq<T>, text)> {
    match r
    case None => None
    case Some((ys, rest)) => Some((xs + ys, rest))
  }

  lemma BeforeNothing<T>(r: Option<(seq<T>, text)>)
    ensures Before([], r) == r
  {
    if r.Some? {
      assert [] + r.value.0 == r.value.0;
    }
  }

  lemma BeforeMore<T>(xs: seq<T>, x: T, r: Option<(seq<T>, text)>)
    ensures Before(xs, Before([x], r)) == Before(xs + [x], r)
  {
    if r.Some? {
      assert xs + ([x] + r.value.0) == xs + [x] + r.value.0;
    }
  }

  lemma TooMany(s: text, depth: nat, k: Kind, n: nat)
    requires n >= MAX_ELEMENTS
    ensures TakeItems(s, depth, k, n) == None
  {
  }

  lemma TooManyFields(s: text, depth: nat, n: nat)
    requires n >= MAX_ELEMENTS
    ensures TakeFields(s, depth, n) == None
  {
  }

  /** The closed parts hold `closed` elements; the current one has room for `room`. */
  ghost predicate PartsOpen(unit: nat, closed: nat, counts: seq<nat>, room: nat) {
    room > 0 && forall m: nat :: m > 0 ==> Parts(unit, closed + m, PART_FIRST_COUNT) == counts + Parts(unit, m, room)
  }

  lemma PartsStart(unit: nat)
    ensures PartsOpen(unit, 0, [], PART_FIRST_COUNT)
  {
    forall m: nat | m > 0 ensures Parts(unit, 0 + m, PART_FIRST_COUNT) == [] + Parts(unit, m, PART_FIRST_COUNT) {
    }
  }

  lemma PartsNext(unit: nat, closed: nat, counts: seq<nat>, room: nat)
    requires PartsOpen(unit, closed, counts, room)
    ensures PartsOpen(unit, closed + room, counts + [room], NextCount(unit, room))
  {
    hide NextCount;
    forall m: nat | m > 0
      ensures Parts(unit, closed + room + m, PART_FIRST_COUNT) == counts + [room] + Parts(unit, m,
        NextCount(unit, room))
    {
      PartsFull(unit, closed, counts, room, m);
    }
  }

  lemma PartsFull(unit: nat, closed: nat, counts: seq<nat>, room: nat, m: nat)
    requires PartsOpen(unit, closed, counts, room) && m > 0
    ensures Parts(unit, closed + room + m, PART_FIRST_COUNT) == counts + [room] + Parts(unit, m, NextCount(unit, room))
  {
    hide NextCount;
    var n: nat := room + m;
    assert Parts(unit, n, room) == [room] + Parts(unit, m, NextCount(unit, room));
    assert Parts(unit, closed + n, PART_FIRST_COUNT) == counts + Parts(unit, n, room);
  }

  lemma PartsEnd(unit: nat, closed: nat, counts: seq<nat>, room: nat, n: nat)
    requires PartsOpen(unit, closed, counts, room) && 0 < n <= room
    ensures Parts(unit, closed + n, PART_FIRST_COUNT) == counts + [n]
  {
    assert Parts(unit, n, room) == [n];
    var m: nat := n;
    assert Parts(unit, closed + m, PART_FIRST_COUNT) == counts + Parts(unit, m, room);
  }

  datatype Step = More | Closed | Bad

  lemma KeyGrows(buf: text, start: nat, pos: nat)
    requires start <= pos < |buf|
    ensures buf[start..pos + 1] == buf[start..pos] + [buf[pos]]
  {
  }

  lemma KeyStart(s: text, raw: text)
    requires raw <= s
    ensures KeySoFar(s, raw, 0, [], 0)
  {
    assert raw[0..] == raw;
  }

  lemma KeyDone(s: text, raw: text, key: text, hash: nat)
    requires KeySoFar(s, raw, |raw|, key, hash)
    ensures LowerKey(raw) == key && KeyHash(raw, 0) == hash
  {
    assert raw[|raw|..] == [];
  }

  /** The next character of a key, or the next two behind a backslash. */
  lemma KeyStep(s: text, raw: text, p: nat, key: text, hash: nat)
    requires KeySoFar(s, raw, p, key, hash) && p < |s| && StringEnd(s) == Some(|raw|) == Later(StringEnd(s[p..]), p)
    ensures s[p] == QUOTE ==> p == |raw|
    ensures s[p] != QUOTE && s[p] != BACKSLASH ==>
      KeySoFar(s, raw, p + 1, key + [Lower(s[p])], HashStep(hash, Lower(s[p])))
    ensures s[p] == BACKSLASH ==>
      p + 1 < |raw| && KeySoFar(s, raw, p + 2, key + [s[p], s[p + 1]], HashStep(hash, s[p]))
  {
    hide StringEnd, HashStep, Lower, LowerKey, KeyHash;
    EndStep(s[p..]);
    ScanStep(s, p);
    if s[p] != QUOTE {
      assert p < |raw| && raw[p] == s[p];
      KeyFront(raw[p..], hash);
      if s[p] == BACKSLASH {
        assert p + 1 < |raw| && raw[p + 1] == s[p + 1];
        DropTwice(raw, p, 2);
        Associate(key, [s[p], s[p + 1]], LowerKey(raw[p + 2..]));
      } else {
        DropTwice(raw, p, 1);
        Associate(key, [Lower(s[p])], LowerKey(raw[p + 1..]));
      }
    }
  }

  /** The first p characters of s are read as the start of a key. */
  ghost predicate KeyRead(s: text, p: nat, key: text, hash: nat) {
    && p <= |s| && StringEnd(s) == Later(StringEnd(s[p..]), p)
    && (StringEnd(s).Some? ==> KeySoFar(s, s[..StringEnd(s).value], p, key, hash))
  }

  lemma CharRead(s: text, p: nat, key: text, hash: nat)
    requires KeyRead(s, p, key, hash) && p < |s|
    ensures s[p] != QUOTE && s[p] != BACKSLASH ==> KeyRead(s, p + 1, key + [Lower(s[p])], HashStep(hash, Lower(s[p])))
    ensures s[p] == BACKSLASH && p + 1 == |s| ==> StringEnd(s) == None
    ensures s[p] == BACKSLASH && p + 1 < |s| ==> KeyRead(s, p + 2, key + [s[p], s[p + 1]], HashStep(hash, s[p]))
  {
    hide StringEnd, HashStep, Lower, KeySoFar;
    ScanStep(s, p);
    if StringEnd(s).Some? {
      KeyStep(s, s[..StringEnd(s).value], p, key, hash);
    }
  }

  lemma KeyFront(r: text, hash: nat)
    requires r != []
    ensures r[0] != BACKSLASH ==>
      LowerKey(r) == [Lower(r[0])] + LowerKey(r[1..]) &&
        KeyHash(r, hash) == KeyHash(r[1..], HashStep(hash, Lower(r[0])))
    ensures r[0] == BACKSLASH && |r| > 1 ==>
      LowerKey(r) == [r[0], r[1]] + LowerKey(r[2..]) && KeyHash(r, hash) == KeyHash(r[2..], HashStep(hash, r[0]))
  {
  }

  /** The first p characters of a key are in lower case and hashed. */
  ghost predicate KeySoFar(s: text, raw: text, p: nat, key: text, hash: nat) {
    && raw <= s && p <= |raw|
    && LowerKey(raw) == key + LowerKey(raw[p..]) && KeyHash(raw, 0) == KeyHash(raw[p..], hash)
  }

  function Later(r: Option<nat>, n: nat): Option<nat> {
    match r
    case None => None
    case Some(k) => Some(k + n)
  }

  lemma ScanStep(s: text, p: nat)
    requires p < |s|
    ensures s[p] == QUOTE ==> StringEnd(s[p..]) == Some(0)
    ensures s[p] == BACKSLASH && p + 1 == |s| ==> StringEnd(s[p..]) == None
    ensures s[p] == BACKSLASH && p + 1 < |s| ==>
      Later(StringEnd(s[p..]), p) == Later(StringEnd(s[p + 2..]), p + 2) && BACKSLASH in s[..p + 2]
    ensures s[p] != QUOTE && s[p] != BACKSLASH ==>
      Later(StringEnd(s[p..]), p) == Later(StringEnd(s[p + 1..]), p + 1) &&
        ((BACKSLASH in s[..p + 1]) == (BACKSLASH in s[..p]))
  {
    hide StringEnd;
    EndStep(s[p..]);
    DropTwice(s, p, 1);
    assert s[..p + 1] == s[..p] + [s[p]];
    if s[p] == BACKSLASH && p + 1 < |s| {
      DropTwice(s, p, 2);
      assert s[..p + 2] == s[..p] + [s[p], s[p + 1]];
    }
  }

  lemma SplitAt(buf: text, start: nat, p: nat)
    requires start + p < |buf|
    ensures buf[start..][..p] == buf[start..start + p] && buf[start..][p + 1..] == buf[start + p + 1..]
  {
  }

  /** One step of looking for the closing quote. */
  lemma IntOf(s: text, t: text, negative: bool)
    requires negative == (First(s) == MINUS) && t == if negative then s[1..] else s
    ensures var n := Digits(t);
      TakeInt(s) == if n == 0 || Dec(t[..n]) > MAX_NUMBER then None else Some((negative, Dec(t[..n]), t[n..]))
  {
    hide Dec, Digits;
    DigitsAre(t);
    DecNat(t[..Digits(t)]);
  }

  /** A number without places. */
  lemma NumberInt(s: text)
    ensures TakeInt(s).None? ==> TakeNumber(s) == None
    ensures TakeInt(s).Some? ==> var (negative, v, rest) := TakeInt(s).value;
      First(rest) != POINT ==> TakeNumber(s) == Some((Num(Signed(negative, v), 1), rest))
  {
  }

  /** All the digits of a number with places, n of them before the point. */
  lemma NumberPlaces(s: text) returns (w: text, n: nat)
    requires TakeInt(s).Some? && First(TakeInt(s).value.2) == POINT
    ensures var (negative, v, rest) := TakeInt(s).value;
      var u := rest[1..];
      var m := Digits(u);
      && n <= |w| && AllDigits(w) && w[n..] == u[..m] && v == Dec(w[..n])
      && TakeNumber(s) == if m == 0 || m > MAX_PLACES || Dec(w) > MAX_NUMBER then None
                          else Some((Num(Signed(negative, Dec(w)), Pow10(m)), u[m..]))
  {
    hide Dec, Digits, Pow10;
    var (negative, v, rest) := TakeInt(s).value;
    var t, u := if negative then s[1..] else s, rest[1..];
    n := Digits(t);
    DigitsAre(t);
    DigitsAre(u);
    DecNat(t[..n]);
    w := t[..n] + u[..Digits(u)];
    Halves(t[..n], u[..Digits(u)]);
    DecNat(w);
  }

  lemma EndStep(s: text)
    ensures s == [] ==> StringEnd(s) == None
    ensures s != [] && s[0] == QUOTE ==> StringEnd(s) == Some(0)
    ensures s != [] && s[0] == BACKSLASH && |s| == 1 ==> StringEnd(s) == None
    ensures s != [] && s[0] == BACKSLASH && |s| > 1 ==> StringEnd(s) == Later(StringEnd(s[2..]), 2)
    ensures s != [] && s[0] != QUOTE && s[0] != BACKSLASH ==> StringEnd(s) == Later(StringEnd(s[1..]), 1)
  {
  }

  lemma ParseTextIs(s: text)
    ensures var r := TakeValue(JsonSpec.SkipSpaces(s), 0);
      ParseText(s) == if r.Some? && JsonSpec.SkipSpaces(r.value.1) == [] then Some(r.value.0) else None
  {
    hide TakeValue, JsonSpec.SkipSpaces;
  }

  /** Parses a whole text. */
  method Parse(s: text) returns (ok: bool, v: Value)
    ensures ok == ParseText(s).Some? && (ok ==> v == ParseText(s).value)
  {
    hide *;
    ParseTextIs(s);
    var p := new Parser(s);
    p.SkipSpaces();
    ok, v := p.ParseValue();
    if ok {
      p.SkipSpaces();
      ok := p.Cur() == 0;
    }
  }

  /** The digits of a number in base 31, as a hash of strings has it. */
  function InBase31(s: text): nat {
    if s == [] then 0 else InBase31(s[..|s| - 1]) * 31 + s[|s| - 1]
  }

  function Power31(n: nat): (p: nat) { if n == 0 then 1 else Power31(n - 1) * 31 }

  lemma {:induction false} Base31Front(c: tchar, s: text)
    ensures InBase31([c] + s) == c * Power31(|s|) + InBase31(s)
  {
    if s == [] {
      assert [c] + s == [c] && [c][..0] == [];
    } else {
      var n := |s| - 1;
      Base31Front(c, s[..n]);
      assert ([c] + s)[..n + 1] == [c] + s[..n];
      var p := Power31(n);
      assert Power31(|s|) == p * 31;
      assert (c * p) * 31 == c * (p * 31);
    }
  }

  /** A key without escapes is stored with the letters A to Z in lower case. */
  lemma {:induction false} KeyLowered(key: text)
    requires BACKSLASH !in key
    ensures forall i :: 0 <= i < |key| ==>
      LowerKey(key)[i] == if 0x41 <= key[i] <= 0x5a then key[i] + 32 else key[i]
  {
    if key != [] {
      KeyLowered(key[1..]);
    }
  }

  /** The hash of a key without escapes: its characters in lower case as digits in base 31,
      in 64 bits. */
  lemma {:induction false} KeyHashIs(key: text, hash: nat)
    requires BACKSLASH !in key && hash < U64
    ensures KeyHash(key, hash) == (hash * Power31(|key|) + InBase31(LowerKey(key))) % U64
  {
    if key != [] {
      var c, rest := Lower(key[0]), key[1..];
      var h := HashStep(hash, c);
      KeyHashIs(rest, h);
      Base31Front(c, LowerKey(rest));
      var p, b := Power31(|rest|), InBase31(LowerKey(rest));
      Digits31(hash, c, p, b);
    }
  }

  lemma Digits31(hash: nat, c: nat, p: nat, b: nat)
    ensures ((hash * 31 + c) % U64 * p + b) % U64 == (hash * (p * 31) + (c * p + b)) % U64
  {
    var x := hash * 31 + c;
    var q, r := x / U64, x % U64;
    Distribute(q, r, p, U64);
    Regroup(hash, c, p);
    ModAdd(q * p, r * p + b);
  }

  lemma Distribute(q: nat, r: nat, p: nat, m: nat)
    ensures (q * m + r) * p == q * p * m + r * p
  {
  }

  lemma Regroup(h: nat, c: nat, p: nat)
    ensures (h * 31 + c) * p == h * (p * 31) + c * p
  {
  }

  lemma ModAdd(k: nat, y: nat)
    ensures (k * U64 + y) % U64 == y % U64
  {
    assert k * U64 + y == (k + y / U64) * U64 + y % U64;
    ModUnique(k * U64 + y, k + y / U64, y % U64);
  }

  lemma ModUnique(x: nat, q: nat, r: nat)
    requires x == q * U64 + r && r < U64
    ensures x % U64 == r
  {
  }
}
