/** Arithmetic and ordering facts behind the large buffer allocator. */
module LbaBins {
  import opened Sequences

  /** The bin of a block with `used` of its n buffers in use, out of c bins. */
  function BinOf(used: nat, c: nat, n: nat): (i: nat)
    requires n > 0
  {
    used * c / n
  }

  lemma DivBounds(x: nat, n: nat)
    requires n > 0
    ensures n * (x / n) <= x < n * (x / n) + n
  {
  }

  lemma DivUnique(x: nat, n: nat, q: nat)
    requires n > 0 && n * q <= x < n * q + n
    ensures x / n == q
  {
    DivBounds(x, n);
    var p := x / n;
    if p < q {
      MulStep(n, p, q);
    } else if q < p {
      MulStep(n, q, p);
    }
  }

  lemma MulStep(n: nat, p: nat, q: nat)
    requires p < q
    ensures n * p + n <= n * q
  {
    assert n * q - n * p == n * (q - p);
    assert n * (q - p) >= n * 1 by {
      var d: nat := q - p - 1;
      assert n * (q - p) == n * d + n;
    }
  }

  lemma MulMono(a: nat, b: nat, c: nat)
    requires a <= b
    ensures a * c <= b * c
  {
    assert b * c - a * c == (b - a) * c;
  }

  /** One more buffer moves a block by at most one bin, because bins are no more
      numerous than the buffers of a block. */
  lemma BinStep(used: nat, c: nat, n: nat)
    requires 1 <= c <= n
    ensures BinOf(used, c, n) <= BinOf(used + 1, c, n) <= BinOf(used, c, n) + 1
  {
    var x, q, r := used * c, BinOf(used, c, n), BinOf(used + 1, c, n);
    assert (used + 1) * c == x + c;
    DivBounds(x, n);
    DivBounds(x + c, n);
    assert n * (q + 1) == n * q + n;
    if r > q + 1 {
      MulStep(n, q + 1, r);
    }
    if r < q {
      MulStep(n, r, q);
    }
  }

  /** The last bin holds exactly the full blocks. */
  lemma BinFull(used: nat, c: nat, n: nat)
    requires 1 <= c <= n && used <= n
    ensures BinOf(used, c, n) <= c
    ensures BinOf(used, c, n) == c <==> used == n
    ensures BinOf(0, c, n) == 0
  {
    var x, q := used * c, BinOf(used, c, n);
    DivBounds(x, n);
    DivUnique(0, n, 0);
    if used == n {
      DivUnique(x, n, c);
    } else {
      MulMono(used + 1, n, c);
      assert (used + 1) * c == x + c;
      if q >= c {
        MulMono(c, q, n);
      }
    }
  }

  /** The bins in [lo, hi) that hold blocks, in ascending order. */
  function Occupied(bins: seq<seq<nat>>, lo: nat, hi: nat): seq<nat>
    requires lo <= hi <= |bins|
    decreases hi - lo
  {
    if lo == hi then []
    else Occupied(bins, lo, hi - 1) + if bins[hi - 1] != [] then [hi - 1] else []
  }

  lemma {:induction false} OccupiedHas(bins: seq<seq<nat>>, lo: nat, hi: nat, i: nat)
    requires lo <= hi <= |bins|
    ensures i in Occupied(bins, lo, hi) <==> lo <= i < hi && bins[i] != []
    decreases hi
  {
    if lo < hi {
      OccupiedHas(bins, lo, hi - 1, i);
    }
  }

  lemma {:induction false} OccupiedAscends(bins: seq<seq<nat>>, lo: nat, hi: nat, j: nat, k: nat)
    requires lo <= hi <= |bins| && j < k < |Occupied(bins, lo, hi)|
    ensures Occupied(bins, lo, hi)[j] < Occupied(bins, lo, hi)[k]
    decreases hi
  {
    var q := Occupied(bins, lo, hi - 1);
    if k < |q| {
      OccupiedAscends(bins, lo, hi - 1, j, k);
    } else {
      assert q[j] in q;
      OccupiedHas(bins, lo, hi - 1, q[j]);
    }
  }

  lemma {:induction false} OccupiedSplit(bins: seq<seq<nat>>, lo: nat, mid: nat, hi: nat)
    requires lo <= mid <= hi <= |bins|
    ensures Occupied(bins, lo, hi) == Occupied(bins, lo, mid) + Occupied(bins, mid, hi)
    decreases hi
  {
    if mid < hi {
      OccupiedSplit(bins, lo, mid, hi - 1);
    }
  }

  lemma {:induction false} OccupiedSame(bins: seq<seq<nat>>, bins': seq<seq<nat>>, lo: nat, hi: nat)
    requires lo <= hi <= |bins| == |bins'|
    requires forall i :: lo <= i < hi ==> (bins[i] == [] <==> bins'[i] == [])
    ensures Occupied(bins, lo, hi) == Occupied(bins', lo, hi)
    decreases hi
  {
    if lo < hi {
      OccupiedSame(bins, bins', lo, hi - 1);
    }
  }

  /** Intrusive queue operations, on the sequence of linked elements. */
  function Remove(q: seq<nat>, x: nat): seq<nat> {
    if q == [] then []
    else if q[0] == x then q[1..]
    else [q[0]] + Remove(q[1..], x)
  }

  function InsertAfter(q: seq<nat>, at: nat, x: nat): seq<nat> {
    if q == [] then []
    else if q[0] == at then [at, x] + q[1..]
    else [q[0]] + InsertAfter(q[1..], at, x)
  }

  function InsertBefore(q: seq<nat>, at: nat, x: nat): seq<nat> {
    if q == [] then []
    else if q[0] == at then [x] + q
    else [q[0]] + InsertBefore(q[1..], at, x)
  }

  lemma FirstOf(p: seq<nat>, m: seq<nat>, q: seq<nat>)
    requires p != []
    ensures p + m + q == [p[0]] + (p[1..] + m + q) && p + q == [p[0]] + (p[1..] + q)
    ensures (p + m + q)[1..] == p[1..] + m + q
  {
  }

  lemma {:induction false} RemoveAt(p: seq<nat>, at: nat, q: seq<nat>)
    requires at !in p
    ensures Remove(p + [at] + q, at) == p + q
  {
    if p == [] {
      assert p + [at] + q == [at] + q && p + q == q;
    } else {
      RemoveAt(p[1..], at, q);
      FirstOf(p, [at], q);
    }
  }

  lemma {:induction false} InsertAfterAt(p: seq<nat>, at: nat, q: seq<nat>, x: nat)
    requires at !in p
    ensures InsertAfter(p + [at] + q, at, x) == p + [at, x] + q
  {
    var s := p + [at] + q;
    if p == [] {
      assert s == [at] + q;
    } else {
      InsertAfterAt(p[1..], at, q, x);
      assert s[1..] == p[1..] + [at] + q;
    }
  }

  lemma {:induction false} InsertBeforeAt(p: seq<nat>, at: nat, q: seq<nat>, x: nat)
    requires at !in p
    ensures InsertBefore(p + [at] + q, at, x) == p + [x, at] + q
  {
    var s := p + [at] + q;
    if p == [] {
      assert s == [at] + q;
    } else {
      InsertBeforeAt(p[1..], at, q, x);
      assert s[1..] == p[1..] + [at] + q;
    }
  }

  ghost predicate Distinct(q: seq<nat>) {
    q != [] ==> q[0] !in q[1..] && Distinct(q[1..])
  }

  lemma {:induction false} RemoveElems(q: seq<nat>, x: nat, y: nat)
    requires Distinct(q)
    ensures y in Remove(q, x) <==> y in q && y != x
  {
    if q != [] {
      RemoveElems(q[1..], x, y);
      assert q == [q[0]] + q[1..];
    }
  }

  lemma {:induction false} RemoveDistinct(q: seq<nat>, x: nat)
    requires Distinct(q)
    ensures Distinct(Remove(q, x))
    ensures |Remove(q, x)| == if x in q then |q| - 1 else |q|
  {
    if q != [] {
      RemoveDistinct(q[1..], x);
      RemoveElems(q[1..], x, q[0]);
      assert q == [q[0]] + q[1..];
    }
  }

  lemma {:induction false} SnocDistinct(q: seq<nat>, x: nat)
    requires Distinct(q) && x !in q
    ensures Distinct(q + [x])
  {
    if q != [] {
      SnocDistinct(q[1..], x);
      assert (q + [x])[1..] == q[1..] + [x];
    }
  }

  /** A block leaves bin i, the highest active one, for the bin above it. */
  function RelinkUp(active: seq<nat>, bins: seq<seq<nat>>, i: nat, n: nat): seq<nat>
    requires i < n < |bins|
  {
    var a := if i + 1 != n && i + 1 !in active then InsertAfter(active, i, i + 1) else active;
    if bins[i] == [] then Remove(a, i) else a
  }

  /** A block leaves bin i + 1 for bin i; bin n is the sentinel of the active list. */
  function RelinkDown(active: seq<nat>, bins: seq<seq<nat>>, i: nat, n: nat): seq<nat>
    requires i < n < |bins|
  {
    var a :=
      if i in active then active
      else if i + 1 == n then active + [i]
      else InsertBefore(active, i + 1, i);
    if bins[i + 1] == [] && i + 1 != n then Remove(a, i + 1) else a
  }

  function One(bins: seq<seq<nat>>, i: nat): seq<nat>
    requires i < |bins|
  {
    if bins[i] != [] then [i] else []
  }

  lemma OccupiedFrom(bins: seq<seq<nat>>, i: nat, n: nat)
    requires i < n <= |bins|
    ensures Occupied(bins, i, n) == One(bins, i) + Occupied(bins, i + 1, n)
  {
    OccupiedSplit(bins, i, i + 1, n);
    assert Occupied(bins, i, i) == [];
    assert Occupied(bins, i, i + 1) == One(bins, i);
  }

  lemma OccupiedAround(bins: seq<seq<nat>>, i: nat, n: nat)
    requires i < n <= |bins|
    ensures Occupied(bins, 0, n) == Occupied(bins, 0, i) + (One(bins, i) + Occupied(bins, i + 1, n))
    ensures i !in Occupied(bins, 0, i)
    ensures i in Occupied(bins, 0, n) <==> bins[i] != []
  {
    hide Occupied, One;
    OccupiedSplit(bins, 0, i, n);
    OccupiedFrom(bins, i, n);
    OccupiedHas(bins, 0, i, i);
    OccupiedHas(bins, 0, n, i);
  }

  /** Only bins i and i + 1 differ. */
  ghost predicate SameBut(bins: seq<seq<nat>>, bins': seq<seq<nat>>, i: nat) {
    |bins| == |bins'| && forall j :: 0 <= j < |bins| && j != i && j != i + 1 ==> bins'[j] == bins[j]
  }

  lemma RelinkUpOk(bins: seq<seq<nat>>, bins': seq<seq<nat>>, i: nat, n: nat)
    requires i < n < |bins| && SameBut(bins, bins', i)
    requires bins[i] != [] && Occupied(bins, i + 1, n) == [] && bins'[i + 1] != []
    ensures RelinkUp(Occupied(bins, 0, n), bins', i, n) == Occupied(bins', 0, n)
  {
    var p := Occupied(bins, 0, i);
    OccupiedSame(bins, bins', 0, i);
    OccupiedHas(bins, 0, i, i);
    UpStep(p, i);
    if i + 1 == n {
      assert Occupied(bins', n, n) == [];
      hide Occupied, Remove, InsertAfter, SameBut;
      OccupiedAround(bins, i, n);
      OccupiedAround(bins', i, n);
    } else {
      OccupiedSame(bins, bins', i + 2, n);
      OccupiedHas(bins, 0, n, i + 1);
      OccupiedHas(bins, i + 1, n, i + 1);
      hide Occupied, Remove, InsertAfter, SameBut;
      OccupiedFrom(bins, i + 1, n);
      OccupiedFrom(bins', i + 1, n);
      OccupiedAround(bins, i, n);
      OccupiedAround(bins', i, n);
    }
  }

  lemma UpStep(p: seq<nat>, i: nat)
    requires i !in p
    ensures InsertAfter(p + ([i] + []), i, i + 1) == p + ([i] + ([i + 1] + []))
    ensures Remove(p + ([i] + ([i + 1] + [])), i) == p + ([] + ([i + 1] + []))
    ensures Remove(p + ([i] + []), i) == p + ([] + [])
  {
    hide Remove, InsertAfter;
    assert p + ([i] + []) == p + [i] + [];
    InsertAfterAt(p, i, [], i + 1);
    RemoveAt(p, i, []);
    RemoveAt(p, i, [i + 1]);
    assert p + ([i] + ([i + 1] + [])) == p + [i, i + 1] + [] == p + [i] + [i + 1];
    assert p + ([] + ([i + 1] + [])) == p + [i + 1] && p + [] == p + ([] + []);
  }

  lemma RelinkDownOk(bins: seq<seq<nat>>, bins': seq<seq<nat>>, i: nat, n: nat)
    requires i < n < |bins| && SameBut(bins, bins', i)
    requires bins[i + 1] != [] && bins'[i] != []
    ensures RelinkDown(Occupied(bins, 0, n), bins', i, n) == Occupied(bins', 0, n)
  {
    OccupiedSame(bins, bins', 0, i);
    if i + 1 == n {
      assert Occupied(bins, n, n) == [] == Occupied(bins', n, n);
      hide Occupied, SameBut, RelinkDown;
      RelinkDownTop(bins, bins', i, n, Occupied(bins, 0, i));
    } else {
      OccupiedSame(bins, bins', i + 2, n);
      hide Occupied, SameBut, RelinkDown;
      RelinkDownBelow(bins, bins', i, n, Occupied(bins, 0, i), Occupied(bins, i + 2, n));
    }
  }

  lemma RelinkDownTop(bins: seq<seq<nat>>, bins': seq<seq<nat>>, i: nat, n: nat, p: seq<nat>)
    requires i + 1 == n < |bins| && |bins'| == |bins| && bins'[i] != []
    requires p == Occupied(bins, 0, i) == Occupied(bins', 0, i)
    requires Occupied(bins, n, n) == [] == Occupied(bins', n, n)
    ensures RelinkDown(Occupied(bins, 0, n), bins', i, n) == Occupied(bins', 0, n)
  {
    hide Occupied, Remove, InsertBefore;
    OccupiedAround(bins, i, n);
    OccupiedAround(bins', i, n);
    assert Occupied(bins', 0, n) == p + ([i] + []) == p + ([] + []) + [i];
  }

  lemma RelinkDownBelow(bins: seq<seq<nat>>, bins': seq<seq<nat>>, i: nat, n: nat, p: seq<nat>, q: seq<nat>)
    requires i + 1 < n < |bins| && |bins'| == |bins|
    requires bins[i + 1] != [] && bins'[i] != []
    requires p == Occupied(bins, 0, i) == Occupied(bins', 0, i)
    requires q == Occupied(bins, i + 2, n) == Occupied(bins', i + 2, n)
    ensures RelinkDown(Occupied(bins, 0, n), bins', i, n) == Occupied(bins', 0, n)
  {
    hide Occupied, Remove, InsertBefore;
    OccupiedFrom(bins, i + 1, n);
    OccupiedFrom(bins', i + 1, n);
    OccupiedAround(bins, i, n);
    OccupiedAround(bins', i, n);
    OccupiedHas(bins, 0, i, i + 1);
    DownStep(p, i, q);
  }

  lemma DownStep(p: seq<nat>, i: nat, q: seq<nat>)
    requires i !in p && i + 1 !in p
    ensures InsertBefore(p + ([] + ([i + 1] + q)), i + 1, i) == p + ([i] + ([i + 1] + q))
    ensures Remove(p + ([i] + ([i + 1] + q)), i + 1) == p + ([i] + ([] + q))
  {
    hide Remove, InsertBefore;
    assert p + ([] + ([i + 1] + q)) == p + [i + 1] + q;
    InsertBeforeAt(p, i + 1, q, i);
    assert p + [i, i + 1] + q == p + ([i] + ([i + 1] + q));
    assert p + [i, i + 1] + q == (p + [i]) + [i + 1] + q;
    RemoveAt(p + [i], i + 1, q);
    assert (p + [i]) + q == p + ([i] + ([] + q));
  }

  lemma RelinkGoneOk(bins: seq<seq<nat>>, bins': seq<seq<nat>>, i: nat, n: nat)
    requires i < n < |bins| && SameBut(bins, bins', i) && bins'[i + 1] == bins[i + 1]
    requires bins[i] != []
    ensures (if bins'[i] == [] then Remove(Occupied(bins, 0, n), i) else Occupied(bins, 0, n)) == Occupied(bins', 0, n)
  {
    OccupiedSame(bins, bins', 0, i);
    OccupiedSame(bins, bins', i + 1, n);
    hide Occupied, Remove, SameBut;
    var p, q := Occupied(bins, 0, i), Occupied(bins, i + 1, n);
    OccupiedAround(bins, i, n);
    OccupiedAround(bins', i, n);
    RemoveAt(p, i, q);
    Associate(p, [i], q);
    assert [] + q == q;
  }
}
