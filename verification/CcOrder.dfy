/** The order in which captions should come out, told by the frames alone: anchors let out
    what has come before them, in presentation order. */
module CcOrder {
  import opened Wrappers

  /** A frame and its caption payloads. */
  datatype Frame = Frame(key: bool, pts: int, payloads: seq<(bool, seq<int>)>)

  predicate IsAnchor(f: Frame, maxPts: int) { f.key || f.pts > maxPts }

  /** The pts of the last anchor; zero before there is one. */
  function LastAnchor(fs: seq<Frame>): int {
    if fs == [] then 0
    else
      var before, f := LastAnchor(fs[..|fs| - 1]), fs[|fs| - 1];
      if IsAnchor(f, before) then f.pts else before
  }

  /** The pts of the anchor before the last. */
  function AnchorBefore(fs: seq<Frame>): Option<int> {
    if fs == [] then None
    else
      var init, f := fs[..|fs| - 1], fs[|fs| - 1];
      if !IsAnchor(f, LastAnchor(init)) then AnchorBefore(init)
      else if init == [] then None
      else Some(LastAnchor(init))
  }

  /** Frame k is an anchor later than the one before, or not an anchor but later than the
      anchor before the last. */
  predicate InStep(fs: seq<Frame>, k: nat)
    requires k < |fs|
  {
    var last, floor := LastAnchor(fs[..k]), AnchorBefore(fs[..k]);
    if IsAnchor(fs[k], last) then k > 0 ==> last < fs[k].pts else floor.Some? ==> floor.value < fs[k].pts
  }

  /** A stream that keeps to its anchors. */
  ghost predicate Steady(fs: seq<Frame>) { forall k :: 0 <= k < |fs| ==> InStep(fs, k) }

  /** A caption and its presentation time. */
  datatype Item = Item(pts: int, data: seq<int>)

  /** The caption payloads that could be read to their end. */
  function Readable(payloads: seq<(bool, seq<int>)>, n: nat): seq<seq<int>>
    requires n <= |payloads|
  {
    if n == 0 then [] else Readable(payloads, n - 1) + if payloads[n - 1].0 then [payloads[n - 1].1] else []
  }

  /** The captions of a frame. */
  function Items(pts: int, payloads: seq<(bool, seq<int>)>): seq<Item> {
    if payloads == [] then []
    else
      var n := |payloads| - 1;
      Items(pts, payloads[..n]) + if payloads[n].0 then [Item(pts, payloads[n].1)] else []
  }

  ghost predicate Ascending(s: seq<Item>) {
    forall i, j :: 0 <= i <= j < |s| ==> s[i].pts <= s[j].pts
  }

  /** Puts an item behind all that are not later. */
  function Settle(s: seq<Item>, x: Item): (r: seq<Item>)
    ensures |r| == |s| + 1
  {
    if s == [] || s[|s| - 1].pts <= x.pts then s + [x] else Settle(s[..|s| - 1], x) + [s[|s| - 1]]
  }

  lemma SettleLast(s: seq<Item>, x: Item)
    requires s != [] ==> s[|s| - 1].pts <= x.pts
    ensures Settle(s, x) == s + [x]
  {
  }

  lemma SettleFront(s: seq<Item>, y: Item, x: Item)
    requires x.pts < y.pts
    ensures Settle(s + [y], x) == Settle(s, x) + [y]
  {
    assert (s + [y])[..|s|] == s;
  }

  function SettleAll(s: seq<Item>, xs: seq<Item>): seq<Item> {
    if xs == [] then s else Settle(SettleAll(s, xs[..|xs| - 1]), xs[|xs| - 1])
  }

  lemma NextItem(s: seq<Item>, pts: int, payloads: seq<(bool, seq<int>)>, i: nat)
    requires i < |payloads|
    ensures SettleAll(s, Items(pts, payloads[..i + 1])) ==
      var before := SettleAll(s, Items(pts, payloads[..i]));
      if payloads[i].0 then Settle(before, Item(pts, payloads[i].1)) else before
  {
    hide Settle;
    assert payloads[..i + 1][..i] == payloads[..i];
    var xs := Items(pts, payloads[..i]);
    if payloads[i].0 {
      assert (xs + [Item(pts, payloads[i].1)])[..|xs|] == xs;
    } else {
      assert xs + [] == xs;
    }
  }

  lemma NothingSettled(s: seq<Item>, pts: int, payloads: seq<(bool, seq<int>)>)
    ensures SettleAll(s, Items(pts, payloads[..0])) == s
  {
  }

  /** What has been let out, and what is held back, in order. */
  function LetOut(fs: seq<Frame>): seq<Item> {
    if fs == [] then []
    else
      var before := fs[..|fs| - 1];
      if IsAnchor(fs[|fs| - 1], LastAnchor(before)) then LetOut(before) + Held(before) else LetOut(before)
  }

  function Held(fs: seq<Frame>): seq<Item> {
    if fs == [] then []
    else
      var before, f := fs[..|fs| - 1], fs[|fs| - 1];
      SettleAll(if IsAnchor(f, LastAnchor(before)) then [] else Held(before), Items(f.pts, f.payloads))
  }

  /** All the captions so far, as they come out if an anchor follows. */
  function All(fs: seq<Frame>): seq<Item> { LetOut(fs) + Held(fs) }

  /** The last key frame. */
  function LastKey(fs: seq<Frame>): (r: Option<nat>)
    ensures r.Some? ==> r.value < |fs| && fs[r.value].key && forall j :: r.value < j < |fs| ==> !fs[j].key
    ensures r == None ==> forall j :: 0 <= j < |fs| ==> !fs[j].key
  {
    if fs == [] then None else if fs[|fs| - 1].key then Some(|fs| - 1) else LastKey(fs[..|fs| - 1])
  }

  /** No frame is later than `pts` since the last key frame, or at all, if there was none; then
      time zero counts as well. */
  ghost predicate NoneLater(fs: seq<Frame>, pts: int) {
    match LastKey(fs)
    case None => pts >= 0 && Earlier(fs, |fs|, pts)
    case Some(k) => forall j :: k <= j < |fs| ==> fs[j].pts <= pts
  }

  lemma NoneLaterNext(fs: seq<Frame>, pts: int)
    requires fs != []
    ensures NoneLater(fs, pts) <==>
      fs[|fs| - 1].pts <= pts && (fs[|fs| - 1].key || NoneLater(fs[..|fs| - 1], pts))
  {
    var n := |fs| - 1;
    assert forall j :: 0 <= j < n ==> fs[..n][j] == fs[j];
    if NoneLater(fs, pts) {
      assert fs[n].pts <= pts;
    }
  }

  /** Later than all the frames since the last key frame is later than the last anchor. */
  lemma {:induction false} AnchorIsLatest(fs: seq<Frame>, pts: int)
    ensures NoneLater(fs, pts) <==> LastAnchor(fs) <= pts
    decreases |fs|
  {
    if fs != [] {
      NoneLaterNext(fs, pts);
      hide NoneLater;
      AnchorIsLatest(fs[..|fs| - 1], pts);
    }
  }

  /** A key frame, and a frame later than all those since the last key frame, let out what is
      held back; no other frame lets out anything. */
  lemma LetOutExactly(fs: seq<Frame>)
    requires fs != []
    ensures var before, f := fs[..|fs| - 1], fs[|fs| - 1];
      var all := f.key || NoneLater(before, f.pts - 1);
      && LetOut(fs) == (if all then LetOut(before) + Held(before) else LetOut(before))
      && Held(fs) == SettleAll(if all then [] else Held(before), Items(f.pts, f.payloads))
  {
    hide SettleAll, Items, NoneLater;
    AnchorIsLatest(fs[..|fs| - 1], fs[|fs| - 1].pts - 1);
  }

  /** How many payloads there are. */
  function Count(fs: seq<Frame>): nat {
    if fs == [] then 0 else Count(fs[..|fs| - 1]) + |fs[|fs| - 1].payloads|
  }

  lemma {:induction false} CountMore(fs: seq<Frame>, i: nat)
    requires i <= |fs|
    ensures Count(fs[..i]) <= Count(fs)
    decreases |fs|
  {
    if i == |fs| {
      assert fs[..i] == fs;
    } else {
      CountMore(fs[..|fs| - 1], i);
      assert fs[..|fs| - 1][..i] == fs[..i];
    }
  }

  /** The first frame whose captions are held back. */
  function FirstHeld(fs: seq<Frame>): (n: nat)
    ensures n <= |fs| && (fs != [] ==> n < |fs|)
  {
    if fs == [] then 0
    else
      var before := fs[..|fs| - 1];
      if IsAnchor(fs[|fs| - 1], LastAnchor(before)) then |before| else FirstHeld(before)
  }

  /** No frame is earlier than one whose captions an anchor has let out before. */
  ghost predicate Orderly(fs: seq<Frame>) {
    forall i, j :: 0 <= j < |fs| && 0 <= i < FirstHeld(fs[..j + 1]) ==> fs[i].pts <= fs[j].pts
  }

  ghost predicate SameTimes(fs: seq<Frame>, gs: seq<Frame>) {
    |fs| == |gs| && forall i :: 0 <= i < |fs| ==> fs[i].key == gs[i].key && fs[i].pts == gs[i].pts
  }

  ghost predicate UpTo(s: seq<Item>, pts: int) { forall i :: 0 <= i < |s| ==> s[i].pts <= pts }

  /** Nothing in s is earlier than anything in a. */
  ghost predicate Before(a: seq<Item>, s: seq<Item>) {
    forall i, j :: 0 <= i < |a| && 0 <= j < |s| ==> a[i].pts <= s[j].pts
  }

  lemma Joined(a: seq<Item>, s: seq<Item>)
    ensures Ascending(a + s) <==> Ascending(a) && Ascending(s) && Before(a, s)
  {
    var t := a + s;
    if Ascending(t) {
      forall i, j | 0 <= i <= j < |a| ensures a[i].pts <= a[j].pts {
        assert t[i].pts <= t[j].pts;
      }
      forall i, j | 0 <= i <= j < |s| ensures s[i].pts <= s[j].pts {
        assert t[|a| + i].pts <= t[|a| + j].pts;
      }
      forall i, j | 0 <= i < |a| && 0 <= j < |s| ensures a[i].pts <= s[j].pts {
        assert t[i].pts <= t[|a| + j].pts;
      }
    }
  }

  lemma {:induction false} SettleElems(s: seq<Item>, x: Item)
    ensures forall y :: y in Settle(s, x) ==> y == x || y in s
  {
    if s != [] && s[|s| - 1].pts > x.pts {
      SettleElems(s[..|s| - 1], x);
    }
  }

  lemma UpToElems(s: seq<Item>, hi: int)
    ensures UpTo(s, hi) <==> forall y :: y in s ==> y.pts <= hi
  {
    if UpTo(s, hi) {
      forall y | y in s ensures y.pts <= hi {
        var i :| 0 <= i < |s| && s[i] == y;
      }
    } else {
      var i :| 0 <= i < |s| && s[i].pts > hi;
      assert s[i] in s;
    }
  }

  lemma SettleUpTo(s: seq<Item>, x: Item, hi: int)
    requires UpTo(s, hi) && x.pts <= hi
    ensures UpTo(Settle(s, x), hi)
  {
    hide Settle, UpTo;
    SettleElems(s, x);
    UpToElems(s, hi);
    UpToElems(Settle(s, x), hi);
  }

  lemma SettleBefore(a: seq<Item>, s: seq<Item>, x: Item)
    requires Before(a, s) && UpTo(a, x.pts)
    ensures Before(a, Settle(s, x))
  {
    hide Settle;
    SettleElems(s, x);
    var r := Settle(s, x);
    forall i, j | 0 <= i < |a| && 0 <= j < |r| ensures a[i].pts <= r[j].pts {
      assert r[j] in r;
      if r[j] != x {
        var k :| 0 <= k < |s| && s[k] == r[j];
      }
    }
  }

  lemma {:induction false} SettleAscending(s: seq<Item>, x: Item)
    requires Ascending(s)
    ensures Ascending(Settle(s, x))
  {
    if s != [] && s[|s| - 1].pts > x.pts {
      var n := |s| - 1;
      SettleAscending(s[..n], x);
      assert UpTo(s[..n], s[n].pts);
      SettleUpTo(s[..n], x, s[n].pts);
      var t := Settle(s[..n], x);
      hide Settle;
      Joined(t, [s[n]]);
    }
  }

  /** Captions of one time behind those that are earlier: the order stays. */
  lemma {:induction false} SettleItems(a: seq<Item>, s: seq<Item>, pts: int, payloads: seq<(bool, seq<int>)>)
    requires Ascending(s) && Before(a, s) && UpTo(a, pts)
    ensures var r := SettleAll(s, Items(pts, payloads)); Ascending(r) && Before(a, r)
    decreases |payloads|
  {
    if payloads != [] {
      var n := |payloads| - 1;
      SettleItems(a, s, pts, payloads[..n]);
      NextItem(s, pts, payloads, n);
      assert payloads[..n + 1] == payloads;
      hide SettleAll, Items, Settle, Ascending, Before, UpTo;
      if payloads[n].0 {
        var t := SettleAll(s, Items(pts, payloads[..n]));
        SettleAscending(t, Item(pts, payloads[n].1));
        SettleBefore(a, t, Item(pts, payloads[n].1));
      }
    }
  }

  lemma {:induction false} SettleWithin(s: seq<Item>, pts: int, payloads: seq<(bool, seq<int>)>, hi: int)
    requires UpTo(s, hi) && pts <= hi
    ensures UpTo(SettleAll(s, Items(pts, payloads)), hi)
    decreases |payloads|
  {
    if payloads != [] {
      var n := |payloads| - 1;
      SettleWithin(s, pts, payloads[..n], hi);
      NextItem(s, pts, payloads, n);
      assert payloads[..n + 1] == payloads;
      hide SettleAll, Items, Settle, UpTo;
      if payloads[n].0 {
        SettleUpTo(SettleAll(s, Items(pts, payloads[..n])), Item(pts, payloads[n].1), hi);
      }
    }
  }

  ghost predicate Earlier(fs: seq<Frame>, n: nat, pts: int)
    requires n <= |fs|
  {
    forall i :: 0 <= i < n ==> fs[i].pts <= pts
  }

  /** The times of the frames bound those of their captions. */
  lemma {:induction false} AllBounded(fs: seq<Frame>, pts: int)
    requires Earlier(fs, |fs|, pts)
    ensures UpTo(LetOut(fs), pts) && UpTo(Held(fs), pts) && UpTo(All(fs), pts)
    decreases |fs|
  {
    if fs != [] {
      var before, f := fs[..|fs| - 1], fs[|fs| - 1];
      AllBounded(before, pts);
      SettleWithin([], f.pts, f.payloads, pts);
      SettleWithin(Held(before), f.pts, f.payloads, pts);
    }
  }

  lemma {:induction false} LetOutBounded(fs: seq<Frame>, pts: int)
    requires Earlier(fs, FirstHeld(fs), pts)
    ensures UpTo(LetOut(fs), pts)
    decreases |fs|
  {
    if fs != [] {
      var before, f := fs[..|fs| - 1], fs[|fs| - 1];
      if IsAnchor(f, LastAnchor(before)) {
        AllBounded(before, pts);
      } else {
        LetOutBounded(before, pts);
      }
    }
  }

  lemma OrderlyPart(fs: seq<Frame>, n: nat)
    requires Orderly(fs) && n <= |fs|
    ensures Orderly(fs[..n])
  {
    forall i, j | 0 <= j < n && 0 <= i < FirstHeld(fs[..n][..j + 1]) ensures fs[..n][i].pts <= fs[..n][j].pts {
      assert fs[..n][..j + 1] == fs[..j + 1];
    }
  }

  /** In an orderly stream everything comes out in order. */
  lemma {:induction false} OrderlyAscends(fs: seq<Frame>)
    requires Orderly(fs)
    ensures Ascending(LetOut(fs)) && Ascending(Held(fs)) && Before(LetOut(fs), Held(fs)) && Ascending(All(fs))
    decreases |fs|
  {
    if fs != [] {
      var n := |fs| - 1;
      var before, f := fs[..n], fs[n];
      OrderlyPart(fs, n);
      OrderlyAscends(before);
      assert fs[..n + 1] == fs;
      assert Earlier(fs, FirstHeld(fs), f.pts);
      if IsAnchor(f, LastAnchor(before)) {
        AllBounded(before, f.pts);
        SettleItems(All(before), [], f.pts, f.payloads);
      } else {
        LetOutBounded(before, f.pts);
        SettleItems(LetOut(before), Held(before), f.pts, f.payloads);
      }
    }
    hide LetOut, Held;
    Joined(LetOut(fs), Held(fs));
  }

  /** A frame without captions changes nothing of what comes out. */
  lemma WithoutItems(fs: seq<Frame>)
    requires fs != [] && fs[|fs| - 1].payloads == []
    ensures All(fs) == All(fs[..|fs| - 1])
    ensures Held(fs) == [] || Held(fs) == Held(fs[..|fs| - 1])
    ensures IsAnchor(fs[|fs| - 1], LastAnchor(fs[..|fs| - 1])) ==> Held(fs) == []
  {
    assert Items(fs[|fs| - 1].pts, []) == [];
    assert All(fs[..|fs| - 1]) + [] == All(fs[..|fs| - 1]);
  }

  /** Only frame i has a caption, so far. */
  lemma {:induction false} OneItem(fs: seq<Frame>, i: nat, x: Item)
    requires forall k :: 0 <= k < |fs| && k != i ==> fs[k].payloads == []
    requires i < |fs| ==> fs[i].payloads == [(true, x.data)] && fs[i].pts == x.pts
    ensures All(fs) == if i < |fs| then [x] else []
    ensures i < FirstHeld(fs) ==> Held(fs) == [] && LetOut(fs) == [x]
    decreases |fs|
  {
    if fs != [] {
      var n := |fs| - 1;
      OneItem(fs[..n], i, x);
      if n == i {
        OneOf(x);
        assert LetOut(fs) == [] && Held(fs) == [x];
      } else {
        WithoutItems(fs);
        assert [x] + [] == [x];
      }
    }
  }

  lemma OneOf(x: Item)
    ensures Items(x.pts, [(true, x.data)]) == [x] && SettleAll([], [x]) == [x]
  {
    var ps := [(true, x.data)];
    assert ps[..0] == [] && [x][..0] == [];
    assert Items(x.pts, ps[..0]) == [];
  }

  /** Captions at frames i and j, and nowhere else. */
  function Twice(fs: seq<Frame>, i: nat, j: nat): (gs: seq<Frame>)
    ensures |gs| == |fs|
  {
    seq(|fs|, k requires 0 <= k < |fs| => fs[k].(payloads := if k == i || k == j then [(true, [])] else []))
  }

  lemma {:induction false} TimesDecide(fs: seq<Frame>, gs: seq<Frame>)
    requires SameTimes(fs, gs)
    ensures LastAnchor(fs) == LastAnchor(gs) && FirstHeld(fs) == FirstHeld(gs)
    decreases |fs|
  {
    if fs != [] {
      TimesDecide(fs[..|fs| - 1], gs[..|gs| - 1]);
    }
  }

  lemma TwicePart(fs: seq<Frame>, i: nat, j: nat, n: nat)
    requires n <= |fs|
    ensures Twice(fs, i, j)[..n] == Twice(fs[..n], i, j)
    ensures SameTimes(fs, Twice(fs, i, j)) && SameTimes(fs[..n], Twice(fs, i, j)[..n])
    ensures forall k :: 0 <= k < |fs| ==> Twice(fs, i, j)[k].payloads == if k == i || k == j then [(true, [])] else []
  {
  }

  lemma LastItem(gs: seq<Frame>, x: Item, y: Item)
    requires gs != [] && gs[|gs| - 1].pts == y.pts && gs[|gs| - 1].payloads == [(true, y.data)]
    requires var before := gs[..|gs| - 1];
      All(before) == [x] && (IsAnchor(gs[|gs| - 1], LastAnchor(before)) || (Held(before) == [] &&
        LetOut(before) == [x]))
    ensures All(gs) == [x, y]
  {
    OneOf(y);
    assert [x] + [y] == [x, y];
  }

  /** Two captions come out in the wrong order. */
  lemma {:induction false} TwoItems(fs: seq<Frame>, i: nat, j: nat)
    requires j < |fs| && i < FirstHeld(fs[..j + 1])
    ensures i < j && All(Twice(fs, i, j)) == [Item(fs[i].pts, []), Item(fs[j].pts, [])]
    decreases |fs|
  {
    hide All, LetOut, Held, Twice;
    var n, gs := |fs| - 1, Twice(fs, i, j);
    TwicePart(fs, i, j, n);
    if j < n {
      assert fs[..n][..j + 1] == fs[..j + 1];
      TwoItems(fs[..n], i, j);
      WithoutItems(gs);
    } else {
      assert fs[..j + 1] == fs;
      TimesDecide(fs[..n], gs[..n]);
      hide LastAnchor, SameTimes;
      OneItem(gs[..n], i, Item(fs[i].pts, []));
      LastItem(gs, Item(fs[i].pts, []), Item(fs[j].pts, []));
    }
  }

  lemma OrderlyTimes(fs: seq<Frame>, gs: seq<Frame>)
    requires Orderly(fs) && SameTimes(fs, gs)
    ensures Orderly(gs)
  {
    hide FirstHeld;
    forall i, j | 0 <= j < |gs| && 0 <= i < FirstHeld(gs[..j + 1]) ensures gs[i].pts <= gs[j].pts {
      TimesDecide(fs[..j + 1], gs[..j + 1]);
    }
  }

  lemma Disorder(fs: seq<Frame>) returns (gs: seq<Frame>)
    requires !Orderly(fs)
    ensures SameTimes(fs, gs) && !Ascending(All(gs))
  {
    hide All, FirstHeld, Twice;
    var i, j :| 0 <= j < |fs| && 0 <= i < FirstHeld(fs[..j + 1]) && fs[i].pts > fs[j].pts;
    TwoItems(fs, i, j);
    TwicePart(fs, i, j, 0);
    gs := Twice(fs, i, j);
    assert All(gs)[0].pts > All(gs)[1].pts;
  }

  /** Everything comes out in order, whatever captions the frames have, exactly if the
      stream is orderly. */
  lemma OrderlyExactly(fs: seq<Frame>)
    ensures Orderly(fs) <==> forall gs: seq<Frame> :: SameTimes(fs, gs) ==> Ascending(All(gs))
  {
    hide Orderly, Ascending, All, SameTimes;
    if Orderly(fs) {
      forall gs: seq<Frame> | SameTimes(fs, gs) ensures Ascending(All(gs)) {
        OrderlyTimes(fs, gs);
        OrderlyAscends(gs);
      }
    } else {
      var gs := Disorder(fs);
    }
  }

  lemma SteadyPart(fs: seq<Frame>, n: nat)
    requires Steady(fs) && n <= |fs|
    ensures Steady(fs[..n])
  {
    forall k | 0 <= k < n ensures InStep(fs[..n], k) {
      assert InStep(fs, k) && fs[..n][..k] == fs[..k];
    }
  }

  /** Times in a stream that keeps to its anchors. */
  lemma {:induction false} SteadyTimes(fs: seq<Frame>)
    requires Steady(fs)
    ensures Earlier(fs, |fs|, LastAnchor(fs))
    ensures FirstHeld(fs) > 0 ==> AnchorBefore(fs).Some? && Earlier(fs, FirstHeld(fs), AnchorBefore(fs).value)
    decreases |fs|
  {
    if fs != [] {
      var n := |fs| - 1;
      SteadyPart(fs, n);
      SteadyTimes(fs[..n]);
      assert InStep(fs, n);
    }
  }

  /** A stream that keeps to its anchors is orderly. */
  lemma SteadyOrderly(fs: seq<Frame>)
    requires Steady(fs)
    ensures Orderly(fs)
  {
    forall i, j | 0 <= j < |fs| && 0 <= i < FirstHeld(fs[..j + 1]) ensures fs[i].pts <= fs[j].pts {
      SteadyPart(fs, j);
      SteadyTimes(fs[..j]);
      assert InStep(fs, j) && fs[..j + 1][..j] == fs[..j];
      assert fs[..j][i].pts <= LastAnchor(fs[..j]);
    }
  }
}
