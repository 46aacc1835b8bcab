/** What the sender keeps for each upstream: the ranges of the queue handed to it, and the
    bytes it has sent from them. */
module KmpUpstreams {
  import opened Bytes
  import opened BufQueue

  /** Bytes [from, to) of the `node`-th buffer of the queue. */
  datatype Range = Range(node: nat, from: nat, to: nat)

  /** `ready`, `window`, `appendFails` and `sendFails` stand for the connection: one that is
      ready takes `window` bytes at a time, and is no longer ready once it took less than
      there was. */
  datatype Upstream = Upstream(
    ranges: seq<Range>,
    wire: seq<byte>,
    ackedPos: Pos,
    ackedId: u64,
    ready: bool,
    window: nat,
    appendFails: bool,
    sendFails: bool)

  /** Where the ranges end. */
  function Reach(size: nat, ranges: seq<Range>): nat {
    if ranges == [] then 0 else Start(size, ranges[|ranges| - 1].node) + ranges[|ranges| - 1].to
  }

  /** The ranges follow each other from the first byte on, with no gap and no repeat. */
  ghost predicate Tiles(size: nat, ranges: seq<Range>) {
    ranges != [] ==>
      var l := ranges[|ranges| - 1];
      Tiles(size, ranges[..|ranges| - 1]) && Start(size, l.node) + l.from == Reach(size, ranges[..|ranges| - 1]) &&
        l.from < l.to <= size
  }

  /** What was sent is the beginning of the stream, within what was handed over and before
      `floor`; what is acknowledged was sent, and is still in the queue. */
  ghost predicate Fed(size: nat, u: Upstream, stream: seq<byte>, gone: nat, floor: nat) {
    && Tiles(size, u.ranges) && Reach(size, u.ranges) <= |stream|
    && |u.wire| <= Reach(size, u.ranges) && |u.wire| <= floor && u.wire == stream[..|u.wire|]
    && u.ackedPos.off < size && gone <= Abs(size, u.ackedPos) <= |u.wire|
  }

  ghost predicate AllFed(size: nat, us: seq<Upstream>, stream: seq<byte>, gone: nat, floor: nat) {
    forall i :: 0 <= i < |us| ==> Fed(size, us[i], stream, gone, floor)
  }

  /** A larger acknowledged frame id means a position at least as far. */
  ghost predicate Ordered(size: nat, us: seq<Upstream>) {
    forall i, j :: 0 <= i < |us| && 0 <= j < |us| && us[i].ackedId <= us[j].ackedId ==>
      Abs(size, us[i].ackedPos) <= Abs(size, us[j].ackedPos)
  }

  const MAX_ID: u64 := 0xffff_ffff_ffff_ffff

  ghost predicate LeastAcked(us: seq<Upstream>, m: nat) {
    m < |us| && forall i :: 0 <= i < |us| ==> us[m].ackedId <= us[i].ackedId
  }

  /** Upstreams that acknowledged equally far are at the same buffer. */
  lemma SamePlaces(size: nat, us: seq<Upstream>, m: nat, k: nat, stream: seq<byte>, gone: nat, floor: nat)
    requires m < |us| && k < |us| && us[m].ackedId == us[k].ackedId
    requires AllFed(size, us, stream, gone, floor) && Ordered(size, us)
    ensures us[m].ackedPos.node == us[k].ackedPos.node
  {
    hide Tiles, Reach, Start;
    var p, q := us[m].ackedPos, us[k].ackedPos;
    assert Fed(size, us[m], stream, gone, floor) && Fed(size, us[k], stream, gone, floor);
    StartOrder(size, p.node, p.off, q.node, q.off);
    StartOrder(size, q.node, q.off, p.node, p.off);
  }

  /** The first n have been handed everything up to `b`, the others everything up to `a`. */
  ghost predicate Handed(size: nat, us: seq<Upstream>, n: nat, a: nat, b: nat) {
    forall i :: 0 <= i < |us| ==> Reach(size, us[i].ranges) == if i < n then b else a
  }

  lemma TilesMore(size: nat, ranges: seq<Range>, r: Range)
    requires Tiles(size, ranges) && Reach(size, ranges) == Start(size, r.node) + r.from && r.from < r.to <= size
    ensures Tiles(size, ranges + [r]) && Reach(size, ranges + [r]) == Start(size, r.node) + r.to
  {
    assert (ranges + [r])[..|ranges|] == ranges;
  }

  /** A further range is handed to upstream k. */
  lemma Append(size: nat, us: seq<Upstream>, k: nat, r: Range, stream: seq<byte>, gone: nat, floor: nat, a: nat, b: nat)
    requires k < |us| && AllFed(size, us, stream, gone, floor) && Ordered(size, us) && Handed(size, us, k, a, b)
    requires a == Start(size, r.node) + r.from && b == Start(size, r.node) + r.to && r.from < r.to <= size &&
      b <= |stream|
    ensures var us' := us[k := us[k].(ranges := us[k].ranges + [r])];
      AllFed(size, us', stream, gone, floor) && Ordered(size, us') && Handed(size, us', k + 1, a, b)
  {
    hide Tiles, Reach, Start, Abs;
    var u' := us[k].(ranges := us[k].ranges + [r]);
    var us' := us[k := u'];
    TilesMore(size, us[k].ranges, r);
    assert Fed(size, u', stream, gone, floor);
    forall i, j | 0 <= i < |us'| && 0 <= j < |us'| && us'[i].ackedId <= us'[j].ackedId
      ensures Abs(size, us'[i].ackedPos) <= Abs(size, us'[j].ackedPos)
    {
      assert us'[i].ackedId == us[i].ackedId && us'[j].ackedId == us[j].ackedId;
    }
  }

  /** More is written behind the stream. */
  lemma Grow(size: nat, us: seq<Upstream>, stream: seq<byte>, data: seq<byte>, gone: nat, floor: nat, floor': nat)
    requires AllFed(size, us, stream, gone, floor) && floor <= floor'
    ensures AllFed(size, us, stream + data, gone, floor')
  {
    hide Tiles, Reach, Start, Abs;
    forall i | 0 <= i < |us| ensures Fed(size, us[i], stream + data, gone, floor') {
      assert Fed(size, us[i], stream, gone, floor);
      assert (stream + data)[..|us[i].wire|] == stream[..|us[i].wire|];
    }
  }

  /** A marker opens where the stream ends: nothing sent lies behind it. */
  lemma Block(size: nat, us: seq<Upstream>, stream: seq<byte>, gone: nat, floor: nat, floor': nat)
    requires AllFed(size, us, stream, gone, floor) && (floor <= floor' || |stream| <= floor')
    ensures AllFed(size, us, stream, gone, floor')
  {
    hide Tiles, Reach, Start, Abs;
    forall i | 0 <= i < |us| ensures Fed(size, us[i], stream, gone, floor') {
      assert Fed(size, us[i], stream, gone, floor);
    }
  }

  /** Bytes behind everything sent are overwritten. */
  lemma Patch(size: nat, us: seq<Upstream>, stream: seq<byte>, at: nat, data: seq<byte>, gone: nat, floor: nat)
    requires AllFed(size, us, stream, gone, floor) && floor <= at && at + |data| <= |stream|
    ensures AllFed(size, us, Splice(stream, at, data), gone, floor)
  {
    hide Tiles, Reach, Start, Abs;
    var stream' := Splice(stream, at, data);
    forall i | 0 <= i < |us| ensures Fed(size, us[i], stream', gone, floor) {
      assert Fed(size, us[i], stream, gone, floor);
      assert stream'[..|us[i].wire|] == stream[..|us[i].wire|];
    }
  }

  /** How many bytes an upstream sends when `handed` have been handed over. */
  function SendSize(u: Upstream, handed: nat): (n: nat)
    requires |u.wire| <= handed
    ensures |u.wire| + n <= handed
  {
    if u.ready then Least(u.window, handed - |u.wire|) else 0
  }

  /** The upstream after sending. */
  function Sends(u: Upstream, stream: seq<byte>, handed: nat): Upstream
    requires |u.wire| <= handed <= |stream|
  {
    var n := SendSize(u, handed);
    u.(wire := u.wire + stream[|u.wire|..|u.wire| + n], ready := u.ready && |u.wire| + n == handed)
  }

  /** The first n have sent, the others have not yet. */
  ghost predicate SentTo(us: seq<Upstream>, us': seq<Upstream>, n: nat, stream: seq<byte>, handed: nat) {
    |us'| == |us| && forall i :: 0 <= i < |us| ==>
      if i < n then |us[i].wire| <= handed <= |stream| && us'[i] == Sends(us[i], stream, handed) else us'[i] == us[i]
  }

  lemma SentNext(us: seq<Upstream>, us': seq<Upstream>, n: nat, stream: seq<byte>, handed: nat)
    requires SentTo(us, us', n, stream, handed) && n < |us| && |us[n].wire| <= handed <= |stream|
    ensures us'[n] == us[n] && SentTo(us, us'[n := Sends(us[n], stream, handed)], n + 1, stream, handed)
  {
    hide Sends;
  }

  lemma SentNone(us: seq<Upstream>, stream: seq<byte>, handed: nat)
    ensures SentTo(us, us, 0, stream, handed)
  {
  }

  lemma SentSame(us: seq<Upstream>, us': seq<Upstream>, n: nat, stream: seq<byte>, handed: nat)
    requires SentTo(us, us', n, stream, handed) && n < |us|
    ensures |us'| == |us| && us'[n] == us[n]
  {
  }

  /** Then no connection that is still ready has anything left to send. */
  lemma SentPrompt(us: seq<Upstream>, us': seq<Upstream>, stream: seq<byte>, handed: nat)
    requires SentTo(us, us', |us|, stream, handed)
    ensures Prompt(us', handed, false)
  {
  }

  lemma SendKept(u: Upstream, stream: seq<byte>, handed: nat)
    requires |u.wire| <= handed <= |stream|
    ensures Stays(u, Sends(u, stream, handed), |stream|)
  {
  }

  /** No upstream is ready and has not sent all it was handed, unless sending is due. */
  ghost predicate Prompt(us: seq<Upstream>, handed: int, pending: bool) {
    pending || forall i :: 0 <= i < |us| && us[i].ready ==> |us[i].wire| >= handed
  }

  /** The same connections, at a stream of `length` bytes; those that take it all at once
      have stayed ready. */
  ghost predicate Kept(us: seq<Upstream>, us': seq<Upstream>, length: nat) {
    |us'| == |us| && forall i :: 0 <= i < |us| ==> Stays(us[i], us'[i], length)
  }

  ghost predicate Stays(u: Upstream, u': Upstream, length: nat) {
    && u'.window == u.window && u'.appendFails == u.appendFails && u'.sendFails == u.sendFails
    && u'.ackedPos == u.ackedPos && u'.ackedId == u.ackedId && u.wire <= u'.wire
    && (u.ready && u.window >= length ==> u'.ready)
  }

  lemma KeptRefl(us: seq<Upstream>, length: nat)
    ensures Kept(us, us, length)
  {
  }

  lemma KeptTrans(us: seq<Upstream>, us1: seq<Upstream>, us2: seq<Upstream>, n1: nat, n2: nat)
    requires Kept(us, us1, n1) && Kept(us1, us2, n2) && n1 <= n2
    ensures Kept(us, us2, n2)
  {
    forall i | 0 <= i < |us| ensures Stays(us[i], us2[i], n2) {
      assert Stays(us[i], us1[i], n1) && Stays(us1[i], us2[i], n2);
    }
  }

  lemma KeptStep(us: seq<Upstream>, us1: seq<Upstream>, k: nat, u: Upstream, length: nat)
    requires Kept(us, us1, length) && k < |us1| && Stays(us1[k], u, length)
    ensures Kept(us, us1[k := u], length)
  {
    hide Stays;
    var us2 := us1[k := u];
    forall i | 0 <= i < |us| ensures Stays(us[i], us2[i], length) {
      assert Stays(us[i], us1[i], length);
      if i == k {
        StaysTrans(us[i], us1[i], u, length);
      }
    }
  }

  lemma StaysTrans(u: Upstream, u1: Upstream, u2: Upstream, length: nat)
    requires Stays(u, u1, length) && Stays(u1, u2, length)
    ensures Stays(u, u2, length)
  {
  }

  lemma KeptAt(us: seq<Upstream>, us': seq<Upstream>, length: nat, i: nat)
    requires Kept(us, us', length) && i < |us|
    ensures |us'| == |us| && Stays(us[i], us'[i], length)
  {
  }

  /** Upstream k sends the next bytes of what it was handed. */
  lemma Send(size: nat, us: seq<Upstream>, k: nat, n: nat, ready: bool, stream: seq<byte>, gone: nat, floor: nat,
    a: nat)
    requires k < |us| && AllFed(size, us, stream, gone, floor) && Ordered(size, us) && Handed(size, us, 0, a, a)
    requires |us[k].wire| + n <= Reach(size, us[k].ranges) && |us[k].wire| + n <= floor
    ensures |us[k].wire| + n <= |stream|
    ensures var us' := us[k := us[k].(wire := us[k].wire + stream[|us[k].wire|..|us[k].wire| + n], ready := ready)];
      AllFed(size, us', stream, gone, floor) && Ordered(size, us') && Handed(size, us', 0, a, a)
  {
    hide Tiles, Reach, Start, Abs;
    var w := us[k].wire;
    assert Fed(size, us[k], stream, gone, floor);
    var u' := us[k].(wire := w + stream[|w|..|w| + n], ready := ready);
    var us' := us[k := u'];
    assert u'.wire == stream[..|w| + n];
    assert Fed(size, u', stream, gone, floor);
    forall i, j | 0 <= i < |us'| && 0 <= j < |us'| && us'[i].ackedId <= us'[j].ackedId
      ensures Abs(size, us'[i].ackedPos) <= Abs(size, us'[j].ackedPos)
    {
      assert us'[i].ackedId == us[i].ackedId && us'[j].ackedId == us[j].ackedId;
    }
  }

  /** Everything before the least acknowledged position can go. */
  lemma Release(size: nat, us: seq<Upstream>, m: nat, stream: seq<byte>, gone: nat, floor: nat)
    requires m < |us| && AllFed(size, us, stream, gone, floor) && Ordered(size, us)
    requires forall i :: 0 <= i < |us| ==> us[m].ackedId <= us[i].ackedId
    ensures AllFed(size, us, stream, Start(size, us[m].ackedPos.node), floor)
    ensures Start(size, us[m].ackedPos.node) <= floor
  {
    hide Tiles, Reach, Start;
    assert Fed(size, us[m], stream, gone, floor);
    forall i | 0 <= i < |us| ensures Fed(size, us[i], stream, Start(size, us[m].ackedPos.node), floor) {
      assert Fed(size, us[i], stream, gone, floor);
      assert Abs(size, us[m].ackedPos) <= Abs(size, us[i].ackedPos);
    }
  }

  /** A connection changes, but not what was sent over it. */
  lemma Reconnected(size: nat, us: seq<Upstream>, k: nat, window: nat, stream: seq<byte>, gone: nat, floor: nat, a: nat)
    requires k < |us| && AllFed(size, us, stream, gone, floor) && Ordered(size, us) && Handed(size, us, 0, a, a)
    ensures var us' := us[k := us[k].(ready := true, window := window)];
      AllFed(size, us', stream, gone, floor) && Ordered(size, us') && Handed(size, us', 0, a, a)
  {
    hide Tiles, Reach, Start, Abs;
    var us' := us[k := us[k].(ready := true, window := window)];
    assert Fed(size, us[k], stream, gone, floor);
    forall i, j | 0 <= i < |us'| && 0 <= j < |us'| && us'[i].ackedId <= us'[j].ackedId
      ensures Abs(size, us'[i].ackedPos) <= Abs(size, us'[j].ackedPos)
    {
      assert us'[i].ackedId == us[i].ackedId && us'[j].ackedId == us[j].ackedId;
    }
  }

  /** Whatever the acknowledged frame ids are, letting go of what lies before the position
      of upstream m is right exactly if no position lies in an earlier buffer. */
  lemma ReleaseExactly(size: nat, us: seq<Upstream>, m: nat, stream: seq<byte>, gone: nat, floor: nat)
    requires size > 0 && m < |us| && AllFed(size, us, stream, gone, floor)
    ensures AllFed(size, us, stream, Start(size, us[m].ackedPos.node), floor) <==>
      forall i :: 0 <= i < |us| ==> us[m].ackedPos.node <= us[i].ackedPos.node
  {
    hide Tiles, Reach, Start;
    var node := us[m].ackedPos.node;
    forall i | 0 <= i < |us| ensures Start(size, node) <= Abs(size, us[i].ackedPos) <==> node <= us[i].ackedPos.node {
      assert Fed(size, us[i], stream, gone, floor);
      var p := us[i].ackedPos;
      if node <= p.node {
        StartSum(size, node, p.node - node);
      } else if Start(size, node) <= Abs(size, p) {
        StartOrder(size, node, 0, p.node, p.off);
      }
    }
    if AllFed(size, us, stream, Start(size, node), floor) {
      forall i | 0 <= i < |us| ensures node <= us[i].ackedPos.node {
        assert Fed(size, us[i], stream, Start(size, node), floor);
      }
    } else {
      var i :| 0 <= i < |us| && !Fed(size, us[i], stream, Start(size, node), floor);
      assert Fed(size, us[i], stream, gone, floor);
    }
  }

  /** Two upstreams with one acknowledged frame id: the first has also acknowledged packets
      that are not frames, and letting go of what lies before it takes a buffer from the
      second. */
  lemma ReleaseAtTie(stream: seq<byte>)
    requires |stream| == 8
    ensures var u := Upstream([Range(0, 0, 4), Range(1, 0, 4)], stream, Pos(1, 0), 1, true, 0, false, false);
      var us := [u, u.(ackedPos := Pos(0, 2))];
      && AllFed(4, us, stream, 0, 8) && !AllFed(4, us, stream, Start(4, us[0].ackedPos.node), 8)
      && forall i :: 0 <= i < |us| ==> us[0].ackedId <= us[i].ackedId
  {
    var u := Upstream([Range(0, 0, 4), Range(1, 0, 4)], stream, Pos(1, 0), 1, true, 0, false, false);
    var us := [u, u.(ackedPos := Pos(0, 2))];
    TilesMore(4, [], Range(0, 0, 4));
    TilesMore(4, [Range(0, 0, 4)], Range(1, 0, 4));
    assert [] + [Range(0, 0, 4)] == [Range(0, 0, 4)] && [Range(0, 0, 4)] + [Range(1, 0, 4)] == u.ranges;
    hide Tiles;
    assert stream[..8] == stream;
    assert Fed(4, us[0], stream, 0, 8) && Fed(4, us[1], stream, 0, 8);
    assert !Fed(4, us[1], stream, 4, 8);
  }

  /** Nothing is sent that was not handed over. */
  lemma Lower(size: nat, us: seq<Upstream>, stream: seq<byte>, gone: nat, floor: nat, a: nat)
    requires AllFed(size, us, stream, gone, floor) && Handed(size, us, 0, a, a)
    ensures AllFed(size, us, stream, gone, Least(floor, a))
  {
    hide Tiles, Reach, Start, Abs;
    forall i | 0 <= i < |us| ensures Fed(size, us[i], stream, gone, Least(floor, a)) {
      assert Fed(size, us[i], stream, gone, floor);
    }
  }

  lemma HandedOne(size: nat, us: seq<Upstream>, k: nat, a: nat)
    requires k < |us| && Handed(size, us, 0, a, a)
    ensures Reach(size, us[k].ranges) == a
  {
  }

  lemma HandedStart(size: nat, us: seq<Upstream>, a: nat, b: nat)
    requires Handed(size, us, 0, a, a)
    ensures Handed(size, us, 0, a, b)
  {
  }

  lemma AllHandedOver(size: nat, us: seq<Upstream>, a: nat, b: nat)
    requires Handed(size, us, |us|, a, b)
    ensures Handed(size, us, 0, b, b)
  {
  }

  lemma FedOne(size: nat, us: seq<Upstream>, k: nat, stream: seq<byte>, gone: nat, floor: nat)
    requires k < |us| && AllFed(size, us, stream, gone, floor)
    ensures us[k].ackedPos.off < size && gone <= Abs(size, us[k].ackedPos) <= |us[k].wire| <= floor
    ensures |us[k].wire| <= Reach(size, us[k].ranges) <= |stream|
  {
    assert Fed(size, us[k], stream, gone, floor);
  }

  /** Some connection refuses data. */
  ghost predicate Broken(us: seq<Upstream>) {
    exists i :: 0 <= i < |us| && (us[i].appendFails || us[i].sendFails)
  }

  lemma BrokenOne(us: seq<Upstream>, k: nat)
    requires k < |us| && (us[k].appendFails || us[k].sendFails)
    ensures Broken(us)
  {
  }

  lemma BrokenSame(us: seq<Upstream>, k: nat, u: Upstream)
    requires k < |us| && us[k].appendFails == u.appendFails && us[k].sendFails == u.sendFails
    ensures Broken(us[k := u]) == Broken(us)
  {
    var us' := us[k := u];
    if Broken(us) {
      var i :| 0 <= i < |us| && (us[i].appendFails || us[i].sendFails);
      assert us'[i].appendFails || us'[i].sendFails;
    }
    if Broken(us') {
      var i :| 0 <= i < |us'| && (us'[i].appendFails || us'[i].sendFails);
      assert us[i].appendFails || us[i].sendFails;
    }
  }

  /** The bytes of the ranges, read off the stream. */
  ghost function Covered(size: nat, ranges: seq<Range>, stream: seq<byte>): seq<byte>
    requires Tiles(size, ranges) && Reach(size, ranges) <= |stream|
    decreases |ranges|
  {
    if ranges == [] then []
    else
      var l := ranges[|ranges| - 1];
      Covered(size, ranges[..|ranges| - 1], stream) + stream[Start(size, l.node) + l.from..Start(size, l.node) + l.to]
  }

  /** The ranges are the stream up to where they end: no gap, no repeat. */
  lemma {:induction false} TilesCover(size: nat, ranges: seq<Range>, stream: seq<byte>)
    requires Tiles(size, ranges) && Reach(size, ranges) <= |stream|
    ensures Covered(size, ranges, stream) == stream[..Reach(size, ranges)]
    decreases |ranges|
  {
    hide Start;
    if ranges != [] {
      TilesCover(size, ranges[..|ranges| - 1], stream);
    }
  }
}
