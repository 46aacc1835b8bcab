/** Caption packets come with frames in decoding order and are handed to the decoders in
    presentation order, out of a bounded pool. */
module CcReorder {
  import opened Sequences
  import opened CcOrder
  import opened Wrappers

  /** `addr` is where the packet lives; the pool hands out distinct places. */
  datatype Packet = Packet(addr: nat, pts: int, data: seq<int>)

  ghost predicate Sorted(ps: seq<Packet>) {
    forall i, j :: 0 <= i <= j < |ps| ==> ps[i].pts <= ps[j].pts
  }

  /** The packets of one pts, in their order. */
  function With(ps: seq<Packet>, pts: int): seq<Packet> {
    if ps == [] then [] else With(ps[..|ps| - 1], pts) + if ps[|ps| - 1].pts == pts then [ps[|ps| - 1]] else []
  }

  /** Where a packet goes: behind all those that are not later. */
  ghost predicate Place(ps: seq<Packet>, pts: int, k: nat) {
    k <= |ps| && (forall i :: 0 <= i < k ==> ps[i].pts <= pts) && forall i :: k <= i < |ps| ==> pts < ps[i].pts
  }

  lemma PlaceAt(ps: seq<Packet>, pts: int, k: nat)
    requires Sorted(ps) && k <= |ps| && (k > 0 ==> ps[k - 1].pts <= pts) && forall i :: k <= i < |ps| ==>
      pts < ps[i].pts
    ensures Place(ps, pts, k)
  {
  }

  function Inserted(ps: seq<Packet>, k: nat, p: Packet): (r: seq<Packet>)
    requires k <= |ps|
    ensures |r| == |ps| + 1
  {
    ps[..k] + [p] + ps[k..]
  }

  lemma NextOf(ps: seq<Packet>, k: nat)
    requires k < |ps|
    ensures ps[k..][0] == ps[k] && ps[..k + 1] == ps[..k] + [ps[k]] && ps[k..][1..] == ps[k + 1..]
  {
  }

  lemma SortedRest(ps: seq<Packet>)
    requires Sorted(ps)
    ensures forall k :: 0 <= k <= |ps| ==> Sorted(ps[k..])
  {
  }

  lemma InsertedFrom(ps: seq<Packet>, k: nat, p: Packet)
    requires Place(ps, p.pts, k)
    ensures forall i :: 0 <= i < |ps| + 1 ==> Inserted(ps, k, p)[i] == p || Inserted(ps, k, p)[i] in ps
  {
  }

  lemma InsertedSorted(ps: seq<Packet>, k: nat, p: Packet)
    requires Sorted(ps) && Place(ps, p.pts, k)
    ensures Sorted(Inserted(ps, k, p))
  {
  }

  lemma {:induction false} WithAppend(a: seq<Packet>, b: seq<Packet>, pts: int)
    ensures With(a + b, pts) == With(a, pts) + With(b, pts)
  {
    if b == [] {
      assert a + b == a;
    } else {
      WithAppend(a, b[..|b| - 1], pts);
      assert (a + b)[..|a + b| - 1] == a + b[..|b| - 1];
    }
  }

  lemma {:induction false} WithLater(ps: seq<Packet>, pts: int)
    requires forall i :: 0 <= i < |ps| ==> pts < ps[i].pts
    ensures With(ps, pts) == []
  {
    if ps != [] {
      WithLater(ps[..|ps| - 1], pts);
    }
  }

  /** Packets of the same pts stay in order of arrival, the others where they are. */
  lemma InsertedStable(ps: seq<Packet>, k: nat, p: Packet, pts: int)
    requires Place(ps, p.pts, k)
    ensures With(Inserted(ps, k, p), pts) == With(ps, pts) + if p.pts == pts then [p] else []
  {
    hide With;
    WithAppend(ps[..k], ps[k..], pts);
    assert ps[..k] + ps[k..] == ps;
    WithAppend(ps[..k] + [p], ps[k..], pts);
    WithAppend(ps[..k], [p], pts);
    WithOne(p, pts);
    if p.pts == pts {
      WithLater(ps[k..], pts);
    }
  }

  lemma WithOne(p: Packet, pts: int)
    ensures With([p], pts) == if p.pts == pts then [p] else []
  {
    assert [p][..0] == [];
  }

  /** All that was pushed is in order and not later than the anchor before the last, and all
      that is pending is later than it and not later than the last. */
  ghost predicate InOrder(pushed: seq<Packet>, pending: seq<Packet>, maxPts: int, floor: int, started: bool) {
    && Sorted(pushed)
    && (forall i :: 0 <= i < |pushed| ==> started && pushed[i].pts <= floor)
    && (forall i :: 0 <= i < |pending| ==> (started ==> floor < pending[i].pts) && pending[i].pts <= maxPts)
    && (started ==> floor < maxPts)
  }

  lemma OrderInserted(pushed: seq<Packet>, ps: seq<Packet>, maxPts: int, floor: int, started: bool, k: nat, p: Packet)
    requires InOrder(pushed, ps, maxPts, floor, started) && Place(ps, p.pts, k)
    requires p.pts <= maxPts && (started ==> floor < p.pts)
    ensures InOrder(pushed, Inserted(ps, k, p), maxPts, floor, started)
  {
    hide Sorted, Place, Inserted;
    InsertedFrom(ps, k, p);
    PlaceWithin(ps, p.pts, k);
    forall i | 0 <= i < |Inserted(ps, k, p)|
      ensures (started ==> floor < Inserted(ps, k, p)[i].pts) && Inserted(ps, k, p)[i].pts <= maxPts
    {
      assert Inserted(ps, k, p)[i] == p || Inserted(ps, k, p)[i] in ps;
    }
  }

  lemma PlaceWithin(ps: seq<Packet>, pts: int, k: nat)
    requires Place(ps, pts, k)
    ensures k <= |ps|
  {
  }

  /** What an anchor lets out follows what was let out before. */
  lemma OrderReleased(pushed: seq<Packet>, ps: seq<Packet>, maxPts: int, floor: int, started: bool, k: nat)
    requires InOrder(pushed, ps, maxPts, floor, started) && Sorted(ps) && k <= |ps|
    ensures Sorted(pushed + ps[..k])
    ensures forall i :: 0 <= i < |pushed + ps[..k]| ==> (pushed + ps[..k])[i].pts <= maxPts
  {
  }

  lemma AllPrefixes(pushed: seq<Packet>, ps: seq<Packet>, maxPts: int, floor: int, started: bool)
    requires InOrder(pushed, ps, maxPts, floor, started) && Sorted(ps)
    ensures forall k :: 0 <= k <= |ps| ==> Sorted(pushed + ps[..k])
  {
    hide InOrder, Sorted;
    forall k | 0 <= k <= |ps| ensures Sorted(pushed + ps[..k]) {
      OrderReleased(pushed, ps, maxPts, floor, started, k);
    }
  }

  lemma OrderAnchored(pushed: seq<Packet>, ps: seq<Packet>, maxPts: int, floor: int, started: bool, pts: int)
    requires InOrder(pushed, ps, maxPts, floor, started) && Sorted(ps)
    requires maxPts < pts || (pushed == [] && ps == [])
    ensures InOrder(pushed + ps, [], pts, maxPts, pushed != [] || ps != [])
  {
    OrderReleased(pushed, ps, maxPts, floor, started, |ps|);
    assert ps[..|ps|] == ps;
  }

  /** Places ever handed out by the allocator. */
  ghost function Places(n: nat): multiset<nat> {
    if n == 0 then multiset{} else Places(n - 1) + multiset{n - 1}
  }

  function Addrs(ps: seq<Packet>): (r: seq<nat>)
    ensures |r| == |ps|
  {
    seq(|ps|, i requires 0 <= i < |ps| => ps[i].addr)
  }

  lemma AddrsInserted(ps: seq<Packet>, k: nat, p: Packet)
    requires k <= |ps|
    ensures multiset(Addrs(Inserted(ps, k, p))) == multiset(Addrs(ps)) + multiset{p.addr}
  {
    var a := Addrs(ps);
    assert Addrs(Inserted(ps, k, p)) == a[..k] + [p.addr] + a[k..];
    assert a == a[..k] + a[k..];
  }

  /** The captions of the packets of one pts. */
  function Captions(ps: seq<Packet>, pts: int): seq<seq<int>> {
    var w := With(ps, pts);
    seq(|w|, i requires 0 <= i < |w| => w[i].data)
  }

  lemma CaptionsMore(ps: seq<Packet>, ps': seq<Packet>, p: Packet, pts: int)
    requires With(ps', pts) == With(ps, pts) + if p.pts == pts then [p] else []
    ensures Captions(ps', pts) == Captions(ps, pts) + if p.pts == pts then [p.data] else []
  {
    hide With;
  }

  /** The packets without the places where they live. */
  function Outline(ps: seq<Packet>): (r: seq<Item>)
    ensures |r| == |ps|
  {
    seq(|ps|, i requires 0 <= i < |ps| => Item(ps[i].pts, ps[i].data))
  }

  lemma OutlineAppend(a: seq<Packet>, b: seq<Packet>)
    ensures Outline(a + b) == Outline(a) + Outline(b)
  {
  }

  lemma OutlineOne(p: Packet)
    ensures Outline([p]) == [Item(p.pts, p.data)]
  {
  }

  lemma PlaceBefore(ps: seq<Packet>, pts: int, k: nat)
    requires Place(ps, pts, k)
    ensures k < |ps| ==> pts < ps[|ps| - 1].pts && Place(ps[..|ps| - 1], pts, k)
    ensures k == |ps| && ps != [] ==> Outline(ps)[|ps| - 1].pts <= pts
    ensures k <= |ps|
  {
  }

  /** Inserting a packet in its place settles it. */
  lemma {:induction false} Settled(ps: seq<Packet>, k: nat, p: Packet)
    requires Place(ps, p.pts, k)
    ensures k <= |ps| && Outline(Inserted(ps, k, p)) == Settle(Outline(ps), Item(p.pts, p.data))
    decreases |ps|
  {
    hide Place, Inserted, Outline, Settle;
    PlaceBefore(ps, p.pts, k);
    OutlineOne(p);
    if k == |ps| {
      InsertedLast(ps, p);
      OutlineAppend(ps, [p]);
      SettleLast(Outline(ps), Item(p.pts, p.data));
    } else {
      var before, q := ps[..|ps| - 1], ps[|ps| - 1];
      Settled(before, k, p);
      InsertedBefore(ps, k, p);
      OutlineAppend(Inserted(before, k, p), [q]);
      OutlineAppend(before, [q]);
      OutlineOne(q);
      Snoc(ps);
      SettleFront(Outline(before), Item(q.pts, q.data), Item(p.pts, p.data));
    }
  }

  lemma InsertedLast(ps: seq<Packet>, p: Packet)
    ensures Inserted(ps, |ps|, p) == ps + [p]
  {
  }

  lemma InsertedBefore(ps: seq<Packet>, k: nat, p: Packet)
    requires k < |ps|
    ensures Inserted(ps, k, p) == Inserted(ps[..|ps| - 1], k, p) + [ps[|ps| - 1]]
  {
  }

  datatype Status = Done | Abort

  class Reorder {
    const limit: nat
    const decodes: Packet -> bool        // whether the decoders take a packet without error
    var packetsLeft: nat
    var free: seq<nat>
    var pending: seq<Packet>
    var pendingPackets: nat
    var maxPts: int
    var error: bool

    ghost var pushed: seq<Packet>        // handed to the decoders, in order
    ghost var floor: int                 // the pts of the anchor before the last
    ghost var started: bool              // whether there was such an anchor
    ghost var tidy: bool                 // whether the stream has kept to its anchors

    /** Every packet of the pool is unused, free or pending, and in one of these once. */
    ghost predicate Pooled(inHand: multiset<nat>)
      reads this`packetsLeft, this`free, this`pending
    {
      && packetsLeft + |free| + |pending| + |inHand| == limit
      && multiset(free) + multiset(Addrs(pending)) + inHand == Places(limit - packetsLeft)
    }

    /** While the stream keeps to its anchors, all that was pushed is not later than the
        anchor before the last, and all that is pending is later than it. */
    ghost predicate Ordered()
      reads this`pushed, this`pending, this`maxPts, this`floor, this`started, this`tidy
    {
      tidy ==> InOrder(pushed, pending, maxPts, floor, started)
    }

    ghost predicate Valid()
      reads this
    {
      Pooled(multiset{}) && Sorted(pending) && Ordered() && pendingPackets == |pending|
    }

    constructor (maxPendingPackets: nat, decodes: Packet -> bool)
      ensures Valid() && limit == packetsLeft == maxPendingPackets && this.decodes == decodes
      ensures pushed == [] && pending == [] && maxPts == 0 && !started && tidy && !error
    {
      limit, packetsLeft, this.decodes := maxPendingPackets, maxPendingPackets, decodes;
      free, pending, pendingPackets, maxPts, error := [], [], 0, 0, false;
      pushed, floor, started, tidy := [], 0, false, true;
    }

    /** A packet from the free ones, or a new one while the pool lasts. */
    method Alloc() returns (ok: bool, addr: nat)
      requires Pooled(multiset{})
      modifies this`packetsLeft, this`free, this`error
      ensures ok <==> old(free) != [] || old(packetsLeft) > 0
      ensures if ok then Pooled(multiset{addr}) && error == old(error) else Pooled(multiset{}) && error
      ensures old(free) != [] ==> packetsLeft == old(packetsLeft)
    {
      hide Places;
      addr := 0;
      if free != [] {
        assert free == [free[0]] + free[1..];
        addr, free := free[0], free[1..];
        return true, addr;
      }
      if packetsLeft <= 0 {
        error := true;
        return false, addr;
      }
      PlacesNext(limit - packetsLeft);
      addr := limit - packetsLeft;
      packetsLeft := packetsLeft - 1;
      ok := true;
    }

    method Free(addr: nat)
      requires Pooled(multiset{addr})
      modifies this`free
      ensures Pooled(multiset{}) && free == old(free) + [addr]
    {
      hide Places;
      free := free + [addr];
    }

    /** Goes back from the latest pending packet to the first that is not later. */
    method Insert(p: Packet) returns (ghost k: nat)
      requires Pooled(multiset{p.addr}) && Sorted(pending)
      modifies this`pending, this`pendingPackets
      ensures Pooled(multiset{}) && Sorted(pending) && pendingPackets == old(pendingPackets) + 1
      ensures Place(old(pending), p.pts, k) && pending == Inserted(old(pending), k, p)
      ensures forall t :: With(pending, t) == With(old(pending), t) + if p.pts == t then [p] else []
    {
      hide Places, With, Sorted, Addrs;
      var q: nat := |pending|;
      while q > 0 && p.pts < pending[q - 1].pts
        invariant q <= |pending| && forall i :: q <= i < |pending| ==> p.pts < pending[i].pts
      {
        q := q - 1;
      }
      PlaceAt(pending, p.pts, q);
      InsertedSorted(pending, q, p);
      AddrsInserted(pending, q, p);
      forall t ensures With(Inserted(pending, q, p), t) == With(pending, t) + if p.pts == t then [p] else [] {
        InsertedStable(pending, q, p, t);
      }
      k := q;
      pending := Inserted(pending, q, p);
      pendingPackets := pendingPackets + 1;
    }

    /** Hands all pending packets to the decoders, earliest first. */
    method PushAll() returns (ok: bool)
      requires Pooled(multiset{}) && Sorted(pending)
      modifies this`pending, this`pendingPackets, this`free, this`pushed, this`error
      ensures Pooled(multiset{}) && Sorted(pending)
      ensures ok ==> pending == [] && pendingPackets == 0 && pushed == old(pushed) + old(pending) && error == old(error)
      ensures !ok ==> error && Stopped(old(pushed), old(pending))
      ensures ok == forall i :: 0 <= i < |old(pending)| ==> decodes(old(pending)[i])
    {
      hide Places, Addrs, Stopped, Sorted, Pooled;
      ghost var k := 0;
      SortedRest(pending);
      while pending != []
        invariant k <= |old(pending)| && pending == old(pending)[k..] && pushed == old(pushed) + old(pending)[..k]
        invariant Pooled(multiset{}) && Sorted(pending) && error == old(error)
        invariant forall i :: 0 <= i < k ==> decodes(old(pending)[i])
        decreases |pending|
      {
        var pkt := pending[0];
        NextOf(old(pending), k);
        pushed := pushed + [pkt];
        if !decodes(pkt) {
          error := true;
          StoppedAt(old(pushed), old(pending), k);
          return false;
        }
        Recycle(pkt);
        k := k + 1;
      }
      pendingPackets := 0;
      ok := true;
    }

    /** The decoders failed at a pending packet; it and those behind it stay. */
    ghost predicate Stopped(pushed0: seq<Packet>, pending0: seq<Packet>)
      reads this`pushed, this`pending
    {
      exists k ::
        && 0 <= k < |pending0| && !decodes(pending0[k])
        && pushed == pushed0 + pending0[..k + 1] && pending == pending0[k..]
    }

    lemma StoppedAt(pushed0: seq<Packet>, pending0: seq<Packet>, k: nat)
      requires k < |pending0| && !decodes(pending0[k])
      requires pushed == pushed0 + pending0[..k + 1] && pending == pending0[k..]
      ensures Stopped(pushed0, pending0)
    {
    }

    /** The first pending packet goes back to the pool. */
    method Recycle(pkt: Packet)
      requires Pooled(multiset{}) && pending != [] && pkt == pending[0]
      modifies this`pending, this`free
      ensures Pooled(multiset{}) && pending == old(pending)[1..] && free == old(free) + [pkt.addr]
    {
      hide Places;
      assert Addrs(pending) == [pkt.addr] + Addrs(pending[1..]);
      pending := pending[1..];
      free := free + [pkt.addr];
    }

    /** One caption payload of the current frame: `None` if it cannot be read to its end. */
    method AddPacket(pts: int, readable: bool, data: seq<int>) returns (r: Status)
      requires Valid() && pts <= maxPts && (tidy ==> started ==> floor < pts)
      modifies this`packetsLeft, this`free, this`error, this`pending, this`pendingPackets
      ensures Valid() && (r == Abort <==> old(free) == [] && old(packetsLeft) == 0)
      ensures r == Abort || !readable ==> pending == old(pending)
      ensures r == Done && readable ==>
        forall t :: Captions(pending, t) == Captions(old(pending), t) + if t == pts then [data] else []
      ensures error == (old(error) || r == Abort)
      ensures Outline(pending) ==
        if r == Done && readable then Settle(Outline(old(pending)), Item(pts, data)) else Outline(old(pending))
      ensures r == Abort ==> |old(pending)| == limit
    {
      hide Places, With, Sorted, Captions, Settle, Outline;
      var ok, addr := Alloc();
      if !ok {
        return Abort;
      }
      if !readable {
        Free(addr);
        return Done;
      }
      InsertOrdered(Packet(addr, pts, data));
      r := Done;
    }

    method InsertOrdered(p: Packet)
      requires Pooled(multiset{p.addr}) && Sorted(pending) && Ordered() && pendingPackets == |pending|
      requires p.pts <= maxPts && (tidy ==> started ==> floor < p.pts)
      modifies this`pending, this`pendingPackets
      ensures Valid()
      ensures forall t :: Captions(pending, t) == Captions(old(pending), t) + if t == p.pts then [p.data] else []
      ensures Outline(pending) == Settle(Outline(old(pending)), Item(p.pts, p.data))
    {
      hide Places, With, Sorted, Place, Inserted, InOrder, Captions, Settle, Outline;
      ghost var before := pending;
      ghost var k := Insert(p);
      forall t ensures Captions(pending, t) == Captions(before, t) + if t == p.pts then [p.data] else [] {
        CaptionsMore(before, pending, p, t);
      }
      Settled(before, k, p);
      if tidy {
        OrderInserted(pushed, before, maxPts, floor, started, k, p);
      }
    }

    /** A frame arrives, with its caption payloads: an anchor first lets everything out. */
    method AddFrame(key: bool, pts: int, payloads: seq<(bool, seq<int>)>) returns (r: Status)
      requires Valid() && !error
      modifies this
      ensures r == Done ==> Valid() && !error
      ensures r == Done ==> var kept := if old(Anchor(key, pts)) then [] else old(pending);
        forall t :: Captions(pending, t) == Captions(kept, t) + if t == pts then Readable(payloads, |payloads|) else []
      ensures var kept := if old(Anchor(key, pts)) then [] else old(pending);
        && (r == Done ==> Outline(pending) == SettleAll(Outline(kept), Items(pts, payloads)))
        && (r == Done ==> |pending| <= |kept| + |payloads|)
        && (r == Abort ==> |kept| + |payloads| > limit || exists p :: p in old(pending) && !decodes(p))
      ensures old(Anchor(key, pts)) ==>
        && old(pushed) <= pushed <= old(pushed + pending) &&
          (r == Done ==> pushed == old(pushed + pending) && maxPts == pts)
      ensures !old(Anchor(key, pts)) ==> pushed == old(pushed) && maxPts == old(maxPts)
      ensures r == Done ==> pushed == if key || pts > old(maxPts) then old(pushed + pending) else old(pushed)
      ensures tidy == (old(tidy) && old(KeepsOrder(key, pts)))
      ensures tidy ==> Sorted(pushed)
      ensures r == Done && old(Anchor(key, pts)) ==> floor == old(maxPts) && started == (old(pushed + pending) != [])
      ensures !old(Anchor(key, pts)) ==> floor == old(floor) && started == old(started)
    {
      hide Places, With, Sorted, Captions, Readable, Pooled, InOrder, Settle, SettleAll, Outline, Items;
      NoItems();
      if key || pts > maxPts {
        r := Release(pts);
        if r != Done {
          return;
        }
      } else {
        tidy := tidy && KeepsOrder(key, pts);
        SortedWhenTidy();
      }
      NoCaptions();
      r := AddPackets(pts, payloads);
    }

    lemma NoItems()
      ensures Outline([]) == []
    {
    }

    lemma NoCaptions()
      ensures forall t :: Captions([], t) == []
    {
    }

    method AddPackets(pts: int, payloads: seq<(bool, seq<int>)>) returns (r: Status)
      requires Valid() && !error && pts <= maxPts && (tidy ==> started ==> floor < pts)
      modifies this`packetsLeft, this`free, this`error, this`pending, this`pendingPackets
      ensures r == Done ==> Valid() && !error
      ensures r == Done ==>
        forall t :: Captions(pending, t) == Captions(old(pending), t) + if t == pts then Readable(payloads,
          |payloads|) else []
      ensures r == Done ==> Outline(pending) == SettleAll(Outline(old(pending)), Items(pts, payloads))
      ensures r == Done ==> |pending| <= |old(pending)| + |payloads|
      ensures r == Abort ==> |old(pending)| + |payloads| > limit
    {
      hide Captions, Pooled, Sorted, Ordered, Settle, SettleAll, Items, Outline;
      NothingSettled(Outline(pending), pts, payloads);
      var i := 0;
      r := Done;
      while i < |payloads|
        invariant Valid() && !error && r == Done && i <= |payloads|
        invariant Outline(pending) == SettleAll(Outline(old(pending)), Items(pts, payloads[..i]))
        invariant |pending| <= |old(pending)| + i
        invariant forall t :: Captions(pending, t) == Captions(old(pending), t) + if t == pts then Readable(payloads,
          i) else []
      {
        NextItem(Outline(old(pending)), pts, payloads, i);
        r := AddPacket(pts, payloads[i].0, payloads[i].1);
        if r != Done {
          return;
        }
        i := i + 1;
      }
      assert payloads[..i] == payloads;
    }

    /** An anchor lets out what is pending and takes the place of the one before. */
    method Release(pts: int) returns (r: Status)
      requires Valid() && !error
      modifies this
      ensures Pooled(multiset{}) && tidy == (old(tidy) && old(Forward(pts))) && (tidy ==> Sorted(pushed))
      ensures r == Done ==> Valid() && !error && maxPts == pts && pending == [] && pushed == old(pushed + pending)
      ensures r == Done ==> floor == old(maxPts) && started == (old(pushed + pending) != [])
      ensures r == Done && tidy ==> started ==> floor < pts
      ensures r != Done ==> error && old(pushed) <= pushed <= old(pushed + pending)
      ensures r != Done ==> exists p :: p in old(pending) && !decodes(p)
    {
      hide Places, With, InOrder, Sorted;
      ghost var before, ps, keeps := pushed, pending, tidy && Forward(pts);
      if keeps {
        OrderAnchored(pushed, pending, maxPts, floor, started, pts);
        AllPrefixes(pushed, pending, maxPts, floor, started);
      }
      var ok := PushAll();
      ghost var k := |pushed| - |before|;
      assert k <= |ps| && pushed == before + ps[..k];
      if keeps {
        assert Sorted(before + ps[..k]);
      }
      if !ok {
        tidy := keeps;
        return Abort;
      }
      assert ps[..k] == ps;
      NextAnchor(pts, keeps, before != [] || ps != []);
      SortedNone();
      r := Done;
    }

    method NextAnchor(pts: int, ghost keeps: bool, ghost any: bool)
      modifies this`floor, this`started, this`maxPts, this`tidy
      ensures floor == old(maxPts) && started == any && tidy == keeps && maxPts == pts
    {
      floor, started, tidy := maxPts, any, keeps;
      maxPts := pts;
    }

    lemma SortedNone()
      ensures Sorted([])
    {
    }

    predicate Anchor(key: bool, pts: int)
      reads this`maxPts
    {
      key || pts > maxPts
    }

    /** Anchors go forward, and other frames stay behind the anchor before the last. */
    ghost predicate KeepsOrder(key: bool, pts: int)
      reads this`maxPts, this`floor, this`started, this`pushed, this`pending
    {
      if Anchor(key, pts) then Forward(pts) else started ==> floor < pts
    }

    ghost predicate Forward(pts: int)
      reads this`maxPts, this`pushed, this`pending
    {
      maxPts < pts || (pushed == [] && pending == [])
    }

    lemma SortedWhenTidy()
      requires Ordered()
      ensures tidy ==> Sorted(pushed)
    {
    }
  }

  /** The captions of one pts, in the order in which they came. */
  function Arrived(fs: seq<Frame>, pts: int): seq<seq<int>> {
    if fs == [] then []
    else
      var f := fs[|fs| - 1];
      Arrived(fs[..|fs| - 1], pts) + if f.pts == pts then Readable(f.payloads, |f.payloads|) else []
  }

  lemma CaptionsAppend(a: seq<Packet>, b: seq<Packet>, pts: int)
    ensures Captions(a + b, pts) == Captions(a, pts) + Captions(b, pts)
  {
    WithAppend(a, b, pts);
    hide With;
  }

  /** What the values of the frames so far say of the state. */
  ghost predicate Follows(r: Reorder, fs: seq<Frame>)
    reads r
  {
    && r.maxPts == LastAnchor(fs)
    && (fs == [] ==> r.pushed == [] && r.pending == [])
    && (r.started ==> AnchorBefore(fs) == Some(r.floor))
  }

  /** A whole run of frames: nothing that could be read is lost, captions of one pts stay in
      their order, and while the stream keeps to its anchors everything handed to the
      decoders is in order of presentation, even if the run ends in an error. */
  method Run(maxPendingPackets: nat, decodes: Packet -> bool, frames: seq<Frame>) returns (r: Reorder, ok: bool)
    ensures fresh(r) && (ok ==> r.Valid() && r.maxPts == LastAnchor(frames))
    ensures Steady(frames) ==> Sorted(r.pushed)
    ensures ok ==> Outline(r.pushed) == LetOut(frames) && Outline(r.pending) == Held(frames)
    ensures (forall p :: decodes(p)) && Count(frames) <= maxPendingPackets ==> ok
    ensures ok ==> forall t :: Captions(r.pushed, t) + Captions(r.pending, t) == Arrived(frames, t)
  {
    hide Captions, Sorted, Reorder.Valid, Readable, InStep, Outline;
    r := new Reorder(maxPendingPackets, decodes);
    r.NoCaptions();
    r.NoItems();
    assert frames[..0] == [];
    for i := 0 to |frames|
      invariant fresh(r) && r.Valid() && !r.error && Follows(r, frames[..i])
      invariant Steady(frames) ==> r.tidy
      invariant r.limit == maxPendingPackets && r.decodes == decodes && |r.pending| <= Count(frames[..i])
      invariant Outline(r.pushed) == LetOut(frames[..i]) && Outline(r.pending) == Held(frames[..i])
      invariant forall t :: Captions(r.pushed, t) + Captions(r.pending, t) == Arrived(frames[..i], t)
    {
      CountMore(frames, i + 1);
      var res := OneFrame(r, frames, i);
      if res != Done {
        return r, false;
      }
    }
    assert frames[..|frames|] == frames;
    TidySorted(r);
    ok := true;
  }

  method OneFrame(r: Reorder, frames: seq<Frame>, i: nat) returns (res: Status)
    requires r.Valid() && !r.error && i < |frames| && Follows(r, frames[..i]) && (Steady(frames) ==> r.tidy)
    requires Outline(r.pushed) == LetOut(frames[..i]) && Outline(r.pending) == Held(frames[..i])
    requires |r.pending| <= Count(frames[..i])
    requires forall t :: Captions(r.pushed, t) + Captions(r.pending, t) == Arrived(frames[..i], t)
    modifies r
    ensures Steady(frames) ==> r.tidy && Sorted(r.pushed)
    ensures res == Done ==> r.Valid() && !r.error && Follows(r, frames[..i + 1])
    ensures res == Done ==> Outline(r.pushed) == LetOut(frames[..i + 1]) && Outline(r.pending) == Held(frames[..i + 1])
    ensures res == Done ==> |r.pending| <= Count(frames[..i + 1])
    ensures res == Abort ==> Count(frames[..i + 1]) > r.limit || exists p :: !r.decodes(p)
    ensures res == Done ==> forall t :: Captions(r.pushed, t) + Captions(r.pending, t) == Arrived(frames[..i + 1], t)
  {
    hide Captions, Sorted, Reorder.Valid, Readable, Outline, SettleAll, Items, Arrived, LetOut, Held;
    var f := frames[i];
    assert frames[..i + 1][..i] == frames[..i];
    assert Steady(frames) ==> InStep(frames, i);
    ghost var pushed0, pending0, all := r.pushed, r.pending, IsAnchor(f, r.maxPts);
    res := r.AddFrame(f.key, f.pts, f.payloads);
    r.NoCaptions();
    r.NoItems();
    if res == Done {
      OutlineNext(frames, i, pushed0, pending0, r.pending, all);
      forall t ensures Captions(r.pushed, t) + Captions(r.pending, t) == Arrived(frames[..i + 1], t) {
        CaptionsNext(frames, i, pushed0, pending0, r.pending, all, t);
      }
    }
  }

  /** What is let out and held back, one frame later. */
  lemma OutlineNext(frames: seq<Frame>, i: nat, pushed: seq<Packet>, pending: seq<Packet>, pending': seq<Packet>,
                    all: bool)
    requires i < |frames| && all == IsAnchor(frames[i], LastAnchor(frames[..i]))
    requires Outline(pushed) == LetOut(frames[..i]) && Outline(pending) == Held(frames[..i])
    requires Outline(pending') ==
      SettleAll(if all then [] else Outline(pending), Items(frames[i].pts, frames[i].payloads))
    ensures Outline(if all then pushed + pending else pushed) == LetOut(frames[..i + 1])
    ensures Outline(pending') == Held(frames[..i + 1])
  {
    hide Outline, SettleAll, Items;
    assert frames[..i + 1][..i] == frames[..i];
    OutlineAppend(pushed, pending);
  }

  lemma CaptionsNext(frames: seq<Frame>, i: nat, pushed: seq<Packet>, pending: seq<Packet>, pending': seq<Packet>,
                     all: bool, t: int)
    requires i < |frames| && Captions(pushed, t) + Captions(pending, t) == Arrived(frames[..i], t)
    requires Captions(pending', t) == (if all then [] else Captions(pending, t)) +
      if frames[i].pts == t then Readable(frames[i].payloads, |frames[i].payloads|) else []
    ensures Captions(if all then pushed + pending else pushed, t) + Captions(pending', t) == Arrived(frames[..i + 1], t)
  {
    hide Captions, Readable;
    assert frames[..i + 1][..i] == frames[..i];
    CaptionsAppend(pushed, pending, t);
    var more := if frames[i].pts == t then Readable(frames[i].payloads, |frames[i].payloads|) else [];
    Associate(Captions(pushed, t), Captions(pending, t), more);
    assert [] + more == more;
  }

  lemma TidySorted(r: Reorder)
    requires r.Valid()
    ensures r.tidy ==> Sorted(r.pushed)
  {
  }

  lemma PlacesNext(n: nat)
    ensures Places(n + 1) == Places(n) + multiset{n}
  {
  }
}
