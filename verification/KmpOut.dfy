/** The KMP sender: packets go into a queue of fixed-size buffers, lengths are patched in
    when they are known, and full or flushed pieces are handed to the upstreams. */
module KmpOut {
  import opened Sequences
  import opened Bytes
  import opened Wrappers
  import opened BufQueue
  import opened KmpFormat
  import opened KmpUpstreams
  import opened KmpPackets

  /** Where a size will be patched in, and how much had been written by then. */
  datatype Marker = Marker(pos: Pos, written: nat)

  /** The queue holds the end of the stream, from byte `gone` on. */
  ghost predicate Window(content: seq<byte>, gone: nat, stream: seq<byte>) {
    gone <= |stream| && |stream| - gone <= |content| && content[..|stream| - gone] == stream[gone..]
  }

  lemma WindowPut(content: seq<byte>, gone: nat, stream: seq<byte>, data: seq<byte>)
    requires Window(content, gone, stream) && |stream| - gone + |data| <= |content|
    ensures Window(Splice(content, |stream| - gone, data), gone, stream + data)
  {
    var n := |stream| - gone;
    var c := Splice(content, n, data);
    assert c[..n + |data|] == content[..n] + data;
    assert (stream + data)[gone..] == stream[gone..] + data;
  }

  lemma WindowPatch(content: seq<byte>, gone: nat, stream: seq<byte>, at: nat, data: seq<byte>)
    requires Window(content, gone, stream) && gone <= at && at + |data| <= |stream|
    ensures Window(Splice(content, at - gone, data), gone, Splice(stream, at, data))
  {
    hide Splice;
    var n := |stream| - gone;
    SpliceInside(content, at - gone, data, 0, n);
    SpliceInside(stream, at, data, gone, |stream|);
    var s, c := Splice(stream, at, data), Splice(content, at - gone, data);
    assert stream[gone..|stream|] == stream[gone..] && s[gone..|s|] == s[gone..];
    assert content[0..n] == content[..n] && c[0..n] == c[..n];
  }

  lemma WindowGrow(content: seq<byte>, gone: nat, stream: seq<byte>, more: seq<byte>)
    requires Window(content, gone, stream)
    ensures Window(content + more, gone, stream)
  {
    var n := |stream| - gone;
    assert (content + more)[..n] == content[..n];
  }

  lemma WindowMore(bufs: seq<seq<byte>>, bufs': seq<seq<byte>>, gone: nat, stream: seq<byte>)
    requires Window(Flat(bufs), gone, stream) && |bufs| <= |bufs'| && bufs'[..|bufs|] == bufs
    ensures Window(Flat(bufs'), gone, stream)
  {
    hide Flat, Window;
    FlatAppend(bufs, bufs'[|bufs|..]);
    assert bufs' == bufs + bufs'[|bufs|..];
    WindowGrow(Flat(bufs), gone, stream, Flat(bufs'[|bufs|..]));
  }

  lemma WindowDrop(content: seq<byte>, gone: nat, stream: seq<byte>, k: nat)
    requires Window(content, gone, stream) && k <= |stream| - gone
    ensures Window(content[k..], gone + k, stream)
  {
    var n := |stream| - gone;
    assert content[k..][..n - k] == content[..n][k..];
    assert stream[gone..][k..] == stream[gone + k..];
  }

  lemma WindowRead(content: seq<byte>, gone: nat, stream: seq<byte>, at: nat, n: nat)
    requires Window(content, gone, stream) && gone <= at && at + n <= |stream|
    ensures content[at - gone..at - gone + n] == stream[at..at + n]
  {
    var k := |stream| - gone;
    SubSlice(content, 0, k, at - gone, at - gone + n);
    SubSlice(stream, gone, |stream|, at - gone, at - gone + n);
    assert content[0..k] == content[..k] && stream[gone..|stream|] == stream[gone..];
  }

  ghost predicate MarkerOk(size: nat, m: Marker, gone: nat, length: nat) {
    m.pos.off < size && Abs(size, m.pos) == m.written && gone <= m.written <= length
  }

  /** The open markers, outermost first. */
  ghost predicate Nested(size: nat, open: seq<Marker>, gone: nat, length: nat) {
    && (forall i :: 0 <= i < |open| ==> MarkerOk(size, open[i], gone, length))
    && (forall i, j :: 0 <= i <= j < |open| ==> open[i].written <= open[j].written)
  }

  /** Nothing may be sent from the first open marker on. */
  ghost function Floor(open: seq<Marker>, length: nat): nat {
    if open == [] then length else open[0].written
  }

  lemma NestedGrow(size: nat, open: seq<Marker>, gone: nat, length: nat, more: nat)
    requires Nested(size, open, gone, length)
    ensures Nested(size, open, gone, length + more)
    ensures gone <= length ==> gone <= Floor(open, length) <= Floor(open, length + more)
  {
    if open != [] {
      assert MarkerOk(size, open[0], gone, length);
    }
  }

  lemma NestedDrop(size: nat, open: seq<Marker>, gone: nat, gone': nat, length: nat)
    requires Nested(size, open, gone, length) && gone' <= Floor(open, length)
    ensures Nested(size, open, gone', length)
  {
    forall i | 0 <= i < |open| ensures MarkerOk(size, open[i], gone', length) {
      assert MarkerOk(size, open[i], gone, length);
    }
  }

  lemma NestedOpen(size: nat, open: seq<Marker>, gone: nat, m: Marker)
    requires Nested(size, open, gone, m.written) && MarkerOk(size, m, gone, m.written)
    ensures Nested(size, open + [m], gone, m.written)
    ensures Floor(open + [m], m.written) == Floor(open, m.written)
  {
    forall i | 0 <= i < |open| ensures open[i].written <= m.written {
      assert MarkerOk(size, open[i], gone, m.written);
    }
  }

  lemma NestedClose(size: nat, open: seq<Marker>, gone: nat, length: nat)
    requires Nested(size, open, gone, length) && open != []
    ensures var m := open[|open| - 1];
      && MarkerOk(size, m, gone, length) && Floor(open, length) <= m.written
      && Nested(size, open[..|open| - 1], gone, length)
      && Floor(open, length) <= Floor(open[..|open| - 1], length)
  {
    assert MarkerOk(size, open[0], gone, length);
  }

  lemma FloorWithin(size: nat, open: seq<Marker>, gone: nat, length: nat)
    requires Nested(size, open, gone, length)
    ensures Floor(open, length) <= length
  {
    if open != [] {
      assert MarkerOk(size, open[0], gone, length);
    }
  }

  lemma WindowSize(content: seq<byte>, gone: nat, stream: seq<byte>)
    requires Window(content, gone, stream)
    ensures gone <= |stream| <= gone + |content|
  {
  }

  lemma HeldUp(size: nat, k: nat, n: nat)
    requires size > 0 && Start(size, k) <= n
    ensures k <= n / size
  {
    if k > n / size {
      assert (n / size + 1) * size > n;
      StartSum(size, n / size + 1, k - (n / size + 1));
    }
  }

  class Track {
    const queue: BufQueue
    var pos: nat                   // the active buffer is the last one in use; its bytes
    var last: nat                  // before pos were handed out, those before last written
    var end: nat
    var written: nat
    var sendBlocked: nat
    var sendPending: bool
    var writeError: bool
    var upstreams: seq<Upstream>

    ghost var stream: seq<byte>    // everything written
    ghost var open: seq<Marker>

    ghost function Size(): nat { queue.usedSize }

    ghost function Gone(): nat
      reads queue`base
    {
      Start(Size(), queue.base)
    }

    ghost predicate Tail()
      reads this`pos, this`last, this`end, this`stream, queue`bufs, queue`base
    {
      if queue.bufs == [] then queue.base == 0 && pos == last == end == 0 && stream == []
      else pos <= last <= end == Size() && |stream| == Start(Size(), queue.base + |queue.bufs| - 1) + last
    }

    ghost predicate Stored()
      reads this`stream, queue`bufs, queue`base
    {
      Window(queue.Content(), Gone(), stream)
    }

    ghost predicate Blocked()
      reads this`sendBlocked, this`open, this`stream, queue`base, queue`bufs
    {
      sendBlocked == |open| && Nested(Size(), open, Gone(), |stream|) && (open != [] ==> queue.bufs != [])
    }

    ghost predicate Feeding(floor: nat)
      reads this`upstreams, this`stream, queue`base
    {
      AllFed(Size(), upstreams, stream, Gone(), floor) && Ordered(Size(), upstreams)
    }

    /** Holds at all times, also after an error. */
    ghost predicate Safe()
      reads this`pos, this`last, this`end, this`written, this`sendBlocked, this`upstreams, this`stream, this`open, queue
    {
      && queue.Valid() && written == |stream| && Tail() && Stored() && Blocked()
      && Feeding(Floor(open, |stream|))
    }

    /** How much has been handed to the upstreams. */
    ghost function HandedOut(): int
      reads this`pos, this`last, this`stream
    {
      |stream| - (last - pos)
    }

    ghost predicate AllHanded()
      reads this`upstreams, this`pos, this`last, this`stream
    {
      HandedOut() >= 0 && Handed(Size(), upstreams, 0, HandedOut(), HandedOut())
    }

    /** What connections take has been sent, or sending is due. */
    ghost predicate Timely()
      reads this`upstreams, this`pos, this`last, this`stream, this`sendPending
    {
      Prompt(upstreams, HandedOut(), sendPending)
    }

    /** Between operations: no error, and room in the active buffer, if there is one. */
    ghost predicate Valid()
      reads this, queue
    {
      Safe() && AllHanded() && Timely() && !writeError && (queue.bufs != [] ==> last < end)
    }

    /** The only reasons to fail: a connection refuses data, or the memory limit. */
    ghost predicate Stuck()
      reads this`upstreams, queue`memLeft
    {
      Broken(upstreams) || queue.memLeft < queue.AllocSize()
    }

    lemma BrokenIsStuck()
      requires Broken(upstreams)
      ensures Stuck()
    {
    }

    /** The part of the stream that may be sent: up to the first open marker. */
    ghost function Sendable(): seq<byte>
      reads this`stream, this`open
    {
      var n := Floor(open, |stream|);
      if n <= |stream| then stream[..n] else stream
    }

    /** At any time, whatever errors there were, an upstream has sent a part of it. */
    lemma WireSendable(i: nat)
      requires Safe() && i < |upstreams|
      ensures upstreams[i].wire <= Sendable()
    {
      hide Nested, Stored, Tail, Start, Ordered, queue.Valid, Tiles, Reach;
      FloorWithin(Size(), open, Gone(), |stream|);
      assert Fed(Size(), upstreams[i], stream, Gone(), Floor(open, |stream|));
    }

    lemma SendableWithin(all: seq<byte>)
      requires stream <= all
      ensures Sendable() <= all
    {
    }

    /** Nothing behind an open marker may be sent. */
    lemma SendableBefore(before: seq<byte>)
      requires Safe() && open != [] && open[|open| - 1].written == |before| && before <= stream
      ensures Sendable() <= before
    {
      hide Nested, Stored, Tail, Start, Feeding, queue.Valid;
      NestedClose(Size(), open, Gone(), |stream|);
    }

    /** Memory for a stream of n bytes, wherever its buffers are held up. */
    ghost predicate Ample(n: nat) {
      Size() > 0 && Start(queue.AllocSize(), n / Size() + 2 + queue.maxFree) <= queue.memLimit
    }

    lemma EnoughMemory(n: nat)
      requires Safe() && Ample(n) && |stream| <= n
      ensures queue.memLeft >= queue.AllocSize()
    {
      hide Start, Stored, Blocked, Feeding, Uniform, AllNodes;
      var k := |queue.bufs|;
      if k > 0 {
        StartSum(Size(), queue.base, k - 1);
        HeldUp(Size(), k - 1, n);
      }
      assert queue.nbuffers + 1 <= n / Size() + 2 + queue.maxFree;
      StartNext(queue.AllocSize(), queue.nbuffers);
      StartSum(queue.AllocSize(), queue.nbuffers + 1, n / Size() + 2 + queue.maxFree - (queue.nbuffers + 1));
    }

    /** Upstreams joining before anything is written. */
    constructor (queue: BufQueue, upstreams: seq<Upstream>)
      requires queue.Valid() && queue.used == [] && queue.base == 0
      requires forall i :: 0 <= i < |upstreams| ==>
        upstreams[i].ranges == [] && upstreams[i].wire == [] && upstreams[i].ackedPos == Pos(0, 0)
      ensures Valid() && this.queue == queue && stream == [] && open == [] && this.upstreams == upstreams
    {
      this.queue, this.upstreams := queue, upstreams;
      pos, last, end, written, sendBlocked, sendPending, writeError := 0, 0, 0, 0, 0, false, false;
      stream, open := [], [];
    }

    /** Hands the pending bytes of the active buffer to every upstream; the result is the
        position of the upstream that acknowledged least. */
    method HandOut(r: Range, ghost floor: nat) returns (ok: bool, limit: Option<Pos>, ghost least: nat)
      requires Feeding(floor) && AllHanded() && r.from < r.to <= Size()
      requires HandedOut() == Start(Size(), r.node) + r.from && Start(Size(), r.node) + r.to == |stream|
      modifies this`upstreams, this`sendPending
      ensures Feeding(floor) && Kept(old(upstreams), upstreams, |stream|)
      ensures Broken(upstreams) == Broken(old(upstreams)) && (!ok ==> Broken(upstreams))
      ensures ok ==> sendPending || forall i :: 0 <= i < |upstreams| ==> !upstreams[i].ready
      ensures ok && limit == None ==> forall i :: 0 <= i < |upstreams| ==> upstreams[i].ackedId == MAX_ID
      ensures ok ==> Handed(Size(), upstreams, 0, |stream|, |stream|)
      ensures ok && limit.Some? ==>
        && least < |upstreams| && upstreams[least].ackedPos == limit.value
        && forall i :: 0 <= i < |upstreams| ==> upstreams[least].ackedId <= upstreams[i].ackedId
    {
      hide AllFed, Ordered, Handed, Start, Reach, Broken, Kept;
      limit, least := None, 0;
      var minAckedId: u64 := MAX_ID;
      KeptRefl(upstreams, |stream|);
      HandedStart(Size(), upstreams, HandedOut(), |stream|);
      var i := 0;
      while i < |upstreams|
        invariant i <= |upstreams| == |old(upstreams)| && Feeding(floor) && Broken(upstreams) == Broken(old(upstreams))
        invariant Handed(Size(), upstreams, i, HandedOut(), |stream|) && Kept(old(upstreams), upstreams, |stream|)
        invariant sendPending || forall j :: 0 <= j < i ==> !upstreams[j].ready
        invariant limit == None ==> minAckedId == MAX_ID
        invariant limit.Some? ==>
          least < i && upstreams[least].ackedPos == limit.value && upstreams[least].ackedId == minAckedId
        invariant forall j :: 0 <= j < i ==> minAckedId <= upstreams[j].ackedId
      {
        if upstreams[i].appendFails {
          BrokenOne(upstreams, i);
          return false, limit, least;
        }
        Append(Size(), upstreams, i, r, stream, Gone(), floor, HandedOut(), |stream|);
        BrokenSame(upstreams, i, upstreams[i].(ranges := upstreams[i].ranges + [r]));
        KeptStep(old(upstreams), upstreams, i, upstreams[i].(ranges := upstreams[i].ranges + [r]), |stream|);
        upstreams := upstreams[i := upstreams[i].(ranges := upstreams[i].ranges + [r])];
        if upstreams[i].ackedId < minAckedId {
          limit, minAckedId, least := Some(upstreams[i].ackedPos), upstreams[i].ackedId, i;
        }
        if upstreams[i].ready {
          sendPending := true;
        }
        i := i + 1;
      }
      AllHandedOver(Size(), upstreams, HandedOut(), |stream|);
      ok := true;
    }

    /** What is sent lies in the queue. */
    lemma LimitInside(limit: Pos, floor: nat)
      requires queue.usedSize > 0 && queue.bufs != [] && limit.off < Size() && Gone() <= Abs(Size(), limit) <= floor
      requires floor < Start(Size(), queue.base + |queue.bufs| - 1) + Size()
      ensures queue.Inside(limit)
    {
      hide Start;
      StartOrder(Size(), queue.base, 0, limit.node, limit.off);
      StartOrder(Size(), limit.node, limit.off, queue.base + |queue.bufs| - 1, Size() - 1);
    }

    lemma DropFirst(k: nat)
      requires Uniform(queue.bufs, queue.usedSize) && Stored() && k < |queue.bufs|
      requires Start(Size(), queue.base + k) <= |stream|
      ensures Window(Flat(queue.bufs[k..]), Start(Size(), queue.base + k), stream)
    {
      hide Start, Window, Flat;
      var bufs := queue.bufs;
      FlatCut(bufs, k);
      UniformPart(bufs, Size(), k);
      FlatSize(bufs[..k], Size());
      StartSum(Size(), queue.base, k);
      assert Flat(bufs)[Start(Size(), k)..] == Flat(bufs[k..]);
      WindowDrop(Flat(bufs), Gone(), stream, Start(Size(), k));
    }

    /** Frees the buffers before the least acknowledged position. */
    method FreeAcked(limit: Pos, ghost least: nat, ghost floor: nat)
      requires queue.Valid() && Tail() && Stored() && Blocked() && queue.bufs != []
      requires Feeding(floor) && floor <= Floor(open, |stream|) &&
        floor < Start(Size(), queue.base + |queue.bufs| - 1) + Size()
      requires least < |upstreams| && upstreams[least].ackedPos == limit
      requires forall i :: 0 <= i < |upstreams| ==> upstreams[least].ackedId <= upstreams[i].ackedId
      modifies queue
      ensures queue.Valid() && Tail() && Stored() && Blocked() && queue.bufs != []
      ensures Feeding(floor) && queue.base + |queue.bufs| == old(queue.base + |queue.bufs|) && queue.base == limit.node
    {
      hide AllFed, Ordered, Start, Window, Nested, Flat, Floor;
      FedOne(Size(), upstreams, least, stream, Gone(), floor);
      LimitInside(limit, floor);
      FloorWithin(Size(), open, Gone(), |stream|);
      Release(Size(), upstreams, least, stream, Gone(), floor);
      DropFirst(limit.node - queue.base);
      NestedDrop(Size(), open, Gone(), Start(Size(), limit.node), |stream|);
      FreeTo(limit);
    }

    method FreeTo(limit: Pos)
      requires queue.Valid() && queue.Inside(limit)
      modifies queue
      ensures queue.Valid() && queue.base == limit.node && queue.bufs == old(queue.bufs)[limit.node - old(queue.base)..]
    {
      queue.Free(limit);
    }

    /** Nothing is kept in front of the least acknowledged position. */
    ghost predicate Freed()
      reads this`upstreams, queue`base
    {
      forall m :: 0 <= m < |upstreams| && upstreams[m].ackedId < MAX_ID && LeastAcked(upstreams, m) ==>
        queue.base == upstreams[m].ackedPos.node
    }

    lemma FreedHere(least: nat)
      requires AllFed(Size(), upstreams, stream, Gone(), |stream|) && Ordered(Size(), upstreams)
      requires least < |upstreams| && LeastAcked(upstreams, least) && queue.base == upstreams[least].ackedPos.node
      ensures Freed()
    {
      hide Start, Fed;
      forall m | 0 <= m < |upstreams| && upstreams[m].ackedId < MAX_ID && LeastAcked(upstreams, m)
        ensures queue.base == upstreams[m].ackedPos.node
      {
        SamePlaces(Size(), upstreams, m, least, stream, Gone(), |stream|);
      }
    }

    /** Hands out what is pending, then frees what every upstream has acknowledged. */
    method AppendAll() returns (ok: bool)
      requires Safe() && AllHanded() && Timely()
      modifies this`upstreams, this`sendPending, this`pos, queue
      ensures Safe() && (queue.bufs == [] <==> old(queue.bufs) == [])
      ensures Broken(upstreams) == Broken(old(upstreams)) && if ok then AllHanded() &&
        pos == last else Broken(upstreams)
      ensures Kept(old(upstreams), upstreams, |stream|) && (ok ==> Timely())
      ensures ok && old(pos < last) ==> Freed()
      ensures old(pos == last) ==>
        ok && upstreams == old(upstreams) && sendPending == old(sendPending) && queue.base == old(queue.base)
    {
      hide Broken, Feeding, Start, Window, Nested, queue.Valid, Handed, Kept, Freed;
      if last <= pos {
        KeptRefl(upstreams, |stream|);
        return true;
      }
      var r := Range(queue.base + |queue.bufs| - 1, pos, last);
      ghost var floor := Least(Floor(open, |stream|), HandedOut());
      LowerFloor();
      var limit;
      ghost var least;
      ok, limit, least := HandOut(r, floor);
      if !ok {
        RaiseFloor(floor);
        return;
      }
      pos := last;
      if limit.Some? {
        FreeAcked(limit.value, least, floor);
        AllFreed(floor, least);
      } else {
        NoneFreed();
      }
      RaiseFloor(floor);
    }

    lemma AllFreed(floor: nat, least: nat)
      requires Feeding(floor) && floor <= |stream|
      requires least < |upstreams| && LeastAcked(upstreams, least) && queue.base == upstreams[least].ackedPos.node
      ensures Freed()
    {
      hide AllFed, Ordered, Freed, Start;
      Block(Size(), upstreams, stream, Gone(), floor, |stream|);
      FreedHere(least);
    }

    lemma NoneFreed()
      requires forall i :: 0 <= i < |upstreams| ==> upstreams[i].ackedId == MAX_ID
      ensures Freed()
    {
    }

    lemma LowerFloor()
      requires Feeding(Floor(open, |stream|)) && AllHanded()
      ensures Feeding(Least(Floor(open, |stream|), HandedOut()))
    {
      Lower(Size(), upstreams, stream, Gone(), Floor(open, |stream|), HandedOut());
    }

    lemma RaiseFloor(floor: nat)
      requires Feeding(floor) && floor <= Floor(open, |stream|)
      ensures Feeding(Floor(open, |stream|))
    {
      Block(Size(), upstreams, stream, Gone(), floor, Floor(open, |stream|));
    }

    /** Upstream k sends from the buffers handed to it, as much as the connection takes. */
    method SendOne(k: nat) returns (ok: bool)
      requires Stored() && Feeding(|stream|) && AllHanded() && k < |upstreams|
      modifies this`upstreams
      ensures Feeding(|stream|) && AllHanded()
      ensures ok == !old(upstreams[k].sendFails) && Broken(upstreams) == Broken(old(upstreams))
      ensures old(|upstreams[k].wire|) <= HandedOut() <= |stream|
      ensures upstreams == if ok then old(upstreams)[k := Sends(old(upstreams[k]), stream,
        HandedOut())] else old(upstreams)
    {
      hide AllFed, Ordered, Handed, Start, Window, Flat, Broken;
      FedOne(Size(), upstreams, k, stream, Gone(), |stream|);
      HandedOne(Size(), upstreams, k, HandedOut());
      var u := upstreams[k];
      if u.sendFails {
        return false;
      }
      var gone := Start(queue.usedSize, queue.base);
      var handed := Reach(queue.usedSize, u.ranges);
      var n := SendSize(u, handed);
      WindowRead(queue.Content(), gone, stream, |u.wire|, n);
      WindowSize(queue.Content(), gone, stream);
      var ready := u.ready && |u.wire| + n == handed;
      Send(Size(), upstreams, k, n, ready, stream, gone, |stream|, HandedOut());
      var bytes := Flat(queue.bufs)[|u.wire| - gone..|u.wire| - gone + n];
      BrokenSame(upstreams, k, u.(wire := u.wire + bytes, ready := ready));
      upstreams := upstreams[k := u.(wire := u.wire + bytes, ready := ready)];
      ok := true;
    }

    /** Sends what is pending, unless a marker is open: each upstream as much as its
        connection takes. */
    method SendAll() returns (ok: bool)
      requires Safe() && AllHanded() && Timely()
      modifies this`upstreams, this`sendPending
      ensures Safe() && AllHanded() && (ok ==> Timely()) && Kept(old(upstreams), upstreams, |stream|)
      ensures open != [] || !old(sendPending) ==> ok && upstreams == old(upstreams) && sendPending == old(sendPending)
      ensures ok && open == [] ==> !sendPending
      ensures ok && open == [] && old(sendPending) ==>
        HandedOut() >= 0 && SentTo(old(upstreams), upstreams, |upstreams|, stream, HandedOut())
      ensures Broken(upstreams) == Broken(old(upstreams)) && (!ok ==> Broken(upstreams))
    {
      hide Broken, Feeding, Start, Window, queue.Valid, Handed, Nested, Kept, SentTo, Prompt;
      KeptRefl(upstreams, |stream|);
      if !sendPending || sendBlocked > 0 {
        return true;
      }
      sendPending := false;
      ok := SendEach();
    }

    method SendEach() returns (ok: bool)
      requires Stored() && Feeding(|stream|) && AllHanded()
      modifies this`upstreams
      ensures Feeding(|stream|) && AllHanded() && Kept(old(upstreams), upstreams, |stream|)
      ensures Broken(upstreams) == Broken(old(upstreams)) && (!ok ==> Broken(upstreams))
      ensures ok ==>
        SentTo(old(upstreams), upstreams, |upstreams|, stream, HandedOut()) && Prompt(upstreams, HandedOut(), false)
    {
      hide Broken, Feeding, Start, Window, Handed, Kept, SentTo, Sends, Stays, Prompt;
      KeptRefl(upstreams, |stream|);
      SentNone(upstreams, stream, HandedOut());
      var i := 0;
      while i < |upstreams|
        invariant i <= |upstreams| == |old(upstreams)| && Feeding(|stream|) && AllHanded()
        invariant Broken(upstreams) == Broken(old(upstreams)) && Kept(old(upstreams), upstreams, |stream|)
        invariant SentTo(old(upstreams), upstreams, i, stream, HandedOut())
      {
        if upstreams[i].sendFails {
          BrokenOne(upstreams, i);
        }
        ghost var us := upstreams;
        SentSame(old(upstreams), us, i, stream, HandedOut());
        ok := SendOne(i);
        if !ok {
          return;
        }
        SendKept(us[i], stream, HandedOut());
        KeptStep(old(upstreams), us, i, upstreams[i], |stream|);
        SentNext(old(upstreams), us, i, stream, HandedOut());
        i := i + 1;
      }
      SentPrompt(old(upstreams), upstreams, stream, HandedOut());
      ok := true;
    }

    /** Hands out and sends what is pending: then a connection that is still ready has taken
        everything written. */
    method Flush() returns (ok: bool)
      requires Valid()
      modifies this`upstreams, this`sendPending, this`pos, queue
      ensures Safe() && if ok then Valid() && pos == last else Broken(upstreams)
      ensures Broken(upstreams) == Broken(old(upstreams)) && Kept(old(upstreams), upstreams, |stream|)
      ensures ok && old(pos < last) ==> Freed()
      ensures ok && open == [] ==> forall i :: 0 <= i < |upstreams| && upstreams[i].ready ==>
        upstreams[i].wire == stream
    {
      hide Broken, Feeding, Start, Window, queue.Valid, Handed, Nested, Kept, Prompt;
      ok := AppendAll();
      if !ok {
        return;
      }
      ghost var us := upstreams;
      ok := SendAll();
      KeptTrans(old(upstreams), us, upstreams, |stream|, |stream|);
      FreedKept(us);
      if ok && open == [] {
        ReadySent();
      }
    }

    lemma FreedKept(us: seq<Upstream>)
      requires Kept(us, upstreams, |stream|)
      ensures (forall m :: 0 <= m < |us| && us[m].ackedId < MAX_ID && LeastAcked(us, m) ==>
        queue.base == us[m].ackedPos.node)
        ==> Freed()
    {
      assert forall i :: 0 <= i < |us| ==> Stays(us[i], upstreams[i], |stream|);
      forall m | 0 <= m < |upstreams| && LeastAcked(upstreams, m) ensures LeastAcked(us, m) {
      }
    }

    /** With nothing due, a ready upstream has sent all it was handed. */
    lemma ReadySent()
      requires Safe() && AllHanded() && Prompt(upstreams, HandedOut(), false)
      ensures forall i :: 0 <= i < |upstreams| && upstreams[i].ready ==> upstreams[i].wire == stream[..HandedOut()]
    {
      hide Stored, Tail, Blocked, queue.Valid, Start, Tiles, Reach, Ordered;
      forall i | 0 <= i < |upstreams| && upstreams[i].ready ensures upstreams[i].wire == stream[..HandedOut()] {
        HandedOne(Size(), upstreams, i, HandedOut());
        assert Fed(Size(), upstreams[i], stream, Gone(), Floor(open, |stream|));
      }
    }

    /** Copies bytes into the active buffer. */
    method Put(data: seq<byte>)
      requires Safe() && AllHanded() && Timely() && queue.bufs != [] && last + |data| <= end
      modifies this`last, this`written, this`stream, queue`bufs
      ensures Safe() && AllHanded() && Timely() && queue.bufs != [] && stream == old(stream) + data &&
        last == old(last) + |data|
    {
      hide AllFed, Ordered, Start, Window, Nested, Handed, Flat, Floor, queue.Valid, Prompt;
      ghost var node := queue.base + |queue.bufs| - 1;
      PutPlace();
      WindowPut(queue.Content(), Gone(), stream, data);
      NestedGrow(Size(), open, Gone(), |stream|, |data|);
      WindowSize(queue.Content(), Gone(), stream);
      Grow(Size(), upstreams, stream, data, Gone(), Floor(open, |stream|), Floor(open, |stream| + |data|));
      queue.WriteBuf(|queue.bufs| - 1, last, data);
      stream := stream + data;
      last, written := last + |data|, written + |data|;
    }

    /** The stream ends where the active buffer is filled to. */
    lemma PutPlace()
      requires queue.Valid() && Tail() && queue.bufs != []
      ensures |stream| - Gone() == Start(Size(), |queue.bufs| - 1) + last
      ensures |queue.Content()| == Start(Size(), |queue.bufs| - 1) + Size()
    {
      hide Start, Flat, Uniform;
      StartSum(Size(), queue.base, |queue.bufs| - 1);
      FlatSize(queue.bufs, Size());
      StartNext(Size(), |queue.bufs| - 1);
    }

    /** The active buffer is full, or there is none yet: hands it out and takes another. */
    method Roll() returns (ok: bool)
      requires Safe() && AllHanded() && Timely() && last >= end
      modifies this`upstreams, this`sendPending, this`pos, this`last, this`end, queue
      ensures Safe() && (ok ==> AllHanded() && Timely() && queue.bufs != [] && last < end)
      ensures Broken(upstreams) == Broken(old(upstreams)) && Kept(old(upstreams), upstreams, |stream|) &&
        (!ok ==> Stuck())
    {
      hide Broken, Feeding, Start, Window, Nested, queue.Valid, Handed, Kept, Freed, Prompt;
      ok := AppendAll();
      if !ok {
        return;
      }
      ok := NextBuf();
    }

    method TakeBuf() returns (ok: bool)
      requires queue.Valid() && Stored()
      modifies queue
      ensures queue.Valid() && Stored() && queue.base == old(queue.base)
      ensures |queue.bufs| == |old(queue.bufs)| + if ok then 1 else 0
      ensures !ok ==> queue.memLeft < queue.AllocSize()
    {
      hide Start, Window, Flat, Uniform;
      ghost var bufs := queue.bufs;
      ok := queue.Get();
      if ok {
        WindowMore(bufs, queue.bufs, Gone(), stream);
      }
    }

    method NextBuf() returns (ok: bool)
      requires Safe() && AllHanded() && Timely() && last >= end && pos == last
      modifies this`pos, this`last, this`end, queue
      ensures Safe() && if ok then AllHanded() && Timely() && queue.bufs != [] &&
        last < end else queue.memLeft < queue.AllocSize()
    {
      hide Feeding, Start, Stored, Nested, Handed, queue.Counted, Uniform, Prompt;
      StartNext(Size(), if queue.bufs == [] then 0 else queue.base + |queue.bufs| - 1);
      ok := TakeBuf();
      if !ok {
        return;
      }
      pos, last, end := 0, 0, queue.usedSize;
    }

    /** Copies what fits, and takes another buffer if there is no room left. */
    method Fill(data: seq<byte>) returns (ok: bool, n: nat)
      requires Safe() && AllHanded() && Timely() && last <= end && (queue.bufs == [] ==> last == end)
      modifies this`pos, this`last, this`end, this`written, this`sendPending, this`upstreams, this`stream, queue
      ensures Safe() && (ok ==> AllHanded() && Timely() && queue.bufs != [] && last < end)
      ensures n == Least(old(end) - old(last), |data|) && stream == old(stream) + data[..n]
      ensures Broken(upstreams) == Broken(old(upstreams)) && Kept(old(upstreams), upstreams, |stream|) &&
        (!ok ==> Stuck())
    {
      hide Broken, Feeding, Stored, Blocked, queue.Valid, Handed, Kept, Prompt;
      n := Least(end - last, |data|);
      if n > 0 {
        Put(data[..n]);
      }
      ok := true;
      if last >= end {
        ok := Roll();
      } else {
        KeptRefl(upstreams, |stream|);
      }
    }

    lemma Room()
      requires Valid()
      ensures if queue.bufs == [] then last == end && stream == [] else last < end
    {
    }

    /** Writes a chain of input buffers, the first from `off` on. */
    method WriteChain(input: seq<seq<byte>>, off: nat) returns (ok: bool)
      requires Valid() && input != [] && off <= |input[0]|
      modifies this`pos, this`last, this`end, this`written, this`sendPending, this`writeError, this`upstreams,
        this`stream, queue
      ensures Safe() && writeError == !ok && (ok ==> Valid() && stream == old(stream) + From(input, 0, off))
      ensures !ok ==> old(stream) <= stream <= old(stream) + From(input, 0, off)
      ensures ok && (stream != [] || old(queue.bufs) != []) ==> queue.bufs != []
      ensures Broken(upstreams) == Broken(old(upstreams)) && (!ok ==> Stuck())
      ensures Kept(old(upstreams), upstreams, |stream|) && (ok && open == [] ==> !sendPending)
    {
      hide Broken, Safe, AllHanded, From, Kept, Timely;
      Room();
      var i: nat, p: nat := 0, off;
      KeptRefl(upstreams, |stream|);
      ghost var target := stream + From(input, 0, off);
      while true
        invariant Broken(upstreams) == Broken(old(upstreams)) && Kept(old(upstreams), upstreams, |stream|)
        invariant Safe() && AllHanded() && Timely() && !writeError
        invariant if queue.bufs == [] then last == end && stream == [] && old(queue.bufs) == [] else last < end
        invariant i < |input| && p <= |input[i]| && old(stream) <= stream && stream + From(input, i, p) == target
        decreases |target| - |stream|, if queue.bufs == [] then 1 else 0
      {
        i, p := PassEmpty(input, i, p);
        ghost var us, n0 := upstreams, |stream|;
        if p >= |input[i]| {
          assert stream == target;
          ok := SendAll();
          KeptTrans(old(upstreams), us, upstreams, n0, |stream|);
          writeError := !ok;
          return;
        }
        var n;
        ok, n := Fill(input[i][p..]);
        KeptTrans(old(upstreams), us, upstreams, n0, |stream|);
        FromSplit(input, i, p, n);
        assert input[i][p..][..n] == input[i][p..p + n];
        p := p + n;
        if !ok {
          writeError := true;
          return;
        }
      }
    }

    method Write(data: seq<byte>) returns (ok: bool)
      requires Valid()
      modifies this`pos, this`last, this`end, this`written, this`sendPending, this`writeError, this`upstreams,
        this`stream, queue
      ensures Safe() && writeError == !ok && (ok ==> Valid() && stream == old(stream) + data)
      ensures !ok ==> old(stream) <= stream <= old(stream) + data
      ensures Broken(upstreams) == Broken(old(upstreams)) && (!ok ==> Stuck())
      ensures Kept(old(upstreams), upstreams, |stream|) && (ok && open == [] ==> !sendPending)
      ensures ok && (stream != [] || old(queue.bufs) != []) ==> queue.bufs != []
    {
      hide Safe, AllHanded, From, Broken, Kept, Timely;
      FromOne(data);
      ok := WriteChain([data], 0);
    }

    /** Remembers where the stream ends; nothing is sent from here on until the marker ends. */
    method MarkerStart() returns (m: Marker)
      requires Valid() && queue.bufs != []
      modifies this`sendBlocked, this`open
      ensures Valid() && open == old(open) + [m] && m.written == |stream|
    {
      hide Start, AllFed, Ordered, Handed, Window, Nested, queue.Valid, Floor, Prompt;
      m := Marker(Pos(queue.base + |queue.bufs| - 1, last), written);
      WindowSize(queue.Content(), Gone(), stream);
      NestedOpen(Size(), open, Gone(), m);
      sendBlocked := sendBlocked + 1;
      open := open + [m];
    }

    /** Fills in what was left out at the innermost marker: exactly those bytes change, in
        whichever buffers they are, and none of them had been sent. */
    method MarkerEnd(m: Marker, data: seq<byte>) returns (ok: bool)
      requires Valid() && open != [] && m == open[|open| - 1] && m.written + |data| <= |stream|
      modifies this`sendBlocked, this`open, this`stream, this`upstreams, this`sendPending, queue`bufs
      ensures Safe() && (if ok then Valid() else Broken(upstreams))
      ensures stream == Splice(old(stream), m.written, data) && open == old(open)[..|old(open)| - 1]
      ensures queue.bufs == [] ==> old(queue.bufs) == []
      ensures Broken(upstreams) == Broken(old(upstreams)) && Kept(old(upstreams), upstreams, |stream|) &&
        (ok && open == [] ==> !sendPending)
    {
      hide Feeding, Stored, Start, Handed, Nested, queue.Valid, Broken, Splice, Kept, Prompt, SentTo;
      ok := Patch(m, data);
      if !ok {
        assert false;                  // write failed
      }
      Unblock();
      ok := SendAll();
    }

    method Patch(m: Marker, data: seq<byte>) returns (ok: bool)
      requires Safe() && AllHanded() && Timely() && open != [] && m == open[|open| - 1] &&
        m.written + |data| <= |stream|
      requires queue.bufs != [] ==> last < end
      modifies this`stream, queue`bufs
      ensures ok && Safe() && AllHanded() && Timely() && |queue.bufs| == |old(queue.bufs)|
      ensures stream == Splice(old(stream), m.written, data)
    {
      hide AllFed, Ordered, Start, Handed, Window, Nested, Floor, Splice, Flat, queue.Valid, Prompt;
      NestedClose(Size(), open, Gone(), |stream|);
      PatchPlace(m);
      WindowPatch(queue.Content(), Gone(), stream, m.written, data);
      KmpUpstreams.Patch(Size(), upstreams, stream, m.written, data, Gone(), Floor(open, |stream|));
      var q;
      ok, q := queue.StreamWrite(m.pos, data);
      stream := Splice(stream, m.written, data);
    }

    /** An open marker points into the queue, before the end of what is stored. */
    lemma PatchPlace(m: Marker)
      requires queue.Valid() && Tail() && (queue.bufs != [] ==> last < end) && MarkerOk(Size(), m, Gone(), |stream|)
      requires queue.bufs != []
      ensures queue.Inside(m.pos) && queue.At(m.pos) == m.written - Gone()
      ensures |stream| - Gone() < |queue.Content()|
    {
      hide Start, Flat, Uniform;
      PutPlace();
      StartOrder(Size(), queue.base, 0, m.pos.node, m.pos.off);
      StartOrder(Size(), m.pos.node, m.pos.off, queue.base + |queue.bufs| - 1, last);
      StartSum(Size(), queue.base, m.pos.node - queue.base);
    }

    /** Closes the innermost marker. */
    method Unblock()
      requires Safe() && AllHanded() && Timely() && open != []
      modifies this`sendBlocked, this`open
      ensures Safe() && AllHanded() && Timely() && open == old(open)[..|old(open)| - 1]
    {
      hide AllFed, Ordered, Start, Handed, Stored, Nested, Floor, queue.Valid, Prompt;
      NestedClose(Size(), open, Gone(), |stream|);
      Block(Size(), upstreams, stream, Gone(), Floor(open, |stream|), Floor(open[..|open| - 1], |stream|));
      sendBlocked := sendBlocked - 1;
      open := open[..|open| - 1];
    }

    method WriteMediaInfo(info: MediaInfo, extraData: seq<byte>) returns (ok: bool)
      requires Valid() && |info.params| == 16 && |extraData| < U32
      modifies this`pos, this`last, this`end, this`written, this`sendPending, this`writeError, this`upstreams,
        this`stream, queue
      ensures Safe() && (ok ==> Valid() && stream == old(stream) + MediaInfoPacket(info, extraData) && queue.bufs != [])
      ensures !ok ==> old(stream) <= stream <= old(stream) + MediaInfoPacket(info, extraData)
      ensures Broken(upstreams) == Broken(old(upstreams)) && (!ok ==> Stuck())
      ensures Kept(old(upstreams), upstreams, |stream|) && (ok && open == [] ==> !sendPending)
    {
      hide Safe, AllHanded, Broken, EncHeader, EncMediaInfo, Stuck, Kept, Timely;
      var header := Header(PACKET_MEDIA_INFO, HDR_SIZE + MEDIA_INFO_SIZE, |extraData|, 0);
      ghost var h, m := EncHeader(header), EncMediaInfo(info);
      ok := Write(EncHeader(header));
      if !ok {
        PrefixMore(stream, old(stream), h, m + extraData);
        return;
      }
      ghost var us, n0 := upstreams, |stream|;
      ok := Write(EncMediaInfo(info));
      KeptTrans(old(upstreams), us, upstreams, n0, |stream|);
      us, n0 := upstreams, |stream|;
      if !ok {
        PrefixMore(stream, old(stream) + h, m, extraData);
        return;
      }
      ok := Write(extraData);
      KeptTrans(old(upstreams), us, upstreams, n0, |stream|);
    }

    /** Writes a frame whose header the caller filled in. */
    method WriteFrame(header: Header, frame: Frame, input: seq<seq<byte>>, off: nat) returns (ok: bool)
      requires Valid() && input != [] && off <= |input[0]|
      modifies this`pos, this`last, this`end, this`written, this`sendPending, this`writeError, this`upstreams,
        this`stream, queue
      ensures Safe() && (ok ==> Valid() && queue.bufs != [])
      ensures ok ==> stream == old(stream) + (EncHeader(header) + EncFrame(frame)) + From(input, 0, off)
      ensures !ok ==> old(stream) <= stream <= old(stream) + (EncHeader(header) + EncFrame(frame)) + From(input, 0, off)
      ensures Broken(upstreams) == Broken(old(upstreams)) && (!ok ==> Stuck())
      ensures Kept(old(upstreams), upstreams, |stream|) && (ok && open == [] ==> !sendPending)
    {
      hide Safe, AllHanded, Broken, EncHeader, EncFrame, From, Stuck, Kept, Timely;
      ok := Write(EncHeader(header) + EncFrame(frame));
      if !ok {
        return;
      }
      ghost var us, n0 := upstreams, |stream|;
      ok := WriteChain(input, off);
      KeptTrans(old(upstreams), us, upstreams, n0, |stream|);
    }

    /** Leaves room for the packet header of a frame whose size is not known yet. */
    method FrameStart() returns (ok: bool, m: Marker)
      requires Valid() && queue.bufs != []
      modifies this`pos, this`last, this`end, this`written, this`sendPending, this`writeError, this`upstreams,
        this`stream, queue, this`sendBlocked, this`open
      ensures Safe() && open == old(open) + [m] && m.written == |old(stream)|
      ensures ok ==> Valid() && queue.bufs != [] && stream == old(stream) + Zeros(FRAME_PACKET_SIZE)
      ensures !ok ==> old(stream) <= stream <= old(stream) + Zeros(FRAME_PACKET_SIZE)
      ensures Broken(upstreams) == Broken(old(upstreams)) && (!ok ==> Stuck())
      ensures Kept(old(upstreams), upstreams, |stream|)
    {
      hide Safe, AllHanded, Broken, Stuck, Kept, Timely;
      m := MarkerStart();
      ok := Write(Zeros(FRAME_PACKET_SIZE));
    }

    /** Fills in the packet header of the current frame. */
    method FrameEnd(m: Marker, header: Header, frame: Frame) returns (ok: bool)
      requires Valid() && open != [] && m == open[|open| - 1] && m.written + FRAME_PACKET_SIZE <= |stream|
      modifies this`sendBlocked, this`open, this`stream, this`upstreams, this`sendPending, queue`bufs
      ensures Safe() && (if ok then Valid() else Broken(upstreams)) && open == old(open)[..|old(open)| - 1]
      ensures Kept(old(upstreams), upstreams, |stream|) && (ok && open == [] ==> !sendPending)
      ensures Broken(upstreams) == Broken(old(upstreams)) && (queue.bufs == [] ==> old(queue.bufs) == [])
      ensures var size := (|stream| - m.written - FRAME_PACKET_SIZE) % U32;
        stream == Splice(old(stream), m.written, EncHeader(header.(dataSize := size)) + EncFrame(frame))
    {
      hide Safe, AllHanded, Broken, EncHeader, EncFrame, Stuck, Kept, Timely;
      WrittenIsLength();
      var size := (written - m.written - FRAME_PACKET_SIZE) % U32;
      ok := MarkerEnd(m, EncHeader(header.(dataSize := size)) + EncFrame(frame));
    }

    lemma WrittenIsLength()
      requires Safe()
      ensures written == |stream|
    {
    }

    /** How much has been written, for the sizes of what markers enclose. */
    function Length(): (n: nat)
      requires Valid()
      reads this, queue
      ensures n == |stream|
    {
      written
    }

    /** A frame written piece by piece: the same bytes as written at once. */
    method WriteFrameInPieces(frame: Frame, pieces: seq<seq<byte>>) returns (ok: bool)
      requires Valid() && queue.bufs != [] && |Flat(pieces)| < U32
      modifies this`pos, this`last, this`end, this`written, this`sendPending, this`writeError, this`upstreams,
        this`stream, queue, this`sendBlocked, this`open
      ensures Safe() && (ok ==> Valid() && open == old(open) && queue.bufs != [])
      ensures ok ==> stream == old(stream) + FramePacket(frame, Flat(pieces))
      ensures !ok ==>
        |old(stream)| <= |stream| <= |old(stream) + FramePacket(frame, Flat(pieces))| &&
          Sendable() <= old(stream) + FramePacket(frame, Flat(pieces))
      ensures Broken(upstreams) == Broken(old(upstreams)) && (!ok ==> Stuck())
      ensures Kept(old(upstreams), upstreams, |stream|) && (ok && open == [] ==> !sendPending)
    {
      hide Safe, AllHanded, Broken, EncHeader, EncFrame, Stuck, Flat, Splice, Sendable, Kept, Timely;
      var m;
      ok, m := FrameStart();
      if !ok {
        SendableBefore(old(stream));
        return;
      }
      var i := 0;
      FlatNone<byte>();
      assert pieces[..0] == [];
      while i < |pieces|
        invariant i <= |pieces| && Valid() && open == old(open) + [m] && queue.bufs != []
        invariant stream == old(stream) + Zeros(FRAME_PACKET_SIZE) + Flat(pieces[..i])
        invariant Broken(upstreams) == Broken(old(upstreams)) && Kept(old(upstreams), upstreams, |stream|)
      {
        ghost var us, n0 := upstreams, |stream|;
        ok := Write(pieces[i]);
        KeptTrans(old(upstreams), us, upstreams, n0, |stream|);
        FlatPrefixSnoc(pieces, i);
        if !ok {
          FlatCut(pieces, i + 1);
          SendableBefore(old(stream));
          return;
        }
        i := i + 1;
      }
      assert pieces[..i] == pieces;
      ghost var head := EncHeader(Header(PACKET_FRAME, FRAME_PACKET_SIZE, |Flat(pieces)|, 0)) + EncFrame(frame);
      SpliceAt(old(stream), Zeros(FRAME_PACKET_SIZE), Flat(pieces), head);
      ghost var us := upstreams;
      ok := FrameEnd(m, Header(PACKET_FRAME, FRAME_PACKET_SIZE, 0, 0), frame);
      KeptTrans(old(upstreams), us, upstreams, |stream|, |stream|);
      if !ok {
        BrokenIsStuck();
        SendableWithin(old(stream) + FramePacket(frame, Flat(pieces)));
      }
    }

    /** Between operations, what an upstream was handed and what is pending make up all that
        was written, and what it has sent is the beginning of that. */
    lemma NothingLost(i: nat)
      requires Valid() && i < |upstreams|
      ensures Tiles(Size(), upstreams[i].ranges) && Reach(Size(), upstreams[i].ranges) == HandedOut() <= |stream|
      ensures Covered(Size(), upstreams[i].ranges, stream) + stream[HandedOut()..] == stream
      ensures upstreams[i].wire <= stream && |upstreams[i].wire| <= HandedOut() && |stream| - HandedOut() == last - pos
    {
      HandedOne(Size(), upstreams, i, HandedOut());
      assert Fed(Size(), upstreams[i], stream, Gone(), Floor(open, |stream|));
      hide Tiles, Reach, Covered;
      TilesCover(Size(), upstreams[i].ranges, stream);
    }

    /** The keepalive timer fires. */
    method KeepAlive() returns (ok: bool)
      requires Valid()
      modifies this`pos, this`last, this`end, this`written, this`sendPending, this`writeError, this`upstreams,
        this`stream, queue
      ensures Safe() && (ok ==> Valid() && stream == old(stream) + NullPacket() && queue.bufs != [])
      ensures !ok ==> old(stream) <= stream <= old(stream) + NullPacket()
      ensures Broken(upstreams) == Broken(old(upstreams)) && (!ok ==> Stuck())
      ensures Kept(old(upstreams), upstreams, |stream|) && (ok && open == [] ==> !sendPending)
    {
      hide Safe, AllHanded, Broken, EncHeader, Stuck, Kept, Timely;
      ok := Write(EncHeader(Header(PACKET_NULL, HDR_SIZE, 0, 0)));
    }

    /** The end of the stream is written and everything is handed out. */
    method SendEndOfStream() returns (ok: bool)
      requires Safe() && (!writeError ==> Valid())
      modifies this`pos, this`last, this`end, this`written, this`sendPending, this`writeError, this`upstreams,
        this`stream, queue
      ensures Safe() && (ok ==> Valid() && stream == old(stream) + EndPacket() && pos == last)
      ensures old(writeError) ==> !ok && stream == old(stream)
      ensures Broken(upstreams) == Broken(old(upstreams)) && (!ok ==> old(writeError) || Stuck())
      ensures Kept(old(upstreams), upstreams, |stream|)
      ensures ok && open == [] ==> forall i :: 0 <= i < |upstreams| && upstreams[i].ready ==>
        upstreams[i].wire == stream
    {
      hide Safe, AllHanded, Broken, EncHeader, Stuck, Kept, Timely, Freed;
      if writeError {
        KeptRefl(upstreams, |stream|);
        return false;
      }
      ok := Write(EncHeader(Header(PACKET_END_OF_STREAM, HDR_SIZE, 0, 0)));
      if !ok {
        return;
      }
      ghost var us, n0 := upstreams, |stream|;
      ok := Flush();
      KeptTrans(old(upstreams), us, upstreams, n0, |stream|);
      if !ok {
        BrokenIsStuck();
      }
    }

    /** Acknowledgements arrive and connections change; what was handed over and sent stays. */
    method Environment(us: seq<Upstream>)
      requires Safe() && |us| == |upstreams| && Ordered(Size(), us)
      requires forall i :: 0 <= i < |us| ==> us[i].ranges == upstreams[i].ranges && us[i].wire == upstreams[i].wire
      requires forall i :: 0 <= i < |us| ==>
        us[i].ackedPos.off < Size() && Gone() <= Abs(Size(), us[i].ackedPos) <= |us[i].wire|
      requires forall i :: 0 <= i < |us| ==> us[i].ready ==> upstreams[i].ready || |us[i].wire| >= HandedOut()
      modifies this`upstreams
      ensures Safe() && upstreams == us && (old(Valid()) ==> Valid())
    {
      upstreams := us;
    }

    /** A connection can take data again: what is left is sent from the write event. */
    method WriteEvent(k: nat, window: nat) returns (ok: bool)
      requires Valid() && open == [] && k < |upstreams|
      modifies this`upstreams
      ensures Safe() && AllHanded() && (ok ==> Valid())
      ensures ok == !old(upstreams[k].sendFails)
      ensures 0 <= HandedOut() <= |stream| && old(|upstreams[k].wire|) <= HandedOut()
      ensures var u := old(upstreams[k]).(ready := true, window := window);
        upstreams == old(upstreams)[k := if ok then Sends(u, stream, HandedOut()) else u]
    {
      hide Start, Stored, Nested, Handed, queue.Valid, Broken, AllFed, Ordered;
      Reconnected(Size(), upstreams, k, window, stream, Gone(), |stream|, HandedOut());
      upstreams := upstreams[k := upstreams[k].(ready := true, window := window)];
      ok := SendOne(k);
    }
  }

  lemma PrefixMore(s: seq<byte>, a: seq<byte>, b: seq<byte>, c: seq<byte>)
    requires a <= s <= a + b
    ensures a <= s <= a + (b + c)
  {
  }

  /** The rest of a chain of buffers, from offset p of buffer i. */
  function From(input: seq<seq<byte>>, i: nat, p: nat): seq<byte>
    requires i < |input| && p <= |input[i]|
  {
    input[i][p..] + Flat(input[i + 1..])
  }

  lemma FromNext(input: seq<seq<byte>>, i: nat)
    requires i < |input|
    ensures From(input, i, |input[i]|) == if i + 1 < |input| then From(input, i + 1, 0) else []
  {
    if i + 1 < |input| {
      FlatHead(input[i + 1..]);
      assert input[i + 1..][1..] == input[i + 2..];
    }
  }

  /** Passes over the buffers that are used up; ends behind the last one if all are. */
  method PassEmpty(input: seq<seq<byte>>, i0: nat, p0: nat) returns (i: nat, p: nat)
    requires i0 < |input| && p0 <= |input[i0]|
    ensures i < |input| && p <= |input[i]| && From(input, i, p) == From(input, i0, p0)
    ensures p == |input[i]| ==> From(input, i, p) == []
  {
    hide From;
    i, p := i0, p0;
    while p >= |input[i]| && i + 1 < |input|
      invariant i < |input| && p <= |input[i]| && From(input, i, p) == From(input, i0, p0)
    {
      FromNext(input, i);
      i, p := i + 1, 0;
    }
    FromNext(input, i);
  }

  lemma FromSplit(input: seq<seq<byte>>, i: nat, p: nat, n: nat)
    requires i < |input| && p + n <= |input[i]|
    ensures From(input, i, p) == input[i][p..p + n] + From(input, i, p + n)
  {
    assert input[i][p..] == input[i][p..p + n] + input[i][p + n..];
  }

  /** A chain of one buffer. */
  lemma FromOne(data: seq<byte>)
    ensures From([data], 0, 0) == data
  {
    assert [data][1..] == [];
  }
}
