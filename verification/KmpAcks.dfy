/** The receiver's acknowledgements: requests are coalesced while a packet is on its way. */
module KmpAcks {
  import opened Sequences
  import opened Bytes
  import opened KmpFormat

  const ACK_SIZE: nat := 40
  const ACK_ID: nat := 16

  /** The ack packet on the wire; its other fields stay zero. */
  function AckBytes(id: u64): (s: seq<byte>)
    ensures |s| == ACK_SIZE
  {
    EncHeader(Header(PACKET_ACK_FRAMES, ACK_SIZE, 0, 0)) + LE(id, 8) + Zeros(16)
  }

  function Acks(ids: seq<u64>): (s: seq<seq<byte>>)
    ensures |s| == |ids| && forall i :: 0 <= i < |s| ==> |s[i]| == ACK_SIZE && s[i] == AckBytes(ids[i])
  {
    seq(|ids|, i requires 0 <= i < |ids| => AckBytes(ids[i]))
  }

  ghost predicate Rising(ids: seq<u64>, base: u64) {
    (forall i :: 0 <= i < |ids| ==> base < ids[i]) && forall i, j :: 0 <= i < j < |ids| ==> ids[i] < ids[j]
  }

  /** What one call of the socket's send does with the bytes offered. */
  datatype Send = Accepted(n: nat) | Again | Failed

  predicate TakesAll(s: Send) { s.Accepted? && s.n >= ACK_SIZE }

  /** What send number i does; those beyond the list would block. */
  function Nth(sends: seq<Send>, i: nat): Send { if i < |sends| then sends[i] else Again }

  /** How many of `left` bytes a send takes. */
  function Takes(s: Send, left: nat): (n: nat)
    ensures n <= left
  {
    if !s.Accepted? then 0 else if s.n < left then s.n else left
  }

  /** The first send takes the rest of the packet. */
  predicate Through(sends: seq<Send>, pos: nat)
    requires pos <= ACK_SIZE
  {
    Takes(Nth(sends, 0), ACK_SIZE - pos) == ACK_SIZE - pos
  }

  lemma Slices(wire: seq<byte>, p: seq<byte>, at: nat)
    requires at <= |p|
    ensures wire + p[at..at] == wire
  {
  }

  lemma TakesAtMost(sends: seq<Send>)
    ensures forall k, left :: 0 <= k && 0 <= left <= ACK_SIZE && k < |sends| && TakesAll(sends[k]) ==>
      Takes(Nth(sends, k), left) == left
    ensures forall k, left :: 0 <= k && 0 < left && k < |sends| && sends[k].Accepted? && sends[k].n > 0 ==>
      Takes(Nth(sends, k), left) > 0
    ensures forall k, left :: 0 <= k && 0 < left && Nth(sends, k) == Failed ==> Takes(Nth(sends, k), left) == 0
  {
  }

  datatype Result = Ok | Closed

  function Last(ids: seq<u64>): u64
    requires ids != []
  {
    ids[|ids| - 1]
  }

  /** The bytes on the wire are whole acks, then the beginning of the one in flight; the
      ids rise, and with nothing in flight the last one is the largest requested. */
  ghost predicate Sound(packet: seq<byte>, pos: nat, acked: u64, writing: bool, wire: seq<byte>, ids: seq<u64>,
    base: u64) {
    && AckShaped(packet) && pos <= ACK_SIZE
    && Rising(ids, base)
    && (if ids == [] then acked == base else Last(ids) <= acked)
    && (if writing then
          && ids != [] && pos < ACK_SIZE && packet == AckBytes(Last(ids))
          && wire == Flat(Acks(ids[..|ids| - 1])) + packet[..pos]
        else
          && (ids != [] ==> Last(ids) == acked)
          && wire == Flat(Acks(ids)))
  }

  ghost predicate AckShaped(p: seq<byte>) {
    |p| == ACK_SIZE && p[..ACK_ID] == AckBytes(0)[..ACK_ID] && p[ACK_ID + 8..] == AckBytes(0)[ACK_ID + 8..]
  }

  class AckSender {
    var ackPacket: seq<byte>
    var ackPos: nat
    var ackedFrameId: u64
    var writing: bool

    ghost var wire: seq<byte>     // the bytes the socket has accepted
    ghost var ids: seq<u64>       // the frame ids of the acks started
    ghost const initialId: u64

    ghost predicate Valid()
      reads this
    {
      Sound(ackPacket, ackPos, ackedFrameId, writing, wire, ids, initialId)
    }

    constructor (initialFrameId: u64)
      ensures Valid() && !writing && ackedFrameId == initialId == initialFrameId && wire == [] && ids == []
    {
      ackPacket, ackPos := EncHeader(Header(PACKET_ACK_FRAMES, ACK_SIZE, 0, 0)) + Zeros(24), 0;
      ackedFrameId, writing := initialFrameId, false;
      wire, ids, initialId := [], [], initialFrameId;
      new;
      assert LE(0, 8) == Zeros(8) by { ZeroField(); }
      assert Zeros(24) == Zeros(8) + Zeros(16);
      FlatNone<byte>();
      assert Acks([]) == [];
    }

    method AckFrames(nextFrameId: u64)
      requires Valid()
      modifies this`ackPacket, this`ackPos, this`ids, this`writing, this`ackedFrameId
      ensures Valid()
      ensures ackedFrameId == if nextFrameId > old(ackedFrameId) then nextFrameId else old(ackedFrameId)
      ensures old(writing) || nextFrameId <= old(ackedFrameId) ==> ids == old(ids)
      ensures !old(writing) && nextFrameId > old(ackedFrameId) ==> ids == old(ids) + [nextFrameId]
    {
      hide AckShaped, Rising, AckBytes, Acks, Flat, Splice;
      if nextFrameId <= ackedFrameId {
        return;
      }
      ackedFrameId := nextFrameId;
      if writing {
        return;
      }
      Started(ackPacket, ids, initialId, nextFrameId);
      ackPacket, ackPos := Splice(ackPacket, ACK_ID, LE(nextFrameId, 8)), 0;
      ids, writing := ids + [nextFrameId], true;
    }

    /** The socket is writable; `sends` says what its sends do, those beyond would block. */
    method WriteHandler(sends: seq<Send>) returns (r: Result)
      requires Valid()
      modifies this`ackPacket, this`ackPos, this`ids, this`writing, this`wire
      ensures Valid() && old(wire) <= wire && old(ids) <= ids && |ids| <= |old(ids)| + 1
      ensures !old(writing) ==> wire == old(wire) && !writing
      ensures old(writing) && sends != [] && sends[0].Accepted? && sends[0].n > 0 ==> |wire| > |old(wire)|
      // one send is enough, unless a larger id was requested meanwhile
      ensures |sends| >= 1 && TakesAll(sends[0]) && old(ids) != [] && Last(old(ids)) == ackedFrameId ==> !writing
      ensures |sends| >= 2 && TakesAll(sends[0]) && TakesAll(sends[1]) ==> !writing
      ensures r == Closed ==> Failed in sends
      // exactly what the socket takes goes on the wire, in order
      ensures old(writing) ==> old(ackPos) < ACK_SIZE == |old(ackPacket)| && old(ids) != []
      ensures old(writing && !Through(sends, ackPos)) ==>
        var n := Takes(Nth(sends, 0), ACK_SIZE - old(ackPos));
        && wire == old(wire) + old(ackPacket)[old(ackPos)..old(ackPos) + n] && ackPos == old(ackPos) + n
        && writing && ids == old(ids) && ackPacket == old(ackPacket)
        && (r == Closed <==> Nth(sends, 0) == Failed)
      ensures old(writing && Through(sends, ackPos) && Last(ids) == ackedFrameId) ==>
        wire == old(wire) + old(ackPacket)[old(ackPos)..] && !writing && ids == old(ids) && r == Ok
      ensures old(writing && Through(sends, ackPos) && Last(ids) != ackedFrameId) ==>
        var n := Takes(Nth(sends, 1), ACK_SIZE);
        && ackPacket == Splice(old(ackPacket), ACK_ID, LE(ackedFrameId, 8)) && ids == old(ids) + [ackedFrameId]
        && wire == old(wire) + old(ackPacket)[old(ackPos)..] + ackPacket[..n]
        && writing == (n < ACK_SIZE) && (writing ==> ackPos == n)
        && (r == Closed <==> Nth(sends, 1) == Failed)
    {
      hide Sound, Takes;
      r := Ok;
      if !writing {
        return;
      }
      InFlight();
      TakesAtMost(sends);
      var i := 0;
      while true
        invariant i <= 1 && Valid() && writing
        invariant i == 0 ==>
          ids == old(ids) && wire == old(wire) && ackPos == old(ackPos) && ackPacket == old(ackPacket)
        invariant i == 1 ==> Through(sends, old(ackPos)) && Last(old(ids)) != ackedFrameId
        invariant i == 1 ==>
          && wire == old(wire) + old(ackPacket)[old(ackPos)..] && ackPos == 0 && ids == old(ids) + [ackedFrameId]
          && ackPacket == Splice(old(ackPacket), ACK_ID, LE(ackedFrameId, 8))
        decreases 1 - i
      {
        var n := Nth(sends, i);
        var more := SendSome(n);
        i := i + 1;
        if n == Failed {
          return Closed;
        }
        if !more {
          break;
        }
      }
    }

    /** One send of the packet in flight; `more` if another packet follows. */
    method SendSome(n: Send) returns (more: bool)
      requires Valid() && writing
      modifies this`ackPacket, this`ackPos, this`ids, this`writing, this`wire
      ensures Valid() && old(ackPos) < ACK_SIZE == |old(ackPacket)| && old(ids) != []
      ensures var k := Takes(n, ACK_SIZE - old(ackPos));
        && wire == old(wire) + old(ackPacket)[old(ackPos)..old(ackPos) + k]
        && if k < ACK_SIZE - old(ackPos) then
             !more && writing && ackPos == old(ackPos) + k && ids == old(ids) && ackPacket == old(ackPacket)
           else
             && more == writing == (Last(old(ids)) != ackedFrameId)
             && ids == (if more then old(ids) + [ackedFrameId] else old(ids))
             && (more ==> ackPos == 0)
             && ackPacket == if more then Splice(old(ackPacket), ACK_ID, LE(ackedFrameId, 8)) else old(ackPacket)
    {
      hide Sound;
      InFlight();
      ToEnd(ackPacket, ackPos);
      Slices(wire, ackPacket, ackPos);
      more := false;
      if n.Accepted? && n.n > 0 {
        if n.n < ACK_SIZE - ackPos {
          SendPart(n.n);
        } else {
          more := SendRest();
        }
      }
    }

    lemma InFlight()
      requires Valid() && writing
      ensures ids != [] && ackPos < ACK_SIZE == |ackPacket|
    {
    }

    method SendPart(n: nat)
      requires Valid() && writing && n < ACK_SIZE - ackPos
      modifies this`ackPos, this`wire
      ensures Valid() && ackPos == old(ackPos) + n && wire == old(wire) + ackPacket[old(ackPos)..ackPos]
    {
      hide AckShaped, Rising, AckBytes, Acks, Flat;
      MoreSent(ackPacket, ackPos, n);
      wire := wire + ackPacket[ackPos..ackPos + n];
      ackPos := ackPos + n;
    }

    /** The rest of the packet is sent; another follows if a larger id was requested
        meanwhile. */
    method SendRest() returns (another: bool)
      requires Valid() && writing && ids != [] && ackPos < ACK_SIZE
      modifies this`ackPacket, this`ackPos, this`ids, this`writing, this`wire
      ensures Valid() && old(wire) <= wire && writing == another
      ensures another <==> Last(old(ids)) != ackedFrameId
      ensures ids == if another then old(ids) + [ackedFrameId] else old(ids)
      ensures wire == old(wire) + old(ackPacket[ackPos..])
      ensures another ==> ackPos == 0
      ensures ackPacket == if another then Splice(old(ackPacket), ACK_ID, LE(ackedFrameId, 8)) else old(ackPacket)
    {
      hide AckShaped, Rising, AckBytes, Acks, Flat, Splice, Long;
      AllSent(ackPacket, ackPos, ids);
      wire := wire + ackPacket[ackPos..];
      if Long(ackPacket, ACK_ID) != ackedFrameId {
        Started(ackPacket, ids, initialId, ackedFrameId);
        ackPacket, ackPos := Splice(ackPacket, ACK_ID, LE(ackedFrameId, 8)), 0;
        ids := ids + [ackedFrameId];
        return true;
      }
      writing := false;
      return false;
    }

    /** What the sender at the other end reads off the wire: rising frame ids, whole
        packets only, and with nothing in flight all that was requested. */
    lemma WireDecodes()
      requires Valid()
      ensures DecodeAcks(wire) == if writing then ids[..|ids| - 1] else ids
      ensures Rising(DecodeAcks(wire), initialId)
      ensures |wire| == ACK_SIZE * |DecodeAcks(wire)| + if writing then ackPos else 0
      ensures !writing && ackedFrameId > initialId ==>
        DecodeAcks(wire) != [] && DecodeAcks(wire)[|DecodeAcks(wire)| - 1] == ackedFrameId
    {
      if writing {
        AcksDecode(ids[..|ids| - 1], ackPacket[..ackPos]);
      } else {
        AcksDecode(ids, []);
        assert wire + [] == wire;
      }
    }
  }

  /** The reader's view: the frame id of each whole packet. */
  function DecodeAcks(wire: seq<byte>): seq<u64> {
    if |wire| < ACK_SIZE then [] else [Long(wire, ACK_ID)] + DecodeAcks(wire[ACK_SIZE..])
  }

  lemma {:induction false} AcksDecode(ids: seq<u64>, tail: seq<byte>)
    requires |tail| < ACK_SIZE
    ensures DecodeAcks(Flat(Acks(ids)) + tail) == ids
    ensures |Flat(Acks(ids))| == ACK_SIZE * |ids|
  {
    hide Long, AckBytes;
    if ids == [] {
      assert Acks(ids) == [];
      assert Flat(Acks(ids)) + tail == tail;
    } else {
      AcksDecode(ids[1..], tail);
      assert Acks(ids)[1..] == Acks(ids[1..]);
      var first, rest := AckBytes(ids[0]), Flat(Acks(ids[1..])) + tail;
      assert Flat(Acks(ids)) + tail == first + rest;
      FieldAt(ids[0], rest);
      assert (first + rest)[ACK_SIZE..] == rest;
    }
  }

  lemma FieldAt(id: u64, rest: seq<byte>)
    ensures Long(AckBytes(id) + rest, ACK_ID) == id
  {
    var h := EncHeader(Header(PACKET_ACK_FRAMES, ACK_SIZE, 0, 0));
    LongAt(h, id, Zeros(16) + rest);
    assert AckBytes(id) + rest == h + LE(id, 8) + (Zeros(16) + rest);
  }

  /** The layout of an ack packet. */
  lemma AckLayout(id: u64)
    ensures var s := AckBytes(id);
      && Word(s, 0) == 0x666b6361 && Word(s, 4) == 40 && Word(s, 8) == 0 && Word(s, 12) == 0
      && Long(s, 16) == id && forall i :: 24 <= i < 40 ==> s[i] == 0
  {
    hide Word, Long, LE, DecHeader, EncHeader;
    var h := Header(PACKET_ACK_FRAMES, ACK_SIZE, 0, 0);
    var s := AckBytes(id);
    Associate(EncHeader(h), LE(id, 8), Zeros(16));
    HeaderRoundTrip(h, LE(id, 8) + Zeros(16));
    FieldAt(id, []);
    assert s + [] == s;
    assert forall i :: 24 <= i < 40 ==> s[i] == Zeros(16)[i - 24];
  }

  lemma ZeroField()
    ensures LE(0, 8) == Zeros(8)
  {
    ZeroLE(8);
  }

  lemma {:induction false} ZeroLE(k: nat)
    ensures LE(0, k) == Zeros(k)
  {
    if k > 0 {
      ZeroLE(k - 1);
      assert Zeros(k) == [0] + Zeros(k - 1);
    }
  }

  /** Setting the id field makes the packet the ack of that id. */
  lemma PacketFor(p: seq<byte>, id: u64)
    requires AckShaped(p)
    ensures Splice(p, ACK_ID, LE(id, 8)) == AckBytes(id)
    ensures AckShaped(AckBytes(id))
  {
    var h := EncHeader(Header(PACKET_ACK_FRAMES, ACK_SIZE, 0, 0));
    assert AckBytes(0)[..ACK_ID] == h && AckBytes(0)[ACK_ID + 8..] == Zeros(16);
    assert AckBytes(id)[..ACK_ID] == h && AckBytes(id)[ACK_ID + 8..] == Zeros(16);
  }

  lemma AcksSnoc(ids: seq<u64>, id: u64)
    ensures Flat(Acks(ids + [id])) == Flat(Acks(ids)) + AckBytes(id)
  {
    assert Acks(ids + [id]) == Acks(ids) + [AckBytes(id)];
    FlatSnoc(Acks(ids), AckBytes(id));
  }

  /** A larger id starts the next ack. */
  lemma RisingMore(ids: seq<u64>, base: u64, id: u64)
    requires Rising(ids, base) && (if ids == [] then id > base else id > Last(ids))
    ensures Rising(ids + [id], base)
  {
  }

  lemma Started(packet: seq<byte>, ids: seq<u64>, base: u64, id: u64)
    requires AckShaped(packet) && Rising(ids, base) && (if ids == [] then id > base else id > Last(ids))
    ensures var p := Splice(packet, ACK_ID, LE(id, 8));
      && AckShaped(p) && p == AckBytes(id) && Rising(ids + [id], base)
      && Flat(Acks((ids + [id])[..|ids|])) + p[..0] == Flat(Acks(ids))
  {
    hide AckShaped, AckBytes, Splice, Acks, Flat, Rising;
    PacketFor(packet, id);
    Halves(ids, [id]);
    Slices(Flat(Acks(ids)), Splice(packet, ACK_ID, LE(id, 8)), 0);
    RisingMore(ids, base, id);
  }

  lemma MoreSent(packet: seq<byte>, pos: nat, n: nat)
    requires pos + n <= |packet|
    ensures packet[..pos + n] == packet[..pos] + packet[pos..pos + n]
  {
  }

  lemma AllSent(packet: seq<byte>, pos: nat, ids: seq<u64>)
    requires ids != [] && packet == AckBytes(Last(ids)) && pos <= ACK_SIZE
    ensures Flat(Acks(ids[..|ids| - 1])) + packet[..pos] + packet[pos..] == Flat(Acks(ids))
    ensures Long(packet, ACK_ID) == Last(ids)
  {
    hide AckBytes, Long;
    var k := |ids| - 1;
    AcksSnoc(ids[..k], ids[k]);
    assert ids == ids[..k] + [ids[k]];
    assert packet == packet[..pos] + packet[pos..];
    FieldAt(ids[k], []);
    assert packet + [] == packet;
  }
}
