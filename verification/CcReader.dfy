/** Reading a NAL unit that is spread over a chain of buffers, without its emulation
    prevention bytes (sections 7.3.1 and 7.4.1.1 of ITU-T H.264). */
module CcReader {
  import opened Sequences
  import opened Bytes

  /** The last three bytes read, oldest first. */
  datatype Recent = Recent(a: byte, b: byte, c: byte)

  const START: Recent := Recent(0, 0, 1)
  const PREVENTION: Recent := Recent(0, 0, 3)

  function Shift(st: Recent, x: byte): Recent { Recent(st.b, st.c, x) }

  /** 3 behind two zero bytes is not data. */
  predicate Prevention(st: Recent, x: byte) { Shift(st, x) == PREVENTION }

  /** The payload bytes of raw bytes. */
  function Strip(raw: seq<byte>, st: Recent): seq<byte> {
    if raw == [] then []
    else (if Prevention(st, raw[0]) then [] else [raw[0]]) + Strip(raw[1..], Shift(st, raw[0]))
  }

  /** The state after raw bytes. */
  function Roll(raw: seq<byte>, st: Recent): Recent {
    if raw == [] then st else Roll(raw[1..], Shift(st, raw[0]))
  }

  /** How many raw bytes hold the first k payload bytes. */
  function Needed(raw: seq<byte>, st: Recent, k: nat): (n: nat)
    requires k <= |Strip(raw, st)|
    ensures n <= |raw|
  {
    if k == 0 then 0
    else 1 + Needed(raw[1..], Shift(st, raw[0]), if Prevention(st, raw[0]) then k else k - 1)
  }

  /** The first k payload bytes are those of the raw bytes needed for them; the rest is left
      to the raw bytes behind. */
  lemma {:induction false} NeededSplits(raw: seq<byte>, st: Recent, k: nat)
    requires k <= |Strip(raw, st)|
    ensures var n := Needed(raw, st, k);
      && Strip(raw[..n], st) == Strip(raw, st)[..k]
      && Strip(raw[n..], Roll(raw[..n], st)) == Strip(raw, st)[k..]
  {
    if k > 0 {
      var k' := if Prevention(st, raw[0]) then k else k - 1;
      NeededSplits(raw[1..], Shift(st, raw[0]), k');
      var n := Needed(raw, st, k);
      assert raw[..n][1..] == raw[1..][..n - 1] && raw[n..] == raw[1..][n - 1..];
    } else {
      assert raw[..0] == [] && raw[0..] == raw;
    }
  }

  lemma {:induction false} StripAppend(a: seq<byte>, b: seq<byte>, st: Recent)
    ensures Strip(a + b, st) == Strip(a, st) + Strip(b, Roll(a, st))
    ensures Roll(a + b, st) == Roll(b, Roll(a, st))
  {
    if a == [] {
      assert a + b == b;
    } else {
      hide Shift, Prevention;
      StripAppend(a[1..], b, Shift(st, a[0]));
      Behead(a, b);
      Associate(if Prevention(st, a[0]) then [] else [a[0]], Strip(a[1..], Shift(st, a[0])), Strip(b, Roll(a, st)));
    }
  }

  /** Needed is the least such number: one raw byte less holds fewer payload bytes. */
  lemma {:induction false} NeededLeast(raw: seq<byte>, st: Recent, k: nat, n: nat)
    requires k <= |Strip(raw, st)| && n < Needed(raw, st, k)
    ensures |Strip(raw[..n], st)| < k
  {
    if n > 0 {
      var k' := if Prevention(st, raw[0]) then k else k - 1;
      NeededLeast(raw[1..], Shift(st, raw[0]), k', n - 1);
      assert raw[..n][1..] == raw[1..][..n - 1];
    }
  }

  /** Inserting the emulation prevention bytes; z counts the zero bytes just written. */
  function Escape(payload: seq<byte>, z: nat): seq<byte> {
    if payload == [] then (if z >= 2 then [3] else [])
    else if z >= 2 && payload[0] <= 3 then [3, payload[0]] + Escape(payload[1..], if payload[0] == 0 then 1 else 0)
    else [payload[0]] + Escape(payload[1..], if payload[0] == 0 then z + 1 else 0)
  }

  /** How many zero bytes the state ends with, as far as it matters. */
  ghost predicate Agree(st: Recent, z: nat) {
    && (z >= 2 <==> st.b == 0 && st.c == 0)
    && (z == 1 ==> st.c == 0)
    && (z == 0 ==> st.c != 0)
  }

  lemma AgreeShift(st: Recent, z: nat, b: byte)
    requires Agree(st, z)
    ensures Prevention(st, b) <==> z >= 2 && b == 3
    ensures Agree(Shift(st, b), if b == 0 then z + 1 else 0)
  {
  }

  lemma StripOne(st: Recent, b: byte)
    ensures Strip([b], st) == (if Prevention(st, b) then [] else [b]) && Roll([b], st) == Shift(st, b)
    ensures Strip([], st) == []
  {
    assert [b][1..] == [];
  }

  lemma StripCons(st: Recent, b: byte, rest: seq<byte>)
    ensures Strip([b] + rest, st) == (if Prevention(st, b) then [] else [b]) + Strip(rest, Shift(st, b))
  {
    assert ([b] + rest)[1..] == rest;
  }

  /** Stripping undoes escaping. */
  lemma {:induction false} StripEscape(payload: seq<byte>, z: nat, st: Recent)
    requires Agree(st, z)
    ensures Strip(Escape(payload, z), st) == payload
  {
    hide Strip, Roll, Shift, Agree, Prevention;
    AgreeShift(st, z, 3);
    if payload == [] {
      StripOne(st, 3);
    } else {
      var b := payload[0];
      AgreeShift(st, z, b);
      if z >= 2 && b <= 3 {
        AgreeShift(Shift(st, 3), 0, b);
        var rest := Escape(payload[1..], if b == 0 then 1 else 0);
        assert Escape(payload, z) == [3] + ([b] + rest);
        StripCons(st, 3, [b] + rest);
        StripCons(Shift(st, 3), b, rest);
        StripEscape(payload[1..], if b == 0 then 1 else 0, Shift(Shift(st, 3), b));
      } else {
        StripCons(st, b, Escape(payload[1..], if b == 0 then z + 1 else 0));
        StripEscape(payload[1..], if b == 0 then z + 1 else 0, Shift(st, b));
      }
    }
  }

  /** Read from its start, an escaped payload is the payload. */
  lemma EscapedPayload(payload: seq<byte>)
    ensures Strip(Escape(payload, 0), START) == payload
  {
    assert Agree(START, 0);
    StripEscape(payload, 0, START);
  }

  /** A chain without its first byte; used up buffers go. */
  function Popped(chain: seq<seq<byte>>): (r: seq<seq<byte>>)
    requires Flat(chain) != []
    ensures r != []
    decreases |chain|
  {
    if chain[0] == [] then Popped(chain[1..]) else [chain[0][1..]] + chain[1..]
  }

  lemma {:induction false} PoppedFlat(chain: seq<seq<byte>>)
    requires Flat(chain) != []
    ensures Flat(Popped(chain)) == Flat(chain)[1..]
    decreases |chain|
  {
    if chain[0] == [] {
      PoppedFlat(chain[1..]);
    } else {
      FlatHead(Popped(chain));
      assert Popped(chain)[1..] == chain[1..];
    }
  }

  /** A chain without its first n bytes. */
  function Dropped(chain: seq<seq<byte>>, n: nat): (r: seq<seq<byte>>)
    requires n <= |Flat(chain)| && chain != []
    ensures r != [] && Flat(r) == Flat(chain)[n..]
  {
    if n == 0 then chain else
      assert Flat(chain)[n - 1..][1..] == Flat(chain)[n..];
      PoppedFlat(Dropped(chain, n - 1));
      Popped(Dropped(chain, n - 1))
  }

  class EpReader {
    var chain: seq<seq<byte>>      // the current buffer, from where reading goes on, and those behind
    var lastThree: Recent
    var left: nat                  // raw bytes left in the NAL unit

    ghost predicate Valid()
      reads this
    {
      chain != [] && left <= |Flat(chain)|
    }

    /** The raw bytes left; nothing behind them is ever read. */
    ghost function Raw(): seq<byte>
      requires left <= |Flat(chain)|
      reads this
    {
      Flat(chain)[..left]
    }

    ghost function Payload(): seq<byte>
      requires left <= |Flat(chain)|
      reads this
    {
      Strip(Raw(), lastThree)
    }

    constructor (src: seq<seq<byte>>, size: nat)
      requires src != [] && size <= |Flat(src)|
      ensures Valid() && chain == src && left == size && lastThree == START
    {
      chain, left, lastThree := src, size, START;
    }

    /** Takes one raw byte. */
    method Next() returns (ok: bool, b: byte)
      requires chain != []
      modifies this`chain
      ensures ok <==> old(Flat(chain)) != []
      ensures ok ==> b == old(Flat(chain))[0] && chain == Popped(old(chain))
      ensures chain != []
    {
      b := 0;
      while true
        invariant chain != [] && Flat(chain) == old(Flat(chain))
        invariant Flat(chain) != [] ==> Popped(chain) == Popped(old(chain))
        decreases |chain|
      {
        if |chain[0]| > 0 {
          b := chain[0][0];
          chain := [chain[0][1..]] + chain[1..];
          return true, b;
        }
        if |chain| == 1 {
          assert chain[1..] == [];
          return false, b;
        }
        chain := chain[1..];
      }
    }

    /** In the middle of an operation: n raw bytes are behind, with d of `size` payload
        bytes, and room is reserved for the others. */
    ghost predicate Reading(c0: seq<seq<byte>>, raw: seq<byte>, st: Recent, n: nat, size: nat, d: nat)
      reads this
    {
      && c0 != [] && n <= |raw| <= |Flat(c0)| && raw == Flat(c0)[..|raw|]
      && chain == Dropped(c0, n) && lastThree == Roll(raw[..n], st)
      && d == |Strip(raw[..n], st)| <= size && left + (size - d) == |raw| - n
    }

    /** Takes the next raw byte of the unit; a prevention byte costs one that is left. */
    method Byte(ghost c0: seq<seq<byte>>, ghost raw: seq<byte>, ghost st: Recent, ghost n: nat, ghost size: nat,
      ghost d: nat)
      returns (end: bool, b: byte, data: bool)
      requires Reading(c0, raw, st, n, size, d) && d < size
      modifies this
      ensures end ==> |Strip(raw, st)| < size && |Flat(chain)| + |raw| >= |Flat(c0)|
      ensures !end ==> n < |raw| && Reading(c0, raw, st, n + 1, size, if data then d + 1 else d)
      ensures !end ==> Strip(raw[..n + 1], st) == Strip(raw[..n], st) + if data then [b] else []
      ensures !end && data ==> Needed0(raw, st, d + 1, n + 1)
    {
      hide Needed, Strip, Roll, Popped, Shift, Flat;
      var got;
      got, b := Next();
      if !got {
        assert false;                  // the bytes of the unit are all in the chain
      }
      assert b == raw[n];
      assert chain == Dropped(c0, n + 1);
      StepOne(raw, st, n);
      lastThree := Shift(lastThree, b);
      data := lastThree != PREVENTION;
      end := false;
      if !data {
        if left <= 0 {
          StripBound(raw, st, n + 1);
          return true, b, data;
        }
        left := left - 1;
      } else {
        NeededAt(raw, st, n);
      }
    }

    lemma Begin(size: nat)
      requires Valid() && size <= left
      ensures Reading0(chain, Raw(), lastThree, size)
    {
      assert Raw()[..0] == [];
    }

    /** The state when an operation has reserved its bytes. */
    ghost predicate Reading0(c0: seq<seq<byte>>, raw: seq<byte>, st: Recent, size: nat)
      reads this
    {
      && c0 != [] && size <= |raw| <= |Flat(c0)| && raw == Flat(c0)[..|raw|]
      && chain == c0 && lastThree == st && Strip(raw[..0], st) == [] && Roll(raw[..0], st) == st && left == |raw|
    }

    /** An operation is complete. */
    lemma Finished(c0: seq<seq<byte>>, raw: seq<byte>, st: Recent, n: nat, size: nat)
      requires Reading(c0, raw, st, n, size, size)
      requires if size == 0 then n == 0 else Needed0(raw, st, size, n)
      ensures Valid() && size <= |Strip(raw, st)| && n == Needed(raw, st, size)
      ensures Strip(raw[..n], st) == Strip(raw, st)[..size] && Payload() == Strip(raw, st)[size..]
      ensures left == |raw| - n && chain == Dropped(c0, n) && lastThree == Roll(raw[..n], st)
    {
      hide Needed, Strip, Roll, Popped, Dropped, Flat;
      StripPrefix(raw, st, n);
      if n == 0 {
        NeededNone(raw, st);
      }
      NeededSplits(raw, st, size);
      assert Raw() == raw[n..];
    }

    /** Reads payload bytes: exactly when the unit still holds that many. */
    method Read(size: nat) returns (ok: bool, dst: seq<byte>)
      requires Valid()
      modifies this
      ensures ok <==> size <= |old(Payload())|
      ensures ok ==> Valid() && dst == old(Payload())[..size] && Payload() == old(Payload())[size..]
      ensures ok ==> Moved(old(chain), old(Raw()), old(lastThree), size)
      ensures |Flat(chain)| >= |old(Flat(chain))| - old(left)
    {
      hide Needed, Strip, Roll, Dropped, Popped, Flat, Prevention, Shift;
      dst := [];
      ghost var raw, st, n := Raw(), lastThree, 0;
      StripShort(raw, st);
      if size > left {
        return false, dst;
      }
      Begin(size);
      left := left - size;
      DroppedNone(chain);
      while |dst| < size
        invariant |dst| <= size && Reading(old(chain), raw, st, n, size, |dst|) && dst == Strip(raw[..n], st)
        invariant if size == 0 then n == 0 else |dst| == size ==> Needed0(raw, st, size, n)
        decreases |raw| - n
      {
        var end, b, data := Byte(old(chain), raw, st, n, size, |dst|);
        if end {
          return false, dst;
        }
        n := n + 1;
        if !data {
          continue;
        }
        dst := dst + [b];
      }
      Finished(old(chain), raw, st, n, size);
      ok := true;
    }

    /** Skips payload bytes; the reader ends up where reading them would have left it. */
    method Skip(size: nat) returns (ok: bool)
      requires Valid()
      modifies this
      ensures ok <==> size <= |old(Payload())|
      ensures ok ==> Valid() && Payload() == old(Payload())[size..]
      ensures ok ==> Moved(old(chain), old(Raw()), old(lastThree), size)
      ensures |Flat(chain)| >= |old(Flat(chain))| - old(left)
    {
      hide Needed, Strip, Roll, Dropped, Popped, Flat, Prevention, Shift;
      ghost var raw, st, n := Raw(), lastThree, 0;
      StripShort(raw, st);
      if size > left {
        return false;
      }
      Begin(size);
      left := left - size;
      DroppedNone(chain);
      var todo := size;
      while todo > 0
        invariant todo <= size && Reading(old(chain), raw, st, n, size, size - todo)
        invariant if size == 0 then n == 0 else todo == 0 ==> Needed0(raw, st, size, n)
        decreases |raw| - n
      {
        var end, b, data := Byte(old(chain), raw, st, n, size, size - todo);
        if end {
          return false;
        }
        n := n + 1;
        if !data {
          continue;
        }
        todo := todo - 1;
      }
      Finished(old(chain), raw, st, n, size);
      ok := true;
    }

    /** The state behind `size` payload bytes, whether read or skipped: `left` counts the raw
        bytes that remain. */
    ghost predicate Moved(c0: seq<seq<byte>>, raw: seq<byte>, st: Recent, size: nat)
      reads this
    {
      && size <= |Strip(raw, st)| && c0 != [] && |raw| <= |Flat(c0)|
      && var n := Needed(raw, st, size);
      && chain == Dropped(c0, n) && left == |raw| - n && lastThree == Roll(raw[..n], st)
    }
  }

  /** One operation on a reader: a read or a skip of `size` payload bytes. */
  datatype Step = Reads(size: nat) | Skips(size: nat)

  /** What the reads of a run return, up to the first operation that asks for too much. */
  function Returned(payload: seq<byte>, steps: seq<Step>): seq<seq<byte>> {
    if steps == [] || steps[0].size > |payload| then []
    else
      var n := steps[0].size;
      (if steps[0].Reads? then [payload[..n]] else []) + Returned(payload[n..], steps[1..])
  }

  lemma ReturnedStep(out: seq<seq<byte>>, rest: seq<byte>, steps: seq<Step>)
    requires steps != [] && steps[0].size <= |rest|
    ensures out + Returned(rest, steps) ==
      (if steps[0].Reads? then out + [rest[..steps[0].size]] else out) + Returned(rest[steps[0].size..], steps[1..])
  {
  }

  function Asked(steps: seq<Step>): nat {
    if steps == [] then 0 else steps[0].size + Asked(steps[1..])
  }

  /** Whatever the chain is cut into, and in whatever sizes it is read and skipped, an escaped
      payload comes out in order; the run ends at the first operation beyond it. */
  method ReadPayload(payload: seq<byte>, chain: seq<seq<byte>>, steps: seq<Step>)
      returns (ok: bool, out: seq<seq<byte>>, reader: EpReader)
    requires chain != [] && Escape(payload, 0) <= Flat(chain)
    ensures ok <==> Asked(steps) <= |payload|
    ensures out == Returned(payload, steps)
    ensures ok ==> reader.Valid() && reader.Payload() == payload[Asked(steps)..]
  {
    hide Strip, Escape, Flat;
    EscapedPayload(payload);
    out := [];
    reader := new EpReader(chain, |Escape(payload, 0)|);
    assert reader.Raw() == Escape(payload, 0);
    ghost var rest := payload;
    for i := 0 to |steps|
      invariant reader.Valid() && fresh(reader) && reader.Payload() == rest
      invariant |rest| <= |payload| && rest == payload[|payload| - |rest|..]
      invariant Asked(steps[i..]) + (|payload| - |rest|) == Asked(steps)
      invariant out + Returned(rest, steps[i..]) == Returned(payload, steps)
    {
      var n := steps[i].size;
      DropTwice(steps, i, 1);
      if n <= |rest| {
        ReturnedStep(out, rest, steps[i..]);
      }
      if steps[i].Reads? {
        var bytes;
        ok, bytes := reader.Read(n);
        if !ok {
          return;
        }
        out := out + [bytes];
      } else {
        ok := reader.Skip(n);
        if !ok {
          return;
        }
      }
      rest := rest[n..];
    }
    ok := true;
  }

  ghost predicate Needed0(raw: seq<byte>, st: Recent, k: nat, n: nat) {
    k <= |Strip(raw, st)| && n == Needed(raw, st, k)
  }

  lemma NeededNone(raw: seq<byte>, st: Recent)
    ensures Needed(raw, st, 0) == 0
  {
  }

  lemma DroppedNone(chain: seq<seq<byte>>)
    requires chain != []
    ensures Dropped(chain, 0) == chain
  {
  }

  lemma {:induction false} StripBound(raw: seq<byte>, st: Recent, n: nat)
    requires n <= |raw|
    ensures |Strip(raw, st)| <= |Strip(raw[..n], st)| + (|raw| - n)
  {
    if n > 0 {
      StripBound(raw[1..], Shift(st, raw[0]), n - 1);
      assert raw[..n][1..] == raw[1..][..n - 1];
    } else if raw != [] {
      StripBound(raw[1..], Shift(st, raw[0]), 0);
      assert raw[1..][..0] == [] && raw[..0] == [];
    }
  }

  lemma StripShort(raw: seq<byte>, st: Recent)
    ensures |Strip(raw, st)| <= |raw|
  {
    StripBound(raw, st, 0);
    assert raw[..0] == [];
  }

  lemma StripPrefix(raw: seq<byte>, st: Recent, n: nat)
    requires n <= |raw|
    ensures |Strip(raw[..n], st)| <= |Strip(raw, st)|
  {
    StripAppend(raw[..n], raw[n..], st);
    assert raw[..n] + raw[n..] == raw;
  }

  /** One more raw byte. */
  lemma StepOne(raw: seq<byte>, st: Recent, n: nat)
    requires n < |raw|
    ensures var before := Roll(raw[..n], st);
      && Roll(raw[..n + 1], st) == Shift(before, raw[n])
      && Strip(raw[..n + 1], st) == Strip(raw[..n], st) + if Shift(before, raw[n]) == PREVENTION then [] else [raw[n]]
  {
    hide Shift;
    StripAppend(raw[..n], [raw[n]], st);
    StripOne(Roll(raw[..n], st), raw[n]);
    assert raw[..n + 1] == raw[..n] + [raw[n]];
  }

  lemma {:induction false} NeededAt(raw: seq<byte>, st: Recent, n: nat)
    requires n < |raw| && !Prevention(Roll(raw[..n], st), raw[n])
    ensures |Strip(raw[..n], st)| < |Strip(raw, st)|
    ensures Needed(raw, st, |Strip(raw[..n], st)| + 1) == n + 1
  {
    hide Prevention, Shift;
    if n > 0 {
      assert raw[..n][1..] == raw[1..][..n - 1];
      NeededAt(raw[1..], Shift(st, raw[0]), n - 1);
    } else {
      assert raw[..0] == [];
      NeededNone(raw[1..], Shift(st, raw[0]));
    }
  }
}
