/** Chains of windows over memory, and the markers that point into them. */
module PersistChain {
  import opened Sequences
  import opened Bytes

  /** A buffer: bytes [pos, last) of a memory region hold data, [last, end) is room. */
  datatype Buf = Buf(region: nat, pos: nat, last: nat, end: nat, temporary: bool)

  /** Where reserved bytes start: offset `size` of the output, position `pos` of the
      link before link number `next`. */
  datatype Marker = Marker(size: nat, next: nat, pos: nat)

  type Memory = seq<seq<byte>>

  ghost predicate InMemory(mem: Memory, b: Buf) {
    b.region < |mem| && b.pos <= b.last <= b.end <= |mem[b.region]|
  }

  /** Two windows share no byte that either may still write. */
  ghost predicate Apart(a: Buf, b: Buf) {
    a.region != b.region || (!a.temporary && !b.temporary) || a.end <= b.pos
  }

  ghost predicate Disjoint(mem: Memory, out: seq<Buf>) {
    && (forall i :: 0 <= i < |out| ==> InMemory(mem, out[i]))
    && (forall i, j :: 0 <= i < j < |out| ==> Apart(out[i], out[j]))
  }

  ghost function Data(mem: Memory, b: Buf): (d: seq<byte>)
    requires InMemory(mem, b)
  {
    mem[b.region][b.pos..b.last]
  }

  ghost function Parts(mem: Memory, out: seq<Buf>): (r: seq<seq<byte>>)
    requires Disjoint(mem, out)
    ensures |r| == |out| && forall i :: 0 <= i < |out| ==> r[i] == Data(mem, out[i])
  {
    seq(|out|, i requires 0 <= i < |out| => Data(mem, out[i]))
  }

  /** Marker m denotes the n output bytes from offset m.size, when the links are
      `out` and hold `ds`: all of them lie in writable buffers. */
  ghost predicate MarkOk(out: seq<Buf>, ds: seq<seq<byte>>, m: Marker, n: nat) {
    && |out| == |ds| && 1 <= m.next <= |out|
    && out[m.next - 1].pos <= m.pos <= out[m.next - 1].pos + |ds[m.next - 1]|
    && m.size == |Flat(ds[..m.next - 1])| + (m.pos - out[m.next - 1].pos)
    && m.size + n <= |Flat(ds)|
    && forall i :: m.next - 1 <= i < |ds| && |Flat(ds[..i])| < m.size + n ==> out[i].temporary
  }

  ghost predicate NonEmpty(ds: seq<seq<byte>>) {
    forall i :: 0 <= i < |ds| ==> ds[i] != []
  }

  /** Links and their data only grow at the end. */
  ghost predicate Grows(out: seq<Buf>, ds: seq<seq<byte>>, out': seq<Buf>, ds': seq<seq<byte>>) {
    && |out| == |ds| <= |ds'| == |out'|
    && (forall i :: 0 <= i < |out| ==> out'[i].pos == out[i].pos && out'[i].temporary == out[i].temporary)
    && (forall i :: 0 <= i < |ds| - 1 ==> ds'[i] == ds[i])
    && (ds != [] ==> ds[|ds| - 1] <= ds'[|ds| - 1])
  }

  lemma NonEmptySnoc(ds: seq<seq<byte>>, d: seq<byte>)
    requires NonEmpty(ds) && d != []
    ensures NonEmpty(ds + [d])
  {
  }

  lemma FlatGrows(ds: seq<seq<byte>>, ds': seq<seq<byte>>, i: nat)
    requires |ds| <= i <= |ds'| && (forall i :: 0 <= i < |ds| - 1 ==> ds'[i] == ds[i])
    requires ds != [] ==> ds[|ds| - 1] <= ds'[|ds| - 1]
    ensures |Flat(ds)| <= |Flat(ds'[..i])|
  {
    if ds != [] {
      hide Flat;
      var n := |ds| - 1;
      var t := ds'[..i];
      FlatAt(ds, n);
      FlatAt(t, n);
      assert ds[..n + 1] == ds && t[..n] == ds[..n];
    }
  }

  /** Growing the output leaves every marker denoting the same bytes. */
  lemma MarkGrows(out: seq<Buf>, ds: seq<seq<byte>>, out': seq<Buf>, ds': seq<seq<byte>>, m: Marker, n: nat)
    requires MarkOk(out, ds, m, n) && Grows(out, ds, out', ds')
    ensures MarkOk(out', ds', m, n)
  {
    hide Flat;
    forall i | m.next - 1 <= i < |ds'| && |Flat(ds'[..i])| < m.size + n
      ensures out'[i].temporary
    {
      if i < |ds| {
        assert ds'[..i] == ds[..i];
      } else {
        FlatGrows(ds, ds', i);
      }
    }
    FlatGrows(ds, ds', |ds'|);
    assert ds'[..|ds'|] == ds' && ds'[..m.next - 1] == ds[..m.next - 1];
  }

  /** Overwriting data in place leaves every marker denoting the same bytes. */
  lemma MarkKeeps(out: seq<Buf>, ds: seq<seq<byte>>, ds': seq<seq<byte>>, m: Marker, n: nat)
    requires MarkOk(out, ds, m, n)
    requires |ds| == |ds'| && forall i :: 0 <= i < |ds| ==> |ds[i]| == |ds'[i]|
    ensures MarkOk(out, ds', m, n)
  {
    hide Flat;
    FlatSameLengths(ds, ds');
    forall i | 0 <= i <= |ds| ensures |Flat(ds[..i])| == |Flat(ds'[..i])| {
      FlatSameLengths(ds[..i], ds'[..i]);
    }
  }

  lemma AppendToLast(ds: seq<seq<byte>>, x: seq<byte>)
    requires ds != []
    ensures Flat(ds[|ds| - 1 := ds[|ds| - 1] + x]) == Flat(ds) + x
  {
    hide Flat;
    var n := |ds| - 1;
    var ds' := ds[n := ds[n] + x];
    UpdateAt(ds, n, ds[n] + x);
    Snoc(ds);
    Snoc(ds');
    FlatSnoc(ds[..n], ds[n]);
    FlatSnoc(ds[..n], ds[n] + x);
    Associate(Flat(ds[..n]), ds[n], x);
  }

  /** Filling the room of the last link changes that link's data only. */
  lemma PutKeeps(mem: Memory, out: seq<Buf>, data: seq<byte>, mem': Memory, out': seq<Buf>)
    requires Disjoint(mem, out) && out != []
    requires var b := out[|out| - 1];
      && b.temporary && |data| <= b.end - b.last
      && mem' == mem[b.region := Splice(mem[b.region], b.last, data)]
      && out' == out[|out| - 1 := b.(last := b.last + |data|)]
    ensures Disjoint(mem', out')
    ensures Parts(mem', out') == Parts(mem, out)[|out| - 1 := Parts(mem, out)[|out| - 1] + data]
  {
    var n := |out| - 1;
    var b, b' := out[n], out'[n];
    assert InMemory(mem', b');
    forall i | 0 <= i < n ensures InMemory(mem', out'[i]) && Data(mem', out'[i]) == Data(mem, out[i]) {
      assert Apart(out[i], b);
    }
    assert Data(mem', b') == Data(mem, b) + data;
    assert forall i, j :: 0 <= i < j < |out'| ==> Apart(out[i], out[j]) && Apart(out'[i], out'[j]);
    assert Disjoint(mem', out');
  }

  ghost predicate TempFrom(out: seq<Buf>, n: nat) {
    forall i :: n <= i < |out| ==> out[i].temporary
  }

  /** Growth by writable links only, from the last of `out` on. */
  ghost predicate Fills(out: seq<Buf>, ds: seq<seq<byte>>, out': seq<Buf>, ds': seq<seq<byte>>) {
    out != [] && Grows(out, ds, out', ds') && TempFrom(out', |out| - 1)
  }

  lemma FillsTrans(out0: seq<Buf>, ds0: seq<seq<byte>>, out1: seq<Buf>, ds1: seq<seq<byte>>,
                   out2: seq<Buf>, ds2: seq<seq<byte>>)
    requires Fills(out0, ds0, out1, ds1) && Fills(out1, ds1, out2, ds2)
    ensures Fills(out0, ds0, out2, ds2)
  {
    GrowsTrans(out0, ds0, out1, ds1, out2, ds2);
    forall i | |out0| - 1 <= i < |out2| ensures out2[i].temporary {
      if i < |out1| {
        assert out1[i].temporary;
      }
    }
  }

  lemma GrowsRefl(out: seq<Buf>, ds: seq<seq<byte>>)
    requires |out| == |ds|
    ensures Grows(out, ds, out, ds)
  {
  }

  /** A buffer without data is linked. */
  lemma LinkFresh(mem: Memory, out: seq<Buf>, buf: Buf)
    requires Disjoint(mem, out) && InMemory(mem, buf) && buf.pos == buf.last
    requires forall i :: 0 <= i < |out| ==> Apart(out[i], buf)
    ensures Disjoint(mem, out + [buf]) && Parts(mem, out + [buf]) == Parts(mem, out) + [[]]
    ensures Grows(out, Parts(mem, out), out + [buf], Parts(mem, out) + [[]])
    ensures (Parts(mem, out) + [[]])[..|out|] == Parts(mem, out)
  {
    hide Apart;
    assert Data(mem, buf) == [];
  }

  lemma GrowsTrans(out0: seq<Buf>, ds0: seq<seq<byte>>, out1: seq<Buf>, ds1: seq<seq<byte>>,
                   out2: seq<Buf>, ds2: seq<seq<byte>>)
    requires Grows(out0, ds0, out1, ds1) && Grows(out1, ds1, out2, ds2)
    ensures Grows(out0, ds0, out2, ds2)
  {
    forall i | 0 <= i < |ds0| - 1 ensures ds2[i] == ds0[i] {
      assert ds1[i] == ds0[i];
    }
  }

  /** Reserving n bytes behind `ds0` marks exactly those bytes. */
  lemma NewMark(out0: seq<Buf>, ds0: seq<seq<byte>>, out: seq<Buf>, ds: seq<seq<byte>>, n: nat)
    requires ds0 != [] && Grows(out0, ds0, out, ds) && TempFrom(out, |out0| - 1)
    requires |Flat(ds)| == |Flat(ds0)| + n
    ensures MarkOk(out, ds, Marker(|Flat(ds0)|, |ds0|, out0[|ds0| - 1].pos + |ds0[|ds0| - 1]|), n)
  {
    var k := |ds0| - 1;
    FlatAt(ds0, k);
    assert ds0[..k + 1] == ds0 && ds[..k] == ds0[..k];
  }

  /** Moving a marker to the next link. */
  lemma MarkStep(out: seq<Buf>, ds: seq<seq<byte>>, m: Marker, n: nat, left: nat)
    requires MarkOk(out, ds, m, n)
    requires m.pos + left == out[m.next - 1].pos + |ds[m.next - 1]| && left < n
    ensures m.next < |out| && out[m.next].temporary
    ensures MarkOk(out, ds, Marker(m.size + left, m.next + 1, out[m.next].pos), n - left)
  {
    FlatAt(ds, m.next - 1);
    assert ds[..|ds|] == ds;
  }

  lemma MarkWithin(out: seq<Buf>, ds: seq<seq<byte>>, m: Marker, n: nat, k: nat)
    requires MarkOk(out, ds, m, n) && k <= n && m.pos + k <= out[m.next - 1].pos + |ds[m.next - 1]|
    ensures MarkOk(out, ds, Marker(m.size + k, m.next, m.pos + k), n - k)
  {
  }

  lemma MarkBound(out: seq<Buf>, ds: seq<seq<byte>>, m: Marker, n: nat)
    requires MarkOk(out, ds, m, n) && n > 0
    ensures 1 <= m.next <= |out| == |ds| && out[m.next - 1].temporary
    ensures out[m.next - 1].pos <= m.pos <= out[m.next - 1].pos + |ds[m.next - 1]|
    ensures |Flat(ds[..m.next - 1])| + (m.pos - out[m.next - 1].pos) == m.size
    ensures m.size + n <= |Flat(ds)|
  {
  }

  lemma PartAt(mem: Memory, out: seq<Buf>, k: nat)
    requires Disjoint(mem, out) && k < |out|
    ensures InMemory(mem, out[k]) && |Parts(mem, out)[k]| == out[k].last - out[k].pos
  {
  }

  /** Cutting the room off the last link into a window of its own. */
  lemma SplitKeeps(mem: Memory, out: seq<Buf>, out': seq<Buf>, buf': Buf)
    requires Disjoint(mem, out) && out != []
    requires var b := out[|out| - 1];
      && b.temporary && b.last < b.end
      && out' == out[|out| - 1 := b.(end := b.last)]
      && buf' == Buf(b.region, b.last, b.last, b.end, true)
    ensures Disjoint(mem, out') && InMemory(mem, buf') && Parts(mem, out') == Parts(mem, out)
    ensures forall i :: 0 <= i < |out'| ==> Apart(out'[i], buf')
  {
    forall i, j | 0 <= i < j < |out'| ensures Apart(out'[i], out'[j]) {
      assert Apart(out[i], out[j]);
    }
    forall i | 0 <= i < |out'| - 1 ensures Apart(out'[i], buf') {
      assert Apart(out[i], out[|out| - 1]);
    }
    assert forall i :: 0 <= i < |out'| ==> InMemory(mem, out'[i]) && Data(mem, out'[i]) == Data(mem, out[i]);
  }

  /** Linking a region of its own behind the chain. */
  lemma AttachKeeps(mem: Memory, out: seq<Buf>, buf: Buf, data: seq<byte>, mem': Memory, out': seq<Buf>)
    requires Disjoint(mem, out) && InMemory(mem, buf)
    requires forall i :: 0 <= i < |out| ==> Apart(out[i], buf)
    requires mem' == mem + [data] && out' == out + [Buf(|mem|, 0, |data|, |data|, false)]
    ensures Disjoint(mem', out') && InMemory(mem', buf) && Parts(mem', out') == Parts(mem, out) + [data]
    ensures forall i :: 0 <= i < |out'| ==> Apart(out'[i], buf)
  {
    var n := |out|;
    assert InMemory(mem', out'[n]) && Data(mem', out'[n]) == data;
    forall i | 0 <= i < n ensures InMemory(mem', out'[i]) && Data(mem', out'[i]) == Data(mem, out[i]) {
      assert InMemory(mem, out[i]);
    }
    forall i, j | 0 <= i < j < |out'| ensures Apart(out'[i], out'[j]) {
      assert InMemory(mem, out[i]);
      if j < n {
        assert Apart(out[i], out[j]);
      }
    }
  }

  /** Overwriting written bytes of one link changes that link's data only. */
  lemma PatchKeeps(mem: Memory, out: seq<Buf>, k: nat, at: nat, data: seq<byte>, mem': Memory)
    requires Disjoint(mem, out) && k < |out| && out[k].temporary
    requires out[k].pos <= at && at + |data| <= out[k].last
    requires mem' == mem[out[k].region := Splice(mem[out[k].region], at, data)]
    ensures Disjoint(mem', out)
    ensures Parts(mem', out) == Parts(mem, out)[k := Splice(Parts(mem, out)[k], at - out[k].pos, data)]
  {
    var b := out[k];
    forall i | 0 <= i < |out| && i != k
      ensures InMemory(mem', out[i]) && Data(mem', out[i]) == Data(mem, out[i])
    {
      assert InMemory(mem, out[i]);
      if i < k {
        assert Apart(out[i], b);
      } else {
        assert Apart(b, out[i]);
      }
      if out[i].region == b.region {
        SpliceOutside(mem[b.region], at, data, out[i].pos, out[i].last);
      }
    }
    SpliceInside(mem[b.region], at, data, b.pos, b.last);
  }

  lemma NonEmptyAt(ds: seq<seq<byte>>, i: nat)
    requires NonEmpty(ds) && i < |ds|
    ensures ds[i] != []
  {
  }

  lemma NonEmptyFlat(ds: seq<seq<byte>>)
    requires NonEmpty(ds)
    ensures Flat(ds) == [] <==> ds == []
  {
  }

  /** The same windows in a memory that has n regions in front. */
  function Rebase(out: seq<Buf>, n: nat): (r: seq<Buf>)
    ensures |r| == |out| && forall i :: 0 <= i < |out| ==> r[i] == out[i].(region := out[i].region + n)
  {
    seq(|out|, i requires 0 <= i < |out| => out[i].(region := out[i].region + n))
  }

  lemma AdoptKeeps(mem: Memory, out: seq<Buf>, buf: Buf, mem2: Memory, out2: seq<Buf>)
    requires Disjoint(mem, out) && InMemory(mem, buf) && Disjoint(mem2, out2)
    requires forall i :: 0 <= i < |out| ==> Apart(out[i], buf)
    ensures var out' := out + Rebase(out2, |mem|);
      && Disjoint(mem + mem2, out') && InMemory(mem + mem2, buf)
      && Parts(mem + mem2, out') == Parts(mem, out) + Parts(mem2, out2)
      && forall i :: 0 <= i < |out'| ==> Apart(out'[i], buf)
  {
    AdoptData(mem, out, mem2, out2);
    AdoptApart(mem, out, mem2, out2);
  }

  lemma AdoptData(mem: Memory, out: seq<Buf>, mem2: Memory, out2: seq<Buf>)
    requires Disjoint(mem, out) && Disjoint(mem2, out2)
    ensures var n, mem', out' := |out|, mem + mem2, out + Rebase(out2, |mem|);
      && (forall i :: 0 <= i < n ==> InMemory(mem', out'[i]) && Data(mem', out'[i]) == Data(mem, out[i]))
      && (forall i :: n <= i < |out'| ==> InMemory(mem', out'[i]) && Data(mem', out'[i]) == Data(mem2, out2[i - n]))
  {
    hide Apart;
    var n, mem', out' := |out|, mem + mem2, out + Rebase(out2, |mem|);
    forall i | 0 <= i < n ensures InMemory(mem', out'[i]) && Data(mem', out'[i]) == Data(mem, out[i]) {
      assert InMemory(mem, out[i]);
    }
    forall i | n <= i < |out'| ensures InMemory(mem', out'[i]) && Data(mem', out'[i]) == Data(mem2, out2[i - n]) {
      assert InMemory(mem2, out2[i - n]);
    }
  }

  lemma AdoptApart(mem: Memory, out: seq<Buf>, mem2: Memory, out2: seq<Buf>)
    requires Disjoint(mem, out) && Disjoint(mem2, out2)
    ensures var out' := out + Rebase(out2, |mem|);
      forall i, j :: 0 <= i < j < |out'| ==> Apart(out'[i], out'[j])
  {
    var n, out' := |out|, out + Rebase(out2, |mem|);
    forall i, j | 0 <= i < j < |out'| ensures Apart(out'[i], out'[j]) {
      if j < n {
        assert Apart(out[i], out[j]);
      } else if i < n {
        assert InMemory(mem, out[i]);
      } else {
        assert Apart(out2[i - n], out2[j - n]);
      }
    }
  }
}
