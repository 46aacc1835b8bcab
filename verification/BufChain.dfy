/** Chains of nodes that point into input buffers. */
module BufChain {
  import opened Sequences
  import opened Bytes

  /** A chain node: `size` bytes from offset `off` of an input buffer. */
  datatype Node = Node(id: nat, buf: nat, off: nat, size: nat)

  type Buffers = seq<seq<byte>>

  ghost predicate NodeOk(mem: Buffers, n: Node) {
    n.buf < |mem| && n.size > 0 && n.off + n.size <= |mem[n.buf]|
  }

  ghost predicate ChainOk(mem: Buffers, chain: seq<Node>) {
    forall i :: 0 <= i < |chain| ==> NodeOk(mem, chain[i])
  }

  function NodeBytes(mem: Buffers, n: Node): (s: seq<byte>)
    requires NodeOk(mem, n)
    ensures |s| == n.size
  {
    mem[n.buf][n.off..n.off + n.size]
  }

  /** The bytes of a chain. */
  function Gather(mem: Buffers, chain: seq<Node>): seq<byte>
    requires ChainOk(mem, chain)
  {
    if chain == [] then [] else NodeBytes(mem, chain[0]) + Gather(mem, chain[1..])
  }

  function Ids(chain: seq<Node>): (r: seq<nat>)
    ensures |r| == |chain| && forall i :: 0 <= i < |chain| ==> r[i] == chain[i].id
  {
    seq(|chain|, i requires 0 <= i < |chain| => chain[i].id)
  }

  lemma ChainAppend(mem: Buffers, a: seq<Node>, b: seq<Node>)
    requires ChainOk(mem, a) && ChainOk(mem, b)
    ensures ChainOk(mem, a + b)
  {
  }

  lemma {:induction false} GatherAppend(mem: Buffers, a: seq<Node>, b: seq<Node>)
    requires ChainOk(mem, a) && ChainOk(mem, b)
    ensures ChainOk(mem, a + b) && Gather(mem, a + b) == Gather(mem, a) + Gather(mem, b)
  {
    hide Gather, ChainOk, NodeOk;
    ChainAppend(mem, a, b);
    if a == [] {
      GatherNone(mem);
      assert a + b == b;
    } else {
      GatherHead(mem, a);
      GatherHead(mem, a + b);
      GatherAppend(mem, a[1..], b);
      assert (a + b)[1..] == a[1..] + b && (a + b)[0] == a[0];
    }
  }

  lemma GatherNone(mem: Buffers)
    ensures ChainOk(mem, []) && Gather(mem, []) == []
  {
  }

  lemma GatherOne(mem: Buffers, n: Node)
    requires NodeOk(mem, n)
    ensures Gather(mem, [n]) == NodeBytes(mem, n)
  {
    assert [n][1..] == [];
  }

  /** Buffers only grow while nodes point into them. */
  ghost predicate Extends(mem: Buffers, mem': Buffers) {
    |mem| <= |mem'| && forall i :: 0 <= i < |mem| ==> mem[i] <= mem'[i]
  }

  lemma {:induction false} GatherExtends(mem: Buffers, mem': Buffers, chain: seq<Node>)
    requires ChainOk(mem, chain) && Extends(mem, mem')
    ensures ChainOk(mem', chain) && Gather(mem', chain) == Gather(mem, chain)
  {
    if chain != [] {
      var n := chain[0];
      assert mem[n.buf] <= mem'[n.buf];
      assert NodeOk(mem', n) && NodeBytes(mem', n) == NodeBytes(mem, n);
      GatherExtends(mem, mem', chain[1..]);
    }
    assert forall i :: 0 <= i < |chain| ==> NodeOk(mem', chain[i]);
  }

  /** Advances past `size` bytes, copying them: whole nodes are passed over, the node
      they end in is trimmed in place. */
  method Copy(mem: Buffers, chain: seq<Node>, size: nat)
    returns (bytes: seq<byte>, ok: bool, passed: nat, rest: seq<Node>)
    requires ChainOk(mem, chain)
    ensures ok <==> size <= |Gather(mem, chain)|
    ensures ok ==> bytes == Gather(mem, chain)[..size]
    ensures ok ==> passed <= |chain| && ChainOk(mem, rest) && Gather(mem, rest) == Gather(mem, chain)[size..]
    ensures ok ==> Ids(rest) == Ids(chain)[passed..]
  {
    hide Gather, ChainOk, NodeOk, Ids;
    var left := size;
    bytes, passed, rest := [], 0, chain;
    ghost var all := Gather(mem, chain);
    assert chain[0..] == chain && all[0..] == all;
    while left > 0
      invariant 0 <= left <= size && size - left <= |all|
      invariant passed <= |chain| && rest == chain[passed..] && ChainOk(mem, rest)
      invariant bytes == all[..size - left] && Gather(mem, rest) == all[size - left..]
    {
      if rest == [] {
        GatherNone(mem);
        return bytes, false, passed, rest;
      }
      var n := rest[0];
      GatherHead(mem, rest);
      IdsFrom(chain, passed);
      if left < n.size {
        TakeMore(all, size - left, left);
        bytes := bytes + mem[n.buf][n.off..n.off + left];
        rest := TrimHead(mem, rest, left);
        return bytes, true, passed, rest;
      }
      TakeMore(all, size - left, n.size);
      DropTwice(chain, passed, 1);
      bytes := bytes + mem[n.buf][n.off..n.off + n.size];
      left := left - n.size;
      passed := passed + 1;
      rest := rest[1..];
    }
    ok := true;
    IdsFrom(chain, passed);
  }

  lemma IdsFrom(chain: seq<Node>, k: nat)
    requires k <= |chain|
    ensures Ids(chain[k..]) == Ids(chain)[k..]
  {
  }

  method Skip(mem: Buffers, chain: seq<Node>, size: nat) returns (ok: bool, passed: nat, rest: seq<Node>)
    requires ChainOk(mem, chain)
    ensures ok <==> size <= |Gather(mem, chain)|
    ensures ok ==> passed <= |chain| && ChainOk(mem, rest) && Gather(mem, rest) == Gather(mem, chain)[size..]
    ensures ok ==> Ids(rest) == Ids(chain)[passed..]
  {
    var left := size;
    passed, rest := 0, chain;
    ghost var all := Gather(mem, chain);
    while left > 0
      invariant 0 <= left <= size && size - left <= |all|
      invariant passed <= |chain| && rest == chain[passed..]
      invariant Gather(mem, rest) == all[size - left..]
    {
      if rest == [] {
        return false, passed, rest;
      }
      var n := rest[0];
      GatherHead(mem, rest);
      TakeMore(all, size - left, if left < n.size then left else n.size);
      if left < n.size {
        rest := TrimHead(mem, rest, left);
        return true, passed, rest;
      }
      left := left - n.size;
      passed := passed + 1;
      rest := rest[1..];
    }
    ok := true;
    assert Ids(rest) == Ids(chain)[passed..];
  }

  lemma GatherHead(mem: Buffers, chain: seq<Node>)
    requires ChainOk(mem, chain) && chain != []
    ensures NodeOk(mem, chain[0]) && ChainOk(mem, chain[1..])
    ensures Gather(mem, chain) == NodeBytes(mem, chain[0]) + Gather(mem, chain[1..])
    ensures chain[0].size <= |Gather(mem, chain)|
    ensures Gather(mem, chain)[..chain[0].size] == NodeBytes(mem, chain[0])
    ensures Gather(mem, chain)[chain[0].size..] == Gather(mem, chain[1..])
  {
  }

  /** The first node loses its first k bytes. */
  method TrimHead(mem: Buffers, chain: seq<Node>, k: nat) returns (rest: seq<Node>)
    requires ChainOk(mem, chain) && chain != [] && k < chain[0].size
    ensures ChainOk(mem, rest) && Ids(rest) == Ids(chain)
    ensures k <= |Gather(mem, chain)| && Gather(mem, rest) == Gather(mem, chain)[k..]
    ensures Gather(mem, chain)[..k] == mem[chain[0].buf][chain[0].off..chain[0].off + k]
  {
    var n := chain[0];
    var n' := n.(off := n.off + k, size := n.size - k);
    rest := [n'] + chain[1..];
    GatherHead(mem, chain);
    assert NodeOk(mem, n') && NodeBytes(mem, n') == NodeBytes(mem, n)[k..];
    assert rest[1..] == chain[1..];
  }

  /** A chain with its end trimmed in place keeps its nodes. */
  lemma Trimmed(mem: Buffers, chain: seq<Node>, n: nat, rest: seq<Node>)
    requires ChainOk(mem, chain) && ChainOk(mem, rest) && n <= |chain| && Ids(rest) == Ids(chain)[n..]
    ensures ChainOk(mem, chain[..n] + rest) && Ids(chain[..n] + rest) == Ids(chain)
  {
    hide NodeOk;
    assert |Ids(rest)| == |chain| - n;
  }

  /** The last node grown in place. */
  lemma LastGrown(mem: Buffers, chain: seq<Node>, more: nat)
    requires ChainOk(mem, chain) && chain != []
    requires var l := chain[|chain| - 1]; NodeOk(mem, l) ==> l.off + l.size + more <= |mem[l.buf]|
    ensures var k := |chain| - 1;
      var l := chain[k];
      var grown := chain[..k] + [l.(size := l.size + more)];
      && NodeOk(mem, l) && ChainOk(mem, grown) && Ids(grown) == Ids(chain)
      && Gather(mem, grown) == Gather(mem, chain) + mem[l.buf][l.off + l.size..l.off + l.size + more]
  {
    hide Gather;
    var k := |chain| - 1;
    var l := chain[k];
    var l' := l.(size := l.size + more);
    assert NodeOk(mem, l) && NodeOk(mem, l') && ChainOk(mem, chain[..k]) && ChainOk(mem, [l]) && ChainOk(mem, [l']);
    assert chain == chain[..k] + [l];
    GatherAppend(mem, chain[..k], [l]);
    GatherAppend(mem, chain[..k], [l']);
    GatherOne(mem, l);
    GatherOne(mem, l');
    Longer(mem[l.buf], l.off, l.size, more);
    Associate(Gather(mem, chain[..k]), NodeBytes(mem, l), mem[l.buf][l.off + l.size..l.off + l.size + more]);
    GrownIds(chain, l');
  }

  lemma Longer(s: seq<byte>, at: nat, n: nat, more: nat)
    requires at + n + more <= |s|
    ensures s[at..at + (n + more)] == s[at..at + n] + s[at + n..at + n + more]
  {
  }

  lemma GrownIds(chain: seq<Node>, last: Node)
    requires chain != [] && last.id == chain[|chain| - 1].id
    ensures Ids(chain[..|chain| - 1] + [last]) == Ids(chain)
  {
  }
}
