/** Bytes, fixed-width integer fields and flat views of chunked byte strings. */
module Bytes {
  import opened Sequences

  type byte = x: int | 0 <= x < 0x100

  const U32: nat := 0x1_0000_0000
  const U64: nat := 0x1_0000_0000_0000_0000

  type u32 = x: int | 0 <= x < 0x1_0000_0000
  type u64 = x: int | 0 <= x < 0x1_0000_0000_0000_0000
  type i32 = x: int | -0x8000_0000 <= x < 0x8000_0000
  type i64 = x: int | -0x8000_0000_0000_0000 <= x < 0x8000_0000_0000_0000

  /** 256 to the power k: the number of values a k-byte field can hold. */
  function Radix(k: nat): (r: nat)
    ensures r > 0
  {
    if k == 0 then 1 else 0x100 * Radix(k - 1)
  }

  /** The k low-order bytes of n, least significant first (a store truncates). */
  function LE(n: nat, k: nat): (s: seq<byte>)
    ensures |s| == k
  {
    if k == 0 then [] else [n % 0x100] + LE(n / 0x100, k - 1)
  }

  /** The value of a little-endian field. */
  function UnLE(s: seq<byte>): (n: nat)
    ensures n < Radix(|s|)
  {
    if s == [] then 0 else s[0] + 0x100 * UnLE(s[1..])
  }

  lemma {:induction false} UnLEOfLE(n: nat, k: nat)
    requires n < Radix(k)
    ensures UnLE(LE(n, k)) == n
  {
    if k > 0 {
      UnLEOfLE(n / 0x100, k - 1);
    }
  }

  lemma {:induction false} LEOfUnLE(s: seq<byte>)
    ensures LE(UnLE(s), |s|) == s
  {
    if s != [] {
      LEOfUnLE(s[1..]);
      assert UnLE(s) % 0x100 == s[0] && UnLE(s) / 0x100 == UnLE(s[1..]);
    }
  }

  /** The bytes of a 32-bit field, least significant first. */
  lemma LittleEndian(n: u32)
    ensures LE(n, 4) == [n % 256, n / 256 % 256, n / 65536 % 256, n / 16777216]
  {
    var a, b := n / 256, n / 256 / 256;
    assert LE(n, 4) == [n % 256] + LE(a, 3) && LE(a, 3) == [a % 256] + LE(b, 2);
    assert LE(b, 2) == [b % 256] + LE(b / 256, 1) && LE(b / 256, 1) == [b / 256 % 256] + LE(b / 256 / 256, 0);
    assert b == n / 65536 && b / 256 == n / 16777216 && n / 16777216 < 256;
  }

  lemma Field32(n: u32)
    ensures UnLE(LE(n, 4)) == n
  {
    assert Radix(4) == U32 by { RadixValues(); }
    UnLEOfLE(n, 4);
  }

  lemma Field64(n: u64)
    ensures UnLE(LE(n, 8)) == n
  {
    assert Radix(8) == U64 by { RadixValues(); }
    UnLEOfLE(n, 8);
  }

  lemma RadixValues()
    ensures Radix(2) == 0x1_0000 && Radix(4) == U32 && Radix(8) == U64
  {
    assert Radix(0) == 1;
    assert Radix(1) == 0x100;
    assert Radix(2) == 0x1_0000;
    assert Radix(3) == 0x100_0000;
    assert Radix(4) == U32;
    assert Radix(5) == 0x100_0000_0000;
    assert Radix(6) == 0x1_0000_0000_0000;
    assert Radix(7) == 0x100_0000_0000_0000;
  }

  /** Two's complement: the unsigned image of a signed 32-bit value, and back. */
  function OfI32(x: i32): u32 { if x < 0 then x + U32 else x }
  function ToI32(n: u32): i32 { if n < 0x8000_0000 then n else n - U32 }

  function OfI64(x: i64): u64 { if x < 0 then x + U64 else x }
  function ToI64(n: u64): i64 { if n < 0x8000_0000_0000_0000 then n else n - U64 }

  /** Overwrite of the bytes at [at, at + |data|). */
  function Splice(s: seq<byte>, at: nat, data: seq<byte>): (r: seq<byte>)
    requires at + |data| <= |s|
    ensures |r| == |s|
  {
    s[..at] + data + s[at + |data|..]
  }

  lemma SpliceSplit(s: seq<byte>, at: nat, data: seq<byte>, k: nat)
    requires at + |data| <= |s| && k <= |data|
    ensures Splice(Splice(s, at, data[..k]), at + k, data[k..]) == Splice(s, at, data)
  {
  }

  lemma SpliceInside(s: seq<byte>, at: nat, data: seq<byte>, lo: nat, hi: nat)
    requires lo <= at && at + |data| <= hi <= |s|
    ensures Splice(s, at, data)[lo..hi] == Splice(s[lo..hi], at - lo, data)
  {
    var t := Splice(s, at, data);
    var l, r := t[lo..hi], Splice(s[lo..hi], at - lo, data);
    forall i | 0 <= i < hi - lo ensures l[i] == r[i] {
      assert l[i] == t[lo + i];
    }
    assert |l| == |r|;
  }

  lemma SpliceOutside(s: seq<byte>, at: nat, data: seq<byte>, lo: nat, hi: nat)
    requires lo <= hi <= |s| && at + |data| <= |s| && (hi <= at || at + |data| <= lo)
    ensures Splice(s, at, data)[lo..hi] == s[lo..hi]
  {
    var t := Splice(s, at, data);
    var l, r := t[lo..hi], s[lo..hi];
    forall i | 0 <= i < hi - lo ensures l[i] == r[i] {
      assert l[i] == t[lo + i] && r[i] == s[lo + i];
    }
  }

  lemma SpliceAt(a: seq<byte>, hole: seq<byte>, b: seq<byte>, data: seq<byte>)
    requires |hole| == |data|
    ensures Splice(a + hole + b, |a|, data) == a + data + b
  {
    var s := a + hole + b;
    assert s[..|a|] == a && s[|a| + |data|..] == b;
  }

  function Zeros(n: nat): (s: seq<byte>)
    ensures |s| == n
  {
    seq(n, _ => 0)
  }

  /** The flat content of a chunked byte string. */
  function Flat<T>(ss: seq<seq<T>>): seq<T> {
    if ss == [] then [] else ss[0] + Flat(ss[1..])
  }

  lemma {:induction false} FlatAppend<T>(a: seq<seq<T>>, b: seq<seq<T>>)
    ensures Flat(a + b) == Flat(a) + Flat(b)
  {
    if a == [] {
      assert a + b == b;
    } else {
      FlatAppend(a[1..], b);
      Behead(a, b);
      Associate(a[0], Flat(a[1..]), Flat(b));
    }
  }

  lemma FlatSnoc<T>(a: seq<seq<T>>, x: seq<T>)
    ensures Flat(a + [x]) == Flat(a) + x
  {
    FlatAppend(a, [x]);
    assert Flat([x]) == x + Flat([]);
  }

  lemma FlatCut<T>(ss: seq<seq<T>>, i: nat)
    requires i <= |ss|
    ensures Flat(ss) == Flat(ss[..i]) + Flat(ss[i..])
  {
    hide Flat;
    Rejoin(ss, i);
    FlatAppend(ss[..i], ss[i..]);
  }

  lemma FlatPrefixSnoc<T>(ss: seq<seq<T>>, i: nat)
    requires i < |ss|
    ensures Flat(ss[..i + 1]) == Flat(ss[..i]) + ss[i]
  {
    FlatSnoc(ss[..i], ss[i]);
    assert ss[..i + 1] == ss[..i] + [ss[i]];
  }

  /** Splitting at chunk i. */
  lemma FlatAt<T>(ss: seq<seq<T>>, i: nat)
    requires i < |ss|
    ensures Flat(ss) == Flat(ss[..i]) + ss[i] + Flat(ss[i + 1..])
    ensures Flat(ss[..i + 1]) == Flat(ss[..i]) + ss[i]
  {
    hide Flat;
    FlatCut(ss, i + 1);
    FlatPrefixSnoc(ss, i);
  }

  lemma SpliceMiddle(a: seq<byte>, s: seq<byte>, b: seq<byte>, at: nat, data: seq<byte>)
    requires at + |data| <= |s|
    ensures Splice(a + s + b, |a| + at, data) == a + Splice(s, at, data) + b
  {
  }

  /** Overwriting inside one chunk is overwriting inside the flat content. */
  lemma FlatSplice(ss: seq<seq<byte>>, i: nat, at: nat, data: seq<byte>)
    requires i < |ss| && at + |data| <= |ss[i]|
    ensures |Flat(ss[..i])| + at + |data| <= |Flat(ss)|
    ensures Flat(ss[i := Splice(ss[i], at, data)]) == Splice(Flat(ss), |Flat(ss[..i])| + at, data)
  {
    hide Flat, Splice;
    var x := Splice(ss[i], at, data);
    var t := ss[i := x];
    UpdateAt(ss, i, x);
    FlatAt(ss, i);
    FlatAt(t, i);
    SpliceMiddle(Flat(ss[..i]), ss[i], Flat(ss[i + 1..]), at, data);
  }

  /** Uniform chunks: the flat length is a product. */
  lemma {:induction false} FlatUniform<T>(ss: seq<seq<T>>, n: nat)
    requires forall i :: 0 <= i < |ss| ==> |ss[i]| == n
    ensures |Flat(ss)| == |ss| * n
  {
    if ss != [] {
      FlatUniform(ss[1..], n);
      assert |ss| * n == n + (|ss| - 1) * n;
    }
  }

  /** The flat length depends on the chunk lengths only. */
  lemma {:induction false} FlatSameLengths<T>(a: seq<seq<T>>, b: seq<seq<T>>)
    requires |a| == |b| && forall i :: 0 <= i < |a| ==> |a[i]| == |b[i]|
    ensures |Flat(a)| == |Flat(b)|
  {
    if a != [] {
      FlatSameLengths(a[1..], b[1..]);
    }
  }

  lemma SpliceNone(s: seq<byte>, at: nat)
    requires at <= |s|
    ensures Splice(s, at, []) == s
  {
  }

  lemma SpliceNext(s: seq<byte>, at: nat, data: seq<byte>, p: nat, k: nat)
    requires at + |data| <= |s| && p + k <= |data|
    ensures Splice(Splice(s, at, data[..p]), at + p, data[p..p + k]) == Splice(s, at, data[..p + k])
  {
    assert data[..p + k][..p] == data[..p] && data[..p + k][p..] == data[p..p + k];
    SpliceSplit(s, at, data[..p + k], p);
  }

  lemma FlatNone<T>()
    ensures Flat<T>([]) == []
  {
  }

  lemma FlatHead<T>(ss: seq<seq<T>>)
    requires ss != []
    ensures Flat(ss) == ss[0] + Flat(ss[1..])
  {
  }

  lemma TakeMore<T>(s: seq<T>, k: nat, n: nat)
    requires k + n <= |s|
    ensures s[..k + n] == s[..k] + s[k..][..n]
    ensures s[k + n..] == s[k..][n..]
  {
  }
}
