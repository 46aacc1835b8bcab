/** KLPF framing: the constants of the format and its block header. */
module PersistFormat {
  import opened Bytes
  import opened Sequences

  const MAX_DEPTH: nat := 5
  const BLOCK_HDR: nat := 12
  const FILE_HDR: nat := 32

  /** header_size occupies 28 bits; the four above them are flags. */
  const HEADER_SIZE_LIMIT: nat := 0x1000_0000

  const FLAG_CONTAINER: nat := 1

  type flags = x: int | 0 <= x < 16

  /** `size | (flags << 28)`, stored in 32 bits. */
  function HeaderWord(size: nat, fl: flags): (w: u32)
    ensures size < HEADER_SIZE_LIMIT ==> w == size + fl * HEADER_SIZE_LIMIT
  {
    var top := size / HEADER_SIZE_LIMIT % 16;
    var or := if top == 0 then fl else ((top as bv4) | (fl as bv4)) as int;
    size % HEADER_SIZE_LIMIT + or * HEADER_SIZE_LIMIT
  }

  /** The twelve bytes in front of every block. */
  function BlockHeader(id: u32, size: nat, headerSize: u32): (h: seq<byte>)
    ensures |h| == BLOCK_HDR
  {
    LE(id, 4) + LE(size % U32, 4) + LE(headerSize, 4)
  }

  const FILE_MAGIC: u32 := 0x66706c6b        // klpf
  const FILE_MIN_VERSION: u32 := 9
  const FILE_MAX_VERSION: u32 := 10
  const FILE_VERSION: u32 := FILE_MAX_VERSION

  /** The header of a file of the given size. */
  function FileHeader(size: u32, ftype: u32, created: u64): (h: seq<byte>)
    ensures |h| == FILE_HDR
  {
    LE(FILE_MAGIC, 4) + LE(size, 4) + LE(HeaderWord(FILE_HDR, FLAG_CONTAINER), 4) + LE(0, 4)
    + LE(FILE_VERSION, 4) + LE(ftype, 4) + LE(created, 8)
  }

  /** The layout of a file header. */
  lemma FileFields(size: u32, ftype: u32, created: u64)
    ensures var s := FileHeader(size, ftype, created);
      && UnLE(s[0..4]) == 0x66706c6b && UnLE(s[4..8]) == size && UnLE(s[8..12]) == 0x1000_0020 && UnLE(s[12..16]) == 0
      && UnLE(s[16..20]) == 10 && UnLE(s[20..24]) == ftype && UnLE(s[24..32]) == created
  {
    var head, s := HeaderWord(FILE_HDR, FLAG_CONTAINER), FileHeader(size, ftype, created);
    assert head == 0x1000_0020;
    FieldSlices(LE(FILE_MAGIC, 4), LE(size, 4), LE(head, 4), LE(0, 4), LE(FILE_VERSION, 4), LE(ftype, 4),
      LE(created, 8), []);
    assert s + [] == s;
    hide LE, UnLE, FileHeader;
    Field32(FILE_MAGIC);
    Field32(size);
    Field32(head);
    Field32(0);
    Field32(FILE_VERSION);
    Field32(ftype);
    Field64(created);
  }

  /** The fields of a header, by their places. */
  lemma FieldSlices(a: seq<byte>, b: seq<byte>, c: seq<byte>, d: seq<byte>, e: seq<byte>, f: seq<byte>, g: seq<byte>,
                    body: seq<byte>)
    requires |a| == |b| == |c| == |d| == |e| == |f| == 4 && |g| == 8
    ensures var s := a + b + c + d + e + f + g + body;
      && s[..4] == a && s[4..8] == b && s[8..12] == c && s[12..16] == d && s[16..20] == e && s[20..24] == f
      && s[24..32] == g && s[32..] == body
  {
    var abcd, efg := a + b + c + d, e + f + g;
    var h := abcd + e + f + g;
    Halves(h, body);
    Quarters(a, b, c, d);
    Quarters(abcd, e, f, g);
    Associate(abcd, e, f);
    Associate(abcd, e + f, g);
    Associate(abcd, e + f + g, body);
    Front(abcd, e + f + g + body, 0, 4);
    Front(abcd, e + f + g + body, 4, 8);
    Front(abcd, e + f + g + body, 8, 12);
    Front(abcd, e + f + g + body, 12, 16);
    Front(h, body, 16, 20);
    Front(h, body, 20, 24);
    Front(h, body, 24, 32);
  }

  lemma Quarters(a: seq<byte>, b: seq<byte>, c: seq<byte>, d: seq<byte>)
    ensures var s := a + b + c + d;
      && s[..|a|] == a && s[|a|..|a| + |b|] == b && s[|a| + |b|..|a| + |b| + |c|] == c
      && s[|a| + |b| + |c|..|a| + |b| + |c| + |d|] == d
  {
  }

  lemma Front(s: seq<byte>, t: seq<byte>, i: nat, j: nat)
    requires i <= j <= |s|
    ensures (s + t)[i..j] == s[i..j]
  {
  }

  lemma FileHeaderSize(stale: u32, size: u32, ftype: u32, created: u64)
    ensures Splice(FileHeader(stale, ftype, created), 4, LE(size, 4)) == FileHeader(size, ftype, created)
  {
    hide LE, HeaderWord, Splice;
    var a := LE(FILE_MAGIC, 4);
    var b := LE(HeaderWord(FILE_HDR, FLAG_CONTAINER), 4) + LE(0, 4) + LE(FILE_VERSION, 4) + LE(ftype, 4) + LE(created,
      8);
    assert FileHeader(stale, ftype, created) == a + LE(stale, 4) + b;
    assert FileHeader(size, ftype, created) == a + LE(size, 4) + b;
    SpliceAt(a, LE(stale, 4), b, LE(size, 4));
  }
}
