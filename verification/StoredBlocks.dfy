// Images in stored blocks (RFC 1951, section 3.2.4): the fallback when Deflate does not compress.
module StoredBlocks {
  import opened Sequences
  import opened Options
  import opened PrefixCodes
  import opened Bits
  import opened Adler32

  const MAX_BLOCK := 65535

  // --- writing ---------------------------------------------------------------------------------------------------

  function BlockHeader(len: nat, last: bool): (r: seq<nat>)
    ensures |r| == 5
  {
    [if last then 1 else 0, len % 256, len / 256 % 256, (65535 - len as int % 65536) % 256,
        (65535 - len as int % 65536) / 256]
  }

  function FirstLen(src: seq<nat>): nat { if |src| < MAX_BLOCK then |src| else MAX_BLOCK }

  // Blocks of 65535 bytes, and the rest in the last block.
  function Blocks(src: seq<nat>): seq<nat> {
    if src == [] then []
    else
      var k := FirstLen(src);
      BlockHeader(k, k == |src|) + src[..k] + Blocks(src[k..])
  }

  // The checksum, most significant byte first.
  function BigEndian(v: nat): (r: seq<nat>)
    ensures |r| == 4
  {
    [v / 16777216 % 256, v / 65536 % 256, v / 256 % 256, v % 256]
  }

  lemma BigEndianValue(v: nat, b: seq<nat>)
    requires v < 0x1_0000_0000 && b == BigEndian(v)
    ensures ((b[0] * 256 + b[1]) * 256 + b[2]) * 256 + b[3] == v
  {
    DivideTwice(v, 256, 256);
    DivideTwice(v, 65536, 256);
    var q, r := v / 256, v / 65536;
    assert b[3] == v % 256 && b[2] == q % 256 && b[1] == r % 256 && b[0] == r / 256 % 256;
    hide *;
    assert r / 256 < 256;
  }

  lemma ChecksumBound(data: seq<nat>)
    ensures Checksum(data, 1) < 0x1_0000_0000
  {
  }

  // The last four bytes are the checksum of src, highest byte first.
  ghost predicate EndsInChecksum(all: seq<nat>, src: seq<nat>) {
    var n := |all|;
    && n >= 6 && Checksum(src, 1) < 0x1_0000_0000
    && ((all[n - 4] * 256 + all[n - 3]) * 256 + all[n - 2]) * 256 + all[n - 1] == Checksum(src, 1)
  }

  lemma TrailerIs(all: seq<nat>, before: seq<nat>, src: seq<nat>)
    requires |before| >= 2 && all == before + BigEndian(Checksum(src, 1))
    ensures EndsInChecksum(all, src)
  {
    hide BigEndian, Checksum;
    ChecksumBound(src);
    BigEndianValue(Checksum(src, 1), all[|before|..]);
  }

  function Stored(src: seq<nat>): seq<nat> { [0x78, 0x01] + Blocks(src) + BigEndian(Checksum(src, 1)) }

  // The size for which the encoder makes room.
  function StoredSize(len: nat): nat { 6 + len + ((len + 65534) / 65535) * 5 }

  lemma {:induction false} BlocksSize(src: seq<nat>)
    ensures |Blocks(src)| == |src| + ((|src| + 65534) / 65535) * 5
    decreases |src|
  {
    if src != [] {
      var k := FirstLen(src);
      BlocksSize(src[k..]);
      if |src| >= MAX_BLOCK {
        assert (|src| + 65534) / 65535 == (|src| - 65535 + 65534) / 65535 + 1;
      }
    }
  }

  // The size computed in advance is exact.
  lemma StoredExact(src: seq<nat>)
    ensures |Stored(src)| == StoredSize(|src|)
  {
    BlocksSize(src);
  }

  // One block at position ofs.
  method WriteBlock(src: seq<nat>, k: nat, last: bool, dst: array<nat>, ofs: nat)
    requires k <= |src| && k <= MAX_BLOCK && ofs + 5 + k <= dst.Length
    modifies dst
    ensures dst[..ofs + 5 + k] == old(dst[..ofs]) + BlockHeader(k, last) + src[..k]
  {
    ghost var before := dst[..ofs];
    dst[ofs] := if last then 1 else 0;
    dst[ofs + 1] := k % 256;
    dst[ofs + 2] := k / 256 % 256;
    dst[ofs + 3] := (65535 - k % 65536) % 256;
    dst[ofs + 4] := (65535 - k % 65536) / 256;
    assert dst[..ofs + 5] == before + BlockHeader(k, last);
    CopyBytes(src, k, dst, ofs + 5);
  }

  method CopyBytes(src: seq<nat>, k: nat, dst: array<nat>, ofs: nat)
    requires k <= |src| && ofs + k <= dst.Length
    modifies dst
    ensures dst[..ofs + k] == old(dst[..ofs]) + src[..k]
  {
    ghost var before := dst[..ofs];
    var i := 0;
    while i < k
      invariant 0 <= i <= k && dst[..ofs + i] == before + src[..i]
    {
      dst[ofs + i] := src[i];
      assert dst[..ofs + i + 1] == dst[..ofs + i] + [src[i]];
      i := i + 1;
    }
  }

  method WriteTrailer(adler: nat, dst: array<nat>, ofs: nat) returns (n: nat)
    requires ofs <= dst.Length
    modifies dst
    ensures n == if ofs + 4 <= dst.Length then ofs + 4 else 0
    ensures n != 0 ==> dst[..n] == old(dst[..ofs]) + BigEndian(adler)
  {
    ghost var before := dst[..ofs];
    var i := 0;
    while i < 4
      invariant 0 <= i <= 4 && ofs + i <= dst.Length && dst[..ofs + i] == before + BigEndian(adler)[..i]
    {
      if ofs + i + 1 > dst.Length { return 0; }
      dst[ofs + i] := BigEndian(adler)[i];
      assert dst[..ofs + i + 1] == dst[..ofs + i] + [BigEndian(adler)[i]];
      i := i + 1;
    }
    n := ofs + 4;
  }

  // What is written and what the rest will become make up the blocks.
  ghost predicate Written(out: seq<nat>, rest: seq<nat>, src: seq<nat>) {
    out + Blocks(rest) == [0x78, 0x01] + Blocks(src)
  }

  lemma RegroupFour(a: seq<nat>, b: seq<nat>, c: seq<nat>, d: seq<nat>)
    ensures a + (b + c + d) == a + b + c + d
  {
  }

  lemma NextBlockWritten(out: seq<nat>, rest: seq<nat>, src: seq<nat>, k: nat)
    requires Written(out, rest, src) && rest != [] && k == FirstLen(rest)
    ensures 0 < k <= |rest| && k <= MAX_BLOCK && Written(out + BlockHeader(k, k == |rest|) + rest[..k], rest[k..], src)
    ensures |out| + 5 + k + 4 <= StoredSize(|src|)
  {
    RegroupFour(out, BlockHeader(k, k == |rest|), rest[..k], Blocks(rest[k..]));
    StoredExact(src);
    assert |out| + |Blocks(rest)| == 2 + |Blocks(src)|;
  }

  lemma AllWritten(out: seq<nat>, rest: seq<nat>, src: seq<nat>)
    requires Written(out, rest, src) && rest == []
    ensures out + BigEndian(Checksum(src, 1)) == Stored(src) && |out| + 4 == StoredSize(|src|)
  {
    assert out + [] == out;
    StoredExact(src);
  }

  // Writes the stream; fails exactly if the buffer is too small.
  method WriteRawBlock(src: seq<nat>, dst: array<nat>) returns (n: nat)
    requires Bytes(src)
    modifies dst
    ensures n != 0 <==> dst.Length >= StoredSize(|src|)
    ensures n != 0 ==> n == StoredSize(|src|) && dst[..n] == Stored(src)
    ensures n != 0 ==> EndsInChecksum(dst[..n], src)
  {
    if dst.Length < 2 { return 0; }
    dst[0], dst[1] := 0x78, 0x01;
    var srcOfs, dstOfs := 0, 2;
    assert dst[..2] == [0x78, 0x01] && src[0..] == src;
    assert Written(dst[..dstOfs], src[srcOfs..], src);
    hide Written, Blocks, BlockHeader, StoredSize, Stored, FirstLen;
    while srcOfs < |src|
      invariant 0 <= srcOfs <= |src| && 2 <= dstOfs <= dst.Length
      invariant Written(dst[..dstOfs], src[srcOfs..], src)
    {
      var rest := src[srcOfs..];
      var k := FirstLen(rest);
      NextBlockWritten(dst[..dstOfs], rest, src, k);
      if dstOfs + 5 + k > dst.Length { return 0; }
      WriteBlock(rest, k, k == |rest|, dst, dstOfs);
      assert rest[k..] == src[srcOfs + k..];
      srcOfs := srcOfs + k;
      dstOfs := dstOfs + 5 + k;
    }
    AllWritten(dst[..dstOfs], src[srcOfs..], src);
    var adler := AdlerScalar(src, 1);
    ghost var written := dst[..dstOfs];
    n := WriteTrailer(adler, dst, dstOfs);
    if n != 0 {
      TrailerIs(dst[..n], written, src);
    }
  }
}
