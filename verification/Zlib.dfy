// What a stream of bytes says to any reader of zlib data (RFC 1950, RFC 1951): a reference that shares no table and no
// convention with the encoder or the decoder of this codec.
module Zlib {
  import opened Sequences
  import opened Options
  import opened PrefixCodes
  import opened Bits
  import opened CanonicalCodes
  import opened Streams
  import Adler32

  // The order in which the lengths of the code length codes are sent (RFC 1951, section 3.2.7).
  const CLEN_ORDER: seq<nat> := [16, 17, 18, 0, 8, 7, 9, 6, 10, 5, 11, 4, 12, 3, 13, 2, 14, 1, 15]

  // Base and extra bits of the length symbols from 257 on, and of the distance symbols (section 3.2.5).
  const LENGTH_BASE: seq<nat> := [3, 4, 5, 6, 7, 8, 9, 10, 11, 13, 15, 17, 19, 23, 27, 31, 35, 43, 51, 59, 67, 83, 99,
    115, 131, 163, 195, 227, 258]
  const LENGTH_BITS: seq<nat> := [0, 0, 0, 0, 0, 0, 0, 0, 1, 1, 1, 1, 2, 2, 2, 2, 3, 3, 3, 3, 4, 4, 4, 4, 5, 5, 5, 5, 0]
  const DISTANCE_BASE: seq<nat> := [1, 2, 3, 4, 5, 7, 9, 13, 17, 25, 33, 49, 65, 97, 129, 193, 257, 385, 513, 769, 1025,
    1537, 2049, 3073, 4097, 6145, 8193, 12289, 16385, 24577]
  const DISTANCE_BITS: seq<nat> := [0, 0, 0, 0, 1, 1, 2, 2, 3, 3, 4, 4, 5, 5, 6, 6, 7, 7, 8, 8, 9, 9, 10, 10, 11, 11,
    12, 12, 13, 13]

  // The n bits of the stream x from position p on, the first of them the lowest.
  function Field(x: nat, p: nat, n: nat): nat { Lower(Upper(x, p), n) }

  // --- the codes of a dynamic block ----------------------------------------------------------------

  // Field i of three bits after the first 14 bits is the length of the code of the i-th symbol of the list; there are n
  // fields.
  ghost predicate ClensAre(clen: seq<nat>, x: nat, n: nat) {
    |clen| == 19 && forall i :: 0 <= i < 19 ==> clen[CLEN_ORDER[i]] == if i < n then Field(x, 14 + 3 * i, 3) else 0
  }

  // Lengths that have been read, and the bits they took.
  datatype Lengths = Lengths(sizes: seq<nat>, len: nat)

  function Same(v: nat, n: nat): (r: seq<nat>)
    ensures |r| == n && forall i :: 0 <= i < n ==> r[i] == v
  {
    seq(n, _ => v)
  }

  // The lengths that symbol s adds to those in out, and the bits after its code: 16 repeats the last length three to
  // six times, 17 stands for three to ten zeros, 18 for 11 to 138.
  function Repeated(s: nat, x: nat, out: seq<nat>): Option<Lengths> {
    if s <= 15 then Some(Lengths([s], 0))
    else if s == 16 then if out == [] then None else Some(Lengths(Same(out[|out| - 1], 3 + Field(x, 0, 2)), 2))
    else if s == 17 then Some(Lengths(Same(0, 3 + Field(x, 0, 3)), 3))
    else if s == 18 then Some(Lengths(Same(0, 11 + Field(x, 0, 7)), 7))
    else None
  }

  // total lengths, the first of which are in out.
  ghost function LengthsFrom(clen: seq<nat>, x: nat, total: nat, out: seq<nat>): Option<Lengths>
    decreases total - |out|
  {
    if |out| >= total then Some(Lengths(out, 0))
    else
      match Symbol(clen, x)
      case None => None
      case Some(s) =>
        match Repeated(s, Upper(x, clen[s]), out)
        case None => None
        case Some(r) =>
          if |r.sizes| == 0 || |out| + |r.sizes| > total then None
          else
            match LengthsFrom(clen, Upper(x, clen[s] + r.len), total, out + r.sizes)
            case None => None
            case Some(all) => Some(Lengths(all.sizes, clen[s] + r.len + all.len))
  }

  // The lengths of the codes that a header announces, and how many bits it takes.
  datatype Codes = Codes(clen: seq<nat>, lits: seq<nat>, dists: seq<nat>, len: nat)

  // The stream x starts with this header.
  ghost predicate Announces(x: nat, t: Codes) {
    var hlit, hdist, hclen := 257 + Field(x, 0, 5), 1 + Field(x, 5, 5), 4 + Field(x, 10, 4);
    && hlit <= 288 == |t.lits| && |t.dists| == hdist && ClensAre(t.clen, x, hclen)
    && (forall s :: hlit <= s < 288 ==> t.lits[s] == 0) && t.len >= 14 + 3 * hclen
    && LengthsFrom(t.clen, Upper(x, 14 + 3 * hclen), hlit + hdist, []) ==
      Some(Lengths(t.lits[..hlit] + t.dists, t.len - 14 - 3 * hclen))
  }

  // Every symbol has its place in the list.
  lemma InOrder(s: nat) returns (i: nat)
    requires s < 19
    ensures i < 19 && CLEN_ORDER[i] == s
  {
    i := if s == 16 then 0 else if s == 17 then 1 else if s == 18 then 2 else if s == 0 then 3
        else if s >= 8 then 4 + 2 * (s - 8) else 19 - 2 * s;
  }

  // The header says one thing only.
  lemma AnnouncedOnce(x: nat, t: Codes, u: Codes)
    requires Announces(x, t) && Announces(x, u)
    ensures t == u
  {
    hide Lower, Upper, LengthsFrom;
    var hlit := 257 + Field(x, 0, 5);
    forall s | 0 <= s < 19
      ensures t.clen[s] == u.clen[s]
    {
      var i := InOrder(s);
    }
    assert t.clen == u.clen;
    var both := t.lits[..hlit] + t.dists;
    assert both == u.lits[..hlit] + u.dists;
    assert both[..hlit] == t.lits[..hlit] == u.lits[..hlit] && both[hlit..] == t.dists == u.dists;
    forall s | 0 <= s < 288
      ensures t.lits[s] == u.lits[s]
    {
      if s < hlit { assert t.lits[..hlit][s] == u.lits[..hlit][s]; }
    }
    assert t.lits == u.lits;
  }

  // --- the data of a block -------------------------------------------------------------------------

  // len bytes, each a copy of the one dist bytes before it.
  function Copy(out: seq<nat>, dist: nat, len: nat): (r: seq<nat>)
    requires 1 <= dist <= |out|
    ensures |r| == |out| + len && out <= r
    decreases len
  {
    if len == 0 then out else Copy(out + [out[|out| - dist]], dist, len - 1)
  }

  // What there is after some more of the stream, and how many bits of it were read.
  datatype Inflated = Inflated(out: seq<nat>, len: nat)

  // What symbol s stands for, with the bits after its code: a byte, or a copy of earlier bytes.
  ghost function Meaning(dists: seq<nat>, s: nat, x: nat, out: seq<nat>): Option<Inflated> {
    if s < 256 then Some(Inflated(out + [s], 0))
    else if s == 256 || s > 285 then None
    else
      var bits := LENGTH_BITS[s - 257];
      match Symbol(dists, Upper(x, bits))
      case None => None
      case Some(d) =>
        if d > 29 then None
        else
          var dist := DISTANCE_BASE[d] + Field(x, bits + dists[d], DISTANCE_BITS[d]);
          if dist > |out| then None
          else
            var len := LENGTH_BASE[s - 257] + Field(x, 0, bits);
            Some(Inflated(Copy(out, dist, len), bits + dists[d] + DISTANCE_BITS[d]))
  }

  // Symbols up to the end of the block, which may not take more bits than there are.
  ghost function Data(lits: seq<nat>, dists: seq<nat>, x: nat, bits: nat, out: seq<nat>): Option<Inflated>
    decreases bits
  {
    match Symbol(lits, x)
    case None => None
    case Some(s) =>
      if lits[s] > bits then None
      else if s == 256 then Some(Inflated(out, lits[s]))
      else
        match Meaning(dists, s, Upper(x, lits[s]), out)
        case None => None
        case Some(m) =>
          var n := lits[s] + m.len;
          if n > bits then None
          else
            match Data(lits, dists, Upper(x, n), bits - n, m.out)
            case None => None
            case Some(r) => Some(Inflated(r.out, n + r.len))
  }

  // --- blocks --------------------------------------------------------------------------------------

  // A code without gaps, or a single code of one bit.
  ghost predicate Whole(sizes: seq<nat>) {
    Complete(sizes, 15) || (Limited(sizes, 15) && Used(sizes, 15) == Count(sizes, 1) == 1)
  }

  // A block with codes of its own, which must be whole.
  ghost function Dynamic(x: nat, bits: nat, out: seq<nat>): Option<Inflated> {
    if exists t :: Announces(x, t) then
      var t :| Announces(x, t);
      if t.len > bits || Field(x, 0, 5) > 29 || |t.dists| > 30 || t.lits[256] == 0 then None
      else if !Complete(t.clen, 15) || !Whole(t.lits) || !Whole(t.dists) then None
      else
        match Data(t.lits, t.dists, Upper(x, t.len), bits - t.len, out)
        case None => None
        case Some(r) => Some(Inflated(r.out, t.len + r.len))
    else None
  }

  // A stored block, whose length is at position o of the data: twice, the second time complemented.
  function Plain(data: seq<nat>, o: nat, out: seq<nat>): Option<seq<nat>> {
    if o + 4 > |data| then None
    else
      var len := data[o] + 256 * data[o + 1];
      if len + data[o + 2] + 256 * data[o + 3] != 65535 || o + 4 + len > |data| then None
      else Some(out + data[o + 4..o + 4 + len])
  }

  // All blocks from bit p on, and the bit at which they end. There are no blocks with the fixed codes.
  ghost function Blocks(data: seq<nat>, p: nat, out: seq<nat>): Option<Inflated>
    decreases 8 * |data| - p
  {
    if p + 3 > 8 * |data| then None
    else
      var x := Number(data);
      var last, kind := Field(x, p, 1), Field(x, p + 1, 2);
      var o := (p + 10) / 8;
      var block :=
        if kind == 0 then
          match Plain(data, o, out)
          case None => None
          case Some(r) => Some(Inflated(r, 8 * (o + 4 + |r| - |out|)))
        else if kind == 2 then
          match Dynamic(Upper(x, p + 3), 8 * |data| - p - 3, out)
          case None => None
          case Some(r) => Some(Inflated(r.out, p + 3 + r.len))
        else None;
      if block.None? || last == 1 then block
      else if block.value.len <= p then None
      else Blocks(data, block.value.len, block.value.out)
  }

  // --- the stream ----------------------------------------------------------------------------------

  // What a zlib stream holds: a header without a dictionary, blocks, and the checksum of what they hold, highest byte
  // first.
  ghost function Content(data: seq<nat>): Option<seq<nat>> {
    if |data| < 6 || data[0] % 16 != 8 || data[0] / 16 > 7 || (256 * data[0] + data[1]) % 31 != 0 then None
    else if data[1] / 32 % 2 != 0 then None
    else
      match Blocks(data, 16, [])
      case None => None
      case Some(r) =>
        var o := (r.len + 7) / 8;
        if o + 4 != |data| then None
        else
          var sum := ((data[o] * 256 + data[o + 1]) * 256 + data[o + 2]) * 256 + data[o + 3];
          if sum == Adler32.Checksum(r.out, 1) then Some(r.out) else None
  }
}
