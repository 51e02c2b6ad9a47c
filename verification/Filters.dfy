// The filters of the encoder (PNG Specification, section 9.2): None for the first row, Up for the others.
module Filters {
  import opened Sequences
  import opened Pixels

  // The difference and the sum of bytes.
  function Sub(x: nat, y: nat): nat { (x + 256 - y as int % 256) % 256 }
  function Add(x: nat, y: nat): nat { (x + y) % 256 }

  lemma SubAdd(x: nat, y: nat)
    requires x < 256 && y < 256
    ensures Add(y, Sub(x, y)) == x && Sub(x, y) < 256
  {
  }

  function Up(cur: seq<nat>, prev: seq<nat>): (r: seq<nat>)
    requires |cur| == |prev|
    ensures |r| == |cur| && forall i :: 0 <= i < |r| ==> r[i] == Sub(cur[i], prev[i])
  {
    seq(|cur|, i requires 0 <= i < |cur| => Sub(cur[i], prev[i]))
  }

  // A filtered row: its filter type and its bytes. prev is empty for the first row.
  function FilteredRow(row: seq<nat>, prev: seq<nat>): seq<nat>
    requires |prev| == 0 || |prev| == |row|
  {
    if |prev| == 0 then [0] + row else [2] + Up(row, prev)
  }

  // The rows in img, the first of which follows the row prev.
  function Filtered(prev: seq<nat>, img: seq<nat>, bpl: nat): seq<nat>
    requires bpl > 0 && (|prev| == 0 || |prev| == bpl)
    decreases |img|
  {
    if |img| < bpl then [] else FilteredRow(img[..bpl], prev) + Filtered(img[..bpl], img[bpl..], bpl)
  }

  // len bytes are n rows of bpl bytes.
  ghost predicate Rows(n: nat, bpl: nat, len: nat) { len == n * bpl }

  lemma RowsStep(n: nat, bpl: nat, len: nat)
    requires Rows(n, bpl, len)
    ensures n == 0 ==> len == 0
    ensures n > 0 ==> len >= bpl && Rows(n - 1, bpl, len - bpl)
  {
    if n > 0 { assert n * bpl == (n - 1) * bpl + bpl; }
  }

  lemma {:induction false} FilteredSize(prev: seq<nat>, img: seq<nat>, bpl: nat, n: nat)
    requires bpl > 0 && (|prev| == 0 || |prev| == bpl) && Rows(n, bpl, |img|)
    ensures |Filtered(prev, img, bpl)| == |img| + n
    decreases n
  {
    RowsStep(n, bpl, |img|);
    hide Rows;
    if n > 0 { FilteredSize(img[..bpl], img[bpl..], bpl, n - 1); }
  }

  // The first n bytes of row have been written after before.
  ghost predicate Wrote(out: seq<nat>, before: seq<nat>, row: seq<nat>, n: nat) {
    n <= |row| && out == before + row[..n]
  }

  method SetNext(dst: array<nat>, k: nat, v: nat, ghost before: seq<nat>, ghost row: seq<nat>, ghost n: nat)
    requires k < dst.Length && Wrote(dst[..k], before, row, n) && n < |row| && v == row[n]
    modifies dst
    ensures Wrote(dst[..k + 1], before, row, n + 1)
  {
    ghost var out := dst[..k];
    dst[k] := v;
    assert dst[..k + 1] == out + [v];
    assert before + row[..n] + [row[n]] == before + row[..n + 1];
  }

  lemma WroteStart(before: seq<nat>, row: seq<nat>)
    ensures Wrote(before, before, row, 0)
  {
    assert before + row[..0] == before;
  }

  lemma WroteAll(out: seq<nat>, before: seq<nat>, row: seq<nat>)
    requires Wrote(out, before, row, |row|)
    ensures out == before + row
  {
    assert row[..|row|] == row;
  }

  lemma RowBytes(row: seq<nat>, src: seq<nat>, prev: seq<nat>, filter: nat)
    requires ((filter == 0 && |prev| == 0) || (filter == 2 && |prev| == |src| > 0)) && row == FilteredRow(src, prev)
    ensures |row| == |src| + 1 && row[0] == filter
    ensures forall i :: 0 <= i < |src| ==> row[1 + i] == if filter == 0 then src[i] else Sub(src[i], prev[i])
  {
  }

  // Filters one row into dst at ofs.
  method ApplyFilter(filter: nat, src: seq<nat>, prev: seq<nat>, dst: array<nat>, ofs: nat)
    requires (filter == 0 && |prev| == 0) || (filter == 2 && |prev| == |src| > 0)
    requires ofs + 1 + |src| <= dst.Length
    modifies dst
    ensures Wrote(dst[..ofs + 1 + |src|], old(dst[..ofs]), FilteredRow(src, prev), |src| + 1)
  {
    ghost var row := FilteredRow(src, prev);
    ghost var before := dst[..ofs];
    RowBytes(row, src, prev, filter);
    WroteStart(before, row);
    hide *;
    SetNext(dst, ofs, filter, before, row, 0);
    var i: int := 0;
    while i < |src|
      invariant 0 <= i <= |src| && Wrote(dst[..ofs + 1 + i], before, row, 1 + i)
    {
      SetNext(dst, ofs + 1 + i, if filter == 0 then src[i] else Sub(src[i], prev[i]), before, row, 1 + i);
      i := i + 1;
    }
  }

  // What is written, and the rows from position start on, which follow prev, make up the filtered image.
  ghost predicate RowsLeft(out: seq<nat>, prev: seq<nat>, start: int, img: seq<nat>, bpl: nat) {
    && bpl > 0 && (|prev| == 0 || |prev| == bpl) && 0 <= start <= |img|
    && out + Filtered(prev, img[start..], bpl) == Filtered([], img, bpl)
  }

  lemma FirstRowLeft(img: seq<nat>, bpl: nat)
    requires bpl > 0
    ensures RowsLeft([], [], 0, img, bpl)
  {
    assert img[0..] == img;
  }

  lemma RowFits(out: seq<nat>, prev: seq<nat>, start: nat, img: seq<nat>, bpl: nat)
    requires RowsLeft(out, prev, start, img, bpl) && start + bpl <= |img|
    ensures bpl > 0 && (|prev| == 0 || |prev| == bpl) && |out| + 1 + bpl <= |Filtered([], img, bpl)|
  {
    assert |FilteredRow(img[start..][..bpl], prev)| == 1 + bpl;
  }

  lemma NextRow(out: seq<nat>, prev: seq<nat>, start: nat, img: seq<nat>, bpl: nat, row: seq<nat>, filter: nat,
      out': seq<nat>)
    requires RowsLeft(out, prev, start, img, bpl) && start + bpl <= |img| && row == img[start..start + bpl]
    requires (filter == 0 && |prev| == 0) || (filter == 2 && |prev| == |row| > 0)
    requires Wrote(out', out, FilteredRow(row, prev), |row| + 1)
    ensures RowsLeft(out', row, start + bpl, img, bpl)
  {
    var rest := img[start..];
    WroteAll(out', out, FilteredRow(row, prev));
    assert rest[..bpl] == row && rest[bpl..] == img[start + bpl..];
    Regroup(out, FilteredRow(row, prev), Filtered(row, rest[bpl..], bpl));
  }

  lemma NoRowsLeft(out: seq<nat>, prev: seq<nat>, start: nat, img: seq<nat>, bpl: nat)
    requires RowsLeft(out, prev, start, img, bpl) && start == |img|
    ensures bpl > 0 && IsFiltered(out, img, bpl)
  {
    assert out + [] == out;
  }

  ghost predicate IsFiltered(out: seq<nat>, img: seq<nat>, bpl: nat) { bpl > 0 && out == Filtered([], img, bpl) }

  // Filters all rows.
  method FilterImage(img: seq<nat>, h: nat, bpl: nat, dst: array<nat>)
    requires bpl > 0 && Rows(h, bpl, |img|) && dst.Length >= |Filtered([], img, bpl)|
    modifies dst
    ensures IsFiltered(dst[..|Filtered([], img, bpl)|], img, bpl)
  {
    var y, ofs, start, prev: seq<nat> := 0, 0, 0, [];
    assert dst[..0] == [];
    hide *;
    FirstRowLeft(img, bpl);
    while y < h
      invariant 0 <= y <= h && 0 <= start <= |img| && Rows(h - y, bpl, |img| - start) && 0 <= ofs <= dst.Length
      invariant (y == 0 <==> |prev| == 0) && RowsLeft(dst[..ofs], prev, start, img, bpl)
    {
      RowsStep(h - y, bpl, |img| - start);
      var row := img[start..start + bpl];
      ghost var out := dst[..ofs];
      RowFits(out, prev, start, img, bpl);
      var filter := if y > 0 then 2 else 0;
      ApplyFilter(filter, row, prev, dst, ofs);
      NextRow(out, prev, start, img, bpl, row, filter, dst[..ofs + 1 + bpl]);
      ofs := ofs + 1 + bpl;
      start := start + bpl;
      prev := row;
      y := y + 1;
    }
    RowsStep(0, bpl, |img| - start);
    NoRowsLeft(dst[..ofs], prev, start, img, bpl);
    FilteredEnd(dst[..ofs], img, bpl);
  }

  lemma FilteredEnd(out: seq<nat>, img: seq<nat>, bpl: nat)
    requires IsFiltered(out, img, bpl)
    ensures bpl > 0 && |out| == |Filtered([], img, bpl)|
  {
  }
}
