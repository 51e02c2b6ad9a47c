// The rows of a PNG image (PNG Specification, sections 7.2 and 9): what any reader makes of rows of bytes, each
// after its filter type. Of the filter types there are 0, None, and 2, Up.
module PngRows {
  import opened Sequences
  import opened Options
  import opened Filters
  import opened Pixels

  // Byte i of the first row. A row of filter type 2 holds the differences from the row above it.
  function RestoredByte(rows: seq<nat>, above: seq<nat>, i: nat): nat
    requires i < |above| && 1 + i < |rows|
  {
    if rows[0] == 2 then (rows[1 + i] + above[i]) % 256 else rows[1 + i]
  }

  function Restored(rows: seq<nat>, bpl: nat, above: seq<nat>): Option<seq<nat>>
    requires bpl > 0 && |above| == bpl
  {
    if |rows| == 0 then Some([])
    else if |rows| <= bpl || (rows[0] != 0 && rows[0] != 2) then None
    else
      var row := seq(bpl, i requires 0 <= i < bpl => RestoredByte(rows, above, i));
      match Restored(rows[bpl + 1..], bpl, row)
      case None => None
      case Some(more) => Some(row + more)
  }

  // The rows are those of the image. There is nothing but zeros above the first one.
  ghost predicate RowsOf(rows: seq<nat>, bpl: nat, img: seq<nat>) {
    bpl > 0 && Restored(rows, bpl, seq(bpl, _ => 0)) == Some(img)
  }

  // One row and all after it.
  lemma RestoredFirst(rows: seq<nat>, bpl: nat, above: seq<nat>, row: seq<nat>, rest: seq<nat>, more: seq<nat>)
    requires bpl > 0 && |above| == |row| == bpl && |rows| > bpl && rows[bpl + 1..] == rest
    requires Restored(rest, bpl, row) == Some(more)
    requires rows[0] == 0 || rows[0] == 2
    requires forall i :: 0 <= i < bpl ==> row[i] == if rows[0] == 2 then (rows[1 + i] + above[i]) % 256 else rows[1 + i]
    ensures Restored(rows, bpl, above) == Some(row + more)
  {
    assert row == seq(bpl, i requires 0 <= i < bpl => RestoredByte(rows, above, i));
  }

  lemma RowBack(row: seq<nat>, prev: seq<nat>, above: seq<nat>, r: seq<nat>)
    requires Bytes(row) && Bytes(prev) && (|prev| == 0 || (|prev| == |row| && prev == above))
      && r == FilteredRow(row, prev)
    ensures |r| == |row| + 1 && r[0] == if |prev| == 0 then 0 else 2
    ensures forall i :: 0 <= i < |row| ==> row[i] == if r[0] == 2 then (r[1 + i] + above[i]) % 256 else r[1 + i]
  {
    forall i | 0 <= i < |row|
      ensures row[i] == if r[0] == 2 then (r[1 + i] + above[i]) % 256 else r[1 + i]
    {
      if |prev| > 0 { SubAdd(row[i], prev[i]); }
    }
  }

  lemma {:induction false} FilteredRestored(prev: seq<nat>, img: seq<nat>, bpl: nat, above: seq<nat>, n: nat)
    requires bpl > 0 && |above| == bpl && (|prev| == 0 || (|prev| == bpl && prev == above)) && Bytes(img) && Bytes(prev)
      && Rows(n, bpl, |img|)
    ensures Restored(Filtered(prev, img, bpl), bpl, above) == Some(img)
    decreases n
  {
    hide Rows, Bytes, FilteredRow, Restored;
    RowsStep(n, bpl, |img|);
    if n == 0 {
      NoRows(bpl, above);
      assert img == [];
    } else {
      var row, rest := img[..bpl], img[bpl..];
      PartBytes(img, bpl);
      FilteredRestored(row, rest, bpl, row, n - 1);
      var r, more := FilteredRow(row, prev), Filtered(row, rest, bpl);
      RowBack(row, prev, above, r);
      assert (r + more)[bpl + 1..] == more && forall i :: 0 <= i <= bpl ==> (r + more)[i] == r[i];
      RestoredFirst(r + more, bpl, above, row, more, rest);
      assert row + rest == img;
    }
  }

  lemma NoRows(bpl: nat, above: seq<nat>)
    requires bpl > 0 && |above| == bpl
    ensures Restored([], bpl, above) == Some([])
  {
  }

  lemma PartBytes(s: seq<nat>, n: nat)
    requires Bytes(s) && n <= |s|
    ensures Bytes(s[..n]) && Bytes(s[n..])
  {
  }

  lemma {:induction false} RawRestored(img: seq<nat>, bpl: nat, above: seq<nat>, n: nat)
    requires bpl > 0 && |above| == bpl && Rows(n, bpl, |img|)
    ensures Restored(RawRows(img, bpl), bpl, above) == Some(img)
    decreases n
  {
    hide Rows, Restored;
    RowsStep(n, bpl, |img|);
    if n == 0 {
      NoRows(bpl, above);
      assert img == [];
    } else {
      var row, rest := img[..bpl], img[bpl..];
      RawRestored(rest, bpl, row, n - 1);
      var more := RawRows(rest, bpl);
      var rows := [0] + row + more;
      assert rows[bpl + 1..] == more && forall i :: 0 <= i < bpl ==> rows[1 + i] == row[i];
      RestoredFirst(rows, bpl, above, row, more, rest);
      assert row + rest == img;
    }
  }

  // The filtered image, and the image without a filter.
  lemma ImageRestored(img: seq<nat>, bpl: nat, n: nat)
    requires bpl > 0 && Bytes(img) && Rows(n, bpl, |img|)
    ensures RowsOf(Filtered([], img, bpl), bpl, img) && RowsOf(RawRows(img, bpl), bpl, img)
  {
    hide Rows, Restored, Filtered, RawRows;
    FilteredRestored([], img, bpl, seq(bpl, _ => 0), n);
    RawRestored(img, bpl, seq(bpl, _ => 0), n);
  }
}
