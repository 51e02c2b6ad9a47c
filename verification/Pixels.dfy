// Images as rows of pixels of three or four bytes.
module Pixels {
  import opened Sequences

  predicate Channels(c: nat) { c == 3 || c == 4 }

  // A pixel with as many channels as wanted: a missing alpha is opaque, a superfluous one is dropped.
  function ConvertPixel(p: seq<nat>, d: nat): (r: seq<nat>)
    requires Channels(|p|) && Channels(d)
    ensures |r| == d
  {
    if d == |p| then p else if d == 4 then p + [255] else p[..3]
  }

  // All pixels of s bytes, with d bytes each.
  function Convert(img: seq<nat>, s: nat, d: nat): seq<nat>
    requires Channels(s) && Channels(d)
  {
    if |img| < s then [] else ConvertPixel(img[..s], d) + Convert(img[s..], s, d)
  }

  lemma {:induction false} ConvertSize(img: seq<nat>, s: nat, d: nat, n: nat)
    requires Channels(s) && Channels(d) && |img| == n * s
    ensures |Convert(img, s, d)| == n * d
    decreases n
  {
    if n > 0 {
      assert n * s == (n - 1) * s + s && n * d == (n - 1) * d + d;
      ConvertSize(img[s..], s, d, n - 1);
    }
  }

  lemma {:induction false} ConvertConcat(a: seq<nat>, b: seq<nat>, s: nat, d: nat, n: nat)
    requires Channels(s) && Channels(d) && |a| == n * s
    ensures Convert(a + b, s, d) == Convert(a, s, d) + Convert(b, s, d)
    decreases n
  {
    if n == 0 {
      assert a + b == b;
    } else {
      assert n * s == (n - 1) * s + s;
      ConvertConcat(a[s..], b, s, d, n - 1);
      assert (a + b)[..s] == a[..s] && (a + b)[s..] == a[s..] + b;
      Regroup(ConvertPixel(a[..s], d), Convert(a[s..], s, d), Convert(b, s, d));
    }
  }

  // Rows of bpl bytes, each after filter type 0.
  function RawRows(img: seq<nat>, bpl: nat): seq<nat>
    requires bpl > 0
  {
    if |img| < bpl then [] else [0] + img[..bpl] + RawRows(img[bpl..], bpl)
  }
}
