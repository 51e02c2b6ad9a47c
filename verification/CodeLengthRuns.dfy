// Packing code lengths into runs (RFC 1951, section 3.2.7): lengths 0 to 15 stand for themselves, 16 repeats
// the length before, 17 and 18 stand for runs of zeros; 16, 17 and 18 are followed by a count.
module CodeLengthRuns {
  import opened Options
  import opened Sequences

  const CLEN_SYMBOLS := 19

  function Repeat(c: nat, n: nat): (r: seq<nat>)
    ensures |r| == n && forall i :: 0 <= i < n ==> r[i] == c
  {
    if n == 0 then [] else Repeat(c, n - 1) + [c]
  }

  // How far the count after a symbol reaches.
  function ExtraLimit(c: nat): nat { if c == 16 then 4 else if c == 17 then 8 else if c == 18 then 128 else 0 }

  // The lengths a symbol with its count adds to those already decoded. Under strict, 16 must not repeat a zero.
  function Added(out: seq<nat>, c: nat, x: nat, strict: bool): Option<seq<nat>> {
    if c <= 15 then Some([c])
    else if x >= ExtraLimit(c) then None
    else if c == 16 then
      if out == [] || (strict && out[|out| - 1] == 0) then None else Some(Repeat(out[|out| - 1], 3 + x))
    else if c == 17 then Some(Repeat(0, 3 + x))
    else Some(Repeat(0, 11 + x))
  }

  // What a packed sequence decodes to, after out.
  function Expand(p: seq<nat>, out: seq<nat>, strict: bool): Option<seq<nat>>
    decreases |p|
  {
    if p == [] then Some(out)
    else if p[0] <= 15 then Expand(p[1..], out + [p[0]], strict)
    else if |p| == 1 || Added(out, p[0], p[1], strict).None? then None
    else Expand(p[2..], out + Added(out, p[0], p[1], strict).value, strict)
  }

  // The symbols of a packed sequence, without the counts.
  function Symbols(p: seq<nat>): seq<nat>
    decreases |p|
  {
    if p == [] then [] else [p[0]] + Symbols(if p[0] <= 15 || |p| == 1 then p[1..] else p[2..])
  }

  function Occurrences(s: seq<nat>, c: nat): nat {
    if s == [] then 0 else Occurrences(s[..|s| - 1], c) + if s[|s| - 1] == c then 1 else 0
  }

  lemma {:induction false} ExpandConcat(p: seq<nat>, q: seq<nat>, out: seq<nat>, strict: bool)
    requires Expand(p, out, strict).Some?
    ensures Expand(p + q, out, strict) == Expand(q, Expand(p, out, strict).value, strict)
    ensures Symbols(p + q) == Symbols(p) + Symbols(q)
    decreases |p|
  {
    hide Added, Repeat;
    if |p| == 0 {
      assert p + q == q;
    } else if p[0] <= 15 {
      ExpandConcat(p[1..], q, out + [p[0]], strict);
      JoinedRest(p, q, 1);
      Prepended(p[0], Symbols(p[1..]), Symbols(q));
    } else {
      ExpandConcat(p[2..], q, out + Added(out, p[0], p[1], strict).value, strict);
      JoinedRest(p, q, 2);
      Prepended(p[0], Symbols(p[2..]), Symbols(q));
    }
  }

  lemma JoinedRest(p: seq<nat>, q: seq<nat>, k: nat)
    requires k <= |p|
    ensures (p + q)[k..] == p[k..] + q && forall i :: 0 <= i < k ==> (p + q)[i] == p[i]
  {
  }

  lemma Prepended(x: nat, a: seq<nat>, b: seq<nat>)
    ensures [x] + (a + b) == [x] + a + b
  {
  }

  // Repeating zeros is the only thing strictness rules out.
  lemma {:induction false} Lenient(p: seq<nat>, out: seq<nat>)
    requires Expand(p, out, true).Some?
    ensures Expand(p, out, false) == Expand(p, out, true)
    decreases |p|
  {
    if p != [] {
      if p[0] <= 15 {
        Lenient(p[1..], out + [p[0]]);
      } else {
        Lenient(p[2..], out + Added(out, p[0], p[1], true).value);
      }
    }
  }

  // --- the packed form -----------------------------------------------------------------------------------------------

  // How many lengths from position i on are v.
  function Leading(codes: seq<nat>, i: nat, v: nat): (n: nat)
    requires i <= |codes|
    ensures i + n <= |codes| && (forall k :: i <= k < i + n ==> codes[k] == v)
      && (i + n < |codes| ==> codes[i + n] != v)
    decreases |codes| - i
  {
    if i < |codes| && codes[i] == v then 1 + Leading(codes, i + 1, v) else 0
  }

  // n zeros: runs of 138, and for the rest a run if it has at least three.
  function PackedZeros(n: nat): seq<nat> {
    if n < 3 then Repeat(0, n)
    else if n <= 10 then [17, n - 3]
    else if n < 138 then [18, n - 11]
    else [18, 127] + PackedZeros(n - 138)
  }

  // n more of the length v: repetitions of six, and for the rest a repetition if there are at least three.
  function PackedRepeats(v: nat, n: nat): seq<nat> {
    if n < 3 then Repeat(v, n) else if n < 6 then [16, n - 3] else [16, 3] + PackedRepeats(v, n - 6)
  }

  function PackedStretch(v: nat, n: nat): seq<nat> { if v == 0 then PackedZeros(n) else PackedRepeats(v, n) }

  // The length v and n more of it: zeros, or a length and its repetitions.
  function PackedPiece(v: nat, n: nat): seq<nat> {
    if v == 0 then PackedStretch(0, 1 + n) else [v] + PackedStretch(v, n)
  }

  // Stretches of equal lengths, one after the other.
  function PackedForm(codes: seq<nat>, i: nat): seq<nat>
    requires i <= |codes|
    decreases |codes| - i
  {
    if i == |codes| then []
    else
      var n := Leading(codes, i + 1, codes[i]);
      PackedPiece(codes[i], n) + PackedForm(codes, i + 1 + n)
  }

  // What is still to be written before position i, after prev and with some of it pending.
  ghost function Remaining(codes: seq<nat>, i: nat, prev: nat, pending: nat): seq<nat>
    requires i <= |codes|
  {
    var n := Leading(codes, i, prev);
    PackedStretch(prev, pending + n) + PackedForm(codes, i + n)
  }

  // The packed sequence so far leads to the packed form.
  ghost predicate Toward(p: seq<nat>, codes: seq<nat>, i: nat, prev: nat, pending: nat) {
    i <= |codes| && p + Remaining(codes, i, prev, pending) == PackedForm(codes, 0)
  }

  lemma TowardStart(codes: seq<nat>)
    requires Lengths(codes)
    ensures Toward([], codes, 0, 255, 0)
  {
    hide PackedForm;
    assert Leading(codes, 0, 255) == 0;
    assert PackedStretch(255, 0) == [];
    assert [] + ([] + PackedForm(codes, 0)) == PackedForm(codes, 0);
  }

  // One more of the same.
  lemma TowardSame(p: seq<nat>, codes: seq<nat>, i: nat, prev: nat, pending: nat)
    requires Toward(p, codes, i, prev, pending) && i < |codes| && codes[i] == prev
    ensures Toward(p, codes, i + 1, prev, pending + 1)
  {
    hide PackedStretch, PackedForm;
    assert Leading(codes, i, prev) == 1 + Leading(codes, i + 1, prev);
  }

  lemma FullStretch(v: nat, n: nat)
    ensures PackedStretch(0, 138 + n) == [18, 127] + PackedStretch(0, n)
    ensures v > 0 ==> PackedStretch(v, 6 + n) == [16, 3] + PackedStretch(v, n)
  {
  }

  // As many as fit into one run have been written.
  lemma TowardFull(p: seq<nat>, codes: seq<nat>, i: nat, prev: nat, pending: nat)
    requires Toward(p, codes, i, prev, pending) && pending == if prev == 0 then 138 else 6
    ensures Toward(p + if prev == 0 then [18, 127] else [16, 3], codes, i, prev, 0)
  {
    hide PackedStretch, PackedForm, Leading;
    var n := Leading(codes, i, prev);
    var run := if prev == 0 then [18, 127] else [16, 3];
    FullStretch(prev, n);
    Regroup(run, PackedStretch(prev, n), PackedForm(codes, i + n));
    Regroup(p, run, PackedStretch(prev, n) + PackedForm(codes, i + n));
  }

  lemma StretchEnds(codes: seq<nat>, i: nat, prev: nat, pending: nat)
    requires i <= |codes| && (i < |codes| ==> codes[i] != prev)
    ensures Remaining(codes, i, prev, pending) == PackedStretch(prev, pending) + PackedForm(codes, i)
  {
    hide PackedStretch, PackedForm;
  }

  lemma FormStep(codes: seq<nat>, i: nat, n: nat)
    requires i < |codes| && n == Leading(codes, i + 1, codes[i])
    ensures PackedForm(codes, i) == PackedPiece(codes[i], n) + PackedForm(codes, i + 1 + n)
  {
    hide PackedPiece, Leading;
  }

  lemma PieceRegroup(c: nat, n: nat, rest: seq<nat>)
    ensures PackedPiece(c, n) + rest ==
      if c == 0 then PackedStretch(0, 1 + n) + rest else [c] + (PackedStretch(c, n) + rest)
  {
    hide PackedStretch;
    Regroup([c], PackedStretch(c, n), rest);
  }

  lemma StretchBegins(codes: seq<nat>, i: nat)
    requires i < |codes|
    ensures var c := codes[i];
      PackedForm(codes, i) == if c == 0 then Remaining(codes, i + 1, 0, 1) else [c] + Remaining(codes, i + 1, c, 0)
  {
    hide PackedStretch, PackedForm, PackedPiece, Leading;
    var c := codes[i];
    var n := Leading(codes, i + 1, c);
    FormStep(codes, i, n);
    PieceRegroup(c, n, PackedForm(codes, i + 1 + n));
  }

  // The stretch is over: what is pending has been written.
  lemma TowardNext(p: seq<nat>, codes: seq<nat>, i: nat, prev: nat, pending: nat)
    requires Toward(p, codes, i, prev, pending) && i < |codes| && codes[i] != prev
    ensures var q := p + PackedStretch(prev, pending);
      if codes[i] == 0 then Toward(q, codes, i + 1, 0, 1) else Toward(q + [codes[i]], codes, i + 1, codes[i], 0)
  {
    hide PackedStretch, PackedForm, Leading, Remaining;
    var c, a := codes[i], PackedStretch(prev, pending);
    StretchEnds(codes, i, prev, pending);
    StretchBegins(codes, i);
    Regroup(p, a, PackedForm(codes, i));
    if c > 0 { Regroup(p + a, [c], Remaining(codes, i + 1, c, 0)); }
  }

  lemma TowardEnd(p: seq<nat>, codes: seq<nat>, prev: nat, pending: nat)
    requires Toward(p, codes, |codes|, prev, pending)
    ensures p + PackedStretch(prev, pending) == PackedForm(codes, 0)
  {
    hide PackedStretch, Leading;
    StretchEnds(codes, |codes|, prev, pending);
    assert PackedStretch(prev, pending) + [] == PackedStretch(prev, pending);
  }

  // --- the packer --------------------------------------------------------------------------------------------------

  // What has been packed: a packed sequence, and how often each symbol occurs in it.
  ghost predicate Packed(p: seq<nat>, freq: seq<nat>, done: seq<nat>) {
    && |freq| == CLEN_SYMBOLS && |p| <= |done| && Expand(p, [], true) == Some(done)
    && forall c :: 0 <= c < CLEN_SYMBOLS ==> freq[c] == Occurrences(Symbols(p), c)
  }

  lemma PackLiteral(p: seq<nat>, freq: seq<nat>, done: seq<nat>, c: nat)
    requires Packed(p, freq, done) && c <= 15
    ensures Packed(p + [c], freq[c := freq[c] + 1], done + [c])
  {
    ExpandConcat(p, [c], [], true);
    assert [c][1..] == [];
    assert Symbols(p + [c])[..|Symbols(p)|] == Symbols(p);
  }

  lemma PackRun(p: seq<nat>, freq: seq<nat>, done: seq<nat>, c: nat, x: nat)
    requires Packed(p, freq, done) && 16 <= c < CLEN_SYMBOLS && x < ExtraLimit(c) && Added(done, c, x, true).Some?
    ensures Packed(p + [c, x], freq[c := freq[c] + 1], done + Added(done, c, x, true).value)
  {
    ExpandConcat(p, [c, x], [], true);
    assert [c, x][2..] == [];
    assert Symbols([c, x]) == [c];
    assert Symbols(p + [c, x])[..|Symbols(p)|] == Symbols(p);
  }

  method Emit(packed: array<nat>, n: nat, freq: array<nat>, c: nat, ghost done: seq<nat>)
    requires packed != freq && n < packed.Length && freq.Length == CLEN_SYMBOLS && Packed(packed[..n], freq[..], done)
      && c <= 15
    modifies packed, freq
    ensures Packed(packed[..n + 1], freq[..], done + [c]) && packed[..n + 1] == old(packed[..n]) + [c]
  {
    ghost var p, f := packed[..n], freq[..];
    PackLiteral(p, f, done, c);
    packed[n] := c;
    freq[c] := freq[c] + 1;
    assert packed[..n + 1] == p + [c] && freq[..] == f[c := f[c] + 1];
  }

  method EmitRun(packed: array<nat>, n: nat, freq: array<nat>, c: nat, x: nat, ghost done: seq<nat>)
    requires packed != freq && n + 1 < packed.Length && freq.Length == CLEN_SYMBOLS
      && Packed(packed[..n], freq[..], done)
    requires 16 <= c < CLEN_SYMBOLS && x < ExtraLimit(c) && Added(done, c, x, true).Some?
    modifies packed, freq
    ensures Packed(packed[..n + 2], freq[..], done + Added(done, c, x, true).value)
    ensures packed[..n + 2] == old(packed[..n]) + [c, x]
  {
    ghost var p, f := packed[..n], freq[..];
    PackRun(p, f, done, c, x);
    packed[n] := c;
    packed[n + 1] := x;
    freq[c] := freq[c] + 1;
    assert packed[..n + 2] == p + [c, x] && freq[..] == f[c := f[c] + 1];
  }

  lemma OneMore(done: seq<nat>, c: nat, k: nat)
    ensures done + Repeat(c, k + 1) == done + Repeat(c, k) + [c] && done + Repeat(c, 0) == done
  {
  }

  lemma SixMore(v: nat)
    ensures PackedRepeats(v, 6) == [16, 3] && PackedRepeats(v, 0) == []
  {
    assert PackedRepeats(v, 6) == [16, 3] + PackedRepeats(v, 0);
  }

  lemma AllZeros()
    ensures PackedZeros(138) == [18, 127] && PackedZeros(0) == []
  {
    assert PackedZeros(138) == [18, 127] + PackedZeros(0);
  }

  // Writes out the pending repetitions of the last length.
  method FlushRepeats(packed: array<nat>, n: nat, freq: array<nat>, prev: nat, count: nat,
      ghost done: seq<nat>) returns (n': nat)
    requires packed != freq && n + count <= packed.Length && freq.Length == CLEN_SYMBOLS
      && Packed(packed[..n], freq[..], done)
    requires count <= 6 && (count > 0 ==> done != [] && 0 < done[|done| - 1] == prev <= 15)
    modifies packed, freq
    ensures n <= n' <= packed.Length && Packed(packed[..n'], freq[..], done + Repeat(prev, count))
    ensures packed[..n'] == old(packed[..n]) + PackedRepeats(prev, count)
  {
    n' := n;
    ghost var p := packed[..n];
    OneMore(done, prev, 0);
    OneMore(p, prev, 0);
    SixMore(prev);
    if 0 < count < 3 {
      var left := count;
      hide Packed;
      while left > 0
        invariant 0 <= left <= count && n' == n + count - left
        invariant Packed(packed[..n'], freq[..], done + Repeat(prev, count - left))
        invariant packed[..n'] == p + Repeat(prev, count - left)
      {
        OneMore(done, prev, count - left);
        OneMore(p, prev, count - left);
        Emit(packed, n', freq, prev, done + Repeat(prev, count - left));
        n' := n' + 1;
        left := left - 1;
      }
    } else if count != 0 {
      EmitRun(packed, n', freq, 16, count - 3, done);
      n' := n' + 2;
    }
  }

  // Writes out the pending zeros.
  method FlushZeros(packed: array<nat>, n: nat, freq: array<nat>, count: nat, ghost done: seq<nat>) returns (n': nat)
    requires packed != freq && n + count <= packed.Length && freq.Length == CLEN_SYMBOLS
      && Packed(packed[..n], freq[..], done)
    requires count <= 138
    modifies packed, freq
    ensures n <= n' <= packed.Length && Packed(packed[..n'], freq[..], done + Repeat(0, count))
    ensures packed[..n'] == old(packed[..n]) + PackedZeros(count)
  {
    n' := n;
    ghost var p := packed[..n];
    OneMore(done, 0, 0);
    OneMore(p, 0, 0);
    AllZeros();
    if 0 < count < 3 {
      var left := count;
      hide Packed;
      while left > 0
        invariant 0 <= left <= count && n' == n + count - left
        invariant Packed(packed[..n'], freq[..], done + Repeat(0, count - left))
        invariant packed[..n'] == p + Repeat(0, count - left)
      {
        OneMore(done, 0, count - left);
        OneMore(p, 0, count - left);
        Emit(packed, n', freq, 0, done + Repeat(0, count - left));
        n' := n' + 1;
        left := left - 1;
      }
    } else if 0 < count <= 10 {
      EmitRun(packed, n', freq, 17, count - 3, done);
      n' := n' + 2;
    } else if count != 0 {
      EmitRun(packed, n', freq, 18, count - 11, done);
      n' := n' + 2;
    }
  }

  // What is pending before position i: either zeros or repetitions of the last nonzero length, never both.
  ghost predicate Pending(codes: seq<nat>, i: nat, prev: nat, zeros: nat, repeats: nat) {
    && i <= |codes| && zeros + repeats <= i && zeros < 138 && repeats < 6 && (zeros == 0 || repeats == 0)
    && prev == (if i == 0 then 255 else codes[i - 1])
    && (forall k :: i - zeros <= k < i ==> codes[k] == 0)
    && (repeats > 0 ==> repeats < i && 0 < prev && forall k :: i - repeats - 1 <= k < i ==> codes[k] == prev)
  }

  // Flushing what is pending completes the first i lengths.
  lemma Flushed(codes: seq<nat>, i: nat, prev: nat, zeros: nat, repeats: nat)
    requires Pending(codes, i, prev, zeros, repeats)
    ensures codes[..i - zeros - repeats] + Repeat(prev, repeats) == codes[..i - zeros]
    ensures codes[..i - zeros - repeats] + Repeat(0, zeros) == codes[..i - repeats]
  {
  }

  lemma PackedShort(p: seq<nat>, freq: seq<nat>, done: seq<nat>)
    requires Packed(p, freq, done)
    ensures |p| <= |done|
  {
  }

  lemma Finished(p: seq<nat>, freq: seq<nat>, done: seq<nat>)
    requires Packed(p, freq, done)
    ensures |p| <= |done| && Expand(p, [], true) == Some(done)
    ensures |freq| == CLEN_SYMBOLS && forall c :: 0 <= c < CLEN_SYMBOLS ==> freq[c] == Occurrences(Symbols(p), c)
  {
  }

  lemma AfterZero(p: seq<nat>, codes: seq<nat>, i: nat, prev: nat, zeros: nat, repeats: nat)
    requires i < |codes| && codes[i] == 0 && Pending(codes, i, prev, zeros, repeats)
      && Toward(p, codes, i, prev, zeros + repeats)
    ensures Toward(p + PackedRepeats(prev, repeats), codes, i + 1, 0, zeros + 1)
  {
    hide Toward, PackedZeros;
    if prev == 0 {
      TowardSame(p, codes, i, prev, zeros);
      assert PackedRepeats(0, 0) == [] && p + [] == p;
    } else {
      TowardNext(p, codes, i, prev, repeats);
    }
  }

  lemma AfterOther(p: seq<nat>, codes: seq<nat>, i: nat, prev: nat, zeros: nat, repeats: nat)
    requires i < |codes| && codes[i] != 0 && Pending(codes, i, prev, zeros, repeats)
      && Toward(p, codes, i, prev, zeros + repeats)
    ensures var q := p + PackedZeros(zeros);
      if codes[i] == prev then Toward(q, codes, i + 1, prev, repeats + 1)
      else Toward(q + PackedRepeats(prev, repeats) + [codes[i]], codes, i + 1, codes[i], 0)
  {
    hide Toward;
    var q := p + PackedZeros(zeros);
    if codes[i] == prev {
      TowardSame(p, codes, i, prev, repeats);
      assert PackedZeros(0) == [] && p + [] == p;
    } else {
      TowardNext(p, codes, i, prev, zeros + repeats);
      if prev == 0 {
        assert PackedRepeats(0, 0) == [] && q + [] == q;
      } else {
        assert PackedZeros(0) == [] && p + [] == p;
      }
    }
  }

  lemma WholeRun(codes: seq<nat>, i: nat, zeros: nat)
    requires i < |codes| && zeros == 137 && zeros <= i && forall k :: i - zeros <= k <= i ==> codes[k] == 0
    ensures codes[..i - zeros] + Repeat(0, 138) == codes[..i + 1]
  {
  }

  // The next length is zero.
  method PackZero(codes: seq<nat>, i: nat, packed: array<nat>, n: nat, freq: array<nat>, prev: nat, zeros: nat,
      repeats: nat)
    returns (n': nat, zeros': nat)
    requires packed != freq && freq.Length == CLEN_SYMBOLS && n <= packed.Length && |codes| <= packed.Length
    requires i < |codes| && codes[i] == 0 && Lengths(codes) && Pending(codes, i, prev, zeros, repeats)
    requires Packed(packed[..n], freq[..], codes[..i - zeros - repeats])
      && Toward(packed[..n], codes, i, prev, zeros + repeats)
    modifies packed, freq
    ensures n' <= packed.Length && Pending(codes, i + 1, 0, zeros', 0)
      && Packed(packed[..n'], freq[..], codes[..i + 1 - zeros']) && Toward(packed[..n'], codes, i + 1, 0, zeros')
  {
    hide Packed, Toward, PackedZeros, PackedRepeats, Repeat;
    ghost var p := packed[..n];
    AfterZero(p, codes, i, prev, zeros, repeats);
    PackedShort(packed[..n], freq[..], codes[..i - zeros - repeats]);
    Flushed(codes, i, prev, zeros, repeats);
    n' := FlushRepeats(packed, n, freq, prev, repeats, codes[..i - zeros - repeats]);
    zeros' := zeros + 1;
    if zeros' == 138 {
      PackedShort(packed[..n'], freq[..], codes[..i - zeros]);
      WholeRun(codes, i, zeros);
      AllZeros();
      TowardFull(packed[..n'], codes, i + 1, 0, 138);
      n' := FlushZeros(packed, n', freq, zeros', codes[..i - zeros]);
      zeros' := 0;
    }
  }

  // The next length is not zero.
  method PackNonzero(codes: seq<nat>, i: nat, packed: array<nat>, n: nat, freq: array<nat>, prev: nat, zeros: nat,
      repeats: nat)
    returns (n': nat, repeats': nat)
    requires packed != freq && freq.Length == CLEN_SYMBOLS && n <= packed.Length && |codes| <= packed.Length
    requires i < |codes| && codes[i] != 0 && Lengths(codes) && Pending(codes, i, prev, zeros, repeats)
    requires Packed(packed[..n], freq[..], codes[..i - zeros - repeats])
      && Toward(packed[..n], codes, i, prev, zeros + repeats)
    modifies packed, freq
    ensures n' <= packed.Length && Pending(codes, i + 1, codes[i], 0, repeats')
      && Packed(packed[..n'], freq[..], codes[..i + 1 - repeats'])
          && Toward(packed[..n'], codes, i + 1, codes[i], repeats')
  {
    hide Packed, Toward, PackedZeros, PackedRepeats;
    AfterOther(packed[..n], codes, i, prev, zeros, repeats);
    PackedShort(packed[..n], freq[..], codes[..i - zeros - repeats]);
    Flushed(codes, i, prev, zeros, repeats);
    n' := FlushZeros(packed, n, freq, zeros, codes[..i - zeros - repeats]);
    PackedShort(packed[..n'], freq[..], codes[..i - repeats]);
    if codes[i] != prev {
      n' := PackChange(codes, i, packed, n', freq, prev, repeats);
      repeats' := 0;
    } else {
      repeats' := repeats + 1;
      if repeats' == 6 {
        assert codes[..i - repeats] + Repeat(prev, 6) == codes[..i + 1];
        SixMore(prev);
        TowardFull(packed[..n'], codes, i + 1, prev, 6);
        n' := FlushRepeats(packed, n', freq, prev, repeats', codes[..i - repeats]);
        repeats' := 0;
      }
    }
  }

  // A nonzero length other than the one before.
  method PackChange(codes: seq<nat>, i: nat, packed: array<nat>, n: nat, freq: array<nat>, prev: nat,
      repeats: nat) returns (n': nat)
    requires packed != freq && freq.Length == CLEN_SYMBOLS && n <= i - repeats <= |codes| <= packed.Length
    requires i < |codes| && Lengths(codes) && Pending(codes, i, prev, 0, repeats)
      && Packed(packed[..n], freq[..], codes[..i - repeats])
    modifies packed, freq
    ensures n' <= packed.Length && Packed(packed[..n'], freq[..], codes[..i + 1])
    ensures packed[..n'] == old(packed[..n]) + PackedRepeats(prev, repeats) + [codes[i]]
  {
    hide Packed, PackedRepeats;
    Flushed(codes, i, prev, 0, repeats);
    n' := FlushRepeats(packed, n, freq, prev, repeats, codes[..i - repeats]);
    PackedShort(packed[..n'], freq[..], codes[..i]);
    Emit(packed, n', freq, codes[i], codes[..i]);
    assert codes[..i] + [codes[i]] == codes[..i + 1];
    n' := n' + 1;
  }

  ghost predicate Lengths(codes: seq<nat>) { forall i :: 0 <= i < |codes| ==> codes[i] <= 15 }

  lemma NothingPacked(p: seq<nat>, freq: seq<nat>, codes: seq<nat>)
    requires |p| == 0 && |freq| == CLEN_SYMBOLS && forall c :: 0 <= c < CLEN_SYMBOLS ==> freq[c] == 0
    ensures Packed(p, freq, codes[..0]) && p == []
  {
  }

  // Packs a sequence of lengths. Unpacking gives the sequence back, no run repeats a zero with symbol 16, and
  // the packed form is no longer than the sequence.
  method PackCodeSizes(codes: seq<nat>, packed: array<nat>, freq: array<nat>) returns (n: nat)
    requires |codes| <= packed.Length && packed != freq && freq.Length == CLEN_SYMBOLS && Lengths(codes)
    modifies packed, freq
    ensures n <= |codes| && Expand(packed[..n], [], true) == Some(codes) && packed[..n] == PackedForm(codes, 0)
    ensures forall c :: 0 <= c < CLEN_SYMBOLS ==> freq[c] == Occurrences(Symbols(packed[..n]), c)
  {
    hide Packed, Toward, Expand, Symbols, Lengths, PackedForm, Occurrences;
    forall c | 0 <= c < CLEN_SYMBOLS { freq[c] := 0; }
    n := 0;
    var zeros, repeats, prev, i := 0, 0, 255, 0;
    NothingPacked(packed[..n], freq[..], codes);
    TowardStart(codes);
    while i < |codes|
      invariant 0 <= i <= |codes| && 0 <= prev && 0 <= zeros && 0 <= repeats && Pending(codes, i, prev, zeros, repeats)
      invariant n <= packed.Length && Packed(packed[..n], freq[..], codes[..i - zeros - repeats])
      invariant Toward(packed[..n], codes, i, prev, zeros + repeats)
    {
      hide Pending;
      if codes[i] == 0 {
        n, zeros := PackZero(codes, i, packed, n, freq, prev, zeros, repeats);
        repeats := 0;
      } else {
        n, repeats := PackNonzero(codes, i, packed, n, freq, prev, zeros, repeats);
        zeros := 0;
      }
      prev := codes[i];
      i := i + 1;
    }
    n := FlushLast(codes, packed, n, freq, prev, zeros, repeats);
    Finished(packed[..n], freq[..], codes);
  }

  method FlushLast(codes: seq<nat>, packed: array<nat>, n: nat, freq: array<nat>, prev: nat, zeros: nat,
      repeats: nat) returns (n': nat)
    requires packed != freq && freq.Length == CLEN_SYMBOLS && n <= packed.Length && |codes| <= packed.Length
    requires Lengths(codes) && Pending(codes, |codes|, prev, zeros, repeats)
      && Packed(packed[..n], freq[..], codes[..|codes| - zeros - repeats])
    requires Toward(packed[..n], codes, |codes|, prev, zeros + repeats)
    modifies packed, freq
    ensures n' <= packed.Length && Packed(packed[..n'], freq[..], codes) && packed[..n'] == PackedForm(codes, 0)
  {
    hide Packed, Toward, PackedZeros, PackedRepeats, PackedForm;
    LastStretch(packed[..n], codes, prev, zeros, repeats);
    PackedShort(packed[..n], freq[..], codes[..|codes| - zeros - repeats]);
    Flushed(codes, |codes|, prev, zeros, repeats);
    assert codes[..|codes|] == codes;
    if repeats > 0 {
      n' := FlushRepeats(packed, n, freq, prev, repeats, codes[..|codes| - zeros - repeats]);
    } else {
      n' := FlushZeros(packed, n, freq, zeros, codes[..|codes| - zeros - repeats]);
    }
  }

  lemma LastStretch(p: seq<nat>, codes: seq<nat>, prev: nat, zeros: nat, repeats: nat)
    requires Pending(codes, |codes|, prev, zeros, repeats) && Toward(p, codes, |codes|, prev, zeros + repeats)
    ensures p + (if repeats > 0 then PackedRepeats(prev, repeats) else PackedZeros(zeros)) == PackedForm(codes, 0)
  {
    hide Toward, PackedForm;
    TowardEnd(p, codes, prev, zeros + repeats);
    assert PackedRepeats(prev, 0) == PackedZeros(0) == [];
  }
}
