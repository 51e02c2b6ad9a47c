// Trees grown by repeatedly joining two nodes, as the two-queue form of Huffman's algorithm grows them:
// leaves are taken in order, and so are inner nodes. Items 0..n-1 are the leaves, item n+k is inner node k.
module HuffmanTrees {
  import opened PrefixCodes

  // F[k] leaves have been taken when inner node k has been made; Leaves and Inner count what was taken before.
  function Leaves(F: seq<nat>, k: nat): nat
    requires k <= |F|
  {
    if k == 0 then 0 else F[k - 1]
  }

  function Inner(F: seq<nat>, k: nat): int
    requires k <= |F|
  {
    2 * k - Leaves(F, k)
  }

  ghost predicate StepFits(n: nat, F: seq<nat>, k: nat)
    requires k < |F|
  {
    Leaves(F, k) <= F[k] <= Leaves(F, k) + 2 && F[k] <= n && 0 <= Inner(F, k) <= Inner(F, k + 1) <= k
  }

  // Every inner node joins two items that existed before it.
  ghost predicate Fitting(n: nat, F: seq<nat>) { forall k :: 0 <= k < |F| ==> StepFits(n, F, k) }

  ghost predicate Complete(n: nat, F: seq<nat>) { n >= 2 && |F| == n - 1 && Fitting(n, F) && F[n - 2] == n }

  // The two items that node k joins.
  ghost function First(n: nat, F: seq<nat>, k: nat): (id: nat)
    requires k < |F| && StepFits(n, F, k)
    ensures id < n + k
  {
    if F[k] > Leaves(F, k) then Leaves(F, k) else n + Inner(F, k)
  }

  ghost function Second(n: nat, F: seq<nat>, k: nat): (id: nat)
    requires k < |F| && StepFits(n, F, k)
    ensures id < n + k && id != First(n, F, k)
  {
    if F[k] == Leaves(F, k) + 2 then Leaves(F, k) + 1
    else if F[k] == Leaves(F, k) + 1 then n + Inner(F, k)
    else n + Inner(F, k) + 1
  }

  // Items that are not yet taken when node m is about to be made.
  ghost predicate Alive(n: nat, F: seq<nat>, m: nat, id: nat)
    requires m <= |F|
  {
    if id < n then Leaves(F, m) <= id else Inner(F, m) <= id - n < m
  }

  lemma AliveStep(n: nat, F: seq<nat>, k: nat, id: nat)
    requires k < |F| && StepFits(n, F, k)
    ensures Alive(n, F, k + 1, id) <==> id == n + k || (Alive(n, F, k, id) && id != First(n, F, k) && id != Second(n, F, k))
    ensures Alive(n, F, k, First(n, F, k)) && Alive(n, F, k, Second(n, F, k)) && !Alive(n, F, k, n + k)
  {
  }

  // --- depths ------------------------------------------------------------------------------------------------

  // p gives every inner node but the last its parent.
  ghost predicate IsParent(F: seq<nat>, i: nat, k: nat) { i < k < |F| && Inner(F, k) <= i < Inner(F, k + 1) }

  ghost predicate Parents(F: seq<nat>, p: seq<nat>) {
    |F| == |p| + 1 && forall i :: 0 <= i < |p| ==> IsParent(F, i, p[i])
  }

  ghost predicate Upward(p: seq<nat>) { forall i :: 0 <= i < |p| ==> i < p[i] <= |p| }

  ghost function Depth(p: seq<nat>, i: nat): nat
    requires Upward(p) && i <= |p|
    decreases |p| - i
  {
    if i == |p| then 0 else 1 + Depth(p, p[i])
  }

  lemma ParentsUpward(F: seq<nat>, p: seq<nat>)
    requires Parents(F, p)
    ensures Upward(p)
  {
    forall i | 0 <= i < |p| ensures i < p[i] <= |p| { assert IsParent(F, i, p[i]); }
  }

  lemma {:induction false} InnerMonotone(n: nat, F: seq<nat>, j: nat, k: nat)
    requires Fitting(n, F) && j <= k <= |F|
    ensures Inner(F, j) <= Inner(F, k) && Leaves(F, j) <= Leaves(F, k)
  {
    if j < k {
      InnerMonotone(n, F, j, k - 1);
      assert StepFits(n, F, k - 1);
    }
  }

  // The children of the nodes up to h are the first Inner(F, h + 1) inner nodes.
  lemma ChildrenUpTo(n: nat, F: seq<nat>, p: seq<nat>, h: nat, i: nat)
    requires Fitting(n, F) && Parents(F, p) && h < |F| && i < |p|
    ensures p[i] <= h <==> i < Inner(F, h + 1)
  {
    assert IsParent(F, i, p[i]);
    if p[i] <= h {
      InnerMonotone(n, F, p[i] + 1, h + 1);
    } else {
      InnerMonotone(n, F, h + 1, p[i]);
    }
  }

  // Deeper nodes were made earlier.
  lemma {:induction false} DepthMonotone(n: nat, F: seq<nat>, p: seq<nat>, i: nat, j: nat)
    requires Fitting(n, F) && Parents(F, p) && Upward(p) && i <= j <= |p|
    ensures Depth(p, i) >= Depth(p, j)
    decreases |p| - i
  {
    if i < j < |p| {
      assert IsParent(F, i, p[i]) && IsParent(F, j, p[j]);
      if p[i] > p[j] { InnerMonotone(n, F, p[j] + 1, p[i]); }
      DepthMonotone(n, F, p, p[i], p[j]);
    }
  }

  lemma {:induction false} DepthBound(p: seq<nat>, i: nat)
    requires Upward(p) && i <= |p|
    ensures Depth(p, i) <= |p| - i
    decreases |p| - i
  {
    if i < |p| { DepthBound(p, p[i]); }
  }

  // --- the code of the tree ------------------------------------------------------------------------------------

  // lens gives every leaf its depth.
  ghost predicate LeafDepths(n: nat, F: seq<nat>, p: seq<nat>, lens: seq<nat>)
    requires Upward(p) && |F| == |p| + 1
  {
    && |lens| == n
    && forall k, j :: 0 <= k < |F| && Leaves(F, k) <= j < F[k] && j < n ==> lens[j] == Depth(p, k) + 1
  }

  // The lengths of the items that are alive when node m is about to be made.
  ghost function Levels(n: nat, F: seq<nat>, p: seq<nat>, lens: seq<nat>, m: nat): (s: seq<int>)
    requires Upward(p) && |F| == |p| + 1 && |lens| == n && m <= |F|
    ensures |s| == n + |F|
    ensures forall id :: 0 <= id < |s| ==> s[id] == if !Alive(n, F, m, id) then -1 else if id < n then lens[id]
      else Depth(p, id - n)
  {
    seq(n + |F|, id requires 0 <= id < n + |F| => if !Alive(n, F, m, id) then -1 else if id < n then lens[id]
        else Depth(p, id - n))
  }

  // V weighs every item; an inner node weighs what its two items weigh.
  ghost predicate WeighedAt(n: nat, F: seq<nat>, V: seq<nat>, k: nat)
    requires k < |F| && |V| >= n + k + 1
  {
    StepFits(n, F, k) && V[n + k] == V[First(n, F, k)] + V[Second(n, F, k)]
  }

  ghost predicate Weighed(n: nat, F: seq<nat>, V: seq<nat>) {
    |V| == n + |F| && Fitting(n, F) && forall k :: 0 <= k < |F| ==> WeighedAt(n, F, V, k)
  }

  // Some weights for which a tree is weighed.
  lemma {:induction false} TreeWeights(n: nat, F: seq<nat>, k: nat) returns (V: seq<nat>)
    requires Fitting(n, F) && k <= |F|
    ensures |V| == n + k
    ensures forall j :: 0 <= j < k ==> WeighedAt(n, F, V, j)
  {
    if k == 0 {
      V := seq(n, i => 0);
    } else {
      var U := TreeWeights(n, F, k - 1);
      assert StepFits(n, F, k - 1);
      V := U + [U[First(n, F, k - 1)] + U[Second(n, F, k - 1)]];
      forall j | 0 <= j < k
        ensures WeighedAt(n, F, V, j)
      {
        assert j < k - 1 ==> WeighedAt(n, F, U, j);
      }
    }
  }

  ghost predicate Longish(lens: seq<nat>, p: seq<nat>, m: nat)
    requires Upward(p)
  {
    (forall j :: 0 <= j < |lens| ==> lens[j] <= m) && forall i :: 0 <= i <= |p| ==> Depth(p, i) <= m
  }

  lemma LevelAt(n: nat, F: seq<nat>, p: seq<nat>, lens: seq<nat>, m: nat, id: nat)
    requires Upward(p) && |F| == |p| + 1 && |lens| == n && m <= |F| && id < n + |F|
    ensures Levels(n, F, p, lens, m)[id] == if !Alive(n, F, m, id) then -1 else if id < n then lens[id]
      else Depth(p, id - n)
  {
  }

  lemma ThreeUpdates(s: seq<int>, t: seq<int>, z: nat, x: nat, y: nat, d: nat)
    requires |s| == |t| && z < |s| && x < |s| && y < |s| && x != z && y != z && s[z] == -1 && s[x] == s[y] == d
    requires forall id :: 0 <= id < |s| && id != x && id != y && id != z ==> s[id] == t[id]
    ensures s == t[z := -1][x := d][y := d]
  {
  }

  lemma LevelSizes(n: nat, F: seq<nat>, p: seq<nat>, lens: seq<nat>)
    requires Complete(n, F) && Parents(F, p) && Upward(p) && LeafDepths(n, F, p, lens)
    ensures |F| == |p| + 1 && |lens| == n
  {
  }

  lemma LevelsStep(n: nat, F: seq<nat>, p: seq<nat>, lens: seq<nat>, k: nat)
    requires Complete(n, F) && Parents(F, p) && Upward(p) && LeafDepths(n, F, p, lens) && k < |F|
    requires StepFits(n, F, k)
    ensures var d := Depth(p, k) + 1;
      Levels(n, F, p, lens, k) == Levels(n, F, p, lens, k + 1)[n + k := -1][First(n, F, k) := d][Second(n, F, k) := d]
    ensures Levels(n, F, p, lens, k + 1)[n + k] == Depth(p, k)
    ensures Levels(n, F, p, lens, k + 1)[First(n, F, k)] == Levels(n, F, p, lens, k + 1)[Second(n, F, k)] == -1
  {
    hide *;
    LevelSizes(n, F, p, lens);
    var d := Depth(p, k) + 1;
    var s, t := Levels(n, F, p, lens, k), Levels(n, F, p, lens, k + 1);
    var x, y := First(n, F, k), Second(n, F, k);
    ChildDepth(n, F, p, lens, k, x);
    ChildDepth(n, F, p, lens, k, y);
    forall id | 0 <= id < |s|
      ensures (id != x && id != y && id != n + k ==> s[id] == t[id])
      ensures id == n + k ==> s[id] == -1 && t[id] == Depth(p, k)
      ensures id == x || id == y ==> s[id] == d && t[id] == -1
    {
      AliveStep(n, F, k, id);
      LevelAt(n, F, p, lens, k, id);
      LevelAt(n, F, p, lens, k + 1, id);
    }
    ThreeUpdates(s, t, n + k, x, y, d);
  }

  lemma ChildDepth(n: nat, F: seq<nat>, p: seq<nat>, lens: seq<nat>, k: nat, id: nat)
    requires Complete(n, F) && Parents(F, p) && Upward(p) && LeafDepths(n, F, p, lens) && k < |F|
    requires StepFits(n, F, k) && (id == First(n, F, k) || id == Second(n, F, k))
    ensures id < n ==> lens[id] == Depth(p, k) + 1
    ensures id >= n ==> id - n <= |p| && Depth(p, id - n) == Depth(p, k) + 1
  {
    if id >= n {
      var i := id - n;
      assert Inner(F, k) <= i < Inner(F, k + 1);
      ChildrenUpTo(n, F, p, k, i);
      if k > 0 { ChildrenUpTo(n, F, p, k - 1, i); }
    }
  }

  // Weights of the nodes made from node m on.
  ghost function Joined(n: nat, F: seq<nat>, V: seq<nat>, m: nat): nat
    requires |V| == n + |F| && m <= |F|
    decreases |F| - m
  {
    if m == |F| then 0 else V[n + m] + Joined(n, F, V, m + 1)
  }

  // The code of a complete tree is complete, and its cost is the weight of the inner nodes.
  lemma {:induction false} LevelsSums(n: nat, F: seq<nat>, p: seq<nat>, lens: seq<nat>, V: seq<nat>, m: nat, k: nat)
    requires Complete(n, F) && Parents(F, p) && Upward(p) && LeafDepths(n, F, p, lens) && Weighed(n, F, V)
      && Longish(lens, p, m)
      && k <= |F|
    ensures var s := Levels(n, F, p, lens, k);
      Bounded(s, m) && Kraft(s, m) == Pow2(m) && Cost(V, s) == Joined(n, F, V, k)
    decreases |F| - k
  {
    if k == |F| {
      LastLevel(n, F, p, lens, V, m);
    } else {
      LevelsSums(n, F, p, lens, V, m, k + 1);
      OneLevel(n, F, p, lens, V, m, k, Levels(n, F, p, lens, k), Levels(n, F, p, lens, k + 1));
    }
  }

  lemma OneLevel(n: nat, F: seq<nat>, p: seq<nat>, lens: seq<nat>, V: seq<nat>, m: nat, k: nat, s: seq<int>,
      t: seq<int>)
    requires Complete(n, F) && Parents(F, p) && Upward(p) && LeafDepths(n, F, p, lens) && Weighed(n, F, V)
      && Longish(lens, p, m)
      && k < |F|
    requires s == Levels(n, F, p, lens, k) && t == Levels(n, F, p, lens, k + 1) && Bounded(t, m)
    ensures Bounded(s, m) && Kraft(s, m) == Kraft(t, m) && Cost(V, s) == Cost(V, t) + V[n + k]
  {
    assert StepFits(n, F, k);
    LevelsStep(n, F, p, lens, k);
    assert WeighedAt(n, F, V, k);
    var x, y, d := First(n, F, k), Second(n, F, k), Depth(p, k) + 1;
    ChildDepth(n, F, p, lens, k, x);
    hide Levels, LeafDepths, Complete, Parents, Depth, Kraft, Cost;
    SplitNode(V, t, n + k, x, y, d, m);
  }

  lemma LastLevel(n: nat, F: seq<nat>, p: seq<nat>, lens: seq<nat>, V: seq<nat>, m: nat)
    requires Complete(n, F) && |F| == |p| + 1 && Upward(p) && |lens| == n && |V| == n + |F|
    ensures var s := Levels(n, F, p, lens, |F|);
      Bounded(s, m) && Kraft(s, m) == Pow2(m) && Cost(V, s) == 0
  {
    var s := Levels(n, F, p, lens, |F|);
    var none := seq(n + |F|, id requires 0 <= id < n + |F| => -1);
    assert s == none[n + |p| := 0];
    NoItems(V, none, m);
    KraftUpdate(none, n + |p|, 0, m);
    CostUpdate(V, none, n + |p|, 0);
  }

  lemma SplitNode(v: seq<nat>, t: seq<int>, z: nat, x: nat, y: nat, d: nat, m: nat)
    requires |v| == |t| && z < |t| && x < |t| && y < |t| && x != y && x != z && y != z && Bounded(t, m)
    requires 0 < d <= m && t[z] == d - 1 && t[x] == t[y] == -1 && v[z] == v[x] + v[y]
    ensures var s := t[z := -1][x := d][y := d];
      Bounded(s, m) && Kraft(s, m) == Kraft(t, m) && Cost(v, s) == Cost(v, t) + v[z]
  {
    KraftUpdate(t, z, -1, m);
    KraftUpdate(t[z := -1], x, d, m);
    KraftUpdate(t[z := -1][x := d], y, d, m);
    CostUpdate(v, t, z, -1);
    CostUpdate(v, t[z := -1], x, d);
    CostUpdate(v, t[z := -1][x := d], y, d);
    Distribute(v[x], v[y], d);
    assert Share(d - 1, m) == 2 * Share(d, m);
  }

  lemma {:induction false} NoItems(v: seq<nat>, s: seq<int>, m: nat)
    requires |v| == |s| && forall i :: 0 <= i < |s| ==> s[i] == -1
    ensures Bounded(s, m) && Kraft(s, m) == 0 && Cost(v, s) == 0
  {
    if s != [] { NoItems(v[1..], s[1..], m); }
  }

  // --- optimality ------------------------------------------------------------------------------------------------

  // Node k joins two of the lightest items.
  ghost predicate LightAt(n: nat, F: seq<nat>, V: seq<nat>, k: nat)
    requires k < |F| && |V| == n + |F|
  {
    && StepFits(n, F, k)
    && forall id :: 0 <= id < n + k && Alive(n, F, k + 1, id) ==> V[First(n, F, k)] <= V[id] && V[Second(n, F, k)] <= V[id]
  }

  ghost predicate Greedy(n: nat, F: seq<nat>, V: seq<nat>) {
    Weighed(n, F, V) && forall k :: 0 <= k < |F| ==> LightAt(n, F, V, k)
  }

  ghost predicate Supports(n: nat, F: seq<nat>, m: nat, s: seq<int>)
    requires m <= |F|
  {
    |s| == n + |F| && forall id :: 0 <= id < |s| ==> (s[id] >= 0 <==> Alive(n, F, m, id))
  }

  // No complete or incomplete code for the items alive is cheaper than the nodes still to be made.
  lemma {:induction false} NoneCheaper(n: nat, F: seq<nat>, V: seq<nat>, k: nat, s: seq<int>, m: nat)
    requires Fitting(n, F) && Greedy(n, F, V) && k <= |F| && Supports(n, F, k, s) && Bounded(s, m)
      && Kraft(s, m) <= Pow2(m)
    ensures Cost(V, s) >= Joined(n, F, V, k)
    decreases |F| - k
  {
    if k < |F| {
      assert WeighedAt(n, F, V, k);
      var x, y, z := First(n, F, k), Second(n, F, k), n + k;
      forall id | 0 <= id < |s|
        ensures Alive(n, F, k + 1, id) <==> id == z || (Alive(n, F, k, id) && id != x && id != y)
      {
        AliveStep(n, F, k, id);
      }
      AliveStep(n, F, k, z);
      JoinLightest(n, F, V, k, s);
      var t;
      if V[x] <= V[y] { t := Merge(V, s, x, y, z, m); } else { t := Merge(V, s, y, x, z, m); }
      NoneCheaper(n, F, V, k + 1, t, m);
    }
  }

  lemma JoinLightest(n: nat, F: seq<nat>, V: seq<nat>, k: nat, s: seq<int>)
    requires Fitting(n, F) && Greedy(n, F, V) && k < |F| && Supports(n, F, k, s) && StepFits(n, F, k)
    ensures Lightest(V, s, First(n, F, k), Second(n, F, k)) && Lightest(V, s, Second(n, F, k), First(n, F, k))
  {
    var x, y := First(n, F, k), Second(n, F, k);
    AliveStep(n, F, k, x);
    assert LightAt(n, F, V, k);
    forall i | 0 <= i < |s| && i != x && i != y && s[i] >= 0
      ensures V[x] <= V[i] && V[y] <= V[i]
    {
      AliveStep(n, F, k, i);
      assert Alive(n, F, k, i) && i < n + k;
    }
  }

  lemma Padded(v: seq<nat>, s: seq<int>, rest: seq<nat>, pad: seq<int>, m: nat)
    requires |v| == |s| && |rest| == |pad| && Bounded(s, m) && forall i :: 0 <= i < |pad| ==> pad[i] == -1
    ensures Bounded(s + pad, m) && Kraft(s + pad, m) == Kraft(s, m) && Cost(v + rest, s + pad) == Cost(v, s)
  {
    NoItems(rest, pad, m);
    KraftConcat(s, pad, m);
    CostConcat(v, s, rest, pad);
  }

  lemma {:induction false} CostConcat(v: seq<nat>, s: seq<int>, v': seq<nat>, s': seq<int>)
    requires |v| == |s| && |v'| == |s'|
    ensures Cost(v + v', s + s') == Cost(v, s) + Cost(v', s')
  {
    if s == [] {
      assert v + v' == v' && s + s' == s';
    } else {
      assert (v + v')[1..] == v[1..] + v' && (s + s')[1..] == s[1..] + s';
      CostConcat(v[1..], s[1..], v', s');
    }
  }

  lemma {:induction false} ParentOfLeaf(n: nat, F: seq<nat>, j: nat, h: nat) returns (k: nat)
    requires Fitting(n, F) && 0 < h <= |F| && j < F[h - 1]
    ensures k < h && Leaves(F, k) <= j < F[k]
  {
    if Leaves(F, h - 1) <= j { k := h - 1; } else { k := ParentOfLeaf(n, F, j, h - 1); }
  }

  lemma LengthBounds(n: nat, F: seq<nat>, p: seq<nat>, lens: seq<nat>)
    requires Complete(n, F) && Parents(F, p) && Upward(p) && LeafDepths(n, F, p, lens)
    ensures (forall j :: 0 <= j < n ==> 0 < lens[j] <= n) && Longish(lens, p, n)
  {
    forall j | 0 <= j < n
      ensures 0 < lens[j] <= n
    {
      var k := ParentOfLeaf(n, F, j, n - 1);
      DepthBound(p, k);
    }
    forall i | 0 <= i <= |p|
      ensures Depth(p, i) <= n
    {
      DepthBound(p, i);
    }
  }

  ghost predicate NoneOf(pad: seq<int>) { forall i :: 0 <= i < |pad| ==> pad[i] == -1 }

  lemma FirstLevels(n: nat, F: seq<nat>, p: seq<nat>, lens: seq<nat>) returns (pad: seq<int>)
    requires Upward(p) && |F| == |p| + 1 && |lens| == n
    ensures NoneOf(pad) && |pad| == |F| && Levels(n, F, p, lens, 0) == lens + pad
  {
    pad := seq(|F|, i requires 0 <= i < |F| => -1);
    hide Depth;
    assert Levels(n, F, p, lens, 0) == lens + pad;
  }

  // All that a complete tree says about its code.
  lemma TreeCode(n: nat, F: seq<nat>, p: seq<nat>, lens: seq<nat>, V: seq<nat>)
    requires Complete(n, F) && Parents(F, p) && Upward(p) && LeafDepths(n, F, p, lens) && Weighed(n, F, V)
    ensures n <= |V| && |lens| == n && Full(lens) && Cost(V[..n], lens) == Joined(n, F, V, 0)
    ensures forall j :: 0 <= j < n ==> 0 < lens[j] <= n
  {
    assert |F| == |p| + 1 && |lens| == n && |V| == n + |F|;
    hide *;
    LengthBounds(n, F, p, lens);
    LevelsSums(n, F, p, lens, V, n, 0);
    var pad := FirstLevels(n, F, p, lens);
    LeavesOnly(V, n, lens, pad, n);
    FullAt(lens, n);
  }

  // Items that take no part can be left out.
  lemma LeavesOnly(V: seq<nat>, n: nat, l: seq<nat>, pad: seq<int>, m: nat)
    requires |V| == n + |pad| && |l| == n && NoneOf(pad) && (Bounded(l, m) || Bounded(l + pad, m))
    ensures Bounded(l, m) && Bounded(l + pad, m) && Kraft(l + pad, m) == Kraft(l, m)
      && Cost(V, l + pad) == Cost(V[..n], l)
  {
    assert Bounded(l + pad, m) ==> Bounded(l, m) by {
      assert forall i :: 0 <= i < n ==> (l + pad)[i] == l[i];
    }
    Padded(V[..n], l, V[n..], pad, m);
    assert V == V[..n] + V[n..];
  }

  lemma TreeOptimal(n: nat, F: seq<nat>, p: seq<nat>, lens: seq<nat>, V: seq<nat>)
    requires Complete(n, F) && Parents(F, p) && Upward(p) && LeafDepths(n, F, p, lens) && Greedy(n, F, V)
    ensures n <= |V| && Optimal(V[..n], lens)
  {
    TreeCode(n, F, p, lens, V);
    forall l: seq<nat>, m: nat | |l| == n && Code(l, m)
      ensures Cost(V[..n], lens) <= Cost(V[..n], l)
    {
      LeafCode(n, F, V, l, m);
    }
  }

  lemma LeafCode(n: nat, F: seq<nat>, V: seq<nat>, l: seq<nat>, m: nat)
    requires Complete(n, F) && Greedy(n, F, V) && |l| == n && Code(l, m)
    ensures |V| == n + |F| && Joined(n, F, V, 0) <= Cost(V[..n], l)
  {
    var pad: seq<int> := seq(|F|, i requires 0 <= i < |F| => -1);
    assert Supports(n, F, 0, l + pad) && NoneOf(pad);
    assert Fitting(n, F) && Bounded(l, m) && Kraft(l, m) <= Pow2(m) && |V| == n + |pad|;
    hide *;
    LeavesOnly(V, n, l, pad, m);
    NoneCheaper(n, F, V, 0, l + pad, m);
  }

  // --- depth -------------------------------------------------------------------------------------------------------

  // The d-th number after a in the Fibonacci sequence in which b comes before a.
  function FibFrom(a: nat, b: nat, d: nat): nat
    decreases d
  {
    if d == 0 then a else FibFrom(a + b, a, d - 1)
  }

  // Items that node k could join are no lighter than those an earlier node i has joined.
  lemma {:induction false} LaterHeavy(n: nat, F: seq<nat>, V: seq<nat>, i: nat, k: nat, o: nat)
    requires Fitting(n, F) && Greedy(n, F, V) && i < k <= |F| && o < n + k && Alive(n, F, k, o) && StepFits(n, F, i)
    ensures V[First(n, F, i)] <= V[o] && V[Second(n, F, i)] <= V[o]
    decreases o
  {
    InnerMonotone(n, F, i + 1, k);
    assert LightAt(n, F, V, i);
    assert WeighedAt(n, F, V, i);
    if o < n + i {
      assert Alive(n, F, i + 1, o);
    } else if o > n + i {
      assert WeighedAt(n, F, V, o - n);
      AliveStep(n, F, o - n, First(n, F, o - n));
      LaterHeavy(n, F, V, i, o - n, First(n, F, o - n));
    }
  }

  // Every level up adds at least the next Fibonacci number.
  lemma {:induction false} Climb(n: nat, F: seq<nat>, p: seq<nat>, V: seq<nat>, i: nat, a: nat, b: nat)
    requires Complete(n, F) && Parents(F, p) && Upward(p) && Greedy(n, F, V) && i <= |p| && StepFits(n, F, i)
    requires a <= V[n + i] && (b <= V[First(n, F, i)] || b <= V[Second(n, F, i)])
    ensures FibFrom(a, b, Depth(p, i)) <= V[n + |p|]
    decreases |p| - i
  {
    if i < |p| {
      var k := p[i];
      assert IsParent(F, i, k) && WeighedAt(n, F, V, k);
      var x, y := First(n, F, k), Second(n, F, k);
      AliveStep(n, F, k, x);
      AliveStep(n, F, k, y);
      LaterHeavy(n, F, V, i, k, x);
      LaterHeavy(n, F, V, i, k, y);
      assert x == n + i || y == n + i;
      Climb(n, F, p, V, k, a + b, a);
    }
  }

  lemma {:induction false} AllPositive(n: nat, F: seq<nat>, V: seq<nat>, id: nat)
    requires Weighed(n, F, V) && id < |V| && forall j :: 0 <= j < n ==> V[j] > 0
    ensures V[id] > 0
    decreases id
  {
    if id >= n {
      assert WeighedAt(n, F, V, id - n);
      AllPositive(n, F, V, First(n, F, id - n));
    }
  }

  // A code length of len needs counts that add up to the (len + 2)-nd Fibonacci number.
  lemma TreeShallow(n: nat, F: seq<nat>, p: seq<nat>, lens: seq<nat>, V: seq<nat>, j: nat)
    requires Complete(n, F) && Parents(F, p) && Upward(p) && LeafDepths(n, F, p, lens) && Greedy(n, F, V)
    requires (forall i :: 0 <= i < n ==> V[i] > 0) && j < n
    ensures lens[j] > 0 && FibFrom(2, 1, lens[j] - 1) <= V[n + |p|]
  {
    var k := ParentOfLeaf(n, F, j, n - 1);
    assert WeighedAt(n, F, V, k);
    AllPositive(n, F, V, First(n, F, k));
    AllPositive(n, F, V, Second(n, F, k));
    Climb(n, F, p, V, k, 2, 1);
  }
}
