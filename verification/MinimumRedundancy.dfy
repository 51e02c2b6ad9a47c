// Code lengths in place, after Moffat and Katajainen: the array first holds symbol counts in rising order, then
// parents of inner nodes, then depths of inner nodes, and at the end the code length of every symbol.
module MinimumRedundancy {
  import opened PrefixCodes
  import opened HuffmanTrees

  // A 16-bit key; sums wrap.
  type Key = x: nat | x < 65536

  function Add(x: Key, y: Key): Key { (x + y) as int % 65536 }

  ghost function Weight(w: seq<Key>, W: seq<Key>, id: nat): Key
    requires id < |w| + |W|
  {
    if id < |w| then w[id] else W[id - |w|]
  }

  // Which of the two queues the next item is taken from: the one whose head is lighter.
  ghost predicate TakesLeaf(w: seq<Key>, W: seq<Key>, leaf: nat, root: nat) {
    !(leaf >= |w| || (root < |W| && W[root] < w[leaf]))
  }

  ghost function Taken(w: seq<Key>, W: seq<Key>, leaf: nat, root: nat): Key
    requires leaf < |w| || root < |W|
  {
    if TakesLeaf(w, W, leaf, root) then w[leaf] else W[root]
  }

  ghost function LeafAfter(w: seq<Key>, W: seq<Key>, leaf: nat, root: nat): nat {
    if TakesLeaf(w, W, leaf, root) then leaf + 1 else leaf
  }

  ghost function RootAfter(w: seq<Key>, W: seq<Key>, leaf: nat, root: nat): nat {
    if TakesLeaf(w, W, leaf, root) then root else root + 1
  }

  // The tree after its first k inner nodes have been made: their keys, and how many leaves were taken when.
  datatype Tree = Tree(W: seq<Key>, F: seq<nat>)

  ghost predicate Growing(w: seq<Key>, t: Tree) { |w| >= 2 && 0 < |t.W| == |t.F| < |w| && Fitting(|w|, t.F) }

  ghost function Grow(w: seq<Key>, t: Tree): (r: Tree)
    requires Growing(w, t) && |t.W| < |w| - 1
    ensures Growing(w, r) && |r.W| == |t.W| + 1
  {
    var k := |t.F|;
    assert StepFits(|w|, t.F, k - 1);
    var leaf, root := Leaves(t.F, k), Inner(t.F, k);
    var leaf1, root1 := LeafAfter(w, t.W, leaf, root), RootAfter(w, t.W, leaf, root);
    var F := t.F + [LeafAfter(w, t.W, leaf1, root1)];
    assert Inner(F, k) == root;
    assert StepFits(|w|, F, k);
    assert forall j :: 0 <= j < k ==> StepFits(|w|, t.F, j) ==> StepFits(|w|, F, j);
    Tree(t.W + [Add(Taken(w, t.W, leaf, root), Taken(w, t.W, leaf1, root1))], F)
  }

  ghost function Built(w: seq<Key>, k: nat): (t: Tree)
    requires 0 < k < |w|
    ensures Growing(w, t) && |t.F| == k
  {
    if k == 1 then
      var F: seq<nat> := [2];
      assert StepFits(|w|, F, 0);
      Tree([Add(w[0], w[1])], F)
    else Grow(w, Built(w, k - 1))
  }

  // --- the three passes ------------------------------------------------------------------------------------------

  // The array while the tree is growing: parents, then keys of inner nodes without a parent, then leaves.
  ghost predicate Holds(a: seq<Key>, w: seq<Key>, t: Tree, leaf: nat, root: nat) {
    && |a| == |w| && root <= |t.W| <= leaf <= |a|
    && (forall i :: 0 <= i < root ==> IsParent(t.F, i, a[i]))
    && (forall i :: root <= i < |t.W| ==> a[i] == t.W[i])
    && (forall j :: leaf <= j < |a| ==> a[j] == w[j])
  }

  // In the middle of making node k: the inner nodes root0..root have been given k as their parent.
  ghost predicate Joining(a: seq<Key>, w: seq<Key>, t: Tree, root0: nat, leaf: nat, root: nat) {
    && |a| == |w| && root0 <= root <= |t.W| < leaf <= |a|
    && (forall i :: 0 <= i < root0 ==> IsParent(t.F, i, a[i]))
    && (forall i :: root0 <= i < root ==> a[i] == |t.W|)
    && (forall i :: root <= i < |t.W| ==> a[i] == t.W[i])
    && (forall j :: leaf <= j < |a| ==> a[j] == w[j])
  }

  lemma NodeMade(a: seq<Key>, w: seq<Key>, t: Tree, leaf0: nat, root0: nat, leaf: nat, root: nat)
    requires Growing(w, t) && |t.W| < |w| - 1 && leaf0 == Leaves(t.F, |t.F|) && root0 == Inner(t.F, |t.F|)
    requires var leaf1, root1 := LeafAfter(w, t.W, leaf0, root0), RootAfter(w, t.W, leaf0, root0);
      leaf == LeafAfter(w, t.W, leaf1, root1) && root == RootAfter(w, t.W, leaf1, root1)
    requires Joining(a, w, t, root0, leaf, root) && a[|t.W|] == Grow(w, t).W[|t.W|]
    ensures var r := Grow(w, t);
      Holds(a, w, r, leaf, root) && leaf == Leaves(r.F, |r.F|) && root == Inner(r.F, |r.F|)
  {
    var r := Grow(w, t);
    forall i | 0 <= i < root
      ensures IsParent(r.F, i, a[i])
    {
      if i < root0 { assert IsParent(t.F, i, a[i]); }
    }
  }

  // Takes the lighter of the next leaf and the next inner node, and makes it the first child of node next.
  method TakeFirst(a: array<Key>, next: nat, leaf: nat, root: nat, ghost w: seq<Key>, ghost t: Tree)
    returns (leaf': nat, root': nat)
    requires next == |t.W| < a.Length - 1 && a.Length <= 65536 && root < next < leaf <= a.Length
      && Joining(a[..], w, t, root, leaf, root)
    modifies a
    ensures leaf' == LeafAfter(w, t.W, leaf, root) && root' == RootAfter(w, t.W, leaf, root)
    ensures Joining(a[..], w, t, root, leaf', root') && a[next] == Taken(w, t.W, leaf, root)
  {
    leaf', root' := leaf, root;
    if leaf >= a.Length || a[root] < a[leaf] {
      a[next] := a[root];
      a[root] := next;
      root' := root + 1;
    } else {
      a[next] := a[leaf];
      leaf' := leaf + 1;
    }
  }

  // The same for the second child; now the queue of inner nodes may be empty.
  method TakeSecond(a: array<Key>, next: nat, leaf: nat, root: nat, ghost w: seq<Key>, ghost t: Tree, ghost root0: nat)
    returns (leaf': nat, root': nat)
    requires next == |t.W| < a.Length - 1 && a.Length <= 65536 && Joining(a[..], w, t, root0, leaf, root)
      && (leaf >= a.Length ==> root < next)
    modifies a
    ensures leaf' == LeafAfter(w, t.W, leaf, root) && root' == RootAfter(w, t.W, leaf, root)
    ensures Joining(a[..], w, t, root0, leaf', root') && a[next] == Add(old(a[next]), Taken(w, t.W, leaf, root))
  {
    leaf', root' := leaf, root;
    if leaf >= a.Length || (root < next && a[root] < a[leaf]) {
      a[next] := Add(a[next], a[root]);
      a[root] := next;
      root' := root + 1;
    } else {
      a[next] := Add(a[next], a[leaf]);
      leaf' := leaf + 1;
    }
  }

  lemma QueueFacts(w: seq<Key>, t: Tree, leaf: nat, root: int)
    requires Growing(w, t) && |t.W| < |w| - 1 && leaf == Leaves(t.F, |t.F|) && root == Inner(t.F, |t.F|)
    ensures 0 <= root < |t.W| < leaf <= |w|
    ensures var leaf1, root1 := LeafAfter(w, t.W, leaf, root), RootAfter(w, t.W, leaf, root);
      leaf1 >= |w| ==> root1 < |t.W|
    ensures Grow(w, t).W[|t.W|] == Add(Taken(w, t.W, leaf, root),
      Taken(w, t.W, LeafAfter(w, t.W, leaf, root), RootAfter(w, t.W, leaf, root)))
  {
    assert StepFits(|w|, t.F, |t.W| - 1);
  }

  // Makes inner node next.
  method JoinTwo(a: array<Key>, next: nat, leaf: nat, root: nat, ghost w: seq<Key>, ghost t: Tree)
    returns (leaf': nat, root': nat)
    requires next == |t.W| < a.Length - 1 && |w| == a.Length <= 65536 && Growing(w, t)
    requires leaf == Leaves(t.F, next) && root == Inner(t.F, next) && Holds(a[..], w, t, leaf, root)
    modifies a
    ensures leaf' == Leaves(Grow(w, t).F, next + 1) && root' == Inner(Grow(w, t).F, next + 1)
      && Holds(a[..], w, Grow(w, t), leaf', root')
  {
    QueueFacts(w, t, leaf, root);
    assert Joining(a[..], w, t, root, leaf, root);
    assert |Grow(w, t).F| == next + 1;
    hide *;
    leaf', root' := TakeFirst(a, next, leaf, root, w, t);
    leaf', root' := TakeSecond(a, next, leaf', root', w, t, root);
    NodeMade(a[..], w, t, leaf, root, leaf', root');
  }

  lemma AllJoined(a: seq<Key>, w: seq<Key>, t: Tree, leaf: nat, root: nat)
    requires Growing(w, t) && |t.F| == |w| - 1 && leaf == Leaves(t.F, |t.F|) && root == Inner(t.F, |t.F|)
      && Holds(a, w, t, leaf, root)
    ensures Complete(|w|, t.F) && |a| == |w| && Parents(t.F, a[..|a| - 2])
  {
    assert StepFits(|w|, t.F, |w| - 2);
  }

  lemma FirstJoined(a: seq<Key>, w: seq<Key>)
    requires |w| >= 2 && a == w[0 := Add(w[0], w[1])]
    ensures var t := Built(w, 1); Holds(a, w, t, 2, 0) && Leaves(t.F, 1) == 2 && Inner(t.F, 1) == 0
  {
  }

  // Joins leaves and inner nodes until one node is left.
  method JoinPairs(a: array<Key>)
    requires 2 <= a.Length <= 65536
    modifies a
    ensures var t := Built(old(a[..]), a.Length - 1);
      Complete(a.Length, t.F) && Parents(t.F, a[..a.Length - 2])
  {
    hide Growing, Holds, IsParent, Fitting, Grow, Complete, Parents, StepFits, Built, Inner, Leaves;
    ghost var w := a[..];
    var n := a.Length;
    a[0] := Add(a[0], a[1]);
    var root, leaf, next := 0, 2, 1;
    ghost var t := Built(w, 1);
    FirstJoined(a[..], w);
    while next < n - 1
      invariant 0 < next < n && t == Built(w, next)
      invariant leaf == Leaves(t.F, next) && root == Inner(t.F, next)
      invariant Holds(a[..], w, t, leaf, root)
    {
      BuiltGrows(w, next + 1);
      leaf, root := JoinTwo(a, next, leaf, root, w, t);
      next := next + 1;
      t := Grow(w, t);
    }
    AllJoined(a[..], w, t, leaf, root);
  }

  // Turns parents into depths.
  method FindDepths(a: array<Key>, ghost p: seq<nat>)
    requires 2 <= a.Length <= 65536 && |p| == a.Length - 2 && Upward(p) && forall i :: 0 <= i < |p| ==> a[i] == p[i]
    modifies a
    ensures forall i :: 0 <= i <= |p| ==> a[i] == Depth(p, i)
  {
    var n := a.Length;
    a[n - 2] := 0;
    var next: int := n - 3;
    while next >= 0
      invariant -1 <= next <= n - 3
      invariant forall i :: 0 <= i <= next ==> a[i] == p[i]
      invariant forall i :: next < i <= |p| ==> a[i] == Depth(p, i)
    {
      DepthBound(p, next);
      a[next] := a[a[next]] + 1;
      next := next - 1;
    }
  }

  // --- from depths of inner nodes to code lengths -----------------------------------------------------------------

  // Nodes after root are less deep than d, the others are not.
  ghost predicate Cut(p: seq<nat>, root: int, d: int)
    requires Upward(p)
  {
    -1 <= root <= |p| && forall i :: 0 <= i <= |p| ==> (i > root <==> Depth(p, i) < d)
  }

  // The leaves after next have their lengths, in falling order and below d.
  ghost predicate Assigned(a: seq<Key>, F: seq<nat>, p: seq<nat>, next: int, d: nat)
    requires Upward(p) && |F| == |p| + 1
  {
    && -1 <= next < |a|
    && (forall k, j :: 0 <= k < |F| && Leaves(F, k) <= j < F[k] && next < j < |a| ==> a[j] == Depth(p, k) + 1)
    && (forall j :: next < j < |a| ==> a[j] < d)
    && (forall i, j :: next < i < j < |a| ==> a[i] >= a[j])
  }

  // The leaves at depth d are the leaf children of the nodes root+1..above, which are at depth d-1.
  lemma LeavesAt(n: nat, F: seq<nat>, p: seq<nat>, above: int, root: int, d: nat, k: nat, j: nat)
    requires Complete(n, F) && Parents(F, p) && Upward(p) && d > 0 && Cut(p, above, d - 1) && Cut(p, root, d)
      && root <= above
    requires k < |F| && Leaves(F, k) <= j < F[k] && Leaves(F, root + 1) <= j < Leaves(F, above + 1)
    ensures Depth(p, k) == d - 1
  {
    hide IsParent, Depth;
    if k <= root { InnerMonotone(n, F, k + 1, root + 1); }
    if k > above { InnerMonotone(n, F, above + 1, k); }
    assert root < k <= above;
    BetweenCuts(p, above, root, d, k);
  }

  lemma BetweenCuts(p: seq<nat>, above: int, root: int, d: nat, k: nat)
    requires Upward(p) && d > 0 && Cut(p, above, d - 1) && Cut(p, root, d) && root < k <= above
    ensures k <= |p| && Depth(p, k) == d - 1
  {
  }

  lemma CutMember(n: nat, F: seq<nat>, p: seq<nat>, root: int, root': int, d: nat, i: nat)
    requires Complete(n, F) && Parents(F, p) && Upward(p) && Cut(p, root, d) && Cut(p, root', d + 1) && i < |p|
    ensures i < Inner(F, root + 1) <==> i <= root'
  {
    if root >= 0 { ChildrenUpTo(n, F, p, root, i); }
    assert IsParent(F, i, p[i]);
    assert Depth(p, i) == 1 + Depth(p, p[i]);
  }

  // The nodes below the next cut are the inner children of the nodes up to root.
  lemma CutInner(n: nat, F: seq<nat>, p: seq<nat>, root: int, root': int, d: nat)
    requires Complete(n, F) && Parents(F, p) && Upward(p) && Cut(p, root, d) && Cut(p, root', d + 1)
    ensures Inner(F, root + 1) == root' + 1
  {
    if root >= 0 { assert StepFits(n, F, root); }
    var x := Inner(F, root + 1);
    assert Depth(p, |p|) == 0;
    if x < |p| { CutMember(n, F, p, root, root', d, x); }
    if root' + 1 < |p| { CutMember(n, F, p, root, root', d, root' + 1); }
  }

  // Before level d: next and avbl follow from the cuts above and below level d - 1.
  ghost predicate AtLevel(n: nat, F: seq<nat>, p: seq<nat>, above: int, root: int, next: int, avbl: int, d: nat)
    requires Upward(p)
  {
    && Cut(p, root, d) && next == root + avbl
    && if d == 0 then root == above == |p| && avbl == 1 else Cut(p, above, d - 1) && root <= above && avbl == 2 * (above - root) && -1 <= above < |F| && Inner(F, above + 1) == root + 1
  }

  // How many inner nodes are at depth dpth; root is the last of them.
  method CountLevel(a: array<Key>, root: int, dpth: nat, ghost n: nat, ghost F: seq<nat>, ghost p: seq<nat>)
    returns (root': int, used: nat)
    requires Fitting(n, F) && Parents(F, p) && Upward(p) && Cut(p, root, dpth)
    requires root < a.Length && forall i :: 0 <= i <= root ==> a[i] == Depth(p, i)
    ensures root' + used == root && Cut(p, root', dpth + 1)
  {
    used := 0;
    root' := root;
    while root' >= 0 && a[root'] == dpth
      invariant -1 <= root' <= root && used == root - root'
      invariant forall i :: root' < i <= root ==> Depth(p, i) == dpth
    {
      used := used + 1;
      root' := root' - 1;
    }
    forall i | 0 <= i <= root'
      ensures Depth(p, i) > dpth
    {
      DepthMonotone(n, F, p, i, root');
    }
  }

  // Gives the last avbl - used open leaves the length dpth.
  method FillLevel(a: array<Key>, next: int, avbl: int, used: int, dpth: nat) returns (next': int)
    requires used <= avbl && -1 <= next - (avbl - used) <= next < a.Length && dpth < 65536
    modifies a
    ensures next' == next - (avbl - used)
    ensures forall j :: 0 <= j < a.Length ==> a[j] == if next' < j <= next then dpth else old(a[j])
  {
    var left := avbl;
    next' := next;
    while left > used
      invariant used <= left <= avbl && next' == next - (avbl - left)
      invariant forall j :: 0 <= j < a.Length ==> a[j] == if next' < j <= next then dpth else old(a[j])
    {
      a[next'] := dpth;
      next' := next' - 1;
      left := left - 1;
    }
  }

  lemma DepthOfParent(p: seq<nat>, i: nat)
    requires Upward(p) && i < |p|
    ensures Depth(p, i) == 1 + Depth(p, p[i])
  {
  }

  // Two cuts at one place leave no nodes below.
  lemma NoGap(F: seq<nat>, p: seq<nat>, root: int, d: int)
    requires Parents(F, p) && Upward(p) && Cut(p, root, d) && Cut(p, root, d + 1)
    ensures root == -1 || root == |p|
  {
    hide Depth;
    if 0 <= root < |p| { DepthOfParent(p, root); }
  }

  // One level in numbers: the leaves at depth d are exactly the positions after next'.
  lemma LevelCount(n: nat, F: seq<nat>, p: seq<nat>, above: int, root: int, next: int, avbl: int, d: nat, root': int,
      used: nat)
    requires Complete(n, F) && Parents(F, p) && Upward(p) && AtLevel(n, F, p, above, root, next, avbl, d) && avbl > 0
    requires root' + used == root && Cut(p, root', d + 1)
    ensures used <= avbl && next < n && -1 <= next - (avbl - used) && d < n
    ensures AtLevel(n, F, p, root, root', next - (avbl - used), 2 * used, d + 1)
    ensures d > 0 ==> next - (avbl - used) + 1 == Leaves(F, root + 1) && next + 1 == Leaves(F, above + 1)
    ensures d == 0 ==> used == avbl
  {
    CutInner(n, F, p, root, root', d);
    if d > 0 {
      InnerMonotone(n, F, root + 1, above + 1);
      DepthBound(p, above);
      assert StepFits(n, F, above);
    } else {
      assert Depth(p, |p|) == 0 && forall i :: 0 <= i < |p| ==> Depth(p, i) >= 1;
      assert root' == |p| - 1;
    }
  }

  // The lengths written for one level are those of its leaves.
  lemma LevelWritten(n: nat, F: seq<nat>, p: seq<nat>, above: int, root: int, before: seq<Key>, after: seq<Key>,
      next: int,
      next': int, d: nat)
    requires Complete(n, F) && Parents(F, p) && Upward(p) && Assigned(before, F, p, next, d) && -1 <= next' <= next
    requires |after| == |before| == n && forall j :: 0 <= j < n ==> after[j] == if next' < j <= next then d
      else before[j]
    requires d == 0 ==> next' == next
    requires d > 0 ==> root <= above && Cut(p, above, d - 1) && Cut(p, root, d) && next' + 1 == Leaves(F, root + 1)
    requires d > 0 ==> next + 1 == Leaves(F, above + 1)
    ensures Assigned(after, F, p, next', d + 1)
  {
    forall k, j | 0 <= k < |F| && Leaves(F, k) <= j < F[k] && next' < j < n
      ensures after[j] == Depth(p, k) + 1
    {
      if j <= next { LeavesAt(n, F, p, above, root, d, k, j); }
    }
  }

  // Hands the depths of the inner nodes on to the leaves, level by level.
  method AssignLengths(a: array<Key>, ghost F: seq<nat>, ghost p: seq<nat>)
    requires 2 <= a.Length <= 65536 && Complete(a.Length, F) && Parents(F, p) && Upward(p)
    requires forall i :: 0 <= i <= |p| ==> a[i] == Depth(p, i)
    modifies a
    ensures LeafDepths(a.Length, F, p, a[..])
    ensures forall i, j :: 0 <= i < j < a.Length ==> a[i] >= a[j]
  {
    var n := a.Length;
    var avbl, dpth, root, next := 1, 0, n - 2, n - 1;
    ghost var above: int := n - 2;
    assert Depth(p, |p|) == 0;
    while avbl > 0
      invariant 0 <= avbl && 0 <= dpth && root < n
      invariant AtLevel(n, F, p, above, root, next, avbl, dpth)
      invariant forall i :: 0 <= i <= root ==> a[i] == Depth(p, i)
      invariant Assigned(a[..], F, p, next, dpth)
      decreases root + 1 + (if avbl > 0 then 1 else 0)
    {
      hide LeafDepths, Assigned, Complete, Parents, Upward, IsParent, Depth;
      ghost var before, was, next0 := a[..], root, next;
      var used;
      root, used := CountLevel(a, root, dpth, n, F, p);
      LevelCount(n, F, p, above, was, next, avbl, dpth, root, used);
      next := FillLevel(a, next, avbl, used, dpth);
      LevelWritten(n, F, p, above, was, before, a[..], next0, next, dpth);
      above := was;
      avbl := 2 * used;
      dpth := dpth + 1;
    }
    NoGap(F, p, root, dpth - 1);
    assert Depth(p, |p|) == 0;
  }

  // --- what the greedy choice guarantees ---------------------------------------------------------------------------

  ghost predicate Sorted(w: seq<Key>) { forall i, j :: 0 <= i <= j < |w| ==> w[i] <= w[j] }

  ghost function Max(x: nat, y: nat): nat { if x < y then y else x }

  // The heavier of the two items that node k joins.
  ghost function Heavier(w: seq<Key>, t: Tree, k: nat): nat
    requires Growing(w, t) && k < |t.F|
  {
    assert StepFits(|w|, t.F, k);
    Max(Weight(w, t.W, First(|w|, t.F, k)), Weight(w, t.W, Second(|w|, t.F, k)))
  }

  // Node k weighs what its two items weigh: the sum has not wrapped.
  ghost predicate Exact(w: seq<Key>, t: Tree, k: nat)
    requires Growing(w, t) && k < |t.F|
  {
    StepFits(|w|, t.F, k) && t.W[k] == Weight(w, t.W, First(|w|, t.F, k)) + Weight(w, t.W, Second(|w|, t.F, k))
  }

  // Everything alive after node k has been made is at least as heavy as what it joins.
  ghost predicate Least(w: seq<Key>, t: Tree, k: nat)
    requires Growing(w, t) && k < |t.F|
  {
    forall id :: 0 <= id < |w| + k && Alive(|w|, t.F, k + 1, id) ==> Heavier(w, t, k) <= Weight(w, t.W, id)
  }

  // The queue of inner nodes is sorted; only the last node, the root, is exempt.
  ghost predicate Rising(w: seq<Key>, t: Tree) {
    forall i, j :: 0 <= i <= j < |t.W| && j < |w| - 2 ==> t.W[i] <= t.W[j]
  }

  ghost predicate Sound(w: seq<Key>, t: Tree)
    requires Growing(w, t)
  {
    && Rising(w, t)
    && (forall k :: 0 <= k < |t.F| ==> Least(w, t, k))
    && (forall k :: 0 <= k < |t.F| && k < |w| - 2 ==> Exact(w, t, k))
  }

  // What is not taken yet.
  ghost function Open(w: seq<Key>, t: Tree): nat
    requires Growing(w, t)
  {
    assert StepFits(|w|, t.F, |t.F| - 1);
    Sum(w[Leaves(t.F, |t.F|)..]) + Sum(t.W[Inner(t.F, |t.F|)..])
  }

  // Sums up to this limit cannot make an inner node other than the root wrap: each such node is made while
  // a third item at least as heavy as either of its two is alive.
  const LIMIT: nat := 98303

  // The two items taken next: x and y, from the heads of the queues.
  ghost predicate Picks(w: seq<Key>, t: Tree, leaf: nat, root: nat, leaf1: nat, root1: nat, leaf2: nat, root2: nat,
      x: Key, y: Key)
    requires Growing(w, t)
  {
    && |t.W| < |w| - 1 && leaf == Leaves(t.F, |t.F|) && root == Inner(t.F, |t.F|) && root < |t.W| < leaf <= |w|
    && leaf1 == LeafAfter(w, t.W, leaf, root) && root1 == RootAfter(w, t.W, leaf, root)
        && (leaf1 < |w| || root1 < |t.W|)
    && leaf2 == LeafAfter(w, t.W, leaf1, root1) && root2 == RootAfter(w, t.W, leaf1, root1)
    && x == Taken(w, t.W, leaf, root) && y == Taken(w, t.W, leaf1, root1)
    && leaf2 <= |w| && root2 <= |t.W| && leaf2 + root2 == leaf + root + 2
  }

  lemma ThePicks(w: seq<Key>, t: Tree)
    returns (leaf: nat, root: nat, leaf1: nat, root1: nat, leaf2: nat, root2: nat, x: Key, y: Key)
    requires Growing(w, t) && |t.W| < |w| - 1
    ensures Picks(w, t, leaf, root, leaf1, root1, leaf2, root2, x, y)
  {
    QueueFacts(w, t, Leaves(t.F, |t.F|), Inner(t.F, |t.F|));
    leaf, root := Leaves(t.F, |t.F|), Inner(t.F, |t.F|);
    leaf1, root1 := LeafAfter(w, t.W, leaf, root), RootAfter(w, t.W, leaf, root);
    leaf2, root2 := LeafAfter(w, t.W, leaf1, root1), RootAfter(w, t.W, leaf1, root1);
    x, y := Taken(w, t.W, leaf, root), Taken(w, t.W, leaf1, root1);
  }

  // The picks are the two lightest items.
  ghost predicate LightestTwo(w: seq<Key>, t: Tree, leaf2: nat, root2: nat, x: Key, y: Key) {
    x <= y && (forall j :: leaf2 <= j < |w| ==> y <= w[j]) && forall i :: root2 <= i < |t.W| ==> y <= t.W[i]
  }

  lemma TwoHeads(w: seq<Key>, t: Tree, leaf: nat, root: nat, leaf1: nat, root1: nat, leaf2: nat, root2: nat, x: Key,
      y: Key)
    requires Growing(w, t) && Picks(w, t, leaf, root, leaf1, root1, leaf2, root2, x, y) && Sorted(w) && Rising(w, t)
    ensures LightestTwo(w, t, leaf2, root2, x, y)
  {
  }

  lemma HeadSums(w: seq<Key>, t: Tree, leaf: nat, root: nat, leaf1: nat, root1: nat, leaf2: nat, root2: nat, x: Key,
      y: Key)
    requires Growing(w, t) && Picks(w, t, leaf, root, leaf1, root1, leaf2, root2, x, y)
    ensures Open(w, t) == x + y + Sum(w[leaf2..]) + Sum(t.W[root2..])
  {
    hide Sum, Fitting;
    SumSplit(w, leaf);
    SumSplit(t.W, root);
    SumSplit(w, leaf1);
    SumSplit(t.W, root1);
  }

  // What is taken next is no lighter than the last two items joined, or is their sum.
  lemma TakenLater(w: seq<Key>, t: Tree, leaf: nat, root: nat)
    requires Growing(w, t) && Least(w, t, |t.W| - 1) && Leaves(t.F, |t.F|) <= leaf && Inner(t.F, |t.F|) <= root
    requires leaf < |w| || root < |t.W|
    ensures var x := Taken(w, t.W, leaf, root);
      Heavier(w, t, |t.W| - 1) <= x || x == t.W[|t.W| - 1]
  {
    var n, k := |w|, |t.W|;
    hide Heavier;
    if leaf < n { LeastAt(w, t, k - 1, leaf); }
    if root < k - 1 { LeastAt(w, t, k - 1, n + root); }
  }

  lemma LeastAt(w: seq<Key>, t: Tree, k: nat, id: nat)
    requires Growing(w, t) && k < |t.F| && Least(w, t, k) && id < |w| + k && Alive(|w|, t.F, k + 1, id)
    ensures Heavier(w, t, k) <= Weight(w, t.W, id)
  {
  }

  lemma OldNodes(w: seq<Key>, t: Tree, j: nat)
    requires Growing(w, t) && |t.W| < |w| - 1 && j < |t.W|
    ensures Least(w, t, j) ==> Least(w, Grow(w, t), j)
    ensures Exact(w, t, j) ==> Exact(w, Grow(w, t), j)
    ensures StepFits(|w|, t.F, j) && StepFits(|w|, Grow(w, t).F, j) && Heavier(w, Grow(w, t), j) == Heavier(w, t, j)
  {
    var r := Grow(w, t);
    assert StepFits(|w|, t.F, j) && StepFits(|w|, r.F, j);
    assert First(|w|, r.F, j) == First(|w|, t.F, j) && Second(|w|, r.F, j) == Second(|w|, t.F, j);
    if Least(w, t, j) {
      forall id | 0 <= id < |w| + j && Alive(|w|, r.F, j + 1, id)
        ensures Heavier(w, r, j) <= Weight(w, r.W, id)
      {
        assert Weight(w, r.W, id) == Weight(w, t.W, id);
        LeastAt(w, t, j, id);
      }
    }
  }

  // A third item at least as heavy as the other two bounds their sum by two thirds of what is open.
  lemma NoWrap(w: seq<Key>, t: Tree, leaf: nat, root: nat, leaf1: nat, root1: nat, leaf2: nat, root2: nat, x: Key,
      y: Key)
    requires Growing(w, t) && Picks(w, t, leaf, root, leaf1, root1, leaf2, root2, x, y)
      && LightestTwo(w, t, leaf2, root2, x, y)
    requires |t.W| < |w| - 2 && Open(w, t) <= LIMIT
    ensures x + y < 65536
  {
    HeadSums(w, t, leaf, root, leaf1, root1, leaf2, root2, x, y);
    SumSplit(w, leaf2);
    SumSplit(t.W, root2);
    assert leaf2 < |w| || root2 < |t.W|;
    hide Open, TakesLeaf, LeafAfter, RootAfter, Taken;
    assert x + 2 * y <= LIMIT;
  }

  // The two items of the new node are the two that were picked.
  ghost predicate Made(w: seq<Key>, t: Tree, r: Tree, leaf2: nat, root2: nat, x: Key, y: Key)
    requires Growing(w, t) && Growing(w, r) && |r.W| == |t.W| + 1
  {
    var n, k := |w|, |t.W|;
    && StepFits(n, r.F, k)
    && r.F[k] == leaf2 && Inner(r.F, k + 1) == root2 && r.W == t.W + [Add(x, y)]
    && var a, b := Weight(w, r.W, First(n, r.F, k)), Weight(w, r.W, Second(n, r.F, k));
      (a == x && b == y) || (a == y && b == x)
  }

  lemma NodeIs(w: seq<Key>, t: Tree, leaf: nat, root: nat, leaf1: nat, root1: nat, leaf2: nat, root2: nat, x: Key,
      y: Key)
    requires Growing(w, t) && Picks(w, t, leaf, root, leaf1, root1, leaf2, root2, x, y)
    ensures Made(w, t, Grow(w, t), leaf2, root2, x, y)
  {
    assert StepFits(|w|, Grow(w, t).F, |t.W|);
  }

  lemma NewLeast(w: seq<Key>, t: Tree, r: Tree, leaf2: nat, root2: nat, x: Key, y: Key)
    requires Growing(w, t) && Growing(w, r) && |r.W| == |t.W| + 1 && Made(w, t, r, leaf2, root2, x, y)
      && LightestTwo(w, t, leaf2, root2, x, y)
    ensures Least(w, r, |t.W|)
  {
    hide Growing, StepFits, Add;
  }

  lemma NewExact(w: seq<Key>, t: Tree, r: Tree, leaf2: nat, root2: nat, x: Key, y: Key)
    requires Growing(w, t) && Growing(w, r) && |r.W| == |t.W| + 1 && Made(w, t, r, leaf2, root2, x, y) && x + y < 65536
    requires root2 <= |t.W| && Open(w, t) == x + y + Sum(w[leaf2..]) + Sum(t.W[root2..])
    ensures Exact(w, r, |t.W|) && Open(w, r) == Open(w, t) && r.W == t.W + [Add(x, y)] && Add(x, y) == x + y
  {
    SumConcat(t.W[root2..], [x + y]);
    assert r.W[root2..] == t.W[root2..] + [x + y];
    hide First, Second, Alive;
  }

  // The new key is no lighter than the one before.
  lemma NotLighter(w: seq<Key>, t: Tree, leaf: nat, root: nat, leaf1: nat, root1: nat, leaf2: nat, root2: nat, x: Key,
      y: Key)
    requires Growing(w, t) && Picks(w, t, leaf, root, leaf1, root1, leaf2, root2, x, y)
    requires Least(w, t, |t.W| - 1) && Exact(w, t, |t.W| - 1)
    ensures t.W[|t.W| - 1] <= x + y
  {
    hide Least, TakesLeaf;
    TakenLater(w, t, leaf, root);
    TakenLater(w, t, leaf1, root1);
  }

  lemma ExactSum(w: seq<Key>, t: Tree, r: Tree, leaf2: nat, root2: nat, x: Key, y: Key)
    requires Growing(w, t) && Growing(w, r) && |r.W| == |t.W| + 1 && Made(w, t, r, leaf2, root2, x, y)
    ensures Exact(w, r, |t.W|) <==> x + y < 65536
  {
    hide First, Second, Weight;
  }

  lemma NewNode(w: seq<Key>, t: Tree, r: Tree)
    requires Growing(w, t) && |t.W| < |w| - 1 && Sorted(w) && Sound(w, t) && r == Grow(w, t)
    requires |t.W| < |w| - 2 ==> Exact(w, r, |t.W|)
    ensures Least(w, r, |t.W|)
    ensures |t.W| < |w| - 2 ==> Exact(w, r, |t.W|) && Open(w, r) == Open(w, t) && t.W[|t.W| - 1] <= r.W[|t.W|]
    ensures |t.W| < |w| - 2 ==> r.W[..|t.W|] == t.W
    ensures StepFits(|w|, r.F, |t.W|)
    ensures |t.W| == |w| - 2 ==> Weight(w, r.W, First(|w|, r.F, |t.W|)) + Weight(w, r.W, Second(|w|, r.F, |t.W|)) == Open(w, t)
  {
    var leaf, root, leaf1, root1, leaf2, root2, x, y := ThePicks(w, t);
    assert Least(w, t, |t.W| - 1) && (|t.W| < |w| - 2 ==> Exact(w, t, |t.W| - 1)) && leaf2 <= |w| && root2 <= |t.W|;
    NodeIs(w, t, leaf, root, leaf1, root1, leaf2, root2, x, y);
    TwoHeads(w, t, leaf, root, leaf1, root1, leaf2, root2, x, y);
    HeadSums(w, t, leaf, root, leaf1, root1, leaf2, root2, x, y);
    hide *;
    NewLeast(w, t, r, leaf2, root2, x, y);
    MadeFits(w, t, r, leaf2, root2, x, y);
    if |t.W| < |w| - 2 {
      ExactSum(w, t, r, leaf2, root2, x, y);
      NewExact(w, t, r, leaf2, root2, x, y);
      NotLighter(w, t, leaf, root, leaf1, root1, leaf2, root2, x, y);
    }
  }

  lemma MadeFits(w: seq<Key>, t: Tree, r: Tree, leaf2: nat, root2: nat, x: Key, y: Key)
    requires Growing(w, t) && Growing(w, r) && |r.W| == |t.W| + 1 && Made(w, t, r, leaf2, root2, x, y)
    requires Open(w, t) == x + y + Sum(w[leaf2..]) + Sum(t.W[root2..]) && leaf2 <= |w| && root2 <= |t.W|
    ensures StepFits(|w|, r.F, |t.W|)
    ensures |t.W| == |w| - 2 ==> Weight(w, r.W, First(|w|, r.F, |t.W|)) + Weight(w, r.W, Second(|w|, r.F, |t.W|)) == Open(w, t)
  {
    hide First, Second, Weight, Open;
  }

  lemma RisingStep(w: seq<Key>, t: Tree, r: Tree)
    requires Rising(w, t) && 0 < |t.W| && |r.W| == |t.W| + 1 && r.W[..|t.W|] == t.W
    requires |t.W| < |w| - 2 ==> t.W[|t.W| - 1] <= r.W[|t.W|]
    ensures Rising(w, r)
  {
    assert forall i :: 0 <= i < |t.W| ==> r.W[i] == t.W[i];
  }

  lemma Assembled(w: seq<Key>, r: Tree)
    requires Growing(w, r) && Rising(w, r) && (forall k :: 0 <= k < |r.F| ==> Least(w, r, k))
    requires forall k :: 0 <= k < |r.F| && k < |w| - 2 ==> Exact(w, r, k)
    ensures Sound(w, r)
  {
  }

  lemma GrownSizes(w: seq<Key>, t: Tree, r: Tree)
    requires Growing(w, t) && |t.W| < |w| - 1 && Sound(w, t) && r == Grow(w, t)
    ensures r.W[..|t.W|] == t.W && |t.W| == |t.F| > 0 && |r.F| == |r.W| == |t.W| + 1 && Rising(w, t) && Growing(w, r)
  {
    hide StepFits, Least, Exact, Rising;
  }

  lemma SoundStep(w: seq<Key>, t: Tree, r: Tree)
    requires Growing(w, t) && |t.W| < |w| - 1 && Sorted(w) && Sound(w, t) && r == Grow(w, t)
    requires |t.W| < |w| - 2 ==> Exact(w, r, |t.W|)
    ensures Sound(w, r)
  {
    hide Open, Growing, Grow, StepFits, Least, Exact, Rising, Sound;
    GrownSizes(w, t, r);
    NewNode(w, t, r);
    RisingStep(w, t, r);
    forall k | 0 <= k < |r.F|
      ensures Least(w, r, k)
      ensures k < |w| - 2 ==> Exact(w, r, k)
    {
      if k < |t.F| {
        SoundAt(w, t, k);
        OldNodes(w, t, k);
      }
    }
    Assembled(w, r);
  }

  lemma FirstNode(w: seq<Key>, t: Tree)
    requires |w| >= 2 && t == Built(w, 1) && Sorted(w) && (|w| > 2 ==> Exact(w, t, 0))
    ensures Sound(w, t) && StepFits(|w|, t.F, 0)
    ensures |w| > 2 ==> Open(w, t) == Sum(w)
    ensures |w| == 2 ==> Weight(w, t.W, First(2, t.F, 0)) + Weight(w, t.W, Second(2, t.F, 0)) == Sum(w) && t.F[0] == 2
  {
    assert StepFits(|w|, t.F, 0);
    FirstSum(w);
    assert t.W[0..] == [t.W[0]];
    SumOne(t.W[0]);
    hide Sum, Sorted;
    assert Least(w, t, 0) by { assert forall j :: 2 <= j < |w| ==> w[1] <= w[j] && w[0] <= w[j]; }
    hide Least, Exact, Open;
  }

  lemma SumOne(x: nat)
    ensures Sum([x]) == x
  {
  }

  lemma FirstSum(w: seq<Key>)
    requires |w| >= 2 && Sorted(w)
    ensures Sum(w) == w[0] as int + w[1] + Sum(w[2..])
    ensures |w| == 2 ==> Sum(w) == w[0] as int + w[1]
    ensures |w| > 2 && Sum(w) <= LIMIT ==> w[0] as int + w[1] < 65536
  {
    assert w[1..][1..] == w[2..];
    if |w| > 2 { assert w[0] as int + 2 * w[1] as int <= Sum(w); }
  }

  // None of the first k inner nodes has wrapped; the root may.
  ghost predicate Unwrapped(w: seq<Key>, k: nat)
    requires k < |w|
  {
    forall j :: 1 <= j <= k && j < |w| - 1 ==> Exact(w, Built(w, j), j - 1)
  }

  // What is asked of the counts for the code to be optimal: sums up to LIMIT are small enough, but larger ones
  // may do as well.
  ghost predicate Tame(w: seq<Key>) { |w| >= 2 && Sorted(w) && Unwrapped(w, |w| - 1) }

  // With sorted counts and no wrapping, the tree always joins the lightest.
  lemma BuiltGrows(w: seq<Key>, k: nat)
    requires 1 < k < |w|
    ensures Growing(w, Built(w, k - 1)) && Growing(w, Built(w, k)) && Built(w, k) == Grow(w, Built(w, k - 1))
      && |Built(w, k - 1).W| == k - 1
  {
    hide Grow;
  }

  lemma {:induction false} BuiltSound(w: seq<Key>, k: nat)
    requires 0 < k < |w| && Sorted(w) && Unwrapped(w, k)
    ensures var t := Built(w, k);
      && Sound(w, t) && StepFits(|w|, t.F, k - 1)
      && (k < |w| - 1 ==> Open(w, t) == Sum(w))
      && (k == |w| - 1 ==> Weight(w, t.W, First(|w|, t.F, k - 1)) + Weight(w, t.W, Second(|w|, t.F, k - 1)) == Sum(w))
  {
    hide Sorted, Sound, Grow, Built, Growing, Open, Sum;
    if k == 1 {
      FirstNode(w, Built(w, 1));
    } else {
      var t, r := Built(w, k - 1), Built(w, k);
      BuiltSound(w, k - 1);
      BuiltGrows(w, k);
      assert k < |w| - 1 ==> Exact(w, r, k - 1);
      SoundStep(w, t, r);
      NewNode(w, t, r);
    }
  }

  function Four(): seq<Key> { [30000, 30000, 30000, 30000] }

  lemma FourFirst()
    ensures Built(Four(), 1) == Tree([60000], [2]) && Exact(Four(), Built(Four(), 1), 0)
  {
    assert StepFits(4, Built(Four(), 1).F, 0);
  }

  lemma FourSecond()
    ensures Built(Four(), 2) == Tree([60000, 60000], [2, 4]) && Exact(Four(), Built(Four(), 2), 1)
  {
    FourFirst();
    BuiltGrows(Four(), 2);
    assert Grow(Four(), Built(Four(), 1)) == Tree([60000, 60000], [2, 4]);
    assert StepFits(4, Built(Four(), 2).F, 1);
  }

  lemma FourThird()
    ensures Built(Four(), 3).W == [60000, 60000, 54464]
  {
    FourSecond();
    BuiltGrows(Four(), 3);
    assert Grow(Four(), Built(Four(), 2)).W == [60000, 60000, 54464];
  }

  lemma FourSum()
    ensures Sum(Four()) == 120000
  {
    assert Four()[1..] == [30000, 30000, 30000] && Four()[1..][1..] == [30000, 30000]
      && Four()[1..][1..][1..] == [30000];
  }

  // Four counts of 30000 are beyond LIMIT, but only the root wraps.
  lemma FourLarge()
    ensures Tame(Four()) && Sum(Four()) > LIMIT && Built(Four(), 3).W[2] != Sum(Four())
  {
    hide Built, Exact, Sum;
    FourFirst();
    FourSecond();
    FourThird();
    FourSum();
  }

  // Every item's weight; the root gets its true weight, which is the sum of the counts.
  ghost function Weights(w: seq<Key>, t: Tree): seq<nat>
    requires Growing(w, t)
  {
    w + t.W[..|t.W| - 1] + [Sum(w)]
  }

  lemma WeightAt(w: seq<Key>, t: Tree, id: nat)
    requires Growing(w, t) && id < |w| + |t.W|
    ensures Weights(w, t)[id] == if id == |w| + |t.W| - 1 then Sum(w) else Weight(w, t.W, id)
  {
  }

  lemma NodeWeighed(w: seq<Key>, t: Tree, V: seq<nat>, k: nat)
    requires Growing(w, t) && V == Weights(w, t) && k < |t.F| == |w| - 1 && StepFits(|w|, t.F, k)
    requires k < |w| - 2 ==> Exact(w, t, k)
    requires k == |w| - 2 ==> Weight(w, t.W, First(|w|, t.F, k)) + Weight(w, t.W, Second(|w|, t.F, k)) == Sum(w)
    ensures |V| == |w| + |t.F| && WeighedAt(|w|, t.F, V, k)
  {
    hide Exact, Weights, First, Second, Weight, Growing;
    WeightCount(w, t);
    WeightAt(w, t, |w| + k);
    WeightAt(w, t, First(|w|, t.F, k));
    WeightAt(w, t, Second(|w|, t.F, k));
    NodeKey(w, t, k);
  }

  lemma WeightCount(w: seq<Key>, t: Tree)
    requires Growing(w, t)
    ensures |Weights(w, t)| == |w| + |t.F| && |t.W| == |t.F|
  {
  }

  lemma NodeKey(w: seq<Key>, t: Tree, k: nat)
    requires Growing(w, t) && k < |t.F|
    ensures k < |t.W| && Weight(w, t.W, |w| + k) == t.W[k]
    ensures StepFits(|w|, t.F, k)
    ensures Exact(w, t, k) ==> t.W[k] == Weight(w, t.W, First(|w|, t.F, k)) + Weight(w, t.W, Second(|w|, t.F, k))
  {
  }

  lemma NodeGreedy(w: seq<Key>, t: Tree, V: seq<nat>, k: nat, id: nat)
    requires Growing(w, t) && V == Weights(w, t) && k < |t.F| == |w| - 1 && StepFits(|w|, t.F, k) && Least(w, t, k)
    requires id < |w| + k && Alive(|w|, t.F, k + 1, id)
    ensures |V| == |w| + |t.F| && V[First(|w|, t.F, k)] <= V[id] && V[Second(|w|, t.F, k)] <= V[id]
  {
    WeightCount(w, t);
    hide Least, Weights, First, Second, Weight, Alive;
    LeastAt(w, t, k, id);
    WeightAt(w, t, id);
    WeightAt(w, t, First(|w|, t.F, k));
    WeightAt(w, t, Second(|w|, t.F, k));
  }

  lemma SoundAt(w: seq<Key>, t: Tree, k: nat)
    requires Growing(w, t) && Sound(w, t) && k < |t.F|
    ensures StepFits(|w|, t.F, k) && Least(w, t, k) && (k < |w| - 2 ==> Exact(w, t, k))
  {
    hide Least, Exact, StepFits;
    assert Fitting(|w|, t.F);
  }

  // Small sums are enough.
  lemma {:induction false} LimitUnwraps(w: seq<Key>, k: nat)
    requires 0 < k < |w| && Sorted(w) && Sum(w) <= LIMIT
    ensures Unwrapped(w, k)
  {
    hide Sorted, Sound, Grow, Built, Growing, Open, Sum, Exact;
    if k == 1 {
      if |w| > 2 { FirstUnwraps(w); }
    } else {
      var t := Built(w, k - 1);
      LimitUnwraps(w, k - 1);
      BuiltSound(w, k - 1);
      BuiltGrows(w, k);
      if k < |w| - 1 { NextUnwraps(w, t); }
    }
  }

  lemma FirstUnwraps(w: seq<Key>)
    requires |w| > 2 && Sorted(w) && Sum(w) <= LIMIT
    ensures Exact(w, Built(w, 1), 0)
  {
    FirstSum(w);
    hide Sum, Sorted;
    assert StepFits(|w|, Built(w, 1).F, 0);
  }

  lemma NextUnwraps(w: seq<Key>, t: Tree)
    requires Growing(w, t) && |t.W| < |w| - 2 && Sorted(w) && Sound(w, t) && Open(w, t) <= LIMIT
    ensures Exact(w, Grow(w, t), |t.W|)
  {
    hide Open, Grow, StepFits, Least, Exact, Sum;
    var leaf, root, leaf1, root1, leaf2, root2, x, y := ThePicks(w, t);
    NodeIs(w, t, leaf, root, leaf1, root1, leaf2, root2, x, y);
    TwoHeads(w, t, leaf, root, leaf1, root1, leaf2, root2, x, y);
    NoWrap(w, t, leaf, root, leaf1, root1, leaf2, root2, x, y);
    ExactSum(w, t, Grow(w, t), leaf2, root2, x, y);
  }

  lemma SmallIsTame(w: seq<Key>)
    requires |w| >= 2 && Sorted(w) && Sum(w) <= LIMIT
    ensures Tame(w)
  {
    hide Sorted, Sum, Unwrapped;
    LimitUnwraps(w, |w| - 1);
  }

  lemma NodeFacts(w: seq<Key>, t: Tree, k: nat)
    requires Tame(w) && t == Built(w, |w| - 1) && k < |t.F|
    ensures Growing(w, t) && |t.F| == |w| - 1 && StepFits(|w|, t.F, k) && Least(w, t, k)
    ensures k < |w| - 2 ==> Exact(w, t, k)
    ensures k == |w| - 2 ==> Weight(w, t.W, First(|w|, t.F, k)) + Weight(w, t.W, Second(|w|, t.F, k)) == Sum(w)
  {
    hide Sorted, Unwrapped, Built, Growing, Sound, Open, Exact, Least, Sum, StepFits;
    BuiltSound(w, |w| - 1);
    SoundAt(w, t, k);
  }

  lemma NodeLight(w: seq<Key>, t: Tree, V: seq<nat>, k: nat)
    requires Growing(w, t) && V == Weights(w, t) && k < |t.F| == |w| - 1 && StepFits(|w|, t.F, k) && Least(w, t, k)
    ensures |V| == |w| + |t.F| && LightAt(|w|, t.F, V, k)
  {
    WeightCount(w, t);
    hide Weights, Least, Alive, First, Second, StepFits, Growing;
    forall id | 0 <= id < |w| + k && Alive(|w|, t.F, k + 1, id)
      ensures V[First(|w|, t.F, k)] <= V[id] && V[Second(|w|, t.F, k)] <= V[id]
    {
      NodeGreedy(w, t, V, k, id);
    }
  }

  lemma AllWeighed(w: seq<Key>, t: Tree, V: seq<nat>)
    requires Tame(w) && t == Built(w, |w| - 1) && V == Weights(w, t)
    ensures Weighed(|w|, t.F, V)
  {
    WeightCount(w, t);
    assert Fitting(|w|, t.F);
    hide Built, Sorted, Weights, WeighedAt, Growing, Fitting, Sum;
    forall k | 0 <= k < |t.F|
      ensures WeighedAt(|w|, t.F, V, k)
    {
      NodeFacts(w, t, k);
      NodeWeighed(w, t, V, k);
    }
  }

  lemma AllGreedy(w: seq<Key>, t: Tree, V: seq<nat>)
    requires Tame(w) && t == Built(w, |w| - 1) && V == Weights(w, t)
    ensures Greedy(|w|, t.F, V)
  {
    AllWeighed(w, t, V);
    WeightCount(w, t);
    hide Built, Sorted, Weights, LightAt, Growing, Fitting, Weighed, Sum;
    forall k | 0 <= k < |t.F|
      ensures LightAt(|w|, t.F, V, k)
    {
      NodeFacts(w, t, k);
      NodeLight(w, t, V, k);
    }
  }

  // --- the whole computation -----------------------------------------------------------------------------------------

  ghost predicate Positive(w: seq<nat>) { forall i :: 0 <= i < |w| ==> w[i] > 0 }

  ghost predicate Falling(lens: seq<nat>) { forall i, j :: 0 <= i <= j < |lens| ==> lens[i] >= lens[j] }

  // No length is longer than Fibonacci numbers below the sum of the counts allow.
  ghost predicate Shallow(w: seq<nat>, lens: seq<nat>) {
    forall j :: 0 <= j < |lens| ==> lens[j] > 0 && FibFrom(2, 1, lens[j] - 1) <= Sum(w)
  }

  lemma GoodCode(w: seq<Key>, t: Tree, p: seq<nat>, lens: seq<Key>)
    requires |w| >= 2 && t == Built(w, |w| - 1) && Complete(|w|, t.F) && Parents(t.F, p) && Upward(p)
      && LeafDepths(|w|, t.F, p, lens)
    requires Tame(w)
    ensures Optimal(w, lens)
    ensures Positive(w) ==> Shallow(w, lens)
  {
    var n, V := |w|, Weights(w, t);
    WeightCount(w, t);
    assert V[..n] == w && V[n + |p|] == Sum(w) && |lens| == n;
    hide *;
    AllGreedy(w, t, V);
    TreeOptimal(n, t.F, p, lens, V);
    if Positive(w) { AllShallow(w, t, p, lens, V); }
  }

  lemma AllShallow(w: seq<Key>, t: Tree, p: seq<nat>, lens: seq<nat>, V: seq<nat>)
    requires Complete(|w|, t.F) && Parents(t.F, p) && Upward(p) && LeafDepths(|w|, t.F, p, lens) && Greedy(|w|, t.F, V)
    requires |w| <= |V| && V[..|w|] == w && |w| + |p| < |V| && V[|w| + |p|] == Sum(w) && Positive(w)
    ensures Shallow(w, lens)
  {
    forall i | 0 <= i < |w| ensures V[i] > 0 { assert V[i] == V[..|w|][i]; }
    assert |lens| == |w|;
    hide Complete, Parents, Upward, LeafDepths, Greedy, FibFrom, Depth;
    forall j | 0 <= j < |lens|
      ensures lens[j] > 0 && FibFrom(2, 1, lens[j] - 1) <= Sum(w)
    {
      TreeShallow(|w|, t.F, p, lens, V, j);
    }
  }

  lemma FullCode(w: seq<Key>, t: Tree, p: seq<nat>, lens: seq<Key>)
    requires |w| >= 2 && Complete(|w|, t.F) && Parents(t.F, p) && Upward(p) && LeafDepths(|w|, t.F, p, lens)
    ensures Full(lens) && forall j :: 0 <= j < |lens| ==> lens[j] > 0
  {
    var V := TreeWeights(|w|, t.F, |w| - 1);
    assert Weighed(|w|, t.F, V) && |lens| == |w|;
    hide *;
    TreeCode(|w|, t.F, p, lens, V);
  }

  // lens are the lengths of the code that the tree for w gives.
  ghost predicate TreeLengths(n: nat, F: seq<nat>, lens: seq<nat>) {
    && Complete(n, F)
    && exists p: seq<nat> :: Parents(F, p) && Upward(p) && LeafDepths(n, F, p, lens)
  }

  // The second and third pass.
  method LengthsFromParents(a: array<Key>, ghost F: seq<nat>)
    requires 2 <= a.Length <= 65536 && Complete(a.Length, F) && Parents(F, a[..a.Length - 2])
    modifies a
    ensures TreeLengths(a.Length, F, a[..]) && Falling(a[..])
  {
    ghost var p: seq<nat> := a[..a.Length - 2];
    ParentsUpward(F, p);
    assert forall i :: 0 <= i < |p| ==> a[i] == p[i];
    hide *;
    FindDepths(a, p);
    AssignLengths(a, F, p);
    Witness(a.Length, F, p, a[..]);
    FallingAlso(a[..]);
  }

  lemma Witness(n: nat, F: seq<nat>, p: seq<nat>, lens: seq<nat>)
    requires Complete(n, F) && Parents(F, p) && Upward(p) && LeafDepths(n, F, p, lens)
    ensures TreeLengths(n, F, lens)
  {
  }

  lemma FallingAlso(lens: seq<nat>)
    requires forall i, j :: 0 <= i < j < |lens| ==> lens[i] >= lens[j]
    ensures Falling(lens)
  {
  }

  lemma Result(w: seq<Key>, lens: seq<Key>)
    requires |w| >= 2 && TreeLengths(|w|, Built(w, |w| - 1).F, lens)
    ensures Full(lens)
    ensures Tame(w) ==> Optimal(w, lens)
    ensures Tame(w) && Positive(w) ==> Shallow(w, lens)
  {
    var t := Built(w, |w| - 1);
    var p: seq<nat> :| Parents(t.F, p) && Upward(p) && LeafDepths(|w|, t.F, p, lens);
    hide *;
    FullCode(w, t, p, lens);
    if Tame(w) { GoodCode(w, t, p, lens); }
  }

  // Replaces symbol counts by code lengths. The lengths always form a complete code and never rise. If the
  // counts are sorted and no inner node but the root wraps, the code is optimal and its lengths are bounded.
  method CalculateMinimumRedundancy(a: array<Key>)
    requires a.Length <= 65536
    modifies a
    ensures a.Length == 1 ==> a[0] == 1
    ensures a.Length >= 2 ==> Full(a[..]) && Falling(a[..])
    ensures a.Length >= 2 && Tame(old(a[..])) ==> Optimal(old(a[..]), a[..])
    ensures a.Length >= 2 && Tame(old(a[..])) && Positive(old(a[..])) ==> Shallow(old(a[..]), a[..])
  {
    hide *;
    if a.Length == 0 {
      return;
    } else if a.Length == 1 {
      a[0] := 1;
      return;
    }
    ghost var w := a[..];
    JoinPairs(a);
    LengthsFromParents(a, Built(w, a.Length - 1).F);
    ghost var lens := a[..];
    Result(w, lens);
  }
}
