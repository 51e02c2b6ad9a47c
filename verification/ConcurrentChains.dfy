// The chains of published buckets: insertion only prepends, and links never change once published.
module ConcurrentChains {
  import opened Options
  import opened ConcurrentTable

  // Bucket i can be reached from bucket b by following next pointers, which lead to older buckets.
  predicate Reaches(links: seq<Link>, b: nat, i: nat)
    decreases b
  {
    && b < |links|
    && (b == i || (links[b].next.Some? && links[b].next.value < b && Reaches(links, links[b].next.value, i)))
  }

  // A walk that starts at bucket b meets key k.
  predicate Has(links: seq<Link>, b: nat, k: Key)
    decreases b
  {
    && b < |links|
    && (links[b].key == k || (links[b].next.Some? && links[b].next.value < b && Has(links, links[b].next.value, k)))
  }

  ghost predicate Published(links: seq<Link>, npub: nat, k: Key) {
    exists i :: 0 <= i < npub && i < |links| && links[i].key == k
  }

  // The next pointer of bucket i leads to an older bucket of the same slot.
  ghost predicate Older(links: seq<Link>, i: nat, slot: Key -> nat) {
    && i < |links|
    && (links[i].next.Some? ==> links[i].next.value < i && slot(links[links[i].next.value].key) == slot(links[i].key))
  }

  ghost predicate Linked(links: seq<Link>, npub: nat, slot: Key -> nat) {
    npub <= |links| && forall i :: 0 <= i < npub ==> Older(links, i, slot)
  }

  // Each slot head leads to every published bucket of that slot, and to no other.
  ghost predicate Headed(links: seq<Link>, heads: map<nat, nat>, npub: nat, slot: Key -> nat) {
    && npub <= |links|
    && (forall h <- heads :: heads[h] < npub && slot(links[heads[h]].key) == h)
    && (forall i :: 0 <= i < npub ==> slot(links[i].key) in heads && Reaches(links, heads[slot(links[i].key)], i))
  }

  ghost predicate Distinct(links: seq<Link>, npub: nat) {
    npub <= |links| && forall i, j :: 0 <= i < j < npub ==> links[i].key != links[j].key
  }

  ghost predicate Chained(links: seq<Link>, heads: map<nat, nat>, npub: nat, slot: Key -> nat) {
    Linked(links, npub, slot) && Headed(links, heads, npub, slot) && Distinct(links, npub)
  }

  ghost predicate SameBelow(links: seq<Link>, links': seq<Link>, n: nat) {
    n <= |links| && n <= |links'| && forall i :: 0 <= i < n ==> links'[i] == links[i]
  }

  lemma {:induction false} ReachesHas(links: seq<Link>, b: nat, i: nat)
    requires Reaches(links, b, i)
    ensures i < |links| && i <= b && Has(links, b, links[i].key)
    decreases b
  {
    if b != i { ReachesHas(links, links[b].next.value, i); }
  }

  lemma {:induction false} HasPublished(links: seq<Link>, npub: nat, b: nat, k: Key)
    requires Has(links, b, k) && b < npub <= |links|
    ensures Published(links, npub, k)
    decreases b
  {
    if links[b].key != k { HasPublished(links, npub, links[b].next.value, k); }
  }

  // Walking from the head meets exactly the published keys of the slot.
  lemma HeadHas(links: seq<Link>, heads: map<nat, nat>, npub: nat, slot: Key -> nat, k: Key)
    requires Chained(links, heads, npub, slot)
    ensures Published(links, npub, k) <==> slot(k) in heads && Has(links, heads[slot(k)], k)
  {
    if Published(links, npub, k) {
      var i :| 0 <= i < npub && i < |links| && links[i].key == k;
      ReachesHas(links, heads[slot(k)], i);
    }
    if slot(k) in heads && Has(links, heads[slot(k)], k) {
      HasPublished(links, npub, heads[slot(k)], k);
    }
  }

  lemma {:induction false} SameReaches(links: seq<Link>, links': seq<Link>, n: nat, b: nat, i: nat)
    requires SameBelow(links, links', n) && b < n
    ensures Reaches(links', b, i) == Reaches(links, b, i)
    decreases b
  {
    if links[b].next.Some? && links[b].next.value < b { SameReaches(links, links', n, links[b].next.value, i); }
  }

  lemma {:induction false} SameHas(links: seq<Link>, links': seq<Link>, n: nat, b: nat, k: Key)
    requires SameBelow(links, links', n) && b < n
    ensures Has(links', b, k) == Has(links, b, k)
    decreases b
  {
    if links[b].next.Some? && links[b].next.value < b { SameHas(links, links', n, links[b].next.value, k); }
  }

  // Changes beyond the published buckets are invisible.
  lemma SameChained(links: seq<Link>, links': seq<Link>, heads: map<nat, nat>, npub: nat, slot: Key -> nat)
    requires Chained(links, heads, npub, slot) && SameBelow(links, links', npub)
    ensures Chained(links', heads, npub, slot)
  {
    forall i | 0 <= i < npub
      ensures slot(links'[i].key) in heads && Reaches(links', heads[slot(links'[i].key)], i)
    {
      SameReaches(links, links', npub, heads[slot(links[i].key)], i);
    }
    forall i | 0 <= i < npub
      ensures Older(links', i, slot)
    {
      assert Older(links, i, slot);
    }
  }

  lemma PublishHeaded(links: seq<Link>, heads: map<nat, nat>, npub: nat, slot: Key -> nat)
    requires Headed(links, heads, npub, slot) && npub < |links|
    requires links[npub].next == if slot(links[npub].key) in heads then Some(heads[slot(links[npub].key)]) else None
    ensures Headed(links, heads[slot(links[npub].key) := npub], npub + 1, slot)
  {
    var h := slot(links[npub].key);
    var heads' := heads[h := npub];
    forall i | 0 <= i < npub + 1
      ensures slot(links[i].key) in heads' && Reaches(links, heads'[slot(links[i].key)], i)
    {
      if i < npub { assert slot(links[i].key) in heads && Reaches(links, heads[slot(links[i].key)], i); }
    }
  }

  // Publishing bucket npub, whose next pointer is the old head of its slot.
  lemma PublishChained(links: seq<Link>, heads: map<nat, nat>, npub: nat, slot: Key -> nat)
    requires Chained(links, heads, npub, slot) && npub < |links| && !Published(links, npub, links[npub].key)
    requires links[npub].next == if slot(links[npub].key) in heads then Some(heads[slot(links[npub].key)]) else None
    ensures Chained(links, heads[slot(links[npub].key) := npub], npub + 1, slot)
  {
    PublishHeaded(links, heads, npub, slot);
    assert Older(links, npub, slot);
    assert forall i :: 0 <= i < npub ==> links[i].key != links[npub].key;
    hide Headed, Older, Published;
  }

  lemma PublishedMore(links: seq<Link>, npub: nat, k: Key)
    requires npub < |links|
    ensures Published(links, npub + 1, k) <==> Published(links, npub, k) || links[npub].key == k
  {
    if links[npub].key == k { assert 0 <= npub < npub + 1; }
    if Published(links, npub, k) {
      var i :| 0 <= i < npub && i < |links| && links[i].key == k;
      assert 0 <= i < npub + 1;
    }
  }

  lemma SamePublished(links: seq<Link>, links': seq<Link>, npub: nat, k: Key)
    requires SameBelow(links, links', npub)
    ensures Published(links', npub, k) == Published(links, npub, k)
  {
    if Published(links, npub, k) {
      var i :| 0 <= i < npub && i < |links| && links[i].key == k;
      assert links'[i].key == k;
    }
    if Published(links', npub, k) {
      var i :| 0 <= i < npub && i < |links'| && links'[i].key == k;
      assert links[i].key == k;
    }
  }
}
