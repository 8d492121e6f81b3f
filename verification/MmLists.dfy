/** The eighteen list heads of src/mm.c over one list memory: free_area[0..10] and kmem_cache[0..6]. */
module MmLists {
  import opened Lists
  import opened Buddy
  import opened Slab

  /** Addresses of list nodes: the node embedded in a page, the two arrays of list heads, and
      the link words at the start of a free object. */
  datatype Ptr = PageNode(pfn: nat) | AreaHead(k: nat) | CacheHead(i: nat) | ObjectNode(addr: nat)

  ghost function PageNodes(a: seq<nat>): (r: seq<Ptr>)
    ensures |r| == |a| && forall i :: 0 <= i < |a| ==> r[i] == PageNode(a[i])
  {
    seq(|a|, i requires 0 <= i < |a| => PageNode(a[i]))
  }

  ghost function ObjectNodes(a: seq<nat>): (r: seq<Ptr>)
    ensures |r| == |a| && forall i :: 0 <= i < |a| ==> r[i] == ObjectNode(a[i])
  {
    seq(|a|, i requires 0 <= i < |a| => ObjectNode(a[i]))
  }

  const AREAS := MAX_ORDER + 1
  const CACHES := CACHE_MAX_INDEX + 1

  ghost function Heads(): (r: seq<Ptr>)
    ensures |r| == AREAS + CACHES
    ensures forall k :: 0 <= k < AREAS ==> r[k] == AreaHead(k)
    ensures forall i :: 0 <= i < CACHES ==> r[AREAS + i] == CacheHead(i)
  {
    seq(AREAS, k requires k >= 0 => AreaHead(k)) + seq(CACHES, i requires i >= 0 => CacheHead(i))
  }

  ghost function Contents(area: seq<seq<nat>>, cache: seq<seq<nat>>): (r: seq<seq<Ptr>>)
    requires |area| == AREAS && |cache| == CACHES
    ensures |r| == AREAS + CACHES
    ensures forall k :: 0 <= k < AREAS ==> r[k] == PageNodes(area[k])
    ensures forall i :: 0 <= i < CACHES ==> r[AREAS + i] == ObjectNodes(cache[i])
  {
    seq(AREAS, k requires 0 <= k < AREAS => PageNodes(area[k]))
    + seq(CACHES, i requires 0 <= i < CACHES => ObjectNodes(cache[i]))
  }

  /** The link words spell out the eighteen lists. */
  ghost predicate Wired(l: Links<Ptr>, area: seq<seq<nat>>, cache: seq<seq<nat>>) {
    && |area| == AREAS && |cache| == CACHES
    && Family(l, Heads(), Contents(area, cache))
  }

  // --- what one list operation does to the eighteen lists

  lemma InNodes(a: seq<nat>, x: nat)
    ensures PageNode(x) in PageNodes(a) <==> x in a
    ensures ObjectNode(x) in ObjectNodes(a) <==> x in a
  {
    if x in a {
      var i :| 0 <= i < |a| && a[i] == x;
      assert PageNodes(a)[i] == PageNode(x);
      assert ObjectNodes(a)[i] == ObjectNode(x);
    }
  }

  lemma OffArea(area: seq<seq<nat>>, cache: seq<seq<nat>>, x: nat)
    requires |area| == AREAS && |cache| == CACHES
    requires forall k :: 0 <= k < AREAS ==> x !in area[k]
    ensures Outside(PageNode(x), Heads(), Contents(area, cache))
  {
    forall j | 0 <= j < AREAS + CACHES
      ensures PageNode(x) !in Contents(area, cache)[j] && PageNode(x) != Heads()[j]
    {
      if j < AREAS {
        InNodes(area[j], x);
      } else {
        assert Contents(area, cache)[j] == ObjectNodes(cache[j - AREAS]);
        assert Heads()[j] == CacheHead(j - AREAS);
      }
    }
  }

  lemma OffCache(area: seq<seq<nat>>, cache: seq<seq<nat>>, a: nat)
    requires |area| == AREAS && |cache| == CACHES
    requires forall c :: 0 <= c < CACHES ==> a !in cache[c]
    ensures Outside(ObjectNode(a), Heads(), Contents(area, cache))
  {
    forall j | 0 <= j < AREAS + CACHES
      ensures ObjectNode(a) !in Contents(area, cache)[j] && ObjectNode(a) != Heads()[j]
    {
      if j >= AREAS {
        InNodes(cache[j - AREAS], a);
        assert Contents(area, cache)[j] == ObjectNodes(cache[j - AREAS]);
        assert Heads()[j] == CacheHead(j - AREAS);
      }
    }
  }

  lemma AreaAddFirst(l: Links<Ptr>, area: seq<seq<nat>>, cache: seq<seq<nat>>, k: nat, x: nat)
    requires Wired(l, area, cache) && k < AREAS
    requires forall j :: 0 <= j < AREAS ==> x !in area[j]
    ensures AreaHead(k) in l.next
    ensures Wired(AddFirst(l, PageNode(x), AreaHead(k)), area[k := [x] + area[k]], cache)
  {
    OffArea(area, cache, x);
    FamilyAddFirst(l, Heads(), Contents(area, cache), k, PageNode(x));
    assert [PageNode(x)] + PageNodes(area[k]) == PageNodes([x] + area[k]);
    assert Contents(area, cache)[k := PageNodes([x] + area[k])] == Contents(area[k := [x] + area[k]], cache);
  }

  lemma AreaAddTail(l: Links<Ptr>, area: seq<seq<nat>>, cache: seq<seq<nat>>, k: nat, x: nat)
    requires Wired(l, area, cache) && k < AREAS
    requires forall j :: 0 <= j < AREAS ==> x !in area[j]
    ensures AreaHead(k) in l.prev
    ensures Wired(AddBefore(l, PageNode(x), AreaHead(k)), area[k := area[k] + [x]], cache)
  {
    OffArea(area, cache, x);
    FamilyAddTail(l, Heads(), Contents(area, cache), k, PageNode(x));
    assert PageNodes(area[k]) + [PageNode(x)] == PageNodes(area[k] + [x]);
    assert Contents(area, cache)[k := PageNodes(area[k] + [x])] == Contents(area[k := area[k] + [x]], cache);
  }

  lemma AreaRemove(l: Links<Ptr>, area: seq<seq<nat>>, cache: seq<seq<nat>>, k: nat, i: nat)
    requires Wired(l, area, cache) && k < AREAS && i < |area[k]|
    ensures PageNode(area[k][i]) in l.prev && PageNode(area[k][i]) in l.next
    ensures Wired(Remove(l, PageNode(area[k][i])), area[k := RemoveAt(area[k], i)], cache)
  {
    var lists := Contents(area, cache);
    FamilyRemove(l, Heads(), lists, k, i);
    assert lists[k][..i] + lists[k][i + 1..] == PageNodes(RemoveAt(area[k], i));
    assert lists[k := PageNodes(RemoveAt(area[k], i))] == Contents(area[k := RemoveAt(area[k], i)], cache);
  }

  lemma AreaNext(l: Links<Ptr>, area: seq<seq<nat>>, cache: seq<seq<nat>>, k: nat)
    requires Wired(l, area, cache) && k < AREAS
    ensures AreaHead(k) in l.next && AreaHead(k) in l.prev
    ensures l.next[AreaHead(k)] == if area[k] == [] then AreaHead(k) else PageNode(area[k][0])
    ensures forall i :: 0 <= i < |area[k]| ==>
              && PageNode(area[k][i]) in l.next
              && l.next[PageNode(area[k][i])] == if i + 1 < |area[k]| then PageNode(area[k][i + 1]) else AreaHead(k)
  {
    var s := Contents(area, cache)[k];
    assert Heads()[k] == AreaHead(k);
    HeadLinks(l, AreaHead(k), s);
    forall i | 0 <= i < |area[k]|
      ensures && PageNode(area[k][i]) in l.next
              && l.next[PageNode(area[k][i])] == if i + 1 < |area[k]| then PageNode(area[k][i + 1]) else AreaHead(k)
    {
      EntryLinks(l, AreaHead(k), s, i);
    }
  }

  lemma ContentsOfCache(area: seq<seq<nat>>, cache: seq<seq<nat>>, c: nat, s: seq<nat>)
    requires |area| == AREAS && |cache| == CACHES && c < CACHES
    ensures Contents(area, cache)[AREAS + c := ObjectNodes(s)] == Contents(area, cache[c := s])
  {
    var lists, lists' := Contents(area, cache)[AREAS + c := ObjectNodes(s)], Contents(area, cache[c := s]);
    forall j | 0 <= j < |lists|
      ensures lists[j] == lists'[j]
    {
      if j >= AREAS {
        assert j == AREAS + (j - AREAS);
      }
    }
  }

  lemma CacheAddTail(l: Links<Ptr>, area: seq<seq<nat>>, cache: seq<seq<nat>>, c: nat, a: nat)
    requires Wired(l, area, cache) && c < CACHES
    requires forall d :: 0 <= d < CACHES ==> a !in cache[d]
    ensures CacheHead(c) in l.prev
    ensures Wired(AddBefore(l, ObjectNode(a), CacheHead(c)), area, cache[c := cache[c] + [a]])
  {
    OffCache(area, cache, a);
    assert Heads()[AREAS + c] == CacheHead(c);
    FamilyAddTail(l, Heads(), Contents(area, cache), AREAS + c, ObjectNode(a));
    assert ObjectNodes(cache[c]) + [ObjectNode(a)] == ObjectNodes(cache[c] + [a]);
    ContentsOfCache(area, cache, c, cache[c] + [a]);
  }

  lemma CacheInit(l: Links<Ptr>, area: seq<seq<nat>>, cache: seq<seq<nat>>, a: nat)
    requires Wired(l, area, cache)
    requires forall d :: 0 <= d < CACHES ==> a !in cache[d]
    ensures Wired(Init(l, ObjectNode(a)), area, cache)
  {
    OffCache(area, cache, a);
    FamilyInit(l, Heads(), Contents(area, cache), ObjectNode(a));
  }

  lemma CacheNext(l: Links<Ptr>, area: seq<seq<nat>>, cache: seq<seq<nat>>, c: nat)
    requires Wired(l, area, cache) && c < CACHES
    ensures CacheHead(c) in l.next && CacheHead(c) in l.prev
    ensures l.next[CacheHead(c)] == if cache[c] == [] then CacheHead(c) else ObjectNode(cache[c][0])
  {
    assert Heads()[AREAS + c] == CacheHead(c);
    HeadLinks(l, CacheHead(c), Contents(area, cache)[AREAS + c]);
  }

  lemma CacheRemoveFirst(l: Links<Ptr>, area: seq<seq<nat>>, cache: seq<seq<nat>>, c: nat)
    requires Wired(l, area, cache) && c < CACHES && cache[c] != []
    ensures ObjectNode(cache[c][0]) in l.prev && ObjectNode(cache[c][0]) in l.next
    ensures Wired(Remove(l, ObjectNode(cache[c][0])), area, cache[c := cache[c][1..]])
  {
    var lists := Contents(area, cache);
    assert lists[AREAS + c] == ObjectNodes(cache[c]);
    FamilyRemove(l, Heads(), lists, AREAS + c, 0);
    assert lists[AREAS + c][..0] + lists[AREAS + c][1..] == ObjectNodes(cache[c][1..]);
    ContentsOfCache(area, cache, c, cache[c][1..]);
  }
}
