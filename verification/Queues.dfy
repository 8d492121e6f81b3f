/** Queues of numbered objects, linked through list nodes embedded in the objects: the layout shared
    by the interrupt queue, the run queue and the timer queue. */
module Queues {
  import opened Lists

  /** A list node: the head of the queue, or the node inside object `addr`. */
  datatype Ptr = Head | Entry(addr: nat)

  ghost function Nodes(q: seq<nat>): (r: seq<Ptr>)
    ensures |r| == |q| && forall i :: 0 <= i < |q| ==> r[i] == Entry(q[i])
  {
    seq(|q|, i requires 0 <= i < |q| => Entry(q[i]))
  }

  lemma NodesMembers(q: seq<nat>, x: nat)
    ensures Entry(x) in Nodes(q) <==> x in q
  {
    if x in q {
      var i :| 0 <= i < |q| && q[i] == x;
      assert Nodes(q)[i] == Entry(x);
    }
  }

  lemma NodesInsert(q: seq<nat>, k: nat, x: nat)
    requires k <= |q|
    ensures Nodes(q[..k] + [x] + q[k..]) == Nodes(q)[..k] + [Entry(x)] + Nodes(q)[k..]
    ensures k == |q| ==> Nodes(q[..k] + [x] + q[k..]) == Nodes(q) + [Entry(x)]
  {
  }

  lemma NodesTail(q: seq<nat>)
    requires q != []
    ensures Nodes(q)[..0] + Nodes(q)[1..] == Nodes(q[1..])
  {
  }

  /** The node of the k-th object, or the head behind the last one. */
  ghost function At(q: seq<nat>, k: nat): Ptr {
    if k < |q| then Entry(q[k]) else Head
  }

  lemma NextAt(l: Links<Ptr>, q: seq<nat>, k: nat)
    requires IsList(l, Head, Nodes(q)) && k <= |q|
    ensures Head in l.next && l.next[Head] == At(q, 0)
    ensures At(q, k) in l.next
    ensures k < |q| ==> l.next[At(q, k)] == At(q, k + 1)
  {
    HeadLinks(l, Head, Nodes(q));
    if k < |q| {
      EntryLinks(l, Head, Nodes(q), k);
    }
  }

  /** Unlinking the k-th object. */
  lemma NodesRemove(q: seq<nat>, k: nat)
    requires k < |q|
    ensures Nodes(q[..k] + q[k + 1..]) == Nodes(q)[..k] + Nodes(q)[k + 1..]
  {
  }

  /** Where a new object is put: in front of the first one whose key is greater, or at the end. */
  ghost function Place(keys: seq<int>, key: int): (k: nat)
    ensures k <= |keys|
  {
    if keys == [] || keys[0] > key then 0 else 1 + Place(keys[1..], key)
  }

  ghost predicate Splits(keys: seq<int>, key: int, k: nat) {
    && k <= |keys|
    && (forall i :: 0 <= i < k ==> keys[i] <= key)
    && (k < |keys| ==> keys[k] > key)
  }

  lemma {:induction false} PlaceSplits(keys: seq<int>, key: int)
    ensures Splits(keys, key, Place(keys, key))
  {
    if keys != [] && keys[0] <= key {
      PlaceSplits(keys[1..], key);
      forall i | 0 < i < Place(keys, key)
        ensures keys[i] <= key
      {
        assert keys[i] == keys[1..][i - 1];
      }
    }
  }

  lemma PlaceUnique(keys: seq<int>, key: int, k: nat)
    requires Splits(keys, key, k)
    ensures Place(keys, key) == k
  {
    PlaceSplits(keys, key);
  }
}
