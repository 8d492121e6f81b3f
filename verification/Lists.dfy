/** The circular doubly linked intrusive list of include/list.h.

    A node is known by its address; `P` is the type of addresses.  The `prev` and `next`
    words of all nodes live in one memory, so several lists share it, and every
    statement about one list has a companion about the lists it must leave alone. */
module Lists {

  /** The link words of every initialised node. */
  datatype Links<P(==)> = Links(prev: map<P, P>, next: map<P, P>)

  /** The nodes met when going once around a list, from its head back to its head. */
  ghost function Cycle<P>(head: P, s: seq<P>): seq<P> {
    [head] + s + [head]
  }

  ghost predicate Distinct<P>(s: seq<P>) {
    forall i, j :: 0 <= i < j < |s| ==> s[i] != s[j]
  }

  ghost predicate Joined<P>(l: Links<P>, x: P, y: P) {
    x in l.next && l.next[x] == y && y in l.prev && l.prev[y] == x
  }

  ghost predicate Linked<P>(l: Links<P>, c: seq<P>) {
    forall i :: 0 <= i < |c| - 1 ==> Joined(l, c[i], c[i + 1])
  }

  /** `head` is the head of a well-formed circular list holding exactly `s`, in order. */
  ghost predicate IsList<P>(l: Links<P>, head: P, s: seq<P>) {
    && head !in s
    && Distinct(s)
    && Linked(l, Cycle(head, s))
  }

  // --- the writes performed by list.h, as functions on the link words

  function Init<P>(l: Links<P>, node: P): Links<P> {
    Links(l.prev[node := node], l.next[node := node])
  }

  function Insert<P>(l: Links<P>, node: P, prev: P, next: P): Links<P> {
    Links(l.prev[next := node][node := prev], l.next[node := next][prev := node])
  }

  function Unlink<P>(l: Links<P>, prev: P, next: P): Links<P> {
    Links(l.prev[next := prev], l.next[prev := next])
  }

  ghost function AddFirst<P>(l: Links<P>, node: P, head: P): Links<P>
    requires head in l.next
  {
    Insert(l, node, head, l.next[head])
  }

  ghost function AddBefore<P>(l: Links<P>, node: P, pos: P): Links<P>
    requires pos in l.prev
  {
    Insert(l, node, l.prev[pos], pos)
  }

  ghost function Remove<P>(l: Links<P>, node: P): Links<P>
    requires node in l.prev && node in l.next
  {
    Init(Unlink(l, l.prev[node], l.next[node]), node)
  }

  // --- what the links of a list say

  lemma NodeLinks<P>(l: Links<P>, head: P, s: seq<P>, k: nat)
    requires IsList(l, head, s) && k <= |s|
    ensures var c := Cycle(head, s);
            Joined(l, c[k], c[k + 1])
  {
    var c := Cycle(head, s);
    assert Joined(l, c[k], c[k + 1]);
  }

  lemma HeadLinks<P>(l: Links<P>, head: P, s: seq<P>)
    requires IsList(l, head, s)
    ensures head in l.next && l.next[head] == (if s == [] then head else s[0])
    ensures head in l.prev && l.prev[head] == (if s == [] then head else s[|s| - 1])
  {
    NodeLinks(l, head, s, 0);
    NodeLinks(l, head, s, |s|);
  }

  lemma EntryLinks<P>(l: Links<P>, head: P, s: seq<P>, k: nat)
    requires IsList(l, head, s) && k < |s|
    ensures s[k] in l.next && l.next[s[k]] == (if k == |s| - 1 then head else s[k + 1])
    ensures s[k] in l.prev && l.prev[s[k]] == (if k == 0 then head else s[k - 1])
  {
    NodeLinks(l, head, s, k);
    NodeLinks(l, head, s, k + 1);
  }

  /** Inserting a node between two neighbours inserts it there in the sequence. */
  lemma InsertIsInsert<P>(l: Links<P>, head: P, s: seq<P>, k: nat, node: P)
    requires IsList(l, head, s) && k <= |s|
    requires node != head && node !in s
    ensures var c := Cycle(head, s); IsList(Insert(l, node, c[k], c[k + 1]), head, s[..k] + [node] + s[k..])
  {
    var c := Cycle(head, s);
    var s' := s[..k] + [node] + s[k..];
    var l' := Insert(l, node, c[k], c[k + 1]);
    var d := Cycle(head, s');
    forall i | 0 <= i < |d| - 1
      ensures Joined(l', d[i], d[i + 1])
    {
      assert d == c[..k + 1] + [node] + c[k + 1..];
      if i < k {
        NodeLinks(l, head, s, i);
      } else if i > k + 1 {
        NodeLinks(l, head, s, i - 1);
      }
    }
  }

  lemma AddFirstIsCons<P>(l: Links<P>, head: P, s: seq<P>, node: P)
    requires IsList(l, head, s) && node != head && node !in s
    ensures head in l.next && IsList(AddFirst(l, node, head), head, [node] + s)
  {
    NodeLinks(l, head, s, 0);
    InsertIsInsert(l, head, s, 0, node);
    assert s[..0] + [node] + s[0..] == [node] + s;
  }

  lemma AddTailIsSnoc<P>(l: Links<P>, head: P, s: seq<P>, node: P)
    requires IsList(l, head, s) && node != head && node !in s
    ensures head in l.prev && IsList(AddBefore(l, node, head), head, s + [node])
  {
    NodeLinks(l, head, s, |s|);
    InsertIsInsert(l, head, s, |s|, node);
    assert s[..|s|] + [node] + s[|s|..] == s + [node];
  }

  lemma AddBeforeIsInsert<P>(l: Links<P>, head: P, s: seq<P>, k: nat, node: P)
    requires IsList(l, head, s) && k < |s| && node != head && node !in s
    ensures s[k] in l.prev && IsList(AddBefore(l, node, s[k]), head, s[..k] + [node] + s[k..])
  {
    NodeLinks(l, head, s, k);
    InsertIsInsert(l, head, s, k, node);
  }

  /** `list_del_init` removes the node from its list and leaves it a list of its own. */
  lemma RemoveIsRemove<P>(l: Links<P>, head: P, s: seq<P>, k: nat)
    requires IsList(l, head, s) && k < |s|
    ensures s[k] in l.prev && s[k] in l.next
    ensures IsList(Remove(l, s[k]), head, s[..k] + s[k + 1..])
    ensures IsList(Remove(l, s[k]), s[k], [])
  {
    var c := Cycle(head, s);
    NodeLinks(l, head, s, k);
    NodeLinks(l, head, s, k + 1);
    var s' := s[..k] + s[k + 1..];
    var l' := Remove(l, s[k]);
    var d := Cycle(head, s');
    assert d == c[..k + 1] + c[k + 2..];
    forall i | 0 <= i < |d| - 1
      ensures Joined(l', d[i], d[i + 1])
    {
      if i < k {
        NodeLinks(l, head, s, i);
      } else if i > k {
        NodeLinks(l, head, s, i + 1);
      }
    }
  }

  // --- leaving other lists alone

  /** Two lists with no node in common. */
  ghost predicate Apart<P>(h1: P, s1: seq<P>, h2: P, s2: seq<P>) {
    && h1 != h2 && h1 !in s2 && h2 !in s1
    && forall x :: x in s1 ==> x !in s2
  }

  lemma ListFrame<P>(l: Links<P>, l': Links<P>, head: P, s: seq<P>)
    requires IsList(l, head, s)
    requires forall x :: x in [head] + s ==>
               && (x in l.next ==> x in l'.next && l'.next[x] == l.next[x])
               && (x in l.prev ==> x in l'.prev && l'.prev[x] == l.prev[x])
    ensures IsList(l', head, s)
  {
    var c := Cycle(head, s);
    forall i | 0 <= i < |c| - 1
      ensures Joined(l', c[i], c[i + 1])
    {
      assert c[i] in [head] + s && c[i + 1] in [head] + s;
      NodeLinks(l, head, s, i);
    }
  }

  // --- a family of lists over one memory

  /** `heads[k]` heads a list holding `lists[k]`, and no node is on two of the lists. */
  ghost predicate Family<P>(l: Links<P>, heads: seq<P>, lists: seq<seq<P>>) {
    && |heads| == |lists|
    && (forall k :: 0 <= k < |heads| ==> IsList(l, heads[k], lists[k]))
    && (forall j, k :: 0 <= j < k < |heads| ==> Apart(heads[j], lists[j], heads[k], lists[k]))
  }

  ghost predicate Outside<P>(node: P, heads: seq<P>, lists: seq<seq<P>>) {
    && node !in heads
    && forall k :: 0 <= k < |lists| ==> node !in lists[k]
  }

  /** Writing only to nodes of list `k`, or to nodes of no list, keeps the other lists. */
  lemma FamilyUpdate<P>(l: Links<P>, l': Links<P>, heads: seq<P>, lists: seq<seq<P>>, k: nat, s: seq<P>,
      touched: set<P>)
    requires Family(l, heads, lists) && k < |heads|
    requires IsList(l', heads[k], s)
    requires forall x :: x in touched ==> x in [heads[k]] + lists[k] || Outside(x, heads, lists)
    requires forall x :: x in l.next && x !in touched ==> x in l'.next && l'.next[x] == l.next[x]
    requires forall x :: x in l.prev && x !in touched ==> x in l'.prev && l'.prev[x] == l.prev[x]
    requires forall x :: x in s ==> x in lists[k] || Outside(x, heads, lists)
    ensures Family(l', heads, lists[k := s])
  {
    var lists' := lists[k := s];
    forall j | 0 <= j < |heads|
      ensures IsList(l', heads[j], lists'[j])
    {
      if j != k {
        var a, b := if j < k then j else k, if j < k then k else j;
        assert Apart(heads[a], lists[a], heads[b], lists[b]);
        ListFrame(l, l', heads[j], lists[j]);
      }
    }
    forall i, j | 0 <= i < j < |heads|
      ensures Apart(heads[i], lists'[i], heads[j], lists'[j])
    {
      assert Apart(heads[i], lists[i], heads[j], lists[j]);
    }
  }

  lemma FamilyAddFirst<P>(l: Links<P>, heads: seq<P>, lists: seq<seq<P>>, k: nat, node: P)
    requires Family(l, heads, lists) && k < |heads| && Outside(node, heads, lists)
    ensures heads[k] in l.next
    ensures Family(AddFirst(l, node, heads[k]), heads, lists[k := [node] + lists[k]])
  {
    HeadLinks(l, heads[k], lists[k]);
    AddFirstIsCons(l, heads[k], lists[k], node);
    FamilyUpdate(l, AddFirst(l, node, heads[k]), heads, lists, k, [node] + lists[k],
                 {node, heads[k], l.next[heads[k]]});
  }

  lemma FamilyAddTail<P>(l: Links<P>, heads: seq<P>, lists: seq<seq<P>>, k: nat, node: P)
    requires Family(l, heads, lists) && k < |heads| && Outside(node, heads, lists)
    ensures heads[k] in l.prev
    ensures Family(AddBefore(l, node, heads[k]), heads, lists[k := lists[k] + [node]])
  {
    HeadLinks(l, heads[k], lists[k]);
    AddTailIsSnoc(l, heads[k], lists[k], node);
    FamilyUpdate(l, AddBefore(l, node, heads[k]), heads, lists, k, lists[k] + [node],
                 {node, heads[k], l.prev[heads[k]]});
  }

  lemma FamilyAddBefore<P>(l: Links<P>, heads: seq<P>, lists: seq<seq<P>>, k: nat, i: nat, node: P)
    requires Family(l, heads, lists) && k < |heads| && i < |lists[k]| && Outside(node, heads, lists)
    ensures lists[k][i] in l.prev
    ensures Family(AddBefore(l, node, lists[k][i]), heads, lists[k := lists[k][..i] + [node] + lists[k][i..]])
  {
    EntryLinks(l, heads[k], lists[k], i);
    AddBeforeIsInsert(l, heads[k], lists[k], i, node);
    FamilyUpdate(l, AddBefore(l, node, lists[k][i]), heads, lists, k, lists[k][..i] + [node] + lists[k][i..],
                 {node, lists[k][i], l.prev[lists[k][i]]});
  }

  lemma FamilyRemove<P>(l: Links<P>, heads: seq<P>, lists: seq<seq<P>>, k: nat, i: nat)
    requires Family(l, heads, lists) && k < |heads| && i < |lists[k]|
    ensures lists[k][i] in l.prev && lists[k][i] in l.next
    ensures Family(Remove(l, lists[k][i]), heads, lists[k := lists[k][..i] + lists[k][i + 1..]])
    ensures Outside(lists[k][i], heads, lists[k := lists[k][..i] + lists[k][i + 1..]])
  {
    var node := lists[k][i];
    EntryLinks(l, heads[k], lists[k], i);
    RemoveIsRemove(l, heads[k], lists[k], i);
    var s := lists[k][..i] + lists[k][i + 1..];
    FamilyUpdate(l, Remove(l, node), heads, lists, k, s, {node, l.prev[node], l.next[node]});
    forall j | 0 <= j < |heads|
      ensures node != heads[j] && node !in lists[k := s][j]
    {
      if j < k {
        assert Apart(heads[j], lists[j], heads[k], lists[k]);
      } else if k < j {
        assert Apart(heads[k], lists[k], heads[j], lists[j]);
      }
    }
  }

  /** Initialising a node that is on no list keeps every list. */
  lemma FamilyInit<P>(l: Links<P>, heads: seq<P>, lists: seq<seq<P>>, node: P)
    requires Family(l, heads, lists) && Outside(node, heads, lists)
    ensures Family(Init(l, node), heads, lists)
  {
    forall k | 0 <= k < |heads|
      ensures IsList(Init(l, node), heads[k], lists[k])
    {
      ListFrame(l, Init(l, node), heads[k], lists[k]);
    }
  }

  /** Initialising a further head adds an empty list. */
  lemma FamilyNewHead<P>(l: Links<P>, heads: seq<P>, lists: seq<seq<P>>, head: P)
    requires Family(l, heads, lists) && Outside(head, heads, lists)
    ensures Family(Init(l, head), heads + [head], lists + [[]])
  {
    FamilyInit(l, heads, lists, head);
    assert Cycle(head, []) == [head, head];
    assert IsList(Init(l, head), head, []);
  }

  // --- list.h itself

  /** The memory holding all list nodes; its methods are the inline functions of list.h. */
  class ListMemory<P(==)> {
    var prev: map<P, P>
    var next: map<P, P>

    ghost function Words(): Links<P>
      reads this
    {
      Links(prev, next)
    }

    constructor ()
      ensures Words() == Links(map[], map[])
    {
      prev, next := map[], map[];
    }

    method InitListHead(list: P)
      modifies this
      ensures Words() == Init(old(Words()), list)
    {
      next := next[list := list];
      prev := prev[list := list];
    }

    method AddBetween(node: P, before: P, after: P)
      modifies this
      ensures Words() == Insert(old(Words()), node, before, after)
    {
      prev := prev[after := node];
      next := next[node := after];
      prev := prev[node := before];
      next := next[before := node];
    }

    method ListAdd(node: P, head: P)
      requires head in next
      modifies this
      ensures Words() == AddFirst(old(Words()), node, head)
    {
      AddBetween(node, head, next[head]);
    }

    method ListAddTail(node: P, head: P)
      requires head in prev
      modifies this
      ensures Words() == AddBefore(old(Words()), node, head)
    {
      AddBetween(node, prev[head], head);
    }

    method DelBetween(before: P, after: P)
      modifies this
      ensures Words() == Unlink(old(Words()), before, after)
    {
      prev := prev[after := before];
      next := next[before := after];
    }

    method ListDelInit(entry: P)
      requires entry in prev && entry in next
      modifies this
      ensures Words() == Remove(old(Words()), entry)
    {
      DelBetween(prev[entry], next[entry]);
      InitListHead(entry);
    }

    predicate ListEmpty(head: P)
      requires head in next
      reads this
    {
      next[head] == head
    }
  }
}
