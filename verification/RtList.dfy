/** The circular doubly linked lists of rt-thread/include/rtservice.h:47-118. A list of k entries is a ring of
    k+1 nodes, the head first; the kernel's suspend, ready and timer lists are such rings. */
module RtList {
  import opened Sequences

  class Node {
    var next: Node
    var prev: Node

    /** rt_list_init: a ring of one. */
    constructor ()
      ensures Ring([this])
    {
      next, prev := this, this;
    }
  }

  ghost predicate Different(s: seq<Node>) {
    forall i, j :: 0 <= i < j < |s| ==> s[i] != s[j]
  }

  ghost predicate Joined(a: Node, b: Node)
    reads a, b
  {
    a.next == b && b.prev == a
  }

  // The nodes of s in this order, and round again
  ghost predicate Ring(s: seq<Node>)
    reads s
  {
    |s| > 0 && Different(s) && forall i :: 0 <= i < |s| ==> Joined(s[i], s[Succ(i, |s|)])
  }

  function Insert(s: seq<Node>, k: nat, n: Node): seq<Node>
    requires k <= |s|
  {
    s[..k] + [n] + s[k..]
  }

  lemma InsertAt(s: seq<Node>, k: nat, n: Node, i: nat)
    requires k <= |s| && i <= |s|
    ensures Insert(s, k, n)[i] == if i < k then s[i] else if i == k then n else s[i - 1]
  {
  }

  lemma InsertDistinct(s: seq<Node>, k: nat, n: Node)
    requires Different(s) && n !in s && k <= |s|
    ensures Different(Insert(s, k, n))
  {
  }

  /** rt_list_insert_after(l, n), where l is the node at index i. */
  method InsertAfter(l: Node, n: Node, ghost s: seq<Node>, ghost i: nat)
    requires Ring(s) && i < |s| && s[i] == l && n !in s
    modifies l, l.next, n
    ensures Ring(Insert(s, i + 1, n))
  {
    ghost var r := s[Succ(i, |s|)];
    assert Joined(l, r);
    l.next.prev := n;
    n.next := l.next;
    l.next := n;
    n.prev := l;
    InsertedRing(s, i, n);
  }

  lemma InsertedRing(s: seq<Node>, i: nat, n: Node)
    requires Different(s) && n !in s && i < |s|
    requires Joined(s[i], n) && Joined(n, s[Succ(i, |s|)])
    requires forall j :: 0 <= j < |s| && j != i ==> Joined(s[j], s[Succ(j, |s|)])
    ensures Ring(Insert(s, i + 1, n))
  {
    var t := Insert(s, i + 1, n);
    InsertDistinct(s, i + 1, n);
    forall j | 0 <= j < |t|
      ensures Joined(t[j], t[Succ(j, |t|)])
    {
      InsertAt(s, i + 1, n, j);
      InsertAt(s, i + 1, n, Succ(j, |t|));
      if j < i {
        assert Joined(s[j], s[Succ(j, |s|)]);
      } else if j > i + 1 {
        assert Joined(s[j - 1], s[Succ(j - 1, |s|)]);
      }
    }
  }

  /** rt_list_insert_before(l, n): in front of the node at index i; in front of the head means at the end. */
  method InsertBefore(l: Node, n: Node, ghost s: seq<Node>, ghost i: nat)
    requires Ring(s) && i < |s| && s[i] == l && n !in s
    modifies l, l.prev, n
    ensures Ring(Insert(s, if i == 0 then |s| else i, n))
  {
    ghost var k := Pred(i, |s|);
    assert Succ(k, |s|) == i && Joined(s[k], s[Succ(k, |s|)]);
    l.prev.next := n;
    n.prev := l.prev;
    l.prev := n;
    n.next := l;
    InsertedRing(s, k, n);
  }

  function Without(s: seq<Node>, i: nat): seq<Node>
    requires i < |s|
  {
    s[..i] + s[i + 1..]
  }

  /** rt_list_remove: the node is a ring of its own, and the others stay in order. */
  method Remove(n: Node, ghost s: seq<Node>, ghost i: nat)
    requires Ring(s) && i < |s| && s[i] == n
    modifies n, n.next, n.prev
    ensures Ring([n]) && (|s| > 1 ==> Ring(Without(s, i)))
  {
    ghost var k := Pred(i, |s|);
    assert Succ(k, |s|) == i && Joined(s[k], s[Succ(k, |s|)]) && Joined(s[i], s[Succ(i, |s|)]);
    n.next.prev := n.prev;
    n.prev.next := n.next;
    n.next := n;
    n.prev := n;
    if |s| > 1 {
      RemovedRing(s, i);
    }
  }

  lemma RemovedRing(s: seq<Node>, i: nat)
    requires Different(s) && i < |s| && |s| > 1 && Joined(s[Pred(i, |s|)], s[Succ(i, |s|)])
    requires forall j :: 0 <= j < |s| && j != i && j != Pred(i, |s|) ==> Joined(s[j], s[Succ(j, |s|)])
    ensures Ring(Without(s, i))
  {
    var t := Without(s, i);
    forall j | 0 <= j < |t|
      ensures Joined(t[j], t[Succ(j, |t|)])
    {
      var k := if j < i then j else j + 1;
      assert t[j] == s[k];
      if k != Pred(i, |s|) {
        assert Joined(s[k], s[Succ(k, |s|)]);
      }
    }
  }

  /** rt_list_isempty: the head is alone. */
  method IsEmpty(l: Node, ghost s: seq<Node>) returns (b: bool)
    requires Ring(s) && s[0] == l
    ensures b <==> s[1..] == []
  {
    assert Joined(s[0], s[Succ(0, |s|)]);
    b := l.next == l;
  }

  /** rt_list_len: the entries behind the head. */
  method Len(l: Node, ghost s: seq<Node>) returns (len: nat)
    requires Ring(s) && s[0] == l
    ensures len == |s[1..]|
  {
    len := 0;
    var p := l;
    assert Joined(s[0], s[Succ(0, |s|)]);
    while p.next != l
      invariant len < |s| && p == s[len]
      decreases |s| - len
    {
      assert Joined(s[len], s[Succ(len, |s|)]);
      p := p.next;
      len := len + 1;
    }
    assert Joined(s[len], s[Succ(len, |s|)]);
  }
}
