/** Singly linked lists as memory holds them: a first address, and for each node the address of the next
    one, 0 at the end. */
module Chains {
  import opened Sequences

  ghost predicate Chain(next: map<nat, nat>, first: nat, nodes: seq<nat>)
    decreases |nodes|
  {
    if nodes == [] then first == 0
    else first == nodes[0] && first != 0 && first in next && Chain(next, next[first], nodes[1..])
  }

  lemma {:induction false} ChainFrame(next: map<nat, nat>, next': map<nat, nat>, first: nat, nodes: seq<nat>)
    requires Chain(next, first, nodes)
    requires forall b :: b in nodes && b in next ==> b in next' && next'[b] == next[b]
    ensures Chain(next', first, nodes)
    decreases |nodes|
  {
    if nodes != [] {
      assert nodes[0] in nodes;
      ChainFrame(next, next', next[first], nodes[1..]);
    }
  }

  // The first node is unlinked and its link changed
  lemma ChainPop(next: map<nat, nat>, first: nat, nodes: seq<nat>)
    requires Chain(next, first, nodes) && Distinct(nodes) && nodes != []
    ensures first == nodes[0] && first != 0 && first in next && Chain(next, next[first], nodes[1..])
    ensures Distinct(nodes[1..]) && first !in nodes[1..]
    ensures forall b :: b in nodes[1..] <==> b in nodes && b != first
  {
    assert nodes == [nodes[0]] + nodes[1..];
  }

  // A node is linked in front
  lemma ChainPush(next: map<nat, nat>, first: nat, nodes: seq<nat>, b: nat)
    requires Chain(next, first, nodes) && Distinct(nodes) && b !in nodes && b != 0
    ensures Chain(next[b := first], b, [b] + nodes) && Distinct([b] + nodes)
    ensures forall c :: c in [b] + nodes <==> c == b || c in nodes
  {
    assert ([b] + nodes)[1..] == nodes;
    ChainFrame(next, next[b := first], first, nodes);
  }

  // A node whose link is 0 is linked behind the last one
  lemma {:induction false} ChainSnoc(next: map<nat, nat>, first: nat, nodes: seq<nat>, b: nat)
    requires Chain(next, first, nodes) && Distinct(nodes) && nodes != [] && b !in nodes && b != 0
    requires b in next && next[b] == 0
    ensures Chain(next[nodes[|nodes| - 1] := b], first, nodes + [b])
    decreases |nodes|
  {
    var last := nodes[|nodes| - 1];
    var next' := next[last := b];
    assert (nodes + [b])[1..] == nodes[1..] + [b];
    if |nodes| == 1 {
      assert Chain(next', 0, []);
      assert [b][1..] == [];
      assert Chain(next', b, [b]);
    } else {
      ChainPop(next, first, nodes);
      ChainSnoc(next, next[first], nodes[1..], b);
      assert nodes[1..][|nodes| - 2] == last;
    }
  }
}
