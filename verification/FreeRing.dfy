/** The circular free list of rt-thread/src/memheap.c: next_free and prev_free of the list header and of the
    free blocks, by address. */
module FreeRing {
  import opened Sequences
  import opened Chains

  ghost predicate Joined(nf: map<nat, nat>, pf: map<nat, nat>, a: nat, b: nat) {
    a in nf && nf[a] == b && b in pf && pf[b] == a
  }

  // ring[0] is the list header
  ghost predicate Ring(nf: map<nat, nat>, pf: map<nat, nat>, ring: seq<nat>) {
    |ring| > 0 && Distinct(ring) && forall i :: 0 <= i < |ring| ==> Joined(nf, pf, ring[i], ring[Succ(i, |ring|)])
  }

  lemma JoinedAt(nf: map<nat, nat>, pf: map<nat, nat>, ring: seq<nat>, i: nat)
    requires Ring(nf, pf, ring) && i < |ring|
    ensures Joined(nf, pf, ring[i], ring[Succ(i, |ring|)]) && Joined(nf, pf, ring[Pred(i, |ring|)], ring[i])
  {
    assert Succ(Pred(i, |ring|), |ring|) == i;
    assert Joined(nf, pf, ring[Pred(i, |ring|)], ring[Succ(Pred(i, |ring|), |ring|)]);
  }

  /** A block goes in behind the header. */
  lemma PushOk(nf: map<nat, nat>, pf: map<nat, nat>, ring: seq<nat>, x: nat)
    requires Ring(nf, pf, ring) && x !in ring
    ensures ring[0] in nf
    ensures var h := ring[0]; Ring(nf[x := nf[h]][h := x], pf[x := h][nf[h] := x], [h, x] + ring[1..])
  {
    JoinedAt(nf, pf, ring, 0);
    var h := ring[0];
    var t := [h, x] + ring[1..];
    var nf', pf' := nf[x := nf[h]][h := x], pf[x := h][nf[h] := x];
    PushDifferent(ring, x);
    forall i | 0 <= i < |t|
      ensures Joined(nf', pf', t[i], t[Succ(i, |t|)])
    {
      if i >= 2 {
        assert Joined(nf, pf, ring[i - 1], ring[Succ(i - 1, |ring|)]);
      }
    }
  }

  lemma PushDifferent(ring: seq<nat>, x: nat)
    requires Distinct(ring) && |ring| > 0 && x !in ring
    ensures Distinct([ring[0], x] + ring[1..])
    ensures forall b :: b in ([ring[0], x] + ring[1..])[1..] <==> b == x || b in ring[1..]
  {
    assert ([ring[0], x] + ring[1..])[1..] == [x] + ring[1..];
  }

  /** A block goes out from wherever it is. */
  lemma RemoveOk(nf: map<nat, nat>, pf: map<nat, nat>, ring: seq<nat>, i: nat)
    requires Ring(nf, pf, ring) && 0 < i < |ring|
    ensures ring[i] in nf && ring[i] in pf
    ensures var x := ring[i]; Ring(nf[pf[x] := nf[x]], pf[nf[x] := pf[x]], Drop(ring, i))
    ensures Drop(ring, i)[0] == ring[0]
  {
    JoinedAt(nf, pf, ring, i);
    var x, t := ring[i], Drop(ring, i);
    var nf', pf' := nf[pf[x] := nf[x]], pf[nf[x] := pf[x]];
    forall j | 0 <= j < |t|
      ensures Joined(nf', pf', t[j], t[Succ(j, |t|)])
    {
      var k := if j < i then j else j + 1;
      assert t[j] == ring[k] && Joined(nf, pf, ring[k], ring[Succ(k, |ring|)]);
    }
  }

  lemma RemoveMembers(ring: seq<nat>, i: nat)
    requires Distinct(ring) && 0 < i < |ring|
    ensures forall b :: b in Drop(ring, i)[1..] <==> b in ring[1..] && b != ring[i]
  {
    var t := Drop(ring, i);
    forall b
      ensures b in t[1..] <==> b in ring[1..] && b != ring[i]
    {
      if b in ring[1..] && b != ring[i] {
        var k :| 0 <= k < |ring[1..]| && ring[1..][k] == b;
        assert t[1..][if k + 1 < i then k else k - 1] == b;
      }
      if b in t[1..] {
        var k :| 0 <= k < |t[1..]| && t[1..][k] == b;
        assert ring[1..][if k + 1 < i then k else k + 1] == b;
      }
    }
  }

  // Links of something that is not in the ring do not matter
  lemma Elsewhere(nf: map<nat, nat>, pf: map<nat, nat>, ring: seq<nat>, x: nat, a: nat, b: nat)
    requires Ring(nf, pf, ring) && x !in ring
    ensures Ring(nf[x := a], pf[x := b], ring)
  {
    forall i | 0 <= i < |ring|
      ensures Joined(nf[x := a], pf[x := b], ring[i], ring[Succ(i, |ring|)])
    {
      assert Joined(nf, pf, ring[i], ring[Succ(i, |ring|)]);
      assert ring[i] in ring && ring[Succ(i, |ring|)] in ring;
    }
  }

  // The list after a block went in behind the header
  ghost function Pushed(ring: seq<nat>, x: nat): seq<nat>
    requires ring != []
  {
    [ring[0], x] + ring[1..]
  }
}
