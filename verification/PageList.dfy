/** The page allocator of rt-thread/src/slab.c:236-336: one address-ordered list of free runs. */
module PageList {
  import opened Wrappers

  // struct rt_page_head: `count` free pages from page number `start`
  datatype Run = Run(start: nat, count: nat) {
    function End(): nat { start + count }

    predicate Has(p: int) { start <= p < End() }
  }

  // Page p is free
  predicate Has(l: seq<Run>, p: int) {
    l != [] && (l[0].Has(p) || Has(l[1..], p))
  }

  // Sorted maximal runs: no run is empty and none touches the next one
  predicate Canonical(l: seq<Run>) {
    l != [] ==>
      && l[0].count > 0
      && (|l| > 1 ==> l[0].End() < l[1].start)
      && Canonical(l[1..])
  }

  predicate AllFree(l: seq<Run>, a: nat, n: nat) {
    forall p :: a <= p < a + n ==> Has(l, p)
  }

  predicate NoneFree(l: seq<Run>, a: nat, n: nat) {
    forall p :: a <= p < a + n ==> !Has(l, p)
  }

  // l' is l without the n pages from a, all of which were free in l
  ghost predicate Taken(l: seq<Run>, l': seq<Run>, a: nat, n: nat) {
    && AllFree(l, a, n)
    && forall p :: Has(l', p) <==> Has(l, p) && !(a <= p < a + n)
  }

  // ---- what the two loops compute ----

  function AllocList(l: seq<Run>, n: nat): (Option<nat>, seq<Run>) {
    if l == [] then (None, [])
    else if l[0].count > n then (Some(l[0].start), [Run(l[0].start + n, l[0].count - n)] + l[1..])
    else if l[0].count == n then (Some(l[0].start), l[1..])
    else var (r, rest) := AllocList(l[1..], n); (r, [l[0]] + rest)
  }

  function FreeList(l: seq<Run>, a: nat, n: nat): seq<Run> {
    if l == [] then [Run(a, n)]
    else
      var b := l[0];
      if b.End() == a then
        if |l| > 1 && a + n == l[1].start
        then [Run(b.start, b.count + n + l[1].count)] + l[2..]
        else [Run(b.start, b.count + n)] + l[1..]
      else if b.start == a + n then [Run(a, n + b.count)] + l[1..]
      else if b.start > a + n then [Run(a, n)] + l
      else [b] + FreeList(l[1..], a, n)
  }

  // rt_page_free passes over run b
  predicate Skips(b: Run, a: nat, n: nat) {
    b.End() != a && b.start < a + n
  }

  lemma {:induction false} AllocPrefix(l: seq<Run>, i: nat, n: nat)
    requires i <= |l| && forall j :: 0 <= j < i ==> l[j].count < n
    ensures AllocList(l, n).0 == AllocList(l[i..], n).0
    ensures AllocList(l, n).1 == l[..i] + AllocList(l[i..], n).1
  {
    hide AllocList;
    var rest := AllocList(l[i..], n).1;
    if i == 0 {
      assert l[i..] == l && l[..i] + rest == rest;
    } else {
      AllocPrefix(l[1..], i - 1, n);
      AllocStep(l, n);
      assert l[1..][i - 1..] == l[i..];
      assert [l[0]] + (l[1..][..i - 1] + rest) == l[..i] + rest;
    }
  }

  lemma AllocStep(l: seq<Run>, n: nat)
    requires l != [] && l[0].count < n
    ensures AllocList(l, n) == (AllocList(l[1..], n).0, [l[0]] + AllocList(l[1..], n).1)
  {
  }

  lemma {:induction false} FreePrefix(l: seq<Run>, i: nat, a: nat, n: nat)
    requires i <= |l| && forall j :: 0 <= j < i ==> Skips(l[j], a, n)
    ensures FreeList(l, a, n) == l[..i] + FreeList(l[i..], a, n)
  {
    hide FreeList, Skips;
    if i == 0 {
      assert l[i..] == l && l[..i] + FreeList(l, a, n) == FreeList(l, a, n);
    } else {
      FreePrefix(l[1..], i - 1, a, n);
      FreeStep(l, a, n);
      assert l[1..][i - 1..] == l[i..];
      assert [l[0]] + (l[1..][..i - 1] + FreeList(l[i..], a, n)) == l[..i] + FreeList(l[i..], a, n);
    }
  }

  lemma FreeStep(l: seq<Run>, a: nat, n: nat)
    requires l != [] && Skips(l[0], a, n)
    ensures FreeList(l, a, n) == [l[0]] + FreeList(l[1..], a, n)
  {
  }

  // ---- canonical form ----

  lemma {:induction false} HasAfter(l: seq<Run>, p: int)
    requires Canonical(l) && l != [] && Has(l, p)
    ensures l[0].start <= p
  {
    if !l[0].Has(p) {
      HasAfter(l[1..], p);
    }
  }

  /** The list is a canonical form: the set of free pages determines it. */
  lemma {:induction false} CanonicalUnique(l: seq<Run>, m: seq<Run>)
    requires Canonical(l) && Canonical(m)
    requires forall p :: Has(l, p) <==> Has(m, p)
    ensures l == m
  {
    assert l != [] ==> Has(l, l[0].start);
    assert m != [] ==> Has(m, m[0].start);
    if l != [] {
      assert m != [];
      FirstRun(l, m);
      FirstRun(m, l);
      forall p ensures Has(l[1..], p) <==> Has(m[1..], p) {
        NotInFirst(l, p);
        NotInFirst(m, p);
        assert Has(l, p) <==> Has(m, p);
      }
      CanonicalUnique(l[1..], m[1..]);
    }
  }

  lemma NotInFirst(l: seq<Run>, p: int)
    requires Canonical(l) && l != []
    ensures l[0].Has(p) ==> !Has(l[1..], p)
    ensures p == l[0].End() ==> !Has(l, p)
  {
    if Has(l[1..], p) {
      HasAfter(l[1..], p);
    }
  }

  lemma FirstRun(l: seq<Run>, m: seq<Run>)
    requires Canonical(l) && Canonical(m) && l != [] && m != []
    requires forall p :: Has(l, p) <==> Has(m, p)
    ensures m[0].start <= l[0].start && (m[0].start == l[0].start ==> m[0].count >= l[0].count)
  {
    assert Has(l, l[0].start) && Has(m, l[0].start);
    HasAfter(m, l[0].start);
    if m[0].start == l[0].start && m[0].count < l[0].count {
      NotInFirst(m, m[0].End());
    }
  }

  // ---- allocation ----

  // No n consecutive free pages at address a
  predicate Blocked(l: seq<Run>, a: nat, n: nat) {
    exists p :: a <= p < a + n && !Has(l, p)
  }

  lemma RunBlocked(l: seq<Run>, n: nat, a: nat)
    requires Canonical(l) && l != [] && 0 < l[0].count < n && (a < l[0].start || l[0].Has(a))
    ensures Blocked(l, a, n)
  {
    if a < l[0].start {
      if Has(l, a) {
        HasAfter(l, a);
      }
      assert !Has(l, a);
    } else {
      NotInFirst(l, l[0].End());
      assert !Has(l, l[0].End());
    }
  }

  lemma {:induction false} AllocFits(l: seq<Run>, n: nat)
    requires Canonical(l) && n > 0
    ensures var (r, l') := AllocList(l, n);
            && Canonical(l')
            && (l' != [] ==> l != [] && l[0].start <= l'[0].start)
            && (r.Some? ==> l != [] && l[0].start <= r.value && Taken(l, l', r.value, n))
            && (r.None? ==> l' == l)
  {
    if l != [] {
      if l[0].count >= n {
        forall p ensures Has(AllocList(l, n).1, p)
                    <==> Has(l, p) && !(l[0].start <= p < l[0].start + n) {
          NotInFirst(l, p);
        }
      } else {
        AllocFits(l[1..], n);
        var (r, l') := AllocList(l[1..], n);
        if r.Some? {
          forall p ensures Has([l[0]] + l', p) <==> Has(l, p) && !(r.value <= p < r.value + n) {
            assert ([l[0]] + l')[1..] == l';
          }
        } else {
          assert [l[0]] + l[1..] == l;
        }
      }
    }
  }

  /** First fit over sorted runs is lowest-address fit, and fails only when no n pages in a row
      are free. */
  lemma {:induction false} AllocLowest(l: seq<Run>, n: nat, a: nat)
    requires Canonical(l) && n > 0
    requires AllocList(l, n).0.Some? ==> a < AllocList(l, n).0.value
    ensures Blocked(l, a, n)
  {
    if l == [] {
      assert !Has(l, a);
    } else if l[0].count >= n {
      if Has(l, a) {
        HasAfter(l, a);
      }
      assert !Has(l, a);
    } else if a < l[0].start || l[0].Has(a) {
      RunBlocked(l, n, a);
    } else {
      AllocLowest(l[1..], n, a);
      var p :| a <= p < a + n && !Has(l[1..], p);
      assert !Has(l, p);
    }
  }

  // ---- release ----

  lemma {:induction false} FreeAdds(l: seq<Run>, a: nat, n: nat)
    requires Canonical(l) && n > 0 && NoneFree(l, a, n)
    ensures Canonical(FreeList(l, a, n))
    ensures FreeList(l, a, n) != [] && FreeList(l, a, n)[0].start
         == if l == [] || a < l[0].start then a else l[0].start
    ensures forall p :: Has(FreeList(l, a, n), p) <==> Has(l, p) || a <= p < a + n
  {
    if l != [] {
      var b := l[0];
      assert Has(l, b.start);
      assert b.End() <= a || a + n <= b.start by {
        var p := if a < b.start then b.start else a;
        assert b.Has(p) ==> Has(l, p);
      }
      if b.End() == a {
        if |l| > 1 {
          assert l[1..][1..] == l[2..];
          assert Has(l, l[1].start) by {
            assert l[1..][0].Has(l[1].start);
          }
        }
      } else if b.start >= a + n {
      } else {
        forall p | a <= p < a + n ensures !Has(l[1..], p) {
          assert !Has(l, p);
        }
        FreeAdds(l[1..], a, n);
        assert ([b] + FreeList(l[1..], a, n))[1..] == FreeList(l[1..], a, n);
      }
    }
  }

  /** Freeing what was just allocated restores the identical list. */
  lemma FreeUndoesAlloc(l: seq<Run>, n: nat)
    requires Canonical(l) && n > 0 && AllocList(l, n).0.Some?
    ensures FreeList(AllocList(l, n).1, AllocList(l, n).0.value, n) == l
  {
    AllocFits(l, n);
    var (r, l') := AllocList(l, n);
    FreeAdds(l', r.value, n);
    CanonicalUnique(FreeList(l', r.value, n), l);
  }

  /** Releases of disjoint page ranges commute: the list does not remember the order. */
  lemma FreesCommute(l: seq<Run>, a: nat, m: nat, b: nat, n: nat)
    requires Canonical(l) && m > 0 && n > 0
    requires NoneFree(l, a, m) && NoneFree(l, b, n) && (a + m <= b || b + n <= a)
    ensures FreeList(FreeList(l, a, m), b, n) == FreeList(FreeList(l, b, n), a, m)
  {
    FreeAdds(l, a, m);
    FreeAdds(l, b, n);
    FreeAdds(FreeList(l, a, m), b, n);
    FreeAdds(FreeList(l, b, n), a, m);
    CanonicalUnique(FreeList(FreeList(l, a, m), b, n), FreeList(FreeList(l, b, n), a, m));
  }
}
