/** Orders, sorted permutations, and Go's order on strings. */
module Ordering {
  ghost predicate TotalPreorder<T(!new)>(leq: (T, T) -> bool) {
    && (forall x, y :: leq(x, y) || leq(y, x))
    && (forall x, y, z :: leq(x, y) && leq(y, z) ==> leq(x, z))
  }

  predicate Sorted<T>(s: seq<T>, leq: (T, T) -> bool) {
    forall i, j :: 0 <= i < j < |s| ==> leq(s[i], s[j])
  }

  /** What any sorting routine, stable or not, may return for s. */
  predicate SortedPermutation<T(==)>(out: seq<T>, s: seq<T>, leq: (T, T) -> bool) {
    multiset(out) == multiset(s) && Sorted(out, leq)
  }

  /** Equivalent under the order means equal, on the elements of s. */
  ghost predicate OrderSeparates<T>(s: seq<T>, leq: (T, T) -> bool) {
    forall x, y :: x in s && y in s && leq(x, y) && leq(y, x) ==> x == y
  }

  function Insert<T>(x: T, s: seq<T>, leq: (T, T) -> bool): seq<T> {
    if s == [] then [x]
    else if leq(x, s[0]) then [x] + s
    else [s[0]] + Insert(x, s[1..], leq)
  }

  lemma ConsSorted<T>(x: T, s: seq<T>, leq: (T, T) -> bool)
    requires Sorted(s, leq) && forall y :: y in s ==> leq(x, y)
    ensures Sorted([x] + s, leq)
  {
    assert forall j :: 0 <= j < |s| ==> s[j] in s;
  }

  lemma {:induction false} InsertAdds<T>(x: T, s: seq<T>, leq: (T, T) -> bool)
    ensures multiset(Insert(x, s, leq)) == multiset{x} + multiset(s)
  {
    if s != [] && !leq(x, s[0]) {
      InsertAdds(x, s[1..], leq);
      assert s == [s[0]] + s[1..];
    }
  }

  lemma {:induction false} InsertSorts<T(!new)>(x: T, s: seq<T>, leq: (T, T) -> bool)
    requires TotalPreorder(leq) && Sorted(s, leq)
    ensures Sorted(Insert(x, s, leq), leq)
  {
    if s == [] {
    } else if leq(x, s[0]) {
      forall y | y in s ensures leq(x, y) {
        HeadIsLeast(s, y, leq);
      }
      ConsSorted(x, s, leq);
    } else {
      var rest := Insert(x, s[1..], leq);
      InsertSorts(x, s[1..], leq);
      InsertAdds(x, s[1..], leq);
      forall y | y in rest ensures leq(s[0], y) {
        assert y in multiset(rest);
        if y != x {
          assert y in s;
          HeadIsLeast(s, y, leq);
        }
      }
      ConsSorted(s[0], rest, leq);
    }
  }

  /** A sorted permutation always exists. */
  lemma {:induction false} SortExists<T(!new)>(s: seq<T>, leq: (T, T) -> bool) returns (out: seq<T>)
    requires TotalPreorder(leq)
    ensures SortedPermutation(out, s, leq)
  {
    if s == [] {
      out := [];
    } else {
      var rest := SortExists(s[1..], leq);
      out := Insert(s[0], rest, leq);
      InsertSorts(s[0], rest, leq);
      InsertAdds(s[0], rest, leq);
      assert s == [s[0]] + s[1..];
    }
  }

  lemma SameElements<T>(p: seq<T>, q: seq<T>, x: T)
    requires multiset(p) == multiset(q)
    ensures x in p <==> x in q
  {
    assert x in p <==> x in multiset(p);
    assert x in q <==> x in multiset(q);
  }

  lemma SameLength<T>(p: seq<T>, q: seq<T>)
    requires multiset(p) == multiset(q)
    ensures |p| == |q|
  {
    assert |p| == |multiset(p)| == |multiset(q)| == |q|;
  }

  /** Where the order separates the elements, all sorting routines agree. */
  lemma {:induction false} SortUnique<T(!new)>(p: seq<T>, q: seq<T>, leq: (T, T) -> bool)
    requires TotalPreorder(leq)
    requires multiset(p) == multiset(q) && Sorted(p, leq) && Sorted(q, leq)
    requires OrderSeparates(p, leq)
    ensures p == q
  {
    SameLength(p, q);
    if p != [] {
      SameElements(p, q, p[0]);
      SameElements(p, q, q[0]);
      HeadIsLeast(p, q[0], leq);
      HeadIsLeast(q, p[0], leq);
      assert p == [p[0]] + p[1..];
      assert q == [q[0]] + q[1..];
      assert multiset(p[1..]) == multiset(p) - multiset{p[0]};
      assert multiset(q[1..]) == multiset(q) - multiset{q[0]};
      SortUnique(p[1..], q[1..], leq);
    }
  }

  lemma HeadIsLeast<T(!new)>(s: seq<T>, x: T, leq: (T, T) -> bool)
    requires TotalPreorder(leq) && Sorted(s, leq) && x in s
    ensures leq(s[0], x)
  {
    var m :| 0 <= m < |s| && s[m] == x;
  }

  /** Exchanging two order-equivalent elements of a sorted list gives another sorted permutation. */
  lemma SwapEquivalent<T(!new)>(s: seq<T>, i: nat, j: nat, leq: (T, T) -> bool)
    requires TotalPreorder(leq) && Sorted(s, leq)
    requires i < j < |s| && leq(s[j], s[i])
    ensures SortedPermutation(s[i := s[j]][j := s[i]], s, leq)
  {
    var t := s[i := s[j]][j := s[i]];
    forall m | 0 <= m < |s| ensures leq(t[m], s[m]) && leq(s[m], t[m]) {
    }
  }

  // Go compares strings byte by byte; for valid UTF-8 that is the order of the code points.
  predicate StringLeq(a: string, b: string) {
    a == "" || (b != "" && (a[0] < b[0] || (a[0] == b[0] && StringLeq(a[1..], b[1..]))))
  }

  predicate StringLess(a: string, b: string) {
    a != b && StringLeq(a, b)
  }

  /** The two differ first at i, and there a has the smaller character. */
  predicate SmallerAt(a: string, b: string, i: nat) {
    i < |a| && i < |b| && a[..i] == b[..i] && a[i] < b[i]
  }

  lemma SmallerAtTail(a: string, b: string, i: nat)
    requires a != "" && b != "" && a[0] == b[0]
    ensures SmallerAt(a[1..], b[1..], i) <==> SmallerAt(a, b, i + 1)
  {
    if i < |a| - 1 && i < |b| - 1 {
      assert a[..i + 1] == [a[0]] + a[1..][..i] && b[..i + 1] == [b[0]] + b[1..][..i];
    }
  }

  lemma SmallerAtHead(a: string, b: string, i: nat)
    requires SmallerAt(a, b, i)
    ensures if i == 0 then a[0] < b[0] else a[0] == b[0]
  {
    if i > 0 {
      assert a[0] == a[..i][0] && b[0] == b[..i][0];
    }
  }

  /** A prefix comes first; otherwise the first differing character decides. */
  lemma {:induction false} StringLeqIff(a: string, b: string)
    ensures StringLeq(a, b) <==> a <= b || exists i: nat :: SmallerAt(a, b, i)
  {
    forall i: nat | SmallerAt(a, b, i) ensures if i == 0 then a[0] < b[0] else a[0] == b[0] {
      SmallerAtHead(a, b, i);
    }
    if a == "" || b == "" {
    } else if a[0] == b[0] {
      StringLeqIff(a[1..], b[1..]);
      assert a <= b <==> a[1..] <= b[1..] by {
        assert a == [a[0]] + a[1..] && b == [b[0]] + b[1..];
      }
      forall i: nat ensures SmallerAt(a[1..], b[1..], i) <==> SmallerAt(a, b, i + 1) {
        SmallerAtTail(a, b, i);
      }
      if i: nat :| SmallerAt(a, b, i) {
        assert SmallerAt(a[1..], b[1..], i - 1);
      }
    } else if a[0] < b[0] {
      assert SmallerAt(a, b, 0);
    }
  }

  lemma {:induction false} StringTotal(a: string, b: string)
    ensures StringLeq(a, b) || StringLeq(b, a)
  {
    if a != "" && b != "" {
      StringTotal(a[1..], b[1..]);
    }
  }

  lemma {:induction false} StringAntisymmetric(a: string, b: string)
    requires StringLeq(a, b) && StringLeq(b, a)
    ensures a == b
  {
    if a != "" {
      StringAntisymmetric(a[1..], b[1..]);
      assert a == [a[0]] + a[1..] && b == [b[0]] + b[1..];
    }
  }

  lemma {:induction false} StringTransitive(a: string, b: string, c: string)
    requires StringLeq(a, b) && StringLeq(b, c)
    ensures StringLeq(a, c)
  {
    if a != "" && a[0] == b[0] == c[0] {
      StringTransitive(a[1..], b[1..], c[1..]);
    }
  }

  lemma StringOrder()
    ensures TotalPreorder(StringLeq)
    ensures forall a, b :: StringLeq(a, b) && StringLeq(b, a) ==> a == b
  {
    forall a, b ensures StringLeq(a, b) || StringLeq(b, a) {
      StringTotal(a, b);
    }
    forall a, b | StringLeq(a, b) && StringLeq(b, a) ensures a == b {
      StringAntisymmetric(a, b);
    }
    forall a, b, c | StringLeq(a, b) && StringLeq(b, c) ensures StringLeq(a, c) {
      StringTransitive(a, b, c);
    }
  }
}
