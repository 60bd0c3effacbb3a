/** Facts about sequences that every part of the model uses. */
module Seqs {

  datatype Option<+T> = None | Some(value: T)

  predicate Distinct<T(==)>(s: seq<T>) {
    forall i, j :: 0 <= i < j < |s| ==> s[i] != s[j]
  }

  predicate InRange(s: seq<nat>, n: nat) {
    forall k :: 0 <= k < |s| ==> s[k] < n
  }

  function InsertAt<T>(s: seq<T>, k: nat, x: T): (r: seq<T>)
    requires k <= |s|
  {
    s[..k] + [x] + s[k..]
  }

  // What an insertion leaves of the old sequence: every element, once, around the new one.
  lemma InsertAtFacts<T>(s: seq<T>, k: nat, x: T)
    requires k <= |s|
    ensures var r := InsertAt(s, k, x);
            && |r| == |s| + 1 && r[k] == x
            && (forall y :: y in r <==> y == x || y in s)
            && (Distinct(s) && x !in s ==> Distinct(r))
  {
    var r := InsertAt(s, k, x);
    assert forall y :: y in s ==> y in s[..k] || y in s[k..] by {
      assert s == s[..k] + s[k..];
    }
    if Distinct(s) && x !in s {
      forall i, j | 0 <= i < j < |r| ensures r[i] != r[j] {
        assert forall m :: 0 <= m < |r| ==> r[m] == if m < k then s[m] else if m == k then x else s[m - 1];
      }
    }
  }

  // A duplicate-free sequence of numbers below n has at most n elements.
  lemma DistinctBound(s: seq<nat>, n: nat)
    requires Distinct(s) && InRange(s, n)
    ensures |s| <= n
  {
    DistinctCardinality(s);
    SubsetCardinality((set x | x in s), Below(n));
  }

  function Below(n: nat): (r: set<nat>)
    ensures |r| == n && forall x: nat :: x in r <==> x < n
  {
    if n == 0 then {}
    else
      var smaller := Below(n - 1);
      assert n - 1 !in smaller;
      smaller + {n - 1}
  }

  lemma {:induction false} DistinctCardinality<T>(s: seq<T>)
    requires Distinct(s)
    ensures |set x | x in s| == |s|
  {
    if s != [] {
      var last := |s| - 1;
      DistinctCardinality(s[..last]);
      assert s == s[..last] + [s[last]];
      assert (set x | x in s) == (set x | x in s[..last]) + {s[last]};
    }
  }

  lemma {:induction false} SubsetCardinality<T>(a: set<T>, b: set<T>)
    requires a <= b
    ensures |a| <= |b|
  {
    if a != {} {
      var x :| x in a;
      SubsetCardinality(a - {x}, b - {x});
    }
  }

  lemma {:induction false} SameCardinality<T>(a: set<T>, b: set<T>)
    requires a <= b && |a| == |b|
    ensures a == b
  {
    if x :| x in b && x !in a {
      SubsetCardinality(a, b - {x});
    }
  }

  // A duplicate-free sequence of numbers below n has all of them exactly if it has n elements.
  lemma AllNumbers(s: seq<nat>, n: nat)
    requires Distinct(s) && InRange(s, n)
    ensures |s| == n <==> forall x: nat :: x < n ==> x in s
  {
    var elems := set x | x in s;
    DistinctCardinality(s);
    assert elems <= Below(n);
    if |s| == n {
      SameCardinality(elems, Below(n));
      forall x: nat | x < n ensures x in s {
        assert x in Below(n);
      }
    }
    if forall x: nat :: x < n ==> x in s {
      assert Below(n) <= elems;
      SubsetCardinality(Below(n), elems);
      SubsetCardinality(elems, Below(n));
    }
  }

  function Sum(s: seq<nat>): nat {
    if s == [] then 0 else Sum(s[..|s| - 1]) + s[|s| - 1]
  }

  // Changing one summand changes the sum by the difference.
  lemma {:induction false} SumUpdate(s: seq<nat>, i: nat, v: nat)
    requires i < |s|
    ensures Sum(s[i := v]) + s[i] == Sum(s) + v
  {
    var last := |s| - 1;
    if i < last {
      SumUpdate(s[..last], i, v);
      assert s[i := v][..last] == s[..last][i := v];
    } else {
      assert s[i := v][..last] == s[..last];
    }
  }

  // Sums are monotone, and strictly so as soon as one summand is.
  lemma {:induction false} SumMonotone(a: seq<nat>, b: seq<nat>)
    requires |a| == |b| && forall i :: 0 <= i < |a| ==> a[i] <= b[i]
    ensures Sum(a) <= Sum(b)
    ensures (exists i :: 0 <= i < |a| && a[i] < b[i]) ==> Sum(a) < Sum(b)
  {
    if a != [] {
      SumMonotone(a[..|a| - 1], b[..|b| - 1]);
      if i :| 0 <= i < |a| && a[i] < b[i] {
        if i < |a| - 1 {
          assert a[..|a| - 1][i] < b[..|b| - 1][i];
        }
      }
    }
  }

  lemma {:induction false} SumBoundsEach(s: seq<nat>, i: nat)
    requires i < |s|
    ensures s[i] <= Sum(s)
  {
    if i < |s| - 1 {
      SumBoundsEach(s[..|s| - 1], i);
    }
  }

  // Moving the first k elements of one list to the end of a disjoint one.
  lemma MoveFacts<T>(a: seq<T>, b: seq<T>, k: nat)
    requires k <= |b| && Distinct(a) && Distinct(b) && forall x :: x in a ==> x !in b
    ensures Distinct(a + b[..k]) && Distinct(b[k..])
    ensures forall x :: x in b[..k] ==> x in b && x !in b[k..]
    ensures forall x :: x in b ==> x in b[..k] || x in b[k..]
    ensures forall x :: x in b[k..] ==> x in b
  {
    var c := a + b[..k];
    forall i, j | 0 <= i < j < |c| ensures c[i] != c[j] {
      if i < |a| <= j {
        assert c[j] == b[j - |a|];
        assert c[i] in a && c[j] in b;
      }
    }
    assert b == b[..k] + b[k..];
  }

  // ----- Linked lists over numbered cells

  function Nth(list: seq<nat>, k: nat): Option<nat> {
    if k < |list| then Some(list[k]) else None
  }

  // Starting from head and following next visits the cells of the list, in order, and ends.
  ghost predicate Chain(head: Option<nat>, next: seq<Option<nat>>, list: seq<nat>) {
    && InRange(list, |next|)
    && head == Nth(list, 0)
    && forall k {:trigger next[list[k]]} :: 0 <= k < |list| ==> next[list[k]] == Nth(list, k + 1)
  }

  lemma ChainFront(head: Option<nat>, next: seq<Option<nat>>, list: seq<nat>, i: nat)
    requires Chain(head, next, list) && i < |next| && i !in list
    ensures Chain(Some(i), next[i := head], InsertAt(list, 0, i))
  {
    var r := InsertAt(list, 0, i);
    assert r == [i] + list;
  }

  lemma ChainBehind(head: Option<nat>, next: seq<Option<nat>>, list: seq<nat>, k: nat, i: nat)
    requires Chain(head, next, list) && Distinct(list) && i < |next| && i !in list
    requires 0 < k <= |list|
    ensures Chain(head, next[i := next[list[k - 1]]][list[k - 1] := Some(i)], InsertAt(list, k, i))
  {
    var r := InsertAt(list, k, i);
    var next' := next[i := next[list[k - 1]]][list[k - 1] := Some(i)];
    assert list[k - 1] in list;
    forall m | 0 <= m < |r| ensures r[m] < |next| && next'[r[m]] == Nth(r, m + 1) {
      if m < k - 1 {
        assert r[m] == list[m] && r[m + 1] == list[m + 1];
      } else if m == k {
        assert r[m] == i;
      } else if m > k {
        assert r[m] == list[m - 1] && list[m - 1] in list;
      }
    }
  }

  lemma ChainTail(head: Option<nat>, next: seq<Option<nat>>, list: seq<nat>)
    requires Chain(head, next, list) && list != []
    ensures Chain(next[list[0]], next, list[1..])
  {
    forall m | 0 <= m < |list| - 1 ensures next[list[1..][m]] == Nth(list[1..], m + 1) {
      assert list[1..][m] == list[m + 1];
    }
  }

  // Links of cells outside the list do not matter.
  lemma ChainOther(head: Option<nat>, next: seq<Option<nat>>, list: seq<nat>, i: nat, v: Option<nat>)
    requires Chain(head, next, list) && i < |next| && i !in list
    ensures Chain(head, next[i := v], list)
  {
    forall m | 0 <= m < |list| ensures next[i := v][list[m]] == Nth(list, m + 1) {
      assert list[m] in list;
    }
  }
}
