/** Counting distinct members of a list of indices. */
module Pigeonhole {
  predicate Distinct(l: seq<nat>) { forall i, j :: 0 <= i < j < |l| ==> l[i] != l[j] }

  function Members(l: seq<nat>): set<nat> { set i | 0 <= i < |l| :: l[i] }

  lemma MembersSnoc(l: seq<nat>, x: nat)
    ensures Members(l + [x]) == Members(l) + {x}
  {
    forall y ensures y in Members(l + [x]) <==> y in Members(l) + {x} {
      if y in Members(l) { var i :| 0 <= i < |l| && l[i] == y; assert (l + [x])[i] == y; }
      if y == x { assert (l + [x])[|l|] == y; }
    }
  }

  lemma {:induction false} DistinctCount(l: seq<nat>)
    requires Distinct(l)
    ensures |Members(l)| == |l|
  {
    if l != [] {
      var n := |l| - 1;
      DistinctCount(l[..n]);
      MembersSnoc(l[..n], l[n]);
      assert l == l[..n] + [l[n]];
    }
  }

  function Below(n: nat): set<nat> { if n == 0 then {} else Below(n - 1) + {n - 1} }

  lemma {:induction false} BelowIs(n: nat)
    ensures |Below(n)| == n && forall t: nat :: t in Below(n) <==> t < n
  {
    if n > 0 { BelowIs(n - 1); }
  }

  lemma {:induction false} Smaller(a: set<nat>, b: set<nat>)
    requires a <= b
    ensures |a| <= |b| && (|a| == |b| ==> a == b)
    decreases |a|
  {
    if a == {} {
    } else {
      var x :| x in a;
      Smaller(a - {x}, b - {x});
      assert a == (a - {x}) + {x} && b == (b - {x}) + {x};
    }
  }

  /** A map that sends no two keys to one value has at most as many keys as there are values. */
  lemma {:induction false} InjectiveSize(m: map<nat, nat>, values: set<nat>)
    requires forall k :: k in m ==> m[k] in values
    requires forall j, k :: j in m && k in m && m[j] == m[k] ==> j == k
    ensures |m| <= |values|
    decreases |m|
  {
    if m != map[] {
      var k :| k in m;
      var rest := m - {k};
      assert |rest| == |m| - 1 by { assert rest.Keys == m.Keys - {k}; }
      InjectiveSize(rest, values - {m[k]});
    }
  }

  /** A list of distinct indices below n has n members exactly when it has them all. */
  lemma FullList(l: seq<nat>, n: nat)
    requires Distinct(l) && forall x :: x in l ==> x < n
    ensures |l| <= n
    ensures |l| == n <==> forall t: nat :: t < n ==> t in l
  {
    var all := Below(n);
    DistinctCount(l);
    BelowIs(n);
    assert forall x :: x in Members(l) <==> x in l;
    Smaller(Members(l), all);
    if forall t: nat :: t < n ==> t in l { assert Members(l) == all; }
  }
}
