/** Free lists as sequences, one per bucket, of node indices. */
module FreeLists {

  // Removing one element wherever it is: what unlinking an entry does to the sequence of its ring.
  function Without<T(==)>(l: seq<T>, x: T): (r: seq<T>) {
    if l == [] then []
    else if l[0] == x then l[1..]
    else [l[0]] + Without(l[1..], x)
  }

  ghost predicate Distinct<T>(l: seq<T>) {
    forall j, k :: 0 <= j < k < |l| ==> l[j] != l[k]
  }

  lemma {:induction false} WithoutAt<T>(l: seq<T>, k: nat)
    requires Distinct(l) && k < |l|
    ensures Without(l, l[k]) == l[..k] + l[k + 1..]
  {
    if k > 0 {
      assert l[1..][k - 1] == l[k];
      WithoutAt(l[1..], k - 1);
      assert l[1..][..k - 1] == l[1..k] && l[1..][k..] == l[k + 1..];
    }
  }

  lemma WithoutElements<T>(l: seq<T>, x: T)
    requires Distinct(l)
    ensures Distinct(Without(l, x))
    ensures forall y :: y in Without(l, x) <==> y in l && y != x
  {
    if x in l {
      var k :| 0 <= k < |l| && l[k] == x;
      WithoutAt(l, k);
      var m := l[..k] + l[k + 1..];
      forall y
        ensures y in m <==> y in l && y != x
      {
        assert l == l[..k] + [x] + l[k + 1..];
      }
    } else {
      WithoutMissing(l, x);
    }
  }

  lemma {:induction false} WithoutMissing<T>(l: seq<T>, x: T)
    requires x !in l
    ensures Without(l, x) == l
  {
    if l != [] {
      WithoutMissing(l[1..], x);
      assert l == [l[0]] + l[1..];
    }
  }

  function DropLast<T>(l: seq<T>): seq<T>
    requires |l| > 0
  {
    l[..|l| - 1]
  }

  lemma LastBack<T>(l: seq<T>)
    requires l != []
    ensures DropLast(l) + [l[|l| - 1]] == l
  {
  }

  lemma PopElements<T>(l: seq<T>)
    requires Distinct(l) && |l| > 0
    ensures Distinct(DropLast(l))
    ensures forall y :: y in DropLast(l) <==> y in l && y != l[|l| - 1]
    ensures DropLast(l) + [l[|l| - 1]] == l
  {
  }
}
