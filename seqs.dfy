/**
 * Sequence operations behind the dashboard's array expressions:
 * `Array.prototype.filter`, and `Array.from(new Set(xs))` (distinct
 * elements in order of first appearance).
 */
module Seqs {

  /** `a` can be obtained from `b` by deleting elements: order is kept. */
  ghost predicate IsSubsequence<T>(a: seq<T>, b: seq<T>)
    decreases |b|
  {
    if a == [] then true
    else if b == [] then false
    else (a[0] == b[0] && IsSubsequence(a[1..], b[1..])) || IsSubsequence(a, b[1..])
  }

  lemma {:induction false} SubsequenceRefl<T>(a: seq<T>)
    ensures IsSubsequence(a, a)
    decreases |a|
  {
    if a != [] {
      SubsequenceRefl(a[1..]);
    }
  }

  lemma {:induction false} SubsequenceTrans<T>(a: seq<T>, b: seq<T>, c: seq<T>)
    requires IsSubsequence(a, b) && IsSubsequence(b, c)
    ensures IsSubsequence(a, c)
    decreases |c|
  {
    if a != [] {
      assert b != [] && c != [];
      if b[0] == c[0] && IsSubsequence(b[1..], c[1..]) {
        if a[0] == b[0] && IsSubsequence(a[1..], b[1..]) {
          SubsequenceTrans(a[1..], b[1..], c[1..]);
        } else {
          SubsequenceTrans(a, b[1..], c[1..]);
        }
      } else {
        SubsequenceTrans(a, b, c[1..]);
      }
    }
  }

  /** `s.filter(f)`: the elements of `s` that satisfy `f`, in their order;
      an element of `s` is kept exactly when it satisfies `f`. */
  function Filter<T(!new)>(f: T -> bool, s: seq<T>): (r: seq<T>)
    ensures |r| <= |s|
    ensures IsSubsequence(r, s)
    ensures forall i :: 0 <= i < |r| ==> f(r[i])
    ensures forall x :: x in r <==> x in s && f(x)
    ensures (forall i :: 0 <= i < |s| ==> f(s[i])) ==> r == s
    decreases |s|
  {
    if s == [] then []
    else
      var rest := Filter(f, s[1..]);
      assert forall x :: x in s <==> x == s[0] || x in s[1..];
      if f(s[0]) then
        assert (forall i :: 0 <= i < |s| ==> f(s[i])) ==> (forall i :: 0 <= i < |s[1..]| ==> f(s[1..][i]));
        assert (forall i :: 0 <= i < |s| ==> f(s[i])) ==> [s[0]] + s[1..] == s;
        [s[0]] + rest
      else
        rest
  }

  /** `filter` keeps every copy of an element that passes and none of one
      that fails. */
  lemma {:induction false} FilterMultiset<T(!new)>(f: T -> bool, s: seq<T>, x: T)
    ensures multiset(Filter(f, s))[x] == if f(x) then multiset(s)[x] else 0
    decreases |s|
  {
    if s != [] {
      FilterMultiset(f, s[1..], x);
      assert s == [s[0]] + s[1..];
      assert multiset(s) == multiset{s[0]} + multiset(s[1..]);
      if f(s[0]) {
        assert multiset(Filter(f, s)) == multiset{s[0]} + multiset(Filter(f, s[1..]));
      }
    }
  }

  /** No element occurs twice. */
  predicate NoDuplicates<T(==)>(s: seq<T>) {
    forall i, j :: 0 <= i < j < |s| ==> s[i] != s[j]
  }

  /** Index of the first occurrence of `x` in `s`. */
  function FirstIndex<T(==)>(s: seq<T>, x: T): (k: nat)
    requires x in s
    ensures k < |s| && s[k] == x && x !in s[..k]
  {
    if s[0] == x then 0
    else
      var k := FirstIndex(s[1..], x);
      assert s[..k + 1] == [s[0]] + s[1..][..k];
      k + 1
  }

  lemma FirstIndexOfPrefix<T>(s: seq<T>, x: T)
    requires s != [] && x in s[..|s| - 1]
    ensures FirstIndex(s, x) == FirstIndex(s[..|s| - 1], x)
  {
    var init := s[..|s| - 1];
    var k := FirstIndex(init, x);
    var k' := FirstIndex(s, x);
    assert forall i :: 0 <= i < k' ==> s[i] != x by {
      assert forall i :: 0 <= i < k' ==> s[..k'][i] == s[i];
    }
    assert forall i :: 0 <= i < k ==> init[i] != x by {
      assert forall i :: 0 <= i < k ==> init[..k][i] == init[i];
    }
    assert s[k] == init[k] == x;
    assert k' <= k;
    assert init[k'] == x;
  }

  /** `Array.from(new Set(s))`: each distinct element once, in the order of
      its first appearance in `s`. */
  function Distinct<T(==,!new)>(s: seq<T>): (r: seq<T>)
    ensures NoDuplicates(r)
    ensures forall x :: x in r <==> x in s
    ensures forall i, j :: 0 <= i < j < |r| ==> FirstIndex(s, r[i]) < FirstIndex(s, r[j])
    decreases |s|
  {
    if s == [] then []
    else
      var init := s[..|s| - 1];
      var last := s[|s| - 1];
      var d := Distinct(init);
      assert forall x :: x in s <==> x in init || x == last by {
        assert s == init + [last];
      }
      if last in d then d
      else
        forall x | x in init ensures FirstIndex(s, x) == FirstIndex(init, x) && FirstIndex(init, x) < |init| {
          FirstIndexOfPrefix(s, x);
        }
        assert FirstIndex(s, last) == |s| - 1 by {
          assert last !in init;
          assert s[..|s| - 1] == init;
        }
        forall i, j | 0 <= i < j < |d| + 1 ensures FirstIndex(s, (d + [last])[i]) < FirstIndex(s, (d + [last])[j]) {
          assert (d + [last])[i] == d[i];
        }
        d + [last]
  }
}
