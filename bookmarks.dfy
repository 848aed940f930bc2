/**
 * The bookmark record and the order the dashboard keeps it in:
 * `fetchBookmarks` sorts the server's array by `position` (a missing
 * position counts as 0) and then by `createdAt`.
 */
module Bookmarks {
  import opened Text
  import opened Results
  import opened Seqs

  /** A saved link as the server returns it. An absent `title` or `summary`
      is the empty string and absent `tags` the empty sequence: the source
      reads all three through `|| ''` and `|| []`. */
  datatype Bookmark = Bookmark(
    id: string,
    url: string,
    title: string,
    tags: seq<string>,
    summary: string,
    position: Option<int>,
    createdAt: string)

  /** `b.position ?? 0`. */
  function Pos(b: Bookmark): (p: int)
    ensures b.position.Some? ==> p == b.position.value
    ensures b.position.None? ==> p == 0
  {
    match b.position
    case Some(p) => p
    case None => 0
  }

  /** The sort comparator: the position difference, or when that is zero the
      comparison of the creation timestamps. */
  function Compare(a: Bookmark, b: Bookmark): (r: int)
    ensures r < 0 <==> Pos(a) < Pos(b) || (Pos(a) == Pos(b) && StrCompare(a.createdAt, b.createdAt) < 0)
    ensures r == 0 <==> Pos(a) == Pos(b) && a.createdAt == b.createdAt
  {
    var d := Pos(a) - Pos(b);
    if d != 0 then d else StrCompare(a.createdAt, b.createdAt)
  }

  /** `a` may come before `b` in the sorted list. */
  predicate Le(a: Bookmark, b: Bookmark) {
    Compare(a, b) <= 0
  }

  /** Ascending by `(position ?? 0, createdAt)`. */
  ghost predicate Sorted(s: seq<Bookmark>) {
    forall i, j :: 0 <= i < j < |s| ==> Le(s[i], s[j])
  }

  /** The comparator is a total preorder whose ties are exactly the records
      with the same position and the same timestamp. */
  lemma LeTotal(a: Bookmark, b: Bookmark)
    ensures Le(a, b) || Le(b, a)
    ensures Le(a, b) && Le(b, a) <==> Pos(a) == Pos(b) && a.createdAt == b.createdAt
  {
    StrCompareAntisymmetric(a.createdAt, b.createdAt);
  }

  lemma LeTransitive(a: Bookmark, b: Bookmark, c: Bookmark)
    requires Le(a, b) && Le(b, c)
    ensures Le(a, c)
  {
    if Pos(a) == Pos(b) == Pos(c) {
      StrCompareTransitive(a.createdAt, b.createdAt, c.createdAt);
    } else if Pos(a) == Pos(c) {
      StrCompareAntisymmetric(a.createdAt, a.createdAt);
    }
  }

  /** Inserts `x` in front of the first element it may precede: `x` goes
      before every element it ties with, which keeps the sort stable. */
  function InsertSorted(x: Bookmark, s: seq<Bookmark>): (r: seq<Bookmark>)
    ensures multiset(r) == multiset(s) + multiset{x}
    ensures Sorted(s) ==> Sorted(r)
    decreases |s|
  {
    if s == [] || Le(x, s[0]) then
      PrependSmallest(x, s);
      [x] + s
    else
      var rest := InsertSorted(x, s[1..]);
      assert s == [s[0]] + s[1..];
      PrependBelowInsert(x, s, rest);
      [s[0]] + rest
  }

  lemma PrependSmallest(x: Bookmark, s: seq<Bookmark>)
    requires s == [] || Le(x, s[0])
    ensures Sorted(s) ==> Sorted([x] + s)
  {
    if Sorted(s) && s != [] {
      forall j | 0 <= j < |s| ensures Le(x, s[j]) {
        if j > 0 {
          LeTransitive(x, s[0], s[j]);
        }
      }
      var t := [x] + s;
      forall i, j | 0 <= i < j < |t| ensures Le(t[i], t[j]) {
        if i > 0 {
          assert t[i] == s[i - 1] && t[j] == s[j - 1];
        }
      }
    }
  }

  lemma PrependBelowInsert(x: Bookmark, s: seq<Bookmark>, rest: seq<Bookmark>)
    requires s != [] && !Le(x, s[0])
    requires multiset(rest) == multiset(s[1..]) + multiset{x}
    requires Sorted(s[1..]) ==> Sorted(rest)
    ensures Sorted(s) ==> Sorted([s[0]] + rest)
  {
    if Sorted(s) {
      LeTotal(x, s[0]);
      assert Sorted(s[1..]);
      forall k | 0 <= k < |rest| ensures Le(s[0], rest[k]) {
        assert rest[k] in multiset(rest);
        if rest[k] != x {
          assert rest[k] in multiset(s[1..]);
          var m :| 0 <= m < |s[1..]| && s[1..][m] == rest[k];
          assert s[m + 1] == rest[k];
        }
      }
      var t := [s[0]] + rest;
      forall i, j | 0 <= i < j < |t| ensures Le(t[i], t[j]) {
        if i > 0 {
          assert t[i] == rest[i - 1] && t[j] == rest[j - 1];
        }
      }
    }
  }

  /** `[...records].sort(Compare)`, a stable sort (ECMAScript 2019 and later
      require `Array.prototype.sort` to be stable), as an insertion sort. The
      result is ordered and is a permutation of the input. */
  function SortBookmarks(s: seq<Bookmark>): (r: seq<Bookmark>)
    ensures Sorted(r)
    ensures multiset(r) == multiset(s)
    decreases |s|
  {
    if s == [] then []
    else
      assert s == [s[0]] + s[1..];
      InsertSorted(s[0], SortBookmarks(s[1..]))
  }

  /** Sorting a list that is already in order changes nothing: records that
      tie keep their relative order. */
  lemma {:induction false} SortKeepsSorted(s: seq<Bookmark>)
    requires Sorted(s)
    ensures SortBookmarks(s) == s
    decreases |s|
  {
    if s != [] {
      assert Sorted(s[1..]);
      SortKeepsSorted(s[1..]);
      assert s == [s[0]] + s[1..];
    }
  }

  /** The records that tie with `x` under the comparator. */
  function TiesWith(x: Bookmark): Bookmark -> bool {
    b => Le(b, x) && Le(x, b)
  }

  /** The sort is stable: the records of each tie class come out in the
      order they came in. */
  lemma {:induction false} SortStable(s: seq<Bookmark>, x: Bookmark)
    ensures Filter(TiesWith(x), SortBookmarks(s)) == Filter(TiesWith(x), s)
    decreases |s|
  {
    if s != [] {
      SortStable(s[1..], x);
      InsertKeepsTieOrder(x, s[0], SortBookmarks(s[1..]));
    }
  }

  /** Inserting `y` puts it in front of every record it ties with, so among
      the records tying with `x` it comes first when it is one of them. */
  lemma {:induction false} InsertKeepsTieOrder(x: Bookmark, y: Bookmark, t: seq<Bookmark>)
    ensures Filter(TiesWith(x), InsertSorted(y, t))
      == (if TiesWith(x)(y) then [y] else []) + Filter(TiesWith(x), t)
    decreases |t|
  {
    var f := TiesWith(x);
    if t == [] || Le(y, t[0]) {
      assert ([y] + t)[1..] == t;
    } else {
      InsertKeepsTieOrder(x, y, t[1..]);
      var rest := InsertSorted(y, t[1..]);
      assert ([t[0]] + rest)[1..] == rest;
      if f(y) && f(t[0]) {
        LeTransitive(y, x, t[0]);
        assert false;
      }
    }
  }

  /** Two ordered lists with the same records are equal when no two distinct
      records of them tie under the comparator. */
  lemma {:induction false} SortedUnique(a: seq<Bookmark>, b: seq<Bookmark>)
    requires Sorted(a) && Sorted(b) && multiset(a) == multiset(b)
    requires forall i, j :: 0 <= i < |a| && 0 <= j < |a| && Le(a[i], a[j]) && Le(a[j], a[i]) ==> a[i] == a[j]
    ensures a == b
    decreases |a|
  {
    if a != [] {
      SameHead(a, b);
      TailsAgree(a, b);
      SortedUnique(a[1..], b[1..]);
      assert a == [a[0]] + a[1..] && b == [b[0]] + b[1..];
    }
  }

  lemma SameHead(a: seq<Bookmark>, b: seq<Bookmark>)
    requires a != [] && Sorted(a) && Sorted(b) && multiset(a) == multiset(b)
    requires forall i, j :: 0 <= i < |a| && 0 <= j < |a| && Le(a[i], a[j]) && Le(a[j], a[i]) ==> a[i] == a[j]
    ensures b != [] && a[0] == b[0]
  {
    assert |b| == |multiset(b)| == |a|;
    assert b[0] in multiset(a) && a[0] in multiset(b);
    var i :| 0 <= i < |a| && a[i] == b[0];
    var j :| 0 <= j < |b| && b[j] == a[0];
    LeTotal(a[0], a[0]);
    LeTotal(b[0], b[0]);
    assert Le(a[0], a[i]) && Le(b[0], b[j]);
  }

  lemma TailSorted(s: seq<Bookmark>)
    requires s != [] && Sorted(s)
    ensures Sorted(s[1..])
  {
    forall i, j | 0 <= i < j < |s[1..]| ensures Le(s[1..][i], s[1..][j]) {
      assert s[1..][i] == s[i + 1] && s[1..][j] == s[j + 1];
    }
  }

  lemma TailsAgree(a: seq<Bookmark>, b: seq<Bookmark>)
    requires a != [] && b != [] && a[0] == b[0] && Sorted(a) && Sorted(b) && multiset(a) == multiset(b)
    requires forall i, j :: 0 <= i < |a| && 0 <= j < |a| && Le(a[i], a[j]) && Le(a[j], a[i]) ==> a[i] == a[j]
    ensures multiset(a[1..]) == multiset(b[1..]) && Sorted(a[1..]) && Sorted(b[1..])
    ensures forall i, j :: 0 <= i < |a[1..]| && 0 <= j < |a[1..]| && Le(a[1..][i], a[1..][j]) && Le(a[1..][j], a[1..][i]) ==> a[1..][i] == a[1..][j]
  {
    TailMultiset(a);
    TailMultiset(b);
    TailSorted(a);
    TailSorted(b);
    TailNoTies(a);
  }

  lemma TailMultiset(s: seq<Bookmark>)
    requires s != []
    ensures multiset(s[1..]) == multiset(s) - multiset{s[0]}
  {
    assert s == [s[0]] + s[1..];
  }

  lemma TailNoTies(a: seq<Bookmark>)
    requires a != []
    requires forall i, j :: 0 <= i < |a| && 0 <= j < |a| && Le(a[i], a[j]) && Le(a[j], a[i]) ==> a[i] == a[j]
    ensures forall i, j :: 0 <= i < |a[1..]| && 0 <= j < |a[1..]| && Le(a[1..][i], a[1..][j]) && Le(a[1..][j], a[1..][i]) ==> a[1..][i] == a[1..][j]
  {
    forall i, j | 0 <= i < |a[1..]| && 0 <= j < |a[1..]| && Le(a[1..][i], a[1..][j]) && Le(a[1..][j], a[1..][i])
      ensures a[1..][i] == a[1..][j]
    {
      assert a[1..][i] == a[i + 1] && a[1..][j] == a[j + 1];
    }
  }
}
