/**
 * Drag-and-drop reordering: `findIndex` on the full list, dnd-kit's
 * `arrayMove`, the dense renumbering of positions and the update list that
 * `persistOrder` sends, with the round trip through a reload.
 */
module Reorder {
  import opened Results
  import opened Bookmarks

  /** The list without the element at index `i`. */
  function Remove<T>(s: seq<T>, i: nat): (r: seq<T>)
    requires i < |s|
    ensures |r| == |s| - 1
    ensures forall k :: 0 <= k < |r| ==> r[k] == if k < i then s[k] else s[k + 1]
  {
    s[..i] + s[i + 1..]
  }

  /** `arrayMove(array, from, to)`: take the element out at `from` and put it
      back so that it ends up at index `to`. The other elements keep their
      relative order, and nothing is lost or added. */
  function ArrayMove<T>(s: seq<T>, from: nat, to: nat): (r: seq<T>)
    requires from < |s| && to < |s|
    ensures |r| == |s|
    ensures r[to] == s[from]
    ensures Remove(r, to) == Remove(s, from)
    ensures multiset(r) == multiset(s)
  {
    var rest := Remove(s, from);
    var r := rest[..to] + [s[from]] + rest[to..];
    RemoveInserted(rest, to, s[from]);
    RemoveMultiset(s, from);
    RemoveMultiset(r, to);
    r
  }

  lemma RemoveInserted<T>(rest: seq<T>, i: nat, x: T)
    requires i <= |rest|
    ensures var r := rest[..i] + [x] + rest[i..]; |r| == |rest| + 1 && r[i] == x && Remove(r, i) == rest
  {
    var r := rest[..i] + [x] + rest[i..];
    assert r[..i] == rest[..i];
    assert r[i + 1..] == rest[i..];
    assert rest[..i] + rest[i..] == rest;
  }

  lemma RemoveMultiset<T>(s: seq<T>, i: nat)
    requires i < |s|
    ensures multiset(s) == multiset(Remove(s, i)) + multiset{s[i]}
  {
    assert s == s[..i] + [s[i]] + s[i + 1..];
  }

  /** The three facts in `ArrayMove`'s contract determine its result. */
  lemma {:induction false} ArrayMoveDetermined<T>(s: seq<T>, from: nat, to: nat, r: seq<T>)
    requires from < |s| && to < |s| && |r| == |s|
    requires r[to] == s[from] && Remove(r, to) == Remove(s, from)
    ensures r == ArrayMove(s, from, to)
  {
    var m := ArrayMove(s, from, to);
    forall k | 0 <= k < |r| ensures r[k] == m[k] {
      if k < to {
        assert r[k] == Remove(r, to)[k] && m[k] == Remove(m, to)[k];
      } else if k > to {
        assert r[k] == Remove(r, to)[k - 1] && m[k] == Remove(m, to)[k - 1];
      }
    }
  }

  /** Dragging the item back to where it came from restores the list. */
  lemma {:induction false} ArrayMoveUndo<T>(s: seq<T>, from: nat, to: nat)
    requires from < |s| && to < |s|
    ensures ArrayMove(ArrayMove(s, from, to), to, from) == s
  {
    var r := ArrayMove(s, from, to);
    ArrayMoveDetermined(r, to, from, s);
  }

  /** The ids of the list, in order. */
  function Ids(list: seq<Bookmark>): (ids: seq<string>)
    ensures |ids| == |list| && forall i :: 0 <= i < |list| ==> ids[i] == list[i].id
  {
    seq(|list|, i requires 0 <= i < |list| => list[i].id)
  }

  /** `list.findIndex((b) => b._id === id)`: the first index holding `id`,
      or -1 when no element has it. */
  function FindIndex(list: seq<Bookmark>, id: string): (k: int)
    ensures -1 <= k < |list|
    ensures k >= 0 ==> list[k].id == id
    ensures forall j :: 0 <= j < |list| && (k < 0 || j < k) ==> list[j].id != id
    ensures k >= 0 <==> id in Ids(list)
    decreases |list|
  {
    if list == [] then -1
    else if list[0].id == id then 0
    else
      var k := FindIndex(list[1..], id);
      assert Ids(list) == [list[0].id] + Ids(list[1..]);
      if k < 0 then -1 else k + 1
  }

  /** `.map((b, position) => ({ ...b, position }))`: every record takes its
      index as its position and keeps all its other fields. */
  function Renumber(list: seq<Bookmark>): (r: seq<Bookmark>)
    ensures |r| == |list|
    ensures forall i :: 0 <= i < |r| ==> r[i].position == Some(i) && r[i].(position := list[i].position) == list[i]
  {
    seq(|list|, i requires 0 <= i < |list| => list[i].(position := Some(i)))
  }

  /** After renumbering, positions strictly increase along the list, so the
      list is in the order a reload sorts it into, and no two records tie. */
  lemma RenumberedInOrder(list: seq<Bookmark>)
    ensures Sorted(Renumber(list))
    ensures forall i, j :: 0 <= i < |list| && 0 <= j < |list| && Le(Renumber(list)[i], Renumber(list)[j]) && Le(Renumber(list)[j], Renumber(list)[i]) ==> i == j
  {
    var r := Renumber(list);
    forall i, j | 0 <= i < |r| && 0 <= j < |r| && Le(r[i], r[j]) && Le(r[j], r[i]) ensures i == j {
      LeTotal(r[i], r[j]);
    }
  }

  /** One entry of the reorder request: `{ _id, position }`. */
  datatype Update = Update(id: string, position: int)

  /** `list.map((b, position) => ({ _id: b._id, position }))`. */
  function PersistUpdates(list: seq<Bookmark>): (u: seq<Update>)
    ensures |u| == |list|
    ensures forall i :: 0 <= i < |u| ==> u[i] == Update(list[i].id, i)
  {
    seq(|list|, i requires 0 <= i < |list| => Update(list[i].id, i))
  }

  /** For a renumbered list the request carries exactly the positions the
      local records hold, one pair per record, in list order. */
  lemma {:induction false} UpdatesMatchLocalPositions(list: seq<Bookmark>)
    ensures var r := Renumber(list); var u := PersistUpdates(r);
      |u| == |r| && forall i :: 0 <= i < |u| ==> u[i].id == r[i].id && Some(u[i].position) == r[i].position
  {
  }

  /** The full list after the item with id `active` is dropped on the item
      with id `over`; both indices are looked up in the full list, not in the
      filtered view. Every record keeps all its fields but its position. */
  function Reordered(list: seq<Bookmark>, active: string, over: string): (r: seq<Bookmark>)
    requires active in Ids(list) && over in Ids(list)
    ensures |r| == |list|
    ensures forall i :: 0 <= i < |r| ==> r[i].position == Some(i)
    ensures r[FindIndex(list, over)].id == active
    ensures Ids(r) == ArrayMove(Ids(list), FindIndex(list, active), FindIndex(list, over))
    ensures var m := ArrayMove(list, FindIndex(list, active), FindIndex(list, over));
      forall i :: 0 <= i < |r| ==> r[i].(position := m[i].position) == m[i]
  {
    var from, to := FindIndex(list, active), FindIndex(list, over);
    var m := ArrayMove(list, from, to);
    var r := Renumber(m);
    assert Ids(r) == Ids(m);
    IdsOfMove(list, from, to);
    r
  }

  lemma IdsOfMove(list: seq<Bookmark>, from: nat, to: nat)
    requires from < |list| && to < |list|
    ensures Ids(ArrayMove(list, from, to)) == ArrayMove(Ids(list), from, to)
  {
    var m := ArrayMove(list, from, to);
    IdsOfRemove(m, to);
    IdsOfRemove(list, from);
    assert Remove(Ids(m), to) == Remove(Ids(list), from);
    ArrayMoveDetermined(Ids(list), from, to, Ids(m));
  }

  lemma IdsOfRemove(list: seq<Bookmark>, i: nat)
    requires i < |list|
    ensures Ids(Remove(list, i)) == Remove(Ids(list), i)
  {
    var a, b := Ids(Remove(list, i)), Remove(Ids(list), i);
    assert |a| == |b|;
    forall k | 0 <= k < |a| ensures a[k] == b[k] {
    }
  }

  /** Reload after a reorder: if the server stores the submitted positions
      and hands the records back in any order, sorting them reproduces the
      order that was just set. */
  lemma {:induction false} ReloadAfterReorder(list: seq<Bookmark>, stored: seq<Bookmark>)
    requires multiset(stored) == multiset(Renumber(list))
    ensures SortBookmarks(stored) == Renumber(list)
  {
    var r := Renumber(list);
    RenumberedInOrder(list);
    SortedUnique(r, SortBookmarks(stored));
  }
}
