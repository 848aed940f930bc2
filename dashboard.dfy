/**
 * The dashboard's bookmark list state. Each React state variable of the
 * component is a field; each handler is a method that changes exactly the
 * fields its setters touch. An awaited network call is a parameter holding
 * how it settled. `addBookmark` is split at its first `await` into
 * `SubmitAdd` and `CompleteAdd`, so the `isAdding` guard sees a second
 * submit while the first is in flight; `persistOrder` is likewise split into
 * the synchronous part of `DragEnd` and `CompletePersist`.
 */
module Dashboard {
  import opened Text
  import opened Results
  import opened Seqs
  import opened Bookmarks
  import opened Projection
  import opened Reorder

  /** A toast notification. */
  datatype Toast = Success(text: string) | Error(text: string)

  /** The body posted to `/bookmarks`: `{ url, tags, summary }`. */
  datatype NewBookmark = NewBookmark(url: string, tags: seq<string>, summary: string)

  /** What an add in flight captured when it was submitted. */
  datatype PendingAdd = PendingAdd(url: string, tags: seq<string>)

  /** `url.replace(/^https?:\/\//, '')`: drops one leading `http://` or
      `https://` and nothing else. */
  function StripScheme(url: string): (r: string)
    ensures url == r || url == "http://" + r || url == "https://" + r
    ensures r == url <==> !StartsWith(url, "http://") && !StartsWith(url, "https://")
  {
    if StartsWith(url, "https://") then
      assert url == url[..8] + url[8..];
      url[8..]
    else if StartsWith(url, "http://") then
      assert url == url[..7] + url[7..];
      url[7..]
    else url
  }

  /** `prev.filter((b) => b._id !== id)`: no record with `id` remains, and
      every other record stays, with all its copies, in its order. */
  function WithoutId(list: seq<Bookmark>, id: string): (r: seq<Bookmark>)
    ensures id !in Ids(r)
    ensures IsSubsequence(r, list)
    ensures forall b :: b in r <==> b in list && b.id != id
    ensures id !in Ids(list) ==> r == list
    ensures forall b :: multiset(r)[b] == if b.id == id then 0 else multiset(list)[b]
  {
    var keep := (b: Bookmark) => b.id != id;
    var r := Filter(keep, list);
    forall b ensures multiset(r)[b] == if b.id == id then 0 else multiset(list)[b] {
      FilterMultiset(keep, list, b);
    }
    assert forall i :: 0 <= i < |r| ==> Ids(r)[i] != id;
    assert id !in Ids(list) ==> forall i :: 0 <= i < |list| ==> list[i].id != id by {
      if id !in Ids(list) {
        forall i | 0 <= i < |list| ensures list[i].id != id {
          assert Ids(list)[i] == list[i].id;
        }
      }
    }
    r
  }

  const AddFailedText: string := "Failed to add bookmark"

  /** The error toast of a failed add: the server's message from the store
      call, or the generic text. A failed summary fetch has no response, so
      it always gets the generic text. */
  function AddFailureText(summary: Option<string>, created: Reply<Bookmark>): (t: string)
    ensures t != ""
    ensures summary.None? ==> t == AddFailedText
    ensures summary.Some? && created.Failed? && created.message != "" ==> t == created.message
    ensures !(summary.Some? && created.Failed? && created.message != "") ==> t == AddFailedText
  {
    if summary.Some? && created.Failed? && created.message != "" then created.message
    else AddFailedText
  }

  class DashboardState {
    var url: string
    var tagsInput: string
    var bookmarks: seq<Bookmark>
    var filterTag: string
    var search: string
    var saving: bool
    var showAdd: bool
    var isAdding: bool
    /** The url and tags captured by the add whose calls are in flight. */
    var pending: Option<PendingAdd>

    /** An add is in flight exactly when `isAdding` is set. */
    ghost predicate Valid()
      reads this
    {
      isAdding <==> pending.Some?
    }

    constructor ()
      ensures Valid()
      ensures url == "" && tagsInput == "" && bookmarks == [] && filterTag == AllTag && search == ""
      ensures !saving && !showAdd && !isAdding
    {
      url, tagsInput, bookmarks := "", "", [];
      filterTag, search := AllTag, "";
      saving, showAdd, isAdding := false, false, false;
      pending := None;
    }

    /** `visible`: the bookmarks the grid shows. */
    function Visible(): (v: seq<Bookmark>)
      reads this
      ensures IsSubsequence(v, bookmarks)
    {
      ApplyFilters(bookmarks, filterTag, search)
    }

    /** `fetchBookmarks`: on success the list is replaced by the server's
        records in `(position ?? 0, createdAt)` order; on failure the list is
        kept and an error toast is shown. */
    method FetchBookmarks(reply: Reply<seq<Bookmark>>) returns (toast: Option<Toast>)
      requires Valid()
      modifies this`bookmarks
      ensures Valid()
      ensures reply.Ok? ==> bookmarks == SortBookmarks(reply.value) && toast == None
      ensures reply.Ok? ==> Sorted(bookmarks) && multiset(bookmarks) == multiset(reply.value)
      ensures reply.Failed? ==> bookmarks == old(bookmarks) && toast == Some(Error("Error fetching bookmarks"))
    {
      match reply
      case Ok(records) =>
        bookmarks := SortBookmarks(records);
        toast := None;
      case Failed(_) =>
        toast := Some(Error("Error fetching bookmarks"));
    }

    /** The synchronous part of `addBookmark`, up to the summary fetch. A
        submit while an add is in flight returns at once and changes nothing;
        otherwise the tags are parsed, `isAdding` is set and the summary of
        the url without its scheme is requested. */
    method SubmitAdd() returns (summaryRequest: Option<string>)
      requires Valid()
      modifies this`isAdding, this`pending
      ensures Valid() && isAdding
      ensures old(isAdding) ==> summaryRequest == None && pending == old(pending)
      ensures !old(isAdding) ==> summaryRequest == Some(StripScheme(url)) && pending == Some(PendingAdd(url, ParseTags(tagsInput)))
    {
      if isAdding {
        return None;
      }
      var tags := ParseTags(tagsInput);
      isAdding := true;
      pending := Some(PendingAdd(url, tags));
      summaryRequest := Some(StripScheme(url));
    }

    /** The rest of `addBookmark`, once the summary fetch (`None` when it
        rejected) and, after it, the store call have settled. The store is
        called only with a summary. On success the created record is put in
        front of the list, the form is cleared and closed and a reload is
        due; on any failure the list and the form are kept. Either way
        `isAdding` ends false. */
    method CompleteAdd(summary: Option<string>, created: Reply<Bookmark>)
      returns (request: Option<NewBookmark>, toast: Toast, reload: bool)
      requires Valid() && isAdding
      modifies this`bookmarks, this`url, this`tagsInput, this`showAdd, this`isAdding, this`pending
      ensures Valid() && !isAdding
      ensures request == if summary.Some?
        then Some(NewBookmark(old(pending).value.url, old(pending).value.tags, summary.value))
        else None
      ensures summary.Some? && created.Ok? ==>
        && bookmarks == [created.value] + old(bookmarks)
        && url == "" && tagsInput == "" && !showAdd
        && toast == Success("Bookmark added!") && reload
      ensures !(summary.Some? && created.Ok?) ==>
        && bookmarks == old(bookmarks)
        && url == old(url) && tagsInput == old(tagsInput) && showAdd == old(showAdd)
        && toast == Error(AddFailureText(summary, created)) && !reload
    {
      var p := pending.value;
      reload := false;
      request := None;
      if summary.None? {
        toast := Error(AddFailureText(summary, created));
      } else {
        request := Some(NewBookmark(p.url, p.tags, summary.value));
        match created
        case Ok(record) =>
          bookmarks := [record] + bookmarks;
          url := "";
          tagsInput := "";
          showAdd := false;
          toast := Success("Bookmark added!");
          reload := true;
        case Failed(_) =>
          toast := Error(AddFailureText(summary, created));
      }
      isAdding := false;
      pending := None;
    }

    /** `deleteBookmark`: the record leaves the list only once the server has
        confirmed the delete; a failed delete keeps the list as it was. */
    method DeleteBookmark(id: string, ok: bool) returns (toast: Toast)
      requires Valid()
      modifies this`bookmarks
      ensures Valid()
      ensures ok ==> bookmarks == WithoutId(old(bookmarks), id) && toast == Success("Bookmark deleted")
      ensures !ok ==> bookmarks == old(bookmarks) && toast == Error("Failed to delete")
    {
      if ok {
        bookmarks := WithoutId(bookmarks, id);
        toast := Success("Bookmark deleted");
      } else {
        toast := Error("Failed to delete");
      }
    }

    /** `onDragEnd` and the synchronous part of `persistOrder`. Nothing
        happens without a drop target or when the card is dropped on itself.
        Otherwise the dragged card moves within the full list, every record
        takes its new index as position, `saving` is set and the update list
        for the reorder call is returned. The ids come from rendered cards,
        which are all in the list. */
    method DragEnd(active: string, over: Option<string>) returns (updates: Option<seq<Update>>)
      requires Valid()
      requires over.Some? && over.value != active ==> active in Ids(bookmarks) && over.value in Ids(bookmarks)
      modifies this`bookmarks, this`saving
      ensures Valid()
      ensures over.None? || over.value == active ==> updates == None && bookmarks == old(bookmarks) && saving == old(saving)
      ensures over.Some? && over.value != active ==>
        && bookmarks == Reordered(old(bookmarks), active, over.value)
        && saving
        && updates == Some(PersistUpdates(bookmarks))
    {
      if over.None? || active == over.value {
        return None;
      }
      var fromIndex := FindIndex(bookmarks, active);
      var toIndex := FindIndex(bookmarks, over.value);
      var newOrder := Renumber(ArrayMove(bookmarks, fromIndex, toIndex));
      bookmarks := newOrder;
      saving := true;
      updates := Some(PersistUpdates(newOrder));
    }

    /** The rest of `persistOrder`: `saving` is cleared; a failed reorder
        call asks for a reload instead of undoing the move locally. */
    method CompletePersist(ok: bool) returns (toast: Toast, reload: bool)
      requires Valid()
      modifies this`saving
      ensures Valid() && !saving
      ensures ok ==> toast == Success("Order updated") && !reload
      ensures !ok ==> toast == Error("Failed to update order") && reload
    {
      if ok {
        toast := Success("Order updated");
        reload := false;
      } else {
        toast := Error("Failed to update order");
        reload := true;
      }
      saving := false;
    }
  }

  /** Two submits before the first add settles: only the first requests a
      summary, and the second leaves the captured form values alone. */
  method DoubleSubmit(d: DashboardState) returns (first: Option<string>, second: Option<string>)
    requires d.Valid() && !d.isAdding
    modifies d
    ensures first == Some(StripScheme(old(d.url))) && second == None
    ensures d.pending == Some(PendingAdd(old(d.url), ParseTags(old(d.tagsInput))))
  {
    first := d.SubmitAdd();
    second := d.SubmitAdd();
  }

  /** A drag, a successful reorder call and a reload that returns the
      records the drag arranged, in any order, leave the list as the drag
      arranged it. */
  method DragThenReload(d: DashboardState, active: string, over: string, stored: seq<Bookmark>)
    requires d.Valid() && active != over && active in Ids(d.bookmarks) && over in Ids(d.bookmarks)
    requires multiset(stored) == multiset(Renumber(ArrayMove(d.bookmarks, FindIndex(d.bookmarks, active), FindIndex(d.bookmarks, over))))
    modifies d
    ensures d.bookmarks == Reordered(old(d.bookmarks), active, over)
    ensures !d.saving
  {
    var moved := ArrayMove(d.bookmarks, FindIndex(d.bookmarks, active), FindIndex(d.bookmarks, over));
    var updates := d.DragEnd(active, Some(over));
    var toast, reload := d.CompletePersist(true);
    var fetched := d.FetchBookmarks(Ok(stored));
    ReloadAfterReorder(moved, stored);
  }
}
