/**
 * The dashboard's read-only derivations: the tags typed into the add form,
 * the list of distinct tags offered as filter chips, and the visible view
 * built from the selected tag and the search text.
 */
module Projection {
  import opened Text
  import opened Seqs
  import opened Bookmarks

  /** The tag chip that selects every bookmark. */
  const AllTag: string := "All"

  /** A tag as the add form produces it: non-empty, trimmed, without a comma. */
  predicate IsTag(t: string) {
    t != [] && IsTrimmed(t) && ',' !in t
  }

  function TrimEach(parts: seq<string>): (r: seq<string>)
    ensures |r| == |parts| && forall i :: 0 <= i < |parts| ==> r[i] == Trim(parts[i])
  {
    seq(|parts|, i requires 0 <= i < |parts| => Trim(parts[i]))
  }

  lemma TrimKeepsNoComma(s: string)
    requires ',' !in s
    ensures ',' !in Trim(s)
  {
    var r := Trim(s);
    var i :| 0 <= i <= |s| - |r| && r == s[i..i + |r|] && AllSpace(s[..i]) && AllSpace(s[i + |r|..]);
    forall k | 0 <= k < |r| ensures r[k] != ',' {
      assert r[k] == s[i + k];
    }
  }

  /** `tagsInput.split(',').map((t) => t.trim()).filter(Boolean)`: the
      non-empty trimmed pieces, every copy of each, in input order; each is
      non-empty, trimmed and free of commas. */
  function ParseTags(input: string): (tags: seq<string>)
    ensures forall i :: 0 <= i < |tags| ==> IsTag(tags[i])
    ensures IsSubsequence(tags, TrimEach(SplitComma(input)))
    ensures forall t :: t in tags <==> t != "" && t in TrimEach(SplitComma(input))
    ensures forall t :: multiset(tags)[t] == if t == "" then 0 else multiset(TrimEach(SplitComma(input)))[t]
  {
    var parts := SplitComma(input);
    var trimmed := TrimEach(parts);
    forall i | 0 <= i < |trimmed| ensures ',' !in trimmed[i] {
      TrimKeepsNoComma(parts[i]);
    }
    var nonEmpty := (t: string) => t != "";
    var tags := Filter(nonEmpty, trimmed);
    forall i | 0 <= i < |tags| ensures IsTag(tags[i]) {
      assert tags[i] in trimmed;
    }
    forall t ensures multiset(tags)[t] == if t == "" then 0 else multiset(trimmed)[t] {
      FilterMultiset(nonEmpty, trimmed, t);
    }
    tags
  }

  /** Tags joined with a comma and any whitespace, the way a user types them
      or the way a card shows them (`tags.join(', ')`), parse back to the
      same tags in the same order. */
  lemma {:induction false} ParseJoinedTags(tags: seq<string>, w: string)
    requires forall i :: 0 <= i < |tags| ==> IsTag(tags[i])
    requires AllSpace(w)
    ensures ParseTags(Join(tags, "," + w)) == tags
  {
    if tags == [] {
      assert SplitComma("") == [""];
      assert TrimEach([""]) == [""] by {
        TrimOfTrimmed("");
      }
    } else {
      forall k | 0 <= k < |w| ensures w[k] != ',' {
        assert IsSpace(w[k]);
      }
      SplitJoin(tags, w);
      var padded := PadTail(tags, w);
      var trimmed := TrimEach(padded);
      forall i | 0 <= i < |tags| ensures trimmed[i] == tags[i] {
        if i == 0 {
          TrimOfTrimmed(tags[0]);
        } else {
          TrimPadded(w, tags[i]);
        }
      }
      assert trimmed == tags;
    }
  }

  /** The tags of every bookmark, bookmark after bookmark:
      `bookmarks.flatMap((b) => b.tags || [])`. */
  function FlatTags(list: seq<Bookmark>): (r: seq<string>)
    ensures forall t :: t in r <==> exists i :: 0 <= i < |list| && t in list[i].tags
    decreases |list|
  {
    if list == [] then []
    else
      var rest := FlatTags(list[1..]);
      forall t ensures t in list[0].tags + rest <==> exists i :: 0 <= i < |list| && t in list[i].tags {
        if t in rest {
          var i :| 0 <= i < |list[1..]| && t in list[1..][i].tags;
          assert list[i + 1] == list[1..][i];
        }
        if exists i :: 0 <= i < |list| && t in list[i].tags {
          var i :| 0 <= i < |list| && t in list[i].tags;
          if i > 0 {
            assert list[1..][i - 1] == list[i];
          }
        }
      }
      list[0].tags + rest
  }

  /** `allTags`: each tag used by some bookmark, once, in the order in
      which it first appears. */
  function AllTags(list: seq<Bookmark>): (r: seq<string>)
    ensures NoDuplicates(r)
    ensures forall t :: t in r <==> t in FlatTags(list)
    ensures forall t :: t in r <==> exists i :: 0 <= i < |list| && t in list[i].tags
    ensures forall i, j :: 0 <= i < j < |r| ==> FirstIndex(FlatTags(list), r[i]) < FirstIndex(FlatTags(list), r[j])
  {
    Distinct(FlatTags(list))
  }

  /** `search.trim().toLowerCase()`. */
  function Query(search: string): (q: string)
    ensures |q| <= |search|
    ensures IsTrimmed(q)
    ensures Lower(q) == q
  {
    Lower(Trim(search))
  }

  lemma {:induction false} BlankQuery(search: string)
    ensures Query(search) == "" <==> AllSpace(search)
  {
    TrimSlice(search);
    var i := LeadingSpaces(search);
    var n := EndOfText(search[i..]);
    assert |Query(search)| == n;
    if n == 0 {
      assert i == |search|;
    }
    if AllSpace(search) {
      assert i == |search|;
    }
  }

  /** `\b` holds at index `k`: exactly one of the characters on either side
      of `k` is a word character (a missing side counts as a non-word one). */
  function IsBoundary(s: string, k: nat): (r: bool)
    requires k <= |s|
    ensures r <==>
      || (k > 0 && IsWordChar(s[k - 1]) && (k == |s| || !IsWordChar(s[k])))
      || ((k == 0 || !IsWordChar(s[k - 1])) && k < |s| && IsWordChar(s[k]))
  {
    (k > 0 && IsWordChar(s[k - 1])) != (k < |s| && IsWordChar(s[k]))
  }

  /** The escaped, case-insensitive pattern `\b<q>` matches `s` at `k`: a
      word boundary at `k`, then the characters of `q` up to ASCII case. */
  ghost predicate WordPrefixAt(s: string, q: string, k: int) {
    0 <= k && k + |q| <= |s| && IsBoundary(s, k) && Lower(s[k..k + |q|]) == Lower(q)
  }

  function PrefixTestFrom(s: string, q: string, k: nat): (r: bool)
    ensures r <==> exists j :: k <= j && WordPrefixAt(s, q, j)
    decreases |s| - k
  {
    if k + |q| > |s| then false
    else if IsBoundary(s, k) && Lower(s[k..k + |q|]) == Lower(q) then
      assert WordPrefixAt(s, q, k);
      true
    else
      assert !WordPrefixAt(s, q, k);
      PrefixTestFrom(s, q, k + 1)
  }

  /** `new RegExp('\\b' + escaped(q), 'i').test(s)`: escaping makes every
      character of `q` literal, so the test asks whether `q` occurs, up to
      case, at some index where `\b` holds. */
  function PrefixTest(s: string, q: string): (r: bool)
    ensures r <==> exists k :: WordPrefixAt(s, q, k)
  {
    PrefixTestFrom(s, q, 0)
  }

  lemma LowerKeepsWordChar(c: char)
    ensures IsWordChar(LowerChar(c)) <==> IsWordChar(c)
  {
  }

  lemma {:induction false} MatchStartsLikeQuery(s: string, q: string, k: int)
    requires q != [] && WordPrefixAt(s, q, k)
    ensures IsWordChar(s[k]) <==> IsWordChar(q[0])
  {
    assert Lower(s[k..k + |q|])[0] == LowerChar(s[k]);
    LowerKeepsWordChar(s[k]);
    LowerKeepsWordChar(q[0]);
  }

  /** A query that starts with a word character matches the summary only at
      the start of a word: the match begins with a word character and does
      not follow one. */
  lemma {:induction false} WordQueryMatchesWordStart(s: string, q: string, k: int)
    requires q != [] && IsWordChar(q[0])
    ensures WordPrefixAt(s, q, k) ==> IsWordChar(s[k]) && (k == 0 || !IsWordChar(s[k - 1]))
  {
    if WordPrefixAt(s, q, k) {
      MatchStartsLikeQuery(s, q, k);
    }
  }

  /** A query that starts with a non-word character (such as `#`, `(` or `+`)
      matches the summary only right after a word character, because `\b`
      then needs a word character on its left. */
  lemma {:induction false} SymbolQueryFollowsWordChar(s: string, q: string, k: int)
    requires q != [] && !IsWordChar(q[0])
    ensures WordPrefixAt(s, q, k) ==> k > 0 && IsWordChar(s[k - 1])
  {
    if WordPrefixAt(s, q, k) {
      MatchStartsLikeQuery(s, q, k);
    }
  }

  /** The summary "Early AI" is found by the query "ai" (at the word "AI"),
      while "Brain", which holds "ai" only inside the word, is not. */
  lemma SearchExamples()
    ensures PrefixTest("Early AI", "ai")
    ensures !PrefixTest("Brain", "ai")
  {
    assert "Early AI"[6..8] == "AI";
    assert Lower("AI") == "ai";
    assert Lower("ai") == "ai";
    assert WordPrefixAt("Early AI", "ai", 6);
    forall k ensures !WordPrefixAt("Brain", "ai", k) {
      WordQueryMatchesWordStart("Brain", "ai", k);
      if k == 0 {
        assert Lower("Brain"[0..2])[0] == 'b';
      }
    }
  }

  /** The search rule for a non-empty query `q`: a free substring of the
      lower-cased title or url, or a word-boundary match in the summary. */
  ghost predicate SearchHit(b: Bookmark, q: string) {
    || Contains(Lower(b.title), q)
    || Contains(Lower(b.url), q)
    || exists k :: WordPrefixAt(b.summary, q, k)
  }

  function MatchesQuery(b: Bookmark, q: string): (r: bool)
    ensures r <==> SearchHit(b, q)
  {
    Includes(Lower(b.title), q) || Includes(Lower(b.url), q) || PrefixTest(b.summary, q)
  }

  /** The tag rule: the "All" chip keeps everything, another chip the
      bookmarks that carry its tag. */
  predicate TagKept(b: Bookmark, filterTag: string) {
    filterTag == AllTag || filterTag in b.tags
  }

  /** The search rule: a blank search keeps everything, any other search
      the bookmarks that match it (`MatchesQuery`, which is `SearchHit`). */
  predicate SearchKept(b: Bookmark, search: string) {
    Query(search) == "" || MatchesQuery(b, Query(search))
  }

  /** Whether the view keeps `b` for the selected tag and the search text. */
  predicate Kept(b: Bookmark, filterTag: string, search: string) {
    TagKept(b, filterTag) && SearchKept(b, search)
  }

  /** The first step of `applyFilters`: every copy of each bookmark that
      passes the tag rule, in list order. */
  function FilterByTag(list: seq<Bookmark>, filterTag: string): (r: seq<Bookmark>)
    ensures IsSubsequence(r, list)
    ensures forall b :: multiset(r)[b] == if TagKept(b, filterTag) then multiset(list)[b] else 0
    ensures forall b :: b in r <==> b in list && TagKept(b, filterTag)
    ensures filterTag == AllTag ==> r == list
  {
    if filterTag != AllTag then
      var hasTag := (b: Bookmark) => filterTag in b.tags;
      var r := Filter(hasTag, list);
      forall b ensures multiset(r)[b] == if TagKept(b, filterTag) then multiset(list)[b] else 0 {
        FilterMultiset(hasTag, list, b);
      }
      r
    else
      SubsequenceRefl(list);
      list
  }

  /** The second step of `applyFilters`: every copy of each bookmark that
      passes the search rule, in list order. */
  function FilterBySearch(list: seq<Bookmark>, search: string): (r: seq<Bookmark>)
    ensures IsSubsequence(r, list)
    ensures forall b :: multiset(r)[b] == if SearchKept(b, search) then multiset(list)[b] else 0
    ensures forall b :: b in r <==> b in list && SearchKept(b, search)
    ensures AllSpace(search) ==> r == list
  {
    var q := Query(search);
    BlankQuery(search);
    if q != "" then
      var matches := (b: Bookmark) => MatchesQuery(b, q);
      var r := Filter(matches, list);
      forall b ensures multiset(r)[b] == if SearchKept(b, search) then multiset(list)[b] else 0 {
        FilterMultiset(matches, list, b);
      }
      r
    else
      SubsequenceRefl(list);
      list
  }

  /** `applyFilters`: the bookmarks the view keeps, in list order. An
      element of the list appears, with all its copies, exactly when it
      passes both rules; with the "All" chip and a blank search the view is
      the whole list. */
  function ApplyFilters(list: seq<Bookmark>, filterTag: string, search: string): (r: seq<Bookmark>)
    ensures IsSubsequence(r, list)
    ensures forall b :: b in r <==> b in list && Kept(b, filterTag, search)
    ensures filterTag != AllTag ==> forall i :: 0 <= i < |r| ==> filterTag in r[i].tags
    ensures filterTag == AllTag && AllSpace(search) ==> r == list
    ensures forall b :: multiset(r)[b] == if Kept(b, filterTag, search) then multiset(list)[b] else 0
  {
    var byTag := FilterByTag(list, filterTag);
    var r := FilterBySearch(byTag, search);
    ComposeStages(list, byTag, r, filterTag, search);
    r
  }

  /** What the two steps of `applyFilters` give together. */
  lemma ComposeStages(list: seq<Bookmark>, byTag: seq<Bookmark>, r: seq<Bookmark>, filterTag: string, search: string)
    requires IsSubsequence(byTag, list) && IsSubsequence(r, byTag)
    requires forall b :: multiset(byTag)[b] == if TagKept(b, filterTag) then multiset(list)[b] else 0
    requires forall b :: multiset(r)[b] == if SearchKept(b, search) then multiset(byTag)[b] else 0
    requires forall b :: b in byTag <==> b in list && TagKept(b, filterTag)
    requires forall b :: b in r <==> b in byTag && SearchKept(b, search)
    requires filterTag == AllTag ==> byTag == list
    requires AllSpace(search) ==> r == byTag
    ensures IsSubsequence(r, list)
    ensures forall b :: b in r <==> b in list && Kept(b, filterTag, search)
    ensures filterTag != AllTag ==> forall i :: 0 <= i < |r| ==> filterTag in r[i].tags
    ensures filterTag == AllTag && AllSpace(search) ==> r == list
    ensures forall b :: multiset(r)[b] == if Kept(b, filterTag, search) then multiset(list)[b] else 0
  {
    SubsequenceTrans(r, byTag, list);
    assert forall i :: 0 <= i < |r| ==> r[i] in r;
  }
}
