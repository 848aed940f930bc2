/**
 * What a bookmark card displays: the link target, the link text, the tags
 * line, the shortened summary and the id its delete button reports.
 */
module Card {
  import opened Text
  import opened Results
  import opened Bookmarks
  import opened Projection

  /** Summaries longer than this many characters are cut. */
  const SummaryLimit: nat := 300

  /** The link target: the url itself when it starts with `http`, otherwise
      the url behind `https://`. The test is a bare prefix check, so
      `httpbin.org` is kept as it is. */
  function Href(url: string): (h: string)
    ensures StartsWith(h, "http")
    ensures EndsWith(h, url)
    ensures h == url <==> StartsWith(url, "http")
    ensures !StartsWith(url, "http") ==> h == "https://" + url
  {
    if StartsWith(url, "http") then url
    else
      var h := "https://" + url;
      assert h[..4] == "http";
      assert h[|h| - |url|..] == url;
      h
  }

  /** Coercing an already coerced link changes nothing. */
  lemma HrefIdempotent(url: string)
    ensures Href(Href(url)) == Href(url)
  {
  }

  /** `title || url`: the title when there is one, else the url; empty only
      when both are. */
  function LinkText(title: string, url: string): (t: string)
    ensures title != "" ==> t == title
    ensures title == "" ==> t == url
    ensures t == "" <==> title == "" && url == ""
  {
    if title != "" then title else url
  }

  /** The summary as shown: unchanged up to 300 characters, otherwise its
      first 300 characters followed by `...`. */
  function ShownSummary(summary: string): (r: string)
    ensures |summary| <= SummaryLimit ==> r == summary
    ensures |summary| > SummaryLimit ==> r == summary[..SummaryLimit] + "..."
    ensures |r| <= SummaryLimit + 3
    ensures StartsWith(r, summary[..if |summary| < SummaryLimit then |summary| else SummaryLimit])
  {
    if |summary| > SummaryLimit then summary[..SummaryLimit] + "..." else summary
  }

  /** Shortening is idempotent: a shown summary is shown as it is. */
  lemma {:induction false} ShownSummaryIdempotent(summary: string)
    ensures ShownSummary(ShownSummary(summary)) == ShownSummary(summary)
  {
    var r := ShownSummary(summary);
    if |summary| > SummaryLimit {
      assert r[..SummaryLimit] == summary[..SummaryLimit];
    }
  }

  /** Everything a card renders from one bookmark. */
  datatype CardView = CardView(
    href: string,
    linkText: string,
    urlLine: string,
    tagsLine: Option<string>,
    summaryLine: Option<string>,
    deleteId: string)

  /** `BookmarkCard`: the tags line appears only for a bookmark with tags and
      lists them joined by `", "`; the summary block appears only for a
      non-empty summary; the delete button reports the bookmark's own id. */
  function RenderCard(b: Bookmark): (v: CardView)
    ensures v.href == Href(b.url) && v.linkText == LinkText(b.title, b.url) && v.urlLine == b.url
    ensures v.tagsLine.Some? <==> b.tags != []
    ensures v.tagsLine.Some? ==> v.tagsLine.value == Join(b.tags, ", ")
    ensures v.summaryLine.Some? <==> b.summary != ""
    ensures v.summaryLine.Some? ==> v.summaryLine.value == ShownSummary(b.summary)
    ensures v.deleteId == b.id
  {
    CardView(
      Href(b.url),
      LinkText(b.title, b.url),
      b.url,
      if |b.tags| > 0 then Some(Join(b.tags, ", ")) else None,
      if b.summary != "" then Some(ShownSummary(b.summary)) else None,
      b.id)
  }

  /** The tags line of a card whose tags came from the add form reads back
      as the same tags, in the same order. */
  lemma TagsLineParsesBack(b: Bookmark)
    requires forall i :: 0 <= i < |b.tags| ==> IsTag(b.tags[i])
    ensures var v := RenderCard(b); v.tagsLine.Some? ==> ParseTags(v.tagsLine.value) == b.tags
  {
    if b.tags != [] {
      CommaSpace();
      ParseJoinedTags(b.tags, " ");
    }
  }

  /** Tags typed into the add form survive being shown on a card and typed
      in again: parsing is idempotent through the display. */
  lemma ParseShowParse(input: string)
    ensures ParseTags(Join(ParseTags(input), ", ")) == ParseTags(input)
  {
    CommaSpace();
    ParseJoinedTags(ParseTags(input), " ");
  }

  lemma CommaSpace()
    ensures "," + " " == ", " && AllSpace(" ")
  {
  }
}
