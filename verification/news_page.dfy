/**
 * The news admin page: it reads every news row with its joined categories,
 * flattens each into the record the grid shows (the first category's name and
 * slug, or empty strings), splits the list into featured and regular news, and
 * re-reads the list after a successful delete.
 */
module NewsPage {
  import opened Base
  import opened Lists

  /** A joined `categories` row; its text columns may be null. */
  datatype Category = Category(id: string, name: Option<string>, slug: Option<string>)

  /** A row of the `news` read. `categories` is `None` when the join is null. */
  datatype NewsRow = NewsRow(id: string, title: string, slug: string, excerpt: string, content: string,
                             featuredImage: string, publishedAt: string, isFeatured: bool,
                             categories: Option<seq<Category>>)

  /** The record the page keeps; the content column is not carried over. */
  datatype NewsEntry = NewsEntry(id: string, title: string, slug: string, excerpt: string,
                                 featuredImage: string, publishedAt: string, isFeatured: bool,
                                 categoryName: string, categorySlug: string)

  /** `categories?.[0]` */
  function FirstCategory(cats: Option<seq<Category>>): (c: Option<Category>)
    ensures c.Some? <==> cats.Some? && |cats.value| > 0
    ensures c.Some? ==> c.value == cats.value[0]
  {
    if cats.Some? && |cats.value| > 0 then Some(cats.value[0]) else None
  }

  /** The formatting `map` applied to one row. */
  function Format(row: NewsRow): (e: NewsEntry)
    ensures e.id == row.id && e.title == row.title && e.slug == row.slug && e.excerpt == row.excerpt
    ensures e.featuredImage == row.featuredImage && e.publishedAt == row.publishedAt
    ensures e.isFeatured == row.isFeatured
    ensures FirstCategory(row.categories).None? ==> e.categoryName == "" && e.categorySlug == ""
    ensures FirstCategory(row.categories).Some? ==>
      e.categoryName == OrElse(FirstCategory(row.categories).value.name, "")
      && e.categorySlug == OrElse(FirstCategory(row.categories).value.slug, "")
  {
    var first := FirstCategory(row.categories);
    NewsEntry(row.id, row.title, row.slug, row.excerpt, row.featuredImage, row.publishedAt, row.isFeatured,
              if first.Some? then OrElse(first.value.name, "") else "",
              if first.Some? then OrElse(first.value.slug, "") else "")
  }

  /** `allNews.map(...)`: one entry per row, in the same order. */
  function FormatAll(rows: seq<NewsRow>): (entries: seq<NewsEntry>)
    ensures |entries| == |rows|
    ensures forall i :: 0 <= i < |rows| ==> entries[i] == Format(rows[i])
  {
    seq(|rows|, i requires 0 <= i < |rows| => Format(rows[i]))
  }

  predicate Featured(e: NewsEntry) { e.isFeatured }
  predicate Regular(e: NewsEntry) { !e.isFeatured }

  /** Every entry lands in exactly one of the two lists, each list keeps the
      fetched order, and together they hold all the entries. */
  lemma SplitSpec(entries: seq<NewsEntry>)
    ensures forall e :: e in Filter(entries, Featured) <==> e in entries && e.isFeatured
    ensures forall e :: e in Filter(entries, Regular) <==> e in entries && !e.isFeatured
    ensures |Filter(entries, Featured)| + |Filter(entries, Regular)| == |entries|
  {
    FilterMembers(entries, Featured);
    FilterMembers(entries, Regular);
    FilterComplement(entries, Featured, Regular);
  }

  class Page {
    var news: seq<NewsEntry>
    var featuredNews: seq<NewsEntry>
    var isLoading: bool

    constructor ()
      ensures news == [] && featuredNews == [] && isLoading
    {
      news := [];
      featuredNews := [];
      isLoading := true;
    }

    /** `fetchNews`: a failed read or a null result keeps both lists; a result
        replaces them with its regular and featured entries. */
    method FetchNews(read: Result<Option<seq<NewsRow>>>)
      modifies this`news, this`featuredNews, this`isLoading
      ensures read.Ok? && read.value.Some? ==>
        (news == Filter(FormatAll(read.value.value), Regular)
         && featuredNews == Filter(FormatAll(read.value.value), Featured))
      ensures !(read.Ok? && read.value.Some?) ==> news == old(news) && featuredNews == old(featuredNews)
      ensures !isLoading
    {
      if read.Ok? && read.value.Some? {
        var formatted := FormatAll(read.value.value);
        news := Filter(formatted, Regular);
        featuredNews := Filter(formatted, Featured);
      }
      isLoading := false;
    }

    /** `handleDelete`: the list is read again only when the delete succeeded.
        `reread` is the reply that second read would get. */
    method HandleDelete(deleted: Outcome, reread: Result<Option<seq<NewsRow>>>) returns (refetched: bool)
      modifies this`news, this`featuredNews, this`isLoading
      ensures refetched <==> deleted.Pass?
      ensures !refetched ==>
        (news == old(news) && featuredNews == old(featuredNews) && isLoading == old(isLoading))
      ensures refetched && reread.Ok? && reread.value.Some? ==>
        (news == Filter(FormatAll(reread.value.value), Regular)
         && featuredNews == Filter(FormatAll(reread.value.value), Featured))
      ensures refetched && !(reread.Ok? && reread.value.Some?) ==>
        news == old(news) && featuredNews == old(featuredNews)
      ensures refetched ==> !isLoading
    {
      refetched := deleted.Pass?;
      if refetched {
        FetchNews(reread);
      }
    }
  }
}
