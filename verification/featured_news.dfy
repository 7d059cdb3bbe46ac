/**
 * The featured-news block of the home page: with at least three items it shows
 * the first one large and the next two beside it; otherwise nothing.
 */
module FeaturedNews {
  import opened Base

  datatype Item = Item(date: string, title: string, imageUrl: string, link: Option<string>)

  /** What is drawn: the main item and the side items. */
  datatype Layout = Layout(main: Item, side: seq<Item>)

  /** The selection rule: `None` renders nothing. */
  function Select(news: seq<Item>): (l: Option<Layout>)
    ensures l.None? <==> |news| < 3
    ensures l.Some? ==> l.value.main == news[0] && l.value.side == news[1..3]
  {
    if |news| < 3 then None
    else
      var side := news[1..];
      Some(Layout(news[0], side[..2]))
  }

  /** Items after the third play no part. */
  lemma SelectIgnoresRest(news: seq<Item>, more: seq<Item>)
    requires |news| >= 3
    ensures Select(news + more) == Select(news)
    ensures Select(news + more) == Select(news[..3])
  {
    assert (news + more)[1..3] == news[1..3] == news[..3][1..3];
  }

  /** `item.link || '#'` */
  function Href(item: Item): (h: string)
    ensures h != ""
    ensures item.link.Some? && item.link.value != "" ==> h == item.link.value
    ensures item.link.None? || item.link.value == "" ==> h == "#"
  {
    OrElse(item.link, "#")
  }
}
