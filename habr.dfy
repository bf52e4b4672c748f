/** The Habr news-list normaliser (app/news_parser/habr.py). HTML selection
    is abstracted away: a page is the list of its article cards, each with
    the fields `parser_list_html` extracts from it. */
module Habr {
  import opened Wrappers
  import opened Text
  import opened Models
  import opened UrlUtils
  import opened Selection

  const BaseUrl := "https://habr.com"
  const NoTitle := "(no title)"
  const SourceName := "habr"
  const SummaryMax: nat := 5000

  /** What a card holding no `<time>` or no `<p>` element raises: the
      attribute lookup on `None` fails. */
  const NoTimeError := "'NoneType' object has no attribute 'get'"
  const NoParagraphError := "'NoneType' object has no attribute 'get_text'"

  /** One `article.tm-articles-list__item` card: its title link (the `<a>`
      of class `tm-title__link`, if any), the date parsed from its `<time>`
      element (if there is one; date parsing itself is not modelled), and
      the stripped text of its first `<p>` (if there is one). */
  datatype Card = Card(titleLink: Option<Anchor>, time: Option<Timestamp>, paragraph: Option<string>)

  /** What one card contributes: nothing, an exception that aborts the
      whole page, or one news item. */
  datatype CardOutcome = Skip | Crash(error: string) | Item(item: NewsItem)

  /** The body of the loop in `parser_list_html` for one card. A card is
      skipped exactly when its title link is missing or has no `href`; a
      card with a link raises exactly when it has no `<time>` or no `<p>`. */
  function NormaliseCard(card: Card, sha: Hash): (o: CardOutcome)
    ensures o.Skip? <==> !HasHref(card.titleLink)
    ensures o.Crash? <==> Crashes(card)
  {
    var link := GetFullUrl(card.titleLink, BaseUrl);
    if link.None? then Skip
    else if card.time.None? then Crash(NoTimeError)
    else if card.paragraph.None? then Crash(NoParagraphError)
    else
      var publishedAt := card.time.value;
      var summary := Take(card.paragraph.value, SummaryMax);
      var title := card.titleLink.value.text;
      // `link or f"{title}|habr|{published_at.isoformat()}"`
      var fpBase := if link.value != "" then link.value else title + "|habr|" + publishedAt.iso;
      Item(NewsItem(
        title := if Take(title, TitleMax) != "" then Take(title, TitleMax) else NoTitle,
        url := if link.value != "" then Some(Take(link.value, UrlMax)) else None,
        summary := if summary != "" then summary else title,
        source := SourceName,
        publishedAt := publishedAt,
        rawText := None,
        fingerprint := sha(fpBase)))
  }

  /** A card's item, if it yields one. */
  function CardItem(sha: Hash): Card -> Option<NewsItem>
  {
    (card: Card) => if NormaliseCard(card, sha).Item? then Some(NormaliseCard(card, sha).item) else None
  }

  /** The card raises while being normalised: it has a link, but no
      `<time>` or no `<p>`. */
  predicate Crashes(card: Card)
  {
    HasHref(card.titleLink) && (card.time.None? || card.paragraph.None?)
  }

  /** The index of the first card that raises, or `|cards|` when none does. */
  function FirstCrash(cards: seq<Card>): (k: nat)
    ensures k <= |cards|
    ensures forall j :: 0 <= j < k ==> !Crashes(cards[j])
    ensures k < |cards| ==> Crashes(cards[k])
  {
    if cards == [] then 0
    else if Crashes(cards[0]) then 0
    else 1 + FirstCrash(cards[1..])
  }

  /** The result of `parser_list_html` for a page: the first raising card
      aborts the page with its exception; otherwise one item per card that
      is not skipped, in card order. */
  function ParseCards(cards: seq<Card>, sha: Hash): (r: Result<seq<NewsItem>, string>)
    ensures r.Err? <==> exists j :: 0 <= j < |cards| && Crashes(cards[j])
    ensures r.Ok? ==> |r.value| <= |cards|
  {
    var k := FirstCrash(cards);
    if k < |cards| then Err(NormaliseCard(cards[k], sha).error)
    else Ok(FilterMap(CardItem(sha), cards))
  }

  /** `parser_list_html`: the loop over cards, appending each item. */
  method ParserListHtml(cards: seq<Card>, sha: Hash) returns (r: Result<seq<NewsItem>, string>)
    ensures r == ParseCards(cards, sha)
  {
    var newsItems: seq<NewsItem> := [];
    for i := 0 to |cards|
      invariant forall j :: 0 <= j < i ==> !Crashes(cards[j])
      invariant newsItems == FilterMap(CardItem(sha), cards[..i])
    {
      var outcome := NormaliseCard(cards[i], sha);
      if outcome.Crash? {
        FirstCrashAt(cards, i);
        return Err(outcome.error);
      }
      CardStep(cards, sha, i);
      if outcome.Item? {
        newsItems := newsItems + [outcome.item];
      }
    }
    assert cards[..|cards|] == cards;
    FirstCrashAt(cards, |cards|);
    r := Ok(newsItems);
  }

  /** One step of the loop over cards: a card that does not raise adds its
      item, if any, to the items of the cards before it. */
  lemma CardStep(cards: seq<Card>, sha: Hash, i: nat)
    requires i < |cards| && !NormaliseCard(cards[i], sha).Crash?
    ensures var o := NormaliseCard(cards[i], sha);
      FilterMap(CardItem(sha), cards[..i + 1])
        == FilterMap(CardItem(sha), cards[..i]) + (if o.Item? then [o.item] else [])
  {
    var o := NormaliseCard(cards[i], sha);
    FilterMapStep(CardItem(sha), cards, i);
    assert CardItem(sha)(cards[i]) == (if o.Item? then Some(o.item) else None);
  }

  /** The first raising card is the one after a run of cards that do not. */
  lemma {:induction false} FirstCrashAt(cards: seq<Card>, k: nat)
    requires k <= |cards|
    requires forall j :: 0 <= j < k ==> !Crashes(cards[j])
    requires k < |cards| ==> Crashes(cards[k])
    ensures FirstCrash(cards) == k
  {
    if k > 0 {
      FirstCrashAt(cards[1..], k - 1);
    }
  }

  /** The outcome of the HTTP request for the news list page. */
  datatype HttpOutcome = RequestFailed(reason: string) | Response(statusCode: int, cards: seq<Card>)

  /** `fetch_news_list`: a failed request or a status other than 200 gives
      an empty list; otherwise the page is parsed, and an exception raised
      while parsing propagates. */
  method FetchNewsList(http: HttpOutcome, sha: Hash) returns (r: Result<seq<NewsItem>, string>)
    ensures http.RequestFailed? ==> r == Ok([])
    ensures http.Response? && http.statusCode != 200 ==> r == Ok([])
    ensures http.Response? && http.statusCode == 200 ==> r == ParseCards(http.cards, sha)
  {
    if http.RequestFailed? {
      return Ok([]);
    }
    if http.statusCode != 200 {
      return Ok([]);
    }
    r := ParserListHtml(http.cards, sha);
  }

  // ------------------------------------------------------------ properties

  /** The fields of a card's item. The fingerprint hashes the full link,
      while the stored url is cut to 1024 characters; since a link reaching
      this point is never empty, the `title|habr|date` fallback is never used. */
  lemma {:induction false} CardItemFields(card: Card, sha: Hash)
    requires NormaliseCard(card, sha).Item?
    ensures var it := NormaliseCard(card, sha).item;
      var link := GetFullUrl(card.titleLink, BaseUrl).value;
      var title := card.titleLink.value.text;
      && it.fingerprint == sha(link)
      && it.url == Some(Take(link, UrlMax))
      && 0 < |it.title| <= TitleMax
      && (title != "" ==> it.title == Take(title, TitleMax))
      && (title == "" ==> it.title == NoTitle)
      && (card.paragraph.value != "" ==> it.summary == Take(card.paragraph.value, SummaryMax))
      && (card.paragraph.value == "" ==> it.summary == title)
      && it.source == SourceName && it.rawText == None
      && it.publishedAt == card.time.value
  {
    var link := GetFullUrl(card.titleLink, BaseUrl);
    assert link.Some? && link.value != "";
    var title := card.titleLink.value.text;
    assert title != "" ==> Take(title, TitleMax) != "";
    assert card.paragraph.value != "" ==> Take(card.paragraph.value, SummaryMax) != "";
  }

  /** A page either raises exactly when one of its cards does, or yields the
      items of its linked cards in card order, at most one per card. */
  lemma {:induction false} ParseCardsOutcome(cards: seq<Card>, sha: Hash)
    ensures ParseCards(cards, sha).Err? <==> exists j :: 0 <= j < |cards| && Crashes(cards[j])
    ensures ParseCards(cards, sha).Ok? ==>
      var items := ParseCards(cards, sha).value;
      && |items| <= |cards|
      && exists idx :: Selects(CardItem(sha), cards, items, idx)
  {
    if ParseCards(cards, sha).Ok? {
      var idx := FilterMapSelects(CardItem(sha), cards);
    }
  }

  /** Every item of a parsed page comes from a linked card and fits the
      `news_items` columns when the hash is a 64-character digest. */
  lemma {:induction false} ParseCardsFit(cards: seq<Card>, sha: Hash, k: nat)
    requires IsHexDigest(sha)
    requires ParseCards(cards, sha).Ok? && k < |ParseCards(cards, sha).value|
    ensures var it := ParseCards(cards, sha).value[k];
      FitsColumns(it) && it.title != "" && it.source == SourceName && it.rawText == None
  {
    var items := ParseCards(cards, sha).value;
    FilterMapFrom(CardItem(sha), cards, k);
    var j :| 0 <= j < |cards| && CardItem(sha)(cards[j]) == Some(items[k]);
    CardItemFields(cards[j], sha);
  }
}
