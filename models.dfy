/** The persisted entities of the pipeline (app/models.py) as values. The
    column bounds and uniqueness constraints of the relational schema are
    predicates here; module Pipeline keeps them as invariants of the store. */
module Models {
  import opened Wrappers

  /** `SourceType`: a source is either a site feed or a Telegram channel. */
  datatype SourceType = Site | Tg

  /** `PostStatus`: the four states of a post. */
  datatype PostStatus = New | Generated | Published | Failed

  /** A point in time, known only through its ISO-8601 rendering
      (`datetime.isoformat()`); timestamps are never compared or computed
      on in the pipeline. */
  datatype Timestamp = Timestamp(iso: string)

  /** A configured origin: `url` is a site address or a channel name such
      as `@channel`. */
  datatype Source = Source(id: nat, kind: SourceType, name: string, url: string, enabled: bool)

  datatype Keyword = Keyword(id: nat, word: string)

  /** A news item. The normalisers produce exactly these fields (the item
      dictionaries are passed to `NewsItem(**it)`), so the same value serves
      as candidate and as stored row; the row's id is its key in the store. */
  datatype NewsItem = NewsItem(
    title: string,
    url: Option<string>,
    summary: string,
    source: string,
    publishedAt: Timestamp,
    rawText: Option<string>,
    fingerprint: string)

  /** A post: the processing record of one news item. */
  datatype Post = Post(
    newsId: nat,
    generatedText: Option<string>,
    publishedAt: Option<Timestamp>,
    status: PostStatus,
    error: Option<string>)

  /** SHA-256 as a hex digest (`sha256_hex`), supplied by the caller: nothing
      is assumed about it. */
  type Hash = string -> string

  const TitleMax: nat := 512
  const UrlMax: nat := 1024
  const FingerprintMax: nat := 64

  /** The declared column widths of `news_items`: `title` String(512),
      `url` String(1024), `fingerprint` String(64). */
  predicate FitsColumns(n: NewsItem)
  {
    |n.title| <= TitleMax
    && (n.url.Some? ==> |n.url.value| <= UrlMax)
    && |n.fingerprint| <= FingerprintMax
  }

  /** A hex SHA-256 digest is always 64 characters long. */
  ghost predicate IsHexDigest(sha: Hash)
  {
    forall s :: |sha(s)| == FingerprintMax
  }

  /** A fresh post for a news item: status `new` (the column default), no
      text, no publication time, no error. */
  function NewPost(newsId: nat): Post
  {
    Post(newsId, None, None, New, None)
  }
}
