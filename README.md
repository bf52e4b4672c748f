# A verified model of the news-to-Telegram pipeline

This project models the core of a service that collects news, generates Telegram posts from it, and publishes them. It has three parts.

1. **Collect.** Every enabled source is parsed: a site with the Habr list-page normaliser, a Telegram channel with the message normaliser. A keyword gate filters the items. Each item is inserted as a news item, deduplicated on its fingerprint, with one post in status `new`. Then a generate task is enqueued per recorded id.
2. **Generate.** The AI generator is called with a bounded retry policy. The post stores the text and becomes `generated`, and a publish task is enqueued. If generation fails, the post is marked `failed`.
3. **Publish.** The text is sent to the channel and the post becomes `published`, or `failed` if the send fails.

## Modules

- `wrappers.dfy` (`Wrappers`): `Option` and `Result`.
- `text.dfy` (`Text`): the Python string operations the code relies on. These are slicing, `startswith`, substring `in`, `lower`, `strip`, `splitlines()[0]` and `str(n)`.
- `models.dfy` (`Models`): the entities of `app/models.py` as datatypes, and the declared column widths.
- `url_utils.dfy` (`UrlUtils`): `get_full_url`.
- `selection.dfy` (`Selection`): the "skip some, keep the others in order" shape shared by both normalisers.
- `habr.dfy` (`Habr`): the per-card body of `parser_list_html`, its loop, and `fetch_news_list`.
- `telegram.dfy` (`Telegram`): the per-message body of `_parse_tg_async`, its loop, and the credential guard of `parse_tg_source`.
- `generator.dfy` (`Generator`): the retry loop of `generate_telegram_post`. Sleeps go into a ghost log, in milliseconds.
- `pipeline.dfy` (`Pipeline`): the store and the three tasks as functions on the database state, with their invariants.
- `tasks.dfy` (`Tasks`): class `Store` runs the three tasks step by step, with imperative loops. Each method is proved equal to its `Pipeline` function and to keep the schema.

### How the store is modelled

The database session holds two kinds of rows:

- committed rows;
- rows that were added and flushed but not yet committed.

It also holds one id counter per table, and a rollback does not rewind these counters.

`DbValid` holds the schema constraints:

- fingerprints are unique;
- each news item has at most one post;
- `posts.news_id` is a foreign key;
- every id is below its counter.

`Paired` says every news item has exactly one post.

`.delay` appends a `Task` to the store's queue.

### Behaviour worth knowing

- **One commit per collect run.** The collect task commits once per run (`app/tasks.py:89`). A failing flush rolls back the whole transaction; see Findings.
- **Chained tasks.** Tasks are chained collect → generate → publish through `.delay`; nothing selects posts by status.
- **No status guard in generate.** Generate overwrites any status with `generated`, including `published` (`Pipeline.GenerateOverwritesAnyStatus`).
- **Two guards in publish.** Publish refuses only `published` posts and posts without text. A `failed` post that has text is sent again.
- **Column widths are not enforced by the store.** SQLite does not check `VARCHAR` lengths. The widths of `news_items` hold because the normalisers cut every field to fit (`Pipeline.NormalisedItemsFit`), and every task keeps them (`Pipeline.ColumnsFit`).

## Model

| member | source | states |
|---|---|---|
| Text.Take | app/news_parser/habr.py:49 | `s[:n]` is the prefix of `s` of length `min(n, len(s))` |
| Text.Strip | app/news_parser/telegram.py:31 | `str.strip()` result is a contiguous piece of the input that starts and ends with a non-space; everything removed is whitespace; the result is empty exactly when the input is all whitespace |
| Text.StripPieces | app/news_parser/telegram.py:31 | the kept piece starts where `lstrip` stopped; everything before and after it is whitespace |
| Text.FirstLine | app/news_parser/telegram.py:32 | `splitlines()[0]` is the longest prefix without a line break, and the character after it is a line break |
| Text.FirstLineOfStripped | app/news_parser/telegram.py:32 | a stripped non-empty text has a non-empty first line, so the title is non-empty |
| Text.Lower | app/tasks.py:49-50 | lower-casing maps each character and keeps the length |
| Text.LowerIdempotent | app/tasks.py:49-50 | lower-casing twice is lower-casing once |
| Text.Decimal | app/news_parser/telegram.py:45 | `str(msg.id)` is a non-empty string of decimal digits with no leading zero, and is "0" exactly for 0 |
| Text.DecimalRoundTrip | app/news_parser/telegram.py:45 | reading `str(n)` back gives `n` |
| Text.DecimalInjective | app/news_parser/telegram.py:45 | distinct ids render as distinct strings |
| UrlUtils.GetFullUrl | app/news_parser/utils.py:8-17 | the result is present exactly when the tag exists and has a non-empty `href`, and is then never empty |
| UrlUtils.FullUrlShape | app/news_parser/utils.py:15-17 | an `http://`/`https://` href is returned unchanged, any other one is appended to the base with no separator handling |
| Selection.FilterMap | app/news_parser/habr.py:29-56 | the loop that skips some records and appends one item for each other record gives at most one item per record |
| Selection.SelectsSkip | app/news_parser/habr.py:29-56 | a skipped last record leaves any selection of the others standing |
| Selection.SelectsAppend | app/news_parser/habr.py:29-56 | a kept last record appends its index, and its image, to any selection of the others |
| Selection.FilterMapSelects | app/news_parser/habr.py:29-56 | each output item is the image of an input record, in increasing input order, and every input record not used was skipped |
| Habr.NormaliseCard | app/news_parser/habr.py:31-40 | a card is skipped exactly when its title link has no `href`; a linked card raises exactly when it has no `<time>` or no `<p>` |
| Habr.CardItemFields | app/news_parser/habr.py:42-56 | fingerprint is SHA-256 of the full link, url is the link cut to 1024 (the `title|habr|date` fallback is unreachable), title cut to 512 or '(no title)', summary cut to 5000 or the untruncated title, source 'habr', raw_text None, published_at from `<time>` |
| Habr.CardStep | app/news_parser/habr.py:29-56 | a card that does not raise adds its item, if any, after the items of the cards before it |
| Habr.FirstCrash | app/news_parser/habr.py:29-40 | the index of the first card that raises, all cards before it not raising |
| Habr.FirstCrashAt | app/news_parser/habr.py:29-40 | the first raising card is the one that ends a run of non-raising cards |
| Habr.ParseCards | app/news_parser/habr.py:24-58 | a page raises exactly when one of its cards does, and otherwise yields at most one item per card |
| Habr.ParserListHtml | app/news_parser/habr.py:24-58 | the loop over cards returns the page result: the first raising card aborts with its error, otherwise one item per linked card in card order |
| Habr.ParseCardsOutcome | app/news_parser/habr.py:29-58 | a page raises exactly when one of its cards does; otherwise it yields at most one item per card, in card order, skipping exactly the unlinked cards |
| Habr.ParseCardsFit | app/news_parser/habr.py:48-56 | every item of a page fits the `news_items` columns (given a 64-character digest), has a non-empty title, source 'habr' and no raw text |
| Habr.FetchNewsList | app/news_parser/habr.py:61-74 | a request exception or a non-200 status gives `[]`; otherwise the page is parsed and a parse exception propagates |
| Telegram.ParseTgAsync | app/news_parser/telegram.py:20-61 | the loop reads at most 30 objects and appends one item per message with text, in order; a client failure propagates |
| Telegram.ParseTgSource | app/news_parser/telegram.py:13-17 | without `TG_API_ID` or `TG_API_HASH` the result is `[]` whatever the channel holds; otherwise it is the channel's items, at most 30 |
| Telegram.MessageLink | app/news_parser/telegram.py:42-47 | a link is built exactly for an entity written `@name`, and it is `https://t.me/`, the name without its `@`, a slash and the message id in decimal |
| Telegram.NormaliseMessage | app/news_parser/telegram.py:26-59 | an object is skipped exactly when it is not a message or has no text; an item names the source, keeps the message date, has a raw text and a summary of at most 5000 characters, and has a url exactly when the source is an `@name` entity |
| Telegram.MessageItemFields | app/news_parser/telegram.py:26-59 | non-messages and messages without text are skipped; title is the first line of the stripped text cut to 140, or '(no title)'; url and fingerprint from the `t.me` link if there is one, else the fingerprint of `name|id|date`; summary `text[:5000]`, raw_text `text[:10000]`, source the source name |
| Telegram.MessageLinkDistinct | app/news_parser/telegram.py:42-47 | a link is built exactly for an entity starting with '@', and two messages of one channel share a link only if they share an id |
| Telegram.MessageItemFits | app/news_parser/telegram.py:51-58 | a message with non-empty text yields an item, and that item fits the `news_items` columns given a 64-character digest |
| Telegram.ChannelItemsFit | app/news_parser/telegram.py:51-59 | every item read from a channel fits the columns and names the channel as its source |
| Generator.LeadingFailures | app/ai/generator.py:43-57 | the number of retryable failures before the first other outcome |
| Generator.Backoff | app/ai/generator.py:57 | after failed attempt k (0-based) the sleep is 1.5·(k+1) s |
| Generator.GenerateTelegramPost | app/ai/generator.py:31-63 | a client failure raises before any call; otherwise the result, the number of API calls and the sleep log are those of the retry policy; every call is sent the same user prompt, built from the item's title, summary, source and url (or "") |
| Generator.RetryOutcome | app/ai/generator.py:43-63 | the loop never reports a client failure; a success comes from a completion with content within the first five attempts; a non-retryable error comes from an attempt within the first five that is not retryable |
| Generator.StopsAt | app/ai/generator.py:43-63 | when attempt k is the first non-retryable one, k+1 calls are made and its outcome decides: stripped content, the missing-content error, or the re-raised error; after five retryable failures, five calls and the last error |
| Generator.FailureText | app/ai/generator.py:59-63 | the text stored in `posts.error` on failure (`str(e)`): the stopping attempt's message, the missing-content error, or the fifth failure's message behind "OpenAI failed after retries: " |
| Generator.LeadingFailuresAt | app/ai/generator.py:43-57 | the count of leading failures is where the first non-retryable outcome sits |
| Generator.RetryPolicy | app/ai/generator.py:43-63 | between one and five calls; the first success returns its stripped content; a non-retryable error re-raises at once; retries are exhausted exactly when all five attempts fail retryably |
| Generator.BackoffLinear | app/ai/generator.py:57 | each sleep is 1.5 s longer than the one before, and at most 22.5 s are slept in all |
| Generator.SumBackoff | app/ai/generator.py:57 | the first n sleeps total 750·n·(n+1) ms |
| Pipeline.AnyKeywordIn | app/tasks.py:50 | `any(...)` holds exactly when some keyword, lower-cased, occurs in the text |
| Pipeline.PassesKeywordFilter | app/tasks.py:45-50 | with no keywords everything passes; otherwise the text passes exactly when some lower-cased keyword is a substring of the lower-cased text |
| Pipeline.GateIgnoresCase | app/tasks.py:49-50 | the gate gives the same answer for a text and its lower-cased form |
| Pipeline.FullText | app/tasks.py:72 | the gate's text contains the title, the summary and the raw text when there is one, separated by single newlines (two in all) |
| Pipeline.ParseSource | app/tasks.py:63-66 | a `site` source goes to the site parser; every other kind goes to the Telegram parser |
| Pipeline.IngestItem | app/tasks.py:72-87 | a candidate is recorded exactly when it passes the gate and its fingerprint is neither stored nor flushed; then it takes the next id and is flushed with a `new` post; otherwise the session is unchanged, or, under the code's rollback, loses its uncommitted rows when the candidate passed the gate |
| Pipeline.CollectRun | app/tasks.py:53-89 | the run ends with its single commit, leaving nothing uncommitted |
| Pipeline.EnabledSources | app/tasks.py:58 | exactly the sources with `enabled` set are selected |
| Pipeline.IngestItemKeepsRunInv | app/tasks.py:71-87 | one candidate keeps the schema and the run invariant, and records its id only when it passed the gate and flushed |
| Pipeline.IngestItemsKeepRunInv | app/tasks.py:71-87 | the inner loop over one source's items keeps the run invariant |
| Pipeline.CollectSourcesKeepRunInv | app/tasks.py:61-87 | the outer loop over enabled sources keeps the run invariant, a raising parser skipping only its source |
| Pipeline.RunInvStart | app/tasks.py:56-59 | a run starts from a quiescent valid state with no recorded ids |
| Pipeline.RollbackKeepsRunInv | app/tasks.py:78-82 | the rollback after a failed flush keeps the schema and the run invariant |
| Pipeline.InsertKeepsSchema | app/tasks.py:76-87 | a successful flush and the `new` post added after it keep unique fingerprints, one post per news item and pairing |
| Pipeline.InsertKeepsFingerprintsUnique | app/tasks.py:76-79 | a flush that succeeds keeps fingerprints unique |
| Pipeline.InsertKeepsPosts | app/tasks.py:84-87 | the post added for a new item keeps one post per item and pairs the item |
| Pipeline.OnePostPerNewsAdd | app/models.py:69-73 | a post for a news item that had none keeps `posts.news_id` unique |
| Pipeline.CommitKeepsSchema | app/tasks.py:89 | the commit keeps the schema, leaves nothing uncommitted, and the posts' items grow by exactly the committed items |
| Pipeline.CommitRunSchema | app/tasks.py:89 | after a run's commit the earlier rows are unchanged, the new posts are `new` and belong exactly to the new items |
| Pipeline.CommitRunNews | app/tasks.py:89 | after a run's commit every new item was recorded, passed the gate and has a fingerprint no earlier item had |
| Pipeline.CollectRunProperties | app/tasks.py:53-94 | a collect run keeps the schema and pairing and changes no existing row; each new item passed the gate, came from an enabled source's parser, has a fresh fingerprint, was recorded, and has exactly one `new` post; the recorded ids are increasing and fresh |
| Pipeline.RollbackLosesEarlierItems | app/tasks.py:76-89 | as written: an item accepted before a duplicate in the same run is recorded but not committed |
| Pipeline.SavepointKeepsRecordedItems | app/tasks.py:76-92 | with a per-candidate rollback, every recorded id names a committed item that has its post |
| Pipeline.SavepointStoresEveryCandidate | app/tasks.py:61-89 | with a per-candidate rollback, every item an enabled source yields that passes the gate has its fingerprint committed by the run |
| Pipeline.IngestItemStores | app/tasks.py:72-87 | with a per-candidate rollback, a candidate keeps every stored fingerprint and stores its own when it passes the gate |
| Pipeline.IngestItemsStore | app/tasks.py:71-87 | the same for the inner loop over one source's items |
| Pipeline.CollectSourcesStore | app/tasks.py:61-87 | the same for the outer loop over the sources whose parser succeeds |
| Pipeline.CommitKeepsStored | app/tasks.py:89 | a stored or flushed fingerprint is committed by the commit |
| Pipeline.CollectRunKeepsColumns | app/tasks.py:53-89 | a collect run keeps every stored item within the `news_items` widths (title 512, url 1024, fingerprint 64) when every parsed item fits |
| Pipeline.NormalisedItemsFit | app/models.py:46-55 | every item a Habr page or a channel's first 30 messages yield fits those widths, given a 64-character digest |
| Pipeline.StepsKeepColumns | app/tasks.py:100-169 | generate and publish change posts only, so they keep the widths |
| Pipeline.GenerateTasks | app/tasks.py:91-92 | one generate task per recorded id, in order |
| Pipeline.GenerateStep | app/tasks.py:100-135 | generate changes no news item and leaves nothing uncommitted behind; unknown news gives the not-found error and changes nothing; it re-raises exactly on a generator failure for known news and enqueues a publish task exactly on success |
| Pipeline.PublishStep | app/tasks.py:140-169 | publish enqueues nothing and changes no news item and no set of posts; a post that passes no guard is left unchanged; it reports success exactly when the post is sent and the send succeeds, and re-raises exactly when the send fails |
| Pipeline.PostOf | app/tasks.py:108-110 | the post of a news item is found exactly when one exists, and belongs to that item |
| Pipeline.GenerateKeepsSchema | app/tasks.py:100-135 | generate keeps the schema and pairing and leaves nothing uncommitted |
| Pipeline.GenerateOutcome | app/tasks.py:104-135 | unknown news returns an error and changes nothing; success gives the item's post (created only if missing) the text, `generated` and no error whatever its status, and enqueues its publish task; failure marks an existing post `failed` with the message and re-raises; no news item and no other post changes |
| Pipeline.GenerateOverwritesAnyStatus | app/tasks.py:117-123 | a `published` or `failed` post goes back to `generated` on a new generation, and its publish task is enqueued again |
| Pipeline.UpdatePostKeepsSchema | app/tasks.py:118-121 | updating a post in place keeps the schema and pairing |
| Pipeline.PublishKeepsSchema | app/tasks.py:140-169 | publish keeps the schema and pairing and leaves nothing uncommitted |
| Pipeline.PublishOutcome | app/tasks.py:144-169 | a missing post, a `published` one (skipped) and one without text (error) are left unchanged and nothing is sent; a `failed` post with text is sent; success sets `published`, the time and no error; a send failure sets `failed` with the message and re-raises; no other row changes |
| Pipeline.PublishIdempotent | app/tasks.py:148-149 | once published, publishing again sends nothing, changes nothing and reports a skip |
| Pipeline.NoStepResetsToNew | app/tasks.py:117-169 | neither generate nor publish ever puts a post into status `new` |
| Tasks.Store.constructor | app/models.py:41-83 | an empty store satisfies the schema |
| Tasks.Store.FlushNews | app/tasks.py:76-79 | the flush fails exactly on a fingerprint already stored or flushed, changing nothing; otherwise the item takes the next id |
| Tasks.Store.AddPost | app/tasks.py:86-87 | the post is added uncommitted and takes the next id |
| Tasks.Store.RollbackSession | app/tasks.py:81 | the rollback discards every uncommitted row |
| Tasks.Store.CommitSession | app/tasks.py:89 | the commit makes every uncommitted row committed |
| Tasks.Store.FindPost | app/tasks.py:108-110 | the query finds the news item's post |
| Tasks.Store.IngestCandidate | app/tasks.py:72-87 | one candidate's gate, flush, rollback and post do what `Pipeline.IngestItem` says |
| Tasks.Store.IngestSource | app/tasks.py:71-87 | the inner loop does what `Pipeline.IngestItems` says |
| Tasks.Store.IngestSources | app/tasks.py:61-87 | the outer loop does what `Pipeline.CollectSources` says |
| Tasks.Store.EnqueueGenerateTasks | app/tasks.py:91-92 | one generate task is appended per recorded id, in order, and no row changes |
| Tasks.Store.RunPipeline | app/tasks.py:53-97 | the run leaves the state `Pipeline.CollectRun` gives, enqueues one generate task per recorded id, returns the count of recorded ids, keeps the schema and pairing, and keeps the column widths when every parsed item fits |
| Tasks.Store.GenerateSucceeded | app/tasks.py:112-124 | a successful generation updates or creates the post, commits and enqueues publish as `Pipeline.GenerateStep` says |
| Tasks.Store.GenerateFailed | app/tasks.py:126-135 | a failed generation rolls back and marks the existing post `failed` as `Pipeline.GenerateStep` says |
| Tasks.Store.GeneratePost | app/tasks.py:100-137 | the task does what `Pipeline.GenerateStep` says and keeps the schema, pairing and column widths |
| Tasks.Store.PublishPost | app/tasks.py:140-171 | the task does what `Pipeline.PublishStep` says, sends exactly the text `Pipeline.PublishSends` names, and keeps the schema, pairing and column widths |

## Left out

- Celery and Redis wiring (`app/tasks.py:22-38`, `celery_worker.py`): the app, beat schedule and routing. `.delay` is an append to `Store.queue`. Nothing runs the queue; each task is a method called with its arguments.
- SQLAlchemy engine and sessions (`app/database.py`): a session is the store's uncommitted rows. Id counters are never rewound, so a rolled-back id is not reused. SQLite can hand out a rolled-back highest rowid again; that is not modelled. Under it, the finding below plays out differently: the next item to flush takes the lost id, `created_news_ids` holds that id twice, and the generate task for it finds the later item. `db.close()` and failures of `commit()` itself are not modelled.
- HTML and Telegram extraction: BeautifulSoup selection is replaced by `Habr.Card`, and Telethon's `iter_messages` by a list of `Telegram.TgObject`. The `Anchor` text and the paragraph text arrive already stripped. `app/news_parser/http_client.py`, `strip_html` and `app/telegram/bot.py` are not part of this model.
- `app/news_parser/sites.py`: it picks a fetcher and does I/O. It is folded into the `parseSite` parser parameter of the collect task, and so is `parse_tg_source` as `parseTg`.
- Dates: `parse_date`, `datetime.utcnow`/`now` and timezone conversion. A `Timestamp` is an opaque ISO string, so the `now` fallback for a message without a date is the caller's choice. Publish takes `now` as a parameter. One `Timestamp` stands for two strings in `_parse_tg_async`: the fingerprint base uses the timezone-aware `isoformat()` (with its `+00:00` offset), while the stored `published_at` is the naive UTC value. The model does not tell them apart, so it does not capture that the two differ.
- SHA-256 (`app/utils.py`) is a function parameter of type `Models.Hash`. Nothing is assumed about it; the column-width lemmas take as a hypothesis that it yields 64 characters.
- `publish_to_channel` (`app/telegram/publisher.py`) is an `Ok`/`Err` outcome. Its dry-run branch is an `Ok`.
- The OpenAI client (`app/ai/openai_client.py`): its creation failing is the `clientError` parameter, and each completion call is a given `Generator.Attempt`. The prompt wording and the model settings are not modelled, only the prompt's fields.
- `Generator.GenerateTelegramPost`: `time.sleep` is not taken. The sleeps are recorded in a ghost log in milliseconds.
- `Text.Lower`: Python's `str.lower` follows the full Unicode case table. The model lowers ASCII `A`-`Z` and the Cyrillic capitals U+0400..U+042F only.
- `Tasks.Store.GeneratePost`: the generator's result arrives as `Ok(text)` or `Err(str(e))`. `Generator.FailureText` states which text that is for each way the retry loop fails, but the two modules are not composed into one call.
- `Pipeline.PostOf`: `order_by(desc(Post.id)).first()` picks the post with the largest id. `posts.news_id` is unique, so there is at most one candidate and the ordering is not modelled.
- Column widths of `sources.name`/`sources.url` and `keywords.word`, the `created_at` columns, and the defaults of `Source.enabled` and `NewsItem.published_at` are not modelled. The pipeline never relies on them.
- The FastAPI endpoints and schemas, configuration and logging are not modelled.
- Exceptions other than those named here are not modelled: a parser's, the generator's and the send's are. Examples are a failure inside `get_openai_client` after creation, or a database error.

## Findings

| source | as written | input that shows it | evidently intended | confidence | as-written member | corrected member |
|---|---|---|---|---|---|---|
| app/tasks.py:78-84 | a failed flush (a duplicate fingerprint) calls `db.rollback()`, which discards every uncommitted news item and post of the run, yet their ids stay in `created_news_ids` and still get generate tasks, which, given an id sequence that a rollback does not rewind, find no news item | an enabled site source whose parser yields an item with a new fingerprint followed by an item whose fingerprint is already stored, with an empty keyword table | roll back only the failing candidate (a savepoint per flush), so that every recorded id names a committed item that has its post | not executed | Pipeline.RollbackLosesEarlierItems | Pipeline.SavepointKeepsRecordedItems |

Under SQLite's rowid reuse, the lost id can be taken by a later item of the same run. Its generate task then finds that later item, and the run enqueues two generate tasks for it.

The collect task is modelled with its rollback scope as a parameter (`Pipeline.RollbackScope`). The code's behaviour is `WholeTransaction`, and the corrected one is `Savepoint`. `SavepointKeepsRecordedItems`, `SavepointStoresEveryCandidate` and its helpers `IngestItemStores`, `IngestItemsStore` and `CollectSourcesStore` hold only under `Savepoint`: under `WholeTransaction` a later duplicate's rollback discards an item flushed earlier. `RollbackLosesEarlierItems` is about `WholeTransaction`. The other lemmas about a collect run hold for both scopes. Under `Savepoint`, `Pipeline.SavepointStoresEveryCandidate` also shows that no candidate is lost: every item that passes the gate ends up committed, or an item with its fingerprint already was. `Tasks.Store.RunPipeline` takes the scope as an argument.
