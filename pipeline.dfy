/** The specification of the three tasks of app/tasks.py as functions on
    the database state, and what they preserve. Module Tasks runs the tasks
    step by step against a mutable store and is proved to agree with these
    functions. */
module Pipeline {
  import opened Wrappers
  import opened Text
  import opened Models
  import Selection
  import Habr
  import Telegram

  // ------------------------------------------------------------ the store

  /** The rows one database session sees: the committed rows, and the rows
      this session has added (and flushed) but not committed. Row ids come
      from one counter per table; a rollback does not rewind them. */
  datatype Db = Db(
    news: map<nat, NewsItem>,
    posts: map<nat, Post>,
    pendingNews: map<nat, NewsItem>,
    pendingPosts: map<nat, Post>,
    nextNewsId: nat,
    nextPostId: nat)

  /** No uncommitted rows: the state between two tasks. */
  predicate Quiescent(db: Db)
  {
    db.pendingNews == map[] && db.pendingPosts == map[]
  }

  /** `uq_news_fingerprint`: no two news items share a fingerprint. */
  ghost predicate FingerprintsUnique(m: map<nat, NewsItem>)
  {
    forall a, b :: a in m && b in m && m[a].fingerprint == m[b].fingerprint ==> a == b
  }

  /** `posts.news_id` is unique: no two posts belong to one news item. */
  ghost predicate OnePostPerNews(m: map<nat, Post>)
  {
    forall a, b :: a in m && b in m && m[a].newsId == m[b].newsId ==> a == b
  }

  /** The news ids the posts of `m` belong to. */
  ghost function NewsIdsOf(m: map<nat, Post>): set<nat>
  {
    set p | p in m :: m[p].newsId
  }

  /** The constraints of the schema, over committed and uncommitted rows
      together: ids below their counters, unique fingerprints, at most one
      post per news item, and `posts.news_id` a foreign key (for committed
      posts, into committed news). */
  ghost predicate DbValid(db: Db)
  {
    && db.news.Keys !! db.pendingNews.Keys
    && db.posts.Keys !! db.pendingPosts.Keys
    && (forall id :: id in db.news ==> id < db.nextNewsId)
    && (forall id :: id in db.pendingNews ==> id < db.nextNewsId)
    && (forall id :: id in db.posts ==> id < db.nextPostId)
    && (forall id :: id in db.pendingPosts ==> id < db.nextPostId)
    && FingerprintsUnique(db.news + db.pendingNews)
    && OnePostPerNews(db.posts + db.pendingPosts)
    && NewsIdsOf(db.posts) <= db.news.Keys
    && NewsIdsOf(db.pendingPosts) <= db.news.Keys + db.pendingNews.Keys
  }

  /** Every news item has its post: uncommitted items their uncommitted posts. */
  ghost predicate PendingPaired(db: Db)
  {
    NewsIdsOf(db.pendingPosts) == db.pendingNews.Keys
  }

  /** Every committed news item has exactly one committed post (with
      OnePostPerNews), and every post a news item. */
  ghost predicate Paired(db: Db)
  {
    NewsIdsOf(db.posts) == db.news.Keys && PendingPaired(db)
  }

  predicate FingerprintIn(m: map<nat, NewsItem>, fp: string)
  {
    exists id | id in m :: m[id].fingerprint == fp
  }

  /** `db.rollback()`: the session's uncommitted rows are discarded. */
  function Rollback(db: Db): Db
  {
    db.(pendingNews := map[], pendingPosts := map[])
  }

  /** `db.commit()`: the session's rows become committed. */
  function Commit(db: Db): Db
  {
    db.(news := db.news + db.pendingNews, posts := db.posts + db.pendingPosts,
        pendingNews := map[], pendingPosts := map[])
  }

  // ------------------------------------------------------- keyword gate

  /** The text the gate looks at: title, summary and raw text joined by
      newlines, a missing raw text counting as empty. */
  function FullText(it: NewsItem): (r: string)
    ensures IsSubstring(it.title, r) && IsSubstring(it.summary, r)
    ensures it.rawText.Some? ==> IsSubstring(it.rawText.value, r)
    ensures |r| == |it.title| + |it.summary| + 2 + (if it.rawText.Some? then |it.rawText.value| else 0)
  {
    var r := it.title + "\n" + it.summary + "\n" + (if it.rawText.Some? then it.rawText.value else "");
    assert OccursAt(it.title, r, 0) by { assert r[..|it.title|] == it.title; }
    assert OccursAt(it.summary, r, |it.title| + 1) by {
      assert r[|it.title| + 1..|it.title| + 1 + |it.summary|] == it.summary;
    }
    assert it.rawText.Some? ==> OccursAt(it.rawText.value, r, |it.title| + |it.summary| + 2) by {
      if it.rawText.Some? {
        assert r[|it.title| + |it.summary| + 2..] == it.rawText.value;
      }
    }
    r
  }

  /** `any(k.word.lower() in low for k in keywords)`. */
  function AnyKeywordIn(keywords: seq<Keyword>, low: string): (r: bool)
    ensures r <==> exists k :: k in keywords && IsSubstring(Lower(k.word), low)
  {
    if keywords == [] then false
    else IsSubstring(Lower(keywords[0].word), low) || AnyKeywordIn(keywords[1..], low)
  }

  /** `_passes_keyword_filter`: with no keywords everything passes;
      otherwise the text passes exactly when some keyword occurs in it,
      both lower-cased. */
  function PassesKeywordFilter(keywords: seq<Keyword>, text: string): (r: bool)
    ensures r <==> |keywords| == 0 || exists k :: k in keywords && IsSubstring(Lower(k.word), Lower(text))
  {
    if |keywords| == 0 then true else AnyKeywordIn(keywords, Lower(text))
  }

  /** The gate does not depend on the case of the text. */
  lemma GateIgnoresCase(keywords: seq<Keyword>, text: string)
    ensures PassesKeywordFilter(keywords, Lower(text)) == PassesKeywordFilter(keywords, text)
  {
    LowerIdempotent(text);
  }

  // ------------------------------------------------------ collect task

  /** How much a failing flush discards. The code rolls back the whole
      transaction; a savepoint per candidate would discard only the
      candidate (see ## Findings in the README). */
  datatype RollbackScope = WholeTransaction | Savepoint

  datatype Ingested = Ingested(db: Db, id: Option<nat>)

  /** One candidate of the collect loop: the keyword gate, then `add` and
      `flush` of the news item, which fails on a fingerprint already stored
      or flushed earlier in the transaction, then `add` of its `new` post. */
  function IngestItem(db: Db, keywords: seq<Keyword>, it: NewsItem, scope: RollbackScope): (r: Ingested)
    ensures r.id.Some? <==>
      && PassesKeywordFilter(keywords, FullText(it))
      && !FingerprintIn(db.news, it.fingerprint)
      && !FingerprintIn(db.pendingNews, it.fingerprint)
    ensures r.id.Some? ==> r.id.value == db.nextNewsId && r.db == Insert(db, it)
    ensures r.id.None? && scope == Savepoint ==> r.db == db
    ensures r.id.None? && scope == WholeTransaction ==>
      r.db == if PassesKeywordFilter(keywords, FullText(it)) then Rollback(db) else db
  {
    if !PassesKeywordFilter(keywords, FullText(it)) then Ingested(db, None)
    else if FingerprintIn(db.news, it.fingerprint) || FingerprintIn(db.pendingNews, it.fingerprint) then
      Ingested(if scope == WholeTransaction then Rollback(db) else db, None)
    else Ingested(Insert(db, it), Some(db.nextNewsId))
  }

  /** The state of a collect run: the session and `created_news_ids`. */
  datatype Run = Run(db: Db, created: seq<nat>)

  /** The inner loop, over the items of one source. */
  function IngestItems(run: Run, keywords: seq<Keyword>, items: seq<NewsItem>, scope: RollbackScope): Run
    decreases |items|
  {
    if items == [] then run
    else
      var step := IngestItem(run.db, keywords, items[0], scope);
      var created := if step.id.Some? then run.created + [step.id.value] else run.created;
      IngestItems(Run(step.db, created), keywords, items[1..], scope)
  }

  /** A parser: what fetching a source yields, or the exception it raises. */
  type Parser = Source -> Result<seq<NewsItem>, string>

  /** `site` sources go to the site parser, every other kind to Telegram's. */
  function ParseSource(src: Source, parseSite: Parser, parseTg: Parser): (r: Result<seq<NewsItem>, string>)
    ensures src.kind == Site ==> r == parseSite(src)
    ensures src.kind != Site ==> r == parseTg(src)
  {
    if src.kind == Site then parseSite(src) else parseTg(src)
  }

  /** The outer loop, over the enabled sources; a source whose parser
      raises is skipped. */
  function CollectSources(run: Run, keywords: seq<Keyword>, sources: seq<Source>,
                          parseSite: Parser, parseTg: Parser, scope: RollbackScope): Run
    decreases |sources|
  {
    if sources == [] then run
    else
      var parsed := ParseSource(sources[0], parseSite, parseTg);
      var run' := if parsed.Err? then run else IngestItems(run, keywords, parsed.value, scope);
      CollectSources(run', keywords, sources[1..], parseSite, parseTg, scope)
  }

  /** `select(Source).where(Source.enabled == True)`, in table order. */
  function EnabledSources(sources: seq<Source>): (r: seq<Source>)
    ensures forall s :: s in r <==> s in sources && s.enabled
  {
    if sources == [] then []
    else (if sources[0].enabled then [sources[0]] else []) + EnabledSources(sources[1..])
  }

  /** The whole of `run_pipeline_task` up to its single `db.commit()`. */
  function CollectRun(db: Db, sources: seq<Source>, parseSite: Parser, parseTg: Parser,
                      keywords: seq<Keyword>, scope: RollbackScope): (r: Run)
    ensures Quiescent(r.db)
  {
    var run := CollectSources(Run(db, []), keywords, EnabledSources(sources), parseSite, parseTg, scope);
    Run(Commit(run.db), run.created)
  }

  /** Every item some enabled source's parser yielded. */
  ghost function ParsedItems(sources: seq<Source>, parseSite: Parser, parseTg: Parser): set<NewsItem>
  {
    set s, it | s in sources && s.enabled && ParseSource(s, parseSite, parseTg).Ok?
                && it in ParseSource(s, parseSite, parseTg).value :: it
  }

  // ------------------------------------------- collect task: properties

  lemma NewsIdsOfUnion(a: map<nat, Post>, b: map<nat, Post>)
    requires a.Keys !! b.Keys
    ensures NewsIdsOf(a + b) == NewsIdsOf(a) + NewsIdsOf(b)
  {
    forall n | n in NewsIdsOf(a + b)
      ensures n in NewsIdsOf(a) + NewsIdsOf(b)
    {
      var p :| p in a + b && (a + b)[p].newsId == n;
      if p in b {
        assert b[p].newsId == n;
      } else {
        assert a[p].newsId == n;
      }
    }
    forall n | n in NewsIdsOf(a) + NewsIdsOf(b)
      ensures n in NewsIdsOf(a + b)
    {
      if n in NewsIdsOf(a) {
        var p :| p in a && a[p].newsId == n;
        assert (a + b)[p].newsId == n;
      } else {
        var p :| p in b && b[p].newsId == n;
        assert (a + b)[p].newsId == n;
      }
    }
  }

  lemma NewsIdsOfAdd(m: map<nat, Post>, k: nat, v: Post)
    requires k !in m
    ensures NewsIdsOf(m[k := v]) == NewsIdsOf(m) + {v.newsId}
  {
    assert m[k := v] == m + map[k := v];
    NewsIdsOfUnion(m, map[k := v]);
    assert NewsIdsOf(map[k := v]) == {v.newsId} by {
      assert map[k := v][k].newsId == v.newsId;
    }
  }

  /** What holds at every point of the collect loops of a run that started
      from the quiescent state `db0`: the schema holds, committed rows are
      untouched, every uncommitted item passed the gate, came from a parser
      and has its `new` post, and `created_news_ids` is increasing, fresh,
      and names every uncommitted item (and, with a savepoint per candidate,
      only uncommitted items). */
  ghost predicate RunInv(db0: Db, run: Run, keywords: seq<Keyword>, pool: set<NewsItem>, scope: RollbackScope)
  {
    RunRows(db0, run.db, keywords, pool) && RunIds(db0, run, scope)
  }

  /** The rows part of RunInv. */
  ghost predicate RunRows(db0: Db, db: Db, keywords: seq<Keyword>, pool: set<NewsItem>)
  {
    && DbValid(db) && PendingPaired(db)
    && db.news == db0.news && db.posts == db0.posts
    && db.nextNewsId >= db0.nextNewsId
    && (forall id :: id in db.pendingNews ==>
          db.pendingNews[id] in pool && PassesKeywordFilter(keywords, FullText(db.pendingNews[id])))
    && (forall p :: p in db.pendingPosts ==> db.pendingPosts[p] == NewPost(db.pendingPosts[p].newsId))
  }

  /** The `created_news_ids` part of RunInv. */
  ghost predicate RunIds(db0: Db, run: Run, scope: RollbackScope)
  {
    var db := run.db;
    && (forall id :: id in db.pendingNews ==> id in run.created)
    && (forall i :: 0 <= i < |run.created| ==> db0.nextNewsId <= run.created[i] < db.nextNewsId)
    && (forall i, j :: 0 <= i < j < |run.created| ==> run.created[i] < run.created[j])
    && (scope == Savepoint ==> forall i :: 0 <= i < |run.created| ==> run.created[i] in db.pendingNews)
  }

  lemma RunInvStart(db0: Db, keywords: seq<Keyword>, pool: set<NewsItem>, scope: RollbackScope)
    requires DbValid(db0) && Quiescent(db0)
    ensures RunInv(db0, Run(db0, []), keywords, pool, scope)
  {
    assert NewsIdsOf(db0.pendingPosts) == {};
  }

  /** A failing flush under a whole-transaction rollback. */
  lemma RollbackKeepsRunInv(db0: Db, run: Run, keywords: seq<Keyword>, pool: set<NewsItem>)
    requires RunInv(db0, run, keywords, pool, WholeTransaction)
    ensures RunInv(db0, Run(Rollback(run.db), run.created), keywords, pool, WholeTransaction)
  {
    var db := run.db;
    var db' := Rollback(db);
    assert db'.news + db'.pendingNews == db.news;
    assert db'.posts + db'.pendingPosts == db.posts;
    forall a, b | a in db.news && b in db.news && db.news[a].fingerprint == db.news[b].fingerprint
      ensures a == b
    {
      assert (db.news + db.pendingNews)[a] == db.news[a];
      assert (db.news + db.pendingNews)[b] == db.news[b];
    }
    forall a, b | a in db.posts && b in db.posts && db.posts[a].newsId == db.posts[b].newsId
      ensures a == b
    {
      assert (db.posts + db.pendingPosts)[a] == db.posts[a];
      assert (db.posts + db.pendingPosts)[b] == db.posts[b];
    }
    assert NewsIdsOf(db'.pendingPosts) == {};
  }

  /** The session after a successful flush of `it` and the `add` of its post. */
  function Insert(db: Db, it: NewsItem): Db
  {
    db.(pendingNews := db.pendingNews[db.nextNewsId := it],
        pendingPosts := db.pendingPosts[db.nextPostId := NewPost(db.nextNewsId)],
        nextNewsId := db.nextNewsId + 1,
        nextPostId := db.nextPostId + 1)
  }

  lemma InsertKeepsFingerprintsUnique(db: Db, it: NewsItem)
    requires DbValid(db)
    requires !FingerprintIn(db.news, it.fingerprint) && !FingerprintIn(db.pendingNews, it.fingerprint)
    ensures var db' := Insert(db, it); FingerprintsUnique(db'.news + db'.pendingNews)
  {
    var id := db.nextNewsId;
    var all := db.news + db.pendingNews;
    assert Insert(db, it).news + Insert(db, it).pendingNews == all[id := it];
    forall k | k in all ensures all[k].fingerprint != it.fingerprint {
      if k in db.pendingNews {
        assert all[k] == db.pendingNews[k];
      } else {
        assert all[k] == db.news[k];
      }
    }
  }

  /** A post for a news item that had none keeps one post per news item. */
  lemma OnePostPerNewsAdd(m: map<nat, Post>, k: nat, v: Post)
    requires OnePostPerNews(m) && k !in m && v.newsId !in NewsIdsOf(m)
    ensures OnePostPerNews(m[k := v])
  {
    var m' := m[k := v];
    forall a, b | a in m' && b in m' && m'[a].newsId == m'[b].newsId
      ensures a == b
    {
      if a != k && b != k {
        assert m[a].newsId == m'[a].newsId && m[b].newsId == m'[b].newsId;
      }
    }
  }

  lemma InsertKeepsPosts(db: Db, it: NewsItem)
    requires DbValid(db) && PendingPaired(db)
    ensures var db' := Insert(db, it);
      && OnePostPerNews(db'.posts + db'.pendingPosts)
      && NewsIdsOf(db'.pendingPosts) == db'.pendingNews.Keys
  {
    var id := db.nextNewsId;
    var pid := db.nextPostId;
    var all := db.posts + db.pendingPosts;
    NewsIdsOfUnion(db.posts, db.pendingPosts);
    assert id !in db.news.Keys + db.pendingNews.Keys;
    assert id !in NewsIdsOf(all);
    assert pid !in all;
    OnePostPerNewsAdd(all, pid, NewPost(id));
    assert Insert(db, it).posts + Insert(db, it).pendingPosts == all[pid := NewPost(id)];
    NewsIdsOfAdd(db.pendingPosts, pid, NewPost(id));
  }

  /** A successful flush keeps the schema: the fingerprint is new, and the
      new post belongs to the new item, which no post belonged to before. */
  lemma InsertKeepsSchema(db: Db, it: NewsItem)
    requires DbValid(db) && PendingPaired(db)
    requires !FingerprintIn(db.news, it.fingerprint) && !FingerprintIn(db.pendingNews, it.fingerprint)
    ensures DbValid(Insert(db, it)) && PendingPaired(Insert(db, it))
  {
    InsertKeepsFingerprintsUnique(db, it);
    InsertKeepsPosts(db, it);
  }

  /** A successful flush: the item and its `new` post join the session. */
  lemma InsertKeepsRunInv(db0: Db, run: Run, keywords: seq<Keyword>, pool: set<NewsItem>,
                          it: NewsItem, scope: RollbackScope)
    requires RunInv(db0, run, keywords, pool, scope)
    requires it in pool && PassesKeywordFilter(keywords, FullText(it))
    requires !FingerprintIn(run.db.news, it.fingerprint) && !FingerprintIn(run.db.pendingNews, it.fingerprint)
    ensures RunInv(db0, Run(Insert(run.db, it), run.created + [run.db.nextNewsId]), keywords, pool, scope)
  {
    InsertKeepsSchema(run.db, it);
    InsertKeepsRunRows(db0, run.db, keywords, pool, it);
    InsertKeepsRunIds(db0, run, it, scope);
  }

  lemma InsertKeepsRunRows(db0: Db, db: Db, keywords: seq<Keyword>, pool: set<NewsItem>, it: NewsItem)
    requires RunRows(db0, db, keywords, pool)
    requires DbValid(Insert(db, it)) && PendingPaired(Insert(db, it))
    requires it in pool && PassesKeywordFilter(keywords, FullText(it))
    ensures RunRows(db0, Insert(db, it), keywords, pool)
  {
  }

  lemma InsertKeepsRunIds(db0: Db, run: Run, it: NewsItem, scope: RollbackScope)
    requires RunIds(db0, run, scope) && run.db.nextNewsId >= db0.nextNewsId
    ensures RunIds(db0, Run(Insert(run.db, it), run.created + [run.db.nextNewsId]), scope)
  {
    var c := run.created + [run.db.nextNewsId];
    assert forall i :: 0 <= i < |run.created| ==> c[i] == run.created[i];
  }

  /** One candidate keeps the invariant. (Which candidates are recorded is
      IngestItem's own contract: exactly those that pass the gate and whose
      fingerprint is neither stored nor flushed.) */
  lemma IngestItemKeepsRunInv(db0: Db, run: Run, keywords: seq<Keyword>, pool: set<NewsItem>,
                              it: NewsItem, scope: RollbackScope)
    requires RunInv(db0, run, keywords, pool, scope) && it in pool
    ensures var step := IngestItem(run.db, keywords, it, scope);
      RunInv(db0, Run(step.db, if step.id.Some? then run.created + [step.id.value] else run.created),
             keywords, pool, scope)
  {
    if !PassesKeywordFilter(keywords, FullText(it)) {
    } else if FingerprintIn(run.db.news, it.fingerprint) || FingerprintIn(run.db.pendingNews, it.fingerprint) {
      if scope == WholeTransaction {
        RollbackKeepsRunInv(db0, run, keywords, pool);
      }
    } else {
      InsertKeepsRunInv(db0, run, keywords, pool, it, scope);
    }
  }

  lemma {:induction false} IngestItemsKeepRunInv(db0: Db, run: Run, keywords: seq<Keyword>, pool: set<NewsItem>,
                                                 items: seq<NewsItem>, scope: RollbackScope)
    requires RunInv(db0, run, keywords, pool, scope)
    requires forall j :: 0 <= j < |items| ==> items[j] in pool
    ensures RunInv(db0, IngestItems(run, keywords, items, scope), keywords, pool, scope)
    decreases |items|
  {
    if items != [] {
      var step := IngestItem(run.db, keywords, items[0], scope);
      var created := if step.id.Some? then run.created + [step.id.value] else run.created;
      IngestItemKeepsRunInv(db0, run, keywords, pool, items[0], scope);
      IngestItemsKeepRunInv(db0, Run(step.db, created), keywords, pool, items[1..], scope);
    }
  }

  lemma {:induction false} CollectSourcesKeepRunInv(db0: Db, run: Run, keywords: seq<Keyword>,
                                                    all: seq<Source>, sources: seq<Source>,
                                                    parseSite: Parser, parseTg: Parser, scope: RollbackScope)
    requires RunInv(db0, run, keywords, ParsedItems(all, parseSite, parseTg), scope)
    requires forall s :: s in sources ==> s in all && s.enabled
    ensures RunInv(db0, CollectSources(run, keywords, sources, parseSite, parseTg, scope),
                   keywords, ParsedItems(all, parseSite, parseTg), scope)
    decreases |sources|
  {
    if sources != [] {
      var pool := ParsedItems(all, parseSite, parseTg);
      var src := sources[0];
      var parsed := ParseSource(src, parseSite, parseTg);
      var run' := run;
      if parsed.Ok? {
        forall j | 0 <= j < |parsed.value| ensures parsed.value[j] in pool {
          var it := parsed.value[j];
          assert src in all && src.enabled && parsed.Ok? && it in parsed.value;
        }
        IngestItemsKeepRunInv(db0, run, keywords, pool, parsed.value, scope);
        run' := IngestItems(run, keywords, parsed.value, scope);
      }
      CollectSourcesKeepRunInv(db0, run', keywords, all, sources[1..], parseSite, parseTg, scope);
    }
  }

  /** The commit: the session's rows join the committed ones, and the
      schema still holds. */
  lemma CommitKeepsSchema(db: Db)
    requires DbValid(db) && PendingPaired(db)
    ensures DbValid(Commit(db)) && Quiescent(Commit(db))
    ensures NewsIdsOf(Commit(db).posts) == NewsIdsOf(db.posts) + db.pendingNews.Keys
  {
    CommitKeepsUniqueness(db);
    CommitNewsIds(db);
  }

  lemma CommitKeepsUniqueness(db: Db)
    requires FingerprintsUnique(db.news + db.pendingNews) && OnePostPerNews(db.posts + db.pendingPosts)
    ensures var c := Commit(db);
      FingerprintsUnique(c.news + c.pendingNews) && OnePostPerNews(c.posts + c.pendingPosts)
  {
    var c := Commit(db);
    assert c.news + c.pendingNews == db.news + db.pendingNews;
    assert c.posts + c.pendingPosts == db.posts + db.pendingPosts;
  }

  lemma CommitNewsIds(db: Db)
    requires db.posts.Keys !! db.pendingPosts.Keys && PendingPaired(db)
    ensures NewsIdsOf(Commit(db).posts) == NewsIdsOf(db.posts) + db.pendingNews.Keys
    ensures NewsIdsOf(Commit(db).pendingPosts) == {}
  {
    NewsIdsOfUnion(db.posts, db.pendingPosts);
  }

  /** Committing the session at the end of a run: the schema holds, the
      rows that were there are kept, the new posts are `new` and belong
      exactly to the new items, and pairing is kept. */
  lemma CommitRunSchema(db0: Db, last: Run, keywords: seq<Keyword>, pool: set<NewsItem>, scope: RollbackScope)
    requires Quiescent(db0) && RunInv(db0, last, keywords, pool, scope)
    ensures var c := Commit(last.db);
      && DbValid(c) && Quiescent(c)
      && (forall id :: id in db0.news ==> id in c.news && c.news[id] == db0.news[id])
      && (forall p :: p in db0.posts ==> p in c.posts && c.posts[p] == db0.posts[p])
      && (forall p :: p in c.posts && p !in db0.posts ==> c.posts[p] == NewPost(c.posts[p].newsId))
      && NewsIdsOf(c.posts) == NewsIdsOf(db0.posts) + (c.news.Keys - db0.news.Keys)
      && (Paired(db0) ==> Paired(c))
  {
    CommitKeepsSchema(last.db);
    var c := Commit(last.db);
    assert c.news.Keys - db0.news.Keys == last.db.pendingNews.Keys;
    assert NewsIdsOf(c.posts) == NewsIdsOf(db0.posts) + (c.news.Keys - db0.news.Keys);
  }

  /** Committing the session at the end of a run: every new item is a
      recorded candidate that passed the gate, with a fingerprint no earlier
      item had; the recorded ids are fresh and increasing. */
  lemma CommitRunNews(db0: Db, last: Run, keywords: seq<Keyword>, pool: set<NewsItem>, scope: RollbackScope)
    requires DbValid(db0) && Quiescent(db0) && RunInv(db0, last, keywords, pool, scope)
    ensures var c := Commit(last.db);
      && (forall id :: id in c.news && id !in db0.news ==>
            && id in last.created
            && PassesKeywordFilter(keywords, FullText(c.news[id]))
            && c.news[id] in pool
            && !FingerprintIn(db0.news, c.news[id].fingerprint))
      && (forall i :: 0 <= i < |last.created| ==> last.created[i] !in db0.news)
      && (scope == Savepoint ==> forall i :: 0 <= i < |last.created| ==> last.created[i] in c.news)
  {
    var c := Commit(last.db);
    var all := last.db.news + last.db.pendingNews;
    assert c.news == all;
  }

  /** One run of the collect task from a quiescent state. The schema still
      holds and nothing is left uncommitted; the rows that were there are
      unchanged; every news item it adds passed the keyword gate, was
      yielded by the parser of an enabled source, has a fingerprint no
      earlier item had, has its id recorded, and has exactly one post, in
      status `new`. The recorded ids are increasing and name no earlier item. */
  lemma {:induction false} CollectRunProperties(db: Db, sources: seq<Source>, parseSite: Parser, parseTg: Parser,
                                                keywords: seq<Keyword>, scope: RollbackScope)
    requires DbValid(db) && Quiescent(db)
    ensures var run := CollectRun(db, sources, parseSite, parseTg, keywords, scope);
      && DbValid(run.db) && Quiescent(run.db)
      && (forall id :: id in db.news ==> id in run.db.news && run.db.news[id] == db.news[id])
      && (forall p :: p in db.posts ==> p in run.db.posts && run.db.posts[p] == db.posts[p])
      && (forall id :: id in run.db.news && id !in db.news ==>
            && id in run.created
            && PassesKeywordFilter(keywords, FullText(run.db.news[id]))
            && run.db.news[id] in ParsedItems(sources, parseSite, parseTg)
            && !FingerprintIn(db.news, run.db.news[id].fingerprint))
      && (forall p :: p in run.db.posts && p !in db.posts ==> run.db.posts[p] == NewPost(run.db.posts[p].newsId))
      && NewsIdsOf(run.db.posts) == NewsIdsOf(db.posts) + (run.db.news.Keys - db.news.Keys)
      && (Paired(db) ==> Paired(run.db))
      && (forall i :: 0 <= i < |run.created| ==> run.created[i] !in db.news)
      && (forall i, j :: 0 <= i < j < |run.created| ==> run.created[i] < run.created[j])
      && (scope == Savepoint ==> forall i :: 0 <= i < |run.created| ==> run.created[i] in run.db.news)
  {
    var pool := ParsedItems(sources, parseSite, parseTg);
    RunInvStart(db, keywords, pool, scope);
    var enabled := EnabledSources(sources);
    CollectSourcesKeepRunInv(db, Run(db, []), keywords, sources, enabled, parseSite, parseTg, scope);
    var last := CollectSources(Run(db, []), keywords, enabled, parseSite, parseTg, scope);
    CommitRunSchema(db, last, keywords, pool, scope);
    CommitRunNews(db, last, keywords, pool, scope);
  }

  // ------------------------------------------------------------ findings

  /** As written, a duplicate late in a run discards the items flushed
      before it in the same run, yet their ids were already recorded: when
      a source yields an item with a new fingerprint and then one whose
      fingerprint is stored, the first is recorded under the next id, the
      rollback loses it, and the run commits no news at all. */
  lemma RollbackLosesEarlierItems(db: Db, src: Source, parseSite: Parser, parseTg: Parser,
                                  first: NewsItem, dup: NewsItem)
    requires DbValid(db) && Quiescent(db)
    requires src.enabled && src.kind == Site && parseSite(src) == Ok([first, dup])
    requires !FingerprintIn(db.news, first.fingerprint) && FingerprintIn(db.news, dup.fingerprint)
    ensures var run := CollectRun(db, [src], parseSite, parseTg, [], WholeTransaction);
      && run.created == [db.nextNewsId]
      && db.nextNewsId !in run.db.news
      && run.db.news == db.news && run.db.posts == db.posts
  {
    var db1 := Insert(db, first);
    assert IngestItem(db, [], first, WholeTransaction) == Ingested(db1, Some(db.nextNewsId));
    assert FingerprintIn(db1.news, dup.fingerprint);
    assert IngestItem(db1, [], dup, WholeTransaction) == Ingested(Rollback(db1), None);
    assert [first, dup][1..] == [dup];
    assert [dup][1..] == [];
    assert [] + [db.nextNewsId] == [db.nextNewsId];
    var last := IngestItems(Run(db, []), [], [first, dup], WholeTransaction);
    assert last == IngestItems(Run(db1, [db.nextNewsId]), [], [dup], WholeTransaction);
    assert last == IngestItems(Run(Rollback(db1), [db.nextNewsId]), [], [], WholeTransaction);
    assert EnabledSources([src]) == [src];
    assert [src][1..] == [];
    assert CollectSources(Run(db, []), [], [src], parseSite, parseTg, WholeTransaction)
        == CollectSources(last, [], [], parseSite, parseTg, WholeTransaction);
  }

  /** With a savepoint per candidate, the intended behaviour: every id the
      run records names a committed news item that has its post, so no
      generate task it enqueues meets a missing item. */
  lemma {:induction false} SavepointKeepsRecordedItems(db: Db, sources: seq<Source>, parseSite: Parser,
                                                       parseTg: Parser, keywords: seq<Keyword>)
    requires DbValid(db) && Quiescent(db)
    ensures var run := CollectRun(db, sources, parseSite, parseTg, keywords, Savepoint);
      forall i :: 0 <= i < |run.created| ==>
        run.created[i] in run.db.news && run.created[i] !in db.news && run.created[i] in NewsIdsOf(run.db.posts)
  {
    CollectRunProperties(db, sources, parseSite, parseTg, keywords, Savepoint);
  }

  /** With a savepoint per candidate, every candidate of an enabled source
      that passes the gate is stored once the run commits: it is flushed
      and committed, or an item with its fingerprint already was. */
  lemma SavepointStoresEveryCandidate(db: Db, sources: seq<Source>, parseSite: Parser,
                                      parseTg: Parser, keywords: seq<Keyword>)
    requires DbValid(db) && Quiescent(db)
    ensures forall s, it ::
      && s in sources && s.enabled
      && ParseSource(s, parseSite, parseTg).Ok? && it in ParseSource(s, parseSite, parseTg).value
      && PassesKeywordFilter(keywords, FullText(it))
      ==> FingerprintIn(CollectRun(db, sources, parseSite, parseTg, keywords, Savepoint).db.news, it.fingerprint)
  {
    var enabled := EnabledSources(sources);
    CollectSourcesStore(Run(db, []), keywords, enabled, parseSite, parseTg);
    var last := CollectSources(Run(db, []), keywords, enabled, parseSite, parseTg, Savepoint);
    forall fp | Stored(last.db, fp) ensures FingerprintIn(Commit(last.db).news, fp) {
      CommitKeepsStored(last.db, fp);
    }
  }

  /** A fingerprint is in the session: committed or flushed. */
  ghost predicate Stored(db: Db, fp: string)
  {
    FingerprintIn(db.news, fp) || FingerprintIn(db.pendingNews, fp)
  }

  /** The id bounds a flush relies on to never overwrite a row. */
  ghost predicate IdsBelow(db: Db)
  {
    && db.news.Keys !! db.pendingNews.Keys
    && (forall id :: id in db.news ==> id < db.nextNewsId)
    && (forall id :: id in db.pendingNews ==> id < db.nextNewsId)
  }

  lemma IngestItemStores(db: Db, keywords: seq<Keyword>, it: NewsItem)
    requires IdsBelow(db)
    ensures var db' := IngestItem(db, keywords, it, Savepoint).db;
      && IdsBelow(db')
      && (forall fp :: Stored(db, fp) ==> Stored(db', fp))
      && (PassesKeywordFilter(keywords, FullText(it)) ==> Stored(db', it.fingerprint))
  {
    var step := IngestItem(db, keywords, it, Savepoint);
    if step.id.Some? {
      var db' := step.db;
      assert db' == Insert(db, it);
      forall fp | Stored(db, fp) ensures Stored(db', fp) {
        if FingerprintIn(db.pendingNews, fp) {
          var id :| id in db.pendingNews && db.pendingNews[id].fingerprint == fp;
          assert db'.pendingNews[id] == db.pendingNews[id];
        }
      }
      assert db'.pendingNews[db.nextNewsId] == it;
    }
  }

  lemma {:induction false} IngestItemsStore(run: Run, keywords: seq<Keyword>, items: seq<NewsItem>)
    requires IdsBelow(run.db)
    ensures var db' := IngestItems(run, keywords, items, Savepoint).db;
      && IdsBelow(db')
      && (forall fp :: Stored(run.db, fp) ==> Stored(db', fp))
      && (forall it :: it in items && PassesKeywordFilter(keywords, FullText(it)) ==> Stored(db', it.fingerprint))
    decreases |items|
  {
    if items != [] {
      var step := IngestItem(run.db, keywords, items[0], Savepoint);
      var created := if step.id.Some? then run.created + [step.id.value] else run.created;
      IngestItemStores(run.db, keywords, items[0]);
      IngestItemsStore(Run(step.db, created), keywords, items[1..]);
      assert forall it :: it in items ==> it == items[0] || it in items[1..];
    }
  }

  lemma {:induction false} CollectSourcesStore(run: Run, keywords: seq<Keyword>, sources: seq<Source>,
                                               parseSite: Parser, parseTg: Parser)
    requires IdsBelow(run.db)
    ensures var db' := CollectSources(run, keywords, sources, parseSite, parseTg, Savepoint).db;
      && IdsBelow(db')
      && (forall fp :: Stored(run.db, fp) ==> Stored(db', fp))
      && (forall s, it ::
            && s in sources && ParseSource(s, parseSite, parseTg).Ok?
            && it in ParseSource(s, parseSite, parseTg).value
            && PassesKeywordFilter(keywords, FullText(it))
            ==> Stored(db', it.fingerprint))
    decreases |sources|
  {
    if sources != [] {
      var parsed := ParseSource(sources[0], parseSite, parseTg);
      var run' := run;
      if parsed.Ok? {
        IngestItemsStore(run, keywords, parsed.value);
        run' := IngestItems(run, keywords, parsed.value, Savepoint);
      }
      CollectSourcesStore(run', keywords, sources[1..], parseSite, parseTg);
      assert forall s :: s in sources ==> s == sources[0] || s in sources[1..];
    }
  }

  lemma CommitKeepsStored(db: Db, fp: string)
    requires IdsBelow(db) && Stored(db, fp)
    ensures FingerprintIn(Commit(db).news, fp)
  {
    var all := db.news + db.pendingNews;
    if FingerprintIn(db.news, fp) {
      var id :| id in db.news && db.news[id].fingerprint == fp;
      assert id !in db.pendingNews;
      assert all[id] == db.news[id];
    } else {
      var id :| id in db.pendingNews && db.pendingNews[id].fingerprint == fp;
      assert all[id] == db.pendingNews[id];
    }
  }

  // ----------------------------------------- generate and publish tasks

  /** A Celery task put on the queue by `.delay`. */
  datatype Task = GenerateTask(newsId: nat) | PublishTask(postId: nat)

  /** What a task returns, or the message of the exception it re-raises. */
  datatype TaskResult =
    | CreatedNews(count: nat)
    | PostId(id: nat)
    | Error(message: string)
    | Skipped
    | PublishedOk
    | Raised(message: string)

  const NewsNotFound := "news not found"
  const PostNotFound := "post not found"
  const NoGeneratedText := "post has no generated_text"

  /** One generate task per recorded news id, in order. */
  function GenerateTasks(ids: seq<nat>): (r: seq<Task>)
    ensures |r| == |ids|
    ensures forall i :: 0 <= i < |ids| ==> r[i] == GenerateTask(ids[i])
  {
    seq(|ids|, i requires 0 <= i < |ids| => GenerateTask(ids[i]))
  }

  /** The post of a news item, if it has one. There is at most one
      (OnePostPerNews), so it is also the one with the largest id, which is
      what `order_by(desc(Post.id)).first()` picks. */
  ghost function PostOf(posts: map<nat, Post>, newsId: nat): (r: Option<nat>)
    ensures r.None? <==> newsId !in NewsIdsOf(posts)
    ensures r.Some? ==> r.value in posts && posts[r.value].newsId == newsId
  {
    if newsId in NewsIdsOf(posts) then Some(var p :| p in posts && posts[p].newsId == newsId; p) else None
  }

  /** The committed state after a task, what it returns, and what it enqueues. */
  datatype Step = Step(db: Db, result: TaskResult, enqueued: seq<Task>)

  /** `generate_post_task(newsId)`, given what `generate_telegram_post`
      returns (`Ok`) or the text of what it raises (`Err`). A missing post is
      created (and flushed, which takes an id) before the call; on failure
      the session is rolled back, so only a post that existed before can be
      marked `failed`. */
  ghost function GenerateStep(db: Db, newsId: nat, outcome: Result<string, string>): (r: Step)
    ensures r.db.news == db.news && r.db.pendingNews == db.pendingNews && r.db.pendingPosts == db.pendingPosts
    ensures r.result == Error(NewsNotFound) <==> newsId !in db.news
    ensures r.result.Raised? <==> newsId in db.news && outcome.Err?
    ensures r.enqueued != [] <==> newsId in db.news && outcome.Ok?
    ensures newsId !in db.news ==> r.db == db
  {
    if newsId !in db.news then Step(db, Error(NewsNotFound), [])
    else
      var existing := PostOf(db.posts, newsId);
      var nextPostId := if existing.Some? then db.nextPostId else db.nextPostId + 1;
      match outcome
      case Ok(text) =>
        var pid := if existing.Some? then existing.value else db.nextPostId;
        var prior := if existing.Some? then db.posts[pid] else NewPost(newsId);
        var post := prior.(generatedText := Some(text), status := Generated, error := None);
        Step(db.(posts := db.posts[pid := post], nextPostId := nextPostId), PostId(pid), [PublishTask(pid)])
      case Err(msg) =>
        var posts := if existing.Some? then
          db.posts[existing.value := db.posts[existing.value].(status := Failed, error := Some(msg))]
        else db.posts;
        Step(db.(posts := posts, nextPostId := nextPostId), Raised(msg), [])
  }

  /** Whether `publish_post_task(postId)` gets past its guards, and then the
      text it hands to `publish_to_channel`. */
  function PublishSends(db: Db, postId: nat): (r: Option<string>)
  {
    if postId !in db.posts then None
    else
      var p := db.posts[postId];
      if p.status == Published || p.generatedText.None? || p.generatedText.value == "" then None
      else Some(p.generatedText.value)
  }

  /** `publish_post_task(postId)`, given the outcome of `publish_to_channel`
      and the clock reading `now`. */
  function PublishStep(db: Db, postId: nat, outcome: Result<(), string>, now: Timestamp): (r: Step)
    ensures r.enqueued == []
    ensures r.db.news == db.news && r.db.posts.Keys == db.posts.Keys
    ensures PublishSends(db, postId).None? ==> r.db == db
    ensures r.result == PublishedOk <==> PublishSends(db, postId).Some? && outcome.Ok?
    ensures r.result.Raised? <==> PublishSends(db, postId).Some? && outcome.Err?
  {
    if postId !in db.posts then Step(db, Error(PostNotFound), [])
    else
      var p := db.posts[postId];
      if p.status == Published then Step(db, Skipped, [])
      else if p.generatedText.None? || p.generatedText.value == "" then Step(db, Error(NoGeneratedText), [])
      else
        match outcome
        case Ok(_) =>
          Step(db.(posts := db.posts[postId := p.(status := Published, publishedAt := Some(now), error := None)]),
               PublishedOk, [])
        case Err(m) =>
          Step(db.(posts := db.posts[postId := p.(status := Failed, error := Some(m))]), Raised(m), [])
  }

  // ------------------------------ generate and publish tasks: properties

  lemma NewsIdsOfUpdate(m: map<nat, Post>, k: nat, v: Post)
    requires k in m && m[k].newsId == v.newsId
    ensures NewsIdsOf(m[k := v]) == NewsIdsOf(m)
  {
    forall n | n in NewsIdsOf(m) ensures n in NewsIdsOf(m[k := v]) {
      var p :| p in m && m[p].newsId == n;
      assert m[k := v][p].newsId == n;
    }
  }

  /** A post update that keeps its news item keeps the schema and pairing. */
  lemma UpdatePostKeepsSchema(db: Db, k: nat, v: Post)
    requires DbValid(db) && Quiescent(db) && k in db.posts && db.posts[k].newsId == v.newsId
    ensures var db' := db.(posts := db.posts[k := v]);
      DbValid(db') && Quiescent(db') && (Paired(db) ==> Paired(db'))
  {
    NewsIdsOfUpdate(db.posts, k, v);
    assert db.posts + db.pendingPosts == db.posts;
    var m := db.posts[k := v];
    assert m + db.pendingPosts == m;
    forall a, b | a in m && b in m && m[a].newsId == m[b].newsId ensures a == b {
      assert db.posts[a].newsId == m[a].newsId && db.posts[b].newsId == m[b].newsId;
    }
  }

  /** Generate keeps the schema, leaves nothing uncommitted and keeps every
      news item paired with its post. */
  lemma GenerateKeepsSchema(db: Db, newsId: nat, outcome: Result<string, string>)
    requires DbValid(db) && Quiescent(db)
    ensures var step := GenerateStep(db, newsId, outcome);
      DbValid(step.db) && Quiescent(step.db) && (Paired(db) ==> Paired(step.db))
  {
    if newsId in db.news {
      var existing := PostOf(db.posts, newsId);
      if existing.Some? {
        var k := existing.value;
        var v := if outcome.Ok? then db.posts[k].(generatedText := Some(outcome.value), status := Generated, error := None)
                 else db.posts[k].(status := Failed, error := Some(outcome.error));
        UpdatePostKeepsSchema(db, k, v);
        assert GenerateStep(db, newsId, outcome).db == db.(posts := db.posts[k := v]);
      } else if outcome.Ok? {
        var pid := db.nextPostId;
        var v := NewPost(newsId).(generatedText := Some(outcome.value), status := Generated, error := None);
        assert pid !in db.posts;
        NewsIdsOfAdd(db.posts, pid, v);
        var m := db.posts[pid := v];
        assert db.posts + db.pendingPosts == db.posts;
        assert m + db.pendingPosts == m;
        forall a, b | a in m && b in m && m[a].newsId == m[b].newsId ensures a == b {
          if a != pid && b != pid {
            assert db.posts[a].newsId == m[a].newsId && db.posts[b].newsId == m[b].newsId;
          }
        }
      }
    }
  }

  /** What generate does to the post of its news item. Unknown news changes
      nothing. Success leaves the item with exactly one post, holding the
      text, `generated` and no error, whatever its status was (there is no
      status guard), creates that post only when there was none, and
      enqueues its publish task. Failure marks an existing post `failed`
      with the message, keeping its text, and re-raises. No other post, and
      no news item, changes. */
  lemma GenerateOutcome(db: Db, newsId: nat, outcome: Result<string, string>)
    requires DbValid(db) && Quiescent(db)
    ensures var step := GenerateStep(db, newsId, outcome);
      && step.db.news == db.news
      && (newsId !in db.news ==> step == Step(db, Error(NewsNotFound), []))
      && (newsId in db.news ==>
            && (forall p :: p in db.posts && db.posts[p].newsId != newsId ==>
                  p in step.db.posts && step.db.posts[p] == db.posts[p])
            && (forall p :: p in step.db.posts && p !in db.posts ==> outcome.Ok? && step.db.posts[p].newsId == newsId))
      && (newsId in db.news && outcome.Ok? ==>
            var pid := PostOf(step.db.posts, newsId);
            && pid.Some? && step.result == PostId(pid.value) && step.enqueued == [PublishTask(pid.value)]
            && step.db.posts[pid.value].generatedText == Some(outcome.value)
            && step.db.posts[pid.value].status == Generated
            && step.db.posts[pid.value].error == None
            && (PostOf(db.posts, newsId).Some? ==> pid == PostOf(db.posts, newsId)))
      && (newsId in db.news && outcome.Err? ==>
            && step.result == Raised(outcome.error) && step.enqueued == []
            && step.db.posts.Keys == db.posts.Keys
            && (PostOf(db.posts, newsId).Some? ==>
                  var p := PostOf(db.posts, newsId).value;
                  step.db.posts[p] == db.posts[p].(status := Failed, error := Some(outcome.error))))
  {
    GenerateKeepsSchema(db, newsId, outcome);
    var step := GenerateStep(db, newsId, outcome);
    if newsId in db.news && outcome.Ok? {
      var existing := PostOf(db.posts, newsId);
      var pid := if existing.Some? then existing.value else db.nextPostId;
      assert step.db.posts[pid].newsId == newsId;
      assert db.posts + db.pendingPosts == db.posts;
      assert step.db.posts + step.db.pendingPosts == step.db.posts;
      assert PostOf(step.db.posts, newsId) == Some(pid);
    }
  }

  /** Publish keeps the schema, leaves nothing uncommitted and keeps pairing. */
  lemma PublishKeepsSchema(db: Db, postId: nat, outcome: Result<(), string>, now: Timestamp)
    requires DbValid(db) && Quiescent(db)
    ensures var step := PublishStep(db, postId, outcome, now);
      DbValid(step.db) && Quiescent(step.db) && (Paired(db) ==> Paired(step.db))
  {
    var step := PublishStep(db, postId, outcome, now);
    if step.db != db {
      var p := db.posts[postId];
      var v := if outcome.Ok? then p.(status := Published, publishedAt := Some(now), error := None)
               else p.(status := Failed, error := Some(outcome.error));
      UpdatePostKeepsSchema(db, postId, v);
    }
  }

  /** Publish refuses only a missing post, a `published` one and one
      without text; a `failed` post with text is sent again. Only a send
      changes the post: success makes it `published` at `now` with no
      error, failure `failed` with the message, and the text is kept. */
  lemma PublishOutcome(db: Db, postId: nat, outcome: Result<(), string>, now: Timestamp)
    ensures var step := PublishStep(db, postId, outcome, now);
      && step.enqueued == []
      && step.db.news == db.news && step.db.posts.Keys == db.posts.Keys
      && (forall q :: q in db.posts && q != postId ==> step.db.posts[q] == db.posts[q])
      && (PublishSends(db, postId).None? <==> step.db == db && !step.result.PublishedOk? && !step.result.Raised?)
      && (postId !in db.posts ==> step.result == Error(PostNotFound))
      && (postId in db.posts && db.posts[postId].status == Published ==> step.result == Skipped)
      && (postId in db.posts && db.posts[postId].status != Published && PublishSends(db, postId).None? ==>
            step.result == Error(NoGeneratedText))
      && (PublishSends(db, postId).Some? ==>
            var p := db.posts[postId];
            && PublishSends(db, postId) == p.generatedText
            && (outcome.Ok? ==>
                  && step.result == PublishedOk
                  && step.db.posts[postId] == p.(status := Published, publishedAt := Some(now), error := None))
            && (outcome.Err? ==>
                  && step.result == Raised(outcome.error)
                  && step.db.posts[postId] == p.(status := Failed, error := Some(outcome.error))))
  {
  }

  /** Publishing is idempotent: once a post is published, publishing it
      again sends nothing, changes nothing and reports a skip. */
  lemma PublishIdempotent(db: Db, postId: nat, o1: Result<(), string>, o2: Result<(), string>, t1: Timestamp, t2: Timestamp)
    requires PublishStep(db, postId, o1, t1).result == PublishedOk
    ensures var db1 := PublishStep(db, postId, o1, t1).db;
      && PublishSends(db1, postId).None?
      && PublishStep(db1, postId, o2, t2) == Step(db1, Skipped, [])
  {
  }

  /** Generate has no status guard: a `published` (or `failed`) post whose
      news item is generated again returns to `generated`, keeping its
      publication time, and its publish task is enqueued once more. */
  lemma GenerateOverwritesAnyStatus(db: Db, newsId: nat, text: string)
    requires DbValid(db) && Quiescent(db) && newsId in db.news && PostOf(db.posts, newsId).Some?
    ensures var p := PostOf(db.posts, newsId).value;
      var step := GenerateStep(db, newsId, Ok(text));
      && step.db.posts[p].status == Generated
      && step.db.posts[p].publishedAt == db.posts[p].publishedAt
      && step.enqueued == [PublishTask(p)]
  {
    GenerateOutcome(db, newsId, Ok(text));
  }

  /** Neither task ever puts a post back into status `new`. */
  lemma NoStepResetsToNew(db: Db, newsId: nat, g: Result<string, string>, postId: nat, p: Result<(), string>,
                          now: Timestamp, k: nat)
    ensures var gdb := GenerateStep(db, newsId, g).db;
      k in gdb.posts && gdb.posts[k].status == New ==> k in db.posts && db.posts[k] == gdb.posts[k]
    ensures var pdb := PublishStep(db, postId, p, now).db;
      k in pdb.posts && pdb.posts[k].status == New ==> k in db.posts && db.posts[k] == pdb.posts[k]
  {
    if newsId in db.news {
      var existing := PostOf(db.posts, newsId);
      var gdb := GenerateStep(db, newsId, g).db;
      if g.Ok? {
        var pid := if existing.Some? then existing.value else db.nextPostId;
        assert gdb.posts[pid].status == Generated;
      } else if existing.Some? {
        assert gdb.posts[existing.value].status == Failed;
      }
    }
  }

  // ------------------------------------------------------- column widths

  /** The declared widths of `news_items` (title 512, url 1024, fingerprint
      64) hold for every stored row. SQLite does not enforce `VARCHAR`
      lengths, so this is not part of DbValid: it holds exactly as long as
      every inserted item fits. */
  ghost predicate ColumnsFit(db: Db)
  {
    && (forall id :: id in db.news ==> FitsColumns(db.news[id]))
    && (forall id :: id in db.pendingNews ==> FitsColumns(db.pendingNews[id]))
  }

  /** A collect run keeps the widths when every item the enabled sources'
      parsers yield fits. */
  lemma CollectRunKeepsColumns(db: Db, sources: seq<Source>, parseSite: Parser, parseTg: Parser,
                               keywords: seq<Keyword>, scope: RollbackScope)
    requires DbValid(db) && Quiescent(db) && ColumnsFit(db)
    requires forall it :: it in ParsedItems(sources, parseSite, parseTg) ==> FitsColumns(it)
    ensures ColumnsFit(CollectRun(db, sources, parseSite, parseTg, keywords, scope).db)
  {
    CollectRunProperties(db, sources, parseSite, parseTg, keywords, scope);
  }

  /** The parsers of the two source kinds yield only items that fit, given
      a 64-character digest: a site parser that returns `[]` or a parsed
      Habr page (what `fetch_news_list` returns), and a channel parser that
      returns `[]` or the items of the first 30 objects of a channel's
      history (what `parse_tg_source` returns). */
  lemma NormalisedItemsFit(sources: seq<Source>, parseSite: Parser, parseTg: Parser, sha: Hash,
                           cardsOf: Source -> seq<Habr.Card>, historyOf: Source -> seq<Telegram.TgObject>)
    requires IsHexDigest(sha)
    requires forall s :: parseSite(s).Ok? ==> parseSite(s) == Ok([]) || parseSite(s) == Habr.ParseCards(cardsOf(s), sha)
    requires forall s :: parseTg(s).Ok? ==>
      parseTg(s) == Ok([])
      || parseTg(s).value == Selection.FilterMap(Telegram.MessageItem(s, sha), Take(historyOf(s), Telegram.MessageLimit))
    ensures forall it :: it in ParsedItems(sources, parseSite, parseTg) ==> FitsColumns(it)
  {
    forall it | it in ParsedItems(sources, parseSite, parseTg) ensures FitsColumns(it) {
      var src :| src in sources && src.enabled && ParseSource(src, parseSite, parseTg).Ok?
                 && it in ParseSource(src, parseSite, parseTg).value;
      var items := ParseSource(src, parseSite, parseTg).value;
      var k :| 0 <= k < |items| && items[k] == it;
      if src.kind == Site {
        Habr.ParseCardsFit(cardsOf(src), sha, k);
      } else {
        Telegram.ChannelItemsFit(src, Take(historyOf(src), Telegram.MessageLimit), sha);
      }
    }
  }

  /** Generate and publish change posts only, so they keep the widths. */
  lemma StepsKeepColumns(db: Db, newsId: nat, g: Result<string, string>, postId: nat,
                         p: Result<(), string>, now: Timestamp)
    requires ColumnsFit(db)
    ensures ColumnsFit(GenerateStep(db, newsId, g).db)
    ensures ColumnsFit(PublishStep(db, postId, p, now).db)
  {
  }
}
