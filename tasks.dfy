/** The three Celery tasks of app/tasks.py run step by step against a
    mutable store: the database session (committed rows, rows added and
    flushed but not committed, the id counters) and the task queue that
    `.delay` appends to. Each task is proved to do what module Pipeline
    specifies, and so to keep the schema. */
module Tasks {
  import opened Wrappers
  import opened Text
  import opened Models
  import opened Pipeline

  class Store {
    var news: map<nat, NewsItem>
    var posts: map<nat, Post>
    var pendingNews: map<nat, NewsItem>
    var pendingPosts: map<nat, Post>
    var nextNewsId: nat
    var nextPostId: nat
    /** The tasks enqueued so far, oldest first. */
    var queue: seq<Task>

    ghost function State(): Db
      reads this
    {
      Db(news, posts, pendingNews, pendingPosts, nextNewsId, nextPostId)
    }

    ghost predicate Valid()
      reads this
    {
      DbValid(State())
    }

    /** An empty database and an empty queue. */
    constructor ()
      ensures State() == Db(map[], map[], map[], map[], 0, 0) && queue == []
      ensures Valid() && Quiescent(State()) && Paired(State())
    {
      news, posts, pendingNews, pendingPosts := map[], map[], map[], map[];
      nextNewsId, nextPostId := 0, 0;
      queue := [];
      new;
      assert NewsIdsOf(posts) == {};
      assert NewsIdsOf(pendingPosts) == {};
    }

    // ------------------------------------------------- session operations

    /** `db.add(news)` then `db.flush()`: the insert takes the next id, or
        fails on `uq_news_fingerprint` and changes nothing. */
    method FlushNews(it: NewsItem) returns (id: Option<nat>)
      modifies this
      ensures id.None? <==> FingerprintIn(old(news), it.fingerprint) || FingerprintIn(old(pendingNews), it.fingerprint)
      ensures id.None? ==> State() == old(State())
      ensures id.Some? ==>
        && id.value == old(nextNewsId)
        && State() == old(State()).(pendingNews := old(pendingNews)[id.value := it], nextNewsId := id.value + 1)
      ensures queue == old(queue)
    {
      if FingerprintIn(news, it.fingerprint) || FingerprintIn(pendingNews, it.fingerprint) {
        return None;
      }
      id := Some(nextNewsId);
      pendingNews := pendingNews[nextNewsId := it];
      nextNewsId := nextNewsId + 1;
    }

    /** `db.add(post)` of a post that is then flushed: it takes the next id. */
    method AddPost(p: Post) returns (id: nat)
      modifies this
      ensures id == old(nextPostId)
      ensures State() == old(State()).(pendingPosts := old(pendingPosts)[id := p], nextPostId := id + 1)
      ensures queue == old(queue)
    {
      id := nextPostId;
      pendingPosts := pendingPosts[id := p];
      nextPostId := nextPostId + 1;
    }

    /** `db.rollback()`. */
    method RollbackSession()
      modifies this
      ensures State() == Rollback(old(State())) && queue == old(queue)
    {
      pendingNews, pendingPosts := map[], map[];
    }

    /** `db.commit()`. */
    method CommitSession()
      modifies this
      ensures State() == Commit(old(State())) && queue == old(queue)
    {
      news := news + pendingNews;
      posts := posts + pendingPosts;
      pendingNews, pendingPosts := map[], map[];
    }

    /** `select(Post).where(Post.news_id == newsId).order_by(desc(Post.id)).first()`
        on a session with nothing uncommitted. */
    method FindPost(newsId: nat) returns (r: Option<nat>)
      requires OnePostPerNews(posts) && pendingPosts == map[]
      ensures r == PostOf(posts, newsId)
    {
      if exists p | p in posts :: posts[p].newsId == newsId {
        var p :| p in posts && posts[p].newsId == newsId;
        assert newsId in NewsIdsOf(posts);
        r := Some(p);
      } else {
        r := None;
      }
    }

    // --------------------------------------------------------- collect task

    /** One candidate of the inner loop of `run_pipeline_task`: the keyword
        gate, the flush of the item (rolled back when it fails) and the
        `add` of its `new` post. */
    method IngestCandidate(it: NewsItem, keywords: seq<Keyword>, scope: RollbackScope) returns (id: Option<nat>)
      modifies this
      ensures Ingested(State(), id) == IngestItem(old(State()), keywords, it, scope)
      ensures queue == old(queue)
    {
      if !PassesKeywordFilter(keywords, FullText(it)) {
        return None;
      }
      ghost var db := State();
      id := FlushNews(it);
      if id.None? {
        if scope == WholeTransaction {
          RollbackSession();
        }
        return;
      }
      var pid := AddPost(NewPost(id.value));
      assert State() == Insert(db, it);
    }

    /** The inner loop of `run_pipeline_task`, over the items of one source,
        appending to `created_news_ids`. */
    method IngestSource(items: seq<NewsItem>, keywords: seq<Keyword>, scope: RollbackScope, created0: seq<nat>)
      returns (created: seq<nat>)
      modifies this
      ensures Run(State(), created) == IngestItems(Run(old(State()), created0), keywords, items, scope)
      ensures queue == old(queue)
    {
      created := created0;
      for j := 0 to |items|
        invariant IngestItems(Run(State(), created), keywords, items[j..], scope)
               == IngestItems(Run(old(State()), created0), keywords, items, scope)
        invariant queue == old(queue)
      {
        assert items[j..][1..] == items[j + 1..];
        var id := IngestCandidate(items[j], keywords, scope);
        if id.Some? {
          created := created + [id.value];
        }
      }
      assert items[|items|..] == [];
    }

    /** `generate_post_task.delay(news_id)` for each recorded id. */
    method EnqueueGenerateTasks(ids: seq<nat>)
      modifies this
      ensures queue == old(queue) + GenerateTasks(ids)
      ensures State() == old(State())
    {
      for i := 0 to |ids|
        invariant queue == old(queue) + GenerateTasks(ids[..i])
        invariant State() == old(State())
      {
        assert GenerateTasks(ids[..i + 1]) == GenerateTasks(ids[..i]) + [GenerateTask(ids[i])];
        queue := queue + [GenerateTask(ids[i])];
      }
      assert ids[..|ids|] == ids;
    }

    /** The outer loop of `run_pipeline_task`, over the enabled sources; a
        source whose parser raises is skipped. */
    method IngestSources(enabled: seq<Source>, parseSite: Parser, parseTg: Parser, keywords: seq<Keyword>,
                         scope: RollbackScope)
      returns (created: seq<nat>)
      modifies this
      ensures Run(State(), created) == CollectSources(Run(old(State()), []), keywords, enabled, parseSite, parseTg, scope)
      ensures queue == old(queue)
    {
      created := [];
      for s := 0 to |enabled|
        invariant CollectSources(Run(State(), created), keywords, enabled[s..], parseSite, parseTg, scope)
               == CollectSources(Run(old(State()), []), keywords, enabled, parseSite, parseTg, scope)
        invariant queue == old(queue)
      {
        var src := enabled[s];
        assert enabled[s..][1..] == enabled[s + 1..];
        var parsed := if src.kind == Site then parseSite(src) else parseTg(src);
        if parsed.Ok? {
          created := IngestSource(parsed.value, keywords, scope, created);
        }
      }
      assert enabled[|enabled|..] == [];
    }

    /** `run_pipeline_task`. The parsers stand for `parse_site_source` and
        `parse_tg_source`, the sequences for the `sources` and `keywords`
        tables; `scope` is how much a failing flush rolls back, which in the
        code is the whole transaction. */
    method RunPipeline(sources: seq<Source>, parseSite: Parser, parseTg: Parser, keywords: seq<Keyword>,
                       scope: RollbackScope)
      returns (result: TaskResult, created: seq<nat>)
      requires Valid() && Quiescent(State())
      modifies this
      ensures var run := CollectRun(old(State()), sources, parseSite, parseTg, keywords, scope);
        State() == run.db && created == run.created
      ensures queue == old(queue) + GenerateTasks(created)
      ensures result == CreatedNews(|created|)
      ensures Valid() && Quiescent(State()) && (old(Paired(State())) ==> Paired(State()))
      ensures old(ColumnsFit(State())) && (forall it :: it in ParsedItems(sources, parseSite, parseTg) ==> FitsColumns(it))
              ==> ColumnsFit(State())
    {
      CollectRunProperties(State(), sources, parseSite, parseTg, keywords, scope);
      if ColumnsFit(State()) && forall it :: it in ParsedItems(sources, parseSite, parseTg) ==> FitsColumns(it) {
        CollectRunKeepsColumns(State(), sources, parseSite, parseTg, keywords, scope);
      }
      var enabled := EnabledSources(sources);
      created := IngestSources(enabled, parseSite, parseTg, keywords, scope);
      CommitSession();
      EnqueueGenerateTasks(created);
      result := CreatedNews(|created|);
    }

    // ------------------------------------------------------- generate task

    /** `generate_post_task` once the news item is found and the text is
        generated: the post (created and flushed if missing) takes the text,
        the commit follows, then the publish task is enqueued. */
    method GenerateSucceeded(newsId: nat, existing: Option<nat>, text: string) returns (pid: nat)
      requires Quiescent(State()) && newsId in news && existing == PostOf(posts, newsId)
      modifies this
      ensures var step := GenerateStep(old(State()), newsId, Ok(text));
        State() == step.db && PostId(pid) == step.result && queue == old(queue) + step.enqueued
    {
      if existing.None? {
        pid := AddPost(NewPost(newsId));
        pendingPosts := pendingPosts[pid := pendingPosts[pid].(generatedText := Some(text), status := Generated, error := None)];
      } else {
        pid := existing.value;
        posts := posts[pid := posts[pid].(generatedText := Some(text), status := Generated, error := None)];
      }
      CommitSession();
      queue := queue + [PublishTask(pid)];
    }

    /** `generate_post_task` when generating raises: the rollback discards a
        post flushed by this task, then the post found afresh, if any, is
        marked `failed` and committed. */
    method GenerateFailed(newsId: nat, existing: Option<nat>, msg: string)
      requires Quiescent(State()) && OnePostPerNews(posts) && newsId in news && existing == PostOf(posts, newsId)
      modifies this
      ensures State() == GenerateStep(old(State()), newsId, Err(msg)).db && queue == old(queue)
    {
      if existing.None? {
        var pid := AddPost(NewPost(newsId));
      }
      RollbackSession();
      var again := FindPost(newsId);
      if again.Some? {
        posts := posts[again.value := posts[again.value].(status := Failed, error := Some(msg))];
        CommitSession();
      }
    }

    /** `generate_post_task(newsId)`; `outcome` is what
        `generate_telegram_post` returns, or the text of what it raises. */
    method GeneratePost(newsId: nat, outcome: Result<string, string>) returns (result: TaskResult)
      requires Valid() && Quiescent(State())
      modifies this
      ensures var step := GenerateStep(old(State()), newsId, outcome);
        State() == step.db && result == step.result && queue == old(queue) + step.enqueued
      ensures Valid() && Quiescent(State()) && (old(Paired(State())) ==> Paired(State()))
      ensures old(ColumnsFit(State())) ==> ColumnsFit(State())
    {
      GenerateKeepsSchema(State(), newsId, outcome);
      if ColumnsFit(State()) {
        StepsKeepColumns(State(), newsId, outcome, 0, Ok(()), Timestamp(""));
      }
      if newsId !in news {
        return Error(NewsNotFound);
      }
      assert posts + pendingPosts == posts;
      var existing := FindPost(newsId);
      match outcome
      case Ok(text) =>
        var pid := GenerateSucceeded(newsId, existing, text);
        result := PostId(pid);
      case Err(msg) =>
        GenerateFailed(newsId, existing, msg);
        result := Raised(msg);
    }

    // -------------------------------------------------------- publish task

    /** `publish_post_task(postId)`; `outcome` is what `publish_to_channel`
        does with the text, `now` what `datetime.utcnow()` reads. `sent` is
        the text handed to the channel, if any. */
    method PublishPost(postId: nat, outcome: Result<(), string>, now: Timestamp)
      returns (result: TaskResult, sent: Option<string>)
      requires Valid() && Quiescent(State())
      modifies this
      ensures var step := PublishStep(old(State()), postId, outcome, now);
        State() == step.db && result == step.result && queue == old(queue)
      ensures sent == PublishSends(old(State()), postId)
      ensures Valid() && Quiescent(State()) && (old(Paired(State())) ==> Paired(State()))
      ensures old(ColumnsFit(State())) ==> ColumnsFit(State())
    {
      PublishKeepsSchema(State(), postId, outcome, now);
      if ColumnsFit(State()) {
        StepsKeepColumns(State(), 0, Ok(""), postId, outcome, now);
      }
      if postId !in posts {
        return Error(PostNotFound), None;
      }
      var p := posts[postId];
      if p.status == Published {
        return Skipped, None;
      }
      if p.generatedText.None? || p.generatedText.value == "" {
        return Error(NoGeneratedText), None;
      }
      sent := Some(p.generatedText.value);
      match outcome
      case Ok(_) =>
        posts := posts[postId := p.(status := Published, publishedAt := Some(now), error := None)];
        result := PublishedOk;
      case Err(m) =>
        posts := posts[postId := p.(status := Failed, error := Some(m))];
        result := Raised(m);
    }
  }
}
