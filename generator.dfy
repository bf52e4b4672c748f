/** The retry policy of `generate_telegram_post` (app/ai/generator.py). The
    OpenAI client is abstracted away: its creation either fails or not, and
    each call of the completion API has an outcome given in advance. Sleeps
    are recorded, in milliseconds, in a ghost log instead of being taken. */
module Generator {
  import opened Wrappers
  import opened Text
  import opened Models

  const MaxAttempts: nat := 5
  /** `time.sleep(1.5 * (attempt + 1))`, in milliseconds. */
  const BackoffStepMs: nat := 1500
  const ExhaustedPrefix := "OpenAI failed after retries: "
  /** What `.strip()` on a missing message content raises. */
  const NoContentError := "'NoneType' object has no attribute 'strip'"

  /** The outcome of one call of the completion API. */
  datatype Attempt =
    | Completion(content: Option<string>)  // a response; `None` when it carries no text
    | RateLimited(message: string)         // `RateLimitError`
    | ApiFailure(message: string)          // any other `APIError`
    | Unexpected(message: string)          // any other exception

  /** The errors the loop catches and retries. */
  predicate Retryable(a: Attempt)
  {
    a.RateLimited? || a.ApiFailure?
  }

  /** What `generate_telegram_post` raises. */
  datatype GenError =
    | ClientFailed(message: string)       // `get_openai_client` raised
    | NonRetryable(message: string)       // re-raised at once
    | RetriesExhausted(lastError: string) // the final `RuntimeError`

  /** `str(e)` of the raised exception. */
  function ErrorText(e: GenError): string
  {
    match e
    case ClientFailed(m) => m
    case NonRetryable(m) => m
    case RetriesExhausted(m) => ExhaustedPrefix + m
  }

  /** The values substituted into the user prompt template. */
  datatype PromptFields = PromptFields(title: string, summary: string, source: string, url: string)

  /** `USER_TEMPLATE.format(...)`'s arguments; a missing url becomes "". */
  function Prompt(news: NewsItem): (p: PromptFields)
    ensures p.title == news.title && p.summary == news.summary && p.source == news.source
    ensures news.url.None? ==> p.url == ""
    ensures news.url.Some? ==> p.url == news.url.value
  {
    PromptFields(news.title, news.summary, news.source, if news.url.Some? then news.url.value else "")
  }

  /** How many attempts, from the first, fail with a retryable error. */
  function LeadingFailures(attempts: seq<Attempt>): (n: nat)
    ensures n <= |attempts|
    ensures forall j :: 0 <= j < n ==> Retryable(attempts[j])
    ensures n < |attempts| ==> !Retryable(attempts[n])
  {
    if attempts == [] || !Retryable(attempts[0]) then 0 else 1 + LeadingFailures(attempts[1..])
  }

  /** The sleeps after `n` failed attempts: 1.5 s, 3 s, ..., 1.5·n s. */
  function Backoff(n: nat): (sleeps: seq<nat>)
    ensures |sleeps| == n
    ensures forall j :: 0 <= j < n ==> sleeps[j] == BackoffStepMs * (j + 1)
  {
    if n == 0 then [] else Backoff(n - 1) + [BackoffStepMs * n]
  }

  /** The outcome decided by the first `MaxAttempts` attempts. */
  function RetryOutcome(attempts: seq<Attempt>): (r: Result<string, GenError>)
    requires |attempts| >= MaxAttempts
    ensures r.Err? ==> !r.error.ClientFailed?
    ensures r.Ok? ==> exists k :: 0 <= k < MaxAttempts && attempts[k].Completion? && attempts[k].content.Some?
    ensures r.Err? && r.error.NonRetryable? ==> exists k :: 0 <= k < MaxAttempts && !Retryable(attempts[k])
  {
    var n := LeadingFailures(attempts[..MaxAttempts]);
    if n == MaxAttempts then Err(RetriesExhausted(attempts[MaxAttempts - 1].message))
    else if attempts[n].Completion? then
      if attempts[n].content.Some? then Ok(Strip(attempts[n].content.value))
      else Err(NonRetryable(NoContentError))
    else Err(NonRetryable(attempts[n].message))
  }

  /** How many calls of the API are made. */
  function CallsMade(attempts: seq<Attempt>): nat
    requires |attempts| >= MaxAttempts
  {
    var n := LeadingFailures(attempts[..MaxAttempts]);
    if n == MaxAttempts then n else n + 1
  }

  /** `generate_telegram_post`: `clientError` says whether creating the
      client raises, `attempts[k]` is the outcome of call `k`. The ghost
      `prompts` records the user prompt each call is sent. */
  method GenerateTelegramPost(news: NewsItem, clientError: Option<string>, attempts: seq<Attempt>)
    returns (r: Result<string, GenError>, calls: nat, ghost sleeps: seq<nat>, ghost prompts: seq<PromptFields>)
    requires |attempts| >= MaxAttempts
    ensures clientError.Some? ==> r == Err(ClientFailed(clientError.value)) && calls == 0
    ensures clientError.None? ==> r == RetryOutcome(attempts) && calls == CallsMade(attempts)
    ensures clientError.Some? ==> sleeps == []
    ensures clientError.None? ==> sleeps == Backoff(LeadingFailures(attempts[..MaxAttempts]))
    ensures |prompts| == calls && forall c :: 0 <= c < |prompts| ==> prompts[c] == Prompt(news)
  {
    sleeps := [];
    prompts := [];
    calls := 0;
    if clientError.Some? {
      r := Err(ClientFailed(clientError.value));
      return;
    }
    var prompt := Prompt(news);
    var lastErr: Option<string> := None;
    for attempt := 0 to MaxAttempts
      invariant calls == attempt
      invariant |prompts| == calls && forall c :: 0 <= c < |prompts| ==> prompts[c] == prompt
      invariant forall j :: 0 <= j < attempt ==> Retryable(attempts[j])
      invariant sleeps == Backoff(attempt)
      invariant attempt > 0 ==> lastErr == Some(attempts[attempt - 1].message)
    {
      calls := calls + 1;
      prompts := prompts + [prompt];
      var a := attempts[attempt];
      if a.Completion? {
        if a.content.Some? {
          r := Ok(Strip(a.content.value));
        } else {
          r := Err(NonRetryable(NoContentError));
        }
        StopsAt(attempts, attempt);
        return;
      } else if a.Unexpected? {
        r := Err(NonRetryable(a.message));
        StopsAt(attempts, attempt);
        return;
      }
      lastErr := Some(a.message);
      sleeps := sleeps + [BackoffStepMs * (attempt + 1)];
    }
    StopsAt(attempts, MaxAttempts);
    r := Err(RetriesExhausted(lastErr.value));
  }

  /** The outcome when the first `k` attempts fail with a retryable error
      and attempt `k`, if there is one within the limit, does not. */
  lemma StopsAt(attempts: seq<Attempt>, k: nat)
    requires |attempts| >= MaxAttempts && k <= MaxAttempts
    requires forall j :: 0 <= j < k ==> Retryable(attempts[j])
    requires k < MaxAttempts ==> !Retryable(attempts[k])
    ensures LeadingFailures(attempts[..MaxAttempts]) == k
    ensures CallsMade(attempts) == if k == MaxAttempts then k else k + 1
    ensures k == MaxAttempts ==> RetryOutcome(attempts) == Err(RetriesExhausted(attempts[k - 1].message))
    ensures k < MaxAttempts && attempts[k].Completion? ==>
      RetryOutcome(attempts) == if attempts[k].content.Some? then Ok(Strip(attempts[k].content.value))
                                else Err(NonRetryable(NoContentError))
    ensures k < MaxAttempts && !attempts[k].Completion? ==>
      RetryOutcome(attempts) == Err(NonRetryable(attempts[k].message))
  {
    LeadingFailuresAt(attempts[..MaxAttempts], k);
  }

  // ------------------------------------------------------------ properties

  /** The text `generate_post_task` stores in `posts.error` when generating
      raises (`str(e)`): the message of the attempt that stopped the loop,
      the missing-content error, or, after five retryable failures, the
      fifth failure's message behind the fixed prefix. */
  lemma {:induction false} FailureText(attempts: seq<Attempt>, k: nat)
    requires |attempts| >= MaxAttempts && k <= MaxAttempts
    requires forall j :: 0 <= j < k ==> Retryable(attempts[j])
    requires k < MaxAttempts ==> !Retryable(attempts[k])
    ensures k == MaxAttempts ==>
      RetryOutcome(attempts).Err? && ErrorText(RetryOutcome(attempts).error) == ExhaustedPrefix + attempts[k - 1].message
    ensures k < MaxAttempts && attempts[k].Unexpected? ==>
      RetryOutcome(attempts).Err? && ErrorText(RetryOutcome(attempts).error) == attempts[k].message
    ensures k < MaxAttempts && attempts[k].Completion? && attempts[k].content.None? ==>
      RetryOutcome(attempts).Err? && ErrorText(RetryOutcome(attempts).error) == NoContentError
    ensures k < MaxAttempts && attempts[k].Completion? && attempts[k].content.Some? ==> RetryOutcome(attempts).Ok?
  {
    StopsAt(attempts, k);
  }

  /** The count of leading failures is determined by where the first
      non-retryable attempt sits. */
  lemma {:induction false} LeadingFailuresAt(attempts: seq<Attempt>, k: nat)
    requires k <= |attempts|
    requires forall j :: 0 <= j < k ==> Retryable(attempts[j])
    requires k < |attempts| ==> !Retryable(attempts[k])
    ensures LeadingFailures(attempts) == k
  {
    if k > 0 {
      LeadingFailuresAt(attempts[1..], k - 1);
    }
  }

  /** The API is called at least once and at most five times. The first
      success ends the loop with its content stripped; a non-retryable error
      ends it at once; only five retryable failures in a row exhaust it, and
      then the error carries the fifth failure's message. */
  lemma {:induction false} RetryPolicy(attempts: seq<Attempt>, k: nat)
    requires |attempts| >= MaxAttempts && k < MaxAttempts
    requires forall j :: 0 <= j < k ==> Retryable(attempts[j])
    ensures 1 <= CallsMade(attempts) <= MaxAttempts
    ensures attempts[k].Completion? && attempts[k].content.Some? ==>
      RetryOutcome(attempts) == Ok(Strip(attempts[k].content.value)) && CallsMade(attempts) == k + 1
    ensures attempts[k].Unexpected? ==>
      RetryOutcome(attempts) == Err(NonRetryable(attempts[k].message)) && CallsMade(attempts) == k + 1
    ensures RetryOutcome(attempts).Err? && RetryOutcome(attempts).error.RetriesExhausted? <==>
      forall j :: 0 <= j < MaxAttempts ==> Retryable(attempts[j])
  {
    var first := attempts[..MaxAttempts];
    if !Retryable(attempts[k]) {
      LeadingFailuresAt(first, k);
    }
    if forall j :: 0 <= j < MaxAttempts ==> Retryable(attempts[j]) {
      LeadingFailuresAt(first, MaxAttempts);
    }
  }

  /** The backoff is linear: each sleep is 1.5 s longer than the one before,
      and five failures sleep 22.5 s in all, the last sleep included. */
  lemma {:induction false} BackoffLinear(n: nat)
    ensures forall j :: 0 < j < n ==> Backoff(n)[j] == Backoff(n)[j - 1] + BackoffStepMs
    ensures n <= MaxAttempts ==> Sum(Backoff(n)) <= 22500
  {
    SumBackoff(n);
    if n <= MaxAttempts {
      assert n * (n + 1) <= 5 * (n + 1) <= 30;
    }
  }

  function Sum(s: seq<nat>): nat
  {
    if s == [] then 0 else Sum(s[..|s| - 1]) + s[|s| - 1]
  }

  /** The total of the first `n` sleeps: 1500 · n(n+1)/2 ms. */
  lemma {:induction false} SumBackoff(n: nat)
    ensures Sum(Backoff(n)) == 750 * (n * (n + 1))
  {
    if n > 0 {
      SumBackoff(n - 1);
      assert Backoff(n)[..n - 1] == Backoff(n - 1);
      assert Sum(Backoff(n)) == Sum(Backoff(n - 1)) + 1500 * n;
      assert (n - 1) * n + 2 * n == n * (n + 1);
    }
  }
}
