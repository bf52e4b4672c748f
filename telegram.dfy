/** The Telegram channel normaliser (app/news_parser/telegram.py). The
    Telethon client is abstracted away: it either fails or yields the
    channel's history as a list of objects, newest first. */
module Telegram {
  import opened Wrappers
  import opened Text
  import opened Models
  import opened Selection

  const NoTitle := "(no title)"
  const MessageLimit: nat := 30
  const TgTitleMax: nat := 140
  const SummaryMax: nat := 5000
  const RawTextMax: nat := 10000
  const LinkPrefix := "https://t.me/"

  /** `TG_API_ID` and `TG_API_HASH` from the settings. */
  datatype Credentials = Credentials(apiId: Option<int>, apiHash: Option<string>)

  /** Python's `not settings.TG_API_ID or not settings.TG_API_HASH` is false:
      an id of 0 and an empty hash count as unset. */
  predicate CredentialsSet(c: Credentials)
  {
    c.apiId.Some? && c.apiId.value != 0 && c.apiHash.Some? && c.apiHash.value != ""
  }

  /** One object yielded by `iter_messages`: a `Message` (its id, its text,
      and its date already resolved to UTC, with `now` standing in when it
      has none; that resolution is not modelled) or any other object. */
  datatype TgObject = OtherObject | Message(id: nat, message: Option<string>, date: Timestamp)

  /** The link built for a message: only for an entity written `@name`. */
  function MessageLink(entity: string, id: nat): (r: Option<string>)
    ensures r.Some? <==> StartsWith(entity, "@")
    ensures r.Some? ==> r.value == LinkPrefix + entity[1..] + "/" + Decimal(id)
  {
    if StartsWith(entity, "@") then Some(LinkPrefix + entity[1..] + "/" + Decimal(id)) else None
  }

  /** The body of the loop in `_parse_tg_async` for one object. */
  function NormaliseMessage(source: Source, obj: TgObject, sha: Hash): (r: Option<NewsItem>)
    ensures r.None? <==> obj.OtherObject? || obj.message.None? || obj.message.value == ""
    ensures r.Some? ==>
      && r.value.source == source.name
      && r.value.publishedAt == obj.date
      && r.value.rawText.Some?
      && |r.value.summary| <= SummaryMax
      && (r.value.url.Some? <==> StartsWith(source.url, "@"))
  {
    if obj.OtherObject? then None
    else if obj.message.None? || obj.message.value == "" then None
    else
      var text := Strip(obj.message.value);
      var title := if text != "" then Take(FirstLine(text), TgTitleMax) else NoTitle;
      var link := MessageLink(source.url, obj.id);
      var hasLink := link.Some? && link.value != "";
      // `link or f"{source.name}|{msg.id}|{published_at.isoformat()}"`
      var fpBase := if hasLink then link.value else source.name + "|" + Decimal(obj.id) + "|" + obj.date.iso;
      Some(NewsItem(
        title := Take(title, TitleMax),
        url := if hasLink then Some(Take(link.value, UrlMax)) else None,
        summary := Take(text, SummaryMax),
        source := source.name,
        publishedAt := obj.date,
        rawText := Some(Take(text, RawTextMax)),
        fingerprint := sha(fpBase)))
  }

  function MessageItem(source: Source, sha: Hash): TgObject -> Option<NewsItem>
  {
    (obj: TgObject) => NormaliseMessage(source, obj, sha)
  }

  /** `_parse_tg_async`: read at most 30 objects of the history and append
      one item for each message with text. A client failure propagates. */
  method ParseTgAsync(source: Source, history: Result<seq<TgObject>, string>, sha: Hash)
    returns (r: Result<seq<NewsItem>, string>)
    ensures history.Err? ==> r == Err(history.error)
    ensures history.Ok? ==> r == Ok(FilterMap(MessageItem(source, sha), Take(history.value, MessageLimit)))
  {
    if history.Err? {
      return Err(history.error);
    }
    var msgs := Take(history.value, MessageLimit);
    var items: seq<NewsItem> := [];
    for i := 0 to |msgs|
      invariant items == FilterMap(MessageItem(source, sha), msgs[..i])
    {
      FilterMapStep(MessageItem(source, sha), msgs, i);
      var it := NormaliseMessage(source, msgs[i], sha);
      if it.Some? {
        items := items + [it.value];
      }
    }
    assert msgs[..|msgs|] == msgs;
    r := Ok(items);
  }

  /** `parse_tg_source`: without credentials no client is opened and the
      result is empty, whatever the channel holds. */
  method ParseTgSource(creds: Credentials, source: Source, history: Result<seq<TgObject>, string>, sha: Hash)
    returns (r: Result<seq<NewsItem>, string>)
    ensures !CredentialsSet(creds) ==> r == Ok([])
    ensures CredentialsSet(creds) && history.Err? ==> r == Err(history.error)
    ensures CredentialsSet(creds) && history.Ok? ==>
      r.Ok? && |r.value| <= MessageLimit
      && r.value == FilterMap(MessageItem(source, sha), Take(history.value, MessageLimit))
  {
    if !CredentialsSet(creds) {
      return Ok([]);
    }
    r := ParseTgAsync(source, history, sha);
  }

  // ------------------------------------------------------------ properties

  /** Skipped objects, and the fields of a message's item. */
  lemma {:induction false} MessageItemFields(source: Source, obj: TgObject, sha: Hash)
    ensures NormaliseMessage(source, obj, sha).None? <==>
      obj.OtherObject? || obj.message.None? || obj.message.value == ""
    ensures NormaliseMessage(source, obj, sha).Some? ==>
      var it := NormaliseMessage(source, obj, sha).value;
      var text := Strip(obj.message.value);
      var link := MessageLink(source.url, obj.id);
      && 0 < |it.title| <= TgTitleMax
      && (text != "" ==> it.title == Take(FirstLine(text), TgTitleMax))
      && (text == "" ==> it.title == NoTitle)
      && it.url == (if link.Some? then Some(Take(link.value, UrlMax)) else None)
      && it.fingerprint == sha(if link.Some? then link.value
                               else source.name + "|" + Decimal(obj.id) + "|" + obj.date.iso)
      && it.summary == Take(text, SummaryMax)
      && it.rawText == Some(Take(text, RawTextMax))
      && it.source == source.name
  {
    if NormaliseMessage(source, obj, sha).Some? {
      var text := Strip(obj.message.value);
      if text != "" {
        FirstLineOfStripped(text);
      }
    }
  }

  /** A link exists exactly for an `@name` entity, and then it names the
      channel and the message: two messages of one channel get the same
      link only when they have the same id. */
  lemma {:induction false} MessageLinkDistinct(entity: string, id1: nat, id2: nat)
    ensures MessageLink(entity, id1).Some? <==> StartsWith(entity, "@")
    ensures MessageLink(entity, id1).Some? && MessageLink(entity, id1) == MessageLink(entity, id2) ==> id1 == id2
  {
    if StartsWith(entity, "@") && MessageLink(entity, id1) == MessageLink(entity, id2) {
      var head := LinkPrefix + entity[1..] + "/";
      assert MessageLink(entity, id1).value == head + Decimal(id1);
      assert MessageLink(entity, id2).value == head + Decimal(id2);
      assert Decimal(id1) == (head + Decimal(id1))[|head|..];
      assert Decimal(id2) == (head + Decimal(id2))[|head|..];
      DecimalInjective(id1, id2);
    }
  }

  /** A message's item fits the `news_items` columns when the hash is a
      64-character digest. */
  lemma MessageItemFits(source: Source, obj: TgObject, sha: Hash)
    requires IsHexDigest(sha)
    requires obj.Message? && obj.message.Some? && obj.message.value != ""
    ensures NormaliseMessage(source, obj, sha).Some?
    ensures FitsColumns(NormaliseMessage(source, obj, sha).value)
  {
    MessageItemFields(source, obj, sha);
    var it := NormaliseMessage(source, obj, sha).value;
    assert |it.title| <= TgTitleMax <= TitleMax;
    assert it.url.Some? ==> |it.url.value| <= UrlMax;
    assert |it.fingerprint| == FingerprintMax;
  }

  /** Every item read from a channel fits the `news_items` columns and
      names the channel as its source. */
  lemma {:induction false} ChannelItemsFit(source: Source, objs: seq<TgObject>, sha: Hash)
    requires IsHexDigest(sha)
    ensures forall it :: it in FilterMap(MessageItem(source, sha), objs) ==>
      FitsColumns(it) && it.source == source.name
  {
    var f := MessageItem(source, sha);
    var out := FilterMap(f, objs);
    forall it | it in out
      ensures FitsColumns(it) && it.source == source.name
    {
      var k :| 0 <= k < |out| && out[k] == it;
      FilterMapFrom(f, objs, k);
      var j :| 0 <= j < |objs| && f(objs[j]) == Some(it);
      assert NormaliseMessage(source, objs[j], sha) == Some(it);
      MessageItemFields(source, objs[j], sha);
      MessageItemFits(source, objs[j], sha);
    }
  }
}
