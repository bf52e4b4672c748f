/** `get_full_url` (app/news_parser/utils.py): turning the `href` of a link
    tag into the link stored with a news item. It is string concatenation,
    not relative-reference resolution: no separator is inserted or removed. */
module UrlUtils {
  import opened Wrappers
  import opened Text

  /** An already-extracted `<a>` tag: its `href` attribute, if any, and its
      stripped text. */
  datatype Anchor = Anchor(href: Option<string>, text: string)

  predicate IsAbsolute(href: string)
  {
    StartsWith(href, "http://") || StartsWith(href, "https://")
  }

  /** True when the tag carries a non-empty `href` (Python's `not href` is
      false for `None` and for the empty string). */
  predicate HasHref(tag: Option<Anchor>)
  {
    tag.Some? && tag.value.href.Some? && tag.value.href.value != ""
  }

  function GetFullUrl(tag: Option<Anchor>, baseUrl: string): (r: Option<string>)
    ensures r.Some? <==> HasHref(tag)
    ensures r.Some? ==> r.value != ""
  {
    if tag.None? then None
    else if tag.value.href.None? || tag.value.href.value == "" then None
    else if IsAbsolute(tag.value.href.value) then Some(tag.value.href.value)
    else Some(baseUrl + tag.value.href.value)
  }

  /** The `href` always survives as the tail of the link: an absolute one
      unchanged, any other one appended to the base with nothing in between. */
  lemma FullUrlShape(tag: Option<Anchor>, baseUrl: string)
    requires HasHref(tag)
    ensures var href := tag.value.href.value;
      GetFullUrl(tag, baseUrl) == Some(if IsAbsolute(href) then href else baseUrl + href)
  {
  }
}
