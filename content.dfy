/** What the detail panel displays for an entry (script.js `loadMarkdownContent`
    and the content branch of `showContentPanel`), and where the glossary
    data comes from (`loadVocabularyData`). Network answers are inputs. */
module Content {
  import opened Options
  import opened Text
  import opened Vocabulary

  /** What `fetch` gives back for one request: a response with its `ok` flag,
      status, status text and body, or a rejection carrying an error message. */
  datatype FetchResponse =
    | Response(ok: bool, status: nat, statusText: string, body: string)
    | Rejected(message: string)

  /** The message of the error thrown for a response that is not `ok`. */
  function HttpErrorMessage(status: nat, statusText: string): string
  {
    "HTTP error: " + NatToDecimal(status) + " " + statusText
  }

  /** `loadMarkdownContent`: the Markdown body converted by `marked` when it is
      loaded, or wrapped verbatim in a `<pre>` block when it is not; a
      rejection or a response that is not `ok` becomes a thrown error. */
  function LoadMarkdownContent(response: FetchResponse, marked: Option<string -> string>): (r: Result<string>)
    ensures r.Ok? <==> response.Response? && response.ok
    ensures response.Rejected? ==> r == Err(response.message)
    ensures response.Response? && !response.ok ==> r == Err(HttpErrorMessage(response.status, response.statusText))
    ensures r.Ok? && marked.Some? ==> r.value == marked.value(response.body)
  {
    match response
    case Rejected(message) => Err(message)
    case Response(ok, status, statusText, body) =>
      if !ok then Err(HttpErrorMessage(status, statusText))
      else if marked.Some? then Ok(marked.value(body))
      else Ok("<pre>" + body + "</pre>")
  }

  /** Reads the text back out of a `<pre>…</pre>` block. */
  function UnwrapPre(html: string): Option<string>
  {
    if |html| >= 11 && html[..5] == "<pre>" && html[|html| - 6..] == "</pre>"
    then Some(html[5..|html| - 6])
    else None
  }

  /** Without a Markdown renderer the panel receives the raw text, unaltered,
      inside a `<pre>` block. */
  lemma RawFallbackKeepsText(status: nat, statusText: string, body: string)
    ensures LoadMarkdownContent(Response(true, status, statusText, body), None).Ok?
    ensures UnwrapPre(LoadMarkdownContent(Response(true, status, statusText, body), None).value) == Some(body)
  {
    var html := "<pre>" + body + "</pre>";
    assert html[..5] == "<pre>";
    assert html[|html| - 6..] == "</pre>";
    assert html[5..|html| - 6] == body;
  }

  /** What the panel's content area holds. `Html` is any markup assigned to it
      (rendered Markdown or an entry's inline content). */
  datatype Display =
    | Blank
    | Loading
    | Html(html: string)
    | ErrorNotice(message: string, path: string)
    | NoContentNotice

  /** What `showContentPanel` leaves in the panel before returning: the loading
      indicator when content will arrive later (a fetch for a content path, a
      short timer for inline content), the "no content" notice otherwise. */
  function InitialDisplay(item: Item): (d: Display)
    ensures d == Loading <==> IsTruthy(item.contentPath) || IsTruthy(item.content)
    ensures d != Loading ==> d == NoContentNotice
  {
    if IsTruthy(item.contentPath) || IsTruthy(item.content) then Loading else NoContentNotice
  }

  /** The content an entry finally displays. A content path is fetched first;
      its failure falls back to inline content and, failing that, to an error
      naming the message and the path. Without a path the inline content is
      used, and without either the "no content" notice. */
  function ResolveContent(item: Item, response: FetchResponse, marked: Option<string -> string>): (d: Display)
    ensures d != Blank && d != Loading
    ensures IsTruthy(item.contentPath) && LoadMarkdownContent(response, marked).Ok?
      ==> d == Html(LoadMarkdownContent(response, marked).value)
    ensures IsTruthy(item.contentPath) && LoadMarkdownContent(response, marked).Err? && IsTruthy(item.content)
      ==> d == Html(item.content.value)
    ensures d.ErrorNotice?
      <==> IsTruthy(item.contentPath) && !IsTruthy(item.content) && !(response.Response? && response.ok)
    ensures d.ErrorNotice?
      ==> d.path == item.contentPath.value && d.message == LoadMarkdownContent(response, marked).message
    ensures !IsTruthy(item.contentPath) && IsTruthy(item.content) ==> d == Html(item.content.value)
    ensures !IsTruthy(item.contentPath) && !IsTruthy(item.content) ==> d == NoContentNotice
  {
    if IsTruthy(item.contentPath) then
      match LoadMarkdownContent(response, marked)
      case Ok(html) => Html(html)
      case Err(message) =>
        if IsTruthy(item.content) then Html(item.content.value)
        else ErrorNotice(message, item.contentPath.value)
    else if IsTruthy(item.content) then Html(item.content.value)
    else NoContentNotice
  }

  /** When `showContentPanel` settles the panel at once, what it shows is
      what the resolution policy gives for any network answer. */
  lemma ImmediateDisplayIsFinal(item: Item, response: FetchResponse, marked: Option<string -> string>)
    requires InitialDisplay(item) != Loading
    ensures InitialDisplay(item) == ResolveContent(item, response, marked)
  {
  }

  /** An entry without a content path never shows an error, whatever the network does. */
  lemma NoPathNeverErrors(item: Item, response: FetchResponse, marked: Option<string -> string>)
    requires !IsTruthy(item.contentPath)
    ensures !ResolveContent(item, response, marked).ErrorNotice?
  {
  }

  /** The outcome of fetching and parsing the glossary data as JSON. */
  datatype DataResponse = Loaded(items: seq<Item>) | LoadFailed(message: string)

  /** `loadVocabularyData`: the fetched entries, or on any failure the entries
      already held, or the built-in fallback list (`window.fallbackVocabularyData`,
      an empty list when it is not defined) when none are held. */
  function LoadVocabularyData(current: seq<Item>, response: DataResponse, fallback: Option<seq<Item>>): (r: seq<Item>)
    ensures response.Loaded? ==> r == response.items
    ensures response.LoadFailed? && current != [] ==> r == current
    ensures response.LoadFailed? && current == [] && fallback.Some? ==> r == fallback.value
    ensures response.LoadFailed? && fallback.None? ==> r == current
  {
    match response
    case Loaded(items) => items
    case LoadFailed(_) =>
      if current == [] then (if fallback.Some? then fallback.value else []) else current
  }

  /** A failed first load shows the fallback list: with "all" and no search
      the grid is exactly the fallback entries, in order. */
  lemma FailedLoadShowsFallback(fallback: seq<Item>, message: string)
    ensures Visible(LoadVocabularyData([], LoadFailed(message), Some(fallback)), ShowAll, None) == fallback
  {
    ShowAllKeepsEveryItem(fallback);
  }
}
