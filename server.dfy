/** The server's two `/api/extract-job` handlers. The generative-language
    call, the page fetch (with the HTML parsing that turns the page body
    into text) and `JSON.parse` are outside code: each handler receives
    them as functions and reports, next to its response, the requests it
    made. */
module Server {
  import opened Wrappers
  import opened Sequences
  import opened JsText

  /** The marker a Markdown-wrapped JSON reply starts with. */
  const JsonFence := "```json"

  /** How much page text the second handler forwards. */
  const PageTextLimit := 10000

  /** The clean-up of the model's reply: trim it and, only when it starts
      with the JSON fence, delete every JSON fence and then every fence,
      each with one line feed after it. */
  function CleanReply(text: string): (r: string)
    ensures !(JsonFence <= Trim(text)) ==> r == Trim(text)
    ensures JsonFence <= Trim(text) ==> !HasSubstring(r, Fence)
    ensures JsonFence <= Trim(text) ==>
      Filter(r, OutsideToken(JsonFence)) == Filter(Trim(text), OutsideToken(JsonFence))
    ensures IsSubseq(r, Trim(text)) && IsSubseq(r, text)
  {
    var t := Trim(text);
    if JsonFence <= t then
      var inner := StripToken(t, JsonFence);
      var r := StripToken(inner, Fence);
      StripFenceLeavesNoFence(inner);
      assert forall c :: OutsideToken(JsonFence)(c) ==> OutsideToken(Fence)(c);
      FilterFilter(r, OutsideToken(JsonFence), OutsideToken(Fence));
      FilterFilter(inner, OutsideToken(JsonFence), OutsideToken(Fence));
      SubseqTransitive(r, inner, t);
      SubseqTransitive(r, t, text);
      r
    else
      SubseqRefl(t);
      SubseqTransitive(t, t, text);
      t
  }

  /** A reply that wraps a body without backticks in a JSON fence is
      unwrapped to that body: the opening fence goes with its line feed,
      the closing fence goes, and the line feed before it stays. */
  lemma {:induction false} CleanReplyUnwrapsJson(b: string)
    requires forall i :: 0 <= i < |b| ==> b[i] != '`'
    ensures CleanReply(JsonFence + "\n" + b + "\n" + Fence) == b + "\n"
  {
    var text := JsonFence + "\n" + b + "\n" + Fence;
    TrimIdentity(text);
    assert JsonFence <= text;
    OpeningFenceStripped(b);
    ClosingFenceStripped(b);
  }

  /** Deleting the JSON fences of a wrapped reply removes just the opening
      one with its line feed. */
  lemma {:induction false} OpeningFenceStripped(b: string)
    requires forall i :: 0 <= i < |b| ==> b[i] != '`'
    ensures StripToken(JsonFence + "\n" + b + "\n" + Fence, JsonFence) == b + "\n" + Fence
  {
    var tail := "\n" + Fence;
    var text := JsonFence + "\n" + b + "\n" + Fence;
    assert text[|JsonFence|..] == "\n" + (b + tail);
    StripTokenSkipsPlain(b, tail, JsonFence);
    StripTokenCons('\n', Fence, JsonFence);
    assert StripToken(Fence, JsonFence) == Fence;
    assert b + tail == b + "\n" + Fence;
  }

  /** Deleting the fences of the unwrapped reply removes the closing one. */
  lemma {:induction false} ClosingFenceStripped(b: string)
    requires forall i :: 0 <= i < |b| ==> b[i] != '`'
    ensures StripToken(b + "\n" + Fence, Fence) == b + "\n"
  {
    var tail := "\n" + Fence;
    assert b + "\n" + Fence == b + tail;
    StripTokenSkipsPlain(b, tail, Fence);
    StripTokenCons('\n', Fence, Fence);
    assert StripToken(Fence, Fence) == [];
  }

  /** `t.substring(0, limit)` */
  function Truncate(t: string, limit: nat): (r: string)
    ensures |r| <= limit && r <= t
    ensures |t| <= limit ==> r == t
    ensures |t| > limit ==> |r| == limit
  {
    if |t| <= limit then t else t[..limit]
  }

  /** The page text the second handler forwards:
      `text.replace(/\s+/g, ' ').trim().substring(0, 10000)`. */
  function NormalisePageText(s: string): (r: string)
    ensures |r| <= PageTextLimit
    ensures SingleSpaced(r)
    ensures r <= Trim(CollapseWs(s))
    ensures |Trim(CollapseWs(s))| <= PageTextLimit ==> r == Trim(CollapseWs(s))
    ensures |Trim(CollapseWs(s))| > PageTextLimit ==> |r| == PageTextLimit
    ensures Visible(r) <= Visible(s)
  {
    var t := Trim(CollapseWs(s));
    CollapsedTrimmedShape(s);
    TruncatedShape(t, PageTextLimit);
    Truncate(t, PageTextLimit)
  }

  /** Cutting single-spaced text short keeps it single-spaced and keeps a
      prefix of its visible characters. */
  lemma {:induction false} TruncatedShape(t: string, limit: nat)
    requires SingleSpaced(t)
    ensures SingleSpaced(Truncate(t, limit))
    ensures Visible(Truncate(t, limit)) <= Visible(t)
  {
    var r := Truncate(t, limit);
    PrefixSingleSpaces(t, |r|);
    assert r == t[..|r|];
  }

  /** Text with no leading whitespace in which whitespace only occurs as
      single spaces. */
  predicate SingleSpaced(t: string)
  {
    (t == [] || !IsWs(t[0])) && SingleSpaces(t)
  }

  /** Collapsing and then trimming gives single-spaced text with the same
      visible characters. */
  lemma {:induction false} CollapsedTrimmedShape(s: string)
    ensures SingleSpaced(Trim(CollapseWs(s)))
    ensures Visible(Trim(CollapseWs(s))) == Visible(s)
  {
    var c := CollapseWs(s);
    var u := TrimStart(c);
    var t := TrimEnd(u);
    TrimKeepsVisible(c);
    SuffixSingleSpaces(c, |c| - |u|);
    assert t == u[..|t|];
    PrefixSingleSpaces(u, |t|);
  }

  /** A suffix of single-spaced text is single-spaced. */
  lemma {:induction false} SuffixSingleSpaces(c: string, k: nat)
    requires k <= |c| && SingleSpaces(c)
    ensures SingleSpaces(c[k..])
  {
    assert forall i :: 0 <= i < |c[k..]| ==> c[k..][i] == c[k + i];
    assert forall i :: 0 <= i < |c[k..]| - 1 ==> WsPairAt(c[k..], i) == WsPairAt(c, k + i);
  }

  /** A prefix of single-spaced text is single-spaced, and its visible
      characters are a prefix of the whole's. */
  lemma {:induction false} PrefixSingleSpaces(t: string, n: nat)
    requires n <= |t| && SingleSpaces(t)
    ensures SingleSpaces(t[..n])
    ensures Visible(t[..n]) <= Visible(t)
  {
    assert t == t[..n] + t[n..];
    FilterConcat(t[..n], t[n..], IsVisible);
    assert forall i :: 0 <= i < n ==> t[..n][i] == t[i];
    assert forall i :: 0 <= i < n - 1 ==> WsPairAt(t[..n], i) == WsPairAt(t, i);
  }

  // ---------------------------------------------------------------------
  // The handlers

  /** What `generateContent` gives back: the reply text, or the message of
      the error it throws. */
  datatype ModelReply = Reply(text: string) | Failed(message: string)

  /** What the page fetch gives back: the response's `ok` flag and the text
      of its body with scripts, styles and page chrome removed, or the
      message of the error `fetch` throws. */
  datatype PageFetch = Page(ok: bool, bodyText: string) | FetchError(message: string)

  datatype Body<J> = ErrorOnly(error: string) | ErrorWithMessage(error: string, message: string) | Json(value: J)

  datatype Response<J> = Response(status: int, body: Body<J>)

  /** What a handler makes of the model's answer: the parsed job details,
      or the message of whichever step threw, the model call or
      `JSON.parse` of the cleaned reply. */
  function Outcome<J>(reply: ModelReply, parse: string -> Result<J, string>): Result<J, string>
  {
    match reply
    case Failed(m) => Failure(m)
    case Reply(text) => parse(CleanReply(text))
  }

  const UrlRequired := "Job URL is required"
  const ExtractFailed := "Failed to extract job details"
  const ScrapeFailed := "Failed to extract job details. Some sites block scraping."
  const FetchFailed := "Failed to fetch job posting"

  /** `!jobUrl` for a request body field that is absent or a string. */
  predicate MissingUrl(jobUrl: Option<string>)
  {
    jobUrl.None? || jobUrl.value == ""
  }

  /** The opening of the first handler's prompt, which embeds the URL; the
      fixed instructions after it are not modelled. */
  function UrlPrompt(url: string): string
  {
    "Extract job details from this URL: " + url
  }

  /** The opening of the second handler's prompt, which embeds the page text. */
  const PagePromptHead := "Extract job details from this job posting:\n\n"

  function PagePrompt(pageText: string): string
  {
    PagePromptHead + pageText
  }

  /** The handler registered first for `POST /api/extract-job`, the one
      requests reach. A missing URL is answered with 400 before anything is
      sent to the model; otherwise exactly one prompt is sent, and the reply
      is answered with 200 only when its cleaned text parses. */
  method ExtractJob<J>(jobUrl: Option<string>, generate: string -> ModelReply, parse: string -> Result<J, string>)
    returns (res: Response<J>, prompts: seq<string>)
    ensures res.status == 400 <==> MissingUrl(jobUrl)
    ensures MissingUrl(jobUrl) ==> res.body == ErrorOnly(UrlRequired) && prompts == []
    ensures !MissingUrl(jobUrl) ==> prompts == [UrlPrompt(jobUrl.value)]
    ensures res.status == 200 <==> !MissingUrl(jobUrl) && Outcome(generate(prompts[0]), parse).Success?
    ensures res.status == 200 ==> res.body == Json(Outcome(generate(prompts[0]), parse).value)
    ensures res.status == 500 <==> !MissingUrl(jobUrl) && res.status != 200
    ensures res.status == 500 ==>
      res.body == ErrorWithMessage(ExtractFailed, Outcome(generate(prompts[0]), parse).error)
  {
    if MissingUrl(jobUrl) {
      return Response(400, ErrorOnly(UrlRequired)), [];
    }
    var prompt := UrlPrompt(jobUrl.value);
    prompts := [prompt];
    match Outcome(generate(prompt), parse)
    case Failure(m) =>
      res := Response(500, ErrorWithMessage(ExtractFailed, m));
    case Success(details) =>
      res := Response(200, Json(details));
  }

  /** The handler registered second for `POST /api/extract-job` (never
      reached, since the first one always answers). A missing URL is
      answered with 400 before anything is fetched or sent; otherwise the
      URL is fetched once, and the model is asked once, with at most
      10000 characters of normalised page text, only when the fetch
      succeeded. */
  method ExtractJobFromPage<J>(jobUrl: Option<string>, fetch: string -> PageFetch,
                               generate: string -> ModelReply, parse: string -> Result<J, string>)
    returns (res: Response<J>, fetched: seq<string>, prompts: seq<string>)
    ensures res.status == 400 <==> MissingUrl(jobUrl)
    ensures MissingUrl(jobUrl) ==> res.body == ErrorOnly(UrlRequired) && fetched == [] && prompts == []
    ensures !MissingUrl(jobUrl) ==> fetched == [jobUrl.value]
    ensures !MissingUrl(jobUrl) && fetch(jobUrl.value).FetchError? ==>
      res == Response(500, ErrorWithMessage(ScrapeFailed, fetch(jobUrl.value).message)) && prompts == []
    ensures !MissingUrl(jobUrl) && fetch(jobUrl.value).Page? && !fetch(jobUrl.value).ok ==>
      res == Response(500, ErrorWithMessage(ScrapeFailed, FetchFailed)) && prompts == []
    ensures prompts != [] <==> !MissingUrl(jobUrl) && fetch(jobUrl.value).Page? && fetch(jobUrl.value).ok
    ensures prompts != [] ==>
      prompts == [PagePrompt(NormalisePageText(fetch(jobUrl.value).bodyText))] &&
      |prompts[0]| <= |PagePromptHead| + PageTextLimit
    ensures res.status == 200 <==> prompts != [] && Outcome(generate(prompts[0]), parse).Success?
    ensures res.status == 200 ==> res.body == Json(Outcome(generate(prompts[0]), parse).value)
    ensures res.status == 500 <==> !MissingUrl(jobUrl) && res.status != 200
    ensures res.status == 500 ==> res.body.ErrorWithMessage? && res.body.error == ScrapeFailed
    ensures res.status == 500 && prompts != [] ==>
      res.body.message == Outcome(generate(prompts[0]), parse).error
  {
    if MissingUrl(jobUrl) {
      return Response(400, ErrorOnly(UrlRequired)), [], [];
    }
    fetched := [jobUrl.value];
    prompts := [];
    match fetch(jobUrl.value)
    case FetchError(m) =>
      res := Response(500, ErrorWithMessage(ScrapeFailed, m));
    case Page(ok, bodyText) =>
      if !ok {
        res := Response(500, ErrorWithMessage(ScrapeFailed, FetchFailed));
        return;
      }
      var textContent := NormalisePageText(bodyText);
      var prompt := PagePrompt(textContent);
      prompts := [prompt];
      match Outcome(generate(prompt), parse)
      case Failure(m) =>
        res := Response(500, ErrorWithMessage(ScrapeFailed, m));
      case Success(details) =>
        res := Response(200, Json(details));
  }
}
