# Job-application tracker: record store, views and reply clean-up in Dafny

This project models the two parts of the job-application tracker that hold
logic.

**The client's applications page.** The page keeps a list of application
records. Each record has an id, company, position, status, application date,
term, portal URL and notes. The list is read from the browser's local
storage when the page mounts, and written back after every change. Three
operations change it:
- add a record, with the current time as its id;
- delete the records with a given id;
- set the status of the records with a given id.

Three views are computed from the list:
- the sorted list of distinct non-empty terms;
- the tallies: the total, and one count per status;
- the records matching a status selector and a term selector, where `all`
  matches anything.

**The server's `/api/extract-job` handlers.**
- They answer 400 when the job URL is missing.
- They clean the model's reply before parsing it. The reply is trimmed, and
  if it starts with a JSON code fence, every fence is removed.
- The second handler also normalises the scraped page text: each whitespace
  run becomes one space, the ends are trimmed, and the text is cut to 10000
  characters.

Files, one module each:
- `wrappers.dfy`: `Option` and `Result`.
- `sequences.dfy`: the array methods the page uses, with their laws. These
  are `filter`, `map` and `[...new Set(xs)]`, plus the subsequence relation
  that states "order is preserved".
- `string_order.dfy`: the order of strings used by `Array.prototype.sort`
  without a comparator, with an insertion sort that specifies `.sort()`.
- `applications.dfy`: the record and form datatypes, the three list updates
  and the three views, with their properties.
- `store.dfy`: the page's state as a class `ApplicationStore`. It holds the
  mutable `applications` list and a ghost `storage` field for the value
  under the `jobApplications` key. Its invariant `Valid()` is the
  write-through: storage always holds the current list.
- `js_text.dfy`: these JavaScript string operations:
  - `trim`;
  - the exact whitespace set of `trim` and `\s`;
  - a global regular-expression replace of a literal token and an optional
    line feed;
  - `replace(/\s+/g, ' ')`.
- `server.dfy`: the reply clean-up, the page-text normalisation, and both
  extract-job handlers. The model call, the page fetch and `JSON.parse` are
  passed in as functions.

Three behaviours of the code worth knowing, each modelled as the code has it:
- **Loading malformed storage.** `JSON.parse` throws on a malformed stored
  value, so only an absent or empty value gives `[]`; there is no fallback.
  `LoadApplications` and `ApplicationStore.Mount` fail on `Malformed`.
- **Ids are not guaranteed unique.** The id is `Date.now()`, so two records
  added in the same millisecond share one. Uniqueness is proved to be
  preserved when the clock reading is later than every existing id. Delete
  and update act on every record with a matching id.
- **Only the first `/api/extract-job` handler is reachable.** Under Express,
  the handler at `server/index.js:31` answers every request and never passes
  it on, so the one at `server/index.js:82` is never reached. Both are
  modelled: `ExtractJob` is the live one, `ExtractJobFromPage` the
  unreachable one.

## Model

| member | source | states |
|---|---|---|
| Store.LoadApplications | client/src/pages/ApplicationsPage.jsx:12-15 | An absent or empty stored value gives the empty list. A stored list is read back as it is. A value the parser rejects is an error, never a silent fallback. |
| Store.ApplicationStore.Mount | client/src/pages/ApplicationsPage.jsx:12-23 | Mounting fails exactly when the stored value is malformed. Otherwise the page holds the loaded list, and the persist effect has written it back (write-through holds). |
| Store.ApplicationStore.constructor | client/src/pages/ApplicationsPage.jsx:12-23 | The first state holds the initial list, already persisted. |
| Store.ApplicationStore.SetApplications | client/src/pages/ApplicationsPage.jsx:21-23 | Replacing the list also persists it: after the change, storage holds exactly the new list. |
| Store.ApplicationStore.Add | client/src/pages/ApplicationsPage.jsx:25-32 | Add appends one record with the clock reading as id and the form's fields, leaves earlier records in place, and keeps storage in step. Ids stay unique when the reading is later than every id. |
| Store.ApplicationStore.Delete | client/src/pages/ApplicationsPage.jsx:34-36 | Delete leaves exactly the records with another id, in order, persisted. An absent id changes nothing, and unique ids stay unique. |
| Store.ApplicationStore.UpdateStatus | client/src/pages/ApplicationsPage.jsx:38-46 | Length and order are kept. Records with the id get the new status with every other field kept, and all other records are unchanged. The result is persisted, and unique ids stay unique. |
| Store.ReloadReadsBack | client/src/pages/ApplicationsPage.jsx:12-23 | After any sequence of changes, loading the stored value gives back the current list (round trip through storage). |
| Applications.AppendedSpec | client/src/pages/ApplicationsPage.jsx:25-30 | The list grows by exactly one. The old records form its prefix. The last record has the timestamp as id and every field of the form copied. |
| Applications.AppendedKeepsIdsUnique | client/src/pages/ApplicationsPage.jsx:26-30 | With a timestamp later than every existing id, appending keeps ids unique. |
| Applications.RemovedSpec | client/src/pages/ApplicationsPage.jsx:34-35 | Deleting gives an order-preserving subsequence with no record of that id. Every other record keeps its multiplicity. An id no record has leaves the list unchanged. |
| Applications.RemovedOne | client/src/pages/ApplicationsPage.jsx:34-35 | With unique ids, deleting a present id shortens the list by exactly one. |
| Applications.RemovedKeepsIdsUnique | client/src/pages/ApplicationsPage.jsx:34-35 | Deleting keeps ids unique. |
| Applications.StatusUpdatedSpec | client/src/pages/ApplicationsPage.jsx:38-45 | The update keeps length and every id, position by position. A matching record equals the old one with only the status replaced, and any other record is identical. An absent id is a no-op. |
| Applications.StatusUpdatedKeepsIdsUnique | client/src/pages/ApplicationsPage.jsx:38-45 | Updating a status keeps ids unique. |
| Applications.StatsSpec | client/src/pages/ApplicationsPage.jsx:50-56 | The total is the list length. When every status is one of the four values, the four counts sum to the total. |
| Applications.FilteredAllIsIdentity | client/src/pages/ApplicationsPage.jsx:58-62 | With both selectors `all`, the view is the whole list in its order. |
| Applications.FilteredSpec | client/src/pages/ApplicationsPage.jsx:58-62 | Any view is an order-preserving subsequence. Every shown record satisfies both selectors. Every record that satisfies them is shown as often as it occurs. |
| Applications.FilteredMatchesStats | client/src/pages/ApplicationsPage.jsx:50-62 | Filtering by one of the four statuses, with term `all`, shows as many records as that status's count. |
| Applications.NamedTermsSpec | client/src/pages/ApplicationsPage.jsx:48 | `map(app => app.term).filter(Boolean)` holds exactly the non-empty terms that some record has. |
| Applications.TermsOfSpec | client/src/pages/ApplicationsPage.jsx:48 | `map(app => app.term)` holds exactly the records' terms. |
| Applications.UniqueTermsSpec | client/src/pages/ApplicationsPage.jsx:48 | The term list is strictly ascending, so sorted and without duplicates. It holds no empty term, and holds exactly the non-empty terms some record has. |
| Sequences.Distinct | client/src/pages/ApplicationsPage.jsx:48 | `[...new Set(xs)]` has exactly the members of `xs` and no repeats. |
| Sequences.FilterSpec | client/src/pages/ApplicationsPage.jsx:58-62 | `filter` keeps order and keeps only accepted elements, each with its full multiplicity. Its length is the number of accepted elements. |
| Sequences.MapAt | client/src/pages/ApplicationsPage.jsx:39-44 | `map` keeps the length and applies the function at each position. |
| StringOrder.Sort | client/src/pages/ApplicationsPage.jsx:48 | `.sort()` returns a permutation of its input that is ascending in string order. |
| StringOrder.SortDistinct | client/src/pages/ApplicationsPage.jsx:48 | Sorting pairwise different strings gives a strictly ascending list with the same members. |
| StringOrder.LessTotal | client/src/pages/ApplicationsPage.jsx:48 | Any two different strings are ordered one way or the other, so the sort order is total. |
| StringOrder.LessTransitive | client/src/pages/ApplicationsPage.jsx:48 | String order is transitive. |
| JsText.TrimStart | server/index.js:59 | The result is a suffix. Everything cut is whitespace, the result starts with non-whitespace, and it is a subsequence. |
| JsText.TrimEnd | server/index.js:59 | The result is a prefix. Everything cut is whitespace, the result ends with non-whitespace, and it is a subsequence. |
| JsText.Trim | server/index.js:59 | `trim()` returns one contiguous slice of its input. Everything before and after that slice is whitespace, and the slice neither starts nor ends with whitespace. |
| JsText.TrimKeepsVisible | server/index.js:59 | `trim()` deletes only whitespace: the non-whitespace characters are unchanged. |
| JsText.TrimIdentity | server/index.js:59 | Text with no whitespace at either end is unchanged by `trim()`. |
| JsText.StripToken | server/index.js:61 | A global replace of a token, with an optional line feed after it, only deletes characters. Every character that is neither in the token nor a line feed survives, in order and with its multiplicity. |
| JsText.StripTokenAbsent | server/index.js:61 | A token that does not occur removes nothing. |
| JsText.StripFenceLeavesNoFence | server/index.js:61 | After ```` /```\n?/g ```` is replaced by nothing, no ```` ``` ```` substring remains. |
| JsText.CollapseWs | server/index.js:111 | `replace(/\s+/g, ' ')` leaves whitespace only as single spaces, never two in a row. It keeps the non-whitespace characters, and starts and ends with whitespace exactly when the input does. |
| JsText.CollapseWsKeepsWords | server/index.js:111 | The words, meaning the maximal runs of non-whitespace, are the same before and after, in order. Each whitespace run only separates words and none is removed, so with the single-space and both-end facts the result is determined. |
| Server.CleanReply | server/index.js:59-62 | A trimmed reply that does not start with ```` ```json ```` is returned as it is. One that does loses every ```` ``` ````, yet keeps every character outside ```` ```json ```` and line feeds. Either way the result is a subsequence of the trimmed reply and of the reply. |
| Server.Truncate | server/index.js:113 | `substring(0, limit)` is a prefix: the whole text when it fits, and exactly `limit` characters when it is longer. |
| Server.NormalisePageText | server/index.js:110-113 | The result is a prefix of the collapsed-and-trimmed text: all of it when it fits in 10000 characters, exactly 10000 characters otherwise. It has no leading whitespace and no two adjacent whitespace characters. Its non-whitespace characters are a prefix of the page's. |
| Server.CleanReplyUnwrapsJson | server/index.js:59-62 | A reply of the form ```` ```json ````, line feed, a body without backticks, line feed, ```` ``` ```` is cleaned to that body followed by its line feed: the JSON inside the fence survives whole. |
| Server.CollapsedTrimmedShape | server/index.js:110-112 | Collapsing then trimming gives single-spaced text with no leading whitespace and the page's non-whitespace characters. |
| Server.ExtractJob | server/index.js:31-77 | 400 `Job URL is required` exactly when the URL is missing, and then no prompt is sent. Otherwise one prompt embeds the URL. The answer is 200 with the parsed value exactly when the model replies and the cleaned reply parses. Otherwise it is 500 `Failed to extract job details`, carrying the message of the model call's error, or of the parser's error when the call succeeded. |
| Server.ExtractJobFromPage | server/index.js:82-151 | 400 exactly when the URL is missing, and then nothing is fetched or sent. Otherwise the URL is fetched once. A failed fetch gives 500 with the fetch error's message, a non-ok response gives 500 `Failed to fetch job posting`, and neither sends a prompt. The one prompt carries the normalised page text (at most 10000 characters). 200 exactly when the cleaned reply parses. Once a prompt is sent, a 500 carries the model call's or the parser's message. |

## Left out

- Rendering is not modelled. This covers the animation, the stat cards, the
  modal, the filter chips and the term select. `setIsModalOpen(false)` in
  `addApplication` is UI state.
- `localStorage`, `JSON.stringify` and `JSON.parse` are not modelled as
  code. A stored value is one of four cases: missing, empty text, text that
  parses to a record list, or text the parser rejects. Stored text that
  parses to something other than a list of records is not modelled.
- `Date.now()` is the `now` parameter of `Add`; the wall clock is not modelled.
- The record spread `{ id: Date.now(), ...newApplication }` would let an
  `id` inside the form data override the timestamp. The form never sends one,
  so `Draft` has no id field.
- An absent `term` is represented by the empty string. Both are dropped by
  `filter(Boolean)`, and neither equals a term selected in the page.
- Status is kept as the plain string the page compares. `KnownStatus`
  names the four values; nothing in the source enforces them.
- A `char` stands for one UTF-16 code unit. Surrogate pairs are not
  distinguished, so string order and whitespace are those of code units.
- The components `JobCard.jsx`, `JobForm.jsx` and `utils/AI.js` are not
  part of this model. They hold UI state, a 300 ms submit delay, and network
  wrappers whose only logic is "non-ok response means throw". Their status
  change and delete forward to the page's operations.
- The Gemini SDK, the page `fetch`, `cheerio`'s HTML parsing and tag removal,
  and `JSON.parse` are foreign calls. They are passed to the handlers as
  functions.
- Each prompt is represented by its opening line, which carries the URL or
  the page text. The fixed instructions after it are not modelled.
- A `jobUrl` that is a number, boolean or object is not modelled; only an
  absent field and a string field are.
- A request without a body is not modelled. Destructuring it throws before
  any prompt is sent, so it gets a 500 that no input of `ExtractJob`
  produces.
- A reply without `text` (where `trim` throws) is folded into the
  model-call failure.
- The cover-letter endpoint, the health endpoint, CORS, `app.listen` and the
  `console.error` logging are glue with no logic to state.
- Express's routing is not modelled. The fact that the first
  `/api/extract-job` handler answers every request is stated above, not
  proved.
