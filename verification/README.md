# Lingva Translate utilities, modelled in Dafny

This project models the small pure layer under `utils/` of Lingva Translate, a
web front-end that scrapes Google Translate. That layer has five parts:

- **Language** (`language.dfy`) is the language-code normaliser of `utils/language.ts`.
  `ReplaceBoth` rewrites a source/target pair through the per-role
  *exception* or *mapping* table. `RetrieveFromType` lists the selectable
  catalog entries for a role. `GetName` looks up a code's display name. The
  catalog is an ordered list of `(code, name)` pairs, and the four role tables
  come from `languages.json`. Both are a parameter (`LanguageData`), because
  that file is not part of this model.
- **Reducer** (`reducer.dfy`) is the page-state reducer of `utils/reducer.ts`.
  The state is a `map<string, string>`, because `SET_FIELD` takes an arbitrary
  string key. `SET_FIELD` is a map update and `SET_ALL` is a right-biased
  merge. Any other action leaves the state as it is.
- **Slug** (`slug.dfy`) is route decoding (`extractSlug` in `utils/slug.ts`).
  One to three path segments become the query, the target and query, or the
  source, target and query. The identical copy at `utils/translate.ts:47-63`
  is modelled by the same function.
- **Translate** (`translate.dfy`) is the decision logic of `googleScrape` and
  `textToSpeechScrape` in `utils/translate.ts`. The network is a function
  parameter `upstream` that answers a request with an abstract outcome. For
  text, the outcome is a rejected fetch or a status with the text of the
  `.result-container` element. For speech, it is a rejected fetch or a status
  with the body bytes. A response is `ok` for statuses 200 to 299, as the
  Fetch standard defines it. JavaScript's `trim` is modelled with its exact
  whitespace set.
- **StatusText** (`status_text.dfy`) is the status-text table of
  `utils/error.ts`. `components/CustomError.tsx:8-16` has an identical copy of
  the table, which is modelled once here.

`wrappers.dfy` holds the `Option` type. It stands for the source's `null`
results and its optional record fields.

The model follows the code in these points:

- Speech text is cut at a fixed 100 characters, whatever falls at that position.
- An ok speech response with an empty body gives an empty byte list, not `null`.
- The successful scrape field is `translationRes`.
- The reducer has no switch-languages action and no collision policy.
- There is no `retrieveFiltered` and no `isValidCode`.

## Model

| member | source | states |
|---|---|---|
| `Language.ReplaceBoth` | utils/language.ts:20-34 | for each role, a code that is a key of that role's table comes back as the table's value; any other code comes back unchanged |
| `Language.RolesIndependent` | utils/language.ts:28-33 | the rewritten code of a role depends only on that role's input code |
| `Language.RetrieveFromType` | utils/language.ts:36-44 | with no role, the whole catalog in catalog order; with a role, an order-preserving subsequence of the catalog holding exactly the entries whose code is not an exception key of that role |
| `Language.WithoutKeys` | utils/language.ts:41-43 | the filter keeps catalog order and keeps an entry exactly when its code is not a key of the excluded table |
| `Language.RetrieveFromTypeIsDetermined` | utils/language.ts:41-43 | with unique catalog codes, any order-preserving selection of the catalog holding exactly the non-exception entries equals the list `RetrieveFromType` returns |
| `Language.Lookup` | utils/language.ts:46-48 | finds a name exactly when some entry has the code, and the name found belongs to such an entry |
| `Language.GetName` | utils/language.ts:46-48 | null exactly when no catalog entry has the code; otherwise a name the catalog gives that code |
| `Language.GetNameOfEntry` | utils/language.ts:46-48 | with unique catalog codes, the name of a catalog entry's code is that entry's name |
| `Language.RetrievedHaveNames` | utils/language.ts:36-48 | every entry a selectable list offers has a non-null name, and it is the entry's own name |
| `Language.ExceptionLandsOnSelectable` | utils/language.ts:28-43 | if each exception replacement is a catalog code and not itself an exception key of that role, then resolving a catalog code through that role's exceptions gives a code the role's selectable list offers |
| `Reducer.Reduce` | utils/reducer.ts:27-37 | `SET_FIELD` sets its key to its value and keeps every other key and value; `SET_ALL` takes the payload's value for each payload key and keeps the other keys; any other action returns the state unchanged |
| `Reducer.InitialStateFields` | utils/reducer.ts:6-10 | the initial state has exactly the fields source = "auto", target = "en" and query = "" |
| `Reducer.ReduceIdempotent` | utils/reducer.ts:29-35 | applying the same action twice gives the same state as applying it once |
| `Reducer.SetFieldIsSingletonSetAll` | utils/reducer.ts:29-33 | `SET_FIELD(k, v)` is `SET_ALL` with the one-field payload `{k: v}` |
| `Reducer.SetAllComposes` | utils/reducer.ts:32-33 | `SET_ALL(p)` followed by `SET_ALL(q)` is one `SET_ALL` of `p` merged with `q` |
| `Reducer.SetAllFromInitial` | utils/reducer.ts:32-33 | from the initial state, a `SET_ALL` whose payload covers source, target and query yields exactly the payload |
| `Slug.ExtractSlug` | utils/slug.ts:1-19 | query is present exactly for 1 to 3 segments and is the last one; target is present exactly for 2 or 3 segments and is the second-to-last one; source is present exactly for 3 segments and is the first one; otherwise the record is empty |
| `Slug.ExtractSlugRoundTrip` | utils/slug.ts:8-17 | for 1 to 3 segments, writing the decoded fields back as segments in source, target, query order gives the original segments |
| `Slug.SegmentsRoundTrip` | utils/slug.ts:8-17 | parameters with a query, and with a target whenever there is a source, survive being written as segments and decoded |
| `Slug.FullRouteRoundTrip` | utils/slug.ts:14-15 | the route `[s, t, q]` decodes to source s, target t and query q |
| `Translate.TrimStart` | utils/translate.ts:37 | the result is a suffix of the input, everything cut off is whitespace, and the result does not start with whitespace |
| `Translate.TrimEnd` | utils/translate.ts:37 | the result is a prefix of the input, everything cut off is whitespace, and the result does not end with whitespace |
| `Translate.Trim` | utils/translate.ts:37 | the result is a slice of the input, everything before and after that slice is whitespace, and the slice neither starts nor ends with whitespace; it is empty exactly when the input is all whitespace |
| `Translate.TrimIdempotent` | utils/translate.ts:37 | trimming a trimmed text changes nothing |
| `Translate.TranslationRequestFor` | utils/translate.ts:14-16 | the request's source and target are the inputs rewritten through the mapping tables (unchanged when not keys), and the query is passed as given |
| `Translate.ClassifyTranslation` | utils/translate.ts:26-44 | exactly one field is set; a rejected fetch gives the retrieving error; a non-ok response gives its status code, and only a non-ok response does; an ok response gives the trimmed container text exactly when that text has a non-whitespace character, and the parsing error otherwise |
| `Translate.TranslationIsTrimmed` | utils/translate.ts:37-41 | a successful translation is non-empty, has no surrounding whitespace, and trimming it again changes nothing |
| `Translate.GoogleScrape` | utils/translate.ts:5-45 | exactly one field is set, whatever the upstream answers to the mapped request; the retrieving error appears exactly when that request's fetch is rejected; a status code appears exactly when the response is not ok, and it is the response's status; a translation appears exactly when the response is ok and its trimmed container text is non-empty, and it is that text; an ok response with a blank container gives the parsing error |
| `Translate.SpeechRequestFor` | utils/translate.ts:65-73 | no request exactly when the text is absent or empty; otherwise the query is the text's prefix of length min(length, 100), `textlen` is that length, and the language is the target mapping of the code |
| `Translate.TextToSpeechScrape` | utils/translate.ts:65-85 | null for an absent or empty text; bytes exactly when a request was sent and answered with an ok status, and then they are the response body |
| `StatusText.StatusTextFrom` | utils/error.ts:1-13 | 400, 404, 405 and 500 map to their table texts; every other code maps to "An unexpected error has occurred"; the result is always one of the five table strings |
| `StatusText.StatusTextDistinguishesCodes` | utils/error.ts:1-13 | two codes get the same text exactly when they are equal or both fall back |

## Left out

- React components, pages, theme and hooks are left out. They render, play audio and show toasts.
- `utils/storage.ts` (browser local storage) is left out because it is I/O.
- The GraphQL handler is left out. Its resolvers only forward their arguments to `googleScrape` and `textToSpeechScrape`.
- The REST handlers are left out. They answer malformed paths with 404, wrong methods with 405 and invalid codes with 400, and then call an external scraper library rather than `utils/translate.ts`; that library is not part of this model.
- `fetch`, the User-Agent header, HTML parsing of the page, `encodeURIComponent` and blob decoding are not modelled. They are foreign calls. The fetch outcome and the result container's text are inputs of the model.
- Translate.GoogleScrape: reading the response body (`res.text()`) can reject, and then the source's promise rejects instead of returning an `errorMsg`. The model's `Response` always carries a container text, so this path is not modelled.
- A speech response whose blob cannot be read rejects the promise in the source. The model has no such path.
- The speech text is placed in its URL without encoding. URL syntax is not modelled.
- `key in obj` in the source also matches inherited keys such as "toString". The model assumes own-key membership only.
- `Object.entries` lists integer-like keys first. The catalog order is taken as given, so this is not modelled.
- `text.slice(0, 100)` counts UTF-16 code units. The model counts characters, which differs only for characters outside the Basic Multilingual Plane.
- `StatusText.StatusTextFrom` takes an integer code. Non-integer and NaN JavaScript numbers, which also fall back, are not modelled.
- A switch-languages action, a `retrieveFiltered` list and query debouncing do not exist in `utils/reducer.ts` or `utils/language.ts`. They are not modelled.
- The exception-table well-formedness that `Language.ExceptionLandsOnSelectable` assumes is a property of `languages.json`. That file is not part of this model.
