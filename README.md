# Word statistics of the article gateway

The gateway is a small Flask application. It proxies a random-word service, a
Wikipedia article service and a joke service. Alongside, it keeps an in-memory
`collections.Counter`, `WORD_STATISTICS`, that counts how often each word has
been served. This project models the part of the gateway that is more than
plumbing:

- **the word-statistics table.** The random-article route records a word only
  after both upstream services answered 200. The common-words route lists the
  `n` most served words with `Counter.most_common(n)`.
- **the two query-parameter validators.** `len` is forwarded to the random-word
  service only when it is a digit string with a value strictly between 3 and 20.
  `n` (or `N` as a fallback) must be a digit string with a positive value.

Modules:

- `Api` (`api.dfy`): optional arguments, upstream responses, the `ApiError`
  record (message and status) and the handlers' result type.
- `QueryParams` (`query_params.dfy`): the digit test, `int()` on digit strings,
  and the `len` and `n`/`N` validators. These are pure functions.
- `Statistics` (`statistics.dfy`): the abstract counter `Table`. It holds the
  counts and the order in which words were first recorded, which is the
  `Counter`'s dictionary order. The module also has the recording step, a
  stable sort by count, and `TopN`, which is `most_common(n)` turned into
  `{word, frequency}` records.
- `Counter` (`counter.dfy`): the `WordStatistics` class. It is the global
  counter as an object with a map field and an order field, and `Increment`
  updates them in place.
- `App` (`app.dfy`): the two handlers. They take the counter object as a
  parameter instead of reading module-level state. Upstream status codes and
  bodies are inputs.

`most_common(n)` is modelled as Python documents it: the same as
`sorted(items, key=count, reverse=True)[:n]`. That sort is stable, so equal
counts keep the `Counter`'s insertion order, which is the order of first
recording.

The model follows the code as written:

- An upstream status is accepted only when it is exactly 200.
- The article route is `/randoarticle/`. It returns both the word and the article.
- A non-empty but invalid `n` is refused. `N` is consulted only when `n` is
  missing or empty, because Python's `or` works that way.

## Model

| member | source | states |
|---|---|---|
| `QueryParams.IsDigits` | app.py:40 | `str(x).isdigit()` as used at app.py:40 and app.py:64: holds only of a non-empty string of ASCII '0'-'9', so the empty string, `str(None)` of a missing argument and any signed number are refused |
| `QueryParams.DecimalValue` | app.py:40 | `int()` of a digit string; the value is 0 exactly when every digit is '0' |
| `QueryParams.DecimalRoundTrip` | app.py:40 | reading back the canonical decimal spelling of any `n` gives `n` |
| `QueryParams.LeadingZerosIgnored` | app.py:40 | leading zeros never change the value `int()` gives |
| `QueryParams.SplitLeadingZeros` | app.py:40 | every digit string is zeros followed by the canonical spelling of its value |
| `QueryParams.LengthQuery` | app.py:37-41 | the query holds at most `len`, and when it does, the value is the client's string verbatim |
| `QueryParams.LengthAcceptedIff` | app.py:40-41 | `len` is forwarded iff the string is a zero-padded spelling of 4 to 19 |
| `QueryParams.LengthExamples` | app.py:38-41 | "3", "20", "2", "abc", "" and a missing `len` are dropped; "4", "19" and "05" are forwarded unchanged |
| `QueryParams.SelectAmount` | app.py:63 | the amount is `n` when `n` is present and non-empty; when `n` is missing or empty it is `N` (possibly missing) |
| `QueryParams.RequestedAmount` | app.py:63-71 | an accepted amount is positive and equals `int()` of the selected digit string; a refusal is "Non relevant n amount" with status 400 |
| `QueryParams.RequestedAmountAcceptedIff` | app.py:64 | accepted iff the selected argument is a digit string with some digit other than '0' |
| `QueryParams.AmountExamples` | app.py:63-71 | "0", "00", "-1", "abc", "", a missing argument and an invalid non-empty `n` are refused; an empty or missing `n` falls back to `N`; "05" gives 5 |
| `Statistics.Record` | app.py:53 | the word's count rises by exactly 1 (from 0 when new); no other count changes; a new word is appended to the order; the table invariant is kept |
| `Statistics.ReplayWellFormed` | app.py:53 | after any sequence of recordings every count is at least 1, and the order lists exactly the recorded words, once each |
| `Statistics.ReplayCounts` | app.py:53 | after any sequence of recordings, each word's count is the number of times it was recorded |
| `Statistics.ReplayOrder` | app.py:53 | the table's order is the order of first occurrence in the recorded sequence |
| `Statistics.OrderStep` | app.py:53 | one recording keeps the first-occurrence order; a word not seen before goes last |
| `Statistics.Insert` | app.py:67 | inserting adds exactly that word to the multiset of words |
| `Statistics.SortByCount` | app.py:67 | the sort is a permutation of its input |
| `Statistics.InsertRanked` | app.py:67 | inserting a word into a ranking, before the first word whose count is not higher, gives a ranking |
| `Statistics.SortRanked` | app.py:67 | sorting distinct words orders them by count, highest first; equal counts keep input order (stability) |
| `Statistics.SortedTable` | app.py:67 | the sorted table has one entry per recorded word and is a ranking |
| `Statistics.RankedPrefix` | app.py:67 | the first `k` words of a ranking have no repeats, and every word after them ranks below each of them |
| `Statistics.EntriesRanked` | app.py:65-68 | the records of a ranking have non-increasing frequencies; equal frequencies are in first-recorded order |
| `Statistics.TopN` | app.py:65-68 | the answer has length min(n, number of distinct words) and no duplicate words; each frequency is the table's count; frequencies are non-increasing, with ties in first-recorded order; every word left out ranks below every word listed, so its count is at most the last frequency |
| `Statistics.TopNAfterReplay` | app.py:65-68 | after recording a sequence, each listed frequency is the word's number of occurrences; equal frequencies are ordered by first occurrence |
| `Statistics.SameWordTwice` | app.py:53 | serving the same word twice gives it frequency 2, and it is the single most common word |
| `Counter.WordStatistics.constructor` | app.py:17 | the counter starts empty and well formed |
| `Counter.WordStatistics.Increment` | app.py:53 | the new table is `Record` of the old one; the word's count rises by one and no other count changes |
| `App.RandomArticle` | app.py:37-54 | sends the `LengthQuery` of `len`; succeeds iff both upstream statuses are 200, and then answers the word and article and records the word; otherwise fails with "Something went wrong on the API side" and status 400, leaving the counter unchanged |
| `App.CommonWords` | app.py:63-71 | fails with "Non relevant n amount" and status 400 exactly when the amount is refused; otherwise answers `TopN` of the counter for that amount; it only reads the counter |

## Left out

- HTTP and Flask plumbing is not modelled: routing, `jsonify`, the error handler that turns an `ApiError` into a response, and `app.run`.
- The outbound `requests.get` calls are not made. Their status codes and bodies are inputs to `App.RandomArticle`.
- The article request's parameters are not modelled. `{'titles': word}.update(...)` evaluates to `None`, so the article request carries no query at all.
- The joke route (`random_joke`) is not modelled. It parses a foreign JSON payload and defaults names to `''`.
- `ApiError` comes from a module (`excepts`) that is not part of this model. It is represented by a datatype with a message and a status code.
- Concurrency is not modelled. Threaded request handling can lose updates to the shared counter, and the model is sequential.
- `QueryParams.IsDigits` covers only the ASCII digits '0'-'9'. Python's `str.isdigit` also accepts other Unicode digits. For decimal digits of other scripts, such as '٥', both `isdigit()` and `int()` succeed, so the source forwards `len` = "٥" and accepts `n` = "٥" as 5, where the model refuses both. For digits that are not decimal, such as '²', `isdigit()` passes and `int()` raises.
- The model assumes Python 3.7 or later, where a `Counter` keeps insertion order, so `most_common` ties come out in first-recorded order. On older versions ties come out in hash order. Two behaviours of current Python are not modelled:
- `QueryParams.DecimalValue` has no digit limit. From CPython 3.11 on, `int()` raises `ValueError` on a string of more than 4300 digits, leading zeros included. For such a `len` or `n`, the source fails with a server error and sends nothing upstream. The model forwards the `len` string, or accepts `n` by its value.
- `App.RandomArticle` answers `Ok` with the word and article on success. In the source both are `bytes`, which the standard `jsonify` encoder of current Flask cannot serialise. The source would then fail at app.py:54, after the word was already recorded at app.py:53.
- `Statistics.Word` is a string. In the source the word is the response body, which is `bytes`. The model only uses words as opaque keys.
- `App.RandomArticle` receives the article service's response even when the word request failed. In the source that second request is never made; the model ignores the response in that case.
