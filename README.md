# Response cache of the resume analyzer, in Dafny

The serverless endpoint `my-resume-tool/api/analyze.js` sends a resume and a job description
to a language-model completion service and returns the parsed JSON analysis. In front of that
paid call sits a process-wide cache: a JavaScript `Map` from a fingerprint of the two texts to
`{value, timestamp}`. Entries expire after one hour (checked lazily, when a read finds them),
and when a write takes the table above 200 entries the first key in insertion order is deleted.

This project models that cache and the parts of `handler` that decide the reply and touch the cache:

- `cache_key.dfy` (module `CacheKey`): `makeCacheKey`, the resume and the job description
  joined by the line `---`.
- `cache.dfy` (module `Cache`): the cache as a value, `Table` (keys in insertion order plus the
  entry map), with `Lookup` (`getCachedValue`) and `Store` (`setCachedValue`) as functions and
  the lemmas about them; and the class `ResponseCache`, whose fields are that order and map.
  Its methods mutate them in place and are proved equal to `Lookup` and `Store`.
- `cache_trace.dfy` (module `CacheTrace`): sequences of reads and writes, and what a write
  promises to a later read.
- `handler.dfy` (module `AnalyzeHandler`): the guard sequence of `handler`, with the
  JavaScript details it depends on modelled explicitly. These are `String.prototype.trim` with
  ECMAScript white space, `.length` counted in UTF-16 code units (for strings made of Unicode
  scalar values; see "Left out"), and the truthiness test `if (cached)` on the parsed value.
- `wrappers.dfy`: the `Option` type used for "absent".

The clock (`Date.now()`) is a parameter `now` of the cache operations. The handler takes two
readings: one for the lookup and one for the write after the provider reply. The completion call is a
`ProviderOutcome` given to the handler. It is one of: fetch threw, HTTP error status, content
missing, content not parseable, or the parsed value. `process.env.OPENAI_API_KEY` is a parameter too.

Behaviour of the code worth knowing, which the model keeps:

- Overwriting an existing key keeps its place in insertion order (`Map.set` semantics). It does not
  move the key to the back.
- An entry exactly `TTL` old is still served. Only an age strictly greater than `TTL` expires it.
- Capacity and time to live are the fixed constants 200 and 3600000 ms. There is no
  construction-time validation and no clear operation.
- The fingerprint is plain concatenation, so it is not injective. `("a\n---\n", "b")` and
  `("a", "\n---\nb")` share a key, and both pass the non-blank check. `("x", "x\n---\nx")` and
  `("x\n---\nx", "x")` also share one, so swapping two different non-blank texts can keep the key. It is injective when
  the resumes have the same length. Because the lookup precedes the length check, a collision
  can serve a stored reply to a request whose own fields are over the limit. The handler's
  contract allows exactly this: a hit is answered before the length check.
- The eviction guard `if (oldestKey)` skips the eviction when the oldest key is the empty
  string. So the 200-entry bound holds only while no empty key is stored. The handler never
  stores one, because every fingerprint contains the separator.

## Model

| member | source | states |
|---|---|---|
| CacheKey.MakeCacheKey | my-resume-tool/api/analyze.js:111 | the key splits back into the resume, the separator and the job description at fixed positions, and is never empty |
| CacheKey.KeyInjectiveForSameResumeLength | my-resume-tool/api/analyze.js:111 | requests whose resumes have equal length get equal keys only if both fields are equal |
| CacheKey.DistinctRequestsCanShareKey | my-resume-tool/api/analyze.js:111 | two different non-blank requests produce the same key |
| CacheKey.SwappedTextsCanShareKey | my-resume-tool/api/analyze.js:111 | swapping two different texts can leave the key unchanged |
| Cache.Size | my-resume-tool/api/analyze.js:125 | reference definition of `cache.size` as the length of the insertion order; SizeIsEntryCount ties it to the number of entries |
| Cache.Expired | my-resume-tool/api/analyze.js:116 | reference definition of the expiry test: an entry is expired when its age is strictly greater than TTL (used by LookupExpired, LookupFresh) |
| Cache.Delete | my-resume-tool/api/analyze.js:117 | reference definition of `cache.delete`: the key leaves both the insertion order and the entry map (stated by Without, WithoutAt, LookupExpired) |
| Cache.Lookup | my-resume-tool/api/analyze.js:113-121 | reference definition of `getCachedValue`; its behaviour is stated by LookupMiss, LookupExpired, ExpiredStaysAbsent, LookupFresh, LookupSomeMeansFresh, LookupOnlyShrinks and LookupPreservesValid |
| Cache.Store | my-resume-tool/api/analyze.js:123-129 | reference definition of `setCachedValue`; its behaviour is stated by StoreOverwrite, StoreNewNotFull, StoreNewFullEvictsOldest, StoreBounded, EmptyOldestKeyBlocksEviction, StoreThenStored, HitAfterSet, StoreTouchesOnlyItsKey and StorePreservesValid |
| Cache.Without | my-resume-tool/api/analyze.js:117 | removing a key from the insertion order drops exactly that key, keeps the rest without repeats and shortens the order by one when the key was there |
| Cache.WithoutAt | my-resume-tool/api/analyze.js:117 | with no repeats, removing the key at position i leaves the keys before and after i in their order |
| Cache.SizeIsEntryCount | my-resume-tool/api/analyze.js:125 | in a valid table the length of the insertion order equals the number of entries (`cache.size`) |
| Cache.LookupPreservesValid | my-resume-tool/api/analyze.js:113-121 | a read keeps the order free of repeats and in step with the stored keys |
| Cache.LookupMiss | my-resume-tool/api/analyze.js:114-115 | reading a key that is not stored returns absent and leaves the table unchanged |
| Cache.LookupExpired | my-resume-tool/api/analyze.js:116-119 | reading an entry older than TTL (strictly) returns absent, deletes exactly that key, keeps all other entries and keeps the other keys in order |
| Cache.ExpiredStaysAbsent | my-resume-tool/api/analyze.js:116-119 | after a read found an entry expired, a second read of that key returns absent at any time |
| Cache.LookupFresh | my-resume-tool/api/analyze.js:116-120 | reading an entry at most TTL old returns its value and changes neither timestamp nor order |
| Cache.LookupSomeMeansFresh | my-resume-tool/api/analyze.js:113-121 | a read returns a value only when that value is stored under the key and has not expired |
| Cache.LookupOnlyShrinks | my-resume-tool/api/analyze.js:113-121 | a read adds no key, changes no entry, never grows the table, and removes the key it finds expired |
| Cache.StorePreservesValid | my-resume-tool/api/analyze.js:123-129 | a write keeps the order free of repeats and in step with the stored keys |
| Cache.StoreBounded | my-resume-tool/api/analyze.js:124-128 | a write to a table of at most 200 entries with no empty key leaves at most 200, and a non-empty written key keeps the empty key out |
| Cache.StoreOverwrite | my-resume-tool/api/analyze.js:124-125 | overwriting a stored key replaces value and timestamp, keeps the order and evicts nothing |
| Cache.StoreNewNotFull | my-resume-tool/api/analyze.js:124-125 | a new key in a table below 200 entries goes to the back and nothing is evicted |
| Cache.StoreNewFullEvictsOldest | my-resume-tool/api/analyze.js:124-128 | a new key in a full table evicts exactly the earliest-inserted key; the other entries keep their values and relative order and the size stays 200 |
| Cache.EmptyOldestKeyBlocksEviction | my-resume-tool/api/analyze.js:126-127 | when the oldest key is empty, adding a new key to a full table leaves 201 entries |
| Cache.StoreThenStored | my-resume-tool/api/analyze.js:124-128 | after a write to a bounded table the key holds the written value and the write time |
| Cache.HitAfterSet | my-resume-tool/api/analyze.js:113-128 | a read within TTL of a write returns the written value and leaves the table unchanged |
| Cache.NoCrossContamination | my-resume-tool/api/analyze.js:113-128 | writing one key does not make a different, absent key readable |
| Cache.StoreTouchesOnlyItsKey | my-resume-tool/api/analyze.js:123-129 | a write adds no key but its own and changes no other entry |
| Cache.ResponseCache.constructor | my-resume-tool/api/analyze.js:109 | the cache starts with no keys and no entries |
| Cache.ResponseCache.DeleteKey | my-resume-tool/api/analyze.js:117 | `cache.delete` removes the key from the order and the map and keeps the table valid |
| Cache.ResponseCache.GetCachedValue | my-resume-tool/api/analyze.js:113-121 | the new fields and the result are those of `Lookup` on the old fields, and the table stays valid |
| Cache.ResponseCache.SetCachedValue | my-resume-tool/api/analyze.js:123-129 | the new fields are those of `Store` on the old fields; the table stays valid and stays within 200 entries when no empty key was stored |
| CacheTrace.RunPreservesValid | my-resume-tool/api/analyze.js:113-129 | any sequence of reads and writes keeps the table valid |
| CacheTrace.EntryKeptThrough | my-resume-tool/api/analyze.js:113-129 | calls that neither write nor remove a key leave its entry unchanged: reads do not refresh it, other writes do not touch it |
| CacheTrace.HitAfterSetThrough | my-resume-tool/api/analyze.js:113-129 | after a write at t and other calls that neither write, evict nor expire the key, a read at a time at most t + TTL returns the written value |
| CacheTrace.SurvivesByClock | my-resume-tool/api/analyze.js:113-129 | an entry written at t stays stored through calls that do not write it, whose writes do not evict it, and whose reads of it come no later than t + TTL |
| CacheTrace.HitAfterSetByClock | my-resume-tool/api/analyze.js:113-129 | after a write at t, calls that do not write the key, whose writes do not evict it and whose reads of it come by t + TTL, a read at most TTL after t returns the written value |
| CacheTrace.ExpiredAbsentUntilWritten | my-resume-tool/api/analyze.js:116-119 | once a read has removed an expired key, it stays absent until it is written again |
| CacheTrace.AbsentStaysAbsent | my-resume-tool/api/analyze.js:113-129 | a key that is not stored stays absent through calls that do not write it |
| CacheTrace.RunBounded | my-resume-tool/api/analyze.js:124-128 | reads and writes with non-empty keys keep a table of at most 200 entries without an empty key within 200 |
| AnalyzeHandler.TrimStart | my-resume-tool/api/analyze.js:139 | the result is the longest suffix not starting with white space; everything dropped is white space |
| AnalyzeHandler.TrimEnd | my-resume-tool/api/analyze.js:139 | the result is the longest prefix not ending with white space; everything dropped is white space |
| AnalyzeHandler.IsJsSpace | my-resume-tool/api/analyze.js:139 | reference definition of the characters `trim` removes: ECMAScript WhiteSpace and LineTerminator code points |
| AnalyzeHandler.Trim | my-resume-tool/api/analyze.js:139 | reference definition of `trim` as TrimEnd after TrimStart; TrimEmptyIffBlank states when it is empty |
| AnalyzeHandler.Filled | my-resume-tool/api/analyze.js:139 | reference definition of the non-blank guard: the field is present and its trimmed text is not empty; Handle answers 400 unless both fields are Filled |
| AnalyzeHandler.TrimEmptyIffBlank | my-resume-tool/api/analyze.js:139 | a field's trimmed text is empty, so the field is rejected as blank, exactly when every character is white space |
| AnalyzeHandler.Utf16Length | my-resume-tool/api/analyze.js:151 | the length lies between the number of characters and twice it, and equals it when no character is outside the Basic Multilingual Plane |
| AnalyzeHandler.WithinLimit | my-resume-tool/api/analyze.js:151 | reference definition of the length guard: at most 8000 UTF-16 code units; Handle answers 400 after a miss unless both fields are WithinLimit |
| AnalyzeHandler.Truthy | my-resume-tool/api/analyze.js:146 | reference definition of JavaScript truthiness of a parsed value: `null`, `false`, `0` and `""` are falsy; Handle serves a lookup result only when it is Truthy |
| AnalyzeHandler.AdmittedHasNoEmptyKey | my-resume-tool/api/analyze.js:111 | a table holding only fingerprints of accepted requests holds no empty key |
| AnalyzeHandler.ProviderReply | my-resume-tool/api/analyze.js:181-205 | only a parsed reply yields content (200, not cached); an HTTP error relays its status; every other failure is 502 with a detail message |
| AnalyzeHandler.Handle | my-resume-tool/api/analyze.js:131-206 | 405 and 400 are answered before the lookup with the table untouched; a truthy hit is served as cached before the length check; every failure path leaves the table with at most the lookup's expiry removal; only a parsed reply writes, under the request's key; the table stays valid, within 200 entries, and holds only keys of requests that passed the non-blank and length checks |

## Left out

- The prompt text (`SYSTEM_PROMPT`), the prompt string and the `fetch` call to the completion
  endpoint are not modelled. They are external service I/O. The handler receives the call's
  result as a `ProviderOutcome`.
- `JSON.parse` of the model reply and `response.json()` are not modelled. They are represented
  by the `Unparseable`, `FetchFailed` and `Completed` outcomes.
- `Date.now()` is not read. It is replaced by caller-supplied times, because a clock is not
  part of a verified model.
- `process.env.OPENAI_API_KEY` is not read. It is a parameter, with "" standing for unset,
  because `!apiKey` treats both the same.
- Concurrency is not modelled. Other requests running while `fetch` is awaited could read and
  write the cache in between. `Handle` shows one request alone; `CacheTrace` covers interleaved
  calls as plain sequences.
- Body fields that are present but neither strings nor `null` are not modelled. Such a field throws a
  `TypeError` when its `?.trim()` is evaluated (calling the missing `trim`), and the handler
  then sends no reply of its own. A blank resume short-circuits the `||` first, so a non-string
  job description beside it still gets the 400. A `null` field acts like a missing one, because
  `?.` stops at `null`, and is modelled as `None`. The model's fields are `Option<string>`, with
  the missing body (`req.body || {}`) as both absent.
- Strings are sequences of Unicode scalar values (Dafny's `char`), so a JavaScript string holding
  an unpaired surrogate, which `JSON.parse` of a body such as `"\ud800"` can yield, cannot be
  represented. For such fields `.length`, `trim` and key equality are outside the model. For
  well-formed strings `Utf16Length` equals `.length`.
- AnalyzeHandler.Handle: the JSON reply `res.status(...).json(...)` is a returned `Response` value, not a written HTTP stream.
- The HTTP status in `HttpError` is not tied to a non-2xx value. The handler only relays it.
- Floating-point numbers are not modelled. They affect only the truthiness of a cached value,
  where the model uses a `real` that is falsy only at zero. JSON cannot produce `NaN`.
- `my-resume-tool/src/App.jsx` is not part of this model. It is the React front end, and its
  input checks repeat the handler's.
- `backend/main.py` is not part of this model. It is an alternative HTTP proxy without a cache.
