/**
 * The request flow of `handler` in `my-resume-tool/api/analyze.js`, as far as it decides
 * the reply and touches the cache: method check, non-blank check, cache lookup, length
 * check, API-key check, the provider call (as an outcome given to the handler), and the
 * cache write after a successful parse.
 */
module AnalyzeHandler {
  import opened Wrappers
  import opened CacheKey
  import opened Cache

  /** The largest length, in UTF-16 code units, of each text field. */
  const MAX_CHARACTERS: nat := 8000

  /** A value `JSON.parse` can produce; only its JavaScript truthiness matters to the handler. */
  datatype Json =
    | JNull
    | JBool(b: bool)
    | JNumber(n: real)
    | JString(s: string)
    | JArray(items: seq<Json>)
    | JObject(members: seq<(string, Json)>)

  /** JavaScript truthiness of a parsed value: `null`, `false`, `0` and `""` are falsy. */
  predicate Truthy(v: Json)
  {
    match v
    case JNull => false
    case JBool(b) => b
    case JNumber(n) => n != 0.0
    case JString(s) => s != ""
    case JArray(_) => true
    case JObject(_) => true
  }

  /** The characters `String.prototype.trim` removes: ECMAScript white space and line terminators. */
  predicate IsJsSpace(c: char)
  {
    var u := c as int;
    // TAB, VT, FF, SPACE, NO-BREAK SPACE, ZERO WIDTH NO-BREAK SPACE
    || u == 0x0009 || u == 0x000B || u == 0x000C || u == 0x0020 || u == 0x00A0 || u == 0xFEFF
    // the other space separators (category Zs)
    || u == 0x1680 || 0x2000 <= u <= 0x200A || u == 0x202F || u == 0x205F || u == 0x3000
    // line terminators: LF, CR, LINE SEPARATOR, PARAGRAPH SEPARATOR
    || u == 0x000A || u == 0x000D || u == 0x2028 || u == 0x2029
  }

  /** Every character of `s` is white space (vacuously so for the empty string). */
  ghost predicate Blank(s: string)
  {
    forall i :: 0 <= i < |s| ==> IsJsSpace(s[i])
  }

  /** `s` without its leading white space: the longest suffix that does not start with white space. */
  function TrimStart(s: string): (r: string)
    ensures |r| <= |s| && r == s[|s| - |r|..]
    ensures forall i :: 0 <= i < |s| - |r| ==> IsJsSpace(s[i])
    ensures r != "" ==> !IsJsSpace(r[0])
  {
    if s != "" && IsJsSpace(s[0]) then TrimStart(s[1..]) else s
  }

  /** `s` without its trailing white space: the longest prefix that does not end with white space. */
  function TrimEnd(s: string): (r: string)
    ensures |r| <= |s| && r == s[..|r|]
    ensures forall i :: |r| <= i < |s| ==> IsJsSpace(s[i])
    ensures r != "" ==> !IsJsSpace(r[|r| - 1])
  {
    if s != "" && IsJsSpace(s[|s| - 1]) then TrimEnd(s[..|s| - 1]) else s
  }

  /** `s.trim()`. */
  function Trim(s: string): (r: string)
  {
    TrimEnd(TrimStart(s))
  }

  /** `s.trim()` is empty, hence falsy, exactly when `s` holds only white space. */
  lemma TrimEmptyIffBlank(s: string)
    ensures Trim(s) == "" <==> Blank(s)
  {
  }

  /** `s.length`: characters outside the Basic Multilingual Plane count as two UTF-16 code units. */
  function Utf16Length(s: string): (n: nat)
    ensures |s| <= n <= 2 * |s|
    ensures (forall i :: 0 <= i < |s| ==> s[i] as int <= 0xFFFF) ==> n == |s|
  {
    if s == [] then 0
    else (if s[0] as int > 0xFFFF then 2 else 1) + Utf16Length(s[1..])
  }

  /** The request as the handler reads it: the HTTP method and the two body fields, `None` when missing. */
  datatype Request = Request(httpMethod: string, resume: Option<string>, jobDescription: Option<string>)

  /**
   * What the call to the completion endpoint came to. `HttpError` stands for a reply whose
   * `response.ok` is false, with its status and `error.message` ("" when there is none);
   * `FetchFailed` for an exception thrown by `fetch` or `response.json()`; `MissingContent`
   * for a reply without a non-empty `choices[0].message.content`; `Unparseable` for content
   * that `JSON.parse` rejects; `Completed` for the parsed content.
   */
  datatype ProviderOutcome =
    | FetchFailed(message: string)
    | HttpError(status: int, errorMessage: string)
    | MissingContent
    | Unparseable
    | Completed(value: Json)

  datatype Body = Content(content: Json, cached: bool) | Detail(detail: string)

  /** The status and JSON body the handler sends. */
  datatype Response = Response(status: int, body: Body)

  /** A reply carrying freshly computed content. */
  predicate IsFresh(resp: Response)
  {
    resp.body.Content? && !resp.body.cached
  }

  /** A body field that is present and not blank after trimming. */
  predicate Filled(field: Option<string>)
  {
    field.Some? && Trim(field.value) != ""
  }

  predicate WithinLimit(s: string)
  {
    Utf16Length(s) <= MAX_CHARACTERS
  }

  /** A key of a request that passed the non-blank check and the length check. */
  ghost predicate Admissible(key: string)
  {
    exists resume, jobDescription ::
      && key == MakeCacheKey(resume, jobDescription)
      && Trim(resume) != "" && Trim(jobDescription) != ""
      && WithinLimit(resume) && WithinLimit(jobDescription)
  }

  /** Every stored key comes from a request that passed both checks. */
  ghost predicate AdmittedOnly(t: Table<Json>)
  {
    forall k :: k in t.entries ==> Admissible(k)
  }

  /** An admissible key is never the empty string, so it never blocks eviction. */
  lemma AdmittedHasNoEmptyKey(t: Table<Json>)
    requires AdmittedOnly(t)
    ensures "" !in t.entries
  {
  }

  /** The table after the call holds no key and no entry that was not there before. */
  ghost predicate OnlyShrunk(before: Table<Json>, after: Table<Json>)
  {
    && after.entries.Keys <= before.entries.Keys
    && forall k :: k in after.entries ==> after.entries[k] == before.entries[k]
  }

  /** The reply for the outcome of the provider call: content only for a completed parse. */
  function ProviderReply(outcome: ProviderOutcome): (resp: Response)
    ensures outcome.Completed? ==> resp == Response(200, Content(outcome.value, false))
    ensures !outcome.Completed? ==> resp.body.Detail?
    ensures outcome.HttpError? ==> resp.status == outcome.status
    ensures !outcome.Completed? && !outcome.HttpError? ==> resp.status == 502
  {
    match outcome
    case HttpError(status, errorMessage) =>
      Response(status, Detail(if errorMessage != "" then errorMessage else "OpenAI request failed"))
    case MissingContent => Response(502, Detail("OpenAI response missing content"))
    case Unparseable => Response(502, Detail("Failed to parse JSON from model response"))
    case FetchFailed(message) => Response(502, Detail("OpenAI request failed: " + message))
    case Completed(value) => Response(200, Content(value, false))
  }

  /**
   * `handler(req, res)`. `apiKey` is `process.env.OPENAI_API_KEY` ("" when unset);
   * `lookupTime` and `storeTime` are the clock readings of `getCachedValue` and `setCachedValue`.
   */
  method Handle(cache: ResponseCache<Json>, req: Request, apiKey: string, outcome: ProviderOutcome,
                lookupTime: int, storeTime: int) returns (resp: Response)
    requires cache.Valid() && Bounded(cache.Snapshot()) && AdmittedOnly(cache.Snapshot())
    modifies cache
    ensures cache.Valid() && Bounded(cache.Snapshot()) && AdmittedOnly(cache.Snapshot())
    // Only a fresh reply writes the cache: on every other path the table at most lost entries.
    ensures !IsFresh(resp) ==> OnlyShrunk(old(cache.Snapshot()), cache.Snapshot())
    ensures IsFresh(resp) ==>
      && outcome == Completed(resp.body.content) && resp.status == 200
      && Filled(req.resume) && Filled(req.jobDescription)
      && WithinLimit(req.resume.value) && WithinLimit(req.jobDescription.value)
      && var key := MakeCacheKey(req.resume.value, req.jobDescription.value);
         key in cache.Snapshot().entries && cache.Snapshot().entries[key] == Entry(outcome.value, storeTime)
    // The checks made before the lookup leave the table as it was.
    ensures req.httpMethod != "POST" ==>
      resp == Response(405, Detail("Method not allowed")) && cache.Snapshot() == old(cache.Snapshot())
    ensures req.httpMethod == "POST" && !(Filled(req.resume) && Filled(req.jobDescription)) ==>
      && resp == Response(400, Detail("Resume and job description are required"))
      && cache.Snapshot() == old(cache.Snapshot())
    // After the lookup: a truthy hit is served before the length check.
    ensures req.httpMethod == "POST" && Filled(req.resume) && Filled(req.jobDescription) ==>
      var resume, jobDescription := req.resume.value, req.jobDescription.value;
      var key := MakeCacheKey(resume, jobDescription);
      var afterRead := Lookup(old(cache.Snapshot()), key, lookupTime).0;
      var cached := Lookup(old(cache.Snapshot()), key, lookupTime).1;
      if cached.Some? && Truthy(cached.value) then
        resp == Response(200, Content(cached.value, true)) && cache.Snapshot() == afterRead
      else if !WithinLimit(resume) || !WithinLimit(jobDescription) then
        resp == Response(400, Detail("Each field must be 8000 characters or less")) && cache.Snapshot() == afterRead
      else if apiKey == "" then
        resp == Response(500, Detail("OPENAI_API_KEY is not set")) && cache.Snapshot() == afterRead
      else
        && resp == ProviderReply(outcome)
        && cache.Snapshot() == if outcome.Completed? then Store(afterRead, key, outcome.value, storeTime) else afterRead
  {
    ghost var before := cache.Snapshot();
    AdmittedHasNoEmptyKey(before);
    if req.httpMethod != "POST" {
      return Response(405, Detail("Method not allowed"));
    }
    if !(Filled(req.resume) && Filled(req.jobDescription)) {
      return Response(400, Detail("Resume and job description are required"));
    }
    var resume, jobDescription := req.resume.value, req.jobDescription.value;
    var cacheKey := MakeCacheKey(resume, jobDescription);
    var cached := cache.GetCachedValue(cacheKey, lookupTime);
    LookupOnlyShrinks(before, cacheKey, lookupTime);
    ghost var afterRead := cache.Snapshot();
    if cached.Some? && Truthy(cached.value) {
      return Response(200, Content(cached.value, true));
    }
    if !WithinLimit(resume) || !WithinLimit(jobDescription) {
      return Response(400, Detail("Each field must be 8000 characters or less"));
    }
    if apiKey == "" {
      return Response(500, Detail("OPENAI_API_KEY is not set"));
    }
    match outcome {
      case Completed(value) =>
        assert Admissible(cacheKey);
        StoreTouchesOnlyItsKey(afterRead, cacheKey, value, storeTime);
        StoreBounded(afterRead, cacheKey, value, storeTime);
        StoreThenStored(afterRead, cacheKey, value, storeTime);
        cache.SetCachedValue(cacheKey, value, storeTime);
        resp := Response(200, Content(value, false));
      case _ =>
        resp := ProviderReply(outcome);
    }
  }
}
