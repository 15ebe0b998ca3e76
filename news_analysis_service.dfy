/**
 * `NewsAnalysisService`: forwards a trimmed keyword to the news n8n webhook (POST, with one GET
 * fallback), stores the body (or the error object that replaces an empty one) and answers with
 * the parsed analysis; reads history back.
 */
module NewsAnalysisService {
  import opened Wrappers
  import opened Text
  import opened Json
  import opened Upstream
  import opened Exceptions
  import M = NewsAnalysisMapper
  import Recency
  import StockAnalysisService

  const DEFAULT_HISTORY_LIMIT: nat := 10
  const EMPTY_RESULT_MESSAGE := "n8n did not return a news analysis result, please retry later"
  const NOT_REGISTERED_FOR_POST := "not registered for post"

  /** `news.analysis.n8n-url`; `None` when unset. */
  datatype Properties = Properties(n8nUrl: Option<Url>)

  /** What the service answers: id, keyword, analysis tree, request time. */
  datatype NewsAnalysisResponse = NewsAnalysisResponse(
    id: Option<int>, keyword: Option<string>, analysis: Json, requestedAt: Option<int>)

  /** The keyword check of `analyzeKeyword`: `null` counts as "", the text is trimmed, and an
      empty result is rejected. */
  function NormalizeKeyword(keyword: Option<string>): (r: Result<string, Exception>)
    ensures r.Failure? <==> keyword.None? || AllIn(keyword.value, JavaTrimmable)
    ensures r.Failure? ==> r.error == AnalysisException("Keyword is required")
    ensures r.Success? ==> r.value == JavaTrim(keyword.value)
    ensures r.Success? ==> r.value != [] && !JavaTrimmable(r.value[0]) && !JavaTrimmable(r.value[|r.value| - 1])
  {
    var normalized := if keyword.None? then "" else JavaTrim(keyword.value);
    TrimEmptyIff(if keyword.None? then "" else keyword.value, JavaTrimmable);
    if normalized == [] then Failure(AnalysisException("Keyword is required")) else Success(normalized)
  }

  /** Trimming an accepted keyword again changes nothing, so the stored keyword is accepted as is. */
  lemma NormalizeKeywordIdempotent(keyword: Option<string>)
    requires NormalizeKeyword(keyword).Success?
    ensures NormalizeKeyword(Some(NormalizeKeyword(keyword).value)) == NormalizeKeyword(keyword)
  {
    TrimIdempotent(keyword.value, JavaTrimmable);
  }

  /** `buildPayload`: `{"keyword": keyword}`. */
  function KeywordPayload(keyword: string): (payload: map<string, string>)
    ensures payload.Keys == {"keyword"} && payload["keyword"] == keyword
  {
    map["keyword" := keyword]
  }

  /** The query of the GET fallback: `keyword=...`. */
  function KeywordQuery(keyword: string): seq<(string, string)> {
    [("keyword", keyword)]
  }

  // ---------------------------------------------------------------------------------------
  // POST with GET fallback

  /** `shouldFallbackToGet`: 404 or 405, or an error body whose lower-cased text contains
      "not registered for post". */
  predicate ShouldFallbackToGet(code: int, body: string) {
    if code == 405 || code == 404 then true
    else Contains(ToLower(body), NOT_REGISTERED_FOR_POST)
  }

  /** The fallback rule stated as a case-insensitive search. */
  lemma ShouldFallbackIff(code: int, body: string)
    ensures ShouldFallbackToGet(code, body) <==>
              code == 404 || code == 405 || ContainsIgnoreCase(body, NOT_REGISTERED_FOR_POST)
  {
    LowerContainsIff(body, NOT_REGISTERED_FOR_POST);
  }

  /** The requests one webhook call sends and what it returns or throws. */
  datatype WebhookRun = WebhookRun(result: Result<string, Exception>, requests: seq<Request>)

  /** The call, given the outcome of the POST and the outcome the GET would have. */
  function WebhookSpec(url: Url, payload: map<string, string>, post: Outcome, get: Outcome): (run: WebhookRun)
    requires "keyword" in payload
    ensures 1 <= |run.requests| <= 2 && run.requests[0] == Post(url, payload)
    ensures |run.requests| == 2 <==> post.StatusError? && ShouldFallbackToGet(post.code, post.responseBody)
    ensures |run.requests| == 2 ==> run.requests[1] == Get(url, KeywordQuery(payload["keyword"]))
    ensures run.result.Success? <==>
              (post.Response? && !IsError(post.code)) || (|run.requests| == 2 && get.Response? && !IsError(get.code))
    ensures run.result.Success? ==>
              run.result.value == BodyOrEmpty(if |run.requests| == 2 then get.body else post.body)
    ensures run.result.Failure? ==> run.result.error.AnalysisException?
  {
    var postOnly := [Post(url, payload)];
    match post
    case Transport(_) =>
      WebhookRun(Failure(AnalysisException("Failed to call n8n webhook")), postOnly)
    case Response(code, body) =>
      if IsError(code) then
        WebhookRun(Failure(AnalysisException("n8n responded with status " + IntToString(code))), postOnly)
      else WebhookRun(Success(BodyOrEmpty(body)), postOnly)
    case StatusError(code, body, _) =>
      if ShouldFallbackToGet(code, body) then
        var both := postOnly + [Get(url, KeywordQuery(payload["keyword"]))];
        match get
        case Response(getCode, getBody) =>
          if IsError(getCode) then
            WebhookRun(Failure(AnalysisException("n8n GET responded with status " + IntToString(getCode))), both)
          else WebhookRun(Success(BodyOrEmpty(getBody)), both)
        case StatusError(_, _, message) =>
          WebhookRun(Failure(AnalysisException("n8n GET request failed: " + message)), both)
        case Transport(message) =>
          WebhookRun(Failure(AnalysisException("n8n GET request failed: " + message)), both)
      else WebhookRun(Failure(AnalysisException("n8n responded with status " + IntToString(code))), postOnly)
  }

  /** A GET is sent exactly when the POST threw 404, 405, or an error whose body mentions
      "not registered for post" in any case; a transport failure or a returned error status
      never leads to a GET. */
  lemma GetOnlyOnFallbackSignal(url: Url, payload: map<string, string>, post: Outcome, get: Outcome)
    requires "keyword" in payload
    ensures var run := WebhookSpec(url, payload, post, get);
            |run.requests| == 2 <==>
              post.StatusError? && (post.code == 404 || post.code == 405 ||
                ContainsIgnoreCase(post.responseBody, NOT_REGISTERED_FOR_POST))
  {
    if post.StatusError? {
      ShouldFallbackIff(post.code, post.responseBody);
    }
  }

  /** When the POST needs no fallback, the GET's outcome makes no difference. */
  lemma GetIrrelevantWithoutFallback(url: Url, payload: map<string, string>, post: Outcome, get1: Outcome, get2: Outcome)
    requires "keyword" in payload
    requires !(post.StatusError? && ShouldFallbackToGet(post.code, post.responseBody))
    ensures WebhookSpec(url, payload, post, get1) == WebhookSpec(url, payload, post, get2)
  {
  }

  // ---------------------------------------------------------------------------------------
  // Response interpreter and write-through persistence

  /** `parseResponse`: `{}` for a null or blank body, the parsed tree otherwise, and
      `{"rawResponse": raw}` when the text is not JSON. */
  function ParseResponse(readTree: string -> Option<Json>, raw: Option<string>): Json {
    if raw.None? || JavaIsBlank(raw.value) then JObj([])
    else match readTree(raw.value)
      case Some(tree) => tree
      case None => StringField("rawResponse", raw.value)
  }

  /** `isEmptyAnalysis` (containers tested with `isEmpty()`); a `None` node is Java's `null` or a
      missing node. */
  predicate IsEmptyAnalysis(raw: Option<string>, node: Option<Json>) {
    if raw.None? || JavaIsBlank(raw.value) then true
    else if node.None? || node.value.JNull? then true
    else if node.value.JStr? then JavaTrim(node.value.s) == []
    else if node.value.JArr? || node.value.JObj? then Size(node.value) == 0
    else false
  }

  /** A semantically empty tree: the null literal, a blank string, an empty array or object. */
  predicate SemanticallyEmpty(tree: Json) {
    tree == JNull || (tree.JStr? && AllIn(tree.s, JavaTrimmable)) || tree == JArr([]) || tree == JObj([])
  }

  /** A body is empty exactly when it is null or blank or parses to a semantically empty tree;
      text that is not JSON is never empty. */
  lemma EmptyAnalysisIff(readTree: string -> Option<Json>, raw: Option<string>)
    ensures IsEmptyAnalysis(raw, Some(ParseResponse(readTree, raw))) <==>
              raw.None? || JavaIsBlank(raw.value)
              || (readTree(raw.value).Some? && SemanticallyEmpty(readTree(raw.value).value))
    ensures raw.Some? && !JavaIsBlank(raw.value) && readTree(raw.value).None? ==>
              !IsEmptyAnalysis(raw, Some(ParseResponse(readTree, raw)))
  {
    if raw.Some? && !JavaIsBlank(raw.value) && readTree(raw.value).Some? {
      var tree := readTree(raw.value).value;
      if tree.JStr? {
        TrimEmptyIff(tree.s, JavaTrimmable);
      }
    }
  }

  /** `ensureAnalysisPresent`: the parsed tree, or an `AnalysisException` with the news
      empty-result message. */
  function EnsureAnalysisPresent(readTree: string -> Option<Json>, raw: Option<string>)
    : (r: Result<Json, Exception>)
    ensures r.Failure? <==> IsEmptyAnalysis(raw, Some(ParseResponse(readTree, raw)))
    ensures r.Failure? ==> r.error == AnalysisException(EMPTY_RESULT_MESSAGE)
    ensures r.Success? ==> r.value == ParseResponse(readTree, raw)
  {
    var tree := ParseResponse(readTree, raw);
    if IsEmptyAnalysis(raw, Some(tree)) then Failure(AnalysisException(EMPTY_RESULT_MESSAGE)) else Success(tree)
  }

  /** A tree that passes `isEmptyAnalysis` is not semantically empty. */
  lemma PresentIsNotEmpty(raw: Option<string>, tree: Json)
    requires !IsEmptyAnalysis(raw, Some(tree))
    ensures !SemanticallyEmpty(tree)
  {
    if tree.JStr? {
      TrimEmptyIff(tree.s, JavaTrimmable);
    }
  }

  /** The error object built from the caught exception: `{"error": message}`. */
  function ErrorObject(ex: Exception): Json
    requires ex.AnalysisException?
  {
    StringField("error", ex.message)
  }

  /** The analysis answered for a body: the parsed tree, or the error object when it is empty.
      `analyzeKeyword` computes it for the fresh body and `toResponse` for a stored one. */
  function AnalysisOf(readTree: string -> Option<Json>, raw: Option<string>): (r: Json)
    ensures !SemanticallyEmpty(r)
    ensures IsEmptyAnalysis(raw, Some(ParseResponse(readTree, raw))) ==> r == StringField("error", EMPTY_RESULT_MESSAGE)
    ensures !IsEmptyAnalysis(raw, Some(ParseResponse(readTree, raw))) ==> r == ParseResponse(readTree, raw)
  {
    match EnsureAnalysisPresent(readTree, raw)
    case Success(tree) => PresentIsNotEmpty(raw, tree); tree
    case Failure(ex) => ErrorObject(ex)
  }

  /** The body that is stored: the upstream text, or the text of the error object when it is
      empty. */
  function PersistedBody(readTree: string -> Option<Json>, raw: string): (r: string)
    ensures !IsEmptyAnalysis(Some(raw), Some(ParseResponse(readTree, Some(raw)))) ==> r == raw
    ensures IsEmptyAnalysis(Some(raw), Some(ParseResponse(readTree, Some(raw)))) ==>
              r == SerializeStringField("error", EMPTY_RESULT_MESSAGE)
  {
    match EnsureAnalysisPresent(readTree, Some(raw))
    case Success(_) => raw
    case Failure(ex) => SerializeStringField("error", ex.message)
  }

  /** A stored error object is not empty: reading it back yields the object itself. */
  lemma ErrorObjectReadsBack(readTree: string -> Option<Json>, message: string)
    requires ReadsBackStringFields(readTree)
    ensures EnsureAnalysisPresent(readTree, Some(SerializeStringField("error", message)))
            == Success(StringField("error", message))
  {
    var stored := SerializeStringField("error", message);
    assert !JavaWhitespace(stored[0]);
    assert readTree(stored) == Some(StringField("error", message));
  }

  /** Whatever was stored for a body, reading the row back shows the analysis the write answered
      with, provided the parser reads back the error objects Jackson writes. */
  lemma StoredAnalysisMatchesAnswer(readTree: string -> Option<Json>, raw: string)
    requires ReadsBackStringFields(readTree)
    ensures AnalysisOf(readTree, Some(PersistedBody(readTree, raw)))
            == AnalysisOf(readTree, Some(raw))
  {
    var present := EnsureAnalysisPresent(readTree, Some(raw));
    if present.Failure? {
      ErrorObjectReadsBack(readTree, EMPTY_RESULT_MESSAGE);
    }
  }

  // ---------------------------------------------------------------------------------------
  // History

  /** `toResponse`: never fails; an empty stored body becomes the error object. */
  function ToResponse(readTree: string -> Option<Json>, row: M.Row): (r: NewsAnalysisResponse)
    ensures r.id == Some(row.id) && r.keyword == row.keyword && r.requestedAt == row.requestedAt
    ensures !SemanticallyEmpty(r.analysis)
  {
    NewsAnalysisResponse(Some(row.id), row.keyword, AnalysisOf(readTree, row.rawResponse),
                         row.requestedAt)
  }

  /** The row `analyzeKeyword` writes, read back through `toResponse`, repeats the answer the
      write gave. */
  lemma HistoryRepeatsAnswer(readTree: string -> Option<Json>, id: int, keyword: string, raw: string, now: int)
    requires ReadsBackStringFields(readTree)
    ensures ToResponse(readTree, M.Row(id, Some(keyword), Some(PersistedBody(readTree, raw)), Some(now)))
            == NewsAnalysisResponse(Some(id), Some(keyword), AnalysisOf(readTree, Some(raw)), Some(now))
  {
    StoredAnalysisMatchesAnswer(readTree, raw);
  }

  /** The news copy of the response interpreter classifies every body as the stock copy does;
      only the message of the error object differs. */
  lemma EmptyRuleMatchesStock(readTree: string -> Option<Json>, raw: Option<string>)
    ensures ParseResponse(readTree, raw) == StockAnalysisService.ParseResponse(readTree, raw)
    ensures IsEmptyAnalysis(raw, Some(ParseResponse(readTree, raw)))
            == StockAnalysisService.IsEmptyAnalysis(raw, Some(StockAnalysisService.ParseResponse(readTree, raw)))
    ensures AnalysisOf(readTree, raw) == StringField("error", EMPTY_RESULT_MESSAGE) ||
            AnalysisOf(readTree, raw) == StockAnalysisService.AnalysisOf(readTree, raw)
  {
  }

  /** The news copy of the fallback rule agrees with the stock copy. */
  lemma FallbackRuleMatchesStock(code: int, body: string)
    ensures ShouldFallbackToGet(code, body) == StockAnalysisService.ShouldFallbackToGet(code, body)
  {
  }

  class NewsAnalysisService {
    const mapper: M.Mapper
    const host: WebhookHost
    const properties: Properties
    const readTree: string -> Option<Json>

    constructor (mapper: M.Mapper, host: WebhookHost, properties: Properties, readTree: string -> Option<Json>)
      ensures this.mapper == mapper && this.host == host
      ensures this.properties == properties && this.readTree == readTree
    {
      this.mapper := mapper;
      this.host := host;
      this.properties := properties;
      this.readTree := readTree;
    }

    /** `analyzeKeyword`: the URL is checked first, then the keyword; neither failure sends a
        request. A valid keyword is sent trimmed, and exactly one row is inserted when the call
        succeeds. */
    method AnalyzeKeyword(keyword: Option<string>, now: int) returns (r: Result<NewsAnalysisResponse, Exception>)
      requires mapper.Valid()
      modifies mapper, host
      ensures mapper.Valid()
      ensures properties.n8nUrl.None? ==>
                r == Failure(AnalysisException("News analysis n8n webhook URL is not configured"))
                && host.sent == old(host.sent) && mapper.rows == old(mapper.rows)
      ensures properties.n8nUrl.Some? && NormalizeKeyword(keyword).Failure? ==>
                r == Failure(AnalysisException("Keyword is required"))
                && host.sent == old(host.sent) && mapper.rows == old(mapper.rows)
      ensures properties.n8nUrl.Some? && NormalizeKeyword(keyword).Success? ==>
                var kw := NormalizeKeyword(keyword).value;
                var run := WebhookSpec(properties.n8nUrl.value, KeywordPayload(kw),
                                       NextReply(old(host.script)), NextReply(RestOfScript(old(host.script))));
                host.sent == old(host.sent) + run.requests
                && (run.result.Failure? ==> r == Failure(run.result.error) && mapper.rows == old(mapper.rows))
                && (run.result.Success? ==>
                      r == Success(NewsAnalysisResponse(Some(old(mapper.nextId)), Some(kw),
                                                        AnalysisOf(readTree, Some(run.result.value)),
                                                        Some(now)))
                      && mapper.rows == old(mapper.rows) +
                           [M.Row(old(mapper.nextId), Some(kw),
                                  Some(PersistedBody(readTree, run.result.value)), Some(now))])
    {
      if properties.n8nUrl.None? {
        return Failure(AnalysisException("News analysis n8n webhook URL is not configured"));
      }
      var normalized := NormalizeKeyword(keyword);
      if normalized.Failure? {
        return Failure(normalized.error);
      }
      var normalizedKeyword := normalized.value;
      var payload := KeywordPayload(normalizedKeyword);
      var invoked := InvokeN8nWebhook(payload);
      if invoked.Failure? {
        return Failure(invoked.error);
      }
      var response := PersistAnalysis(normalizedKeyword, invoked.value, now);
      r := Success(response);
    }

    /** `invokeN8nWebhook` with `executePost` and `executeGet` against the host. */
    method InvokeN8nWebhook(payload: map<string, string>)
      returns (r: Result<string, Exception>)
      requires properties.n8nUrl.Some? && "keyword" in payload
      modifies host
      ensures var run := WebhookSpec(properties.n8nUrl.value, payload,
                                     NextReply(old(host.script)), NextReply(RestOfScript(old(host.script))));
              r == run.result && host.sent == old(host.sent) + run.requests
    {
      var url := properties.n8nUrl.value;
      var post := host.Exchange(Post(url, payload));
      match post {
        case Transport(_) =>
          r := Failure(AnalysisException("Failed to call n8n webhook"));
        case Response(code, body) =>
          if IsError(code) {
            r := Failure(AnalysisException("n8n responded with status " + IntToString(code)));
          } else {
            r := Success(BodyOrEmpty(body));
          }
        case StatusError(code, body, _) =>
          if ShouldFallbackToGet(code, body) {
            var get := host.Exchange(Get(url, KeywordQuery(payload["keyword"])));
            match get {
              case Response(getCode, getBody) =>
                if IsError(getCode) {
                  r := Failure(AnalysisException("n8n GET responded with status " + IntToString(getCode)));
                } else {
                  r := Success(BodyOrEmpty(getBody));
                }
              case StatusError(_, _, message) =>
                r := Failure(AnalysisException("n8n GET request failed: " + message));
              case Transport(message) =>
                r := Failure(AnalysisException("n8n GET request failed: " + message));
            }
          } else {
            r := Failure(AnalysisException("n8n responded with status " + IntToString(code)));
          }
      }
    }

    /** The second half of `analyzeKeyword`: exactly one insert; the answer carries the id and
        timestamp read back from the record after the insert. */
    method PersistAnalysis(normalizedKeyword: string, rawResponse: string, now: int)
      returns (response: NewsAnalysisResponse)
      requires mapper.Valid()
      modifies mapper
      ensures mapper.Valid()
      ensures mapper.rows == old(mapper.rows) +
                [M.Row(old(mapper.nextId), Some(normalizedKeyword),
                       Some(PersistedBody(readTree, rawResponse)), Some(now))]
      ensures response == NewsAnalysisResponse(Some(old(mapper.nextId)), Some(normalizedKeyword),
                                               AnalysisOf(readTree, Some(rawResponse)), Some(now))
    {
      var analysisNode, storedResponse := AnalysisAndStoredBody(rawResponse);
      var id, requestedAt := InsertRecord(normalizedKeyword, storedResponse, now);
      response := NewsAnalysisResponse(id, Some(normalizedKeyword), analysisNode, requestedAt);
    }

    /** Fills a fresh record and hands it to the mapper; returns the id and the timestamp read
        back from the record afterwards. */
    method InsertRecord(keyword: string, storedResponse: string, now: int)
      returns (id: Option<int>, requestedAt: Option<int>)
      requires mapper.Valid()
      modifies mapper
      ensures mapper.Valid()
      ensures mapper.rows == old(mapper.rows) + [M.Row(old(mapper.nextId), Some(keyword), Some(storedResponse), Some(now))]
      ensures id == Some(old(mapper.nextId)) && requestedAt == Some(now)
    {
      var record := new M.NewsAnalysisRecord();
      record.keyword := Some(keyword);
      record.rawResponse := Some(storedResponse);
      record.requestedAt := Some(now);
      mapper.Insert(record);
      id, requestedAt := record.id, record.requestedAt;
    }

    /** The first step of persisting: the tree to answer with and the text to store. An empty
        body is replaced by the error object, in the answer and in the table alike. */
    method AnalysisAndStoredBody(rawResponse: string) returns (analysisNode: Json, storedResponse: string)
      ensures analysisNode == AnalysisOf(readTree, Some(rawResponse))
      ensures storedResponse == PersistedBody(readTree, rawResponse)
    {
      storedResponse := rawResponse;
      var present := EnsureAnalysisPresent(readTree, Some(rawResponse));
      if present.Success? {
        analysisNode := present.value;
      } else {
        analysisNode := ErrorObject(present.error);
        storedResponse := SerializeStringField("error", present.error.message);
      }
    }

    /** `fetchRecentHistory`: the ten newest rows, in order, each through `toResponse`. */
    method FetchRecentHistory() returns (history: seq<NewsAnalysisResponse>)
      ensures var rows := Recency.Recent(mapper.rows, DEFAULT_HISTORY_LIMIT, M.StampOf);
              |history| == |rows| <= DEFAULT_HISTORY_LIMIT
              && forall i :: 0 <= i < |rows| ==> history[i] == ToResponse(readTree, rows[i])
    {
      var rows := mapper.FindRecent(DEFAULT_HISTORY_LIMIT);
      history := seq(|rows|, i requires 0 <= i < |rows| => ToResponse(readTree, rows[i]));
    }
  }
}
