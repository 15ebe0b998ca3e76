/**
 * `StockAnalysisService`: forwards a stock code to the comprehensive or the structured n8n
 * webhook (POST, with one GET fallback), interprets the raw body, stores it and answers with the
 * parsed analysis; reads history back; proxies the raw single-stock GET.
 */
module StockAnalysisService {
  import opened Wrappers
  import opened Text
  import opened Json
  import opened Upstream
  import opened Exceptions
  import M = StockAnalysisMapper
  import Recency

  const DEFAULT_HISTORY_LIMIT: nat := 10
  const EMPTY_RESULT_MESSAGE := "n8n 未返回分析结果，请稍后重试"
  const TYPE_COMPREHENSIVE := "COMPREHENSIVE"
  const TYPE_STRUCTURED := "STRUCTURED"
  const NOT_REGISTERED_FOR_POST := "not registered for post"

  /** The field names under which the stock code is sent in the POST body. */
  const PAYLOAD_KEYS: set<string> :=
    {"stockCode", "code", "ticker", "symbol", "stock_code", "tickerSymbol", "stock_name", "value"}

  /** `stock.analysis.comprehensive-url` and `stock.analysis.structured-url`; `None` when unset. */
  datatype Properties = Properties(comprehensiveUrl: Option<Url>, structuredUrl: Option<Url>)

  /** What the service answers: id, stock code, analysis type, analysis tree, request time. */
  datatype StockAnalysisResponse = StockAnalysisResponse(
    id: Option<int>, stockCode: Option<string>, analysisType: string, analysis: Json, requestedAt: Option<int>)

  // ---------------------------------------------------------------------------------------
  // Analysis type

  /** `normalizeType`: COMPREHENSIVE for `null` and blank text, STRUCTURED when the trimmed
      text upper-cases to it, COMPREHENSIVE for anything else. */
  function NormalizeType(analysisType: Option<string>): (r: string)
    ensures r == TYPE_COMPREHENSIVE || r == TYPE_STRUCTURED
  {
    if analysisType.None? || JavaIsBlank(analysisType.value) then TYPE_COMPREHENSIVE
    else if ToUpper(JavaTrim(analysisType.value)) == TYPE_STRUCTURED then TYPE_STRUCTURED
    else TYPE_COMPREHENSIVE
  }

  /** The type is STRUCTURED exactly when the trimmed text equals it up to case; every other
      value, `null` and blank text included, is COMPREHENSIVE. */
  lemma NormalizeTypeIff(analysisType: Option<string>)
    ensures NormalizeType(analysisType) == TYPE_STRUCTURED <==>
              analysisType.Some? && EqualsIgnoreCase(JavaTrim(analysisType.value), TYPE_STRUCTURED)
  {
    if analysisType.Some? {
      var t := JavaTrim(analysisType.value);
      assert IsUpperCase(TYPE_STRUCTURED);
      UpperEqualsIff(t, TYPE_STRUCTURED);
      if EqualsIgnoreCase(t, TYPE_STRUCTURED) {
        assert LowerChar(t[0]) == LowerChar(TYPE_STRUCTURED[0]);
        assert !JavaWhitespace(t[0]);
        JavaTrimNonBlank(analysisType.value);
      }
    }
  }

  /** Normalising an already normalised type changes nothing. */
  lemma NormalizeTypeIdempotent(analysisType: Option<string>)
    ensures NormalizeType(Some(NormalizeType(analysisType))) == NormalizeType(analysisType)
  {
    TrimOfTrimmed(TYPE_STRUCTURED, JavaTrimmable);
    TrimOfTrimmed(TYPE_COMPREHENSIVE, JavaTrimmable);
    NormalizeTypeIff(Some(TYPE_STRUCTURED));
    NormalizeTypeIff(Some(TYPE_COMPREHENSIVE));
  }

  /** The webhook a normalised type is sent to. */
  function EndpointFor(properties: Properties, analysisType: string): Option<Url> {
    if analysisType == TYPE_STRUCTURED then properties.structuredUrl else properties.comprehensiveUrl
  }

  function NotConfiguredMessage(analysisType: string): string {
    if analysisType == TYPE_STRUCTURED then "Structured n8n webhook URL is not configured"
    else "Comprehensive n8n webhook URL is not configured"
  }

  // ---------------------------------------------------------------------------------------
  // Alias fan-out

  /** Reference definition of the POST body: every alias key mapped to the stock code. */
  function AliasPayload(stockCode: string): map<string, string> {
    map k | k in PAYLOAD_KEYS :: stockCode
  }

  /** `buildPayload`: the eight alias keys, each mapped to the stock code. */
  method BuildPayload(stockCode: string) returns (payload: map<string, string>)
    ensures payload == AliasPayload(stockCode)
    ensures payload.Keys == PAYLOAD_KEYS && forall k :: k in payload ==> payload[k] == stockCode
  {
    payload := map[];
    payload := payload["stockCode" := stockCode];
    payload := payload["code" := stockCode];
    payload := payload["ticker" := stockCode];
    payload := payload["symbol" := stockCode];
    payload := payload["stock_code" := stockCode];
    payload := payload["tickerSymbol" := stockCode];
    payload := payload["stock_name" := stockCode];
    payload := payload["value" := stockCode];
  }

  /** The query of the GET fallback and of the raw single-stock GET: seven alias parameters,
      all but `value`, each carrying the stock code. */
  function GetQuery(stockCode: string): (q: seq<(string, string)>)
    ensures |q| == 7
    ensures forall i :: 0 <= i < |q| ==> q[i].1 == stockCode
    ensures (set i | 0 <= i < |q| :: q[i].0) == PAYLOAD_KEYS - {"value"}
  {
    var q := [("stock_name", stockCode), ("stockCode", stockCode), ("code", stockCode),
              ("ticker", stockCode), ("symbol", stockCode), ("stock_code", stockCode),
              ("tickerSymbol", stockCode)];
    assert (set i | 0 <= i < |q| :: q[i].0) == PAYLOAD_KEYS - {"value"} by {
      var ks := set i | 0 <= i < |q| :: q[i].0;
      assert q[0].0 in ks && q[1].0 in ks && q[2].0 in ks && q[3].0 in ks;
      assert q[4].0 in ks && q[5].0 in ks && q[6].0 in ks;
    }
    q
  }

  // ---------------------------------------------------------------------------------------
  // POST with GET fallback

  /** `shouldFallbackToGet`: 404 or 405, or an error body whose lower-cased text contains
      "not registered for post". */
  predicate ShouldFallbackToGet(code: int, body: string) {
    if code == 405 || code == 404 then true
    else Contains(ToLower(body), NOT_REGISTERED_FOR_POST)
  }

  /** The fallback rule stated as a case-insensitive search. */
  lemma ShouldFallbackIff(code: int, body: string)
    ensures ShouldFallbackToGet(code, body) <==>
              code == 404 || code == 405 || ContainsIgnoreCase(body, NOT_REGISTERED_FOR_POST)
  {
    LowerContainsIff(body, NOT_REGISTERED_FOR_POST);
  }

  /** The requests one webhook call sends and what it returns or throws. */
  datatype WebhookRun = WebhookRun(result: Result<string, Exception>, requests: seq<Request>)

  /** The call, given the outcome of the POST and the outcome the GET would have. */
  function WebhookSpec(url: Url, payload: map<string, string>, stockCode: string,
                       post: Outcome, get: Outcome): (run: WebhookRun)
    ensures 1 <= |run.requests| <= 2 && run.requests[0] == Post(url, payload)
    ensures |run.requests| == 2 <==> post.StatusError? && ShouldFallbackToGet(post.code, post.responseBody)
    ensures |run.requests| == 2 ==> run.requests[1] == Get(url, GetQuery(stockCode))
    ensures run.result.Success? <==>
              (post.Response? && !IsError(post.code)) || (|run.requests| == 2 && get.Response? && !IsError(get.code))
    ensures run.result.Success? ==>
              run.result.value == BodyOrEmpty(if |run.requests| == 2 then get.body else post.body)
    ensures run.result.Failure? ==> run.result.error.AnalysisException?
  {
    var postOnly := [Post(url, payload)];
    match post
    case Transport(_) =>
      WebhookRun(Failure(AnalysisException("Failed to call n8n webhook")), postOnly)
    case Response(code, body) =>
      if IsError(code) then
        WebhookRun(Failure(AnalysisException("n8n responded with status " + IntToString(code))), postOnly)
      else WebhookRun(Success(BodyOrEmpty(body)), postOnly)
    case StatusError(code, body, _) =>
      if ShouldFallbackToGet(code, body) then
        var both := postOnly + [Get(url, GetQuery(stockCode))];
        match get
        case Response(getCode, getBody) =>
          if IsError(getCode) then
            WebhookRun(Failure(AnalysisException("n8n GET responded with status " + IntToString(getCode))), both)
          else WebhookRun(Success(BodyOrEmpty(getBody)), both)
        case StatusError(_, _, message) =>
          WebhookRun(Failure(AnalysisException("n8n GET request failed: " + message)), both)
        case Transport(message) =>
          WebhookRun(Failure(AnalysisException("n8n GET request failed: " + message)), both)
      else WebhookRun(Failure(AnalysisException("n8n responded with status " + IntToString(code))), postOnly)
  }

  /** A GET is sent exactly when the POST threw 404, 405, or an error whose body mentions
      "not registered for post" in any case; a transport failure or a returned error status
      never leads to a GET. */
  lemma GetOnlyOnFallbackSignal(url: Url, payload: map<string, string>, stockCode: string,
                                post: Outcome, get: Outcome)
    ensures var run := WebhookSpec(url, payload, stockCode, post, get);
            |run.requests| == 2 <==>
              post.StatusError? && (post.code == 404 || post.code == 405 ||
                ContainsIgnoreCase(post.responseBody, NOT_REGISTERED_FOR_POST))
  {
    if post.StatusError? {
      ShouldFallbackIff(post.code, post.responseBody);
    }
  }

  /** When the POST needs no fallback, the GET's outcome makes no difference. */
  lemma GetIrrelevantWithoutFallback(url: Url, payload: map<string, string>, stockCode: string,
                                     post: Outcome, get1: Outcome, get2: Outcome)
    requires !(post.StatusError? && ShouldFallbackToGet(post.code, post.responseBody))
    ensures WebhookSpec(url, payload, stockCode, post, get1) == WebhookSpec(url, payload, stockCode, post, get2)
  {
  }

  // ---------------------------------------------------------------------------------------
  // Response interpreter and write-through persistence

  /** `parseResponse`: `{}` for a null or blank body, the parsed tree otherwise, and
      `{"rawResponse": raw}` when the text is not JSON. */
  function ParseResponse(readTree: string -> Option<Json>, raw: Option<string>): Json {
    if raw.None? || JavaIsBlank(raw.value) then JObj([])
    else match readTree(raw.value)
      case Some(tree) => tree
      case None => StringField("rawResponse", raw.value)
  }

  /** `isEmptyAnalysis`; a `None` node is Java's `null` or a missing node. */
  predicate IsEmptyAnalysis(raw: Option<string>, node: Option<Json>) {
    if raw.None? || JavaIsBlank(raw.value) then true
    else if node.None? || node.value.JNull? then true
    else if node.value.JStr? then JavaTrim(node.value.s) == []
    else if node.value.JArr? || node.value.JObj? then Size(node.value) == 0
    else false
  }

  /** A semantically empty tree: the null literal, a blank string, an empty array or object. */
  predicate SemanticallyEmpty(tree: Json) {
    tree == JNull || (tree.JStr? && AllIn(tree.s, JavaTrimmable)) || tree == JArr([]) || tree == JObj([])
  }

  /** A body is empty exactly when it is null or blank or parses to a semantically empty tree;
      text that is not JSON is never empty. */
  lemma EmptyAnalysisIff(readTree: string -> Option<Json>, raw: Option<string>)
    ensures IsEmptyAnalysis(raw, Some(ParseResponse(readTree, raw))) <==>
              raw.None? || JavaIsBlank(raw.value)
              || (readTree(raw.value).Some? && SemanticallyEmpty(readTree(raw.value).value))
    ensures raw.Some? && !JavaIsBlank(raw.value) && readTree(raw.value).None? ==>
              !IsEmptyAnalysis(raw, Some(ParseResponse(readTree, raw)))
  {
    if raw.Some? && !JavaIsBlank(raw.value) && readTree(raw.value).Some? {
      var tree := readTree(raw.value).value;
      if tree.JStr? {
        TrimEmptyIff(tree.s, JavaTrimmable);
      }
    }
  }

  /** `ensureAnalysisPresent`: the parsed tree, or an `AnalysisException` with the empty-result
      message. */
  function EnsureAnalysisPresent(readTree: string -> Option<Json>, raw: Option<string>)
    : (r: Result<Json, Exception>)
    ensures r.Failure? <==> IsEmptyAnalysis(raw, Some(ParseResponse(readTree, raw)))
    ensures r.Failure? ==> r.error == AnalysisException(EMPTY_RESULT_MESSAGE)
    ensures r.Success? ==> r.value == ParseResponse(readTree, raw)
  {
    var tree := ParseResponse(readTree, raw);
    if IsEmptyAnalysis(raw, Some(tree)) then Failure(AnalysisException(EMPTY_RESULT_MESSAGE)) else Success(tree)
  }

  /** A tree that passes `isEmptyAnalysis` is not semantically empty. */
  lemma PresentIsNotEmpty(raw: Option<string>, tree: Json)
    requires !IsEmptyAnalysis(raw, Some(tree))
    ensures !SemanticallyEmpty(tree)
  {
    if tree.JStr? {
      TrimEmptyIff(tree.s, JavaTrimmable);
    }
  }

  /** The error object built from the caught exception: `{"error": message}`. */
  function ErrorObject(ex: Exception): Json
    requires ex.AnalysisException?
  {
    StringField("error", ex.message)
  }

  /** The analysis answered for a body: the parsed tree, or the error object when it is empty.
      `persistAnalysis` computes it for the fresh body and `toResponse` for a stored one. */
  function AnalysisOf(readTree: string -> Option<Json>, raw: Option<string>): (r: Json)
    ensures !SemanticallyEmpty(r)
    ensures IsEmptyAnalysis(raw, Some(ParseResponse(readTree, raw))) ==> r == StringField("error", EMPTY_RESULT_MESSAGE)
    ensures !IsEmptyAnalysis(raw, Some(ParseResponse(readTree, raw))) ==> r == ParseResponse(readTree, raw)
  {
    match EnsureAnalysisPresent(readTree, raw)
    case Success(tree) => PresentIsNotEmpty(raw, tree); tree
    case Failure(ex) => ErrorObject(ex)
  }

  /** The body that is stored: the upstream text, or the text of the error object when it is
      empty. */
  function PersistedBody(readTree: string -> Option<Json>, raw: string): (r: string)
    ensures !IsEmptyAnalysis(Some(raw), Some(ParseResponse(readTree, Some(raw)))) ==> r == raw
    ensures IsEmptyAnalysis(Some(raw), Some(ParseResponse(readTree, Some(raw)))) ==>
              r == SerializeStringField("error", EMPTY_RESULT_MESSAGE)
  {
    match EnsureAnalysisPresent(readTree, Some(raw))
    case Success(_) => raw
    case Failure(ex) => SerializeStringField("error", ex.message)
  }

  /** A stored error object is not empty: reading it back yields the object itself. */
  lemma ErrorObjectReadsBack(readTree: string -> Option<Json>, message: string)
    requires ReadsBackStringFields(readTree)
    ensures EnsureAnalysisPresent(readTree, Some(SerializeStringField("error", message)))
            == Success(StringField("error", message))
  {
    var stored := SerializeStringField("error", message);
    assert !JavaWhitespace(stored[0]);
    assert readTree(stored) == Some(StringField("error", message));
  }

  /** Whatever was stored for a body, reading the row back shows the analysis the write answered
      with, provided the parser reads back the error objects Jackson writes. */
  lemma StoredAnalysisMatchesAnswer(readTree: string -> Option<Json>, raw: string)
    requires ReadsBackStringFields(readTree)
    ensures AnalysisOf(readTree, Some(PersistedBody(readTree, raw)))
            == AnalysisOf(readTree, Some(raw))
  {
    var present := EnsureAnalysisPresent(readTree, Some(raw));
    if present.Failure? {
      ErrorObjectReadsBack(readTree, EMPTY_RESULT_MESSAGE);
    }
  }

  // ---------------------------------------------------------------------------------------
  // Responses and history

  /** `toResponse`: never fails; an empty stored body becomes the error object, and the stored
      type is normalised again. */
  function ToResponse(readTree: string -> Option<Json>, row: M.Row): (r: StockAnalysisResponse)
    ensures r.id == Some(row.id) && r.stockCode == row.stockCode && r.requestedAt == row.requestedAt
    ensures r.analysisType == TYPE_COMPREHENSIVE || r.analysisType == TYPE_STRUCTURED
    ensures !SemanticallyEmpty(r.analysis)
  {
    StockAnalysisResponse(Some(row.id), row.stockCode, NormalizeType(row.analysisType),
                          AnalysisOf(readTree, row.rawResponse), row.requestedAt)
  }

  /** The row `persistAnalysis` writes, read back through `toResponse`, repeats the answer the
      write gave: same id, code, type, analysis and timestamp. */
  lemma HistoryRepeatsAnswer(readTree: string -> Option<Json>, id: int, stockCode: string,
                             analysisType: Option<string>, raw: string, now: int)
    requires ReadsBackStringFields(readTree)
    ensures var kind := NormalizeType(analysisType);
            ToResponse(readTree, M.Row(id, Some(stockCode), Some(kind),
                                       Some(PersistedBody(readTree, raw)), Some(now)))
            == StockAnalysisResponse(Some(id), Some(stockCode), kind,
                                     AnalysisOf(readTree, Some(raw)), Some(now))
  {
    NormalizeTypeIdempotent(analysisType);
    StoredAnalysisMatchesAnswer(readTree, raw);
  }

  // ---------------------------------------------------------------------------------------
  // Raw single-stock GET

  /** `analyzeSingleStockRaw` once the GET has an outcome: a 2xx body verbatim (null as ""),
      any other returned status fails with it, every thrown error fails alike. */
  function RawGetResult(outcome: Outcome): (r: Result<string, Exception>)
    ensures r.Success? <==> outcome.Response? && Is2xx(outcome.code)
    ensures r.Success? ==> r.value == BodyOrEmpty(outcome.body)
    ensures !outcome.Response? ==> r == Failure(AnalysisException("Failed to call n8n webhook"))
    ensures r.Failure? ==> r.error.AnalysisException?
  {
    match outcome
    case Response(code, body) =>
      if Is2xx(code) then Success(BodyOrEmpty(body))
      else Failure(AnalysisException("Upstream responded with status " + IntToString(code)))
    case _ => Failure(AnalysisException("Failed to call n8n webhook"))
  }

  class StockAnalysisService {
    const mapper: M.Mapper
    const host: WebhookHost
    const properties: Properties
    const readTree: string -> Option<Json>

    constructor (mapper: M.Mapper, host: WebhookHost, properties: Properties, readTree: string -> Option<Json>)
      ensures this.mapper == mapper && this.host == host
      ensures this.properties == properties && this.readTree == readTree
    {
      this.mapper := mapper;
      this.host := host;
      this.properties := properties;
      this.readTree := readTree;
    }

    /** `analyzeStockCode` with `performComprehensiveAnalysis`/`performStructuredAnalysis`:
        picks the webhook by normalised type; an unset URL fails before any request; otherwise
        one POST (and at most one GET), then exactly one insert when the call succeeded. */
    method AnalyzeStockCode(stockCode: string, analysisType: Option<string>, now: int)
      returns (r: Result<StockAnalysisResponse, Exception>)
      requires mapper.Valid()
      modifies mapper, host
      ensures mapper.Valid()
      ensures var kind := NormalizeType(analysisType);
              var url := EndpointFor(properties, kind);
              if url.None? then
                r == Failure(AnalysisException(NotConfiguredMessage(kind)))
                && host.sent == old(host.sent) && mapper.rows == old(mapper.rows)
              else
                var run := WebhookSpec(url.value, AliasPayload(stockCode), stockCode,
                                       NextReply(old(host.script)), NextReply(RestOfScript(old(host.script))));
                host.sent == old(host.sent) + run.requests
                && (run.result.Failure? ==> r == Failure(run.result.error) && mapper.rows == old(mapper.rows))
                && (run.result.Success? ==>
                      r == Success(StockAnalysisResponse(Some(old(mapper.nextId)), Some(stockCode), kind,
                                                         AnalysisOf(readTree, Some(run.result.value)),
                                                         Some(now)))
                      && mapper.rows == old(mapper.rows) +
                           [M.Row(old(mapper.nextId), Some(stockCode), Some(kind),
                                  Some(PersistedBody(readTree, run.result.value)), Some(now))])
    {
      var kind := NormalizeType(analysisType);
      var url := EndpointFor(properties, kind);
      if url.None? {
        return Failure(AnalysisException(NotConfiguredMessage(kind)));
      }
      var payload := BuildPayload(stockCode);
      var raw := InvokeN8nWebhook(url.value, payload, stockCode);
      if raw.Failure? {
        return Failure(raw.error);
      }
      var response := PersistAnalysis(stockCode, kind, raw.value, now);
      r := Success(response);
    }

    /** `invokeN8nWebhook` with `executePost` and `executeGet` against the host. */
    method InvokeN8nWebhook(url: Url, payload: map<string, string>, stockCode: string)
      returns (r: Result<string, Exception>)
      modifies host
      ensures var run := WebhookSpec(url, payload, stockCode,
                                     NextReply(old(host.script)), NextReply(RestOfScript(old(host.script))));
              r == run.result && host.sent == old(host.sent) + run.requests
    {
      var post := host.Exchange(Post(url, payload));
      match post {
        case Transport(_) =>
          r := Failure(AnalysisException("Failed to call n8n webhook"));
        case Response(code, body) =>
          if IsError(code) {
            r := Failure(AnalysisException("n8n responded with status " + IntToString(code)));
          } else {
            r := Success(BodyOrEmpty(body));
          }
        case StatusError(code, body, _) =>
          if ShouldFallbackToGet(code, body) {
            var get := host.Exchange(Get(url, GetQuery(stockCode)));
            match get {
              case Response(getCode, getBody) =>
                if IsError(getCode) {
                  r := Failure(AnalysisException("n8n GET responded with status " + IntToString(getCode)));
                } else {
                  r := Success(BodyOrEmpty(getBody));
                }
              case StatusError(_, _, message) =>
                r := Failure(AnalysisException("n8n GET request failed: " + message));
              case Transport(message) =>
                r := Failure(AnalysisException("n8n GET request failed: " + message));
            }
          } else {
            r := Failure(AnalysisException("n8n responded with status " + IntToString(code)));
          }
      }
    }

    /** The first half of `persistAnalysis`: the tree to answer with and the text to store. An
        empty body is replaced by the error object, in the answer and in the table alike. */
    method AnalysisAndStoredBody(rawResponse: string) returns (analysisNode: Json, persistedResponse: string)
      ensures analysisNode == AnalysisOf(readTree, Some(rawResponse))
      ensures persistedResponse == PersistedBody(readTree, rawResponse)
    {
      persistedResponse := rawResponse;
      var present := EnsureAnalysisPresent(readTree, Some(rawResponse));
      if present.Success? {
        analysisNode := present.value;
      } else {
        analysisNode := ErrorObject(present.error);
        persistedResponse := SerializeStringField("error", present.error.message);
      }
    }

    /** `persistAnalysis`: exactly one insert; the answer carries the id and timestamp read back
        from the record after the insert. */
    method PersistAnalysis(stockCode: string, analysisType: string, rawResponse: string, now: int)
      returns (response: StockAnalysisResponse)
      requires mapper.Valid()
      modifies mapper
      ensures mapper.Valid()
      ensures mapper.rows == old(mapper.rows) +
                [M.Row(old(mapper.nextId), Some(stockCode), Some(analysisType),
                       Some(PersistedBody(readTree, rawResponse)), Some(now))]
      ensures response == StockAnalysisResponse(Some(old(mapper.nextId)), Some(stockCode), analysisType,
                                                AnalysisOf(readTree, Some(rawResponse)), Some(now))
    {
      var analysisNode, persistedResponse := AnalysisAndStoredBody(rawResponse);
      var id, requestedAt := InsertRecord(stockCode, analysisType, persistedResponse, now);
      response := StockAnalysisResponse(id, Some(stockCode), analysisType, analysisNode, requestedAt);
    }

    /** Fills a fresh record and hands it to the mapper; returns the id and the timestamp read
        back from the record afterwards. */
    method InsertRecord(stockCode: string, analysisType: string, persistedResponse: string, now: int)
      returns (id: Option<int>, requestedAt: Option<int>)
      requires mapper.Valid()
      modifies mapper
      ensures mapper.Valid()
      ensures mapper.rows == old(mapper.rows) +
                [M.Row(old(mapper.nextId), Some(stockCode), Some(analysisType), Some(persistedResponse), Some(now))]
      ensures id == Some(old(mapper.nextId)) && requestedAt == Some(now)
    {
      var record := new M.StockAnalysisRecord();
      record.stockCode := Some(stockCode);
      record.analysisType := Some(analysisType);
      record.rawResponse := Some(persistedResponse);
      record.requestedAt := Some(now);
      mapper.Insert(record);
      id, requestedAt := record.id, record.requestedAt;
    }

    /** `fetchRecentHistory`: the ten newest rows, in order, each through `toResponse`. */
    method FetchRecentHistory() returns (history: seq<StockAnalysisResponse>)
      ensures var rows := Recency.Recent(mapper.rows, DEFAULT_HISTORY_LIMIT, M.StampOf);
              |history| == |rows| <= DEFAULT_HISTORY_LIMIT
              && forall i :: 0 <= i < |rows| ==> history[i] == ToResponse(readTree, rows[i])
    {
      var rows := mapper.FindRecent(DEFAULT_HISTORY_LIMIT);
      history := seq(|rows|, i requires 0 <= i < |rows| => ToResponse(readTree, rows[i]));
    }

    /** `analyzeSingleStockRaw`: GET only, on the structured URL, never stored. */
    method AnalyzeSingleStockRaw(stockCode: string) returns (r: Result<string, Exception>)
      modifies host
      ensures properties.structuredUrl.None? ==>
                r == Failure(AnalysisException("Structured n8n webhook URL is not configured"))
                && host.sent == old(host.sent)
      ensures properties.structuredUrl.Some? ==>
                host.sent == old(host.sent) + [Get(properties.structuredUrl.value, GetQuery(stockCode))]
                && r == RawGetResult(NextReply(old(host.script)))
    {
      var structuredUrl := properties.structuredUrl;
      if structuredUrl.None? {
        return Failure(AnalysisException("Structured n8n webhook URL is not configured"));
      }
      var outcome := host.Exchange(Get(structuredUrl.value, GetQuery(stockCode)));
      r := RawGetResult(outcome);
    }
  }
}
