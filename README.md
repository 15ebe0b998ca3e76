# finance_analyse, modelled in Dafny

This project models the core of the finance_analyse application: a Spring back end that forwards stock-code and news-keyword analysis requests to n8n webhooks, stores what comes back and serves it as history; reads intraday candles from Alpha Vantage; and signs users in with bearer tokens. It also models a Vue front end's session, route guard and text rendering, and the pure helpers of a Python script that fetches K-line data from the Futu API.

Each core source file has one module of its own:

- `StockAnalysisService` and `NewsAnalysisService` (classes over a mapper and a webhook host) model the two analysis pipelines.
  - A request first picks the webhook. It is sent as a POST, with one GET fallback when the POST is refused as unregistered.
  - The body is then judged empty or not. An empty body is replaced by an `{"error": ...}` object.
  - The body or its replacement is stored and answered with the new row's id.
  - History reads back the newest ten rows.
  - The two pipelines are modelled separately, as the source duplicates them. Lemmas show that their emptiness and fallback rules agree.
- `StockAnalysisMapper` and `NewsAnalysisMapper` model the MyBatis mappers as tables that give ids and return rows newest first. `Recency` holds the ordering they share. Each mapper module also replays its mapper test's steps against the model.
- `IntradayMarketDataService` models how one Alpha Vantage request is checked, built and interpreted, in the order the source applies its checks.
  - Decimal and volume fields are parsed as `BigDecimal` parses an ASCII numeral, from the field's text. A volume is truncated to a 64-bit `long`.
  - The candles are sorted by timestamp with a stable sort.
- `AuthService` and `AuthTokenService` model registration, login and the bearer-token check. They work over a user table and an in-memory token table.
- `GlobalExceptionHandler` models the status and body each exception kind is answered with. `Exceptions` lists those kinds.
- `FrontendAuth` models the browser session (`services/auth.ts`) as a class: the signed-in user, the memoised start-up check and the stored token.
- `FrontendRouter` models the route table and the navigation guard.
- `Display` models the rendering of an analysis tree into readable text (`utils/display.ts`).
- `ErrorMessages` models the text shown for a failed request (`utils/errors.ts`).
- `FutuKline` models `normalize_enum_value` and `convert_records` of `scripts/futu_kline.py`.

Four modules are shared:

- `Wrappers`: Option and Result.
- `Text`: each language's white-space classes, `trim`/`strip`, ASCII case mapping and substring search.
- `Json`: the Jackson/JavaScript value tree.
- `Upstream`: outbound HTTP as a scripted remote host that logs every request.

Some inputs are not computed by the model. These become parameters: Jackson's `readTree`, `JSON.parse`, the clock, UUIDs, the password encoder, the `java.time` timestamp conversion and the `/auth/me` answer.

## Model

| member | source | states |
|---|---|---|
| StockAnalysisService.NormalizeType | src/main/java/com/finance_analysis/service/StockAnalysisService.java:289-295 | the type is always COMPREHENSIVE or STRUCTURED |
| StockAnalysisService.NormalizeTypeIff | src/main/java/com/finance_analysis/service/StockAnalysisService.java:289-295 | STRUCTURED exactly when the trimmed text equals "STRUCTURED" ignoring case; null, blank and any other text give COMPREHENSIVE |
| StockAnalysisService.NormalizeTypeIdempotent | src/main/java/com/finance_analysis/service/StockAnalysisService.java:289-295 | normalising a normalised type changes nothing (history rows re-normalise their stored type) |
| StockAnalysisService.BuildPayload | src/main/java/com/finance_analysis/service/StockAnalysisService.java:225-236 | the POST body maps exactly the eight alias keys, each to the stock code |
| StockAnalysisService.GetQuery | src/main/java/com/finance_analysis/service/StockAnalysisService.java:201-211 | the GET query has seven parameters, the alias keys other than `value`, each carrying the stock code |
| StockAnalysisService.ShouldFallbackToGet | src/main/java/com/finance_analysis/service/StockAnalysisService.java:176-182 | no contract of its own; its rule is stated both ways by ShouldFallbackIff, and its use by WebhookSpec and GetOnlyOnFallbackSignal |
| StockAnalysisService.ShouldFallbackIff | src/main/java/com/finance_analysis/service/StockAnalysisService.java:176-182 | the GET fallback is taken for 404, for 405, or for an error body containing "not registered for post" in any letter case |
| StockAnalysisService.WebhookSpec | src/main/java/com/finance_analysis/service/StockAnalysisService.java:156-223 | one POST, plus one GET exactly when the POST threw a fallback status; success only for a non-error reply, whose null body reads as ""; every failure is an AnalysisException |
| StockAnalysisService.GetOnlyOnFallbackSignal | src/main/java/com/finance_analysis/service/StockAnalysisService.java:156-182 | a GET is sent if and only if the POST threw 404, 405, or a "not registered for post" body; a transport failure or a returned error status never falls back |
| StockAnalysisService.GetIrrelevantWithoutFallback | src/main/java/com/finance_analysis/service/StockAnalysisService.java:156-174 | without a fallback signal the outcome does not depend on what a GET would have answered |
| StockAnalysisService.ParseResponse | src/main/java/com/finance_analysis/service/StockAnalysisService.java:260-271 | no contract of its own: `{}` for a null or blank body, the parsed tree, or the `rawResponse` wrapper; EmptyAnalysisIff, EnsureAnalysisPresent and AnalysisOf state what the service makes of it |
| StockAnalysisService.IsEmptyAnalysis | src/main/java/com/finance_analysis/service/StockAnalysisService.java:273-287 | no contract of its own; EmptyAnalysisIff states it exactly over ParseResponse, and PresentIsNotEmpty its converse |
| StockAnalysisService.EmptyAnalysisIff | src/main/java/com/finance_analysis/service/StockAnalysisService.java:260-287 | a body is empty exactly when it is null or blank or parses to null, a blank string, or an empty array or object; an unparsable non-blank body is never empty, because it is wrapped |
| StockAnalysisService.EnsureAnalysisPresent | src/main/java/com/finance_analysis/service/StockAnalysisService.java:252-258 | fails with the empty-result AnalysisException exactly when the body is empty, else returns the parsed tree |
| StockAnalysisService.PresentIsNotEmpty | src/main/java/com/finance_analysis/service/StockAnalysisService.java:273-287 | a tree that passes the emptiness test is not semantically empty |
| StockAnalysisService.AnalysisOf | src/main/java/com/finance_analysis/service/StockAnalysisService.java:133-144 | the answered analysis is never empty: the parsed tree, or `{"error": message}` for an empty body |
| StockAnalysisService.PersistedBody | src/main/java/com/finance_analysis/service/StockAnalysisService.java:133-144 | the stored text is the upstream body when it is not empty, else the serialised error object |
| StockAnalysisService.ErrorObjectReadsBack | src/main/java/com/finance_analysis/service/StockAnalysisService.java:140-143 | a stored error object, read back, is present and equals the object |
| StockAnalysisService.StoredAnalysisMatchesAnswer | src/main/java/com/finance_analysis/service/StockAnalysisService.java:133-154 | reading a stored body back gives the analysis the write answered |
| StockAnalysisService.ToResponse | src/main/java/com/finance_analysis/service/StockAnalysisService.java:238-250 | a history entry never fails: id, code and time come from the row, the type is normalised, the analysis is non-empty |
| StockAnalysisService.HistoryRepeatsAnswer | src/main/java/com/finance_analysis/service/StockAnalysisService.java:133-154 | the row a request writes, read back through history, equals the response the request returned (the history side is lines 238-250) |
| StockAnalysisService.RawGetResult | src/main/java/com/finance_analysis/service/StockAnalysisService.java:99-108 | a 2xx reply gives its body (null as ""); a non-2xx reply or a transport failure gives an AnalysisException |
| StockAnalysisService.StockAnalysisService.AnalyzeStockCode | src/main/java/com/finance_analysis/service/StockAnalysisService.java:67-73 | picks the webhook by normalised type (the performX methods, lines 111-131); an unset URL fails with no request and no row; otherwise sends what WebhookSpec sends and appends exactly one row on success |
| StockAnalysisService.StockAnalysisService.InvokeN8nWebhook | src/main/java/com/finance_analysis/service/StockAnalysisService.java:156-174 | returns what WebhookSpec returns for the host's next replies and logs exactly its requests |
| StockAnalysisService.StockAnalysisService.PersistAnalysis | src/main/java/com/finance_analysis/service/StockAnalysisService.java:133-154 | appends one row with the persisted body and returns the response with the new id |
| StockAnalysisService.StockAnalysisService.FetchRecentHistory | src/main/java/com/finance_analysis/service/StockAnalysisService.java:75-80 | the ten newest rows, in order, each through ToResponse |
| StockAnalysisService.StockAnalysisService.AnalyzeSingleStockRaw | src/main/java/com/finance_analysis/service/StockAnalysisService.java:82-109 | an unset structured URL fails with no request; otherwise exactly one GET with the alias query, and RawGetResult of its reply |
| StockAnalysisService.StockAnalysisService.AnalysisAndStoredBody | src/main/java/com/finance_analysis/service/StockAnalysisService.java:134-144 | the answered analysis is AnalysisOf the body and the stored text is PersistedBody of it |
| StockAnalysisService.StockAnalysisService.InsertRecord | src/main/java/com/finance_analysis/service/StockAnalysisService.java:146-151 | appends exactly the row built from code, type, stored text and the current time, and returns the id it got |
| NewsAnalysisService.NormalizeKeyword | src/main/java/com/finance_analysis/service/NewsAnalysisService.java:69-72 | fails with "Keyword is required" exactly when the keyword is null or trims to empty; otherwise the trimmed, non-empty keyword |
| NewsAnalysisService.NormalizeKeywordIdempotent | src/main/java/com/finance_analysis/service/NewsAnalysisService.java:69-72 | an accepted keyword is accepted again unchanged |
| NewsAnalysisService.KeywordPayload | src/main/java/com/finance_analysis/service/NewsAnalysisService.java:168-172 | the POST body is exactly `{"keyword": keyword}` |
| NewsAnalysisService.ShouldFallbackToGet | src/main/java/com/finance_analysis/service/NewsAnalysisService.java:125-131 | no contract of its own; ShouldFallbackIff states it both ways, and FallbackRuleMatchesStock shows it equals the stock copy |
| NewsAnalysisService.ShouldFallbackIff | src/main/java/com/finance_analysis/service/NewsAnalysisService.java:125-131 | the fallback is taken for 404, 405, or an error body containing "not registered for post" in any case |
| NewsAnalysisService.WebhookSpec | src/main/java/com/finance_analysis/service/NewsAnalysisService.java:105-166 | one POST, plus one GET `?keyword=` exactly on a fallback signal; success only for a non-error reply; every failure is an AnalysisException |
| NewsAnalysisService.GetOnlyOnFallbackSignal | src/main/java/com/finance_analysis/service/NewsAnalysisService.java:105-131 | a GET is sent if and only if the POST threw a fallback signal |
| NewsAnalysisService.GetIrrelevantWithoutFallback | src/main/java/com/finance_analysis/service/NewsAnalysisService.java:105-123 | without a fallback signal a GET's outcome makes no difference |
| NewsAnalysisService.ParseResponse | src/main/java/com/finance_analysis/service/NewsAnalysisService.java:195-206 | no contract of its own: `{}` for a null or blank body, the parsed tree, or the `rawResponse` wrapper; EmptyAnalysisIff and AnalysisOf state what the service makes of it |
| NewsAnalysisService.IsEmptyAnalysis | src/main/java/com/finance_analysis/service/NewsAnalysisService.java:208-222 | no contract of its own; EmptyAnalysisIff states it exactly, and EmptyRuleMatchesStock shows it classifies every body as the stock copy does |
| NewsAnalysisService.EmptyAnalysisIff | src/main/java/com/finance_analysis/service/NewsAnalysisService.java:195-222 | empty exactly when null, blank, or parsed to null, a blank string, or an empty container |
| NewsAnalysisService.EnsureAnalysisPresent | src/main/java/com/finance_analysis/service/NewsAnalysisService.java:187-193 | fails with the news empty-result message exactly when the body is empty |
| NewsAnalysisService.PresentIsNotEmpty | src/main/java/com/finance_analysis/service/NewsAnalysisService.java:208-222 | a tree that passes the test is not semantically empty |
| NewsAnalysisService.AnalysisOf | src/main/java/com/finance_analysis/service/NewsAnalysisService.java:78-87 | the answered analysis is the parsed tree or the non-empty error object |
| NewsAnalysisService.PersistedBody | src/main/java/com/finance_analysis/service/NewsAnalysisService.java:78-87 | the stored text is the body, or the serialised error object when the body is empty |
| NewsAnalysisService.ErrorObjectReadsBack | src/main/java/com/finance_analysis/service/NewsAnalysisService.java:83-86 | a stored error object reads back as itself |
| NewsAnalysisService.StoredAnalysisMatchesAnswer | src/main/java/com/finance_analysis/service/NewsAnalysisService.java:78-95 | reading the stored body back gives the analysis that was answered |
| NewsAnalysisService.ToResponse | src/main/java/com/finance_analysis/service/NewsAnalysisService.java:174-185 | a history entry never fails and its analysis is non-empty |
| NewsAnalysisService.HistoryRepeatsAnswer | src/main/java/com/finance_analysis/service/NewsAnalysisService.java:78-95 | the row written, read back through history, equals the response returned |
| NewsAnalysisService.EmptyRuleMatchesStock | src/main/java/com/finance_analysis/service/NewsAnalysisService.java:195-222 | the news copy of parsing and the emptiness test (isEmpty() in place of size() == 0) classifies every body as the stock copy does |
| NewsAnalysisService.FallbackRuleMatchesStock | src/main/java/com/finance_analysis/service/NewsAnalysisService.java:125-131 | the news fallback rule equals the stock one |
| NewsAnalysisService.NewsAnalysisService.AnalyzeKeyword | src/main/java/com/finance_analysis/service/NewsAnalysisService.java:64-96 | the URL is checked first, then the keyword, and neither failure sends or stores anything; otherwise one webhook call, and on success exactly one row |
| NewsAnalysisService.NewsAnalysisService.InvokeN8nWebhook | src/main/java/com/finance_analysis/service/NewsAnalysisService.java:105-123 | returns and logs what WebhookSpec says |
| NewsAnalysisService.NewsAnalysisService.PersistAnalysis | src/main/java/com/finance_analysis/service/NewsAnalysisService.java:78-95 | appends one row and answers with its id |
| NewsAnalysisService.NewsAnalysisService.FetchRecentHistory | src/main/java/com/finance_analysis/service/NewsAnalysisService.java:98-103 | the ten newest rows, in order, through ToResponse |
| NewsAnalysisService.NewsAnalysisService.AnalysisAndStoredBody | src/main/java/com/finance_analysis/service/NewsAnalysisService.java:78-87 | the answered analysis is AnalysisOf the body and the stored text is PersistedBody of it |
| NewsAnalysisService.NewsAnalysisService.InsertRecord | src/main/java/com/finance_analysis/service/NewsAnalysisService.java:89-94 | appends exactly the row built from keyword, stored text and the current time, and returns the id it got |
| Recency.NewestFirstCorrect | src/main/java/com/finance_analysis/mapper/StockAnalysisMapper.java:15 | the newest-first order is a permutation of the rows and is sorted by (requestedAt, id), descending |
| Recency.RecentIsTopK | src/main/java/com/finance_analysis/mapper/StockAnalysisMapper.java:15 | `findRecent(limit)` returns min(limit, n) rows, sorted newest first, and no row left out is newer than a row returned |
| Recency.NewestHeadsRecent | src/main/java/com/finance_analysis/mapper/StockAnalysisMapper.java:15 | a row strictly newer than every other row heads findRecent for any positive limit |
| StockAnalysisMapper.Mapper.Insert | src/main/java/com/finance_analysis/mapper/StockAnalysisMapper.java:13 | appends one row with the next id and writes that id back into the record |
| StockAnalysisMapper.Mapper.FindRecent | src/main/java/com/finance_analysis/mapper/StockAnalysisMapper.java:15 | the top `limit` rows, newest first, with nothing newer left out |
| StockAnalysisMapper.InsertedRowHeadsHistory | src/test/java/com/finance_analysis/StockAnalysisMapperTest.java:23-38 | a row inserted with a timestamp no older than any stored one comes first from findRecent(5) |
| StockAnalysisMapper.InsertAndFetchRecent | src/test/java/com/finance_analysis/StockAnalysisMapperTest.java:23-38 | the mapper test's steps: the result is non-empty and its head has stock code "TEST" |
| NewsAnalysisMapper.Mapper.Insert | src/main/java/com/finance_analysis/mapper/NewsAnalysisMapper.java:13 | appends one row with the next id and writes the id back |
| NewsAnalysisMapper.Mapper.FindRecent | src/main/java/com/finance_analysis/mapper/NewsAnalysisMapper.java:15 | the top `limit` rows, newest first |
| NewsAnalysisMapper.InsertedRowHeadsHistory | src/test/java/com/finance_analysis/NewsAnalysisMapperTest.java:23-38 | a newest insert heads findRecent(5) |
| NewsAnalysisMapper.InsertAndFetchRecent | src/test/java/com/finance_analysis/NewsAnalysisMapperTest.java:23-38 | the mapper test's steps: the result is non-empty and its head has keyword "AI" |
| IntradayMarketDataService.SanitizeSymbol | src/main/java/com/finance_analysis/service/IntradayMarketDataService.java:210-219 | fails with "Stock symbol is required" exactly when the symbol is null or trims to empty; otherwise a non-empty upper-case symbol |
| IntradayMarketDataService.SanitizeSymbolIdempotent | src/main/java/com/finance_analysis/service/IntradayMarketDataService.java:210-219 | a sanitised symbol sanitises to itself |
| IntradayMarketDataService.ValidateInterval | src/main/java/com/finance_analysis/service/IntradayMarketDataService.java:221-230 | null gives "Interval is required"; a refusal quotes the interval as given; an accepted value is one of the five intervals |
| IntradayMarketDataService.ValidateIntervalIff | src/main/java/com/finance_analysis/service/IntradayMarketDataService.java:221-230 | a supported value v is returned exactly when the trimmed interval equals v ignoring case |
| IntradayMarketDataService.UnsupportedIntervalRefused | src/main/java/com/finance_analysis/service/IntradayMarketDataService.java:221-230 | an interval matching no supported value is refused with "Unsupported interval: " and the original text |
| IntradayMarketDataService.IntradayQuery | src/main/java/com/finance_analysis/service/IntradayMarketDataService.java:93-100 | the query starts with function, symbol, interval, apikey, in that order, and has `outputsize` exactly when the output size is set and not blank |
| IntradayMarketDataService.BuildRequest | src/main/java/com/finance_analysis/service/IntradayMarketDataService.java:83-102 | fails if and only if the base URL or the API key is unset or blank; the base URL is checked first; else the GET with IntradayQuery |
| IntradayMarketDataService.Precheck | src/main/java/com/finance_analysis/service/IntradayMarketDataService.java:60-63 | succeeds exactly when the symbol and the interval are valid and the configuration is complete, and then yields the request |
| IntradayMarketDataService.SymbolCheckedFirst | src/main/java/com/finance_analysis/service/IntradayMarketDataService.java:60-63 | a bad symbol is reported whatever the interval and the configuration |
| IntradayMarketDataService.IntervalCheckedBeforeConfiguration | src/main/java/com/finance_analysis/service/IntradayMarketDataService.java:60-63 | with a good symbol, a bad interval is reported before any configuration error |
| IntradayMarketDataService.ParseBigDecimal | src/main/java/com/finance_analysis/service/IntradayMarketDataService.java:168 | a parsed decimal has a 32-bit scale |
| IntradayMarketDataService.UnsignedIntegerParses | src/main/java/com/finance_analysis/service/IntradayMarketDataService.java:168 | a run of digits parses as that integer with scale 0 |
| IntradayMarketDataService.ParseDecimal | src/main/java/com/finance_analysis/service/IntradayMarketDataService.java:159-173 | zero for a null or missing node, blank text or text BigDecimal refuses; otherwise the parsed value |
| IntradayMarketDataService.WrapInt64 | src/main/java/com/finance_analysis/service/IntradayMarketDataService.java:184 | the result is in the `long` range and equals the input when that already fits |
| IntradayMarketDataService.ParseVolume | src/main/java/com/finance_analysis/service/IntradayMarketDataService.java:175-189 | always in the `long` range; zero for null, missing, blank or unparsable text; otherwise the `longValue()` of the parsed decimal |
| IntradayMarketDataService.NumeralParses | src/main/java/com/finance_analysis/service/IntradayMarketDataService.java:168 | a decimal numeral, with or without a minus sign, parses to its integer |
| IntradayMarketDataService.LongValueOfInteger | src/main/java/com/finance_analysis/service/IntradayMarketDataService.java:184 | `longValue()` of an integer in the `long` range is that integer |
| IntradayMarketDataService.VolumeReadsNumeral | src/main/java/com/finance_analysis/service/IntradayMarketDataService.java:175-189 | a numeric volume node within the `long` range is read exactly |
| IntradayMarketDataService.LongValue | src/main/java/com/finance_analysis/service/IntradayMarketDataService.java:184 | `longValue()` always yields a value in the 64-bit `long` range; LongValueOfInteger and LongValueTruncates state its value |
| IntradayMarketDataService.LongValueTruncates | src/main/java/com/finance_analysis/service/IntradayMarketDataService.java:184 | `longValue()` of a fractional value rounds toward zero |
| IntradayMarketDataService.MetaText | src/main/java/com/finance_analysis/service/IntradayMarketDataService.java:136-137 | no text exactly when the meta node or the field is missing or null, else the field's text |
| IntradayMarketDataService.ToIsoTimestamp | src/main/java/com/finance_analysis/service/IntradayMarketDataService.java:191-208 | a blank timestamp is returned unchanged |
| IntradayMarketDataService.CandlesOf | src/main/java/com/finance_analysis/service/IntradayMarketDataService.java:139-153 | one candle per series entry |
| IntradayMarketDataService.LexTotal | src/main/java/com/finance_analysis/service/IntradayMarketDataService.java:154 | the timestamp order compares any two strings |
| IntradayMarketDataService.LexTransitive | src/main/java/com/finance_analysis/service/IntradayMarketDataService.java:154 | the timestamp order is transitive |
| IntradayMarketDataService.LexAntisymmetric | src/main/java/com/finance_analysis/service/IntradayMarketDataService.java:154 | the timestamp order is antisymmetric |
| IntradayMarketDataService.SortByTimestamp | src/main/java/com/finance_analysis/service/IntradayMarketDataService.java:154 | no contract of its own; SortByTimestampCorrect states that it is a stable sort of its input by timestamp |
| IntradayMarketDataService.SortByTimestampCorrect | src/main/java/com/finance_analysis/service/IntradayMarketDataService.java:154 | the sort is a permutation, sorted by timestamp, and stable: candles with equal timestamps keep their order |
| IntradayMarketDataService.MapResponseSpec | src/main/java/com/finance_analysis/service/IntradayMarketDataService.java:126-157 | fails with "did not return intraday series data" exactly when the series is missing, null, not an object or empty; otherwise symbol and interval are echoed |
| IntradayMarketDataService.MappedCandlesSorted | src/main/java/com/finance_analysis/service/IntradayMarketDataService.java:139-156 | the mapped candles are the entries' candles in a stable timestamp sort |
| IntradayMarketDataService.ErrorPayload | src/main/java/com/finance_analysis/service/IntradayMarketDataService.java:112-124 | an error is reported exactly when "Note" or "Error Message" is present and not null, and "Note" wins |
| IntradayMarketDataService.ErrorMessageWithoutNote | src/main/java/com/finance_analysis/service/IntradayMarketDataService.java:120-123 | "Error Message" is reported only when there is no "Note" |
| IntradayMarketDataService.InterpretReply | src/main/java/com/finance_analysis/service/IntradayMarketDataService.java:65-80 | a transport failure gives "Failed to call Alpha Vantage API"; a non-2xx reply reports its status; a 2xx reply with a non-blank body that parses and carries no error payload gives exactly MapResponseSpec of the parsed tree, and only such a reply succeeds |
| IntradayMarketDataService.BlankBodyRefusedBeforeParsing | src/main/java/com/finance_analysis/service/IntradayMarketDataService.java:70-73 | a null or blank body is refused before any parsing |
| IntradayMarketDataService.UnparsableBodyRefused | src/main/java/com/finance_analysis/service/IntradayMarketDataService.java:104-110 | a body the parser rejects gives "Unable to parse Alpha Vantage response" |
| IntradayMarketDataService.ErrorPayloadRefused | src/main/java/com/finance_analysis/service/IntradayMarketDataService.java:74-75 | an error payload is reported with its own text before the series is read |
| IntradayMarketDataService.CollectCandles | src/main/java/com/finance_analysis/service/IntradayMarketDataService.java:139-153 | the loop appends one candle per entry, in the entries' order |
| IntradayMarketDataService.IntradayMarketDataService.FetchIntradaySeries | src/main/java/com/finance_analysis/service/IntradayMarketDataService.java:60-81 | a failed precheck sends nothing; otherwise exactly one GET, and the result is InterpretReply of its reply |
| IntradayMarketDataService.IntradayMarketDataService.Interpret | src/main/java/com/finance_analysis/service/IntradayMarketDataService.java:65-76 | the checks on the reply, in order, equal InterpretReply |
| IntradayMarketDataService.IntradayMarketDataService.MapResponse | src/main/java/com/finance_analysis/service/IntradayMarketDataService.java:126-157 | the loop and the sort together equal MapResponseSpec |
| AuthService.NormalizeUsername | src/main/java/com/finance_analysis/service/AuthService.java:69-78 | fails with 400 "Username is required" exactly when the name is null or trims to empty; otherwise the trimmed, non-empty name |
| AuthService.NormalizeUsernameIdempotent | src/main/java/com/finance_analysis/service/AuthService.java:69-78 | a normalised name normalises to itself, so login finds what register stored |
| AuthService.ExtractToken | src/main/java/com/finance_analysis/service/AuthService.java:80-89 | a null or blank header gives "Missing Authorization header"; a trimmed header that does not start with "Bearer " in any case gives "Invalid Authorization header"; it succeeds exactly when the non-blank trimmed header starts with "Bearer " in any case, with the trimmed rest, which is its own trim |
| AuthService.ExtractTokenReadsBearerHeader | src/main/java/com/finance_analysis/service/AuthService.java:80-89 | "Bearer " in any letter case followed by a trimmed token yields exactly that token |
| AuthService.SchemeAloneRefused | src/main/java/com/finance_analysis/service/AuthService.java:80-89 | a header of just the scheme is refused as invalid, because trimming removes its space |
| AuthService.CheckCredentials | src/main/java/com/finance_analysis/service/AuthService.java:54-57 | an unknown user and a wrong password give the same "Invalid username or password" error |
| AuthService.ByUsername | src/main/java/com/finance_analysis/service/AuthService.java:39 | finds a row with that username exactly when one exists, and it is the first such row |
| AuthService.UserStore.FindByUsername | src/main/java/com/finance_analysis/service/AuthService.java:39 | the scan returns the first row with that username |
| AuthService.UserStore.Insert | src/main/java/com/finance_analysis/service/AuthService.java:46 | appends one row with the next id and writes the id back into the user |
| AuthService.AppendedUserFound | src/main/java/com/finance_analysis/service/AuthService.java:39-46 | a name not yet stored is found after it is inserted |
| AuthService.AuthService.Register | src/main/java/com/finance_analysis/service/AuthService.java:37-50 | a bad name gives 400 and a taken name 409, with nothing stored or issued in either case; otherwise one row with the encoded password, one token, and the user's profile |
| AuthService.AuthService.Login | src/main/java/com/finance_analysis/service/AuthService.java:52-60 | an unknown name and a wrong password give the same 401 error and issue nothing; otherwise a new token for the stored user |
| AuthService.AuthService.RequireUser | src/main/java/com/finance_analysis/service/AuthService.java:62-67 | a header error is passed on; an unknown token gives "Authentication required"; otherwise the token's user |
| AuthService.RegisteredUserCanLogIn | src/main/java/com/finance_analysis/service/AuthService.java:37-60 | after a new row is stored for a name, looking that name up and checking the same password returns the row |
| AuthService.IssuedTokenAuthenticates | src/main/java/com/finance_analysis/service/AuthService.java:62-67 | a token issued at login, sent as "Bearer <token>", authenticates its user |
| AuthTokenService.UuidIsTrimmedToken | src/main/java/com/finance_analysis/service/AuthTokenService.java:20 | an issued UUID is neither blank nor changed by trimming |
| AuthTokenService.Find | src/main/java/com/finance_analysis/service/AuthTokenService.java:26-32 | nothing for a null or blank token; otherwise the entry of the trimmed token, if any |
| AuthTokenService.Revoked | src/main/java/com/finance_analysis/service/AuthTokenService.java:34-39 | a null or blank token changes nothing; otherwise exactly the trimmed key is removed and the other entries are kept |
| AuthTokenService.FindIgnoresSurroundingSpace | src/main/java/com/finance_analysis/service/AuthTokenService.java:26-32 | a token and its trim find the same user |
| AuthTokenService.IssuedTokenFound | src/main/java/com/finance_analysis/service/AuthTokenService.java:19-32 | an issued token finds the user it was issued for |
| AuthTokenService.RevokedTokenGone | src/main/java/com/finance_analysis/service/AuthTokenService.java:34-39 | after a revoke the token, and any text that trims to it, finds nothing, while other tokens are unaffected |
| AuthTokenService.AuthTokenService.IssueToken | src/main/java/com/finance_analysis/service/AuthTokenService.java:19-24 | stores a snapshot of the user under the new token, which then finds it |
| AuthTokenService.AuthTokenService.FindByToken | src/main/java/com/finance_analysis/service/AuthTokenService.java:26-32 | equals Find on the current table |
| AuthTokenService.AuthTokenService.Revoke | src/main/java/com/finance_analysis/service/AuthTokenService.java:34-39 | the table becomes Revoked(old table), and the token then finds nothing |
| GlobalExceptionHandler.CreateBaseBody | src/main/java/com/finance_analysis/exception/GlobalExceptionHandler.java:54-59 | the body has exactly the keys timestamp and message |
| GlobalExceptionHandler.ResolveMessage | src/main/java/com/finance_analysis/exception/GlobalExceptionHandler.java:61-67 | the prefix and ": ", then the message, or the class's simple name when the message is null or blank |
| GlobalExceptionHandler.FieldErrorMapKeys | src/main/java/com/finance_analysis/exception/GlobalExceptionHandler.java:26-28 | the errors map has an entry exactly for each field with an error |
| GlobalExceptionHandler.FieldErrorMapLastWins | src/main/java/com/finance_analysis/exception/GlobalExceptionHandler.java:26-28 | for each field the map keeps the message of the last error on that field |
| GlobalExceptionHandler.Handle | src/main/java/com/finance_analysis/exception/GlobalExceptionHandler.java:22-52 | validation gives 400 with "errors"; AnalysisException gives 502 with its message; DataAccessException and every other exception give 500 with a prefixed message; "errors" is present only for validation |
| GlobalExceptionHandler.HandleValidation | src/main/java/com/finance_analysis/exception/GlobalExceptionHandler.java:22-31 | the loop builds the same reply as Handle |
| GlobalExceptionHandler.StatusMessageNotBlank | src/main/java/com/finance_analysis/exception/GlobalExceptionHandler.java:47-52 | a status exception's message is its status text and quoted reason, is never blank, and follows the prefix as it is |
| GlobalExceptionHandler.StatusExceptionAnsweredAsServerError | src/main/java/com/finance_analysis/exception/GlobalExceptionHandler.java:47-52 | as written, every ResponseStatusException is answered 500 with "Unexpected error: <code> <NAME> \"<reason>\"" |
| GlobalExceptionHandler.ConflictStatusText | src/main/java/com/finance_analysis/exception/GlobalExceptionHandler.java:47-52 | example only: the CONFLICT raised for a taken username renders as "409 CONFLICT", the text quoted in the StatusExceptionAnsweredAsServerError finding |
| GlobalExceptionHandler.HandleHonouringStatus | src/main/java/com/finance_analysis/exception/GlobalExceptionHandler.java:47-52 | with status exceptions honoured: a ResponseStatusException gets its own status and reason, and an UnauthorizedException gets 401; all else as Handle |
| FrontendAuth.AuthSession.IsAuthenticated | frontend/src/services/auth.ts:19 | signed in exactly when there is a current user |
| FrontendAuth.AuthSession.EnsureAuthReady | frontend/src/services/auth.ts:30-35 | a memoised start-up check is handed out again and nothing changes; otherwise exactly one new run starts and is memoised |
| FrontendAuth.AuthSession.InitializeCurrentUser | frontend/src/services/auth.ts:37-52 | an early return when a run has already started; without a window or a stored token nobody is signed in and no request is made; otherwise a /auth/me request is awaited |
| FrontendAuth.AuthSession.CompleteMe | frontend/src/services/auth.ts:53-59 | a profile signs that user in; a failure removes the stored token and signs out |
| FrontendAuth.AuthSession.PerformLogout | frontend/src/services/auth.ts:72-79 | removes the stored token when there is a window, and clears the user, the memoised check and the flag |
| FrontendAuth.AuthSession.OnUnauthorized | frontend/src/services/auth.ts:12-16 | clears the user, the memoised check and the flag, and keeps the stored token |
| FrontendAuth.AuthSession.EstablishSession | frontend/src/services/auth.ts:81-87 | stores the token when there is a window, signs the user in and returns the user |
| FrontendAuth.RestoreSession | frontend/src/services/auth.ts:30-60 | a stored token the server confirms signs the user in after one /auth/me round trip, and asking again starts no second check |
| FrontendAuth.LogoutThenStartUp | frontend/src/services/auth.ts:30-52 | after a logout the start-up check makes no request and nobody is signed in |
| FrontendRouter.Resolve | frontend/src/router/index.ts:7-61 | a known path lands on its own page; any other path is redirected to the home page |
| FrontendRouter.OnlyLoginIsPublic | frontend/src/router/index.ts:7-61 | only the sign-in page is public, and every other page requires authentication |
| FrontendRouter.Guard | frontend/src/router/index.ts:64-74 | a non-public target while signed out goes to login with the target's full path; the login page while signed in goes home; everything else proceeds (each as an if-and-only-if) |
| FrontendRouter.LoginReachableSignedOut | frontend/src/router/index.ts:64-74 | a signed-out user can reach the sign-in page |
| FrontendRouter.GuardSettlesAfterOneRedirect | frontend/src/router/index.ts:64-74 | every redirect lands on a page the guard lets through |
| FrontendRouter.SignedOutVisitGoesToLogin | frontend/src/router/index.ts:64-74 | a signed-out visit to any other path goes to login remembering the resolved path ("/" for an unknown path) |
| Display.UnescapeWithoutEscapes | frontend/src/utils/display.ts:87-89 | a text without a backslash-n pair is left as it is |
| Display.UnescapeAround | frontend/src/utils/display.ts:87-89 | each backslash-n pair becomes exactly one line break, and the text on either side is unescaped on its own |
| Display.UnescapedHasNoEscapes | frontend/src/utils/display.ts:87-89 | no backslash-n pair is left after unescaping, and an initial `n` stays exactly when the text starts with one |
| Display.UnescapeNewlines | frontend/src/utils/display.ts:88 | no contract of its own; UnescapeWithoutEscapes, UnescapeAround and UnescapedHasNoEscapes state its value |
| Display.FormatMultilineContent | frontend/src/utils/display.ts:87-89 | the JavaScript trim of the unescaped text: no white space at either end, and no backslash-n pair |
| Display.JoinSplit | frontend/src/utils/display.ts:72-77 | joining the pieces of a split gives the text back |
| Display.SplitJoin | frontend/src/utils/display.ts:72-77 | splitting a join of separator-free pieces gives the pieces back |
| Display.IndentKeepsLines | frontend/src/utils/display.ts:72-77 | indenting keeps the number of lines and indents each line on its own |
| Display.CollapseRuns | frontend/src/utils/display.ts:64-67 | empty exactly when the text is; when the class holds the space, the result starts with a space exactly when the text starts with a class character |
| Display.CollapseRunsOutsideClass | frontend/src/utils/display.ts:64-67 | a text with no character of the class is left as it is |
| Display.CollapseRunsAround | frontend/src/utils/display.ts:64-67 | a maximal run of the class becomes exactly one space, and the text on either side is collapsed on its own |
| Display.CollapseAppend | frontend/src/utils/display.ts:64-67 | collapsing a concatenation collapses each part, the second starting inside a run exactly when the first ended in one |
| Display.CollapseRunsShape | frontend/src/utils/display.ts:64-67 | what remains of the class is single spaces, no such space is followed by another class character, and every other character comes from the text |
| Display.PrettifyKey | frontend/src/utils/display.ts:64-70 | no contract of its own; PrettifiedKeySpellsKey and PrettifiedKeyShape state what the label spells and its shape |
| Display.CapitalizeWords | frontend/src/utils/display.ts:69 | the length is kept, and exactly the word characters that start a word are upper-cased |
| Display.PrettifiedKeySpellsKey | frontend/src/utils/display.ts:64-70 | read without letter case, white space, underscores and dashes, a label is its key |
| Display.PrettifiedKeyShape | frontend/src/utils/display.ts:64-70 | a label has no dashes or underscores, no white space at either end, only single spaces, and every word that starts with a letter starts with a capital |
| Display.TextField | frontend/src/utils/display.ts:40-43 | a value is found exactly when the first entry named `text` holds a string, and then it is that string |
| Display.FormatEntry | frontend/src/utils/display.ts:52-62 | blank when the value renders empty; "Label: value" for one line; "Label:" and the indented lines otherwise |
| Display.Render | frontend/src/utils/display.ts:14-50 | no contract of its own; ScalarsRender, StringsRender, TextFieldRendersAlone, ArrayBlankIff, ObjectBlankIff and SingletonArrayRendersElement state its cases |
| Display.ToReadableText | frontend/src/utils/display.ts:9-12 | never empty: the placeholder exactly when the rendering is empty (or is the placeholder itself), else the rendering |
| Display.ScalarsRender | frontend/src/utils/display.ts:15-31 | null and undefined render as nothing; booleans and numbers render as their String() |
| Display.StringsRender | frontend/src/utils/display.ts:18-28 | a JSON-looking string that parses renders as the parsed value; any other string renders through formatMultilineContent |
| Display.TextFieldRendersAlone | frontend/src/utils/display.ts:38-43 | an object with a string `text` renders as that field only |
| Display.ArrayBlankIff | frontend/src/utils/display.ts:32-37 | an array renders empty exactly when every element renders blank |
| Display.ObjectBlankIff | frontend/src/utils/display.ts:44-47 | an object without `text` renders empty exactly when every entry renders blank |
| Display.SingletonArrayRendersElement | frontend/src/utils/display.ts:32-37 | a one-element array renders as its element when that is not blank |
| Display.IndentMultiline | frontend/src/utils/display.ts:72-77 | no contract of its own; IndentKeepsLines states that the lines are kept and each is indented alone |
| Display.IsJsonLike | frontend/src/utils/display.ts:79-85 | no contract of its own; StringsRender states how a JSON-like string is rendered |
| Display.Split | frontend/src/utils/display.ts:74-76 | `split('\n')`: at least one piece, and no piece holds the separator |
| Display.NonBlank | frontend/src/utils/display.ts:35 | the filter keeps only non-blank parts, never more than it was given |
| Display.NonBlankAppend | frontend/src/utils/display.ts:35 | filtering a concatenation filters each part, in order |
| Display.NonBlankSingle | frontend/src/utils/display.ts:35 | a single part is kept exactly when it is not blank |
| Display.JoinedBlankIff | frontend/src/utils/display.ts:33-36 | the filtered join is empty exactly when every part is blank |
| ErrorMessages.ExtractErrorMessage | frontend/src/utils/errors.ts:3-18 | throws exactly for null/undefined; a non-blank string is shown as it is; a server message wins; a timeout (code or message) gives the timeout text; otherwise the generic text |
| ErrorMessages.TimeoutTestIgnoresCase | frontend/src/utils/errors.ts:14-16 | the message test finds "timeout" in any letter case |
| ErrorMessages.NullishThrows | frontend/src/utils/errors.ts:11 | as written, null and undefined make the function throw |
| ErrorMessages.ExtractErrorMessageNullSafe | frontend/src/utils/errors.ts:3-18 | with null-safe reads of `code` (line 11) and `message` (line 14), null/undefined get the generic text and every other value is handled as before |
| ErrorMessages.ShownTextOrigin | frontend/src/utils/errors.ts:3-18 | every text shown is the thrown string, the server message, or one of the two fixed texts |
| FutuKline.LastSegment | scripts/futu_kline.py:42 | the text after the last dot: dot-free, a suffix of the input, preceded by a dot when shorter |
| FutuKline.LastSegmentAfterDot | scripts/futu_kline.py:42 | whatever precedes the last dot is ignored |
| FutuKline.NormalizeEnumValue | scripts/futu_kline.py:39-46 | an empty value fails with "Enum value can not be empty"; success exactly when the stripped last segment names an attribute, whose value is returned; otherwise "Invalid value '<value>' for <Name>" |
| FutuKline.QualifiedNameResolvesSame | scripts/futu_kline.py:42-44 | "KLType.K_DAY" and "K_DAY" (any qualifier) give the same member |
| FutuKline.MemberNameResolves | scripts/futu_kline.py:42-44 | a bare member name, with surrounding white space, reads that member |
| FutuKline.Get | scripts/futu_kline.py:54-65 | `item.get(key)` is the value when the key is present and None otherwise |
| FutuKline.ConvertRecordKeys | scripts/futu_kline.py:53-66 | each output has exactly the twelve camelCase keys |
| FutuKline.ConvertRecordValues | scripts/futu_kline.py:53-66 | each output key holds its source column (time_key to timeKey, pe_ratio to peRatio, ...) |
| FutuKline.MissingColumnGivesNone | scripts/futu_kline.py:53-66 | a missing source column gives None |
| FutuKline.FieldsCoverOutputKeys | scripts/futu_kline.py:53-66 | the field list names exactly the output keys |
| FutuKline.ConvertAll | scripts/futu_kline.py:49-68 | one output per record, the i-th converted from the i-th |
| FutuKline.ConvertAllAppend | scripts/futu_kline.py:49-68 | converting a concatenation converts each part, so records never move |
| FutuKline.ConvertRecords | scripts/futu_kline.py:49-68 | the loop returns ConvertAll of the records: same count, same order |
| Upstream.WebhookHost.Exchange | src/main/java/com/finance_analysis/service/StockAnalysisService.java:190 | each request is logged in order and answered with the next scripted reply |

## Left out

- Logging, Spring wiring, the controllers, DTO getters and setters, the MyBatis SQL text, and `UserMapper` beyond the lookup by name and the insert are not modelled.
- `readTree`/`JSON.parse` are parameters of the model rather than parsers. The model carries a stated property of them only where a lemma needs it: a serialised one-field error object reads back as itself.
- JSON objects (`Json.JObj`, `Display.JsObject`) are sequences of fields, and a lookup takes the first field with the key. Jackson's `readTree` and `JSON.parse` keep the last value of a repeated key, so payloads with duplicate keys are not modelled faithfully. JavaScript's `Object.entries` order, which lists integer-like keys first, is not modelled either; the Python output dictionaries are maps.
- `UriComponentsBuilder...build(true)` (StockAnalysisService.java:96 and :210, NewsAnalysisService.java:153, IntradayMarketDataService.java:101) throws `IllegalArgumentException` when a query value holds a space or a non-ASCII character. That exception is not a `RestClientException`, so it escapes the catches (StockAnalysisService.java:164, NewsAnalysisService.java:113) and the catch-all handler answers 500. The model builds each request from the values as given and never takes this path.
- `mapper.insert` (StockAnalysisService.java:151, NewsAnalysisService.java:93, AuthService.java:46) may throw a `DataAccessException`. The handler's 500 "Database error" answer to it is modelled, but the services' inserts are modelled as always succeeding.
- GlobalExceptionHandler.StatusText: names only the statuses this code uses (400, 401, 409, 500, 502). For any other standard status, Spring's text also carries the constant's name (`404 NOT_FOUND`). The model leaves that name out because the list depends on the Spring version.
- GlobalExceptionHandler.StatusExceptionAnsweredAsServerError: the message it states goes through StatusText, so it is exact for those five statuses and for codes without a constant. The 500 status holds for every code.
- Case-insensitive comparisons and `toUpperCase`/`toLowerCase` map ASCII letters only. Java and JavaScript also fold non-ASCII letters.
- String order in the timestamp sort compares characters as code units. UTF-16 surrogate pairs are not told apart from code points.
- IntradayMarketDataService.ParseBigDecimal: the value is carried as an unscaled integer and a scale, as `BigDecimal` keeps it. The model states that the scale fits an `int`, not that the value equals the numeral's exact reading, except for the numerals that UnsignedIntegerParses and NumeralParses cover.
- IntradayMarketDataService.VolumeReadsNumeral states exact reading for numeric volume nodes only. A textual volume goes through the same parser but is not given its own lemma.
- IntradayMarketDataService.ToIsoTimestamp states only the blank case. The zone conversion itself is `java.time` and is passed in as a function.
- The "Alpha Vantage returned no data" branch cannot be reached after the blank-body check, so it has no member of its own.
- The Alpha Vantage properties (`alphaVantageUrl`, `apiKey`, `intradayOutputSize`) are read through getters that `StockAnalysisProperties` does not declare. They are modelled as optional strings.
- The stock service's `body != null` test in `shouldFallbackToGet` can never fail, because `getResponseBodyAsString` never returns null. The news copy, which omits the test, is therefore modelled by the same rule.
- Concurrency is not modelled: `ConcurrentHashMap` in the token table, and the check-then-insert race in `register` between the lookup and the insert (the database's unique constraint is not modelled either).
- AuthService.AuthService.Register and AuthService.AuthService.Login take the password as a non-null string. `RegisterRequest` and `LoginRequest` are not part of this model, and neither is what the password encoder does with null.
- `performLogin`/`performRegister` are modelled only through `establishSession`. Their HTTP calls are I/O.
- `registerUnauthorizedHandler` and the axios client in `api/client.ts` are not part of this model. Only the handler `auth.ts` registers is modelled, as `OnUnauthorized`.
- The front end's promise machinery is split into two steps: the start-up check up to its `/auth/me` request, and its completion. Interleavings of several pending checks are not modelled.
- Route matching is exact. vue-router's case-insensitive and trailing-slash matching, and query strings in `fullPath`, are not modelled.
- IntradayMarketDataService.ParseDecimal: a numeric JSON node is read by its literal text. Jackson stores a number with a fraction or an exponent as a double, so `asText()` gives `Double.toString` of it (`1.50` reads as "1.5", `1e2` as "100.0", `1e400` as "Infinity", which `BigDecimal` refuses, giving zero), and long fractions lose digits. Textual nodes, which carry the upstream's quoted numbers, are read exactly as the source reads them.
- IntradayMarketDataService.ParseVolume: the same literal-text reading of non-integral numeric nodes; an integral numeric node reads as Jackson renders it.
- IntradayMarketDataService.ParseBigDecimal: only ASCII digits are accepted. `new BigDecimal(String)` also accepts any Unicode decimal digit (through `Character.digit`, e.g. Arabic-Indic digits), which the model refuses and so reads as zero.
- `String(number)` formatting is not modelled: a number carries the text it is shown with. `formatDate` is not part of this model.
- `UnauthorizedException` is not part of this model except as one more exception kind in the handler.
- FutuKline: `main`, argument parsing and the OpenD connection are I/O and are not modelled. `getattr` is modelled as a lookup in the class's attribute map. The `value` argument is typed `str` in the source, so `None` is not modelled.
- The mapper SQL is not part of this model. `findRecent` is taken to order by `requested_at` and then by `id`, both descending.

## Findings

| source | as written | input that shows it | evidently intended | confidence | as-written member | corrected member |
|---|---|---|---|---|---|---|
| src/main/java/com/finance_analysis/exception/GlobalExceptionHandler.java:47-52 | the catch-all `Exception` handler also catches the `ResponseStatusException` that `register` throws for a taken name (AuthService.java:40), so the client gets 500 "Unexpected error: 409 CONFLICT \"Username is already registered\"" | registering a username that already exists | 409 with the reason "Username is already registered" (and 400 for a missing name) | medium; not executed | GlobalExceptionHandler.StatusExceptionAnsweredAsServerError | GlobalExceptionHandler.HandleHonouringStatus |
| frontend/src/utils/errors.ts:11 | `axiosError.code` (line 11) and `axiosError.message` (line 14) are read without optional chaining, although line 8 guards the same value with `?.` | `extractErrorMessage(null)` or `extractErrorMessage(undefined)` throws a `TypeError` | the generic failure text | medium; not executed | ErrorMessages.NullishThrows | ErrorMessages.ExtractErrorMessageNullSafe |
