/**
 * `IntradayMarketDataService`: the Alpha Vantage adapter. It validates the symbol and the
 * interval, checks the configuration, sends one `TIME_SERIES_INTRADAY` GET, rejects empty and
 * error payloads, and maps the series object to candles sorted by timestamp.
 */
module IntradayMarketDataService {
  import opened Wrappers
  import opened Text
  import opened Json
  // `Get` alone would be the upstream GET request, so object lookups are written `J.Get`.
  import J = Json
  import opened Upstream
  import opened Exceptions

  const SUPPORTED_INTERVALS: set<string> := {"1min", "5min", "15min", "30min", "60min"}

  const SYMBOL_REQUIRED := "Stock symbol is required"
  const INTERVAL_REQUIRED := "Interval is required"
  const UNSUPPORTED_INTERVAL := "Unsupported interval: "
  const BASE_URL_MISSING := "Alpha Vantage base URL is not configured"
  const API_KEY_MISSING := "Alpha Vantage API key is not configured"
  const CALL_FAILED := "Failed to call Alpha Vantage API"
  const STATUS_PREFIX := "Alpha Vantage responded with status "
  const EMPTY_RESPONSE := "Alpha Vantage returned empty response"
  const UNPARSABLE := "Unable to parse Alpha Vantage response"
  const NO_SERIES := "Alpha Vantage did not return intraday series data"

  /** The Alpha Vantage part of `StockAnalysisProperties`; each value may be unset. */
  datatype Properties = Properties(alphaVantageUrl: Option<Url>, alphaVantageApiKey: Option<string>,
                                   intradayOutputSize: Option<string>)

  /** A `java.math.BigDecimal`: the value `unscaled * 10^-scale`. */
  datatype BigDecimal = BigDecimal(unscaled: int, scale: int)

  const ZERO := BigDecimal(0, 0)

  datatype IntradayCandle = IntradayCandle(timestamp: string, open: BigDecimal, high: BigDecimal,
                                           low: BigDecimal, close: BigDecimal, volume: int)

  datatype IntradayTimeSeriesResponse = IntradayTimeSeriesResponse(
    symbol: string, interval: string, lastRefreshed: Option<string>, timezone: Option<string>,
    candles: seq<IntradayCandle>)

  // ---------------------------------------------------------------------------------------
  // Symbol and interval

  /** `sanitizeSymbol`: a missing or blank symbol is refused; otherwise the trimmed symbol in
      upper case. */
  function SanitizeSymbol(symbol: Option<string>): (r: Result<string, Exception>)
    ensures r.Failure? <==> symbol.None? || AllIn(symbol.value, JavaTrimmable)
    ensures r.Failure? ==> r.error == AnalysisException(SYMBOL_REQUIRED)
    ensures r.Success? ==> r.value != [] && IsUpperCase(r.value)
                           && EqualsIgnoreCase(r.value, JavaTrim(symbol.value))
  {
    if symbol.None? then Failure(AnalysisException(SYMBOL_REQUIRED))
    else
      TrimEmptyIff(symbol.value, JavaTrimmable);
      var trimmed := JavaTrim(symbol.value);
      if trimmed == [] then Failure(AnalysisException(SYMBOL_REQUIRED))
      else
        ToUpperCaseless(trimmed);
        Success(ToUpper(trimmed))
  }

  /** A sanitized symbol sanitizes to itself. */
  lemma SanitizeSymbolIdempotent(symbol: Option<string>)
    requires SanitizeSymbol(symbol).Success?
    ensures SanitizeSymbol(Some(SanitizeSymbol(symbol).value)) == SanitizeSymbol(symbol)
  {
    var trimmed := JavaTrim(symbol.value);
    TrimEmptyIff(symbol.value, JavaTrimmable);
    var s := ToUpper(trimmed);
    assert SanitizeSymbol(symbol).value == s;
    assert !JavaTrimmable(s[0]) && !JavaTrimmable(s[|s| - 1]) by {
      assert s[0] == UpperChar(trimmed[0]) && s[|s| - 1] == UpperChar(trimmed[|s| - 1]);
    }
    TrimOfTrimmed(s, JavaTrimmable);
    assert ToUpper(s) == s;
  }

  /** `validateInterval`: the interval, trimmed and lower-cased, must be one of the five
      supported values; the refusal quotes the interval as given. */
  function ValidateInterval(interval: Option<string>): (r: Result<string, Exception>)
    ensures interval.None? ==> r == Failure(AnalysisException(INTERVAL_REQUIRED))
    ensures interval.Some? && r.Failure? ==> r.error == AnalysisException(UNSUPPORTED_INTERVAL + interval.value)
    ensures r.Success? ==> r.value in SUPPORTED_INTERVALS
  {
    if interval.None? then Failure(AnalysisException(INTERVAL_REQUIRED))
    else
      var normalized := ToLower(JavaTrim(interval.value));
      if normalized in SUPPORTED_INTERVALS then Success(normalized)
      else Failure(AnalysisException(UNSUPPORTED_INTERVAL + interval.value))
  }

  /** An interval is accepted exactly when its trimmed text equals a supported value up to case,
      and it is then replaced by that value. */
  lemma ValidateIntervalIff(interval: string, v: string)
    requires v in SUPPORTED_INTERVALS
    ensures ValidateInterval(Some(interval)) == Success(v) <==> EqualsIgnoreCase(JavaTrim(interval), v)
  {
    assert IsLowerCase(v);
    LowerEqualsIff(JavaTrim(interval), v);
  }

  /** An interval not equal to any supported value up to case is refused. */
  lemma UnsupportedIntervalRefused(interval: string)
    requires forall v :: v in SUPPORTED_INTERVALS ==> !EqualsIgnoreCase(JavaTrim(interval), v)
    ensures ValidateInterval(Some(interval)) == Failure(AnalysisException(UNSUPPORTED_INTERVAL + interval))
  {
    var normalized := ToLower(JavaTrim(interval));
    if normalized in SUPPORTED_INTERVALS {
      ValidateIntervalIff(interval, normalized);
    }
  }

  // ---------------------------------------------------------------------------------------
  // Request

  /** The query `buildRequestUri` appends to the base URL, in order. */
  function IntradayQuery(symbol: string, interval: string, apiKey: string,
                         outputSize: Option<string>): (q: seq<(string, string)>)
    ensures |q| == 4 || |q| == 5
    ensures q[..4] == [("function", "TIME_SERIES_INTRADAY"), ("symbol", symbol),
                       ("interval", interval), ("apikey", apiKey)]
    ensures |q| == 5 <==> outputSize.Some? && !JavaIsBlank(outputSize.value)
    ensures |q| == 5 ==> outputSize.Some? && q[4] == ("outputsize", outputSize.value)
  {
    var fixed := [("function", "TIME_SERIES_INTRADAY"), ("symbol", symbol),
                  ("interval", interval), ("apikey", apiKey)];
    if outputSize.Some? && !JavaIsBlank(outputSize.value) then fixed + [("outputsize", outputSize.value)]
    else fixed
  }

  /** `buildRequestUri`: the base URL must be set, then the API key must be set and non-blank. */
  function BuildRequest(props: Properties, symbol: string, interval: string): (r: Result<Request, Exception>)
    ensures r.Failure? <==> props.alphaVantageUrl.None? || props.alphaVantageApiKey.None?
                            || JavaIsBlank(props.alphaVantageApiKey.value)
    ensures props.alphaVantageUrl.None? ==> r == Failure(AnalysisException(BASE_URL_MISSING))
    ensures props.alphaVantageUrl.Some? && r.Failure? ==> r == Failure(AnalysisException(API_KEY_MISSING))
    ensures r.Success? ==> r.value == Upstream.Get(props.alphaVantageUrl.value,
                                         IntradayQuery(symbol, interval, props.alphaVantageApiKey.value,
                                                       props.intradayOutputSize))
  {
    if props.alphaVantageUrl.None? then Failure(AnalysisException(BASE_URL_MISSING))
    else if props.alphaVantageApiKey.None? || JavaIsBlank(props.alphaVantageApiKey.value) then
      Failure(AnalysisException(API_KEY_MISSING))
    else
      Success(Upstream.Get(props.alphaVantageUrl.value,
                  IntradayQuery(symbol, interval, props.alphaVantageApiKey.value, props.intradayOutputSize)))
  }

  /** The three checks `fetchIntradaySeries` makes before going to the network, in their order:
      the request with the sanitized symbol and the validated interval, or the first refusal. */
  function Precheck(props: Properties, symbol: Option<string>, interval: Option<string>)
    : (r: Result<(Request, string, string), Exception>)
    ensures r.Success? <==> SanitizeSymbol(symbol).Success? && ValidateInterval(interval).Success?
                            && BuildRequest(props, SanitizeSymbol(symbol).value, ValidateInterval(interval).value).Success?
    ensures r.Success? ==> r.value.1 == SanitizeSymbol(symbol).value && r.value.2 == ValidateInterval(interval).value
    ensures r.Success? ==> r.value.0 == BuildRequest(props, r.value.1, r.value.2).value
    ensures r.Failure? ==> r.error.AnalysisException?
  {
    match SanitizeSymbol(symbol)
    case Failure(e) => Failure(e)
    case Success(s) =>
      match ValidateInterval(interval)
      case Failure(e) => Failure(e)
      case Success(i) =>
        match BuildRequest(props, s, i)
        case Failure(e) => Failure(e)
        case Success(req) => Success((req, s, i))
  }

  /** A bad symbol is reported whatever the interval and the configuration. */
  lemma SymbolCheckedFirst(props: Properties, symbol: Option<string>, interval: Option<string>)
    requires SanitizeSymbol(symbol).Failure?
    ensures Precheck(props, symbol, interval) == Failure(AnalysisException(SYMBOL_REQUIRED))
  {
  }

  /** With a good symbol, a bad interval is reported whatever the configuration. */
  lemma IntervalCheckedBeforeConfiguration(props: Properties, symbol: Option<string>, interval: Option<string>)
    requires SanitizeSymbol(symbol).Success? && ValidateInterval(interval).Failure?
    ensures Precheck(props, symbol, interval) == Failure(ValidateInterval(interval).error)
  {
  }

  // ---------------------------------------------------------------------------------------
  // Decimal numbers

  predicate IsDigit(c: char) {
    '0' <= c <= '9'
  }

  predicate AllDigits(s: string) {
    forall i :: 0 <= i < |s| ==> IsDigit(s[i])
  }

  /** The value of a string of decimal digits. */
  function DigitsValue(s: string): nat
    requires AllDigits(s)
  {
    if s == [] then 0 else DigitsValue(s[..|s| - 1]) * 10 + (s[|s| - 1] as int - '0' as int)
  }

  predicate IsInt32(n: int) {
    -0x8000_0000 <= n < 0x8000_0000
  }

  /** The index of the first character satisfying `p`, or `|s|`. */
  function IndexWhere(s: string, p: char -> bool): (k: nat)
    ensures k <= |s| && (k < |s| ==> p(s[k])) && forall i :: 0 <= i < k ==> !p(s[i])
  {
    if s == [] then 0 else if p(s[0]) then 0 else 1 + IndexWhere(s[1..], p)
  }

  /** `s` without a leading sign, and whether the sign was a minus. */
  function SplitSign(s: string): (bool, string) {
    if |s| > 0 && (s[0] == '+' || s[0] == '-') then (s[0] == '-', s[1..]) else (false, s)
  }

  /** An exponent: an optional sign and at least one digit. */
  function ParseExponent(s: string): Option<int> {
    var (negative, digits) := SplitSign(s);
    if digits == [] || !AllDigits(digits) then None
    else
      var magnitude: int := DigitsValue(digits);
      Some(if negative then -magnitude else magnitude)
  }

  predicate IsExponentMark(c: char) {
    c == 'e' || c == 'E'
  }

  predicate IsPoint(c: char) {
    c == '.'
  }

  /** `new BigDecimal(String)`: an optional sign before an unsigned number. Anything else throws
      `NumberFormatException`. */
  function ParseBigDecimal(s: string): (r: Option<BigDecimal>)
    ensures r.Some? ==> IsInt32(r.value.scale)
  {
    var (negative, body) := SplitSign(s);
    match ParseUnsigned(body)
    case None => None
    case Some(d) => Some(if negative then BigDecimal(-d.unscaled, d.scale) else d)
  }

  /** Digits with at most one decimal point and at least one digit, then an optional exponent;
      the scale is the number of fraction digits minus the exponent and must fit in an `int`. */
  function ParseUnsigned(body: string): (r: Option<BigDecimal>)
    ensures r.Some? ==> IsInt32(r.value.scale) && r.value.unscaled >= 0
  {
    var e := IndexWhere(body, IsExponentMark);
    var mantissa := body[..e];
    var dot := IndexWhere(mantissa, IsPoint);
    var whole := mantissa[..dot];
    var fraction := if dot < |mantissa| then mantissa[dot + 1..] else [];
    var exponent := if e == |body| then Some(0) else ParseExponent(body[e + 1..]);
    if !AllDigits(whole) || !AllDigits(fraction) || |whole| + |fraction| == 0 || exponent.None? then None
    else
      var scale := |fraction| - exponent.value;
      if !IsInt32(scale) then None
      else Some(BigDecimal(DigitsValue(whole + fraction), scale))
  }

  /** A plain run of digits is an integer with scale zero. */
  lemma UnsignedIntegerParses(s: string)
    requires s != [] && AllDigits(s)
    ensures ParseUnsigned(s) == Some(BigDecimal(DigitsValue(s), 0))
  {
    assert IndexWhere(s, IsExponentMark) == |s|;
    assert s[..|s|] == s;
    assert IndexWhere(s, IsPoint) == |s|;
    assert s + [] == s;
  }

  /** `parseDecimal`: zero for a null or missing node, for blank text and for text that is not
      a number; otherwise the number the text spells. */
  function ParseDecimal(node: Option<Json>): (r: BigDecimal)
    ensures node.None? || node.value.JNull? ==> r == ZERO
    ensures node.Some? && (JavaIsBlank(AsText(node.value)) || ParseBigDecimal(AsText(node.value)).None?) ==> r == ZERO
    ensures node.Some? && !node.value.JNull? && !JavaIsBlank(AsText(node.value)) &&
            ParseBigDecimal(AsText(node.value)).Some?
            ==> r == ParseBigDecimal(AsText(node.value)).value
  {
    if node.None? || node.value.JNull? then ZERO
    else
      var text := AsText(node.value);
      if JavaIsBlank(text) then ZERO
      else match ParseBigDecimal(text)
        case None => ZERO
        case Some(d) => d
  }

  function Pow10(n: nat): (r: nat)
    ensures r >= 1
  {
    if n == 0 then 1 else 10 * Pow10(n - 1)
  }

  /** Integer division rounding toward zero, as Java's `/`. */
  function TruncDiv(a: int, b: int): int
    requires b > 0
  {
    if a >= 0 then a / b else -((-a) / b)
  }

  /** Two's-complement narrowing to 64 bits. */
  function WrapInt64(n: int): (r: int)
    ensures -0x8000_0000_0000_0000 <= r < 0x8000_0000_0000_0000
    ensures -0x8000_0000_0000_0000 <= n < 0x8000_0000_0000_0000 ==> r == n
  {
    var m := n % 0x1_0000_0000_0000_0000;
    if m >= 0x8000_0000_0000_0000 then m - 0x1_0000_0000_0000_0000 else m
  }

  /** `BigDecimal.longValue()`: the fraction is discarded, then the low 64 bits are kept. */
  function LongValue(d: BigDecimal): (r: int)
    ensures -0x8000_0000_0000_0000 <= r < 0x8000_0000_0000_0000
  {
    var whole := if d.scale <= 0 then d.unscaled * Pow10(-d.scale) else TruncDiv(d.unscaled, Pow10(d.scale));
    WrapInt64(whole)
  }

  /** `parseVolume`: zero for a null or missing node, blank text or text that is not a number;
      otherwise the number's `longValue()`. */
  function ParseVolume(node: Option<Json>): (r: int)
    ensures -0x8000_0000_0000_0000 <= r < 0x8000_0000_0000_0000
    ensures node.None? || node.value.JNull? ==> r == 0
    ensures node.Some? && (JavaIsBlank(AsText(node.value)) || ParseBigDecimal(AsText(node.value)).None?) ==> r == 0
    ensures node.Some? && !node.value.JNull? && !JavaIsBlank(AsText(node.value)) && ParseBigDecimal(AsText(node.value)).Some? ==>
              r == LongValue(ParseBigDecimal(AsText(node.value)).value)
  {
    if node.None? || node.value.JNull? then 0
    else
      var text := AsText(node.value);
      if JavaIsBlank(text) then 0
      else match ParseBigDecimal(text)
        case None => 0
        case Some(d) => LongValue(d)
  }

  lemma {:induction false} NatToStringDigits(n: nat)
    ensures AllDigits(NatToString(n)) && DigitsValue(NatToString(n)) == n
  {
    var s := NatToString(n);
    if n >= 10 {
      NatToStringDigits(n / 10);
      assert s[..|s| - 1] == NatToString(n / 10);
    }
  }

  /** A decimal numeral reads back as the integer it spells, with scale zero. */
  lemma NumeralParses(n: nat)
    ensures ParseBigDecimal(NatToString(n)) == Some(BigDecimal(n, 0))
    ensures ParseBigDecimal("-" + NatToString(n)) == Some(BigDecimal(-(n as int), 0))
  {
    var s := NatToString(n);
    NatToStringDigits(n);
    UnsignedIntegerParses(s);
    assert SplitSign(s) == (false, s);
    assert SplitSign("-" + s) == (true, s) by {
      assert ("-" + s)[1..] == s;
    }
  }

  /** `longValue()` of a number without fraction digits inside the `long` range is that number. */
  lemma LongValueOfInteger(n: int)
    requires -0x8000_0000_0000_0000 <= n < 0x8000_0000_0000_0000
    ensures LongValue(BigDecimal(n, 0)) == n
  {
    assert Pow10(0) == 1;
  }

  /** A volume written as a numeral within the `long` range is read exactly. */
  lemma VolumeReadsNumeral(n: nat)
    requires n < 0x8000_0000_0000_0000
    ensures ParseVolume(Some(JNum(NatToString(n)))) == n
  {
    var s := NatToString(n);
    NumeralParses(n);
    assert AsText(JNum(s)) == s;
    assert !JavaIsBlank(s) by {
      NatToStringDigits(n);
      assert IsDigit(s[0]);
    }
    LongValueOfInteger(n);
  }

  lemma NonNegativeDivBounds(a: int, p: int)
    requires a >= 0 && p > 0
    ensures a / p >= 0 && (a / p) * p <= a < (a / p + 1) * p
  {
    var q, r := a / p, a % p;
    assert a == q * p + r && 0 <= r < p;
    assert (q + 1) * p == q * p + p;
  }

  /** Integer division toward zero: the quotient has the sign of the dividend and the largest
      magnitude whose multiple does not exceed the dividend's magnitude. */
  lemma TruncDivBounds(a: int, p: int)
    requires p > 0
    ensures var q := TruncDiv(a, p);
            (a >= 0 ==> q >= 0 && q * p <= a < (q + 1) * p) &&
            (a < 0 ==> q <= 0 && (q - 1) * p < a <= q * p)
  {
    if a < 0 {
      var m := (-a) / p;
      NonNegativeDivBounds(-a, p);
      assert TruncDiv(a, p) == -m;
      assert (-m) * p == -(m * p);
      assert (-m - 1) * p == -((m + 1) * p);
    } else {
      NonNegativeDivBounds(a, p);
    }
  }

  /** `longValue()` of a number with a fraction rounds toward zero. */
  lemma LongValueTruncates(d: BigDecimal)
    requires d.scale > 0
    requires -0x8000_0000_0000_0000 <= TruncDiv(d.unscaled, Pow10(d.scale)) < 0x8000_0000_0000_0000
    ensures var q, p := LongValue(d), Pow10(d.scale);
            (d.unscaled >= 0 ==> q >= 0 && q * p <= d.unscaled < (q + 1) * p) &&
            (d.unscaled < 0 ==> q <= 0 && (q - 1) * p < d.unscaled <= q * p)
  {
    TruncDivBounds(d.unscaled, Pow10(d.scale));
  }

  // ---------------------------------------------------------------------------------------
  // Response mapping

  function SeriesKey(interval: string): string {
    "Time Series (" + interval + ")"
  }

  /** `meta.path(key).asText(null)`: no text for a missing or null node. */
  function MetaText(meta: Option<Json>, key: string): (r: Option<string>)
    ensures r.Some? ==> meta.Some? && J.Get(meta.value, key).Some? && r.value == AsText(J.Get(meta.value, key).value)
    ensures r.None? <==> meta.None? || J.Get(meta.value, key).None? || J.Get(meta.value, key).value.JNull?
  {
    var node := if meta.Some? then J.Get(meta.value, key) else None;
    if node.None? || node.value.JNull? then None else Some(AsText(node.value))
  }

  /** `toIsoTimestamp`: a blank timestamp is kept as it is; otherwise it is reformatted
      (by `convert`, which stands for the `java.time` conversion and its fallbacks). */
  function ToIsoTimestamp(timestamp: string, timezone: Option<string>,
                          convert: (string, Option<string>) -> string): (r: string)
    ensures JavaIsBlank(timestamp) ==> r == timestamp
  {
    if JavaIsBlank(timestamp) then timestamp else convert(timestamp, timezone)
  }

  /** The candle built from one series entry. */
  function CandleOf(entry: (string, Json), timezone: Option<string>,
                    convert: (string, Option<string>) -> string): IntradayCandle {
    var values := entry.1;
    IntradayCandle(ToIsoTimestamp(entry.0, timezone, convert),
                   ParseDecimal(J.Get(values, "1. open")), ParseDecimal(J.Get(values, "2. high")),
                   ParseDecimal(J.Get(values, "3. low")), ParseDecimal(J.Get(values, "4. close")),
                   ParseVolume(J.Get(values, "5. volume")))
  }

  /** The candles of the series entries, in the entries' order. */
  function CandlesOf(entries: seq<(string, Json)>, timezone: Option<string>,
                     convert: (string, Option<string>) -> string): (r: seq<IntradayCandle>)
    ensures |r| == |entries|
  {
    if entries == [] then []
    else CandlesOf(entries[..|entries| - 1], timezone, convert) + [CandleOf(entries[|entries| - 1], timezone, convert)]
  }

  /** Java's `String.compareTo(b) <= 0`: the first differing character decides, and a proper
      prefix comes first. */
  predicate LexLessEq(a: string, b: string) {
    if a == [] then true
    else if b == [] then false
    else if a[0] != b[0] then a[0] < b[0]
    else LexLessEq(a[1..], b[1..])
  }

  lemma {:induction false} LexTotal(a: string, b: string)
    ensures LexLessEq(a, b) || LexLessEq(b, a)
  {
    if a != [] && b != [] && a[0] == b[0] {
      LexTotal(a[1..], b[1..]);
    }
  }

  lemma {:induction false} LexTransitive(a: string, b: string, c: string)
    requires LexLessEq(a, b) && LexLessEq(b, c)
    ensures LexLessEq(a, c)
  {
    if a != [] && b != [] && c != [] && a[0] == b[0] && b[0] == c[0] {
      LexTransitive(a[1..], b[1..], c[1..]);
    }
  }

  lemma {:induction false} LexAntisymmetric(a: string, b: string)
    requires LexLessEq(a, b) && LexLessEq(b, a)
    ensures a == b
  {
    if a != [] && b != [] {
      LexAntisymmetric(a[1..], b[1..]);
      assert a == [a[0]] + a[1..] && b == [b[0]] + b[1..];
    }
  }

  ghost predicate SortedByTimestamp(cs: seq<IntradayCandle>) {
    forall i, j :: 0 <= i < j < |cs| ==> LexLessEq(cs[i].timestamp, cs[j].timestamp)
  }

  /** The candles carrying timestamp `t`, in order. */
  function WithTimestamp(cs: seq<IntradayCandle>, t: string): seq<IntradayCandle> {
    if cs == [] then []
    else (if cs[0].timestamp == t then [cs[0]] else []) + WithTimestamp(cs[1..], t)
  }

  /** Places `c` before the first candle whose timestamp is not smaller. */
  function InsertByTimestamp(c: IntradayCandle, sorted: seq<IntradayCandle>): seq<IntradayCandle> {
    if sorted == [] || LexLessEq(c.timestamp, sorted[0].timestamp) then [c] + sorted
    else [sorted[0]] + InsertByTimestamp(c, sorted[1..])
  }

  /** `candles.sort(Comparator.comparing(IntradayCandle::getTimestamp))`: a stable sort. */
  function SortByTimestamp(cs: seq<IntradayCandle>): seq<IntradayCandle> {
    if cs == [] then [] else InsertByTimestamp(cs[0], SortByTimestamp(cs[1..]))
  }

  lemma {:induction false} InsertByTimestampMultiset(c: IntradayCandle, sorted: seq<IntradayCandle>)
    ensures multiset(InsertByTimestamp(c, sorted)) == multiset(sorted) + multiset{c}
  {
    if !(sorted == [] || LexLessEq(c.timestamp, sorted[0].timestamp)) {
      InsertByTimestampMultiset(c, sorted[1..]);
      assert sorted == [sorted[0]] + sorted[1..];
    }
  }

  lemma {:induction false} InsertByTimestampSorted(c: IntradayCandle, sorted: seq<IntradayCandle>)
    requires SortedByTimestamp(sorted)
    ensures SortedByTimestamp(InsertByTimestamp(c, sorted))
  {
    var r := InsertByTimestamp(c, sorted);
    if sorted == [] || LexLessEq(c.timestamp, sorted[0].timestamp) {
      forall i, j | 0 <= i < j < |r| ensures LexLessEq(r[i].timestamp, r[j].timestamp) {
        if i == 0 && j > 1 {
          LexTransitive(c.timestamp, sorted[0].timestamp, sorted[j - 1].timestamp);
        }
      }
    } else {
      var tail := sorted[1..];
      InsertByTimestampSorted(c, tail);
      InsertByTimestampMultiset(c, tail);
      var t := InsertByTimestamp(c, tail);
      assert r == [sorted[0]] + t;
      LexTotal(c.timestamp, sorted[0].timestamp);
      forall k | 0 <= k < |t| ensures LexLessEq(sorted[0].timestamp, t[k].timestamp) {
        assert t[k] in multiset(t);
        if t[k] != c {
          assert t[k] in multiset(tail);
          var m :| 0 <= m < |tail| && tail[m] == t[k];
          assert sorted[m + 1] == t[k];
        }
      }
    }
  }

  lemma {:induction false} InsertByTimestampStable(c: IntradayCandle, sorted: seq<IntradayCandle>, t: string)
    ensures WithTimestamp(InsertByTimestamp(c, sorted), t) == WithTimestamp([c] + sorted, t)
  {
    var r := InsertByTimestamp(c, sorted);
    if sorted == [] || LexLessEq(c.timestamp, sorted[0].timestamp) {
    } else {
      InsertByTimestampStable(c, sorted[1..], t);
      assert r == [sorted[0]] + InsertByTimestamp(c, sorted[1..]);
      assert r[1..] == InsertByTimestamp(c, sorted[1..]);
      assert ([c] + sorted[1..])[1..] == sorted[1..];
      assert ([c] + sorted)[1..] == sorted;
      LexTotal(c.timestamp, c.timestamp);
      assert sorted[0].timestamp != c.timestamp;
    }
  }

  lemma {:induction false} SortByTimestampPermutes(cs: seq<IntradayCandle>)
    ensures multiset(SortByTimestamp(cs)) == multiset(cs)
  {
    if cs != [] {
      SortByTimestampPermutes(cs[1..]);
      InsertByTimestampMultiset(cs[0], SortByTimestamp(cs[1..]));
      assert cs == [cs[0]] + cs[1..];
    }
  }

  lemma {:induction false} SortByTimestampSorted(cs: seq<IntradayCandle>)
    ensures SortedByTimestamp(SortByTimestamp(cs))
  {
    if cs != [] {
      SortByTimestampSorted(cs[1..]);
      InsertByTimestampSorted(cs[0], SortByTimestamp(cs[1..]));
    }
  }

  lemma {:induction false} SortByTimestampStable(cs: seq<IntradayCandle>, t: string)
    ensures WithTimestamp(SortByTimestamp(cs), t) == WithTimestamp(cs, t)
  {
    if cs != [] {
      var rest := SortByTimestamp(cs[1..]);
      SortByTimestampStable(cs[1..], t);
      InsertByTimestampStable(cs[0], rest, t);
      assert ([cs[0]] + rest)[1..] == rest;
    }
  }

  /** The sort keeps every candle, orders them by timestamp, and keeps the input order among
      candles with equal timestamps; any stable sort by timestamp yields this list. */
  lemma SortByTimestampCorrect(cs: seq<IntradayCandle>)
    ensures multiset(SortByTimestamp(cs)) == multiset(cs)
    ensures |SortByTimestamp(cs)| == |cs|
    ensures SortedByTimestamp(SortByTimestamp(cs))
    ensures forall t :: WithTimestamp(SortByTimestamp(cs), t) == WithTimestamp(cs, t)
  {
    SortByTimestampPermutes(cs);
    SortByTimestampSorted(cs);
    forall t ensures WithTimestamp(SortByTimestamp(cs), t) == WithTimestamp(cs, t) {
      SortByTimestampStable(cs, t);
    }
    assert |SortByTimestamp(cs)| == |multiset(SortByTimestamp(cs))|;
  }

  /** `mapResponse`: the series object for the interval must exist and have at least one entry;
      then one candle per entry, sorted by timestamp, with the symbol, the interval, and the last
      refresh time and time zone from the metadata. */
  function MapResponseSpec(root: Json, symbol: string, interval: string,
                           convert: (string, Option<string>) -> string): (r: Result<IntradayTimeSeriesResponse, Exception>)
    ensures var series := J.Get(root, SeriesKey(interval));
            r.Failure? <==> series.None? || !series.value.JObj? || series.value.fields == []
    ensures r.Failure? ==> r.error == AnalysisException(NO_SERIES)
    ensures r.Success? ==> r.value.symbol == symbol && r.value.interval == interval
                           && |r.value.candles| == |J.Get(root, SeriesKey(interval)).value.fields|
  {
    var series := J.Get(root, SeriesKey(interval));
    if series.None? || !series.value.JObj? || series.value.fields == [] then
      Failure(AnalysisException(NO_SERIES))
    else
      var meta := J.Get(root, "Meta Data");
      var timezone := MetaText(meta, "6. Time Zone");
      var candles := CandlesOf(series.value.fields, timezone, convert);
      SortByTimestampCorrect(candles);
      Success(IntradayTimeSeriesResponse(symbol, interval, MetaText(meta, "3. Last Refreshed"), timezone,
                                         SortByTimestamp(candles)))
  }

  /** The mapped candles are exactly the entries' candles, sorted by timestamp, entries with the
      same timestamp keeping their order in the series. */
  lemma MappedCandlesSorted(root: Json, symbol: string, interval: string,
                            convert: (string, Option<string>) -> string)
    requires MapResponseSpec(root, symbol, interval, convert).Success?
    ensures var r := MapResponseSpec(root, symbol, interval, convert).value;
            var entries := CandlesOf(J.Get(root, SeriesKey(interval)).value.fields, r.timezone, convert);
            SortedByTimestamp(r.candles) && multiset(r.candles) == multiset(entries)
            && forall t :: WithTimestamp(r.candles, t) == WithTimestamp(entries, t)
  {
    var r := MapResponseSpec(root, symbol, interval, convert).value;
    SortByTimestampCorrect(CandlesOf(J.Get(root, SeriesKey(interval)).value.fields, r.timezone, convert));
  }

  // ---------------------------------------------------------------------------------------
  // Error payloads and the reply

  /** A field that is present and not JSON `null`. */
  predicate Present(node: Option<Json>) {
    node.Some? && !node.value.JNull?
  }

  /** `handleErrorPayload`: the text of a "Note" field, else the text of an "Error Message"
      field, else nothing. */
  function ErrorPayload(root: Json): (r: Option<string>)
    ensures r.None? <==> !Present(J.Get(root, "Note")) && !Present(J.Get(root, "Error Message"))
    ensures Present(J.Get(root, "Note")) ==> r == Some(AsText(J.Get(root, "Note").value))
  {
    var note := J.Get(root, "Note");
    if Present(note) then Some(AsText(note.value))
    else
      var error := J.Get(root, "Error Message");
      if Present(error) then Some(AsText(error.value)) else None
  }

  /** "Error Message" is reported only when there is no "Note". */
  lemma ErrorMessageWithoutNote(root: Json)
    requires !Present(J.Get(root, "Note")) && Present(J.Get(root, "Error Message"))
    ensures ErrorPayload(root) == Some(AsText(J.Get(root, "Error Message").value))
  {
  }

  /** What `fetchIntradaySeries` makes of the reply to its GET. Exceptions from the call itself
      become "Failed to call Alpha Vantage API"; the failures raised after the call pass through. */
  function InterpretReply(reply: Outcome, symbol: string, interval: string,
                          readTree: string -> Option<Json>,
                          convert: (string, Option<string>) -> string): (r: Result<IntradayTimeSeriesResponse, Exception>)
    ensures r.Failure? ==> r.error.AnalysisException?
    ensures !reply.Response? ==> r == Failure(AnalysisException(CALL_FAILED))
    ensures reply.Response? && !Is2xx(reply.code) ==>
              r == Failure(AnalysisException(STATUS_PREFIX + IntToString(reply.code)))
    ensures r.Success? ==> reply.Response? && Is2xx(reply.code) && reply.body.Some?
                           && !JavaIsBlank(reply.body.value) && readTree(reply.body.value).Some?
                           && ErrorPayload(readTree(reply.body.value).value).None?
                           && r == MapResponseSpec(readTree(reply.body.value).value, symbol, interval, convert)
    ensures reply.Response? && Is2xx(reply.code) && reply.body.Some? && !JavaIsBlank(reply.body.value)
            && readTree(reply.body.value).Some? && ErrorPayload(readTree(reply.body.value).value).None? ==>
              r == MapResponseSpec(readTree(reply.body.value).value, symbol, interval, convert)
  {
    match reply
    case Transport(_) => Failure(AnalysisException(CALL_FAILED))
    case StatusError(_, _, _) => Failure(AnalysisException(CALL_FAILED))
    case Response(code, body) =>
      if !Is2xx(code) then Failure(AnalysisException(STATUS_PREFIX + IntToString(code)))
      else if body.None? || JavaIsBlank(body.value) then Failure(AnalysisException(EMPTY_RESPONSE))
      else match readTree(body.value)
        case None => Failure(AnalysisException(UNPARSABLE))
        case Some(root) =>
          match ErrorPayload(root)
          case Some(message) => Failure(AnalysisException(message))
          case None => MapResponseSpec(root, symbol, interval, convert)
  }

  /** An empty or blank 2xx body is refused before any parsing, whatever the parser would do. */
  lemma BlankBodyRefusedBeforeParsing(reply: Outcome, symbol: string, interval: string,
                                      readTree: string -> Option<Json>,
                                      convert: (string, Option<string>) -> string)
    requires reply.Response? && Is2xx(reply.code) && (reply.body.None? || JavaIsBlank(reply.body.value))
    ensures InterpretReply(reply, symbol, interval, readTree, convert) == Failure(AnalysisException(EMPTY_RESPONSE))
  {
  }

  /** A body the parser rejects is refused with the parse message. */
  lemma UnparsableBodyRefused(reply: Outcome, symbol: string, interval: string,
                              readTree: string -> Option<Json>,
                              convert: (string, Option<string>) -> string)
    requires reply.Response? && Is2xx(reply.code) && reply.body.Some? && !JavaIsBlank(reply.body.value)
    requires readTree(reply.body.value).None?
    ensures InterpretReply(reply, symbol, interval, readTree, convert) == Failure(AnalysisException(UNPARSABLE))
  {
  }

  /** An error payload is reported with its own text before the series is looked at. */
  lemma ErrorPayloadRefused(reply: Outcome, symbol: string, interval: string,
                            readTree: string -> Option<Json>,
                            convert: (string, Option<string>) -> string)
    requires reply.Response? && Is2xx(reply.code) && reply.body.Some? && !JavaIsBlank(reply.body.value)
    requires readTree(reply.body.value).Some? && ErrorPayload(readTree(reply.body.value).value).Some?
    ensures InterpretReply(reply, symbol, interval, readTree, convert)
            == Failure(AnalysisException(ErrorPayload(readTree(reply.body.value).value).value))
  {
  }

  /** The loop of `mapResponse`: one candle per series entry, appended in the entries' order. */
  method CollectCandles(entries: seq<(string, Json)>, timezone: Option<string>,
                        convert: (string, Option<string>) -> string)
    returns (candles: seq<IntradayCandle>)
    ensures candles == CandlesOf(entries, timezone, convert)
  {
    candles := [];
    var i := 0;
    while i < |entries|
      invariant 0 <= i <= |entries|
      invariant candles == CandlesOf(entries[..i], timezone, convert)
    {
      var next := entries[..i + 1];
      assert next[..|next| - 1] == entries[..i] && next[|next| - 1] == entries[i];
      assert CandlesOf(next, timezone, convert)
          == CandlesOf(entries[..i], timezone, convert) + [CandleOf(entries[i], timezone, convert)];
      candles := candles + [CandleOf(entries[i], timezone, convert)];
      i := i + 1;
    }
    assert entries[..i] == entries;
  }

  // ---------------------------------------------------------------------------------------
  // The service

  class IntradayMarketDataService {
    const host: WebhookHost
    const properties: Properties
    const readTree: string -> Option<Json>
    const convert: (string, Option<string>) -> string

    constructor (host: WebhookHost, properties: Properties, readTree: string -> Option<Json>,
                 convert: (string, Option<string>) -> string)
      ensures this.host == host && this.properties == properties
      ensures this.readTree == readTree && this.convert == convert
    {
      this.host := host;
      this.properties := properties;
      this.readTree := readTree;
      this.convert := convert;
    }

    /** `fetchIntradaySeries`: symbol, interval and configuration are checked before anything is
        sent; then exactly one GET goes out and its reply is interpreted. */
    method FetchIntradaySeries(symbol: Option<string>, interval: Option<string>)
      returns (r: Result<IntradayTimeSeriesResponse, Exception>)
      modifies host
      ensures var pre := Precheck(properties, symbol, interval);
              pre.Failure? ==> r == Failure(pre.error) && host.sent == old(host.sent) && host.script == old(host.script)
      ensures var pre := Precheck(properties, symbol, interval);
              pre.Success? ==>
                && host.sent == old(host.sent) + [pre.value.0]
                && host.script == RestOfScript(old(host.script))
                && r == InterpretReply(NextReply(old(host.script)), pre.value.1, pre.value.2, readTree, convert)
    {
      var sanitized := SanitizeSymbol(symbol);
      if sanitized.Failure? {
        return Failure(sanitized.error);
      }
      var validated := ValidateInterval(interval);
      if validated.Failure? {
        return Failure(validated.error);
      }
      var request := BuildRequest(properties, sanitized.value, validated.value);
      if request.Failure? {
        return Failure(request.error);
      }
      var reply := host.Exchange(request.value);
      r := Interpret(reply, sanitized.value, validated.value);
    }

    /** The reply's checks in their order, ending in the mapping loop. */
    method Interpret(reply: Outcome, symbol: string, interval: string)
      returns (r: Result<IntradayTimeSeriesResponse, Exception>)
      ensures r == InterpretReply(reply, symbol, interval, readTree, convert)
    {
      if !reply.Response? {
        return Failure(AnalysisException(CALL_FAILED));
      }
      if !Is2xx(reply.code) {
        return Failure(AnalysisException(STATUS_PREFIX + IntToString(reply.code)));
      }
      if reply.body.None? || JavaIsBlank(reply.body.value) {
        return Failure(AnalysisException(EMPTY_RESPONSE));
      }
      var root := readTree(reply.body.value);
      if root.None? {
        return Failure(AnalysisException(UNPARSABLE));
      }
      var error := ErrorPayload(root.value);
      if error.Some? {
        return Failure(AnalysisException(error.value));
      }
      r := MapResponse(root.value, symbol, interval);
    }

    /** `mapResponse`: walks the series entries, appending one candle per entry, then sorts. */
    method MapResponse(root: Json, symbol: string, interval: string)
      returns (r: Result<IntradayTimeSeriesResponse, Exception>)
      ensures r == MapResponseSpec(root, symbol, interval, convert)
    {
      var series := J.Get(root, SeriesKey(interval));
      if series.None? || !series.value.JObj? || series.value.fields == [] {
        return Failure(AnalysisException(NO_SERIES));
      }
      var meta := J.Get(root, "Meta Data");
      var lastRefreshed := MetaText(meta, "3. Last Refreshed");
      var timezone := MetaText(meta, "6. Time Zone");
      var candles := CollectCandles(series.value.fields, timezone, convert);
      candles := SortByTimestamp(candles);
      r := Success(IntradayTimeSeriesResponse(symbol, interval, lastRefreshed, timezone, candles));
    }
  }
}
