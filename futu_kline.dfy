/**
 * The two pure helpers of the Futu K-line script (`scripts/futu_kline.py`): reading an enum
 * member from a command-line name, and renaming the columns of the fetched K-line records to
 * the camelCase keys the back end reads.
 */
module FutuKline {
  import opened Wrappers
  import opened Text

  // ---------------------------------------------------------------------------------------
  // normalize_enum_value

  /** An enum class of the Futu SDK: its `__name__` and the attributes `getattr` can find on it,
      by name. */
  datatype EnumClass<V> = EnumClass(name: string, attributes: map<string, V>)

  /** The `ValueError` raised for a value that names no member. */
  datatype ValueError = ValueError(message: string)

  const EMPTY_VALUE := "Enum value can not be empty"

  /** `value.split(".")[-1]`: the text after the last dot, or all of it when there is none. */
  function LastSegment(s: string): (r: string)
    ensures Lacks(r, '.')
    ensures |r| <= |s| && r == s[|s| - |r|..]
    ensures |r| < |s| ==> s[|s| - |r| - 1] == '.'
  {
    if s == [] then []
    else if s[|s| - 1] == '.' then []
    else LastSegment(s[..|s| - 1]) + [s[|s| - 1]]
  }

  /** A text without dots is its own last segment. */
  lemma LastSegmentOfPlain(name: string)
    requires Lacks(name, '.')
    ensures LastSegment(name) == name
  {
  }

  /** Whatever precedes the last dot is ignored. */
  lemma LastSegmentAfterDot(prefix: string, name: string)
    requires Lacks(name, '.')
    ensures LastSegment(prefix + "." + name) == name
  {
    var s := prefix + "." + name;
    var r := LastSegment(s);
    assert s[|s| - |name| - 1] == '.';
    assert s[|s| - |name|..] == name;
  }

  /** The attribute name looked up: the last dotted segment, stripped of white space. */
  function Candidate(value: string): string {
    PyStrip(LastSegment(value))
  }

  /** `normalize_enum_value(enum_cls, value)`: an empty value is refused; otherwise the
      stripped last segment is looked up on the class, and a name it lacks is refused with a
      message quoting the value as given. */
  function NormalizeEnumValue<V>(enumClass: EnumClass<V>, value: string): (r: Result<V, ValueError>)
    ensures value == [] ==> r == Failure(ValueError(EMPTY_VALUE))
    ensures r.Success? <==> value != [] && Candidate(value) in enumClass.attributes
    ensures r.Success? ==> r.value == enumClass.attributes[Candidate(value)]
    ensures value != [] && Candidate(value) !in enumClass.attributes ==>
              r == Failure(ValueError("Invalid value '" + value + "' for " + enumClass.name))
  {
    if value == [] then Failure(ValueError(EMPTY_VALUE))
    else
      var candidate := Candidate(value);
      if candidate in enumClass.attributes then Success(enumClass.attributes[candidate])
      else Failure(ValueError("Invalid value '" + value + "' for " + enumClass.name))
  }

  /** A qualified name such as `KLType.K_DAY` reads the same member as the bare `K_DAY`,
      whatever the qualifier. */
  lemma QualifiedNameResolvesSame<V>(enumClass: EnumClass<V>, qualifier: string, name: string)
    requires name != [] && Lacks(name, '.')
    ensures NormalizeEnumValue(enumClass, qualifier + "." + name) == NormalizeEnumValue(enumClass, name)
      || (NormalizeEnumValue(enumClass, name).Failure? && NormalizeEnumValue(enumClass, qualifier + "." + name).Failure?)
    ensures NormalizeEnumValue(enumClass, qualifier + "." + name).Success? ==>
              NormalizeEnumValue(enumClass, qualifier + "." + name) == NormalizeEnumValue(enumClass, name)
  {
    LastSegmentAfterDot(qualifier, name);
    LastSegmentOfPlain(name);
  }

  /** A bare member name is read as that member, and white space around it is ignored. */
  lemma MemberNameResolves<V>(enumClass: EnumClass<V>, value: string)
    requires value != [] && Lacks(value, '.') && PyStrip(value) in enumClass.attributes
    ensures NormalizeEnumValue(enumClass, value) == Success(enumClass.attributes[PyStrip(value)])
  {
    LastSegmentOfPlain(value);
  }

  // ---------------------------------------------------------------------------------------
  // convert_records

  /** The output keys, each with the record column it is read from, in the order the output
      dictionary lists them. */
  const FIELDS: seq<(string, string)> := [
    ("code", "code"),
    ("name", "name"),
    ("timeKey", "time_key"),
    ("open", "open"),
    ("close", "close"),
    ("high", "high"),
    ("low", "low"),
    ("volume", "volume"),
    ("turnover", "turnover"),
    ("peRatio", "pe_ratio"),
    ("turnoverRate", "turnover_rate"),
    ("lastClose", "last_close")
  ]

  /** The twelve output keys. */
  const OUTPUT_KEYS: set<string> :=
    {"code", "name", "timeKey", "open", "close", "high", "low", "volume", "turnover",
     "peRatio", "turnoverRate", "lastClose"}

  /** `item.get(key)`: the value, or `None` for a missing column. A column may itself hold the
      `None` that `data.where(data.notna(), None)` put there; `V` covers that value too. */
  function Get<V>(item: map<string, V>, key: string): (r: Option<V>)
    ensures r.Some? <==> key in item
    ensures r.Some? ==> r.value == item[key]
  {
    if key in item then Some(item[key]) else None
  }

  /** The dictionary `convert_records` builds for one record. */
  function ConvertRecord<V>(item: map<string, V>): map<string, Option<V>> {
    map[
      "code" := Get(item, "code"),
      "name" := Get(item, "name"),
      "timeKey" := Get(item, "time_key"),
      "open" := Get(item, "open"),
      "close" := Get(item, "close"),
      "high" := Get(item, "high"),
      "low" := Get(item, "low"),
      "volume" := Get(item, "volume"),
      "turnover" := Get(item, "turnover"),
      "peRatio" := Get(item, "pe_ratio"),
      "turnoverRate" := Get(item, "turnover_rate"),
      "lastClose" := Get(item, "last_close")
    ]
  }

  /** Every converted record has exactly the twelve output keys; nothing else of the record
      is kept. */
  lemma ConvertRecordKeys<V>(item: map<string, V>)
    ensures ConvertRecord(item).Keys == OUTPUT_KEYS
  {
    var r := ConvertRecord(item);
    assert forall k :: k in r.Keys ==> k in OUTPUT_KEYS;
    assert forall k :: k in OUTPUT_KEYS ==> k in r.Keys;
  }

  /** Each output key holds the value of its column, and `None` exactly when the record lacks
      that column. */
  lemma ConvertRecordValues<V>(item: map<string, V>)
    ensures forall i :: 0 <= i < |FIELDS| ==> FIELDS[i].0 in ConvertRecord(item)
    ensures forall i :: 0 <= i < |FIELDS| ==> ConvertRecord(item)[FIELDS[i].0] == Get(item, FIELDS[i].1)
  {
    var r := ConvertRecord(item);
    forall i | 0 <= i < |FIELDS| ensures FIELDS[i].0 in r && r[FIELDS[i].0] == Get(item, FIELDS[i].1) {
      if i < 6 {
        assert i == 0 || i == 1 || i == 2 || i == 3 || i == 4 || i == 5;
      } else {
        assert i == 6 || i == 7 || i == 8 || i == 9 || i == 10 || i == 11;
      }
    }
  }

  /** A missing column reads as `None` under its output key. */
  lemma MissingColumnGivesNone<V>(item: map<string, V>, i: int)
    requires 0 <= i < |FIELDS| && FIELDS[i].1 !in item
    ensures ConvertRecord(item)[FIELDS[i].0] == None
  {
    ConvertRecordValues(item);
  }

  /** The output keys are exactly the keys the field list names. */
  lemma FieldsCoverOutputKeys()
    ensures forall i :: 0 <= i < |FIELDS| ==> FIELDS[i].0 in OUTPUT_KEYS
    ensures forall k :: k in OUTPUT_KEYS ==> exists i :: 0 <= i < |FIELDS| && FIELDS[i].0 == k
  {
    assert FIELDS[0].0 == "code" && FIELDS[1].0 == "name" && FIELDS[2].0 == "timeKey";
    assert FIELDS[3].0 == "open" && FIELDS[4].0 == "close" && FIELDS[5].0 == "high";
    assert FIELDS[6].0 == "low" && FIELDS[7].0 == "volume" && FIELDS[8].0 == "turnover";
    assert FIELDS[9].0 == "peRatio" && FIELDS[10].0 == "turnoverRate" && FIELDS[11].0 == "lastClose";
  }

  /** The converted records: one per input record, in the same order. */
  function ConvertAll<V>(records: seq<map<string, V>>): (r: seq<map<string, Option<V>>>)
    ensures |r| == |records|
    ensures forall i :: 0 <= i < |r| ==> r[i] == ConvertRecord(records[i])
  {
    if records == [] then []
    else
      var rest := ConvertAll(records[1..]);
      assert forall i :: 1 <= i < |records| ==> records[1..][i - 1] == records[i];
      [ConvertRecord(records[0])] + rest
  }

  /** Converting a concatenation converts each part: records never move or mix. */
  lemma ConvertAllAppend<V>(a: seq<map<string, V>>, b: seq<map<string, V>>)
    ensures ConvertAll(a + b) == ConvertAll(a) + ConvertAll(b)
  {
  }

  /** `convert_records(records)`: appends the converted form of each record in turn. */
  method ConvertRecords<V>(records: seq<map<string, V>>) returns (normalized: seq<map<string, Option<V>>>)
    ensures normalized == ConvertAll(records)
  {
    normalized := [];
    var i := 0;
    while i < |records|
      invariant 0 <= i <= |records|
      invariant normalized == ConvertAll(records[..i])
    {
      ConvertAllAppend(records[..i], [records[i]]);
      assert records[..i + 1] == records[..i] + [records[i]];
      normalized := normalized + [ConvertRecord(records[i])];
      i := i + 1;
    }
    assert records[..i] == records;
  }
}
