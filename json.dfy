/**
 * The slice of Jackson's tree model the services use: nodes, field access, `asText()`,
 * and the text `ObjectNode.toString()` produces for the one-field error objects the
 * services synthesise. Parsing (`ObjectMapper.readTree`) is not defined here: the services
 * receive it as a function-valued parameter.
 */
module Json {
  import opened Wrappers
  import opened Text

  /** A Jackson `JsonNode`. A number keeps its literal JSON text, which is what `asText()` gives
      for an integral number; Jackson keeps a number with a fraction or an exponent as a double
      and renders it with `Double.toString`, which this model does not do. */
  datatype Json =
    | JNull
    | JBool(b: bool)
    | JNum(text: string)
    | JStr(s: string)
    | JArr(items: seq<Json>)
    | JObj(fields: seq<(string, Json)>)

  /** `JsonNode.size()`: the number of elements or fields of a container, 0 for a scalar. */
  function Size(node: Json): nat {
    match node
    case JArr(items) => |items|
    case JObj(fields) => |fields|
    case _ => 0
  }

  /** `JsonNode.get(name)` and `JsonNode.path(name)`: the value of the named field of an object
      node. `None` stands for Java's `null` (get) and for `MissingNode` (path). */
  function Get(node: Json, key: string): (r: Option<Json>)
    ensures r.Some? <==> node.JObj? && exists i :: 0 <= i < |node.fields| && node.fields[i].0 == key
    ensures r.Some? ==> exists i :: 0 <= i < |node.fields| && node.fields[i] == (key, r.value)
  {
    if node.JObj? then Lookup(node.fields, key) else None
  }

  /** The value of the first field named `key`. */
  function Lookup(fields: seq<(string, Json)>, key: string): (r: Option<Json>)
    ensures r.Some? <==> exists i :: 0 <= i < |fields| && fields[i].0 == key
    ensures r.Some? ==> exists i :: 0 <= i < |fields| && fields[i] == (key, r.value)
  {
    if fields == [] then None
    else if fields[0].0 == key then Some(fields[0].1)
    else
      var r := Lookup(fields[1..], key);
      assert forall i :: 1 <= i < |fields| ==> fields[i] == fields[1..][i - 1];
      r
  }

  /** `JsonNode.asText()`: the text of a scalar, "null" for the null node, "" for a container. */
  function AsText(node: Json): string {
    match node
    case JNull => "null"
    case JBool(b) => if b then "true" else "false"
    case JNum(t) => t
    case JStr(s) => s
    case _ => ""
  }

  /** The node `objectMapper.createObjectNode().put(key, value)` builds. */
  function StringField(key: string, value: string): Json {
    JObj([(key, JStr(value))])
  }

  /** Jackson's escape of one character inside a JSON string literal. */
  function EscapeChar(c: char): string {
    if c == '"' then "\\\""
    else if c == '\\' then "\\\\"
    else if c == '\n' then "\\n"
    else if c == '\r' then "\\r"
    else if c == '\t' then "\\t"
    else if c == '\U{8}' then "\\b"
    else if c == '\U{C}' then "\\f"
    else if c < ' ' then "\\u00" + [HexDigit(c as int / 16), HexDigit(c as int % 16)]
    else [c]
  }

  function HexDigit(d: nat): char
    requires d < 16
  {
    "0123456789ABCDEF"[d]
  }

  function Escape(s: string): string {
    if s == [] then "" else EscapeChar(s[0]) + Escape(s[1..])
  }

  /** A JSON string literal. */
  function Quote(s: string): string {
    "\"" + Escape(s) + "\""
  }

  /** `ObjectNode.toString()` for `StringField(key, value)`: `{"key":"value"}`. */
  function SerializeStringField(key: string, value: string): (r: string)
    ensures |r| > 0 && r[0] == '{'
  {
    "{" + Quote(key) + ":" + Quote(value) + "}"
  }

  /** What is assumed of the parser wherever a stored error object is read back:
      parsing the text of a one-field string object gives back that object. */
  ghost predicate ReadsBackStringFields(readTree: string -> Option<Json>) {
    forall key, value :: readTree(SerializeStringField(key, value)) == Some(StringField(key, value))
  }
}
