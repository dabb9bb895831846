/**
 * The JSON tree the deserializers walk: a JSON value (RFC 8259) as
 * Jackson's tree model holds it, and the JsonNode queries the app uses
 * (path, isMissingNode, isTextual, textValue, isInt, canConvertToLong,
 * asLong, isArray, isObject).  Reading the tree from the input stream is
 * left to the caller: a tree that failed to parse is None.
 */
module Json {
  import opened JavaLang

  /**
   * A JSON value.  Jackson keeps an integer literal as an IntNode when it
   * fits an int, a LongNode when it fits a long and a BigIntegerNode
   * otherwise, so one integer case carries all three.  A number with a
   * fraction or an exponent is a DoubleNode; an object's member names are
   * unique, a repeated name keeping its last value.
   */
  datatype Json =
    | JNull
    | JBool(b: bool)
    | JInteger(n: int)
    | JDouble(d: real)
    | JString(s: string)
    | JArray(items: seq<Json>)
    | JObject(members: map<string, Json>)

  /** What JsonNode.path(name) returns: the member, or the MissingNode. */
  datatype Node = Missing | Present(json: Json)

  /** path(name): the member of an object; every other node answers MissingNode. */
  function Path(j: Json, name: string): (n: Node)
    ensures n.Present? <==> j.JObject? && name in j.members
    ensures n.Present? ==> n.json == j.members[name]
  {
    if j.JObject? && name in j.members then Present(j.members[name]) else Missing
  }

  /** isTextual. */
  predicate IsTextual(n: Node)
  {
    n.Present? && n.json.JString?
  }

  /** textValue: the text of a TextNode, null for every other node. */
  function TextValue(n: Node): (t: Option<string>)
    ensures t.Some? <==> IsTextual(n)
    ensures t.Some? ==> t.value == n.json.s
  {
    if IsTextual(n) then Some(n.json.s) else None
  }

  /** isInt: an IntNode, which is an integer literal in int range. */
  predicate IsIntNode(n: Node)
  {
    n.Present? && n.json.JInteger? && IsInt(n.json.n)
  }

  /** isArray. */
  predicate IsArrayNode(n: Node)
  {
    n.Present? && n.json.JArray?
  }

  /** Truncation toward zero, as a cast of a double to long performs it. */
  function Truncate(d: real): (r: int)
    ensures d >= 0.0 ==> r as real <= d < r as real + 1.0
    ensures d < 0.0 ==> r as real - 1.0 < d <= r as real
  {
    if d >= 0.0 then d.Floor else -((-d).Floor)
  }

  /**
   * canConvertToLong: an integer node in long range, or a double node
   * whose value lies within the long range; never a text or other node.
   */
  predicate CanConvertToLong(n: Node)
  {
    n.Present? &&
    match n.json
    case JInteger(v) => IsLong(v)
    case JDouble(d) => LONG_MIN as real <= d <= LONG_MAX as real
    case _ => false
  }

  /** asLong for a node that can convert: the integer, or the double truncated toward zero. */
  function AsLong(n: Node): (v: int)
    requires CanConvertToLong(n)
    ensures IsLong(v)
  {
    match n.json
    case JInteger(i) => i
    case JDouble(d) => Truncate(d)
  }
}
