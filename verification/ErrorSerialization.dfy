/**
 * How an error becomes plain data: its name, message and stack, and its chain of causes.
 * A cause that is no error is kept as a text, and an object as its JSON text.
 */
module ErrorSerialization {
  import opened Common
  import opened LogValues
  import JsonText

  const MAX_ERROR_CAUSE_DEPTH := 5

  // ------------------------------------------------------------ JSON.stringify

  /** What `JSON.stringify` makes of a value: nothing for a function, an exception for a cycle or a big integer. */
  datatype Printed = Tree(json: Json) | Omitted | Throws

  predicate IsFinite(text: Text) {
    text != [] && forall i :: 0 <= i < |text| ==> JsonText.NumberUnit(text[i])
  }

  function PrimitiveJson(v: Value): Printed
    requires !v.Object?
  {
    match v
    case NullValue => Tree(JsonText.Null)
    case Bool(b) => Tree(JsonText.Bool(b))
    case Number(text) => Tree(if IsFinite(text) then JsonText.Number(text) else JsonText.Null)
    case Str(chars) => Tree(JsonText.Str(chars))
    case BigInt(_) => Throws
    case _ => Omitted
  }

  /** The JSON of a value below the objects of `above`. Maps, sets, errors and regular expressions show no properties. */
  function ToJson(h: Heap, v: Value, above: set<Ref>): Printed
    requires Closed(h) && ValueIn(v, h.Keys)
    decreases h.Keys - above, 0, 0
  {
    if !v.Object? then PrimitiveJson(v)
    else if v.ref in above then Throws
    else
      var n := h[v.ref];
      assert NodeIn(n, h.Keys);
      assert v.ref in h.Keys - above && v.ref !in h.Keys - (above + {v.ref});
      match n
      case Array(items) =>
        (match ItemsJson(h, items, |items|, above + {v.ref})
         case None => Throws
         case Some(jsons) => Tree(JsonText.Array(jsons)))
      case Plain(entries) =>
        (match EntriesJson(h, entries, |entries|, above + {v.ref})
         case None => Throws
         case Some(members) => Tree(JsonText.Object(members)))
      case Binary(_, contents) => Tree(contents)
      case Date(iso) => Tree(if iso.Some? then JsonText.Str(iso.value) else JsonText.Null)
      case Url(text) => Tree(JsonText.Str(text))
      case _ => Tree(JsonText.Object([]))
  }

  /** The first k items; one that has no JSON is printed as null. */
  function ItemsJson(h: Heap, items: seq<Value>, k: nat, above: set<Ref>): Option<seq<Json>>
    requires Closed(h) && ItemsIn(items, h.Keys) && k <= |items|
    decreases h.Keys - above, 1, k
  {
    if k == 0 then Some([])
    else
      match ItemsJson(h, items, k - 1, above)
      case None => None
      case Some(before) =>
        match ToJson(h, items[k - 1], above)
        case Throws => None
        case Omitted => Some(before + [JsonText.Null])
        case Tree(json) => Some(before + [json])
  }

  /** The first k properties; one that has no JSON is left out. */
  function EntriesJson(h: Heap, entries: seq<(Text, Value)>, k: nat, above: set<Ref>): Option<seq<(Text, Json)>>
    requires Closed(h) && EntriesIn(entries, h.Keys) && k <= |entries|
    decreases h.Keys - above, 1, k
  {
    if k == 0 then Some([])
    else
      match EntriesJson(h, entries, k - 1, above)
      case None => None
      case Some(before) =>
        match ToJson(h, entries[k - 1].1, above)
        case Throws => None
        case Omitted => Some(before)
        case Tree(json) => Some(before + [(entries[k - 1].0, json)])
  }

  // ---------------------------------------------------------------- the errors

  predicate IsError(h: Heap, v: Value) {
    v.Object? && v.ref in h && h[v.ref].Error?
  }

  function DescribeNonError(h: Heap, v: Value): Text
    requires Closed(h) && ValueIn(v, h.Keys)
  {
    match v
    case Str(chars) => chars
    case Undefined => Units("undefined")
    case NullValue => Units("null")
    case Number(text) => text
    case Bool(b) => if b then Units("true") else Units("false")
    case BigInt(text) => text
    case Symbol(text) => text
    case Function(name) => Units("[function ") + (if name == [] then Units("anonymous") else name) + Units("]")
    case Object(_) =>
      var printed := ToJson(h, v, {});
      if printed.Tree? then JsonText.Print(printed.json) else Units("[unserializable object]")
  }

  datatype Serialized = Serialized(name: Text, message: Text, stack: Option<Text>, cause: Option<Serialized>)

  /** Causes are followed to a fixed depth, whether or not they are errors. */
  function SerializeError(h: Heap, v: Value, depth: nat): Serialized
    requires Closed(h) && ValueIn(v, h.Keys)
    decreases if depth < MAX_ERROR_CAUSE_DEPTH then MAX_ERROR_CAUSE_DEPTH - depth else 0
  {
    if IsError(h, v) then
      var n := h[v.ref];
      assert NodeIn(n, h.Keys);
      Serialized(
        if n.name == [] then Units("Error") else n.name,
        n.message,
        if n.stack == Some([]) then None else n.stack,
        if n.cause != Undefined && depth < MAX_ERROR_CAUSE_DEPTH
        then Some(SerializeError(h, n.cause, depth + 1)) else None)
    else Serialized(Units("NonError"), DescribeNonError(h, v), None, None)
  }
}
