/**
 * The values a log record is made of: JavaScript values over a possibly cyclic heap of
 * objects. Strings are sequences of UTF-16 code units; numbers, big integers and symbols
 * are the text they print as.
 */
module LogValues {
  import opened Common
  import JsonText

  type Ref = nat
  type Text = JsonText.Text
  type Json = JsonText.Json

  /** The code units of a literal. */
  function Units(s: string): Text {
    seq(|s|, i requires 0 <= i < |s| => if s[i] as int < 0x10000 then s[i] as int else 0xFFFD)
  }

  datatype Value =
    | Undefined
    | NullValue
    | Bool(value: bool)
    | Number(text: Text)
    | Str(chars: Text)
    | BigInt(text: Text)
    | Symbol(text: Text)
    | Function(name: Text)
    | Object(ref: Ref)

  datatype Node =
    | Binary(bytes: nat, contents: Json)       // and the contents as JSON shows them
    | Date(iso: Option<Text>)                  // no text for an invalid date: reading it throws
    | Error(name: Text, message: Text, stack: Option<Text>, cause: Value)
    | RegExp(text: Text)
    | Url(text: Text)
    | Array(items: seq<Value>)
    | Set(items: seq<Value>)
    | MapNode(entries: seq<(Text, Value)>)     // keys as `String` prints them
    | Plain(entries: seq<(Text, Value)>)

  type Heap = map<Ref, Node>

  predicate ValueIn(v: Value, refs: set<Ref>) {
    v.Object? ==> v.ref in refs
  }

  predicate ItemsIn(items: seq<Value>, refs: set<Ref>) {
    forall i :: 0 <= i < |items| ==> ValueIn(items[i], refs)
  }

  predicate EntriesIn(entries: seq<(Text, Value)>, refs: set<Ref>) {
    forall i :: 0 <= i < |entries| ==> ValueIn(entries[i].1, refs)
  }

  predicate NodeIn(n: Node, refs: set<Ref>) {
    match n
    case Array(items) => ItemsIn(items, refs)
    case Set(items) => ItemsIn(items, refs)
    case MapNode(entries) => EntriesIn(entries, refs)
    case Plain(entries) => EntriesIn(entries, refs)
    case Error(_, _, _, cause) => ValueIn(cause, refs)
    case _ => true
  }

  predicate Closed(h: Heap) {
    forall r :: r in h ==> NodeIn(h[r], h.Keys)
  }
}
