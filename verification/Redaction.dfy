/**
 * The redactor: a bounded copy of a value reached through a possibly cyclic heap,
 * with the values under sensitive keys replaced. `Walk` is the copy as a
 * recursion over the path of objects above a value; `Redactor` computes it with
 * one path set that it adds to and deletes from.
 */
module Redaction {
  import opened Common
  import opened LogValues
  import opened ErrorSerialization
  import JsonText

  const MAX_DEPTH_MARKER: Text := Units("[max-depth]")
  const CIRCULAR_MARKER: Text := Units("[circular]")
  const TRUNCATED_KEY: Text := Units("[truncated]")
  const PROTO_KEY: Text := Units("__proto__")

  const DEFAULT_FRAGMENTS: seq<string> := [
    "authorization", "apikey", "accesskey", "bearer", "cardnumber", "cookie", "credential", "cvc", "cvv",
    "licensekey", "password", "passwd", "privatekey", "pwd", "secret", "session", "signature", "token"]

  const DEFAULT_SENSITIVE_KEY_TOKENS: seq<Text> :=
    seq(|DEFAULT_FRAGMENTS|, i requires 0 <= i < |DEFAULT_FRAGMENTS| => Units(DEFAULT_FRAGMENTS[i]))
  const DEFAULT_MAX_DEPTH := 6
  const DEFAULT_MAX_ARRAY_LENGTH := 50

  // --------------------------------------------------------------------- keys

  /** Lower case, as far as it can end in a letter or digit: two characters outside ASCII do. */
  function LowerUnit(c: JsonText.CodeUnit): JsonText.CodeUnit {
    if 65 <= c <= 90 then c + 32
    else if c == 0x212A then 107
    else if c == 0x130 then 105
    else c
  }

  function KeptUnit(c: JsonText.CodeUnit): Text {
    var lower := LowerUnit(c);
    if 97 <= lower <= 122 || 48 <= lower <= 57 then [lower] else []
  }

  function NormalizeKey(key: Text): Text {
    if key == [] then [] else KeptUnit(key[0]) + NormalizeKey(key[1..])
  }

  predicate PartAt(text: Text, part: Text, i: nat) {
    i + |part| <= |text| && text[i..i + |part|] == part
  }

  predicate Includes(text: Text, part: Text) {
    exists i :: 0 <= i <= |text| && PartAt(text, part, i)
  }

  predicate IsSensitiveKey(key: Text, tokens: seq<Text>) {
    NormalizeKey(key) != [] &&
    exists i :: 0 <= i < |tokens| && NormalizeKey(tokens[i]) != [] && Includes(NormalizeKey(key), NormalizeKey(tokens[i]))
  }

  // ------------------------------------------------------------------ the copy

  /** The redacted copy; the order of a record's fields is not recorded. */
  datatype Out =
    | OutUndefined
    | OutNull
    | OutBool(value: bool)
    | OutNumber(text: Text)
    | OutText(chars: Text)
    | OutList(items: seq<Out>)
    | OutRecord(fields: map<Text, Out>)

  /** `maxDepth` None stands for no limit. */
  datatype Config = Config(
    tokens: seq<Text>,
    placeholder: Text,
    maxDepth: Option<int>,
    maxArrayLength: int,
    scrub: Text -> Text)   // the identity when strings are not scrubbed

  function Decimal(n: nat): Text {
    if n < 10 then [48 + n] else Decimal(n / 10) + [48 + n % 10]
  }

  function Emitted(length: nat, cfg: Config): nat {
    if cfg.maxArrayLength < 0 then 0 else if length <= cfg.maxArrayLength then length else cfg.maxArrayLength
  }

  /** Assigning a property of a plain object: `__proto__` does not become one. */
  function Put(fields: map<Text, Out>, key: Text, v: Out): map<Text, Out> {
    if key == PROTO_KEY then fields else fields[key := v]
  }

  predicate TooDeep(cfg: Config, depth: int) {
    cfg.maxDepth.Some? && depth >= cfg.maxDepth.value
  }

  // ------------------------------------------------------------------ the walk

  function WalkText(s: Text, cfg: Config): Out {
    OutText(cfg.scrub(s))
  }

  /** The fields of one serialized error, in the order they are defined. */
  function ErrorField(fields: map<Text, Out>, key: Text, v: Out, cfg: Config): map<Text, Out> {
    Put(fields, key, if IsSensitiveKey(key, cfg.tokens) then OutText(cfg.placeholder) else v)
  }

  /** A serialized error is a fresh object: it is never on the path. */
  function WalkError(e: Serialized, cfg: Config, depth: int): Out
    decreases e
  {
    if TooDeep(cfg, depth) then OutText(MAX_DEPTH_MARKER)
    else
      var f1 := ErrorField(map[], Units("name"), WalkText(e.name, cfg), cfg);
      var f2 := ErrorField(f1, Units("message"), WalkText(e.message, cfg), cfg);
      var f3 := if e.stack.Some? then ErrorField(f2, Units("stack"), WalkText(e.stack.value, cfg), cfg) else f2;
      var f4 := if e.cause.Some? then ErrorField(f3, Units("cause"), WalkError(e.cause.value, cfg, depth + 1), cfg) else f3;
      OutRecord(f4)
  }

  function WalkPrimitive(v: Value, cfg: Config): Out
    requires !v.Object?
  {
    match v
    case Undefined => OutUndefined
    case NullValue => OutNull
    case Bool(b) => OutBool(b)
    case Number(text) => OutNumber(text)
    case Str(chars) => WalkText(chars, cfg)
    case BigInt(text) => OutText(text + Units("n"))
    case Symbol(text) => OutText(text)
    case Function(name) => OutText(Units("[function ") + (if name == [] then Units("anonymous") else name) + Units("]"))
  }

  predicate Container(n: Node) {
    n.Array? || n.Set? || n.MapNode? || n.Plain?
  }

  /** Objects that are summarized rather than entered; None is the exception of an invalid date. */
  function WalkSummary(h: Heap, v: Value, cfg: Config, depth: int): Option<Out>
    requires Closed(h) && v.Object? && v.ref in h && !Container(h[v.ref])
  {
    match h[v.ref]
    case Binary(bytes, _) => Some(OutText(Units("[binary ") + Decimal(bytes) + Units(" bytes]")))
    case Date(iso) => if iso.Some? then Some(OutText(iso.value)) else None
    case Error(_, _, _, _) => Some(WalkError(SerializeError(h, v, 0), cfg, depth + 1))
    case RegExp(text) => Some(OutText(text))
    case Url(text) => Some(WalkText(text, cfg))
  }

  /** The copy of a value below the objects of `path`; None when reading it throws. */
  function Walk(h: Heap, v: Value, cfg: Config, path: set<Ref>, depth: int): Option<Out>
    requires Closed(h) && ValueIn(v, h.Keys)
    decreases h.Keys - path, 0, 0
  {
    if !v.Object? then Some(WalkPrimitive(v, cfg))
    else if TooDeep(cfg, depth) then Some(OutText(MAX_DEPTH_MARKER))
    else if v.ref in path then Some(OutText(CIRCULAR_MARKER))
    else
      var n := h[v.ref];
      assert NodeIn(n, h.Keys);
      if !Container(n) then WalkSummary(h, v, cfg, depth)
      else
        var path' := path + {v.ref};
        assert v.ref in h.Keys - path && v.ref !in h.Keys - path';
        if n.Array? || n.Set? then
          var limit := Emitted(|n.items|, cfg);
          match WalkItems(h, n.items, limit, cfg, path', depth + 1)
          case None => None
          case Some(items) => Some(OutList(Truncated(items, |n.items|, cfg)))
        else if n.MapNode? then
          var limit := Emitted(|n.entries|, cfg);
          match WalkEntries(h, n.entries, limit, cfg, path', depth + 1)
          case None => None
          case Some(fields) => Some(OutRecord(TruncatedFields(fields, |n.entries|, cfg)))
        else
          match WalkEntries(h, n.entries, |n.entries|, cfg, path', depth + 1)
          case None => None
          case Some(fields) => Some(OutRecord(fields))
  }

  function Truncated(items: seq<Out>, length: nat, cfg: Config): seq<Out> {
    var limit := Min(length, cfg.maxArrayLength);
    if length > limit then items + [OutText(Units("[") + Decimal(length - limit) + Units(" more items]"))] else items
  }

  function TruncatedFields(fields: map<Text, Out>, size: nat, cfg: Config): map<Text, Out> {
    if size > Emitted(size, cfg)
    then Put(fields, TRUNCATED_KEY, OutText(Decimal(size - Emitted(size, cfg)) + Units(" more entries")))
    else fields
  }

  /** The copies of the first k items. */
  function WalkItems(h: Heap, items: seq<Value>, k: nat, cfg: Config, path: set<Ref>, depth: int): (r: Option<seq<Out>>)
    requires Closed(h) && ItemsIn(items, h.Keys) && k <= |items|
    ensures r.Some? ==> |r.value| == k
    decreases h.Keys - path, 1, k
  {
    if k == 0 then Some([])
    else
      match WalkItems(h, items, k - 1, cfg, path, depth)
      case None => None
      case Some(before) =>
        match Walk(h, items[k - 1], cfg, path, depth)
        case None => None
        case Some(out) => Some(before + [out])
  }

  /** The record of the first k entries. */
  function WalkEntries(h: Heap, entries: seq<(Text, Value)>, k: nat, cfg: Config, path: set<Ref>, depth: int)
    : Option<map<Text, Out>>
    requires Closed(h) && EntriesIn(entries, h.Keys) && k <= |entries|
    decreases h.Keys - path, 1, k
  {
    if k == 0 then Some(map[])
    else
      match WalkEntries(h, entries, k - 1, cfg, path, depth)
      case None => None
      case Some(fields) =>
        var key := entries[k - 1].0;
        if IsSensitiveKey(key, cfg.tokens) then Some(Put(fields, key, OutText(cfg.placeholder)))
        else
          match Walk(h, entries[k - 1].1, cfg, path, depth)
          case None => None
          case Some(out) => Some(Put(fields, key, out))
  }

  /** `redactValue`. */
  function RedactValue(h: Heap, v: Value, cfg: Config): Option<Out>
    requires Closed(h) && ValueIn(v, h.Keys)
  {
    Walk(h, v, cfg, {}, 0)
  }

  // ------------------------------------------------------- the redactor, as written

  class Redactor {
    const heap: Heap
    const cfg: Config
    var path: set<Ref>

    constructor (heap: Heap, cfg: Config)
      ensures this.heap == heap && this.cfg == cfg && path == {}
    {
      this.heap, this.cfg, path := heap, cfg, {};
    }

    /** The copy of a value. The path is as before on return, and also when reading the value throws. */
    method RedactInternal(v: Value, depth: int) returns (r: Option<Out>)
      requires Closed(heap) && ValueIn(v, heap.Keys)
      modifies this
      ensures path == old(path) && r == Walk(heap, v, cfg, old(path), depth)
      decreases heap.Keys - path, 0, 0
    {
      if !v.Object? { return Some(WalkPrimitive(v, cfg)); }
      if TooDeep(cfg, depth) { return Some(OutText(MAX_DEPTH_MARKER)); }
      if v.ref in path { return Some(OutText(CIRCULAR_MARKER)); }
      var n := heap[v.ref];
      assert NodeIn(n, heap.Keys);
      if !Container(n) { return WalkSummary(heap, v, cfg, depth); }
      ghost var above := path;
      path := path + {v.ref};
      assert v.ref in heap.Keys - above && v.ref !in heap.Keys - path;
      if n.Array? || n.Set? {
        r := RedactArray(n.items, depth);
      } else if n.MapNode? {
        r := RedactMap(n.entries, depth);
      } else {
        r := RedactEntries(n.entries, depth);
      }
      path := path - {v.ref};
      assert path == above;
    }

    method RedactArray(items: seq<Value>, depth: int) returns (r: Option<Out>)
      requires Closed(heap) && ItemsIn(items, heap.Keys)
      modifies this
      ensures path == old(path)
      ensures r == match WalkItems(heap, items, Emitted(|items|, cfg), cfg, old(path), depth + 1)
                   case None => None
                   case Some(outs) => Some(OutList(Truncated(outs, |items|, cfg)))
      decreases heap.Keys - path, 2, 0
    {
      hide IsSensitiveKey, Walk, Decimal, Put, Closed;
      var limit := Min(|items|, cfg.maxArrayLength);
      var result := [];
      var index := 0;
      while index < limit
        invariant 0 <= index <= Emitted(|items|, cfg) && path == old(path)
        invariant WalkItems(heap, items, index, cfg, path, depth + 1) == Some(result)
        decreases limit - index
      {
        var out := RedactInternal(items[index], depth + 1);
        if out == None {
          ThrownItem(heap, items, index, Emitted(|items|, cfg), cfg, path, depth + 1);
          return None;
        }
        result, index := result + [out.value], index + 1;
      }
      if |items| > limit {
        result := result + [OutText(Units("[") + Decimal(|items| - limit) + Units(" more items]"))];
      }
      r := Some(OutList(result));
    }

    method RedactMap(entries: seq<(Text, Value)>, depth: int) returns (r: Option<Out>)
      requires Closed(heap) && EntriesIn(entries, heap.Keys)
      modifies this
      ensures path == old(path)
      ensures r == match WalkEntries(heap, entries, Emitted(|entries|, cfg), cfg, old(path), depth + 1)
                   case None => None
                   case Some(fields) => Some(OutRecord(TruncatedFields(fields, |entries|, cfg)))
      decreases heap.Keys - path, 2, 0
    {
      hide IsSensitiveKey, Walk, Decimal, Put, Closed;
      var result: map<Text, Out> := map[];
      var emitted := 0;
      while emitted < |entries|
        invariant 0 <= emitted <= Emitted(|entries|, cfg) && path == old(path)
        invariant WalkEntries(heap, entries, emitted, cfg, path, depth + 1) == Some(result)
        decreases |entries| - emitted
      {
        if emitted >= cfg.maxArrayLength {
          result := Put(result, TRUNCATED_KEY, OutText(Decimal(|entries| - emitted) + Units(" more entries")));
          return Some(OutRecord(result));
        }
        var (name, entry) := entries[emitted];
        var out := Some(OutText(cfg.placeholder));
        if !IsSensitiveKey(name, cfg.tokens) { out := RedactInternal(entry, depth + 1); }
        if out == None {
          ThrownEntry(heap, entries, emitted, Emitted(|entries|, cfg), cfg, path, depth + 1);
          return None;
        }
        result, emitted := Put(result, name, out.value), emitted + 1;
      }
      r := Some(OutRecord(result));
    }

    method RedactEntries(entries: seq<(Text, Value)>, depth: int) returns (r: Option<Out>)
      requires Closed(heap) && EntriesIn(entries, heap.Keys)
      modifies this
      ensures path == old(path)
      ensures r == match WalkEntries(heap, entries, |entries|, cfg, old(path), depth + 1)
                   case None => None
                   case Some(fields) => Some(OutRecord(fields))
      decreases heap.Keys - path, 2, 0
    {
      hide IsSensitiveKey, Walk, Decimal, Put, Closed;
      var result: map<Text, Out> := map[];
      var k := 0;
      while k < |entries|
        invariant 0 <= k <= |entries| && path == old(path)
        invariant WalkEntries(heap, entries, k, cfg, path, depth + 1) == Some(result)
      {
        var (key, entry) := entries[k];
        var out := Some(OutText(cfg.placeholder));
        if !IsSensitiveKey(key, cfg.tokens) { out := RedactInternal(entry, depth + 1); }
        if out == None {
          ThrownEntry(heap, entries, k, |entries|, cfg, path, depth + 1);
          return None;
        }
        result, k := Put(result, key, out.value), k + 1;
      }
      r := Some(OutRecord(result));
    }
  }

  /** An item that throws makes the whole array throw. */
  lemma {:induction false} ThrownItem(h: Heap, items: seq<Value>, at: nat, k: nat, cfg: Config, path: set<Ref>, depth: int)
    requires Closed(h) && ItemsIn(items, h.Keys) && at < k <= |items|
    requires Walk(h, items[at], cfg, path, depth) == None
    ensures WalkItems(h, items, k, cfg, path, depth) == None
    decreases k
  {
    hide Walk;
    if at < k - 1 { ThrownItem(h, items, at, k - 1, cfg, path, depth); }
  }

  lemma {:induction false} ThrownEntry(h: Heap, entries: seq<(Text, Value)>, at: nat, k: nat, cfg: Config,
                                       path: set<Ref>, depth: int)
    requires Closed(h) && EntriesIn(entries, h.Keys) && at < k <= |entries|
    requires !IsSensitiveKey(entries[at].0, cfg.tokens) && Walk(h, entries[at].1, cfg, path, depth) == None
    ensures WalkEntries(h, entries, k, cfg, path, depth) == None
    decreases k
  {
    hide Walk, IsSensitiveKey;
    if at < k - 1 { ThrownEntry(h, entries, at, k - 1, cfg, path, depth); }
  }
}
