/** What a record shows of each kind of value: strings scrubbed, objects summarized, errors as records, lists cut. */
module RedactionLeaves {
  import opened Common
  import opened LogValues
  import opened ErrorSerialization
  import opened Redaction
  import opened RedactionSafety
  import JsonText

  // ------------------------------------------------------------------ numerals

  function FromDecimal(t: Text): int {
    if t == [] then 0 else 10 * FromDecimal(t[..|t| - 1]) + (t[|t| - 1] as int - 48)
  }

  /** Decimal digits, of the number's value, without a leading zero. */
  lemma {:induction false} DecimalExactly(n: nat)
    ensures FromDecimal(Decimal(n)) == n
    ensures Decimal(n) != [] && (forall i :: 0 <= i < |Decimal(n)| ==> 48 <= Decimal(n)[i] <= 57)
    ensures Decimal(n)[0] == 48 ==> n == 0
  {
    if n >= 10 {
      DecimalExactly(n / 10);
      assert Decimal(n)[..|Decimal(n)| - 1] == Decimal(n / 10);
    } else {
      assert [48 + n][..0] == [];
      assert Decimal(n) == [48 + n];
    }
  }

  // -------------------------------------------------------------------- leaves

  /**
   * What stands at a position for a value that is no container and no error, above the depth limit:
   * every string, and the text of every URL, is scrubbed; the other primitives keep their text.
   */
  function LeafOut(h: Heap, w: Value, cfg: Config): Option<Out>
    requires w.Object? ==> w.ref in h
  {
    match w
    case Str(s) => Some(OutText(cfg.scrub(s)))
    case Number(text) => Some(OutNumber(text))
    case Bool(b) => Some(OutBool(b))
    case NullValue => Some(OutNull)
    case Undefined => Some(OutUndefined)
    case BigInt(text) => Some(OutText(text + Units("n")))
    case Symbol(text) => Some(OutText(text))
    case Function(name) =>
      Some(OutText(if name == [] then Units("[function anonymous]") else Units("[function ") + name + Units("]")))
    case Object(_) =>
      match h[w.ref]
      case Binary(bytes, _) => Some(OutText(Units("[binary ") + Decimal(bytes) + Units(" bytes]")))
      case Date(iso) => if iso.Some? then Some(OutText(iso.value)) else None
      case RegExp(text) => Some(OutText(text))
      case Url(text) => Some(OutText(cfg.scrub(text)))
      case _ => None
  }

  lemma AnonymousText()
    ensures Units("[function ") + Units("anonymous") + Units("]") == Units("[function anonymous]")
  {
  }

  /** Objects at the depth limit show the depth marker, whatever they are. */
  lemma DepthMarkerShown(h: Heap, v: Value, steps: seq<Step>, cfg: Config)
    requires Closed(h) && ValueIn(v, h.Keys)
    requires RedactValue(h, v, cfg).Some? && Descend(h, v, steps, cfg, {}).Some?
    requires cfg.maxDepth == Some(|steps|) && Descend(h, v, steps, cfg, {}).value.0.Object?
    ensures OutAt(RedactValue(h, v, cfg).value, steps) == Some(OutText(Units("[max-depth]")))
  {
    hide IsSensitiveKey, WalkItems, WalkEntries, Descend, OutAt, Units;
    Located(h, v, steps, cfg, {}, 0);
  }

  /** At every position the record shows, a leaf is shown so. */
  lemma LeafShown(h: Heap, v: Value, steps: seq<Step>, cfg: Config)
    requires Closed(h) && ValueIn(v, h.Keys)
    requires RedactValue(h, v, cfg).Some? && Descend(h, v, steps, cfg, {}).Some?
    requires cfg.maxDepth.Some? ==> |steps| <= cfg.maxDepth.value
    ensures var (w, above) := Descend(h, v, steps, cfg, {}).value;
            ValueIn(w, h.Keys) &&
            (!w.Object? || (w.ref !in above && !TooDeep(cfg, |steps|) && !Container(h[w.ref]) && !h[w.ref].Error?) ==>
              OutAt(RedactValue(h, v, cfg).value, steps) == LeafOut(h, w, cfg))
  {
    hide Walk, Descend, OutAt, Closed, LeafOut, Container;
    Located(h, v, steps, cfg, {}, 0);
    var (w, above) := Descend(h, v, steps, cfg, {}).value;
    if !w.Object? || (w.ref !in above && !TooDeep(cfg, |steps|) && !Container(h[w.ref]) && !h[w.ref].Error?) {
      LeafCopy(h, w, cfg, above, |steps|);
    }
  }

  lemma LeafCopy(h: Heap, w: Value, cfg: Config, above: set<Ref>, depth: int)
    requires Closed(h) && ValueIn(w, h.Keys)
    requires w.Object? ==> w.ref !in above && !TooDeep(cfg, depth) && !Container(h[w.ref]) && !h[w.ref].Error?
    ensures Walk(h, w, cfg, above, depth) == LeafOut(h, w, cfg)
  {
    hide IsSensitiveKey, WalkItems, WalkEntries, Units, Decimal, WalkError, SerializeError;
    AnonymousText();
  }

  // --------------------------------------------------------------------- errors

  /** A field of a serialized error, as the record shows it: the placeholder under a sensitive key. */
  function FieldOut(key: string, out: Out, cfg: Config): Out {
    if IsSensitiveKey(Units(key), cfg.tokens) then OutText(cfg.placeholder) else out
  }

  lemma FieldNamesApart()
    ensures Units("name") != Units("message") && Units("name") != Units("stack") && Units("name") != Units("cause")
    ensures Units("message") != Units("stack") && Units("message") != Units("cause") && Units("stack") != Units("cause")
    ensures Units("name") != PROTO_KEY && Units("message") != PROTO_KEY && Units("stack") != PROTO_KEY && Units("cause") != PROTO_KEY
  {
    assert Units("name")[0] == 110 && Units("message")[0] == 109 && Units("stack")[0] == 115 && Units("cause")[0] == 99;
    assert PROTO_KEY[0] == 95;
  }

  /** An error's record: its name and message scrubbed, its stack if it has one, and its cause's record if it has one. */
  lemma ErrorRecordExactly(e: Serialized, cfg: Config, depth: int)
    requires !TooDeep(cfg, depth)
    ensures WalkError(e, cfg, depth).OutRecord?
    ensures var fields := WalkError(e, cfg, depth).fields;
      && fields.Keys == {Units("name"), Units("message")} + (if e.stack.Some? then {Units("stack")} else {})
                        + (if e.cause.Some? then {Units("cause")} else {})
      && fields[Units("name")] == FieldOut("name", OutText(cfg.scrub(e.name)), cfg)
      && fields[Units("message")] == FieldOut("message", OutText(cfg.scrub(e.message)), cfg)
      && (e.stack.Some? ==> fields[Units("stack")] == FieldOut("stack", OutText(cfg.scrub(e.stack.value)), cfg))
      && (e.cause.Some? ==> fields[Units("cause")] == FieldOut("cause", WalkError(e.cause.value, cfg, depth + 1), cfg))
  {
    FieldNamesApart();
    hide IsSensitiveKey, Units;
    var cause := if e.cause.Some? then WalkError(e.cause.value, cfg, depth + 1) else OutNull;
    assert e.cause.Some? ==> cause == WalkError(e.cause.value, cfg, depth + 1);
  }

  /** The k-th cause of a value: an error's own cause, if it has one, and so on. */
  function CauseAt(h: Heap, v: Value, k: nat): Option<Value>
    decreases k
  {
    if k == 0 then Some(v)
    else if IsError(h, v) && h[v.ref].cause != Undefined then CauseAt(h, h[v.ref].cause, k - 1)
    else None
  }

  function RecordAt(e: Serialized, k: nat): Option<Serialized> {
    if k == 0 then Some(e) else if e.cause.Some? then RecordAt(e.cause.value, k - 1) else None
  }

  /** What one record of the chain holds of its value. */
  predicate Describes(e: Serialized, h: Heap, v: Value)
    requires Closed(h) && ValueIn(v, h.Keys)
  {
    if IsError(h, v) then
      var n := h[v.ref];
      e.name == (if n.name == [] then Units("Error") else n.name) && e.message == n.message
      && e.stack == (if n.stack == Some([]) then None else n.stack)
    else e.name == Units("NonError") && e.message == DescribeNonError(h, v) && e.stack == None
  }

  /** The chain of causes is kept exactly to the fifth, each with its own name, message and stack. */
  lemma {:induction false} CausesKeptExactly(h: Heap, v: Value, step: nat, k: nat)
    requires Closed(h) && ValueIn(v, h.Keys) && step <= 5
    ensures RecordAt(SerializeError(h, v, step), k).Some? <==> step + k <= 5 && CauseAt(h, v, k).Some?
    ensures RecordAt(SerializeError(h, v, step), k).Some? ==>
              ValueIn(CauseAt(h, v, k).value, h.Keys) &&
              Describes(RecordAt(SerializeError(h, v, step), k).value, h, CauseAt(h, v, k).value)
    decreases k
  {
    hide DescribeNonError, Units;
    if IsError(h, v) {
      var n := h[v.ref];
      assert NodeIn(n, h.Keys);
      if k > 0 && n.cause != Undefined && step < 5 { CausesKeptExactly(h, n.cause, step + 1, k - 1); }
    }
  }

  // ----------------------------------------------------------------------- JSON

  /** The JSON of an array: each item's, or null for one that has none; it throws when an item does, or inside itself. */
  lemma ArrayJsonExactly(h: Heap, v: Value, above: set<Ref>)
    requires Closed(h) && v.Object? && v.ref in h && h[v.ref].Array?
    ensures ItemsIn(h[v.ref].items, h.Keys)
    ensures var items := h[v.ref].items;
            var below := above + {v.ref};
      && (ToJson(h, v, above) == Throws <==> v.ref in above || exists i :: 0 <= i < |items| && ToJson(h, items[i], below) == Throws)
      && (ToJson(h, v, above) != Throws ==>
            ToJson(h, v, above).Tree? && ToJson(h, v, above).json.Array? && |ToJson(h, v, above).json.items| == |items| &&
            forall i :: 0 <= i < |items| ==>
              ToJson(h, v, above).json.items[i] ==
                if ToJson(h, items[i], below) == Omitted then JsonText.Null else ToJson(h, items[i], below).json)
  {
    assert NodeIn(h[v.ref], h.Keys);
    hide Closed, ItemsJson;
    if v.ref !in above {
      ItemsExactly(h, h[v.ref].items, |h[v.ref].items|, above + {v.ref});
    }
  }

  lemma {:induction false} ItemsExactly(h: Heap, items: seq<Value>, k: nat, above: set<Ref>)
    requires Closed(h) && ItemsIn(items, h.Keys) && k <= |items|
    ensures ItemsJson(h, items, k, above) == None <==> exists i :: 0 <= i < k && ToJson(h, items[i], above) == Throws
    ensures ItemsJson(h, items, k, above).Some? ==>
              var jsons := ItemsJson(h, items, k, above).value;
              |jsons| == k && forall i :: 0 <= i < k ==>
                ToJson(h, items[i], above) != Throws &&
                jsons[i] == if ToJson(h, items[i], above) == Omitted then JsonText.Null else ToJson(h, items[i], above).json
    decreases k
  {
    hide ToJson, Closed;
    if k > 0 { ItemsExactly(h, items, k - 1, above); }
  }

  /** The JSON of a plain object: a member for each entry that has JSON, sensitive or not; it throws when an entry does. */
  lemma PlainJsonExactly(h: Heap, v: Value, above: set<Ref>)
    requires Closed(h) && v.Object? && v.ref in h && h[v.ref].Plain?
    ensures EntriesIn(h[v.ref].entries, h.Keys)
    ensures var entries := h[v.ref].entries;
            var below := above + {v.ref};
      && (ToJson(h, v, above) == Throws <==>
            v.ref in above || exists i :: 0 <= i < |entries| && ToJson(h, entries[i].1, below) == Throws)
      && (ToJson(h, v, above) != Throws ==>
            ToJson(h, v, above).Tree? && ToJson(h, v, above).json.Object? &&
            forall m :: m in ToJson(h, v, above).json.members <==>
              exists i :: 0 <= i < |entries| && ToJson(h, entries[i].1, below) == Tree(m.1) && entries[i].0 == m.0)
  {
    assert NodeIn(h[v.ref], h.Keys);
    hide Closed, EntriesJson;
    if v.ref !in above {
      EntriesExactly(h, h[v.ref].entries, |h[v.ref].entries|, above + {v.ref});
    }
  }

  lemma {:induction false} EntriesExactly(h: Heap, entries: seq<(Text, Value)>, k: nat, above: set<Ref>)
    requires Closed(h) && EntriesIn(entries, h.Keys) && k <= |entries|
    ensures EntriesJson(h, entries, k, above) == None <==> exists i :: 0 <= i < k && ToJson(h, entries[i].1, above) == Throws
    ensures EntriesJson(h, entries, k, above).Some? ==>
              forall m :: m in EntriesJson(h, entries, k, above).value <==>
                exists i :: 0 <= i < k && ToJson(h, entries[i].1, above) == Tree(m.1) && entries[i].0 == m.0
    decreases k
  {
    hide ToJson, Closed;
    if k > 0 { EntriesExactly(h, entries, k - 1, above); }
  }

  /** The JSON of a primitive. */
  lemma PrimitiveJsonExactly(h: Heap, v: Value, above: set<Ref>)
    requires Closed(h) && !v.Object?
    ensures v.Str? ==> ToJson(h, v, above) == Tree(JsonText.Str(v.chars))
    ensures v.Bool? ==> ToJson(h, v, above) == Tree(JsonText.Bool(v.value))
    ensures v.NullValue? ==> ToJson(h, v, above) == Tree(JsonText.Null)
    ensures v.Number? ==>
              ToJson(h, v, above) == Tree(if JsonText.WellFormed(JsonText.Number(v.text)) then JsonText.Number(v.text) else JsonText.Null)
    ensures v.BigInt? <==> ToJson(h, v, above) == Throws
    ensures v.Undefined? || v.Symbol? || v.Function? <==> ToJson(h, v, above) == Omitted
  {
  }

  /** The JSON of an object that is neither an array nor plain. */
  lemma ObjectJsonExactly(h: Heap, v: Value, above: set<Ref>)
    requires Closed(h) && v.Object? && v.ref in h && v.ref !in above && !h[v.ref].Array? && !h[v.ref].Plain?
    ensures var n := h[v.ref];
      && (n.Date? ==> ToJson(h, v, above) == Tree(if n.iso.Some? then JsonText.Str(n.iso.value) else JsonText.Null))
      && (n.Url? ==> ToJson(h, v, above) == Tree(JsonText.Str(n.text)))
      && (n.Binary? ==> ToJson(h, v, above) == Tree(n.contents))
      && (n.Error? || n.RegExp? || n.Set? || n.MapNode? ==> ToJson(h, v, above) == Tree(JsonText.Object([])))
  {
    hide ItemsJson, EntriesJson;
  }

  /** The text of a cause that is no error: a string as it is, other primitives as they print, an object as its JSON or a marker. */
  lemma DescribedExactly(h: Heap, v: Value)
    requires Closed(h) && ValueIn(v, h.Keys)
    ensures v.Str? ==> DescribeNonError(h, v) == v.chars
    ensures v.Undefined? ==> DescribeNonError(h, v) == Units("undefined")
    ensures v.NullValue? ==> DescribeNonError(h, v) == Units("null")
    ensures v.Bool? ==> DescribeNonError(h, v) == Units(if v.value then "true" else "false")
    ensures v.Number? || v.BigInt? || v.Symbol? ==> DescribeNonError(h, v) == v.text
    ensures v.Function? ==>
              DescribeNonError(h, v) == if v.name == [] then Units("[function anonymous]") else Units("[function ") + v.name + Units("]")
    ensures v.Object? ==>
              (ToJson(h, v, {}) == Throws ==> DescribeNonError(h, v) == Units("[unserializable object]")) &&
              (ToJson(h, v, {}).Tree? ==> DescribeNonError(h, v) == JsonText.Print(ToJson(h, v, {}).json))
  {
    hide ToJson, Units, JsonText.Print;
    AnonymousText();
  }

  // ---------------------------------------------------------------------- lists

  /** A list is copied up to the limit; when it is longer one line follows that counts the rest. */
  lemma ListShownExactly(h: Heap, v: Value, steps: seq<Step>, cfg: Config)
    requires Closed(h) && ValueIn(v, h.Keys)
    requires RedactValue(h, v, cfg).Some? && Descend(h, v, steps, cfg, {}).Some?
    requires cfg.maxDepth.Some? ==> |steps| < cfg.maxDepth.value
    ensures var (w, above) := Descend(h, v, steps, cfg, {}).value;
            w.Object? && w.ref in h && w.ref !in above && (h[w.ref].Array? || h[w.ref].Set?) ==>
              var n := |h[w.ref].items|;
              var out := OutAt(RedactValue(h, v, cfg).value, steps);
              out.Some? && out.value.OutList? &&
              if n <= cfg.maxArrayLength then |out.value.items| == n
              else if n == 0 && cfg.maxArrayLength < 0 then
                out.value.items == [OutText(Units("[") + Decimal(-cfg.maxArrayLength) + Units(" more items]"))]
              else
                |out.value.items| == Larger(cfg.maxArrayLength, 0) + 1 &&
                out.value.items[Larger(cfg.maxArrayLength, 0)]
                  == OutText(Units("[") + Decimal(n - cfg.maxArrayLength) + Units(" more items]"))
  {
    hide IsSensitiveKey, WalkItems, WalkEntries, Descend, OutAt, Units, Decimal;
    Located(h, v, steps, cfg, {}, 0);
    var (w, above) := Descend(h, v, steps, cfg, {}).value;
    if w.Object? && w.ref in h && w.ref !in above && (h[w.ref].Array? || h[w.ref].Set?) {
      assert NodeIn(h[w.ref], h.Keys);
    }
  }
}
