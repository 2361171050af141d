/**
 * The shape of the redacted copy: bounded, with the placeholder under every sensitive
 * key, and one circular marker exactly where a container holds one of its ancestors.
 */
module RedactionSafety {
  import opened Common
  import opened LogValues
  import opened ErrorSerialization
  import opened Redaction
  import opened DefaultKeys
  import JsonText

  // ----------------------------------------------------- coverage and bounds

  function Larger(a: int, b: int): int { if a < b then b else a }

  /**
   * A copy made at `depth`: no container at or below the depth limit, no list longer
   * than the limit and its summary line, and the placeholder under every sensitive
   * key but the one the redactor itself writes.
   */
  predicate Sound(o: Out, cfg: Config, depth: int)
    decreases o
  {
    match o
    case OutList(items) =>
      !TooDeep(cfg, depth) && |items| <= Larger(cfg.maxArrayLength, 0) + 1 &&
      forall i :: 0 <= i < |items| ==> Sound(items[i], cfg, depth + 1)
    case OutRecord(fields) =>
      !TooDeep(cfg, depth) &&
      forall key :: key in fields ==> Sound(fields[key], cfg, depth + 1) && Replaced(key, fields[key], cfg)
    case _ => true
  }

  predicate Replaced(key: Text, o: Out, cfg: Config) {
    IsSensitiveKey(key, cfg.tokens) && key != TRUNCATED_KEY ==> o == OutText(cfg.placeholder)
  }

  predicate SoundItems(items: seq<Out>, cfg: Config, depth: int) {
    forall i :: 0 <= i < |items| ==> Sound(items[i], cfg, depth)
  }

  predicate SoundFields(fields: map<Text, Out>, cfg: Config, depth: int) {
    forall key :: key in fields ==> Sound(fields[key], cfg, depth) && Replaced(key, fields[key], cfg)
  }

  lemma PutKeepsSound(fields: map<Text, Out>, key: Text, o: Out, cfg: Config, depth: int)
    requires SoundFields(fields, cfg, depth) && Sound(o, cfg, depth) && Replaced(key, o, cfg)
    ensures SoundFields(Put(fields, key, o), cfg, depth)
  {
    hide IsSensitiveKey, Sound;
  }

  lemma ErrorFieldKeepsSound(fields: map<Text, Out>, key: Text, o: Out, cfg: Config, depth: int)
    requires SoundFields(fields, cfg, depth) && Sound(o, cfg, depth)
    ensures SoundFields(ErrorField(fields, key, o, cfg), cfg, depth)
  {
    hide IsSensitiveKey, SoundFields, Put;
    var kept := if IsSensitiveKey(key, cfg.tokens) then OutText(cfg.placeholder) else o;
    PutKeepsSound(fields, key, kept, cfg, depth);
  }

  lemma {:induction false} ErrorIsSound(e: Serialized, cfg: Config, depth: int)
    ensures Sound(WalkError(e, cfg, depth), cfg, depth)
    decreases e
  {
    hide IsSensitiveKey, ErrorField;
    if !TooDeep(cfg, depth) {
      var f0: map<Text, Out> := map[];
      ErrorFieldKeepsSound(f0, Units("name"), WalkText(e.name, cfg), cfg, depth + 1);
      var f1 := ErrorField(f0, Units("name"), WalkText(e.name, cfg), cfg);
      ErrorFieldKeepsSound(f1, Units("message"), WalkText(e.message, cfg), cfg, depth + 1);
      var f2 := ErrorField(f1, Units("message"), WalkText(e.message, cfg), cfg);
      var f3 := if e.stack.Some? then ErrorField(f2, Units("stack"), WalkText(e.stack.value, cfg), cfg) else f2;
      if e.stack.Some? { ErrorFieldKeepsSound(f2, Units("stack"), WalkText(e.stack.value, cfg), cfg, depth + 1); }
      if e.cause.Some? {
        ErrorIsSound(e.cause.value, cfg, depth + 1);
        ErrorFieldKeepsSound(f3, Units("cause"), WalkError(e.cause.value, cfg, depth + 1), cfg, depth + 1);
      }
    }
  }

  /** A container below a depth, one step deeper, is still above the limit. */
  lemma DeeperIsSound(o: Out, cfg: Config, depth: int)
    requires Sound(o, cfg, depth + 1)
    requires !TooDeep(cfg, depth)
    ensures Sound(o, cfg, depth)
    decreases o
  {
    hide IsSensitiveKey;
    match o
    case OutList(items) =>
      forall i | 0 <= i < |items| ensures Sound(items[i], cfg, depth + 1) {
        DeeperIsSound(items[i], cfg, depth + 1);
      }
    case OutRecord(fields) =>
      forall key | key in fields ensures Sound(fields[key], cfg, depth + 1) {
        DeeperIsSound(fields[key], cfg, depth + 1);
      }
    case _ =>
  }

  /** Every copy is bounded, and hides what its keys call sensitive. */
  lemma {:induction false} WalkIsSound(h: Heap, v: Value, cfg: Config, path: set<Ref>, depth: int)
    requires Closed(h) && ValueIn(v, h.Keys)
    ensures Walk(h, v, cfg, path, depth).Some? ==> Sound(Walk(h, v, cfg, path, depth).value, cfg, depth)
    decreases h.Keys - path, 0, 0
  {
    hide IsSensitiveKey, Decimal, WalkItems, WalkEntries, WalkError;
    if v.Object? && !TooDeep(cfg, depth) && v.ref !in path {
      var n := h[v.ref];
      assert NodeIn(n, h.Keys);
      var below := path + {v.ref};
      assert v.ref in h.Keys - path && v.ref !in h.Keys - below;
      if n.Array? || n.Set? {
        ItemsAreSound(h, n.items, Emitted(|n.items|, cfg), cfg, below, depth + 1);
      } else if n.MapNode? {
        var k := Emitted(|n.entries|, cfg);
        FieldsAreSound(h, n.entries, k, cfg, below, depth + 1);
        var fields := WalkEntries(h, n.entries, k, cfg, below, depth + 1);
        if fields.Some? && |n.entries| > k {
          PutKeepsSound(fields.value, TRUNCATED_KEY, OutText(Decimal(|n.entries| - k) + Units(" more entries")), cfg, depth + 1);
        }
      } else if n.Plain? {
        FieldsAreSound(h, n.entries, |n.entries|, cfg, below, depth + 1);
      } else if n.Error? {
        ErrorIsSound(SerializeError(h, v, 0), cfg, depth + 1);
        DeeperIsSound(WalkError(SerializeError(h, v, 0), cfg, depth + 1), cfg, depth);
      }
    }
  }

  lemma {:induction false} ItemsAreSound(h: Heap, items: seq<Value>, k: nat, cfg: Config, path: set<Ref>, depth: int)
    requires Closed(h) && ItemsIn(items, h.Keys) && k <= |items|
    ensures WalkItems(h, items, k, cfg, path, depth).Some? ==>
              SoundItems(WalkItems(h, items, k, cfg, path, depth).value, cfg, depth)
    decreases h.Keys - path, 1, k
  {
    hide Walk, Sound, Closed;
    if k > 0 {
      ItemsAreSound(h, items, k - 1, cfg, path, depth);
      WalkIsSound(h, items[k - 1], cfg, path, depth);
    }
  }

  lemma {:induction false} FieldsAreSound(h: Heap, entries: seq<(Text, Value)>, k: nat, cfg: Config, path: set<Ref>,
                                          depth: int)
    requires Closed(h) && EntriesIn(entries, h.Keys) && k <= |entries|
    ensures WalkEntries(h, entries, k, cfg, path, depth).Some? ==>
              SoundFields(WalkEntries(h, entries, k, cfg, path, depth).value, cfg, depth)
    decreases h.Keys - path, 1, k
  {
    hide Walk, Closed, IsSensitiveKey, SoundFields, Put;
    if k == 0 {
      NoFieldsAreSound(cfg, depth);
    } else {
      FieldsAreSound(h, entries, k - 1, cfg, path, depth);
      var fields := WalkEntries(h, entries, k - 1, cfg, path, depth);
      var key := entries[k - 1].0;
      if fields.Some? {
        if IsSensitiveKey(key, cfg.tokens) {
          PutKeepsSound(fields.value, key, OutText(cfg.placeholder), cfg, depth);
        } else {
          WalkIsSound(h, entries[k - 1].1, cfg, path, depth);
          var out := Walk(h, entries[k - 1].1, cfg, path, depth);
          if out.Some? { PutKeepsSound(fields.value, key, out.value, cfg, depth); }
        }
      }
    }
  }

  lemma NoFieldsAreSound(cfg: Config, depth: int)
    ensures SoundFields(map[], cfg, depth)
  {
  }

  /** No more than n containers one inside another. */
  predicate NestingAtMost(o: Out, n: int)
    decreases o
  {
    match o
    case OutList(items) => n > 0 && forall i :: 0 <= i < |items| ==> NestingAtMost(items[i], n - 1)
    case OutRecord(fields) => n > 0 && forall key :: key in fields ==> NestingAtMost(fields[key], n - 1)
    case _ => true
  }

  /** No list longer than n. */
  predicate ListsAtMost(o: Out, n: int)
    decreases o
  {
    match o
    case OutList(items) => |items| <= n && forall i :: 0 <= i < |items| ==> ListsAtMost(items[i], n)
    case OutRecord(fields) => forall key :: key in fields ==> ListsAtMost(fields[key], n)
    case _ => true
  }

  lemma {:induction false} SoundIsBounded(o: Out, cfg: Config, depth: int)
    requires Sound(o, cfg, depth)
    ensures ListsAtMost(o, Larger(cfg.maxArrayLength, 0) + 1)
    ensures cfg.maxDepth.Some? ==> NestingAtMost(o, cfg.maxDepth.value - depth)
    decreases o
  {
    hide IsSensitiveKey;
    match o
    case OutList(items) =>
      forall i | 0 <= i < |items|
        ensures ListsAtMost(items[i], Larger(cfg.maxArrayLength, 0) + 1)
        ensures cfg.maxDepth.Some? ==> NestingAtMost(items[i], cfg.maxDepth.value - (depth + 1))
      {
        SoundIsBounded(items[i], cfg, depth + 1);
      }
    case OutRecord(fields) =>
      forall key | key in fields
        ensures ListsAtMost(fields[key], Larger(cfg.maxArrayLength, 0) + 1)
        ensures cfg.maxDepth.Some? ==> NestingAtMost(fields[key], cfg.maxDepth.value - (depth + 1))
      {
        SoundIsBounded(fields[key], cfg, depth + 1);
      }
    case _ =>
  }

  /** However the heap is shaped, the record is bounded in depth and in the length of its lists. */
  lemma RedactionIsBounded(h: Heap, v: Value, cfg: Config)
    requires Closed(h) && ValueIn(v, h.Keys)
    requires RedactValue(h, v, cfg).Some?
    ensures ListsAtMost(RedactValue(h, v, cfg).value, Larger(cfg.maxArrayLength, 0) + 1)
    ensures cfg.maxDepth.Some? ==> NestingAtMost(RedactValue(h, v, cfg).value, cfg.maxDepth.value)
  {
    hide Walk, Sound, ListsAtMost, NestingAtMost;
    WalkIsSound(h, v, cfg, {}, 0);
    SoundIsBounded(RedactValue(h, v, cfg).value, cfg, 0);
  }

  /** Every field with a sensitive key, at any depth of the record, holds the placeholder. */
  predicate Covered(o: Out, cfg: Config)
    decreases o
  {
    match o
    case OutList(items) => forall i :: 0 <= i < |items| ==> Covered(items[i], cfg)
    case OutRecord(fields) =>
      forall key :: key in fields ==>
        Covered(fields[key], cfg) && (IsSensitiveKey(key, cfg.tokens) ==> fields[key] == OutText(cfg.placeholder))
    case _ => true
  }

  lemma {:induction false} SoundIsCovered(o: Out, cfg: Config, depth: int)
    requires Sound(o, cfg, depth) && !IsSensitiveKey(TRUNCATED_KEY, cfg.tokens)
    ensures Covered(o, cfg)
    decreases o
  {
    hide IsSensitiveKey;
    match o
    case OutList(items) =>
      forall i | 0 <= i < |items| ensures Covered(items[i], cfg) { SoundIsCovered(items[i], cfg, depth + 1); }
    case OutRecord(fields) =>
      forall key | key in fields ensures Covered(fields[key], cfg) { SoundIsCovered(fields[key], cfg, depth + 1); }
    case _ =>
  }

  ghost predicate AlwaysCovers(cfg: Config) {
    forall h: Heap, v: Value :: Closed(h) && ValueIn(v, h.Keys) && RedactValue(h, v, cfg).Some? ==>
      Covered(RedactValue(h, v, cfg).value, cfg)
  }

  function Nulls(n: nat): (r: seq<(Text, Value)>)
    ensures |r| == n && forall i :: 0 <= i < n ==> r[i] == (Units("a"), NullValue)
  {
    seq(n, i => (Units("a"), NullValue))
  }

  lemma {:induction false} NullsNeverThrow(h: Heap, n: nat, k: nat, cfg: Config, path: set<Ref>, depth: int)
    requires Closed(h) && EntriesIn(Nulls(n), h.Keys) && k <= n
    ensures WalkEntries(h, Nulls(n), k, cfg, path, depth).Some?
    decreases k
  {
    hide IsSensitiveKey;
    if k > 0 { NullsNeverThrow(h, n, k - 1, cfg, path, depth); }
  }

  /** A Map past the limit puts its own summary under the key that reports it. */
  lemma TruncationIsWritten(n: nat, cfg: Config) returns (h: Heap)
    requires n > 0 && !TooDeep(cfg, 0)
    ensures Closed(h) && ValueIn(Object(0), h.Keys)
    ensures RedactValue(h, Object(0), cfg).Some? && RedactValue(h, Object(0), cfg).value.OutRecord?
    ensures TRUNCATED_KEY in RedactValue(h, Object(0), cfg).value.fields
    ensures RedactValue(h, Object(0), cfg).value.fields[TRUNCATED_KEY] == OutText(Decimal(n) + Units(" more entries"))
  {
    hide IsSensitiveKey, Decimal;
    var size := Larger(cfg.maxArrayLength, 0) + n;
    var entries := Nulls(size);
    h := map[0 := MapNode(entries)];
    NullsNeverThrow(h, size, Emitted(size, cfg), cfg, {0}, 1);
    assert {} + {0} == {0};
    assert size - Emitted(size, cfg) == n;
    assert TRUNCATED_KEY[0] != PROTO_KEY[0];
  }

  /**
   * The redactor covers every sensitive field exactly when the tokens spare its own
   * truncation key, or when the depth limit lets it enter no object at all.
   */
  lemma CoversExactly(cfg: Config)
    ensures AlwaysCovers(cfg) <==> !IsSensitiveKey(TRUNCATED_KEY, cfg.tokens) || TooDeep(cfg, 0)
  {
    hide IsSensitiveKey, Decimal, Walk;
    if !IsSensitiveKey(TRUNCATED_KEY, cfg.tokens) || TooDeep(cfg, 0) {
      forall h: Heap, v: Value | Closed(h) && ValueIn(v, h.Keys) && RedactValue(h, v, cfg).Some?
        ensures Covered(RedactValue(h, v, cfg).value, cfg)
      {
        WalkIsSound(h, v, cfg, {}, 0);
        if !TooDeep(cfg, 0) { SoundIsCovered(RedactValue(h, v, cfg).value, cfg, 0); }
      }
    } else {
      DecimalsDiffer();
      if AlwaysCovers(cfg) {
        CoveredSummary(1, cfg);
        CoveredSummary(2, cfg);
      }
    }
  }

  lemma CoveredSummary(n: nat, cfg: Config)
    requires AlwaysCovers(cfg) && IsSensitiveKey(TRUNCATED_KEY, cfg.tokens) && n > 0 && !TooDeep(cfg, 0)
    ensures cfg.placeholder == Decimal(n) + Units(" more entries")
  {
    hide IsSensitiveKey, Decimal, Walk;
    var h := TruncationIsWritten(n, cfg);
    assert Covered(RedactValue(h, Object(0), cfg).value, cfg);
  }

  lemma DecimalsDiffer()
    ensures Decimal(1) + Units(" more entries") != Decimal(2) + Units(" more entries")
  {
    assert Decimal(1)[0] != Decimal(2)[0];
    assert (Decimal(1) + Units(" more entries"))[0] == Decimal(1)[0];
    assert (Decimal(2) + Units(" more entries"))[0] == Decimal(2)[0];
  }

  /** With the default key fragments, every sensitive field of every record is covered. */
  lemma DefaultsCover(cfg: Config)
    requires cfg.tokens == DEFAULT_SENSITIVE_KEY_TOKENS
    ensures AlwaysCovers(cfg)
  {
    hide IsSensitiveKey, AlwaysCovers, TooDeep;
    TruncationKeySpared();
    CoversExactly(cfg);
  }

  // ------------------------------------------------------------ fields of a record

  function KeysOf(entries: seq<(Text, Value)>, k: nat): set<Text>
    requires k <= |entries|
  {
    set i | 0 <= i < k && entries[i].0 != PROTO_KEY :: entries[i].0
  }

  lemma {:induction false} FieldKeys(h: Heap, entries: seq<(Text, Value)>, k: nat, cfg: Config, path: set<Ref>, depth: int)
    requires Closed(h) && EntriesIn(entries, h.Keys) && k <= |entries|
    requires WalkEntries(h, entries, k, cfg, path, depth).Some?
    ensures WalkEntries(h, entries, k, cfg, path, depth).value.Keys == KeysOf(entries, k)
    decreases k
  {
    hide Walk, Closed, IsSensitiveKey;
    if k > 0 {
      FieldKeys(h, entries, k - 1, cfg, path, depth);
      var key := entries[k - 1].0;
      assert KeysOf(entries, k) == if key == PROTO_KEY then KeysOf(entries, k - 1) else KeysOf(entries, k - 1) + {key};
    }
  }

  /** A record has a field for every key copied, sensitive ones included, and no other but the report of a cut. */
  lemma RecordKeysExact(h: Heap, v: Value, cfg: Config, path: set<Ref>, depth: int)
    requires Closed(h) && v.Object? && v.ref in h && v.ref !in path && !TooDeep(cfg, depth)
    requires (h[v.ref].Plain? || h[v.ref].MapNode?) && Walk(h, v, cfg, path, depth).Some?
    ensures Walk(h, v, cfg, path, depth).value.OutRecord?
    ensures var n, keys := h[v.ref], Walk(h, v, cfg, path, depth).value.fields.Keys;
            if n.Plain? then keys == KeysOf(n.entries, |n.entries|)
            else if |n.entries| <= Larger(cfg.maxArrayLength, 0) then keys == KeysOf(n.entries, |n.entries|)
            else keys == KeysOf(n.entries, Larger(cfg.maxArrayLength, 0)) + {TRUNCATED_KEY}
  {
    hide IsSensitiveKey, WalkItems, WalkEntries, KeysOf, Decimal;
    var n := h[v.ref];
    assert NodeIn(n, h.Keys);
    var k := if n.Plain? then |n.entries| else Emitted(|n.entries|, cfg);
    FieldKeys(h, n.entries, k, cfg, path + {v.ref}, depth + 1);
    assert TRUNCATED_KEY[0] != PROTO_KEY[0];
  }

  // ------------------------------------------------------- positions in the record

  datatype Step = Item(index: nat) | Field(key: Text)

  /** The last of the first k entries with this key. */
  function LastEntry(entries: seq<(Text, Value)>, k: nat, key: Text): Option<Value>
    requires k <= |entries|
  {
    if k == 0 then None
    else if entries[k - 1].0 == key then Some(entries[k - 1].1)
    else LastEntry(entries, k - 1, key)
  }

  /** The value an object shows at a step: in range, not truncated, not under a sensitive key. */
  function Shown(n: Node, step: Step, cfg: Config): Option<Value> {
    match step
    case Item(i) => if (n.Array? || n.Set?) && i < Emitted(|n.items|, cfg) then Some(n.items[i]) else None
    case Field(key) =>
      if IsSensitiveKey(key, cfg.tokens) || key == PROTO_KEY then None
      else if n.Plain? then LastEntry(n.entries, |n.entries|, key)
      else if n.MapNode? && (key != TRUNCATED_KEY || |n.entries| == Emitted(|n.entries|, cfg))
        then LastEntry(n.entries, Emitted(|n.entries|, cfg), key)
      else None
  }

  /** The value that the steps lead to, and the objects above it, entering no object twice. */
  function Descend(h: Heap, v: Value, steps: seq<Step>, cfg: Config, above: set<Ref>): Option<(Value, set<Ref>)>
    requires Closed(h) && ValueIn(v, h.Keys)
    decreases |steps|
  {
    if steps == [] then Some((v, above))
    else if !v.Object? || v.ref in above then None
    else
      var child := Shown(h[v.ref], steps[0], cfg);
      ShownIsIn(h, v.ref, steps[0], cfg);
      if child.None? then None else Descend(h, child.value, steps[1..], cfg, above + {v.ref})
  }

  function Child(o: Out, step: Step): Option<Out> {
    match step
    case Item(i) => if o.OutList? && i < |o.items| then Some(o.items[i]) else None
    case Field(key) => if o.OutRecord? && key in o.fields then Some(o.fields[key]) else None
  }

  function OutAt(o: Out, steps: seq<Step>): Option<Out>
    decreases |steps|
  {
    if steps == [] then Some(o)
    else
      var child := Child(o, steps[0]);
      if child.None? then None else OutAt(child.value, steps[1..])
  }

  lemma {:induction false} LastEntryIsIn(entries: seq<(Text, Value)>, k: nat, key: Text, refs: set<Ref>)
    requires k <= |entries| && EntriesIn(entries, refs)
    ensures LastEntry(entries, k, key).Some? ==> ValueIn(LastEntry(entries, k, key).value, refs)
  {
    if k > 0 { LastEntryIsIn(entries, k - 1, key, refs); }
  }

  lemma ShownIsIn(h: Heap, r: Ref, step: Step, cfg: Config)
    requires Closed(h) && r in h
    ensures Shown(h[r], step, cfg).Some? ==> ValueIn(Shown(h[r], step, cfg).value, h.Keys)
  {
    hide IsSensitiveKey;
    var n := h[r];
    assert NodeIn(n, h.Keys);
    if n.Plain? || n.MapNode? {
      if step.Field? {
        LastEntryIsIn(n.entries, |n.entries|, step.key, h.Keys);
        LastEntryIsIn(n.entries, Emitted(|n.entries|, cfg), step.key, h.Keys);
      }
    }
  }

  lemma {:induction false} ItemCopy(h: Heap, items: seq<Value>, i: nat, k: nat, cfg: Config, path: set<Ref>, depth: int)
    requires Closed(h) && ItemsIn(items, h.Keys) && i < k <= |items|
    requires WalkItems(h, items, k, cfg, path, depth).Some?
    ensures Walk(h, items[i], cfg, path, depth) == Some(WalkItems(h, items, k, cfg, path, depth).value[i])
    decreases k
  {
    hide Walk, Closed;
    if i < k - 1 { ItemCopy(h, items, i, k - 1, cfg, path, depth); }
  }

  lemma {:induction false} FieldCopy(h: Heap, entries: seq<(Text, Value)>, key: Text, k: nat, cfg: Config,
                                     path: set<Ref>, depth: int)
    requires Closed(h) && EntriesIn(entries, h.Keys) && k <= |entries|
    requires WalkEntries(h, entries, k, cfg, path, depth).Some? && LastEntry(entries, k, key).Some?
    requires !IsSensitiveKey(key, cfg.tokens) && key != PROTO_KEY && ValueIn(LastEntry(entries, k, key).value, h.Keys)
    ensures key in WalkEntries(h, entries, k, cfg, path, depth).value
    ensures Walk(h, LastEntry(entries, k, key).value, cfg, path, depth)
         == Some(WalkEntries(h, entries, k, cfg, path, depth).value[key])
    decreases k
  {
    hide Walk, Closed, IsSensitiveKey;
    if entries[k - 1].0 != key { FieldCopy(h, entries, key, k - 1, cfg, path, depth); }
  }

  /** One step into an object is one step into its copy. */
  lemma StepCopy(h: Heap, v: Value, step: Step, cfg: Config, path: set<Ref>, depth: int)
    requires Closed(h) && ValueIn(v, h.Keys) && v.Object? && v.ref !in path && !TooDeep(cfg, depth)
    requires Shown(h[v.ref], step, cfg).Some? && ValueIn(Shown(h[v.ref], step, cfg).value, h.Keys)
    requires Walk(h, v, cfg, path, depth).Some?
    ensures Walk(h, Shown(h[v.ref], step, cfg).value, cfg, path + {v.ref}, depth + 1).Some?
    ensures Child(Walk(h, v, cfg, path, depth).value, step)
         == Walk(h, Shown(h[v.ref], step, cfg).value, cfg, path + {v.ref}, depth + 1)
  {
    hide IsSensitiveKey, Decimal, WalkItems, WalkEntries;
    var n := h[v.ref];
    assert NodeIn(n, h.Keys);
    var below := path + {v.ref};
    match step
    case Item(i) => ItemCopy(h, n.items, i, Emitted(|n.items|, cfg), cfg, below, depth + 1);
    case Field(key) =>
      var k := if n.Plain? then |n.entries| else Emitted(|n.entries|, cfg);
      FieldCopy(h, n.entries, key, k, cfg, below, depth + 1);
  }

  /** What the record shows at a position is the copy of the value there, below the objects passed on the way. */
  lemma {:induction false} Located(h: Heap, v: Value, steps: seq<Step>, cfg: Config, above: set<Ref>, depth: int)
    requires Closed(h) && ValueIn(v, h.Keys)
    requires Walk(h, v, cfg, above, depth).Some? && Descend(h, v, steps, cfg, above).Some?
    requires cfg.maxDepth.Some? ==> depth + |steps| <= cfg.maxDepth.value
    ensures var (w, path) := Descend(h, v, steps, cfg, above).value;
            ValueIn(w, h.Keys) && Walk(h, w, cfg, path, depth + |steps|).Some? &&
            OutAt(Walk(h, v, cfg, above, depth).value, steps) == Walk(h, w, cfg, path, depth + |steps|)
    decreases |steps|
  {
    hide IsSensitiveKey, Walk, Shown, Closed;
    if steps != [] {
      ShownIsIn(h, v.ref, steps[0], cfg);
      StepCopy(h, v, steps[0], cfg, above, depth);
      Located(h, Shown(h[v.ref], steps[0], cfg).value, steps[1..], cfg, above + {v.ref}, depth + 1);
    }
  }

  /**
   * Above the depth limit, the circular marker stands for a container exactly when the
   * container is one of those that contain the position: a shared one is copied again.
   */
  lemma CircularExactlyAtAncestors(h: Heap, v: Value, steps: seq<Step>, cfg: Config)
    requires Closed(h) && ValueIn(v, h.Keys)
    requires RedactValue(h, v, cfg).Some? && Descend(h, v, steps, cfg, {}).Some?
    requires cfg.maxDepth.Some? ==> |steps| < cfg.maxDepth.value
    ensures var (w, path) := Descend(h, v, steps, cfg, {}).value;
            w.Object? && w.ref in h && Container(h[w.ref]) ==>
              (OutAt(RedactValue(h, v, cfg).value, steps) == Some(OutText(CIRCULAR_MARKER)) <==> w.ref in path)
  {
    hide IsSensitiveKey, WalkItems, WalkEntries, Descend, OutAt;
    Located(h, v, steps, cfg, {}, 0);
  }
}
