/**
 * Non-interference of the redactor: hidden values never show in the record, but for one
 * way through. The cause of an error is kept as a text when it is no error, and the JSON
 * of an object cause is not redacted by key. That is exactly when they show.
 */
module RedactionInterference {
  import opened Common
  import opened LogValues
  import opened ErrorSerialization
  import opened Redaction
  import opened RedactionSafety
  import opened HiddenValues
  import opened DefaultKeys
  import JsonText

  // ------------------------------------------------------------------- exposure

  /**
   * The record of the error, or of its cause, that `SerializeError` makes at a step of the chain shows
   * the JSON of an object that exposes hidden values.
   */
  predicate ErrorExposes(h: Heap, v: Value, cfg: Config, step: nat, depth: int)
    requires Closed(h) && ValueIn(v, h.Keys)
    decreases if step < MAX_ERROR_CAUSE_DEPTH then MAX_ERROR_CAUSE_DEPTH - step else 0
  {
    !TooDeep(cfg, depth) &&
    if IsError(h, v) then
      var cause := h[v.ref].cause;
      assert NodeIn(h[v.ref], h.Keys);
      step < MAX_ERROR_CAUSE_DEPTH && !IsSensitiveKey(Units("cause"), cfg.tokens) &&
      ErrorExposes(h, cause, cfg, step + 1, depth + 1)
    else v.Object? && !IsSensitiveKey(Units("message"), cfg.tokens) && JsonExposes(h, v, cfg)
  }

  /** The walk copies this value, and it is an error that exposes hidden values. */
  predicate ShownError(h: Heap, v: Value, cfg: Config, above: set<Ref>, depth: int)
    requires Closed(h) && ValueIn(v, h.Keys)
  {
    IsError(h, v) && v.ref !in above && !TooDeep(cfg, depth) && ErrorExposes(h, v, cfg, 0, depth + 1)
  }

  /** The steps lead to such an error. */
  predicate ExposedAt(h: Heap, v: Value, cfg: Config, above: set<Ref>, depth: int, steps: seq<Step>)
    requires Closed(h) && ValueIn(v, h.Keys)
  {
    var end := Descend(h, v, steps, cfg, above);
    end.Some? && ValueIn(end.value.0, h.Keys) && ShownError(h, end.value.0, cfg, end.value.1, depth + |steps|)
  }

  /** No steps lead to one. */
  ghost predicate Guarded(h: Heap, v: Value, cfg: Config, above: set<Ref>, depth: int)
    requires Closed(h) && ValueIn(v, h.Keys)
  {
    forall steps: seq<Step> :: !ExposedAt(h, v, cfg, above, depth, steps)
  }

  /**
   * Some error that the record shows has, within the depth its causes are followed to, a cause that is
   * an object whose JSON reads a value under a sensitive key or past the length limit.
   */
  ghost predicate Exposed(h: Heap, v: Value, cfg: Config)
    requires Closed(h) && ValueIn(v, h.Keys)
  {
    !Guarded(h, v, cfg, {}, 0)
  }

  // ----------------------------------------------------------- what heaps that agree share

  /** Whether the walk throws does not depend on hidden values. */
  lemma {:induction false} SameThrow(h: Heap, g: Heap, v: Value, cfg: Config, R: set<Ref>, path: set<Ref>, depth: int)
    requires Closed(h) && Closed(g) && Agree(h, g, cfg, R) && ValueIn(v, R)
    requires ValueIn(v, h.Keys) && ValueIn(v, g.Keys)
    ensures Walk(h, v, cfg, path, depth).Some? == Walk(g, v, cfg, path, depth).Some?
    decreases h.Keys - path, 0, 0
  {
    hide IsSensitiveKey, Decimal, WalkItems, WalkEntries, Agree, Closed, WalkError, SerializeError;
    if v.Object? && !TooDeep(cfg, depth) && v.ref !in path {
      AgreeAt(h, g, cfg, R, v.ref);
      var m, n := h[v.ref], g[v.ref];
      var below := path + {v.ref};
      assert v.ref in h.Keys - path && v.ref !in h.Keys - below;
      if m.Array? || m.Set? {
        SameItemsThrow(h, g, m.items, n.items, Emitted(|m.items|, cfg), cfg, R, below, depth + 1);
      } else if m.MapNode? {
        SameEntriesThrow(h, g, m.entries, n.entries, Emitted(|m.entries|, cfg), cfg, R, below, depth + 1);
      } else if m.Plain? {
        SameEntriesThrow(h, g, m.entries, n.entries, |m.entries|, cfg, R, below, depth + 1);
      }
    }
  }

  lemma {:induction false} SameItemsThrow(h: Heap, g: Heap, a: seq<Value>, b: seq<Value>, k: nat, cfg: Config,
                                          R: set<Ref>, path: set<Ref>, depth: int)
    requires Closed(h) && Closed(g) && Agree(h, g, cfg, R)
    requires ItemsIn(a, h.Keys) && ItemsIn(b, g.Keys) && SameItems(a, b, k, R)
    ensures WalkItems(h, a, k, cfg, path, depth).Some? == WalkItems(g, b, k, cfg, path, depth).Some?
    decreases h.Keys - path, 1, k
  {
    hide Walk, Agree, Closed;
    if k > 0 {
      SameItemsThrow(h, g, a, b, k - 1, cfg, R, path, depth);
      assert SameValue(a[k - 1], b[k - 1], R);
      SameThrow(h, g, a[k - 1], cfg, R, path, depth);
    }
  }

  lemma {:induction false} SameEntriesThrow(h: Heap, g: Heap, a: seq<(Text, Value)>, b: seq<(Text, Value)>, k: nat,
                                            cfg: Config, R: set<Ref>, path: set<Ref>, depth: int)
    requires Closed(h) && Closed(g) && Agree(h, g, cfg, R)
    requires EntriesIn(a, h.Keys) && EntriesIn(b, g.Keys) && SameEntries(a, b, k, cfg, R)
    ensures WalkEntries(h, a, k, cfg, path, depth).Some? == WalkEntries(g, b, k, cfg, path, depth).Some?
    decreases h.Keys - path, 1, k
  {
    hide Walk, Agree, Closed, IsSensitiveKey;
    if k > 0 {
      SameEntriesThrow(h, g, a, b, k - 1, cfg, R, path, depth);
      if !IsSensitiveKey(a[k - 1].0, cfg.tokens) {
        assert SameValue(a[k - 1].1, b[k - 1].1, R);
        SameThrow(h, g, a[k - 1].1, cfg, R, path, depth);
      }
    }
  }

  lemma {:induction false} SameLastEntry(a: seq<(Text, Value)>, b: seq<(Text, Value)>, k: nat, cfg: Config, R: set<Ref>,
                                         key: Text)
    requires SameEntries(a, b, k, cfg, R) && !IsSensitiveKey(key, cfg.tokens)
    ensures LastEntry(a, k, key) == LastEntry(b, k, key)
    ensures LastEntry(a, k, key).Some? ==> ValueIn(LastEntry(a, k, key).value, R)
  {
    hide IsSensitiveKey;
    if k > 0 {
      assert a[k - 1].0 == b[k - 1].0;
      SameLastEntry(a, b, k - 1, cfg, R, key);
    }
  }

  /** Both heaps show the same value at a step, and it leads into R. */
  lemma SameShown(h: Heap, g: Heap, cfg: Config, R: set<Ref>, r: Ref, step: Step)
    requires Closed(h) && Closed(g) && Agree(h, g, cfg, R) && r in R && r in h && r in g
    ensures Shown(h[r], step, cfg) == Shown(g[r], step, cfg)
    ensures Shown(h[r], step, cfg).Some? ==> ValueIn(Shown(h[r], step, cfg).value, R)
  {
    hide IsSensitiveKey, Agree, Closed;
    AgreeAt(h, g, cfg, R, r);
    var m, n := h[r], g[r];
    match step
    case Item(i) =>
      if (m.Array? || m.Set?) && i < Emitted(|m.items|, cfg) { assert SameValue(m.items[i], n.items[i], R); }
    case Field(key) =>
      if !IsSensitiveKey(key, cfg.tokens) {
        if m.Plain? { SameLastEntry(m.entries, n.entries, |m.entries|, cfg, R, key); }
        else if m.MapNode? { SameLastEntry(m.entries, n.entries, Emitted(|m.entries|, cfg), cfg, R, key); }
      }
  }

  lemma {:induction false} SameDescend(h: Heap, g: Heap, v: Value, steps: seq<Step>, cfg: Config, R: set<Ref>, above: set<Ref>)
    requires Closed(h) && Closed(g) && Agree(h, g, cfg, R) && ValueIn(v, R)
    requires ValueIn(v, h.Keys) && ValueIn(v, g.Keys)
    ensures Descend(h, v, steps, cfg, above) == Descend(g, v, steps, cfg, above)
    ensures Descend(h, v, steps, cfg, above).Some? ==> ValueIn(Descend(h, v, steps, cfg, above).value.0, R)
    decreases |steps|
  {
    hide Agree, Closed, Shown;
    if steps != [] && v.Object? && v.ref !in above {
      SameShown(h, g, cfg, R, v.ref, steps[0]);
      ShownIsIn(h, v.ref, steps[0], cfg);
      ShownIsIn(g, v.ref, steps[0], cfg);
      var child := Shown(h[v.ref], steps[0], cfg);
      if child.Some? { SameDescend(h, g, child.value, steps[1..], cfg, R, above + {v.ref}); }
    }
  }

  // ------------------------------------------------- not exposed: the records agree

  /** Serialized errors that expose nothing are copied alike. */
  lemma {:induction false} ErrorAlike(h: Heap, g: Heap, v: Value, cfg: Config, R: set<Ref>, step: nat, depth: int)
    requires Closed(h) && Closed(g) && Agree(h, g, cfg, R) && ValueIn(v, R)
    requires ValueIn(v, h.Keys) && ValueIn(v, g.Keys) && !ErrorExposes(h, v, cfg, step, depth)
    ensures WalkError(SerializeError(h, v, step), cfg, depth) == WalkError(SerializeError(g, v, step), cfg, depth)
    decreases if step < MAX_ERROR_CAUSE_DEPTH then MAX_ERROR_CAUSE_DEPTH - step else 0
  {
    hide IsSensitiveKey, Agree, Closed, DescribeNonError, JsonExposes, Put;
    if v.Object? { AgreeAt(h, g, cfg, R, v.ref); }
    if !TooDeep(cfg, depth) {
      if IsError(h, v) {
        var cause := h[v.ref].cause;
        assert SameValue(cause, g[v.ref].cause, R);
        if cause != Undefined && step < MAX_ERROR_CAUSE_DEPTH && !IsSensitiveKey(Units("cause"), cfg.tokens) {
          ErrorAlike(h, g, cause, cfg, R, step + 1, depth + 1);
        }
      } else if v.Object? ==> !JsonExposes(h, v, cfg) {
        DescribedAlike(h, g, v, cfg, R);
      }
    }
  }

  /** Nothing below the value is exposed either. */
  lemma BelowNotExposed(h: Heap, v: Value, cfg: Config, path: set<Ref>, depth: int, step: Step)
    requires Closed(h) && ValueIn(v, h.Keys) && v.Object? && v.ref !in path && Shown(h[v.ref], step, cfg).Some?
    requires Guarded(h, v, cfg, path, depth)
    ensures ValueIn(Shown(h[v.ref], step, cfg).value, h.Keys)
    ensures Guarded(h, Shown(h[v.ref], step, cfg).value, cfg, path + {v.ref}, depth + 1)
  {
    hide Shown, ShownError, Closed;
    ShownIsIn(h, v.ref, step, cfg);
    var child := Shown(h[v.ref], step, cfg).value;
    var below, deeper := path + {v.ref}, depth + 1;
    forall steps ensures !ExposedAt(h, child, cfg, below, deeper, steps) {
      assert !ExposedAt(h, v, cfg, path, depth, [step] + steps);
      assert ([step] + steps)[1..] == steps;
    }
  }

  /** Copies of lists are equal when the copies of their shown items are. */
  lemma ListsAlike(h: Heap, g: Heap, a: seq<Value>, b: seq<Value>, k: nat, cfg: Config, R: set<Ref>, path: set<Ref>,
                   depth: int)
    requires Closed(h) && Closed(g) && Agree(h, g, cfg, R)
    requires ItemsIn(a, h.Keys) && ItemsIn(b, g.Keys) && SameItems(a, b, k, R)
    requires forall i :: 0 <= i < k ==> Walk(h, a[i], cfg, path, depth) == Walk(g, b[i], cfg, path, depth)
    ensures WalkItems(h, a, k, cfg, path, depth) == WalkItems(g, b, k, cfg, path, depth)
  {
    hide Walk, WalkItems, Agree, Closed;
    SameItemsThrow(h, g, a, b, k, cfg, R, path, depth);
    if WalkItems(h, a, k, cfg, path, depth).Some? {
      var x, y := WalkItems(h, a, k, cfg, path, depth).value, WalkItems(g, b, k, cfg, path, depth).value;
      forall i | 0 <= i < k ensures x[i] == y[i] {
        ItemCopy(h, a, i, k, cfg, path, depth);
        ItemCopy(g, b, i, k, cfg, path, depth);
      }
      assert x == y;
    }
  }

  lemma {:induction false} SensitiveCopy(h: Heap, entries: seq<(Text, Value)>, key: Text, k: nat, cfg: Config,
                                         path: set<Ref>, depth: int)
    requires Closed(h) && EntriesIn(entries, h.Keys) && k <= |entries| && WalkEntries(h, entries, k, cfg, path, depth).Some?
    requires IsSensitiveKey(key, cfg.tokens) && key in WalkEntries(h, entries, k, cfg, path, depth).value
    ensures WalkEntries(h, entries, k, cfg, path, depth).value[key] == OutText(cfg.placeholder)
    decreases k
  {
    hide Walk, Closed, IsSensitiveKey;
    if k > 0 && (entries[k - 1].0 != key || key == PROTO_KEY) { SensitiveCopy(h, entries, key, k - 1, cfg, path, depth); }
  }

  lemma {:induction false} HasLastEntry(entries: seq<(Text, Value)>, k: nat, key: Text)
    requires k <= |entries| && key in KeysOf(entries, k)
    ensures LastEntry(entries, k, key).Some? && key != PROTO_KEY
  {
    if k > 0 && entries[k - 1].0 != key { HasLastEntry(entries, k - 1, key); }
  }

  lemma SameKeysOf(a: seq<(Text, Value)>, b: seq<(Text, Value)>, k: nat, cfg: Config, R: set<Ref>)
    requires SameEntries(a, b, k, cfg, R)
    ensures KeysOf(a, k) == KeysOf(b, k)
  {
    hide IsSensitiveKey;
    assert forall i :: 0 <= i < k ==> a[i].0 == b[i].0;
  }

  /** Copies of records agree on every key under which the shown values are copied alike. */
  lemma FieldAlike(h: Heap, g: Heap, a: seq<(Text, Value)>, b: seq<(Text, Value)>, k: nat, cfg: Config, R: set<Ref>,
                   path: set<Ref>, depth: int, key: Text)
    requires Closed(h) && Closed(g) && Agree(h, g, cfg, R)
    requires EntriesIn(a, h.Keys) && EntriesIn(b, g.Keys) && SameEntries(a, b, k, cfg, R)
    requires WalkEntries(h, a, k, cfg, path, depth).Some? && WalkEntries(g, b, k, cfg, path, depth).Some?
    requires var v := LastEntry(a, k, key);
             !IsSensitiveKey(key, cfg.tokens) && key != PROTO_KEY && v.Some? ==>
               ValueIn(v.value, h.Keys) && ValueIn(v.value, g.Keys) &&
               Walk(h, v.value, cfg, path, depth) == Walk(g, v.value, cfg, path, depth)
    ensures var x, y := WalkEntries(h, a, k, cfg, path, depth).value, WalkEntries(g, b, k, cfg, path, depth).value;
            x.Keys == y.Keys && (key in x ==> x[key] == y[key])
  {
    hide Walk, WalkEntries, Agree, Closed, IsSensitiveKey, KeysOf, LastEntry;
    FieldKeys(h, a, k, cfg, path, depth);
    FieldKeys(g, b, k, cfg, path, depth);
    SameKeysOf(a, b, k, cfg, R);
    if key in WalkEntries(h, a, k, cfg, path, depth).value {
      if IsSensitiveKey(key, cfg.tokens) {
        SensitiveCopy(h, a, key, k, cfg, path, depth);
        SensitiveCopy(g, b, key, k, cfg, path, depth);
      } else {
        HasLastEntry(a, k, key);
        SameLastEntry(a, b, k, cfg, R, key);
        FieldCopy(h, a, key, k, cfg, path, depth);
        FieldCopy(g, b, key, k, cfg, path, depth);
      }
    }
  }

  /** Where no error exposes them, hidden values do not influence the copy: at any depth, below any path. */
  lemma {:induction false} NonInterference(h: Heap, g: Heap, v: Value, cfg: Config, R: set<Ref>, path: set<Ref>, depth: int)
    requires Closed(h) && Closed(g) && Agree(h, g, cfg, R) && ValueIn(v, R)
    requires ValueIn(v, h.Keys) && ValueIn(v, g.Keys) && Guarded(h, v, cfg, path, depth)
    ensures Walk(h, v, cfg, path, depth) == Walk(g, v, cfg, path, depth)
    decreases h.Keys - path
  {
    hide IsSensitiveKey, Decimal, WalkItems, WalkEntries, Agree, Closed, WalkError, SerializeError, Guarded, Shown, ErrorExposes;
    if v.Object? && !TooDeep(cfg, depth) && v.ref !in path {
      AgreeAt(h, g, cfg, R, v.ref);
      var m, n := h[v.ref], g[v.ref];
      var below := path + {v.ref};
      assert v.ref in h.Keys - path && v.ref !in h.Keys - below;
      if m.Array? || m.Set? {
        forall i | 0 <= i < Emitted(|m.items|, cfg)
          ensures Walk(h, m.items[i], cfg, below, depth + 1) == Walk(g, n.items[i], cfg, below, depth + 1)
        {
          ItemShown(m, i, cfg);
          assert SameValue(m.items[i], n.items[i], R);
          BelowNotExposed(h, v, cfg, path, depth, Item(i));
          NonInterference(h, g, m.items[i], cfg, R, below, depth + 1);
        }
        ListsAlike(h, g, m.items, n.items, Emitted(|m.items|, cfg), cfg, R, below, depth + 1);
      } else if m.MapNode? || m.Plain? {
        SameThrow(h, g, v, cfg, R, path, depth);
        forall key | Shown(m, Field(key), cfg).Some?
          ensures var w := Shown(m, Field(key), cfg).value;
                  ValueIn(w, h.Keys) && ValueIn(w, g.Keys) && Walk(h, w, cfg, below, depth + 1) == Walk(g, w, cfg, below, depth + 1)
        {
          SameShown(h, g, cfg, R, v.ref, Field(key));
          BelowNotExposed(h, v, cfg, path, depth, Field(key));
          ShownIsIn(g, v.ref, Field(key), cfg);
          NonInterference(h, g, Shown(m, Field(key), cfg).value, cfg, R, below, depth + 1);
        }
        RecordsAlike(h, g, v, cfg, R, path, depth);
      } else if m.Error? {
        NotShownError(h, v, cfg, path, depth);
        ErrorAlike(h, g, v, cfg, R, 0, depth + 1);
      }
    }
  }

  lemma ItemShown(n: Node, i: nat, cfg: Config)
    requires (n.Array? || n.Set?) && i < Emitted(|n.items|, cfg)
    ensures Shown(n, Item(i), cfg) == Some(n.items[i])
  {
  }

  lemma NotShownError(h: Heap, v: Value, cfg: Config, path: set<Ref>, depth: int)
    requires Closed(h) && IsError(h, v) && v.ref !in path && !TooDeep(cfg, depth) && Guarded(h, v, cfg, path, depth)
    ensures !ErrorExposes(h, v, cfg, 0, depth + 1)
  {
    hide ErrorExposes, Closed;
    assert !ExposedAt(h, v, cfg, path, depth, []);
  }

  /** Copies of objects with keys are equal when the copies of their shown values are. */
  lemma RecordsAlike(h: Heap, g: Heap, v: Value, cfg: Config, R: set<Ref>, path: set<Ref>, depth: int)
    requires Closed(h) && Closed(g) && Agree(h, g, cfg, R) && v.Object? && v.ref in R
    requires v.ref in h && v.ref in g && v.ref !in path && !TooDeep(cfg, depth)
    requires h[v.ref].MapNode? || h[v.ref].Plain?
    requires Walk(h, v, cfg, path, depth).Some? == Walk(g, v, cfg, path, depth).Some?
    requires forall key :: Shown(h[v.ref], Field(key), cfg).Some? ==>
               var w := Shown(h[v.ref], Field(key), cfg).value;
               ValueIn(w, h.Keys) && ValueIn(w, g.Keys) &&
               Walk(h, w, cfg, path + {v.ref}, depth + 1) == Walk(g, w, cfg, path + {v.ref}, depth + 1)
    ensures Walk(h, v, cfg, path, depth) == Walk(g, v, cfg, path, depth)
  {
    AgreeAt(h, g, cfg, R, v.ref);
    if Walk(h, v, cfg, path, depth).Some? {
      hide IsSensitiveKey, WalkItems, WalkEntries, Agree, Closed, LastEntry, KeysOf, Decimal;
      var m, n := h[v.ref], g[v.ref];
      var below := path + {v.ref};
      var k := if m.Plain? then |m.entries| else Emitted(|m.entries|, cfg);
      var x, y := WalkEntries(h, m.entries, k, cfg, below, depth + 1).value, WalkEntries(g, n.entries, k, cfg, below, depth + 1).value;
      var cut := m.MapNode? && k < |m.entries|;
      forall key | !(cut && key == TRUNCATED_KEY) ensures x.Keys == y.Keys && (key in x ==> x[key] == y[key]) {
        assert !IsSensitiveKey(key, cfg.tokens) && key != PROTO_KEY ==>
                 Shown(m, Field(key), cfg) == LastEntry(m.entries, k, key);
        FieldAlike(h, g, m.entries, n.entries, k, cfg, R, below, depth + 1, key);
      }
      KeysAlike(h, g, m.entries, n.entries, k, cfg, R, below, depth + 1);
      assert TRUNCATED_KEY[0] != PROTO_KEY[0];
      assert !cut ==> x == y;
      assert cut ==> TruncatedFields(x, |m.entries|, cfg) == TruncatedFields(y, |m.entries|, cfg);
    }
  }

  lemma KeysAlike(h: Heap, g: Heap, a: seq<(Text, Value)>, b: seq<(Text, Value)>, k: nat, cfg: Config, R: set<Ref>,
                  path: set<Ref>, depth: int)
    requires Closed(h) && Closed(g) && EntriesIn(a, h.Keys) && EntriesIn(b, g.Keys) && SameEntries(a, b, k, cfg, R)
    requires WalkEntries(h, a, k, cfg, path, depth).Some? && WalkEntries(g, b, k, cfg, path, depth).Some?
    ensures WalkEntries(h, a, k, cfg, path, depth).value.Keys == WalkEntries(g, b, k, cfg, path, depth).value.Keys
  {
    hide WalkEntries, IsSensitiveKey, KeysOf, Closed;
    FieldKeys(h, a, k, cfg, path, depth);
    FieldKeys(g, b, k, cfg, path, depth);
    SameKeysOf(a, b, k, cfg, R);
  }

  // --------------------------------------------------- exposed: some records differ

  /** Strings are left as they are, up to a renaming: the key layer on its own. */
  ghost predicate KeepsTexts(cfg: Config) {
    forall a, b :: cfg.scrub(a) == cfg.scrub(b) ==> a == b
  }

  lemma ErrorKeysApart()
    ensures Units("name") != PROTO_KEY && Units("message") != PROTO_KEY && Units("stack") != PROTO_KEY
    ensures Units("cause") != PROTO_KEY && Units("message") != Units("stack") && Units("message") != Units("cause")
  {
    assert PROTO_KEY[0] == 95;
    assert Units("name")[0] == 110 && Units("message")[0] == 109 && Units("stack")[0] == 115 && Units("cause")[0] == 99;
  }

  lemma CauseField(e: Serialized, cfg: Config, depth: int)
    requires !TooDeep(cfg, depth) && e.cause.Some? && !IsSensitiveKey(Units("cause"), cfg.tokens)
    ensures Child(WalkError(e, cfg, depth), Field(Units("cause"))) == Some(WalkError(e.cause.value, cfg, depth + 1))
  {
    hide IsSensitiveKey;
    ErrorKeysApart();
  }

  lemma MessageField(e: Serialized, cfg: Config, depth: int)
    requires !TooDeep(cfg, depth) && e.cause.None? && e.stack.None? && !IsSensitiveKey(Units("message"), cfg.tokens)
    ensures Child(WalkError(e, cfg, depth), Field(Units("message"))) == Some(OutText(cfg.scrub(e.message)))
  {
    hide IsSensitiveKey;
    ErrorKeysApart();
  }

  lemma {:induction false} ErrorApart(h: Heap, v: Value, cfg: Config, step: nat, depth: int)
    requires Proper(h) && BothMasked(h, cfg) && ValueIn(v, h.Keys) && KeepsTexts(cfg)
    requires ErrorExposes(h, v, cfg, step, depth)
    ensures WalkError(SerializeError(Masked(h, cfg, []), v, step), cfg, depth)
         != WalkError(SerializeError(Masked(h, cfg, ONE), v, step), cfg, depth)
    decreases if step < MAX_ERROR_CAUSE_DEPTH then MAX_ERROR_CAUSE_DEPTH - step else 0
  {
    hide IsSensitiveKey, DescribeNonError, JsonExposes, WalkError, Child, Proper, Closed;
    var g1, g2 := Masked(h, cfg, []), Masked(h, cfg, ONE);
    assert IsError(g1, v) == IsError(h, v) == IsError(g2, v);
    if IsError(h, v) {
      assert g1[v.ref] == h[v.ref] == g2[v.ref];
      ErrorIn(h, v);
      hide Masked;
      var cause := h[v.ref].cause;
      assert cause != Undefined;
      ErrorApart(h, cause, cfg, step + 1, depth + 1);
      CauseField(SerializeError(g1, v, step), cfg, depth);
      CauseField(SerializeError(g2, v, step), cfg, depth);
    } else {
      hide Masked;
      ExposedDescribedApart(h, v, cfg);
      MessageField(SerializeError(g1, v, step), cfg, depth);
      MessageField(SerializeError(g2, v, step), cfg, depth);
    }
  }

  lemma ErrorIn(h: Heap, v: Value)
    requires Closed(h) && IsError(h, v)
    ensures ValueIn(h[v.ref].cause, h.Keys)
  {
    assert NodeIn(h[v.ref], h.Keys);
  }

  /** Two heaps that differ in hidden values only, and whose records differ at an exposed error. */
  lemma ExposureShows(h: Heap, v: Value, cfg: Config, R: set<Ref>, steps: seq<Step>)
    requires Closed(h) && Proper(h) && Agree(h, h, cfg, R) && ValueIn(v, R) && ValueIn(v, h.Keys) && KeepsTexts(cfg)
    requires RedactValue(h, v, cfg).Some? && ExposedAt(h, v, cfg, {}, 0, steps)
    ensures BothMasked(h, cfg) && Agree(h, Masked(h, cfg, []), cfg, R) && Agree(h, Masked(h, cfg, ONE), cfg, R)
    ensures RedactValue(Masked(h, cfg, []), v, cfg) != RedactValue(Masked(h, cfg, ONE), v, cfg)
  {
    hide IsSensitiveKey, Agree, Masked, Proper, Closed, Descend, OutAt, ErrorExposes, WalkError, SerializeError;
    var g1, g2 := Masked(h, cfg, []), Masked(h, cfg, ONE);
    MaskedClosed(h, cfg, []);
    MaskedClosed(h, cfg, ONE);
    MaskedAgrees(h, cfg, [], R);
    MaskedAgrees(h, cfg, ONE, R);
    SameThrow(h, g1, v, cfg, R, {}, 0);
    SameThrow(h, g2, v, cfg, R, {}, 0);
    SameDescend(h, g1, v, steps, cfg, R, {});
    SameDescend(h, g2, v, steps, cfg, R, {});
    var (w, above) := Descend(h, v, steps, cfg, {}).value;
    ErrorApart(h, w, cfg, 0, |steps| + 1);
    MaskedError(h, w, cfg, []);
    MaskedError(h, w, cfg, ONE);
    hide ExposedAt;
    Located(g1, v, steps, cfg, {}, 0);
    Located(g2, v, steps, cfg, {}, 0);
    ErrorCopy(g1, w, cfg, above, |steps|);
    ErrorCopy(g2, w, cfg, above, |steps|);
  }

  lemma MaskedError(h: Heap, v: Value, cfg: Config, s: Text)
    requires IsError(h, v)
    ensures IsError(Masked(h, cfg, s), v)
  {
  }

  lemma ErrorCopy(h: Heap, v: Value, cfg: Config, above: set<Ref>, depth: int)
    requires Closed(h) && IsError(h, v) && v.ref !in above && !TooDeep(cfg, depth)
    ensures Walk(h, v, cfg, above, depth) == Some(WalkError(SerializeError(h, v, 0), cfg, depth + 1))
  {
    hide WalkError, SerializeError;
  }

  // ---------------------------------------------------------------------- exactly when

  /** Whatever the hidden values are, the record is the same. */
  ghost predicate Hides(h: Heap, v: Value, cfg: Config, R: set<Ref>)
    requires Closed(h) && ValueIn(v, h.Keys)
  {
    forall g: Heap :: Closed(g) && Agree(h, g, cfg, R) && ValueIn(v, g.Keys) ==>
      RedactValue(g, v, cfg) == RedactValue(h, v, cfg)
  }

  /** Whatever scrubbing does to strings: a value that exposes nothing keeps its hidden values to itself. */
  lemma UnexposedHides(h: Heap, v: Value, cfg: Config, R: set<Ref>)
    requires Closed(h) && ValueIn(v, R) && ValueIn(v, h.Keys) && !Exposed(h, v, cfg)
    ensures Hides(h, v, cfg, R)
  {
    hide Agree, Closed, Walk, Guarded;
    forall g: Heap | Closed(g) && Agree(h, g, cfg, R) && ValueIn(v, g.Keys)
      ensures RedactValue(g, v, cfg) == RedactValue(h, v, cfg)
    {
      NonInterference(h, g, v, cfg, R, {}, 0);
    }
  }

  /**
   * With the key layer on its own: hidden values stay hidden if and only if no error that the record
   * shows has an object cause whose JSON reads one; or reading the value throws, and there is no record.
   */
  lemma HidesExactly(h: Heap, v: Value, cfg: Config, R: set<Ref>)
    requires Closed(h) && Proper(h) && Agree(h, h, cfg, R) && ValueIn(v, R) && ValueIn(v, h.Keys) && KeepsTexts(cfg)
    ensures Hides(h, v, cfg, R) <==> RedactValue(h, v, cfg).None? || !Exposed(h, v, cfg)
  {
    hide Agree, Closed, Proper, Walk, KeepsTexts, ExposedAt, Masked;
    if RedactValue(h, v, cfg).None? {
      forall g: Heap | Closed(g) && Agree(h, g, cfg, R) && ValueIn(v, g.Keys)
        ensures RedactValue(g, v, cfg) == RedactValue(h, v, cfg)
      {
        SameThrow(h, g, v, cfg, R, {}, 0);
      }
    } else if !Exposed(h, v, cfg) {
      UnexposedHides(h, v, cfg, R);
    } else {
      var steps :| ExposedAt(h, v, cfg, {}, 0, steps);
      ExposureShows(h, v, cfg, R, steps);
    }
  }

  /** A heap without errors exposes nothing. */
  lemma NoErrorsNoExposure(h: Heap, v: Value, cfg: Config)
    requires Closed(h) && ValueIn(v, h.Keys) && forall r :: r in h ==> !h[r].Error?
    ensures !Exposed(h, v, cfg)
  {
    hide Closed, ErrorExposes, Descend;
  }

  // ------------------------------------------------------------------------- at an input

  /** `new Error('x', { cause: { password } })` */
  function LeakingHeap(password: Text): Heap {
    map[0 := Error(Units("Error"), Units("x"), None, Object(1)), 1 := Plain([(Units("password"), Str(password))])]
  }

  function PasswordJson(password: Text): Json {
    JsonText.Object([(Units("password"), JsonText.Str(password))])
  }

  lemma OneProperty(h: Heap, key: Text, s: Text, above: set<Ref>)
    requires Closed(h)
    ensures EntriesJson(h, [(key, Str(s))], 1, above) == Some([(key, JsonText.Str(s))])
  {
    hide Closed;
    var entries := [(key, Str(s))];
    StringPrints(h, s, above);
    hide ToJson;
    assert EntriesJson(h, entries, 0, above) == Some([]);
    assert ToJson(h, entries[0].1, above) == Tree(JsonText.Str(s));
    assert [] + [(key, JsonText.Str(s))] == [(key, JsonText.Str(s))];
  }

  lemma LeakingCause(password: Text)
    ensures Closed(LeakingHeap(password)) && ValueIn(Object(0), LeakingHeap(password).Keys)
    ensures SerializeError(LeakingHeap(password), Object(0), 0)
         == Serialized(Units("Error"), Units("x"), None,
                       Some(Serialized(Units("NonError"), JsonText.Print(PasswordJson(password)), None, None)))
  {
    hide JsonText.Print;
    var h := LeakingHeap(password);
    var entries := [(Units("password"), Str(password))];
    assert Units("Error") != [] by { assert |Units("Error")| == 5; }
    assert NodeIn(h[0], h.Keys) && NodeIn(h[1], h.Keys);
    assert {} + {1} == {1};
    OneProperty(h, Units("password"), password, {1});
    assert ToJson(h, Object(1), {}) == Tree(PasswordJson(password));
    assert DescribeNonError(h, Object(1)) == JsonText.Print(PasswordJson(password));
  }

  /**
   * With the default fragments and limits the record of that error shows the password, whatever it is:
   * its cause's message is the JSON text of the cause, as far as scrubbing leaves it.
   */
  lemma CauseShowsPassword(password: Text, cfg: Config)
    requires cfg.tokens == DEFAULT_SENSITIVE_KEY_TOKENS && cfg.maxDepth == Some(DEFAULT_MAX_DEPTH)
    ensures Closed(LeakingHeap(password)) && ValueIn(Object(0), LeakingHeap(password).Keys)
    ensures RedactValue(LeakingHeap(password), Object(0), cfg).Some?
    ensures OutAt(RedactValue(LeakingHeap(password), Object(0), cfg).value, [Field(Units("cause")), Field(Units("message"))])
         == Some(OutText(cfg.scrub(JsonText.Print(PasswordJson(password)))))
  {
    hide IsSensitiveKey, WalkError, SerializeError, JsonText.Print;
    LeakingCause(password);
    ErrorFieldsSpared();
    var h := LeakingHeap(password);
    var e := SerializeError(h, Object(0), 0);
    ErrorCopy(h, Object(0), cfg, {}, 0);
    CauseField(e, cfg, 1);
    MessageField(e.cause.value, cfg, 2);
    assert [Field(Units("cause")), Field(Units("message"))][1..] == [Field(Units("message"))];
    assert [Field(Units("message"))][1..] == [];
  }

  /** So two errors that differ in the password alone give different records, when scrubbing tells the two texts apart. */
  lemma PasswordsTellApart(p: Text, q: Text, cfg: Config)
    requires cfg.tokens == DEFAULT_SENSITIVE_KEY_TOKENS && cfg.maxDepth == Some(DEFAULT_MAX_DEPTH)
    requires p != q && (cfg.scrub(JsonText.Print(PasswordJson(p))) == cfg.scrub(JsonText.Print(PasswordJson(q))) ==>
                          JsonText.Print(PasswordJson(p)) == JsonText.Print(PasswordJson(q)))
    ensures Closed(LeakingHeap(p)) && Closed(LeakingHeap(q)) && Agree(LeakingHeap(p), LeakingHeap(q), cfg, {0, 1})
    ensures ValueIn(Object(0), LeakingHeap(p).Keys) && ValueIn(Object(0), LeakingHeap(q).Keys)
    ensures RedactValue(LeakingHeap(p), Object(0), cfg) != RedactValue(LeakingHeap(q), Object(0), cfg)
  {
    hide IsSensitiveKey, JsonText.Print, Walk, OutAt;
    PasswordIsSensitive();
    CauseShowsPassword(p, cfg);
    CauseShowsPassword(q, cfg);
    JsonText.PrintRoundTrip(PasswordJson(p));
    JsonText.PrintRoundTrip(PasswordJson(q));
  }
}
