/**
 * Heaps that differ only in hidden values - under sensitive keys, and past the length
 * limit - and what the JSON text of a value tells of them.
 */
module HiddenValues {
  import opened Common
  import opened LogValues
  import opened ErrorSerialization
  import opened Redaction
  import JsonText

  /** Equal values that lead only to references of R. */
  predicate SameValue(v: Value, w: Value, R: set<Ref>) {
    v == w && ValueIn(v, R)
  }

  /** Equal up to the limit, and of equal length. */
  predicate SameItems(a: seq<Value>, b: seq<Value>, k: nat, R: set<Ref>) {
    |a| == |b| && k <= |a| && forall i :: 0 <= i < k ==> SameValue(a[i], b[i], R)
  }

  /** Equal keys up to the limit; under a sensitive key the values are unrelated. */
  predicate SameEntries(a: seq<(Text, Value)>, b: seq<(Text, Value)>, k: nat, cfg: Config, R: set<Ref>) {
    |a| == |b| && k <= |a| &&
    forall i :: 0 <= i < k ==>
      a[i].0 == b[i].0 && (IsSensitiveKey(a[i].0, cfg.tokens) || SameValue(a[i].1, b[i].1, R))
  }

  predicate SameNode(m: Node, n: Node, cfg: Config, R: set<Ref>) {
    match (m, n)
    case (Array(a), Array(b)) => SameItems(a, b, Emitted(|a|, cfg), R)
    case (Set(a), Set(b)) => SameItems(a, b, Emitted(|a|, cfg), R)
    case (MapNode(a), MapNode(b)) => SameEntries(a, b, Emitted(|a|, cfg), cfg, R)
    case (Plain(a), Plain(b)) => SameEntries(a, b, |a|, cfg, R)
    case (Error(name, message, stack, c), Error(name', message', stack', c')) =>
      name == name' && message == message' && stack == stack' && SameValue(c, c', R)
    case _ => m == n
  }

  /** The heaps agree on R, except in hidden values. */
  predicate Agree(h: Heap, g: Heap, cfg: Config, R: set<Ref>) {
    R <= h.Keys && R <= g.Keys && forall r :: r in R ==> SameNode(h[r], g[r], cfg, R)
  }

  /** What is needed of one reference of R. */
  lemma AgreeAt(h: Heap, g: Heap, cfg: Config, R: set<Ref>, r: Ref)
    requires Closed(h) && Closed(g) && Agree(h, g, cfg, R) && r in R
    ensures r in h && r in g && SameNode(h[r], g[r], cfg, R) && NodeIn(h[r], h.Keys) && NodeIn(g[r], g.Keys)
  {
  }

  // --------------------------------------------------------------- exposed by JSON

  /** Printing the value as JSON would read a hidden value. */
  predicate ReadsHidden(h: Heap, v: Value, cfg: Config, above: set<Ref>)
    requires Closed(h) && ValueIn(v, h.Keys)
    decreases h.Keys - above
  {
    v.Object? && v.ref !in above &&
    var n := h[v.ref];
    assert NodeIn(n, h.Keys);
    assert v.ref in h.Keys - above && v.ref !in h.Keys - (above + {v.ref});
    match n
    case Array(items) =>
      |items| > Emitted(|items|, cfg) || exists i :: 0 <= i < |items| && ReadsHidden(h, items[i], cfg, above + {v.ref})
    case Plain(entries) =>
      exists i :: 0 <= i < |entries| &&
        (IsSensitiveKey(entries[i].0, cfg.tokens) || ReadsHidden(h, entries[i].1, cfg, above + {v.ref}))
    case _ => false
  }

  /** Printing it as JSON throws, whatever the hidden values are: it meets a cycle or a big integer without them. */
  predicate SurelyThrows(h: Heap, v: Value, cfg: Config, above: set<Ref>)
    requires Closed(h) && ValueIn(v, h.Keys)
    decreases h.Keys - above
  {
    v.BigInt? ||
    (v.Object? &&
     (v.ref in above ||
      var n := h[v.ref];
      assert NodeIn(n, h.Keys);
      assert v.ref in h.Keys - above && v.ref !in h.Keys - (above + {v.ref});
      match n
      case Array(items) =>
        exists i :: 0 <= i < Emitted(|items|, cfg) && SurelyThrows(h, items[i], cfg, above + {v.ref})
      case Plain(entries) =>
        exists i :: 0 <= i < |entries| && !IsSensitiveKey(entries[i].0, cfg.tokens) &&
          SurelyThrows(h, entries[i].1, cfg, above + {v.ref})
      case _ => false))
  }

  /** The JSON text of the value tells of hidden values. */
  predicate JsonExposes(h: Heap, v: Value, cfg: Config)
    requires Closed(h) && ValueIn(v, h.Keys)
  {
    !SurelyThrows(h, v, cfg, {}) && ReadsHidden(h, v, cfg, {})
  }

  // --------------------------------------------------- not exposed: the texts agree

  lemma {:induction false} ItemThrows(h: Heap, items: seq<Value>, i: nat, k: nat, above: set<Ref>)
    requires Closed(h) && ItemsIn(items, h.Keys) && i < k <= |items| && ToJson(h, items[i], above) == Throws
    ensures ItemsJson(h, items, k, above) == None
    decreases k
  {
    hide ToJson;
    if i < k - 1 { ItemThrows(h, items, i, k - 1, above); }
  }

  lemma {:induction false} EntryThrows(h: Heap, entries: seq<(Text, Value)>, i: nat, k: nat, above: set<Ref>)
    requires Closed(h) && EntriesIn(entries, h.Keys) && i < k <= |entries| && ToJson(h, entries[i].1, above) == Throws
    ensures EntriesJson(h, entries, k, above) == None
    decreases k
  {
    hide ToJson;
    if i < k - 1 { EntryThrows(h, entries, i, k - 1, above); }
  }

  lemma {:induction false} SurelyThrowsEverywhere(h: Heap, g: Heap, v: Value, cfg: Config, R: set<Ref>, above: set<Ref>)
    requires Closed(h) && Closed(g) && Agree(h, g, cfg, R) && ValueIn(v, R)
    requires ValueIn(v, h.Keys) && SurelyThrows(h, v, cfg, above)
    ensures ToJson(g, v, above) == Throws
    decreases h.Keys - above
  {
    hide IsSensitiveKey, ItemsJson, EntriesJson, Agree, Closed;
    if v.Object? && v.ref !in above {
      AgreeAt(h, g, cfg, R, v.ref);
      var m, n := h[v.ref], g[v.ref];
      var below := above + {v.ref};
      assert v.ref in h.Keys - above && v.ref !in h.Keys - below;
      if m.Array? {
        var i :| 0 <= i < Emitted(|m.items|, cfg) && SurelyThrows(h, m.items[i], cfg, below);
        assert SameValue(m.items[i], n.items[i], R);
        SurelyThrowsEverywhere(h, g, m.items[i], cfg, R, below);
        ItemThrows(g, n.items, i, |n.items|, below);
      } else {
        var i :| 0 <= i < |m.entries| && !IsSensitiveKey(m.entries[i].0, cfg.tokens) &&
                 SurelyThrows(h, m.entries[i].1, cfg, below);
        assert SameValue(m.entries[i].1, n.entries[i].1, R);
        SurelyThrowsEverywhere(h, g, m.entries[i].1, cfg, R, below);
        EntryThrows(g, n.entries, i, |n.entries|, below);
      }
    }
  }

  lemma {:induction false} NothingReadAlike(h: Heap, g: Heap, v: Value, cfg: Config, R: set<Ref>, above: set<Ref>)
    requires Closed(h) && Closed(g) && Agree(h, g, cfg, R) && ValueIn(v, R)
    requires ValueIn(v, h.Keys) && !ReadsHidden(h, v, cfg, above)
    ensures ToJson(h, v, above) == ToJson(g, v, above)
    decreases h.Keys - above, 0, 0
  {
    hide IsSensitiveKey, ItemsJson, EntriesJson, Agree, Closed;
    if v.Object? && v.ref !in above {
      AgreeAt(h, g, cfg, R, v.ref);
      var m, n := h[v.ref], g[v.ref];
      var below := above + {v.ref};
      assert v.ref in h.Keys - above && v.ref !in h.Keys - below;
      if m.Array? {
        ItemsAlike(h, g, m.items, n.items, |m.items|, cfg, R, below);
      } else if m.Plain? {
        EntriesAlike(h, g, m.entries, n.entries, |m.entries|, cfg, R, below);
      }
    }
  }

  lemma {:induction false} ItemsAlike(h: Heap, g: Heap, a: seq<Value>, b: seq<Value>, k: nat, cfg: Config,
                                      R: set<Ref>, above: set<Ref>)
    requires Closed(h) && Closed(g) && Agree(h, g, cfg, R)
    requires ItemsIn(a, h.Keys) && ItemsIn(b, g.Keys) && SameItems(a, b, k, R)
    requires forall i :: 0 <= i < |a| ==> !ReadsHidden(h, a[i], cfg, above)
    ensures ItemsJson(h, a, k, above) == ItemsJson(g, b, k, above)
    decreases h.Keys - above, 1, k
  {
    hide ToJson, Agree, Closed, ReadsHidden;
    if k > 0 {
      ItemsAlike(h, g, a, b, k - 1, cfg, R, above);
      assert SameValue(a[k - 1], b[k - 1], R);
      NothingReadAlike(h, g, a[k - 1], cfg, R, above);
    }
  }

  lemma {:induction false} EntriesAlike(h: Heap, g: Heap, a: seq<(Text, Value)>, b: seq<(Text, Value)>, k: nat,
                                        cfg: Config, R: set<Ref>, above: set<Ref>)
    requires Closed(h) && Closed(g) && Agree(h, g, cfg, R)
    requires EntriesIn(a, h.Keys) && EntriesIn(b, g.Keys) && SameEntries(a, b, k, cfg, R)
    requires forall i :: 0 <= i < |a| ==> !IsSensitiveKey(a[i].0, cfg.tokens) && !ReadsHidden(h, a[i].1, cfg, above)
    ensures EntriesJson(h, a, k, above) == EntriesJson(g, b, k, above)
    decreases h.Keys - above, 1, k
  {
    hide ToJson, Agree, Closed, ReadsHidden, IsSensitiveKey;
    if k > 0 {
      EntriesAlike(h, g, a, b, k - 1, cfg, R, above);
      assert SameValue(a[k - 1].1, b[k - 1].1, R);
      NothingReadAlike(h, g, a[k - 1].1, cfg, R, above);
    }
  }

  /** A value whose JSON exposes nothing is described alike, as a text or as unserializable. */
  lemma DescribedAlike(h: Heap, g: Heap, v: Value, cfg: Config, R: set<Ref>)
    requires Closed(h) && Closed(g) && Agree(h, g, cfg, R) && ValueIn(v, R)
    requires ValueIn(v, h.Keys) && ValueIn(v, g.Keys) && (v.Object? ==> !JsonExposes(h, v, cfg))
    ensures DescribeNonError(h, v) == DescribeNonError(g, v)
  {
    hide ToJson, Agree, Closed, ReadsHidden, SurelyThrows;
    if v.Object? {
      if SurelyThrows(h, v, cfg, {}) {
        AgreeSelf(h, g, cfg, R);
        SurelyThrowsEverywhere(h, g, v, cfg, R, {});
        SurelyThrowsEverywhere(h, h, v, cfg, R, {});
      } else {
        NothingReadAlike(h, g, v, cfg, R, {});
      }
    }
  }

  lemma AgreeSelf(h: Heap, g: Heap, cfg: Config, R: set<Ref>)
    requires Agree(h, g, cfg, R)
    ensures Agree(h, h, cfg, R)
  {
    hide IsSensitiveKey;
    forall r | r in R ensures SameNode(h[r], h[r], cfg, R) { assert SameNode(h[r], g[r], cfg, R); }
  }

  // ----------------------------------------------------- exposed: some texts differ

  /** A heap an engine can hold: a plain object has each key once, and binary contents print as JSON. */
  predicate Proper(h: Heap) {
    forall r :: r in h ==>
      match h[r]
      case Binary(_, contents) => JsonText.WellFormed(contents)
      case Plain(entries) => DistinctEntries(entries, |entries|)
      case _ => true
  }

  predicate DistinctEntries(entries: seq<(Text, Value)>, k: nat)
    requires k <= |entries|
  {
    forall i, j :: 0 <= i < j < k ==> entries[i].0 != entries[j].0
  }

  function MaskedItems(items: seq<Value>, k: nat, s: Text): (r: seq<Value>)
    ensures |r| == |items|
  {
    seq(|items|, i requires 0 <= i < |items| => if i < k then items[i] else Str(s))
  }

  function MaskedEntries(entries: seq<(Text, Value)>, cfg: Config, s: Text): (r: seq<(Text, Value)>)
    ensures |r| == |entries|
  {
    seq(|entries|, i requires 0 <= i < |entries| =>
      (entries[i].0, if IsSensitiveKey(entries[i].0, cfg.tokens) then Str(s) else entries[i].1))
  }

  function MaskedNode(n: Node, cfg: Config, s: Text): Node {
    match n
    case Array(items) => Array(MaskedItems(items, Emitted(|items|, cfg), s))
    case Plain(entries) => Plain(MaskedEntries(entries, cfg, s))
    case _ => n
  }

  /** The heap with one string for all that JSON could print of the hidden values. */
  function Masked(h: Heap, cfg: Config, s: Text): Heap {
    map r | r in h :: MaskedNode(h[r], cfg, s)
  }

  lemma MaskedClosed(h: Heap, cfg: Config, s: Text)
    requires Closed(h)
    ensures Closed(Masked(h, cfg, s)) && Masked(h, cfg, s).Keys == h.Keys
    ensures Proper(h) ==> Proper(Masked(h, cfg, s))
  {
    hide IsSensitiveKey;
    var g := Masked(h, cfg, s);
    forall r | r in g ensures NodeIn(g[r], g.Keys) { assert NodeIn(h[r], h.Keys); }
  }

  lemma MaskedAgrees(h: Heap, cfg: Config, s: Text, R: set<Ref>)
    requires Agree(h, h, cfg, R)
    ensures Agree(h, Masked(h, cfg, s), cfg, R)
  {
    hide IsSensitiveKey;
    var g := Masked(h, cfg, s);
    forall r | r in R ensures SameNode(h[r], g[r], cfg, R) { assert SameNode(h[r], h[r], cfg, R); }
  }

  lemma {:induction false} MaskedPrints(h: Heap, v: Value, cfg: Config, above: set<Ref>, s: Text)
    requires Closed(h) && ValueIn(v, h.Keys) && Closed(Masked(h, cfg, s)) && Masked(h, cfg, s).Keys == h.Keys
    requires !SurelyThrows(h, v, cfg, above)
    ensures ToJson(Masked(h, cfg, s), v, above) != Throws
    ensures v.Object? ==> ToJson(Masked(h, cfg, s), v, above).Tree?
    decreases h.Keys - above, 0, 0
  {
    hide IsSensitiveKey, ItemsJson, EntriesJson;
    if v.Object? {
      var n := h[v.ref];
      assert NodeIn(n, h.Keys) && NodeIn(Masked(h, cfg, s)[v.ref], h.Keys);
      var below := above + {v.ref};
      assert v.ref in h.Keys - above && v.ref !in h.Keys - below;
      hide Closed;
      if n.Array? {
        MaskedItemsPrint(h, n.items, |n.items|, cfg, below, s);
      } else if n.Plain? {
        MaskedEntriesPrint(h, n.entries, |n.entries|, cfg, below, s);
      }
    }
  }

  lemma {:induction false} MaskedItemsPrint(h: Heap, items: seq<Value>, k: nat, cfg: Config, above: set<Ref>, s: Text)
    requires Closed(h) && ItemsIn(items, h.Keys) && Closed(Masked(h, cfg, s)) && Masked(h, cfg, s).Keys == h.Keys
    requires ItemsIn(MaskedItems(items, Emitted(|items|, cfg), s), h.Keys) && k <= |items|
    requires forall i :: 0 <= i < Emitted(|items|, cfg) ==> !SurelyThrows(h, items[i], cfg, above)
    ensures ItemsJson(Masked(h, cfg, s), MaskedItems(items, Emitted(|items|, cfg), s), k, above).Some?
    decreases h.Keys - above, 1, k
  {
    hide ToJson, SurelyThrows, Masked, Closed;
    if k > 0 {
      MaskedItemsPrint(h, items, k - 1, cfg, above, s);
      if k - 1 < Emitted(|items|, cfg) { MaskedPrints(h, items[k - 1], cfg, above, s); }
      else { StringPrints(Masked(h, cfg, s), s, above); }
    }
  }

  lemma StringPrints(h: Heap, s: Text, above: set<Ref>)
    requires Closed(h)
    ensures ToJson(h, Str(s), above) == Tree(JsonText.Str(s))
  {
  }

  lemma {:induction false} MaskedEntriesPrint(h: Heap, entries: seq<(Text, Value)>, k: nat, cfg: Config, above: set<Ref>,
                                              s: Text)
    requires Closed(h) && EntriesIn(entries, h.Keys) && Closed(Masked(h, cfg, s)) && Masked(h, cfg, s).Keys == h.Keys
    requires EntriesIn(MaskedEntries(entries, cfg, s), h.Keys) && k <= |entries|
    requires forall i :: 0 <= i < |entries| && !IsSensitiveKey(entries[i].0, cfg.tokens) ==>
               !SurelyThrows(h, entries[i].1, cfg, above)
    ensures EntriesJson(Masked(h, cfg, s), MaskedEntries(entries, cfg, s), k, above).Some?
    decreases h.Keys - above, 1, k
  {
    hide ToJson, SurelyThrows, Masked, Closed, IsSensitiveKey;
    if k > 0 {
      MaskedEntriesPrint(h, entries, k - 1, cfg, above, s);
      if IsSensitiveKey(entries[k - 1].0, cfg.tokens) { StringPrints(Masked(h, cfg, s), s, above); }
      else { MaskedPrints(h, entries[k - 1].1, cfg, above, s); }
    }
  }

  /** Items that both print and differ at one place differ as a whole. */
  lemma {:induction false} ItemsDiffer(g1: Heap, g2: Heap, a: seq<Value>, b: seq<Value>, i: nat, k: nat, above: set<Ref>)
    requires Closed(g1) && Closed(g2) && ItemsIn(a, g1.Keys) && ItemsIn(b, g2.Keys) && |a| == |b| && i < k <= |a|
    requires ItemsJson(g1, a, k, above).Some? && ItemsJson(g2, b, k, above).Some?
    requires ToJson(g1, a[i], above).Tree? && ToJson(g2, b[i], above).Tree? && ToJson(g1, a[i], above) != ToJson(g2, b[i], above)
    ensures ItemsJson(g1, a, k, above) != ItemsJson(g2, b, k, above)
    decreases k
  {
    hide ToJson, Closed;
    var before, before' := ItemsJson(g1, a, k - 1, above).value, ItemsJson(g2, b, k - 1, above).value;
    var all, all' := ItemsJson(g1, a, k, above).value, ItemsJson(g2, b, k, above).value;
    assert all[..|all| - 1] == before && all'[..|all'| - 1] == before';
    if i < k - 1 {
      ItemsDiffer(g1, g2, a, b, i, k - 1, above);
    } else {
      assert all[|all| - 1] != all'[|all'| - 1];
    }
  }

  /** The same of properties, when the later ones are printed or left out together. */
  lemma {:induction false} EntriesDiffer(g1: Heap, g2: Heap, a: seq<(Text, Value)>, b: seq<(Text, Value)>, i: nat, k: nat,
                                         above: set<Ref>)
    requires Closed(g1) && Closed(g2) && EntriesIn(a, g1.Keys) && EntriesIn(b, g2.Keys) && |a| == |b| && i < k <= |a|
    requires EntriesJson(g1, a, k, above).Some? && EntriesJson(g2, b, k, above).Some?
    requires ToJson(g1, a[i].1, above).Tree? && ToJson(g2, b[i].1, above).Tree?
    requires ToJson(g1, a[i].1, above) != ToJson(g2, b[i].1, above)
    requires forall j :: i < j < k ==> ToJson(g1, a[j].1, above).Omitted? == ToJson(g2, b[j].1, above).Omitted?
    ensures EntriesJson(g1, a, k, above) != EntriesJson(g2, b, k, above)
    decreases k
  {
    hide ToJson, Closed;
    var before, before' := EntriesJson(g1, a, k - 1, above).value, EntriesJson(g2, b, k - 1, above).value;
    var all, all' := EntriesJson(g1, a, k, above).value, EntriesJson(g2, b, k, above).value;
    if i < k - 1 {
      EntriesDiffer(g1, g2, a, b, i, k - 1, above);
      assert ToJson(g1, a[k - 1].1, above).Omitted? ==> all == before && all' == before';
      assert !ToJson(g1, a[k - 1].1, above).Omitted? ==> all[..|all| - 1] == before && all'[..|all'| - 1] == before';
    } else {
      assert all[|all| - 1] != all'[|all'| - 1];
    }
  }

  lemma OmittedByKind(g1: Heap, g2: Heap, v: Value, above: set<Ref>)
    requires Closed(g1) && Closed(g2) && ValueIn(v, g1.Keys) && ValueIn(v, g2.Keys)
    ensures ToJson(g1, v, above).Omitted? == ToJson(g2, v, above).Omitted?
  {
  }

  const ONE: Text := [120]

  predicate BothMasked(h: Heap, cfg: Config) {
    Closed(h) && Closed(Masked(h, cfg, [])) && Closed(Masked(h, cfg, ONE)) &&
    Masked(h, cfg, []).Keys == h.Keys && Masked(h, cfg, ONE).Keys == h.Keys
  }

  /** Exposed: with the empty string, or another one, for what is hidden, the value prints and prints differently. */
  lemma {:induction false} MaskedTreesDiffer(h: Heap, v: Value, cfg: Config, above: set<Ref>)
    requires BothMasked(h, cfg) && ValueIn(v, h.Keys)
    requires !SurelyThrows(h, v, cfg, above) && ReadsHidden(h, v, cfg, above)
    ensures ToJson(Masked(h, cfg, []), v, above).Tree? && ToJson(Masked(h, cfg, ONE), v, above).Tree?
    ensures ToJson(Masked(h, cfg, []), v, above) != ToJson(Masked(h, cfg, ONE), v, above)
    decreases h.Keys - above, 1
  {
    hide IsSensitiveKey, ItemsJson, EntriesJson;
    MaskedPrints(h, v, cfg, above, []);
    MaskedPrints(h, v, cfg, above, ONE);
    var n := h[v.ref];
    var below := above + {v.ref};
    assert NodeIn(n, h.Keys) && NodeIn(Masked(h, cfg, [])[v.ref], h.Keys) && NodeIn(Masked(h, cfg, ONE)[v.ref], h.Keys);
    assert v.ref in h.Keys - above && v.ref !in h.Keys - below;
    hide Masked, Closed;
    if n.Array? {
      if |n.items| > Emitted(|n.items|, cfg) {
        TailDiffers(h, n.items, cfg, below);
      } else {
        var i :| 0 <= i < |n.items| && ReadsHidden(h, n.items[i], cfg, below);
        MaskedTreesDiffer(h, n.items[i], cfg, below);
        ItemsDiffer(Masked(h, cfg, []), Masked(h, cfg, ONE), MaskedItems(n.items, Emitted(|n.items|, cfg), []),
                    MaskedItems(n.items, Emitted(|n.items|, cfg), ONE), i, |n.items|, below);
      }
    } else {
      var i :| 0 <= i < |n.entries| &&
               (IsSensitiveKey(n.entries[i].0, cfg.tokens) || ReadsHidden(h, n.entries[i].1, cfg, below));
      if !IsSensitiveKey(n.entries[i].0, cfg.tokens) { MaskedTreesDiffer(h, n.entries[i].1, cfg, below); }
      EntryDiffers(h, n.entries, i, cfg, below);
    }
  }

  lemma TailDiffers(h: Heap, items: seq<Value>, cfg: Config, above: set<Ref>)
    requires BothMasked(h, cfg) && |items| > Emitted(|items|, cfg)
    requires ItemsIn(MaskedItems(items, Emitted(|items|, cfg), []), h.Keys)
    requires ItemsIn(MaskedItems(items, Emitted(|items|, cfg), ONE), h.Keys)
    requires ItemsJson(Masked(h, cfg, []), MaskedItems(items, Emitted(|items|, cfg), []), |items|, above).Some?
    requires ItemsJson(Masked(h, cfg, ONE), MaskedItems(items, Emitted(|items|, cfg), ONE), |items|, above).Some?
    ensures ItemsJson(Masked(h, cfg, []), MaskedItems(items, Emitted(|items|, cfg), []), |items|, above)
         != ItemsJson(Masked(h, cfg, ONE), MaskedItems(items, Emitted(|items|, cfg), ONE), |items|, above)
  {
    hide Masked, ItemsJson, ToJson, Closed;
    StringPrints(Masked(h, cfg, []), [], above);
    StringPrints(Masked(h, cfg, ONE), ONE, above);
    ItemsDiffer(Masked(h, cfg, []), Masked(h, cfg, ONE), MaskedItems(items, Emitted(|items|, cfg), []),
                MaskedItems(items, Emitted(|items|, cfg), ONE), |items| - 1, |items|, above);
  }

  lemma EntryDiffers(h: Heap, entries: seq<(Text, Value)>, i: nat, cfg: Config, above: set<Ref>)
    requires BothMasked(h, cfg) && EntriesIn(entries, h.Keys) && i < |entries|
    requires EntriesIn(MaskedEntries(entries, cfg, []), h.Keys) && EntriesIn(MaskedEntries(entries, cfg, ONE), h.Keys)
    requires EntriesJson(Masked(h, cfg, []), MaskedEntries(entries, cfg, []), |entries|, above).Some?
    requires EntriesJson(Masked(h, cfg, ONE), MaskedEntries(entries, cfg, ONE), |entries|, above).Some?
    requires IsSensitiveKey(entries[i].0, cfg.tokens) ||
             (ToJson(Masked(h, cfg, []), entries[i].1, above).Tree? && ToJson(Masked(h, cfg, ONE), entries[i].1, above).Tree? &&
              ToJson(Masked(h, cfg, []), entries[i].1, above) != ToJson(Masked(h, cfg, ONE), entries[i].1, above))
    ensures EntriesJson(Masked(h, cfg, []), MaskedEntries(entries, cfg, []), |entries|, above)
         != EntriesJson(Masked(h, cfg, ONE), MaskedEntries(entries, cfg, ONE), |entries|, above)
  {
    hide Masked, EntriesJson, ToJson, Closed, IsSensitiveKey;
    var g1, g2 := Masked(h, cfg, []), Masked(h, cfg, ONE);
    var a, b := MaskedEntries(entries, cfg, []), MaskedEntries(entries, cfg, ONE);
    StringPrints(g1, [], above);
    StringPrints(g2, ONE, above);
    forall j | i < j < |entries| ensures ToJson(g1, a[j].1, above).Omitted? == ToJson(g2, b[j].1, above).Omitted? {
      if !IsSensitiveKey(entries[j].0, cfg.tokens) { OmittedByKind(g1, g2, entries[j].1, above); }
    }
    EntriesDiffer(g1, g2, a, b, i, |entries|, above);
  }

  // -------------------------------------------------------- different trees, different texts

  lemma {:induction false} JsonWellFormed(h: Heap, v: Value, above: set<Ref>)
    requires Closed(h) && Proper(h) && ValueIn(v, h.Keys) && ToJson(h, v, above).Tree?
    ensures JsonText.WellFormed(ToJson(h, v, above).json)
    decreases h.Keys - above, 0, 0
  {
    hide ItemsJson, EntriesJson;
    if v.Object? {
      var n := h[v.ref];
      assert NodeIn(n, h.Keys);
      var below := above + {v.ref};
      assert v.ref in h.Keys - above && v.ref !in h.Keys - below;
      if n.Array? { ItemsWellFormed(h, n.items, |n.items|, below); }
      else if n.Plain? { EntriesWellFormed(h, n.entries, |n.entries|, below); }
    }
  }

  lemma {:induction false} ItemsWellFormed(h: Heap, items: seq<Value>, k: nat, above: set<Ref>)
    requires Closed(h) && Proper(h) && ItemsIn(items, h.Keys) && k <= |items| && ItemsJson(h, items, k, above).Some?
    ensures forall i :: 0 <= i < |ItemsJson(h, items, k, above).value| ==>
              JsonText.WellFormed(ItemsJson(h, items, k, above).value[i])
    decreases h.Keys - above, 1, k
  {
    hide ToJson, Closed, Proper;
    if k > 0 {
      ItemsWellFormed(h, items, k - 1, above);
      if ToJson(h, items[k - 1], above).Tree? { JsonWellFormed(h, items[k - 1], above); }
    }
  }

  lemma {:induction false} EntriesWellFormed(h: Heap, entries: seq<(Text, Value)>, k: nat, above: set<Ref>)
    requires Closed(h) && Proper(h) && EntriesIn(entries, h.Keys) && k <= |entries| && DistinctEntries(entries, k)
    requires EntriesJson(h, entries, k, above).Some?
    ensures var members := EntriesJson(h, entries, k, above).value;
            JsonText.DistinctKeys(members) && (forall i :: 0 <= i < |members| ==> JsonText.WellFormed(members[i].1)) &&
            forall i :: 0 <= i < |members| ==> exists j :: 0 <= j < k && entries[j].0 == members[i].0
    decreases h.Keys - above, 1, k
  {
    hide ToJson, Closed, Proper, JsonText.WellFormed;
    if k > 0 {
      EntriesWellFormed(h, entries, k - 1, above);
      if ToJson(h, entries[k - 1].1, above).Tree? { JsonWellFormed(h, entries[k - 1].1, above); }
    }
  }

  /** So an exposed object is described differently in the two masked heaps. */
  lemma ExposedDescribedApart(h: Heap, v: Value, cfg: Config)
    requires Proper(h) && BothMasked(h, cfg) && ValueIn(v, h.Keys) && v.Object? && JsonExposes(h, v, cfg)
    ensures DescribeNonError(Masked(h, cfg, []), v) != DescribeNonError(Masked(h, cfg, ONE), v)
  {
    hide ToJson, Masked, ReadsHidden, SurelyThrows, Proper, Closed, JsonText.WellFormed;
    var g1, g2 := Masked(h, cfg, []), Masked(h, cfg, ONE);
    MaskedClosed(h, cfg, []);
    MaskedClosed(h, cfg, ONE);
    MaskedTreesDiffer(h, v, cfg, {});
    JsonWellFormed(g1, v, {});
    JsonWellFormed(g2, v, {});
    JsonText.PrintRoundTrip(ToJson(g1, v, {}).json);
    JsonText.PrintRoundTrip(ToJson(g2, v, {}).json);
  }
}
