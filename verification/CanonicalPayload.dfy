/**
 * The canonical payload text of a job, and what comparing such texts decides:
 * equality of payloads up to the order of object members at every depth.
 */
module CanonicalPayload {
  import opened Common
  import opened JsonText

  type Member = (Text, Json)

  const MAX_PAYLOAD_BYTES := 16_384

  // -------------------------------------------------------------- the key order

  /** `<` on JavaScript strings: by UTF-16 code units. */
  predicate Less(a: Text, b: Text) {
    b != [] && (a == [] || a[0] < b[0] || (a[0] == b[0] && Less(a[1..], b[1..])))
  }

  lemma {:induction false} LessTotal(a: Text, b: Text)
    ensures a == b || Less(a, b) || Less(b, a)
    ensures !(Less(a, b) && Less(b, a)) && !Less(a, a)
  {
    if a != [] && b != [] && a[0] == b[0] {
      LessTotal(a[1..], b[1..]);
      assert a == [a[0]] + a[1..] && b == [b[0]] + b[1..];
    }
    if a != [] { LessTotal(a[1..], a[1..]); }
  }

  lemma {:induction false} LessTransitive(a: Text, b: Text, c: Text)
    requires Less(a, b) && Less(b, c)
    ensures Less(a, c)
  {
    if a != [] && a[0] == b[0] && b[0] == c[0] { LessTransitive(a[1..], b[1..], c[1..]); }
  }

  /** The code units agree up to a place where a's is the smaller, or a is a proper part of the front of b. */
  predicate CodeUnitBefore(a: Text, b: Text) {
    || (|a| < |b| && a == b[..|a|])
    || exists i :: 0 <= i < |a| && i < |b| && a[..i] == b[..i] && a[i] < b[i]
  }

  lemma {:induction false} LessExactly(a: Text, b: Text)
    ensures Less(a, b) <==> CodeUnitBefore(a, b)
  {
    if a != [] && b != [] && a[0] == b[0] {
      LessExactly(a[1..], b[1..]);
      TailBefore(a, b);
    } else if a != [] && b != [] {
      assert a[..0] == b[..0];
      forall i | 0 < i < |a| && i < |b| ensures a[..i] != b[..i] { assert a[..i][0] != b[..i][0]; }
      assert |a| < |b| ==> a[0] != b[..|a|][0];
    }
  }

  lemma TailBefore(a: Text, b: Text)
    requires a != [] && b != [] && a[0] == b[0]
    ensures CodeUnitBefore(a, b) <==> CodeUnitBefore(a[1..], b[1..])
  {
    var x, y := a[1..], b[1..];
    assert a == [a[0]] + x && b == [b[0]] + y;
    assert |a| < |b| ==> b[..|a|] == [b[0]] + y[..|x|];
    forall i | 0 <= i < |x| && i < |y| ensures a[..i + 1] == b[..i + 1] <==> x[..i] == y[..i] {
      assert a[..i + 1] == [a[0]] + x[..i] && b[..i + 1] == [b[0]] + y[..i];
      assert a[..i + 1][1..] == x[..i] && b[..i + 1][1..] == y[..i];
    }
    if i :| 0 <= i < |a| && i < |b| && a[..i] == b[..i] && a[i] < b[i] {
      assert x[..i - 1] == y[..i - 1] && x[i - 1] < y[i - 1];
    }
    if i :| 0 <= i < |x| && i < |y| && x[..i] == y[..i] && x[i] < y[i] {
      assert a[..i + 1] == b[..i + 1] && a[i + 1] < b[i + 1];
    }
    if |x| < |y| && x == y[..|x|] { assert a == b[..|a|]; }
    if |a| < |b| && a == b[..|a|] { assert x == y[..|x|]; }
  }

  // ------------------------------------------------------------------- sorting

  function Insert(m: Member, sorted: seq<Member>): seq<Member> {
    if sorted == [] || Less(m.0, sorted[0].0) then [m] + sorted else [sorted[0]] + Insert(m, sorted[1..])
  }

  function SortByKey(members: seq<Member>): seq<Member> {
    if members == [] then [] else Insert(members[0], SortByKey(members[1..]))
  }

  /** An array index as a property key: a decimal numeral below 2^32 - 1 without leading zeros. */
  predicate IndexKey(key: Text) {
    && 0 < |key| <= 10 && (key[0] != 48 || |key| == 1)
    && (forall i :: 0 <= i < |key| ==> 48 <= key[i] <= 57)
    && Numeral(key) < 4294967295
  }

  function Numeral(key: Text): int {
    if key == [] then 0 else Numeral(key[..|key| - 1]) * 10 + (key[|key| - 1] as int - 48)
  }

  function InsertIndex(m: Member, sorted: seq<Member>): seq<Member> {
    if sorted == [] || Numeral(m.0) < Numeral(sorted[0].0) then [m] + sorted
    else [sorted[0]] + InsertIndex(m, sorted[1..])
  }

  function IndexMembers(members: seq<Member>): seq<Member> {
    if members == [] then []
    else if IndexKey(members[0].0) then InsertIndex(members[0], IndexMembers(members[1..]))
    else IndexMembers(members[1..])
  }

  function OtherMembers(members: seq<Member>): seq<Member> {
    if members == [] then []
    else (if IndexKey(members[0].0) then [] else [members[0]]) + OtherMembers(members[1..])
  }

  /** The order an object built from these entries enumerates them in: array indices first, ascending. */
  function OwnOrder(members: seq<Member>): seq<Member> {
    IndexMembers(members) + OtherMembers(members)
  }

  // ---------------------------------------------------------------- canonicalize

  function Canonicalize(v: Json): Json
    decreases v, 1
  {
    match v
    case Array(items) => Array(CanonicalItems(items))
    case Object(members) => Object(OwnOrder(SortByKey(CanonicalMembers(members))))
    case _ => v
  }

  function CanonicalItems(items: seq<Json>): (r: seq<Json>)
    ensures |r| == |items| && forall i :: 0 <= i < |r| ==> r[i] == Canonicalize(items[i])
    decreases items, 0
  {
    if items == [] then [] else [Canonicalize(items[0])] + CanonicalItems(items[1..])
  }

  function CanonicalMember(m: Member): Member
    decreases m, 0
  {
    (m.0, Canonicalize(m.1))
  }

  function CanonicalMembers(members: seq<Member>): (r: seq<Member>)
    ensures |r| == |members|
    ensures forall i :: 0 <= i < |r| ==> r[i] == CanonicalMember(members[i])
    decreases members, 0
  {
    if members == [] then [] else [CanonicalMember(members[0])] + CanonicalMembers(members[1..])
  }

  /** Bytes of a text in UTF-8; each half of a surrogate pair counts two of its four. */
  function ByteLength(t: Text): nat {
    if t == [] then 0
    else (if t[0] < 0x80 then 1 else if t[0] < 0x800 || HighSurrogate(t[0]) || LowSurrogate(t[0]) then 2 else 3)
         + ByteLength(t[1..])
  }

  datatype PayloadError = TooLarge(bytes: nat)

  function SerializeJobPayload(v: Json): Result<Text, PayloadError> {
    var text := Print(Canonicalize(v));
    if ByteLength(text) > MAX_PAYLOAD_BYTES then Err(TooLarge(ByteLength(text))) else Ok(text)
  }

  // ------------------------------------------- equality up to member order

  function Keys(members: seq<Member>): set<Text> {
    set i | 0 <= i < |members| :: members[i].0
  }

  /** The two values differ in nothing but the order of object members, at any depth. */
  predicate Equivalent(v: Json, w: Json)
    decreases v
  {
    match v
    case Array(items) =>
      w.Array? && |items| == |w.items| && forall i :: 0 <= i < |items| ==> Equivalent(items[i], w.items[i])
    case Object(members) =>
      && w.Object? && Keys(members) == Keys(w.members)
      && forall i, k :: 0 <= i < |members| && 0 <= k < |w.members| && members[i].0 == w.members[k].0 ==>
           Equivalent(members[i].1, w.members[k].1)
    case _ => v == w
  }

  // ----------------------------------------------------------- sorting, proved

  function Entries(members: seq<Member>): set<Member> {
    set i | 0 <= i < |members| :: members[i]
  }

  predicate Sorted(members: seq<Member>) {
    forall i, k :: 0 <= i < k < |members| ==> Less(members[i].0, members[k].0)
  }

  /** Each key precedes the later ones, by code units. */
  predicate InOrder(members: seq<Member>) {
    forall i, k :: 0 <= i < k < |members| ==> CodeUnitBefore(members[i].0, members[k].0)
  }

  lemma SortedInOrder(members: seq<Member>)
    ensures Sorted(members) <==> InOrder(members)
  {
    hide Less, CodeUnitBefore;
    forall i, k | 0 <= i < k < |members| ensures Less(members[i].0, members[k].0) <==> CodeUnitBefore(members[i].0, members[k].0) {
      LessExactly(members[i].0, members[k].0);
    }
  }

  lemma Entry(members: seq<Member>, i: nat)
    requires i < |members|
    ensures members[i] in Entries(members) && members[i].0 in Keys(members)
  {
  }

  lemma EntriesCons(m: Member, rest: seq<Member>)
    ensures Entries([m] + rest) == {m} + Entries(rest)
    ensures Keys([m] + rest) == {m.0} + Keys(rest)
  {
    var all := [m] + rest;
    assert all[0] == m && forall i :: 0 <= i < |rest| ==> all[i + 1] == rest[i];
    forall e | e in {m} + Entries(rest) ensures e in Entries(all) {
      if e != m { var i :| 0 <= i < |rest| && rest[i] == e; Entry(all, i + 1); } else { Entry(all, 0); }
    }
    forall k | k in {m.0} + Keys(rest) ensures k in Keys(all) {
      if k != m.0 { var i :| 0 <= i < |rest| && rest[i].0 == k; Entry(all, i + 1); } else { Entry(all, 0); }
    }
  }

  lemma {:induction false} InsertEntries(m: Member, sorted: seq<Member>)
    ensures Entries(Insert(m, sorted)) == {m} + Entries(sorted) && |Insert(m, sorted)| == |sorted| + 1
  {
    if sorted == [] || Less(m.0, sorted[0].0) {
      EntriesCons(m, sorted);
    } else {
      InsertEntries(m, sorted[1..]);
      EntriesCons(sorted[0], Insert(m, sorted[1..]));
      EntriesCons(sorted[0], sorted[1..]);
      assert sorted == [sorted[0]] + sorted[1..];
    }
  }

  lemma {:induction false} InsertSorted(m: Member, sorted: seq<Member>)
    requires Sorted(sorted) && forall i :: 0 <= i < |sorted| ==> sorted[i].0 != m.0
    ensures Sorted(Insert(m, sorted))
  {
    if sorted == [] {
    } else if Less(m.0, sorted[0].0) {
      forall i | 0 < i < |sorted| ensures Less(m.0, sorted[i].0) {
        LessTransitive(m.0, sorted[0].0, sorted[i].0);
      }
    } else {
      LessTotal(m.0, sorted[0].0);
      InsertSorted(m, sorted[1..]);
      InsertEntries(m, sorted[1..]);
      var rest := Insert(m, sorted[1..]);
      forall i | 0 <= i < |rest| ensures Less(sorted[0].0, rest[i].0) {
        Entry(rest, i);
        if rest[i] != m { var k :| 0 <= k < |sorted[1..]| && sorted[1..][k] == rest[i]; }
      }
    }
  }

  lemma {:induction false} SortByKeySorts(members: seq<Member>)
    requires DistinctKeys(members)
    ensures Sorted(SortByKey(members)) && Entries(SortByKey(members)) == Entries(members)
    ensures |SortByKey(members)| == |members| && InOrder(SortByKey(members))
  {
    hide InOrder;
    SortedInOrder(SortByKey(members));
    if members != [] {
      SortByKeySorts(members[1..]);
      var sorted := SortByKey(members[1..]);
      forall i | 0 <= i < |sorted| ensures sorted[i].0 != members[0].0 {
        Entry(sorted, i);
        var k :| 0 <= k < |members[1..]| && members[1..][k] == sorted[i];
      }
      InsertSorted(members[0], sorted);
      InsertEntries(members[0], sorted);
      EntriesCons(members[0], members[1..]);
      assert members == [members[0]] + members[1..];
    }
  }

  /** There is one sorted sequence of given entries. */
  lemma {:induction false} SortedUnique(a: seq<Member>, b: seq<Member>)
    requires Sorted(a) && Sorted(b) && Entries(a) == Entries(b)
    ensures a == b
  {
    if a == [] {
      if b != [] { Entry(b, 0); assert false; }
    } else if b == [] {
      Entry(a, 0);
      assert false;
    } else {
      Entry(a, 0);
      Entry(b, 0);
      var i :| 0 <= i < |b| && b[i] == a[0];
      var k :| 0 <= k < |a| && a[k] == b[0];
      LessTotal(a[0].0, b[0].0);
      assert a[0] == b[0];
      assert Entries(a[1..]) == Entries(a) - {a[0]} by { HeadOnce(a); }
      assert Entries(b[1..]) == Entries(b) - {b[0]} by { HeadOnce(b); }
      SortedUnique(a[1..], b[1..]);
      assert a == [a[0]] + a[1..] && b == [b[0]] + b[1..];
    }
  }

  lemma HeadOnce(a: seq<Member>)
    requires Sorted(a) && a != []
    ensures Entries(a[1..]) == Entries(a) - {a[0]}
  {
    EntriesCons(a[0], a[1..]);
    assert a == [a[0]] + a[1..];
    forall i | 0 <= i < |a[1..]| ensures a[1..][i] != a[0] {
      LessTotal(a[0].0, a[i + 1].0);
    }
  }

  // ------------------------------------------------------------------ the order

  lemma {:induction false} InsertIndexEntries(m: Member, sorted: seq<Member>)
    ensures Entries(InsertIndex(m, sorted)) == {m} + Entries(sorted) && |InsertIndex(m, sorted)| == |sorted| + 1
  {
    if sorted == [] || Numeral(m.0) < Numeral(sorted[0].0) {
      EntriesCons(m, sorted);
    } else {
      InsertIndexEntries(m, sorted[1..]);
      EntriesCons(sorted[0], InsertIndex(m, sorted[1..]));
      EntriesCons(sorted[0], sorted[1..]);
      assert sorted == [sorted[0]] + sorted[1..];
    }
  }

  lemma {:induction false} OwnOrderParts(members: seq<Member>)
    ensures Entries(IndexMembers(members)) + Entries(OtherMembers(members)) == Entries(members)
    ensures |IndexMembers(members)| + |OtherMembers(members)| == |members|
  {
    if members != [] {
      OwnOrderParts(members[1..]);
      EntriesCons(members[0], members[1..]);
      assert members == [members[0]] + members[1..];
      if IndexKey(members[0].0) {
        InsertIndexEntries(members[0], IndexMembers(members[1..]));
        assert OtherMembers(members) == OtherMembers(members[1..]);
      } else {
        EntriesCons(members[0], OtherMembers(members[1..]));
      }
    }
  }

  lemma EntriesConcat(a: seq<Member>, b: seq<Member>)
    ensures Entries(a + b) == Entries(a) + Entries(b)
  {
    forall e | e in Entries(a) + Entries(b) ensures e in Entries(a + b) {
      if e in Entries(a) {
        var i :| 0 <= i < |a| && a[i] == e;
        Entry(a + b, i);
      } else {
        var i :| 0 <= i < |b| && b[i] == e;
        assert (a + b)[|a| + i] == e;
        Entry(a + b, |a| + i);
      }
    }
  }

  /** Enumeration order and sorting keep the entries, each once. */
  lemma Reordered(members: seq<Member>)
    requires DistinctKeys(members)
    ensures Entries(OwnOrder(SortByKey(members))) == Entries(members)
    ensures |OwnOrder(SortByKey(members))| == |members| && DistinctKeys(OwnOrder(SortByKey(members)))
  {
    SortByKeySorts(members);
    var sorted := SortByKey(members);
    OwnOrderParts(sorted);
    EntriesConcat(IndexMembers(sorted), OtherMembers(sorted));
    SameEntriesDistinct(members, OwnOrder(sorted));
  }

  lemma {:induction false} KeyCount(members: seq<Member>)
    ensures |Keys(members)| <= |members|
    ensures DistinctKeys(members) <==> |Keys(members)| == |members|
  {
    if members != [] {
      var rest := members[1..];
      KeyCount(rest);
      EntriesCons(members[0], rest);
      assert members == [members[0]] + rest;
      if members[0].0 in Keys(rest) {
        assert Keys(members) == Keys(rest);
        var i :| 0 <= i < |rest| && rest[i].0 == members[0].0;
        assert members[i + 1].0 == members[0].0;
        assert !DistinctKeys(members);
      } else {
        DistinctCons(members);
      }
    }
  }

  lemma DistinctCons(members: seq<Member>)
    requires members != [] && members[0].0 !in Keys(members[1..])
    ensures DistinctKeys(members) <==> DistinctKeys(members[1..])
  {
    var rest := members[1..];
    assert forall i :: 0 <= i < |rest| ==> rest[i] == members[i + 1] && rest[i].0 in Keys(rest);
    if DistinctKeys(rest) {
      forall i, k | 0 <= i < k < |members| ensures members[i].0 != members[k].0 {
        assert members[k] == rest[k - 1];
        if i > 0 { assert members[i] == rest[i - 1]; }
      }
    } else {
      var i, k :| 0 <= i < k < |rest| && rest[i].0 == rest[k].0;
      assert members[i + 1].0 == members[k + 1].0;
    }
  }

  lemma KeysOfEntries(a: seq<Member>, b: seq<Member>)
    requires Entries(a) == Entries(b)
    ensures Keys(a) == Keys(b)
  {
    forall k | k in Keys(a) ensures k in Keys(b) {
      var i :| 0 <= i < |a| && a[i].0 == k;
      Entry(a, i);
      var j :| 0 <= j < |b| && b[j] == a[i];
    }
    forall k | k in Keys(b) ensures k in Keys(a) {
      var i :| 0 <= i < |b| && b[i].0 == k;
      Entry(b, i);
      var j :| 0 <= j < |a| && a[j] == b[i];
    }
  }

  lemma SameEntriesDistinct(a: seq<Member>, b: seq<Member>)
    requires Entries(a) == Entries(b) && |a| == |b| && DistinctKeys(a)
    ensures DistinctKeys(b)
  {
    KeysOfEntries(a, b);
    KeyCount(a);
    KeyCount(b);
  }

  // ------------------------------------------------- the order of canonical members

  /** Array indices come first, by value; then the other keys, by code units. */
  predicate Enumerated(a: Text, b: Text) {
    if IndexKey(a) && IndexKey(b) then Numeral(a) < Numeral(b)
    else if IndexKey(a) || IndexKey(b) then IndexKey(a)
    else CodeUnitBefore(a, b)
  }

  predicate InOwnOrder(members: seq<Member>) {
    forall i, k :: 0 <= i < k < |members| ==> Enumerated(members[i].0, members[k].0)
  }

  predicate IndicesRise(members: seq<Member>) {
    forall i, k :: 0 <= i < k < |members| ==> Numeral(members[i].0) < Numeral(members[k].0)
  }

  lemma {:induction false} InsertIndexRises(m: Member, sorted: seq<Member>)
    requires IndicesRise(sorted) && forall e :: e in Entries(sorted) ==> Numeral(e.0) != Numeral(m.0)
    ensures IndicesRise(InsertIndex(m, sorted))
  {
    hide Numeral;
    if sorted != [] {
      Entry(sorted, 0);
      var rest := sorted[1..];
      assert sorted == [sorted[0]] + rest;
      EntriesCons(sorted[0], rest);
      if !(Numeral(m.0) < Numeral(sorted[0].0)) {
        InsertIndexRises(m, rest);
        InsertIndexEntries(m, rest);
        hide InsertIndex;
        LeastFirst(m, sorted, InsertIndex(m, rest));
      }
    }
  }

  lemma LeastFirst(m: Member, sorted: seq<Member>, all: seq<Member>)
    requires sorted != [] && IndicesRise(sorted) && IndicesRise(all) && Entries(all) == {m} + Entries(sorted[1..])
    requires Numeral(sorted[0].0) < Numeral(m.0)
    ensures IndicesRise([sorted[0]] + all)
  {
    hide Numeral;
    forall i | 0 <= i < |all| ensures Numeral(sorted[0].0) < Numeral(all[i].0) {
      Entry(all, i);
      if all[i] != m { var j :| 0 <= j < |sorted[1..]| && sorted[1..][j] == all[i]; }
    }
  }

  /** A numeral without leading zeros is determined by its value. */
  lemma {:induction false} NumeralDigits(a: Text, b: Text)
    requires Digits(a) && Digits(b) && |a| == |b| && Numeral(a) == Numeral(b)
    ensures a == b
  {
    if a != [] {
      NumeralDigits(a[..|a| - 1], b[..|b| - 1]);
      assert a == a[..|a| - 1] + [a[|a| - 1]] && b == b[..|b| - 1] + [b[|b| - 1]];
    }
  }

  predicate Digits(a: Text) {
    forall i :: 0 <= i < |a| ==> 48 <= a[i] <= 57
  }

  function Pow10(n: nat): nat {
    if n == 0 then 1 else 10 * Pow10(n - 1)
  }

  lemma {:induction false} NumeralRange(a: Text)
    requires Digits(a)
    ensures 0 <= Numeral(a) < Pow10(|a|)
    ensures a != [] && a[0] != 48 ==> Numeral(a) >= Pow10(|a| - 1)
  {
    if |a| > 1 { NumeralRange(a[..|a| - 1]); }
  }

  lemma {:induction false} Pow10Grows(m: nat, n: nat)
    requires m <= n
    ensures Pow10(m) <= Pow10(n)
    decreases n
  {
    if m < n { Pow10Grows(m, n - 1); }
  }

  lemma SameIndex(a: Text, b: Text)
    requires IndexKey(a) && IndexKey(b) && Numeral(a) == Numeral(b)
    ensures a == b
  {
    hide Numeral, Pow10;
    NumeralRange(a);
    NumeralRange(b);
    if |a| < |b| {
      Pow10Grows(|a|, |b| - 1);
    } else if |b| < |a| {
      Pow10Grows(|b|, |a| - 1);
    } else {
      NumeralDigits(a, b);
    }
  }

  lemma DistinctHead(members: seq<Member>, e: Member)
    requires DistinctKeys(members) && members != [] && e in Entries(members[1..])
    ensures e.0 != members[0].0
  {
    var i :| 0 <= i < |members| - 1 && members[1..][i] == e;
    assert members[i + 1] == e;
  }

  lemma {:induction false} IndexMembersRise(members: seq<Member>)
    requires DistinctKeys(members)
    ensures IndicesRise(IndexMembers(members))
    ensures forall e :: e in Entries(IndexMembers(members)) ==> IndexKey(e.0) && e in Entries(members)
  {
    hide IndexKey, Numeral;
    if members != [] {
      var m, rest := members[0], members[1..];
      assert members == [m] + rest;
      EntriesCons(m, rest);
      IndexMembersRise(rest);
      if IndexKey(m.0) {
        InsertIndexEntries(m, IndexMembers(rest));
        forall e | e in Entries(IndexMembers(rest)) ensures Numeral(e.0) != Numeral(m.0) {
          DistinctHead(members, e);
          if Numeral(e.0) == Numeral(m.0) { SameIndex(e.0, m.0); }
        }
        InsertIndexRises(m, IndexMembers(rest));
      }
    }
  }

  lemma {:induction false} OthersInOrder(members: seq<Member>)
    requires InOrder(members)
    ensures InOrder(OtherMembers(members))
    ensures forall e :: e in Entries(OtherMembers(members)) ==> !IndexKey(e.0) && e in Entries(members)
  {
    hide IndexKey, CodeUnitBefore;
    if members != [] {
      var m, rest := members[0], members[1..];
      assert members == [m] + rest;
      EntriesCons(m, rest);
      OthersInOrder(rest);
      var others := OtherMembers(rest);
      EntriesCons(m, others);
      forall i | 0 <= i < |others| ensures CodeUnitBefore(m.0, others[i].0) {
        Entry(others, i);
        var j :| 0 <= j < |rest| && rest[j] == others[i];
        assert members[j + 1] == others[i];
      }
      hide InOrder;
      PrependInOrder(m, others);
    }
  }

  lemma PrependInOrder(m: Member, members: seq<Member>)
    ensures InOrder(members) && (forall i :: 0 <= i < |members| ==> CodeUnitBefore(m.0, members[i].0)) ==> InOrder([m] + members)
    ensures [] + members == members
  {
    hide CodeUnitBefore;
  }

  /** The members of a canonical object stand in the order in which the engine enumerates a sorted object. */
  lemma CanonicalOrder(members: seq<Member>)
    requires DistinctKeys(members)
    ensures InOwnOrder(OwnOrder(SortByKey(members)))
  {
    hide IndexKey, Numeral, CodeUnitBefore, SortByKey;
    SortByKeySorts(members);
    SameEntriesDistinct(members, SortByKey(members));
    var sorted := SortByKey(members);
    IndexMembersRise(sorted);
    OthersInOrder(sorted);
    var a, b := IndexMembers(sorted), OtherMembers(sorted);
    hide Entries;
    forall i | 0 <= i < |a| ensures IndexKey(a[i].0) { Entry(a, i); }
    forall i | 0 <= i < |b| ensures !IndexKey(b[i].0) { Entry(b, i); }
  }

  // ------------------------------------------------------------ the theorems

  lemma SameEntryUnique(members: seq<Member>, m: Member, n: Member)
    requires DistinctKeys(members) && m in Entries(members) && n in Entries(members) && m.0 == n.0
    ensures m == n
  {
  }

  lemma {:induction false} CanonicalWellFormed(v: Json)
    requires WellFormed(v)
    ensures WellFormed(Canonicalize(v))
    decreases v
  {
    match v
    case Array(items) =>
      forall i | 0 <= i < |items| ensures WellFormed(CanonicalItems(items)[i]) { CanonicalWellFormed(items[i]); }
    case Object(members) =>
      var mapped := CanonicalMembers(members);
      assert DistinctKeys(mapped);
      Reordered(mapped);
      var ordered := OwnOrder(SortByKey(mapped));
      forall k | 0 <= k < |ordered| ensures WellFormed(ordered[k].1) {
        Entry(ordered, k);
        var i :| 0 <= i < |mapped| && mapped[i] == ordered[k];
        CanonicalWellFormed(members[i].1);
      }
    case _ =>
  }

  lemma MappedKeys(members: seq<Member>)
    ensures Keys(CanonicalMembers(members)) == Keys(members)
    ensures DistinctKeys(members) ==> DistinctKeys(CanonicalMembers(members))
  {
    var mapped := CanonicalMembers(members);
    forall k | k in Keys(members) ensures k in Keys(mapped) {
      var i :| 0 <= i < |members| && members[i].0 == k;
      Entry(mapped, i);
    }
    forall k | k in Keys(mapped) ensures k in Keys(members) {
      var i :| 0 <= i < |mapped| && mapped[i].0 == k;
      Entry(members, i);
    }
  }

  /** Values that differ only in member order have the same canonical form. */
  lemma {:induction false} EquivalentCanonical(v: Json, w: Json)
    requires WellFormed(v) && WellFormed(w) && Equivalent(v, w)
    ensures Canonicalize(v) == Canonicalize(w)
    decreases v
  {
    match v
    case Array(items) =>
      forall i | 0 <= i < |items| ensures Canonicalize(items[i]) == Canonicalize(w.items[i]) {
        EquivalentCanonical(items[i], w.items[i]);
      }
      assert CanonicalItems(items) == CanonicalItems(w.items);
    case Object(members) =>
      forall i, k | 0 <= i < |members| && 0 <= k < |w.members| && members[i].0 == w.members[k].0
        ensures Canonicalize(members[i].1) == Canonicalize(w.members[k].1)
      {
        EquivalentCanonical(members[i].1, w.members[k].1);
      }
      SameMappedEntries(members, w.members);
      var a, b := CanonicalMembers(members), CanonicalMembers(w.members);
      MappedKeys(members);
      MappedKeys(w.members);
      SortByKeySorts(a);
      SortByKeySorts(b);
      SortedUnique(SortByKey(a), SortByKey(b));
    case _ =>
  }

  lemma SameMappedEntries(a: seq<Member>, b: seq<Member>)
    requires Keys(a) == Keys(b)
    requires forall i, k :: 0 <= i < |a| && 0 <= k < |b| && a[i].0 == b[k].0 ==>
               Canonicalize(a[i].1) == Canonicalize(b[k].1)
    ensures Entries(CanonicalMembers(a)) == Entries(CanonicalMembers(b))
  {
    var a', b' := CanonicalMembers(a), CanonicalMembers(b);
    forall e | e in Entries(a') ensures e in Entries(b') {
      var i :| 0 <= i < |a'| && a'[i] == e;
      assert a[i].0 in Keys(b);
      var k :| 0 <= k < |b| && b[k].0 == a[i].0;
      Entry(b', k);
    }
    forall e | e in Entries(b') ensures e in Entries(a') {
      var k :| 0 <= k < |b'| && b'[k] == e;
      assert b[k].0 in Keys(a);
      var i :| 0 <= i < |a| && a[i].0 == b[k].0;
      Entry(a', i);
    }
  }

  /** Values with the same canonical form differ only in member order. */
  lemma {:induction false} CanonicalEquivalent(v: Json, w: Json)
    requires WellFormed(v) && WellFormed(w) && Canonicalize(v) == Canonicalize(w)
    ensures Equivalent(v, w)
    decreases v
  {
    match v
    case Array(items) =>
      forall i | 0 <= i < |items| ensures Equivalent(items[i], w.items[i]) {
        assert CanonicalItems(items)[i] == CanonicalItems(w.items)[i];
        CanonicalEquivalent(items[i], w.items[i]);
      }
    case Object(members) =>
      var a, b := CanonicalMembers(members), CanonicalMembers(w.members);
      MappedKeys(members);
      MappedKeys(w.members);
      Reordered(a);
      Reordered(b);
      KeysOfEntries(a, b);
      forall i, k | 0 <= i < |members| && 0 <= k < |w.members| && members[i].0 == w.members[k].0
        ensures Equivalent(members[i].1, w.members[k].1)
      {
        Entry(a, i);
        Entry(b, k);
        SameEntryUnique(b, a[i], b[k]);
        CanonicalEquivalent(members[i].1, w.members[k].1);
      }
    case _ =>
  }

  /** Canonicalizing changes nothing but member order. */
  lemma {:induction false} CanonicalIsEquivalent(v: Json)
    requires WellFormed(v)
    ensures Equivalent(Canonicalize(v), v)
    decreases v
  {
    match v
    case Array(items) =>
      forall i | 0 <= i < |items| ensures Equivalent(CanonicalItems(items)[i], items[i]) {
        CanonicalIsEquivalent(items[i]);
      }
    case Object(members) =>
      var mapped := CanonicalMembers(members);
      MappedKeys(members);
      Reordered(mapped);
      var ordered := OwnOrder(SortByKey(mapped));
      KeysOfEntries(ordered, mapped);
      forall i, k | 0 <= i < |ordered| && 0 <= k < |members| && ordered[i].0 == members[k].0
        ensures Equivalent(ordered[i].1, members[k].1)
      {
        Entry(ordered, i);
        Entry(mapped, k);
        SameEntryUnique(mapped, ordered[i], mapped[k]);
        CanonicalIsEquivalent(members[k].1);
      }
    case _ =>
  }

  /**
   * Canonical texts decide equality: for payloads within the limit, the texts
   * are equal exactly when the payloads differ in nothing but member order. And
   * payloads that differ in nothing but member order are accepted or refused alike.
   */
  lemma CanonicalTextsDecide(v: Json, w: Json)
    requires WellFormed(v) && WellFormed(w)
    ensures SerializeJobPayload(v).Ok? && SerializeJobPayload(w).Ok? ==>
              (SerializeJobPayload(v) == SerializeJobPayload(w) <==> Equivalent(v, w))
    ensures Equivalent(v, w) ==> SerializeJobPayload(v) == SerializeJobPayload(w)
  {
    if Equivalent(v, w) { EquivalentCanonical(v, w); }
    if Print(Canonicalize(v)) == Print(Canonicalize(w)) {
      CanonicalWellFormed(v);
      CanonicalWellFormed(w);
      PrintRoundTrip(Canonicalize(v));
      PrintRoundTrip(Canonicalize(w));
      CanonicalEquivalent(v, w);
    }
  }

  /**
   * The check is stable after storage: the text parses, and whatever member order
   * the store gives the parsed payload back in, it serializes to the same text.
   */
  lemma StableAfterStorage(v: Json, stored: Json)
    requires WellFormed(v) && WellFormed(stored) && SerializeJobPayload(v).Ok?
    requires Parse(SerializeJobPayload(v).value).Some?
    requires Equivalent(stored, Parse(SerializeJobPayload(v).value).value)
    ensures SerializeJobPayload(stored) == SerializeJobPayload(v)
    ensures Equivalent(stored, v)
  {
    CanonicalWellFormed(v);
    PrintRoundTrip(Canonicalize(v));
    CanonicalIsEquivalent(v);
    EquivalentCanonical(stored, Canonicalize(v));
    EquivalentCanonical(Canonicalize(v), v);
    CanonicalEquivalent(stored, v);
  }

  lemma StoredTextParses(v: Json)
    requires WellFormed(v) && SerializeJobPayload(v).Ok?
    ensures Parse(SerializeJobPayload(v).value).Some? && WellFormed(Parse(SerializeJobPayload(v).value).value)
    ensures Equivalent(Parse(SerializeJobPayload(v).value).value, v)
  {
    CanonicalWellFormed(v);
    PrintRoundTrip(Canonicalize(v));
    CanonicalIsEquivalent(v);
  }
}
