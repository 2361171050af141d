/**
 * Which keys are sensitive, said of the keys as they are written: by their letters and
 * digits, without regard to case or to anything between them.
 */
module KeySensitivity {
  import opened Common
  import opened LogValues
  import opened Redaction
  import opened DefaultKeys
  import JsonText

  /** ASCII letters and digits, and the two characters outside ASCII that are letters of it in lower case. */
  predicate LetterOrDigit(c: JsonText.CodeUnit) {
    48 <= c <= 57 || 65 <= c <= 90 || 97 <= c <= 122 || c == 0x212A || c == 0x130
  }

  function LettersAndDigits(key: Text): Text {
    if key == [] then []
    else (if LetterOrDigit(key[0]) then [key[0]] else []) + LettersAndDigits(key[1..])
  }

  /** The same letter in either case; the Kelvin sign is a k, the dotted capital I an i. */
  predicate SameLetter(a: JsonText.CodeUnit, b: JsonText.CodeUnit) {
    || a == b
    || (65 <= a <= 90 && b == a + 32)
    || (65 <= b <= 90 && a == b + 32)
    || (a in {75, 107, 0x212A} && b in {75, 107, 0x212A})
    || (a in {73, 105, 0x130} && b in {73, 105, 0x130})
  }

  predicate SameIgnoringCase(a: Text, b: Text) {
    |a| == |b| && forall i :: 0 <= i < |a| ==> SameLetter(a[i], b[i])
  }

  predicate StandsAt(part: Text, text: Text, p: nat) {
    p + |part| <= |text| && SameIgnoringCase(text[p..p + |part|], part)
  }

  predicate StandsIn(part: Text, text: Text) {
    exists p :: 0 <= p <= |text| && StandsAt(part, text, p)
  }

  /** The fragment's letters and digits stand consecutively among the key's, case ignored. */
  predicate FragmentIn(key: Text, fragment: Text) {
    LettersAndDigits(fragment) != [] && StandsIn(LettersAndDigits(fragment), LettersAndDigits(key))
  }

  lemma LowerUnits(a: JsonText.CodeUnit, b: JsonText.CodeUnit)
    requires LetterOrDigit(a) && LetterOrDigit(b)
    ensures LowerUnit(a) == LowerUnit(b) <==> SameLetter(a, b)
  {
  }

  lemma KeptUnits(c: JsonText.CodeUnit)
    ensures KeptUnit(c) == if LetterOrDigit(c) then [LowerUnit(c)] else []
  {
  }

  /** Normalization lowers the letters and digits and drops the rest. */
  lemma {:induction false} NormalizedUnits(key: Text)
    ensures |NormalizeKey(key)| == |LettersAndDigits(key)|
    ensures forall i :: 0 <= i < |NormalizeKey(key)| ==>
              NormalizeKey(key)[i] == LowerUnit(LettersAndDigits(key)[i]) && LetterOrDigit(LettersAndDigits(key)[i])
  {
    hide LowerUnit, LetterOrDigit, KeptUnit;
    if key != [] {
      KeptUnits(key[0]);
      NormalizedUnits(key[1..]);
    }
  }

  lemma PartAtExactly(key: Text, fragment: Text, p: nat)
    ensures PartAt(NormalizeKey(key), NormalizeKey(fragment), p)
       <==> StandsAt(LettersAndDigits(fragment), LettersAndDigits(key), p)
  {
    hide NormalizeKey, LettersAndDigits, LowerUnit, LetterOrDigit, SameLetter;
    NormalizedUnits(key);
    NormalizedUnits(fragment);
    var n, f, k, l := NormalizeKey(key), NormalizeKey(fragment), LettersAndDigits(key), LettersAndDigits(fragment);
    if p + |f| <= |n| {
      forall i | 0 <= i < |f| ensures n[p..p + |f|][i] == f[i] <==> SameLetter(k[p..p + |l|][i], l[i]) {
        LowerUnits(k[p + i], l[i]);
      }
    }
  }

  lemma IncludesExactly(key: Text, fragment: Text)
    ensures NormalizeKey(fragment) != [] && Includes(NormalizeKey(key), NormalizeKey(fragment)) <==> FragmentIn(key, fragment)
  {
    hide NormalizeKey, LettersAndDigits, PartAt, StandsAt;
    NormalizedUnits(key);
    NormalizedUnits(fragment);
    forall p: nat ensures PartAt(NormalizeKey(key), NormalizeKey(fragment), p)
                     <==> StandsAt(LettersAndDigits(fragment), LettersAndDigits(key), p) {
      PartAtExactly(key, fragment, p);
    }
  }

  /** A key is sensitive exactly when a fragment with any letters or digits stands in it. */
  lemma SensitiveExactly(key: Text, tokens: seq<Text>)
    ensures IsSensitiveKey(key, tokens) <==> exists i :: 0 <= i < |tokens| && FragmentIn(key, tokens[i])
  {
    hide NormalizeKey, FragmentIn, Includes;
    forall i | 0 <= i < |tokens|
      ensures NormalizeKey(tokens[i]) != [] && Includes(NormalizeKey(key), NormalizeKey(tokens[i])) <==> FragmentIn(key, tokens[i])
      ensures FragmentIn(key, tokens[i]) ==> NormalizeKey(key) != []
    {
      IncludesExactly(key, tokens[i]);
      EmptyIncludesNothing(NormalizeKey(key), NormalizeKey(tokens[i]));
    }
  }

  lemma EmptyIncludesNothing(text: Text, part: Text)
    ensures part != [] && Includes(text, part) ==> text != []
  {
  }

  /** Keys that differ in case, and in what is neither letter nor digit, are sensitive alike. */
  lemma SensitiveAlike(a: Text, b: Text, tokens: seq<Text>)
    requires SameIgnoringCase(LettersAndDigits(a), LettersAndDigits(b))
    ensures IsSensitiveKey(a, tokens) == IsSensitiveKey(b, tokens)
  {
    hide NormalizeKey, LettersAndDigits, LowerUnit, LetterOrDigit, SameLetter;
    NormalizedUnits(a);
    NormalizedUnits(b);
    var x, y := LettersAndDigits(a), LettersAndDigits(b);
    forall i | 0 <= i < |x| ensures LowerUnit(x[i]) == LowerUnit(y[i]) { LowerUnits(x[i], y[i]); }
    assert NormalizeKey(a) == NormalizeKey(b);
  }

  /** So any spelling of a default fragment is sensitive, whatever is put around its letters or between them. */
  lemma SpellingIsSensitive(key: Text, i: nat)
    requires i < |DEFAULT_FRAGMENTS| && StandsIn(Units(DEFAULT_FRAGMENTS[i]), LettersAndDigits(key))
    requires LettersAndDigits(Units(DEFAULT_FRAGMENTS[i])) == Units(DEFAULT_FRAGMENTS[i]) && DEFAULT_FRAGMENTS[i] != ""
    ensures IsSensitiveKey(key, DEFAULT_SENSITIVE_KEY_TOKENS)
  {
    hide LettersAndDigits, StandsIn;
    assert FragmentIn(key, DEFAULT_SENSITIVE_KEY_TOKENS[i]);
    SensitiveExactly(key, DEFAULT_SENSITIVE_KEY_TOKENS);
  }

  lemma {:induction false} LowerIsKept(t: string)
    requires Lower(t)
    ensures LettersAndDigits(Units(t)) == Units(t)
  {
    if t != "" {
      LowerIsKept(t[1..]);
      UnitsHeadTail(t);
      assert Units(t)[1..] == Units(t[1..]);
    }
  }

  lemma HeaderKeysAreSensitive()
    ensures IsSensitiveKey(Units("X-API-KEY"), DEFAULT_SENSITIVE_KEY_TOKENS)
    ensures IsSensitiveKey(Units("Authorization"), DEFAULT_SENSITIVE_KEY_TOKENS)
  {
    hide IsSensitiveKey;
    ApiKeySpelled();
    LowerIsKept("apikey");
    SpellingIsSensitive(Units("X-API-KEY"), 1);
    AuthorizationSpelled();
    LowerIsKept("authorization");
    SpellingIsSensitive(Units("Authorization"), 0);
  }

  lemma {:induction false} KeptAppend(a: Text, b: Text)
    ensures LettersAndDigits(a + b) == LettersAndDigits(a) + LettersAndDigits(b)
  {
    if a == [] {
      assert a + b == b;
    } else {
      KeptAppend(a[1..], b);
      assert (a + b)[1..] == a[1..] + b;
      hide LetterOrDigit, LettersAndDigits;
      Associates(if LetterOrDigit(a[0]) then [a[0]] else [], LettersAndDigits(a[1..]), LettersAndDigits(b));
    }
  }

  lemma {:induction false} AllKept(t: Text)
    requires forall i :: 0 <= i < |t| ==> LetterOrDigit(t[i])
    ensures LettersAndDigits(t) == t
  {
    if t != [] {
      AllKept(t[1..]);
      assert t == [t[0]] + t[1..];
    }
  }

  lemma ApiKeySpelled()
    ensures StandsIn(Units("apikey"), LettersAndDigits(Units("X-API-KEY")))
    ensures DEFAULT_FRAGMENTS[1] == "apikey" && Lower("apikey")
  {
    hide LettersAndDigits;
    var x, api, key: Text := [88], [65, 80, 73], [75, 69, 89];
    DashesDropped(x, api, key);
    assert Units("X-API-KEY") == x + [45] + (api + [45] + key);
    assert Units("apikey") == [97, 112, 105, 107, 101, 121];
    assert StandsAt(Units("apikey"), x + (api + key), 1);
  }

  lemma DashesDropped(a: Text, b: Text, c: Text)
    requires forall i :: 0 <= i < |a| ==> LetterOrDigit(a[i])
    requires forall i :: 0 <= i < |b| ==> LetterOrDigit(b[i])
    requires forall i :: 0 <= i < |c| ==> LetterOrDigit(c[i])
    ensures LettersAndDigits(a + [45] + (b + [45] + c)) == a + (b + c)
  {
    DashDropped(a, b + [45] + c);
    DashDropped(b, c);
    AllKept(a);
    AllKept(b);
    AllKept(c);
  }

  lemma DashDropped(a: Text, b: Text)
    ensures LettersAndDigits(a + [45] + b) == LettersAndDigits(a) + LettersAndDigits(b)
  {
    hide LettersAndDigits;
    KeptAppend(a + [45], b);
    KeptAppend(a, [45]);
    DashAlone();
    assert LettersAndDigits(a) + [] == LettersAndDigits(a);
  }

  lemma DashAlone()
    ensures LettersAndDigits([45]) == []
  {
    assert [45][1..] == [];
  }

  lemma AuthorizationSpelled()
    ensures StandsIn(Units("authorization"), LettersAndDigits(Units("Authorization")))
    ensures DEFAULT_FRAGMENTS[0] == "authorization" && Lower("authorization")
  {
    hide LettersAndDigits, StandsIn, Lower;
    assert Lower("authorization") by { LowerAuthorization(); }
    assert "Authorization" == ['A'] + "uthorization" && "authorization" == ['a'] + "uthorization";
    Capitalized('A', 'a', "uthorization");
  }

  lemma LowerAuthorization()
    ensures Lower("authorization") && Lower("uthorization")
  {
  }

  lemma Capitalized(upper: char, lower: char, rest: string)
    requires 'a' <= lower <= 'z' && upper as int + 32 == lower as int && Lower(rest)
    ensures StandsIn(Units([lower] + rest), LettersAndDigits(Units([upper] + rest)))
  {
    var key, fragment := Units([upper] + rest), Units([lower] + rest);
    AllKept(key);
    assert key[0..|key|] == key;
    assert StandsAt(fragment, key, 0);
  }
}
