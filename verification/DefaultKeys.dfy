/** Which keys the default fragments call sensitive. */
module DefaultKeys {
  import opened Common
  import opened LogValues
  import opened Redaction
  import JsonText

  predicate Lower(t: string) {
    forall i :: 0 <= i < |t| ==> 'a' <= t[i] <= 'z'
  }

  // ------------------------------------------------------------- normalization

  lemma NormalizeCons(c: JsonText.CodeUnit, rest: Text)
    ensures NormalizeKey([c] + rest) == KeptUnit(c) + NormalizeKey(rest)
  {
    hide KeptUnit;
    assert ([c] + rest)[1..] == rest;
  }

  lemma Associates(a: Text, b: Text, c: Text)
    ensures (a + b) + c == a + (b + c)
  {
  }

  lemma {:induction false} NormalizeAppend(a: Text, b: Text)
    ensures NormalizeKey(a + b) == NormalizeKey(a) + NormalizeKey(b)
  {
    if a == [] {
      assert a + b == b;
    } else {
      hide NormalizeKey, KeptUnit;
      var c, rest := a[0], a[1..];
      assert a == [c] + rest;
      Associates([c], rest, b);
      NormalizeAppend(rest, b);
      NormalizeCons(c, rest);
      NormalizeCons(c, rest + b);
      Associates(KeptUnit(c), NormalizeKey(rest), NormalizeKey(b));
    }
  }

  lemma UnitsHeadTail(t: string)
    requires t != ""
    ensures Units(t) == [Units(t)[0]] + Units(t[1..])
  {
  }

  lemma {:induction false} NormalizeLower(t: string)
    requires Lower(t)
    ensures NormalizeKey(Units(t)) == Units(t)
  {
    if t != "" {
      NormalizeLower(t[1..]);
      UnitsHeadTail(t);
      NormalizeCons(Units(t)[0], Units(t[1..]));
    }
  }

  lemma TruncationKeyNormalized()
    ensures NormalizeKey(TRUNCATED_KEY) == Units("truncated")
  {
    hide NormalizeKey, KeptUnit;
    Bracket(91);
    Bracket(93);
    NormalizeLower("truncated");
    NormalizeAppend([91], Units("truncated"));
    NormalizeAppend([91] + Units("truncated"), [93]);
    assert TRUNCATED_KEY == [91] + Units("truncated") + [93];
  }

  lemma Bracket(c: JsonText.CodeUnit)
    requires c == 91 || c == 93
    ensures NormalizeKey([c]) == []
  {
    assert [c][1..] == [];
  }

  // -------------------------------------------------------------------- spared keys

  lemma PartUnitIn(text: Text, part: Text, j: nat)
    requires Includes(text, part) && j < |part|
    ensures part[j] in text
  {
    var i :| 0 <= i <= |text| && PartAt(text, part, i);
    assert text[i..i + |part|][j] == text[i + j];
  }

  lemma UnitsIn(word: string, c: char)
    requires Lower(word) && 'a' <= c <= 'z' && c as int in Units(word)
    ensures c in word
  {
    var k :| 0 <= k < |word| && Units(word)[k] == c as int;
    assert word[k] == c;
  }

  /** A fragment with a letter that the word does not have is not part of it. */
  lemma Foreign(word: string, part: string, j: nat)
    requires Lower(word) && Lower(part) && j < |part| && part[j] !in word
    ensures !Includes(Units(word), Units(part))
  {
    hide Includes;
    if Includes(Units(word), Units(part)) {
      PartUnitIn(Units(word), Units(part), j);
      UnitsIn(word, part[j]);
    }
  }

  predicate Lacks(word: string, i: nat, j: nat) {
    i < |DEFAULT_FRAGMENTS| && Lower(DEFAULT_FRAGMENTS[i]) && j < |DEFAULT_FRAGMENTS[i]| && DEFAULT_FRAGMENTS[i][j] !in word
  }

  /** A word that lacks a letter of every default fragment is not sensitive. */
  lemma Spared(key: Text, word: string, at: nat -> nat)
    requires NormalizeKey(key) == Units(word) && Lower(word)
    requires forall i :: 0 <= i < |DEFAULT_FRAGMENTS| ==> Lacks(word, i, at(i))
    ensures !IsSensitiveKey(key, DEFAULT_SENSITIVE_KEY_TOKENS)
  {
    hide NormalizeKey, Includes;
    forall i | 0 <= i < |DEFAULT_FRAGMENTS|
      ensures !Includes(Units(word), NormalizeKey(DEFAULT_SENSITIVE_KEY_TOKENS[i]))
    {
      assert Lacks(word, i, at(i));
      NormalizeLower(DEFAULT_FRAGMENTS[i]);
      Foreign(word, DEFAULT_FRAGMENTS[i], at(i));
    }
  }

  /** A place where the fragment has a letter that the word does not have. */
  function TruncatedLacks(i: nat): nat {
    if i == 0 || i == 2 then 4 else if i == 4 then 6 else if i == 6 then 7
    else if i == 1 || i == 5 || i == 7 || i == 8 || i == 17 then 1 else 0
  }

  function CauseLacks(i: nat): nat {
    if i == 2 then 6 else if i == 14 then 3 else if i == 15 then 4 else if i == 0 || i == 4 then 2
    else if i == 1 || 5 <= i <= 8 || i == 16 then 1 else 0
  }

  function MessageLacks(i: nat): nat {
    if i == 15 then 4 else if i == 14 then 2 else if i <= 2 || i == 16 then 1 else 0
  }

  lemma EarlyTruncatedLacks(i: nat)
    requires i < 9
    ensures Lacks("truncated", i, TruncatedLacks(i))
  {
  }

  lemma LateTruncatedLacks(i: nat)
    requires 9 <= i < 18
    ensures Lacks("truncated", i, TruncatedLacks(i))
  {
  }

  lemma EarlyCauseLacks(i: nat)
    requires i < 9
    ensures Lacks("cause", i, CauseLacks(i))
  {
  }

  lemma LateCauseLacks(i: nat)
    requires 9 <= i < 18
    ensures Lacks("cause", i, CauseLacks(i))
  {
  }

  lemma EarlyMessageLacks(i: nat)
    requires i < 9
    ensures Lacks("message", i, MessageLacks(i))
  {
  }

  lemma LateMessageLacks(i: nat)
    requires 9 <= i < 18
    ensures Lacks("message", i, MessageLacks(i))
  {
  }

  lemma AllFragments(i: nat)
    requires i < |DEFAULT_FRAGMENTS|
    ensures Lacks("truncated", i, TruncatedLacks(i))
    ensures Lacks("cause", i, CauseLacks(i)) && Lacks("message", i, MessageLacks(i))
  {
    hide Lacks, TruncatedLacks, CauseLacks, MessageLacks;
    if i < 9 {
      EarlyTruncatedLacks(i);
      EarlyCauseLacks(i);
      EarlyMessageLacks(i);
    } else {
      LateTruncatedLacks(i);
      LateCauseLacks(i);
      LateMessageLacks(i);
    }
  }

  lemma TruncationKeySpared()
    ensures !IsSensitiveKey(TRUNCATED_KEY, DEFAULT_SENSITIVE_KEY_TOKENS)
  {
    hide Lacks, TruncatedLacks, NormalizeKey, IsSensitiveKey;
    TruncationKeyNormalized();
    forall i | 0 <= i < |DEFAULT_FRAGMENTS| ensures Lacks("truncated", i, TruncatedLacks(i)) { AllFragments(i); }
    Spared(TRUNCATED_KEY, "truncated", TruncatedLacks);
  }

  /** The fields of a serialized error that carry its causes are not sensitive. */
  lemma ErrorFieldsSpared()
    ensures !IsSensitiveKey(Units("cause"), DEFAULT_SENSITIVE_KEY_TOKENS)
    ensures !IsSensitiveKey(Units("message"), DEFAULT_SENSITIVE_KEY_TOKENS)
  {
    hide Lacks, CauseLacks, MessageLacks, NormalizeKey, IsSensitiveKey;
    NormalizeLower("cause");
    NormalizeLower("message");
    forall i | 0 <= i < |DEFAULT_FRAGMENTS| ensures Lacks("cause", i, CauseLacks(i)) && Lacks("message", i, MessageLacks(i)) {
      AllFragments(i);
    }
    Spared(Units("cause"), "cause", CauseLacks);
    Spared(Units("message"), "message", MessageLacks);
  }

  lemma PasswordIsSensitive()
    ensures IsSensitiveKey(Units("password"), DEFAULT_SENSITIVE_KEY_TOKENS)
  {
    hide NormalizeKey;
    NormalizeLower("password");
    var key := Units("password");
    assert DEFAULT_SENSITIVE_KEY_TOKENS[10] == key;
    assert PartAt(key, key, 0) && Includes(key, key);
  }
}
