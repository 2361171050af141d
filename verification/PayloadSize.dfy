/** The size limit of payloads, in the bytes of their UTF-8 text, and what that text looks like. */
module PayloadSize {
  import opened Common
  import opened JsonText
  import opened CanonicalPayload

  type Byte = b: int | 0 <= b < 256

  /** UTF-8 of a UTF-16 text: a surrogate pair is one character of four bytes, a lone surrogate becomes U+FFFD. */
  function Utf8(t: Text): seq<Byte> {
    if t == [] then []
    else if t[0] < 0x80 then [t[0]] + Utf8(t[1..])
    else if t[0] < 0x800 then [0xC0 + t[0] / 64, 0x80 + t[0] % 64] + Utf8(t[1..])
    else if HighSurrogate(t[0]) && |t| > 1 && LowSurrogate(t[1]) then
      var high: int, low: int := t[0], t[1];
      var point: int := 0x10000 + (high - 0xD800) * 0x400 + (low - 0xDC00);
      [0xF0 + point / 0x40000, 0x80 + point / 0x1000 % 64, 0x80 + point / 64 % 64, 0x80 + point % 64] + Utf8(t[2..])
    else if HighSurrogate(t[0]) || LowSurrogate(t[0]) then [0xEF, 0xBF, 0xBD] + Utf8(t[1..])
    else [0xE0 + t[0] / 0x1000, 0x80 + t[0] / 64 % 64, 0x80 + t[0] % 64] + Utf8(t[1..])
  }

  /** Surrogates come in pairs only. */
  predicate Paired(t: Text) {
    t == [] ||
    (if HighSurrogate(t[0]) then |t| > 1 && LowSurrogate(t[1]) && Paired(t[2..])
     else !LowSurrogate(t[0]) && Paired(t[1..]))
  }

  predicate NoSurrogates(t: Text) {
    forall i :: 0 <= i < |t| ==> !HighSurrogate(t[i]) && !LowSurrogate(t[i])
  }

  lemma {:induction false} SizeOfPaired(t: Text)
    requires Paired(t)
    ensures |Utf8(t)| == ByteLength(t)
  {
    if t != [] {
      if HighSurrogate(t[0]) {
        SizeOfPaired(t[2..]);
        assert t[1..][1..] == t[2..] && t[1..][0] == t[1];
        assert ByteLength(t[1..]) == 2 + ByteLength(t[2..]);
      } else {
        SizeOfPaired(t[1..]);
      }
    }
  }

  lemma {:induction false} PlainFront(front: Text, rest: Text)
    requires NoSurrogates(front) && Paired(rest)
    ensures Paired(front + rest)
  {
    if front == [] {
      assert front + rest == rest;
    } else {
      PlainFront(front[1..], rest);
      assert (front + rest)[0] == front[0] && (front + rest)[1..] == front[1..] + rest;
    }
  }

  lemma HexIsPlain(c: CodeUnit)
    ensures NoSurrogates(HexEscape(c))
  {
  }

  lemma {:induction false} EscapePairs(s: Text, rest: Text)
    requires Paired(rest)
    ensures Paired(Escape(s, rest))
  {
    if s != [] {
      if ShortEscape(s[0]).Some? {
        EscapePairs(s[1..], rest);
        PlainFront([BACKSLASH, ShortEscape(s[0]).value], Escape(s[1..], rest));
      } else if s[0] < 32 {
        EscapePairs(s[1..], rest);
        HexIsPlain(s[0]);
        PlainFront(HexEscape(s[0]), Escape(s[1..], rest));
      } else if HighSurrogate(s[0]) && |s| > 1 && LowSurrogate(s[1]) {
        EscapePairs(s[2..], rest);
        var tail := Escape(s[2..], rest);
        assert ([s[0]] + ([s[1]] + tail))[2..] == tail && ([s[0]] + ([s[1]] + tail))[1] == s[1];
      } else {
        EscapePairs(s[1..], rest);
        HexIsPlain(s[0]);
        if HighSurrogate(s[0]) || LowSurrogate(s[0]) { PlainFront(HexEscape(s[0]), Escape(s[1..], rest)); }
        else { PlainFront([s[0]], Escape(s[1..], rest)); }
      }
    }
  }

  lemma QuotedPairs(s: Text, rest: Text)
    requires Paired(rest)
    ensures Paired(Quoted(s, rest))
  {
    hide Escape;
    PlainFront([QUOTE], rest);
    EscapePairs(s, [QUOTE] + rest);
    PlainFront([QUOTE], Escape(s, [QUOTE] + rest));
  }

  /** A printed value has surrogates in pairs only, whatever strings it holds. */
  lemma {:induction false} PrintPairs(v: Json, rest: Text)
    requires WellFormed(v) && Paired(rest)
    ensures Paired(PrintThen(v, rest))
    decreases v, 1
  {
    hide Paired, Quoted;
    match v
    case Null => PlainFront(NULL_TEXT, rest);
    case Bool(b) => PlainFront(if b then TRUE_TEXT else FALSE_TEXT, rest);
    case Number(text) => PlainFront(text, rest);
    case Str(chars) => QuotedPairs(chars, rest);
    case Array(items) =>
      PlainFront([CLOSE_ARRAY], rest);
      ItemsPair(items, [CLOSE_ARRAY] + rest);
      PlainFront([OPEN_ARRAY], PrintItems(items, [CLOSE_ARRAY] + rest));
    case Object(members) =>
      PlainFront([CLOSE_OBJECT], rest);
      MembersPair(members, [CLOSE_OBJECT] + rest);
      PlainFront([OPEN_OBJECT], PrintMembers(members, [CLOSE_OBJECT] + rest));
  }

  lemma {:induction false} ItemsPair(items: seq<Json>, rest: Text)
    requires (forall i :: 0 <= i < |items| ==> WellFormed(items[i])) && Paired(rest)
    ensures Paired(PrintItems(items, rest))
    decreases items, 0
  {
    hide Paired, PrintThen;
    if |items| == 1 {
      PrintPairs(items[0], rest);
    } else if items != [] {
      ItemsPair(items[1..], rest);
      PlainFront([COMMA], PrintItems(items[1..], rest));
      PrintPairs(items[0], [COMMA] + PrintItems(items[1..], rest));
    }
  }

  lemma {:induction false} MemberPairs(m: (Text, Json), rest: Text)
    requires WellFormed(m.1) && Paired(rest)
    ensures Paired(PrintMember(m, rest))
    decreases m, 0
  {
    hide Paired, PrintThen, Quoted;
    PrintPairs(m.1, rest);
    PlainFront([COLON], PrintThen(m.1, rest));
    QuotedPairs(m.0, [COLON] + PrintThen(m.1, rest));
  }

  lemma {:induction false} MembersPair(members: seq<(Text, Json)>, rest: Text)
    requires (forall i :: 0 <= i < |members| ==> WellFormed(members[i].1)) && Paired(rest)
    ensures Paired(PrintMembers(members, rest))
    decreases members, 0
  {
    hide Paired, PrintMember;
    if |members| == 1 {
      MemberPairs(members[0], rest);
    } else if members != [] {
      MembersPair(members[1..], rest);
      PlainFront([COMMA], PrintMembers(members[1..], rest));
      MemberPairs(members[0], [COMMA] + PrintMembers(members[1..], rest));
    }
  }

  /** A payload is accepted exactly when its canonical text takes at most 16 KiB in UTF-8; else its size is reported. */
  lemma AcceptedUpToLimitExactly(v: Json)
    requires WellFormed(v)
    ensures var text := Print(Canonicalize(v));
            SerializeJobPayload(v) == if |Utf8(text)| <= 16_384 then Ok(text) else Err(TooLarge(|Utf8(text)|))
  {
    hide Print, Canonicalize, Utf8, ByteLength, Paired, WellFormed;
    CanonicalWellFormed(v);
    assert Paired([]) by { NothingPairs(); }
    PrintedPairs(Canonicalize(v));
    SizeOfPaired(Print(Canonicalize(v)));
  }

  lemma NothingPairs()
    ensures Paired([])
  {
  }

  lemma PrintedPairs(v: Json)
    requires WellFormed(v)
    ensures Paired(Print(v))
  {
    NothingPairs();
    hide PrintThen, WellFormed, Paired;
    PrintPairs(v, []);
  }

  // ---------------------------------------------------------------- what a text looks like

  /** Escape of one unit before the rest, when it needs no look at the next. */
  lemma EscapeStep(c: CodeUnit, s: Text, rest: Text)
    ensures ShortEscape(c).Some? ==> Escape([c] + s, rest) == [BACKSLASH, ShortEscape(c).value] + Escape(s, rest)
    ensures ShortEscape(c).None? && c < 32 ==> Escape([c] + s, rest) == HexEscape(c) + Escape(s, rest)
  {
    assert ([c] + s)[1..] == s;
  }

  /** The escapes of RFC 8259, section 7, that are written: the short ones, and four hexadecimal digits in lower case. */
  lemma EscapesWritten(s: Text, rest: Text)
    ensures Escape([34] + s, rest) == [92, 34] + Escape(s, rest)
    ensures Escape([92] + s, rest) == [92, 92] + Escape(s, rest)
    ensures Escape([8] + s, rest) == [92, 98] + Escape(s, rest)
    ensures Escape([9] + s, rest) == [92, 116] + Escape(s, rest)
    ensures Escape([10] + s, rest) == [92, 110] + Escape(s, rest)
    ensures Escape([12] + s, rest) == [92, 102] + Escape(s, rest)
    ensures Escape([13] + s, rest) == [92, 114] + Escape(s, rest)
    ensures Escape([31] + s, rest) == [92, 117, 48, 48, 49, 102] + Escape(s, rest)
  {
    hide Escape;
    EscapeStep(34, s, rest);
    EscapeStep(92, s, rest);
    EscapeStep(8, s, rest);
    EscapeStep(9, s, rest);
    EscapeStep(10, s, rest);
    EscapeStep(12, s, rest);
    EscapeStep(13, s, rest);
    EscapeStep(31, s, rest);
  }

  const SAMPLE: Json := Object([([97], Array([Null, Bool(true)])), ([98], Bool(false))])

  /** `{"a":[null,true],"b":false}` */
  lemma SampleText()
    ensures Print(SAMPLE) == [123] + ([34, 97, 34, 58, 91, 110, 117, 108, 108, 44, 116, 114, 117, 101, 93] +
                              ([44] + [34, 98, 34, 58, 102, 97, 108, 115, 101, 125]))
  {
    var a, b := ([97], Array([Null, Bool(true)])), ([98], Bool(false));
    SampleLast();
    SampleFirst([44] + PrintMember(b, [125]));
    hide PrintMember;
    assert [CLOSE_OBJECT] + [] == [125];
    assert [a, b][1..] == [b];
    assert PrintMembers([b], [125]) == PrintMember(b, [125]);
    assert PrintMembers([a, b], [125]) == PrintMember(a, [44] + PrintMember(b, [125]));
  }

  lemma SampleLast()
    ensures PrintMember(([98], Bool(false)), [125]) == [34, 98, 34, 58, 102, 97, 108, 115, 101, 125]
  {
    hide Quoted;
    SampleName(98, [102, 97, 108, 115, 101, 125]);
    assert FALSE_TEXT + [125] == [102, 97, 108, 115, 101, 125];
  }

  lemma SampleFirst(rest: Text)
    ensures PrintMember(([97], Array([Null, Bool(true)])), rest)
         == [34, 97, 34, 58, 91, 110, 117, 108, 108, 44, 116, 114, 117, 101, 93] + rest
  {
    hide Quoted, PrintItems;
    SampleItems([93] + rest);
    SampleName(97, [91] + PrintItems([Null, Bool(true)], [93] + rest));
  }

  lemma SampleItems(rest: Text)
    ensures PrintItems([Null, Bool(true)], rest) == [110, 117, 108, 108, 44, 116, 114, 117, 101] + rest
  {
    assert [Null, Bool(true)][1..] == [Bool(true)];
    assert PrintItems([Bool(true)], rest) == [116, 114, 117, 101] + rest;
  }

  lemma SampleName(c: CodeUnit, rest: Text)
    requires 97 <= c <= 122
    ensures Quoted([c], [COLON] + rest) == [34, c, 34, 58] + rest
  {
    assert [c][1..] == [];
    assert Escape([c], [QUOTE] + ([COLON] + rest)) == [c] + ([QUOTE] + ([COLON] + rest));
  }
}
