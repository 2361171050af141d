/** A codec that keeps the laws the cursor theorems ask for: plain hexadecimal numerals. */
module CursorCodec {
  import opened Common
  import opened JobTable
  import opened JobListing

  function HexChar(d: nat): char
    requires d < 16
  {
    if d < 10 then (48 + d) as char else (87 + d) as char
  }

  function HexDigit(c: char): Option<nat> {
    if '0' <= c <= '9' then Some(c as nat - 48) else if 'a' <= c <= 'f' then Some(c as nat - 87) else None
  }

  /** The last k hexadecimal digits. */
  function Hex(n: nat, k: nat): (t: string)
    ensures |t| == k && forall i :: 0 <= i < k ==> '0' <= t[i] <= '9' || 'a' <= t[i] <= 'f'
  {
    if k == 0 then "" else Hex(n / 16, k - 1) + [HexChar(n % 16)]
  }

  function FromHex(t: string): Option<nat> {
    if t == "" then Some(0)
    else
      match (FromHex(t[..|t| - 1]), HexDigit(t[|t| - 1]))
      case (Some(high), Some(low)) => Some(16 * high + low)
      case _ => None
  }

  function Pow16(k: nat): nat {
    if k == 0 then 1 else 16 * Pow16(k - 1)
  }

  lemma {:induction false} Pow16Add(a: nat, b: nat)
    ensures Pow16(a + b) == Pow16(a) * Pow16(b)
  {
    if a > 0 { Pow16Add(a - 1, b); }
  }

  lemma UuidRange()
    ensures Pow16(36) > 0xFFFF_FFFF_FFFF_FFFF_FFFF_FFFF_FFFF_FFFF
  {
    assert Pow16(4) == 0x1_0000;
    Pow16Add(4, 4);
    Pow16Add(8, 8);
    Pow16Add(16, 16);
    Pow16Add(4, 32);
  }

  lemma {:induction false} HexRoundTrip(n: nat, k: nat)
    requires n < Pow16(k)
    ensures FromHex(Hex(n, k)) == Some(n)
    decreases k
  {
    if k > 0 {
      HexRoundTrip(n / 16, k - 1);
      assert Hex(n, k)[..k - 1] == Hex(n / 16, k - 1);
    }
  }

  function Iso(ms: Milliseconds): string {
    if ms < 0 then "-" + Hex(-ms, 36) else "+" + Hex(ms, 36)
  }

  function ParseDate(t: string): Option<Milliseconds> {
    if t == "" then None
    else
      match FromHex(t[1..])
      case None => None
      case Some(n) =>
        var ms: int := if t[0] == '-' then 0 - n else n;
        if -8_640_000_000_000_000 <= ms <= 8_640_000_000_000_000 then Some(ms) else None
  }

  function Uuid(id: JobId): string {
    Hex(id, 36)
  }

  function ParseUuid(t: string): Option<JobId> {
    match FromHex(t)
    case Some(n) => if n <= 0xFFFF_FFFF_FFFF_FFFF_FFFF_FFFF_FFFF_FFFF then Some(n) else None
    case None => None
  }

  const PLAIN: Codec := Codec(Iso, ParseDate, Uuid, ParseUuid, t => t, t => t)

  lemma IsoRoundTrip(ms: Milliseconds)
    ensures Iso(ms) != "" && '|' !in Iso(ms) && ParseDate(Iso(ms)) == Some(ms)
  {
    UuidRange();
    hide Pow16;
    var n := if ms < 0 then -ms else ms;
    HexRoundTrip(n, 36);
    hide Hex, FromHex;
    assert Iso(ms)[1..] == Hex(n, 36);
  }

  lemma UuidRoundTrip(id: JobId)
    ensures UuidText(Uuid(id)) && ParseUuid(Uuid(id)) == Some(id)
  {
    UuidRange();
    hide Pow16;
    HexRoundTrip(id, 36);
    hide Hex, FromHex;
  }

  /** The laws have a model. */
  lemma PlainIsLawful()
    ensures Lawful(PLAIN)
  {
    hide Iso, ParseDate, Uuid, ParseUuid, UuidText;
    forall ms: Milliseconds {:trigger PLAIN.iso(ms)}
      ensures PLAIN.iso(ms) != "" && '|' !in PLAIN.iso(ms) && PLAIN.parseDate(PLAIN.iso(ms)) == Some(ms)
    {
      IsoRoundTrip(ms);
    }
    forall id: JobId {:trigger PLAIN.uuid(id)}
      ensures UuidText(PLAIN.uuid(id)) && PLAIN.parseUuid(PLAIN.uuid(id)) == Some(id)
    {
      UuidRoundTrip(id);
    }
  }
}
