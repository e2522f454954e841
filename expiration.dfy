/** The expiration evaluator: what one pass of the token loop in
    checkTokenExpirations decides for a single token. */
module Expiration {
  import opened Tokens

  datatype Option<T> = None | Some(value: T)

  /** The parser for RFC 3339 timestamps (section 5.6 of RFC 3339), as a
      partial function from text to an instant in whole seconds. */
  type Parser = string -> Option<int>

  /** Time of day appended to a date-only expiry, so that a token stays
      valid through the end of its last day (UTC). */
  const EndOfDaySuffix: string := "T23:59:59Z"

  /** Length of a date-only expiry, YYYY-MM-DD. */
  const DateOnlyLength := 10

  /** Tokens with exactly this name are never published. */
  const RedactedName: string := "Private Token"

  const SecondsPerDay := 86400

  /** Bytes in the UTF-8 encoding of one character. */
  function Utf8Width(c: char): (w: nat)
    ensures 1 <= w <= 4
    ensures w == 1 <==> c as int < 0x80
  {
    if c as int < 0x80 then 1
    else if c as int < 0x800 then 2
    else if c as int < 0x10000 then 3
    else 4
  }

  /** Go's len on a string: the number of bytes of its UTF-8 encoding. */
  function ByteLength(s: string): (n: nat)
    ensures n >= |s|
  {
    if s == [] then 0 else Utf8Width(s[0]) + ByteLength(s[1..])
  }

  lemma {:induction false} ByteLengthConcat(a: string, b: string)
    ensures ByteLength(a + b) == ByteLength(a) + ByteLength(b)
  {
    if a == [] {
      assert a + b == b;
    } else {
      assert (a + b)[1..] == a[1..] + b;
      ByteLengthConcat(a[1..], b);
    }
  }

  /** For ASCII text, and so for every RFC 3339 timestamp, the byte length
      is the number of characters. */
  lemma {:induction false} ByteLengthOfAscii(s: string)
    requires forall i :: 0 <= i < |s| ==> s[i] as int < 0x80
    ensures ByteLength(s) == |s|
  {
    if s != [] {
      ByteLengthOfAscii(s[1..]);
    }
  }

  /** The expiry text handed to the parser: the suffix is appended exactly
      when the text is 10 bytes long; the original text always stays its
      prefix; the result is never 10 bytes long, so padding twice pads
      once. */
  function Pad(expiresAt: string): (r: string)
    ensures r != expiresAt <==> ByteLength(expiresAt) == DateOnlyLength
    ensures |r| >= |expiresAt| && r[..|expiresAt|] == expiresAt
    ensures ByteLength(expiresAt) == DateOnlyLength ==> r[|expiresAt|..] == EndOfDaySuffix
    ensures ByteLength(r) != DateOnlyLength
  {
    if ByteLength(expiresAt) == DateOnlyLength then
      ByteLengthOfAscii(EndOfDaySuffix);
      ByteLengthConcat(expiresAt, EndOfDaySuffix);
      expiresAt + EndOfDaySuffix
    else expiresAt
  }

  lemma PadIdempotent(s: string)
    ensures Pad(Pad(s)) == Pad(s)
  {
  }

  /** Whole days from `now` until `expiry`, the division truncated toward
      zero as Go's int conversion does: r days have fully elapsed between
      the two instants, in the direction of the difference, and a (r + 1)th
      has not. */
  function DaysUntil(expiry: int, now: int): (r: int)
    ensures expiry >= now ==> r * SecondsPerDay <= expiry - now < (r + 1) * SecondsPerDay
    ensures expiry < now ==> (r - 1) * SecondsPerDay < expiry - now <= r * SecondsPerDay
    ensures r > 0 <==> expiry - now >= SecondsPerDay
    ensures r < 0 <==> now - expiry >= SecondsPerDay
  {
    var d := expiry - now;
    if d >= 0 then d / SecondsPerDay else -((-d) / SecondsPerDay)
  }

  /** As `now` advances the published count never goes up. */
  lemma DaysUntilMonotone(expiry: int, now1: int, now2: int)
    requires now1 <= now2
    ensures DaysUntil(expiry, now2) <= DaysUntil(expiry, now1)
  {
  }

  /** Truncation is not a floor: one second past expiry still reads 0 days,
      where a floor division of -1 by a day would give -1. */
  lemma TruncatesTowardZero(now: int)
    ensures DaysUntil(now - 1, now) == 0
  {
  }

  /** What the token loop does with one token. */
  datatype Decision =
    | Unparseable             // the padded expiry did not parse: logged and skipped
    | Redacted                // named "Private Token": skipped silently
    | Publish(key: Labels, days: int)

  /** One iteration of the token loop: pad, parse, redaction check (after
      the parse), then the day count under the token's label triple. */
  function Decide(t: Token, parse: Parser, now: int): (d: Decision)
    ensures d.Unparseable? <==> parse(Pad(t.expiresAt)).None?
    ensures d.Redacted? <==> parse(Pad(t.expiresAt)).Some? && t.name == RedactedName
    ensures d.Publish? ==> d.key == KeyOf(t) && d.days == DaysUntil(parse(Pad(t.expiresAt)).value, now)
    ensures d.Publish? ==> d.key.tokenName != RedactedName
  {
    match parse(Pad(t.expiresAt))
    case None => Unparseable
    case Some(expiry) =>
      if t.name == RedactedName then Redacted else Publish(KeyOf(t), DaysUntil(expiry, now))
  }

  /** The redaction rule: a token named "Private Token" is never published,
      whatever its expiry, id or owner and whatever the parser says. */
  lemma RedactedNeverPublished(t: Token, parse: Parser, now: int)
    requires t.name == RedactedName
    ensures !Decide(t, parse, now).Publish?
  {
  }

  /** A date-only expiry is read as the end of that day: the instant the
      parser sees is the date with 23:59:59Z appended. */
  lemma DateOnlyMeansEndOfDay(t: Token, parse: Parser, now: int)
    requires ByteLength(t.expiresAt) == DateOnlyLength
    requires t.name != RedactedName
    requires parse(t.expiresAt + EndOfDaySuffix).Some?
    ensures Decide(t, parse, now) == Publish(KeyOf(t), DaysUntil(parse(t.expiresAt + EndOfDaySuffix).value, now))
  {
  }

  /** A token expiring 2030-01-10 (date only, so read as 2030-01-10T23:59:59Z,
      instant 1894319999), evaluated at 2030-01-01T00:00:00Z (instant
      1893456000), is published with 9 days: 9 days, 23 hours, 59 minutes
      and 59 seconds, truncated. */
  lemma EndOfDayExample(t: Token, parse: Parser)
    requires t.expiresAt == "2030-01-10" && t.name != RedactedName
    requires parse("2030-01-10T23:59:59Z") == Some(1894319999)
    ensures Decide(t, parse, 1893456000) == Publish(KeyOf(t), 9)
  {
    ExampleDateIsDateOnly();
    ExamplePadded();
  }

  lemma ExampleDateIsDateOnly()
    ensures ByteLength("2030-01-10") == DateOnlyLength
  {
    var e := "2030-01-10";
    assert forall i :: 0 <= i < |e| ==> e[i] as int < 0x80;
    ByteLengthOfAscii(e);
  }

  lemma ExamplePadded()
    ensures "2030-01-10" + EndOfDaySuffix == "2030-01-10T23:59:59Z"
  {
  }
}
