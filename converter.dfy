/**
 * The Room type converters and the duration formatter of Converter.kt.
 * A duration is an `Int` count of milliseconds; an `Instant` is stored as whole epoch seconds;
 * a `Path` is stored as its absolute string.
 */
module Converter {
  import opened Wrappers
  import opened Ints
  import opened Paths

  // ----- milliTimeToString -----

  predicate IsDigit(c: char) {
    '0' <= c <= '9'
  }

  predicate AllDigits(s: string) {
    forall i :: 0 <= i < |s| ==> IsDigit(s[i])
  }

  function DigitChar(d: nat): (c: char)
    requires d < 10
    ensures IsDigit(c) && c as int - '0' as int == d
  {
    ('0' as int + d) as char
  }

  /** The decimal digits of `n`, without leading zeros (`Int.toString()` of a non-negative value). */
  function NatToString(n: nat): (s: string)
    ensures |s| >= 1 && AllDigits(s)
  {
    if n < 10 then [DigitChar(n)] else NatToString(n / 10) + [DigitChar(n % 10)]
  }

  /** `Int.toString()`. */
  function IntToString(n: int): string {
    if n < 0 then "-" + NatToString(-n) else NatToString(n)
  }

  /** `String.padStart(length, c)`. */
  function PadStart(s: string, length: nat, c: char): (r: string)
    ensures |r| == if |s| >= length then |s| else length
    ensures r[|r| - |s|..] == s
    ensures forall i :: 0 <= i < |r| - |s| ==> r[i] == c
  {
    if |s| >= length then s else seq(length - |s|, _ => c) + s
  }

  /** `ceil(r.toDouble() / 1000).toInt()`; exact, since |r| < 60000 leaves no rounding error in the double. */
  function CeilThousandth(r: int): (q: int)
    ensures (q - 1) * 1000 < r <= q * 1000
  {
    if r >= 0 then (r + 999) / 1000 else -((-r) / 1000)
  }

  /** The minutes field: `value / (60 * 1000)`, rounding toward zero. */
  function Minutes(value: Int32): int {
    Quot(value, 60 * 1000)
  }

  /** The seconds field: the remainder after whole minutes, in whole seconds rounded up; never carried into the minutes. */
  function SecondsField(value: Int32): int {
    CeilThousandth(value - Minutes(value) * (60 * 1000))
  }

  /** `milliTimeToString(value)`: minutes and seconds, each left-padded with '0' to width 2, joined by ':'. */
  function MilliTimeToString(value: Int32): string {
    PadStart(IntToString(Minutes(value)), 2, '0') + ":" + PadStart(IntToString(SecondsField(value)), 2, '0')
  }

  // ----- reading a formatted duration back -----

  /** The number a string of decimal digits denotes (leading zeros allowed). */
  function DigitsValue(s: string): nat
    requires AllDigits(s)
  {
    if s == [] then 0 else DigitsValue(s[..|s| - 1]) * 10 + (s[|s| - 1] as int - '0' as int)
  }

  lemma {:induction false} NatToStringValue(n: nat)
    ensures DigitsValue(NatToString(n)) == n
  {
    if n >= 10 {
      var s := NatToString(n);
      assert s[..|s| - 1] == NatToString(n / 10);
      NatToStringValue(n / 10);
    }
  }

  lemma {:induction false} LeadingZerosValue(z: nat, s: string)
    requires AllDigits(s)
    ensures AllDigits(seq(z, _ => '0') + s)
    ensures DigitsValue(seq(z, _ => '0') + s) == DigitsValue(s)
    decreases |s|
  {
    var zs := seq(z, _ => '0');
    if s == [] {
      assert zs + s == zs;
      ZerosValue(z);
    } else {
      assert (zs + s)[..|zs + s| - 1] == zs + s[..|s| - 1];
      LeadingZerosValue(z, s[..|s| - 1]);
    }
  }

  lemma {:induction false} ZerosValue(z: nat)
    ensures DigitsValue(seq(z, _ => '0')) == 0
  {
    if z > 0 {
      assert seq(z, _ => '0')[..z - 1] == seq(z - 1, _ => '0');
      ZerosValue(z - 1);
    }
  }

  /** A zero-padded decimal field reads back as the number it was made from. */
  lemma PaddedValue(n: nat, width: nat)
    ensures AllDigits(PadStart(NatToString(n), width, '0'))
    ensures DigitsValue(PadStart(NatToString(n), width, '0')) == n
  {
    var s := NatToString(n);
    NatToStringValue(n);
    if |s| < width {
      LeadingZerosValue(width - |s|, s);
    }
  }

  /** Index of the first `c` in `s`, or `|s|` when there is none. */
  function IndexOf(s: string, c: char): (k: nat)
    ensures k <= |s|
    ensures forall i :: 0 <= i < k ==> s[i] != c
    ensures k < |s| ==> s[k] == c
  {
    if s == [] then 0 else if s[0] == c then 0 else 1 + IndexOf(s[1..], c)
  }

  /** Splits "mm:ss" at its first ':' into two non-empty digit fields, or fails. */
  function ParseDisplay(s: string): Option<(nat, nat)> {
    var k := IndexOf(s, ':');
    if 0 < k < |s| - 1 && AllDigits(s[..k]) && AllDigits(s[k + 1..]) then
      Some((DigitsValue(s[..k]), DigitsValue(s[k + 1..])))
    else None
  }

  lemma ParseDisplayOf(m: string, sec: string)
    requires |m| > 0 && |sec| > 0 && AllDigits(m) && AllDigits(sec)
    ensures ParseDisplay(m + ":" + sec) == Some((DigitsValue(m), DigitsValue(sec)))
  {
    var s := m + ":" + sec;
    assert s[|m|] == ':';
    assert forall i :: 0 <= i < |m| ==> s[i] == m[i];
    assert IndexOf(s, ':') == |m|;
    assert s[..|m|] == m && s[|m| + 1..] == sec;
  }

  /** Whole division by 1000 of `q * 1000 + r` when `0 <= r < 1000`. */
  lemma DivThousand(x: int, q: int, r: int)
    requires 0 <= r < 1000 && x == q * 1000 + r
    ensures x / 1000 == q
  {
  }

  /** The arithmetic of the two fields for a non-negative duration. */
  lemma FieldsOfNonNegative(value: Int32)
    requires value >= 0
    ensures Minutes(value) == value / 60000
    ensures SecondsField(value) == (value % 60000 + 999) / 1000
    ensures 0 <= SecondsField(value) <= 60
    ensures SecondsField(value) == 60 <==> value % 60000 > 59000
    ensures (value / 60000) * 60000 + SecondsField(value) * 1000 == ((value + 999) / 1000) * 1000
  {
    var m, r := value / 60000, value % 60000;
    assert value == m * 60000 + r;
    var sec := (r + 999) / 1000;
    var t := (r + 999) % 1000;
    assert r + 999 == sec * 1000 + t;
    assert value + 999 == (m * 60 + sec) * 1000 + t;
    DivThousand(value + 999, m * 60 + sec, t);
  }

  /**
   * What the display means for a non-negative duration: the minutes field is the whole minutes,
   * the seconds field is the rest rounded up to a whole second (0..60, 60 only when the rest
   * is above 59000 ms), both at least two digits wide, and the time shown is the duration
   * rounded up to a whole second.
   */
  lemma MilliTimeToStringMeaning(value: Int32)
    requires value >= 0
    ensures var out := MilliTimeToString(value);
      && ParseDisplay(out) == Some((value / 60000, SecondsField(value)))
      && 0 <= SecondsField(value) <= 60
      && (SecondsField(value) == 60 <==> value % 60000 > 59000)
      && (value / 60000) * 60000 + SecondsField(value) * 1000 == ((value + 999) / 1000) * 1000
      && |out| >= 5
  {
    FieldsOfNonNegative(value);
    var m, sec := Minutes(value), SecondsField(value);
    PaddedValue(m, 2);
    PaddedValue(sec, 2);
    ParseDisplayOf(PadStart(NatToString(m), 2, '0'), PadStart(NatToString(sec), 2, '0'));
  }

  /** Zero shows as "00:00". */
  lemma MilliTimeToStringZero()
    ensures MilliTimeToString(0) == "00:00"
  {
    assert Minutes(0) == 0 && SecondsField(0) == 0;
    assert IntToString(0) == "0";
    assert PadStart("0", 2, '0') == "00";
  }

  /** Rounding up: one millisecond already shows as a whole second. */
  lemma MilliTimeToStringRoundsUp()
    ensures MilliTimeToString(1) == "00:01"
  {
    assert Minutes(1) == 0 && SecondsField(1) == 1;
    assert IntToString(0) == "0" && IntToString(1) == "1";
    assert PadStart("0", 2, '0') == "00" && PadStart("1", 2, '0') == "01";
  }

  /** No carry: 59999 ms shows as "00:60", not "01:00". */
  lemma MilliTimeToStringNoCarry()
    ensures MilliTimeToString(59999) == "00:60"
  {
    assert Minutes(59999) == 0 && SecondsField(59999) == 60;
    assert NatToString(60) == "60";
  }

  /** Minutes are padded but not bounded. */
  lemma MilliTimeToStringMinutes()
    ensures MilliTimeToString(125000) == "02:05"
    ensures MilliTimeToString(6000000) == "100:00"
  {
    assert Minutes(125000) == 2 && SecondsField(125000) == 5;
    assert Minutes(6000000) == 100 && SecondsField(6000000) == 0;
    assert NatToString(100) == "100";
  }

  // ----- InstantConverters -----

  /** `java.time.Instant`: seconds since the epoch and a nanosecond adjustment in 0..999999999. */
  datatype Instant = Instant(epochSecond: int, nano: int)

  predicate ValidInstant(t: Instant) {
    0 <= t.nano < 1_000_000_000
  }

  /** `!a.isAfter(b)`. */
  predicate NotAfter(a: Instant, b: Instant) {
    a.epochSecond < b.epochSecond || (a.epochSecond == b.epochSecond && a.nano <= b.nano)
  }

  /** `fromInstant`: the stored column value, `value?.epochSecond`. */
  function FromInstant(value: Option<Instant>): (r: Option<int>)
    ensures r.None? <==> value.None?
    ensures r.Some? ==> r.value == value.value.epochSecond
  {
    match value
    case None => None
    case Some(t) => Some(t.epochSecond)
  }

  /** `toInstant`: `Instant.ofEpochSecond(it)` for a stored value. */
  function ToInstant(value: Option<int>): (r: Option<Instant>)
    ensures r.None? <==> value.None?
    ensures r.Some? ==> ValidInstant(r.value)
  {
    match value
    case None => None
    case Some(s) => Some(Instant(s, 0))
  }

  /** The stored seconds of an instant. */
  function StoredSeconds(t: Instant): int {
    FromInstant(Some(t)).value
  }

  /** Reading a stored value back and storing it again gives the same value; null stays null. */
  lemma InstantRoundTrip(value: Option<int>)
    ensures FromInstant(ToInstant(value)) == value
  {
  }

  /** Storing an instant and reading it back drops its sub-second part. */
  lemma InstantTruncates(t: Instant)
    ensures ToInstant(FromInstant(Some(t))) == Some(Instant(t.epochSecond, 0))
    ensures ValidInstant(t) ==> NotAfter(ToInstant(FromInstant(Some(t))).value, t)
  {
  }

  /** Storage keeps the order of instants, but only to the second. */
  lemma StoredOrder(a: Instant, b: Instant)
    ensures NotAfter(a, b) ==> StoredSeconds(a) <= StoredSeconds(b)
    ensures StoredSeconds(a) < StoredSeconds(b) ==> NotAfter(a, b) && a != b
  {
  }

  // ----- PathConverters -----

  /** `fromPath`: the absolute path string (the modelled paths are already absolute); null stays null. */
  function FromPath(value: Option<Path>): (r: Option<string>)
    ensures r.None? <==> value.None?
  {
    match value
    case None => None
    case Some(p) => Some(PathString(p))
  }

  /** `toPath`: `Paths.get(it)` on a stored (absolute) path string; null stays null. */
  function ToPath(value: Option<string>): (r: Option<Path>)
    requires value.Some? ==> IsAbsoluteString(value.value)
    ensures r.None? <==> value.None?
  {
    match value
    case None => None
    case Some(s) => Some(Split(s))
  }

  /** Storing a path and reading it back gives the same path. */
  lemma PathRoundTrip(value: Option<Path>)
    requires value.Some? ==> AllSegments(value.value)
    ensures FromPath(value).Some? ==> IsAbsoluteString(FromPath(value).value)
    ensures ToPath(FromPath(value)) == value
  {
    if value.Some? {
      ParsePathString(value.value);
    }
  }
}
