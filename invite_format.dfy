/** The expiry text the invite command prints: whole hours when the span is
    at least an hour, whole minutes otherwise, each with an English plural
    `s` unless the count is one. Spans are integer milliseconds. */
module InviteFormat {
  import opened Common

  const HourMs: int := 3600000
  const MinuteMs: int := 60000
  /** The span the invite command prints: 24 hours. */
  const InviteExpiryMs: int := 24 * 60 * 60 * 1000

  /** `Math.floor(a / b)` for a positive divisor. */
  function FloorDiv(a: int, b: int): (q: int)
    requires b > 0
    ensures q * b <= a < (q + 1) * b
  {
    a / b
  }

  /** `<count> <unit>` with an `s` when the count is not one. */
  function Counted(count: int, unit: string): string {
    IntToString(count) + " " + unit + (if count != 1 then "s" else "")
  }

  /** `formatExpiry(ms)`. */
  function FormatExpiry(ms: int): string {
    var hours := FloorDiv(ms, HourMs);
    if hours >= 1 then Counted(hours, "hour")
    else Counted(FloorDiv(ms, MinuteMs), "minute")
  }

  /** Which unit is printed, and the count is the whole number of that unit
      the span holds. */
  lemma ExpiryUnit(ms: int)
    ensures ms >= HourMs ==>
      exists h :: h >= 1 && h * HourMs <= ms < (h + 1) * HourMs && FormatExpiry(ms) == Counted(h, "hour")
    ensures ms < HourMs ==>
      exists m :: m * MinuteMs <= ms < (m + 1) * MinuteMs && FormatExpiry(ms) == Counted(m, "minute")
  {
    var h := FloorDiv(ms, HourMs);
    if ms >= HourMs {
      assert FormatExpiry(ms) == Counted(h, "hour");
    } else {
      assert h < 1;
      var m := FloorDiv(ms, MinuteMs);
      assert FormatExpiry(ms) == Counted(m, "minute");
    }
  }

  /** The plural rule: for a unit that does not itself end in `s`, the text
      ends in `s` exactly when the count is not one. */
  lemma PluralRule(count: int, unit: string)
    requires unit != [] && unit[|unit| - 1] != 's'
    ensures var t := Counted(count, unit); t[|t| - 1] == 's' <==> count != 1
  {
  }

  /** The span of a fresh invite prints as "24 hours"; no time prints as
      "0 minutes". */
  lemma ExpiryExamples()
    ensures FormatExpiry(InviteExpiryMs) == "24 hours"
    ensures FormatExpiry(0) == "0 minutes"
  {
    assert NatToRadix(2, 10) == "2";
    assert NatToRadix(24, 10) == NatToRadix(2, 10) + [DigitChar(4)];
    assert NatToString(0) == "0";
  }

  /** An hour and a minute print in the singular. */
  lemma SingularExamples()
    ensures FormatExpiry(HourMs) == "1 hour"
    ensures FormatExpiry(MinuteMs) == "1 minute"
  {
    assert NatToString(1) == "1";
  }
}
