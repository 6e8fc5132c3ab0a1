/** Display formats of the chat client: audio durations as `m:ss` and file
    sizes with a unit. Durations are whole seconds; the fractional text of
    `toFixed(1)` is not modelled, only the choice of unit and the quotient it
    prints. */
module Format {
  import opened Common

  /** JavaScript `%`: the remainder takes the sign of the dividend. */
  function JsRem(a: int, b: int): (r: int)
    requires b > 0
    ensures a >= 0 ==> 0 <= r < b
    ensures a < 0 ==> -b < r <= 0
    ensures a >= 0 ==> r == a % b
  {
    if a >= 0 then a % b else -((-a) % b)
  }

  /** Unlike Dafny's `%`, the JavaScript remainder is odd in its dividend. */
  lemma JsRemOdd(a: int, b: int)
    requires b > 0
    ensures JsRem(-a, b) == -JsRem(a, b)
  {
  }

  /** `String.prototype.padStart(2, '0')`. */
  function PadStart2(s: string): (r: string)
    ensures |s| >= 2 ==> r == s
    ensures |s| < 2 ==> |r| == 2 && r[2 - |s|..] == s && forall i :: 0 <= i < 2 - |s| ==> r[i] == '0'
  {
    if |s| >= 2 then s else if |s| == 1 then "0" + s else "00"
  }

  /** `formatDuration(seconds)`: the minutes by floor division, then the
      JavaScript remainder padded to two characters. */
  function FormatDuration(seconds: int): string {
    var m := seconds / 60;
    var s := JsRem(seconds, 60);
    IntToString(m) + ":" + PadStart2(IntToString(s))
  }

  /** Decimal text of a number below ten is one digit, below a hundred at
      most two. */
  lemma SmallDecimal(n: nat)
    requires n < 100
    ensures n < 10 ==> |NatToString(n)| == 1
    ensures 10 <= n ==> |NatToString(n)| == 2
  {
    if n >= 10 {
      assert NatToRadix(n, 10) == NatToRadix(n / 10, 10) + [DigitChar(n % 10)];
    }
  }

  /** Parsing a one-digit text after a `0` gives back the same number. */
  lemma ParseLeadingZero(d: string)
    requires |d| == 1
    ensures ParseRadix("0" + d, 10) == ParseRadix(d, 10)
  {
    var t := "0" + d;
    assert t[..1] == "0";
    assert ParseRadix("0", 10) == 0 by {
      assert "0"[..0] == [];
    }
    assert d[..0] == [];
  }

  /** For a non-negative duration the text is the minutes, a colon and
      exactly two decimal digits, and reading those numbers back gives the
      duration. */
  lemma {:induction false} DurationRoundTrip(seconds: nat)
    ensures var t := FormatDuration(seconds);
      |t| >= 4 && t[|t| - 3] == ':' &&
      (forall i :: |t| - 2 <= i < |t| ==> '0' <= t[i] <= '9') &&
      ParseRadix(t[..|t| - 3], 10) * 60 + ParseRadix(t[|t| - 2..], 10) == seconds
  {
    var m := seconds / 60;
    var s := seconds % 60;
    assert JsRem(seconds, 60) == s;
    var mt := NatToString(m);
    var st := NatToString(s);
    SmallDecimal(s);
    var padded := PadStart2(st);
    var t := FormatDuration(seconds);
    assert t == mt + ":" + padded;
    assert |padded| == 2;
    assert t[..|t| - 3] == mt;
    assert t[|t| - 2..] == padded;
    ParseNatToRadix(m, 10);
    ParseNatToRadix(s, 10);
    if |st| == 1 {
      ParseLeadingZero(st);
    }
  }

  /** A negative duration keeps its sign in both parts. */
  lemma NegativeDurationExample()
    ensures FormatDuration(-5) == "-1:-5"
  {
    assert NatToString(1) == "1";
    assert NatToString(5) == "5";
  }

  const KiB: int := 1024
  const MiB: int := 1024 * 1024

  /** The text of `formatSize`: whole bytes printed exactly, or a quotient
      printed with one decimal (the decimal text is not modelled) and its
      unit. */
  datatype SizeText = Exact(text: string) | Scaled(quotient: real, unit: string)

  function FormatSize(bytes: int): (r: SizeText)
    ensures r.Exact? <==> bytes < KiB
    ensures r.Scaled? ==> r.quotient * (if r.unit == "KB" then KiB as real else MiB as real) == bytes as real
  {
    if bytes < KiB then Exact(IntToString(bytes) + " B")
    else if bytes < MiB then Scaled(bytes as real / KiB as real, "KB")
    else Scaled(bytes as real / MiB as real, "MB")
  }

  /** The unit is KB exactly on [1024, 1048576) and MB from there on; the
      exact quotient of a scaled size is at least one and, in KB, below
      1024 (its one-decimal text can still round up to "1024.0"). */
  lemma SizeUnits(bytes: int)
    ensures FormatSize(bytes).Scaled? ==> (FormatSize(bytes).unit == "KB" <==> bytes < MiB)
    ensures FormatSize(bytes).Scaled? ==> FormatSize(bytes).quotient >= 1.0
    ensures FormatSize(bytes).Scaled? && FormatSize(bytes).unit == "KB" ==> FormatSize(bytes).quotient < 1024.0
  {
  }

  /** Sizes below one kilobyte print their decimal digits and " B", and the
      digits read back as the size. */
  lemma SmallSizeExact(bytes: nat)
    requires bytes < KiB
    ensures var t := FormatSize(bytes).text;
      t[|t| - 2..] == " B" && ParseRadix(t[..|t| - 2], 10) == bytes
  {
    var t := FormatSize(bytes).text;
    assert t[..|t| - 2] == NatToString(bytes);
    ParseNatToRadix(bytes, 10);
  }
}
