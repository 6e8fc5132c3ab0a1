/** `extractWidgetId` of the widget framework: the token after a
    `widget-id:` marker in the code if there is one, else `w` followed by
    the base-36 magnitude of a 32-bit rolling hash of the code's UTF-16
    units. */
module WidgetId {
  import opened Common

  // ---------------------------------------------------------------------------
  // The marker

  /** `[\w-]`. */
  predicate IsIdChar(c: char) {
    IsWordChar(c) || c == '-'
  }

  /** The end of the run of whitespace starting at `k`. */
  function SkipSpaces(s: string, k: nat): (r: nat)
    requires k <= |s|
    ensures k <= r <= |s| && (r == |s| || !IsJsSpace(s[r]))
    ensures forall m :: k <= m < r ==> IsJsSpace(s[m])
    decreases |s| - k
  {
    if k < |s| && IsJsSpace(s[k]) then SkipSpaces(s, k + 1) else k
  }

  /** The end of the run of `[\w-]` characters starting at `k`. */
  function IdRun(s: string, k: nat): (r: nat)
    requires k <= |s|
    ensures k <= r <= |s| && (r == |s| || !IsIdChar(s[r]))
    ensures forall m :: k <= m < r ==> IsIdChar(s[m])
    decreases |s| - k
  {
    if k < |s| && IsIdChar(s[k]) then IdRun(s, k + 1) else k
  }

  const Marker: string := "widget-id:"

  /** What `/widget-id:\s*([\w-]+)/i` captures when it matches at `i`. */
  function TokenAt(s: string, i: nat): (r: Option<string>)
    ensures r.Some? ==> CiAt(s, i, Marker) && r.value != [] && forall k :: 0 <= k < |r.value| ==> IsIdChar(r.value[k])
  {
    if CiAt(s, i, Marker) then
      var j := SkipSpaces(s, i + |Marker|);
      var e := IdRun(s, j);
      if e > j then Some(s[j..e]) else None
    else None
  }

  /** The capture of the first match at or after `from`. */
  function FirstToken(s: string, from: nat): (r: Option<string>)
    ensures r.Some? ==> exists i :: from <= i < |s| && TokenAt(s, i) == r && forall k :: from <= k < i ==> TokenAt(s, k).None?
    ensures r.None? ==> forall k :: from <= k < |s| ==> TokenAt(s, k).None?
    decreases |s| - from
  {
    if from >= |s| then None
    else if TokenAt(s, from).Some? then TokenAt(s, from)
    else FirstToken(s, from + 1)
  }

  /** The token may follow the marker after whitespace, in any letter
      case. */
  lemma MarkerExamples()
    ensures FirstToken("Widget-ID:  chart-1!", 0) == Some("chart-1")
  {
    ChartMarker();
    ChartRun();
  }

  /** The example's marker and the spaces after it. */
  lemma ChartMarker()
    ensures CiAt("Widget-ID:  chart-1!", 0, Marker) && SkipSpaces("Widget-ID:  chart-1!", 10) == 12
  {
    assert CiAt("Widget-ID:  chart-1!", 0, Marker);
  }

  /** The example's token and the character that ends it. */
  lemma ChartRun()
    ensures IdRun("Widget-ID:  chart-1!", 12) == 19 && "Widget-ID:  chart-1!"[12..19] == "chart-1"
  {
    assert IdRun("Widget-ID:  chart-1!", 12) == 19;
  }

  /** A marker followed by a character outside `[\w-]` is no match. */
  lemma MarkerWithoutToken()
    ensures TokenAt("widget-id: !", 0).None?
  {
    assert SkipSpaces("widget-id: !", 10) == 11;
    assert IdRun("widget-id: !", 11) == 11;
  }

  // ---------------------------------------------------------------------------
  // The hash

  const Two32: int := 0x1_0000_0000

  /** `ToInt32`: the signed 32-bit integer congruent to `x` modulo 2^32. */
  function Wrap32(x: int): (r: int)
    ensures -0x8000_0000 <= r < 0x8000_0000
    ensures (x - r) % Two32 == 0
  {
    var m := x % Two32;
    if m >= 0x8000_0000 then m - Two32 else m
  }

  lemma Wrap32Congruent(x: int, y: int, k: int)
    requires x == y + k * Two32
    ensures Wrap32(x) == Wrap32(y)
  {
    assert x % Two32 == y % Two32;
  }

  /** One loop step as written: `hash = ((hash << 5) - hash) + c; hash |= 0`. */
  function StepAsWritten(h: int, c: nat): int {
    Wrap32(Wrap32(h * 32) - h + c)
  }

  /** The fold step `h * 31 + c` wrapped to 32 bits. */
  function Step(h: int, c: nat): int {
    Wrap32(h * 31 + c)
  }

  /** The shift-and-subtract step is multiplication by 31 modulo 2^32. */
  lemma StepAsWrittenIsFold(h: int, c: nat)
    ensures StepAsWritten(h, c) == Step(h, c)
  {
    var w := Wrap32(h * 32);
    var k := (h * 32 - w) / Two32;
    assert h * 32 - w == k * Two32;
    Wrap32Congruent(h * 31 + c, w - h + c, k);
  }

  /** The hash of a sequence of UTF-16 code units. */
  function Hash(units: seq<nat>): (h: int)
    ensures -0x8000_0000 <= h < 0x8000_0000
  {
    if units == [] then 0 else Step(Hash(units[..|units| - 1]), units[|units| - 1])
  }

  function Abs(h: int): nat {
    if h < 0 then -h else h
  }

  /** The identifier `extractWidgetId(code)` returns. */
  function IdOf(code: string): string {
    match FirstToken(code, 0)
    case Some(t) => t
    case None => "w" + NatToRadix(Abs(Hash(Utf16(code))), 36)
  }

  /** `extractWidgetId`, with its for-loop over the code units. */
  method ExtractWidgetId(code: string) returns (id: string)
    ensures id == IdOf(code)
  {
    var token := FirstToken(code, 0);
    if token.Some? {
      return token.value;
    }
    var units := Utf16(code);
    var hash := 0;
    for i := 0 to |units|
      invariant hash == Hash(units[..i])
    {
      assert units[..i + 1][..i] == units[..i];
      StepAsWrittenIsFold(hash, units[i]);
      hash := StepAsWritten(hash, units[i]);
    }
    assert units[..|units|] == units;
    var magnitude := if hash < 0 then -hash else hash;
    id := "w" + NatToRadix(magnitude, 36);
  }

  /** A marked id is the first token; otherwise the id is `w` and the
      base-36 digits of the hash's magnitude, which read back as it. */
  lemma IdShape(code: string)
    ensures FirstToken(code, 0).Some? ==> IdOf(code) == FirstToken(code, 0).value && IdOf(code) != []
    ensures FirstToken(code, 0).None? ==>
      && IdOf(code)[0] == 'w'
      && ParseRadix(IdOf(code)[1..], 36) == Abs(Hash(Utf16(code)))
      && Abs(Hash(Utf16(code))) <= 0x8000_0000
  {
    if FirstToken(code, 0).None? {
      var digits := NatToRadix(Abs(Hash(Utf16(code))), 36);
      assert IdOf(code)[1..] == digits;
      ParseNatToRadix(Abs(Hash(Utf16(code))), 36);
    }
  }

  /** Unmarked codes with different hashes get different ids. */
  lemma HashIdsDiffer(a: string, b: string)
    requires FirstToken(a, 0).None? && FirstToken(b, 0).None?
    requires Abs(Hash(Utf16(a))) != Abs(Hash(Utf16(b)))
    ensures IdOf(a) != IdOf(b)
  {
    if IdOf(a) == IdOf(b) {
      IdShape(a);
      IdShape(b);
    }
  }

  lemma EmptyCodeId()
    ensures IdOf("") == "w0"
  {
  }
}
