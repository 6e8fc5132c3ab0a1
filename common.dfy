/** Helpers shared by every part of the model: optional values, JavaScript
    truthiness of request fields, the whitespace set of String.prototype.trim,
    substring search, radix text for numbers, and an order-keeping filter. */
module Common {

  datatype Option<T> = None | Some(value: T)

  /** A field read from a JSON body or a posted message, as JavaScript sees it:
      missing, a string, or some other JSON value (truthy or not). */
  datatype Field = Absent | Str(s: string) | NonString(truthy: bool)

  /** `!!f` in JavaScript. */
  predicate Truthy(f: Field) {
    match f
    case Absent => false
    case Str(s) => s != ""
    case NonString(t) => t
  }

  /** An optional string is truthy when present and non-empty. */
  predicate Present(o: Option<string>) {
    o.Some? && o.value != ""
  }

  /** `o || d` for an optional string. */
  function OrElse(o: Option<string>, d: string): (r: string)
    ensures Present(o) ==> r == o.value
    ensures !Present(o) ==> r == d
  {
    if Present(o) then o.value else d
  }

  // ---------------------------------------------------------------------------
  // UTF-16 code units, the unit of JavaScript's `length`, `slice` and `charCodeAt`

  /** The UTF-16 code units of `s`: one for a character of the Basic
      Multilingual Plane, a surrogate pair for any other. */
  function Utf16(s: string): (u: seq<nat>)
    ensures |u| >= |s|
    ensures forall k :: 0 <= k < |u| ==> u[k] < 0x1_0000
  {
    if s == [] then []
    else
      var c := s[0] as int;
      (if c < 0x1_0000 then [c] else [0xD800 + (c - 0x1_0000) / 0x400, 0xDC00 + (c - 0x1_0000) % 0x400]) + Utf16(s[1..])
  }

  predicate InBmp(c: char) {
    c as int < 0x1_0000
  }

  lemma {:induction false} Utf16Append(a: string, b: string)
    ensures Utf16(a + b) == Utf16(a) + Utf16(b)
    decreases |a|
  {
    if a == [] {
      assert a + b == b;
    } else {
      TailOfAppend(a, b);
      Utf16Append(a[1..], b);
    }
  }

  /** Text of the Basic Multilingual Plane has one code unit per
      character, each equal to the character's code. */
  lemma {:induction false} Utf16OfBmp(s: string)
    requires forall i :: 0 <= i < |s| ==> InBmp(s[i])
    ensures |Utf16(s)| == |s|
    ensures forall i :: 0 <= i < |s| ==> Utf16(s)[i] == s[i] as int
    decreases |s|
  {
    if s != [] {
      Utf16OfBmp(s[1..]);
    }
  }

  /** Text outside the Basic Multilingual Plane has two code units per
      character. */
  lemma {:induction false} Utf16OfAstral(s: string)
    requires forall i :: 0 <= i < |s| ==> !InBmp(s[i])
    ensures |Utf16(s)| == 2 * |s|
    decreases |s|
  {
    if s != [] {
      Utf16OfAstral(s[1..]);
    }
  }

  /** The code units of a prefix are a prefix of the code units. */
  lemma Utf16Prefix(s: string, k: nat)
    requires k <= |s|
    ensures |Utf16(s[..k])| <= |Utf16(s)|
    ensures Utf16(s)[..|Utf16(s[..k])|] == Utf16(s[..k])
  {
    assert s == s[..k] + s[k..];
    Utf16Append(s[..k], s[k..]);
  }

  // ---------------------------------------------------------------------------
  // Whitespace and trim

  /** WhiteSpace and LineTerminator code points of ECMAScript (the `\s` class
      and the characters `trim` removes). */
  predicate IsJsSpace(c: char) {
    c == '\U{0009}' || c == '\U{000A}' || c == '\U{000B}' || c == '\U{000C}' || c == '\U{000D}' ||
    c == ' ' || c == '\U{00A0}' || c == '\U{1680}' ||
    ('\U{2000}' <= c <= '\U{200A}') ||
    c == '\U{2028}' || c == '\U{2029}' || c == '\U{202F}' || c == '\U{205F}' || c == '\U{3000}' || c == '\U{FEFF}'
  }

  function TrimStart(s: string): (r: string)
    ensures |r| <= |s|
  {
    if s != [] && IsJsSpace(s[0]) then TrimStart(s[1..]) else s
  }

  /** What `TrimStart` leaves is the suffix after the leading whitespace. */
  lemma {:induction false} TrimStartSpec(s: string)
    ensures TrimStart(s) == s[|s| - |TrimStart(s)|..]
    ensures TrimStart(s) == [] || !IsJsSpace(TrimStart(s)[0])
    ensures forall i :: 0 <= i < |s| - |TrimStart(s)| ==> IsJsSpace(s[i])
  {
    if s != [] && IsJsSpace(s[0]) {
      TrimStartSpec(s[1..]);
    }
  }

  function TrimEnd(s: string): (r: string)
    ensures |r| <= |s|
  {
    if s != [] && IsJsSpace(s[|s| - 1]) then TrimEnd(s[..|s| - 1]) else s
  }

  /** What `TrimEnd` leaves is the prefix before the trailing whitespace. */
  lemma {:induction false} TrimEndSpec(s: string)
    ensures TrimEnd(s) == s[..|TrimEnd(s)|]
    ensures TrimEnd(s) == [] || !IsJsSpace(TrimEnd(s)[|TrimEnd(s)| - 1])
    ensures forall i :: |TrimEnd(s)| <= i < |s| ==> IsJsSpace(s[i])
  {
    if s != [] && IsJsSpace(s[|s| - 1]) {
      TrimEndSpec(s[..|s| - 1]);
    }
  }

  /** Concatenation regrouped, proved apart from any large context. */
  lemma AppendAssoc<T>(a: seq<T>, b: seq<T>, c: seq<T>)
    ensures a + (b + c) == (a + b) + c
  {
  }

  /** A prefix one longer, proved apart from any large context. */
  lemma PrefixSnoc<T>(s: seq<T>, i: nat)
    requires i < |s|
    ensures s[..i + 1] == s[..i] + [s[i]]
  {
  }

  lemma SplitLast<T>(s: seq<T>)
    requires s != []
    ensures s == s[..|s| - 1] + [s[|s| - 1]]
  {
  }

  lemma TailOfAppend<T>(a: seq<T>, b: seq<T>)
    requires a != []
    ensures (a + b)[0] == a[0] && (a + b)[1..] == a[1..] + b
  {
  }

  lemma WholePrefix<T>(s: seq<T>)
    ensures s[..|s|] == s
  {
  }

  /** `s.trim()`. */
  function Trim(s: string): string {
    TrimEnd(TrimStart(s))
  }

  /** What trim leaves is a slice of the input with only whitespace cut off,
      and it neither starts nor ends with whitespace. */
  lemma TrimShape(s: string)
    ensures exists a, b ::
              && 0 <= a <= b <= |s| && Trim(s) == s[a..b]
              && (forall i :: 0 <= i < a ==> IsJsSpace(s[i]))
              && (forall i :: b <= i < |s| ==> IsJsSpace(s[i]))
    ensures Trim(s) == [] || (!IsJsSpace(Trim(s)[0]) && !IsJsSpace(Trim(s)[|Trim(s)| - 1]))
  {
    var t := TrimStart(s);
    TrimStartSpec(s);
    TrimEndSpec(t);
    var a := |s| - |t|;
    var r := TrimEnd(t);
    assert r == s[a..a + |r|];
    if r != [] {
      assert r[0] == t[0];
    }
  }

  /** Trimming twice is trimming once. */
  lemma TrimIdempotent(s: string)
    ensures Trim(Trim(s)) == Trim(s)
  {
    var r := Trim(s);
    TrimShape(s);
    if r != [] {
      assert TrimStart(r) == r;
      assert TrimEnd(r) == r;
    }
  }

  /** A string trims to empty exactly when every character is whitespace. */
  lemma TrimEmptyIffBlank(s: string)
    ensures Trim(s) == [] <==> forall i :: 0 <= i < |s| ==> IsJsSpace(s[i])
  {
    TrimStartSpec(s);
    var t := TrimStart(s);
    TrimEndSpec(t);
    if Trim(s) == [] {
      assert t == [];
    }
  }

  // ---------------------------------------------------------------------------
  // Substrings

  predicate StartsWith(s: string, p: string) {
    |p| <= |s| && s[..|p|] == p
  }

  predicate EndsWith(s: string, p: string) {
    |p| <= |s| && s[|s| - |p|..] == p
  }

  predicate OccursAt(s: string, p: string, i: nat) {
    i + |p| <= |s| && s[i..i + |p|] == p
  }

  /** The first occurrence of `p` in `s` at or after `from`. */
  function FindFrom(s: string, p: string, from: nat): (r: Option<nat>)
    ensures r.Some? ==> from <= r.value && OccursAt(s, p, r.value)
    ensures r.Some? ==> forall j :: from <= j < r.value ==> !OccursAt(s, p, j)
    ensures r.None? ==> forall j :: from <= j ==> !OccursAt(s, p, j)
    decreases |s| - from
  {
    if from + |p| > |s| then None
    else if OccursAt(s, p, from) then Some(from)
    else FindFrom(s, p, from + 1)
  }

  /** An occurrence with none before it from `from` on is what the search
      finds. */
  lemma FindFromFirst(s: string, p: string, from: nat, c: nat)
    requires from <= c && OccursAt(s, p, c)
    requires forall m :: from <= m < c ==> !OccursAt(s, p, m)
    ensures FindFrom(s, p, from) == Some(c)
  {
  }

  /** `s.includes(p)`. */
  predicate Contains(s: string, p: string) {
    FindFrom(s, p, 0).Some?
  }

  lemma ContainsIff(s: string, p: string)
    ensures Contains(s, p) <==> exists i: nat :: OccursAt(s, p, i)
  {
    if !Contains(s, p) {
      assert forall j: nat :: !OccursAt(s, p, j);
    }
  }

  // ---------------------------------------------------------------------------
  // ASCII case folding (what a non-unicode `/i` regex does for ASCII letters)

  function LowerAscii(c: char): char {
    if 'A' <= c <= 'Z' then (c as int + 32) as char else c
  }

  predicate EqualsIgnoreCase(a: string, b: string) {
    |a| == |b| && forall i :: 0 <= i < |a| ==> LowerAscii(a[i]) == LowerAscii(b[i])
  }

  /** `p` at index `i` of `s`, ignoring ASCII case. */
  predicate CiAt(s: string, i: nat, p: string) {
    i + |p| <= |s| && EqualsIgnoreCase(s[i..i + |p|], p)
  }

  /** `[A-Za-z0-9_]`, the `\w` class. */
  predicate IsWordChar(c: char) {
    ('a' <= c <= 'z') || ('A' <= c <= 'Z') || ('0' <= c <= '9') || c == '_'
  }

  // ---------------------------------------------------------------------------
  // Numbers as text (Number.prototype.toString for integers)

  predicate IsRadixDigit(c: char, base: nat) {
    (('0' <= c <= '9') && (c as int - '0' as int) < base) ||
    (('a' <= c <= 'z') && (c as int - 'a' as int) + 10 < base)
  }

  function DigitChar(d: nat): (c: char)
    requires d < 36
    ensures IsRadixDigit(c, d + 1)
    ensures d > 0 ==> c != '0'
  {
    if d < 10 then ('0' as int + d) as char else ('a' as int + d - 10) as char
  }

  function DigitValue(c: char): nat {
    if '0' <= c <= '9' then c as int - '0' as int
    else if 'a' <= c <= 'z' then c as int - 'a' as int + 10
    else 0
  }

  lemma DigitRoundTrip(d: nat)
    requires d < 36
    ensures DigitValue(DigitChar(d)) == d
  {
  }

  /** `n.toString(base)` for a non-negative integer: lower-case digits, no
      leading zero. */
  function NatToRadix(n: nat, base: nat): (r: string)
    requires 2 <= base <= 36
    ensures |r| >= 1
    ensures forall i :: 0 <= i < |r| ==> IsRadixDigit(r[i], base)
    ensures |r| > 1 ==> r[0] != '0'
    decreases n
  {
    if n < base then [DigitChar(n)]
    else
      DivMod(n, base);
      NatToRadix(n / base, base) + [DigitChar(n % base)]
  }

  lemma DivMod(n: nat, base: nat)
    requires 2 <= base <= n
    ensures 1 <= n / base < n && n % base < base
    ensures n == (n / base) * base + n % base
  {
  }

  /** Reads digits most significant first. */
  function ParseRadix(s: string, base: nat): nat {
    if s == [] then 0 else ParseRadix(s[..|s| - 1], base) * base + DigitValue(s[|s| - 1])
  }

  lemma {:induction false} ParseNatToRadix(n: nat, base: nat)
    requires 2 <= base <= 36
    ensures ParseRadix(NatToRadix(n, base), base) == n
    decreases n
  {
    var r := NatToRadix(n, base);
    if n < base {
      DigitRoundTrip(n);
      assert r[..|r| - 1] == [];
    } else {
      DivMod(n, base);
      var q, d := n / base, n % base;
      var prefix := NatToRadix(q, base);
      assert r[..|r| - 1] == prefix;
      ParseNatToRadix(q, base);
      DigitRoundTrip(d);
      assert ParseRadix(r, base) == q * base + d;
    }
  }

  /** Distinct numbers have distinct texts. */
  lemma NatToRadixInjective(a: nat, b: nat, base: nat)
    requires 2 <= base <= 36
    requires NatToRadix(a, base) == NatToRadix(b, base)
    ensures a == b
  {
    ParseNatToRadix(a, base);
    ParseNatToRadix(b, base);
  }

  function NatToString(n: nat): (r: string)
    ensures |r| >= 1 && forall i :: 0 <= i < |r| ==> '0' <= r[i] <= '9'
  {
    NatToRadix(n, 10)
  }

  /** Decimal text of an integer with a leading `-` when negative. */
  function IntToString(i: int): (r: string)
    ensures i >= 0 ==> r == NatToString(i)
    ensures i < 0 ==> r == "-" + NatToString(-i)
  {
    if i < 0 then "-" + NatToString(-i) else NatToString(i)
  }

  // ---------------------------------------------------------------------------
  // Order-keeping filter

  /** `a` is `b` with some elements dropped, order kept. */
  ghost predicate IsSubsequence<T>(a: seq<T>, b: seq<T>)
    decreases |b|
  {
    if a == [] then true
    else if b == [] then false
    else if a[0] == b[0] then IsSubsequence(a[1..], b[1..])
    else IsSubsequence(a, b[1..])
  }

  /** `s.filter(keep)`. */
  function Filter<T(!new)>(s: seq<T>, keep: T -> bool): (r: seq<T>)
    ensures |r| <= |s|
    ensures forall x :: x in r <==> x in s && keep(x)
    ensures forall x :: multiset(r)[x] == if keep(x) then multiset(s)[x] else 0
    ensures IsSubsequence(r, s)
  {
    if s == [] then []
    else
      var rest := Filter(s[1..], keep);
      assert s == [s[0]] + s[1..];
      if keep(s[0]) then
        assert ([s[0]] + rest)[1..] == rest;
        [s[0]] + rest
      else
        FilterSubsequenceSkip(rest, s);
        rest
  }

  lemma FilterSubsequenceSkip<T>(rest: seq<T>, s: seq<T>)
    requires s != [] && IsSubsequence(rest, s[1..])
    ensures IsSubsequence(rest, s)
  {
    SubsequenceCons(rest, s[1..], s[0]);
    assert [s[0]] + s[1..] == s;
  }

  lemma {:induction false} SubsequenceCons<T>(a: seq<T>, b: seq<T>, x: T)
    requires IsSubsequence(a, b)
    ensures IsSubsequence(a, [x] + b)
    decreases |b|, 1
  {
    var xb := [x] + b;
    assert xb[1..] == b;
    if a == [] {
    } else if a[0] == x {
      SubsequenceTail(a, b);
    } else {
    }
  }

  lemma {:induction false} SubsequenceTail<T>(a: seq<T>, b: seq<T>)
    requires a != [] && IsSubsequence(a, b)
    ensures IsSubsequence(a[1..], b)
    decreases |b|, 0
  {
    if b == [] {
    } else if a[0] == b[0] {
      if a[1..] != [] {
        SubsequenceCons(a[1..], b[1..], b[0]);
        assert [b[0]] + b[1..] == b;
      }
    } else {
      SubsequenceTail(a, b[1..]);
      if a[1..] != [] {
        SubsequenceCons(a[1..], b[1..], b[0]);
        assert [b[0]] + b[1..] == b;
      }
    }
  }
}
