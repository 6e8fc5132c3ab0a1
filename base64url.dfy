/** `urlBase64ToUint8Array`, the conversion of a VAPID public key from the
    URL-safe base64 alphabet (section 5 of RFC 4648) to bytes: pad to a
    multiple of four with `=`, translate to the standard alphabet (section 4
    of RFC 4648), decode with `atob`, and copy the character codes of the
    decoded binary string into a fresh byte array. The service worker and
    the push hook carry identical copies of it. `atob` is modelled as the
    forgiving-base64 decode of the HTML Living Standard. */
module Base64Url {
  import opened Common

  type byte = x: int | 0 <= x < 256
  type sextet = x: int | 0 <= x < 64

  // ---------------------------------------------------------------------------
  // Alphabets

  /** The standard alphabet of section 4 of RFC 4648. */
  function StdChar(v: sextet): char {
    if v < 26 then ('A' as int + v) as char
    else if v < 52 then ('a' as int + v - 26) as char
    else if v < 62 then ('0' as int + v - 52) as char
    else if v == 62 then '+'
    else '/'
  }

  /** The URL and filename safe alphabet of section 5 of RFC 4648. */
  function UrlChar(v: sextet): char {
    if v == 62 then '-' else if v == 63 then '_' else StdChar(v)
  }

  predicate InStdAlphabet(c: char) {
    ('A' <= c <= 'Z') || ('a' <= c <= 'z') || ('0' <= c <= '9') || c == '+' || c == '/'
  }

  function StdValue(c: char): (v: sextet)
    requires InStdAlphabet(c)
    ensures StdChar(v) == c
  {
    if 'A' <= c <= 'Z' then c as int - 'A' as int
    else if 'a' <= c <= 'z' then c as int - 'a' as int + 26
    else if '0' <= c <= '9' then c as int - '0' as int + 52
    else if c == '+' then 62
    else 63
  }

  /** Every digit of the standard alphabet reads back as its value. */
  lemma StdCharValue(v: sextet)
    ensures InStdAlphabet(StdChar(v)) && StdValue(StdChar(v)) == v
  {
  }

  // ---------------------------------------------------------------------------
  // Padding and translation

  /** `'='.repeat((4 - s.length % 4) % 4)`. */
  function Padding(s: string): (p: string)
    ensures |p| < 4 && (|s| + |p|) % 4 == 0
    ensures |s| % 4 == 0 ==> p == []
    ensures forall i :: 0 <= i < |p| ==> p[i] == '='
  {
    seq((4 - |s| % 4) % 4, _ => '=')
  }

  /** `-` becomes `+`, `_` becomes `/`. */
  function ToStandard(c: char): char {
    if c == '-' then '+' else if c == '_' then '/' else c
  }

  /** The two global replacements, applied in turn; since neither produces
      what the other looks for, each character is mapped on its own. */
  function Translate(s: string): (r: string)
    ensures |r| == |s|
    ensures forall i :: 0 <= i < |s| ==> r[i] == ToStandard(s[i])
    ensures forall i :: 0 <= i < |s| ==> (r[i] == s[i] <==> s[i] != '-' && s[i] != '_')
  {
    seq(|s|, i requires 0 <= i < |s| => ToStandard(s[i]))
  }

  // ---------------------------------------------------------------------------
  // atob

  /** ASCII whitespace of the Infra standard. */
  predicate IsAsciiSpace(c: char) {
    c == '\t' || c == '\n' || c == '\U{000C}' || c == '\r' || c == ' '
  }

  function StripSpace(s: string): (r: string)
    ensures |r| <= |s|
    ensures (forall i :: 0 <= i < |s| ==> !IsAsciiSpace(s[i])) ==> r == s
  {
    if s == [] then []
    else if IsAsciiSpace(s[0]) then StripSpace(s[1..])
    else [s[0]] + StripSpace(s[1..])
  }

  /** A length that divides by four loses one or two trailing `=`. */
  function StripPadding(t: string): (r: string)
    ensures |t| % 4 != 0 ==> r == t
  {
    if |t| % 4 == 0 && EndsWith(t, "==") then t[..|t| - 2]
    else if |t| % 4 == 0 && EndsWith(t, "=") then t[..|t| - 1]
    else t
  }

  /** Bytes of a run of sextets, four to three; a tail of two or three
      sextets gives one or two bytes, and the bits left over are dropped. */
  function DecodeSextets(v: seq<sextet>): (b: seq<byte>)
    requires |v| % 4 != 1
    ensures |b| == (|v| / 4) * 3 + (if |v| % 4 == 0 then 0 else |v| % 4 - 1)
  {
    if |v| == 0 then []
    else
      var b0: byte := v[0] as int * 4 + v[1] / 16;
      if |v| == 2 then [b0]
      else
        var b1: byte := (v[1] % 16) as int * 16 + v[2] / 4;
        if |v| == 3 then [b0, b1]
        else
          var b2: byte := (v[2] % 4) as int * 64 + v[3];
          [b0, b1, b2] + DecodeSextets(v[4..])
  }

  function Values(t: string): (v: seq<sextet>)
    requires forall i :: 0 <= i < |t| ==> InStdAlphabet(t[i])
    ensures |v| == |t| && forall i :: 0 <= i < |t| ==> StdChar(v[i]) == t[i]
  {
    seq(|t|, i requires 0 <= i < |t| => StdValue(t[i]))
  }

  /** The binary string whose character codes are the given bytes. */
  function BinaryString(b: seq<byte>): (s: string)
    ensures |s| == |b| && forall i :: 0 <= i < |b| ==> s[i] as int == b[i]
  {
    seq(|b|, i requires 0 <= i < |b| => b[i] as char)
  }

  /** `atob`: None where it throws. The lengths that leave a remainder of
      one, and any character outside the alphabet, are refused. */
  function Atob(s: string): (r: Option<string>)
    ensures r.Some? ==> forall i :: 0 <= i < |r.value| ==> r.value[i] as int < 256
  {
    var t := StripPadding(StripSpace(s));
    if |t| % 4 == 1 then None
    else if exists i :: 0 <= i < |t| && !InStdAlphabet(t[i]) then None
    else Some(BinaryString(DecodeSextets(Values(t))))
  }

  /** The byte array `urlBase64ToUint8Array` returns, as a value: None where
      `atob` throws. */
  function DecodeUrlBase64(s: string): Option<seq<byte>> {
    match Atob(Translate(s + Padding(s)))
    case None => None
    case Some(raw) => Some(Codes(raw))
  }

  /** The character codes of a string whose characters all fit in a byte. */
  function Codes(raw: string): (b: seq<byte>)
    requires forall i :: 0 <= i < |raw| ==> raw[i] as int < 256
    ensures |b| == |raw| && forall i :: 0 <= i < |raw| ==> b[i] == raw[i] as int
  {
    seq(|raw|, i requires 0 <= i < |raw| => raw[i] as int)
  }

  /** `urlBase64ToUint8Array`: the loop copies each character code of the
      decoded string into a fresh array. */
  method UrlBase64ToUint8Array(s: string) returns (r: Option<array<byte>>)
    ensures r.None? <==> DecodeUrlBase64(s).None?
    ensures r.Some? ==> fresh(r.value) && r.value[..] == DecodeUrlBase64(s).value
  {
    var padding := Padding(s);
    var base64 := Translate(s + padding);
    var decoded := Atob(base64);
    if decoded.None? {
      return None;
    }
    var rawData := decoded.value;
    var outputArray := CopyCodes(rawData);
    return Some(outputArray);
  }

  /** The loop of `urlBase64ToUint8Array`: a fresh array of the string's
      length, filled with its character codes one by one. */
  method CopyCodes(raw: string) returns (a: array<byte>)
    requires forall i :: 0 <= i < |raw| ==> raw[i] as int < 256
    ensures fresh(a) && a[..] == Codes(raw)
  {
    a := new byte[|raw|];
    for i := 0 to |raw|
      invariant forall j :: 0 <= j < i ==> a[j] == raw[j] as int
    {
      a[i] := raw[i] as int;
    }
    assert a[..] == Codes(raw);
  }

  // ---------------------------------------------------------------------------
  // The encoder the keys come from, and the round trip

  /** Sextets of a run of bytes, three to four; a tail of one or two bytes
      gives two or three sextets with zero fill bits and no padding. */
  function EncodeSextets(b: seq<byte>): (v: seq<sextet>)
    ensures |v| % 4 != 1
    ensures |v| == (|b| / 3) * 4 + (if |b| % 3 == 0 then 0 else |b| % 3 + 1)
  {
    if |b| == 0 then []
    else
      var s0: sextet := b[0] / 4;
      if |b| == 1 then [s0, (b[0] % 4) * 16]
      else
        var s1: sextet := (b[0] % 4) * 16 + b[1] / 16;
        if |b| == 2 then [s0, s1, (b[1] % 16) * 4]
        else
          var s2: sextet := (b[1] % 16) * 4 + b[2] / 64;
          var s3: sextet := b[2] % 64;
          [s0, s1, s2, s3] + EncodeSextets(b[3..])
  }

  /** Unpadded base64url text of some bytes. */
  function EncodeUrl(b: seq<byte>): (s: string)
    ensures |s| == |EncodeSextets(b)|
  {
    var v := EncodeSextets(b);
    seq(|v|, i requires 0 <= i < |v| => UrlChar(v[i]))
  }

  function EncodeStd(v: seq<sextet>): (s: string)
    ensures |s| == |v| && forall i :: 0 <= i < |v| ==> s[i] == StdChar(v[i])
  {
    seq(|v|, i requires 0 <= i < |v| => StdChar(v[i]))
  }

  lemma DivAdd16(q: int, r: int)
    requires 0 <= r < 16
    ensures (q * 16 + r) / 16 == q && (q * 16 + r) % 16 == r
  {
  }

  lemma DivAdd4(q: int, r: int)
    requires 0 <= r < 4
    ensures (q * 4 + r) / 4 == q && (q * 4 + r) % 4 == r
  {
  }

  /** One group of three bytes survives encoding and decoding. */
  lemma GroupRoundTrip(b0: byte, b1: byte, b2: byte)
    ensures var s1 := (b0 % 4) * 16 + b1 / 16;
      var s2 := (b1 % 16) * 4 + b2 / 64;
      (b0 / 4) * 4 + s1 / 16 == b0 &&
      (s1 % 16) * 16 + s2 / 4 == b1 &&
      (s2 % 4) * 64 + b2 % 64 == b2
  {
    DivAdd16(b0 % 4, b1 / 16);
    DivAdd4(b1 % 16, b2 / 64);
  }

  lemma SextetsRoundTrip(b: seq<byte>)
    ensures DecodeSextets(EncodeSextets(b)) == b
    decreases |b|
  {
    var v := EncodeSextets(b);
    if |b| == 0 {
    } else if |b| == 1 {
      DivAdd16(b[0] % 4, 0);
    } else if |b| == 2 {
      GroupRoundTrip(b[0], b[1], 0);
    } else {
      GroupRoundTrip(b[0], b[1], b[2]);
      assert v[4..] == EncodeSextets(b[3..]);
      SextetsRoundTrip(b[3..]);
      assert b == b[..3] + b[3..];
    }
  }

  /** Translating padded base64url text gives the standard text, padded. */
  lemma TranslateEncoded(b: seq<byte>)
    ensures var e := EncodeUrl(b);
      Translate(e + Padding(e)) == EncodeStd(EncodeSextets(b)) + Padding(e)
  {
    var e := EncodeUrl(b);
    var v := EncodeSextets(b);
    var p := Padding(e);
    var lhs := Translate(e + p);
    var rhs := EncodeStd(v) + p;
    forall i | 0 <= i < |lhs|
      ensures lhs[i] == rhs[i]
    {
      if i < |e| {
        assert (e + p)[i] == UrlChar(v[i]);
      } else {
        assert (e + p)[i] == p[i - |e|];
      }
    }
  }

  /** Standard text has only alphabet characters: no whitespace, no `=`. */
  lemma StdInAlphabet(v: seq<sextet>)
    ensures forall i :: 0 <= i < |v| ==> InStdAlphabet(EncodeStd(v)[i])
  {
    forall i | 0 <= i < |v|
      ensures InStdAlphabet(EncodeStd(v)[i])
    {
      StdCharValue(v[i]);
    }
  }

  /** Alphabet text followed by `=` has no whitespace to strip. */
  lemma NoSpaceToStrip(std: string, p: string)
    requires forall i :: 0 <= i < |std| ==> InStdAlphabet(std[i])
    requires forall i :: 0 <= i < |p| ==> p[i] == '='
    ensures StripSpace(std + p) == std + p
  {
    var s := std + p;
    forall i | 0 <= i < |s|
      ensures !IsAsciiSpace(s[i])
    {
      if i < |std| {
        assert s[i] == std[i];
      } else {
        assert s[i] == p[i - |std|];
      }
    }
  }

  /** `atob` takes the padding, and nothing else, off alphabet text padded to
      a multiple of four. */
  lemma StripOnlyPadding(std: string, p: string)
    requires forall i :: 0 <= i < |std| ==> InStdAlphabet(std[i])
    requires |std| % 4 != 1 && (|std| + |p|) % 4 == 0 && |p| < 4
    requires forall i :: 0 <= i < |p| ==> p[i] == '='
    ensures StripPadding(std + p) == std
  {
    var s := std + p;
    var n := |std|;
    assert |s| % 4 == 0;
    if |p| == 0 {
      assert s == std;
      if n > 0 {
        assert s[n - 1] == std[n - 1];
        assert !EndsWith(s, "=");
        assert !EndsWith(s, "==");
      }
    } else if |p| == 1 {
      assert n % 4 == 3;
      assert s[n - 1] == std[n - 1] && s[n] == '=';
      assert s[n - 1..] != "==";
      assert !EndsWith(s, "==");
      assert s[n..] == "=";
      assert s[..n] == std;
    } else if |p| == 2 {
      assert s[n..] == "==";
      assert s[..n] == std;
    }
  }

  lemma ValuesStd(v: seq<sextet>)
    requires forall i :: 0 <= i < |v| ==> InStdAlphabet(EncodeStd(v)[i])
    ensures Values(EncodeStd(v)) == v
  {
    var w := Values(EncodeStd(v));
    forall i | 0 <= i < |v|
      ensures w[i] == v[i]
    {
      StdCharValue(v[i]);
    }
  }

  /** `atob` decodes the padded standard text of any sextets that came from
      bytes. */
  lemma AtobStd(v: seq<sextet>, p: string)
    requires |v| % 4 != 1 && (|v| + |p|) % 4 == 0 && |p| < 4
    requires forall i :: 0 <= i < |p| ==> p[i] == '='
    ensures Atob(EncodeStd(v) + p) == Some(BinaryString(DecodeSextets(v)))
  {
    StdInAlphabet(v);
    NoSpaceToStrip(EncodeStd(v), p);
    StripOnlyPadding(EncodeStd(v), p);
    ValuesStd(v);
  }

  /** The codes of a binary string are the bytes it was made from. */
  lemma CodesOfBinary(b: seq<byte>)
    ensures Codes(BinaryString(b)) == b
  {
  }

  /** Decoding the unpadded base64url text of any bytes gives the bytes
      back. */
  lemma DecodeEncodeUrl(b: seq<byte>)
    ensures DecodeUrlBase64(EncodeUrl(b)) == Some(b)
  {
    var e := EncodeUrl(b);
    var v := EncodeSextets(b);
    TranslateEncoded(b);
    AtobStd(v, Padding(e));
    SextetsRoundTrip(b);
    CodesOfBinary(b);
  }

  /** base64url text whose length leaves a remainder of one cannot be
      decoded: the padding makes three `=`, `atob` strips only two and the
      third is outside the alphabet. */
  lemma OneOverRefused(s: string)
    requires |s| % 4 == 1
    requires forall i :: 0 <= i < |s| ==> !IsAsciiSpace(s[i])
    ensures DecodeUrlBase64(s) == None
  {
    TranslatedPadding(s);
    ThreeEqualsRefused(Translate(s + Padding(s)));
  }

  /** Such a key, padded and translated, has no whitespace and ends in
      three `=`. */
  lemma TranslatedPadding(s: string)
    requires |s| % 4 == 1
    requires forall i :: 0 <= i < |s| ==> !IsAsciiSpace(s[i])
    ensures var x := Translate(s + Padding(s));
      && |x| % 4 == 0 && |x| >= 4
      && (forall i :: 0 <= i < |x| ==> !IsAsciiSpace(x[i]))
      && x[|x| - 1] == '=' && x[|x| - 2] == '=' && x[|x| - 3] == '='
  {
    var p := Padding(s);
    assert |p| == 3;
    forall i | 0 <= i < |s + p|
      ensures !IsAsciiSpace((s + p)[i])
    {
      if i < |s| {
        assert (s + p)[i] == s[i];
      } else {
        assert (s + p)[i] == p[i - |s|];
      }
    }
    assert (s + p)[|s| + 2] == '=' && (s + p)[|s| + 1] == '=' && (s + p)[|s|] == '=';
  }

  /** `atob` refuses text of a length divisible by four that ends in three
      `=`: it strips two and finds the third outside the alphabet. */
  lemma ThreeEqualsRefused(x: string)
    requires |x| % 4 == 0 && |x| >= 4
    requires forall i :: 0 <= i < |x| ==> !IsAsciiSpace(x[i])
    requires x[|x| - 1] == '=' && x[|x| - 2] == '=' && x[|x| - 3] == '='
    ensures Atob(x) == None
  {
    assert StripSpace(x) == x;
    assert EndsWith(x, "==") by {
      var e := x[|x| - 2..];
      assert |e| == 2 && e[0] == '=' && e[1] == '=';
    }
    var t := StripPadding(x);
    assert t == x[..|x| - 2];
    assert !InStdAlphabet(t[|t| - 1]);
  }
}
