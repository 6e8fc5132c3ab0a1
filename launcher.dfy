/** `openWidgetInNewTab`: the URL of a widget's own page, with the
    conversation passed through `encodeURIComponent`, and the client router
    that recognises that page's path. Opening the window is left out. */
module Launcher {
  import opened Common

  // ---------------------------------------------------------------------------
  // encodeURIComponent and decodeURIComponent (section 19.2.6 of ECMA-262)

  /** The characters `encodeURIComponent` leaves alone. */
  predicate IsUnreserved(c: char) {
    ('A' <= c <= 'Z') || ('a' <= c <= 'z') || ('0' <= c <= '9') ||
    c == '-' || c == '_' || c == '.' || c == '!' || c == '~' || c == '*' || c == '\'' || c == '(' || c == ')'
  }

  /** An upper-case hexadecimal digit. */
  function Hex(d: nat): (c: char)
    requires d < 16
    ensures ('0' <= c <= '9') || ('A' <= c <= 'F')
  {
    if d < 10 then ('0' as int + d) as char else ('A' as int + d - 10) as char
  }

  /** The value of a hexadecimal digit of either case. */
  function HexValue(c: char): (r: Option<nat>)
    ensures r.Some? ==> r.value < 16
  {
    if '0' <= c <= '9' then Some(c as int - '0' as int)
    else if 'A' <= c <= 'F' then Some(c as int - 'A' as int + 10)
    else if 'a' <= c <= 'f' then Some(c as int - 'a' as int + 10)
    else None
  }

  lemma HexRoundTrip(d: nat)
    requires d < 16
    ensures HexValue(Hex(d)) == Some(d)
  {
  }

  predicate IsByte(b: nat) {
    b < 0x100
  }

  /** The UTF-8 bytes of a code point. */
  function Utf8(c: char): (bs: seq<nat>)
    ensures 1 <= |bs| <= 4
    ensures forall k :: 0 <= k < |bs| ==> IsByte(bs[k])
    ensures forall k :: 1 <= k < |bs| ==> 0x80 <= bs[k] < 0xC0
  {
    var n := c as int;
    if n < 0x80 then [n]
    else if n < 0x800 then [0xC0 + n / 0x40, 0x80 + n % 0x40]
    else if n < 0x1_0000 then [0xE0 + n / 0x1000, 0x80 + (n / 0x40) % 0x40, 0x80 + n % 0x40]
    else [0xF0 + n / 0x4_0000, 0x80 + (n / 0x1000) % 0x40, 0x80 + (n / 0x40) % 0x40, 0x80 + n % 0x40]
  }

  /** `%XY` for each byte. */
  function PercentBytes(bs: seq<nat>): (r: string)
    requires forall k :: 0 <= k < |bs| ==> IsByte(bs[k])
    ensures |r| == 3 * |bs|
  {
    if bs == [] then []
    else
      assert IsByte(bs[0]);
      ['%', Hex(bs[0] / 16), Hex(bs[0] % 16)] + PercentBytes(bs[1..])
  }

  function EncodeChar(c: char): string {
    if IsUnreserved(c) then [c] else PercentBytes(Utf8(c))
  }

  /** `encodeURIComponent(s)`. Dafny characters are whole code points, so the
      lone surrogates for which JavaScript throws do not arise. */
  function EncodeURIComponent(s: string): string {
    if s == [] then [] else EncodeChar(s[0]) + EncodeURIComponent(s[1..])
  }

  /** The byte written as `%XY` at `i`, if there is one. */
  function ByteAt(s: string, i: nat): (r: Option<nat>)
    ensures r.Some? ==> IsByte(r.value) && i + 3 <= |s|
  {
    if i + 3 <= |s| && s[i] == '%' && HexValue(s[i + 1]).Some? && HexValue(s[i + 2]).Some? then
      Some(HexValue(s[i + 1]).value * 16 + HexValue(s[i + 2]).value)
    else None
  }

  /** `n` escaped bytes from `i` on. */
  function ReadBytes(s: string, i: nat, n: nat): (r: Option<seq<nat>>)
    ensures r.Some? ==> |r.value| == n && (n > 0 ==> i + 3 * n <= |s|)
    ensures r.Some? ==> forall k :: 0 <= k < |r.value| ==> IsByte(r.value[k])
    decreases n
  {
    if n == 0 then Some([])
    else match ByteAt(s, i)
      case None => None
      case Some(b) =>
        match ReadBytes(s, i + 3, n - 1)
        case None => None
        case Some(rest) => Some([b] + rest)
  }

  /** How many bytes a UTF-8 sequence with this lead byte has; 0 for a byte
      that cannot lead one. */
  function SequenceLength(b: nat): (n: nat)
    ensures n <= 4
  {
    if b < 0x80 then 1
    else if 0xC0 <= b < 0xE0 then 2
    else if 0xE0 <= b < 0xF0 then 3
    else if 0xF0 <= b < 0xF8 then 4
    else 0
  }

  /** The code point a well-formed UTF-8 sequence stands for; `None` for an
      overlong form, a surrogate, a value past U+10FFFF or a bad
      continuation byte. */
  function DecodeUtf8(bs: seq<nat>): Option<char> {
    if |bs| == 0 || SequenceLength(bs[0]) != |bs| || exists k :: 1 <= k < |bs| && !(0x80 <= bs[k] < 0xC0) then None
    else
      var cp: int :=
        if |bs| == 1 then bs[0]
        else if |bs| == 2 then (bs[0] - 0xC0) * 0x40 + (bs[1] - 0x80)
        else if |bs| == 3 then (bs[0] - 0xE0) * 0x1000 + (bs[1] - 0x80) * 0x40 + (bs[2] - 0x80)
        else (bs[0] - 0xF0) * 0x4_0000 + (bs[1] - 0x80) * 0x1000 + (bs[2] - 0x80) * 0x40 + (bs[3] - 0x80);
      var least := if |bs| == 1 then 0 else if |bs| == 2 then 0x80 else if |bs| == 3 then 0x800 else 0x1_0000;
      if least <= cp < 0x11_0000 && !(0xD800 <= cp < 0xE000) then Some(cp as char) else None
  }

  /** `decodeURIComponent(s)`; `None` where JavaScript throws a `URIError`. */
  function DecodeURIComponent(s: string): (r: Option<string>)
    decreases |s|
  {
    if s == [] then Some([])
    else if s[0] != '%' then
      match DecodeURIComponent(s[1..])
      case None => None
      case Some(rest) => Some([s[0]] + rest)
    else
      match ByteAt(s, 0)
      case None => None
      case Some(b) =>
        var n := SequenceLength(b);
        if n == 0 then None
        else
          match ReadBytes(s, 0, n)
          case None => None
          case Some(bs) =>
            match DecodeUtf8(bs)
            case None => None
            case Some(c) =>
              match DecodeURIComponent(s[3 * n..])
              case None => None
              case Some(rest) => Some([c] + rest)
  }

  lemma {:induction false} ReadPercentBytes(bs: seq<nat>, rest: string)
    requires forall k :: 0 <= k < |bs| ==> IsByte(bs[k])
    ensures ReadBytes(PercentBytes(bs) + rest, 0, |bs|) == Some(bs)
  {
    if bs != [] {
      var b := bs[0];
      var tail := PercentBytes(bs[1..]) + rest;
      var s := ['%', Hex(b / 16), Hex(b % 16)] + tail;
      assert PercentBytes(bs) + rest == s;
      ByteAtEscape(b, tail);
      ReadPercentBytes(bs[1..], rest);
      assert s[3..] == tail;
      ReadBytesShift(s, tail, |bs| - 1);
      assert [b] + bs[1..] == bs;
    }
  }

  lemma ByteAtEscape(b: nat, tail: string)
    requires IsByte(b)
    ensures ByteAt(['%', Hex(b / 16), Hex(b % 16)] + tail, 0) == Some(b)
  {
    HexRoundTrip(b / 16);
    HexRoundTrip(b % 16);
    assert (b / 16) * 16 + b % 16 == b;
  }

  /** Reading past a three-character prefix is reading the rest. */
  lemma {:induction false} ReadBytesShift(s: string, t: string, n: nat)
    requires |s| >= 3 && s[3..] == t
    ensures ReadBytes(s, 3, n) == ReadBytes(t, 0, n)
  {
    ReadBytesFrom(s, t, 0, n);
  }

  lemma {:induction false} ReadBytesFrom(s: string, t: string, i: nat, n: nat)
    requires |s| >= 3 && s[3..] == t
    ensures ReadBytes(s, 3 + i, n) == ReadBytes(t, i, n)
    decreases n
  {
    if n > 0 {
      if i + 3 <= |t| {
        assert s[3 + i] == t[i] && s[3 + i + 1] == t[i + 1] && s[3 + i + 2] == t[i + 2];
      }
      assert ByteAt(s, 3 + i) == ByteAt(t, i);
      ReadBytesFrom(s, t, i + 3, n - 1);
    }
  }

  /** UTF-8 decoding undoes UTF-8 encoding. */
  lemma Utf8RoundTrip(c: char)
    ensures SequenceLength(Utf8(c)[0]) == |Utf8(c)|
    ensures DecodeUtf8(Utf8(c)) == Some(c)
  {
    var n := c as int;
    var bs := Utf8(c);
    if n < 0x80 {
    } else if n < 0x800 {
      assert (bs[0] - 0xC0) * 0x40 + (bs[1] - 0x80) == n;
    } else if n < 0x1_0000 {
      Split3(n);
    } else {
      Split4(n);
    }
  }

  lemma Split3(n: nat)
    requires n < 0x1_0000
    ensures (n / 0x1000) * 0x1000 + ((n / 0x40) % 0x40) * 0x40 + n % 0x40 == n
  {
    var q := n / 0x40;
    assert n == q * 0x40 + n % 0x40;
    assert q == (q / 0x40) * 0x40 + q % 0x40;
    assert q / 0x40 == n / 0x1000;
  }

  lemma Split4(n: nat)
    ensures (n / 0x4_0000) * 0x4_0000 + ((n / 0x1000) % 0x40) * 0x1000 + ((n / 0x40) % 0x40) * 0x40 + n % 0x40 == n
  {
    var q := n / 0x40;
    var r := q / 0x40;
    assert n == q * 0x40 + n % 0x40;
    assert q == r * 0x40 + q % 0x40;
    assert r == (r / 0x40) * 0x40 + r % 0x40;
    assert r == n / 0x1000;
    assert r / 0x40 == n / 0x4_0000;
  }

  /** Decoding an encoded character gives it back, followed by the decoding
      of what comes after. */
  lemma DecodeEncodedChar(c: char, rest: string)
    ensures DecodeURIComponent(EncodeChar(c) + rest) ==
      (match DecodeURIComponent(rest) case None => None case Some(r) => Some([c] + r))
  {
    var s := EncodeChar(c) + rest;
    if IsUnreserved(c) {
      assert s[1..] == rest;
    } else {
      var bs := Utf8(c);
      Utf8RoundTrip(c);
      ReadPercentBytes(bs, rest);
      ReadBytesPrefix(s, |bs|);
      assert s[3 * |bs|..] == rest;
    }
  }

  /** The first byte read is the lead byte. */
  lemma ReadBytesPrefix(s: string, n: nat)
    requires n >= 1 && ReadBytes(s, 0, n).Some?
    ensures ByteAt(s, 0) == Some(ReadBytes(s, 0, n).value[0])
  {
  }

  /** `decodeURIComponent(encodeURIComponent(s)) === s`. */
  lemma {:induction false} EncodeRoundTrip(s: string)
    ensures DecodeURIComponent(EncodeURIComponent(s)) == Some(s)
  {
    if s != [] {
      EncodeRoundTrip(s[1..]);
      DecodeEncodedChar(s[0], EncodeURIComponent(s[1..]));
      assert [s[0]] + s[1..] == s;
    }
  }

  /** The encoding holds only unreserved characters, `%` and upper-case hex
      digits: never `/`, `?`, `#`, `&`, `=` or `+`. */
  lemma {:induction false} EncodedCharacters(s: string)
    ensures forall k :: 0 <= k < |EncodeURIComponent(s)| ==>
      var e := EncodeURIComponent(s)[k];
      IsUnreserved(e) || e == '%' || ('A' <= e <= 'F')
  {
    if s != [] {
      EncodedCharacters(s[1..]);
      PercentCharacters(if IsUnreserved(s[0]) then [] else Utf8(s[0]));
    }
  }

  lemma {:induction false} PercentCharacters(bs: seq<nat>)
    requires forall k :: 0 <= k < |bs| ==> IsByte(bs[k])
    ensures forall k :: 0 <= k < |PercentBytes(bs)| ==>
      var e := PercentBytes(bs)[k];
      e == '%' || ('0' <= e <= '9') || ('A' <= e <= 'F')
  {
    if bs != [] {
      PercentCharacters(bs[1..]);
    }
  }

  /** Strings of unreserved characters are their own encoding. */
  lemma {:induction false} EncodeUnreserved(s: string)
    requires forall k :: 0 <= k < |s| ==> IsUnreserved(s[k])
    ensures EncodeURIComponent(s) == s
  {
    if s != [] {
      EncodeUnreserved(s[1..]);
      assert [s[0]] + s[1..] == s;
    }
  }

  // ---------------------------------------------------------------------------
  // The widget page URL and the router

  const MessagePrefix: string := "/message/"
  const WidgetSuffix: string := "/widget"
  const QueryKey: string := "?conversationId="

  /** The path of a message's widget page. */
  function WidgetPath(messageId: string): string {
    MessagePrefix + messageId + WidgetSuffix
  }

  /** Whether the conversation goes into the URL: a non-empty id other than
      `'default'`. */
  predicate PassesConversation(conversationId: string) {
    conversationId != "" && conversationId != "default"
  }

  /** The URL `openWidgetInNewTab(messageId, conversationId)` opens. */
  function WidgetUrl(messageId: string, conversationId: string): string {
    WidgetPath(messageId) + (if PassesConversation(conversationId) then QueryKey + EncodeURIComponent(conversationId) else "")
  }

  /** `path.match(/^\/message\/([^/]+)\/widget$/)`: the captured id. */
  function RouteMatch(path: string): (r: Option<string>)
    ensures r.Some? <==> exists id :: id != [] && '/' !in id && path == WidgetPath(id)
    ensures r.Some? ==> r.value != [] && '/' !in r.value && path == WidgetPath(r.value)
  {
    if |path| > |MessagePrefix| + |WidgetSuffix| && StartsWith(path, MessagePrefix) && EndsWith(path, WidgetSuffix) then
      var id := path[|MessagePrefix|..|path| - |WidgetSuffix|];
      assert path == WidgetPath(id) by {
        assert path == path[..|MessagePrefix|] + id + path[|path| - |WidgetSuffix|..];
      }
      if '/' in id then
        assert forall id' :: id' != [] && '/' !in id' && path == WidgetPath(id') ==> id' == id by {
          forall id' | id' != [] && '/' !in id' && path == WidgetPath(id')
            ensures id' == id
          {
            WidgetPathInjective(id', id);
          }
        }
        None
      else Some(id)
    else
      assert forall id :: id != [] ==> path != WidgetPath(id) by {
        forall id | id != [] && path == WidgetPath(id)
          ensures false
        {
        }
      }
      None
  }

  lemma WidgetPathInjective(a: string, b: string)
    requires WidgetPath(a) == WidgetPath(b)
    ensures a == b
  {
    var p := WidgetPath(a);
    assert a == p[|MessagePrefix|..|p| - |WidgetSuffix|];
    assert b == p[|MessagePrefix|..|p| - |WidgetSuffix|];
  }

  /** `location.pathname` of a relative URL: what comes before the query or
      the fragment. */
  function Pathname(url: string): (r: string)
    ensures StartsWith(url, r) && '?' !in r && '#' !in r
    ensures |r| < |url| ==> url[|r|] == '?' || url[|r|] == '#'
  {
    if url == [] || url[0] == '?' || url[0] == '#' then []
    else [url[0]] + Pathname(url[1..])
  }

  /** The query part, `?` included, when there is one and no fragment. */
  function Search(url: string): string {
    var p := Pathname(url);
    if |p| < |url| && url[|p|] == '?' then url[|p|..] else ""
  }

  /** The path a launched page sees: the router finds the message id again
      whenever the id has no `/`, `?` or `#` and is not empty. */
  lemma LaunchedPathRoutes(messageId: string, conversationId: string)
    requires messageId != [] && '/' !in messageId && '?' !in messageId && '#' !in messageId
    ensures Pathname(WidgetUrl(messageId, conversationId)) == WidgetPath(messageId)
    ensures RouteMatch(Pathname(WidgetUrl(messageId, conversationId))) == Some(messageId)
  {
    var path := WidgetPath(messageId);
    var query := if PassesConversation(conversationId) then QueryKey + EncodeURIComponent(conversationId) else "";
    PathnameStops(path, query);
    RouteMatchesPath(messageId);
  }

  lemma RouteMatchesPath(messageId: string)
    requires messageId != [] && '/' !in messageId
    ensures RouteMatch(WidgetPath(messageId)) == Some(messageId)
  {
    var r := RouteMatch(WidgetPath(messageId));
    WidgetPathInjective(r.value, messageId);
  }

  /** A path without `?` and `#` is read whole, up to a query that follows. */
  lemma {:induction false} PathnameStops(path: string, query: string)
    requires '?' !in path && '#' !in path
    requires query == [] || query[0] == '?'
    ensures Pathname(path + query) == path
  {
    if path != [] {
      assert (path + query)[1..] == path[1..] + query;
      PathnameStops(path[1..], query);
      assert [path[0]] + path[1..] == path;
    }
  }

  /** The conversation travels only when it is passed, and the query then
      decodes back to it. */
  lemma LaunchedQuery(messageId: string, conversationId: string)
    requires '?' !in messageId && '#' !in messageId
    ensures !PassesConversation(conversationId) ==> WidgetUrl(messageId, conversationId) == WidgetPath(messageId)
    ensures PassesConversation(conversationId) ==>
      Search(WidgetUrl(messageId, conversationId)) == QueryKey + EncodeURIComponent(conversationId)
    ensures DecodeURIComponent(EncodeURIComponent(conversationId)) == Some(conversationId)
  {
    var path := WidgetPath(messageId);
    var query := if PassesConversation(conversationId) then QueryKey + EncodeURIComponent(conversationId) else "";
    PathnameStops(path, query);
    EncodeRoundTrip(conversationId);
    if PassesConversation(conversationId) {
      assert (path + query)[|path|..] == query;
    }
  }

  /** The default conversation adds no query. */
  lemma DefaultUrlExample()
    ensures WidgetUrl("m1", "default") == "/message/m1/widget"
  {
  }

  /** A space is sent as `%20`. */
  lemma EncodeSpaceExample()
    ensures EncodeURIComponent("c 1") == "c%201"
  {
    assert Utf8(' ') == [0x20];
    assert PercentBytes([0x20]) == "%20";
    assert EncodeURIComponent("1") == "1";
    assert EncodeURIComponent(" 1") == "%20" + "1";
  }
}
