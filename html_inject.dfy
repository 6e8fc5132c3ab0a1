/** Wrapping a widget's HTML for its iframe: the reset CSS and the guest
    runtime script are injected after the first `<head…>` tag, or in a new
    head after the first `<html…>` tag, or the fragment is placed in the body
    of a fixed document. Both the wrapper module (with a layout mode) and the
    older widget framework module do this; they differ in their CSS and in
    the no-document case. The runtime scripts themselves are parameters. */
module HtmlInject {
  import opened Common

  // ---------------------------------------------------------------------------
  // The two regular expressions

  /** `<name` followed by whitespace or `>` at index `i`. */
  predicate OpenTagAt(s: string, name: string, i: nat) {
    CiAt(s, i, "<" + name) && i + |name| + 1 < |s| &&
    (IsJsSpace(s[i + |name| + 1]) || s[i + |name| + 1] == '>')
  }

  function OpenTagFrom(s: string, name: string, from: nat): (r: Option<nat>)
    ensures r.Some? ==> from <= r.value && OpenTagAt(s, name, r.value)
    ensures r.None? ==> forall k :: from <= k ==> !OpenTagAt(s, name, k)
    decreases |s| - from
  {
    if from >= |s| then None
    else if OpenTagAt(s, name, from) then Some(from)
    else OpenTagFrom(s, name, from + 1)
  }

  /** `/<name[\s>]/i.test(s)`. */
  predicate HasOpenTag(s: string, name: string) {
    OpenTagFrom(s, name, 0).Some?
  }

  lemma HasOpenTagIff(s: string, name: string)
    ensures HasOpenTag(s, name) <==> exists i: nat :: OpenTagAt(s, name, i)
  {
  }

  /** The first index at or after `from` where `p` starts, any case. */
  function CiFrom(s: string, p: string, from: nat): (r: Option<nat>)
    ensures r.Some? ==> from <= r.value && CiAt(s, r.value, p)
    ensures r.Some? ==> forall k :: from <= k < r.value ==> !CiAt(s, k, p)
    ensures r.None? ==> forall k :: from <= k ==> !CiAt(s, k, p)
    decreases |s| - from
  {
    if from + |p| > |s| then None
    else if CiAt(s, from, p) then Some(from)
    else CiFrom(s, p, from + 1)
  }

  /** Some `>` at or after index `k`. */
  predicate CloseAfter(s: string, k: nat) {
    exists j :: k <= j < |s| && s[j] == '>'
  }

  /** The match of `/<name([^>]*)>/i`: the first `<name` (any case) that a
      `>` follows somewhere, up to the first such `>`. */
  function TagMatch(s: string, name: string): (r: Option<(nat, nat)>)
    ensures r.Some? ==>
      && CiAt(s, r.value.0, "<" + name)
      && r.value.0 + |name| + 1 <= r.value.1 < |s| && s[r.value.1] == '>'
      && (forall k :: r.value.0 + |name| + 1 <= k < r.value.1 ==> s[k] != '>')
      && (forall k: nat :: k < r.value.0 && CiAt(s, k, "<" + name) ==> !CloseAfter(s, k + |name| + 1))
    ensures r.None? ==> forall k: nat :: CiAt(s, k, "<" + name) ==> !CloseAfter(s, k + |name| + 1)
  {
    var tag := "<" + name;
    match CiFrom(s, tag, 0)
    case None => None
    case Some(i) =>
      match FindFrom(s, ">", i + |tag|)
      case None =>
        assert forall k: nat :: CiAt(s, k, tag) ==> !CloseAfter(s, k + |tag|) by {
          forall k: nat | CiAt(s, k, tag) ensures !CloseAfter(s, k + |tag|) {
            forall j | k + |tag| <= j < |s| ensures s[j] != '>' {
              assert !OccursAt(s, ">", j);
            }
          }
        }
        None
      case Some(j) =>
        assert forall k :: i + |tag| <= k < j ==> s[k] != '>' by {
          forall k | i + |tag| <= k < j ensures s[k] != '>' {
            assert !OccursAt(s, ">", k);
          }
        }
        Some((i, j))
  }

  // ---------------------------------------------------------------------------
  // String.prototype.replace with a pattern string

  /** The replacement text after `$`-pattern expansion, for a regular
      expression with one capture group: `$$`, `$&`, `` $` ``, `$'`, `$1`
      and `$01` are expanded, every other `$` stands for itself. */
  function Expand(r: string, matched: string, before: string, after: string, group: string): string
    decreases |r|
  {
    if r == [] then []
    else if r[0] != '$' || |r| == 1 then [r[0]] + Expand(r[1..], matched, before, after, group)
    else if r[1] == '$' then "$" + Expand(r[2..], matched, before, after, group)
    else if r[1] == '&' then matched + Expand(r[2..], matched, before, after, group)
    else if r[1] == '`' then before + Expand(r[2..], matched, before, after, group)
    else if r[1] == '\'' then after + Expand(r[2..], matched, before, after, group)
    else if r[1] == '1' then group + Expand(r[2..], matched, before, after, group)
    else if r[1] == '0' && |r| >= 3 && r[2] == '1' then group + Expand(r[3..], matched, before, after, group)
    else [r[0]] + Expand(r[1..], matched, before, after, group)
  }

  /** Text without `$` is copied as it is. */
  lemma {:induction false} ExpandPlain(p: string, rest: string, matched: string, before: string, after: string, group: string)
    requires '$' !in p
    ensures Expand(p + rest, matched, before, after, group) == p + Expand(rest, matched, before, after, group)
    decreases |p|
  {
    if p == [] {
      assert p + rest == rest;
    } else {
      assert (p + rest)[1..] == p[1..] + rest;
      ExpandPlain(p[1..], rest, matched, before, after, group);
    }
  }

  /** `s.replace(/<name([^>]*)>/i, repl)`. */
  function ReplaceTag(s: string, name: string, repl: string): string {
    match TagMatch(s, name)
    case None => s
    case Some((i, j)) =>
      s[..i] + Expand(repl, s[i..j + 1], s[..i], s[j + 1..], s[i + |name| + 1..j]) + s[j + 1..]
  }

  /** A replacement `<name$1>` followed by `$`-free text re-creates the tag
      in lower case, with its attributes, and puts the text right after it. */
  lemma ReplaceTagKeepsAttributes(s: string, name: string, text: string)
    requires '$' !in name && '$' !in text
    requires TagMatch(s, name).Some?
    ensures ReplaceTag(s, name, "<" + name + "$1>" + text) == Spliced(s, name, text)
  {
    var (i, j) := TagMatch(s, name).value;
    SpliceAt(s, name, text, i, j);
  }

  /** The replacement at a match from `i` to `j`. */
  lemma SpliceAt(s: string, name: string, text: string, i: nat, j: nat)
    requires '$' !in name && '$' !in text
    requires i + |name| + 1 <= j < |s|
    ensures
      var m, b, a, g := s[i..j + 1], s[..i], s[j + 1..], s[i + |name| + 1..j];
      b + Expand("<" + name + "$1>" + text, m, b, a, g) + a == b + "<" + name + g + ">" + text + a
  {
    var m, b, a, g := s[i..j + 1], s[..i], s[j + 1..], s[i + |name| + 1..j];
    var repl := "<" + name + "$1>" + text;
    assert repl == ("<" + name) + ("$1" + (">" + text));
    ExpandTagText("<" + name, text, m, b, a, g);
  }

  /** `s` with its first `<name…>` tag written as `<name…>` in lower case,
      its attributes kept, and `text` right after it. */
  function Spliced(s: string, name: string, text: string): string
    requires TagMatch(s, name).Some?
  {
    var (i, j) := TagMatch(s, name).value;
    s[..i] + "<" + name + s[i + |name| + 1..j] + ">" + text + s[j + 1..]
  }

  lemma ExpandTagText(open: string, text: string, m: string, b: string, a: string, g: string)
    requires '$' !in open && '$' !in text
    ensures Expand(open + ("$1" + (">" + text)), m, b, a, g) == open + g + ">" + text
  {
    ExpandPlain(open, "$1" + (">" + text), m, b, a, g);
    var r := "$1" + (">" + text);
    assert r[0] == '$' && r[1] == '1' && r[2..] == ">" + text;
    ExpandPlain(">" + text, [], m, b, a, g);
    assert ">" + text + [] == ">" + text;
  }

  // ---------------------------------------------------------------------------
  // Documents

  const DocHead: string :=
    "<!DOCTYPE html>\n<html>\n<head>\n<meta charset=\"utf-8\">\n" +
    "<meta name=\"viewport\" content=\"width=device-width, initial-scale=1\">\n"
  const DocBody: string := "\n</head>\n<body>\n"
  const DocEnd: string := "\n</body>\n</html>"

  /** `<style>css</style><script>js</script>`. */
  function Injection(css: string, js: string): string {
    "<style>" + css + "</style><script>" + js + "</script>"
  }

  /** `injectIntoHtml(html, css, js)`. */
  function InjectIntoHtml(html: string, css: string, js: string): string {
    var injection := Injection(css, js);
    if HasOpenTag(html, "html") then
      if HasOpenTag(html, "head") then ReplaceTag(html, "head", "<head$1>" + injection)
      else ReplaceTag(html, "html", "<html$1><head>" + injection + "</head>")
    else DocHead + injection + DocBody + html + DocEnd
  }

  /** With a head tag, the injection goes right after the first `<head…>`
      tag, whose attributes are kept; the tag itself is written in lower
      case. */
  lemma InjectAfterHead(html: string, css: string, js: string)
    requires HasOpenTag(html, "html") && HasOpenTag(html, "head")
    requires '$' !in Injection(css, js)
    requires TagMatch(html, "head").Some?
    ensures InjectIntoHtml(html, css, js) == Spliced(html, "head", Injection(css, js))
  {
    HeadReplacement(Injection(css, js));
    ReplaceTagKeepsAttributes(html, "head", Injection(css, js));
  }

  lemma HeadReplacement(t: string)
    ensures "<head$1>" + t == "<" + "head" + "$1>" + t
  {
  }

  lemma HtmlReplacement(t: string)
    ensures "<html$1><head>" + t + "</head>" == "<" + "html" + "$1>" + ("<head>" + t + "</head>")
  {
  }

  /** An `<html…>` tag without a head gets a new head holding the injection. */
  lemma InjectNewHead(html: string, css: string, js: string)
    requires HasOpenTag(html, "html") && !HasOpenTag(html, "head")
    requires '$' !in Injection(css, js)
    requires TagMatch(html, "html").Some?
    ensures InjectIntoHtml(html, css, js) == Spliced(html, "html", "<head>" + Injection(css, js) + "</head>")
  {
    var text := "<head>" + Injection(css, js) + "</head>";
    HtmlReplacement(Injection(css, js));
    ReplaceTagKeepsAttributes(html, "html", text);
  }

  /** A fragment is placed in the body of the fixed document. */
  lemma InjectFragment(html: string, css: string, js: string)
    requires !HasOpenTag(html, "html")
    ensures StartsWith(InjectIntoHtml(html, css, js), DocHead + Injection(css, js) + DocBody)
    ensures EndsWith(InjectIntoHtml(html, css, js), html + DocEnd)
  {
    var r := InjectIntoHtml(html, css, js);
    assert r == (DocHead + Injection(css, js) + DocBody) + (html + DocEnd);
  }

  /** The test and the replacement disagree on an unclosed tag: `<html lang`
      passes the test, yet, with no `>` to end the tag, nothing is inserted
      and the text comes back unchanged. */
  lemma UnclosedHtmlTagLeftAlone(css: string, js: string)
    ensures HasOpenTag("<html lang", "html")
    ensures InjectIntoHtml("<html lang", css, js) == "<html lang"
  {
    LangHasHtml();
    LangHasNoHead();
    LangTagUnclosed();
  }

  lemma LangHasHtml()
    ensures HasOpenTag("<html lang", "html")
  {
    assert OpenTagAt("<html lang", "html", 0);
  }

  lemma LangHasNoHead()
    ensures !HasOpenTag("<html lang", "head")
  {
    var s := "<html lang";
    forall k | 0 <= k ensures !OpenTagAt(s, "head", k) {
      if k == 0 {
        assert s[1] != 'h' || s[2] != 'e';
      }
    }
  }

  lemma LangTagUnclosed()
    ensures TagMatch("<html lang", "html").None?
  {
    var s := "<html lang";
    assert CiAt(s, 0, "<html");
    assert !CloseAfter(s, 5);
  }

  // ---------------------------------------------------------------------------
  // wrapper.ts

  datatype Mode = Embedded | Fullscreen

  const CssResetBase: string :=
    "\n  *, *::before, *::after { box-sizing: border-box; }\n  html, body { margin: 0; padding: 0; }\n"
  const CssResetIframe: string :=
    CssResetBase + "\n  html, body { overflow: hidden; }\n  :root { --widget-layout: embedded; }\n"
  const CssResetFullscreen: string :=
    CssResetBase + "\n  html, body { height: 100% !important; min-height: 100% !important; }\n  :root { --widget-layout: fullscreen; }\n"

  /** The reset CSS for a mode. */
  function ResetCss(mode: Mode): (css: string)
    ensures StartsWith(css, CssResetBase)
    ensures mode == Fullscreen <==> css == CssResetFullscreen
  {
    if mode == Fullscreen then CssResetFullscreen else
      assert |CssResetIframe| != |CssResetFullscreen|;
      CssResetIframe
  }

  /** `wrapWidgetHtml(html, mode)`, with `framework(mode)` the text of the
      runtime script built for that mode; the mode defaults to embedded. */
  function WrapWidgetHtml(html: string, framework: Mode -> string, mode: Mode := Embedded): string {
    InjectIntoHtml(html, ResetCss(mode), framework(mode))
  }

  lemma DefaultModeIsEmbedded(html: string, framework: Mode -> string)
    ensures WrapWidgetHtml(html, framework) == InjectIntoHtml(html, CssResetIframe, framework(Embedded))
  {
  }

  // ---------------------------------------------------------------------------
  // widgetFramework.ts

  const WidgetCssReset: string :=
    "\n  *, *::before, *::after { box-sizing: border-box; }\n  html, body { margin: 0; padding: 0; overflow: hidden; }\n"

  /** `wrapWidgetHtml(html)` of the widget framework, with `script` the text
      of its runtime. */
  function WrapFrameworkHtml(html: string, script: string): string {
    var style := "<style>" + WidgetCssReset + "</style>";
    var code := "<script>" + script + "</script>";
    if HasOpenTag(html, "html") then
      if HasOpenTag(html, "head") then ReplaceTag(html, "head", "<head$1>" + style + code)
      else ReplaceTag(html, "html", "<html$1><head>" + style + code + "</head>")
    else DocHead + style + "\n" + code + DocBody + html + DocEnd
  }

  /** For a full document the framework wraps exactly as the wrapper does
      with the framework's CSS. */
  lemma FrameworkWrapAgrees(html: string, script: string)
    requires HasOpenTag(html, "html")
    ensures WrapFrameworkHtml(html, script) == InjectIntoHtml(html, WidgetCssReset, script)
  {
    var style := "<style>" + WidgetCssReset + "</style>";
    var code := "<script>" + script + "</script>";
    assert style + code == Injection(WidgetCssReset, script);
    assert "<head$1>" + style + code == "<head$1>" + (style + code);
    assert "<html$1><head>" + style + code + "</head>" == "<html$1><head>" + (style + code) + "</head>";
  }

  /** For a fragment it builds the same document except for one extra line
      break between the style and the script. */
  lemma FrameworkWrapFragment(html: string, script: string)
    requires !HasOpenTag(html, "html")
    ensures StartsWith(WrapFrameworkHtml(html, script), DocHead + "<style>" + WidgetCssReset + "</style>\n")
    ensures EndsWith(WrapFrameworkHtml(html, script), "<script>" + script + "</script>" + DocBody + html + DocEnd)
    ensures |WrapFrameworkHtml(html, script)| == |InjectIntoHtml(html, WidgetCssReset, script)| + 1
  {
    var style := "<style>" + WidgetCssReset + "</style>";
    var code := "<script>" + script + "</script>";
    Regroup(DocHead, style, "\n", code, DocBody, html, DocEnd);
  }

  lemma Regroup(a: string, b: string, c: string, d: string, e: string, f: string, g: string)
    ensures a + b + c + d + e + f + g == (a + b + c) + (d + e + f + g)
    ensures |a + b + c + d + e + f + g| == |a + b + d + e + f + g| + |c|
  {
  }
}
