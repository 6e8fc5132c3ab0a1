/** `extractWidgets`: the trimmed bodies of the fenced blocks opened by
    three backticks, `widget` and a line break, each closed by the next three
    backticks, found left to right by a global regular expression whose
    search starts at 0 for each call. */
module WidgetParser {
  import opened Common

  const Opener: string := "```widget\n"
  const Fence: string := "```"

  /** Some opener at or after `from` has a fence somewhere after it. */
  ghost predicate CompleteBlockFrom(s: string, from: nat) {
    exists i: nat, c: nat :: from <= i && OccursAt(s, Opener, i) && i + |Opener| <= c && OccursAt(s, Fence, c)
  }

  /** A body from `b.0` to `b.1`: the opener just before it, the closing
      fence at its end, and no fence inside. */
  ghost predicate IsBlock(s: string, b: (nat, nat)) {
    && |Opener| <= b.0 <= b.1
    && OccursAt(s, Opener, b.0 - |Opener|)
    && OccursAt(s, Fence, b.1)
    && (forall m :: b.0 <= m < b.1 ==> !OccursAt(s, Fence, m))
  }

  /** One successful `exec` from `from`: the first opener, and the first
      fence after it (the lazy `[\s\S]*?`). If the first opener has no fence
      after it, no later opener has one either, so the regex fails. */
  function NextBlock(s: string, from: nat): (r: Option<(nat, nat)>)
    ensures r.Some? ==> from + |Opener| <= r.value.0 <= r.value.1 && r.value.1 + |Fence| <= |s|
  {
    match FindFrom(s, Opener, from)
    case None => None
    case Some(i) =>
      match FindFrom(s, Fence, i + |Opener|)
      case None => None
      case Some(c) => Some((i + |Opener|, c))
  }

  /** A found block is a block, and it opens at the first opener. */
  lemma NextBlockIsFirst(s: string, from: nat)
    requires NextBlock(s, from).Some?
    ensures IsBlock(s, NextBlock(s, from).value)
    ensures forall j :: from <= j < NextBlock(s, from).value.0 - |Opener| ==> !OccursAt(s, Opener, j)
  {
  }

  /** `exec` fails exactly when no opener at or after `from` is followed by a
      fence. */
  lemma NextBlockNoneIff(s: string, from: nat)
    ensures NextBlock(s, from).None? <==> !CompleteBlockFrom(s, from)
  {
    var i := FindFrom(s, Opener, from);
    if i.Some? {
      var c := FindFrom(s, Fence, i.value + |Opener|);
      if c.Some? {
        assert OccursAt(s, Opener, i.value) && OccursAt(s, Fence, c.value);
      }
    }
  }

  /** The bodies' bounds, found from `from` on: each block starts at the
      first opener after the previous block's fence. */
  function Blocks(s: string, from: nat): (r: seq<(nat, nat)>)
    ensures forall k :: 0 <= k < |r| ==> from + |Opener| <= r[k].0 <= r[k].1 && r[k].1 + |Fence| <= |s|
    ensures forall k, l :: 0 <= k < l < |r| ==> r[k].1 + |Fence| <= r[l].0 - |Opener|
    decreases |s| - from
  {
    match NextBlock(s, from)
    case None => []
    case Some(b) => [b] + Blocks(s, b.1 + |Fence|)
  }

  /** `Blocks` unfolded once. */
  lemma BlocksStep(s: string, from: nat)
    ensures NextBlock(s, from).None? ==> Blocks(s, from) == []
    ensures NextBlock(s, from).Some? ==>
      Blocks(s, from) == [NextBlock(s, from).value] + Blocks(s, NextBlock(s, from).value.1 + |Fence|)
  {
  }

  /** The first block opens at the first opener, and there is none exactly
      when no opener is followed by a fence. */
  lemma BlocksStart(s: string, from: nat)
    ensures Blocks(s, from) != [] ==> forall j :: from <= j < Blocks(s, from)[0].0 - |Opener| ==> !OccursAt(s, Opener, j)
    ensures Blocks(s, from) == [] <==> !CompleteBlockFrom(s, from)
  {
    NextBlockNoneIff(s, from);
    if NextBlock(s, from).Some? {
      NextBlockIsFirst(s, from);
    }
  }

  /** Every bound found is a block. */
  lemma {:induction false} BlocksAreBlocks(s: string, from: nat)
    ensures forall k :: 0 <= k < |Blocks(s, from)| ==> IsBlock(s, Blocks(s, from)[k])
    decreases |s| - from
  {
    if NextBlock(s, from).Some? {
      var b := NextBlock(s, from).value;
      NextBlockIsFirst(s, from);
      BlocksAreBlocks(s, b.1 + |Fence|);
      BlocksCons(s, b, Blocks(s, b.1 + |Fence|));
    }
  }

  lemma BlocksCons(s: string, b: (nat, nat), rest: seq<(nat, nat)>)
    requires IsBlock(s, b)
    requires forall k :: 0 <= k < |rest| ==> IsBlock(s, rest[k])
    ensures forall k :: 0 <= k < |[b] + rest| ==> IsBlock(s, ([b] + rest)[k])
  {
  }

  /** What `extractWidgets` returns, from the search position `from`: the
      trimmed body of each block, in order. */
  function Widgets(s: string, from: nat): seq<string>
    decreases |s| - from
  {
    match NextBlock(s, from)
    case None => []
    case Some(b) => [Trim(s[b.0..b.1])] + Widgets(s, b.1 + |Fence|)
  }

  /** `widgets` holds the trimmed bodies of `blocks`, one for one. */
  predicate TrimmedBodies(s: string, widgets: seq<string>, blocks: seq<(nat, nat)>) {
    && |widgets| == |blocks|
    && forall k :: 0 <= k < |blocks| ==>
         blocks[k].0 <= blocks[k].1 <= |s| && widgets[k] == Trim(s[blocks[k].0..blocks[k].1])
  }

  lemma TrimmedBodiesCons(s: string, b: (nat, nat), widgets: seq<string>, blocks: seq<(nat, nat)>)
    requires b.0 <= b.1 <= |s| && TrimmedBodies(s, widgets, blocks)
    ensures TrimmedBodies(s, [Trim(s[b.0..b.1])] + widgets, [b] + blocks)
  {
  }

  /** The results are the trimmed bodies of the blocks, one for one. */
  lemma WidgetsAreBodies(s: string, from: nat)
    ensures TrimmedBodies(s, Widgets(s, from), Blocks(s, from))
    decreases |s| - from
  {
    if NextBlock(s, from).Some? {
      WidgetsAreBodies(s, NextBlock(s, from).value.1 + |Fence|);
      TrimmedBodiesStep(s, from);
    } else {
      WidgetsStep(s, from);
      BlocksStep(s, from);
    }
  }

  /** One more block in front keeps the correspondence. */
  lemma TrimmedBodiesStep(s: string, from: nat)
    requires NextBlock(s, from).Some?
    requires var next := NextBlock(s, from).value.1 + |Fence|;
      TrimmedBodies(s, Widgets(s, next), Blocks(s, next))
    ensures TrimmedBodies(s, Widgets(s, from), Blocks(s, from))
  {
    var b := NextBlock(s, from).value;
    var next := b.1 + |Fence|;
    WidgetsStep(s, from);
    BlocksStep(s, from);
    TrimmedBodiesCons(s, b, Widgets(s, next), Blocks(s, next));
  }

  /** One round of the `exec` loop: the first block found from `pos`, or
      none. */
  lemma WidgetsStep(s: string, pos: nat)
    ensures NextBlock(s, pos).None? ==> Widgets(s, pos) == []
    ensures NextBlock(s, pos).Some? ==>
      var b := NextBlock(s, pos).value;
      Widgets(s, pos) == [Trim(s[b.0..b.1])] + Widgets(s, b.1 + |Fence|)
  {
  }

  /** The loop's bookkeeping for one found block. */
  lemma ExtractStep(s: string, pos: nat, widgets: seq<string>, all: seq<string>)
    requires NextBlock(s, pos).Some?
    requires widgets + Widgets(s, pos) == all
    ensures var b := NextBlock(s, pos).value;
      b.0 <= b.1 <= |s| &&
      (widgets + [Trim(s[b.0..b.1])]) + Widgets(s, b.1 + |Fence|) == all
  {
    WidgetsStep(s, pos);
    var b := NextBlock(s, pos).value;
    AppendAssoc(widgets, [Trim(s[b.0..b.1])], Widgets(s, b.1 + |Fence|));
  }

  /** `extractWidgets(content)`: the `exec` loop. */
  method ExtractWidgets(content: string) returns (widgets: seq<string>)
    ensures widgets == Widgets(content, 0)
  {
    widgets := [];
    var pos := 0;
    var next := NextBlock(content, 0);
    while next.Some?
      invariant 0 <= pos <= |content| && next == NextBlock(content, pos)
      invariant widgets + Widgets(content, pos) == Widgets(content, 0)
      decreases |content| - pos
    {
      ExtractStep(content, pos, widgets, Widgets(content, 0));
      var b := next.value;
      widgets := widgets + [Trim(content[b.0..b.1])];
      pos := b.1 + |Fence|;
      assert widgets + Widgets(content, pos) == Widgets(content, 0);
      next := NextBlock(content, pos);
    }
    WidgetsStep(content, pos);
    assert widgets + [] == widgets;
  }

  /** Every result is trimmed. */
  lemma WidgetsAreTrimmed(s: string, k: nat)
    requires k < |Widgets(s, 0)|
    ensures Trim(Widgets(s, 0)[k]) == Widgets(s, 0)[k]
  {
    WidgetsAreBodies(s, 0);
    var b := Blocks(s, 0)[k];
    TrimIdempotent(s[b.0..b.1]);
  }

  /** The opener ends in a line break, so content without one (such as
      "```widget" followed by a space) holds no widget. */
  lemma NoLineBreakNoWidgets(s: string)
    requires '\n' !in s
    ensures Widgets(s, 0) == []
  {
    forall j: nat
      ensures !OccursAt(s, Opener, j)
    {
      if j + |Opener| <= |s| {
        assert s[j..j + |Opener|][9] == s[j + 9];
      }
    }
    BlocksStart(s, 0);
  }

  /** A block at the very start whose body holds no backtick is the first
      one found. */
  lemma LeadingNextBlock(s: string, body: string, rest: string)
    requires '`' !in body
    requires s == Opener + body + Fence + rest
    ensures NextBlock(s, 0) == Some((|Opener|, |Opener| + |body|))
  {
    var c := |Opener| + |body|;
    assert OccursAt(s, Opener, 0) by {
      assert s[..|Opener|] == Opener;
    }
    assert OccursAt(s, Fence, c) by {
      assert s[c..c + |Fence|] == Fence;
    }
    forall m | |Opener| <= m < c
      ensures !OccursAt(s, Fence, m)
    {
      assert s[m] == body[m - |Opener|];
    }
    FindFromFirst(s, Fence, |Opener|, c);
  }

  /** A block whose body holds no backtick, followed by any text, yields its
      trimmed body first and then whatever the search finds after its fence. */
  lemma LeadingBlock(body: string, rest: string)
    requires '`' !in body
    ensures var s := Opener + body + Fence + rest;
      Widgets(s, 0) == [Trim(body)] + Widgets(s, |Opener| + |body| + |Fence|)
  {
    var s := Opener + body + Fence + rest;
    LeadingNextBlock(s, body, rest);
    WidgetsStep(s, 0);
    MiddleSlice(Opener, body, Fence, rest);
  }

  lemma MiddleSlice(a: string, b: string, c: string, d: string)
    ensures (a + b + c + d)[|a|..|a| + |b|] == b
  {
  }
}
