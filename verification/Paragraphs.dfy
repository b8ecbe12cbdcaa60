/** The paragraph grouper `widgetEnv[ " block" ]` and `arrFlat`
    (chopsgen.js:798-839).  The whitespace trims the grouper applies to a
    paragraph (`letChopLtrimRegex`/`letChopRtrimRegex` of the parser
    library) are passed in as functions. */
module Paragraphs {
  import opened Widgets

  // ---- arrFlat ---------------------------------------------------------------

  /** `arrFlat`: the non-array leaves of nested arrays, left to right. */
  function Flatten(ws: seq<Widget>): (r: seq<Widget>)
    ensures forall i :: 0 <= i < |r| ==> !r[i].Seq?
    decreases ws, 1
  {
    if |ws| == 0 then []
    else
      var head := FlattenOne(ws[0]);
      var rest := Flatten(ws[1..]);
      assert forall i :: 0 <= i < |head + rest| ==> (head + rest)[i] == if i < |head| then head[i] else rest[i - |head|];
      head + rest
  }

  function FlattenOne(w: Widget): (r: seq<Widget>)
    ensures forall i :: 0 <= i < |r| ==> !r[i].Seq?
    decreases w, 0
  {
    if w.Seq? then Flatten(w.items) else [w]
  }

  /** Flattening distributes over concatenation. */
  lemma {:induction false} FlattenAppend(a: seq<Widget>, b: seq<Widget>)
    ensures Flatten(a + b) == Flatten(a) + Flatten(b)
    decreases |a|
  {
    if |a| == 0 {
      assert a + b == b;
    } else {
      assert (a + b)[0] == a[0] && (a + b)[1..] == a[1..] + b;
      FlattenAppend(a[1..], b);
    }
  }

  /** A list already free of arrays is its own flattening. */
  lemma {:induction false} FlattenFlat(ws: seq<Widget>)
    requires forall i :: 0 <= i < |ws| ==> !ws[i].Seq?
    ensures Flatten(ws) == ws
    decreases |ws|
  {
    if |ws| > 0 {
      FlattenFlat(ws[1..]);
      assert [ws[0]] + ws[1..] == ws;
    }
  }

  /** An array nested in a list flattens to the flattening of its items. */
  lemma FlattenNested(xs: seq<Widget>)
    ensures Flatten([Seq(xs)]) == Flatten(xs)
  {
    assert [Seq(xs)][0] == Seq(xs) && [Seq(xs)][1..] == [];
    assert Flatten(xs) + [] == Flatten(xs);
  }

  /** Flattening twice is flattening once. */
  lemma FlattenIdempotent(ws: seq<Widget>)
    ensures Flatten(Flatten(ws)) == Flatten(ws)
  {
    FlattenFlat(Flatten(ws));
  }

  /** Every non-array element of the list survives flattening. */
  lemma {:induction false} FlattenKeepsLeaves(ws: seq<Widget>, i: nat)
    requires i < |ws| && !ws[i].Seq?
    ensures ws[i] in Flatten(ws)
    decreases |ws|
  {
    if i > 0 {
      FlattenKeepsLeaves(ws[1..], i - 1);
    }
  }

  // ---- the " block" grouper --------------------------------------------------

  /** The paragraph a non-empty run becomes: `my.blockWidget( my.tag( "p" )( run ) )`. */
  function Paragraph(run: seq<Widget>): Widget
  {
    Block(Tag("p", [], Seq([Seq(run)])))
  }

  /** `bankBlock`: a non-empty buffer is trimmed at both ends, and if
      anything is left it becomes one paragraph. */
  function Bank(buf: seq<Widget>, ltrim: seq<Widget> -> seq<Widget>, rtrim: seq<Widget> -> seq<Widget>): (r: seq<Widget>)
    ensures |r| <= 1
    ensures |buf| == 0 ==> r == []
    ensures |r| == 1 <==> |buf| != 0 && |rtrim(ltrim(buf))| != 0
    ensures |r| == 1 ==> r[0] == Paragraph(rtrim(ltrim(buf)))
  {
    var trimmed := if |buf| != 0 then rtrim(ltrim(buf)) else buf;
    if |trimmed| != 0 then [Paragraph(trimmed)] else []
  }

  predicate AllBlocks(ws: seq<Widget>)
  {
    forall i :: 0 <= i < |ws| ==> ws[i].Block?
  }

  predicate NoBlocks(ws: seq<Widget>)
  {
    forall i :: 0 <= i < |ws| ==> !ws[i].Block?
  }

  /** Reference definition of the grouping of a flat list, given the items
      buffered so far. */
  function GroupFrom(buf: seq<Widget>, items: seq<Widget>, ltrim: seq<Widget> -> seq<Widget>, rtrim: seq<Widget> -> seq<Widget>): seq<Widget>
    decreases |items|
  {
    if |items| == 0 then Bank(buf, ltrim, rtrim)
    else if items[0].Block? then Bank(buf, ltrim, rtrim) + [items[0]] + GroupFrom([], items[1..], ltrim, rtrim)
    else GroupFrom(buf + [items[0]], items[1..], ltrim, rtrim)
  }

  /** `widgetEnv[ " block" ]` on a list of chops. */
  method Group(chops: seq<Widget>, ltrim: seq<Widget> -> seq<Widget>, rtrim: seq<Widget> -> seq<Widget>) returns (blocks: seq<Widget>)
    ensures blocks == GroupFrom([], Flatten(chops), ltrim, rtrim)
    ensures AllBlocks(blocks)
  {
    var flat := Flatten(chops);
    blocks := [];
    var buf: seq<Widget> := [];
    var i := 0;
    while i < |flat|
      invariant 0 <= i <= |flat|
      invariant blocks + GroupFrom(buf, flat[i..], ltrim, rtrim) == GroupFrom([], flat, ltrim, rtrim)
      invariant AllBlocks(blocks)
    {
      var it := flat[i];
      assert flat[i..][0] == it && flat[i..][1..] == flat[i + 1..];
      if it.Block? {
        var banked := Bank(buf, ltrim, rtrim);
        assert blocks + banked + [it] + GroupFrom([], flat[i + 1..], ltrim, rtrim)
            == blocks + GroupFrom(buf, flat[i..], ltrim, rtrim);
        blocks := blocks + banked + [it];
        buf := [];
      } else {
        buf := buf + [it];
      }
      i := i + 1;
    }
    assert flat[i..] == [];
    blocks := blocks + Bank(buf, ltrim, rtrim);
    GroupAllBlocks([], flat, ltrim, rtrim);
  }

  /** Every element the grouper returns is a BlockWidget. */
  lemma {:induction false} GroupAllBlocks(buf: seq<Widget>, items: seq<Widget>, ltrim: seq<Widget> -> seq<Widget>, rtrim: seq<Widget> -> seq<Widget>)
    ensures AllBlocks(GroupFrom(buf, items, ltrim, rtrim))
    decreases |items|
  {
    if |items| > 0 {
      if items[0].Block? {
        GroupAllBlocks([], items[1..], ltrim, rtrim);
      } else {
        GroupAllBlocks(buf + [items[0]], items[1..], ltrim, rtrim);
      }
    }
  }

  /** Items without a block in between are collected into the buffer. */
  lemma {:induction false} GroupRunBuffers(buf: seq<Widget>, run: seq<Widget>, rest: seq<Widget>, ltrim: seq<Widget> -> seq<Widget>, rtrim: seq<Widget> -> seq<Widget>)
    requires NoBlocks(run)
    ensures GroupFrom(buf, run + rest, ltrim, rtrim) == GroupFrom(buf + run, rest, ltrim, rtrim)
    decreases |run|
  {
    if |run| == 0 {
      assert run + rest == rest && buf + run == buf;
    } else {
      assert (run + rest)[0] == run[0] && (run + rest)[1..] == run[1..] + rest;
      GroupRunBuffers(buf + [run[0]], run[1..], rest, ltrim, rtrim);
      assert buf + [run[0]] + run[1..] == buf + run;
    }
  }

  /** A maximal run of non-block items becomes at most one paragraph: the
      trimmed run, if anything is left of it. */
  lemma GroupRun(run: seq<Widget>, ltrim: seq<Widget> -> seq<Widget>, rtrim: seq<Widget> -> seq<Widget>)
    requires NoBlocks(run)
    ensures GroupFrom([], run, ltrim, rtrim) == Bank(run, ltrim, rtrim)
    ensures |GroupFrom([], run, ltrim, rtrim)| <= 1
  {
    GroupRunBuffers([], run, [], ltrim, rtrim);
    assert run + [] == run && [] + run == run;
  }

  /** An input BlockWidget appears unchanged, right after the paragraph of
      the run before it and before the grouping of what follows it. */
  lemma GroupSplit(run: seq<Widget>, b: Widget, rest: seq<Widget>, ltrim: seq<Widget> -> seq<Widget>, rtrim: seq<Widget> -> seq<Widget>)
    requires NoBlocks(run) && b.Block?
    ensures GroupFrom([], run + [b] + rest, ltrim, rtrim) ==
      Bank(run, ltrim, rtrim) + [b] + GroupFrom([], rest, ltrim, rtrim)
  {
    assert run + [b] + rest == run + ([b] + rest);
    GroupRunBuffers([], run, [b] + rest, ltrim, rtrim);
    assert [] + run == run;
    assert ([b] + rest)[0] == b && ([b] + rest)[1..] == rest;
  }

  /** Two strings with no block between them make a single paragraph when
      they survive trimming. */
  lemma TwoStringsOneParagraph(x: string, y: string, ltrim: seq<Widget> -> seq<Widget>, rtrim: seq<Widget> -> seq<Widget>)
    requires |rtrim(ltrim([Text(x), Text(y)]))| != 0
    ensures GroupFrom([], [Text(x), Text(y)], ltrim, rtrim) == [Paragraph(rtrim(ltrim([Text(x), Text(y)])))]
  {
    GroupRun([Text(x), Text(y)], ltrim, rtrim);
  }
}
