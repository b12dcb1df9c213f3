/** Packing paragraphs and clauses into passages, in order and greedily. */
module Packing {
  import opened Prelude
  import opened TextFacts

  const GAP := "\n\n"

  type Group = seq<string>

  // ----- partitions -----

  /** The size of a group, each paragraph counted with its gap. */
  function Size(g: Group): nat
  {
    if g == [] then 0 else Size(g[..|g| - 1]) + |g[|g| - 1]| + 2
  }

  function Flatten(gs: seq<Group>): Group
  {
    if gs == [] then [] else gs[0] + Flatten(gs[1..])
  }

  function Texts(gs: seq<Group>): seq<string>
  {
    if gs == [] then [] else [Join(gs[0], GAP)] + Texts(gs[1..])
  }

  /** One paragraph of any length, or several within the budget. */
  predicate Fits(g: Group, budget: int) { |g| == 1 || (g != [] && Size(g) <= budget) }

  predicate AllFit(gs: seq<Group>, budget: int) { forall g :: g in gs ==> Fits(g, budget) }

  /** A group within the budget that could not take the first paragraph of the next one. */
  predicate Shut(g: Group, next: Group, budget: int)
  {
    Fits(g, budget) && next != [] && Size(g) + |next[0]| + 2 > budget
  }

  /** Each of `gs` is shut by the group after it, the last one by `open`. */
  predicate Chain(gs: seq<Group>, open: Group, budget: int)
  {
    gs == [] || (Shut(gs[0], if |gs| == 1 then open else gs[1], budget) && Chain(gs[1..], open, budget))
  }

  /** A greedy partition: every group takes all that the budget allows. */
  predicate Greedy(gs: seq<Group>, budget: int)
  {
    gs == [] || (Chain(gs[..|gs| - 1], gs[|gs| - 1], budget) && Fits(gs[|gs| - 1], budget))
  }

  lemma {:induction false} SizeConcat(a: Group, b: Group)
    ensures Size(a + b) == Size(a) + Size(b)
  {
    if b == [] {
      assert a + b == a;
    } else {
      SizeConcat(a, b[..|b| - 1]);
      assert (a + b)[..|a + b| - 1] == a + b[..|b| - 1];
    }
  }

  lemma SizeOne(p: string)
    ensures Size([p]) == |p| + 2
  {
    assert [p][..0] == [];
  }

  lemma {:induction false} FlattenAppend(gs: seq<Group>, g: Group)
    ensures Flatten(gs + [g]) == Flatten(gs) + g
  {
    if gs == [] {
      assert ([g])[1..] == [] && gs + [g] == [g];
    } else {
      FlattenAppend(gs[1..], g);
      assert (gs + [g])[1..] == gs[1..] + [g];
    }
  }

  lemma {:induction false} TextsAppend(gs: seq<Group>, g: Group)
    ensures Texts(gs + [g]) == Texts(gs) + [Join(g, GAP)]
  {
    if gs == [] {
      assert ([g])[1..] == [] && gs + [g] == [g];
    } else {
      TextsAppend(gs[1..], g);
      assert (gs + [g])[1..] == gs[1..] + [g];
    }
  }

  /** The open group grows. */
  lemma {:induction false} ChainExtend(gs: seq<Group>, open: Group, p: string, budget: int)
    requires Chain(gs, open, budget) && open != []
    ensures Chain(gs, open + [p], budget)
  {
    if gs == [] {
    } else {
      ChainExtend(gs[1..], open, p, budget);
    }
  }

  /** The open group is shut by the next paragraph. */
  lemma {:induction false} ChainClose(gs: seq<Group>, open: Group, p: string, budget: int)
    requires Chain(gs, open, budget) && Shut(open, [p], budget)
    ensures Chain(gs + [open], [p], budget)
  {
    if gs == [] {
      assert gs + [open] == [open] && [open][1..] == [];
    } else {
      ChainClose(gs[1..], open, p, budget);
      assert (gs + [open])[1..] == gs[1..] + [open];
    }
  }

  lemma {:induction false} ChainFits(gs: seq<Group>, open: Group, budget: int)
    requires Chain(gs, open, budget)
    ensures AllFit(gs, budget)
  {
    if gs == [] {
    } else {
      ChainFits(gs[1..], open, budget);
    }
  }

  /** Groups of a greedy partition have one paragraph or stay within the budget. */
  lemma GreedyFits(gs: seq<Group>, budget: int)
    requires Greedy(gs, budget)
    ensures AllFit(gs, budget)
  {
    if gs != [] {
      ChainFits(gs[..|gs| - 1], gs[|gs| - 1], budget);
    }
  }

  lemma GreedyTail(gs: seq<Group>, budget: int)
    requires Greedy(gs, budget) && gs != []
    ensures Fits(gs[0], budget) && Greedy(gs[1..], budget)
    ensures |gs| > 1 ==> Shut(gs[0], gs[1], budget)
  {
    if |gs| > 1 {
      var rest, init := gs[1..], gs[..|gs| - 1];
      assert rest[..|rest| - 1] == init[1..] && rest[|rest| - 1] == gs[|gs| - 1];
    }
  }

  predicate Suffix(y: Group, x: Group) { |y| <= |x| && x[|x| - |y|..] == y }

  lemma SuffixDrop(g: Group, y: Group, o: Group, x: Group)
    requires Suffix(g + y, o + x) && |y| <= |x|
    ensures Suffix(y, x)
  {
    var w := o + x;
    assert w[|w| - |g + y|..][|g|..] == y;
    assert w[|w| - |y|..] == y && x[|x| - |y|..] == y;
  }

  /** A group that starts inside `o` and was shut by `next` reaches the end of `o`. */
  lemma ShutGroupReaches(g: Group, next: string, rest: Group, o: Group, x: Group, budget: int)
    requires Fits(o, budget) && g != [] && Size(g) + |next| + 2 > budget
    requires Suffix(g + ([next] + rest), o + x)
    ensures |[next] + rest| <= |x|
  {
    if |rest| >= |x| {
      var w, y := o + x, g + ([next] + rest);
      var s := |w| - |y|;
      assert w[s..] == y;
      assert o[s..s + |g|] == g by {
        assert w[s..][..|g|] == g;
      }
      assert o[s + |g|] == next by {
        assert w[s..][|g|] == next;
      }
      assert o == o[..s] + g + [next] + o[s + |g| + 1..];
      SizeConcat(o[..s] + g + [next], o[s + |g| + 1..]);
      SizeConcat(o[..s] + g, [next]);
      SizeConcat(o[..s], g);
      SizeOne(next);
      assert false;
    }
  }

  /** A greedy partition of a suffix has no more groups than any partition of the whole that fits;
      in particular no partition within the budget has fewer groups than the greedy one. */
  lemma {:induction false} GreedyIsOptimal(gs: seq<Group>, os: seq<Group>, budget: int)
    requires Greedy(gs, budget) && AllFit(os, budget) && Suffix(Flatten(gs), Flatten(os))
    ensures |gs| <= |os|
    decreases |os|
  {
    hide Size, Chain, Greedy;
    if gs == [] {
    } else {
      GreedyTail(gs, budget);
      var g, gs' := gs[0], gs[1..];
      assert Flatten(gs) == g + Flatten(gs') && os != [];
      var o, os' := os[0], os[1..];
      assert Fits(o, budget) && Flatten(os) == o + Flatten(os');
      var x', y' := Flatten(os'), Flatten(gs');
      if |g + y'| <= |x'| {
        assert [] + (g + y') == g + y';
        SuffixDrop([], g + y', o, x');
        GreedyIsOptimal(gs, os', budget);
      } else {
        if gs' != [] {
          var h := gs'[0];
          assert y' == [h[0]] + y'[1..];
          ShutGroupReaches(g, h[0], y'[1..], o, x', budget);
        }
        SuffixDrop(g, y', o, x');
        GreedyIsOptimal(gs', os', budget);
      }
    }
  }

  /** The greedy partitions of a list of paragraphs. */
  predicate GreedyPartition(ps: Group, budget: int, gs: seq<Group>)
  {
    Flatten(gs) == ps && Greedy(gs, budget)
  }

  /** The first group reaches at least as far as any first group that fits. */
  lemma HeadReaches(gs: seq<Group>, os: seq<Group>, budget: int)
    requires Greedy(gs, budget) && gs != [] && os != [] && Fits(os[0], budget) && Flatten(gs) == Flatten(os)
    ensures |gs[0]| >= |os[0]|
  {
    hide Size, Chain, Greedy;
    GreedyTail(gs, budget);
    var g, y, o, x := gs[0], Flatten(gs[1..]), os[0], Flatten(os[1..]);
    assert g + y == o + x;
    if |gs| == 1 {
      assert y == [];
    } else {
      assert gs[1..][0] == gs[1];
      assert y == [gs[1][0]] + y[1..];
      assert Suffix(g + ([gs[1][0]] + y[1..]), o + x);
      ShutGroupReaches(g, gs[1][0], y[1..], o, x, budget);
    }
  }

  /** There is exactly one: the budget determines where each group ends. */
  lemma {:induction false} GreedyIsUnique(gs: seq<Group>, gs': seq<Group>, budget: int)
    requires Greedy(gs, budget) && Greedy(gs', budget) && Flatten(gs) == Flatten(gs')
    ensures gs == gs'
  {
    GreedyEmpty(gs, budget);
    GreedyEmpty(gs', budget);
    if gs == [] {
    } else {
      GreedyTail(gs, budget);
      GreedyTail(gs', budget);
      HeadReaches(gs, gs', budget);
      HeadReaches(gs', gs, budget);
      hide Greedy;
      var n := |gs[0]|;
      assert gs[0] == Flatten(gs)[..n] && gs'[0] == Flatten(gs')[..n];
      assert Flatten(gs[1..]) == Flatten(gs)[n..] && Flatten(gs'[1..]) == Flatten(gs')[n..];
      GreedyIsUnique(gs[1..], gs'[1..], budget);
      assert gs == [gs[0]] + gs[1..] && gs' == [gs'[0]] + gs'[1..];
    }
  }

  lemma GreedyEmpty(gs: seq<Group>, budget: int)
    requires Greedy(gs, budget)
    ensures gs == [] <==> Flatten(gs) == []
  {
    if gs != [] {
      GreedyTail(gs, budget);
    }
  }

  lemma {:induction false} JoinConcat(a: Group, b: Group)
    requires a != [] && b != []
    ensures Join(a + b, GAP) == Join(a, GAP) + GAP + Join(b, GAP)
  {
    if |a| > 1 {
      JoinConcat(a[1..], b);
      assert (a + b)[1..] == a[1..] + b;
      assert a[0] + GAP + (Join(a[1..], GAP) + GAP + Join(b, GAP))
          == a[0] + GAP + Join(a[1..], GAP) + GAP + Join(b, GAP);
    } else {
      assert (a + b)[1..] == b;
    }
  }

  /** Joining the texts of the groups again gives the joined paragraphs. */
  lemma {:induction false} PackingIsLossless(gs: seq<Group>)
    requires forall g :: g in gs ==> g != []
    ensures Join(Texts(gs), GAP) == Join(Flatten(gs), GAP)
  {
    if gs == [] {
    } else {
      var g, rest := gs[0], gs[1..];
      assert g in gs && forall h :: h in rest ==> h in gs;
      PackingIsLossless(rest);
      if rest == [] {
        assert Texts(gs) == [Join(g, GAP)] && Flatten(gs) == g;
      } else {
        NonEmptyFlatten(rest);
        JoinConcat(g, Flatten(rest));
        JoinConcat([Join(g, GAP)], Texts(rest));
      }
    }
  }

  lemma NonEmptyFlatten(gs: seq<Group>)
    requires gs != [] && forall g :: g in gs ==> g != []
    ensures Flatten(gs) != [] && Texts(gs) != []
  {
    assert gs[0] in gs;
  }

  // ----- chunk_markdown -----

  /** The stripped paragraphs that are not empty. */
  function Paragraphs(parts: seq<string>): (ps: seq<string>)
    ensures forall p :: p in ps ==> p != [] && !IsSpace(p[0]) && !IsSpace(p[|p| - 1])
  {
    if parts == [] then []
    else
      var part := Strip(parts[|parts| - 1]);
      Paragraphs(parts[..|parts| - 1]) + if part != [] then [part] else []
  }

  lemma ParagraphsMore(parts: seq<string>, part: string)
    ensures Paragraphs(parts + [part]) == Paragraphs(parts) + if Strip(part) != [] then [Strip(part)] else []
  {
    hide Strip, IsSpace;
    assert (parts + [part])[..|parts|] == parts;
  }

  lemma NoParagraphs()
    ensures Paragraphs([]) == []
  {
  }

  predicate Inked(part: string) { !AllSpace(part) }

  /** The texts are the stripped parts at the given positions. */
  ghost predicate StrippedAt(parts: seq<string>, at: seq<nat>, ps: seq<string>)
  {
    |ps| == |at| && forall i :: 0 <= i < |at| ==> at[i] < |parts| && ps[i] == Strip(parts[at[i]])
  }

  lemma StrippedMore(parts: seq<string>, part: string, at: seq<nat>, ps: seq<string>)
    requires StrippedAt(parts, at, ps)
    ensures StrippedAt(parts + [part], at, ps)
    ensures StrippedAt(parts + [part], at + [|parts|], ps + [Strip(part)])
  {
    hide Strip;
  }

  ghost predicate ParagraphPositions(parts: seq<string>, at: seq<nat>)
  {
    Picks(parts, Inked, at) && StrippedAt(parts, at, Paragraphs(parts))
  }

  lemma BlankPart(parts: seq<string>, part: string, at: seq<nat>)
    requires ParagraphPositions(parts, at) && !Inked(part)
    ensures ParagraphPositions(parts + [part], at)
  {
    hide IsSpace, Strip, AllSpace, Picks, Paragraphs, StrippedAt;
    ParagraphsMore(parts, part);
    BlankIffStripped(part);
    PicksMore(parts, part, Inked, at);
    StrippedMore(parts, part, at, Paragraphs(parts));
    assert Paragraphs(parts) + [] == Paragraphs(parts);
  }

  lemma InkedPart(parts: seq<string>, part: string, at: seq<nat>)
    requires ParagraphPositions(parts, at) && Inked(part)
    ensures ParagraphPositions(parts + [part], at + [|parts|])
  {
    hide IsSpace, Strip, AllSpace, Picks, Paragraphs, StrippedAt;
    ParagraphsMore(parts, part);
    BlankIffStripped(part);
    PicksMore(parts, part, Inked, at);
    StrippedMore(parts, part, at, Paragraphs(parts));
  }

  /** The paragraphs are the stripped parts at the positions that are not all white space, in order. */
  lemma {:induction false} ParagraphsAt(parts: seq<string>) returns (at: seq<nat>)
    ensures ParagraphPositions(parts, at)
  {
    if parts == [] {
      at := [];
    } else {
      hide ParagraphPositions, Inked;
      var init, last := parts[..|parts| - 1], parts[|parts| - 1];
      assert init + [last] == parts;
      at := ParagraphsAt(init);
      if Inked(last) {
        InkedPart(init, last, at);
        at := at + [|init|];
      } else {
        BlankPart(init, last, at);
      }
    }
  }

  /** Blank parts have no ink and stripping takes none. */
  lemma {:induction false} InkOfParagraphs(parts: seq<string>)
    ensures Inks(Paragraphs(parts)) == Inks(parts)
  {
    hide IsSpace, Strip, Inks, Paragraphs, Ink;
    if parts == [] {
      NoParagraphs();
    } else {
      var init, last := parts[..|parts| - 1], parts[|parts| - 1];
      InkOfParagraphs(init);
      ParagraphsMore(init, last);
      StripKeepsInk(last);
      InksMore(init, last);
      assert init + [last] == parts;
      if Strip(last) == [] {
        InkOfSpace([]);
        assert Paragraphs(parts) == Paragraphs(init) && Inks(init) + [] == Inks(init);
      } else {
        InksMore(Paragraphs(init), Strip(last));
      }
    }
  }

  /** The joined paragraphs have the ink of the text, in its order. */
  lemma InkIsKept(markdown: string)
    ensures Ink(Join(Paragraphs(Split(markdown, GAP)), GAP)) == Ink(markdown)
  {
    var parts := Split(markdown, GAP);
    assert AllSpace(GAP);
    SplitSplits(markdown, GAP);
    InkOfJoin(parts, GAP);
    InkOfJoin(Paragraphs(parts), GAP);
    InkOfParagraphs(parts);
  }

  /** The groups so far and the open one make up the paragraphs so far. */
  ghost predicate Packed(ps: Group, gs: seq<Group>, open: Group, budget: int)
  {
    && Flatten(gs) + open == ps && (open == [] ==> gs == [])
    && Chain(gs, open, budget) && (open != [] ==> Fits(open, budget))
  }

  lemma PackNext(ps: Group, gs: seq<Group>, open: Group, p: string, budget: int)
    requires Packed(ps, gs, open, budget)
    ensures open != [] && Size(open) + |p| + 2 > budget ==> Packed(ps + [p], gs + [open], [p], budget)
    ensures open == [] || Size(open) + |p| + 2 <= budget ==> Packed(ps + [p], gs, open + [p], budget)
  {
    if open == [] {
      assert gs == [] && open + [p] == [p] && ps + [p] == [p];
    } else if Size(open) + |p| + 2 > budget {
      ChainClose(gs, open, p, budget);
      FlattenAppend(gs, open);
    } else {
      ChainExtend(gs, open, p, budget);
      SizeConcat(open, [p]);
      SizeOne(p);
      assert Flatten(gs) + open + [p] == Flatten(gs) + (open + [p]);
    }
  }

  lemma PackedIsGreedy(ps: Group, gs: seq<Group>, open: Group, budget: int)
    requires Packed(ps, gs, open, budget)
    ensures var all := if open == [] then gs else gs + [open];
            && Greedy(all, budget) && Flatten(all) == ps
            && Texts(all) == Texts(gs) + if open == [] then [] else [Join(open, GAP)]
  {
    if open != [] {
      FlattenAppend(gs, open);
      TextsAppend(gs, open);
    }
  }

  /** The loop of `chunk_markdown`. */
  method Pack(ps: Group, target: int) returns (chunks: seq<string>)
    ensures exists gs :: GreedyPartition(ps, target, gs) && chunks == Texts(gs)
  {
    hide Join, Flatten, Chain, Greedy;
    chunks := [];
    ghost var groups := [];
    var current: Group, currentSize := [], 0;
    PackedEmpty(target);
    for i := 0 to |ps|
      invariant Packed(ps[..i], groups, current, target) && currentSize == Size(current) && chunks == Texts(groups)
    {
      assert ps[..i + 1] == ps[..i] + [ps[i]];
      PackNext(ps[..i], groups, current, ps[i], target);
      SizeConcat(current, [ps[i]]);
      SizeOne(ps[i]);
      var paragraphSize := |ps[i]| + 2;
      if current != [] && currentSize + paragraphSize > target {
        TextsAppend(groups, current);
        chunks := chunks + [Join(current, GAP)];
        groups := groups + [current];
        current := [];
        currentSize := 0;
        assert [] + [ps[i]] == [ps[i]];
      }
      current := current + [ps[i]];
      currentSize := currentSize + paragraphSize;
    }
    assert ps[..|ps|] == ps;
    PackedIsGreedy(ps, groups, current, target);
    if current != [] {
      chunks := chunks + [Join(current, GAP)];
      groups := groups + [current];
    }
    assert GreedyPartition(ps, target, groups);
  }

  lemma PackedEmpty(budget: int)
    ensures Packed([], [], [], budget)
  {
  }

  /** `chunk_markdown`: the greedy partition of the stripped paragraphs, each group joined; nothing
      but white space is lost. */
  method ChunkMarkdown(markdown: string, target: int) returns (chunks: seq<string>)
    ensures exists gs :: GreedyPartition(Paragraphs(Split(markdown, GAP)), target, gs) && chunks == Texts(gs)
    ensures Join(chunks, GAP) == Join(Paragraphs(Split(markdown, GAP)), GAP)
    ensures Ink(Join(chunks, GAP)) == Ink(markdown)
    ensures forall os :: AllFit(os, target) && Flatten(os) == Paragraphs(Split(markdown, GAP)) ==> |chunks| <= |os|
  {
    var ps := Paragraphs(Split(markdown, GAP));
    chunks := Pack(ps, target);
    hide Greedy, Flatten;
    ghost var gs :| GreedyPartition(ps, target, gs) && chunks == Texts(gs);
    GreedyFits(gs, target);
    PackingIsLossless(gs);
    TextsLength(gs);
    InkIsKept(markdown);
    forall os | AllFit(os, target) && Flatten(os) == ps ensures |chunks| <= |os| {
      assert Suffix(Flatten(gs), Flatten(os));
      GreedyIsOptimal(gs, os, target);
    }
  }

  lemma {:induction false} TextsLength(gs: seq<Group>)
    ensures |Texts(gs)| == |gs|
  {
    if gs == [] {
    } else {
      TextsLength(gs[1..]);
    }
  }

  // ----- _split_clauses -----

  lemma {:induction false} JoinedLength(g: Group)
    requires g != []
    ensures |Join(g, GAP)| == Size(g) - 2
    decreases |g|
  {
    if |g| == 1 {
      assert g == [g[0]];
      SizeOne(g[0]);
    } else {
      var init, p := g[..|g| - 1], g[|g| - 1];
      assert g == init + [p];
      JoinConcat(init, [p]);
      JoinedLength(init);
    }
  }

  /** The packing loop of `_split_clauses`: the same greedy packing with the open group kept as
      text, so that a passage of several blocks is at most `target` characters long. */
  method PackBlocks(blocks: Group, target: int) returns (chunks: seq<string>)
    requires forall b :: b in blocks ==> b != []
    ensures exists gs :: GreedyPartition(blocks, target + 2, gs) && chunks == Texts(gs)
  {
    hide Join, Flatten, Chain, Greedy, Size;
    chunks := [];
    ghost var groups := [];
    var current := [];
    ghost var open: Group := [];
    PackedEmpty(target + 2);
    for i := 0 to |blocks|
      invariant Packed(blocks[..i], groups, open, target + 2) && chunks == Texts(groups)
      invariant if open == [] then current == [] else current != [] && current == Join(open, GAP)
    {
      var block := blocks[i];
      assert block in blocks && blocks[..i + 1] == blocks[..i] + [block];
      PackNext(blocks[..i], groups, open, block, target + 2);
      OneJoin(block);
      if open != [] {
        JoinedLength(open);
        JoinConcat(open, [block]);
      }
      if current != [] && |current| + |block| + 2 > target {
        TextsAppend(groups, open);
        chunks := chunks + [current];
        current := block;
        groups, open := groups + [open], [block];
      } else {
        current := if current != [] then current + GAP + block else block;
        assert [] + [block] == [block];
        open := open + [block];
      }
    }
    assert blocks[..|blocks|] == blocks;
    PackedIsGreedy(blocks, groups, open, target + 2);
    if current != [] {
      chunks := chunks + [current];
      groups := groups + [open];
    }
    assert GreedyPartition(blocks, target + 2, groups);
  }

  lemma OneJoin(b: string)
    ensures Join([b], GAP) == b
  {
  }

  /** Cut `target` characters off while the text is longer than 1.6 times `target`. */
  function HardSplit(chunk: string, target: nat): (pieces: seq<string>)
    requires target > 0
    ensures pieces != []
    ensures forall p :: p in pieces ==> 10 * |p| <= 16 * target
    ensures forall i :: 0 <= i < |pieces| - 1 ==> |pieces[i]| == target
  {
    if 10 * |chunk| > 16 * target then [chunk[..target]] + HardSplit(chunk[target..], target) else [chunk]
  }

  function Flat(parts: seq<string>): string
  {
    if parts == [] then [] else parts[0] + Flat(parts[1..])
  }

  lemma {:induction false} HardSplitIsLossless(chunk: string, target: nat)
    requires target > 0
    ensures Flat(HardSplit(chunk, target)) == chunk
  {
    if 10 * |chunk| > 16 * target {
      HardSplitIsLossless(chunk[target..], target);
      var rest := HardSplit(chunk[target..], target);
      assert ([chunk[..target]] + rest)[1..] == rest;
    } else {
      assert [chunk][1..] == [];
    }
  }

  function SplitAll(chunks: seq<string>, target: nat): (out: seq<string>)
    requires target > 0
    ensures forall p :: p in out ==> 10 * |p| <= 16 * target
  {
    if chunks == [] then [] else SplitAll(chunks[..|chunks| - 1], target) + HardSplit(chunks[|chunks| - 1], target)
  }

  lemma FlatCons(x: string, rest: seq<string>)
    ensures Flat([x] + rest) == x + Flat(rest)
  {
    assert ([x] + rest)[1..] == rest;
  }

  lemma {:induction false} FlatConcat(a: seq<string>, b: seq<string>)
    ensures Flat(a + b) == Flat(a) + Flat(b)
  {
    if a == [] {
      assert a + b == b;
    } else {
      hide Flat;
      var x, rest := a[0], a[1..];
      assert a == [x] + rest && a + b == [x] + (rest + b);
      FlatConcat(rest, b);
      FlatCons(x, rest);
      FlatCons(x, rest + b);
      assert x + (Flat(rest) + Flat(b)) == x + Flat(rest) + Flat(b);
    }
  }

  lemma SplitAllSnoc(chunks: seq<string>, chunk: string, target: nat)
    requires target > 0
    ensures SplitAll(chunks + [chunk], target) == SplitAll(chunks, target) + HardSplit(chunk, target)
  {
    assert (chunks + [chunk])[..|chunks|] == chunks;
  }

  lemma FlatOne(s: string)
    ensures Flat([s]) == s
  {
    assert [s][1..] == [];
  }

  /** Cutting loses nothing. */
  lemma {:induction false} SplitAllIsLossless(chunks: seq<string>, target: nat)
    requires target > 0
    ensures Flat(SplitAll(chunks, target)) == Flat(chunks)
  {
    if chunks == [] {
    } else {
      hide SplitAll, HardSplit, Flat;
      var init, last := chunks[..|chunks| - 1], chunks[|chunks| - 1];
      assert chunks == init + [last];
      SplitAllIsLossless(init, target);
      HardSplitIsLossless(last, target);
      SplitAllSnoc(init, last, target);
      FlatConcat(SplitAll(init, target), HardSplit(last, target));
      FlatConcat(init, [last]);
      FlatOne(last);
    }
  }

  /** The inner loop of `_split_clauses`. */
  method CutLong(chunk0: string, target: nat, before: seq<string>) returns (out: seq<string>)
    requires target > 0
    ensures out == before + HardSplit(chunk0, target)
  {
    var chunk := chunk0;
    out := before;
    while 10 * |chunk| > 16 * target
      invariant out + HardSplit(chunk, target) == before + HardSplit(chunk0, target)
      decreases |chunk|
    {
      assert out + ([chunk[..target]] + HardSplit(chunk[target..], target))
          == out + [chunk[..target]] + HardSplit(chunk[target..], target);
      out := out + [chunk[..target]];
      chunk := chunk[target..];
    }
    out := out + [chunk];
  }

  /** `_split_clauses` from its blocks on: pack, then cut what is still too long. */
  method SplitClauses(blocks: Group, target: nat) returns (out: seq<string>)
    requires target > 0 && forall b :: b in blocks ==> b != []
    ensures exists gs :: GreedyPartition(blocks, target + 2, gs) && out == SplitAll(Texts(gs), target)
                         && Flat(out) == Flat(Texts(gs))
  {
    hide Greedy, Flatten, SplitAll, HardSplit, Flat;
    var chunks := PackBlocks(blocks, target);
    ghost var groups :| GreedyPartition(blocks, target + 2, groups) && chunks == Texts(groups);
    out := [];
    NothingToSplit(target);
    for k := 0 to |chunks|
      invariant out == SplitAll(chunks[..k], target)
    {
      assert chunks[..k + 1] == chunks[..k] + [chunks[k]];
      SplitAllSnoc(chunks[..k], chunks[k], target);
      out := CutLong(chunks[k], target, out);
    }
    assert chunks[..|chunks|] == chunks;
    SplitAllIsLossless(chunks, target);
  }

  lemma NothingToSplit(target: nat)
    requires target > 0
    ensures SplitAll([], target) == []
  {
  }
}
