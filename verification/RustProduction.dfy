/** Removing nested test helpers and cutting off the test module of a Rust source. */
module RustProduction {
  import opened Prelude
  import opened RustLexer
  import opened RustMask

  // ----- cfg(test) attributes of the mask -----

  predicate Blank(c: char) { c == ' ' || c == '\t' }

  predicate LineStart(m: string, p: nat) { p <= |m| && (p == 0 || m[p - 1] == '\n') }

  /** The words that follow `#` in a test attribute, with any white space before each. */
  const CFG_TEST: seq<string> := ["[", "cfg", "(", "test", ")", "]"]

  function WordsEnd(m: string, q: nat, words: seq<string>): (r: Option<nat>)
    requires q <= |m|
    ensures r.Some? ==> q <= r.value <= |m|
    decreases |words|
  {
    if words == [] then Some(q)
    else
      var w := q + Run(m, q, IsSpace);
      if OccursAt(m, words[0], w) then WordsEnd(m, w + |words[0]|, words[1..]) else None
  }

  lemma NoWords(m: string, q: nat)
    requires q <= |m|
    ensures WordsEnd(m, q, []) == Some(q)
  {
  }

  /** One word and the rest. */
  lemma WordsStep(m: string, q: nat, words: seq<string>)
    requires q <= |m| && words != []
    ensures var w := q + Run(m, q, IsSpace);
            WordsEnd(m, q, words) ==
            if OccursAt(m, words[0], w) then WordsEnd(m, w + |words[0]|, words[1..]) else None
  {
    hide IsSpace, Run, OccursAt;
  }

  /** The end of a match of the attribute pattern that starts at `p`. */
  function AttributeEnd(m: string, p: nat): (r: Option<nat>)
    ensures r.Some? ==> LineStart(m, p) && p < r.value <= |m|
  {
    if !LineStart(m, p) then None
    else
      var q := p + Run(m, p, Blank);
      if q < |m| && m[q] == '#' then WordsEnd(m, q + 1, CFG_TEST) else None
  }

  datatype Attribute = Attribute(start: nat, end: nat)

  /** One word with its white space contains no `#` if the word has none. */
  lemma WordHasNoHash(m: string, q: nat, word: string)
    requires q <= |m| && OccursAt(m, word, q + Run(m, q, IsSpace)) && '#' !in word
    ensures forall j :: q <= j < q + Run(m, q, IsSpace) + |word| ==> m[j] != '#'
  {
    var w := q + Run(m, q, IsSpace);
    assert forall j :: q <= j < w ==> IsSpace(m[j]);
    forall j | w <= j < w + |word| ensures m[j] != '#' {
      assert m[w..w + |word|][j - w] == word[j - w];
    }
  }

  lemma {:induction false} WordsHold(m: string, q: nat, words: seq<string>, e: nat)
    requires q <= |m| && WordsEnd(m, q, words) == Some(e)
    requires forall w :: w in words ==> |w| > 0 && '#' !in w
    ensures q <= e <= |m| && forall j :: q <= j < e ==> m[j] != '#'
    decreases |words|
  {
    hide IsSpace;
    if words == [] {
    } else {
      var w := q + Run(m, q, IsSpace);
      WordHasNoHash(m, q, words[0]);
      assert WordsEnd(m, w + |words[0]|, words[1..]) == Some(e);
      hide WordsEnd, Run, OccursAt;
      WordsHold(m, w + |words[0]|, words[1..], e);
    }
  }

  predicate EndsIn(words: seq<string>, c: char)
  {
    words != [] && var last := words[|words| - 1]; last != [] && last[|last| - 1] == c
  }

  lemma EndOfRest(words: seq<string>, c: char)
    requires EndsIn(words, c) && words[1..] != []
    ensures EndsIn(words[1..], c)
  {
  }

  lemma WordEndsIn(m: string, w: nat, word: string, c: char)
    requires OccursAt(m, word, w) && EndsIn([word], c)
    ensures w < w + |word| <= |m| && m[w + |word| - 1] == c
  {
    assert m[w..w + |word|][|word| - 1] == m[w + |word| - 1];
  }

  /** The match ends with the last character of the last word. */
  lemma {:induction false} WordsEndWith(m: string, q: nat, words: seq<string>, e: nat, c: char)
    requires q <= |m| && WordsEnd(m, q, words) == Some(e) && EndsIn(words, c)
    ensures q < e <= |m| && m[e - 1] == c
    decreases |words|
  {
    hide IsSpace, Run, WordsEnd, OccursAt, EndsIn;
    EndsInSome(words, c);
    WordsStep(m, q, words);
    var w, first, rest := q + Run(m, q, IsSpace), words[0], words[1..];
    if rest == [] {
      NoWords(m, w + |first|);
      assert words == [first];
      WordEndsIn(m, w, first, c);
    } else {
      EndOfRest(words, c);
      WordsEndWith(m, w + |first|, rest, e, c);
    }
  }

  lemma EndsInSome(words: seq<string>, c: char)
    requires EndsIn(words, c)
    ensures words != []
  {
  }

  lemma CfgTestWords()
    ensures forall w :: w in CFG_TEST ==> |w| > 0 && '#' !in w
    ensures CFG_TEST != [] && CFG_TEST[|CFG_TEST| - 1] == "]"
  {
    assert CFG_TEST == ["[", "cfg", "(", "test", ")", "]"];
  }

  /** A match is blanks, one `#`, and a rest without `#` that ends with a bracket. */
  lemma AttributeShape(m: string, p: nat, e: nat) returns (q: nat)
    requires AttributeEnd(m, p) == Some(e)
    ensures p <= q < e - 1 && e <= |m| && m[q] == '#' && m[e - 1] == ']'
    ensures forall j :: p <= j < q ==> Blank(m[j])
    ensures forall j :: q < j < e ==> m[j] != '#'
  {
    hide WordsEnd, IsSpace;
    q := p + Run(m, p, Blank);
    CfgTestWords();
    WordsHold(m, q + 1, CFG_TEST, e);
    WordsEndWith(m, q + 1, CFG_TEST, e, ']');
  }

  /** Matches do not overlap, so a left-to-right search for separate matches misses none. */
  lemma AttributesDisjoint(m: string, p: nat, p': nat)
    requires AttributeEnd(m, p).Some? && p < p' < AttributeEnd(m, p).value
    ensures AttributeEnd(m, p').None?
  {
    hide AttributeEnd;
    var e := AttributeEnd(m, p).value;
    var q := AttributeShape(m, p, e);
    assert forall j :: p <= j <= q ==> m[j] != '\n';
    assert !Blank(m[e - 1]);
    if AttributeEnd(m, p').Some? {
      var q' := AttributeShape(m, p', AttributeEnd(m, p').value);
      assert false;
    }
  }

  ghost predicate AllAttributes(m: string, found: seq<Attribute>, upto: nat)
  {
    && (forall k :: 0 <= k < |found| ==> AttributeEnd(m, found[k].start) == Some(found[k].end))
    && (forall k, l :: 0 <= k < l < |found| ==> found[k].start < found[l].start)
    && (forall k :: 0 <= k < |found| ==> found[k].start < upto)
    && (forall p :: 0 <= p < upto && AttributeEnd(m, p).Some? ==> exists k :: 0 <= k < |found| && found[k].start == p)
  }

  /** `_RUST_CFG_TEST_ATTRIBUTE.finditer`: all matches of the pattern, from left to right. */
  method FindAttributes(m: string) returns (found: seq<Attribute>)
    ensures AllAttributes(m, found, |m| + 1)
  {
    hide AttributeEnd;
    found := [];
    var pos := 0;
    while pos < |m|
      invariant 0 <= pos <= |m| && AllAttributes(m, found, pos)
    {
      var end := AttributeEnd(m, pos);
      if end.None? {
        pos := pos + 1;
        continue;
      }
      forall p | pos < p < end.value ensures AttributeEnd(m, p).None? {
        AttributesDisjoint(m, pos, p);
      }
      ghost var before := found;
      found := found + [Attribute(pos, end.value)];
      forall p | 0 <= p < end.value && AttributeEnd(m, p).Some?
        ensures exists k :: 0 <= k < |found| && found[k].start == p
      {
        if p < pos {
          var k :| 0 <= k < |before| && before[k].start == p;
          assert found[k].start == p;
        } else {
          assert found[|before|].start == p;
        }
      }
      pos := end.value;
    }
  }

  // ----- blanking -----

  /** A test-only method: its attribute starts at `start`, its body is `open .. end`. */
  datatype Helper = Helper(start: nat, open: nat, end: nat)

  ghost predicate InHelper(hs: seq<Helper>, j: int)
  {
    exists k :: 0 <= k < |hs| && hs[k].start <= j < hs[k].end
  }

  function Blanked(c: char): char { if c == '\n' then '\n' else ' ' }

  ghost function Blanking(s: string, hs: seq<Helper>): (r: string)
    ensures |r| == |s|
  {
    seq(|s|, j requires 0 <= j < |s| => if InHelper(hs, j) then Blanked(s[j]) else s[j])
  }

  /** Blanking keeps the line breaks where they are, everything outside the helpers, and nothing else. */
  lemma LinesStay(s: string, hs: seq<Helper>)
    ensures var r := Blanking(s, hs);
            |r| == |s| && forall j :: 0 <= j < |s| ==>
              && (r[j] == '\n' <==> s[j] == '\n')
              && (!InHelper(hs, j) ==> r[j] == s[j])
              && (InHelper(hs, j) && s[j] != '\n' ==> r[j] == ' ')
  {
  }

  /** `_blank_rust_ranges`. */
  method BlankRanges(source: string, ranges: seq<Helper>) returns (result: string)
    requires forall k :: 0 <= k < |ranges| ==> ranges[k].start <= ranges[k].end <= |source|
    ensures result == Blanking(source, ranges)
  {
    result := source;
    var k := |ranges|;
    while k > 0
      invariant 0 <= k <= |ranges| && |result| == |source|
      invariant forall j :: 0 <= j < |source| ==>
                  result[j] == if InHelper(ranges[k..], j) then Blanked(source[j]) else source[j]
    {
      k := k - 1;
      var start, end := ranges[k].start, ranges[k].end;
      ghost var before := result;
      assert ranges[k..] == [ranges[k]] + ranges[k + 1..];
      forall j ensures InHelper(ranges[k..], j) <==> start <= j < end || InHelper(ranges[k + 1..], j) {
        InHelperCons(ranges[k], ranges[k + 1..], j);
      }
      var blank := seq(end - start, i requires 0 <= i < end - start => Blanked(result[start + i]));
      result := result[..start] + blank + result[end..];
      forall j | 0 <= j < |source|
        ensures result[j] == if InHelper(ranges[k..], j) then Blanked(source[j]) else source[j]
      {
        assert result[j] == if start <= j < end then Blanked(before[j]) else before[j];
      }
    }
    assert ranges[0..] == ranges;
  }

  lemma InHelperCons(h: Helper, hs: seq<Helper>, j: int)
    ensures InHelper([h] + hs, j) <==> h.start <= j < h.end || InHelper(hs, j)
  {
    if h.start <= j < h.end {
      assert ([h] + hs)[0] == h;
    }
    if InHelper(hs, j) {
      var k :| 0 <= k < |hs| && hs[k].start <= j < hs[k].end;
      assert ([h] + hs)[k + 1] == hs[k];
    }
  }

  // ----- finding the helpers -----

  /** An attribute match that starts between tokens. */
  ghost predicate TestAttribute(s: string, p: nat)
  {
    AttributeEnd(Mask(s), p).Some? && Boundary(s, p)
  }

  /** A header pattern matches a prefix that ends with the opening brace of the body. */
  ghost predicate EndsWithBrace(header: string -> Option<nat>)
  {
    forall t :: header(t).Some? ==> 0 < header(t).value <= |t| && t[header(t).value - 1] == '{'
  }

  ghost function After(s: string, p: nat): string
    requires AttributeEnd(Mask(s), p).Some?
  {
    Mask(s)[AttributeEnd(Mask(s), p).value..]
  }

  /** A nested test attribute whose item is a method. */
  ghost predicate HelperStart(s: string, header: string -> Option<nat>, p: nat)
  {
    TestAttribute(s, p) && Depth(Mask(s), p) > 0 && header(After(s, p)).Some?
  }

  ghost predicate IsHelper(s: string, header: string -> Option<nat>, h: Helper)
  {
    && HelperStart(s, header, h.start)
    && h.open == AttributeEnd(Mask(s), h.start).value + header(After(s, h.start)).value - 1
    && ItemEnd(s, h.open, h.end)
  }

  /** Ordered, disjoint helper ranges, each from a line start between tokens to the end of its body. */
  ghost predicate Ranges(s: string, hs: seq<Helper>)
  {
    && (forall k :: 0 <= k < |hs| ==>
          && hs[k].start < hs[k].open && LineStart(s, hs[k].start) && Boundary(s, hs[k].start)
          && ItemEnd(s, hs[k].open, hs[k].end) && Depth(Mask(s), hs[k].start) > 0)
    && (forall k, l :: 0 <= k < l < |hs| ==> hs[k].end <= hs[l].start)
  }

  /** A nested test method whose opening brace is never closed. */
  ghost predicate UnterminatedHelper(s: string, header: string -> Option<nat>, p: nat)
  {
    HelperStart(s, header, p) &&
    var open := AttributeEnd(Mask(s), p).value + header(After(s, p)).value - 1;
    0 <= open < |s| && OpenUntil(s, open, |s| + 1)
  }

  /** Why the helper starting at an attribute cannot be removed. */
  ghost predicate HelperFails(s: string, header: string -> Option<nat>, p: nat)
  {
    AttributeEnd(Mask(s), p).Some? && (!Matched(s, p) || UnterminatedHelper(s, header, p))
  }

  /** The loop body of `_rust_without_nested_test_helpers` for one attribute. */
  method HelperOf(source: string, m: string, attribute: Attribute, header: string -> Option<nat>)
    returns (r: Result<Option<Helper>, ScanError>)
    requires LexOk(source) && m == Mask(source) && EndsWithBrace(header)
    requires AttributeEnd(m, attribute.start) == Some(attribute.end)
    ensures r.Err? <==> HelperFails(source, header, attribute.start)
    ensures r.Err? ==> r.error == if !Matched(source, attribute.start) then UnmatchedBrace else UnterminatedBody
    ensures r.Ok? ==> (r.value.Some? <==> HelperStart(source, header, attribute.start))
    ensures r.Ok? && r.value.Some? ==> IsHelper(source, header, r.value.value) && r.value.value.start == attribute.start
  {
    hide AttributeEnd, Mask, Depth, Reaches, Matched;
    var nesting := NestingDepth(source, attribute.start);
    if nesting.Failed? {
      return Err(nesting.error);
    }
    if nesting.Inside? {
      BoundaryOrInside(source, attribute.start);
      return Ok(None);
    }
    var following := m[attribute.end..];
    if nesting.depth == 0 || header(following).None? {
      return Ok(None);
    }
    var openingBrace := attribute.end + header(following).value - 1;
    assert following[header(following).value - 1] == '{';
    var end := BracedItemEnd(source, openingBrace);
    if end.Err? {
      return Err(end.error);
    }
    return Ok(Some(Helper(attribute.start, openingBrace, end.value)));
  }

  /** `helpers` are the helpers of the attributes `found`, but for those inside earlier ones. */
  ghost predicate Collected(s: string, header: string -> Option<nat>, found: seq<Attribute>, helpers: seq<Helper>)
  {
    && Ranges(s, helpers)
    && (forall h :: h in helpers ==> Removable(s, header, h) && exists a :: a in found && a.start == h.start)
    && (forall a :: a in found && HelperStart(s, header, a.start) ==> InHelper(helpers, a.start))
    && (forall a :: a in found && HelperFails(s, header, a.start) ==> InHelper(helpers, a.start))
  }

  ghost predicate Removable(s: string, header: string -> Option<nat>, h: Helper)
  {
    IsHelper(s, header, h) && !HelperFails(s, header, h.start)
  }

  /** The ranges to remove: helpers, ordered and disjoint, that cover every nested test method and
      every attribute that could not be handled outside of them. */
  ghost predicate Removed(s: string, header: string -> Option<nat>, hs: seq<Helper>)
  {
    && Ranges(s, hs) && (forall h :: h in hs ==> Removable(s, header, h))
    && (forall p: nat :: HelperStart(s, header, p) || HelperFails(s, header, p) ==> InHelper(hs, p))
  }

  lemma HelperIsUnique(s: string, header: string -> Option<nat>, g: Helper, h: Helper)
    requires IsHelper(s, header, g) && IsHelper(s, header, h) && g.start == h.start
    ensures g == h
  {
    hide AttributeEnd, Mask, Depth, Boundary;
  }

  lemma OverlapIsSame(s: string, hs: seq<Helper>, g: Helper, h: Helper)
    requires Ranges(s, hs) && g in hs && h in hs && g.start <= h.start < g.end
    ensures g == h
  {
    hide Mask, Depth, Boundary, OpenUntil;
    var i :| 0 <= i < |hs| && hs[i] == g;
    var j :| 0 <= j < |hs| && hs[j] == h;
  }

  /** `hs` consists of helpers and covers, before `bound`, every nested test method and every attribute
      that could not be handled. */
  ghost predicate CoversTo(s: string, header: string -> Option<nat>, hs: seq<Helper>, bound: nat)
  {
    && Ranges(s, hs) && (forall h :: h in hs ==> IsHelper(s, header, h))
    && (forall p: nat :: p < bound && (HelperStart(s, header, p) || HelperFails(s, header, p)) ==> InHelper(hs, p))
  }

  /** The helpers are determined from left to right. */
  lemma {:induction false} SameHelpers(s: string, header: string -> Option<nat>, hs: seq<Helper>, hs': seq<Helper>,
                                       bound: nat, h: Helper)
    requires CoversTo(s, header, hs, bound) && CoversTo(s, header, hs', bound) && h in hs && h.start < bound
    ensures h in hs'
    decreases h.start
  {
    hide HelperStart, Ranges, Mask;
    StartOf(s, header, h);
    var k :| 0 <= k < |hs'| && hs'[k].start <= h.start < hs'[k].end;
    var g := hs'[k];
    assert g in hs';
    if g.start < h.start {
      SameHelpers(s, header, hs', hs, bound, g);
      OverlapIsSame(s, hs, g, h);
    } else {
      HelperIsUnique(s, header, g, h);
    }
  }

  lemma StartOf(s: string, header: string -> Option<nat>, h: Helper)
    requires IsHelper(s, header, h)
    ensures HelperStart(s, header, h.start)
  {
    hide HelperStart;
  }

  lemma RemovedCovers(s: string, header: string -> Option<nat>, hs: seq<Helper>, bound: nat)
    requires Removed(s, header, hs)
    ensures CoversTo(s, header, hs, bound)
  {
    hide HelperStart, HelperFails, Ranges, IsHelper, InHelper;
  }

  predicate Ordered(hs: seq<Helper>)
  {
    forall k, l :: 0 <= k < l < |hs| ==> hs[k].start < hs[l].start
  }

  lemma RangesOrdered(s: string, hs: seq<Helper>)
    requires Ranges(s, hs)
    ensures Ordered(hs)
  {
    hide Mask, Depth, Boundary, OpenUntil;
  }

  lemma InitMembers(hs: seq<Helper>, h: Helper)
    requires Ordered(hs) && hs != []
    ensures h in hs[..|hs| - 1] <==> h in hs && h != hs[|hs| - 1]
  {
    assert hs == hs[..|hs| - 1] + [hs[|hs| - 1]];
  }

  lemma EmptyTogether(hs: seq<Helper>, hs': seq<Helper>)
    requires forall h :: h in hs <==> h in hs'
    ensures hs == [] <==> hs' == []
  {
    if hs != [] {
      assert hs[0] in hs;
    }
    if hs' != [] {
      assert hs'[0] in hs';
    }
  }

  lemma {:induction false} SameSequence(hs: seq<Helper>, hs': seq<Helper>)
    requires Ordered(hs) && Ordered(hs') && forall h :: h in hs <==> h in hs'
    ensures hs == hs'
  {
    EmptyTogether(hs, hs');
    if hs == [] {
    } else {
      LastIsSame(hs, hs');
      var a, a' := hs[..|hs| - 1], hs'[..|hs'| - 1];
      forall h ensures h in a <==> h in a' {
        InitMembers(hs, h);
        InitMembers(hs', h);
      }
      SameSequence(a, a');
      assert hs == a + [hs[|hs| - 1]] && hs' == a' + [hs'[|hs'| - 1]];
    }
  }

  lemma LastIsSame(hs: seq<Helper>, hs': seq<Helper>)
    requires Ordered(hs) && Ordered(hs') && (forall h :: h in hs <==> h in hs') && hs != [] && hs' != []
    ensures hs[|hs| - 1] == hs'[|hs'| - 1]
  {
    var x, y := hs[|hs| - 1], hs'[|hs'| - 1];
    assert x in hs && y in hs';
    var i :| 0 <= i < |hs'| && hs'[i] == x;
    var j :| 0 <= j < |hs| && hs[j] == y;
  }

  /** There is at most one way to remove the nested test helpers of a source. */
  lemma RemovedIsUnique(s: string, header: string -> Option<nat>, hs: seq<Helper>, hs': seq<Helper>)
    requires Removed(s, header, hs) && Removed(s, header, hs')
    ensures hs == hs'
  {
    hide HelperStart, HelperFails, InHelper, IsHelper;
    forall h | h in hs ensures h in hs' {
      RemovedCovers(s, header, hs, h.start + 1);
      RemovedCovers(s, header, hs', h.start + 1);
      SameHelpers(s, header, hs, hs', h.start + 1, h);
    }
    forall h | h in hs' ensures h in hs {
      RemovedCovers(s, header, hs, h.start + 1);
      RemovedCovers(s, header, hs', h.start + 1);
      SameHelpers(s, header, hs', hs, h.start + 1, h);
    }
    RangesOrdered(s, hs);
    RangesOrdered(s, hs');
    SameSequence(hs, hs');
  }

  /** An attribute that fails outside the helpers collected before it cannot be removed at all. */
  lemma FailureIsFinal(s: string, header: string -> Option<nat>, found: seq<Attribute>, k: nat, hs: seq<Helper>,
                       hs': seq<Helper>)
    requires AllAttributes(Mask(s), found, |s| + 1) && k < |found| && Collected(s, header, found[..k], hs)
    requires HelperFails(s, header, found[k].start) && !InHelper(hs, found[k].start)
    ensures !Removed(s, header, hs')
  {
    if Removed(s, header, hs') {
      var p := found[k].start;
      CollectedCovers(s, header, found, k, hs);
      RemovedCovers(s, header, hs', p);
      hide HelperStart, HelperFails, IsHelper, Ranges, AllAttributes, Mask, CoversTo;
      var i :| 0 <= i < |hs'| && hs'[i].start <= p < hs'[i].end;
      var h := hs'[i];
      assert h in hs';
      assert h.start != p;
      SameHelpers(s, header, hs', hs, p, h);
      assert false;
    }
  }

  lemma CollectedCovers(s: string, header: string -> Option<nat>, found: seq<Attribute>, k: nat, hs: seq<Helper>)
    requires AllAttributes(Mask(s), found, |s| + 1) && k < |found| && Collected(s, header, found[..k], hs)
    ensures CoversTo(s, header, hs, found[k].start)
  {
    hide AttributeEnd, Mask, HelperStart, HelperFails, IsHelper, Ranges, InHelper;
    forall p: nat | p < found[k].start && (HelperStart(s, header, p) || HelperFails(s, header, p))
      ensures InHelper(hs, p)
    {
      StartIsAttribute(s, header, p);
      var l :| 0 <= l < |found| && found[l].start == p;
      assert l < k && found[l] in found[..k];
    }
  }

  /** The attribute at `p` raises `e`: the first that fails outside the helpers before it. */
  ghost predicate FirstFailure(s: string, header: string -> Option<nat>, p: nat, e: ScanError)
  {
    && HelperFails(s, header, p) && (exists hs :: CoversTo(s, header, hs, p) && !InHelper(hs, p))
    && p <= |s| && e == if !Matched(s, p) then UnmatchedBrace else UnterminatedBody
  }

  lemma IsFirstFailure(s: string, header: string -> Option<nat>, found: seq<Attribute>, k: nat, hs: seq<Helper>,
                       e: ScanError)
    requires AllAttributes(Mask(s), found, |s| + 1) && k < |found| && Collected(s, header, found[..k], hs)
    requires HelperFails(s, header, found[k].start) && !InHelper(hs, found[k].start) && found[k].start <= |s|
    requires e == if !Matched(s, found[k].start) then UnmatchedBrace else UnterminatedBody
    ensures FirstFailure(s, header, found[k].start, e)
  {
    CollectedCovers(s, header, found, k, hs);
    hide CoversTo, HelperFails, InHelper, Matched;
  }

  /** `_rust_without_nested_test_helpers`. */
  method WithoutNestedTestHelpers(source: string, header: string -> Option<nat>) returns (r: Result<string, ScanError>)
    requires EndsWithBrace(header)
    ensures r.Ok? <==> LexOk(source) && exists hs :: Removed(source, header, hs)
    ensures r.Ok? ==> exists hs :: Removed(source, header, hs) && r.value == Blanking(source, hs)
    ensures r.Err? && r.error.Lexical? ==> !LexOk(source)
    ensures r.Err? && !r.error.Lexical? ==> LexOk(source) && exists p: nat :: FirstFailure(source, header, p, r.error)
  {
    hide AttributeEnd, Mask, HelperStart, IsHelper, HelperFails, Ranges, Boundary, InHelper, Blanking, Matched;
    hide Collected, Removed, Removable, FirstFailure;
    var masked := CodeMask(source);
    if masked.Err? {
      return Err(Lexical(masked.error));
    }
    var found := FindAttributes(masked.value);
    var helpers: seq<Helper> := [];
    NothingCollected(source, header);
    for k := 0 to |found|
      invariant Collected(source, header, found[..k], helpers)
    {
      var attribute := found[k];
      assert found[..k + 1] == found[..k] + [attribute];
      var inside := exists h :: h in helpers && h.start <= attribute.start < h.end;
      if inside {
        SkipAttribute(source, header, found[..k], attribute, helpers);
        continue;
      }
      var helper := HelperOf(source, masked.value, attribute, header);
      if helper.Err? {
        NotInHelper(helpers, attribute.start);
        IsFirstFailure(source, header, found, k, helpers, helper.error);
        forall hs ensures !Removed(source, header, hs) {
          FailureIsFinal(source, header, found, k, helpers, hs);
        }
        return Err(helper.error);
      }
      TakeAttribute(source, header, found[..k], attribute, helpers, helper.value);
      if helper.value.Some? {
        helpers := helpers + [helper.value.value];
      }
    }
    assert found[..|found|] == found;
    CollectedAll(source, header, found, helpers);
    RemovedInside(source, header, helpers);
    var result := BlankRanges(source, helpers);
    return Ok(result);
  }

  lemma RemovedInside(s: string, header: string -> Option<nat>, hs: seq<Helper>)
    requires Removed(s, header, hs)
    ensures Ranges(s, hs) && forall k :: 0 <= k < |hs| ==> hs[k].start <= hs[k].open <= hs[k].end <= |s|
  {
    RangesInside(s, hs);
  }

  lemma NothingCollected(s: string, header: string -> Option<nat>)
    ensures Collected(s, header, [], [])
  {
    NoRanges(s);
  }

  lemma TakeAttribute(s: string, header: string -> Option<nat>, found: seq<Attribute>, a: Attribute, hs: seq<Helper>,
                      helper: Option<Helper>)
    requires EndsWithBrace(header) && Collected(s, header, found, hs)
    requires forall b :: b in found ==> b.start < a.start
    requires !exists h :: h in hs && h.start <= a.start < h.end
    requires !HelperFails(s, header, a.start) && (helper.Some? <==> HelperStart(s, header, a.start))
    requires helper.Some? ==> IsHelper(s, header, helper.value) && helper.value.start == a.start
    ensures Collected(s, header, found + [a], if helper.Some? then hs + [helper.value] else hs)
  {
    hide AttributeEnd, Mask, HelperStart, IsHelper, HelperFails, Ranges, InHelper;
    if helper.Some? {
      AppendHelper(s, header, hs, helper.value);
    }
  }

  /** Once all attributes are collected, every nested test method lies in a helper. */
  lemma CollectedAll(s: string, header: string -> Option<nat>, found: seq<Attribute>, hs: seq<Helper>)
    requires Collected(s, header, found, hs) && AllAttributes(Mask(s), found, |s| + 1)
    ensures Removed(s, header, hs)
  {
    hide AttributeEnd, Mask, HelperStart, IsHelper, HelperFails, Ranges, InHelper;
    forall p: nat | HelperStart(s, header, p) || HelperFails(s, header, p) ensures InHelper(hs, p) {
      StartIsAttribute(s, header, p);
      var k :| 0 <= k < |found| && found[k].start == p;
      assert found[k] in found;
    }
  }

  lemma NoRanges(s: string)
    ensures Ranges(s, [])
  {
  }

  lemma RangesInside(s: string, hs: seq<Helper>)
    requires Ranges(s, hs)
    ensures forall k :: 0 <= k < |hs| ==> hs[k].start <= hs[k].open <= hs[k].end <= |s|
  {
  }

  lemma StartIsAttribute(s: string, header: string -> Option<nat>, p: nat)
    requires HelperStart(s, header, p) || HelperFails(s, header, p)
    ensures AttributeEnd(Mask(s), p).Some? && p <= |s|
  {
    hide Matched, OpenUntil;
  }

  lemma NotInHelper(hs: seq<Helper>, j: int)
    requires !exists h :: h in hs && h.start <= j < h.end
    ensures !InHelper(hs, j)
  {
  }

  lemma SkipAttribute(s: string, header: string -> Option<nat>, found: seq<Attribute>, a: Attribute, hs: seq<Helper>)
    requires Collected(s, header, found, hs) && exists h :: h in hs && h.start <= a.start < h.end
    ensures Collected(s, header, found + [a], hs)
  {
    hide AttributeEnd, Mask, HelperStart, HelperFails, IsHelper, Ranges;
  }

  lemma AppendHelper(s: string, header: string -> Option<nat>, hs: seq<Helper>, h: Helper)
    requires EndsWithBrace(header) && Ranges(s, hs) && IsHelper(s, header, h)
    requires forall g :: g in hs ==> g.start < h.start && !(g.start <= h.start < g.end)
    ensures Ranges(s, hs + [h]) && InHelper(hs + [h], h.start)
    ensures forall j :: InHelper(hs, j) ==> InHelper(hs + [h], j)
  {
    hide AttributeEnd, Mask, Depth, Reaches, OpenUntil;
    var hs' := hs + [h];
    assert hs'[|hs|] == h;
    forall j | InHelper(hs, j) ensures InHelper(hs', j) {
      KeepsInHelper(hs, hs', j);
    }
    forall k | 0 <= k < |hs| ensures hs[k].end <= h.start {
      assert hs[k] in hs;
    }
    assert LineStart(s, h.start) by {
      MaskKeepsLines(s, h.start);
    }
  }

  lemma MaskKeepsLines(s: string, p: nat)
    ensures LineStart(Mask(s), p) <==> LineStart(s, p)
  {
  }

  lemma KeepsInHelper(hs: seq<Helper>, hs': seq<Helper>, j: int)
    requires hs <= hs'
    ensures InHelper(hs, j) ==> InHelper(hs', j)
  {
    if InHelper(hs, j) {
      var k :| 0 <= k < |hs| && hs[k].start <= j < hs[k].end;
      assert hs'[k] == hs[k];
    }
  }

  // ----- blanking is lexically invisible outside the helpers -----

  /** `p` is not strictly inside a helper. */
  ghost predicate Outer(hs: seq<Helper>, p: int)
  {
    forall k :: 0 <= k < |hs| ==> !(hs[k].start < p < hs[k].end)
  }

  /** The next helper start, or the end of the text. */
  lemma NextHelper(s: string, hs: seq<Helper>, i: nat) returns (hi: nat)
    requires Ranges(s, hs) && i < |s| && !InHelper(hs, i)
    ensures i < hi <= |s| && (hi == |s| || (LineStart(s, hi) && Boundary(s, hi)))
    ensures forall j :: i <= j < hi ==> !InHelper(hs, j)
  {
    hide Mask, Depth, Boundary, OpenUntil;
    var k := 0;
    while k < |hs| && hs[k].start < i
      invariant 0 <= k <= |hs| && forall l :: 0 <= l < k ==> hs[l].start < i
    {
      k := k + 1;
    }
    hi := if k < |hs| then hs[k].start else |s|;
    assert forall l :: 0 <= l < |hs| ==> !(hs[l].start <= i < hs[l].end);
    forall j | i <= j < hi ensures !InHelper(hs, j) {
      forall l | 0 <= l < |hs| ensures !(hs[l].start <= j < hs[l].end) {
        assert !(hs[l].start <= i < hs[l].end);
      }
    }
  }

  /** Outside the helpers, blanked and original text open the same tokens. */
  lemma SameStep(s: string, hs: seq<Helper>, i: nat)
    requires LexOk(s) && Ranges(s, hs) && i < |s| && Boundary(s, i) && !InHelper(hs, i)
    ensures ScanAt(Blanking(s, hs), i) == ScanAt(s, i)
  {
    var r := Blanking(s, hs);
    var hi := NextHelper(s, hs, i);
    StepReaches(s, i);
    if ScanAt(s, i).Code? {
      CodeLocal(s, r, i, hi);
    } else {
      TokenLocal(s, r, i);
    }
  }

  lemma {:induction false} BlankPath(r: string, p: nat, q: nat)
    requires p <= q <= |r| && forall j :: p <= j < q ==> r[j] == ' ' || r[j] == '\n'
    ensures forall j :: p <= j <= q ==> Reaches(r, p, j)
    decreases q - p
  {
    if p >= q {
    } else {
      BlankPath(r, p + 1, q);
    }
  }

  lemma HelperIsBlank(s: string, hs: seq<Helper>, k: nat)
    requires Ranges(s, hs) && k < |hs|
    ensures var r := Blanking(s, hs);
            forall j :: hs[k].start <= j < hs[k].end ==> r[j] == ' ' || r[j] == '\n'
  {
    forall j | hs[k].start <= j < hs[k].end ensures InHelper(hs, j) {
    }
  }

  lemma {:induction false} Lockstep(s: string, hs: seq<Helper>, i: nat, p: nat)
    requires LexOk(s) && Ranges(s, hs) && i <= p <= |s| && Boundary(s, i) && Outer(hs, i) && Outer(hs, p)
    ensures Reaches(s, i, p) <==> Reaches(Blanking(s, hs), i, p)
    decreases |s| - i
  {
    var r := Blanking(s, hs);
    if i >= p {
    } else {
      if InHelper(hs, i) {
        var k :| 0 <= k < |hs| && hs[k].start <= i < hs[k].end;
        var end := hs[k].end;
        HelperIsBlank(s, hs, k);
        BlankPath(r, i, end);
        ReachesCompose(s, 0, i, end);
        ReachesCompose(s, i, end, p);
        ReachesCompose(r, i, end, p);
        EndIsOuter(s, hs, k);
        Lockstep(s, hs, end, p);
      } else {
        SameStep(s, hs, i);
        StepReaches(s, i);
        var next := if ScanAt(s, i).Code? then i + 1 else ScanAt(s, i).end;
        if next <= p {
          BoundaryIsOuter(s, hs, i, next);
          Lockstep(s, hs, next, p);
        }
      }
    }
  }

  lemma EndIsOuter(s: string, hs: seq<Helper>, k: nat)
    requires Ranges(s, hs) && k < |hs|
    ensures Outer(hs, hs[k].start) && Outer(hs, hs[k].end)
  {
  }

  /** One step from outside the helpers does not land inside one. */
  lemma BoundaryIsOuter(s: string, hs: seq<Helper>, i: nat, next: nat)
    requires LexOk(s) && Ranges(s, hs) && i < |s| && Boundary(s, i) && !InHelper(hs, i)
    requires next == if ScanAt(s, i).Token? then ScanAt(s, i).end else i + 1
    ensures Outer(hs, next)
  {
    StepReaches(s, i);
    forall k | 0 <= k < |hs| ensures !(hs[k].start < next < hs[k].end) {
      assert !(hs[k].start <= i < hs[k].end);
    }
  }

  /** Removing helpers keeps every lexical boundary outside them and their line breaks inside,
      and the mask of the result is the mask of the source with the helpers blanked. */
  lemma BlankingIsInvisible(s: string, hs: seq<Helper>)
    requires LexOk(s) && Ranges(s, hs)
    ensures var r := Blanking(s, hs);
            && LexOk(r)
            && (forall p :: 0 <= p <= |s| && Outer(hs, p) ==> (Boundary(r, p) <==> Boundary(s, p)))
            && (forall j :: 0 <= j < |s| ==> Mask(r)[j] == if InHelper(hs, j) then Blanked(s[j]) else Mask(s)[j])
  {
    var r := Blanking(s, hs);
    forall p | 0 <= p <= |s| && Outer(hs, p) ensures Boundary(r, p) <==> Boundary(s, p) {
      Lockstep(s, hs, 0, p);
    }
    assert Outer(hs, |s|);
    forall j | 0 <= j < |s| ensures Mask(r)[j] == if InHelper(hs, j) then Blanked(s[j]) else Mask(s)[j] {
      if !InHelper(hs, j) {
        assert Outer(hs, j) by {
          forall k | 0 <= k < |hs| ensures !(hs[k].start < j < hs[k].end) {
            assert !(hs[k].start <= j < hs[k].end);
          }
        }
        if Boundary(s, j) {
          SameStep(s, hs, j);
        }
      }
    }
  }

  /** The header of a helper opens as many braces as it closes before the body. */
  ghost predicate HeaderBalanced(s: string, h: Helper)
    requires h.start <= |s| && h.open <= |s|
  {
    Depth(Mask(s), h.open) == Depth(Mask(s), h.start)
  }

  /** A header without braces in the mask is balanced. */
  lemma BraceFreeHeaderIsBalanced(s: string, h: Helper)
    requires h.start <= h.open <= |s| && forall j :: h.start <= j < h.open ==> Delta(Mask(s)[j]) == 0
    ensures HeaderBalanced(s, h)
  {
    DepthFlat(Mask(s), h.start, h.open);
  }

  lemma HelperIsFlat(s: string, hs: seq<Helper>, k: nat)
    requires LexOk(s) && Ranges(s, hs) && k < |hs|
    ensures var m := Mask(Blanking(s, hs));
            forall p :: hs[k].start <= p <= hs[k].end ==> Depth(m, p) == Depth(m, hs[k].start)
  {
    hide Mask, Depth, Boundary, OpenUntil;
    BlankingIsInvisible(s, hs);
    forall j | hs[k].start <= j < hs[k].end ensures InHelper(hs, j) {
    }
    DepthFlat(Mask(Blanking(s, hs)), hs[k].start, hs[k].end);
  }

  /** Just before an outer offset that ends no helper, no helper reaches. */
  lemma OuterBefore(s: string, hs: seq<Helper>, p: nat)
    requires Ranges(s, hs) && 0 < p && Outer(hs, p) && forall k :: 0 <= k < |hs| ==> hs[k].end != p
    ensures Outer(hs, p - 1) && !InHelper(hs, p - 1)
  {
    hide Mask, Depth, Boundary, OpenUntil;
    forall k | 0 <= k < |hs| ensures !(hs[k].start <= p - 1 < hs[k].end) {
      assert !(hs[k].start < p < hs[k].end) && hs[k].end != p;
    }
  }

  /** Between helpers, each character changes both depths alike. */
  lemma SameDelta(s: string, hs: seq<Helper>, p: nat)
    requires LexOk(s) && Ranges(s, hs) && 0 < p <= |s| && !InHelper(hs, p - 1)
    ensures var m, r := Mask(s), Mask(Blanking(s, hs));
            Depth(r, p) - Depth(r, p - 1) == Depth(m, p) - Depth(m, p - 1)
  {
    hide Mask, Ranges, Boundary, Blanking;
    BlankingIsInvisible(s, hs);
    assert Mask(Blanking(s, hs))[p - 1] == Mask(s)[p - 1];
  }

  /** Depth outside the helpers survives their removal. */
  lemma {:induction false} DepthSurvives(s: string, hs: seq<Helper>, p: nat)
    requires LexOk(s) && Ranges(s, hs) && p <= |s| && Outer(hs, p)
    requires forall k :: 0 <= k < |hs| ==> HeaderBalanced(s, hs[k])
    ensures Depth(Mask(Blanking(s, hs)), p) == Depth(Mask(s), p)
    decreases p
  {
    hide Mask, Boundary, Ranges, Blanking, HeaderBalanced, Outer;
    if p == 0 {
    } else {
      hide Depth;
      RangesInside(s, hs);
      if k :| 0 <= k < |hs| && hs[k].end == p {
        EndIsOuter(s, hs, k);
        AcrossHelper(s, hs, k);
        DepthSurvives(s, hs, hs[k].start);
      } else {
        OuterBefore(s, hs, p);
        DepthSurvives(s, hs, p - 1);
        SameDelta(s, hs, p);
      }
    }
  }

  /** A helper with a balanced header changes neither depth. */
  lemma AcrossHelper(s: string, hs: seq<Helper>, k: nat)
    requires LexOk(s) && Ranges(s, hs) && k < |hs| && hs[k].start <= hs[k].open <= hs[k].end <= |s|
    requires HeaderBalanced(s, hs[k])
    ensures hs[k].start < hs[k].end && Depth(Mask(s), hs[k].end) == Depth(Mask(s), hs[k].start)
    ensures var r := Mask(Blanking(s, hs)); Depth(r, hs[k].end) == Depth(r, hs[k].start)
  {
    hide Mask, Boundary, OpenUntil, Blanking, Depth;
    HelperIsFlat(s, hs, k);
  }

  /** Removing the helpers changes no depth outside them. */
  ghost predicate DepthKept(s: string, hs: seq<Helper>)
  {
    forall p :: 0 <= p <= |s| && Outer(hs, p) ==> Depth(Mask(Blanking(s, hs)), p) == Depth(Mask(s), p)
  }

  /** Every depth outside the helpers is kept exactly when every removed header is balanced. */
  lemma DepthKeptIffHeadersBalanced(s: string, hs: seq<Helper>)
    requires LexOk(s) && Ranges(s, hs)
    ensures DepthKept(s, hs) <==> forall k :: 0 <= k < |hs| ==> HeaderBalanced(s, hs[k])
  {
    if forall k :: 0 <= k < |hs| ==> HeaderBalanced(s, hs[k]) {
      forall p | 0 <= p <= |s| && Outer(hs, p) ensures Depth(Mask(Blanking(s, hs)), p) == Depth(Mask(s), p) {
        DepthSurvives(s, hs, p);
      }
    }
    if DepthKept(s, hs) {
      forall k | 0 <= k < |hs| ensures HeaderBalanced(s, hs[k]) {
        EndIsOuter(s, hs, k);
        HelperIsFlat(s, hs, k);
      }
    }
  }

  lemma MatchedStep(s: string, p: nat)
    requires 0 < p <= |s|
    ensures Matched(s, p) <==> Matched(s, p - 1) && Depth(Mask(s), p) >= 0
  {
    hide Mask, Depth;
  }

  lemma MatchedBefore(s: string, p: nat, q: nat)
    requires p <= q <= |s| && Matched(s, q)
    ensures Matched(s, p) && Depth(Mask(s), p) >= 0 && Depth(Mask(s), q) >= 0
  {
    hide Mask, Depth;
  }

  /** Where the depth function gets to a helper, the header is balanced and closes nothing that was not
      opened before it. */
  ghost predicate Neutral(s: string, h: Helper)
    requires h.start <= |s| && h.open <= |s|
  {
    Matched(s, h.start) ==> HeaderBalanced(s, h) && Matched(s, h.open)
  }

  /** A helper with such a header leaves nothing unmatched. */
  lemma MatchedAcross(s: string, hs: seq<Helper>, k: nat)
    requires Ranges(s, hs) && k < |hs| && hs[k].start <= hs[k].open <= hs[k].end <= |s|
    requires Matched(s, hs[k].start) && Neutral(s, hs[k])
    ensures Matched(s, hs[k].end) && Depth(Mask(s), hs[k].end) == Depth(Mask(s), hs[k].start)
  {
    hide Mask, Boundary, Depth;
    forall q | 0 <= q <= hs[k].end ensures Depth(Mask(s), q) >= 0 {
      if q <= hs[k].open {
        MatchedBefore(s, q, hs[k].open);
      }
    }
  }

  /** In the cleaned text a helper is flat, so it leaves nothing unmatched. */
  lemma MatchedFlat(s: string, hs: seq<Helper>, k: nat)
    requires LexOk(s) && Ranges(s, hs) && k < |hs| && hs[k].start <= hs[k].open <= hs[k].end <= |s|
    ensures var r := Blanking(s, hs);
            && (Matched(r, hs[k].end) <==> Matched(r, hs[k].start))
            && Depth(Mask(r), hs[k].end) == Depth(Mask(r), hs[k].start)
  {
    hide Mask, Boundary, Depth, Ranges, Blanking;
    HelperIsFlat(s, hs, k);
    var r := Blanking(s, hs);
    if Matched(r, hs[k].start) {
      forall q | 0 <= q <= hs[k].end ensures Depth(Mask(r), q) >= 0 {
        MatchedBefore(r, hs[k].start, hs[k].start);
        if q <= hs[k].start {
          MatchedBefore(r, q, hs[k].start);
        }
      }
    }
  }

  /** With neutral headers both texts are matched up to the same offsets, at the same depths. */
  lemma {:induction false} MatchedSurvives(s: string, hs: seq<Helper>, p: nat)
    requires LexOk(s) && Ranges(s, hs) && p <= |s| && Outer(hs, p)
    requires forall k :: 0 <= k < |hs| ==> Neutral(s, hs[k])
    ensures Matched(Blanking(s, hs), p) <==> Matched(s, p)
    ensures Matched(s, p) ==> Depth(Mask(Blanking(s, hs)), p) == Depth(Mask(s), p)
    decreases p
  {
    var r := Blanking(s, hs);
    if p == 0 {
      hide Mask, Blanking, Ranges;
    } else {
      hide Mask, Boundary, Ranges, Blanking, Depth, Outer, Matched, Neutral;
      RangesInside(s, hs);
      if k :| 0 <= k < |hs| && hs[k].end == p {
        HelperBounds(s, hs, k);
        MatchedHelper(s, hs, k);
      } else {
        OuterBefore(s, hs, p);
        MatchedSurvives(s, hs, p - 1);
        SameDelta(s, hs, p);
        MatchedStep(s, p);
        MatchedStep(r, p);
      }
    }
  }

  lemma {:induction false} MatchedHelper(s: string, hs: seq<Helper>, k: nat)
    requires LexOk(s) && Ranges(s, hs) && k < |hs| && hs[k].start <= hs[k].open <= hs[k].end <= |s|
    requires hs[k].start < hs[k].end && forall i :: 0 <= i < |hs| ==> Neutral(s, hs[i])
    ensures Matched(Blanking(s, hs), hs[k].end) <==> Matched(s, hs[k].end)
    ensures Matched(s, hs[k].end) ==> Depth(Mask(Blanking(s, hs)), hs[k].end) == Depth(Mask(s), hs[k].end)
    decreases hs[k].end, 0
  {
    hide Mask, Boundary, Ranges, Blanking, Depth, Outer, Matched, Neutral;
    EndIsOuter(s, hs, k);
    MatchedSurvives(s, hs, hs[k].start);
    MatchedFlat(s, hs, k);
    if Matched(s, hs[k].start) {
      MatchedAcross(s, hs, k);
    } else if Matched(s, hs[k].end) {
      MatchedBefore(s, hs[k].start, hs[k].end);
    }
  }

  /** With neutral headers the depth function has the same outcome outside the helpers, before and
      after their removal: a depth, inside a token, or an unmatched brace. */
  lemma NestingSurvives(s: string, hs: seq<Helper>, p: nat)
    requires LexOk(s) && Ranges(s, hs) && p <= |s| && Outer(hs, p)
    requires forall k :: 0 <= k < |hs| ==> Neutral(s, hs[k])
    ensures NestingOf(Blanking(s, hs), p) == NestingOf(s, p)
  {
    hide Mask, Boundary, Depth, Ranges, Blanking, Matched, Neutral;
    BlankingIsInvisible(s, hs);
    MatchedSurvives(s, hs, p);
  }

  /** Removing the helpers changes no outcome of the depth function outside them. */
  ghost predicate NestingKept(s: string, hs: seq<Helper>)
  {
    forall p: nat :: p <= |s| && Outer(hs, p) ==> NestingOf(Blanking(s, hs), p) == NestingOf(s, p)
  }

  /** Every outcome outside the helpers is kept exactly when every header is neutral. */
  lemma NestingKeptIffNeutral(s: string, hs: seq<Helper>)
    requires LexOk(s) && Ranges(s, hs)
    ensures NestingKept(s, hs) <==> forall k :: 0 <= k < |hs| ==> Neutral(s, hs[k])
  {
    hide Mask, Boundary, Depth, Ranges, Blanking, Matched, Neutral, Outer;
    RangesInside(s, hs);
    if forall k :: 0 <= k < |hs| ==> Neutral(s, hs[k]) {
      forall p: nat | p <= |s| && Outer(hs, p) ensures NestingOf(Blanking(s, hs), p) == NestingOf(s, p) {
        NestingSurvives(s, hs, p);
      }
    }
    if NestingKept(s, hs) {
      forall k | 0 <= k < |hs| ensures Neutral(s, hs[k]) {
        KeptIsNeutral(s, hs, k);
      }
    }
  }

  lemma KeptIsNeutral(s: string, hs: seq<Helper>, k: nat)
    requires LexOk(s) && Ranges(s, hs) && k < |hs| && NestingKept(s, hs)
    ensures hs[k].start <= hs[k].open <= hs[k].end <= |s| && Neutral(s, hs[k])
  {
    var h := hs[k];
    HelperBounds(s, hs, k);
    hide Mask, Boundary, Depth, Ranges, Blanking, Matched, Outer;
    EndIsOuter(s, hs, k);
    assert NestingOf(Blanking(s, hs), h.start) == NestingOf(s, h.start);
    assert NestingOf(Blanking(s, hs), h.end) == NestingOf(s, h.end);
    MatchedFlat(s, hs, k);
    if Matched(s, h.start) {
      assert Matched(s, h.end) && Depth(Mask(s), h.end) == Depth(Mask(s), h.start);
      MatchedBefore(s, h.open, h.end);
    }
  }

  lemma HelperBounds(s: string, hs: seq<Helper>, k: nat)
    requires Ranges(s, hs) && k < |hs|
    ensures hs[k].start <= hs[k].open < hs[k].end <= |s| && Boundary(s, hs[k].start) && Boundary(s, hs[k].end)
    ensures Depth(Mask(s), hs[k].end) == Depth(Mask(s), hs[k].open)
  {
    hide Mask, Boundary, Depth;
  }

  ghost predicate BraceFree(s: string, h: Helper)
  {
    h.start <= h.open <= |s| && forall j :: h.start <= j < h.open ==> Delta(Mask(s)[j]) == 0
  }

  /** A header without braces in the mask is neutral. */
  lemma BraceFreeHeaderIsNeutral(s: string, h: Helper)
    requires BraceFree(s, h)
    ensures Neutral(s, h)
  {
    hide Mask, Depth;
    BraceFreeHeaderIsBalanced(s, h);
    DepthFlat(Mask(s), h.start, h.open);
    if Matched(s, h.start) {
      forall q | 0 <= q <= h.open ensures Depth(Mask(s), q) >= 0 {
        MatchedBefore(s, if q <= h.start then q else h.start, h.start);
      }
    }
  }

  // ----- how far unbalanced headers shift the depth -----

  ghost predicate Inside(s: string, hs: seq<Helper>)
  {
    forall k :: 0 <= k < |hs| ==> hs[k].start <= |s| && hs[k].open <= |s|
  }

  /** The braces that the headers of the helpers before `p` open and leave open. */
  ghost function Excess(s: string, hs: seq<Helper>, p: nat): int
    requires Inside(s, hs)
  {
    if hs == [] then 0
    else
      var h := hs[|hs| - 1];
      Excess(s, hs[..|hs| - 1], p) +
      if h.end <= p then Depth(Mask(s), h.open) - Depth(Mask(s), h.start) else 0
  }

  lemma {:induction false} ExcessSame(s: string, hs: seq<Helper>, p: nat, q: nat)
    requires Inside(s, hs) && forall k :: 0 <= k < |hs| ==> (hs[k].end <= p <==> hs[k].end <= q)
    ensures Excess(s, hs, p) == Excess(s, hs, q)
  {
    hide Mask, Depth;
    if hs == [] {
    } else {
      ExcessSame(s, hs[..|hs| - 1], p, q);
    }
  }

  lemma {:induction false} ExcessOne(s: string, hs: seq<Helper>, k: nat, p: nat, q: nat)
    requires Inside(s, hs) && k < |hs| && q < hs[k].end <= p
    requires forall i :: 0 <= i < |hs| && i != k ==> (hs[i].end <= p <==> hs[i].end <= q)
    ensures Excess(s, hs, p) == Excess(s, hs, q) + Depth(Mask(s), hs[k].open) - Depth(Mask(s), hs[k].start)
  {
    hide Mask, Depth;
    var init := hs[..|hs| - 1];
    if k == |init| {
      ExcessSame(s, init, p, q);
    } else {
      ExcessOne(s, init, k, p, q);
    }
  }

  lemma RangesApart(s: string, hs: seq<Helper>, k: nat, i: nat)
    requires Ranges(s, hs) && k < |hs| && i < |hs| && i != k
    ensures hs[i].end <= hs[k].end <==> hs[i].end <= hs[k].start
  {
    hide Mask, Boundary, Depth, OpenUntil;
    HelperBounds(s, hs, k);
    HelperBounds(s, hs, i);
  }

  /** Outside the helpers, removal lowers the depth by exactly what their headers leave open. */
  lemma {:induction false} DepthShift(s: string, hs: seq<Helper>, p: nat)
    requires LexOk(s) && Ranges(s, hs) && Inside(s, hs) && p <= |s| && Outer(hs, p)
    ensures Depth(Mask(s), p) == Depth(Mask(Blanking(s, hs)), p) + Excess(s, hs, p)
    decreases p
  {
    if p == 0 {
      hide Mask, Blanking, Boundary, OpenUntil;
      NoExcess(s, hs);
    } else {
      hide Mask, Boundary, Ranges, Blanking, Depth, Outer, Excess;
      RangesInside(s, hs);
      if k :| 0 <= k < |hs| && hs[k].end == p {
        HelperBounds(s, hs, k);
        EndIsOuter(s, hs, k);
        DepthShift(s, hs, hs[k].start);
        HelperIsFlat(s, hs, k);
        forall i | 0 <= i < |hs| && i != k ensures hs[i].end <= p <==> hs[i].end <= hs[k].start {
          RangesApart(s, hs, k, i);
        }
        ExcessOne(s, hs, k, p, hs[k].start);
      } else {
        OuterBefore(s, hs, p);
        DepthShift(s, hs, p - 1);
        SameDelta(s, hs, p);
        ExcessSame(s, hs, p, p - 1);
      }
    }
  }

  lemma {:induction false} NoExcess(s: string, hs: seq<Helper>)
    requires Inside(s, hs) && forall k :: 0 <= k < |hs| ==> hs[k].end > 0
    ensures Excess(s, hs, 0) == 0
  {
    hide Mask, Depth;
    if hs == [] {
    } else {
      NoExcess(s, hs[..|hs| - 1]);
    }
  }

  lemma NoTokenHere(s: string, j: nat)
    requires j < |s| && '/' !in s && '"' !in s && '\'' !in s
    ensures ScanAt(s, j).Code?
  {
    hide Find, BlockEnd, StringEnd, Run;
  }

  /** Text without slashes and quotes is its own mask. */
  lemma OwnMask(s: string)
    requires '/' !in s && '"' !in s && '\'' !in s
    ensures LexOk(s) && Mask(s) == s && forall p :: 0 <= p <= |s| ==> Boundary(s, p)
  {
    forall j | 0 <= j < |s| ensures ScanAt(s, j).Code? {
      NoTokenHere(s, j);
    }
    AllCode(s, |s|);
    hide Reaches, ScanAt;
  }

  const UNBALANCED_ITEM := "\n#[a{]fn f(){}"
  const UNBALANCED := "{\n#" + ("[" + ("cfg" + ("(" + ("test" + (")" + ("]" + UNBALANCED_ITEM))))))
  const UNBALANCED_HELPER := Helper(2, 26, 28)

  /** What the helper pattern matches in this source: the item up to its opening brace. */
  function UnbalancedHeader(t: string): Option<nat> { if t == UNBALANCED_ITEM then Some(13) else None }

  lemma HeaderEndsWithBrace()
    ensures EndsWithBrace(UnbalancedHeader)
  {
    assert |UNBALANCED_ITEM| == 14 && UNBALANCED_ITEM[12] == '{';
  }

  lemma UnbalancedText()
    ensures |UNBALANCED| == 28 && UNBALANCED[14..] == UNBALANCED_ITEM
    ensures '/' !in UNBALANCED && '"' !in UNBALANCED && '\'' !in UNBALANCED
    ensures UNBALANCED[0] == '{' && UNBALANCED[1] == '\n' && UNBALANCED[2] == '#' && UNBALANCED[27] == '}'
  {
  }

  lemma UnbalancedDepths()
    ensures |UNBALANCED| == 28 && Depth(UNBALANCED, 0) == 0 && Depth(UNBALANCED, 1) == Depth(UNBALANCED, 2) == 1
    ensures Depth(UNBALANCED, 26) == 2 && Depth(UNBALANCED, 27) == 3 && Depth(UNBALANCED, 28) == 2
  {
    assert Depth(UNBALANCED, 1) == 1;
    DepthFlat(UNBALANCED, 1, 18);
    assert Depth(UNBALANCED, 19) == 2;
    DepthFlat(UNBALANCED, 19, 26);
  }

  /** One word of the attribute, without white space before it. */
  lemma NextWord(m: string, q: nat, word: string, tail: string, rest: seq<string>)
    requires q <= |m| && m[q..] == word + tail && word != [] && !IsSpace(word[0])
    ensures q + |word| <= |m| && m[q + |word|..] == tail
    ensures WordsEnd(m, q, [word] + rest) == WordsEnd(m, q + |word|, rest)
  {
    hide IsSpace, WordsEnd;
    assert |m| - q == |word + tail|;
    assert m[q] == m[q..][0] == word[0];
    assert m[q + |word|..] == m[q..][|word|..] == tail;
    assert m[q..q + |word|] == m[q..][..|word|] == word;
    assert Run(m, q, IsSpace) == 0;
    WordsStep(m, q, [word] + rest);
    assert ([word] + rest)[1..] == rest;
  }

  lemma UnbalancedTail()
    ensures |UNBALANCED| == 28
    ensures UNBALANCED[3..] == "[" + ("cfg" + ("(" + ("test" + (")" + ("]" + UNBALANCED_ITEM)))))
  {
    assert |UNBALANCED_ITEM| == 14;
    hide UNBALANCED_ITEM;
  }

  lemma UnbalancedWords()
    ensures |UNBALANCED| == 28 && WordsEnd(UNBALANCED, 3, CFG_TEST) == Some(14)
  {
    UnbalancedTail();
    hide WordsEnd, UNBALANCED, UNBALANCED_ITEM;
    assert CFG_TEST == ["["] + (["cfg"] + (["("] + (["test"] + ([")"] + (["]"] + [])))));
    var r2, t2 := ["test"] + ([")"] + (["]"] + [])), "test" + (")" + ("]" + UNBALANCED_ITEM));
    hide CFG_TEST;
    NextWord(UNBALANCED, 3, "[", "cfg" + ("(" + t2), ["cfg"] + (["("] + r2));
    NextWord(UNBALANCED, 4, "cfg", "(" + t2, ["("] + r2);
    NextWord(UNBALANCED, 7, "(", t2, r2);
    NextWord(UNBALANCED, 8, "test", ")" + ("]" + UNBALANCED_ITEM), [")"] + (["]"] + []));
    NextWord(UNBALANCED, 12, ")", "]" + UNBALANCED_ITEM, ["]"] + []);
    NextWord(UNBALANCED, 13, "]", UNBALANCED_ITEM, []);
    NoWords(UNBALANCED, 14);
  }

  lemma UnbalancedAttribute()
    ensures AttributeEnd(UNBALANCED, 2) == Some(14)
  {
    UnbalancedText();
    UnbalancedWords();
    hide UNBALANCED, WordsEnd, CFG_TEST;
    assert Run(UNBALANCED, 2, Blank) == 0;
  }

  /** Other attributes could only start inside the helper. */
  lemma UnbalancedStarts(p: nat)
    requires AttributeEnd(UNBALANCED, p).Some?
    ensures 2 <= p < 28
  {
    UnbalancedText();
    hide UNBALANCED, WordsEnd, CFG_TEST;
    assert Run(UNBALANCED, 0, Blank) == 0;
  }

  lemma UnbalancedMask()
    ensures |UNBALANCED| == 28 && LexOk(UNBALANCED) && Mask(UNBALANCED) == UNBALANCED
    ensures Boundary(UNBALANCED, 2) && Boundary(UNBALANCED, 28)
  {
    UnbalancedText();
    OwnMask(UNBALANCED);
    hide UNBALANCED, Mask, Boundary;
  }

  lemma UnbalancedItem()
    ensures ItemEnd(UNBALANCED, 26, 28) && |UNBALANCED| == 28 && Matched(UNBALANCED, 2)
    ensures !OpenUntil(UNBALANCED, 26, 29)
  {
    UnbalancedMask();
    UnbalancedDepths();
    hide UNBALANCED, Mask, Boundary, Depth;
    var m := Mask(UNBALANCED);
    assert Depth(m, 27) > Depth(m, 26) && Depth(m, 28) == Depth(m, 26);
    assert Depth(m, 0) >= 0 && Depth(m, 1) >= 0 && Depth(m, 2) >= 0;
  }

  lemma UnbalancedRanges()
    ensures LexOk(UNBALANCED) && Mask(UNBALANCED) == UNBALANCED && Ranges(UNBALANCED, [UNBALANCED_HELPER])
    ensures ItemEnd(UNBALANCED, 26, 28) && Matched(UNBALANCED, 2) && Boundary(UNBALANCED, 2)
  {
    UnbalancedText();
    UnbalancedMask();
    UnbalancedDepths();
    UnbalancedItem();
    hide UNBALANCED, Mask, Boundary, Depth, ItemEnd, Matched;
  }

  lemma UnbalancedIsHelper()
    ensures Removable(UNBALANCED, UnbalancedHeader, UNBALANCED_HELPER)
  {
    UnbalancedText();
    UnbalancedDepths();
    UnbalancedRanges();
    UnbalancedAttribute();
    hide UNBALANCED, UNBALANCED_ITEM, Mask, Reaches, ScanAt, Depth, AttributeEnd, Matched, Boundary, ItemEnd;
    var m := Mask(UNBALANCED);
    assert m == UNBALANCED && After(UNBALANCED, 2) == UNBALANCED_ITEM;
    assert HelperStart(UNBALANCED, UnbalancedHeader, 2);
    UnbalancedItem();
  }

  lemma UnbalancedIsRemoved()
    ensures LexOk(UNBALANCED) && Removed(UNBALANCED, UnbalancedHeader, [UNBALANCED_HELPER])
  {
    UnbalancedRanges();
    UnbalancedIsHelper();
    var hs := [UNBALANCED_HELPER];
    hide UNBALANCED, Mask, Ranges, Removable, AttributeEnd, HelperStart, HelperFails, Boundary;
    forall p: nat | HelperStart(UNBALANCED, UnbalancedHeader, p) || HelperFails(UNBALANCED, UnbalancedHeader, p)
      ensures InHelper(hs, p)
    {
      StartIsAttribute(UNBALANCED, UnbalancedHeader, p);
      UnbalancedStarts(p);
      assert hs[0].start <= p < hs[0].end;
    }
  }

  /** A brace in an additional attribute: the helper is removed, and a depth outside it changes. */
  lemma UnbalancedHeaderChangesDepth()
    ensures EndsWithBrace(UnbalancedHeader) && LexOk(UNBALANCED)
    ensures Removed(UNBALANCED, UnbalancedHeader, [UNBALANCED_HELPER])
    ensures !DepthKept(UNBALANCED, [UNBALANCED_HELPER]) && !NestingKept(UNBALANCED, [UNBALANCED_HELPER])
  {
    HeaderEndsWithBrace();
    UnbalancedIsRemoved();
    UnbalancedRanges();
    UnbalancedDepths();
    var hs := [UNBALANCED_HELPER];
    hide UNBALANCED, Mask, Blanking, Depth, Ranges, Boundary, DepthKept, NestingKept, Removed, Matched, ItemEnd;
    DepthKeptIffHeadersBalanced(UNBALANCED, hs);
    NestingKeptIffNeutral(UNBALANCED, hs);
    assert !HeaderBalanced(UNBALANCED, hs[0]) && !Neutral(UNBALANCED, hs[0]);
  }

  // ----- the production split -----

  lemma {:induction false} PrefixPath(s: string, b: nat, i: nat, p: nat)
    requires LexOk(s) && Boundary(s, b) && i <= p <= b <= |s| && Boundary(s, i)
    ensures i <= |s[..b]| && (Reaches(s, i, p) <==> Reaches(s[..b], i, p))
    decreases b - i
  {
    if i >= p {
    } else {
      PrefixStep(s, b, i);
      StepReaches(s, i);
      var next := if ScanAt(s, i).Code? then i + 1 else ScanAt(s, i).end;
      if next <= p {
        PrefixPath(s, b, next, p);
      }
    }
  }

  /** A prefix cut between tokens opens the same tokens. */
  lemma PrefixStep(s: string, b: nat, i: nat)
    requires LexOk(s) && Boundary(s, b) && i < b <= |s| && Boundary(s, i)
    ensures ScanAt(s[..b], i) == ScanAt(s, i)
  {
    StepReaches(s, i);
    if ScanAt(s, i).Code? {
      CodeLocal(s, s[..b], i, b);
    } else {
      TokenLocal(s, s[..b], i);
    }
  }

  lemma PrefixMask(s: string, b: nat)
    requires LexOk(s) && b <= |s| && Boundary(s, b)
    ensures forall p :: 0 <= p <= b ==> (Boundary(s[..b], p) <==> Boundary(s, p))
    ensures Mask(s[..b]) == Mask(s)[..b]
  {
    forall p | 0 <= p <= b ensures Boundary(s[..b], p) <==> Boundary(s, p) {
      PrefixPath(s, b, 0, p);
    }
    forall j | 0 <= j < b ensures Mask(s[..b])[j] == Mask(s)[j] {
      if Boundary(s, j) {
        PrefixStep(s, b, j);
      }
    }
  }

  lemma WordOfPrefix(m: string, b: nat, q: nat, word: string)
    requires q <= b <= |m| && word != [] && OccursAt(m[..b], word, q + Run(m[..b], q, IsSpace))
    ensures Run(m, q, IsSpace) == Run(m[..b], q, IsSpace)
    ensures var w := q + Run(m, q, IsSpace); OccursAt(m, word, w) && w + |word| <= b
  {
    hide IsSpace, Run;
    RunLocal(m[..b], m, q, IsSpace);
    var w := q + Run(m, q, IsSpace);
    OccursLocal(m, m[..b], word, w, b, w);
  }

  lemma {:induction false} WordsOfPrefix(m: string, b: nat, q: nat, words: seq<string>)
    requires q <= b <= |m| && WordsEnd(m[..b], q, words).Some?
    requires forall w :: w in words ==> |w| > 0
    ensures WordsEnd(m, q, words) == WordsEnd(m[..b], q, words)
    decreases |words|
  {
    hide IsSpace, Run, WordsEnd, OccursAt;
    if words == [] {
      NoWords(m[..b], q);
      NoWords(m, q);
    } else {
      WordsStep(m[..b], q, words);
      WordsStep(m, q, words);
      assert words[0] in words;
      WordOfPrefix(m, b, q, words[0]);
      WordsOfPrefix(m, b, q + Run(m, q, IsSpace) + |words[0]|, words[1..]);
    }
  }

  lemma AttributeOfPrefix(m: string, b: nat, p: nat)
    requires b <= |m| && AttributeEnd(m[..b], p).Some?
    ensures AttributeEnd(m, p) == AttributeEnd(m[..b], p)
  {
    hide WordsEnd, IsSpace;
    CfgTestWords();
    RunLocal(m[..b], m, p, Blank);
    WordsOfPrefix(m, b, p + Run(m, p, Blank) + 1, CFG_TEST);
  }

  /** Test attributes of a prefix cut between tokens are test attributes of the whole. */
  lemma TestAttributeOfPrefix(s: string, b: nat, p: nat)
    requires LexOk(s) && b <= |s| && Boundary(s, b) && TestAttribute(s[..b], p)
    ensures p < b && TestAttribute(s, p)
  {
    PrefixMask(s, b);
    AttributeOfPrefix(Mask(s), b, p);
  }

  datatype SplitError = Scan(error: ScanError) | NestedModule | MalformedModule | UnrecognizedItem | Ambiguous

  /** The source splits: its test attributes are at most one, at depth zero, on an inline module. */
  ghost predicate Splittable(s: string, moduleItem: string -> bool)
  {
    && LexOk(s)
    && (forall p: nat :: AttributeEnd(Mask(s), p).Some? ==> Matched(s, p))
    && (forall p: nat :: TestAttribute(s, p) ==> Depth(Mask(s), p) == 0 && moduleItem(After(s, p)))
    && (forall p: nat, q: nat :: TestAttribute(s, p) && TestAttribute(s, q) ==> p == q)
  }

  /** The attribute at `p` raises the error `e`. */
  ghost predicate Refused(s: string, moduleItem: string -> bool, modulePrefix: string -> bool, p: nat, e: SplitError)
  {
    match e
    case Scan(error) => error.UnmatchedBrace? && AttributeEnd(Mask(s), p).Some? && !Matched(s, p)
    case NestedModule => TestAttribute(s, p) && Depth(Mask(s), p) > 0 && moduleItem(After(s, p))
    case MalformedModule => TestAttribute(s, p) && !moduleItem(After(s, p)) && modulePrefix(After(s, p))
    case UnrecognizedItem => TestAttribute(s, p) && !moduleItem(After(s, p)) && !modulePrefix(After(s, p))
    case Ambiguous => TestAttribute(s, p) && exists q: nat :: p < q && TestAttribute(s, q)
  }

  /** The loop body of `_rust_production` for one attribute: does it start the test module? */
  method StartsTestModule(source: string, m: string, attribute: Attribute, moduleItem: string -> bool,
                          modulePrefix: string -> bool) returns (r: Result<bool, SplitError>)
    requires LexOk(source) && m == Mask(source) && AttributeEnd(m, attribute.start) == Some(attribute.end)
    ensures r.Ok? <==> Accepted(source, moduleItem, attribute.start)
    ensures r.Ok? ==> (r.value <==> TestAttribute(source, attribute.start))
    ensures r.Err? ==> Refused(source, moduleItem, modulePrefix, attribute.start, r.error)
  {
    hide AttributeEnd, Mask, Depth, Reaches, Matched;
    var nesting := NestingDepth(source, attribute.start);
    if nesting.Failed? {
      return Err(Scan(nesting.error));
    }
    if nesting.Inside? {
      BoundaryOrInside(source, attribute.start);
      return Ok(false);
    }
    var following := m[attribute.end..];
    if moduleItem(following) {
      return if nesting.depth != 0 then Err(NestedModule) else Ok(true);
    }
    return Err(if modulePrefix(following) then MalformedModule else UnrecognizedItem);
  }

  /** The attribute passes: it is inside a token, or starts a test module at depth zero. */
  ghost predicate Accepted(s: string, moduleItem: string -> bool, p: nat)
    requires AttributeEnd(Mask(s), p).Some?
  {
    Matched(s, p) && (TestAttribute(s, p) ==> Depth(Mask(s), p) == 0 && moduleItem(After(s, p)))
  }

  /** The starts of those attributes of `found` that start between tokens. */
  ghost function TestStarts(s: string, found: seq<Attribute>): seq<nat>
  {
    if found == [] then []
    else
      var p := found[|found| - 1].start;
      TestStarts(s, found[..|found| - 1]) + if TestAttribute(s, p) then [p] else []
  }

  predicate Increasing(bs: seq<nat>) { forall i, j :: 0 <= i < j < |bs| ==> bs[i] < bs[j] }

  lemma {:induction false} TestStartsHold(s: string, found: seq<Attribute>)
    requires forall k, l :: 0 <= k < l < |found| ==> found[k].start < found[l].start
    ensures forall b :: b in TestStarts(s, found) ==> TestAttribute(s, b) && b <= found[|found| - 1].start
    ensures forall k :: 0 <= k < |found| && TestAttribute(s, found[k].start) ==> found[k].start in TestStarts(s, found)
    ensures Increasing(TestStarts(s, found))
  {
    hide TestAttribute;
    if found == [] {
      assert TestStarts(s, found) == [];
    } else {
      var init, p := found[..|found| - 1], found[|found| - 1].start;
      TestStartsHold(s, init);
      var before, starts := TestStarts(s, init), TestStarts(s, found);
      assert starts == before + if TestAttribute(s, p) then [p] else [];
      hide TestStarts;
      forall b | b in before ensures TestAttribute(s, b) && b < p {
        assert init[|init| - 1] == found[|found| - 2] || init == [];
      }
      forall k | 0 <= k < |found| && TestAttribute(s, found[k].start) ensures found[k].start in starts {
        if k < |init| {
          assert init[k] == found[k];
        }
      }
      forall i, j | 0 <= i < j < |starts| ensures starts[i] < starts[j] {
        assert starts[i] == before[i] && before[i] in before;
      }
    }
  }

  /** `_rust_production`. */
  method Production(source: string, moduleItem: string -> bool, modulePrefix: string -> bool)
    returns (r: Result<string, SplitError>)
    ensures r.Ok? <==> Splittable(source, moduleItem)
    ensures r.Ok? ==> r.value <= source && Boundary(source, |r.value|)
    ensures r.Ok? ==> r.value == source || (TestAttribute(source, |r.value|) && Depth(Mask(source), |r.value|) == 0)
    ensures r.Ok? ==> forall p: nat :: !TestAttribute(r.value, p)
    ensures r.Err? ==> || (r.error.Scan? && r.error.error.Lexical? && !LexOk(source))
                       || exists p: nat :: Refused(source, moduleItem, modulePrefix, p, r.error)
  {
    hide AttributeEnd, Mask, Depth, Boundary, TestAttribute, Accepted, Splittable, Refused;
    var masked := CodeMask(source);
    if masked.Err? {
      NotSplittable(source, moduleItem);
      return Err(Scan(Lexical(masked.error)));
    }
    var found := FindAttributes(masked.value);
    var boundaries: seq<nat> := [];
    for k := 0 to |found|
      invariant boundaries == TestStarts(source, found[..k])
      invariant forall l :: 0 <= l < k ==> Accepted(source, moduleItem, found[l].start)
    {
      assert found[..k + 1][..k] == found[..k];
      var starts := StartsTestModule(source, masked.value, found[k], moduleItem, modulePrefix);
      if starts.Err? {
        NotSplittable(source, moduleItem);
        return Err(starts.error);
      }
      if starts.value {
        boundaries := boundaries + [found[k].start];
      }
    }
    assert found[..|found|] == found;
    r := CutAtBoundary(source, found, boundaries, moduleItem, modulePrefix);
  }

  /** The end of `_rust_production`: at most one boundary, and the text before it. */
  method CutAtBoundary(source: string, found: seq<Attribute>, boundaries: seq<nat>, moduleItem: string -> bool,
                       modulePrefix: string -> bool)
    returns (r: Result<string, SplitError>)
    requires LexOk(source) && AllAttributes(Mask(source), found, |source| + 1)
    requires boundaries == TestStarts(source, found)
    requires forall l :: 0 <= l < |found| ==> Accepted(source, moduleItem, found[l].start)
    ensures r.Ok? <==> Splittable(source, moduleItem)
    ensures r.Ok? ==> r.value <= source && Boundary(source, |r.value|)
    ensures r.Ok? ==> r.value == source || (TestAttribute(source, |r.value|) && Depth(Mask(source), |r.value|) == 0)
    ensures r.Ok? ==> forall p: nat :: !TestAttribute(r.value, p)
    ensures r.Err? ==> exists p: nat :: Refused(source, moduleItem, modulePrefix, p, r.error)
  {
    TestStartsHold(source, found);
    hide AttributeEnd, Mask, Depth, Boundary, TestAttribute, Accepted, Splittable, Refused, TestStarts;
    if |boundaries| > 1 {
      assert boundaries[0] in boundaries && boundaries[1] in boundaries;
      NotSplittable(source, moduleItem);
      IsAmbiguous(source, moduleItem, modulePrefix, boundaries[0], boundaries[1]);
      return Err(Ambiguous);
    }
    AcceptedSplits(source, moduleItem, found);
    if boundaries == [] {
      return Ok(source);
    }
    CutAt(source, moduleItem, boundaries[0]);
    return Ok(source[..boundaries[0]]);
  }

  lemma IsAmbiguous(s: string, moduleItem: string -> bool, modulePrefix: string -> bool, p: nat, q: nat)
    requires p < q && TestAttribute(s, p) && TestAttribute(s, q)
    ensures Refused(s, moduleItem, modulePrefix, p, Ambiguous)
  {
  }

  /** A single bad attribute, or a second good one, prevents the split. */
  lemma NotSplittable(s: string, moduleItem: string -> bool)
    ensures !LexOk(s) ==> !Splittable(s, moduleItem)
    ensures forall p: nat :: AttributeEnd(Mask(s), p).Some? && !Accepted(s, moduleItem, p) ==>
              !Splittable(s, moduleItem)
    ensures forall p: nat, q: nat :: TestAttribute(s, p) && TestAttribute(s, q) && p != q ==> !Splittable(s, moduleItem)
  {
    hide AttributeEnd, Mask, Depth, Reaches, Matched;
  }

  /** Cutting at the only test attribute leaves none. */
  lemma CutAt(s: string, moduleItem: string -> bool, b: nat)
    requires Splittable(s, moduleItem) && TestAttribute(s, b)
    ensures b <= |s| && Boundary(s, b) && Depth(Mask(s), b) == 0 && forall p: nat :: !TestAttribute(s[..b], p)
  {
    hide AttributeEnd, Mask, Depth, Reaches, Matched;
    forall p: nat | TestAttribute(s[..b], p) ensures false {
      TestAttributeOfPrefix(s, b, p);
    }
  }

  lemma AcceptedSplits(s: string, moduleItem: string -> bool, found: seq<Attribute>)
    requires LexOk(s) && AllAttributes(Mask(s), found, |s| + 1) && |TestStarts(s, found)| <= 1
    requires forall k :: 0 <= k < |found| ==> Accepted(s, moduleItem, found[k].start)
    ensures Splittable(s, moduleItem) && forall p: nat :: TestAttribute(s, p) ==> p in TestStarts(s, found)
  {
    hide AttributeEnd, Mask, Depth, Reaches, Matched, Accepted, Boundary, Splittable;
    TestStartsHold(s, found);
    hide TestStarts;
    forall p: nat | AttributeEnd(Mask(s), p).Some?
      ensures Accepted(s, moduleItem, p) && (TestAttribute(s, p) ==> p in TestStarts(s, found))
    {
      var k :| 0 <= k < |found| && found[k].start == p;
    }
    OneStartSplits(s, moduleItem, TestStarts(s, found));
  }

  lemma OneStartSplits(s: string, moduleItem: string -> bool, starts: seq<nat>)
    requires LexOk(s) && |starts| <= 1 && forall p: nat :: TestAttribute(s, p) ==> p in starts
    requires forall p: nat :: AttributeEnd(Mask(s), p).Some? ==> Accepted(s, moduleItem, p)
    ensures Splittable(s, moduleItem)
  {
    hide AttributeEnd, Mask, Depth, Reaches, Matched, Boundary;
  }

  /** `_rust_production_source`: remove the nested helpers, then split. */
  method ProductionSource(source: string, header: string -> Option<nat>, moduleItem: string -> bool,
                          modulePrefix: string -> bool)
    returns (r: Result<string, SplitError>)
    requires EndsWithBrace(header)
    ensures r.Ok? <==> LexOk(source) &&
                       exists hs :: Removed(source, header, hs) && Splittable(Blanking(source, hs), moduleItem)
    ensures r.Ok? ==> exists hs :: Removed(source, header, hs) && CutOf(source, hs, r.value)
    ensures r.Ok? ==> forall p: nat :: !TestAttribute(r.value, p)
    ensures r.Err? ==> SourceFails(source, header, moduleItem, modulePrefix, r.error)
  {
    hide Removed, Boundary, Mask, TestAttribute, Splittable, HelperFails, CutOf, Blanking, FirstFailure, Refused;
    var cleaned := WithoutNestedTestHelpers(source, header);
    if cleaned.Err? {
      return Err(Scan(cleaned.error));
    }
    ghost var hs :| Removed(source, header, hs) && cleaned.value == Blanking(source, hs);
    forall hs' | Removed(source, header, hs') ensures hs' == hs {
      RemovedIsUnique(source, header, hs, hs');
    }
    r := Production(cleaned.value, moduleItem, modulePrefix);
    RemovedInside(source, header, hs);
    if r.Ok? {
      CutIsPrefix(source, hs, r.value);
    } else {
      StillScans(source, hs);
    }
  }

  lemma StillScans(s: string, hs: seq<Helper>)
    requires LexOk(s) && Ranges(s, hs)
    ensures LexOk(Blanking(s, hs))
  {
    hide Boundary, Ranges, Blanking, Mask;
    BlankingIsInvisible(s, hs);
  }

  /** The error comes from the text, from the first helper that cannot be removed, or from an attribute
      of the cleaned text. */
  ghost predicate SourceFails(s: string, header: string -> Option<nat>, moduleItem: string -> bool,
                              modulePrefix: string -> bool, e: SplitError)
  {
    || (e.Scan? && e.error.Lexical? && !LexOk(s))
    || (e.Scan? && LexOk(s) && exists p: nat :: FirstFailure(s, header, p, e.error))
    || (LexOk(s) && exists hs, p: nat ::
          Removed(s, header, hs) && Refused(Blanking(s, hs), moduleItem, modulePrefix, p, e))
  }

  /** `v` is a prefix of the source up to blanked helpers. It ends between tokens of the cleaned text, at
      its end or at depth zero before its test attribute; outside the helpers that is between tokens of
      the source, as deep as the removed headers left braces open; and if the headers are balanced, it is
      outside the helpers and at depth zero. */
  ghost predicate CutOf(s: string, hs: seq<Helper>, v: string)
  {
    && |v| <= |s| && (forall j :: 0 <= j < |v| ==> v[j] == if InHelper(hs, j) then Blanked(s[j]) else s[j])
    && CleanCut(Blanking(s, hs), |v|)
    && (Outer(hs, |v|) ==>
          Boundary(s, |v|) && (|v| < |s| && Inside(s, hs) ==> Depth(Mask(s), |v|) == Excess(s, hs, |v|)))
    && (Inside(s, hs) && (forall k :: 0 <= k < |hs| ==> HeaderBalanced(s, hs[k])) ==>
          Boundary(s, |v|) && Outer(hs, |v|) && (|v| == |s| || Depth(Mask(s), |v|) == 0))
  }

  ghost predicate CleanCut(r: string, b: nat)
  {
    b <= |r| && Boundary(r, b) && (b == |r| || (TestAttribute(r, b) && Depth(Mask(r), b) == 0))
  }

  lemma CutIsPrefix(s: string, hs: seq<Helper>, v: string)
    requires LexOk(s) && Ranges(s, hs) && v <= Blanking(s, hs) && CleanCut(Blanking(s, hs), |v|)
    ensures CutOf(s, hs, v)
  {
    hide Boundary, Mask, Ranges, Depth, Outer, HeaderBalanced, TestAttribute, Excess;
    RangesInside(s, hs);
    BlankingIsInvisible(s, hs);
    if Outer(hs, |v|) {
      DepthShift(s, hs, |v|);
    }
    if forall k :: 0 <= k < |hs| ==> HeaderBalanced(s, hs[k]) {
      CutIsOuter(s, hs, |v|);
    }
  }

  /** A depth-zero cut of the cleaned source is a depth-zero cut of the source. */
  lemma CutIsOuter(s: string, hs: seq<Helper>, b: nat)
    requires LexOk(s) && Ranges(s, hs) && b <= |s| && Boundary(Blanking(s, hs), b)
    requires forall k :: 0 <= k < |hs| ==> HeaderBalanced(s, hs[k])
    requires b == |s| || Depth(Mask(Blanking(s, hs)), b) == 0
    ensures Outer(hs, b) && Boundary(s, b) && (b == |s| || Depth(Mask(s), b) == 0)
  {
    if k :| 0 <= k < |hs| && hs[k].start < b < hs[k].end {
      HelperIsFlat(s, hs, k);
      EndIsOuter(s, hs, k);
      DepthSurvives(s, hs, hs[k].start);
      assert false;
    }
    BlankingIsInvisible(s, hs);
    DepthSurvives(s, hs, b);
  }
}
