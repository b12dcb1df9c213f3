/** What a test attribute is, as a text, and that the pattern matches exactly these. */
module RustAttributes {
  import opened Prelude
  import opened TextFacts
  import opened RustProduction

  /** Words, each after its gap. */
  function Spelled(gaps: seq<string>, words: seq<string>): string
    requires |gaps| == |words|
  {
    if words == [] then [] else gaps[0] + words[0] + Spelled(gaps[1..], words[1..])
  }

  predicate Solid(words: seq<string>) { forall w :: w in words ==> w != [] && !IsSpace(w[0]) }

  ghost predicate Gapped(m: string, q: nat, words: seq<string>, e: nat, gaps: seq<string>)
  {
    && |gaps| == |words| && (forall g :: g in gaps ==> AllSpace(g))
    && q <= e <= |m| && m[q..e] == Spelled(gaps, words)
  }

  lemma FirstWord(m: string, q: nat, words: seq<string>, e: nat, gaps: seq<string>)
    requires Gapped(m, q, words, e, gaps) && words != [] && Solid(words)
    ensures var w := q + |gaps[0]|;
            && Run(m, q, IsSpace) == |gaps[0]| && OccursAt(m, words[0], w)
            && Gapped(m, w + |words[0]|, words[1..], e, gaps[1..])
  {
    hide IsSpace, Run;
    var gap, word, rest := gaps[0], words[0], Spelled(gaps[1..], words[1..]);
    var t, w := m[q..e], q + |gap|;
    assert t == gap + word + rest && word in words && gap in gaps;
    InARow(m, q, e, gap, word, rest);
    forall j | q <= j < w ensures IsSpace(m[j]) {
      assert m[j] == gap[j - q];
    }
    assert m[w] == word[0];
    RunIs(m, q, IsSpace, |gap|);
    assert forall g :: g in gaps[1..] ==> g in gaps;
  }

  /** The words are matched exactly where they stand with white space before each. */
  lemma {:induction false} GappedIsMatched(m: string, q: nat, words: seq<string>, e: nat, gaps: seq<string>)
    requires Gapped(m, q, words, e, gaps) && Solid(words)
    ensures WordsEnd(m, q, words) == Some(e)
    decreases |words|
  {
    hide IsSpace, Run, OccursAt;
    if words == [] {
      assert |m[q..e]| == 0;
    } else {
      FirstWord(m, q, words, e, gaps);
      hide Gapped, WordsEnd;
      assert forall w :: w in words[1..] ==> w in words;
      GappedIsMatched(m, q + |gaps[0]| + |words[0]|, words[1..], e, gaps[1..]);
      WordsStep(m, q, words);
    }
  }

  lemma {:induction false} MatchedIsGapped(m: string, q: nat, words: seq<string>, e: nat) returns (gaps: seq<string>)
    requires q <= |m| && WordsEnd(m, q, words) == Some(e)
    ensures Gapped(m, q, words, e, gaps)
    decreases |words|
  {
    hide IsSpace, OccursAt, Run;
    if words == [] {
      gaps := [];
    } else {
      WordsStep(m, q, words);
      hide WordsEnd;
      var n := Run(m, q, IsSpace);
      var gap, w := m[q..q + n], q + n;
      WordOccurs(m, words[0], w);
      var more := MatchedIsGapped(m, w + |words[0]|, words[1..], e);
      gaps := [gap] + more;
      GappedMore(m, q, words, e, gap, more);
    }
  }

  lemma WordOccurs(m: string, word: string, w: nat)
    requires OccursAt(m, word, w)
    ensures w + |word| <= |m| && m[w..w + |word|] == word
  {
  }

  lemma GappedMore(m: string, q: nat, words: seq<string>, e: nat, gap: string, more: seq<string>)
    requires words != [] && q + |gap| + |words[0]| <= |m|
    requires m[q..q + |gap|] == gap && m[q + |gap|..q + |gap| + |words[0]|] == words[0] && AllSpace(gap)
    requires Gapped(m, q + |gap| + |words[0]|, words[1..], e, more)
    ensures Gapped(m, q, words, e, [gap] + more)
  {
    hide IsSpace;
    var gaps, w, v := [gap] + more, q + |gap|, q + |gap| + |words[0]|;
    assert gaps[1..] == more;
    assert m[q..e] == m[q..w] + m[w..v] + m[v..e];
  }

  /** Indentation, then `#` and the words of the attribute with white space before each. */
  function AttributeText(indent: string, a: string, b: string, c: string, d: string, e: string, f: string): string
  {
    indent + "#" + (a + "[" + (b + "cfg" + (c + "(" + (d + "test" + (e + ")" + (f + "]"))))))
  }

  predicate Indent(s: string) { forall c :: c in s ==> c == ' ' || c == '\t' }

  ghost predicate IsAttribute(t: string, indent: string, a: string, b: string, c: string, d: string, e: string,
                              f: string)
  {
    && Indent(indent) && AllSpace(a) && AllSpace(b) && AllSpace(c) && AllSpace(d) && AllSpace(e) && AllSpace(f)
    && t == AttributeText(indent, a, b, c, d, e, f)
  }

  /** A text is a test attribute. */
  ghost predicate AnAttribute(t: string)
  {
    exists indent, a, b, c, d, e, f :: IsAttribute(t, indent, a, b, c, d, e, f)
  }

  lemma SpelledFirst(gap: string, word: string, gaps: seq<string>, words: seq<string>)
    requires |gaps| == |words|
    ensures Spelled([gap] + gaps, [word] + words) == gap + word + Spelled(gaps, words)
  {
    assert ([gap] + gaps)[1..] == gaps && ([word] + words)[1..] == words;
  }

  lemma SpelledAttribute(a: string, b: string, c: string, d: string, e: string, f: string)
    ensures |CFG_TEST| == 6 && Spelled([a, b, c, d, e, f], CFG_TEST) ==
                               a + "[" + (b + "cfg" + (c + "(" + (d + "test" + (e + ")" + (f + "]")))))
  {
    assert CFG_TEST == ["["] + (["cfg"] + (["("] + (["test"] + ([")"] + (["]"] + [])))));
    assert [a, b, c, d, e, f] == [a] + ([b] + ([c] + ([d] + ([e] + ([f] + [])))));
    assert Spelled([], []) == [];
    hide Spelled, CFG_TEST;
    SpelledFirst(f, "]", [], []);
    assert f + "]" + [] == f + "]";
    SpelledFirst(e, ")", [f] + [], ["]"] + []);
    SpelledFirst(d, "test", [e] + ([f] + []), [")"] + (["]"] + []));
    SpelledFirst(c, "(", [d] + ([e] + ([f] + [])), ["test"] + ([")"] + (["]"] + [])));
    SpelledFirst(b, "cfg", [c] + ([d] + ([e] + ([f] + []))), ["("] + (["test"] + ([")"] + (["]"] + []))));
    SpelledFirst(a, "[", [b] + ([c] + ([d] + ([e] + ([f] + [])))),
                 ["cfg"] + (["("] + (["test"] + ([")"] + (["]"] + [])))));
  }

  lemma SolidWords()
    ensures Solid(CFG_TEST)
  {
  }

  /** The indentation and the `#` of a match. */
  lemma MatchStarts(m: string, p: nat, end: nat) returns (q: nat)
    requires AttributeEnd(m, p) == Some(end)
    ensures LineStart(m, p) && p <= q < |m| && m[q] == '#' && Indent(m[p..q])
    ensures WordsEnd(m, q + 1, CFG_TEST) == Some(end)
  {
    hide WordsEnd, CFG_TEST;
    q := p + Run(m, p, Blank);
  }

  lemma AttributeFound(m: string, p: nat, end: nat)
    requires AttributeEnd(m, p) == Some(end)
    ensures LineStart(m, p) && p <= end <= |m| && AnAttribute(m[p..end])
  {
    hide WordsEnd, AllSpace, Spelled, AttributeText, CFG_TEST, AttributeEnd, LineStart, Indent;
    var q := MatchStarts(m, p, end);
    var gaps := MatchedIsGapped(m, q + 1, CFG_TEST, end);
    SpelledAttribute([], [], [], [], [], []);
    var a, b, c, d, e, f := gaps[0], gaps[1], gaps[2], gaps[3], gaps[4], gaps[5];
    assert gaps == [a, b, c, d, e, f];
    SpelledAttribute(a, b, c, d, e, f);
    HashFirst(m, p, q, end, a, b, c, d, e, f);
    assert IsAttribute(m[p..end], m[p..q], a, b, c, d, e, f);
  }

  lemma HashFirst(m: string, p: nat, q: nat, end: nat, a: string, b: string, c: string, d: string, e: string, f: string)
    requires p <= q < end <= |m| && m[q] == '#'
    requires m[q + 1..end] == a + "[" + (b + "cfg" + (c + "(" + (d + "test" + (e + ")" + (f + "]")))))
    ensures m[p..end] == AttributeText(m[p..q], a, b, c, d, e, f)
  {
    assert m[p..end] == m[p..q] + [m[q]] + m[q + 1..end];
    assert [m[q]] == "#";
  }

  lemma IndentIsRun(m: string, p: nat, q: nat)
    requires p <= q < |m| && m[q] == '#' && Indent(m[p..q])
    ensures Run(m, p, Blank) == q - p
  {
    forall j | p <= j < q ensures Blank(m[j]) {
      assert m[p..q][j - p] == m[j] && m[j] in m[p..q];
    }
    RunIs(m, p, Blank, q - p);
  }

  lemma MatchFrom(m: string, p: nat, q: nat, end: nat)
    requires LineStart(m, p) && p <= q < |m| && m[q] == '#' && Indent(m[p..q])
    requires WordsEnd(m, q + 1, CFG_TEST) == Some(end)
    ensures AttributeEnd(m, p) == Some(end)
  {
    hide WordsEnd, CFG_TEST, Indent, Run;
    IndentIsRun(m, p, q);
  }

  lemma AttributeAt(m: string, p: nat, end: nat)
    requires LineStart(m, p) && p <= end <= |m| && AnAttribute(m[p..end])
    ensures AttributeEnd(m, p) == Some(end)
  {
    hide AllSpace, Spelled, WordsEnd, CFG_TEST, LineStart, Indent, AttributeEnd;
    var indent, a, b, c, d, e, f :| IsAttribute(m[p..end], indent, a, b, c, d, e, f);
    var words := a + "[" + (b + "cfg" + (c + "(" + (d + "test" + (e + ")" + (f + "]")))));
    var q := p + |indent|;
    InARow(m, p, end, indent, "#", words);
    assert AllSpace(a) && AllSpace(b) && AllSpace(c) && AllSpace(d) && AllSpace(e) && AllSpace(f);
    hide AttributeText, IsAttribute;
    assert m[q..q + 1][0] == m[q];
    SpelledAttribute(a, b, c, d, e, f);
    SolidWords();
    assert Gapped(m, q + 1, CFG_TEST, end, [a, b, c, d, e, f]);
    GappedIsMatched(m, q + 1, CFG_TEST, end, [a, b, c, d, e, f]);
    MatchFrom(m, p, q, end);
  }

  /** The pattern matches a test attribute exactly where one starts a line, to its end. */
  lemma AttributeIff(m: string, p: nat, e: nat)
    ensures AttributeEnd(m, p) == Some(e) <==> LineStart(m, p) && p <= e <= |m| && AnAttribute(m[p..e])
  {
    hide AttributeEnd, AnAttribute;
    if AttributeEnd(m, p) == Some(e) {
      AttributeFound(m, p, e);
    }
    if LineStart(m, p) && p <= e <= |m| && AnAttribute(m[p..e]) {
      AttributeAt(m, p, e);
    }
  }
}
