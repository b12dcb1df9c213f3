/** The three scan loops over Rust source: masking, nesting depth and the end of a braced item. */
module RustMask {
  import opened Prelude
  import opened RustLexer

  // ----- lexical boundaries -----

  /** Scanning from offset `i` stops at offset `p`, between two tokens or code characters. */
  ghost predicate Reaches(s: string, i: nat, p: nat)
    requires i <= |s|
    decreases |s| - i
  {
    i == p || (i < p && i < |s| &&
      match ScanAt(s, i)
      case Code => Reaches(s, i + 1, p)
      case Token(e) => Reaches(s, e, p)
      case Bad(_) => false)
  }

  /** `p` is a lexical boundary of the whole text: it is not inside a comment or literal. */
  ghost predicate Boundary(s: string, p: nat) { Reaches(s, 0, p) }

  /** The whole text scans without an unterminated comment or literal. */
  ghost predicate LexOk(s: string) { Boundary(s, |s|) }

  ghost predicate CodeAt(s: string, j: nat)
  {
    j < |s| && Boundary(s, j) && ScanAt(s, j).Code?
  }

  /** `p` lies strictly inside the comment or literal that starts at `a`. */
  ghost predicate InsideToken(s: string, a: nat, p: nat)
  {
    a < |s| && Boundary(s, a) && ScanAt(s, a).Token? && a < p < ScanAt(s, a).end
  }

  lemma {:induction false} ReachesBounds(s: string, i: nat, p: nat)
    requires i <= |s| && Reaches(s, i, p)
    ensures i <= p <= |s|
    decreases |s| - i
  {
    if i != p {
      ReachesBounds(s, if ScanAt(s, i).Code? then i + 1 else ScanAt(s, i).end, p);
    }
  }

  /** Boundaries met by one scan lie on one path. */
  lemma {:induction false} ReachesCompose(s: string, i: nat, p: nat, q: nat)
    requires i <= |s| && Reaches(s, i, p) && p <= |s| && p <= q
    ensures Reaches(s, i, q) <==> Reaches(s, p, q)
    decreases |s| - i
  {
    if i != p {
      var next := if ScanAt(s, i).Code? then i + 1 else ScanAt(s, i).end;
      ReachesBounds(s, next, p);
      ReachesCompose(s, next, p, q);
    }
  }

  lemma StepReaches(s: string, i: nat)
    requires i < |s| && Boundary(s, i)
    ensures ScanAt(s, i).Code? ==> Boundary(s, i + 1)
    ensures ScanAt(s, i).Token? ==> Boundary(s, ScanAt(s, i).end)
    ensures ScanAt(s, i).Token? ==> forall p :: i < p < ScanAt(s, i).end ==> !Boundary(s, p)
    ensures ScanAt(s, i).Bad? ==> forall p :: i < p ==> !Boundary(s, p)
  {
    forall p | i < p ensures Boundary(s, p) <==> Reaches(s, i, p) {
      ReachesCompose(s, 0, i, p);
    }
    if ScanAt(s, i).Code? {
      assert Reaches(s, i, i + 1);
    } else if ScanAt(s, i).Token? {
      var e := ScanAt(s, i).end;
      assert Reaches(s, i, e);
      forall p | i < p < e ensures !Boundary(s, p) {
        assert !Reaches(s, e, p);
      }
    }
  }

  /** Every offset up to a boundary is itself one or lies inside exactly one token before it. */
  lemma {:induction false} Locate(s: string, i: nat, p: nat, j: nat) returns (a: nat)
    requires Boundary(s, i) && i <= j < p <= |s| && Reaches(s, i, p)
    ensures a <= j && a < |s| && Boundary(s, a)
    ensures a == j || (ScanAt(s, a).Token? && j < ScanAt(s, a).end <= p)
    decreases |s| - i
  {
    StepReaches(s, i);
    var next := if ScanAt(s, i).Code? then i + 1 else ScanAt(s, i).end;
    ReachesBounds(s, next, p);
    if next <= j {
      a := Locate(s, next, p, j);
    } else {
      a := i;
    }
  }

  // ----- masking -----

  predicate Break(c: char) { c == '\r' || c == '\n' }

  /** The text with every character of a comment or literal blanked, line breaks excepted. */
  ghost function Mask(s: string): (m: string)
    ensures |m| == |s|
  {
    seq(|s|, j requires 0 <= j < |s| => if CodeAt(s, j) || Break(s[j]) then s[j] else ' ')
  }

  /** The loop that blanks one token in place. */
  method BlankToken(masked: array<char>, start: nat, end: nat)
    requires start <= end <= masked.Length
    modifies masked
    ensures forall j :: 0 <= j < masked.Length ==>
              masked[j] == if start <= j < end && !Break(old(masked[j])) then ' ' else old(masked[j])
  {
    for cursor := start to end
      invariant forall j :: 0 <= j < masked.Length ==>
                  masked[j] == if start <= j < cursor && !Break(old(masked[j])) then ' ' else old(masked[j])
    {
      if !Break(masked[cursor]) {
        masked[cursor] := ' ';
      }
    }
  }

  /** `_rust_code_mask`. */
  method CodeMask(source: string) returns (r: Result<string, LexError>)
    ensures r.Ok? <==> LexOk(source)
    ensures r.Ok? ==> r.value == Mask(source)
    ensures r.Err? ==> exists q :: 0 <= q < |source| && Boundary(source, q) && ScanAt(source, q) == Bad(r.error)
  {
    MaskNothing(source);
    hide Reaches, ScanAt, Mask, MaskedTo;
    var masked := new char[|source|](i requires 0 <= i < |source| => source[i]);
    assert masked[..] == source;
    var index := 0;
    while index < |source|
      invariant 0 <= index <= |source| && MaskedTo(source, masked[..], index)
    {
      MaskStep(source, masked[..], index);
      var scan := NonCodeEnd(source, index);
      if scan.Bad? {
        return Err(scan.error);
      }
      if scan.Code? {
        index := index + 1;
        continue;
      }
      ghost var before := masked[..];
      BlankToken(masked, index, scan.end);
      assert masked[..] == Blanks(before, index, scan.end);
      index := scan.end;
    }
    MaskAll(source, masked[..]);
    return Ok(masked[..]);
  }

  /** The cells with the range blanked but for line breaks. */
  function Blanks(cells: string, start: nat, end: nat): (r: string)
    ensures |r| == |cells|
  {
    seq(|cells|, j requires 0 <= j < |cells| => if start <= j < end && !Break(cells[j]) then ' ' else cells[j])
  }

  /** The cells hold the mask before `index` and the source from there on. */
  ghost predicate MaskedTo(s: string, cells: string, index: nat)
  {
    && index <= |s| == |cells| && Boundary(s, index)
    && (forall j :: 0 <= j < index ==> cells[j] == Mask(s)[j])
    && (forall j :: index <= j < |s| ==> cells[j] == s[j])
  }

  lemma MaskNothing(s: string)
    ensures MaskedTo(s, s, 0)
  {
  }

  lemma MaskStep(s: string, cells: string, index: nat)
    requires MaskedTo(s, cells, index) && index < |s|
    ensures Boundary(s, index) && (ScanAt(s, index).Bad? ==> !LexOk(s))
    ensures ScanAt(s, index).Code? ==> MaskedTo(s, cells, index + 1)
    ensures ScanAt(s, index).Token? ==>
              MaskedTo(s, Blanks(cells, index, ScanAt(s, index).end), ScanAt(s, index).end)
  {
    hide Reaches, ScanAt;
    StepReaches(s, index);
  }

  lemma MaskAll(s: string, cells: string)
    requires MaskedTo(s, cells, |s|)
    ensures LexOk(s) && cells == Mask(s)
  {
    hide Reaches, ScanAt;
  }

  lemma {:induction false} AllCode(s: string, p: nat)
    requires p <= |s| && forall j :: 0 <= j < p ==> ScanAt(s, j).Code?
    ensures forall j :: 0 <= j <= p ==> Boundary(s, j)
  {
    if p == 0 {
    } else {
      AllCode(s, p - 1);
      StepReaches(s, p - 1);
    }
  }

  /** A blanked character is next to another one: tokens have at least two characters. */
  lemma BlankNeighbour(s: string, j: nat)
    requires LexOk(s) && 0 < j && j + 1 < |s|
    requires !CodeAt(s, j) && CodeAt(s, j + 1)
    ensures !CodeAt(s, j - 1)
  {
    var a := Locate(s, 0, |s|, j);
    StepReaches(s, a);
  }

  /** Masked text opens no comment and no literal anywhere. */
  lemma MaskIsAllCode(s: string, j: nat)
    requires LexOk(s) && j < |s|
    ensures ScanAt(Mask(s), j).Code?
  {
    var m := Mask(s);
    if CodeAt(s, j) {
      NoQuoteInMask(s);
      if CharEnd(m, j).Some? {
        var e := CharEnd(m, j).value;
        CharOfMask(s, j, e);
        CharEndLocal(m, s, j);
      }
    }
  }

  lemma NoQuoteInMask(s: string)
    ensures forall j :: 0 <= j < |s| ==> Mask(s)[j] != '"'
  {
  }

  lemma MaskedOrCode(s: string, j: nat)
    requires j < |s| && Dark(Mask(s)[j])
    ensures CodeAt(s, j) && Mask(s)[j] == s[j]
  {
  }

  /** One character of the mask between two unmasked ones is itself unmasked. */
  lemma BetweenCode(s: string, j: nat)
    requires LexOk(s) && 0 < j && j + 1 < |s| && CodeAt(s, j - 1) && CodeAt(s, j + 1)
    ensures Mask(s)[j] == s[j]
  {
    if !CodeAt(s, j) {
      BlankNeighbour(s, j);
    }
  }

  predicate Dark(c: char) { c != ' ' && !Break(c) }

  /** A character literal has at most one blank, next to its closing quote. */
  lemma CharShape(m: string, j: nat, e: nat)
    requires j < |m| && CharEnd(m, j) == Some(e)
    ensures j + 3 <= e <= |m| && Dark(m[j]) && Dark(m[e - 1])
    ensures forall i :: j <= i < e && (i != e - 2 || e > j + 4) ==> Dark(m[i])
  {
    if m[j + 1] == '\\' && m[j + 3] == '{' {
      var n := Run(m, j + 4, HexOrUnderscore);
      assert forall i :: j + 4 <= i < j + 4 + n ==> HexOrUnderscore(m[i]);
    }
  }

  /** What reads as a character literal in the mask is unmasked text. */
  lemma CharOfMask(s: string, j: nat, e: nat)
    requires LexOk(s) && j < |s| && CharEnd(Mask(s), j) == Some(e)
    ensures Agree(Mask(s), s, j, e)
  {
    var m := Mask(s);
    CharShape(m, j, e);
    forall i | j <= i < e && (i != e - 2 || e > j + 4) ensures CodeAt(s, i) && m[i] == s[i] {
      MaskedOrCode(s, i);
    }
    if e <= j + 4 {
      BetweenCode(s, e - 2);
    }
  }

  /** Masking is idempotent: masked text scans without error and masks to itself. */
  lemma MaskIdempotent(s: string)
    requires LexOk(s)
    ensures LexOk(Mask(s)) && Mask(Mask(s)) == Mask(s)
  {
    var m := Mask(s);
    forall j | 0 <= j < |m| ensures ScanAt(m, j).Code? {
      MaskIsAllCode(s, j);
    }
    AllCode(m, |m|);
  }

  // ----- nesting depth -----

  function Delta(c: char): int
  {
    if c == '{' then 1 else if c == '}' then -1 else 0
  }

  /** Opening minus closing braces among the first `p` characters. */
  function Depth(m: string, p: nat): int
    requires p <= |m|
  {
    if p == 0 then 0 else Depth(m, p - 1) + Delta(m[p - 1])
  }

  lemma {:induction false} DepthFlat(m: string, p: nat, q: nat)
    requires p <= q <= |m| && forall j :: p <= j < q ==> Delta(m[j]) == 0
    ensures forall j :: p <= j <= q ==> Depth(m, j) == Depth(m, p)
    decreases q
  {
    if p >= q {
    } else {
      DepthFlat(m, p, q - 1);
    }
  }

  /** A comment or literal changes no depth of the mask. */
  lemma TokenIsFlat(s: string, i: nat)
    requires i < |s| && Boundary(s, i) && ScanAt(s, i).Token?
    ensures forall j :: i <= j <= ScanAt(s, i).end ==> Depth(Mask(s), j) == Depth(Mask(s), i)
  {
    StepReaches(s, i);
    DepthFlat(Mask(s), i, ScanAt(s, i).end);
  }

  /** No closing brace of the mask before `p` lacks an opening one. */
  ghost predicate Matched(s: string, p: nat)
    requires p <= |s|
  {
    forall q :: 0 <= q <= p ==> Depth(Mask(s), q) >= 0
  }

  datatype ScanError = Lexical(error: LexError) | UnmatchedBrace | UnterminatedBody

  datatype Nesting = At(depth: nat) | Inside | Failed(error: ScanError)

  /** What `_rust_nesting_depth` gives at `p` in text that scans. */
  ghost function NestingOf(s: string, p: nat): Nesting
    requires p <= |s|
  {
    if !Matched(s, p) then Failed(UnmatchedBrace)
    else if Boundary(s, p) then At(Depth(Mask(s), p))
    else Inside
  }

  /** `_rust_nesting_depth`. */
  method NestingDepth(source: string, stop: nat) returns (r: Nesting)
    requires stop <= |source|
    ensures r.At? <==> Boundary(source, stop) && Matched(source, stop)
    ensures r.At? ==> r.depth == Depth(Mask(source), stop)
    ensures r.Inside? <==> Matched(source, stop) && exists a :: InsideToken(source, a, stop)
    ensures r.Failed? && r.error.Lexical? ==> !LexOk(source) && !Boundary(source, stop)
    ensures r.Failed? && !r.error.Lexical? ==> r.error.UnmatchedBrace? && !Matched(source, stop)
    ensures LexOk(source) ==> r == NestingOf(source, stop)
  {
    NestNothing(source);
    hide Reaches, ScanAt, Mask, Depth, Matched, NestedTo, InsideToken;
    var depth, index := 0, 0;
    while index < stop
      invariant 0 <= index <= stop && NestedTo(source, index, depth)
    {
      NestStep(source, index, depth, stop);
      var scan := NonCodeEnd(source, index);
      if scan.Bad? {
        return Failed(Lexical(scan.error));
      }
      if scan.Token? {
        if scan.end > stop {
          return Inside;
        }
        index := scan.end;
        continue;
      }
      if source[index] == '{' {
        depth := depth + 1;
      } else if source[index] == '}' {
        depth := depth - 1;
        if depth < 0 {
          return Failed(UnmatchedBrace);
        }
      }
      index := index + 1;
    }
    NestAll(source, stop, depth);
    return At(depth);
  }

  /** The scan has come to the boundary `index`, `depth` braces deep and never below zero. */
  ghost predicate NestedTo(s: string, index: nat, depth: int)
  {
    index <= |s| && Boundary(s, index) && Matched(s, index) && depth == Depth(Mask(s), index) >= 0
  }

  lemma NestNothing(s: string)
    ensures NestedTo(s, 0, 0)
  {
  }

  lemma NestStep(s: string, index: nat, depth: int, stop: nat)
    requires NestedTo(s, index, depth) && index < stop <= |s|
    ensures ScanAt(s, index).Bad? ==>
              !LexOk(s) && !Boundary(s, stop) && !exists a :: InsideToken(s, a, stop)
    ensures ScanAt(s, index).Token? && ScanAt(s, index).end <= stop ==> NestedTo(s, ScanAt(s, index).end, depth)
    ensures ScanAt(s, index).Token? && ScanAt(s, index).end > stop ==>
              Matched(s, stop) && !Boundary(s, stop) && InsideToken(s, index, stop)
    ensures ScanAt(s, index).Code? && depth + Delta(s[index]) >= 0 ==> NestedTo(s, index + 1, depth + Delta(s[index]))
    ensures ScanAt(s, index).Code? && depth + Delta(s[index]) < 0 ==> !Matched(s, stop)
  {
    StepReaches(s, index);
    if ScanAt(s, index).Bad? {
      NotPastError(s, index, stop);
    } else if ScanAt(s, index).Token? {
      NestToken(s, index, depth, stop);
    } else {
      hide Reaches, ScanAt;
      assert Mask(s)[index] == s[index];
      assert Depth(Mask(s), index + 1) == depth + Delta(s[index]);
    }
  }

  lemma NestToken(s: string, index: nat, depth: int, stop: nat)
    requires NestedTo(s, index, depth) && index < stop <= |s| && ScanAt(s, index).Token?
    ensures var end := ScanAt(s, index).end;
            forall p :: index <= p <= end ==> Matched(s, p) && Depth(Mask(s), p) == depth
  {
    TokenIsFlat(s, index);
    hide Reaches, ScanAt, Mask, Depth;
  }

  lemma NestAll(s: string, stop: nat, depth: int)
    requires NestedTo(s, stop, depth)
    ensures Boundary(s, stop) && Matched(s, stop) && depth == Depth(Mask(s), stop)
    ensures !exists a :: InsideToken(s, a, stop)
  {
    hide Reaches, ScanAt, Mask, Depth, Matched;
    forall a | InsideToken(s, a, stop) ensures false {
      StepReaches(s, a);
    }
  }

  /** Nothing at or past an unterminated comment or literal is a boundary or inside a token. */
  lemma NotPastError(s: string, i: nat, stop: nat)
    requires i < stop <= |s| && Boundary(s, i) && ScanAt(s, i).Bad?
    ensures !LexOk(s) && !Boundary(s, stop) && forall a :: !InsideToken(s, a, stop)
  {
    StepReaches(s, i);
    forall a | InsideToken(s, a, stop) ensures false {
      StepReaches(s, a);
    }
  }

  /** In text that scans, an offset is at a depth or inside a token, never both. */
  lemma BoundaryOrInside(s: string, p: nat)
    requires LexOk(s) && p <= |s|
    ensures Boundary(s, p) <==> !exists a :: InsideToken(s, a, p)
  {
    if p < |s| {
      var a := Locate(s, 0, |s|, p);
      assert a == p || InsideToken(s, a, p);
    }
    forall a | InsideToken(s, a, p) ensures !Boundary(s, p) {
      StepReaches(s, a);
    }
  }

  /** A token of the text that holds the character at `j`. */
  ghost predicate TokenAround(s: string, a: nat, j: nat)
  {
    a < |s| && Boundary(s, a) && ScanAt(s, a).Token? && a <= j < ScanAt(s, a).end
  }

  /** In text that scans, masking blanks exactly the characters of the tokens, line breaks excepted. */
  lemma MaskBlanksTokens(s: string, j: nat)
    requires LexOk(s) && j < |s|
    ensures Mask(s)[j] == if s[j] != '\r' && s[j] != '\n' && exists a :: TokenAround(s, a, j) then ' ' else s[j]
  {
    BoundaryOrInside(s, j);
    hide ScanAt, Reaches;
    if a :| TokenAround(s, a, j) {
      assert a == j || InsideToken(s, a, j);
    } else {
      assert forall a :: !InsideToken(s, a, j) by {
        forall a ensures !InsideToken(s, a, j) {
          assert !TokenAround(s, a, j);
        }
      }
      assert !TokenAround(s, j, j);
      NeverBad(s, j);
    }
  }

  lemma NeverBad(s: string, j: nat)
    requires LexOk(s) && j < |s| && Boundary(s, j)
    ensures !ScanAt(s, j).Bad?
  {
    hide ScanAt, Reaches;
    StepReaches(s, j);
  }

  // ----- the end of a braced item -----

  /** From `open` on, the mask stays deeper than before `open` on all of `open < q < end`. */
  ghost predicate OpenUntil(s: string, open: nat, end: nat)
    requires open < |s| && end <= |s| + 1
  {
    forall q :: open < q < end ==> Depth(Mask(s), q) > Depth(Mask(s), open)
  }

  /** `end` is the first offset after `open` at which the mask is balanced again. */
  ghost predicate ItemEnd(s: string, open: nat, end: nat)
  {
    && open < end <= |s| && Boundary(s, end)
    && OpenUntil(s, open, end) && Depth(Mask(s), end) == Depth(Mask(s), open)
  }

  /** From the visible brace at `open` the scan has come to `index`, `depth` braces deep. */
  ghost predicate Scanned(s: string, open: nat, index: nat, depth: int)
  {
    && open <= index <= |s| && open < |s| && Mask(s)[open] == '{' && Boundary(s, index)
    && OpenUntil(s, open, index + 1) && depth == Depth(Mask(s), index) - Depth(Mask(s), open)
  }

  lemma ScanStarts(s: string, open: nat)
    requires open < |s| && Mask(s)[open] == '{'
    ensures Scanned(s, open, open, 0)
  {
    MaskedOrCode(s, open);
  }

  lemma TokenScanned(s: string, open: nat, index: nat, depth: int)
    requires Scanned(s, open, index, depth) && index < |s| && ScanAt(s, index).Token?
    ensures Scanned(s, open, ScanAt(s, index).end, depth)
  {
    hide Reaches, Mask, Depth;
    StepReaches(s, index);
    TokenIsFlat(s, index);
    assert index != open by {
      assert index == open ==> Dark(Mask(s)[open]);
      if index == open {
        MaskedOrCode(s, open);
      }
    }
  }

  lemma CodeScanned(s: string, open: nat, index: nat, depth: int)
    requires Scanned(s, open, index, depth) && index < |s| && ScanAt(s, index).Code?
    ensures var depth' := depth + Delta(s[index]);
            if depth' == 0 && s[index] == '}' then ItemEnd(s, open, index + 1)
            else Scanned(s, open, index + 1, depth')
  {
    hide Reaches;
    StepReaches(s, index);
    assert Mask(s)[index] == s[index];
    assert Depth(Mask(s), index + 1) == Depth(Mask(s), index) + Delta(s[index]);
  }

  /** `_rust_braced_item_end`. */
  method BracedItemEnd(source: string, openingBrace: nat) returns (r: Result<nat, ScanError>)
    requires openingBrace <= |source|
    ensures openingBrace < |source| && Mask(source)[openingBrace] == '{' ==>
              && (r.Ok? ==> ItemEnd(source, openingBrace, r.value))
              && (r.Err? && r.error.Lexical? ==> !LexOk(source))
              && (r.Err? && !r.error.Lexical? ==>
                    r.error.UnterminatedBody? && OpenUntil(source, openingBrace, |source| + 1))
  {
    ghost var visible := openingBrace < |source| && Mask(source)[openingBrace] == '{';
    hide Mask, ScanAt, Reaches, ItemEnd, OpenUntil, Depth;
    if visible {
      ScanStarts(source, openingBrace);
    }
    var depth, index := 0, openingBrace;
    while index < |source|
      invariant openingBrace <= index <= |source|
      invariant visible ==> Scanned(source, openingBrace, index, depth)
    {
      var scan := NonCodeEnd(source, index);
      if scan.Bad? {
        if visible {
          StepReaches(source, index);
        }
        return Err(Lexical(scan.error));
      }
      if scan.Token? {
        if visible {
          TokenScanned(source, openingBrace, index, depth);
        }
        index := scan.end;
        continue;
      }
      if visible {
        CodeScanned(source, openingBrace, index, depth);
      }
      if source[index] == '{' {
        depth := depth + 1;
      } else if source[index] == '}' {
        depth := depth - 1;
        if depth == 0 {
          return Ok(index + 1);
        }
      }
      index := index + 1;
    }
    return Err(UnterminatedBody);
  }
}
