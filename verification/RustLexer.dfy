/** The lexer that decides which Rust source characters are comments or literals. */
module RustLexer {
  import opened Prelude

  datatype LexError = UnterminatedBlockComment | UnterminatedRawString | UnterminatedString

  /** What starts at an offset: ordinary code, a comment or literal ending at `end`, or an error. */
  datatype Scan = Code | Token(end: nat) | Bad(error: LexError)

  predicate Pair(s: string, i: int, a: char, b: char)
  {
    0 <= i && i + 1 < |s| && s[i] == a && s[i + 1] == b
  }

  predicate Hash(c: char) { c == '#' }

  predicate Hex(c: char) { '0' <= c <= '9' || 'a' <= c <= 'f' || 'A' <= c <= 'F' }

  predicate HexOrUnderscore(c: char) { Hex(c) || c == '_' }

  /** The end of a block comment whose text continues at `c` inside `depth` open comments. */
  function BlockEnd(s: string, c: nat, depth: nat): (r: Option<nat>)
    requires c <= |s|
    ensures r.Some? ==> c <= r.value <= |s|
    decreases |s| - c
  {
    if depth == 0 then Some(c)
    else if c == |s| then None
    else if Pair(s, c, '/', '*') then BlockEnd(s, c + 2, depth + 1)
    else if Pair(s, c, '*', '/') then BlockEnd(s, c + 2, depth - 1)
    else BlockEnd(s, c + 1, depth)
  }

  /** The end of a quoted string whose text continues at `c`. */
  function StringEnd(s: string, c: nat): (r: Option<nat>)
    ensures r.Some? ==> c < r.value <= |s|
    decreases |s| - c
  {
    if c >= |s| then None
    else if s[c] == '\\' then StringEnd(s, c + 2)
    else if s[c] == '"' then Some(c + 1)
    else StringEnd(s, c + 1)
  }

  /** Where the hashes of a raw-string opening at `i` would begin: after `r` or `br`. */
  function RawPrefix(s: string, i: nat): (r: Option<nat>)
    requires i < |s|
    ensures r.Some? ==> i < r.value <= i + 2 && r.value <= |s| && s[r.value - 1] == 'r'
  {
    if s[i] == 'r' then Some(i + 1)
    else if Pair(s, i, 'b', 'r') then Some(i + 2)
    else None
  }

  /** The offset of the opening quote of a raw string starting at `i` (`b?r#{0,255}"`). */
  function RawQuote(s: string, i: nat): (r: Option<nat>)
    requires i < |s|
    ensures r.Some? ==> RawPrefix(s, i).Some? && RawPrefix(s, i).value <= r.value < |s| && s[r.value] == '"'
    ensures r.Some? ==> forall j :: RawPrefix(s, i).value <= j < r.value ==> s[j] == '#'
  {
    match RawPrefix(s, i)
    case None => None
    case Some(p) =>
      var n := Run(s, p, Hash);
      if n <= 255 && p + n < |s| && s[p + n] == '"' then Some(p + n) else None
  }

  /** A closing quote followed by as many hashes as opened the raw string. */
  function Terminator(hashes: nat): (t: string)
    ensures |t| == hashes + 1
  {
    "\"" + seq(hashes, _ => '#')
  }

  /** The end of a character literal starting at `i`. */
  function CharEnd(s: string, i: nat): (r: Option<nat>)
    requires i < |s|
    ensures r.Some? ==> i + 3 <= r.value <= |s| && s[i] == s[r.value - 1] == '\''
  {
    if s[i] != '\'' || i + 2 >= |s| then None
    else if s[i + 1] != '\\' then
      if s[i + 1] != '\'' && s[i + 1] != '\r' && s[i + 1] != '\n' && s[i + 2] == '\'' then Some(i + 3) else None
    else if i + 3 < |s| && s[i + 2] != '\n' && s[i + 3] == '\'' then Some(i + 4)
    else if i + 5 < |s| && s[i + 2] == 'x' && Hex(s[i + 3]) && Hex(s[i + 4]) && s[i + 5] == '\'' then Some(i + 6)
    else if i + 4 < |s| && s[i + 2] == 'u' && s[i + 3] == '{' then
      var n := Run(s, i + 4, HexOrUnderscore);
      if 1 <= n <= 6 && i + 5 + n < |s| && s[i + 4 + n] == '}' && s[i + 5 + n] == '\'' then Some(i + 6 + n) else None
    else None
  }

  /** `_rust_non_code_end` as a function of the text and the offset. */
  function ScanAt(s: string, i: nat): (r: Scan)
    requires i < |s|
    ensures r.Token? ==> i + 2 <= r.end <= |s|
  {
    if Pair(s, i, '/', '/') then
      match Find(s, "\n", i + 2)
      case None => Token(|s|)
      case Some(n) => Token(n + 1)
    else if Pair(s, i, '/', '*') then
      match BlockEnd(s, i + 2, 1)
      case None => Bad(UnterminatedBlockComment)
      case Some(e) => Token(e)
    else if RawQuote(s, i).Some? then
      var quote := RawQuote(s, i).value;
      var hashes := quote - RawPrefix(s, i).value;
      match Find(s, Terminator(hashes), quote + 1)
      case None => Bad(UnterminatedRawString)
      case Some(e) => Token(e + hashes + 1)
    else if s[i] == '"' then
      match StringEnd(s, i + 1)
      case None => Bad(UnterminatedString)
      case Some(e) => Token(e)
    else
      match CharEnd(s, i)
      case None => Code
      case Some(e) => Token(e)
  }

  /** The loop over a block comment whose text starts at `start`. */
  method BlockCommentEnd(source: string, start: nat) returns (end: Option<nat>)
    requires start <= |source|
    ensures end == BlockEnd(source, start, 1)
  {
    var commentDepth, cursor := 1, start;
    while cursor < |source| && commentDepth > 0
      invariant 0 <= commentDepth && start <= cursor <= |source|
      invariant BlockEnd(source, cursor, commentDepth) == BlockEnd(source, start, 1)
      decreases |source| - cursor
    {
      if Pair(source, cursor, '/', '*') {
        commentDepth, cursor := commentDepth + 1, cursor + 2;
      } else if Pair(source, cursor, '*', '/') {
        commentDepth, cursor := commentDepth - 1, cursor + 2;
      } else {
        cursor := cursor + 1;
      }
    }
    return if commentDepth > 0 then None else Some(cursor);
  }

  /** The loop over a quoted string whose text starts at `start`. */
  method QuotedEnd(source: string, start: nat) returns (end: Option<nat>)
    ensures end == StringEnd(source, start)
  {
    var cursor := start;
    while cursor < |source|
      invariant start <= cursor && StringEnd(source, cursor) == StringEnd(source, start)
    {
      if source[cursor] == '\\' {
        cursor := cursor + 2;
      } else if source[cursor] == '"' {
        return Some(cursor + 1);
      } else {
        cursor := cursor + 1;
      }
    }
    return None;
  }

  /** `_rust_non_code_end`. */
  method NonCodeEnd(source: string, index: nat) returns (r: Scan)
    requires index < |source|
    ensures r == ScanAt(source, index)
  {
    hide BlockEnd, StringEnd, CharEnd, RawQuote, Find, Terminator;
    if Pair(source, index, '/', '/') {
      var newline := Find(source, "\n", index + 2);
      return if newline.None? then Token(|source|) else Token(newline.value + 1);
    }
    if Pair(source, index, '/', '*') {
      var end := BlockCommentEnd(source, index + 2);
      return if end.None? then Bad(UnterminatedBlockComment) else Token(end.value);
    }
    var quote := RawQuote(source, index);
    if quote.Some? {
      var hashes := quote.value - RawPrefix(source, index).value;
      var end := Find(source, Terminator(hashes), quote.value + 1);
      return if end.None? then Bad(UnterminatedRawString) else Token(end.value + hashes + 1);
    }
    if source[index] == '"' {
      var end := QuotedEnd(source, index + 1);
      return if end.None? then Bad(UnterminatedString) else Token(end.value);
    }
    var literal := CharEnd(source, index);
    return if literal.None? then Code else Token(literal.value);
  }

  // ----- what a string literal is, without the scan -----

  /** How many backslashes stand immediately before `p`, looking back no further than `from`. */
  function Escapes(s: string, from: nat, p: nat): nat
    requires from <= p <= |s|
  {
    if p > from && s[p - 1] == '\\' then 1 + Escapes(s, from, p - 1) else 0
  }

  predicate ClosingQuote(s: string, from: nat, p: nat)
    requires from <= p < |s|
  {
    s[p] == '"' && Escapes(s, from, p) % 2 == 0
  }

  /** The scan by pairs finds the first quote that an even number of backslashes precedes. */
  lemma {:induction false} StringEndsAtFirstUnescapedQuote(s: string, from: nat, c: nat)
    requires from <= c
    requires c <= |s| ==> Escapes(s, from, c) % 2 == 0
    ensures var r := StringEnd(s, c);
            && (r.Some? ==> ClosingQuote(s, from, r.value - 1))
            && (forall p :: c <= p < (if r.Some? then r.value - 1 else |s|) ==> !ClosingQuote(s, from, p))
    decreases |s| - c
  {
    if c >= |s| || s[c] == '"' || (s[c] == '\\' && c + 1 == |s|) {
    } else if s[c] == '\\' {
      assert Escapes(s, from, c + 1) == 1 + Escapes(s, from, c);
      assert c + 2 <= |s| && Escapes(s, from, c + 2) == if s[c + 1] == '\\' then 1 + Escapes(s, from, c + 1) else 0;
      StringEndsAtFirstUnescapedQuote(s, from, c + 2);
    } else {
      StringEndsAtFirstUnescapedQuote(s, from, c + 1);
    }
  }

  // ----- what a block comment is, without the counter -----

  /** The text of a block comment as a tree: characters and nested comments. */
  datatype Body = Empty | Plain(rest: Body) | Nested(inner: Body, rest: Body)

  /** Where reading `b` from offset `c` ends, if the text at `c` has that shape. */
  function BodyEnd(s: string, c: nat, b: Body): (r: Option<nat>)
    requires c <= |s|
    ensures r.Some? ==> c <= r.value <= |s|
    decreases b
  {
    match b
    case Empty => Some(c)
    case Plain(rest) =>
      if c < |s| && !Pair(s, c, '/', '*') && !Pair(s, c, '*', '/') then BodyEnd(s, c + 1, rest) else None
    case Nested(inner, rest) =>
      if !Pair(s, c, '/', '*') then None
      else match BodyEnd(s, c + 2, inner)
        case None => None
        case Some(m) => if Pair(s, m, '*', '/') then BodyEnd(s, m + 2, rest) else None
  }

  lemma BlockIsOpen(s: string, c: nat, depth: nat)
    requires c <= |s| && depth > 0 && BlockEnd(s, c, depth).Some?
    ensures c < |s|
  {
  }

  /** Counting open comments reads a well-nested body and its closing mark. */
  lemma {:induction false} CommentHasBody(s: string, c: nat, depth: nat) returns (b: Body, m: nat)
    requires c <= |s| && depth > 0 && BlockEnd(s, c, depth).Some?
    ensures BodyEnd(s, c, b) == Some(m) && Pair(s, m, '*', '/')
    ensures BlockEnd(s, c, depth) == BlockEnd(s, m + 2, depth - 1)
    decreases |s| - c
  {
    BlockIsOpen(s, c, depth);
    BlockStep(s, c, depth);
    hide BlockEnd;
    if Pair(s, c, '/', '*') {
      var inner, m1 := CommentHasBody(s, c + 2, depth + 1);
      var rest, m2 := CommentHasBody(s, m1 + 2, depth);
      b, m := Nested(inner, rest), m2;
    } else if Pair(s, c, '*', '/') {
      b, m := Empty, c;
    } else {
      var rest, m1 := CommentHasBody(s, c + 1, depth);
      b, m := Plain(rest), m1;
    }
  }

  lemma BlockStep(s: string, c: nat, depth: nat)
    requires c < |s| && depth > 0
    ensures BlockEnd(s, c, depth) ==
            if Pair(s, c, '/', '*') then BlockEnd(s, c + 2, depth + 1)
            else if Pair(s, c, '*', '/') then BlockEnd(s, c + 2, depth - 1)
            else BlockEnd(s, c + 1, depth)
  {
  }

  lemma {:induction false} BodyIsSkipped(s: string, c: nat, depth: nat, b: Body, m: nat)
    requires c <= |s| && depth > 0 && BodyEnd(s, c, b) == Some(m) && Pair(s, m, '*', '/')
    ensures BlockEnd(s, c, depth) == BlockEnd(s, m + 2, depth - 1)
    decreases b
  {
    hide BlockEnd;
    match b
    case Empty => BlockStep(s, c, depth);
    case Plain(rest) =>
      BodyIsSkipped(s, c + 1, depth, rest, m);
      BlockStep(s, c, depth);
    case Nested(inner, rest) =>
      var m1 := BodyEnd(s, c + 2, inner).value;
      assert Pair(s, c, '/', '*') && Pair(s, m1, '*', '/') && BodyEnd(s, m1 + 2, rest) == Some(m);
      hide BodyEnd;
      BodyIsSkipped(s, c + 2, depth + 1, inner, m1);
      BodyIsSkipped(s, m1 + 2, depth, rest, m);
      BlockStep(s, c, depth);
  }

  /** The text from `i` to `m + 2` is a comment with body `b`. */
  predicate IsComment(s: string, i: nat, b: Body, m: nat)
  {
    Pair(s, i, '/', '*') && BodyEnd(s, i + 2, b) == Some(m) && Pair(s, m, '*', '/')
  }

  /** A block comment opened at `i` is closed by the mark at `m` exactly when the text between
      them is a well-nested body. */
  lemma CommentIsWellNested(s: string, i: nat, m: nat)
    requires Pair(s, i, '/', '*')
    ensures ScanAt(s, i) == Token(m + 2) <==> exists b :: IsComment(s, i, b, m)
  {
    if ScanAt(s, i) == Token(m + 2) {
      var b, m1 := CommentHasBody(s, i + 2, 1);
      assert IsComment(s, i, b, m);
    }
    if exists b :: IsComment(s, i, b, m) {
      var b :| IsComment(s, i, b, m);
      BodyIsSkipped(s, i + 2, 1, b, m);
    }
  }

  // ----- a token depends only on its own characters -----

  lemma RunLocal(s: string, r: string, p: nat, kind: char -> bool)
    requires p <= |s| && p <= |r| && p + Run(s, p, kind) < |r|
    requires Agree(s, r, p, p + Run(s, p, kind) + 1)
    ensures Run(r, p, kind) == Run(s, p, kind)
  {
  }

  lemma RawQuoteLocal(s: string, r: string, i: nat)
    requires i < |s| && i < |r| && RawQuote(s, i).Some? && Agree(s, r, i, RawQuote(s, i).value + 1)
    ensures RawQuote(r, i) == RawQuote(s, i)
  {
    RunLocal(s, r, RawPrefix(s, i).value, Hash);
  }

  lemma CharEndLocal(s: string, r: string, i: nat)
    requires i < |s| && i < |r| && CharEnd(s, i).Some? && Agree(s, r, i, CharEnd(s, i).value)
    ensures CharEnd(r, i) == CharEnd(s, i)
  {
    if s[i + 1] == '\\' && s[i + 3] == '{' {
      RunLocal(s, r, i + 4, HexOrUnderscore);
    }
  }

  lemma {:induction false} BlockEndLocal(s: string, r: string, c: nat, depth: nat)
    requires c <= |s| && BlockEnd(s, c, depth).Some? && Agree(s, r, c, BlockEnd(s, c, depth).value)
    ensures BlockEnd(r, c, depth) == BlockEnd(s, c, depth)
    decreases |s| - c
  {
    if depth == 0 {
    } else if Pair(s, c, '/', '*') {
      BlockEndLocal(s, r, c + 2, depth + 1);
    } else if Pair(s, c, '*', '/') {
      BlockEndLocal(s, r, c + 2, depth - 1);
    } else {
      BlockEndLocal(s, r, c + 1, depth);
      assert c + 1 < BlockEnd(s, c, depth).value;
    }
  }

  lemma {:induction false} StringEndLocal(s: string, r: string, c: nat)
    requires StringEnd(s, c).Some? && Agree(s, r, c, StringEnd(s, c).value)
    ensures StringEnd(r, c) == StringEnd(s, c)
    decreases |s| - c
  {
    if s[c] == '"' {
    } else if s[c] == '\\' {
      StringEndLocal(s, r, c + 2);
    } else {
      StringEndLocal(s, r, c + 1);
    }
  }

  lemma OccursLocal(s: string, r: string, pat: string, lo: nat, hi: nat, j: nat)
    requires Agree(s, r, lo, hi) && lo <= j && j + |pat| <= hi
    ensures OccursAt(s, pat, j) == OccursAt(r, pat, j)
  {
    assert s[j..j + |pat|] == r[j..j + |pat|];
  }

  lemma FindLocal(s: string, r: string, pat: string, from: nat)
    requires from <= |s| && from <= |r|
    requires Find(s, pat, from).Some? && Agree(s, r, from, Find(s, pat, from).value + |pat|)
    ensures Find(r, pat, from) == Find(s, pat, from)
  {
    var n := Find(s, pat, from).value;
    forall j | from <= j <= n ensures OccursAt(r, pat, j) == OccursAt(s, pat, j) {
      OccursLocal(s, r, pat, from, n + |pat|, j);
    }
  }

  lemma LineCommentLocal(s: string, r: string, i: nat)
    requires i < |s| && ScanAt(s, i).Token? && Agree(s, r, i, ScanAt(s, i).end)
    requires ScanAt(s, i).end < |s| || |r| == |s|
    requires Pair(s, i, '/', '/')
    ensures ScanAt(r, i) == ScanAt(s, i)
  {
    hide BlockEnd, StringEnd, CharEnd, RawQuote;
    var e := ScanAt(s, i).end;
    if Find(s, "\n", i + 2).Some? {
      FindLocal(s, r, "\n", i + 2);
    } else if Find(r, "\n", i + 2).Some? {
      OccursLocal(s, r, "\n", i + 2, e, Find(r, "\n", i + 2).value);
    }
  }

  lemma BlockCommentLocal(s: string, r: string, i: nat)
    requires i < |s| && ScanAt(s, i).Token? && Agree(s, r, i, ScanAt(s, i).end)
    requires ScanAt(s, i).end < |s| || |r| == |s|
    requires Pair(s, i, '/', '*')
    ensures ScanAt(r, i) == ScanAt(s, i)
  {
    BlockEndLocal(s, r, i + 2, 1);
    hide BlockEnd, StringEnd, CharEnd, RawQuote, Find;
  }

  lemma RawStringLocal(s: string, r: string, i: nat)
    requires i < |s| && ScanAt(s, i).Token? && Agree(s, r, i, ScanAt(s, i).end)
    requires ScanAt(s, i).end < |s| || |r| == |s|
    requires RawQuote(s, i).Some?
    ensures ScanAt(r, i) == ScanAt(s, i)
  {
    hide BlockEnd, StringEnd, CharEnd, Find, Terminator;
    RawQuoteLocal(s, r, i);
    FindLocal(s, r, Terminator(RawQuote(s, i).value - RawPrefix(s, i).value), RawQuote(s, i).value + 1);
    assert RawPrefix(r, i) == RawPrefix(s, i);
  }

  lemma StringLocal(s: string, r: string, i: nat)
    requires i < |s| && ScanAt(s, i).Token? && Agree(s, r, i, ScanAt(s, i).end)
    requires ScanAt(s, i).end < |s| || |r| == |s|
    requires s[i] == '"'
    ensures ScanAt(r, i) == ScanAt(s, i)
  {
    StringEndLocal(s, r, i + 1);
    hide BlockEnd, StringEnd, CharEnd, Find;
  }

  lemma CharLocal(s: string, r: string, i: nat)
    requires i < |s| && ScanAt(s, i).Token? && Agree(s, r, i, ScanAt(s, i).end)
    requires ScanAt(s, i).end < |s| || |r| == |s|
    requires CharEnd(s, i).Some?
    ensures ScanAt(r, i) == ScanAt(s, i)
  {
    CharEndLocal(s, r, i);
    hide BlockEnd, StringEnd, Find, CharEnd;
  }

  /** A token that starts at `i` in `s` starts and ends at the same offsets in any text that agrees
      with `s` on the token; a token at the very end needs texts of one length, because a line
      comment may be closed by the end of the text. */
  lemma TokenLocal(s: string, r: string, i: nat)
    requires i < |s| && ScanAt(s, i).Token? && Agree(s, r, i, ScanAt(s, i).end)
    requires ScanAt(s, i).end < |s| || |r| == |s|
    ensures ScanAt(r, i) == ScanAt(s, i)
  {
    hide BlockEnd, StringEnd, CharEnd, RawQuote, Find;
    if Pair(s, i, '/', '/') {
      LineCommentLocal(s, r, i);
    } else if Pair(s, i, '/', '*') {
      BlockCommentLocal(s, r, i);
    } else if RawQuote(s, i).Some? {
      RawStringLocal(s, r, i);
    } else if s[i] == '"' {
      StringLocal(s, r, i);
    } else {
      CharLocal(s, r, i);
    }
  }

  /** Code stays code in any text that agrees with `s` up to a line break or up to its own end:
      no opening of a comment or literal contains a line break. */
  lemma CodeLocal(s: string, r: string, i: nat, hi: nat)
    requires i < hi && i < |s| && ScanAt(s, i).Code? && Agree(s, r, i, hi)
    requires hi == |r| || r[hi - 1] == '\n'
    ensures ScanAt(r, i).Code?
  {
    hide BlockEnd, StringEnd, Find, RawQuote, CharEnd;
    if RawQuote(r, i).Some? {
      RawQuoteBack(s, r, i, hi);
    } else if CharEnd(r, i).Some? {
      CharEndBack(s, r, i, hi);
    }
  }

  lemma RawQuoteBack(s: string, r: string, i: nat, hi: nat)
    requires i < hi && i < |s| && Agree(s, r, i, hi) && (hi == |r| || r[hi - 1] == '\n')
    requires i < |r| && RawQuote(r, i).Some?
    ensures RawQuote(s, i).Some?
  {
    var quote := RawQuote(r, i).value;
    assert forall j :: i <= j <= quote ==> r[j] != '\n';
    RawQuoteLocal(r, s, i);
  }

  lemma CharEndBack(s: string, r: string, i: nat, hi: nat)
    requires i < hi && i < |s| && Agree(s, r, i, hi) && (hi == |r| || r[hi - 1] == '\n')
    requires i < |r| && CharEnd(r, i).Some?
    ensures CharEnd(s, i).Some?
  {
    NoBreakInChar(r, i);
    CharEndLocal(r, s, i);
  }

  lemma NoBreakInChar(s: string, i: nat)
    requires i < |s| && CharEnd(s, i).Some?
    ensures forall j :: i <= j < CharEnd(s, i).value ==> s[j] != '\n'
  {
    if s[i + 1] == '\\' && s[i + 3] == '{' {
      var n := Run(s, i + 4, HexOrUnderscore);
      assert forall j :: i + 4 <= j < i + 4 + n ==> HexOrUnderscore(s[j]);
    }
  }
}
