/** What comments and literals are, as texts, and that the lexer finds exactly these. */
module RustTokens {
  import opened Prelude
  import opened TextFacts
  import opened RustLexer

  // ----- the texts -----

  /** Two slashes and a line; only at the end of the source (`last`) may the line break be missing. */
  ghost predicate LineComment(t: string, last: bool)
  {
    exists line :: '\n' !in line && (t == "//" + line + "\n" || (last && t == "//" + line))
  }

  function Hashes(n: nat): (t: string)
    ensures |t| == n && forall j :: 0 <= j < n ==> t[j] == '#'
  {
    seq(n, _ => '#')
  }

  predicate RawLetters(letters: string) { letters == "r" || letters == "br" }

  function RawOpening(letters: string, hashes: nat): string { letters + Hashes(hashes) + "\"" }

  function RawClosing(hashes: nat): string { "\"" + Hashes(hashes) }

  /** A raw string runs from its opening to the first quote followed by as many hashes. */
  ghost predicate RawString(t: string)
  {
    exists letters, hashes: nat, body :: RawText(t, letters, hashes, body)
  }

  ghost predicate RawText(t: string, letters: string, hashes: nat, body: string)
  {
    && RawLetters(letters) && hashes <= 255 && EndsAtFirst(body, RawClosing(hashes))
    && t == RawOpening(letters, hashes) + body + RawClosing(hashes)
  }

  const HEX_DIGITS := "0123456789abcdefABCDEF"

  /** One character, an escaped one, a byte in two hexadecimal digits, or a code point in one to six. */
  ghost predicate CharBody(b: string)
  {
    || (|b| == 1 && b[0] !in "\\'\r\n")
    || (|b| == 2 && b[0] == '\\' && b[1] != '\n')
    || (|b| == 4 && b[0] == '\\' && b[1] == 'x' && b[2] in HEX_DIGITS && b[3] in HEX_DIGITS)
    || exists digits :: CodePoint(b, digits)
  }

  ghost predicate CodePoint(b: string, digits: string)
  {
    b == "\\u{" + digits + "}" && 1 <= |digits| <= 6 && forall c :: c in digits ==> c in HEX_DIGITS + "_"
  }

  ghost predicate CharLiteral(t: string) { exists body :: CharBody(body) && t == "'" + body + "'" }

  /** From one quote to the next that no odd number of backslashes precedes. */
  ghost predicate Quoted(s: string, i: nat, e: nat)
  {
    i + 2 <= e <= |s| && s[i] == '"' && ClosingQuote(s, i + 1, e - 1) && NotClosed(s, i + 1, e - 1)
  }

  ghost predicate NotClosed(s: string, from: nat, to: nat)
    requires to <= |s|
  {
    forall p :: from <= p < to ==> !ClosingQuote(s, from, p)
  }

  ghost predicate BlockComment(s: string, i: nat, e: nat) { e >= 2 && Commented(s, i, e - 2) }

  ghost predicate Commented(s: string, i: nat, m: nat) { exists b :: IsComment(s, i, b, m) }

  /** The text from `i` to `e` is a comment or literal. */
  ghost predicate IsToken(s: string, i: nat, e: nat)
  {
    i < e <= |s| &&
    ( || LineComment(s[i..e], e == |s|)
      || BlockComment(s, i, e)
      || RawString(s[i..e])
      || Quoted(s, i, e)
      || CharLiteral(s[i..e]))
  }

  // ----- line comments -----

  lemma BreakAt(s: string, j: nat)
    ensures OccursAt(s, "\n", j) <==> j < |s| && s[j] == '\n'
  {
    if j < |s| {
      assert s[j..j + 1] == [s[j]];
    }
  }

  lemma PairAt(s: string, i: nat, a: char, b: char)
    ensures Pair(s, i, a, b) <==> OccursAt(s, [a, b], i)
  {
    if i + 2 <= |s| {
      assert s[i..i + 2] == [s[i], s[i + 1]];
    }
  }

  lemma LineBreakFound(s: string, from: nat, n: nat)
    requires from <= |s|
    ensures Find(s, "\n", from) == Some(n) <==>
            from <= n < |s| && s[n] == '\n' && forall j :: from <= j < n ==> s[j] != '\n'
    ensures Find(s, "\n", from).None? <==> forall j :: from <= j < |s| ==> s[j] != '\n'
  {
    forall j: nat ensures OccursAt(s, "\n", j) <==> j < |s| && s[j] == '\n' {
      BreakAt(s, j);
    }
    hide OccursAt;
  }

  lemma LineCommentAt(s: string, i: nat, e: nat)
    requires i < e <= |s| && LineComment(s[i..e], e == |s|)
    ensures Pair(s, i, '/', '/') && ScanAt(s, i) == Token(e)
  {
    var line :| '\n' !in line && (s[i..e] == "//" + line + "\n" || (e == |s| && s[i..e] == "//" + line));
    var t := s[i..e];
    assert t[0] == s[i] && t[1] == s[i + 1];
    forall j | i + 2 <= j < i + 2 + |line| ensures s[j] != '\n' {
      assert s[j] == t[j - i] == line[j - i - 2];
    }
    if t == "//" + line + "\n" {
      assert s[e - 1] == t[|t| - 1] == '\n';
    }
    LineBreakFound(s, i + 2, e - 1);
  }

  lemma LineCommentFound(s: string, i: nat, e: nat)
    requires Pair(s, i, '/', '/') && ScanAt(s, i) == Token(e)
    ensures i < e <= |s| && LineComment(s[i..e], e == |s|)
  {
    var found := Find(s, "\n", i + 2);
    PairAt(s, i, '/', '/');
    assert s[i..i + 2] == ['/', '/'] == "//";
    LineBreakFound(s, i + 2, if found.Some? then found.value else 0);
    if found.Some? {
      var line := s[i + 2..e - 1];
      CutInThree(s, i, i + 2, e - 1, e);
      assert s[e - 1..e] == [s[e - 1]] == "\n";
    } else {
      var line := s[i + 2..];
      CutInThree(s, i, i + 2, e, e);
      assert s[i..e] == s[i..i + 2] + line;
    }
  }

  // ----- raw strings -----

  lemma OpeningChars(letters: string, hashes: nat)
    requires RawLetters(letters)
    ensures var t := RawOpening(letters, hashes);
            && |t| == |letters| + hashes + 1 && t[|letters| - 1] == 'r' && t[|t| - 1] == '"'
            && (|letters| == 2 ==> t[0] == 'b') && 1 <= |letters| <= 2
            && forall j :: |letters| <= j < |letters| + hashes ==> t[j] == '#'
  {
  }

  lemma RawQuoteAt(s: string, i: nat, letters: string, hashes: nat)
    requires RawLetters(letters) && hashes <= 255 && OccursAt(s, RawOpening(letters, hashes), i)
    ensures i < |s| && RawPrefix(s, i) == Some(i + |letters|) && RawQuote(s, i) == Some(i + |letters| + hashes)
  {
    var t := RawOpening(letters, hashes);
    OpeningChars(letters, hashes);
    hide RawOpening, RawLetters;
    forall j | i <= j < i + |t| ensures s[j] == t[j - i] {
      assert s[i..i + |t|][j - i] == s[j];
    }
    var p := i + |letters|;
    assert s[p - 1] == 'r' && s[p + hashes] == '"';
    RunIs(s, p, Hash, hashes);
  }

  lemma RawQuoteHas(s: string, i: nat) returns (letters: string, hashes: nat)
    requires i < |s| && RawQuote(s, i).Some?
    ensures RawLetters(letters) && hashes <= 255 && RawQuote(s, i).value == i + |letters| + hashes
    ensures RawPrefix(s, i) == Some(i + |letters|) && OccursAt(s, RawOpening(letters, hashes), i)
  {
    var p, q := RawPrefix(s, i).value, RawQuote(s, i).value;
    letters, hashes := s[i..p], q - p;
    assert s[p..q] == Hashes(hashes) && s[q..q + 1] == "\"";
    assert s[i..q + 1] == s[i..p] + s[p..q] + s[q..q + 1];
    if p == i + 1 {
      assert letters == [s[i]] == "r";
    } else {
      assert letters == [s[i], s[i + 1]] == "br";
    }
  }

  lemma TerminatorIsClosing(hashes: nat)
    ensures Terminator(hashes) == RawClosing(hashes)
  {
  }

  /** A raw string that opens at `i` and whose text starts at `b` is closed at `n`. */
  lemma RawTextIff(s: string, i: nat, b: nat, n: nat, letters: string, hashes: nat)
    requires OccursAt(s, RawOpening(letters, hashes), i) && RawLetters(letters) && hashes <= 255
    requires b == i + |RawOpening(letters, hashes)| <= n && n + hashes + 1 <= |s|
    ensures RawText(s[i..n + hashes + 1], letters, hashes, s[b..n]) <==> FirstAt(s, RawClosing(hashes), b, n)
  {
    var open, close, e := RawOpening(letters, hashes), RawClosing(hashes), n + hashes + 1;
    assert |close| == hashes + 1;
    hide RawOpening, RawClosing, EndsAtFirst, RawLetters;
    var body := s[b..n];
    assert s[i..e] == open + body + s[n..e];
    if s[i..e] == open + body + close {
      assert s[i..e][|open + body|..] == s[n..e];
      assert (open + body + close)[|open + body|..] == close;
    }
  }

  lemma RawTextParts(s: string, i: nat, e: nat, letters: string, hashes: nat, body: string)
    requires i < e <= |s| && RawText(s[i..e], letters, hashes, body)
    ensures OccursAt(s, RawOpening(letters, hashes), i) && RawLetters(letters) && hashes <= 255
    ensures var b, n := i + |RawOpening(letters, hashes)|, e - hashes - 1; b <= n && body == s[b..n]
  {
    var open, close := RawOpening(letters, hashes), RawClosing(hashes);
    assert |close| == hashes + 1;
    hide RawOpening, RawClosing, EndsAtFirst, RawLetters;
    var t := s[i..e];
    assert t[..|open|] == open == s[i..i + |open|];
    var piece := s[i + |open|..i + |open| + |body|];
    forall k | 0 <= k < |body| ensures piece[k] == body[k] {
      assert piece[k] == s[i + (|open| + k)] == t[|open| + k] == body[k];
    }
    assert piece == body;
  }

  /** The raw-string branch of the scanner. */
  lemma RawScan(s: string, i: nat)
    requires i < |s| && RawQuote(s, i).Some?
    ensures s[i] != '/' && s[i] != '"' && s[i] != '\''
    ensures var q, p := RawQuote(s, i).value, RawPrefix(s, i).value;
            var found := Find(s, Terminator(q - p), q + 1);
            ScanAt(s, i) == if found.None? then Bad(UnterminatedRawString) else Token(found.value + (q - p) + 1)
  {
    hide Find, Terminator, BlockEnd, StringEnd, CharEnd;
  }

  /** Where the scanner ends a raw string with a given opening. */
  lemma RawEnd(s: string, i: nat, letters: string, hashes: nat, b: nat, n: nat)
    requires i < |s| && RawPrefix(s, i) == Some(i + |letters|) && RawQuote(s, i) == Some(i + |letters| + hashes)
    requires b == i + |letters| + hashes + 1
    ensures ScanAt(s, i) == Token(n + hashes + 1) <==> FirstAt(s, RawClosing(hashes), b, n)
    ensures ScanAt(s, i).Token? || ScanAt(s, i) == Bad(UnterminatedRawString)
  {
    hide RawQuote, RawPrefix, RawClosing, Terminator, FirstAt, ScanAt, Find;
    RawScan(s, i);
    TerminatorIsClosing(hashes);
    FindIff(s, Terminator(hashes), b, n);
  }

  lemma RawStringAt(s: string, i: nat, e: nat)
    requires i < e <= |s| && RawString(s[i..e])
    ensures RawQuote(s, i).Some? && ScanAt(s, i) == Token(e)
  {
    hide RawQuote, RawPrefix, RawText, RawOpening, RawClosing, RawLetters, FirstAt, OccursAt, ScanAt;
    var letters, hashes: nat, body :| RawText(s[i..e], letters, hashes, body);
    RawTextParts(s, i, e, letters, hashes, body);
    OpeningChars(letters, hashes);
    var b, n := i + |RawOpening(letters, hashes)|, e - hashes - 1;
    RawQuoteAt(s, i, letters, hashes);
    RawTextIff(s, i, b, n, letters, hashes);
    RawEnd(s, i, letters, hashes, b, n);
  }

  lemma RawStringFound(s: string, i: nat, e: nat)
    requires i < |s| && RawQuote(s, i).Some? && ScanAt(s, i) == Token(e)
    ensures i < e <= |s| && RawString(s[i..e])
  {
    hide RawQuote, RawPrefix, RawText, RawOpening, RawClosing, RawLetters, FirstAt, OccursAt, ScanAt, Find, Terminator;
    RawScan(s, i);
    var letters, hashes := RawQuoteHas(s, i);
    OpeningChars(letters, hashes);
    var b, n := i + |RawOpening(letters, hashes)|, e - hashes - 1;
    RawEnd(s, i, letters, hashes, b, n);
    RawTextIff(s, i, b, n, letters, hashes);
  }

  // ----- character literals -----

  lemma HexDigits(c: char)
    ensures Hex(c) <==> c in HEX_DIGITS
  {
  }

  /** The four shapes, by offsets. */
  ghost predicate CharShape(s: string, i: nat, e: nat)
  {
    && i + 3 <= e <= |s| && s[i] == '\'' && s[e - 1] == '\''
    && ( || (e == i + 3 && s[i + 1] != '\\' && s[i + 1] != '\'' && s[i + 1] != '\r' && s[i + 1] != '\n')
         || (e == i + 4 && s[i + 1] == '\\' && s[i + 2] != '\n')
         || (e == i + 6 && s[i + 1] == '\\' && s[i + 2] == 'x' && Hex(s[i + 3]) && Hex(s[i + 4]))
         || (i + 7 <= e <= i + 12 && s[i + 1] == '\\' && s[i + 2] == 'u' && s[i + 3] == '{' && s[e - 2] == '}'
             && forall j :: i + 4 <= j < e - 2 ==> HexOrUnderscore(s[j])))
  }

  lemma CharEndIff(s: string, i: nat, e: nat)
    requires i < |s|
    ensures CharEnd(s, i) == Some(e) <==> CharShape(s, i, e)
  {
    hide Hex, Run;
    NoHex();
    if i + 7 <= e <= |s| && e <= i + 12 && s[e - 2] == '}' && forall j :: i + 4 <= j < e - 2 ==> HexOrUnderscore(s[j]) {
      RunIs(s, i + 4, HexOrUnderscore, e - 6 - i);
    }
  }

  lemma NoHex()
    ensures !HexOrUnderscore('}') && !Hex('\'')
  {
  }

  /** Between the quotes of a literal of that shape stands one of the four bodies. */
  lemma CharBodyOf(s: string, i: nat, e: nat)
    requires CharShape(s, i, e)
    ensures CharBody(s[i + 1..e - 1])
  {
    var b := s[i + 1..e - 1];
    assert forall j :: 0 <= j < |b| ==> b[j] == s[i + 1 + j];
    if e == i + 6 {
      HexDigits(s[i + 3]);
      HexDigits(s[i + 4]);
    } else if e > i + 6 {
      var digits := s[i + 4..e - 2];
      assert b == "\\u{" + digits + "}";
      forall c | c in digits ensures c in HEX_DIGITS + "_" {
        HexDigits(c);
      }
      assert CodePoint(b, digits);
    }
  }

  lemma CodePointDigit(c: char)
    ensures HexOrUnderscore(c) <==> c in HEX_DIGITS + "_"
  {
    HexDigits(c);
  }

  lemma CharShapeOf(s: string, i: nat, e: nat, b: string)
    requires i < e <= |s| && CharBody(b) && s[i..e] == "'" + b + "'"
    ensures CharShape(s, i, e)
  {
    if digits :| CodePoint(b, digits) {
      CodePointShape(s, i, e, b, digits);
    } else {
      ShortShape(s, i, e, b);
    }
  }

  lemma CharsBetween(s: string, i: nat, e: nat, b: string)
    requires i < e <= |s| && s[i..e] == "'" + b + "'"
    ensures e == i + |b| + 2 && s[i] == s[e - 1] == '\'' && forall j :: i + 1 <= j < e - 1 ==> s[j] == b[j - i - 1]
  {
    var t := s[i..e];
    assert forall j :: i <= j < e ==> s[j] == t[j - i];
  }

  lemma ShortShape(s: string, i: nat, e: nat, b: string)
    requires i < e <= |s| && CharBody(b) && s[i..e] == "'" + b + "'" && !exists d :: CodePoint(b, d)
    ensures CharShape(s, i, e)
  {
    CharsBetween(s, i, e, b);
    if |b| == 4 {
      HexDigits(b[2]);
      HexDigits(b[3]);
    }
  }

  lemma CodePointShape(s: string, i: nat, e: nat, b: string, digits: string)
    requires i < e <= |s| && s[i..e] == "'" + b + "'" && CodePoint(b, digits)
    ensures CharShape(s, i, e)
  {
    CharsBetween(s, i, e, b);
    forall j | i + 4 <= j < e - 2 ensures HexOrUnderscore(s[j]) {
      assert s[j] == b[j - i - 1] == digits[j - i - 4];
      CodePointDigit(s[j]);
    }
    hide Hex;
    assert b[0] == '\\' && b[1] == 'u' && b[2] == '{' && b[|b| - 1] == '}';
  }

  lemma CharLiteralIff(s: string, i: nat, e: nat)
    requires i < |s|
    ensures CharEnd(s, i) == Some(e) <==> i < e <= |s| && CharLiteral(s[i..e])
  {
    hide CharEnd, CharBody;
    CharEndIff(s, i, e);
    if CharEnd(s, i) == Some(e) {
      CharBodyOf(s, i, e);
      assert s[i..e] == "'" + s[i + 1..e - 1] + "'";
    }
    if i < e <= |s| && CharLiteral(s[i..e]) {
      var b :| CharBody(b) && s[i..e] == "'" + b + "'";
      CharShapeOf(s, i, e, b);
    }
  }

  // ----- quoted strings and block comments -----

  lemma QuotedIff(s: string, i: nat, e: nat)
    requires i < |s|
    ensures s[i] == '"' && StringEnd(s, i + 1) == Some(e) <==> Quoted(s, i, e)
  {
    hide ClosingQuote;
    if s[i] == '"' {
      StringEndsAtFirstUnescapedQuote(s, i + 1, i + 1);
      var end := StringEnd(s, i + 1);
      if Quoted(s, i, e) {
        assert ClosingQuote(s, i + 1, e - 1);
      }
    }
  }

  lemma BlockCommentIff(s: string, i: nat, e: nat)
    requires i < |s|
    ensures Pair(s, i, '/', '*') && ScanAt(s, i) == Token(e) <==> BlockComment(s, i, e)
  {
    hide ScanAt, BodyEnd;
    if Pair(s, i, '/', '*') && e >= 2 {
      CommentIsWellNested(s, i, e - 2);
    }
  }

  // ----- all tokens -----

  /** Which branch of the scanner an offset takes. */
  lemma Branches(s: string, i: nat)
    requires i < |s|
    ensures RawQuote(s, i).Some? ==> s[i] == 'r' || s[i] == 'b'
    ensures s[i] == '"' ==> ScanAt(s, i) == var end := StringEnd(s, i + 1);
                            if end.None? then Bad(UnterminatedString) else Token(end.value)
    ensures s[i] != '"' && RawQuote(s, i).None? && !Pair(s, i, '/', '/') && !Pair(s, i, '/', '*') ==>
              ScanAt(s, i) == if CharEnd(s, i).None? then Code else Token(CharEnd(s, i).value)
    ensures Pair(s, i, '/', '/') ==> ScanAt(s, i).Token?
    ensures Pair(s, i, '/', '*') ==> ScanAt(s, i).Token? || ScanAt(s, i) == Bad(UnterminatedBlockComment)
  {
    hide Find, Terminator, BlockEnd, StringEnd, CharEnd;
  }

  lemma IsTokenIsScanned(s: string, i: nat, e: nat)
    requires i < |s| && IsToken(s, i, e)
    ensures ScanAt(s, i) == Token(e)
  {
    hide ScanAt, LineComment, BlockComment, RawString, Quoted, CharLiteral, CharEnd, StringEnd, RawQuote;
    Branches(s, i);
    BlockCommentIff(s, i, e);
    QuotedIff(s, i, e);
    CharLiteralIff(s, i, e);
    if LineComment(s[i..e], e == |s|) {
      LineCommentAt(s, i, e);
    } else if RawString(s[i..e]) {
      RawStringAt(s, i, e);
    }
  }

  lemma ScannedIsToken(s: string, i: nat, e: nat)
    requires i < |s| && ScanAt(s, i) == Token(e)
    ensures IsToken(s, i, e)
  {
    hide ScanAt, LineComment, BlockComment, RawString, Quoted, CharLiteral, CharEnd, StringEnd, RawQuote;
    Branches(s, i);
    BlockCommentIff(s, i, e);
    QuotedIff(s, i, e);
    CharLiteralIff(s, i, e);
    if Pair(s, i, '/', '/') {
      LineCommentFound(s, i, e);
    } else if RawQuote(s, i).Some? {
      RawStringFound(s, i, e);
    }
  }

  /** The lexer finds a comment or literal exactly where there is one, to its end. */
  lemma TokenIff(s: string, i: nat, e: nat)
    requires i < |s|
    ensures ScanAt(s, i) == Token(e) <==> IsToken(s, i, e)
  {
    hide ScanAt, IsToken;
    if ScanAt(s, i) == Token(e) {
      ScannedIsToken(s, i, e);
    }
    if IsToken(s, i, e) {
      IsTokenIsScanned(s, i, e);
    }
  }

  ghost predicate OpensRaw(s: string, i: nat, letters: string, hashes: nat)
  {
    RawLetters(letters) && hashes <= 255 && OccursAt(s, RawOpening(letters, hashes), i)
  }

  /** What has to be closed starts at `i`. */
  ghost predicate Opens(s: string, i: nat, error: LexError)
  {
    match error
    case UnterminatedBlockComment => OccursAt(s, "/*", i)
    case UnterminatedRawString => exists letters, hashes: nat :: OpensRaw(s, i, letters, hashes)
    case UnterminatedString => OccursAt(s, "\"", i)
  }

  lemma OpensIff(s: string, i: nat)
    requires i < |s|
    ensures Opens(s, i, UnterminatedBlockComment) <==> Pair(s, i, '/', '*')
    ensures Opens(s, i, UnterminatedRawString) <==> RawQuote(s, i).Some?
    ensures Opens(s, i, UnterminatedString) <==> s[i] == '"'
  {
    hide RawQuote, RawOpening, RawLetters;
    PairAt(s, i, '/', '*');
    assert ['/', '*'] == "/*";
    assert s[i..i + 1] == [s[i]];
    if RawQuote(s, i).Some? {
      var letters, hashes := RawQuoteHas(s, i);
      assert OpensRaw(s, i, letters, hashes);
    }
    if Opens(s, i, UnterminatedRawString) {
      var letters, hashes: nat :| OpensRaw(s, i, letters, hashes);
      RawQuoteAt(s, i, letters, hashes);
    }
  }

  lemma RawIsTokenOrBad(s: string, i: nat)
    requires i < |s| && RawQuote(s, i).Some?
    ensures s[i] != '/' && s[i] != '"' && (ScanAt(s, i).Token? || ScanAt(s, i) == Bad(UnterminatedRawString))
  {
    hide Find, Terminator, RawQuote, RawPrefix, ScanAt;
    RawScan(s, i);
  }

  /** It fails exactly where something is opened that never ends; everything else is code. */
  lemma BadIff(s: string, i: nat, error: LexError)
    requires i < |s|
    ensures ScanAt(s, i) == Bad(error) <==> Opens(s, i, error) && !exists e: nat :: IsToken(s, i, e)
  {
    hide ScanAt, IsToken, Opens, RawQuote, CharEnd, StringEnd;
    OpensIff(s, i);
    Branches(s, i);
    if RawQuote(s, i).Some? {
      RawIsTokenOrBad(s, i);
    }
    forall e: nat ensures ScanAt(s, i) == Token(e) <==> IsToken(s, i, e) {
      TokenIff(s, i, e);
    }
    if ScanAt(s, i).Token? {
      assert IsToken(s, i, ScanAt(s, i).end);
    }
  }

  /** A line comment ends with its line, at the end of the text if no line break follows. */
  lemma LineCommentEnds(before: string, line: string, rest: string)
    requires '\n' !in line
    ensures var s := before + "//" + line + "\n" + rest; ScanAt(s, |before|) == Token(|before| + |line| + 3)
    ensures var s := before + "//" + line; ScanAt(s, |before|) == Token(|before| + |line| + 2)
  {
    hide ScanAt;
    var i, s, z := |before|, before + "//" + line + "\n" + rest, before + "//" + line;
    assert s[i..i + |line| + 3] == "//" + line + "\n" && z[i..] == "//" + line;
    LineCommentAt(s, i, i + |line| + 3);
    assert z[i..|z|] == z[i..];
    LineCommentAt(z, i, |z|);
  }
}
