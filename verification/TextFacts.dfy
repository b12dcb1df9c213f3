/** What splitting, joining and stripping do to a text. */
module TextFacts {
  import opened Prelude

  predicate AllSpace(s: string) { forall i :: 0 <= i < |s| ==> IsSpace(s[i]) }

  /** The characters of a text that are not white space, in order. */
  function Ink(s: string): string
  {
    if s == [] then [] else (if IsSpace(s[0]) then [] else [s[0]]) + Ink(s[1..])
  }

  lemma InkFirst(c: char, s: string)
    ensures Ink([c] + s) == (if IsSpace(c) then [] else [c]) + Ink(s)
  {
    hide IsSpace;
    assert ([c] + s)[1..] == s;
  }

  lemma {:induction false} InkConcat(a: string, b: string)
    ensures Ink(a + b) == Ink(a) + Ink(b)
  {
    if a == [] {
      assert a + b == b;
    } else {
      hide IsSpace, Ink;
      var c, rest := a[0], a[1..];
      InkConcat(rest, b);
      InkFirst(c, rest + b);
      InkFirst(c, rest);
      assert a + b == [c] + (rest + b) && a == [c] + rest;
      var head := if IsSpace(c) then [] else [c];
      assert head + (Ink(rest) + Ink(b)) == head + Ink(rest) + Ink(b);
    }
  }

  lemma {:induction false} InkOfSpace(s: string)
    requires AllSpace(s)
    ensures Ink(s) == []
  {
    hide IsSpace;
    if s == [] {
    } else {
      InkOfSpace(s[1..]);
    }
  }

  lemma {:induction false} TrimEndCuts(s: string)
    ensures TrimEnd(s) <= s && AllSpace(s[|TrimEnd(s)|..])
  {
    hide IsSpace;
    if s == [] || !IsSpace(s[|s| - 1]) {
    } else {
      var init := s[..|s| - 1];
      TrimEndCuts(init);
      assert s[|TrimEnd(init)|..] == init[|TrimEnd(init)|..] + [s[|s| - 1]];
    }
  }

  lemma LeadingSpace(s: string)
    ensures AllSpace(s[..Run(s, 0, IsSpace)])
  {
    hide IsSpace, Run;
  }

  /** Stripping removes white space at both ends and nothing else. */
  lemma StripCuts(s: string) returns (a: string, b: string)
    ensures s == a + Strip(s) + b && AllSpace(a) && AllSpace(b)
  {
    hide IsSpace, TrimEnd, Run, AllSpace;
    var n := Run(s, 0, IsSpace);
    var rest := s[n..];
    LeadingSpace(s);
    TrimEndCuts(rest);
    a, b := s[..n], rest[|TrimEnd(rest)|..];
    assert rest == TrimEnd(rest) + b;
  }

  /** A text is all white space exactly when stripping leaves nothing. */
  lemma BlankIffStripped(s: string)
    ensures AllSpace(s) <==> Strip(s) == []
  {
    hide Strip, IsSpace;
    var a, b := StripCuts(s);
    if Strip(s) != [] {
      assert s[|a|] == Strip(s)[0];
    }
  }

  lemma StripKeepsInk(s: string)
    ensures Ink(Strip(s)) == Ink(s)
  {
    hide Strip, IsSpace;
    var a, b := StripCuts(s);
    InkConcat(a + Strip(s), b);
    InkConcat(a, Strip(s));
    InkOfSpace(a);
    InkOfSpace(b);
  }

  /** The ink of a list of texts. */
  function Inks(parts: seq<string>): string
  {
    if parts == [] then [] else Ink(parts[0]) + Inks(parts[1..])
  }

  lemma {:induction false} InksMore(parts: seq<string>, part: string)
    ensures Inks(parts + [part]) == Inks(parts) + Ink(part)
  {
    hide Ink;
    if parts == [] {
      assert Inks([part]) == Ink(part) + Inks([part][1..]);
      assert parts + [part] == [part];
    } else {
      InksMore(parts[1..], part);
      assert (parts + [part])[1..] == parts[1..] + [part];
      assert Ink(parts[0]) + (Inks(parts[1..]) + Ink(part)) == Ink(parts[0]) + Inks(parts[1..]) + Ink(part);
    }
  }

  lemma {:induction false} InkOfJoin(parts: seq<string>, sep: string)
    requires AllSpace(sep)
    ensures Ink(Join(parts, sep)) == Inks(parts)
  {
    hide IsSpace, Ink;
    if parts == [] {
      InkOfSpace([]);
    } else if |parts| == 1 {
      assert Inks(parts) == Ink(parts[0]) + [];
    } else {
      InkOfJoin(parts[1..], sep);
      InkOfSpace(sep);
      InkConcat(parts[0] + sep, Join(parts[1..], sep));
      InkConcat(parts[0], sep);
      assert Ink(parts[0]) + [] == Ink(parts[0]);
    }
  }

  // ----- splitting -----

  /** The first occurrence of `sep` in `part + sep` is the one at its end. */
  ghost predicate EndsAtFirst(part: string, sep: string)
  {
    forall j :: 0 <= j < |part| ==> !OccursAt(part + sep, sep, j)
  }

  /** A text splits into parts that join to it again, each but the last ended by the first separator
      from its start on, the last without one; so the parts are determined. */
  ghost predicate Splits(s: string, sep: string, parts: seq<string>)
  {
    && parts != [] && Join(parts, sep) == s
    && (forall k :: 0 <= k < |parts| - 1 ==> EndsAtFirst(parts[k], sep))
    && Lacks(parts[|parts| - 1], sep)
  }

  ghost predicate Lacks(s: string, sep: string) { forall j :: 0 <= j ==> !OccursAt(s, sep, j) }

  lemma JoinMore(part: string, rest: seq<string>, sep: string)
    requires rest != []
    ensures Join([part] + rest, sep) == part + sep + Join(rest, sep)
  {
    assert ([part] + rest)[1..] == rest;
  }

  lemma FirstPart(s: string, sep: string, i: nat)
    requires sep != [] && OccursAt(s, sep, i) && forall j :: 0 <= j < i ==> !OccursAt(s, sep, j)
    ensures s == s[..i] + sep + s[i + |sep|..] && EndsAtFirst(s[..i], sep)
  {
    var part := s[..i];
    assert part + sep == s[..i + |sep|];
    forall j | 0 <= j && OccursAt(part + sep, sep, j) ensures OccursAt(s, sep, j) {
      assert s[j..j + |sep|] == (part + sep)[j..j + |sep|];
    }
  }

  lemma OccursShifted(s: string, part: string, sep: string, from: nat, n: nat, j: nat)
    requires from <= n && n + |sep| <= |s| && part + sep == s[from..n + |sep|] && j < n - from
    ensures OccursAt(part + sep, sep, j) <==> OccursAt(s, sep, from + j)
  {
    var piece := s[from..n + |sep|];
    var a, b := piece[j..j + |sep|], s[from + j..from + j + |sep|];
    forall k | 0 <= k < |sep| ensures a[k] == b[k] {
      assert a[k] == piece[j + k] == s[from + (j + k)];
    }
    assert a == b;
  }

  /** The text from `from` up to `n` runs to its first separator. */
  ghost predicate FirstAt(s: string, sep: string, from: nat, n: nat)
  {
    from <= n && OccursAt(s, sep, n) && EndsAtFirst(s[from..n], sep)
  }

  /** A search stops at the first occurrence from its start on. */
  lemma FindIff(s: string, sep: string, from: nat, n: nat)
    requires from <= |s|
    ensures Find(s, sep, from) == Some(n) <==> FirstAt(s, sep, from, n)
  {
    if from <= n && OccursAt(s, sep, n) {
      var part := s[from..n];
      assert part + sep == s[from..n + |sep|];
      forall j: nat | j < |part| ensures OccursAt(part + sep, sep, j) <==> OccursAt(s, sep, from + j) {
        OccursShifted(s, part, sep, from, n, j);
      }
      hide OccursAt;
      assert forall j :: from <= j < n ==> (OccursAt(part + sep, sep, j - from) <==> OccursAt(s, sep, j));
    }
  }

  /** Three texts in a row, by their offsets. */
  lemma InARow(s: string, p: nat, e: nat, a: string, b: string, c: string)
    requires p <= e <= |s| && s[p..e] == a + b + c
    ensures var q, r := p + |a|, p + |a| + |b|;
            q <= r <= e && s[p..q] == a && s[q..r] == b && s[r..e] == c
  {
    var t, q, r := s[p..e], p + |a|, p + |a| + |b|;
    assert |t| == |a| + |b| + |c|;
    assert forall j :: p <= j < e ==> s[j] == t[j - p];
    assert forall j :: q <= j < r ==> s[j] == b[j - q];
    assert forall j :: r <= j < e ==> s[j] == c[j - r];
  }

  lemma CutInThree(s: string, p: nat, q: nat, r: nat, e: nat)
    requires p <= q <= r <= e <= |s|
    ensures s[p..e] == s[p..q] + s[q..r] + s[r..e]
  {
  }

  /** A run ends where its kind does. */
  lemma RunIs(s: string, p: nat, kind: char -> bool, n: nat)
    requires p + n <= |s| && (forall j :: p <= j < p + n ==> kind(s[j])) && (p + n < |s| ==> !kind(s[p + n]))
    ensures Run(s, p, kind) == n
  {
  }

  lemma {:induction false} SplitSplits(s: string, sep: string)
    requires sep != []
    ensures Splits(s, sep, Split(s, sep))
    decreases |s|
  {
    hide OccursAt, EndsAtFirst, Join;
    var at := Find(s, sep, 0);
    if at.None? {
      JoinOne(s, sep);
    } else {
      var i := at.value;
      FirstPart(s, sep, i);
      OccursInside(s, sep, i);
      var rest := s[i + |sep|..];
      SplitSplits(rest, sep);
      var parts := Split(rest, sep);
      JoinMore(s[..i], parts, sep);
      SplitsMore(s[..i], parts, sep);
    }
  }

  lemma JoinOne(s: string, sep: string)
    ensures Join([s], sep) == s
  {
  }

  lemma OccursInside(s: string, sep: string, i: nat)
    requires OccursAt(s, sep, i)
    ensures i + |sep| <= |s|
  {
  }

  lemma SplitsMore(part: string, parts: seq<string>, sep: string)
    requires parts != [] && EndsAtFirst(part, sep)
    requires forall k :: 0 <= k < |parts| - 1 ==> EndsAtFirst(parts[k], sep)
    ensures forall k :: 0 <= k < |parts| ==> EndsAtFirst(([part] + parts)[k], sep)
    ensures ([part] + parts)[|parts|] == parts[|parts| - 1]
  {
    hide EndsAtFirst;
  }

  /** Only one list of parts splits a text. */
  lemma {:induction false} SplitsIsUnique(s: string, sep: string, parts: seq<string>)
    requires sep != [] && Splits(s, sep, parts)
    ensures parts == Split(s, sep)
    decreases |parts|
  {
    if |parts| == 1 {
      assert parts == [s];
      assert Find(s, sep, 0).None?;
    } else {
      var part, rest := parts[0], parts[1..];
      var tail := Join(rest, sep);
      assert s == part + sep + tail;
      FirstOfJoined(part, sep, tail);
      assert s[..|part|] == part && s[|part| + |sep|..] == tail;
      hide OccursAt, EndsAtFirst, Join;
      assert Splits(tail, sep, rest);
      SplitsIsUnique(tail, sep, rest);
      assert parts == [part] + rest;
    }
  }

  lemma FirstOfJoined(part: string, sep: string, tail: string)
    requires sep != [] && EndsAtFirst(part, sep)
    ensures Find(part + sep + tail, sep, 0) == Some(|part|)
  {
    var s := part + sep + tail;
    assert s[|part|..|part| + |sep|] == sep;
    forall j | 0 <= j < |part| ensures !OccursAt(s, sep, j) {
      assert (part + sep)[j..j + |sep|] == s[j..j + |sep|];
      assert !OccursAt(part + sep, sep, j);
    }
    assert OccursAt(s, sep, |part|);
  }
}
