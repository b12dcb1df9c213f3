/** Result types and the few string facts shared by the models. */
module Prelude {

  datatype Option<+T> = None | Some(value: T)

  datatype Result<+T, +E> = Ok(value: T) | Err(error: E)

  function Min(a: nat, b: nat): nat { if a < b then a else b }

  /** `pat` occurs in `s` at offset `i`. */
  predicate OccursAt(s: string, pat: string, i: int)
  {
    0 <= i <= i + |pat| <= |s| && s[i..i + |pat|] == pat
  }

  /** `s.find(pat, from)`: the leftmost occurrence at or after `from`. */
  function Find(s: string, pat: string, from: nat): (r: Option<nat>)
    requires from <= |s|
    ensures r.Some? ==> from <= r.value && OccursAt(s, pat, r.value)
    ensures r.Some? ==> forall j :: from <= j < r.value ==> !OccursAt(s, pat, j)
    ensures r.None? ==> forall j :: from <= j ==> !OccursAt(s, pat, j)
    decreases |s| - from
  {
    if OccursAt(s, pat, from) then Some(from)
    else if from == |s| then None
    else Find(s, pat, from + 1)
  }

  /** The length of the longest run of characters of a kind starting at `p`. */
  function Run(s: string, p: nat, kind: char -> bool): (n: nat)
    requires p <= |s|
    ensures p + n <= |s|
    ensures forall j :: p <= j < p + n ==> kind(s[j])
    ensures p + n < |s| ==> !kind(s[p + n])
    decreases |s| - p
  {
    if p < |s| && kind(s[p]) then 1 + Run(s, p + 1, kind) else 0
  }

  /** `at` lists, in order, exactly the positions of `xs` whose elements are of a kind. */
  ghost predicate Picks<T(!new)>(xs: seq<T>, kind: T -> bool, at: seq<nat>)
  {
    && (forall i, j :: 0 <= i < j < |at| ==> at[i] < at[j])
    && (forall i :: 0 <= i < |at| ==> at[i] < |xs| && kind(xs[at[i]]))
    && (forall p: nat :: p < |xs| && kind(xs[p]) ==> p in at)
  }

  lemma NothingPicked<T(!new)>(kind: T -> bool)
    ensures Picks([], kind, [])
  {
  }

  lemma PicksMore<T(!new)>(xs: seq<T>, x: T, kind: T -> bool, at: seq<nat>)
    requires Picks(xs, kind, at)
    ensures Picks(xs + [x], kind, if kind(x) then at + [|xs|] else at)
  {
    var all, at' := xs + [x], if kind(x) then at + [|xs|] else at;
    assert forall i :: 0 <= i < |at| ==> at'[i] == at[i] && all[at[i]] == xs[at[i]];
    forall p: nat | p < |all| && kind(all[p]) ensures p in at' {
      if p == |xs| {
        assert at'[|at|] == p;
      } else {
        assert xs[p] == all[p];
        var i :| 0 <= i < |at| && at[i] == p;
        assert at'[i] == p;
      }
    }
  }

  /** Whitespace as `str.strip` and `\s` read it. */
  predicate IsSpace(c: char)
  {
    || '\t' <= c <= '\r'
    || '\U{1c}' <= c <= ' '
    || c == '\U{85}' || c == '\U{a0}' || c == '\U{1680}'
    || '\U{2000}' <= c <= '\U{200a}'
    || c == '\U{2028}' || c == '\U{2029}' || c == '\U{202f}' || c == '\U{205f}' || c == '\U{3000}'
  }

  /** The two strings agree on the offsets `lo <= j < hi`. */
  predicate Agree(s: string, r: string, lo: int, hi: int)
  {
    0 <= lo && hi <= |s| && hi <= |r| && forall j :: lo <= j < hi ==> s[j] == r[j]
  }

  function TrimEnd(s: string): (r: string)
    ensures r <= s && (r != [] ==> !IsSpace(r[|r| - 1]))
  {
    if s != [] && IsSpace(s[|s| - 1]) then TrimEnd(s[..|s| - 1]) else s
  }

  /** `s.strip()`. */
  function Strip(s: string): (r: string)
    ensures |r| <= |s|
    ensures r != [] ==> !IsSpace(r[0]) && !IsSpace(r[|r| - 1])
  {
    TrimEnd(s[Run(s, 0, IsSpace)..])
  }

  /** `s.split(sep)`. */
  function Split(s: string, sep: string): (parts: seq<string>)
    requires sep != []
    ensures parts != []
    decreases |s|
  {
    match Find(s, sep, 0)
    case None => [s]
    case Some(i) => [s[..i]] + Split(s[i + |sep|..], sep)
  }

  /** `sep.join(parts)`. */
  function Join(parts: seq<string>, sep: string): string
  {
    if parts == [] then [] else if |parts| == 1 then parts[0] else parts[0] + sep + Join(parts[1..], sep)
  }
}
