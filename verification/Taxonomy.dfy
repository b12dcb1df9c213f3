/** Category paths and their hierarchical metrics. */
module Taxonomy {
  import opened Prelude
  import opened RealFacts

  type Path = seq<string>

  const SEPARATOR := " > "

  // ----- paths as strings -----

  /** `full_path`. */
  function FullPath(path: Path): string { Join(path, SEPARATOR) }

  /** `category_path_from_string`. */
  function FromString(s: string): Path { Split(s, SEPARATOR) }

  predicate Contains(s: string) { Find(s, SEPARATOR, 0).Some? }

  predicate EndsLikeSeparator(s: string) { |s| >= 2 && s[|s| - 2..] == " >" }

  /** No node contains the separator and none but the last ends with its first two characters. */
  predicate Clean(path: Path)
  {
    path != [] && !Contains(path[0]) && (|path| > 1 ==> !EndsLikeSeparator(path[0]) && Clean(path[1..]))
  }

  /** The first separator of `a + SEPARATOR + r` is the one in the middle exactly when `a` is clean. */
  lemma FirstSeparator(a: string, r: string)
    ensures var i := Find(a + SEPARATOR + r, SEPARATOR, 0);
            && i.Some? && i.value <= |a|
            && (i.value == |a| <==> !Contains(a) && !EndsLikeSeparator(a))
  {
    var s := a + SEPARATOR + r;
    assert OccursAt(s, SEPARATOR, |a|) by {
      assert s[|a|..|a| + 3] == SEPARATOR;
    }
    forall j | 0 <= j < |a|
      ensures OccursAt(s, SEPARATOR, j) <==> OccursAt(a, SEPARATOR, j) || (j == |a| - 2 && EndsLikeSeparator(a))
    {
      OccursChars(s, j);
      OccursChars(a, j);
      assert s[|a|] == ' ';
    }
    if Contains(a) {
      assert OccursAt(s, SEPARATOR, Find(a, SEPARATOR, 0).value);
    }
    if EndsLikeSeparator(a) {
      assert OccursAt(s, SEPARATOR, |a| - 2);
    }
  }

  lemma OccursChars(s: string, j: nat)
    ensures OccursAt(s, SEPARATOR, j) <==> j + 3 <= |s| && s[j] == ' ' && s[j + 1] == '>' && s[j + 2] == ' '
  {
    if j + 3 <= |s| {
      assert s[j..j + 3] == [s[j], s[j + 1], s[j + 2]];
      assert SEPARATOR == [' ', '>', ' '];
    }
  }

  /** Splitting the joined string gives the path back exactly for the clean paths. */
  lemma {:induction false} RoundTripIffClean(path: Path)
    requires path != []
    ensures FromString(FullPath(path)) == path <==> Clean(path)
  {
    var s := FullPath(path);
    if |path| == 1 {
      if Contains(s) {
        assert |FromString(s)| > 1;
      }
    } else {
      var a, rest := path[0], path[1..];
      var r := FullPath(rest);
      assert s == a + SEPARATOR + r;
      FirstSeparator(a, r);
      var i := Find(s, SEPARATOR, 0).value;
      assert FromString(s) == [s[..i]] + FromString(s[i + 3..]);
      assert path == [a] + rest;
      if i == |a| {
        assert s[..i] == a && s[i + 3..] == r;
        RoundTripIffClean(rest);
        assert ([a] + FromString(r))[1..] == FromString(r);
      } else {
        assert FromString(s)[0] == s[..i];
        assert |s[..i]| != |a|;
      }
    }
  }

  /** A node that ends like the separator: two paths with one string, and the first is lost. */
  lemma UncleanPathIsLost()
    ensures FullPath(["a >", "b"]) == FullPath(["a", "> b"]) && ["a >", "b"] != ["a", "> b"]
    ensures FromString(FullPath(["a >", "b"])) != ["a >", "b"]
  {
    var path, other := ["a >", "b"], ["a", "> b"];
    assert path[1..] == ["b"] && other[1..] == ["> b"];
    assert FullPath(path) == "a > > b" && FullPath(other) == "a > > b";
    assert EndsLikeSeparator(path[0]);
    RoundTripIffClean(path);
    assert |path[0]| != |other[0]|;
  }

  /** On clean paths the joined string identifies the path. */
  lemma StringsIdentifyPaths(p: Path, q: Path)
    requires Clean(p) && Clean(q) && FullPath(p) == FullPath(q)
    ensures p == q
  {
    RoundTripIffClean(p);
    RoundTripIffClean(q);
  }

  // ----- ancestors -----

  /** `ancestor_set`: the non-empty prefixes. */
  function AncestorSet(c: Path): set<Path>
  {
    set l | 1 <= l <= |c| :: c[..l]
  }

  /** The length of the longest common prefix. */
  function Common(a: Path, b: Path): (n: nat)
    ensures n <= |a| && n <= |b|
  {
    if a != [] && b != [] && a[0] == b[0] then 1 + Common(a[1..], b[1..]) else 0
  }

  function Prefixes(c: Path, n: nat): set<Path>
    requires n <= |c|
  {
    set l | 1 <= l <= n :: c[..l]
  }

  lemma {:induction false} PrefixCount(c: Path, n: nat)
    requires n <= |c|
    ensures |Prefixes(c, n)| == n
  {
    if n == 0 {
      assert Prefixes(c, n) == {};
    } else {
      PrefixCount(c, n - 1);
      forall p | p in Prefixes(c, n - 1) ensures |p| < n {
        var l :| 1 <= l <= n - 1 && p == c[..l];
      }
      assert |c[..n]| == n;
      assert Prefixes(c, n) == Prefixes(c, n - 1) + {c[..n]};
    }
  }

  lemma {:induction false} CommonPrefix(a: Path, b: Path, l: nat)
    requires l <= |a| && l <= |b|
    ensures a[..l] == b[..l] <==> l <= Common(a, b)
  {
    if l == 0 {
    } else {
      if a[0] == b[0] {
        CommonPrefix(a[1..], b[1..], l - 1);
        assert a[..l] == [a[0]] + a[1..][..l - 1] && b[..l] == [b[0]] + b[1..][..l - 1];
        if a[..l] == b[..l] {
          assert a[..l][1..] == b[..l][1..];
          assert a[1..][..l - 1] == a[..l][1..] && b[1..][..l - 1] == b[..l][1..];
        }
      } else {
        assert a[..l][0] != b[..l][0];
      }
    }
  }

  /** The shared ancestors are the common prefixes, so their number is the length of the longest. */
  lemma SharedAncestors(a: Path, b: Path)
    ensures |AncestorSet(a) * AncestorSet(b)| == Common(a, b)
    ensures |AncestorSet(a)| == |a|
  {
    var n := Common(a, b);
    assert AncestorSet(a) == Prefixes(a, |a|);
    PrefixCount(a, |a|);
    PrefixCount(a, n);
    forall p | p in AncestorSet(a) && p in AncestorSet(b) ensures p in Prefixes(a, n) {
      CommonPrefix(a, b, |p|);
    }
    forall p | p in Prefixes(a, n) ensures p in AncestorSet(b) {
      CommonPrefix(a, b, |p|);
      assert p == b[..|p|];
    }
    assert AncestorSet(a) * AncestorSet(b) == Prefixes(a, n);
  }

  // ----- metrics -----

  /** The number of shared ancestors over the first `k` pairs. */
  function Overlap(ps: seq<Path>, rs: seq<Path>, k: nat): nat
    requires k <= |ps| && k <= |rs|
  {
    if k == 0 then 0 else Overlap(ps, rs, k - 1) + Common(ps[k - 1], rs[k - 1])
  }

  function Length(ps: seq<Path>, k: nat): nat
    requires k <= |ps|
  {
    if k == 0 then 0 else Length(ps, k - 1) + |ps[k - 1]|
  }

  function Ratio(a: nat, b: nat): real
  {
    if b == 0 then 0.0 else a as real / b as real
  }

  datatype ZipError = LengthMismatch

  /** `hierarchical_precision`. */
  method HierarchicalPrecision(ps: seq<Path>, rs: seq<Path>) returns (r: Result<real, ZipError>)
    ensures r.Ok? <==> |ps| == |rs|
    ensures r.Ok? ==> r.value == Ratio(Overlap(ps, rs, |ps|), Length(ps, |ps|))
  {
    if |ps| != |rs| {
      return Err(LengthMismatch);
    }
    var overlapCount, predictedCount := 0, 0;
    for k := 0 to |ps|
      invariant overlapCount == Overlap(ps, rs, k) && predictedCount == Length(ps, k)
    {
      SharedAncestors(ps[k], rs[k]);
      var predictedAncestors, referenceAncestors := AncestorSet(ps[k]), AncestorSet(rs[k]);
      overlapCount := overlapCount + |predictedAncestors * referenceAncestors|;
      predictedCount := predictedCount + |predictedAncestors|;
    }
    return Ok(if predictedCount == 0 then 0.0 else overlapCount as real / predictedCount as real);
  }

  /** `hierarchical_recall`. */
  method HierarchicalRecall(ps: seq<Path>, rs: seq<Path>) returns (r: Result<real, ZipError>)
    ensures r.Ok? <==> |ps| == |rs|
    ensures r.Ok? ==> r.value == Ratio(Overlap(ps, rs, |ps|), Length(rs, |rs|))
  {
    if |ps| != |rs| {
      return Err(LengthMismatch);
    }
    var overlapCount, referenceCount := 0, 0;
    for k := 0 to |ps|
      invariant overlapCount == Overlap(ps, rs, k) && referenceCount == Length(rs, k)
    {
      SharedAncestors(ps[k], rs[k]);
      SharedAncestors(rs[k], rs[k]);
      var predictedAncestors, referenceAncestors := AncestorSet(ps[k]), AncestorSet(rs[k]);
      overlapCount := overlapCount + |predictedAncestors * referenceAncestors|;
      referenceCount := referenceCount + |referenceAncestors|;
    }
    return Ok(if referenceCount == 0 then 0.0 else overlapCount as real / referenceCount as real);
  }

  /** `f1_score`. */
  function F1Score(precision: real, recall: real): real
  {
    if precision + recall == 0.0 then 0.0 else 2.0 * precision * recall / (precision + recall)
  }

  /** F1 is the harmonic mean: the product of both, twice, over their sum. */
  lemma F1IsHarmonic(p: real, r: real)
    requires p >= 0.0 && r >= 0.0
    ensures F1Score(p, r) * (p + r) == 2.0 * (p * r)
    ensures p + r == 0.0 ==> F1Score(p, r) == 0.0
  {
    if p + r > 0.0 {
      QuotientTimes(2.0 * p * r, p + r);
    }
  }

  lemma QuotientTimes(x: real, y: real)
    requires y > 0.0
    ensures x / y * y == x
  {
  }

  /** The reference a prediction is judged by when alternatives count as right. */
  function LenientReference(prediction: Path, truth: Path, alternatives: seq<Path>): Path
  {
    if prediction in {truth} + (set a | a in alternatives) then prediction else truth
  }

  /** The lenient reference differs from the truth exactly for a wrong prediction among the alternatives. */
  lemma LenientIff(prediction: Path, truth: Path, alternatives: seq<Path>)
    ensures var r := LenientReference(prediction, truth, alternatives);
            && (r != truth <==> prediction != truth && prediction in alternatives)
            && (r != truth ==> r == prediction)
  {
  }

  /** `exact_lenient_references`. */
  method ExactLenientReferences(ps: seq<Path>, truths: seq<Path>, alternatives: seq<seq<Path>>)
    returns (r: Result<seq<Path>, ZipError>)
    ensures r.Ok? <==> |ps| == |truths| == |alternatives|
    ensures r.Ok? ==> |r.value| == |ps|
    ensures r.Ok? ==> forall i :: 0 <= i < |ps| ==> r.value[i] == LenientReference(ps[i], truths[i], alternatives[i])
  {
    if !(|ps| == |truths| == |alternatives|) {
      return Err(LengthMismatch);
    }
    var references: seq<Path> := [];
    for k := 0 to |ps|
      invariant |references| == k
      invariant forall i :: 0 <= i < k ==> references[i] == LenientReference(ps[i], truths[i], alternatives[i])
    {
      var acceptable := {truths[k]} + (set a | a in alternatives[k]);
      references := references + [if ps[k] in acceptable then ps[k] else truths[k]];
    }
    return Ok(references);
  }

  // ----- lenient scoring dominates strict scoring -----

  /** Each lenient reference is the strict one or the prediction itself. */
  ghost predicate Lenient(ps: seq<Path>, strict: seq<Path>, lenient: seq<Path>)
  {
    |ps| == |strict| == |lenient| && forall i :: 0 <= i < |ps| ==> lenient[i] == strict[i] || lenient[i] == ps[i]
  }

  lemma {:induction false} CommonSelf(a: Path)
    ensures Common(a, a) == |a|
  {
    if a == [] {
    } else {
      CommonSelf(a[1..]);
    }
  }

  lemma {:induction false} OverlapBounds(ps: seq<Path>, rs: seq<Path>, k: nat)
    requires k <= |ps| && k <= |rs|
    ensures Overlap(ps, rs, k) <= Length(ps, k) && Overlap(ps, rs, k) <= Length(rs, k)
  {
    if k == 0 {
    } else {
      OverlapBounds(ps, rs, k - 1);
    }
  }

  /** Leniency adds at least as much overlap as reference length. */
  lemma {:induction false} LenientGains(ps: seq<Path>, strict: seq<Path>, lenient: seq<Path>, k: nat)
    requires Lenient(ps, strict, lenient) && k <= |ps|
    ensures Overlap(ps, lenient, k) >= Overlap(ps, strict, k)
    ensures Overlap(ps, lenient, k) - Overlap(ps, strict, k) >= Length(lenient, k) - Length(strict, k)
  {
    if k == 0 {
    } else {
      LenientGains(ps, strict, lenient, k - 1);
      CommonSelf(ps[k - 1]);
    }
  }

  lemma RatioGrows(a: nat, b: nat, a': nat, b': nat)
    requires a <= a' && a <= b && a' <= b' && a' - a >= b' - b
    ensures Ratio(a, b) <= Ratio(a', b')
  {
    if b > 0 && b' > 0 {
      var d := a' - a;
      assert d * (b - a) >= 0;
      assert a * (b' - b) <= a * d;
      assert a' * b >= a * b' by {
        assert a' * b - a * b' == d * b - a * (b' - b);
        assert d * b - a * d == d * (b - a);
      }
      CrossDivide(a as real, b as real, a' as real, b' as real);
    }
  }

  lemma F1Grows(p: real, r: real, p': real, r': real)
    requires 0.0 <= p <= p' && 0.0 <= r <= r'
    ensures F1Score(p, r) <= F1Score(p', r')
  {
    Product(p', r');
    if p + r == 0.0 {
      if p' + r' > 0.0 {
        CrossDivide(0.0, 1.0, 2.0 * p' * r', p' + r');
      }
    } else {
      F1Cross(p, r, p', r');
      CrossDivide(2.0 * p * r, p + r, 2.0 * p' * r', p' + r');
    }
  }

  lemma F1InUnit(p: real, r: real)
    requires 0.0 <= p <= 1.0 && 0.0 <= r <= 1.0
    ensures 0.0 <= F1Score(p, r) <= 1.0
  {
    F1Grows(0.0, 0.0, p, r);
    F1Grows(p, r, 1.0, 1.0);
    assert F1Score(1.0, 1.0) == 1.0;
  }

  lemma F1Cross(p: real, r: real, p': real, r': real)
    requires 0.0 <= p <= p' && 0.0 <= r <= r'
    ensures (2.0 * p' * r') * (p + r) >= (2.0 * p * r) * (p' + r')
  {
    Product(p, p');
    Product(r, r');
    Product(p * p', r' - r);
    Product(r * r', p' - p);
    F1Identity(p, r, p', r');
  }

  lemma F1Identity(p: real, r: real, p': real, r': real)
    ensures (2.0 * p' * r') * (p + r) - (2.0 * p * r) * (p' + r') == 2.0 * ((p * p') * (r' - r) + (r * r') * (p' - p))
  {
  }

  lemma RatioNonNegative(a: nat, b: nat)
    ensures Ratio(a, b) >= 0.0 && Ratio(a, 0) == 0.0
  {
  }

  lemma {:induction false} CommonIsWhole(a: Path, b: Path)
    ensures Common(a, b) == |a| <==> a <= b
  {
    if a == [] {
    } else if b == [] {
    } else {
      CommonIsWhole(a[1..], b[1..]);
      assert a == [a[0]] + a[1..] && b == [b[0]] + b[1..];
      if a <= b {
        assert a[0] == b[0] && a[1..] <= b[1..];
      }
    }
  }

  lemma {:induction false} FullOverlap(ps: seq<Path>, rs: seq<Path>, k: nat)
    requires k <= |ps| && k <= |rs|
    ensures Overlap(ps, rs, k) == Length(ps, k) <==> forall i :: 0 <= i < k ==> ps[i] <= rs[i]
  {
    if k == 0 {
    } else {
      FullOverlap(ps, rs, k - 1);
      OverlapBounds(ps, rs, k - 1);
      CommonIsWhole(ps[k - 1], rs[k - 1]);
    }
  }

  /** Precision is one exactly if every prediction is an ancestor of its reference or the reference itself. */
  lemma PrecisionOneIff(ps: seq<Path>, rs: seq<Path>)
    requires |ps| == |rs| && exists i :: 0 <= i < |ps| && ps[i] != []
    ensures Ratio(Overlap(ps, rs, |ps|), Length(ps, |ps|)) == 1.0 <==> forall i :: 0 <= i < |ps| ==> ps[i] <= rs[i]
  {
    hide Overlap, Length;
    FullOverlap(ps, rs, |ps|);
    SomeLength(ps, |ps|);
    RatioOne(Overlap(ps, rs, |ps|), Length(ps, |ps|));
  }

  lemma RatioOne(a: nat, b: nat)
    requires b > 0
    ensures Ratio(a, b) == 1.0 <==> a == b
  {
    if Ratio(a, b) == 1.0 {
      assert a as real == 1.0 * b as real;
    }
  }

  lemma {:induction false} SomeLength(ps: seq<Path>, k: nat)
    requires k <= |ps|
    ensures Length(ps, k) > 0 <==> exists i :: 0 <= i < k && ps[i] != []
  {
    if k == 0 {
    } else {
      SomeLength(ps, k - 1);
    }
  }

  /** For all predictions, truths and alternatives, precision, recall and F1 under lenient
      references are each at least the strict ones. */
  lemma LenientDominates(ps: seq<Path>, truths: seq<Path>, alternatives: seq<seq<Path>>, lenient: seq<Path>)
    requires |ps| == |truths| == |alternatives| == |lenient|
    requires forall i :: 0 <= i < |ps| ==> lenient[i] == LenientReference(ps[i], truths[i], alternatives[i])
    ensures var n := |ps|;
            var p, p' := Ratio(Overlap(ps, truths, n), Length(ps, n)), Ratio(Overlap(ps, lenient, n), Length(ps, n));
            var r := Ratio(Overlap(ps, truths, n), Length(truths, n));
            var r' := Ratio(Overlap(ps, lenient, n), Length(lenient, n));
            0.0 <= p <= p' <= 1.0 && 0.0 <= r <= r' <= 1.0 && 0.0 <= F1Score(p, r) <= F1Score(p', r') <= 1.0
  {
    hide Ratio, Overlap, Length, F1Score;
    var n := |ps|;
    LenientGains(ps, truths, lenient, n);
    OverlapBounds(ps, truths, n);
    OverlapBounds(ps, lenient, n);
    var o, o' := Overlap(ps, truths, n), Overlap(ps, lenient, n);
    var d, t, t' := Length(ps, n), Length(truths, n), Length(lenient, n);
    RatioGrows(o, d, o', d);
    RatioGrows(o, t, o', t');
    AtMostOne(o', d);
    AtMostOne(o', t');
    RatioNonNegative(o, d);
    RatioNonNegative(o, t);
    F1InUnit(Ratio(o, d), Ratio(o, t));
    F1InUnit(Ratio(o', d), Ratio(o', t'));
    F1Grows(Ratio(o, d), Ratio(o, t), Ratio(o', d), Ratio(o', t'));
  }

  lemma AtMostOne(a: nat, b: nat)
    requires a <= b
    ensures Ratio(a, b) <= 1.0
  {
  }
}
