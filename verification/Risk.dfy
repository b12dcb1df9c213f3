/** Cosine scoring of an order against fraud patterns, and the risk band. */
module Risk {
  import opened Prelude
  import opened StableSort
  import opened RealFacts

  // ----- cosine -----

  function Dot(a: seq<real>, b: seq<real>, n: nat): real
    requires n <= |a| && n <= |b|
  {
    if n == 0 then 0.0 else Dot(a, b, n - 1) + a[n - 1] * b[n - 1]
  }

  /** What is used of `Math.sqrt`: the non-negative root. */
  ghost predicate Root(sqrt: real -> real)
  {
    forall x :: x >= 0.0 ==> sqrt(x) >= 0.0 && sqrt(x) * sqrt(x) == x
  }

  lemma {:induction false} NormNonNegative(a: seq<real>, n: nat)
    requires n <= |a|
    ensures Dot(a, a, n) >= 0.0
  {
    if n == 0 {
    } else {
      NormNonNegative(a, n - 1);
      Square(a[n - 1]);
    }
  }

  lemma GeometricMean(w: real, u: real, v: real)
    requires u >= 0.0 && v >= 0.0 && w * w <= u * v
    ensures 2.0 * w <= u + v
  {
    Square(u - v);
    assert (u + v) * (u + v) == (u - v) * (u - v) + 4.0 * (u * v);
    assert (2.0 * w) * (2.0 * w) == 4.0 * (w * w);
    if 2.0 * w > u + v {
      SquareGrows(2.0 * w, u + v);
      assert false;
    }
  }

  /** The mixed term is at most the sum of the other two. */
  lemma MixedTerm(d: real, p: real, q: real, x: real, y: real)
    requires p >= 0.0 && q >= 0.0 && d * d <= p * q
    ensures 2.0 * (d * (x * y)) <= p * (y * y) + q * (x * x)
  {
    var z := x * y;
    Square(x);
    Square(y);
    Square(z);
    Product(p, y * y);
    Product(q, x * x);
    Product(p * q - d * d, z * z);
    Regroup(p, q, y * y, x * x);
    Regroup(y, x, y, x);
    Regroup(d, d, z, z);
    assert (p * q - d * d) * (z * z) == (p * q) * (z * z) - (d * d) * (z * z);
    GeometricMean(d * z, p * (y * y), q * (x * x));
  }

  /** From one coordinate to the next: if d² <= p q then (d + x y)² <= (p + x²)(q + y²). */
  lemma CauchyStep(d: real, p: real, q: real, x: real, y: real)
    requires p >= 0.0 && q >= 0.0 && d * d <= p * q
    ensures (d + x * y) * (d + x * y) <= (p + x * x) * (q + y * y)
  {
    MixedTerm(d, p, q, x, y);
    Regroup(x, y, x, y);
    assert (d + x * y) * (d + x * y) == d * d + 2.0 * (d * (x * y)) + (x * y) * (x * y);
    assert (p + x * x) * (q + y * y) == p * q + p * (y * y) + q * (x * x) + (x * x) * (y * y);
  }

  /** Cauchy-Schwarz for vectors of any length. */
  lemma {:induction false} CauchySchwarz(a: seq<real>, b: seq<real>, n: nat)
    requires n <= |a| && n <= |b|
    ensures Dot(a, b, n) * Dot(a, b, n) <= Dot(a, a, n) * Dot(b, b, n)
  {
    hide Dot;
    if n == 0 {
      DotZero(a, b);
    } else {
      var d, p, q, x, y := Dot(a, b, n - 1), Dot(a, a, n - 1), Dot(b, b, n - 1), a[n - 1], b[n - 1];
      CauchySchwarz(a, b, n - 1);
      NormNonNegative(a, n - 1);
      NormNonNegative(b, n - 1);
      CauchyStep(d, p, q, x, y);
      DotStep(a, b, n - 1);
      SameBound(d + x * y, p + x * x, q + y * y, Dot(a, b, n), Dot(a, a, n), Dot(b, b, n));
    }
  }

  lemma DotZero(a: seq<real>, b: seq<real>)
    ensures Dot(a, b, 0) == 0.0 && Dot(a, a, 0) == 0.0 && Dot(b, b, 0) == 0.0
  {
  }

  lemma SameBound(d: real, p: real, q: real, d': real, p': real, q': real)
    requires d == d' && p == p' && q == q' && d * d <= p * q
    ensures d' * d' <= p' * q'
  {
  }

  function CosineOf(sqrt: real -> real, a: seq<real>, b: seq<real>): real
    requires |a| == |b|
  {
    var denom := sqrt(Dot(a, a, |a|)) * sqrt(Dot(b, b, |a|));
    if denom == 0.0 then 0.0 else Dot(a, b, |a|) / denom
  }

  /** `cosine`. */
  method Cosine(sqrt: real -> real, a: seq<real>, b: seq<real>) returns (r: real)
    requires |a| == |b| && Root(sqrt)
    ensures r == CosineOf(sqrt, a, b) && -1.0 <= r <= 1.0
  {
    hide Root, CosineOf;
    var dot, na, nb := 0.0, 0.0, 0.0;
    CosineIs(sqrt, a, b);
    for i := 0 to |a|
      invariant dot == Dot(a, b, i) && na == Dot(a, a, i) && nb == Dot(b, b, i)
    {
      DotStep(a, b, i);
      dot := dot + a[i] * b[i];
      na := na + a[i] * a[i];
      nb := nb + b[i] * b[i];
    }
    CosineInUnit(sqrt, a, b);
    var denom := sqrt(na) * sqrt(nb);
    return if denom == 0.0 then 0.0 else dot / denom;
  }

  lemma DotStep(a: seq<real>, b: seq<real>, i: nat)
    requires i < |a| && i < |b|
    ensures Dot(a, b, i + 1) == Dot(a, b, i) + a[i] * b[i]
    ensures Dot(a, a, i + 1) == Dot(a, a, i) + a[i] * a[i]
    ensures Dot(b, b, i + 1) == Dot(b, b, i) + b[i] * b[i]
  {
  }

  lemma CosineIs(sqrt: real -> real, a: seq<real>, b: seq<real>)
    requires |a| == |b|
    ensures var denom := sqrt(Dot(a, a, |a|)) * sqrt(Dot(b, b, |a|));
            CosineOf(sqrt, a, b) == if denom == 0.0 then 0.0 else Dot(a, b, |a|) / denom
  {
  }

  lemma CosineInUnit(sqrt: real -> real, a: seq<real>, b: seq<real>)
    requires |a| == |b| && Root(sqrt)
    ensures -1.0 <= CosineOf(sqrt, a, b) <= 1.0
  {
    var n := |a|;
    var d, p, q := Dot(a, b, n), Dot(a, a, n), Dot(b, b, n);
    hide Dot;
    CauchySchwarz(a, b, n);
    NormNonNegative(a, n);
    NormNonNegative(b, n);
    var s, t := sqrt(p), sqrt(q);
    Product(s, t);
    Regroup(s, s, t, t);
    assert (s * t) * (s * t) == p * q;
    if s * t != 0.0 {
      QuotientInUnit(d, s * t);
    }
  }

  // ----- ranking and band -----

  datatype Scored = Scored(id: string, score: real)

  const TOP_K := 3

  /** `index.map(...).sort(...).slice(0, topKRerank)` on scored records. */
  function CosineRanked(scored: seq<Scored>): (top: seq<Scored>)
    ensures |top| <= TOP_K && |top| <= |scored| && (scored != [] ==> top != [])
  {
    var sorted := SortDesc(scored, (s: Scored) => s.score);
    if |sorted| <= TOP_K then sorted else sorted[..TOP_K]
  }

  /** `new Map(pairs).get(id)`: the last entry with that id. */
  function LastScore(top: seq<Scored>, id: string): Option<real>
  {
    if top == [] then None
    else if top[|top| - 1].id == id then Some(top[|top| - 1].score)
    else LastScore(top[..|top| - 1], id)
  }

  /** `cosineById.get(cosineRanked[0]?.id ?? "") ?? 0`. */
  function TopScore(top: seq<Scored>): real
  {
    if top == [] then 0.0
    else match LastScore(top, top[0].id) case Some(x) => x case None => 0.0
  }

  datatype Band = Low | Medium | High

  /** `riskBand`. */
  function RiskBand(score: real): Band
  {
    if score >= 0.52 then High else if score >= 0.47 then Medium else Low
  }

  /** The bands in hundredths, and that a higher score never has a lower band. */
  lemma Bands(x: real, y: real)
    ensures RiskBand(x).High? <==> 100.0 * x >= 52.0
    ensures RiskBand(x).Low? <==> 100.0 * x < 47.0
    ensures x <= y ==> RiskBand(y).High? || RiskBand(x).Low? || (RiskBand(x).Medium? && RiskBand(y).Medium?)
  {
  }

  predicate DistinctIds(scored: seq<Scored>)
  {
    forall i, j :: 0 <= i < j < |scored| ==> scored[i].id != scored[j].id
  }

  /** The maximum cosine, zero for an empty index. */
  ghost predicate IsMaximum(scored: seq<Scored>, x: real)
  {
    if scored == [] then x == 0.0
    else (exists s :: s in scored && s.score == x) && forall s :: s in scored ==> s.score <= x
  }

  lemma {:induction false} LastScoreFound(top: seq<Scored>, id: string)
    ensures var r := LastScore(top, id);
            if r.Some? then exists i :: 0 <= i < |top| && top[i].id == id && top[i].score == r.value
                                        && forall j :: i < j < |top| ==> top[j].id != id
            else forall i :: 0 <= i < |top| ==> top[i].id != id
  {
    if top == [] {
    } else {
      var init := top[..|top| - 1];
      LastScoreFound(init, id);
      if top[|top| - 1].id != id && LastScore(init, id).Some? {
        var i :| 0 <= i < |init| && init[i].id == id && init[i].score == LastScore(init, id).value
                 && forall j :: i < j < |init| ==> init[j].id != id;
        assert top[i].id == id && forall j :: i < j < |top| ==> top[j].id != id;
      }
    }
  }

  lemma FirstIsMaximum(scored: seq<Scored>)
    requires scored != []
    ensures IsMaximum(scored, CosineRanked(scored)[0].score)
  {
    hide SortDesc;
    var key := (s: Scored) => s.score;
    var sorted := SortDesc(scored, key);
    SortDescending(scored, key);
    SameElements(scored, sorted);
    assert sorted[0] in sorted;
    forall s | s in scored ensures s.score <= sorted[0].score {
      assert s in sorted;
      var i :| 0 <= i < |sorted| && sorted[i] == s;
      assert i == 0 || key(sorted[0]) >= key(sorted[i]);
    }
  }

  lemma TopDescends(scored: seq<Scored>)
    ensures Descending(CosineRanked(scored), (s: Scored) => s.score)
  {
    hide SortDesc;
    SortDescending(scored, (s: Scored) => s.score);
  }

  /** The shortlist has up to `TOP_K` of the scored records, and none left out scores higher than one in it. */
  lemma TopIsBest(scored: seq<Scored>) returns (rest: seq<Scored>)
    ensures multiset(CosineRanked(scored)) + multiset(rest) == multiset(scored)
    ensures rest != [] ==> |CosineRanked(scored)| == TOP_K
    ensures forall t, r :: t in CosineRanked(scored) && r in rest ==> t.score >= r.score
  {
    hide SortDesc;
    var key := (s: Scored) => s.score;
    var sorted := SortDesc(scored, key);
    SortDescending(scored, key);
    var n := if |sorted| <= TOP_K then |sorted| else TOP_K;
    rest := sorted[n..];
    assert sorted == sorted[..n] + rest && CosineRanked(scored) == sorted[..n];
    forall t, r | t in sorted[..n] && r in rest ensures t.score >= r.score {
      var i :| 0 <= i < n && sorted[i] == t;
      var j :| 0 <= j < |rest| && rest[j] == r;
      assert key(sorted[i]) >= key(sorted[n + j]);
    }
  }

  /** Every entry of the shortlist that shares the first entry's id has its score. */
  predicate Steady(top: seq<Scored>)
  {
    forall i :: 0 <= i < |top| && top[i].id == top[0].id ==> top[i].score == top[0].score
  }

  /** The banded score is the maximum cosine over the whole index exactly when the shortlist holds
      no lower score under the best record's id; the reranker's scores do not occur in it. */
  lemma BandIsOfTheMaximumIff(scored: seq<Scored>)
    ensures IsMaximum(scored, TopScore(CosineRanked(scored))) <==> Steady(CosineRanked(scored))
  {
    if scored == [] {
      assert CosineRanked(scored) == [];
    } else {
      var top := CosineRanked(scored);
      FirstIsMaximum(scored);
      TopDescends(scored);
      hide CosineRanked, IsMaximum, TopScore, Steady, Descending;
      SteadyIffFirst(top);
      MaximumIsUnique(scored, top[0].score, TopScore(top));
    }
  }

  /** In a sorted shortlist the banded score is the first one exactly when the best id is steady. */
  lemma SteadyIffFirst(top: seq<Scored>)
    requires top != [] && Descending(top, (s: Scored) => s.score)
    ensures TopScore(top) == top[0].score <==> Steady(top)
  {
    LastScoreFound(top, top[0].id);
    assert LastScore(top, top[0].id).Some?;
    var l :| 0 <= l < |top| && top[l].id == top[0].id && top[l].score == TopScore(top)
             && forall j :: l < j < |top| ==> top[j].id != top[0].id;
    hide LastScore, TopScore;
    var key := (s: Scored) => s.score;
    assert forall i :: 0 <= i <= l ==> key(top[0]) >= key(top[i]) >= key(top[l]);
  }

  lemma MaximumIsUnique(scored: seq<Scored>, x: real, y: real)
    requires IsMaximum(scored, x)
    ensures IsMaximum(scored, y) <==> x == y
  {
  }

  /** In particular, with distinct ids the band is that of the maximum cosine. */
  lemma BandIsOfTheMaximum(scored: seq<Scored>)
    requires DistinctIds(scored)
    ensures IsMaximum(scored, TopScore(CosineRanked(scored)))
  {
    TopDistinct(scored);
    BandIsOfTheMaximumIff(scored);
  }

  lemma TopDistinct(scored: seq<Scored>)
    requires DistinctIds(scored)
    ensures DistinctIds(CosineRanked(scored))
  {
    hide SortDesc;
    var sorted := SortDesc(scored, (s: Scored) => s.score);
    SameElements(scored, sorted);
    NoDupOfMultiset(scored, sorted);
    forall i, j | 0 <= i < j < |sorted| ensures sorted[i].id != sorted[j].id {
      assert sorted[i] in sorted && sorted[j] in sorted;
      var a :| 0 <= a < |scored| && scored[a] == sorted[i];
      var b :| 0 <= b < |scored| && scored[b] == sorted[j];
    }
  }

  /** A repeated id can hide the maximum: the later, lower entry overwrites it. */
  lemma RepeatedIdHidesTheMaximum(id: string)
    ensures var scored := [Scored(id, 0.9), Scored(id, 0.1)];
            !IsMaximum(scored, TopScore(CosineRanked(scored))) && RiskBand(TopScore(CosineRanked(scored))) == Low
  {
    var s, t := Scored(id, 0.9), Scored(id, 0.1);
    var key := (s: Scored) => s.score;
    assert [s, t][1..] == [t] && [t][1..] == [];
    assert SortDesc([t], key) == Insert(t, [], key) == [t];
    assert SortDesc([s, t], key) == Insert(s, [t], key) == [s, t];
    assert CosineRanked([s, t]) == [s, t];
    assert LastScore([s, t], id) == Some(0.1);
    assert s in [s, t];
  }

  // ----- which indexes keep the maximum -----

  /** An index with these ids whose scores are cosines. */
  predicate Assigns(ids: seq<string>, scored: seq<Scored>)
  {
    Ids(scored) == ids && forall s :: s in scored ==> -1.0 <= s.score <= 1.0
  }

  /** The repeated id scores in the highest band at `i`, in the lowest at `j`, and nothing else scores. */
  function Contrast(ids: seq<string>, i: nat, j: nat): (scored: seq<Scored>)
    requires i < j < |ids| && ids[i] == ids[j]
    ensures Assigns(ids, scored) && |scored| == |ids|
    ensures forall m :: 0 <= m < |ids| ==>
              scored[m] == Scored(ids[m], if m == i then 0.9 else if m == j then 0.1 else 0.0)
  {
    seq(|ids|, m requires 0 <= m < |ids| => Scored(ids[m], if m == i then 0.9 else if m == j then 0.1 else 0.0))
  }

  lemma OnlyOnce(xs: seq<Scored>, j: nat)
    requires j < |xs| && forall m :: 0 <= m < |xs| && m != j ==> xs[m] != xs[j]
    ensures multiset(xs)[xs[j]] == 1
  {
    var a, b := xs[..j], xs[j + 1..];
    assert xs == a + [xs[j]] + b;
    assert xs[j] !in a && xs[j] !in b;
  }

  /** In the sorted contrast the two entries of the repeated id come first. */
  lemma ContrastSorted(ids: seq<string>, i: nat, j: nat)
    requires i < j < |ids| && ids[i] == ids[j]
    ensures var scored := Contrast(ids, i, j);
            var sorted := SortDesc(scored, (s: Scored) => s.score);
            |sorted| == |scored| && sorted[0] == scored[i] && sorted[1] == scored[j]
  {
    hide SortDesc, Contrast;
    var scored := Contrast(ids, i, j);
    var key := (s: Scored) => s.score;
    var sorted := SortDesc(scored, key);
    SortDescending(scored, key);
    SameElements(scored, sorted);
    OnlyOnce(scored, i);
    OnlyOnce(scored, j);
    assert scored[i] in sorted && scored[j] in sorted;
    var p :| 0 <= p < |sorted| && sorted[p] == scored[i];
    var q :| 0 <= q < |sorted| && sorted[q] == scored[j];
    HighIsContrast(ids, i, j, sorted[0]);
    HighIsContrast(ids, i, j, sorted[1]);
    assert key(sorted[0]) >= key(sorted[p]) || p == 0;
    FirstOfContrast(scored, sorted, i, j, p, q);
  }

  lemma HighIsContrast(ids: seq<string>, i: nat, j: nat, s: Scored)
    requires i < j < |ids| && ids[i] == ids[j] && s in Contrast(ids, i, j)
    ensures s.score >= 0.1 ==> s == Contrast(ids, i, j)[i] || s == Contrast(ids, i, j)[j]
  {
  }

  lemma FirstOfContrast(scored: seq<Scored>, sorted: seq<Scored>, i: nat, j: nat, p: nat, q: nat)
    requires i < j < |scored| == |sorted| && multiset(sorted) == multiset(scored)
    requires Descending(sorted, (s: Scored) => s.score) && scored[i].score == 0.9 && scored[j].score == 0.1
    requires multiset(scored)[scored[i]] == 1 && multiset(scored)[scored[j]] == 1
    requires p < |sorted| && q < |sorted| && sorted[p] == scored[i] && sorted[q] == scored[j]
    requires forall m :: 0 <= m <= 1 && sorted[m].score >= 0.1 ==> sorted[m] == scored[i] || sorted[m] == scored[j]
    ensures p == 0 && q == 1
  {
    var key := (s: Scored) => s.score;
    assert forall a, b :: 0 <= a < b < |sorted| ==> key(sorted[a]) >= key(sorted[b]);
    if p > 0 {
      assert key(sorted[0]) >= key(sorted[p]);
      Twice(sorted, 0, p);
      assert false;
    }
    if q > 1 {
      assert key(sorted[1]) >= key(sorted[q]);
      if sorted[1] == scored[i] {
        Twice(sorted, 0, 1);
      } else {
        Twice(sorted, 1, q);
      }
      assert false;
    }
  }

  lemma RepetitionIsUnsteady(ids: seq<string>, i: nat, j: nat)
    requires i < j < |ids| && ids[i] == ids[j]
    ensures !Steady(CosineRanked(Contrast(ids, i, j)))
  {
    ContrastSorted(ids, i, j);
    hide SortDesc, Contrast;
    var top := CosineRanked(Contrast(ids, i, j));
    assert top[0].id == ids[i] && top[1].id == ids[j];
  }

  lemma DistinctIffNoDup(ids: seq<string>, scored: seq<Scored>)
    requires Ids(scored) == ids
    ensures DistinctIds(scored) <==> NoDup(ids)
  {
    assert forall m :: 0 <= m < |ids| ==> ids[m] == scored[m].id;
  }

  /** The banded score is the maximum cosine for all cosines that an index of these ids can have,
      exactly when no id repeats. */
  lemma MaximumIffDistinctIds(ids: seq<string>)
    ensures (forall scored :: Assigns(ids, scored) ==> IsMaximum(scored, TopScore(CosineRanked(scored))))
            <==> NoDup(ids)
  {
    hide CosineRanked, TopScore, IsMaximum, Contrast, Steady;
    if NoDup(ids) {
      forall scored | Assigns(ids, scored) ensures IsMaximum(scored, TopScore(CosineRanked(scored))) {
        DistinctIffNoDup(ids, scored);
        BandIsOfTheMaximum(scored);
      }
    } else {
      var i: nat, j: nat :| i < j < |ids| && ids[i] == ids[j];
      RepetitionIsUnsteady(ids, i, j);
      BandIsOfTheMaximumIff(Contrast(ids, i, j));
    }
  }

  /** The band shown is the band of the maximum cosine. */
  ghost predicate BandsTheMaximum(scored: seq<Scored>)
  {
    exists x :: IsMaximum(scored, x) && RiskBand(TopScore(CosineRanked(scored))) == RiskBand(x)
  }

  /** An entry after the first with the first one's id bounds the banded score. */
  lemma RepetitionBoundsTheScore(top: seq<Scored>)
    requires |top| >= 2 && top[1].id == top[0].id && Descending(top, (s: Scored) => s.score)
    ensures TopScore(top) <= top[1].score
  {
    LastScoreFound(top, top[0].id);
    var l :| 0 <= l < |top| && top[l].id == top[0].id && top[l].score == TopScore(top)
             && forall j :: l < j < |top| ==> top[j].id != top[0].id;
    hide LastScore, TopScore;
    var key := (s: Scored) => s.score;
    assert l >= 1 && (l > 1 ==> key(top[1]) >= key(top[l]));
  }

  lemma ContrastIsLow(ids: seq<string>, i: nat, j: nat)
    requires i < j < |ids| && ids[i] == ids[j]
    ensures !BandsTheMaximum(Contrast(ids, i, j))
  {
    var scored := Contrast(ids, i, j);
    var top := CosineRanked(scored);
    ContrastSorted(ids, i, j);
    assert |top| >= 2 && top[0] == scored[i] && top[1] == scored[j];
    FirstIsMaximum(scored);
    TopDescends(scored);
    hide CosineRanked, TopScore, IsMaximum, Contrast;
    RepetitionBoundsTheScore(top);
    forall x | IsMaximum(scored, x) ensures RiskBand(TopScore(top)) != RiskBand(x) {
      MaximumIsUnique(scored, 0.9, x);
    }
  }

  /** The band shown is that of the maximum cosine, for all cosines that an index of these ids can
      have, exactly when no id repeats. */
  lemma BandIffDistinctIds(ids: seq<string>)
    ensures (forall scored :: Assigns(ids, scored) ==> BandsTheMaximum(scored)) <==> NoDup(ids)
  {
    hide CosineRanked, TopScore, IsMaximum, Contrast, RiskBand;
    if NoDup(ids) {
      forall scored | Assigns(ids, scored) ensures BandsTheMaximum(scored) {
        DistinctIffNoDup(ids, scored);
        BandIsOfTheMaximum(scored);
      }
    } else {
      var i: nat, j: nat :| i < j < |ids| && ids[i] == ids[j];
      ContrastIsLow(ids, i, j);
    }
  }

  // ----- hits -----

  /** A reranked hit: an id of the shortlist with its reranker score, zero if it has none. */
  function Hits(top: seq<Scored>, rerank: map<string, real>): (hits: seq<Scored>)
    ensures |hits| == |top|
  {
    SortDesc(seq(|top|, i requires 0 <= i < |top| =>
                 Scored(top[i].id, if top[i].id in rerank then rerank[top[i].id] else 0.0)),
             (h: Scored) => h.score)
  }

  function Ids(xs: seq<Scored>): (ids: seq<string>)
    ensures |ids| == |xs|
  {
    seq(|xs|, i requires 0 <= i < |xs| => xs[i].id)
  }

  lemma IdsConcat(a: seq<Scored>, b: seq<Scored>)
    ensures Ids(a + b) == Ids(a) + Ids(b)
  {
  }

  function Without(xs: seq<Scored>, i: nat): (r: seq<Scored>)
    requires i < |xs|
    ensures |r| == |xs| - 1
  {
    xs[..i] + xs[i + 1..]
  }

  lemma RemoveAt(xs: seq<Scored>, i: nat)
    requires i < |xs|
    ensures multiset(xs) == multiset(Without(xs, i)) + multiset{xs[i]}
    ensures multiset(Ids(xs)) == multiset(Ids(Without(xs, i))) + multiset{xs[i].id}
  {
    assert xs == xs[..i] + ([xs[i]] + xs[i + 1..]);
    IdsConcat(xs[..i], [xs[i]] + xs[i + 1..]);
    IdsConcat([xs[i]], xs[i + 1..]);
    IdsConcat(xs[..i], xs[i + 1..]);
    assert Ids([xs[i]]) == [xs[i].id];
  }

  lemma {:induction false} IdsOfMultiset(xs: seq<Scored>, ys: seq<Scored>)
    requires multiset(xs) == multiset(ys)
    ensures multiset(Ids(xs)) == multiset(Ids(ys))
    decreases |xs|
  {
    if xs == [] {
      assert |multiset(ys)| == 0;
      assert ys == [] && Ids(xs) == Ids(ys);
    } else {
      hide Ids, Without;
      assert xs[0] in multiset(ys);
      var i :| 0 <= i < |ys| && ys[i] == xs[0];
      RemoveAt(xs, 0);
      RemoveAt(ys, i);
      Cancel(multiset(Without(xs, 0)), multiset(Without(ys, i)), xs[0]);
      IdsOfMultiset(Without(xs, 0), Without(ys, i));
    }
  }

  /** Each hit has the reranker's score for its id, zero if there is none. */
  lemma HitsAreScored(top: seq<Scored>, rerank: map<string, real>)
    ensures forall h :: h in Hits(top, rerank) ==> h.score == if h.id in rerank then rerank[h.id] else 0.0
  {
    hide SortDesc;
    var raw := seq(|top|, i requires 0 <= i < |top| =>
                   Scored(top[i].id, if top[i].id in rerank then rerank[top[i].id] else 0.0));
    SameElements(raw, Hits(top, rerank));
    assert forall h :: h in raw ==> h.score == if h.id in rerank then rerank[h.id] else 0.0;
  }

  /** Whatever the reranker returns, the hits are the shortlisted ids, reordered by its scores. */
  lemma HitsPermuteTheShortlist(top: seq<Scored>, rerank: map<string, real>)
    ensures multiset(Ids(Hits(top, rerank))) == multiset(Ids(top))
    ensures Descending(Hits(top, rerank), (h: Scored) => h.score)
  {
    hide SortDesc;
    var raw := seq(|top|, i requires 0 <= i < |top| =>
                   Scored(top[i].id, if top[i].id in rerank then rerank[top[i].id] else 0.0));
    SortDescending(raw, (h: Scored) => h.score);
    IdsOfMultiset(SortDesc(raw, (h: Scored) => h.score), raw);
    assert Ids(raw) == Ids(top);
  }
}
