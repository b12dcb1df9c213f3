/** Graded retrieval metrics: discounted gain against its ideal. */
module Ranking {
  import opened StableSort
  import opened RealFacts
  import opened Prelude

  type Id = int

  /** The relevance judgements of a query, a dictionary in its insertion order. */
  datatype Qrels = Qrels(order: seq<Id>, rel: map<Id, real>) {
    ghost predicate Valid()
    {
      NoDup(order) && (forall d :: d in order <==> d in rel) && forall d :: d in rel ==> rel[d] >= 0.0
    }

    /** `qrel_map.get(cid, 0)`. */
    function Gain(d: Id): real { if d in rel then rel[d] else 0.0 }
  }

  /** What is used of `math.log2` on ranks: positive from 2 on and increasing. */
  ghost predicate Log(log2: nat -> real)
  {
    forall n :: n >= 2 ==> 0.0 < log2(n) < log2(n + 1)
  }

  function At(s: seq<real>, i: nat): real { if i < |s| then s[i] else 0.0 }

  /** The sum of the first `n` elements, absent ones counting zero. */
  function Sum(s: seq<real>, n: nat): real
  {
    if n == 0 then 0.0 else Sum(s, n - 1) + At(s, n - 1)
  }

  /** The discounted sum of the first `n` gains. */
  function Dcg(log2: nat -> real, s: seq<real>, n: nat): real
    requires forall i :: i >= 2 ==> log2(i) > 0.0
  {
    if n == 0 then 0.0 else Dcg(log2, s, n - 1) + At(s, n - 1) / log2(n + 1)
  }

  /** `ranked_ids[:k]`. */
  function Cut(ranked: seq<Id>, k: nat): seq<Id> { ranked[..Min(k, |ranked|)] }

  lemma CutNoDup(ranked: seq<Id>, i: nat, k: nat)
    requires i <= k && NoDup(Cut(ranked, k))
    ensures NoDup(Cut(ranked, i))
  {
    assert forall j :: 0 <= j < |Cut(ranked, i)| ==> Cut(ranked, i)[j] == Cut(ranked, k)[j];
  }

  lemma CutOfNoDup(ranked: seq<Id>, k: nat)
    requires NoDup(ranked)
    ensures NoDup(Cut(ranked, k))
  {
  }

  function Gains(q: Qrels, ranked: seq<Id>): (g: seq<real>)
    ensures |g| == |ranked| && forall i :: 0 <= i < |g| ==> g[i] == q.Gain(ranked[i])
  {
    seq(|ranked|, i requires 0 <= i < |ranked| => q.Gain(ranked[i]))
  }

  /** `sorted(qrel_map.values(), reverse=True)`. */
  function IdealGains(q: Qrels): seq<real>
  {
    SortDesc(Gains(q, q.order), (x: real) => x)
  }

  /** `ndcg_at_k`. */
  function NdcgAtK(log2: nat -> real, ranked: seq<Id>, q: Qrels, k: nat): real
    requires forall i :: i >= 2 ==> log2(i) > 0.0
  {
    var idcg := Dcg(log2, IdealGains(q), k);
    if idcg > 0.0 then Dcg(log2, Gains(q, ranked), k) / idcg else 0.0
  }

  lemma {:induction false} ZeroGains(log2: nat -> real, s: seq<real>, n: nat)
    requires (forall i :: i >= 2 ==> log2(i) > 0.0) && forall i :: 0 <= i < |s| ==> s[i] == 0.0
    ensures Dcg(log2, s, n) == 0.0
  {
    if n == 0 {
    } else {
      ZeroGains(log2, s, n - 1);
    }
  }

  /** Without anything relevant every ranking scores zero. */
  lemma NothingRelevantScoresZero(log2: nat -> real, ranked: seq<Id>, q: Qrels, k: nat)
    requires (forall i :: i >= 2 ==> log2(i) > 0.0) && forall d :: d in q.rel ==> q.rel[d] == 0.0
    ensures NdcgAtK(log2, ranked, q, k) == 0.0
  {
    hide SortDesc;
    SameElements(Gains(q, q.order), IdealGains(q));
    assert forall i :: 0 <= i < |IdealGains(q)| ==> IdealGains(q)[i] in Gains(q, q.order);
    ZeroGains(log2, IdealGains(q), k);
  }

  // ----- sorting ids by gain sorts the gains -----

  lemma GainsCons(q: Qrels, d: Id, ids: seq<Id>)
    ensures Gains(q, [d] + ids) == [q.Gain(d)] + Gains(q, ids)
  {
  }

  lemma {:induction false} InsertGains(q: Qrels, d: Id, ids: seq<Id>)
    ensures Insert(q.Gain(d), Gains(q, ids), (x: real) => x) == Gains(q, Insert(d, ids, x => q.Gain(x)))
  {
    hide Gains;
    var id, gain := (x: real) => x, x => q.Gain(x);
    if ids == [] || gain(d) >= gain(ids[0]) {
      GainsCons(q, d, ids);
    } else {
      var h, rest := ids[0], ids[1..];
      assert ids == [h] + rest;
      GainsCons(q, h, rest);
      assert Gains(q, ids)[1..] == Gains(q, rest);
      InsertGains(q, d, rest);
      GainsCons(q, h, Insert(d, rest, gain));
    }
  }

  lemma {:induction false} SortGains(q: Qrels, ids: seq<Id>)
    ensures SortDesc(Gains(q, ids), (x: real) => x) == Gains(q, SortDesc(ids, x => q.Gain(x)))
  {
    if ids == [] {
    } else {
      hide Gains, SortDesc, Insert;
      var d, rest := ids[0], ids[1..];
      assert ids == [d] + rest;
      SortGains(q, rest);
      GainsCons(q, d, rest);
      SortFirst(q.Gain(d), Gains(q, rest), (x: real) => x);
      SortFirst(d, rest, x => q.Gain(x));
      InsertGains(q, d, SortDesc(rest, x => q.Gain(x)));
    }
  }

  lemma SortFirst<T>(x: T, xs: seq<T>, key: T -> real)
    ensures SortDesc([x] + xs, key) == Insert(x, SortDesc(xs, key), key)
  {
    hide Insert;
    assert ([x] + xs)[1..] == xs;
  }

  // ----- no choice of j ids gains more than the j best -----

  function Total(q: Qrels, ids: seq<Id>): real
  {
    if ids == [] then 0.0 else Total(q, ids[..|ids| - 1]) + q.Gain(ids[|ids| - 1])
  }

  lemma {:induction false} TotalConcat(q: Qrels, a: seq<Id>, b: seq<Id>)
    ensures Total(q, a + b) == Total(q, a) + Total(q, b)
  {
    if b == [] {
      assert a + b == a;
    } else {
      var init := b[..|b| - 1];
      TotalConcat(q, a, init);
      assert (a + b)[..|a + b| - 1] == a + init;
    }
  }

  lemma TotalOne(q: Qrels, d: Id)
    ensures Total(q, [d]) == q.Gain(d)
  {
    assert Total(q, [d]) == Total(q, []) + q.Gain(d);
  }

  lemma RemoveGain(q: Qrels, t: seq<Id>, i: nat)
    requires i < |t|
    ensures Total(q, t) == q.Gain(t[i]) + Total(q, t[..i] + t[i + 1..])
  {
    hide Total;
    TotalConcat(q, t[..i], t[i + 1..]);
    TotalConcat(q, t[..i], [t[i]] + t[i + 1..]);
    TotalConcat(q, [t[i]], t[i + 1..]);
    TotalOne(q, t[i]);
    assert t[..i] + ([t[i]] + t[i + 1..]) == t;
  }

  lemma HeadGain(q: Qrels, best: seq<Id>, n: nat)
    requires n < |best|
    ensures Total(q, best[..n + 1]) == q.Gain(best[0]) + Total(q, best[1..][..n])
  {
    hide Total;
    TotalConcat(q, [best[0]], best[1..][..n]);
    TotalOne(q, best[0]);
    assert best[..n + 1] == [best[0]] + best[1..][..n];
  }

  lemma HeadIsBest(q: Qrels, best: seq<Id>, d: Id)
    requires Descending(best, x => q.Gain(x)) && d in best
    ensures q.Gain(d) <= q.Gain(best[0])
  {
    var j := IndexOf(best, d);
    assert (x => q.Gain(x))(best[0]) >= (x => q.Gain(x))(best[j]) || j == 0;
  }

  lemma RemoveNoDup(t: seq<Id>, i: nat)
    requires NoDup(t) && i < |t|
    ensures NoDup(t[..i] + t[i + 1..])
  {
  }

  lemma {:induction false} BestTotal(q: Qrels, t: seq<Id>, best: seq<Id>)
    requires NoDup(t) && NoDup(best) && forall d :: d in t ==> d in best
    requires Descending(best, x => q.Gain(x))
    ensures |t| <= |best| && Total(q, t) <= Total(q, best[..|t|])
    decreases |best|
  {
    if t == [] {
    } else {
      var x := t[0];
      assert x in t && x in best;
      var rest := best[1..];
      var i := if best[0] in t then IndexOf(t, best[0]) else 0;
      var t' := t[..i] + t[i + 1..];
      forall d | d in t' ensures d in rest {
        Inside(t, i, best, d);
      }
      var y := t[i];
      assert y in t && y in best;
      HeadIsBest(q, best, y);
      RemoveNoDup(t, i);
      hide Total;
      BestTotal(q, t', rest);
      RemoveGain(q, t, i);
      HeadGain(q, best, |t'|);
    }
  }

  lemma Inside(t: seq<Id>, i: nat, best: seq<Id>, d: Id)
    requires NoDup(t) && i < |t| && best != [] && (forall x :: x in t ==> x in best)
    requires best[0] in t ==> t[i] == best[0]
    requires d in t[..i] + t[i + 1..]
    ensures d in best[1..]
  {
    assert d in t;
    var j := IndexOf(best, d);
    assert d != best[0];
    assert best[1..][j - 1] == d;
  }

  /** The ids with a positive gain. */
  function Relevant(q: Qrels, ranked: seq<Id>): (t: seq<Id>)
    ensures |t| <= |ranked| && forall d :: d in t <==> d in ranked && q.Gain(d) > 0.0
  {
    if ranked == [] then []
    else
      var t := Relevant(q, ranked[..|ranked| - 1]);
      assert ranked == ranked[..|ranked| - 1] + [ranked[|ranked| - 1]];
      if q.Gain(ranked[|ranked| - 1]) > 0.0 then t + [ranked[|ranked| - 1]] else t
  }

  lemma {:induction false} RelevantNoDup(q: Qrels, ranked: seq<Id>)
    requires NoDup(ranked)
    ensures NoDup(Relevant(q, ranked))
  {
    if ranked == [] {
    } else {
      RelevantNoDup(q, ranked[..|ranked| - 1]);
      assert ranked[|ranked| - 1] !in ranked[..|ranked| - 1];
    }
  }

  lemma {:induction false} RelevantTotal(q: Qrels, ranked: seq<Id>)
    requires q.Valid()
    ensures Total(q, ranked) == Total(q, Relevant(q, ranked))
  {
    if ranked == [] {
    } else {
      var init, d := ranked[..|ranked| - 1], ranked[|ranked| - 1];
      var t := Relevant(q, init);
      RelevantTotal(q, init);
      NoNegativeGain(q, d);
      assert Relevant(q, ranked) == if q.Gain(d) > 0.0 then t + [d] else t;
      hide Relevant, Total;
      assert ranked == init + [d];
      TotalConcat(q, init, [d]);
      TotalConcat(q, t, [d]);
      TotalOne(q, d);
    }
  }

  lemma NoNegativeGain(q: Qrels, d: Id)
    requires q.Valid()
    ensures q.Gain(d) >= 0.0
  {
  }

  lemma {:induction false} TotalGrows(q: Qrels, ids: seq<Id>, m: nat, n: nat)
    requires q.Valid() && m <= n <= |ids|
    ensures Total(q, ids[..m]) <= Total(q, ids[..n])
    decreases n
  {
    if m >= n {
    } else {
      TotalGrows(q, ids, m, n - 1);
      assert ids[..n][..n - 1] == ids[..n - 1];
    }
  }

  lemma {:induction false} SumIsTotal(q: Qrels, ids: seq<Id>, n: nat)
    ensures Sum(Gains(q, ids), n) == Total(q, ids[..Min(n, |ids|)])
  {
    hide Gains;
    if n > 0 {
      SumIsTotal(q, ids, n - 1);
      if n <= |ids| {
        assert ids[..n][..n - 1] == ids[..n - 1];
      }
    } else {
      assert ids[..0] == [];
    }
  }

  /** The best `n` gains bound the first `n` gains of every ranking without repetitions. */
  lemma PrefixBound(q: Qrels, ranked: seq<Id>, best: seq<Id>, n: nat)
    requires q.Valid() && NoDup(Cut(ranked, n)) && NoDup(best) && (forall d :: q.Gain(d) > 0.0 ==> d in best)
    requires Descending(best, x => q.Gain(x))
    ensures Sum(Gains(q, ranked), n) <= Sum(Gains(q, best), n)
  {
    hide Total, Gains, Sum;
    var front := Cut(ranked, n);
    var t := Relevant(q, front);
    SumIsTotal(q, ranked, n);
    SumIsTotal(q, best, n);
    RelevantTotal(q, front);
    RelevantNoDup(q, front);
    BestTotal(q, t, best);
    TotalGrows(q, best, |t|, Min(n, |best|));
  }

  // ----- from prefix sums to discounted sums -----

  /** Summation by parts: larger prefix sums give a larger discounted sum. */
  lemma {:induction false} DcgMonotone(log2: nat -> real, a: seq<real>, b: seq<real>, n: nat)
    requires Log(log2) && forall i: nat :: i <= n ==> Sum(a, i) <= Sum(b, i)
    ensures Dcg(log2, a, n) <= Dcg(log2, b, n)
    ensures n > 0 ==> Dcg(log2, b, n) - Dcg(log2, a, n) >= (Sum(b, n) - Sum(a, n)) / log2(n + 1)
  {
    if n == 0 {
    } else {
      DcgMonotone(log2, a, b, n - 1);
      var l := log2(n + 1);
      var c, x, y := Sum(b, n - 1) - Sum(a, n - 1), At(b, n - 1), At(a, n - 1);
      if n > 1 {
        QuotientShrinks(c, log2(n), l);
      }
      Quotients(c, x, y, l);
      NonNegativeQuotient(c + x - y, l);
    }
  }

  lemma {:induction false} DcgSame(log2: nat -> real, a: seq<real>, b: seq<real>, n: nat)
    requires Log(log2) && forall i: nat :: i <= n ==> Sum(a, i) == Sum(b, i)
    ensures Dcg(log2, a, n) == Dcg(log2, b, n)
  {
    DcgMonotone(log2, a, b, n);
    DcgMonotone(log2, b, a, n);
  }

  lemma {:induction false} DcgNonNegative(log2: nat -> real, s: seq<real>, n: nat)
    requires Log(log2) && forall i :: 0 <= i < |s| ==> s[i] >= 0.0
    ensures Dcg(log2, s, n) >= 0.0
    ensures n > 0 && s != [] && s[0] > 0.0 ==> Dcg(log2, s, n) > 0.0
  {
    if n == 0 {
    } else {
      DcgNonNegative(log2, s, n - 1);
      NonNegativeQuotient(At(s, n - 1), log2(n + 1));
      if n == 1 && s != [] && s[0] > 0.0 {
        PositiveQuotient(s[0], log2(2));
      }
    }
  }

  // ----- the metric -----

  /** The judged ids, best first. */
  ghost function Best(q: Qrels): seq<Id> { SortDesc(q.order, x => q.Gain(x)) }

  lemma BestHolds(q: Qrels)
    requires q.Valid()
    ensures NoDup(Best(q)) && (forall d :: d in Best(q) <==> d in q.rel) && Descending(Best(q), x => q.Gain(x))
    ensures IdealGains(q) == Gains(q, Best(q))
  {
    SortDescending(q.order, x => q.Gain(x));
    SortGains(q, q.order);
    NoDupOfMultiset(q.order, Best(q));
    SameElements(q.order, Best(q));
  }

  /** NDCG is at most one for every ranking without repetitions up to the cut. */
  lemma NdcgIsBounded(log2: nat -> real, ranked: seq<Id>, q: Qrels, k: nat)
    requires Log(log2) && q.Valid() && NoDup(Cut(ranked, k))
    ensures Dcg(log2, Gains(q, ranked), k) <= Dcg(log2, IdealGains(q), k)
    ensures 0.0 <= NdcgAtK(log2, ranked, q, k) <= 1.0
  {
    BestHolds(q);
    forall i: nat | i <= k ensures Sum(Gains(q, ranked), i) <= Sum(IdealGains(q), i) {
      CutNoDup(ranked, i, k);
      PrefixBound(q, ranked, Best(q), i);
    }
    DcgMonotone(log2, Gains(q, ranked), IdealGains(q), k);
    DcgNonNegative(log2, Gains(q, ranked), k);
    var dcg, idcg := Dcg(log2, Gains(q, ranked), k), Dcg(log2, IdealGains(q), k);
    if idcg > 0.0 {
      NonNegativeQuotient(dcg, idcg);
      QuotientBound(dcg, idcg);
    }
  }

  /** Any ranking by descending relevance that misses no relevant id reaches one, if any id is relevant. */
  lemma SortedRankingIsPerfect(log2: nat -> real, ranked: seq<Id>, q: Qrels, k: nat)
    requires Log(log2) && q.Valid() && k > 0 && NoDup(ranked) && (forall d :: q.Gain(d) > 0.0 ==> d in ranked)
    requires Descending(ranked, x => q.Gain(x)) && exists d :: d in q.rel && q.rel[d] > 0.0
    ensures NdcgAtK(log2, ranked, q, k) == 1.0
  {
    hide Dcg, IdealGains, Gains, Sum, NoDup;
    forall i: nat | i <= k ensures Sum(Gains(q, ranked), i) == Sum(IdealGains(q), i) {
      SortedSums(ranked, q, i);
    }
    DcgSame(log2, Gains(q, ranked), IdealGains(q), k);
    IdealIsPositive(log2, q, k);
    OneIffEqual(Dcg(log2, Gains(q, ranked), k), Dcg(log2, IdealGains(q), k));
  }

  lemma SortedSums(ranked: seq<Id>, q: Qrels, i: nat)
    requires q.Valid() && NoDup(ranked) && (forall d :: q.Gain(d) > 0.0 ==> d in ranked)
    requires Descending(ranked, x => q.Gain(x))
    ensures Sum(Gains(q, ranked), i) == Sum(IdealGains(q), i)
  {
    BestHolds(q);
    CutOfNoDup(ranked, i);
    CutOfNoDup(Best(q), i);
    hide Gains, Sum, IdealGains, Cut, Best, NoDup;
    PrefixBound(q, ranked, Best(q), i);
    PrefixBound(q, Best(q), ranked, i);
  }

  /** Equal discounted sums leave no room between the prefix sums: the discount is strict. */
  lemma {:induction false} DcgEqualIsSame(log2: nat -> real, a: seq<real>, b: seq<real>, n: nat)
    requires Log(log2) && (forall i: nat :: i <= n ==> Sum(a, i) <= Sum(b, i)) && Dcg(log2, a, n) == Dcg(log2, b, n)
    ensures forall i: nat :: i <= n ==> Sum(a, i) == Sum(b, i)
  {
    if n == 0 {
    } else {
      var l := log2(n + 1);
      var s, s' := Sum(b, n - 1) - Sum(a, n - 1), Sum(b, n) - Sum(a, n);
      DcgMonotone(log2, a, b, n);
      NoQuotient(s', l);
      DcgMonotone(log2, a, b, n - 1);
      Quotients(0.0, At(b, n - 1), At(a, n - 1), l);
      Opposite(s, l);
      if n > 1 {
        StrictQuotient(s, log2(n), l);
      }
      DcgEqualIsSame(log2, a, b, n - 1);
    }
  }

  /** NDCG reaches one exactly when the gains are the ideal ones at every rank up to the cut. */
  lemma PerfectIffIdeal(log2: nat -> real, ranked: seq<Id>, q: Qrels, k: nat)
    requires Log(log2) && q.Valid() && k > 0 && NoDup(Cut(ranked, k)) && exists d :: d in q.rel && q.rel[d] > 0.0
    ensures NdcgAtK(log2, ranked, q, k) == 1.0 <==>
            forall i: nat :: i < k ==> At(Gains(q, ranked), i) == At(IdealGains(q), i)
  {
    BestHolds(q);
    var g, ideal := Gains(q, ranked), IdealGains(q);
    forall i: nat | i <= k ensures Sum(g, i) <= Sum(ideal, i) {
      CutNoDup(ranked, i, k);
      PrefixBound(q, ranked, Best(q), i);
    }
    IdealIsPositive(log2, q, k);
    OneIffEqual(Dcg(log2, g, k), Dcg(log2, ideal, k));
    hide Gains, IdealGains, Dcg;
    if forall i: nat :: i < k ==> At(g, i) == At(ideal, i) {
      SameSums(g, ideal, k);
      DcgSame(log2, g, ideal, k);
    } else if Dcg(log2, g, k) == Dcg(log2, ideal, k) {
      DcgEqualIsSame(log2, g, ideal, k);
      SameTerms(g, ideal, k);
    }
  }

  lemma {:induction false} SameSums(a: seq<real>, b: seq<real>, n: nat)
    requires forall i: nat :: i < n ==> At(a, i) == At(b, i)
    ensures forall i: nat :: i <= n ==> Sum(a, i) == Sum(b, i)
  {
    if n == 0 {
    } else {
      SameSums(a, b, n - 1);
    }
  }

  lemma SameTerms(a: seq<real>, b: seq<real>, n: nat)
    requires forall i: nat :: i <= n ==> Sum(a, i) == Sum(b, i)
    ensures forall i: nat :: i < n ==> At(a, i) == At(b, i)
  {
    forall i: nat | i < n ensures At(a, i) == At(b, i) {
      assert Sum(a, i + 1) == Sum(b, i + 1) && Sum(a, i) == Sum(b, i);
    }
  }

  lemma IdealIsPositive(log2: nat -> real, q: Qrels, k: nat)
    requires Log(log2) && q.Valid() && k > 0 && exists d :: d in q.rel && q.rel[d] > 0.0
    ensures Dcg(log2, IdealGains(q), k) > 0.0
  {
    hide Gains, Sum, Dcg, IdealGains, SortDesc;
    BestHolds(q);
    var best := Best(q);
    var d :| d in q.rel && q.rel[d] > 0.0;
    var j := IndexOf(best, d);
    assert q.Gain(best[0]) >= q.Gain(best[j]);
    DcgNonNegative(log2, IdealGains(q), k);
  }

  /** A repeated id breaks the bound. */
  lemma RepetitionExceedsOne(log2: nat -> real, d: Id)
    requires Log(log2)
    ensures NdcgAtK(log2, [d, d], Qrels([d], map[d := 1.0]), 2) > 1.0
  {
    var q := Qrels([d], map[d := 1.0]);
    var g, best := Gains(q, [d, d]), IdealGains(q);
    SortGains(q, [d]);
    assert best == [1.0] && g == [1.0, 1.0];
    var a, b := 1.0 / log2(2), 1.0 / log2(3);
    PositiveQuotient(1.0, log2(2));
    PositiveQuotient(1.0, log2(3));
    assert 0.0 / log2(3) == 0.0;
    hide Gains, IdealGains, SortDesc;
    assert Dcg(log2, best, 1) == At(best, 0) / log2(2) == a && Dcg(log2, g, 1) == At(g, 0) / log2(2) == a;
    assert Dcg(log2, best, 2) == a + At(best, 1) / log2(3) && Dcg(log2, g, 2) == a + At(g, 1) / log2(3);
    MoreThanOne(a + b, a);
  }

  // ----- when the bound holds for all judgements -----

  /** The first position that repeats an earlier one. */
  lemma {:induction false} FirstRepeat(ids: seq<Id>) returns (j: nat)
    requires !NoDup(ids)
    ensures j < |ids| && NoDup(ids[..j]) && ids[j] in ids[..j]
  {
    var init := ids[..|ids| - 1];
    if NoDup(init) {
      j := |init|;
      assert ids == init + [ids[j]];
    } else {
      j := FirstRepeat(init);
      assert init[..j] == ids[..j];
    }
  }

  /** The judgements that call exactly the given ids relevant. */
  function Flat(ids: seq<Id>): (q: Qrels)
    ensures NoDup(ids) ==> q.Valid()
    ensures forall d :: q.Gain(d) == if d in ids then 1.0 else 0.0
  {
    Qrels(ids, map d | d in ids :: 1.0)
  }

  /** Terms that are nowhere smaller and once larger give a larger discounted sum. */
  lemma {:induction false} DcgLarger(log2: nat -> real, a: seq<real>, b: seq<real>, n: nat, j: nat)
    requires Log(log2) && (forall i: nat :: i < n ==> At(a, i) >= At(b, i)) && At(a, j) > At(b, j)
    ensures Dcg(log2, a, n) >= Dcg(log2, b, n)
    ensures j < n ==> Dcg(log2, a, n) > Dcg(log2, b, n)
  {
    if n == 0 {
    } else {
      DcgLarger(log2, a, b, n - 1, j);
      var x, y, l := At(a, n - 1), At(b, n - 1), log2(n + 1);
      Quotients(0.0, x, y, l);
      assert 0.0 / l == 0.0;
      NonNegativeQuotient(x - y, l);
      if j == n - 1 {
        PositiveQuotient(x - y, l);
      }
    }
  }

  /** With as many relevant ids as stand before the repetition, the ideal runs out at it. */
  lemma IdealOfFlat(ids: seq<Id>, i: nat)
    requires NoDup(ids)
    ensures At(IdealGains(Flat(ids)), i) == if i < |ids| then 1.0 else 0.0
  {
    var q := Flat(ids);
    BestHolds(q);
    hide Gains, IdealGains, Flat;
    assert |Best(q)| == |ids|;
    if i < |ids| {
      assert Best(q)[i] in Best(q);
      SameElements(q.order, Best(q));
    }
  }

  lemma RepetitionBreaksTheBound(log2: nat -> real, ranked: seq<Id>, k: nat) returns (q: Qrels)
    requires Log(log2) && !NoDup(Cut(ranked, k))
    ensures q.Valid() && NdcgAtK(log2, ranked, q, k) > 1.0
  {
    var front := Cut(ranked, k);
    var j := FirstRepeat(front);
    var ids := front[..j];
    q := Flat(ids);
    var g, ideal := Gains(q, ranked), IdealGains(q);
    forall i: nat | i < k ensures At(g, i) >= At(ideal, i) {
      IdealOfFlat(ids, i);
      if i < j {
        assert ranked[i] == front[i] == ids[i];
      }
    }
    IdealOfFlat(ids, j);
    assert ranked[j] == front[j] && At(g, j) == 1.0;
    DcgLarger(log2, g, ideal, k, j);
    assert ids[0] in ids;
    IdealIsPositive(log2, q, k);
    MoreThanOne(Dcg(log2, g, k), Dcg(log2, ideal, k));
  }

  /** NDCG is at most one under all judgements exactly when the ranking repeats no id up to the cut. */
  lemma BoundedIffNoRepetition(log2: nat -> real, ranked: seq<Id>, k: nat)
    requires Log(log2)
    ensures (forall q: Qrels :: q.Valid() ==> NdcgAtK(log2, ranked, q, k) <= 1.0) <==> NoDup(Cut(ranked, k))
  {
    hide NdcgAtK, NoDup, Cut;
    if NoDup(Cut(ranked, k)) {
      forall q: Qrels | q.Valid() ensures NdcgAtK(log2, ranked, q, k) <= 1.0 {
        NdcgIsBounded(log2, ranked, q, k);
      }
    } else {
      var q := RepetitionBreaksTheBound(log2, ranked, k);
    }
  }

  // ----- recall -----

  ghost function RelevantIds(q: Qrels): set<Id> { set d | d in q.rel && q.rel[d] > 0.0 }

  /** `recall_at_k`. */
  ghost function RecallAtK(ranked: seq<Id>, q: Qrels, k: nat): real
  {
    if RelevantIds(q) == {} then 0.0
    else |Relevant(q, Cut(ranked, k))| as real / |RelevantIds(q)| as real
  }

  lemma {:induction false} NoDupSize(t: seq<Id>)
    requires NoDup(t)
    ensures |set d | d in t| == |t|
  {
    if t == [] {
    } else {
      var x, rest := t[|t| - 1], t[..|t| - 1];
      NoDupSize(rest);
      assert t == rest + [x] && x !in rest;
      assert (set d | d in t) == (set d | d in rest) + {x};
    }
  }

  lemma SubsetSize<T>(a: set<T>, b: set<T>)
    requires a <= b
    ensures |a| <= |b| && (|a| == |b| <==> a == b)
  {
    assert b == a + (b - a);
    assert |b - a| == 0 ==> b - a == {};
  }

  lemma NoDupFits(t: seq<Id>, s: set<Id>)
    requires NoDup(t) && forall d :: d in t ==> d in s
    ensures |t| <= |s| && (|t| == |s| <==> forall d :: d in s ==> d in t)
  {
    var elements := set d | d in t;
    NoDupSize(t);
    SubsetSize(elements, s);
    if forall d :: d in s ==> d in t {
      assert s <= elements;
    }
  }

  /** Recall is at most one, and one exactly when every relevant id stands before the cut. */
  lemma RecallIsBounded(ranked: seq<Id>, q: Qrels, k: nat)
    requires NoDup(Cut(ranked, k)) && RelevantIds(q) != {}
    ensures 0.0 <= RecallAtK(ranked, q, k) <= 1.0
    ensures RecallAtK(ranked, q, k) == 1.0 <==> forall d :: d in RelevantIds(q) ==> d in Cut(ranked, k)
  {
    var t, s := Relevant(q, Cut(ranked, k)), RelevantIds(q);
    RelevantNoDup(q, Cut(ranked, k));
    NoDupFits(t, s);
    hide Relevant, RelevantIds;
    QuotientBound(|t| as real, |s| as real);
    OneIffEqual(|t| as real, |s| as real);
  }

  lemma {:induction false} AllRelevant(q: Qrels, ids: seq<Id>, m: nat)
    requires m <= |ids| && forall i :: 0 <= i < m ==> q.Gain(ids[i]) > 0.0
    ensures |Relevant(q, ids)| >= m
  {
    if ids == [] || m == 0 {
    } else {
      var init := ids[..|ids| - 1];
      AllRelevant(q, init, if m == |ids| then m - 1 else m);
    }
  }

  /** Recall is at most one under all judgements exactly when the ranking repeats no id up to the cut. */
  lemma RecallBoundedIffNoRepetition(ranked: seq<Id>, k: nat)
    ensures (forall q: Qrels :: q.Valid() ==> RecallAtK(ranked, q, k) <= 1.0) <==> NoDup(Cut(ranked, k))
  {
    if NoDup(Cut(ranked, k)) {
      forall q: Qrels | q.Valid() ensures RecallAtK(ranked, q, k) <= 1.0 {
        if RelevantIds(q) != {} {
          RecallIsBounded(ranked, q, k);
        }
      }
    } else {
      var q := RepetitionBreaksRecall(ranked, k);
    }
  }

  lemma RepetitionBreaksRecall(ranked: seq<Id>, k: nat) returns (q: Qrels)
    requires !NoDup(Cut(ranked, k))
    ensures q.Valid() && RecallAtK(ranked, q, k) > 1.0
  {
    var front := Cut(ranked, k);
    var j := FirstRepeat(front);
    var ids := front[..j];
    q := Flat(ids);
    AllRelevant(q, front, j + 1);
    assert forall d :: d in RelevantIds(q) <==> d in ids;
    NoDupFits(ids, RelevantIds(q));
    assert ids[0] in RelevantIds(q);
    hide Relevant, RelevantIds;
    MoreThanOne(|Relevant(q, front)| as real, |RelevantIds(q)| as real);
  }
}
