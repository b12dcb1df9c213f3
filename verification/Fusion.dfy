/** Reciprocal rank fusion, in its two implementations, and the hybrid candidate pool. */
module Fusion {
  import opened Prelude
  import opened StableSort
  import Ranking

  type Id = Ranking.Id

  /** A dictionary from ids to scores in its insertion order. */
  datatype Scores = Scores(order: seq<Id>, score: map<Id, real>) {
    /** `scores.get(d, 0.0)`. */
    function Get(d: Id): real { if d in score then score[d] else 0.0 }

    /** `scores[d] = scores.get(d, 0.0) + x`. */
    function Add(d: Id, x: real): Scores
    {
      Scores(if d in score then order else order + [d], score[d := Get(d) + x])
    }

    /** `sorted(scores, key=scores.get, reverse=True)`. */
    function Ranked(): seq<Id> { SortDesc(order, d => Get(d)) }
  }

  /** What a weighted list contributes to the score of `d`. */
  function ListScore(k: nat, w: real, l: seq<Id>, d: Id): real
  {
    if l == [] then 0.0
    else ListScore(k, w, l[..|l| - 1], d) + if l[|l| - 1] == d then w / (k + |l|) as real else 0.0
  }

  function Score(k: nat, lists: seq<seq<Id>>, d: Id): real
  {
    if lists == [] then 0.0 else Score(k, lists[..|lists| - 1], d) + ListScore(k, 1.0, lists[|lists| - 1], d)
  }

  function Concat(lists: seq<seq<Id>>): seq<Id>
  {
    if lists == [] then [] else Concat(lists[..|lists| - 1]) + lists[|lists| - 1]
  }

  /** The fused ranking: all ids in order of first appearance, sorted stably by score. */
  function Fused(k: nat, lists: seq<seq<Id>>): seq<Id>
  {
    SortDesc(FirstSeen(Concat(lists)), d => Score(k, lists, d))
  }

  /** `scores` is the dictionary after the ids `seen`, each `d` with score `score(d)`. */
  ghost predicate Holds(scores: Scores, seen: seq<Id>, score: Id -> real)
  {
    && scores.order == FirstSeen(seen)
    && (forall d :: d in scores.score <==> d in seen)
    && forall d :: scores.Get(d) == score(d)
  }

  /** The inner loop of both implementations. */
  method AddRanks(scores: Scores, l: seq<Id>, w: real, k: nat, ghost seen: seq<Id>, ghost score: Id -> real)
    returns (r: Scores)
    requires Holds(scores, seen, score)
    ensures Holds(r, seen + l, d => score(d) + ListScore(k, w, l, d))
  {
    r := scores;
    assert seen + l[..0] == seen;
    for rank := 0 to |l|
      invariant Holds(r, seen + l[..rank], d => score(d) + ListScore(k, w, l[..rank], d))
    {
      ghost var before, d := r, l[rank];
      r := r.Add(l[rank], w / (k + rank + 1) as real);
      AddOne(before, seen, l, rank, w, k, score);
    }
    assert l[..|l|] == l;
  }

  lemma AddOne(s: Scores, seen: seq<Id>, l: seq<Id>, rank: nat, w: real, k: nat, score: Id -> real)
    requires rank < |l| && Holds(s, seen + l[..rank], d => score(d) + ListScore(k, w, l[..rank], d))
    ensures Holds(s.Add(l[rank], w / (k + rank + 1) as real), seen + l[..rank + 1],
                  d => score(d) + ListScore(k, w, l[..rank + 1], d))
  {
    hide FirstSeen, ListScore;
    var x, front, front' := w / (k + rank + 1) as real, l[..rank], l[..rank + 1];
    var s' := s.Add(l[rank], x);
    assert seen + front' == seen + front + [l[rank]];
    FirstSeenSnoc(seen + front, l[rank]);
    forall d ensures s'.Get(d) == score(d) + ListScore(k, w, front', d) {
      ListScoreSnoc(k, w, l, rank, d);
      AddThenGet(s, l[rank], x, d);
      assert s.Get(d) == score(d) + ListScore(k, w, front, d);
    }
    forall d ensures d in s'.score <==> d in seen + front' {
      assert d in seen + front' <==> d in seen + front || d == l[rank];
    }
  }

  lemma AddThenGet(s: Scores, e: Id, x: real, d: Id)
    ensures s.Add(e, x).Get(d) == s.Get(d) + if d == e then x else 0.0
  {
  }

  lemma ListScoreSnoc(k: nat, w: real, l: seq<Id>, rank: nat, d: Id)
    requires rank < |l|
    ensures ListScore(k, w, l[..rank + 1], d) ==
            ListScore(k, w, l[..rank], d) + if l[rank] == d then w / (k + rank + 1) as real else 0.0
  {
    assert l[..rank + 1][..rank] == l[..rank];
  }

  lemma FirstSeenSnoc(xs: seq<Id>, x: Id)
    ensures FirstSeen(xs + [x]) == if x in xs then FirstSeen(xs) else FirstSeen(xs) + [x]
  {
    assert (xs + [x])[..|xs|] == xs;
  }

  /** `rrf_fuse`. */
  method RrfFuse(lists: seq<seq<Id>>, k: nat) returns (ranked: seq<Id>)
    ensures ranked == Fused(k, lists)
  {
    var scores := Scores([], map[]);
    for i := 0 to |lists|
      invariant Holds(scores, Concat(lists[..i]), d => Score(k, lists[..i], d))
    {
      assert lists[..i + 1][..i] == lists[..i];
      scores := AddRanks(scores, lists[i], 1.0, k, Concat(lists[..i]), d => Score(k, lists[..i], d));
    }
    assert lists[..|lists|] == lists;
    SortSame(scores.order, d => scores.Get(d), d => Score(k, lists, d));
    ranked := scores.Ranked();
  }

  lemma {:induction false} InsertSame(x: Id, xs: seq<Id>, f: Id -> real, g: Id -> real)
    requires forall d :: f(d) == g(d)
    ensures Insert(x, xs, f) == Insert(x, xs, g)
  {
    if xs == [] {
    } else {
      InsertSame(x, xs[1..], f, g);
    }
  }

  lemma {:induction false} SortSame(xs: seq<Id>, f: Id -> real, g: Id -> real)
    requires forall d :: f(d) == g(d)
    ensures SortDesc(xs, f) == SortDesc(xs, g)
  {
    if xs == [] {
    } else {
      SortSame(xs[1..], f, g);
      InsertSame(xs[0], SortDesc(xs[1..], f), f, g);
    }
  }

  // ----- the weighted ensemble -----

  function WeightedScore(k: nat, lists: seq<seq<Id>>, weights: seq<real>, d: Id): real
    requires |lists| == |weights|
  {
    if lists == [] then 0.0
    else WeightedScore(k, lists[..|lists| - 1], weights[..|lists| - 1], d) +
         ListScore(k, weights[|lists| - 1], lists[|lists| - 1], d)
  }

  function WeightedFused(k: nat, lists: seq<seq<Id>>, weights: seq<real>): seq<Id>
    requires |lists| == |weights|
  {
    SortDesc(FirstSeen(Concat(lists)), d => WeightedScore(k, lists, weights, d))
  }

  /** The rankings of query `qi`, one from each result list. */
  function Column(results: seq<seq<seq<Id>>>, qi: nat): (c: seq<seq<Id>>)
    requires forall l :: l in results ==> qi < |l|
    ensures |c| == |results| && forall i :: 0 <= i < |c| ==> c[i] == results[i][qi]
  {
    seq(|results|, i requires 0 <= i < |results| => results[i][qi])
  }

  function Ones(n: nat): seq<real> { seq(n, _ => 1.0) }

  /** `zip(result_lists, weights)` stops with the shorter one. */
  function Zipped(results: seq<seq<seq<Id>>>, weights: seq<real>): seq<seq<seq<Id>>>
  {
    if |weights| < |results| then results[..|weights|] else results
  }

  predicate Rectangular(results: seq<seq<seq<Id>>>, weights: seq<real>)
  {
    results != [] && forall l :: l in Zipped(results, weights) ==> |results[0]| <= |l|
  }

  datatype EnsembleError = IndexError

  /** `rrf_ensemble`. An absent query of a zipped list is an index error. */
  method RrfEnsemble(results: seq<seq<seq<Id>>>, given: Option<seq<real>>, k: nat)
    returns (r: Result<seq<seq<Id>>, EnsembleError>)
    ensures var weights := if given.Some? then given.value else Ones(|results|);
            var lists := Zipped(results, weights);
            && (r.Ok? <==> Rectangular(results, weights))
            && (r.Ok? ==> |r.value| == |results[0]| && forall qi :: 0 <= qi < |r.value| ==>
                  r.value[qi] == WeightedFused(k, Column(lists, qi), weights[..|lists|]))
    ensures r.Ok? && given.None? ==> |r.value| == |results[0]| && forall qi :: 0 <= qi < |r.value| ==>
              (forall l :: l in results ==> qi < |l|) && r.value[qi] == Fused(k, Column(results, qi))
  {
    hide WeightedFused, Column, Ones, Fused;
    var weights := if given.Some? then given.value else Ones(|results|);
    var lists := Zipped(results, weights);
    if !Rectangular(results, weights) {
      return Err(IndexError);
    }
    var combined: seq<seq<Id>> := [];
    for qi := 0 to |results[0]|
      invariant |combined| == qi
      invariant forall i :: 0 <= i < qi ==> combined[i] == WeightedFused(k, Column(lists, i), weights[..|lists|])
    {
      var ranked := EnsembleQuery(Column(lists, qi), weights[..|lists|], k);
      combined := combined + [ranked];
    }
    if given.None? {
      UnitsAre(|results|);
      assert lists == results && weights[..|lists|] == weights;
      forall qi | 0 <= qi < |combined| ensures combined[qi] == Fused(k, Column(results, qi)) {
        EnsembleIsFusion(k, Column(results, qi), weights);
      }
    }
    return Ok(combined);
  }

  lemma UnitsAre(n: nat)
    ensures |Ones(n)| == n && forall i :: 0 <= i < n ==> Ones(n)[i] == 1.0
  {
  }

  method EnsembleQuery(lists: seq<seq<Id>>, weights: seq<real>, k: nat) returns (ranked: seq<Id>)
    requires |lists| == |weights|
    ensures ranked == WeightedFused(k, lists, weights)
  {
    var scores := Scores([], map[]);
    for i := 0 to |lists|
      invariant Holds(scores, Concat(lists[..i]), d => WeightedScore(k, lists[..i], weights[..i], d))
    {
      assert lists[..i + 1][..i] == lists[..i] && weights[..i + 1][..i] == weights[..i];
      scores := AddRanks(scores, lists[i], weights[i], k, Concat(lists[..i]),
                         d => WeightedScore(k, lists[..i], weights[..i], d));
    }
    assert lists[..|lists|] == lists && weights[..|lists|] == weights;
    SortSame(scores.order, d => scores.Get(d), d => WeightedScore(k, lists, weights, d));
    ranked := scores.Ranked();
  }

  lemma {:induction false} UnitWeights(k: nat, lists: seq<seq<Id>>, weights: seq<real>, d: Id)
    requires |lists| == |weights| && forall i :: 0 <= i < |weights| ==> weights[i] == 1.0
    ensures WeightedScore(k, lists, weights, d) == Score(k, lists, d)
  {
    if lists == [] {
    } else {
      UnitWeights(k, lists[..|lists| - 1], weights[..|lists| - 1], d);
    }
  }

  /** With unit weights the ensemble is the plain fusion, query by query, ties included. */
  lemma EnsembleIsFusion(k: nat, lists: seq<seq<Id>>, weights: seq<real>)
    requires |lists| == |weights| && forall i :: 0 <= i < |weights| ==> weights[i] == 1.0
    ensures WeightedFused(k, lists, weights) == Fused(k, lists)
  {
    forall d ensures WeightedScore(k, lists, weights, d) == Score(k, lists, d) {
      UnitWeights(k, lists, weights, d);
    }
    SortSame(FirstSeen(Concat(lists)), d => WeightedScore(k, lists, weights, d), d => Score(k, lists, d));
  }

  // ----- what fusion promises -----

  /** Every id of every list exactly once, in descending order of score. */
  lemma FusedHolds(k: nat, lists: seq<seq<Id>>)
    ensures NoDup(Fused(k, lists)) && Descending(Fused(k, lists), d => Score(k, lists, d))
    ensures forall d :: d in Fused(k, lists) <==> exists i :: 0 <= i < |lists| && d in lists[i]
  {
    var order := FirstSeen(Concat(lists));
    SortDescending(order, d => Score(k, lists, d));
    NoDupOfMultiset(order, Fused(k, lists));
    SameElements(order, Fused(k, lists));
    ConcatMembers(lists);
  }

  lemma {:induction false} ConcatMembers(lists: seq<seq<Id>>)
    ensures forall d :: d in Concat(lists) <==> exists i :: 0 <= i < |lists| && d in lists[i]
  {
    if lists == [] {
    } else {
      var init := lists[..|lists| - 1];
      ConcatMembers(init);
      forall d ensures d in Concat(lists) <==> exists i :: 0 <= i < |lists| && d in lists[i] {
        if i :| 0 <= i < |lists| && d in lists[i] {
          assert i == |lists| - 1 || d in init[i];
        }
      }
    }
  }

  /** Which of two ids comes first: the higher score, and on a tie the one seen first. */
  lemma OrderOfTwo(k: nat, lists: seq<seq<Id>>, a: Id, b: Id)
    requires a != b && a in Concat(lists) && b in Concat(lists)
    ensures a in Fused(k, lists) && b in Fused(k, lists)
    ensures IndexOf(Fused(k, lists), a) < IndexOf(Fused(k, lists), b) <==>
            || Score(k, lists, a) > Score(k, lists, b)
            || (Score(k, lists, a) == Score(k, lists, b) && IndexOf(Concat(lists), a) < IndexOf(Concat(lists), b))
  {
    hide Score, Concat, SortDesc, FirstSeen;
    var key, seen := d => Score(k, lists, d), Concat(lists);
    var order := FirstSeen(seen);
    SameElements(order, SortDesc(order, key));
    SortedOrder(order, key, a, b);
    if IndexOf(seen, a) < IndexOf(seen, b) {
      FirstSeenOrder(seen, a, b);
    } else {
      FirstSeenOrder(seen, b, a);
    }
  }

  lemma SortedOrder(order: seq<Id>, key: Id -> real, a: Id, b: Id)
    requires NoDup(order) && a != b && a in order && b in order
    ensures a in SortDesc(order, key) && b in SortDesc(order, key)
    ensures IndexOf(SortDesc(order, key), a) < IndexOf(SortDesc(order, key), b) <==>
            key(a) > key(b) || (key(a) == key(b) && IndexOf(order, a) < IndexOf(order, b))
  {
    hide SortDesc;
    var out := SortDesc(order, key);
    SortDescending(order, key);
    SameElements(order, out);
    NoDupOfMultiset(order, out);
    if key(a) == key(b) {
      SortStable(order, key, key(a));
      hide WithKey;
      TieOrder(order, key, a, b);
      TieOrder(out, key, a, b);
    }
  }

  /** Two elements of one key stand in the same order among the elements of that key. */
  lemma {:induction false} TieOrder(xs: seq<Id>, key: Id -> real, a: Id, b: Id)
    requires NoDup(xs) && a in xs && b in xs && a != b && key(a) == key(b)
    ensures a in WithKey(xs, key, key(a)) && b in WithKey(xs, key, key(a))
    ensures IndexOf(xs, a) < IndexOf(xs, b) <==>
            IndexOf(WithKey(xs, key, key(a)), a) < IndexOf(WithKey(xs, key, key(a)), b)
  {
    var x, rest := xs[0], xs[1..];
    assert xs == [x] + rest;
    var ties := WithKey(rest, key, key(a));
    assert WithKey(xs, key, key(a)) == (if key(x) == key(a) then [x] else []) + ties;
    hide WithKey;
    if x == a {
      Contains(rest, key, b);
      Shifted(a, ties, b);
    } else if x == b {
      Contains(rest, key, a);
      Shifted(b, ties, a);
    } else {
      TieOrder(rest, key, a, b);
      Shifted(x, rest, a);
      Shifted(x, rest, b);
      if key(x) == key(a) {
        Shifted(x, ties, a);
        Shifted(x, ties, b);
      } else {
        assert [] + ties == ties;
      }
    }
  }

  lemma Shifted(x: Id, xs: seq<Id>, a: Id)
    requires a in xs && x != a
    ensures a in [x] + xs && IndexOf([x] + xs, a) == 1 + IndexOf(xs, a)
  {
    assert ([x] + xs)[1..] == xs;
  }

  lemma {:induction false} Contains(xs: seq<Id>, key: Id -> real, a: Id)
    requires a in xs
    ensures a in WithKey(xs, key, key(a))
  {
    if xs[0] != a {
      Contains(xs[1..], key, a);
    }
  }

  // ----- scores do not depend on the order of the lists -----

  lemma {:induction false} ScoreConcat(k: nat, a: seq<seq<Id>>, b: seq<seq<Id>>, d: Id)
    ensures Score(k, a + b, d) == Score(k, a, d) + Score(k, b, d)
  {
    if b == [] {
      assert a + b == a;
    } else {
      ScoreConcat(k, a, b[..|b| - 1], d);
      assert (a + b)[..|a + b| - 1] == a + b[..|b| - 1];
    }
  }

  lemma {:induction false} ScoreIgnoresListOrder(k: nat, lists: seq<seq<Id>>, lists': seq<seq<Id>>, d: Id)
    requires multiset(lists) == multiset(lists')
    ensures Score(k, lists, d) == Score(k, lists', d)
  {
    if lists == [] {
      assert multiset(lists') == multiset{};
      assert lists' == [];
    } else {
      var l := lists[|lists| - 1];
      var init := lists[..|lists| - 1];
      assert lists == init + [l];
      assert l in multiset(lists');
      var i :| 0 <= i < |lists'| && lists'[i] == l;
      var rest := lists'[..i] + lists'[i + 1..];
      assert lists' == lists'[..i] + ([l] + lists'[i + 1..]);
      RemoveOne(lists', i);
      RemoveOne(lists, |lists| - 1);
      assert init + lists[|lists|..] == init;
      Cancel(multiset(init), multiset(rest), l);
      ScoreIgnoresListOrder(k, init, rest, d);
      ScoreConcat(k, lists'[..i], lists'[i + 1..], d);
      ScoreConcat(k, lists'[..i], [l] + lists'[i + 1..], d);
      ScoreConcat(k, [l], lists'[i + 1..], d);
      ScoreConcat(k, init, [l], d);
    }
  }

  // ----- dominance -----

  /** A weighted list without repetition contributes its weight over the shifted rank. */
  lemma {:induction false} ListScoreAt(k: nat, w: real, l: seq<Id>, d: Id)
    requires NoDup(l)
    ensures ListScore(k, w, l, d) == if d in l then w / (k + IndexOf(l, d) + 1) as real else 0.0
  {
    if l == [] {
    } else {
      var init, x := l[..|l| - 1], l[|l| - 1];
      ListScoreAt(k, w, init, d);
      hide IndexOf, ListScore;
      assert l == init + [x] && l[..|l|] == l;
      ListScoreSnoc(k, w, l, |init|, d);
      if d in init {
        IndexOfPrefix(init, [x], d);
      } else if d == x {
        IndexOfLast(l);
      }
    }
  }

  lemma IndexOfLast(l: seq<Id>)
    requires NoDup(l) && l != []
    ensures IndexOf(l, l[|l| - 1]) == |l| - 1
  {
  }

  function Total(xs: seq<real>): real
  {
    if xs == [] then 0.0 else Total(xs[..|xs| - 1]) + xs[|xs| - 1]
  }

  function Share(k: nat, w: real, l: seq<Id>, d: Id): real
  {
    if d in l then w / (k + IndexOf(l, d) + 1) as real else 0.0
  }

  function Shares(k: nat, lists: seq<seq<Id>>, weights: seq<real>, d: Id): seq<real>
    requires |lists| == |weights|
  {
    seq(|lists|, i requires 0 <= i < |lists| => Share(k, weights[i], lists[i], d))
  }

  /** The weighted score is the sum of the weights over the shifted ranks in the lists that hold the id. */
  lemma {:induction false} WeightedScoreIsSum(k: nat, lists: seq<seq<Id>>, weights: seq<real>, d: Id)
    requires |lists| == |weights| && forall l :: l in lists ==> NoDup(l)
    ensures WeightedScore(k, lists, weights, d) == Total(Shares(k, lists, weights, d))
  {
    hide NoDup, ListScore, IndexOf;
    if lists == [] {
    } else {
      var n := |lists| - 1;
      WeightedScoreIsSum(k, lists[..n], weights[..n], d);
      assert lists[n] in lists;
      ListScoreAt(k, weights[n], lists[n], d);
      var shares := Shares(k, lists, weights, d);
      assert shares[..n] == Shares(k, lists[..n], weights[..n], d);
    }
  }

  /** The weighted fusion holds every id once, by descending weighted score and, on a tie, by first appearance. */
  lemma WeightedOrder(k: nat, lists: seq<seq<Id>>, weights: seq<real>, a: Id, b: Id)
    requires |lists| == |weights| && a != b && a in Concat(lists) && b in Concat(lists)
    ensures NoDup(WeightedFused(k, lists, weights))
    ensures multiset(WeightedFused(k, lists, weights)) == multiset(FirstSeen(Concat(lists)))
    ensures a in WeightedFused(k, lists, weights) && b in WeightedFused(k, lists, weights)
    ensures var x, y := WeightedScore(k, lists, weights, a), WeightedScore(k, lists, weights, b);
            IndexOf(WeightedFused(k, lists, weights), a) < IndexOf(WeightedFused(k, lists, weights), b) <==>
            x > y || (x == y && IndexOf(Concat(lists), a) < IndexOf(Concat(lists), b))
  {
    hide WeightedScore, Concat, SortDesc, FirstSeen;
    var key, seen := d => WeightedScore(k, lists, weights, d), Concat(lists);
    var order := FirstSeen(seen);
    SameElements(order, SortDesc(order, key));
    NoDupOfMultiset(order, SortDesc(order, key));
    SortedOrder(order, key, a, b);
    if IndexOf(seen, a) < IndexOf(seen, b) {
      FirstSeenOrder(seen, a, b);
    } else {
      FirstSeenOrder(seen, b, a);
    }
  }

  /** Wherever `b` appears, `a` appears before it. */
  ghost predicate Leads(lists: seq<seq<Id>>, a: Id, b: Id)
  {
    forall i :: 0 <= i < |lists| ==>
      NoDup(lists[i]) && (b in lists[i] ==> a in lists[i] && IndexOf(lists[i], a) < IndexOf(lists[i], b))
  }

  lemma Reciprocals(m: int, n: int)
    requires 0 < m < n
    ensures 1.0 / m as real > 1.0 / n as real > 0.0
  {
    var x, y := 1.0 / m as real, 1.0 / n as real;
    assert x * m as real == 1.0 && y * n as real == 1.0;
    assert y > 0.0;
    assert y * m as real < y * n as real;
  }

  lemma {:induction false} LeaderScoresMore(k: nat, lists: seq<seq<Id>>, a: Id, b: Id)
    requires Leads(lists, a, b)
    ensures Score(k, lists, a) >= Score(k, lists, b)
    ensures b in Concat(lists) ==> Score(k, lists, a) > Score(k, lists, b)
  {
    if lists == [] {
    } else {
      var init, l := lists[..|lists| - 1], lists[|lists| - 1];
      LeaderScoresMore(k, init, a, b);
      ListScoreAt(k, 1.0, l, a);
      ListScoreAt(k, 1.0, l, b);
      if b in l {
        Reciprocals(k + IndexOf(l, a) + 1, k + IndexOf(l, b) + 1);
      } else if a in l {
        Reciprocals(k + IndexOf(l, a) + 1, k + IndexOf(l, a) + 2);
      }
    }
  }

  /** An id that leads another wherever that one appears stays ahead of it. */
  lemma LeaderStaysAhead(k: nat, lists: seq<seq<Id>>, a: Id, b: Id)
    requires a != b && Leads(lists, a, b) && b in Concat(lists)
    ensures a in Fused(k, lists) && b in Fused(k, lists) && IndexOf(Fused(k, lists), a) < IndexOf(Fused(k, lists), b)
  {
    LeaderScoresMore(k, lists, a, b);
    ConcatMembers(lists);
    var i :| 0 <= i < |lists| && b in lists[i];
    assert a in lists[i];
    OrderOfTwo(k, lists, a, b);
  }

  lemma ScoreOfTwo(k: nat, l: seq<Id>, l': seq<Id>, d: Id)
    ensures Score(k, [l, l'], d) == ListScore(k, 1.0, l, d) + ListScore(k, 1.0, l', d)
  {
    hide ListScore;
    assert [l, l'][..1] == [l] && [l][..0] == [];
    assert Score(k, [l], d) == Score(k, [], d) + ListScore(k, 1.0, l, d);
  }

  /** Leading only in the lists that contain both is not enough: `[a, b]` and `[b]` put `b` first. */
  lemma LeadingSharedListsIsNotEnough(k: nat, a: Id, b: Id)
    requires a != b
    ensures var lists := [[a, b], [b]];
            && a in Fused(k, lists) && b in Fused(k, lists)
            && IndexOf(Fused(k, lists), b) < IndexOf(Fused(k, lists), a)
  {
    var lists := [[a, b], [b]];
    ListScoreAt(k, 1.0, [a, b], a);
    ListScoreAt(k, 1.0, [a, b], b);
    ListScoreAt(k, 1.0, [b], a);
    ListScoreAt(k, 1.0, [b], b);
    assert IndexOf([a, b], a) == 0 && IndexOf([a, b], b) == 1 && IndexOf([b], b) == 0;
    Reciprocals(k + 1, k + 2);
    ScoreOfTwo(k, [a, b], [b], a);
    ScoreOfTwo(k, [a, b], [b], b);
    assert Score(k, lists, a) == 1.0 / (k + 1) as real;
    assert Score(k, lists, b) == 1.0 / (k + 2) as real + 1.0 / (k + 1) as real;
    assert a in lists[0] && b in lists[0];
    ConcatMembers(lists);
    OrderOfTwo(k, lists, b, a);
  }

  ghost predicate Selected(sel: seq<seq<Id>>, lists: seq<seq<Id>>)
  {
    forall l :: l in sel ==> l in lists
  }

  ghost predicate Ahead(k: nat, lists: seq<seq<Id>>, a: Id, b: Id)
  {
    var f := Fused(k, lists);
    a in f && b in f && IndexOf(f, a) < IndexOf(f, b)
  }

  /** The exact condition for the given lists: both are ranked, and the higher sum of reciprocal ranks
      decides, on a tie the first appearance. */
  lemma AheadIffScores(k: nat, lists: seq<seq<Id>>, a: Id, b: Id)
    requires a != b
    ensures Ahead(k, lists, a, b) <==>
            && a in Concat(lists) && b in Concat(lists)
            && (|| Score(k, lists, a) > Score(k, lists, b)
                || (Score(k, lists, a) == Score(k, lists, b) && IndexOf(Concat(lists), a) < IndexOf(Concat(lists), b)))
  {
    hide Score, Fused, Concat;
    FusedHolds(k, lists);
    ConcatMembers(lists);
    if a in Concat(lists) && b in Concat(lists) {
      OrderOfTwo(k, lists, a, b);
    }
  }

  /** The exact condition for all selections: one id is ahead of another in the fusion of every selection of the lists
      that ranks the other at all, exactly when it leads in every single list. */
  lemma AheadIffLeads(k: nat, lists: seq<seq<Id>>, a: Id, b: Id)
    requires a != b && forall i :: 0 <= i < |lists| ==> NoDup(lists[i])
    ensures (forall sel :: Selected(sel, lists) && b in Concat(sel) ==> Ahead(k, sel, a, b)) <==> Leads(lists, a, b)
  {
    hide Fused, Concat;
    if Leads(lists, a, b) {
      forall sel | Selected(sel, lists) && b in Concat(sel) ensures Ahead(k, sel, a, b) {
        assert Leads(sel, a, b) by {
          forall i | 0 <= i < |sel|
            ensures NoDup(sel[i]) && (b in sel[i] ==> a in sel[i] && IndexOf(sel[i], a) < IndexOf(sel[i], b))
          {
            assert sel[i] in sel;
            var j :| 0 <= j < |lists| && lists[j] == sel[i];
          }
        }
        LeaderStaysAhead(k, sel, a, b);
      }
    }
    if forall sel :: Selected(sel, lists) && b in Concat(sel) ==> Ahead(k, sel, a, b) {
      forall i | 0 <= i < |lists| && b in lists[i]
        ensures a in lists[i] && IndexOf(lists[i], a) < IndexOf(lists[i], b)
      {
        var sel := [lists[i]];
        assert Selected(sel, lists);
        OneListKeepsOrder(k, lists[i], a, b);
      }
    }
  }

  /** Fusing a single list without repetitions keeps its order. */
  lemma OneListKeepsOrder(k: nat, l: seq<Id>, a: Id, b: Id)
    requires a != b && NoDup(l) && b in l
    ensures b in Concat([l]) && (Ahead(k, [l], a, b) <==> a in l && IndexOf(l, a) < IndexOf(l, b))
  {
    hide Fused, Concat, Score, ListScore;
    FusedHolds(k, [l]);
    ConcatOne(l);
    assert [l][0] == l;
    if a in l {
      SingleScores(k, l, a, b);
      OrderOfTwo(k, [l], a, b);
    }
  }

  lemma ConcatOne(l: seq<Id>)
    ensures Concat([l]) == l
  {
    assert [l][..0] == [];
  }

  lemma SingleScores(k: nat, l: seq<Id>, a: Id, b: Id)
    requires a != b && NoDup(l) && a in l && b in l
    ensures Score(k, [l], a) > Score(k, [l], b) <==> IndexOf(l, a) < IndexOf(l, b)
    ensures Score(k, [l], a) != Score(k, [l], b)
  {
    hide Score, ListScore;
    ScoreOfOne(k, l, a);
    ScoreOfOne(k, l, b);
    ListScoreAt(k, 1.0, l, a);
    ListScoreAt(k, 1.0, l, b);
    var i, j := IndexOf(l, a), IndexOf(l, b);
    assert l[i] == a && l[j] == b;
    if i < j {
      Reciprocals(k + i + 1, k + j + 1);
    } else {
      Reciprocals(k + j + 1, k + i + 1);
    }
  }

  lemma ScoreOfOne(k: nat, l: seq<Id>, d: Id)
    ensures Score(k, [l], d) == ListScore(k, 1.0, l, d)
  {
    hide ListScore;
    assert [l][..0] == [];
  }

  // ----- the hybrid pool -----

  const TOP_K_RETRIEVE := 50

  function Top(l: seq<Id>): seq<Id> { if |l| <= TOP_K_RETRIEVE then l else l[..TOP_K_RETRIEVE] }

  /** `build_hybrid_pool`. */
  function HybridPool(bm25: seq<Id>, vec: seq<Id>): (pool: seq<Id>)
    ensures NoDup(pool) && |pool| <= 2 * TOP_K_RETRIEVE
    ensures forall d :: d in pool <==> d in Top(bm25) || d in Top(vec)
  {
    FirstSeenShorter(Top(bm25) + Top(vec));
    FirstSeen(Top(bm25) + Top(vec))
  }

  lemma {:induction false} FirstSeenShorter(xs: seq<Id>)
    ensures |FirstSeen(xs)| <= |xs|
  {
    if xs == [] {
    } else {
      FirstSeenShorter(xs[..|xs| - 1]);
    }
  }

  /** The pool lists lexical hits first, each group in its own order. */
  lemma PoolOrder(bm25: seq<Id>, vec: seq<Id>, a: Id, b: Id)
    requires a in Top(bm25) && (if b in Top(bm25) then IndexOf(Top(bm25), a) < IndexOf(Top(bm25), b) else b in Top(vec))
    ensures IndexOf(HybridPool(bm25, vec), a) < IndexOf(HybridPool(bm25, vec), b)
  {
    var l, v := Top(bm25), Top(vec);
    IndexOfPrefix(l, v, a);
    if b in l {
      IndexOfPrefix(l, v, b);
    } else {
      assert forall j :: 0 <= j < |l| ==> (l + v)[j] == l[j];
    }
    FirstSeenOrder(l + v, a, b);
  }

  /** Fused rankings and hybrid pools meet the premise of the metric: their NDCG is at most one. */
  lemma FusionScoresAtMostOne(log2: nat -> real, q: Ranking.Qrels, cut: nat, k: nat, lists: seq<seq<Id>>)
    requires Ranking.Log(log2) && q.Valid()
    ensures 0.0 <= Ranking.NdcgAtK(log2, Fused(k, lists), q, cut) <= 1.0
    ensures |lists| == 2 ==> 0.0 <= Ranking.NdcgAtK(log2, HybridPool(lists[0], lists[1]), q, cut) <= 1.0
  {
    FusedHolds(k, lists);
    hide Fused, HybridPool, Ranking.NdcgAtK;
    Ranking.CutOfNoDup(Fused(k, lists), cut);
    Ranking.NdcgIsBounded(log2, Fused(k, lists), q, cut);
    if |lists| == 2 {
      Ranking.CutOfNoDup(HybridPool(lists[0], lists[1]), cut);
      Ranking.NdcgIsBounded(log2, HybridPool(lists[0], lists[1]), q, cut);
    }
  }
}
