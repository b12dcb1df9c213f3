/** Choosing price tags near a shelf gap: suppression of overlapping boxes and the best vertical pair. */
module Shelf {
  import opened Prelude
  import opened StableSort
  import opened RealFacts

  /** Left, top, width and height. */
  datatype Box = Box(x: real, y: real, w: real, h: real)

  /** A detection; `box` is absent when it is not a list of four numbers. */
  datatype Item = Item(kind: string, score: real, box: Option<Box>)

  function Min(a: real, b: real): real { if a <= b then a else b }

  function Max(a: real, b: real): real { if a >= b then a else b }

  function Intersection(a: Box, b: Box): real
  {
    Max(0.0, Min(a.x + a.w, b.x + b.w) - Max(a.x, b.x)) * Max(0.0, Min(a.y + a.h, b.y + b.h) - Max(a.y, b.y))
  }

  /** `_iou`. */
  function Iou(a: Box, b: Box): real
  {
    var union := a.w * a.h + b.w * b.h - Intersection(a, b);
    if union > 0.0 then Intersection(a, b) / union else 0.0
  }

  /** `_horizontal_overlap`. */
  function HorizontalOverlap(a: Box, b: Box): real
  {
    if Min(a.w, b.w) <= 0.0 then 0.0
    else Max(0.0, Min(a.x + a.w, b.x + b.w) - Max(a.x, b.x)) / Min(a.w, b.w)
  }

  lemma IntersectionSymmetric(a: Box, b: Box)
    ensures Intersection(a, b) == Intersection(b, a)
  {
    assert Min(a.x + a.w, b.x + b.w) == Min(b.x + b.w, a.x + a.w) && Max(a.x, b.x) == Max(b.x, a.x);
    assert Min(a.y + a.h, b.y + b.h) == Min(b.y + b.h, a.y + a.h) && Max(a.y, b.y) == Max(b.y, a.y);
  }

  lemma IntersectionBounds(a: Box, b: Box)
    requires a.w >= 0.0 && a.h >= 0.0
    ensures 0.0 <= Intersection(a, b) <= a.w * a.h
  {
    var x := Max(0.0, Min(a.x + a.w, b.x + b.w) - Max(a.x, b.x));
    var y := Max(0.0, Min(a.y + a.h, b.y + b.h) - Max(a.y, b.y));
    ProductBound(x, y, a.w, a.h);
  }

  /** Overlap ratios are symmetric and, for boxes of non-negative size, between zero and one. */
  lemma IouIsARatio(a: Box, b: Box)
    ensures Iou(a, b) == Iou(b, a)
    ensures a.w >= 0.0 && a.h >= 0.0 && b.w >= 0.0 && b.h >= 0.0 ==> 0.0 <= Iou(a, b) <= 1.0
  {
    hide Intersection;
    IntersectionSymmetric(a, b);
    if a.w >= 0.0 && a.h >= 0.0 && b.w >= 0.0 && b.h >= 0.0 {
      IntersectionBounds(a, b);
      IntersectionBounds(b, a);
      var union := a.w * a.h + b.w * b.h - Intersection(a, b);
      assert Intersection(a, b) <= union;
      if union > 0.0 {
        QuotientBound(Intersection(a, b), union);
        assert Iou(a, b) == Intersection(a, b) / union;
      }
    }
  }

  /** The box has an area. */
  predicate Solid(a: Box) { a.w > 0.0 && a.h > 0.0 }

  /** The overlap of two intervals of positive length, zero exactly if they do not meet and the
      whole of the first exactly if the second covers it. */
  lemma IntervalOverlap(x: real, w: real, x': real, w': real)
    requires w > 0.0 && w' > 0.0
    ensures var o := Max(0.0, Min(x + w, x' + w') - Max(x, x'));
            && 0.0 <= o <= w && (o > 0.0 <==> x < x' + w' && x' < x + w)
            && (o == w <==> x' <= x && x + w <= x' + w')
  {
  }

  predicate Meet(a: Box, b: Box) { a.x < b.x + b.w && b.x < a.x + a.w && a.y < b.y + b.h && b.y < a.y + a.h }

  lemma MeetIff(a: Box, b: Box)
    requires Solid(a) && Solid(b)
    ensures Intersection(a, b) > 0.0 <==> Meet(a, b)
  {
    IntervalOverlap(a.x, a.w, b.x, b.w);
    IntervalOverlap(a.y, a.h, b.y, b.h);
    var ox := Max(0.0, Min(a.x + a.w, b.x + b.w) - Max(a.x, b.x));
    var oy := Max(0.0, Min(a.y + a.h, b.y + b.h) - Max(a.y, b.y));
    assert Intersection(a, b) == ox * oy;
    hide Min, Max, Intersection;
    if ox > 0.0 && oy > 0.0 {
      PositiveProduct(ox, oy);
    }
  }

  /** Boxes overlap in a positive ratio exactly if they meet. */
  lemma IouZeroIff(a: Box, b: Box)
    requires Solid(a) && Solid(b)
    ensures Iou(a, b) > 0.0 <==> Meet(a, b)
  {
    hide Intersection, Meet;
    MeetIff(a, b);
    UnionIsPositive(a, b);
    PositiveQuotient(Intersection(a, b), a.w * a.h + b.w * b.h - Intersection(a, b));
  }

  lemma UnionIsPositive(a: Box, b: Box)
    requires Solid(a) && Solid(b)
    ensures a.w * a.h + b.w * b.h - Intersection(a, b) >= a.w * a.h > 0.0
    ensures 0.0 <= Intersection(a, b) <= a.w * a.h && Intersection(a, b) <= b.w * b.h
  {
    hide Intersection;
    PositiveProduct(a.w, a.h);
    IntersectionBounds(a, b);
    IntersectionSymmetric(a, b);
    IntersectionBounds(b, a);
  }

  lemma PositiveQuotient(x: real, y: real)
    requires x >= 0.0 && y > 0.0
    ensures x / y > 0.0 <==> x > 0.0
    ensures x / y == 1.0 <==> x == y
  {
    var q := x / y;
    assert q * y == x;
    if q > 0.0 {
      PositiveProduct(q, y);
    } else {
      Product(-q, y);
      assert (-q) * y == -(q * y);
    }
    if q > 1.0 {
      PositiveProduct(q - 1.0, y);
    } else if q < 1.0 {
      PositiveProduct(1.0 - q, y);
    }
    assert (q - 1.0) * y == q * y - y && (1.0 - q) * y == y - q * y;
  }

  /** The ratio is one exactly for one and the same box. */
  lemma IouOneIff(a: Box, b: Box)
    requires Solid(a) && Solid(b)
    ensures Iou(a, b) == 1.0 <==> a == b
  {
    UnionIsPositive(a, b);
    PositiveQuotient(Intersection(a, b), a.w * a.h + b.w * b.h - Intersection(a, b));
    FullIntersection(a, b);
    FullIntersection(b, a);
    hide Intersection;
    IntersectionSymmetric(a, b);
    assert Iou(a, b) == 1.0 <==> Intersection(a, b) == a.w * a.h && Intersection(a, b) == b.w * b.h;
  }

  /** The intersection is all of a box exactly if the other one covers it. */
  lemma FullIntersection(a: Box, b: Box)
    requires Solid(a) && Solid(b)
    ensures Intersection(a, b) == a.w * a.h <==>
            b.x <= a.x && a.x + a.w <= b.x + b.w && b.y <= a.y && a.y + a.h <= b.y + b.h
  {
    IntervalOverlap(a.x, a.w, b.x, b.w);
    IntervalOverlap(a.y, a.h, b.y, b.h);
    var ox := Max(0.0, Min(a.x + a.w, b.x + b.w) - Max(a.x, b.x));
    var oy := Max(0.0, Min(a.y + a.h, b.y + b.h) - Max(a.y, b.y));
    assert Intersection(a, b) == ox * oy;
    hide Min, Max, Intersection;
    FullProduct(ox, oy, a.w, a.h);
  }

  lemma FullProduct(x: real, y: real, w: real, h: real)
    requires 0.0 <= x <= w && 0.0 <= y <= h && w > 0.0 && h > 0.0
    ensures x * y == w * h <==> x == w && y == h
  {
    if x < w {
      PositiveProduct(w - x, h);
      Product(x, h - y);
      assert w * h - x * y == (w - x) * h + x * (h - y);
    } else if y < h {
      PositiveProduct(w, h - y);
      assert w * h - x * y == w * (h - y);
    }
  }

  /** The horizontal overlap is a share of the narrower box: positive exactly if the boxes meet
      horizontally, one exactly if one of them covers the other. */
  lemma HorizontalOverlapIs(a: Box, b: Box)
    requires a.w > 0.0 && b.w > 0.0
    ensures 0.0 <= HorizontalOverlap(a, b) <= 1.0 && HorizontalOverlap(a, b) == HorizontalOverlap(b, a)
    ensures HorizontalOverlap(a, b) > 0.0 <==> a.x < b.x + b.w && b.x < a.x + a.w
    ensures HorizontalOverlap(a, b) == 1.0 <==>
            || (b.x <= a.x && a.x + a.w <= b.x + b.w)
            || (a.x <= b.x && b.x + b.w <= a.x + a.w)
  {
    IntervalOverlap(a.x, a.w, b.x, b.w);
    IntervalOverlap(b.x, b.w, a.x, a.w);
    var o, n := Max(0.0, Min(a.x + a.w, b.x + b.w) - Max(a.x, b.x)), Min(a.w, b.w);
    assert HorizontalOverlap(a, b) == o / n && HorizontalOverlap(b, a) == o / n;
    assert 0.0 <= o <= n && n > 0.0;
    QuotientBound(o, n);
    PositiveQuotient(o, n);
  }

  /** Boxes without a width have no horizontal overlap, and empty boxes no ratio. */
  lemma EmptyBoxes(a: Box, b: Box)
    ensures a.w <= 0.0 || b.w <= 0.0 ==> HorizontalOverlap(a, b) == 0.0
    ensures a.w == 0.0 && b.w == 0.0 ==> Iou(a, b) == 0.0
  {
    if a.w == 0.0 && b.w == 0.0 {
      var ox := Max(0.0, Min(a.x + a.w, b.x + b.w) - Max(a.x, b.x));
      assert ox == 0.0;
      assert Intersection(a, b) == 0.0;
    }
  }

  // ----- suppression -----

  /** A price tag in the vertical band of the gap that overlaps it horizontally. */
  predicate Eligible(gap: Box, item: Item)
  {
    item.kind == "price tag" && item.box.Some? &&
    var b := item.box.value;
    && b.y <= gap.y + gap.h + gap.h && b.y + b.h >= gap.y - gap.h * 0.25
    && HorizontalOverlap(gap, b) >= 0.25
  }

  /** A tag is eligible if it starts at most the gap's height below the gap, ends at most a quarter of
      it above, and shares a quarter of the narrower width. */
  lemma EligibleIff(gap: Box, b: Box, score: real)
    ensures var below, above := b.y - (gap.y + gap.h), gap.y - (b.y + b.h);
            Eligible(gap, Item("price tag", score, Some(b))) <==>
            below <= gap.h && 4.0 * above <= gap.h && 4.0 * HorizontalOverlap(gap, b) >= 1.0
    ensures forall kind: string, box :: kind != "price tag" || box == None ==> !Eligible(gap, Item(kind, score, box))
  {
    hide HorizontalOverlap;
  }

  predicate Suppresses(kept: Item, item: Item)
  {
    kept.box.Some? && item.box.Some? && Iou(item.box.value, kept.box.value) >= 0.7
  }

  /** Boxes with an area suppress each other if seven tenths of their union are shared. */
  lemma SuppressesIff(a: Item, b: Item)
    requires a.box.Some? && b.box.Some? && Solid(a.box.value) && Solid(b.box.value)
    ensures var x, y := a.box.value, b.box.value;
            Suppresses(a, b) <==>
            10.0 * Intersection(x, y) >= 7.0 * (x.w * x.h + y.w * y.h - Intersection(x, y))
  {
    hide Intersection;
    var x, y := a.box.value, b.box.value;
    UnionIsPositive(y, x);
    IntersectionSymmetric(x, y);
    QuotientAtLeast(Intersection(y, x), y.w * y.h + x.w * x.h - Intersection(y, x));
  }

  lemma QuotientAtLeast(x: real, y: real)
    requires y > 0.0
    ensures x / y >= 0.7 <==> 10.0 * x >= 7.0 * y
  {
    var q := x / y;
    assert q * y == x;
    if q >= 0.7 {
      Product(q - 0.7, y);
    } else {
      PositiveProduct(0.7 - q, y);
    }
    assert (q - 0.7) * y == x - 0.7 * y && (0.7 - q) * y == 0.7 * y - x;
  }

  /** The items kept from `items` in order, on top of `kept`. */
  function Keep(gap: Box, items: seq<Item>, kept: seq<Item>): seq<Item>
  {
    if items == [] then kept
    else
      var item := items[0];
      Keep(gap, items[1..],
           if Eligible(gap, item) && !(exists k :: k in kept && Suppresses(k, item)) then kept + [item] else kept)
  }

  /** The detections by descending score. */
  function ByScore(objects: seq<Item>): seq<Item> { SortDesc(objects, (i: Item) => i.score) }

  datatype ShelfError = TooFewCandidates | NoAlignedPair

  const LIMIT := 6

  /** The first `n` of a list. */
  function Take(xs: seq<Item>, n: nat): seq<Item> { if |xs| <= n then xs else xs[..n] }

  /** `nearby_price_candidates`. */
  method NearbyPriceCandidates(objects: seq<Item>, gap: Box) returns (r: Result<seq<Item>, ShelfError>)
    ensures var kept := Keep(gap, ByScore(objects), []);
            && (r.Ok? <==> |kept| >= 2) && (r.Ok? ==> r.value == Take(kept, LIMIT))
  {
    var sorted := ByScore(objects);
    var nearby: seq<Item> := [];
    for k := 0 to |sorted|
      invariant Keep(gap, sorted[k..], nearby) == Keep(gap, sorted, [])
    {
      var item := sorted[k];
      assert sorted[k..][1..] == sorted[k + 1..];
      if !Eligible(gap, item) {
        continue;
      }
      if exists kept :: kept in nearby && Suppresses(kept, item) {
        continue;
      }
      nearby := nearby + [item];
    }
    if |nearby| < 2 {
      return Err(TooFewCandidates);
    }
    return Ok(Take(nearby, LIMIT));
  }

  /** Kept items: eligible, below the threshold with each other, in the order of the input. */
  ghost predicate Spread(gap: Box, kept: seq<Item>)
  {
    && (forall k :: k in kept ==> Eligible(gap, k))
    && forall i, j :: 0 <= i < j < |kept| ==> !Suppresses(kept[i], kept[j])
  }

  lemma {:induction false} KeepGrows(gap: Box, items: seq<Item>, kept: seq<Item>)
    ensures kept <= Keep(gap, items, kept)
  {
    if items == [] {
    } else {
      hide Eligible, Suppresses;
      var item := items[0];
      var taken := Eligible(gap, item) && !(exists k :: k in kept && Suppresses(k, item));
      var kept' := if taken then kept + [item] else kept;
      KeepGrows(gap, items[1..], kept');
    }
  }

  lemma {:induction false} KeepIsSpread(gap: Box, items: seq<Item>, kept: seq<Item>)
    requires Spread(gap, kept)
    ensures Spread(gap, Keep(gap, items, kept))
    ensures forall x :: x in Keep(gap, items, kept) ==> x in kept || x in items
  {
    if items == [] {
    } else {
      hide Eligible, Suppresses;
      var item := items[0];
      if Eligible(gap, item) && !(exists k :: k in kept && Suppresses(k, item)) {
        KeepIsSpread(gap, items[1..], kept + [item]);
      } else {
        KeepIsSpread(gap, items[1..], kept);
      }
    }
  }

  lemma {:induction false} KeepDescends(gap: Box, items: seq<Item>, kept: seq<Item>)
    requires Descending(kept + items, (i: Item) => i.score)
    ensures Descending(Keep(gap, items, kept), (i: Item) => i.score)
  {
    hide Eligible, Suppresses;
    if items == [] {
      assert kept + items == kept;
    } else {
      var item, rest := items[0], items[1..];
      if Eligible(gap, item) && !(exists k :: k in kept && Suppresses(k, item)) {
        assert kept + [item] + rest == kept + items;
        KeepDescends(gap, rest, kept + [item]);
      } else {
        var all, less := kept + items, kept + rest;
        assert forall i :: 0 <= i < |less| ==> less[i] == all[if i < |kept| then i else i + 1];
        KeepDescends(gap, rest, kept);
      }
    }
  }

  /** A dropped item was not eligible or lost to a kept one that came before it. */
  lemma {:induction false} DroppedLost(gap: Box, items: seq<Item>, kept: seq<Item>, x: Item)
    requires x in items && Eligible(gap, x) && x !in Keep(gap, items, kept)
    requires Descending(kept + items, (i: Item) => i.score)
    ensures exists k :: k in Keep(gap, items, kept) && k.score >= x.score && Suppresses(k, x)
  {
    hide Eligible, Suppresses;
    var item, rest := items[0], items[1..];
    var taken := Eligible(gap, item) && !(exists k :: k in kept && Suppresses(k, item));
    var kept' := if taken then kept + [item] else kept;
    KeepGrows(gap, rest, kept');
    assert taken ==> Keep(gap, items, kept)[|kept|] == item;
    if item == x {
      var k :| k in kept && Suppresses(k, x);
      var i :| 0 <= i < |kept| && kept[i] == k;
      var all := kept + items;
      assert all[i] == k && all[|kept|] == x;
      assert Keep(gap, items, kept)[i] == k;
    } else {
      if taken {
        assert kept + [item] + rest == kept + items;
      } else {
        var all, less := kept + items, kept + rest;
        assert forall i :: 0 <= i < |less| ==> less[i] == all[if i < |kept| then i else i + 1];
      }
      DroppedLost(gap, rest, kept', x);
    }
  }

  predicate Lost(kept: seq<Item>, x: Item) { exists k :: k in kept && Suppresses(k, x) }

  lemma {:induction false} KeepSnoc(gap: Box, items: seq<Item>, kept: seq<Item>, x: Item)
    ensures var all := Keep(gap, items, kept);
            Keep(gap, items + [x], kept) == if Eligible(gap, x) && !Lost(all, x) then all + [x] else all
  {
    hide Eligible, Suppresses;
    if items == [] {
      assert (items + [x])[1..] == [];
    } else {
      var item := items[0];
      assert (items + [x])[1..] == items[1..] + [x];
      KeepSnoc(gap, items[1..], if Eligible(gap, item) && !Lost(kept, item) then kept + [item] else kept, x);
    }
  }

  /** `at` lists, in order, the positions of `items` that are eligible and that no listed earlier
      position suppresses: suppression by position, without reference to the loop. */
  ghost predicate Survive(gap: Box, items: seq<Item>, at: seq<nat>)
  {
    && (forall m, n :: 0 <= m < n < |at| ==> at[m] < at[n])
    && (forall m :: 0 <= m < |at| ==> at[m] < |items|)
    && (forall j: nat :: j < |items| ==>
          (j in at <==> Eligible(gap, items[j]) && !exists i :: i in at && i < j && Suppresses(items[i], items[j])))
  }

  function ItemsAt(items: seq<Item>, at: seq<nat>): (r: seq<Item>)
    requires forall m :: 0 <= m < |at| ==> at[m] < |items|
    ensures |r| == |at|
  {
    seq(|at|, m requires 0 <= m < |at| => items[at[m]])
  }

  ghost predicate KeptAt(gap: Box, items: seq<Item>, at: seq<nat>)
  {
    Survive(gap, items, at) && Keep(gap, items, []) == ItemsAt(items, at)
  }

  lemma NothingKept(gap: Box)
    ensures KeptAt(gap, [], [])
  {
    hide Eligible, Suppresses;
  }

  lemma KeptMore(gap: Box, init: seq<Item>, x: Item, before: seq<nat>)
    requires KeptAt(gap, init, before)
    ensures KeptAt(gap, init + [x],
                   if Eligible(gap, x) && !Lost(Keep(gap, init, []), x) then before + [|init|] else before)
  {
    hide Eligible, Suppresses, Keep, Lost;
    KeepSnoc(gap, init, [], x);
    LostAt(init, before, x);
    SurviveNext(gap, init, before, x);
    assert ItemsAt(init + [x], before) == ItemsAt(init, before);
    if Eligible(gap, x) && !Lost(Keep(gap, init, []), x) {
      assert ItemsAt(init + [x], before + [|init|]) == ItemsAt(init, before) + [x];
    }
  }

  /** The kept items are those at the surviving positions. */
  lemma {:induction false} KeptSurvive(gap: Box, items: seq<Item>) returns (at: seq<nat>)
    ensures KeptAt(gap, items, at)
  {
    hide KeptAt, Eligible, Lost, Keep;
    if items == [] {
      at := [];
      NothingKept(gap);
    } else {
      var init, x := items[..|items| - 1], items[|items| - 1];
      assert items == init + [x];
      at := KeptSurvive(gap, init);
      KeptMore(gap, init, x, at);
      at := if Eligible(gap, x) && !Lost(Keep(gap, init, []), x) then at + [|init|] else at;
    }
  }

  lemma LostAt(items: seq<Item>, at: seq<nat>, x: Item)
    requires forall m :: 0 <= m < |at| ==> at[m] < |items|
    ensures Lost(ItemsAt(items, at), x) <==> exists i :: i in at && i < |items| && Suppresses(items[i], x)
  {
    hide Suppresses;
    if i :| i in at && i < |items| && Suppresses(items[i], x) {
      var m :| 0 <= m < |at| && at[m] == i;
      assert ItemsAt(items, at)[m] == items[i];
    }
  }

  lemma SurviveNext(gap: Box, init: seq<Item>, before: seq<nat>, x: Item)
    requires Survive(gap, init, before)
    ensures var taken := Eligible(gap, x) && !exists i :: i in before && i < |init| && Suppresses(init[i], x);
            Survive(gap, init + [x], if taken then before + [|init|] else before)
  {
    hide Eligible, Suppresses;
    var items := init + [x];
    var taken := Eligible(gap, x) && !exists i :: i in before && i < |init| && Suppresses(init[i], x);
    var at := if taken then before + [|init|] else before;
    forall j: nat | j < |items|
      ensures j in at <==> Eligible(gap, items[j]) && !exists i :: i in at && i < j && Suppresses(items[i], items[j])
    {
      assert forall i :: i in at && i < j ==> i in before && items[i] == init[i];
      assert forall i :: i in before ==> i in at && i < |init|;
      if j < |init| {
        assert items[j] == init[j] && (j in at <==> j in before);
      }
    }
  }

  /** Suppression is sound and maximal over the detections sorted by score: what is dropped overlaps
      something kept earlier in that order, and so of no lower score. */
  lemma SuppressionHolds(gap: Box, objects: seq<Item>)
    ensures var kept := Keep(gap, ByScore(objects), []);
            && Spread(gap, kept) && Descending(kept, (i: Item) => i.score)
            && (forall x :: x in kept ==> x in objects)
            && (exists at :: Survive(gap, ByScore(objects), at)
                             && kept == ItemsAt(ByScore(objects), at))
            && forall x :: x in objects && Eligible(gap, x) && x !in kept ==>
                 exists k :: k in kept && k.score >= x.score && Suppresses(k, x)
  {
    hide Eligible, Suppresses, SortDesc;
    var sorted := ByScore(objects);
    SortDescending(objects, (i: Item) => i.score);
    SameElements(objects, sorted);
    assert [] + sorted == sorted;
    KeepIsSpread(gap, sorted, []);
    KeepDescends(gap, sorted, []);
    var kept := Keep(gap, sorted, []);
    var at := KeptSurvive(gap, sorted);
    hide Survive, ItemsAt;
    forall x | x in objects && Eligible(gap, x) && x !in kept
      ensures exists k :: k in kept && k.score >= x.score && Suppresses(k, x)
    {
      DroppedLost(gap, sorted, [], x);
    }
  }

  /** The loop that stops as soon as `limit` items are kept. */
  function KeepUntil(gap: Box, items: seq<Item>, kept: seq<Item>, limit: nat): seq<Item>
  {
    if items == [] || |kept| >= limit then kept
    else
      var item := items[0];
      KeepUntil(gap, items[1..],
                if Eligible(gap, item) && !(exists k :: k in kept && Suppresses(k, item)) then kept + [item] else kept,
                limit)
  }

  /** Truncating the kept items equals stopping at the limit. */
  lemma {:induction false} TruncatingIsStopping(gap: Box, items: seq<Item>, kept: seq<Item>, limit: nat)
    requires |kept| <= limit
    ensures Take(Keep(gap, items, kept), limit) == KeepUntil(gap, items, kept, limit)
  {
    hide Eligible, Suppresses;
    if |kept| == limit {
      KeepGrows(gap, items, kept);
    } else if items != [] {
      var item := items[0];
      var taken := Eligible(gap, item) && !(exists k :: k in kept && Suppresses(k, item));
      TruncatingIsStopping(gap, items[1..], if taken then kept + [item] else kept, limit);
    }
  }

  // ----- the best vertical pair -----

  datatype Candidate = Candidate(score: real, box: Box)

  datatype Pair = Pair(overlap: real, value: real, upper: Candidate, lower: Candidate)

  function Abs(x: real): real { if x < 0.0 then -x else x }

  /** The pair of two candidates, upper one first. */
  function MakePair(a: Candidate, b: Candidate): Pair
  {
    var upper, lower := if a.box.y <= b.box.y then a else b, if a.box.y <= b.box.y then b else a;
    var distance := Abs(lower.box.y - (upper.box.y + upper.box.h));
    Pair(HorizontalOverlap(a.box, b.box), upper.score + lower.score - distance / 10000.0, upper, lower)
  }

  /** The upper one of a pair is not below the lower one, and of two at one height it is the first. */
  lemma PairIsOrdered(a: Candidate, b: Candidate)
    ensures var p := MakePair(a, b);
            && p.upper.box.y <= p.lower.box.y
            && ((p.upper == a && p.lower == b) || (p.upper == b && p.lower == a && b.box.y < a.box.y))
  {
  }

  /** A pair is worth both scores, less a ten-thousandth of the vertical distance between the bottom of
      the upper box and the top of the lower one, whether they leave a space or overlap. */
  lemma PairIsWorth(a: Candidate, b: Candidate)
    ensures var p := MakePair(a, b);
            var space := p.lower.box.y - p.upper.box.y - p.upper.box.h;
            && p.overlap == HorizontalOverlap(a.box, b.box)
            && (space >= 0.0 ==> 10000.0 * (a.score + b.score - p.value) == space)
            && (space <= 0.0 ==> 10000.0 * (a.score + b.score - p.value) == -space)
  {
    hide HorizontalOverlap;
  }

  /** Pairs are ordered lexicographically: a total order on overlap and value, overlap first. */
  lemma PairOrder(p: Pair, q: Pair, r: Pair)
    ensures AtMost(p, q) || AtMost(q, p)
    ensures AtMost(p, q) && AtMost(q, p) <==> p.overlap == q.overlap && p.value == q.value
    ensures AtMost(p, q) && AtMost(q, r) ==> AtMost(p, r)
    ensures p.overlap < q.overlap ==> !AtMost(q, p)
  {
  }

  predicate Aligned(cs: seq<Candidate>, i: int, j: int)
  {
    0 <= i < j < |cs| && HorizontalOverlap(cs[i].box, cs[j].box) >= 0.6
  }

  /** Lexicographic order on overlap, then value. */
  predicate AtMost(p: Pair, q: Pair)
  {
    p.overlap < q.overlap || (p.overlap == q.overlap && p.value <= q.value)
  }

  /** `max(pairs, key=...)`: the position of the first of the greatest pairs. */
  function MaxIndex(pairs: seq<Pair>): (m: nat)
    requires pairs != []
    ensures m < |pairs| && (forall x :: 0 <= x < |pairs| ==> AtMost(pairs[x], pairs[m]))
    ensures forall x :: 0 <= x < m ==> !AtMost(pairs[m], pairs[x])
  {
    var last := |pairs| - 1;
    if last == 0 then 0
    else
      var m := MaxIndex(pairs[..last]);
      assert forall x :: 0 <= x < last ==> pairs[..last][x] == pairs[x];
      if AtMost(pairs[last], pairs[m]) then m else last
  }

  /** Candidates are compared row by row. */
  predicate Earlier(a: (nat, nat), b: (nat, nat)) { a.0 < b.0 || (a.0 == b.0 && a.1 < b.1) }

  function PairAt(cs: seq<Candidate>, a: (nat, nat)): Pair
    requires a.0 < |cs| && a.1 < |cs|
  {
    MakePair(cs[a.0], cs[a.1])
  }

  /** `at` lists, in order, the aligned pairs before `end`, and `pairs` is what they are. */
  ghost predicate Compared(cs: seq<Candidate>, pairs: seq<Pair>, at: seq<(nat, nat)>, end: (nat, nat))
  {
    && |pairs| == |at|
    && (forall x :: 0 <= x < |at| ==>
          Aligned(cs, at[x].0, at[x].1) && Earlier(at[x], end) && pairs[x] == PairAt(cs, at[x]))
    && (forall x, y :: 0 <= x < y < |at| ==> Earlier(at[x], at[y]))
    && (forall i: nat, j: nat :: Aligned(cs, i, j) && Earlier((i, j), end) ==> (i, j) in at)
  }

  lemma CompareNext(cs: seq<Candidate>, pairs: seq<Pair>, at: seq<(nat, nat)>, i: nat, j: nat)
    requires Compared(cs, pairs, at, (i, j)) && i < j < |cs|
    ensures Aligned(cs, i, j) ==> Compared(cs, pairs + [PairAt(cs, (i, j))], at + [(i, j)], (i, j + 1))
    ensures !Aligned(cs, i, j) ==> Compared(cs, pairs, at, (i, j + 1))
  {
    hide MakePair, Aligned, PairAt;
    forall a: nat, b: nat | Aligned(cs, a, b) && Earlier((a, b), (i, j + 1))
      ensures Earlier((a, b), (i, j)) || (a == i && b == j)
    {
    }
  }

  lemma CompareRow(cs: seq<Candidate>, pairs: seq<Pair>, at: seq<(nat, nat)>, i: nat)
    requires Compared(cs, pairs, at, (i, |cs|)) && i < |cs|
    ensures Compared(cs, pairs, at, (i + 1, 0)) && Compared(cs, pairs, at, (i + 1, i + 2))
  {
    hide MakePair, HorizontalOverlap, PairAt;
  }

  /** The aligned pair at `a` is a greatest one, and greater than every earlier one. */
  ghost predicate FirstGreatest(cs: seq<Candidate>, a: (nat, nat))
  {
    Aligned(cs, a.0, a.1) &&
    forall i: nat, j: nat :: Aligned(cs, i, j) ==>
      && AtMost(PairAt(cs, (i, j)), PairAt(cs, a))
      && (Earlier((i, j), a) ==> !AtMost(PairAt(cs, a), PairAt(cs, (i, j))))
  }

  lemma MaxIsFirstGreatest(cs: seq<Candidate>, pairs: seq<Pair>, at: seq<(nat, nat)>)
    requires Compared(cs, pairs, at, (|cs|, 0)) && pairs != []
    ensures FirstGreatest(cs, at[MaxIndex(pairs)])
  {
    hide MakePair, HorizontalOverlap, PairAt, MaxIndex, AtMost;
    var m := MaxIndex(pairs);
    forall i: nat, j: nat | Aligned(cs, i, j)
      ensures AtMost(PairAt(cs, (i, j)), PairAt(cs, at[m]))
      ensures Earlier((i, j), at[m]) ==> !AtMost(PairAt(cs, at[m]), PairAt(cs, (i, j)))
    {
      assert (i, j) in at;
      var x :| 0 <= x < |at| && at[x] == (i, j);
      assert m < x ==> Earlier(at[m], at[x]);
    }
  }

  /** `select_vertical_pair`: of the lexicographically greatest aligned pairs the first, if there is one. */
  method SelectVerticalPair(cs: seq<Candidate>) returns (r: Result<(Candidate, Candidate), ShelfError>)
    ensures r.Ok? <==> exists i: nat, j: nat :: Aligned(cs, i, j)
    ensures r.Ok? ==> exists a :: FirstGreatest(cs, a) && r.value == (PairAt(cs, a).upper, PairAt(cs, a).lower)
  {
    hide MakePair, HorizontalOverlap, AtMost, Compared, PairAt, FirstGreatest;
    var pairs: seq<Pair> := [];
    ghost var at: seq<(nat, nat)> := [];
    NothingCompared(cs);
    for i := 0 to |cs|
      invariant Compared(cs, pairs, at, (i, i + 1))
    {
      for j := i + 1 to |cs|
        invariant Compared(cs, pairs, at, (i, j))
      {
        CompareNext(cs, pairs, at, i, j);
        if HorizontalOverlap(cs[i].box, cs[j].box) < 0.6 {
          continue;
        }
        pairs := pairs + [PairAt(cs, (i, j))];
        at := at + [(i, j)];
      }
      CompareRow(cs, pairs, at, i);
    }
    AllCompared(cs, pairs, at);
    if pairs == [] {
      return Err(NoAlignedPair);
    }
    MaxIsFirstGreatest(cs, pairs, at);
    var best := pairs[MaxIndex(pairs)];
    return Ok((best.upper, best.lower));
  }

  lemma NothingCompared(cs: seq<Candidate>)
    ensures Compared(cs, [], [], (0, 1))
  {
  }

  lemma AllCompared(cs: seq<Candidate>, pairs: seq<Pair>, at: seq<(nat, nat)>)
    requires Compared(cs, pairs, at, (|cs|, |cs| + 1))
    ensures Compared(cs, pairs, at, (|cs|, 0))
    ensures pairs == [] <==> !exists i: nat, j: nat :: Aligned(cs, i, j)
    ensures |pairs| == |at| && forall x :: 0 <= x < |at| ==>
              at[x].0 < |cs| && at[x].1 < |cs| && pairs[x] == PairAt(cs, at[x])
  {
    hide MakePair, HorizontalOverlap, PairAt;
    if i: nat, j: nat :| Aligned(cs, i, j) {
      assert (i, j) in at;
    }
    if pairs != [] {
      assert Aligned(cs, at[0].0, at[0].1);
    }
  }
}
