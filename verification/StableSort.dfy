/** `sorted(xs, key=key, reverse=True)`: descending, equal keys in their original order. */
module StableSort {

  ghost predicate Descending<T>(xs: seq<T>, key: T -> real)
  {
    forall i, j :: 0 <= i < j < |xs| ==> key(xs[i]) >= key(xs[j])
  }

  /** The elements with one key, in order. */
  ghost function WithKey<T>(xs: seq<T>, key: T -> real, v: real): seq<T>
  {
    if xs == [] then [] else (if key(xs[0]) == v then [xs[0]] else []) + WithKey(xs[1..], key, v)
  }

  /** Insert an element that comes before all of `xs` in the original order. */
  function Insert<T>(x: T, xs: seq<T>, key: T -> real): (r: seq<T>)
    ensures |r| == |xs| + 1 && multiset(r) == multiset(xs) + multiset{x}
  {
    if xs == [] || key(x) >= key(xs[0]) then [x] + xs
    else
      var r := [xs[0]] + Insert(x, xs[1..], key);
      assert xs == [xs[0]] + xs[1..];
      r
  }

  function SortDesc<T>(xs: seq<T>, key: T -> real): (r: seq<T>)
    ensures |r| == |xs| && multiset(r) == multiset(xs)
  {
    if xs == [] then []
    else
      assert xs == [xs[0]] + xs[1..];
      Insert(xs[0], SortDesc(xs[1..], key), key)
  }

  lemma SameElements<T>(xs: seq<T>, ys: seq<T>)
    requires multiset(xs) == multiset(ys)
    ensures forall x :: x in xs <==> x in ys
  {
    forall x ensures x in xs <==> x in ys {
      assert x in xs <==> x in multiset(xs);
      assert x in ys <==> x in multiset(ys);
    }
  }

  lemma {:induction false} InsertDescending<T>(x: T, xs: seq<T>, key: T -> real)
    requires Descending(xs, key)
    ensures Descending(Insert(x, xs, key), key)
  {
    if xs != [] && key(x) < key(xs[0]) {
      var rest := Insert(x, xs[1..], key);
      InsertDescending(x, xs[1..], key);
      forall j | 0 <= j < |rest| ensures key(xs[0]) >= key(rest[j]) {
        assert rest[j] in multiset(rest);
        assert rest[j] == x || rest[j] in xs[1..];
      }
    }
  }

  /** The result is in descending order. */
  lemma {:induction false} SortDescending<T>(xs: seq<T>, key: T -> real)
    ensures Descending(SortDesc(xs, key), key)
  {
    if xs == [] {
    } else {
      SortDescending(xs[1..], key);
      InsertDescending(xs[0], SortDesc(xs[1..], key), key);
    }
  }

  lemma {:induction false} InsertStable<T>(x: T, xs: seq<T>, key: T -> real, v: real)
    ensures WithKey(Insert(x, xs, key), key, v) == (if key(x) == v then [x] else []) + WithKey(xs, key, v)
  {
    if xs == [] || key(x) >= key(xs[0]) {
      assert ([x] + xs)[1..] == xs;
    } else {
      var r := Insert(x, xs[1..], key);
      assert Insert(x, xs, key) == [xs[0]] + r;
      InsertStable(x, xs[1..], key, v);
      hide Insert, WithKey;
      WithKeyCons(xs[0], r, key, v);
      WithKeyCons(xs[0], xs[1..], key, v);
      assert xs == [xs[0]] + xs[1..];
    }
  }

  lemma WithKeyCons<T>(x: T, xs: seq<T>, key: T -> real, v: real)
    ensures WithKey([x] + xs, key, v) == (if key(x) == v then [x] else []) + WithKey(xs, key, v)
  {
    assert ([x] + xs)[1..] == xs;
  }

  /** The result keeps the order of elements with equal keys. */
  lemma {:induction false} SortStable<T>(xs: seq<T>, key: T -> real, v: real)
    ensures WithKey(SortDesc(xs, key), key, v) == WithKey(xs, key, v)
  {
    if xs == [] {
    } else {
      SortStable(xs[1..], key, v);
      InsertStable(xs[0], SortDesc(xs[1..], key), key, v);
    }
  }

  lemma {:induction false} WithKeyMember<T>(xs: seq<T>, key: T -> real, v: real)
    ensures WithKey(xs, key, v) != [] <==> exists i :: 0 <= i < |xs| && key(xs[i]) == v
  {
    if xs == [] {
    } else {
      WithKeyMember(xs[1..], key, v);
      if i :| 0 <= i < |xs| && key(xs[i]) == v {
        assert i == 0 || xs[1..][i - 1] == xs[i];
      }
      if i :| 0 <= i < |xs[1..]| && key(xs[1..][i]) == v {
        assert xs[i + 1] == xs[1..][i];
      }
    }
  }

  /** Descending and stable leaves no choice: every such sort gives the same result. */
  lemma {:induction false} SortUnique<T>(xs: seq<T>, ys: seq<T>, key: T -> real)
    requires Descending(xs, key) && Descending(ys, key)
    requires forall v :: WithKey(xs, key, v) == WithKey(ys, key, v)
    ensures xs == ys
  {
    if xs == [] || ys == [] {
      if xs != [] {
        WithKeyMember(xs, key, key(xs[0]));
        WithKeyMember(ys, key, key(xs[0]));
      }
      if ys != [] {
        WithKeyMember(xs, key, key(ys[0]));
        WithKeyMember(ys, key, key(ys[0]));
      }
    } else {
      WithKeyMember(ys, key, key(xs[0]));
      WithKeyMember(xs, key, key(ys[0]));
      assert key(xs[0]) == key(ys[0]);
      assert WithKey(xs, key, key(xs[0]))[0] == xs[0] && WithKey(ys, key, key(xs[0]))[0] == ys[0];
      forall v ensures WithKey(xs[1..], key, v) == WithKey(ys[1..], key, v) {
        var h := if key(xs[0]) == v then [xs[0]] else [];
        assert WithKey(xs, key, v) == h + WithKey(xs[1..], key, v);
        assert WithKey(ys, key, v) == h + WithKey(ys[1..], key, v);
        assert (h + WithKey(xs[1..], key, v))[|h|..] == (h + WithKey(ys[1..], key, v))[|h|..];
      }
      SortUnique(xs[1..], ys[1..], key);
    }
  }

  // ----- sequences without repetition -----

  predicate NoDup<T(==)>(xs: seq<T>)
  {
    forall i, j :: 0 <= i < j < |xs| ==> xs[i] != xs[j]
  }

  /** Keep the first occurrence of each element: `dict.fromkeys`. */
  function FirstSeen<T(==,!new)>(xs: seq<T>): (r: seq<T>)
    ensures NoDup(r) && (forall x :: x in r <==> x in xs)
  {
    if xs == [] then []
    else
      var r := FirstSeen(xs[..|xs| - 1]);
      assert xs == xs[..|xs| - 1] + [xs[|xs| - 1]];
      if xs[|xs| - 1] in r then r else r + [xs[|xs| - 1]]
  }

  function IndexOf<T(==)>(xs: seq<T>, x: T): (i: nat)
    requires x in xs
    ensures i < |xs| && xs[i] == x && forall j :: 0 <= j < i ==> xs[j] != x
  {
    if xs[0] == x then 0 else 1 + IndexOf(xs[1..], x)
  }

  lemma {:induction false} IndexOfPrefix<T>(xs: seq<T>, ys: seq<T>, x: T)
    requires x in xs
    ensures x in xs + ys && IndexOf(xs + ys, x) == IndexOf(xs, x)
  {
    var i, j := IndexOf(xs, x), IndexOf(xs + ys, x);
    assert forall k :: 0 <= k <= i ==> (xs + ys)[k] == xs[k];
  }

  /** First occurrences keep their order. */
  lemma {:induction false} FirstSeenOrder<T(!new)>(xs: seq<T>, a: T, b: T)
    requires a in xs && b in xs && IndexOf(xs, a) < IndexOf(xs, b)
    ensures IndexOf(FirstSeen(xs), a) < IndexOf(FirstSeen(xs), b)
  {
    var init, x := xs[..|xs| - 1], xs[|xs| - 1];
    assert xs == init + [x];
    assert a in init by {
      assert init[IndexOf(xs, a)] == a;
    }
    IndexOfPrefix(init, [x], a);
    if b in init {
      IndexOfPrefix(init, [x], b);
      FirstSeenOrder(init, a, b);
      IndexOfPrefix(FirstSeen(init), [x], a);
      IndexOfPrefix(FirstSeen(init), [x], b);
    } else {
      IndexOfPrefix(FirstSeen(init), [x], a);
    }
  }

  lemma NoDupOfMultiset<T>(xs: seq<T>, ys: seq<T>)
    requires multiset(xs) == multiset(ys) && NoDup(xs)
    ensures NoDup(ys)
  {
    forall i, j | 0 <= i < j < |ys| ensures ys[i] != ys[j] {
      if ys[i] == ys[j] {
        Twice(ys, i, j);
        AtMostOnce(xs, ys[i]);
      }
    }
  }

  lemma Twice<T>(ys: seq<T>, i: nat, j: nat)
    requires i < j < |ys| && ys[i] == ys[j]
    ensures multiset(ys)[ys[i]] >= 2
  {
    assert ys == ys[..i] + [ys[i]] + ys[i + 1..j] + [ys[j]] + ys[j + 1..];
  }

  lemma {:induction false} AtMostOnce<T>(xs: seq<T>, x: T)
    requires NoDup(xs)
    ensures multiset(xs)[x] <= 1
  {
    if xs == [] {
    } else {
      assert xs == [xs[0]] + xs[1..];
      AtMostOnce(xs[1..], x);
      if xs[0] == x {
        assert x !in xs[1..];
      }
    }
  }

  lemma RemoveOne<T>(xs: seq<T>, i: nat)
    requires i < |xs|
    ensures multiset(xs) == multiset(xs[..i] + xs[i + 1..]) + multiset{xs[i]}
  {
    assert xs == xs[..i] + [xs[i]] + xs[i + 1..];
  }

  lemma Cancel<T>(a: multiset<T>, b: multiset<T>, x: T)
    requires a + multiset{x} == b + multiset{x}
    ensures a == b
  {
    assert a == a + multiset{x} - multiset{x};
    assert b == b + multiset{x} - multiset{x};
  }
}
