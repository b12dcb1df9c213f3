/** Reranking many queries with a checkpoint file, across crashes and restarts. */
module Rerank {
  import opened Prelude
  import opened StableSort

  type Row = seq<int>

  const CHECKPOINT_INTERVAL := 100
  const BATCH_SIZE := 30

  function Full(n: nat, score: nat -> Row): (rows: seq<Row>)
    ensures |rows| == n && forall i :: 0 <= i < n ==> rows[i] == score(i)
  {
    seq(n, i requires 0 <= i < n => score(i))
  }

  /** The number of filled slots. */
  function Filled(results: seq<Option<Row>>): (c: nat)
    ensures c <= |results|
    ensures c == |results| <==> forall i :: 0 <= i < |results| ==> results[i].Some?
  {
    if results == [] then 0
    else Filled(results[..|results| - 1]) + if results[|results| - 1].Some? then 1 else 0
  }

  lemma {:induction false} FillOne(results: seq<Option<Row>>, i: nat, row: Row)
    requires i < |results| && results[i].None?
    ensures Filled(results[i := Some(row)]) == Filled(results) + 1
  {
    var init := results[..|results| - 1];
    if i == |init| {
      assert results[i := Some(row)][..|init|] == init;
    } else {
      FillOne(init, i, row);
      assert results[i := Some(row)][..|init|] == init[i := Some(row)];
    }
  }

  lemma {:induction false} NoneFilled(results: seq<Option<Row>>)
    requires forall i :: 0 <= i < |results| ==> results[i].None?
    ensures Filled(results) == 0
  {
    if results == [] {
    } else {
      NoneFilled(results[..|results| - 1]);
    }
  }

  /** Every filled slot holds the row that scoring gives. */
  ghost predicate Correct(n: nat, score: nat -> Row, results: seq<Option<Row>>)
  {
    |results| == n && forall i :: 0 <= i < n && results[i].Some? ==> results[i].value == score(i)
  }

  ghost predicate Extends(small: seq<Option<Row>>, big: seq<Option<Row>>)
  {
    |small| == |big| && forall i :: 0 <= i < |small| && small[i].Some? ==> big[i] == small[i]
  }

  function Empty(n: nat): (r: seq<Option<Row>>)
    ensures |r| == n && forall i :: 0 <= i < n ==> r[i].None?
  {
    seq(n, _ => None)
  }

  /** The cache file and the checkpoint file beside it. */
  class Store {
    var cache: Option<seq<Row>>
    var partial: Option<seq<Option<Row>>>

    constructor ()
      ensures cache == None && partial == None
    {
      cache, partial := None, None;
    }

    function Checkpoint(n: nat): seq<Option<Row>>
      reads this
    {
      if partial.Some? then partial.value else Empty(n)
    }

    /** A cache is complete; a checkpoint is correct and holds whole intervals. */
    ghost predicate Valid(n: nat, score: nat -> Row)
      reads this
    {
      && (cache.Some? ==> cache.value == Full(n, score))
      && (partial.Some? ==> Correct(n, score, partial.value) && Filled(partial.value) % CHECKPOINT_INTERVAL == 0)
    }
  }

  /** The scoring service, and the queries it has answered, in order. */
  class Scorer {
    const answers: nat -> Row
    var log: seq<nat>

    constructor (answers: nat -> Row)
      ensures this.answers == answers && log == []
    {
      this.answers, log := answers, [];
    }

    method Score(idx: nat) returns (row: Row)
      modifies this
      ensures row == answers(idx) && log == old(log) + [idx]
    {
      log := log + [idx];
      return answers(idx);
    }
  }

  /** Since the log was `log0` and the slots were `results0`, exactly the newly filled slots have been
      scored, each of them once. */
  ghost predicate Logged(log0: seq<nat>, log: seq<nat>, results0: seq<Option<Row>>, results: seq<Option<Row>>)
  {
    log0 <= log && |results| == |results0| &&
    var recent := log[|log0|..];
    && NoDup(recent) && |recent| + Filled(results0) == Filled(results)
    && (forall i: nat :: i in recent <==> i < |results0| && results0[i].None? && results[i].Some?)
  }

  lemma NothingLogged(log: seq<nat>, results: seq<Option<Row>>)
    ensures Logged(log, log, results, results)
  {
    hide Filled;
    assert log[|log|..] == [];
  }

  lemma LogOne(log0: seq<nat>, log: seq<nat>, results0: seq<Option<Row>>, results: seq<Option<Row>>, idx: nat, row: Row)
    requires Logged(log0, log, results0, results) && Extends(results0, results) && idx < |results| && results[idx].None?
    ensures Logged(log0, log + [idx], results0, results[idx := Some(row)])
  {
    hide Filled;
    FillOne(results, idx, row);
    var recent, more := log[|log0|..], (log + [idx])[|log0|..];
    assert more == recent + [idx] && idx !in recent;
  }

  lemma LogBoth(log0: seq<nat>, log1: seq<nat>, log2: seq<nat>, results0: seq<Option<Row>>, results1: seq<Option<Row>>,
                results2: seq<Option<Row>>)
    requires Logged(log0, log1, results0, results1) && Logged(log1, log2, results1, results2)
    requires Extends(results0, results1) && Extends(results1, results2)
    ensures Logged(log0, log2, results0, results2)
  {
    hide Filled;
    var a, b, c := log1[|log0|..], log2[|log1|..], log2[|log0|..];
    assert log2 == log1 + b && c == a + b;
    JoinNoDup(a, b);
    forall i: nat ensures i in c <==> i < |results0| && results0[i].None? && results2[i].Some? {
      assert i in c <==> i in a || i in b;
    }
  }

  lemma JoinNoDup(a: seq<nat>, b: seq<nat>)
    requires NoDup(a) && NoDup(b) && forall i :: i in a ==> i !in b
    ensures NoDup(a + b)
  {
    var c := a + b;
    forall i, j | 0 <= i < j < |c| ensures c[i] != c[j] {
      if i < |a| <= j {
        assert c[i] in a && c[j] in b;
      }
    }
  }

  /** One attempt: in which order scores complete, and how many steps the process lives. */
  datatype Attempt = Attempt(pick: set<nat> -> nat, life: nat)

  /** Completion order: any function that picks one of the pending queries. */
  ghost predicate Picks(pick: set<nat> -> nat)
  {
    forall pending :: pending != {} ==> pick(pending) in pending
  }

  /** The state between two steps: slots, the counter, and what the checkpoint on disk holds. */
  ghost predicate Between(n: nat, score: nat -> Row, results: seq<Option<Row>>, completed: nat, saved: seq<Option<Row>>)
  {
    && Correct(n, score, results) && Correct(n, score, saved) && Extends(saved, results)
    && completed == Filled(results)
    && Filled(saved) == completed - completed % CHECKPOINT_INTERVAL
  }

  /** Recording one score, and writing a checkpoint when an interval is full. */
  lemma RecordOne(n: nat, score: nat -> Row, results: seq<Option<Row>>, completed: nat, saved: seq<Option<Row>>,
                  idx: nat)
    requires Between(n, score, results, completed, saved) && idx < n && results[idx].None?
    ensures var results' := results[idx := Some(score(idx))];
            && Correct(n, score, results') && Extends(results, results') && Extends(saved, results')
            && completed + 1 == Filled(results') <= Filled(saved) + CHECKPOINT_INTERVAL
            && Between(n, score, results', completed + 1,
                       if (completed + 1) % CHECKPOINT_INTERVAL == 0 then results' else saved)
  {
    hide Filled;
    FillOne(results, idx, score(idx));
  }

  lemma BetweenHolds(n: nat, score: nat -> Row, results: seq<Option<Row>>, completed: nat, saved: seq<Option<Row>>)
    requires Between(n, score, results, completed, saved)
    ensures |results| == n && Correct(n, score, results) && Correct(n, score, saved) && Extends(results, results)
    ensures Extends(saved, saved) && completed == Filled(results) <= Filled(saved) + CHECKPOINT_INTERVAL
    ensures Filled(saved) % CHECKPOINT_INTERVAL == 0
  {
    hide Filled;
  }

  lemma ExtendsTransitive(a: seq<Option<Row>>, b: seq<Option<Row>>, c: seq<Option<Row>>)
    requires Extends(a, b) && Extends(b, c)
    ensures Extends(a, c)
  {
  }

  /** Of the batch, `pending` is open and the rest is filled; nothing else changed. */
  ghost predicate Progressed(n: nat, results0: seq<Option<Row>>, results: seq<Option<Row>>, batch: set<nat>,
                             pending: set<nat>)
  {
    && |results| == |results0| == n && pending <= batch && (forall i :: i in batch ==> i < n)
    && (forall i :: i in batch ==> (results[i].None? <==> i in pending))
    && (forall i :: 0 <= i < n && i !in batch ==> results[i] == results0[i])
  }

  lemma Untouched(n: nat, results0: seq<Option<Row>>, batch: set<nat>)
    requires |results0| == n && forall i :: i in batch ==> i < n && results0[i].None?
    ensures Progressed(n, results0, results0, batch, batch)
  {
  }

  lemma PickOne(n: nat, results0: seq<Option<Row>>, results: seq<Option<Row>>, batch: set<nat>, pending: set<nat>,
                idx: nat, row: Row)
    requires Progressed(n, results0, results, batch, pending) && idx in pending
    ensures idx < |results| == n && results[idx].None?
    ensures Progressed(n, results0, results[idx := Some(row)], batch, pending - {idx})
  {
  }

  lemma Finished(n: nat, results0: seq<Option<Row>>, results: seq<Option<Row>>, batch: set<nat>, pending: set<nat>)
    requires Progressed(n, results0, results, batch, pending)
    ensures |results| == |results0| == n
    ensures forall i :: 0 <= i < n && i !in batch ==> results[i] == results0[i]
    ensures pending == {} ==> forall i :: i in batch ==> i < n && results[i].Some?
  {
  }

  /** Within a batch: correct slots, the open queries, and the log since the batch began. */
  ghost predicate InBatch(n: nat, score: nat -> Row, results0: seq<Option<Row>>, results: seq<Option<Row>>,
                          batch: set<nat>, pending: set<nat>, log0: seq<nat>, log: seq<nat>)
  {
    && Correct(n, score, results) && Extends(results0, results) && Progressed(n, results0, results, batch, pending)
    && Logged(log0, log, results0, results)
  }

  lemma BatchBegins(n: nat, score: nat -> Row, results0: seq<Option<Row>>, batch: set<nat>, log: seq<nat>)
    requires Correct(n, score, results0) && forall i :: i in batch ==> i < n && results0[i].None?
    ensures InBatch(n, score, results0, results0, batch, batch, log, log)
  {
    hide Filled, Logged;
    Untouched(n, results0, batch);
    NothingLogged(log, results0);
  }

  lemma BatchStep(n: nat, score: nat -> Row, results0: seq<Option<Row>>, results: seq<Option<Row>>, batch: set<nat>,
                  pending: set<nat>, log0: seq<nat>, log: seq<nat>, completed: nat, saved: seq<Option<Row>>, idx: nat)
    requires InBatch(n, score, results0, results, batch, pending, log0, log) && idx in pending
    requires Between(n, score, results, completed, saved)
    ensures idx < n == |results| && results[idx].None? && completed + 1 == Filled(results[idx := Some(score(idx))])
    ensures InBatch(n, score, results0, results[idx := Some(score(idx))], batch, pending - {idx}, log0, log + [idx])
  {
    hide Filled, Logged, Progressed, Between, Extends, Correct;
    PickOne(n, results0, results, batch, pending, idx, score(idx));
    RecordOne(n, score, results, completed, saved, idx);
    ExtendsTransitive(results0, results, results[idx := Some(score(idx))]);
    LogOne(log0, log, results0, results, idx, score(idx));
  }

  /** The loop body for one completed score: record it and checkpoint every full interval. */
  method Record(n: nat, ghost score: nat -> Row, idx: nat, row: Row, store: Store, results: seq<Option<Row>>,
                completed: nat, life: nat)
    returns (alive: bool, life': nat)
    requires store.Valid(n, score) && Between(n, score, results, completed, store.Checkpoint(n))
    requires idx < n && results[idx].None? && row == score(idx) && life > 0
    modifies store
    ensures store.Valid(n, score) && store.cache == old(store.cache)
    ensures Extends(old(store.Checkpoint(n)), store.Checkpoint(n))
    ensures Filled(results) + 1 <= Filled(store.Checkpoint(n)) + CHECKPOINT_INTERVAL
    ensures alive ==> Between(n, score, results[idx := Some(row)], completed + 1, store.Checkpoint(n))
    ensures life' + 2 >= life && (life' > 0 ==> alive)
  {
    BetweenHolds(n, score, results, completed, store.Checkpoint(n));
    RecordOne(n, score, results, completed, store.Checkpoint(n), idx);
    hide Filled, Between, Correct, Extends, Full, Empty;
    alive, life' := true, life - 1;
    var results' := results[idx := Some(row)];
    if (completed + 1) % CHECKPOINT_INTERVAL == 0 {
      if life' == 0 {
        return false, 0;
      }
      life' := life' - 1;
      store.partial := Some(results');
      BetweenHolds(n, score, results', completed + 1, results');
    }
  }

  /** The next completed score of a batch. */
  method ScoreOne(n: nat, scorer: Scorer, pick: set<nat> -> nat, store: Store, ghost results0: seq<Option<Row>>,
                  ghost batch: set<nat>, ghost log0: seq<nat>, results: seq<Option<Row>>, completed: nat, life: nat,
                  pending: set<nat>)
    returns (alive: bool, results': seq<Option<Row>>, completed': nat, life': nat, pending': set<nat>)
    requires Picks(pick) && pending != {} && life > 0 && store.Valid(n, scorer.answers)
    requires InBatch(n, scorer.answers, results0, results, batch, pending, log0, scorer.log)
    requires Between(n, scorer.answers, results, completed, store.Checkpoint(n))
    modifies store, scorer
    ensures store.Valid(n, scorer.answers) && store.cache == old(store.cache) && pending' < pending
    ensures Extends(old(store.Checkpoint(n)), store.Checkpoint(n))
    ensures InBatch(n, scorer.answers, results0, results', batch, pending', log0, scorer.log)
    ensures completed' == completed + 1 == Filled(results') <= Filled(store.Checkpoint(n)) + CHECKPOINT_INTERVAL
    ensures alive ==> Between(n, scorer.answers, results', completed', store.Checkpoint(n))
    ensures life' + 2 >= life && (life' > 0 ==> alive)
  {
    hide Filled, Between, Correct, Extends, Full, Empty, CHECKPOINT_INTERVAL, InBatch;
    ghost var score, saved := scorer.answers, store.Checkpoint(n);
    var idx := pick(pending);
    BatchStep(n, score, results0, results, batch, pending, log0, scorer.log, completed, saved, idx);
    BetweenHolds(n, score, results, completed, saved);
    var row := scorer.Score(idx);
    alive, life' := Record(n, score, idx, row, store, results, completed, life);
    results', completed', pending' := results[idx := Some(row)], completed + 1, pending - {idx};
  }

  /** The loop over one batch of concurrent scores. */
  method RunBatch(n: nat, scorer: Scorer, batch: set<nat>, pick: set<nat> -> nat, store: Store,
                  results0: seq<Option<Row>>, completed0: nat, life0: nat)
    returns (alive: bool, results: seq<Option<Row>>, completed: nat, life: nat)
    requires Picks(pick) && store.Valid(n, scorer.answers)
    requires Between(n, scorer.answers, results0, completed0, store.Checkpoint(n))
    requires forall i :: i in batch ==> i < n && results0[i].None?
    modifies store, scorer
    ensures store.Valid(n, scorer.answers) && store.cache == old(store.cache) && Extends(results0, results)
    ensures Extends(old(store.Checkpoint(n)), store.Checkpoint(n))
    ensures Correct(n, scorer.answers, results)
    ensures completed == Filled(results) <= Filled(store.Checkpoint(n)) + CHECKPOINT_INTERVAL
    ensures Logged(old(scorer.log), scorer.log, results0, results)
    ensures forall i :: 0 <= i < n && i !in batch ==> results[i] == results0[i]
    ensures alive ==> Between(n, scorer.answers, results, completed, store.Checkpoint(n))
    ensures alive ==> forall i :: i in batch ==> results[i].Some?
    ensures life + 2 * (completed - completed0) >= life0 && (life > 0 ==> alive)
  {
    ghost var score := scorer.answers;
    BetweenHolds(n, score, results0, completed0, store.Checkpoint(n));
    BatchBegins(n, score, results0, batch, scorer.log);
    hide Filled, Between, Correct, Extends, Full, Empty, CHECKPOINT_INTERVAL, InBatch, Logged;
    results, completed, life, alive := results0, completed0, life0, true;
    var pending := batch;
    while pending != {} && alive
      invariant store.Valid(n, score) && store.cache == old(store.cache)
      invariant InBatch(n, score, results0, results, batch, pending, old(scorer.log), scorer.log)
      invariant alive ==> Between(n, score, results, completed, store.Checkpoint(n))
      invariant completed == Filled(results) <= Filled(store.Checkpoint(n)) + CHECKPOINT_INTERVAL
      invariant Extends(old(store.Checkpoint(n)), store.Checkpoint(n))
      invariant life + 2 * (completed - completed0) >= life0 && (life > 0 ==> alive)
      decreases pending, alive
    {
      if life == 0 {
        alive := false;
        continue;
      }
      ghost var saved := store.Checkpoint(n);
      alive, results, completed, life, pending :=
        ScoreOne(n, scorer, pick, store, results0, batch, old(scorer.log), results, completed, life, pending);
      ExtendsTransitive(old(store.Checkpoint(n)), saved, store.Checkpoint(n));
    }
    BatchEnds(n, score, results0, results, batch, pending, old(scorer.log), scorer.log);
  }

  lemma BatchEnds(n: nat, score: nat -> Row, results0: seq<Option<Row>>, results: seq<Option<Row>>, batch: set<nat>,
                  pending: set<nat>, log0: seq<nat>, log: seq<nat>)
    requires InBatch(n, score, results0, results, batch, pending, log0, log)
    ensures Correct(n, score, results) && Extends(results0, results) && Logged(log0, log, results0, results)
    ensures |results| == |results0| == n && forall i :: 0 <= i < n && i !in batch ==> results[i] == results0[i]
    ensures pending == {} ==> forall i :: i in batch ==> i < n && results[i].Some?
  {
    hide Filled, Logged;
    Finished(n, results0, results, batch, pending);
  }

  /** The slots still to be filled, in order. */
  function Remaining(results: seq<Option<Row>>): (r: seq<nat>)
    ensures forall i :: i in r <==> 0 <= i < |results| && results[i].None?
    ensures forall i, j :: 0 <= i < j < |r| ==> r[i] < r[j]
  {
    if results == [] then []
    else
      var r := Remaining(results[..|results| - 1]);
      assert forall j :: 0 <= j < |r| ==> r[j] in r;
      if results[|results| - 1].None? then r + [|results| - 1] else r
  }

  function Rows(results: seq<Option<Row>>): seq<Row>
    requires forall i :: 0 <= i < |results| ==> results[i].Some?
  {
    seq(|results|, i requires 0 <= i < |results| => results[i].value)
  }

  /** The queries of the batch that starts at position `lo`. */
  function Batch(remaining: seq<nat>, lo: nat): set<nat>
  {
    set j | lo <= j < Min(lo + BATCH_SIZE, |remaining|) :: remaining[j]
  }

  /** Which of the remaining slots are open when `k` positions are done. */
  ghost predicate DoneUpTo(results: seq<Option<Row>>, remaining: seq<nat>, k: nat)
  {
    && (forall j :: 0 <= j < |remaining| ==> remaining[j] < |results|)
    && (forall j :: 0 <= j < |remaining| ==> (results[remaining[j]].Some? <==> j < k))
    && (forall i, j :: 0 <= i < j < |remaining| ==> remaining[i] < remaining[j])
  }

  lemma BatchDone(before: seq<Option<Row>>, results: seq<Option<Row>>, remaining: seq<nat>, lo: nat)
    requires |before| == |results| && DoneUpTo(before, remaining, lo)
    requires forall i :: i in Batch(remaining, lo) ==> i < |results| && results[i].Some?
    requires forall i :: 0 <= i < |results| && i !in Batch(remaining, lo) ==> results[i] == before[i]
    ensures DoneUpTo(results, remaining, lo + BATCH_SIZE)
  {
    forall j | 0 <= j < |remaining| ensures results[remaining[j]].Some? <==> j < lo + BATCH_SIZE {
      assert remaining[j] in Batch(remaining, lo) <==> lo <= j < Min(lo + BATCH_SIZE, |remaining|);
    }
  }

  /** The loop over batches. */
  method RunBatches(n: nat, scorer: Scorer, attempt: Attempt, store: Store, start: seq<Option<Row>>,
                    remaining: seq<nat>)
    returns (alive: bool, results: seq<Option<Row>>, life: nat)
    requires Picks(attempt.pick) && store.Valid(n, scorer.answers)
    requires start == store.Checkpoint(n) && Between(n, scorer.answers, start, Filled(start), start)
    requires DoneUpTo(start, remaining, 0)
    modifies store, scorer
    ensures store.Valid(n, scorer.answers) && store.cache == old(store.cache)
    ensures Correct(n, scorer.answers, results) && Extends(start, results) && Extends(start, store.Checkpoint(n))
    ensures Filled(results) <= Filled(store.Checkpoint(n)) + CHECKPOINT_INTERVAL
    ensures Logged(old(scorer.log), scorer.log, start, results)
    ensures alive ==> forall j :: 0 <= j < |remaining| ==> remaining[j] < n && results[remaining[j]].Some?
    ensures life + 2 * (Filled(results) - Filled(start)) >= attempt.life && (life > 0 ==> alive)
  {
    ghost var score := scorer.answers;
    BetweenHolds(n, score, start, Filled(start), start);
    NothingLogged(scorer.log, start);
    hide Filled, Between, Correct, Extends, Batch, Logged, Full;
    results, life := start, attempt.life;
    var completed: nat := Filled(results);
    var batchStart: nat := 0;
    while batchStart < |remaining|
      invariant 0 <= batchStart && store.Valid(n, score) && store.cache == old(store.cache)
      invariant Between(n, score, results, completed, store.Checkpoint(n))
      invariant Extends(start, results) && Extends(start, store.Checkpoint(n))
      invariant Logged(old(scorer.log), scorer.log, start, results)
      invariant DoneUpTo(results, remaining, batchStart)
      invariant life + 2 * (completed - Filled(start)) >= attempt.life
    {
      BetweenHolds(n, score, results, completed, store.Checkpoint(n));
      ghost var before, saved, log := results, store.Checkpoint(n), scorer.log;
      BatchOpen(results, remaining, batchStart);
      alive, results, completed, life :=
        RunBatch(n, scorer, Batch(remaining, batchStart), attempt.pick, store, results, completed, life);
      LogBoth(old(scorer.log), log, scorer.log, start, before, results);
      ExtendsTransitive(start, before, results);
      ExtendsTransitive(start, saved, store.Checkpoint(n));
      if !alive {
        return;
      }
      BetweenHolds(n, score, results, completed, store.Checkpoint(n));
      BatchDone(before, results, remaining, batchStart);
      batchStart := batchStart + BATCH_SIZE;
    }
    BetweenHolds(n, score, results, completed, store.Checkpoint(n));
    alive := true;
  }

  lemma BatchOpen(results: seq<Option<Row>>, remaining: seq<nat>, lo: nat)
    requires DoneUpTo(results, remaining, lo)
    ensures forall i :: i in Batch(remaining, lo) ==> i < |results| && results[i].None?
  {
  }

  /** The queries that the attempt scored are distinct and none of them was checkpointed before. */
  ghost predicate NoneAgain(log0: seq<nat>, log: seq<nat>, saved: seq<Option<Row>>)
  {
    log0 <= log && NoDup(log[|log0|..]) && forall i :: i in log[|log0|..] ==> i < |saved| && saved[i].None?
  }

  lemma LoggedNoneAgain(log0: seq<nat>, log: seq<nat>, start: seq<Option<Row>>, results: seq<Option<Row>>)
    requires Logged(log0, log, start, results)
    ensures NoneAgain(log0, log, start) && |log| - |log0| == Filled(results) - Filled(start)
  {
    hide Filled;
  }

  /** `rerank_cross_encoder` with a cache path, in a process that dies after `attempt.life` steps.
      A returned value is complete; a process that dies loses at most one interval of results, and
      slots of the checkpoint are not scored again. */
  method RerankCrossEncoder(n: nat, scorer: Scorer, attempt: Attempt, store: Store) returns (r: Option<seq<Row>>)
    requires n > 0 && Picks(attempt.pick) && store.Valid(n, scorer.answers)
    modifies store, scorer
    ensures store.Valid(n, scorer.answers)
    ensures r.Some? ==> r.value == Full(n, scorer.answers) && store.cache == r
    ensures NoneAgain(old(scorer.log), scorer.log, old(store.Checkpoint(n)))
    ensures old(store.cache.Some?) ==> r == old(store.cache) && scorer.log == old(scorer.log)
    ensures r.Some? ==> |scorer.log| - |old(scorer.log)| <= n - Filled(old(store.Checkpoint(n)))
    ensures r.None? ==> Extends(old(store.Checkpoint(n)), store.Checkpoint(n))
    ensures r.None? ==> Filled(old(store.Checkpoint(n))) + (|scorer.log| - |old(scorer.log)|)
                        <= Filled(store.Checkpoint(n)) + CHECKPOINT_INTERVAL
    ensures attempt.life > 2 * n + 1 ==> r.Some?
  {
    hide Filled, Full, Rows, Logged;
    if store.cache.Some? {
      assert scorer.log[|scorer.log|..] == [];
      return store.cache;
    }
    var start := Empty(n);
    if store.partial.Some? {
      start := store.partial.value;
    } else {
      NoneFilled(start);
    }
    RemainingOpen(start);
    var alive, results, life := RunBatches(n, scorer, attempt, store, start, Remaining(start));
    LoggedNoneAgain(old(scorer.log), scorer.log, start, results);
    if !alive {
      return None;
    }
    forall i | 0 <= i < n ensures results[i].Some? {
      if start[i].None? {
        RemainingAt(start, i);
      }
    }
    if life == 0 {
      return None;
    }
    var rows := Rows(results);
    RowsAreFull(n, scorer.answers, results);
    store.cache := Some(rows);
    if life == 1 {
      return None;
    }
    store.partial := None;
    return Some(rows);
  }

  lemma RemainingOpen(start: seq<Option<Row>>)
    ensures DoneUpTo(start, Remaining(start), 0)
  {
    var r := Remaining(start);
    forall j | 0 <= j < |r| ensures r[j] < |start| && start[r[j]].None? {
      assert r[j] in r;
    }
  }

  lemma RemainingAt(start: seq<Option<Row>>, i: nat)
    requires i < |start| && start[i].None?
    ensures exists j :: 0 <= j < |Remaining(start)| && Remaining(start)[j] == i
  {
    assert i in Remaining(start);
  }

  lemma RowsAreFull(n: nat, score: nat -> Row, results: seq<Option<Row>>)
    requires Correct(n, score, results) && forall i :: 0 <= i < n ==> results[i].Some?
    ensures Rows(results) == Full(n, score)
  {
  }

  /** What the disk held, and how many queries had been scored, when an attempt died. */
  datatype Death = Death(scored: nat, saved: seq<Option<Row>>)

  /** No query that was checkpointed when an attempt died is scored by any later attempt. */
  ghost predicate NeverAgain(n: nat, log: seq<nat>, deaths: seq<Death>)
  {
    forall d :: d in deaths ==> d.scored <= |log| && SparedFrom(n, log, d)
  }

  ghost predicate SparedFrom(n: nat, log: seq<nat>, d: Death)
  {
    |d.saved| == n && forall j :: d.scored <= j < |log| ==> 0 <= log[j] < n && d.saved[log[j]].None?
  }

  /** Any sequence of crashes, restarts and completion orders ends, if it ends, with the rows that
      one uninterrupted run gives; a long enough last attempt ends. Over all attempts together, no
      checkpointed query is scored again, and each death costs at most one interval of scores. */
  method Campaign(n: nat, score: nat -> Row, attempts: seq<Attempt>)
    returns (r: Option<seq<Row>>, log: seq<nat>, ghost deaths: seq<Death>)
    requires n > 0 && forall k :: 0 <= k < |attempts| ==> Picks(attempts[k].pick)
    ensures r.Some? ==> r.value == Full(n, score)
    ensures attempts != [] && attempts[|attempts| - 1].life > 2 * n + 1 ==> r.Some?
    ensures NeverAgain(n, log, deaths)
    ensures if r.Some? then |deaths| < |attempts| else |deaths| == |attempts|
    ensures |log| <= n + CHECKPOINT_INTERVAL * |deaths|
  {
    var store := new Store();
    var scorer := new Scorer(score);
    r, deaths := None, [];
    hide Filled, Full, NeverAgain, SavedSince, NoneAgain;
    NoDeaths(n, scorer.log);
    NoneFilled(Empty(n));
    for k := 0 to |attempts|
      invariant store.Valid(n, score) && scorer.answers == score && r.None? && |deaths| == k
      invariant k == |attempts| > 0 && attempts[k - 1].life > 2 * n + 1 ==> r.Some?
      invariant NeverAgain(n, scorer.log, deaths) && SavedSince(deaths, store.Checkpoint(n))
      invariant |store.Checkpoint(n)| == n && |scorer.log| <= Filled(store.Checkpoint(n)) + CHECKPOINT_INTERVAL * k
    {
      ghost var before, saved := scorer.log, store.Checkpoint(n);
      r := RerankCrossEncoder(n, scorer, attempts[k], store);
      StillSpared(n, before, scorer.log, deaths, saved);
      if r.Some? {
        return r, scorer.log, deaths;
      }
      SavedExtends(deaths, saved, store.Checkpoint(n));
      AddDeath(n, scorer.log, deaths, store.Checkpoint(n));
      deaths := deaths + [Death(|scorer.log|, store.Checkpoint(n))];
    }
    log := scorer.log;
  }

  /** The checkpoint keeps what it held at every death. */
  ghost predicate SavedSince(deaths: seq<Death>, saved: seq<Option<Row>>)
  {
    forall d :: d in deaths ==> Extends(d.saved, saved)
  }

  lemma NoDeaths(n: nat, log: seq<nat>)
    ensures NeverAgain(n, log, []) && forall saved :: SavedSince([], saved)
  {
  }

  lemma StillSpared(n: nat, log: seq<nat>, log': seq<nat>, deaths: seq<Death>, saved: seq<Option<Row>>)
    requires NeverAgain(n, log, deaths) && SavedSince(deaths, saved) && NoneAgain(log, log', saved)
    ensures NeverAgain(n, log', deaths)
  {
    forall d | d in deaths ensures d.scored <= |log'| && SparedFrom(n, log', d) {
      assert SparedFrom(n, log, d) && Extends(d.saved, saved);
      forall j | d.scored <= j < |log'| ensures 0 <= log'[j] < n && d.saved[log'[j]].None? {
        if j < |log| {
          assert log'[j] == log[j];
        } else {
          assert log'[j] == log'[|log|..][j - |log|] && log'[j] in log'[|log|..];
        }
      }
    }
  }

  lemma SavedExtends(deaths: seq<Death>, saved: seq<Option<Row>>, saved': seq<Option<Row>>)
    requires SavedSince(deaths, saved) && Extends(saved, saved')
    ensures SavedSince(deaths, saved')
  {
    forall d | d in deaths ensures Extends(d.saved, saved') {
      ExtendsTransitive(d.saved, saved, saved');
    }
  }

  lemma AddDeath(n: nat, log: seq<nat>, deaths: seq<Death>, saved: seq<Option<Row>>)
    requires NeverAgain(n, log, deaths) && SavedSince(deaths, saved) && |saved| == n
    ensures var deaths' := deaths + [Death(|log|, saved)]; NeverAgain(n, log, deaths') && SavedSince(deaths', saved)
  {
    var deaths' := deaths + [Death(|log|, saved)];
    forall d | d in deaths' ensures d.scored <= |log| && SparedFrom(n, log, d) && Extends(d.saved, saved) {
      assert d in deaths || d == Death(|log|, saved);
    }
  }
}
