/**
 * The diff and batch loop shared by `syncDirToS3` and `syncS3ToDir`, and
 * `waitForRoutines`. A source key is transferred when its fingerprint
 * differs from the target's, where a missing target key reads as "".
 * Launched tasks pile up until their count exceeds `concurrent`; then every
 * pending task is awaited and the batch restarts. A final drain flushes
 * the rest. Goroutines become "launch" and channel receives "await"
 * events, recorded as the sequence of drained batches.
 */
module Scheduler {

  /** `targetFiles[file]`: a missing key reads as Go's zero value "". */
  function TargetFingerprint(target: map<string, string>, k: string): string {
    if k in target then target[k] else ""
  }

  /** `targetFiles[file] != sourceFiles[file]` for a source key. */
  predicate NeedsTransfer(source: map<string, string>, target: map<string, string>, k: string) {
    k in source && TargetFingerprint(target, k) != source[k]
  }

  predicate NoDuplicates(s: seq<string>) {
    forall i, j :: 0 <= i < j < |s| ==> s[i] != s[j]
  }

  /** A Go `range` over a map: every key exactly once, in some order. */
  predicate IsEnumeration(order: seq<string>, keys: set<string>) {
    && NoDuplicates(order)
    && (forall k :: k in order ==> k in keys)
    && (forall k :: k in keys ==> k in order)
  }

  /** The keys the loop launches, in visiting order. */
  function Scheduled(source: map<string, string>, target: map<string, string>, order: seq<string>): seq<string>
  {
    if order == [] then []
    else
      var head := if NeedsTransfer(source, target, order[0]) then [order[0]] else [];
      head + Scheduled(source, target, order[1..])
  }

  function Tasks<T>(task: string -> T, keys: seq<string>): (r: seq<T>)
    ensures |r| == |keys|
  {
    if keys == [] then [] else [task(keys[0])] + Tasks(task, keys[1..])
  }

  function Flatten<T>(batches: seq<seq<T>>): seq<T> {
    if batches == [] then [] else Flatten(batches[..|batches| - 1]) + batches[|batches| - 1]
  }

  /** `s` cut into consecutive pieces of `n`; the last piece is shorter than `n`, possibly empty. */
  function Chunks<T>(s: seq<T>, n: nat): seq<seq<T>>
    requires n >= 1
    decreases |s|
  {
    if |s| < n then [s] else [s[..n]] + Chunks(s[n..], n)
  }

  /** With a negative limit the check `count > concurrent` fires after every key. */
  function KeyBatches<T>(source: map<string, string>, target: map<string, string>, order: seq<string>,
                         task: string -> T): seq<seq<T>>
  {
    if order == [] then []
    else var k := order[|order| - 1];
      KeyBatches(source, target, order[..|order| - 1], task)
        + [Launch(source, target, k, task)]
  }

  /** The drained batches, in order, including the final drain. */
  function BatchPlan<T>(source: map<string, string>, target: map<string, string>, order: seq<string>,
                        concurrent: int, task: string -> T): seq<seq<T>>
  {
    if concurrent >= 0 then Chunks(Tasks(task, Scheduled(source, target, order)), concurrent + 1)
    else KeyBatches(source, target, order, task) + [[]]
  }

  /** The message each routine sends when its transfer is done. */
  datatype Completion<T> = Completed(task: T)

  function Completions<T>(tasks: seq<T>): (r: seq<Completion<T>>)
    ensures |r| == |tasks| && forall i :: 0 <= i < |tasks| ==> r[i] == Completed(tasks[i])
  {
    seq(|tasks|, i requires 0 <= i < |tasks| => Completed(tasks[i]))
  }

  /** `waitForRoutines`: one receive per routine, in launch order. */
  method WaitForRoutines<T>(routines: seq<T>) returns (received: seq<Completion<T>>)
    ensures |received| == |routines|
    ensures forall i :: 0 <= i < |routines| ==> received[i] == Completed(routines[i])
  {
    received := [];
    for i := 0 to |routines|
      invariant |received| == i
      invariant forall j :: 0 <= j < i ==> received[j] == Completed(routines[j])
    {
      var msg := Completed(routines[i]);
      received := received + [msg];
    }
  }

  /** The visiting order of a `range` over a map, which Go leaves unspecified. */
  method EnumerateKeys(m: map<string, string>) returns (order: seq<string>)
    ensures IsEnumeration(order, m.Keys)
  {
    order := [];
    var remaining := m.Keys;
    while remaining != {}
      invariant remaining <= m.Keys
      invariant forall k :: k in order <==> k in m.Keys && k !in remaining
      invariant NoDuplicates(order)
      decreases remaining
    {
      var k :| k in remaining;
      order := order + [k];
      remaining := remaining - {k};
    }
  }

  /**
   * The loop of `syncDirToS3` / `syncS3ToDir` over `order`, the visiting
   * order of the source index; `task` builds the transfer for a key.
   */
  method ScheduleTransfers<T>(source: map<string, string>, target: map<string, string>, order: seq<string>,
                              concurrent: int, task: string -> T)
    returns (batches: seq<seq<T>>, received: seq<Completion<T>>)
    requires IsEnumeration(order, source.Keys)
    ensures batches == BatchPlan(source, target, order, concurrent, task)
    ensures received == Completions(Flatten(batches))
  {
    var routines: seq<T> := [];
    var count := 0;
    batches, received := [], [];
    ProgressStart(source, target, order, concurrent, task);
    var i := 0;
    while i < |order|
      invariant 0 <= i <= |order|
      invariant count == |routines|
      invariant Progress(source, target, order, concurrent, task, i, batches, routines, received)
    {
      var file := order[i];
      ProgressStep(source, target, order, concurrent, task, i, batches, routines, received);
      ghost var before := routines;
      if TargetFingerprint(target, file) != source[file] {
        count := count + 1;
        routines := routines + [task(file)];
      }
      assert routines == before + Launch(source, target, file, task);
      if count > concurrent {
        var msgs := WaitForRoutines(routines);
        assert msgs == Completions(routines);
        received := received + msgs;
        batches := batches + [routines];
        count := 0;
        routines := [];
      }
      i := i + 1;
    }
    var msgs := WaitForRoutines(routines);
    assert msgs == Completions(routines);
    ProgressDone(source, target, order, concurrent, task, batches, routines, received);
    received := received + msgs;
    batches := batches + [routines];
  }

  /**
   * What the loop has done after visiting `order[..i]`: the drained batches
   * and the pending routines, followed by what the rest of the order will
   * launch, make up the plan; every drained task has been received.
   */
  ghost predicate Progress<T>(source: map<string, string>, target: map<string, string>, order: seq<string>,
                              concurrent: int, task: string -> T, i: nat,
                              batches: seq<seq<T>>, routines: seq<T>, received: seq<Completion<T>>)
  {
    && i <= |order|
    && (concurrent >= 0 ==>
          && |routines| <= concurrent
          && batches + Chunks(routines + Tasks(task, Scheduled(source, target, order[i..])), concurrent + 1)
             == Chunks(Tasks(task, Scheduled(source, target, order)), concurrent + 1))
    && (concurrent < 0 ==> routines == [] && batches == KeyBatches(source, target, order[..i], task))
    && received == Completions(Flatten(batches))
  }

  lemma ProgressStart<T>(source: map<string, string>, target: map<string, string>, order: seq<string>,
                         concurrent: int, task: string -> T)
    ensures Progress(source, target, order, concurrent, task, 0, [], [], [])
  {
    assert order[0..] == order && order[..0] == [];
    assert [] + Tasks(task, Scheduled(source, target, order[0..])) == Tasks(task, Scheduled(source, target, order));
  }

  lemma ProgressStep<T>(source: map<string, string>, target: map<string, string>, order: seq<string>,
                        concurrent: int, task: string -> T, i: nat,
                        batches: seq<seq<T>>, routines: seq<T>, received: seq<Completion<T>>)
    requires i < |order|
    requires Progress(source, target, order, concurrent, task, i, batches, routines, received)
    ensures var r := routines + Launch(source, target, order[i], task);
      && (|r| > concurrent ==>
            Progress(source, target, order, concurrent, task, i + 1, batches + [r], [], received + Completions(r)))
      && (|r| <= concurrent ==> Progress(source, target, order, concurrent, task, i + 1, batches, r, received))
  {
    var r := routines + Launch(source, target, order[i], task);
    var rest := Tasks(task, Scheduled(source, target, order[i + 1..]));
    LaunchStep(source, target, order, i, task, routines);
    KeyBatchesStep(source, target, order, i, task);
    if |r| > concurrent {
      if concurrent >= 0 {
        DrainChunk(batches, r, rest, Tasks(task, Scheduled(source, target, order)), concurrent + 1);
      } else {
        assert r == Launch(source, target, order[i], task);
      }
      DrainRecorded(batches, r, received, Completions(r));
    }
  }

  lemma ProgressDone<T>(source: map<string, string>, target: map<string, string>, order: seq<string>,
                        concurrent: int, task: string -> T,
                        batches: seq<seq<T>>, routines: seq<T>, received: seq<Completion<T>>)
    requires Progress(source, target, order, concurrent, task, |order|, batches, routines, received)
    ensures batches + [routines] == BatchPlan(source, target, order, concurrent, task)
    ensures received + Completions(routines) == Completions(Flatten(batches + [routines]))
  {
    assert order[|order|..] == [] && order[..|order|] == order;
    assert routines + Tasks(task, Scheduled(source, target, order[|order|..])) == routines;
    DrainRecorded(batches, routines, received, Completions(routines));
  }

  /** The tasks `order[i]` adds when the loop visits it. */
  function Launch<T>(source: map<string, string>, target: map<string, string>, k: string, task: string -> T): seq<T> {
    if NeedsTransfer(source, target, k) then [task(k)] else []
  }

  lemma LaunchStep<T>(source: map<string, string>, target: map<string, string>, order: seq<string>, i: nat,
                      task: string -> T, routines: seq<T>)
    requires i < |order|
    ensures routines + Tasks(task, Scheduled(source, target, order[i..]))
      == routines + Launch(source, target, order[i], task) + Tasks(task, Scheduled(source, target, order[i + 1..]))
  {
    assert order[i..][1..] == order[i + 1..];
    var rest := Scheduled(source, target, order[i + 1..]);
    if NeedsTransfer(source, target, order[i]) {
      assert Scheduled(source, target, order[i..]) == [order[i]] + rest;
      assert ([order[i]] + rest)[1..] == rest;
    } else {
      assert Scheduled(source, target, order[i..]) == rest;
    }
  }

  lemma KeyBatchesStep<T>(source: map<string, string>, target: map<string, string>, order: seq<string>, i: nat,
                          task: string -> T)
    requires i < |order|
    ensures KeyBatches(source, target, order[..i + 1], task)
      == KeyBatches(source, target, order[..i], task) + [Launch(source, target, order[i], task)]
  {
    assert order[..i + 1][..i] == order[..i];
  }

  lemma DrainChunk<T>(batches: seq<seq<T>>, routines: seq<T>, rest: seq<T>, all: seq<T>, n: nat)
    requires n >= 1 && |routines| == n
    requires batches + Chunks(routines + rest, n) == Chunks(all, n)
    ensures (batches + [routines]) + Chunks([] + rest, n) == Chunks(all, n)
  {
    ChunksHead(routines, rest, n);
    assert [] + rest == rest;
  }

  /** Recording one drain keeps the received messages those of the drained tasks. */
  lemma DrainRecorded<T>(batches: seq<seq<T>>, routines: seq<T>, received: seq<Completion<T>>,
                         msgs: seq<Completion<T>>)
    requires received == Completions(Flatten(batches))
    requires |msgs| == |routines| && forall i :: 0 <= i < |routines| ==> msgs[i] == Completed(routines[i])
    ensures received + msgs == Completions(Flatten(batches + [routines]))
  {
    assert (batches + [routines])[..|batches|] == batches;
    assert Flatten(batches + [routines]) == Flatten(batches) + routines;
  }

  // ---------------------------------------------------------------------------
  // Lemmas: the diff

  /**
   * A key is launched exactly when it is a source key whose fingerprint
   * differs from the target's (a missing target key compares as "").
   */
  lemma {:induction false} ScheduledIffDiffers(source: map<string, string>, target: map<string, string>,
                                               order: seq<string>, k: string)
    ensures k in Scheduled(source, target, order) <==> k in order && NeedsTransfer(source, target, k)
    decreases |order|
  {
    if order != [] {
      ScheduledIffDiffers(source, target, order[1..], k);
      assert k in order <==> k == order[0] || k in order[1..];
    }
  }

  /** Visiting every source key once, the launched keys are exactly the diff. */
  lemma DiffIsExact(source: map<string, string>, target: map<string, string>, order: seq<string>, k: string)
    requires IsEnumeration(order, source.Keys)
    ensures k in Scheduled(source, target, order) <==> k in source && TargetFingerprint(target, k) != source[k]
    ensures k in target && k !in source ==> k !in Scheduled(source, target, order)
  {
    ScheduledIffDiffers(source, target, order, k);
  }

  /** No key is launched twice. */
  lemma {:induction false} ScheduledNoDuplicates(source: map<string, string>, target: map<string, string>,
                                                 order: seq<string>)
    requires NoDuplicates(order)
    ensures NoDuplicates(Scheduled(source, target, order))
    decreases |order|
  {
    if order != [] {
      assert NoDuplicates(order[1..]);
      ScheduledNoDuplicates(source, target, order[1..]);
      ScheduledIffDiffers(source, target, order[1..], order[0]);
      assert order[0] !in order[1..];
    }
  }

  /** The target already holds every source entry. */
  predicate InAgreement(source: map<string, string>, target: map<string, string>) {
    forall k :: k in source ==> k in target && target[k] == source[k]
  }

  /** When the target agrees with the source, nothing is launched. */
  lemma {:induction false} NothingScheduledInAgreement(source: map<string, string>, target: map<string, string>,
                                                       order: seq<string>)
    requires InAgreement(source, target)
    ensures Scheduled(source, target, order) == []
    decreases |order|
  {
    if order != [] {
      NothingScheduledInAgreement(source, target, order[1..]);
    }
  }

  /**
   * Once every source entry has been copied to the target, a second run
   * launches nothing; in particular an index diffed against itself is empty.
   */
  lemma NothingScheduledAfterCopy(source: map<string, string>, target: map<string, string>, order: seq<string>)
    ensures Scheduled(source, target + source, order) == []
    ensures Scheduled(source, source, order) == []
  {
    NothingScheduledInAgreement(source, target + source, order);
    NothingScheduledInAgreement(source, source, order);
  }

  // ---------------------------------------------------------------------------
  // Lemmas: the batches

  lemma ChunksHead<T>(p: seq<T>, rest: seq<T>, n: nat)
    requires n >= 1 && |p| == n
    ensures Chunks(p + rest, n) == [p] + Chunks(rest, n)
  {
    assert (p + rest)[..n] == p;
    assert (p + rest)[n..] == rest;
  }

  lemma {:induction false} FlattenCons<T>(b: seq<T>, batches: seq<seq<T>>)
    ensures Flatten([b] + batches) == b + Flatten(batches)
    decreases |batches|
  {
    if batches != [] {
      var init := batches[..|batches| - 1];
      assert ([b] + batches)[..|batches|] == [b] + init;
      FlattenCons(b, init);
    } else {
      assert [b] + batches == [b];
      assert [b][..0] == [];
    }
  }

  /** Cutting into pieces and gluing them back gives the original tasks. */
  lemma {:induction false} FlattenChunks<T>(s: seq<T>, n: nat)
    requires n >= 1
    ensures Flatten(Chunks(s, n)) == s
    decreases |s|
  {
    if |s| < n {
      assert [s][..0] == [];
    } else {
      FlattenChunks(s[n..], n);
      FlattenCons(s[..n], Chunks(s[n..], n));
      assert s[..n] + s[n..] == s;
    }
  }

  /** Every piece but the last holds exactly `n`; the last holds fewer. */
  lemma {:induction false} ChunkSizes<T>(s: seq<T>, n: nat, i: nat)
    requires n >= 1 && i < |Chunks(s, n)|
    ensures i < |Chunks(s, n)| - 1 ==> |Chunks(s, n)[i]| == n
    ensures i == |Chunks(s, n)| - 1 ==> |Chunks(s, n)[i]| < n
    decreases |s|
  {
    if |s| >= n && i > 0 {
      ChunkSizes(s[n..], n, i - 1);
    }
  }

  lemma {:induction false} ScheduledAppend(source: map<string, string>, target: map<string, string>,
                                           a: seq<string>, k: string)
    ensures Scheduled(source, target, a + [k])
      == Scheduled(source, target, a) + (if NeedsTransfer(source, target, k) then [k] else [])
    decreases |a|
  {
    if a == [] {
      assert [k][1..] == [];
    } else {
      assert (a + [k])[1..] == a[1..] + [k];
      ScheduledAppend(source, target, a[1..], k);
    }
  }

  lemma {:induction false} TasksAppend<T>(task: string -> T, a: seq<string>, b: seq<string>)
    ensures Tasks(task, a + b) == Tasks(task, a) + Tasks(task, b)
    decreases |a|
  {
    if a != [] {
      assert (a + b)[1..] == a[1..] + b;
      TasksAppend(task, a[1..], b);
    } else {
      assert a + b == b;
    }
  }

  lemma {:induction false} FlattenKeyBatches<T>(source: map<string, string>, target: map<string, string>,
                                                order: seq<string>, task: string -> T)
    ensures Flatten(KeyBatches(source, target, order, task)) == Tasks(task, Scheduled(source, target, order))
    decreases |order|
  {
    if order != [] {
      var init := order[..|order| - 1];
      var k := order[|order| - 1];
      FlattenKeyBatches(source, target, init, task);
      assert init + [k] == order;
      ScheduledAppend(source, target, init, k);
      TasksAppend(task, Scheduled(source, target, init), if NeedsTransfer(source, target, k) then [k] else []);
      assert Tasks(task, if NeedsTransfer(source, target, k) then [k] else []) == Launch(source, target, k, task);
      var kb := KeyBatches(source, target, order, task);
      assert kb[..|kb| - 1] == KeyBatches(source, target, init, task);
    }
  }

  lemma {:induction false} KeyBatchesSmall<T>(source: map<string, string>, target: map<string, string>,
                                              order: seq<string>, task: string -> T, i: nat)
    requires i < |KeyBatches(source, target, order, task)|
    ensures |KeyBatches(source, target, order, task)[i]| <= 1
    decreases |order|
  {
    var kb := KeyBatches(source, target, order, task);
    if i < |kb| - 1 {
      KeyBatchesSmall(source, target, order[..|order| - 1], task, i);
    }
  }

  /**
   * Every scheduled key is launched once, in visiting order, and drained by
   * exactly one batch: gluing the batches gives the launched tasks.
   */
  lemma EveryLaunchDrainedOnce<T>(source: map<string, string>, target: map<string, string>, order: seq<string>,
                                  concurrent: int, task: string -> T)
    ensures Flatten(BatchPlan(source, target, order, concurrent, task)) == Tasks(task, Scheduled(source, target, order))
  {
    if concurrent >= 0 {
      FlattenChunks(Tasks(task, Scheduled(source, target, order)), concurrent + 1);
    } else {
      var kb := KeyBatches(source, target, order, task);
      FlattenKeyBatches(source, target, order, task);
      assert (kb + [[]])[..|kb|] == kb;
    }
  }

  /**
   * No batch holds more than `concurrent + 1` pending tasks (one, when the
   * limit is negative). With a limit of at least 0, every mid-loop drain
   * holds exactly `concurrent + 1`, and the final drain at most `concurrent`.
   */
  lemma BatchBound<T>(source: map<string, string>, target: map<string, string>, order: seq<string>,
                      concurrent: int, task: string -> T, i: nat)
    requires i < |BatchPlan(source, target, order, concurrent, task)|
    ensures var plan := BatchPlan(source, target, order, concurrent, task);
      |plan[i]| <= (if concurrent >= 0 then concurrent + 1 else 1)
    ensures var plan := BatchPlan(source, target, order, concurrent, task);
      concurrent >= 0 ==>
        (i < |plan| - 1 ==> |plan[i]| == concurrent + 1) && (i == |plan| - 1 ==> |plan[i]| <= concurrent)
  {
    if concurrent >= 0 {
      ChunkSizes(Tasks(task, Scheduled(source, target, order)), concurrent + 1, i);
    } else {
      var kb := KeyBatches(source, target, order, task);
      if i < |kb| {
        KeyBatchesSmall(source, target, order, task, i);
      }
    }
  }

  /** When every visited key differs from the target, every one is launched, in visiting order. */
  lemma {:induction false} AllDifferingScheduled(source: map<string, string>, target: map<string, string>,
                                                 order: seq<string>)
    requires forall i :: 0 <= i < |order| ==> NeedsTransfer(source, target, order[i])
    ensures Scheduled(source, target, order) == order
    decreases |order|
  {
    if order != [] {
      AllDifferingScheduled(source, target, order[1..]);
    }
  }

  /** The i-th task is the one for the i-th key. */
  lemma {:induction false} TasksPointwise<T>(task: string -> T, keys: seq<string>)
    ensures forall i :: 0 <= i < |keys| ==> Tasks(task, keys)[i] == task(keys[i])
    decreases |keys|
  {
    if keys != [] {
      TasksPointwise(task, keys[1..]);
    }
  }

  /**
   * `Concurrent` 2 and five differing files: the loop drains a batch of the
   * first three, and the final drain takes the last two.
   */
  lemma FiveFilesLimitTwo<T>(source: map<string, string>, target: map<string, string>, order: seq<string>,
                             task: string -> T)
    requires |order| == 5 && forall i :: 0 <= i < 5 ==> NeedsTransfer(source, target, order[i])
    ensures BatchPlan(source, target, order, 2, task) ==
      [[task(order[0]), task(order[1]), task(order[2])], [task(order[3]), task(order[4])]]
  {
    AllDifferingScheduled(source, target, order);
    var tasks := Tasks(task, order);
    TasksPointwise(task, order);
    assert tasks[..3] == [task(order[0]), task(order[1]), task(order[2])];
    assert tasks[3..] == [task(order[3]), task(order[4])];
    assert Chunks(tasks, 3) == [tasks[..3]] + Chunks(tasks[3..], 3);
  }
}
