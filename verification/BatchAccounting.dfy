/** Exactly-once accounting of the batches over every sequence of successes, failures, interrupts, kills and reloads. */
module BatchAccounting {
  import opened Wrappers
  import opened BatchState

  // ---------------------------------------------------------------- sums over the processed batches

  function ProcessedSize(batches: seq<Batch>): nat {
    if batches == [] then 0
    else
      var front, last := batches[..|batches| - 1], batches[|batches| - 1];
      ProcessedSize(front) + if last.processed then |last.lawIds| else 0
  }

  function ProcessedCounts(batches: seq<Batch>): Counts {
    if batches == [] then NO_COUNTS
    else
      var front, last := batches[..|batches| - 1], batches[|batches| - 1];
      ProcessedCounts(front).Plus(if last.processed then last.results else NO_COUNTS)
  }

  /** Marking one more batch as processed adds its size and its counts. */
  lemma {:induction false} MarkProcessed(batches: seq<Batch>, i: nat, r: Counts)
    requires i < |batches| && !batches[i].processed
    ensures var marked := Mark(batches, i, r);
      && ProcessedSize(marked) == ProcessedSize(batches) + |batches[i].lawIds|
      && ProcessedCounts(marked) == ProcessedCounts(batches).Plus(r)
  {
    var n := |batches| - 1;
    var marked := Mark(batches, i, r);
    if i < n {
      MarkProcessed(batches[..n], i, r);
      assert marked[..n] == Mark(batches[..n], i, r);
    } else {
      assert marked[..n] == batches[..n];
    }
  }

  lemma {:induction false} NothingProcessed(batches: seq<Batch>)
    requires forall i :: 0 <= i < |batches| ==> !batches[i].processed
    ensures ProcessedSize(batches) == 0 && ProcessedCounts(batches) == NO_COUNTS
  {
    if batches != [] {
      NothingProcessed(batches[..|batches| - 1]);
    }
  }

  // ---------------------------------------------------------------- the invariant

  /** The batches are the law list cut in order. */
  ghost predicate CutFrom(batches: seq<Batch>, lawIds: seq<string>) {
    |batches| == BatchCount(|lawIds|) && forall i :: 0 <= i < |batches| ==> batches[i].lawIds == BatchAt(lawIds, i)
  }

  /** No batch from number b on is marked as processed. */
  ghost predicate NoneFrom(batches: seq<Batch>, b: nat) {
    forall i :: 0 <= i < |batches| && batches[i].processed ==> i + 1 < b
  }

  ghost predicate Balanced(s: State, failures: nat) {
    && s.processedLaws == ProcessedSize(s.batches)
    && s.results == ProcessedCounts(s.batches).Plus(Counts(0, 0, 0, 0, 0, failures))
  }

  ghost predicate Good(s: State, lawIds: seq<string>, failures: nat) {
    && s.totalLaws == |lawIds| && s.totalBatches == |s.batches|
    && 1 <= s.currentBatch <= s.totalBatches + 1
    && CutFrom(s.batches, lawIds) && NoneFrom(s.batches, s.currentBatch) && Balanced(s, failures)
  }

  ghost predicate Inv(m: Machine, lawIds: seq<string>, failures: nat) {
    && (m.disk.Some? ==> Good(m.disk.value, lawIds, failures))
    && (m.process.Some? ==>
          && m.disk == Some(m.process.value.memory)
          && m.process.value.memory.currentBatch <= m.process.value.b <= m.process.value.memory.totalBatches + 1)
  }

  lemma FreshShape(lawIds: seq<string>)
    ensures CutFrom(Split(lawIds), lawIds) && NoneFrom(Split(lawIds), 1)
    ensures ProcessedSize(Split(lawIds)) == 0 && ProcessedCounts(Split(lawIds)) == NO_COUNTS
  {
    hide BatchAt;
    hide BatchCount;
    assert CutFrom(Split(lawIds), lawIds) && NoneFrom(Split(lawIds), 1);
    NothingProcessed(Split(lawIds));
  }

  lemma FreshIsGood(lawIds: seq<string>)
    ensures Good(Fresh(lawIds), lawIds, 0)
  {
    FreshShape(lawIds);
    hide Split;
    hide BatchAt;
    hide BatchCount;
    hide CutFrom;
    hide NoneFrom;
    hide ProcessedSize;
    hide ProcessedCounts;
    assert Good(Fresh(lawIds), lawIds, 0);
  }

  /** No batch from the current one on is marked, so the loop never passes over a batch. */
  lemma SkipIsDead(s: State, b: nat, lawIds: seq<string>, failures: nat)
    requires Good(s, lawIds, failures) && s.currentBatch <= b
    ensures LoopHead(Process(s, b)) == Process(s, b)
  {
  }

  lemma MergedIsGood(s: State, b: nat, r: Counts, lawIds: seq<string>, failures: nat)
    requires Good(s, lawIds, failures) && s.currentBatch <= b <= s.totalBatches
    ensures Good(Merged(s, b, r), lawIds, failures)
  {
    MarkKeepsShape(s.batches, b - 1, r, lawIds, s.currentBatch);
    MarkProcessed(s.batches, b - 1, r);
    hide CutFrom;
    hide NoneFrom;
    hide Mark;
    hide ProcessedSize;
    hide ProcessedCounts;
    assert Balanced(Merged(s, b, r), failures);
    hide Balanced;
  }

  lemma MarkKeepsShape(batches: seq<Batch>, i: nat, r: Counts, lawIds: seq<string>, currentBatch: nat)
    requires i < |batches| && CutFrom(batches, lawIds) && NoneFrom(batches, currentBatch) && currentBatch <= i + 1
    ensures !batches[i].processed
    ensures CutFrom(Mark(batches, i, r), lawIds) && NoneFrom(Mark(batches, i, r), i + 2)
  {
    hide BatchAt;
    hide BatchCount;
  }

  lemma FailureIsGood(s: State, lawIds: seq<string>, failures: nat)
    requires Good(s, lawIds, failures)
    ensures Good(WithFailure(s), lawIds, failures + 1)
  {
    hide CutFrom;
    hide NoneFrom;
    assert Balanced(WithFailure(s), failures + 1);
  }

  /** The law list of the last new start. */
  function LawIdsOf(steps: seq<Step>): seq<string> {
    if steps == [] then []
    else
      var before, step := Run(steps[..|steps| - 1]), steps[|steps| - 1];
      if step.Boot? && !Awaiting(before) && !(step.resume && before.disk.Some?) then step.lawIds
      else LawIdsOf(steps[..|steps| - 1])
  }

  lemma SavedIsGood(s: State, b: nat, lawIds: seq<string>, failures: nat)
    requires Good(s, lawIds, failures) && s.currentBatch <= b + 1 <= s.totalBatches + 1
    ensures Inv(SavedAndOn(s, b), lawIds, failures)
    ensures SavedAndOn(s, b) == Machine(Some(s), Some(Process(s, b + 1)))
  {
    SkipIsDead(s, b + 1, lawIds, failures);
  }

  /**
    In every reachable state the memory of a running process is what the disk holds, and both keep exact accounts:
    processedLaws is the size of the processed batches, the totals are the sums of their counts, and `errors` also
    counts each recorded failure once.
  */
  lemma {:induction false} RunKeepsAccounts(steps: seq<Step>)
    ensures Inv(Run(steps), LawIdsOf(steps), Failures(steps))
  {
    if steps != [] {
      var front, step := steps[..|steps| - 1], steps[|steps| - 1];
      var m := Run(front);
      RunKeepsAccounts(front);
      var lawIds, failures := LawIdsOf(front), Failures(front);
      match step
      case Boot(resume, ids) =>
        if !Awaiting(m) {
          if resume && m.disk.Some? {
            SkipIsDead(m.disk.value, m.disk.value.currentBatch, lawIds, failures);
          } else {
            FreshIsGood(ids);
            SkipIsDead(Fresh(ids), 1, ids, 0);
          }
        }
      case Kill =>
      case Interrupt =>
      case Succeeds(r) =>
        if Awaiting(m) { MergedOn(m, r, lawIds, failures); }
      case SucceedsUnreported(r) =>
        if Awaiting(m) { MergedOn(m, r, lawIds, failures); }
      case Fails =>
        if Awaiting(m) {
          FailureIsGood(m.process.value.memory, lawIds, failures);
          SavedIsGood(WithFailure(m.process.value.memory), m.process.value.b, lawIds, failures + 1);
        }
    }
  }

  lemma MergedOn(m: Machine, r: Counts, lawIds: seq<string>, failures: nat)
    requires Inv(m, lawIds, failures) && Awaiting(m)
    ensures Inv(Next(m, Succeeds(r)), lawIds, failures)
    ensures Inv(Next(m, SucceedsUnreported(r)), lawIds, failures + 1)
  {
    var Process(s, b) := m.process.value;
    MergedIsGood(s, b, r, lawIds, failures);
    hide Good;
    FailureIsGood(Merged(s, b, r), lawIds, failures);
    SavedIsGood(Merged(s, b, r), b, lawIds, failures);
    SavedIsGood(WithFailure(Merged(s, b, r)), b, lawIds, failures + 1);
  }

  // ---------------------------------------------------------------- what the accounts mean

  /** An interrupt saves nothing that was not saved already: it and a kill leave the same machine. */
  lemma InterruptIsKill(steps: seq<Step>)
    requires Awaiting(Run(steps))
    ensures Run(steps + [Interrupt]) == Run(steps + [Kill])
  {
    RunKeepsAccounts(steps);
    assert (steps + [Interrupt])[..|steps|] == steps && (steps + [Kill])[..|steps|] == steps;
    hide Good;
    hide LawIdsOf;
    hide Failures;
  }

  /** The batch a process awaits has never been marked: the branch that counts it again is dead. */
  lemma AwaitedIsUnprocessed(steps: seq<Step>)
    requires Awaiting(Run(steps))
    ensures var Process(s, b) := Run(steps).process.value; !s.batches[b - 1].processed
    ensures var Process(s, b) := Run(steps).process.value; forall b' :: b <= b' <= s.totalBatches ==> LoopHead(Process(s, b')) == Process(s, b')
  {
    RunKeepsAccounts(steps);
    var Process(s, b) := Run(steps).process.value;
    hide LawIdsOf;
    hide Failures;
    forall b' | b <= b' <= s.totalBatches ensures LoopHead(Process(s, b')) == Process(s, b') {
      SkipIsDead(s, b', LawIdsOf(steps), Failures(steps));
    }
  }

  function Concat(batches: seq<Batch>): seq<string> {
    if batches == [] then [] else Concat(batches[..|batches| - 1]) + batches[|batches| - 1].lawIds
  }

  lemma {:induction false} SplitCovers(lawIds: seq<string>, batches: seq<Batch>, n: nat)
    requires n <= |batches| && CutFrom(batches, lawIds)
    ensures Concat(batches[..n]) == lawIds[..Min(n * BATCH_SIZE, |lawIds|)]
  {
    if n > 0 {
      SplitCovers(lawIds, batches, n - 1);
      assert batches[..n][..n - 1] == batches[..n - 1];
      assert batches[n - 1].lawIds == BatchAt(lawIds, n - 1);
    }
  }

  lemma {:induction false} ConcatSize(batches: seq<Batch>)
    requires forall i :: 0 <= i < |batches| ==> batches[i].lawIds != []
    ensures ProcessedSize(batches) <= |Concat(batches)|
    ensures ProcessedSize(batches) == |Concat(batches)| <==> forall i :: 0 <= i < |batches| ==> batches[i].processed
  {
    if batches != [] {
      var front := batches[..|batches| - 1];
      assert forall i :: 0 <= i < |front| ==> front[i] == batches[i];
      ConcatSize(front);
    }
  }

  /** In a saved state the batches are the law list cut in order, and the counter is full exactly when all are processed. */
  lemma SavedStateCoversLaws(steps: seq<Step>)
    requires Run(steps).disk.Some?
    ensures var s := Run(steps).disk.value;
      && Concat(s.batches) == LawIdsOf(steps)
      && s.processedLaws <= s.totalLaws == |LawIdsOf(steps)|
      && (s.processedLaws == s.totalLaws <==> forall i :: 0 <= i < |s.batches| ==> s.batches[i].processed)
  {
    RunKeepsAccounts(steps);
    var s, lawIds := Run(steps).disk.value, LawIdsOf(steps);
    hide Run;
    hide LawIdsOf;
    hide Failures;
    SplitCovers(lawIds, s.batches, |s.batches|);
    assert s.batches[..|s.batches|] == s.batches;
    forall i | 0 <= i < |s.batches| ensures s.batches[i].lawIds != [] {
      assert s.batches[i].lawIds == BatchAt(lawIds, i);
    }
    ConcatSize(s.batches);
  }
}
