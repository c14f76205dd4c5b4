/** What a boot and the end of a batch leave, field by field, in every reachable machine. */
module BatchSteps {
  import opened Wrappers
  import opened BatchState
  import opened BatchAccounting

  /** Batch b is saved as processed with its counts; the others stay, and the next one is awaited. */
  ghost predicate SavesBatch(before: State, b: nat, r: Counts, after: Machine)
    requires 0 < b <= |before.batches|
  {
    && after.disk.Some? && after.process == Some(Process(after.disk.value, b + 1))
    && var s := after.disk.value;
    && |s.batches| == |before.batches| && s.batches[b - 1] == Batch(before.batches[b - 1].lawIds, true, r)
    && (forall i :: 0 <= i < |before.batches| && i != b - 1 ==> s.batches[i] == before.batches[i])
    && s.currentBatch == b + 1 && s.totalBatches == before.totalBatches
    && s.totalLaws == before.totalLaws && s.processedLaws == before.processedLaws + |before.batches[b - 1].lawIds|
  }

  /** What `after` has counted more than `before`. */
  ghost predicate AddsUp(before: Counts, more: Counts, failures: nat, after: Counts) {
    && after.references == before.references + more.references && after.articles == before.articles + more.articles
    && after.matched == before.matched + more.matched && after.missed == before.missed + more.missed
    && after.extra == before.extra + more.extra && after.errors == before.errors + more.errors + failures
  }

  /** A batch that succeeds is saved, also when its report cannot be written; that then counts as one error. */
  lemma SuccessIsSaved(steps: seq<Step>, r: Counts)
    requires Awaiting(Run(steps))
    ensures var Process(s, b) := Run(steps).process.value;
      && SavesBatch(s, b, r, Run(steps + [Succeeds(r)]))
      && AddsUp(s.results, r, 0, Run(steps + [Succeeds(r)]).disk.value.results)
      && SavesBatch(s, b, r, Run(steps + [SucceedsUnreported(r)]))
      && AddsUp(s.results, r, 1, Run(steps + [SucceedsUnreported(r)]).disk.value.results)
  {
    var Process(s, b) := Run(steps).process.value;
    RunAppend(steps, Succeeds(r));
    RunAppend(steps, SucceedsUnreported(r));
    RunKeepsAccounts(steps);
    var lawIds, failures := LawIdsOf(steps), Failures(steps);
    hide Run;
    hide LawIdsOf;
    hide Failures;
    MergedIsGood(s, b, r, lawIds, failures);
    FailureIsGood(Merged(s, b, r), lawIds, failures);
    SavedIsGood(Merged(s, b, r), b, lawIds, failures);
    SavedIsGood(WithFailure(Merged(s, b, r)), b, lawIds, failures + 1);
    hide Good;
    hide LoopHead;
  }

  /** A batch that fails is counted as one error and passed over; the saved current batch stays where it was. */
  lemma FailureIsSaved(steps: seq<Step>)
    requires Awaiting(Run(steps))
    ensures var Process(s, b), m := Run(steps).process.value, Run(steps + [Fails]);
      && m.disk.Some? && m.process == Some(Process(m.disk.value, b + 1))
      && m.disk.value == s.(results := s.results.(errors := s.results.errors + 1))
  {
    hide LoopHead;
    var Process(s, b) := Run(steps).process.value;
    RunAppend(steps, Fails);
    assert Next(Run(steps), Fails) == SavedAndOn(WithFailure(s), b);
    assert WithFailure(s) == s.(results := s.results.(errors := s.results.errors + 1));
    FailureSaved(steps);
    hide *;
  }

  lemma FailureSaved(steps: seq<Step>)
    requires Awaiting(Run(steps))
    ensures var Process(s, b) := Run(steps).process.value;
      SavedAndOn(WithFailure(s), b) == Machine(Some(WithFailure(s)), Some(Process(WithFailure(s), b + 1)))
  {
    var Process(s, b) := Run(steps).process.value;
    var lawIds, failures := LawIdsOf(steps), Failures(steps);
    RunKeepsAccounts(steps);
    hide Run;
    hide LawIdsOf;
    hide Failures;
    FailureIsGood(s, lawIds, failures);
    SavedIsGood(WithFailure(s), b, lawIds, failures + 1);
  }

  /** A resumed process stands before the current batch of what is on the disk. */
  lemma BootResumes(steps: seq<Step>, lawIds: seq<string>)
    requires !Awaiting(Run(steps)) && Run(steps).disk.Some?
    ensures var s := Run(steps).disk.value;
      Run(steps + [Boot(true, lawIds)]) == Machine(Some(s), Some(Process(s, s.currentBatch)))
  {
    var s := Run(steps).disk.value;
    RunAppend(steps, Boot(true, lawIds));
    RunKeepsAccounts(steps);
    SkipIsDead(s, s.currentBatch, LawIdsOf(steps), Failures(steps));
    hide Run;
    hide Good;
    hide LoopHead;
  }

  /** Any other new process saves and stands before the first of as many batches of a hundred as the laws need. */
  lemma BootStartsAnew(steps: seq<Step>, resume: bool, lawIds: seq<string>)
    requires !Awaiting(Run(steps)) && !(resume && Run(steps).disk.Some?)
    ensures var m := Run(steps + [Boot(resume, lawIds)]);
      && m.disk.Some? && m.process == Some(Process(m.disk.value, 1))
      && m.disk.value == State(|lawIds|, 0, 1, |m.disk.value.batches|, Counts(0, 0, 0, 0, 0, 0), m.disk.value.batches)
      && 100 * (|m.disk.value.batches| as int - 1) < |lawIds| <= 100 * |m.disk.value.batches|
      && forall i :: 0 <= i < |m.disk.value.batches| ==>
           m.disk.value.batches[i] == Batch(lawIds[100 * i..Min(100 * i + 100, |lawIds|)], false, Counts(0, 0, 0, 0, 0, 0))
  {
    RunAppend(steps, Boot(resume, lawIds));
    hide Run;
    FreshIsGood(lawIds);
    SkipIsDead(Fresh(lawIds), 1, lawIds, 0);
    hide Good;
    hide LoopHead;
  }
}
