/** Which failed batches a resumed run tries again. */
module BatchRetries {
  import opened Wrappers
  import opened BatchState
  import opened BatchAccounting

  predicate StartsAnew(step: Step) {
    step.Boot? && !step.resume
  }

  ghost predicate LeftBehind(m: Machine, b: nat) {
    && m.disk.Some? && 0 < b < m.disk.value.currentBatch && b <= |m.disk.value.batches|
    && !m.disk.value.batches[b - 1].processed
  }

  lemma LeftBehindStays(m: Machine, step: Step, lawIds: seq<string>, failures: nat, b: nat)
    requires Inv(m, lawIds, failures) && LeftBehind(m, b) && !StartsAnew(step)
    ensures LeftBehind(Next(m, step), b)
  {
    hide CutFrom;
    hide Balanced;
    assert step.Boot? || m.process.None? || LeftBehind(m, b);
  }

  /**
    A batch left behind is never tried again: no resumed run ever processes it.
  */
  lemma {:induction false} LeftBehindForever(steps: seq<Step>, n: nat, b: nat)
    requires n <= |steps| && LeftBehind(Run(steps[..n]), b)
    requires forall i :: n <= i < |steps| ==> !StartsAnew(steps[i])
    ensures LeftBehind(Run(steps), b)
  {
    if n == |steps| {
      assert steps[..n] == steps;
    } else {
      var front, last := steps[..|steps| - 1], steps[|steps| - 1];
      assert front[..n] == steps[..n];
      LeftBehindForever(front, n, b);
      RunKeepsAccounts(front);
      hide LeftBehind;
      hide Inv;
      hide LawIdsOf;
      hide Failures;
      LeftBehindStays(Run(front), last, LawIdsOf(front), Failures(front), b);
    }
  }

  /** A failed batch is left behind as soon as the next one succeeds. */
  lemma FailedThenSucceeded(lawIds: seq<string>, r: Counts)
    requires |lawIds| > BATCH_SIZE
    ensures LeftBehind(Run([Boot(true, lawIds), Fails, Succeeds(r)]), 1)
  {
    var s, steps := Fresh(lawIds), [Boot(true, lawIds), Fails, Succeeds(r)];
    assert steps[..2][..1] == [Boot(true, lawIds)] && steps[..1][..0] == [];
    assert Run(steps[..1]) == Next(START, Boot(true, lawIds)) == Machine(Some(s), Some(Process(s, 1)));
    assert Run(steps[..2]) == SavedAndOn(WithFailure(s), 1);
    assert Run(steps[..2]) == Machine(Some(WithFailure(s)), Some(Process(WithFailure(s), 2)));
    assert Run(steps) == Next(Run(steps[..2]), Succeeds(r));
    assert Run(steps).disk == Some(Merged(WithFailure(s), 2, r));
  }

  // ---------------------------------------------------------------- when a batch is tried again

  predicate NeverAnew(steps: seq<Step>) {
    forall i :: 0 <= i < |steps| ==> !StartsAnew(steps[i])
  }

  /** The saved state marks batch b as processed. */
  predicate ProcessedOnDisk(m: Machine, b: nat) {
    m.disk.Some? && 0 < b <= |m.disk.value.batches| && m.disk.value.batches[b - 1].processed
  }

  function Successes(n: nat): (steps: seq<Step>)
    ensures |steps| == n && forall i :: 0 <= i < n ==> steps[i] == Succeeds(NO_COUNTS)
  {
    seq(n, _ => Succeeds(NO_COUNTS))
  }

  /** The number of batches in memory. */
  function Batches(m: Machine): nat {
    if m.process.Some? then |m.process.value.memory.batches| else 0
  }

  /** A process stands at its current batch. */
  ghost predicate AtCurrent(m: Machine, currentBatch: nat) {
    && m.process.Some? && m.process.value.b == currentBatch
    && m.process.value.memory.currentBatch == currentBatch
  }

  lemma OneSuccess(m: Machine, lawIds: seq<string>, failures: nat, b: nat)
    requires Inv(m, lawIds, failures) && AtCurrent(m, b) && b <= Batches(m)
    ensures var m' := Next(m, Succeeds(NO_COUNTS));
      AtCurrent(m', b + 1) && ProcessedOnDisk(m', b) && Batches(m') == Batches(m)
  {
    var s := m.process.value.memory;
    MergedIsGood(s, b, NO_COUNTS, lawIds, failures);
    SavedIsGood(Merged(s, b, NO_COUNTS), b, lawIds, failures);
  }

  /** From its current batch a process that meets only successes marks one batch after the other. */
  lemma {:induction false} SuccessesMark(steps: seq<Step>, b: nat, n: nat)
    requires AtCurrent(Run(steps), b) && b + n <= Batches(Run(steps)) + 1
    ensures var m := Run(steps + Successes(n));
      && AtCurrent(m, b + n) && Batches(m) == Batches(Run(steps))
      && (n > 0 ==> ProcessedOnDisk(m, b + n - 1))
  {
    if n == 0 {
      assert steps + Successes(0) == steps;
    } else {
      SuccessesMark(steps, b, n - 1);
      hide Run;
      hide Next;
      var front := steps + Successes(n - 1);
      RunAppend(front, Succeeds(NO_COUNTS));
      assert steps + Successes(n) == front + [Succeeds(NO_COUNTS)];
      RunKeepsAccounts(front);
      hide Inv;
      hide LawIdsOf;
      hide Failures;
      hide AtCurrent;
      hide ProcessedOnDisk;
      OneSuccess(Run(front), LawIdsOf(front), Failures(front), b + n - 1);
    }
  }

  /** Kill the process, resume, and succeed until batch b is done. */
  function Retry(currentBatch: nat, b: nat): seq<Step>
    requires currentBatch <= b
  {
    [Kill, Boot(true, [])] + Successes(b - currentBatch + 1)
  }

  /** A resumed process stands at the current batch of the checkpoint. */
  lemma Resumed(steps: seq<Step>)
    requires Run(steps).disk.Some?
    ensures var s, m := Run(steps).disk.value, Run(steps + [Kill, Boot(true, [])]);
      AtCurrent(m, s.currentBatch) && Batches(m) == |s.batches|
  {
    hide Run;
    var s := Run(steps).disk.value;
    RunAppend(steps, Kill);
    RunAppend(steps + [Kill], Boot(true, []));
    assert steps + [Kill, Boot(true, [])] == (steps + [Kill]) + [Boot(true, [])];
    RunKeepsAccounts(steps);
    hide LawIdsOf;
    hide Failures;
    SkipIsDead(s, s.currentBatch, LawIdsOf(steps), Failures(steps));
  }

  lemma RetrySucceeds(steps: seq<Step>, b: nat)
    requires Run(steps).disk.Some?
    requires Run(steps).disk.value.currentBatch <= b <= |Run(steps).disk.value.batches|
    ensures var more := Retry(Run(steps).disk.value.currentBatch, b);
      NeverAnew(more) && ProcessedOnDisk(Run(steps + more), b)
  {
    var currentBatch := Run(steps).disk.value.currentBatch;
    var booted, n := steps + [Kill, Boot(true, [])], b - currentBatch + 1;
    Resumed(steps);
    SuccessesMark(booted, currentBatch, n);
    assert steps + Retry(currentBatch, b) == booted + Successes(n);
    hide Run;
    hide ProcessedOnDisk;
    hide AtCurrent;
    assert ProcessedOnDisk(Run(steps + Retry(currentBatch, b)), b);
  }

  /**
    From any reachable checkpoint, an unprocessed batch can still be processed without starting anew exactly when it
    does not lie before the current batch, that is, when no later batch has succeeded since it failed.
  */
  lemma RetriedIff(steps: seq<Step>, b: nat)
    requires Run(steps).disk.Some? && 0 < b <= |Run(steps).disk.value.batches|
    requires !ProcessedOnDisk(Run(steps), b)
    ensures Run(steps).disk.value.currentBatch <= b <==>
      exists more :: NeverAnew(more) && ProcessedOnDisk(Run(steps + more), b)
  {
    if Run(steps).disk.value.currentBatch <= b {
      RetrySucceeds(steps, b);
    } else {
      forall more | NeverAnew(more) ensures !ProcessedOnDisk(Run(steps + more), b) {
        var all := steps + more;
        assert all[..|steps|] == steps;
        LeftBehindForever(all, |steps|, b);
      }
    }
  }
}
