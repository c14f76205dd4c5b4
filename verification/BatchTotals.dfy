/** The saved totals, counter by counter, and the batches they are summed over. */
module BatchTotals {
  import opened Wrappers
  import opened BatchState
  import opened BatchAccounting

  /** One counter, summed over the batches marked as processed. */
  function Sum(batches: seq<Batch>, counter: Counts -> nat): nat {
    if batches == [] then 0
    else
      var last := batches[|batches| - 1];
      Sum(batches[..|batches| - 1], counter) + if last.processed then counter(last.results) else 0
  }

  const REFERENCES: Counts -> nat := (c: Counts) => c.references
  const ARTICLES: Counts -> nat := (c: Counts) => c.articles
  const MATCHED: Counts -> nat := (c: Counts) => c.matched
  const MISSED: Counts -> nat := (c: Counts) => c.missed
  const EXTRA: Counts -> nat := (c: Counts) => c.extra
  const ERRORS: Counts -> nat := (c: Counts) => c.errors

  /** Each total is the sum of that counter; failures are errors too. */
  ghost predicate Totalled(s: State, failures: nat) {
    && s.results.references == Sum(s.batches, REFERENCES)
    && s.results.articles == Sum(s.batches, ARTICLES)
    && s.results.matched == Sum(s.batches, MATCHED)
    && s.results.missed == Sum(s.batches, MISSED)
    && s.results.extra == Sum(s.batches, EXTRA)
    && s.results.errors == Sum(s.batches, ERRORS) + failures
  }

  lemma {:induction false} CountsAreSums(batches: seq<Batch>)
    ensures var counts := ProcessedCounts(batches);
      && counts.references == Sum(batches, REFERENCES)
      && counts.articles == Sum(batches, ARTICLES)
      && counts.matched == Sum(batches, MATCHED)
      && counts.missed == Sum(batches, MISSED)
      && counts.extra == Sum(batches, EXTRA)
      && counts.errors == Sum(batches, ERRORS)
  {
    if batches != [] {
      CountsAreSums(batches[..|batches| - 1]);
    }
  }

  lemma GoodIsTotalled(s: State, lawIds: seq<string>, failures: nat)
    requires Good(s, lawIds, failures)
    ensures Totalled(s, failures)
  {
    CountsAreSums(s.batches);
    hide CutFrom;
    hide NoneFrom;
    hide ProcessedCounts;
    hide ProcessedSize;
    hide Sum;
  }

  /** In every reachable state, on disk and in memory. */
  lemma TotalsAreSums(steps: seq<Step>)
    ensures var m := Run(steps);
      && (m.disk.Some? ==> Totalled(m.disk.value, Failures(steps)))
      && (m.process.Some? ==> Totalled(m.process.value.memory, Failures(steps)))
  {
    RunKeepsAccounts(steps);
    var m := Run(steps);
    hide Run;
    hide Good;
    hide Totalled;
    hide LawIdsOf;
    hide Failures;
    if m.disk.Some? { GoodIsTotalled(m.disk.value, LawIdsOf(steps), Failures(steps)); }
  }

  /** The laws of a reachable checkpoint: batches of a hundred, the last one possibly shorter but never empty. */
  lemma BatchesOfAHundred(steps: seq<Step>, i: nat)
    requires Run(steps).disk.Some? && i < |Run(steps).disk.value.batches|
    ensures var batches := Run(steps).disk.value.batches;
      && (i < |batches| - 1 ==> |batches[i].lawIds| == 100)
      && 1 <= |batches[i].lawIds| <= 100
  {
    RunKeepsAccounts(steps);
    var s, lawIds := Run(steps).disk.value, LawIdsOf(steps);
    assert CutFrom(s.batches, lawIds);
    hide Run;
    hide LawIdsOf;
    hide Failures;
    hide Balanced;
    hide NoneFrom;
    assert s.batches[i].lawIds == BatchAt(lawIds, i);
  }
}
