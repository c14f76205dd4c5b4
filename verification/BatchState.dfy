/**
  Resumable batch processing (scripts/legacy/archive_20250820/batch-processor.ts) as a machine of steps.

  Only `await` lets anything else happen, and `saveState` is one atomic write. So a run is a sequence of boots,
  awaited batches that end in success or failure, interrupts (Ctrl+C, which saves) and kills (which do not).
*/
module BatchState {
  import opened Wrappers

  const BATCH_SIZE := 100

  /** The counters a batch reports, and the totals they are added into. */
  datatype Counts = Counts(references: nat, articles: nat, matched: nat, missed: nat, extra: nat, errors: nat) {
    function Plus(that: Counts): Counts {
      Counts(references + that.references, articles + that.articles, matched + that.matched,
             missed + that.missed, extra + that.extra, errors + that.errors)
    }
  }

  const NO_COUNTS := Counts(0, 0, 0, 0, 0, 0)
  const ONE_ERROR := Counts(0, 0, 0, 0, 0, 1)

  datatype Batch = Batch(lawIds: seq<string>, processed: bool, results: Counts)

  /** Batch number b is batches[b - 1]. */
  datatype State = State(
    totalLaws: nat, processedLaws: nat, currentBatch: nat, totalBatches: nat, results: Counts, batches: seq<Batch>)

  // ---------------------------------------------------------------- the batches of a new run

  function Min(a: nat, b: nat): nat {
    if a < b then a else b
  }

  /** The laws of the batch at index i, as `slice` cuts them. */
  function BatchAt(lawIds: seq<string>, i: nat): seq<string> {
    lawIds[Min(i * BATCH_SIZE, |lawIds|)..Min(i * BATCH_SIZE + BATCH_SIZE, |lawIds|)]
  }

  /** `Math.ceil(n / BATCH_SIZE)` */
  function BatchCount(n: nat): nat {
    (n + BATCH_SIZE - 1) / BATCH_SIZE
  }

  function Split(lawIds: seq<string>): (r: seq<Batch>)
    ensures |r| == BatchCount(|lawIds|)
    ensures forall i :: 0 <= i < |r| ==> r[i] == Batch(BatchAt(lawIds, i), false, NO_COUNTS)
  {
    seq(BatchCount(|lawIds|), i requires 0 <= i < BatchCount(|lawIds|) => Batch(BatchAt(lawIds, i), false, NO_COUNTS))
  }

  function Fresh(lawIds: seq<string>): State {
    State(|lawIds|, 0, 1, BatchCount(|lawIds|), NO_COUNTS, Split(lawIds))
  }

  // ---------------------------------------------------------------- what a batch does to the state

  function Merged(s: State, b: nat, r: Counts): State
    requires 0 < b <= |s.batches|
  {
    State(s.totalLaws, s.processedLaws + |s.batches[b - 1].lawIds|, b + 1, s.totalBatches, s.results.Plus(r),
          Mark(s.batches, b - 1, r))
  }

  function Mark(batches: seq<Batch>, i: nat, r: Counts): (marked: seq<Batch>)
    requires i < |batches|
    ensures |marked| == |batches|
  {
    batches[i := Batch(batches[i].lawIds, true, r)]
  }

  function WithFailure(s: State): State {
    State(s.totalLaws, s.processedLaws, s.currentBatch, s.totalBatches, s.results.Plus(ONE_ERROR), s.batches)
  }

  function Skipped(s: State, b: nat): State
    requires 0 < b <= |s.batches|
  {
    State(s.totalLaws, s.processedLaws + |s.batches[b - 1].lawIds|, s.currentBatch, s.totalBatches, s.results, s.batches)
  }

  // ---------------------------------------------------------------- the machine

  /** The loop stands before batch number b with the state in memory. */
  datatype Process = Process(memory: State, b: nat)

  datatype Machine = Machine(disk: Option<State>, process: Option<Process>)

  datatype Step =
    | Boot(resume: bool, lawIds: seq<string>)
    | Succeeds(results: Counts)
    | SucceedsUnreported(results: Counts)  // the separate report file of the batch cannot be written
    | Fails
    | Interrupt
    | Kill

  const START := Machine(None, None)

  /** The head of the loop: batches marked as processed are counted again and passed over. */
  function LoopHead(p: Process): Process
    decreases |p.memory.batches| + 1 - p.b
  {
    if 0 < p.b <= p.memory.totalBatches && p.b <= |p.memory.batches| && p.memory.batches[p.b - 1].processed
    then LoopHead(Process(Skipped(p.memory, p.b), p.b + 1))
    else p
  }

  /** Whether a batch is being awaited. */
  predicate Awaiting(m: Machine) {
    m.process.Some? && 0 < m.process.value.b <= m.process.value.memory.totalBatches
      && m.process.value.b <= |m.process.value.memory.batches|
  }

  /** The state is saved and the loop goes on with the next batch. */
  function SavedAndOn(s: State, b: nat): Machine {
    Machine(Some(s), Some(LoopHead(Process(s, b + 1))))
  }

  /** A step that cannot happen where the machine stands changes nothing. */
  function Next(m: Machine, step: Step): Machine {
    match step
    case Boot(resume, lawIds) =>
      if Awaiting(m) then m
      else if resume && m.disk.Some? then
        Machine(m.disk, Some(LoopHead(Process(m.disk.value, m.disk.value.currentBatch))))
      else Machine(Some(Fresh(lawIds)), Some(LoopHead(Process(Fresh(lawIds), 1))))
    case Kill => Machine(m.disk, None)
    case _ =>
      if !Awaiting(m) then m
      else
        var Process(s, b) := m.process.value;
        match step
        case Succeeds(r) => SavedAndOn(Merged(s, b, r), b)
        case SucceedsUnreported(r) => SavedAndOn(WithFailure(Merged(s, b, r)), b)
        case Fails => SavedAndOn(WithFailure(s), b)
        case _ => Machine(Some(s), None)
  }

  function Run(steps: seq<Step>): Machine {
    if steps == [] then START else Next(Run(steps[..|steps| - 1]), steps[|steps| - 1])
  }

  lemma RunAppend(steps: seq<Step>, step: Step)
    ensures Run(steps + [step]) == Next(Run(steps), step)
  {
    hide Next;
    assert (steps + [step])[..|steps|] == steps;
    assert Run(steps + [step]) == Next(Run(steps), step);
  }

  /** The failures recorded since the run was last started anew. */
  function Failures(steps: seq<Step>): nat {
    if steps == [] then 0
    else
      var before, step := Run(steps[..|steps| - 1]), steps[|steps| - 1];
      var failures := Failures(steps[..|steps| - 1]);
      if step.Boot? then
        if Awaiting(before) || (step.resume && before.disk.Some?) then failures else 0
      else if Awaiting(before) && (step.Fails? || step.SucceedsUnreported?) then failures + 1
      else failures
  }
}
