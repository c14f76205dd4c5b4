/**
  The resumable import of laws into the graph (scripts/legacy/import-all-laws-neo4j.ts), without `--clean`, over a
  fixed list of law ids.
*/
module ImportState {
  import opened Wrappers

  const BATCH_SIZE := 100
  const SAVE_EVERY := 1000

  /** The part of the checkpoint that node creation uses; `errors` holds the law id of each entry. */
  datatype Checkpoint = Checkpoint(lastProcessedIndex: nat, processedLaws: nat, errors: seq<string>)

  const NEW_CHECKPOINT := Checkpoint(0, 0, [])

  /** An importer: its checkpoint in memory, and where the loop over the laws stands. */
  datatype Process = Process(memory: Checkpoint, i: nat)

  datatype Machine = Machine(disk: Option<Checkpoint>, graph: set<string>, process: Option<Process>)

  datatype Step =
    | Start                             // a new importer reads the checkpoint file
    | Created                           // the batch is merged into the graph
    | CreatedUnsaved                    // as above, but the save, if one is due, fails
    | Failed(reached: set<string>)      // the batch is recorded as failed; some of it may have reached the graph
    | Aborted                           // any other error: the checkpoint is saved and the process exits
    | Saved                             // a later phase saves the checkpoint
    | Finished                          // all phases done: the checkpoint file is removed
    | Crash

  function Min(a: nat, b: nat): nat {
    if a < b then a else b
  }

  function BatchAt(laws: seq<string>, i: nat): seq<string>
    requires i <= |laws|
  {
    laws[i..Min(i + BATCH_SIZE, |laws|)]
  }

  function Ids(batch: seq<string>): set<string> {
    set x | x in batch
  }

  function AfterCreated(c: Checkpoint, batch: seq<string>, i: nat): Checkpoint {
    Checkpoint(i + |batch|, c.processedLaws + |batch|, c.errors)
  }

  function AfterFailed(c: Checkpoint, batch: seq<string>): Checkpoint {
    Checkpoint(c.lastProcessedIndex, c.processedLaws, c.errors + batch)
  }

  predicate Creating(m: Machine, laws: seq<string>) {
    m.process.Some? && m.process.value.i < |laws|
  }

  predicate SaveDue(i: nat) {
    i % SAVE_EVERY == 0
  }

  /** Node creation is over. */
  predicate AllAttempted(m: Machine, laws: seq<string>) {
    m.process.Some? && m.process.value.i >= |laws|
  }

  /** A step that cannot happen where the machine stands changes nothing. */
  function Next(m: Machine, laws: seq<string>, step: Step): Machine {
    match step
    case Start =>
      if m.process.Some? then m
      else
        var c := if m.disk.Some? then m.disk.value else NEW_CHECKPOINT;
        Machine(m.disk, m.graph, Some(Process(c, c.lastProcessedIndex)))
    case Created =>
      if !Creating(m, laws) then m
      else
        var Process(c, i) := m.process.value;
        var batch := BatchAt(laws, i);
        var c' := AfterCreated(c, batch, i);
        Machine(if SaveDue(i) then Some(c') else m.disk, m.graph + Ids(batch), Some(Process(c', i + BATCH_SIZE)))
    case CreatedUnsaved =>
      if !Creating(m, laws) then m
      else
        var Process(c, i) := m.process.value;
        var batch := BatchAt(laws, i);
        var c' := AfterCreated(c, batch, i);
        Machine(m.disk, m.graph + Ids(batch), Some(Process(if SaveDue(i) then AfterFailed(c', batch) else c', i + BATCH_SIZE)))
    case Failed(reached) =>
      if !Creating(m, laws) then m
      else
        var Process(c, i) := m.process.value;
        var batch := BatchAt(laws, i);
        Machine(m.disk, m.graph + Ids(batch) * reached, Some(Process(AfterFailed(c, batch), i + BATCH_SIZE)))
    case Aborted => if m.process.None? then m else Machine(Some(m.process.value.memory), m.graph, None)
    case Saved => if AllAttempted(m, laws) then Machine(Some(m.process.value.memory), m.graph, m.process) else m
    case Finished => if AllAttempted(m, laws) then Machine(None, m.graph, None) else m
    case Crash => Machine(m.disk, m.graph, None)
  }

  /** The machine after the given steps, from no checkpoint and any graph. */
  function Run(graph: set<string>, laws: seq<string>, steps: seq<Step>): Machine {
    if steps == [] then Machine(None, graph, None)
    else Next(Run(graph, laws, steps[..|steps| - 1]), laws, steps[|steps| - 1])
  }

  lemma RunAppend(graph: set<string>, laws: seq<string>, steps: seq<Step>, step: Step)
    ensures Run(graph, laws, steps + [step]) == Next(Run(graph, laws, steps), laws, step)
  {
    hide Next;
    assert (steps + [step])[..|steps|] == steps;
    assert Run(graph, laws, steps + [step]) == Next(Run(graph, laws, steps), laws, step);
  }

  // ---------------------------------------------------------------- coverage

  /** Each of the first n laws is in the graph or among the errors. */
  ghost predicate Covered(laws: seq<string>, n: nat, graph: set<string>, errors: seq<string>) {
    forall k :: 0 <= k < n && k < |laws| ==> laws[k] in graph || laws[k] in errors
  }

  ghost predicate GoodCheckpoint(c: Checkpoint, laws: seq<string>, graph: set<string>) {
    && c.processedLaws <= c.lastProcessedIndex <= |laws|
    && c.lastProcessedIndex <= c.processedLaws + |c.errors|
    && Covered(laws, c.lastProcessedIndex, graph, c.errors)
  }

  ghost predicate Inv(m: Machine, laws: seq<string>) {
    && (m.disk.Some? ==> GoodCheckpoint(m.disk.value, laws, m.graph))
    && (m.process.Some? ==>
          var Process(c, i) := m.process.value;
          && GoodCheckpoint(c, laws, m.graph)
          && Min(i, |laws|) <= c.processedLaws + |c.errors|
          && c.lastProcessedIndex <= i
          && Covered(laws, i, m.graph, c.errors))
  }

  lemma CoveredGrows(laws: seq<string>, n: nat, graph: set<string>, errors: seq<string>, graph': set<string>, errors': seq<string>)
    requires Covered(laws, n, graph, errors) && graph <= graph' && errors <= errors'
    ensures Covered(laws, n, graph', errors')
  {
    assert forall x :: x in errors ==> x in errors' by {
      assert errors' == errors + errors'[|errors|..];
    }
  }

  /** Once the batch at i is in the graph or among the errors, coverage reaches past it. */
  lemma CoveredBatch(laws: seq<string>, i: nat, graph: set<string>, errors: seq<string>)
    requires i < |laws| && Covered(laws, i, graph, errors)
    requires forall x :: x in BatchAt(laws, i) ==> x in graph || x in errors
    ensures Covered(laws, i + BATCH_SIZE, graph, errors)
  {
    var batch := BatchAt(laws, i);
    forall k | 0 <= k < i + BATCH_SIZE && k < |laws| ensures laws[k] in graph || laws[k] in errors {
      if k >= i { assert batch[k - i] == laws[k]; }
    }
  }

  lemma CreatedKeeps(m: Machine, laws: seq<string>)
    requires Inv(m, laws) && Creating(m, laws)
    ensures Inv(Next(m, laws, Created), laws) && Inv(Next(m, laws, CreatedUnsaved), laws)
  {
    var Process(c, i) := m.process.value;
    var batch := BatchAt(laws, i);
    var graph := m.graph + Ids(batch);
    CoveredGrows(laws, i, m.graph, c.errors, graph, c.errors);
    CoveredBatch(laws, i, graph, c.errors);
    CoveredGrows(laws, i + BATCH_SIZE, graph, c.errors, graph, c.errors + batch);
    if m.disk.Some? {
      CoveredGrows(laws, m.disk.value.lastProcessedIndex, m.graph, m.disk.value.errors, graph, m.disk.value.errors);
    }
    assert Covered(laws, i + |batch|, graph, c.errors) && Covered(laws, i + |batch|, graph, c.errors + batch);
    hide Covered;
  }

  lemma FailedKeeps(m: Machine, laws: seq<string>, reached: set<string>)
    requires Inv(m, laws) && Creating(m, laws)
    ensures Inv(Next(m, laws, Failed(reached)), laws)
  {
    var Process(c, i) := m.process.value;
    var batch := BatchAt(laws, i);
    var graph := m.graph + Ids(batch) * reached;
    CoveredGrows(laws, i, m.graph, c.errors, graph, c.errors + batch);
    CoveredGrows(laws, c.lastProcessedIndex, m.graph, c.errors, graph, c.errors + batch);
    CoveredBatch(laws, i, graph, c.errors + batch);
    if m.disk.Some? {
      CoveredGrows(laws, m.disk.value.lastProcessedIndex, m.graph, m.disk.value.errors, graph, m.disk.value.errors);
    }
    hide Covered;
  }

  /** In every reachable state both checkpoints account for the laws they claim to have passed. */
  lemma {:induction false} RunKeepsCoverage(graph: set<string>, laws: seq<string>, steps: seq<Step>)
    ensures Inv(Run(graph, laws, steps), laws)
  {
    if steps != [] {
      var front, step := steps[..|steps| - 1], steps[|steps| - 1];
      var m := Run(graph, laws, front);
      RunKeepsCoverage(graph, laws, front);
      hide Covered;
      if Creating(m, laws) {
        CreatedKeeps(m, laws);
        if step.Failed? { FailedKeeps(m, laws, step.reached); }
      }
    }
  }

  /** However often the import failed, crashed and was restarted, when node creation ends no law is unaccounted for. */
  lemma EveryLawAccountedFor(graph: set<string>, laws: seq<string>, steps: seq<Step>)
    requires AllAttempted(Run(graph, laws, steps), laws)
    ensures var m := Run(graph, laws, steps);
      forall k :: 0 <= k < |laws| ==> laws[k] in m.graph || laws[k] in m.process.value.memory.errors
  {
    RunKeepsCoverage(graph, laws, steps);
  }
}
