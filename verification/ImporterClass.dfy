/** `createLawNodes`: the loop over the batches, updating the checkpoint, the saved file and the graph in place. */
module ImporterClass {
  import opened Wrappers
  import opened ImportState

  function Steps(m: Machine, laws: seq<string>, steps: seq<Step>): Machine {
    if steps == [] then m else Next(Steps(m, laws, steps[..|steps| - 1]), laws, steps[|steps| - 1])
  }

  lemma StepsAppend(m: Machine, laws: seq<string>, steps: seq<Step>, k: nat)
    requires k < |steps|
    ensures Steps(m, laws, steps[..k + 1]) == Next(Steps(m, laws, steps[..k]), laws, steps[k])
  {
    assert steps[..k + 1][..k] == steps[..k];
  }

  /** How one awaited batch can end. */
  predicate EndsBatch(step: Step) {
    step.Created? || step.CreatedUnsaved? || step.Failed?
  }

  class Importer {
    /** The checkpoint file and the law nodes of the graph, outside the process. */
    var disk: Option<Checkpoint>
    var graph: set<string>
    var checkpoint: Checkpoint

    ghost function Standing(i: nat): Machine
      reads this
    {
      Machine(disk, graph, Some(Process(checkpoint, i)))
    }

    /** A new process over what an earlier one left. */
    constructor (disk: Option<Checkpoint>, graph: set<string>)
      ensures forall laws: seq<string> ::
        Standing(checkpoint.lastProcessedIndex) == Next(Machine(disk, graph, None), laws, Start)
    {
      this.disk, this.graph := disk, graph;
      checkpoint := if disk.Some? then disk.value else NEW_CHECKPOINT;
    }

    /** `outcomes` says how the awaited batches end; the process stops waiting when it runs out. */
    method CreateLawNodes(laws: seq<string>, outcomes: seq<Step>) returns (i: nat, k: nat)
      requires forall j :: 0 <= j < |outcomes| ==> EndsBatch(outcomes[j])
      modifies this
      ensures k <= |outcomes| && (k == |outcomes| || i >= |laws|)
      ensures Standing(i) == Steps(old(Standing(checkpoint.lastProcessedIndex)), laws, outcomes[..k])
    {
      i := checkpoint.lastProcessedIndex;
      k := 0;
      ghost var start := Standing(i);
      assert outcomes[..0] == [];
      while i < |laws| && k < |outcomes|
        invariant k <= |outcomes|
        invariant Standing(i) == Steps(start, laws, outcomes[..k])
        decreases |outcomes| - k
      {
        hide Next;
        hide Steps;
        StepsAppend(start, laws, outcomes, k);
        AwaitBatch(laws, i, outcomes[k]);
        i := i + BATCH_SIZE;
        k := k + 1;
      }
    }

    method AwaitBatch(laws: seq<string>, i: nat, outcome: Step)
      requires i < |laws| && EndsBatch(outcome)
      modifies this
      ensures Standing(i + BATCH_SIZE) == Next(old(Standing(i)), laws, outcome)
    {
      var batch := laws[i..Min(i + BATCH_SIZE, |laws|)];
      if outcome.Failed? {
        graph := graph + Ids(batch) * outcome.reached;
        RecordErrors(batch);
      } else {
        graph := graph + Ids(batch);
        checkpoint := checkpoint.(processedLaws := checkpoint.processedLaws + |batch|);
        checkpoint := checkpoint.(lastProcessedIndex := i + |batch|);
        if SaveDue(i) {
          if outcome.Created? {
            disk := Some(checkpoint);
          } else {
            RecordErrors(batch);
          }
        }
      }
    }

    /** One error entry for each law of the batch. */
    method RecordErrors(batch: seq<string>)
      modifies this`checkpoint
      ensures checkpoint == AfterFailed(old(checkpoint), batch)
    {
      for j := 0 to |batch|
        invariant checkpoint == AfterFailed(old(checkpoint), batch[..j])
      {
        assert batch[..j + 1] == batch[..j] + [batch[j]];
        checkpoint := checkpoint.(errors := checkpoint.errors + [batch[j]]);
      }
      assert batch[..|batch|] == batch;
    }
  }

  /** What the loop does from a reachable state is part of a run. */
  lemma {:induction false} StepsOfRun(graph: set<string>, laws: seq<string>, steps: seq<Step>, more: seq<Step>)
    ensures Steps(Run(graph, laws, steps), laws, more) == Run(graph, laws, steps + more)
  {
    if more == [] {
      assert steps + more == steps;
    } else {
      var n := |more| - 1;
      hide Next;
      hide Run;
      StepsOfRun(graph, laws, steps, more[..n]);
      assert steps + more == (steps + more[..n]) + [more[n]];
      RunAppend(graph, laws, steps + more[..n], more[n]);
      assert Steps(Run(graph, laws, steps), laws, more) == Run(graph, laws, steps + more);
    }
  }
}
