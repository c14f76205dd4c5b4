/** `processAllLaws`: one session of the batch processor, over the saved state it finds and leaves. */
module BatchProcessor {
  import opened Wrappers
  import opened BatchState

  /** The machine after the given steps, taken one after another. */
  function Steps(m: Machine, steps: seq<Step>): Machine {
    if steps == [] then m else Next(Steps(m, steps[..|steps| - 1]), steps[|steps| - 1])
  }

  /** A session boots and then meets the given outcomes; once its loop is over, further ones do not happen. */
  function Session(disk: Option<State>, resume: bool, lawIds: seq<string>, outcomes: seq<Step>): Machine {
    Steps(Next(Machine(disk, None), Boot(resume, lawIds)), outcomes)
  }

  ghost predicate Indexed(s: State) {
    |s.batches| == s.totalBatches && s.currentBatch >= 1
  }

  lemma StepsAppend(m: Machine, steps: seq<Step>, k: nat)
    requires k < |steps|
    ensures Steps(m, steps[..k + 1]) == Next(Steps(m, steps[..k]), steps[k])
  {
    assert steps[..k + 1][..k] == steps[..k];
  }

  lemma {:induction false} OverFrom(m: Machine, steps: seq<Step>, k: nat)
    requires k <= |steps| && !Awaiting(Steps(m, steps[..k])) && forall i :: 0 <= i < |steps| ==> !steps[i].Boot?
    ensures Steps(m, steps).disk == Steps(m, steps[..k]).disk
    decreases |steps| - k
  {
    if k < |steps| {
      StepsAppend(m, steps, k);
      OverFrom(m, steps, k + 1);
    } else {
      assert steps[..k] == steps;
    }
  }

  class Processor {
    /** The checkpoint file. */
    var disk: Option<State>

    ghost predicate Valid()
      reads this
    {
      disk.Some? ==> Indexed(disk.value)
    }

    constructor ()
      ensures disk == None
    {
      disk := None;
    }

    static method NewState(lawIds: seq<string>) returns (state: State)
      ensures state == Fresh(lawIds)
    {
      var totalBatches := BatchCount(|lawIds|);
      var batches: seq<Batch> := [];
      for i := 0 to totalBatches
        invariant |batches| == i
        invariant forall k :: 0 <= k < i ==> batches[k] == Batch(BatchAt(lawIds, k), false, NO_COUNTS)
      {
        var start := i * BATCH_SIZE;
        var end := Min(start + BATCH_SIZE, |lawIds|);
        batches := batches + [Batch(lawIds[Min(start, |lawIds|)..end], false, NO_COUNTS)];
      }
      state := State(|lawIds|, 0, 1, totalBatches, NO_COUNTS, batches);
    }

    /** `outcomes` says how each awaited batch ends; when it runs out, the process is killed while waiting. */
    method ProcessAllLaws(resume: bool, lawIds: seq<string>, outcomes: seq<Step>)
      requires Valid()
      requires forall i :: 0 <= i < |outcomes| ==> !outcomes[i].Boot?
      modifies this`disk
      ensures Valid()
      ensures disk == Session(old(disk), resume, lawIds, outcomes).disk
    {
      ghost var booted := Next(Machine(disk, None), Boot(resume, lawIds));
      var state: State;
      if resume && disk.Some? {
        state := disk.value;
      } else {
        state := NewState(lawIds);
        disk := Some(state);
      }
      RunBatches(state, booted, outcomes);
    }

    /** The machine of a process that stands before batch b. */
    ghost function Standing(state: State, b: nat): Machine
      reads this
    {
      Machine(disk, Some(LoopHead(Process(state, b))))
    }

    method RunBatches(loaded: State, ghost booted: Machine, outcomes: seq<Step>)
      requires Valid() && Indexed(loaded) && booted == Standing(loaded, loaded.currentBatch)
      requires forall i :: 0 <= i < |outcomes| ==> !outcomes[i].Boot?
      modifies this`disk
      ensures Valid()
      ensures disk == Steps(booted, outcomes).disk
    {
      var state, batchNum, k := loaded, loaded.currentBatch, 0;
      ghost var total := state.totalBatches;
      assert outcomes[..0] == [];
      while batchNum <= state.totalBatches
        invariant Valid() && Indexed(state) && state.totalBatches == total && batchNum >= 1 && k <= |outcomes|
        invariant Steps(booted, outcomes[..k]) == Standing(state, batchNum)
        decreases total + 1 - batchNum
      {
        hide Next;
        hide Steps;
        hide WithFailure;
        hide Merged;
        if state.batches[batchNum - 1].processed {
          state := Skipped(state, batchNum);
          batchNum := batchNum + 1;
          continue;
        }
        if k == |outcomes| {
          assert outcomes[..k] == outcomes;
          return;
        }
        assert Standing(state, batchNum) == Machine(disk, Some(Process(state, batchNum)));
        StepsAppend(booted, outcomes, k);
        var ended;
        state, ended := AwaitBatch(state, batchNum, outcomes[k]);
        batchNum := batchNum + 1;
        k := k + 1;
        if ended {
          OverFrom(booted, outcomes, k);
          return;
        }
      }
      OverFrom(booted, outcomes, k);
    }

    /** One awaited batch: what is merged and saved, or how the process ends. */
    method AwaitBatch(before: State, batchNum: nat, outcome: Step) returns (state: State, ended: bool)
      requires Valid() && Indexed(before) && 1 <= batchNum <= before.totalBatches && !outcome.Boot?
      modifies this`disk
      ensures Valid() && Indexed(state) && state.totalBatches == before.totalBatches
      ensures Next(Machine(old(disk), Some(Process(before, batchNum))), outcome) ==
        if ended then Machine(disk, None) else Standing(state, batchNum + 1)
    {
      state, ended := before, false;
      match outcome {
        case Succeeds(results) =>
          state := CompleteBatch(state, batchNum, results);
          disk := Some(state);
        case SucceedsUnreported(results) =>
          state := CompleteBatch(state, batchNum, results);
          disk := Some(state);
          state := WithFailure(state);
          disk := Some(state);
        case Fails =>
          state := WithFailure(state);
          disk := Some(state);
        case Interrupt =>
          disk := Some(state);
          ended := true;
        case Kill =>
          ended := true;
      }
    }

    /** The updates that follow a completed batch, in the order of the source. */
    static method CompleteBatch(before: State, batchNum: nat, results: Counts) returns (state: State)
      requires Indexed(before) && 1 <= batchNum <= before.totalBatches
      ensures state == Merged(before, batchNum, results)
    {
      state := before;
      state := state.(results := state.results.(references := state.results.references + results.references));
      state := state.(results := state.results.(articles := state.results.articles + results.articles));
      state := state.(results := state.results.(matched := state.results.matched + results.matched));
      state := state.(results := state.results.(missed := state.results.missed + results.missed));
      state := state.(results := state.results.(extra := state.results.extra + results.extra));
      state := state.(results := state.results.(errors := state.results.errors + results.errors));
      var batch := state.batches[batchNum - 1];
      batch := batch.(processed := true);
      batch := batch.(results := results);
      state := state.(batches := state.batches[batchNum - 1 := batch]);
      state := state.(processedLaws := state.processedLaws + |batch.lawIds|);
      state := state.(currentBatch := batchNum + 1);
    }
  }

  // ---------------------------------------------------------------- sessions are runs

  lemma {:induction false} StepsOfRun(steps: seq<Step>, more: seq<Step>)
    ensures Steps(Run(steps), more) == Run(steps + more)
  {
    if more == [] {
      assert steps + more == steps;
    } else {
      var n := |more| - 1;
      hide Next;
      hide Run;
      StepsOfRun(steps, more[..n]);
      assert steps + more == (steps + more[..n]) + [more[n]];
      RunAppend(steps + more[..n], more[n]);
      assert Steps(Run(steps), more) == Run(steps + more);
    }
  }

  /** A session on the disk of a reachable machine that is not running continues that run. */
  lemma SessionIsRun(steps: seq<Step>, resume: bool, lawIds: seq<string>, outcomes: seq<Step>)
    requires Run(steps).process == None
    ensures Session(Run(steps).disk, resume, lawIds, outcomes) == Run(steps + [Boot(resume, lawIds)] + outcomes)
  {
    RunAppend(steps, Boot(resume, lawIds));
    StepsOfRun(steps + [Boot(resume, lawIds)], outcomes);
  }
}
