/** What the saved checkpoint holds after any outcomes of the batches, and how much progress a crash can lose. */
module ImportProgress {
  import opened Wrappers
  import opened ImportState
  import opened ImporterClass

  /** A loop over the laws that starts at i0 gets to all the given batches. */
  predicate AllTaken(laws: seq<string>, i0: nat, steps: seq<Step>) {
    && (forall j :: 0 <= j < |steps| ==> EndsBatch(steps[j]))
    && (steps != [] ==> i0 + 100 * (|steps| - 1) < |laws|)
  }

  /** The last batch that was created and due for saving, and whose save went well. */
  function LastSave(i0: nat, steps: seq<Step>): (r: Option<nat>)
    ensures r.Some? ==> r.value < |steps| && steps[r.value].Created? && (i0 + 100 * r.value) % 1000 == 0
  {
    if steps == [] then None
    else
      var n := |steps| - 1;
      if steps[n].Created? && (i0 + 100 * n) % 1000 == 0 then Some(n) else LastSave(i0, steps[..n])
  }

  function LastCreated(steps: seq<Step>): (r: Option<nat>)
    ensures r.Some? ==> r.value < |steps| && !steps[r.value].Failed?
  {
    if steps == [] then None
    else if steps[|steps| - 1].Failed? then LastCreated(steps[..|steps| - 1])
    else Some(|steps| - 1)
  }

  /** The index after the batch with number k. */
  function EndOf(laws: seq<string>, i0: nat, k: nat): nat {
    Min(i0 + 100 * (k + 1), |laws|)
  }

  lemma TakenPrefix(laws: seq<string>, i0: nat, steps: seq<Step>)
    requires AllTaken(laws, i0, steps) && steps != []
    ensures AllTaken(laws, i0, steps[..|steps| - 1])
  {
  }

  /** The process stands at its n-th batch. */
  ghost predicate StandsAt(m: Machine, laws: seq<string>, i0: nat, n: nat) {
    m.process.Some? && m.process.value.i == i0 + 100 * n
  }

  lemma OneBatch(m: Machine, laws: seq<string>, i0: nat, n: nat, step: Step)
    requires StandsAt(m, laws, i0, n) && EndsBatch(step) && i0 + 100 * n < |laws|
    ensures var m' := Next(m, laws, step);
      && StandsAt(m', laws, i0, n + 1)
      && (m'.process.value.memory.lastProcessedIndex ==
            if step.Failed? then m.process.value.memory.lastProcessedIndex else EndOf(laws, i0, n))
      && (m'.disk ==
            if step.Created? && (i0 + 100 * n) % 1000 == 0 then Some(m'.process.value.memory) else m.disk)
  {
  }

  /** After any outcomes the memory stands behind the last batch created. */
  lemma {:induction false} MemoryIsLastCreated(m: Machine, laws: seq<string>, i0: nat, steps: seq<Step>)
    requires StandsAt(m, laws, i0, 0) && AllTaken(laws, i0, steps)
    ensures StandsAt(Steps(m, laws, steps), laws, i0, |steps|)
    ensures Steps(m, laws, steps).process.value.memory.lastProcessedIndex ==
      if LastCreated(steps).None? then m.process.value.memory.lastProcessedIndex
      else EndOf(laws, i0, LastCreated(steps).value)
  {
    if steps != [] {
      var n := |steps| - 1;
      TakenPrefix(laws, i0, steps);
      MemoryIsLastCreated(m, laws, i0, steps[..n]);
      OneBatch(Steps(m, laws, steps[..n]), laws, i0, n, steps[n]);
      hide Next;
      hide EndOf;
      hide AllTaken;
    }
  }

  /**
    The disk holds the checkpoint that the memory held right after the last successful save; without one, what it
    held before.
  */
  lemma {:induction false} DiskIsLastSave(m: Machine, laws: seq<string>, i0: nat, steps: seq<Step>)
    requires StandsAt(m, laws, i0, 0) && AllTaken(laws, i0, steps)
    ensures LastSave(i0, steps).None? ==> Steps(m, laws, steps).disk == m.disk
    ensures LastSave(i0, steps).Some? ==>
      var then' := Steps(m, laws, steps[..LastSave(i0, steps).value + 1]);
      && then'.process.Some? && Steps(m, laws, steps).disk == Some(then'.process.value.memory)
      && then'.process.value.memory.lastProcessedIndex == EndOf(laws, i0, LastSave(i0, steps).value)
  {
    if steps != [] {
      var n := |steps| - 1;
      TakenPrefix(laws, i0, steps);
      assert EndsBatch(steps[n]) && i0 + 100 * n < |laws|;
      var before, after, last := Steps(m, laws, steps[..n]), Steps(m, laws, steps), LastSave(i0, steps[..n]);
      assert after == Next(before, laws, steps[n]);
      assert LastSave(i0, steps) == if steps[n].Created? && (i0 + 100 * n) % 1000 == 0 then Some(n) else last;
      hide *;
      MemoryIsLastCreated(m, laws, i0, steps[..n]);
      DiskIsLastSave(m, laws, i0, steps[..n]);
      OneBatch(before, laws, i0, n, steps[n]);
      assert steps[..n + 1] == steps;
      assert last.Some? ==> steps[..n][..last.value + 1] == steps[..last.value + 1];
    }
  }

  /**
    The progress a crash loses, once something has been saved, is below a thousand laws exactly when fewer than ten
    batches after the last successful save were created, or the list of laws ends before that.
  */
  lemma LostProgressIff(m: Machine, laws: seq<string>, i0: nat, steps: seq<Step>)
    requires StandsAt(m, laws, i0, 0) && AllTaken(laws, i0, steps) && LastSave(i0, steps).Some?
    ensures LastCreated(steps).Some? && LastCreated(steps).value >= LastSave(i0, steps).value
    ensures var after, saved, made := Steps(m, laws, steps), LastSave(i0, steps).value, LastCreated(steps).value;
      && after.process.Some? && after.disk.Some?
      && after.process.value.memory.lastProcessedIndex >= after.disk.value.lastProcessedIndex
      && (after.process.value.memory.lastProcessedIndex - after.disk.value.lastProcessedIndex < 1000 <==>
            made - saved < 10 || |laws| < i0 + 100 * (saved + 1) + 1000)
  {
    MemoryIsLastCreated(m, laws, i0, steps);
    DiskIsLastSave(m, laws, i0, steps);
    SavedIsCreated(i0, steps);
    hide Steps;
    hide LastSave;
    hide LastCreated;
  }

  lemma {:induction false} SavedIsCreated(i0: nat, steps: seq<Step>)
    requires LastSave(i0, steps).Some?
    ensures LastCreated(steps).Some? && LastCreated(steps).value >= LastSave(i0, steps).value
  {
    var n := |steps| - 1;
    if steps[n].Failed? { SavedIsCreated(i0, steps[..n]); }
  }

  // ---------------------------------------------------------------- a first import without failures

  function Creations(n: nat): (steps: seq<Step>)
    ensures |steps| == n && forall i :: 0 <= i < n ==> steps[i] == Created
  {
    seq(n, _ => Created)
  }

  lemma {:induction false} SavedEveryTenth(n: nat)
    requires n >= 1
    ensures LastSave(0, Creations(n)) == Some(10 * ((n - 1) / 10)) && LastCreated(Creations(n)) == Some(n - 1)
  {
    if (n - 1) % 10 != 0 {
      assert Creations(n)[..n - 1] == Creations(n - 1);
      SavedEveryTenth(n - 1);
    }
  }

  /**
    After n batches of a first import the disk holds a checkpoint: of the first batch, or of the last one whose
    number is a multiple of ten. A crash then loses less than a thousand laws.
  */
  lemma FirstImportSaves(graph: set<string>, laws: seq<string>, n: nat)
    requires n >= 1 && 100 * (n - 1) < |laws|
    ensures var m := Run(graph, laws, [Start] + Creations(n));
      && m.process.Some? && m.disk.Some?
      && m.process.value.memory.lastProcessedIndex == Min(100 * n, |laws|)
      && m.disk.value.lastProcessedIndex == Min(1000 * ((n - 1) / 10) + 100, |laws|)
      && m.process.value.memory.lastProcessedIndex - m.disk.value.lastProcessedIndex < 1000
  {
    var m := Run(graph, laws, [Start]);
    RunAppend(graph, laws, [], Start);
    assert [] + [Start] == [Start];
    StepsOfRun(graph, laws, [Start], Creations(n));
    MemoryIsLastCreated(m, laws, 0, Creations(n));
    DiskIsLastSave(m, laws, 0, Creations(n));
    SavedEveryTenth(n);
    hide Steps;
    hide Run;
  }

  // ---------------------------------------------------------------- restarts

  /** After an abort a new process goes on with exactly the checkpoint that was in memory. */
  lemma AbortResumes(graph: set<string>, laws: seq<string>, steps: seq<Step>)
    requires Run(graph, laws, steps).process.Some?
    ensures var before, after := Run(graph, laws, steps), Run(graph, laws, steps + [Aborted, Start]);
      && after.process == Some(Process(before.process.value.memory, before.process.value.memory.lastProcessedIndex))
      && after.graph == before.graph
  {
    RunTwice(graph, laws, steps, Aborted, Start);
    hide Run;
  }

  /** After a crash it goes on with the checkpoint on the disk, or from nothing. */
  lemma CrashResumes(graph: set<string>, laws: seq<string>, steps: seq<Step>)
    ensures var before, after := Run(graph, laws, steps), Run(graph, laws, steps + [Crash, Start]);
      var c := if before.disk.Some? then before.disk.value else Checkpoint(0, 0, []);
      after == Machine(before.disk, before.graph, Some(Process(c, c.lastProcessedIndex)))
  {
    RunTwice(graph, laws, steps, Crash, Start);
    hide Run;
  }

  /** What a later phase saves survives the crash. */
  lemma LaterSaveStays(graph: set<string>, laws: seq<string>, steps: seq<Step>)
    requires AllAttempted(Run(graph, laws, steps), laws)
    ensures var before := Run(graph, laws, steps);
      Run(graph, laws, steps + [Saved, Crash]) == Machine(Some(before.process.value.memory), before.graph, None)
  {
    RunTwice(graph, laws, steps, Saved, Crash);
    hide Run;
  }

  /** After a finished import a new process starts from the first law, over the graph as it is. */
  lemma FinishedStartsOver(graph: set<string>, laws: seq<string>, steps: seq<Step>)
    requires AllAttempted(Run(graph, laws, steps), laws)
    ensures var after := Run(graph, laws, steps + [Finished, Start]);
      && after.disk == None && after.process == Some(Process(Checkpoint(0, 0, []), 0))
      && after.graph == Run(graph, laws, steps).graph
  {
    RunTwice(graph, laws, steps, Finished, Start);
    hide Run;
  }

  lemma RunTwice(graph: set<string>, laws: seq<string>, steps: seq<Step>, a: Step, b: Step)
    ensures Run(graph, laws, steps + [a, b]) == Next(Next(Run(graph, laws, steps), laws, a), laws, b)
  {
    RunAppend(graph, laws, steps, a);
    RunAppend(graph, laws, steps + [a], b);
    assert steps + [a, b] == (steps + [a]) + [b];
    hide Next;
    hide Run;
  }
}
