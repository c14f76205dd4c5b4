/** What the batches of one process add to its checkpoint and to the graph, law by law. */
module ImportAccounts {
  import opened Wrappers
  import opened ImportState
  import opened ImporterClass
  import opened ImportProgress

  /** The laws of the k-th batch of a loop that starts at i0. */
  function LawsOf(laws: seq<string>, i0: nat, k: nat): seq<string> {
    laws[Min(i0 + 100 * k, |laws|)..Min(i0 + 100 * k + 100, |laws|)]
  }

  /** The laws of the batches that were created, in order. */
  function Made(laws: seq<string>, i0: nat, steps: seq<Step>): seq<string> {
    if steps == [] then []
    else
      var n := |steps| - 1;
      Made(laws, i0, steps[..n]) + if steps[n].Failed? then [] else LawsOf(laws, i0, n)
  }

  /** The laws of the batches that failed, and of those created whose save failed. */
  function Recorded(laws: seq<string>, i0: nat, steps: seq<Step>): seq<string> {
    if steps == [] then []
    else
      var n := |steps| - 1;
      Recorded(laws, i0, steps[..n]) +
      if steps[n].Failed? || (steps[n].CreatedUnsaved? && (i0 + 100 * n) % 1000 == 0) then LawsOf(laws, i0, n) else []
  }

  /** The law x gets into the graph: its batch is created, or fails after the law has reached it. */
  ghost predicate Arrives(laws: seq<string>, i0: nat, steps: seq<Step>, x: string) {
    exists k :: 0 <= k < |steps| && x in LawsOf(laws, i0, k) && (steps[k].Failed? ==> x in steps[k].reached)
  }

  /** From one machine to another the count, the errors and the graph grow by one batch. */
  ghost predicate AddsBatch(m: Machine, m': Machine, laws: seq<string>, i0: nat, n: nat, step: Step) {
    && m.process.Some? && m'.process.Some?
    && var c, c', batch := m.process.value.memory, m'.process.value.memory, LawsOf(laws, i0, n);
    && c'.processedLaws == c.processedLaws + (if step.Failed? then 0 else |batch|)
    && c'.errors == c.errors + (if step.Failed? || (step.CreatedUnsaved? && (i0 + 100 * n) % 1000 == 0) then batch else [])
    && forall x :: x in m'.graph <==> x in m.graph || (x in batch && (step.Failed? ==> x in step.reached))
  }

  lemma OneMore(m: Machine, laws: seq<string>, i0: nat, n: nat, step: Step)
    requires StandsAt(m, laws, i0, n) && EndsBatch(step) && i0 + 100 * n < |laws|
    ensures AddsBatch(m, Next(m, laws, step), laws, i0, n, step)
  {
    assert m.process.value.memory.errors + [] == m.process.value.memory.errors;
  }

  lemma ArrivesPrefix(laws: seq<string>, i0: nat, steps: seq<Step>, x: string)
    requires steps != []
    ensures var n := |steps| - 1;
      Arrives(laws, i0, steps, x) <==>
        Arrives(laws, i0, steps[..n], x) || (x in LawsOf(laws, i0, n) && (steps[n].Failed? ==> x in steps[n].reached))
  {
    var n := |steps| - 1;
    hide LawsOf;
    if Arrives(laws, i0, steps[..n], x) {
      var k :| 0 <= k < n && x in LawsOf(laws, i0, k) && (steps[..n][k].Failed? ==> x in steps[..n][k].reached);
      assert steps[..n][k] == steps[k];
    }
    if Arrives(laws, i0, steps, x) {
      var k :| 0 <= k < |steps| && x in LawsOf(laws, i0, k) && (steps[k].Failed? ==> x in steps[k].reached);
      if k < n { assert steps[..n][k] == steps[k]; }
    }
  }

  /**
    The count has grown by the laws created, the errors by the laws recorded, and the graph by exactly the laws that
    arrived.
  */
  ghost predicate AddsUp(m: Machine, m': Machine, laws: seq<string>, i0: nat, steps: seq<Step>) {
    && m.process.Some? && m'.process.Some?
    && m'.process.value.memory.processedLaws == m.process.value.memory.processedLaws + |Made(laws, i0, steps)|
    && m'.process.value.memory.errors == m.process.value.memory.errors + Recorded(laws, i0, steps)
    && forall x :: x in m'.graph <==> x in m.graph || Arrives(laws, i0, steps, x)
  }

  lemma AddsUpMore(m: Machine, before: Machine, after: Machine, laws: seq<string>, i0: nat, steps: seq<Step>)
    requires steps != [] && AddsUp(m, before, laws, i0, steps[..|steps| - 1])
    requires AddsBatch(before, after, laws, i0, |steps| - 1, steps[|steps| - 1])
    ensures AddsUp(m, after, laws, i0, steps)
  {
    forall x { ArrivesPrefix(laws, i0, steps, x); }
    hide LawsOf;
    hide Arrives;
  }

  /** After any outcomes of the batches, whatever the process started from. */
  lemma {:induction false} ProcessAddsUp(m: Machine, laws: seq<string>, i0: nat, steps: seq<Step>)
    requires StandsAt(m, laws, i0, 0) && AllTaken(laws, i0, steps)
    ensures AddsUp(m, Steps(m, laws, steps), laws, i0, steps)
  {
    if steps == [] {
      assert m.process.value.memory.errors + [] == m.process.value.memory.errors;
    } else {
      var n := |steps| - 1;
      TakenPrefix(laws, i0, steps);
      ProcessAddsUp(m, laws, i0, steps[..n]);
      MemoryIsLastCreated(m, laws, i0, steps[..n]);
      OneMore(Steps(m, laws, steps[..n]), laws, i0, n, steps[n]);
      assert Steps(m, laws, steps) == Next(Steps(m, laws, steps[..n]), laws, steps[n]);
      hide *;
      AddsUpMore(m, Steps(m, laws, steps[..n]), Steps(m, laws, steps), laws, i0, steps);
    }
  }
}
