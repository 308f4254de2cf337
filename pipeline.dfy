/**
 * The deployment-pipeline illustration (components/sections/DeploymentPipelineSection.tsx).
 *
 * Four steps are lit in turn by an asynchronous loop, `runSequence`, which
 * sets `activeStep` and then waits a fixed time, over and over, until the
 * effect's teardown clears the local `mounted` flag. Time is a millisecond
 * clock that only the waits advance.
 */
module Pipeline {

  /**
   * One entry of the `steps` table: its `id` and its `label` (named `caption`
   * here, since `label` is a Dafny keyword). Icon, description and colour are
   * presentation.
   */
  datatype Step = Step(id: string, caption: string)

  const Steps: seq<Step> := [
    Step("local", "Local Dev"),
    Step("git", "Git Push"),
    Step("build", "Build & Test"),
    Step("deploy", "Global Edge")
  ]

  /** `steps.length`. */
  const StepCount := 4

  /** How long `runSequence` waits after lighting each step, in ms. */
  const DwellMs: seq<nat> := [1500, 1500, 1500, 3000]

  /** The step lit after step `s`: the loop body lights 0, 1, 2, 3 and then starts over. */
  function NextStep(s: int): (r: int)
    requires 0 <= s < StepCount
    ensures 0 <= r < StepCount
    ensures r == 0 <==> s == StepCount - 1
    ensures s < StepCount - 1 ==> r == s + 1
  {
    if s == StepCount - 1 then 0 else s + 1
  }

  /** One call of `setActiveStep`: the step lit and the clock reading at that moment. */
  datatype Update = Update(step: int, atMs: nat)

  /** Time taken by the first `n` waits of the loop; a single wait already takes 1.5 s. */
  function Elapsed(n: nat): (ms: nat)
    ensures n > 0 ==> ms >= 1500
  {
    if n == 0 then 0 else Elapsed(n - 1) + DwellMs[(n - 1) % StepCount]
  }

  /** Every wait lasts 1.5 to 3 s, so `n` waits take between `1500 * n` and `3000 * n` ms. */
  lemma {:induction false} ElapsedBounds(n: nat)
    ensures 1500 * n <= Elapsed(n) <= 3000 * n
  {
    if n > 0 {
      ElapsedBounds(n - 1);
    }
  }

  /**
   * The first `n` calls of `setActiveStep` made by `runSequence` started at
   * time 0: call `k` lights step `k % 4` after the first `k` waits.
   */
  function Schedule(n: nat): (us: seq<Update>)
    ensures |us| == n
  {
    if n == 0 then [] else Schedule(n - 1) + [Update((n - 1) % StepCount, Elapsed(n - 1))]
  }

  /** Update `k` of the schedule lights step `k % 4` once the first `k` waits are over. */
  lemma {:induction false} ScheduleAt(n: nat, k: nat)
    requires k < n
    ensures Schedule(n)[k] == Update(k % StepCount, Elapsed(k))
    ensures 0 <= Schedule(n)[k].step < StepCount
  {
    if k < n - 1 {
      ScheduleAt(n - 1, k);
    }
  }

  /** Step `j` of round `c` extends the schedule by one update and the clock by that step's dwell time. */
  lemma ScheduleGrows(c: nat, j: nat)
    requires j < StepCount
    ensures (StepCount * c + j) % StepCount == j
    ensures Schedule(StepCount * c + j + 1) == Schedule(StepCount * c + j) + [Update(j, Elapsed(StepCount * c + j))]
    ensures Elapsed(StepCount * c + j + 1) == Elapsed(StepCount * c + j) + DwellMs[j]
  {
  }

  /**
   * Steps are lit strictly in order 0, 1, 2, 3, 0, ...: each update lights the
   * successor of the step before it, after that step's dwell time.
   */
  lemma {:induction false} ScheduleAdvances(n: nat, k: nat)
    requires k + 1 < n
    ensures var us := Schedule(n);
      && 0 <= us[k].step < StepCount
      && us[k + 1].step == NextStep(us[k].step)
      && us[k + 1].atMs == us[k].atMs + DwellMs[us[k].step]
  {
    ScheduleAt(n, k);
    ScheduleAt(n, k + 1);
    assert Elapsed(k + 1) == Elapsed(k) + DwellMs[k % StepCount];
  }

  /** Four consecutive waits, one full trip round the steps, take 1500 + 1500 + 1500 + 3000 = 7500 ms. */
  lemma CycleTakes7500(n: nat)
    ensures Elapsed(n + StepCount) == Elapsed(n) + 7500
  {
    assert Elapsed(n + 1) == Elapsed(n) + DwellMs[n % StepCount];
    assert Elapsed(n + 2) == Elapsed(n + 1) + DwellMs[(n + 1) % StepCount];
    assert Elapsed(n + 3) == Elapsed(n + 2) + DwellMs[(n + 2) % StepCount];
    assert Elapsed(n + 4) == Elapsed(n + 3) + DwellMs[(n + 3) % StepCount];
  }

  /** After `c` full cycles the clock reads `7500 * c` ms. */
  lemma {:induction false} FullCycles(c: nat)
    ensures Elapsed(StepCount * c) == 7500 * c
  {
    if c > 0 {
      FullCycles(c - 1);
      CycleTakes7500(StepCount * (c - 1));
    }
  }

  /** `isActive`: the step is lit or already passed in this round. */
  predicate IsActive(idx: int, activeStep: int)
    ensures IsActive(idx, activeStep) <==> idx == activeStep || idx < activeStep
  {
    idx <= activeStep
  }

  /** `isCurrent`: the step is the one being lit, and the step being lit is active. */
  predicate IsCurrent(idx: int, activeStep: int)
    ensures IsCurrent(idx, activeStep) ==> IsActive(idx, activeStep)
  {
    idx == activeStep
  }

  /** The line drawn from a step to the next one; the last step has none. */
  datatype Connector = NoConnector | Line(filled: bool)

  /** Whether step `idx` draws a connector, and whether that connector is filled. */
  function ConnectorOf(idx: int, activeStep: int): (c: Connector)
    ensures c.Line? <==> idx < StepCount - 1
    ensures c.Line? ==> (c.filled <==> IsActive(idx, activeStep))
  {
    if idx < StepCount - 1 then Line(IsActive(idx, activeStep)) else NoConnector
  }

  /** What `steps.map` renders for one step. */
  datatype StepView = StepView(active: bool, current: bool, connector: Connector)

  /** The rendered pipeline for a value of `activeStep`. */
  function Render(activeStep: int): (vs: seq<StepView>)
    ensures |vs| == |Steps|
  {
    seq(|Steps|, idx => StepView(IsActive(idx, activeStep), IsCurrent(idx, activeStep), ConnectorOf(idx, activeStep)))
  }

  /** For every `activeStep` the loop can set, exactly one step is current, and it is active. */
  lemma ExactlyOneCurrent(activeStep: int)
    requires 0 <= activeStep < StepCount
    ensures Render(activeStep)[activeStep].current && Render(activeStep)[activeStep].active
    ensures forall idx :: 0 <= idx < StepCount && Render(activeStep)[idx].current ==> idx == activeStep
  {
  }

  /** The active steps form a prefix: steps `0..activeStep`. */
  lemma ActiveIsPrefix(activeStep: int, i: int, j: int)
    requires 0 <= i <= j < StepCount
    ensures Render(activeStep)[j].active ==> Render(activeStep)[i].active
    ensures Render(activeStep)[i].active <==> i <= activeStep
  {
  }

  /** The `DeploymentPipelineSection` component's state and its sequencing effect. */
  class PipelineSection {
    /** `activeStep`, the React state. */
    var activeStep: int
    /** The effect's local `mounted` flag. */
    var mounted: bool
    /** Milliseconds since the effect started. */
    var clock: nat
    /** Every `setActiveStep` call so far, in order. */
    var updates: seq<Update>
    /** How many updates had been made when the teardown ran. */
    ghost var updatesAtUnmount: nat

    ghost predicate Valid()
      reads this
    {
      0 <= activeStep < StepCount
    }

    /** Mount: `useState(0)`, and the effect sets `mounted = true`. */
    constructor ()
      ensures Valid()
      ensures activeStep == 0 && mounted && clock == 0 && updates == []
    {
      activeStep := 0;
      mounted := true;
      clock := 0;
      updates := [];
      updatesAtUnmount := 0;
    }

    /** `setActiveStep(step)`. */
    method SetActiveStep(step: int)
      requires 0 <= step < StepCount
      modifies this
      ensures Valid()
      ensures activeStep == step
      ensures updates == old(updates) + [Update(step, clock)]
      ensures mounted == old(mounted) && clock == old(clock) && updatesAtUnmount == old(updatesAtUnmount)
    {
      activeStep := step;
      updates := updates + [Update(step, clock)];
    }

    /** The effect's teardown, `() => { mounted = false; }`. */
    method Teardown()
      modifies this
      ensures !mounted
      ensures updatesAtUnmount == |updates|
      ensures activeStep == old(activeStep) && clock == old(clock) && updates == old(updates)
    {
      mounted := false;
      updatesAtUnmount := |updates|;
    }

    /**
     * `await new Promise(r => setTimeout(r, ms))`. The teardown may run while
     * the loop is suspended here; `teardownDuring` says whether it does.
     */
    method Wait(ms: nat, teardownDuring: bool)
      modifies this
      ensures clock == old(clock) + ms
      ensures mounted == (old(mounted) && !teardownDuring)
      ensures teardownDuring ==> updatesAtUnmount == |updates|
      ensures !teardownDuring ==> updatesAtUnmount == old(updatesAtUnmount)
      ensures activeStep == old(activeStep) && updates == old(updates)
    {
      clock := clock + ms;
      if teardownDuring {
        Teardown();
      }
    }

    /**
     * One stage of the loop body: `setActiveStep(step)`, then the wait of
     * `ms` after it, as stage `step` of round `c` of the schedule.
     */
    method LightAndWait(step: int, ms: nat, teardownDuring: bool, ghost c: nat)
      requires 0 <= step < StepCount && ms == DwellMs[step]
      requires updates == Schedule(StepCount * c + step) && clock == Elapsed(StepCount * c + step)
      modifies this
      ensures Valid() && activeStep == step == (StepCount * c + step) % StepCount
      ensures updates == Schedule(StepCount * c + step + 1) && clock == Elapsed(StepCount * c + step + 1)
      ensures mounted == (old(mounted) && !teardownDuring)
      ensures teardownDuring ==> updatesAtUnmount == |updates|
      ensures !teardownDuring ==> updatesAtUnmount == old(updatesAtUnmount)
    {
      SetActiveStep(step);
      Wait(ms, teardownDuring);
      ScheduleGrows(c, step);
    }

    /**
     * `runSequence`, for a mount whose teardown runs during wait number
     * `unmountDuring` (counting from 0). The loop lights exactly the
     * `unmountDuring + 1` steps whose waits began before the teardown, in
     * schedule order, and makes no update after the teardown.
     */
    method RunSequence(unmountDuring: nat)
      requires mounted && clock == 0 && updates == []
      modifies this
      ensures !mounted
      ensures updates == Schedule(unmountDuring + 1)
      ensures |updates| == updatesAtUnmount
      ensures clock == Elapsed(unmountDuring + 1)
      ensures activeStep == unmountDuring % StepCount
    {
      var w: nat := 0;  // waits begun so far; decides when the teardown runs
      ghost var c: nat := 0;  // rounds completed
      while mounted
        invariant mounted && w == StepCount * c && w <= unmountDuring
        invariant updates == Schedule(w) && clock == Elapsed(w)
        decreases unmountDuring - w
      {
        LightAndWait(0, 1500, w == unmountDuring, c);
        w := w + 1;
        if !mounted { break; }

        LightAndWait(1, 1500, w == unmountDuring, c);
        w := w + 1;
        if !mounted { break; }

        LightAndWait(2, 1500, w == unmountDuring, c);
        w := w + 1;
        if !mounted { break; }

        LightAndWait(3, 3000, w == unmountDuring, c);
        w := w + 1;
        c := c + 1;
        if !mounted { break; }
      }
      assert w == unmountDuring + 1;
    }
  }
}
