/** Runs built step by step, with the systems they go through. */
module Traces {
  import opened Network

  /** A run with the systems it goes through. */
  datatype Trace = Trace(start: System, steps: seq<Step>, systems: seq<System>)

  /** Names the step to look at. */
  predicate Link(i: int) {
    true
  }

  ghost predicate At(t: Trace, s: System) {
    && |t.systems| == |t.steps| + 1 && t.systems[0] == t.start && t.systems[|t.steps|] == s
    && forall i {:trigger Link(i)} :: Link(i) && 0 <= i < |t.steps| ==>
         Timely(t.systems[i], t.steps[i]) && t.systems[i + 1] == Next(t.systems[i], t.steps[i])
  }

  /** `t'` is `t` and one step more. */
  ghost predicate Adds(t: Trace, t': Trace, step: Step) {
    t'.start == t.start && t'.steps == t.steps + [step]
  }

  lemma Goes(t: Trace, s: System, step: Step) returns (t': Trace, s': System)
    requires At(t, s) && Timely(s, step)
    ensures At(t', s') && Adds(t, t', step) && s' == Next(s, step)
  {
    s' := Next(s, step);
    t' := Trace(t.start, t.steps + [step], t.systems + [s']);
    forall i | Link(i) && 0 <= i < |t'.steps|
      ensures Timely(t'.systems[i], t'.steps[i]) && t'.systems[i + 1] == Next(t'.systems[i], t'.steps[i])
    {
      if i < |t.steps| {
        assert Link(i);
      }
    }
  }

  lemma {:induction false} IsRun(t: Trace, s: System)
    requires At(t, s)
    ensures TimelyRun(t.start, t.steps) && Run(t.start, t.steps) == s
    decreases |t.steps|
  {
    if t.steps != [] {
      var n := |t.steps| - 1;
      assert Link(n);
      var t0 := Trace(t.start, t.steps[..n], t.systems[..n + 1]);
      IsRun(t0, t.systems[n]);
    }
  }
}
