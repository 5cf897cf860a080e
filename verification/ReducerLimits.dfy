/**
 What holds between two states of one run (lifecycle/reducer.go): a retired identity never reduces again, and
 an incarnation still there at the end was there in between.
 */
module ReducerLimits {
  import opened Events
  import opened ReducerModel
  import opened ReducerInvariant
  import opened ReducerRuns

  /** Once a stream identity is retired, no delivery naming it is accepted anywhere later in the run. */
  lemma SupersededForGood(c: Core, inputs: seq<Input>, m: nat, k: nat, streamId: string)
    requires Sound(c) && m <= k < |inputs| && Run(c, inputs).failed.None?
    requires Run(c, inputs[..m]).started && streamId in Run(c, inputs[..m]).retired
    ensures inputs[k].Deliver? ==> inputs[k].d.streamId != streamId
  {
    RunBetween(c, inputs, m, k);
    RunStep(c, inputs, k);
    if inputs[k].Deliver? && inputs[k].d.streamId == streamId {
      SupersededRefused(Run(c, inputs[..k]), inputs[k].d);
    }
  }

  lemma NotNextKeepsState(c: Core, d: Delivery)
    requires Coherent(c) && d.streamId == c.state.streamId && !NextInStream(c, d) && Reduce(c, d).failed.None?
    ensures Reduce(c, d).state.activities == c.state.activities
  {
  }

  lemma RunOne(c: Core, inputs: seq<Input>, k: nat)
    requires k < |inputs|
    ensures Run(c, inputs[..k + 1]) == Step(Run(c, inputs[..k]), inputs[k])
  {
    assert inputs[..k + 1][..k] == inputs[..k];
  }

  /** In between, the incarnation was the one that is still there at the end. */
  lemma Midway(c: Core, inputs: seq<Input>, m: nat, k: nat)
    requires Sound(c) && m <= k <= |inputs| && Run(c, inputs[..m]).started && Run(c, inputs).failed.None?
    requires Run(c, inputs).state.streamId == Run(c, inputs[..m]).state.streamId
    ensures Coherent(Run(c, inputs[..k])) && Run(c, inputs[..k]).state.streamId == Run(c, inputs).state.streamId
  {
    RunBetween(c, inputs, m, k);
    SameThroughout(Run(c, inputs[..m]), Run(c, inputs[..k]), Run(c, inputs));
  }

  lemma Neighbours(c: Core, inputs: seq<Input>, m: nat, k: nat, next: nat)
    requires Sound(c) && m <= k < next <= |inputs| && Run(c, inputs[..m]).started && Run(c, inputs).failed.None?
    requires Run(c, inputs).state.streamId == Run(c, inputs[..m]).state.streamId
    ensures Coherent(Run(c, inputs[..k])) && Coherent(Run(c, inputs[..next]))
    ensures Run(c, inputs[..next]).state.streamId == Run(c, inputs[..k]).state.streamId
  {
    Midway(c, inputs, m, k);
    Midway(c, inputs, m, next);
  }

  lemma SameThroughout(a: Core, mid: Core, b: Core)
    requires Coherent(b) && ContinuedOrRetired(a, mid) && ContinuedOrRetired(mid, b)
    requires b.state.streamId == a.state.streamId
    ensures mid.state.streamId == a.state.streamId
  {
  }
}
