/** The states of a run and the labels of the steps between them. */
module Traces {
  datatype Trace<S, L> = Trace(states: seq<S>, labels: seq<L>)

  function Last<S, L>(run: Trace<S, L>): S
    requires |run.states| > 0
  {
    run.states[|run.states| - 1]
  }

  /** The run without its last step. */
  function Front<S, L>(run: Trace<S, L>): Trace<S, L>
    requires |run.labels| > 0 && |run.states| == |run.labels| + 1
  {
    Trace(run.states[..|run.labels|], run.labels[..|run.labels| - 1])
  }
}
