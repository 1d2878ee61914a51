/** The execution trace of one flow run. */
module Trace {
  import opened Wrappers
  import opened Nodes

  /** One consultation: the node visited and its verdict. */
  datatype Step<A> = Step(nodeId: string, verdict: Verdict<A>)

  class FlowOutput<A> {
    var flowId: string
    var traceId: string
    var steps: seq<Step<A>>
    var done: bool

    constructor (flowId: string, traceId: string)
      ensures this.flowId == flowId && this.traceId == traceId
      ensures steps == [] && !done
    {
      this.flowId := flowId;
      this.traceId := traceId;
      steps := [];
      done := false;
    }

    /** Appends one step; earlier steps are never touched. */
    method Record(nodeId: string, verdict: Verdict<A>)
      modifies this`steps
      ensures steps == old(steps) + [Step(nodeId, verdict)]
      // The trace is append-only: what was recorded stays a prefix.
      ensures old(steps) <= steps
    {
      steps := steps + [Step(nodeId, verdict)];
    }

    /** Marks the run finished; the recorded steps stay as they are. */
    method Complete()
      modifies this`done
      ensures done && steps == old(steps)
    {
      done := true;
    }

    /** The output of the last recorded step, or None (Go's nil) if there is none. */
    function LastOutput(): (r: Option<A>)
      reads this
      ensures r.None? <==> steps == []
      ensures r.Some? ==> r.value == steps[|steps| - 1].verdict.output
    {
      if |steps| == 0 then None else Some(steps[|steps| - 1].verdict.output)
    }
  }
}
