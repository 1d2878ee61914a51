/** The runtime's flow registry. */
module FlowRuntime {
  import opened Wrappers
  import opened Flows

  datatype RuntimeError = FlowAlreadyRegistered(id: string) | FlowNotFound(id: string)

  class Runtime<B, A> {
    var flows: map<string, Flow<B, A>>

    /** Every flow is registered under its own id. */
    ghost predicate Valid()
      reads this
    {
      forall id :: id in flows ==> flows[id].id == id
    }

    /** A runtime with no flows registered. */
    constructor ()
      ensures Valid() && flows == map[]
    {
      flows := map[];
    }

    /** Registers `flow` under its id unless the id is taken; nothing is ever
        removed or replaced. */
    method Register(flow: Flow<B, A>) returns (err: Outcome<RuntimeError>)
      requires Valid()
      modifies this
      ensures Valid()
      ensures flow.id in old(flows) ==> err == Fail(FlowAlreadyRegistered(flow.id)) && flows == old(flows)
      ensures flow.id !in old(flows) ==> err == Pass && flows == old(flows)[flow.id := flow]
      ensures forall id :: id in old(flows) ==> id in flows && flows[id] == old(flows)[id]
    {
      if flow.id in flows {
        return Fail(FlowAlreadyRegistered(flow.id));
      }
      flows := flows[flow.id := flow];
      err := Pass;
    }

    /** The flow registered under `flowId`, or FlowNotFound. */
    function Get(flowId: string): (r: Result<Flow<B, A>, RuntimeError>)
      reads this
      ensures r.Success? <==> flowId in flows
      ensures r.Success? ==> r.value == flows[flowId] && (Valid() ==> r.value.id == flowId)
      ensures r.Failure? ==> r.error == FlowNotFound(flowId)
    {
      if flowId in flows then Success(flows[flowId]) else Failure(FlowNotFound(flowId))
    }
  }
}
