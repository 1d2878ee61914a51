/** The node contract: a node is identified by its id and consulted with the
    execution context; what it does is user code and is left abstract. */
module Nodes {
  import opened Wrappers

  /** A registered node: its id and an opaque description of its behaviour. */
  datatype Node<B> = Node(id: string, logic: B)

  /** The outcome of consulting a node: the next route (empty to stop), an
      opaque output passed through untouched, and an informational weight. */
  datatype Verdict<A> = Verdict(route: string, output: A, weight: real)

  /** What a consulted node can see of the execution context. */
  datatype Snapshot<A> = Snapshot(flowId: string, traceId: string, values: map<string, A>)

  /** A node's answer together with the context values it left behind
      (a node may set or delete context values while it runs). */
  datatype Consultation<A> = Consultation(answer: Result<Verdict<A>, string>, values: map<string, A>)

  /** `Consult` of every node: a deterministic function of the node and the context. */
  type Oracle<!B, !A> = (Node<B>, Snapshot<A>) -> Consultation<A>
}
