/** A flow: a node registry, a connection graph and an entry node, together
    with the interpreter that walks it one consultation at a time. */
module Flows {
  import opened Wrappers
  import opened Nodes
  import opened ConnectionGraph
  import opened ExecutionContext
  import opened Trace

  /** Why a run failed. Every error names the flow it came from, as each of
      Execute's error messages does. */
  datatype FlowError =
    | NoEntryPoint(flow: string)
    | NodeNotFound(flow: string, node: string)
    | ConsultationFailed(flow: string, node: string, cause: string)
    | UnknownRoute(flow: string, node: string, route: string)
    | StepLimitReached(flow: string)

  /** What one run reads and never changes: the registry, the connections,
      the nodes' behaviour and the identity of the run's context. */
  datatype Env<!B, !A> = Env(
    flow: string,
    nodes: map<string, Node<B>>,
    connections: map<string, seq<Connection>>,
    consult: Oracle<B, A>,
    flowId: string,
    traceId: string)

  /** How a walk ended: with the recorded steps, with an error (the partial
      trace is dropped), or by running out of fuel. */
  datatype Run<A> = Finished(steps: seq<Step<A>>) | Aborted(error: FlowError) | Exhausted

  /** A walk's ending together with the context values it leaves behind. */
  datatype Walked<A> = Walked(run: Run<A>, values: map<string, A>)

  /** `w` with `steps` recorded before it, as the trace accumulates them. */
  function Prepend<A>(steps: seq<Step<A>>, w: Walked<A>): Walked<A>
  {
    if w.run.Finished? then Walked(Finished(steps + w.run.steps), w.values) else w
  }

  /** The interpreter loop from node `current`, allowed `fuel` consultations:
      look the node up, consult it, stop on an empty route, otherwise require
      the route to be an outgoing connection and move there. */
  function Walk<B, A>(env: Env<B, A>, values: map<string, A>, current: string, fuel: nat): (w: Walked<A>)
    ensures w.run.Aborted? ==> w.run.error.NodeNotFound? || w.run.error.ConsultationFailed? || w.run.error.UnknownRoute?
    ensures w.run.Aborted? ==> w.run.error.flow == env.flow
    ensures w.run.Finished? && current != "" ==> w.run.steps != [] && w.run.steps[0].nodeId == current
    decreases fuel
  {
    if current == "" then Walked(Finished([]), values)
    else if fuel == 0 then Walked(Exhausted, values)
    else if current !in env.nodes then Walked(Aborted(NodeNotFound(env.flow, current)), values)
    else
      var c := env.consult(env.nodes[current], Snapshot(env.flowId, env.traceId, values));
      match c.answer
      case Failure(cause) => Walked(Aborted(ConsultationFailed(env.flow, current, cause)), c.values)
      case Success(v) =>
        if v.route == "" then Walked(Finished([Step(current, v)]), c.values)
        else if !HasTarget(EdgesOf(env.connections, current), v.route) then
          Walked(Aborted(UnknownRoute(env.flow, current, v.route)), c.values)
        else Prepend([Step(current, v)], Walk(env, c.values, v.route, fuel - 1))
  }

  /** A trace that starts at `start`, visits only registered nodes, moves only
      along outgoing connections named by non-empty routes, and ends on an
      empty route. */
  ghost predicate FollowsGraph<B, A>(env: Env<B, A>, start: string, steps: seq<Step<A>>)
  {
    && steps != []
    && steps[0].nodeId == start
    && (forall i :: 0 <= i < |steps| ==> steps[i].nodeId in env.nodes)
    && (forall i :: 0 <= i < |steps| - 1 ==>
          steps[i].verdict.route != "" && steps[i + 1].nodeId == steps[i].verdict.route)
    && (forall i :: 0 <= i < |steps| - 1 ==>
          HasTarget(EdgesOf(env.connections, steps[i].nodeId), steps[i].verdict.route))
    && steps[|steps| - 1].verdict.route == ""
  }

  /** Every successful walk from a non-empty node follows the graph. */
  lemma {:induction false} WalkFollowsGraph<B, A>(env: Env<B, A>, values: map<string, A>, current: string, fuel: nat)
    requires current != ""
    requires Walk(env, values, current, fuel).run.Finished?
    ensures FollowsGraph(env, current, Walk(env, values, current, fuel).run.steps)
    decreases fuel
  {
    var c := env.consult(env.nodes[current], Snapshot(env.flowId, env.traceId, values));
    var v := c.answer.value;
    if v.route != "" {
      WalkFollowsGraph(env, c.values, v.route, fuel - 1);
      var rest := Walk(env, c.values, v.route, fuel - 1).run.steps;
      var steps := [Step(current, v)] + rest;
      assert Walk(env, values, current, fuel).run.steps == steps;
      forall i | 0 <= i < |steps| - 1
        ensures steps[i].verdict.route != "" && steps[i + 1].nodeId == steps[i].verdict.route
        ensures HasTarget(EdgesOf(env.connections, steps[i].nodeId), steps[i].verdict.route)
      {
        if i > 0 {
          assert steps[i] == rest[i - 1] && steps[i + 1] == rest[i];
        }
      }
      forall i | 0 <= i < |steps|
        ensures steps[i].nodeId in env.nodes
      {
        if i > 0 {
          assert steps[i] == rest[i - 1];
        }
      }
    }
  }

  /** Fuel only bounds the walk: a walk that ends within `fuel` consultations
      ends the same way with any larger allowance. */
  lemma {:induction false} WalkFuelMonotone<B, A>(env: Env<B, A>, values: map<string, A>, current: string, fuel: nat, more: nat)
    requires fuel <= more
    requires !Walk(env, values, current, fuel).run.Exhausted?
    ensures Walk(env, values, current, more) == Walk(env, values, current, fuel)
    decreases fuel
  {
    if current != "" && current in env.nodes {
      var c := env.consult(env.nodes[current], Snapshot(env.flowId, env.traceId, values));
      if c.answer.Success? {
        var v := c.answer.value;
        if v.route != "" && HasTarget(EdgesOf(env.connections, current), v.route) {
          WalkFuelMonotone(env, c.values, v.route, fuel - 1, more - 1);
        }
      }
    }
  }

  /** Reordering a connection list does not change which destinations it reaches. */
  lemma HasTargetPermutation(a: seq<Connection>, b: seq<Connection>, to: string)
    requires multiset(a) == multiset(b)
    ensures HasTarget(a, to) <==> HasTarget(b, to)
  {
    if HasTarget(a, to) {
      var i :| 0 <= i < |a| && a[i].to == to;
      assert a[i] in multiset(b);
      var j :| 0 <= j < |b| && b[j] == a[i];
    }
    if HasTarget(b, to) {
      var j :| 0 <= j < |b| && b[j].to == to;
      assert b[j] in multiset(a);
      var i :| 0 <= i < |a| && a[i] == b[j];
    }
  }

  /** One iteration of Execute's loop that follows a route, stated on Walk. */
  lemma WalkAdvance<B, A>(env: Env<B, A>, values: map<string, A>, current: string, fuel: nat,
                          steps: seq<Step<A>>, v: Verdict<A>, after: map<string, A>)
    requires current != "" && fuel > 0 && current in env.nodes
    requires env.consult(env.nodes[current], Snapshot(env.flowId, env.traceId, values)) == Consultation(Success(v), after)
    requires v.route != "" && HasTarget(EdgesOf(env.connections, current), v.route)
    ensures Prepend(steps, Walk(env, values, current, fuel))
         == Prepend(steps + [Step(current, v)], Walk(env, after, v.route, fuel - 1))
  {
    var rest := Walk(env, after, v.route, fuel - 1);
    if rest.run.Finished? {
      assert steps + ([Step(current, v)] + rest.run.steps) == steps + [Step(current, v)] + rest.run.steps;
    }
  }

  /** How Execute reports a walk of flow `flow`: the steps of a finished walk
      in a completed trace, the walk's error, or running out of fuel. */
  ghost predicate Reports<A>(flow: string, r: Result<FlowOutput<A>, FlowError>, run: Run<A>)
    reads if r.Success? then {r.value} else {}
  {
    match run
    case Finished(steps) => r.Success? && r.value.steps == steps && r.value.done
    case Aborted(e) => r == Failure(e)
    case Exhausted => r == Failure(StepLimitReached(flow))
  }

  class Flow<B, A> {
    const id: string
    const graph: Graph
    var nodes: map<string, Node<B>>
    var entry: string

    ghost predicate Valid()
      reads this, graph
    {
      graph.Valid()
    }

    /** An empty flow: no nodes, no connections, no entry. */
    constructor (id: string)
      ensures Valid() && fresh(graph)
      ensures this.id == id && nodes == map[] && entry == "" && graph.connections == map[]
    {
      this.id := id;
      graph := new Graph();
      nodes := map[];
      entry := "";
    }

    /** Registers `node` under its id, replacing a node with the same id;
        the first node added becomes the entry. */
    method Add(node: Node<B>)
      modifies this`nodes, this`entry
      ensures nodes == old(nodes)[node.id := node]
      ensures entry == if old(entry) == "" then node.id else old(entry)
    {
      nodes := nodes[node.id := node];
      if entry == "" {
        entry := node.id;
      }
    }

    /** Sets the entry node unconditionally. */
    method Entry(nodeId: string)
      modifies this`entry
      ensures entry == nodeId
    {
      entry := nodeId;
    }

    /** Wires `from -> to` with weight 1.0. */
    method Connect(from: string, to: string)
      requires Valid()
      modifies graph
      ensures Valid()
      ensures HasTarget(old(graph.Edges(from)), to) ==> graph.connections == old(graph.connections)
      ensures !HasTarget(old(graph.Edges(from)), to) ==>
        graph.connections == old(graph.connections)[from := old(graph.Edges(from)) + [Connection(from, to, 1.0)]]
    {
      ConnectWeighted(from, to, 1.0);
    }

    /** Wires `from -> to` with `weight`; an existing pair is silently kept as it was. */
    method ConnectWeighted(from: string, to: string, weight: real)
      requires Valid()
      modifies graph
      ensures Valid()
      ensures HasTarget(old(graph.Edges(from)), to) ==> graph.connections == old(graph.connections)
      ensures !HasTarget(old(graph.Edges(from)), to) ==>
        graph.connections == old(graph.connections)[from := old(graph.Edges(from)) + [Connection(from, to, weight)]]
    {
      var _ := graph.Connect(from, to, weight);
    }

    /** The scan of Execute: whether some outgoing connection of `from`
        leads to `route`. */
    method HasRoute(from: string, route: string) returns (found: bool)
      ensures found == HasTarget(graph.Edges(from), route)
    {
      var outs := graph.Outgoing(from);
      found := false;
      var k := 0;
      while k < |outs|
        invariant 0 <= k <= |outs|
        invariant !found
        invariant forall m :: 0 <= m < k ==> outs[m].to != route
      {
        if outs[k].to == route {
          found := true;
          break;
        }
        k := k + 1;
      }
      HasTargetPermutation(outs, graph.Edges(from), route);
    }

    /** One iteration of Execute's loop at node `current`: look it up, consult
        it, record the step and check its route. It returns the next node (empty
        when the verdict stops the run) or the error that ends the run. */
    method Visit(ctx: Context<A>, consult: Oracle<B, A>, output: FlowOutput<A>, current: string, remaining: nat)
      returns (next: string, failure: Option<FlowError>)
      requires current != "" && remaining > 0
      modifies ctx`values, output`steps
      ensures
        var env := Env(id, nodes, graph.connections, consult, ctx.flowId, ctx.traceId);
        var w := Prepend(old(output.steps), Walk(env, old(ctx.values), current, remaining));
        if failure.Some? then w == Walked(Aborted(failure.value), ctx.values)
        else w == Prepend(output.steps, Walk(env, ctx.values, next, remaining - 1))
    {
      ghost var env := Env(id, nodes, graph.connections, consult, ctx.flowId, ctx.traceId);
      if current !in nodes {
        return "", Some(NodeNotFound(id, current));
      }
      var node := nodes[current];
      ghost var seen := ctx.values;
      var c := consult(node, Snapshot(ctx.flowId, ctx.traceId, ctx.values));
      ctx.values := c.values;
      if c.answer.Failure? {
        return "", Some(ConsultationFailed(id, current, c.answer.error));
      }
      var verdict := c.answer.value;
      ghost var before := output.steps;
      output.Record(current, verdict);
      if verdict.route == "" {
        assert output.steps + [] == output.steps;
        return "", None;
      }
      var found := HasRoute(current, verdict.route);
      if !found {
        return "", Some(UnknownRoute(id, current, verdict.route));
      }
      WalkAdvance(env, seen, current, remaining, before, verdict, c.values);
      return verdict.route, None;
    }

    /** Runs the flow from its entry node in `ctx`, consulting nodes through
        `consult`, for at most `fuel` consultations. */
    method Execute(ctx: Context<A>, consult: Oracle<B, A>, fuel: nat) returns (r: Result<FlowOutput<A>, FlowError>)
      modifies ctx`values
      ensures entry == "" ==> r == Failure(NoEntryPoint(id)) && ctx.values == old(ctx.values)
      ensures entry != "" ==>
        var w := Walk(Env(id, nodes, graph.connections, consult, ctx.flowId, ctx.traceId), old(ctx.values), entry, fuel);
        ctx.values == w.values && Reports(id, r, w.run)
      ensures r.Success? ==> fresh(r.value) && r.value.flowId == id && r.value.traceId == ctx.traceId
    {
      if entry == "" {
        return Failure(NoEntryPoint(id));
      }
      ghost var env := Env(id, nodes, graph.connections, consult, ctx.flowId, ctx.traceId);
      ghost var goal := Walk(env, ctx.values, entry, fuel);
      var output := new FlowOutput(id, ctx.traceId);
      var current := entry;
      var remaining := fuel;
      assert output.steps + [] == output.steps;
      while current != ""
        invariant fresh(output)
        invariant output.flowId == id && output.traceId == ctx.traceId && !output.done
        invariant Prepend(output.steps, Walk(env, ctx.values, current, remaining)) == goal
        decreases remaining
      {
        if remaining == 0 {
          return Failure(StepLimitReached(id));
        }
        var next, failure := Visit(ctx, consult, output, current, remaining);
        if failure.Some? {
          return Failure(failure.value);
        }
        current := next;
        remaining := remaining - 1;
      }
      assert goal == Walked(Finished(output.steps), ctx.values);
      output.Complete();
      r := Success(output);
    }
  }
}
