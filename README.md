# illygen core in Dafny

This project models the sequential core of illygen, a Go library that runs
"flows": small graphs of reasoning nodes.

A flow has four parts:
- a registry of nodes, keyed by node id;
- a weighted connection graph between the nodes;
- an entry node;
- an interpreter, `Execute`.

`Execute` starts at the entry node and consults one node at a time. Each node returns a verdict naming the next route. A run stops on an empty route. It fails on a missing node, on a node that reports an error, or on a route that is not an outgoing connection.

Around the interpreter the model covers:
- the per-run execution context, a key/value map;
- the execution trace;
- the knowledge store and its weighted units;
- the runtime's flow registry.

Modules follow the Go files:

| module | Go file | form |
|---|---|---|
| `ConnectionGraph` | internal/graph/graph.go | class `Graph` with a map-of-lists field; in-place array sort |
| `Trace` | core/output.go | class `FlowOutput` with an append-only `steps` field |
| `Flows` | core/flow.go | class `Flow`; `Execute` is a loop proved against the function `Walk` |
| `ExecutionContext` | core/context.go | class `Context` with a `values` map |
| `KnowledgeStore` | knowledge/store.go | class `Store`; `Domain` is a scan plus an in-place array sort |
| `KnowledgeUnit` | knowledge/unit.go | class `Unit` whose weight changes through `Refine` |
| `FlowRuntime` | runtime/runtime.go | class `Runtime` with a registry map |

Shared helper modules:
- `Wrappers`: `Option`, `Result` and `Outcome`. Go's `nil` and its `(T, error)` returns map onto these.
- `Weights`: `Clamp`, which graph.go and unit.go both define in the same way.
- `Nodes`: the verdict type and the node oracle.

Weights are Go `float64`. They are only compared, clamped and incremented once, so the model uses `real`. A `real` is never NaN or infinite, so every bound and ordering stated about weights holds in Go only for weights that are not NaN (see "## Left out").

## How the main pieces are specified

**Outgoing order.** `Graph.Outgoing` copies a node's edge list into an array and sorts it in place. The sort is the same strict-`>` swap loop as `sortConnections`. Its result is proved equal to `InsertionSorted`, a functional insertion sort. Lemmas then prove three things about `InsertionSorted`:
- it is sorted by weight, heaviest first;
- it is a permutation of its input;
- it is stable: for every weight `w`, the edges of weight `w` keep their insertion order (`WithWeight`).

**Execute.** A node's `Consult` is user code. It is modelled as an oracle: a function from the node and a snapshot of the context to an answer plus the context values the node leaves behind.

`Execute`'s loop carries an invariant stating that the steps recorded so far, followed by what `Walk` does from the current node, give the whole walk from the entry node. So `Execute`'s postcondition is that it reports exactly what `Walk` computes, and leaves the context as `Walk` leaves it.

The lemma `WalkFollowsGraph` proves that every finished walk does the following:
- starts at the entry node;
- visits only registered nodes;
- moves only along outgoing connections named by non-empty routes;
- ends on an empty route.

**Knowledge store.** `Store.Domain` returns exactly the units of a domain, each once, heaviest first.

**Invariants.** `Graph.Valid` says there is at most one connection per ordered pair. `Connect`, `AdjustWeight` and `Disconnect` preserve it. `Runtime.Register` only ever adds entries to the registry.

**Unclamped connect.** The `Weight` field of a connection is commented `0.0 to 1.0` (internal/graph/graph.go:14), but `Connect` (internal/graph/graph.go:41-45) stores the weight as given, without clamping. The model does the same: `Graph.Connect` stores `weight` unchanged, and only `AdjustWeight` clamps.

## Model

| member | source | states |
|---|---|---|
| Weights.Clamp | internal/graph/graph.go:97-105 | the result lies in [lo, hi]; it is `v` inside the range, `lo` below it and `hi` above it (knowledge/unit.go:61-69 is the same function) |
| ConnectionGraph.FirstTarget | internal/graph/graph.go:36-40 | the index of the first connection to `to`, with none earlier; it equals the list length exactly when there is no such connection |
| ConnectionGraph.FindTarget | internal/graph/graph.go:66-71 | the imperative scan used by Connect, AdjustWeight and Disconnect returns that first matching index |
| ConnectionGraph.DisconnectUndoesConnect | internal/graph/graph.go:80-86 | after a connection to a new destination is appended, it is the first match for that destination, and removing it restores the original list |
| ConnectionGraph.RemoveAt | internal/graph/graph.go:83 | removing one connection from a list with unique destinations leaves unique destinations, drops that destination entirely, and keeps every remaining connection's source |
| ConnectionGraph.InsertByWeightPermutes | internal/graph/graph.go:91-93 | sifting one connection into a list adds exactly that connection, as a multiset |
| ConnectionGraph.InsertByWeightSorted | internal/graph/graph.go:91-93 | sifting a connection into a list sorted heaviest first keeps it sorted |
| ConnectionGraph.InsertByWeightAbove | internal/graph/graph.go:91-93 | a weight that bounds the inserted connection and every listed one from below still bounds the list after insertion |
| ConnectionGraph.InsertByWeightStable | internal/graph/graph.go:91-93 | sifting moves a connection only past strictly lighter ones, so same-weight connections keep their order and the new one comes last among its weight |
| ConnectionGraph.InsertByWeightAt | internal/graph/graph.go:91-93 | the inner loop stops right after the last element that is not strictly lighter |
| ConnectionGraph.Swap | internal/graph/graph.go:92 | exchanges two neighbouring connections and leaves every other slot unchanged |
| ConnectionGraph.InsertionSortedOrdered | internal/graph/graph.go:89-95 | the insertion sort yields weights in non-increasing order |
| ConnectionGraph.InsertionSortedPermutes | internal/graph/graph.go:89-95 | the insertion sort is a permutation of its input |
| ConnectionGraph.InsertionSortedStable | internal/graph/graph.go:89-95 | for every weight, the connections of that weight keep their relative input order |
| ConnectionGraph.SiftLeft | internal/graph/graph.go:91-93 | the in-place swap loop turns `a[..i+1]` into the insertion of the old `a[i]` into the old `a[..i]`, and leaves the rest of the array unchanged |
| ConnectionGraph.SortConnections | internal/graph/graph.go:89-95 | sorting the array in place yields `InsertionSorted` of its old contents |
| ConnectionGraph.Graph.constructor | internal/graph/graph.go:25-29 | a new graph has no connections and satisfies the one-edge-per-pair invariant |
| ConnectionGraph.Graph.Connect | internal/graph/graph.go:32-47 | a duplicate pair fails with DuplicateConnection and changes nothing; otherwise exactly one connection is appended to `from`'s list with the weight as given, and other lists are unchanged; the invariant is preserved |
| ConnectionGraph.Graph.Outgoing | internal/graph/graph.go:50-58 | the result is a permutation of the stored list, sorted heaviest first, with ties in insertion order; the stored list is not modified |
| ConnectionGraph.Graph.AdjustWeight | internal/graph/graph.go:62-73 | a missing pair fails with ConnectionNotFound and changes nothing; otherwise only the connection to `to` gets weight `clamp(weight + delta, 0, 1)`, which lies in [0, 1]; the invariant is preserved |
| ConnectionGraph.Graph.Disconnect | internal/graph/graph.go:76-87 | the first connection to `to` is removed and the others keep their order; with no match it is a no-op; afterwards no connection `from -> to` remains |
| Trace.FlowOutput.constructor | core/output.go:22-28 | a new trace has the given flow and trace ids, no steps and is not done |
| Trace.FlowOutput.Record | core/output.go:30-32 | exactly one step is appended and earlier steps are untouched |
| Trace.FlowOutput.Complete | core/output.go:34-37 | the trace is marked done and its steps are unchanged |
| Trace.FlowOutput.LastOutput | core/output.go:41-46 | None exactly when no step was recorded; otherwise the output of the final step |
| ExecutionContext.Context.constructor | core/context.go:20-26 | a new context has the given ids and no values |
| ExecutionContext.Context.Get | core/context.go:37-41 | the stored value when the key is present, None (nil) otherwise |
| ExecutionContext.Context.Has | core/context.go:44-49 | true exactly when Get finds a value |
| ExecutionContext.Context.Set | core/context.go:29-33 | afterwards Get returns the value and Has holds; every other key and both ids are unchanged |
| ExecutionContext.Context.Delete | core/context.go:52-56 | afterwards Has is false; an absent key is a no-op; every other key and both ids are unchanged |
| Flows.Walk | core/flow.go:76-109 | a run aborts only with NodeNotFound, ConsultationFailed or UnknownRoute, each naming the walked flow, and a finished run from a non-empty node starts with a step at that node |
| Flows.WalkFollowsGraph | core/flow.go:74-108 | a finished run starts at the entry node, visits only registered nodes, follows each non-empty route along an outgoing connection to the next step's node, and ends on an empty route |
| Flows.WalkFuelMonotone | core/flow.go:76-109 | the fuel bound only cuts runs short: a run that ends within some fuel ends the same way with any larger fuel |
| Flows.HasTargetPermutation | core/flow.go:96-102 | scanning the sorted copy from Outgoing finds a route exactly when the stored list has it |
| Flows.WalkAdvance | core/flow.go:87-108 | one loop iteration that records a step and follows its route is one unfolding of Walk |
| Flows.Flow.Visit | core/flow.go:77-108 | one loop iteration either ends the run with exactly the error Walk reports from that node, or records the step and continues at the next node, the recorded steps followed by the rest of the walk making up the walk from that node |
| Flows.Flow.constructor | core/flow.go:19-25 | a new flow has the given id, no nodes, an empty entry and an empty graph |
| Flows.Flow.Add | core/flow.go:34-40 | the node is registered under its id, replacing any earlier one; the entry is set only when it was empty, so the first node added becomes the entry |
| Flows.Flow.Entry | core/flow.go:44-47 | the entry is overwritten unconditionally |
| Flows.Flow.Connect | core/flow.go:50-52 | ConnectWeighted with weight 1.0 |
| Flows.Flow.ConnectWeighted | core/flow.go:55-61 | a duplicate pair leaves the graph unchanged without an error; otherwise the connection is appended |
| Flows.Flow.HasRoute | core/flow.go:96-102 | the `found` scan over Outgoing is true exactly when some stored connection of the node leads to the route |
| Flows.Flow.Execute | core/flow.go:68-113 | an empty entry fails with NoEntryPoint naming the flow before any node is consulted; otherwise the result is exactly Walk's outcome from the entry node: a completed trace holding Walk's steps on success, and Walk's error with no output otherwise; the context ends as Walk leaves it; the trace carries the flow id and the context's trace id |
| KnowledgeUnit.Unit.constructor | knowledge/unit.go:35-46 | a new unit has the given id, domain and facts, weight 1.0 and is not refined |
| KnowledgeUnit.Unit.Fact | knowledge/unit.go:49-51 | the fact under the key, or None (nil) when absent |
| KnowledgeUnit.Unit.Refine | knowledge/unit.go:55-59 | the weight becomes `newWeight` clamped to [0, 1]: exact inside the range, 0 below, 1 above; the unit is marked refined; id, domain and facts are unchanged |
| KnowledgeStore.DistinctOnce | knowledge/store.go:58-62 | a sequence without repeats holds each unit at most once |
| KnowledgeStore.DistinctByCount | knowledge/store.go:63 | sorting a sequence without repeats leaves it without repeats |
| KnowledgeStore.Swap | knowledge/store.go:85 | exchanges two neighbours and keeps the same units |
| KnowledgeStore.ShiftLeft | knowledge/store.go:84-86 | the swap loop moves the unit at `i` left to the point `j` where everything before is at least as heavy and everything it passed is strictly lighter, leaving the rest of the array unchanged |
| KnowledgeStore.SiftedSorted | knowledge/store.go:84-86 | placing a unit where the swap loop stops keeps a heaviest-first prefix heaviest first |
| KnowledgeStore.BagShift | knowledge/store.go:84-86 | moving the unit to its stopping point keeps the same units |
| KnowledgeStore.SiftLeft | knowledge/store.go:84-86 | the inner swap loop extends the sorted prefix by one element: the new prefix is the old `a[i]` inserted at some position of the old prefix, the rest of the array is unchanged, and the array keeps the same units |
| KnowledgeStore.SortByWeight | knowledge/store.go:82-88 | the array ends up heaviest first and holds the same units |
| KnowledgeStore.Store.constructor | knowledge/store.go:17-21 | a new store is empty |
| KnowledgeStore.Store.Add | knowledge/store.go:24-34 | an existing id fails with UnitExists and changes nothing; a new id is inserted and Size grows by one |
| KnowledgeStore.Store.Set | knowledge/store.go:37-41 | upsert: afterwards Get returns the unit, and every other id is unchanged |
| KnowledgeStore.Store.Get | knowledge/store.go:44-49 | the unit when the id is present, None otherwise |
| KnowledgeStore.Store.Collect | knowledge/store.go:58-62 | the scan collects exactly the units of the domain, each once |
| KnowledgeStore.Store.Domain | knowledge/store.go:53-65 | exactly the stored units of the domain, each once, with weights non-increasing |
| KnowledgeStore.Store.Remove | knowledge/store.go:68-72 | the id is gone; Size drops by one when it was present and is unchanged otherwise |
| KnowledgeStore.Store.Size | knowledge/store.go:75-79 | zero exactly when the store is empty |
| FlowRuntime.Runtime.constructor | runtime/runtime.go:21-25 | a new registry is empty |
| FlowRuntime.Runtime.Register | runtime/runtime.go:28-37 | a registered id fails with FlowAlreadyRegistered and changes nothing; a new id stores the flow under its own id; no existing entry is ever removed or replaced |
| FlowRuntime.Runtime.Get | runtime/runtime.go:126-134 | the flow registered under the id, whose own id is that id, or FlowNotFound when there is none |

## Left out

- `Run`, `RunAsync` and `RunMany` (runtime/runtime.go:39-118) are not modelled. They exist for goroutines, channels, `context.Context` cancellation and WaitGroup fan-out, so the model has no concurrency.
- Locks are not modelled. Every `sync.RWMutex`/`Mutex` is dropped, and each structure is single-threaded.
- Timestamps are not modelled: `StartedAt`, `EndedAt` and `Duration` in core/output.go, and `CreatedAt` and `UpdatedAt` in knowledge/unit.go. They depend on the wall clock.
- Float rounding is not modelled. Weights are exact reals, so the rounding in `c.Weight+delta` is absent.
- NaN and the infinities are not modelled: a weight is a `real`. In Go, `clamp` (internal/graph/graph.go:97-105, knowledge/unit.go:61-69) tests `v < min` and then `v > max`; both are false for NaN, so NaN comes back unclamped. Infinities are clamped as the model clamps out-of-range values.
- ConnectionGraph.Graph.AdjustWeight: the new weight lies in [0, 1] only when `weight + delta` is not NaN. In Go a NaN `delta`, or a NaN weight stored by `Connect`, leaves NaN in the connection.
- KnowledgeUnit.Unit.Refine: the weight lies in [0, 1] only when `newWeight` is not NaN. In Go, `Refine(NaN)` stores NaN.
- ConnectionGraph.Graph.Outgoing: the list is heaviest first only when no weight is NaN. A NaN makes every `>` test against it false, so in Go the sort leaves it where it is; for example, weights [0.1, NaN, 0.9] come back in that order.
- KnowledgeStore.Store.Domain: the units are heaviest first only when no weight is NaN, for the same reason (knowledge/store.go:82-88).
- Concrete nodes are not modelled: `BaseNode` and `Node` implementations (core/node.go) are user code. A node's `Consult` is a deterministic oracle. It may change the context's values. It may not change the context's `FlowID`/`TraceID` or any flow, graph or store.
- Flows.Flow.Execute: takes a `fuel` bound and fails with `StepLimitReached` when the bound runs out. The Go loop has no such bound and does not terminate on a cycle of routes. `WalkFuelMonotone` shows the bound only cuts runs short.
- Flows.Flow.Execute: states the graph-following property of its trace through `Walk` and the `WalkFollowsGraph` lemma, not in its own postcondition.
- Aliasing of connections is not modelled. Go stores `*Connection`, so the slice returned by `Outgoing` shares connections with the graph, and a later `AdjustWeight` shows through it. The model stores connections as values, and `Outgoing` returns a snapshot.
- In-place splicing by `Disconnect` is not modelled. In Go, `append(conns[:i], conns[i+1:]...)` reuses the backing array. The model replaces the list.
- KnowledgeStore.SortByWeight: states sortedness and the multiset of units, not stability. Its input comes from Go map iteration, whose order is unspecified, so the tie order of `Domain` is unspecified too.
- Writes to a unit's exported `ID`, `Domain` and `Facts` fields are not modelled. No core operation writes them, so they are constants.
- A `nil` stored as a context value or fact is not modelled as absent. `Get` and `Fact` distinguish "absent" (None) from every stored value.
- Trace.FlowOutput.LastOutput: returns None only when no step was recorded. Go's `LastOutput` also returns nil when the final verdict's `Output` is nil (the zero `Verdict{}` has a nil `Output`). The model returns `Some` of that value instead, so it tells apart two cases a Go caller sees as the same nil.
- Builder chaining is not modelled. `Add`, `Entry`, `Connect` and `ConnectWeighted` return their receiver only for chaining, so the model's methods return nothing.
- The `Flow.ID` and `Flow.Graph` accessors are not modelled separately. They are the `id` and `graph` fields.
- Error messages are not modelled. Errors are datatype values carrying the ids that appear in the Go messages, without the message text. Every `FlowError` carries the flow's id, as every error message of `Execute` does (core/flow.go:70, 79, 84, 104-105).
- illygen.go is not part of this model. It holds only the package comment.
