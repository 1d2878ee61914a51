/** The per-run key/value scratchpad handed to every consulted node. */
module ExecutionContext {
  import opened Wrappers

  class Context<A> {
    var flowId: string
    var traceId: string
    var values: map<string, A>

    constructor (flowId: string, traceId: string)
      ensures this.flowId == flowId && this.traceId == traceId
      ensures values == map[]
    {
      this.flowId := flowId;
      this.traceId := traceId;
      values := map[];
    }

    /** The value stored under `key`, or None (Go's nil) when there is none. */
    function Get(key: string): (r: Option<A>)
      reads this
      ensures r.Some? <==> key in values
      ensures r.Some? ==> r.value == values[key]
    {
      if key in values then Some(values[key]) else None
    }

    /** Whether a value is stored under `key`; agrees with Get. */
    function Has(key: string): (b: bool)
      reads this
      ensures b <==> Get(key).Some?
    {
      key in values
    }

    /** Stores `value` under `key`, replacing any earlier value. */
    method Set(key: string, value: A)
      modifies this`values
      ensures values == old(values)[key := value]
      ensures Get(key) == Some(value) && Has(key)
      ensures forall k :: k != key ==> Get(k) == old(Get(k))
    {
      values := values[key := value];
    }

    /** Removes `key`; a no-op when it is absent. */
    method Delete(key: string)
      modifies this`values
      ensures values == old(values) - {key}
      ensures !Has(key) && Get(key) == None
      ensures key !in old(values) ==> values == old(values)
      ensures forall k :: k != key ==> Get(k) == old(Get(k))
    {
      values := values - {key};
    }
  }
}
