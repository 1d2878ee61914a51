/** A knowledge unit: a domain-scoped bag of facts with a trust weight. */
module KnowledgeUnit {
  import opened Wrappers
  import opened Weights

  /** The id, domain and facts are fixed at creation (no operation here
      writes them); the weight and the refined flag change through Refine. */
  class Unit<A> {
    const id: string
    const domain: string
    const facts: map<string, A>
    var weight: real
    var refined: bool

    /** A new unit: fully trusted (weight 1.0) and not yet refined. */
    constructor (id: string, domain: string, facts: map<string, A>)
      ensures this.id == id && this.domain == domain && this.facts == facts
      ensures weight == 1.0 && !refined
    {
      this.id := id;
      this.domain := domain;
      this.facts := facts;
      weight := 1.0;
      refined := false;
    }

    /** The fact stored under `key`, or None (Go's nil) when there is none. */
    function Fact(key: string): (r: Option<A>)
      ensures r.Some? <==> key in facts
      ensures r.Some? ==> r.value == facts[key]
    {
      if key in facts then Some(facts[key]) else None
    }

    /** Sets the weight to `newWeight` clamped to [0, 1] and marks the unit refined. */
    method Refine(newWeight: real)
      modifies this`weight, this`refined
      ensures weight == Clamp(newWeight, 0.0, 1.0)
      ensures 0.0 <= weight <= 1.0
      ensures 0.0 <= newWeight <= 1.0 ==> weight == newWeight
      ensures newWeight < 0.0 ==> weight == 0.0
      ensures newWeight > 1.0 ==> weight == 1.0
      ensures refined
    {
      weight := Clamp(newWeight, 0.0, 1.0);
      refined := true;
    }
  }
}
