/** The in-memory knowledge store: units keyed by id, queried by domain. */
module KnowledgeStore {
  import opened Wrappers
  import opened KnowledgeUnit

  datatype StoreError = UnitExists(id: string)

  /** Weights never increase along `units`. */
  ghost predicate HeaviestFirst<A>(units: seq<Unit<A>>)
    reads units
  {
    forall i, j :: 0 <= i < j < |units| ==> units[i].weight >= units[j].weight
  }

  /** The units of `s` counted with multiplicity. Written as a function because
      Dafny 4.11 does not resolve `multiset(a[..])` directly on an array of the
      generic class `Unit<A>`. */
  ghost function Bag<A>(s: seq<Unit<A>>): multiset<Unit<A>>
  {
    multiset(s)
  }

  /** No unit occurs twice in `s`. */
  predicate Distinct<A>(s: seq<Unit<A>>)
  {
    forall i, j :: 0 <= i < j < |s| ==> s[i] != s[j]
  }

  /** A sequence without repeats holds each unit at most once. */
  lemma {:induction false} DistinctOnce<A>(s: seq<Unit<A>>, u: Unit<A>)
    requires Distinct(s)
    ensures Bag(s)[u] <= 1
  {
    if s != [] {
      var front := s[..|s| - 1];
      DistinctOnce(front, u);
      assert s == front + [s[|s| - 1]];
      if u == s[|s| - 1] {
        assert u !in front;
      }
    }
  }

  /** Reordering a sequence without repeats leaves it without repeats. */
  lemma DistinctByCount<A>(s: seq<Unit<A>>, t: seq<Unit<A>>)
    requires Distinct(s) && Bag(s) == Bag(t)
    ensures Distinct(t)
  {
    forall i, j | 0 <= i < j < |t| ensures t[i] != t[j] {
      if t[i] == t[j] {
        assert t == t[..i] + [t[i]] + t[i + 1..j] + [t[j]] + t[j + 1..];
        assert Bag(t)[t[i]] >= 2;
        DistinctOnce(s, t[i]);
      }
    }
  }

  /** Exchanges `a[j - 1]` and `a[j]`. */
  method Swap<A>(a: array<Unit<A>>, j: nat)
    requires 0 < j < a.Length
    modifies a
    ensures a[j - 1] == old(a[j]) && a[j] == old(a[j - 1])
    ensures forall k :: 0 <= k < a.Length && k != j - 1 && k != j ==> a[k] == old(a[k])
    ensures Bag(a[..]) == old(Bag(a[..]))
  {
    a[j], a[j - 1] := a[j - 1], a[j];
  }

  /** Putting `x` after the units of `sorted[..j]` that are at least as heavy,
      and before the strictly lighter rest, keeps the sequence heaviest first. */
  lemma SiftedSorted<A>(sorted: seq<Unit<A>>, x: Unit<A>, j: nat)
    requires j <= |sorted| && HeaviestFirst(sorted)
    requires j == 0 || sorted[j - 1].weight >= x.weight
    requires forall k :: j <= k < |sorted| ==> sorted[k].weight < x.weight
    ensures HeaviestFirst(sorted[..j] + [x] + sorted[j..])
  {
    var out := sorted[..j] + [x] + sorted[j..];
    forall k, l | 0 <= k < l < |out|
      ensures out[k].weight >= out[l].weight
    {
      if l == j {
        assert out[k] == sorted[k];
        assert sorted[k].weight >= sorted[j - 1].weight;
      } else if k == j {
        assert out[l] == sorted[l - 1];
      } else {
        assert out[k] == if k < j then sorted[k] else sorted[k - 1];
        assert out[l] == if l < j then sorted[l] else sorted[l - 1];
      }
    }
  }

  /** Moving `x` from behind `sorted` to position `j` keeps the same units. */
  lemma BagShift<A>(sorted: seq<Unit<A>>, x: Unit<A>, rest: seq<Unit<A>>, j: nat)
    requires j <= |sorted|
    ensures Bag(sorted[..j] + [x] + sorted[j..] + rest) == Bag(sorted + [x] + rest)
  {
    assert sorted == sorted[..j] + sorted[j..];
  }

  /** The inner swap loop: moves `a[i]` left past every strictly lighter
      neighbour and returns where it stops. */
  method ShiftLeft<A>(a: array<Unit<A>>, i: nat) returns (j: nat)
    requires i < a.Length
    modifies a
    ensures j <= i
    ensures a[..i + 1] == old(a[..i])[..j] + [old(a[i])] + old(a[..i])[j..]
    ensures a[i + 1..] == old(a[i + 1..])
    ensures j == 0 || old(a[j - 1]).weight >= old(a[i]).weight
    ensures forall k :: j <= k < i ==> old(a[k]).weight < old(a[i]).weight
  {
    ghost var sorted, rest := a[..i], a[i + 1..];
    var x := a[i];
    j := i;
    while j > 0 && a[j].weight > a[j - 1].weight
      invariant 0 <= j <= i
      invariant a[j] == x
      invariant forall k :: 0 <= k < j ==> a[k] == sorted[k]
      invariant forall k :: j < k <= i ==> a[k] == sorted[k - 1]
      invariant forall k :: j <= k < i ==> sorted[k].weight < x.weight
      invariant a[i + 1..] == rest
    {
      Swap(a, j);
      j := j - 1;
    }
    forall k | 0 <= k <= i
      ensures a[..i + 1][k] == (sorted[..j] + [x] + sorted[j..])[k]
    {
      if k > j {
        assert a[k] == sorted[k - 1];
      }
    }
  }

  /** The inner swap loop: moves `a[i]` left past every strictly lighter
      neighbour, so that a sorted prefix `a[..i]` grows to `a[..i + 1]`. */
  method SiftLeft<A>(a: array<Unit<A>>, i: nat)
    requires i < a.Length && HeaviestFirst(a[..i])
    modifies a
    ensures Bag(a[..]) == old(Bag(a[..]))
    ensures HeaviestFirst(a[..i + 1])
    ensures exists j :: 0 <= j <= i && a[..i + 1] == old(a[..i])[..j] + [old(a[i])] + old(a[..i])[j..]
    ensures a[i + 1..] == old(a[i + 1..])
  {
    ghost var whole, sorted, rest := a[..], a[..i], a[i + 1..];
    ghost var x := a[i];
    assert whole == sorted + [x] + rest;
    var j := ShiftLeft(a, i);
    SiftedSorted(sorted, x, j);
    assert a[..] == a[..i + 1] + a[i + 1..];
    BagShift(sorted, x, rest, j);
  }

  /** Sorts `a` by weight, heaviest first, with the same swap loop as the graph. */
  method SortByWeight<A>(a: array<Unit<A>>)
    modifies a
    ensures Bag(a[..]) == old(Bag(a[..]))
    ensures HeaviestFirst(a[..])
  {
    if a.Length == 0 {
      return;
    }
    var i := 1;
    while i < a.Length
      invariant 1 <= i <= a.Length
      invariant Bag(a[..]) == old(Bag(a[..]))
      invariant HeaviestFirst(a[..i])
    {
      SiftLeft(a, i);
      i := i + 1;
    }
    assert a[..] == a[..i];
  }

  class Store<A> {
    var units: map<string, Unit<A>>

    /** Every unit is filed under its own id. */
    ghost predicate Valid()
      reads this
    {
      forall id :: id in units ==> units[id].id == id
    }

    constructor ()
      ensures Valid() && units == map[]
    {
      units := map[];
    }

    /** Inserts `unit` unless its id is already taken. */
    method Add(unit: Unit<A>) returns (err: Outcome<StoreError>)
      requires Valid()
      modifies this`units
      ensures Valid()
      ensures unit.id in old(units) ==> err == Fail(UnitExists(unit.id)) && units == old(units)
      ensures unit.id !in old(units) ==>
        err == Pass && units == old(units)[unit.id := unit] && Size() == old(Size()) + 1
    {
      if unit.id in units {
        return Fail(UnitExists(unit.id));
      }
      units := units[unit.id := unit];
      err := Pass;
    }

    /** Inserts `unit`, replacing any unit with the same id. */
    method Set(unit: Unit<A>)
      requires Valid()
      modifies this`units
      ensures Valid()
      ensures units == old(units)[unit.id := unit]
      ensures Get(unit.id) == Some(unit)
      ensures forall id :: id != unit.id ==> Get(id) == old(Get(id))
    {
      units := units[unit.id := unit];
    }

    /** The unit filed under `id`, if any. */
    function Get(id: string): (r: Option<Unit<A>>)
      reads this
      ensures r.Some? <==> id in units
      ensures r.Some? ==> r.value == units[id]
    {
      if id in units then Some(units[id]) else None
    }

    /** The scan of Domain: the units of `domain`, in map iteration order. */
    method Collect(domain: string) returns (result: seq<Unit<A>>)
      requires Valid()
      ensures forall u :: u in result <==> u in units.Values && u.domain == domain
      ensures Distinct(result)
    {
      result := [];
      var pending := units.Keys;
      while pending != {}
        invariant pending <= units.Keys
        invariant forall u :: u in result <==>
          u.id in units && u.id !in pending && units[u.id] == u && u.domain == domain
        invariant forall i :: 0 <= i < |result| ==> result[i].id !in pending
        invariant forall i, j :: 0 <= i < j < |result| ==> result[i].id != result[j].id
        decreases pending
      {
        var id :| id in pending;
        if units[id].domain == domain {
          result := result + [units[id]];
        }
        pending := pending - {id};
      }
    }

    /** Exactly the units of `domain`, each once, heaviest first. */
    method Domain(domain: string) returns (r: seq<Unit<A>>)
      requires Valid()
      ensures forall u :: u in r <==> u in units.Values && u.domain == domain
      ensures Distinct(r)
      ensures HeaviestFirst(r)
    {
      var result := Collect(domain);
      var a := new Unit<A>[|result|](k requires 0 <= k < |result| => result[k]);
      assert a[..] == result;
      SortByWeight(a);
      r := a[..];
      forall u ensures u in r <==> u in result {
        assert u in r <==> u in Bag(r);
      }
      DistinctByCount(result, r);
    }

    /** Deletes the unit filed under `id`; a no-op when there is none. */
    method Remove(id: string)
      requires Valid()
      modifies this`units
      ensures Valid()
      ensures units == old(units) - {id}
      ensures id in old(units) ==> Size() == old(Size()) - 1
      ensures id !in old(units) ==> Size() == old(Size())
    {
      units := units - {id};
      assert id in old(units) ==> old(units).Keys == units.Keys + {id};
    }

    /** The number of stored units. */
    function Size(): (n: nat)
      reads this
      ensures n == 0 <==> units == map[]
    {
      |units|
    }
  }
}
