/** The weighted connection graph underneath a flow: for every source node
    id, the insertion-ordered list of its outgoing connections. */
module ConnectionGraph {
  import opened Wrappers
  import opened Weights
  import opened SeqFacts

  /** A directed weighted edge `from -> to`. */
  datatype Connection = Connection(from: string, to: string, weight: real)

  datatype GraphError =
    | DuplicateConnection(from: string, to: string)
    | ConnectionNotFound(from: string, to: string)

  /** The list stored under `from`; an absent key reads as the empty list. */
  function EdgesOf(connections: map<string, seq<Connection>>, from: string): seq<Connection>
  {
    if from in connections then connections[from] else []
  }

  /** Some connection in `es` leads to `to`. */
  predicate HasTarget(es: seq<Connection>, to: string)
  {
    exists i :: 0 <= i < |es| && es[i].to == to
  }

  /** No two connections in `es` share a destination. */
  predicate UniqueTargets(es: seq<Connection>)
  {
    forall i, j :: 0 <= i < j < |es| ==> es[i].to != es[j].to
  }

  /** The position of the first connection in `es` leading to `to`,
      or `|es|` when there is none. */
  function FirstTarget(es: seq<Connection>, to: string): (i: nat)
    ensures i <= |es|
    ensures i < |es| ==> es[i].to == to
    ensures forall k :: 0 <= k < i ==> es[k].to != to
    ensures i == |es| <==> !HasTarget(es, to)
  {
    if es == [] then 0
    else if es[0].to == to then 0
    else 1 + FirstTarget(es[1..], to)
  }

  /** The linear scan shared by Connect, AdjustWeight and Disconnect. */
  method FindTarget(es: seq<Connection>, to: string) returns (i: nat)
    ensures i == FirstTarget(es, to)
  {
    i := 0;
    while i < |es|
      invariant i <= |es|
      invariant forall k :: 0 <= k < i ==> es[k].to != to
    {
      if es[i].to == to {
        return;
      }
      i := i + 1;
    }
  }

  /** Disconnect undoes Connect: once `c` has been appended to a list with no
      connection to `c.to`, it is the first match, and removing it restores the list. */
  lemma {:induction false} DisconnectUndoesConnect(es: seq<Connection>, c: Connection)
    requires !HasTarget(es, c.to)
    ensures FirstTarget(es + [c], c.to) == |es|
    ensures (es + [c])[..|es|] + (es + [c])[|es| + 1..] == es
  {
    if es != [] {
      assert es[0].to != c.to;
      DisconnectUndoesConnect(es[1..], c);
      assert (es + [c])[1..] == es[1..] + [c];
    }
    assert (es + [c])[..|es|] == es;
  }

  /** Removing the connection at `i` from a list with unique destinations leaves
      a list with unique destinations, none of them `es[i].to`, drawn from `es`. */
  lemma RemoveAt(es: seq<Connection>, i: nat, from: string)
    requires i < |es| && UniqueTargets(es)
    requires forall k :: 0 <= k < |es| ==> es[k].from == from
    ensures UniqueTargets(es[..i] + es[i + 1..])
    ensures !HasTarget(es[..i] + es[i + 1..], es[i].to)
    ensures forall c :: c in es[..i] + es[i + 1..] ==> c.from == from
  {
    var r := es[..i] + es[i + 1..];
    assert forall k :: 0 <= k < |r| ==> r[k] == if k < i then es[k] else es[k + 1];
  }

  /** `es` with the connection to `to` re-weighted by `delta`, clamped to [0, 1]. */
  function Adjusted(es: seq<Connection>, to: string, delta: real): seq<Connection>
  {
    seq(|es|, k requires 0 <= k < |es| =>
      if es[k].to == to then es[k].(weight := Clamp(es[k].weight + delta, 0.0, 1.0)) else es[k])
  }

  // ---------------------------------------------------------------------------
  // Ordering of Outgoing: a stable insertion sort by weight, descending.

  /** Weights never increase along `s`. */
  predicate SortedByWeight(s: seq<Connection>)
  {
    forall i, j :: 0 <= i < j < |s| ==> s[i].weight >= s[j].weight
  }

  /** The subsequence of `s` whose weight is exactly `w`. */
  function WithWeight(s: seq<Connection>, w: real): seq<Connection>
  {
    if s == [] then []
    else WithWeight(s[..|s| - 1], w) + (if s[|s| - 1].weight == w then [s[|s| - 1]] else [])
  }

  /** Inserts `c` into `s` the way the inner swap loop does: `c` moves left
      past every element whose weight is strictly smaller. */
  function InsertByWeight(s: seq<Connection>, c: Connection): seq<Connection>
  {
    if s == [] then [c]
    else if s[|s| - 1].weight >= c.weight then s + [c]
    else InsertByWeight(s[..|s| - 1], c) + [s[|s| - 1]]
  }

  /** The functional reference for `sortConnections`: insertion sort of `s`,
      growing a heaviest-first prefix left to right. */
  function InsertionSorted(s: seq<Connection>): seq<Connection>
  {
    if s == [] then []
    else InsertByWeight(InsertionSorted(s[..|s| - 1]), s[|s| - 1])
  }

  lemma {:induction false} InsertByWeightPermutes(s: seq<Connection>, c: Connection)
    ensures multiset(InsertByWeight(s, c)) == multiset(s) + multiset{c}
  {
    if s != [] && s[|s| - 1].weight < c.weight {
      var front, last := s[..|s| - 1], s[|s| - 1];
      InsertByWeightPermutes(front, c);
      assert s == front + [last];
    }
  }

  /** Inserting keeps any lower bound that `c` and every element of `s` share. */
  lemma {:induction false} InsertByWeightAbove(s: seq<Connection>, c: Connection, w: real)
    requires c.weight >= w
    requires forall k :: 0 <= k < |s| ==> s[k].weight >= w
    ensures forall k :: 0 <= k < |InsertByWeight(s, c)| ==> InsertByWeight(s, c)[k].weight >= w
    decreases |s|
  {
    if s != [] && s[|s| - 1].weight < c.weight {
      var front, last := s[..|s| - 1], s[|s| - 1];
      InsertByWeightAbove(front, c, w);
      assert InsertByWeight(s, c) == InsertByWeight(front, c) + [last];
    }
  }

  lemma {:induction false} InsertByWeightSorted(s: seq<Connection>, c: Connection)
    requires SortedByWeight(s)
    ensures SortedByWeight(InsertByWeight(s, c))
    decreases |s|
  {
    if s != [] && s[|s| - 1].weight < c.weight {
      var front, last := s[..|s| - 1], s[|s| - 1];
      var ins := InsertByWeight(front, c);
      assert InsertByWeight(s, c) == ins + [last];
      assert SortedByWeight(front);
      InsertByWeightSorted(front, c);
      InsertByWeightAbove(front, c, last.weight);
    }
  }

  lemma {:induction false} WithWeightAppend(a: seq<Connection>, b: seq<Connection>, w: real)
    ensures WithWeight(a + b, w) == WithWeight(a, w) + WithWeight(b, w)
  {
    if b == [] {
      assert a + b == a;
    } else {
      var front, last := b[..|b| - 1], b[|b| - 1];
      WithWeightAppend(a, front, w);
      assert (a + b)[..|a + b| - 1] == a + front;
    }
  }

  /** The part of a one-element list with weight `w`. */
  lemma WithWeightSingle(c: Connection, w: real)
    ensures WithWeight([c], w) == if c.weight == w then [c] else []
  {
    assert [c][..0] == [];
  }

  lemma {:induction false} InsertByWeightStable(s: seq<Connection>, c: Connection, w: real)
    ensures WithWeight(InsertByWeight(s, c), w) == WithWeight(s, w) + WithWeight([c], w)
    decreases |s|
  {
    if s == [] {
      WithWeightSingle(c, w);
    } else if s[|s| - 1].weight >= c.weight {
      WithWeightAppend(s, [c], w);
    } else {
      var front, last := s[..|s| - 1], s[|s| - 1];
      var ins := InsertByWeight(front, c);
      var before, cw, lw := WithWeight(front, w), WithWeight([c], w), WithWeight([last], w);
      WithWeightSingle(c, w);
      WithWeightSingle(last, w);
      SplitLast(s);
      calc {
        WithWeight(InsertByWeight(s, c), w);
        WithWeight(ins + [last], w);
        { WithWeightAppend(ins, [last], w); }
        WithWeight(ins, w) + lw;
        { InsertByWeightStable(front, c, w); }
        before + cw + lw;
        { SwapEmpty(before, cw, lw); }
        before + lw + cw;
        { WithWeightAppend(front, [last], w); }
        WithWeight(front + [last], w) + cw;
      }
    }
  }

  /** The sort yields weights in non-increasing order. */
  lemma {:induction false} InsertionSortedOrdered(s: seq<Connection>)
    ensures SortedByWeight(InsertionSorted(s))
  {
    if s != [] {
      InsertionSortedOrdered(s[..|s| - 1]);
      InsertByWeightSorted(InsertionSorted(s[..|s| - 1]), s[|s| - 1]);
    }
  }

  /** The sort is a permutation of its input. */
  lemma {:induction false} InsertionSortedPermutes(s: seq<Connection>)
    ensures multiset(InsertionSorted(s)) == multiset(s)
  {
    if s != [] {
      var front, last := s[..|s| - 1], s[|s| - 1];
      var sorted := InsertionSorted(front);
      assert InsertionSorted(s) == InsertByWeight(sorted, last);
      SplitLast(s);
      InsertionSortedPermutes(front);
      InsertByWeightPermutes(sorted, last);
      assert multiset(front + [last]) == multiset(front) + multiset{last};
    }
  }

  /** The sort is stable: connections of equal weight keep their relative order. */
  lemma {:induction false} InsertionSortedStable(s: seq<Connection>, w: real)
    ensures WithWeight(InsertionSorted(s), w) == WithWeight(s, w)
  {
    if s != [] {
      var front, last := s[..|s| - 1], s[|s| - 1];
      var sorted := InsertionSorted(front);
      assert InsertionSorted(s) == InsertByWeight(sorted, last);
      SplitLast(s);
      InsertionSortedStable(front, w);
      InsertByWeightStable(sorted, last, w);
      WithWeightAppend(front, [last], w);
    }
  }

  /** Where the inner swap loop stops: `c` goes right after `s[..j]` when
      everything in `s[j..]` is strictly lighter than `c` and `s[j - 1]` is not. */
  lemma {:induction false} InsertByWeightAt(s: seq<Connection>, c: Connection, j: nat)
    requires j <= |s|
    requires j == 0 || s[j - 1].weight >= c.weight
    requires forall k :: j <= k < |s| ==> s[k].weight < c.weight
    ensures InsertByWeight(s, c) == s[..j] + [c] + s[j..]
    decreases |s|
  {
    if j == |s| {
      assert s[..j] == s && s[j..] == [];
    } else {
      var front, last := s[..|s| - 1], s[|s| - 1];
      assert last.weight < c.weight;
      InsertByWeightAt(front, c, j);
      var left, right := s[..j], front[j..];
      assert front[..j] == left;
      assert s[j..] == right + [last];
      AppendAssoc(left + [c], right, [last]);
    }
  }

  /** Exchanges `a[j - 1]` and `a[j]`. */
  method Swap(a: array<Connection>, j: nat)
    requires 0 < j < a.Length
    modifies a
    ensures a[j - 1] == old(a[j]) && a[j] == old(a[j - 1])
    ensures forall k :: 0 <= k < a.Length && k != j - 1 && k != j ==> a[k] == old(a[k])
  {
    a[j], a[j - 1] := a[j - 1], a[j];
  }

  /** The inner swap loop: moves `a[i]` left past every strictly lighter
      neighbour, inserting it into the sorted prefix `a[..i]`. */
  method SiftLeft(a: array<Connection>, i: nat)
    requires i < a.Length
    modifies a
    ensures a[..i + 1] == InsertByWeight(old(a[..i]), old(a[i]))
    ensures forall k :: i < k < a.Length ==> a[k] == old(a[k])
  {
    ghost var sorted := a[..i];
    var x := a[i];
    var j := i;
    while j > 0 && a[j].weight > a[j - 1].weight
      invariant 0 <= j <= i
      invariant a[j] == x
      invariant forall k :: 0 <= k < j ==> a[k] == sorted[k]
      invariant forall k :: j < k <= i ==> a[k] == sorted[k - 1]
      invariant forall k :: j <= k < i ==> sorted[k].weight < x.weight
      invariant forall k :: i < k < a.Length ==> a[k] == old(a[k])
    {
      Swap(a, j);
      j := j - 1;
    }
    InsertByWeightAt(sorted, x, j);
    forall k | 0 <= k <= i
      ensures a[..i + 1][k] == (sorted[..j] + [x] + sorted[j..])[k]
    {
      if k > j {
        assert a[k] == sorted[k - 1];
      }
    }
  }

  /** The in-place swap sort applied to a copy of a connection list. */
  method SortConnections(a: array<Connection>)
    modifies a
    ensures a[..] == InsertionSorted(old(a[..]))
  {
    if a.Length == 0 {
      return;
    }
    assert old(a[..1]) == [a[0]];
    var i := 1;
    while i < a.Length
      invariant 1 <= i <= a.Length
      invariant a[..i] == InsertionSorted(old(a[..i]))
      invariant forall k :: i <= k < a.Length ==> a[k] == old(a[k])
    {
      SiftLeft(a, i);
      assert old(a[..i + 1]) == old(a[..i]) + [old(a[i])];
      i := i + 1;
    }
    assert a[..] == a[..i];
    assert old(a[..]) == old(a[..i]);
  }

  /** The connection graph of one flow. */
  class Graph {
    var connections: map<string, seq<Connection>>

    /** Every list holds connections out of its own key, at most one per destination,
        so the graph has at most one connection per ordered pair. */
    ghost predicate Valid()
      reads this
    {
      forall from :: from in connections ==>
        UniqueTargets(connections[from]) &&
        forall k :: 0 <= k < |connections[from]| ==> connections[from][k].from == from
    }

    function Edges(from: string): seq<Connection>
      reads this
    {
      EdgesOf(connections, from)
    }

    constructor ()
      ensures Valid()
      ensures connections == map[]
    {
      connections := map[];
    }

    /** Adds `from -> to` with `weight` (stored as given) unless that pair exists. */
    method Connect(from: string, to: string, weight: real) returns (err: Outcome<GraphError>)
      requires Valid()
      modifies this
      ensures Valid()
      ensures HasTarget(old(Edges(from)), to) ==>
        err == Fail(DuplicateConnection(from, to)) && connections == old(connections)
      ensures !HasTarget(old(Edges(from)), to) ==>
        err == Pass &&
        connections == old(connections)[from := old(Edges(from)) + [Connection(from, to, weight)]]
    {
      var es := Edges(from);
      var i := FindTarget(es, to);
      if i < |es| {
        return Fail(DuplicateConnection(from, to));
      }
      connections := connections[from := es + [Connection(from, to, weight)]];
      err := Pass;
    }

    /** A fresh copy of the connections out of `from`, heaviest first, ties in
        insertion order. */
    method Outgoing(from: string) returns (conns: seq<Connection>)
      ensures conns == InsertionSorted(Edges(from))
      ensures multiset(conns) == multiset(Edges(from))
      ensures SortedByWeight(conns)
      ensures forall w :: WithWeight(conns, w) == WithWeight(Edges(from), w)
    {
      var es := Edges(from);
      var a := new Connection[|es|](k requires 0 <= k < |es| => es[k]);
      assert a[..] == es;
      SortConnections(a);
      conns := a[..];
      InsertionSortedOrdered(es);
      InsertionSortedPermutes(es);
      forall w ensures WithWeight(conns, w) == WithWeight(es, w) {
        InsertionSortedStable(es, w);
      }
    }

    /** Adds `delta` to the weight of `from -> to`, clamping the sum to [0, 1]. */
    method AdjustWeight(from: string, to: string, delta: real) returns (err: Outcome<GraphError>)
      requires Valid()
      modifies this
      ensures Valid()
      ensures !HasTarget(old(Edges(from)), to) ==>
        err == Fail(ConnectionNotFound(from, to)) && connections == old(connections)
      ensures HasTarget(old(Edges(from)), to) ==>
        err == Pass &&
        connections == old(connections)[from := Adjusted(old(Edges(from)), to, delta)]
      ensures forall k :: 0 <= k < |Edges(from)| && Edges(from)[k].to == to ==>
        0.0 <= Edges(from)[k].weight <= 1.0
    {
      var es := Edges(from);
      var i := FindTarget(es, to);
      if i == |es| {
        return Fail(ConnectionNotFound(from, to));
      }
      var updated := es[i := es[i].(weight := Clamp(es[i].weight + delta, 0.0, 1.0))];
      assert updated == Adjusted(es, to, delta);
      connections := connections[from := updated];
      err := Pass;
    }

    /** Removes the first connection `from -> to`, keeping the order of the rest;
        does nothing when there is none. */
    method Disconnect(from: string, to: string)
      requires Valid()
      modifies this
      ensures Valid()
      ensures !HasTarget(old(Edges(from)), to) ==> connections == old(connections)
      ensures HasTarget(old(Edges(from)), to) ==>
        var es, i := old(Edges(from)), FirstTarget(old(Edges(from)), to);
        connections == old(connections)[from := es[..i] + es[i + 1..]]
      ensures !HasTarget(Edges(from), to)
    {
      var es := Edges(from);
      var i := FindTarget(es, to);
      if i < |es| {
        RemoveAt(es, i, from);
        connections := connections[from := es[..i] + es[i + 1..]];
      }
    }
  }
}
