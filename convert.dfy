/**
 * The bit-string clustering helper: Hamming distance between two strings of
 * the same length, and a table of cluster representatives, kept in insertion
 * order, that labels a query with the first representative close enough to
 * it or else makes the query a new representative.
 */
module Convert {

  datatype Result<T> = Ok(value: T) | Err(error: string)

  const LengthMismatch: string := "Bit-strings must have the same length."

  /** `sum(x != y for x, y in zip(a, b))` for strings of one length. */
  function DiffCount(a: string, b: string): nat
    requires |a| == |b|
  {
    if a == [] then 0
    else DiffCount(a[..|a| - 1], b[..|b| - 1]) + (if a[|a| - 1] != b[|b| - 1] then 1 else 0)
  }

  /** The positions at which a and b differ. */
  function DiffPositions(a: string, b: string): set<nat>
    requires |a| == |b|
  {
    set i: nat | i < |a| && a[i] != b[i]
  }

  /** The live `hamming_distance`: an error when the lengths differ. */
  function HammingDistance(a: string, b: string): (r: Result<nat>)
    ensures r.Err? <==> |a| != |b|
  {
    if |a| != |b| then Err(LengthMismatch) else Ok(DiffCount(a, b))
  }

  lemma {:induction false} DiffCountPositions(a: string, b: string)
    requires |a| == |b|
    ensures DiffCount(a, b) == |DiffPositions(a, b)|
    decreases |a|
  {
    if a != [] {
      var n := |a| - 1;
      var a', b' := a[..n], b[..n];
      DiffCountPositions(a', b');
      if a[n] != b[n] {
        assert DiffPositions(a, b) == DiffPositions(a', b') + {n};
      } else {
        assert DiffPositions(a, b) == DiffPositions(a', b');
      }
    }
  }

  /** The distance is the number of positions where the strings differ. */
  lemma DistanceCountsPositions(a: string, b: string)
    requires |a| == |b|
    ensures HammingDistance(a, b) == Ok(|DiffPositions(a, b)|)
  {
    DiffCountPositions(a, b);
  }

  lemma DistanceSymmetric(a: string, b: string)
    ensures HammingDistance(a, b) == HammingDistance(b, a)
  {
    if |a| == |b| {
      DiffCountPositions(a, b);
      DiffCountPositions(b, a);
      assert DiffPositions(a, b) == DiffPositions(b, a);
    }
  }

  lemma {:induction false} DiffCountBound(a: string, b: string)
    requires |a| == |b|
    ensures DiffCount(a, b) <= |a|
    decreases |a|
  {
    if a != [] {
      DiffCountBound(a[..|a| - 1], b[..|b| - 1]);
    }
  }

  /** Equal-length strings are at distance at most their length, and at distance 0 exactly when equal. */
  lemma DistanceBounds(a: string, b: string)
    requires |a| == |b|
    ensures HammingDistance(a, b).value <= |a|
    ensures HammingDistance(a, b).value == 0 <==> a == b
  {
    DiffCountPositions(a, b);
    DiffCountBound(a, b);
    if a != b {
      var i :| 0 <= i < |a| && a[i] != b[i];
      assert i in DiffPositions(a, b);
    }
  }

  // ---------------------------------------------------------------------
  // Clusters

  /**
   * The state of `clusters`: its keys in insertion order, and the map.
   * Every key is its own label.
   */
  predicate WellFormed(reps: seq<string>, labels: map<string, string>)
  {
    (forall i, j :: 0 <= i < j < |reps| ==> reps[i] != reps[j]) &&
    labels.Keys == (set r | r in reps) &&
    (forall r :: r in labels ==> labels[r] == r)
  }

  /** How the scan over the representatives, from position i on, ends. */
  datatype Outcome = Within(index: nat) | Mismatch | NoneWithin

  function Scan(reps: seq<string>, query: string, n: int, i: nat): (o: Outcome)
    ensures o.Within? ==> i <= o.index < |reps|
    decreases |reps| - i
  {
    if i >= |reps| then NoneWithin
    else match HammingDistance(query, reps[i])
      case Err(_) => Mismatch
      case Ok(d) => if d <= n then Within(i) else Scan(reps, query, n, i + 1)
  }

  /** Representative r has the query's length and is farther than n from it. */
  predicate Far(r: string, query: string, n: int)
  {
    |r| == |query| && DiffCount(query, r) > n
  }

  /** Position k is the first, from i on, whose length differs from the query's. */
  predicate MismatchAt(reps: seq<string>, query: string, n: int, i: nat, k: nat)
  {
    i <= k < |reps| && |reps[k]| != |query| && forall t :: i <= t < k ==> Far(reps[t], query, n)
  }

  /**
   * What the scan finds: the first representative within n, where every
   * earlier one is of the same length and farther; an error at the first
   * representative of another length; or else that all are far.
   */
  lemma {:induction false} ScanFinds(reps: seq<string>, query: string, n: int, i: nat)
    requires i <= |reps|
    ensures var o := Scan(reps, query, n, i);
      (o.Within? ==> |reps[o.index]| == |query| && DiffCount(query, reps[o.index]) <= n &&
                     forall t :: i <= t < o.index ==> Far(reps[t], query, n)) &&
      (o.Mismatch? ==> exists k :: MismatchAt(reps, query, n, i, k)) &&
      (o.NoneWithin? ==> forall t :: i <= t < |reps| ==> Far(reps[t], query, n))
    decreases |reps| - i
  {
    if i < |reps| && |reps[i]| != |query| {
      assert MismatchAt(reps, query, n, i, i);
    } else if i < |reps| && DiffCount(query, reps[i]) > n {
      ScanFinds(reps, query, n, i + 1);
      if Scan(reps, query, n, i).Mismatch? {
        var k :| MismatchAt(reps, query, n, i + 1, k);
        assert MismatchAt(reps, query, n, i, k);
      }
    }
  }

  /** `approximate_bitstring` on the state (reps, labels): the label or error, and the new state. */
  function Approximate(reps: seq<string>, labels: map<string, string>, query: string, n: int)
    : (seq<string>, map<string, string>, Result<string>)
  {
    match Scan(reps, query, n, 0)
    case Within(k) => (reps, labels, Ok(if reps[k] in labels then labels[reps[k]] else reps[k]))
    case Mismatch => (reps, labels, Err(LengthMismatch))
    case NoneWithin =>
      if query in labels then (reps, labels, Ok(query))
      else (reps + [query], labels[query := query], Ok(query))
  }

  /**
   * A query only ever adds itself as a new self-labelled representative at
   * the end: nothing is removed or relabelled, and the order is kept.
   */
  lemma ApproximateKeepsState(reps: seq<string>, labels: map<string, string>, query: string, n: int)
    requires WellFormed(reps, labels)
    ensures var (reps', labels', res) := Approximate(reps, labels, query, n);
      WellFormed(reps', labels') &&
      reps <= reps' && |reps'| <= |reps| + 1 &&
      (forall r :: r in labels ==> r in labels' && labels'[r] == labels[r]) &&
      (res.Ok? ==> res.value in labels') &&
      (res.Err? ==> reps' == reps && labels' == labels)
  {
    if Scan(reps, query, n, 0).NoneWithin? && query !in labels {
      AddCluster(reps, labels, query);
    }
  }

  /** A new query becomes a new self-labelled cluster at the end. */
  lemma AddCluster(reps: seq<string>, labels: map<string, string>, query: string)
    requires WellFormed(reps, labels) && query !in labels
    ensures WellFormed(reps + [query], labels[query := query])
  {
    var reps' := reps + [query];
    assert (set r | r in reps') == (set r | r in reps) + {query};
    forall i, j | 0 <= i < j < |reps'|
      ensures reps'[i] != reps'[j]
    {
      if j == |reps| {
        assert reps[i] in labels;
      }
    }
  }

  /**
   * A representative within n yields its label and leaves the state alone;
   * otherwise (with every representative of the query's length) the query
   * is appended, labelled by itself, and returned; every old representative
   * is farther than n and the new one is at distance 0.
   */
  lemma ApproximateOutcome(reps: seq<string>, labels: map<string, string>, query: string, n: int)
    requires WellFormed(reps, labels)
    ensures var (reps', labels', res) := Approximate(reps, labels, query, n);
      match Scan(reps, query, n, 0)
      case Within(k) => res == Ok(reps[k]) && reps' == reps && labels' == labels
      case Mismatch => res.Err?
      case NoneWithin =>
        res == Ok(query) && labels'[query] == query &&
        (forall t :: 0 <= t < |reps| ==> Far(reps[t], query, n)) &&
        (query !in labels ==> reps' == reps + [query] && HammingDistance(query, reps'[|reps|]) == Ok(0)) &&
        (query in labels ==> n < 0 && reps' == reps && labels' == labels)
  {
    ScanFinds(reps, query, n, 0);
    var o := Scan(reps, query, n, 0);
    if o.Within? {
      assert reps[o.index] in labels;
    }
    if o.NoneWithin? {
      var (reps', labels', res) := Approximate(reps, labels, query, n);
      if query in labels {
        assert query in reps;
        var k :| 0 <= k < |reps| && reps[k] == query;
        assert Far(reps[k], query, n);
        DistanceBounds(query, query);
        assert n < 0;
        assert labels[query := query] == labels;
      } else {
        assert reps'[|reps|] == query;
        DistanceBounds(query, query);
      }
    }
  }

  lemma {:induction false} ScanPrefix(reps: seq<string>, extra: string, query: string, n: int, i: nat)
    requires i <= |reps|
    requires Scan(reps, query, n, i).Within?
    ensures Scan(reps + [extra], query, n, i) == Scan(reps, query, n, i)
    decreases |reps| - i
  {
    assert (reps + [extra])[i] == reps[i];
    if Scan(reps, query, n, i) != Within(i) {
      ScanPrefix(reps, extra, query, n, i + 1);
    }
  }

  lemma {:induction false} ScanToNew(reps: seq<string>, query: string, n: int, i: nat)
    requires i <= |reps| && 0 <= n
    requires forall t :: i <= t < |reps| ==> Far(reps[t], query, n)
    ensures Scan(reps + [query], query, n, i) == Within(|reps|)
    decreases |reps| - i
  {
    var reps' := reps + [query];
    if i < |reps| {
      assert reps'[i] == reps[i];
      ScanToNew(reps, query, n, i + 1);
    } else {
      assert reps'[i] == query;
      DistanceBounds(query, query);
    }
  }

  /**
   * With n >= 0, asking twice for the same bit-string gives the same label,
   * and the second query changes nothing.
   */
  lemma RepeatQuery(reps: seq<string>, labels: map<string, string>, query: string, n: int)
    requires WellFormed(reps, labels) && 0 <= n
    requires Approximate(reps, labels, query, n).2.Ok?
    ensures var (reps', labels', res) := Approximate(reps, labels, query, n);
      Approximate(reps', labels', query, n) == (reps', labels', res)
  {
    ScanFinds(reps, query, n, 0);
    var o := Scan(reps, query, n, 0);
    var (reps', labels', res) := Approximate(reps, labels, query, n);
    ApproximateKeepsState(reps, labels, query, n);
    if o.NoneWithin? {
      if query !in labels {
        ScanToNew(reps, query, n, 0);
      } else {
        assert query in reps;
        var k :| 0 <= k < |reps| && reps[k] == query;
        DistanceBounds(query, query);
        assert false;
      }
    }
  }

  /** `ApproximateBitstring`: the cluster table, updated in place. */
  class ApproximateBitstring {
    /** The keys of `clusters`, in insertion order. */
    var reps: seq<string>
    /** `clusters`: representative to label. */
    var clusters: map<string, string>

    ghost predicate Valid()
      reads this
    {
      WellFormed(reps, clusters)
    }

    constructor ()
      ensures Valid() && reps == [] && clusters == map[]
    {
      reps := [];
      clusters := map[];
    }

    /**
     * `approximate_bitstring`: scan the representatives in insertion order;
     * a length mismatch raises, the first one within n gives the label, and
     * if none is within n the query becomes its own cluster.
     */
    method Query(bitstring: string, n: int) returns (res: Result<string>)
      requires Valid()
      modifies this
      ensures Valid()
      ensures (reps, clusters, res) == Approximate(old(reps), old(clusters), bitstring, n)
    {
      var i := 0;
      while i < |reps|
        invariant 0 <= i <= |reps|
        invariant Scan(reps, bitstring, n, i) == Scan(reps, bitstring, n, 0)
        decreases |reps| - i
      {
        var rep := reps[i];
        var d := HammingDistance(bitstring, rep);
        if d.Err? {
          return Err(d.error);
        }
        if d.value <= n {
          assert rep in (set r | r in reps);
          return Ok(clusters[rep]);
        }
        i := i + 1;
      }
      ApproximateKeepsState(reps, clusters, bitstring, n);
      if bitstring !in clusters {
        reps := reps + [bitstring];
      } else {
        assert clusters[bitstring := bitstring] == clusters;
      }
      clusters := clusters[bitstring := bitstring];
      res := Ok(bitstring);
    }
  }
}
