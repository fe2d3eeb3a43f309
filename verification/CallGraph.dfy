/** Model of `aggregate_weight` and `build_call_graph` (code-graph/src/rank.rs).

The graph type of the original is petgraph's; here a graph is its list of node names in index order
and its list of edges in insertion order. Confidences are exact reals. */
module CallGraph {
  import opened RealSums
  import opened Sorting

  datatype Triple = Triple(caller: string, callee: string, confidence: real)

  datatype Edge = Edge(src: nat, dst: nat, weight: real)

  datatype Graph = Graph(names: seq<string>, edges: seq<Edge>)

  ghost predicate Valid(g: Graph) {
    forall e :: e in g.edges ==> e.src < |g.names| && e.dst < |g.names|
  }

  const EDGE_WEIGHT_CAP := 8.0

  ghost predicate IsSquareRoot(sqrt: nat -> real) {
    forall n :: sqrt(n) >= 0.0 && sqrt(n) * sqrt(n) == n as real
  }

  function AggregateWeight(sqrt: nat -> real, confSum: real, nref: nat): real {
    if nref == 0 then 0.0
    else
      var w := confSum / nref as real * sqrt(nref);
      if w <= EDGE_WEIGHT_CAP then w else EDGE_WEIGHT_CAP
  }

  // ----- keys and groups -----

  type Key = (string, string)

  function KeyOf(t: Triple): Key {
    (t.caller, t.callee)
  }

  predicate KeyLe(a: Key, b: Key) {
    if a.0 == b.0 then StringLe(a.1, b.1) else StringLe(a.0, b.0)
  }

  predicate TripleLe(a: Triple, b: Triple) {
    KeyLe(KeyOf(a), KeyOf(b))
  }

  /** Number of occurrences of a caller/callee pair. */
  function Count(ts: seq<Triple>, k: Key): nat {
    if ts == [] then 0
    else Count(ts[..|ts| - 1], k) + (if KeyOf(ts[|ts| - 1]) == k then 1 else 0)
  }

  /** Sum of the confidences of a pair's occurrences. */
  function ConfSum(ts: seq<Triple>, k: Key): real {
    if ts == [] then 0.0
    else ConfSum(ts[..|ts| - 1], k) + (if KeyOf(ts[|ts| - 1]) == k then ts[|ts| - 1].confidence else 0.0)
  }

  ghost predicate Endpoint(ts: seq<Triple>, x: string) {
    exists t :: t in ts && t.caller != t.callee && (x == t.caller || x == t.callee)
  }

  ghost predicate HasEdge(ts: seq<Triple>, k: Key) {
    k.0 != k.1 && exists t :: t in ts && KeyOf(t) == k
  }

  function EdgeKey(names: seq<string>, e: Edge): Key
    requires e.src < |names| && e.dst < |names|
  {
    (names[e.src], names[e.dst])
  }

  ghost function EdgeKeys(g: Graph): (keys: seq<Key>)
    requires Valid(g)
    ensures |keys| == |g.edges|
    ensures forall i :: 0 <= i < |keys| ==> keys[i] == EdgeKey(g.names, g.edges[i])
  {
    KeysUpTo(g, |g.edges|)
  }

  ghost function KeysUpTo(g: Graph, k: nat): (keys: seq<Key>)
    requires Valid(g) && k <= |g.edges|
    ensures |keys| == k
    ensures forall i :: 0 <= i < k ==> keys[i] == EdgeKey(g.names, g.edges[i])
  {
    if k == 0 then [] else KeysUpTo(g, k - 1) + [EdgeKey(g.names, g.edges[k - 1])]
  }

  /** What a call graph of these triples is: the endpoints in strictly ascending order, exactly one
      edge per distinct pair that is not a self-loop, in ascending order, weighted by all occurrences. */
  ghost predicate IsCallGraph(sqrt: nat -> real, ts: seq<Triple>, g: Graph) {
    && Valid(g)
    && StrictBy(StringLe, g.names)
    && (forall x :: x in g.names <==> Endpoint(ts, x))
    && StrictBy(KeyLe, EdgeKeys(g))
    && (forall k :: k in EdgeKeys(g) <==> HasEdge(ts, k))
    && (forall i :: 0 <= i < |g.edges| ==> WeightIs(sqrt, ts, g, i))
  }

  ghost predicate WeightIs(sqrt: nat -> real, ts: seq<Triple>, g: Graph, i: nat)
    requires Valid(g) && i < |g.edges|
  {
    var k := EdgeKeys(g)[i];
    g.edges[i].weight == AggregateWeight(sqrt, ConfSum(ts, k), Count(ts, k))
  }

  // ----- orders -----

  lemma {:induction false} KeyOrder()
    ensures TotalPreorder(KeyLe) && Antisymmetric(KeyLe)
    ensures TotalPreorder(TripleLe)
  {
    StringOrder();
    forall a: Key, b: Key
      ensures (KeyLe(a, b) || KeyLe(b, a)) && (KeyLe(a, b) && KeyLe(b, a) ==> a == b)
    {
      assert StringLe(a.0, b.0) || StringLe(b.0, a.0);
      assert StringLe(a.1, b.1) || StringLe(b.1, a.1);
    }
    forall a: Key, b: Key, c: Key | KeyLe(a, b) && KeyLe(b, c) ensures KeyLe(a, c) {
      if a.0 == b.0 == c.0 {
        StringLeTransitive(a.1, b.1, c.1);
      } else if a.0 != b.0 && b.0 != c.0 {
        StringLeTransitive(a.0, b.0, c.0);
        assert a.0 != c.0;
      }
    }
  }

  // ----- groups do not depend on the order of the triples -----

  lemma {:induction false} GroupOfConcat(s: seq<Triple>, t: seq<Triple>, k: Key)
    ensures Count(s + t, k) == Count(s, k) + Count(t, k)
    ensures ConfSum(s + t, k) == ConfSum(s, k) + ConfSum(t, k)
  {
    if t == [] {
      assert s + t == s;
    } else {
      var front := t[..|t| - 1];
      assert (s + t)[..|s + t| - 1] == s + front;
      GroupOfConcat(s, front, k);
    }
  }

  lemma {:induction false} GroupOfPermutation(s: seq<Triple>, t: seq<Triple>, k: Key)
    requires multiset(s) == multiset(t)
    ensures Count(s, k) == Count(t, k) && ConfSum(s, k) == ConfSum(t, k)
    decreases |s|
  {
    if s == [] {
      assert |multiset(t)| == 0;
    } else {
      var l, r := TakeOut(s, t);
      GroupOfPermutation(s[..|s| - 1], l + r, k);
      GroupInsert(l, s[|s| - 1], r, k);
      GroupInsert(s[..|s| - 1], s[|s| - 1], [], k);
      assert s == s[..|s| - 1] + [s[|s| - 1]] + [] && s[..|s| - 1] + [] == s[..|s| - 1];
    }
  }

  lemma {:induction false} GroupInsert(l: seq<Triple>, x: Triple, r: seq<Triple>, k: Key)
    ensures Count(l + [x] + r, k) == Count(l + r, k) + Count([x], k)
    ensures ConfSum(l + [x] + r, k) == ConfSum(l + r, k) + ConfSum([x], k)
  {
    GroupOfConcat(l + [x], r, k);
    GroupOfConcat(l, [x], k);
    GroupOfConcat(l, r, k);
  }

  lemma {:induction false} NoOccurrence(s: seq<Triple>, k: Key)
    requires forall t :: t in s ==> KeyOf(t) != k
    ensures Count(s, k) == 0 && ConfSum(s, k) == 0.0
  {
    if s != [] {
      NoOccurrence(s[..|s| - 1], k);
    }
  }

  // ----- canonicity -----

  lemma {:induction false} NamesDetermineIndex(names: seq<string>, a: nat, b: nat)
    requires StrictBy(StringLe, names) && a < |names| && b < |names| && names[a] == names[b]
    ensures a == b
  {
  }

  /** The call graph is canonical: permuting the triples changes nothing. */
  lemma {:induction false} CallGraphCanonical(sqrt: nat -> real, ts: seq<Triple>, us: seq<Triple>, g: Graph, h: Graph)
    requires multiset(ts) == multiset(us)
    requires IsCallGraph(sqrt, ts, g) && IsCallGraph(sqrt, us, h)
    ensures g == h
  {
    StringOrder();
    KeyOrder();
    SameMembers(ts, us);
    forall x ensures x in g.names <==> x in h.names {
      assert Endpoint(ts, x) <==> Endpoint(us, x);
    }
    StrictUnique(StringLe, g.names, h.names);
    forall k ensures k in EdgeKeys(g) <==> k in EdgeKeys(h) {
      assert HasEdge(ts, k) <==> HasEdge(us, k);
    }
    StrictUnique(KeyLe, EdgeKeys(g), EdgeKeys(h));
    forall i | 0 <= i < |g.edges| ensures g.edges[i] == h.edges[i] {
      assert EdgeKeys(g)[i] == EdgeKeys(h)[i];
      assert g.edges[i] in g.edges && h.edges[i] in h.edges;
      NamesDetermineIndex(g.names, g.edges[i].src, h.edges[i].src);
      NamesDetermineIndex(g.names, g.edges[i].dst, h.edges[i].dst);
      assert WeightIs(sqrt, ts, g, i) && WeightIs(sqrt, us, h, i);
      GroupOfPermutation(ts, us, EdgeKeys(g)[i]);
    }
  }

  lemma {:induction false} SameMembers(ts: seq<Triple>, us: seq<Triple>)
    requires multiset(ts) == multiset(us)
    ensures forall t :: t in ts <==> t in us
  {
    forall t ensures t in ts <==> t in us {
      assert t in ts <==> t in multiset(ts);
      assert t in us <==> t in multiset(us);
    }
  }

  // ----- weights -----

  lemma {:induction false} SqrtMonotone(sqrt: nat -> real, m: nat, n: nat)
    requires IsSquareRoot(sqrt) && m <= n
    ensures 0.0 <= sqrt(m) <= sqrt(n)
  {
    assert sqrt(m) * sqrt(m) == m as real && sqrt(n) * sqrt(n) == n as real;
    if sqrt(m) > sqrt(n) {
      SquareStrict(sqrt(n), sqrt(m));
    }
  }

  lemma {:induction false} SquareStrict(a: real, b: real)
    requires 0.0 <= a < b
    ensures a * a < b * b
  {
    MulNonneg(a, b - a);
    assert b * (b - a) > 0.0;
  }

  /** Corroboration is rewarded and capped: with the mean confidence fixed, more references never
      weigh less, and no weight is negative or above the cap. */
  lemma {:induction false} AggregateMonotone(sqrt: nat -> real, mean: real, m: nat, n: nat)
    requires IsSquareRoot(sqrt) && mean >= 0.0 && m <= n
    ensures 0.0 <= AggregateWeight(sqrt, mean * m as real, m)
                <= AggregateWeight(sqrt, mean * n as real, n) <= EDGE_WEIGHT_CAP
  {
    MeanWeight(sqrt, mean, m);
    MeanWeight(sqrt, mean, n);
    SqrtMonotone(sqrt, m, n);
    MulNonneg(mean, sqrt(m));
    MulNonneg(mean, sqrt(n) - sqrt(m));
  }

  lemma {:induction false} MeanWeight(sqrt: nat -> real, mean: real, n: nat)
    ensures n > 0 ==> mean * n as real / n as real * sqrt(n) == mean * sqrt(n)
  {
  }

  /** Squared, a weight below 8 is the square of the sum over the count, that is the mean times the root of the
      count; it is 8 exactly from where that would reach it. */
  ghost predicate Weighs(w: real, s: real, n: real) {
    0.0 <= w <= 8.0 && (w < 8.0 ==> w * w * n == s * s) && (w == 8.0 <==> s * s >= 64.0 * n)
  }

  lemma {:induction false} WeightExactly(sqrt: nat -> real, s: real, n: nat)
    requires IsSquareRoot(sqrt) && s >= 0.0 && n > 0
    ensures Weighs(AggregateWeight(sqrt, s, n), s, n as real)
  {
    var m, r, x := n as real, sqrt(n), s / n as real * sqrt(n);
    assert r >= 0.0 && r * r == m;
    MeanRoot(s, m, r, x);
    SquareCompare(x, m, s * s);
  }

  lemma {:induction false} MeanRoot(s: real, m: real, r: real, x: real)
    requires m > 0.0 && s >= 0.0 && r >= 0.0 && r * r == m && x == s / m * r
    ensures x >= 0.0 && x * x * m == s * s
  {
    var q := s / m;
    Quotient(s, m, q);
    MulNonneg(q, r);
    SquareOfProduct(q, r, m, x);
    SquareOfProduct(q, m, m * m, s);
    assert q * q * (m * m) == q * q * m * m;
  }

  lemma {:induction false} Quotient(s: real, m: real, q: real)
    requires m > 0.0 && s >= 0.0 && q == s / m
    ensures q * m == s && q >= 0.0
  {
  }

  lemma {:induction false} SquareOfProduct(q: real, r: real, m: real, x: real)
    requires x == q * r && r * r == m
    ensures x * x == q * q * m
  {
    assert x * x == q * (r * (q * r)) == q * (q * (r * r));
  }

  lemma {:induction false} SquareCompare(x: real, m: real, square: real)
    requires x >= 0.0 && m > 0.0 && x * x * m == square
    ensures x >= 8.0 <==> square >= 64.0 * m
  {
    if x >= 8.0 {
      MulLe(x, 8.0, x);
      MulLe(m, 64.0, x * x);
    } else {
      SquareStrict(x, 8.0);
      TimesStrict(m, x * x, 64.0);
    }
  }

  lemma {:induction false} TimesStrict(m: real, a: real, b: real)
    requires m > 0.0 && a < b
    ensures a * m < b * m
  {
  }

  /** With the mean confidence positive and fixed, every further reference weighs more until the cap. */
  lemma {:induction false} AggregateGrows(sqrt: nat -> real, mean: real, m: nat, n: nat)
    requires IsSquareRoot(sqrt) && mean > 0.0 && m < n && AggregateWeight(sqrt, mean * m as real, m) < EDGE_WEIGHT_CAP
    ensures AggregateWeight(sqrt, mean * m as real, m) < AggregateWeight(sqrt, mean * n as real, n)
  {
    MeanWeight(sqrt, mean, m);
    MeanWeight(sqrt, mean, n);
    SqrtGrows(sqrt, m, n);
    ScaledLess(mean, sqrt(m), sqrt(n));
    TimesZero(mean, sqrt(n));
  }

  lemma {:induction false} SqrtGrows(sqrt: nat -> real, m: nat, n: nat)
    requires IsSquareRoot(sqrt) && m < n
    ensures 0.0 <= sqrt(m) < sqrt(n)
  {
    SqrtMonotone(sqrt, m, n);
    assert sqrt(m) * sqrt(m) == m as real && sqrt(n) * sqrt(n) == n as real;
  }

  lemma {:induction false} ScaledLess(mean: real, a: real, b: real)
    requires mean > 0.0 && a < b
    ensures mean * a < mean * b
  {
  }

  lemma {:induction false} TimesZero(mean: real, b: real)
    requires mean > 0.0 && b > 0.0
    ensures mean * b > 0.0
  {
  }

  ghost predicate NonnegativeConfidences(ts: seq<Triple>) {
    forall t :: t in ts ==> t.confidence >= 0.0
  }

  lemma {:induction false} ConfSumNonneg(ts: seq<Triple>, k: Key)
    requires NonnegativeConfidences(ts)
    ensures ConfSum(ts, k) >= 0.0
  {
    if ts != [] {
      ConfSumNonneg(ts[..|ts| - 1], k);
    }
  }

  lemma {:induction false} WeightsNonneg(sqrt: nat -> real, ts: seq<Triple>, g: Graph)
    requires IsSquareRoot(sqrt) && NonnegativeConfidences(ts) && IsCallGraph(sqrt, ts, g)
    ensures forall e :: e in g.edges ==> 0.0 <= e.weight <= EDGE_WEIGHT_CAP && e.src != e.dst
  {
    forall e | e in g.edges ensures 0.0 <= e.weight <= EDGE_WEIGHT_CAP && e.src != e.dst {
      var i :| 0 <= i < |g.edges| && g.edges[i] == e;
      var k := EdgeKeys(g)[i];
      assert k in EdgeKeys(g) && HasEdge(ts, k) && WeightIs(sqrt, ts, g, i);
      ConfSumNonneg(ts, k);
      WeightNonneg(sqrt, ConfSum(ts, k), Count(ts, k));
    }
  }

  lemma {:induction false} WeightNonneg(sqrt: nat -> real, s: real, n: nat)
    requires IsSquareRoot(sqrt) && s >= 0.0
    ensures 0.0 <= AggregateWeight(sqrt, s, n) <= EDGE_WEIGHT_CAP
  {
    if n > 0 {
      assert sqrt(n) >= 0.0;
      MulNonneg(s / n as real, sqrt(n));
    }
  }

  // ----- what an edge weighs -----

  ghost predicate Calls(t: Triple, a: string, b: string) {
    t.caller == a && t.callee == b
  }

  /** Where a calls b. */
  ghost function Hits(ts: seq<Triple>, a: string, b: string): set<int> {
    set i | 0 <= i < |ts| && Calls(ts[i], a, b)
  }

  function Confidences(ts: seq<Triple>, a: string, b: string): int -> real {
    i => if 0 <= i < |ts| && ts[i].caller == a && ts[i].callee == b then ts[i].confidence else 0.0
  }

  lemma {:induction false} CountIsHits(ts: seq<Triple>, a: string, b: string)
    ensures Count(ts, (a, b)) == |Hits(ts, a, b)|
  {
    if ts != [] {
      var front, n := ts[..|ts| - 1], |ts| - 1;
      CountIsHits(front, a, b);
      assert Hits(ts, a, b) == Hits(front, a, b) + if Calls(ts[n], a, b) then {n} else {};
    }
  }

  lemma {:induction false} ConfSumIsSum(ts: seq<Triple>, a: string, b: string)
    ensures ConfSum(ts, (a, b)) == Sum(Confidences(ts, a, b), |ts|)
  {
    if ts != [] {
      var front := ts[..|ts| - 1];
      ConfSumIsSum(front, a, b);
      SumExt(Confidences(front, a, b), Confidences(ts, a, b), |front|);
    }
  }

  /** An edge from a to b says that a calls b, however often; squared it weighs the square of all their confidences
      over their number, up to the cap. */
  lemma {:induction false} EdgeExactly(sqrt: nat -> real, ts: seq<Triple>, g: Graph, i: nat)
    requires IsSquareRoot(sqrt) && NonnegativeConfidences(ts) && IsCallGraph(sqrt, ts, g) && i < |g.edges|
    ensures var e := g.edges[i];
            var a, b := g.names[e.src], g.names[e.dst];
            && a != b && |Hits(ts, a, b)| > 0
            && Weighs(e.weight, Sum(Confidences(ts, a, b), |ts|), |Hits(ts, a, b)| as real)
  {
    var e := g.edges[i];
    var a, b := g.names[e.src], g.names[e.dst];
    EdgeFacts(sqrt, ts, g, i, a, b);
    WeightExactly(sqrt, Sum(Confidences(ts, a, b), |ts|), |Hits(ts, a, b)|);
  }

  lemma {:induction false} EdgeFacts(sqrt: nat -> real, ts: seq<Triple>, g: Graph, i: nat, a: string, b: string)
    requires NonnegativeConfidences(ts) && IsCallGraph(sqrt, ts, g) && i < |g.edges|
    requires a == g.names[g.edges[i].src] && b == g.names[g.edges[i].dst]
    ensures g.edges[i].weight == AggregateWeight(sqrt, Sum(Confidences(ts, a, b), |ts|), |Hits(ts, a, b)|)
    ensures a != b && |Hits(ts, a, b)| > 0 && Sum(Confidences(ts, a, b), |ts|) >= 0.0
  {
    assert EdgeKeys(g)[i] == (a, b);
    assert (a, b) in EdgeKeys(g) && HasEdge(ts, (a, b)) && WeightIs(sqrt, ts, g, i);
    CountIsHits(ts, a, b);
    ConfSumIsSum(ts, a, b);
    SomeHit(ts, a, b);
    ConfSumNonneg(ts, (a, b));
  }

  lemma {:induction false} SomeHit(ts: seq<Triple>, a: string, b: string)
    requires HasEdge(ts, (a, b))
    ensures |Hits(ts, a, b)| > 0
  {
    var t :| t in ts && KeyOf(t) == (a, b);
    var i :| 0 <= i < |ts| && ts[i] == t;
    assert i in Hits(ts, a, b);
  }

  /** Edges come in the order of their callers' names, those of one caller in the order of the names it calls. */
  lemma {:induction false} EdgesInOrder(sqrt: nat -> real, ts: seq<Triple>, g: Graph, i: nat, j: nat)
    requires IsCallGraph(sqrt, ts, g) && i < j < |g.edges|
    ensures var a, b := g.edges[i], g.edges[j];
            || Precedes(g.names[a.src], g.names[b.src])
            || (g.names[a.src] == g.names[b.src] && Precedes(g.names[a.dst], g.names[b.dst]))
  {
    var keys := EdgeKeys(g);
    assert KeyLe(keys[i], keys[j]) && keys[i] != keys[j];
    PrecedesExactly(keys[i].0, keys[j].0);
    PrecedesExactly(keys[i].1, keys[j].1);
  }

  /** There is an edge from a to b exactly when some triple says that a calls b, another function. */
  lemma {:induction false} EdgesAreCalls(sqrt: nat -> real, ts: seq<Triple>, g: Graph, a: string, b: string)
    requires IsCallGraph(sqrt, ts, g)
    ensures (exists e :: e in g.edges && g.names[e.src] == a && g.names[e.dst] == b) <==>
            a != b && exists t :: t in ts && Calls(t, a, b)
  {
    var keys := EdgeKeys(g);
    assert (a, b) in keys <==> HasEdge(ts, (a, b));
    if (a, b) in keys {
      var i :| 0 <= i < |keys| && keys[i] == (a, b);
      assert g.edges[i] in g.edges;
    }
    forall e | e in g.edges && g.names[e.src] == a && g.names[e.dst] == b ensures (a, b) in keys {
      var i :| 0 <= i < |g.edges| && g.edges[i] == e;
      assert keys[i] == (a, b);
    }
    assert HasEdge(ts, (a, b)) <==> a != b && exists t :: t in ts && Calls(t, a, b) by {
      forall t | t in ts ensures KeyOf(t) == (a, b) <==> Calls(t, a, b) {
      }
    }
  }

  // ----- the program -----

  method BuildCallGraph(sqrt: nat -> real, triples: seq<Triple>) returns (g: Graph)
    ensures IsCallGraph(sqrt, triples, g)
  {
    var names, index := IndexNodes(triples);
    SortSorts(TripleLe, triples) by {
      KeyOrder();
    }
    SortPermutes(TripleLe, triples);
    var edges := GroupEdges(sqrt, triples, Sort(TripleLe, triples), names, index);
    g := Graph(names, edges);
    SameMembers(Sort(TripleLe, triples), triples);
    forall k ensures k in EdgeKeys(g) <==> HasEdge(triples, k) {
      assert HasEdge(Sort(TripleLe, triples), k) <==> HasEdge(triples, k);
    }
  }

  /** The node list in sorted order and the index of every name in it. */
  method IndexNodes(triples: seq<Triple>) returns (names: seq<string>, index: map<string, nat>)
    ensures StrictBy(StringLe, names)
    ensures forall x :: x in names <==> Endpoint(triples, x)
    ensures IsIndex(names, index)
  {
    var nodes := CollectNodes(triples);
    SortedNodes(nodes);
    nodes := Dedup(Sort(StringLe, nodes));
    names, index := [], map[];
    for j := 0 to |nodes|
      invariant names == nodes[..j]
      invariant IsIndex(names, index)
    {
      index := index[nodes[j] := |names|];
      names := names + [nodes[j]];
    }
    assert names == nodes;
  }

  lemma {:induction false} SortedNodes(nodes: seq<string>)
    ensures StrictBy(StringLe, Dedup(Sort(StringLe, nodes)))
    ensures forall x :: x in Dedup(Sort(StringLe, nodes)) <==> x in nodes
  {
    StringOrder();
    SortSorts(StringLe, nodes);
    SortMembers(StringLe, nodes);
    DedupStrict(StringLe, Sort(StringLe, nodes));
  }

  ghost predicate IsIndex(names: seq<string>, index: map<string, nat>) {
    && (forall x :: x in names ==> x in index)
    && (forall x :: x in index ==> index[x] < |names| && names[index[x]] == x)
  }

  /** The grouping loop over the sorted triples. */
  method GroupEdges(sqrt: nat -> real, ghost triples: seq<Triple>, sorted: seq<Triple>,
                    names: seq<string>, index: map<string, nat>)
    returns (edges: seq<Edge>)
    requires SortedBy(TripleLe, sorted) && multiset(sorted) == multiset(triples)
    requires IsIndex(names, index) && forall x :: Endpoint(triples, x) ==> x in names
    ensures var g := Graph(names, edges);
            && Valid(g) && StrictBy(KeyLe, EdgeKeys(g))
            && (forall k :: k in EdgeKeys(g) <==> HasEdge(sorted, k))
            && (forall j :: 0 <= j < |edges| ==> WeightIs(sqrt, triples, g, j))
  {
    OrderIsSorted(sorted);
    edges := [];
    var i := 0;
    while i < |sorted|
      invariant 0 <= i <= |sorted|
      invariant 0 < i < |sorted| ==> AtGroupStart(sorted, i)
      invariant GroupedUpTo(sqrt, triples, sorted, Graph(names, edges), i)
    {
      var from, to := sorted[i].caller, sorted[i].callee;
      if from == to {
        ExtendBySelfLoop(sorted, i);
        i := i + 1;
      } else {
        var sum, n, next := SumGroup(sorted, i);
        GroupOfPermutation(sorted, triples, (from, to));
        EndpointsOf(triples, sorted, i);
        if from in index && to in index {
          var edge := Edge(index[from], index[to], AggregateWeight(sqrt, sum, n));
          AddGroup(sqrt, triples, sorted, Graph(names, edges), edge, i, next);
          edges := edges + [edge];
        }
        i := next;
      }
    }
    assert sorted[..i] == sorted;
  }

  /** The inner loop: one group of parallel edges. */
  method SumGroup(sorted: seq<Triple>, start: nat) returns (sum: real, n: nat, i: nat)
    requires InOrder(sorted)
    requires start < |sorted| && sorted[start].caller != sorted[start].callee
    requires start > 0 ==> AtGroupStart(sorted, start)
    ensures start < i <= |sorted|
    ensures sum == ConfSum(sorted, KeyOf(sorted[start])) && n == Count(sorted, KeyOf(sorted[start]))
    ensures forall j :: start <= j < i ==> KeyOf(sorted[j]) == KeyOf(sorted[start])
    ensures i < |sorted| ==> AtGroupStart(sorted, i)
  {
    var from, to := sorted[start].caller, sorted[start].callee;
    i, sum, n := start, 0.0, 0;
    GroupIsNew(sorted, start);
    while i < |sorted| && sorted[i].caller == from && sorted[i].callee == to
      invariant Collected(sorted, start, i, sum, n)
    {
      ExtendGroup(sorted, start, i, sum, n);
      sum := sum + sorted[i].confidence;
      n := n + 1;
      i := i + 1;
    }
    GroupEnd(sorted, start, i, sum, n);
  }

  method CollectNodes(triples: seq<Triple>) returns (nodes: seq<string>)
    ensures forall x :: x in nodes <==> Endpoint(triples, x)
  {
    nodes := [];
    for i := 0 to |triples|
      invariant forall x :: x in nodes <==> Endpoint(triples[..i], x)
    {
      var t := triples[i];
      assert triples[..i + 1] == triples[..i] + [t];
      forall x
        ensures Endpoint(triples[..i + 1], x) <==>
                Endpoint(triples[..i], x) || (t.caller != t.callee && (x == t.caller || x == t.callee))
      {
        assert t in triples[..i + 1];
        if Endpoint(triples[..i], x) {
          var u :| u in triples[..i] && u.caller != u.callee && (x == u.caller || x == u.callee);
          assert u in triples[..i + 1];
        }
      }
      if t.caller != t.callee {
        nodes := nodes + [t.caller, t.callee];
      }
    }
    assert triples[..|triples|] == triples;
  }

  // ----- steps of the grouping loop -----

  ghost predicate Before(sorted: seq<Triple>, i: int, j: int) {
    0 <= i < j < |sorted| ==> TripleLe(sorted[i], sorted[j])
  }

  ghost predicate InOrder(sorted: seq<Triple>) {
    forall i, j :: Before(sorted, i, j)
  }

  lemma {:induction false} OrderIsSorted(sorted: seq<Triple>)
    ensures InOrder(sorted) <==> SortedBy(TripleLe, sorted)
  {
    forall i, j ensures Before(sorted, i, j) <==> (0 <= i < j < |sorted| ==> TripleLe(sorted[i], sorted[j])) {
    }
  }

  /** No pair that is not a self-loop continues across position i. */
  ghost predicate AtGroupStart(sorted: seq<Triple>, i: nat)
    requires 0 < i < |sorted|
  {
    sorted[i].caller == sorted[i].callee || KeyOf(sorted[i - 1]) != KeyOf(sorted[i])
  }

  lemma {:induction false} GroupStart(sorted: seq<Triple>, i: nat)
    requires SortedBy(TripleLe, sorted) && i < |sorted| && sorted[i].caller != sorted[i].callee
    requires i > 0 ==> AtGroupStart(sorted, i)
    ensures forall t :: t in sorted[..i] ==> KeyOf(t) != KeyOf(sorted[i]) && TripleLe(t, sorted[i])
  {
    KeyOrder();
    forall t | t in sorted[..i] ensures KeyOf(t) != KeyOf(sorted[i]) && TripleLe(t, sorted[i]) {
      var j :| 0 <= j < i && sorted[j] == t;
      assert TripleLe(sorted[i - 1], sorted[i]);
      assert j < i - 1 ==> TripleLe(t, sorted[i - 1]);
    }
  }

  /** The sum and the count of a group, as far as position i. */
  ghost predicate Collected(sorted: seq<Triple>, start: nat, i: nat, sum: real, n: nat) {
    && start <= i <= |sorted| && start < |sorted|
    && (forall j :: start <= j < i ==> KeyOf(sorted[j]) == KeyOf(sorted[start]))
    && sum == ConfSum(sorted[..i], KeyOf(sorted[start])) && n == Count(sorted[..i], KeyOf(sorted[start]))
  }

  lemma {:induction false} GroupIsNew(sorted: seq<Triple>, i: nat)
    requires InOrder(sorted) && i < |sorted| && sorted[i].caller != sorted[i].callee
    requires i > 0 ==> AtGroupStart(sorted, i)
    ensures Collected(sorted, i, i, 0.0, 0)
  {
    OrderIsSorted(sorted);
    GroupStart(sorted, i);
    NoOccurrence(sorted[..i], KeyOf(sorted[i]));
  }

  lemma {:induction false} ExtendGroup(sorted: seq<Triple>, start: nat, i: nat, sum: real, n: nat)
    requires Collected(sorted, start, i, sum, n) && i < |sorted| && KeyOf(sorted[i]) == KeyOf(sorted[start])
    ensures Collected(sorted, start, i + 1, sum + sorted[i].confidence, n + 1)
  {
    assert sorted[..i + 1][..i] == sorted[..i];
  }

  /** After the last triple of a group the pair does not come back. */
  lemma {:induction false} GroupEnd(sorted: seq<Triple>, start: nat, i: nat, sum: real, n: nat)
    requires InOrder(sorted) && start < i && Collected(sorted, start, i, sum, n)
    requires i < |sorted| ==> KeyOf(sorted[i]) != KeyOf(sorted[start])
    ensures sum == ConfSum(sorted, KeyOf(sorted[start])) && n == Count(sorted, KeyOf(sorted[start]))
    ensures forall j :: start <= j < i ==> KeyOf(sorted[j]) == KeyOf(sorted[start])
    ensures i < |sorted| ==> AtGroupStart(sorted, i)
  {
    OrderIsSorted(sorted);
    GroupStays(sorted, i, KeyOf(sorted[start]));
  }

  lemma {:induction false} GroupStays(sorted: seq<Triple>, i: nat, k: Key)
    requires SortedBy(TripleLe, sorted) && 0 < i <= |sorted|
    requires KeyOf(sorted[i - 1]) == k && (i < |sorted| ==> KeyOf(sorted[i]) != k)
    ensures Count(sorted, k) == Count(sorted[..i], k) && ConfSum(sorted, k) == ConfSum(sorted[..i], k)
  {
    KeyOrder();
    forall t | t in sorted[i..] ensures KeyOf(t) != k {
      var j :| i <= j < |sorted| && sorted[j] == t;
      assert TripleLe(sorted[i - 1], sorted[i]);
      assert i < j ==> TripleLe(sorted[i], t);
    }
    NoOccurrence(sorted[i..], k);
    assert sorted == sorted[..i] + sorted[i..];
    GroupOfConcat(sorted[..i], sorted[i..], k);
  }

  lemma {:induction false} ExtendBySelfLoop(sorted: seq<Triple>, i: nat)
    requires SortedBy(TripleLe, sorted) && i < |sorted| && sorted[i].caller == sorted[i].callee
    ensures 0 < i + 1 < |sorted| ==> AtGroupStart(sorted, i + 1)
    ensures forall k :: HasEdge(sorted[..i + 1], k) <==> HasEdge(sorted[..i], k)
  {
    assert sorted[..i + 1] == sorted[..i] + [sorted[i]];
  }

  /** The edges of g are right for the triples before position i. */
  ghost predicate GroupedUpTo(sqrt: nat -> real, ts: seq<Triple>, sorted: seq<Triple>, g: Graph, i: nat)
    requires i <= |sorted|
  {
    && Valid(g)
    && StrictBy(KeyLe, EdgeKeys(g))
    && (forall k :: k in EdgeKeys(g) <==> HasEdge(sorted[..i], k))
    && (forall j :: 0 <= j < |g.edges| ==> WeightIs(sqrt, ts, g, j))
  }

  lemma {:induction false} EndpointsOf(ts: seq<Triple>, sorted: seq<Triple>, i: nat)
    requires multiset(sorted) == multiset(ts) && i < |sorted| && sorted[i].caller != sorted[i].callee
    ensures Endpoint(ts, sorted[i].caller) && Endpoint(ts, sorted[i].callee)
  {
    SameMembers(ts, sorted);
    assert sorted[i] in ts;
  }

  lemma {:induction false} AddGroup(sqrt: nat -> real, ts: seq<Triple>, sorted: seq<Triple>, g: Graph, e: Edge,
                                    start: nat, i: nat)
    requires SortedBy(TripleLe, sorted) && start < i <= |sorted|
    requires sorted[start].caller != sorted[start].callee && (start > 0 ==> AtGroupStart(sorted, start))
    requires GroupedUpTo(sqrt, ts, sorted, g, start)
    requires forall j :: start <= j < i ==> KeyOf(sorted[j]) == KeyOf(sorted[start])
    requires e.src < |g.names| && e.dst < |g.names| && EdgeKey(g.names, e) == KeyOf(sorted[start])
    requires e.weight == AggregateWeight(sqrt, ConfSum(ts, KeyOf(sorted[start])), Count(ts, KeyOf(sorted[start])))
    ensures GroupedUpTo(sqrt, ts, sorted, Graph(g.names, g.edges + [e]), i)
  {
    var k := KeyOf(sorted[start]);
    AppendEdge(sqrt, ts, g, Graph(g.names, g.edges + [e]), k);
    ExtendByGroup(sorted, start, i, k);
    GroupStart(sorted, start);
    StrictAppend(EdgeKeys(g), k, sorted, start);
    forall q ensures q in EdgeKeys(g) + [k] <==> HasEdge(sorted[..i], q) {
    }
  }

  lemma {:induction false} ExtendByGroup(sorted: seq<Triple>, start: nat, i: nat, k: Key)
    requires start < i <= |sorted| && k.0 != k.1
    requires forall j :: start <= j < i ==> KeyOf(sorted[j]) == k
    ensures forall q :: HasEdge(sorted[..i], q) <==> HasEdge(sorted[..start], q) || q == k
  {
    forall q ensures HasEdge(sorted[..i], q) <==> HasEdge(sorted[..start], q) || q == k {
      assert sorted[..i] == sorted[..start] + sorted[start..i];
      assert sorted[start] in sorted[start..i];
    }
  }

  lemma {:induction false} AppendEdge(sqrt: nat -> real, ts: seq<Triple>, g: Graph, h: Graph, k: Key)
    requires Valid(g) && forall j :: 0 <= j < |g.edges| ==> WeightIs(sqrt, ts, g, j)
    requires h.names == g.names && |h.edges| == |g.edges| + 1 && h.edges[..|g.edges|] == g.edges
    requires var e := h.edges[|g.edges|];
             && e.src < |g.names| && e.dst < |g.names| && EdgeKey(g.names, e) == k
             && e.weight == AggregateWeight(sqrt, ConfSum(ts, k), Count(ts, k))
    ensures Valid(h) && EdgeKeys(h) == EdgeKeys(g) + [k]
    ensures forall j :: 0 <= j < |h.edges| ==> WeightIs(sqrt, ts, h, j)
  {
    assert h.edges == g.edges + [h.edges[|g.edges|]];
    forall j | 0 <= j < |h.edges| ensures WeightIs(sqrt, ts, h, j) {
      if j < |g.edges| {
        assert WeightIs(sqrt, ts, g, j);
      }
    }
  }

  lemma {:induction false} StrictAppend(keys: seq<Key>, k: Key, sorted: seq<Triple>, start: nat)
    requires StrictBy(KeyLe, keys) && start <= |sorted|
    requires forall q :: q in keys ==> HasEdge(sorted[..start], q)
    requires forall t :: t in sorted[..start] ==> KeyOf(t) != k && KeyLe(KeyOf(t), k)
    ensures StrictBy(KeyLe, keys + [k])
  {
    forall q | q in keys ensures q != k && KeyLe(q, k) {
      assert HasEdge(sorted[..start], q);
    }
    StrictSnoc(KeyLe, keys, k);
  }
}
