/** Teleport vectors (code-graph/src/rank.rs): uniform, and personalised on changed symbols. */
module Teleport {
  import opened RealSums
  import opened Vectors
  import opened Sorting
  import opened PageRank
  import opened CallGraph

  function Clamp(beta: real): real {
    if beta < 0.0 then 0.0 else if beta > 1.0 then 1.0 else beta
  }

  /** How many of the nodes are changed. */
  function Hits(nodes: seq<string>, changed: set<string>): nat {
    if nodes == [] then 0
    else Hits(nodes[..|nodes| - 1], changed) + (if nodes[|nodes| - 1] in changed then 1 else 0)
  }

  function PersonalWeight(n: nat, hits: nat, beta: real, hit: bool): real
    requires n > 0
  {
    (1.0 - beta) / n as real + (if hit && hits > 0 then beta / hits as real else 0.0)
  }

  ghost predicate IsPersonal(nodes: seq<string>, changed: set<string>, beta: real, tele: map<string, real>) {
    && (forall x :: x in tele <==> x in nodes)
    && (forall x :: x in tele ==>
          nodes != [] && tele[x] == PersonalWeight(|nodes|, Hits(nodes, changed), Clamp(beta), x in changed))
  }

  lemma {:induction false} HitsOfConcat(s: seq<string>, t: seq<string>, changed: set<string>)
    ensures Hits(s + t, changed) == Hits(s, changed) + Hits(t, changed)
  {
    if t == [] {
      assert s + t == s;
    } else {
      assert (s + t)[..|s + t| - 1] == s + t[..|t| - 1];
      HitsOfConcat(s, t[..|t| - 1], changed);
    }
  }

  lemma {:induction false} HitsOfPermutation(s: seq<string>, t: seq<string>, changed: set<string>)
    requires multiset(s) == multiset(t)
    ensures Hits(s, changed) == Hits(t, changed) && |s| == |t|
    decreases |s|
  {
    if s == [] {
      assert |multiset(t)| == 0;
    } else {
      var l, r := TakeOut(s, t);
      HitsOfPermutation(s[..|s| - 1], l + r, changed);
      HitsOfConcat(l + [s[|s| - 1]], r, changed);
      HitsOfConcat(l, [s[|s| - 1]], changed);
      HitsOfConcat(l, r, changed);
    }
  }

  method PersonalizeForChanged(nodes: seq<string>, changed: set<string>, beta: real)
    returns (tele: map<string, real>)
    ensures IsPersonal(nodes, changed, beta, tele)
  {
    var sorted := Sort(StringLe, nodes);
    SortPermutes(StringLe, nodes);
    SortMembers(StringLe, nodes);
    HitsOfPermutation(sorted, nodes, changed);
    var n := |sorted|;
    tele := map[];
    if n == 0 {
      return;
    }
    var hits := CountHits(sorted, changed);
    tele := FillWeights(sorted, changed, PersonalWeight(n, hits, Clamp(beta), true),
                        PersonalWeight(n, hits, Clamp(beta), false));
  }

  method CountHits(nodes: seq<string>, changed: set<string>) returns (hits: nat)
    ensures hits == Hits(nodes, changed)
  {
    hits := 0;
    for i := 0 to |nodes|
      invariant hits == Hits(nodes[..i], changed)
    {
      assert nodes[..i + 1][..i] == nodes[..i];
      if nodes[i] in changed {
        hits := hits + 1;
      }
    }
    assert nodes[..|nodes|] == nodes;
  }

  method FillWeights(nodes: seq<string>, changed: set<string>, hitWeight: real, missWeight: real)
    returns (tele: map<string, real>)
    ensures forall x :: x in tele <==> x in nodes
    ensures forall x :: x in tele ==> tele[x] == if x in changed then hitWeight else missWeight
  {
    tele := map[];
    for i := 0 to |nodes|
      invariant forall x :: x in tele <==> x in nodes[..i]
      invariant forall x :: x in tele ==> tele[x] == if x in changed then hitWeight else missWeight
    {
      tele := tele[nodes[i] := if nodes[i] in changed then hitWeight else missWeight];
    }
  }

  function UniformTeleport(g: Graph): (tele: map<string, real>)
    ensures forall x :: x in tele <==> x in g.names
    ensures forall x :: x in tele ==> tele[x] == 1.0
  {
    map x | x in g.names :: 1.0
  }

  function Wanted(names: seq<string>, teleport: map<string, real>): int -> real {
    i => if 0 <= i < |names| then (if names[i] in teleport then teleport[names[i]] else 0.0) else 0.0
  }

  /** Whatever map is given, a node's teleport share times the total of the map on the nodes is its own weight, 0 if
      the map does not name it; without a positive total all shares are the same. */
  lemma {:induction false} TeleExactly(names: seq<string>, teleport: map<string, real>, i: nat)
    requires i < |names|
    ensures var total := Sum(Wanted(names, teleport), |names|);
            && (total > 0.0 ==> Tele(names, teleport)[i] * total == Wanted(names, teleport)(i))
            && (total <= 0.0 ==> Tele(names, teleport)[i] == 1.0 / |names| as real)
  {
    SumExt(Wanted(names, teleport), TeleWeights(names, teleport), |names|);
    var total := Sum(TeleWeights(names, teleport), |names|);
    if total > 0.0 {
      TimesQuotient(total, TeleWeights(names, teleport)(i), Tele(names, teleport)[i]);
    }
  }

  /** The uniform map gives the uniform vector. */
  lemma {:induction false} UniformInUse(g: Graph)
    ensures |Tele(g.names, UniformTeleport(g))| == |g.names|
    ensures forall i :: 0 <= i < |g.names| ==> Tele(g.names, UniformTeleport(g))[i] == 1.0 / |g.names| as real
  {
    var n, weights := |g.names|, TeleWeights(g.names, UniformTeleport(g));
    forall i | 0 <= i < n ensures weights(i) == 1.0 {
      assert g.names[i] in g.names;
    }
    SumExt(weights, i => 1.0, n);
    SumConst(1.0, n);
    assert Sum(weights, n) == n as real;
  }

  // ----- the weights themselves -----

  ghost predicate IsClamped(beta: real, b: real) {
    if beta < 0.0 then b == 0.0 else if beta > 1.0 then b == 1.0 else b == beta
  }

  lemma {:induction false} HitsAreCounted(nodes: seq<string>, changed: set<string>)
    ensures Hits(nodes, changed) == |set i | 0 <= i < |nodes| && nodes[i] in changed|
  {
    if nodes != [] {
      var n := |nodes| - 1;
      HitsAreCounted(nodes[..n], changed);
      assert (set i | 0 <= i < |nodes| && nodes[i] in changed) ==
             (set i | 0 <= i < n && nodes[..n][i] in changed) + if nodes[n] in changed then {n} else {};
    }
  }

  /** Of n nodes with h changed ones, n times h times a weight is h times what beta leaves, and for a changed node n
      times beta on top; with none changed, n times a weight is what beta leaves. */
  lemma {:induction false} WeightsExactly(nodes: seq<string>, changed: set<string>, beta: real,
                                          tele: map<string, real>, x: string)
    requires IsPersonal(nodes, changed, beta, tele) && x in nodes
    ensures var n, h := |nodes| as real, |set i | 0 <= i < |nodes| && nodes[i] in changed| as real;
            x in tele && exists b :: IsClamped(beta, b) && Spread(n, h, b, x in changed, tele[x])
  {
    HitsAreCounted(nodes, changed);
    var b := Clamp(beta);
    assert IsClamped(beta, b);
    var h := Hits(nodes, changed);
    WeightSpreads(|nodes|, h, b, x in changed);
  }

  ghost predicate Spread(n: real, h: real, b: real, hit: bool, w: real) {
    if h == 0.0 then n * w == 1.0 - b else h * (n * w) == h * (1.0 - b) + if hit then n * b else 0.0
  }

  lemma {:induction false} WeightSpreads(n: nat, h: nat, b: real, hit: bool)
    requires n > 0
    ensures Spread(n as real, h as real, b, hit, PersonalWeight(n, h, b, hit))
  {
    var m, k := n as real, h as real;
    var p, q := (1.0 - b) / m, if h > 0 then b / k else 0.0;
    TimesQuotient(m, 1.0 - b, p);
    if h > 0 {
      TimesQuotient(k, b, q);
      if hit {
        TwoParts(m, k, p, q);
      }
    }
  }

  lemma {:induction false} TwoParts(m: real, k: real, p: real, q: real)
    ensures k * (m * (p + q)) == k * (m * p) + m * (k * q)
  {
    Distribute(m, p, q, p + q);
    Distribute(k, m * p, m * q, m * (p + q));
    assert k * (m * q) == m * (k * q);
  }

  // ----- what pagerank makes of a personalised map -----

  function HitShare(names: seq<string>, changed: set<string>, c: real): int -> real {
    i => if 0 <= i < |names| && names[i] in changed then c else 0.0
  }

  lemma {:induction false} HitShareSum(names: seq<string>, changed: set<string>, c: real, k: nat)
    requires k <= |names|
    ensures Sum(HitShare(names, changed, c), k) == Hits(names[..k], changed) as real * c
  {
    if k > 0 {
      HitShareSum(names, changed, c, k - 1);
      assert names[..k][..k - 1] == names[..k - 1];
      Distribute(c, Hits(names[..k - 1], changed) as real, if names[k - 1] in changed then 1.0 else 0.0,
                 Hits(names[..k], changed) as real);
    }
  }

  /** The personalised weights add up to 1, except that the changed mass is missing when no changed
      symbol is a node. */
  lemma {:induction false} PersonalTotal(names: seq<string>, nodes: seq<string>, changed: set<string>, beta: real,
                      tele: map<string, real>)
    requires names != [] && multiset(nodes) == multiset(names) && IsPersonal(nodes, changed, beta, tele)
    ensures Sum(TeleWeights(names, tele), |names|)
         == if Hits(nodes, changed) > 0 then 1.0 else 1.0 - Clamp(beta)
    ensures forall i :: 0 <= i < |names| ==> names[i] in tele && tele[names[i]] >= 0.0
  {
    var n, h, b := |names|, Hits(nodes, changed), Clamp(beta);
    HitsOfPermutation(nodes, names, changed);
    var base, c := (1.0 - b) / n as real, if h > 0 then b / h as real else 0.0;
    forall i | 0 <= i < n
      ensures names[i] in tele && tele[names[i]] >= 0.0
      ensures TeleWeights(names, tele)(i) == Constant(base)(i) + HitShare(names, changed, c)(i)
    {
      WeightOf(names, nodes, changed, beta, tele, i, base, c);
    }
    SumAdd(Constant(base), HitShare(names, changed, c), TeleWeights(names, tele), n);
    BaseTotal(n, 1.0 - b, base);
    HitTotal(names, changed, h, b, c);
  }

  function Constant(c: real): int -> real {
    i => c
  }

  lemma {:induction false} WeightOf(names: seq<string>, nodes: seq<string>, changed: set<string>, beta: real,
                                    tele: map<string, real>,
                 i: nat, base: real, c: real)
    requires i < |names| && multiset(nodes) == multiset(names) && |nodes| == |names|
    requires IsPersonal(nodes, changed, beta, tele)
    requires base == (1.0 - Clamp(beta)) / |names| as real
    requires c == if Hits(nodes, changed) > 0 then Clamp(beta) / Hits(nodes, changed) as real else 0.0
    ensures names[i] in tele && tele[names[i]] >= 0.0
    ensures tele[names[i]] == base + (if names[i] in changed then c else 0.0)
  {
    assert names[i] in multiset(names);
    assert names[i] in nodes;
    WeightParts(|names|, Hits(nodes, changed), Clamp(beta), names[i] in changed, base, c);
  }

  lemma {:induction false} WeightParts(n: nat, h: nat, b: real, hit: bool, base: real, c: real)
    requires n > 0 && 0.0 <= b <= 1.0
    requires base == (1.0 - b) / n as real && c == if h > 0 then b / h as real else 0.0
    ensures PersonalWeight(n, h, b, hit) == base + (if hit then c else 0.0) >= 0.0
  {
  }

  lemma {:induction false} BaseTotal(n: nat, total: real, base: real)
    requires n > 0 && base == total / n as real
    ensures Sum(Constant(base), n) == total
  {
    SumConst(base, n);
    SumExt(Constant(base), i => base, n);
    TimesQuotient(n as real, total, base);
  }

  lemma {:induction false} HitTotal(names: seq<string>, changed: set<string>, h: nat, total: real, c: real)
    requires h == Hits(names, changed) && c == if h > 0 then total / h as real else 0.0
    ensures Sum(HitShare(names, changed, c), |names|) == if h > 0 then total else 0.0
  {
    assert names[..|names|] == names;
    HitShareSum(names, changed, c, |names|);
    if h > 0 {
      TimesQuotient(h as real, total, c);
    }
  }

  lemma {:induction false} TimesQuotient(n: real, a: real, q: real)
    requires n > 0.0 && q == a / n
    ensures n * q == a
  {
  }

  lemma {:induction false} DivByOne(a: real, b: real)
    requires b == 1.0
    ensures a / b == a
  {
  }

  lemma {:induction false} Regroup(u: real, n: real, q: real, a: real)
    requires n * u == 1.0 && n * q == a
    ensures q == a * u
  {
    assert (n * u) * q == (n * q) * u;
  }

  lemma {:induction false} ProductOver(s: real, u: real, q: real)
    requires s > 0.0 && q == s * u
    ensures q / s == u
  {
  }

  lemma {:induction false} EqualQuotient(a: real, n: real, s: real)
    requires n > 0.0 && s == a && a > 0.0
    ensures (a / n) / s == 1.0 / n
  {
    var q, u := a / n, 1.0 / n;
    TimesQuotient(n, a, q);
    TimesQuotient(n, 1.0, u);
    Regroup(u, n, q, a);
    ProductOver(s, u, q);
  }

  /** For any beta and any set of changed symbols, `pagerank` works with a distribution: the
      personalised weights themselves when some changed symbol is a node, exactly the uniform one
      otherwise (also for beta = 1, where the map alone is all zeros). */
  lemma {:induction false} TeleInUse(names: seq<string>, nodes: seq<string>, changed: set<string>, beta: real,
                                     tele: map<string, real>)
    requires names != [] && multiset(nodes) == multiset(names) && IsPersonal(nodes, changed, beta, tele)
    ensures Distribution(Tele(names, tele))
    ensures forall i :: 0 <= i < |names| ==>
              names[i] in tele &&
              Tele(names, tele)[i] == if Hits(nodes, changed) > 0 then tele[names[i]] else 1.0 / |names| as real
  {
    PersonalTotal(names, nodes, changed, beta, tele);
    forall s | s in tele ensures tele[s] >= 0.0 {
      assert s in multiset(nodes);
      assert s in names;
    }
    TeleIsDistribution(names, tele);
    var sum, h := Sum(TeleWeights(names, tele), |names|), Hits(nodes, changed);
    forall i | 0 <= i < |names|
      ensures names[i] in tele && Tele(names, tele)[i] == if h > 0 then tele[names[i]] else 1.0 / |names| as real
    {
      if h > 0 {
        DivByOne(tele[names[i]], sum);
      } else if sum > 0.0 {
        HitsOfPermutation(nodes, names, changed);
        NoHit(names, changed, i);
        EqualQuotient(1.0 - Clamp(beta), |names| as real, sum);
      }
    }
  }

  lemma {:induction false} NoHit(names: seq<string>, changed: set<string>, i: nat)
    requires Hits(names, changed) == 0 && i < |names|
    ensures names[i] !in changed
  {
    if i < |names| - 1 {
      NoHit(names[..|names| - 1], changed, i);
    }
  }

  /** The personalised map alone is all zeros exactly when no changed symbol is a node and beta is at
      least 1: the promise of a never-zero distribution is kept by `pagerank`, not by the map. */
  lemma {:induction false} ZeroMap(nodes: seq<string>, changed: set<string>, beta: real, tele: map<string, real>)
    requires nodes != [] && IsPersonal(nodes, changed, beta, tele)
    ensures (forall x :: x in tele ==> tele[x] == 0.0) <==> Hits(nodes, changed) == 0 && beta >= 1.0
  {
    PersonalTotal(nodes, nodes, changed, beta, tele);
    var n := |nodes|;
    if forall x :: x in tele ==> tele[x] == 0.0 {
      SumExt(TeleWeights(nodes, tele), i => 0.0, n);
      SumConst(0.0, n);
    }
    NoWeight(n, true);
    NoWeight(n, false);
  }

  lemma {:induction false} NoWeight(n: nat, hit: bool)
    requires n > 0
    ensures PersonalWeight(n, 0, 1.0, hit) == 0.0
  {
  }
}
