/** Model of `edit_distance` and `suggest_similar` (code-graph/src/confidence.rs). */
module EditDistance {
  import opened Sorting

  // ----- edit scripts -----

  datatype Edit = Keep | Substitute(c: char) | Insert(c: char) | Delete

  /** Where a script stands: how much of the source is consumed, and what has been written. */
  datatype Progress = Stuck | At(consumed: nat, written: string)

  function Cost(e: Edit): nat {
    if e.Keep? then 0 else 1
  }

  function ScriptCost(script: seq<Edit>): nat {
    if script == [] then 0 else ScriptCost(script[..|script| - 1]) + Cost(script[|script| - 1])
  }

  function Apply(a: string, p: Progress, e: Edit): Progress {
    match p
    case Stuck => Stuck
    case At(i, out) =>
      match e
      case Insert(c) => At(i, out + [c])
      case Keep => if i < |a| then At(i + 1, out + [a[i]]) else Stuck
      case Substitute(c) => if i < |a| then At(i + 1, out + [c]) else Stuck
      case Delete => if i < |a| then At(i + 1, out) else Stuck
  }

  /** Run a script from left to right over a. */
  function Run(a: string, script: seq<Edit>): Progress {
    if script == [] then At(0, "") else Apply(a, Run(a, script[..|script| - 1]), script[|script| - 1])
  }

  ghost predicate Rewrites(a: string, b: string, script: seq<Edit>) {
    Run(a, script) == At(|a|, b)
  }

  /** d is the least cost of a script that turns a into b. */
  ghost predicate IsMinimumCost(a: string, b: string, d: nat) {
    && (exists script :: Rewrites(a, b, script) && ScriptCost(script) == d)
    && (forall script :: Rewrites(a, b, script) ==> d <= ScriptCost(script))
  }

  // ----- the recurrence -----

  function Min(x: nat, y: nat): nat {
    if y < x then y else x
  }

  function Differ(x: char, y: char): nat {
    if x != y then 1 else 0
  }

  /** The recurrence between the first i characters of a and the first j of b. */
  function Lev(a: string, b: string, i: nat, j: nat): nat
    requires i <= |a| && j <= |b|
  {
    if i == 0 then j
    else if j == 0 then i
    else Min(Min(Lev(a, b, i - 1, j - 1) + Differ(a[i - 1], b[j - 1]), Lev(a, b, i - 1, j) + 1),
             Lev(a, b, i, j - 1) + 1)
  }

  function Distance(a: string, b: string): nat {
    Lev(a, b, |a|, |b|)
  }

  // ----- the recurrence is the minimum over all scripts -----

  lemma {:induction false} Extend(a: string, script: seq<Edit>, e: Edit)
    ensures Run(a, script + [e]) == Apply(a, Run(a, script), e)
    ensures ScriptCost(script + [e]) == ScriptCost(script) + Cost(e)
  {
    assert (script + [e])[..|script|] == script;
  }

  ghost predicate Reaches(a: string, b: string, script: seq<Edit>, i: nat, j: nat, cost: nat)
    requires j <= |b|
  {
    Run(a, script) == At(i, b[..j]) && ScriptCost(script) == cost
  }

  lemma {:induction false} ThenInsert(a: string, b: string, script: seq<Edit>, i: nat, j: nat, cost: nat)
    requires j < |b| && Reaches(a, b, script, i, j, cost)
    ensures Reaches(a, b, script + [Insert(b[j])], i, j + 1, cost + 1)
  {
    Extend(a, script, Insert(b[j]));
    assert b[..j + 1] == b[..j] + [b[j]];
  }

  lemma {:induction false} ThenDelete(a: string, b: string, script: seq<Edit>, i: nat, j: nat, cost: nat)
    requires i < |a| && j <= |b| && Reaches(a, b, script, i, j, cost)
    ensures Reaches(a, b, script + [Delete], i + 1, j, cost + 1)
  {
    Extend(a, script, Delete);
  }

  function Align(x: char, y: char): Edit {
    if x == y then Keep else Substitute(y)
  }

  lemma {:induction false} ThenAlign(a: string, b: string, script: seq<Edit>, i: nat, j: nat, cost: nat)
    requires i < |a| && j < |b| && Reaches(a, b, script, i, j, cost)
    ensures Reaches(a, b, script + [Align(a[i], b[j])], i + 1, j + 1, cost + Differ(a[i], b[j]))
  {
    Extend(a, script, Align(a[i], b[j]));
    assert b[..j + 1] == b[..j] + [b[j]];
  }

  /** A script that reaches the recurrence's value. */
  lemma {:induction false} BestScript(a: string, b: string, i: nat, j: nat) returns (script: seq<Edit>)
    requires i <= |a| && j <= |b|
    ensures Reaches(a, b, script, i, j, Lev(a, b, i, j))
    decreases i + j
  {
    if i == 0 && j == 0 {
      script := [];
    } else if i == 0 || (j > 0 && Lev(a, b, i, j) == Lev(a, b, i, j - 1) + 1) {
      var front := BestScript(a, b, i, j - 1);
      ThenInsert(a, b, front, i, j - 1, Lev(a, b, i, j - 1));
      script := front + [Insert(b[j - 1])];
    } else if j == 0 || Lev(a, b, i, j) == Lev(a, b, i - 1, j) + 1 {
      var front := BestScript(a, b, i - 1, j);
      ThenDelete(a, b, front, i - 1, j, Lev(a, b, i - 1, j));
      script := front + [Delete];
    } else {
      var front := BestScript(a, b, i - 1, j - 1);
      ThenAlign(a, b, front, i - 1, j - 1, Lev(a, b, i - 1, j - 1));
      script := front + [Align(a[i - 1], b[j - 1])];
    }
  }

  /** One more character on either side costs at most one more edit. */
  lemma {:induction false} LevSteps(a: string, b: string, i: nat, j: nat)
    requires i <= |a| && j <= |b|
    ensures i > 0 ==> Lev(a, b, i, j) <= Lev(a, b, i - 1, j) + 1
    ensures j > 0 ==> Lev(a, b, i, j) <= Lev(a, b, i, j - 1) + 1
  {
  }

  /** Lev looks at the prefixes only. */
  lemma {:induction false} LevPrefix(a: string, b: string, b': string, i: nat, j: nat)
    requires i <= |a| && j <= |b| && j <= |b'| && b[..j] == b'[..j]
    ensures Lev(a, b, i, j) == Lev(a, b', i, j)
    decreases i + j
  {
    if i > 0 && j > 0 {
      assert b[j - 1] == b[..j][j - 1] == b'[..j][j - 1] == b'[j - 1];
      assert b[..j - 1] == b[..j][..j - 1] == b'[..j][..j - 1] == b'[..j - 1];
      LevPrefix(a, b, b', i - 1, j - 1);
      LevPrefix(a, b, b', i - 1, j);
      LevPrefix(a, b, b', i, j - 1);
    }
  }

  ghost predicate Affordable(a: string, p: Progress, cost: nat) {
    p.At? ==> p.consumed <= |a| && Lev(a, p.written, p.consumed, |p.written|) <= cost
  }

  lemma {:induction false} OneEdit(a: string, i: nat, out: string, e: Edit, cost: nat)
    requires Affordable(a, At(i, out), cost)
    ensures Affordable(a, Apply(a, At(i, out), e), cost + Cost(e))
  {
    match e
    case Insert(c) => InsertOne(a, i, out, c, cost);
    case Keep =>
      if i < |a| {
        AlignOne(a, i, out, a[i], cost, cost);
      }
    case Substitute(c) =>
      if i < |a| {
        AlignOne(a, i, out, c, cost, cost + 1);
      }
    case Delete =>
      if i < |a| {
        DeleteOne(a, i, out, cost);
      }
  }

  lemma {:induction false} InsertOne(a: string, i: nat, out: string, c: char, cost: nat)
    requires Affordable(a, At(i, out), cost)
    ensures Affordable(a, At(i, out + [c]), cost + 1)
  {
    Appended(a, i, out, c);
    LevSteps(a, out + [c], i, |out| + 1);
  }

  lemma {:induction false} AlignOne(a: string, i: nat, out: string, c: char, cost: nat, cost': nat)
    requires Affordable(a, At(i, out), cost) && i < |a| && cost + Differ(a[i], c) <= cost'
    ensures Affordable(a, At(i + 1, out + [c]), cost')
  {
    Appended(a, i, out, c);
    LevLast(a, out + [c], i + 1, |out| + 1);
  }

  lemma {:induction false} DeleteOne(a: string, i: nat, out: string, cost: nat)
    requires Affordable(a, At(i, out), cost) && i < |a|
    ensures Affordable(a, At(i + 1, out), cost + 1)
  {
    LevSteps(a, out, i + 1, |out|);
  }

  /** Aligning two last characters is one way to go. */
  lemma {:induction false} LevLast(a: string, b: string, i: nat, j: nat)
    requires 0 < i <= |a| && 0 < j <= |b|
    ensures Lev(a, b, i, j) <= Lev(a, b, i - 1, j - 1) + Differ(a[i - 1], b[j - 1])
  {
  }

  lemma {:induction false} Appended(a: string, i: nat, out: string, c: char)
    requires i <= |a|
    ensures Lev(a, out + [c], i, |out|) == Lev(a, out, i, |out|)
  {
    assert (out + [c])[..|out|] == out[..|out|];
    LevPrefix(a, out + [c], out, i, |out|);
  }

  /** No script is cheaper than the recurrence. */
  lemma {:induction false} NoCheaperScript(a: string, script: seq<Edit>)
    ensures Affordable(a, Run(a, script), ScriptCost(script))
  {
    if script != [] {
      var front := script[..|script| - 1];
      NoCheaperScript(a, front);
      var p := Run(a, front);
      if p.At? {
        OneEdit(a, p.consumed, p.written, script[|script| - 1], ScriptCost(front));
      }
    }
  }

  /** The recurrence is the minimum over all scripts. */
  lemma {:induction false} DistanceIsMinimum(a: string, b: string)
    ensures IsMinimumCost(a, b, Distance(a, b))
  {
    var best := BestScript(a, b, |a|, |b|);
    assert b[..|b|] == b;
    assert Rewrites(a, b, best);
    forall script | Rewrites(a, b, script) ensures Distance(a, b) <= ScriptCost(script) {
      NoCheaperScript(a, script);
    }
  }

  // ----- the distance is a metric -----

  /** Distances between prefixes as a table. The triangle inequality and the symmetry follow from the
      recurrence alone, so they are proved of any table that meets it. */
  type Table = (nat, nat) -> nat

  /** The three entries a new one is made from. */
  datatype Corner = Corner(diag: nat, up: nat, left: nat)

  function Next(c: Corner, differ: nat): nat {
    Min(Min(c.diag + differ, c.up + 1), c.left + 1)
  }

  function CornerOf(t: Table, i: nat, j: nat): Corner
    requires i > 0 && j > 0
  {
    Corner(t(i - 1, j - 1), t(i - 1, j), t(i, j - 1))
  }

  ghost predicate Cell(t: Table, a: string, b: string, i: nat, j: nat) {
    i <= |a| && j <= |b| ==>
      t(i, j) == if i == 0 then j else if j == 0 then i else Next(CornerOf(t, i, j), Differ(a[i - 1], b[j - 1]))
  }

  ghost predicate Recurs(t: Table, a: string, b: string) {
    forall i: nat, j: nat :: Cell(t, a, b, i, j)
  }

  function LevTable(a: string, b: string): Table {
    (i: nat, j: nat) => if i <= |a| && j <= |b| then Lev(a, b, i, j) else 0
  }

  lemma {:induction false} LevRecurs(a: string, b: string)
    ensures Recurs(LevTable(a, b), a, b)
  {
    forall i: nat, j: nat ensures Cell(LevTable(a, b), a, b, i, j) {
    }
  }

  lemma {:induction false} TableSymmetric(t: Table, u: Table, a: string, b: string, i: nat, j: nat)
    requires Recurs(t, a, b) && Recurs(u, b, a) && i <= |a| && j <= |b|
    ensures t(i, j) == u(j, i)
    decreases i + j
  {
    assert Cell(t, a, b, i, j) && Cell(u, b, a, j, i);
    if i > 0 && j > 0 {
      TableSymmetric(t, u, a, b, i - 1, j - 1);
      TableSymmetric(t, u, a, b, i - 1, j);
      TableSymmetric(t, u, a, b, i, j - 1);
    }
  }

  /** Lengths differ by at most the distance, which is at most their sum. */
  lemma {:induction false} TableLength(t: Table, a: string, b: string, i: nat, j: nat)
    requires Recurs(t, a, b) && i <= |a| && j <= |b|
    ensures i <= j + t(i, j) && j <= i + t(i, j) && t(i, j) <= i + j
    decreases i + j
  {
    assert Cell(t, a, b, i, j);
    if i > 0 && j > 0 {
      TableLength(t, a, b, i - 1, j - 1);
      TableLength(t, a, b, i - 1, j);
      TableLength(t, a, b, i, j - 1);
    }
  }

  lemma {:induction false} TableTriangle(ab: Table, bc: Table, ac: Table, a: string, b: string, c: string,
                                         i: nat, j: nat, k: nat)
    requires Recurs(ab, a, b) && Recurs(bc, b, c) && Recurs(ac, a, c)
    requires i <= |a| && j <= |b| && k <= |c|
    ensures ac(i, k) <= ab(i, j) + bc(j, k)
    decreases i + j + k
  {
    assert Cell(ab, a, b, i, j) && Cell(bc, b, c, j, k) && Cell(ac, a, c, i, k);
    if i == 0 || j == 0 || k == 0 {
      TableLength(ab, a, b, i, j);
      TableLength(bc, b, c, j, k);
      TableLength(ac, a, c, i, k);
    } else {
      TableTriangle(ab, bc, ac, a, b, c, i - 1, j, k);
      TableTriangle(ab, bc, ac, a, b, c, i, j, k - 1);
      TableTriangle(ab, bc, ac, a, b, c, i, j - 1, k);
      TableTriangle(ab, bc, ac, a, b, c, i - 1, j - 1, k);
      TableTriangle(ab, bc, ac, a, b, c, i, j - 1, k - 1);
      TableTriangle(ab, bc, ac, a, b, c, i - 1, j - 1, k - 1);
      CornerTriangle(CornerOf(ab, i, j), CornerOf(bc, j, k), CornerOf(ac, i, k),
                     Differ(a[i - 1], b[j - 1]), Differ(b[j - 1], c[k - 1]), Differ(a[i - 1], c[k - 1]));
    }
  }

  /** One step of the triangle inequality, over all the ways the two new entries can arise. */
  lemma {:induction false} CornerTriangle(ab: Corner, bc: Corner, ac: Corner, xy: nat, yz: nat, xz: nat)
    requires xz <= xy + yz
    requires ac.up <= ab.up + Next(bc, yz) && ac.left <= Next(ab, xy) + bc.left
    requires Next(ac, xz) <= ab.left + bc.up
    requires ac.up <= ab.diag + bc.up && ac.left <= ab.left + bc.diag && ac.diag <= ab.diag + bc.diag
    ensures Next(ac, xz) <= Next(ab, xy) + Next(bc, yz)
  {
  }

  /** The triangle inequality on all triples of prefixes. */
  lemma {:induction false} LevTriangle(a: string, b: string, c: string, i: nat, j: nat, k: nat)
    requires i <= |a| && j <= |b| && k <= |c|
    ensures Lev(a, c, i, k) <= Lev(a, b, i, j) + Lev(b, c, j, k)
  {
    LevRecurs(a, b);
    LevRecurs(b, c);
    LevRecurs(a, c);
    TableTriangle(LevTable(a, b), LevTable(b, c), LevTable(a, c), a, b, c, i, j, k);
  }

  lemma {:induction false} LevSymmetric(a: string, b: string, i: nat, j: nat)
    requires i <= |a| && j <= |b|
    ensures Lev(a, b, i, j) == Lev(b, a, j, i)
  {
    LevRecurs(a, b);
    LevRecurs(b, a);
    TableSymmetric(LevTable(a, b), LevTable(b, a), a, b, i, j);
  }

  lemma {:induction false} LevZero(a: string, b: string, i: nat, j: nat)
    requires i <= |a| && j <= |b|
    ensures Lev(a, b, i, j) == 0 <==> a[..i] == b[..j]
    decreases i + j
  {
    if i > 0 && j > 0 {
      LevZero(a, b, i - 1, j - 1);
      assert a[..i] == a[..i - 1] + [a[i - 1]] && b[..j] == b[..j - 1] + [b[j - 1]];
    }
  }

  /** The distance is a metric on strings. */
  lemma {:induction false} DistanceIsMetric(a: string, b: string, c: string)
    ensures Distance(a, b) == 0 <==> a == b
    ensures Distance(a, b) == Distance(b, a)
    ensures Distance(a, c) <= Distance(a, b) + Distance(b, c)
  {
    assert a[..|a|] == a && b[..|b|] == b;
    LevZero(a, b, |a|, |b|);
    LevSymmetric(a, b, |a|, |b|);
    LevTriangle(a, b, c, |a|, |b|, |c|);
  }

  // ----- the two-row program -----

  method ComputeDistance(a: string, b: string) returns (d: nat)
    ensures IsMinimumCost(a, b, d)
    ensures d == Distance(a, b)
  {
    DistanceIsMinimum(a, b);
    if a == [] {
      return |b|;
    }
    if b == [] {
      return |a|;
    }
    var prev := new nat[|b| + 1](j => j);
    var curr := new nat[|b| + 1](_ => 0);
    for i := 0 to |a|
      invariant prev.Length == curr.Length == |b| + 1 && prev != curr && fresh(prev) && fresh(curr)
      invariant forall j :: 0 <= j <= |b| ==> prev[j] == Lev(a, b, i, j)
    {
      FillRow(a, b, i, prev, curr);
      prev, curr := curr, prev;
    }
    d := prev[|b|];
  }

  /** The inner loop: row i + 1 from row i. */
  method FillRow(a: string, b: string, i: nat, prev: array<nat>, curr: array<nat>)
    requires i < |a| && prev.Length == curr.Length == |b| + 1 && prev != curr
    requires forall k :: 0 <= k <= |b| ==> prev[k] == Lev(a, b, i, k)
    modifies curr
    ensures forall k :: 0 <= k <= |b| ==> curr[k] == Lev(a, b, i + 1, k)
  {
    curr[0] := i + 1;
    for j := 0 to |b|
      invariant forall k :: 0 <= k <= j ==> curr[k] == Lev(a, b, i + 1, k)
    {
      curr[j + 1] := Min(Min(prev[j] + Differ(a[i], b[j]), prev[j + 1] + 1), curr[j] + 1);
    }
  }

  // ----- did-you-mean -----

  /** Length of a character in UTF-8. */
  function Utf8Length(c: char): nat {
    if c as int < 0x80 then 1 else if c as int < 0x800 then 2 else if c as int < 0x1_0000 then 3 else 4
  }

  function ByteLength(s: string): (n: nat)
    ensures n >= |s|
  {
    if s == [] then 0 else ByteLength(s[..|s| - 1]) + Utf8Length(s[|s| - 1])
  }

  /** Similarity above 0.8, relative to the longer byte length; never between empty names. */
  predicate Similar(name: string, candidate: string) {
    var len := if ByteLength(candidate) > ByteLength(name) then ByteLength(candidate) else ByteLength(name);
    len != 0 && 1.0 - Distance(name, candidate) as real / len as real > 0.8
  }

  type Scored = (nat, string)

  predicate ScoredLe(x: Scored, y: Scored) {
    x.0 <= y.0
  }

  /** The similar candidates with their distances, in the order of the pool. */
  function Qualifying(name: string, candidates: seq<string>): seq<Scored> {
    if candidates == [] then []
    else
      var front, c := Qualifying(name, candidates[..|candidates| - 1]), candidates[|candidates| - 1];
      if Similar(name, c) then front + [(Distance(name, c), c)] else front
  }

  function Names(scored: seq<Scored>): (names: seq<string>)
    ensures |names| == |scored|
    ensures forall i :: 0 <= i < |names| ==> names[i] == scored[i].1
  {
    seq(|scored|, i requires 0 <= i < |scored| => scored[i].1)
  }

  function Ranked(name: string, candidates: seq<string>): seq<Scored> {
    Sort(ScoredLe, Qualifying(name, candidates))
  }

  function Suggestions(name: string, candidates: seq<string>, max: nat): seq<string> {
    var names := Names(Ranked(name, candidates));
    if |names| <= max then names else names[..max]
  }

  lemma {:induction false} QualifyingMembers(name: string, candidates: seq<string>)
    ensures forall x :: x in Qualifying(name, candidates) <==>
              x.1 in candidates && Similar(name, x.1) && x.0 == Distance(name, x.1)
  {
    if candidates != [] {
      var front := candidates[..|candidates| - 1];
      assert candidates == front + [candidates[|candidates| - 1]];
      QualifyingMembers(name, front);
    }
  }

  /** A candidate is similar exactly when less than a fifth of the longer name, in bytes, has to be edited. */
  lemma {:induction false} SimilarExactly(name: string, candidate: string)
    ensures Similar(name, candidate) <==>
            5 * Distance(name, candidate) < ByteLength(name) || 5 * Distance(name, candidate) < ByteLength(candidate)
  {
    var len := if ByteLength(candidate) > ByteLength(name) then ByteLength(candidate) else ByteLength(name);
    if len > 0 {
      FifthOf(Distance(name, candidate) as real, len as real);
    }
  }

  lemma {:induction false} FifthOf(d: real, len: real)
    requires len > 0.0
    ensures 1.0 - d / len > 0.8 <==> 5.0 * d < len
  {
    var q := d / len;
    assert q * len == d;
  }

  /** Names of ASCII characters have as many bytes as characters; none has more than four times as many. */
  lemma {:induction false} BytesOf(s: string)
    ensures |s| <= ByteLength(s) <= 4 * |s|
    ensures ByteLength(s) == |s| <==> forall i :: 0 <= i < |s| ==> s[i] as int < 0x80
  {
    if s != [] {
      var front := s[..|s| - 1];
      BytesOf(front);
      assert forall i :: 0 <= i < |front| ==> front[i] == s[i];
    }
  }

  /** Every similar candidate is ranked as often as the pool has it. */
  lemma {:induction false} QualifyingCounts(name: string, candidates: seq<string>, c: string)
    ensures multiset(Ranked(name, candidates))[(Distance(name, c), c)] ==
            if Similar(name, c) then multiset(candidates)[c] else 0
  {
    SortPermutes(ScoredLe, Qualifying(name, candidates));
    PoolCounts(name, candidates, c);
  }

  lemma {:induction false} PoolCounts(name: string, candidates: seq<string>, c: string)
    ensures multiset(Qualifying(name, candidates))[(Distance(name, c), c)] ==
            if Similar(name, c) then multiset(candidates)[c] else 0
  {
    if candidates != [] {
      var front, last := candidates[..|candidates| - 1], candidates[|candidates| - 1];
      PoolCounts(name, front, c);
      assert candidates == front + [last];
    }
  }

  lemma {:induction false} ScoredOrder()
    ensures TotalPreorder(ScoredLe)
  {
  }

  lemma {:induction false} RankedFacts(name: string, candidates: seq<string>)
    ensures SortedBy(ScoredLe, Ranked(name, candidates))
    ensures forall x :: x in Ranked(name, candidates) <==>
              x.1 in candidates && Similar(name, x.1) && x.0 == Distance(name, x.1)
  {
    ScoredOrder();
    QualifyingMembers(name, candidates);
    SortSorts(ScoredLe, Qualifying(name, candidates));
    SortMembers(ScoredLe, Qualifying(name, candidates));
  }

  /** Candidates at the same distance are ranked in the order of the pool. */
  lemma {:induction false} TiesKeepOrder(name: string, candidates: seq<string>, tie: Scored)
    ensures Ties(ScoredLe, tie, Ranked(name, candidates)) == Ties(ScoredLe, tie, Qualifying(name, candidates))
  {
    ScoredOrder();
    SortStable(ScoredLe, tie, Qualifying(name, candidates));
  }

  /** Every suggestion is a similar candidate, distances never decrease, and no similar candidate that
      was left out is nearer than one that was kept; the list is short only if nothing was left out. */
  lemma {:induction false} SuggestionsAreNearest(name: string, candidates: seq<string>, max: nat)
    ensures var out := Suggestions(name, candidates, max);
            && |out| <= max
            && (forall i :: 0 <= i < |out| ==> out[i] in candidates && Similar(name, out[i]))
            && (forall i, j :: 0 <= i < j < |out| ==> Distance(name, out[i]) <= Distance(name, out[j]))
            && (forall c, i :: c in candidates && Similar(name, c) && c !in out && 0 <= i < |out| ==>
                  Distance(name, out[i]) <= Distance(name, c))
            && (forall c :: c in candidates && Similar(name, c) && c !in out ==> |out| == max)
  {
    var ranked, out := Ranked(name, candidates), Suggestions(name, candidates, max);
    RankedFacts(name, candidates);
    forall i | 0 <= i < |out|
      ensures out[i] in candidates && Similar(name, out[i]) && ranked[i] == (Distance(name, out[i]), out[i])
    {
      assert ranked[i] in ranked;
    }
    forall c | c in candidates && Similar(name, c) && c !in out
      ensures |out| == max && forall i :: 0 <= i < |out| ==> Distance(name, out[i]) <= Distance(name, c)
    {
      assert (Distance(name, c), c) in ranked;
      var k :| 0 <= k < |ranked| && ranked[k] == (Distance(name, c), c);
      assert forall i :: 0 <= i < |out| ==> out[i] in out && ranked[i].1 != c;
      forall i | 0 <= i < |out| ensures Distance(name, out[i]) <= Distance(name, c) {
        assert ScoredLe(ranked[i], ranked[k]);
      }
    }
  }

  /** An exact match of a non-empty name always comes first. */
  lemma {:induction false} ExactMatchFirst(name: string, candidates: seq<string>, max: nat)
    requires name != "" && name in candidates && max >= 1
    ensures var out := Suggestions(name, candidates, max); out != [] && out[0] == name
  {
    var ranked := Ranked(name, candidates);
    DistanceIsMetric(name, name, name);
    RankedFacts(name, candidates);
    assert Similar(name, name);
    assert (0, name) in ranked;
    var k :| 0 <= k < |ranked| && ranked[k] == (0, name);
    assert k > 0 ==> ScoredLe(ranked[0], ranked[k]);
    assert ranked[0] in ranked;
    DistanceIsMetric(name, ranked[0].1, name);
  }

  method SuggestSimilar(name: string, candidates: seq<string>, max: nat) returns (out: seq<string>)
    ensures out == Suggestions(name, candidates, max)
  {
    if max == 0 || candidates == [] {
      return [];
    }
    var scored: seq<Scored> := [];
    for i := 0 to |candidates|
      invariant scored == Qualifying(name, candidates[..i])
    {
      assert candidates[..i + 1][..i] == candidates[..i];
      var dist := ComputeDistance(name, candidates[i]);
      var nameLen, candidateLen := ByteLength(name), ByteLength(candidates[i]);
      var len := if candidateLen > nameLen then candidateLen else nameLen;
      if len != 0 && 1.0 - dist as real / len as real > 0.8 {
        scored := scored + [(dist, candidates[i])];
      }
    }
    assert candidates[..|candidates|] == candidates;
    scored := Sort(ScoredLe, scored);
    out := Names(scored);
    if |out| > max {
      out := out[..max];
    }
  }
}
