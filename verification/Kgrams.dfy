/** Model of `kgrams_for` and `minhash_for` (code-graph/src/fingerprint.rs), the hash being a function. */
module Kgrams {
  import opened SyntaxTree
  import opened Fingerprint
  import Shape
  import Sorting

  // ----- windows -----

  /** All windows of three tokens, or the whole list if it is shorter; none of an empty list. */
  function Windows(tokens: seq<string>): seq<seq<string>> {
    if tokens == [] then []
    else if |tokens| < 3 then [tokens]
    else seq(|tokens| - 2, i requires 0 <= i < |tokens| - 2 => tokens[i..i + 3])
  }

  type Hash = seq<string> -> string

  type Counts = map<string, nat>

  function CountOf(counts: Counts, key: string): nat {
    if key in counts then counts[key] else 0
  }

  function CountIn(counts: Counts, key: string): Counts {
    counts[key := CountOf(counts, key) + 1]
  }

  function Tally(windows: seq<seq<string>>, hash: Hash): Counts {
    if windows == [] then map[]
    else CountIn(Tally(windows[..|windows| - 1], hash), hash(windows[|windows| - 1]))
  }

  method KgramsFor(tokens: seq<string>, hash: Hash) returns (kgrams: Counts)
    ensures kgrams == Tally(Windows(tokens), hash)
    ensures IsKgrams(tokens, hash, kgrams)
  {
    KgramsExactly(tokens, hash);
    kgrams := map[];
    if tokens == [] {
      return;
    }
    if |tokens| < 3 {
      kgrams := CountIn(kgrams, hash(tokens));
      assert Windows(tokens)[..0] == [];
      return;
    }
    var windows := Windows(tokens);
    for i := 0 to |tokens| - 2
      invariant kgrams == Tally(windows[..i], hash)
    {
      var window := tokens[i..i + 3];
      assert windows[..i + 1][..i] == windows[..i];
      kgrams := CountIn(kgrams, hash(window));
    }
    assert windows[..|windows|] == windows;
  }

  function Hashes(windows: seq<seq<string>>, hash: Hash): seq<string> {
    seq(|windows|, i requires 0 <= i < |windows| => hash(windows[i]))
  }

  /** A key counts the windows with that hash, and no key is without one. */
  lemma {:induction false} TallyCounts(windows: seq<seq<string>>, hash: Hash, key: string)
    ensures CountOf(Tally(windows, hash), key) == multiset(Hashes(windows, hash))[key]
    ensures key in Tally(windows, hash) ==> Tally(windows, hash)[key] > 0
  {
    if windows != [] {
      var front, last := windows[..|windows| - 1], windows[|windows| - 1];
      TallyCounts(front, hash, key);
      assert Hashes(windows, hash) == Hashes(front, hash) + [hash(last)];
    }
  }

  // ----- what is counted -----

  ghost predicate ThreeHashTo(tokens: seq<string>, hash: Hash, key: string, i: int) {
    0 <= i < |tokens| - 2 && hash([tokens[i], tokens[i + 1], tokens[i + 2]]) == key
  }

  /** Where three tokens in a row have this hash. */
  ghost function Places(tokens: seq<string>, hash: Hash, key: string): set<int> {
    set i | 0 <= i < |tokens| && ThreeHashTo(tokens, hash, key, i)
  }

  /** Every key counts the places of its three tokens; one or two tokens are hashed as they are. */
  ghost predicate IsKgrams(tokens: seq<string>, hash: Hash, kgrams: Counts) {
    if |tokens| >= 3 then
      && (forall key :: key in kgrams <==> Places(tokens, hash, key) != {})
      && forall key :: key in kgrams ==> kgrams[key] == |Places(tokens, hash, key)|
    else if tokens == [] then kgrams == map[]
    else kgrams == map[hash(tokens) := 1]
  }

  lemma {:induction false} BagCount(s: seq<string>, key: string)
    ensures multiset(s)[key] == |set i | 0 <= i < |s| && s[i] == key|
  {
    if s != [] {
      var front, n := s[..|s| - 1], |s| - 1;
      BagCount(front, key);
      assert s == front + [s[n]];
      assert (set i | 0 <= i < |s| && s[i] == key) ==
             (set i | 0 <= i < |front| && front[i] == key) + if s[n] == key then {n} else {};
    }
  }

  lemma {:induction false} HashesOfThree(tokens: seq<string>, hash: Hash, key: string)
    requires |tokens| >= 3
    ensures var hashes := Hashes(Windows(tokens), hash);
            (set i | 0 <= i < |hashes| && hashes[i] == key) == Places(tokens, hash, key)
  {
    var windows := Windows(tokens);
    forall i | 0 <= i < |tokens| - 2 ensures windows[i] == [tokens[i], tokens[i + 1], tokens[i + 2]] {
    }
  }

  lemma {:induction false} KgramsExactly(tokens: seq<string>, hash: Hash)
    ensures IsKgrams(tokens, hash, Tally(Windows(tokens), hash))
  {
    var windows := Windows(tokens);
    var kgrams := Tally(windows, hash);
    if |tokens| >= 3 {
      forall key ensures CountOf(kgrams, key) == |Places(tokens, hash, key)| && (key in kgrams ==> kgrams[key] > 0) {
        TallyCounts(windows, hash, key);
        BagCount(Hashes(windows, hash), key);
        HashesOfThree(tokens, hash, key);
      }
      forall key ensures key in kgrams <==> Places(tokens, hash, key) != {} {
        assert CountOf(kgrams, key) == |Places(tokens, hash, key)|;
      }
    } else if tokens != [] {
      assert windows == [tokens] && windows[..0] == [];
    }
  }

  lemma {:induction false} KgramsUnique(tokens: seq<string>, hash: Hash, a: Counts, b: Counts)
    requires IsKgrams(tokens, hash, a) && IsKgrams(tokens, hash, b)
    ensures a == b
  {
  }

  function Slots(counts: Counts): set<(string, nat)> {
    set key, i | key in counts && 0 <= i < counts[key] :: (key, i)
  }

  lemma {:induction false} CountInAddsOne(counts: Counts, key: string)
    ensures |Slots(CountIn(counts, key))| == |Slots(counts)| + 1
  {
    assert (key, CountOf(counts, key)) !in Slots(counts);
    assert Slots(CountIn(counts, key)) == Slots(counts) + {(key, CountOf(counts, key))};
  }

  /** The counts add up to the number of windows. */
  lemma {:induction false} TallyConserves(windows: seq<seq<string>>, hash: Hash)
    ensures |Slots(Tally(windows, hash))| == |windows|
  {
    if windows == [] {
      assert Slots(map[]) == {};
    } else {
      TallyConserves(windows[..|windows| - 1], hash);
      CountInAddsOne(Tally(windows[..|windows| - 1], hash), hash(windows[|windows| - 1]));
    }
  }

  /** The counts depend on the bag of windows only, not on their order. */
  lemma {:induction false} TallyOfBag(a: seq<seq<string>>, b: seq<seq<string>>, hash: Hash)
    requires multiset(Hashes(a, hash)) == multiset(Hashes(b, hash))
    ensures Tally(a, hash) == Tally(b, hash)
  {
    forall key ensures key in Tally(a, hash) <==> key in Tally(b, hash)
      ensures CountOf(Tally(a, hash), key) == CountOf(Tally(b, hash), key)
    {
      TallyCounts(a, hash, key);
      TallyCounts(b, hash, key);
    }
  }

  // ----- minhash -----

  const SIZE: nat := 64
  const MAX: nat := 0xFFFF_FFFF

  /** The first four bytes of the digest of slot and key. */
  type Digest = (nat, string) -> nat

  ghost predicate Fits(digest: Digest) {
    forall i, key :: digest(i, key) <= MAX
  }

  /** v is the least digest of the keys in slot i, or the maximum if there are none. */
  ghost predicate IsLeast(digest: Digest, i: nat, keys: set<string>, v: nat) {
    && v <= MAX
    && (forall key :: key in keys ==> v <= digest(i, key))
    && (v == MAX || exists key :: key in keys && v == digest(i, key))
  }

  ghost predicate IsMinhash(digest: Digest, keys: set<string>, minhash: seq<nat>) {
    |minhash| == SIZE && forall i :: 0 <= i < SIZE ==> IsLeast(digest, i, keys, minhash[i])
  }

  method Least(digest: Digest, i: nat, keys: set<string>) returns (v: nat)
    ensures IsLeast(digest, i, keys, v)
  {
    v := MAX;
    var todo := keys;
    while todo != {}
      invariant todo <= keys && IsLeast(digest, i, keys - todo, v)
    {
      var key :| key in todo;
      if digest(i, key) < v {
        v := digest(i, key);
      }
      assert keys - (todo - {key}) == keys - todo + {key};
      todo := todo - {key};
    }
    assert keys - {} == keys;
  }

  method MinhashFor(digest: Digest, kgrams: Counts) returns (minhash: seq<nat>)
    ensures IsMinhash(digest, kgrams.Keys, minhash) && |minhash| == 64
    ensures kgrams == map[] ==> forall i :: 0 <= i < 64 ==> minhash[i] == 0xFFFF_FFFF
  {
    if kgrams == map[] {
      return seq(SIZE, _ => MAX);
    }
    minhash := [];
    for i := 0 to SIZE
      invariant |minhash| == i && forall j :: 0 <= j < i ==> IsLeast(digest, j, kgrams.Keys, minhash[j])
    {
      var v := Least(digest, i, kgrams.Keys);
      minhash := minhash + [v];
    }
  }

  lemma {:induction false} LeastUnique(digest: Digest, i: nat, keys: set<string>, v: nat, u: nat)
    requires Fits(digest) && IsLeast(digest, i, keys, v) && IsLeast(digest, i, keys, u)
    ensures v == u
  {
  }

  /** The keys determine the minhash. */
  lemma {:induction false} MinhashUnique(digest: Digest, keys: set<string>, a: seq<nat>, b: seq<nat>)
    requires Fits(digest) && IsMinhash(digest, keys, a) && IsMinhash(digest, keys, b)
    ensures a == b
  {
    forall i | 0 <= i < SIZE ensures a[i] == b[i] {
      LeastUnique(digest, i, keys, a[i], b[i]);
    }
  }

  /** Minhashes combine: that of a union is the slot-wise minimum. */
  lemma {:induction false} MinhashOfUnion(digest: Digest, a: set<string>, b: set<string>, x: seq<nat>, y: seq<nat>,
                                          z: seq<nat>, i: nat)
    requires Fits(digest) && IsMinhash(digest, a, x) && IsMinhash(digest, b, y) && IsMinhash(digest, a + b, z)
    requires i < SIZE
    ensures z[i] == if x[i] <= y[i] then x[i] else y[i]
  {
    var least := if x[i] <= y[i] then x[i] else y[i];
    assert IsLeast(digest, i, a, x[i]) && IsLeast(digest, i, b, y[i]) && IsLeast(digest, i, a + b, z[i]);
    assert IsLeast(digest, i, a + b, least);
    LeastUnique(digest, i, a + b, least, z[i]);
  }

  // ----- the fingerprint of a function -----

  datatype FunctionFingerprint = FunctionFingerprint(name: string, startLine: nat, endLine: nat, nodeCount: nat,
                                                     calls: seq<CallInfo>, guards: seq<GuardInfo>, kgrams: Counts,
                                                     minhash: seq<nat>, vars: Vars)

  function SortLines(vars: Vars): Vars {
    map name | name in vars :: Sorting.Sort(Sorting.NatLe, vars[name])
  }

  ghost predicate IsFingerprint(fp: FunctionFingerprint, t: Node, k: Kinds, hash: Hash, digest: Digest) {
    var walked := RecordAll(NOTHING, Events(t, k));
    && fp.startLine == t.line && fp.endLine == t.endLine && fp.nodeCount == NamedNodes(t)
    && fp.calls == walked.calls && fp.guards == walked.guards && fp.vars == SortLines(walked.vars)
    && IsKgrams(walked.tokens, hash, fp.kgrams) && IsMinhash(digest, fp.kgrams.Keys, fp.minhash)
  }

  method FingerprintOf(t: Node, name: string, k: Kinds, hash: Hash, digest: Digest) returns (fp: FunctionFingerprint)
    ensures IsFingerprint(fp, t, k, hash, digest) && fp.name == name
  {
    var nodeCount := CountNamedNodes(t);
    var acc := new FnWalk();
    acc.Walk(t, k);
    var kgrams := KgramsFor(acc.tokens, hash);
    var minhash := MinhashFor(digest, kgrams);
    fp := FunctionFingerprint(name, t.line, t.endLine, nodeCount, acc.calls, acc.guards, kgrams, minhash,
                              SortLines(acc.vars));
  }

  lemma {:induction false} TokensFixHashes(t: Node, u: Node, k: Kinds, hash: Hash, digest: Digest,
                                           a: FunctionFingerprint, b: FunctionFingerprint)
    requires Fits(digest) && Shape.Tokens(Events(t, k)) == Shape.Tokens(Events(u, k))
    requires IsFingerprint(a, t, k, hash, digest) && IsFingerprint(b, u, k, hash, digest)
    ensures a.kgrams == b.kgrams && a.minhash == b.minhash
  {
    Shape.RecordedTokens(Events(t, k));
    Shape.RecordedTokens(Events(u, k));
    KgramsUnique(RecordAll(NOTHING, Events(t, k)).tokens, hash, a.kgrams, b.kgrams);
    MinhashUnique(digest, a.kgrams.Keys, a.minhash, b.minhash);
  }

  /** Functions of the same shape have the same k-grams and the same minhash. */
  lemma {:induction false} ShapeFixesHashes(t: Node, u: Node, k: Kinds, hash: Hash, digest: Digest,
                                            a: FunctionFingerprint, b: FunctionFingerprint)
    requires Fits(digest) && Shape.Alike(t, u, k)
    requires IsFingerprint(a, t, k, hash, digest) && IsFingerprint(b, u, k, hash, digest)
    ensures a.kgrams == b.kgrams && a.minhash == b.minhash
  {
    Shape.AlikeTokens(t, u, k);
    TokensFixHashes(t, u, k, hash, digest, a, b);
  }

  /** The lines of every name in ascending order, none lost and none added. */
  lemma {:induction false} LinesAreSorted(vars: Vars, name: string)
    requires name in vars
    ensures name in SortLines(vars) && multiset(SortLines(vars)[name]) == multiset(vars[name])
    ensures forall i, j :: 0 <= i < j < |SortLines(vars)[name]| ==> SortLines(vars)[name][i] <= SortLines(vars)[name][j]
  {
    Sorting.SortPermutes(Sorting.NatLe, vars[name]);
    Sorting.SortSorts(Sorting.NatLe, vars[name]);
    var sorted := SortLines(vars)[name];
    forall i, j | 0 <= i < j < |sorted| ensures sorted[i] <= sorted[j] {
      assert Sorting.NatLe(sorted[i], sorted[j]);
    }
  }

  /** Sorting the lines keeps the number of entries. */
  lemma {:induction false} SortedEntries(vars: Vars)
    ensures Entries(SortLines(vars)) == Entries(vars)
  {
    forall name | name in vars ensures |SortLines(vars)[name]| == |vars[name]| {
      Sorting.SortPermutes(Sorting.NatLe, vars[name]);
    }
  }
}
