/** What holds of the ledger over whole sequences of promoter runs. */
module LedgerRuns {
  import opened Ledger
  import opened Promoter
  import Lanes
  import EvidenceChain
  import StreakRule

  // ----- one feature in one run -----

  /** The moves a feature can make in one run. */
  predicate Edge(a: Status, b: Status, demotions: bool) {
    || (a == Beta && b == Stable)
    || (a == Planned && b == Beta)
    || (a == InProgress && b == Beta)
    || (demotions && a == Stable && b == Beta)
  }

  /** What the promoter never rewrites. */
  ghost predicate SameDeclarations(f: Feature, g: Feature) {
    f.tests == g.tests && f.steps == g.steps && f.gaps == g.gaps && f.notes <= g.notes
  }

  predicate Movable(s: Status) {
    s == Stable || s == Beta || s == Planned || s == InProgress
  }

  lemma {:induction false} MoveKeeps(f: Feature, v: Verdict, run: Run, fmt: Format)
    ensures SameDeclarations(f, Moved(f, v, run, fmt))
  {
  }

  lemma {:induction false} VerdictTransition(features: Features, run: Run, fid: string)
    requires fid in features
    ensures var v, s := VerdictIn(features, run, fid), features[fid].status;
            && (v.eligible ==> v.transition == TransitionOf(s) && s != Stable && Movable(s))
            && (v.flagged ==> s == Stable)
  {
    var v, s := VerdictIn(features, run, fid), features[fid].status;
    if v.eligible {
      assert TransitionOf(s).Some?;
    }
  }

  /** A feature stays as it is, record and all, or moves along one edge. */
  ghost predicate FeatureStep(f: Feature, g: Feature, demotions: bool) {
    SameDeclarations(f, g) && (g == f || Edge(f.status, g.status, demotions))
  }

  ghost predicate Step(before: Features, after: Features, demotions: bool) {
    && after.Keys == before.Keys
    && forall fid :: fid in before ==> FeatureStep(before[fid], after[fid], demotions)
  }

  lemma {:induction false} OneEdgeAtMost(features: Features, run: Run, fmt: Format, fid: string)
    requires fid in features
    ensures FeatureStep(features[fid], MoveAll(features, run, fmt)[fid], run.demotions)
  {
    VerdictTransition(features, run, fid);
    MoveKeeps(features[fid], VerdictIn(features, run, fid), run, fmt);
  }

  /** Every run is a step. */
  lemma {:induction false} RunIsStep(features: Features, run: Run, fmt: Format)
    ensures Step(features, MoveAll(features, run, fmt), run.demotions)
  {
    forall fid | fid in features
      ensures FeatureStep(features[fid], MoveAll(features, run, fmt)[fid], run.demotions)
    {
      OneEdgeAtMost(features, run, fmt, fid);
    }
  }

  /** Whatever becomes stable was beta with all declared tests passed in the gating lane, and carries the link
      and the commit of the run that proved it. */
  lemma {:induction false} PromotionIsStamped(features: Features, run: Run, fmt: Format, fid: string)
    requires fid in features && features[fid].status != Stable
    requires MoveAll(features, run, fmt)[fid].status == Stable
    ensures var f, g, e := features[fid], MoveAll(features, run, fmt)[fid], run.evidence;
            && f.status == Beta && Declared(f) != []
            && (forall t :: t in Declared(f) ==> t in ResultOf(e, fid).passed && t !in ResultOf(e, fid).failed)
            && g.passes && g.progress == Percent(100.0)
            && g.stamp == Some(Stamp(e.runUrl, e.sha, Now(run))) && e.runUrl != "" && e.sha != ""
  {
    var f, e := features[fid], run.evidence;
    var r, lane, count := ResultOf(e, fid), LaneOf(features, e, fid), Streak(e, run.history, fid);
    VerdictTransition(features, run, fid);
    EligibleExactly(f, e, run.world, r, lane, count, run.streak);
    ProvenTests(Declared(f), GatingLane(r, e), r, run.world);
  }

  lemma {:induction false} ProvenTests(declared: seq<string>, l: Lane, r: Result, w: World)
    requires Proven(declared, l, r, w)
    ensures declared != [] && forall t :: t in declared ==> t in l.passed && t !in l.failed
  {
  }

  /** Whatever leaves stable does so by a demotion on complete evidence, and no longer counts as passing. */
  lemma {:induction false} DemotionIsMarked(features: Features, run: Run, fmt: Format, fid: string)
    requires fid in features && features[fid].status == Stable
    requires MoveAll(features, run, fmt)[fid].status != Stable
    ensures var g := MoveAll(features, run, fmt)[fid];
            g.status == Beta && !g.passes && run.demotions && ResultOf(run.evidence, fid).complete
  {
    var f, e := features[fid], run.evidence;
    VerdictTransition(features, run, fid);
    FlaggedExactly(f, e, run.world, ResultOf(e, fid), LaneOf(features, e, fid), Streak(e, run.history, fid),
                    run.streak);
  }

  // ----- sequences of runs -----

  /** The ledger after the first k runs. */
  function After(doc: Document, order: seq<string>, runs: seq<Run>, k: nat, fmt: Format): (r: Document)
    requires (forall fid :: fid in order <==> fid in doc.features) && k <= |runs|
    ensures r.features.Keys == doc.features.Keys
  {
    if k == 0 then doc else Next(After(doc, order, runs, k - 1, fmt), order, runs[k - 1], fmt)
  }

  ghost predicate WellOrdered(doc: Document, order: seq<string>) {
    Distinct(order) && forall fid :: fid in order <==> fid in doc.features
  }

  /** The features before the first run and after each run. */
  ghost function Ledgers(doc: Document, order: seq<string>, runs: seq<Run>, fmt: Format): seq<Features>
    requires WellOrdered(doc, order)
  {
    seq(|runs| + 1, k requires 0 <= k <= |runs| => After(doc, order, runs, k, fmt).features)
  }

  ghost function Demotions(runs: seq<Run>): seq<bool> {
    seq(|runs|, k requires 0 <= k < |runs| => runs[k].demotions)
  }

  /** Ledgers of which each is one step from the one before. */
  ghost predicate Trace(ledgers: seq<Features>, demotions: seq<bool>) {
    && |ledgers| == |demotions| + 1
    && forall k :: 0 <= k < |demotions| ==> Step(ledgers[k], ledgers[k + 1], demotions[k])
  }

  /** What follows for traces holds for every sequence of runs. */
  lemma {:induction false} RunsMakeATrace(doc: Document, order: seq<string>, runs: seq<Run>, fmt: Format)
    requires WellOrdered(doc, order)
    ensures Trace(Ledgers(doc, order, runs, fmt), Demotions(runs))
  {
    forall k | 0 <= k < |runs|
      ensures Step(After(doc, order, runs, k, fmt).features, After(doc, order, runs, k + 1, fmt).features,
                   runs[k].demotions)
    {
      RunIsStep(After(doc, order, runs, k, fmt).features, runs[k], fmt);
    }
  }

  // ----- what every trace keeps -----

  /** Declared tests, steps and gaps stay; notes only grow; no feature appears or disappears; a deferred
      feature, or one of unknown status, is never touched. */
  lemma {:induction false} TraceKeeps(ledgers: seq<Features>, demotions: seq<bool>, k: nat, fid: string)
    requires Trace(ledgers, demotions) && k < |ledgers|
    ensures ledgers[k].Keys == ledgers[0].Keys
    ensures fid in ledgers[0] ==> SameDeclarations(ledgers[0][fid], ledgers[k][fid])
    ensures fid in ledgers[0] && !Movable(ledgers[0][fid].status) ==> ledgers[k][fid] == ledgers[0][fid]
  {
    if k > 0 {
      TraceKeeps(ledgers, demotions, k - 1, fid);
      assert Step(ledgers[k - 1], ledgers[k], demotions[k - 1]);
    }
  }

  predicate HasStatus(features: Features, fid: string, s: Status) {
    fid in features && features[fid].status == s
  }

  /** Nothing gets from planned, or in progress, to stable without being beta in between. */
  lemma {:induction false} BetaComesBetween(ledgers: seq<Features>, demotions: seq<bool>, k: nat, fid: string)
    returns (between: nat)
    requires Trace(ledgers, demotions) && k < |ledgers|
    requires HasStatus(ledgers[0], fid, Planned) || HasStatus(ledgers[0], fid, InProgress)
    requires HasStatus(ledgers[k], fid, Stable)
    ensures 0 < between < k && HasStatus(ledgers[between], fid, Beta)
  {
    between := k - 1;
    assert Step(ledgers[k - 1], ledgers[k], demotions[k - 1]);
    if !HasStatus(ledgers[k - 1], fid, Beta) {
      assert FeatureStep(ledgers[k - 1][fid], ledgers[k][fid], demotions[k - 1]);
      between := BetaComesBetween(ledgers, demotions, k - 1, fid);
    }
  }

  /** Without demotions, stable features are left alone for good. */
  lemma {:induction false} StableStays(ledgers: seq<Features>, demotions: seq<bool>, i: nat, k: nat, fid: string)
    requires Trace(ledgers, demotions) && i <= k < |ledgers| && HasStatus(ledgers[i], fid, Stable)
    requires forall j :: i <= j < k ==> !demotions[j]
    ensures fid in ledgers[k] && ledgers[k][fid] == ledgers[i][fid]
  {
    if i < k {
      StableStays(ledgers, demotions, i, k - 1, fid);
      assert Step(ledgers[k - 1], ledgers[k], demotions[k - 1]);
    }
  }

  /** A feature that is planned, or in progress, has been so, unchanged, from the beginning. */
  lemma {:induction false} NoWayBack(ledgers: seq<Features>, demotions: seq<bool>, k: nat, fid: string)
    requires Trace(ledgers, demotions) && k < |ledgers|
    requires HasStatus(ledgers[k], fid, Planned) || HasStatus(ledgers[k], fid, InProgress)
    ensures fid in ledgers[0] && ledgers[k][fid] == ledgers[0][fid]
  {
    if k > 0 {
      assert Step(ledgers[k - 1], ledgers[k], demotions[k - 1]);
      assert FeatureStep(ledgers[k - 1][fid], ledgers[k][fid], demotions[k - 1]);
      NoWayBack(ledgers, demotions, k - 1, fid);
    }
  }

  lemma {:induction false} StepTotals(before: Features, after: Features, demotions: bool)
    requires Step(before, after, demotions)
    ensures Total(after) == Total(before) && Count(after, Deferred) == Count(before, Deferred)
  {
    forall fid | fid in before ensures after[fid].status == Deferred <==> before[fid].status == Deferred {
      DeferredStays(before[fid], after[fid], demotions);
    }
    SameDeferred(before, after);
  }

  lemma {:induction false} DeferredStays(f: Feature, g: Feature, demotions: bool)
    requires FeatureStep(f, g, demotions)
    ensures g.status == Deferred <==> f.status == Deferred
  {
  }

  lemma {:induction false} SameDeferred(before: Features, after: Features)
    requires after.Keys == before.Keys
    requires forall fid :: fid in before ==> (after[fid].status == Deferred <==> before[fid].status == Deferred)
    ensures Total(after) == Total(before) && Count(after, Deferred) == Count(before, Deferred)
  {
    assert Picked(after, after.Keys, NotDeferred()) == Picked(before, before.Keys, NotDeferred());
    assert Picked(after, after.Keys, Is(Deferred)) == Picked(before, before.Keys, Is(Deferred));
  }

  /** The number of deferred features, and so the total, never changes. */
  lemma {:induction false} TotalIsKept(ledgers: seq<Features>, demotions: seq<bool>, k: nat)
    requires Trace(ledgers, demotions) && k < |ledgers|
    ensures Total(ledgers[k]) == Total(ledgers[0]) && Count(ledgers[k], Deferred) == Count(ledgers[0], Deferred)
  {
    if k > 0 {
      TotalIsKept(ledgers, demotions, k - 1);
      StepTotals(ledgers[k - 1], ledgers[k], demotions[k - 1]);
    }
  }

  function Crossing(before: Features, after: Features, a: Status, b: Status): set<string> {
    set fid | fid in before && fid in after && before[fid].status == a && after[fid].status == b
  }

  predicate Balanced(s: Status, t: Status) {
    t == Stable || (s == Stable && t == Beta) <==> s == Stable || (s == Beta && t == Stable)
  }

  lemma {:induction false} StableOrCrossing(f: Feature, g: Feature, demotions: bool)
    requires FeatureStep(f, g, demotions)
    ensures Balanced(f.status, g.status)
  {
  }

  /** Stable features are conserved: those after a step are those before it, less the demoted, plus the
      promoted. */
  lemma {:induction false} StableIsConserved(before: Features, after: Features, demotions: bool)
    requires Step(before, after, demotions)
    ensures Count(after, Stable) + |Crossing(before, after, Stable, Beta)| ==
            Count(before, Stable) + |Crossing(before, after, Beta, Stable)|
  {
    forall fid | fid in before ensures Balanced(before[fid].status, after[fid].status) {
      StableOrCrossing(before[fid], after[fid], demotions);
    }
    StableBalance(before, after);
  }

  lemma {:induction false} StableBalance(before: Features, after: Features)
    requires after.Keys == before.Keys
    requires forall fid :: fid in before ==> Balanced(before[fid].status, after[fid].status)
    ensures Count(after, Stable) + |Crossing(before, after, Stable, Beta)| ==
            Count(before, Stable) + |Crossing(before, after, Beta, Stable)|
  {
    var up, down := Crossing(before, after, Beta, Stable), Crossing(before, after, Stable, Beta);
    var was, now := Picked(before, before.Keys, Is(Stable)), Picked(after, after.Keys, Is(Stable));
    forall fid | fid in before ensures fid in now + down <==> fid in was + up {
      assert Balanced(before[fid].status, after[fid].status);
    }
    assert now + down == was + up;
    Disjoint(now, down);
    Disjoint(was, up);
  }

  lemma {:induction false} Disjoint(a: set<string>, b: set<string>)
    requires a !! b
    ensures |a + b| == |a| + |b|
  {
  }

  // ----- metadata -----

  ghost predicate Holds(meta: Metadata, recount: Metadata) {
    forall key :: key in recount ==> key in meta && meta[key] == recount[key]
  }

  /** After a run, a metadata block holds the recount of the features as they now are. A ledger without one
      gets one exactly when something moves. */
  lemma {:induction false} RunRecounts(doc: Document, order: seq<string>, run: Run, fmt: Format)
    requires WellOrdered(doc, order)
    ensures var next := Next(doc, order, run, fmt);
            && (next.metadata.None? <==> doc.metadata.None? && !Changes(doc.features, run))
            && (next.metadata.Some? ==> Holds(next.metadata.value, Recount(next.features, order, fmt)))
  {
    var features, changed := MoveAll(doc.features, run, fmt), Changes(doc.features, run);
    var recount := Recount(features, order, fmt);
    assert "last_verified" !in recount by {
      LastVerifiedIsNoCount();
    }
    BlockHolds(doc.metadata, recount, changed, run);
  }

  lemma {:induction false} LastVerifiedIsNoCount()
    ensures "last_verified" !in {"features_stable", "features_beta", "features_planned", "features_in_progress",
                                 "features_deferred", "features_complete", "total_features", "overall_progress_pct"}
  {
    assert "last_verified"[0] == 'l';
  }

  lemma {:induction false} BlockHolds(metadata: Option<Metadata>, recount: Metadata, changed: bool, run: Run)
    requires "last_verified" !in recount
    ensures Holds(NewMetadata(metadata, recount, changed, run), recount)
  {
  }

  ghost predicate SameAt(a: Metadata, b: Metadata, key: string) {
    (key in a <==> key in b) && (key in a ==> a[key] == b[key])
  }

  function FirstTen(s: string): string {
    if |s| < 10 then s else s[..10]
  }

  /** What else a run does to the metadata: it dates a change, if the evidence has a date, and keeps every other entry
      of the block. */
  lemma {:induction false} RunDates(doc: Document, order: seq<string>, run: Run, fmt: Format, key: string)
    requires WellOrdered(doc, order) && Next(doc, order, run, fmt).metadata.Some?
    ensures var next := Next(doc, order, run, fmt);
            var meta := next.metadata.value;
            && (Changes(doc.features, run) && run.evidence.verifiedAt != "" ==>
                  "last_verified" in meta && meta["last_verified"] == Text(FirstTen(run.evidence.verifiedAt)))
            && (key !in Recount(next.features, order, fmt)
                && (key == "last_verified" ==> !Changes(doc.features, run) || run.evidence.verifiedAt == "") ==>
                  SameAt(meta, if doc.metadata.Some? then doc.metadata.value else map[], key))
  {
    LastVerifiedIsNoCount();
    BlockDates(doc.metadata, Recount(MoveAll(doc.features, run, fmt), order, fmt), Changes(doc.features, run), run,
               key);
  }

  lemma {:induction false} BlockDates(metadata: Option<Metadata>, recount: Metadata, changed: bool, run: Run,
                                      key: string)
    ensures var meta := NewMetadata(metadata, recount, changed, run);
            && (changed && run.evidence.verifiedAt != "" ==>
                  "last_verified" in meta && meta["last_verified"] == Text(FirstTen(run.evidence.verifiedAt)))
            && (key !in recount && (key == "last_verified" ==> !changed || run.evidence.verifiedAt == "") ==>
                  SameAt(meta, Block(metadata), key))
  {
  }

  /** So a ledger with metadata ends every sequence of runs with true counts. */
  lemma {:induction false} MetadataIsTrue(doc: Document, order: seq<string>, runs: seq<Run>, k: nat, fmt: Format)
    requires WellOrdered(doc, order) && doc.metadata.Some? && 0 < k <= |runs|
    ensures var end := After(doc, order, runs, k, fmt);
            end.metadata.Some? && Holds(end.metadata.value, Recount(end.features, order, fmt))
  {
    if k > 1 {
      MetadataIsTrue(doc, order, runs, k - 1, fmt);
    }
    RunRecounts(After(doc, order, runs, k - 1, fmt), order, runs[k - 1], fmt);
  }

  // ----- the same evidence twice -----

  /** A feature promoted to stable is not flagged on the evidence that promoted it, whatever the history, the
      streak and the switch for demotions. */
  lemma {:induction false} PromotedIsNotFlagged(f: Feature, g: Feature, e: Evidence, w: World, r: Result, lane: Lane,
                                                count: nat, streak: nat, count': nat, streak': nat)
    requires f.status == Beta && Judge(f, e, w, r, lane, count, streak).eligible
    requires g.status == Stable && g.tests == f.tests && g.gaps == f.gaps
    ensures !Judge(g, e, w, r, lane, count', streak').flagged
  {
    EligibleExactly(f, e, w, r, lane, count, streak);
    FlaggedExactly(g, e, w, r, lane, count', streak');
    assert Declared(g) == Declared(f) && Proven(Declared(f), GatingLane(r, e), r, w);
  }

  /** Nor is a demoted feature eligible on the evidence that got it flagged. */
  lemma {:induction false} DemotedIsNotEligible(f: Feature, g: Feature, e: Evidence, w: World, r: Result, lane: Lane,
                                                count: nat, streak: nat, count': nat, streak': nat)
    requires f.status == Stable && Judge(f, e, w, r, lane, count, streak).flagged
    requires g.status == Beta && g.tests == f.tests && g.gaps == f.gaps
    ensures !Judge(g, e, w, r, lane, count', streak').eligible
  {
    FlaggedExactly(f, e, w, r, lane, count, streak);
    EligibleExactly(g, e, w, r, lane, count', streak');
    assert Declared(g) == Declared(f);
  }

  /** A feature outside the candidate lane does not move again when judged on the same evidence. */
  lemma {:induction false} SettledVerdict(f: Feature, run: Run, r: Result, lane: Lane, count: nat, fmt: Format)
    requires !Lanes.InCandidateLane(f.status)
    ensures var v := Judge(f, run.evidence, run.world, r, lane, count, run.streak);
            var g := Moved(f, v, run, fmt);
            !Lanes.InCandidateLane(g.status)
            && !Moves(Judge(g, run.evidence, run.world, r, lane, count, run.streak), run)
  {
    var e, w := run.evidence, run.world;
    var v := Judge(f, e, w, r, lane, count, run.streak);
    var g := Moved(f, v, run, fmt);
    EligibleExactly(f, e, w, r, lane, count, run.streak);
    if v.eligible {
      assert g.status == Stable && v.transition == Some(BetaToStable);
      PromotedIsNotFlagged(f, g, e, w, r, lane, count, run.streak, count, run.streak);
      EligibleExactly(g, e, w, r, lane, count, run.streak);
    } else if run.demotions && v.flagged {
      FlaggedExactly(f, e, w, r, lane, count, run.streak);
      DemotedIsNotEligible(f, g, e, w, r, lane, count, run.streak, count, run.streak);
      FlaggedExactly(g, e, w, r, lane, count, run.streak);
    }
  }

  lemma {:induction false} SettledFeature(features: Features, run: Run, fmt: Format, fid: string)
    requires fid in features && !Lanes.InCandidateLane(features[fid].status)
    ensures !Moves(VerdictIn(MoveAll(features, run, fmt), run, fid), run)
  {
    var r := ResultOf(run.evidence, fid);
    SettledVerdict(features[fid], run, r, GatingLane(r, run.evidence), Streak(run.evidence, run.history, fid), fmt);
  }

  lemma {:induction false} RecountedStays(metadata: Option<Metadata>, recount: Metadata, run: Run)
    requires metadata.Some? && Holds(metadata.value, recount)
    ensures NewMetadata(metadata, recount, false, run) == metadata.value
  {
  }

  // ----- from commits to the ledger -----

  /** The evidence `gather` hands to a run. */
  ghost predicate Gathered(run: Run, features: Features, candidates: seq<string>, collect: EvidenceChain.Collector,
                           n: nat)
  {
    var chain := EvidenceChain.Having(candidates[..if n <= |candidates| then n else 0], collect, true);
    && EvidenceChain.Window(candidates, collect, n)
    && run.evidence == EvidenceChain.Final(collect, chain)
    && EvidenceChain.IsHistory(EvidenceChain.BallotOf(features, collect, run.world), chain, run.history)
  }

  lemma {:induction false} StableIfEligible(features: Features, run: Run, fmt: Format, fid: string)
    requires HasStatus(features, fid, Beta)
    ensures HasStatus(MoveAll(features, run, fmt), fid, Stable) <==> VerdictIn(features, run, fid).eligible
  {
    VerdictTransition(features, run, fid);
  }

  /** With the default streak, a beta feature becomes stable in a run on gathered evidence exactly when the
      three newest completed commits exist and each of them alone finds it eligible. */
  lemma {:induction false} StableByThreeCommits(features: Features, run: Run, fmt: Format, candidates: seq<string>,
                                                collect: EvidenceChain.Collector, n: nat, fid: string)
    requires Distinct(candidates) && Gathered(run, features, candidates, collect, n)
    requires run.streak == EvidenceChain.STREAK && HasStatus(features, fid, Beta)
    ensures var completed := EvidenceChain.Having(candidates, collect, true);
            HasStatus(MoveAll(features, run, fmt), fid, Stable) <==>
            StreakRule.AllVote(features, collect, run.world, completed, 3, fid)
  {
    StreakRule.NewestCommitsDecide(features, candidates, collect, run.world, n, run.history, 3, fid);
    StableIfEligible(features, run, fmt, fid);
  }
}
