/** The loops of `evaluate` (scripts/ledger-promote.py), each proved against the rules in Ledger. */
module Evaluate {
  import opened Ledger
  import Sorting

  method CompletenessReasons(w: World, f: Feature) returns (reasons: seq<Reason>)
    ensures reasons == Completeness(w, f)
  {
    reasons := ProgressReasons(f.progress);
    if f.steps.None? {
      reasons := reasons + [StepsMalformed];
    } else {
      var steps := f.steps.value;
      for i := 0 to |steps|
        invariant reasons == ProgressReasons(f.progress) + OpenSteps(w, steps[..i])
      {
        assert steps[..i + 1][..i] == steps[..i];
        if StepOpen(w, steps[i]) {
          reasons := reasons + [StepPending(Head(steps[i].text, 60))];
        }
      }
      assert steps[..|steps|] == steps;
    }
    assert reasons == ProgressReasons(f.progress) + StepReasons(w, f.steps);
    var found := w.markers(f.notes);
    if found != [] {
      reasons := reasons + [HonestyNote(found)];
    }
    reasons := reasons + GapReasons(f.gaps);
  }

  method SplitCompleteness(w: World, f: Feature) returns (blocking: seq<Reason>, informational: seq<Reason>)
    ensures blocking == Select(Completeness(w, f), true)
    ensures informational == Select(Completeness(w, f), false)
  {
    blocking, informational := [], [];
    var reasons := CompletenessReasons(w, f);
    for i := 0 to |reasons|
      invariant blocking == Select(reasons[..i], true) && informational == Select(reasons[..i], false)
    {
      assert reasons[..i + 1][..i] == reasons[..i];
      if Blocks(reasons[i]) {
        blocking := blocking + [reasons[i]];
      } else {
        informational := informational + [reasons[i]];
      }
    }
    assert reasons[..|reasons|] == reasons;
  }

  method CollectGating(features: Features, order: seq<string>) returns (gating: set<string>)
    requires forall fid :: fid in order <==> fid in features
    ensures gating == GatingDeclared(features)
  {
    gating := {};
    for i := 0 to |order|
      invariant gating ==
                set fid, t | fid in order[..i] && Gating(features[fid].status) && t in Declared(features[fid]) :: t
    {
      assert order[..i + 1] == order[..i] + [order[i]];
      var f := features[order[i]];
      if Gating(f.status) {
        gating := gating + Members(Declared(f));
      }
    }
  }

  method TargetsOfTests(attributed: map<string, set<string>>) returns (targets: set<string>)
    ensures targets == TargetsIn(Some(attributed))
  {
    targets := {};
    var todo := attributed.Keys;
    while todo != {}
      invariant todo <= attributed.Keys
      invariant targets == set t, x | t in attributed.Keys - todo && x in attributed[t] :: x
    {
      var test :| test in todo;
      var before := todo;
      todo := todo - {test};
      assert attributed.Keys - todo == attributed.Keys - before + {test};
      targets := targets + attributed[test];
    }
  }

  method CollectCandidateTargets(e: Evidence) returns (targets: set<string>)
    ensures targets == CandidateTargets(e)
  {
    targets := {};
    var todo := e.results.Keys;
    while todo != {}
      invariant todo <= e.results.Keys
      invariant targets ==
                set fid, x | fid in e.results.Keys - todo && x in TargetsIn(e.results[fid].candAttributed) :: x
    {
      var fid :| fid in todo;
      var before := todo;
      todo := todo - {fid};
      assert e.results.Keys - todo == e.results.Keys - before + {fid};
      if e.results[fid].candAttributed.Some? {
        var more := TargetsOfTests(e.results[fid].candAttributed.value);
        targets := targets + more;
      }
    }
  }

  method CandidateSets(declared: seq<string>, r: Result, gating: set<string>, targets: set<string>) returns (lane: Lane)
    ensures lane == CandidateLane(declared, r, gating, targets)
  {
    var passed, failed: set<string> := {}, {};
    var merged: map<string, set<string>> := map[];
    for i := 0 to |declared|
      invariant passed == CandidateLane(declared[..i], r, gating, targets).passed
      invariant failed == CandidateLane(declared[..i], r, gating, targets).failed
      invariant merged == MergedTargets(declared[..i], r, gating)
    {
      var test := declared[i];
      assert declared[..i + 1] == declared[..i] + [test];
      var shared := test in gating;
      if test in r.candPassed || (shared && test in r.passed) {
        passed := passed + {test};
      }
      if test in r.candFailed || (shared && test in r.failed) {
        failed := failed + {test};
      }
      var reached := Lookup(r.candAttributed, test);
      if shared {
        reached := reached + Lookup(r.attributed, test);
      }
      assert reached == Merged(r, shared, test);
      if reached != {} {
        merged := merged[test := reached];
      }
    }
    assert declared[..|declared|] == declared;
    lane := Lane(passed, failed, Some(merged), targets);
  }

  method MissingTests(w: World, targets: set<string>, declared: seq<string>) returns (reasons: seq<Reason>)
    ensures reasons == Missing(w, targets, declared)
  {
    reasons := [];
    for i := 0 to |declared|
      invariant reasons == Missing(w, targets, declared[..i])
    {
      assert declared[..i + 1][..i] == declared[..i];
      if !Known(w, targets, declared[i]) {
        reasons := reasons + [MissingFromIndex(declared[i])];
      }
    }
    assert declared[..|declared|] == declared;
  }

  /** Counts green commits from the newest one back, up to the first that is not green. */
  method CountStreak(chain: seq<string>, green: set<string>) returns (count: nat)
    ensures count == GreenPrefix(chain, green)
    ensures count <= |chain| && forall i :: 0 <= i < count ==> chain[i] in green
    ensures count < |chain| ==> chain[count] !in green
  {
    count := 0;
    for i := 0 to |chain|
      invariant count == i && GreenPrefix(chain, green) == i + GreenPrefix(chain[i..], green)
      invariant forall j :: 0 <= j < i ==> chain[j] in green
    {
      if chain[i] !in green {
        return;
      }
      assert chain[i..][1..] == chain[i + 1..];
      count := count + 1;
    }
  }

  method JudgeLane(declared: seq<string>, l: Lane, r: Result, w: World, known: bool) returns (reasons: seq<Reason>)
    ensures reasons == LaneReasons(declared, l, r, w, known)
  {
    reasons := When(r.declared != Members(declared), DeclaredDiffers);
    if known {
      var missing := MissingTests(w, l.targets, declared);
      reasons := reasons + missing;
    }
    reasons := reasons + When(!(Members(declared) <= l.passed) || l.failed * Members(declared) != {}, TestsFailed);
    reasons := reasons + When(!Linked(declared, l, w), NoIntegration);
    reasons := reasons + When(AnyBug(w, declared), BugIgnored);
  }

  method EvaluateFeature(features: Features, gating: set<string>, candidateTargets: set<string>, e: Evidence,
                         history: History, w: World, streak: nat, fid: string) returns (v: Verdict)
    requires fid in features && gating == GatingDeclared(features) && candidateTargets == CandidateTargets(e)
    ensures v == VerdictOf(features, e, history, w, streak, fid)
  {
    var f, r := features[fid], ResultOf(e, fid);
    if f.status == Stable {
      return StableVerdict(f, e, w, r);
    }
    if f.status == Deferred {
      return Rejected(Frozen);
    }
    if TransitionOf(f.status).None? {
      return Rejected(NotPromotable);
    }
    var declared := Declared(f);
    var reasons, informational, lane := LaneCommon(e), [], GatingLane(r, e);
    if f.status == Beta {
      reasons := reasons + When(!e.complete, EvidenceIncomplete);
      var incomplete := CompletenessReasons(w, f);
      reasons := reasons + incomplete + When(declared == [], NoDeclaredTests);
    } else {
      var blocking;
      blocking, informational := SplitCompleteness(w, f);
      reasons := reasons + blocking + When(declared == [], NoDeclaredTests) + When(!e.complete, EvidenceIncomplete);
      lane := CandidateSets(declared, r, gating, e.targets + candidateTargets);
    }
    var judged := JudgeLane(declared, lane, r, w, f.status != Beta);
    reasons := reasons + judged;
    assert lane == LaneOf(features, e, fid) && reasons == BaseReasons(f, e, w, r, lane);
    var count := CountStreak(Chain(e), Green(history, fid, e.sha));
    v := Decide(f.status, reasons, informational, count, streak);
  }

  method Evaluate(features: Features, order: seq<string>, e: Evidence, history: History, w: World, streak: nat)
    returns (verdicts: map<string, Verdict>)
    requires forall fid :: fid in order <==> fid in features
    ensures verdicts == Verdicts(features, e, history, w, streak)
  {
    verdicts := map[];
    var gating := CollectGating(features, order);
    var candidateTargets := CollectCandidateTargets(e);
    var sorted := Sorting.Sort(Sorting.StringLe, order);
    Sorting.SortMembers(Sorting.StringLe, order);
    ghost var all := Verdicts(features, e, history, w, streak);
    for i := 0 to |sorted|
      invariant Judged(verdicts, all, sorted, i)
    {
      assert all[sorted[i]] == VerdictOf(features, e, history, w, streak, sorted[i]);
      var v := EvaluateFeature(features, gating, candidateTargets, e, history, w, streak, sorted[i]);
      JudgedNext(verdicts, all, sorted, i, v);
      verdicts := verdicts[sorted[i] := v];
    }
    AllJudged(verdicts, all, sorted);
  }

  /** The first i features have their verdicts. */
  ghost predicate Judged(verdicts: map<string, Verdict>, all: map<string, Verdict>, order: seq<string>, i: nat)
    requires i <= |order| && forall fid :: fid in order <==> fid in all
  {
    && (forall fid :: fid in verdicts <==> fid in order[..i])
    && (forall fid :: fid in verdicts ==> verdicts[fid] == all[fid])
  }

  lemma {:induction false} JudgedNext(verdicts: map<string, Verdict>, all: map<string, Verdict>, order: seq<string>,
                                      i: nat, v: Verdict)
    requires i < |order| && (forall fid :: fid in order <==> fid in all) && Judged(verdicts, all, order, i)
    requires v == all[order[i]]
    ensures Judged(verdicts[order[i] := v], all, order, i + 1)
  {
    assert order[..i + 1] == order[..i] + [order[i]];
  }

  lemma {:induction false} AllJudged(verdicts: map<string, Verdict>, all: map<string, Verdict>, order: seq<string>)
    requires (forall fid :: fid in order <==> fid in all) && Judged(verdicts, all, order, |order|)
    ensures verdicts == all
  {
    assert order[..|order|] == order;
  }
}
