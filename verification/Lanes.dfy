/** The two evidence lanes of scripts/ledger-promote.py keep to themselves, and unfinished work alone never
blocks the way to beta. */
module Lanes {
  import opened Ledger

  /** The same result in the gating lane. */
  ghost predicate SameGating(a: Result, b: Result) {
    a.(candPassed := b.candPassed, candFailed := b.candFailed, candAttributed := b.candAttributed) == b
  }

  /** The same result in the candidate lane. */
  ghost predicate SameCandidates(a: Result, b: Result) {
    a.(passed := b.passed, failed := b.failed, attributed := b.attributed, complete := b.complete) == b
  }

  /** Evidence that differs only in what the candidate lane of the features saw. */
  ghost predicate DiffersInCandidates(a: Evidence, b: Evidence) {
    && a.(results := b.results) == b
    && a.results.Keys == b.results.Keys
    && forall fid :: fid in a.results ==> SameGating(a.results[fid], b.results[fid])
  }

  /** Evidence that differs only in what the gating lane saw of one feature. */
  ghost predicate DiffersInGatingOf(a: Evidence, b: Evidence, fid: string) {
    && a.(results := b.results) == b
    && a.results.Keys == b.results.Keys
    && (forall other :: other in a.results && other != fid ==> a.results[other] == b.results[other])
    && (fid in a.results ==> SameCandidates(a.results[fid], b.results[fid]))
  }

  predicate InCandidateLane(s: Status) {
    s == Planned || s == InProgress
  }

  /** Candidate outcomes reach no verdict on a beta or stable feature, nor on one that cannot be promoted. */
  lemma {:induction false} CandidatesDoNotInterfere(features: Features, a: Evidence, b: Evidence, history: History,
                                                    w: World, streak: nat, fid: string)
    requires fid in features && !InCandidateLane(features[fid].status) && DiffersInCandidates(a, b)
    ensures VerdictOf(features, a, history, w, streak, fid) == VerdictOf(features, b, history, w, streak, fid)
  {
    var f, r, s := features[fid], ResultOf(a, fid), ResultOf(b, fid);
    assert SameGating(r, s) && Streak(a, history, fid) == Streak(b, history, fid);
    var lane, count := LaneOf(features, a, fid), Streak(a, history, fid);
    assert lane == GatingLane(r, a) == GatingLane(s, b) == LaneOf(features, b, fid);
    GatingOnly(f, a, b, w, r, s, lane, count, streak);
  }

  lemma {:induction false} GatingOnly(f: Feature, a: Evidence, b: Evidence, w: World, r: Result, s: Result,
                                      lane: Lane, count: nat, streak: nat)
    requires !InCandidateLane(f.status) && SameGating(r, s) && a.(results := b.results) == b
    ensures Judge(f, a, w, r, lane, count, streak) == Judge(f, b, w, s, lane, count, streak)
  {
    assert Common(a) == Common(b) && LaneCommon(a) == LaneCommon(b);
    assert GatingLane(r, a) == GatingLane(s, b);
    if f.status == Beta {
      assert LaneReasons(Declared(f), GatingLane(r, a), r, w, false)
          == LaneReasons(Declared(f), GatingLane(s, b), s, w, false);
      assert BetaReasons(f, a, w, r) == BetaReasons(f, b, w, s);
    } else if f.status == Stable {
      assert ReviewReasons(f, a, w, r) == ReviewReasons(f, b, w, s);
    }
  }

  /** Nor do gating outcomes reach the verdict on a planned feature, unless a gating feature declares one of
      its tests. */
  lemma {:induction false} GatingDoesNotInterfere(features: Features, a: Evidence, b: Evidence, history: History,
                                                  w: World, streak: nat, fid: string)
    requires fid in features && features[fid].status == Planned && DiffersInGatingOf(a, b, fid)
    requires forall t :: t in Declared(features[fid]) ==> t !in GatingDeclared(features)
    ensures VerdictOf(features, a, history, w, streak, fid) == VerdictOf(features, b, history, w, streak, fid)
  {
    var f, r, s := features[fid], ResultOf(a, fid), ResultOf(b, fid);
    assert SameCandidates(r, s) && Streak(a, history, fid) == Streak(b, history, fid);
    SameTargets(a, b, fid);
    var gating, targets := GatingDeclared(features), a.targets + CandidateTargets(a);
    SameLane(Declared(f), r, s, gating, targets);
    var lane := CandidateLane(Declared(f), r, gating, targets);
    assert LaneOf(features, a, fid) == lane && LaneOf(features, b, fid) == lane;
    CandidatesOnly(f, a, b, w, r, s, lane, Streak(a, history, fid), streak);
  }

  lemma {:induction false} SameTargets(a: Evidence, b: Evidence, fid: string)
    requires DiffersInGatingOf(a, b, fid)
    ensures CandidateTargets(a) == CandidateTargets(b)
  {
    forall other | other in a.results ensures a.results[other].candAttributed == b.results[other].candAttributed {
    }
  }

  lemma {:induction false} SameLane(declared: seq<string>, r: Result, s: Result, gating: set<string>,
                                    targets: set<string>)
    requires SameCandidates(r, s) && forall t :: t in declared ==> t !in gating
    ensures CandidateLane(declared, r, gating, targets) == CandidateLane(declared, s, gating, targets)
  {
    forall t | t in declared ensures Merged(r, t in gating, t) == Merged(s, t in gating, t) {
    }
    assert MergedTargets(declared, r, gating) == MergedTargets(declared, s, gating);
  }

  lemma {:induction false} CandidatesOnly(f: Feature, a: Evidence, b: Evidence, w: World, r: Result, s: Result,
                                          lane: Lane, count: nat, streak: nat)
    requires InCandidateLane(f.status) && SameCandidates(r, s) && a.(results := b.results) == b
    ensures Judge(f, a, w, r, lane, count, streak) == Judge(f, b, w, s, lane, count, streak)
  {
    assert LaneCommon(a) == LaneCommon(b);
    assert LaneReasons(Declared(f), lane, r, w, true) == LaneReasons(Declared(f), lane, s, w, true);
    assert CandidateReasons(f, a, w, r, lane) == CandidateReasons(f, b, w, s, lane);
  }

  /** Two states of a planned feature that differ in how far the work is. */
  ghost predicate SameButForProgress(f: Feature, g: Feature) {
    f.(progress := g.progress, steps := g.steps, notes := g.notes) == g
  }

  /** Low progress, pending steps and honest notes do not keep a planned or in_progress feature from beta,
      as long as they are well-formed and no pending step sounds malformed. */
  lemma {:induction false} UnfinishedWorkIsAllowed(f: Feature, g: Feature, e: Evidence, w: World, r: Result,
                                                   lane: Lane, count: nat, streak: nat)
    requires InCandidateLane(f.status) && SameButForProgress(f, g) && Readable(w, f) && Readable(w, g)
    ensures Judge(f, e, w, r, lane, count, streak).eligible == Judge(g, e, w, r, lane, count, streak).eligible
  {
    EligibleExactly(f, e, w, r, lane, count, streak);
    EligibleExactly(g, e, w, r, lane, count, streak);
    assert Declared(f) == Declared(g);
  }

  /** The documented promise that a pending step never blocks fails for a step whose text sounds malformed:
      whatever the evidence, a planned feature with it stays planned. */
  lemma {:induction false} SoundingMalformedBlocks(f: Feature, s: Step, e: Evidence, w: World, r: Result, lane: Lane,
                                                   count: nat, streak: nat)
    requires InCandidateLane(f.status) && f.steps.Some? && s in f.steps.value
    requires StepOpen(w, s) && SoundsMalformed(Head(s.text, 60))
    ensures !Judge(f, e, w, r, lane, count, streak).eligible
  {
    EligibleExactly(f, e, w, r, lane, count, streak);
  }

  /** Such a step. */
  lemma {:induction false} ParserTodo()
    ensures SoundsMalformed(Head("reject malformed input: todo", 60))
  {
    var text := "reject malformed input: todo";
    assert text[7..16] == "malformed";
    assert StandsAt("malformed", text, 7);
  }
}
