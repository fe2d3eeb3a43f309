/** Model of the apply part of `main` (scripts/ledger-promote.py): transitions written into the ledger, and
its metadata recounted. */
module Promoter {
  import opened Ledger
  import opened Evaluate

  datatype MetaValue = Number(value: real) | Text(text: string)

  type Metadata = map<string, MetaValue>

  datatype Document = Document(features: Features, metadata: Option<Metadata>)

  /** One run with --apply: its inputs, the clock, and the state of the repository. */
  datatype Run = Run(evidence: Evidence, history: History, world: World, streak: nat, demotions: bool, clock: string)

  /** The wording of the notes, from the SHA and the date, and rounding to one decimal. */
  datatype Format = Format(promoted: (Status, string, string) -> string,
                           demoted: (seq<Review>, string, string) -> string,
                           round: real -> real)

  // ----- transitions -----

  function Now(run: Run): string {
    if run.evidence.verifiedAt != "" then run.evidence.verifiedAt else run.clock
  }

  function Today(run: Run): string {
    Head(Now(run), 10)
  }

  /** Notes only grow. */
  function Noted(notes: string, note: string): string {
    (if notes != "" then notes + "\n" else "") + note
  }

  function Promote(f: Feature, transition: Option<Transition>, run: Run, fmt: Format): Feature {
    if transition == Some(BetaToStable) then
      f.(status := Stable, passes := true, progress := Percent(100.0), lastTested := Today(run),
         stamp := Some(Stamp(run.evidence.runUrl, run.evidence.sha, Now(run))))
    else
      f.(status := Beta, notes := Noted(f.notes, fmt.promoted(f.status, run.evidence.sha, Today(run))))
  }

  function Demote(f: Feature, review: seq<Review>, run: Run, fmt: Format): Feature {
    f.(status := Beta, passes := false, notes := Noted(f.notes, fmt.demoted(review, run.evidence.sha, Today(run))))
  }

  function IfPromoted(f: Feature, v: Verdict, run: Run, fmt: Format): Feature {
    if v.eligible then Promote(f, v.transition, run, fmt) else f
  }

  function IfDemoted(f: Feature, v: Verdict, run: Run, fmt: Format): Feature {
    if v.flagged then Demote(f, v.review, run, fmt) else f
  }

  /** A feature after a run that gave it this verdict. */
  function Moved(f: Feature, v: Verdict, run: Run, fmt: Format): Feature {
    if v.eligible then Promote(f, v.transition, run, fmt)
    else if run.demotions then IfDemoted(f, v, run, fmt)
    else f
  }

  function VerdictIn(features: Features, run: Run, fid: string): Verdict
    requires fid in features
  {
    VerdictOf(features, run.evidence, run.history, run.world, run.streak, fid)
  }

  function MoveAll(features: Features, run: Run, fmt: Format): Features {
    map fid | fid in features :: Moved(features[fid], VerdictIn(features, run, fid), run, fmt)
  }

  predicate Moves(v: Verdict, run: Run) {
    v.eligible || (run.demotions && v.flagged)
  }

  predicate Changes(features: Features, run: Run) {
    exists fid :: fid in features && Moves(VerdictIn(features, run, fid), run)
  }

  // ----- the recount -----

  function Is(s: Status): Status -> bool {
    x => x == s
  }

  function NotDeferred(): Status -> bool {
    x => x != Deferred
  }

  function Picked(features: Features, ids: set<string>, p: Status -> bool): set<string>
    requires ids <= features.Keys
  {
    set fid | fid in ids && p(features[fid].status)
  }

  function CountIf(features: Features, p: Status -> bool): nat {
    |Picked(features, features.Keys, p)|
  }

  function Count(features: Features, s: Status): nat {
    CountIf(features, Is(s))
  }

  /** Features that are not deferred. */
  function Total(features: Features): nat {
    CountIf(features, NotDeferred())
  }

  /** The count of the loop. */
  function Tally(features: Features, order: seq<string>, p: Status -> bool): nat
    requires forall fid :: fid in order ==> fid in features
  {
    if order == [] then 0
    else
      var last := order[|order| - 1];
      Tally(features, order[..|order| - 1], p) + if p(features[last].status) then 1 else 0
  }

  lemma {:induction false} PickOne(features: Features, ids: set<string>, fid: string, p: Status -> bool)
    requires ids + {fid} <= features.Keys && fid !in ids
    ensures |Picked(features, ids + {fid}, p)| == |Picked(features, ids, p)| + if p(features[fid].status) then 1 else 0
  {
    assert Picked(features, ids + {fid}, p)
        == if p(features[fid].status) then Picked(features, ids, p) + {fid} else Picked(features, ids, p);
  }

  lemma {:induction false} TallyCounts(features: Features, order: seq<string>, p: Status -> bool)
    requires Distinct(order) && forall fid :: fid in order ==> fid in features
    ensures Tally(features, order, p) == |Picked(features, Members(order), p)|
  {
    if order != [] {
      var front, last := order[..|order| - 1], order[|order| - 1];
      assert order == front + [last] && last !in front;
      TallyCounts(features, front, p);
      assert Members(order) == Members(front) + {last};
      PickOne(features, Members(front), last, p);
    }
  }

  lemma {:induction false} TallyIsCount(features: Features, order: seq<string>, p: Status -> bool)
    requires Distinct(order) && forall fid :: fid in order <==> fid in features
    ensures Tally(features, order, p) == CountIf(features, p)
  {
    TallyCounts(features, order, p);
    assert Members(order) == features.Keys;
  }

  /** Progress as the recount sees it: a bool counts as 0 or 1. */
  function Points(f: Feature): real {
    if f.status == Deferred then 0.0
    else match f.progress
      case Flag(on) => if on then 1.0 else 0.0
      case Percent(value) => value
      case _ => 0.0
  }

  function ProgressSum(features: Features, order: seq<string>): real
    requires forall fid :: fid in order ==> fid in features
  {
    if order == [] then 0.0
    else ProgressSum(features, order[..|order| - 1]) + Points(features[order[|order| - 1]])
  }

  /** The feature counts towards the progress with a value from lo to hi. */
  ghost predicate CountsBetween(f: Feature, lo: real, hi: real) {
    match f.progress
    case Percent(value) => lo <= value <= hi
    case Flag(on) => lo <= (if on then 1.0 else 0.0) <= hi
    case _ => lo <= 0.0 <= hi
  }

  lemma {:induction false} PointsBetween(f: Feature, lo: real, hi: real)
    requires f.status == Deferred || CountsBetween(f, lo, hi)
    ensures f.status == Deferred ==> Points(f) == 0.0
    ensures f.status != Deferred ==> lo <= Points(f) <= hi
  {
  }

  /** The progress in the metadata is a mean of the features that are not deferred: whatever bounds their values bounds
      it. */
  lemma {:induction false} ProgressIsMean(features: Features, order: seq<string>, lo: real, hi: real)
    requires Distinct(order) && forall fid :: fid in order <==> fid in features
    requires forall fid :: fid in features && features[fid].status != Deferred ==> CountsBetween(features[fid], lo, hi)
    ensures Bounded(lo, hi, Total(features) as real, ProgressSum(features, order))
  {
    TallyIsCount(features, order, NotDeferred());
    SumBetween(features, order, lo, hi);
  }

  ghost predicate Bounded(lo: real, hi: real, n: real, sum: real) {
    lo * n <= sum <= hi * n
  }

  lemma {:induction false} SumBetween(features: Features, order: seq<string>, lo: real, hi: real)
    requires forall fid :: fid in order ==> fid in features
    requires forall fid :: fid in features && features[fid].status != Deferred ==> CountsBetween(features[fid], lo, hi)
    ensures Bounded(lo, hi, Tally(features, order, NotDeferred()) as real, ProgressSum(features, order))
  {
    if order != [] {
      var front, f := order[..|order| - 1], features[order[|order| - 1]];
      SumBetween(features, front, lo, hi);
      PointsBetween(f, lo, hi);
      OneBetween(lo, hi, Tally(features, front, NotDeferred()) as real, ProgressSum(features, front), Points(f),
                 f.status != Deferred, Tally(features, order, NotDeferred()) as real);
    }
  }

  lemma {:induction false} OneBetween(lo: real, hi: real, n: real, sum: real, points: real, counted: bool, m: real)
    requires Bounded(lo, hi, n, sum) && m == if counted then n + 1.0 else n
    requires if counted then lo <= points <= hi else points == 0.0
    ensures Bounded(lo, hi, m, sum + points)
  {
  }

  function Overall(features: Features, order: seq<string>, fmt: Format): real
    requires forall fid :: fid in order ==> fid in features
  {
    if Total(features) == 0 then 0.0 else fmt.round(ProgressSum(features, order) / Total(features) as real)
  }

  /** The block that a recount writes. */
  function Recount(features: Features, order: seq<string>, fmt: Format): Metadata
    requires forall fid :: fid in order ==> fid in features
  {
    map["features_stable" := Number(Count(features, Stable) as real),
        "features_beta" := Number(Count(features, Beta) as real),
        "features_planned" := Number(Count(features, Planned) as real),
        "features_in_progress" := Number(Count(features, InProgress) as real),
        "features_deferred" := Number(Count(features, Deferred) as real),
        "features_complete" := Number(Count(features, Stable) as real),
        "total_features" := Number(Total(features) as real),
        "overall_progress_pct" := Number(Overall(features, order, fmt))]
  }

  ghost function WithStatus(features: Features, s: Status): set<string> {
    set fid | fid in features && features[fid].status == s
  }

  lemma {:induction false} KeysDiffer()
    ensures "features_deferred" != "features_complete" && "features_in_progress" != "overall_progress_pct"
  {
    assert "features_deferred"[9] == 'd' && "features_complete"[9] == 'c';
    assert "features_in_progress"[0] == 'f' && "overall_progress_pct"[0] == 'o';
  }

  ghost predicate SaysOf(meta: Metadata, key: string, value: real) {
    key in meta && meta[key] == Number(value)
  }

  lemma {:induction false} MetaKeys(meta: Metadata, stable: real, beta: real, planned: real, inProgress: real,
                                    deferred: real, complete: real, total: real, progress: real)
    requires meta == map["features_stable" := Number(stable), "features_beta" := Number(beta),
                         "features_planned" := Number(planned), "features_in_progress" := Number(inProgress),
                         "features_deferred" := Number(deferred), "features_complete" := Number(complete),
                         "total_features" := Number(total), "overall_progress_pct" := Number(progress)]
    ensures SaysOf(meta, "features_stable", stable) && SaysOf(meta, "features_beta", beta)
    ensures SaysOf(meta, "features_planned", planned) && SaysOf(meta, "features_in_progress", inProgress)
    ensures SaysOf(meta, "features_deferred", deferred) && SaysOf(meta, "features_complete", complete)
    ensures SaysOf(meta, "total_features", total) && SaysOf(meta, "overall_progress_pct", progress)
  {
    KeysDiffer();
  }

  /** What the keys of the metadata say: the number of features of each status, complete ones being the stable ones,
      and of all that are not deferred; without any of those the progress is 0. */
  lemma {:induction false} RecountExactly(features: Features, order: seq<string>, fmt: Format)
    requires forall fid :: fid in order <==> fid in features
    ensures var meta := Recount(features, order, fmt);
            && SaysOf(meta, "features_stable", |WithStatus(features, Stable)| as real)
            && SaysOf(meta, "features_complete", |WithStatus(features, Stable)| as real)
            && SaysOf(meta, "features_beta", |WithStatus(features, Beta)| as real)
            && SaysOf(meta, "features_planned", |WithStatus(features, Planned)| as real)
            && SaysOf(meta, "features_in_progress", |WithStatus(features, InProgress)| as real)
            && SaysOf(meta, "features_deferred", |WithStatus(features, Deferred)| as real)
    ensures var meta, counted := Recount(features, order, fmt), features.Keys - WithStatus(features, Deferred);
            && SaysOf(meta, "total_features", |counted| as real)
            && SaysOf(meta, "overall_progress_pct",
                      if counted == {} then 0.0 else fmt.round(ProgressSum(features, order) / |counted| as real))
  {
    CountsExactly(features);
    MetaKeys(Recount(features, order, fmt), Count(features, Stable) as real, Count(features, Beta) as real,
             Count(features, Planned) as real, Count(features, InProgress) as real, Count(features, Deferred) as real,
             Count(features, Stable) as real, Total(features) as real, Overall(features, order, fmt));
  }

  lemma {:induction false} CountsExactly(features: Features)
    ensures forall s :: Count(features, s) == |WithStatus(features, s)|
    ensures Total(features) == |features.Keys - WithStatus(features, Deferred)|
  {
    forall s ensures Count(features, s) == |WithStatus(features, s)| {
      StatusPicked(features, s);
    }
    assert features.Keys - WithStatus(features, Deferred) == Picked(features, features.Keys, NotDeferred());
  }

  lemma {:induction false} StatusPicked(features: Features, s: Status)
    ensures Picked(features, features.Keys, Is(s)) == WithStatus(features, s)
  {
  }

  // ----- one run -----

  function Block(metadata: Option<Metadata>): Metadata {
    if metadata.Some? then metadata.value else map[]
  }

  function NewMetadata(metadata: Option<Metadata>, recount: Metadata, changed: bool, run: Run): Metadata {
    Block(metadata) + recount +
    if changed && run.evidence.verifiedAt != "" then map["last_verified" := Text(Head(run.evidence.verifiedAt, 10))]
    else map[]
  }

  function Next(doc: Document, order: seq<string>, run: Run, fmt: Format): Document
    requires forall fid :: fid in order <==> fid in doc.features
  {
    var features := MoveAll(doc.features, run, fmt);
    var changed := Changes(doc.features, run);
    var meta := NewMetadata(doc.metadata, Recount(features, order, fmt), changed, run);
    var stale := doc.metadata.Some? && meta != doc.metadata.value;
    Document(features, if changed || stale then Some(meta) else doc.metadata)
  }

  // ----- a pass over the features -----

  type Move = (Feature, Verdict) -> Feature

  function Promoting(run: Run, fmt: Format): Move {
    (f, v) => IfPromoted(f, v, run, fmt)
  }

  function Demoting(run: Run, fmt: Format): Move {
    (f, v) => IfDemoted(f, v, run, fmt)
  }

  function IsEligible(): Verdict -> bool {
    (v: Verdict) => v.eligible
  }

  function IsFlagged(): Verdict -> bool {
    (v: Verdict) => v.flagged
  }

  function Pass(features: Features, verdicts: map<string, Verdict>, move: Move): Features
    requires verdicts.Keys == features.Keys
  {
    map fid | fid in features :: move(features[fid], verdicts[fid])
  }

  /** The pass has dealt with the first i features. */
  ghost predicate Advanced(before: Features, now: Features, verdicts: map<string, Verdict>, order: seq<string>,
                           i: nat, move: Move)
    requires (forall fid :: fid in order <==> fid in before) && verdicts.Keys == before.Keys && i <= |order|
  {
    && now.Keys == before.Keys
    && (forall j :: 0 <= j < i ==> now[order[j]] == move(before[order[j]], verdicts[order[j]]))
    && (forall j :: i <= j < |order| ==> now[order[j]] == before[order[j]])
  }

  lemma {:induction false} AdvanceOne(before: Features, now: Features, next: Features, verdicts: map<string, Verdict>,
                                      order: seq<string>, i: nat, move: Move)
    requires Distinct(order) && (forall fid :: fid in order <==> fid in before) && verdicts.Keys == before.Keys
    requires i < |order| && Advanced(before, now, verdicts, order, i, move)
    requires next.Keys == now.Keys && next[order[i]] == move(now[order[i]], verdicts[order[i]])
    requires forall fid :: fid in now && fid != order[i] ==> next[fid] == now[fid]
    ensures Advanced(before, next, verdicts, order, i + 1, move)
  {
  }

  lemma {:induction false} AdvancedAll(before: Features, now: Features, verdicts: map<string, Verdict>,
                                       order: seq<string>, move: Move)
    requires (forall fid :: fid in order <==> fid in before) && verdicts.Keys == before.Keys
    requires Advanced(before, now, verdicts, order, |order|, move)
    ensures now == Pass(before, verdicts, move)
  {
    forall fid | fid in before ensures now[fid] == move(before[fid], verdicts[fid]) {
      var j :| 0 <= j < |order| && order[j] == fid;
    }
  }

  lemma {:induction false} TalliesAreCounts(features: Features, order: seq<string>)
    requires Distinct(order) && forall fid :: fid in order <==> fid in features
    ensures Tally(features, order, Is(Stable)) == Count(features, Stable)
    ensures Tally(features, order, Is(Beta)) == Count(features, Beta)
    ensures Tally(features, order, Is(InProgress)) == Count(features, InProgress)
    ensures Tally(features, order, Is(Planned)) == Count(features, Planned)
    ensures Tally(features, order, Is(Deferred)) == Count(features, Deferred)
    ensures Tally(features, order, NotDeferred()) == Total(features)
  {
    TallyIsCount(features, order, Is(Stable));
    TallyIsCount(features, order, Is(Beta));
    TallyIsCount(features, order, Is(InProgress));
    TallyIsCount(features, order, Is(Planned));
    TallyIsCount(features, order, Is(Deferred));
    TallyIsCount(features, order, NotDeferred());
  }

  class LedgerFile {
    const order: seq<string>
    const fmt: Format
    var features: Features
    var metadata: Option<Metadata>

    constructor (order: seq<string>, fmt: Format, doc: Document)
      requires Distinct(order) && forall fid :: fid in order <==> fid in doc.features
      ensures Valid() && this.order == order && this.fmt == fmt && Contents() == doc
    {
      this.order, this.fmt := order, fmt;
      features, metadata := doc.features, doc.metadata;
    }

    ghost predicate Valid()
      reads this
    {
      Distinct(order) && forall fid :: fid in order <==> fid in features
    }

    ghost function Contents(): Document
      reads this
    {
      Document(features, metadata)
    }

    /** The loop over the eligible features, and the one over the flagged features. */
    method Update(verdicts: map<string, Verdict>, chosen: Verdict -> bool, move: Move) returns (changed: bool)
      requires Valid() && verdicts.Keys == features.Keys
      requires forall f, v :: !chosen(v) ==> move(f, v) == f
      modifies this`features
      ensures Valid() && features == Pass(old(features), verdicts, move)
      ensures changed <==> exists fid :: fid in verdicts && chosen(verdicts[fid])
    {
      ghost var before := features;
      changed := false;
      for i := 0 to |order|
        invariant Advanced(before, features, verdicts, order, i, move)
        invariant changed ==> exists fid :: fid in verdicts && chosen(verdicts[fid])
        invariant !changed ==> forall j :: 0 <= j < i ==> !chosen(verdicts[order[j]])
      {
        var fid := order[i];
        ghost var was := features;
        if chosen(verdicts[fid]) {
          changed := true;
          features := features[fid := move(features[fid], verdicts[fid])];
        }
        AdvanceOne(before, was, features, verdicts, order, i, move);
      }
      AdvancedAll(before, features, verdicts, order, move);
    }

    method CountAll() returns (recount: Metadata)
      requires Valid()
      ensures recount == Recount(features, order, fmt)
    {
      var stable, beta, inProgress, planned, deferred, total, sum := 0, 0, 0, 0, 0, 0, 0.0;
      for i := 0 to |order|
        invariant stable == Tally(features, order[..i], Is(Stable)) && beta == Tally(features, order[..i], Is(Beta))
        invariant inProgress == Tally(features, order[..i], Is(InProgress))
        invariant planned == Tally(features, order[..i], Is(Planned))
        invariant deferred == Tally(features, order[..i], Is(Deferred))
        invariant total == Tally(features, order[..i], NotDeferred())
        invariant sum == ProgressSum(features, order[..i])
      {
        assert order[..i + 1][..i] == order[..i];
        var f := features[order[i]];
        match f.status {
          case Stable => stable := stable + 1;
          case Beta => beta := beta + 1;
          case InProgress => inProgress := inProgress + 1;
          case Planned => planned := planned + 1;
          case Deferred => deferred := deferred + 1;
          case _ =>
        }
        if f.status != Deferred {
          total := total + 1;
        }
        sum := sum + Points(f);
      }
      assert order[..|order|] == order;
      TalliesAreCounts(features, order);
      recount := map["features_stable" := Number(stable as real), "features_beta" := Number(beta as real),
                     "features_planned" := Number(planned as real),
                     "features_in_progress" := Number(inProgress as real),
                     "features_deferred" := Number(deferred as real), "features_complete" := Number(stable as real),
                     "total_features" := Number(total as real),
                     "overall_progress_pct" := Number(if total == 0 then 0.0 else fmt.round(sum / total as real))];
    }

    /** Promotions, then demotions, all judged on the ledger as it was. */
    method ApplyTransitions(run: Run) returns (changed: bool)
      requires Valid()
      modifies this`features
      ensures Valid() && features == MoveAll(old(features), run, fmt)
      ensures changed <==> Changes(old(features), run)
    {
      ghost var before := features;
      var verdicts := Evaluate.Evaluate(features, order, run.evidence, run.history, run.world, run.streak);
      changed := Update(verdicts, IsEligible(), Promoting(run, fmt));
      if run.demotions {
        var demoted := Update(verdicts, IsFlagged(), Demoting(run, fmt));
        changed := changed || demoted;
      }
      assert features == BothPasses(before, verdicts, run, fmt);
      PassesAreMoves(before, verdicts, run, fmt);
      ChangesAre(before, verdicts, run, changed);
    }

    /** Applies the run; `written` tells whether the ledger file has to be written. */
    method Apply(run: Run) returns (written: bool)
      requires Valid()
      modifies this
      ensures Valid() && Contents() == Next(old(Contents()), order, run, fmt)
      ensures !written ==> Contents() == old(Contents())
    {
      ghost var before := features;
      var changed := ApplyTransitions(run);
      var recount := CountAll();
      var meta := NewMetadata(metadata, recount, changed, run);
      written := changed || (metadata.Some? && meta != metadata.value);
      if written {
        metadata := Some(meta);
      } else {
        NoMoves(before, run, fmt);
      }
    }
  }

  // ----- the two passes together -----

  /** Nothing is both promoted and demoted in one run. */
  lemma {:induction false} EligibleIsNotFlagged(features: Features, run: Run, fid: string)
    requires fid in features
    ensures !(VerdictIn(features, run, fid).eligible && VerdictIn(features, run, fid).flagged)
  {
    assert features[fid].status == Stable || !VerdictIn(features, run, fid).flagged;
  }

  function BothPasses(features: Features, verdicts: map<string, Verdict>, run: Run, fmt: Format): Features
    requires verdicts.Keys == features.Keys
  {
    var promoted := Pass(features, verdicts, Promoting(run, fmt));
    if run.demotions then Pass(promoted, verdicts, Demoting(run, fmt)) else promoted
  }

  lemma {:induction false} PassesAreMoves(features: Features, verdicts: map<string, Verdict>, run: Run, fmt: Format)
    requires verdicts == Verdicts(features, run.evidence, run.history, run.world, run.streak)
    ensures BothPasses(features, verdicts, run, fmt) == MoveAll(features, run, fmt)
  {
    var both, moved := BothPasses(features, verdicts, run, fmt), MoveAll(features, run, fmt);
    forall fid | fid in features ensures both[fid] == moved[fid] {
      PassesMove(features, verdicts, run, fmt, fid);
    }
    SameFeatures(both, moved);
  }

  lemma {:induction false} SameFeatures(a: Features, b: Features)
    requires a.Keys == b.Keys && forall fid :: fid in a ==> a[fid] == b[fid]
    ensures a == b
  {
  }

  lemma {:induction false} PassesMove(features: Features, verdicts: map<string, Verdict>, run: Run, fmt: Format,
                                      fid: string)
    requires verdicts == Verdicts(features, run.evidence, run.history, run.world, run.streak) && fid in features
    ensures fid in BothPasses(features, verdicts, run, fmt)
    ensures BothPasses(features, verdicts, run, fmt)[fid] == MoveAll(features, run, fmt)[fid]
  {
    assert verdicts[fid] == VerdictIn(features, run, fid);
    EligibleIsNotFlagged(features, run, fid);
    PassesOne(features, verdicts, run, fmt, fid);
  }

  lemma {:induction false} PassesOne(features: Features, verdicts: map<string, Verdict>, run: Run, fmt: Format,
                                     fid: string)
    requires verdicts.Keys == features.Keys && fid in features && !(verdicts[fid].eligible && verdicts[fid].flagged)
    ensures fid in BothPasses(features, verdicts, run, fmt)
    ensures BothPasses(features, verdicts, run, fmt)[fid] == Moved(features[fid], verdicts[fid], run, fmt)
  {
    OnePassAtMost(features[fid], verdicts[fid], run, fmt);
  }

  lemma {:induction false} OnePassAtMost(f: Feature, v: Verdict, run: Run, fmt: Format)
    requires !(v.eligible && v.flagged)
    ensures Moved(f, v, run, fmt) ==
            var promoted := IfPromoted(f, v, run, fmt);
            if run.demotions then IfDemoted(promoted, v, run, fmt) else promoted
  {
  }

  lemma {:induction false} ChangesAre(features: Features, verdicts: map<string, Verdict>, run: Run, changed: bool)
    requires verdicts == Verdicts(features, run.evidence, run.history, run.world, run.streak)
    requires changed <==> (exists fid :: fid in verdicts && IsEligible()(verdicts[fid]))
                          || (run.demotions && exists fid :: fid in verdicts && IsFlagged()(verdicts[fid]))
    ensures changed <==> Changes(features, run)
  {
    assert forall fid :: fid in features ==> verdicts[fid] == VerdictIn(features, run, fid);
    if changed {
      var fid :| fid in verdicts && (verdicts[fid].eligible || (run.demotions && verdicts[fid].flagged));
      assert Moves(VerdictIn(features, run, fid), run);
    }
  }

  lemma {:induction false} NoMoves(features: Features, run: Run, fmt: Format)
    requires !Changes(features, run)
    ensures MoveAll(features, run, fmt) == features
  {
    forall fid | fid in features
      ensures Moved(features[fid], VerdictIn(features, run, fid), run, fmt) == features[fid]
    {
      assert !Moves(VerdictIn(features, run, fid), run);
    }
  }
}
