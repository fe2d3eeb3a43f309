/** What every reason in a report of scripts/delivery-dag-check.py says, and in which order they come. */
module DagReasons {
  import opened DeliveryDag

  // ----- reasons on single tasks -----

  ghost predicate Identified(t: Entry, id: string) {
    t.Task? && t.id == Some(id)
  }

  ghost predicate KnownId(tasks: seq<Entry>, id: string) {
    exists t :: t in tasks && Identified(t, id)
  }

  ghost predicate HasPath(t: Entry, path: string) {
    t.Task? && t.files.Some? && path in t.files.value && path != ""
  }

  /** The reason applies to the task with this id. */
  ghost predicate Applies(w: Paths, tasks: seq<Entry>, t: Entry, id: string, r: Reason) {
    && Identified(t, id)
    && match r
       case MissingFiles(i) => i == id && t.files == None
       case MissingDependsOn(i) => i == id && t.dependsOn == None
       case UnknownDependency(i, dep) =>
         i == id && t.dependsOn.Some? && dep in t.dependsOn.value && !KnownId(tasks, dep)
       case TooManyFiles(i) => i == id && t.files.Some? && |t.files.value| > 4
       case TooManyLines(i) => i == id && t.changedLines.Some? && t.changedLines.value > 400
       case AlreadyComplete(i) => i == id && t.complete
       case AbsolutePath(i, path) => i == id && HasPath(t, path) && w.absolute(path)
       case DotDot(i, path) => i == id && HasPath(t, path) && w.dotted(path) && !w.absolute(path)
       case Escapes(i, path) =>
         i == id && HasPath(t, path) && w.place(path) == Outside && !w.absolute(path) && !w.dotted(path)
       case Unresolved(i, path) =>
         i == id && HasPath(t, path) && w.place(path) == Nowhere && !w.absolute(path) && !w.dotted(path)
       case _ => false
  }

  lemma {:induction false} KnownExactly(tasks: seq<Entry>, id: string)
    ensures id in Ids(tasks) <==> KnownId(tasks, id)
  {
    if id in Ids(tasks) {
      var t :| t in tasks && t.Task? && t.id.Some? && t.id.value == id;
      assert Identified(t, id);
    }
  }

  lemma {:induction false} UnknownExactly(ids: set<string>, id: string, deps: seq<string>, r: Reason)
    ensures r in UnknownDeps(ids, id, deps) <==>
            r.UnknownDependency? && r.id == id && r.dep in deps && r.dep !in ids
  {
    if deps != [] {
      var front, last := deps[..|deps| - 1], deps[|deps| - 1];
      UnknownExactly(ids, id, front, r);
      assert deps == front + [last];
    }
  }

  ghost predicate PathSays(w: Paths, id: string, path: string, r: Reason) {
    r in PathReason(w, id, path)
  }

  lemma {:induction false} PathsExactly(w: Paths, id: string, files: seq<string>, r: Reason)
    ensures r in PathReasons(w, id, files) <==> exists path :: path in files && PathSays(w, id, path, r)
  {
    if files != [] {
      var front, last := files[..|files| - 1], files[|files| - 1];
      PathsExactly(w, id, front, r);
      assert files == front + [last];
      assert r in PathReasons(w, id, files) <==> r in PathReasons(w, id, front) || PathSays(w, id, last, r);
    }
  }

  predicate OnPath(r: Reason) {
    r.AbsolutePath? || r.DotDot? || r.Escapes? || r.Unresolved?
  }

  lemma {:induction false} OnePathExactly(w: Paths, id: string, path: string, r: Reason)
    ensures PathSays(w, id, path, r) <==>
            && path != ""
            && match r
               case AbsolutePath(i, p) => i == id && p == path && w.absolute(path)
               case DotDot(i, p) => i == id && p == path && w.dotted(path) && !w.absolute(path)
               case Escapes(i, p) =>
                 i == id && p == path && w.place(path) == Outside && !w.absolute(path) && !w.dotted(path)
               case Unresolved(i, p) =>
                 i == id && p == path && w.place(path) == Nowhere && !w.absolute(path) && !w.dotted(path)
               case _ => false
  {
  }

  lemma {:induction false} PathReasonsApply(w: Paths, tasks: seq<Entry>, t: Entry, id: string, r: Reason)
    requires Identified(t, id)
    ensures r in PathReasons(w, id, FilesOf(t)) <==> OnPath(r) && Applies(w, tasks, t, id, r)
  {
    PathsExactly(w, id, FilesOf(t), r);
    forall path
      ensures PathSays(w, id, path, r) ==> OnPath(r) && path == r.path
    {
      OnePathExactly(w, id, path, r);
    }
    if OnPath(r) {
      OnePathExactly(w, id, r.path, r);
    }
  }

  lemma {:induction false} InSix(a: seq<Reason>, b: seq<Reason>, c: seq<Reason>, d: seq<Reason>, e: seq<Reason>,
                                 f: seq<Reason>, r: Reason)
    ensures r in a + b + c + d + e + f <==> r in a || r in b || r in c || r in d || r in e || r in f
  {
  }

  lemma {:induction false} DepsExactly(w: Paths, tasks: seq<Entry>, t: Entry, id: string, r: Reason)
    requires Identified(t, id)
    ensures r in (if t.dependsOn.None? then [MissingDependsOn(id)] else UnknownDeps(Ids(tasks), id, t.dependsOn.value))
            <==> (r.MissingDependsOn? || r.UnknownDependency?) && Applies(w, tasks, t, id, r)
  {
    if t.dependsOn.Some? {
      UnknownExactly(Ids(tasks), id, t.dependsOn.value, r);
    }
    if r.UnknownDependency? {
      KnownExactly(tasks, r.dep);
    }
  }

  lemma {:induction false} FlagsExactly(w: Paths, tasks: seq<Entry>, t: Entry, id: string, r: Reason)
    requires Identified(t, id)
    ensures r in When(t.files.None?, MissingFiles(id)) <==> r.MissingFiles? && Applies(w, tasks, t, id, r)
    ensures r in When(|FilesOf(t)| > 4, TooManyFiles(id)) <==> r.TooManyFiles? && Applies(w, tasks, t, id, r)
    ensures r in When(t.changedLines.Some? && t.changedLines.value > 400, TooManyLines(id)) <==>
            r.TooManyLines? && Applies(w, tasks, t, id, r)
    ensures r in When(t.complete, AlreadyComplete(id)) <==> r.AlreadyComplete? && Applies(w, tasks, t, id, r)
  {
  }

  /** The reasons on a task are those that apply to it. */
  lemma {:induction false} TaskExactly(w: Paths, tasks: seq<Entry>, t: Entry, id: string, r: Reason)
    requires Identified(t, id)
    ensures r in TaskReasons(w, Ids(tasks), t) <==> Applies(w, tasks, t, id, r)
  {
    InSix(When(t.files.None?, MissingFiles(id)),
          if t.dependsOn.None? then [MissingDependsOn(id)] else UnknownDeps(Ids(tasks), id, t.dependsOn.value),
          When(|FilesOf(t)| > 4, TooManyFiles(id)),
          When(t.changedLines.Some? && t.changedLines.value > 400, TooManyLines(id)),
          When(t.complete, AlreadyComplete(id)),
          PathReasons(w, id, FilesOf(t)), r);
    FlagsExactly(w, tasks, t, id, r);
    DepsExactly(w, tasks, t, id, r);
    PathReasonsApply(w, tasks, t, id, r);
  }

  // ----- the whole report -----

  ghost predicate AppliesSomewhere(w: Paths, tasks: seq<Entry>, r: Reason) {
    exists t, id :: t in tasks && Applies(w, tasks, t, id, r)
  }

  ghost predicate InTask(w: Paths, ids: set<string>, t: Entry, r: Reason) {
    r in TaskReasons(w, ids, t)
  }

  ghost predicate InAny(w: Paths, ids: set<string>, tasks: seq<Entry>, r: Reason) {
    exists t :: t in tasks && InTask(w, ids, t, r)
  }

  lemma {:induction false} PropertiesSnoc(w: Paths, ids: set<string>, front: seq<Entry>, last: Entry, r: Reason)
    ensures r in PropertyReasons(w, ids, front + [last]) <==>
            r in PropertyReasons(w, ids, front) || InTask(w, ids, last, r)
  {
    assert (front + [last])[..|front|] == front;
  }

  lemma {:induction false} PropertiesFrom(w: Paths, ids: set<string>, tasks: seq<Entry>, r: Reason)
    ensures r in PropertyReasons(w, ids, tasks) <==> InAny(w, ids, tasks, r)
  {
    if tasks != [] {
      var front, last := tasks[..|tasks| - 1], tasks[|tasks| - 1];
      PropertiesFrom(w, ids, front, r);
      assert tasks == front + [last];
      PropertiesSnoc(w, ids, front, last, r);
      TasksSnoc(w, ids, front, last, r);
    }
  }

  lemma {:induction false} TasksSnoc(w: Paths, ids: set<string>, front: seq<Entry>, last: Entry, r: Reason)
    ensures InAny(w, ids, front + [last], r) <==> InAny(w, ids, front, r) || InTask(w, ids, last, r)
  {
    var all := front + [last];
    assert last in all && forall t :: t in all <==> t in front || t == last;
  }

  lemma {:induction false} PropertiesExactly(w: Paths, tasks: seq<Entry>, r: Reason)
    ensures r in PropertyReasons(w, Ids(tasks), tasks) <==> AppliesSomewhere(w, tasks, r)
  {
    PropertiesFrom(w, Ids(tasks), tasks, r);
    if r in PropertyReasons(w, Ids(tasks), tasks) {
      var t :| t in tasks && InTask(w, Ids(tasks), t, r);
      NoIdNoReason(w, Ids(tasks), t);
      TaskExactly(w, tasks, t, t.id.value, r);
    }
    forall t, id | t in tasks && Applies(w, tasks, t, id, r) ensures r in PropertyReasons(w, Ids(tasks), tasks) {
      TaskExactly(w, tasks, t, id, r);
      assert InTask(w, Ids(tasks), t, r);
    }
  }

  lemma {:induction false} NoIdNoReason(w: Paths, ids: set<string>, t: Entry)
    ensures TaskReasons(w, ids, t) != [] ==> t.Task? && t.id.Some?
  {
  }

  ghost predicate Twice(tasks: seq<Entry>, id: string) {
    exists i, j :: 0 <= i < j < |tasks| && Identified(tasks[i], id) && Identified(tasks[j], id)
  }

  /** What the first pass says: an entry without an id, or an id that two tasks have. */
  ghost predicate SaysOfIds(tasks: seq<Entry>, r: Reason) {
    match r
    case TaskNotDictionary => NotADictionary in tasks
    case MissingId => exists t :: t in tasks && t.Task? && t.id == None
    case Duplicate(id) => Twice(tasks, id)
    case _ => false
  }

  lemma {:induction false} TwiceSnoc(front: seq<Entry>, last: Entry, id: string)
    ensures Twice(front + [last], id) <==> Twice(front, id) || (KnownId(front, id) && Identified(last, id))
  {
    var tasks := front + [last];
    if Twice(front, id) {
      var i, j :| 0 <= i < j < |front| && Identified(front[i], id) && Identified(front[j], id);
      assert Identified(tasks[i], id) && Identified(tasks[j], id);
    }
    if KnownId(front, id) && Identified(last, id) {
      var t :| t in front && Identified(t, id);
      var i :| 0 <= i < |front| && front[i] == t;
      assert Identified(tasks[i], id) && Identified(tasks[|front|], id);
    }
    if Twice(tasks, id) {
      var i, j :| 0 <= i < j < |tasks| && Identified(tasks[i], id) && Identified(tasks[j], id);
      assert Identified(front[i], id) && front[i] in front;
      assert j < |front| ==> Identified(front[j], id);
    }
  }

  lemma {:induction false} IdsExactly(tasks: seq<Entry>, r: Reason)
    ensures r in IdReasons(tasks) <==> SaysOfIds(tasks, r)
  {
    if tasks != [] {
      var front, last := tasks[..|tasks| - 1], tasks[|tasks| - 1];
      IdsExactly(front, r);
      assert tasks == front + [last];
      if r.Duplicate? {
        TwiceSnoc(front, last, r.id);
        KnownExactly(front, r.id);
      }
    }
  }

  predicate FromTheSearch(r: Reason) {
    r.CycleDetected? || r.DepthCap?
  }

  /** A report holds a reason on ids or on a task exactly when it applies. */
  lemma {:induction false} ReportExactly(w: Paths, tasks: seq<Entry>, reasons: seq<Reason>, r: Reason)
    requires Validation(w, tasks) == Report(reasons) && !FromTheSearch(r)
    ensures r in reasons <==> SaysOfIds(tasks, r) || AppliesSomewhere(w, tasks, r)
  {
    FailsExactly(w, tasks);
    IdsExactly(tasks, r);
    PropertiesExactly(w, tasks, r);
    OnlySearchReasons(tasks, tasks, IDLE);
  }

  // ----- order -----

  function Rank(r: Reason): nat {
    match r
    case MissingFiles(_) => 0
    case MissingDependsOn(_) => 1
    case UnknownDependency(_, _) => 1
    case TooManyFiles(_) => 2
    case TooManyLines(_) => 3
    case AlreadyComplete(_) => 4
    case _ => 5
  }

  ghost predicate RankIn(reasons: seq<Reason>, i: int, lo: nat, hi: nat) {
    0 <= i < |reasons| ==> lo <= Rank(reasons[i]) <= hi
  }

  ghost predicate RankLe(reasons: seq<Reason>, i: int, j: int) {
    0 <= i < j < |reasons| ==> Rank(reasons[i]) <= Rank(reasons[j])
  }

  /** In the order of the ranks, all of them from lo to hi. */
  ghost predicate Ranked(reasons: seq<Reason>, lo: nat, hi: nat) {
    (forall i :: RankIn(reasons, i, lo, hi)) && forall i, j :: RankLe(reasons, i, j)
  }

  lemma {:induction false} RankedBoth(a: seq<Reason>, b: seq<Reason>, lo: nat, mid: nat, mid': nat, hi: nat)
    requires Ranked(a, lo, mid) && Ranked(b, mid', hi) && lo <= mid <= mid' <= hi
    ensures Ranked(a + b, lo, hi)
  {
    forall i ensures RankIn(a + b, i, lo, hi) {
      assert RankIn(a, i, lo, mid) && RankIn(b, i - |a|, mid', hi);
    }
    forall i, j ensures RankLe(a + b, i, j) {
      assert RankLe(a, i, j) && RankLe(b, i - |a|, j - |a|);
      assert RankIn(a, i, lo, mid) && RankIn(b, j - |a|, mid', hi);
    }
  }

  lemma {:induction false} RankedOne(r: Reason)
    ensures Ranked([r], Rank(r), Rank(r))
  {
  }

  lemma {:induction false} UnknownRanked(ids: set<string>, id: string, deps: seq<string>)
    ensures Ranked(UnknownDeps(ids, id, deps), 1, 1)
  {
    if deps != [] {
      var front, last := deps[..|deps| - 1], deps[|deps| - 1];
      UnknownRanked(ids, id, front);
      if last !in ids {
        RankedOne(UnknownDependency(id, last));
        RankedBoth(UnknownDeps(ids, id, front), [UnknownDependency(id, last)], 1, 1, 1, 1);
      } else {
        assert UnknownDeps(ids, id, deps) == UnknownDeps(ids, id, front);
      }
    }
  }

  lemma {:induction false} PathRanked(w: Paths, id: string, path: string)
    ensures Ranked(PathReason(w, id, path), 5, 5)
  {
  }

  lemma {:induction false} PathsRanked(w: Paths, id: string, files: seq<string>)
    ensures Ranked(PathReasons(w, id, files), 5, 5)
  {
    if files != [] {
      PathsRanked(w, id, files[..|files| - 1]);
      PathRanked(w, id, files[|files| - 1]);
      RankedBoth(PathReasons(w, id, files[..|files| - 1]), PathReason(w, id, files[|files| - 1]), 5, 5, 5, 5);
    }
  }

  lemma {:induction false} RankedSix(a: seq<Reason>, b: seq<Reason>, c: seq<Reason>, d: seq<Reason>, e: seq<Reason>,
                                     f: seq<Reason>)
    requires Ranked(a, 0, 0) && Ranked(b, 1, 1) && Ranked(c, 2, 2) && Ranked(d, 3, 3) && Ranked(e, 4, 4)
    requires Ranked(f, 5, 5)
    ensures Ranked(a + b + c + d + e + f, 0, 5)
  {
    RankedBoth(a, b, 0, 0, 1, 1);
    RankedBoth(a + b, c, 0, 1, 2, 2);
    RankedBoth(a + b + c, d, 0, 2, 3, 3);
    RankedBoth(a + b + c + d, e, 0, 3, 4, 4);
    RankedBoth(a + b + c + d + e, f, 0, 4, 5, 5);
  }

  lemma {:induction false} WhenRanked(holds: bool, r: Reason)
    ensures Ranked(When(holds, r), Rank(r), Rank(r))
  {
  }

  lemma {:induction false} DepsRanked(ids: set<string>, id: string, t: Entry)
    requires t.Task?
    ensures Ranked(if t.dependsOn.None? then [MissingDependsOn(id)] else UnknownDeps(ids, id, t.dependsOn.value), 1, 1)
  {
    if t.dependsOn.Some? {
      UnknownRanked(ids, id, t.dependsOn.value);
    }
  }

  /** The reasons on a task come in the order files, dependencies, number of files, lines, status, paths. */
  lemma {:induction false} TaskInOrder(w: Paths, ids: set<string>, t: Entry)
    ensures Ranked(TaskReasons(w, ids, t), 0, 5)
  {
    if t.Task? && t.id.Some? {
      var id := t.id.value;
      DepsRanked(ids, id, t);
      PathsRanked(w, id, FilesOf(t));
      WhenRanked(t.files.None?, MissingFiles(id));
      WhenRanked(|FilesOf(t)| > 4, TooManyFiles(id));
      WhenRanked(t.changedLines.Some? && t.changedLines.value > 400, TooManyLines(id));
      WhenRanked(t.complete, AlreadyComplete(id));
      var a, c := When(t.files.None?, MissingFiles(id)), When(|FilesOf(t)| > 4, TooManyFiles(id));
      var b := if t.dependsOn.None? then [MissingDependsOn(id)] else UnknownDeps(ids, id, t.dependsOn.value);
      var d := When(t.changedLines.Some? && t.changedLines.value > 400, TooManyLines(id));
      var e, f := When(t.complete, AlreadyComplete(id)), PathReasons(w, id, FilesOf(t));
      RankedSix(a, b, c, d, e, f);
      assert TaskReasons(w, ids, t) == a + b + c + d + e + f;
    }
  }

  // ----- the depth cap -----

  /** A visit more than 1000 dependencies deep only reports the cap; one that is 1000 deep still looks at its task. */
  lemma {:induction false} CapExactly(tasks: seq<Entry>, node: string, s: Search)
    ensures Dfs(tasks, node, 1001, s) == s.(reasons := s.reasons + [DepthCap(node)])
    ensures node in s.inProgress ==> Dfs(tasks, node, 1000, s) == s.(reasons := s.reasons + [CycleDetected(node)])
  {
  }
}
