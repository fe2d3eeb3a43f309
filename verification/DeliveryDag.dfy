/** Model of `validate` (scripts/delivery-dag-check.py): the checks on single tasks and the recursive
cycle search with its depth cap. Ids are strings; what the file system says of a path comes from functions. */
module DeliveryDag {

  datatype Option<T> = None | Some(value: T)

  /** One entry of the list. `files` lists the paths, the empty string for a file without one; `changedLines` is
      None for null or absent. */
  datatype Entry =
    | NotADictionary
    | Task(id: Option<string>, files: Option<seq<string>>, dependsOn: Option<seq<string>>,
           changedLines: Option<int>, complete: bool)

  datatype Reason =
    | TaskNotDictionary
    | MissingId
    | Duplicate(id: string)
    | MissingFiles(id: string)
    | MissingDependsOn(id: string)
    | UnknownDependency(id: string, dep: string)
    | TooManyFiles(id: string)
    | TooManyLines(id: string)
    | AlreadyComplete(id: string)
    | AbsolutePath(id: string, path: string)
    | DotDot(id: string, path: string)
    | Escapes(id: string, path: string)
    | Unresolved(id: string, path: string)
    | CycleDetected(node: string)
    | DepthCap(node: string)

  datatype Outcome = AttributeError | Report(reasons: seq<Reason>)

  const DEPTH_CAP: nat := 1000

  /** Where a path leads once it is resolved against the repository root. */
  datatype Place = Inside | Outside | Nowhere

  datatype Paths = Paths(absolute: string -> bool, dotted: string -> bool, place: string -> Place)

  // ----- the dependency relation -----

  function DepsOf(t: Entry): seq<string> {
    if t.Task? && t.dependsOn.Some? then t.dependsOn.value else []
  }

  predicate Named(t: Entry, id: string) {
    t.Task? && t.id == Some(id)
  }

  /** Dependencies of the first task with this id. */
  function Deps(tasks: seq<Entry>, node: string): seq<string> {
    if tasks == [] then []
    else if Named(tasks[0], node) then DepsOf(tasks[0])
    else Deps(tasks[1..], node)
  }

  ghost predicate DependsOn(tasks: seq<Entry>, a: string, b: string) {
    exists t :: t in tasks && Named(t, a) && b in DepsOf(t)
  }

  /** Each node of p has the next one as a dependency. */
  ghost predicate Walk(tasks: seq<Entry>, p: seq<string>) {
    forall i :: 0 <= i < |p| - 1 ==> p[i + 1] in Deps(tasks, p[i])
  }

  ghost predicate IsCycle(tasks: seq<Entry>, p: seq<string>) {
    p != [] && Walk(tasks, p) && p[0] in Deps(tasks, p[|p| - 1])
  }

  ghost predicate OnCycle(tasks: seq<Entry>, node: string) {
    exists p :: IsCycle(tasks, p) && p[0] == node
  }

  ghost predicate Acyclic(tasks: seq<Entry>) {
    forall p :: !IsCycle(tasks, p)
  }

  function Ids(tasks: seq<Entry>): set<string> {
    set t | t in tasks && t.Task? && t.id.Some? :: t.id.value
  }

  // ----- checks on single tasks -----

  /** First pass over the list. */
  function IdReasons(tasks: seq<Entry>): seq<Reason> {
    if tasks == [] then []
    else
      var front, t := tasks[..|tasks| - 1], tasks[|tasks| - 1];
      IdReasons(front) +
      (if t.NotADictionary? then [TaskNotDictionary]
       else if t.id.None? then [MissingId]
       else if t.id.value in Ids(front) then [Duplicate(t.id.value)]
       else [])
  }

  function UnknownDeps(ids: set<string>, id: string, deps: seq<string>): seq<Reason> {
    if deps == [] then []
    else UnknownDeps(ids, id, deps[..|deps| - 1]) +
         (if deps[|deps| - 1] in ids then [] else [UnknownDependency(id, deps[|deps| - 1])])
  }

  function PathReason(w: Paths, id: string, path: string): seq<Reason> {
    if path == "" then []
    else if w.absolute(path) then [AbsolutePath(id, path)]
    else if w.dotted(path) then [DotDot(id, path)]
    else match w.place(path)
      case Inside => []
      case Outside => [Escapes(id, path)]
      case Nowhere => [Unresolved(id, path)]
  }

  function PathReasons(w: Paths, id: string, files: seq<string>): seq<Reason> {
    if files == [] then []
    else PathReasons(w, id, files[..|files| - 1]) + PathReason(w, id, files[|files| - 1])
  }

  function FilesOf(t: Entry): seq<string> {
    if t.Task? && t.files.Some? then t.files.value else []
  }

  function TaskReasons(w: Paths, ids: set<string>, t: Entry): seq<Reason> {
    if t.NotADictionary? || t.id.None? then []
    else
      var id := t.id.value;
      When(t.files.None?, MissingFiles(id)) +
      (if t.dependsOn.None? then [MissingDependsOn(id)] else UnknownDeps(ids, id, t.dependsOn.value)) +
      When(|FilesOf(t)| > 4, TooManyFiles(id)) +
      When(t.changedLines.Some? && t.changedLines.value > 400, TooManyLines(id)) +
      When(t.complete, AlreadyComplete(id)) + PathReasons(w, id, FilesOf(t))
  }

  function When(holds: bool, reason: Reason): seq<Reason> {
    if holds then [reason] else []
  }

  /** Second pass over the list. */
  function PropertyReasons(w: Paths, ids: set<string>, tasks: seq<Entry>): seq<Reason> {
    if tasks == [] then []
    else PropertyReasons(w, ids, tasks[..|tasks| - 1]) + TaskReasons(w, ids, tasks[|tasks| - 1])
  }

  // ----- the search -----

  /** `finish` lists the visited nodes in the order in which they were finished. */
  datatype Search = Search(visited: set<string>, inProgress: set<string>, finish: seq<string>, reasons: seq<Reason>)

  const IDLE := Search({}, {}, [], [])

  function Dfs(tasks: seq<Entry>, node: string, depth: nat, s: Search): Search
    requires depth <= DEPTH_CAP + 1
    decreases DEPTH_CAP + 1 - depth, 0
  {
    if depth > DEPTH_CAP then s.(reasons := s.reasons + [DepthCap(node)])
    else if node in s.inProgress then s.(reasons := s.reasons + [CycleDetected(node)])
    else if node in s.visited then s
    else
      var s' := DfsAll(tasks, Deps(tasks, node), depth + 1, s.(inProgress := s.inProgress + {node}));
      s'.(inProgress := s'.inProgress - {node}, visited := s'.visited + {node}, finish := s'.finish + [node])
  }

  function DfsAll(tasks: seq<Entry>, deps: seq<string>, depth: nat, s: Search): Search
    requires depth <= DEPTH_CAP + 1
    decreases DEPTH_CAP + 1 - depth, 1, |deps|
  {
    if deps == [] then s else DfsAll(tasks, deps[1..], depth, Dfs(tasks, deps[0], depth, s))
  }

  predicate IsRoot(t: Entry) {
    t.Task? && t.id.Some? && t.id.value != ""
  }

  /** The loop over the list: every named task that is not yet visited is a root. */
  function SearchFrom(tasks: seq<Entry>, roots: seq<Entry>, s: Search): Search
    decreases |roots|
  {
    if roots == [] then s
    else
      var t := roots[0];
      SearchFrom(tasks, roots[1..],
                 if IsRoot(t) && t.id.value !in s.visited then Dfs(tasks, t.id.value, 0, s) else s)
  }

  // ----- the search as it runs, which may fail -----

  /** The program's lookup asks entry after entry for its id; None is the attribute error on reaching one that
      is not a dictionary. */
  function Lookup(tasks: seq<Entry>, node: string): Option<seq<string>> {
    if tasks == [] then Some([])
    else if tasks[0].NotADictionary? then None
    else if Named(tasks[0], node) then Some(DepsOf(tasks[0]))
    else Lookup(tasks[1..], node)
  }

  function TryDfs(tasks: seq<Entry>, node: string, depth: nat, s: Search): Option<Search>
    requires depth <= DEPTH_CAP + 1
    decreases DEPTH_CAP + 1 - depth, 0
  {
    if depth > DEPTH_CAP then Some(s.(reasons := s.reasons + [DepthCap(node)]))
    else if node in s.inProgress then Some(s.(reasons := s.reasons + [CycleDetected(node)]))
    else if node in s.visited then Some(s)
    else if Lookup(tasks, node).None? then None
    else
      match TryAll(tasks, Lookup(tasks, node).value, depth + 1, s.(inProgress := s.inProgress + {node}))
      case None => None
      case Some(s') =>
        Some(s'.(inProgress := s'.inProgress - {node}, visited := s'.visited + {node}, finish := s'.finish + [node]))
  }

  function TryAll(tasks: seq<Entry>, deps: seq<string>, depth: nat, s: Search): Option<Search>
    requires depth <= DEPTH_CAP + 1
    decreases DEPTH_CAP + 1 - depth, 1, |deps|
  {
    if deps == [] then Some(s)
    else
      match TryDfs(tasks, deps[0], depth, s)
      case None => None
      case Some(s') => TryAll(tasks, deps[1..], depth, s')
  }

  function TryFrom(tasks: seq<Entry>, roots: seq<Entry>, s: Search): Option<Search>
    decreases |roots|
  {
    if roots == [] then Some(s)
    else if roots[0].NotADictionary? then None
    else if IsRoot(roots[0]) && roots[0].id.value !in s.visited then
      match TryDfs(tasks, roots[0].id.value, 0, s)
      case None => None
      case Some(s') => TryFrom(tasks, roots[1..], s')
    else TryFrom(tasks, roots[1..], s)
  }

  function Validation(w: Paths, tasks: seq<Entry>): Outcome {
    match TryFrom(tasks, tasks, IDLE)
    case None => AttributeError
    case Some(s) => Report(IdReasons(tasks) + PropertyReasons(w, Ids(tasks), tasks) + s.reasons)
  }

  lemma {:induction false} LookupSucceeds(tasks: seq<Entry>, node: string)
    requires NotADictionary !in tasks
    ensures Lookup(tasks, node) == Some(Deps(tasks, node))
  {
    if tasks != [] {
      assert tasks[0] in tasks;
      LookupSucceeds(tasks[1..], node);
    }
  }

  lemma {:induction false} TryDfsSucceeds(tasks: seq<Entry>, node: string, depth: nat, s: Search)
    requires depth <= DEPTH_CAP + 1 && NotADictionary !in tasks
    ensures TryDfs(tasks, node, depth, s) == Some(Dfs(tasks, node, depth, s))
    decreases DEPTH_CAP + 1 - depth, 0
  {
    LookupSucceeds(tasks, node);
    if depth <= DEPTH_CAP && node !in s.inProgress && node !in s.visited {
      TryAllSucceeds(tasks, Deps(tasks, node), depth + 1, s.(inProgress := s.inProgress + {node}));
    }
  }

  lemma {:induction false} TryAllSucceeds(tasks: seq<Entry>, deps: seq<string>, depth: nat, s: Search)
    requires depth <= DEPTH_CAP + 1 && NotADictionary !in tasks
    ensures TryAll(tasks, deps, depth, s) == Some(DfsAll(tasks, deps, depth, s))
    decreases DEPTH_CAP + 1 - depth, 1, |deps|
  {
    if deps != [] {
      TryDfsSucceeds(tasks, deps[0], depth, s);
      TryAllSucceeds(tasks, deps[1..], depth, Dfs(tasks, deps[0], depth, s));
    }
  }

  lemma {:induction false} TryFromSucceeds(tasks: seq<Entry>, roots: seq<Entry>, s: Search)
    requires NotADictionary !in tasks && NotADictionary !in roots
    ensures TryFrom(tasks, roots, s) == Some(SearchFrom(tasks, roots, s))
    decreases |roots|
  {
    if roots != [] {
      assert roots[0] in roots;
      if IsRoot(roots[0]) && roots[0].id.value !in s.visited {
        TryDfsSucceeds(tasks, roots[0].id.value, 0, s);
        TryFromSucceeds(tasks, roots[1..], Dfs(tasks, roots[0].id.value, 0, s));
      } else {
        TryFromSucceeds(tasks, roots[1..], s);
      }
    }
  }

  /** The root loop, if no lookup failed before, reaches every entry. */
  lemma {:induction false} TryFromFails(tasks: seq<Entry>, roots: seq<Entry>, s: Search)
    requires NotADictionary in roots
    ensures TryFrom(tasks, roots, s).None?
    decreases |roots|
  {
    if !roots[0].NotADictionary? {
      assert NotADictionary in roots[1..];
      if IsRoot(roots[0]) && roots[0].id.value !in s.visited {
        var next := TryDfs(tasks, roots[0].id.value, 0, s);
        if next.Some? {
          TryFromFails(tasks, roots[1..], next.value);
        }
      } else {
        TryFromFails(tasks, roots[1..], s);
      }
    }
  }

  /** An entry that is not a dictionary always ends the run in an attribute error, in a lookup or in the root
      loop, so the reason on it is never reported; without one the search never fails. */
  lemma {:induction false} FailsExactly(w: Paths, tasks: seq<Entry>)
    ensures Validation(w, tasks) == AttributeError <==> NotADictionary in tasks
    ensures NotADictionary !in tasks ==> TryFrom(tasks, tasks, IDLE) == Some(SearchFrom(tasks, tasks, IDLE))
    ensures forall reasons :: Validation(w, tasks) == Report(reasons) ==> TaskNotDictionary !in reasons
  {
    if NotADictionary in tasks {
      TryFromFails(tasks, tasks, IDLE);
    } else {
      TryFromSucceeds(tasks, tasks, IDLE);
      OnlyDictionaries(w, tasks);
    }
  }

  ghost predicate NoneOnEntries(reasons: seq<Reason>) {
    TaskNotDictionary !in reasons
  }

  lemma {:induction false} NoneInParts(w: Paths, ids: set<string>, t: Entry)
    ensures NoneOnEntries(TaskReasons(w, ids, t))
  {
    if t.Task? && t.id.Some? {
      if t.dependsOn.Some? {
        NoneInDeps(ids, t.id.value, t.dependsOn.value);
      }
      NoneInPaths(w, t.id.value, FilesOf(t));
    }
  }

  lemma {:induction false} NoneInDeps(ids: set<string>, id: string, deps: seq<string>)
    ensures NoneOnEntries(UnknownDeps(ids, id, deps))
  {
    if deps != [] {
      NoneInDeps(ids, id, deps[..|deps| - 1]);
    }
  }

  lemma {:induction false} NoneInPaths(w: Paths, id: string, files: seq<string>)
    ensures NoneOnEntries(PathReasons(w, id, files))
  {
    if files != [] {
      NoneInPaths(w, id, files[..|files| - 1]);
    }
  }

  lemma {:induction false} NoneInIds(tasks: seq<Entry>)
    requires NotADictionary !in tasks
    ensures NoneOnEntries(IdReasons(tasks))
  {
    if tasks != [] {
      assert tasks[|tasks| - 1] in tasks;
      NoneInIds(tasks[..|tasks| - 1]);
    }
  }

  lemma {:induction false} NoneInProperties(w: Paths, ids: set<string>, tasks: seq<Entry>)
    ensures NoneOnEntries(PropertyReasons(w, ids, tasks))
  {
    if tasks != [] {
      NoneInProperties(w, ids, tasks[..|tasks| - 1]);
      NoneInParts(w, ids, tasks[|tasks| - 1]);
    }
  }

  lemma {:induction false} OnlyDictionaries(w: Paths, tasks: seq<Entry>)
    requires NotADictionary !in tasks
    ensures NoneOnEntries(IdReasons(tasks) + PropertyReasons(w, Ids(tasks), tasks)
                          + SearchFrom(tasks, tasks, IDLE).reasons)
  {
    NoneInIds(tasks);
    NoneInProperties(w, Ids(tasks), tasks);
    OnlySearchReasons(tasks, tasks, IDLE);
  }

  // ----- what one call of the search keeps -----

  ghost predicate Distinct(p: seq<string>) {
    forall i, j :: 0 <= i < j < |p| ==> p[i] != p[j]
  }

  /** Dependencies finish before the nodes that need them. */
  ghost predicate Topological(tasks: seq<Entry>, finish: seq<string>) {
    forall i, dep :: 0 <= i < |finish| && dep in Deps(tasks, finish[i]) ==> dep in finish[..i]
  }

  /** A cycle is reported only for a node on a cycle, the cap only with more than 1000 tasks. */
  ghost predicate Justified(tasks: seq<Entry>, r: Reason) {
    (r.CycleDetected? ==> OnCycle(tasks, r.node)) && (r.DepthCap? ==> |tasks| > DEPTH_CAP)
  }

  ghost predicate Sound(tasks: seq<Entry>, s: Search) {
    && (forall x :: x in s.visited <==> x in s.finish)
    && (forall r :: r in s.reasons ==> Justified(tasks, r))
    && (s.reasons == [] ==> Topological(tasks, s.finish))
    && Distinct(s.finish)
    && s.inProgress !! s.visited
  }

  /** path holds the nodes in progress, outermost first, and leads to node. */
  ghost predicate Leads(tasks: seq<Entry>, path: seq<string>, s: Search) {
    Walk(tasks, path) && Distinct(path) && forall x :: x in s.inProgress <==> x in path
  }

  ghost predicate Grows(s: Search, s': Search) {
    && s'.inProgress == s.inProgress
    && s.visited <= s'.visited
    && s.reasons <= s'.reasons
  }

  lemma {:induction false} DepsAreOfTasks(tasks: seq<Entry>, node: string)
    requires Deps(tasks, node) != []
    ensures node in Ids(tasks)
  {
    if !Named(tasks[0], node) {
      DepsAreOfTasks(tasks[1..], node);
      var t :| t in tasks[1..] && t.Task? && t.id.Some? && t.id.value == node;
      assert t in tasks;
    } else {
      assert tasks[0] in tasks;
    }
  }

  lemma {:induction false} FewIds(tasks: seq<Entry>)
    ensures |Ids(tasks)| <= |tasks|
  {
    if tasks == [] {
      assert Ids(tasks) == {};
    } else {
      var t := tasks[0];
      FewIds(tasks[1..]);
      var named := if t.Task? && t.id.Some? then {t.id.value} else {};
      assert Ids(tasks) == Ids(tasks[1..]) + named by {
        assert tasks == [t] + tasks[1..];
      }
    }
  }

  lemma {:induction false} DistinctFit(p: seq<string>, ids: set<string>)
    requires Distinct(p) && forall x :: x in p ==> x in ids
    ensures |p| <= |ids|
  {
    if p != [] {
      var last := p[|p| - 1];
      forall x | x in p[..|p| - 1] ensures x != last && x in ids {
        assert x in p;
      }
      DistinctFit(p[..|p| - 1], ids - {last});
    }
  }

  /** A path that long needs that many tasks: every node on it has a dependency. */
  lemma {:induction false} LongPath(tasks: seq<Entry>, path: seq<string>, node: string)
    requires Walk(tasks, path + [node]) && Distinct(path)
    ensures |path| <= |tasks|
  {
    forall x | x in path ensures x in Ids(tasks) {
      var i :| 0 <= i < |path| && path[i] == x;
      assert (path + [node])[i + 1] in Deps(tasks, (path + [node])[i]);
      DepsAreOfTasks(tasks, x);
    }
    DistinctFit(path, Ids(tasks));
    FewIds(tasks);
  }

  /** Meeting a node in progress closes a cycle through it. */
  lemma {:induction false} ClosesCycle(tasks: seq<Entry>, path: seq<string>, node: string)
    requires Walk(tasks, path + [node]) && node in path
    ensures OnCycle(tasks, node)
  {
    var i :| 0 <= i < |path| && path[i] == node;
    var p, w := path[i..], path + [node];
    forall j | 0 <= j < |p| - 1 ensures p[j + 1] in Deps(tasks, p[j]) {
      assert w[i + j + 1] in Deps(tasks, w[i + j]);
    }
    assert w[|path|] in Deps(tasks, w[|path| - 1]);
    assert IsCycle(tasks, p);
  }

  lemma {:induction false} ReportKeepsSound(tasks: seq<Entry>, s: Search, r: Reason)
    requires Sound(tasks, s) && Justified(tasks, r)
    ensures Sound(tasks, s.(reasons := s.reasons + [r])) && Grows(s, s.(reasons := s.reasons + [r]))
  {
  }

  /** Finishing a node whose dependencies are all visited. */
  lemma {:induction false} FinishKeepsSound(tasks: seq<Entry>, s: Search, node: string)
    requires Sound(tasks, s) && node in s.inProgress
    requires (s.reasons == [] ==> forall dep :: dep in Deps(tasks, node) ==> dep in s.visited)
    ensures Sound(tasks, s.(inProgress := s.inProgress - {node}, visited := s.visited + {node},
                            finish := s.finish + [node]))
  {
    var finish := s.finish + [node];
    if s.reasons == [] {
      forall i, dep | 0 <= i < |finish| && dep in Deps(tasks, finish[i]) ensures dep in finish[..i] {
        if i < |s.finish| {
          assert dep in s.finish[..i] && finish[..i] == s.finish[..i];
        } else {
          assert finish[..i] == s.finish;
        }
      }
    }
  }

  lemma {:induction false} DfsFacts(tasks: seq<Entry>, node: string, depth: nat, s: Search, path: seq<string>)
    requires depth <= DEPTH_CAP + 1 && |path| == depth
    requires Sound(tasks, s) && Leads(tasks, path, s) && Walk(tasks, path + [node])
    ensures var s' := Dfs(tasks, node, depth, s);
            Sound(tasks, s') && Grows(s, s') && (s'.reasons == [] ==> node in s'.visited)
    decreases DEPTH_CAP + 1 - depth, 0
  {
    if depth > DEPTH_CAP {
      LongPath(tasks, path, node);
      ReportKeepsSound(tasks, s, DepthCap(node));
    } else if node in s.inProgress {
      ClosesCycle(tasks, path, node);
      ReportKeepsSound(tasks, s, CycleDetected(node));
    } else if node !in s.visited {
      var s0 := s.(inProgress := s.inProgress + {node});
      var deps := Deps(tasks, node);
      assert Leads(tasks, path + [node], s0) && Sound(tasks, s0);
      DfsAllFacts(tasks, node, deps, depth + 1, s0, path + [node]);
      var s1 := DfsAll(tasks, deps, depth + 1, s0);
      FinishKeepsSound(tasks, s1, node);
      assert s1.inProgress - {node} == s.inProgress;
    }
  }

  lemma {:induction false} DfsAllFacts(tasks: seq<Entry>, node: string, deps: seq<string>, depth: nat, s: Search,
                                       path: seq<string>)
    requires 0 < depth <= DEPTH_CAP + 1 && |path| == depth && path[depth - 1] == node
    requires Sound(tasks, s) && Leads(tasks, path, s)
    requires forall dep :: dep in deps ==> dep in Deps(tasks, node)
    ensures var s' := DfsAll(tasks, deps, depth, s);
            Sound(tasks, s') && Grows(s, s') && (s'.reasons == [] ==> forall dep :: dep in deps ==> dep in s'.visited)
    decreases DEPTH_CAP + 1 - depth, 1, |deps|
  {
    if deps != [] {
      WalkOn(tasks, path, deps[0]);
      DfsFacts(tasks, deps[0], depth, s, path);
      var s1 := Dfs(tasks, deps[0], depth, s);
      DfsAllFacts(tasks, node, deps[1..], depth, s1, path);
      assert deps == [deps[0]] + deps[1..];
    }
  }

  lemma {:induction false} WalkOn(tasks: seq<Entry>, path: seq<string>, next: string)
    requires path != [] && Walk(tasks, path) && next in Deps(tasks, path[|path| - 1])
    ensures Walk(tasks, path + [next])
  {
    var w := path + [next];
    forall i | 0 <= i < |w| - 1 ensures w[i + 1] in Deps(tasks, w[i]) {
      if i < |path| - 1 {
        assert path[i + 1] in Deps(tasks, path[i]);
      }
    }
  }

  lemma {:induction false} SearchFacts(tasks: seq<Entry>, roots: seq<Entry>, s: Search)
    requires Sound(tasks, s) && s.inProgress == {}
    ensures var s' := SearchFrom(tasks, roots, s);
            && Sound(tasks, s') && Grows(s, s')
            && (s'.reasons == [] ==> forall t :: t in roots && IsRoot(t) ==> t.id.value in s'.visited)
    decreases |roots|
  {
    if roots != [] {
      var t := roots[0];
      var s1 := if IsRoot(t) && t.id.value !in s.visited then Dfs(tasks, t.id.value, 0, s) else s;
      if IsRoot(t) && t.id.value !in s.visited {
        DfsFacts(tasks, t.id.value, 0, s, []);
      }
      SearchFacts(tasks, roots[1..], s1);
      assert roots == [t] + roots[1..];
    }
  }

  // ----- main results -----

  /** A node that has finished topologically is on no cycle: along a cycle the finish position would
      have to fall for ever. */
  lemma {:induction false} FinishedIsOffCycle(tasks: seq<Entry>, finish: seq<string>, p: seq<string>, k: nat)
    requires Topological(tasks, finish) && IsCycle(tasks, p) && k < |finish| && finish[k] == p[0]
    ensures false
    decreases k
  {
    var j := FollowCycle(tasks, finish, p, k, |p| - 1);
    var i :| 0 <= i < j && finish[i] == p[0] by {
      assert p[0] in Deps(tasks, finish[j]);
      assert p[0] in finish[..j];
    }
    FinishedIsOffCycle(tasks, finish, p, i);
  }

  /** The n-th node of the walk occurs no later than the first. */
  lemma {:induction false} FollowCycle(tasks: seq<Entry>, finish: seq<string>, p: seq<string>, k: nat, n: nat)
    returns (j: nat)
    requires Topological(tasks, finish) && Walk(tasks, p) && n < |p| && k < |finish| && finish[k] == p[0]
    ensures j <= k && finish[j] == p[n]
  {
    if n == 0 {
      j := k;
    } else {
      var i := FollowCycle(tasks, finish, p, k, n - 1);
      assert p[n - 1 + 1] in Deps(tasks, finish[i]);
      assert p[n] in finish[..i];
      j :| 0 <= j < i && finish[j] == p[n];
    }
  }

  lemma {:induction false} RotateCycle(tasks: seq<Entry>, p: seq<string>)
    requires IsCycle(tasks, p) && |p| > 1
    ensures IsCycle(tasks, p[1..] + [p[0]])
  {
    var q := p[1..] + [p[0]];
    forall i | 0 <= i < |q| - 1 ensures q[i + 1] in Deps(tasks, q[i]) {
      assert q[i] == p[i + 1];
      if i + 2 < |p| {
        assert p[i + 1 + 1] in Deps(tasks, p[i + 1]);
      }
    }
    assert p[0 + 1] in Deps(tasks, p[0]);
  }

  lemma {:induction false} RootIsNamed(tasks: seq<Entry>, id: string) returns (t: Entry)
    requires id in Ids(tasks) && id != ""
    ensures t in tasks && IsRoot(t) && t.id.value == id
  {
    t :| t in tasks && t.Task? && t.id.Some? && t.id.value == id;
  }

  /** When the search reports nothing, a cycle can only be an empty id that depends on itself. */
  lemma {:induction false} QuietSearch(tasks: seq<Entry>)
    requires SearchFrom(tasks, tasks, IDLE).reasons == []
    ensures Acyclic(tasks) <==> "" !in Deps(tasks, "")
  {
    var s := SearchFrom(tasks, tasks, IDLE);
    SearchFacts(tasks, tasks, IDLE);
    if "" in Deps(tasks, "") {
      assert IsCycle(tasks, [""]);
    }
    forall p | IsCycle(tasks, p) ensures "" in Deps(tasks, "") {
      if p[0] != "" {
        NamedCycle(tasks, s.finish, p);
      } else if |p| > 1 && p[1] != "" {
        RotateCycle(tasks, p);
        NamedCycle(tasks, s.finish, p[1..] + [p[0]]);
      } else if |p| > 1 {
        assert p[0 + 1] in Deps(tasks, p[0]);
      }
    }
  }

  lemma {:induction false} NamedCycle(tasks: seq<Entry>, finish: seq<string>, p: seq<string>)
    requires Topological(tasks, finish) && IsCycle(tasks, p) && p[0] != ""
    requires forall t :: t in tasks && IsRoot(t) ==> t.id.value in finish
    ensures false
  {
    assert Deps(tasks, p[0]) != [] by {
      if |p| > 1 {
        assert p[0 + 1] in Deps(tasks, p[0]);
      }
    }
    DepsAreOfTasks(tasks, p[0]);
    var t := RootIsNamed(tasks, p[0]);
    var k :| 0 <= k < |finish| && finish[k] == p[0];
    FinishedIsOffCycle(tasks, finish, p, k);
  }

  /** With no self-dependent empty id and at most 1000 tasks, the search reports nothing exactly when
      the dependencies are acyclic; whatever it reports is a cycle and never the depth cap. */
  lemma {:induction false} SearchDecidesAcyclicity(tasks: seq<Entry>)
    requires |tasks| <= DEPTH_CAP && "" !in Deps(tasks, "")
    ensures SearchFrom(tasks, tasks, IDLE).reasons == [] <==> Acyclic(tasks)
    ensures forall r :: r in SearchFrom(tasks, tasks, IDLE).reasons ==> r.CycleDetected? && OnCycle(tasks, r.node)
  {
    SearchFacts(tasks, tasks, IDLE);
    OnlySearchReasons(tasks, tasks, IDLE);
    var reasons := SearchFrom(tasks, tasks, IDLE).reasons;
    if reasons == [] {
      QuietSearch(tasks);
    } else {
      assert reasons[0] in reasons;
      assert Justified(tasks, reasons[0]);
    }
  }

  ghost predicate FromSearch(reasons: seq<Reason>) {
    forall r :: r in reasons ==> r.CycleDetected? || r.DepthCap?
  }

  lemma {:induction false} OnlyDfsReasons(tasks: seq<Entry>, node: string, depth: nat, s: Search)
    requires depth <= DEPTH_CAP + 1 && FromSearch(s.reasons)
    ensures FromSearch(Dfs(tasks, node, depth, s).reasons)
    decreases DEPTH_CAP + 1 - depth, 0
  {
    if depth <= DEPTH_CAP && node !in s.inProgress && node !in s.visited {
      OnlyDfsAllReasons(tasks, Deps(tasks, node), depth + 1, s.(inProgress := s.inProgress + {node}));
    }
  }

  lemma {:induction false} OnlyDfsAllReasons(tasks: seq<Entry>, deps: seq<string>, depth: nat, s: Search)
    requires depth <= DEPTH_CAP + 1 && FromSearch(s.reasons)
    ensures FromSearch(DfsAll(tasks, deps, depth, s).reasons)
    decreases DEPTH_CAP + 1 - depth, 1, |deps|
  {
    if deps != [] {
      OnlyDfsReasons(tasks, deps[0], depth, s);
      OnlyDfsAllReasons(tasks, deps[1..], depth, Dfs(tasks, deps[0], depth, s));
    }
  }

  lemma {:induction false} OnlySearchReasons(tasks: seq<Entry>, roots: seq<Entry>, s: Search)
    requires FromSearch(s.reasons)
    ensures FromSearch(SearchFrom(tasks, roots, s).reasons)
    decreases |roots|
  {
    if roots != [] {
      var t := roots[0];
      if IsRoot(t) && t.id.value !in s.visited {
        OnlyDfsReasons(tasks, t.id.value, 0, s);
      }
      OnlySearchReasons(tasks, roots[1..],
                        if IsRoot(t) && t.id.value !in s.visited then Dfs(tasks, t.id.value, 0, s) else s);
    }
  }

  // ----- the whole validation -----

  ghost predicate UniqueIds(tasks: seq<Entry>) {
    forall i, j :: 0 <= i < j < |tasks| && tasks[i].Task? && tasks[j].Task? && tasks[i].id.Some? ==>
      tasks[i].id != tasks[j].id
  }

  ghost predicate AllIdentified(tasks: seq<Entry>) {
    forall t :: t in tasks ==> t.Task? && t.id.Some?
  }

  lemma {:induction false} QuietIds(tasks: seq<Entry>)
    ensures IdReasons(tasks) == [] <==> AllIdentified(tasks) && UniqueIds(tasks)
  {
    if tasks != [] {
      var front, last := tasks[..|tasks| - 1], tasks[|tasks| - 1];
      assert tasks == front + [last];
      QuietIds(front);
      assert AllIdentified(tasks) <==> AllIdentified(front) && last.Task? && last.id.Some?;
      if AllIdentified(tasks) {
        NewId(front, last);
      }
    }
  }

  lemma {:induction false} NewId(front: seq<Entry>, last: Entry)
    requires AllIdentified(front + [last])
    ensures UniqueIds(front + [last]) <==> UniqueIds(front) && last.id.value !in Ids(front)
  {
    var tasks := front + [last];
    assert last in tasks && forall t :: t in front ==> t in tasks;
    assert forall i :: 0 <= i < |front| ==> tasks[i] == front[i] && front[i] in front;
    if last.id.value in Ids(front) {
      var t :| t in front && t.Task? && t.id.Some? && t.id.value == last.id.value;
      var i :| 0 <= i < |front| && front[i] == t;
      assert tasks[i].id == tasks[|front|].id;
    } else {
      assert forall i :: 0 <= i < |front| ==> front[i].id.value in Ids(front);
    }
  }

  lemma {:induction false} QuietDeps(ids: set<string>, id: string, deps: seq<string>)
    ensures UnknownDeps(ids, id, deps) == [] <==> forall dep :: dep in deps ==> dep in ids
  {
    if deps != [] {
      QuietDeps(ids, id, deps[..|deps| - 1]);
      assert deps == deps[..|deps| - 1] + [deps[|deps| - 1]];
    }
  }

  /** A path that raises no reason: none at all, or relative, without `..`, and inside the repository. */
  ghost predicate GoodPath(w: Paths, path: string) {
    path != "" ==> !w.absolute(path) && !w.dotted(path) && w.place(path).Inside?
  }

  lemma {:induction false} QuietPaths(w: Paths, id: string, files: seq<string>)
    ensures PathReasons(w, id, files) == [] <==> forall path :: path in files ==> GoodPath(w, path)
  {
    if files != [] {
      var front, last := files[..|files| - 1], files[|files| - 1];
      QuietPaths(w, id, front);
      assert files == front + [last];
      assert PathReason(w, id, last) == [] <==> GoodPath(w, last);
      assert |PathReasons(w, id, files)| == |PathReasons(w, id, front)| + |PathReason(w, id, last)|;
    }
  }

  /** A small, unfinished task with good paths and known dependencies. */
  ghost predicate Acceptable(w: Paths, ids: set<string>, t: Entry) {
    && t.Task? && t.files.Some? && |t.files.value| <= 4 && (forall path :: path in t.files.value ==> GoodPath(w, path))
    && t.dependsOn.Some? && (forall dep :: dep in t.dependsOn.value ==> dep in ids)
    && (t.changedLines.Some? ==> t.changedLines.value <= 400) && !t.complete
  }

  ghost predicate AllAcceptable(w: Paths, ids: set<string>, tasks: seq<Entry>) {
    forall t :: t in tasks ==> Acceptable(w, ids, t)
  }

  lemma {:induction false} QuietTask(w: Paths, ids: set<string>, t: Entry)
    requires t.Task? && t.id.Some?
    ensures TaskReasons(w, ids, t) == [] <==> Acceptable(w, ids, t)
  {
    var id := t.id.value;
    if t.dependsOn.Some? {
      QuietDeps(ids, id, t.dependsOn.value);
    }
    QuietPaths(w, id, FilesOf(t));
    var deps := if t.dependsOn.None? then [MissingDependsOn(id)] else UnknownDeps(ids, id, t.dependsOn.value);
    assert |TaskReasons(w, ids, t)| == |When(t.files.None?, MissingFiles(id))| + |deps|
      + |When(|FilesOf(t)| > 4, TooManyFiles(id))|
      + |When(t.changedLines.Some? && t.changedLines.value > 400, TooManyLines(id))|
      + |When(t.complete, AlreadyComplete(id))| + |PathReasons(w, id, FilesOf(t))|;
  }

  lemma {:induction false} QuietProperties(w: Paths, ids: set<string>, tasks: seq<Entry>)
    requires AllIdentified(tasks)
    ensures PropertyReasons(w, ids, tasks) == [] <==> AllAcceptable(w, ids, tasks)
  {
    if tasks != [] {
      var front, last := tasks[..|tasks| - 1], tasks[|tasks| - 1];
      assert tasks == front + [last];
      assert AllIdentified(front) && last in tasks;
      QuietProperties(w, ids, front);
      QuietTask(w, ids, last);
    }
  }

  lemma {:induction false} NoneAtAll(a: seq<Reason>, b: seq<Reason>, c: seq<Reason>)
    ensures a + b + c == [] <==> a == [] && b == [] && c == []
  {
    assert |a + b + c| == |a| + |b| + |c|;
  }

  /** The report is empty exactly when every entry is an identified, acceptable task, ids are distinct and
      the dependencies are acyclic, for up to 1000 tasks and no empty id that depends on itself. */
  lemma {:induction false} EmptyReportExactly(w: Paths, tasks: seq<Entry>)
    requires |tasks| <= DEPTH_CAP && "" !in Deps(tasks, "")
    ensures Validation(w, tasks) == Report([]) <==>
            AllIdentified(tasks) && UniqueIds(tasks) && AllAcceptable(w, Ids(tasks), tasks) && Acyclic(tasks)
  {
    FailsExactly(w, tasks);
    QuietIds(tasks);
    if AllIdentified(tasks) {
      QuietProperties(w, Ids(tasks), tasks);
    }
    SearchDecidesAcyclicity(tasks);
    NoneAtAll(IdReasons(tasks), PropertyReasons(w, Ids(tasks), tasks), SearchFrom(tasks, tasks, IDLE).reasons);
  }

  /** With distinct ids, looking up the first task of that name loses nothing. */
  lemma {:induction false} DepsIsDependsOn(tasks: seq<Entry>, a: string, b: string)
    requires UniqueIds(tasks)
    ensures b in Deps(tasks, a) <==> DependsOn(tasks, a, b)
  {
    if tasks != [] {
      assert tasks == [tasks[0]] + tasks[1..];
      if Named(tasks[0], a) {
        forall t | t in tasks && Named(t, a) ensures t == tasks[0] {
          var j :| 0 <= j < |tasks| && tasks[j] == t;
        }
        assert tasks[0] in tasks;
      } else {
        DepsIsDependsOn(tasks[1..], a, b);
      }
    }
  }

  /** What an empty report guarantees: distinct ids, known dependencies, and a finish order in which
      every named task comes after its dependencies; the relation is then acyclic, except for an empty id
      that depends on itself. */
  lemma {:induction false} EmptyReport(w: Paths, tasks: seq<Entry>)
    requires Validation(w, tasks) == Report([])
    ensures AllIdentified(tasks) && UniqueIds(tasks) && AllAcceptable(w, Ids(tasks), tasks)
    ensures forall a, b :: b in Deps(tasks, a) <==> DependsOn(tasks, a, b)
    ensures var finish := SearchFrom(tasks, tasks, IDLE).finish;
            && Topological(tasks, finish) && Distinct(finish)
            && forall id :: id in Ids(tasks) && id != "" ==> id in finish
    ensures Acyclic(tasks) <==> !DependsOn(tasks, "", "")
  {
    var s := SearchFrom(tasks, tasks, IDLE);
    FailsExactly(w, tasks);
    NoneAtAll(IdReasons(tasks), PropertyReasons(w, Ids(tasks), tasks), s.reasons);
    QuietIds(tasks);
    QuietProperties(w, Ids(tasks), tasks);
    forall a, b ensures b in Deps(tasks, a) <==> DependsOn(tasks, a, b) {
      DepsIsDependsOn(tasks, a, b);
    }
    SearchFacts(tasks, tasks, IDLE);
    QuietSearch(tasks);
    forall id | id in Ids(tasks) && id != "" ensures id in s.finish {
      var t := RootIsNamed(tasks, id);
    }
  }

  /** The exception is real: an empty id is never a root, so its self-dependency goes unnoticed. */
  lemma {:induction false} EmptyIdEscapes(w: Paths)
    ensures var tasks := [Task(Some(""), Some([]), Some([""]), None, false)];
            Validation(w, tasks) == Report([]) && !Acyclic(tasks)
  {
    var t := Task(Some(""), Some([]), Some([""]), None, false);
    var tasks := [t];
    assert tasks[..0] == [] && tasks[1..] == [];
    assert t in tasks && Ids(tasks) == {""};
    assert [""][..0] == [];
    assert UnknownDeps({""}, "", [""]) == [];
    assert TaskReasons(w, {""}, t) == [];
    assert Deps(tasks, "") == [""];
    assert IsCycle(tasks, [""]);
    assert PropertyReasons(w, {""}, tasks) == PropertyReasons(w, {""}, []) + TaskReasons(w, {""}, t) == [];
    assert SearchFrom(tasks, [], IDLE) == IDLE && SearchFrom(tasks, tasks, IDLE) == IDLE;
    FailsExactly(w, tasks);
  }

  // ----- the program -----

  class Checker {
    const tasks: seq<Entry>
    var reasons: seq<Reason>
    var visited: set<string>
    var inProgress: set<string>
    ghost var finish: seq<string>

    constructor (tasks: seq<Entry>, reasons: seq<Reason>)
      ensures this.tasks == tasks && this.reasons == reasons
      ensures visited == {} && inProgress == {} && finish == []
    {
      this.tasks, this.reasons := tasks, reasons;
      visited, inProgress, finish := {}, {}, [];
    }

    /** The state of the search, given how many reasons were there before it began. */
    ghost function State(before: nat): Search
      requires before <= |reasons|
      reads this
    {
      Search(visited, inProgress, finish, reasons[before..])
    }

    /** `ok` is false when the lookup met an entry that is not a dictionary. */
    method Visit(node: string, depth: nat, ghost before: nat) returns (ok: bool)
      requires depth <= DEPTH_CAP + 1 && before <= |reasons|
      modifies this
      ensures ok <==> TryDfs(tasks, node, depth, old(State(before))).Some?
      ensures before <= |reasons| && reasons[..before] == old(reasons[..before])
      ensures ok ==> TryDfs(tasks, node, depth, old(State(before))) == Some(State(before))
      decreases DEPTH_CAP + 1 - depth
    {
      ok := true;
      if depth > DEPTH_CAP {
        reasons := reasons + [DepthCap(node)];
        assert State(before).reasons == old(State(before)).reasons + [DepthCap(node)];
        return;
      }
      if node in inProgress {
        reasons := reasons + [CycleDetected(node)];
        assert State(before).reasons == old(State(before)).reasons + [CycleDetected(node)];
        return;
      }
      if node in visited {
        return;
      }
      inProgress := inProgress + {node};
      var found := Lookup(tasks, node);
      if found.None? {
        return false;
      }
      var deps := found.value;
      ghost var start := State(before);
      for i := 0 to |deps|
        invariant before <= |reasons| && reasons[..before] == old(reasons[..before])
        invariant TryAll(tasks, deps, depth + 1, start) == TryAll(tasks, deps[i..], depth + 1, State(before))
      {
        assert deps[i..][1..] == deps[i + 1..];
        ok := Visit(deps[i], depth + 1, before);
        if !ok {
          return;
        }
      }
      assert deps[|deps|..] == [];
      ok := true;
      inProgress := inProgress - {node};
      visited := visited + {node};
      finish := finish + [node];
    }

    method SearchRoots(ghost before: nat) returns (ok: bool)
      requires before == |reasons| && visited == {} && inProgress == {} && finish == []
      modifies this
      ensures ok <==> TryFrom(tasks, tasks, IDLE).Some?
      ensures ok ==> reasons == old(reasons) + TryFrom(tasks, tasks, IDLE).value.reasons
      ensures ok ==> finish == TryFrom(tasks, tasks, IDLE).value.finish
    {
      assert tasks[0..] == tasks && State(before) == IDLE;
      for i := 0 to |tasks|
        invariant before <= |reasons| && reasons[..before] == old(reasons)
        invariant TryFrom(tasks, tasks, IDLE) == TryFrom(tasks, tasks[i..], State(before))
      {
        assert tasks[i..][1..] == tasks[i + 1..];
        if tasks[i].NotADictionary? {
          return false;
        }
        if IsRoot(tasks[i]) && tasks[i].id.value !in visited {
          ok := Visit(tasks[i].id.value, 0, before);
          if !ok {
            return;
          }
        }
      }
      assert tasks[|tasks|..] == [];
      ok := true;
    }
  }

  method CheckIds(tasks: seq<Entry>) returns (reasons: seq<Reason>, ids: set<string>)
    ensures reasons == IdReasons(tasks) && ids == Ids(tasks)
  {
    reasons, ids := [], {};
    for i := 0 to |tasks|
      invariant reasons == IdReasons(tasks[..i]) && ids == Ids(tasks[..i])
    {
      var t := tasks[i];
      assert tasks[..i + 1] == tasks[..i] + [t] && tasks[..i + 1][..i] == tasks[..i];
      if t.NotADictionary? {
        reasons := reasons + [TaskNotDictionary];
      } else if t.id.None? {
        reasons := reasons + [MissingId];
      } else {
        if t.id.value in ids {
          reasons := reasons + [Duplicate(t.id.value)];
        }
        ids := ids + {t.id.value};
      }
    }
    assert tasks[..|tasks|] == tasks;
  }

  method CheckDependencies(ids: set<string>, id: string, deps: seq<string>) returns (reasons: seq<Reason>)
    ensures reasons == UnknownDeps(ids, id, deps)
  {
    reasons := [];
    for i := 0 to |deps|
      invariant reasons == UnknownDeps(ids, id, deps[..i])
    {
      assert deps[..i + 1][..i] == deps[..i];
      if deps[i] !in ids {
        reasons := reasons + [UnknownDependency(id, deps[i])];
      }
    }
    assert deps[..|deps|] == deps;
  }

  method CheckProperties(w: Paths, ids: set<string>, tasks: seq<Entry>) returns (reasons: seq<Reason>)
    ensures reasons == PropertyReasons(w, ids, tasks)
  {
    reasons := [];
    for i := 0 to |tasks|
      invariant reasons == PropertyReasons(w, ids, tasks[..i])
    {
      assert tasks[..i + 1][..i] == tasks[..i];
      var found := CheckTask(w, ids, tasks[i]);
      reasons := reasons + found;
    }
    assert tasks[..|tasks|] == tasks;
  }

  method CheckPaths(w: Paths, id: string, files: seq<string>) returns (reasons: seq<Reason>)
    ensures reasons == PathReasons(w, id, files)
  {
    reasons := [];
    for i := 0 to |files|
      invariant reasons == PathReasons(w, id, files[..i])
    {
      assert files[..i + 1][..i] == files[..i];
      reasons := reasons + PathReason(w, id, files[i]);
    }
    assert files[..|files|] == files;
  }

  method CheckTask(w: Paths, ids: set<string>, t: Entry) returns (reasons: seq<Reason>)
    ensures reasons == TaskReasons(w, ids, t)
  {
    reasons := [];
    if t.NotADictionary? || t.id.None? {
      return;
    }
    var id, files := t.id.value, FilesOf(t);
    reasons := When(t.files.None?, MissingFiles(id));
    if t.dependsOn.None? {
      reasons := reasons + [MissingDependsOn(id)];
    } else {
      var unknown := CheckDependencies(ids, id, t.dependsOn.value);
      reasons := reasons + unknown;
    }
    reasons := reasons + When(|files| > 4, TooManyFiles(id));
    reasons := reasons + When(t.changedLines.Some? && t.changedLines.value > 400, TooManyLines(id));
    reasons := reasons + When(t.complete, AlreadyComplete(id));
    var bad := CheckPaths(w, id, files);
    reasons := reasons + bad;
  }

  method Validate(w: Paths, tasks: seq<Entry>) returns (outcome: Outcome)
    ensures outcome == Validation(w, tasks)
  {
    var idReasons, ids := CheckIds(tasks);
    var propertyReasons := CheckProperties(w, ids, tasks);
    var checker := new Checker(tasks, idReasons + propertyReasons);
    var ok := checker.SearchRoots(|idReasons + propertyReasons|);
    outcome := if ok then Report(checker.reasons) else AttributeError;
  }
}
