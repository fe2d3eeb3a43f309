/** Model of `build_package_graph` and the selection loop of scripts/rust-impact.py. */
module RustImpact {

  datatype Option<T> = None | Some(value: T)

  /** A package of the metadata; `parser` tells whether its directory lies in code-graph/parsers or its
      name starts with "parser-". */
  datatype PackageInfo = PackageInfo(id: string, name: string, parser: bool, targets: seq<string>)

  /** A node of the resolved dependency graph. */
  datatype ResolveNode = ResolveNode(id: string, deps: seq<string>)

  datatype Package = Package(info: PackageInfo, reverseDeps: set<string>)

  type Graph = map<string, Package>

  predicate IsUser(g: Graph, id: string, user: string) {
    id in g && user in g[id].reverseDeps
  }

  // ----- reverse dependencies -----

  /** The last member with this name, as a loop over the dictionary leaves it. */
  function Lookup(members: seq<PackageInfo>, name: string): Option<string> {
    if members == [] then None
    else if members[|members| - 1].name == name then Some(members[|members| - 1].id)
    else Lookup(members[..|members| - 1], name)
  }

  /** Of several members with the name, the last one. */
  lemma {:induction false} LookupExactly(members: seq<PackageInfo>, name: string)
    ensures Lookup(members, name) == None <==> forall m :: m in members ==> m.name != name
    ensures forall i :: 0 <= i < |members| && members[i].name == name
                        && (forall j :: i < j < |members| ==> members[j].name != name) ==>
                          Lookup(members, name) == Some(members[i].id)
  {
    if members != [] {
      var front, last := members[..|members| - 1], members[|members| - 1];
      LookupExactly(front, name);
      assert members == front + [last];
      assert forall i :: 0 <= i < |front| ==> front[i] == members[i];
    }
  }

  ghost predicate Resolved(nodes: seq<ResolveNode>, user: string, dep: string) {
    exists node :: node in nodes && node.id == user && dep in node.deps
  }

  /** user is a reverse dependency of dep: it depends on it, or one of the explicit edges says so. */
  ghost predicate Uses(members: seq<PackageInfo>, nodes: seq<ResolveNode>, user: string, dep: PackageInfo) {
    var codeGraph, xavier := Lookup(members, "code-graph"), Lookup(members, "xavier");
    || Resolved(nodes, user, dep.id)
    || (codeGraph == Some(dep.id) && xavier == Some(user))
    || (dep.parser && (codeGraph == Some(user) || xavier == Some(user)))
  }

  ghost predicate DistinctIds(members: seq<PackageInfo>) {
    forall i, j :: 0 <= i < j < |members| ==> members[i].id != members[j].id
  }

  ghost predicate MemberId(members: seq<PackageInfo>, id: string) {
    exists m :: m in members && m.id == id
  }

  /** The graph holds the members with exactly their users. */
  ghost predicate IsGraphOf(members: seq<PackageInfo>, nodes: seq<ResolveNode>, g: Graph) {
    && (forall id :: id in g <==> MemberId(members, id))
    && (forall id :: id in g ==> g[id].info in members && g[id].info.id == id)
    && (forall id, user :: id in g ==>
          (IsUser(g, id, user) <==> MemberId(members, user) && Uses(members, nodes, user, g[id].info)))
  }

  lemma {:induction false} LookupIsMember(members: seq<PackageInfo>, name: string)
    ensures Lookup(members, name).Some? ==> MemberId(members, Lookup(members, name).value)
  {
    if members != [] {
      assert members[|members| - 1] in members;
      if members[|members| - 1].name != name {
        LookupIsMember(members[..|members| - 1], name);
        if Lookup(members, name).Some? {
          var m :| m in members[..|members| - 1] && m.id == Lookup(members, name).value;
          assert m in members;
        }
      }
    }
  }

  // ----- the dictionary of members -----

  /** Assigning to a dictionary: a known id keeps its place and gets the new package. */
  function Enter(entries: seq<PackageInfo>, p: PackageInfo): seq<PackageInfo> {
    if entries == [] then [p]
    else
      var front, last := entries[..|entries| - 1], entries[|entries| - 1];
      if last.id == p.id then front + [p] else Enter(front, p) + [last]
  }

  /** What the dictionary holds, in the order of its keys, when the packages come in this order. */
  function Entries(packages: seq<PackageInfo>): seq<PackageInfo> {
    if packages == [] then [] else Enter(Entries(packages[..|packages| - 1]), packages[|packages| - 1])
  }

  lemma {:induction false} EnterKeeps(entries: seq<PackageInfo>, p: PackageInfo)
    requires DistinctIds(entries)
    ensures DistinctIds(Enter(entries, p))
    ensures forall q :: q in Enter(entries, p) <==> q == p || (q in entries && q.id != p.id)
  {
    if entries != [] {
      var front, last := entries[..|entries| - 1], entries[|entries| - 1];
      assert entries == front + [last];
      EnterKeeps(front, p);
      forall i | 0 <= i < |front| ensures front[i].id != last.id && front[i] in entries {
        assert front[i] == entries[i];
      }
    }
  }

  ghost predicate LastOfId(packages: seq<PackageInfo>, i: int) {
    0 <= i < |packages| && forall j :: i < j < |packages| ==> packages[j].id != packages[i].id
  }

  ghost predicate IsLast(packages: seq<PackageInfo>, p: PackageInfo) {
    exists i :: LastOfId(packages, i) && packages[i] == p
  }

  lemma {:induction false} LastSnoc(front: seq<PackageInfo>, last: PackageInfo, p: PackageInfo)
    ensures IsLast(front + [last], p) <==> p == last || (p.id != last.id && IsLast(front, p))
  {
    var all, n := front + [last], |front|;
    assert LastOfId(all, n) && all[n] == last;
    if IsLast(all, p) && p != last {
      var i :| LastOfId(all, i) && all[i] == p;
      assert all[n].id != all[i].id;
      assert LastOfId(front, i) by {
        forall j | i < j < n ensures front[j].id != front[i].id {
          assert all[j].id != all[i].id;
        }
      }
    }
    if IsLast(front, p) && p.id != last.id {
      var i :| LastOfId(front, i) && front[i] == p;
      assert LastOfId(all, i) && all[i] == p;
    }
  }

  /** The dictionary holds every id once, with the last package that has it. */
  lemma {:induction false} EntriesAreLast(packages: seq<PackageInfo>)
    ensures DistinctIds(Entries(packages))
    ensures forall id :: MemberId(Entries(packages), id) <==> MemberId(packages, id)
    ensures forall p :: p in Entries(packages) <==> IsLast(packages, p)
  {
    if packages != [] {
      var front, last := packages[..|packages| - 1], packages[|packages| - 1];
      assert packages == front + [last];
      EntriesAreLast(front);
      EnterKeeps(Entries(front), last);
      SameIds(packages, front, last);
      forall p ensures p in Entries(packages) <==> IsLast(packages, p) {
        LastSnoc(front, last, p);
      }
    }
  }

  lemma {:induction false} SameIds(packages: seq<PackageInfo>, front: seq<PackageInfo>, last: PackageInfo)
    requires packages == front + [last] && DistinctIds(Entries(front))
    requires forall id :: MemberId(Entries(front), id) <==> MemberId(front, id)
    ensures forall id :: MemberId(Entries(packages), id) <==> MemberId(packages, id)
  {
    EnterKeeps(Entries(front), last);
    assert packages[..|packages| - 1] == front;
    forall id ensures MemberId(Entries(packages), id) <==> MemberId(packages, id) {
      assert MemberId(packages, id) <==> MemberId(front, id) || id == last.id;
      assert last in Entries(packages);
    }
  }

  /** The dictionary of the members, without edges. */
  method StartGraph(packages: seq<PackageInfo>) returns (g: Graph, members: seq<PackageInfo>)
    ensures members == Entries(packages)
    ensures forall id :: id in g <==> MemberId(members, id)
    ensures forall id :: id in g ==> g[id].info in members && g[id].info.id == id && g[id].reverseDeps == {}
  {
    g, members := map[], [];
    for i := 0 to |packages|
      invariant members == Entries(packages[..i]) && Started(g, members)
    {
      assert packages[..i + 1][..i] == packages[..i];
      EntriesAreLast(packages[..i]);
      StartNext(g, members, packages[i]);
      g := g[packages[i].id := Package(packages[i], {})];
      members := Enter(members, packages[i]);
    }
    assert packages[..|packages|] == packages;
  }

  ghost predicate Started(g: Graph, members: seq<PackageInfo>) {
    && (forall id :: id in g <==> MemberId(members, id))
    && (forall id :: id in g ==> g[id].info in members && g[id].info.id == id && g[id].reverseDeps == {})
  }

  lemma {:induction false} StartNext(g: Graph, members: seq<PackageInfo>, p: PackageInfo)
    requires DistinctIds(members) && Started(g, members)
    ensures Started(g[p.id := Package(p, {})], Enter(members, p))
  {
    EnterKeeps(members, p);
    forall id ensures MemberId(Enter(members, p), id) <==> id in g || id == p.id {
      if id in g && id != p.id {
        assert g[id].info in Enter(members, p);
      }
      assert p in Enter(members, p);
    }
  }

  function AddUser(g: Graph, dep: string, user: string): (h: Graph)
    requires dep in g
    ensures h.Keys == g.Keys
    ensures forall id :: id in g ==> h[id].info == g[id].info
    ensures forall id :: id in g ==>
              h[id].reverseDeps == if id == dep then g[id].reverseDeps + {user} else g[id].reverseDeps
  {
    g[dep := g[dep].(reverseDeps := g[dep].reverseDeps + {user})]
  }

  ghost predicate SamePackages(g: Graph, h: Graph) {
    h.Keys == g.Keys && forall id :: id in g ==> h[id].info == g[id].info
  }

  /** h is g with one user entered for the given packages. */
  ghost predicate Entered(g: Graph, h: Graph, user: string, ids: seq<string>) {
    && SamePackages(g, h)
    && (forall id, u :: id in g ==> (IsUser(h, id, u) <==> IsUser(g, id, u) || (u == user && id in ids)))
  }

  /** h is g with the users entered that the given nodes describe. */
  ghost predicate EnteredAll(g: Graph, h: Graph, nodes: seq<ResolveNode>) {
    && SamePackages(g, h)
    && (forall id, u :: id in g ==>
          (IsUser(h, id, u) <==> IsUser(g, id, u) || (u in g && Resolved(nodes, u, id))))
  }

  method AddNode(g: Graph, node: ResolveNode) returns (h: Graph)
    ensures Entered(g, h, node.id, if node.id in g then node.deps else [])
  {
    h := g;
    if node.id in g {
      for i := 0 to |node.deps|
        invariant Entered(g, h, node.id, node.deps[..i])
      {
        EnterDep(g, h, node.id, node.deps, i);
        if node.deps[i] in h {
          h := AddUser(h, node.deps[i], node.id);
        }
      }
      assert node.deps[..|node.deps|] == node.deps;
    }
  }

  lemma {:induction false} EnterDep(g: Graph, h: Graph, user: string, deps: seq<string>, i: nat)
    requires i < |deps| && Entered(g, h, user, deps[..i])
    ensures Entered(g, if deps[i] in h then AddUser(h, deps[i], user) else h, user, deps[..i + 1])
  {
    var next := if deps[i] in h then AddUser(h, deps[i], user) else h;
    forall id, u | id in g ensures IsUser(next, id, u) <==> IsUser(g, id, u) || (u == user && id in deps[..i + 1]) {
      assert deps[..i + 1] == deps[..i] + [deps[i]];
      assert IsUser(h, id, u) <==> IsUser(g, id, u) || (u == user && id in deps[..i]);
    }
  }

  lemma {:induction false} OneMoreNode(nodes: seq<ResolveNode>, i: nat, user: string, id: string)
    requires i < |nodes|
    ensures Resolved(nodes[..i + 1], user, id) <==>
            Resolved(nodes[..i], user, id) || (user == nodes[i].id && id in nodes[i].deps)
  {
    assert nodes[..i + 1] == nodes[..i] + [nodes[i]];
  }

  lemma {:induction false} EnterNext(g: Graph, h: Graph, h': Graph, nodes: seq<ResolveNode>, i: nat)
    requires i < |nodes| && EnteredAll(g, h, nodes[..i])
    requires Entered(h, h', nodes[i].id, if nodes[i].id in h then nodes[i].deps else [])
    ensures EnteredAll(g, h', nodes[..i + 1])
  {
    forall id, u | id in g
      ensures IsUser(h', id, u) <==> IsUser(g, id, u) || (u in g && Resolved(nodes[..i + 1], u, id))
    {
      OneMoreNode(nodes, i, u, id);
    }
  }

  method AddNodes(g: Graph, nodes: seq<ResolveNode>) returns (h: Graph)
    ensures EnteredAll(g, h, nodes)
  {
    h := g;
    for i := 0 to |nodes|
      invariant EnteredAll(g, h, nodes[..i])
    {
      var next := AddNode(h, nodes[i]);
      EnterNext(g, h, next, nodes, i);
      h := next;
    }
    assert nodes[..|nodes|] == nodes;
  }

  method FindMember(members: seq<PackageInfo>, name: string) returns (found: Option<string>)
    ensures found == Lookup(members, name)
  {
    found := None;
    for i := 0 to |members|
      invariant found == Lookup(members[..i], name)
    {
      assert members[..i + 1][..i] == members[..i];
      if members[i].name == name {
        found := Some(members[i].id);
      }
    }
    assert members[..|members|] == members;
  }

  /** `packages` are the workspace packages in the order of the metadata; of packages with the same id the
      last one counts. */
  method BuildPackageGraph(packages: seq<PackageInfo>, nodes: seq<ResolveNode>) returns (g: Graph)
    ensures IsGraphOf(Entries(packages), nodes, g)
  {
    var start, members := StartGraph(packages);
    assert DistinctIds(members) by {
      EntriesAreLast(packages);
    }
    var resolved := AddNodes(start, nodes);
    var codeGraph := FindMember(members, "code-graph");
    var xavier := FindMember(members, "xavier");
    LookupIsMember(members, "code-graph");
    LookupIsMember(members, "xavier");
    var linked := resolved;
    if codeGraph.Some? && xavier.Some? {
      linked := AddUser(resolved, codeGraph.value, xavier.value);
    }
    g := AddParsers(members, linked, codeGraph, xavier);
    GraphIsComplete(members, nodes, start, resolved, linked, g, codeGraph, xavier);
  }

  /** Every parser package is used by the two hubs. */
  method AddParsers(members: seq<PackageInfo>, g: Graph, codeGraph: Option<string>, xavier: Option<string>)
    returns (h: Graph)
    requires forall id :: id in g <==> MemberId(members, id)
    ensures ParsersEntered(members, g, h, codeGraph, xavier)
  {
    h := g;
    for i := 0 to |members|
      invariant ParsersEntered(members[..i], g, h, codeGraph, xavier)
    {
      var m := members[i];
      assert m in members && MemberId(members, m.id);
      var next := if m.parser then AddHub(AddHub(h, m.id, codeGraph), m.id, xavier) else h;
      ParsersNext(members, i, g, h, next, codeGraph, xavier);
      h := next;
    }
    assert members[..|members|] == members;
  }

  lemma {:induction false} ParsersNext(members: seq<PackageInfo>, i: nat, g: Graph, h: Graph, next: Graph,
                                       codeGraph: Option<string>, xavier: Option<string>)
    requires i < |members| && members[i].id in h && ParsersEntered(members[..i], g, h, codeGraph, xavier)
    requires next == if members[i].parser then AddHub(AddHub(h, members[i].id, codeGraph), members[i].id, xavier) else h
    ensures ParsersEntered(members[..i + 1], g, next, codeGraph, xavier)
  {
    forall id, u | id in g
      ensures IsUser(next, id, u) <==>
              IsUser(g, id, u) || (ParserMember(members[..i + 1], id) && (codeGraph == Some(u) || xavier == Some(u)))
    {
      ExtendParsers(members, i, id);
      var mid := AddHub(h, members[i].id, codeGraph);
      assert IsUser(h, id, u) <==>
             IsUser(g, id, u) || (ParserMember(members[..i], id) && (codeGraph == Some(u) || xavier == Some(u)));
      assert members[i].parser ==> (IsUser(next, id, u) <==>
             IsUser(h, id, u) || (id == members[i].id && (codeGraph == Some(u) || xavier == Some(u))));
    }
  }

  function AddHub(g: Graph, dep: string, hub: Option<string>): (h: Graph)
    requires dep in g
    ensures h.Keys == g.Keys
    ensures forall id :: id in g ==> h[id].info == g[id].info
    ensures forall id, u :: id in g ==>
              (IsUser(h, id, u) <==> IsUser(g, id, u) || (id == dep && hub == Some(u)))
  {
    if hub.Some? then AddUser(g, dep, hub.value) else g
  }

  ghost predicate ParsersEntered(members: seq<PackageInfo>, g: Graph, h: Graph, codeGraph: Option<string>,
                                 xavier: Option<string>) {
    && SamePackages(g, h)
    && (forall id, u :: id in g ==>
          (IsUser(h, id, u) <==>
           IsUser(g, id, u) || (ParserMember(members, id) && (codeGraph == Some(u) || xavier == Some(u)))))
  }

  lemma {:induction false} GraphIsComplete(members: seq<PackageInfo>, nodes: seq<ResolveNode>, start: Graph,
                                           resolved: Graph, linked: Graph, g: Graph,
                                           codeGraph: Option<string>, xavier: Option<string>)
    requires DistinctIds(members)
    requires codeGraph == Lookup(members, "code-graph") && xavier == Lookup(members, "xavier")
    requires codeGraph.Some? ==> MemberId(members, codeGraph.value)
    requires xavier.Some? ==> MemberId(members, xavier.value)
    requires forall id :: id in start <==> MemberId(members, id)
    requires forall id :: id in start ==>
               start[id].info in members && start[id].info.id == id && start[id].reverseDeps == {}
    requires EnteredAll(start, resolved, nodes)
    requires SamePackages(resolved, linked)
    requires forall id, u :: id in resolved ==>
               (IsUser(linked, id, u) <==>
                IsUser(resolved, id, u) || (codeGraph == Some(id) && xavier == Some(u)))
    requires ParsersEntered(members, linked, g, codeGraph, xavier)
    ensures IsGraphOf(members, nodes, g)
  {
    forall id, u | id in g
      ensures IsUser(g, id, u) <==> MemberId(members, u) && Uses(members, nodes, u, g[id].info)
    {
      var info := start[id].info;
      assert g[id].info == linked[id].info == resolved[id].info == info && info.id == id;
      OneMember(members, info);
      EdgeByParts(members, nodes, u, info, codeGraph, xavier, IsUser(resolved, id, u),
                  IsUser(linked, id, u), IsUser(g, id, u));
    }
  }

  lemma {:induction false} EdgeByParts(members: seq<PackageInfo>, nodes: seq<ResolveNode>, u: string,
                                       info: PackageInfo, codeGraph: Option<string>, xavier: Option<string>,
                                       inResolved: bool, inLinked: bool, inGraph: bool)
    requires codeGraph == Lookup(members, "code-graph") && xavier == Lookup(members, "xavier")
    requires codeGraph.Some? ==> MemberId(members, codeGraph.value)
    requires xavier.Some? ==> MemberId(members, xavier.value)
    requires inResolved <==> MemberId(members, u) && Resolved(nodes, u, info.id)
    requires inLinked <==> inResolved || (codeGraph == Some(info.id) && xavier == Some(u))
    requires inGraph <==> inLinked || (info.parser && (codeGraph == Some(u) || xavier == Some(u)))
    ensures inGraph <==> MemberId(members, u) && Uses(members, nodes, u, info)
  {
    UsesByParts(members, nodes, u, info, codeGraph, xavier);
  }

  lemma {:induction false} UsesByParts(members: seq<PackageInfo>, nodes: seq<ResolveNode>, u: string, info: PackageInfo,
                                       codeGraph: Option<string>, xavier: Option<string>)
    requires codeGraph == Lookup(members, "code-graph") && xavier == Lookup(members, "xavier")
    requires codeGraph.Some? ==> MemberId(members, codeGraph.value)
    requires xavier.Some? ==> MemberId(members, xavier.value)
    ensures MemberId(members, u) && Uses(members, nodes, u, info) <==>
            (MemberId(members, u) && Resolved(nodes, u, info.id)) || (codeGraph == Some(info.id) && xavier == Some(u))
            || (info.parser && (codeGraph == Some(u) || xavier == Some(u)))
  {
  }

  ghost predicate ParserMember(members: seq<PackageInfo>, id: string) {
    exists m :: m in members && m.id == id && m.parser
  }

  lemma {:induction false} ExtendParsers(members: seq<PackageInfo>, i: nat, id: string)
    requires i < |members|
    ensures ParserMember(members[..i + 1], id) <==>
            ParserMember(members[..i], id) || (members[i].parser && members[i].id == id)
  {
    assert members[..i + 1] == members[..i] + [members[i]];
  }

  lemma {:induction false} OneMember(members: seq<PackageInfo>, info: PackageInfo)
    requires DistinctIds(members) && info in members
    ensures ParserMember(members, info.id) <==> info.parser
  {
    forall m | m in members && m.id == info.id ensures m == info {
      var i :| 0 <= i < |members| && members[i] == m;
      var j :| 0 <= j < |members| && members[j] == info;
    }
  }

  // ----- selection -----

  const APP := "app"

  /** The desktop app is selected on its own and leads nowhere. */
  ghost predicate Closed(g: Graph, ids: set<string>) {
    forall id, user :: id in ids && id != APP && IsUser(g, id, user) ==> user in ids
  }

  ghost predicate UsersAreMembers(g: Graph) {
    forall id, user :: IsUser(g, id, user) ==> user in g
  }

  /** The least closed set that contains the directly changed packages. */
  ghost predicate IsSelection(g: Graph, changed: set<string>, ids: set<string>) {
    && changed <= ids && Closed(g, ids)
    && forall s: set<string> :: changed <= s && Closed(g, s) ==> ids <= s
  }

  function AllTargets(g: Graph, id: string): set<string>
    requires id in g
  {
    set t | t in g[id].info.targets
  }

  /** A package that was changed keeps the targets it was given; one reached through a dependency gets
      all of its own. */
  ghost predicate TargetsAreRight(g: Graph, changed: map<string, set<string>>, targets: map<string, set<string>>) {
    forall id :: id in targets ==>
      if id in changed then targets[id] == changed[id] else id in g && targets[id] == AllTargets(g, id)
  }

  /** The elements of a set in some order. */
  method ListOf(ids: set<string>) returns (list: seq<string>)
    ensures forall id :: id in list <==> id in ids
  {
    list := [];
    var left := ids;
    while left != {}
      invariant left <= ids && forall id :: id in list <==> id in ids - left
      decreases left
    {
      var id :| id in left;
      list := list + [id];
      left := left - {id};
    }
  }

  /** The inner loop: select the users of one package, in whatever order the set yields them. */
  method SelectUsers(g: Graph, users: set<string>, selected: set<string>, targets: map<string, set<string>>)
    returns (selected': set<string>, targets': map<string, set<string>>, added: seq<string>)
    requires users <= g.Keys && targets.Keys == selected
    ensures selected' == selected + users && targets'.Keys == selected'
    ensures forall id :: id in added <==> id in users && id !in selected
    ensures forall id :: id in selected ==> targets'[id] == targets[id]
    ensures forall id :: id in users && id !in selected ==> targets'[id] == AllTargets(g, id)
  {
    selected', targets', added := selected, targets, [];
    var left := users;
    while left != {}
      invariant left <= users && selected' == selected + (users - left) && targets'.Keys == selected'
      invariant forall id :: id in added <==> id in users - left && id !in selected
      invariant forall id :: id in selected ==> targets'[id] == targets[id]
      invariant forall id :: id in users - left && id !in selected ==> targets'[id] == AllTargets(g, id)
      decreases left
    {
      var user :| user in left;
      left := left - {user};
      if user !in selected' {
        selected' := selected' + {user};
        added := added + [user];
        targets' := targets'[user := AllTargets(g, user)];
      }
    }
  }

  method Select(g: Graph, changed: map<string, set<string>>)
    returns (selected: set<string>, targets: map<string, set<string>>)
    requires UsersAreMembers(g) && forall id :: id in changed ==> id == APP || id in g
    ensures IsSelection(g, changed.Keys, selected)
    ensures targets.Keys == selected && TargetsAreRight(g, changed, targets)
  {
    targets, selected := changed, changed.Keys;
    var queue := ListOf(changed.Keys);
    ghost var all := g.Keys + {APP};
    while queue != []
      invariant changed.Keys <= selected <= all
      invariant forall id :: id in queue ==> id in selected
      invariant Expanded(g, selected, queue)
      invariant forall s: set<string> :: changed.Keys <= s && Closed(g, s) ==> selected <= s
      invariant targets.Keys == selected && TargetsAreRight(g, changed, targets)
      decreases all - selected, |queue|
    {
      var current := queue[0];
      ghost var before, rest := selected, queue[1..];
      queue := queue[1..];
      if current != APP {
        var added;
        UsersOf(g, changed.Keys, before, current);
        selected, targets, added := SelectUsers(g, g[current].reverseDeps, selected, targets);
        queue := queue + added;
        if added != [] {
          assert added[0] in all - before && added[0] !in all - selected;
        } else {
          assert selected == before;
        }
      }
    }
  }

  lemma {:induction false} UsersOf(g: Graph, changed: set<string>, selected: set<string>, current: string)
    requires UsersAreMembers(g) && current in g && current in selected && current != APP
    ensures g[current].reverseDeps <= g.Keys
    ensures forall s: set<string> :: Closed(g, s) && selected <= s ==> g[current].reverseDeps <= s
  {
    forall u | u in g[current].reverseDeps ensures IsUser(g, current, u) && u in g {
      assert IsUser(g, current, u);
    }
  }

  /** Every selected package that is no longer waiting has its users selected. */
  ghost predicate Expanded(g: Graph, selected: set<string>, queue: seq<string>) {
    forall id, user :: id in selected && id !in queue && id != APP && IsUser(g, id, user) ==>
      user in selected
  }

  // ----- what the selection means -----

  /** p leads from a changed package to its last element, each step going to a user of the one before. */
  ghost predicate UseChain(g: Graph, changed: set<string>, p: seq<string>) {
    && p != [] && p[0] in changed
    && forall i :: 0 <= i < |p| - 1 ==> p[i] != APP && IsUser(g, p[i], p[i + 1])
  }

  lemma {:induction false} ChainIsSelected(g: Graph, changed: set<string>, ids: set<string>, p: seq<string>, k: nat)
    requires IsSelection(g, changed, ids) && UseChain(g, changed, p) && k < |p|
    ensures p[k] in ids
  {
    if k > 0 {
      ChainIsSelected(g, changed, ids, p, k - 1);
      assert IsUser(g, p[k - 1], p[k - 1 + 1]);
    }
  }

  ghost predicate Reached(g: Graph, changed: set<string>, id: string) {
    exists p :: UseChain(g, changed, p) && p[|p| - 1] == id
  }

  lemma {:induction false} ReachedUser(g: Graph, changed: set<string>, id: string, user: string)
    requires Reached(g, changed, id) && id != APP && IsUser(g, id, user)
    ensures Reached(g, changed, user)
  {
    var p :| UseChain(g, changed, p) && p[|p| - 1] == id;
    var q := p + [user];
    forall i | 0 <= i < |q| - 1 ensures q[i] != APP && IsUser(g, q[i], q[i + 1]) {
      if i < |p| - 1 {
        assert IsUser(g, p[i], p[i + 1]);
      }
    }
    assert UseChain(g, changed, q) && q[|q| - 1] == user;
  }

  /** A package is selected exactly when a chain of users leads to it from a changed package; so the
      selection does not depend on the order in which the sets are traversed. */
  lemma {:induction false} SelectedIffReached(g: Graph, changed: set<string>, ids: set<string>, id: string)
    requires IsSelection(g, changed, ids)
    ensures id in ids <==> Reached(g, changed, id)
  {
    var reached := set x | x in ids && Reached(g, changed, x);
    forall x | x in changed ensures x in reached {
      assert UseChain(g, changed, [x]) && [x][|[x]| - 1] == x;
    }
    forall x, user | x in reached && x != APP && IsUser(g, x, user) ensures user in reached {
      ReachedUser(g, changed, x, user);
    }
    assert Closed(g, reached);
    if Reached(g, changed, id) {
      var p :| UseChain(g, changed, p) && p[|p| - 1] == id;
      ChainIsSelected(g, changed, ids, p, |p| - 1);
    }
  }

  /** A change to the desktop app alone selects nothing else, whoever uses it. */
  lemma {:induction false} AppLeadsNowhere(g: Graph, ids: set<string>)
    requires IsSelection(g, {"app"}, ids)
    ensures ids == {"app"}
  {
    assert Closed(g, {"app"});
  }

  /** Chain of workspace dependencies: each element depends on the one before it. */
  ghost predicate DependencyChain(members: seq<PackageInfo>, nodes: seq<ResolveNode>, p: seq<string>) {
    forall i :: 0 <= i < |p| - 1 ==> DirectlyDepends(members, nodes, p, i)
  }

  ghost predicate DirectlyDepends(members: seq<PackageInfo>, nodes: seq<ResolveNode>, p: seq<string>, i: nat)
    requires i + 1 < |p|
  {
    p[i] != APP && MemberId(members, p[i]) && MemberId(members, p[i + 1]) && Resolved(nodes, p[i + 1], p[i])
  }

  /** End to end: every workspace package that depends on a changed one, however indirectly, is
      selected, and unless it was changed itself all of its targets are. */
  lemma {:induction false} DependentsAreSelected(members: seq<PackageInfo>, nodes: seq<ResolveNode>, g: Graph,
                                                 changed: map<string, set<string>>, selected: set<string>,
                                                 targets: map<string, set<string>>, p: seq<string>)
    requires IsGraphOf(members, nodes, g) && IsSelection(g, changed.Keys, selected)
    requires targets.Keys == selected && TargetsAreRight(g, changed, targets)
    requires p != [] && p[0] in changed && DependencyChain(members, nodes, p)
    ensures var last := p[|p| - 1];
            last in selected && (last !in changed ==> last in g && targets[last] == AllTargets(g, last))
  {
    forall i | 0 <= i < |p| - 1 ensures p[i] != APP && IsUser(g, p[i], p[i + 1]) {
      assert DirectlyDepends(members, nodes, p, i);
      assert Uses(members, nodes, p[i + 1], g[p[i]].info);
    }
    ChainIsSelected(g, changed.Keys, selected, p, |p| - 1);
  }
}
