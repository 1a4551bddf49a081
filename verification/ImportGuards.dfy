/**
 The two guards over the import graph: placement neutrality and shutdown purity.
 */
module ImportGuards {
  import opened CharClasses
  import opened Common
  import CommentBlanking
  import opened ModuleGraph

  /** files[i] is the last one with its path. */
  predicate LastOfPath(files: seq<ModuleFile>, i: nat) {
    i < |files| && forall j :: i < j < |files| ==> files[j].path != files[i].path
  }

  /** Each listed path with the content of its last file, and no other path. */
  ghost predicate Maps(graph: Graph, files: seq<ModuleFile>) {
    && (forall path :: path in graph <==> exists i: nat :: LastOfPath(files, i) && files[i].path == path)
    && (forall i: nat :: LastOfPath(files, i) ==> graph[files[i].path] == files[i].content)
    && forall file :: file in files ==> file.path in graph
  }

  /** new Map(files...) */
  function BuildGraph(files: seq<ModuleFile>): (graph: Graph)
    ensures Maps(graph, files)
  {
    if files == [] then map[]
    else
      var n := |files| - 1;
      var before := BuildGraph(files[..n]);
      MapsMore(before, files);
      before[files[n].path := files[n].content]
  }

  lemma MapsMore(before: Graph, files: seq<ModuleFile>)
    requires files != [] && Maps(before, files[..|files| - 1])
    ensures var last := files[|files| - 1]; Maps(before[last.path := last.content], files)
  {
    var n := |files| - 1;
    var last, xs := files[n], files[..n];
    var graph := before[last.path := last.content];
    forall i: nat ensures LastOfPath(files, i) <==> i == n || (LastOfPath(xs, i) && files[i].path != last.path) {
      LastAmong(files, i);
    }
    hide LastOfPath;
    forall path ensures path in graph <==> exists i: nat :: LastOfPath(files, i) && files[i].path == path {
      if path == last.path {
        assert LastOfPath(files, n);
      } else if path in before {
        var i: nat :| LastOfPath(xs, i) && xs[i].path == path;
        assert LastOfPath(files, i) && files[i].path == path;
      }
    }
    assert files == xs + [last];
  }

  lemma LastAmong(files: seq<ModuleFile>, i: nat)
    requires files != []
    ensures var n := |files| - 1;
            LastOfPath(files, i) <==> i == n || (LastOfPath(files[..n], i) && files[i].path != files[n].path)
  {
    var n := |files| - 1;
    assert forall j :: 0 <= j < n ==> files[..n][j] == files[j];
  }

  function Present(roots: seq<string>, graph: Graph): (present: seq<string>)
    ensures forall r :: r in present <==> r in roots && r in graph
  {
    if roots == [] then []
    else
      assert roots == [roots[0]] + roots[1..];
      (if roots[0] in graph then [roots[0]] else []) + Present(roots[1..], graph)
  }

  // ---------------------------------------------------------------- placement neutrality

  const BANNED_PLACEMENT_PATH_PREFIXES := [
    "app/backend/src/modules/health/", "app/backend/src/modules/instances/", "app/backend/src/modules/pause/",
    "app/backend/src/modules/restriction/", "app/backend/src/modules/ip-diversity/", "app/backend/src/modules/proxy/",
    "app/backend/src/modules/egress/"]

  function FindPrefix(path: string, prefixes: seq<string>): (r: Option<string>)
    ensures r.Some? <==> exists p :: p in prefixes && StartsWith(path, p)
    ensures r.Some? ==> r.value in prefixes && StartsWith(path, r.value)
  {
    if prefixes == [] then None
    else if StartsWith(path, prefixes[0]) then Some(prefixes[0])
    else FindPrefix(path, prefixes[1..])
  }

  datatype PlacementViolation = PlacementViolation(file: string, prefix: string)

  predicate Misplaced(path: string, roots: seq<string>) {
    FindPrefix(path, BANNED_PLACEMENT_PATH_PREFIXES).Some? && path !in roots
  }

  const BANNED_MODULES := {"health", "instances", "pause", "restriction", "ip-diversity", "proxy", "egress"}

  /** The banned prefixes are those of the seven modules that know about single instances. */
  lemma MisplacedMeaning(path: string, roots: seq<string>)
    ensures Misplaced(path, roots)
            <==> path !in roots
                 && exists m | m in BANNED_MODULES :: StartsWith(path, "app/backend/src/modules/" + m + "/")
  {
    hide StartsWith;
    var prefixes := BANNED_PLACEMENT_PATH_PREFIXES;
    var root := "app/backend/src/modules/";
    assert prefixes[0] == root + "health" + "/" && prefixes[1] == root + "instances" + "/";
    assert prefixes[2] == root + "pause" + "/" && prefixes[3] == root + "restriction" + "/";
    assert prefixes[4] == root + "ip-diversity" + "/" && prefixes[5] == root + "proxy" + "/";
    assert prefixes[6] == root + "egress" + "/";
    assert forall p :: p in prefixes <==> exists m | m in BANNED_MODULES :: p == root + m + "/";
  }

  ghost predicate Reports(violations: seq<PlacementViolation>, path: string) {
    exists v :: v in violations && v.file == path
  }

  /** A file is reported, once, exactly when an import path from a root that is present reaches it, its path has a
      banned prefix and it is no root itself. */
  method ScanPlacementNeutrality(files: seq<ModuleFile>, roots: seq<string>, extract: Extract)
      returns (violations: seq<PlacementViolation>)
    ensures forall path :: Reports(violations, path) <==>
                             var graph := BuildGraph(files);
                             Reachable(Present(roots, graph), path, graph, extract) && Misplaced(path, roots)
    ensures forall i, j :: 0 <= i < j < |violations| ==> violations[i].file != violations[j].file
    ensures forall v :: v in violations ==> StartsWith(v.file, v.prefix) && v.prefix in BANNED_PLACEMENT_PATH_PREFIXES
  {
    hide Reachable, BANNED_PLACEMENT_PATH_PREFIXES, Present, BuildGraph;
    var graph := BuildGraph(files);
    var visited, edges := TraverseModuleGraph(Present(roots, graph), graph, extract);
    violations := [];
    for i := 0 to |visited|
      invariant forall path :: Reports(violations, path) <==> path in visited[..i] && Misplaced(path, roots)
      invariant forall k, l :: 0 <= k < l < |violations| ==> violations[k].file != violations[l].file
      invariant forall v :: v in violations ==>
                  StartsWith(v.file, v.prefix) && v.prefix in BANNED_PLACEMENT_PATH_PREFIXES
    {
      var nodePath := visited[i];
      assert visited[..i + 1] == visited[..i] + [nodePath];
      assert nodePath !in visited[..i];
      var bannedPrefix := FindPrefix(nodePath, BANNED_PLACEMENT_PATH_PREFIXES);
      if bannedPrefix == None {
        continue;
      }
      if nodePath in roots {
        continue;
      }
      ReportsPush(violations, PlacementViolation(nodePath, bannedPrefix.value));
      violations := violations + [PlacementViolation(nodePath, bannedPrefix.value)];
    }
    assert visited[..|visited|] == visited;
  }

  lemma ReportsPush(violations: seq<PlacementViolation>, v: PlacementViolation)
    ensures forall path :: Reports(violations + [v], path) <==> Reports(violations, path) || path == v.file
    ensures !Reports(violations, v.file) ==> forall i :: 0 <= i < |violations| ==> violations[i].file != v.file
  {
    var longer := violations + [v];
    forall path ensures Reports(longer, path) <==> Reports(violations, path) || path == v.file {
      if path == v.file { assert v in longer; }
    }
    if exists i :: 0 <= i < |violations| && violations[i].file == v.file {
      var i :| 0 <= i < |violations| && violations[i].file == v.file;
      assert violations[i] in violations;
    }
  }

  // ---------------------------------------------------------------- more imports, more violations

  lemma ReachableMonotone(roots: seq<string>, n: string, graph: Graph, more: Graph, extract: Extract)
    requires Reachable(roots, n, graph, extract)
    requires forall a, b :: Imports(a, b, graph, extract) ==> Imports(a, b, more, extract)
    ensures Reachable(roots, n, more, extract)
  {
    var p :| PathTo(p, roots, n, graph, extract);
    forall i | 0 <= i < |p| - 1 ensures Imports(p[i], p[i + 1], more, extract) {
      assert Imports(p[i], p[i + 1], graph, extract);
    }
    assert PathTo(p, roots, n, more, extract);
  }

  /** Resolution looks only at which paths exist. */
  lemma {:induction false} FirstInKeys(candidates: seq<string>, graph: Graph, more: Graph)
    requires graph.Keys == more.Keys
    ensures FirstIn(candidates, graph) == FirstIn(candidates, more)
  {
    if candidates == [] {
    } else {
      assert candidates[0] in graph <==> candidates[0] in graph.Keys;
      assert candidates[0] in more <==> candidates[0] in more.Keys;
      FirstInKeys(candidates[1..], graph, more);
    }
  }

  /** Rewriting one file so that it keeps its imports and gains others never removes a placement violation. */
  lemma AddingImportsKeepsViolations(graph: Graph, path: string, content: string, roots: seq<string>, n: string,
                                     extract: Extract)
    requires path in graph && forall s :: s in extract(graph[path]) ==> s in extract(content)
    requires Reachable(Present(roots, graph), n, graph, extract) && Misplaced(n, roots)
    ensures var more := graph[path := content];
            Reachable(Present(roots, more), n, more, extract) && Misplaced(n, roots)
  {
    hide Misplaced;
    var more := graph[path := content];
    PresentKeys(roots, graph, more);
    forall a, b | Imports(a, b, graph, extract) ensures Imports(a, b, more, extract) {
      ImportKept(graph, path, content, a, b, extract);
    }
    ReachableMonotone(Present(roots, graph), n, graph, more, extract);
  }

  lemma {:induction false} PresentKeys(roots: seq<string>, graph: Graph, more: Graph)
    requires graph.Keys == more.Keys
    ensures Present(roots, graph) == Present(roots, more)
  {
    if roots == [] {
    } else {
      assert roots[0] in graph <==> roots[0] in graph.Keys;
      assert roots[0] in more <==> roots[0] in more.Keys;
      PresentKeys(roots[1..], graph, more);
    }
  }

  lemma ImportKept(graph: Graph, path: string, content: string, a: string, b: string, extract: Extract)
    requires path in graph && (forall s :: s in extract(graph[path]) ==> s in extract(content))
             && Imports(a, b, graph, extract)
    ensures Imports(a, b, graph[path := content], extract)
  {
    hide Resolve;
    var more := graph[path := content];
    var e :| e in EdgesAt(a, graph, extract) && e.resolvedPath == Some(b);
    assert a in graph;
    var old_, new_ := extract(graph[a]), extract(more[a]);
    var i :| 0 <= i < |old_| && EdgesAt(a, graph, extract)[i] == e;
    assert old_[i] in new_;
    var j :| 0 <= j < |new_| && new_[j] == old_[i];
    ResolveKeys(a, old_[i], graph, more);
    assert EdgesAt(a, more, extract)[j] == e;
  }

  lemma ResolveKeys(fromPath: string, specifier: string, graph: Graph, more: Graph)
    requires graph.Keys == more.Keys
    ensures Resolve(fromPath, specifier, graph) == Resolve(fromPath, specifier, more)
  {
    FirstInKeys(Candidates(Join(Walk(FromDir(fromPath), Split(specifier)))), graph, more);
  }

  // ---------------------------------------------------------------- shutdown purity

  const PROVIDER_BAILEYS_PREFIX := "app/backend/src/provider/baileys/"

  predicate IsBaileysPackage(specifier: string) { specifier == "baileys" || specifier == "@whiskeysockets/baileys" }

  function SkipSpaces(s: string, i: nat): (j: nat)
    requires i <= |s|
    ensures i <= j <= |s|
    decreases |s| - i
  {
    if i < |s| && IsSpace(s[i]) then SkipSpaces(s, i + 1) else i
  }

  /** logout or unlink at i, at a word boundary, with an opening parenthesis behind it. */
  predicate ForbiddenCallAt(s: string, i: nat)
    requires i <= |s|
  {
    && (i == 0 || !IsWord(s[i - 1]))
    && (StartsWith(s[i..], "logout") || StartsWith(s[i..], "unlink"))
    && var j := SkipSpaces(s, i + 6); j < |s| && s[j] == '('
  }

  /** logout or unlink as a word of its own, white space, and an opening parenthesis. */
  ghost predicate CallText(s: string, i: nat, j: nat) {
    && i + 6 <= j < |s| && s[i..i + 6] in {"logout", "unlink"} && s[j] == '('
    && (forall k :: i + 6 <= k < j ==> IsSpace(s[k]))
    && (i > 0 ==>
          var c := s[i - 1]; !('a' <= c <= 'z' || 'A' <= c <= 'Z' || '0' <= c <= '9' || c == '_'))
  }

  lemma {:induction false} SkipsSpaces(s: string, i: nat, j: nat)
    requires i <= |s|
    ensures forall k :: i <= k < SkipSpaces(s, i) ==> IsSpace(s[k])
    ensures i <= j < |s| && !IsSpace(s[j]) && (forall k :: i <= k < j ==> IsSpace(s[k])) ==> SkipSpaces(s, i) == j
    decreases |s| - i
  {
    if i < |s| && IsSpace(s[i]) { SkipsSpaces(s, i + 1, j); }
  }

  /** What the call pattern matches. */
  lemma {:induction false} ForbiddenCallMeaning(s: string)
    ensures HasForbiddenCall(s) <==> exists i: nat, j: nat :: CallText(s, i, j)
  {
    forall i: nat | i <= |s| && ForbiddenCallAt(s, i) ensures exists j: nat :: CallText(s, i, j) { CallRead(s, i); }
    forall i: nat, j: nat | CallText(s, i, j) ensures i <= |s| && ForbiddenCallAt(s, i) { CallFound(s, i, j); }
    hide ForbiddenCallAt, CallText;
  }

  lemma {:induction false} CallRead(s: string, i: nat)
    requires i <= |s| && ForbiddenCallAt(s, i)
    ensures exists j: nat :: CallText(s, i, j)
  {
    WordAt(s, i);
    var j := SkipSpaces(s, i + 6);
    SkipsSpaces(s, i + 6, j);
    hide SkipSpaces;
    assert CallText(s, i, j);
  }

  lemma {:induction false} CallFound(s: string, i: nat, j: nat)
    requires CallText(s, i, j)
    ensures i <= |s| && ForbiddenCallAt(s, i)
  {
    SkipsSpaces(s, i + 6, j);
    hide SkipSpaces;
    assert s[i..][..6] == s[i..i + 6];
  }

  predicate HasForbiddenCall(s: string) { exists i: nat | i <= |s| :: ForbiddenCallAt(s, i) }

  datatype ShutdownViolation =
    | BaileysImport(specifier: string)
    | UnderProvider(file: string)
    | ForbiddenCall(file: string)

  function ImportViolations(edges: seq<ImportEdge>): seq<ShutdownViolation> {
    if edges == [] then []
    else
      var e := edges[|edges| - 1];
      ImportViolations(edges[..|edges| - 1])
      + if IsBaileysPackage(e.specifier) then [BaileysImport(e.specifier)] else []
  }

  function NodeViolation(path: string, graph: Graph): seq<ShutdownViolation> {
    (if StartsWith(path, PROVIDER_BAILEYS_PREFIX) then [UnderProvider(path)] else [])
    + if path in graph && HasForbiddenCall(CommentBlanking.Blank(graph[path])) then [ForbiddenCall(path)] else []
  }

  function NodeViolations(visited: seq<string>, graph: Graph): seq<ShutdownViolation> {
    if visited == [] then []
    else NodeViolations(visited[..|visited| - 1], graph) + NodeViolation(visited[|visited| - 1], graph)
  }

  method ScanShutdownPurity(files: seq<ModuleFile>, roots: seq<string>, extract: Extract)
      returns (violations: seq<ShutdownViolation>)
    ensures forall v :: v in violations <==>
                          ShouldReport(v, BuildGraph(files), Present(roots, BuildGraph(files)), extract)
    ensures forall i, j :: 0 <= i < j < |violations| && violations[i] == violations[j] ==> violations[i].BaileysImport?
    ensures InWalkOrder(violations, BuildGraph(files), Present(roots, BuildGraph(files)), extract)
  {
    hide Reachable, Present, BuildGraph, ShouldReport, ImportViolations, NodeViolations, EdgesOf, Distinct;
    var graph := BuildGraph(files);
    var presentRoots := Present(roots, graph);
    var visited, edges := TraverseModuleGraph(presentRoots, graph, extract);
    var imports := ScanEdges(edges);
    violations := ScanNodes(visited, graph);
    EachNodeOnce(edges, visited, graph);
    violations := imports + violations;
    ReportedExactly(visited, edges, graph, presentRoots, extract);
  }

  /** One report for each import of a pinned package, then those of the reached files, all in the order of one walk that
      visits each reachable file once. */
  ghost predicate InWalkOrder(violations: seq<ShutdownViolation>, graph: Graph, roots: seq<string>, extract: Extract) {
    exists visited ::
      && Distinct(visited) && (forall n :: n in visited <==> Reachable(roots, n, graph, extract))
      && violations == ImportViolations(EdgesOf(visited, graph, extract)) + NodeViolations(visited, graph)
  }

  method ScanEdges(edges: seq<ImportEdge>) returns (violations: seq<ShutdownViolation>)
    ensures violations == ImportViolations(edges)
  {
    violations := [];
    for i := 0 to |edges|
      invariant violations == ImportViolations(edges[..i])
    {
      assert edges[..i + 1][..i] == edges[..i];
      if IsBaileysPackage(edges[i].specifier) {
        violations := violations + [BaileysImport(edges[i].specifier)];
      }
    }
    assert edges[..|edges|] == edges;
  }

  method ScanNodes(visited: seq<string>, graph: Graph) returns (violations: seq<ShutdownViolation>)
    ensures violations == NodeViolations(visited, graph)
  {
    hide HasForbiddenCall, CommentBlanking.Blank, PROVIDER_BAILEYS_PREFIX;
    violations := [];
    for i := 0 to |visited|
      invariant violations == NodeViolations(visited[..i], graph)
    {
      assert visited[..i + 1][..i] == visited[..i];
      var nodePath := visited[i];
      if StartsWith(nodePath, PROVIDER_BAILEYS_PREFIX) {
        violations := violations + [UnderProvider(nodePath)];
      }
      if nodePath in graph {
        var codeOnly := CommentBlanking.StripComments(graph[nodePath]);
        if HasForbiddenCall(codeOnly) {
          violations := violations + [ForbiddenCall(nodePath)];
        }
      }
    }
    assert visited[..|visited|] == visited;
  }

  /** What a violation says about the files that import paths from the roots reach. */
  ghost predicate ShouldReport(v: ShutdownViolation, graph: Graph, roots: seq<string>, extract: Extract) {
    match v
    case UnderProvider(file) => "app/backend/src/provider/baileys/" <= file && Reachable(roots, file, graph, extract)
    case ForbiddenCall(file) =>
      file in graph && HasForbiddenCall(CommentBlanking.Blank(graph[file])) && Reachable(roots, file, graph, extract)
    case BaileysImport(specifier) =>
      && specifier in {"baileys", "@whiskeysockets/baileys"}
      && exists file :: Reachable(roots, file, graph, extract) && Writes(file, specifier, graph, extract)
  }

  ghost predicate Writes(file: string, specifier: string, graph: Graph, extract: Extract) {
    exists e :: e in EdgesAt(file, graph, extract) && e.specifier == specifier
  }

  lemma {:induction false} ImportViolationsMeaning(edges: seq<ImportEdge>, v: ShutdownViolation)
    ensures v in ImportViolations(edges) <==>
              v.BaileysImport? && IsBaileysPackage(v.specifier) && exists e :: e in edges && e.specifier == v.specifier
  {
    if edges == [] {
    } else {
      var n := |edges| - 1;
      assert edges == edges[..n] + [edges[n]];
      ImportViolationsMeaning(edges[..n], v);
    }
  }

  lemma {:induction false} NodeViolationsMeaning(visited: seq<string>, graph: Graph, v: ShutdownViolation)
    ensures v in NodeViolations(visited, graph)
            <==> !v.BaileysImport? && v.file in visited && v in NodeViolation(v.file, graph)
  {
    if visited == [] {
    } else {
      var n := |visited| - 1;
      assert visited == visited[..n] + [visited[n]];
      NodeViolationsMeaning(visited[..n], graph, v);
      hide HasForbiddenCall;
    }
  }

  lemma {:induction false} EdgesOfMeaning(visited: seq<string>, graph: Graph, extract: Extract, e: ImportEdge)
    ensures e in EdgesOf(visited, graph, extract) <==> exists n :: n in visited && e in EdgesAt(n, graph, extract)
  {
    if visited == [] {
    } else {
      var n := |visited| - 1;
      assert visited == visited[..n] + [visited[n]];
      EdgesOfMeaning(visited[..n], graph, extract, e);
      hide EdgesAt;
    }
  }

  ghost predicate AllDifferent(vs: seq<ShutdownViolation>) { forall i, j :: 0 <= i < j < |vs| ==> vs[i] != vs[j] }

  lemma {:induction false} NodesOnce(visited: seq<string>, graph: Graph)
    requires Distinct(visited)
    ensures AllDifferent(NodeViolations(visited, graph))
  {
    if visited == [] {
    } else {
      var n := |visited| - 1;
      NodesOnce(visited[..n], graph);
      forall v | v in NodeViolations(visited[..n], graph) ensures v !in NodeViolation(visited[n], graph) {
        NodeViolationsMeaning(visited[..n], graph, v);
        hide HasForbiddenCall;
      }
      hide HasForbiddenCall, Distinct;
      assert AllDifferent(NodeViolation(visited[n], graph));
      hide NodeViolation;
      DifferentConcat(NodeViolations(visited[..n], graph), NodeViolation(visited[n], graph));
    }
  }

  lemma DifferentConcat(vs: seq<ShutdownViolation>, ws: seq<ShutdownViolation>)
    requires AllDifferent(vs) && AllDifferent(ws) && forall v :: v in vs ==> v !in ws
    ensures AllDifferent(vs + ws)
  {
    forall i, j | 0 <= i < j < |vs + ws| ensures (vs + ws)[i] != (vs + ws)[j] {
      if i < |vs| <= j {
        assert vs[i] in vs && ws[j - |vs|] in ws;
      }
    }
  }

  lemma EachNodeOnce(edges: seq<ImportEdge>, visited: seq<string>, graph: Graph)
    requires Distinct(visited)
    ensures var vs := ImportViolations(edges) + NodeViolations(visited, graph);
            forall i, j :: 0 <= i < j < |vs| && vs[i] == vs[j] ==> vs[i].BaileysImport?
  {
    NodesOnce(visited, graph);
    forall v | v in ImportViolations(edges) ensures v.BaileysImport? { ImportViolationsMeaning(edges, v); }
    hide NodeViolations, ImportViolations, Distinct;
    DifferentAfterImports(ImportViolations(edges), NodeViolations(visited, graph));
  }

  lemma DifferentAfterImports(imports: seq<ShutdownViolation>, nodes: seq<ShutdownViolation>)
    requires AllDifferent(nodes) && forall v :: v in imports ==> v.BaileysImport?
    ensures var vs := imports + nodes; forall i, j :: 0 <= i < j < |vs| && vs[i] == vs[j] ==> vs[i].BaileysImport?
  {
    var vs := imports + nodes;
    forall i, j | 0 <= i < j < |vs| && vs[i] == vs[j] ensures vs[i].BaileysImport? {
      if i < |imports| {
        assert imports[i] in imports;
      } else {
        assert false;
      }
    }
  }

  lemma ReportedExactly(visited: seq<string>, edges: seq<ImportEdge>, graph: Graph, roots: seq<string>,
                        extract: Extract)
    requires forall n :: n in visited <==> Reachable(roots, n, graph, extract)
    requires edges == EdgesOf(visited, graph, extract)
    ensures forall v :: v in ImportViolations(edges) + NodeViolations(visited, graph) <==>
                          ShouldReport(v, graph, roots, extract)
  {
    hide Reachable, EdgesOf, ShouldReport, ImportViolations, NodeViolations;
    forall v
      ensures v in ImportViolations(edges) + NodeViolations(visited, graph) <==> ShouldReport(v, graph, roots, extract)
    {
      if v.BaileysImport? {
        ImportReported(visited, edges, graph, roots, extract, v);
      } else {
        NodeReported(visited, edges, graph, roots, extract, v);
      }
    }
  }

  lemma ImportReported(visited: seq<string>, edges: seq<ImportEdge>, graph: Graph, roots: seq<string>, extract: Extract,
                       v: ShutdownViolation)
    requires v.BaileysImport? && edges == EdgesOf(visited, graph, extract)
    requires forall n :: n in visited <==> Reachable(roots, n, graph, extract)
    ensures v !in NodeViolations(visited, graph)
    ensures v in ImportViolations(edges) <==> ShouldReport(v, graph, roots, extract)
  {
    hide Reachable, EdgesOf, Writes, ImportViolations, NodeViolations, NodeViolation, HasForbiddenCall;
    ImportViolationsMeaning(edges, v);
    NodeViolationsMeaning(visited, graph, v);
    WritesMeaning(visited, edges, graph, extract, v.specifier);
  }

  lemma NodeReported(visited: seq<string>, edges: seq<ImportEdge>, graph: Graph, roots: seq<string>, extract: Extract,
                     v: ShutdownViolation)
    requires !v.BaileysImport? && forall n :: n in visited <==> Reachable(roots, n, graph, extract)
    ensures v !in ImportViolations(edges)
    ensures v in NodeViolations(visited, graph) <==> ShouldReport(v, graph, roots, extract)
  {
    hide Reachable, ImportViolations, NodeViolations, HasForbiddenCall;
    ImportViolationsMeaning(edges, v);
    NodeViolationsMeaning(visited, graph, v);
  }

  lemma WritesMeaning(visited: seq<string>, edges: seq<ImportEdge>, graph: Graph, extract: Extract, specifier: string)
    requires edges == EdgesOf(visited, graph, extract)
    ensures (exists e :: e in edges && e.specifier == specifier)
            <==> exists n :: n in visited && Writes(n, specifier, graph, extract)
  {
    hide EdgesAt, EdgesOf;
    if e :| e in edges && e.specifier == specifier {
      EdgesOfMeaning(visited, graph, extract, e);
      var n :| n in visited && e in EdgesAt(n, graph, extract);
      assert Writes(n, specifier, graph, extract);
    }
    if n :| n in visited && Writes(n, specifier, graph, extract) {
      var e :| e in EdgesAt(n, graph, extract) && e.specifier == specifier;
      EdgesOfMeaning(visited, graph, extract, e);
    }
  }

  /** The forbidden word of a reported call is written in the file itself, outside its comments. */
  lemma CallOutsideComments(s: string, i: nat)
    requires i <= |s| && ForbiddenCallAt(CommentBlanking.Blank(s), i)
    ensures i + 6 <= |s| && s[i..i + 6] in {"logout", "unlink"}
    ensures forall j :: i <= j < i + 6 ==> !CommentBlanking.RoleAt(s, j).IsComment()
  {
    hide CommentBlanking.Blank, CommentBlanking.RoleAt, ForbiddenCallAt;
    var t := CommentBlanking.Blank(s);
    WordAt(t, i);
    WordHasNoSpace(t[i..i + 6]);
    forall j | i <= j < i + 6 ensures s[j] == t[j] && !CommentBlanking.RoleAt(s, j).IsComment() {
      assert t[j] == t[i..i + 6][j - i];
      BlankOrKept(s, j);
    }
    assert s[i..i + 6] == t[i..i + 6];
  }

  lemma WordAt(t: string, i: nat)
    requires i <= |t| && ForbiddenCallAt(t, i)
    ensures i + 6 <= |t| && (t[i..i + 6] == "logout" || t[i..i + 6] == "unlink")
  {
    hide SkipSpaces;
    assert t[i..][..6] == t[i..i + 6];
  }

  lemma WordHasNoSpace(w: string)
    requires w == "logout" || w == "unlink"
    ensures |w| == 6 && forall k :: 0 <= k < 6 ==> w[k] != ' ' && w[k] != '\n'
  {
  }

  lemma BlankOrKept(s: string, j: nat)
    requires j < |s| && CommentBlanking.Blank(s)[j] !in {' ', '\n'}
    ensures s[j] == CommentBlanking.Blank(s)[j] && !CommentBlanking.RoleAt(s, j).IsComment()
  {
    assert CommentBlanking.Blank(s)[j] == CommentBlanking.BlankChar(s, j);
  }
}
