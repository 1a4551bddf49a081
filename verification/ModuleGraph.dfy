/**
 The static import graph: resolving relative specifiers, walking from roots, and the two guards that ask
 what the walk can reach. Extracting specifiers from source text is a parameter.
 */
module ModuleGraph {
  import opened Common

  /** Path to content. */
  type Graph = map<string, string>

  /** The specifiers written in a source text, in order. */
  type Extract = string -> seq<string>

  // ---------------------------------------------------------------- paths

  /** split('/') */
  function Split(s: string): (parts: seq<string>)
    ensures parts != []
  {
    if s == "" then [""]
    else if s[0] == '/' then [""] + Split(s[1..])
    else var rest := Split(s[1..]); [[s[0]] + rest[0]] + rest[1..]
  }

  /** join('/') */
  function Join(parts: seq<string>): string {
    if parts == [] then ""
    else if |parts| == 1 then parts[0]
    else parts[0] + "/" + Join(parts[1..])
  }

  predicate StartsWith(s: string, prefix: string) { prefix <= s }

  predicate EndsWith(s: string, suffix: string) { |suffix| <= |s| && s[|s| - |suffix|..] == suffix }

  predicate IsRelative(specifier: string) { StartsWith(specifier, "./") || StartsWith(specifier, "../") }

  /** Walks the parts of a specifier from a directory; '..' above the top stays at the top. */
  function Walk(stack: seq<string>, parts: seq<string>): seq<string>
    decreases |parts|
  {
    if parts == [] then stack
    else if parts[0] == "" || parts[0] == "." then Walk(stack, parts[1..])
    else if parts[0] == ".." then Walk(if stack == [] then [] else stack[..|stack| - 1], parts[1..])
    else Walk(stack + [parts[0]], parts[1..])
  }

  function ReplaceJs(path: string, extension: string): string {
    if EndsWith(path, ".js") then path[..|path| - 3] + extension else path
  }

  function Candidates(joined: string): seq<string> {
    [joined, ReplaceJs(joined, ".ts"), ReplaceJs(joined, ".tsx"), joined + ".ts", joined + ".tsx",
     joined + "/index.ts", joined + "/index.tsx"]
  }

  function FirstIn(candidates: seq<string>, graph: Graph): (r: Option<string>)
    ensures r.Some? ==> r.value in graph && r.value in candidates
    ensures r.None? ==> forall c :: c in candidates ==> c !in graph
  {
    if candidates == [] then None
    else if candidates[0] in graph then Some(candidates[0])
    else FirstIn(candidates[1..], graph)
  }

  function FromDir(path: string): seq<string> { Split(path)[..|Split(path)| - 1] }

  function Resolve(fromPath: string, specifier: string, graph: Graph): (r: Option<string>)
    ensures r.Some? ==> r.value in graph && IsRelative(specifier)
  {
    if !IsRelative(specifier) then None
    else FirstIn(Candidates(Join(Walk(FromDir(fromPath), Split(specifier)))), graph)
  }

  method ResolveRelativeSpecifier(fromPath: string, specifier: string, graph: Graph) returns (r: Option<string>)
    ensures r == Resolve(fromPath, specifier, graph)
  {
    if !StartsWith(specifier, "./") && !StartsWith(specifier, "../") {
      return None;
    }
    var parts := Split(specifier);
    var stack := FromDir(fromPath);
    for i := 0 to |parts|
      invariant Walk(stack, parts[i..]) == Walk(FromDir(fromPath), parts)
    {
      var part := parts[i];
      assert parts[i..][1..] == parts[i + 1..];
      if part == "" || part == "." {
        continue;
      }
      if part == ".." {
        stack := if stack == [] then [] else stack[..|stack| - 1];
        continue;
      }
      stack := stack + [part];
    }
    var candidates := Candidates(Join(stack));
    for i := 0 to |candidates|
      invariant FirstIn(candidates[i..], graph) == FirstIn(candidates, graph)
    {
      if candidates[i] in graph {
        return Some(candidates[i]);
      }
      assert candidates[i..][1..] == candidates[i + 1..];
    }
    return None;
  }

  // ---------------------------------------------------------------- the resolver undoes relative paths

  /** A path segment that means itself. */
  predicate Ordinary(part: string) { part != "" && part != "." && part != ".." && '/' !in part }

  ghost predicate OrdinaryPath(parts: seq<string>) {
    parts != [] && forall i :: 0 <= i < |parts| ==> Ordinary(parts[i])
  }

  lemma {:induction false} SplitFirst(part: string, rest: string)
    requires '/' !in part
    ensures Split(part) == [part] && Split(part + "/" + rest) == [part] + Split(rest)
  {
    if part == "" {
      var s := part + "/" + rest;
      assert s[0] == '/' && s[1..] == rest;
    } else {
      assert (part + "/" + rest)[1..] == part[1..] + "/" + rest;
      SplitFirst(part[1..], rest);
      assert part[0] in part && [part[0]] + part[1..] == part;
      assert ([part[1..]] + Split(rest))[1..] == Split(rest);
    }
  }

  lemma {:induction false} SplitJoin(parts: seq<string>)
    requires parts != [] && forall i :: 0 <= i < |parts| ==> '/' !in parts[i]
    ensures Split(Join(parts)) == parts
  {
    if |parts| == 1 {
      SplitFirst(parts[0], "");
    } else {
      SplitJoin(parts[1..]);
      SplitFirst(parts[0], Join(parts[1..]));
    }
  }

  lemma {:induction false} WalkDown(stack: seq<string>, parts: seq<string>)
    requires forall i :: 0 <= i < |parts| ==> Ordinary(parts[i])
    ensures Walk(stack, parts) == stack + parts
    decreases |parts|
  {
    if parts == [] {
    } else {
      WalkDown(stack + [parts[0]], parts[1..]);
    }
  }

  function Ups(n: nat): (parts: seq<string>) ensures |parts| == n { seq(n, _ => "..") }

  lemma {:induction false} WalkUp(stack: seq<string>, n: nat, parts: seq<string>)
    requires n <= |stack|
    ensures Walk(stack, Ups(n) + parts) == Walk(stack[..|stack| - n], parts)
  {
    if n == 0 {
      assert Ups(0) + parts == parts && stack[..|stack|] == stack;
    } else {
      var up := stack[..|stack| - 1];
      assert (Ups(n) + parts)[1..] == Ups(n - 1) + parts;
      WalkUp(up, n - 1, parts);
      assert up[..|up| - (n - 1)] == stack[..|stack| - n];
    }
  }

  /** The specifier from a directory to a target that share their first k segments. */
  function RelativeParts(fromDir: seq<string>, target: seq<string>, k: nat): seq<string>
    requires k <= |fromDir| && k < |target|
  {
    (if k == |fromDir| then ["."] else Ups(|fromDir| - k)) + target[k..]
  }

  lemma RelativeIsRelative(fromDir: seq<string>, target: seq<string>, k: nat)
    requires k <= |fromDir| && k < |target|
    ensures IsRelative(Join(RelativeParts(fromDir, target, k)))
  {
    var parts := RelativeParts(fromDir, target, k);
    assert |parts| > 1;
    var text := Join(parts);
    assert text == parts[0] + "/" + Join(parts[1..]);
    assert k == |fromDir| ==> "./" == text[..2];
    assert k < |fromDir| ==> "../" == text[..3];
  }

  lemma SplitRelative(fromDir: seq<string>, target: seq<string>, k: nat)
    requires k <= |fromDir| && k < |target| && OrdinaryPath(target)
    ensures Split(Join(RelativeParts(fromDir, target, k))) == RelativeParts(fromDir, target, k)
  {
    var parts := RelativeParts(fromDir, target, k);
    assert forall i :: 0 <= i < |parts| ==> parts[i] == "." || parts[i] == ".." || parts[i] in target;
    hide RelativeParts;
    SplitJoin(parts);
  }

  lemma WalkDot(stack: seq<string>, parts: seq<string>)
    ensures Walk(stack, ["."] + parts) == Walk(stack, parts)
  {
    assert (["."] + parts)[1..] == parts;
  }

  lemma {:induction false} WalkRelative(fromDir: seq<string>, target: seq<string>, k: nat)
    requires k <= |fromDir| && k < |target| && fromDir[..k] == target[..k] && OrdinaryPath(target)
    ensures Walk(fromDir, RelativeParts(fromDir, target, k)) == target
  {
    hide Ordinary, OrdinaryPath, Walk;
    WalkDownTo(target, k);
    if k == |fromDir| {
      assert fromDir[..k] == fromDir;
      WalkDot(fromDir, target[k..]);
    } else {
      WalkUp(fromDir, |fromDir| - k, target[k..]);
    }
  }

  lemma WalkDownTo(target: seq<string>, k: nat)
    requires k < |target| && OrdinaryPath(target)
    ensures Walk(target[..k], target[k..]) == target
  {
    WalkDown(target[..k], target[k..]);
    assert target[..k] + target[k..] == target;
  }

  /** The file name in a directory, target and specifier: the first k segments of the directory are also those of the
      target. */
  ghost predicate Shares(fromDir: seq<string>, name: string, target: seq<string>, k: nat) {
    && (forall i :: 0 <= i < |fromDir| ==> '/' !in fromDir[i]) && '/' !in name
    && k <= |fromDir| && k < |target| && fromDir[..k] == target[..k] && OrdinaryPath(target)
  }

  lemma DirOf(fromDir: seq<string>, name: string)
    requires (forall i :: 0 <= i < |fromDir| ==> '/' !in fromDir[i]) && '/' !in name
    ensures FromDir(Join(fromDir + [name])) == fromDir
  {
    SplitJoin(fromDir + [name]);
    hide Split, Join;
  }

  /** The specifier walks to the target, so what is tried is the target's own candidates. */
  lemma ResolveRelative(fromDir: seq<string>, name: string, target: seq<string>, k: nat, graph: Graph)
    requires Shares(fromDir, name, target, k)
    ensures Resolve(Join(fromDir + [name]), Join(RelativeParts(fromDir, target, k)), graph)
            == FirstIn(Candidates(Join(target)), graph)
  {
    hide Join, Split, Walk, RelativeParts, Candidates, FirstIn, OrdinaryPath, FromDir;
    DirOf(fromDir, name);
    RelativeIsRelative(fromDir, target, k);
    SplitRelative(fromDir, target, k);
    WalkRelative(fromDir, target, k);
  }

  /** From any file, the './' or '../' specifier of a file of the graph resolves to exactly that file, however many
      of the leading segments they share are left out of it. */
  lemma ResolveUndoesRelative(fromDir: seq<string>, name: string, target: seq<string>, k: nat, graph: Graph)
    requires Shares(fromDir, name, target, k) && Join(target) in graph
    ensures Resolve(Join(fromDir + [name]), Join(RelativeParts(fromDir, target, k)), graph) == Some(Join(target))
  {
    ResolveRelative(fromDir, name, target, k, graph);
    hide Resolve, Join, Shares, RelativeParts;
    assert Candidates(Join(target))[0] == Join(target);
  }

  /** A specifier written with .js finds, in this order, that file, the .ts or the .tsx file in its place, a file with
      .ts or .tsx added, or an index of a directory of that name. */
  lemma ResolveJsToTs(fromDir: seq<string>, name: string, target: seq<string>, k: nat, base: string, graph: Graph)
    requires Shares(fromDir, name, target, k) && Join(target) == base + ".js"
    ensures var path := base + ".js";
            Resolve(Join(fromDir + [name]), Join(RelativeParts(fromDir, target, k)), graph)
            == if path in graph then Some(path)
               else if base + ".ts" in graph then Some(base + ".ts")
               else if base + ".tsx" in graph then Some(base + ".tsx")
               else Added(path, graph)
  {
    ResolveRelative(fromDir, name, target, k, graph);
    hide Resolve, Join, Shares, RelativeParts;
    FirstOfJs(base, graph);
  }

  /** A specifier written without .js finds, in this order, the path itself, a .ts or .tsx file, or a directory's
      index. */
  lemma ResolveBare(fromDir: seq<string>, name: string, target: seq<string>, k: nat, graph: Graph)
    requires Shares(fromDir, name, target, k) && !EndsWith(Join(target), ".js")
    ensures var path := Join(target);
            Resolve(Join(fromDir + [name]), Join(RelativeParts(fromDir, target, k)), graph)
            == if path in graph then Some(path) else Added(path, graph)
  {
    ResolveRelative(fromDir, name, target, k, graph);
    hide Resolve, Join, Shares, EndsWith, FirstIn, RelativeParts, Added;
    FirstOfPlain(Join(target), graph);
  }

  function Added(path: string, graph: Graph): Option<string> {
    if path + ".ts" in graph then Some(path + ".ts")
    else if path + ".tsx" in graph then Some(path + ".tsx")
    else if path + "/index.ts" in graph then Some(path + "/index.ts")
    else if path + "/index.tsx" in graph then Some(path + "/index.tsx")
    else None
  }

  lemma FirstAdded(path: string, graph: Graph)
    ensures FirstIn([path + ".ts", path + ".tsx", path + "/index.ts", path + "/index.tsx"], graph) == Added(path, graph)
  {
    var a, b, c, d := path + ".ts", path + ".tsx", path + "/index.ts", path + "/index.tsx";
    assert [a, b, c, d] == [a] + ([b] + ([c] + ([d] + [])));
    hide FirstIn;
    FirstCons(a, [b] + ([c] + ([d] + [])), graph);
    FirstCons(b, [c] + ([d] + []), graph);
    FirstCons(c, [d] + [], graph);
    FirstCons(d, [], graph);
  }

  lemma FirstOfJs(base: string, graph: Graph)
    ensures var path := base + ".js";
            FirstIn(Candidates(path), graph)
            == if path in graph then Some(path)
               else if base + ".ts" in graph then Some(base + ".ts")
               else if base + ".tsx" in graph then Some(base + ".tsx")
               else Added(path, graph)
  {
    var path := base + ".js";
    assert path[|path| - 3..] == ".js" && path[..|path| - 3] == base;
    var more := [path + ".ts", path + ".tsx", path + "/index.ts", path + "/index.tsx"];
    assert Candidates(path) == [path] + ([base + ".ts"] + ([base + ".tsx"] + more));
    hide Candidates, FirstIn, Added;
    FirstCons(path, [base + ".ts"] + ([base + ".tsx"] + more), graph);
    FirstCons(base + ".ts", [base + ".tsx"] + more, graph);
    FirstCons(base + ".tsx", more, graph);
    FirstAdded(path, graph);
  }

  lemma FirstOfPlain(path: string, graph: Graph)
    requires !EndsWith(path, ".js")
    ensures FirstIn(Candidates(path), graph) == if path in graph then Some(path) else Added(path, graph)
  {
    var more := [path + ".ts", path + ".tsx", path + "/index.ts", path + "/index.tsx"];
    assert Candidates(path) == [path] + ([path] + ([path] + more));
    hide EndsWith, Candidates, FirstIn, Added;
    FirstCons(path, [path] + ([path] + more), graph);
    FirstCons(path, [path] + more, graph);
    FirstCons(path, more, graph);
    FirstAdded(path, graph);
  }

  lemma FirstCons(c: string, cs: seq<string>, graph: Graph)
    ensures FirstIn([], graph) == None && FirstIn([c] + cs, graph) == if c in graph then Some(c) else FirstIn(cs, graph)
  {
    assert ([c] + cs)[1..] == cs;
  }

  // ---------------------------------------------------------------- edges and reachability

  datatype ModuleFile = ModuleFile(path: string, content: string)
  datatype ImportEdge = ImportEdge(specifier: string, resolvedPath: Option<string>)

  /** All import edges out of one file. */
  function ImportEdgesOf(file: ModuleFile, graph: Graph, extract: Extract): (edges: seq<ImportEdge>)
    ensures forall e :: e in edges && e.resolvedPath.Some? ==> e.resolvedPath.value in graph
  {
    var specifiers := extract(file.content);
    seq(|specifiers|, i requires 0 <= i < |specifiers| =>
      ImportEdge(specifiers[i], Resolve(file.path, specifiers[i], graph)))
  }

  function EdgesAt(path: string, graph: Graph, extract: Extract): (edges: seq<ImportEdge>)
    ensures forall e :: e in edges && e.resolvedPath.Some? ==> e.resolvedPath.value in graph
  {
    if path in graph then ImportEdgesOf(ModuleFile(path, graph[path]), graph, extract) else []
  }

  /** a imports b. */
  ghost predicate Imports(a: string, b: string, graph: Graph, extract: Extract) {
    exists e :: e in EdgesAt(a, graph, extract) && e.resolvedPath == Some(b)
  }

  /** The edges of a file are its specifiers, in order, each with what it resolves to from there; so a imports b exactly
      when some specifier written in a resolves to b. */
  lemma ImportsMeaning(a: string, graph: Graph, extract: Extract)
    requires a in graph
    ensures var specifiers, edges := extract(graph[a]), EdgesAt(a, graph, extract);
            && |edges| == |specifiers|
            && forall i :: 0 <= i < |edges| ==>
                 edges[i] == ImportEdge(specifiers[i], Resolve(a, specifiers[i], graph))
    ensures forall b :: Imports(a, b, graph, extract) <==>
                          exists s :: s in extract(graph[a]) && Resolve(a, s, graph) == Some(b)
  {
    hide Resolve;
    var specifiers, edges := extract(graph[a]), EdgesAt(a, graph, extract);
    forall b ensures Imports(a, b, graph, extract) <==> exists s :: s in specifiers && Resolve(a, s, graph) == Some(b) {
      if s :| s in specifiers && Resolve(a, s, graph) == Some(b) {
        var i :| 0 <= i < |specifiers| && specifiers[i] == s;
        assert edges[i] in edges && edges[i].resolvedPath == Some(b);
      }
    }
  }

  /** p is an import path. */
  ghost predicate ImportPath(p: seq<string>, graph: Graph, extract: Extract) {
    p != [] && forall i :: 0 <= i < |p| - 1 ==> Imports(p[i], p[i + 1], graph, extract)
  }

  ghost predicate PathTo(p: seq<string>, roots: seq<string>, n: string, graph: Graph, extract: Extract) {
    ImportPath(p, graph, extract) && p[0] in roots && p[|p| - 1] == n
  }

  ghost predicate Reachable(roots: seq<string>, n: string, graph: Graph, extract: Extract) {
    exists p :: PathTo(p, roots, n, graph, extract)
  }

  lemma RootReachable(roots: seq<string>, n: string, graph: Graph, extract: Extract)
    requires n in roots
    ensures Reachable(roots, n, graph, extract)
  {
    assert PathTo([n], roots, n, graph, extract);
  }

  lemma ImportReachable(roots: seq<string>, a: string, b: string, graph: Graph, extract: Extract)
    requires Reachable(roots, a, graph, extract) && Imports(a, b, graph, extract)
    ensures Reachable(roots, b, graph, extract)
  {
    var p :| PathTo(p, roots, a, graph, extract);
    var q := p + [b];
    forall i | 0 <= i < |q| - 1 ensures Imports(q[i], q[i + 1], graph, extract) {
      if i < |p| - 1 { assert Imports(p[i], p[i + 1], graph, extract); }
    }
    assert PathTo(q, roots, b, graph, extract);
  }

  /** A set with the roots that is closed under imports has everything reachable. */
  lemma {:induction false} ClosedHasPath(nodes: set<string>, p: seq<string>, roots: seq<string>, graph: Graph,
                                         extract: Extract)
    requires ImportPath(p, graph, extract) && p[0] in nodes
    requires forall a, b :: a in nodes && Imports(a, b, graph, extract) ==> b in nodes
    ensures p[|p| - 1] in nodes
  {
    if |p| > 1 {
      assert Imports(p[0], p[0 + 1], graph, extract);
      forall i | 0 <= i < |p[1..]| - 1 ensures Imports(p[1..][i], p[1..][i + 1], graph, extract) {
        assert Imports(p[i + 1], p[(i + 1) + 1], graph, extract);
      }
      ClosedHasPath(nodes, p[1..], roots, graph, extract);
    }
  }

  // ---------------------------------------------------------------- the walk

  /** The edges of each node, in visiting order. */
  function EdgesOf(visited: seq<string>, graph: Graph, extract: Extract): seq<ImportEdge> {
    if visited == [] then []
    else EdgesOf(visited[..|visited| - 1], graph, extract) + EdgesAt(visited[|visited| - 1], graph, extract)
  }

  ghost predicate Distinct(xs: seq<string>) { forall i, j :: 0 <= i < j < |xs| ==> xs[i] != xs[j] }

  ghost function Members(xs: seq<string>): set<string> { set x | x in xs }

  /** Between two visits: everything seen is reachable, and nothing reachable is lost. */
  ghost predicate Walking(visited: seq<string>, queue: seq<string>, roots: seq<string>, graph: Graph,
                          extract: Extract) {
    && Distinct(visited)
    && (forall n :: n in visited || n in queue ==>
         Reachable(roots, n, graph, extract) && n in graph.Keys + Members(roots))
    && (forall r :: r in roots ==> r in visited || r in queue)
    && forall a, b :: a in visited && Imports(a, b, graph, extract) ==> b in visited || b in queue
  }

  /** The nodes pushed for one file: its resolved imports that are not visited yet. */
  function Pushed(edges: seq<ImportEdge>, visited: seq<string>): (ns: seq<string>)
    ensures forall n :: n in ns <==> n !in visited && exists e :: e in edges && e.resolvedPath == Some(n)
  {
    if edges == [] then []
    else
      var e := edges[|edges| - 1];
      assert edges == edges[..|edges| - 1] + [e];
      Pushed(edges[..|edges| - 1], visited)
      + if e.resolvedPath.Some? && e.resolvedPath.value !in visited then [e.resolvedPath.value] else []
  }

  lemma StartWalk(roots: seq<string>, graph: Graph, extract: Extract)
    ensures Walking([], roots, roots, graph, extract) && EdgesOf([], graph, extract) == []
  {
    forall n | n in roots ensures Reachable(roots, n, graph, extract) { RootReachable(roots, n, graph, extract); }
  }

  lemma SkipVisited(visited: seq<string>, queue: seq<string>, roots: seq<string>, graph: Graph, extract: Extract)
    requires queue != [] && queue[0] in visited && Walking(visited, queue, roots, graph, extract)
    ensures Walking(visited, queue[1..], roots, graph, extract)
  {
    assert queue == [queue[0]] + queue[1..];
    hide Reachable, Imports;
  }

  lemma Visit(visited: seq<string>, queue: seq<string>, roots: seq<string>, graph: Graph, extract: Extract)
    requires queue != [] && queue[0] !in visited && Walking(visited, queue, roots, graph, extract)
    ensures var v := visited + [queue[0]];
            Walking(v, queue[1..] + Pushed(EdgesAt(queue[0], graph, extract), v), roots, graph, extract)
  {
    PushedAreReachable(visited, queue, roots, graph, extract);
    var current, rest := queue[0], queue[1..];
    assert queue == [current] + rest;
    var v := visited + [current];
    var pushed := Pushed(EdgesAt(current, graph, extract), v);
    hide Reachable, Imports, Pushed, EdgesAt;
    var longer := rest + pushed;
    assert forall n :: n in longer <==> n in rest || n in pushed;
    assert forall n :: n in v <==> n in visited || n == current;
  }

  lemma PushedAreReachable(visited: seq<string>, queue: seq<string>, roots: seq<string>, graph: Graph, extract: Extract)
    requires queue != [] && Walking(visited, queue, roots, graph, extract)
    ensures var v := visited + [queue[0]];
            var pushed := Pushed(EdgesAt(queue[0], graph, extract), v);
            && (forall n :: n in pushed ==> Reachable(roots, n, graph, extract) && n in graph.Keys)
            && forall b :: Imports(queue[0], b, graph, extract) ==> b in v || b in pushed
  {
    var v := visited + [queue[0]];
    forall n | n in Pushed(EdgesAt(queue[0], graph, extract), v)
      ensures Reachable(roots, n, graph, extract) && n in graph.Keys
    {
      assert Imports(queue[0], n, graph, extract);
      ImportReachable(roots, queue[0], n, graph, extract);
    }
    hide Reachable;
  }

  lemma EndWalk(visited: seq<string>, roots: seq<string>, graph: Graph, extract: Extract)
    requires Walking(visited, [], roots, graph, extract)
    ensures Distinct(visited) && forall n :: n in visited <==> Reachable(roots, n, graph, extract)
  {
    hide Imports;
    forall n | Reachable(roots, n, graph, extract) ensures n in visited {
      var p :| PathTo(p, roots, n, graph, extract);
      ClosedHasPath(Members(visited), p, roots, graph, extract);
    }
  }

  /** Visits exactly what is reachable, each node once, and reports the edges of each visited file once. */
  method TraverseModuleGraph(roots: seq<string>, graph: Graph, extract: Extract)
      returns (visited: seq<string>, edges: seq<ImportEdge>)
    ensures Distinct(visited) && forall n :: n in visited <==> Reachable(roots, n, graph, extract)
    ensures edges == EdgesOf(visited, graph, extract)
  {
    hide Walking, Distinct, Reachable, EdgesAt, EdgesOf, ImportEdgesOf, Pushed, Remaining;
    visited := [];
    edges := [];
    var queue := roots;
    StartWalk(roots, graph, extract);
    while |queue| > 0
      invariant Walking(visited, queue, roots, graph, extract) && edges == EdgesOf(visited, graph, extract)
      decreases Remaining(visited, roots, graph), |queue|
    {
      ghost var was := queue;
      var current := queue[0];
      queue := queue[1..];
      if current in visited {
        SkipVisited(visited, was, roots, graph, extract);
        continue;
      }
      Visit(visited, was, roots, graph, extract);
      Shrinks(visited, was, roots, graph, extract);
      EdgesOfNext(visited, current, graph, extract);
      visited := visited + [current];
      if current !in graph {
        NoEdges(current, graph, extract, visited);
        assert queue + [] == queue && edges + [] == edges;
        continue;
      }
      var fileEdges := ImportEdgesOf(ModuleFile(current, graph[current]), graph, extract);
      FileEdges(current, graph, extract);
      edges := edges + fileEdges;
      queue := PushImports(queue, fileEdges, visited);
    }
    EndWalk(visited, roots, graph, extract);
  }

  method PushImports(queue: seq<string>, fileEdges: seq<ImportEdge>, visited: seq<string>) returns (longer: seq<string>)
    ensures longer == queue + Pushed(fileEdges, visited)
  {
    longer := queue;
    assert fileEdges[..0] == [] && Pushed([], visited) == [];
    hide Pushed;
    for i := 0 to |fileEdges|
      invariant longer == queue + Pushed(fileEdges[..i], visited)
    {
      PushedNext(fileEdges, i, visited);
      var edge := fileEdges[i];
      if edge.resolvedPath.Some? && edge.resolvedPath.value !in visited {
        longer := longer + [edge.resolvedPath.value];
      }
    }
    assert fileEdges[..|fileEdges|] == fileEdges;
  }

  lemma PushedNext(edges: seq<ImportEdge>, i: nat, visited: seq<string>)
    requires i < |edges|
    ensures Pushed(edges[..i + 1], visited)
            == Pushed(edges[..i], visited)
               + var path := edges[i].resolvedPath; if path.Some? && path.value !in visited then [path.value] else []
  {
    assert edges[..i + 1][..i] == edges[..i];
  }

  /** Nodes that can still be visited. */
  ghost function Remaining(visited: seq<string>, roots: seq<string>, graph: Graph): nat {
    |graph.Keys + Members(roots) - Members(visited)|
  }

  lemma Shrinks(visited: seq<string>, queue: seq<string>, roots: seq<string>, graph: Graph, extract: Extract)
    requires queue != [] && queue[0] !in visited && Walking(visited, queue, roots, graph, extract)
    ensures Remaining(visited + [queue[0]], roots, graph) < Remaining(visited, roots, graph)
  {
    hide Reachable, Imports;
    var all := graph.Keys + Members(roots);
    assert queue[0] in all;
    assert all - Members(visited + [queue[0]]) == (all - Members(visited)) - {queue[0]};
  }

  lemma EdgesOfNext(visited: seq<string>, current: string, graph: Graph, extract: Extract)
    ensures EdgesOf(visited + [current], graph, extract)
            == EdgesOf(visited, graph, extract) + EdgesAt(current, graph, extract)
  {
    assert (visited + [current])[..|visited|] == visited;
  }

  lemma NoEdges(path: string, graph: Graph, extract: Extract, visited: seq<string>)
    requires path !in graph
    ensures EdgesAt(path, graph, extract) == [] && Pushed([], visited) == []
  {
  }

  lemma FileEdges(path: string, graph: Graph, extract: Extract)
    requires path in graph
    ensures EdgesAt(path, graph, extract) == ImportEdgesOf(ModuleFile(path, graph[path]), graph, extract)
  {
  }
}
