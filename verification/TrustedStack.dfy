/**
 The trusted-stack analyser: the compartment call graph of a linker report, the exhaustive
 search for the longest simple path and for cycles, and the recommended frame count.
 */
module TrustedStack {
  import opened Basics

  type Graph = map<string, set<string>>

  function Succ(g: Graph, x: string): set<string> {
    if x in g then g[x] else {}
  }

  // ---------------------------------------------------------------- walks, paths and cycles

  /** A call chain: each compartment calls the next. */
  ghost predicate Walk(g: Graph, p: seq<string>) {
    p != [] && forall i :: 0 <= i < |p| - 1 ==> p[i + 1] in Succ(g, p[i])
  }

  ghost predicate WalkFrom(g: Graph, root: string, p: seq<string>) {
    Walk(g, p) && p[0] == root
  }

  ghost predicate SimplePath(g: Graph, root: string, p: seq<string>) {
    WalkFrom(g, root, p) && Distinct(p)
  }

  function Last(p: seq<string>): string
    requires p != []
  {
    p[|p| - 1]
  }

  /** `c` is what closing the simple path `q` back onto itself gives: from the node hit again, round, to it. */
  ghost predicate Lasso(g: Graph, root: string, q: seq<string>, c: seq<string>) {
    && SimplePath(g, root, q) && |c| >= 2
    && exists i :: 0 <= i < |q| && q[i] in Succ(g, Last(q)) && c == q[i..] + [q[i]]
  }

  /** A simple closed walk. */
  ghost predicate Cycle(g: Graph, c: seq<string>) {
    Walk(g, c) && |c| >= 2 && c[0] == Last(c) && Distinct(c[..|c| - 1])
  }

  /** `q` goes on from `path` to a node of `done`. */
  predicate Via(path: seq<string>, done: set<string>, q: seq<string>) {
    path < q && q[|path|] in done
  }

  /** A cycle the search has met once it has followed the edges to `done` from the end of `path`. */
  ghost predicate Found(g: Graph, root: string, path: seq<string>, done: set<string>, c: seq<string>) {
    exists q :: Lasso(g, root, q, c) && ((q == path && Last(c) in done) || Via(path, done, q))
  }

  /** A cycle met below `path`. */
  ghost predicate FoundBelow(g: Graph, root: string, path: seq<string>, c: seq<string>) {
    exists q :: Lasso(g, root, q, c) && path <= q
  }

  /** Every node the search can meet. */
  ghost function Universe(g: Graph, root: string): set<string> {
    {root} + g.Keys + (set x, y | x in g && y in g[x] :: y)
  }

  function Elements(p: seq<string>): set<string> {
    set x | x in p
  }

  lemma PathInUniverse(g: Graph, root: string, p: seq<string>)
    requires WalkFrom(g, root, p)
    ensures Elements(p) <= Universe(g, root)
    ensures Succ(g, Last(p)) <= Universe(g, root)
  {
    forall i | 0 <= i < |p| ensures p[i] in Universe(g, root) {
      if i > 0 { assert p[(i - 1) + 1] in Succ(g, p[i - 1]); }
    }
  }

  lemma ExtendPath(g: Graph, root: string, path: seq<string>, t: string)
    requires SimplePath(g, root, path) && t in Succ(g, Last(path)) && t !in path
    ensures SimplePath(g, root, path + [t])
  {
    var q := path + [t];
    forall i | 0 <= i < |q| - 1 ensures q[i + 1] in Succ(g, q[i]) {
      if i < |path| - 1 { assert path[i + 1] in Succ(g, path[i]); }
    }
  }

  /** A path that goes on from `path` continues along an edge to a node not yet on it. */
  lemma NextOnPath(g: Graph, root: string, path: seq<string>, q: seq<string>)
    requires SimplePath(g, root, q) && path != [] && path < q
    ensures q[|path|] in Succ(g, Last(path)) && q[|path|] !in path
    ensures path + [q[|path|]] <= q
  {
    var n := |path|;
    assert q[(n - 1) + 1] in Succ(g, q[n - 1]);
  }

  lemma LassoEnd(g: Graph, root: string, q: seq<string>, c: seq<string>) returns (i: nat)
    requires Lasso(g, root, q, c)
    ensures i < |q| && Last(c) == q[i] && c == q[i..] + [q[i]] && q[i] in Succ(g, Last(q))
  {
    i :| 0 <= i < |q| && q[i] in Succ(g, Last(q)) && c == q[i..] + [q[i]];
  }

  lemma FoundMore(g: Graph, root: string, path: seq<string>, done: set<string>, t: string, c: seq<string>)
    requires Found(g, root, path, done, c)
    ensures Found(g, root, path, done + {t}, c)
  {
    var q :| Lasso(g, root, q, c) && ((q == path && Last(c) in done) || Via(path, done, q));
    assert Lasso(g, root, q, c) && ((q == path && Last(c) in done + {t}) || Via(path, done + {t}, q));
  }

  /** What following one more edge adds: a cycle closed at its target, or one met by going on to it. */
  lemma FoundLater(g: Graph, root: string, path: seq<string>, done: set<string>, t: string, c: seq<string>)
    returns (q: seq<string>)
    requires Found(g, root, path, done + {t}, c) && !Found(g, root, path, done, c)
    ensures Lasso(g, root, q, c) && ((q == path && Last(c) == t) || Via(path, {t}, q))
  {
    q :| Lasso(g, root, q, c) && ((q == path && Last(c) in done + {t}) || Via(path, done + {t}, q));
  }

  /** Following an edge back onto the path adds exactly the cycle it closes. */
  lemma CloseStep(g: Graph, root: string, path: seq<string>, done: set<string>, k: nat, c: seq<string>)
    requires SimplePath(g, root, path) && k < |path| && path[k] in Succ(g, Last(path))
    ensures Found(g, root, path, done + {path[k]}, c)
            <==> Found(g, root, path, done, c) || c == path[k..] + [path[k]]
  {
    var t := path[k];
    if Found(g, root, path, done, c) {
      FoundMore(g, root, path, done, t, c);
    } else if Found(g, root, path, done + {t}, c) {
      var q := FoundLater(g, root, path, done, t, c);
      if q == path { var i := LassoEnd(g, root, q, c); } else { NextOnPath(g, root, path, q); }
    }
    if c == path[k..] + [t] { assert Lasso(g, root, path, c); }
  }

  /** Following an edge to a new node adds exactly what is met below it. */
  lemma VisitStep(g: Graph, root: string, path: seq<string>, done: set<string>, t: string, c: seq<string>)
    requires SimplePath(g, root, path) && t in Succ(g, Last(path)) && t !in path
    ensures Found(g, root, path, done + {t}, c) <==> Found(g, root, path, done, c) || FoundBelow(g, root, path + [t], c)
  {
    if Found(g, root, path, done, c) {
      FoundMore(g, root, path, done, t, c);
    } else if Found(g, root, path, done + {t}, c) {
      var q := FoundLater(g, root, path, done, t, c);
      if q == path { var i := LassoEnd(g, root, q, c); } else { NextOnPath(g, root, path, q); }
    }
    if FoundBelow(g, root, path + [t], c) { BelowIsFound(g, root, path, done, t, c); }
  }

  lemma BelowIsFound(g: Graph, root: string, path: seq<string>, done: set<string>, t: string, c: seq<string>)
    requires FoundBelow(g, root, path + [t], c)
    ensures Found(g, root, path, done + {t}, c)
  {
    var q :| Lasso(g, root, q, c) && path + [t] <= q;
    assert q[|path|] == (path + [t])[|path|];
    assert path < q && Via(path, done + {t}, q);
  }

  /** Once every edge is followed, everything below has been met. */
  lemma AllFollowed(g: Graph, root: string, path: seq<string>, c: seq<string>)
    requires SimplePath(g, root, path)
    ensures Found(g, root, path, Succ(g, Last(path)), c) <==> FoundBelow(g, root, path, c)
  {
    if FoundBelow(g, root, path, c) {
      var q :| Lasso(g, root, q, c) && path <= q;
      if q == path {
        var i :| 0 <= i < |q| && q[i] in Succ(g, Last(q)) && c == q[i..] + [q[i]];
        assert Last(c) == q[i];
      } else {
        NextOnPath(g, root, path, q);
      }
    }
  }

  // ---------------------------------------------------------------- the search

  /** The search from one root; `best` and `cycles` are shared by all its visits. */
  class Search {
    const graph: Graph
    const root: string
    var best: seq<string>
    var cycles: set<seq<string>>

    constructor (graph: Graph, root: string)
      ensures this.graph == graph && this.root == root && best == [root] && cycles == {}
    {
      this.graph, this.root := graph, root;
      best, cycles := [root], {};
    }

    /** `best` is as before or a longer simple path through `path`. */
    ghost predicate Improved(path: seq<string>, best0: seq<string>)
      reads this
    {
      && |best0| <= |best|
      && (best == best0 || (SimplePath(graph, root, best) && path <= best))
    }

    ghost predicate Following(path: seq<string>, done: set<string>, best0: seq<string>, cycles0: set<seq<string>>)
      reads this
    {
      && Improved(path, best0) && |path| <= |best|
      && (forall q :: SimplePath(graph, root, q) && Via(path, done, q) ==> |q| <= |best|)
      && (forall c :: c in cycles <==> c in cycles0 || Found(graph, root, path, done, c))
    }

    ghost predicate Searched(path: seq<string>, best0: seq<string>, cycles0: set<seq<string>>)
      reads this
    {
      && Improved(path, best0)
      && (forall q :: SimplePath(graph, root, q) && path <= q ==> |q| <= |best|)
      && (forall c :: c in cycles <==> c in cycles0 || FoundBelow(graph, root, path, c))
    }

    /** A step back onto the path closes a cycle. */
    method Close(path: seq<string>, t: string, ghost done: set<string>,
                 ghost best0: seq<string>, ghost cycles0: set<seq<string>>)
      requires SimplePath(graph, root, path) && t in Succ(graph, Last(path)) && t in path
      requires Following(path, done, best0, cycles0)
      modifies this`cycles
      ensures Following(path, done + {t}, best0, cycles0)
    {
      var start := 0;
      while path[start] != t
        invariant start < |path| && t !in path[..start]
        decreases |path| - start
      {
        start := start + 1;
      }
      forall c { CloseStep(graph, root, path, done, start, c); }
      forall q | SimplePath(graph, root, q) && Via(path, done + {t}, q) ensures |q| <= |best| {
        NextOnPath(graph, root, path, q);
      }
      cycles := cycles + {path[start..] + [t]};
    }

    method Follow(path: seq<string>, t: string, ghost done: set<string>,
                  ghost best0: seq<string>, ghost cycles0: set<seq<string>>)
      requires SimplePath(graph, root, path) && t in Succ(graph, Last(path))
      requires Following(path, done, best0, cycles0)
      modifies this
      ensures Following(path, done + {t}, best0, cycles0)
      decreases Universe(graph, root) - Elements(path), 0
    {
      PathInUniverse(graph, root, path);
      if t in path {
        Close(path, t, done, best0, cycles0);
      } else {
        ExtendPath(graph, root, path, t);
        forall c { VisitStep(graph, root, path, done, t, c); }
        assert t in Universe(graph, root) - Elements(path);
        Visit(path + [t]);
        forall q | SimplePath(graph, root, q) && Via(path, done + {t}, q) ensures |q| <= |best| {
          NextOnPath(graph, root, path, q);
        }
      }
    }

    /** Extend `path` in every way, whatever the order in which the targets are taken. */
    method Visit(path: seq<string>)
      requires SimplePath(graph, root, path)
      modifies this
      ensures Searched(path, old(best), old(cycles))
      decreases Universe(graph, root) - Elements(path), 1
    {
      if |path| > |best| { best := path; }
      var rest := Succ(graph, Last(path));
      ghost var done: set<string> := {};
      while rest != {}
        invariant Following(path, done, old(best), old(cycles))
        invariant done + rest == Succ(graph, Last(path))
        decreases |rest|
      {
        var t :| t in rest;
        Follow(path, t, done, old(best), old(cycles));
        rest, done := rest - {t}, done + {t};
      }
      forall c { AllFollowed(graph, root, path, c); }
      forall q | SimplePath(graph, root, q) && path <= q ensures |q| <= |best| {
        if q != path { NextOnPath(graph, root, path, q); }
      }
    }
  }

  // ---------------------------------------------------------------- what the search establishes

  /** A reported cycle is a real one, reachable from the root. */
  lemma LassoIsReachableCycle(g: Graph, root: string, q: seq<string>, c: seq<string>) returns (stem: seq<string>)
    requires Lasso(g, root, q, c)
    ensures Cycle(g, c) && WalkFrom(g, root, stem) && Last(stem) == c[0]
  {
    var i := LassoEnd(g, root, q, c);
    stem := q[..i + 1];
    SubWalk(g, q, 0, i + 1);
    SubWalk(g, q, i, |q|);
    ClosingEdge(g, q[i..], q[i]);
    assert c[..|c| - 1] == q[i..];
  }

  lemma SubWalk(g: Graph, p: seq<string>, lo: nat, hi: nat)
    requires Walk(g, p) && lo < hi <= |p|
    ensures Walk(g, p[lo..hi])
  {
    var s := p[lo..hi];
    forall k | 0 <= k < |s| - 1 ensures s[k + 1] in Succ(g, s[k]) { assert p[(lo + k) + 1] in Succ(g, p[lo + k]); }
  }

  lemma ClosingEdge(g: Graph, p: seq<string>, t: string)
    requires Walk(g, p) && t in Succ(g, Last(p))
    ensures Walk(g, p + [t])
  {
    var s := p + [t];
    forall k | 0 <= k < |s| - 1 ensures s[k + 1] in Succ(g, s[k]) {
      if k < |p| - 1 { assert p[k + 1] in Succ(g, p[k]); }
    }
  }

  /** A call chain that meets a compartment twice contains a lasso. */
  lemma {:induction false} RepeatGivesLasso(g: Graph, root: string, p: seq<string>)
      returns (q: seq<string>, c: seq<string>)
    requires WalkFrom(g, root, p) && !Distinct(p)
    ensures Lasso(g, root, q, c)
    decreases |p|
  {
    var n := |p| - 1;
    var before := p[..n];
    assert n >= 1;
    SubWalk(g, p, 0, n);
    if !Distinct(before) {
      q, c := RepeatGivesLasso(g, root, before);
    } else {
      var k := RepeatOfLast(p);
      assert p[(n - 1) + 1] in Succ(g, p[n - 1]);
      q, c := before, before[k..] + [before[k]];
    }
  }

  lemma RepeatOfLast(p: seq<string>) returns (k: nat)
    requires p != [] && !Distinct(p) && Distinct(p[..|p| - 1])
    ensures k < |p| - 1 && p[k] == Last(p)
  {
    var i, j :| 0 <= i < j < |p| && p[i] == p[j];
    var before := p[..|p| - 1];
    forall x | 0 <= x < |before| ensures before[x] == p[x] {}
    k := i;
  }

  /** A closed walk reachable from the root makes a call chain that meets a compartment twice. */
  lemma CycleGivesRepeat(g: Graph, root: string, stem: seq<string>, c: seq<string>) returns (p: seq<string>)
    requires WalkFrom(g, root, stem) && Walk(g, c) && |c| >= 2 && c[0] == Last(c) && Last(stem) == c[0]
    ensures WalkFrom(g, root, p) && !Distinct(p)
  {
    p := stem + c[1..];
    JoinWalks(g, stem, c);
    assert p[|stem| - 1] == Last(stem) == Last(c) == p[|p| - 1];
  }

  /** The whole result for one root. */
  ghost predicate Analysed(g: Graph, root: string, best: seq<string>, cycles: set<seq<string>>) {
    && SimplePath(g, root, best)
    && (forall q :: SimplePath(g, root, q) ==> |q| <= |best|)
    && (forall c :: c in cycles <==> exists q :: Lasso(g, root, q, c))
  }

  method LongestSimplePath(g: Graph, root: string) returns (best: seq<string>, cycles: set<seq<string>>)
    ensures Analysed(g, root, best, cycles)
  {
    var s := new Search(g, root);
    s.Visit([root]);
    best, cycles := s.best, s.cycles;
    forall q | SimplePath(g, root, q) ensures |q| <= |best| {
      assert [root] <= q;
    }
    forall c ensures c in cycles <==> exists q :: Lasso(g, root, q, c) {
      if exists q :: Lasso(g, root, q, c) {
        var q :| Lasso(g, root, q, c);
        assert [root] <= q;
      }
    }
  }

  /** A cycle is reported exactly when one is reachable. */
  lemma ReportsIffReachable(g: Graph, root: string, best: seq<string>, cycles: set<seq<string>>)
    requires Analysed(g, root, best, cycles)
    ensures cycles != {} <==> exists stem, c :: WalkFrom(g, root, stem) && Cycle(g, c) && Last(stem) == c[0]
    ensures forall c :: c in cycles ==> Cycle(g, c)
  {
    forall c | c in cycles
      ensures Cycle(g, c) && exists stem :: WalkFrom(g, root, stem) && Last(stem) == c[0]
    {
      var q :| Lasso(g, root, q, c);
      var stem := LassoIsReachableCycle(g, root, q, c);
    }
    if stem, c :| WalkFrom(g, root, stem) && Cycle(g, c) && Last(stem) == c[0] {
      var p := CycleGivesRepeat(g, root, stem, c);
      var q, c' := RepeatGivesLasso(g, root, p);
      assert c' in cycles;
    }
  }

  /** With no cycle reported, no call chain of any shape is longer than the path returned. */
  lemma ChainsAreBounded(g: Graph, root: string, best: seq<string>, cycles: set<seq<string>>, p: seq<string>)
    requires Analysed(g, root, best, cycles) && cycles == {} && WalkFrom(g, root, p)
    ensures |p| <= |best|
  {
    if !Distinct(p) {
      var q, c := RepeatGivesLasso(g, root, p);
      LassoIsReported(g, root, best, cycles, q, c);
    }
  }

  lemma LassoIsReported(g: Graph, root: string, best: seq<string>, cycles: set<seq<string>>,
                        q: seq<string>, c: seq<string>)
    requires Analysed(g, root, best, cycles) && Lasso(g, root, q, c)
    ensures c in cycles
  {}

  // ---------------------------------------------------------------- from the report to the recommendation

  /** An import of a compartment; the report may leave the target out. */
  datatype Import = Import(kind: string, target: seq<string>)

  type Compartments = map<string, seq<Import>>

  /** A compartment imports an entry point exported by a known compartment. */
  predicate Calls(cs: Compartments, source: string, target: string) {
    source in cs && target in cs && Import("CompartmentExport", [target]) in cs[source]
  }

  /** The targets of the call imports among the first entries of a list. */
  method Targets(cs: Compartments, imports: seq<Import>) returns (targets: set<string>)
    ensures forall t :: t in targets <==> t in cs && Import("CompartmentExport", [t]) in imports
  {
    targets := {};
    for i := 0 to |imports|
      invariant forall t :: t in targets <==> t in cs && Import("CompartmentExport", [t]) in imports[..i]
    {
      var item := imports[i];
      assert imports[..i + 1] == imports[..i] + [item];
      if item.kind == "CompartmentExport" && |item.target| == 1 && item.target[0] in cs {
        assert item == Import("CompartmentExport", [item.target[0]]);
        targets := targets + {item.target[0]};
      }
    }
    assert imports[..|imports|] == imports;
  }

  method BuildGraph(cs: Compartments) returns (g: Graph)
    ensures g.Keys == cs.Keys
    ensures forall s, t :: t in Succ(g, s) <==> Calls(cs, s, t)
  {
    g := map[];
    var rest := cs.Keys;
    while rest != {}
      invariant g.Keys + rest == cs.Keys && g.Keys !! rest
      invariant forall s, t :: s in g ==> (t in g[s] <==> Calls(cs, s, t))
      decreases |rest|
    {
      var source :| source in rest;
      var targets := Targets(cs, cs[source]);
      g, rest := g[source := targets], rest - {source};
    }
  }

  /** Refused for a negative reserve or a report without threads; otherwise depth, cycles and frames. */
  datatype Analysis = Refused | Analysis(depth: nat, cycles: set<seq<string>>, frames: int)

  /** A chain of calls starting in the entry compartment of some thread. */
  ghost predicate ThreadChain(g: Graph, roots: seq<string>, p: seq<string>) {
    Walk(g, p) && p[0] in roots
  }

  ghost predicate Surveyed(g: Graph, roots: seq<string>, depth: nat, cycles: set<seq<string>>) {
    && (forall root, q, c :: root in roots && Lasso(g, root, q, c) ==> c in cycles)
    && (forall c :: c in cycles ==> Cycle(g, c) && exists root :: root in roots && exists q :: Lasso(g, root, q, c))
    && (forall p :: ThreadChain(g, roots, p) && Distinct(p) ==> |p| - 1 <= depth)
    && (depth > 0 ==> exists p :: ThreadChain(g, roots, p) && Distinct(p) && |p| - 1 == depth)
  }

  lemma SurveyRoot(g: Graph, roots: seq<string>, depth: nat, cycles: set<seq<string>>,
                   root: string, best: seq<string>, more: set<seq<string>>)
    requires Surveyed(g, roots, depth, cycles) && Analysed(g, root, best, more)
    ensures Surveyed(g, roots + [root], if depth < |best| - 1 then |best| - 1 else depth, cycles + more)
  {
    var roots' := roots + [root];
    ReportsIffReachable(g, root, best, more);
    forall r, q, c | r in roots' && Lasso(g, r, q, c) ensures c in cycles + more {
      if r == root { LassoIsReported(g, root, best, more, q, c); }
    }
    forall c | c in cycles + more
      ensures Cycle(g, c) && exists r :: r in roots' && exists q :: Lasso(g, r, q, c)
    {
      if c in more {
        assert root in roots';
      } else {
        var r :| r in roots && exists q :: Lasso(g, r, q, c);
        assert r in roots';
      }
    }
    forall p | ThreadChain(g, roots', p) && Distinct(p)
      ensures |p| - 1 <= if depth < |best| - 1 then |best| - 1 else depth
    {
      if p[0] == root { assert SimplePath(g, root, p); } else { assert ThreadChain(g, roots, p); }
    }
    if depth < |best| - 1 {
      assert ThreadChain(g, roots', best);
    } else if depth > 0 {
      var p :| ThreadChain(g, roots, p) && Distinct(p) && |p| - 1 == depth;
      assert ThreadChain(g, roots', p);
    }
  }

  method Analyse(g: Graph, roots: seq<string>, reserve: int) returns (a: Analysis)
    ensures a == Refused <==> reserve < 0 || roots == []
    ensures a != Refused ==> Surveyed(g, roots, a.depth, a.cycles)
    ensures a != Refused ==> a.frames == if a.depth + reserve < 1 then 1 else a.depth + reserve
  {
    if reserve < 0 || roots == [] { return Refused; }
    var depth: nat, cycles: set<seq<string>> := 0, {};
    for i := 0 to |roots|
      invariant Surveyed(g, roots[..i], depth, cycles)
    {
      var best, more := LongestSimplePath(g, roots[i]);
      SurveyRoot(g, roots[..i], depth, cycles, roots[i], best, more);
      assert roots[..i + 1] == roots[..i] + [roots[i]];
      if depth < |best| - 1 { depth := |best| - 1; }
      cycles := cycles + more;
    }
    assert roots[..|roots|] == roots;
    a := Analysis(depth, cycles, if depth + reserve < 1 then 1 else depth + reserve);
  }

  /**
   When no cycle is reported, every chain of calls of any shape from any thread needs at most
   `depth` frames, so the recommendation covers it and the reserve; and `depth` is attained.
   When a cycle is reported there are chains of every length, so no recommendation would do.
   */
  lemma RecommendationIsSound(g: Graph, roots: seq<string>, depth: nat, cycles: set<seq<string>>)
    requires Surveyed(g, roots, depth, cycles)
    ensures cycles == {} <==> forall p :: ThreadChain(g, roots, p) ==> |p| - 1 <= depth
  {
    if cycles == {} {
      forall p | ThreadChain(g, roots, p) ensures |p| - 1 <= depth {
        var root := p[0];
        if !Distinct(p) {
          var q, c := RepeatGivesLasso(g, root, p);
          LassoIsSurveyed(g, roots, depth, cycles, root, q, c);
        }
      }
    } else {
      var c :| c in cycles;
      var root :| root in roots && exists q :: Lasso(g, root, q, c);
      var q :| Lasso(g, root, q, c);
      var stem := LassoIsReachableCycle(g, root, q, c);
      var p := RoundAndRound(g, root, stem, c, depth + 1);
      assert ThreadChain(g, roots, p) && |p| - 1 > depth;
    }
  }

  lemma LassoIsSurveyed(g: Graph, roots: seq<string>, depth: nat, cycles: set<seq<string>>,
                        root: string, q: seq<string>, c: seq<string>)
    requires Surveyed(g, roots, depth, cycles) && root in roots && Lasso(g, root, q, c)
    ensures c in cycles
  {}

  /** Going round a reachable cycle gives call chains as long as one likes. */
  lemma {:induction false} RoundAndRound(g: Graph, root: string, stem: seq<string>, c: seq<string>, n: nat)
    returns (p: seq<string>)
    requires WalkFrom(g, root, stem) && Cycle(g, c) && Last(stem) == c[0]
    ensures WalkFrom(g, root, p) && |p| > n && Last(p) == c[0]
    decreases n
  {
    if n == 0 {
      p := stem;
    } else {
      var before := RoundAndRound(g, root, stem, c, n - 1);
      p := before + c[1..];
      JoinWalks(g, before, c);
    }
  }

  lemma JoinWalks(g: Graph, a: seq<string>, b: seq<string>)
    requires Walk(g, a) && Walk(g, b) && Last(a) == b[0] && |b| >= 2
    ensures Walk(g, a + b[1..]) && Last(a + b[1..]) == Last(b)
  {
    var p := a + b[1..];
    forall i | 0 <= i < |p| - 1 ensures p[i + 1] in Succ(g, p[i]) {
      if i < |a| - 1 {
        assert a[i + 1] in Succ(g, a[i]);
      } else {
        var k := i - (|a| - 1);
        assert b[k + 1] in Succ(g, b[k]);
        assert p[i] == b[k] && p[i + 1] == b[k + 1];
      }
    }
  }
}
