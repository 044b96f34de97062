/** The development script that reports circular imports among the front-end
    sources: resolving an import specifier against a set of existing files,
    building the import graph, and the depth-first search that records every
    cycle it closes. The directory walk and the regular-expression scan of
    import statements are inputs here: the list of scanned files and, for each
    file, the specifiers its import statements name, in scan order. */
module FindCycles {
  import opened Wrappers
  import opened Strings
  import opened Seqs

  /** The extensions of source files, in the order candidates are tried. */
  const Exts: seq<string> := [".js", ".jsx", ".ts", ".tsx"]

  // ---------------------------------------------------------------------
  // Paths. Every path is absolute: the scanned root is absolute and the
  // walk only joins names onto it.
  // ---------------------------------------------------------------------

  /** A segment that survives normalisation. */
  predicate Proper(seg: string) {
    seg != "" && seg != "." && seg != ".."
  }

  /** Normalisation of a segment list from the root: empty segments and `.`
      are dropped, `..` removes the segment before it (and stays at the root
      when there is none). */
  function Normalize(segs: seq<string>): (r: seq<string>)
    ensures forall i :: 0 <= i < |r| ==> Proper(r[i])
    decreases |segs|
  {
    if segs == [] then []
    else
      var prev := Normalize(segs[..|segs| - 1]);
      var s := segs[|segs| - 1];
      if s == "" || s == "." then prev
      else if s == ".." then (if prev == [] then [] else prev[..|prev| - 1])
      else prev + [s]
  }

  /** A list of proper segments is already normal. */
  lemma {:induction false} NormalizeProper(segs: seq<string>)
    requires forall i :: 0 <= i < |segs| ==> Proper(segs[i])
    ensures Normalize(segs) == segs
    decreases |segs|
  {
    if segs != [] {
      NormalizeProper(segs[..|segs| - 1]);
    }
  }

  /** Normalising twice is normalising once. */
  lemma NormalizeIdempotent(segs: seq<string>)
    ensures Normalize(Normalize(segs)) == Normalize(segs)
  {
    NormalizeProper(Normalize(segs));
  }

  /** The absolute path naming a list of segments. */
  function Render(segs: seq<string>): string {
    "/" + Join(segs, "/")
  }

  /** The segments of a path. */
  function Segments(p: string): seq<string> {
    Normalize(SplitSlash(p))
  }

  /** `path.dirname` of a scanned file. */
  function DirName(p: string): string {
    var segs := Segments(p);
    if segs == [] then "/" else Render(segs[..|segs| - 1])
  }

  /** `path.resolve(base, imp)` for an absolute `base`: a specifier starting
      with `/` stands on its own, any other is read from `base`. */
  function ResolvePath(base: string, imp: string): seq<string> {
    if StartsWith(imp, "/") then Normalize(SplitSlash(imp))
    else Normalize(SplitSlash(base) + SplitSlash(imp))
  }

  /** The last position of `c` in `s`, if any. */
  function LastIndexOf(s: string, c: char): (r: Option<nat>)
    ensures r.Some? ==> r.value < |s| && s[r.value] == c && c !in s[r.value + 1..]
    ensures r.None? ==> c !in s
  {
    if s == [] then None
    else if s[|s| - 1] == c then Some(|s| - 1)
    else LastIndexOf(s[..|s| - 1], c)
  }

  /** `path.extname` of a path without a trailing `/`: the last segment from
      its last `.`, unless that `.` is the segment's first character or the
      segment is `..`. */
  function ExtName(p: string): (r: string)
    ensures r == [] || r[0] == '.'
  {
    var base := match LastIndexOf(p, '/') case Some(i) => p[i + 1..] case None => p;
    match LastIndexOf(base, '.')
    case None => ""
    case Some(i) => if i == 0 || base == ".." then "" else base[i..]
  }

  /** `candidate + e` for each extension `e`, in order. */
  function WithExts(candidate: string, exts: seq<string>): (r: seq<string>)
    ensures |r| == |exts|
    ensures forall k :: 0 <= k < |exts| ==> r[k] == candidate + exts[k]
    decreases |exts|
  {
    if exts == [] then []
    else WithExts(candidate, exts[..|exts| - 1]) + [candidate + exts[|exts| - 1]]
  }

  /** `path.join(candidate, "index" + e)` for each extension `e`, in order. */
  function IndexFiles(segs: seq<string>, exts: seq<string>): (r: seq<string>)
    ensures |r| == |exts|
    ensures forall k :: 0 <= k < |exts| ==> r[k] == Render(segs + ["index" + exts[k]])
    decreases |exts|
  {
    if exts == [] then []
    else IndexFiles(segs, exts[..|exts| - 1]) + [Render(segs + ["index" + exts[|exts| - 1]])]
  }

  /** The files tried for a resolved path, in order: the path itself when it
      already carries a source extension, then the path with each extension,
      then `index` with each extension inside it. */
  function Tries(segs: seq<string>): (r: seq<string>)
    // the path itself is tried first exactly when it has a source extension
    ensures |r| == 9 <==> ExtName(Render(segs)) in Exts
    ensures |r| == 8 <==> ExtName(Render(segs)) !in Exts
    ensures |r| == 9 ==> r[0] == Render(segs)
    // then the path with each extension, then `index` with each extension
    ensures forall k :: 0 <= k < |Exts| ==>
      r[|r| - 8 + k] == Render(segs) + Exts[k] && r[|r| - 4 + k] == Render(segs + ["index" + Exts[k]])
  {
    var candidate := Render(segs);
    (if ExtName(candidate) in Exts then [candidate] else [])
      + WithExts(candidate, Exts) + IndexFiles(segs, Exts)
  }

  /** The first of `tries` that exists on disk. */
  function FirstExisting(tries: seq<string>, onDisk: set<string>): (r: Option<string>)
    ensures r.Some? ==> r.value in onDisk && r.value in tries
    ensures r.None? ==> forall i :: 0 <= i < |tries| ==> tries[i] !in onDisk
  {
    if tries == [] then None
    else if tries[0] in onDisk then Some(tries[0])
    else FirstExisting(tries[1..], onDisk)
  }

  /** Whether a specifier names a project file rather than a package. */
  predicate IsRelative(imp: string) {
    StartsWith(imp, ".") || StartsWith(imp, "/")
  }

  /** What `resolveImport(fromFile, imp)` answers. */
  function Resolution(fromFile: string, imp: string, onDisk: set<string>): Option<string> {
    if !IsRelative(imp) then None
    else FirstExisting(Tries(ResolvePath(DirName(fromFile), imp)), onDisk)
  }

  /** The resolution of a project specifier is the first try that exists,
      and a package specifier resolves to nothing. */
  lemma {:induction false} ResolutionFacts(fromFile: string, imp: string, onDisk: set<string>)
    ensures !IsRelative(imp) ==> Resolution(fromFile, imp, onDisk).None?
    ensures Resolution(fromFile, imp, onDisk).Some? ==>
      var tries := Tries(ResolvePath(DirName(fromFile), imp));
      exists k :: 0 <= k < |tries| && tries[k] == Resolution(fromFile, imp, onDisk).value
        && tries[k] in onDisk && forall i :: 0 <= i < k ==> tries[i] !in onDisk
  {
    if IsRelative(imp) && Resolution(fromFile, imp, onDisk).Some? {
      var tries := Tries(ResolvePath(DirName(fromFile), imp));
      var k := FirstExistingIndex(tries, onDisk);
    }
  }

  lemma {:induction false} FirstExistingIndex(tries: seq<string>, onDisk: set<string>) returns (k: nat)
    requires FirstExisting(tries, onDisk).Some?
    ensures k < |tries| && tries[k] == FirstExisting(tries, onDisk).value
    ensures forall i :: 0 <= i < k ==> tries[i] !in onDisk
  {
    if tries[0] in onDisk {
      k := 0;
    } else {
      var j := FirstExistingIndex(tries[1..], onDisk);
      k := j + 1;
    }
  }

  /** `resolveImport`: tries the candidates in order and answers the first one
      that exists on disk. */
  method ResolveImport(fromFile: string, imp: string, onDisk: set<string>) returns (r: Option<string>)
    ensures r == ResolverFor(fromFile, onDisk)(imp)
  {
    assert ResolverFor(fromFile, onDisk)(imp) == Resolution(fromFile, imp, onDisk);
    if !IsRelative(imp) {
      return None;
    }
    var tries := CollectTries(ResolvePath(DirName(fromFile), imp));
    r := FirstTry(tries, onDisk);
  }

  /** `for (const t of tries) if (fs.existsSync(t)) return t; return null`. */
  method FirstTry(tries: seq<string>, onDisk: set<string>) returns (r: Option<string>)
    ensures r == FirstExisting(tries, onDisk)
  {
    for i := 0 to |tries|
      invariant FirstExisting(tries, onDisk) == FirstExisting(tries[i..], onDisk)
    {
      if tries[i] in onDisk {
        return Some(tries[i]);
      }
      assert tries[i..][1..] == tries[i + 1..];
    }
    return None;
  }

  /** The `tries` list, filled as the script fills it. */
  method CollectTries(segs: seq<string>) returns (tries: seq<string>)
    ensures tries == Tries(segs)
  {
    var candidate := Render(segs);
    var first: seq<string> := [];
    if ExtName(candidate) in Exts {
      first := [candidate];
    }
    var withExts := PushWithExts(candidate);
    var indexFiles := PushIndexFiles(segs);
    tries := first + withExts + indexFiles;
  }

  /** `for (const e of exts) tries.push(candidate + e)`. */
  method PushWithExts(candidate: string) returns (pushed: seq<string>)
    ensures pushed == WithExts(candidate, Exts)
  {
    pushed := [];
    for i := 0 to |Exts|
      invariant pushed == WithExts(candidate, Exts[..i])
    {
      assert Exts[..i + 1][..i] == Exts[..i];
      pushed := pushed + [candidate + Exts[i]];
    }
    assert Exts[..|Exts|] == Exts;
  }

  /** `for (const e of exts) tries.push(path.join(candidate, "index" + e))`. */
  method PushIndexFiles(segs: seq<string>) returns (pushed: seq<string>)
    ensures pushed == IndexFiles(segs, Exts)
  {
    pushed := [];
    for i := 0 to |Exts|
      invariant pushed == IndexFiles(segs, Exts[..i])
    {
      assert Exts[..i + 1][..i] == Exts[..i];
      pushed := pushed + [Render(segs + ["index" + Exts[i]])];
    }
    assert Exts[..|Exts|] == Exts;
  }

  // ---------------------------------------------------------------------
  // The import graph: every scanned file maps to the scanned files it
  // imports, as an insertion-ordered set.
  // ---------------------------------------------------------------------

  /** `resolveImport` from the file `f`. */
  function ResolverFor(f: string, onDisk: set<string>): string -> Option<string> {
    imp => Resolution(f, imp, onDisk)
  }

  /** The scanned files that the specifiers resolve to, in order and with
      repeats. */
  function Targets(specs: seq<string>, resolve: string -> Option<string>, keys: set<string>): (r: seq<string>)
    ensures forall i :: 0 <= i < |r| ==> r[i] in keys
    decreases |specs|
  {
    if specs == [] then []
    else
      var prev := Targets(specs[..|specs| - 1], resolve, keys);
      match resolve(specs[|specs| - 1])
      case Some(t) => if t in keys then prev + [t] else prev
      case None => prev
  }

  /** A file is a target exactly when one of the specifiers resolves to it
      and it was scanned. */
  lemma {:induction false} TargetsMember(specs: seq<string>, resolve: string -> Option<string>, keys: set<string>, t: string)
    ensures t in Targets(specs, resolve, keys) <==>
      t in keys && exists j :: 0 <= j < |specs| && resolve(specs[j]) == Some(t)
    decreases |specs|
  {
    if specs != [] {
      var init := specs[..|specs| - 1];
      TargetsMember(init, resolve, keys, t);
      if t in keys && (exists j :: 0 <= j < |specs| && resolve(specs[j]) == Some(t)) {
        var j :| 0 <= j < |specs| && resolve(specs[j]) == Some(t);
        if j < |init| {
          assert init[j] == specs[j];
        }
      }
      if exists j :: 0 <= j < |init| && resolve(init[j]) == Some(t) {
        var j :| 0 <= j < |init| && resolve(init[j]) == Some(t);
        assert specs[j] == init[j];
      }
    }
  }

  /** One iteration of the scan of a file's specifiers. */
  lemma ScanStep(imports: map<string, seq<string>>, f: string, specs: seq<string>, j: nat,
                 resolve: string -> Option<string>, updated: map<string, seq<string>>, resolved: Option<string>)
    requires f in imports && j < |specs| && resolved == resolve(specs[j])
    requires updated == imports[f := AddAll(imports[f], Targets(specs[..j], resolve, imports.Keys))]
    ensures (if resolved.Some? && resolved.value in updated then updated[f := AddNew(updated[f], resolved.value)] else updated)
      == imports[f := AddAll(imports[f], Targets(specs[..j + 1], resolve, imports.Keys))]
  {
    var before := Targets(specs[..j], resolve, imports.Keys);
    TargetsSnoc(specs, j, resolve, imports.Keys, resolved);
    assert updated.Keys == imports.Keys;
    if resolved.Some? && resolved.value in updated {
      AddAllSnoc(imports[f], before, resolved.value);
      assert Targets(specs[..j + 1], resolve, imports.Keys) == before + [resolved.value];
    } else {
      assert Targets(specs[..j + 1], resolve, imports.Keys) == before;
    }
  }

  /** One more specifier adds its target, if it has one. */
  lemma TargetsSnoc(specs: seq<string>, j: nat, resolve: string -> Option<string>, keys: set<string>, resolved: Option<string>)
    requires j < |specs| && resolved == resolve(specs[j])
    ensures Targets(specs[..j + 1], resolve, keys)
      == Targets(specs[..j], resolve, keys) + (if resolved.Some? && resolved.value in keys then [resolved.value] else [])
  {
    assert specs[..j + 1][..j] == specs[..j];
  }

  /** The files of `files` as a set. */
  function FileSet(files: seq<string>): set<string> {
    set i | 0 <= i < |files| :: files[i]
  }

  /** The graph after the first `n` files have been scanned (every file
      starts with no imports). */
  function GraphAfter(files: seq<string>, n: nat, specifiers: string -> seq<string>, onDisk: set<string>): (g: map<string, seq<string>>)
    requires n <= |files|
    ensures g.Keys == FileSet(files)
    decreases n
  {
    if n == 0 then map i | 0 <= i < |files| :: files[i] := []
    else
      var g := GraphAfter(files, n - 1, specifiers, onDisk);
      var f := files[n - 1];
      g[f := AddAll(g[f], Targets(specifiers(f), ResolverFor(f, onDisk), FileSet(files)))]
  }

  /** The import graph built from all scanned files. */
  function Graph(files: seq<string>, specifiers: string -> seq<string>, onDisk: set<string>): map<string, seq<string>> {
    GraphAfter(files, |files|, specifiers, onDisk)
  }

  /** Edges only lead to scanned files. */
  predicate Closed(g: map<string, seq<string>>) {
    forall f :: f in g ==> forall i :: 0 <= i < |g[f]| ==> g[f][i] in g
  }

  /** At every stage, a file's imports are duplicate-free scanned files. */
  lemma {:induction false} GraphAfterShape(files: seq<string>, n: nat, specifiers: string -> seq<string>, onDisk: set<string>)
    requires n <= |files|
    ensures Closed(GraphAfter(files, n, specifiers, onDisk))
    ensures forall f :: f in GraphAfter(files, n, specifiers, onDisk) ==> NoDup(GraphAfter(files, n, specifiers, onDisk)[f])
    decreases n
  {
    if n > 0 {
      var p := GraphAfter(files, n - 1, specifiers, onDisk);
      GraphAfterShape(files, n - 1, specifiers, onDisk);
      var f := files[n - 1];
      var ts := Targets(specifiers(f), ResolverFor(f, onDisk), FileSet(files));
      assert GraphAfter(files, n, specifiers, onDisk) == p[f := AddAll(p[f], ts)];
      AddStepFacts(p, f, ts);
    }
  }

  /** The targets of every file's specifiers. */
  function TargetsOf(files: seq<string>, specifiers: string -> seq<string>, onDisk: set<string>): string -> seq<string> {
    h => Targets(specifiers(h), ResolverFor(h, onDisk), FileSet(files))
  }

  /** Once a file has been scanned, its imports are the targets of its
      specifiers; before that it has none. */
  lemma {:induction false} GraphAfterEdges(files: seq<string>, n: nat, specifiers: string -> seq<string>, onDisk: set<string>)
    requires n <= |files|
    ensures forall f, t :: f in GraphAfter(files, n, specifiers, onDisk) ==>
      (t in GraphAfter(files, n, specifiers, onDisk)[f] <==>
       f in files[..n] && t in TargetsOf(files, specifiers, onDisk)(f))
    decreases n
  {
    if n > 0 {
      GraphAfterEdges(files, n - 1, specifiers, onDisk);
      var f := files[n - 1];
      assert files[..n] == files[..n - 1] + [f];
      EdgeStep(GraphAfter(files, n - 1, specifiers, onDisk), f, files[..n - 1], TargetsOf(files, specifiers, onDisk));
    }
  }

  /** Adding the targets of `f` to a graph whose edges are the targets of
      the files scanned so far. */
  lemma EdgeStep(p: map<string, seq<string>>, f: string, scanned: seq<string>, targets: string -> seq<string>)
    requires f in p
    requires forall h, t :: h in p ==> (t in p[h] <==> h in scanned && t in targets(h))
    ensures forall h, t :: h in p ==>
      (t in p[f := AddAll(p[f], targets(f))][h] <==> h in scanned + [f] && t in targets(h))
  {
    AddAllMember(p[f], targets(f));
  }

  /** Adding the targets of one file keeps the graph closed and free of
      repeated edges. */
  lemma AddStepFacts(p: map<string, seq<string>>, f: string, ts: seq<string>)
    requires f in p && Closed(p) && forall h :: h in p ==> NoDup(p[h])
    requires forall i :: 0 <= i < |ts| ==> ts[i] in p
    ensures Closed(p[f := AddAll(p[f], ts)])
    ensures forall h :: h in p ==> NoDup(p[f := AddAll(p[f], ts)][h])
    ensures forall t :: t in AddAll(p[f], ts) <==> t in p[f] || t in ts
  {
    var g := p[f := AddAll(p[f], ts)];
    AddAllFacts(p[f], ts);
    forall i | 0 <= i < |g[f]| ensures g[f][i] in g {
      assert g[f][i] in p[f] || g[f][i] in ts;
    }
  }

  /** What the graph construction promises: one node per scanned file, edges
      only to scanned files and never twice, and an edge exactly where one
      of the file's specifiers resolves to a scanned file. */
  lemma GraphFacts(files: seq<string>, specifiers: string -> seq<string>, onDisk: set<string>)
    ensures Graph(files, specifiers, onDisk).Keys == FileSet(files)
    ensures Closed(Graph(files, specifiers, onDisk))
    ensures forall f :: f in Graph(files, specifiers, onDisk) ==> NoDup(Graph(files, specifiers, onDisk)[f])
    ensures forall f, t :: f in Graph(files, specifiers, onDisk) ==>
      (t in Graph(files, specifiers, onDisk)[f] <==>
       t in FileSet(files) && exists j :: 0 <= j < |specifiers(f)| && Resolution(f, specifiers(f)[j], onDisk) == Some(t))
  {
    GraphAfterShape(files, |files|, specifiers, onDisk);
    GraphAfterEdges(files, |files|, specifiers, onDisk);
    assert files[..|files|] == files;
    assert forall f :: TargetsOf(files, specifiers, onDisk)(f) == Targets(specifiers(f), ResolverFor(f, onDisk), FileSet(files));
    forall f, t | f in Graph(files, specifiers, onDisk)
      ensures t in Graph(files, specifiers, onDisk)[f] <==>
        t in FileSet(files) && exists j :: 0 <= j < |specifiers(f)| && Resolution(f, specifiers(f)[j], onDisk) == Some(t)
    {
      TargetsMember(specifiers(f), ResolverFor(f, onDisk), FileSet(files), t);
    }
  }

  /** The two loops of the script that fill the `imports` map: first an empty
      entry per file, then, file by file, each resolved specifier that names
      a scanned file. */
  method BuildImports(files: seq<string>, specifiers: string -> seq<string>, onDisk: set<string>)
    returns (imports: map<string, seq<string>>)
    ensures imports == Graph(files, specifiers, onDisk)
  {
    imports := map[];
    for k := 0 to |files|
      invariant imports == map i | 0 <= i < k :: files[i] := []
    {
      imports := imports[files[k] := []];
    }
    assert imports == GraphAfter(files, 0, specifiers, onDisk);
    for k := 0 to |files|
      invariant imports == GraphAfter(files, k, specifiers, onDisk)
    {
      imports := ScanFile(imports, files[k], specifiers(files[k]), onDisk);
    }
  }

  /** The two `while` loops over one file's import statements: every
      specifier that resolves to a key of `imports` is added to the file's
      entry. */
  method ScanFile(imports: map<string, seq<string>>, f: string, specs: seq<string>, onDisk: set<string>)
    returns (updated: map<string, seq<string>>)
    requires f in imports
    ensures updated == imports[f := AddAll(imports[f], Targets(specs, ResolverFor(f, onDisk), imports.Keys))]
  {
    updated := imports;
    for j := 0 to |specs|
      invariant updated == imports[f := AddAll(imports[f], Targets(specs[..j], ResolverFor(f, onDisk), imports.Keys))]
    {
      var resolved := ResolveImport(f, specs[j], onDisk);
      ScanStep(imports, f, specs, j, ResolverFor(f, onDisk), updated, resolved);
      if resolved.Some? && resolved.value in updated {
        updated := updated[f := AddNew(updated[f], resolved.value)];
      }
    }
    assert specs[..|specs|] == specs;
  }

  // ---------------------------------------------------------------------
  // The depth-first search.
  // ---------------------------------------------------------------------

  /** `imports.get(node) || []`. */
  function Neighbors(g: map<string, seq<string>>, node: string): seq<string> {
    if node in g then g[node] else []
  }

  /** Consecutive nodes are joined by edges. */
  predicate IsWalk(g: map<string, seq<string>>, w: seq<string>) {
    forall i :: 0 <= i < |w| - 1 ==> w[i + 1] in Neighbors(g, w[i])
  }

  /** A closed walk: it starts and ends at the same node. */
  predicate IsCycle(g: map<string, seq<string>>, c: seq<string>) {
    |c| >= 2 && c[0] == c[|c| - 1] && IsWalk(g, c)
  }

  /** The first position of `x` in `s`. */
  function Position(s: seq<string>, x: string): (i: nat)
    requires x in s
    ensures i < |s| && s[i] == x
  {
    if s[0] == x then 0 else 1 + Position(s[1..], x)
  }

  /** `stack.slice(stack.indexOf(node)).concat(node)`: the cycle closed by
      reaching `node` again from the top of the stack. */
  function ClosedCycle(g: map<string, seq<string>>, stack: seq<string>, node: string): (c: seq<string>)
    requires node in stack && IsWalk(g, stack)
    requires node in Neighbors(g, stack[|stack| - 1])
    ensures IsCycle(g, c) && c[0] == node
  {
    var idx := Position(stack, node);
    var c := stack[idx..] + [node];
    assert IsCycle(g, c) by {
      forall i | 0 <= i < |c| - 1 ensures c[i + 1] in Neighbors(g, c[i]) {
        if i < |c| - 2 {
          assert c[i] == stack[idx + i] && c[i + 1] == stack[idx + i + 1];
        }
      }
    }
    c
  }

  /** A proper subset of a finite set is smaller. */
  lemma {:induction false} SmallerSet(a: set<string>, b: set<string>, x: string)
    requires a <= b && x in b && x !in a
    ensures |a| < |b|
  {
    assert b == a + (b - a);
    assert x in b - a;
  }

  /** The search state of the script: `visited`, `stack` and `cycles`, over
      the import graph. */
  class CycleSearch {
    const graph: map<string, seq<string>>
    var visited: set<string>
    var stack: seq<string>
    var cycles: seq<seq<string>>
    /** The nodes in the order the search pushed them. */
    ghost var pushed: seq<string>

    ghost predicate Valid()
      reads this
    {
      Closed(graph)
      && NoDup(pushed)
      && (forall x :: x in visited <==> x in pushed)
      && (forall i :: 0 <= i < |stack| ==> stack[i] in visited)
      && IsWalk(graph, stack)
      && forall i :: 0 <= i < |cycles| ==> IsCycle(graph, cycles[i])
    }

    constructor(g: map<string, seq<string>>)
      requires Closed(g)
      ensures Valid()
      ensures graph == g && visited == {} && stack == [] && cycles == [] && pushed == []
    {
      graph := g;
      visited := {};
      stack := [];
      cycles := [];
      pushed := [];
    }

    /** `dfs(node)`: a node already on the stack closes a cycle; a visited
        node is skipped; any other is pushed, its imports are searched, and it
        is popped again. */
    method Dfs(node: string)
      requires Valid()
      requires node in graph
      requires stack == [] || node in Neighbors(graph, stack[|stack| - 1])
      modifies this
      ensures Valid()
      ensures stack == old(stack)
      ensures old(visited) + {node} <= visited
      ensures old(cycles) <= cycles
      decreases |graph.Keys - visited|, 1
    {
      if node in stack {
        var c := ClosedCycle(graph, stack, node);
        cycles := cycles + [c];
      } else if node !in visited {
        Expand(node);
      }
    }

    /** The last three lines of `dfs`: mark the node visited, push it, search
        each of its imports in order, and pop it. */
    method Expand(node: string)
      requires Valid()
      requires node in graph && node !in visited
      requires stack == [] || node in Neighbors(graph, stack[|stack| - 1])
      modifies this
      ensures Valid()
      ensures stack == old(stack)
      ensures old(visited) + {node} <= visited
      ensures old(cycles) <= cycles
      decreases |graph.Keys - visited|, 0
    {
      Push(node);
      var next := Neighbors(graph, node);
      for i := 0 to |next|
        invariant Valid()
        invariant stack == old(stack) + [node]
        invariant old(visited) + {node} <= visited
        invariant old(cycles) <= cycles
      {
        SmallerSet(graph.Keys - visited, graph.Keys - old(visited), node);
        Dfs(next[i]);
      }
      stack := stack[..|stack| - 1];
    }

    /** `visited.add(node); stack.push(node)`. */
    method Push(node: string)
      requires Valid()
      requires node in graph && node !in visited
      requires stack == [] || node in Neighbors(graph, stack[|stack| - 1])
      modifies this
      ensures Valid()
      ensures stack == old(stack) + [node]
      ensures visited == old(visited) + {node}
      ensures cycles == old(cycles)
    {
      visited := visited + {node};
      pushed := pushed + [node];
      stack := stack + [node];
    }

    /** The top-level loop `for (const f of files) dfs(f)`. */
    method Run(files: seq<string>)
      requires Valid() && stack == []
      requires forall i :: 0 <= i < |files| ==> files[i] in graph
      modifies this
      ensures Valid() && stack == []
      ensures forall i :: 0 <= i < |files| ==> files[i] in visited
    {
      for k := 0 to |files|
        invariant Valid() && stack == []
        invariant forall i :: 0 <= i < k ==> files[i] in visited
      {
        Dfs(files[k]);
      }
    }
  }

  /** The lines the script prints; `path.relative` is left out, so paths are
      printed as they are. */
  function Report(cycles: seq<seq<string>>): (lines: seq<string>)
    decreases |cycles|
  {
    if cycles == [] then ["No cycles found"]
    else if |cycles| == 1 then ["Cycles found:", "----"] + cycles[0]
    else Report(cycles[..|cycles| - 1]) + ["----"] + cycles[|cycles| - 1]
  }

  /** "No cycles found" is printed exactly when no cycle was recorded. */
  lemma ReportEmpty(cycles: seq<seq<string>>)
    ensures Report(cycles)[0] == "No cycles found" <==> cycles == []
    ensures cycles != [] ==> Report(cycles)[0] == "Cycles found:"
  {
    if cycles != [] {
      ReportHead(cycles);
    }
  }

  lemma {:induction false} ReportHead(cycles: seq<seq<string>>)
    requires cycles != []
    ensures |Report(cycles)| >= 2 && Report(cycles)[0] == "Cycles found:"
    decreases |cycles|
  {
    if |cycles| > 1 {
      ReportHead(cycles[..|cycles| - 1]);
    }
  }

  /** The whole script over a scanned file list: build the graph, search
      from every file in order, and print the report. Every recorded cycle is
      a closed walk along imports between scanned files. */
  method FindCycles(files: seq<string>, specifiers: string -> seq<string>, onDisk: set<string>)
    returns (cycles: seq<seq<string>>, lines: seq<string>)
    ensures forall i :: 0 <= i < |cycles| ==> IsCycle(Graph(files, specifiers, onDisk), cycles[i])
    ensures lines == Report(cycles)
  {
    var imports := BuildImports(files, specifiers, onDisk);
    GraphFacts(files, specifiers, onDisk);
    var search := new CycleSearch(imports);
    search.Run(files);
    cycles := search.cycles;
    lines := Report(cycles);
  }
}
