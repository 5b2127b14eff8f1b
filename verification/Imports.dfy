/** The package resolver (resolvePackages, cmd/aril/resolve.go): a depth-first walk over the
    import graph. Directories are absolute paths; what the file system and the manifests say
    is an arbitrary finite table. */
module Imports {
  import opened Wrappers
  import opened Strings

  type Dir = string
  type File = string

  /** The manifest that governs a package's imports. For a binding package, `binds` is the Go
      module it wraps, `boundDir` where that module lies, and `boundModule` the name its own go.mod
      gives it. */
  datatype Mod = Mod(
    dir: Dir, packageKind: string, binds: string, bindsGo: string, boundPresent: bool, boundDir: Dir, boundModule: string)

  /** A kind="go" dependency: its binding table (none when `path` is empty), and the module, which
      lies at `moduleDir`. */
  datatype GoDep = GoDep(
    name: string, table: Option<Dir>, present: bool, moduleDir: Dir, goMod: string, source: string, version: string)
  datatype ExternalDep = ExternalDep(name: string, kind: string, target: Dir, manifest: Option<Mod>)

  /** classifyImport, with the dependency it finds. */
  datatype Import = Builtin | User(target: Dir) | Go(go: GoDep) | External(ext: ExternalDep) | Unknown

  datatype Tree = Tree(
    sources: map<Dir, seq<File>>,                 // gatherSources, for directories that have sources
    imports: map<File, seq<string>>,              // fileImports, for files that parse
    classify: (string, Option<Mod>) -> Import)

  datatype Error =
    | Cycle(trail: seq<Dir>)                      // E0116
    | UnknownImport(path: string)                 // E0117
    | NotPresent(dep: string)                     // E0121
    | KindClash(dep: string)
    | BoundTwice(modulePath: string)              // E0124

  function ImportsOf(t: Tree, f: File): seq<string> { if f in t.imports then t.imports[f] else [] }

  /** The module a dependency binds: the name in go.mod, else the declared source. */
  function GoModule(go: GoDep): string { if go.goMod == "" then go.source else go.goMod }
  function BoundModule(m: Mod): string { if m.boundModule == "" then m.binds else m.boundModule }

  /** The binding identity of a binding package is its own manifest. */
  function Ident(m: Mod): Dir { m.dir + "/aril.toml" }

  /** depKindGuard and effectiveDepKind. */
  predicate KindAgrees(consumer: string, package: string) { consumer == "" || package == "" || consumer == package }
  function EffectiveKind(consumer: string, package: string): string {
    if consumer != "" then consumer else if package != "" then package else "aril"
  }

  /** What an import binds: a Go module, and the table that declares it. */
  function Binding(t: Tree, p: string, mod: Option<Mod>): Option<(string, Dir)> {
    match t.classify(p, mod)
    case Go(go) => if go.table.Some? then Some((GoModule(go), go.table.value)) else None
    case External(ext) =>
      if ext.manifest.Some? && EffectiveKind(ext.kind, ext.manifest.value.packageKind) == "binding" && ext.manifest.value.binds != ""
      then Some((BoundModule(ext.manifest.value), Ident(ext.manifest.value))) else None
    case _ => None
  }

  /** The import is stripped from the emitted block: it names a package of the build. */
  predicate Counts(t: Tree, p: string, mod: Option<Mod>) {
    var i := t.classify(p, mod);
    i.User? || i.Go? || i.External?
  }

  /** The files of the binding table of a kind="go" dependency. */
  function TableFiles(t: Tree, p: string, mod: Option<Mod>): seq<File> {
    match t.classify(p, mod)
    case Go(go) => if go.table.Some? && go.table.value in t.sources then t.sources[go.table.value] else []
    case _ => []
  }

  // ---------------------------------------------------------------- the graph

  /** How each package was reached: under which manifest, with which files. */
  datatype Node = Node(mod: Option<Mod>, files: seq<File>)
  type Graph = map<Dir, Node>

  /** The package an import of `dir` leads to; a package of a project importing itself does not count. */
  function TargetOf(t: Tree, p: string, mod: Option<Mod>, dir: Dir): Option<Dir> {
    match t.classify(p, mod)
    case User(target) => if target == dir then None else Some(target)
    case External(ext) => Some(ext.target)
    case _ => None
  }

  /** The directory an import names: a package of the project, unless it is the importer, or one of a
      dependency. */
  predicate LeadsTo(i: Import, dir: Dir, b: Dir) {
    (i.User? && i.target == b && b != dir) || (i.External? && i.ext.target == b)
  }

  lemma TargetLeads(t: Tree, p: string, mod: Option<Mod>, dir: Dir, b: Dir)
    ensures TargetOf(t, p, mod, dir) == Some(b) <==> LeadsTo(t.classify(p, mod), dir, b)
  {
  }

  function TargetsOfImports(t: Tree, imps: seq<string>, mod: Option<Mod>, dir: Dir): set<Dir> {
    if imps == [] then {} else
    (match TargetOf(t, imps[0], mod, dir) case Some(b) => {b} case None => {}) + TargetsOfImports(t, imps[1..], mod, dir)
  }

  function TargetsOfFiles(t: Tree, files: seq<File>, mod: Option<Mod>, dir: Dir): set<Dir> {
    if files == [] then {} else
    TargetsOfImports(t, ImportsOf(t, files[0]), mod, dir) + TargetsOfFiles(t, files[1..], mod, dir)
  }

  predicate Edge(t: Tree, g: Graph, a: Dir, b: Dir) { a in g && b in TargetsOfFiles(t, g[a].files, g[a].mod, a) }

  lemma {:induction false} ImportTargets(t: Tree, imps: seq<string>, mod: Option<Mod>, dir: Dir, b: Dir)
    ensures b in TargetsOfImports(t, imps, mod, dir) <==> exists p :: p in imps && TargetOf(t, p, mod, dir) == Some(b)
    decreases |imps|
  {
    if imps != [] {
      ImportTargets(t, imps[1..], mod, dir, b);
      assert imps == [imps[0]] + imps[1..];
    }
  }

  /** An edge is an import of one of the files. */
  lemma {:induction false} FileTargets(t: Tree, files: seq<File>, mod: Option<Mod>, dir: Dir, b: Dir)
    ensures b in TargetsOfFiles(t, files, mod, dir) <==>
            exists f, p :: f in files && p in ImportsOf(t, f) && LeadsTo(t.classify(p, mod), dir, b)
    decreases |files|
  {
    hide LeadsTo, TargetOf;
    forall p ensures TargetOf(t, p, mod, dir) == Some(b) <==> LeadsTo(t.classify(p, mod), dir, b) { TargetLeads(t, p, mod, dir, b); }
    if files != [] {
      ImportTargets(t, ImportsOf(t, files[0]), mod, dir, b);
      FileTargets(t, files[1..], mod, dir, b);
      assert files == [files[0]] + files[1..];
    }
  }

  /** Each directory imports the next. */
  ghost predicate IsPath(t: Tree, g: Graph, path: seq<Dir>) {
    path != [] && forall i {:trigger Edge(t, g, path[i], path[i + 1])} :: 0 <= i < |path| - 1 ==> Edge(t, g, path[i], path[i + 1])
  }

  /** A path whose last directory already occurs on it. */
  ghost predicate IsCyclic(t: Tree, g: Graph, path: seq<Dir>) {
    IsPath(t, g, path) && path[|path| - 1] in path[..|path| - 1]
  }

  /** `paths` holds a path from the root to d. */
  ghost predicate Reached(t: Tree, g: Graph, root: Dir, paths: map<Dir, seq<Dir>>, d: Dir) {
    d in paths && IsPath(t, g, paths[d]) && paths[d][0] == root && paths[d][|paths[d]| - 1] == d
  }

  /** In the order directories are finished, imports lead backwards. */
  ghost predicate Topological(t: Tree, g: Graph, order: seq<Dir>) {
    && (forall i, j :: 0 <= i < j < |order| ==> order[i] != order[j])
    && (forall i, b :: 0 <= i < |order| && Edge(t, g, order[i], b) ==> b in order[..i])
  }

  lemma StepOf(t: Tree, g: Graph, path: seq<Dir>, i: nat)
    requires IsPath(t, g, path) && i < |path| - 1
    ensures Edge(t, g, path[i], path[i + 1])
  {
  }

  /** So a path from a finished directory only goes back, and never meets itself. */
  lemma {:induction false} PathsGoBack(t: Tree, g: Graph, order: seq<Dir>, path: seq<Dir>) returns (k: nat)
    requires Topological(t, g, order) && IsPath(t, g, path) && path[0] in order
    ensures k < |order| && order[k] == path[|path| - 1]
    ensures forall i :: 0 <= i < |path| - 1 ==> path[i] in order[k + 1..]
    ensures path[|path| - 1] !in path[..|path| - 1]
    decreases |path|
  {
    if |path| == 1 {
      k :| 0 <= k < |order| && order[k] == path[0];
    } else {
      var n := |path| - 1;
      var before := path[..n];
      forall i | 0 <= i < |before| - 1 ensures Edge(t, g, before[i], before[i + 1]) { assert Edge(t, g, path[i], path[i + 1]); }
      var j := PathsGoBack(t, g, order, before);
      StepOf(t, g, path, n - 1);
      assert Edge(t, g, order[j], path[n]);
      k :| 0 <= k < j && order[k] == path[|path| - 1];
      forall i | 0 <= i < |path| - 1 ensures path[i] in order[k + 1..] && path[i] != path[|path| - 1] {
        var from: nat := if i < |before| - 1 then j + 1 else j;
        if i < |before| - 1 { assert before[i] in order[j + 1..]; }
        var m :| from <= m < |order| && order[m] == path[i];
        assert order[k + 1..][m - k - 1] == path[i];
      }
    }
  }

  lemma EdgeGrows(t: Tree, g: Graph, g': Graph, a: Dir, b: Dir)
    requires forall d :: d in g ==> d in g' && g'[d] == g[d]
    requires a in g
    ensures Edge(t, g, a, b) <==> Edge(t, g', a, b)
  {
  }

  // ---------------------------------------------------------------- imports at fault

  /** No package goes by this name, or its directory has no sources. */
  predicate LeadsNowhere(t: Tree, d: Dir, p: string, mod: Option<Mod>) {
    match t.classify(p, mod)
    case Unknown => true
    case User(target) => target != d && target !in t.sources
    case External(ext) => ext.target !in t.sources
    case _ => false
  }

  /** The dependency, or the module it binds, has not been fetched or cannot be resolved. */
  predicate Absent(t: Tree, p: string, mod: Option<Mod>) {
    match t.classify(p, mod)
    case Go(go) => go.table.None? || go.table.value !in t.sources || !go.present || (go.goMod == "" && go.source == "")
    case External(ext) =>
      if ext.manifest.None? then true else
      var k := if ext.kind == "" then ext.manifest.value.packageKind else ext.kind;
      k !in ["", "aril", "binding"] || (k == "binding" && ext.manifest.value.binds != "" && !ext.manifest.value.boundPresent)
    case _ => false
  }

  /** The consumer declares a kind, the package declares a kind, and they differ. */
  predicate Clashing(t: Tree, p: string, mod: Option<Mod>) {
    match t.classify(p, mod)
    case External(ext) =>
      ext.manifest.Some? && ext.kind != "" && ext.manifest.value.packageKind != "" && ext.kind != ext.manifest.value.packageKind
    case _ => false
  }

  /** The import p of a file of d stops the run. */
  predicate Faulty(t: Tree, d: Dir, p: string, mod: Option<Mod>) {
    LeadsNowhere(t, d, p, mod) || Absent(t, p, mod) || Clashing(t, p, mod)
  }

  // ---------------------------------------------------------------- the walk

  /** A `require` of the emitted go.mod, and the directory its `replace` points to. */
  datatype GoRequire = GoRequire(modulePath: string, version: string, vendor: Dir)

  /** What an import declares, as the manifests write it: the table of a kind="go" dependency with the
      version and the place of its module, or the manifest of a binding package with those of the
      module it binds. The module goes by the name in its go.mod, else by the name declared. */
  predicate Declares(i: Import, table: Dir, r: GoRequire) {
    match i
    case Go(go) =>
      && go.table == Some(table) && r.version == go.version && r.vendor == go.moduleDir
      && (go.goMod != "" ==> r.modulePath == go.goMod) && (go.goMod == "" ==> r.modulePath == go.source)
    case External(ext) =>
      && ext.manifest.Some? && ext.manifest.value.binds != ""
      && (ext.kind == "binding" || (ext.kind == "" && ext.manifest.value.packageKind == "binding"))
      && table == ext.manifest.value.dir + "/aril.toml"
      && r.version == ext.manifest.value.bindsGo && r.vendor == ext.manifest.value.boundDir
      && (ext.manifest.value.boundModule != "" ==> r.modulePath == ext.manifest.value.boundModule)
      && (ext.manifest.value.boundModule == "" ==> r.modulePath == ext.manifest.value.binds)
    case _ => false
  }

  /** The requirement an import with a binding brings. */
  function RequireOf(i: Import): GoRequire
    requires (i.Go? && i.go.table.Some?) || (i.External? && i.ext.manifest.Some?)
  {
    match i
    case Go(go) => GoRequire(GoModule(go), go.version, go.moduleDir)
    case External(ext) =>
      GoRequire(BoundModule(ext.manifest.value), ext.manifest.value.bindsGo, ext.manifest.value.boundDir)
  }

  /** What an import binds is what it declares. */
  lemma BindsWhatIsDeclared(t: Tree, p: string, mod: Option<Mod>, m: string, table: Dir)
    ensures Binding(t, p, mod) == Some((m, table)) <==>
            exists r: GoRequire :: r.modulePath == m && Declares(t.classify(p, mod), table, r)
    ensures Binding(t, p, mod) == Some((m, table)) ==>
              Declares(t.classify(p, mod), table, RequireOf(t.classify(p, mod))) && RequireOf(t.classify(p, mod)).modulePath == m
  {
    var i := t.classify(p, mod);
    if Binding(t, p, mod) == Some((m, table)) { assert Declares(i, table, RequireOf(i)); }
  }

  /** The directories seen are those on the stack and those finished; each was reached from
      the root; imports of the finished ones lead to finished ones, backwards. */
  ghost predicate Walked(
    t: Tree, root: Dir, seen: set<Dir>, stack: set<Dir>, g: Graph, order: seq<Dir>, paths: map<Dir, seq<Dir>>) {
    && (forall d :: d in seen <==> d in g)
    && (forall d :: d in seen <==> d in stack || d in order)
    && (forall d :: d in stack ==> d !in order)
    && Topological(t, g, order)
    && (forall d :: d in seen ==> Reached(t, g, root, paths, d))
    && (forall d :: d in seen && d != root ==> d in t.sources && g[d].files == t.sources[d])
  }

  /** The stack is a path from the root. */
  ghost predicate OnTrail(t: Tree, root: Dir, stack: set<Dir>, g: Graph, trail: seq<Dir>) {
    && (forall d :: d in trail <==> d in stack)
    && (trail != [] ==> IsPath(t, g, trail) && trail[0] == root)
  }

  /** `dir` may follow the trail. */
  ghost predicate Follows(t: Tree, root: Dir, g: Graph, trail: seq<Dir>, dir: Dir) {
    if trail == [] then dir == root else Edge(t, g, trail[|trail| - 1], dir)
  }

  lemma PathGrows(t: Tree, g: Graph, g': Graph, path: seq<Dir>)
    requires forall d :: d in g ==> d in g' && g'[d] == g[d]
    requires IsPath(t, g, path)
    ensures IsPath(t, g', path)
  {
    forall i | 0 <= i < |path| - 1 ensures Edge(t, g', path[i], path[i + 1]) { assert Edge(t, g, path[i], path[i + 1]); }
  }

  lemma TrailExtends(t: Tree, root: Dir, stack: set<Dir>, g: Graph, trail: seq<Dir>, dir: Dir)
    requires OnTrail(t, root, stack, g, trail) && Follows(t, root, g, trail, dir)
    ensures IsPath(t, g, trail + [dir]) && (trail + [dir])[0] == root
    ensures dir in stack ==> IsCyclic(t, g, trail + [dir])
  {
    var path := trail + [dir];
    assert path[..|path| - 1] == trail;
    forall i | 0 <= i < |path| - 1 ensures Edge(t, g, path[i], path[i + 1]) {
      if i < |trail| - 1 { assert Edge(t, g, trail[i], trail[i + 1]); }
    }
  }

  /** Entering a directory. */
  lemma Entering(t: Tree, root: Dir, seen: set<Dir>, stack: set<Dir>, g: Graph, order: seq<Dir>, paths: map<Dir, seq<Dir>>,
                 trail: seq<Dir>, dir: Dir, n: Node)
    requires Walked(t, root, seen, stack, g, order, paths) && OnTrail(t, root, stack, g, trail) && Follows(t, root, g, trail, dir)
    requires dir !in seen && (dir != root ==> dir in t.sources && n.files == t.sources[dir])
    ensures Walked(t, root, seen + {dir}, stack + {dir}, g[dir := n], order, paths[dir := trail + [dir]])
    ensures OnTrail(t, root, stack + {dir}, g[dir := n], trail + [dir])
  {
    var g', paths' := g[dir := n], paths[dir := trail + [dir]];
    TrailExtends(t, root, stack, g, trail, dir);
    PathGrows(t, g, g', trail + [dir]);
    forall d | d in seen + {dir} ensures Reached(t, g', root, paths', d) {
      if d != dir { PathGrows(t, g, g', paths[d]); }
    }
    forall i, b | 0 <= i < |order| && Edge(t, g', order[i], b) ensures b in order[..i] {
      assert order[i] in order;
      EdgeGrows(t, g, g', order[i], b);
    }
  }

  /** Leaving a directory whose imports are all finished. */
  lemma Leaving(t: Tree, root: Dir, seen: set<Dir>, stack: set<Dir>, g: Graph, order: seq<Dir>, paths: map<Dir, seq<Dir>>, dir: Dir)
    requires Walked(t, root, seen, stack, g, order, paths) && dir in stack
    requires forall b :: Edge(t, g, dir, b) ==> b in order
    ensures Walked(t, root, seen, stack - {dir}, g, order + [dir], paths)
  {
    var order' := order + [dir];
    forall i, b | 0 <= i < |order'| && Edge(t, g, order'[i], b) ensures b in order'[..i] {
      if i < |order| { assert order'[..i] == order[..i]; } else { assert order'[..i] == order; }
    }
    forall d ensures d in seen <==> d in stack - {dir} || d in order' { assert d in order' <==> d in order || d == dir; }
  }

  /** What a walk has found so far: the directories finished, the tables bound, the imports
      that name packages, and the files. */
  datatype Found = Found(order: seq<Dir>, boundBy: map<string, Dir>, userImports: set<string>, files: seq<File>)

  ghost predicate Grows(a: Found, b: Found) {
    && (forall d :: d in a.order ==> d in b.order)
    && (forall m :: m in a.boundBy ==> m in b.boundBy && b.boundBy[m] == a.boundBy[m])
    && (forall p :: p in a.userImports ==> p in b.userImports)
    && (forall f :: f in a.files ==> f in b.files)
  }

  /** What an import brings besides a package to visit. */
  ghost predicate Noted(t: Tree, found: Found, mod: Option<Mod>, p: string) {
    && IsBound(found.boundBy, Binding(t, p, mod))
    && (Counts(t, p, mod) ==> p in found.userImports)
    && (forall x :: x in TableFiles(t, p, mod) ==> x in found.files)
  }

  /** Every import of a package is noted. */
  ghost predicate Settled(t: Tree, found: Found, n: Node) {
    forall f, p :: f in n.files && p in ImportsOf(t, f) ==> Noted(t, found, n.mod, p)
  }

  ghost predicate Clean(t: Tree, d: Dir, n: Node) {
    forall f, p :: f in n.files && p in ImportsOf(t, f) ==> !Faulty(t, d, p, n.mod)
  }

  ghost predicate IsBound(boundBy: map<string, Dir>, b: Option<(string, Dir)>) {
    b.Some? ==> b.value.0 in boundBy && boundBy[b.value.0] == b.value.1
  }

  /** No Go module is required twice, and those required are those bound. */
  ghost predicate RequiredOnce(boundBy: map<string, Dir>, goDeps: seq<GoRequire>) {
    && (forall i, j :: 0 <= i < j < |goDeps| ==> goDeps[i].modulePath != goDeps[j].modulePath)
    && (forall i :: 0 <= i < |goDeps| ==> goDeps[i].modulePath in boundBy)
    && (forall m :: m in boundBy ==> Requires(goDeps, m))
  }

  ghost predicate Requires(goDeps: seq<GoRequire>, m: string) { exists i :: 0 <= i < |goDeps| && goDeps[i].modulePath == m }

  /** The manifest an import hands on: a package of the project stays under the importer's, a
      dependency comes with its own. */
  predicate Hands(i: Import, mod: Option<Mod>, b: Dir, mod': Option<Mod>) {
    || (i.User? && i.target == b && mod' == mod)
    || (i.External? && i.ext.target == b && i.ext.manifest.Some? && mod' == i.ext.manifest)
  }

  ghost predicate Governed(t: Tree, g: Graph, b: Dir, mod': Option<Mod>) {
    exists a, f, p :: Imported(g, t, a, f, p) && Hands(t.classify(p, g[a].mod), g[a].mod, b, mod')
  }

  /** Every package but the root was read under the manifest an import hands it. */
  ghost predicate AllGoverned(t: Tree, root: Dir, g: Graph) { forall d :: d in g ==> d == root || Governed(t, g, d, g[d].mod) }

  lemma GovernedStays(t: Tree, g: Graph, g': Graph, b: Dir, mod': Option<Mod>)
    requires Governed(t, g, b, mod') && forall d :: d in g ==> d in g' && g'[d] == g[d]
    ensures Governed(t, g', b, mod')
  {
    hide Hands;
    var a, f, p :| Imported(g, t, a, f, p) && Hands(t.classify(p, g[a].mod), g[a].mod, b, mod');
    assert Imported(g', t, a, f, p);
  }

  lemma GovernedGrows(t: Tree, root: Dir, g: Graph, dir: Dir, n: Node)
    requires AllGoverned(t, root, g) && dir !in g && (dir == root || Governed(t, g, dir, n.mod))
    ensures AllGoverned(t, root, g[dir := n])
  {
    hide Governed;
    var g' := g[dir := n];
    forall d | d in g' && d != root ensures Governed(t, g', d, g'[d].mod) { GovernedStays(t, g, g', d, g'[d].mod); }
  }

  lemma HandedOn(t: Tree, g: Graph, d: Dir, f: File, p: string, b: Dir, mod': Option<Mod>)
    requires Imported(g, t, d, f, p) && Hands(t.classify(p, g[d].mod), g[d].mod, b, mod')
    ensures Governed(t, g, b, mod')
  {
  }

  /** An import of a package reached declares r, with this table. */
  ghost predicate FromImport(t: Tree, g: Graph, table: Dir, r: GoRequire) {
    exists d, f, p :: Imported(g, t, d, f, p) && Declares(t.classify(p, g[d].mod), table, r)
  }

  /** Every module required is required as an import declares it that binds it with the table registered. */
  ghost predicate AsDeclared(t: Tree, g: Graph, boundBy: map<string, Dir>, goDeps: seq<GoRequire>) {
    forall i :: 0 <= i < |goDeps| ==> goDeps[i].modulePath in boundBy && FromImport(t, g, boundBy[goDeps[i].modulePath], goDeps[i])
  }

  lemma AsDeclaredGrows(t: Tree, g: Graph, g': Graph, boundBy: map<string, Dir>, goDeps: seq<GoRequire>)
    requires AsDeclared(t, g, boundBy, goDeps) && forall d :: d in g ==> d in g' && g'[d] == g[d]
    ensures AsDeclared(t, g', boundBy, goDeps)
  {
    forall i | 0 <= i < |goDeps| ensures FromImport(t, g', boundBy[goDeps[i].modulePath], goDeps[i]) {
      var r := goDeps[i];
      var d, f, p :| Imported(g, t, d, f, p) && Declares(t.classify(p, g[d].mod), boundBy[r.modulePath], r);
      assert Imported(g', t, d, f, p);
    }
  }

  lemma DeclareOneMore(t: Tree, g: Graph, boundBy: map<string, Dir>, goDeps: seq<GoRequire>, table: Dir, r: GoRequire)
    requires AsDeclared(t, g, boundBy, goDeps) && r.modulePath !in boundBy && FromImport(t, g, table, r)
    ensures AsDeclared(t, g, boundBy[r.modulePath := table], goDeps + [r])
  {
    hide FromImport;
  }

  /** What is declared is a binding. */
  lemma DeclaredIsBinding(t: Tree, g: Graph, table: Dir, r: GoRequire)
    requires FromImport(t, g, table, r)
    ensures IsBinding(t, g, r.modulePath, table)
  {
    var d, f, p :| Imported(g, t, d, f, p) && Declares(t.classify(p, g[d].mod), table, r);
    BindsWhatIsDeclared(t, p, g[d].mod, r.modulePath, table);
  }

  lemma RequireOneMore(boundBy: map<string, Dir>, goDeps: seq<GoRequire>, table: Dir, g: GoRequire)
    requires RequiredOnce(boundBy, goDeps) && g.modulePath !in boundBy
    ensures RequiredOnce(boundBy[g.modulePath := table], goDeps + [g])
  {
    var more := goDeps + [g];
    assert more[|goDeps|] == g;
    forall m | m in boundBy ensures Requires(more, m) {
      var i :| 0 <= i < |goDeps| && goDeps[i].modulePath == m;
      assert more[i].modulePath == m;
    }
  }

  /** The files of every finished package are gathered, all it imports is noted, and none of its
      imports is at fault. */
  ghost predicate Gathered(t: Tree, g: Graph, found: Found) {
    && (forall d :: d in found.order && d in g ==> Clean(t, d, g[d]))
    && (forall d, f :: d in found.order && d in g && f in g[d].files ==> f in found.files)
    && (forall d :: d in found.order && d in g ==> Settled(t, found, g[d]))
  }

  lemma GatheredMore(t: Tree, g: Graph, a: Found, b: Found)
    requires Gathered(t, g, a) && Grows(a, b) && a.order == b.order
    ensures Gathered(t, g, b)
  {
    forall d | d in b.order && d in g ensures Settled(t, b, g[d]) {
      forall f, p | f in g[d].files && p in ImportsOf(t, f) ensures Noted(t, b, g[d].mod, p) {
        assert Noted(t, a, g[d].mod, p);
      }
    }
  }

  /** A directory entered is not finished. */
  lemma GatheredGrows(t: Tree, g: Graph, g': Graph, found: Found)
    requires Gathered(t, g, found) && forall d :: d in g ==> d in g' && g'[d] == g[d]
    requires forall d :: d in found.order ==> d in g
    ensures Gathered(t, g', found)
  {
    forall d | d in found.order && d in g' ensures Settled(t, found, g'[d]) { assert Settled(t, found, g[d]); }
  }

  /** p is imported by the file f of d. */
  ghost predicate Imported(g: Graph, t: Tree, d: Dir, f: File, p: string) { d in g && f in g[d].files && p in ImportsOf(t, f) }

  ghost predicate IsFile(t: Tree, g: Graph, x: File) {
    || (exists d :: d in g && x in g[d].files)
    || (exists d, f, p :: Imported(g, t, d, f, p) && x in TableFiles(t, p, g[d].mod))
  }

  ghost predicate IsUserImport(t: Tree, g: Graph, p: string) { exists d, f :: Imported(g, t, d, f, p) && Counts(t, p, g[d].mod) }

  ghost predicate IsBinding(t: Tree, g: Graph, m: string, table: Dir) {
    exists d, f, p :: Imported(g, t, d, f, p) && Binding(t, p, g[d].mod) == Some((m, table))
  }

  /** Nothing is made up: files, imports and bindings come from the packages reached. */
  ghost predicate Genuine(t: Tree, g: Graph, found: Found) {
    && (forall x :: x in found.files ==> IsFile(t, g, x))
    && (forall p :: p in found.userImports ==> IsUserImport(t, g, p))
    && (forall m :: m in found.boundBy ==> IsBinding(t, g, m, found.boundBy[m]))
  }

  lemma GenuineGrows(t: Tree, g: Graph, g': Graph, found: Found)
    requires Genuine(t, g, found) && forall d :: d in g ==> d in g' && g'[d] == g[d]
    ensures Genuine(t, g', found)
  {
    forall x | x in found.files ensures IsFile(t, g', x) {
      assert IsFile(t, g, x);
      if d :| d in g && x in g[d].files {
        assert d in g';
      } else {
        var d, f, p :| Imported(g, t, d, f, p) && x in TableFiles(t, p, g[d].mod);
        assert Imported(g', t, d, f, p);
      }
    }
    forall p | p in found.userImports ensures IsUserImport(t, g', p) {
      assert IsUserImport(t, g, p);
      var d, f :| Imported(g, t, d, f, p) && Counts(t, p, g[d].mod);
      assert Imported(g', t, d, f, p);
    }
    forall m | m in found.boundBy ensures IsBinding(t, g', m, found.boundBy[m]) {
      assert IsBinding(t, g, m, found.boundBy[m]);
      var d, f, p :| Imported(g, t, d, f, p) && Binding(t, p, g[d].mod) == Some((m, found.boundBy[m]));
      assert Imported(g', t, d, f, p);
    }
  }

  /** An import that has been followed: its package is finished, and all it brings is noted. */
  ghost predicate Done(t: Tree, found: Found, mod: Option<Mod>, dir: Dir, p: string) {
    && (TargetOf(t, p, mod, dir).Some? ==> TargetOf(t, p, mod, dir).value in found.order)
    && Noted(t, found, mod, p) && !Faulty(t, dir, p, mod)
  }

  /** dedupeSorted: the elements of xs, once each, in order. */
  method DedupeSorted(xs: seq<string>) returns (out: seq<string>)
    ensures forall x :: x in out <==> x in xs
    ensures forall i, j :: 0 <= i < j < |out| ==> StringLess(out[i], out[j])
  {
    var seen: set<string> := {};
    out := [];
    for i := 0 to |xs|
      invariant forall x :: x in seen <==> x in xs[..i]
      invariant forall x :: x in out <==> x in seen
      invariant forall j, k :: 0 <= j < k < |out| ==> out[j] != out[k]
    {
      if xs[i] !in seen {
        seen := seen + {xs[i]};
        out := out + [xs[i]];
      }
    }
    SortedStrictly(out);
    out := Sorted(out);
  }

  ghost predicate AllDone(t: Tree, found: Found, mod: Option<Mod>, dir: Dir, f: File) {
    forall p :: p in ImportsOf(t, f) ==> Done(t, found, mod, dir, p)
  }

  ghost predicate DoneUpTo(t: Tree, found: Found, mod: Option<Mod>, dir: Dir, imps: seq<string>, j: nat) {
    forall k :: 0 <= k < j && k < |imps| ==> Done(t, found, mod, dir, imps[k])
  }

  /** Only dependencies bring more than a package. */
  lemma BringsNothing(t: Tree, p: string, mod: Option<Mod>)
    requires t.classify(p, mod).Builtin? || t.classify(p, mod).User?
    ensures Binding(t, p, mod) == None && TableFiles(t, p, mod) == []
  {
  }

  lemma DoneStays(t: Tree, a: Found, b: Found, mod: Option<Mod>, dir: Dir, p: string)
    requires Done(t, a, mod, dir, p) && Grows(a, b)
    ensures Done(t, b, mod, dir, p)
  {
  }

  lemma DoneUpToStays(t: Tree, a: Found, b: Found, mod: Option<Mod>, dir: Dir, imps: seq<string>, j: nat)
    requires DoneUpTo(t, a, mod, dir, imps, j) && j < |imps| && Grows(a, b) && Done(t, b, mod, dir, imps[j])
    ensures DoneUpTo(t, b, mod, dir, imps, j + 1)
  {
    forall k | 0 <= k < j ensures Done(t, b, mod, dir, imps[k]) { DoneStays(t, a, b, mod, dir, imps[k]); }
  }

  lemma AllDoneStays(t: Tree, a: Found, b: Found, mod: Option<Mod>, dir: Dir, f: File)
    requires AllDone(t, a, mod, dir, f) && Grows(a, b)
    ensures AllDone(t, b, mod, dir, f)
  {
    forall p | p in ImportsOf(t, f) ensures Done(t, b, mod, dir, p) { DoneStays(t, a, b, mod, dir, p); }
  }

  lemma TrailStays(t: Tree, root: Dir, stack: set<Dir>, g: Graph, g': Graph, trail: seq<Dir>)
    requires OnTrail(t, root, stack, g, trail) && forall d :: d in g ==> d in g' && g'[d] == g[d]
    ensures OnTrail(t, root, stack, g', trail)
  {
    if trail != [] { PathGrows(t, g, g', trail); }
  }

  /** Why a run stops. */
  ghost predicate Stops(t: Tree, root: Dir, g: Graph, boundBy: map<string, Dir>, err: Error) {
    match err
    case Cycle(trail) => IsCyclic(t, g, trail) && trail[0] == root
    case BoundTwice(m) =>
      && (exists d, f, p :: Imported(g, t, d, f, p) && Clashes(boundBy, m, Binding(t, p, g[d].mod)))
      && m in boundBy && IsBinding(t, g, m, boundBy[m])
    case UnknownImport(p) => exists d, f :: Imported(g, t, d, f, p) && LeadsNowhere(t, d, p, g[d].mod)
    case NotPresent(p) => exists d, f :: Imported(g, t, d, f, p) && Absent(t, p, g[d].mod)
    case KindClash(p) => exists d, f :: Imported(g, t, d, f, p) && Clashing(t, p, g[d].mod)
  }

  lemma CycleStops(t: Tree, root: Dir, stack: set<Dir>, g: Graph, boundBy: map<string, Dir>, trail: seq<Dir>, dir: Dir)
    requires OnTrail(t, root, stack, g, trail) && Follows(t, root, g, trail, dir) && dir in stack
    ensures Stops(t, root, g, boundBy, Cycle(trail + [dir]))
  {
    TrailExtends(t, root, stack, g, trail, dir);
  }

  /** The import binds m with another table than the one registered. */
  predicate Clashes(boundBy: map<string, Dir>, m: string, b: Option<(string, Dir)>) {
    b.Some? && b.value.0 == m && m in boundBy && b.value.1 != boundBy[m]
  }

  /** What is registered was declared by an import of a package reached. */
  lemma RegisteredIsBinding(t: Tree, g: Graph, found: Found, m: string)
    requires Genuine(t, g, found) && m in found.boundBy
    ensures IsBinding(t, g, m, found.boundBy[m])
  {
  }

  lemma PutBack(s: set<Dir>, d: Dir)
    requires d !in s
    ensures s + {d} - {d} == s
  {
  }

  lemma ImportIsEdge(t: Tree, g: Graph, d: Dir, f: File, p: string)
    requires Imported(g, t, d, f, p) && TargetOf(t, p, g[d].mod, d).Some?
    ensures Edge(t, g, d, TargetOf(t, p, g[d].mod, d).value)
  {
    var b := TargetOf(t, p, g[d].mod, d).value;
    TargetLeads(t, p, g[d].mod, d, b);
    FileTargets(t, g[d].files, g[d].mod, d, b);
  }

  lemma LeavingDone(t: Tree, g: Graph, found: Found, dir: Dir)
    requires dir in g
    requires forall k :: 0 <= k < |g[dir].files| ==> AllDone(t, found, g[dir].mod, dir, g[dir].files[k])
    ensures forall b :: Edge(t, g, dir, b) ==> b in found.order
    ensures Settled(t, found, g[dir]) && Clean(t, dir, g[dir])
  {
    hide Faulty;
    forall f, p | f in g[dir].files && p in ImportsOf(t, f) ensures Done(t, found, g[dir].mod, dir, p) {
      var k :| 0 <= k < |g[dir].files| && g[dir].files[k] == f;
      assert AllDone(t, found, g[dir].mod, dir, g[dir].files[k]);
    }
    forall b | Edge(t, g, dir, b) ensures b in found.order {
      FileTargets(t, g[dir].files, g[dir].mod, dir, b);
      var f, p :| f in g[dir].files && p in ImportsOf(t, f) && LeadsTo(t.classify(p, g[dir].mod), dir, b);
      TargetLeads(t, p, g[dir].mod, dir, b);
      assert Done(t, found, g[dir].mod, dir, p);
    }
    forall f, p | f in g[dir].files && p in ImportsOf(t, f) ensures Noted(t, found, g[dir].mod, p) && !Faulty(t, dir, p, g[dir].mod) {
      assert Done(t, found, g[dir].mod, dir, p);
    }
  }

  /** The files of a finished directory are added. */
  lemma Finishing(t: Tree, g: Graph, a: Found, b: Found, dir: Dir)
    requires Gathered(t, g, a) && Genuine(t, g, a) && dir in g && Settled(t, a, g[dir]) && Clean(t, dir, g[dir])
    requires b == a.(order := a.order + [dir], files := a.files + g[dir].files)
    ensures Gathered(t, g, b) && Genuine(t, g, b) && Grows(a, b)
  {
    forall d | d in b.order && d in g ensures Settled(t, b, g[d]) {
      assert Settled(t, a, g[d]);
      forall f, p | f in g[d].files && p in ImportsOf(t, f) ensures Noted(t, b, g[d].mod, p) {
        assert Noted(t, a, g[d].mod, p);
      }
    }
    forall x | x in b.files ensures IsFile(t, g, x) { assert x in a.files || x in g[dir].files; }
  }

  /** An import adds itself and the files of its table. */
  lemma Noting(t: Tree, g: Graph, a: Found, b: Found, d: Dir, f: File, p: string)
    requires Gathered(t, g, a) && Genuine(t, g, a) && Imported(g, t, d, f, p) && Counts(t, p, g[d].mod)
    requires b == a.(userImports := a.userImports + {p}, files := b.files)
    requires b.files == a.files || b.files == a.files + TableFiles(t, p, g[d].mod)
    ensures Gathered(t, g, b) && Genuine(t, g, b) && Grows(a, b)
  {
    GatheredMore(t, g, a, b);
    forall x | x in b.files ensures IsFile(t, g, x) { assert x in a.files || x in TableFiles(t, p, g[d].mod); }
    forall q | q in b.userImports ensures IsUserImport(t, g, q) {
      if q in a.userImports { assert IsUserImport(t, g, q); }
    }
  }

  /** A binding is registered. */
  lemma Binds(t: Tree, g: Graph, a: Found, b: Found, m: string, table: Dir)
    requires Gathered(t, g, a) && Genuine(t, g, a) && IsBinding(t, g, m, table) && m !in a.boundBy
    requires b == a.(boundBy := a.boundBy[m := table])
    ensures Gathered(t, g, b) && Genuine(t, g, b) && Grows(a, b)
  {
    GatheredMore(t, g, a, b);
  }

  // ---------------------------------------------------------------- the result

  /** x is a file of the binding table of a kind="go" dependency. */
  predicate InTable(t: Tree, i: Import, x: File) {
    i.Go? && i.go.table.Some? && i.go.table.value in t.sources && x in t.sources[i.go.table.value]
  }

  /** x is a file of a package reached, or of a table one of them imports. */
  ghost predicate InBuild(t: Tree, g: Graph, x: File) {
    || (exists d :: d in g && x in g[d].files)
    || (exists d, f, p :: Imported(g, t, d, f, p) && InTable(t, t.classify(p, g[d].mod), x))
  }

  /** p names a package or a dependency in a package reached. */
  ghost predicate IsStripped(t: Tree, g: Graph, p: string) {
    exists d, f :: Imported(g, t, d, f, p) && !t.classify(p, g[d].mod).Builtin?
  }

  /** The build unit: its files are those of the packages reached and their tables, the imports stripped
      are those that name packages, every declared binding is registered with its own table and
      required, and what is required is as declared. */
  ghost predicate IsUnit(
    t: Tree, g: Graph, files: seq<File>, userImports: set<string>, boundBy: map<string, Dir>, goDeps: seq<GoRequire>) {
    && (forall x :: x in files <==> InBuild(t, g, x))
    && (forall p :: p in userImports <==> IsStripped(t, g, p))
    && (forall table, r :: FromImport(t, g, table, r) ==>
          r.modulePath in boundBy && boundBy[r.modulePath] == table && Requires(goDeps, r.modulePath))
    && AsDeclared(t, g, boundBy, goDeps)
  }

  lemma GatheredClean(t: Tree, g: Graph, found: Found)
    requires Gathered(t, g, found) && forall d :: d in g ==> d in found.order
    ensures forall d, f, p :: Imported(g, t, d, f, p) ==> !Faulty(t, d, p, g[d].mod)
  {
    hide Faulty;
    forall d, f, p | Imported(g, t, d, f, p) ensures !Faulty(t, d, p, g[d].mod) { assert Clean(t, d, g[d]); }
  }

  lemma SameFiles(t: Tree, g: Graph, a: Found, b: Found)
    requires Genuine(t, g, a) && b == a.(files := b.files) && forall x :: x in b.files <==> x in a.files
    ensures Genuine(t, g, b)
  {
  }

  lemma GatheredFile(t: Tree, g: Graph, found: Found, x: File)
    requires Gathered(t, g, found) && Genuine(t, g, found) && forall d :: d in g ==> d in found.order
    ensures x in found.files <==> InBuild(t, g, x)
  {
    hide Faulty;
    if x in found.files {
      assert IsFile(t, g, x);
      if !exists d :: d in g && x in g[d].files {
        var d, f, p :| Imported(g, t, d, f, p) && x in TableFiles(t, p, g[d].mod);
        assert InTable(t, t.classify(p, g[d].mod), x);
      }
    }
    if InBuild(t, g, x) && !exists d :: d in g && x in g[d].files {
      var d, f, p :| Imported(g, t, d, f, p) && InTable(t, t.classify(p, g[d].mod), x);
      assert Settled(t, found, g[d]);
      assert Noted(t, found, g[d].mod, p);
      assert x in TableFiles(t, p, g[d].mod);
    }
  }

  lemma GatheredImport(t: Tree, g: Graph, found: Found, p: string)
    requires Gathered(t, g, found) && Genuine(t, g, found) && forall d :: d in g ==> d in found.order
    ensures p in found.userImports <==> IsStripped(t, g, p)
  {
    hide Absent, Clashing;
    if p in found.userImports { assert IsUserImport(t, g, p); }
    if IsStripped(t, g, p) {
      var d, f :| Imported(g, t, d, f, p) && !t.classify(p, g[d].mod).Builtin?;
      assert Settled(t, found, g[d]) && Clean(t, d, g[d]);
      assert Noted(t, found, g[d].mod, p) && !Faulty(t, d, p, g[d].mod);
    }
  }

  lemma GatheredBinding(t: Tree, g: Graph, found: Found, goDeps: seq<GoRequire>, table: Dir, r: GoRequire)
    requires Gathered(t, g, found) && RequiredOnce(found.boundBy, goDeps) && forall d :: d in g ==> d in found.order
    requires FromImport(t, g, table, r)
    ensures r.modulePath in found.boundBy && found.boundBy[r.modulePath] == table && Requires(goDeps, r.modulePath)
  {
    hide Faulty, Declares, Binding;
    var d, f, p :| Imported(g, t, d, f, p) && Declares(t.classify(p, g[d].mod), table, r);
    BindsWhatIsDeclared(t, p, g[d].mod, r.modulePath, table);
    assert Settled(t, found, g[d]);
    assert Noted(t, found, g[d].mod, p);
  }

  lemma GatheredIsUnit(t: Tree, g: Graph, found: Found, goDeps: seq<GoRequire>)
    requires Gathered(t, g, found) && Genuine(t, g, found) && RequiredOnce(found.boundBy, goDeps)
    requires AsDeclared(t, g, found.boundBy, goDeps) && forall d :: d in g ==> d in found.order
    ensures IsUnit(t, g, found.files, found.userImports, found.boundBy, goDeps)
  {
    hide Gathered, Genuine, RequiredOnce, AsDeclared, AllGoverned, FromImport, InBuild, IsStripped;
    forall x ensures x in found.files <==> InBuild(t, g, x) { GatheredFile(t, g, found, x); }
    forall p ensures p in found.userImports <==> IsStripped(t, g, p) { GatheredImport(t, g, found, p); }
    forall table, r | FromImport(t, g, table, r)
      ensures r.modulePath in found.boundBy && found.boundBy[r.modulePath] == table && Requires(goDeps, r.modulePath)
    {
      GatheredBinding(t, g, found, goDeps, table, r);
    }
  }

  class Walk {
    const tree: Tree
    const root: Dir
    var seenDir: set<Dir>
    var onStack: set<Dir>
    var boundBy: map<string, Dir>                 // Go module -> the table that binds it
    var files: seq<File>
    var userImports: set<string>
    var goDeps: seq<GoRequire>
    ghost var graph: Graph
    ghost var order: seq<Dir>                     // the directories, as they are finished
    ghost var paths: map<Dir, seq<Dir>>           // how each was first reached

    constructor (tree: Tree, root: Dir)
      ensures this.tree == tree && this.root == root && seenDir == {} && onStack == {} && Inv()
    {
      this.tree, this.root := tree, root;
      seenDir, onStack, boundBy, files, userImports, goDeps := {}, {}, map[], [], {}, [];
      graph, order, paths := map[], [], map[];
    }

    ghost predicate Inv()
      reads this
    {
      && Walked(tree, root, seenDir, onStack, graph, order, paths)
      && Gathered(tree, graph, Now())
      && Genuine(tree, graph, Now())
      && RequiredOnce(boundBy, goDeps)
      && AsDeclared(tree, graph, boundBy, goDeps)
      && AllGoverned(tree, root, graph)
    }

    ghost function Now(): Found
      reads this
    {
      Found(order, boundBy, userImports, files)
    }

    /** The stack is as it was, and nothing is lost. */
    twostate predicate Extends()
      reads this
    {
      onStack == old(onStack) && Keeps()
    }

    /** Nothing already known is lost. */
    twostate predicate Keeps()
      reads this
    {
      && old(seenDir) <= seenDir
      && (forall d :: d in old(graph) ==> d in graph && graph[d] == old(graph)[d])
      && Grows(old(Now()), Now())
    }

    /** Registers the module an import binds. */
    method Register(r: GoRequire, table: Dir) returns (err: Option<Error>)
      requires Inv() && FromImport(tree, graph, table, r)
      modifies this`boundBy, this`goDeps
      ensures Inv() && Grows(old(Now()), Now())
      ensures err == None ==> r.modulePath in boundBy && boundBy[r.modulePath] == table
      ensures err == None ==> goDeps == if r.modulePath in old(boundBy) then old(goDeps) else old(goDeps) + [r]
      ensures err.Some? ==> err.value == BoundTwice(r.modulePath) && r.modulePath in boundBy && boundBy[r.modulePath] != table
      ensures err.Some? ==> IsBinding(tree, graph, r.modulePath, boundBy[r.modulePath])
    {
      hide Walked, Gathered, Genuine, AsDeclared, AllGoverned, FromImport;
      var m := r.modulePath;
      if m in boundBy {
        RegisteredIsBinding(tree, graph, Now(), m);
        return if boundBy[m] == table then None else Some(BoundTwice(m));
      }
      RequireOneMore(boundBy, goDeps, table, r);
      DeclareOneMore(tree, graph, boundBy, goDeps, table, r);
      DeclaredIsBinding(tree, graph, table, r);
      Binds(tree, graph, Now(), Now().(boundBy := boundBy[m := table]), m, table);
      boundBy := boundBy[m := table];
      goDeps := goDeps + [r];
      return None;
    }

    function Universe(): set<Dir> { tree.sources.Keys + {root} }

    /** visit. */
    method Visit(dir: Dir, fs: seq<File>, trail: seq<Dir>, mod: Option<Mod>) returns (err: Option<Error>)
      requires Inv() && OnTrail(tree, root, onStack, graph, trail) && Follows(tree, root, graph, trail, dir)
      requires dir != root ==> dir in tree.sources && fs == tree.sources[dir]
      requires dir == root || Governed(tree, graph, dir, mod)
      modifies this
      ensures err == None ==> Inv() && Extends() && dir in order
      ensures err == None && dir !in old(seenDir) ==> dir in graph && graph[dir] == Node(mod, fs)
      ensures err.Some? ==> Stops(tree, root, graph, boundBy, err.value)
      decreases Universe() - seenDir, 1
    {
      hide Gathered, Genuine, RequiredOnce, AsDeclared, AllGoverned;
      if dir in onStack {
        CycleStops(tree, root, onStack, graph, boundBy, trail, dir);
        return Some(Cycle(trail + [dir]));
      }
      if dir in seenDir { return None; }
      PutBack(onStack, dir);
      Enter(dir, fs, trail, mod);
      err := VisitEntered(dir, fs, trail + [dir], mod);
    }

    /** The rest of a visit: the files of dir, which is on top of the stack, and the way out. */
    method VisitEntered(dir: Dir, fs: seq<File>, trail: seq<Dir>, mod: Option<Mod>) returns (err: Option<Error>)
      requires Inv() && OnTrail(tree, root, onStack, graph, trail) && trail != [] && trail[|trail| - 1] == dir
      requires dir in graph && graph[dir] == Node(mod, fs)
      modifies this
      ensures err == None ==> Inv() && Keeps() && onStack == old(onStack) - {dir} && dir in order
      ensures err.Some? ==> Stops(tree, root, graph, boundBy, err.value)
      decreases Universe() - seenDir, 6
    {
      hide AllDone, Stops, Walked, Gathered, Genuine, RequiredOnce, AsDeclared, AllGoverned;
      assert dir in onStack;
      err := VisitFiles(dir, fs, trail, mod);
      if err == None {
        Finish(dir, fs);
      } else {
        onStack := onStack - {dir};
      }
    }

    method Enter(dir: Dir, fs: seq<File>, trail: seq<Dir>, mod: Option<Mod>)
      requires Inv() && OnTrail(tree, root, onStack, graph, trail) && Follows(tree, root, graph, trail, dir)
      requires dir !in seenDir && (dir != root ==> dir in tree.sources && fs == tree.sources[dir])
      requires dir == root || Governed(tree, graph, dir, mod)
      modifies this`seenDir, this`onStack, this`graph, this`paths
      ensures Inv() && OnTrail(tree, root, onStack, graph, trail + [dir])
      ensures seenDir == old(seenDir) + {dir} && onStack == old(onStack) + {dir} && graph == old(graph)[dir := Node(mod, fs)]
    {
      hide Gathered, Genuine, RequiredOnce, AsDeclared, AllGoverned;
      Entering(tree, root, seenDir, onStack, graph, order, paths, trail, dir, Node(mod, fs));
      GatheredGrows(tree, graph, graph[dir := Node(mod, fs)], Now());
      GenuineGrows(tree, graph, graph[dir := Node(mod, fs)], Now());
      GovernedGrows(tree, root, graph, dir, Node(mod, fs));
      AsDeclaredGrows(tree, graph, graph[dir := Node(mod, fs)], boundBy, goDeps);
      seenDir := seenDir + {dir};
      onStack := onStack + {dir};
      graph := graph[dir := Node(mod, fs)];
      paths := paths[dir := trail + [dir]];
    }

    method Finish(dir: Dir, fs: seq<File>)
      requires Inv() && dir in onStack && dir in graph && graph[dir].files == fs
      requires forall k :: 0 <= k < |fs| ==> AllDone(tree, Now(), graph[dir].mod, dir, fs[k])
      modifies this`onStack, this`files, this`order
      ensures Inv() && onStack == old(onStack) - {dir} && order == old(order) + [dir] && files == old(files) + fs
    {
      hide Walked, Gathered, Genuine, AsDeclared, AllGoverned;
      LeavingDone(tree, graph, Now(), dir);
      Finishing(tree, graph, Now(), Now().(order := order + [dir], files := files + fs), dir);
      Leaving(tree, root, seenDir, onStack, graph, order, paths, dir);
      files := files + fs;
      onStack := onStack - {dir};
      order := order + [dir];
    }

    /** The imports of every file of dir, which is the last of the trail. */
    method VisitFiles(dir: Dir, fs: seq<File>, trail: seq<Dir>, mod: Option<Mod>) returns (err: Option<Error>)
      requires Inv() && OnTrail(tree, root, onStack, graph, trail) && trail != [] && trail[|trail| - 1] == dir
      requires dir in graph && graph[dir] == Node(mod, fs)
      modifies this
      ensures err == None ==> Inv() && Extends()
      ensures err == None ==> forall k :: 0 <= k < |fs| ==> AllDone(tree, Now(), mod, dir, fs[k])
      ensures err.Some? ==> Stops(tree, root, graph, boundBy, err.value)
      decreases Universe() - seenDir, 5
    {
      hide AllDone, OnTrail, Stops, Walked, Gathered, Genuine, RequiredOnce, AsDeclared, AllGoverned;
      for i := 0 to |fs|
        invariant Inv() && Extends()
        invariant forall k :: 0 <= k < i ==> AllDone(tree, Now(), mod, dir, fs[k])
      {
        TrailStays(tree, root, onStack, old(graph), graph, trail);
        ghost var was := Now();
        err := VisitImports(fs[i], dir, trail, mod);
        if err.Some? { return; }
        forall k | 0 <= k < i ensures AllDone(tree, Now(), mod, dir, fs[k]) {
          AllDoneStays(tree, was, Now(), mod, dir, fs[k]);
        }
      }
      return None;
    }

    method VisitImports(f: File, dir: Dir, trail: seq<Dir>, mod: Option<Mod>) returns (err: Option<Error>)
      requires Inv() && OnTrail(tree, root, onStack, graph, trail) && trail != [] && trail[|trail| - 1] == dir
      requires dir in graph && graph[dir].mod == mod && f in graph[dir].files
      modifies this
      ensures err == None ==> Inv() && Extends() && AllDone(tree, Now(), mod, dir, f)
      ensures err.Some? ==> Stops(tree, root, graph, boundBy, err.value)
      decreases Universe() - seenDir, 4
    {
      hide OnTrail, Stops, Done, Walked, Gathered, Genuine, RequiredOnce, AsDeclared, AllGoverned;
      var imps := ImportsOf(tree, f);
      for j := 0 to |imps|
        invariant Inv() && Extends()
        invariant DoneUpTo(tree, Now(), mod, dir, imps, j)
      {
        TrailStays(tree, root, onStack, old(graph), graph, trail);
        ghost var was := Now();
        err := Follow(imps[j], f, dir, trail, mod);
        if err.Some? { return; }
        DoneUpToStays(tree, was, Now(), mod, dir, imps, j);
      }
      return None;
    }

    /** One import p of the file f of dir. */
    method Follow(p: string, f: File, dir: Dir, trail: seq<Dir>, mod: Option<Mod>) returns (err: Option<Error>)
      requires Inv() && OnTrail(tree, root, onStack, graph, trail) && trail != [] && trail[|trail| - 1] == dir
      requires Imported(graph, tree, dir, f, p) && graph[dir].mod == mod
      modifies this
      ensures err == None ==> Inv() && Extends() && Done(tree, Now(), mod, dir, p)
      ensures err.Some? ==> Stops(tree, root, graph, boundBy, err.value)
      decreases Universe() - seenDir, 3
    {
      hide OnTrail, Walked, Gathered, Genuine, RequiredOnce, AsDeclared, AllGoverned, Binding, TableFiles;
      match tree.classify(p, mod)
      case Builtin =>
        BringsNothing(tree, p, mod);
        return None;
      case Unknown => return Some(UnknownImport(p));
      case User(target) =>
        BringsNothing(tree, p, mod);
        Noting(tree, graph, Now(), Now().(userImports := userImports + {p}), dir, f, p);
        userImports := userImports + {p};
        if target == dir { return None; }
        ImportIsEdge(tree, graph, dir, f, p);
        if target !in tree.sources { return Some(UnknownImport(p)); }
        HandedOn(tree, graph, dir, f, p, target, mod);
      err := Visit(target, tree.sources[target], trail, mod);
      case Go(go) => err := FollowGo(p, f, dir, go, mod);
      case External(ext) => err := FollowExternal(p, f, dir, ext, trail, mod);
    }

    method FollowGo(p: string, f: File, dir: Dir, go: GoDep, mod: Option<Mod>) returns (err: Option<Error>)
      requires Inv() && Imported(graph, tree, dir, f, p) && graph[dir].mod == mod && tree.classify(p, mod) == Go(go)
      modifies this
      ensures err == None ==> Inv() && Extends() && Done(tree, Now(), mod, dir, p)
      ensures err.Some? ==> Stops(tree, root, graph, boundBy, err.value)
    {
      hide Walked, Gathered, Genuine, RequiredOnce, AsDeclared, AllGoverned;
      if go.table.None? || go.table.value !in tree.sources { return Some(NotPresent(p)); }
      Noting(tree, graph, Now(), Now().(userImports := userImports + {p}, files := files + TableFiles(tree, p, mod)), dir, f, p);
      userImports := userImports + {p};
      files := files + tree.sources[go.table.value];
      if !go.present || GoModule(go) == "" { return Some(NotPresent(p)); }
      var r := GoRequire(GoModule(go), go.version, go.moduleDir);
      assert Declares(tree.classify(p, graph[dir].mod), go.table.value, r);
      err := Register(r, go.table.value);
    }

    method FollowExternal(p: string, f: File, dir: Dir, ext: ExternalDep, trail: seq<Dir>, mod: Option<Mod>) returns (err: Option<Error>)
      requires Inv() && OnTrail(tree, root, onStack, graph, trail) && trail != [] && trail[|trail| - 1] == dir
      requires Imported(graph, tree, dir, f, p) && graph[dir].mod == mod && tree.classify(p, mod) == External(ext)
      modifies this
      ensures err == None ==> Inv() && Extends() && Done(tree, Now(), mod, dir, p)
      ensures err.Some? ==> Stops(tree, root, graph, boundBy, err.value)
      decreases Universe() - seenDir, 2
    {
      hide Governed, OnTrail, Walked, Gathered, Genuine, RequiredOnce, AsDeclared, AllGoverned;
      if ext.manifest.None? { return Some(NotPresent(p)); }
      var sub := ext.manifest.value;
      if !KindAgrees(ext.kind, sub.packageKind) { return Some(KindClash(p)); }
      var k := EffectiveKind(ext.kind, sub.packageKind);
      if k != "aril" && k != "binding" { return Some(NotPresent(p)); }
      Noting(tree, graph, Now(), Now().(userImports := userImports + {p}), dir, f, p);
      userImports := userImports + {p};
      ImportIsEdge(tree, graph, dir, f, p);
      if ext.target !in tree.sources { return Some(UnknownImport(p)); }
      HandedOn(tree, graph, dir, f, p, ext.target, Some(sub));
      err := Visit(ext.target, tree.sources[ext.target], trail, Some(sub));
      if err.Some? { return; }
      err := BindPackage(p, f, dir, ext, mod);
    }

    /** The Go module a binding package brings. */
    method BindPackage(p: string, f: File, dir: Dir, ext: ExternalDep, mod: Option<Mod>) returns (err: Option<Error>)
      requires Inv() && Imported(graph, tree, dir, f, p) && graph[dir].mod == mod
      requires tree.classify(p, mod) == External(ext) && ext.manifest.Some? && ext.target in order && p in userImports
      requires KindAgrees(ext.kind, ext.manifest.value.packageKind) && ext.target in tree.sources
      requires EffectiveKind(ext.kind, ext.manifest.value.packageKind) in ["aril", "binding"]
      modifies this`boundBy, this`goDeps
      ensures err == None ==> Inv() && Extends() && Done(tree, Now(), mod, dir, p)
      ensures err.Some? ==> Stops(tree, root, graph, boundBy, err.value)
    {
      hide Walked, Gathered, Genuine, RequiredOnce, AsDeclared, AllGoverned;
      var sub := ext.manifest.value;
      if EffectiveKind(ext.kind, sub.packageKind) != "binding" || sub.binds == "" { return None; }
      if !sub.boundPresent { return Some(NotPresent(p)); }
      var r := GoRequire(BoundModule(sub), sub.bindsGo, sub.boundDir);
      assert Declares(tree.classify(p, graph[dir].mod), Ident(sub), r);
      err := Register(r, Ident(sub));
    }

    /** resolvePackages: success leaves an acyclic graph, closed under imports, whose files,
        imports and bindings are gathered, all of them and nothing else, with one table for each
        Go module; an error is reported for an import that is at fault, a cycle for a cycle. */
    method ResolvePackages(entry: seq<File>, mod: Option<Mod>) returns (err: Option<Error>)
      requires seenDir == {} && onStack == {} && Inv()
      modifies this
      ensures err == None ==> root in order && (forall d, b :: d in order && Edge(tree, graph, d, b) ==> b in order)
      ensures err == None ==> forall path :: IsPath(tree, graph, path) && path[0] == root ==> !IsCyclic(tree, graph, path)
      ensures err == None ==> forall d :: d in order ==> Reached(tree, graph, root, paths, d)
      ensures err == None ==> forall d :: d in graph <==> d in order
      ensures err == None ==> root in graph && graph[root] == Node(mod, entry) && AllGoverned(tree, root, graph)
      ensures err == None ==> forall d, f, p :: Imported(graph, tree, d, f, p) ==> !Faulty(tree, d, p, graph[d].mod)
      ensures err == None ==> Gathered(tree, graph, Now()) && Genuine(tree, graph, Now())
      ensures err == None ==> IsUnit(tree, graph, files, userImports, boundBy, goDeps) && RequiredOnce(boundBy, goDeps)
      ensures err == None ==> forall i, j :: 0 <= i < j < |files| ==> StringLess(files[i], files[j])
      ensures err.Some? ==> Stops(tree, root, graph, boundBy, err.value)
    {
      hide Gathered, Genuine, RequiredOnce, AsDeclared, AllGoverned, Stops, Faulty;
      err := Visit(root, entry, [], mod);
      if err.Some? { return; }
      GatheredClean(tree, graph, Now());
      GatheredIsUnit(tree, graph, Now(), goDeps);
      forall path | IsPath(tree, graph, path) && path[0] == root ensures !IsCyclic(tree, graph, path) {
        var _ := PathsGoBack(tree, graph, order, path);
      }
      ghost var found := Now();
      files := DedupeSorted(files);
      GatheredMore(tree, graph, found, Now());
      SameFiles(tree, graph, found, Now());
    }
  }
}
