/**
 * What `DependenciesHelper` does to the dependency graph, as functions of the
 * graph it starts from: the first-level parent scan and the rewrite of every
 * parent configuration that depends on a changed child project (remove the
 * project dependency, add the prebuilt substitute, promote the child's own
 * dependencies).  The imperative class in `dependencies_helper.dfy` is proved
 * to compute exactly these functions; the lemmas here state what they mean.
 *
 * The helpers the source calls but does not show (`hasAndroidPlugin`,
 * `hasJavaPlugin`, `getFlatAarName`, `getMavenGroupId`, `getMavenArtifactId`)
 * arrive as the fields of `ChildInfo`; the local cache directory is the set of
 * file names present in it.
 */
module DependencyRewrite {
  import opened Wrappers
  import opened KotlinStrings
  import opened DependencyModel

  // ===========================================================================
  // getFirstLevelParentDependencies

  /** One entry of the ordered parent map: a parent module and its configurations that depend on the child. */
  datatype Parent = Parent(project: nat, configs: seq<nat>)

  predicate Increasing(s: seq<nat>) {
    forall i, j :: 0 <= i < j < |s| ==> s[i] < s[j]
  }

  /** `r` lists, in increasing order, exactly the positions below `n` of configurations that depend on `child`. */
  ghost predicate RefsExact(cs: seq<Config>, child: string, n: nat, r: seq<nat>)
    requires n <= |cs|
  {
    Increasing(r) &&
    (forall x :: x in r ==> x < n) &&
    (forall x: nat :: x in r <==> x < n && ConfigRefers(cs[x], child))
  }

  /** The positions, among the first `n` configurations, of those that depend on `child`, in scan order. */
  function ConfigRefsUpTo(cs: seq<Config>, child: string, n: nat): seq<nat>
    requires n <= |cs|
  {
    if n == 0 then []
    else ConfigRefsUpTo(cs, child, n - 1) + (if ConfigRefers(cs[n - 1], child) then [n - 1] else [])
  }

  lemma {:induction false} ConfigRefsUpToExact(cs: seq<Config>, child: string, n: nat)
    requires n <= |cs|
    ensures RefsExact(cs, child, n, ConfigRefsUpTo(cs, child, n))
  {
    if n > 0 {
      ConfigRefsUpToExact(cs, child, n - 1);
      var prev := ConfigRefsUpTo(cs, child, n - 1);
      var r := ConfigRefsUpTo(cs, child, n);
      if ConfigRefers(cs[n - 1], child) {
        assert r == prev + [n - 1];
        forall i, j | 0 <= i < j < |r|
          ensures r[i] < r[j]
        {
          if j == |prev| {
            assert prev[i] in prev;
          }
        }
      } else {
        assert r == prev;
      }
    }
  }

  function ConfigRefs(m: Module, child: string): seq<nat> {
    ConfigRefsUpTo(m.configs, child, |m.configs|)
  }

  /**
   * `r` has one entry for each of the first `n` modules that has a configuration
   * depending on `child`, in module order, listing those configurations.
   */
  ghost predicate ParentsExact(g: Graph, child: string, n: nat, r: seq<Parent>)
    requires n <= |g|
  {
    (forall i :: 0 <= i < |r| ==> r[i].project < n && r[i].configs == ConfigRefs(g[r[i].project], child)) &&
    (forall i, j :: 0 <= i < j < |r| ==> r[i].project < r[j].project) &&
    (forall i :: 0 <= i < |r| ==> r[i].configs != [])
  }

  /** The parent map built from the first `n` modules. */
  function ParentsUpTo(g: Graph, child: string, n: nat): (r: seq<Parent>)
    requires n <= |g|
    ensures ParentsExact(g, child, n, r)
  {
    if n == 0 then []
    else
      var refs := ConfigRefs(g[n - 1], child);
      var prev := ParentsUpTo(g, child, n - 1);
      var r := prev + (if refs == [] then [] else [Parent(n - 1, refs)]);
      r
  }

  /** The ordered parent map `getFirstLevelParentDependencies(child)` returns. */
  function ParentsOf(g: Graph, child: string): (r: seq<Parent>)
    ensures ParentsExact(g, child, |g|, r)
  {
    ParentsUpTo(g, child, |g|)
  }

  /** `parentProjectList.get(m)?.add(k) ?: put(m, [k])` on an insertion-ordered map. */
  function Record(ps: seq<Parent>, m: nat, k: nat): seq<Parent> {
    if ps == [] then [Parent(m, [k])]
    else if ps[0].project == m then [ps[0].(configs := ps[0].configs + [k])] + ps[1..]
    else [ps[0]] + Record(ps[1..], m, k)
  }

  // ===========================================================================
  // modifyDependencies

  const DefaultConfiguration := "default"
  const ApiConfiguration := "api"
  const LocalMavenVersion := "1.0"

  /** What the source learns about the child from helpers this model does not include. */
  datatype ChildInfo = ChildInfo(
    isAndroid: bool,        // hasAndroidPlugin(child)
    isJava: bool,           // hasJavaPlugin(child)
    flatName: string,       // getFlatAarName(child)
    groupId: string,        // child.getMavenGroupId()
    artifactId: string)     // child.getMavenArtifactId()

  /** Everything one `modifyDependencies` call holds fixed while it walks the parents. */
  datatype Env = Env(
    child: nat,             // position of the child in the graph
    childName: string,
    info: ChildInfo,
    localMaven: bool,       // enableLocalMaven
    cache: set<string>,     // names of the files in the local cache directory
    aars: seq<string>)      // getAarByArtifacts(child)

  // ---- file names and notations -------------------------------------------------

  /** `filename` up to its last `.`, or all of it when it has none. */
  function RemoveExtension(filename: string): (r: string)
    ensures '.' !in filename ==> r == filename
    ensures '.' in filename ==>
      |r| < |filename| && filename[..|r|] == r && filename[|r|] == '.' && '.' !in filename[|r| + 1..]
  {
    var index := LastIndexOf(filename, '.');
    if index == -1 then filename else filename[..index]
  }

  function AarFile(name: string): string { name + ".aar" }

  function JarFile(name: string): string { name + ".jar" }

  /** The local-maven coordinate of the child: `group:artifact:1.0@aar` or `...@jar`. */
  function MavenNotation(info: ChildInfo, isAndroid: bool): (r: string)
    ensures |info.groupId| < |r| && r[..|info.groupId|] == info.groupId && r[|info.groupId|] == ':'
    ensures |r| >= 4 && r[|r| - 4..] == (if isAndroid then "@aar" else "@jar")
  {
    info.groupId + ":" + info.artifactId + ":" + LocalMavenVersion + "@" + (if isAndroid then "aar" else "jar")
  }

  // ---- getAarByArtifacts --------------------------------------------------------

  predicate IsAarArtifact(a: Artifact) {
    a.isDefaultPublish && a.kind == "aar"
  }

  /** The artifacts of the default configuration that are `DefaultPublishArtifact`s of type aar, in order. */
  function AarArtifacts(arts: seq<Artifact>): (r: seq<Artifact>)
    ensures forall a :: a in r <==> a in arts && IsAarArtifact(a)
  {
    if arts == [] then []
    else
      var last := arts[|arts| - 1];
      var prev := AarArtifacts(arts[..|arts| - 1]);
      assert arts == arts[..|arts| - 1] + [last];
      prev + (if IsAarArtifact(last) then [last] else [])
  }

  /** The cache after copying each artifact's file into it under the file's own name. */
  function CopyFiles(cache: set<string>, arts: seq<Artifact>): set<string> {
    cache + set a | a in arts :: a.fileName
  }

  /** The artifacts' file names without extension, in order. */
  function ArtifactNames(arts: seq<Artifact>): (r: seq<string>) {
    seq(|arts|, i requires 0 <= i < |arts| => RemoveExtension(arts[i].fileName))
  }

  /** The artifacts of configuration `name` of module `m`, or none. */
  function ArtifactsOf(g: Graph, m: nat, name: string): seq<Artifact> {
    if m < |g| then
      match FindConfig(g[m].configs, name)
      case None => []
      case Some(k) => g[m].configs[k].artifacts
    else []
  }

  datatype AarScan = AarScan(graph: Graph, names: seq<string>, cache: set<string>)

  /**
   * `getAarByArtifacts(child)`: creates the child's `default` configuration if
   * needed, copies its aar artifacts into the cache and lists their names
   * without extension.
   */
  function AarsByArtifacts(g: Graph, child: nat, cache: set<string>): (r: AarScan)
    ensures r.graph == MaybeCreate(g, child, DefaultConfiguration)
    ensures Grows(g, r.graph)
  {
    var g1 := MaybeCreate(g, child, DefaultConfiguration);
    var aars := AarArtifacts(ArtifactsOf(g1, child, DefaultConfiguration));
    AarScan(g1, ArtifactNames(aars), CopyFiles(cache, aars))
  }

  // ---- the substitute -------------------------------------------------------------

  /** `addAarDependencyToProject`: `(name: aarName, ext: aar)`, only if the cached file exists. */
  function AddAarDependency(g: Graph, aarName: string, configName: string, p: nat, cache: set<string>): (r: Option<Graph>)
    ensures AarFile(aarName) !in cache ==> r == Some(g)
    ensures AarFile(aarName) in cache ==> (r.Some? <==> p < |g| && FindConfig(g[p].configs, configName).Some?)
    ensures r.Some? && AarFile(aarName) in cache ==>
      var k := FindConfig(g[p].configs, configName).value;
      SameExcept(g, r.value, {(p, k)}) && r.value[p].configs[k].deps == g[p].configs[k].deps + [FlatArtifact(aarName, "aar")]
  {
    if AarFile(aarName) !in cache then Some(g) else AddDep(g, p, configName, FlatArtifact(aarName, "aar"))
  }

  /** `addJarDependencyToProject`: `(name: jarName, ext: jar)`, only if the cached file exists. */
  function AddJarDependency(g: Graph, jarName: string, configName: string, p: nat, cache: set<string>): (r: Option<Graph>)
    ensures JarFile(jarName) !in cache ==> r == Some(g)
    ensures JarFile(jarName) in cache ==> (r.Some? <==> p < |g| && FindConfig(g[p].configs, configName).Some?)
    ensures r.Some? && JarFile(jarName) in cache ==>
      var k := FindConfig(g[p].configs, configName).value;
      SameExcept(g, r.value, {(p, k)}) && r.value[p].configs[k].deps == g[p].configs[k].deps + [FlatArtifact(jarName, "jar")]
  {
    if JarFile(jarName) !in cache then Some(g) else AddDep(g, p, configName, FlatArtifact(jarName, "jar"))
  }

  /** `addMavenDependencyToProject` */
  function AddMavenDependency(g: Graph, info: ChildInfo, configName: string, p: nat, isAndroid: bool): (r: Option<Graph>)
    ensures r.Some? <==> p < |g| && FindConfig(g[p].configs, configName).Some?
    ensures r.Some? ==>
      var k := FindConfig(g[p].configs, configName).value;
      SameExcept(g, r.value, {(p, k)}) && r.value[p].configs[k].deps == g[p].configs[k].deps + [Coord(MavenNotation(info, isAndroid))]
  {
    AddDep(g, p, configName, Coord(MavenNotation(info, isAndroid)))
  }

  /** Lines 85-106: the edge that replaces the child in parent configuration `configName`. */
  function Substitute(g: Graph, p: nat, configName: string, env: Env): (r: Option<Graph>)
    ensures r.None? ==> p >= |g| || FindConfig(g[p].configs, configName).None?
    ensures r.Some? ==> |r.value| == |g|
    ensures env.localMaven && !env.info.isAndroid && !env.info.isJava ==> r == Some(g)
  {
    if env.localMaven then
      if env.info.isAndroid || env.info.isJava then
        AddMavenDependency(g, env.info, configName, p, env.info.isAndroid)
      else Some(g)
    else if env.info.isAndroid || |env.aars| > 0 then
      AddAarDependency(g, env.info.flatName, configName, p, env.cache)
    else
      AddJarDependency(g, env.info.flatName, configName, p, env.cache)
  }

  // ---- promotion ---------------------------------------------------------------------

  /** Lines 112-114: a project dependency without target configuration gets `default`. */
  function DefaultTarget(d: Dep): (r: Dep)
    ensures r.ProjectDep? <==> d.ProjectDep?
    ensures d.ProjectDep? ==> r.name == d.name && r.target.Some?
    ensures d.ProjectDep? && d.target.Some? ==> r == d
    ensures d.ProjectDep? && d.target.None? ==> r.target == Some(DefaultConfiguration)
    ensures !d.ProjectDep? ==> r == d
  {
    if d.ProjectDep? && d.target.None? then d.(target := Some(DefaultConfiguration)) else d
  }

  /**
   * Lines 110-130 for dependency `j` (value `d`) of child configuration `kk`:
   * a project dependency gets its target defaulted in the child and a clone
   * without target is added to the parent; a file-collection or file-tree
   * dependency is skipped; anything else is added to the parent as it is.
   */
  function PromoteDep(g: Graph, p: nat, child: nat, kk: nat, j: nat, configName: string, d: Dep): (r: Option<Graph>)
    ensures d.FileSet? ==> r == Some(g)
    ensures r.Some? ==> |r.value| == |g|
  {
    match d
    case ProjectDep(n, t) =>
      var g1 := if t.None? then SetDep(g, child, kk, j, ProjectDep(n, Some(DefaultConfiguration))) else g;
      AddDep(g1, p, configName, ProjectDep(n, None))
    case FileSet(_) => Some(g)
    case _ => AddDep(g, p, configName, d)
  }

  /** The inner loop over `childConfig.dependencies`, from position `j` on. */
  function PromoteConfigDeps(g: Graph, p: nat, child: nat, kk: nat, configName: string, deps: seq<Dep>, j: nat): (r: Option<Graph>)
    ensures r.Some? ==> |r.value| == |g|
    ensures (forall x :: j <= x < |deps| ==> deps[x].FileSet?) ==> r == Some(g)
    decreases |deps| - j
  {
    if j >= |deps| then Some(g)
    else match PromoteDep(g, p, child, kk, j, configName, deps[j])
      case None => None
      case Some(g1) => PromoteConfigDeps(g1, p, child, kk, configName, deps, j + 1)
  }

  /** The loop over `projectWapper.allConfigList`, from configuration `kk` of `n` on. */
  function PromoteConfigs(g: Graph, p: nat, child: nat, kk: nat, n: nat): (r: Option<Graph>)
    ensures r.Some? ==> |r.value| == |g|
    decreases n - kk
  {
    if kk >= n then Some(g)
    else match PromoteConfigDeps(g, p, child, kk, ConfigName(g, child, kk), DepsAt(g, child, kk), 0)
      case None => None
      case Some(g1) => PromoteConfigs(g1, p, child, kk + 1, n)
  }

  // ---- the parent loops ------------------------------------------------------------------

  /** Lines 79-132 for parent configuration `k` of module `p`: remove, substitute, promote. */
  function RewriteConfig(g: Graph, p: nat, k: nat, env: Env): (r: Option<Graph>)
    ensures r.Some? ==> |r.value| == |g|
  {
    var g1 := RemoveRefs(g, p, k, env.childName);
    match Substitute(g1, p, ConfigName(g1, p, k), env)
    case None => None
    case Some(g2) => PromoteConfigs(g2, p, env.child, 0, |ConfigsOf(g2, env.child)|)
  }

  /** The loop over `parentProject.value`, from entry `i` on. */
  function RewriteConfigs(g: Graph, p: nat, ks: seq<nat>, i: nat, env: Env): (r: Option<Graph>)
    ensures r.Some? ==> |r.value| == |g|
    decreases |ks| - i
  {
    if i >= |ks| then Some(g)
    else match RewriteConfig(g, p, ks[i], env)
      case None => None
      case Some(g1) => RewriteConfigs(g1, p, ks, i + 1, env)
  }

  /** Lines 70-75: every artifact aar goes into the parent's `api` configuration, created if absent. */
  function AddArtifactAars(g: Graph, p: nat, i: nat, env: Env): (r: Option<Graph>)
    ensures r.Some? ==> |r.value| == |g|
    decreases |env.aars| - i
  {
    if i >= |env.aars| then Some(g)
    else
      var g1 := MaybeCreate(g, p, ApiConfiguration);
      match AddAarDependency(g1, env.aars[i], ApiConfiguration, p, env.cache)
      case None => None
      case Some(g2) => AddArtifactAars(g2, p, i + 1, env)
  }

  function RewriteParent(g: Graph, parent: Parent, env: Env): (r: Option<Graph>)
    ensures r.Some? ==> |r.value| == |g|
  {
    match AddArtifactAars(g, parent.project, 0, env)
    case None => None
    case Some(g1) => RewriteConfigs(g1, parent.project, parent.configs, 0, env)
  }

  /** The loop over the parent map, from entry `i` on. */
  function RewriteParents(g: Graph, parents: seq<Parent>, i: nat, env: Env): (r: Option<Graph>)
    ensures r.Some? ==> |r.value| == |g|
    decreases |parents| - i
  {
    if i >= |parents| then Some(g)
    else match RewriteParent(g, parents[i], env)
      case None => None
      case Some(g1) => RewriteParents(g1, parents, i + 1, env)
  }

  /** The graph after the call (`None` when a Gradle call threw) and the cache directory after it. */
  datatype Outcome = Outcome(graph: Option<Graph>, cache: set<string>)

  /** `modifyDependencies` for the child at position `child`. */
  function Modify(g: Graph, child: nat, info: ChildInfo, localMaven: bool, cache: set<string>): (r: Outcome)
    requires child < |g|
    ensures r.graph.Some? ==> |r.graph.value| == |g|
    ensures cache <= r.cache
    ensures ParentsOf(g, g[child].name) == [] ==> r.graph == Some(MaybeCreate(g, child, DefaultConfiguration))
  {
    var parents := ParentsOf(g, g[child].name);
    var scan := AarsByArtifacts(g, child, cache);
    var env := Env(child, g[child].name, info, localMaven, scan.cache, scan.names);
    Outcome(RewriteParents(scan.graph, parents, 0, env), scan.cache)
  }
}

/** Facts about the parent map, used by the imperative scan. */
module ParentMap {
  import opened DependencyModel
  import opened DependencyRewrite

  /** Every entry of `ps` is for a project before `m`. */
  predicate AllBefore(ps: seq<Parent>, m: nat) {
    forall i :: 0 <= i < |ps| ==> ps[i].project < m
  }

  /** The entry a project gets in the map from its referring configurations (none when there are none). */
  function Entry(m: nat, refs: seq<nat>): seq<Parent> {
    if refs == [] then [] else [Parent(m, refs)]
  }

  /** One more project of the scan. */
  lemma ParentsStep(g: Graph, child: string, n: nat)
    requires n < |g|
    ensures AllBefore(ParentsUpTo(g, child, n), n)
    ensures ParentsUpTo(g, child, n + 1) == ParentsUpTo(g, child, n) + Entry(n, ConfigRefsUpTo(g[n].configs, child, |g[n].configs|))
  {
  }

  /** A configuration with a matching dependency at `j` is recorded. */
  lemma ConfigRefsStep(cs: seq<Config>, child: string, k: nat, j: nat)
    requires k < |cs| && j < |cs[k].deps| && RefersTo(cs[k].deps[j], child)
    ensures ConfigRefsUpTo(cs, child, k + 1) == ConfigRefsUpTo(cs, child, k) + [k]
  {
  }

  /** A configuration with no matching dependency is not. */
  lemma ConfigRefsSkip(cs: seq<Config>, child: string, k: nat)
    requires k < |cs| && forall x :: 0 <= x < |cs[k].deps| ==> !RefersTo(cs[k].deps[x], child)
    ensures ConfigRefsUpTo(cs, child, k + 1) == ConfigRefsUpTo(cs, child, k)
  {
  }

  /** Recording configuration `k` of the last project scanned extends (or creates) that project's entry. */
  lemma RecordEntry(ps: seq<Parent>, m: nat, refs: seq<nat>, k: nat)
    requires AllBefore(ps, m)
    ensures Record(ps + Entry(m, refs), m, k) == ps + Entry(m, refs + [k])
  {
    if refs == [] {
      RecordNew(ps, m, k);
      assert ps + [] == ps && refs + [k] == [k];
    } else {
      RecordLast(ps, m, refs, k);
    }
  }

  /** Recording a configuration of a parent not yet in the map appends a new entry at the end. */
  lemma {:induction false} RecordNew(ps: seq<Parent>, m: nat, k: nat)
    requires AllBefore(ps, m)
    ensures Record(ps, m, k) == ps + [Parent(m, [k])]
  {
    if ps != [] {
      RecordNew(ps[1..], m, k);
      assert [ps[0]] + ps[1..] == ps;
    }
  }

  /** Recording a configuration of the parent in the last entry extends that entry. */
  lemma {:induction false} RecordLast(ps: seq<Parent>, m: nat, cs: seq<nat>, k: nat)
    requires AllBefore(ps, m)
    ensures Record(ps + [Parent(m, cs)], m, k) == ps + [Parent(m, cs + [k])]
  {
    if ps == [] {
    } else {
      RecordLast(ps[1..], m, cs, k);
      assert (ps + [Parent(m, cs)])[1..] == ps[1..] + [Parent(m, cs)];
      assert [ps[0]] + (ps[1..] + [Parent(m, cs + [k])]) == ps + [Parent(m, cs + [k])];
    }
  }
}
