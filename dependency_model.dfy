/**
 * The dependency graph the plugin rewrites, and the few Gradle operations it
 * performs on it.
 *
 * A `Graph` is the plugin's list of child-project wrappers
 * (`mProjectDependenciesList`): one `Module` per project, each holding its
 * configurations in order.  A project is identified by its position in that
 * list; a configuration by its position in its module.  The dependency kinds
 * are the closed set the rewrite distinguishes: project dependencies, the two
 * kinds of substitute it adds, self-resolving file-collection/file-tree
 * dependencies, and everything else.
 */
module DependencyModel {
  import opened Wrappers

  datatype Dep =
    | ProjectDep(name: string, target: Option<string>)   // DefaultProjectDependency (name, targetConfiguration)
    | FlatArtifact(name: string, ext: string)            // the map notation (name: .., ext: ..)
    | Coord(notation: string)                            // a "group:artifact:version@type" string notation
    | FileSet(path: string)                              // DefaultSelfResolvingDependency over a file collection or file tree
    | Other(id: string)                                  // any other dependency, kept as is

  /** A published artifact of a configuration: whether it is a `DefaultPublishArtifact`, its type and its file's name. */
  datatype Artifact = Artifact(isDefaultPublish: bool, kind: string, fileName: string)

  datatype Config = Config(name: string, deps: seq<Dep>, artifacts: seq<Artifact>)

  datatype Module = Module(name: string, configs: seq<Config>)

  type Graph = seq<Module>

  /** `d is DefaultProjectDependency && d.name == child` */
  predicate RefersTo(d: Dep, child: string) {
    d.ProjectDep? && d.name == child
  }

  /** Some dependency of `c` is a project dependency named `child`. */
  predicate ConfigRefers(c: Config, child: string) {
    exists j :: 0 <= j < |c.deps| && RefersTo(c.deps[j], child)
  }

  lemma ConfigRefersAppend(c: Config, d: Dep, child: string)
    ensures ConfigRefers(c.(deps := c.deps + [d]), child) <==> ConfigRefers(c, child) || RefersTo(d, child)
  {
    var c' := c.(deps := c.deps + [d]);
    if ConfigRefers(c', child) && !RefersTo(d, child) {
      var j :| 0 <= j < |c'.deps| && RefersTo(c'.deps[j], child);
      assert c.deps[j] == c'.deps[j];
    }
    if ConfigRefers(c, child) {
      var j :| 0 <= j < |c.deps| && RefersTo(c.deps[j], child);
      assert c'.deps[j] == c.deps[j];
    }
    if RefersTo(d, child) {
      assert c'.deps[|c.deps|] == d;
    }
  }

  // ---------------------------------------------------------------------------
  // Reading the graph (total: an index the graph does not have reads as empty)

  function ConfigsOf(g: Graph, m: nat): seq<Config> {
    if m < |g| then g[m].configs else []
  }

  function ConfigName(g: Graph, m: nat, k: nat): string {
    if m < |g| && k < |g[m].configs| then g[m].configs[k].name else ""
  }

  function DepsAt(g: Graph, m: nat, k: nat): seq<Dep> {
    if m < |g| && k < |g[m].configs| then g[m].configs[k].deps else []
  }

  /** `configurations.findByName(name)`: the position of the configuration called `name`. */
  function FindConfig(cs: seq<Config>, name: string): (r: Option<nat>)
    ensures r.Some? ==> r.value < |cs| && cs[r.value].name == name
    ensures r.Some? ==> forall k :: 0 <= k < r.value ==> cs[k].name != name
    ensures r.None? <==> forall k :: 0 <= k < |cs| ==> cs[k].name != name
  {
    if cs == [] then None
    else if cs[0].name == name then Some(0)
    else match FindConfig(cs[1..], name)
      case None => None
      case Some(k) => Some(k + 1)
  }

  // ---------------------------------------------------------------------------
  // How a step may change the graph

  /**
   * `g'` has the same modules and configurations as `g`, with the same names
   * and artifacts; only the dependencies of the configurations in `touched`
   * may differ.
   */
  ghost predicate SameExcept(g: Graph, g': Graph, touched: set<(nat, nat)>) {
    |g'| == |g| &&
    forall m :: 0 <= m < |g| ==>
      g'[m].name == g[m].name && |g'[m].configs| == |g[m].configs| &&
      forall k :: 0 <= k < |g[m].configs| ==>
        g'[m].configs[k].name == g[m].configs[k].name &&
        g'[m].configs[k].artifacts == g[m].configs[k].artifacts &&
        ((m, k) !in touched ==> g'[m].configs[k].deps == g[m].configs[k].deps)
  }

  lemma SameExceptTrans(g1: Graph, g2: Graph, g3: Graph, a: set<(nat, nat)>, b: set<(nat, nat)>)
    requires SameExcept(g1, g2, a) && SameExcept(g2, g3, b)
    ensures SameExcept(g1, g3, a + b)
  {
  }

  /**
   * `g'` keeps every module and configuration of `g` in place under the same
   * name and with the same artifacts; configurations may only be appended.
   */
  ghost predicate Grows(g: Graph, g': Graph) {
    |g'| == |g| &&
    forall m :: 0 <= m < |g| ==>
      g'[m].name == g[m].name && |g[m].configs| <= |g'[m].configs| &&
      forall k :: 0 <= k < |g[m].configs| ==>
        g'[m].configs[k].name == g[m].configs[k].name &&
        g'[m].configs[k].artifacts == g[m].configs[k].artifacts
  }

  lemma SameExceptGrows(g: Graph, g': Graph, touched: set<(nat, nat)>)
    requires SameExcept(g, g', touched)
    ensures Grows(g, g')
  {
  }

  lemma GrowsTrans(g1: Graph, g2: Graph, g3: Graph)
    requires Grows(g1, g2) && Grows(g2, g3)
    ensures Grows(g1, g3)
  {
  }

  // ---------------------------------------------------------------------------
  // Gradle operations on the graph

  /** Replaces configuration `k` of module `m` (no change at an index the graph does not have). */
  function PutConfig(g: Graph, m: nat, k: nat, c: Config): Graph {
    if m < |g| && k < |g[m].configs| then g[m := g[m].(configs := g[m].configs[k := c])] else g
  }

  /**
   * `project.dependencies.add(name, d)`: appends `d` to the configuration
   * called `name`.  Gradle throws (UnknownConfigurationException) when the
   * project has no such configuration; that is `None`.
   */
  function AddDep(g: Graph, m: nat, name: string, d: Dep): (r: Option<Graph>)
    ensures r.Some? <==> m < |g| && FindConfig(g[m].configs, name).Some?
    ensures r.Some? ==>
      var k := FindConfig(g[m].configs, name).value;
      SameExcept(g, r.value, {(m, k)}) && r.value[m].configs[k].deps == g[m].configs[k].deps + [d]
  {
    if m < |g| then
      match FindConfig(g[m].configs, name)
      case None => None
      case Some(k) =>
        var c := g[m].configs[k];
        Some(PutConfig(g, m, k, c.(deps := c.deps + [d])))
    else None
  }

  /** `deps` without the project dependencies named `child`, in order. */
  function Without(deps: seq<Dep>, child: string): (r: seq<Dep>)
    ensures forall d :: d in r <==> d in deps && !RefersTo(d, child)
    ensures |r| <= |deps|
  {
    if deps == [] then []
    else if RefersTo(deps[0], child) then Without(deps[1..], child)
    else [deps[0]] + Without(deps[1..], child)
  }

  /** `config.dependencies.removeAll { it is DefaultProjectDependency && it.name == child }` */
  function RemoveRefs(g: Graph, m: nat, k: nat, child: string): (r: Graph)
    ensures SameExcept(g, r, {(m, k)})
    ensures m < |g| && k < |g[m].configs| ==> r[m].configs[k].deps == Without(g[m].configs[k].deps, child)
  {
    if m < |g| && k < |g[m].configs| then
      var c := g[m].configs[k];
      PutConfig(g, m, k, c.(deps := Without(c.deps, child)))
    else g
  }

  /** Replaces dependency `j` of configuration `k` of module `m` (the in-place `targetConfiguration` assignment). */
  function SetDep(g: Graph, m: nat, k: nat, j: nat, d: Dep): (r: Graph)
    ensures SameExcept(g, r, {(m, k)})
    ensures m < |g| && k < |g[m].configs| && j < |g[m].configs[k].deps| ==>
      r[m].configs[k].deps == g[m].configs[k].deps[j := d]
  {
    if m < |g| && k < |g[m].configs| && j < |g[m].configs[k].deps| then
      var c := g[m].configs[k];
      PutConfig(g, m, k, c.(deps := c.deps[j := d]))
    else g
  }

  /** `configurations.maybeCreate(name)`: adds an empty configuration `name` unless there is one. */
  function MaybeCreate(g: Graph, m: nat, name: string): (r: Graph)
    ensures Grows(g, r)
    ensures m < |g| ==> FindConfig(r[m].configs, name).Some?
    ensures m < |g| && FindConfig(g[m].configs, name).Some? ==> r == g
    ensures m < |g| && FindConfig(g[m].configs, name).None? ==>
      r == g[m := g[m].(configs := g[m].configs + [Config(name, [], [])])]
  {
    if m < |g| && FindConfig(g[m].configs, name).None? then
      var r := g[m := g[m].(configs := g[m].configs + [Config(name, [], [])])];
      assert r[m].configs[|g[m].configs|].name == name;
      r
    else g
  }
}
