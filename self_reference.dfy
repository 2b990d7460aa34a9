/**
 * `modifyDependencies` never makes a project depend on itself, as long as no
 * project depended on itself before and the child did not depend on one of
 * its own parents (a two-project cycle, which Gradle refuses anyway).
 *
 * The proof follows one module `m` and its name through the rewrite.  The
 * rewrite only writes into the parents (removal, substitute, promoted
 * dependencies) and into the child (defaulted targets), and everything it
 * promotes into a parent comes from the child.  So `m`'s configurations stay
 * free of `m`'s name as long as, whenever `m` is a parent, the child is free of
 * it too: both are followed together as the set `ms`.
 */
module SelfReference {
  import opened Wrappers
  import opened DependencyModel
  import opened DependencyRewrite
  import opened RewriteProperties

  /** No configuration of a module in `ms` depends on `n`. */
  ghost predicate Avoids(g: Graph, ms: set<nat>, n: string) {
    forall m: nat, k: nat :: m in ms && m < |g| && k < |g[m].configs| ==> Clean(g[m].configs[k].deps, n)
  }

  /** A step that only touched configuration `(m, k)`, which still avoids `n` afterwards if `m` is in `ms`. */
  lemma AvoidsOne(g: Graph, g': Graph, m: nat, k: nat, ms: set<nat>, n: string)
    requires SameExcept(g, g', {(m, k)}) && Avoids(g, ms, n)
    requires m in ms && m < |g| && k < |g[m].configs| ==> Clean(g'[m].configs[k].deps, n)
    ensures Avoids(g', ms, n)
  {
    forall m': nat, k': nat | m' in ms && m' < |g'| && k' < |g'[m'].configs|
      ensures Clean(g'[m'].configs[k'].deps, n)
    {
      if (m', k') != (m, k) {
        assert g'[m'].configs[k'].deps == g[m'].configs[k'].deps;
      }
    }
  }

  lemma AddDepAvoids(g: Graph, m: nat, name: string, d: Dep, ms: set<nat>, n: string)
    requires Avoids(g, ms, n) && (m in ms ==> !RefersTo(d, n))
    ensures AddDep(g, m, name, d).Some? ==> Avoids(AddDep(g, m, name, d).value, ms, n)
  {
    var r := AddDep(g, m, name, d);
    if r.Some? {
      var k := FindConfig(g[m].configs, name).value;
      AvoidsOne(g, r.value, m, k, ms, n);
    }
  }

  lemma SetDepAvoids(g: Graph, m: nat, k: nat, j: nat, d: Dep, ms: set<nat>, n: string)
    requires Avoids(g, ms, n) && (m in ms ==> !RefersTo(d, n))
    ensures Avoids(SetDep(g, m, k, j, d), ms, n)
  {
    AvoidsOne(g, SetDep(g, m, k, j, d), m, k, ms, n);
  }

  lemma RemoveRefsAvoids(g: Graph, m: nat, k: nat, child: string, ms: set<nat>, n: string)
    requires Avoids(g, ms, n)
    ensures Avoids(RemoveRefs(g, m, k, child), ms, n)
  {
    var r := RemoveRefs(g, m, k, child);
    if m in ms && m < |g| && k < |g[m].configs| {
      var deps := r[m].configs[k].deps;
      forall i | 0 <= i < |deps| ensures !RefersTo(deps[i], n) {
        assert deps[i] in g[m].configs[k].deps;
      }
    }
    AvoidsOne(g, r, m, k, ms, n);
  }

  lemma MaybeCreateAvoids(g: Graph, m: nat, name: string, ms: set<nat>, n: string)
    requires Avoids(g, ms, n)
    ensures Avoids(MaybeCreate(g, m, name), ms, n)
  {
    var r := MaybeCreate(g, m, name);
    forall m': nat, k': nat | m' in ms && m' < |r| && k' < |r[m'].configs|
      ensures Clean(r[m'].configs[k'].deps, n)
    {
      if k' < |g[m'].configs| {
        assert r[m'].configs[k'] == g[m'].configs[k'];
      }
    }
  }

  // ---- lifted through the loops of the rewrite --------------------------------

  lemma PromoteDepAvoids(g: Graph, p: nat, ci: nat, kk: nat, j: nat, name: string, d: Dep, ms: set<nat>, n: string)
    requires Avoids(g, ms, n) && (p in ms || ci in ms ==> !RefersTo(d, n))
    ensures var r := PromoteDep(g, p, ci, kk, j, name, d);
      r.Some? ==> Avoids(r.value, ms, n)
  {
    match d
    case ProjectDep(x, t) =>
      var g1 := if t.None? then SetDep(g, ci, kk, j, ProjectDep(x, Some(DefaultConfiguration))) else g;
      SetDepAvoids(g, ci, kk, j, ProjectDep(x, Some(DefaultConfiguration)), ms, n);
      AddDepAvoids(g1, p, name, ProjectDep(x, None), ms, n);
    case FileSet(_) =>
    case _ =>
      AddDepAvoids(g, p, name, d, ms, n);
  }

  lemma {:induction false} PromoteConfigDepsAvoids(g: Graph, p: nat, ci: nat, kk: nat, name: string, deps: seq<Dep>, j: nat, ms: set<nat>, n: string)
    requires Avoids(g, ms, n) && (p in ms || ci in ms ==> Clean(deps, n))
    ensures var r := PromoteConfigDeps(g, p, ci, kk, name, deps, j);
      r.Some? ==> Avoids(r.value, ms, n)
    decreases |deps| - j
  {
    if j < |deps| {
      PromoteDepAvoids(g, p, ci, kk, j, name, deps[j], ms, n);
      var step := PromoteDep(g, p, ci, kk, j, name, deps[j]);
      if step.Some? {
        PromoteConfigDepsAvoids(step.value, p, ci, kk, name, deps, j + 1, ms, n);
      }
    }
  }

  lemma {:induction false} PromoteConfigsAvoids(g: Graph, p: nat, ci: nat, kk: nat, c: nat, ms: set<nat>, n: string)
    requires Avoids(g, ms, n) && (p in ms ==> ci in ms)
    ensures var r := PromoteConfigs(g, p, ci, kk, c);
      r.Some? ==> Avoids(r.value, ms, n)
    decreases c - kk
  {
    if kk < c {
      var deps := DepsAt(g, ci, kk);
      PromoteConfigDepsAvoids(g, p, ci, kk, ConfigName(g, ci, kk), deps, 0, ms, n);
      var step := PromoteConfigDeps(g, p, ci, kk, ConfigName(g, ci, kk), deps, 0);
      if step.Some? {
        PromoteConfigsAvoids(step.value, p, ci, kk + 1, c, ms, n);
      }
    }
  }

  lemma SubstituteAvoids(g: Graph, p: nat, name: string, env: Env, ms: set<nat>, n: string)
    requires Avoids(g, ms, n)
    ensures var r := Substitute(g, p, name, env);
      r.Some? ==> Avoids(r.value, ms, n)
  {
    AddDepAvoids(g, p, name, Coord(MavenNotation(env.info, env.info.isAndroid)), ms, n);
    AddDepAvoids(g, p, name, FlatArtifact(env.info.flatName, "aar"), ms, n);
    AddDepAvoids(g, p, name, FlatArtifact(env.info.flatName, "jar"), ms, n);
  }

  lemma RewriteConfigAvoids(g: Graph, p: nat, k: nat, env: Env, ms: set<nat>, n: string)
    requires Avoids(g, ms, n) && (p in ms ==> env.child in ms)
    ensures var r := RewriteConfig(g, p, k, env);
      r.Some? ==> Avoids(r.value, ms, n)
  {
    var g1 := RemoveRefs(g, p, k, env.childName);
    RemoveRefsAvoids(g, p, k, env.childName, ms, n);
    SubstituteAvoids(g1, p, ConfigName(g1, p, k), env, ms, n);
    var sub := Substitute(g1, p, ConfigName(g1, p, k), env);
    if sub.Some? {
      PromoteConfigsAvoids(sub.value, p, env.child, 0, |ConfigsOf(sub.value, env.child)|, ms, n);
    }
  }

  lemma {:induction false} RewriteConfigsAvoids(g: Graph, p: nat, ks: seq<nat>, i: nat, env: Env, ms: set<nat>, n: string)
    requires Avoids(g, ms, n) && (p in ms ==> env.child in ms)
    ensures var r := RewriteConfigs(g, p, ks, i, env);
      r.Some? ==> Avoids(r.value, ms, n)
    decreases |ks| - i
  {
    if i < |ks| {
      RewriteConfigAvoids(g, p, ks[i], env, ms, n);
      var step := RewriteConfig(g, p, ks[i], env);
      if step.Some? {
        RewriteConfigsAvoids(step.value, p, ks, i + 1, env, ms, n);
      }
    }
  }

  lemma {:induction false} AddArtifactAarsAvoids(g: Graph, p: nat, i: nat, env: Env, ms: set<nat>, n: string)
    requires Avoids(g, ms, n)
    ensures var r := AddArtifactAars(g, p, i, env);
      r.Some? ==> Avoids(r.value, ms, n)
    decreases |env.aars| - i
  {
    if i < |env.aars| {
      var g1 := MaybeCreate(g, p, ApiConfiguration);
      MaybeCreateAvoids(g, p, ApiConfiguration, ms, n);
      AddDepAvoids(g1, p, ApiConfiguration, FlatArtifact(env.aars[i], "aar"), ms, n);
      var step := AddAarDependency(g1, env.aars[i], ApiConfiguration, p, env.cache);
      if step.Some? {
        AddArtifactAarsAvoids(step.value, p, i + 1, env, ms, n);
      }
    }
  }

  lemma {:induction false} RewriteParentsAvoids(g: Graph, parents: seq<Parent>, i: nat, env: Env, ms: set<nat>, n: string)
    requires Avoids(g, ms, n)
    requires forall x :: 0 <= x < |parents| && parents[x].project in ms ==> env.child in ms
    ensures var r := RewriteParents(g, parents, i, env);
      r.Some? ==> Avoids(r.value, ms, n)
    decreases |parents| - i
  {
    if i < |parents| {
      var e := parents[i];
      AddArtifactAarsAvoids(g, e.project, 0, env, ms, n);
      var g1 := AddArtifactAars(g, e.project, 0, env);
      if g1.Some? {
        RewriteConfigsAvoids(g1.value, e.project, e.configs, 0, env, ms, n);
        var g2 := RewriteConfigs(g1.value, e.project, e.configs, 0, env);
        if g2.Some? {
          RewriteParentsAvoids(g2.value, parents, i + 1, env, ms, n);
        }
      }
    }
  }

  // ===========================================================================
  // The outcome of modifyDependencies

  /** No project depends on itself. */
  ghost predicate SelfFree(g: Graph) {
    forall m, k :: 0 <= m < |g| && 0 <= k < |g[m].configs| ==> !ConfigRefers(g[m].configs[k], g[m].name)
  }

  /** The child depends on none of the projects that depend on it. */
  ghost predicate NoCycleThrough(g: Graph, child: nat)
    requires child < |g|
  {
    forall m, k, kk ::
      0 <= m < |g| && 0 <= k < |g[m].configs| && 0 <= kk < |g[child].configs| &&
      ConfigRefers(g[m].configs[k], g[child].name)
      ==> !ConfigRefers(g[child].configs[kk], g[m].name)
  }

  /** Module `m` still does not depend on itself after the rewrite. */
  lemma ModifyKeepsModule(g: Graph, child: nat, info: ChildInfo, localMaven: bool, cache: set<string>, m: nat)
    requires child < |g| && m < |g| && SelfFree(g) && NoCycleThrough(g, child)
    ensures var out := Modify(g, child, info, localMaven, cache);
      out.graph.Some? ==> Avoids(out.graph.value, {m}, g[m].name)
  {
    var name := g[child].name;
    var n := g[m].name;
    var parents := ParentsOf(g, name);
    var scan := AarsByArtifacts(g, child, cache);
    var env := Env(child, name, info, localMaven, scan.cache, scan.names);
    var isParent := exists k :: 0 <= k < |g[m].configs| && ConfigRefers(g[m].configs[k], name);
    var ms := if isParent then {m, child} else {m};
    forall m': nat, k: nat | m' in ms && m' < |g| && k < |g[m'].configs|
      ensures Clean(g[m'].configs[k].deps, n)
    {
      if m' == m {
        assert !ConfigRefers(g[m].configs[k], n);
      } else {
        var k0 :| 0 <= k0 < |g[m].configs| && ConfigRefers(g[m].configs[k0], name);
        assert !ConfigRefers(g[child].configs[k], n);
      }
    }
    MaybeCreateAvoids(g, child, DefaultConfiguration, ms, n);
    forall x | 0 <= x < |parents| && parents[x].project == m
      ensures isParent
    {
      ParentsOfExact(g, name, m, parents[x].configs[0]);
      assert parents[x].configs[0] in parents[x].configs;
      assert ConfigRefers(g[m].configs[parents[x].configs[0]], name);
    }
    RewriteParentsAvoids(scan.graph, parents, 0, env, ms, n);
  }

  /**
   * A rewrite that succeeds leaves every project free of dependencies on
   * itself, when no project depended on itself before and the child did not
   * depend on any of its parents.
   */
  lemma ModifyNoSelfReference(g: Graph, child: nat, info: ChildInfo, localMaven: bool, cache: set<string>)
    requires child < |g| && SelfFree(g) && NoCycleThrough(g, child)
    ensures var out := Modify(g, child, info, localMaven, cache);
      out.graph.Some? ==> SelfFree(out.graph.value)
  {
    var out := Modify(g, child, info, localMaven, cache);
    if out.graph.Some? {
      var g' := out.graph.value;
      ModifyRemovesChild(g, child, info, localMaven, cache);
      forall m, k | 0 <= m < |g'| && 0 <= k < |g'[m].configs|
        ensures !ConfigRefers(g'[m].configs[k], g'[m].name)
      {
        ModifyKeepsModule(g, child, info, localMaven, cache, m);
        assert Clean(g'[m].configs[k].deps, g[m].name);
      }
    }
  }

  /** Two projects in a cycle: `p` depends on `c` and `c` on `p`. */
  function CycleGraph(): Graph {
    [Module("p", [Config(DefaultConfiguration, [ProjectDep("c", None)], [])]),
     Module("c", [Config(DefaultConfiguration, [ProjectDep("p", Some(DefaultConfiguration))], [])])]
  }

  /** `p` with its dependency on `c` replaced by one on itself. */
  function CycleResult(): Graph {
    CycleGraph()[0 := CycleGraph()[0].(configs := [Config(DefaultConfiguration, [ProjectDep("p", None)], [])])]
  }

  lemma CycleRewrite(env: Env)
    requires env.child == 1 && env.childName == "c" && env.localMaven && !env.info.isAndroid && !env.info.isJava
    ensures RewriteConfig(CycleGraph(), 0, 0, env) == Some(CycleResult())
  {
    var g := CycleGraph();
    assert |g| == 2 && g[0].configs == [Config(DefaultConfiguration, [ProjectDep("c", None)], [])];
    var g1 := RemoveRefs(g, 0, 0, "c");
    assert Without([ProjectDep("c", None)], "c") == [];
    assert g1[0].configs[0].deps == [];
    assert g[0].configs[0 := g[0].configs[0].(deps := [])] == [Config(DefaultConfiguration, [], [])];
    assert g1 == g[0 := g[0].(configs := [Config(DefaultConfiguration, [], [])])];
    assert FindConfig(g1[0].configs, DefaultConfiguration) == Some(0);
    var c := g1[0].configs[0];
    assert c.(deps := c.deps + [ProjectDep("p", None)]) == Config(DefaultConfiguration, [ProjectDep("p", None)], []);
    var c' := Config(DefaultConfiguration, [ProjectDep("p", None)], []);
    assert g1[0].configs[0 := c'] == [c'];
    assert g1[0].(configs := [c']) == g[0].(configs := [c']);
    assert g1[0 := g[0].(configs := [c'])] == CycleResult();
    assert AddDep(g1, 0, DefaultConfiguration, ProjectDep("p", None)) == Some(CycleResult());
    assert PromoteDep(g1, 0, 1, 0, 0, DefaultConfiguration, ProjectDep("p", Some(DefaultConfiguration))) == Some(CycleResult());
  }

  lemma CycleParents()
    ensures ParentsOf(CycleGraph(), "c") == [Parent(0, [0])]
  {
    var g := CycleGraph();
    assert |g| == 2 && |g[0].configs| == 1 && |g[1].configs| == 1;
    assert RefersTo(g[0].configs[0].deps[0], "c");
    assert !ConfigRefers(g[1].configs[0], "c");
    assert ConfigRefsUpTo(g[0].configs, "c", 0) == [] && ConfigRefsUpTo(g[1].configs, "c", 0) == [];
    assert ConfigRefs(g[0], "c") == [0];
    assert ConfigRefs(g[1], "c") == [];
    assert ParentsUpTo(g, "c", 1) == [Parent(0, [0])];
  }

  lemma CycleFacts()
    ensures SelfFree(CycleGraph()) && !NoCycleThrough(CycleGraph(), 1) && !SelfFree(CycleResult())
  {
    var g := CycleGraph();
    assert RefersTo(g[0].configs[0].deps[0], "c");
    assert RefersTo(g[1].configs[0].deps[0], "p");
    assert RefersTo(CycleResult()[0].configs[0].deps[0], "p");
  }

  lemma CycleScan()
    ensures AarsByArtifacts(CycleGraph(), 1, {}).graph == CycleGraph()
    ensures AarsByArtifacts(CycleGraph(), 1, {}).names == []
  {
    var g := CycleGraph();
    assert FindConfig(g[1].configs, DefaultConfiguration) == Some(0);
    assert ArtifactsOf(g, 1, DefaultConfiguration) == [];
  }

  lemma CycleRewriteParents(env: Env)
    requires env.child == 1 && env.childName == "c" && env.localMaven && !env.info.isAndroid && !env.info.isJava
    requires env.aars == []
    ensures RewriteParents(CycleGraph(), [Parent(0, [0])], 0, env) == Some(CycleResult())
  {
    var g := CycleGraph();
    CycleRewrite(env);
    assert AddArtifactAars(g, 0, 0, env) == Some(g);
    assert RewriteConfigs(g, 0, [0], 0, env) == Some(CycleResult());
    assert RewriteParent(g, Parent(0, [0]), env) == Some(CycleResult());
  }

  /**
   * Without `NoCycleThrough` the promise fails: promoting `c`'s dependencies
   * into `p` gives `p` a dependency on itself.
   */
  lemma CycleGivesSelfReference(info: ChildInfo)
    requires !info.isAndroid && !info.isJava
    ensures var out := Modify(CycleGraph(), 1, info, true, {});
      SelfFree(CycleGraph()) && !NoCycleThrough(CycleGraph(), 1) &&
      out.graph == Some(CycleResult()) && !SelfFree(CycleResult())
  {
    CycleFacts();
    CycleParents();
    CycleScan();
    var scan := AarsByArtifacts(CycleGraph(), 1, {});
    CycleRewriteParents(Env(1, "c", info, true, scan.cache, scan.names));
  }
}
