/**
 * `DependenciesHelper`: the object that owns the list of child-project
 * wrappers and rewrites it in place.  Each method follows the loops of the
 * Kotlin class and is proved to leave the graph exactly as the corresponding
 * function of `DependencyRewrite` describes.
 */
module Helper {
  import opened Wrappers
  import opened DependencyModel
  import opened DependencyRewrite
  import opened ParentMap

  /**
   * The innermost loop of `getFirstLevelParentDependencies` (lines 40-48):
   * the first project dependency in `deps` named `child`, if any.
   */
  method FindChildDependency(deps: seq<Dep>, child: string) returns (found: bool, j: nat)
    ensures found ==> j < |deps| && RefersTo(deps[j], child) && forall x :: 0 <= x < j ==> !RefersTo(deps[x], child)
    ensures !found ==> forall x :: 0 <= x < |deps| ==> !RefersTo(deps[x], child)
  {
    j := 0;
    found := false;
    while j < |deps| && !found
      invariant 0 <= j <= |deps|
      invariant forall x :: 0 <= x < j ==> !RefersTo(deps[x], child)
      invariant found ==> j < |deps| && RefersTo(deps[j], child)
      decreases |deps| - j, if found then 0 else 1
    {
      if deps[j].ProjectDep? && deps[j].name == child {
        found := true;   // return@loop: one entry per configuration is enough
      } else {
        j := j + 1;
      }
    }
  }

  /**
   * Lines 37-49 for project `m`: every configuration holding a project
   * dependency named `child` is recorded under `m`, in order.
   */
  method RecordParentConfigs(parents: seq<Parent>, configs: seq<Config>, child: string, m: nat) returns (r: seq<Parent>)
    requires AllBefore(parents, m)
    ensures r == parents + Entry(m, ConfigRefsUpTo(configs, child, |configs|))
  {
    r := parents;
    ghost var refs: seq<nat> := [];
    var k := 0;
    while k < |configs|
      invariant 0 <= k <= |configs|
      invariant refs == ConfigRefsUpTo(configs, child, k)
      invariant r == parents + Entry(m, refs)
    {
      var found, j := FindChildDependency(configs[k].deps, child);
      if found {
        assert ConfigRefsUpTo(configs, child, k + 1) == refs + [k] by {
          ConfigRefsStep(configs, child, k, j);
        }
        assert Record(r, m, k) == parents + Entry(m, refs + [k]) by {
          RecordEntry(parents, m, refs, k);
        }
        r := Record(r, m, k);
        refs := refs + [k];
      } else {
        assert ConfigRefsUpTo(configs, child, k + 1) == refs by {
          ConfigRefsSkip(configs, child, k);
        }
      }
      k := k + 1;
    }
  }

  /** The artifacts of `artifacts` that are aar `DefaultPublishArtifact`s, in order (lines 172-178). */
  method SelectAarArtifacts(artifacts: seq<Artifact>) returns (listArtifact: seq<Artifact>)
    ensures listArtifact == AarArtifacts(artifacts)
  {
    listArtifact := [];
    var i := 0;
    while i < |artifacts|
      invariant 0 <= i <= |artifacts|
      invariant listArtifact == AarArtifacts(artifacts[..i])
    {
      assert artifacts[..i + 1][..i] == artifacts[..i];
      if artifacts[i].isDefaultPublish && artifacts[i].kind == "aar" {
        listArtifact := listArtifact + [artifacts[i]];
      }
      i := i + 1;
    }
    assert artifacts[..i] == artifacts;
  }

  /** Lines 179-184: each aar file is copied into the cache directory and its name, without extension, listed. */
  method CopyAarArtifacts(listArtifact: seq<Artifact>, cache: set<string>) returns (aarList: seq<string>, cacheOut: set<string>)
    ensures cacheOut == CopyFiles(cache, listArtifact) && aarList == ArtifactNames(listArtifact)
  {
    aarList, cacheOut := [], cache;
    var a := 0;
    while a < |listArtifact|
      invariant 0 <= a <= |listArtifact|
      invariant cacheOut == CopyFiles(cache, listArtifact[..a])
      invariant aarList == ArtifactNames(listArtifact[..a])
    {
      assert listArtifact[..a + 1] == listArtifact[..a] + [listArtifact[a]];
      cacheOut := cacheOut + {listArtifact[a].fileName};   // copyTo(File(cacheDir, file.name), true)
      aarList := aarList + [RemoveExtension(listArtifact[a].fileName)];
      a := a + 1;
    }
    assert listArtifact[..a] == listArtifact;
  }

  class DependenciesHelper {
    /** `mProjectDependenciesList`: every child project with its configurations, mutated in place. */
    var projects: Graph
    /** `enableLocalMaven`: `rocketXBean?.localMaven ?: false`. */
    const localMaven: bool

    /** `rocketXLocalMaven` is `rocketXBean?.localMaven`: absent when there is no RocketX extension. */
    constructor (rocketXLocalMaven: Option<bool>, projects: Graph)
      ensures this.projects == projects
      ensures localMaven <==> rocketXLocalMaven == Some(true)
    {
      this.projects := projects;
      localMaven := rocketXLocalMaven == Some(true);
    }

    /**
     * `getFirstLevelParentDependencies`: scans every configuration of every
     * project for a project dependency named `child`, stopping at the first
     * one in each configuration.
     */
    method GetFirstLevelParentDependencies(child: string) returns (parents: seq<Parent>)
      ensures parents == ParentsOf(projects, child)
    {
      parents := [];
      var g := projects;
      var i := 0;
      while i < |g|
        invariant 0 <= i <= |g|
        invariant parents == ParentsUpTo(g, child, i)
      {
        ParentsStep(g, child, i);
        parents := RecordParentConfigs(parents, g[i].configs, child, i);
        i := i + 1;
      }
    }

    /**
     * `getAarByArtifacts`: the aar artifacts of the child's `default`
     * configuration (created if absent) are copied into the cache directory and
     * their file names, without extension, are returned.
     */
    method GetAarByArtifacts(child: nat, cache: set<string>) returns (aarList: seq<string>, cacheOut: set<string>)
      modifies this
      ensures var scan := AarsByArtifacts(old(projects), child, cache);
        projects == scan.graph && aarList == scan.names && cacheOut == scan.cache
    {
      projects := MaybeCreate(projects, child, DefaultConfiguration);
      var artifacts := ArtifactsOf(projects, child, DefaultConfiguration);
      var listArtifact := SelectAarArtifacts(artifacts);
      aarList, cacheOut := CopyAarArtifacts(listArtifact, cache);
    }

    /**
     * `modifyDependencies`: every parent configuration found by the scan loses
     * its project dependency on the child and gets the substitute and the
     * child's own dependencies instead.  `ok` is false when a Gradle call threw
     * (a promoted dependency aimed at a configuration the parent does not have).
     */
    method ModifyDependencies(child: nat, info: ChildInfo, cache: set<string>) returns (ok: bool, cacheOut: set<string>)
      requires child < |projects|
      modifies this
      ensures var out := Modify(old(projects), child, info, localMaven, cache);
        cacheOut == out.cache && (ok <==> out.graph.Some?) && (ok ==> projects == out.graph.value)
    {
      var childName := projects[child].name;
      var parents := GetFirstLevelParentDependencies(childName);
      var aars;
      aars, cacheOut := GetAarByArtifacts(child, cache);
      var env := Env(child, childName, info, localMaven, cacheOut, aars);
      ghost var g0 := projects;
      var i := 0;
      while i < |parents|
        invariant 0 <= i <= |parents|
        invariant RewriteParents(projects, parents, i, env) == RewriteParents(g0, parents, 0, env)
      {
        var p := parents[i].project;
        ok := AddArtifactAarsToApi(p, env);
        if !ok {
          return;
        }
        ok := RewriteParentConfigs(p, parents[i].configs, env);
        if !ok {
          return;
        }
        i := i + 1;
      }
      ok := true;
    }

    /** Lines 77-133: every recorded configuration of parent `p`, in order. */
    method RewriteParentConfigs(p: nat, ks: seq<nat>, env: Env) returns (ok: bool)
      modifies this
      ensures var r := RewriteConfigs(old(projects), p, ks, 0, env);
        (ok <==> r.Some?) && (ok ==> projects == r.value)
    {
      ghost var g0 := projects;
      var c := 0;
      while c < |ks|
        invariant 0 <= c <= |ks|
        invariant RewriteConfigs(projects, p, ks, c, env) == RewriteConfigs(g0, p, ks, 0, env)
      {
        ok := RewriteParentConfig(p, ks[c], env);
        if !ok {
          return;
        }
        c := c + 1;
      }
      ok := true;
    }

    /** Lines 79-132 for one parent configuration: remove the child, add its substitute, promote its dependencies. */
    method RewriteParentConfig(p: nat, k: nat, env: Env) returns (ok: bool)
      modifies this
      ensures var r := RewriteConfig(old(projects), p, k, env);
        (ok <==> r.Some?) && (ok ==> projects == r.value)
    {
      projects := RemoveRefs(projects, p, k, env.childName);
      var substituted := Substitute(projects, p, ConfigName(projects, p, k), env);
      if substituted.None? {
        return false;
      }
      projects := substituted.value;
      ghost var g2 := projects;
      var n := |ConfigsOf(projects, env.child)|;
      var kk := 0;
      while kk < n
        invariant 0 <= kk <= n
        invariant PromoteConfigs(projects, p, env.child, kk, n) == PromoteConfigs(g2, p, env.child, 0, n)
      {
        ok := PromoteChildConfig(p, env.child, kk);
        if !ok {
          return;
        }
        kk := kk + 1;
      }
      ok := true;
    }

    /** Lines 70-75: each artifact aar of the child goes into the parent's `api` configuration. */
    method AddArtifactAarsToApi(p: nat, env: Env) returns (ok: bool)
      modifies this
      ensures var r := AddArtifactAars(old(projects), p, 0, env);
        (ok <==> r.Some?) && (ok ==> projects == r.value)
    {
      ghost var g0 := projects;
      var a := 0;
      while a < |env.aars|
        invariant 0 <= a <= |env.aars|
        invariant AddArtifactAars(projects, p, a, env) == AddArtifactAars(g0, p, 0, env)
      {
        projects := MaybeCreate(projects, p, ApiConfiguration);
        var added := AddAarDependency(projects, env.aars[a], ApiConfiguration, p, env.cache);
        if added.None? {
          return false;
        }
        projects := added.value;
        a := a + 1;
      }
      ok := true;
    }

    /** Lines 111-130 for dependency `j` (value `d`) of child configuration `kk`. */
    method PromoteDependency(p: nat, child: nat, kk: nat, configName: string, deps: seq<Dep>, j: nat) returns (ok: bool)
      requires j < |deps|
      modifies this
      ensures var r := PromoteDep(old(projects), p, child, kk, j, configName, deps[j]);
        (ok <==> r.Some?) && (ok ==> projects == r.value)
      ensures PromoteConfigDeps(old(projects), p, child, kk, configName, deps, j)
           == if ok then PromoteConfigDeps(projects, p, child, kk, configName, deps, j + 1) else None
    {
      var d := deps[j];
      if d.ProjectDep? {
        if d.target.None? {
          projects := SetDep(projects, child, kk, j, ProjectDep(d.name, Some(DefaultConfiguration)));
        }
        var added := AddDep(projects, p, configName, ProjectDep(d.name, None));   // copy() with targetConfiguration = null
        if added.None? {
          return false;
        }
        projects := added.value;
      } else if d.FileSet? {
        // packaged inside the child's own artifact: not promoted
      } else {
        var added := AddDep(projects, p, configName, d);
        if added.None? {
          return false;
        }
        projects := added.value;
      }
      ok := true;
    }

    /** Lines 110-131 for child configuration `kk`: promote each of its dependencies into the parent. */
    method PromoteChildConfig(p: nat, child: nat, kk: nat) returns (ok: bool)
      modifies this
      ensures var r := PromoteConfigDeps(old(projects), p, child, kk, ConfigName(old(projects), child, kk), DepsAt(old(projects), child, kk), 0);
        (ok <==> r.Some?) && (ok ==> projects == r.value)
    {
      var configName := ConfigName(projects, child, kk);
      var deps := DepsAt(projects, child, kk);
      ghost var g0 := projects;
      var j := 0;
      while j < |deps|
        invariant 0 <= j <= |deps|
        invariant PromoteConfigDeps(projects, p, child, kk, configName, deps, j)
               == PromoteConfigDeps(g0, p, child, kk, configName, deps, 0)
      {
        ok := PromoteDependency(p, child, kk, configName, deps, j);
        if !ok {
          return;
        }
        j := j + 1;
      }
      ok := true;
    }
  }
}
