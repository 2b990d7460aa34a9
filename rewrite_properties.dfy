/**
 * What `modifyDependencies` achieves, proved about the functions of
 * `DependencyRewrite`:
 *  - the parent scan finds exactly the configurations that depend on the child;
 *  - after a successful rewrite no configuration depends on the child any more,
 *    and a second rewrite of the same child changes nothing;
 *  - each parent configuration receives the substitute the mode calls for, and
 *    the child's own dependencies with file collections dropped and targets cleared;
 *  - the aar artifacts of the child are copied under their own names and
 *    always pass the cache check.
 */
module RewriteProperties {
  import opened Wrappers
  import opened KotlinStrings
  import opened DependencyModel
  import opened DependencyRewrite
  import opened ParentMap

  // ===========================================================================
  // The parent scan

  /** Configuration `k` of project `m` is listed under `m` in the parent map `ps`. */
  predicate Listed(ps: seq<Parent>, m: nat, k: nat) {
    exists i :: 0 <= i < |ps| && ps[i].project == m && k in ps[i].configs
  }

  /** A project with a configuration depending on `child` has an entry in the map; `i` is its position. */
  lemma {:induction false} ParentsUpToHasEntry(g: Graph, child: string, n: nat, m: nat) returns (i: nat)
    requires m < n <= |g| && ConfigRefs(g[m], child) != []
    ensures i < |ParentsUpTo(g, child, n)| && ParentsUpTo(g, child, n)[i].project == m
  {
    var prev := ParentsUpTo(g, child, n - 1);
    var refs := ConfigRefs(g[n - 1], child);
    assert ParentsUpTo(g, child, n) == prev + (if refs == [] then [] else [Parent(n - 1, refs)]);
    if m == n - 1 {
      i := |prev|;
    } else {
      i := ParentsUpToHasEntry(g, child, n - 1, m);
    }
  }

  /**
   * `getFirstLevelParentDependencies` lists configuration `k` of project `m`
   * exactly when that configuration has a project dependency on `child`; each
   * parent has one entry, in project order, with its configurations in order.
   */
  lemma ParentsOfExact(g: Graph, child: string, m: nat, k: nat)
    ensures Listed(ParentsOf(g, child), m, k) <==>
      m < |g| && k < |g[m].configs| && ConfigRefers(g[m].configs[k], child)
    ensures var ps := ParentsOf(g, child);
      (forall i, j :: 0 <= i < j < |ps| ==> ps[i].project < ps[j].project) &&
      (forall i :: 0 <= i < |ps| ==> ps[i].project < |g| && ps[i].configs != [] && Increasing(ps[i].configs))
  {
    var ps := ParentsOf(g, child);
    forall i | 0 <= i < |ps|
      ensures Increasing(ps[i].configs)
    {
      ConfigRefsUpToExact(g[ps[i].project].configs, child, |g[ps[i].project].configs|);
    }
    if Listed(ps, m, k) {
      var i :| 0 <= i < |ps| && ps[i].project == m && k in ps[i].configs;
      ConfigRefsUpToExact(g[m].configs, child, |g[m].configs|);
    }
    if m < |g| && k < |g[m].configs| && ConfigRefers(g[m].configs[k], child) {
      ConfigRefsUpToExact(g[m].configs, child, |g[m].configs|);
      assert k in ConfigRefs(g[m], child);
      var i := ParentsUpToHasEntry(g, child, |g|, m);
      assert k in ps[i].configs;
    }
  }

  /** A parent map with no entry: nothing depends on `child`. */
  lemma NoParents(g: Graph, child: string)
    requires forall m, k :: 0 <= m < |g| && 0 <= k < |g[m].configs| ==> !ConfigRefers(g[m].configs[k], child)
    ensures ParentsOf(g, child) == []
  {
    var ps := ParentsOf(g, child);
    if ps != [] {
      ParentsOfExact(g, child, ps[0].project, ps[0].configs[0]);
    }
  }

  // ===========================================================================
  // Where references to the child can still be

  /** Every configuration that depends on `child` is at a position in `s`. */
  ghost predicate RefsWithin(g: Graph, child: string, s: set<(nat, nat)>) {
    forall m: nat, k: nat :: m < |g| && k < |g[m].configs| && ConfigRefers(g[m].configs[k], child) ==> (m, k) in s
  }

  /** No position in `s` belongs to module `m`. */
  predicate Outside(s: set<(nat, nat)>, m: nat) {
    forall x :: x in s ==> x.0 != m
  }

  /** The positions of configurations `ks` of module `p`. */
  function Pairs(p: nat, ks: seq<nat>): set<(nat, nat)> {
    set k | k in ks :: (p, k)
  }

  lemma PairsStep(p: nat, ks: seq<nat>, i: nat, s: set<(nat, nat)>)
    requires i < |ks|
    ensures (s - {(p, ks[i])}) - Pairs(p, ks[i + 1..]) == s - Pairs(p, ks[i..])
  {
    assert ks[i..] == [ks[i]] + ks[i + 1..];
    assert Pairs(p, ks[i..]) == {(p, ks[i])} + Pairs(p, ks[i + 1..]);
  }

  /** The positions the parent map lists. */
  function ParentPairs(ps: seq<Parent>): set<(nat, nat)> {
    if ps == [] then {} else Pairs(ps[0].project, ps[0].configs) + ParentPairs(ps[1..])
  }

  lemma {:induction false} ParentPairsListed(ps: seq<Parent>, m: nat, k: nat)
    ensures (m, k) in ParentPairs(ps) <==> Listed(ps, m, k)
  {
    if ps != [] {
      ParentPairsListed(ps[1..], m, k);
      if Listed(ps[1..], m, k) {
        var i :| 0 <= i < |ps[1..]| && ps[1..][i].project == m && k in ps[1..][i].configs;
        assert ps[i + 1] == ps[1..][i];
      }
      if Listed(ps, m, k) {
        var i :| 0 <= i < |ps| && ps[i].project == m && k in ps[i].configs;
        if i > 0 {
          assert ps[1..][i - 1] == ps[i];
        }
      }
    }
  }

  /** Dependencies that never name `child`. */
  predicate Clean(deps: seq<Dep>, child: string) {
    forall i :: 0 <= i < |deps| ==> !RefersTo(deps[i], child)
  }

  lemma ConfigRefersExtended(c: Config, c': Config, extra: seq<Dep>, child: string)
    requires c'.deps == c.deps + extra && Clean(extra, child)
    ensures ConfigRefers(c', child) ==> ConfigRefers(c, child)
  {
    if ConfigRefers(c', child) {
      var j :| 0 <= j < |c'.deps| && RefersTo(c'.deps[j], child);
      if j < |c.deps| {
        assert c.deps[j] == c'.deps[j];
      }
    }
  }

  /** A step that only touched configuration `(m, k)`, which does not depend on `child` afterwards unless it is in `s`. */
  lemma RefsWithinOne(g: Graph, g': Graph, m: nat, k: nat, child: string, s: set<(nat, nat)>)
    requires SameExcept(g, g', {(m, k)}) && RefsWithin(g, child, s)
    requires m < |g| && k < |g[m].configs| && (m, k) !in s ==> !ConfigRefers(g'[m].configs[k], child)
    ensures RefsWithin(g', child, s) && Grows(g, g')
  {
    SameExceptGrows(g, g', {(m, k)});
    forall m': nat, k': nat | m' < |g'| && k' < |g'[m'].configs| && ConfigRefers(g'[m'].configs[k'], child)
      ensures (m', k') in s
    {
      if (m', k') != (m, k) {
        assert g'[m'].configs[k'].deps == g[m'].configs[k'].deps;
        var j :| 0 <= j < |g'[m'].configs[k'].deps| && RefersTo(g'[m'].configs[k'].deps[j], child);
        assert RefersTo(g[m'].configs[k'].deps[j], child);
      }
    }
  }

  lemma AddDepRefs(g: Graph, m: nat, name: string, d: Dep, child: string, s: set<(nat, nat)>)
    requires RefsWithin(g, child, s) && !RefersTo(d, child)
    ensures AddDep(g, m, name, d).Some? ==> RefsWithin(AddDep(g, m, name, d).value, child, s) && Grows(g, AddDep(g, m, name, d).value)
  {
    var r := AddDep(g, m, name, d);
    if r.Some? {
      var k := FindConfig(g[m].configs, name).value;
      ConfigRefersExtended(g[m].configs[k], r.value[m].configs[k], [d], child);
      RefsWithinOne(g, r.value, m, k, child, s);
    }
  }

  lemma SetDepRefs(g: Graph, m: nat, k: nat, j: nat, d: Dep, child: string, s: set<(nat, nat)>)
    requires RefsWithin(g, child, s) && !RefersTo(d, child)
    ensures RefsWithin(SetDep(g, m, k, j, d), child, s) && Grows(g, SetDep(g, m, k, j, d))
  {
    var r := SetDep(g, m, k, j, d);
    RefsWithinOne(g, r, m, k, child, s);
  }

  lemma RemoveRefsRefs(g: Graph, m: nat, k: nat, child: string, s: set<(nat, nat)>)
    requires RefsWithin(g, child, s)
    ensures RefsWithin(RemoveRefs(g, m, k, child), child, s - {(m, k)}) && Grows(g, RemoveRefs(g, m, k, child))
  {
    var r := RemoveRefs(g, m, k, child);
    SameExceptGrows(g, r, {(m, k)});
    forall m': nat, k': nat | m' < |r| && k' < |r[m'].configs| && ConfigRefers(r[m'].configs[k'], child)
      ensures (m', k') in s - {(m, k)}
    {
      var j :| 0 <= j < |r[m'].configs[k'].deps| && RefersTo(r[m'].configs[k'].deps[j], child);
      assert g[m'].configs[k'].deps[j] == r[m'].configs[k'].deps[j];
    }
  }

  lemma MaybeCreateRefs(g: Graph, m: nat, name: string, child: string, s: set<(nat, nat)>)
    requires RefsWithin(g, child, s)
    ensures RefsWithin(MaybeCreate(g, m, name), child, s)
  {
    var r := MaybeCreate(g, m, name);
    forall m': nat, k': nat | m' < |r| && k' < |r[m'].configs| && ConfigRefers(r[m'].configs[k'], child)
      ensures (m', k') in s
    {
      assert r[m'].configs[k'] == g[m'].configs[k'];
    }
  }

  // ---- lifted through the loops of the rewrite --------------------------------

  lemma PromoteDepRefs(g: Graph, p: nat, ci: nat, kk: nat, j: nat, name: string, d: Dep, child: string, s: set<(nat, nat)>)
    requires RefsWithin(g, child, s) && !RefersTo(d, child)
    ensures var r := PromoteDep(g, p, ci, kk, j, name, d);
      r.Some? ==> RefsWithin(r.value, child, s) && Grows(g, r.value)
  {
    match d
    case ProjectDep(n, t) =>
      var g1 := if t.None? then SetDep(g, ci, kk, j, ProjectDep(n, Some(DefaultConfiguration))) else g;
      SetDepRefs(g, ci, kk, j, ProjectDep(n, Some(DefaultConfiguration)), child, s);
      AddDepRefs(g1, p, name, ProjectDep(n, None), child, s);
      if AddDep(g1, p, name, ProjectDep(n, None)).Some? {
        GrowsTrans(g, g1, AddDep(g1, p, name, ProjectDep(n, None)).value);
      }
    case FileSet(_) =>
    case _ =>
      AddDepRefs(g, p, name, d, child, s);
  }

  lemma {:induction false} PromoteConfigDepsRefs(g: Graph, p: nat, ci: nat, kk: nat, name: string, deps: seq<Dep>, j: nat, child: string, s: set<(nat, nat)>)
    requires RefsWithin(g, child, s) && Clean(deps, child)
    ensures var r := PromoteConfigDeps(g, p, ci, kk, name, deps, j);
      r.Some? ==> RefsWithin(r.value, child, s) && Grows(g, r.value)
    decreases |deps| - j
  {
    if j < |deps| {
      PromoteDepRefs(g, p, ci, kk, j, name, deps[j], child, s);
      var step := PromoteDep(g, p, ci, kk, j, name, deps[j]);
      if step.Some? {
        PromoteConfigDepsRefs(step.value, p, ci, kk, name, deps, j + 1, child, s);
        var r := PromoteConfigDeps(step.value, p, ci, kk, name, deps, j + 1);
        if r.Some? {
          GrowsTrans(g, step.value, r.value);
        }
      }
    }
  }

  lemma {:induction false} PromoteConfigsRefs(g: Graph, p: nat, ci: nat, kk: nat, n: nat, child: string, s: set<(nat, nat)>)
    requires RefsWithin(g, child, s) && Outside(s, ci)
    ensures var r := PromoteConfigs(g, p, ci, kk, n);
      r.Some? ==> RefsWithin(r.value, child, s) && Grows(g, r.value)
    decreases n - kk
  {
    if kk < n {
      var deps := DepsAt(g, ci, kk);
      assert Clean(deps, child);
      PromoteConfigDepsRefs(g, p, ci, kk, ConfigName(g, ci, kk), deps, 0, child, s);
      var step := PromoteConfigDeps(g, p, ci, kk, ConfigName(g, ci, kk), deps, 0);
      if step.Some? {
        PromoteConfigsRefs(step.value, p, ci, kk + 1, n, child, s);
        var r := PromoteConfigs(step.value, p, ci, kk + 1, n);
        if r.Some? {
          GrowsTrans(g, step.value, r.value);
        }
      }
    }
  }

  lemma SubstituteRefs(g: Graph, p: nat, name: string, env: Env, s: set<(nat, nat)>)
    requires RefsWithin(g, env.childName, s)
    ensures var r := Substitute(g, p, name, env);
      r.Some? ==> RefsWithin(r.value, env.childName, s) && Grows(g, r.value)
  {
    AddDepRefs(g, p, name, Coord(MavenNotation(env.info, env.info.isAndroid)), env.childName, s);
    AddDepRefs(g, p, name, FlatArtifact(env.info.flatName, "aar"), env.childName, s);
    AddDepRefs(g, p, name, FlatArtifact(env.info.flatName, "jar"), env.childName, s);
  }

  lemma RewriteConfigRefs(g: Graph, p: nat, k: nat, env: Env, s: set<(nat, nat)>)
    requires RefsWithin(g, env.childName, s) && Outside(s, env.child)
    ensures var r := RewriteConfig(g, p, k, env);
      r.Some? ==> RefsWithin(r.value, env.childName, s - {(p, k)}) && Grows(g, r.value)
  {
    var g1 := RemoveRefs(g, p, k, env.childName);
    var s1 := s - {(p, k)};
    RemoveRefsRefs(g, p, k, env.childName, s);
    SubstituteRefs(g1, p, ConfigName(g1, p, k), env, s1);
    var sub := Substitute(g1, p, ConfigName(g1, p, k), env);
    if sub.Some? {
      GrowsTrans(g, g1, sub.value);
      PromoteConfigsRefs(sub.value, p, env.child, 0, |ConfigsOf(sub.value, env.child)|, env.childName, s1);
      var r := PromoteConfigs(sub.value, p, env.child, 0, |ConfigsOf(sub.value, env.child)|);
      if r.Some? {
        GrowsTrans(g, sub.value, r.value);
      }
    }
  }

  lemma {:induction false} RewriteConfigsRefs(g: Graph, p: nat, ks: seq<nat>, i: nat, env: Env, s: set<(nat, nat)>)
    requires i <= |ks|
    requires RefsWithin(g, env.childName, s) && Outside(s, env.child)
    ensures var r := RewriteConfigs(g, p, ks, i, env);
      r.Some? ==> RefsWithin(r.value, env.childName, s - Pairs(p, ks[i..])) && Grows(g, r.value)
    decreases |ks| - i
  {
    if i == |ks| {
      assert Pairs(p, ks[i..]) == {};
    } else {
      RewriteConfigRefs(g, p, ks[i], env, s);
      var step := RewriteConfig(g, p, ks[i], env);
      if step.Some? {
        var s1 := s - {(p, ks[i])};
        RewriteConfigsRefs(step.value, p, ks, i + 1, env, s1);
        var r := RewriteConfigs(step.value, p, ks, i + 1, env);
        if r.Some? {
          GrowsTrans(g, step.value, r.value);
          PairsStep(p, ks, i, s);
        }
      }
    }
  }

  lemma {:induction false} AddArtifactAarsRefs(g: Graph, p: nat, i: nat, env: Env, s: set<(nat, nat)>)
    requires RefsWithin(g, env.childName, s)
    ensures var r := AddArtifactAars(g, p, i, env);
      r.Some? ==> RefsWithin(r.value, env.childName, s) && Grows(g, r.value)
    decreases |env.aars| - i
  {
    if i < |env.aars| {
      var g1 := MaybeCreate(g, p, ApiConfiguration);
      MaybeCreateRefs(g, p, ApiConfiguration, env.childName, s);
      AddDepRefs(g1, p, ApiConfiguration, FlatArtifact(env.aars[i], "aar"), env.childName, s);
      var step := AddAarDependency(g1, env.aars[i], ApiConfiguration, p, env.cache);
      if step.Some? {
        GrowsTrans(g, g1, step.value);
        AddArtifactAarsRefs(step.value, p, i + 1, env, s);
        var r := AddArtifactAars(step.value, p, i + 1, env);
        if r.Some? {
          GrowsTrans(g, step.value, r.value);
        }
      }
    }
  }

  lemma {:induction false} RewriteParentsRefs(g: Graph, parents: seq<Parent>, i: nat, env: Env, s: set<(nat, nat)>)
    requires i <= |parents|
    requires RefsWithin(g, env.childName, s) && Outside(s, env.child)
    ensures var r := RewriteParents(g, parents, i, env);
      r.Some? ==> RefsWithin(r.value, env.childName, s - ParentPairs(parents[i..])) && Grows(g, r.value)
    decreases |parents| - i
  {
    if i == |parents| {
      assert parents[i..] == [];
    } else {
      var e := parents[i];
      AddArtifactAarsRefs(g, e.project, 0, env, s);
      var g1 := AddArtifactAars(g, e.project, 0, env);
      if g1.Some? {
        RewriteConfigsRefs(g1.value, e.project, e.configs, 0, env, s);
        var g2 := RewriteConfigs(g1.value, e.project, e.configs, 0, env);
        if g2.Some? {
          GrowsTrans(g, g1.value, g2.value);
          var s1 := s - Pairs(e.project, e.configs[0..]);
          RewriteParentsRefs(g2.value, parents, i + 1, env, s1);
          var r := RewriteParents(g2.value, parents, i + 1, env);
          if r.Some? {
            GrowsTrans(g, g2.value, r.value);
            assert e.configs[0..] == e.configs;
            assert parents[i..][1..] == parents[i + 1..];
            assert s1 - ParentPairs(parents[i + 1..]) == s - ParentPairs(parents[i..]);
          }
        }
      }
    }
  }

  // ===========================================================================
  // The outcome of modifyDependencies

  /** The child does not depend on itself. */
  predicate NoSelfReference(g: Graph, child: nat)
    requires child < |g|
  {
    forall k :: 0 <= k < |g[child].configs| ==> !ConfigRefers(g[child].configs[k], g[child].name)
  }

  /**
   * After a rewrite that succeeds no configuration of any project depends on
   * the child any more, every project and configuration is still there under
   * its name, and the child's `default` configuration exists.
   */
  lemma ModifyRemovesChild(g: Graph, child: nat, info: ChildInfo, localMaven: bool, cache: set<string>)
    requires child < |g| && NoSelfReference(g, child)
    ensures var out := Modify(g, child, info, localMaven, cache);
      out.graph.Some? ==>
        var g' := out.graph.value;
        Grows(g, g') && Grows(MaybeCreate(g, child, DefaultConfiguration), g') &&
        FindConfig(g'[child].configs, DefaultConfiguration).Some? &&
        forall m, k :: 0 <= m < |g'| && 0 <= k < |g'[m].configs| ==> !ConfigRefers(g'[m].configs[k], g[child].name)
  {
    var name := g[child].name;
    var parents := ParentsOf(g, name);
    var scan := AarsByArtifacts(g, child, cache);
    var env := Env(child, name, info, localMaven, scan.cache, scan.names);
    var s := ParentPairs(parents);
    forall m: nat, k: nat | m < |g| && k < |g[m].configs| && ConfigRefers(g[m].configs[k], name)
      ensures (m, k) in s
    {
      ParentsOfExact(g, name, m, k);
      ParentPairsListed(parents, m, k);
    }
    assert RefsWithin(g, name, s);
    forall x | x in s ensures x.0 != child {
      ParentPairsListed(parents, x.0, x.1);
      ParentsOfExact(g, name, x.0, x.1);
    }
    MaybeCreateRefs(g, child, DefaultConfiguration, name, s);
    RewriteParentsRefs(scan.graph, parents, 0, env, s);
    var r := RewriteParents(scan.graph, parents, 0, env);
    if r.Some? {
      GrowsTrans(g, scan.graph, r.value);
      assert parents[0..] == parents;
      var t := FindConfig(scan.graph[child].configs, DefaultConfiguration).value;
      assert r.value[child].configs[t].name == DefaultConfiguration;
    }
  }

  lemma FindConfigKept(cs: seq<Config>, cs': seq<Config>, name: string)
    requires FindConfig(cs, name).Some? && |cs| <= |cs'|
    requires forall k :: 0 <= k < |cs| ==> cs'[k].name == cs[k].name
    ensures FindConfig(cs', name) == FindConfig(cs, name)
  {
    var t := FindConfig(cs, name).value;
    assert cs'[t].name == name;
    assert FindConfig(cs', name).Some?;
  }

  lemma FindConfigSameNames(cs: seq<Config>, cs': seq<Config>, name: string)
    requires |cs| == |cs'| && forall k :: 0 <= k < |cs| ==> cs'[k].name == cs[k].name
    ensures FindConfig(cs', name) == FindConfig(cs, name)
  {
    if FindConfig(cs, name).Some? {
      FindConfigKept(cs, cs', name);
    }
  }

  /**
   * Rewriting the same child again, on the graph and cache directory the first
   * rewrite left, changes nothing: no parent depends on the child any more,
   * its `default` configuration exists and its artifacts are already cached.
   */
  lemma ModifyIdempotent(g: Graph, child: nat, info: ChildInfo, localMaven: bool, cache: set<string>)
    requires child < |g| && NoSelfReference(g, child)
    requires Modify(g, child, info, localMaven, cache).graph.Some?
    ensures var out := Modify(g, child, info, localMaven, cache);
      child < |out.graph.value| && Modify(out.graph.value, child, info, localMaven, out.cache) == out
  {
    var out := Modify(g, child, info, localMaven, cache);
    ModifyRemovesChild(g, child, info, localMaven, cache);
    NoParents(out.graph.value, g[child].name);
    RescanSame(g, out.graph.value, child, cache);
  }

  /** Scanning the artifacts again, on a graph that kept the child's configurations, finds the same aars and copies nothing new. */
  lemma RescanSame(g: Graph, g': Graph, child: nat, cache: set<string>)
    requires child < |g| && Grows(MaybeCreate(g, child, DefaultConfiguration), g')
    ensures var scan := AarsByArtifacts(g, child, cache);
      var scan' := AarsByArtifacts(g', child, scan.cache);
      scan'.graph == g' && scan'.names == scan.names && scan'.cache == scan.cache
  {
    var g1 := MaybeCreate(g, child, DefaultConfiguration);
    FindConfigKept(g1[child].configs, g'[child].configs, DefaultConfiguration);
    assert MaybeCreate(g', child, DefaultConfiguration) == g';
    assert ArtifactsOf(g', child, DefaultConfiguration) == ArtifactsOf(g1, child, DefaultConfiguration);
    var aars := AarArtifacts(ArtifactsOf(g1, child, DefaultConfiguration));
    assert CopyFiles(CopyFiles(cache, aars), aars) == CopyFiles(cache, aars);
  }

  // ===========================================================================
  // Promotion of the child's dependencies

  /** What a parent configuration receives for one dependency of the child. */
  function PromotedEdge(d: Dep): seq<Dep> {
    match d
    case ProjectDep(n, _) => [ProjectDep(n, None)]
    case FileSet(_) => []
    case _ => [d]
  }

  /** What a parent configuration receives for the dependencies `deps` of a child configuration, in order. */
  function Promoted(deps: seq<Dep>): seq<Dep> {
    if deps == [] then [] else PromotedEdge(deps[0]) + Promoted(deps[1..])
  }

  /** The child's dependencies once every project dependency has a target configuration. */
  function Defaulted(deps: seq<Dep>): seq<Dep> {
    seq(|deps|, i requires 0 <= i < |deps| => DefaultTarget(deps[i]))
  }

  /**
   * The parent receives no file-collection or file-tree dependency and no
   * project dependency with a target configuration; it receives every other
   * dependency of the child as it is, and a target-less copy of every project
   * dependency, and nothing else.
   */
  lemma {:induction false} PromotedMeaning(deps: seq<Dep>)
    ensures forall e :: e in Promoted(deps) ==> !e.FileSet? && (e.ProjectDep? ==> e.target.None?)
    ensures forall e :: e in Promoted(deps) && !e.ProjectDep? ==> e in deps
    ensures forall e :: e in Promoted(deps) && e.ProjectDep? ==> exists d :: d in deps && d.ProjectDep? && d.name == e.name
    ensures forall d :: d in deps && d.ProjectDep? ==> ProjectDep(d.name, None) in Promoted(deps)
    ensures forall d :: d in deps && !d.ProjectDep? && !d.FileSet? ==> d in Promoted(deps)
  {
    if deps != [] {
      PromotedMeaning(deps[1..]);
      assert deps == [deps[0]] + deps[1..];
      assert Promoted(deps) == PromotedEdge(deps[0]) + Promoted(deps[1..]);
      forall e | e in Promoted(deps) && e.ProjectDep?
        ensures exists d :: d in deps && d.ProjectDep? && d.name == e.name
      {
        if e in PromotedEdge(deps[0]) {
          assert deps[0] in deps;
        } else {
          var d :| d in deps[1..] && d.ProjectDep? && d.name == e.name;
          assert d in deps;
        }
      }
    }
  }

  /** The configurations promotion may change: the child's configuration `kk` and the parent's configuration `t`, if it has one. */
  function Touched(ci: nat, kk: nat, p: nat, t: Option<nat>): set<(nat, nat)> {
    if t.Some? then {(ci, kk), (p, t.value)} else {(ci, kk)}
  }

  /** The child's copy of a project dependency, after it is given the default target when it had none. */
  lemma DefaultedFirst(g: Graph, ci: nat, kk: nat, j: nat, d: Dep, g1: Graph)
    requires d.ProjectDep? && ci < |g| && kk < |g[ci].configs| && j < |g[ci].configs[kk].deps|
    requires g1 == if d.target.None? then SetDep(g, ci, kk, j, ProjectDep(d.name, Some(DefaultConfiguration))) else g
    requires g[ci].configs[kk].deps[j] == d
    ensures SameExcept(g, g1, {(ci, kk)})
    ensures g1[ci].configs[kk].deps == g[ci].configs[kk].deps[j := DefaultTarget(d)]
  {
    if d.target.Some? {
      assert g[ci].configs[kk].deps[j := DefaultTarget(d)] == g[ci].configs[kk].deps;
    }
  }

  /** `PromoteDepEffect` for a project dependency. */
  lemma PromoteProjectDepEffect(g: Graph, p: nat, ci: nat, kk: nat, j: nat, name: string, d: Dep)
    requires p < |g| && ci < |g| && p != ci && kk < |g[ci].configs|
    requires j < |g[ci].configs[kk].deps| && g[ci].configs[kk].deps[j] == d
    requires d.ProjectDep?
    ensures var r := PromoteDep(g, p, ci, kk, j, name, d);
      var t := FindConfig(g[p].configs, name);
      (r.Some? <==> t.Some? || PromotedEdge(d) == []) &&
      (r.Some? ==>
        SameExcept(g, r.value, Touched(ci, kk, p, t)) &&
        r.value[ci].configs[kk].deps == g[ci].configs[kk].deps[j := DefaultTarget(d)] &&
        (t.Some? ==> r.value[p].configs[t.value].deps == g[p].configs[t.value].deps + PromotedEdge(d)))
  {
    var t := FindConfig(g[p].configs, name);
    var g1 := if d.target.None? then SetDep(g, ci, kk, j, ProjectDep(d.name, Some(DefaultConfiguration))) else g;
    DefaultedFirst(g, ci, kk, j, d, g1);
    FindConfigSameNames(g[p].configs, g1[p].configs, name);
    var r := AddDep(g1, p, name, ProjectDep(d.name, None));
    if r.Some? {
      SameExceptTrans(g, g1, r.value, {(ci, kk)}, {(p, t.value)});
      assert {(ci, kk)} + {(p, t.value)} == {(ci, kk), (p, t.value)};
    }
  }

  /**
   * One dependency of child configuration `kk`, at position `j`, promoted into
   * parent `p`: it fails exactly when something is to be added and the parent
   * lacks the configuration; otherwise the child's copy gets its default
   * target, the parent's configuration gains the promoted edge, and nothing
   * else changes.
   */
  lemma PromoteDepEffect(g: Graph, p: nat, ci: nat, kk: nat, j: nat, name: string, d: Dep)
    requires p < |g| && ci < |g| && p != ci && kk < |g[ci].configs|
    requires j < |g[ci].configs[kk].deps| && g[ci].configs[kk].deps[j] == d
    ensures var r := PromoteDep(g, p, ci, kk, j, name, d);
      var t := FindConfig(g[p].configs, name);
      (r.Some? <==> t.Some? || PromotedEdge(d) == []) &&
      (r.Some? ==>
        SameExcept(g, r.value, Touched(ci, kk, p, t)) &&
        r.value[ci].configs[kk].deps == g[ci].configs[kk].deps[j := DefaultTarget(d)] &&
        (t.Some? ==> r.value[p].configs[t.value].deps == g[p].configs[t.value].deps + PromotedEdge(d)))
  {
    match d
    case ProjectDep(_, _) =>
      PromoteProjectDepEffect(g, p, ci, kk, j, name, d);
    case FileSet(_) =>
      assert g[ci].configs[kk].deps[j := DefaultTarget(d)] == g[ci].configs[kk].deps;
    case _ =>
      assert g[ci].configs[kk].deps[j := DefaultTarget(d)] == g[ci].configs[kk].deps;
      var t := FindConfig(g[p].configs, name);
      var r := AddDep(g, p, name, d);
      if r.Some? {
        assert {(p, t.value)} <= {(ci, kk), (p, t.value)};
      }
  }

  /**
   * The inner loop of the promotion, in closed form: the parent configuration
   * named like the child configuration receives `Promoted` of the remaining
   * dependencies, the child configuration ends with its dependencies
   * `Defaulted`, and nothing else changes.  It fails exactly when there is
   * something to promote and the parent has no configuration of that name.
   */
  lemma DefaultedStep(deps: seq<Dep>, j: nat, cur: seq<Dep>)
    requires j < |deps| && cur == Defaulted(deps[..j]) + deps[j..]
    ensures j < |cur| && cur[j] == deps[j]
    ensures cur[j := DefaultTarget(deps[j])] == Defaulted(deps[..j + 1]) + deps[j + 1..]
  {
    assert deps[..j + 1][..j] == deps[..j];
  }

  lemma PromotedStep(deps: seq<Dep>, j: nat)
    requires j < |deps|
    ensures Promoted(deps[j..]) == PromotedEdge(deps[j]) + Promoted(deps[j + 1..])
  {
    assert deps[j..][1..] == deps[j + 1..];
  }

  /** Two promotion steps into the same configurations make one. */
  lemma PromoteCompose(g: Graph, g1: Graph, r: Graph, p: nat, ci: nat, kk: nat, t: Option<nat>, e: seq<Dep>, rest: seq<Dep>)
    requires p < |g| && SameExcept(g, g1, Touched(ci, kk, p, t)) && SameExcept(g1, r, Touched(ci, kk, p, t))
    requires t.Some? ==>
      t.value < |g[p].configs| &&
      g1[p].configs[t.value].deps == g[p].configs[t.value].deps + e &&
      r[p].configs[t.value].deps == g1[p].configs[t.value].deps + rest
    ensures SameExcept(g, r, Touched(ci, kk, p, t))
    ensures t.Some? ==> r[p].configs[t.value].deps == g[p].configs[t.value].deps + (e + rest)
  {
    SameExceptTrans(g, g1, r, Touched(ci, kk, p, t), Touched(ci, kk, p, t));
    if t.Some? {
      assert (g[p].configs[t.value].deps + e) + rest == g[p].configs[t.value].deps + (e + rest);
    }
  }

  lemma {:induction false} PromoteConfigDepsEffect(g: Graph, p: nat, ci: nat, kk: nat, name: string, deps: seq<Dep>, j: nat)
    requires p < |g| && ci < |g| && p != ci && kk < |g[ci].configs| && j <= |deps|
    requires g[ci].configs[kk].deps == Defaulted(deps[..j]) + deps[j..]
    ensures var r := PromoteConfigDeps(g, p, ci, kk, name, deps, j);
      var t := FindConfig(g[p].configs, name);
      (r.Some? <==> t.Some? || Promoted(deps[j..]) == []) &&
      (r.Some? ==>
        SameExcept(g, r.value, Touched(ci, kk, p, t)) &&
        r.value[ci].configs[kk].deps == Defaulted(deps) &&
        (t.Some? ==> r.value[p].configs[t.value].deps == g[p].configs[t.value].deps + Promoted(deps[j..])))
    decreases |deps| - j
  {
    var t := FindConfig(g[p].configs, name);
    if j == |deps| {
      assert deps[..j] == deps;
      assert deps[j..] == [];
    } else {
      var d := deps[j];
      PromotedStep(deps, j);
      DefaultedStep(deps, j, g[ci].configs[kk].deps);
      PromoteDepEffect(g, p, ci, kk, j, name, d);
      var step := PromoteDep(g, p, ci, kk, j, name, d);
      if step.Some? {
        var g1 := step.value;
        FindConfigSameNames(g[p].configs, g1[p].configs, name);
        PromoteConfigDepsEffect(g1, p, ci, kk, name, deps, j + 1);
        var r := PromoteConfigDeps(g1, p, ci, kk, name, deps, j + 1);
        if r.Some? {
          PromoteCompose(g, g1, r.value, p, ci, kk, t, PromotedEdge(d), Promoted(deps[j + 1..]));
        }
      }
    }
  }

  /**
   * Promoting child configuration `kk` into parent `p`, as the rewrite starts
   * it: the parent's configuration of the same name ends with the child's
   * dependencies `Promoted` appended.
   */
  lemma PromoteChildConfigEffect(g: Graph, p: nat, ci: nat, kk: nat)
    requires p < |g| && ci < |g| && p != ci && kk < |g[ci].configs|
    ensures var deps := g[ci].configs[kk].deps;
      var r := PromoteConfigDeps(g, p, ci, kk, g[ci].configs[kk].name, deps, 0);
      var t := FindConfig(g[p].configs, g[ci].configs[kk].name);
      (r.Some? <==> t.Some? || Promoted(deps) == []) &&
      (r.Some? ==>
        SameExcept(g, r.value, Touched(ci, kk, p, t)) &&
        r.value[ci].configs[kk].deps == Defaulted(deps) &&
        (t.Some? ==> r.value[p].configs[t.value].deps == g[p].configs[t.value].deps + Promoted(deps)))
  {
    var deps := g[ci].configs[kk].deps;
    assert deps[..0] == [] && deps[0..] == deps;
    assert Defaulted([]) == [];
    PromoteConfigDepsEffect(g, p, ci, kk, g[ci].configs[kk].name, deps, 0);
  }

  // ===========================================================================
  // The substitute

  /** The extension of the flat file that stands in for the child: aar for an Android library or a child with artifact aars, jar otherwise. */
  function FlatExt(env: Env): string {
    if env.info.isAndroid || |env.aars| > 0 then "aar" else "jar"
  }

  /**
   * The substitute never fails (the configuration it goes into is the parent
   * configuration itself), touches only that configuration and appends at
   * most one dependency: with local maven, the child's maven coordinate
   * exactly when the child is an Android or Java library; otherwise the flat
   * aar or jar of the child exactly when that file is in the cache.
   */
  lemma SubstituteEffect(g: Graph, p: nat, k: nat, env: Env)
    requires p < |g| && k < |g[p].configs|
    ensures var name := g[p].configs[k].name;
      var t := FindConfig(g[p].configs, name).value;
      var r := Substitute(g, p, name, env);
      r.Some? && SameExcept(g, r.value, {(p, t)}) &&
      var before := g[p].configs[t].deps;
      var after := r.value[p].configs[t].deps;
      (env.localMaven ==>
        (after == before + [Coord(MavenNotation(env.info, env.info.isAndroid))] <==> env.info.isAndroid || env.info.isJava) &&
        (after == before <==> !env.info.isAndroid && !env.info.isJava)) &&
      (!env.localMaven ==>
        (after == before + [FlatArtifact(env.info.flatName, FlatExt(env))] <==> env.info.flatName + "." + FlatExt(env) in env.cache) &&
        (after == before <==> env.info.flatName + "." + FlatExt(env) !in env.cache))
  {
    var name := g[p].configs[k].name;
    assert FindConfig(g[p].configs, name).Some?;
    var t := FindConfig(g[p].configs, name).value;
    var before := g[p].configs[t].deps;
    var info := env.info;
    if env.localMaven {
      assert |before + [Coord(MavenNotation(info, info.isAndroid))]| != |before|;
    } else {
      var ext := FlatExt(env);
      assert |before + [FlatArtifact(info.flatName, ext)]| != |before|;
      if ext == "aar" {
        assert info.flatName + "." + ext == AarFile(info.flatName);
      } else {
        assert info.flatName + "." + ext == JarFile(info.flatName);
      }
    }
  }

  /** A Gradle coordinate as its string notation `group:artifact:version@ext` spells it. */
  datatype Coordinate = Coordinate(group: string, artifact: string, version: string, ext: string)

  /** The position of the first `c` in `s`. */
  function IndexOf(s: string, c: char): (r: Option<nat>)
    ensures r.Some? ==> r.value < |s| && s[r.value] == c && c !in s[..r.value]
    ensures r.None? <==> c !in s
  {
    if s == [] then None
    else if s[0] == c then Some(0)
    else match IndexOf(s[1..], c)
      case None => None
      case Some(i) =>
        assert s[..i + 1] == [s[0]] + s[1..][..i];
        Some(i + 1)
  }

  /** `s` split around its first `c`. */
  function SplitAt(s: string, c: char): Option<(string, string)> {
    match IndexOf(s, c)
    case None => None
    case Some(i) => Some((s[..i], s[i + 1..]))
  }

  /** Splits a string notation at its first two colons and the first `@` after them. */
  function ParseNotation(s: string): Option<Coordinate> {
    match SplitAt(s, ':')
    case None => None
    case Some((group, rest)) =>
      match SplitAt(rest, ':')
      case None => None
      case Some((artifact, tail)) =>
        match SplitAt(tail, '@')
        case None => None
        case Some((version, ext)) => Some(Coordinate(group, artifact, version, ext))
  }

  lemma SplitAtSeparator(a: string, c: char, b: string)
    requires c !in a
    ensures SplitAt(a + [c] + b, c) == Some((a, b))
  {
    var s := a + [c] + b;
    assert s[|a|] == c;
    assert s[..|a|] == a && s[|a| + 1..] == b;
  }

  /** A notation built from parts without separators in them splits back into those parts. */
  lemma ParseNotationOf(group: string, artifact: string, version: string, ext: string)
    requires ':' !in group && ':' !in artifact && '@' !in version
    ensures ParseNotation(group + ":" + artifact + ":" + version + "@" + ext) == Some(Coordinate(group, artifact, version, ext))
  {
    var tail := version + "@" + ext;
    var rest := artifact + ":" + tail;
    assert group + ":" + artifact + ":" + version + "@" + ext == group + [':'] + rest;
    assert rest == artifact + [':'] + tail;
    assert tail == version + ['@'] + ext;
    SplitAtSeparator(group, ':', rest);
    SplitAtSeparator(artifact, ':', tail);
    SplitAtSeparator(version, '@', ext);
  }

  /** The coordinate `addMavenDependencyToProject` writes reads back as the child's group, artifact, version 1.0 and aar or jar. */
  lemma MavenNotationParses(info: ChildInfo, isAndroid: bool)
    requires ':' !in info.groupId && ':' !in info.artifactId
    ensures ParseNotation(MavenNotation(info, isAndroid)) ==
      Some(Coordinate(info.groupId, info.artifactId, LocalMavenVersion, if isAndroid then "aar" else "jar"))
  {
    assert '@' !in LocalMavenVersion;
    ParseNotationOf(info.groupId, info.artifactId, LocalMavenVersion, if isAndroid then "aar" else "jar");
  }

  // ===========================================================================
  // The aar artifacts of the child

  /** Stripping the extension of `base.ext` gives back `base`. */
  lemma RemoveExtensionOfExtended(base: string, ext: string)
    requires '.' !in ext
    ensures RemoveExtension(base + "." + ext) == base
  {
    var f := base + "." + ext;
    assert f[|base|] == '.';
    assert f[..|base|] == base;
  }

  /**
   * `getAarByArtifacts` copies every aar artifact of the child's `default`
   * configuration into the cache under its own file name, adds nothing else,
   * and lists each one's name without extension; an artifact file `base.aar`
   * is therefore found by the cache check for `base`.
   */
  lemma ArtifactAarsCached(g: Graph, child: nat, cache: set<string>)
    ensures var scan := AarsByArtifacts(g, child, cache);
      var arts := ArtifactsOf(scan.graph, child, DefaultConfiguration);
      cache <= scan.cache &&
      (forall x :: x in scan.cache && x !in cache ==> exists a :: a in arts && IsAarArtifact(a) && a.fileName == x) &&
      (forall a :: a in arts && IsAarArtifact(a) ==> a.fileName in scan.cache && RemoveExtension(a.fileName) in scan.names) &&
      (forall n :: n in scan.names ==> exists a :: a in arts && IsAarArtifact(a) && RemoveExtension(a.fileName) == n) &&
      (forall a, base :: a in arts && IsAarArtifact(a) && a.fileName == AarFile(base) ==> base in scan.names && AarFile(base) in scan.cache)
  {
    var scan := AarsByArtifacts(g, child, cache);
    var arts := ArtifactsOf(scan.graph, child, DefaultConfiguration);
    AarCopies(arts, cache);
    AarNames(arts);
  }

  lemma AarCopies(arts: seq<Artifact>, cache: set<string>)
    ensures var copied := CopyFiles(cache, AarArtifacts(arts));
      cache <= copied &&
      (forall x :: x in copied && x !in cache ==> exists a :: a in arts && IsAarArtifact(a) && a.fileName == x) &&
      (forall a :: a in arts && IsAarArtifact(a) ==> a.fileName in copied)
  {
  }

  lemma AarNameListed(arts: seq<Artifact>, a: Artifact)
    requires a in arts && IsAarArtifact(a)
    ensures RemoveExtension(a.fileName) in ArtifactNames(AarArtifacts(arts))
  {
    var aars := AarArtifacts(arts);
    var i :| 0 <= i < |aars| && aars[i] == a;
    assert ArtifactNames(aars)[i] == RemoveExtension(a.fileName);
  }

  lemma AarNameSource(arts: seq<Artifact>, n: string)
    requires n in ArtifactNames(AarArtifacts(arts))
    ensures exists a :: a in arts && IsAarArtifact(a) && RemoveExtension(a.fileName) == n
  {
    var aars := AarArtifacts(arts);
    var i :| 0 <= i < |aars| && ArtifactNames(aars)[i] == n;
    assert aars[i] in aars;
  }

  lemma AarNames(arts: seq<Artifact>)
    ensures var names := ArtifactNames(AarArtifacts(arts));
      (forall a :: a in arts && IsAarArtifact(a) ==> RemoveExtension(a.fileName) in names) &&
      (forall n :: n in names ==> exists a :: a in arts && IsAarArtifact(a) && RemoveExtension(a.fileName) == n) &&
      (forall a, base :: a in arts && IsAarArtifact(a) && a.fileName == AarFile(base) ==> base in names)
  {
    forall a | a in arts && IsAarArtifact(a)
      ensures RemoveExtension(a.fileName) in ArtifactNames(AarArtifacts(arts))
    {
      AarNameListed(arts, a);
    }
    forall n | n in ArtifactNames(AarArtifacts(arts))
      ensures exists a :: a in arts && IsAarArtifact(a) && RemoveExtension(a.fileName) == n
    {
      AarNameSource(arts, n);
    }
    forall a, base | a in arts && IsAarArtifact(a) && a.fileName == AarFile(base)
      ensures base in ArtifactNames(AarArtifacts(arts))
    {
      RemoveExtensionOfExtended(base, "aar");
      assert base + "." + "aar" == a.fileName;
      AarNameListed(arts, a);
    }
  }


  /** The flat aar dependencies `addAarDependencyToProject` adds for `aars`: those whose file is in the cache, in order. */
  function CachedAars(aars: seq<string>, cache: set<string>): (r: seq<Dep>)
    ensures forall e :: e in r ==> e.FlatArtifact? && e.ext == "aar" && e.name in aars && AarFile(e.name) in cache
    ensures forall x :: x in aars && AarFile(x) in cache ==> FlatArtifact(x, "aar") in r
  {
    if aars == [] then []
    else
      var rest := CachedAars(aars[1..], cache);
      assert forall x :: x in aars[1..] ==> x in aars;
      assert forall x :: x in aars && x != aars[0] ==> x in aars[1..];
      (if AarFile(aars[0]) in cache then [FlatArtifact(aars[0], "aar")] else []) + rest
  }

  /**
   * Lines 70-75 in closed form: with at least one artifact aar, the parent gets
   * an `api` configuration (created if absent) that ends with the cached aars
   * appended, and nothing else changes; this step never fails.
   */
  lemma {:induction false} AddArtifactAarsEffect(g: Graph, p: nat, i: nat, env: Env)
    requires p < |g| && i < |env.aars|
    ensures var g1 := MaybeCreate(g, p, ApiConfiguration);
      var t := FindConfig(g1[p].configs, ApiConfiguration).value;
      var r := AddArtifactAars(g, p, i, env);
      r.Some? && SameExcept(g1, r.value, {(p, t)}) &&
      r.value[p].configs[t].deps == g1[p].configs[t].deps + CachedAars(env.aars[i..], env.cache)
    decreases |env.aars| - i
  {
    var g1 := MaybeCreate(g, p, ApiConfiguration);
    var t := FindConfig(g1[p].configs, ApiConfiguration).value;
    AddAarStep(g1, p, t, env.aars[i], env.cache);
    CachedAarsStep(env.aars, i, env.cache);
    var g2 := AddAarDependency(g1, env.aars[i], ApiConfiguration, p, env.cache).value;
    if i + 1 == |env.aars| {
      assert env.aars[i + 1..] == [];
    } else {
      AddArtifactAarsEffect(g2, p, i + 1, env);
      var r := AddArtifactAars(g2, p, i + 1, env).value;
      AppendCompose(g1, g2, r, p, t, CachedAars([env.aars[i]], env.cache), CachedAars(env.aars[i + 1..], env.cache));
    }
  }

  /** Two appends to configuration `(p, t)` make one. */
  lemma AppendCompose(g: Graph, g1: Graph, r: Graph, p: nat, t: nat, e: seq<Dep>, rest: seq<Dep>)
    requires p < |g| && t < |g[p].configs| && SameExcept(g, g1, {(p, t)}) && SameExcept(g1, r, {(p, t)})
    requires g1[p].configs[t].deps == g[p].configs[t].deps + e
    requires r[p].configs[t].deps == g1[p].configs[t].deps + rest
    ensures SameExcept(g, r, {(p, t)}) && r[p].configs[t].deps == g[p].configs[t].deps + (e + rest)
  {
    SameExceptTrans(g, g1, r, {(p, t)}, {(p, t)});
    assert (g[p].configs[t].deps + e) + rest == g[p].configs[t].deps + (e + rest);
  }

  /** One artifact aar into an existing `api` configuration. */
  lemma AddAarStep(g: Graph, p: nat, t: nat, x: string, cache: set<string>)
    requires p < |g| && FindConfig(g[p].configs, ApiConfiguration) == Some(t)
    ensures var r := AddAarDependency(g, x, ApiConfiguration, p, cache);
      r.Some? && SameExcept(g, r.value, {(p, t)}) &&
      r.value[p].configs[t].deps == g[p].configs[t].deps + CachedAars([x], cache) &&
      MaybeCreate(r.value, p, ApiConfiguration) == r.value
  {
    assert [x][1..] == [];
    var r := AddAarDependency(g, x, ApiConfiguration, p, cache).value;
    FindConfigSameNames(g[p].configs, r[p].configs, ApiConfiguration);
  }

  lemma CachedAarsStep(aars: seq<string>, i: nat, cache: set<string>)
    requires i < |aars|
    ensures CachedAars(aars[i..], cache) == CachedAars([aars[i]], cache) + CachedAars(aars[i + 1..], cache)
  {
    assert aars[i..][1..] == aars[i + 1..];
    assert [aars[i]][1..] == [];
  }
}
