/**
 * `RocketXPlugin`: when the plugin acts at all, which modules it treats as
 * changed, the rules of its task-execution listener, the projects it
 * configures maven-publish for, and which changed modules get a flat local
 * maven in `doAfterEvaluated`.
 *
 * What the plugin learns about a project from helpers that are not part of
 * this model (`hasAppPlugin`, `hasJavaPlugin`, the `LibraryExtension` lookup)
 * is carried in a `ProjectInfo`.
 */
module RocketX {
  import opened Wrappers
  import opened KotlinStrings
  import opened FlatLocalMaven

  datatype ProjectInfo = ProjectInfo(
    name: string,
    path: string,
    isRoot: bool,            // it == rootProject
    hasChildren: bool,       // childProjects.isNotEmpty()
    hasAppPlugin: bool,
    isAndroidLibrary: bool,  // extensions.getByType(LibraryExtension) succeeds
    hasJavaPlugin: bool)

  // ---------------------------------------------------------------------------
  // apply: the two early exits

  datatype ApplyOutcome = NotInstalled | ReleaseSkipped | Active

  /**
   * Lines 54 and 59: nothing is installed when the plugin is disabled, the
   * project has the Android plugin or is not the project being run; nothing
   * further happens when the flavor and build type, lower-cased, contain
   * `release`.
   */
  function Apply(isEnable: bool, hasAndroidPlugin: bool, isCurProjectRun: bool, flavorBuildType: string): (r: ApplyOutcome)
    ensures r == NotInstalled <==> !isEnable || hasAndroidPlugin || !isCurProjectRun
    ensures r == Active ==> !Contains(Lowercase(flavorBuildType), "release")
    ensures r == ReleaseSkipped ==> Contains(Lowercase(flavorBuildType), "release")
  {
    if !isEnable || hasAndroidPlugin || !isCurProjectRun then NotInstalled
    else if Contains(Lowercase(flavorBuildType), "release") then ReleaseSkipped
    else Active
  }

  // ---------------------------------------------------------------------------
  // The task-execution listener

  /** `task.name.contains("Test") || task.name.contains("Lint")` (case-sensitive) */
  predicate DisabledByName(name: string): (r: bool)
    ensures r ==> 4 <= |name| && ('T' in name || 'L' in name)
  {
    var r := Contains(name, "Test") || Contains(name, "Lint");
    assert r ==> 'T' in name || 'L' in name by {
      if Contains(name, "Test") {
        var i :| 0 <= i <= |name| - 4 && OccursAt(name, "Test", i);
        assert name[i] == name[i..i + 4][0];
      } else if Contains(name, "Lint") {
        var i :| 0 <= i <= |name| - 4 && OccursAt(name, "Lint", i);
        assert name[i] == name[i..i + 4][0];
      }
    }
    r
  }

  /** The task and its outcome the `afterExecute` callback sees: `failure` is `state.failure`. */
  datatype TaskEvent = TaskEvent(name: string, failure: Option<string>)

  /** `task.name.startsWith(ASSEMBLE) && state.failure == null` */
  predicate Flushes(e: TaskEvent) {
    StartsWith(e.name, Assemble) && e.failure.None?
  }

  /** The flush flag after `afterExecute` has seen `events` in order, starting from `flushed`. */
  function AfterExecuteAll(flushed: bool, events: seq<TaskEvent>): (r: bool)
    ensures flushed ==> r
    ensures (forall x :: 0 <= x < |events| ==> !Flushes(events[x])) ==> r == flushed
    decreases |events|
  {
    if events == [] then flushed
    else AfterExecuteAll(flushed || Flushes(events[0]), events[1..])
  }

  class Task {
    const name: string
    var enabled: bool

    constructor (name: string)
      ensures this.name == name && enabled
    {
      this.name := name;
      enabled := true;
    }
  }

  // ---------------------------------------------------------------------------
  // Selections

  /** Lines 79-81: maven-publish is not configured for a project named `app`, the root, or a project with children. */
  predicate SkipsPublish(p: ProjectInfo) {
    p.name == "app" || p.isRoot || p.hasChildren
  }

  /** Lines 77-85: the projects `mavenPublish` is applied to, in order; none unless `localMaven == true`. */
  function MavenPublishTargets(localMaven: Option<bool>, all: seq<ProjectInfo>): (r: seq<ProjectInfo>)
    ensures forall p :: p in r <==> localMaven == Some(true) && p in all && !SkipsPublish(p)
    decreases |all|
  {
    if localMaven != Some(true) || all == [] then []
    else
      var rest := MavenPublishTargets(localMaven, all[..|all| - 1]);
      var last := all[|all| - 1];
      assert all == all[..|all| - 1] + [last];
      if SkipsPublish(last) then rest else rest + [last]
  }

  datatype HookKind = AarHook | JarHook

  /** Line 141: app-plugin projects, the root and projects with children get no hook. */
  predicate IsLeafModule(p: ProjectInfo): (r: bool)
    ensures r && p.name != "app" ==> !SkipsPublish(p)
  {
    !p.hasAppPlugin && !p.isRoot && !p.hasChildren
  }

  /**
   * Lines 141-160 for one project: a changed leaf module gets an aar hook if
   * it is an Android library, else a jar hook if it has the Java plugin.  A
   * null changed map gives no project a hook.
   */
  function HookFor(p: ProjectInfo, changed: Option<set<string>>): (r: Option<HookKind>)
    ensures r.Some? <==> IsLeafModule(p) && changed.Some? && p.path in changed.value && (p.isAndroidLibrary || p.hasJavaPlugin)
    ensures r == Some(AarHook) ==> p.isAndroidLibrary
    ensures r == Some(JarHook) ==> !p.isAndroidLibrary && p.hasJavaPlugin
  {
    if !IsLeafModule(p) then None
    else if !(changed.Some? && p.path in changed.value) then None
    else if p.isAndroidLibrary then Some(AarHook)
    else if p.hasJavaPlugin then Some(JarHook)
    else None
  }

  /** The paths of the projects that get a jar hook, in order. */
  function JarHooked(all: seq<ProjectInfo>, changed: Option<set<string>>): (r: seq<string>)
    ensures forall path :: path in r <==> exists p :: p in all && p.path == path && HookFor(p, changed) == Some(JarHook)
    ensures (forall p :: p in all ==> HookFor(p, changed) != Some(JarHook)) ==> r == []
    decreases |all|
  {
    if all == [] then []
    else
      var last := all[|all| - 1];
      var rest := JarHooked(all[..|all| - 1], changed);
      assert all == all[..|all| - 1] + [last];
      if HookFor(last, changed) == Some(JarHook) then rest + [last.path] else rest
  }

  /** `doAfterEvaluated` from project `i` on: each project with an aar hook runs `uploadLocalMaven`; `None` is an exception. */
  function HookProjects(s: Tasks, appPath: string, changed: Option<set<string>>, flavors: seq<string>, buildTypes: seq<string>,
                        all: seq<ProjectInfo>, i: nat): (r: Option<Tasks>)
    ensures r.Some? ==> s.tasks <= r.value.tasks && s.finalizedBy <= r.value.finalizedBy
    ensures (forall j :: i <= j < |all| ==> HookFor(all[j], changed) != Some(AarHook)) ==> r == Some(s)
    decreases |all| - i
  {
    if i >= |all| then Some(s)
    else if HookFor(all[i], changed) == Some(AarHook) then
      match UploadAll(s, Setup(appPath, all[i].path, changed), flavors, buildTypes)
      case None => None
      case Some(s1) => HookProjects(s1, appPath, changed, flavors, buildTypes, all, i + 1)
    else HookProjects(s, appPath, changed, flavors, buildTypes, all, i + 1)
  }

  /** The keys of the changed-project map; `None` when the map is null. */
  function ChangedKeys(changed: Option<map<string, ProjectInfo>>): Option<set<string>> {
    match changed
    case None => None
    case Some(m) => Some(m.Keys)
  }

  /** The changed-project map after inserting `excludes[i..]` (lines 72-76): an exclusion that names a project is put under its own key. */
  function InsertExcluded(m: map<string, ProjectInfo>, excludes: seq<string>, findProject: map<string, ProjectInfo>, i: nat): (r: map<string, ProjectInfo>)
    ensures m.Keys <= r.Keys
    ensures forall k :: k in r && k !in m ==> k in findProject
    decreases |excludes| - i
  {
    if i >= |excludes| then m
    else if excludes[i] in findProject then InsertExcluded(m[excludes[i] := findProject[excludes[i]]], excludes, findProject, i + 1)
    else InsertExcluded(m, excludes, findProject, i + 1)
  }

  /** The whole insertion: nothing happens without an exclusion list or without a changed map. */
  function Excluded(changed: Option<map<string, ProjectInfo>>, excludeModule: Option<seq<string>>, findProject: map<string, ProjectInfo>): (r: Option<map<string, ProjectInfo>>)
    ensures r.None? <==> changed.None?
    ensures excludeModule.None? ==> r == changed
    ensures r.Some? ==> changed.value.Keys <= r.value.Keys
    ensures r.Some? ==> forall k :: k in r.value && k !in changed.value ==> k in findProject
  {
    if changed.None? || excludeModule.None? then changed
    else Some(InsertExcluded(changed.value, excludeModule.value, findProject, 0))
  }

  // ---------------------------------------------------------------------------
  // The plugin object

  class RocketXPlugin {
    const appPath: string
    /** `mAllChangedProject`: the changed modules by path, or `None` when the map is null. */
    var changedProjects: Option<map<string, ProjectInfo>>
    /** Whether `ChangeModuleUtils.flushJsonFile()` has been called. */
    var flushed: bool
    /** The build's tasks and their `finalizedBy` edges. */
    const graph: TaskGraph

    constructor (appPath: string, changedProjects: Option<map<string, ProjectInfo>>, graph: TaskGraph)
      ensures this.appPath == appPath && this.changedProjects == changedProjects && this.graph == graph
      ensures !flushed
    {
      this.appPath := appPath;
      this.changedProjects := changedProjects;
      this.graph := graph;
      flushed := false;
    }

    /**
     * Lines 72-76.  `excludeModule` is `mRocketXBean?.excludeModule`;
     * `findProject` maps each path the root project can resolve to its project.
     */
    method ExcludeModules(excludeModule: Option<seq<string>>, findProject: map<string, ProjectInfo>)
      modifies this
      ensures changedProjects == Excluded(old(changedProjects), excludeModule, findProject)
      ensures flushed == old(flushed)
    {
      if excludeModule.None? {
        return;
      }
      var excludes := excludeModule.value;
      ghost var m0 := changedProjects;
      var i := 0;
      while i < |excludes|
        invariant 0 <= i <= |excludes|
        invariant changedProjects.None? <==> m0.None?
        invariant flushed == old(flushed)
        invariant m0.Some? ==> InsertExcluded(changedProjects.value, excludes, findProject, i) == InsertExcluded(m0.value, excludes, findProject, 0)
      {
        var it := excludes[i];
        if it in findProject && changedProjects.Some? {
          changedProjects := Some(changedProjects.value[it := findProject[it]]);
        }
        i := i + 1;
      }
    }

    /** Lines 77-85: the projects maven-publish is configured for (the configuration itself is not part of this model). */
    method ConfigureMavenPublish(localMaven: Option<bool>, all: seq<ProjectInfo>) returns (published: seq<ProjectInfo>)
      ensures published == MavenPublishTargets(localMaven, all)
    {
      published := [];
      if localMaven == Some(true) {
        var i := 0;
        while i < |all|
          invariant 0 <= i <= |all|
          invariant published == MavenPublishTargets(localMaven, all[..i])
        {
          assert all[..i + 1][..i] == all[..i];
          var it := all[i];
          if !(it.name == "app" || it.isRoot || it.hasChildren) {
            published := published + [it];
          }
          i := i + 1;
        }
        assert all[..i] == all;
      }
    }

    /** `beforeExecute`: a task whose name contains `Test` or `Lint` is disabled; any other is left as it was. */
    method BeforeExecute(task: Task)
      modifies task
      ensures task.enabled == (old(task.enabled) && !DisabledByName(task.name))
    {
      if Contains(task.name, "Test") || Contains(task.name, "Lint") {
        task.enabled := false;
      }
    }

    /** `afterExecute`: the change file is flushed after an assemble task that did not fail. */
    method AfterExecute(task: Task, failure: Option<string>)
      modifies this
      ensures flushed == AfterExecuteAll(old(flushed), [TaskEvent(task.name, failure)])
      ensures changedProjects == old(changedProjects)
    {
      if StartsWith(task.name, Assemble) && failure.None? {
        flushed := true;
      }
    }

    /**
     * `doAfterEvaluated` over `all` (`rootProject.allprojects`), with the
     * app's build types and flavors.  Android libraries run their flat local
     * maven's `uploadLocalMaven` on the task graph; `jarHooked` lists the
     * projects handed to the jar variant.  `ok` is false when a task lookup
     * threw.
     */
    method DoAfterEvaluated(all: seq<ProjectInfo>, buildTypes: seq<string>, flavors: seq<string>) returns (ok: bool, jarHooked: seq<string>)
      modifies graph
      ensures var r := HookProjects(old(graph.State()), appPath, ChangedKeys(changedProjects), flavors, buildTypes, all, 0);
        (ok <==> r.Some?) && (ok ==> graph.State() == r.value && jarHooked == JarHooked(all, ChangedKeys(changedProjects)))
    {
      var keys := if changedProjects.None? then None else Some(changedProjects.value.Keys);
      ghost var s0 := graph.State();
      jarHooked := [];
      var i := 0;
      while i < |all|
        invariant 0 <= i <= |all|
        invariant HookProjects(graph.State(), appPath, keys, flavors, buildTypes, all, i) == HookProjects(s0, appPath, keys, flavors, buildTypes, all, 0)
        invariant jarHooked == JarHooked(all[..i], keys)
      {
        assert all[..i + 1][..i] == all[..i];
        var it := all[i];
        if !(it.hasAppPlugin || it.isRoot || it.hasChildren) && keys.Some? && it.path in keys.value {
          if it.isAndroidLibrary {
            var localMaven := new AarFlatLocalMaven(it.path, appPath, keys, buildTypes, flavors, graph);
            ok := localMaven.UploadLocalMaven();
            if !ok {
              return;
            }
          } else if it.hasJavaPlugin {
            jarHooked := jarHooked + [it.path];
          }
        }
        i := i + 1;
      }
      assert all[..i] == all;
      ok := true;
    }
  }
}
