/**
 * What the plugin's gates, listener rules and selections guarantee, and what
 * `doAfterEvaluated` leaves in the task graph.
 */
module PluginProperties {
  import opened Wrappers
  import opened KotlinStrings
  import opened FlatLocalMaven
  import opened LocalMavenProperties
  import opened RocketX

  /** A flavor/build type containing `release` in any mix of cases turns the installed plugin off. */
  lemma ReleaseInAnyCaseSkips(isEnable: bool, hasAndroidPlugin: bool, isCurProjectRun: bool, flavorBuildType: string, t: string)
    requires isEnable && !hasAndroidPlugin && isCurProjectRun
    requires Contains(flavorBuildType, t) && Lowercase(t) == "release"
    ensures Apply(isEnable, hasAndroidPlugin, isCurProjectRun, flavorBuildType) == ReleaseSkipped
  {
    LowercaseContains(flavorBuildType, t);
  }

  /** The flag is set after a run of tasks exactly when it was set before or some assemble task in it succeeded. */
  lemma {:induction false} FlushedIffAssembleSucceeded(flushed: bool, events: seq<TaskEvent>)
    ensures AfterExecuteAll(flushed, events) <==> flushed || exists i :: 0 <= i < |events| && Flushes(events[i])
    decreases |events|
  {
    if events != [] {
      FlushedIffAssembleSucceeded(flushed || Flushes(events[0]), events[1..]);
      if exists i :: 0 <= i < |events| && Flushes(events[i]) {
        var i :| 0 <= i < |events| && Flushes(events[i]);
        if i > 0 {
          assert Flushes(events[1..][i - 1]);
        }
      }
      if exists i :: 0 <= i < |events| - 1 && Flushes(events[1..][i]) {
        var i :| 0 <= i < |events| - 1 && Flushes(events[1..][i]);
        assert Flushes(events[i + 1]);
      }
    }
  }

  /** Unit-test tasks are disabled; the case-sensitive test leaves `lint<Variant>` tasks enabled. */
  lemma DisabledTaskNames()
    ensures DisabledByName("testDebugUnitTest")
    ensures !DisabledByName("lintDebug")
  {
    assert OccursAt("testDebugUnitTest", "Test", 13);
    MissingFirstChar("lintDebug", "Test");
    MissingFirstChar("lintDebug", "Lint");
  }

  /**
   * The changed-project map after the exclusions from position `i`: an
   * exclusion that resolves to a project is a key holding that project; every
   * other key and value is as before.
   */
  lemma {:induction false} InsertExcludedMeaning(m: map<string, ProjectInfo>, excludes: seq<string>, findProject: map<string, ProjectInfo>, i: nat)
    requires i <= |excludes|
    ensures var r := InsertExcluded(m, excludes, findProject, i);
      (forall k :: k in r <==> k in m || (k in excludes[i..] && k in findProject)) &&
      (forall k :: k in excludes[i..] && k in findProject ==> r[k] == findProject[k]) &&
      (forall k :: k in m && !(k in excludes[i..] && k in findProject) ==> r[k] == m[k])
    decreases |excludes| - i
  {
    if i < |excludes| {
      assert excludes[i..] == [excludes[i]] + excludes[i + 1..];
      if excludes[i] in findProject {
        InsertExcludedMeaning(m[excludes[i] := findProject[excludes[i]]], excludes, findProject, i + 1);
      } else {
        InsertExcludedMeaning(m, excludes, findProject, i + 1);
      }
    }
  }

  /** Lines 72-76 as a whole: a null map stays null; otherwise every exclusion that names a project is inserted under its own key. */
  lemma ExcludedModulesInserted(changed: Option<map<string, ProjectInfo>>, excludeModule: Option<seq<string>>, findProject: map<string, ProjectInfo>)
    ensures var r := Excluded(changed, excludeModule, findProject);
      (r.Some? <==> changed.Some?) &&
      (r.Some? && excludeModule.Some? ==>
        (forall k :: k in r.value <==> k in changed.value || (k in excludeModule.value && k in findProject)) &&
        (forall k :: k in excludeModule.value && k in findProject ==> r.value[k] == findProject[k])) &&
      (excludeModule.None? ==> r == changed)
  {
    if changed.Some? && excludeModule.Some? {
      InsertExcludedMeaning(changed.value, excludeModule.value, findProject, 0);
      assert excludeModule.value[0..] == excludeModule.value;
    }
  }

  /** The assemble, bundle, upload chain for one build type of one child, without saying who owns the upload task. */
  ghost predicate Chained(r: Tasks, s: Tasks, appPath: string, childPath: string, flavorPart: string, bt: string) {
    var bundle := TaskId(childPath, BundleTaskName(Capitalize(bt)));
    var upload := TaskId(childPath, UploadTaskName(bt));
    upload in r.tasks &&
    (bundle in s.tasks ==>
      (TaskId(appPath, AssembleName(flavorPart, bt)), bundle) in r.finalizedBy && (bundle, upload) in r.finalizedBy)
  }

  /** `r` keeps every task and edge of `s`. */
  ghost predicate Grown(s: Tasks, r: Tasks) {
    s.tasks <= r.tasks && s.finalizedBy <= r.finalizedBy
  }

  /** Every assemble task of the app (plain and per flavor) is chained to the child's bundle and upload tasks. */
  ghost predicate ProjectChained(r: Tasks, s: Tasks, appPath: string, childPath: string, flavors: seq<string>, bts: seq<string>) {
    (forall j :: 0 <= j < |bts| ==> Chained(r, s, appPath, childPath, "", bts[j])) &&
    (forall f, j :: 0 <= f < |flavors| && 0 <= j < |bts| ==> Chained(r, s, appPath, childPath, Capitalize(flavors[f]), bts[j]))
  }

  lemma ChainedKept(r1: Tasks, r2: Tasks, s: Tasks, s0: Tasks, appPath: string, childPath: string, flavorPart: string, bt: string)
    requires Chained(r1, s, appPath, childPath, flavorPart, bt)
    requires Grown(r1, r2) && s0.tasks <= s.tasks
    ensures Chained(r2, s0, appPath, childPath, flavorPart, bt)
  {
  }

  lemma ProjectChainedKept(r1: Tasks, r2: Tasks, s: Tasks, s0: Tasks, appPath: string, childPath: string, flavors: seq<string>, bts: seq<string>)
    requires ProjectChained(r1, s, appPath, childPath, flavors, bts)
    requires Grown(r1, r2) && s0.tasks <= s.tasks
    ensures ProjectChained(r2, s0, appPath, childPath, flavors, bts)
  {
    forall j | 0 <= j < |bts|
      ensures Chained(r2, s0, appPath, childPath, "", bts[j])
    {
      ChainedKept(r1, r2, s, s0, appPath, childPath, "", bts[j]);
    }
    forall f, j | 0 <= f < |flavors| && 0 <= j < |bts|
      ensures Chained(r2, s0, appPath, childPath, Capitalize(flavors[f]), bts[j])
    {
      ChainedKept(r1, r2, s, s0, appPath, childPath, Capitalize(flavors[f]), bts[j]);
    }
  }

  /** One aar hook: a successful `uploadLocalMaven` of a changed child chains all of the app's assemble tasks to it. */
  lemma UploadChainsProject(s: Tasks, setup: Setup, flavors: seq<string>, bts: seq<string>)
    requires IsChanged(setup) && UploadAll(s, setup, flavors, bts).Some?
    ensures var r := UploadAll(s, setup, flavors, bts).value;
      Grown(s, r) && ProjectChained(r, s, setup.appPath, setup.childPath, flavors, bts)
  {
    UploadHooksEveryVariant(s, setup, flavors, bts);
  }

  /**
   * `doAfterEvaluated` from project `i` on: a project `q` that gets an aar
   * hook has its chain for every build type and every flavor with every
   * build type.
   */
  lemma {:induction false} HookProjectsChained(s: Tasks, appPath: string, changed: Option<set<string>>, flavors: seq<string>,
                                               bts: seq<string>, all: seq<ProjectInfo>, i: nat, q: nat)
    requires i <= q < |all| && HookFor(all[q], changed) == Some(AarHook)
    ensures var r := HookProjects(s, appPath, changed, flavors, bts, all, i);
      r.Some? ==> ProjectChained(r.value, s, appPath, all[q].path, flavors, bts)
    decreases |all| - i
  {
    if HookFor(all[i], changed) == Some(AarHook) {
      var setup := Setup(appPath, all[i].path, changed);
      var u := UploadAll(s, setup, flavors, bts);
      if u.Some? {
        var s1 := u.value;
        UploadChainsProject(s, setup, flavors, bts);
        var r := HookProjects(s1, appPath, changed, flavors, bts, all, i + 1);
        if r.Some? {
          if q == i {
            ProjectChainedKept(s1, r.value, s, s, appPath, all[q].path, flavors, bts);
          } else {
            HookProjectsChained(s1, appPath, changed, flavors, bts, all, i + 1, q);
            ProjectChainedKept(r.value, r.value, s1, s, appPath, all[q].path, flavors, bts);
          }
        }
      }
    } else {
      HookProjectsChained(s, appPath, changed, flavors, bts, all, i + 1, q);
    }
  }

  /** With a null changed map, `doAfterEvaluated` hooks nothing. */
  lemma NullMapHooksNothing(s: Tasks, appPath: string, flavors: seq<string>, bts: seq<string>, all: seq<ProjectInfo>)
    ensures HookProjects(s, appPath, None, flavors, bts, all, 0) == Some(s)
    ensures JarHooked(all, None) == []
  {
  }
}
