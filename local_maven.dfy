/**
 * `AarFlatLocalMaven`: for a changed Android library, every assemble task of
 * the app is finalized by the library's `bundle<BuildType>Aar` task, which in
 * turn is finalized by an `uploadLocalMaven<BuildType>` task (and by a
 * maven publication, when there is one).  The upload task copies the built
 * aar into the flat cache slot `<project>.aar`.
 *
 * Gradle's task containers and the `finalizedBy` relation are the fields of
 * `TaskGraph`; the methods of `AarFlatLocalMaven` follow the Kotlin code and
 * are proved to produce the state the functions below describe.
 */
module FlatLocalMaven {
  import opened Wrappers
  import opened KotlinStrings
  import opened DependencyModel
  import opened DependencyRewrite

  const Assemble := "assemble"

  /** A task: the path of its project and its name. */
  datatype TaskId = TaskId(project: string, name: string)

  /**
   * The tasks that exist, the `finalizedBy` edges between them, and for each
   * upload task the path of the child project whose flat local maven it serves
   * (`LocalMavenTask.localMaven`).
   */
  datatype Tasks = Tasks(tasks: set<TaskId>, finalizedBy: set<(TaskId, TaskId)>, uploadOwner: map<TaskId, string>)

  /** What one `AarFlatLocalMaven` holds fixed: the app project, the child project and the keys of the changed-project map (`None` for a null map). */
  datatype Setup = Setup(appPath: string, childPath: string, changed: Option<set<string>>)

  // ---------------------------------------------------------------------------
  // Task names

  /** `assemble` + flavor name capitalized (empty for the plain build types) + build type capitalized */
  function AssembleName(flavorPart: string, buildType: string): string {
    Assemble + flavorPart + Capitalize(buildType)
  }

  function BundleTaskName(variantName: string): string {
    "bundle" + variantName + "Aar"
  }

  function UploadTaskName(buildType: string): string {
    "uploadLocalMaven" + Capitalize(buildType)
  }

  function PublishTaskName(variant: string): string {
    "publishMaven" + variant + "PublicationToLocalRepository"
  }

  /** `mAllChangedProject?.contains(childProject.path) ?: false` */
  predicate IsChanged(setup: Setup) {
    setup.changed.Some? && setup.childPath in setup.changed.value
  }

  /** The publication chosen for a bundle task, as written: `Release` only if its name contains lower-case `release`. */
  function PublishVariantAsWritten(bundleName: string): (r: string)
    ensures r == "Release" || r == "Debug"
    ensures r == "Release" <==> Contains(bundleName, "release")
  {
    if Contains(bundleName, "release") then "Release" else "Debug"
  }

  /** The publication chosen for a bundle task, ignoring case, as the test evidently intends. */
  function PublishVariant(bundleName: string): string {
    if Contains(Lowercase(bundleName), "release") then "Release" else "Debug"
  }

  /**
   * Lines 76-87 as written.  `tasks.named` throws when the publish task does
   * not exist (without local maven nothing creates it), so the `.orNull`
   * after it never yields null; `None` is that exception.
   */
  function PublishEdgesAsWritten(tasks: set<TaskId>, bundle: TaskId): (r: Option<set<(TaskId, TaskId)>>)
    ensures r.None? <==> TaskId(bundle.project, PublishTaskName(PublishVariantAsWritten(bundle.name))) !in tasks
    ensures r.Some? ==> r.value == {(bundle, TaskId(bundle.project, PublishTaskName(PublishVariantAsWritten(bundle.name))))}
  {
    var publish := TaskId(bundle.project, PublishTaskName(PublishVariantAsWritten(bundle.name)));
    if publish in tasks then Some({(bundle, publish)}) else None
  }

  /** Lines 76-87 as evidently intended: the bundle task is finalized by the publish task when there is one. */
  function PublishEdges(tasks: set<TaskId>, bundle: TaskId): (r: set<(TaskId, TaskId)>)
    ensures r <= {(bundle, TaskId(bundle.project, PublishTaskName(PublishVariant(bundle.name))))}
    ensures r != {} <==> TaskId(bundle.project, PublishTaskName(PublishVariant(bundle.name))) in tasks
  {
    var publish := TaskId(bundle.project, PublishTaskName(PublishVariant(bundle.name)));
    if publish in tasks then {(bundle, publish)} else {}
  }

  // ---------------------------------------------------------------------------
  // hookBundleAarTask and uploadLocalMaven

  /**
   * `hookBundleAarTask(task, buildType)`: nothing for an unchanged child;
   * otherwise `task` is finalized by `bundle<BuildType>Aar` when the child has
   * it, `uploadLocalMaven<BuildType>` is created if needed and serves the
   * child, and the bundle task is finalized by the upload task and by the
   * publish task, if any.
   */
  function Hook(s: Tasks, setup: Setup, task: TaskId, buildType: string): (r: Tasks)
    ensures !IsChanged(setup) ==> r == s
    ensures s.tasks <= r.tasks && s.finalizedBy <= r.finalizedBy
    ensures IsChanged(setup) ==>
      var bundle := TaskId(setup.childPath, BundleTaskName(Capitalize(buildType)));
      var upload := TaskId(setup.childPath, UploadTaskName(buildType));
      r.tasks == s.tasks + {upload} && r.uploadOwner == s.uploadOwner[upload := setup.childPath] &&
      (bundle !in s.tasks ==> r.finalizedBy == s.finalizedBy) &&
      (bundle in s.tasks ==>
        (task, bundle) in r.finalizedBy && (bundle, upload) in r.finalizedBy &&
        r.finalizedBy - s.finalizedBy <= {(task, bundle), (bundle, upload), (bundle, TaskId(setup.childPath, PublishTaskName(PublishVariant(bundle.name))))})
  {
    if !IsChanged(setup) then s
    else
      var bundle := TaskId(setup.childPath, BundleTaskName(Capitalize(buildType)));
      var upload := TaskId(setup.childPath, UploadTaskName(buildType));
      var tasks := s.tasks + {upload};
      var edges := if bundle in s.tasks then {(task, bundle), (bundle, upload)} + PublishEdges(tasks, bundle) else {};
      Tasks(tasks, s.finalizedBy + edges, s.uploadOwner[upload := setup.childPath])
  }

  /**
   * The loop over `android.buildTypes` (lines 38-43), from position `i` on,
   * hooking `assemble<flavorPart><BuildType>`: `None` when that task does not
   * exist (`tasks.named` throws; the `?.let` after it never sees null).
   */
  function HookBuildTypes(s: Tasks, setup: Setup, flavorPart: string, buildTypes: seq<string>, i: nat): (r: Option<Tasks>)
    ensures r.Some? ==> s.tasks <= r.value.tasks && s.finalizedBy <= r.value.finalizedBy
    ensures r.Some? && !IsChanged(setup) ==> r.value == s
    decreases |buildTypes| - i
  {
    if i >= |buildTypes| then Some(s)
    else
      var task := TaskId(setup.appPath, AssembleName(flavorPart, buildTypes[i]));
      if task !in s.tasks then None
      else HookBuildTypes(Hook(s, setup, task, buildTypes[i]), setup, flavorPart, buildTypes, i + 1)
  }

  /** The loop over `android.productFlavors` (lines 46-53), from position `i` on. */
  function HookFlavors(s: Tasks, setup: Setup, flavors: seq<string>, buildTypes: seq<string>, i: nat): (r: Option<Tasks>)
    ensures r.Some? ==> s.tasks <= r.value.tasks && s.finalizedBy <= r.value.finalizedBy
    ensures r.Some? && !IsChanged(setup) ==> r.value == s
    decreases |flavors| - i
  {
    if i >= |flavors| then Some(s)
    else match HookBuildTypes(s, setup, Capitalize(flavors[i]), buildTypes, 0)
      case None => None
      case Some(s1) => HookFlavors(s1, setup, flavors, buildTypes, i + 1)
  }

  /** `uploadLocalMaven()`: every build type, then every flavor with every build type. */
  function UploadAll(s: Tasks, setup: Setup, flavors: seq<string>, buildTypes: seq<string>): (r: Option<Tasks>)
    ensures r.Some? ==> s.tasks <= r.value.tasks && s.finalizedBy <= r.value.finalizedBy
    ensures r.Some? && !IsChanged(setup) ==> r.value == s
  {
    match HookBuildTypes(s, setup, "", buildTypes, 0)
    case None => None
    case Some(s1) => HookFlavors(s1, setup, flavors, buildTypes, 0)
  }

  // ---------------------------------------------------------------------------
  // The task graph and the class

  class TaskGraph {
    var tasks: set<TaskId>
    var finalizedBy: set<(TaskId, TaskId)>
    var uploadOwner: map<TaskId, string>

    constructor (tasks: set<TaskId>)
      ensures State() == Tasks(tasks, {}, map[])
    {
      this.tasks := tasks;
      finalizedBy := {};
      uploadOwner := map[];
    }

    function State(): Tasks
      reads this
    {
      Tasks(tasks, finalizedBy, uploadOwner)
    }
  }

  class AarFlatLocalMaven {
    const childPath: string
    const appPath: string
    /** The keys of `mAllChangedProject`, or `None` when the map is null. */
    const changed: Option<set<string>>
    /** The names of the app's `android.buildTypes` and `android.productFlavors`. */
    const buildTypes: seq<string>
    const flavors: seq<string>
    const graph: TaskGraph

    constructor (childPath: string, appPath: string, changed: Option<set<string>>,
                 buildTypes: seq<string>, flavors: seq<string>, graph: TaskGraph)
      ensures this.childPath == childPath && this.appPath == appPath && this.changed == changed
      ensures this.buildTypes == buildTypes && this.flavors == flavors && this.graph == graph
    {
      this.childPath := childPath;
      this.appPath := appPath;
      this.changed := changed;
      this.buildTypes := buildTypes;
      this.flavors := flavors;
      this.graph := graph;
    }

    function Config(): Setup {
      Setup(appPath, childPath, changed)
    }

    /** `getBundleTask(project, variantName)`: `bundle<variantName>Aar` of the project, or null when `named` throws. */
    method GetBundleTask(projectPath: string, variantName: string) returns (bundleTask: Option<TaskId>)
      ensures bundleTask.Some? <==> TaskId(projectPath, BundleTaskName(variantName)) in graph.tasks
      ensures bundleTask.Some? ==> bundleTask.value == TaskId(projectPath, BundleTaskName(variantName))
    {
      var taskPath := "bundle" + variantName + "Aar";
      if TaskId(projectPath, taskPath) in graph.tasks {
        bundleTask := Some(TaskId(projectPath, taskPath));
      } else {
        bundleTask := None;
      }
    }

    method HookBundleAarTask(task: TaskId, buildType: string)
      modifies graph
      ensures graph.State() == Hook(old(graph.State()), Config(), task, buildType)
    {
      if changed.Some? && childPath in changed.value {
        var bundleTask := GetBundleTask(childPath, Capitalize(buildType));
        if bundleTask.Some? {
          graph.finalizedBy := graph.finalizedBy + {(task, bundleTask.value)};      // task.configure { it.finalizedBy(this) }
        }
        var localMavenTask := TaskId(childPath, "uploadLocalMaven" + Capitalize(buildType));
        graph.tasks := graph.tasks + {localMavenTask};                              // maybeCreate
        graph.uploadOwner := graph.uploadOwner[localMavenTask := childPath];        // localMavenTask.localMaven = this
        if bundleTask.Some? {
          var bTask := bundleTask.value;
          graph.finalizedBy := graph.finalizedBy + {(bTask, localMavenTask)};
          var variant := if Contains(Lowercase(bTask.name), "release") then "Release" else "Debug";
          var publishTask := TaskId(childPath, "publishMaven" + variant + "PublicationToLocalRepository");
          if publishTask in graph.tasks {
            graph.finalizedBy := graph.finalizedBy + {(bTask, publishTask)};
          }
        }
      }
    }

    /** `uploadLocalMaven()`; `ok` is false when an assemble task looked up does not exist. */
    method UploadLocalMaven() returns (ok: bool)
      modifies graph
      ensures var r := UploadAll(old(graph.State()), Config(), flavors, buildTypes);
        (ok <==> r.Some?) && (ok ==> graph.State() == r.value)
    {
      ok := HookEachBuildType("");
      if !ok {
        return;
      }
      ghost var s1 := graph.State();
      var f := 0;
      while f < |flavors|
        invariant 0 <= f <= |flavors|
        invariant HookFlavors(graph.State(), Config(), flavors, buildTypes, f) == HookFlavors(s1, Config(), flavors, buildTypes, 0)
      {
        ok := HookEachBuildType(Capitalize(flavors[f]));
        if !ok {
          return;
        }
        f := f + 1;
      }
    }

    /** `android.buildTypes.all { ... tasks.named(ASSEMBLE + flavorPart + buildType.name.capitalize()) ... }` */
    method HookEachBuildType(flavorPart: string) returns (ok: bool)
      modifies graph
      ensures var r := HookBuildTypes(old(graph.State()), Config(), flavorPart, buildTypes, 0);
        (ok <==> r.Some?) && (ok ==> graph.State() == r.value)
    {
      ghost var s0 := graph.State();
      var i := 0;
      while i < |buildTypes|
        invariant 0 <= i <= |buildTypes|
        invariant HookBuildTypes(graph.State(), Config(), flavorPart, buildTypes, i) == HookBuildTypes(s0, Config(), flavorPart, buildTypes, 0)
      {
        var task := TaskId(appPath, Assemble + flavorPart + Capitalize(buildTypes[i]));
        if task !in graph.tasks {
          return false;
        }
        HookBundleAarTask(task, buildTypes[i]);
        i := i + 1;
      }
      ok := true;
    }
  }

  // ---------------------------------------------------------------------------
  // LocalMavenTask

  /** The local cache directory (file name to contents) and the entries `putIntoLocalMaven` has recorded. */
  class LocalMavenCache {
    var files: map<string, string>
    var entries: map<string, string>

    constructor (files: map<string, string>)
      ensures this.files == files && entries == map[]
    {
      this.files := files;
      entries := map[];
    }
  }

  /** The cache directory after an upload of `found` (the first-level aar of project `name`, if any) holding `contents`. */
  function CacheWrite(files: map<string, string>, name: string, found: Option<string>, contents: string): (r: map<string, string>)
    ensures found.None? ==> r == files
    ensures found.Some? ==> AarFile(name) in r && r[AarFile(name)] == contents
    ensures forall k :: k != AarFile(name) ==> (k in r <==> k in files) && (k in r ==> r[k] == files[k])
  {
    if found.None? then files else files[AarFile(name) := contents]
  }

  /** The entries after `putIntoLocalMaven(name, name + ".aar")`, which happens only when an aar was found. */
  function Register(entries: map<string, string>, name: string, found: Option<string>): (r: map<string, string>)
    ensures found.None? ==> r == entries
    ensures found.Some? ==> name in r && r[name] == AarFile(name)
    ensures forall k :: k != name ==> (k in r <==> k in entries) && (k in r ==> r[k] == entries[k])
  {
    if found.None? then entries else entries[name := AarFile(name)]
  }

  class LocalMavenTask {
    /** `getProject().name` */
    const projectName: string
    var inputPath: Option<string>
    var outputPath: Option<string>
    /** `lateinit var localMaven`: the flat local maven the task reports to, with its cache directory. */
    const localMaven: LocalMavenCache

    constructor (projectName: string, localMaven: LocalMavenCache)
      ensures this.projectName == projectName && this.localMaven == localMaven
      ensures inputPath == None && outputPath == None
    {
      this.projectName := projectName;
      this.localMaven := localMaven;
      inputPath := None;
      outputPath := None;
    }

    /**
     * The task action.  `firstLevelAar` is what `findFirstLevelAarPath`
     * returns, `cacheDir` the cache directory and `contents` the contents of
     * the found aar.
     */
    method UploadLocalMaven(firstLevelAar: Option<string>, cacheDir: string, contents: string)
      modifies this, localMaven
      ensures inputPath == firstLevelAar && outputPath == Some(cacheDir)
      ensures localMaven.files == CacheWrite(old(localMaven.files), projectName, firstLevelAar, contents)
      ensures localMaven.entries == Register(old(localMaven.entries), projectName, firstLevelAar)
    {
      inputPath := firstLevelAar;
      outputPath := Some(cacheDir);
      if inputPath.Some? {
        var slot := projectName + ".aar";
        if slot in localMaven.files {
          localMaven.files := localMaven.files - {slot};                        // file.delete()
        }
        localMaven.files := localMaven.files[slot := contents];                 // copyTo(.., overwrite = true)
        localMaven.entries := localMaven.entries[projectName := slot];          // putIntoLocalMaven
      }
    }
  }
}
