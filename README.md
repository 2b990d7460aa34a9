# RocketX: the dependency rewrite, the flat local maven and the plugin's selections

RocketX is a Gradle plugin that speeds up Android builds. It replaces the
project dependency on each unchanged module with that module's prebuilt aar
(or jar, or local-maven coordinate). It also hooks the app's assemble tasks
so that every changed library is bundled and copied into a flat cache after
it is built. This project models the three Kotlin classes that do this, and
proves what they guarantee:

- `DependenciesHelper` (`dependency_model.dfy`, `dependency_rewrite.dfy`,
  `dependencies_helper.dfy`, `rewrite_properties.dfy`, `self_reference.dfy`).
  - The dependency graph is a sequence of modules. Each module holds its
    configurations in order, and each configuration holds its dependencies
    and artifacts. A Gradle call that throws is `None`.
  - `getFirstLevelParentDependencies`, `getAarByArtifacts` and
    `modifyDependencies` are methods of the class `DependenciesHelper`, with
    loops over these values. Each is proved to compute a specification
    function: `ParentsOf`, `AarsByArtifacts` or `Modify`.
  - `rewrite_properties.dfy` proves what those functions mean:
    - the parent map lists exactly the referring configurations;
    - after the rewrite no configuration refers to the child;
    - the substitute each configuration gets;
    - how the child's own dependencies are promoted;
    - that a second rewrite changes nothing;
    - that the maven notation parses back into its coordinates.
  - `self_reference.dfy` proves that the rewrite makes no project depend on
    itself, unless the child depended on one of its own parents.
- `AarFlatLocalMaven` (`local_maven.dfy`, `local_maven_properties.dfy`).
  - The task container and the `finalizedBy` relation are the fields of a
    `TaskGraph`.
  - `hookBundleAarTask`, `uploadLocalMaven` and `getBundleTask` are methods
    of the class `AarFlatLocalMaven`. Each is proved against the functions
    `Hook`, `UploadAll` and `HookBuildTypes`.
  - `LocalMavenTask.uploadLocalMaven` overwrites one slot of a
    `LocalMavenCache` and registers it.
- `RocketXPlugin` (`rocketx_plugin.dfy`, `plugin_properties.dfy`).
  - The two early exits of `apply`.
  - The insertion of excluded modules into the changed-project map.
  - The maven-publish selection.
  - The task-execution listener.
  - `doAfterEvaluated`, which picks the modules that get an aar hook or a
    jar hook and runs each aar hook on the task graph.

Project identity is a position in the project list, and a changed-project
map is the set of its keys (or `None` when the map is null). Strings are
`seq<char>`. `contains`, `startsWith` and `capitalize` are case-sensitive,
as in Kotlin. The hook itself follows the evident intent of the two
findings below: its publish lookup does not throw, and it picks the Release
publication ignoring case.

## Model

| member | source | states |
|---|---|---|
| `KotlinStrings.Lowercase` | buildSrc/src/main/kotlin/plugin/RocketXPlugin.kt:59 | `toLowerCase(Locale.ROOT)`: same length, every character lower-cased (ASCII letters) |
| `KotlinStrings.LowercaseContains` | buildSrc/src/main/kotlin/plugin/RocketXPlugin.kt:59 | an occurrence of `t` in `s` is still an occurrence after lower-casing both |
| `KotlinStrings.MissingFirstChar` | buildSrc/src/main/kotlin/plugin/RocketXPlugin.kt:97 | the case-sensitive `contains` is false when no position where `t` could start holds its first character |
| `KotlinStrings.LastIndexOf` | buildSrc/src/main/kotlin/plugin/utils/DependenciesHelper.kt:190 | `-1` exactly when the character is absent; otherwise a position holding it with none after it |
| `KotlinStrings.Capitalize` | buildSrc/src/main/kotlin/plugin/localmaven/AarFlatLocalMaven.kt:39 | `capitalize()`: same length, an ASCII first letter becomes upper-case, every later character is kept, and ignoring case the string is unchanged |
| `DependencyModel.FindConfig` | buildSrc/src/main/kotlin/plugin/utils/DependenciesHelper.kt:119 | the configuration a name resolves to is the first with that name; `None` exactly when no configuration has it |
| `DependencyModel.AddDep` | buildSrc/src/main/kotlin/plugin/utils/DependenciesHelper.kt:119 | `dependencies.add(name, d)` throws exactly when the project has no configuration `name`; otherwise it appends `d` to that configuration and changes no other configuration |
| `DependencyModel.Without` | buildSrc/src/main/kotlin/plugin/utils/DependenciesHelper.kt:80-82 | `removeAll` keeps exactly the dependencies that are not project dependencies on the child |
| `DependencyModel.RemoveRefs` | buildSrc/src/main/kotlin/plugin/utils/DependenciesHelper.kt:80-82 | only the one parent configuration changes, to its dependencies without the child |
| `DependencyModel.SetDep` | buildSrc/src/main/kotlin/plugin/utils/DependenciesHelper.kt:112-114 | only the child's configuration changes, at the one position |
| `DependencyModel.MaybeCreate` | buildSrc/src/main/kotlin/plugin/utils/DependenciesHelper.kt:73 | afterwards the configuration exists; the graph is unchanged if it existed, else an empty one is appended; nothing is lost |
| `DependencyRewrite.ConfigRefsUpToExact` | buildSrc/src/main/kotlin/plugin/utils/DependenciesHelper.kt:36-53 | the configurations recorded for one project are exactly those holding a project dependency on the child, each once, in order |
| `DependencyRewrite.ParentsUpTo` | buildSrc/src/main/kotlin/plugin/utils/DependenciesHelper.kt:31-57 | soundness of the map from the first `n` projects: each entry is for one of them, lists exactly that project's referring configurations (non-empty), and entries are in project order; that every referring project has an entry is `RewriteProperties.ParentsOfExact` |
| `DependencyRewrite.ParentsOf` | buildSrc/src/main/kotlin/plugin/utils/DependenciesHelper.kt:31-57 | the same soundness for the whole map `getFirstLevelParentDependencies` returns |
| `DependencyRewrite.RemoveExtension` | buildSrc/src/main/kotlin/plugin/utils/DependenciesHelper.kt:189-196 | a name without `.` is returned unchanged; otherwise the prefix before the last `.`, so the removed suffix holds no `.` |
| `DependencyRewrite.AarArtifacts` | buildSrc/src/main/kotlin/plugin/utils/DependenciesHelper.kt:172-176 | exactly the `DefaultPublishArtifact`s of type `aar` are selected |
| `DependencyRewrite.AarsByArtifacts` | buildSrc/src/main/kotlin/plugin/utils/DependenciesHelper.kt:168-186 | scanning the child's artifacts changes the graph only by creating the child's `default` configuration when it has none (`MaybeCreate`), so every project, configuration and artifact is kept |
| `DependencyRewrite.DefaultTarget` | buildSrc/src/main/kotlin/plugin/utils/DependenciesHelper.kt:112-114 | a project dependency without target gets `default`; one with a target, and every other dependency, is unchanged |
| `DependencyRewrite.MavenNotation` | buildSrc/src/main/kotlin/plugin/utils/DependenciesHelper.kt:159-165 | the notation starts with the group id and `:`, and ends in `@aar` for an Android library and `@jar` otherwise (its round trip is `RewriteProperties.MavenNotationParses`) |
| `DependencyRewrite.AddAarDependency` | buildSrc/src/main/kotlin/plugin/utils/DependenciesHelper.kt:138-145 | without the cached `<name>.aar` nothing changes; with it the call throws exactly when the project lacks the configuration, and otherwise only that configuration changes, gaining `(name, aar)` at its end |
| `DependencyRewrite.AddJarDependency` | buildSrc/src/main/kotlin/plugin/utils/DependenciesHelper.kt:147-154 | the same with the cached `<name>.jar` and `(name, jar)` |
| `DependencyRewrite.AddMavenDependency` | buildSrc/src/main/kotlin/plugin/utils/DependenciesHelper.kt:156-166 | throws exactly when the project lacks the configuration; otherwise only that configuration changes, gaining the maven notation at its end |
| `DependencyRewrite.Substitute` | buildSrc/src/main/kotlin/plugin/utils/DependenciesHelper.kt:84-106 | throws only when the parent lacks the configuration; adds or removes no project; a local-maven child that is neither an Android nor a Java library adds nothing (the full effect is `RewriteProperties.SubstituteEffect`) |
| `DependencyRewrite.PromoteDep` | buildSrc/src/main/kotlin/plugin/utils/DependenciesHelper.kt:110-130 | a file-collection or file-tree dependency changes nothing; no project is added or removed (the full effect is `RewriteProperties.PromoteDepEffect`) |
| `DependencyRewrite.PromoteConfigDeps` | buildSrc/src/main/kotlin/plugin/utils/DependenciesHelper.kt:110-131 | no project is added or removed; a child configuration holding only file sets promotes nothing (the full effect is `RewriteProperties.PromoteChildConfigEffect`) |
| `DependencyRewrite.RewriteConfig` | buildSrc/src/main/kotlin/plugin/utils/DependenciesHelper.kt:79-132 | removal, substitution and promotion for one parent configuration add or remove no project (what they do to the configurations is `RewriteProperties.RewriteConfigRefs` and the effect lemmas) |
| `DependencyRewrite.Modify` | buildSrc/src/main/kotlin/plugin/utils/DependenciesHelper.kt:62-135 | `modifyDependencies` adds or removes no project and deletes no cached file; with no parent it only creates the child's `default` configuration (its main properties are `RewriteProperties.ModifyRemovesChild` and `ModifyIdempotent`) |
| `ParentMap.RecordEntry` | buildSrc/src/main/kotlin/plugin/utils/DependenciesHelper.kt:42-48 | recording a configuration of the project scanned last appends it to that project's entry, or creates the entry |
| `Helper.FindChildDependency` | buildSrc/src/main/kotlin/plugin/utils/DependenciesHelper.kt:39-51 | the scan stops at the first project dependency on the child (`return@loop`), or reports that there is none |
| `Helper.RecordParentConfigs` | buildSrc/src/main/kotlin/plugin/utils/DependenciesHelper.kt:36-53 | the loop over one project's configurations adds that project's entry of referring configurations |
| `Helper.SelectAarArtifacts` | buildSrc/src/main/kotlin/plugin/utils/DependenciesHelper.kt:172-176 | the filtering loop computes `AarArtifacts` |
| `Helper.CopyAarArtifacts` | buildSrc/src/main/kotlin/plugin/utils/DependenciesHelper.kt:179-183 | every selected file is copied into the cache and its name without extension is listed, in order |
| `Helper.DependenciesHelper.constructor` | buildSrc/src/main/kotlin/plugin/utils/DependenciesHelper.kt:22-28 | local-maven mode is on exactly when `rocketXBean?.localMaven` is `true` |
| `Helper.DependenciesHelper.GetFirstLevelParentDependencies` | buildSrc/src/main/kotlin/plugin/utils/DependenciesHelper.kt:31-57 | the nested loops return the parent map `ParentsOf` (whose meaning is `RewriteProperties.ParentsOfExact`) |
| `Helper.DependenciesHelper.GetAarByArtifacts` | buildSrc/src/main/kotlin/plugin/utils/DependenciesHelper.kt:168-186 | the graph, names and cache afterwards are those of `AarsByArtifacts` |
| `Helper.DependenciesHelper.ModifyDependencies` | buildSrc/src/main/kotlin/plugin/utils/DependenciesHelper.kt:62-135 | the graph afterwards is `Modify`'s, and the call throws exactly when `Modify` does |
| `Helper.DependenciesHelper.AddArtifactAarsToApi` | buildSrc/src/main/kotlin/plugin/utils/DependenciesHelper.kt:70-75 | the artifact-aar loop for one parent computes `AddArtifactAars` |
| `Helper.DependenciesHelper.RewriteParentConfigs` | buildSrc/src/main/kotlin/plugin/utils/DependenciesHelper.kt:78-133 | the loop over one parent's referring configurations computes `RewriteConfigs` |
| `Helper.DependenciesHelper.RewriteParentConfig` | buildSrc/src/main/kotlin/plugin/utils/DependenciesHelper.kt:79-132 | the removal, substitution and promotion for one parent configuration compute `RewriteConfig` |
| `Helper.DependenciesHelper.PromoteChildConfig` | buildSrc/src/main/kotlin/plugin/utils/DependenciesHelper.kt:109-131 | the loop over one child configuration's dependencies computes `PromoteConfigDeps` |
| `Helper.DependenciesHelper.PromoteDependency` | buildSrc/src/main/kotlin/plugin/utils/DependenciesHelper.kt:111-129 | one dependency is promoted as `PromoteDep` says, which is one step of `PromoteConfigDeps` |
| `RewriteProperties.ParentsOfExact` | buildSrc/src/main/kotlin/plugin/utils/DependenciesHelper.kt:31-57 | configuration `k` of project `m` is listed exactly when it holds a project dependency on the child; parents are in project order and each one's configurations are increasing |
| `RewriteProperties.NoParents` | buildSrc/src/main/kotlin/plugin/utils/DependenciesHelper.kt:31-57 | with no referring configuration the parent map is empty |
| `RewriteProperties.ModifyRemovesChild` | buildSrc/src/main/kotlin/plugin/utils/DependenciesHelper.kt:62-135 | after a successful rewrite no configuration of any project refers to the child; no project, configuration name or artifact is lost; the child has a `default` configuration |
| `SelfReference.ModifyNoSelfReference` | buildSrc/src/main/kotlin/plugin/utils/DependenciesHelper.kt:62-135 | after a successful rewrite no project depends on itself, when none did before and the child depended on none of its parents |
| `SelfReference.ModifyKeepsModule` | buildSrc/src/main/kotlin/plugin/utils/DependenciesHelper.kt:78-133 | under the same conditions, each single project is still free of dependencies on its own name after the rewrite |
| `SelfReference.CycleGivesSelfReference` | buildSrc/src/main/kotlin/plugin/utils/DependenciesHelper.kt:109-131 | when the child `c` depends on its parent `p`, promoting `c`'s dependencies gives `p` a dependency on itself |
| `RewriteProperties.ModifyIdempotent` | buildSrc/src/main/kotlin/plugin/utils/DependenciesHelper.kt:62-135 | rewriting again, with the cache the first rewrite left, changes neither the graph nor the cache |
| `RewriteProperties.RescanSame` | buildSrc/src/main/kotlin/plugin/utils/DependenciesHelper.kt:168-186 | scanning the child's artifacts again after the rewrite gives the same names and cache and no change |
| `RewriteProperties.PromotedMeaning` | buildSrc/src/main/kotlin/plugin/utils/DependenciesHelper.kt:109-131 | the promoted list holds no file-set dependency; it holds each project dependency as a copy without target; it holds every other dependency verbatim, and nothing else |
| `RewriteProperties.PromoteDepEffect` | buildSrc/src/main/kotlin/plugin/utils/DependenciesHelper.kt:111-129 | promoting one dependency fails exactly when it must be added and the parent lacks the configuration; else the parent gains its promoted form, the child's copy gets its default target, and nothing else changes |
| `RewriteProperties.PromoteChildConfigEffect` | buildSrc/src/main/kotlin/plugin/utils/DependenciesHelper.kt:109-131 | for a whole child configuration: the parent's configuration of the same name gains `Promoted(deps)` and the child's becomes `Defaulted(deps)`; it fails exactly when something is to be added and the parent has no such configuration |
| `RewriteProperties.SubstituteEffect` | buildSrc/src/main/kotlin/plugin/utils/DependenciesHelper.kt:84-106 | local-maven mode adds the `@aar` or `@jar` coordinate exactly when the child is an Android or Java library; flat mode adds `(name, ext)` exactly when the cached file exists; nothing else changes |
| `RewriteProperties.MavenNotationParses` | buildSrc/src/main/kotlin/plugin/utils/DependenciesHelper.kt:156-166 | the notation `group:artifact:1.0@aar` (or `@jar`) parses back into exactly those coordinates |
| `RewriteProperties.RemoveExtensionOfExtended` | buildSrc/src/main/kotlin/plugin/utils/DependenciesHelper.kt:189-196 | removing the extension from `base.ext` gives back `base` |
| `RewriteProperties.ArtifactAarsCached` | buildSrc/src/main/kotlin/plugin/utils/DependenciesHelper.kt:168-186 | exactly the child's aar artifacts are added to the cache; the names listed are exactly their names without extension |
| `RewriteProperties.AddArtifactAarsEffect` | buildSrc/src/main/kotlin/plugin/utils/DependenciesHelper.kt:66-75 | the parent's `api` configuration (created if absent) gains each artifact aar whose cached file exists, in order; nothing else changes |
| `FlatLocalMaven.PublishEdges` | buildSrc/src/main/kotlin/plugin/localmaven/AarFlatLocalMaven.kt:76-87 | the bundle task gains the publish edge exactly when the publish task exists, and no other edge |
| `FlatLocalMaven.PublishVariantAsWritten` | buildSrc/src/main/kotlin/plugin/localmaven/AarFlatLocalMaven.kt:78-82 | as written: the Release publication exactly when the bundle task's name contains lower-case `release`, the Debug one otherwise |
| `FlatLocalMaven.PublishEdgesAsWritten` | buildSrc/src/main/kotlin/plugin/localmaven/AarFlatLocalMaven.kt:76-87 | as written: the lookup throws exactly when the chosen publish task is missing, and otherwise the bundle task gains exactly the edge to it |
| `FlatLocalMaven.Hook` | buildSrc/src/main/kotlin/plugin/localmaven/AarFlatLocalMaven.kt:57-90 | unchanged child: nothing changes; changed child: the upload task exists and serves the child; when the bundle task exists, assemble → bundle → upload edges are added (plus at most the publish edge), else no edge |
| `FlatLocalMaven.AarFlatLocalMaven.GetBundleTask` | buildSrc/src/main/kotlin/plugin/localmaven/AarFlatLocalMaven.kt:93-101 | the task `bundle<Variant>Aar` of the project when it exists, `null` otherwise |
| `FlatLocalMaven.AarFlatLocalMaven.HookBundleAarTask` | buildSrc/src/main/kotlin/plugin/localmaven/AarFlatLocalMaven.kt:57-90 | the task graph afterwards is `Hook` of the graph before |
| `FlatLocalMaven.AarFlatLocalMaven.UploadLocalMaven` | buildSrc/src/main/kotlin/plugin/localmaven/AarFlatLocalMaven.kt:34-54 | the task graph afterwards is `UploadAll`'s; it throws exactly when `UploadAll` does |
| `FlatLocalMaven.AarFlatLocalMaven.HookEachBuildType` | buildSrc/src/main/kotlin/plugin/localmaven/AarFlatLocalMaven.kt:38-43 | the build-type loop computes `HookBuildTypes` |
| `FlatLocalMaven.HookBuildTypes` | buildSrc/src/main/kotlin/plugin/localmaven/AarFlatLocalMaven.kt:38-43 | the build-type loop only adds tasks and edges, and changes nothing for an unchanged child (which build types end up hooked is `LocalMavenProperties.HookBuildTypesFacts`) |
| `FlatLocalMaven.HookFlavors` | buildSrc/src/main/kotlin/plugin/localmaven/AarFlatLocalMaven.kt:46-53 | the same for the flavor loop (`LocalMavenProperties.HookFlavorsFacts`) |
| `FlatLocalMaven.UploadAll` | buildSrc/src/main/kotlin/plugin/localmaven/AarFlatLocalMaven.kt:34-54 | `uploadLocalMaven` only adds tasks and edges, and changes nothing for an unchanged child (`LocalMavenProperties.UploadHooksEveryVariant`) |
| `FlatLocalMaven.CacheWrite` | buildSrc/src/main/kotlin/plugin/localmaven/AarFlatLocalMaven.kt:120-127 | with an input aar, slot `<project>.aar` holds exactly its contents and every other file is untouched; without one nothing changes |
| `FlatLocalMaven.Register` | buildSrc/src/main/kotlin/plugin/localmaven/AarFlatLocalMaven.kt:128 | with an input aar, the entry `(name, name.aar)` is registered and the others kept; without one nothing changes |
| `FlatLocalMaven.LocalMavenTask.UploadLocalMaven` | buildSrc/src/main/kotlin/plugin/localmaven/AarFlatLocalMaven.kt:112-130 | the task records its paths, and the cache's files and entries become `CacheWrite` and `Register` of the old ones |
| `LocalMavenProperties.HookExtends` | buildSrc/src/main/kotlin/plugin/localmaven/AarFlatLocalMaven.kt:57-90 | a hook only adds: it keeps every task and edge, the only tasks it creates are `uploadLocalMaven*` tasks, and any upload task whose owner it changes now serves this child |
| `LocalMavenProperties.HookReusesUploadTask` | buildSrc/src/main/kotlin/plugin/localmaven/AarFlatLocalMaven.kt:68-72 | a second hook for the same build type creates no task (maybe-create); with the same assemble task it changes nothing |
| `LocalMavenProperties.HookBuildTypesFacts` | buildSrc/src/main/kotlin/plugin/localmaven/AarFlatLocalMaven.kt:38-43 | with the corrected publish lookup, the loop succeeds exactly when every `assemble<BuildType>` exists; for a changed child every build type ends up hooked; an unchanged child changes nothing |
| `LocalMavenProperties.HookFlavorsFacts` | buildSrc/src/main/kotlin/plugin/localmaven/AarFlatLocalMaven.kt:46-53 | the same for every flavor with every build type, with the corrected publish lookup |
| `LocalMavenProperties.UploadHooksEveryVariant` | buildSrc/src/main/kotlin/plugin/localmaven/AarFlatLocalMaven.kt:34-54 | with the corrected publish lookup, `uploadLocalMaven` succeeds exactly when all those assemble tasks exist, and then hooks every build type and every flavor × build type |
| `LocalMavenProperties.PublishLookupThrows` | buildSrc/src/main/kotlin/plugin/localmaven/AarFlatLocalMaven.kt:83-84 | as written, the publish lookup throws when the child has no publish task; the corrected hook then adds just the bundle and upload edges |
| `LocalMavenProperties.ReleaseBundleGetsDebug` | buildSrc/src/main/kotlin/plugin/localmaven/AarFlatLocalMaven.kt:78 | as written, the bundle task of build type `release` (`bundleReleaseAar`) is paired with the Debug publication |
| `LocalMavenProperties.ReleaseBundleGetsRelease` | buildSrc/src/main/kotlin/plugin/localmaven/AarFlatLocalMaven.kt:78 | corrected: every build type whose name contains `release` in any case gets the Release publication |
| `LocalMavenProperties.UploadLastWriteWins` | buildSrc/src/main/kotlin/plugin/localmaven/AarFlatLocalMaven.kt:121-127 | two uploads of the same project leave only the second file in its slot |
| `LocalMavenProperties.RegisteredFileIsCached` | buildSrc/src/main/kotlin/plugin/localmaven/AarFlatLocalMaven.kt:127-128 | the registered file name is a file present in the cache |
| `LocalMavenProperties.UploadedAarIsSubstituted` | buildSrc/src/main/kotlin/plugin/localmaven/AarFlatLocalMaven.kt:120-128 | the upload writes the slot of the project's name; afterwards the flat substitute, which looks up the slot of `getFlatAarName`, adds `(flatName, aar)` exactly when the two names agree or that file was already cached, and otherwise adds nothing |
| `RocketX.Apply` | buildSrc/src/main/kotlin/plugin/RocketXPlugin.kt:54-61 | nothing is installed exactly when the plugin is disabled, the project has the Android plugin or is not being run; otherwise the build is skipped exactly when the lower-cased flavor/build type contains `release` |
| `RocketX.MavenPublishTargets` | buildSrc/src/main/kotlin/plugin/RocketXPlugin.kt:77-85 | maven-publish is configured for a project exactly when `localMaven == true` and the project is not named `app`, is not the root and has no children |
| `RocketX.HookFor` | buildSrc/src/main/kotlin/plugin/RocketXPlugin.kt:141-160 | a project gets a hook exactly when it is a changed leaf module that is an Android or Java library; Android libraries get the aar hook, the others the jar hook |
| `RocketX.JarHooked` | buildSrc/src/main/kotlin/plugin/RocketXPlugin.kt:157-159 | the jar-hooked paths are exactly those of projects whose hook is the jar hook |
| `RocketX.IsLeafModule` | buildSrc/src/main/kotlin/plugin/RocketXPlugin.kt:141 | a leaf module not named `app` passes the per-project test of the maven-publish selection (`SkipsPublish` does not hold), so it is a maven-publish target when `localMaven == true` |
| `RocketX.HookProjects` | buildSrc/src/main/kotlin/plugin/RocketXPlugin.kt:139-163 | the loop over all projects only adds tasks and edges, and with no aar-hooked project left it changes nothing (`PluginProperties.HookProjectsChained` gives the chains) |
| `RocketX.Excluded` | buildSrc/src/main/kotlin/plugin/RocketXPlugin.kt:72-76 | the map stays null exactly when it was null; without an exclusion list it is unchanged; otherwise it keeps every key, and every new key resolves to a project (`PluginProperties.ExcludedModulesInserted`) |
| `RocketX.DisabledByName` | buildSrc/src/main/kotlin/plugin/RocketXPlugin.kt:97 | a task disabled by name has at least four characters and contains an upper-case `T` or `L`, so `lint`, `check` or `assembleDebug` are never disabled |
| `RocketX.AfterExecuteAll` | buildSrc/src/main/kotlin/plugin/RocketXPlugin.kt:102-108 | a set flag stays set, and events none of which flushes leave it as it was (`PluginProperties.FlushedIffAssembleSucceeded` is the exact condition) |
| `RocketX.RocketXPlugin.ExcludeModules` | buildSrc/src/main/kotlin/plugin/RocketXPlugin.kt:72-76 | the changed map afterwards is `Excluded` of the one before; the flush flag is untouched |
| `RocketX.RocketXPlugin.ConfigureMavenPublish` | buildSrc/src/main/kotlin/plugin/RocketXPlugin.kt:77-85 | the loop configures exactly `MavenPublishTargets`, in order |
| `RocketX.RocketXPlugin.BeforeExecute` | buildSrc/src/main/kotlin/plugin/RocketXPlugin.kt:96-100 | a task is disabled exactly when its name contains `Test` or `Lint`; otherwise its enabled state is kept |
| `RocketX.RocketXPlugin.AfterExecute` | buildSrc/src/main/kotlin/plugin/RocketXPlugin.kt:102-108 | the flush happens exactly after an `assemble*` task without failure; the changed map is untouched |
| `RocketX.RocketXPlugin.DoAfterEvaluated` | buildSrc/src/main/kotlin/plugin/RocketXPlugin.kt:135-163 | the task graph afterwards is `HookProjects`'s and the jar-hooked projects are `JarHooked`'s; it throws exactly when an aar hook does |
| `PluginProperties.ReleaseInAnyCaseSkips` | buildSrc/src/main/kotlin/plugin/RocketXPlugin.kt:59-61 | a flavor/build type containing `release` in any mix of cases skips the plugin |
| `PluginProperties.FlushedIffAssembleSucceeded` | buildSrc/src/main/kotlin/plugin/RocketXPlugin.kt:102-108 | over a run of tasks the flag is set exactly when it was set before or some `assemble*` task succeeded |
| `PluginProperties.DisabledTaskNames` | buildSrc/src/main/kotlin/plugin/RocketXPlugin.kt:97 | `testDebugUnitTest` is disabled; `lintDebug` is not, because the comparison is case-sensitive |
| `PluginProperties.InsertExcludedMeaning` | buildSrc/src/main/kotlin/plugin/RocketXPlugin.kt:72-76 | each exclusion that resolves to a project is a key holding that project; every other key and value is kept |
| `PluginProperties.ExcludedModulesInserted` | buildSrc/src/main/kotlin/plugin/RocketXPlugin.kt:72-76 | a null map stays null; no exclusion list changes nothing; otherwise the keys are the old ones plus the resolving exclusions |
| `PluginProperties.UploadChainsProject` | buildSrc/src/main/kotlin/plugin/RocketXPlugin.kt:155-162 | one aar hook chains every assemble task of the app to the child's bundle and upload tasks |
| `PluginProperties.HookProjectsChained` | buildSrc/src/main/kotlin/plugin/RocketXPlugin.kt:139-163 | every project that gets an aar hook has the full chain for every build type and every flavor × build type |
| `PluginProperties.NullMapHooksNothing` | buildSrc/src/main/kotlin/plugin/RocketXPlugin.kt:144-146 | with a null changed map no project is hooked, aar or jar |

## Left out

- File copying and deletion are updates of a set or map of cache file names. `FileUtil.getLocalMavenCacheDir` and `FileUtil.findFirstLevelAarPath` become parameters (the located aar and its contents).
- The helpers whose code is not part of this model arrive as booleans and strings: `hasAndroidPlugin`, `hasJavaPlugin`, `hasAppPlugin`, `getFlatAarName`, `getMavenGroupId`, `getMavenArtifactId`, the `LibraryExtension` lookup and `getFlavorBuildType`.
- `getFlatAarName` is a parameter. The upload writes the slot of the project's name, so the flat substitute finds the uploaded aar only when `getFlatAarName` returns that name; `LocalMavenProperties.UploadedAarIsSubstituted` states both cases, and which one holds is not part of this model.
- `ChangeModuleUtils` becomes a flag. The change-detection map is an input, and `flushJsonFile` is the `flushed` field.
- `JarFlatLocalMaven` is not part of this model. `doAfterEvaluated` only reports which projects it would be given. `AppProjectDependencies` and `LocalMaven` are not part of this model either.
- The adb install (`InstallApkByAdb`, RocketXPlugin.kt:165) is an external process.
- Logging, `println` and `pritlnDependencyGraph` produce output only.
- `flatDirs` (repository registration), `speedBuildByOption` and `boostGradleOption` are left out. They set Gradle options and reach AGP internals by reflection.
- The `mavenPublish` configuration body is left out: only the choice of projects is modelled.
- `modifyDependenciesV2` is an empty TODO.
- Gradle's task scheduling is left out. The model does not replay the `beforeExecute`/`afterExecute` callbacks in a schedule; `AfterExecuteAll` folds over any given order.
- The laziness of `task.configure` is left out. An edge is added when the hook runs.
- `DependencySet` deduplication is not assumed. Adding an equal dependency twice appends it twice.
- `KotlinStrings.Lowercase`: only ASCII letters are case-mapped. `Locale.ROOT` also maps non-ASCII letters.
- `KotlinStrings.Capitalize`: only an ASCII first letter is upper-cased. Kotlin's `capitalize()` title-cases any first letter.
- `Helper.DependenciesHelper.ModifyDependencies`: requires the changed child to be one of the projects in the list. The source takes its wrapper separately, but its configurations are the same objects.
- `RewriteProperties.ModifyRemovesChild`: requires that the child has no project dependency on itself. Promotion would otherwise re-add the child's own project dependencies to itself.
- `SelfReference.ModifyNoSelfReference`: requires that the child depends on none of the projects that depend on it, a two-project cycle that Gradle refuses when it resolves the graph. `SelfReference.CycleGivesSelfReference` shows the self-dependency the rewrite would create otherwise.
- `RewriteProperties.ModifyIdempotent`: requires that the child has no project dependency on itself, for the same reason.
- `FlatLocalMaven.PublishEdges`: follows the evident intent of both findings. It adds no edge when there is no publish task, where the code throws. It picks the Release publication when the bundle task's name contains `release` in any case, where the code's test is case-sensitive and gives `bundleReleaseAar` the Debug publication. `PublishEdgesAsWritten` and `PublishVariantAsWritten` keep the code as written.
- `FlatLocalMaven.Hook`: its publish edge is `PublishEdges`'s, so it carries both corrections: no throw without a publish task, and the Release publication for `bundleReleaseAar`.
- `FlatLocalMaven.AarFlatLocalMaven.HookBundleAarTask`: computes `Hook`, so it carries the same two corrections. It lower-cases the bundle task's name before the `release` test, and it adds no publish edge where the code's lookup throws.
- `LocalMavenProperties.HookBuildTypesFacts`: its success condition is that of the corrected publish lookup. As written, the hook of a changed library with a bundle task also throws when its publish task is missing (first Findings row).
- `LocalMavenProperties.HookFlavorsFacts`: the same corrected success condition, for the flavor loop.
- `LocalMavenProperties.UploadHooksEveryVariant`: the same corrected success condition, for the whole of `uploadLocalMaven`.
- `FlatLocalMaven.UploadAll`: built on `Hook`, so it does not throw where the as-written publish lookup does.
- `FlatLocalMaven.AarFlatLocalMaven.UploadLocalMaven`: computes `UploadAll`, so it does not throw where the as-written publish lookup does.
- `RocketX.HookProjects`: runs `UploadAll` for each aar-hooked project, so it does not throw where the as-written publish lookup does.
- `RocketX.RocketXPlugin.DoAfterEvaluated`: computes `HookProjects`, so it does not throw where the as-written publish lookup does.
- `FlatLocalMaven.LocalMavenTask.UploadLocalMaven`: the copied aar's contents are a parameter, and `putIntoLocalMaven` is the `Register` update of a name-to-file map.

## Findings

| source | as written | input that shows it | evidently intended | confidence | as-written member | corrected member |
|---|---|---|---|---|---|---|
| buildSrc/src/main/kotlin/plugin/localmaven/AarFlatLocalMaven.kt:83-84 | `tasks.named(...)` throws `UnknownTaskException` when the publish task is missing, so the `.orNull` and `?.let` never see `null`. Maven-publish is configured only when `localMaven == true` (RocketXPlugin.kt:77-85), so in flat mode every hook of a changed library with a bundle task throws. | a changed Android library with a `bundleDebugAar` task and no `publishMaven…PublicationToLocalRepository` task | no publish edge is added when there is no publish task (`findByName` or `names.contains`) | medium, not executed | `LocalMavenProperties.PublishLookupThrows` | `FlatLocalMaven.PublishEdges` |
| buildSrc/src/main/kotlin/plugin/localmaven/AarFlatLocalMaven.kt:78 | `bTask.name.contains("release")` is case-sensitive, but the bundle task name is `bundle` + capitalized build type + `Aar` | build type `release`: the task `bundleReleaseAar` does not contain `release`, so the Debug publication is chosen | the Release publication for release builds (compare ignoring case, like RocketXPlugin.kt:59) | high, not executed | `LocalMavenProperties.ReleaseBundleGetsDebug` | `LocalMavenProperties.ReleaseBundleGetsRelease` |

In both rows the model's hook (`FlatLocalMaven.Hook`, through
`PublishEdges` and `PublishVariant`) follows the evident intent.
`PublishEdgesAsWritten` and `PublishVariantAsWritten` keep the behaviour as
written.
