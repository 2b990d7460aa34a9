/**
 * What `uploadLocalMaven` guarantees about the task graph, what the cache
 * write of `LocalMavenTask` guarantees, and the two places where the Kotlin
 * code does not do what it evidently means to.
 */
module LocalMavenProperties {
  import opened Wrappers
  import opened KotlinStrings
  import opened DependencyModel
  import opened DependencyRewrite
  import opened FlatLocalMaven

  /** The only tasks a hook creates: `uploadLocalMaven<BuildType>`. */
  predicate IsUploadName(n: string) {
    StartsWith(n, "uploadLocalMaven")
  }

  /**
   * `r` only adds to `s`: tasks and edges are kept, new tasks are upload
   * tasks, and every upload task `r` records serves `child` unless it kept
   * its owner from `s`.
   */
  ghost predicate Extends(s: Tasks, r: Tasks, child: string) {
    s.tasks <= r.tasks && s.finalizedBy <= r.finalizedBy && s.uploadOwner.Keys <= r.uploadOwner.Keys &&
    (forall t :: t in r.tasks && t !in s.tasks ==> IsUploadName(t.name)) &&
    (forall t :: t in r.uploadOwner ==> r.uploadOwner[t] == child || (t in s.uploadOwner && r.uploadOwner[t] == s.uploadOwner[t]))
  }

  lemma ExtendsTrans(s1: Tasks, s2: Tasks, s3: Tasks, child: string)
    requires Extends(s1, s2, child) && Extends(s2, s3, child)
    ensures Extends(s1, s3, child)
  {
  }

  /**
   * Build type `bt` hooked from `assemble<flavorPart><Bt>`: its upload task
   * exists and serves the child, and when the child had `bundle<Bt>Aar` in
   * `s`, the chain assemble, bundle, upload is in place in `r`.
   */
  ghost predicate Hooked(r: Tasks, s: Tasks, setup: Setup, flavorPart: string, bt: string) {
    var bundle := TaskId(setup.childPath, BundleTaskName(Capitalize(bt)));
    var upload := TaskId(setup.childPath, UploadTaskName(bt));
    upload in r.tasks && upload in r.uploadOwner && r.uploadOwner[upload] == setup.childPath &&
    (bundle in s.tasks ==>
      (TaskId(setup.appPath, AssembleName(flavorPart, bt)), bundle) in r.finalizedBy && (bundle, upload) in r.finalizedBy)
  }

  lemma UploadNameIsUpload(bt: string)
    ensures IsUploadName(UploadTaskName(bt))
  {
    assert UploadTaskName(bt)[..16] == "uploadLocalMaven";
  }

  lemma AssembleNotUpload(flavorPart: string, bt: string)
    ensures !IsUploadName(AssembleName(flavorPart, bt))
  {
    assert AssembleName(flavorPart, bt)[0] == 'a';
  }

  lemma HookExtends(s: Tasks, setup: Setup, task: TaskId, bt: string)
    ensures Extends(s, Hook(s, setup, task, bt), setup.childPath)
  {
    UploadNameIsUpload(bt);
  }

  /** Adding only upload tasks never makes an assemble task appear or disappear. */
  lemma ExtendsKeepsAssemble(s: Tasks, r: Tasks, child: string, app: string, flavorPart: string, bt: string)
    requires Extends(s, r, child)
    ensures TaskId(app, AssembleName(flavorPart, bt)) in r.tasks <==> TaskId(app, AssembleName(flavorPart, bt)) in s.tasks
  {
    AssembleNotUpload(flavorPart, bt);
  }

  lemma HookedKept(r1: Tasks, r2: Tasks, s: Tasks, setup: Setup, flavorPart: string, bt: string)
    requires Hooked(r1, s, setup, flavorPart, bt) && Extends(r1, r2, setup.childPath)
    ensures Hooked(r2, s, setup, flavorPart, bt)
  {
  }

  lemma HookedWeaken(r: Tasks, s1: Tasks, s: Tasks, setup: Setup, flavorPart: string, bt: string)
    requires Hooked(r, s1, setup, flavorPart, bt) && s.tasks <= s1.tasks
    ensures Hooked(r, s, setup, flavorPart, bt)
  {
  }

  /**
   * The build-type loop from position `i`: it fails exactly when one of the
   * assemble tasks it looks up is missing; otherwise it only adds to the
   * graph, changes nothing for an unchanged child, and hooks every build type.
   */
  /** One hook of a changed child chains the assemble task it was given. */
  lemma HookIsHooked(s: Tasks, setup: Setup, flavorPart: string, bt: string)
    requires IsChanged(setup)
    ensures Hooked(Hook(s, setup, TaskId(setup.appPath, AssembleName(flavorPart, bt)), bt), s, setup, flavorPart, bt)
  {
    UploadNameIsUpload(bt);
  }

  lemma {:induction false} HookBuildTypesFacts(s: Tasks, setup: Setup, flavorPart: string, bts: seq<string>, i: nat)
    ensures var r := HookBuildTypes(s, setup, flavorPart, bts, i);
      (r.Some? <==> forall j :: i <= j < |bts| ==> TaskId(setup.appPath, AssembleName(flavorPart, bts[j])) in s.tasks) &&
      (r.Some? ==> Extends(s, r.value, setup.childPath)) &&
      (r.Some? && !IsChanged(setup) ==> r.value == s) &&
      (r.Some? && IsChanged(setup) ==> forall j :: i <= j < |bts| ==> Hooked(r.value, s, setup, flavorPart, bts[j]))
    decreases |bts| - i
  {
    if i < |bts| {
      var task := TaskId(setup.appPath, AssembleName(flavorPart, bts[i]));
      if task in s.tasks {
        var s1 := Hook(s, setup, task, bts[i]);
        HookExtends(s, setup, task, bts[i]);
        HookBuildTypesFacts(s1, setup, flavorPart, bts, i + 1);
        var r := HookBuildTypes(s1, setup, flavorPart, bts, i + 1);
        forall j | i + 1 <= j < |bts|
          ensures TaskId(setup.appPath, AssembleName(flavorPart, bts[j])) in s1.tasks
              <==> TaskId(setup.appPath, AssembleName(flavorPart, bts[j])) in s.tasks
        {
          ExtendsKeepsAssemble(s, s1, setup.childPath, setup.appPath, flavorPart, bts[j]);
        }
        if r.Some? {
          ExtendsTrans(s, s1, r.value, setup.childPath);
          if IsChanged(setup) {
            HookIsHooked(s, setup, flavorPart, bts[i]);
            HookedKept(s1, r.value, s, setup, flavorPart, bts[i]);
            forall j | i + 1 <= j < |bts|
              ensures Hooked(r.value, s, setup, flavorPart, bts[j])
            {
              HookedWeaken(r.value, s1, s, setup, flavorPart, bts[j]);
            }
          }
        }
      }
    }
  }

  /** The flavor loop from position `i`, with the same four facts over every flavor and build type. */
  lemma {:induction false} HookFlavorsFacts(s: Tasks, setup: Setup, flavors: seq<string>, bts: seq<string>, i: nat)
    ensures var r := HookFlavors(s, setup, flavors, bts, i);
      (r.Some? <==> forall f, j :: i <= f < |flavors| && 0 <= j < |bts| ==>
         TaskId(setup.appPath, AssembleName(Capitalize(flavors[f]), bts[j])) in s.tasks) &&
      (r.Some? ==> Extends(s, r.value, setup.childPath)) &&
      (r.Some? && !IsChanged(setup) ==> r.value == s) &&
      (r.Some? && IsChanged(setup) ==> forall f, j :: i <= f < |flavors| && 0 <= j < |bts| ==>
         Hooked(r.value, s, setup, Capitalize(flavors[f]), bts[j]))
    decreases |flavors| - i
  {
    if i < |flavors| {
      var fp := Capitalize(flavors[i]);
      HookBuildTypesFacts(s, setup, fp, bts, 0);
      var h := HookBuildTypes(s, setup, fp, bts, 0);
      if h.Some? {
        var s1 := h.value;
        HookFlavorsFacts(s1, setup, flavors, bts, i + 1);
        var r := HookFlavors(s1, setup, flavors, bts, i + 1);
        forall f, j | i + 1 <= f < |flavors| && 0 <= j < |bts|
          ensures TaskId(setup.appPath, AssembleName(Capitalize(flavors[f]), bts[j])) in s1.tasks
              <==> TaskId(setup.appPath, AssembleName(Capitalize(flavors[f]), bts[j])) in s.tasks
        {
          ExtendsKeepsAssemble(s, s1, setup.childPath, setup.appPath, Capitalize(flavors[f]), bts[j]);
        }
        if r.Some? {
          ExtendsTrans(s, s1, r.value, setup.childPath);
          if IsChanged(setup) {
            forall f, j | i <= f < |flavors| && 0 <= j < |bts|
              ensures Hooked(r.value, s, setup, Capitalize(flavors[f]), bts[j])
            {
              if f == i {
                HookedKept(s1, r.value, s, setup, fp, bts[j]);
              } else {
                HookedWeaken(r.value, s1, s, setup, Capitalize(flavors[f]), bts[j]);
              }
            }
          }
        }
      } else {
        var j :| 0 <= j < |bts| && TaskId(setup.appPath, AssembleName(fp, bts[j])) !in s.tasks;
        assert !(i <= i < |flavors| && 0 <= j < |bts| ==>
          TaskId(setup.appPath, AssembleName(Capitalize(flavors[i]), bts[j])) in s.tasks);
      }
    }
  }

  /**
   * `uploadLocalMaven()`: it fails exactly when an assemble task it looks up
   * (`assemble<Bt>` for each build type, `assemble<Flavor><Bt>` for each
   * flavor and build type) does not exist.  Otherwise it only adds tasks and
   * edges, changes nothing for an unchanged child, and for a changed child
   * hooks every one of those assemble tasks.
   */
  lemma UploadHooksEveryVariant(s: Tasks, setup: Setup, flavors: seq<string>, bts: seq<string>)
    ensures var r := UploadAll(s, setup, flavors, bts);
      (r.Some? <==>
        (forall j :: 0 <= j < |bts| ==> TaskId(setup.appPath, AssembleName("", bts[j])) in s.tasks) &&
        (forall f, j :: 0 <= f < |flavors| && 0 <= j < |bts| ==>
           TaskId(setup.appPath, AssembleName(Capitalize(flavors[f]), bts[j])) in s.tasks)) &&
      (r.Some? ==> Extends(s, r.value, setup.childPath)) &&
      (r.Some? && !IsChanged(setup) ==> r.value == s) &&
      (r.Some? && IsChanged(setup) ==>
        (forall j :: 0 <= j < |bts| ==> Hooked(r.value, s, setup, "", bts[j])) &&
        (forall f, j :: 0 <= f < |flavors| && 0 <= j < |bts| ==> Hooked(r.value, s, setup, Capitalize(flavors[f]), bts[j])))
  {
    HookBuildTypesFacts(s, setup, "", bts, 0);
    var h := HookBuildTypes(s, setup, "", bts, 0);
    if h.Some? {
      var s1 := h.value;
      HookFlavorsFacts(s1, setup, flavors, bts, 0);
      var r := HookFlavors(s1, setup, flavors, bts, 0);
      forall f, j | 0 <= f < |flavors| && 0 <= j < |bts|
        ensures TaskId(setup.appPath, AssembleName(Capitalize(flavors[f]), bts[j])) in s1.tasks
            <==> TaskId(setup.appPath, AssembleName(Capitalize(flavors[f]), bts[j])) in s.tasks
      {
        ExtendsKeepsAssemble(s, s1, setup.childPath, setup.appPath, Capitalize(flavors[f]), bts[j]);
      }
      if r.Some? {
        ExtendsTrans(s, s1, r.value, setup.childPath);
        if IsChanged(setup) {
          forall j | 0 <= j < |bts|
            ensures Hooked(r.value, s, setup, "", bts[j])
          {
            HookedKept(s1, r.value, s, setup, "", bts[j]);
          }
          forall f, j | 0 <= f < |flavors| && 0 <= j < |bts|
            ensures Hooked(r.value, s, setup, Capitalize(flavors[f]), bts[j])
          {
            HookedWeaken(r.value, s1, s, setup, Capitalize(flavors[f]), bts[j]);
          }
        }
      }
    }
  }

  /**
   * Hooking a build type again, from the same or another assemble task,
   * reuses the one upload task (`maybeCreate`); hooking the same task twice
   * changes nothing more.
   */
  lemma HookReusesUploadTask(s: Tasks, setup: Setup, t1: TaskId, t2: TaskId, bt: string)
    ensures var r1 := Hook(s, setup, t1, bt);
      var r2 := Hook(r1, setup, t2, bt);
      r2.tasks == r1.tasks && r2.uploadOwner == r1.uploadOwner && (t1 == t2 ==> r2 == r1)
  {
    if IsChanged(setup) {
      var bundle := TaskId(setup.childPath, BundleTaskName(Capitalize(bt)));
      var upload := TaskId(setup.childPath, UploadTaskName(bt));
      assert bundle.name[0] != upload.name[0];
      var r1 := Hook(s, setup, t1, bt);
      assert r1.tasks + {upload} == s.tasks + {upload};
    }
  }

  // ---------------------------------------------------------------------------
  // The two discrepancies in hookBundleAarTask

  /**
   * Without local maven no publish task exists, and then the lookup as
   * written throws for any changed child that has a bundle task, while the
   * intended hook completes the assemble, bundle, upload chain.
   */
  lemma PublishLookupThrows(s: Tasks, setup: Setup, task: TaskId, bt: string)
    requires IsChanged(setup)
    requires TaskId(setup.childPath, BundleTaskName(Capitalize(bt))) in s.tasks
    requires forall v :: TaskId(setup.childPath, PublishTaskName(v)) !in s.tasks
    ensures var bundle := TaskId(setup.childPath, BundleTaskName(Capitalize(bt)));
      var upload := TaskId(setup.childPath, UploadTaskName(bt));
      PublishEdgesAsWritten(s.tasks + {upload}, bundle) == None &&
      Hook(s, setup, task, bt).finalizedBy == s.finalizedBy + {(task, bundle), (bundle, upload)}
  {
    var bundle := TaskId(setup.childPath, BundleTaskName(Capitalize(bt)));
    var upload := TaskId(setup.childPath, UploadTaskName(bt));
    assert PublishTaskName(PublishVariantAsWritten(bundle.name))[0] != upload.name[0];
    assert PublishTaskName(PublishVariant(bundle.name))[0] != upload.name[0];
  }

  /** As written, the bundle task of the `release` build type is paired with the Debug publication. */
  lemma ReleaseBundleGetsDebug()
    ensures BundleTaskName(Capitalize("release")) == "bundleReleaseAar"
    ensures PublishVariantAsWritten(BundleTaskName(Capitalize("release"))) == "Debug"
  {
    assert BundleTaskName(Capitalize("release")) == "bundleReleaseAar";
    MissingFirstChar("bundleReleaseAar", "release");
  }

  /** Ignoring case, every build type whose name contains `release` is paired with the Release publication. */
  lemma ReleaseBundleGetsRelease(bt: string)
    requires Contains(Lowercase(bt), "release")
    ensures PublishVariant(BundleTaskName(Capitalize(bt))) == "Release"
  {
    LowercaseConcat("bundle" + Capitalize(bt), "Aar");
    LowercaseConcat("bundle", Capitalize(bt));
    ContainsWithin(Lowercase("bundle"), Lowercase(bt), Lowercase("Aar"), "release");
  }

  // ---------------------------------------------------------------------------
  // The cache slot written by LocalMavenTask

  /** A later upload of the same project replaces an earlier one: the slot holds the last contents. */
  lemma UploadLastWriteWins(files: map<string, string>, name: string, p1: string, c1: string, p2: string, c2: string)
    ensures CacheWrite(CacheWrite(files, name, Some(p1), c1), name, Some(p2), c2) == CacheWrite(files, name, Some(p2), c2)
  {
  }

  /** The file an upload registers is the one it wrote. */
  lemma RegisteredFileIsCached(files: map<string, string>, entries: map<string, string>, name: string, found: Option<string>, contents: string)
    requires found.Some?
    ensures Register(entries, name, found)[name] in CacheWrite(files, name, found, contents)
  {
  }

  /** Different project names give different cache slots. */
  lemma AarFileInjective(a: string, b: string)
    requires a != b
    ensures AarFile(a) != AarFile(b)
  {
    if |a| == |b| {
      assert AarFile(a)[..|a|] == a && AarFile(b)[..|b|] == b;
    }
  }

  /**
   * The upload writes the slot of `getProject().name`, while the flat
   * substitute (`addAarDependencyToProject`) looks up the slot of
   * `getFlatAarName(project)`.  After an upload the substitute finds its file
   * exactly when the two names agree or the file was cached before, and then
   * adds the flat dependency; otherwise it adds nothing.
   */
  lemma UploadedAarIsSubstituted(g: Graph, flatName: string, projectName: string, configName: string, p: nat,
                                 files: map<string, string>, found: Option<string>, contents: string)
    requires found.Some?
    ensures AddAarDependency(g, flatName, configName, p, CacheWrite(files, projectName, found, contents).Keys)
         == if flatName == projectName || AarFile(flatName) in files
            then AddDep(g, p, configName, FlatArtifact(flatName, "aar"))
            else Some(g)
  {
    if flatName != projectName {
      AarFileInjective(flatName, projectName);
    }
  }
}
