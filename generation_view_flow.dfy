/** The state the three generation screens keep (Packagify/GenerationViewFlow.swift):
    the file selection, the platform toggles and the package folder written
    before export. */
module GenerationViewFlow {
  import opened Wrappers
  import opened Storage
  import Strings
  import opened ContentView
  import opened GeneratePackage

  // ---------------------------------------------------------------------------
  // Selection
  // ---------------------------------------------------------------------------

  /** The files of a list, as a set. */
  function FileSet(files: seq<SwiftFile>): set<SwiftFile> {
    set f | f in files
  }

  /** No file occurs twice. */
  predicate Distinct(files: seq<SwiftFile>) {
    forall i, j :: 0 <= i < j < |files| ==> files[i] != files[j]
  }

  /** A list without repetitions has as many files as its set. */
  lemma {:induction false} DistinctCount(files: seq<SwiftFile>)
    requires Distinct(files)
    ensures |FileSet(files)| == |files|
    decreases |files|
  {
    if |files| > 0 {
      var rest := files[1..];
      assert Distinct(rest) by {
        forall i, j | 0 <= i < j < |rest| ensures rest[i] != rest[j] {
          assert rest[i] == files[i + 1] && rest[j] == files[j + 1];
        }
      }
      DistinctCount(rest);
      assert FileSet(files) == {files[0]} + FileSet(rest);
      assert files[0] !in FileSet(rest) by {
        forall k | 0 <= k < |rest| ensures rest[k] != files[0] {
          assert rest[k] == files[k + 1];
        }
      }
    }
  }

  /** When the shown files are all different and the selection is drawn from them,
      the count test that offers "Deselect All" holds exactly when every file is
      selected. */
  lemma AllSelectedByCount(files: seq<SwiftFile>, selected: set<SwiftFile>)
    requires Distinct(files) && selected <= FileSet(files)
    ensures |selected| == |files| <==> selected == FileSet(files)
  {
    DistinctCount(files);
    var all := FileSet(files);
    if selected != all {
      var x :| x in all && x !in selected;
      assert all == selected + (all - selected) && selected * (all - selected) == {};
      assert x in all - selected;
    }
  }

  /** `Array(set)`: the elements of a set, each once, in an order the set does not fix. */
  method ArrayOfSet(s: set<SwiftFile>) returns (r: seq<SwiftFile>)
    ensures FileSet(r) == s && Distinct(r) && |r| == |s|
  {
    r := [];
    var rest := s;
    while rest != {}
      invariant forall f :: f in s <==> f in rest || f in r
      invariant forall f :: f in r ==> f !in rest
      invariant Distinct(r) && |r| + |rest| == |s|
      decreases |rest|
    {
      var x :| x in rest;
      r := r + [x];
      rest := rest - {x};
    }
  }

  /** `selection` with `file` added when it is missing and removed when it is there. */
  function Toggled(selection: set<SwiftFile>, file: SwiftFile): (r: set<SwiftFile>)
    ensures file in r <==> file !in selection
    ensures forall g :: g != file ==> (g in r <==> g in selection)
  {
    if file in selection then selection - {file} else selection + {file}
  }

  /** Tapping the same row twice restores the selection. */
  lemma ToggleTwice(selection: set<SwiftFile>, file: SwiftFile)
    ensures Toggled(Toggled(selection, file), file) == selection
  {
    var once := Toggled(selection, file);
    var twice := Toggled(once, file);
    assert forall g :: g in twice <==> g in selection;
  }

  const NewPackageName := "My Swift Package"

  /** The `PackageInfo` rebuilt on a selection change: the placeholder name, the
      selected files each once, no platforms and tools version 6.0. */
  predicate RebuiltFrom(info: PackageInfo, selection: set<SwiftFile>) {
    info.name == NewPackageName && FileSet(info.files) == selection && Distinct(info.files) &&
    info.supportedPlatforms == [] && info.swiftToolsVersion == Some(DefaultToolsVersion)
  }

  /** `SelectFilesView`. */
  class SelectFilesView {
    const files: seq<SwiftFile>
    var selectedFiles: set<SwiftFile>
    var packageInfo: Option<PackageInfo>

    /** Only shown files are selected, and once the selection has changed the
        package info is the one rebuilt from it. */
    ghost predicate Valid()
      reads this
    {
      selectedFiles <= FileSet(files) &&
      (packageInfo.None? ==> selectedFiles == {}) &&
      (packageInfo.Some? ==> RebuiltFrom(packageInfo.value, selectedFiles))
    }

    constructor(files: seq<SwiftFile>)
      ensures this.files == files && selectedFiles == {} && packageInfo == None
      ensures Valid()
    {
      this.files := files;
      selectedFiles := {};
      packageInfo := None;
    }

    /** "Deselect All" is the button shown when the counts agree. */
    predicate OffersDeselectAll()
      reads this
    {
      |files| > 0 && |selectedFiles| == |files|
    }

    /** "Select All" is the button shown otherwise. */
    predicate OffersSelectAll()
      reads this
    {
      |files| > 0 && |selectedFiles| != |files|
    }

    /** "Next" is shown once something is selected. */
    predicate OffersNext()
      reads this
    {
      selectedFiles != {}
    }

    /** What "Next" hands on: the package info, or an "ERROR" placeholder, which a
        valid view never hands on because "Next" needs a selection. */
    function NextPackageInfo(): (info: PackageInfo)
      reads this
      ensures Valid() && OffersNext() ==> packageInfo == Some(info) && RebuiltFrom(info, selectedFiles)
      ensures packageInfo.None? ==> info.name == "ERROR" && info.files == [] && info.supportedPlatforms == []
    {
      packageInfo.GetOr(PackageInfo("ERROR", [], [], Some(DefaultToolsVersion)))
    }

    /** The `onChange(of: selectedFiles)` handler. */
    method SelectionChanged()
      requires selectedFiles <= FileSet(files)
      modifies this
      ensures selectedFiles == old(selectedFiles)
      ensures packageInfo.Some? && RebuiltFrom(packageInfo.value, selectedFiles)
      ensures Valid()
    {
      var list := ArrayOfSet(selectedFiles);
      packageInfo := Some(PackageInfo(NewPackageName, list, [], Some(DefaultToolsVersion)));
    }

    /** Tapping the row of `file`. */
    method Tap(file: SwiftFile)
      requires Valid() && file in files
      modifies this
      ensures Valid()
      ensures selectedFiles == Toggled(old(selectedFiles), file)
      ensures packageInfo.Some? && RebuiltFrom(packageInfo.value, selectedFiles)
    {
      if file in selectedFiles {
        selectedFiles := selectedFiles - {file};
      } else {
        selectedFiles := selectedFiles + {file};
      }
      SelectionChanged();
    }

    /** "Select All": every shown file becomes selected, the selected ones stay. */
    method SelectAll()
      requires Valid()
      modifies this
      ensures Valid()
      ensures selectedFiles == old(selectedFiles) + FileSet(files)
      ensures selectedFiles == FileSet(files)
      ensures selectedFiles == old(selectedFiles) ==> packageInfo == old(packageInfo)
      ensures selectedFiles != old(selectedFiles) ==> packageInfo.Some? && RebuiltFrom(packageInfo.value, selectedFiles)
    {
      var before := selectedFiles;
      for i := 0 to |files|
        invariant selectedFiles == before + FileSet(files[..i])
        invariant packageInfo == old(packageInfo)
      {
        if files[i] !in selectedFiles {
          selectedFiles := selectedFiles + {files[i]};
        }
        assert files[..i + 1] == files[..i] + [files[i]];
        assert FileSet(files[..i + 1]) == FileSet(files[..i]) + {files[i]};
      }
      assert files[..|files|] == files;
      if selectedFiles != before {
        SelectionChanged();
      }
    }

    /** "Deselect All". */
    method DeselectAll()
      requires Valid()
      modifies this
      ensures Valid()
      ensures selectedFiles == {}
      ensures old(selectedFiles) == {} ==> packageInfo == old(packageInfo)
      ensures old(selectedFiles) != {} ==> packageInfo.Some? && RebuiltFrom(packageInfo.value, {})
    {
      var before := selectedFiles;
      selectedFiles := {};
      if before != {} {
        SelectionChanged();
      }
    }
  }

  // ---------------------------------------------------------------------------
  // Package info: name, platforms, version text
  // ---------------------------------------------------------------------------

  /** The characters `extractNumber` keeps before parsing. */
  const NumberCharacters := "0123456789."

  /** The text `extractNumber` hands to the number parser: the digits and dots of
      the input, in order, every other character dropped. */
  function NumberText(text: string): (r: string)
    ensures Strings.IsSubsequence(r, text)
    ensures forall i :: 0 <= i < |r| ==> '0' <= r[i] <= '9' || r[i] == '.'
    ensures forall c :: '0' <= c <= '9' || c == '.' ==> multiset(r)[c] == multiset(text)[c]
  {
    var r := Strings.Filter(text, NumberCharacters);
    assert forall c :: c in NumberCharacters <==> '0' <= c <= '9' || c == '.';
    assert forall i :: 0 <= i < |r| ==> r[i] in r;
    r
  }

  /** Filtering the filtered text again changes nothing. */
  lemma NumberTextIdempotent(text: string)
    ensures NumberText(NumberText(text)) == NumberText(text)
  {
    Strings.FilterIdempotent(text, NumberCharacters);
  }

  /** The platforms of the enabled toggles, in toggle order. */
  function EnabledPlatforms(toggles: seq<(bool, Platform)>): seq<Platform> {
    EnabledAmong(toggles, |toggles|)
  }

  /** What one toggle contributes. */
  function Contributed(toggle: (bool, Platform)): seq<Platform> {
    if toggle.0 then [toggle.1] else []
  }

  /** The platforms of the enabled toggles among the first `k`. */
  function EnabledAmong(toggles: seq<(bool, Platform)>, k: nat): seq<Platform>
    requires k <= |toggles|
  {
    if k == 0 then [] else EnabledAmong(toggles, k - 1) + Contributed(toggles[k - 1])
  }

  /** How many of the first `k` toggles are on. */
  function EnabledCount(toggles: seq<(bool, Platform)>, k: nat): nat
    requires k <= |toggles|
  {
    if k == 0 then 0 else EnabledCount(toggles, k - 1) + (if toggles[k - 1].0 then 1 else 0)
  }

  /** One platform per enabled toggle. */
  lemma {:induction false} EnabledPlatformsCount(toggles: seq<(bool, Platform)>, k: nat)
    requires k <= |toggles|
    ensures |EnabledAmong(toggles, k)| == EnabledCount(toggles, k)
  {
    if k > 0 {
      EnabledPlatformsCount(toggles, k - 1);
    }
  }

  /** A platform is listed exactly when an enabled toggle carries it. */
  lemma {:induction false} EnabledPlatformsMembership(toggles: seq<(bool, Platform)>, k: nat, p: Platform)
    requires k <= |toggles|
    ensures p in EnabledAmong(toggles, k) <==> exists i :: 0 <= i < k && toggles[i].0 && toggles[i].1 == p
  {
    if k > 0 {
      EnabledPlatformsMembership(toggles, k - 1, p);
    }
  }

  /** Toggles listed in increasing kind order give platforms in increasing kind
      order, so no kind appears twice. */
  lemma {:induction false} EnabledPlatformsOrdered(toggles: seq<(bool, Platform)>, k: nat)
    requires k <= |toggles|
    requires forall i, j :: 0 <= i < j < |toggles| ==> toggles[i].1.Rank() < toggles[j].1.Rank()
    ensures forall i, j :: 0 <= i < j < |EnabledAmong(toggles, k)| ==>
      EnabledAmong(toggles, k)[i].Rank() < EnabledAmong(toggles, k)[j].Rank()
  {
    if k > 0 {
      var qs := EnabledAmong(toggles, k - 1);
      EnabledPlatformsOrdered(toggles, k - 1);
      assert forall a, b :: 0 <= a < b < |qs| ==> qs[a].Rank() < qs[b].Rank();
      if toggles[k - 1].0 {
        var last := toggles[k - 1].1;
        forall i | 0 <= i < |qs| ensures qs[i].Rank() < last.Rank() {
          assert qs[i] in qs;
          EnabledPlatformsMembership(toggles, k - 1, qs[i]);
          var j :| 0 <= j < k - 1 && toggles[j].0 && toggles[j].1 == qs[i];
          assert toggles[j].1.Rank() < last.Rank();
        }
        var ps := qs + [last];
        assert EnabledAmong(toggles, k) == ps;
        forall i, j | 0 <= i < j < |ps| ensures ps[i].Rank() < ps[j].Rank() {
          assert ps[i] == qs[i];
          if j == |qs| {
            assert ps[j] == last && qs[i].Rank() < last.Rank();
          } else {
            assert ps[j] == qs[j] && qs[i].Rank() < qs[j].Rank();
          }
        }
      } else {
        assert EnabledAmong(toggles, k) == qs + [];
      }
    }
  }

  /** `PackageInfoView`. */
  class PackageInfoView {
    var packageInfo: PackageInfo
    var iOS: bool
    var macOS: bool
    var macCatalyst: bool
    var driverKit: bool
    var tvOS: bool
    var visionOS: bool
    var watchOS: bool
    var iOSVersion: Version
    var macOSVersion: Version
    var macCatalystVersion: Version
    var driverKitVersion: Version
    var tvOSVersion: Version
    var visionOSVersion: Version
    var watchOSVersion: Version
    var generated: string

    /** Every toggle off, the default versions, nothing generated. */
    constructor(packageInfo: PackageInfo)
      ensures this.packageInfo == packageInfo && generated == ""
      ensures forall k :: 0 <= k < 7 ==> !Toggles()[k].0
      ensures iOSVersion == "13.0" && macOSVersion == "11.0" && macCatalystVersion == "13.0"
      ensures driverKitVersion == "19.0" && tvOSVersion == "13.0" && visionOSVersion == "1.0"
      ensures watchOSVersion == "6.0"
    {
      this.packageInfo := packageInfo;
      iOS, macOS, macCatalyst, driverKit := false, false, false, false;
      tvOS, visionOS, watchOS := false, false, false;
      iOSVersion, macOSVersion, macCatalystVersion := "13.0", "11.0", "13.0";
      driverKitVersion, tvOSVersion, visionOSVersion := "19.0", "13.0", "1.0";
      watchOSVersion := "6.0";
      generated := "";
    }

    /** The seven toggles in screen order, each with the platform it adds. */
    function Toggles(): (ts: seq<(bool, Platform)>)
      reads this`iOS, this`macOS, this`macCatalyst, this`driverKit, this`tvOS, this`visionOS, this`watchOS
      reads this`iOSVersion, this`macOSVersion, this`macCatalystVersion, this`driverKitVersion
      reads this`tvOSVersion, this`visionOSVersion, this`watchOSVersion
      ensures |ts| == 7
      ensures forall k :: 0 <= k < 7 ==> ts[k].1.Rank() == k
    {
      [ (iOS, IOS(iOSVersion)), (macOS, MacOS(macOSVersion)),
        (macCatalyst, MacCatalyst(macCatalystVersion)), (driverKit, DriverKit(driverKitVersion)),
        (tvOS, TvOS(tvOSVersion)), (visionOS, VisionOS(visionOSVersion)),
        (watchOS, WatchOS(watchOSVersion)) ]
    }

    /** The name field's setter: spaces become underscores. */
    method SetName(newValue: string)
      modifies this
      ensures packageInfo == old(packageInfo).(name := Normalize(newValue))
      ensures Toggles() == old(Toggles()) && generated == old(generated)
    {
      packageInfo := packageInfo.(name := Normalize(newValue));
    }

    /** The appends of the "Generate" action: one platform per enabled toggle, in
        toggle order, each with its own version. */
    method AssemblePlatforms() returns (platforms: seq<Platform>)
      ensures platforms == EnabledPlatforms(Toggles())
    {
      ghost var ts := Toggles();
      platforms := [];
      if iOS {
        platforms := platforms + [IOS(iOSVersion)];
      }
      assert platforms == EnabledAmong(ts, 1);
      if macOS {
        platforms := platforms + [MacOS(macOSVersion)];
      }
      assert platforms == EnabledAmong(ts, 2);
      if macCatalyst {
        platforms := platforms + [MacCatalyst(macCatalystVersion)];
      }
      assert platforms == EnabledAmong(ts, 3);
      if driverKit {
        platforms := platforms + [DriverKit(driverKitVersion)];
      }
      assert platforms == EnabledAmong(ts, 4);
      if tvOS {
        platforms := platforms + [TvOS(tvOSVersion)];
      }
      assert platforms == EnabledAmong(ts, 5);
      if visionOS {
        platforms := platforms + [VisionOS(visionOSVersion)];
      }
      assert platforms == EnabledAmong(ts, 6);
      if watchOS {
        platforms := platforms + [WatchOS(watchOSVersion)];
      }
      assert platforms == EnabledAmong(ts, 7);
    }

    /** "Generate": the platform list is rebuilt from the toggles and the manifest
        rendered from the new package info. */
    method Generate()
      modifies this
      ensures packageInfo == old(packageInfo).(supportedPlatforms := EnabledPlatforms(old(Toggles())))
      ensures generated == Manifest(packageInfo.name, packageInfo.supportedPlatforms, packageInfo.swiftToolsVersion)
      ensures Toggles() == old(Toggles())
    {
      var platforms := AssemblePlatforms();
      packageInfo := packageInfo.(supportedPlatforms := platforms);
      generated := CreatePackage(packageInfo);
    }
  }

  /** The platforms Generate lists come in the fixed toggle order, one per enabled
      toggle, no kind twice, each with the version its own field holds. */
  lemma GeneratedPlatforms(v: PackageInfoView)
    ensures var ts := v.Toggles();
      var ps := EnabledPlatforms(ts);
      |ps| == EnabledCount(ts, 7) &&
      (forall i, j :: 0 <= i < j < |ps| ==> ps[i].Rank() < ps[j].Rank()) &&
      (forall k :: 0 <= k < 7 ==> (ts[k].1 in ps <==> ts[k].0))
  {
    var ts := v.Toggles();
    EnabledPlatformsCount(ts, 7);
    EnabledPlatformsOrdered(ts, 7);
    forall k | 0 <= k < 7 ensures ts[k].1 in EnabledPlatforms(ts) <==> ts[k].0 {
      EnabledPlatformsMembership(ts, 7, ts[k].1);
      if exists i :: 0 <= i < 7 && ts[i].0 && ts[i].1 == ts[k].1 {
        var i :| 0 <= i < 7 && ts[i].0 && ts[i].1 == ts[k].1;
        assert ts[i].1.Rank() == ts[k].1.Rank();
      }
    }
  }

  // ---------------------------------------------------------------------------
  // preparePackageFolder
  // ---------------------------------------------------------------------------

  /** `<tmp>/<N>`, where `N` is the name with spaces replaced; an empty `N` is
      the temporary directory itself, and each "/" in `N` descends one level. */
  function PackageFolder(tempDir: Path, name: string): Path {
    AppendingPathComponent(tempDir, Normalize(name))
  }

  /** `<tmp>/<N>/Package.swift`. */
  function ManifestPath(tempDir: Path, name: string): Path {
    PackageFolder(tempDir, name) + ["Package.swift"]
  }

  /** `<tmp>/<N>/Sources/<N>`. */
  function SourcesFolder(tempDir: Path, name: string): Path {
    AppendingPathComponent(PackageFolder(tempDir, name) + ["Sources"], Normalize(name))
  }

  /** An empty name makes the package folder the temporary directory itself. */
  lemma EmptyNamePackageFolder(tempDir: Path)
    ensures PackageFolder(tempDir, "") == tempDir
    ensures ManifestPath(tempDir, "") == tempDir + ["Package.swift"]
    ensures SourcesFolder(tempDir, "") == tempDir + ["Sources"]
  {
    assert Normalize("") == "";
  }

  /** A name with a slash makes nested folders, the sources folder repeating them. */
  lemma SlashedNamePackageFolder(tempDir: Path, a: string, b: string)
    requires |a| > 0 && |b| > 0 && '/' !in a && '/' !in b && ' ' !in a && ' ' !in b
    ensures PackageFolder(tempDir, a + "/" + b) == tempDir + [a, b]
    ensures SourcesFolder(tempDir, a + "/" + b) == tempDir + [a, b, "Sources", a, b]
  {
    var name := a + "/" + b;
    Strings.ReplaceAllAbsent(name, " ", "_");
    Strings.SplitPair(a, b, '/');
  }

  /** The URLs `preparePackageFolder` builds up component by component are the
      package folder, its manifest and its sources folder. */
  lemma URLsOfPackage(tempDir: Path, name: string)
    ensures var pkg := AppendingPathComponent(tempDir, Normalize(name));
      pkg == PackageFolder(tempDir, name) &&
      AppendingPathComponent(pkg, "Package.swift") == ManifestPath(tempDir, name) &&
      AppendingPathComponent(AppendingPathComponent(pkg, "Sources"), Normalize(name)) == SourcesFolder(tempDir, name)
  {
    assert '/' !in "Package.swift" && '/' !in "Sources";
  }

  /** The bytes of the last file called `name`, which is the one whose write lands last. */
  function LastData(files: seq<SwiftFile>, name: string): (r: Option<Bytes>)
    ensures r.Some? <==> exists f :: f in files && f.name == name
    ensures r.Some? ==>
      exists i :: 0 <= i < |files| && files[i].name == name && r.value == files[i].data &&
        forall j :: i < j < |files| ==> files[j].name != name
  {
    if |files| == 0 then None
    else if files[|files| - 1].name == name then
      assert files[|files| - 1] in files;
      Some(files[|files| - 1].data)
    else
      var front := files[..|files| - 1];
      var r := LastData(front, name);
      assert files == front + [files[|files| - 1]];
      if r.Some? then
        var i :| 0 <= i < |front| && front[i].name == name && r.value == front[i].data &&
                 forall j :: i < j < |front| ==> front[j].name != name;
        assert files[i] == front[i] && files[i] in files;
        assert forall j :: i < j < |files| - 1 ==> files[j] == front[j];
        r
      else
        assert forall f :: f in files ==> f in front || f == files[|files| - 1];
        r
  }

  /** The paths the source files are written to. */
  function WrittenPaths(dir: Path, files: seq<SwiftFile>): set<Path> {
    set f | f in files :: dir + [f.name]
  }

  /** Writes the files into `dir` one after the other: the state reached and
      whether every write succeeded (the first failure stops the rest). */
  function WriteAll(fs: FileSystem, dir: Path, files: seq<SwiftFile>): (FileSystem, Outcome<FileError>)
    decreases |files|
  {
    if |files| == 0 then (fs, Pass)
    else
      var (mid, o) := WriteAll(fs, dir, files[..|files| - 1]);
      var last := files[|files| - 1];
      if o.Fail? then (mid, o)
      else
        match WriteFile(mid, dir + [last.name], last.data)
        case Failure(e) => (mid, Fail(e))
        case Success(next) => (next, Pass)
  }

  lemma {:induction false} WriteAllFacts(fs: FileSystem, dir: Path, files: seq<SwiftFile>)
    ensures var (out, o) := WriteAll(fs, dir, files);
      o.Pass? ==>
        (forall f :: f in files ==>
           dir + [f.name] in out.nodes && out.nodes[dir + [f.name]] == Regular(LastData(files, f.name).value)) &&
        FilesKeptOutsideSet(fs, out, WrittenPaths(dir, files)) &&
        FilesFrom(fs, out, WrittenPaths(dir, files)) &&
        DirectoriesKept(fs, out) && SameEnvironment(fs, out)
    decreases |files|
  {
    if |files| > 0 {
      var init, last := files[..|files| - 1], files[|files| - 1];
      WriteAllFacts(fs, dir, init);
      var (mid, o) := WriteAll(fs, dir, init);
      if o.Pass? {
        var p := dir + [last.name];
        match WriteFile(mid, p, last.data)
        case Failure(_) =>
        case Success(out) =>
          assert WriteAll(fs, dir, files) == (out, Pass);
          forall f | f in files
            ensures dir + [f.name] in out.nodes && out.nodes[dir + [f.name]] == Regular(LastData(files, f.name).value)
          {
            if f.name != last.name {
              assert f in init;
              assert dir + [f.name] != p;
            }
          }
          assert WrittenPaths(dir, files) == WrittenPaths(dir, init) + {p} by {
            assert forall f :: f in files <==> f in init || f == last;
          }
      }
    }
  }

  /** The writes all succeed when `dir` is a directory and no target is locked or
      a directory; they create no directory. */
  lemma {:induction false} WriteAllSucceeds(fs: FileSystem, dir: Path, files: seq<SwiftFile>)
    requires IsDirectory(fs, dir)
    requires forall f :: f in files ==>
      dir + [f.name] !in fs.locked && (dir + [f.name] in fs.nodes ==> fs.nodes[dir + [f.name]].Regular?)
    ensures WriteAll(fs, dir, files).1.Pass?
    ensures NoNewDirectories(fs, WriteAll(fs, dir, files).0)
    decreases |files|
  {
    if |files| > 0 {
      var init, last := files[..|files| - 1], files[|files| - 1];
      assert forall f :: f in init ==> f in files;
      assert last in files;
      WriteAllSucceeds(fs, dir, init);
      WriteAllFacts(fs, dir, init);
      var mid := WriteAll(fs, dir, init).0;
      var p := dir + [last.name];
      assert Parent(p) == dir;
      var w := WriteFile(mid, p, last.data);
      assert w.Success?;
      WriteFileNoNewDirectories(mid, p, last.data);
      assert WriteAll(fs, dir, files) == (w.value, Pass);
    }
  }

  /** Every regular file outside `paths` is still there with the same bytes. */
  ghost predicate FilesKeptOutsideSet(a: FileSystem, b: FileSystem, paths: set<Path>) {
    forall q :: q in a.nodes && a.nodes[q].Regular? && q !in paths ==> q in b.nodes && b.nodes[q] == a.nodes[q]
  }

  /** Once a write fails, the later files are not written. */
  lemma {:induction false} WriteAllStops(fs: FileSystem, dir: Path, files: seq<SwiftFile>, k: nat)
    requires k <= |files| && WriteAll(fs, dir, files[..k]).1.Fail?
    ensures WriteAll(fs, dir, files) == WriteAll(fs, dir, files[..k])
    decreases |files| - k
  {
    if k < |files| {
      var n := |files| - 1;
      assert files[..n][..k] == files[..k];
      WriteAllStops(fs, dir, files[..n], k);
      assert files[..|files|] == files;
    } else {
      assert files[..k] == files;
    }
  }

  /** The first step: the previously exported folder, if it is still there, goes. */
  function RemoveStale(fs: FileSystem, exportFolderURL: Option<Path>): Result<FileSystem, FileError> {
    if exportFolderURL.Some? && FileExists(fs, exportFolderURL.value) then RemoveItem(fs, exportFolderURL.value)
    else Success(fs)
  }

  /** The file-system steps of `preparePackageFolder`: the state reached and
      whether all of them succeeded. */
  function Prepare(fs: FileSystem, tempDir: Path, name: string, text: string, files: seq<SwiftFile>,
                   exportFolderURL: Option<Path>): (FileSystem, Outcome<FileError>)
  {
    match RemoveStale(fs, exportFolderURL)
    case Failure(e) => (fs, Fail(e))
    case Success(fs1) => Build(fs1, tempDir, name, text, files)
  }

  /** The steps after the stale folder is gone: the package folder, Package.swift,
      the sources folder and the source files, stopping at the first failure. */
  function Build(fs: FileSystem, tempDir: Path, name: string, text: string, files: seq<SwiftFile>)
    : (FileSystem, Outcome<FileError>)
  {
    match CreateDirectory(fs, PackageFolder(tempDir, name))
    case Failure(e) => (fs, Fail(e))
    case Success(fs2) =>
      match WriteFile(fs2, ManifestPath(tempDir, name), Utf8(text))
      case Failure(e) => (fs2, Fail(e))
      case Success(fs3) =>
        match CreateDirectory(fs3, SourcesFolder(tempDir, name))
        case Failure(e) => (fs3, Fail(e))
        case Success(fs4) => WriteAll(fs4, SourcesFolder(tempDir, name), files)
  }

  /** The build passes when the package folder can be created and nothing lies or
      is locked below it: a folder that is new, or empty and unlocked inside. */
  lemma BuildSucceeds(fs: FileSystem, tempDir: Path, name: string, text: string, files: seq<SwiftFile>)
    requires CanCreate(fs, PackageFolder(tempDir, name)) && FreeBelow(fs, PackageFolder(tempDir, name))
    ensures Build(fs, tempDir, name, text, files).1.Pass?
  {
    var pkg, src := PackageFolder(tempDir, name), SourcesFolder(tempDir, name);
    var fs2 := CreatedFreeBelow(fs, pkg);
    AfterPackageFolder(fs2, pkg, src, Utf8(text), files);
  }

  /** A first preparation, or one whose previously exported folder is gone,
      passes under the conditions of the build. */
  lemma PrepareSucceeds(fs: FileSystem, tempDir: Path, name: string, text: string, files: seq<SwiftFile>,
                        exportFolderURL: Option<Path>)
    requires exportFolderURL.None? || !FileExists(fs, exportFolderURL.value)
    requires CanCreate(fs, PackageFolder(tempDir, name)) && FreeBelow(fs, PackageFolder(tempDir, name))
    ensures Prepare(fs, tempDir, name, text, files, exportFolderURL).1.Pass?
  {
    BuildSucceeds(fs, tempDir, name, text, files);
  }

  /** Preparing the same package again passes: the folder exported last time is
      removed with everything in it, and then built afresh, provided nothing
      below it is locked. */
  lemma PrepareAgainSucceeds(fs: FileSystem, tempDir: Path, name: string, text: string, files: seq<SwiftFile>)
    requires PackageFolder(tempDir, name) in fs.nodes && CanCreate(fs, PackageFolder(tempDir, name))
    requires forall q :: q in fs.locked ==> !(PackageFolder(tempDir, name) <= q)
    ensures Prepare(fs, tempDir, name, text, files, Some(PackageFolder(tempDir, name))).1.Pass?
  {
    var pkg := PackageFolder(tempDir, name);
    var fs1 := RemoveItem(fs, pkg).value;
    forall i | 0 < i <= |pkg|
      ensures if pkg[..i] in fs1.nodes then fs1.nodes[pkg[..i]].Directory? else pkg[..i] !in fs1.locked
    {
      var q := pkg[..i];
      if q in fs1.nodes {
        assert fs.nodes[q].Directory?;
        assert !fs1.nodes[q].Regular?;
      }
    }
    BuildSucceeds(fs1, tempDir, name, text, files);
  }

  /** The steps after the package folder is made all pass. */
  lemma AfterPackageFolder(fs2: FileSystem, pkg: Path, src: Path, data: Bytes, files: seq<SwiftFile>)
    requires FreeBelow(fs2, pkg) && forall i :: 0 <= i <= |pkg| ==> IsDirectory(fs2, pkg[..i])
    requires |src| >= |pkg| + 1 && src[..|pkg| + 1] == pkg + ["Sources"]
    ensures var w := WriteFile(fs2, pkg + ["Package.swift"], data);
      w.Success? && CreateDirectory(w.value, src).Success? &&
      WriteAll(CreateDirectory(w.value, src).value, src, files).1.Pass?
  {
    var fs3 := ManifestWritten(fs2, pkg, data);
    SourcesCanCreate(fs3, pkg, src);
    var fs4 := CreatedFreeBelow(fs3, src);
    WriteAllSucceeds(fs4, src, files);
  }

  /** Package.swift can be written into a package folder with nothing below it. */
  lemma ManifestWritten(fs2: FileSystem, pkg: Path, data: Bytes) returns (fs3: FileSystem)
    requires FreeBelow(fs2, pkg) && forall i :: 0 <= i <= |pkg| ==> IsDirectory(fs2, pkg[..i])
    ensures WriteFile(fs2, pkg + ["Package.swift"], data) == Success(fs3)
    ensures fs3.locked == fs2.locked && DirectoriesKept(fs2, fs3)
    ensures forall q :: q in fs3.nodes ==> !(pkg < q) || q == pkg + ["Package.swift"]
  {
    var man := pkg + ["Package.swift"];
    assert pkg[..|pkg|] == pkg && Parent(man) == pkg && pkg < man;
    fs3 := WriteFile(fs2, man, data).value;
  }

  /** Then the sources folder can be created, and nothing lies or is locked below it. */
  lemma SourcesCanCreate(fs3: FileSystem, pkg: Path, src: Path)
    requires |src| >= |pkg| + 1 && src[..|pkg| + 1] == pkg + ["Sources"]
    requires forall i :: 0 <= i <= |pkg| ==> IsDirectory(fs3, pkg[..i])
    requires forall q :: q in fs3.nodes ==> !(pkg < q) || q == pkg + ["Package.swift"]
    requires forall q :: q in fs3.locked ==> !(pkg < q)
    ensures CanCreate(fs3, src) && FreeBelow(fs3, src)
  {
    forall i | 0 < i <= |src|
      ensures if src[..i] in fs3.nodes then fs3.nodes[src[..i]].Directory? else src[..i] !in fs3.locked
    {
      if i <= |pkg| {
        assert src[..i] == pkg[..i];
      } else {
        assert pkg < src[..i];
        assert src[..i][|pkg|] == "Sources";
      }
    }
    forall q | q in fs3.nodes || q in fs3.locked ensures !(src < q) {
    }
  }

  /** A successful build leaves the folders, the manifest and the sources in place. */
  lemma BuiltContents(fs: FileSystem, tempDir: Path, name: string, text: string, files: seq<SwiftFile>)
    ensures var (out, o) := Build(fs, tempDir, name, text, files);
      var src := SourcesFolder(tempDir, name);
      o.Pass? ==>
        IsDirectory(out, PackageFolder(tempDir, name)) && IsDirectory(out, src) &&
        ManifestPath(tempDir, name) in out.nodes &&
        out.nodes[ManifestPath(tempDir, name)] == Regular(Utf8(text)) &&
        forall f :: f in files ==>
          src + [f.name] in out.nodes && out.nodes[src + [f.name]] == Regular(LastData(files, f.name).value)
  {
    var pkg, src, man := PackageFolder(tempDir, name), SourcesFolder(tempDir, name), ManifestPath(tempDir, name);
    match CreateDirectory(fs, pkg)
    case Failure(_) =>
    case Success(fs2) =>
      match WriteFile(fs2, man, Utf8(text))
      case Failure(_) =>
      case Success(fs3) =>
        match CreateDirectory(fs3, src)
        case Failure(_) =>
        case Success(fs4) =>
          WriteAllFacts(fs4, src, files);
          var (out, o) := WriteAll(fs4, src, files);
          if o.Pass? {
            assert man !in WrittenPaths(src, files);
            assert IsDirectory(fs3, pkg);
          }
  }

  /** A successful build changes only the manifest and the source files: every
      other regular file is kept, and no other regular file appears. */
  lemma BuiltFrom(fs: FileSystem, tempDir: Path, name: string, text: string, files: seq<SwiftFile>)
    ensures var (out, o) := Build(fs, tempDir, name, text, files);
      var newFiles := WrittenPaths(SourcesFolder(tempDir, name), files) + {ManifestPath(tempDir, name)};
      o.Pass? ==> FilesFrom(fs, out, newFiles) && FilesKeptOutsideSet(fs, out, newFiles)
  {
    var src, man := SourcesFolder(tempDir, name), ManifestPath(tempDir, name);
    match CreateDirectory(fs, PackageFolder(tempDir, name))
    case Failure(_) =>
    case Success(fs2) =>
      match WriteFile(fs2, man, Utf8(text))
      case Failure(_) =>
      case Success(fs3) =>
        match CreateDirectory(fs3, src)
        case Failure(_) =>
        case Success(fs4) =>
          WriteAllFacts(fs4, src, files);
  }

  /** After a successful preparation the package folder and its sources folder
      exist, Package.swift holds the manifest text as UTF-8, and every source file
      holds the bytes of the last file of its name. */
  lemma PreparedContents(fs: FileSystem, tempDir: Path, name: string, text: string, files: seq<SwiftFile>,
                         exportFolderURL: Option<Path>)
    ensures var (out, o) := Prepare(fs, tempDir, name, text, files, exportFolderURL);
      var src := SourcesFolder(tempDir, name);
      o.Pass? ==>
        IsDirectory(out, PackageFolder(tempDir, name)) && IsDirectory(out, src) &&
        ManifestPath(tempDir, name) in out.nodes &&
        out.nodes[ManifestPath(tempDir, name)] == Regular(Utf8(text)) &&
        forall f :: f in files ==>
          src + [f.name] in out.nodes && out.nodes[src + [f.name]] == Regular(LastData(files, f.name).value)
  {
    match RemoveStale(fs, exportFolderURL)
    case Failure(_) =>
    case Success(fs1) => BuiltContents(fs1, tempDir, name, text, files);
  }

  /** After a successful preparation, no regular file is left under the folder
      that was removed except the ones just written, and every other regular file
      that was there before is unchanged. */
  lemma PreparedReplacesStale(fs: FileSystem, tempDir: Path, name: string, text: string, files: seq<SwiftFile>,
                              exportFolderURL: Option<Path>)
    ensures var (out, o) := Prepare(fs, tempDir, name, text, files, exportFolderURL);
      var newFiles := WrittenPaths(SourcesFolder(tempDir, name), files) + {ManifestPath(tempDir, name)};
      var removed := exportFolderURL.Some? && FileExists(fs, exportFolderURL.value);
      o.Pass? ==>
        (removed ==> forall q :: q in out.nodes && out.nodes[q].Regular? && exportFolderURL.value <= q ==> q in newFiles) &&
        (forall q :: q in fs.nodes && fs.nodes[q].Regular? && q !in newFiles && !(removed && exportFolderURL.value <= q)
           ==> q in out.nodes && out.nodes[q] == fs.nodes[q])
  {
    match RemoveStale(fs, exportFolderURL)
    case Failure(_) =>
    case Success(fs1) => BuiltFrom(fs1, tempDir, name, text, files);
  }

  /** The loop writing the source files of `preparePackageFolder`. */
  method WriteSources(fs: FileSystem, dir: Path, files: seq<SwiftFile>) returns (out: FileSystem, o: Outcome<FileError>)
    ensures (out, o) == WriteAll(fs, dir, files)
  {
    out := fs;
    for i := 0 to |files|
      invariant WriteAll(fs, dir, files[..i]) == (out, Pass)
    {
      var file := files[i];
      assert files[..i + 1][..i] == files[..i] && files[..i + 1][i] == file;
      var w := WriteFile(out, dir + [file.name], file.data);
      if w.Failure? {
        WriteAllStops(fs, dir, files, i + 1);
        return out, Fail(w.error);
      }
      out := w.value;
    }
    assert files[..|files|] == files;
    return out, Pass;
  }

  /** `ReviewPackageView`. */
  class ReviewPackageView {
    var fs: FileSystem
    const tempDir: Path
    var generatedPackageString: string
    const packageInfo: PackageInfo
    var exportFolderURL: Option<Path>

    constructor(fs: FileSystem, tempDir: Path, generatedPackageString: string, packageInfo: PackageInfo)
      ensures this.fs == fs && this.tempDir == tempDir && this.packageInfo == packageInfo
      ensures this.generatedPackageString == generatedPackageString && exportFolderURL == None
    {
      this.fs := fs;
      this.tempDir := tempDir;
      this.generatedPackageString := generatedPackageString;
      this.packageInfo := packageInfo;
      exportFolderURL := None;
    }

    /** The code editor's binding: the manifest text may be edited by hand. */
    method EditManifest(text: string)
      modifies this
      ensures generatedPackageString == text
      ensures fs == old(fs) && exportFolderURL == old(exportFolderURL)
    {
      generatedPackageString := text;
    }

    /** `preparePackageFolder()`: the file system goes through the steps of
        Prepare, and the package folder is recorded as the export folder only
        when all of them succeeded. */
    method PreparePackageFolder() returns (r: Outcome<FileError>)
      modifies this
      ensures (fs, r) == Prepare(old(fs), tempDir, packageInfo.name, generatedPackageString,
                                 packageInfo.files, old(exportFolderURL))
      ensures r.Pass? ==> exportFolderURL == Some(PackageFolder(tempDir, packageInfo.name))
      ensures r.Fail? ==> exportFolderURL == old(exportFolderURL)
      ensures generatedPackageString == old(generatedPackageString)
    {
      if exportFolderURL.Some? && FileExists(fs, exportFolderURL.value) {
        var removed := RemoveItem(fs, exportFolderURL.value);
        if removed.Failure? {
          return Fail(removed.error);
        }
        fs := removed.value;
      }
      URLsOfPackage(tempDir, packageInfo.name);
      var n := Normalize(packageInfo.name);
      var packageFolderURL := AppendingPathComponent(tempDir, n);
      var created := CreateDirectory(fs, packageFolderURL);
      if created.Failure? {
        return Fail(created.error);
      }
      fs := created.value;
      var packageSwiftURL := AppendingPathComponent(packageFolderURL, "Package.swift");
      var written := WriteFile(fs, packageSwiftURL, Utf8(generatedPackageString));
      if written.Failure? {
        return Fail(written.error);
      }
      fs := written.value;
      var sourcesFolderURL := AppendingPathComponent(packageFolderURL, "Sources");
      var packageSourcesFolderURL := AppendingPathComponent(sourcesFolderURL, n);
      var sources := CreateDirectory(fs, packageSourcesFolderURL);
      if sources.Failure? {
        return Fail(sources.error);
      }
      fs := sources.value;
      var o;
      fs, o := WriteSources(fs, packageSourcesFolderURL, packageInfo.files);
      if o.Fail? {
        return o;
      }
      exportFolderURL := Some(packageFolderURL);
      return Pass;
    }
  }
}
