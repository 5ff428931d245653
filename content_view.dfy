/** The drop screen of Packagify (Packagify/ContentView.swift): classifying the
    dropped URLs, reducing a dropped batch, and collecting the Swift files of the
    result, over the abstract file system of module Storage. */
module ContentView {
  import opened Wrappers
  import opened Storage
  import Strings

  datatype FileTypes = Folder | Swift | Other

  datatype FileContent = SwiftData(data: Bytes) | FolderURL(folderURL: Path) | OtherData(data: Bytes)

  /** A classified dropped entry. */
  datatype File = File(name: string, data: FileContent, fileType: FileTypes)

  /** A Swift source file; two are the same file when name and bytes agree. */
  datatype SwiftFile = SwiftFile(name: string, data: Bytes)

  /** The tag of a classified entry agrees with its content. */
  predicate WellTagged(f: File) {
    match f.data
    case SwiftData(_) => f.fileType == Swift
    case FolderURL(_) => f.fileType == Folder
    case OtherData(_) => f.fileType == Other
  }

  // ---------------------------------------------------------------------------
  // readFile, isFolder, isSwiftFile
  // ---------------------------------------------------------------------------

  const ScopeFailure := "Failed to start accessing Security Scoped Resource"

  /** `url.pathExtension.lowercased() == "swift"`, decided on the last path
      component's final six characters (SwiftExtensionMeaning shows the two agree). */
  predicate HasSwiftExtension(url: Path) {
    |url| > 0 && EndsInSwiftExtension(url[|url| - 1])
  }

  /** The name ends in "." and five letters that lowercase to "swift", and the dot
      is not its first character. */
  predicate EndsInSwiftExtension(name: string) {
    var n := |name|;
    n >= 7 && name[n - 6] == '.' &&
    Strings.LowerChar(name[n - 5]) == 's' && Strings.LowerChar(name[n - 4]) == 'w' &&
    Strings.LowerChar(name[n - 3]) == 'i' && Strings.LowerChar(name[n - 2]) == 'f' &&
    Strings.LowerChar(name[n - 1]) == 't'
  }

  lemma SwiftExtensionMeaning(url: Path)
    ensures HasSwiftExtension(url) <==> Strings.Lowercased(PathExtension(LastPathComponent(url))) == "swift"
  {
    var name := LastPathComponent(url);
    var n, k := |name|, LastIndexOf(name, '.');
    LastIndexOfFacts(name, '.');
    var ext := PathExtension(name);
    if HasSwiftExtension(url) {
      assert k == n - 6;
      assert ext == name[n - 5..];
      forall i | 0 <= i < 5 ensures Strings.Lowercased(ext)[i] == "swift"[i] {
        Strings.LowercasedAt(ext, i);
      }
    }
    if Strings.Lowercased(ext) == "swift" {
      assert |ext| == 5 && k > 0 && ext == name[k + 1..];
      assert |url| > 0;
      forall i | 0 <= i < 5 ensures Strings.LowerChar(ext[i]) == "swift"[i] {
        Strings.LowercasedAt(ext, i);
      }
      assert ext[0] == name[n - 5] && ext[1] == name[n - 4] && ext[2] == name[n - 3];
      assert ext[3] == name[n - 2] && ext[4] == name[n - 1];
    }
  }

  /** `isFolder(at:)`: the path exists and is a directory. */
  predicate IsFolder(fs: FileSystem, url: Path) {
    IsDirectory(fs, url)
  }

  /** `isSwiftFile(at:)`: the path exists, is not a directory, and has the
      extension "swift" in any letter case. */
  predicate IsSwiftFile(fs: FileSystem, url: Path) {
    !IsDirectory(fs, url) && url in fs.nodes && HasSwiftExtension(url)
  }

  /** Below the root, a folder is a path that exists and is not a regular file,
      so it cannot be read as data; the root is always a folder. */
  lemma IsFolderMeaning(fs: FileSystem, url: Path)
    ensures |url| == 0 ==> IsFolder(fs, url)
    ensures |url| > 0 ==> (IsFolder(fs, url) <==> FileExists(fs, url) && !fs.nodes[url].Regular?)
    ensures |url| > 0 && IsFolder(fs, url) ==> ReadData(fs, url).Failure?
  {
  }

  /** A Swift file is a path that exists, is no folder, and whose path extension
      lowercases to "swift"; it is never a folder. */
  lemma IsSwiftFileMeaning(fs: FileSystem, url: Path)
    ensures IsSwiftFile(fs, url) <==>
      FileExists(fs, url) && !IsFolder(fs, url) && Strings.Lowercased(PathExtension(LastPathComponent(url))) == "swift"
  {
    SwiftExtensionMeaning(url);
  }

  /** `readFile(_:)`: refuses a URL whose security-scoped access cannot be
      started before looking at it; otherwise a directory is a folder, whatever
      its name, and any other path is read in full and tagged swift or other. */
  function ReadFile(fs: FileSystem, url: Path): (r: Result<File, FileError>)
    ensures url in fs.unscoped ==> r == Failure(UnableToAccessFile(ScopeFailure))
    ensures r.Success? ==> r.value.name == LastPathComponent(url) && WellTagged(r.value)
    ensures (r.Success? && r.value.fileType == Folder) <==> url !in fs.unscoped && IsFolder(fs, url)
    ensures (r.Success? && r.value.fileType == Folder) ==> r.value.data == FolderURL(url)
    ensures (r.Success? && r.value.fileType == Swift) <==>
      url !in fs.unscoped && IsSwiftFile(fs, url) && ReadData(fs, url).Success?
    ensures (r.Success? && r.value.fileType != Folder) ==>
      ReadData(fs, url) == Success(r.value.data.data)
    ensures r.Failure? <==> url in fs.unscoped || (!IsFolder(fs, url) && ReadData(fs, url).Failure?)
  {
    if url in fs.unscoped then Failure(UnableToAccessFile(ScopeFailure))
    else
      var name := LastPathComponent(url);
      if IsFolder(fs, url) then Success(File(name, FolderURL(url), Folder))
      else if IsSwiftFile(fs, url) then
        match ReadData(fs, url)
        case Failure(e) => Failure(e)
        case Success(data) => Success(File(name, SwiftData(data), Swift))
      else
        match ReadData(fs, url)
        case Failure(e) => Failure(e)
        case Success(data) => Success(File(name, OtherData(data), Other))
  }

  // ---------------------------------------------------------------------------
  // handleDroppedFiles
  // ---------------------------------------------------------------------------

  /** A URL whose reading ends the batch: it fails, or it is a folder. */
  predicate EndsBatch(r: Result<File, FileError>) {
    r.Failure? || r.value.fileType == Folder
  }

  /** The position of the first URL that ends the batch, or the batch length. */
  function FirstStop(fs: FileSystem, urls: seq<Path>): (k: nat)
    ensures k <= |urls|
    ensures forall j :: 0 <= j < k ==> !EndsBatch(ReadFile(fs, urls[j]))
    ensures k < |urls| ==> EndsBatch(ReadFile(fs, urls[k]))
  {
    if |urls| == 0 then 0
    else if EndsBatch(ReadFile(fs, urls[0])) then 0
    else 1 + FirstStop(fs, urls[1..])
  }

  /** The file read from `url` when it is read successfully as a Swift file. */
  function SwiftEntry(fs: FileSystem, url: Path): (files: seq<File>)
    ensures |files| <= 1
  {
    var r := ReadFile(fs, url);
    if r.Success? && r.value.fileType == Swift then [r.value] else []
  }

  /** The entries among `urls` read successfully as Swift files, in URL order. */
  function SwiftEntries(fs: FileSystem, urls: seq<Path>): (files: seq<File>)
    ensures |files| <= |urls|
  {
    if |urls| == 0 then [] else SwiftEntry(fs, urls[0]) + SwiftEntries(fs, urls[1..])
  }

  lemma {:induction false} SwiftEntriesAppend(fs: FileSystem, a: seq<Path>, b: seq<Path>)
    ensures SwiftEntries(fs, a + b) == SwiftEntries(fs, a) + SwiftEntries(fs, b)
    decreases |a|
  {
    if |a| == 0 {
      assert a + b == b;
    } else {
      assert (a + b)[0] == a[0] && (a + b)[1..] == a[1..] + b;
      SwiftEntriesAppend(fs, a[1..], b);
    }
  }

  /** One more URL read adds its entry at the end. */
  lemma SwiftEntriesStep(fs: FileSystem, urls: seq<Path>, i: nat)
    requires i < |urls|
    ensures SwiftEntries(fs, urls[..i + 1]) == SwiftEntries(fs, urls[..i]) + SwiftEntry(fs, urls[i])
  {
    assert urls[..i + 1] == urls[..i] + [urls[i]];
    SwiftEntriesAppend(fs, urls[..i], [urls[i]]);
  }

  /** Every entry kept is a Swift file read from one of the URLs. */
  lemma {:induction false} SwiftEntriesFrom(fs: FileSystem, urls: seq<Path>)
    ensures forall f :: f in SwiftEntries(fs, urls) ==>
      f.fileType == Swift && exists u :: u in urls && ReadFile(fs, u) == Success(f)
    decreases |urls|
  {
    if |urls| > 0 {
      SwiftEntriesFrom(fs, urls[1..]);
      forall f | f in SwiftEntries(fs, urls[1..])
        ensures exists u :: u in urls && ReadFile(fs, u) == Success(f)
      {
        var u :| u in urls[1..] && ReadFile(fs, u) == Success(f);
        assert u in urls;
      }
    }
  }

  /** The pair `handleDroppedFiles` returns: the first folder met is the whole
      result, a read error met first loses the batch, and when neither occurs the
      Swift files are kept in order. */
  function DroppedFiles(fs: FileSystem, urls: seq<Path>): (bool, seq<File>) {
    var k := FirstStop(fs, urls);
    if k == |urls| then (true, SwiftEntries(fs, urls))
    else
      match ReadFile(fs, urls[k])
      case Failure(_) => (false, [])
      case Success(folder) => (true, [folder])
  }

  /** `handleDroppedFiles(_:)`. */
  method HandleDroppedFiles(fs: FileSystem, urls: seq<Path>) returns (ok: bool, files: seq<File>)
    ensures (ok, files) == DroppedFiles(fs, urls)
  {
    files := [];
    var i := 0;
    while i < |urls|
      invariant i <= FirstStop(fs, urls)
      invariant files == SwiftEntries(fs, urls[..i])
    {
      var file := ReadFile(fs, urls[i]);
      if file.Failure? {
        return false, [];
      }
      if file.value.fileType == Swift {
        files := files + [file.value];
      } else if file.value.fileType == Folder {
        files := [file.value];
        return true, files;
      }
      SwiftEntriesStep(fs, urls, i);
      i := i + 1;
    }
    assert urls[..i] == urls;
    return true, files;
  }

  /** What a batch gives: nothing when it fails; otherwise files read from the
      dropped URLs, none of them `other`, and a folder only as the sole entry. */
  lemma DroppedFilesShape(fs: FileSystem, urls: seq<Path>)
    ensures !DroppedFiles(fs, urls).0 ==> DroppedFiles(fs, urls).1 == []
    ensures forall f :: f in DroppedFiles(fs, urls).1 ==>
      WellTagged(f) && f.fileType != Other && exists u :: u in urls && ReadFile(fs, u) == Success(f)
    ensures forall f :: f in DroppedFiles(fs, urls).1 && f.fileType == Folder ==>
      DroppedFiles(fs, urls).1 == [f]
  {
    var k := FirstStop(fs, urls);
    if k == |urls| {
      SwiftEntriesFrom(fs, urls);
    } else {
      assert urls[k] in urls;
    }
  }

  /** FirstStop is determined by the two facts its contract states. */
  lemma FirstStopAt(fs: FileSystem, urls: seq<Path>, k: nat)
    requires k <= |urls|
    requires forall j :: 0 <= j < k ==> !EndsBatch(ReadFile(fs, urls[j]))
    requires k < |urls| ==> EndsBatch(ReadFile(fs, urls[k]))
    ensures FirstStop(fs, urls) == k
  {
  }

  /** Whatever comes after it, the first folder of a batch whose earlier entries
      all read cleanly is the whole result: Swift files before it are dropped and
      nothing after it is looked at. */
  lemma FirstFolderWins(fs: FileSystem, before: seq<Path>, folder: Path, after: seq<Path>)
    requires forall j :: 0 <= j < |before| ==> !EndsBatch(ReadFile(fs, before[j]))
    requires folder !in fs.unscoped && IsFolder(fs, folder)
    ensures DroppedFiles(fs, before + [folder] + after) ==
      (true, [File(LastPathComponent(folder), FolderURL(folder), Folder)])
  {
    var urls := before + [folder] + after;
    assert forall j :: 0 <= j < |before| ==> urls[j] == before[j];
    assert urls[|before|] == folder;
    FirstStopAt(fs, urls, |before|);
  }

  /** A read error on an entry reached before any folder loses the whole batch. */
  lemma ErrorLosesBatch(fs: FileSystem, before: seq<Path>, bad: Path, after: seq<Path>)
    requires forall j :: 0 <= j < |before| ==> !EndsBatch(ReadFile(fs, before[j]))
    requires ReadFile(fs, bad).Failure?
    ensures DroppedFiles(fs, before + [bad] + after) == (false, [])
  {
    var urls := before + [bad] + after;
    assert forall j :: 0 <= j < |before| ==> urls[j] == before[j];
    assert urls[|before|] == bad;
    FirstStopAt(fs, urls, |before|);
  }

  /** Without folders and errors the result is the Swift files in URL order. */
  lemma NoFolderKeepsSwiftFiles(fs: FileSystem, urls: seq<Path>)
    requires forall j :: 0 <= j < |urls| ==> !EndsBatch(ReadFile(fs, urls[j]))
    ensures DroppedFiles(fs, urls) == (true, SwiftEntries(fs, urls))
  {
    FirstStopAt(fs, urls, |urls|);
  }

  // ---------------------------------------------------------------------------
  // getSwiftFiles
  // ---------------------------------------------------------------------------

  /** Reads, in order, the entries of `urls` with a Swift extension; the first
      read that fails is the result. */
  function ReadSwiftEntries(fs: FileSystem, urls: seq<Path>): Result<seq<SwiftFile>, FileError> {
    if |urls| == 0 then Success([])
    else if !HasSwiftExtension(urls[0]) then ReadSwiftEntries(fs, urls[1..])
    else
      match ReadData(fs, urls[0])
      case Failure(e) => Failure(e)
      case Success(data) =>
        match ReadSwiftEntries(fs, urls[1..])
        case Failure(e) => Failure(e)
        case Success(rest) => Success([SwiftFile(LastPathComponent(urls[0]), data)] + rest)
  }

  /** The first failure of two steps run in order, or both results concatenated. */
  function AndThen(r1: Result<seq<SwiftFile>, FileError>, r2: Result<seq<SwiftFile>, FileError>): Result<seq<SwiftFile>, FileError> {
    match r1
    case Failure(e) => Failure(e)
    case Success(x) =>
      match r2
      case Failure(e) => Failure(e)
      case Success(y) => Success(x + y)
  }

  lemma {:induction false} ReadSwiftEntriesAppend(fs: FileSystem, a: seq<Path>, b: seq<Path>)
    ensures ReadSwiftEntries(fs, a + b) == AndThen(ReadSwiftEntries(fs, a), ReadSwiftEntries(fs, b))
    decreases |a|
  {
    if |a| == 0 {
      assert a + b == b;
      match ReadSwiftEntries(fs, b)
      case Failure(_) =>
      case Success(y) => assert [] + y == y;
    } else {
      assert (a + b)[0] == a[0] && (a + b)[1..] == a[1..] + b;
      ReadSwiftEntriesAppend(fs, a[1..], b);
      if HasSwiftExtension(a[0]) {
        match ReadData(fs, a[0])
        case Failure(_) =>
        case Success(d) =>
          match ReadSwiftEntries(fs, a[1..])
          case Failure(_) =>
          case Success(x) =>
            match ReadSwiftEntries(fs, b)
            case Failure(_) =>
            case Success(y) =>
              assert [SwiftFile(LastPathComponent(a[0]), d)] + (x + y) ==
                     [SwiftFile(LastPathComponent(a[0]), d)] + x + y;
      }
    }
  }

  /** One entry: skipped without a Swift extension, otherwise read. */
  lemma ReadSwiftEntriesSingle(fs: FileSystem, u: Path)
    ensures !HasSwiftExtension(u) ==> ReadSwiftEntries(fs, [u]) == Success([])
    ensures HasSwiftExtension(u) && ReadData(fs, u).Failure? ==>
      ReadSwiftEntries(fs, [u]) == Failure(ReadData(fs, u).error)
    ensures HasSwiftExtension(u) && ReadData(fs, u).Success? ==>
      ReadSwiftEntries(fs, [u]) == Success([SwiftFile(LastPathComponent(u), ReadData(fs, u).value)])
  {
    assert [u][1..] == [];
    if HasSwiftExtension(u) && ReadData(fs, u).Success? {
      var f := SwiftFile(LastPathComponent(u), ReadData(fs, u).value);
      assert [f] + [] == [f];
    }
  }

  /** What `getSwiftFiles(from:)` returns or throws. */
  function FolderSwiftFiles(fs: FileSystem, folder: Path): Result<seq<SwiftFile>, FileError> {
    match ContentsOfDirectory(fs, folder)
    case Failure(e) => Failure(e)
    case Success(urls) => ReadSwiftEntries(fs, urls)
  }

  /** `getSwiftFiles(from:)`. */
  method GetSwiftFiles(fs: FileSystem, folder: Path) returns (r: Result<seq<SwiftFile>, FileError>)
    ensures r == FolderSwiftFiles(fs, folder)
  {
    var listing := ContentsOfDirectory(fs, folder);
    if listing.Failure? {
      return Failure(listing.error);
    }
    var fileURLs := listing.value;
    var swiftFiles: seq<SwiftFile> := [];
    var i := 0;
    while i < |fileURLs|
      invariant i <= |fileURLs|
      invariant ReadSwiftEntries(fs, fileURLs[..i]) == Success(swiftFiles)
    {
      var fileURL := fileURLs[i];
      ReadSwiftEntriesStep(fs, fileURLs, i, swiftFiles);
      if HasSwiftExtension(fileURL) {
        var data := ReadData(fs, fileURL);
        if data.Failure? {
          return Failure(data.error);
        }
        swiftFiles := swiftFiles + [SwiftFile(LastPathComponent(fileURL), data.value)];
      }
      i := i + 1;
    }
    assert fileURLs[..i] == fileURLs;
    return Success(swiftFiles);
  }

  /** One more URL read: skipped without a Swift extension, otherwise its file is
      added, or its read error is the result of reading all of `urls`. */
  lemma ReadSwiftEntriesStep(fs: FileSystem, urls: seq<Path>, i: nat, done: seq<SwiftFile>)
    requires i < |urls| && ReadSwiftEntries(fs, urls[..i]) == Success(done)
    ensures !HasSwiftExtension(urls[i]) ==> ReadSwiftEntries(fs, urls[..i + 1]) == Success(done)
    ensures HasSwiftExtension(urls[i]) && ReadData(fs, urls[i]).Failure? ==>
      ReadSwiftEntries(fs, urls) == Failure(ReadData(fs, urls[i]).error)
    ensures HasSwiftExtension(urls[i]) && ReadData(fs, urls[i]).Success? ==>
      ReadSwiftEntries(fs, urls[..i + 1]) ==
        Success(done + [SwiftFile(LastPathComponent(urls[i]), ReadData(fs, urls[i]).value)])
  {
    var u := urls[i];
    assert urls[..i + 1] == urls[..i] + [u];
    ReadSwiftEntriesAppend(fs, urls[..i], [u]);
    ReadSwiftEntriesSingle(fs, u);
    if !HasSwiftExtension(u) {
      assert done + [] == done;
    } else if ReadData(fs, u).Failure? {
      assert urls == urls[..i + 1] + urls[i + 1..];
      ReadSwiftEntriesAppend(fs, urls[..i + 1], urls[i + 1..]);
    }
  }

  /** The entries of `urls` with a Swift extension, in order. */
  function SwiftURLs(urls: seq<Path>): (s: seq<Path>)
    ensures forall u :: u in s ==> u in urls && HasSwiftExtension(u)
  {
    if |urls| == 0 then []
    else (if HasSwiftExtension(urls[0]) then [urls[0]] else []) + SwiftURLs(urls[1..])
  }

  /** The Swift entries keep their order, and each occurs as often as in `urls`. */
  lemma {:induction false} SwiftURLsComplete(urls: seq<Path>)
    ensures Strings.IsSubsequence(SwiftURLs(urls), urls)
    ensures forall u :: HasSwiftExtension(u) ==> multiset(SwiftURLs(urls))[u] == multiset(urls)[u]
    decreases |urls|
  {
    if |urls| > 0 {
      SwiftURLsComplete(urls[1..]);
      var s, rest := SwiftURLs(urls), SwiftURLs(urls[1..]);
      assert urls == [urls[0]] + urls[1..];
      if HasSwiftExtension(urls[0]) {
        assert s == [urls[0]] + rest && s[1..] == rest;
      } else {
        assert s == rest;
        assert |s| > 0 ==> s[0] in s && s[0] != urls[0];
      }
    }
  }

  /** Reading succeeds exactly when every entry with a Swift extension is readable,
      and then yields one file per such entry, in order, named by its last path
      component and holding its bytes. */
  lemma {:induction false} ReadSwiftEntriesMeaning(fs: FileSystem, urls: seq<Path>)
    ensures ReadSwiftEntries(fs, urls).Success? <==>
      forall u :: u in SwiftURLs(urls) ==> ReadData(fs, u).Success?
    ensures ReadSwiftEntries(fs, urls).Success? ==>
      var files, sw := ReadSwiftEntries(fs, urls).value, SwiftURLs(urls);
      |files| == |sw| &&
      forall i :: 0 <= i < |files| ==>
        files[i] == SwiftFile(LastPathComponent(sw[i]), ReadData(fs, sw[i]).value)
    decreases |urls|
  {
    if |urls| > 0 {
      ReadSwiftEntriesMeaning(fs, urls[1..]);
      var sw := SwiftURLs(urls);
      if HasSwiftExtension(urls[0]) {
        assert sw == [urls[0]] + SwiftURLs(urls[1..]);
        assert forall u :: u in sw <==> u == urls[0] || u in SwiftURLs(urls[1..]);
      } else {
        assert sw == SwiftURLs(urls[1..]);
      }
    }
  }

  /** `getSwiftFiles` succeeds exactly when the folder can be listed and each of
      its visible children with a Swift extension can be read. */
  lemma FolderSwiftFilesSucceeds(fs: FileSystem, folder: Path)
    ensures FolderSwiftFiles(fs, folder).Success? <==>
      folder in fs.nodes && fs.nodes[folder].Directory? && folder !in fs.locked &&
      forall u :: u in SwiftURLs(VisibleEntries(folder, fs.nodes[folder].names)) ==> ReadData(fs, u).Success?
  {
    if folder in fs.nodes && fs.nodes[folder].Directory? && folder !in fs.locked {
      ReadSwiftEntriesMeaning(fs, VisibleEntries(folder, fs.nodes[folder].names));
    }
  }

  /** `getSwiftFiles` keeps only visible immediate children with a Swift
      extension: the i-th file it returns is the i-th such child, named by its
      last path component and holding that child's bytes. */
  lemma FolderSwiftFilesMeaning(fs: FileSystem, folder: Path)
    ensures FolderSwiftFiles(fs, folder).Success? ==>
      folder in fs.nodes && fs.nodes[folder].Directory? &&
      var files, sw := FolderSwiftFiles(fs, folder).value, SwiftURLs(VisibleEntries(folder, fs.nodes[folder].names));
      |files| == |sw| &&
      forall i :: 0 <= i < |files| ==>
        sw[i] == folder + [files[i].name] && !IsHidden(files[i].name) && HasSwiftExtension(sw[i]) &&
        sw[i] in fs.nodes && fs.nodes[sw[i]] == Regular(files[i].data)
  {
    if folder in fs.nodes && fs.nodes[folder].Directory? && folder !in fs.locked {
      var listing := VisibleEntries(folder, fs.nodes[folder].names);
      ReadSwiftEntriesMeaning(fs, listing);
      var sw := SwiftURLs(listing);
      if ReadSwiftEntries(fs, listing).Success? {
        var files := ReadSwiftEntries(fs, listing).value;
        forall i | 0 <= i < |files|
          ensures sw[i] == folder + [files[i].name] && !IsHidden(files[i].name) && HasSwiftExtension(sw[i])
          ensures sw[i] in fs.nodes && fs.nodes[sw[i]] == Regular(files[i].data)
        {
          assert sw[i] in sw;
          assert sw[i] in listing;
          SwiftChild(fs, folder, sw[i], files[i]);
        }
      }
    }
  }

  /** Every visible child of the folder with a Swift extension is among the files
      `getSwiftFiles` returns, with its bytes. */
  lemma FolderSwiftFilesComplete(fs: FileSystem, folder: Path)
    ensures FolderSwiftFiles(fs, folder).Success? ==>
      folder in fs.nodes && fs.nodes[folder].Directory? &&
      forall n :: n in fs.nodes[folder].names && !IsHidden(n) && HasSwiftExtension(folder + [n]) ==>
        exists i :: 0 <= i < |FolderSwiftFiles(fs, folder).value| &&
          FolderSwiftFiles(fs, folder).value[i].name == n && folder + [n] in fs.nodes &&
          fs.nodes[folder + [n]] == Regular(FolderSwiftFiles(fs, folder).value[i].data)
  {
    FolderSwiftFilesMeaning(fs, folder);
    if FolderSwiftFiles(fs, folder).Success? {
      var names := fs.nodes[folder].names;
      var files := FolderSwiftFiles(fs, folder).value;
      var sw := SwiftURLs(VisibleEntries(folder, names));
      forall n | n in names && !IsHidden(n) && HasSwiftExtension(folder + [n])
        ensures exists i :: 0 <= i < |files| && files[i].name == n && folder + [n] in fs.nodes &&
                            fs.nodes[folder + [n]] == Regular(files[i].data)
      {
        SwiftChildListed(folder, names, n);
        ChildFile(fs, folder, files, sw, n);
      }
    }
  }

  /** The file read from a listed child. */
  lemma ChildFile(fs: FileSystem, folder: Path, files: seq<SwiftFile>, sw: seq<Path>, n: string)
    requires |files| == |sw| && folder + [n] in sw
    requires forall i :: 0 <= i < |files| ==>
      sw[i] == folder + [files[i].name] && sw[i] in fs.nodes && fs.nodes[sw[i]] == Regular(files[i].data)
    ensures exists i :: 0 <= i < |files| && files[i].name == n && folder + [n] in fs.nodes &&
                        fs.nodes[folder + [n]] == Regular(files[i].data)
  {
    var i :| 0 <= i < |sw| && sw[i] == folder + [n];
    assert (folder + [n])[|folder|] == (folder + [files[i].name])[|folder|];
  }

  /** A visible child name with a Swift extension is listed and kept. */
  lemma SwiftChildListed(folder: Path, names: seq<string>, n: string)
    requires n in names && !IsHidden(n) && HasSwiftExtension(folder + [n])
    ensures folder + [n] in SwiftURLs(VisibleEntries(folder, names))
  {
    var listing := VisibleEntries(folder, names);
    VisibleEntriesCounted(folder, names);
    SwiftURLsComplete(listing);
    assert multiset(names)[n] > 0;
    assert multiset(SwiftURLs(listing))[folder + [n]] == multiset(listing)[folder + [n]] > 0;
  }

  /** One file of a folder read: the visible child it was read from. */
  lemma SwiftChild(fs: FileSystem, folder: Path, u: Path, f: SwiftFile)
    requires |u| == |folder| + 1 && u[..|folder|] == folder && !IsHidden(u[|folder|])
    requires ReadData(fs, u).Success? && f == SwiftFile(LastPathComponent(u), ReadData(fs, u).value)
    ensures u == folder + [f.name] && !IsHidden(f.name)
    ensures u in fs.nodes && fs.nodes[u] == Regular(f.data)
  {
    assert u == u[..|folder|] + [u[|folder|]];
  }

  // ---------------------------------------------------------------------------
  // [File].extractSwiftFiles
  // ---------------------------------------------------------------------------

  /** What one dropped entry adds: a Swift file itself, a folder its Swift files
      unless listing or reading it fails, anything else nothing. */
  function Contribution(fs: FileSystem, f: File): seq<SwiftFile> {
    match f.data
    case SwiftData(data) => [SwiftFile(f.name, data)]
    case FolderURL(url) =>
      (match FolderSwiftFiles(fs, url)
       case Success(found) => found
       case Failure(_) => [])
    case OtherData(_) => []
  }

  /** The in-order concatenation of every entry's contribution. */
  function ExtractedSwiftFiles(fs: FileSystem, files: seq<File>): seq<SwiftFile> {
    if |files| == 0 then [] else Contribution(fs, files[0]) + ExtractedSwiftFiles(fs, files[1..])
  }

  /** Extraction works entry by entry: extracting two lists one after the other
      is extracting their concatenation. */
  lemma {:induction false} ExtractedAppend(fs: FileSystem, a: seq<File>, b: seq<File>)
    ensures ExtractedSwiftFiles(fs, a + b) == ExtractedSwiftFiles(fs, a) + ExtractedSwiftFiles(fs, b)
    decreases |a|
  {
    if |a| == 0 {
      assert a + b == b;
    } else {
      assert (a + b)[0] == a[0] && (a + b)[1..] == a[1..] + b;
      ExtractedAppend(fs, a[1..], b);
    }
  }

  /** Appends the elements of `more` one by one, as the loop over a folder's
      Swift files does. */
  method AppendEach(acc: seq<SwiftFile>, more: seq<SwiftFile>) returns (r: seq<SwiftFile>)
    ensures r == acc + more
  {
    r := acc;
    for j := 0 to |more|
      invariant r == acc + more[..j]
    {
      r := r + [more[j]];
      assert more[..j + 1] == more[..j] + [more[j]];
    }
    assert more[..|more|] == more;
  }

  /** `[File].extractSwiftFiles()`. */
  method ExtractSwiftFiles(fs: FileSystem, files: seq<File>) returns (swiftFiles: seq<SwiftFile>)
    ensures swiftFiles == ExtractedSwiftFiles(fs, files)
  {
    swiftFiles := [];
    for i := 0 to |files|
      invariant swiftFiles == ExtractedSwiftFiles(fs, files[..i])
    {
      var file := files[i];
      ghost var start := swiftFiles;
      match file.data {
        case SwiftData(data) =>
          swiftFiles := swiftFiles + [SwiftFile(file.name, data)];
        case FolderURL(folderURL) =>
          var found := GetSwiftFiles(fs, folderURL);
          if found.Success? {
            swiftFiles := AppendEach(swiftFiles, found.value);
          } else {
            assert start + [] == start;
          }
        case OtherData(_) =>
          assert start + [] == start;
      }
      assert swiftFiles == start + Contribution(fs, file);
      assert files[..i + 1] == files[..i] + [file];
      ExtractedAppend(fs, files[..i], [file]);
      assert ExtractedSwiftFiles(fs, [file]) == Contribution(fs, file) + ExtractedSwiftFiles(fs, []);
    }
    assert files[..|files|] == files;
  }
}
