# Packagify: a verified model of the package generator

Packagify is a macOS app that turns dropped Swift files or folders into a Swift
package. You drop files or a folder on the first screen. On the next screens you
pick the files to include, name the package and choose its platforms. The app
then renders a `Package.swift` manifest and writes
`<tmp>/<Name>/Package.swift` and `<tmp>/<Name>/Sources/<Name>/<file>` for export.

This project models that core in Dafny and proves its contracts:

- `wrappers.dfy`: `Option`, `Result` (a value or a thrown error) and `Outcome`
  (a `throws` function returning `Void`).
- `strings.dfy`: the Swift `String` operations the code relies on, as functions with lemmas.
  - `replacingOccurrences(of:with:)`: a left-to-right, non-overlapping replacement.
  - `joined(separator:)`.
  - `split(separator:)`, which drops empty pieces.
  - `lowercased()`.
  - `filter`.
  - The line structure of a text.
- `storage.dfy`: an abstract `FileManager`.
  - A file system is a map from paths (sequences of components) to directories and regular files.
  - Two sets say where things fail: the locked paths, and the URLs whose security-scoped access cannot start.
  - It offers `Data(contentsOf:)`, `contentsOfDirectory(... .skipsHiddenFiles)`, `removeItem`, `createDirectory(withIntermediateDirectories: true)`, `write(to:)` and UTF-8 encoding.
  - Each update states what it keeps.
- `content_view.dfy` (`ContentView.swift`):
  - classification of a dropped URL as a folder, a Swift file or another file;
  - the batch rule of `handleDroppedFiles`;
  - `getSwiftFiles` and `[File].extractSwiftFiles`.
- `generate_package.dfy` (`GeneratePackage.swift`):
  - the `Platforms` enum and `PackageInfo`;
  - `trimToMajorMinor`;
  - `supportedPlatformString`;
  - `createPackage`, with the manifest proved line by line.
- `generation_view_flow.dfy` (`GenerationViewFlow.swift`), as classes holding the same state as the three screens:
  - `SelectFilesView`: the selection, Select All and Deselect All, and the rebuilt `PackageInfo`;
  - `PackageInfoView`: the name setter, the seven platform toggles with their versions, Generate, and the character filter of `extractNumber`;
  - `ReviewPackageView`: `preparePackageFolder`.

Loops in the source are methods with loop invariants. Each method is proved equal
to a function, and the lemmas state the properties of those functions:

- `HandleDroppedFiles`, `GetSwiftFiles`, `ExtractSwiftFiles` and `CreatePackage`;
- `SelectAll`;
- `WriteSources` and `PreparePackageFolder`.

`AssemblePlatforms` follows the source's chain of seven `if`s without a loop. Intermediate assertions prove it equal to `EnabledPlatforms`.

Version numbers (`CGFloat`) are taken as their description text, e.g. "13.0" or
"10.05". The same text goes into the manifest.

Behaviours of the code that are easy to misread:

- A single unreadable Swift file inside a dropped folder makes `getSwiftFiles` throw.
  - `extractSwiftFiles` then swallows that error, so the whole folder contributes nothing. Other files are not skipped one by one.
  - See `ContentView.FolderSwiftFilesSucceeds` and `ContentView.ExtractSwiftFiles`.
- In `handleDroppedFiles`, one read error reached before a folder loses the whole batch, as `(false, [])`. The error does not disqualify only that entry (`ContentView.ErrorLosesBatch`).
- Only the folder that this review screen itself exported earlier (`exportFolderURL`) is removed before writing, and only when it still exists. A directory already at `<tmp>/<Name>` is not removed first. Files left there from elsewhere survive unless they are overwritten (`GenerationViewFlow.PreparedReplacesStale`).
- A URL is a Swift file only if it exists and is not a directory, besides having the extension (`ContentView.ReadFile`).
- The package folder is `appendingPathComponent` of the normalized name, not a fixed single component.
  - An empty name makes the package folder the temporary directory itself (`GenerationViewFlow.EmptyNamePackageFolder`). The export folder then records the temporary directory, so the next preparation removes all of it.
  - A name holding "/" nests folders: "a/b" gives `<tmp>/a/b` and `<tmp>/a/b/Sources/a/b` (`GenerationViewFlow.SlashedNamePackageFolder`).

## Model

| member | source | states |
|---|---|---|
| ContentView.ReadFile | Packagify/ContentView.swift:124-140 | A URL without security-scoped access fails with the scope error before anything is looked at. Otherwise: folder exactly when the path is a directory, whatever its name, and then it carries the URL. Swift exactly when it is an existing non-directory with a "swift" extension and readable. The name is the last path component, and the tag agrees with the content. Failure exactly when access fails or a non-folder cannot be read. |
| ContentView.SwiftExtensionMeaning | Packagify/ContentView.swift:148-152 | The cheap test on the last six characters holds exactly when the lowercased `pathExtension` of the last path component is "swift". |
| ContentView.IsFolderMeaning | Packagify/ContentView.swift:143-147 | A non-root URL is a folder exactly when something exists at its path and it is not a regular file; reading a folder's data fails. The root is always a directory. |
| ContentView.IsSwiftFileMeaning | Packagify/ContentView.swift:148-152 | A URL is a Swift file exactly when something exists there, it is not a directory, and the lowercased `pathExtension` of its last component is "swift". |
| ContentView.HandleDroppedFiles | Packagify/ContentView.swift:99-119 | The loop returns exactly the batch reduction `DroppedFiles`: the result at the first folder or error, else the Swift entries in order. |
| ContentView.FirstFolderWins | Packagify/ContentView.swift:103-109 | When the earlier entries read cleanly, the first folder makes the result `(true, [that folder])`. Earlier Swift files are dropped and later URLs do not matter. |
| ContentView.ErrorLosesBatch | Packagify/ContentView.swift:115-118 | A read error on an entry reached before any folder makes the result `(false, [])`, whatever follows. |
| ContentView.NoFolderKeepsSwiftFiles | Packagify/ContentView.swift:103-114 | Without folders and errors the result is `true` with the Swift entries in URL order; other entries are dropped. |
| ContentView.SwiftEntriesAppend | Packagify/ContentView.swift:103-113 | The kept entries of two URL lists in a row are the kept entries of each, concatenated. |
| ContentView.SwiftEntriesFrom | Packagify/ContentView.swift:104-106 | Every kept entry is tagged swift and is what `readFile` returned for one of the URLs. |
| ContentView.DroppedFilesShape | Packagify/ContentView.swift:99-119 | A failed batch gives no files. Every file returned is well tagged, never "other", and was read from one of the URLs. A folder is only ever the sole entry. |
| ContentView.FirstStop | Packagify/ContentView.swift:103-113 | The position where the loop stops: every earlier URL reads as a non-folder without error, and the URL at that position is a folder or fails. |
| ContentView.GetSwiftFiles | Packagify/ContentView.swift:219-238 | The loop returns exactly `FolderSwiftFiles`. That is the listing error, or the Swift children read in order, stopping at the first failed read. |
| ContentView.ReadSwiftEntriesAppend | Packagify/ContentView.swift:229-235 | Reading two URL lists in a row succeeds exactly when both succeed, and concatenates the results; the first failure is the result. |
| ContentView.ReadSwiftEntriesSingle | Packagify/ContentView.swift:230-233 | One URL: skipped without a Swift extension, its read error when unreadable, otherwise one file named by its last component holding its bytes. |
| ContentView.ReadSwiftEntriesMeaning | Packagify/ContentView.swift:229-235 | Reading succeeds exactly when every URL with a Swift extension is readable. Then the i-th file belongs to the i-th such URL, with its last component and its bytes. |
| ContentView.FolderSwiftFilesSucceeds | Packagify/ContentView.swift:219-238 | `getSwiftFiles` succeeds exactly when the folder is an unlocked directory and each of its visible children with a Swift extension is readable. |
| ContentView.FolderSwiftFilesMeaning | Packagify/ContentView.swift:219-238 | On success the i-th file is the i-th visible Swift child. It is a direct child of the folder, not hidden, named by its last component, and holds that child's bytes. |
| ContentView.FolderSwiftFilesComplete | Packagify/ContentView.swift:219-238 | On success nothing is missed: every visible child with a Swift extension has a file with its name holding the bytes stored at that child. |
| ContentView.SwiftURLsComplete | Packagify/ContentView.swift:229-230 | The URLs the loop reads keep the listing's order, and each URL with a Swift extension occurs among them exactly as often as in the listing. |
| ContentView.SwiftChild | Packagify/ContentView.swift:229-233 | A file read from a visible child URL is that direct child of the folder, not hidden, and holds the bytes stored there. |
| ContentView.ExtractedAppend | Packagify/ContentView.swift:195-216 | Extraction works entry by entry: extracting a concatenation is concatenating the extractions. |
| ContentView.AppendEach | Packagify/ContentView.swift:205-207 | The inner append loop returns the accumulated list followed by every file of the folder, in order. |
| ContentView.ExtractSwiftFiles | Packagify/ContentView.swift:195-216 | The result is the in-order concatenation of each entry's contribution: a Swift entry itself, a folder's `getSwiftFiles` result or nothing when that throws, and nothing for other entries. |
| GeneratePackage.TrimKeepsMajorMinor | Packagify/GeneratePackage.swift:41-45 | The first two runs of non-dot characters are kept, joined by one dot. Dots before the first run are skipped, and the two runs may be separated by any number of dots. Anything after a further dot is dropped, so "1..2" gives "1.2" and "13.0.1" gives "13.0". |
| GeneratePackage.TrimToMajorMinor | Packagify/GeneratePackage.swift:41-45 | The result is the input unchanged, or two non-empty dot-free pieces joined by a single dot. |
| GeneratePackage.TrimKeepsSingle | Packagify/GeneratePackage.swift:42-43 | A version with at most one run of non-dot characters, with any dots before and after it, is returned unchanged. This includes "", "13", "13." and ".5". |
| GeneratePackage.TrimIdempotent | Packagify/GeneratePackage.swift:41-45 | Trimming twice is trimming once. |
| GeneratePackage.SupportedPlatformString | Packagify/GeneratePackage.swift:82-99 | Every entry is `.<platform>(.v<version>)`. For tvOS the version is verbatim; for the others every non-overlapping ".0" of the version is removed, and the platform name and brackets are untouched. |
| GeneratePackage.StripVersionOnly | Packagify/GeneratePackage.swift:84-96 | Removing ".0" from `<head><version>)` removes it from the version alone when the head ends in "v" and has no "0". |
| GeneratePackage.IOSEntryExample | Packagify/GeneratePackage.swift:84-85 | iOS 13.0 renders as `.iOS(.v13)`. |
| GeneratePackage.MacOSEntryExample | Packagify/GeneratePackage.swift:86-87 | macOS 10.05 renders as `.macOS(.v105)`: an inner ".0" goes too, not just a trailing one. |
| GeneratePackage.PlatformEntryOneLine | Packagify/GeneratePackage.swift:82-99 | An entry has no newline when its version has none. |
| GeneratePackage.Normalize | Packagify/GeneratePackage.swift:59 | Replacing spaces by "_" keeps the length, turns exactly the spaces into "_", changes no other character, and leaves no space. |
| GeneratePackage.NormalizeIdempotent | Packagify/GeneratePackage.swift:59 | Normalizing a normalized name changes nothing. |
| GeneratePackage.Manifest | Packagify/GeneratePackage.swift:54-79 | The text opens with `// swift-tools-version: ` and the tools version, 6.0 when it is nil, on a line of its own, and closes with `)` on a line of its own. |
| GeneratePackage.CreatePackage | Packagify/GeneratePackage.swift:46-81 | The loop and template give exactly `Manifest(name, platforms, tools version)`. Nothing else of the `PackageInfo`, in particular not its files, enters the text. |
| GeneratePackage.CommaTerminated | Packagify/GeneratePackage.swift:53 | There is one line per entry. |
| GeneratePackage.LinesOfEntries | Packagify/GeneratePackage.swift:53 | Joining one-line entries with ",\n" gives one line per entry, in order, each but the last followed by a comma. No entries give one empty line. |
| GeneratePackage.ManifestLines | Packagify/GeneratePackage.swift:53-79 | The manifest's lines are the six head lines, the platform block and the seventeen tail lines (4 template spaces stripped). The block's lines after the first carry no indentation. |
| GeneratePackage.ManifestLineCount | Packagify/GeneratePackage.swift:54-79 | The manifest has 23 lines plus one per platform, or plus one when no platform is listed. |
| GeneratePackage.ManifestHeadSites | Packagify/GeneratePackage.swift:55-60 | The first line is `// swift-tools-version: ` followed by the tools version, or 6.0 when it is nil. The fifth line is `name:` with the normalized name, the sixth `platforms: [`. |
| GeneratePackage.ManifestPlatformSites | Packagify/GeneratePackage.swift:60-62 | After `platforms: [` come the platform entries, one per line in input order. The first is indented by eight spaces; with no platform that line is eight spaces alone. |
| GeneratePackage.ManifestTailSites | Packagify/GeneratePackage.swift:62-79 | The normalized name appears as library name, library target, target name and after `Sources/` in the path. `dependencies` (twice) and `resources` are `[]` whatever the input. |
| GeneratePackage.CommaTerminatedAt | Packagify/GeneratePackage.swift:53 | The line of entry i is the entry followed by a comma, except after the last entry. |
| Strings.ReplaceAllConcat | Packagify/GeneratePackage.swift:84-96 | Replacing in a concatenation whose junction holds no match is replacing in each part. |
| Strings.ReplaceAllAbsent | Packagify/GeneratePackage.swift:59 | Replacing a pattern whose last character does not occur in the text changes nothing. |
| Strings.ReplaceAllChars | Packagify/GeneratePackage.swift:84-96 | Every character of a replacement result comes from the input or from the replacement text. |
| Strings.ReplaceCharPointwise | Packagify/GeneratePackage.swift:59 | Replacing one character by another acts position by position and keeps the length. |
| Strings.SplitLosesOnlySeparators | Packagify/GeneratePackage.swift:42 | The pieces of `split`, concatenated, are the input without its separators. |
| Strings.SplitSkipsSeparators | Packagify/GeneratePackage.swift:42 | Separators at the front of a text give no piece: `split` drops empty pieces. |
| Strings.SplitLeadingRun | Packagify/GeneratePackage.swift:42 | A non-empty separator-free piece followed by any run of separators is the first piece. What follows the run is split on its own. |
| Strings.SplitTrailingRun | Packagify/GeneratePackage.swift:42 | A separator-free text followed only by separators gives one piece, or no piece when the text is empty. |
| Strings.Filter | Packagify/GenerationViewFlow.swift:238 | The result is a subsequence of the input, holds only allowed characters, and holds each allowed character exactly as often as the input does. |
| Strings.FilterIdempotent | Packagify/GenerationViewFlow.swift:238 | Filtering twice is filtering once. |
| Storage.ReadData | Packagify/ContentView.swift:134 | Reading succeeds exactly on an unlocked regular file and yields its bytes. |
| Storage.VisibleEntries | Packagify/ContentView.swift:221-225 | A listed URL is a direct child of the folder whose name does not start with a dot. |
| Storage.VisibleEntriesMembers | Packagify/ContentView.swift:221-225 | A URL is listed exactly when it is `<folder>/<n>` for a child name `n` that does not start with a dot. |
| Storage.VisibleEntriesOrdered | Packagify/ContentView.swift:221-225 | The listing keeps the children in the directory's order. |
| Storage.VisibleEntriesCounted | Packagify/ContentView.swift:221-225 | Each visible child occurs in the listing exactly as often as its name occurs in the directory. |
| Storage.ContentsOfDirectoryMeaning | Packagify/ContentView.swift:221-225 | Listing succeeds exactly on an existing, unlocked directory, and then lists exactly its visible children. |
| Storage.AppendingPathComponent | Packagify/GenerationViewFlow.swift:333-341 | Appending an empty component leaves the URL as it is. A non-empty component without "/" adds exactly one component. The result always extends the URL. |
| Storage.RemoveItem | Packagify/GenerationViewFlow.swift:330 | Succeeds exactly on an existing path when neither it nor anything below it is locked. It removes that path and everything below it, and keeps every other file. |
| Storage.CreateDirectory | Packagify/GenerationViewFlow.swift:335 | On success the path and all its ancestors are directories. Files and directories are kept, and only directories are added. |
| Storage.CreateDirectorySucceeds | Packagify/GenerationViewFlow.swift:335 | Creation succeeds exactly when each prefix of the path is a directory, or is absent and unlocked. |
| Storage.CreateDirectoryAdds | Packagify/GenerationViewFlow.swift:335 | Only prefixes of the path are added. |
| Storage.CreateExistingDirectory | Packagify/GenerationViewFlow.swift:335 | Creating a directory whose ancestors and itself already exist succeeds and changes nothing. |
| Storage.CreatedFreeBelow | Packagify/GenerationViewFlow.swift:335 | Creating a path below which nothing exists or is locked succeeds, makes every prefix a directory and still leaves nothing below it. |
| Storage.WriteFile | Packagify/GenerationViewFlow.swift:346 | Succeeds exactly on an unlocked path whose parent is a directory and which is not a directory. Then that path holds the bytes, every other regular file is kept, directories stay directories, and no other path is added. |
| Storage.WriteFileNoNewDirectories | Packagify/GenerationViewFlow.swift:346 | A write creates no directory. |
| GenerationViewFlow.AllSelectedByCount | Packagify/GenerationViewFlow.swift:23-29 | For distinct files and a selection among them, the `count ==` test that offers Deselect All holds exactly when every file is selected. |
| GenerationViewFlow.ArrayOfSet | Packagify/GenerationViewFlow.swift:65 | The array holds every element of the set exactly once. |
| GenerationViewFlow.Toggled | Packagify/GenerationViewFlow.swift:51-55 | The tapped file's membership flips and no other file's changes. |
| GenerationViewFlow.ToggleTwice | Packagify/GenerationViewFlow.swift:50-56 | Tapping the same row twice restores the selection. |
| GenerationViewFlow.SelectFilesView.constructor | Packagify/GenerationViewFlow.swift:4-7 | Nothing is selected and there is no package info yet. |
| GenerationViewFlow.SelectFilesView.NextPackageInfo | Packagify/GenerationViewFlow.swift:70-75 | When "Next" is offered, the info handed on is the one rebuilt from the selection. The "ERROR" placeholder only stands in when there is none. |
| GenerationViewFlow.SelectFilesView.SelectionChanged | Packagify/GenerationViewFlow.swift:61-68 | The package info becomes "My Swift Package" with the selected files, each once, no platforms and tools version 6.0. |
| GenerationViewFlow.SelectFilesView.Tap | Packagify/GenerationViewFlow.swift:50-56 | The selection becomes the toggled one and the package info is rebuilt from it. |
| GenerationViewFlow.SelectFilesView.SelectAll | Packagify/GenerationViewFlow.swift:30-36 | The selection becomes every shown file and keeps those already selected. The package info stays when the selection did not change, and otherwise is rebuilt from the new selection. |
| GenerationViewFlow.SelectFilesView.DeselectAll | Packagify/GenerationViewFlow.swift:24-26 | The selection becomes empty. The package info stays when nothing was selected, and otherwise is rebuilt from the empty selection. |
| GenerationViewFlow.NumberText | Packagify/GenerationViewFlow.swift:238 | The filtered text is a subsequence of the input made of digits and dots only, and it holds each digit and the dot exactly as often as the input does. |
| GenerationViewFlow.NumberTextIdempotent | Packagify/GenerationViewFlow.swift:238 | Filtering the filtered text again changes nothing. |
| GenerationViewFlow.EnabledPlatformsCount | Packagify/GenerationViewFlow.swift:184-206 | One platform per enabled toggle. |
| GenerationViewFlow.EnabledPlatformsMembership | Packagify/GenerationViewFlow.swift:184-206 | A platform is listed exactly when an enabled toggle carries it. |
| GenerationViewFlow.EnabledPlatformsOrdered | Packagify/GenerationViewFlow.swift:184-206 | Toggles in increasing kind order give platforms in strictly increasing kind order, so no kind appears twice. |
| GenerationViewFlow.PackageInfoView.constructor | Packagify/GenerationViewFlow.swift:91-109 | Every toggle is off and the versions are 13, 11, 13, 19, 13, 1 and 6 (as "13.0" and so on). Nothing is generated. |
| GenerationViewFlow.PackageInfoView.Toggles | Packagify/GenerationViewFlow.swift:94-108 | Seven toggles in the order iOS, macOS, macCatalyst, driverKit, tvOS, visionOS, watchOS. |
| GenerationViewFlow.PackageInfoView.SetName | Packagify/GenerationViewFlow.swift:122 | The stored name is the input with its spaces replaced by "_"; nothing else changes. |
| GenerationViewFlow.PackageInfoView.AssemblePlatforms | Packagify/GenerationViewFlow.swift:184-206 | The appends give exactly the platforms of the enabled toggles in toggle order, each with its own version. |
| GenerationViewFlow.PackageInfoView.Generate | Packagify/GenerationViewFlow.swift:183-208 | The platform list is rebuilt from the toggles. The generated text is the manifest of the new package info. The toggles do not change. |
| GenerationViewFlow.GeneratedPlatforms | Packagify/GenerationViewFlow.swift:184-206 | Generate's list has as many platforms as enabled toggles, in the fixed order, no kind twice. It holds a toggle's platform, with that toggle's version, exactly when the toggle is on. |
| GenerationViewFlow.LastData | Packagify/GenerationViewFlow.swift:344-347 | Some bytes exactly when a file of that name is listed. They are the bytes of a listed file of that name after which no file has that name. |
| GenerationViewFlow.URLsOfPackage | Packagify/GenerationViewFlow.swift:333-341 | The chained `appendingPathComponent` calls give the package folder, its `Package.swift` and its `Sources/<N>` folder, N being the normalized name. |
| GenerationViewFlow.EmptyNamePackageFolder | Packagify/GenerationViewFlow.swift:333-341 | With an empty name the package folder is the temporary directory itself, the manifest is `<tmp>/Package.swift` and the sources folder is `<tmp>/Sources`. |
| GenerationViewFlow.SlashedNamePackageFolder | Packagify/GenerationViewFlow.swift:333-341 | The name "a/b" makes the package folder `<tmp>/a/b` and the sources folder `<tmp>/a/b/Sources/a/b`. |
| GenerationViewFlow.WriteAllFacts | Packagify/GenerationViewFlow.swift:344-347 | After all writes succeed, each `<dir>/<name>` holds the bytes of the last file of that name. No other file is changed or added, and directories are kept. |
| GenerationViewFlow.WriteAllStops | Packagify/GenerationViewFlow.swift:344-347 | Once a write fails the later files are not written. |
| GenerationViewFlow.WriteAllSucceeds | Packagify/GenerationViewFlow.swift:344-347 | Every write succeeds when the folder is a directory and no target is locked or a directory. No new directory appears. |
| GenerationViewFlow.WriteSources | Packagify/GenerationViewFlow.swift:344-347 | The loop reaches exactly the state and outcome of writing the files one by one, stopping at the first failure. |
| GenerationViewFlow.BuiltContents | Packagify/GenerationViewFlow.swift:333-347 | After the folders and files are written, the package and sources folders exist. Package.swift holds the text as UTF-8, and each source file holds the last same-named file's bytes. |
| GenerationViewFlow.BuiltFrom | Packagify/GenerationViewFlow.swift:333-347 | Writing the package changes no regular file but the manifest and the source files, and adds no other. |
| GenerationViewFlow.BuildSucceeds | Packagify/GenerationViewFlow.swift:333-347 | The folders and files are written without error whenever the package folder can be created and nothing exists or is locked below it. |
| GenerationViewFlow.PreparedContents | Packagify/GenerationViewFlow.swift:324-350 | After a successful preparation the folders exist, `Package.swift` holds the current, possibly edited, text, and each source path holds the data of the last file with that name. |
| GenerationViewFlow.PreparedReplacesStale | Packagify/GenerationViewFlow.swift:328-347 | When the previous export folder existed, only freshly written files remain under it. Every other regular file that was there before is unchanged. |
| GenerationViewFlow.PrepareSucceeds | Packagify/GenerationViewFlow.swift:324-350 | When no earlier export folder still exists, the same conditions make the whole preparation succeed. |
| GenerationViewFlow.PrepareAgainSucceeds | Packagify/GenerationViewFlow.swift:324-350 | Preparing again, after an export to the same package folder, succeeds when the folder's ancestors allow creation and nothing at or below it is locked: the old folder is removed and rebuilt. |
| GenerationViewFlow.ReviewPackageView.constructor | Packagify/GenerationViewFlow.swift:254-258 | The view starts with the given text and info and no export folder. |
| GenerationViewFlow.ReviewPackageView.EditManifest | Packagify/GenerationViewFlow.swift:297 | The editor replaces the text and touches neither the file system nor the export folder. |
| GenerationViewFlow.ReviewPackageView.PreparePackageFolder | Packagify/GenerationViewFlow.swift:324-350 | The file system goes through the steps of `Prepare` from the old state. The export folder becomes `<tmp>/<Name>` exactly when every step succeeded, and is unchanged after a throw. |

## Left out

- `getSwiftLanguageVersion` runs `/usr/bin/swift --version` and matches a regular expression over its output. That is process I/O; the tools version is an input here.
- The `swiftToolsVersion` observer, the `swiftToolsVersionTrimmed` value and every `Double(...)` conversion are left out, because they are floating-point parsing and numerics.
  - This includes `Double(filtered)` and the default numbers of `extractNumber`, and the tools-version text field, which parses with `extractNumber`.
  - Only the character filter (`NumberText`) and `trimToMajorMinor` are modelled.
- `CGFloat.description` is not computed: a version is its text.
  - The template interpolates the tools version `CGFloat?` the same way, so `ToolsVersionText` takes that text as given.
- The SwiftUI views are left out because they are presentation, not logic. This covers layout, animation, navigation, `CodeEditor`, `fileExporter`, `fileImporter`, `dropDestination`, `onOpenURL`, `NSWorkspace` and the `print` calls.
- `FolderDocument` and `FileWrapper` are a thin AppKit wrapper.
- The "Start with an Empty File" action is a temporary file write whose result goes through `handleDroppedFiles` like any drop.
- `[File].fileType()` is not used by the modelled code.
- `UUID` identity of `File` and `SwiftFile` is not modelled. Two Swift files are the same when their name and bytes agree, so a set of files cannot hold two equal copies.
- `@State` reactivity is not modelled. `onChange(of: selectedFiles)` is the method `SelectionChanged`. The mutators call it exactly when the set changed.
- `GenerationViewFlow.PackageInfoView.Generate`: the platform list is assembled in a local (`AssemblePlatforms`) and stored once. The source resets the field and appends to it in place; the intermediate states are not observable.
- Security-scoped access is reduced to one check: a URL in `unscoped` fails before anything else. The `stopAccessingSecurityScopedResource` call has no effect on the model.
- `ContentView.SwiftExtensionMeaning`: `lowercased()` is ASCII-only.
- `Storage.PathExtension`: `pathExtension` is the text after the last dot. It is empty when there is no dot or the only dot is the first character. Foundation's further rules (trailing slashes, invalid extensions) are not modelled.
- `Storage.AppendingPathComponent`: "/" splits the component and repeated slashes collapse. "." and ".." are kept as plain components, not resolved.
- `GenerationViewFlow.WriteAll`: a source file's name is appended as one path component, not through `AppendingPathComponent`. Names come from `lastPathComponent` of listed or dropped file URLs, and the last component of a file's path holds no "/".
- Strings are sequences of Unicode scalars, while Swift's `String` works on grapheme clusters. `filter` in `extractNumber` then sees a digit followed by a combining mark, e.g. "1\u{301}", as one character and drops it. `NumberText` keeps the "1".
- `Storage.IsHidden`: `.skipsHiddenFiles` also skips files that carry the file system's hidden flag. Here only a name starting with a dot is hidden.
- `GeneratePackage.TrimToMajorMinor`: its own contract gives only the shape of the result. `TrimKeepsMajorMinor` and `TrimKeepsSingle` state which pieces are kept and when the input comes back unchanged.
- `Storage.WriteFile`, `Storage.RemoveItem`, `Storage.CreateDirectory`: a failing call has no effect. Foundation may leave partial state, e.g. after a removal that fails half-way, and that is not modelled.
- `write(atomically: true)` is an ordinary write, since nothing here observes the temporary file.
- `GeneratePackage.ManifestLines`, `GeneratePackage.ManifestLineCount`, `GeneratePackage.ManifestHeadSites`, `GeneratePackage.ManifestPlatformSites` and `GeneratePackage.ManifestTailSites` assume that the name, the versions and the tools version hold no newline. A newline in them would split the lines differently. `CreatePackage` itself holds for every input.
- `GenerationViewFlow.AllSelectedByCount` assumes the shown files are distinct. With two equal files in `files`, `count ==` and "everything selected" can disagree.
