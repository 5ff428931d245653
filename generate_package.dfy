/** The manifest renderer of Packagify (Packagify/GeneratePackage.swift): one
    platform entry per supported platform, the whole `Package.swift` text, and
    the `major.minor` cut of a version. */
module GeneratePackage {
  import opened Wrappers
  import Strings
  import ContentView

  /** A `CGFloat` version, taken as its `description` text ("13.0", "10.05"). */
  type Version = string

  /** The `Platforms` enum. */
  datatype Platform =
    | IOS(version: Version)
    | MacOS(version: Version)
    | MacCatalyst(version: Version)
    | DriverKit(version: Version)
    | TvOS(version: Version)
    | VisionOS(version: Version)
    | WatchOS(version: Version)
  {
    /** What the platform's entry starts with: a dot, the SwiftPM platform name
        and `(.v`. */
    function Head(): string {
      match this
      case IOS(_) => ".iOS(.v"
      case MacOS(_) => ".macOS(.v"
      case MacCatalyst(_) => ".macCatalyst(.v"
      case DriverKit(_) => ".driverKit(.v"
      case TvOS(_) => ".tvOS(.v"
      case VisionOS(_) => ".visionOS(.v"
      case WatchOS(_) => ".watchOS(.v"
    }

    /** The position of the kind in the declaration order. */
    function Rank(): nat {
      match this
      case IOS(_) => 0
      case MacOS(_) => 1
      case MacCatalyst(_) => 2
      case DriverKit(_) => 3
      case TvOS(_) => 4
      case VisionOS(_) => 5
      case WatchOS(_) => 6
    }
  }

  /** The `PackageInfo` struct; an absent tools version renders as 6.0. */
  datatype PackageInfo = PackageInfo(
    name: string,
    files: seq<ContentView.SwiftFile>,
    supportedPlatforms: seq<Platform>,
    swiftToolsVersion: Option<Version>)

  /** The `swiftToolsVersion` a `PackageInfo` gets when the initializer is not given one. */
  const DefaultToolsVersion: Version := "6.0"

  // ---------------------------------------------------------------------------
  // trimToMajorMinor
  // ---------------------------------------------------------------------------

  /** `trimToMajorMinor(version:)`: the input, or two non-empty dot-free pieces
      joined by one dot. */
  function TrimToMajorMinor(version: string): (r: string)
    ensures r == version ||
      exists major, minor :: |major| > 0 && |minor| > 0 && '.' !in major && '.' !in minor &&
        r == major + "." + minor
  {
    var components := Strings.Split(version, '.');
    if |components| < 2 then version else components[0] + "." + components[1]
  }

  /** The first two runs of non-dot characters are kept, joined by one dot:
      leading dots are skipped, any run of dots separates the two, and whatever
      follows a further dot is dropped ("1..2" gives "1.2", "13.0.1" gives "13.0"). */
  lemma TrimKeepsMajorMinor(ds: string, major: string, dots: string, minor: string, rest: string)
    requires Strings.OnlySeparators(ds, '.') && Strings.OnlySeparators(dots, '.') && |dots| > 0
    requires |major| > 0 && |minor| > 0 && '.' !in major && '.' !in minor
    requires rest == "" || rest[0] == '.'
    ensures TrimToMajorMinor(ds + major + dots + minor + rest) == major + "." + minor
  {
    assert ds + major + dots + minor + rest == ds + (major + dots + (minor + rest));
    Strings.SplitSkipsSeparators(ds, major + dots + (minor + rest), '.');
    Strings.SplitLeadingRun(major, dots, minor + rest, '.');
    if rest == "" {
      assert minor + rest == minor;
      Strings.SplitSingle(minor, '.');
    } else {
      assert minor + rest == minor + ['.'] + rest[1..];
      Strings.SplitLeading(minor, rest[1..], '.');
    }
  }

  /** A version with at most one run of non-dot characters, surrounded by any
      dots, is returned as it is: "", "13", "13." and ".5" all stay. */
  lemma TrimKeepsSingle(ds: string, v: string, ds2: string)
    requires Strings.OnlySeparators(ds, '.') && Strings.OnlySeparators(ds2, '.') && '.' !in v
    ensures TrimToMajorMinor(ds + v + ds2) == ds + v + ds2
  {
    assert ds + v + ds2 == ds + (v + ds2);
    Strings.SplitSkipsSeparators(ds, v + ds2, '.');
    Strings.SplitTrailingRun(v, ds2, '.');
  }

  /** Trimming twice is trimming once. */
  lemma TrimIdempotent(version: string)
    ensures TrimToMajorMinor(TrimToMajorMinor(version)) == TrimToMajorMinor(version)
  {
    var c := Strings.Split(version, '.');
    if |c| >= 2 {
      Strings.SplitPair(c[0], c[1], '.');
    }
  }

  // ---------------------------------------------------------------------------
  // supportedPlatformString
  // ---------------------------------------------------------------------------

  /** `supportedPlatformString(for:)`: every occurrence of ".0" in the whole entry
      is deleted, except in the tvOS entry, which is left as it is. The deletion
      never touches the platform name or the brackets: an entry is
      `.<platform>(.v<version>)` with ".0" deleted from the version alone. */
  function SupportedPlatformString(platform: Platform): (r: string)
    ensures platform.TvOS? ==> r == platform.Head() + platform.version + ")"
    ensures !platform.TvOS? ==> r == platform.Head() + Strings.ReplaceAll(platform.version, ".0", "") + ")"
  {
    HeadFacts(platform);
    StripVersionOnly(platform.Head(), platform.version);
    var entry := platform.Head() + platform.version + ")";
    if platform.TvOS? then entry else Strings.ReplaceAll(entry, ".0", "")
  }

  /** Deleting ".0" from `<head><version>)`, where `head` ends in "v" and has no
      "0", deletes it from the version alone. */
  lemma StripVersionOnly(head: string, v: Version)
    requires |head| > 0 && head[|head| - 1] == 'v' && '0' !in head
    ensures Strings.ReplaceAll(head + v + ")", ".0", "") == head + Strings.ReplaceAll(v, ".0", "") + ")"
  {
    assert head + v + ")" == head + (v + ")");
    Strings.NoMatchAcrossPair(head, v + ")", ".0");
    Strings.ReplaceAllConcat(head, v + ")", ".0", "");
    Strings.ReplaceAllAbsent(head, ".0", "");
    assert (v + ")")[|v|] == ')';
    Strings.NoMatchAcrossPair(v, ")", ".0");
    Strings.ReplaceAllConcat(v, ")", ".0", "");
  }

  /** Each head ends in "v" and holds no "0". */
  lemma HeadFacts(platform: Platform)
    ensures var head := platform.Head(); |head| > 0 && head[|head| - 1] == 'v' && '0' !in head
  {
  }

  /** "13.0" loses its ".0". */
  lemma IOSEntryExample()
    ensures SupportedPlatformString(IOS("13.0")) == ".iOS(.v13)"
  {
    assert "13.0"[..2] != ".0" && "13.0"[1..] == "3.0";
    assert "3.0"[..2] != ".0" && "3.0"[1..] == ".0";
    assert ".0"[..2] == ".0" && ".0"[2..] == "";
  }

  /** "10.05" loses the ".0" in its middle, not just a trailing one. */
  lemma MacOSEntryExample()
    ensures SupportedPlatformString(MacOS("10.05")) == ".macOS(.v105)"
  {
    assert Strings.ReplaceAll("10.05", ".0", "") == "105" by {
      assert Strings.ReplaceAll("5", ".0", "") == "5";
      assert ".05"[..2] == ".0" && ".05"[2..] == "5";
      assert "0.05"[..2] != ".0" && "0.05"[1..] == ".05";
      assert "10.05"[..2] != ".0" && "10.05"[1..] == "0.05";
    }
    assert MacOS("10.05").Head() == ".macOS(.v";
  }

  /** An entry is on one line when its version is. */
  lemma PlatformEntryOneLine(platform: Platform)
    requires '\n' !in platform.version
    ensures '\n' !in SupportedPlatformString(platform)
  {
    var v := if platform.TvOS? then platform.version else Strings.ReplaceAll(platform.version, ".0", "");
    if !platform.TvOS? && '\n' in v {
      Strings.ReplaceAllChars(platform.version, ".0", "", '\n');
    }
    assert '\n' !in platform.Head();
    assert SupportedPlatformString(platform) == platform.Head() + v + ")";
  }

  // ---------------------------------------------------------------------------
  // createPackage
  // ---------------------------------------------------------------------------

  /** `name.replacingOccurrences(of: " ", with: "_")`: keeps the length, turns
      each space into "_" and changes nothing else, so no space remains. */
  function Normalize(name: string): (r: string)
    ensures |r| == |name|
    ensures forall i :: 0 <= i < |name| ==> r[i] == (if name[i] == ' ' then '_' else name[i])
    ensures ' ' !in r
  {
    Strings.ReplaceCharPointwise(name, ' ', '_');
    Strings.ReplaceAll(name, " ", "_")
  }

  /** Normalizing again changes nothing. */
  lemma NormalizeIdempotent(name: string)
    ensures Normalize(Normalize(name)) == Normalize(name)
  {
    Strings.ReplaceAllAbsent(Normalize(name), " ", "_");
  }

  /** The text after `// swift-tools-version: `: the tools version, or 6.0. */
  function ToolsVersionText(toolsVersion: Option<Version>): Version {
    toolsVersion.GetOr(DefaultToolsVersion)
  }

  /** The entries of a platform list, one per platform, in order. */
  function PlatformStrings(platforms: seq<Platform>): seq<string> {
    seq(|platforms|, i requires 0 <= i < |platforms| => SupportedPlatformString(platforms[i]))
  }

  /** The template lines above the platform entries (the four spaces before the
      closing delimiter are not part of the text). */
  function HeadLines(tools: Version, n: string): seq<string> {
    [ "// swift-tools-version: " + tools,
      "import PackageDescription",
      "",
      "let package = Package(",
      "    name: \"" + n + "\",",
      "    platforms: [" ]
  }

  /** The template lines below the platform entries. */
  function TailLines(n: string): seq<string> {
    [ "    ],",
      "    products: [",
      "        .library(",
      "            name: \"" + n + "\",",
      "            targets: [\"" + n + "\"]",
      "        ),",
      "    ],",
      "    dependencies: [],",
      "    targets: [",
      "        .target(",
      "            name: \"" + n + "\",",
      "            dependencies: [],",
      "            path: \"Sources/" + n + "\",",
      "            resources: []",
      "        )",
      "    ]",
      ")" ]
  }

  /** The manifest text `createPackage` returns: only the name, the platform list
      and the tools version enter it. It opens with the tools-version line, 6.0
      when none is set, and closes with `)` on a line of its own. */
  function Manifest(name: string, platforms: seq<Platform>, toolsVersion: Option<Version>): (r: string)
    ensures var first := "// swift-tools-version: " + (if toolsVersion.None? then "6.0" else toolsVersion.value) + "\n";
      |r| >= |first| && r[..|first|] == first
    ensures |r| >= 2 && r[|r| - 2..] == "\n)"
  {
    var n := Normalize(name);
    var block := "        " + Strings.Join(PlatformStrings(platforms), ",\n");
    var parts := HeadLines(ToolsVersionText(toolsVersion), n) + [block] + TailLines(n);
    assert parts[0] == "// swift-tools-version: " + ToolsVersionText(toolsVersion) && parts[|parts| - 1] == ")";
    Strings.JoinStarts(parts, "\n");
    Strings.JoinFinishes(parts, "\n");
    Strings.Join(parts, "\n")
  }

  /** `createPackage(from:)`. */
  method CreatePackage(packageInfo: PackageInfo) returns (package: string)
    ensures package == Manifest(packageInfo.name, packageInfo.supportedPlatforms, packageInfo.swiftToolsVersion)
  {
    var platforms := packageInfo.supportedPlatforms;
    var platformStrings: seq<string> := [];
    for i := 0 to |platforms|
      invariant |platformStrings| == i
      invariant forall j :: 0 <= j < i ==> platformStrings[j] == SupportedPlatformString(platforms[j])
    {
      platformStrings := platformStrings + [SupportedPlatformString(platforms[i])];
    }
    assert platformStrings == PlatformStrings(platforms);
    var finishedPlatformStrings := Strings.Join(platformStrings, ",\n");
    var n := Normalize(packageInfo.name);
    package := Strings.Join(
      HeadLines(ToolsVersionText(packageInfo.swiftToolsVersion), n) +
      ["        " + finishedPlatformStrings] +
      TailLines(n), "\n");
  }

  // ---------------------------------------------------------------------------
  // The manifest, line by line
  // ---------------------------------------------------------------------------

  /** The entries as the lines they end up on: each but the last followed by a comma. */
  function CommaTerminated(entries: seq<string>): (ls: seq<string>)
    ensures |ls| == |entries|
  {
    if |entries| <= 1 then entries else [entries[0] + ","] + CommaTerminated(entries[1..])
  }

  /** Joining one-line entries with ",\n" puts each on its own line and a comma
      after every one but the last; no entries give one empty line. */
  lemma {:induction false} LinesOfEntries(entries: seq<string>)
    requires forall i :: 0 <= i < |entries| ==> '\n' !in entries[i]
    ensures Strings.Lines(Strings.Join(entries, ",\n")) ==
      if |entries| == 0 then [""] else CommaTerminated(entries)
    decreases |entries|
  {
    if |entries| == 1 {
      Strings.LinesOfLine(entries[0]);
    } else if |entries| > 1 {
      var e := entries[0];
      var rest := Strings.Join(entries[1..], ",\n");
      assert Strings.Join(entries, ",\n") == (e + ",") + "\n" + rest;
      Strings.LinesConcat(e + ",", rest);
      Strings.LinesOfLine(e + ",");
      LinesOfEntries(entries[1..]);
    }
  }

  /** The lines of the platform block: eight spaces before the first entry (or
      alone when there is none), the later entries unindented. */
  function BlockLines(entries: seq<string>): seq<string> {
    var ls := if |entries| == 0 then [""] else CommaTerminated(entries);
    ["        " + ls[0]] + ls[1..]
  }

  /** No head line has a newline when the tools version and the name have none. */
  lemma HeadOneLine(tools: Version, n: string)
    requires '\n' !in tools && '\n' !in n
    ensures forall i :: 0 <= i < |HeadLines(tools, n)| ==> '\n' !in HeadLines(tools, n)[i]
  {
    assert '\n' !in "// swift-tools-version: " && '\n' !in "    name: \"" && '\n' !in "\",";
  }

  /** No tail line has a newline when the name has none. */
  lemma TailOneLine(n: string)
    requires '\n' !in n
    ensures forall i :: 0 <= i < |TailLines(n)| ==> '\n' !in TailLines(n)[i]
  {
    assert '\n' !in "            name: \"" && '\n' !in "\",";
    assert '\n' !in "            targets: [\"" && '\n' !in "\"]";
    assert '\n' !in "            path: \"Sources/";
  }

  /** Lines joined by newlines around one text that may hold several lines. */
  lemma LinesAround(head: seq<string>, block: string, tail: seq<string>)
    requires |head| > 0 && |tail| > 0
    requires forall i :: 0 <= i < |head| ==> '\n' !in head[i]
    requires forall i :: 0 <= i < |tail| ==> '\n' !in tail[i]
    ensures Strings.Lines(Strings.Join(head + [block] + tail, "\n")) == head + Strings.Lines(block) + tail
  {
    Strings.JoinAppend(head, [block], "\n");
    Strings.JoinAppend(head + [block], tail, "\n");
    assert Strings.Join([block], "\n") == block;
    var h, t := Strings.Join(head, "\n"), Strings.Join(tail, "\n");
    Strings.LinesConcat(h, block);
    Strings.LinesConcat(h + "\n" + block, t);
    Strings.LinesOfJoin(head);
    Strings.LinesOfJoin(tail);
  }

  /** The manifest is the six head lines, the platform block and the seventeen tail
      lines, when the name, the tools version and the versions have no newline. */
  lemma ManifestLines(name: string, platforms: seq<Platform>, toolsVersion: Option<Version>)
    requires '\n' !in name && '\n' !in ToolsVersionText(toolsVersion)
    requires forall i :: 0 <= i < |platforms| ==> '\n' !in platforms[i].version
    ensures var n := Normalize(name);
      Strings.Lines(Manifest(name, platforms, toolsVersion)) ==
        HeadLines(ToolsVersionText(toolsVersion), n) + BlockLines(PlatformStrings(platforms)) + TailLines(n)
  {
    var n, tools := Normalize(name), ToolsVersionText(toolsVersion);
    assert '\n' !in n;
    var entries := PlatformStrings(platforms);
    forall i | 0 <= i < |entries| ensures '\n' !in entries[i] {
      PlatformEntryOneLine(platforms[i]);
    }
    var joined := Strings.Join(entries, ",\n");
    HeadOneLine(tools, n);
    TailOneLine(n);
    LinesAround(HeadLines(tools, n), "        " + joined, TailLines(n));
    Strings.LinesPrefix("        ", joined);
    LinesOfEntries(entries);
  }

  /** The manifest has 23 lines besides the platform block, which has one line per
      platform, or a single line when there is none. */
  lemma ManifestLineCount(name: string, platforms: seq<Platform>, toolsVersion: Option<Version>)
    requires '\n' !in name && '\n' !in ToolsVersionText(toolsVersion)
    requires forall i :: 0 <= i < |platforms| ==> '\n' !in platforms[i].version
    ensures |Strings.Lines(Manifest(name, platforms, toolsVersion))| == 23 + (if |platforms| == 0 then 1 else |platforms|)
  {
    ManifestLines(name, platforms, toolsVersion);
  }

  /** The first line names the tools version, 6.0 when none is set, and the fifth
      the normalized package name. */
  lemma ManifestHeadSites(name: string, platforms: seq<Platform>, toolsVersion: Option<Version>)
    requires '\n' !in name && '\n' !in ToolsVersionText(toolsVersion)
    requires forall i :: 0 <= i < |platforms| ==> '\n' !in platforms[i].version
    ensures var ls := Strings.Lines(Manifest(name, platforms, toolsVersion));
      |ls| > 6 &&
      ls[0] == "// swift-tools-version: " + (if toolsVersion.None? then "6.0" else toolsVersion.value) &&
      ls[4] == "    name: \"" + Normalize(name) + "\"," &&
      ls[5] == "    platforms: ["
  {
    ManifestLines(name, platforms, toolsVersion);
  }

  /** The platform block has one line per platform, in order, the first indented
      by eight spaces; with no platform it is eight spaces alone. */
  lemma ManifestPlatformSites(name: string, platforms: seq<Platform>, toolsVersion: Option<Version>)
    requires '\n' !in name && '\n' !in ToolsVersionText(toolsVersion)
    requires forall i :: 0 <= i < |platforms| ==> '\n' !in platforms[i].version
    ensures var ls := Strings.Lines(Manifest(name, platforms, toolsVersion));
      |ls| > 6 + |platforms| &&
      (|platforms| == 0 ==> ls[6] == "        ") &&
      (|platforms| > 0 ==> ls[6] == "        " + CommaTerminated(PlatformStrings(platforms))[0]) &&
      forall i :: 0 < i < |platforms| ==> ls[6 + i] == CommaTerminated(PlatformStrings(platforms))[i]
  {
    ManifestLines(name, platforms, toolsVersion);
    var n := Normalize(name);
    var head, block := HeadLines(ToolsVersionText(toolsVersion), n), BlockLines(PlatformStrings(platforms));
    var ls := Strings.Lines(Manifest(name, platforms, toolsVersion));
    assert ls == head + block + TailLines(n) && |head| == 6;
    forall i | 0 <= i < |block| ensures ls[6 + i] == block[i] {
    }
  }

  /** Below the block, the normalized name is the library name, the target the
      library exports, the target name and the directory under Sources, and
      `dependencies` and `resources` are always empty. */
  lemma ManifestTailSites(name: string, platforms: seq<Platform>, toolsVersion: Option<Version>)
    requires '\n' !in name && '\n' !in ToolsVersionText(toolsVersion)
    requires forall i :: 0 <= i < |platforms| ==> '\n' !in platforms[i].version
    ensures var ls, n := Strings.Lines(Manifest(name, platforms, toolsVersion)), Normalize(name);
      var k := if |platforms| == 0 then 1 else |platforms|;
      |ls| == 23 + k &&
      ls[6 + k] == "    ]," &&
      ls[9 + k] == "            name: \"" + n + "\"," &&
      ls[10 + k] == "            targets: [\"" + n + "\"]" &&
      ls[13 + k] == "    dependencies: []," &&
      ls[16 + k] == "            name: \"" + n + "\"," &&
      ls[17 + k] == "            dependencies: []," &&
      ls[18 + k] == "            path: \"Sources/" + n + "\"," &&
      ls[19 + k] == "            resources: []"
  {
    ManifestLines(name, platforms, toolsVersion);
    var n, entries := Normalize(name), PlatformStrings(platforms);
    var pre := HeadLines(ToolsVersionText(toolsVersion), n) + BlockLines(entries);
    assert |BlockLines(entries)| == if |platforms| == 0 then 1 else |platforms|;
    TailAt(pre, n);
  }

  /** Where the name and the empty lists sit in the lines below the block. */
  lemma TailAt(pre: seq<string>, n: string)
    ensures var ls, k := pre + TailLines(n), |pre|;
      |ls| == k + 17 &&
      ls[k] == "    ]," &&
      ls[k + 3] == "            name: \"" + n + "\"," &&
      ls[k + 4] == "            targets: [\"" + n + "\"]" &&
      ls[k + 7] == "    dependencies: []," &&
      ls[k + 10] == "            name: \"" + n + "\"," &&
      ls[k + 11] == "            dependencies: []," &&
      ls[k + 12] == "            path: \"Sources/" + n + "\"," &&
      ls[k + 13] == "            resources: []"
  {
  }

  /** Each platform's line holds its entry, with a comma unless it is the last. */
  lemma {:induction false} CommaTerminatedAt(entries: seq<string>, i: nat)
    requires i < |entries|
    ensures CommaTerminated(entries)[i] == entries[i] + (if i < |entries| - 1 then "," else "")
    decreases |entries|
  {
    if |entries| == 1 {
      assert entries[0] + "" == entries[0];
    } else if i > 0 {
      CommaTerminatedAt(entries[1..], i - 1);
    }
  }
}
