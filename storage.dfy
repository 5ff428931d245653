/** An abstract stand-in for Foundation's `FileManager`, `URL`, `Data(contentsOf:)`
    and `write(to:)`: a file system is a map from paths to directories and regular
    files, together with the places where an operation fails. */
module Storage {
  import opened Wrappers
  import Strings

  type byte = x: int | 0 <= x < 256
  type Bytes = seq<byte>

  /** A file URL, as the sequence of its path components; `[]` is the root. */
  type Path = seq<string>

  /** A directory lists the names of its entries in enumeration order. */
  datatype Node = Directory(names: seq<string>) | Regular(data: Bytes)

  /** `locked` holds the paths on which every read, listing, write or removal
      fails; `unscoped` the URLs for which starting security-scoped access fails. */
  datatype FileSystem = FileSystem(nodes: map<Path, Node>, locked: set<Path>, unscoped: set<Path>)

  /** What a failing call throws. */
  datatype FileError = UnableToAccessFile(reason: string) | OperationFailed(path: Path)

  // ---------------------------------------------------------------------------
  // URL components
  // ---------------------------------------------------------------------------

  function Parent(p: Path): Path
    requires |p| > 0
  {
    p[..|p| - 1]
  }

  /** `url.lastPathComponent`; the root's is "/". */
  function LastPathComponent(p: Path): string {
    if |p| == 0 then "/" else p[|p| - 1]
  }

  /** `url.appendingPathComponent(component)`: every non-empty piece of
      `component` between slashes becomes one more component, so that "" leaves
      `url` as it is and "A/B" descends two levels. */
  function AppendingPathComponent(url: Path, component: string): (r: Path)
    ensures component == "" ==> r == url
    ensures |component| > 0 && '/' !in component ==> r == url + [component]
    ensures |r| >= |url| && r[..|url|] == url
  {
    var pieces := Strings.Split(component, '/');
    assert |component| > 0 && '/' !in component ==> pieces == [component] by {
      if |component| > 0 && '/' !in component { Strings.SplitSingle(component, '/'); }
    }
    url + pieces
  }

  /** Position of the last `c` in `s`, or -1. */
  function LastIndexOf(s: string, c: char): (k: int)
    ensures -1 <= k < |s|
  {
    if |s| == 0 then -1
    else if s[|s| - 1] == c then |s| - 1
    else LastIndexOf(s[..|s| - 1], c)
  }

  lemma {:induction false} LastIndexOfFacts(s: string, c: char)
    ensures var k := LastIndexOf(s, c);
      (k >= 0 ==> s[k] == c) && forall j :: k < j < |s| ==> s[j] != c
    decreases |s|
  {
    if |s| > 0 && s[|s| - 1] != c {
      LastIndexOfFacts(s[..|s| - 1], c);
    }
  }

  /** `url.pathExtension` of an entry name: the text after its last dot, and empty
      when there is no dot or the only dot is the leading one of a hidden name. */
  function PathExtension(name: string): string {
    var k := LastIndexOf(name, '.');
    if k <= 0 then "" else name[k + 1..]
  }

  /** Entries that `.skipsHiddenFiles` leaves out: names starting with a dot. */
  predicate IsHidden(name: string) {
    |name| > 0 && name[0] == '.'
  }

  // ---------------------------------------------------------------------------
  // Queries
  // ---------------------------------------------------------------------------

  /** `fileExists(atPath:)`: a file or a directory is there. */
  predicate FileExists(fs: FileSystem, p: Path) {
    |p| == 0 || p in fs.nodes
  }

  /** `fileExists(atPath:isDirectory:)` answering true with isDirectory true; the
      root always is a directory. */
  predicate IsDirectory(fs: FileSystem, p: Path) {
    |p| == 0 || (p in fs.nodes && fs.nodes[p].Directory?)
  }

  /** `Data(contentsOf:)`. */
  function ReadData(fs: FileSystem, p: Path): (r: Result<Bytes, FileError>)
    ensures r.Success? <==> p in fs.nodes && fs.nodes[p].Regular? && p !in fs.locked
    ensures r.Success? ==> r.value == fs.nodes[p].data
  {
    if p in fs.nodes && fs.nodes[p].Regular? && p !in fs.locked then Success(fs.nodes[p].data)
    else Failure(OperationFailed(p))
  }

  /** The URLs of the entries under `dir` whose names are not hidden, in order. */
  function VisibleEntries(dir: Path, names: seq<string>): (urls: seq<Path>)
    ensures forall u :: u in urls ==> |u| == |dir| + 1 && u[..|dir|] == dir && !IsHidden(u[|dir|])
  {
    if |names| == 0 then []
    else (if IsHidden(names[0]) then [] else [dir + [names[0]]]) + VisibleEntries(dir, names[1..])
  }

  /** The URLs of all the entries under `dir`, in order. */
  function Children(dir: Path, names: seq<string>): (urls: seq<Path>)
    ensures |urls| == |names|
  {
    if |names| == 0 then [] else [dir + [names[0]]] + Children(dir, names[1..])
  }

  /** The listing keeps the children in their order. */
  lemma {:induction false} VisibleEntriesOrdered(dir: Path, names: seq<string>)
    ensures Strings.IsSubsequence(VisibleEntries(dir, names), Children(dir, names))
    decreases |names|
  {
    if |names| > 0 {
      VisibleEntriesOrdered(dir, names[1..]);
      var rest := VisibleEntries(dir, names[1..]);
      var c := dir + [names[0]];
      assert Children(dir, names) == [c] + Children(dir, names[1..]);
      assert Children(dir, names)[1..] == Children(dir, names[1..]);
      if IsHidden(names[0]) {
        assert VisibleEntries(dir, names) == rest;
        if |rest| > 0 {
          assert rest[0] in rest;
          assert rest[0] != c by { assert c[|dir|] == names[0]; }
        }
      } else {
        assert VisibleEntries(dir, names) == [c] + rest;
        assert ([c] + rest)[1..] == rest;
      }
    }
  }

  /** The listing holds each visible name as often as the directory does. */
  lemma {:induction false} VisibleEntriesCounted(dir: Path, names: seq<string>)
    ensures forall n :: !IsHidden(n) ==> multiset(VisibleEntries(dir, names))[dir + [n]] == multiset(names)[n]
    decreases |names|
  {
    if |names| > 0 {
      VisibleEntriesCounted(dir, names[1..]);
      assert names == [names[0]] + names[1..];
      forall n | !IsHidden(n)
        ensures multiset(VisibleEntries(dir, names))[dir + [n]] == multiset(names)[n]
      {
        if dir + [n] == dir + [names[0]] {
          assert (dir + [n])[|dir|] == (dir + [names[0]])[|dir|];
        }
      }
    }
  }

  /** `contentsOfDirectory(at:includingPropertiesForKeys:options: [.skipsHiddenFiles])`. */
  function ContentsOfDirectory(fs: FileSystem, dir: Path): Result<seq<Path>, FileError> {
    if dir in fs.nodes && fs.nodes[dir].Directory? && dir !in fs.locked then
      Success(VisibleEntries(dir, fs.nodes[dir].names))
    else Failure(OperationFailed(dir))
  }

  /** Listing succeeds exactly on an unlocked directory, and then holds exactly
      the URLs of its entries whose names are not hidden. */
  lemma ContentsOfDirectoryMeaning(fs: FileSystem, dir: Path)
    ensures ContentsOfDirectory(fs, dir).Success? <==> dir in fs.nodes && fs.nodes[dir].Directory? && dir !in fs.locked
    ensures ContentsOfDirectory(fs, dir).Success? ==> forall u :: u in ContentsOfDirectory(fs, dir).value <==>
      exists n :: n in fs.nodes[dir].names && !IsHidden(n) && u == dir + [n]
  {
    if dir in fs.nodes && fs.nodes[dir].Directory? && dir !in fs.locked {
      VisibleEntriesMembers(dir, fs.nodes[dir].names);
    }
  }

  /** The listing holds exactly the URLs of the visible names. */
  lemma {:induction false} VisibleEntriesMembers(dir: Path, names: seq<string>)
    ensures forall u :: u in VisibleEntries(dir, names) <==> exists n :: n in names && !IsHidden(n) && u == dir + [n]
    decreases |names|
  {
    if |names| > 0 {
      VisibleEntriesMembers(dir, names[1..]);
      var rest := VisibleEntries(dir, names[1..]);
      assert forall n :: n in names <==> n == names[0] || n in names[1..];
      if IsHidden(names[0]) {
        assert VisibleEntries(dir, names) == rest;
        forall u | exists n :: n in names && !IsHidden(n) && u == dir + [n]
          ensures u in rest
        {
          var n :| n in names && !IsHidden(n) && u == dir + [n];
          assert n in names[1..];
        }
      } else {
        assert VisibleEntries(dir, names) == [dir + [names[0]]] + rest;
      }
    }
  }

  // ---------------------------------------------------------------------------
  // Updates and what they leave alone
  // ---------------------------------------------------------------------------

  /** Every regular file is still there with the same bytes. */
  ghost predicate FilesKept(a: FileSystem, b: FileSystem) {
    forall q :: q in a.nodes && a.nodes[q].Regular? ==> q in b.nodes && b.nodes[q] == a.nodes[q]
  }

  /** Every regular file other than `p` is still there with the same bytes. */
  ghost predicate FilesKeptExcept(a: FileSystem, b: FileSystem, p: Path) {
    forall q :: q in a.nodes && a.nodes[q].Regular? && q != p ==> q in b.nodes && b.nodes[q] == a.nodes[q]
  }

  /** Every regular file outside the tree rooted at `root` is still there. */
  ghost predicate FilesKeptOutside(a: FileSystem, b: FileSystem, root: Path) {
    forall q :: q in a.nodes && a.nodes[q].Regular? && !(root <= q) ==> q in b.nodes && b.nodes[q] == a.nodes[q]
  }

  /** Every regular file of `b` outside `added` was already in `a` with the same bytes. */
  ghost predicate FilesFrom(a: FileSystem, b: FileSystem, added: set<Path>) {
    forall q :: q in b.nodes && b.nodes[q].Regular? && q !in added ==> q in a.nodes && a.nodes[q] == b.nodes[q]
  }

  /** Every directory is still a directory. */
  ghost predicate DirectoriesKept(a: FileSystem, b: FileSystem) {
    forall q :: q in a.nodes && a.nodes[q].Directory? ==> q in b.nodes && b.nodes[q].Directory?
  }

  /** Nothing lies below `root` and nothing below it is locked. */
  ghost predicate FreeBelow(fs: FileSystem, root: Path) {
    (forall q :: q in fs.nodes ==> !(root < q)) && (forall q :: q in fs.locked ==> !(root < q))
  }

  /** Every directory of `b` was already a directory in `a`. */
  ghost predicate NoNewDirectories(a: FileSystem, b: FileSystem) {
    forall q :: q in b.nodes && b.nodes[q].Directory? ==> q in a.nodes && a.nodes[q].Directory?
  }

  /** The failure sets do not change. */
  predicate SameEnvironment(a: FileSystem, b: FileSystem) {
    a.locked == b.locked && a.unscoped == b.unscoped
  }

  /** Records `p` among its parent directory's entries. */
  function Attach(nodes: map<Path, Node>, p: Path): (r: map<Path, Node>)
    ensures r.Keys == nodes.Keys
    ensures forall q :: q in nodes && (|p| == 0 || q != Parent(p)) ==> r[q] == nodes[q]
    ensures forall q :: q in nodes && nodes[q].Directory? ==> r[q].Directory?
  {
    if |p| > 0 && Parent(p) in nodes && nodes[Parent(p)].Directory?
       && p[|p| - 1] !in nodes[Parent(p)].names
    then nodes[Parent(p) := Directory(nodes[Parent(p)].names + [p[|p| - 1]])]
    else nodes
  }

  /** The entry names of a directory without `name`. */
  function RemoveName(names: seq<string>, name: string): (r: seq<string>)
    ensures name !in r
  {
    if |names| == 0 then []
    else (if names[0] == name then [] else [names[0]]) + RemoveName(names[1..], name)
  }

  /** Drops `p` from its parent directory's entries. */
  function Detach(nodes: map<Path, Node>, p: Path): (r: map<Path, Node>)
    ensures r.Keys == nodes.Keys
    ensures forall q :: q in nodes && (|p| == 0 || q != Parent(p)) ==> r[q] == nodes[q]
    ensures forall q :: q in nodes && nodes[q].Directory? ==> r[q].Directory?
  {
    if |p| > 0 && Parent(p) in nodes && nodes[Parent(p)].Directory?
    then nodes[Parent(p) := Directory(RemoveName(nodes[Parent(p)].names, p[|p| - 1]))]
    else nodes
  }

  /** `removeItem(at:)`: removes `p` and everything below it. The removal is
      recursive, so it fails when `p` or any path below it is locked. */
  function RemoveItem(fs: FileSystem, p: Path): (r: Result<FileSystem, FileError>)
    ensures r.Success? <==> p in fs.nodes && forall q :: q in fs.locked ==> !(p <= q)
    ensures r.Success? ==> forall q :: q in r.value.nodes <==> q in fs.nodes && !(p <= q)
    ensures r.Success? ==> FilesKeptOutside(fs, r.value, p) && SameEnvironment(fs, r.value)
    ensures r.Success? ==> FilesFrom(fs, r.value, {})
  {
    if p in fs.nodes && forall q :: q in fs.locked ==> !(p <= q) then
      var kept := map q | q in fs.nodes && !(p <= q) :: fs.nodes[q];
      Success(fs.(nodes := Detach(kept, p)))
    else Failure(OperationFailed(p))
  }

  /** `createDirectory(at:withIntermediateDirectories: true)`: creates `p` and
      every missing ancestor; an existing directory is fine, a file in the way
      or a locked path makes it fail. */
  function CreateDirectory(fs: FileSystem, p: Path): (r: Result<FileSystem, FileError>)
    ensures r.Success? ==> IsDirectory(r.value, p)
    ensures r.Success? ==> forall i :: 0 <= i <= |p| ==> IsDirectory(r.value, p[..i])
    ensures r.Success? ==> FilesKept(fs, r.value) && DirectoriesKept(fs, r.value)
    ensures r.Success? ==> SameEnvironment(fs, r.value)
    ensures r.Success? ==> forall q :: q in r.value.nodes && q !in fs.nodes ==> r.value.nodes[q].Directory?
    ensures r.Success? ==> FilesFrom(fs, r.value, {})
    decreases |p|
  {
    if |p| == 0 then Success(fs)
    else
      match CreateDirectory(fs, Parent(p))
      case Failure(e) => Failure(e)
      case Success(mid) =>
        assert forall i :: 0 <= i < |p| ==> Parent(p)[..i] == p[..i];
        assert p[..|p|] == p;
        if p in mid.nodes then
          if mid.nodes[p].Directory? then Success(mid) else Failure(OperationFailed(p))
        else if p in mid.locked then Failure(OperationFailed(p))
        else Success(mid.(nodes := Attach(mid.nodes[p := Directory([])], p)))
  }

  /** Every non-empty prefix of `p` is a directory already, or is missing and not
      locked. */
  predicate CanCreate(fs: FileSystem, p: Path) {
    forall i :: 0 < i <= |p| ==>
      if p[..i] in fs.nodes then fs.nodes[p[..i]].Directory? else p[..i] !in fs.locked
  }

  /** Creating `p` succeeds exactly when nothing in the way is a file or locked. */
  lemma {:induction false} CreateDirectorySucceeds(fs: FileSystem, p: Path)
    ensures CreateDirectory(fs, p).Success? <==> CanCreate(fs, p)
    decreases |p|
  {
    if |p| > 0 {
      var pp := Parent(p);
      CreateDirectorySucceeds(fs, pp);
      assert forall i :: 0 < i < |p| ==> p[..i] == pp[..i];
      assert p[..|p|] == p;
      if CreateDirectory(fs, pp).Success? {
        KeyPreserved(fs, CreateDirectory(fs, pp).value, pp, p);
      }
    }
  }

  /** The only paths creating `p` adds are prefixes of `p`. */
  lemma {:induction false} CreateDirectoryAdds(fs: FileSystem, p: Path)
    ensures CreateDirectory(fs, p).Success? ==>
      forall q :: q in CreateDirectory(fs, p).value.nodes && q !in fs.nodes ==> q <= p
    decreases |p|
  {
    if |p| > 0 {
      CreateDirectoryAdds(fs, Parent(p));
      assert Parent(p) <= p;
    }
  }

  /** Creating a path that is already a directory, with every ancestor one too,
      changes nothing. */
  lemma {:induction false} CreateExistingDirectory(fs: FileSystem, p: Path)
    requires forall i :: 0 <= i <= |p| ==> IsDirectory(fs, p[..i])
    ensures CreateDirectory(fs, p) == Success(fs)
    decreases |p|
  {
    if |p| > 0 {
      assert forall i :: 0 <= i <= |p| - 1 ==> Parent(p)[..i] == p[..i];
      CreateExistingDirectory(fs, Parent(p));
      assert p[..|p|] == p;
    }
  }

  /** Creating a path with nothing below it succeeds when it can, makes it and its
      ancestors directories, and leaves nothing below it. */
  lemma CreatedFreeBelow(fs: FileSystem, p: Path) returns (out: FileSystem)
    requires CanCreate(fs, p) && FreeBelow(fs, p)
    ensures CreateDirectory(fs, p) == Success(out)
    ensures FreeBelow(out, p) && forall i :: 0 <= i <= |p| ==> IsDirectory(out, p[..i])
  {
    CreateDirectorySucceeds(fs, p);
    CreateDirectoryAdds(fs, p);
    out := CreateDirectory(fs, p).value;
  }

  /** `p`, longer than `pp`, is in the tree after creating `pp` exactly when it
      was before, as the same kind of node. */
  lemma KeyPreserved(fs: FileSystem, mid: FileSystem, pp: Path, p: Path)
    requires CreateDirectory(fs, pp) == Success(mid) && |p| > |pp|
    ensures p in mid.nodes <==> p in fs.nodes
    ensures p in fs.nodes ==> (mid.nodes[p].Directory? <==> fs.nodes[p].Directory?)
    ensures mid.locked == fs.locked
  {
    CreateDirectoryAdds(fs, pp);
  }

  /** `write(to:)`: creates or replaces the regular file `p`, whose parent must be
      a directory. */
  function WriteFile(fs: FileSystem, p: Path, data: Bytes): (r: Result<FileSystem, FileError>)
    ensures r.Success? <==>
      |p| > 0 && p !in fs.locked && IsDirectory(fs, Parent(p)) && !(p in fs.nodes && fs.nodes[p].Directory?)
    ensures r.Success? ==> p in r.value.nodes && r.value.nodes[p] == Regular(data)
    ensures r.Success? ==> FilesKeptExcept(fs, r.value, p) && DirectoriesKept(fs, r.value)
    ensures r.Success? ==> SameEnvironment(fs, r.value)
    ensures r.Success? ==> forall q :: q in r.value.nodes <==> q in fs.nodes || q == p
    ensures r.Success? ==> FilesFrom(fs, r.value, {p})
  {
    if |p| > 0 && p !in fs.locked && IsDirectory(fs, Parent(p)) && !(p in fs.nodes && fs.nodes[p].Directory?)
    then Success(fs.(nodes := Attach(fs.nodes[p := Regular(data)], p)))
    else Failure(OperationFailed(p))
  }
  /** Writing a file creates no directory. */
  lemma WriteFileNoNewDirectories(fs: FileSystem, p: Path, data: Bytes)
    ensures WriteFile(fs, p, data).Success? ==> NoNewDirectories(fs, WriteFile(fs, p, data).value)
  {
  }


  // ---------------------------------------------------------------------------
  // Text as bytes
  // ---------------------------------------------------------------------------

  /** The UTF-8 encoding of one Unicode scalar value. */
  function EncodeChar(c: char): (bs: Bytes)
    ensures 1 <= |bs| <= 4
    ensures (c as int < 0x80) <==> bs == [c as int]
  {
    var n := c as int;
    if n < 0x80 then [n]
    else if n < 0x800 then [0xC0 + n / 0x40, 0x80 + n % 0x40]
    else if n < 0x1_0000 then [0xE0 + n / 0x1000, 0x80 + (n / 0x40) % 0x40, 0x80 + n % 0x40]
    else [0xF0 + n / 0x4_0000, 0x80 + (n / 0x1000) % 0x40, 0x80 + (n / 0x40) % 0x40, 0x80 + n % 0x40]
  }

  /** `s.data(using: .utf8)`, as `String.write(to:atomically:encoding: .utf8)` stores it. */
  function Utf8(s: string): Bytes {
    if |s| == 0 then [] else EncodeChar(s[0]) + Utf8(s[1..])
  }
}
