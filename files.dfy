/** The local file system the service works on, as a value: the files under each directory,
    the directories that exist, the files that cannot be removed or written (permission
    errors), and the directories whose existence cannot even be checked (a parent that may not
    be searched makes `exists()` raise). */
module Files {
  import opened Wrappers
  import opened Text
  import opened Exceptions
  import opened Json

  /** A file path: a directory and a file name in it. `NoPath` is `Path("")`, which prints as ".". */
  datatype Path = Path(dir: string, name: string) | NoPath {
    function Str(): string {
      if NoPath? then "." else dir + "/" + name
    }

    /** `path.name`. */
    function Name(): string {
      if NoPath? then "" else name
    }
  }

  /** A dump written by pg_dump is opaque bytes; a metadata sidecar holds a JSON document. */
  datatype FileContent = Blob(bytes: seq<bv8>) | Document(doc: Value)

  /** `stat().st_size`. The encoded length of a JSON document is not modelled and counts as 0. */
  function SizeOf(c: FileContent): nat {
    match c
    case Blob(bytes) => |bytes|
    case Document(_) => 0
  }

  datatype Fs = Fs(
    files: map<Path, FileContent>,
    dirs: set<string>,
    locked: set<Path>,
    unsearchable: set<string>)

  function NotFound(p: Path): Error {
    OSError("[Errno 2] No such file or directory: '" + p.Str() + "'")
  }

  function PermissionDenied(p: Path): Error {
    OSError("[Errno 13] Permission denied: '" + p.Str() + "'")
  }

  /** `mkdir(parents=True, exist_ok=True)`: only the directory set grows. */
  function Mkdir(fs: Fs, dir: string): (r: Result<Fs, Error>)
    ensures r.Ok? <==> dir !in fs.unsearchable
    ensures r.Ok? ==> r.value == fs.(dirs := fs.dirs + {dir})
  {
    if dir in fs.unsearchable then Err(OSError("[Errno 13] Permission denied: '" + dir + "'"))
    else Ok(fs.(dirs := fs.dirs + {dir}))
  }

  /** `path.unlink()`: the file disappears and nothing else changes, or an OSError is raised. */
  function Unlink(fs: Fs, p: Path): (r: Result<Fs, Error>)
    ensures r.Ok? <==> p in fs.files && p !in fs.locked
    ensures r.Ok? ==> r.value == fs.(files := fs.files - {p})
    ensures r.Err? ==> r.error.OSError?
  {
    if p !in fs.files then Err(NotFound(p))
    else if p in fs.locked then Err(PermissionDenied(p))
    else Ok(fs.(files := fs.files - {p}))
  }

  /** `open(path, "w")` and a write: the directory must exist and the file must be writable. */
  function WriteFile(fs: Fs, p: Path, c: FileContent): (r: Result<Fs, Error>)
    ensures r.Ok? <==> p.Path? && p.dir in fs.dirs && p !in fs.locked
    ensures r.Ok? ==> r.value == fs.(files := fs.files[p := c])
  {
    if p.NoPath? then Err(OSError("[Errno 21] Is a directory: '.'"))
    else if p.dir !in fs.dirs then Err(NotFound(p))
    else if p in fs.locked then Err(PermissionDenied(p))
    else Ok(fs.(files := fs.files[p := c]))
  }

  /** `open(path)` and a read. */
  function ReadFile(fs: Fs, p: Path): (r: Result<FileContent, Error>)
    ensures r.Ok? <==> p in fs.files
    ensures r.Ok? ==> r.value == fs.files[p]
  {
    if p in fs.files then Ok(fs.files[p]) else Err(NotFound(p))
  }

  /** The names `*.dump` matches in a directory. */
  function DumpNames(fs: Fs, dir: string): set<string> {
    set p <- fs.files.Keys | p.Path? && p.dir == dir && EndsWith(p.name, ".dump") :: p.name
  }

  /** `directory.exists()`. */
  function DirExists(fs: Fs, dir: string): (r: Result<bool, Error>)
    ensures r.Ok? <==> dir !in fs.unsearchable
    ensures r.Ok? ==> r.value == (dir in fs.dirs)
  {
    if dir in fs.unsearchable then Err(OSError("[Errno 13] Permission denied: '" + dir + "'"))
    else Ok(dir in fs.dirs)
  }

  /** `path.exists()` for a file path: a directory that may not be searched makes it raise, and
      `NoPath` (".") is the current directory, which exists. */
  function FileExists(fs: Fs, p: Path): (r: Result<bool, Error>)
    ensures r.Ok? <==> p.NoPath? || p.dir !in fs.unsearchable
    ensures r.Ok? && p.Path? ==> r.value == (p in fs.files)
  {
    if p.NoPath? then Ok(true)
    else if p.dir in fs.unsearchable then Err(OSError("[Errno 13] Permission denied: '" + p.Str() + "'"))
    else Ok(p in fs.files)
  }

  /** `sorted(directory.glob("*.dump"))`, as names: paths in one directory sort by name. */
  function SortedDumps(fs: Fs, dir: string): (r: seq<string>)
    ensures StrictlySorted(r)
    ensures forall n :: n in r <==> Path(dir, n) in fs.files && EndsWith(n, ".dump")
    ensures |r| == |DumpNames(fs, dir)|
  {
    var names := DumpNames(fs, dir);
    assert forall n :: n in names <==> Path(dir, n) in fs.files && EndsWith(n, ".dump") by {
      forall n | Path(dir, n) in fs.files && EndsWith(n, ".dump") ensures n in names {
        var p := Path(dir, n);
        assert p in fs.files.Keys;
      }
    }
    SortedSet(names)
  }

  // ---------------------------------------------------------------------------
  // pathlib's suffixes
  // ---------------------------------------------------------------------------

  /** `s.rfind(c)`: the last position of `c`. */
  function LastIndexOf(s: string, c: char): (r: Option<nat>)
    ensures r.Some? ==> r.value < |s| && s[r.value] == c && forall j :: r.value < j < |s| ==> s[j] != c
    ensures r.None? <==> c !in s
  {
    if |s| == 0 then None
    else if s[|s| - 1] == c then Some(|s| - 1)
    else
      var r := LastIndexOf(s[..|s| - 1], c);
      assert forall j :: 0 <= j < |s| - 1 ==> s[..|s| - 1][j] == s[j];
      r
  }

  /** `PurePath(name).with_suffix(suffix)`: the last suffix (a final `.part` that neither starts
      the name nor is empty) is replaced, or `suffix` is appended when there is none. */
  function WithSuffix(name: string, suffix: string): (r: string)
    requires name != ""
    ensures EndsWith(r, suffix)
  {
    var stemLength :=
      match LastIndexOf(name, '.')
      case Some(i) => if 0 < i < |name| - 1 then i else |name|
      case None => |name|;
    var r := name[..stemLength] + suffix;
    assert r[|r| - |suffix|..] == suffix;
    r
  }

  /** The sidecar of `<stem>.dump` is `<stem>.json`, whatever dots the stem holds. */
  lemma SidecarName(stem: string)
    requires stem != ""
    ensures WithSuffix(stem + ".dump", ".json") == stem + ".json"
  {
    var name := stem + ".dump";
    var r := LastIndexOf(name, '.');
    assert name[|stem|] == '.';
    assert r.Some? && r.value == |stem| by {
      assert '.' in name;
    }
    assert name[..|stem|] == stem;
  }

  /** The sidecar path of a dump path. */
  function Sidecar(p: Path): (r: Path)
    requires p.Path? && p.name != ""
    ensures r.Path? && r.dir == p.dir && EndsWith(r.name, ".json")
  {
    Path(p.dir, WithSuffix(p.name, ".json"))
  }

  /** A sidecar name is never a dump name, so a sidecar is never taken for a backup. */
  lemma SidecarIsNotDump(name: string)
    requires name != ""
    ensures !EndsWith(WithSuffix(name, ".json"), ".dump")
  {
    var r := WithSuffix(name, ".json");
    assert r[|r| - 1] == 'n';
  }
}
