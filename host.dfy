/** The host primitives the extension resolves its binary with, as an abstract
    world: the files on disk and the top-level listing of the extension's
    working directory (which downloads and removals change), the worktree's
    settings, the search path, the latest upstream release, the platform, what
    each download URL unpacks to, and which directory operations fail. Every
    host call is appended to a trace, so that what a resolution consults is
    part of what it does. */
module Host {
  import opened Wrappers
  import opened Assets

  /** The `binary` section of the worktree's settings for the language server. */
  datatype BinarySettings = BinarySettings(path: Option<string>, arguments: Option<seq<string>>)
  datatype LspSettings = LspSettings(binary: Option<BinarySettings>)

  /** One item of a directory listing: an entry with its file name, or an entry
      the directory iterator fails to produce. */
  datatype Listed = Entry(name: string) | Unreadable

  /** The regular files under the working directory, as relative paths, and the
      listing of its top-level entries in the order the host yields them. */
  datatype Disk = Disk(files: seq<string>, listing: seq<Listed>)

  datatype Status = CheckingForUpdate | Downloading

  /** The host calls a resolution can make. */
  datatype Call =
    | Stat(path: string)
    | GetSettings
    | Lookup(command: string)
    | GetRelease(repository: string, requireAssets: bool, preRelease: bool)
    | Notify(status: Status)
    | Fetch(url: string, dir: string, kind: DownloadedFileType)
    | List
    | RemoveAll(entry: string)

  /** What the host answers, fixed for the lifetime of one world.
      `settings` is None when the settings cannot be read; `archives` maps a
      download URL to the relative paths its archive unpacks to, and a URL it
      does not hold fails to download. */
  datatype Oracles = Oracles(
    settings: Option<LspSettings>,
    searchPath: map<string, string>,
    release: Option<Release>,
    os: Os,
    arch: Architecture,
    archives: map<string, seq<string>>,
    listingFails: bool,
    removalFails: set<string>)

  /** The top-level entry a relative path lies in: all of it before its first '/'. */
  function Head(path: string): (top: string)
    ensures StartsWith(path, top)
    ensures '/' !in top
    ensures |top| < |path| ==> path[|top|] == '/'
  {
    if path == [] || path[0] == '/' then []
    else [path[0]] + Head(path[1..])
  }

  /** A path joined below a slash-free name lies in the entry of that name. */
  lemma HeadOfJoin(top: string, rest: string)
    requires '/' !in top
    ensures Head(top + "/" + rest) == top
  {
    var path := top + "/" + rest;
    var h := Head(path);
    assert path[|top|] == '/';
    assert h == path[..|h|];
  }

  /** The listing without any item equal to `x`. */
  function Drop(listing: seq<Listed>, x: Listed): (rest: seq<Listed>)
    ensures forall y :: y in rest <==> y in listing && y != x
    ensures |rest| <= |listing|
  {
    if listing == [] then []
    else if listing[0] == x then Drop(listing[1..], x)
    else [listing[0]] + Drop(listing[1..], x)
  }

  /** The files that do not lie in the top-level entry `name`, order kept. */
  function FilesOutside(files: seq<string>, name: string): (rest: seq<string>)
    ensures forall f :: f in rest <==> f in files && Head(f) != name
  {
    if files == [] then []
    else if Head(files[0]) == name then FilesOutside(files[1..], name)
    else [files[0]] + FilesOutside(files[1..], name)
  }

  /** The relative paths `paths` placed below the directory `dir`. */
  function Below(dir: string, paths: seq<string>): (placed: seq<string>)
    ensures |placed| == |paths|
    ensures forall i :: 0 <= i < |paths| ==> placed[i] == dir + "/" + paths[i]
  {
    if paths == [] then []
    else [dir + "/" + paths[0]] + Below(dir, paths[1..])
  }

  /** The disk once the top-level entry `name` is removed with everything in it. */
  function Remove(d: Disk, name: string): (r: Disk)
    ensures forall f :: f in r.files <==> f in d.files && Head(f) != name
    ensures forall x :: x in r.listing <==> x in d.listing && x != Entry(name)
  {
    Disk(FilesOutside(d.files, name), Drop(d.listing, Entry(name)))
  }

  /** The disk once an archive holding the relative paths `unpacked` is
      extracted into `dir`: the files land below `dir`, and the top-level
      entry `dir` lies in is listed. */
  function Install(d: Disk, dir: string, unpacked: seq<string>): (r: Disk)
    ensures forall f :: f in d.files ==> f in r.files
    ensures forall p :: p in unpacked ==> dir + "/" + p in r.files
    ensures forall f :: f in r.files ==> f in d.files || exists p :: p in unpacked && f == dir + "/" + p
    ensures forall x :: x in r.listing <==> x in d.listing || x == Entry(Head(dir))
  {
    var top := Entry(Head(dir));
    var placed := Below(dir, unpacked);
    assert forall p :: p in unpacked ==> dir + "/" + p in placed by {
      forall p | p in unpacked ensures dir + "/" + p in placed {
        var i :| 0 <= i < |unpacked| && unpacked[i] == p;
        assert placed[i] == dir + "/" + p;
      }
    }
    Disk(d.files + placed, if top in d.listing then d.listing else d.listing + [top])
  }

  /** What sweeping the working directory leaves: the disk, the removals
      attempted in order, and whether every entry could be read. */
  datatype Sweep = Sweep(disk: Disk, calls: seq<Call>, ok: bool)

  /** The stale-entry cleanup over the listed `entries`: every entry whose name
      is not `keep` is removed with everything in it, except that a removal
      listed in `fails` leaves the disk as it is; an unreadable entry stops the
      sweep with a failure. */
  function Cleanup(d: Disk, entries: seq<Listed>, keep: string, fails: set<string>): (s: Sweep)
    ensures |s.calls| <= |entries| && RemoveAll(keep) !in s.calls
    decreases |entries|
  {
    if entries == [] then Sweep(d, [], true)
    else match entries[0]
      case Unreadable => Sweep(d, [], false)
      case Entry(name) =>
        if name == keep then Cleanup(d, entries[1..], keep, fails)
        else
          var rest := Cleanup(if name in fails then d else Remove(d, name), entries[1..], keep, fails);
          Sweep(rest.disk, [RemoveAll(name)] + rest.calls, rest.ok)
  }

  /** The cleanup never touches the kept entry or what lies in it, only ever
      removes, and leaves the entries whose removal fails in place. */
  lemma {:induction false} CleanupKeeps(d: Disk, entries: seq<Listed>, keep: string, fails: set<string>)
    ensures var s := Cleanup(d, entries, keep, fails);
      && (Entry(keep) in s.disk.listing <==> Entry(keep) in d.listing)
      && (forall f :: f in d.files && Head(f) == keep ==> f in s.disk.files)
      && (forall f :: f in s.disk.files ==> f in d.files)
      && (forall x :: x in s.disk.listing ==> x in d.listing)
      && (forall n :: n in fails ==> (Entry(n) in s.disk.listing <==> Entry(n) in d.listing))
      && RemoveAll(keep) !in s.calls
    decreases |entries|
  {
    if entries != [] && entries[0].Entry? {
      var name := entries[0].name;
      if name == keep {
        CleanupKeeps(d, entries[1..], keep, fails);
      } else {
        CleanupKeeps(if name in fails then d else Remove(d, name), entries[1..], keep, fails);
      }
    }
  }

  /** The cleanup succeeds exactly when no entry is unreadable; it then has
      attempted to remove every listed entry but `keep`, and every entry it
      removed without failure is gone with everything in it. */
  lemma {:induction false} CleanupRemoves(d: Disk, entries: seq<Listed>, keep: string, fails: set<string>)
    ensures var s := Cleanup(d, entries, keep, fails);
      && (s.ok <==> Unreadable !in entries)
      && (s.ok ==> forall n :: RemoveAll(n) in s.calls <==> Entry(n) in entries && n != keep)
      && (s.ok ==> forall n :: Entry(n) in entries && n != keep && n !in fails ==> Entry(n) !in s.disk.listing)
      && (s.ok ==> forall n, f :: Entry(n) in entries && n != keep && n !in fails && f in s.disk.files ==> Head(f) != n)
    decreases |entries|
  {
    if entries != [] && entries[0].Entry? {
      var name := entries[0].name;
      var d' := if name == keep || name in fails then d else Remove(d, name);
      CleanupRemoves(d', entries[1..], keep, fails);
      CleanupKeeps(d', entries[1..], keep, fails);
      assert entries == [entries[0]] + entries[1..];
    }
  }

  /** Swept over its own listing, a successful cleanup leaves only the kept
      entry and the entries whose removal failed. */
  lemma CleanupLeavesOnly(d: Disk, keep: string, fails: set<string>)
    requires Cleanup(d, d.listing, keep, fails).ok
    ensures forall x :: x in Cleanup(d, d.listing, keep, fails).disk.listing ==>
      x.Entry? && (x.name == keep || x.name in fails)
  {
    CleanupKeeps(d, d.listing, keep, fails);
    CleanupRemoves(d, d.listing, keep, fails);
    var s := Cleanup(d, d.listing, keep, fails);
    forall x | x in s.disk.listing
      ensures x.Entry? && (x.name == keep || x.name in fails)
    {
      assert x in d.listing;
    }
  }

  /** Every file lies in a listed top-level entry. */
  predicate Coherent(d: Disk)
  {
    forall f :: f in d.files ==> Entry(Head(f)) in d.listing
  }

  /** A path joined below `dir` lies in the same top-level entry as `dir`. */
  lemma {:induction false} HeadBelow(dir: string, rest: string)
    ensures Head(dir + "/" + rest) == Head(dir)
    decreases |dir|
  {
    var path := dir + "/" + rest;
    if dir != [] && dir[0] != '/' {
      assert path[0] == dir[0];
      assert path[1..] == dir[1..] + "/" + rest;
      HeadBelow(dir[1..], rest);
    }
  }

  /** Unpacking an archive keeps every file in a listed entry. */
  lemma InstallCoherent(d: Disk, dir: string, unpacked: seq<string>)
    requires Coherent(d)
    ensures Coherent(Install(d, dir, unpacked))
  {
    var r := Install(d, dir, unpacked);
    forall f | f in r.files
      ensures Entry(Head(f)) in r.listing
    {
      if f !in d.files {
        var p :| p in unpacked && f == dir + "/" + p;
        HeadBelow(dir, p);
      }
    }
  }

  /** Removing an entry with everything in it keeps every file in a listed entry. */
  lemma RemoveCoherent(d: Disk, name: string)
    requires Coherent(d)
    ensures Coherent(Remove(d, name))
  {
  }

  /** The cleanup keeps every file in a listed entry. */
  lemma {:induction false} CleanupCoherent(d: Disk, entries: seq<Listed>, keep: string, fails: set<string>)
    requires Coherent(d)
    ensures Coherent(Cleanup(d, entries, keep, fails).disk)
    decreases |entries|
  {
    if entries != [] && entries[0].Entry? {
      var name := entries[0].name;
      var d' := if name == keep || name in fails then d else Remove(d, name);
      if d' != d {
        RemoveCoherent(d, name);
      }
      CleanupCoherent(d', entries[1..], keep, fails);
    }
  }

  /** Swept over its own listing, a successful cleanup of a disk whose files
      all lie in listed entries leaves only files in the kept entry and in the
      entries whose removal failed. */
  lemma CleanupLeavesOnlyFiles(d: Disk, keep: string, fails: set<string>)
    requires Coherent(d) && Cleanup(d, d.listing, keep, fails).ok
    ensures forall f :: f in Cleanup(d, d.listing, keep, fails).disk.files ==> Head(f) == keep || Head(f) in fails
  {
    CleanupCoherent(d, d.listing, keep, fails);
    CleanupLeavesOnly(d, keep, fails);
  }

  /** The host, holding the mutable disk, the trace of calls, and its fixed answers. */
  class World {
    var disk: Disk
    var trace: seq<Call>
    const oracles: Oracles

    constructor (disk: Disk, oracles: Oracles)
      ensures this.disk == disk && this.oracles == oracles && trace == []
    {
      this.disk := disk;
      this.oracles := oracles;
      trace := [];
    }

    /** `fs::metadata(path)` followed by `is_file()`. */
    method IsFile(path: string) returns (isFile: bool)
      modifies this`trace
      ensures isFile <==> path in disk.files
      ensures trace == old(trace) + [Stat(path)]
    {
      isFile := path in disk.files;
      trace := trace + [Stat(path)];
    }

    /** `LspSettings::for_worktree`: None when the settings cannot be read. */
    method ReadSettings() returns (settings: Option<LspSettings>)
      modifies this`trace
      ensures settings == oracles.settings
      ensures trace == old(trace) + [GetSettings]
    {
      settings := oracles.settings;
      trace := trace + [GetSettings];
    }

    /** `worktree.which(command)`. */
    method Which(command: string) returns (path: Option<string>)
      modifies this`trace
      ensures path == if command in oracles.searchPath then Some(oracles.searchPath[command]) else None
      ensures trace == old(trace) + [Lookup(command)]
    {
      path := if command in oracles.searchPath then Some(oracles.searchPath[command]) else None;
      trace := trace + [Lookup(command)];
    }

    /** `zed::latest_github_release`: None when the release cannot be fetched. */
    method LatestGithubRelease(repository: string, requireAssets: bool, preRelease: bool)
      returns (release: Option<Release>)
      modifies this`trace
      ensures release == oracles.release
      ensures trace == old(trace) + [GetRelease(repository, requireAssets, preRelease)]
    {
      release := oracles.release;
      trace := trace + [GetRelease(repository, requireAssets, preRelease)];
    }

    /** `zed::current_platform`. */
    method CurrentPlatform() returns (os: Os, arch: Architecture)
      ensures os == oracles.os && arch == oracles.arch
    {
      os, arch := oracles.os, oracles.arch;
    }

    /** `zed::set_language_server_installation_status`. */
    method SetInstallationStatus(status: Status)
      modifies this`trace
      ensures trace == old(trace) + [Notify(status)]
    {
      trace := trace + [Notify(status)];
    }

    /** `zed::download_file`: fetches and unpacks the archive at `url` into `dir`. */
    method DownloadFile(url: string, dir: string, kind: DownloadedFileType) returns (ok: bool)
      modifies this`disk, this`trace
      ensures ok <==> url in oracles.archives
      ensures disk == if ok then Install(old(disk), dir, oracles.archives[url]) else old(disk)
      ensures trace == old(trace) + [Fetch(url, dir, kind)]
    {
      ok := url in oracles.archives;
      if ok {
        disk := Install(disk, dir, oracles.archives[url]);
      }
      trace := trace + [Fetch(url, dir, kind)];
    }

    /** `fs::read_dir(".")`, collected: None when the directory cannot be read. */
    method ReadDir() returns (entries: Option<seq<Listed>>)
      modifies this`trace
      ensures entries == if oracles.listingFails then None else Some(disk.listing)
      ensures trace == old(trace) + [List]
    {
      entries := if oracles.listingFails then None else Some(disk.listing);
      trace := trace + [List];
    }

    /** `fs::remove_dir_all(entry)`: false, and nothing removed, when it fails. */
    method RemoveDirAll(name: string) returns (ok: bool)
      modifies this`disk, this`trace
      ensures ok <==> name !in oracles.removalFails
      ensures disk == if ok then Remove(old(disk), name) else old(disk)
      ensures trace == old(trace) + [RemoveAll(name)]
    {
      ok := name !in oracles.removalFails;
      if ok {
        disk := Remove(disk, name);
      }
      trace := trace + [RemoveAll(name)];
    }
  }
}
