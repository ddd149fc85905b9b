/** `LtexExtension`: the binary resolution of the ltex-ls-plus language server.
    The resolution order is the code's: the cached binary while its file still
    exists, then the configured path, then the search path, then a download of
    the latest release. */
module Extension {
  import opened Wrappers
  import opened Assets
  import opened Host

  /** A resolved binary: its path and, when known, its arguments. */
  datatype LtexBinary = LtexBinary(path: string, args: Option<seq<string>>)

  /** The command the host launches the language server with. */
  datatype Command = Command(command: string, args: seq<string>, env: seq<(string, string)>)

  datatype Error =
    | SettingsUnavailable
    | ReleaseUnavailable
    | UnsupportedArchitecture
    | NoAssetFound(assetName: string)
    | DownloadFailed
    | ListingFailed
    | EntryUnreadable

  /** What one resolution yields and leaves behind: the result, the cache, the
      disk, and the host calls made, in order. */
  datatype Outcome = Outcome(result: Result<LtexBinary, Error>, cache: Option<LtexBinary>, disk: Disk, calls: seq<Call>)

  /** `language_server_binary` on the cache `cache`, the disk `d` and the host answers `h`. */
  function Resolution(cache: Option<LtexBinary>, d: Disk, h: Oracles): (o: Outcome)
    ensures o.result.Success? ==> o.cache == Some(o.result.value)
    ensures o.result.Failure? ==> o.cache == cache
  {
    var probe := if cache.Some? then [Stat(cache.value.path)] else [];
    if cache.Some? && cache.value.path in d.files then
      Outcome(Success(cache.value), cache, d, probe)
    else
      match h.settings
      case None => Outcome(Failure(SettingsUnavailable), cache, d, probe + [GetSettings])
      case Some(settings) =>
        if settings.binary.Some? && settings.binary.value.path.Some? then
          var binary := LtexBinary(settings.binary.value.path.value, settings.binary.value.arguments);
          Outcome(Success(binary), Some(binary), d, probe + [GetSettings])
        else if SERVER_NAME in h.searchPath then
          var binary := LtexBinary(h.searchPath[SERVER_NAME], None);
          Outcome(Success(binary), Some(binary), d, probe + [GetSettings] + [Lookup(SERVER_NAME)])
        else
          var o := Installation(cache, d, h);
          o.(calls := probe + [GetSettings] + [Lookup(SERVER_NAME)] + o.calls)
  }

  /** `download_language_server` on the cache `cache`, the disk `d` and the host answers `h`. */
  function Installation(cache: Option<LtexBinary>, d: Disk, h: Oracles): (o: Outcome)
    ensures o.result.Success? ==>
      && h.release.Some?
      && o.result.value == LtexBinary(BinaryPath(h.release.value.version), Some([]))
      && o.cache == Some(o.result.value)
    ensures o.result.Failure? ==> o.cache == cache
  {
    var start := [Notify(CheckingForUpdate), GetRelease(REPOSITORY, true, false)];
    match h.release
    case None => Outcome(Failure(ReleaseUnavailable), cache, d, start)
    case Some(release) =>
      match AssetName(release.version, h.os, h.arch)
      case None => Outcome(Failure(UnsupportedArchitecture), cache, d, start)
      case Some(name) =>
        match FindAsset(release.assets, name)
        case None => Outcome(Failure(NoAssetFound(name)), cache, d, start)
        case Some(i) =>
          var versionDir := VersionDir(release.version);
          var binary := LtexBinary(BinaryPath(release.version), Some([]));
          var probed := start + [Stat(binary.path)];
          if binary.path in d.files then
            Outcome(Success(binary), Some(binary), d, probed)
          else
            var url := release.assets[i].downloadUrl;
            var fetched := probed + [Notify(Downloading)] + [Fetch(url, versionDir, FileKind(h.os))];
            if url !in h.archives then
              Outcome(Failure(DownloadFailed), cache, d, fetched)
            else
              var unpacked := Install(d, versionDir, h.archives[url]);
              if h.listingFails then
                Outcome(Failure(ListingFailed), cache, unpacked, fetched + [List])
              else
                var sweep := Cleanup(unpacked, unpacked.listing, versionDir, h.removalFails);
                Outcome(if sweep.ok then Success(binary) else Failure(EntryUnreadable),
                        if sweep.ok then Some(binary) else cache,
                        sweep.disk, fetched + [List] + sweep.calls)
  }

  /** The cleanup loop of `download_language_server` over the listed entries:
      it removes every entry not named `versionDir`, ignores failed removals,
      and stops with false at the first entry it cannot read. */
  method RemoveStaleEntries(w: World, entries: seq<Listed>, versionDir: string) returns (ok: bool)
    modifies w
    ensures var sweep := Cleanup(old(w.disk), entries, versionDir, w.oracles.removalFails);
      ok == sweep.ok && w.disk == sweep.disk && w.trace == old(w.trace) + sweep.calls
  {
    ghost var sweep := Cleanup(w.disk, entries, versionDir, w.oracles.removalFails);
    var i := 0;
    while i < |entries|
      invariant 0 <= i <= |entries|
      invariant var rest := Cleanup(w.disk, entries[i..], versionDir, w.oracles.removalFails);
        rest.disk == sweep.disk && rest.ok == sweep.ok && w.trace + rest.calls == old(w.trace) + sweep.calls
    {
      match entries[i]
      case Unreadable =>
        return false;
      case Entry(name) =>
        if name != versionDir {
          var _ := w.RemoveDirAll(name);
        }
      i := i + 1;
    }
    ok := true;
  }

  /** Appending to a trace is associative. */
  lemma AppendAssoc(a: seq<Call>, b: seq<Call>, c: seq<Call>)
    ensures (a + b) + c == a + (b + c)
  {
  }

  /** Appending no calls leaves a trace as it is. */
  lemma AppendEmpty(a: seq<Call>)
    ensures a + [] == a
  {
  }

  /** Two calls appended one after the other. */
  lemma AppendPair(a: seq<Call>, x: Call, y: Call)
    ensures (a + [x]) + [y] == a + [x, y]
  {
  }

  class LtexExtension {
    var cachedBinary: Option<LtexBinary>

    constructor ()
      ensures cachedBinary == None
    {
      cachedBinary := None;
    }

    /** Resolves the language-server binary, updating the cache on success. */
    method LanguageServerBinary(w: World) returns (r: Result<LtexBinary, Error>)
      modifies this, w
      ensures var o := Resolution(old(cachedBinary), old(w.disk), w.oracles);
        r == o.result && cachedBinary == o.cache && w.disk == o.disk && w.trace == old(w.trace) + o.calls
    {
      ghost var cache, disk, start := cachedBinary, w.disk, w.trace;
      ghost var done: seq<Call> := [];
      var cached := false;
      if cachedBinary.Some? {
        cached := w.IsFile(cachedBinary.value.path);
        done := [Stat(cachedBinary.value.path)];
      } else {
        AppendEmpty(start);
      }
      if cached {
        r := Success(cachedBinary.value);
      } else {
        var settings := w.ReadSettings();
        AppendAssoc(start, done, [GetSettings]);
        done := done + [GetSettings];
        if settings.None? {
          r := Failure(SettingsUnavailable);
        } else if settings.value.binary.Some? && settings.value.binary.value.path.Some? {
          var binary := LtexBinary(settings.value.binary.value.path.value, settings.value.binary.value.arguments);
          cachedBinary := Some(binary);
          r := Success(binary);
        } else {
          var path := w.Which(SERVER_NAME);
          AppendAssoc(start, done, [Lookup(SERVER_NAME)]);
          done := done + [Lookup(SERVER_NAME)];
          if path.Some? {
            var binary := LtexBinary(path.value, None);
            cachedBinary := Some(binary);
            r := Success(binary);
          } else {
            r := DownloadLanguageServer(w);
            AppendAssoc(start, done, Installation(cache, disk, w.oracles).calls);
          }
        }
      }
    }

    /** Fetches the latest release for this platform unless its binary is
        already on disk, clears out stale installs, and caches the binary. */
    method DownloadLanguageServer(w: World) returns (r: Result<LtexBinary, Error>)
      modifies this, w
      ensures var o := Installation(old(cachedBinary), old(w.disk), w.oracles);
        r == o.result && cachedBinary == o.cache && w.disk == o.disk && w.trace == old(w.trace) + o.calls
    {
      ghost var start := w.trace;
      w.SetInstallationStatus(CheckingForUpdate);
      var release := w.LatestGithubRelease(REPOSITORY, true, false);
      AppendPair(start, Notify(CheckingForUpdate), GetRelease(REPOSITORY, true, false));
      ghost var done := [Notify(CheckingForUpdate), GetRelease(REPOSITORY, true, false)];
      if release.None? {
        return Failure(ReleaseUnavailable);
      }

      var os, arch := w.CurrentPlatform();
      var version := release.value.version;
      var assetName := AssetName(version, os, arch);
      if assetName.None? {
        return Failure(UnsupportedArchitecture);
      }

      var found := FindAsset(release.value.assets, assetName.value);
      if found.None? {
        return Failure(NoAssetFound(assetName.value));
      }
      var asset := release.value.assets[found.value];

      var versionDir := VersionDir(version);
      var binaryPath := BinaryPath(version);

      var present := w.IsFile(binaryPath);
      AppendAssoc(start, done, [Stat(binaryPath)]);
      done := done + [Stat(binaryPath)];
      if !present {
        w.SetInstallationStatus(Downloading);
        AppendAssoc(start, done, [Notify(Downloading)]);
        done := done + [Notify(Downloading)];
        var downloaded := w.DownloadFile(asset.downloadUrl, versionDir, FileKind(os));
        AppendAssoc(start, done, [Fetch(asset.downloadUrl, versionDir, FileKind(os))]);
        done := done + [Fetch(asset.downloadUrl, versionDir, FileKind(os))];
        if !downloaded {
          return Failure(DownloadFailed);
        }

        var entries := w.ReadDir();
        AppendAssoc(start, done, [List]);
        done := done + [List];
        if entries.None? {
          return Failure(ListingFailed);
        }
        ghost var unpacked := w.disk;
        var swept := RemoveStaleEntries(w, entries.value, versionDir);
        AppendAssoc(start, done, Cleanup(unpacked, unpacked.listing, versionDir, w.oracles.removalFails).calls);
        if !swept {
          return Failure(EntryUnreadable);
        }
      }

      var binary := LtexBinary(binaryPath, Some([]));
      cachedBinary := Some(binary);
      r := Success(binary);
    }

    /** `language_server_command`: the resolved binary with its arguments
        (none when it has none) and an empty environment. */
    method LanguageServerCommand(w: World) returns (r: Result<Command, Error>)
      modifies this, w
      ensures var o := Resolution(old(cachedBinary), old(w.disk), w.oracles);
        && (r.Success? <==> o.result.Success?)
        && (r.Success? ==> r.value == Command(o.result.value.path, o.result.value.args.GetOr([]), []))
        && (r.Failure? ==> r.error == o.result.error)
        && cachedBinary == o.cache && w.disk == o.disk && w.trace == old(w.trace) + o.calls
    {
      var binary := LanguageServerBinary(w);
      if binary.Failure? {
        return Failure(binary.error);
      }
      r := Success(Command(binary.value.path, binary.value.args.GetOr([]), []));
    }
  }
}
