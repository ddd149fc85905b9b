/** What the resolution order, the asset choice, the download and the cleanup
    promise, stated over the Resolution and Installation functions that the
    extension's methods are proved to follow. */
module Properties {
  import opened Wrappers
  import opened Assets
  import opened Host
  import opened Extension

  predicate CacheHit(cache: Option<LtexBinary>, d: Disk)
  {
    cache.Some? && cache.value.path in d.files
  }

  /** The settings name a binary path. */
  predicate Configured(h: Oracles)
  {
    h.settings.Some? && h.settings.value.binary.Some? && h.settings.value.binary.value.path.Some?
  }

  /** No call of the trace asks for settings, the search path or a release, or downloads or removes. */
  predicate ConsultsNothing(calls: seq<Call>)
  {
    forall c :: c in calls ==> c.Stat?
  }

  /** A cached binary whose file still exists is returned as it is; only its
      file is looked at, and the cache and the disk stay as they are. */
  lemma CachedBinaryFirst(cache: Option<LtexBinary>, d: Disk, h: Oracles)
    requires CacheHit(cache, d)
    ensures Resolution(cache, d, h) == Outcome(Success(cache.value), cache, d, [Stat(cache.value.path)])
    ensures ConsultsNothing(Resolution(cache, d, h).calls)
  {
  }

  /** With no usable cache, a configured path is used with its configured
      arguments verbatim and becomes the cache; the search path and the
      network are not consulted. */
  lemma ConfiguredPathNext(cache: Option<LtexBinary>, d: Disk, h: Oracles)
    requires !CacheHit(cache, d) && Configured(h)
    ensures var o := Resolution(cache, d, h);
      var binary := LtexBinary(h.settings.value.binary.value.path.value, h.settings.value.binary.value.arguments);
      && o.result == Success(binary) && o.cache == Some(binary) && o.disk == d
      && Lookup(SERVER_NAME) !in o.calls
      && forall c :: c in o.calls ==> c.Stat? || c.GetSettings?
  {
  }

  /** With no usable cache and no configured path, a binary on the search path
      is used without arguments and becomes the cache; no release is fetched. */
  lemma SearchPathNext(cache: Option<LtexBinary>, d: Disk, h: Oracles)
    requires !CacheHit(cache, d) && h.settings.Some? && !Configured(h)
    requires SERVER_NAME in h.searchPath
    ensures var o := Resolution(cache, d, h);
      var binary := LtexBinary(h.searchPath[SERVER_NAME], None);
      && o.result == Success(binary) && o.cache == Some(binary) && o.disk == d
      && forall c :: c in o.calls ==> c.Stat? || c.GetSettings? || c.Lookup?
  {
  }

  /** With nothing else available the binary is downloaded: the resolution is
      the installation, after the probes of the cache, the settings and the
      search path. */
  lemma DownloadLast(cache: Option<LtexBinary>, d: Disk, h: Oracles)
    requires !CacheHit(cache, d) && h.settings.Some? && !Configured(h)
    requires SERVER_NAME !in h.searchPath
    ensures var o := Resolution(cache, d, h);
      var i := Installation(cache, d, h);
      && o.result == i.result && o.cache == i.cache && o.disk == i.disk
      && o.calls == (if cache.Some? then [Stat(cache.value.path)] else []) + [GetSettings, Lookup(SERVER_NAME)] + i.calls
  {
    AppendPair(if cache.Some? then [Stat(cache.value.path)] else [], GetSettings, Lookup(SERVER_NAME));
  }

  /** Unreadable settings fail the resolution when the cache misses, leaving all as it was. */
  lemma SettingsFailure(cache: Option<LtexBinary>, d: Disk, h: Oracles)
    requires !CacheHit(cache, d) && h.settings.None?
    ensures var o := Resolution(cache, d, h);
      o.result == Failure(SettingsUnavailable) && o.cache == cache && o.disk == d
  {
  }

  /** On x86 the installation always fails, with the architecture error once
      the release is known, before any asset is looked up, any file looked at,
      downloaded or removed; the cache and the disk stay as they were. */
  lemma X86Unsupported(cache: Option<LtexBinary>, d: Disk, h: Oracles)
    requires h.arch == X86
    ensures var o := Installation(cache, d, h);
      && o.result == Failure(if h.release.None? then ReleaseUnavailable else UnsupportedArchitecture)
      && o.cache == cache && o.disk == d
      && o.calls == [Notify(CheckingForUpdate), GetRelease(REPOSITORY, true, false)]
  {
  }

  /** A release without an asset of exactly the computed name fails with that
      name, even when the binary is already on disk; nothing is looked at,
      downloaded or removed. */
  lemma MissingAsset(cache: Option<LtexBinary>, d: Disk, h: Oracles)
    requires h.release.Some? && h.arch != X86
    requires forall a :: a in h.release.value.assets ==> a.name != AssetName(h.release.value.version, h.os, h.arch).value
    ensures var o := Installation(cache, d, h);
      && o.result == Failure(NoAssetFound(AssetName(h.release.value.version, h.os, h.arch).value))
      && o.cache == cache && o.disk == d
      && o.calls == [Notify(CheckingForUpdate), GetRelease(REPOSITORY, true, false)]
  {
  }

  /** The asset the installation uses: the first of the release whose name is the computed asset name. */
  predicate ChosenAsset(h: Oracles, k: nat)
  {
    && h.release.Some? && h.arch != X86
    && var release := h.release.value;
       var name := AssetName(release.version, h.os, h.arch).value;
       && k < |release.assets| && release.assets[k].name == name
       && forall j :: 0 <= j < k ==> release.assets[j].name != name
  }

  /** An installed binary is not downloaded again: with the asset found and a
      file at the binary path, the binary is returned with no arguments and
      cached, and nothing is downloaded or removed. */
  lemma InstalledNotDownloaded(cache: Option<LtexBinary>, d: Disk, h: Oracles, k: nat)
    requires ChosenAsset(h, k)
    requires BinaryPath(h.release.value.version) in d.files
    ensures var o := Installation(cache, d, h);
      var binary := LtexBinary(BinaryPath(h.release.value.version), Some([]));
      && o.result == Success(binary) && o.cache == Some(binary) && o.disk == d
      && o.calls == [Notify(CheckingForUpdate), GetRelease(REPOSITORY, true, false), Stat(binary.path)]
  {
    FirstAssetIsFound(h, k);
  }

  lemma FirstAssetIsFound(h: Oracles, k: nat)
    requires ChosenAsset(h, k)
    ensures FindAsset(h.release.value.assets, AssetName(h.release.value.version, h.os, h.arch).value) == Some(k)
  {
  }

  /** Without a file at the binary path, the first matching asset's URL is
      downloaded into the version directory as a zip archive on Windows and as
      a gzip'ed tarball elsewhere, after a "downloading" notice. */
  lemma DownloadRequest(cache: Option<LtexBinary>, d: Disk, h: Oracles, k: nat)
    requires ChosenAsset(h, k)
    requires BinaryPath(h.release.value.version) !in d.files
    ensures var o := Installation(cache, d, h);
      var release := h.release.value;
      && |o.calls| >= 5
      && o.calls[..5] == [Notify(CheckingForUpdate), GetRelease(REPOSITORY, true, false), Stat(BinaryPath(release.version)),
                         Notify(Downloading), Fetch(release.assets[k].downloadUrl, VersionDir(release.version), FileKind(h.os))]
      && (FileKind(h.os) == Zip <==> h.os == Windows)
  {
    FirstAssetIsFound(h, k);
  }

  /** A failed download fails the installation; the cache and the disk stay
      as they were, and the directory is neither listed nor swept. */
  lemma DownloadFailure(cache: Option<LtexBinary>, d: Disk, h: Oracles, k: nat)
    requires ChosenAsset(h, k)
    requires BinaryPath(h.release.value.version) !in d.files
    requires h.release.value.assets[k].downloadUrl !in h.archives
    ensures var o := Installation(cache, d, h);
      && o.result == Failure(DownloadFailed) && o.cache == cache && o.disk == d
      && List !in o.calls && forall c :: c in o.calls ==> !c.RemoveAll?
  {
    FirstAssetIsFound(h, k);
  }

  /** A working directory that cannot be listed fails the installation after
      the download; the cache stays as it was and nothing is removed. */
  lemma ListingFailure(cache: Option<LtexBinary>, d: Disk, h: Oracles, k: nat)
    requires ChosenAsset(h, k)
    requires BinaryPath(h.release.value.version) !in d.files
    requires h.release.value.assets[k].downloadUrl in h.archives
    requires h.listingFails
    ensures var o := Installation(cache, d, h);
      var release := h.release.value;
      && o.result == Failure(ListingFailed) && o.cache == cache
      && o.disk == Install(d, VersionDir(release.version), h.archives[release.assets[k].downloadUrl])
      && forall c :: c in o.calls ==> !c.RemoveAll?
  {
    FirstAssetIsFound(h, k);
  }

  /** The asset is fetched, unpacked, and the directory listed and swept. */
  predicate Downloaded(d: Disk, h: Oracles, k: nat)
  {
    && ChosenAsset(h, k)
    && BinaryPath(h.release.value.version) !in d.files
    && h.release.value.assets[k].downloadUrl in h.archives
    && !h.listingFails
  }

  /** A version whose directory name is a single path component. */
  predicate PlainVersion(version: string)
  {
    '/' !in version
  }

  lemma VersionDirIsTopLevel(version: string)
    requires PlainVersion(version)
    ensures '/' !in VersionDir(version)
    ensures Head(BinaryPath(version)) == VersionDir(version)
    ensures Head(VersionDir(version)) == VersionDir(version)
  {
    var vd := VersionDir(version);
    assert vd == SERVER_NAME + "-" + version;
    forall i | 0 <= i < |vd| ensures vd[i] != '/' {
      if i >= |SERVER_NAME| + 1 {
        assert vd[i] == version[i - |SERVER_NAME| - 1];
      }
    }
    HeadOfJoin(vd, ArchivedBinary(version));
    assert Head(vd) == vd;
  }

  /** After a download the installation is the sweep of the unpacked working
      directory: its calls follow the download and the listing, and it
      succeeds, with the binary, exactly when the sweep does. */
  lemma DownloadedOutcome(cache: Option<LtexBinary>, d: Disk, h: Oracles, k: nat)
    requires Downloaded(d, h, k)
    ensures var o := Installation(cache, d, h);
      var release := h.release.value;
      var versionDir := VersionDir(release.version);
      var unpacked := Install(d, versionDir, h.archives[release.assets[k].downloadUrl]);
      var sweep := Cleanup(unpacked, unpacked.listing, versionDir, h.removalFails);
      && o.result == (if sweep.ok then Success(LtexBinary(BinaryPath(release.version), Some([]))) else Failure(EntryUnreadable))
      && o.disk == sweep.disk
      && o.calls == [Notify(CheckingForUpdate), GetRelease(REPOSITORY, true, false), Stat(BinaryPath(release.version)),
                     Notify(Downloading), Fetch(release.assets[k].downloadUrl, versionDir, FileKind(h.os)), List] + sweep.calls
  {
    FirstAssetIsFound(h, k);
    var release := h.release.value;
    var versionDir := VersionDir(release.version);
    var start := [Notify(CheckingForUpdate), GetRelease(REPOSITORY, true, false)];
    var fetch := Fetch(release.assets[k].downloadUrl, versionDir, FileKind(h.os));
    assert start + [Stat(BinaryPath(release.version))] + [Notify(Downloading)] + [fetch] + [List]
      == [Notify(CheckingForUpdate), GetRelease(REPOSITORY, true, false), Stat(BinaryPath(release.version)), Notify(Downloading), fetch, List];
  }

  /** After a download the cleanup has swept the working directory as the
      download left it: it succeeds exactly when every entry reads, a
      successful sweep has tried to remove every listed entry but the version
      directory, and the version directory is never removed and stays listed. */
  lemma DownloadSweeps(cache: Option<LtexBinary>, d: Disk, h: Oracles, k: nat)
    requires Downloaded(d, h, k) && PlainVersion(h.release.value.version)
    ensures var o := Installation(cache, d, h);
      var release := h.release.value;
      var versionDir := VersionDir(release.version);
      var unpacked := Install(d, versionDir, h.archives[release.assets[k].downloadUrl]);
      && (o.result.Success? <==> Unreadable !in unpacked.listing)
      && RemoveAll(versionDir) !in o.calls
      && Entry(versionDir) in o.disk.listing
      && (o.result.Success? ==> forall n :: RemoveAll(n) in o.calls <==> Entry(n) in unpacked.listing && n != versionDir)
  {
    var release := h.release.value;
    var versionDir := VersionDir(release.version);
    var unpacked := Install(d, versionDir, h.archives[release.assets[k].downloadUrl]);
    VersionDirIsTopLevel(release.version);
    assert Entry(versionDir) in unpacked.listing;
    CleanupKeeps(unpacked, unpacked.listing, versionDir, h.removalFails);
    CleanupRemoves(unpacked, unpacked.listing, versionDir, h.removalFails);
    DownloadedOutcome(cache, d, h, k);
  }

  /** A successful download leaves in the working directory only the version
      directory and the entries whose removal failed; nothing of a removed
      entry stays on disk, and on a disk whose files all lie in listed entries
      every remaining file lies in one of those. */
  lemma DownloadLeavesOnly(cache: Option<LtexBinary>, d: Disk, h: Oracles, k: nat)
    requires Downloaded(d, h, k) && PlainVersion(h.release.value.version)
    requires Installation(cache, d, h).result.Success?
    ensures var o := Installation(cache, d, h);
      var release := h.release.value;
      var versionDir := VersionDir(release.version);
      var unpacked := Install(d, versionDir, h.archives[release.assets[k].downloadUrl]);
      && (forall x :: x in o.disk.listing ==> x.Entry? && (x.name == versionDir || x.name in h.removalFails))
      && (forall n, f :: Entry(n) in unpacked.listing && n != versionDir && n !in h.removalFails && f in o.disk.files ==> Head(f) != n)
      && (Coherent(d) ==> forall f :: f in o.disk.files ==> Head(f) == versionDir || Head(f) in h.removalFails)
  {
    var release := h.release.value;
    var versionDir := VersionDir(release.version);
    var unpacked := Install(d, versionDir, h.archives[release.assets[k].downloadUrl]);
    DownloadedOutcome(cache, d, h, k);
    CleanupRemoves(unpacked, unpacked.listing, versionDir, h.removalFails);
    CleanupLeavesOnly(unpacked, versionDir, h.removalFails);
    if Coherent(d) {
      InstallCoherent(d, versionDir, h.archives[release.assets[k].downloadUrl]);
      CleanupLeavesOnlyFiles(unpacked, versionDir, h.removalFails);
    }
  }

  /** A successful download whose archive holds the binary where the extension
      expects it leaves the binary on disk, cleanup notwithstanding. */
  lemma DownloadInstallsBinary(cache: Option<LtexBinary>, d: Disk, h: Oracles, k: nat)
    requires Downloaded(d, h, k) && PlainVersion(h.release.value.version)
    requires ArchivedBinary(h.release.value.version) in h.archives[h.release.value.assets[k].downloadUrl]
    ensures BinaryPath(h.release.value.version) in Installation(cache, d, h).disk.files
  {
    var release := h.release.value;
    var versionDir := VersionDir(release.version);
    var unpacked := Install(d, versionDir, h.archives[release.assets[k].downloadUrl]);
    FirstAssetIsFound(h, k);
    VersionDirIsTopLevel(release.version);
    assert BinaryPath(release.version) in unpacked.files;
    CleanupKeeps(unpacked, unpacked.listing, versionDir, h.removalFails);
  }

  /** Resolving again after a success whose binary is on disk returns the same
      binary from the cache, looking only at its file. */
  lemma ResolveAgain(cache: Option<LtexBinary>, d: Disk, h: Oracles)
    requires var o := Resolution(cache, d, h); o.result.Success? && o.result.value.path in o.disk.files
    ensures var o := Resolution(cache, d, h);
      Resolution(o.cache, o.disk, h) == Outcome(o.result, o.cache, o.disk, [Stat(o.result.value.path)])
  {
  }

  /** A second resolution after a successful download does not download again:
      the downloaded binary is returned from the cache. */
  lemma DownloadOnce(cache: Option<LtexBinary>, d: Disk, h: Oracles, k: nat)
    requires !CacheHit(cache, d) && h.settings.Some? && !Configured(h) && SERVER_NAME !in h.searchPath
    requires Downloaded(d, h, k) && PlainVersion(h.release.value.version)
    requires ArchivedBinary(h.release.value.version) in h.archives[h.release.value.assets[k].downloadUrl]
    requires Resolution(cache, d, h).result.Success?
    ensures var o := Resolution(cache, d, h);
      var binary := LtexBinary(BinaryPath(h.release.value.version), Some([]));
      && o.result == Success(binary)
      && Resolution(o.cache, o.disk, h) == Outcome(Success(binary), Some(binary), o.disk, [Stat(binary.path)])
  {
    DownloadLast(cache, d, h);
    DownloadInstallsBinary(cache, d, h, k);
    ResolveAgain(cache, d, h);
  }
}
