/** The pure part of `download_language_server`: the platform and architecture
    tags, the release asset name, the archive kind, the choice of asset among a
    release's assets, and the paths of the install directory and the binary. */
module Assets {
  import opened Wrappers

  datatype Os = Mac | Linux | Windows
  datatype Architecture = Aarch64 | X8664 | X86
  datatype DownloadedFileType = Zip | GzipTar

  /** One asset attached to a release on the upstream repository. */
  datatype Asset = Asset(name: string, downloadUrl: string)
  datatype Release = Release(version: string, assets: seq<Asset>)

  /** The command name of the language server; the asset names and the install
      directory start with it. */
  const SERVER_NAME := "ltex-ls-plus"
  /** The upstream repository releases are fetched from. */
  const REPOSITORY := "ltex-plus/ltex-ls-plus"

  predicate StartsWith(s: string, prefix: string)
  {
    |prefix| <= |s| && s[..|prefix|] == prefix
  }

  predicate EndsWith(s: string, suffix: string)
  {
    |suffix| <= |s| && s[|s| - |suffix|..] == suffix
  }

  function OsTag(os: Os): (tag: string)
    ensures tag == "mac" || tag == "linux" || tag == "windows"
  {
    match os
    case Mac => "mac"
    case Linux => "linux"
    case Windows => "windows"
  }

  /** The architecture tag; x86 has none, it is not a supported architecture. */
  function ArchTag(arch: Architecture): (tag: Option<string>)
    ensures tag.None? <==> arch == X86
    ensures tag.Some? ==> tag.value == "aarch64" || tag.value == "x64"
  {
    match arch
    case Aarch64 => Some("aarch64")
    case X8664 => Some("x64")
    case X86 => None
  }

  /** The archive suffix: a zip archive on Windows, a gzip'ed tarball elsewhere. */
  function Suffix(os: Os): (suffix: string)
    ensures suffix == "zip" <==> os == Windows
    ensures suffix == "tar.gz" <==> os != Windows
  {
    match os
    case Windows => "zip"
    case _ => "tar.gz"
  }

  /** The archive kind handed to the downloader. */
  function FileKind(os: Os): (kind: DownloadedFileType)
    ensures kind == Zip <==> Suffix(os) == "zip"
    ensures kind == GzipTar <==> Suffix(os) == "tar.gz"
  {
    match os
    case Windows => Zip
    case _ => GzipTar
  }

  /** `ltex-ls-plus-{version}-{os}-{arch}`, or nothing on an unsupported architecture. */
  function AssetStem(version: string, os: Os, arch: Architecture): (stem: Option<string>)
    ensures stem.None? <==> arch == X86
  {
    match ArchTag(arch)
    case None => None
    case Some(archTag) => Some(SERVER_NAME + "-" + version + "-" + OsTag(os) + "-" + archTag)
  }

  /** The name of the release asset for this version and platform. */
  function AssetName(version: string, os: Os, arch: Architecture): (name: Option<string>)
    ensures name.None? <==> arch == X86
    ensures name.Some? ==>
      name.value == SERVER_NAME + "-" + version + "-" + OsTag(os) + "-" + ArchTag(arch).value + "." + Suffix(os)
  {
    match AssetStem(version, os, arch)
    case None => None
    case Some(stem) => Some(stem + "." + Suffix(os))
  }

  /** The index of the first asset at or after `from` whose name is exactly `name`. */
  function FindAsset(assets: seq<Asset>, name: string, from: nat := 0): (found: Option<nat>)
    requires from <= |assets|
    ensures found.Some? ==>
      from <= found.value < |assets| && assets[found.value].name == name &&
      forall j :: from <= j < found.value ==> assets[j].name != name
    ensures found.None? ==> forall j :: from <= j < |assets| ==> assets[j].name != name
    decreases |assets| - from
  {
    if from == |assets| then None
    else if assets[from].name == name then Some(from)
    else FindAsset(assets, name, from + 1)
  }

  /** The directory, relative to the extension's working directory, a version is unpacked into. */
  function VersionDir(version: string): (dir: string)
    ensures StartsWith(dir, SERVER_NAME + "-") && dir[|SERVER_NAME| + 1..] == version
  {
    SERVER_NAME + "-" + version
  }

  /** The relative path, inside the archive for `version`, of the server binary:
      the archive holds a directory named like the version directory. */
  function ArchivedBinary(version: string): (path: string)
    ensures StartsWith(path, VersionDir(version) + "/")
    ensures EndsWith(path, "/bin/" + SERVER_NAME)
  {
    VersionDir(version) + "/bin/" + SERVER_NAME
  }

  /** Where the server binary lies once the archive for `version` is unpacked
      into the version directory: `{vd}/{vd}/bin/ltex-ls-plus`. */
  function BinaryPath(version: string): (path: string)
    ensures path == VersionDir(version) + "/" + ArchivedBinary(version)
    ensures StartsWith(path, VersionDir(version) + "/")
    ensures EndsWith(path, "/bin/" + SERVER_NAME)
  {
    var versionDir := VersionDir(version);
    versionDir + "/" + versionDir + "/bin/" + SERVER_NAME
  }

  /** The version and platform an asset name stands for. */
  datatype AssetKey = AssetKey(version: string, os: Os, arch: Architecture)

  /** The inverse of AssetName: it reads the archive suffix, the architecture tag,
      the OS tag and the server-name prefix off an asset name, right to left. */
  function ParseAssetName(name: string): (key: Option<AssetKey>)
  {
    match SplitSuffix(name)
    case None => None
    case Some((os0, rest0)) =>
      match SplitArch(rest0)
      case None => None
      case Some((arch, rest1)) =>
        match SplitOs(rest1, os0 == Windows)
        case None => None
        case Some((os, rest2)) =>
          if StartsWith(rest2, SERVER_NAME + "-") then Some(AssetKey(rest2[|SERVER_NAME| + 1..], os, arch))
          else None
  }

  /** Cuts the archive suffix off; the OS it names is Windows for `.zip`, and
      stands for either non-Windows OS for `.tar.gz`. */
  function SplitSuffix(name: string): (split: Option<(Os, string)>)
  {
    if EndsWith(name, ".zip") then Some((Windows, name[..|name| - 4]))
    else if EndsWith(name, ".tar.gz") then Some((Linux, name[..|name| - 7]))
    else None
  }

  function SplitArch(s: string): (split: Option<(Architecture, string)>)
  {
    if EndsWith(s, "-x64") then Some((X8664, s[..|s| - 4]))
    else if EndsWith(s, "-aarch64") then Some((Aarch64, s[..|s| - 8]))
    else None
  }

  function SplitOs(s: string, zipped: bool): (split: Option<(Os, string)>)
  {
    if zipped then
      if EndsWith(s, "-windows") then Some((Windows, s[..|s| - 8])) else None
    else if EndsWith(s, "-mac") then Some((Mac, s[..|s| - 4]))
    else if EndsWith(s, "-linux") then Some((Linux, s[..|s| - 6]))
    else None
  }

  /** Appending `tail` to `s` leaves `s` when the tail is cut off again. */
  lemma EndsWithAppend(s: string, tail: string)
    ensures EndsWith(s + tail, tail)
    ensures (s + tail)[..|s + tail| - |tail|] == s
  {
    assert (s + tail)[|s|..] == tail;
  }

  /** A string ending in `tail` does not end in `other` when the two differ at
      some position counted from the end. */
  lemma NotEndsWith(s: string, tail: string, other: string, k: nat)
    requires EndsWith(s, tail)
    requires k < |tail| && k < |other| && tail[|tail| - 1 - k] != other[|other| - 1 - k]
    ensures !EndsWith(s, other)
  {
  }

  lemma SplitSuffixOf(stem: string, os: Os)
    ensures SplitSuffix(stem + "." + Suffix(os)) == Some((if os == Windows then Windows else Linux, stem))
  {
    var tail := "." + Suffix(os);
    assert stem + "." + Suffix(os) == stem + tail;
    EndsWithAppend(stem, tail);
    if os == Windows {
      assert tail == ".zip";
      assert SplitSuffix(stem + tail) == Some((Windows, stem));
    } else {
      assert tail == ".tar.gz";
      NotEndsWith(stem + tail, ".tar.gz", ".zip", 0);
      assert SplitSuffix(stem + tail) == Some((Linux, stem));
    }
  }

  lemma SplitArchOf(s: string, arch: Architecture)
    requires arch != X86
    ensures SplitArch(s + "-" + ArchTag(arch).value) == Some((arch, s))
  {
    var tail := "-" + ArchTag(arch).value;
    assert s + "-" + ArchTag(arch).value == s + tail;
    EndsWithAppend(s, tail);
    if arch == X8664 {
      assert tail == "-x64";
      assert SplitArch(s + tail) == Some((X8664, s));
    } else {
      assert tail == "-aarch64";
      NotEndsWith(s + tail, "-aarch64", "-x64", 2);
      assert SplitArch(s + tail) == Some((Aarch64, s));
    }
  }

  lemma SplitOsOf(s: string, os: Os)
    ensures SplitOs(s + "-" + OsTag(os), os == Windows) == Some((os, s))
  {
    var tail := "-" + OsTag(os);
    assert s + "-" + OsTag(os) == s + tail;
    EndsWithAppend(s, tail);
    match os
    case Windows =>
      assert tail == "-windows";
      assert SplitOs(s + tail, true) == Some((Windows, s));
    case Mac =>
      assert tail == "-mac";
      assert SplitOs(s + tail, false) == Some((Mac, s));
    case Linux =>
      assert tail == "-linux";
      NotEndsWith(s + tail, "-linux", "-mac", 0);
      assert SplitOs(s + tail, false) == Some((Linux, s));
  }

  /** Every supported asset name parses back to the version and platform it was built from. */
  lemma AssetNameRoundTrip(version: string, os: Os, arch: Architecture)
    requires arch != X86
    ensures ParseAssetName(AssetName(version, os, arch).value) == Some(AssetKey(version, os, arch))
  {
    var prefix := SERVER_NAME + "-" + version;
    var osPart := prefix + "-" + OsTag(os);
    var stem := osPart + "-" + ArchTag(arch).value;
    assert AssetName(version, os, arch).value == stem + "." + Suffix(os);
    SplitSuffixOf(stem, os);
    SplitArchOf(osPart, arch);
    SplitOsOf(prefix, os);
    assert StartsWith(prefix, SERVER_NAME + "-");
    assert prefix[|SERVER_NAME| + 1..] == version;
  }

  /** Distinct versions or platforms never share an asset name, so the exact-name
      lookup picks the asset built for this very platform. */
  lemma AssetNameInjective(v1: string, os1: Os, arch1: Architecture, v2: string, os2: Os, arch2: Architecture)
    requires arch1 != X86 && arch2 != X86
    requires AssetName(v1, os1, arch1) == AssetName(v2, os2, arch2)
    ensures v1 == v2 && os1 == os2 && arch1 == arch2
  {
    AssetNameRoundTrip(v1, os1, arch1);
    AssetNameRoundTrip(v2, os2, arch2);
  }
}
