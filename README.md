# ltex-ls-plus binary resolution, modelled in Dafny

This project models how the Zed extension for the `ltex-ls-plus` grammar and
style checker (`src/lib.rs`, `LtexExtension`) finds the language-server binary
it launches, and proves what that resolution promises.

`language_server_binary` tries, in this order:

1. the cached binary (`cached_binary`), as long as a regular file still exists at its path;
2. a binary `path` from the worktree's settings, with the configured `arguments` verbatim;
3. `ltex-ls-plus` on the worktree's search path, with no arguments;
4. a download of the latest non-prerelease release of `ltex-plus/ltex-ls-plus`.

Each of branches 2 to 4 overwrites the one cache slot on success. The download
computes the asset name `ltex-ls-plus-{version}-{os}-{arch}.{zip|tar.gz}` (x86
is refused), takes the first asset of exactly that name, and skips the download
when `ltex-ls-plus-{version}/ltex-ls-plus-{version}/bin/ltex-ls-plus` is already a
file. Otherwise it unpacks the archive into `ltex-ls-plus-{version}` and removes
every other top-level entry of the working directory, ignoring failed removals
but failing on an unreadable listing or entry. `language_server_command` turns
the binary into a command with an empty environment.

Files:

- `wrappers.dfy`: `Option` and `Result`.
- `assets.dfy` (module `Assets`): the pure naming. This covers the OS and architecture tags, the archive suffix and kind, the asset name and a parser that inverts it, the first-match asset lookup, and the version directory, the binary's place inside the archive and the binary path.
- `host.dfy` (module `Host`): the host as a `World` class. It holds the disk and a trace of every host call. The disk is a sequence of regular-file paths and the working directory's listing. The world also holds fixed answers: the settings, the search path, the release, the platform, the relative paths each URL unpacks to, and which directory operations fail. Beside the class are the pure disk transitions (`Remove`, `Install`), the cleanup sweep `Cleanup`, and their lemmas.
- `extension.dfy` (module `Extension`): the `LtexExtension` class with its `cachedBinary` field. Its methods are proved to follow the functions `Resolution` and `Installation`. These functions give the result, the new cache, the new disk and the calls made.
- `properties.dfy` (module `Properties`): lemmas over `Resolution` and `Installation` covering the precedence, the error cases, the download, the cleanup and idempotence.

Behaviour of the code worth noting:

- The cache is checked first, before the settings and the search path.
- On x86 the unsupported architecture is reported only after the release has been fetched (`X86Unsupported`).
- A binary found on the search path carries no argument list (`None`). A downloaded one carries an empty list (`Some([])`). Both become an empty argument list in the command.
- Failed removals are silently ignored. They do still appear in the model's call trace.
- The binary path repeats the version directory (`{version_dir}/{version_dir}/bin/ltex-ls-plus`): the archive is expected to hold a top-level directory of the same name.

## Model

| member | source | states |
|---|---|---|
| Assets.OsTag | src/lib.rs:73-77 | the OS tag is one of `mac`, `linux`, `windows` |
| Assets.ArchTag | src/lib.rs:78-85 | there is no architecture tag exactly for x86; otherwise it is `aarch64` or `x64` |
| Assets.Suffix | src/lib.rs:89-92 | the suffix is `zip` exactly on Windows and `tar.gz` exactly elsewhere |
| Assets.FileKind | src/lib.rs:109-112 | the archive kind is Zip exactly when the suffix is `zip`, and GzipTar exactly when it is `tar.gz` |
| Assets.AssetStem | src/lib.rs:70-86 | the stem is missing exactly for x86 |
| Assets.AssetName | src/lib.rs:70-93 | the name is missing exactly for x86; otherwise it is `ltex-ls-plus-` + version + `-` + OS tag + `-` + architecture tag + `.` + suffix |
| Assets.FindAsset | src/lib.rs:95-99 | the result is the index of the first asset whose name equals the asked name, or none when no asset carries it |
| Assets.VersionDir | src/lib.rs:101 | the version directory is `ltex-ls-plus-` followed by exactly the version |
| Assets.ArchivedBinary | src/lib.rs:102 | inside the archive, the binary lies below the version directory and ends in `/bin/ltex-ls-plus` |
| Assets.BinaryPath | src/lib.rs:101-102 | the binary path is the version directory, a slash, and the binary's place inside the archive, so the version directory appears twice |
| Assets.AssetNameRoundTrip | src/lib.rs:70-93 | every supported asset name parses back to its version, OS and architecture |
| Assets.AssetNameInjective | src/lib.rs:87-99 | distinct versions or platforms never share an asset name, so the exact-name lookup picks this platform's asset |
| Host.Head | src/lib.rs:118-121 | the top-level entry of a path is its slash-free prefix that reaches the first slash |
| Host.HeadOfJoin | src/lib.rs:102 | a path joined below a slash-free name lies in the entry of that name |
| Host.Drop | src/lib.rs:121 | removing an entry from the listing keeps exactly the other items |
| Host.FilesOutside | src/lib.rs:121 | the files kept are exactly those that do not lie in the removed entry |
| Host.Below | src/lib.rs:113 | each unpacked relative path is placed below the target directory, one for one |
| Host.Remove | src/lib.rs:121 | `remove_dir_all` on an entry: exactly the files outside it and the other listing items remain |
| Host.Install | src/lib.rs:113 | unpacking keeps every file, adds every unpacked path below the directory and nothing else, and lists the directory's top-level entry in addition to the old listing |
| Host.Cleanup | src/lib.rs:116-123 | the sweep makes no more removal calls than there are entries, and none of the version directory |
| Host.CleanupKeeps | src/lib.rs:118-123 | the cleanup never removes the version directory or anything in it, never calls remove on it, only shrinks the disk, and leaves entries whose removal fails in place |
| Host.CleanupRemoves | src/lib.rs:116-123 | the cleanup succeeds exactly when no entry is unreadable; then it has attempted to remove exactly the entries not named like the version directory, and each successfully removed entry is gone with all its files |
| Host.CleanupLeavesOnly | src/lib.rs:116-123 | after a successful sweep of its own listing, only the version directory and entries whose removal failed remain |
| Host.HeadBelow | src/lib.rs:113 | a path placed below a directory lies in the same top-level entry as the directory |
| Host.InstallCoherent | src/lib.rs:113 | unpacking keeps every file inside a listed top-level entry |
| Host.RemoveCoherent | src/lib.rs:121 | removing an entry keeps every file inside a listed top-level entry |
| Host.CleanupCoherent | src/lib.rs:116-123 | the sweep keeps every file inside a listed top-level entry |
| Host.CleanupLeavesOnlyFiles | src/lib.rs:116-123 | when every file lies in a listed entry, a successful sweep of its own listing leaves files only in the version directory and in the entries whose removal failed |
| Host.World.constructor | src/lib.rs:18-22 | the host starts from the given disk and answers, with no calls made yet |
| Host.World.IsFile | src/lib.rs:24 | the host's `fs::metadata(..).is_file()`: true exactly for an existing regular file; recorded in the trace |
| Host.World.ReadSettings | src/lib.rs:29 | the worktree's settings or a failure; recorded |
| Host.World.Which | src/lib.rs:42 | the search-path entry for the command, if any; recorded |
| Host.World.LatestGithubRelease | src/lib.rs:59-65 | the latest release or a failure; the repository and options are recorded |
| Host.World.CurrentPlatform | src/lib.rs:67 | the host's OS and architecture |
| Host.World.SetInstallationStatus | src/lib.rs:55-58 | the status notice is recorded and nothing else changes |
| Host.World.DownloadFile | src/lib.rs:113-114 | the archive is unpacked into the directory exactly when the URL can be fetched; recorded with its kind |
| Host.World.ReadDir | src/lib.rs:116-117 | the working directory's listing, or a failure |
| Host.World.RemoveDirAll | src/lib.rs:121 | the entry and all its files are removed unless the removal fails, which changes nothing |
| Extension.Resolution | src/lib.rs:18-49 | a successful resolution caches what it returns; a failed one leaves the cache as it was |
| Extension.Installation | src/lib.rs:51-132 | a successful installation returns and caches the latest release's binary path with an empty argument list; a failed one leaves the cache as it was |
| Extension.RemoveStaleEntries | src/lib.rs:116-123 | the loop's final disk, trace and success are those of the cleanup sweep over the listed entries |
| Extension.LtexExtension.constructor | src/lib.rs:136-140 | the cache starts empty |
| Extension.LtexExtension.LanguageServerBinary | src/lib.rs:18-49 | the result, cache, disk and host calls are those of `Resolution` on the old cache and disk |
| Extension.LtexExtension.DownloadLanguageServer | src/lib.rs:51-132 | the result, cache, disk and host calls are those of `Installation` on the old cache and disk |
| Extension.LtexExtension.LanguageServerCommand | src/lib.rs:142-154 | the command is the resolved binary's path, with its arguments (empty when none) and an empty environment; a resolution failure is passed through |
| Properties.CachedBinaryFirst | src/lib.rs:23-27 | a cached binary whose file exists is returned unchanged; cache and disk stay; the only host call is the file check |
| Properties.ConfiguredPathNext | src/lib.rs:29-40 | on a cache miss a configured path is returned with its configured arguments and cached; the search path and the network are not consulted |
| Properties.SearchPathNext | src/lib.rs:42-46 | with no configured path, the search-path binary is returned without arguments and cached; no release is fetched |
| Properties.DownloadLast | src/lib.rs:48 | with nothing else available the resolution is the installation, after the probes |
| Properties.SettingsFailure | src/lib.rs:29 | unreadable settings fail a cache miss and leave cache and disk unchanged |
| Properties.X86Unsupported | src/lib.rs:78-85 | on x86 the installation fails (architecture error once the release is known); nothing is looked up, checked, downloaded or removed; cache and disk unchanged |
| Properties.MissingAsset | src/lib.rs:95-99 | with no asset of the computed name the installation fails with that name, even when the binary is on disk; cache and disk unchanged |
| Properties.InstalledNotDownloaded | src/lib.rs:101-104 | with the binary already on disk, nothing is downloaded or removed and the binary is returned with an empty argument list and cached |
| Properties.FirstAssetIsFound | src/lib.rs:95-98 | the lookup yields the first asset with the computed name |
| Properties.DownloadRequest | src/lib.rs:104-114 | without the binary on disk, the first matching asset's URL is fetched into the version directory as zip exactly on Windows, after a downloading notice |
| Properties.VersionDirIsTopLevel | src/lib.rs:101-102 | for a slash-free version, the binary path lies in the top-level entry named by the version directory |
| Properties.DownloadFailure | src/lib.rs:113-114 | a failed download fails the installation; cache and disk stay as they were, and nothing is listed or removed |
| Properties.ListingFailure | src/lib.rs:116-117 | an unlistable working directory fails the installation after the archive is unpacked; the cache stays and nothing is removed |
| Properties.DownloadedOutcome | src/lib.rs:104-131 | after a download the installation's disk is the sweep's, its calls are the download, the listing and the sweep's removals in order, and it succeeds with the binary exactly when the sweep does |
| Properties.DownloadSweeps | src/lib.rs:113-131 | after a download, the installation succeeds exactly when every entry reads; the version directory is never removed and stays listed; on success a removal was attempted for exactly the other listed entries |
| Properties.DownloadLeavesOnly | src/lib.rs:116-131 | after a successful download only the version directory and entries whose removal failed stay listed, no file of a removed entry remains, and when every file lay in a listed entry every remaining file lies in one of those |
| Properties.DownloadInstallsBinary | src/lib.rs:101-131 | an archive holding the binary at its expected place leaves it on disk after the cleanup |
| Properties.ResolveAgain | src/lib.rs:23-27 | after a success whose binary is on disk, a second resolution returns the same binary from the cache with only a file check |
| Properties.DownloadOnce | src/lib.rs:23-27 | a second resolution after a successful download returns the downloaded binary from the cache and does not download again |

## Left out

- The network and filesystem effects of `zed::latest_github_release`, `zed::download_file`, `fs::metadata`, `fs::read_dir` and `fs::remove_dir_all` are host and OS calls. The `World` class stands in for them: fixed answers plus state transitions on an abstract disk. The archive's contents are those the world gives for its URL, and the archive format is not interpreted.
- Error message wording. Only which error occurs is modelled.
- The language server id and the worktree are not modelled. The world holds the one worktree's settings and search path.
- `entry.file_name().to_str()`: entry names are plain strings. A name that is not valid UTF-8, which the code would remove, is outside the model.
- Paths are relative to the working directory. A file lies in the top-level entry before its first slash. A version containing a slash would give a version directory that is not a single entry. The lemmas that the fresh install survives the cleanup assume a slash-free version (`PlainVersion`).
- The status notices are recorded only as calls in the trace.
- The remaining extension members are host glue, not resolution logic. `language_server_initialization_options` and `language_server_workspace_configuration` are JSON passthroughs over the settings. `register_extension!` registers the extension with the host.
- A failed `download_file` or `remove_dir_all` may leave partial effects on the real disk (a partly unpacked archive, a partly removed directory). In the model such a failure changes nothing.
- Concurrent resolutions sharing one cache slot are not modelled. Each method runs to completion on one world.
