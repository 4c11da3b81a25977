# SDK installation page — Dafny model

This project models the SDK file manager behind the lane-assist tool's "SDK
installation" settings page (`Pages/sdk_installation.py`). The page finds the
game installations (Euro Truck Simulator 2 and American Truck Simulator) and
the version detected for each. For every version, a catalog names the plugin
DLLs (the "SDK") that must be in the game's `bin\win_x64\plugins` folder. The
page checks whether those files are present, copies them in or removes them,
and lets the user add a game directory by hand.

The model is functional. The filesystem is an immutable value: a set of
directory paths and a set of file paths. Each action is a pure function that
returns the new filesystem together with how the action ended. The modules
follow the parts of the source file:

- `Common` (common.dfy): `Option`, duplicate-freedom, and Python's `list.index` (`IndexOf`).
- `Paths` (paths.dfy): paths are built by plain string concatenation, as the code builds them: `game + "\bin\win_x64\plugins" + "\" + file`. Also the ancestor folders that `os.makedirs` creates.
- `Files` (files.dfy): `FileSystem`, `os.path.exists`, `os.makedirs(..., exist_ok=True)`, and when a write or a removal succeeds.
- `Catalog` (catalog.dfy): builds the version → file-list catalog from the asset folder listings (lines 15-19), and `GetFilesForVersion`.
- `InstallStatus` (status.dfy): `CheckIfInstalled` in simple and detailed mode.
- `Processes` (processes.dfy): `IsGameRunning` as a check over a list of process names.
- `SdkPage` (sdk_page.dfy): the two parallel lists `games` / `game_versions`, plus `InstallSDK`, `UninstallSDK`, `AddGame`, `CanContinue`, and the `not_supported` / `is_installed` flags that `render` derives.
- `SdkProperties` (sdk_properties.dfy): facts that relate several calls: idempotence, the install/uninstall round trip, and the converse of each action's guard.

Inputs from the environment become parameters:

- the asset folder listings are an `AssetListing`;
- the detected version of a hand-picked directory is `AddGame`'s `detected` argument;
- the running processes are a `seq<Option<string>>`, where `None` is a process that exited before its name could be read;
- `locked` holds the paths the operating system refuses to write or delete because a running game holds them open.

A filesystem error aborts the rest of the file list. The model keeps that:
`CopyFiles` and `RemoveFiles` report how many files they handled before
stopping.

Behaviours of the code worth knowing, all modelled as written:

- For a version missing from the catalog, simple `CheckIfInstalled` is false when the plugin folder is missing (lines 40-42) and true when it exists (lines 49-60). See `InstallStatus.EmptySetInstalledIffFolder`.
- `InstallSDK` and `UninstallSDK` skip only the literal version `"Unknown"` (lines 85, 108). For any other version missing from the catalog, `InstallSDK` creates a missing plugin folder and reports success without copying anything (`SdkProperties.UnsupportedInstallCreatesFolder`). `render` never offers the install button for such a version (lines 167-169, 192-195).
- A catalog entry whose folder holds only `sources.txt` has an empty file list. `render` shows such a game as installed even when its plugin folder is missing, while `CheckIfInstalled` says it is not (`SdkPage.RenderInstalledIff`, `SdkPage.RenderEmptySetShownInstalled`).
- `os.remove` raises on a file that is already gone, which aborts the removal loop (line 117). The model aborts too.

## Model

| member | source | states |
|---|---|---|
| `Common.IndexOf` | Pages/sdk_installation.py:19 | `list.index`: the result holds `x` and no earlier position does |
| `Catalog.RemoveFirst` | Pages/sdk_installation.py:19 | `pop(index("sources.txt"))` drops exactly the entry at the first `sources.txt`. Earlier entries stay in place and none of them is `sources.txt`; later entries move down by one |
| `Catalog.RemovedFirstAtIndex` | Pages/sdk_installation.py:19 | a first-occurrence removal always happens at the position `list.index` reports |
| `Catalog.RemovedFirstUnique` | Pages/sdk_installation.py:15-19 | a listing determines its file list: only one list is the listing minus its first `sources.txt` |
| `Catalog.RemoveFirstNoDuplicates` | Pages/sdk_installation.py:18-19 | from a duplicate-free listing, the file list is duplicate-free and contains no `sources.txt` |
| `Catalog.BuildCatalog` | Pages/sdk_installation.py:15-19 | a catalog exists iff every version folder has a `sources.txt`; it has one key per version folder, and each list is that folder's listing without its first `sources.txt`, other entries in order |
| `Catalog.BuildCatalogWellFormed` | Pages/sdk_installation.py:15-19 | duplicate-free folder listings give a catalog whose lists are duplicate-free and free of `sources.txt` |
| `Catalog.FilesForBuiltVersion` | Pages/sdk_installation.py:15-36 | `GetFilesForVersion` on a built catalog: the empty list for a version without an asset folder; otherwise that folder's listing minus its first `sources.txt` |
| `Paths.PluginDir` | Pages/sdk_installation.py:92 | the plugin folder is the game root followed by `\bin\win_x64\plugins` (`target_path`, line 13) |
| `Paths.PluginFile` | Pages/sdk_installation.py:96 | a target file is the plugin folder, a `\`, then the file name |
| `Paths.Ancestors` | Pages/sdk_installation.py:92 | the folders `makedirs` creates or checks for a path: exactly the path itself and each non-empty prefix of it that is followed by a `\` |
| `Paths.PluginFileInjective` | Pages/sdk_installation.py:96 | different file names go to different target paths in the plugin folder |
| `Paths.PluginFileNotAncestor` | Pages/sdk_installation.py:92-96 | no target file path is the plugin folder or one of the folders `makedirs` creates |
| `Paths.PluginDirInAncestors` | Pages/sdk_installation.py:92 | `makedirs` creates the plugin folder itself |
| `Files.MakeDirs` | Pages/sdk_installation.py:92 | `makedirs(exist_ok=True)` fails iff some folder on the path is an existing file. Otherwise it adds exactly those folders, leaves files unchanged, and makes no path both a file and a folder |
| `Files.MakeDirsIdempotent` | Pages/sdk_installation.py:92 | with `exist_ok=True`, a second `makedirs` changes nothing |
| `Files.Exists` | Pages/sdk_installation.py:40-51 | `os.path.exists`: true for an existing folder as well as for an existing file |
| `Files.Writable` | Pages/sdk_installation.py:96 | `open(..., "wb")` succeeds unless the path is an existing folder or is held open by another process |
| `Files.Removable` | Pages/sdk_installation.py:117 | `os.remove` succeeds only on an existing file that no other process holds open |
| `InstallStatus.Scan` | Pages/sdk_installation.py:49-62 | the file loop: simple mode is true iff every remaining file exists; detailed mode adds exactly those files to the report, each mapped to whether it exists |
| `InstallStatus.CheckIfInstalled` | Pages/sdk_installation.py:38-62 | simple mode: true iff the plugin folder exists and every file of the set exists under it. Detailed mode: keys are exactly the file set, each true iff the folder and that file exist |
| `InstallStatus.IsInstalled` | Pages/sdk_installation.py:38 | the default `detailed=False` call: true iff the plugin folder exists and every file of the set exists under it |
| `InstallStatus.SimpleAgreesWithDetailed` | Pages/sdk_installation.py:38-62 | simple mode is true iff the folder exists and every detailed entry is true |
| `InstallStatus.MissingFolderNothingInstalled` | Pages/sdk_installation.py:40-47 | without the plugin folder: simple mode is false even for an empty set, and every detailed entry is false, one per file |
| `InstallStatus.EmptySetInstalledIffFolder` | Pages/sdk_installation.py:49-60 | with an empty file set, the report is empty and simple mode is true iff the folder exists |
| `Processes.IsSubstring` | Pages/sdk_installation.py:26 | Python `in` on strings: true iff the fragment occurs at some position of the name |
| `Processes.IsGameRunning` | Pages/sdk_installation.py:21-31 | true iff some readable process name contains `amtrucks` or `eurotrucks2`; processes that exited never match |
| `SdkPage.CopyFiles` | Pages/sdk_installation.py:93-97 | the copy loop writes a prefix of the list, every file of it writable, and stops exactly at the first unwritable target; only those targets are added |
| `SdkPage.RemoveFiles` | Pages/sdk_installation.py:115-117 | the removal loop removes a prefix of the list: each entry an unlocked existing file, no name repeated (a repeat is already gone). It stops at the first target it cannot remove, and folders are untouched |
| `SdkPage.VersionOf` | Pages/sdk_installation.py:84 | `game_versions[games.index(game)]`: the version paired with the first occurrence of the game in `games` |
| `SdkPage.InstallSDK` | Pages/sdk_installation.py:83-104 | no change for `"Unknown"` or an already installed game. Otherwise only the target files and the plugin folder's ancestors are added. A completed run adds all of them, and simple `CheckIfInstalled` is then true |
| `SdkPage.UninstallSDK` | Pages/sdk_installation.py:106-124 | no change for `"Unknown"` or a game that is not installed. Otherwise only target files are removed, and no folder. A completed run removes all of them, and none then exists |
| `SdkPage.AddGame` | Pages/sdk_installation.py:126-136 | `"Unknown"` leaves both lists unchanged. Otherwise the path and the version are appended at the same new index. The lists stay aligned and only grow |
| `SdkPage.AddGameLookup` | Pages/sdk_installation.py:128-135 | after adding, a new path is looked up with its detected version, and a game already listed keeps its first-index version |
| `SdkPage.InstalledFrom` | Pages/sdk_installation.py:71-75 | the loop from position `k`: true iff some later game is installed for its first-index version |
| `SdkPage.CanContinue` | Pages/sdk_installation.py:70-75 | true iff some listed game is installed (simple mode) for the version at that game's first index |
| `SdkPage.RenderRow` | Pages/sdk_installation.py:164-178 | a version is unsupported iff it is not in the catalog; an unsupported version is never shown as installed |
| `SdkPage.RenderInstalledIff` | Pages/sdk_installation.py:164-178 | shown installed iff the version is supported and either its file list is empty or simple `CheckIfInstalled` is true |
| `SdkPage.RenderEmptySetShownInstalled` | Pages/sdk_installation.py:167-178 | for any supported version with an empty file list and no plugin folder: shown installed, while `CheckIfInstalled` is false |
| `SdkProperties.CopyFilesRepeat` | Pages/sdk_installation.py:94-97 | running the copy loop again over its own result changes nothing |
| `SdkProperties.CopyAllSucceeds` | Pages/sdk_installation.py:94-97 | with every target writable, the copy loop handles the whole list |
| `SdkProperties.RemoveAllSucceeds` | Pages/sdk_installation.py:116-117 | with distinct names whose targets are all unlocked files, the removal loop handles the whole list |
| `SdkProperties.InstallIdempotent` | Pages/sdk_installation.py:90-97 | installing twice leaves the same filesystem as installing once, even after a failed first run |
| `SdkProperties.UninstallIdempotent` | Pages/sdk_installation.py:113-117 | uninstalling twice leaves the same filesystem as uninstalling once |
| `SdkProperties.InstallCompletes` | Pages/sdk_installation.py:84-97 | a known, not yet installed version completes when the folder can be created and every target is writable |
| `SdkProperties.UninstallCompletes` | Pages/sdk_installation.py:107-117 | an installed set of distinct names, all of them unlocked files, uninstalls completely |
| `SdkProperties.InstallThenUninstall` | Pages/sdk_installation.py:90-117 | after a completed install, uninstall completes. The result is the original filesystem plus the created folders, minus the file set, and no file of the set is present |
| `SdkProperties.DetailedAfterInstallAndUninstall` | Pages/sdk_installation.py:44-62 | after a completed install every detailed entry is true; after a completed uninstall every one is false |
| `SdkProperties.InstallEnablesContinue` | Pages/sdk_installation.py:70-97 | a completed install makes `CanContinue` true |
| `SdkProperties.UnsupportedInstallCreatesFolder` | Pages/sdk_installation.py:84-99 | a detected version missing from the catalog still completes: a missing plugin folder is created and no file is copied |

## Left out

- `Plugins/Map/ui.py`: settings toggles over a settings store that is not part of this model, float formatting, and calls into the map data and road helper modules. It is UI composition, not file-management logic.
- Widget layout, styles, tooltips, translation keys and button choice in `render` (lines 144-247). Only the `not_supported` / `is_installed` derivation is modelled, in `SdkPage.RenderRow`. The "no games" branch and the `zip` over both lists are not modelled either.
- `OpenSources` and `OpenPath` (lines 77-81, 138-142). They only hand a path to the operating system's default handler.
- `SendPopup` messages and logging. The `Outcome` value stands for which popup (success or error) or log line the source emits.
- psutil process enumeration. `IsGameRunning` takes the list of names as an argument. A name read once per process stands for the two `p.name()` calls per process.
- The directory dialog, game discovery (`FindSCSGames`) and version detection (`GetVersionForGame`). Their results are arguments.
- File contents and reads from the asset folder. A copy only makes the target exist. Reading an asset file is assumed to succeed.
- Path normalisation and Windows case-insensitivity. Paths are compared as exact strings.
- `games.index(game)` for a path that is not listed raises `ValueError` outside the `try`. `InstallSDK` and `UninstallSDK` require the game to be listed, as the page's buttons guarantee.
- The import-time `os.listdir` on the asset folder. The folder listings are an argument, keyed by version. A plain file directly in the asset folder would make the inner `os.listdir` raise. The model assumes the folder holds only version folders.
- Files.MakeDirs: fails only when a folder on the path is an existing file. `os.makedirs` can also raise when the operating system refuses to create a folder (no permission, an invalid or too long path). The model has no such refusal for folders.
- SdkPage.CopyFiles: a failed write creates nothing. In the code, `open(..., "wb")` creates or truncates the target before the asset is read and written (lines 95-97). A read or write error after that open leaves an empty target that `CheckIfInstalled` counts as present, so a later `InstallSDK` may skip the game as already installed. File contents are not modelled, so neither is this partial file.
- `SdkPage.UninstallSDK`: its contract does not say when a run completes. The converse is stated separately, for duplicate-free file lists, in `SdkProperties.UninstallCompletes`.
