# plex-update: a Dafny model of the update decision

plex-update.py installs or updates Plex Media Server on a Debian system. It is
run with one argument, the platform (`amd64` or `armhf`). It reads `info.ini`,
fetches the Plex catalog from the URL stored there, and takes the builds at
fixed catalog positions (1 for amd64, 3 for armhf). For each platform it
compares the stored checksum with the catalog's. When they differ it stores the
catalog's checksum and url, and if that platform is the chosen one it downloads
the `.deb` and runs `gdebi` on it, through `sudo` when not root. Finally it writes
`info.ini` back.

The project models that decision and the strings it builds:

- `base.dfy` (module `Base`): `Option`, `Result`, and the two Python exceptions
  of the script that the model covers (`KeyError`, `IndexError`).
- `ini.dfy` (module `Ini`): the part of ConfigParser the script uses. A lookup
  falls back to DEFAULT and raises KeyError when the section or option is
  missing. `Config` is the configuration object that the script updates in place.
- `selection.dfy` (module `Selection`): the argument check and the fixed-position
  selection of the two builds from the decoded catalog.
- `installer.dfy` (module `Installer`): the package path and the gdebi command
  line built by `install_plex`, each with a parser that reads its parts back.
- `update.dfy` (module `Update`): the two refresh blocks of `main` as
  specification functions (`RefreshRecord`, `Step`) and as methods over `Config`
  (`RefreshPlatform`, `UpdateStep`), with the lemmas about them.
- `run.dfy` (module `Run`): a whole run of `main`, as a function (`Run`) and as a
  method over `Config` (`RunMain`).

The model follows the script as written. A checksum is the only change
signal; versions are never compared. Both records are refreshed whatever the
choice. The configuration is written whenever the run does not crash, and the
installer's exit status is never looked at. There is no dry-run or download-only
mode, no digest check of the downloaded file, and no withholding of the write
after a failed install.

Environment inputs are parameters: the command line `argv`, the parsed
`info.ini`, the decoded catalog served at the configured URL, the effective uid,
and the script's directory `pathname`. Effects are results: the catalog URL
fetched, the install actions (download url, package file, command), and the
configuration written.

Two edge cases come straight from the code. First, a missing `amd64` or `armhf`
section, or a missing `checksum` option with no DEFAULT fallback, raises
KeyError; nothing is written then. If the KeyError is in the armhf block, the
amd64 block has already run, and may already have installed. Second, a catalog
with fewer than four releases raises IndexError before any record is touched.

## Model

| member | source | states |
|---|---|---|
| `Ini.Get` | plex-update.py:61 | `config[section][option]`: KeyError(section) for a missing section; the section's own value, else DEFAULT's; KeyError(option), never KeyError(section), when the section exists (or is DEFAULT) and the option is in neither |
| `Ini.Set` | plex-update.py:62-63 | after `config[s][o] = v` section s itself holds o = v and that lookup gives v; every other lookup, DEFAULT, the section names, the other sections and the section's other options are unchanged |
| `Ini.Config.constructor` | plex-update.py:40-41 | the configuration object holds exactly the parsed file |
| `Ini.Config.Lookup` | plex-update.py:61 | the lookup on the object agrees with `Get` on its state |
| `Ini.Config.Assign` | plex-update.py:62-63 | the object's new state is `Set` of its old state |
| `Selection.ParseChoice` | plex-update.py:42-47 | the run goes on exactly when argv[1] exists and is `amd64` or `armhf`; the platform returned is the one named |
| `Selection.Select` | plex-update.py:52-59 | selection succeeds exactly when there are at least 4 releases; amd64 is releases[1] and armhf is releases[3]; otherwise IndexError at the first missing position (1, then 3) |
| `Installer.DebPath` | plex-update.py:25 | no contract of its own; `DebPathRoundTrip` and `DebPathInjective` state its format and uniqueness |
| `Installer.InstallCommand` | plex-update.py:28-30 | no contract of its own; `InstallCommandMeaning` states its sudo prefix and its target |
| `Installer.DebPathRoundTrip` | plex-update.py:25 | the package file is `pathname/plexmediaserver_<version>_<choice>.deb`: parsing it gives back exactly the version and platform |
| `Installer.DebPathInjective` | plex-update.py:25 | different version or platform gives a different package file |
| `Installer.InstallCommandMeaning` | plex-update.py:28-30 | the command starts with `sudo ` exactly when the effective uid is not 0, and the file it hands to `gdebi "…" --n` is exactly the package file |
| `Installer.InstallPlex` | plex-update.py:24-33 | an install downloads the release url into the package file named after version and platform, and runs gdebi on that file, through sudo exactly when not root |
| `Update.RefreshRecord` | plex-update.py:61-63 | a missing record raises its KeyError; the block fires exactly when the stored checksum differs; if it does not fire the configuration is unchanged; if it fires the section itself holds the catalog checksum and url (not merely through DEFAULT); nothing else changes |
| `Update.Step` | plex-update.py:61-70 | no contract of its own; its properties are stated by `StepFailure`, `StepKeepsUnchangedRecord`, `StepRefreshesChangedRecord`, `StepRecordsIgnoreChoice`, `StepInstallDecision`, `StepFrame` and `StepIdempotent` |
| `Update.InstallFor` | plex-update.py:64-70 | no contract of its own; `StepInstallDecision` states which install it contributes: only for the chosen platform, only when its block fired |
| `Update.StepFailure` | plex-update.py:61-66 | the step raises exactly when either record's checksum lookup fails; a failure in the amd64 block leaves everything unchanged and installs nothing |
| `Update.StepKeepsUnchangedRecord` | plex-update.py:61-70 | a platform whose stored checksum equals the catalog's keeps its whole section, and no install is requested for it |
| `Update.StepRefreshesChangedRecord` | plex-update.py:61-68 | a platform whose block runs with a different stored checksum ends with the catalog's checksum and url stored in its own section |
| `Update.StepRecordsIgnoreChoice` | plex-update.py:61-70 | the resulting configuration and failure are the same whichever platform is chosen |
| `Update.StepInstallDecision` | plex-update.py:61-70 | at most one install; there is one exactly when the chosen platform's block runs and its stored checksum differs; it is for the chosen platform, with its catalog url and the catalog version |
| `Update.StepFrame` | plex-update.py:61-68 | only the checksum and url of the amd64 and armhf sections may change |
| `Update.StepIdempotent` | plex-update.py:61-70 | a second step on the in-memory result with the same catalog changes nothing, installs nothing, and raises the same failure (a rerun of the script is `RunIdempotent`) |
| `Update.RefreshPlatform` | plex-update.py:61-63 | the in-place block leaves the object in the state `RefreshRecord` gives, or unchanged on KeyError |
| `Update.UpdateStep` | plex-update.py:61-70 | the in-place update leaves the object in the state `Step` gives, and returns its installs and failure |
| `Run.Run` | plex-update.py:38-72 | no contract of its own; `RunRejectsBadArgument`, `RunFetchesConfiguredCatalog`, `RunInstallsChosenBuild`, `RunPersistence` and `RunIdempotent` state its properties |
| `Run.Perform` | plex-update.py:64-70 | no contract of its own; `RunInstallsChosenBuild` states the single `install_plex` call a run makes |
| `Run.Exit.Status` | plex-update.py:19-20 | exit status 0 exactly for a normal end, and 1 for `myhelp` and for uncaught exceptions |
| `Run.RunRejectsBadArgument` | plex-update.py:42-47 | the run ends in `myhelp` exactly when the argument is missing or not a platform name; then nothing is fetched, installed or written |
| `Run.RunFetchesConfiguredCatalog` | plex-update.py:49-50 | the catalog is fetched exactly when the argument is valid and DEFAULT holds `plexJSONurl`, and from that URL |
| `Run.RunInstallsChosenBuild` | plex-update.py:54-70 | at most one install per run; it installs the chosen platform's build at its fixed catalog position, under the catalog version, and only when its stored checksum differed; conversely a valid run with at least 4 releases that reaches the chosen block with a differing checksum does install |
| `Run.RunPersistence` | plex-update.py:71-72 | info.ini is written exactly when the run ends normally, with the updated configuration; what is written does not depend on the installer |
| `Run.RunIdempotent` | plex-update.py:38-72 | rerunning on what was written, with the same catalog, installs nothing and writes the same configuration |
| `Run.RunMain` | plex-update.py:38-72 | the in-place run returns what `Run` gives, and leaves the object in the final configuration |

## Left out

- HTTP fetch and JSON decoding (lines 49-50): I/O. The catalog is an input,
  already reduced to its version and each release's url and checksum. A document
  missing those keys, or a fetch failure, is not modelled.
- Reading and writing info.ini (lines 39-41, 71-72): file I/O and INI syntax. The
  file is given as a parsed `Ini`, and writing never fails.
- ConfigParser's `%`-interpolation and its lower-casing of option names. Values
  are assumed free of `%`, and option names are stored lower-cased, so
  `plexJSONurl` is looked up as `plexjsonurl`.
- Ini.Get: a missing option raises KeyError with the lower-cased name
  (`plexjsonurl`), while ConfigParser reports the caller's spelling
  (`plexJSONurl`). The exit status and the state are the same.
- Run.RunIdempotent: the second run starts from the `Ini` value written, not from
  info.ini read back. ConfigParser's read is not the inverse of its write for
  every value: it strips surrounding whitespace and splits values that contain
  newlines. For such a catalog checksum the real second run would see a
  different stored checksum, refresh the record again and reinstall.
- Exceptions other than KeyError and IndexError: urllib and JSON errors (lines
  49-50), TypeError from storing a non-string catalog value (lines 62-63),
  OSError from the download or the write (lines 27, 71), and ConfigParser's
  parse errors from `config.read` (line 41). A malformed info.ini is not
  modelled: it raises before the argument check, so such a run ends with a
  traceback even for a bad argument, where `RunRejectsBadArgument` gives `myhelp`.
- Downloading (line 27), running the installer (line 33) and removing the
  package file (lines 34-35): process and filesystem effects. They appear only as
  `InstallAction` values. A failed download, which would crash the run before the
  write, is not modelled.
- `os.geteuid()` and the derivation of `pathname` from `__file__` (lines 17, 29):
  environment queries, passed in as parameters.
- The messages printed (lines 26, 31-32, 60): logging only.
- Shell quoting: a `"` in the version or path would change the meaning of the
  command string. The model treats the command as a string and gives it no
  shell meaning.
