# blaupause copy-command builder in Dafny

blaupause is a small desktop front end that copies a source directory into
a target directory by launching the platform's own copy tool: `rsync` on
Linux and macOS, `ROBOCOPY` on Windows. Three checkboxes choose the copy
mode: *archive* (keep metadata), *delete* (remove surplus target files,
turning the copy into a one-way sync) and *validate* (compare files by
checksum). This project models the part of `src/app.rs` that turns those
toggles and the two directory strings into a program name and an ordered
argument vector, and proves where each toggle's flag lands.

The source selects its builder with `#[cfg(target_os = ...)]`. Here the
platform is an explicit value `Platform = Linux | MacOS | Windows`, so both
builders and the Linux-only `--info=progress2` flag are verified side by
side.

Modules:

- `Wrappers` (`wrappers.dfy`): `Option`, standing for Rust's `Option`.
- `Seqs` (`seqs.dfy`): `Last`, and `Count`, the number of occurrences of a value in a sequence.
- `Paths` (`paths.dfy`): a simplified stand-in for `Path::file_name`, `Path::join` and `Path::display`.
  It follows the Windows rules, because only the ROBOCOPY builder looks inside paths.
  A path splits into components at `/` or `\`, and empty and `.` segments are dropped.
  The file name is the last component unless it is `..` or there is none.
  Joining inserts `\` unless the base is empty or already ends in a separator, as `PathBuf::push` does.
- `App` (`app.dfy`): the platform, the options, `native_copy_command`, both `native_copy_args`
  builders, the resolved command, and the guard around the copy button.
- `AppProperties` (`app_properties.dfy`): lemmas on flag counts, positions, order and ignored toggles, plus worked examples.

Every builder is a pure function, so building twice from the same inputs
gives the same command by construction.

## Model

| member | source | states |
|---|---|---|
| `Paths.StringFromBuffer` | src/app.rs:194-199 | An absent path buffer displays as the empty string; a present one displays as the path itself. |
| `Paths.Components` | src/app.rs:261-263 | Every component of a path is non-empty, free of separators and not `.`; `..` is kept so that it can block a file name. |
| `Paths.FileName` | src/app.rs:261-263 | A file name, when there is one, is a normal component: non-empty, free of separators, and neither `.` nor `..`. |
| `Paths.Join` | src/app.rs:264 | The joined path starts with the base and ends with the joined name. Exactly one character is added, the Windows separator `\`, and only when the base is non-empty and does not already end in a separator. |
| `Paths.ComponentsOfJoin` | src/app.rs:264 | Joining a component onto any base appends exactly that component to the base's components. |
| `Paths.FileNameOfJoin` | src/app.rs:261-265 | Round trip: the file name of `base` joined with a normal name is that name. |
| `Paths.FileNameAfterSeparator` | src/app.rs:261-263 | A final normal component is the file name, whichever separator (`/` or `\`) precedes it. |
| `Paths.FileNameIgnoresTrailingSeparator` | src/app.rs:261-263 | A trailing separator does not change the file name. |
| `Paths.FileNameOfParent` | src/app.rs:261-263 | A path ending in `..` has no file name, so the builder falls back to `copy`. |
| `Paths.FileNameOfRoot` | src/app.rs:261-263 | A path made only of separators has no components and no file name. |
| `App.NativeCopyCommand` | src/app.rs:206-247 | The tool is `rsync` exactly on Linux and macOS and `ROBOCOPY` exactly on Windows. |
| `App.RsyncArgs` | src/app.rs:211-242 | rsync gets 6 base flags, plus one per Linux, delete and validate, plus 2 paths. The last two are source then target. Element 0 is `-ha` with archive and `-h` without. Elements 1 to 5 are the base flags unchanged. |
| `App.SourceDirName` | src/app.rs:261-263 | The directory created under the target is the source's file name, or `copy` when the source has none; it is always a normal component. |
| `App.RobocopyArgs` | src/app.rs:249-279 | ROBOCOPY gets 2 paths, 5 base switches, plus one each for archive and delete. The source comes first, then the fixed switches `/E /ETA /MT:2 /R:0 /V` at positions 2 to 6. |
| `App.NativeCopyArgs` | src/app.rs:211-279 | On POSIX the vector ends with `[source, target]`. On Windows it starts with the source, followed by the target joined with the source's directory name. |
| `App.Resolve` | src/app.rs:142-149 | Each tool gets its own layout. The tool is `rsync` exactly on POSIX, and its arguments then end with `[source, target]`. It is `ROBOCOPY` exactly on Windows, and its arguments then start with the source and the target joined with the source's directory name. |
| `App.CopyRequest` | src/app.rs:135-149 | A command is prepared exactly when both source and target are existing directories. It is then that platform's tool and arguments. |
| `AppProperties.RsyncFlags` | src/app.rs:219-238 | The rsync vector is its flags followed by exactly `[source, target]`. The flag count is 6 plus one per Linux, delete and validate. |
| `AppProperties.RsyncFlagsLayout` | src/app.rs:219-238 | The rsync flags are the leading flags, then `--delete-during` if delete is set, then `--checksum` if validate is set. |
| `AppProperties.RsyncArchiveOnlyChangesFirstFlag` | src/app.rs:219-232 | Archive changes only element 0, from `-h` to `-ha`. Length and every other element are the same as without archive. |
| `AppProperties.RsyncDeleteFlag` | src/app.rs:233-235 | Among the rsync flags, `--delete-during` occurs once if delete is set and never otherwise. It sits right after the base flags and the Linux progress flag. |
| `AppProperties.RsyncChecksumFlag` | src/app.rs:236-238 | Among the rsync flags, `--checksum` occurs once if validate is set, as the last flag, and never otherwise. |
| `AppProperties.RsyncDeleteBeforeChecksum` | src/app.rs:233-238 | Whenever both occur among the rsync flags, `--delete-during` precedes `--checksum`. |
| `AppProperties.RsyncInfoProgress` | src/app.rs:227-229 | On Linux `--info=progress2` is at index 6. It is among the flags exactly when the platform is Linux. |
| `AppProperties.RobocopyTarget` | src/app.rs:258-265 | The second ROBOCOPY argument is the target joined with the source's directory name, and it starts with the target. Its file name is the source's file name, or `copy` when the source has none. |
| `AppProperties.RobocopyFlags` | src/app.rs:257-276 | The ROBOCOPY vector is the source, then the target joined with the source's directory name, then the switches. The switches begin with the five base switches. |
| `AppProperties.RobocopyFlagsLayout` | src/app.rs:266-276 | The switches are the base switches, then `/COPYALL` if archive is set, then `/PURGE` if delete is set. |
| `AppProperties.RobocopyOptionalSwitches` | src/app.rs:271-276 | `/COPYALL` occurs once among the switches exactly when archive is set, and never otherwise. `/PURGE` behaves the same way with delete. |
| `AppProperties.RobocopyCopyAllBeforePurge` | src/app.rs:271-276 | Whenever both occur, `/COPYALL` precedes `/PURGE`. |
| `AppProperties.RobocopyIgnoresValidate` | src/app.rs:249-278 | On Windows the validate toggle leaves the arguments unchanged, and no switch is `--checksum`. |
| `AppProperties.LinuxAllTogglesExample` | src/app.rs:206-241 | With all toggles on, Linux gives `rsync -ha -r -l -v -P -W --info=progress2 --delete-during --checksum /data/in /data/out`. |
| `AppProperties.MacOSAllTogglesExample` | src/app.rs:206-241 | The same toggles on macOS give the same vector without `--info=progress2`. |
| `AppProperties.WindowsExample` | src/app.rs:244-278 | With all toggles on, source `/a/b/proj` and target `/x/y` give the vector `/a/b/proj /x/y\proj /E /ETA /MT:2 /R:0 /V /COPYALL /PURGE`. |
| `AppProperties.WindowsRootSourceExample` | src/app.rs:261-265 | A root source `\` has no final component, so target `D:\backup` becomes `D:\backup\copy`. |

## Left out

- The egui/eframe window in `BlaupauseApp::update`, `Default`/`new`, and `src/main.rs`. These are presentation and window setup.
- `get_folder_with_label`: a native folder-picker dialog.
- The window disables the validate checkbox on Windows (`is_unix`). That is presentation; the Windows builder ignores the toggle anyway.
- `is_existing_directory`: a filesystem query. It is the function parameter `isDirectory` of `App.CopyRequest`, so its answer is an input.
- Launching the tool: the `which` lookup, `Command::spawn`, the `expect` on spawn failure and `wait`. This is external process I/O with no checkable content. `CopyRequest` stops at the prepared command.
- The `println!`/`eprintln!` logging of the command line.
- Paths.FileName: does not model Windows drive or UNC prefixes (`C:`, `\\server\share`) or verbatim paths; a prefix is read as an ordinary component, so for example `C:\` is given the file name `C:`, where Rust gives none.
- Paths.Join: does not model the case where Rust's `PathBuf::push` adds no separator after a bare drive prefix such as `C:`, nor joining an absolute path, which the builder never does because a file name is never absolute.
- Paths.StringFromBuffer: paths are strings, so `display()` is the identity. The lossy replacement of ill-formed UTF-16 is not modelled.
- The archive toggle on Windows adds only `/COPYALL`, as the code does. No separate directory-attribute switch (`/DCOPY`) is added.
- Joining uses the Windows separator `\`, so source `/a/b/proj` and target `/x/y` give `/x/y\proj`, not `/x/y/proj`; the model follows the code.
