/**
  The command builder of blaupause's `src/app.rs`: three user toggles and a
  source and target directory become the name of a platform copy tool and
  its ordered argument vector. The source picks one of two builders with
  `#[cfg(target_os = ...)]`; here the platform is an explicit parameter so
  that both builders, and the Linux-only rsync flag, live side by side.
*/
module App {
  import opened Wrappers
  import opened Paths

  /** The operating systems the program is built for. */
  datatype Platform = Linux | MacOS | Windows {
    /** The rsync builder is compiled for Linux and macOS. */
    predicate IsPosix() {
      Linux? || MacOS?
    }
  }

  /** The three checkboxes of the window: archive, delete and validate. */
  datatype CopyOptions = CopyOptions(archive: bool, delete: bool, validate: bool)

  /** What the copy button launches: a program name and its arguments. */
  datatype ResolvedCommand = ResolvedCommand(executable: string, arguments: seq<string>)

  const Rsync: string := "rsync"
  const Robocopy: string := "ROBOCOPY"

  /** `native_copy_command`: the tool each platform runs. */
  function NativeCopyCommand(os: Platform): (command: string)
    ensures command == Rsync <==> os.IsPosix()
    ensures command == Robocopy <==> os.Windows?
  {
    if os.Windows? then Robocopy else Rsync
  }

  // rsync flags: human-readable, recursive, links, verbose, progress, whole files.
  const RsyncBaseFlags: seq<string> := ["-h", "-r", "-l", "-v", "-P", "-W"]
  /** Appended to the first flag by the archive toggle, turning "-h" into "-ha". */
  const ArchiveFlagLetter: char := 'a'
  const ArchivedFirstFlag: string := "-ha"
  /** Time-remaining progress, added on Linux only. */
  const InfoProgress: string := "--info=progress2"
  const DeleteDuring: string := "--delete-during"
  const Checksum: string := "--checksum"

  /** One for a toggle that is set, zero otherwise: how many elements it adds to a vector. */
  function OneIf(b: bool): (n: nat) {
    if b then 1 else 0
  }

  /**
    The POSIX `native_copy_args`: the base flags, "--info=progress2" on
    Linux, the archive letter appended to the first flag in place, then
    "--delete-during" and "--checksum" if requested, then source and target.
  */
  function RsyncArgs(os: Platform, opts: CopyOptions, source: string, target: string): (args: seq<string>)
    requires os.IsPosix()
    ensures |args| == |RsyncBaseFlags| + OneIf(os.Linux?) + OneIf(opts.delete) + OneIf(opts.validate) + 2
    ensures args[|args| - 2] == source && args[|args| - 1] == target
    ensures args[0] == if opts.archive then ArchivedFirstFlag else RsyncBaseFlags[0]
    ensures args[1..|RsyncBaseFlags|] == RsyncBaseFlags[1..]
  {
    var v := RsyncBaseFlags;
    var v := if os.Linux? then v + [InfoProgress] else v;
    var v := if opts.archive then v[0 := v[0] + [ArchiveFlagLetter]] else v;
    var v := if opts.delete then v + [DeleteDuring] else v;
    var v := if opts.validate then v + [Checksum] else v;
    v + [source, target]
  }

  // ROBOCOPY switches: subdirectories incl. empty, ETA, two threads, no retries, verbose.
  const RobocopyBaseFlags: seq<string> := ["/E", "/ETA", "/MT:2", "/R:0", "/V"]
  const CopyAll: string := "/COPYALL"
  const Purge: string := "/PURGE"
  /** The directory name used when the source path has no final component. */
  const DefaultDirName: string := "copy"

  /**
    The directory created under the target: the source's final component,
    or "copy" when it has none. ROBOCOPY copies the contents of the source,
    so the builder names this directory itself to keep "/PURGE" from
    clearing the whole target.
  */
  function SourceDirName(source: string): (name: string)
    ensures IsNormal(name)
    ensures FileName(source).Some? ==> name == FileName(source).value
    ensures FileName(source).None? ==> name == DefaultDirName
  {
    FileName(source).GetOr(DefaultDirName)
  }

  /**
    The Windows `native_copy_args`: source, the target joined with the
    source's directory name, the five base switches, then "/COPYALL" and
    "/PURGE" if requested. The validate toggle is ignored.
  */
  function RobocopyArgs(opts: CopyOptions, source: string, target: string): (args: seq<string>)
    ensures |args| == 2 + |RobocopyBaseFlags| + OneIf(opts.archive) + OneIf(opts.delete)
    ensures args[0] == source
    ensures args[2..2 + |RobocopyBaseFlags|] == RobocopyBaseFlags
  {
    var v := [source];
    var newTarget := Some(Join(target, SourceDirName(source)));
    var v := v + [StringFromBuffer(newTarget)];
    var v := v + RobocopyBaseFlags;
    var v := if opts.archive then v + [CopyAll] else v;
    var v := if opts.delete then v + [Purge] else v;
    v
  }

  /** `native_copy_args` for the platform it was built for. */
  function NativeCopyArgs(os: Platform, opts: CopyOptions, source: string, target: string): (args: seq<string>)
    ensures |args| >= 7
    ensures os.IsPosix() ==> args[|args| - 2..] == [source, target]
    ensures os.Windows? ==> args[0] == source
    ensures os.Windows? ==> args[1] == Join(target, SourceDirName(source))
  {
    if os.Windows? then
      RobocopyArgs(opts, source, target)
    else
      RsyncArgs(os, opts, source, target)
  }

  /**
    The command the copy button prepares. Each tool gets its own argument
    layout: rsync takes the paths last, ROBOCOPY takes the source and the
    rewritten target first.
  */
  function Resolve(os: Platform, opts: CopyOptions, source: string, target: string): (cmd: ResolvedCommand)
    ensures cmd.executable == Rsync <==> os.IsPosix()
    ensures cmd.executable == Robocopy <==> os.Windows?
    ensures |cmd.arguments| >= 7
    ensures cmd.executable == Rsync ==> cmd.arguments[|cmd.arguments| - 2..] == [source, target]
    ensures cmd.executable == Robocopy ==>
              cmd.arguments[0] == source && cmd.arguments[1] == Join(target, SourceDirName(source))
  {
    ResolvedCommand(NativeCopyCommand(os), NativeCopyArgs(os, opts, source, target))
  }

  /**
    The guard around the copy button: a command is prepared only when both
    the source and the target are existing directories. The filesystem
    query `is_existing_directory` is the parameter `isDirectory`.
  */
  function CopyRequest(os: Platform, opts: CopyOptions, source: string, target: string,
                       isDirectory: string -> bool): (r: Option<ResolvedCommand>)
    ensures r.Some? <==> isDirectory(source) && isDirectory(target)
    ensures r.Some? ==> r.value.executable == NativeCopyCommand(os)
    ensures r.Some? ==> r.value.arguments == NativeCopyArgs(os, opts, source, target)
  {
    if isDirectory(source) && isDirectory(target) then Some(Resolve(os, opts, source, target)) else None
  }
}
