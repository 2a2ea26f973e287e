/**
  Properties of the command builder: what each toggle adds, where it lands
  in the argument vector, and which toggles leave the vector unchanged.
*/
module AppProperties {
  import opened Wrappers
  import opened Seqs
  import opened Paths
  import opened App

  /** The flag part of an rsync argument vector: everything before source and target. */
  function RsyncFlags(os: Platform, opts: CopyOptions, source: string, target: string): (flags: seq<string>)
    requires os.IsPosix()
    ensures |flags| == |RsyncBaseFlags| + OneIf(os.Linux?) + OneIf(opts.delete) + OneIf(opts.validate)
    ensures RsyncArgs(os, opts, source, target) == flags + [source, target]
  {
    var args := RsyncArgs(os, opts, source, target);
    assert args == args[..|args| - 2] + [source, target];
    args[..|args| - 2]
  }

  /** The rsync flags that do not depend on delete or validate. */
  function RsyncLeadingFlags(os: Platform, archive: bool): (lead: seq<string>) {
    var v := if os.Linux? then RsyncBaseFlags + [InfoProgress] else RsyncBaseFlags;
    if archive then v[0 := ArchivedFirstFlag] else v
  }

  /** A flag pushed only when its toggle is set. */
  function Optional(b: bool, flag: string): (v: seq<string>) {
    if b then [flag] else []
  }

  /**
    In a vector laid out as leading flags and then two optional flags, each
    optional flag that the leading flags do not hold occurs once if it was
    requested and never otherwise.
  */
  lemma {:induction false} CountOptionalFlags(lead: seq<string>, b1: bool, f1: string, b2: bool, f2: string)
    requires f1 != f2
    ensures f1 !in lead ==> Count(lead + Optional(b1, f1) + Optional(b2, f2), f1) == OneIf(b1)
    ensures f2 !in lead ==> Count(lead + Optional(b1, f1) + Optional(b2, f2), f2) == OneIf(b2)
  {
    CountConcat(lead, Optional(b1, f1), f1);
    CountConcat(lead + Optional(b1, f1), Optional(b2, f2), f1);
    CountConcat(lead, Optional(b1, f1), f2);
    CountConcat(lead + Optional(b1, f1), Optional(b2, f2), f2);
  }

  /**
    In the same layout, an occurrence of the first optional flag always
    precedes an occurrence of the second.
  */
  lemma OptionalFlagsOrdered(lead: seq<string>, b1: bool, f1: string, b2: bool, f2: string)
    requires f1 != f2 && f1 !in lead && f2 !in lead
    ensures var flags := lead + Optional(b1, f1) + Optional(b2, f2);
            forall i, j :: 0 <= i < |flags| && 0 <= j < |flags| && flags[i] == f1 && flags[j] == f2 ==> i < j
  {
    var flags := lead + Optional(b1, f1) + Optional(b2, f2);
    assert forall i :: 0 <= i < |lead| ==> flags[i] == lead[i];
  }

  /** The rsync flags are the leading flags, then the optional delete and checksum flags. */
  lemma RsyncFlagsLayout(os: Platform, opts: CopyOptions, source: string, target: string)
    requires os.IsPosix()
    ensures RsyncFlags(os, opts, source, target)
         == RsyncLeadingFlags(os, opts.archive) + Optional(opts.delete, DeleteDuring) + Optional(opts.validate, Checksum)
  {
    assert RsyncBaseFlags[0] + [ArchiveFlagLetter] == ArchivedFirstFlag;
    var flags := RsyncFlags(os, opts, source, target);
    var expected := RsyncLeadingFlags(os, opts.archive) + Optional(opts.delete, DeleteDuring) + Optional(opts.validate, Checksum);
    assert flags + [source, target] == expected + [source, target];
    assert flags == (flags + [source, target])[..|flags|];
    assert expected == (expected + [source, target])[..|expected|];
  }

  /** None of the leading flags is "--delete-during" or "--checksum". */
  lemma RsyncLeadingFlagsExclude(os: Platform, archive: bool)
    ensures DeleteDuring !in RsyncLeadingFlags(os, archive)
    ensures Checksum !in RsyncLeadingFlags(os, archive)
    ensures InfoProgress in RsyncLeadingFlags(os, archive) <==> os.Linux?
  {
    var first := if archive then ArchivedFirstFlag else RsyncBaseFlags[0];
    var tail := if os.Linux? then [InfoProgress] else [];
    assert RsyncLeadingFlags(os, archive) == [first] + RsyncBaseFlags[1..] + tail;
  }

  /**
    The archive toggle only turns the first flag "-h" into "-ha": the length
    and every other element of the rsync argument vector stay the same.
  */
  lemma RsyncArchiveOnlyChangesFirstFlag(os: Platform, opts: CopyOptions, source: string, target: string)
    requires os.IsPosix()
    ensures var on := RsyncArgs(os, opts.(archive := true), source, target);
            var off := RsyncArgs(os, opts.(archive := false), source, target);
            && |on| == |off|
            && on[0] == ArchivedFirstFlag && off[0] == RsyncBaseFlags[0]
            && forall i :: 1 <= i < |on| ==> on[i] == off[i]
  {
  }

  /** "--delete-during" is among the rsync flags exactly once if delete is set, never otherwise. */
  lemma RsyncDeleteFlag(os: Platform, opts: CopyOptions, source: string, target: string)
    requires os.IsPosix()
    ensures var flags := RsyncFlags(os, opts, source, target);
            && Count(flags, DeleteDuring) == OneIf(opts.delete)
            && (opts.delete ==> flags[|RsyncBaseFlags| + OneIf(os.Linux?)] == DeleteDuring)
  {
    RsyncFlagsLayout(os, opts, source, target);
    RsyncLeadingFlagsExclude(os, opts.archive);
    CountOptionalFlags(RsyncLeadingFlags(os, opts.archive), opts.delete, DeleteDuring, opts.validate, Checksum);
  }

  /** "--checksum" is among the rsync flags exactly once if validate is set, as the last flag, never otherwise. */
  lemma RsyncChecksumFlag(os: Platform, opts: CopyOptions, source: string, target: string)
    requires os.IsPosix()
    ensures var flags := RsyncFlags(os, opts, source, target);
            && Count(flags, Checksum) == OneIf(opts.validate)
            && (opts.validate ==> Last(flags) == Checksum)
  {
    RsyncFlagsLayout(os, opts, source, target);
    RsyncLeadingFlagsExclude(os, opts.archive);
    CountOptionalFlags(RsyncLeadingFlags(os, opts.archive), opts.delete, DeleteDuring, opts.validate, Checksum);
  }

  /** Wherever "--delete-during" and "--checksum" both occur among the rsync flags, delete comes first. */
  lemma RsyncDeleteBeforeChecksum(os: Platform, opts: CopyOptions, source: string, target: string)
    requires os.IsPosix()
    ensures var flags := RsyncFlags(os, opts, source, target);
            forall i, j :: 0 <= i < |flags| && 0 <= j < |flags| && flags[i] == DeleteDuring && flags[j] == Checksum ==> i < j
  {
    RsyncFlagsLayout(os, opts, source, target);
    RsyncLeadingFlagsExclude(os, opts.archive);
    OptionalFlagsOrdered(RsyncLeadingFlags(os, opts.archive), opts.delete, DeleteDuring, opts.validate, Checksum);
  }

  /** "--info=progress2" is the seventh argument on Linux and absent from the flags on macOS. */
  lemma RsyncInfoProgress(os: Platform, opts: CopyOptions, source: string, target: string)
    requires os.IsPosix()
    ensures os.Linux? ==> RsyncArgs(os, opts, source, target)[6] == InfoProgress
    ensures InfoProgress in RsyncFlags(os, opts, source, target) <==> os.Linux?
  {
    RsyncFlagsLayout(os, opts, source, target);
    RsyncLeadingFlagsExclude(os, opts.archive);
  }

  /**
    The second ROBOCOPY argument is the target joined with the source's
    final component, or with "copy" when the source has none; it starts
    with the target and its own file name is that directory name.
  */
  lemma RobocopyTarget(opts: CopyOptions, source: string, target: string)
    ensures var args := RobocopyArgs(opts, source, target);
            && args[1] == Join(target, SourceDirName(source))
            && args[1][..|target|] == target
            && (FileName(source).Some? ==> FileName(args[1]) == FileName(source))
            && (FileName(source).None? ==> FileName(args[1]) == Some(DefaultDirName))
  {
    FileNameOfJoin(target, SourceDirName(source));
  }

  /** The switches that follow the two ROBOCOPY paths. */
  function RobocopyFlags(opts: CopyOptions, source: string, target: string): (flags: seq<string>)
    ensures RobocopyArgs(opts, source, target) == [source, Join(target, SourceDirName(source))] + flags
    ensures flags[..|RobocopyBaseFlags|] == RobocopyBaseFlags
  {
    RobocopyArgs(opts, source, target)[2..]
  }

  /** The ROBOCOPY switches are the base switches, then the optional "/COPYALL" and "/PURGE". */
  lemma RobocopyFlagsLayout(opts: CopyOptions, source: string, target: string)
    ensures RobocopyFlags(opts, source, target)
         == RobocopyBaseFlags + Optional(opts.archive, CopyAll) + Optional(opts.delete, Purge)
  {
    var args := RobocopyArgs(opts, source, target);
    var head := [source, Join(target, SourceDirName(source))];
    var expected := RobocopyBaseFlags + Optional(opts.archive, CopyAll) + Optional(opts.delete, Purge);
    assert args == head + expected;
    assert args[2..] == expected;
  }

  /** "/COPYALL" is among the switches exactly once when archive is set and never otherwise; likewise "/PURGE" with delete. */
  lemma RobocopyOptionalSwitches(opts: CopyOptions, source: string, target: string)
    ensures var flags := RobocopyFlags(opts, source, target);
            && Count(flags, CopyAll) == OneIf(opts.archive)
            && Count(flags, Purge) == OneIf(opts.delete)
  {
    RobocopyFlagsLayout(opts, source, target);
    assert CopyAll !in RobocopyBaseFlags && Purge !in RobocopyBaseFlags;
    CountOptionalFlags(RobocopyBaseFlags, opts.archive, CopyAll, opts.delete, Purge);
  }

  /** Wherever "/COPYALL" and "/PURGE" both occur among the switches, "/COPYALL" comes first. */
  lemma RobocopyCopyAllBeforePurge(opts: CopyOptions, source: string, target: string)
    ensures var flags := RobocopyFlags(opts, source, target);
            forall i, j :: 0 <= i < |flags| && 0 <= j < |flags| && flags[i] == CopyAll && flags[j] == Purge ==> i < j
  {
    RobocopyFlagsLayout(opts, source, target);
    assert CopyAll !in RobocopyBaseFlags && Purge !in RobocopyBaseFlags;
    OptionalFlagsOrdered(RobocopyBaseFlags, opts.archive, CopyAll, opts.delete, Purge);
  }

  /**
    The Windows builder ignores the validate toggle: both settings give the
    same arguments, and no switch is ever "--checksum".
  */
  lemma RobocopyIgnoresValidate(opts: CopyOptions, source: string, target: string)
    ensures NativeCopyArgs(Windows, opts.(validate := true), source, target)
         == NativeCopyArgs(Windows, opts.(validate := false), source, target)
    ensures Checksum !in RobocopyFlags(opts, source, target)
  {
    RobocopyFlagsLayout(opts, source, target);
  }

  /** All toggles on, on Linux: the archive letter joins the first flag, then delete, checksum, source, target. */
  lemma LinuxAllTogglesExample()
    ensures Resolve(Linux, CopyOptions(true, true, true), "/data/in", "/data/out")
         == ResolvedCommand("rsync", ["-ha", "-r", "-l", "-v", "-P", "-W", "--info=progress2",
                                      "--delete-during", "--checksum", "/data/in", "/data/out"])
  {
    assert RsyncBaseFlags[0] + [ArchiveFlagLetter] == ArchivedFirstFlag;
  }

  /** The same toggles on macOS: no "--info=progress2". */
  lemma MacOSAllTogglesExample()
    ensures Resolve(MacOS, CopyOptions(true, true, true), "/data/in", "/data/out")
         == ResolvedCommand("rsync", ["-ha", "-r", "-l", "-v", "-P", "-W",
                                      "--delete-during", "--checksum", "/data/in", "/data/out"])
  {
    assert RsyncBaseFlags[0] + [ArchiveFlagLetter] == ArchivedFirstFlag;
  }

  /** On Windows the source's last component is appended to the target with a backslash. */
  lemma WindowsExample()
    ensures var args := RobocopyArgs(CopyOptions(true, true, true), "/a/b/proj", "/x/y");
            && args[0] == "/a/b/proj"
            && args[1] == "/x/y\\proj"
            && args[2..] == ["/E", "/ETA", "/MT:2", "/R:0", "/V", "/COPYALL", "/PURGE"]
  {
    var opts := CopyOptions(true, true, true);
    WindowsExampleTarget();
    RobocopyTarget(opts, "/a/b/proj", "/x/y");
    WindowsExampleSwitches();
  }

  /** The switches of `WindowsExample`. */
  lemma WindowsExampleSwitches()
    ensures RobocopyFlags(CopyOptions(true, true, true), "/a/b/proj", "/x/y")
         == ["/E", "/ETA", "/MT:2", "/R:0", "/V", "/COPYALL", "/PURGE"]
  {
    RobocopyFlagsLayout(CopyOptions(true, true, true), "/a/b/proj", "/x/y");
  }

  /** The target rewrite of `WindowsExample`: "proj" is taken from the source and joined to "/x/y". */
  lemma WindowsExampleTarget()
    ensures SourceDirName("/a/b/proj") == "proj"
    ensures Join("/x/y", SourceDirName("/a/b/proj")) == "/x/y\\proj"
  {
    assert "/a/b/proj" == "/a/b" + ['/'] + "proj";
    FileNameAfterSeparator("/a/b", '/', "proj");
    JoinExample();
  }

  /** Joining on Windows inserts a backslash, even after a target written with slashes. */
  lemma JoinExample()
    ensures Join("/x/y", "proj") == "/x/y\\proj"
  {
    assert Last("/x/y") == 'y';
  }

  /** A root source has no final component, so the target gains a directory named "copy". */
  lemma WindowsRootSourceExample()
    ensures RobocopyArgs(CopyOptions(false, false, false), "\\", "D:\\backup")[1] == "D:\\backup\\copy"
  {
    FileNameOfRoot("\\");
  }
}
