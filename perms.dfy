/** The decision logic of set_perms (easypath/main.py:532-577): the POSIX
    mode word and the Windows `icacls` invocations. Running `chmod` or
    `icacls` is not part of this model. */
module Perms {

  /** stat.S_IRUSR | stat.S_IRGRP | stat.S_IROTH, that is 0o444. */
  const ReadBits: bv16 := 0x124
  /** stat.S_IWUSR | stat.S_IWGRP | stat.S_IWOTH, that is 0o222. */
  const WriteBits: bv16 := 0x92
  /** stat.S_IXUSR | stat.S_IXGRP | stat.S_IXOTH, that is 0o111. */
  const ExecBits: bv16 := 0x49

  /** The mode word: the three permission groups of the flags that are set. */
  function ModeOf(read: bool, write: bool, execute: bool): bv16 {
    (if read then ReadBits else 0) | (if write then WriteBits else 0) | (if execute then ExecBits else 0)
  }

  /** The POSIX branch: the mode is built up one flag at a time. */
  method PosixMode(read: bool, write: bool, execute: bool) returns (mode: bv16)
    ensures mode == ModeOf(read, write, execute)
    ensures mode & ReadBits == (if read then ReadBits else 0)
    ensures mode & WriteBits == (if write then WriteBits else 0)
    ensures mode & ExecBits == (if execute then ExecBits else 0)
    ensures mode as int <= 0x1FF
  {
    mode := 0;
    if read {
      mode := mode | ReadBits;
    }
    if write {
      mode := mode | WriteBits;
    }
    if execute {
      mode := mode | ExecBits;
    }
  }

  /** The mode is within 0o777, is 0 exactly when no flag is set, and
      determines the flags: the POSIX mapping loses nothing. */
  lemma ModeLossless(r1: bool, w1: bool, x1: bool, r2: bool, w2: bool, x2: bool)
    ensures ModeOf(r1, w1, x1) as int <= 0x1FF
    ensures ModeOf(r1, w1, x1) == 0 <==> !r1 && !w1 && !x1
    ensures ModeOf(r1, w1, x1) == ModeOf(r2, w2, x2) ==> r1 == r2 && w1 == w2 && x1 == x2
  {
  }

  /** The grant levels of `icacls`: (F)ull, (M)odify, (R)ead, (W)rite. */
  datatype Level = Full | Modify | Read | Write

  /** The Windows branch: deny everything, or grant one level. */
  datatype AclPlan = DenyEveryone | Grant(level: Level)

  function LevelCode(l: Level): string {
    match l
    case Full => "F"
    case Modify => "M"
    case Read => "R"
    case Write => "W"
  }

  /** The Windows mapping of the (read, write, execute) triple. */
  function AclPlanOf(read: bool, write: bool, execute: bool): (p: AclPlan)
    ensures p == DenyEveryone <==> !read && !write && !execute
    ensures p == Grant(Full) <==> read && write && execute
    ensures p == Grant(Modify) <==> read && write && !execute
    ensures p == Grant(Read) <==> (read && !write) || (!read && !write && execute)
    ensures p == Grant(Write) <==> !read && write
  {
    if !read && !write && !execute then DenyEveryone
    else if read && write && execute then Grant(Full)
    else if read && write then Grant(Modify)
    else if read then Grant(Read)
    else if write then Grant(Write)
    else Grant(Read)
  }

  /** The Windows mapping is lossy: read alone and execute alone give the
      same grant, and without read the execute flag is dropped. */
  lemma AclLossy()
    ensures AclPlanOf(true, false, false) == AclPlanOf(false, false, true)
    ensures AclPlanOf(true, false, true) == AclPlanOf(true, false, false)
    ensures AclPlanOf(false, true, true) == AclPlanOf(false, true, false)
  {
  }

  /** The `icacls` command lines: a deny runs on its own; a grant first
      removes any deny entry for everyone, then replaces the grants. */
  function IcaclsCommands(target: string, p: AclPlan): (cmds: seq<seq<string>>)
    ensures |cmds| >= 1 && forall i :: 0 <= i < |cmds| ==> |cmds[i]| == 4 && cmds[i][0] == "icacls" && cmds[i][1] == target
    ensures p.DenyEveryone? <==> |cmds| == 1
    ensures p.Grant? ==> cmds[0][2] == "/remove:d" && cmds[|cmds| - 1][3] == "everyone:(" + LevelCode(p.level) + ")"
  {
    match p
    case DenyEveryone => [["icacls", target, "/deny", "everyone:(F)"]]
    case Grant(l) =>
      [["icacls", target, "/remove:d", "everyone"],
       ["icacls", target, "/grant:r", "everyone:(" + LevelCode(l) + ")"]]
  }

  /** What set_perms does to the target. */
  datatype PermsAction = TargetMissing | Chmod(mode: bv16) | RunIcacls(commands: seq<seq<string>>)

  /** set_perms: nothing for a missing target; otherwise the branch chosen by
      `platform.system()`. `targetExists` stands for `target.exists()`. */
  method SetPerms(targetExists: bool, system: string, target: string, read: bool, write: bool, execute: bool)
    returns (action: PermsAction)
    ensures !targetExists <==> action == TargetMissing
    ensures targetExists && system == "Windows" ==>
      action == RunIcacls(IcaclsCommands(target, AclPlanOf(read, write, execute)))
    ensures targetExists && system != "Windows" ==> action == Chmod(ModeOf(read, write, execute))
  {
    if !targetExists {
      return TargetMissing;
    }
    if system == "Windows" {
      action := RunIcacls(IcaclsCommands(target, AclPlanOf(read, write, execute)));
    } else {
      var mode := PosixMode(read, write, execute);
      action := Chmod(mode);
    }
  }
}
