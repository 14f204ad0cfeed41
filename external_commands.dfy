/** Running a command that is not a builtin: resolving its name to a binary
    (a literal path when it contains `/`, else `./name`, else the directories
    of BINPATH in order) and turning the child's wait status into the shell's
    result. The file system and the process calls are given as values:
    `access(path, X_OK)` is membership in `executable`, `realpath` is a
    partial map, `getenv("BINPATH")` is an optional string, and what fork,
    exec and waitpid do is a `ChildRun`. */
module ExternalCommands {
  import opened Common

  /** PATH_MAX, the size of every path buffer. */
  const PATH_MAX: nat := 4096

  /** What the resolver can observe of the file system and the environment. */
  datatype FileSystem = FileSystem(
    executable: set<string>,
    realpath: map<string, string>,
    binpath: Option<string>)

  /** `snprintf(buf, PATH_MAX, ...)`: at most PATH_MAX - 1 characters are kept. */
  function ClipPath(s: string): (r: string)
    ensures |r| < PATH_MAX
    ensures IsPrefix(r, s)
    ensures |s| < PATH_MAX ==> r == s
  {
    if |s| < PATH_MAX then s else s[..PATH_MAX - 1]
  }

  // ---------------------------------------------------------------------------
  // Splitting BINPATH with strtok_r(..., ":", ...)

  /** The index of the first ':' in `s`, or `|s|` when there is none. */
  function ColonAt(s: string): (r: nat)
    ensures r <= |s|
    ensures forall j :: 0 <= j < r ==> s[j] != ':'
    ensures r < |s| ==> s[r] == ':'
  {
    if |s| == 0 || s[0] == ':' then 0 else 1 + ColonAt(s[1..])
  }

  /** One call of strtok_r: skip the leading colons, then take the text up to
      the next colon (or the end) as the token; the scan resumes after that
      colon. No token is left once only colons remain. */
  function Strtok(s: string): (r: (Option<string>, string))
    ensures r.0.Some? ==> |r.0.value| > 0 && ':' !in r.0.value && |r.1| < |s|
    ensures r.0.None? ==> r.1 == []
  {
    if |s| == 0 then (None, [])
    else if s[0] == ':' then Strtok(s[1..])
    else
      var e := ColonAt(s);
      (Some(s[..e]), if e < |s| then s[e + 1..] else [])
  }

  /** The directories BINPATH lists, as the strtok_r loop visits them. */
  function Segments(binpath: string): (r: seq<string>)
    ensures forall k :: 0 <= k < |r| ==> |r[k]| > 0 && ':' !in r[k]
    decreases |binpath|
  {
    var t := Strtok(binpath);
    if t.0.None? then [] else [t.0.value] + Segments(t.1)
  }

  /** The directories still to visit: the current token, then the rest. */
  function Pending(dir: Option<string>, rest: string): seq<string> {
    if dir.None? then [] else [dir.value] + Segments(rest)
  }

  /** Directories written out as a BINPATH value. */
  function JoinColon(dirs: seq<string>): string {
    if |dirs| == 0 then []
    else if |dirs| == 1 then dirs[0]
    else dirs[0] + ":" + JoinColon(dirs[1..])
  }

  /** A colon-free directory is read to its end. */
  lemma ColonAtWhole(d: string)
    requires ':' !in d
    ensures ColonAt(d) == |d|
  {
    assert forall j :: 0 <= j < |d| ==> d[j] in d;
  }

  /** A colon-free directory followed by a colon ends at that colon. */
  lemma ColonAtBefore(d: string, rest: string)
    requires ':' !in d
    requires |rest| > 0 && rest[0] == ':'
    ensures ColonAt(d + rest) == |d|
  {
    var s := d + rest;
    assert forall j :: 0 <= j < |d| ==> s[j] == d[j] && d[j] in d;
    assert s[|d|] == ':';
  }

  /** BINPATH written from non-empty directories without colons is split back
      into exactly those directories. */
  lemma {:induction false} SegmentsOfJoin(dirs: seq<string>)
    requires forall k :: 0 <= k < |dirs| ==> |dirs[k]| > 0 && ':' !in dirs[k]
    ensures Segments(JoinColon(dirs)) == dirs
  {
    if |dirs| == 0 {
    } else if |dirs| == 1 {
      var d := dirs[0];
      ColonAtWhole(d);
      assert Strtok(d) == (Some(d[..|d|]), []);
      assert d[..|d|] == d;
      assert Segments([]) == [];
    } else {
      var d := dirs[0];
      var tail := JoinColon(dirs[1..]);
      var s := d + ":" + tail;
      assert s == d + (":" + tail);
      ColonAtBefore(d, ":" + tail);
      assert s[..|d|] == d;
      assert s[|d| + 1..] == tail;
      assert Strtok(s) == (Some(d), tail);
      SegmentsOfJoin(dirs[1..]);
      assert dirs == [d] + dirs[1..];
    }
  }

  /** Empty segments are skipped: a colon in front of BINPATH changes nothing. */
  lemma LeadingColonSkipped(binpath: string)
    ensures Segments(":" + binpath) == Segments(binpath)
  {
    assert (":" + binpath)[1..] == binpath;
  }

  // ---------------------------------------------------------------------------
  // Resolution

  /** The path tried in directory `dir`: `snprintf("%s/%s", dir, command)`. */
  function Candidate(dir: string, command: string): string {
    ClipPath(dir + "/" + command)
  }

  /** The first directory holding an executable `command`, as its candidate
      path, or None when no directory does. */
  function FirstExecutable(dirs: seq<string>, command: string, executable: set<string>): (r: Option<string>)
    ensures r.Some? ==> r.value in executable
    ensures r.Some? ==> exists i :: 0 <= i < |dirs| && r.value == Candidate(dirs[i], command)
    ensures r.None? <==> forall i :: 0 <= i < |dirs| ==> Candidate(dirs[i], command) !in executable
  {
    if |dirs| == 0 then None
    else if Candidate(dirs[0], command) in executable then Some(Candidate(dirs[0], command))
    else
      var r := FirstExecutable(dirs[1..], command, executable);
      assert forall i :: 1 <= i < |dirs| ==> dirs[i] == dirs[1..][i - 1];
      r
  }

  /** BINPATH directories are tried in the order listed: the earliest directory
      holding an executable candidate wins. */
  lemma {:induction false} EarliestDirectoryWins(dirs: seq<string>, command: string, executable: set<string>, i: nat)
    requires i < |dirs| && Candidate(dirs[i], command) in executable
    requires forall j :: 0 <= j < i ==> Candidate(dirs[j], command) !in executable
    ensures FirstExecutable(dirs, command, executable) == Some(Candidate(dirs[i], command))
  {
    if i > 0 {
      EarliestDirectoryWins(dirs[1..], command, executable, i - 1);
    }
  }

  /** The resolver's answer: the resolved path, or None where the C function
      returns -1. A command that contains '/' is only tried as a literal path;
      otherwise `./command` is tried, and then BINPATH. Hits in the first two
      steps are canonicalised with realpath, a BINPATH hit is not. */
  function Resolve(command: Option<string>, haveBuffer: bool, fs: FileSystem): (r: Option<string>)
    ensures command.None? || !haveBuffer ==> r.None?
  {
    if command.None? || !haveBuffer then None
    else
      var cmd := command.value;
      if '/' in cmd then
        if cmd in fs.executable && cmd in fs.realpath then Some(fs.realpath[cmd]) else None
      else
        var local := ClipPath("./" + cmd);
        if local in fs.executable && local in fs.realpath then Some(fs.realpath[local])
        else if fs.binpath.None? then None
        else FirstExecutable(Segments(fs.binpath.value), cmd, fs.executable)
  }

  /** A name with a '/' depends only on that path: neither the current
      directory nor BINPATH is consulted, and a failure there is final. */
  lemma SlashMeansLiteralPath(cmd: string, fs: FileSystem, other: FileSystem)
    requires '/' in cmd
    requires cmd in fs.executable <==> cmd in other.executable
    requires fs.realpath == other.realpath
    ensures Resolve(Some(cmd), true, fs) == Resolve(Some(cmd), true, other)
    ensures Resolve(Some(cmd), true, fs).Some? <==> cmd in fs.executable && cmd in fs.realpath
  {
  }

  /** An executable `./command` wins over every BINPATH directory. */
  lemma CurrentDirectoryWins(cmd: string, fs: FileSystem)
    requires '/' !in cmd
    requires ClipPath("./" + cmd) in fs.executable && ClipPath("./" + cmd) in fs.realpath
    ensures Resolve(Some(cmd), true, fs) == Some(fs.realpath[ClipPath("./" + cmd)])
  {
  }

  /** Without a usable `./command` and without BINPATH the name is not found. */
  lemma NoBinpathNotFound(cmd: string, fs: FileSystem)
    requires '/' !in cmd
    requires !(ClipPath("./" + cmd) in fs.executable && ClipPath("./" + cmd) in fs.realpath)
    requires fs.binpath.None?
    ensures Resolve(Some(cmd), true, fs).None?
  {
  }

  /** Past the current directory, the answer is the first BINPATH directory
      with an executable candidate, returned as built (not canonicalised). */
  lemma BinpathSearch(cmd: string, fs: FileSystem, i: nat)
    requires '/' !in cmd
    requires !(ClipPath("./" + cmd) in fs.executable && ClipPath("./" + cmd) in fs.realpath)
    requires fs.binpath.Some?
    requires i < |Segments(fs.binpath.value)|
    requires Candidate(Segments(fs.binpath.value)[i], cmd) in fs.executable
    requires forall j :: 0 <= j < i ==> Candidate(Segments(fs.binpath.value)[j], cmd) !in fs.executable
    ensures Resolve(Some(cmd), true, fs) == Some(Candidate(Segments(fs.binpath.value)[i], cmd))
  {
    EarliestDirectoryWins(Segments(fs.binpath.value), cmd, fs.executable, i);
  }

  /** `myshell_resolve_binary_path`: the probes in order with early returns,
      and the strtok_r loop over BINPATH. */
  method ResolveBinaryPath(command: Option<string>, haveBuffer: bool, fs: FileSystem) returns (resolved: Option<string>)
    ensures resolved == Resolve(command, haveBuffer, fs)
  {
    if command.None? || !haveBuffer {
      return None;
    }
    var cmd := command.value;
    if '/' in cmd {
      if cmd in fs.executable && cmd in fs.realpath {
        return Some(fs.realpath[cmd]);
      }
      return None;
    }
    var local := ClipPath("./" + cmd);
    if local in fs.executable && local in fs.realpath {
      return Some(fs.realpath[local]);
    }
    if fs.binpath.None? {
      return None;
    }
    ghost var dirs := Segments(fs.binpath.value);
    var t := Strtok(fs.binpath.value);
    var dir, rest := t.0, t.1;
    while dir.Some?
      invariant FirstExecutable(Pending(dir, rest), cmd, fs.executable) == FirstExecutable(dirs, cmd, fs.executable)
      decreases |rest| + (if dir.Some? then 1 else 0)
    {
      var path := Candidate(dir.value, cmd);
      if path in fs.executable {
        return Some(path);
      }
      assert Pending(dir, rest)[1..] == Segments(rest);
      t := Strtok(rest);
      dir, rest := t.0, t.1;
    }
    return None;
  }

  // ---------------------------------------------------------------------------
  // Running the child and classifying its status

  newtype byte = x: int | 0 <= x < 256

  /** WTERMSIG of a signalled child: 1 through 126 (0 means exited, 127 stopped). */
  type SignalNumber = s: int | 1 <= s <= 126 witness 1

  /** What waitpid reports about the child. */
  datatype WaitStatus =
    | Exited(code: byte)          // WIFEXITED, with WEXITSTATUS
    | Signaled(sig: SignalNumber) // WIFSIGNALED, with WTERMSIG
    | Neither                     // any other status

  /** What fork, execv and waitpid do for one resolved command. */
  datatype ChildRun =
    | ForkFails
    | ExecFails           // execv returns in the child, which then exits with 127
    | WaitFails
    | Waited(status: WaitStatus)

  /** The exit code a command not found by execv reports. */
  const EXEC_FAILURE_CODE: byte := 127

  /** The status case split of `myshell_execute_external_command`. */
  function StatusResult(status: WaitStatus): (r: int)
    ensures status.Exited? ==> 0 <= r < 256
    ensures status.Signaled? ==> 128 < r < 255
    ensures status.Neither? ==> r == -1
    ensures status.Exited? ==> r == status.code as int
    ensures status.Signaled? ==> r == 128 + status.sig
  {
    match status
    case Exited(code) => code as int
    case Signaled(sig) => 128 + sig
    case Neither => -1
  }

  /** The status the parent sees for a child. */
  function Observed(run: ChildRun): Option<WaitStatus> {
    match run
    case ForkFails => None
    case WaitFails => None
    case ExecFails => Some(Exited(EXEC_FAILURE_CODE))
    case Waited(status) => Some(status)
  }

  /** The result of `myshell_execute_external_command(argv)`, where `argv0` is
      `argv[0]` (None for a NULL pointer). */
  function ExternalResult(argv0: Option<string>, fs: FileSystem, run: ChildRun): (r: int)
    ensures -1 <= r < 256
    ensures argv0.None? || Resolve(argv0, true, fs).None? ==> r == -1
    ensures run.ForkFails? || run.WaitFails? ==> r == -1
  {
    if argv0.None? then -1
    else if Resolve(argv0, true, fs).None? then -1
    else if Observed(run).None? then -1
    else StatusResult(Observed(run).value)
  }

  /** -1 means: no name, a name not found, a failed fork or waitpid, or a
      status that is neither an exit nor a signal. Every other result is an
      exit code or 128 plus a signal number. */
  lemma ExternalFailsIff(argv0: Option<string>, fs: FileSystem, run: ChildRun)
    ensures ExternalResult(argv0, fs, run) < 0 <==>
      argv0.None? || Resolve(argv0, true, fs).None? || run.ForkFails? || run.WaitFails?
      || (run.Waited? && run.status.Neither?)
    ensures ExternalResult(argv0, fs, run) >= 0 ==>
      run.ExecFails? || (run.Waited? && (run.status.Exited? || run.status.Signaled?))
  {
  }

  /** A resolved binary that execv cannot start gives 127. */
  lemma ExecFailureIs127(argv0: Option<string>, fs: FileSystem)
    requires Resolve(argv0, true, fs).Some?
    ensures ExternalResult(argv0, fs, ExecFails) == 127
  {
  }

  /** The result does not tell an exit from a signal: exit code 130 and signal
      2 both give 130, and a child that exits with 127 looks like a failed exec. */
  lemma ResultsOverlap()
    ensures StatusResult(Exited(130)) == StatusResult(Signaled(2)) == 130
    ensures Observed(Waited(Exited(127))) == Observed(ExecFails)
  {
  }

  /** `myshell_execute_external_command`: resolve, fork, wait, classify. */
  method ExecuteExternal(argv0: Option<string>, fs: FileSystem, run: ChildRun) returns (result: int)
    ensures result == ExternalResult(argv0, fs, run)
    ensures result < 0 ==> result == -1
  {
    if argv0.None? {
      return -1;
    }
    var resolved := ResolveBinaryPath(argv0, true, fs);
    if resolved.None? {
      return -1;
    }
    if run.ForkFails? {
      return -1;
    }
    var status: WaitStatus;
    if run.ExecFails? {
      status := Exited(EXEC_FAILURE_CODE);
    } else if run.WaitFails? {
      return -1;
    } else {
      status := run.status;
    }
    match status {
      case Exited(code) => result := code as int;
      case Signaled(sig) => result := 128 + sig;
      case Neither => result := -1;
    }
  }
}
