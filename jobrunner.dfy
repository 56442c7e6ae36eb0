/** The job runner: runs a job's commands one after another, never stopping at a
    failure, writes a structured log, and returns the outcome of the last command.
    The shell is an input: `outcomes[i]` is what running `commands[i]` produced.
    The log file is the sequence of entries appended to it; timestamps and the
    commands' own output are not modelled. */
module JobRunner {
  import opened Wrappers
  import Config

  /** An exit code the shell reports as an exit error: never 0, since a zero
      exit is a success (a process killed by a signal reports -1). */
  type FailureCode = c: int | c != 0 witness 1

  /** What `sh -c command` produced: success, an exit error with its code, or
      another error (the shell could not be started, for instance). */
  datatype Outcome = Ok | Exited(code: FailureCode) | OtherError

  datatype LogEntry =
    | StartBanner                                          // "=== Ejecución iniciada: <time> ==="
    | CommandMarker(index: nat, total: nat, command: string) // "[Comando i/n] cmd"
    | OkLine                                               // "[OK] ..."
    | ExitCodeLine(code: int)                              // "[ERROR] ... código de salida: code"
    | ErrorLine                                            // "[ERROR] Error ejecutando comando: ..."
    | EndBanner(code: int)                                 // "=== Ejecución finalizada: <time> (código: code) ==="

  /** The file-system facts the runner depends on. */
  datatype Host = Host(home: Option<string>, logsDirCreated: bool, logFileOpened: bool)

  /** Whether the log file can be opened: the precondition of running any command. */
  predicate CanLog(host: Host) {
    host.home.Some? && host.logsDirCreated && host.logFileOpened
  }

  /** Run-level errors: no command is run. */
  datatype RunError = NoLogsDir | LogsDirNotCreated | LogFileNotOpened

  /** The code a single command contributes. */
  function CodeOf(o: Outcome): int {
    match o
    case Ok => 0
    case Exited(c) => c
    case OtherError => 1
  }

  /** The aggregate code: that of the last command; 0 for an empty list. */
  function LastCode(outcomes: seq<Outcome>): (code: int)
    ensures code == 0 <==> outcomes == [] || outcomes[|outcomes| - 1] == Ok
    ensures outcomes != [] && outcomes[|outcomes| - 1] == OtherError ==> code == 1
  {
    if outcomes == [] then 0 else CodeOf(outcomes[|outcomes| - 1])
  }

  /** The line written after a command has run. */
  function OutcomeLine(o: Outcome): LogEntry {
    match o
    case Ok => OkLine
    case Exited(c) => ExitCodeLine(c)
    case OtherError => ErrorLine
  }

  /** Marker and outcome line of each command, in order; `total` is the command count. */
  function CommandEntries(commands: seq<string>, outcomes: seq<Outcome>, total: nat): seq<LogEntry>
    requires |outcomes| == |commands|
  {
    if commands == [] then []
    else
      var n := |commands| - 1;
      CommandEntries(commands[..n], outcomes[..n], total)
        + [CommandMarker(n + 1, total, commands[n]), OutcomeLine(outcomes[n])]
  }

  /** Everything one successful-start run appends to the job's log. */
  function RunLog(commands: seq<string>, outcomes: seq<Outcome>): seq<LogEntry>
    requires |outcomes| == |commands|
  {
    [StartBanner] + CommandEntries(commands, outcomes, |commands|) + [EndBanner(LastCode(outcomes))]
  }

  /** One step of the run: the entries and the code after one more command. */
  lemma {:induction false} RunStep(commands: seq<string>, outcomes: seq<Outcome>, i: nat, total: nat)
    requires |outcomes| == |commands| && i < |commands|
    ensures CommandEntries(commands[..i + 1], outcomes[..i + 1], total) ==
              CommandEntries(commands[..i], outcomes[..i], total)
                + [CommandMarker(i + 1, total, commands[i]), OutcomeLine(outcomes[i])]
    ensures LastCode(outcomes[..i + 1]) == CodeOf(outcomes[i])
  {
    assert commands[..i + 1][..i] == commands[..i];
    assert outcomes[..i + 1][..i] == outcomes[..i];
  }

  /** The log file of a job: `<logs dir>/<name>.log`. */
  function GetLogPath(home: Option<string>, jobName: string): (r: Result<string, Config.ConfigError>)
    ensures r.Failure? <==> home.None?
    ensures home.Some? && home.value != [] && home.value[|home.value| - 1] != '/' ==>
              r == Success(home.value + "/.config/orgmcron/logs/" + jobName + ".log")
  {
    match Config.GetLogsDir(home)
    case Failure(e) => Failure(e)
    case Success(dir) =>
      assert home.Some? && home.value != [] && home.value[|home.value| - 1] != '/' ==>
        dir[|dir| - 1] == 's' && dir + "/" + (jobName + ".log") == home.value + "/.config/orgmcron/logs/" + jobName + ".log";
      Success(Config.PathJoin(dir, jobName + ".log"))
  }

  /** The command loop of a run: every command runs once, in order, whatever
      the earlier ones did; each gets its marker and one outcome line, and the
      code is that of the last command. */
  method RunCommands(commands: seq<string>, outcomes: seq<Outcome>)
    returns (lastExitCode: int, entries: seq<LogEntry>, executed: seq<string>)
    requires |outcomes| == |commands|
    ensures executed == commands
    ensures lastExitCode == LastCode(outcomes)
    ensures entries == CommandEntries(commands, outcomes, |commands|)
  {
    var n := |commands|;
    lastExitCode, entries, executed := 0, [], [];
    var i := 0;
    while i < n
      invariant 0 <= i <= n
      invariant executed == commands[..i]
      invariant lastExitCode == LastCode(outcomes[..i])
      invariant entries == CommandEntries(commands[..i], outcomes[..i], n)
    {
      RunStep(commands, outcomes, i, n);
      ghost var before := entries;
      entries := entries + [CommandMarker(i + 1, n, commands[i])];
      executed := executed + [commands[i]];
      match outcomes[i] {
        case Exited(c) =>
          lastExitCode := c;
          entries := entries + [ExitCodeLine(c)];
        case OtherError =>
          lastExitCode := 1;
          entries := entries + [ErrorLine];
        case Ok =>
          lastExitCode := 0;
          entries := entries + [OkLine];
      }
      assert entries == before + [CommandMarker(i + 1, n, commands[i]), OutcomeLine(outcomes[i])];
      assert commands[..i + 1] == commands[..i] + [commands[i]];
      i := i + 1;
    }
    assert commands[..n] == commands && outcomes[..n] == outcomes;
  }

  /** Execute: a run-level error (no logs dir, cannot create it, cannot open the
      log file) returns code 1 and runs nothing. Otherwise every command runs once,
      in order, whatever the earlier ones did; the code is the last command's and
      the run itself reports no error. `logFile` is the file written to. */
  method Execute(job: Config.Job, pingKey: string, host: Host, outcomes: seq<Outcome>)
    returns (code: int, err: Option<RunError>, log: seq<LogEntry>, executed: seq<string>, logFile: string)
    requires |outcomes| == |job.commands|
    ensures host.home.None? ==> err == Some(NoLogsDir)
    ensures host.home.Some? && !host.logsDirCreated ==> err == Some(LogsDirNotCreated)
    ensures host.home.Some? && host.logsDirCreated && !host.logFileOpened ==> err == Some(LogFileNotOpened)
    ensures err.None? <==> CanLog(host)
    ensures err.Some? ==> code == 1 && log == [] && executed == []
    ensures err.None? ==> executed == job.commands
    ensures err.None? ==> code == LastCode(outcomes)
    ensures err.None? ==> log == RunLog(job.commands, outcomes)
    ensures err.None? ==> GetLogPath(host.home, job.name) == Success(logFile)
  {
    log, executed, logFile := [], [], "";
    var logsDir := Config.GetLogsDir(host.home);
    if logsDir.Failure? {
      return 1, Some(NoLogsDir), log, executed, logFile;
    }
    if !host.logsDirCreated {
      return 1, Some(LogsDirNotCreated), log, executed, logFile;
    }
    logFile := Config.PathJoin(logsDir.value, job.name + ".log");
    if !host.logFileOpened {
      return 1, Some(LogFileNotOpened), log, executed, logFile;
    }
    var lastExitCode, entries;
    lastExitCode, entries, executed := RunCommands(job.commands, outcomes);
    log := [StartBanner] + entries + [EndBanner(lastExitCode)];
    return lastExitCode, None, log, executed, logFile;
  }

  /** Layout of the entries of the commands: for command k (0-based) of n, the
      marker `[Comando k+1/n] cmd` at 2k and its single outcome line at 2k+1. */
  lemma {:induction false} CommandEntriesLayout(commands: seq<string>, outcomes: seq<Outcome>, total: nat)
    requires |outcomes| == |commands|
    ensures |CommandEntries(commands, outcomes, total)| == 2 * |commands|
    ensures forall k :: 0 <= k < |commands| ==>
              && CommandEntries(commands, outcomes, total)[2 * k] == CommandMarker(k + 1, total, commands[k])
              && CommandEntries(commands, outcomes, total)[2 * k + 1] == OutcomeLine(outcomes[k])
  {
    if commands != [] {
      var n := |commands| - 1;
      CommandEntriesLayout(commands[..n], outcomes[..n], total);
    }
  }

  /** Layout of a whole run's log: a start banner, then per command a marker and
      exactly one outcome line, then an end banner carrying the returned code. */
  lemma RunLogLayout(commands: seq<string>, outcomes: seq<Outcome>)
    requires |outcomes| == |commands|
    ensures var log := RunLog(commands, outcomes);
            && |log| == 2 * |commands| + 2
            && log[0] == StartBanner
            && log[|log| - 1] == EndBanner(LastCode(outcomes))
            && (forall k :: 0 <= k < |commands| ==>
                  log[2 * k + 1] == CommandMarker(k + 1, |commands|, commands[k]) &&
                  log[2 * k + 2] == OutcomeLine(outcomes[k]))
  {
    CommandEntriesLayout(commands, outcomes, |commands|);
  }
}
