/** The `add` command once its forms are filled in: the name validator, the
    choice of schedule, the parsing of the commands text and the construction of
    the healthcheck URL, and the job finally handed to the job store. The forms
    themselves are an input (`FormValues`, what the user left in them). */
module AddCmd {
  import opened Wrappers
  import opened GoStrings
  import Config

  /** The fixed healthcheck endpoint; the job's own name for it is appended. */
  const HealthcheckPrefix := "https://hc.or-gm.com/ping/{pingkey}/"

  /** What the schedule, commands and healthcheck forms hold when submitted. */
  datatype FormValues = FormValues(
    scheduleType: string,
    cronExpr: string,
    intervalExpr: string,
    commandsText: string,
    healthcheckName: string)

  /** Why the name validator refuses a name. */
  datatype NameError = EmptyName | NameTaken

  /** The schedule saved: the cron expression when the type is "cron", the
      interval otherwise. */
  function ChooseSchedule(form: FormValues): (schedule: string)
    ensures schedule == form.cronExpr || schedule == form.intervalExpr
    ensures form.scheduleType == "cron" ==> schedule == form.cronExpr
    ensures form.scheduleType != "cron" ==> schedule == form.intervalExpr
  {
    if form.scheduleType == "cron" then form.cronExpr else form.intervalExpr
  }

  /** The healthcheck URL: none for an empty name, otherwise the fixed endpoint
      with the name as its last path segment. */
  function HealthcheckUrl(name: string): (url: string)
    ensures url == "" <==> name == ""
    ensures name != "" ==> HasPrefix(url, HealthcheckPrefix) && url[|HealthcheckPrefix|..] == name
  {
    if name == "" then "" else HealthcheckPrefix + name
  }

  /** The commands of a commands text, line by line: each line trimmed, blank
      lines dropped, the rest kept in order. */
  function NonBlankTrimmed(lines: seq<string>): (commands: seq<string>)
    ensures |commands| <= |lines|
    ensures forall k :: 0 <= k < |commands| ==> commands[k] != []
  {
    if lines == [] then []
    else
      var n := |lines| - 1;
      var line := TrimSpace(lines[n]);
      NonBlankTrimmed(lines[..n]) + (if line == [] then [] else [line])
  }

  /** One step of the parse: the commands of one more line. */
  lemma {:induction false} ParseStep(lines: seq<string>, i: nat)
    requires i < |lines|
    ensures NonBlankTrimmed(lines[..i + 1]) ==
              NonBlankTrimmed(lines[..i]) + (if TrimSpace(lines[i]) == [] then [] else [TrimSpace(lines[i])])
  {
    assert lines[..i + 1][..i] == lines[..i];
    assert lines[..i + 1][i] == lines[i];
  }

  /** Every command is the trimmed form of one of the lines. */
  lemma {:induction false} CommandsComeFromLines(lines: seq<string>)
    ensures forall k :: 0 <= k < |NonBlankTrimmed(lines)| ==>
              exists i :: 0 <= i < |lines| && NonBlankTrimmed(lines)[k] == TrimSpace(lines[i])
  {
    if lines != [] {
      var n := |lines| - 1;
      var prefix := lines[..n];
      CommandsComeFromLines(prefix);
      var earlier := NonBlankTrimmed(prefix);
      var line := TrimSpace(lines[n]);
      var all := earlier + (if line == [] then [] else [line]);
      assert NonBlankTrimmed(lines) == all;
      forall k | 0 <= k < |NonBlankTrimmed(lines)|
        ensures exists i :: 0 <= i < |lines| && NonBlankTrimmed(lines)[k] == TrimSpace(lines[i])
      {
        if k < |earlier| {
          var i :| 0 <= i < |prefix| && earlier[k] == TrimSpace(prefix[i]);
          assert prefix[i] == lines[i];
          assert all[k] == TrimSpace(lines[i]);
        } else {
          assert all[k] == TrimSpace(lines[n]);
        }
      }
    } else {
      assert NonBlankTrimmed(lines) == [];
    }
  }

  /** The commands of a job: what the user typed, split at newlines. */
  function Commands(text: string): seq<string> {
    NonBlankTrimmed(Split(text, "\n"))
  }

  /** A list of commands as the parser can produce it: each command non-empty,
      already trimmed and on a single line. */
  predicate WellFormedCommands(commands: seq<string>) {
    forall k :: 0 <= k < |commands| ==>
      commands[k] != [] && TrimSpace(commands[k]) == commands[k] && '\n' !in commands[k]
  }

  /** Parses the commands text: one command per line, each trimmed, blank lines skipped. */
  method ParseCommands(text: string) returns (commands: seq<string>)
    ensures commands == Commands(text)
    ensures WellFormedCommands(commands)
  {
    var lines := Split(text, "\n");
    commands := [];
    var i := 0;
    while i < |lines|
      invariant 0 <= i <= |lines|
      invariant commands == NonBlankTrimmed(lines[..i])
    {
      var line := TrimSpace(lines[i]);
      ParseStep(lines, i);
      if line != "" {
        commands := commands + [line];
      }
      i := i + 1;
    }
    assert lines[..i] == lines;
    ParsedCommandsWellFormed(text);
  }

  /** Every parsed command is non-empty, trimmed and free of newlines. */
  lemma ParsedCommandsWellFormed(text: string)
    ensures WellFormedCommands(Commands(text))
  {
    var lines := Split(text, "\n");
    var commands := Commands(text);
    SplitPiecesAvoidSeparator(text, '\n');
    CommandsComeFromLines(lines);
    forall k | 0 <= k < |commands|
      ensures TrimSpace(commands[k]) == commands[k] && '\n' !in commands[k]
    {
      var i :| 0 <= i < |lines| && commands[k] == TrimSpace(lines[i]);
      TrimSpaceIdempotent(lines[i]);
      TrimSpaceShape(lines[i]);
      assert '\n' !in lines[i];
    }
  }

  /** A list of well-formed commands is left as it is by the parser's per-line step. */
  lemma {:induction false} WellFormedCommandsKept(commands: seq<string>)
    requires WellFormedCommands(commands)
    ensures NonBlankTrimmed(commands) == commands
  {
    if commands != [] {
      var n := |commands| - 1;
      var prefix := commands[..n];
      assert WellFormedCommands(prefix) by {
        forall k | 0 <= k < |prefix|
          ensures prefix[k] != [] && TrimSpace(prefix[k]) == prefix[k] && '\n' !in prefix[k]
        {
          assert prefix[k] == commands[k];
        }
      }
      WellFormedCommandsKept(prefix);
      ParseStep(commands, n);
      assert commands[..n + 1] == commands;
      assert TrimSpace(commands[n]) == commands[n] != [];
      assert prefix + [commands[n]] == commands;
    }
  }

  /** The job the command saves. */
  function BuildJob(name: string, form: FormValues): (job: Config.Job)
    ensures job.name == name
    ensures WellFormedCommands(job.commands)
    ensures job.healthcheckUrl == "" <==> form.healthcheckName == ""
  {
    ParsedCommandsWellFormed(form.commandsText);
    Config.Job(name, ChooseSchedule(form), Commands(form.commandsText), HealthcheckUrl(form.healthcheckName))
  }

  /** The name validator: refuses an empty name and one the job store already
      holds. A job list that cannot be read counts as "not held". */
  method ValidateName(stored: Config.StoredJobs, name: string) returns (err: Option<NameError>)
    ensures err == Some(EmptyName) <==> name == ""
    ensures err == Some(NameTaken) <==>
              name != "" && Config.LoadJobs(stored).Success? && Config.Named(Config.LoadJobs(stored).value, name)
    ensures err.None? <==>
              name != "" && (Config.LoadJobs(stored).Failure? || !Config.Named(Config.LoadJobs(stored).value, name))
  {
    if name == "" {
      return Some(EmptyName);
    }
    var existing := Config.GetJobByName(stored, name);
    if existing.Success? {
      return Some(NameTaken);
    }
    return None;
  }

  /** Submitting the filled-in forms: the job built from them is appended to the
      store, unless its name is already there. */
  method Submit(stored: Config.StoredJobs, jobName: string, form: FormValues)
    returns (job: Config.Job, r: Result<seq<Config.Job>, Config.ConfigError>)
    ensures job == BuildJob(jobName, form)
    ensures Config.LoadJobs(stored).Failure? ==> r == Failure(Config.LoadJobs(stored).error)
    ensures Config.LoadJobs(stored).Success? ==>
              var jobs := Config.LoadJobs(stored).value;
              && (Config.Named(jobs, jobName) ==> r == Failure(Config.DuplicateName(jobName)))
              && (!Config.Named(jobs, jobName) ==> r == Success(jobs + [job]))
  {
    var schedule := ChooseSchedule(form);
    var commands := ParseCommands(form.commandsText);
    var url := HealthcheckUrl(form.healthcheckName);
    job := Config.Job(jobName, schedule, commands, url);
    r := Config.AddJob(stored, job);
  }
}
