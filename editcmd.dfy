/** The `edit` command once its forms are filled in: the forms start from the
    stored job (schedule type, commands text, healthcheck name recovered from it),
    the user's changes are an input (`edit`, a function from the form values shown
    to the values submitted), and the job rebuilt from them replaces the stored
    one under the same name. */
module EditCmd {
  import opened Wrappers
  import opened GoStrings
  import Config
  import AddCmd

  /** The healthcheck name recovered from a URL: the text after its last `/`,
      or nothing when there is no URL. */
  function HealthcheckName(url: string): (name: string)
    ensures '/' !in name
    ensures url == "" ==> name == ""
    ensures |name| <= |url| && url[|url| - |name|..] == name
    ensures |name| < |url| ==> url[|url| - |name| - 1] == '/'
  {
    if url == "" then ""
    else
      SplitLastIsSuffix(url, '/');
      SplitPiecesAvoidSeparator(url, '/');
      var parts := Split(url, "/");
      assert '/' !in url ==> |parts| == 1 by {
        if '/' !in url {
          SplitWithoutSeparator(url, '/');
        }
      }
      parts[|parts| - 1]
  }

  /** The form values the edit forms open with. */
  function InitialForm(existing: Config.Job): (form: AddCmd.FormValues)
    ensures form.scheduleType == "interval" <==> HasPrefix(existing.schedule, "@")
    ensures form.scheduleType == "cron" <==> !HasPrefix(existing.schedule, "@")
    ensures AddCmd.ChooseSchedule(form) == existing.schedule
    ensures form.commandsText == Join(existing.commands, "\n")
    ensures form.healthcheckName == HealthcheckName(existing.healthcheckUrl)
  {
    var commandsText := Join(existing.commands, "\n");
    var name := HealthcheckName(existing.healthcheckUrl);
    if HasPrefix(existing.schedule, "@") then
      AddCmd.FormValues("interval", "", existing.schedule, commandsText, name)
    else
      AddCmd.FormValues("cron", existing.schedule, "", commandsText, name)
  }

  /** A healthcheck name without `/` survives building its URL and reading it back. */
  lemma HealthcheckNameRoundTrip(name: string)
    requires '/' !in name
    ensures HealthcheckName(AddCmd.HealthcheckUrl(name)) == name
  {
    if name != "" {
      var endpoint := "https://hc.or-gm.com/ping/{pingkey}";
      assert AddCmd.HealthcheckUrl(name) == endpoint + ['/'] + name;
      SplitLastPiece(endpoint, name, '/');
    }
  }

  /** Whatever host and path a stored URL has, saving the edit rebuilds it on the
      fixed endpoint from its last segment alone. */
  lemma RebuiltUrlUsesFixedEndpoint(base: string, name: string)
    requires '/' !in name && name != ""
    ensures AddCmd.HealthcheckUrl(HealthcheckName(base + "/" + name)) == AddCmd.HealthcheckPrefix + name
  {
    SplitLastPiece(base, name, '/');
  }

  /** A stored URL ending in `/` yields no healthcheck name, so saving the edit
      unchanged drops the healthcheck. */
  lemma TrailingSlashDropsHealthcheck(base: string)
    ensures AddCmd.HealthcheckUrl(HealthcheckName(base + "/")) == ""
  {
    assert base + "/" == base + ['/'] + [];
    SplitLastPiece(base, [], '/');
  }

  /** Joining commands with newlines and parsing the text back gives the same list
      exactly when every command is non-empty, trimmed and on one line. */
  lemma CommandsRoundTrip(commands: seq<string>)
    ensures AddCmd.Commands(Join(commands, "\n")) == commands <==> AddCmd.WellFormedCommands(commands)
  {
    AddCmd.ParsedCommandsWellFormed(Join(commands, "\n"));
    if AddCmd.WellFormedCommands(commands) {
      if commands == [] {
        assert Split([], "\n") == [[]];
        assert TrimSpace([]) == [];
        assert AddCmd.NonBlankTrimmed([[]]) == AddCmd.NonBlankTrimmed([]) + [];
      } else {
        SplitJoinRoundTrip(commands, '\n');
        AddCmd.WellFormedCommandsKept(commands);
      }
    }
  }

  /** Submitting the edit forms as they open gives back the stored job, for a job
      as the add command builds it. */
  lemma UnchangedFormKeepsJob(name: string, schedule: string, commands: seq<string>, healthcheckName: string)
    requires AddCmd.WellFormedCommands(commands)
    requires '/' !in healthcheckName
    ensures var job := Config.Job(name, schedule, commands, AddCmd.HealthcheckUrl(healthcheckName));
            AddCmd.BuildJob(name, InitialForm(job)) == job
  {
    CommandsRoundTrip(commands);
    HealthcheckNameRoundTrip(healthcheckName);
  }

  /** The edit command: loads the job (or reports why it cannot), rebuilds it from
      the submitted forms under the same name, and replaces the stored job with it.
      Names in the list, and so their uniqueness, are unchanged. */
  method Edit(stored: Config.StoredJobs, jobName: string, edit: AddCmd.FormValues -> AddCmd.FormValues)
    returns (r: Result<seq<Config.Job>, Config.ConfigError>)
    ensures Config.LoadJobs(stored).Failure? ==> r == Failure(Config.LoadJobs(stored).error)
    ensures Config.LoadJobs(stored).Success? ==>
              var jobs := Config.LoadJobs(stored).value;
              var k := Config.FirstMatch(jobs, jobName);
              && (!Config.Named(jobs, jobName) ==> r == Failure(Config.JobNotFound(jobName)))
              && (Config.Named(jobs, jobName) ==>
                    r == Success(jobs[k := AddCmd.BuildJob(jobName, edit(InitialForm(jobs[k])))]))
    ensures r.Success? ==>
              var jobs := Config.LoadJobs(stored).value;
              && |r.value| == |jobs|
              && (forall i :: 0 <= i < |jobs| ==> r.value[i].name == jobs[i].name)
              && (Config.UniqueNames(jobs) ==> Config.UniqueNames(r.value))
  {
    var existing := Config.GetJobByName(stored, jobName);
    if existing.Failure? {
      return Failure(existing.error);
    }
    var form := edit(InitialForm(existing.value));
    var schedule := AddCmd.ChooseSchedule(form);
    var commands := AddCmd.ParseCommands(form.commandsText);
    var url := AddCmd.HealthcheckUrl(form.healthcheckName);
    var updated := Config.Job(jobName, schedule, commands, url);
    r := Config.UpdateJob(stored, jobName, updated);
    Config.UpdateSameNameKeepsNames(Config.LoadJobs(stored).value, jobName, updated);
  }
}
