/** The job store: the Job record, reading the job list, the configuration and
    log directories, and the list operations behind adding, editing and deleting
    a job. Reading jobs.json is abstracted as an input (`StoredJobs`, the outcome
    of the read and JSON decoding); the list that an operation would write back
    is its result. */
module Config {
  import opened Wrappers

  const ConfigDir := ".config/orgmcron"
  const JobsFile := "jobs.json"
  const LogsDir := "logs"

  /** One schedulable job. An empty `healthcheckUrl` means no healthcheck. */
  datatype Job = Job(name: string, schedule: string, commands: seq<string>, healthcheckUrl: string)

  datatype ConfigError =
    | NoHomeDir                  // os.UserHomeDir failed
    | ReadFailed                 // jobs.json exists but cannot be read
    | ParseFailed                // jobs.json is not valid JSON for a job list
    | JobNotFound(name: string)
    | DuplicateName(name: string)

  /** What reading and decoding jobs.json produced. */
  datatype StoredJobs =
    | HomeUnknown
    | FileMissing
    | FileUnreadable
    | FileMalformed
    | Decoded(jobs: seq<Job>)

  // ---------------------------------------------------------------- paths

  /** filepath.Join of two elements: an empty element is dropped and exactly one
      separator stands between the two. */
  function PathJoin(dir: string, elem: string): (p: string)
    ensures dir == [] ==> p == elem
    ensures elem == [] ==> p == dir
    ensures dir != [] && elem != [] && dir[|dir| - 1] != '/' ==> p == dir + "/" + elem
  {
    if dir == [] then elem
    else if elem == [] then dir
    else if dir[|dir| - 1] == '/' then dir + elem
    else dir + "/" + elem
  }

  /** GetConfigDir: `~/.config/orgmcron`, or an error when the home directory is unknown. */
  function GetConfigDir(home: Option<string>): (r: Result<string, ConfigError>)
    ensures r.Failure? <==> home.None?
    ensures r.Failure? ==> r.error == NoHomeDir
    ensures home.Some? && home.value != [] && home.value[|home.value| - 1] != '/' ==>
              r == Success(home.value + "/.config/orgmcron")
  {
    match home
    case None => Failure(NoHomeDir)
    case Some(h) =>
      assert h + "/" + ConfigDir == h + "/.config/orgmcron";
      Success(PathJoin(h, ConfigDir))
  }

  /** GetLogsDir: the `logs` directory inside the configuration directory. */
  function GetLogsDir(home: Option<string>): (r: Result<string, ConfigError>)
    ensures r.Failure? <==> home.None?
    ensures home.Some? && home.value != [] && home.value[|home.value| - 1] != '/' ==>
              r == Success(home.value + "/.config/orgmcron/logs")
  {
    match GetConfigDir(home)
    case Failure(e) => Failure(e)
    case Success(dir) =>
      assert home.Some? ==> dir + "/" + LogsDir == PathJoin(home.value, ConfigDir) + "/logs";
      assert home.Some? && home.value != [] && home.value[|home.value| - 1] != '/' ==>
        dir + "/" + LogsDir == home.value + "/.config/orgmcron/logs";
      Success(PathJoin(dir, LogsDir))
  }

  // ---------------------------------------------------------------- loading

  /** LoadJobs: a missing jobs file is an empty list, not an error; a failure to
      locate, read or decode it is an error. */
  function LoadJobs(stored: StoredJobs): (r: Result<seq<Job>, ConfigError>)
    ensures r.Success? <==> stored.FileMissing? || stored.Decoded?
    ensures stored.FileMissing? ==> r == Success([])
    ensures stored.Decoded? ==> r == Success(stored.jobs)
  {
    match stored
    case HomeUnknown => Failure(NoHomeDir)
    case FileMissing => Success([])
    case FileUnreadable => Failure(ReadFailed)
    case FileMalformed => Failure(ParseFailed)
    case Decoded(jobs) => Success(jobs)
  }

  // ---------------------------------------------------------------- the job list

  ghost predicate Named(jobs: seq<Job>, name: string) {
    exists i :: 0 <= i < |jobs| && jobs[i].name == name
  }

  ghost predicate UniqueNames(jobs: seq<Job>) {
    forall i, j :: 0 <= i < j < |jobs| ==> jobs[i].name != jobs[j].name
  }

  /** Position of the first job called `name`, or |jobs| when there is none. */
  function FirstMatch(jobs: seq<Job>, name: string): (k: nat)
    ensures k <= |jobs|
    ensures forall i :: 0 <= i < k ==> jobs[i].name != name
    ensures k < |jobs| ==> jobs[k].name == name
    ensures k < |jobs| <==> Named(jobs, name)
  {
    if jobs == [] then 0
    else if jobs[0].name == name then 0
    else
      var k := FirstMatch(jobs[1..], name);
      assert Named(jobs, name) ==> Named(jobs[1..], name) by {
        if Named(jobs, name) {
          var i :| 0 <= i < |jobs| && jobs[i].name == name;
          assert jobs[1..][i - 1].name == name;
        }
      }
      1 + k
  }

  /** GetJobByName: the first job with that name, or JobNotFound. */
  method GetJobByName(stored: StoredJobs, name: string) returns (r: Result<Job, ConfigError>)
    ensures LoadJobs(stored).Failure? ==> r == Failure(LoadJobs(stored).error)
    ensures LoadJobs(stored).Success? ==>
              var jobs := LoadJobs(stored).value;
              && (r.Success? <==> Named(jobs, name))
              && (r.Success? ==> r.value == jobs[FirstMatch(jobs, name)])
              && (r.Failure? ==> r.error == JobNotFound(name))
  {
    var loaded := LoadJobs(stored);
    if loaded.Failure? {
      return Failure(loaded.error);
    }
    var jobs := loaded.value;
    var i := 0;
    while i < |jobs|
      invariant 0 <= i <= |jobs|
      invariant forall k :: 0 <= k < i ==> jobs[k].name != name
    {
      if jobs[i].name == name {
        assert FirstMatch(jobs, name) == i;
        return Success(jobs[i]);
      }
      i := i + 1;
    }
    return Failure(JobNotFound(name));
  }

  /** AddJob: refuses a name already in the list (nothing is written), and
      otherwise appends the job at the end. */
  method AddJob(stored: StoredJobs, job: Job) returns (r: Result<seq<Job>, ConfigError>)
    ensures LoadJobs(stored).Failure? ==> r == Failure(LoadJobs(stored).error)
    ensures LoadJobs(stored).Success? ==>
              var jobs := LoadJobs(stored).value;
              && (Named(jobs, job.name) ==> r == Failure(DuplicateName(job.name)))
              && (!Named(jobs, job.name) ==> r == Success(jobs + [job]))
  {
    var loaded := LoadJobs(stored);
    if loaded.Failure? {
      return Failure(loaded.error);
    }
    var jobs := loaded.value;
    var i := 0;
    while i < |jobs|
      invariant 0 <= i <= |jobs|
      invariant forall k :: 0 <= k < i ==> jobs[k].name != job.name
    {
      if jobs[i].name == job.name {
        return Failure(DuplicateName(job.name));
      }
      i := i + 1;
    }
    return Success(jobs + [job]);
  }

  /** UpdateJob: replaces the first job called `name` in place, or reports JobNotFound. */
  method UpdateJob(stored: StoredJobs, name: string, job: Job) returns (r: Result<seq<Job>, ConfigError>)
    ensures LoadJobs(stored).Failure? ==> r == Failure(LoadJobs(stored).error)
    ensures LoadJobs(stored).Success? ==>
              var jobs := LoadJobs(stored).value;
              && (!Named(jobs, name) ==> r == Failure(JobNotFound(name)))
              && (Named(jobs, name) ==> r == Success(jobs[FirstMatch(jobs, name) := job]))
  {
    var loaded := LoadJobs(stored);
    if loaded.Failure? {
      return Failure(loaded.error);
    }
    var jobs := loaded.value;
    var found := false;
    var i := 0;
    while i < |jobs|
      invariant 0 <= i <= |jobs|
      invariant !found && jobs == loaded.value
      invariant forall k :: 0 <= k < i ==> jobs[k].name != name
    {
      if jobs[i].name == name {
        assert FirstMatch(jobs, name) == i;
        jobs := jobs[i := job];
        found := true;
        break;
      }
      i := i + 1;
    }
    if !found {
      return Failure(JobNotFound(name));
    }
    return Success(jobs);
  }

  /** DeleteJob: splices out the first job called `name`, or reports JobNotFound. */
  method DeleteJob(stored: StoredJobs, name: string) returns (r: Result<seq<Job>, ConfigError>)
    ensures LoadJobs(stored).Failure? ==> r == Failure(LoadJobs(stored).error)
    ensures LoadJobs(stored).Success? ==>
              var jobs := LoadJobs(stored).value;
              var k := FirstMatch(jobs, name);
              && (!Named(jobs, name) ==> r == Failure(JobNotFound(name)))
              && (Named(jobs, name) ==> r == Success(jobs[..k] + jobs[k + 1..]))
  {
    var loaded := LoadJobs(stored);
    if loaded.Failure? {
      return Failure(loaded.error);
    }
    var jobs := loaded.value;
    var found := false;
    var i := 0;
    while i < |jobs|
      invariant 0 <= i <= |jobs|
      invariant !found && jobs == loaded.value
      invariant forall k :: 0 <= k < i ==> jobs[k].name != name
    {
      if jobs[i].name == name {
        assert FirstMatch(jobs, name) == i;
        jobs := jobs[..i] + jobs[i + 1..];
        found := true;
        break;
      }
      i := i + 1;
    }
    if !found {
      return Failure(JobNotFound(name));
    }
    return Success(jobs);
  }

  // ---------------------------------------------------------------- properties of the list operations

  /** Appending a job whose name is new keeps names unique, and the new job is then the one found by name. */
  lemma {:induction false} AddKeepsNamesUnique(jobs: seq<Job>, job: Job)
    requires UniqueNames(jobs) && !Named(jobs, job.name)
    ensures UniqueNames(jobs + [job])
    ensures FirstMatch(jobs + [job], job.name) == |jobs|
  {
    var k := FirstMatch(jobs + [job], job.name);
    assert (jobs + [job])[|jobs|].name == job.name;
  }

  /** Replacing a job by one of the same name keeps the list's names, so uniqueness
      and the position found by name are unchanged, and the replacement is found. */
  lemma {:induction false} UpdateSameNameKeepsNames(jobs: seq<Job>, name: string, job: Job)
    requires Named(jobs, name) && job.name == name
    ensures var updated := jobs[FirstMatch(jobs, name) := job];
            && |updated| == |jobs|
            && (forall i :: 0 <= i < |jobs| ==> updated[i].name == jobs[i].name)
            && (UniqueNames(jobs) ==> UniqueNames(updated))
            && FirstMatch(updated, name) == FirstMatch(jobs, name)
            && updated[FirstMatch(updated, name)] == job
  {
    var k := FirstMatch(jobs, name);
    var updated := jobs[k := job];
    assert forall i :: 0 <= i < |jobs| ==> updated[i].name == jobs[i].name;
    var k' := FirstMatch(updated, name);
    assert updated[k].name == name;
  }

  /** Deleting from a list with unique names removes the name entirely and keeps the rest unique. */
  lemma {:induction false} DeleteRemovesName(jobs: seq<Job>, name: string)
    requires UniqueNames(jobs) && Named(jobs, name)
    ensures var k := FirstMatch(jobs, name);
            var rest := jobs[..k] + jobs[k + 1..];
            && |rest| == |jobs| - 1
            && !Named(rest, name)
            && UniqueNames(rest)
  {
    var k := FirstMatch(jobs, name);
    var rest := jobs[..k] + jobs[k + 1..];
    forall i | 0 <= i < |rest|
      ensures rest[i] == jobs[if i < k then i else i + 1]
      ensures rest[i].name != name
    {
      if i >= k {
        assert rest[i] == jobs[k + 1..][i - k];
      }
    }
    forall i, j | 0 <= i < j < |rest|
      ensures rest[i].name != rest[j].name
    {
      assert rest[i] == jobs[if i < k then i else i + 1];
      assert rest[j] == jobs[if j < k then j else j + 1];
    }
  }
}
