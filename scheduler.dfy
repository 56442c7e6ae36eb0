/** The scheduling engine: schedule normalisation, the name-keyed schedule table
    rebuilt wholesale on every load, the dispatch rule that gates the healthcheck
    on a run's outcome, and the control loop that reacts to reload, stop and
    signal events.

    The cron library is an oracle: `accepts(schedule)` says whether `AddFunc`
    accepts a (normalised) schedule, and an accepted entry gets the next id of
    its engine instance, starting at 1. The engine is a value (`Engine`) held in
    a field of the scheduler, as the source holds a pointer to its cron
    instance. Timers firing is not modelled: `Dispatch` is what one firing of an
    armed entry does. */
module Scheduler {
  import opened Wrappers
  import opened GoStrings
  import Config
  import JobRunner
  import Healthcheck

  // ---------------------------------------------------------------- normalisation

  /** normalizeSchedule: a macro (`@...`) is kept; a 5-field cron expression gets
      a leading seconds field "0"; anything else is kept for the engine to judge. */
  function NormalizeSchedule(schedule: string): (r: string)
    ensures HasPrefix(schedule, "@") ==> r == schedule
    ensures r == schedule || r == "0 " + schedule
    ensures !HasPrefix(r, "@") ==> |Fields(r)| != 5
  {
    if HasPrefix(schedule, "@") then schedule
    else if |Fields(schedule)| == 5 then
      FieldsConsWord('0', schedule);
      assert "0 " + schedule == ['0', ' '] + schedule;
      "0 " + schedule
    else schedule
  }

  /** Exactly the 5-field, non-macro schedules are rewritten, and they become 6-field ones. */
  lemma NormalizeFiveFields(schedule: string)
    ensures NormalizeSchedule(schedule) != schedule <==> !HasPrefix(schedule, "@") && |Fields(schedule)| == 5
    ensures !HasPrefix(schedule, "@") && |Fields(schedule)| == 5 ==>
              NormalizeSchedule(schedule) == "0 " + schedule && |Fields(NormalizeSchedule(schedule))| == 6
  {
    if !HasPrefix(schedule, "@") && |Fields(schedule)| == 5 {
      FieldsConsWord('0', schedule);
      assert "0 " + schedule == ['0', ' '] + schedule;
      assert "0 " + schedule != schedule by { assert |"0 " + schedule| != |schedule|; }
    }
  }

  /** Normalising twice is normalising once. */
  lemma NormalizeIdempotent(schedule: string)
    ensures NormalizeSchedule(NormalizeSchedule(schedule)) == NormalizeSchedule(schedule)
  {
    var r := NormalizeSchedule(schedule);
    if r != schedule {
      assert r[0] == '0';
      assert !HasPrefix(r, "@");
    }
  }

  // ---------------------------------------------------------------- the engine and the table

  /** One armed timer: the entry id, the schedule given to the engine and the job its closure runs. */
  datatype Entry = Entry(id: nat, schedule: string, job: Config.Job)

  /** A cron engine instance: whether it was started, and its entries in registration order. */
  datatype Engine = Engine(running: bool, entries: seq<Entry>)

  /** The entries a fresh engine holds after registering `jobs` in order:
      a job whose normalised schedule the engine refuses is skipped. */
  function ArmedEntries(jobs: seq<Config.Job>, accepts: string -> bool): seq<Entry>
  {
    if jobs == [] then []
    else
      var n := |jobs| - 1;
      var before := ArmedEntries(jobs[..n], accepts);
      var schedule := NormalizeSchedule(jobs[n].schedule);
      if accepts(schedule) then before + [Entry(|before| + 1, schedule, jobs[n])] else before
  }

  /** The armed entries have ids 1, 2, ... in registration order, each holding a
      loaded job and the normalised schedule the engine accepted for it. */
  lemma {:induction false} ArmedEntriesShape(jobs: seq<Config.Job>, accepts: string -> bool)
    ensures var entries := ArmedEntries(jobs, accepts);
            && |entries| <= |jobs|
            && forall k :: 0 <= k < |entries| ==>
                 && entries[k].id == k + 1
                 && entries[k].schedule == NormalizeSchedule(entries[k].job.schedule)
                 && accepts(entries[k].schedule)
                 && entries[k].job in jobs
  {
    if jobs != [] {
      var n := |jobs| - 1;
      ArmedEntriesShape(jobs[..n], accepts);
      var before := ArmedEntries(jobs[..n], accepts);
      forall k | 0 <= k < |before| ensures before[k].job in jobs {
        assert before[k].job in jobs[..n];
      }
    }
  }

  /** The name-keyed table after registering `jobs` in order: each accepted job
      binds its name to its entry id, a later job overwriting an earlier one. */
  function ScheduleTable(jobs: seq<Config.Job>, accepts: string -> bool): map<string, nat>
  {
    if jobs == [] then map[]
    else
      var n := |jobs| - 1;
      var before := ScheduleTable(jobs[..n], accepts);
      if accepts(NormalizeSchedule(jobs[n].schedule))
      then before[jobs[n].name := |ArmedEntries(jobs[..n], accepts)| + 1]
      else before
  }

  /** The names of the jobs whose registration succeeds. */
  function AcceptedNames(jobs: seq<Config.Job>, accepts: string -> bool): set<string> {
    set i | 0 <= i < |jobs| && accepts(NormalizeSchedule(jobs[i].schedule)) :: jobs[i].name
  }

  /** Every name in the table points at an armed entry of that name, and at the
      last such entry: a later registration under the same name wins. */
  ghost predicate TableConsistent(engine: Engine, table: map<string, nat>) {
    && (forall k :: 0 <= k < |engine.entries| ==> engine.entries[k].id == k + 1)
    && (forall name :: name in table ==>
          && 1 <= table[name] <= |engine.entries|
          && engine.entries[table[name] - 1].job.name == name
          && (forall k :: table[name] <= k < |engine.entries| ==> engine.entries[k].job.name != name))
  }

  /** Registering one more job adds its name exactly when the engine accepts it. */
  lemma AcceptedNamesSnoc(jobs: seq<Config.Job>, accepts: string -> bool)
    requires jobs != []
    ensures var n := |jobs| - 1;
            AcceptedNames(jobs, accepts) ==
              AcceptedNames(jobs[..n], accepts)
              + (if accepts(NormalizeSchedule(jobs[n].schedule)) then {jobs[n].name} else {})
  {
    var n := |jobs| - 1;
    var prefix := jobs[..n];
    var all := AcceptedNames(jobs, accepts);
    var earlier := AcceptedNames(prefix, accepts);
    var extra: set<string> := if accepts(NormalizeSchedule(jobs[n].schedule)) then {jobs[n].name} else {};
    forall name | name in all
      ensures name in earlier + extra
    {
      var i :| 0 <= i < |jobs| && accepts(NormalizeSchedule(jobs[i].schedule)) && jobs[i].name == name;
      if i < n {
        assert prefix[i] == jobs[i];
        assert name in earlier;
      }
    }
    forall name | name in earlier
      ensures name in all
    {
      var i :| 0 <= i < n && accepts(NormalizeSchedule(prefix[i].schedule)) && prefix[i].name == name;
      assert jobs[i] == prefix[i];
    }
    assert all == earlier + extra;
  }

  /** The table's keys are exactly the names of the jobs whose registration
      succeeded, however many jobs before or after them failed. */
  lemma {:induction false} TableKeys(jobs: seq<Config.Job>, accepts: string -> bool)
    ensures ScheduleTable(jobs, accepts).Keys == AcceptedNames(jobs, accepts)
  {
    if jobs != [] {
      TableKeys(jobs[..|jobs| - 1], accepts);
      AcceptedNamesSnoc(jobs, accepts);
    }
  }

  /** Arming one more entry under the next id and binding its job's name to it
      keeps a table consistent with its engine. */
  lemma ConsistentAfterArming(engine: Engine, table: map<string, nat>, e: Entry)
    requires TableConsistent(engine, table)
    requires e.id == |engine.entries| + 1
    ensures TableConsistent(engine.(entries := engine.entries + [e]), table[e.job.name := e.id])
  {
    var entries := engine.entries + [e];
    var updated := table[e.job.name := e.id];
    forall k | 0 <= k < |entries| ensures entries[k].id == k + 1 {
      if k < |engine.entries| {
        assert entries[k] == engine.entries[k];
      }
    }
    forall name | name in updated
      ensures 1 <= updated[name] <= |entries|
      ensures entries[updated[name] - 1].job.name == name
      ensures forall k :: updated[name] <= k < |entries| ==> entries[k].job.name != name
    {
      if name != e.job.name {
        var at := table[name];
        assert updated[name] == at;
        assert entries[at - 1] == engine.entries[at - 1];
        forall k | at <= k < |entries| ensures entries[k].job.name != name {
          if k < |engine.entries| {
            assert entries[k] == engine.entries[k];
          }
        }
      }
    }
  }

  /** One registration step of a load: the entries and the table after one more
      job, from those before it. */
  lemma {:induction false} RegistrationStep(jobs: seq<Config.Job>, i: nat, accepts: string -> bool)
    requires i < |jobs|
    ensures var schedule := NormalizeSchedule(jobs[i].schedule);
            var before := ArmedEntries(jobs[..i], accepts);
            && ArmedEntries(jobs[..i + 1], accepts) ==
                 (if accepts(schedule) then before + [Entry(|before| + 1, schedule, jobs[i])] else before)
            && ScheduleTable(jobs[..i + 1], accepts) ==
                 (if accepts(schedule) then ScheduleTable(jobs[..i], accepts)[jobs[i].name := |before| + 1]
                  else ScheduleTable(jobs[..i], accepts))
  {
    assert jobs[..i + 1][..i] == jobs[..i];
    assert jobs[..i + 1][i] == jobs[i];
  }

  /** The rebuilt table and engine are consistent: each name points at the last
      armed entry registered under it. */
  lemma {:induction false} TableMatchesEntries(jobs: seq<Config.Job>, accepts: string -> bool)
    ensures TableConsistent(Engine(true, ArmedEntries(jobs, accepts)), ScheduleTable(jobs, accepts))
  {
    if jobs != [] {
      var n := |jobs| - 1;
      TableMatchesEntries(jobs[..n], accepts);
      RegistrationStep(jobs, n, accepts);
      assert jobs[..n + 1] == jobs;
      var before := ArmedEntries(jobs[..n], accepts);
      var schedule := NormalizeSchedule(jobs[n].schedule);
      if accepts(schedule) {
        ConsistentAfterArming(Engine(true, before), ScheduleTable(jobs[..n], accepts),
                              Entry(|before| + 1, schedule, jobs[n]));
      }
    }
  }

  /** What a load leaves behind: after a failed read, an empty table and a fresh
      engine that was never started; otherwise the rebuilt, started engine. */
  function EngineAfterLoad(stored: Config.StoredJobs, accepts: string -> bool): Engine {
    match Config.LoadJobs(stored)
    case Failure(_) => Engine(false, [])
    case Success(jobs) => Engine(true, ArmedEntries(jobs, accepts))
  }

  function TableAfterLoad(stored: Config.StoredJobs, accepts: string -> bool): map<string, nat> {
    match Config.LoadJobs(stored)
    case Failure(_) => map[]
    case Success(jobs) => ScheduleTable(jobs, accepts)
  }

  /** Whatever a load found, the table it leaves is consistent with its engine. */
  lemma LoadConsistent(stored: Config.StoredJobs, accepts: string -> bool)
    ensures TableConsistent(EngineAfterLoad(stored, accepts), TableAfterLoad(stored, accepts))
  {
    if Config.LoadJobs(stored).Success? {
      TableMatchesEntries(Config.LoadJobs(stored).value, accepts);
    }
  }

  // ---------------------------------------------------------------- events of the control loop

  datatype Signal = SIGHUP | SIGINT | SIGTERM

  /** What the control loop can wake up for: a signal, a call of `Stop` from
      outside the loop (which closes the stop channel the loop then reads), or
      a reload request. */
  datatype Event = Received(sig: Signal) | StopCalled | ReloadRequested

  /** Events after which the loop keeps waiting: both kinds of reload request. */
  predicate IsReload(e: Event) {
    e == Received(SIGHUP) || e == ReloadRequested
  }

  /** Position of the first event that ends the loop, or |events| if none does. */
  function ExitIndex(events: seq<Event>): (t: nat)
    ensures t <= |events|
    ensures forall k :: 0 <= k < t ==> IsReload(events[k])
    ensures t < |events| ==> !IsReload(events[t])
  {
    if events == [] || !IsReload(events[0]) then 0 else 1 + ExitIndex(events[1..])
  }

  /** The loop exits at `i` when every earlier event is a reload and event `i`
      (if any) is not. */
  lemma {:induction false} ExitIndexAt(events: seq<Event>, i: nat)
    requires i <= |events|
    requires forall k :: 0 <= k < i ==> IsReload(events[k])
    requires i < |events| ==> !IsReload(events[i])
    ensures ExitIndex(events) == i
  {
    if i > 0 {
      ExitIndexAt(events[1..], i - 1);
    }
  }

  datatype StartResult = InitialLoadFailed(err: Config.ConfigError) | Returned | StillWaiting

  // ---------------------------------------------------------------- dispatch

  /** What one firing did after the run. */
  datatype DispatchReport =
    | RunFailed(err: JobRunner.RunError)       // run-level error: reported, no healthcheck
    | JobFailed(code: int)                     // non-zero code: reported, no healthcheck
    | CompletedWithoutHealthcheck              // code 0 but the job has no healthcheck URL
    | HealthcheckSent(url: string, result: Option<Healthcheck.HealthcheckError>)

  // ---------------------------------------------------------------- the scheduler

  class Scheduler {
    var engine: Engine
    var jobs: map<string, nat>
    var pingKey: string
    var stopped: bool    // the stop channel has been closed

    ghost predicate Valid()
      reads this
    {
      TableConsistent(engine, jobs)
    }

    /** NewScheduler: an empty table and an engine that is not started. */
    constructor (pingKey: string)
      ensures Valid()
      ensures engine == Engine(false, []) && jobs == map[]
      ensures this.pingKey == pingKey && !stopped
    {
      engine := Engine(false, []);
      jobs := map[];
      this.pingKey := pingKey;
      stopped := false;
    }

    /** scheduleJob: registers the normalised schedule; on success the name is
        bound to the new entry id (replacing any earlier binding), on refusal
        nothing changes. */
    method ScheduleJob(j: Config.Job, accepts: string -> bool) returns (ok: bool)
      modifies this
      ensures ok == accepts(NormalizeSchedule(j.schedule))
      ensures ok ==> engine == old(engine).(entries := old(engine.entries) +
                                [Entry(|old(engine.entries)| + 1, NormalizeSchedule(j.schedule), j)])
      ensures ok ==> jobs == old(jobs)[j.name := |old(engine.entries)| + 1]
      ensures !ok ==> engine == old(engine) && jobs == old(jobs)
      ensures pingKey == old(pingKey) && stopped == old(stopped)
    {
      var schedule := NormalizeSchedule(j.schedule);
      if !accepts(schedule) {
        return false;
      }
      var id := |engine.entries| + 1;
      engine := engine.(entries := engine.entries + [Entry(id, schedule, j)]);
      jobs := jobs[j.name := id];
      return true;
    }

    /** The registration loop of a load: every job of the list is scheduled in
        turn on the fresh engine, a refused one being skipped. */
    method RegisterJobs(list: seq<Config.Job>, accepts: string -> bool)
      requires engine == Engine(false, []) && jobs == map[]
      modifies this
      ensures engine == Engine(false, ArmedEntries(list, accepts))
      ensures jobs == ScheduleTable(list, accepts)
      ensures pingKey == old(pingKey) && stopped == old(stopped)
    {
      var i := 0;
      while i < |list|
        invariant 0 <= i <= |list|
        invariant engine == Engine(false, ArmedEntries(list[..i], accepts))
        invariant jobs == ScheduleTable(list[..i], accepts)
        invariant pingKey == old(pingKey) && stopped == old(stopped)
      {
        RegistrationStep(list, i, accepts);
        var ok := ScheduleJob(list[i], accepts);
        i := i + 1;
      }
      assert list[..i] == list;
    }

    /** LoadJobs: the old engine is stopped and dropped and the table emptied
        BEFORE the job list is read; a read failure returns the error and leaves
        it that way. Otherwise every job is registered in order, failures being
        skipped, and the new engine is started. */
    method LoadJobs(stored: Config.StoredJobs, accepts: string -> bool) returns (err: Option<Config.ConfigError>)
      modifies this
      ensures Valid()
      ensures err.Some? <==> Config.LoadJobs(stored).Failure?
      ensures err.Some? ==> err.value == Config.LoadJobs(stored).error
      ensures engine == EngineAfterLoad(stored, accepts)
      ensures jobs == TableAfterLoad(stored, accepts)
      ensures pingKey == old(pingKey) && stopped == old(stopped)
    {
      engine := Engine(false, []);
      jobs := map[];
      var loaded := Config.LoadJobs(stored);
      if loaded.Failure? {
        return Some(loaded.error);
      }
      RegisterJobs(loaded.value, accepts);
      engine := engine.(running := true);
      TableMatchesEntries(loaded.value, accepts);
      return None;
    }

    /** Reload is LoadJobs. */
    method Reload(stored: Config.StoredJobs, accepts: string -> bool) returns (err: Option<Config.ConfigError>)
      modifies this
      ensures Valid()
      ensures err.Some? <==> Config.LoadJobs(stored).Failure?
      ensures err.Some? ==> err.value == Config.LoadJobs(stored).error
      ensures engine == EngineAfterLoad(stored, accepts)
      ensures jobs == TableAfterLoad(stored, accepts)
      ensures pingKey == old(pingKey) && stopped == old(stopped)
    {
      err := LoadJobs(stored, accepts);
    }

    /** UpdatePingKey: only the key changes. */
    method UpdatePingKey(newKey: string)
      requires Valid()
      modifies this`pingKey
      ensures Valid()
      ensures pingKey == newKey
      ensures engine == old(engine) && jobs == old(jobs) && stopped == old(stopped)
    {
      pingKey := newKey;
    }

    /** Stop: halts the engine and closes the stop channel (closing it twice
        would panic, hence the precondition); the table is kept. */
    method Stop()
      requires !stopped
      requires Valid()
      modifies this
      ensures Valid()
      ensures engine == old(engine).(running := false)
      ensures stopped
      ensures jobs == old(jobs) && pingKey == old(pingKey)
    {
      engine := engine.(running := false);
      stopped := true;
    }

    /** One firing of an armed entry: run the job with the current key; a
        healthcheck is sent exactly when the run had no run-level error, its code
        is 0 and the job has a healthcheck URL, and it goes to the URL with the
        key substituted. */
    method Dispatch(entry: Entry, host: JobRunner.Host, outcomes: seq<JobRunner.Outcome>,
                    get: string -> Healthcheck.Response)
      returns (report: DispatchReport)
      requires |outcomes| == |entry.job.commands|
      ensures report.RunFailed? <==> !JobRunner.CanLog(host)
      ensures report.JobFailed? <==> JobRunner.CanLog(host) && JobRunner.LastCode(outcomes) != 0
      ensures report.JobFailed? ==> report.code == JobRunner.LastCode(outcomes)
      ensures report.HealthcheckSent? <==>
                JobRunner.CanLog(host) && JobRunner.LastCode(outcomes) == 0 && entry.job.healthcheckUrl != ""
      ensures report.HealthcheckSent? ==>
                && report.url == Healthcheck.FinalUrl(entry.job.healthcheckUrl, pingKey)
                && report.result == Healthcheck.SendHealthcheck(entry.job.healthcheckUrl, pingKey, get)
    {
      var j := entry.job;
      var exitCode, err, _, _, _ := JobRunner.Execute(j, pingKey, host, outcomes);
      if err.Some? {
        return RunFailed(err.value);
      }
      if exitCode == 0 && j.healthcheckUrl != "" {
        var result := Healthcheck.SendHealthcheck(j.healthcheckUrl, pingKey, get);
        return HealthcheckSent(Healthcheck.FinalUrl(j.healthcheckUrl, pingKey), result);
      } else if exitCode != 0 {
        return JobFailed(exitCode);
      }
      return CompletedWithoutHealthcheck;
    }

    /** One wake-up of the control loop: SIGHUP and a reload request reload from
        `stored` and keep waiting, whether or not the reload succeeds; SIGINT and
        SIGTERM stop the scheduler and leave the loop; a call of `Stop` from
        elsewhere has stopped it too, and the loop leaves on the closed channel. */
    method HandleEvent(e: Event, stored: Config.StoredJobs, accepts: string -> bool) returns (exit: bool)
      requires !stopped
      requires Valid()
      modifies this
      ensures Valid()
      ensures exit <==> !IsReload(e)
      ensures stopped <==> !IsReload(e)
      ensures IsReload(e) ==> engine == EngineAfterLoad(stored, accepts) && jobs == TableAfterLoad(stored, accepts)
      ensures !IsReload(e) ==> engine == old(engine).(running := false) && jobs == old(jobs)
      ensures pingKey == old(pingKey)
    {
      match e {
        case Received(sig) =>
          if sig == SIGHUP {
            var _ := Reload(stored, accepts);
            return false;
          }
          Stop();
          return true;
        case StopCalled =>
          Stop();
          return true;
        case ReloadRequested =>
          var _ := Reload(stored, accepts);
          return false;
      }
    }

    /** Start: the initial load's error is returned. Otherwise the loop handles
        `events` in order, event i reloading from `reloads[i]` when it is a
        reload; it returns at the first event that is not a reload, the
        scheduler then being stopped, by the loop on SIGINT or SIGTERM or from
        outside by a call of `Stop`.
        `StillWaiting` means the events ran out while the loop waits. */
    method Start(initial: Config.StoredJobs, events: seq<Event>, reloads: seq<Config.StoredJobs>,
                 accepts: string -> bool)
      returns (result: StartResult, reloadsDone: nat)
      requires !stopped
      requires |reloads| == |events|
      modifies this
      ensures Valid()
      ensures pingKey == old(pingKey)
      ensures Config.LoadJobs(initial).Failure? ==>
                && result == InitialLoadFailed(Config.LoadJobs(initial).error)
                && reloadsDone == 0 && !stopped
                && engine == EngineAfterLoad(initial, accepts) && jobs == map[]
      ensures Config.LoadJobs(initial).Success? ==>
                var t := ExitIndex(events);
                var last := if t == 0 then initial else reloads[t - 1];
                && reloadsDone == t
                && (result == Returned <==> t < |events|)
                && (result == StillWaiting <==> t == |events|)
                && stopped == (t < |events|)
                && jobs == TableAfterLoad(last, accepts)
                && engine == EngineAfterLoad(last, accepts).(running := EngineAfterLoad(last, accepts).running && !stopped)
    {
      var err := LoadJobs(initial, accepts);
      if err.Some? {
        return InitialLoadFailed(err.value), 0;
      }
      ghost var current := initial;
      var i := 0;
      while i < |events|
        invariant 0 <= i <= |events|
        invariant forall k :: 0 <= k < i ==> IsReload(events[k])
        invariant current == if i == 0 then initial else reloads[i - 1]
        invariant engine == EngineAfterLoad(current, accepts) && jobs == TableAfterLoad(current, accepts)
        invariant Valid()
        invariant !stopped && pingKey == old(pingKey)
      {
        var exit := HandleEvent(events[i], reloads[i], accepts);
        if exit {
          ExitIndexAt(events, i);
          return Returned, i;
        }
        current := reloads[i];
        i := i + 1;
      }
      ExitIndexAt(events, i);
      return StillWaiting, i;
    }
  }
}
