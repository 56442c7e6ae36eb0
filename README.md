# orgmcron core, modelled in Dafny

orgmcron is a long-running job scheduler. A job has:

- a name;
- a schedule, which is either a cron expression or an `@every`/`@daily`-style interval;
- an ordered list of shell commands;
- an optional healthcheck URL.

The scheduler arms one timer per job in a cron engine. When a timer fires, the job runner runs the job's commands one after another and appends a structured log. On a zero exit code, the healthcheck notifier pings the job's URL with the secret ping key substituted for `{pingkey}`.

The `add` and `edit` commands build jobs from form input and store them through the job store (`jobs.json`).

This project models:

- **Scheduler** (`scheduler.dfy`):
  - Schedule normalisation: a 5-field cron expression gets a leading seconds field.
  - The name-keyed schedule table, rebuilt wholesale on every load. A schedule the engine refuses is skipped.
  - The dispatch rule that gates the healthcheck on the run's outcome.
  - `UpdatePingKey`, `Stop` and the `Start` control loop over SIGHUP, SIGINT/SIGTERM, stop and reload events.
  - The scheduler is a class whose fields the methods update. The cron engine is a value held in one of those fields.
- **Job runner** (`jobrunner.dfy`):
  - `Execute` runs every command once, in order, and never stops at a failure.
  - It writes start banner, command marker, outcome line and end banner entries, and returns the last command's code.
  - `GetLogPath` gives the path of a job's log.
- **Healthcheck notifier** (`healthcheck.dfy`): the `{pingkey}` substitution and the 2xx success rule.
- **Job store** (`config.dfy`):
  - Loading the job list, where a missing file is an empty list.
  - Lookup by name, add (refused for a duplicate name), update in place, and delete.
  - The configuration and log directory paths.
- **`add` and `edit` commands** (`addcmd.dfy`, `editcmd.dfy`):
  - The name validator and the choice of schedule.
  - Parsing the commands text: one command per line, trimmed, blank lines dropped.
  - Building the healthcheck URL.
  - Recovering the form values from a stored job: schedule type, newline-joined commands, and the healthcheck name as the last URL segment.
  - Rebuilding the job under the same name.
- **Go's `strings` functions** that the core relies on (`gostrings.dfy`): `TrimSpace`, `Fields`, `Split`, `Join`, `ReplaceAll` and `HasPrefix`.

The outside world is an input:

- **The cron library:** `accepts(schedule)` says whether `AddFunc` accepts a schedule. Entry ids count up from 1 in each engine instance.
- **The shell:** one `Outcome` per command.
- **The HTTP client:** `get(url)`, the response for a URL.
- **Reading and decoding `jobs.json`:** a `StoredJobs` value.
- **The home directory and file-system set-up:** a `Host`.
- **The user's input to the forms:** `FormValues`, or a function from the values shown to the values submitted.

The list that an operation on the store would write back is that operation's result.

A failed reload does not keep the previous schedule. As the comment at `internal/scheduler/scheduler.go:48` says ("stop and clear existing jobs"), `LoadJobs` stops and drops the engine and empties the table before it reads the job list (`internal/scheduler/scheduler.go:49-59`). After a failed read, nothing is scheduled, and the fresh engine is never started. See `Scheduler.Scheduler.LoadJobs`, `EngineAfterLoad` and `TableAfterLoad`.

The table holds one binding per scheduled job name. `Scheduler.TableKeys` states precisely which names these are:

- The table's keys are the names of the jobs whose schedules the engine accepted.
- A later job with the same name takes over the binding.

## Model

| member | source | states |
|---|---|---|
| GoStrings.TrimSpaceShape | cmd/add.go:145 | the trimmed string has no leading or trailing ASCII white space, is no longer than the input, uses only characters of the input, and is empty exactly when the input is all white space |
| GoStrings.TrimSpaceFixed | cmd/add.go:145 | a string is left unchanged by trimming exactly when it is empty or starts and ends with a non-space |
| GoStrings.TrimSpaceIdempotent | cmd/add.go:145 | trimming twice is trimming once |
| GoStrings.Fields | internal/scheduler/scheduler.go:88 | every field is non-empty and contains no white space |
| GoStrings.FieldsConsWord | internal/scheduler/scheduler.go:91 | prefixing a one-character word and a space adds exactly one field in front |
| GoStrings.SplitPiecesAvoidSeparator | cmd/add.go:142 | no piece of a split contains the separator |
| GoStrings.SplitJoinRoundTrip | cmd/edit.go:44 | splitting the newline-join of a non-empty list of newline-free strings gives the list back |
| GoStrings.SplitLastPiece | cmd/edit.go:48-50 | the last piece of `a + "/" + b`, for `b` without `/`, is `b` |
| GoStrings.SplitLastIsSuffix | cmd/edit.go:48-50 | the last piece is the text after the last separator: a suffix of the input, the whole input when there is no separator, otherwise preceded by the separator |
| GoStrings.ReplaceAllIsSplitJoin | internal/healthcheck/healthcheck.go:15 | replacing every occurrence equals cutting at each occurrence and joining with the replacement |
| GoStrings.ReplaceAllAbsent | internal/healthcheck/healthcheck.go:15 | a string without the pattern is unchanged |
| GoStrings.ReplaceAllCopiesPrefix | internal/healthcheck/healthcheck.go:15 | text before the pattern's first character can occur is copied unchanged |
| GoStrings.ReplaceAllAtFront | internal/healthcheck/healthcheck.go:15 | a leading occurrence becomes the replacement |
| Config.PathJoin | internal/config/config.go:38 | an empty element is dropped, and otherwise exactly one `/` separates the two parts |
| Config.GetConfigDir | internal/config/config.go:33-39 | fails with NoHomeDir exactly when the home directory is unknown, otherwise gives `<home>/.config/orgmcron` |
| Config.GetLogsDir | internal/config/config.go:42-48 | fails exactly when the home directory is unknown, otherwise gives `<home>/.config/orgmcron/logs` |
| Config.LoadJobs | internal/config/config.go:75-97 | a missing file is an empty list; an unknown home, an unreadable file or invalid JSON is an error; otherwise the decoded list |
| Config.FirstMatch | internal/config/config.go:179-183 | the index of the first job with that name, or the list length exactly when no job has it |
| Config.GetJobByName | internal/config/config.go:173-186 | propagates a load error; succeeds exactly when the name is present, with the first job of that name; otherwise JobNotFound |
| Config.AddJob | internal/config/config.go:189-204 | propagates a load error; a present name is refused with DuplicateName; otherwise the job is appended at the end |
| Config.UpdateJob | internal/config/config.go:207-227 | propagates a load error; replaces the first job of that name in place, or reports JobNotFound |
| Config.DeleteJob | internal/config/config.go:230-250 | propagates a load error; removes exactly the first job of that name, keeping the others in order, or reports JobNotFound |
| Config.AddKeepsNamesUnique | internal/config/config.go:195-202 | appending a new name keeps names unique, and the new job is the one then found by name |
| Config.UpdateSameNameKeepsNames | internal/config/config.go:213-220 | replacing with a same-named job keeps every name, uniqueness and the position found, and the replacement is found |
| Config.DeleteRemovesName | internal/config/config.go:236-243 | with unique names, delete shortens the list by one, removes the name entirely and keeps the rest unique |
| Healthcheck.SendHealthcheck | internal/healthcheck/healthcheck.go:13-38 | one GET to the substituted URL; success exactly on a 2xx reply; a transport error is RequestFailed; another status is BadStatus with that status |
| Healthcheck.NoPlaceholderUnchanged | internal/healthcheck/healthcheck.go:15 | a URL without `{pingkey}` is requested as it is |
| Healthcheck.SubstitutionIsSplitJoin | internal/healthcheck/healthcheck.go:15 | the requested URL is the template cut at each `{pingkey}` and joined with the key |
| Healthcheck.TemplateSubstitution | internal/healthcheck/healthcheck.go:15 | in `prefix{pingkey}/name`, the key lands exactly where the placeholder was |
| JobRunner.LastCode | internal/job/job.go:45-69 | the code is 0 exactly when there are no commands or the last one succeeded (an exit error never carries code 0); another error of the last command gives 1 |
| JobRunner.RunStep | internal/job/job.go:46-69 | running one more command appends its marker and outcome line to the log and makes its code the last exit code |
| JobRunner.RunCommands | internal/job/job.go:45-70 | the loop runs every command in order; the log entries and last exit code are those of the outcome list |
| JobRunner.GetLogPath | internal/job/job.go:81-87 | fails exactly when the home directory is unknown, otherwise gives `<home>/.config/orgmcron/logs/<name>.log` |
| JobRunner.Execute | internal/job/job.go:15-78 | each set-up failure gives its own error with code 1 and runs nothing; otherwise all commands run once, in order, the code is the last command's, and the log is the banner, marker and outcome sequence |
| JobRunner.CommandEntriesLayout | internal/job/job.go:46-70 | command k gets its marker `k+1/n` at position 2k and exactly one outcome line after it |
| JobRunner.RunLogLayout | internal/job/job.go:40-74 | a run's log is a start banner, one marker and outcome pair per command, and an end banner carrying the returned code |
| Scheduler.NormalizeSchedule | internal/scheduler/scheduler.go:81-96 | macros are kept; the result is the input or `"0 "` plus the input; a non-macro result never has 5 fields |
| Scheduler.NormalizeFiveFields | internal/scheduler/scheduler.go:87-92 | exactly the non-macro 5-field schedules are rewritten, and they become 6-field ones |
| Scheduler.NormalizeIdempotent | internal/scheduler/scheduler.go:81-96 | normalising twice is normalising once |
| Scheduler.ArmedEntriesShape | internal/scheduler/scheduler.go:64-71 | entries have ids 1, 2, …, carry the normalised schedule the engine accepted, and belong to loaded jobs |
| Scheduler.TableKeys | internal/scheduler/scheduler.go:132-136 | the table's names are exactly the names of the jobs whose registration succeeded |
| Scheduler.TableMatchesEntries | internal/scheduler/scheduler.go:136 | every name in the table points at the last armed entry registered under it |
| Scheduler.RegistrationStep | internal/scheduler/scheduler.go:64-71 | registering one more job arms one more entry with the next id and binds its name exactly when the engine accepts its schedule |
| Scheduler.ConsistentAfterArming | internal/scheduler/scheduler.go:136 | arming an entry under the next id and binding its name to it keeps the table consistent with the engine |
| Scheduler.LoadConsistent | internal/scheduler/scheduler.go:49-76 | whatever a load read, failed or not, the table it leaves is consistent with its engine |
| Scheduler.ExitIndex | internal/scheduler/scheduler.go:176-209 | the loop handles reload events and exits at the first event that is not a reload |
| Scheduler.ExitIndexAt | internal/scheduler/scheduler.go:176-209 | a loop that handled only reloads before event `i` and leaves at event `i` exits at the first non-reload |
| Scheduler.Scheduler.constructor | internal/scheduler/scheduler.go:28-39 | an empty table, an engine that is not started, and the given key |
| Scheduler.Scheduler.ScheduleJob | internal/scheduler/scheduler.go:99-139 | the normalised schedule is registered; on success the name is bound to the new entry id, replacing any earlier binding; on refusal nothing changes |
| Scheduler.Scheduler.RegisterJobs | internal/scheduler/scheduler.go:64-71 | registering the loaded jobs in order gives the armed entries and table of the whole list; ping key and stop flag untouched |
| Scheduler.Scheduler.LoadJobs | internal/scheduler/scheduler.go:42-77 | the old table and engine are discarded before the read; a read error leaves them empty and unstarted; otherwise every job is registered in order, refused ones skipped, and the engine is started, with table and engine consistent |
| Scheduler.Scheduler.Reload | internal/scheduler/scheduler.go:149-151 | the same outcome as a load, returning the load's own error; table and engine stay consistent |
| Scheduler.Scheduler.UpdatePingKey | internal/scheduler/scheduler.go:142-146 | only the key changes; table and engine stay consistent |
| Scheduler.Scheduler.Stop | internal/scheduler/scheduler.go:154-159 | the engine is halted, the stop channel closed, and the table kept consistent with the engine |
| Scheduler.Scheduler.HandleEvent | internal/scheduler/scheduler.go:177-208 | the loop exits exactly on a non-reload event; SIGINT/SIGTERM halt the engine and close the stop channel; a call of `Stop` from outside does the same before the loop leaves on the closed channel; a reload rebuilds table and engine from the reload's read and keeps waiting; the scheduler is stopped exactly when the loop leaves |
| Scheduler.Scheduler.Dispatch | internal/scheduler/scheduler.go:103-130 | a healthcheck is sent exactly when the run had no run-level error, its code is 0 and the job has a URL, and it goes to the URL with the current key; a non-zero code is reported without a healthcheck |
| Scheduler.Scheduler.Start | internal/scheduler/scheduler.go:162-210 | an initial load error is returned; otherwise reloads keep the loop waiting and the table and engine are those of the last load; the loop returns at the first SIGINT/SIGTERM or call of `Stop`, and then, and only then, the engine is halted and the stop channel closed; table and engine stay consistent; the ping key is untouched |
| AddCmd.ChooseSchedule | cmd/add.go:134-139 | the cron expression when the type is "cron", the interval otherwise |
| AddCmd.HealthcheckUrl | cmd/add.go:152-155 | no URL exactly for an empty name, otherwise the fixed endpoint followed by the name |
| AddCmd.NonBlankTrimmed | cmd/add.go:144-149 | at most one command per line, none of them empty |
| AddCmd.ParseStep | cmd/add.go:144-149 | one more line adds its trimmed form to the commands exactly when it is not blank |
| AddCmd.CommandsComeFromLines | cmd/add.go:144-149 | every command is the trimmed form of some line |
| AddCmd.ParseCommands | cmd/add.go:142-149 | the loop computes the parsed command list, and every command is non-empty, trimmed and on one line |
| AddCmd.ParsedCommandsWellFormed | cmd/add.go:142-149 | every parsed command is non-empty, trimmed and free of newlines |
| AddCmd.WellFormedCommandsKept | cmd/add.go:144-149 | a list of non-empty trimmed commands is kept as it is |
| AddCmd.BuildJob | cmd/add.go:157-163 | the job carries the given name and well-formed commands, and has a healthcheck URL exactly when a healthcheck name was given |
| AddCmd.ValidateName | cmd/add.go:33-43 | an empty name is refused; a name the store holds is refused; a store that cannot be read lets every non-empty name through |
| AddCmd.Submit | cmd/add.go:133-168 | the job built from the forms is appended to the store unless its name is already there; load errors propagate |
| EditCmd.HealthcheckName | cmd/edit.go:47-52 | the text after the URL's last `/`: a `/`-free suffix, the whole URL when it has no `/`, empty when there is no URL |
| EditCmd.InitialForm | cmd/edit.go:34-52 | the type is "interval" exactly for `@` schedules; choosing the schedule from the opened form gives back the stored schedule |
| EditCmd.HealthcheckNameRoundTrip | cmd/edit.go:47-52 | a healthcheck name without `/` survives building its URL and reading it back |
| EditCmd.RebuiltUrlUsesFixedEndpoint | cmd/edit.go:163-167 | whatever host a stored URL has, the saved URL is the fixed endpoint plus its last segment |
| EditCmd.TrailingSlashDropsHealthcheck | cmd/edit.go:47-52 | a stored URL ending in `/` yields no name, so saving drops the healthcheck |
| EditCmd.CommandsRoundTrip | cmd/edit.go:153-161 | joining commands with newlines and parsing back gives the same list exactly when every command is non-empty, trimmed and on one line |
| EditCmd.UnchangedFormKeepsJob | cmd/edit.go:34-175 | submitting the opened forms unchanged gives back a job as the add command builds it |
| EditCmd.Edit | cmd/edit.go:17-179 | load errors and a missing job are reported; otherwise the first job of that name is replaced by the rebuilt job, and every name in the list, and so uniqueness, is unchanged |

## Left out

- **Cron expression parsing, timers and firing times:** these belong to the cron library. Its judgement is the `accepts` input, and a firing is one call of `Dispatch`.
- **Concurrency:**
  - The mutex and the goroutine per firing are not modelled.
  - The data race on the ping key between `UpdatePingKey` and running closures is not modelled.
  - `signal.Notify`, channels and the `select` are a sequence of `Event`s.
  - `TriggerReload` is not modelled, because it only sends on a channel. The channel is unbuffered and the send does not block, so a request is dropped whenever the loop is not waiting in its `select` at that moment (before the loop starts, while it handles another event, after it returns). A request either arrives as a `ReloadRequested` event or does not appear at all.
- **Process execution and output:** running `sh -c`, the commands' output written to the log, and the timestamps in the banners are not modelled. Outcomes are inputs, and banners carry no time.
- **Debug logging, and messages printed to stdout/stderr:** these only report and do not change state.
- **HTTP and JSON:** the HTTP client and its 10-second timeout are the `get` input. JSON encoding and decoding are not modelled; the decoded list is an input.
- **Saving the store:** `SaveJobs`, `EnsureConfigDir`, `EnsureLogsDir`, `LoadConfig` and `SaveConfig` are not modelled. A write failure after add, update or delete is not modelled: the result is the list that would be written.
- **`Config.PathJoin`:** does not model `filepath.Join`'s full cleaning of `.`, `..` and repeated separators.
- **`GoStrings.IsSpace`:** covers ASCII white space only. `strings.TrimSpace` and `strings.Fields` also treat Unicode spaces as white space.
- **`GoStrings.Split` and `GoStrings.ReplaceAll`:** are modelled for a non-empty separator or pattern only, the only way the core calls them.
- **The interactive forms:** they are inputs. Their own validators (a non-empty cron expression, a non-empty commands text) and the fixed list of interval choices are not modelled.
- **`JobRunner.Execute`:** takes the ping key and ignores it, as the source does.
- **`Scheduler.Scheduler.HandleEvent`:** a call of `Stop` from outside the loop is one event after which the loop leaves at once. Go's `select` picks at random among ready cases, so the source may first handle a pending SIGHUP or reload request, which builds and starts a fresh engine after the stop (`internal/scheduler/scheduler.go:51`, `:74`). That interleaving is not modelled.
- **`Scheduler.Scheduler.Stop`:** requires that the stop channel is still open. Closing it a second time panics in the source, and that panic is not modelled.
- **`EditCmd.Edit`:** reads the store once for both the lookup and the update. The source reads it twice and could see a change made in between.
- **Not part of this model:** the CLI plumbing and the service installation (systemd unit, `install`, `list`, `log`, `reload`, `start` commands).
