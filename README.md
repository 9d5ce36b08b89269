# mkvtag lifecycle engine in Dafny

mkvtag watches a directory of `.mkv` files. It runs `mkvpropedit
--add-track-statistics-tags` on each file once the file has stopped changing. It
records every file's status (`new`, `waiting`, `processing`, `done`, `failed`,
`gone`) and failure count in a JSON status log. This project models that engine
and proves properties of it.

- `wrappers.dfy` (`Wrappers`): `Option` and `Result`.
- `utils.dfy` (`Utils`): `coerce_to_bool`, `is_maybe_true` and `is_maybe_false`.
- `records.dfy` (`Records`): the value layer of a `File`. It holds the fields as
  one `FileState`. The side-effecting `mtime` and `size` property reads become
  functions from the old fields to the value read and the new fields. It also
  holds the log record that `to_json` emits and `from_json` loads, the decoded
  log, and what `save_to_log`, the `status` setter and `fail()` do to the fields
  and the log (`Machine`, `Saved`, `Setting`, `Failure`).
- `files.dfy` (`Files`): the `File` class, whose methods update its fields in
  place. `Registry` is the part of the tagger a `File` writes through: the file
  table `tagger.files`, the decoded log and `rename_exp`. The property reads,
  `to_json`, `save_to_log`, the `status` setter and `fail()` are proved against
  the value layer (`Snapshot() == Setting(old(Snapshot()), value, disk)`); the
  constructors and `rename` state their effect on the fields directly.
- `tagger.dfy` (`Tagger`): the engine.
  - `scan` is specified on values (`ScanStates`, `ScanLog`). It is built by the
    loops of the source (`GonePass`, `ResetPass`, `WritePass`) and proved equal
    to that specification.
  - `process_file` is specified as a state machine on values (`Process`,
    `Settle`, `Unsettle`, `Attempt`). The `File`-level methods and
    `MkvTagger.ProcessFile` are proved against it.
  - `process_dir`, the `.mkv` branch of `on_modified` and the start-up sequence
    are methods of `MkvTagger` (`Start` for the constructor).

The outside world is modelled as follows:

- The watched directory is a map from entry name to `Stat(size, mtime)`.
- The clock is an integer `now`. Both come together as an `Env`.
- The `time.sleep(SLEEP_TIME)` pause of the deferral branch is a second `Env`,
  `later`: the directory and clock after the pause.
- `MODIFIED_SAFE_TIME` is the parameter `safeTime`.
- The tagging command is an oracle `Invocation(tty, exitCode)`. The hard-coded
  test file name `sample_1280x720_failed.mkv` fails without running the command,
  as in the source.
- `process_dir` takes one `Env` pair and one `Invocation` per file name.
- File identity (`__eq__`, file.py:195-196) is `Records.SameFile`: equal names.
  `Tagger.ScanSameFile` shows that on a scanned table it is equality of keys.

Three behaviours of the source are easy to miss. The model keeps each of them:

- `save_to_log` rewrites every other log entry through `to_json`. That entry
  keeps its status and count, but its size and mtime are re-read from the
  directory when the file is there (`SaveLogEntries`).
- On a terminal, the command branch never sets `done` and ignores the exit code.
  The record stays `processing`.
- A record that has been given up on (failed three times or more) is run again
  if it was modified recently and is still over the pause. The deferral branch
  sets it to `waiting`, and the give-up test only looks at `failed` records
  (`ProcessRetriesGivenUpAfterModification`).

## Model

| member | source | states |
|---|---|---|
| Utils.Lower | mkvtag/utils.py:17 | lower-casing keeps the length and maps each character through ASCII lower-casing |
| Utils.IsMaybeTrue | mkvtag/utils.py:16-17 | only a text of one, three or four letters starting with `t` or `y`, in either case, can be maybe-true |
| Utils.IsMaybeFalse | mkvtag/utils.py:20-21 | only a text of one, two or five letters starting with `f` or `n`, in either case, can be maybe-false |
| Utils.CoerceToBool | mkvtag/utils.py:4-13 | the result is an error exactly in strict mode on text that is neither maybe-true nor maybe-false, the error names the text, and a value is `true` exactly when the text is maybe-true |
| Utils.WordSetsDisjoint | mkvtag/utils.py:16-21 | no text is both maybe-true and maybe-false |
| Utils.StrictAgreesWithLenient | mkvtag/utils.py:4-13 | where strict mode does not raise, it returns what lenient mode returns |
| Utils.CoerceIgnoresCase | mkvtag/utils.py:16-21 | texts that differ only in letter case get the same verdicts |
| Utils.MaybeTrueIffSpellsTrueWord | mkvtag/utils.py:16-17 | a text is maybe-true exactly when it spells `true`, `t`, `yes` or `y` in some mix of cases |
| Utils.MaybeFalseIffSpellsFalseWord | mkvtag/utils.py:20-21 | a text is maybe-false exactly when it spells `false`, `f`, `no` or `n` in some mix of cases |
| Utils.CoerceExamples | mkvtag/utils.py:4-13 | `YES` and `True` give true, `No` gives false in strict mode, and `maybe` gives false leniently and an error strictly |
| Records.Listing | mkvtag/tagger.py:125-126 | the listing is exactly the directory entries whose names end in `.mkv` |
| Records.Construct | mkvtag/file.py:20-55 | a new `File` is `new` with no failures whatever the keyword arguments say; a supplied current or previous value is kept; a current value not supplied is the stat value, or 0 for a missing file, whether or not a previous value is supplied; a previous value not supplied defaults to the current one |
| Records.Fresh | mkvtag/tagger.py:126 | a listed file enters as `new` with no failures, with current and previous mtime and size both the stat values, or 0 for a missing file |
| Records.Observe | mkvtag/file.py:88-96 | every read first moves the current value into the previous one; an existing file's stat value then becomes the current value and is returned; a missing file keeps and returns the current value |
| Records.ReadMtime | mkvtag/file.py:64-72 | the `mtime` property returns the mtime on disk, or the current mtime for a missing file, stores it as the current mtime, moves the old current mtime into the previous one, and changes nothing else |
| Records.ReadSize | mkvtag/file.py:88-96 | the `size` property returns the size on disk, or the current size for a missing file, stores it as the current size, moves the old current size into the previous one, and changes nothing else |
| Records.SizeCheck | mkvtag/file.py:80-82 | the check holds exactly when the previous size from before the read differs from the size read (the size on disk, or the current size for a missing file), and it leaves what the size read leaves |
| Records.RecentCheck | mkvtag/file.py:84-86 | the check holds exactly when the mtime read (on disk, or the current mtime for a missing file) is less than `safeTime` before `now`, and it leaves what the mtime read leaves |
| Records.MissingFileSettlesAfterOneCheck | mkvtag/file.py:80-82 | for a missing file, the first check reports whether the two size fields differed, and every later check reports no change |
| Records.AfterSizeChecks | mkvtag/file.py:80-82 | repeated size checks never change the name, status or failure count |
| Records.SizeCheckSettles | mkvtag/file.py:80-96 | with the size on disk held constant, after two checks both size fields equal it, and every later check reports no change |
| Records.WithStatus | mkvtag/file.py:123-126 | the setter stores the status, raises the count by one exactly when the status is `failed`, and keeps the name, sizes and mtimes |
| Records.Failing | mkvtag/file.py:134-136 | `fail()` sets `failed` and raises the count by exactly one |
| Records.FailIsSetFailed | mkvtag/file.py:123-138 | `fail()` and setting the status to `failed` update the fields alike |
| Records.FromJson | mkvtag/file.py:162-177 | the loaded record takes its name, status and count from the entry (count 0 when absent), and both size fields and both mtime fields come from the entry's size and mtime |
| Records.ToJson | mkvtag/file.py:179-186 | the emitted entry carries the stored status and count and the mtime and size read (on disk, or the current values for a missing file); the fields then hold those values as current and the old current values as previous |
| Records.ToJsonThenFromJson | mkvtag/file.py:162-186 | loading what `to_json` emitted gives back the name, status, count and the size and mtime emitted |
| Records.FromJsonThenToJson | mkvtag/file.py:162-186 | emitting a loaded entry gives the same entry, with size and mtime refreshed from the directory when the file is there |
| Records.Loaded | mkvtag/tagger.py:118-121 | every entry of a well-formed log is loaded under its own key |
| Records.LoggedFiles | mkvtag/tagger.py:95-123 | a blank log reads as empty; a log that is not JSON or not an object is a decoding error; a well-formed object loads as `Loaded` of its entries, every key with its logged status; anything else is an error |
| Records.SaveLog | mkvtag/file.py:188-193 | the written log is well formed and holds the logged keys plus this record's name |
| Records.Saved | mkvtag/file.py:188-193 | `save_to_log` leaves a well-formed log |
| Records.Setting | mkvtag/file.py:123-128 | the `status` setter leaves a well-formed log |
| Records.Failure | mkvtag/file.py:134-138 | `fail()` leaves a well-formed log |
| Records.SaveLogEntries | mkvtag/file.py:188-193 | the record's own entry is what `to_json` emits; every other entry keeps its status and count, and its size and mtime are re-read from the directory, or kept for a file that is not there |
| Records.MoveKey | mkvtag/file.py:159 | after the move the old key is gone (unless old and new are equal), the new key holds the old value, and every other key is untouched |
| Records.CleanName | mkvtag/file.py:104-109 | without a rename expression the clean name is the name itself |
| Files.Registry.constructor | mkvtag/tagger.py:39-42 | a blank log is written as `{}`; the registry is valid exactly when `logged_files` would succeed |
| Files.File.constructor | mkvtag/file.py:20-55 | `File(path, tagger, **kw)` holds the fields `Construct` specifies |
| Files.File.Of | mkvtag/file.py:162-177 | a `File` holding given fields, as `from_json` and `scan` build them |
| Files.File.Mtime | mkvtag/file.py:64-72 | the method returns and leaves what `ReadMtime` specifies |
| Files.File.Size | mkvtag/file.py:88-96 | the method returns and leaves what `ReadSize` specifies |
| Files.File.SizeChangedSinceLastCheck | mkvtag/file.py:80-82 | the method returns and leaves what `SizeCheck` specifies |
| Files.File.WasRecentlyModified | mkvtag/file.py:84-86 | the method returns and leaves what `RecentCheck` specifies |
| Files.File.ToJson | mkvtag/file.py:179-186 | the method emits and leaves what `Records.ToJson` specifies |
| Files.File.SaveToLog | mkvtag/file.py:188-193 | the log becomes `SaveLog` of the old log and this record, and the registry stays valid |
| Files.File.SetStatus | mkvtag/file.py:123-128 | the status is stored, the count goes up exactly for `failed`, the file is registered under its name, and the log is saved |
| Files.File.Fail | mkvtag/file.py:134-138 | one more failure, status `failed`, registered under its name, and the log is saved |
| Files.File.Rename | mkvtag/file.py:140-160 | `gone` and `waiting` records and unchanged names are not renamed; invalid targets and missing files fail with nothing changed; otherwise the file moves on disk, the record takes the new name under the new key, and its log entry moves from the old key to the new one |
| Tagger.NewFiles | mkvtag/tagger.py:138-143 | the new records are exactly the listed names that are unlogged or logged as `gone`, each a fresh record |
| Tagger.Merged | mkvtag/tagger.py:145 | the merged keys are the logged names plus the listed names, and every record carries its key as its name |
| Tagger.ScanStates | mkvtag/tagger.py:128-163 | `scan` returns one record per logged or listed name |
| Tagger.ScanLog | mkvtag/tagger.py:159-162 | `scan` writes a well-formed log with one entry per logged or listed name |
| Tagger.MarkGone | mkvtag/tagger.py:148-150 | a record whose file is not listed becomes `gone`, a listed one keeps its status, and no other field changes |
| Tagger.ResetStale | mkvtag/tagger.py:152-157 | the reset changes only the status and the mtime pair; a changed status is `new`; a changed mtime is the stat value, with the old one shifted to the previous mtime |
| Tagger.ScanSameFile | mkvtag/file.py:195-196 | in the table a scan returns, two records are equal under `__eq__` exactly when they sit under the same key |
| Tagger.ResetStaleOnlyRevivesStale | mkvtag/tagger.py:152-157 | the reset makes a record `new` exactly when it is neither done nor gone, its file exists, its mtime is more than 60 seconds old and it has failed fewer than three times; name, count and sizes never change |
| Tagger.ScanMarksUnlistedGone | mkvtag/tagger.py:148-150 | every returned record whose file is not listed is `gone` |
| Tagger.ScanAddsFreshRecords | mkvtag/tagger.py:138-145 | a listed file that is unlogged or logged as `gone` comes out `new` with no failures |
| Tagger.ScanKeepsLoggedOutcome | mkvtag/tagger.py:141-150 | without the reset, a listed file logged with another status keeps its logged status and count |
| Tagger.ScanKeepsDone | mkvtag/tagger.py:141-157 | a listed file logged as `done` stays `done`, with or without the reset |
| Tagger.ScanWritesWhatItReturns | mkvtag/tagger.py:159-163 | the written log loads back as the returned records: same status and count, and same size and mtime for files on disk |
| Tagger.ScannedReloads | mkvtag/tagger.py:159-162 | the same, for one key |
| Tagger.PreparedListed | mkvtag/tagger.py:148-157 | a listed record becomes `new` only through the reset of a stale record, and keeps its name and count |
| Tagger.ListedRecordSettles | mkvtag/tagger.py:148-162 | a listed record that is not `gone` is emitted unchanged by a second scan |
| Tagger.UnlistedRecordSettles | mkvtag/tagger.py:148-162 | an unlisted record is emitted as `gone`, and emitted unchanged by a second scan |
| Tagger.MergedKeepsLogged | mkvtag/tagger.py:138-145 | a logged record that is unlisted or not `gone` is merged as `from_json` loads it |
| Tagger.MergedFresh | mkvtag/tagger.py:138-145 | a listed record that is unlogged or logged as `gone` is merged as a fresh record |
| Tagger.ScanRecordSettles | mkvtag/tagger.py:128-163 | for each key, a second scan writes what the first wrote |
| Tagger.ScanIdempotent | mkvtag/tagger.py:128-163 | a second scan of an unchanged directory at the same time writes exactly the log the first wrote |
| Tagger.Settle | mkvtag/tagger.py:179-209 | the settling test keeps the log well formed and stops only as still-waiting or deferred |
| Tagger.Unsettle | mkvtag/tagger.py:180-209 | the branch for an unsettled file stops only as still-waiting or deferred |
| Tagger.SizeRecheck | mkvtag/tagger.py:185-195 | the size re-check stops only as deferred |
| Tagger.MtimeRecheck | mkvtag/tagger.py:197-209 | the mtime re-check stops only as deferred |
| Tagger.Attempt | mkvtag/tagger.py:211-264 | an attempt ends as given-up or invoked and keeps the log well formed |
| Tagger.Process | mkvtag/tagger.py:165-267 | `process_file` keeps the log well formed |
| Tagger.Proceed | mkvtag/tagger.py:179-267 | past the guards, the call never ends as done, gone or busy |
| Tagger.ReadTracks | mkvtag/file.py:64-96 | a property read keeps the name, status, count and log |
| Tagger.SavedTracks | mkvtag/file.py:188-193 | `save_to_log` keeps status and count, loses no entry, keeps every other entry's outcome, and puts the log in step with the file |
| Tagger.SettingTracks | mkvtag/file.py:123-138 | the setter and `fail()` set the status and count as promised and leave the log in step, every other entry's outcome kept |
| Tagger.RecheckTracks | mkvtag/tagger.py:185-209 | the re-checks keep status and count, and a deferral is saved to the log |
| Tagger.UnsettleTracks | mkvtag/tagger.py:180-209 | a `waiting` file is left untouched as still-waiting; any other becomes `waiting`; the count is kept; a deferral is saved |
| Tagger.SettleTracks | mkvtag/tagger.py:179-209 | the settling test keeps the count, lets through only the old status or `waiting`, and saves a deferral as `waiting` |
| Tagger.AttemptOutcome | mkvtag/tagger.py:211-264 | give-up happens exactly for `failed` with three or more failures, failing again only at exactly three; a run ends `failed` with one more failure when the command fails, `processing` on a terminal, and `done` otherwise |
| Tagger.MarkedTracks | mkvtag/tagger.py:219-225 | a retry resets a `failed` record to `new` and every run marks it `processing`; its failure count is kept and the log saves the change |
| Tagger.RunOutcome | mkvtag/tagger.py:222-264 | a record not given up on is run once: `failed` with one more failure when the command fails, `processing` on a terminal, `done` otherwise, and the log saves the result |
| Tagger.ProceedTracks | mkvtag/tagger.py:179-267 | past the guards, every other log entry keeps its outcome, the count rises by at most one, and a deferral is saved as `waiting` |
| Tagger.ProcessTracksRecord | mkvtag/tagger.py:165-267 | `process_file` loses no log entry, keeps every other entry's outcome, saves what it changes about the file, and never lowers the count or raises it by more than one |
| Tagger.ProcessSkipsFinished | mkvtag/tagger.py:167-174 | `done` records, and `gone` records whose file is still absent, are left exactly as they are |
| Tagger.ProcessBusy | mkvtag/tagger.py:170-177 | past those guards the call returns busy exactly when a file is being processed or this is the active one; a `gone` record that is back is `new` by then, and any other is untouched |
| Tagger.ProcessLeavesWaiting | mkvtag/tagger.py:179-181 | a `waiting` file that is still being written is left `waiting` with nothing saved |
| Tagger.ProcessDeferredIsWaiting | mkvtag/tagger.py:183-209 | a deferred file is `waiting`, and its log entry says so |
| Tagger.UnsettleOnStillDirectory | mkvtag/tagger.py:183-209 | on a directory unchanged over the pause, the re-checks defer only while the mtime is recent at `later`, and otherwise let the file through as `waiting` |
| Tagger.SettleOnStillDirectory | mkvtag/tagger.py:179-209 | on a directory unchanged over the pause, the settling test defers only while the mtime is recent at `later` |
| Tagger.ProcessDefersOnlyWhileModified | mkvtag/tagger.py:179-209 | on a directory unchanged over the pause, `process_file` defers a file only while its mtime is within `safeTime` of `later` |
| Tagger.SettleRecentThenStill | mkvtag/tagger.py:179-209 | a recently modified file that stays still over the pause settles as `waiting` |
| Tagger.ProcessRetriesGivenUpAfterModification | mkvtag/tagger.py:179-220 | a given-up record that was modified recently and stays still over the pause is run again |
| Tagger.VanishedFileIsRun | mkvtag/tagger.py:165-267 | a vanished file with an unseen size change is set to `waiting` once, then run to `done`, with both size fields brought together |
| Tagger.ProcessSettled | mkvtag/tagger.py:211-264 | a settled, idle record is given up on exactly when it is `failed` with three or more failures (failing once more only at three); otherwise the command runs and decides the status and count |
| Tagger.ReviveFile | mkvtag/tagger.py:170-174 | a `gone` record is set to `new` through the status setter; any other is untouched |
| Tagger.SettleFile | mkvtag/tagger.py:179-209 | the method ends where `Settle` ends and leaves the fields and log it specifies |
| Tagger.UnsettleFile | mkvtag/tagger.py:180-209 | the method ends where `Unsettle` ends and leaves the fields and log it specifies |
| Tagger.GonePass | mkvtag/tagger.py:148-150 | the loop marks exactly the unlisted records `gone` |
| Tagger.ResetPass | mkvtag/tagger.py:152-157 | the loop applies the reset to every record |
| Tagger.WritePass | mkvtag/tagger.py:159-162 | the loop emits every record through `to_json` and keeps the fields its reads leave |
| Tagger.Prepare | mkvtag/tagger.py:130-157 | merging, the gone pass and the optional reset give the prepared records |
| Tagger.EmittedStatesMatchSpec | mkvtag/tagger.py:159-163 | the records the write loop leaves are `ScanStates` |
| Tagger.EmittedLogMatchesSpec | mkvtag/tagger.py:159-162 | the log the write loop builds is `ScanLog` |
| Tagger.Reconcile | mkvtag/tagger.py:128-163 | the loops compute exactly `ScanStates` and `ScanLog` |
| Tagger.Wrap | mkvtag/tagger.py:138-145 | one fresh `File` per record, holding that record |
| Tagger.GiveUpFile | mkvtag/tagger.py:211-218 | at exactly three failures the record fails once more; above three it is untouched |
| Tagger.RetryFile | mkvtag/tagger.py:219-220 | a `failed` record goes back to `new` through the setter |
| Tagger.StartFile | mkvtag/tagger.py:222-264 | the record is set `processing`, and then the command's outcome is applied |
| Tagger.InvokeFile | mkvtag/tagger.py:219-264 | the retry, the `processing` mark and the command leave what `Attempt` specifies |
| Tagger.RunCommand | mkvtag/tagger.py:227-264 | a failing command fails the record; success off a terminal sets `done`; on a terminal nothing changes |
| Tagger.MkvTagger.constructor | mkvtag/tagger.py:18-21 | a new tagger is not processing and has no active file |
| Tagger.MkvTagger.Scan | mkvtag/tagger.py:128-163 | the log becomes `ScanLog`; the returned table has one fresh `File` per logged or listed name, holding `ScanStates` |
| Tagger.MkvTagger.AttemptFile | mkvtag/tagger.py:211-267 | the step and the fields and log are those `Attempt` specifies; the flags are down after a run and untouched after a give-up |
| Tagger.MkvTagger.Run | mkvtag/tagger.py:219-267 | the flags are raised around the command and lowered again, whatever the command does |
| Tagger.MkvTagger.ProcessFile | mkvtag/tagger.py:165-267 | the step and the fields and log are those `Process` specifies; the flags are down after an invocation and untouched otherwise; the file table only gains this file under its name |
| Tagger.MkvTagger.ProceedFile | mkvtag/tagger.py:179-267 | the same, past the guards, against `Proceed` |
| Tagger.MkvTagger.AttemptSettled | mkvtag/tagger.py:211-267 | once the settling test has let the file through, the run ends as `Proceed` says, on the fields and on the log |
| Tagger.MkvTagger.ProcessDir | mkvtag/tagger.py:60-62 | `process_file` runs on each record of the table as it stood at the start; no key is lost, a table whose records sit under their own names is kept as it is, no record changes its name, flags that were down stay down, and `done` records are untouched |
| Tagger.MkvTagger.Visit | mkvtag/tagger.py:61-62 | one turn of that loop leaves the file's fields and the log as `Process` specifies, keeps its name, and at most re-registers the file under its name; the flags end lowered or untouched; keys, idle flags and `done` records are kept |
| Tagger.MkvTagger.OnModified | mkvtag/tagger.py:75-82 | only `.mkv` names are handled; the table keeps the record under that name, a fresh one if there was none, and it ends with the step, fields and log `Process` specifies from its old fields or from a fresh record; the flags are lowered after a run and untouched otherwise, and every other file of the table is unchanged |
| Tagger.MkvTagger.Boot | mkvtag/tagger.py:56-58 | after `scan(reset=True)` and `process_dir` the table holds exactly the logged and listed names, each record under its own name, and a record the scan left `done` is exactly the scanned state |
| Tagger.Start | mkvtag/tagger.py:23-58 | start-up fails exactly when `logged_files` would raise, with its error; otherwise the tagger is idle and its table holds exactly the logged and listed names, each under its own name, with every record the start-up scan left `done` untouched by the pass |

## Left out

- mkvtag/run.py and mkvtag/args.py are not part of this model. They hold the
  watch loop, signal handling, the single-instance lock, the `which` check and
  argument parsing.
- The subprocess call and terminal streaming are replaced by the
  `Invocation` oracle. Running the command does not change the file's size or
  mtime in the model.
- Concurrency between the watchdog callback and the poll loop is not modelled.
  The flags are plain fields in a sequential model.
- `time.sleep` is the change from `env` to `later`. Printing and `humanize`
  output are left out.
- The log-file branch of `on_modified` is left out. It compares the table with a
  new scan through `DeepDiff` and then merges them. `OnModified` takes the file
  name, not the event path.
- JSON text and ISO-8601 dates are not modelled. The log is decoded into
  `LogDoc`, and times are whole seconds. A value whose record is missing a field
  is the single case `Malformed`. The log is assumed to stay well formed after
  start-up; corruption is only checked at start-up.
- The regular-expression substitution of `clean_name` is an uninterpreted
  function parameter of `Rename`.
- Files.File.Rename: the source opens the log with `"w"` and then reads it,
  which cannot succeed. The model performs the intended key move instead.
- The `status` getter's fallback to `scan()` is not modelled. `_status` is
  always set, so the fallback cannot run.
- The log path resolution in `__init__` (tagger.py:30-38) depends on `pathlib`
  semantics and is not modelled. The watched directory is assumed to exist.
- The rename pass of `scan` (tagger.py:132-135) is not modelled. It calls
  `rename` on files that may not be logged.
- Records.Loaded: a log is assumed to be keyed by its records' own names. The
  source keys each loaded record by the `name` field inside the item, and log
  entries here carry no name. A hand-edited log whose key and `name` differ, or
  two keys sharing one `name`, load differently in the source. So would a log
  rewritten by the intended key move of `rename`: the moved item still says the
  old name, so the source would reload it as the old name (then `gone`) and
  list the new name as a fresh `new` record. The model carries the record over
  to the new name.
- Records.LoggedFiles: loads each record under its log key, not the item's `name`,
  for the same reason as `Records.Loaded`.
- `coerce_to_bool` takes any value and applies `str` to it; the model takes
  the text. A non-string argument such as the bool `False` default of the
  command-line flags is modelled by its `str` text (`"False"`).
- Statuses outside the six the engine writes are not modelled. Lower-casing is
  ASCII only, which decides the eight boolean words alike.
- Dictionary order is not modelled. `ProcessDir` visits the table's keys in an
  unspecified order, and the log is a map.
- Tagger.MkvTagger.ProcessFile: the file table is stated only to be unchanged or
  updated with this file under its name. The contract does not say which.
- Tagger.MkvTagger.ProcessDir: the contract does not list each file's outcome.
  Those follow from `ProcessFile` one file at a time.
- Tagger.MkvTagger.Boot: states the table and the `done` records, not the
  outcome of the other records or the log after the pass, for the same reason
  as `ProcessDir`.
- Tagger.Start: the same as `Tagger.MkvTagger.Boot`.
- Tagger.MkvTagger.Visit: drops the step that `ProcessFile` returns, because
  `process_dir` ignores it. Without the step it can say only that the flags
  end lowered or untouched, not which.
