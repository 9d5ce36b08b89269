/**
  The lifecycle engine of mkvtag (mkvtag/tagger.py): `scan` reconciles the
  `.mkv` files in the watched directory with the status log, and
  `process_file` drives one file through new, waiting, processing, done and
  failed, calling the tagging command at most once per call.

  The directory and the clock are `Env` values: `env` when a call starts,
  `later` after the `SLEEP_TIME` pause of the deferral branch. The tagging
  command is an `Invocation` oracle.
 */
module Tagger {

  import opened Wrappers
  import opened Records
  import opened Files

  /** Records older than this many seconds are stale for the start-up reset. */
  const StaleAge := 60

  /** A failed record is given up once it has failed this many times. */
  const GiveUpThreshold := 3

  /** The file name the source fails on purpose, without running the command. */
  const FailingTestName := "sample_1280x720_failed.mkv"

  // ---------------------------------------------------------------------------
  // scan, on values
  // ---------------------------------------------------------------------------

  /** Listed files that are not logged, or whose logged status is `gone`, enter as fresh records. */
  function NewFiles(logged: map<string, FileState>, disk: Disk): (m: map<string, FileState>)
    ensures m.Keys == set n | n in Listing(disk) && (n !in logged || logged[n].status == Gone)
    ensures forall n :: n in m ==> m[n] == Fresh(n, disk)
  {
    map n | n in Listing(disk) && (n !in logged || logged[n].status == Gone) :: Fresh(n, disk)
  }

  /** `{**logged_files, **new_files}`. */
  function Merged(entries: map<string, LogItem>, disk: Disk): (m: map<string, FileState>)
    requires WellFormed(entries)
    ensures m.Keys == entries.Keys + Listing(disk)
    ensures forall n :: n in m ==> m[n].name == n
  {
    var logged := Loaded(entries);
    logged + NewFiles(logged, disk)
  }

  /** The first pass of `scan`: a record whose file is not listed is `gone`. */
  function MarkGone(name: string, s: FileState, disk: Disk): (r: FileState)
    ensures r.status == if name in Listing(disk) then s.status else Gone
    ensures r.(status := s.status) == s
  {
    if name !in Listing(disk) then s.(status := Gone) else s
  }

  /**
    The start-up reset of one record: one that is neither done nor gone and
    whose file exists has its mtime read; it goes back to `new` when that
    mtime is more than a minute old and it has failed fewer than three times.
   */
  function ResetStale(s: FileState, env: Env): (r: FileState)
    ensures r.(status := s.status, mtime := s.mtime, lastMtime := s.lastMtime) == s
    ensures r.status != s.status ==> r.status == New
    ensures r.mtime != s.mtime ==> s.name in env.disk && r.mtime == env.disk[s.name].mtime && r.lastMtime == s.mtime
  {
    if s.status != Done && s.status != Gone && s.name in env.disk then
      var r := ReadMtime(s, env.disk);
      if env.now - r.value > StaleAge && r.state.failedCount < GiveUpThreshold then r.state.(status := New)
      else r.state
    else s
  }

  /** A merged record after the gone pass and, on a reset scan, the reset pass. */
  function Prepared(name: string, s: FileState, env: Env, reset: bool): FileState
  {
    var g := MarkGone(name, s, env.disk);
    if reset then ResetStale(g, env) else g
  }

  /** One key of a scan: the merged record, prepared, then emitted by `to_json`. */
  function Scanned(entries: map<string, LogItem>, env: Env, reset: bool, n: string): Emitted
    requires WellFormed(entries) && n in Merged(entries, env.disk)
  {
    var merged := Merged(entries, env.disk);
    Records.ToJson(Prepared(n, merged[n], env, reset), env.disk)
  }

  /** The records `scan` returns: prepared, then read once more by `to_json` while the log is written. */
  function ScanStates(entries: map<string, LogItem>, env: Env, reset: bool): (m: map<string, FileState>)
    requires WellFormed(entries)
    ensures m.Keys == entries.Keys + Listing(env.disk)
    ensures forall n :: n in m ==> m[n].name == n
  {
    map n | n in Merged(entries, env.disk) :: Scanned(entries, env, reset, n).state
  }

  /** The log `scan` writes. */
  function ScanLog(entries: map<string, LogItem>, env: Env, reset: bool): (out: map<string, LogItem>)
    requires WellFormed(entries)
    ensures WellFormed(out)
    ensures out.Keys == entries.Keys + Listing(env.disk)
  {
    map n | n in Merged(entries, env.disk) :: Scanned(entries, env, reset, n).item
  }

  /**
    `__eq__` on the table a scan returns: every record sits under its own
    name, so two records are the same file exactly when their keys agree.
   */
  lemma ScanSameFile(entries: map<string, LogItem>, env: Env, reset: bool, a: string, b: string)
    requires WellFormed(entries)
    requires a in ScanStates(entries, env, reset) && b in ScanStates(entries, env, reset)
    ensures SameFile(ScanStates(entries, env, reset)[a], ScanStates(entries, env, reset)[b]) <==> a == b
  {
  }

  /** The start-up reset condition of tagger.py lines 154-156. */
  predicate Stale(s: FileState, env: Env)
  {
    && s.status != Done && s.status != Gone
    && s.name in env.disk
    && env.now - env.disk[s.name].mtime > StaleAge
    && s.failedCount < GiveUpThreshold
  }

  /**
    The reset turns a record into `new` exactly when it is stale; any other
    record keeps its status, and no record changes its name or count.
   */
  lemma ResetStaleOnlyRevivesStale(s: FileState, env: Env)
    ensures ResetStale(s, env).status == if Stale(s, env) then New else s.status
    ensures ResetStale(s, env).name == s.name && ResetStale(s, env).failedCount == s.failedCount
    ensures ResetStale(s, env).size == s.size && ResetStale(s, env).lastSize == s.lastSize
  {
  }

  /** Every record of a scan whose file is not listed comes out `gone`. */
  lemma ScanMarksUnlistedGone(entries: map<string, LogItem>, env: Env, reset: bool)
    requires WellFormed(entries)
    ensures forall n :: n in ScanStates(entries, env, reset) && n !in Listing(env.disk) ==>
      ScanStates(entries, env, reset)[n].status == Gone
  {
    var merged := Merged(entries, env.disk);
    forall n | n in ScanStates(entries, env, reset) && n !in Listing(env.disk)
      ensures ScanStates(entries, env, reset)[n].status == Gone
    {
      assert MarkGone(n, merged[n], env.disk).status == Gone;
    }
  }

  /** A listed file that is not logged, or whose logged status is `gone`, comes out `new` with no failures. */
  lemma ScanAddsFreshRecords(entries: map<string, LogItem>, env: Env, reset: bool)
    requires WellFormed(entries)
    ensures forall n :: n in Listing(env.disk) && (n !in entries || entries[n].status == Gone) ==>
      n in ScanStates(entries, env, reset) &&
      ScanStates(entries, env, reset)[n].status == New && ScanStates(entries, env, reset)[n].failedCount == 0
  {
    var merged := Merged(entries, env.disk);
    forall n | n in Listing(env.disk) && (n !in entries || entries[n].status == Gone)
      ensures n in ScanStates(entries, env, reset)
      ensures ScanStates(entries, env, reset)[n].status == New && ScanStates(entries, env, reset)[n].failedCount == 0
    {
      assert merged[n] == Fresh(n, env.disk);
      ResetStaleOnlyRevivesStale(merged[n], env);
    }
  }

  /** Without the reset, a listed file with a logged status other than `gone` keeps that status and count. */
  lemma ScanKeepsLoggedOutcome(entries: map<string, LogItem>, env: Env)
    requires WellFormed(entries)
    ensures forall n :: n in Listing(env.disk) && n in entries && entries[n].status != Gone ==>
      && ScanStates(entries, env, false)[n].status == entries[n].status
      && ScanStates(entries, env, false)[n].failedCount == entries[n].failedCount.GetOr(0)
  {
    var merged := Merged(entries, env.disk);
    forall n | n in Listing(env.disk) && n in entries && entries[n].status != Gone
      ensures ScanStates(entries, env, false)[n].status == entries[n].status
      ensures ScanStates(entries, env, false)[n].failedCount == entries[n].failedCount.GetOr(0)
    {
      assert merged[n] == FromJson(n, entries[n]);
    }
  }

  /** A listed file logged as `done` stays `done`, with or without the reset. */
  lemma ScanKeepsDone(entries: map<string, LogItem>, env: Env, reset: bool)
    requires WellFormed(entries)
    ensures forall n :: n in Listing(env.disk) && n in entries && entries[n].status == Done ==>
      ScanStates(entries, env, reset)[n].status == Done
  {
    var merged := Merged(entries, env.disk);
    forall n | n in Listing(env.disk) && n in entries && entries[n].status == Done
      ensures ScanStates(entries, env, reset)[n].status == Done
    {
      assert merged[n] == FromJson(n, entries[n]);
      ResetStaleOnlyRevivesStale(merged[n], env);
    }
  }

  /** The log a scan writes loads back as the records it returns: same status, count, size and mtime. */
  lemma ScanWritesWhatItReturns(entries: map<string, LogItem>, env: Env, reset: bool)
    requires WellFormed(entries)
    ensures var states := ScanStates(entries, env, reset);
      var back := Loaded(ScanLog(entries, env, reset));
      && back.Keys == states.Keys
      && forall n :: n in back ==>
           && back[n].status == states[n].status && back[n].failedCount == states[n].failedCount
           && (n in env.disk ==> back[n].size == states[n].size && back[n].mtime == states[n].mtime)
  {
    var states := ScanStates(entries, env, reset);
    var back := Loaded(ScanLog(entries, env, reset));
    forall n | n in back
      ensures back[n].status == states[n].status && back[n].failedCount == states[n].failedCount
      ensures n in env.disk ==> back[n].size == states[n].size && back[n].mtime == states[n].mtime
    {
      var e := Scanned(entries, env, reset, n);
      assert back[n] == FromJson(n, e.item);
      assert states[n] == e.state;
      ScannedReloads(entries, env, reset, n);
    }
  }

  /** One key of a scan: loading the emitted entry gives back the returned record's outcome. */
  lemma ScannedReloads(entries: map<string, LogItem>, env: Env, reset: bool, n: string)
    requires WellFormed(entries) && n in Merged(entries, env.disk)
    ensures var e := Scanned(entries, env, reset, n);
      var back := FromJson(n, e.item);
      && back.status == e.state.status && back.failedCount == e.state.failedCount
      && (n in env.disk ==> back.size == e.state.size && back.mtime == e.state.mtime)
  {
    var p := Prepared(n, Merged(entries, env.disk)[n], env, reset);
    assert p.name == n;
    ToJsonThenFromJson(p, env.disk);
  }

  /** A listed record's status and count after the gone and reset passes. */
  lemma PreparedListed(n: string, s: FileState, env: Env, reset: bool)
    requires n in Listing(env.disk) && s.name == n
    ensures Prepared(n, s, env, reset).status ==
      if reset && Stale(s, env) then New else s.status
    ensures Prepared(n, s, env, reset).failedCount == s.failedCount
    ensures Prepared(n, s, env, reset).name == n
  {
    ResetStaleOnlyRevivesStale(s, env);
  }

  /** A record of a listed file that is not `gone` is emitted again unchanged by a second scan. */
  lemma ListedRecordSettles(n: string, s: FileState, env: Env, reset: bool)
    requires n in Listing(env.disk) && s.name == n && s.status != Gone
    ensures var item := Records.ToJson(Prepared(n, s, env, reset), env.disk).item;
      item.status != Gone &&
      Records.ToJson(Prepared(n, FromJson(n, item), env, reset), env.disk).item == item
  {
    var p1 := Prepared(n, s, env, reset);
    var item := Records.ToJson(p1, env.disk).item;
    var m2 := FromJson(n, item);
    PreparedListed(n, s, env, reset);
    PreparedListed(n, m2, env, reset);
    assert Stale(m2, env) == Stale(p1, env);
    if reset && !Stale(s, env) {
      assert Stale(p1, env) == Stale(s, env);
    }
  }

  /** A record of an unlisted file is emitted again unchanged by a second scan. */
  lemma UnlistedRecordSettles(n: string, s: FileState, env: Env, reset: bool)
    requires n !in Listing(env.disk) && s.name == n
    ensures var item := Records.ToJson(Prepared(n, s, env, reset), env.disk).item;
      item.status == Gone &&
      Records.ToJson(Prepared(n, FromJson(n, item), env, reset), env.disk).item == item
  {
    var item := Records.ToJson(Prepared(n, s, env, reset), env.disk).item;
    assert Prepared(n, FromJson(n, item), env, reset) == FromJson(n, item);
    FromJsonThenToJson(n, item, env.disk);
  }

  /** A logged record that is not replaced by a fresh one is merged as `from_json` loads it. */
  lemma MergedKeepsLogged(entries: map<string, LogItem>, disk: Disk, n: string)
    requires WellFormed(entries) && n in entries
    requires n !in Listing(disk) || entries[n].status != Gone
    ensures n in Merged(entries, disk) && Merged(entries, disk)[n] == FromJson(n, entries[n])
  {
    var logged := Loaded(entries);
    assert n !in NewFiles(logged, disk);
  }

  /** The record a scan merges for a key that is not logged, or logged as `gone`, but listed. */
  lemma MergedFresh(entries: map<string, LogItem>, disk: Disk, n: string)
    requires WellFormed(entries) && n in Listing(disk)
    requires n !in entries || entries[n].status == Gone
    ensures n in Merged(entries, disk) && Merged(entries, disk)[n] == Fresh(n, disk)
  {
    var logged := Loaded(entries);
    assert n in NewFiles(logged, disk);
  }

  /** One record of a repeated scan: the second scan writes what the first wrote. */
  lemma ScanRecordSettles(entries: map<string, LogItem>, first: map<string, LogItem>, env: Env, reset: bool, n: string)
    requires WellFormed(entries) && first == ScanLog(entries, env, reset)
    requires n in first
    ensures n in ScanLog(first, env, reset) && ScanLog(first, env, reset)[n] == first[n]
  {
    var m1: FileState;
    if n in Listing(env.disk) && (n !in entries || entries[n].status == Gone) {
      MergedFresh(entries, env.disk, n);
      m1 := Fresh(n, env.disk);
    } else {
      MergedKeepsLogged(entries, env.disk, n);
      m1 := FromJson(n, entries[n]);
    }
    var item := Records.ToJson(Prepared(n, m1, env, reset), env.disk).item;
    assert first[n] == Scanned(entries, env, reset, n).item == item;
    if n in Listing(env.disk) {
      ListedRecordSettles(n, m1, env, reset);
    } else {
      UnlistedRecordSettles(n, m1, env, reset);
    }
    MergedKeepsLogged(first, env.disk, n);
    assert ScanLog(first, env, reset)[n] == Scanned(first, env, reset, n).item;
  }

  /**
    Scanning is idempotent: a second scan over an unchanged directory at the
    same time writes exactly the log the first one wrote.
   */
  lemma ScanIdempotent(entries: map<string, LogItem>, env: Env, reset: bool)
    requires WellFormed(entries)
    ensures ScanLog(ScanLog(entries, env, reset), env, reset) == ScanLog(entries, env, reset)
  {
    var first := ScanLog(entries, env, reset);
    var second := ScanLog(first, env, reset);
    forall n | n in first
      ensures n in second && second[n] == first[n]
    {
      ScanRecordSettles(entries, first, env, reset, n);
    }
    SameEntries(second, first);
  }

  lemma SameEntries(a: map<string, LogItem>, b: map<string, LogItem>)
    requires a.Keys == b.Keys
    requires forall n :: n in b ==> a[n] == b[n]
    ensures a == b
  {
  }

  // ---------------------------------------------------------------------------
  // process_file
  // ---------------------------------------------------------------------------

  /** What the tagging command does when it is run: whether stdout is a terminal, and its exit code. */
  datatype Invocation = Invocation(tty: bool, exitCode: int)

  /** The command raises `CalledProcessError`: the test file name, or a non-zero exit off a terminal. */
  predicate CommandFails(name: string, cmd: Invocation)
  {
    name == FailingTestName || (!cmd.tty && cmd.exitCode != 0)
  }

  /** Where `process_file` returned. */
  datatype Step =
    | AlreadyDone      // status `done`
    | StillGone        // status `gone` and the file is still absent
    | Busy             // another file is being processed, or this one is
    | StillWaiting     // unsettled and already `waiting`
    | Deferred         // set to `waiting` and still changing after the pause
    | GaveUp           // failed at least three times
    | Invoked          // the command was run (or failed on purpose)

  /** The test of tagger.py line 179: was the file recently modified, or did its size change. */
  function Unsettled(s: FileState, env: Env, safeTime: int): bool
  {
    var recent := RecentCheck(s, env, safeTime);
    recent.holds || SizeCheck(recent.state, env.disk).holds
  }

  /** How the settling test of `process_file` ends: go on (in the directory as it then is), or return. */
  datatype Settling = Settled(m: Machine, cur: Env) | Stopped(step: Step, m: Machine)

  /**
    Lines 179-209: a file that was recently modified or changed size is set
    to `waiting`, checked again after the pause and deferred if it is still
    changing.
   */
  function Settle(m: Machine, env: Env, later: Env, safeTime: int): (r: Settling)
    requires WellFormed(m.log)
    ensures WellFormed(r.m.log)
    ensures r.Stopped? ==> r.step == StillWaiting || r.step == Deferred
  {
    var recent := RecentCheck(m.file, env, safeTime);
    var m1 := m.(file := recent.state);
    if recent.holds then Unsettle(m1, env, later, safeTime)
    else
      var sized := SizeCheck(m1.file, env.disk);
      var m2 := m1.(file := sized.state);
      if sized.holds then Unsettle(m2, env, later, safeTime) else Settled(m2, env)
  }

  /** Lines 180-209, once the file is known to be unsettled. */
  function Unsettle(m: Machine, env: Env, later: Env, safeTime: int): (r: Settling)
    requires WellFormed(m.log)
    ensures WellFormed(r.m.log)
    ensures r.Stopped? ==> r.step == StillWaiting || r.step == Deferred
  {
    if m.file.status == Waiting then Stopped(StillWaiting, m)
    else
      var w := Setting(m, Waiting, env.disk);
      var again := SizeCheck(w.file, env.disk);
      var w1 := w.(file := again.state);
      if again.holds then SizeRecheck(w1, env, later) else MtimeRecheck(w1, env, later, safeTime)
  }

  /** Lines 185-195: read the size, pause, and defer if the size changed again. */
  function SizeRecheck(w: Machine, env: Env, later: Env): (r: Settling)
    requires WellFormed(w.log)
    ensures WellFormed(r.m.log)
    ensures r.Stopped? ==> r.step == Deferred
  {
    var z := ReadSize(w.file, env.disk);
    var after := SizeCheck(z.state, later.disk);
    var w2 := w.(file := after.state);
    if after.holds then Stopped(Deferred, Saved(w2, later.disk)) else Settled(w2, later)
  }

  /** Lines 197-209: read the mtime, pause, and defer if the file was modified recently. */
  function MtimeRecheck(w: Machine, env: Env, later: Env, safeTime: int): (r: Settling)
    requires WellFormed(w.log)
    ensures WellFormed(r.m.log)
    ensures r.Stopped? ==> r.step == Deferred
  {
    var tm := ReadMtime(w.file, env.disk);
    var after := RecentCheck(tm.state, later, safeTime);
    var w2 := w.(file := after.state);
    if after.holds then Stopped(Deferred, Saved(w2, later.disk)) else Settled(w2, later)
  }

  /** Where `process_file` returned, and the fields and log it left. */
  datatype Outcome = Outcome(step: Step, m: Machine)

  /**
    Lines 211-267: give up on a record that failed three times or more
    (failing it once more at exactly three), otherwise retry a failed one,
    mark it `processing` and run the command.
   */
  function Attempt(m: Machine, disk: Disk, cmd: Invocation): (o: Outcome)
    requires WellFormed(m.log)
    ensures WellFormed(o.m.log)
    ensures o.step == GaveUp || o.step == Invoked
  {
    if m.file.status == Failed && m.file.failedCount >= GiveUpThreshold then
      Outcome(GaveUp, if m.file.failedCount == GiveUpThreshold then Failure(m, disk) else m)
    else
      var r := if m.file.status == Failed then Setting(m, New, disk) else m;
      var p := Setting(r, Processing, disk);
      Outcome(Invoked,
        if CommandFails(p.file.name, cmd) then Failure(p, disk)
        else if cmd.tty then p
        else Setting(p, Done, disk))
  }

  /**
    `process_file` on values: `s` and `log` are the file's fields and the
    log when it is called, `busy` is the guard of line 176.
   */
  function Process(s: FileState, log: map<string, LogItem>, busy: bool, env: Env, later: Env, cmd: Invocation, safeTime: int): (o: Outcome)
    requires WellFormed(log)
    ensures WellFormed(o.m.log)
  {
    var m := Machine(s, log);
    if s.status == Done then Outcome(AlreadyDone, m)
    else if s.status == Gone && s.name !in env.disk then Outcome(StillGone, m)
    else
      var m1 := if s.status == Gone then Setting(m, New, env.disk) else m;
      if busy then Outcome(Busy, m1)
      else Proceed(m1, env, later, cmd, safeTime)
  }

  /** Lines 179-267, past the guards: settle, then attempt in the directory as it then is. */
  function Proceed(m: Machine, env: Env, later: Env, cmd: Invocation, safeTime: int): (o: Outcome)
    requires WellFormed(m.log)
    ensures WellFormed(o.m.log)
    ensures o.step != AlreadyDone && o.step != StillGone && o.step != Busy
  {
    match Settle(m, env, later, safeTime)
    case Stopped(step, m2) => Outcome(step, m2)
    case Settled(m2, cur) => Attempt(m2, cur.disk, cmd)
  }

  /** Past the guards, `process_file` returns where settling stops, or attempts in the directory settling leaves. */
  lemma ProceedAfterSettle(m: Machine, env: Env, later: Env, cmd: Invocation, safeTime: int)
    requires WellFormed(m.log)
    ensures var r := Settle(m, env, later, safeTime);
      Proceed(m, env, later, cmd, safeTime) ==
        if r.Stopped? then Outcome(r.step, r.m) else Attempt(r.m, r.cur.disk, cmd)
  {
  }

  // ---------------------------------------------------------------------------
  // Properties of process_file
  // ---------------------------------------------------------------------------

  /** The log holds the file's current status and failure count under its name. */
  predicate Synced(m: Machine)
  {
    && m.file.name in m.log
    && m.log[m.file.name].Entry?
    && m.log[m.file.name].status == m.file.status
    && m.log[m.file.name].failedCount == Some(m.file.failedCount)
  }

  /**
    `m` follows from `m0` by status updates, saves and property reads of
    one file: same name, no log entry lost, every other entry keeps its
    status and count, and a change to status or count (or a log that was
    already in step) leaves the log in step with the file.
   */
  predicate Tracks(m0: Machine, m: Machine)
  {
    && m.file.name == m0.file.name
    && m0.log.Keys <= m.log.Keys
    && OthersAgree(m0.log, m.log, m0.file.name)
    && (Synced(m0) || m.file.status != m0.file.status || m.file.failedCount != m0.file.failedCount ==> Synced(m))
  }

  lemma TracksTransitive(a: Machine, b: Machine, c: Machine)
    requires Tracks(a, b) && Tracks(b, c)
    ensures Tracks(a, c)
  {
    OthersAgreeTransitive(a.log, b.log, c.log, a.file.name);
  }

  /** A property read changes neither the log nor the file's name, status or count. */
  lemma ReadTracks(m: Machine, f: FileState)
    requires WellFormed(m.log)
    requires f.name == m.file.name && f.status == m.file.status && f.failedCount == m.file.failedCount
    ensures Tracks(m, m.(file := f))
  {
  }

  /** `save_to_log` brings the log in step with the file and keeps every other entry's outcome. */
  lemma SavedTracks(m: Machine, disk: Disk)
    requires WellFormed(m.log)
    ensures Tracks(m, Saved(m, disk)) && Synced(Saved(m, disk))
    ensures Saved(m, disk).file.status == m.file.status && Saved(m, disk).file.failedCount == m.file.failedCount
  {
    SaveLogEntries(m.log, m.file, disk);
  }

  /** The status setter and `fail()`, as steps that keep `Tracks`. */
  lemma SettingTracks(m: Machine, value: Status, disk: Disk)
    requires WellFormed(m.log)
    ensures Tracks(m, Setting(m, value, disk)) && Synced(Setting(m, value, disk))
    ensures Setting(m, value, disk).file.status == value
    ensures Setting(m, value, disk).file.failedCount == m.file.failedCount + if value == Failed then 1 else 0
    ensures Tracks(m, Failure(m, disk)) && Synced(Failure(m, disk))
    ensures Failure(m, disk).file.status == Failed && Failure(m, disk).file.failedCount == m.file.failedCount + 1
  {
    SavedTracks(m.(file := WithStatus(m.file, value)), disk);
    SavedTracks(m.(file := Failing(m.file)), disk);
  }

  /** The re-checks after the pause keep the status and count, and a deferral is saved. */
  lemma {:induction false} RecheckTracks(w: Machine, env: Env, later: Env, safeTime: int)
    requires WellFormed(w.log)
    ensures var r := SizeRecheck(w, env, later);
      Tracks(w, r.m) && r.m.file.status == w.file.status && r.m.file.failedCount == w.file.failedCount
      && (r.Stopped? ==> Synced(r.m))
    ensures var r := MtimeRecheck(w, env, later, safeTime);
      Tracks(w, r.m) && r.m.file.status == w.file.status && r.m.file.failedCount == w.file.failedCount
      && (r.Stopped? ==> Synced(r.m))
  {
    var z := ReadSize(w.file, env.disk);
    var sized := SizeCheck(z.state, later.disk);
    var ws := w.(file := sized.state);
    ReadTracks(w, sized.state);
    SavedTracks(ws, later.disk);
    TracksTransitive(w, ws, Saved(ws, later.disk));
    var tm := ReadMtime(w.file, env.disk);
    var recent := RecentCheck(tm.state, later, safeTime);
    var wt := w.(file := recent.state);
    ReadTracks(w, recent.state);
    SavedTracks(wt, later.disk);
    TracksTransitive(w, wt, Saved(wt, later.disk));
  }

  /** The settling test keeps the name and count; a file not yet `waiting` becomes `waiting`. */
  lemma {:induction false} UnsettleTracks(m: Machine, env: Env, later: Env, safeTime: int)
    requires WellFormed(m.log)
    ensures var r := Unsettle(m, env, later, safeTime);
      && Tracks(m, r.m) && r.m.file.failedCount == m.file.failedCount
      && (r.Stopped? && r.step == StillWaiting <==> m.file.status == Waiting)
      && (m.file.status == Waiting ==> r.m == m)
      && (m.file.status != Waiting ==> r.m.file.status == Waiting)
      && (r.Stopped? && r.step == Deferred ==> Synced(r.m))
  {
    if m.file.status != Waiting {
      var w := Setting(m, Waiting, env.disk);
      SettingTracks(m, Waiting, env.disk);
      var again := SizeCheck(w.file, env.disk);
      var w1 := w.(file := again.state);
      ReadTracks(w, again.state);
      TracksTransitive(m, w, w1);
      RecheckTracks(w1, env, later, safeTime);
      if again.holds {
        TracksTransitive(m, w1, SizeRecheck(w1, env, later).m);
      } else {
        TracksTransitive(m, w1, MtimeRecheck(w1, env, later, safeTime).m);
      }
    }
  }

  lemma {:induction false} SettleTracks(m: Machine, env: Env, later: Env, safeTime: int)
    requires WellFormed(m.log)
    ensures var r := Settle(m, env, later, safeTime);
      && Tracks(m, r.m) && r.m.file.failedCount == m.file.failedCount
      && (r.Settled? ==> r.m.file.status == m.file.status || r.m.file.status == Waiting)
      && (r.Stopped? && r.step == Deferred ==> Synced(r.m) && r.m.file.status == Waiting)
  {
    var recent := RecentCheck(m.file, env, safeTime);
    var m1 := m.(file := recent.state);
    ReadTracks(m, recent.state);
    if recent.holds {
      UnsettleTracks(m1, env, later, safeTime);
      TracksTransitive(m, m1, Unsettle(m1, env, later, safeTime).m);
    } else {
      var sized := SizeCheck(m1.file, env.disk);
      var m2 := m1.(file := sized.state);
      ReadTracks(m1, sized.state);
      TracksTransitive(m, m1, m2);
      if sized.holds {
        UnsettleTracks(m2, env, later, safeTime);
        TracksTransitive(m, m2, Unsettle(m2, env, later, safeTime).m);
      }
    }
  }

  /**
    What an attempt leaves: a give-up fails the record once more only at
    exactly three failures; a run ends `failed` (one more failure) when the
    command fails, `processing` when it streamed to a terminal, and `done`
    otherwise.
   */
  lemma {:induction false} AttemptOutcome(m: Machine, disk: Disk, cmd: Invocation)
    requires WellFormed(m.log)
    ensures var o := Attempt(m, disk, cmd);
      && Tracks(m, o.m)
      && (o.step == GaveUp <==> m.file.status == Failed && m.file.failedCount >= GiveUpThreshold)
      && (o.step == GaveUp ==>
            o.m.file.status == Failed &&
            o.m.file.failedCount == m.file.failedCount + if m.file.failedCount == GiveUpThreshold then 1 else 0)
      && (o.step == Invoked ==>
            && o.m.file.status == (if CommandFails(m.file.name, cmd) then Failed else if cmd.tty then Processing else Done)
            && o.m.file.failedCount == m.file.failedCount + if CommandFails(m.file.name, cmd) then 1 else 0)
  {
    if m.file.status == Failed && m.file.failedCount >= GiveUpThreshold {
      SettingTracks(m, Failed, disk);
    } else {
      RunOutcome(m, disk, cmd);
    }
  }

  /** The record an attempt marks `processing` before running the command. */
  function Marked(m: Machine, disk: Disk): (p: Machine)
    requires WellFormed(m.log)
    ensures WellFormed(p.log)
  {
    Setting(if m.file.status == Failed then Setting(m, New, disk) else m, Processing, disk)
  }

  /** Marking a record `processing` (after a retry's reset to `new`) keeps its count and tracks it. */
  lemma {:induction false} MarkedTracks(m: Machine, disk: Disk)
    requires WellFormed(m.log)
    ensures var p := Marked(m, disk);
      Tracks(m, p) && p.file.status == Processing && p.file.failedCount == m.file.failedCount
  {
    var r := if m.file.status == Failed then Setting(m, New, disk) else m;
    SettingTracks(m, New, disk);
    SettingTracks(r, Processing, disk);
    TracksTransitive(m, r, Setting(r, Processing, disk));
  }

  /** The run branch of `AttemptOutcome`: a record not given up on is run once. */
  lemma {:induction false} RunOutcome(m: Machine, disk: Disk, cmd: Invocation)
    requires WellFormed(m.log)
    requires !(m.file.status == Failed && m.file.failedCount >= GiveUpThreshold)
    ensures var o := Attempt(m, disk, cmd);
      && Tracks(m, o.m) && o.step == Invoked
      && o.m.file.status == (if CommandFails(m.file.name, cmd) then Failed else if cmd.tty then Processing else Done)
      && o.m.file.failedCount == m.file.failedCount + if CommandFails(m.file.name, cmd) then 1 else 0
  {
    var p := Marked(m, disk);
    MarkedTracks(m, disk);
    assert Attempt(m, disk, cmd) == Outcome(Invoked,
      if CommandFails(p.file.name, cmd) then Failure(p, disk)
      else if cmd.tty then p
      else Setting(p, Done, disk));
    SettingTracks(p, Done, disk);
    if CommandFails(p.file.name, cmd) {
      TracksTransitive(m, p, Failure(p, disk));
    } else if !cmd.tty {
      TracksTransitive(m, p, Setting(p, Done, disk));
    }
  }

  /** Past the guards, `process_file` tracks the record and saves a deferral as `waiting`. */
  lemma {:induction false} ProceedTracks(m: Machine, env: Env, later: Env, cmd: Invocation, safeTime: int)
    requires WellFormed(m.log)
    ensures var o := Proceed(m, env, later, cmd, safeTime);
      && Tracks(m, o.m)
      && m.file.failedCount <= o.m.file.failedCount <= m.file.failedCount + 1
      && (o.step == Deferred ==> Synced(o.m) && o.m.file.status == Waiting)
  {
    SettleTracks(m, env, later, safeTime);
    match Settle(m, env, later, safeTime)
    case Stopped(_, _) =>
    case Settled(m2, cur) =>
      AttemptOutcome(m2, cur.disk, cmd);
      TracksTransitive(m, m2, Attempt(m2, cur.disk, cmd).m);
  }

  /**
    `process_file` keeps every other log entry's status and count, loses no
    entry, saves whatever it changes about the file, and raises the failure
    count by at most one.
   */
  lemma {:induction false} ProcessTracksRecord(s: FileState, log: map<string, LogItem>, busy: bool, env: Env,
                                               later: Env, cmd: Invocation, safeTime: int)
    requires WellFormed(log)
    ensures var o := Process(s, log, busy, env, later, cmd, safeTime);
      && Tracks(Machine(s, log), o.m)
      && s.failedCount <= o.m.file.failedCount <= s.failedCount + 1
  {
    var m := Machine(s, log);
    if s.status != Done && !(s.status == Gone && s.name !in env.disk) {
      var m1 := if s.status == Gone then Setting(m, New, env.disk) else m;
      SettingTracks(m, New, env.disk);
      if !busy {
        ProceedTracks(m1, env, later, cmd, safeTime);
        TracksTransitive(m, m1, Proceed(m1, env, later, cmd, safeTime).m);
      }
    }
  }

  /** Done files, and gone files that are still absent, are left exactly as they are. */
  lemma ProcessSkipsFinished(s: FileState, log: map<string, LogItem>, busy: bool, env: Env,
                             later: Env, cmd: Invocation, safeTime: int)
    requires WellFormed(log)
    requires s.status == Done || (s.status == Gone && s.name !in env.disk)
    ensures Process(s, log, busy, env, later, cmd, safeTime) ==
      Outcome(if s.status == Done then AlreadyDone else StillGone, Machine(s, log))
  {
  }

  /**
    Past those guards, the call returns `Busy` exactly when another file (or
    this one) is being processed; a gone file that is back has been set to
    `new` by then, any other keeps its status.
   */
  lemma ProcessBusy(s: FileState, log: map<string, LogItem>, busy: bool, env: Env,
                    later: Env, cmd: Invocation, safeTime: int)
    requires WellFormed(log)
    requires s.status != Done && !(s.status == Gone && s.name !in env.disk)
    ensures var o := Process(s, log, busy, env, later, cmd, safeTime);
      && (o.step == Busy <==> busy)
      && (busy ==> o.m.file.status == (if s.status == Gone then New else s.status))
      && (busy && s.status != Gone ==> o.m == Machine(s, log))
  {
    SettingTracks(Machine(s, log), New, env.disk);
  }

  /** A file already `waiting` that is still being written is left alone: nothing is saved. */
  lemma ProcessLeavesWaiting(s: FileState, log: map<string, LogItem>, env: Env,
                             later: Env, cmd: Invocation, safeTime: int)
    requires WellFormed(log)
    requires s.status == Waiting && Unsettled(s, env, safeTime)
    ensures var o := Process(s, log, false, env, later, cmd, safeTime);
      o.step == StillWaiting && o.m.log == log && o.m.file.status == Waiting
      && o.m.file.failedCount == s.failedCount
  {
    var m := Machine(s, log);
    var recent := RecentCheck(s, env, safeTime);
    var m1 := m.(file := recent.state);
    if recent.holds {
      UnsettleTracks(m1, env, later, safeTime);
    } else {
      var m2 := m1.(file := SizeCheck(m1.file, env.disk).state);
      UnsettleTracks(m2, env, later, safeTime);
    }
  }

  /** A deferred file is `waiting`, and the log says so. */
  lemma ProcessDeferredIsWaiting(s: FileState, log: map<string, LogItem>, busy: bool, env: Env,
                                 later: Env, cmd: Invocation, safeTime: int)
    requires WellFormed(log)
    ensures var o := Process(s, log, busy, env, later, cmd, safeTime);
      o.step == Deferred ==> o.m.file.status == Waiting && s.name in o.m.log && o.m.log[s.name].status == Waiting
  {
    var m := Machine(s, log);
    if s.status != Done && !(s.status == Gone && s.name !in env.disk) && !busy {
      var m1 := if s.status == Gone then Setting(m, New, env.disk) else m;
      SettingTracks(m, New, env.disk);
      ProceedTracks(m1, env, later, cmd, safeTime);
    }
  }

  /**
    With the directory unchanged over the pause, the re-checks defer a
    file only when its mtime is still recent at `later`; the size re-check
    compares against a size already read from the same directory.
   */
  lemma {:induction false} UnsettleOnStillDirectory(m: Machine, env: Env, later: Env, safeTime: int)
    requires WellFormed(m.log)
    requires later.disk == env.disk && m.file.name in env.disk && m.file.status != Waiting
    ensures var r := Unsettle(m, env, later, safeTime);
      && (r.Stopped? ==> later.now - env.disk[m.file.name].mtime < safeTime)
      && (later.now - env.disk[m.file.name].mtime >= safeTime ==> r.Settled? && r.m.file.status == Waiting)
  {
    var w := Setting(m, Waiting, env.disk);
    SettingTracks(m, Waiting, env.disk);
    var again := SizeCheck(w.file, env.disk);
    var w1 := w.(file := again.state);
    assert w1.file.size == env.disk[m.file.name].size;
    RecheckTracks(w1, env, later, safeTime);
    if again.holds {
      var z := ReadSize(w1.file, env.disk);
      assert z.state.lastSize == w1.file.size;
      assert SizeRecheck(w1, env, later).Settled?;
    }
  }

  /** The settling test, on a directory that does not change during the pause. */
  lemma {:induction false} SettleOnStillDirectory(m: Machine, env: Env, later: Env, safeTime: int)
    requires WellFormed(m.log)
    requires later.disk == env.disk && m.file.name in env.disk
    ensures var r := Settle(m, env, later, safeTime);
      r.Stopped? && r.step == Deferred ==> later.now - env.disk[m.file.name].mtime < safeTime
  {
    var recent := RecentCheck(m.file, env, safeTime);
    var n1 := m.(file := recent.state);
    var n2 := n1.(file := SizeCheck(n1.file, env.disk).state);
    if n1.file.status != Waiting {
      UnsettleOnStillDirectory(n1, env, later, safeTime);
      UnsettleOnStillDirectory(n2, env, later, safeTime);
    }
  }

  /**
    On a directory that does not change during the pause, `process_file`
    defers a file only if its mtime is still within `safeTime` of `later`.
   */
  lemma ProcessDefersOnlyWhileModified(s: FileState, log: map<string, LogItem>, busy: bool, env: Env,
                                       later: Env, cmd: Invocation, safeTime: int)
    requires WellFormed(log)
    requires later.disk == env.disk && s.name in env.disk
    ensures Process(s, log, busy, env, later, cmd, safeTime).step == Deferred ==>
      later.now - env.disk[s.name].mtime < safeTime
  {
    var m := Machine(s, log);
    if s.status != Done && !busy {
      var m1 := if s.status == Gone then Setting(m, New, env.disk) else m;
      SettingTracks(m, New, env.disk);
      SettleOnStillDirectory(m1, env, later, safeTime);
    }
  }

  /**
    A record that has been given up on (failed, three failures or more) is
    run again when its file was modified recently and then stays still over
    the pause: it passes through `waiting`, which skips the give-up test.
   */
  lemma ProcessRetriesGivenUpAfterModification(s: FileState, log: map<string, LogItem>, env: Env,
                                               later: Env, cmd: Invocation, safeTime: int)
    requires WellFormed(log)
    requires s.status == Failed && s.failedCount >= GiveUpThreshold
    requires s.name in env.disk && env.now - env.disk[s.name].mtime < safeTime
    requires later.disk == env.disk && later.now - env.disk[s.name].mtime >= safeTime
    ensures Process(s, log, false, env, later, cmd, safeTime).step == Invoked
  {
    var m := Machine(s, log);
    SettleRecentThenStill(m, env, later, safeTime);
    var r := Settle(m, env, later, safeTime);
    AttemptOutcome(r.m, r.cur.disk, cmd);
    assert Process(s, log, false, env, later, cmd, safeTime) == Attempt(r.m, r.cur.disk, cmd);
  }

  /** A file modified recently that stays still over the pause settles as `waiting`. */
  lemma {:induction false} SettleRecentThenStill(m: Machine, env: Env, later: Env, safeTime: int)
    requires WellFormed(m.log) && m.file.status != Waiting
    requires m.file.name in env.disk && env.now - env.disk[m.file.name].mtime < safeTime
    requires later.disk == env.disk && later.now - env.disk[m.file.name].mtime >= safeTime
    ensures var r := Settle(m, env, later, safeTime);
      r.Settled? && r.m.file.status == Waiting
  {
    var recent := RecentCheck(m.file, env, safeTime);
    var n1 := m.(file := recent.state);
    UnsettleOnStillDirectory(n1, env, later, safeTime);
  }

  /**
    A file that has vanished with an unseen size change is set to `waiting`
    once; the property reads then bring both size fields together, so the
    second check sees no change and the command runs.
   */
  lemma VanishedFileIsRun()
    ensures var o := Process(FileState("a.mkv", 50, 50, 200, 100, New, 0), map[], false,
                             Env(map[], 1000), Env(map[], 1000), Invocation(false, 0), 10);
      o.step == Invoked && o.m.file.status == Done && o.m.file.size == o.m.file.lastSize == 200
  {
    var s := FileState("a.mkv", 50, 50, 200, 100, New, 0);
    var m := Machine(s, map[]);
    var env := Env(map[], 1000);
    var w := Setting(m.(file := s.(lastSize := 200)), Waiting, env.disk);
    assert w.file == s.(lastSize := 200, status := Waiting);
    assert Settle(m, env, env, 10) == Settled(w, env);
  }

  /**
    A file that is neither being written nor busy is attempted: a record
    that failed three times or more is given up on (failing once more only
    at exactly three), any other is run, and the command decides its status.
   */
  lemma ProcessSettled(s: FileState, log: map<string, LogItem>, env: Env,
                       later: Env, cmd: Invocation, safeTime: int)
    requires WellFormed(log)
    requires s.status != Done && s.status != Gone && !Unsettled(s, env, safeTime)
    ensures var o := Process(s, log, false, env, later, cmd, safeTime);
      && (o.step == GaveUp <==> s.status == Failed && s.failedCount >= GiveUpThreshold)
      && (o.step == GaveUp ==>
            o.m.file.status == Failed &&
            o.m.file.failedCount == s.failedCount + if s.failedCount == GiveUpThreshold then 1 else 0)
      && (o.step != GaveUp ==>
            o.step == Invoked &&
            o.m.file.status == (if CommandFails(s.name, cmd) then Failed else if cmd.tty then Processing else Done) &&
            o.m.file.failedCount == s.failedCount + if CommandFails(s.name, cmd) then 1 else 0)
  {
    var m := Machine(s, log);
    var recent := RecentCheck(s, env, safeTime);
    var m1 := m.(file := recent.state);
    var m2 := m1.(file := SizeCheck(m1.file, env.disk).state);
    assert Settle(m, env, later, safeTime) == Settled(m2, env);
    AttemptOutcome(m2, env.disk, cmd);
  }

  /** Lines 170-174: a `gone` record whose file is back becomes `new`. */
  method ReviveFile(file: File, disk: Disk)
    requires file.registry.Valid()
    modifies file, file.registry
    ensures file.registry.Valid()
    ensures file.name == old(file.name)
    ensures var m := old(file.Snapshot());
      file.Snapshot() == if m.file.status == Gone then Setting(m, New, disk) else m
    ensures file.registry.files == old(file.registry.files) ||
            file.registry.files == old(file.registry.files)[file.name := file]
  {
    if file.status == Gone {
      file.SetStatus(New, disk);
    }
  }

  lemma UpdateAgain<K, V>(m: map<K, V>, k: K, v: V)
    ensures m[k := v][k := v] == m[k := v]
  {
  }

  /** Lines 179-209 on a `File`: `stopped` is where `process_file` returns, `cur` the directory it goes on in. */
  method SettleFile(file: File, env: Env, later: Env, safeTime: int) returns (stopped: Option<Step>, cur: Env)
    requires file.registry.Valid()
    modifies file, file.registry
    ensures file.registry.Valid()
    ensures file.name == old(file.name)
    ensures var r := Settle(old(file.Snapshot()), env, later, safeTime);
      && file.Snapshot() == r.m
      && (stopped.Some? <==> r.Stopped?)
      && (r.Stopped? ==> stopped.value == r.step)
      && (r.Settled? ==> cur == r.cur)
    ensures file.registry.files == old(file.registry.files) ||
            file.registry.files == old(file.registry.files)[file.name := file]
  {
    var recent := file.WasRecentlyModified(env, safeTime);
    var unsettled := recent;
    if !recent {
      unsettled := file.SizeChangedSinceLastCheck(env.disk);
    }
    if !unsettled {
      return None, env;
    }
    stopped, cur := UnsettleFile(file, env, later, safeTime);
  }

  /** Lines 180-209 on a `File` known to be unsettled. */
  method UnsettleFile(file: File, env: Env, later: Env, safeTime: int) returns (stopped: Option<Step>, cur: Env)
    requires file.registry.Valid()
    modifies file, file.registry
    ensures file.registry.Valid()
    ensures file.name == old(file.name)
    ensures var r := Unsettle(old(file.Snapshot()), env, later, safeTime);
      && file.Snapshot() == r.m
      && (stopped.Some? <==> r.Stopped?)
      && (r.Stopped? ==> stopped.value == r.step)
      && (r.Settled? ==> cur == r.cur)
    ensures file.registry.files == old(file.registry.files) ||
            file.registry.files == old(file.registry.files)[file.name := file]
  {
    if file.status == Waiting {
      return Some(StillWaiting), env;
    }
    file.SetStatus(Waiting, env.disk);
    var again := file.SizeChangedSinceLastCheck(env.disk);
    var still: bool;
    if again {
      var _ := file.Size(env.disk);
      still := file.SizeChangedSinceLastCheck(later.disk);
    } else {
      var _ := file.Mtime(env.disk);
      still := file.WasRecentlyModified(later, safeTime);
    }
    if still {
      file.SaveToLog(later.disk);
      return Some(Deferred), later;
    }
    return None, later;
  }

  /** The loop of tagger.py lines 148-150: every record whose file is not listed becomes `gone`. */
  method GonePass(states: map<string, FileState>, disk: Disk) returns (r: map<string, FileState>)
    ensures r.Keys == states.Keys
    ensures forall n :: n in r ==> r[n] == MarkGone(n, states[n], disk)
  {
    var dir := Listing(disk);
    r := states;
    var todo := states.Keys;
    while todo != {}
      invariant todo <= r.Keys == states.Keys
      invariant forall n :: n in r ==> r[n] == if n in todo then states[n] else MarkGone(n, states[n], disk)
      decreases todo
    {
      var n :| n in todo;
      if n !in dir {
        r := r[n := r[n].(status := Gone)];
      }
      todo := todo - {n};
    }
  }

  /** The loop of tagger.py lines 152-157: stale records that are neither done nor gone go back to `new`. */
  method ResetPass(states: map<string, FileState>, env: Env) returns (r: map<string, FileState>)
    ensures r.Keys == states.Keys
    ensures forall n :: n in r ==> r[n] == ResetStale(states[n], env)
  {
    r := states;
    var todo := states.Keys;
    while todo != {}
      invariant todo <= r.Keys == states.Keys
      invariant forall n :: n in r ==> r[n] == if n in todo then states[n] else ResetStale(states[n], env)
      decreases todo
    {
      var n :| n in todo;
      var s := r[n];
      if s.status != Done && s.status != Gone && s.name in env.disk {
        var read := ReadMtime(s, env.disk);
        s := read.state;
        if env.now - read.value > StaleAge && s.failedCount < GiveUpThreshold {
          s := s.(status := New);
        }
      }
      r := r[n := s];
      todo := todo - {n};
    }
  }

  /** Line 162: every record is emitted through `to_json`, whose reads update it. */
  method WritePass(states: map<string, FileState>, disk: Disk) returns (r: map<string, FileState>, out: map<string, LogItem>)
    ensures r.Keys == out.Keys == states.Keys
    ensures forall n :: n in r ==> r[n] == Records.ToJson(states[n], disk).state
    ensures forall n :: n in out ==> out[n] == Records.ToJson(states[n], disk).item
  {
    r, out := states, map[];
    var todo := states.Keys;
    while todo != {}
      invariant todo <= r.Keys == states.Keys
      invariant out.Keys == states.Keys - todo
      invariant forall n :: n in r ==> r[n] == if n in todo then states[n] else Records.ToJson(states[n], disk).state
      invariant forall n :: n in out ==> out[n] == Records.ToJson(states[n], disk).item
      decreases todo
    {
      var n :| n in todo;
      var e := Records.ToJson(r[n], disk);
      out := out[n := e.item];
      r := r[n := e.state];
      todo := todo - {n};
    }
  }

  /** Lines 130-157 of `scan` on values: merge, mark unlisted records gone, and reset stale ones on start-up. */
  method Prepare(entries: map<string, LogItem>, env: Env, reset: bool) returns (states: map<string, FileState>)
    requires WellFormed(entries)
    ensures states.Keys == Merged(entries, env.disk).Keys
    ensures forall n :: n in states ==> states[n] == Prepared(n, Merged(entries, env.disk)[n], env, reset)
  {
    var logged := Loaded(entries);
    var merged := logged + NewFiles(logged, env.disk);
    assert merged == Merged(entries, env.disk);
    states := GonePass(merged, env.disk);
    if reset {
      states := ResetPass(states, env);
    }
  }

  /** The records the write loop leaves are the ones `ScanStates` specifies. */
  lemma EmittedStatesMatchSpec(entries: map<string, LogItem>, env: Env, reset: bool,
                               prepared: map<string, FileState>, states: map<string, FileState>)
    requires WellFormed(entries)
    requires prepared.Keys == Merged(entries, env.disk).Keys
    requires forall n :: n in prepared ==> prepared[n] == Prepared(n, Merged(entries, env.disk)[n], env, reset)
    requires states.Keys == prepared.Keys
    requires forall n :: n in states ==> states[n] == Records.ToJson(prepared[n], env.disk).state
    ensures states == ScanStates(entries, env, reset)
  {
    var spec := ScanStates(entries, env, reset);
    assert states.Keys == spec.Keys;
    forall n | n in states
      ensures states[n] == spec[n]
    {
    }
  }

  /** The log the write loop builds is the one `ScanLog` specifies. */
  lemma EmittedLogMatchesSpec(entries: map<string, LogItem>, env: Env, reset: bool,
                              prepared: map<string, FileState>, out: map<string, LogItem>)
    requires WellFormed(entries)
    requires prepared.Keys == Merged(entries, env.disk).Keys
    requires forall n :: n in prepared ==> prepared[n] == Prepared(n, Merged(entries, env.disk)[n], env, reset)
    requires out.Keys == prepared.Keys
    requires forall n :: n in out ==> out[n] == Records.ToJson(prepared[n], env.disk).item
    ensures out == ScanLog(entries, env, reset)
  {
    var spec := ScanLog(entries, env, reset);
    assert out.Keys == spec.Keys;
    forall n | n in out
      ensures out[n] == spec[n]
    {
    }
  }

  /** The value-level body of `scan`: the prepared records, each emitted through `to_json` into the new log. */
  method Reconcile(entries: map<string, LogItem>, env: Env, reset: bool)
    returns (states: map<string, FileState>, out: map<string, LogItem>)
    requires WellFormed(entries)
    ensures states == ScanStates(entries, env, reset)
    ensures out == ScanLog(entries, env, reset)
  {
    var prepared := Prepare(entries, env, reset);
    states, out := WritePass(prepared, env.disk);
    EmittedStatesMatchSpec(entries, env, reset, prepared, states);
    EmittedLogMatchesSpec(entries, env, reset, prepared, out);
  }

  /** The `File` objects `scan` hands back, one per merged record. */
  method Wrap(registry: Registry, states: map<string, FileState>) returns (files: map<string, File>)
    ensures files.Keys == states.Keys
    ensures forall n :: n in files ==> fresh(files[n]) && files[n].registry == registry && files[n].State() == states[n]
  {
    files := map[];
    var todo := states.Keys;
    while todo != {}
      invariant todo <= states.Keys
      invariant files.Keys == states.Keys - todo
      invariant forall n :: n in files ==> fresh(files[n]) && files[n].registry == registry && files[n].State() == states[n]
      decreases todo
    {
      var n :| n in todo;
      var f := new File.Of(registry, states[n]);
      files := files[n := f];
      todo := todo - {n};
    }
  }

  /** Lines 211-218: a record that failed three times fails once more; one that failed more is left alone. */
  method GiveUpFile(file: File, disk: Disk)
    requires file.registry.Valid()
    requires file.status == Failed && file.failedCount >= GiveUpThreshold
    modifies file, file.registry
    ensures file.registry.Valid()
    ensures file.name == old(file.name)
    ensures var m := old(file.Snapshot());
      file.Snapshot() == if m.file.failedCount == GiveUpThreshold then Failure(m, disk) else m
    ensures file.registry.files == old(file.registry.files) ||
            file.registry.files == old(file.registry.files)[file.name := file]
  {
    if file.failedCount == GiveUpThreshold {
      file.Fail(disk);
    }
  }

  /** Lines 219-220: a failed record under the threshold goes back to `new`. */
  method RetryFile(file: File, disk: Disk)
    requires file.registry.Valid()
    modifies file, file.registry
    ensures file.registry.Valid()
    ensures file.name == old(file.name)
    ensures var m := old(file.Snapshot());
      file.Snapshot() == if m.file.status == Failed then Setting(m, New, disk) else m
    ensures file.registry.files == old(file.registry.files) ||
            file.registry.files == old(file.registry.files)[file.name := file]
  {
    if file.status == Failed {
      file.SetStatus(New, disk);
    }
  }

  /** Lines 222-264: mark the record `processing`, then run the command. */
  method StartFile(file: File, disk: Disk, cmd: Invocation)
    requires file.registry.Valid()
    modifies file, file.registry
    ensures file.registry.Valid()
    ensures file.name == old(file.name)
    ensures var p := Setting(old(file.Snapshot()), Processing, disk);
      file.Snapshot() ==
        if CommandFails(p.file.name, cmd) then Failure(p, disk)
        else if cmd.tty then p
        else Setting(p, Done, disk)
    ensures file.registry.files == old(file.registry.files)[file.name := file]
  {
    file.SetStatus(Processing, disk);
    RunCommand(file, disk, cmd);
  }

  /** Lines 219-264 for a record that is not given up on: retry, mark it `processing` and run the command. */
  method InvokeFile(file: File, disk: Disk, cmd: Invocation)
    requires file.registry.Valid()
    requires !(file.status == Failed && file.failedCount >= GiveUpThreshold)
    modifies file, file.registry
    ensures file.registry.Valid()
    ensures file.name == old(file.name)
    ensures file.Snapshot() == Attempt(old(file.Snapshot()), disk, cmd).m
    ensures file.registry.files == old(file.registry.files)[file.name := file]
  {
    RetryFile(file, disk);
    StartFile(file, disk, cmd);
  }

  /** Lines 227-264: the command's outcome on a file marked `processing`. */
  method RunCommand(file: File, disk: Disk, cmd: Invocation)
    requires file.registry.Valid()
    modifies file, file.registry
    ensures file.registry.Valid()
    ensures file.name == old(file.name)
    ensures var p := old(file.Snapshot());
      file.Snapshot() ==
        if CommandFails(p.file.name, cmd) then Failure(p, disk)
        else if cmd.tty then p
        else Setting(p, Done, disk)
    ensures file.registry.files == old(file.registry.files) ||
            file.registry.files == old(file.registry.files)[file.name := file]
  {
    if CommandFails(file.name, cmd) {
      file.Fail(disk);
    } else if !cmd.tty {
      file.SetStatus(Done, disk);
    }
  }

  class MkvTagger {
    const registry: Registry
    /** `MODIFIED_SAFE_TIME`: a file modified more recently than this is still being written. */
    const safeTime: int
    var isProcessing: bool
    var activeFile: Option<string>

    constructor (registry: Registry, safeTime: int)
      ensures this.registry == registry && this.safeTime == safeTime
      ensures !isProcessing && activeFile == None
    {
      this.registry := registry;
      this.safeTime := safeTime;
      isProcessing := false;
      activeFile := None;
    }

    /**
      `scan(reset)`: merge the listing with the log, mark unlisted records
      gone, optionally reset stale ones, write the log and return the merged
      records.
     */
    method Scan(env: Env, reset: bool) returns (merged: map<string, File>)
      requires registry.Valid()
      modifies registry`log
      ensures registry.Valid()
      ensures registry.log == Object(ScanLog(old(registry.log.entries), env, reset))
      ensures merged.Keys == old(registry.log.entries).Keys + Listing(env.disk)
      ensures forall n :: n in merged ==>
        && fresh(merged[n])
        && merged[n].registry == registry
        && merged[n].State() == ScanStates(old(registry.log.entries), env, reset)[n]
    {
      var states, out := Reconcile(registry.log.entries, env, reset);
      registry.log := Object(out);

      merged := Wrap(registry, states);
    }

    /**
      Lines 211-267: give up, or retry and run the command with the
      processing flags raised; the `finally` clause lowers them again.
     */
    method AttemptFile(file: File, disk: Disk, cmd: Invocation) returns (step: Step)
      requires registry.Valid() && file.registry == registry
      modifies this, registry, file
      ensures registry.Valid()
      ensures file.name == old(file.name)
      ensures var o := Attempt(old(file.Snapshot()), disk, cmd);
        step == o.step && file.Snapshot() == o.m
      ensures registry.files == old(registry.files) || registry.files == old(registry.files)[file.name := file]
      ensures if step == Invoked then Idle() else unchanged(this)
    {
      if file.status == Failed && file.failedCount >= GiveUpThreshold {
        GiveUpFile(file, disk);
        return GaveUp;
      }
      Run(file, disk, cmd);
      step := Invoked;
    }

    /** No file is being processed. */
    predicate Idle()
      reads this
    {
      !isProcessing && activeFile == None
    }

    /**
      Lines 219-267 for a record that is not given up on: the flags are
      raised around the retry, the `processing` mark and the command, and
      lowered again by the `finally` clause.
     */
    method Run(file: File, disk: Disk, cmd: Invocation)
      requires registry.Valid() && file.registry == registry
      requires !(file.status == Failed && file.failedCount >= GiveUpThreshold)
      modifies this, registry, file
      ensures registry.Valid()
      ensures file.name == old(file.name)
      ensures file.Snapshot() == Attempt(old(file.Snapshot()), disk, cmd).m
      ensures registry.files == old(registry.files)[file.name := file]
      ensures Idle()
    {
      // The source resets a failed record to `new` just before raising the
      // flags; the status setter does not read them, so the order is immaterial.
      isProcessing, activeFile := true, Some(file.name);
      InvokeFile(file, disk, cmd);
      isProcessing, activeFile := false, None;
    }

    /**
      `process_file(file)`: skip done files and files that are still gone,
      skip while busy, defer unsettled files, and otherwise attempt the
      command. `later` is the directory and clock after the pause.
     */
    method ProcessFile(file: File, env: Env, later: Env, cmd: Invocation) returns (step: Step)
      requires registry.Valid() && file.registry == registry
      modifies this, registry, file
      ensures registry.Valid()
      ensures file.name == old(file.name)
      ensures var o := Process(old(file.State()), old(registry.log.entries),
                               old(isProcessing || activeFile == Some(file.name)), env, later, cmd, safeTime);
        step == o.step && file.Snapshot() == o.m
      ensures registry.files == old(registry.files) || registry.files == old(registry.files)[file.name := file]
      ensures if step == Invoked then Idle() else unchanged(this)
    {
      if file.status == Done {
        return AlreadyDone;
      }
      if file.status == Gone && file.name !in env.disk {
        return StillGone;
      }
      ghost var files0 := registry.files;
      ReviveFile(file, env.disk);
      if isProcessing || activeFile == Some(file.name) {
        return Busy;
      }
      ghost var m1 := file.Snapshot();
      assert Process(old(file.State()), old(registry.log.entries), false, env, later, cmd, safeTime)
          == Proceed(m1, env, later, cmd, safeTime);
      step := ProceedFile(file, env, later, cmd);
      UpdateAgain(files0, file.name, file);
    }

    /** Lines 179-267, past the guards. */
    method ProceedFile(file: File, env: Env, later: Env, cmd: Invocation) returns (step: Step)
      requires registry.Valid() && file.registry == registry
      modifies this, registry, file
      ensures registry.Valid()
      ensures file.name == old(file.name)
      ensures var o := Proceed(old(file.Snapshot()), env, later, cmd, safeTime);
        step == o.step && file.Snapshot() == o.m
      ensures registry.files == old(registry.files) || registry.files == old(registry.files)[file.name := file]
      ensures if step == Invoked then Idle() else unchanged(this)
    {
      ghost var m := file.Snapshot();
      var stopped, cur := SettleFile(file, env, later, safeTime);
      if stopped.Some? {
        ProceedAfterSettle(m, env, later, cmd, safeTime);
        return stopped.value;
      }
      step := AttemptSettled(file, m, env, later, cur, cmd);
    }

    /** Lines 211-267, once the settling test of `ProceedFile` has let the file through. */
    method AttemptSettled(file: File, ghost m: Machine, env: Env, later: Env, cur: Env, cmd: Invocation)
      returns (step: Step)
      requires registry.Valid() && file.registry == registry
      requires WellFormed(m.log)
      requires var r := Settle(m, env, later, safeTime);
        r.Settled? && file.Snapshot() == r.m && cur == r.cur
      modifies this, registry, file
      ensures registry.Valid()
      ensures file.name == old(file.name)
      ensures var o := Proceed(m, env, later, cmd, safeTime);
        step == o.step && file.Snapshot() == o.m
      ensures registry.files == old(registry.files) || registry.files == old(registry.files)[file.name := file]
      ensures if step == Invoked then Idle() else unchanged(this)
    {
      ProceedAfterSettle(m, env, later, cmd, safeTime);
      step := AttemptFile(file, cur.disk, cmd);
    }

    /**
      `process_dir()`: run `process_file` on every record of the file table
      as it stands when the pass starts. `at(n)` and `later(n)` are the
      directory and clock seen when the record under key `n` is processed
      and after its pause, `cmds(n)` how its command ends.
     */
    method ProcessDir(at: string -> Env, later: string -> Env, cmds: string -> Invocation)
      requires registry.Valid()
      modifies this, registry, registry.files.Values
      ensures registry.Valid()
      ensures old(registry.files).Keys <= registry.files.Keys
      ensures old(registry.Keyed()) ==> registry.files == old(registry.files)
      ensures forall f :: f in old(registry.files.Values) ==> f.name == old(f.name)
      ensures old(Idle()) ==> Idle()
      ensures forall f :: f in old(registry.files.Values) && old(f.status) == Done ==> f.State() == old(f.State())
    {
      var table := registry.files;
      var pending := table.Keys;
      while pending != {}
        invariant registry.Valid()
        invariant pending <= table.Keys
        invariant forall f :: f in table.Values ==> f.registry == registry && f.name == old(f.name)
        invariant old(registry.files).Keys <= registry.files.Keys
        invariant old(registry.Keyed()) ==> registry.files == table
        invariant old(Idle()) ==> Idle()
        invariant forall f :: f in table.Values && old(f.status) == Done ==> f.State() == old(f.State())
        decreases pending
      {
        var n :| n in pending;
        var file := table[n];
        Visit(file, at(n), later(n), cmds(n));
        pending := pending - {n};
      }
    }

    /** One turn of `process_dir`: `process_file`, its step dropped. */
    method Visit(file: File, env: Env, later: Env, cmd: Invocation)
      requires registry.Valid() && file.registry == registry
      modifies this, registry, file
      ensures registry.Valid()
      ensures file.name == old(file.name)
      ensures file.Snapshot() == Process(old(file.State()), old(registry.log.entries),
                                         old(isProcessing || activeFile == Some(file.name)), env, later, cmd, safeTime).m
      ensures registry.files == old(registry.files) || registry.files == old(registry.files)[file.name := file]
      ensures old(registry.files).Keys <= registry.files.Keys
      ensures Idle() || unchanged(this)
      ensures old(Idle()) ==> Idle()
      ensures old(file.status) == Done ==> file.State() == old(file.State())
    {
      var _ := ProcessFile(file, env, later, cmd);
    }

    /**
      The start-up of lines 23-58 once the log has loaded: the table becomes
      the result of `scan(reset=True)`, then `process_dir` runs over it.
     */
    method Boot(env: Env, at: string -> Env, later: string -> Env, cmds: string -> Invocation)
      requires registry.Valid()
      modifies this, registry
      ensures registry.Valid()
      ensures old(Idle()) ==> Idle()
      ensures registry.files.Keys == old(registry.log.entries).Keys + Listing(env.disk)
      ensures var scanned := ScanStates(old(registry.log.entries), env, true);
        forall n :: n in registry.files ==>
          && registry.files[n].name == n
          && (scanned[n].status == Done ==> registry.files[n].State() == scanned[n])
    {
      ghost var scanned := ScanStates(registry.log.entries, env, true);
      var merged := Scan(env, true);
      registry.files := merged;
      assert registry.Keyed();
      label pass:
      ProcessDir(at, later, cmds);
      forall n | n in merged
        ensures merged[n].name == n && (scanned[n].status == Done ==> merged[n].State() == scanned[n])
      {
        assert merged[n] in old@pass(registry.files.Values);
      }
    }

    /**
      The `.mkv` branch of `on_modified`: process the record the file table
      holds under the modified file's name, registering a new record for it
      first when there is none. Any other name is ignored (`None`).
     */
    method OnModified(name: string, env: Env, later: Env, cmd: Invocation) returns (step: Option<Step>)
      requires registry.Valid()
      modifies this, registry, registry.files.Values
      ensures registry.Valid()
      ensures step.Some? <==> IsMkv(name)
      ensures !IsMkv(name) ==> unchanged(this, registry)
      ensures IsMkv(name) ==> name in registry.files && old(registry.files).Keys <= registry.files.Keys
      ensures IsMkv(name) && name !in old(registry.files) ==>
        && fresh(registry.files[name])
        && var o := Process(Construct(name, env.disk, NoKwargs), old(registry.log.entries),
                            old(isProcessing || activeFile == Some(name)), env, later, cmd, safeTime);
           step.value == o.step && registry.files[name].Snapshot() == o.m
      ensures IsMkv(name) && name in old(registry.files) ==>
        && registry.files[name] == old(registry.files[name])
        && var o := Process(old(registry.files[name].State()), old(registry.log.entries),
                            old(isProcessing || activeFile == Some(registry.files[name].name)),
                            env, later, cmd, safeTime);
           step.value == o.step && registry.files[name].Snapshot() == o.m
      ensures IsMkv(name) ==> if step.value == Invoked then Idle() else unchanged(this)
      ensures forall f :: f in old(registry.files.Values) && (name !in old(registry.files) || f != old(registry.files[name])) ==>
        unchanged(f)
    {
      if !IsMkv(name) {
        return None;
      }
      var file: File;
      if name in registry.files {
        file := registry.files[name];
      } else {
        file := new File(registry, name, env.disk, NoKwargs);
        registry.files := registry.files[name := file];
      }
      var s := ProcessFile(file, env, later, cmd);
      step := Some(s);
    }
  }

  /**
    `MkvTagger(...)`: a blank log is written as `{}`, a log that is not an
    object of records makes the start-up fail, and otherwise the table is
    the result of `scan(reset=True)` and every record of it is processed.
   */
  method Start(doc: LogDoc, renameExp: Option<string>, safeTime: int, env: Env,
               at: string -> Env, later: string -> Env, cmds: string -> Invocation)
    returns (r: Result<MkvTagger, LogError>)
    ensures r.Err? <==> LoggedFiles(doc).Err?
    ensures r.Err? ==> r.error == LoggedFiles(doc).error
    ensures r.Ok? ==>
      && fresh(r.value) && r.value.safeTime == safeTime
      && r.value.registry.Valid() && r.value.Idle()
      && r.value.registry.renameExp == renameExp
      && r.value.registry.files.Keys == LoggedFiles(doc).value.Keys + Listing(env.disk)
      && var entries := if doc.Blank? then map[] else doc.entries;
         var scanned := ScanStates(entries, env, true);
         forall n :: n in r.value.registry.files ==>
           && r.value.registry.files[n].name == n
           && (scanned[n].status == Done ==> r.value.registry.files[n].State() == scanned[n])
  {
    var registry := new Registry(doc, renameExp);
    if LoggedFiles(doc).Err? {
      return Err(LoggedFiles(doc).error);
    }
    var tagger := new MkvTagger(registry, safeTime);
    tagger.Boot(env, at, later, cmds);
    return Ok(tagger);
  }
}
