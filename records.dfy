/**
  The value layer of a tracked file (mkvtag/file.py): the fields of a `File`
  as one value, the side-effecting `mtime` / `size` reads as functions from
  the old fields to the value read and the new fields, the JSON record a
  file emits and is loaded from, and the decoded status log.

  The watched directory is a map from entry name to its size and mtime;
  times are whole seconds.
 */
module Records {

  import opened Wrappers

  /** The status strings the engine writes. */
  datatype Status = New | Waiting | Processing | Done | Failed | Gone

  datatype Stat = Stat(size: int, mtime: int)

  /** The watched directory: every entry's name and what `stat` reports for it. */
  type Disk = map<string, Stat>

  /** One observation of the outside world: the directory and the clock. */
  datatype Env = Env(disk: Disk, now: int)

  /** The fields of a `File`: `_mtime`, `_last_mtime`, `_size`, `_last_size`, `_status`, `_failed_count`. */
  datatype FileState = FileState(
    name: string,
    mtime: int,
    lastMtime: int,
    size: int,
    lastSize: int,
    status: Status,
    failedCount: int)

  /** The keyword arguments `File.__init__` picks up. */
  datatype Kwargs = Kwargs(
    mtime: Option<int>,
    size: Option<int>,
    lastMtime: Option<int>,
    lastSize: Option<int>,
    failedCount: Option<int>,
    status: Option<Status>)

  const NoKwargs := Kwargs(None, None, None, None, None, None)

  /** A name with the tracked extension, as `glob("*.mkv")` lists it. */
  predicate IsMkv(name: string)
  {
    |name| >= 4 && name[|name| - 4..] == ".mkv"
  }

  /** The `.mkv` files of the watched directory. */
  function Listing(disk: Disk): (names: set<string>)
    ensures forall n :: n in names <==> n in disk && IsMkv(n)
  {
    set n | n in disk && IsMkv(n)
  }

  /**
    `File(path, tagger, **kw)`: the keyword values are taken where given,
    the current values are stat-ed (0 for a missing file), the previous
    values default to the current ones, and status and failure count are
    always reset.
   */
  function Construct(name: string, disk: Disk, kw: Kwargs): (s: FileState)
    ensures s.name == name && s.status == New && s.failedCount == 0
    ensures s.mtime == kw.mtime.GetOr(if name in disk then disk[name].mtime else 0)
    ensures s.size == kw.size.GetOr(if name in disk then disk[name].size else 0)
    ensures s.lastMtime == kw.lastMtime.GetOr(s.mtime) && s.lastSize == kw.lastSize.GetOr(s.size)
  {
    var mtime := if kw.mtime.Some? then kw.mtime.value else if name in disk then disk[name].mtime else 0;
    var size := if kw.size.Some? then kw.size.value else if name in disk then disk[name].size else 0;
    FileState(name, mtime, kw.lastMtime.GetOr(mtime), size, kw.lastSize.GetOr(size), New, 0)
  }

  /** A file found by listing the directory: `File(path, tagger)`. */
  function Fresh(name: string, disk: Disk): (s: FileState)
    ensures s.name == name && s.status == New && s.failedCount == 0
    ensures s.mtime == s.lastMtime == if name in disk then disk[name].mtime else 0
    ensures s.size == s.lastSize == if name in disk then disk[name].size else 0
  {
    Construct(name, disk, NoKwargs)
  }

  /** What a `mtime` or `size` property read returns and leaves behind. */
  datatype Observation = Observation(value: int, current: int, previous: int)

  /**
    One property read: if the current value differs from the previous one
    it becomes the previous one; then the stat result, when there is one,
    becomes the current value and is returned. The shift happens before
    `stat` can fail, so a missing file leaves both fields at the current
    value and returns `current or previous or 0`, which is then `current`.
   */
  function Observe(current: int, previous: int, found: Option<int>): (o: Observation)
    ensures o.previous == current && o.value == o.current
    ensures o.current == if found.Some? then found.value else current
  {
    var shifted := if current != previous then current else previous;
    match found
    case Some(v) => Observation(v, v, shifted)
    case None =>
      var v := if current != 0 then current else if shifted != 0 then shifted else 0;
      Observation(v, current, shifted)
  }

  /** A value read through a property together with the fields it leaves. */
  datatype Reading = Reading(value: int, state: FileState)

  /** A boolean check on a file together with the fields it leaves. */
  datatype Check = Check(holds: bool, state: FileState)

  /** The `mtime` property. */
  function ReadMtime(s: FileState, disk: Disk): (r: Reading)
    ensures r.value == r.state.mtime == if s.name in disk then disk[s.name].mtime else s.mtime
    ensures r.state == s.(mtime := r.value, lastMtime := s.mtime)
  {
    var o := Observe(s.mtime, s.lastMtime, if s.name in disk then Some(disk[s.name].mtime) else None);
    Reading(o.value, s.(mtime := o.current, lastMtime := o.previous))
  }

  /** The `size` property. */
  function ReadSize(s: FileState, disk: Disk): (r: Reading)
    ensures r.value == r.state.size == if s.name in disk then disk[s.name].size else s.size
    ensures r.state == s.(size := r.value, lastSize := s.size)
  {
    var o := Observe(s.size, s.lastSize, if s.name in disk then Some(disk[s.name].size) else None);
    Reading(o.value, s.(size := o.current, lastSize := o.previous))
  }

  /** `size_changed_since_last_check`: the previous size as it was before the read, against the size read. */
  function SizeCheck(s: FileState, disk: Disk): (c: Check)
    ensures c.state == ReadSize(s, disk).state
    ensures c.holds <==> s.lastSize != if s.name in disk then disk[s.name].size else s.size
  {
    var r := ReadSize(s, disk);
    Check(s.lastSize != r.value, r.state)
  }

  /** `was_recently_modified`: the mtime read is less than `safeTime` seconds old. */
  function RecentCheck(s: FileState, env: Env, safeTime: int): (c: Check)
    ensures c.state == ReadMtime(s, env.disk).state
    ensures c.holds <==> env.now - (if s.name in env.disk then env.disk[s.name].mtime else s.mtime) < safeTime
  {
    var r := ReadMtime(s, env.disk);
    Check(env.now - r.value < safeTime, r.state)
  }

  /**
    For a file that is not in the directory, one check brings the previous
    size up to the current one, so every later check reports no change.
   */
  lemma MissingFileSettlesAfterOneCheck(s: FileState, disk: Disk)
    requires s.name !in disk
    ensures SizeCheck(s, disk).holds <==> s.lastSize != s.size
    ensures !SizeCheck(SizeCheck(s, disk).state, disk).holds
  {
  }

  /** The fields left after `k` consecutive `size_changed_since_last_check` calls against one directory. */
  function AfterSizeChecks(s: FileState, disk: Disk, k: nat): (r: FileState)
    ensures r.name == s.name && r.status == s.status && r.failedCount == s.failedCount
    decreases k
  {
    if k == 0 then s else AfterSizeChecks(SizeCheck(s, disk).state, disk, k - 1)
  }

  /**
    With the size on disk held constant, two checks bring both size fields
    to that size, so the third and every later check reports no change.
   */
  lemma {:induction false} SizeCheckSettles(s: FileState, disk: Disk, k: nat)
    requires s.name in disk && k >= 2
    ensures AfterSizeChecks(s, disk, k).size == AfterSizeChecks(s, disk, k).lastSize == disk[s.name].size
    ensures !SizeCheck(AfterSizeChecks(s, disk, k), disk).holds
    decreases k
  {
    var once := SizeCheck(s, disk).state;
    if k == 2 {
      assert AfterSizeChecks(s, disk, 2) == AfterSizeChecks(once, disk, 1);
      assert AfterSizeChecks(once, disk, 1) == AfterSizeChecks(SizeCheck(once, disk).state, disk, 0);
    } else {
      SizeCheckSettles(once, disk, k - 1);
    }
  }

  /** The `status` setter's field updates: the count goes up exactly when the new status is `failed`. */
  function WithStatus(s: FileState, value: Status): (r: FileState)
    ensures r.status == value && r.name == s.name
    ensures r.failedCount == if value == Failed then s.failedCount + 1 else s.failedCount
    ensures r.mtime == s.mtime && r.lastMtime == s.lastMtime && r.size == s.size && r.lastSize == s.lastSize
  {
    s.(status := value, failedCount := s.failedCount + if value == Failed then 1 else 0)
  }

  /** `fail()`'s field updates. */
  function Failing(s: FileState): (r: FileState)
    ensures r.status == Failed && r.failedCount == s.failedCount + 1
  {
    s.(status := Failed, failedCount := s.failedCount + 1)
  }

  /** `fail()` and setting the status to `failed` update the fields alike. */
  lemma FailIsSetFailed(s: FileState)
    ensures Failing(s) == WithStatus(s, Failed)
  {
  }

  // ---------------------------------------------------------------------------
  // The status log
  // ---------------------------------------------------------------------------

  /** One value of the log object; `Malformed` is a value `from_json` cannot read. */
  datatype LogItem =
    | Entry(mtime: int, size: int, failedCount: Option<int>, status: Status)
    | Malformed

  /**
    The log file as decoded: blank (missing, empty or whitespace), not JSON,
    JSON that is not an object, or an object from file name to record.
   */
  datatype LogDoc = Blank | Unparseable | NotAnObject | Object(entries: map<string, LogItem>)

  datatype LogError = Corrupt | BadRecord

  predicate WellFormed(entries: map<string, LogItem>)
  {
    forall k :: k in entries ==> entries[k].Entry?
  }

  /** `File.from_json`: both size fields from `size`, both mtime fields from `mtime`, count defaulting to 0. */
  function FromJson(name: string, item: LogItem): (s: FileState)
    requires item.Entry?
    ensures s.name == name && s.status == item.status && s.failedCount == item.failedCount.GetOr(0)
    ensures s.size == s.lastSize == item.size && s.mtime == s.lastMtime == item.mtime
  {
    FileState(name, item.mtime, item.mtime, item.size, item.size, item.status, item.failedCount.GetOr(0))
  }

  /** What `to_json` emits and the fields its two property reads leave. */
  datatype Emitted = Emitted(item: LogItem, state: FileState)

  /** `File.to_json`: reads `mtime`, then `size`, then emits them with the stored count and status. */
  function ToJson(s: FileState, disk: Disk): (e: Emitted)
    ensures e.item.Entry? && e.item.status == s.status && e.item.failedCount == Some(s.failedCount)
    ensures e.state.name == s.name && e.state.status == s.status && e.state.failedCount == s.failedCount
    ensures e.item.mtime == e.state.mtime == if s.name in disk then disk[s.name].mtime else s.mtime
    ensures e.item.size == e.state.size == if s.name in disk then disk[s.name].size else s.size
    ensures e.state.lastMtime == s.mtime && e.state.lastSize == s.size
  {
    var m := ReadMtime(s, disk);
    var z := ReadSize(m.state, disk);
    Emitted(Entry(m.value, z.value, Some(s.failedCount), s.status), z.state)
  }

  /** Loading what `to_json` emitted gives back the name, status, count and the sizes and times emitted. */
  lemma ToJsonThenFromJson(s: FileState, disk: Disk)
    ensures var e := ToJson(s, disk);
      var back := FromJson(s.name, e.item);
      && back.name == s.name && back.status == s.status && back.failedCount == s.failedCount
      && back.size == e.item.size && back.mtime == e.item.mtime
      && (s.name in disk ==> back.size == e.state.size && back.mtime == e.state.mtime)
  {
  }

  /**
    Loading an entry and emitting it again gives the same entry, with the
    size and mtime refreshed from the directory when the file is there.
   */
  lemma FromJsonThenToJson(name: string, item: LogItem, disk: Disk)
    requires item.Entry? && item.failedCount.Some?
    ensures ToJson(FromJson(name, item), disk).item ==
      if name in disk then item.(mtime := disk[name].mtime, size := disk[name].size) else item
  {
  }

  /** Every record of a well-formed log, as `from_json` builds it. */
  function Loaded(entries: map<string, LogItem>): (m: map<string, FileState>)
    requires WellFormed(entries)
    ensures m.Keys == entries.Keys
    ensures forall k :: k in m ==> m[k] == FromJson(k, entries[k])
  {
    map k | k in entries :: FromJson(k, entries[k])
  }

  /**
    The `logged_files` property: a blank log reads as empty; text that is
    not JSON, or JSON that is not an object, is a decoding error; a value
    that is not a record is an error too.
   */
  function LoggedFiles(doc: LogDoc): (r: Result<map<string, FileState>, LogError>)
    ensures r.Ok? <==> doc.Blank? || (doc.Object? && WellFormed(doc.entries))
    ensures r.Err? && !doc.Object? ==> r.error == Corrupt
    ensures r.Ok? && doc.Blank? ==> r.value == map[]
    ensures r.Ok? && doc.Object? ==> r.value.Keys == doc.entries.Keys
    ensures r.Ok? && doc.Object? ==> r.value == Loaded(doc.entries)
    ensures r.Ok? && doc.Object? ==> forall k :: k in r.value ==>
      r.value[k].name == k && r.value[k].status == doc.entries[k].status
  {
    match doc
    case Blank => Ok(map[])
    case Unparseable => Err(Corrupt)
    case NotAnObject => Err(Corrupt)
    case Object(entries) => if WellFormed(entries) then Ok(Loaded(entries)) else Err(BadRecord)
  }

  /**
    The log `save_to_log` writes: the logged records with this record put
    in under its name, each emitted through `to_json`.
   */
  function SaveLog(entries: map<string, LogItem>, s: FileState, disk: Disk): (out: map<string, LogItem>)
    requires WellFormed(entries)
    ensures WellFormed(out)
    ensures out.Keys == entries.Keys + {s.name}
  {
    var logged := Loaded(entries)[s.name := s];
    map k | k in logged :: ToJson(logged[k], disk).item
  }

  /** The fields of the file and the log, as `process_file` threads them through the status setter. */
  datatype Machine = Machine(file: FileState, log: map<string, LogItem>)

  /** `save_to_log`. */
  function Saved(m: Machine, disk: Disk): (r: Machine)
    requires WellFormed(m.log)
    ensures WellFormed(r.log)
  {
    Machine(ToJson(m.file, disk).state, SaveLog(m.log, m.file, disk))
  }

  /** The `status` setter. */
  function Setting(m: Machine, value: Status, disk: Disk): (r: Machine)
    requires WellFormed(m.log)
    ensures WellFormed(r.log)
  {
    Saved(m.(file := WithStatus(m.file, value)), disk)
  }

  /** `fail()`. */
  function Failure(m: Machine, disk: Disk): (r: Machine)
    requires WellFormed(m.log)
    ensures WellFormed(r.log)
  {
    Saved(m.(file := Failing(m.file)), disk)
  }

  /** Two log records that agree on the outcome: status and failure count. */
  predicate SameOutcome(a: LogItem, b: LogItem)
  {
    a.Entry? && b.Entry? && a.status == b.status && a.failedCount.GetOr(0) == b.failedCount.GetOr(0)
  }

  /**
    `save_to_log` replaces or adds this record's entry; every other entry
    keeps its status and count, and its size and mtime are re-read from the
    directory (kept as they were for a file that is not there).
   */
  lemma SaveLogEntries(entries: map<string, LogItem>, s: FileState, disk: Disk)
    requires WellFormed(entries)
    ensures var out := SaveLog(entries, s, disk);
      && out[s.name] == ToJson(s, disk).item
      && (forall k :: k in entries && k != s.name ==> SameOutcome(out[k], entries[k]))
      && (forall k :: k in entries && k != s.name && k !in disk ==>
            out[k].size == entries[k].size && out[k].mtime == entries[k].mtime)
      && (forall k :: k in entries && k != s.name && k in disk ==>
            out[k].size == disk[k].size && out[k].mtime == disk[k].mtime)
  {
    var out := SaveLog(entries, s, disk);
    forall k | k in entries && k != s.name
      ensures SameOutcome(out[k], entries[k])
      ensures k !in disk ==> out[k].size == entries[k].size && out[k].mtime == entries[k].mtime
    {
      var f := FromJson(k, entries[k]);
      assert out[k] == ToJson(f, disk).item;
    }
  }

  /** Outcome agreement on every key but one, carried from one log to the next. */
  predicate OthersAgree(before: map<string, LogItem>, after: map<string, LogItem>, name: string)
  {
    forall k :: k in before && k != name ==> k in after && SameOutcome(after[k], before[k])
  }

  lemma OthersAgreeTransitive(a: map<string, LogItem>, b: map<string, LogItem>, c: map<string, LogItem>, name: string)
    requires OthersAgree(a, b, name) && OthersAgree(b, c, name)
    ensures OthersAgree(a, c, name)
  {
  }

  /** The log key move `rename` intends: the old key's value under the new key. */
  function MoveKey<V>(m: map<string, V>, from: string, to: string): (r: map<string, V>)
    requires from in m
    ensures r.Keys == m.Keys - {from} + {to}
    ensures r[to] == m[from]
    ensures from != to ==> from !in r
    ensures forall k :: k in m && k != from && k != to ==> r[k] == m[k]
  {
    (m - {from})[to := m[from]]
  }

  /** `clean_name`: the name itself without an expression, otherwise the matches removed by `sub`. */
  function CleanName(name: string, renameExp: Option<string>, sub: (string, string) -> string): (r: string)
    ensures renameExp.None? || renameExp == Some("") ==> r == name
  {
    if renameExp.None? || renameExp.value == "" then name else sub(renameExp.value, name)
  }

  /** Names `Path.with_name` accepts. */
  predicate ValidName(name: string)
  {
    name != "" && name != "." && '/' !in name
  }

  /** `__eq__`: two files are the same file when their names agree. */
  predicate SameFile(a: FileState, b: FileState)
  {
    a.name == b.name
  }
}
