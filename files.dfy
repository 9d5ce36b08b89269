/**
  The `File` record of mkvtag (mkvtag/file.py) as a class whose fields the
  property reads, the `status` setter, `fail`, `save_to_log` and `rename`
  update in place, and the part of `MkvTagger` a `File` writes through: its
  in-memory file table (`tagger.files`), the decoded status log and the
  rename expression.
 */
module Files {

  import opened Wrappers
  import opened Records

  /** The tagger state every `File` shares: `tagger.files`, the log file and `tagger.rename_exp`. */
  class Registry {
    var files: map<string, File>
    var log: LogDoc
    const renameExp: Option<string>

    /** The log is a well-formed object and every registered file writes through this registry. */
    ghost predicate Valid()
      reads this
    {
      && log.Object?
      && WellFormed(log.entries)
      && forall k :: k in files ==> files[k].registry == this
    }

    /** Every file of the table is registered under its own name. */
    ghost predicate Keyed()
      reads this, files.Values
    {
      forall k :: k in files ==> files[k].name == k
    }

    /** The tagger's start-up: a blank or missing log is written as `{}`. */
    constructor (doc: LogDoc, renameExp: Option<string>)
      ensures files == map[] && this.renameExp == renameExp
      ensures log == if doc.Blank? then Object(map[]) else doc
      ensures Valid() <==> LoggedFiles(doc).Ok?
    {
      files := map[];
      log := if doc.Blank? then Object(map[]) else doc;
      this.renameExp := renameExp;
    }
  }

  datatype RenameError = InvalidName | NotFound | NotLogged

  /** How `rename` ended: nothing to do, done, or the exception it raised. */
  datatype RenameOutcome = NotRenamed | Renamed | RenameFailed(error: RenameError)

  class File {
    const registry: Registry
    var name: string
    var mtime: int
    var lastMtime: int
    var size: int
    var lastSize: int
    var status: Status
    var failedCount: int

    function State(): FileState
      reads this
    {
      FileState(name, mtime, lastMtime, size, lastSize, status, failedCount)
    }

    /** The fields of this file and the log of its registry, as one `Machine`. */
    function Snapshot(): Machine
      reads this, registry
      requires registry.log.Object?
    {
      Machine(State(), registry.log.entries)
    }

    /** `File(path, tagger, **kw)`. */
    constructor (registry: Registry, name: string, disk: Disk, kw: Kwargs)
      ensures this.registry == registry && State() == Construct(name, disk, kw)
      ensures status == New && failedCount == 0
    {
      var s := Construct(name, disk, kw);
      this.registry := registry;
      this.name, mtime, lastMtime, size, lastSize := s.name, s.mtime, s.lastMtime, s.size, s.lastSize;
      status, failedCount := s.status, s.failedCount;
    }

    /** A `File` holding given fields, as `from_json` and `scan` leave them. */
    constructor Of(registry: Registry, s: FileState)
      ensures this.registry == registry && State() == s
    {
      this.registry := registry;
      name, mtime, lastMtime, size, lastSize := s.name, s.mtime, s.lastMtime, s.size, s.lastSize;
      status, failedCount := s.status, s.failedCount;
    }

    /** The `mtime` property. */
    method Mtime(disk: Disk) returns (value: int)
      modifies this
      ensures Reading(value, State()) == ReadMtime(old(State()), disk)
    {
      var r := ReadMtime(State(), disk);
      value, mtime, lastMtime := r.value, r.state.mtime, r.state.lastMtime;
    }

    /** The `size` property. */
    method Size(disk: Disk) returns (value: int)
      modifies this
      ensures Reading(value, State()) == ReadSize(old(State()), disk)
    {
      var r := ReadSize(State(), disk);
      value, size, lastSize := r.value, r.state.size, r.state.lastSize;
    }

    /** `size_changed_since_last_check`. */
    method SizeChangedSinceLastCheck(disk: Disk) returns (changed: bool)
      modifies this
      ensures Check(changed, State()) == SizeCheck(old(State()), disk)
    {
      var before := lastSize;
      var current := Size(disk);
      changed := before != current;
    }

    /** `was_recently_modified`. */
    method WasRecentlyModified(env: Env, safeTime: int) returns (recent: bool)
      modifies this
      ensures Check(recent, State()) == RecentCheck(old(State()), env, safeTime)
    {
      var m := Mtime(env.disk);
      recent := env.now - m < safeTime;
    }

    /** `to_json`. */
    method ToJson(disk: Disk) returns (item: LogItem)
      modifies this
      ensures Emitted(item, State()) == Records.ToJson(old(State()), disk)
    {
      var m := Mtime(disk);
      var z := Size(disk);
      item := Entry(m, z, Some(failedCount), status);
    }

    /** `save_to_log`: rewrite the log with this record put in under its name. */
    method SaveToLog(disk: Disk)
      requires registry.Valid()
      modifies this, registry`log
      ensures registry.Valid()
      ensures State() == Records.ToJson(old(State()), disk).state
      ensures registry.log == Object(SaveLog(old(registry.log.entries), old(State()), disk))
      ensures Snapshot() == Saved(old(Snapshot()), disk)
    {
      ghost var s := State();
      var logged := Loaded(registry.log.entries)[name := State()];
      var own := ToJson(disk);
      registry.log := Object(map k | k in logged :: if k == name then own else Records.ToJson(logged[k], disk).item);
      assert registry.log.entries == SaveLog(old(registry.log.entries), s, disk);
    }

    /** The `status` setter: count a failure, store the status, register the file and save it to the log. */
    method SetStatus(value: Status, disk: Disk)
      requires registry.Valid()
      modifies this, registry
      ensures registry.Valid()
      ensures status == value && name == old(name)
      ensures failedCount == old(failedCount) + if value == Failed then 1 else 0
      ensures State() == Records.ToJson(WithStatus(old(State()), value), disk).state
      ensures registry.files == old(registry.files)[name := this]
      ensures registry.log == Object(SaveLog(old(registry.log.entries), WithStatus(old(State()), value), disk))
      ensures Snapshot() == Setting(old(Snapshot()), value, disk)
    {
      failedCount := failedCount + if value == Failed then 1 else 0;
      status := value;
      registry.files := registry.files[name := this];
      SaveToLog(disk);
    }

    /** `fail()`: one more failure, status `failed`, registered and saved. */
    method Fail(disk: Disk)
      requires registry.Valid()
      modifies this, registry
      ensures registry.Valid()
      ensures status == Failed && failedCount == old(failedCount) + 1 && name == old(name)
      ensures State() == Records.ToJson(Failing(old(State())), disk).state
      ensures registry.files == old(registry.files)[name := this]
      ensures registry.log == Object(SaveLog(old(registry.log.entries), Failing(old(State())), disk))
      ensures Snapshot() == Failure(old(Snapshot()), disk)
    {
      failedCount := failedCount + 1;
      status := Failed;
      registry.files := registry.files[name := this];
      SaveToLog(disk);
    }

    /**
      `rename(new_name)`: records that are gone or waiting stay put; otherwise
      the file moves to `new_name` or its clean name, unless that is its
      name already, and its log entry moves from the old key to the new one.
      `sub` is the regular-expression substitution behind `clean_name`.
     */
    method Rename(newName: Option<string>, disk: Disk, sub: (string, string) -> string)
      returns (disk': Disk, outcome: RenameOutcome)
      requires registry.Valid()
      modifies this, registry
      ensures registry.Valid()
      ensures var target := if newName.Some? && newName.value != "" then newName.value
                            else CleanName(old(name), registry.renameExp, sub);
        && (old(status) == Gone || old(status) == Waiting ==> outcome == NotRenamed)
        && (outcome == NotRenamed <==>
              old(status) == Gone || old(status) == Waiting || (ValidName(target) && target == old(name)))
        && (outcome == RenameFailed(InvalidName) <==>
              old(status) != Gone && old(status) != Waiting && !ValidName(target))
        && (outcome == RenameFailed(NotFound) <==>
              old(status) != Gone && old(status) != Waiting && ValidName(target) && target != old(name)
              && old(name) !in disk)
        && (outcome.NotRenamed? || (outcome.RenameFailed? && outcome.error != NotLogged) ==>
              disk' == disk && State() == old(State()) && registry.files == old(registry.files)
              && registry.log == old(registry.log))
        && (outcome == Renamed || outcome == RenameFailed(NotLogged) ==>
              && old(name) in disk
              && disk' == MoveKey(disk, old(name), target)
              && State() == old(State()).(name := target)
              && registry.files == old(registry.files)[target := this])
        && (outcome == Renamed <==>
              (old(name) in disk && target != old(name) && ValidName(target)
               && old(status) != Gone && old(status) != Waiting && old(name) in old(registry.log.entries)))
        && (outcome == Renamed ==>
              registry.log == Object(MoveKey(old(registry.log.entries), old(name), target)))
        && (outcome == RenameFailed(NotLogged) ==> registry.log == old(registry.log))
    {
      disk' := disk;
      if status == Gone || status == Waiting {
        return disk', NotRenamed;
      }
      var target := if newName.Some? && newName.value != "" then newName.value
                    else CleanName(name, registry.renameExp, sub);
      if !ValidName(target) {
        return disk', RenameFailed(InvalidName);
      }
      if target == name {
        return disk', NotRenamed;
      }
      if name !in disk {
        return disk', RenameFailed(NotFound);
      }
      var oldName := name;
      disk' := MoveKey(disk, oldName, target);
      name := target;
      registry.files := registry.files[name := this];
      if oldName !in registry.log.entries {
        return disk', RenameFailed(NotLogged);
      }
      registry.log := Object(MoveKey(registry.log.entries, oldName, target));
      outcome := Renamed;
    }
  }
}
