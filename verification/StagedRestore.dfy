/** The crash-resumable restore that installs a staged backup inside the data directory.

    Every disk operation consumes one unit of `fuel`; when the fuel runs out the process stops
    where it stands, as a crash does. A contract that holds for every amount of fuel therefore
    holds for a crash between any two disk operations. */
module StagedRestore {
  import opened Results
  import opened Collections

  const JOURNAL := ".restore-pending.json"
  const NEXT := ".restore-pending.json.next"
  const JOURNAL_VERSION := "codex-staged-restore.v1"
  const STAGE_PREFIX := ".restore-stage-"
  const PREVIOUS_PREFIX := ".restore-previous-"
  const CREDENTIALS := "credentials"

  /** The files SQLite may rewrite or create while the installed database is validated. */
  const DATABASE_FILES := {"codex.db", "codex.db-wal", "codex.db-shm"}
  /** The top-level names that a backup archive can hold. */
  const STAGED_NAMES := {"codex.db", "addons", "blobs"}

  const PHASE_STAGED := "staged"
  const PHASE_MOVING_OUT := "moving-out"
  const PHASE_MOVING_IN := "moving-in"

  datatype Journal = Journal(version: string, stageName: string, previousName: string, phase: string)

  /** A file is either a completely written journal or any other bytes, which do not decode. */
  datatype Content = Encoded(journal: Journal) | Bytes(bytes: string)

  datatype Node = File(content: Content) | Directory(entries: Entries)

  type Entries = map<string, Node>

  /** The data directory itself, or one directory directly inside it. */
  datatype Place = Root | Child(name: string)

  datatype Reason = InvalidJournal | MissingStage | AlreadyExists(name: string) | InvalidPhase | BrokenLayout
                  | AlreadyPending | InvalidDatabase

  datatype Outcome = NothingPending | Installed | Stopped | Rejected | Refused(reason: Reason)

  /** One start of the host: how long it lives and what validation finds and leaves behind. */
  datatype Attempt = Attempt(fuel: nat, accepted: bool, database: Entries) {
    ghost predicate Valid() {
      database.Keys <= DATABASE_FILES
    }
  }

  /** What one staged restore is about: its directory names and the three sets of entries. */
  datatype Job = Job(stageName: string, previousName: string, original: Entries, staged: Entries, kept: Entries) {
    function Reserved(): set<string> {
      {JOURNAL, NEXT, stageName, previousName, CREDENTIALS}
    }

    ghost predicate Valid() {
      && SafeSiblingName(stageName, STAGE_PREFIX)
      && SafeSiblingName(previousName, PREVIOUS_PREFIX)
      && original.Keys !! Reserved()
      && staged.Keys <= STAGED_NAMES
      && kept.Keys <= {CREDENTIALS}
    }
  }

  /** One validation of the installed database: the files it was handed, and what it left of them. */
  datatype Validation = Validation(handed: Entries, left: Entries, accepted: bool)

  /** The validations of one restore so far, and whether one of them accepted the database. */
  datatype Log = Log(validated: bool, runs: seq<Validation>) {
    function Add(run: Validation): Log {
      Log(validated || run.accepted, runs + [run])
    }
  }

  const NONE := Log(false, [])

  predicate SafeSiblingName(value: string, prefix: string) {
    prefix <= value && |prefix| < |value| && '/' !in value && value != "." && value != ".."
  }

  lemma ReservedNamesAreDistinct(stageName: string, previousName: string)
    requires SafeSiblingName(stageName, STAGE_PREFIX)
    requires SafeSiblingName(previousName, PREVIOUS_PREFIX)
    ensures stageName !in {JOURNAL, NEXT, CREDENTIALS} + STAGED_NAMES + DATABASE_FILES
    ensures previousName !in {JOURNAL, NEXT, CREDENTIALS} + STAGED_NAMES + DATABASE_FILES
    ensures stageName != previousName
  {
    assert stageName[9] == 's' && previousName[9] == 'p';
    assert JOURNAL[13] == 'i' && NEXT[13] == 'i' && stageName[13] == 'e' && previousName[13] == 'i';
    assert JOURNAL[12] == 'd' && NEXT[12] == 'd' && previousName[12] == 'v';
    assert stageName[0] == '.' && previousName[0] == '.';
  }

  // ----- directory contents -----

  function Without(entries: Entries, names: set<string>): Entries {
    map name | name in entries && name !in names :: entries[name]
  }

  function Only(entries: Entries, names: set<string>): Entries {
    map name | name in entries && name in names :: entries[name]
  }

  predicate IsDirectory(data: Entries, place: Place) {
    place.Root? || (place.name in data && data[place.name].Directory?)
  }

  function Listing(data: Entries, place: Place): Entries
    requires IsDirectory(data, place)
  {
    if place.Root? then data else data[place.name].entries
  }

  function WithListing(data: Entries, place: Place, entries: Entries): Entries {
    if place.Root? then entries else data[place.name := Directory(entries)]
  }

  ghost predicate OnlyChanges(before: Entries, after: Entries, names: set<string>) {
    forall name :: name !in names ==> (name in before <==> name in after) && (name in before ==> before[name] == after[name])
  }

  /** The data directory after exactly the entries `moved` went from `source` to `destination`. */
  ghost function AfterMove(data: Entries, source: Place, destination: Place, moved: set<string>): Entries
    requires IsDirectory(data, source) && IsDirectory(data, destination)
    requires source.Root? != destination.Root?
  {
    var from := Listing(data, source);
    var to := Listing(data, destination);
    if source.Root? then Without(data, moved)[destination.name := Directory(to + Only(from, moved))]
    else (data + Only(from, moved))[source.name := Directory(Without(from, moved))]
  }

  // ----- the invariant every run keeps -----

  /** The current installation's own entries: everything that is not reserved. */
  ghost function Loose(data: Entries, job: Job): Entries {
    Without(data, job.Reserved())
  }

  ghost function Previous(data: Entries, job: Job): Entries {
    Inside(data, job.previousName)
  }

  /** The disk operations that all moves and journal writes of a restore take at most. */
  ghost function Moves(job: Job): nat {
    |job.original.Keys| + |job.staged.Keys| + 10
  }

  ghost function Inside(data: Entries, name: string): Entries {
    if IsDirectory(data, Child(name)) then data[name].entries else map[]
  }

  /** The database files that are due in the data directory: the staged ones, or what the last validation left. */
  ghost function Standing(job: Job, runs: seq<Validation>): Entries {
    if runs == [] then Only(job.staged, DATABASE_FILES) else runs[|runs| - 1].left
  }

  /** Each validation was handed what was due. */
  ghost predicate Chained(job: Job, runs: seq<Validation>) {
    forall k | 0 <= k < |runs| :: runs[k].handed == Standing(job, runs[..k]) && runs[k].left.Keys <= DATABASE_FILES
  }

  /** What the previous directory holds when it is removed. */
  ghost function Leftover(data: Entries, job: Job, validated: bool): Entries {
    if validated then Previous(data, job) else job.original
  }

  ghost predicate JournalSays(data: Entries, job: Job, phase: string) {
    JOURNAL in data
    && data[JOURNAL] == File(Encoded(Journal(JOURNAL_VERSION, job.stageName, job.previousName, phase)))
  }

  ghost predicate IsStaged(data: Entries, job: Job) {
    && JournalSays(data, job, PHASE_STAGED)
    && (NEXT in data ==> data[NEXT].File?)
    && job.stageName in data && data[job.stageName] == Directory(job.staged)
    && (job.previousName in data ==> data[job.previousName] == Directory(map[]))
    && Loose(data, job) == job.original
  }

  ghost predicate IsMovingOut(data: Entries, job: Job) {
    && JournalSays(data, job, PHASE_MOVING_OUT)
    && (NEXT in data ==> data[NEXT].File?)
    && job.stageName in data && data[job.stageName] == Directory(job.staged)
    && IsDirectory(data, Child(job.previousName))
    && Loose(data, job).Keys !! Previous(data, job).Keys
    && Loose(data, job) + Previous(data, job) == job.original
  }

  ghost predicate IsMovingIn(data: Entries, job: Job, log: Log) {
    && JournalSays(data, job, PHASE_MOVING_IN)
    && NEXT !in data
    && (if job.stageName in data then
          && log == NONE
          && data[job.stageName].Directory?
          && Loose(data, job).Keys !! data[job.stageName].entries.Keys
          && Loose(data, job) + data[job.stageName].entries == job.staged
        else
          Loose(data, job) == Without(job.staged, DATABASE_FILES) + Standing(job, log.runs))
    && (if log.validated then job.previousName in data ==> data[job.previousName].Directory?
        else job.previousName in data && data[job.previousName] == Directory(job.original))
  }

  /** A restore of `job` is under way after the validations of `log`. */
  ghost predicate Pending(data: Entries, job: Job, log: Log) {
    && job.Valid() && Chained(job, log.runs)
    && Only(data, {CREDENTIALS}) == job.kept
    && (|| (IsStaged(data, job) && log == NONE)
        || (IsMovingOut(data, job) && log == NONE)
        || IsMovingIn(data, job, log))
  }

  /** The installed database was accepted; only the previous directory and the journal are left to remove. */
  ghost predicate Finishing(data: Entries, job: Job, log: Log) {
    log.validated && Pending(data, job, log) && IsMovingIn(data, job, log) && job.stageName !in data
  }

  /** The restore is over: nothing but the staged entries and the kept credentials is left. */
  ghost predicate Complete(data: Entries, job: Job, database: Entries) {
    data == Without(job.staged, DATABASE_FILES) + database + job.kept
  }

  /** The original entries that the directory still holds, wherever the phase puts them. */
  ghost function Recoverable(data: Entries, job: Job): Entries {
    (if JournalSays(data, job, PHASE_MOVING_IN) then map[] else Loose(data, job)) + Previous(data, job)
  }

  /** Until a run has validated the installed database no original entry is lost, changed or held
      twice: it is in the data directory or in the previous directory, never in both. */
  lemma NoOriginalEntryIsLost(data: Entries, job: Job, log: Log)
    requires Pending(data, job, log) && !log.validated
    ensures Recoverable(data, job) == job.original
    ensures !JournalSays(data, job, PHASE_MOVING_IN) ==> Loose(data, job).Keys !! Previous(data, job).Keys
  {
    ReservedNamesAreDistinct(job.stageName, job.previousName);
    assert PHASE_STAGED[0] == 's' && PHASE_MOVING_OUT[7] == 'o' && PHASE_MOVING_IN[7] == 'i';
  }

  /** The staged entries that the directory still holds, wherever the phase puts them. */
  ghost function Restorable(data: Entries, job: Job): Entries {
    (if JournalSays(data, job, PHASE_MOVING_IN) then Loose(data, job) else map[]) + Inside(data, job.stageName)
  }

  /** Until a validation begins, every staged entry, the database included, is unchanged and in exactly one of the stage
      and the data directory. From then on the same holds of what is not a database file, and the database files are
      those that the last validation left. */
  ghost predicate StagedIsWhole(data: Entries, job: Job, log: Log) {
    && (log.runs == [] ==> Restorable(data, job) == job.staged)
    && (log.runs != [] ==>
          && Without(Restorable(data, job), DATABASE_FILES) == Without(job.staged, DATABASE_FILES)
          && Only(data, DATABASE_FILES) == log.runs[|log.runs| - 1].left)
    && (JournalSays(data, job, PHASE_MOVING_IN) ==> Loose(data, job).Keys !! Inside(data, job.stageName).Keys)
  }

  lemma NoStagedEntryIsLost(data: Entries, job: Job, log: Log)
    requires Pending(data, job, log)
    ensures StagedIsWhole(data, job, log) && Chained(job, log.runs)
  {
    ReservedNamesAreDistinct(job.stageName, job.previousName);
    assert PHASE_STAGED[0] == 's' && PHASE_MOVING_OUT[7] == 'o' && PHASE_MOVING_IN[7] == 'i';
    if IsMovingIn(data, job, log) && job.stageName !in data {
      PublishedIsWhole(data, job, log);
    }
  }

  lemma PublishedIsWhole(data: Entries, job: Job, log: Log)
    requires Pending(data, job, log) && IsMovingIn(data, job, log) && job.stageName !in data
    ensures StagedIsWhole(data, job, log)
  {
    hide JournalSays, Pending;
    StandingIsDatabase(data, job, log);
    assert Without(job.staged, DATABASE_FILES) + Only(job.staged, DATABASE_FILES) == job.staged;
    assert JournalSays(data, job, PHASE_MOVING_IN);
    assert Inside(data, job.stageName) == map[] && Restorable(data, job) == Loose(data, job);
  }

  // ----- the code -----

  /** `os.Remove` deletes a file or an empty directory. */
  predicate Removable(node: Node) {
    node.File? || node.entries == map[]
  }

  datatype MoveResult = Moved | MoveStopped | Exists(name: string) | NotMovable
  datatype StageOutcome = StageDone | StageRefused | StageStopped
  datatype Progress = Continue | End(outcome: Outcome)

  predicate ReadableJournal(node: Node) {
    && node.File? && node.content.Encoded?
    && node.content.journal.version == JOURNAL_VERSION
    && SafeSiblingName(node.content.journal.stageName, STAGE_PREFIX)
    && SafeSiblingName(node.content.journal.previousName, PREVIOUS_PREFIX)
  }

  ghost predicate ForJob(journal: Journal, job: Job) {
    && journal.version == JOURNAL_VERSION
    && journal.stageName == job.stageName && journal.previousName == job.previousName
  }

  /** One start of the host, or one staging of an archive by the running host. */
  datatype Event = Starting(attempt: Attempt) | Staging(suffix: string, archive: Option<Entries>, database: Option<Node>) {
    ghost predicate Valid(data: Entries) {
      match this
      case Starting(attempt) => attempt.Valid()
      case Staging(suffix, archive, _) =>
        && suffix != "" && '/' !in suffix && STAGE_PREFIX + suffix !in data
        && (archive.Some? ==> archive.value.Keys <= STAGED_NAMES)
    }
  }

  /** How it ended. */
  datatype Report = Started(outcome: Outcome) | Tried(result: StageOutcome)

  /** Starts find the journal invalid, and stagings find it there. */
  ghost predicate AllBlocked(events: seq<Event>, reports: seq<Report>) {
    && |reports| == |events|
    && forall k | 0 <= k < |events| :: reports[k] == if events[k].Starting? then Started(Refused(InvalidJournal)) else Tried(StageRefused)
  }

  datatype AdvanceResult = Advanced | AdvanceStopped | NextBlocked

  class DataDirectory {
    var data: Entries
    var fuel: nat
    /** What validated the restore under way. */
    ghost var log: Log

    constructor (data: Entries)
      ensures this.data == data && fuel == 0 && log == NONE
    {
      this.data := data;
      fuel := 0;
      log := NONE;
    }

    method Tick() returns (alive: bool)
      modifies `fuel
      ensures alive == (old(fuel) > 0)
      ensures fuel == if alive then old(fuel) - 1 else 0
    {
      alive := fuel > 0;
      if alive { fuel := fuel - 1; }
    }

    /** Renames every entry of `source` that is not skipped into `destination`, refusing to replace one. */
    method MoveEntries(source: Place, destination: Place, skip: set<string>)
      returns (result: MoveResult, ghost moved: set<string>)
      requires source.Root? != destination.Root?
      requires source.Root? ==> destination.name in skip
      modifies `data, `fuel
      ensures result == NotMovable <==> !(IsDirectory(old(data), source) && IsDirectory(old(data), destination))
      ensures result == NotMovable ==> data == old(data)
      ensures result != NotMovable ==>
        && moved <= Listing(old(data), source).Keys - skip
        && moved !! Listing(old(data), destination).Keys
        && data == AfterMove(old(data), source, destination, moved)
        && (result == MoveStopped ==> old(fuel) < |Listing(old(data), source).Keys - skip|)
        && (result == Moved ==> old(fuel) == fuel + |moved|)
      ensures result == Moved ==> moved == Listing(old(data), source).Keys - skip
      ensures result == MoveStopped ==> fuel == 0
      ensures result.Exists? ==>
        result.name in Listing(old(data), source) && result.name !in skip && result.name in Listing(old(data), destination)
    {
      hide AfterMove;
      moved := {};
      if !IsDirectory(data, source) || !IsDirectory(data, destination) {
        return NotMovable, moved;
      }
      ghost var before := data;
      var pending := Listing(data, source).Keys - skip;
      ghost var all := pending;
      MoveNone(data, source, destination);
      while pending != {}
        invariant moved + pending == all && moved !! pending && old(fuel) == fuel + |moved|
        invariant moved !! Listing(before, destination).Keys
        invariant data == AfterMove(before, source, destination, moved)
        decreases pending
      {
        var name :| name in pending;
        MoveOne(before, source, destination, moved, name);
        if name in Listing(data, destination) {
          return Exists(name), moved;
        }
        assert |all| == |moved| + |pending|;
        var alive := Tick();
        if !alive {
          return MoveStopped, moved;
        }
        var node := Listing(data, source)[name];
        data := WithListing(data, source, Without(Listing(data, source), {name}));
        data := WithListing(data, destination, Listing(data, destination)[name := node]);
        moved := moved + {name};
        pending := pending - {name};
      }
      result := Moved;
    }

    /** Replaces the journal: a new one is written beside it and then renamed over it. */
    method AdvanceJournal(journal: Journal, phase: string) returns (result: AdvanceResult)
      modifies `data, `fuel
      ensures result == NextBlocked <==> NEXT in old(data) && !Removable(old(data)[NEXT]) && old(fuel) > 0
      ensures result == NextBlocked ==> data == old(data)
      ensures result == Advanced ==>
        data == Without(old(data), {NEXT})[JOURNAL := File(Encoded(journal.(phase := phase)))] && old(fuel) == fuel + 4
      ensures result == AdvanceStopped ==>
        && fuel == 0 && old(fuel) < 4
        && Without(data, {NEXT}) == Without(old(data), {NEXT})
        && (NEXT in data ==> data[NEXT].File? || (NEXT in old(data) && data[NEXT] == old(data)[NEXT]))
    {
      var alive := Tick();
      if !alive { return AdvanceStopped; }
      if NEXT in data && Removable(data[NEXT]) {
        data := Without(data, {NEXT});
      }
      if NEXT in data { return NextBlocked; }
      alive := WriteRestoreJournal(NEXT, journal.(phase := phase));
      if !alive { return AdvanceStopped; }
      alive := Tick();
      if !alive { return AdvanceStopped; }
      data := Without(data[JOURNAL := data[NEXT]], {NEXT});
      result := Advanced;
    }

    /** Phase `staged`: create the previous directory and record that entries start to move out. */
    method StartMovingOut(journal: Journal, ghost job: Job) returns (result: Progress)
      modifies `data, `fuel
      ensures !IsDirectory(old(data), Child(journal.stageName)) ==> result == End(Refused(MissingStage)) && data == old(data)
      ensures old(IsStaged(data, job) && job.Valid()) && ForJob(journal, job) ==>
        && Only(data, {CREDENTIALS}) == old(Only(data, {CREDENTIALS}))
        && (if result == Continue then IsMovingOut(data, job) && old(fuel) == fuel + 5
            else result == End(Stopped) && fuel == 0 && old(fuel) < 5 && IsStaged(data, job))
      ensures result.End? ==> result.outcome == Stopped || (result.outcome.Refused? && result.outcome.reason != InvalidJournal)
    {
      ghost var before := data;
      if !IsDirectory(data, Child(journal.stageName)) { return End(Refused(MissingStage)); }
      var alive := Tick();
      if !alive { return End(Stopped); }
      if journal.previousName !in data {
        data := data[journal.previousName := Directory(map[])];
      } else if !data[journal.previousName].Directory? {
        return End(Refused(BrokenLayout));
      }
      if IsStaged(before, job) && job.Valid() && ForJob(journal, job) {
        StagedKeepsPrevious(before, job);
      }
      ghost var made := data;
      var advanced := AdvanceJournal(journal, PHASE_MOVING_OUT);
      if IsStaged(before, job) && job.Valid() && ForJob(journal, job) {
        if advanced == Advanced { StagedAdvances(made, data, job); }
        if advanced == AdvanceStopped { StagedIgnoresNext(made, data, job); }
      }
      match advanced
      case Advanced => result := Continue;
      case AdvanceStopped => result := End(Stopped);
      case NextBlocked => result := End(Refused(AlreadyPending));
    }

    /** Phase `moving-out`: every entry that is not reserved goes to the previous directory. */
    method MoveOut(journal: Journal, ghost job: Job) returns (result: Progress)
      modifies `data, `fuel
      ensures old(IsMovingOut(data, job) && job.Valid()) && ForJob(journal, job) ==>
        && Only(data, {CREDENTIALS}) == old(Only(data, {CREDENTIALS}))
        && (if result == Continue then IsMovingIn(data, job, NONE) && old(fuel) <= fuel + |job.original.Keys| + 4
            else result == End(Stopped) && fuel == 0 && old(fuel) < |job.original.Keys| + 4 && IsMovingOut(data, job))
      ensures result.End? ==> result.outcome == Stopped || (result.outcome.Refused? && result.outcome.reason != InvalidJournal)
    {
      ghost var before := data;
      var reserved := {JOURNAL, NEXT, journal.stageName, journal.previousName, CREDENTIALS};
      var moved, names := MoveEntries(Root, Child(journal.previousName), reserved);
      if IsMovingOut(before, job) && job.Valid() && ForJob(journal, job) {
        MovingOutMoves(before, data, job, names);
        NothingToReplaceOnTheWayOut(before, job);
        FewToMoveOut(before, job, names);
      }
      match moved
      case NotMovable => return End(Refused(BrokenLayout));
      case Exists(name) => return End(Refused(AlreadyExists(name)));
      case MoveStopped => return End(Stopped);
      case Moved =>
      ghost var made := data;
      var advanced := AdvanceJournal(journal, PHASE_MOVING_IN);
      if IsMovingOut(before, job) && job.Valid() && ForJob(journal, job) {
        if advanced == Advanced { MovingOutAdvances(made, data, job); }
        if advanced == AdvanceStopped { MovingOutIgnoresNext(made, data, job); }
      }
      match advanced
      case Advanced => result := Continue;
      case AdvanceStopped => result := End(Stopped);
      case NextBlocked => result := End(Refused(AlreadyPending));
    }

    /** Phase `moving-in`: the staged entries become the installation and the empty stage goes away. */
    method MoveIn(journal: Journal, ghost job: Job) returns (result: Progress)
      modifies `data, `fuel
      ensures old(IsMovingIn(data, job, log) && job.Valid()) && ForJob(journal, job) ==>
        && Only(data, {CREDENTIALS}) == old(Only(data, {CREDENTIALS}))
        && IsMovingIn(data, job, log)
        && (old(log.validated) ==> result == Continue && data == old(data))
        && (if result == Continue then job.stageName !in data && old(fuel) <= fuel + |job.staged.Keys| + 1
            else result == End(Stopped) && fuel == 0 && old(fuel) < |job.staged.Keys| + 1)
      ensures result.End? ==> result.outcome == Stopped || (result.outcome.Refused? && result.outcome.reason != InvalidJournal)
    {
      hide IsMovingIn, AfterMove, Only;
      ghost var before := data;
      if IsMovingIn(before, job, log) && job.stageName in before { StageIsDirectory(before, job, log); }
      if journal.stageName !in data { return Continue; }
      if !IsDirectory(data, Child(journal.stageName)) { return End(Refused(BrokenLayout)); }
      var moved, names := MoveEntries(Child(journal.stageName), Root, {});
      assert before[journal.stageName].entries.Keys - {} == before[journal.stageName].entries.Keys;
      if IsMovingIn(before, job, log) && job.Valid() && ForJob(journal, job) {
        MovingInMoves(before, data, job, names);
        NothingToReplaceOnTheWayIn(before, job);
        FewToMoveIn(before, job, names);
      }
      match moved
      case NotMovable => return End(Refused(BrokenLayout));
      case Exists(name) => return End(Refused(AlreadyExists(name)));
      case MoveStopped => return End(Stopped);
      case Moved =>
      var alive := Tick();
      if !alive { return End(Stopped); }
      ghost var made := data;
      data := Without(data, {journal.stageName});
      if IsMovingIn(before, job, log) && job.Valid() && ForJob(journal, job) {
        StageRemoved(made, data, job);
      }
      result := Continue;
    }

    /** The phases from the recorded one on; each falls through to the next. */
    method RunPhases(journal: Journal, ghost job: Job) returns (result: Progress)
      modifies `data, `fuel
      ensures old(Pending(data, job, log)) && ForJob(journal, job) && old(JournalSays(data, job, journal.phase)) ==>
        && Pending(data, job, log)
        && (old(log.validated) ==> result == Continue && data == old(data))
        && (if result == Continue then IsMovingIn(data, job, log) && job.stageName !in data && old(fuel) <= fuel + Moves(job)
            else result == End(Stopped) && fuel == 0 && old(fuel) < Moves(job))
      ensures journal.phase == PHASE_STAGED && !IsDirectory(old(data), Child(journal.stageName)) ==>
        result == End(Refused(MissingStage)) && data == old(data)
      ensures result.End? ==> result.outcome == Stopped || (result.outcome.Refused? && result.outcome.reason != InvalidJournal)
    {
      hide IsStaged, IsMovingOut, IsMovingIn, Only;
      if Pending(data, job, log) && ForJob(journal, job) && JournalSays(data, job, journal.phase) {
        PhasesAreDistinct(data, job, log, journal);
      }
      var phase := journal.phase;
      if phase == PHASE_STAGED {
        result := StartMovingOut(journal, job);
        if result.End? { return; }
        phase := PHASE_MOVING_OUT;
      }
      if phase == PHASE_MOVING_OUT {
        result := MoveOut(journal, job);
        if result.End? { return; }
        phase := PHASE_MOVING_IN;
      }
      if phase != PHASE_MOVING_IN {
        return End(Refused(InvalidPhase));
      }
      result := MoveIn(journal, job);
    }

    /** `os.RemoveAll`: the previous directory's entries go one by one, then the directory itself. */
    method RemovePrevious(journal: Journal, ghost job: Job) returns (alive: bool)
      modifies `data, `fuel
      ensures !alive ==> fuel == 0 && old(fuel) < |Inside(old(data), journal.previousName).Keys| + 1
      ensures alive ==> data == Without(old(data), {journal.previousName})
      ensures alive ==> old(fuel) == fuel + |Inside(old(data), journal.previousName).Keys| + 1
      ensures !alive ==> |Inside(data, journal.previousName).Keys| <= |Inside(old(data), journal.previousName).Keys|
      ensures ForJob(journal, job) && old(Finishing(data, job, log)) ==>
        Finishing(data, job, log) && Only(data, DATABASE_FILES) == old(Only(data, DATABASE_FILES))
    {
      hide Finishing, Only;
      ghost var mine := ForJob(journal, job) && Finishing(data, job, log);
      var previous := Child(journal.previousName);
      while IsDirectory(data, previous) && Listing(data, previous) != map[]
        invariant Removing(old(data), data, journal.previousName, old(fuel) - fuel)
        decreases Inside(data, journal.previousName).Keys
      {
        var name :| name in Listing(data, previous);
        RemoveOne(old(data), data, journal.previousName, old(fuel) - fuel, name);
        alive := Tick();
        if !alive {
          if mine { PreviousShrinks(old(data), data, job, log); }
          return;
        }
        data := WithListing(data, previous, Without(Listing(data, previous), {name}));
      }
      RemovedAll(old(data), data, journal.previousName, old(fuel) - fuel);
      alive := Tick();
      if alive {
        data := Without(data, {journal.previousName});
      }
      if mine { PreviousShrinks(old(data), data, job, log); }
    }

    /** Validates the installed database, then drops the previous directory and the journal. */
    method Conclude(journal: Journal, attempt: Attempt, ghost job: Job) returns (outcome: Outcome)
      requires attempt.Valid()
      modifies this
      ensures outcome == Installed || outcome == Stopped || outcome == Rejected
      ensures outcome == Stopped ==> fuel == 0
      ensures outcome == Rejected ==> !attempt.accepted
      ensures outcome == Installed ==> attempt.accepted
      ensures log == old(log) || log == old(log).Add(Validation(Only(old(data), DATABASE_FILES), attempt.database, attempt.accepted))
      ensures log == old(log) ==> outcome == Stopped
      ensures old(Pending(data, job, log) && IsMovingIn(data, job, log) && job.stageName !in data) && ForJob(journal, job) ==>
        && Chained(job, log.runs) && Only(old(data), DATABASE_FILES) == Standing(job, old(log.runs))
        && (if outcome == Installed then Complete(data, job, attempt.database) else Pending(data, job, log))
        && (outcome == Stopped ==> old(fuel) < |Inside(old(data), job.previousName).Keys| + 3)
        && (outcome != Installed ==> |Inside(data, job.previousName).Keys| <= |Inside(old(data), job.previousName).Keys|)
    {
      hide Pending, IsMovingIn, Finishing, Complete, Only, Standing, Chained, StagedIsWhole;
      ghost var mine := Pending(data, job, log) && IsMovingIn(data, job, log)
                        && job.stageName !in data && ForJob(journal, job);
      if mine {
        NoStagedEntryIsLost(data, job, log);
        StandingIsDatabase(data, job, log);
      }
      var alive := Tick();
      if !alive { return Stopped; }
      ghost var before := data;
      ghost var run := Validation(Only(data, DATABASE_FILES), attempt.database, attempt.accepted);
      data := Without(data, DATABASE_FILES) + attempt.database;
      if mine { DatabaseRewritten(before, data, job, log, run); }
      log := log.Add(run);
      if !attempt.accepted { return Rejected; }
      if mine { FinishingIsPending(data, job, log); }
      alive := RemovePrevious(journal, job);
      if mine { FinishingIsPending(data, job, log); }
      if !alive { return Stopped; }
      alive := Tick();
      if !alive { return Stopped; }
      before := data;
      data := Without(data, {JOURNAL});
      if mine { JournalRemoved(before, data, job, log, attempt.database); }
      outcome := Installed;
    }

    /** One start of the host. Whatever the journal says, a restore of `job` that is under way stays
        recoverable however early the process stops; it is never refused; and a run that is allowed to
        finish leaves exactly the restored installation. */
    method FinishStagedRestore(attempt: Attempt, ghost job: Job) returns (outcome: Outcome)
      requires attempt.Valid()
      modifies this
      ensures outcome == NothingPending <==> JOURNAL !in old(data)
      ensures JOURNAL in old(data) && !ReadableJournal(old(data)[JOURNAL]) ==> outcome == Refused(InvalidJournal)
      ensures outcome == NothingPending || outcome == Refused(InvalidJournal) ==> data == old(data) && log == old(log)
      ensures log.validated ==> old(log.validated) || attempt.accepted
      ensures old(Pending(data, job, log)) ==>
        && (outcome == Installed || outcome == Stopped || outcome == Rejected)
        && (outcome == Stopped ==> fuel == 0 && attempt.fuel < Moves(job) + |Leftover(old(data), job, old(log.validated)).Keys| + 3)
        && (outcome == Rejected ==> !attempt.accepted)
        && (log == old(log) || log == old(log).Add(Validation(Standing(job, old(log.runs)), attempt.database, attempt.accepted)))
        && (log == old(log) ==> outcome == Stopped)
        && (outcome != Installed ==> StagedIsWhole(data, job, log)) && Chained(job, log.runs)
        && (if outcome == Installed then attempt.accepted && Complete(data, job, attempt.database)
            else Pending(data, job, log) && |Leftover(data, job, log.validated).Keys| <= |Leftover(old(data), job, old(log.validated)).Keys|)
    {
      hide Pending, IsMovingIn, Complete, JournalSays, Standing, Chained, StagedIsWhole;
      fuel := attempt.fuel;
      ghost var mine := Pending(data, job, log);
      if mine { PendingHasJournal(data, job, log); }
      if JOURNAL !in data { return NothingPending; }
      if !ReadableJournal(data[JOURNAL]) { return Refused(InvalidJournal); }
      var journal := data[JOURNAL].content.journal;
      var progress := RunPhases(journal, job);
      if progress.End? {
        if mine { NoStagedEntryIsLost(data, job, log); }
        return progress.outcome;
      }
      if mine && !log.validated { PreviousIsOriginal(data, job, log); }
      outcome := Conclude(journal, attempt, job);
      if mine && outcome != Installed { NoStagedEntryIsLost(data, job, log); }
    }

    /** Every start after `Stage`, however many crash: the restore stays under way until a run that
        validates the database installs it, and then nothing but the restored installation is left. It takes
        only one start that validates the database and is not cut short. */
    method Restart(attempts: seq<Attempt>, ghost job: Job) returns (installed: bool, runs: nat)
      requires forall attempt <- attempts :: attempt.Valid()
      requires Pending(data, job, log)
      modifies this
      ensures runs <= |attempts|
      ensures installed ==> 0 < runs && attempts[runs - 1].accepted && Complete(data, job, attempts[runs - 1].database)
      ensures !installed ==> runs == |attempts| && Pending(data, job, log)
      ensures log.validated ==> old(log.validated) || exists attempt <- attempts :: attempt.accepted
      ensures old(log.runs) <= log.runs && Chained(job, log.runs) && Logged(log.runs[|old(log.runs)|..], attempts)
      ensures installed ==> log.runs != [] && log.runs[|log.runs| - 1].left == attempts[runs - 1].database
      ensures !installed ==> StagedIsWhole(data, job, log)
      ensures !installed && !log.validated ==> Recoverable(data, job) == job.original
      ensures !installed ==> CutShort(attempts, Moves(job) + |Leftover(old(data), job, old(log.validated)).Keys| + 3)
    {
      hide Pending, Leftover, Complete, Recoverable, CutShort, Standing, Chained, StagedIsWhole, Logged, Moves;
      assert CutShort(attempts[..0], Moves(job) + |Leftover(old(data), job, old(log.validated)).Keys| + 3) by { NoneCutShort(Moves(job) + |Leftover(old(data), job, old(log.validated)).Keys| + 3); }
      NoneLogged(log.runs, attempts);
      installed, runs := false, 0;
      while runs < |attempts|
        invariant runs <= |attempts|
        invariant Pending(data, job, log)
        invariant |Leftover(data, job, log.validated).Keys| <= |Leftover(old(data), job, old(log.validated)).Keys|
        invariant CutShort(attempts[..runs], Moves(job) + |Leftover(old(data), job, old(log.validated)).Keys| + 3)
        invariant log.validated ==> old(log.validated) || exists attempt <- attempts :: attempt.accepted
        invariant old(log.runs) <= log.runs && Logged(log.runs[|old(log.runs)|..], attempts)
      {
        var attempt := attempts[runs];
        assert attempt in attempts;
        assert data[JOURNAL].File? by { PendingHasJournal(data, job, log); }
        ghost var before := log.runs;
        var outcome := FinishStagedRestore(attempt, job);
        if log.runs != before { LoggedNext(old(log.runs), before, log.runs[|log.runs| - 1], attempts, attempt); }
        if outcome == Installed { return true, runs + 1; }
        CutShortNext(attempts, runs, Moves(job) + |Leftover(old(data), job, old(log.validated)).Keys| + 3);
        runs := runs + 1;
      }
      assert attempts[..runs] == attempts;
      NoStagedEntryIsLost(data, job, log);
      if !log.validated { NoOriginalEntryIsLost(data, job, log); }
    }

    method ExtractArchive(stageName: string, archive: Entries) returns (alive: bool)
      requires stageName !in data
      modifies `data, `fuel
      ensures OnlyChanges(old(data), data, {stageName})
      ensures alive ==> data == old(data)[stageName := Directory(archive)] && old(fuel) == fuel + |archive.Keys| + 1
      ensures !alive ==> fuel == 0 && old(fuel) < |archive.Keys| + 1
    {
      alive := Tick();
      if !alive { return; }
      data := data[stageName := Directory(map[])];
      var remaining := archive.Keys;
      while remaining != {}
        invariant Extracting(old(data), data, stageName, archive, remaining)
        invariant old(fuel) + |remaining| == fuel + |archive.Keys| + 1
      {
        var name :| name in remaining;
        ExtractOne(old(data), data, stageName, archive, remaining, name);
        alive := Tick();
        if !alive { return; }
        data := WithListing(data, Child(stageName), Listing(data, Child(stageName))[name := archive[name]]);
        remaining := remaining - {name};
      }
      alive := true;
      assert Without(archive, {}) == archive;
    }

    /** Extracts a verified archive beside the running installation and records it in a journal.
        `archive` is what extraction yields, or None when inspection or extraction refuses it, and
        `database` the migrated copy, or None when validation rejects it. */
    method Stage(suffix: string, archive: Option<Entries>, database: Option<Node>) returns (outcome: StageOutcome, ghost job: Job)
      requires suffix != "" && '/' !in suffix && STAGE_PREFIX + suffix !in data
      requires archive.Some? ==> archive.value.Keys <= STAGED_NAMES
      modifies `data, `fuel, `log
      ensures log == if outcome == StageDone then NONE else old(log)
      ensures JOURNAL in old(data) || archive.None? ==> outcome == StageRefused
      ensures outcome == StageRefused ==> JOURNAL in old(data) || archive.None? || database.None?
      ensures OnlyChanges(old(data), data, {JOURNAL, STAGE_PREFIX + suffix})
      ensures outcome == StageRefused ==> data == old(data)
      ensures outcome == StageStopped <==>
        JOURNAL !in old(data) && archive.Some? && old(fuel) < |archive.value.Keys| + if database.Some? then 4 else 1
      ensures outcome == StageStopped ==> fuel == 0 && (JOURNAL in data <==> old(fuel) == |archive.value.Keys| + 3)
      ensures outcome == StageStopped && JOURNAL in data ==> !ReadableJournal(data[JOURNAL])
      ensures outcome == StageDone ==>
        && archive.Some? && database.Some?
        && job.stageName == STAGE_PREFIX + suffix && job.previousName == PREVIOUS_PREFIX + suffix
        && job.original == Without(old(data), job.Reserved())
        && job.kept == Only(old(data), {CREDENTIALS})
        && job.staged == archive.value["codex.db" := database.value]
        && (job.previousName !in old(data) && (NEXT in old(data) ==> old(data)[NEXT].File?) ==> Pending(data, job, log))
    {
      hide Pending, Only, SafeSiblingName, ReadableJournal;
      var stageName, previousName := STAGE_PREFIX + suffix, PREVIOUS_PREFIX + suffix;
      job := Job(stageName, previousName, map[], map[], map[]);
      assert stageName != JOURNAL by { StagedNamesAreSafe(suffix); ReservedNamesAreDistinct(stageName, previousName); }
      if JOURNAL in data || archive.None? { return StageRefused, job; }
      ghost var before := data;
      outcome := PrepareStage(stageName, archive.value, database);
      if outcome != StageDone { return; }
      var alive := WriteRestoreJournal(JOURNAL, Journal(JOURNAL_VERSION, stageName, previousName, PHASE_STAGED));
      if !alive {
        EmptyIsNotAJournal();
        return StageStopped, job;
      }
      log := NONE;
      job := StagedJob(before, suffix, archive.value["codex.db" := database.value]);
      StageLeavesPending(before, data, suffix, job.staged);
    }

    /** What follows a journal that does not decode: every start and every further staging is refused and leaves
        the directory as it is, however many there are. */
    method Blocked(events: seq<Event>, ghost job: Job) returns (reports: seq<Report>)
      requires JOURNAL in data && !ReadableJournal(data[JOURNAL])
      requires forall event <- events :: event.Valid(data)
      modifies this
      ensures AllBlocked(events, reports) && data == old(data)
    {
      hide ReadableJournal;
      reports := [];
      for k := 0 to |events|
        invariant AllBlocked(events[..k], reports) && data == old(data)
      {
        assert events[k].Valid(data);
        match events[k] {
          case Starting(attempt) =>
            var outcome := FinishStagedRestore(attempt, job);
            reports := reports + [Started(outcome)];
          case Staging(suffix, archive, database) =>
            var outcome, _ := Stage(suffix, archive, database);
            reports := reports + [Tried(outcome)];
        }
      }
      assert events[..|events|] == events;
    }

    /** A crash of `Stage`, and what comes after it. Only one crash does harm, the one between creating the
        journal and writing it: no start and no staging succeeds from then on. After any other crash the next
        start finds nothing to do and the installation is as it was. */
    method CrashedStage(suffix: string, archive: Entries, database: Node, life: nat, attempt: Attempt, events: seq<Event>, ghost job: Job)
      returns (first: Outcome, reports: seq<Report>)
      requires suffix != "" && '/' !in suffix && STAGE_PREFIX + suffix !in data && JOURNAL !in data
      requires archive.Keys <= STAGED_NAMES && life < |archive.Keys| + 4 && attempt.Valid()
      requires forall event <- events :: event.Valid(data) && (event.Staging? ==> event.suffix != suffix)
      modifies this
      ensures OnlyChanges(old(data), data, {JOURNAL, STAGE_PREFIX + suffix})
      ensures JOURNAL in data <==> life == |archive.Keys| + 3
      ensures first == if life == |archive.Keys| + 3 then Refused(InvalidJournal) else NothingPending
      ensures life == |archive.Keys| + 3 ==> AllBlocked(events, reports)
    {
      hide ReadableJournal;
      reports := [];
      fuel := life;
      var outcome, staged := Stage(suffix, Some(archive), Some(database));
      first := FinishStagedRestore(attempt, job);
      if JOURNAL in data {
        forall event <- events
          ensures event.Valid(data)
        {
          StillValid(old(data), data, suffix, event);
        }
        reports := Blocked(events, job);
      }
    }

    /** Extracts the archive and puts the migrated database in its place; what is refused is removed again. */
    method PrepareStage(stageName: string, archive: Entries, database: Option<Node>) returns (outcome: StageOutcome)
      requires stageName !in data
      modifies `data, `fuel
      ensures OnlyChanges(old(data), data, {stageName})
      ensures outcome == StageRefused ==> database.None? && data == old(data)
      ensures outcome == StageStopped <==> old(fuel) < |archive.Keys| + if database.Some? then 2 else 1
      ensures outcome == StageStopped ==> fuel == 0
      ensures outcome == StageDone ==>
        database.Some? && data == old(data)[stageName := Directory(archive["codex.db" := database.value])] && old(fuel) == fuel + |archive.Keys| + 2
    {
      ghost var before := data;
      var alive := ExtractArchive(stageName, archive);
      if !alive { return StageStopped; }
      if database.None? {
        data := Without(data, {stageName});
        assert data == before;
        return StageRefused;
      }
      alive := Tick();
      if !alive { return StageStopped; }
      data := WithListing(data, Child(stageName), Listing(data, Child(stageName))["codex.db" := database.value]);
      outcome := StageDone;
    }

    /** Writes a journal in place: until it is complete the file does not decode. */
    method WriteRestoreJournal(name: string, journal: Journal) returns (alive: bool)
      modifies `data, `fuel
      ensures alive ==> data == old(data)[name := File(Encoded(journal))] && old(fuel) == fuel + 2
      ensures !alive ==> fuel == 0 && old(fuel) < 2
      ensures !alive ==> data == if old(fuel) == 0 then old(data) else old(data)[name := File(Bytes(""))]
    {
      alive := Tick();
      if !alive { return; }
      data := data[name := File(Bytes(""))];
      alive := Tick();
      if !alive { return; }
      data := data[name := File(Encoded(journal))];
    }
  }

  lemma StillValid(before: Entries, after: Entries, suffix: string, event: Event)
    requires event.Valid(before) && OnlyChanges(before, after, {JOURNAL, STAGE_PREFIX + suffix})
    requires event.Staging? ==> event.suffix != suffix
    ensures event.Valid(after)
  {
    if event.Staging? {
      assert (STAGE_PREFIX + event.suffix)[|STAGE_PREFIX|..] == event.suffix && (STAGE_PREFIX + suffix)[|STAGE_PREFIX|..] == suffix;
      StagedNamesAreSafe(event.suffix);
      assert STAGE_PREFIX + event.suffix != JOURNAL by { assert (STAGE_PREFIX + event.suffix)[9] == 's' && JOURNAL[9] == 'p'; }
    }
  }

  lemma EmptyIsNotAJournal()
    ensures !ReadableJournal(File(Bytes("")))
  {
  }

  /** Extraction of the entries in `remaining` is still to come. */
  ghost predicate Extracting(before: Entries, now: Entries, stageName: string, archive: Entries, remaining: set<string>) {
    remaining <= archive.Keys && now == before[stageName := Directory(Without(archive, remaining))]
  }

  lemma ExtractOne(before: Entries, now: Entries, stageName: string, archive: Entries, remaining: set<string>, name: string)
    requires Extracting(before, now, stageName, archive, remaining) && name in remaining
    ensures IsDirectory(now, Child(stageName)) && |remaining - {name}| == |remaining| - 1
    ensures
      var entries := Listing(now, Child(stageName))[name := archive[name]];
      Extracting(before, WithListing(now, Child(stageName), entries), stageName, archive, remaining - {name})
  {
    assert Without(archive, remaining)[name := archive[name]] == Without(archive, remaining - {name});
  }

  lemma MoveNone(data: Entries, source: Place, destination: Place)
    requires IsDirectory(data, source) && IsDirectory(data, destination)
    requires source.Root? != destination.Root?
    ensures AfterMove(data, source, destination, {}) == data
  {
    var from := Listing(data, source);
    var to := Listing(data, destination);
    assert to + Only(from, {}) == to;
    assert Without(from, {}) == from;
  }

  /** One rename extends the set of moved entries by its name. */
  lemma MoveOne(before: Entries, source: Place, destination: Place, moved: set<string>, name: string)
    requires IsDirectory(before, source) && IsDirectory(before, destination)
    requires source.Root? != destination.Root?
    requires name in Listing(before, source) && name !in moved
    requires moved <= Listing(before, source).Keys && moved !! Listing(before, destination).Keys
    requires source.Root? ==> name != destination.name && destination.name !in moved
    ensures
      var data := AfterMove(before, source, destination, moved);
      && IsDirectory(data, source) && IsDirectory(data, destination)
      && name in Listing(data, source) && Listing(data, source)[name] == Listing(before, source)[name]
      && (name in Listing(data, destination) <==> name in Listing(before, destination))
      && (name !in Listing(before, destination) ==>
            var removed := WithListing(data, source, Without(Listing(data, source), {name}));
            && IsDirectory(removed, destination)
            && WithListing(removed, destination, Listing(removed, destination)[name := Listing(before, source)[name]])
               == AfterMove(before, source, destination, moved + {name}))
  {
    if source.Child? {
      assert source.name !in moved;
    }
    if name !in Listing(before, destination) {
      var from := Listing(before, source);
      AddsOne(from, Listing(before, destination), moved, name);
      if source.Root? {
        RemovesOneFromRoot(before, destination.name, moved, name, Directory(Listing(before, destination) + Only(from, moved)),
                           Directory(Listing(before, destination) + Only(from, moved + {name})));
      } else {
        RemovesOneFromChild(before, source.name, Only(from, moved), name, from[name],
                            Directory(Without(from, moved)), Directory(Without(from, moved + {name})));
      }
    }
  }

  lemma AddsOne(from: Entries, to: Entries, moved: set<string>, name: string)
    requires name in from && name !in moved
    ensures Only(from, moved)[name := from[name]] == Only(from, moved + {name})
    ensures (to + Only(from, moved))[name := from[name]] == to + Only(from, moved + {name})
    ensures Without(Without(from, moved), {name}) == Without(from, moved + {name})
  {
  }

  lemma RemovesOneFromRoot(before: Entries, child: string, moved: set<string>, name: string, old': Node, new': Node)
    requires name != child && child !in moved
    ensures Without(Without(before, moved)[child := old'], {name})[child := new'] == Without(before, moved + {name})[child := new']
  {
  }

  lemma RemovesOneFromChild(before: Entries, child: string, added: Entries, name: string, node: Node, old': Node, new': Node)
    requires name != child
    ensures (before + added)[child := old'][child := new'][name := node] == (before + added[name := node])[child := new']
  {
  }

  // ----- what each disk operation keeps -----

  /** Every validation was that of one of the starts. */
  ghost predicate Logged(runs: seq<Validation>, attempts: seq<Attempt>) {
    forall run <- runs :: exists attempt <- attempts :: attempt.database == run.left && attempt.accepted == run.accepted
  }

  lemma NoneLogged(runs: seq<Validation>, attempts: seq<Attempt>)
    ensures Logged(runs[|runs|..], attempts)
  {
  }

  lemma LoggedNext(first: seq<Validation>, runs: seq<Validation>, run: Validation, attempts: seq<Attempt>, attempt: Attempt)
    requires first <= runs && Logged(runs[|first|..], attempts)
    requires attempt in attempts && attempt.database == run.left && attempt.accepted == run.accepted
    ensures first <= runs + [run] && Logged((runs + [run])[|first|..], attempts)
  {
    assert (runs + [run])[|first|..] == runs[|first|..] + [run];
  }

  /** Every start that validated the database was stopped early. */
  ghost predicate CutShort(attempts: seq<Attempt>, bound: nat) {
    forall attempt <- attempts | attempt.accepted :: attempt.fuel < bound
  }

  lemma NoneCutShort(bound: nat)
    ensures CutShort([], bound)
  {
  }

  lemma CutShortNext(attempts: seq<Attempt>, k: nat, bound: nat)
    requires k < |attempts| && CutShort(attempts[..k], bound) && (attempts[k].accepted ==> attempts[k].fuel < bound)
    ensures CutShort(attempts[..k + 1], bound)
  {
    assert attempts[..k + 1] == attempts[..k] + [attempts[k]];
  }

  lemma PhasesAreDistinct(data: Entries, job: Job, log: Log, journal: Journal)
    requires Pending(data, job, log) && data[JOURNAL] == File(Encoded(journal))
    ensures ReadableJournal(data[JOURNAL]) && ForJob(journal, job)
    ensures journal.phase == PHASE_STAGED || journal.phase == PHASE_MOVING_OUT || journal.phase == PHASE_MOVING_IN
    ensures journal.phase == PHASE_STAGED ==> IsStaged(data, job) && log == NONE
    ensures journal.phase == PHASE_MOVING_OUT ==> IsMovingOut(data, job) && log == NONE
    ensures journal.phase == PHASE_MOVING_IN ==> IsMovingIn(data, job, log)
  {
    assert PHASE_STAGED[0] == 's' && PHASE_MOVING_OUT[0] == PHASE_MOVING_IN[0] == 'm';
    assert PHASE_MOVING_OUT[7] == 'o' && PHASE_MOVING_IN[7] == 'i';
  }

  lemma StagedKeepsPrevious(data: Entries, job: Job)
    requires job.Valid() && IsStaged(data, job)
    ensures job.previousName !in data ==>
      var made := data[job.previousName := Directory(map[])];
      && IsStaged(made, job) && Only(made, {CREDENTIALS}) == Only(data, {CREDENTIALS})
  {
    ReservedNamesAreDistinct(job.stageName, job.previousName);
    var made := data[job.previousName := Directory(map[])];
    assert Loose(made, job) == Loose(data, job);
    assert Only(made, {CREDENTIALS}) == Only(data, {CREDENTIALS});
  }

  /** Entries outside the reserved names do not change when only reserved ones do. */
  lemma LooseFrame(before: Entries, after: Entries, job: Job, changed: set<string>)
    requires Without(before, changed) == Without(after, changed) && changed <= job.Reserved()
    ensures Loose(before, job) == Loose(after, job)
    ensures CREDENTIALS !in changed ==> Only(before, {CREDENTIALS}) == Only(after, {CREDENTIALS})
    ensures forall name :: name !in changed ==> (name in before <==> name in after)
    ensures forall name :: name !in changed && name in before ==> before[name] == after[name]
  {
    forall name | name !in changed
      ensures name in before <==> name in after
      ensures name in before ==> before[name] == after[name]
    {
      assert name in before <==> name in Without(before, changed);
      assert name in after <==> name in Without(after, changed);
    }
  }

  lemma StagedIgnoresNext(before: Entries, after: Entries, job: Job)
    requires job.Valid() && IsStaged(before, job)
    requires Without(after, {NEXT}) == Without(before, {NEXT}) && (NEXT in after ==> after[NEXT].File?)
    ensures IsStaged(after, job) && Only(after, {CREDENTIALS}) == Only(before, {CREDENTIALS})
  {
    ReservedNamesAreDistinct(job.stageName, job.previousName);
    LooseFrame(before, after, job, {NEXT});
  }

  lemma StagedAdvances(before: Entries, after: Entries, job: Job)
    requires job.Valid() && IsStaged(before, job) && job.previousName in before
    requires after == Without(before, {NEXT})[JOURNAL := File(Encoded(Journal(JOURNAL_VERSION, job.stageName, job.previousName, PHASE_MOVING_OUT)))]
    ensures IsMovingOut(after, job) && Only(after, {CREDENTIALS}) == Only(before, {CREDENTIALS})
  {
    ReservedNamesAreDistinct(job.stageName, job.previousName);
    assert Without(after, {NEXT, JOURNAL}) == Without(before, {NEXT, JOURNAL});
    LooseFrame(before, after, job, {NEXT, JOURNAL});
    assert Loose(after, job) + Previous(after, job) == job.original;
  }

  lemma MovingOutMoves(before: Entries, after: Entries, job: Job, moved: set<string>)
    requires job.Valid() && IsMovingOut(before, job)
    requires moved <= before.Keys - job.Reserved()
    requires after == AfterMove(before, Root, Child(job.previousName), moved)
    ensures IsMovingOut(after, job) && Only(after, {CREDENTIALS}) == Only(before, {CREDENTIALS})
    ensures moved == before.Keys - job.Reserved() ==> Loose(after, job) == map[]
  {
    hide SafeSiblingName;
    ReservedNamesAreDistinct(job.stageName, job.previousName);
    var loose := Loose(before, job);
    LooseShrinks(before, moved, after[job.previousName], job);
    assert Only(before, moved) == Only(loose, moved);
    Repartition(Previous(before, job), loose, moved);
    assert Without(loose, moved) + (Previous(before, job) + Only(loose, moved)) == loose + Previous(before, job);
  }

  lemma LooseShrinks(before: Entries, moved: set<string>, previous: Node, job: Job)
    requires moved !! job.Reserved()
    ensures Loose(Without(before, moved)[job.previousName := previous], job) == Without(Loose(before, job), moved)
    ensures job.previousName != CREDENTIALS ==>
      Only(Without(before, moved)[job.previousName := previous], {CREDENTIALS}) == Only(before, {CREDENTIALS})
    ensures moved == before.Keys - job.Reserved() ==> Without(Loose(before, job), moved) == map[]
  {
  }

  lemma MovingOutIgnoresNext(before: Entries, after: Entries, job: Job)
    requires job.Valid() && IsMovingOut(before, job)
    requires Without(after, {NEXT}) == Without(before, {NEXT}) && (NEXT in after ==> after[NEXT].File?)
    ensures IsMovingOut(after, job) && Only(after, {CREDENTIALS}) == Only(before, {CREDENTIALS})
  {
    ReservedNamesAreDistinct(job.stageName, job.previousName);
    LooseFrame(before, after, job, {NEXT});
  }

  lemma MovingOutAdvances(before: Entries, after: Entries, job: Job)
    requires job.Valid() && IsMovingOut(before, job) && Loose(before, job) == map[]
    requires after == Without(before, {NEXT})[JOURNAL := File(Encoded(Journal(JOURNAL_VERSION, job.stageName, job.previousName, PHASE_MOVING_IN)))]
    ensures IsMovingIn(after, job, NONE) && Only(after, {CREDENTIALS}) == Only(before, {CREDENTIALS})
  {
    ReservedNamesAreDistinct(job.stageName, job.previousName);
    assert Without(after, {NEXT, JOURNAL}) == Without(before, {NEXT, JOURNAL});
    LooseFrame(before, after, job, {NEXT, JOURNAL});
    assert Previous(before, job) == job.original;
    assert Loose(after, job) + job.staged == job.staged;
  }

  lemma FewToMoveOut(data: Entries, job: Job, moved: set<string>)
    requires job.Valid() && IsMovingOut(data, job) && moved <= data.Keys - job.Reserved()
    ensures data.Keys - job.Reserved() <= job.original.Keys
    ensures |moved| <= |data.Keys - job.Reserved()| <= |job.original.Keys|
  {
    assert Loose(data, job).Keys == data.Keys - job.Reserved();
    SubsetIsSmaller(moved, data.Keys - job.Reserved());
    SubsetIsSmaller(data.Keys - job.Reserved(), job.original.Keys);
  }

  lemma StageIsDirectory(data: Entries, job: Job, log: Log)
    requires IsMovingIn(data, job, log) && job.stageName in data
    ensures log == NONE && data[job.stageName].Directory?
  {
  }

  lemma FewToMoveIn(data: Entries, job: Job, moved: set<string>)
    requires job.Valid() && IsMovingIn(data, job, NONE) && job.stageName in data && moved <= data[job.stageName].entries.Keys
    ensures |moved| <= |data[job.stageName].entries.Keys| <= |job.staged.Keys|
  {
    SubsetIsSmaller(moved, data[job.stageName].entries.Keys);
    SubsetIsSmaller(data[job.stageName].entries.Keys, job.staged.Keys);
  }

  lemma NothingToReplaceOnTheWayOut(data: Entries, job: Job)
    requires job.Valid() && IsMovingOut(data, job)
    ensures forall name :: name in data && name !in job.Reserved() ==> name !in Listing(data, Child(job.previousName))
  {
    forall name | name in data && name !in job.Reserved()
      ensures name !in Listing(data, Child(job.previousName))
    {
      assert name in Loose(data, job);
    }
  }

  lemma NothingToReplaceOnTheWayIn(data: Entries, job: Job)
    requires job.Valid() && IsMovingIn(data, job, NONE) && job.stageName in data
    ensures forall name :: name in Listing(data, Child(job.stageName)) ==> name !in data && name in job.staged
  {
    ReservedNamesAreDistinct(job.stageName, job.previousName);
    var stage := data[job.stageName].entries;
    forall name | name in stage
      ensures name !in data && name in job.staged
    {
      assert name in Loose(data, job) + stage;
      assert name !in Loose(data, job);
    }
  }

  lemma LooseGains(before: Entries, added: Entries, stage: Node, job: Job)
    requires added.Keys !! job.Reserved()
    ensures Loose((before + added)[job.stageName := stage], job) == Loose(before, job) + added
    ensures job.stageName != CREDENTIALS ==>
      Only((before + added)[job.stageName := stage], {CREDENTIALS}) == Only(before, {CREDENTIALS})
  {
  }

  lemma Repartition(loose: Entries, stage: Entries, moved: set<string>)
    requires loose.Keys !! stage.Keys && moved <= stage.Keys
    ensures (loose + Only(stage, moved)).Keys !! Without(stage, moved).Keys
    ensures loose + Only(stage, moved) + Without(stage, moved) == loose + stage
    ensures moved == stage.Keys ==> Without(stage, moved) == map[]
  {
  }

  lemma MovingInMoves(before: Entries, after: Entries, job: Job, moved: set<string>)
    requires job.Valid() && IsMovingIn(before, job, NONE) && job.stageName in before
    requires moved <= before[job.stageName].entries.Keys
    requires after == AfterMove(before, Child(job.stageName), Root, moved)
    ensures IsMovingIn(after, job, NONE) && Only(after, {CREDENTIALS}) == Only(before, {CREDENTIALS})
    ensures job.stageName in after
    ensures moved == before[job.stageName].entries.Keys ==> after[job.stageName] == Directory(map[])
  {
    ReservedNamesAreDistinct(job.stageName, job.previousName);
    NothingToReplaceOnTheWayIn(before, job);
    var stage := before[job.stageName].entries;
    var added, left := Only(stage, moved), Without(stage, moved);
    assert added.Keys !! job.Reserved();
    LooseGains(before, added, Directory(left), job);
    Repartition(Loose(before, job), stage, moved);
  }

  lemma StageRemoved(before: Entries, after: Entries, job: Job)
    requires job.Valid() && IsMovingIn(before, job, NONE)
    requires job.stageName in before && before[job.stageName] == Directory(map[])
    requires after == Without(before, {job.stageName})
    ensures IsMovingIn(after, job, NONE) && Only(after, {CREDENTIALS}) == Only(before, {CREDENTIALS})
  {
    ReservedNamesAreDistinct(job.stageName, job.previousName);
    LooseFrame(before, after, job, {job.stageName});
    assert Loose(before, job) + map[] == Loose(before, job);
  }

  lemma DatabaseRewritten(before: Entries, after: Entries, job: Job, log: Log, run: Validation)
    requires Pending(before, job, log) && IsMovingIn(before, job, log) && job.stageName !in before
    requires run.left.Keys <= DATABASE_FILES && run.handed == Only(before, DATABASE_FILES)
    requires after == Without(before, DATABASE_FILES) + run.left
    ensures run.handed == Standing(job, log.runs)
    ensures Pending(after, job, log.Add(run)) && IsMovingIn(after, job, log.Add(run)) && job.stageName !in after
    ensures run.accepted ==> Finishing(after, job, log.Add(run))
    ensures Only(after, DATABASE_FILES) == run.left && Previous(after, job) == Previous(before, job)
  {
    ReservedNamesAreDistinct(job.stageName, job.previousName);
    assert {JOURNAL, NEXT, CREDENTIALS} !! DATABASE_FILES;
    DatabaseFrame(before, run.left, job);
    StandingIsDatabase(before, job, log);
    ChainedNext(job, log.runs, run);
  }

  lemma StandingIsDatabase(data: Entries, job: Job, log: Log)
    requires Pending(data, job, log) && IsMovingIn(data, job, log) && job.stageName !in data
    ensures Only(data, DATABASE_FILES) == Standing(job, log.runs)
    ensures Without(Loose(data, job), DATABASE_FILES) == Without(job.staged, DATABASE_FILES)
  {
    ReservedNamesAreDistinct(job.stageName, job.previousName);
    assert {JOURNAL, NEXT, CREDENTIALS} !! DATABASE_FILES;
    var standing := Standing(job, log.runs);
    assert standing.Keys <= DATABASE_FILES;
    assert Only(data, DATABASE_FILES) == Only(Loose(data, job), DATABASE_FILES);
    assert Only(Without(job.staged, DATABASE_FILES) + standing, DATABASE_FILES) == standing;
    assert Without(Without(job.staged, DATABASE_FILES) + standing, DATABASE_FILES) == Without(job.staged, DATABASE_FILES);
  }

  lemma ChainedNext(job: Job, runs: seq<Validation>, run: Validation)
    requires Chained(job, runs) && run.handed == Standing(job, runs) && run.left.Keys <= DATABASE_FILES
    ensures Chained(job, runs + [run])
  {
    forall k | 0 <= k < |runs| + 1
      ensures (runs + [run])[k].handed == Standing(job, (runs + [run])[..k])
    {
      if k < |runs| {
        assert (runs + [run])[..k] == runs[..k];
      } else {
        assert (runs + [run])[..k] == runs;
      }
    }
  }

  lemma DatabaseFrame(before: Entries, database: Entries, job: Job)
    requires database.Keys <= DATABASE_FILES && CREDENTIALS !in DATABASE_FILES
    ensures
      var after := Without(before, DATABASE_FILES) + database;
      && (database.Keys !! job.Reserved() ==> Loose(after, job) == Without(Loose(before, job), DATABASE_FILES) + database)
      && Only(after, {CREDENTIALS}) == Only(before, {CREDENTIALS})
      && Only(after, DATABASE_FILES) == database
  {
  }

  /** After `count` of the entries of one directory have been removed. */
  ghost predicate Removing(before: Entries, now: Entries, name: string, count: int) {
    && Without(now, {name}) == Without(before, {name})
    && (name in now <==> name in before) && (name in now ==> (now[name].Directory? <==> before[name].Directory?))
    && count + |Inside(now, name).Keys| == |Inside(before, name).Keys|
  }

  lemma RemoveOne(before: Entries, now: Entries, name: string, count: int, entry: string)
    requires Removing(before, now, name, count) && IsDirectory(now, Child(name)) && entry in now[name].entries
    ensures |Inside(now, name).Keys| > 0
    ensures
      var after := now[name := Directory(Without(now[name].entries, {entry}))];
      Removing(before, after, name, count + 1) && Inside(after, name).Keys < Inside(now, name).Keys
  {
    var after := now[name := Directory(Without(now[name].entries, {entry}))];
    assert Inside(after, name).Keys == Inside(now, name).Keys - {entry};
    assert Without(after, {name}) == Without(now, {name});
  }

  lemma RemovedAll(before: Entries, now: Entries, name: string, count: int)
    requires Removing(before, now, name, count) && (IsDirectory(now, Child(name)) ==> now[name].entries == map[])
    ensures count == |Inside(before, name).Keys| && Without(now, {name}) == Without(before, {name})
    ensures Without(Without(now, {name}), {name}) == Without(before, {name})
  {
    assert Inside(now, name) == map[];
  }

  lemma FinishingIsPending(data: Entries, job: Job, log: Log)
    requires Finishing(data, job, log)
    ensures Pending(data, job, log)
  {
  }

  lemma PreviousIsOriginal(data: Entries, job: Job, log: Log)
    requires IsMovingIn(data, job, log) && !log.validated
    ensures Previous(data, job) == job.original
  {
  }

  lemma PreviousShrinks(before: Entries, after: Entries, job: Job, log: Log)
    requires Finishing(before, job, log)
    requires Without(after, {job.previousName}) == Without(before, {job.previousName})
    requires job.previousName in after ==> job.previousName in before && (before[job.previousName].Directory? ==> after[job.previousName].Directory?)
    ensures Finishing(after, job, log)
    ensures Only(after, DATABASE_FILES) == Only(before, DATABASE_FILES)
  {
    ReservedNamesAreDistinct(job.stageName, job.previousName);
    LooseFrame(before, after, job, {job.previousName});
  }

  lemma JournalRemoved(before: Entries, after: Entries, job: Job, log: Log, database: Entries)
    requires Finishing(before, job, log)
    requires job.previousName !in before && Only(before, DATABASE_FILES) == database
    requires after == Without(before, {JOURNAL})
    ensures Complete(after, job, database)
  {
    ReservedNamesAreDistinct(job.stageName, job.previousName);
    assert {JOURNAL, NEXT, CREDENTIALS} !! DATABASE_FILES;
    forall name
      ensures name in after <==> name in Without(job.staged, DATABASE_FILES) + database + job.kept
      ensures name in after ==> after[name] == (Without(job.staged, DATABASE_FILES) + database + job.kept)[name]
    {
      assert name in Only(before, {CREDENTIALS}) <==> name in job.kept;
      assert name in Only(before, DATABASE_FILES) <==> name in database;
      assert name in Without(Loose(before, job), DATABASE_FILES) <==> name in Without(job.staged, DATABASE_FILES);
    }
    assert after.Keys == (Without(job.staged, DATABASE_FILES) + database + job.kept).Keys;
  }

  ghost function StagedJob(data: Entries, suffix: string, staged: Entries): Job {
    var job := Job(STAGE_PREFIX + suffix, PREVIOUS_PREFIX + suffix, map[], staged, Only(data, {CREDENTIALS}));
    job.(original := Without(data, job.Reserved()))
  }

  lemma StageLeavesPending(before: Entries, after: Entries, suffix: string, staged: Entries)
    requires suffix != "" && '/' !in suffix && STAGE_PREFIX + suffix !in before && JOURNAL !in before
    requires staged.Keys <= STAGED_NAMES
    requires
      var job := StagedJob(before, suffix, staged);
      after == before[job.stageName := Directory(staged)]
                     [JOURNAL := File(Encoded(Journal(JOURNAL_VERSION, job.stageName, job.previousName, PHASE_STAGED)))]
    ensures
      var job := StagedJob(before, suffix, staged);
      PREVIOUS_PREFIX + suffix !in before && (NEXT in before ==> before[NEXT].File?) ==> Pending(after, job, NONE)
  {
    var job := StagedJob(before, suffix, staged);
    StagedNamesAreSafe(suffix);
    ReservedNamesAreDistinct(job.stageName, job.previousName);
    assert Loose(after, job) == job.original;
    assert Only(after, {CREDENTIALS}) == job.kept;
    assert IsStaged(after, job) <== PREVIOUS_PREFIX + suffix !in before && (NEXT in before ==> before[NEXT].File?);
  }

  lemma StagedNamesAreSafe(suffix: string)
    requires suffix != "" && '/' !in suffix
    ensures SafeSiblingName(STAGE_PREFIX + suffix, STAGE_PREFIX)
    ensures SafeSiblingName(PREVIOUS_PREFIX + suffix, PREVIOUS_PREFIX)
  {
    assert '/' !in STAGE_PREFIX && '/' !in PREVIOUS_PREFIX;
  }

  lemma PendingHasJournal(data: Entries, job: Job, log: Log)
    requires Pending(data, job, log)
    ensures JOURNAL in data && data[JOURNAL].File? && ReadableJournal(data[JOURNAL])
    ensures ForJob(data[JOURNAL].content.journal, job) && JournalSays(data, job, data[JOURNAL].content.journal.phase)
  {
  }
}
