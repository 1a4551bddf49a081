/**
 Migration runs as a transition system: any number of runners, one advisory lock, one database, a
 directory that may change at any moment, and every statement may fail and every connection be lost.
 */
module MigrationRuns {
  import opened Common
  import opened Migrations

  /** Stands for SHA-256: equal digests come from equal bytes. */
  datatype Digest = Digest(content: string)

  function Checksum(content: string): Digest { Digest(content) }

  /** A row of schema_migrations, and what running a file's SQL did. Both lists are in commit order. */
  datatype Row = Row(version: nat, slug: string, checksum: Digest)
  datatype Effect = Effect(version: nat, sql: string)

  /** History: what a runner found in a file when it took the checksum, and when it read the SQL. */
  datatype Reading = Reading(first: string, second: string)

  /** What is committed. authors and reads are history: who committed each row, and from what reads of its file. */
  datatype Db = Db(rows: seq<Row>, effects: seq<Effect>, authors: seq<nat>, readings: seq<Reading>)

  /** A connection as the server sees it: rows and effects of an open transaction are visible to nobody else. */
  datatype Session = Session(inTx: bool, aborted: bool, rows: seq<Row>, effects: seq<Effect>)

  const NO_TX := Session(false, false, [], [])
  const FRESH_TX := Session(true, false, [], [])

  datatype Disk = Disk(entries: set<DirEntry>, content: map<string, string>)

  datatype Plan = Plan(files: seq<MigrationFile>, snapshot: seq<Row>, pending: seq<MigrationFile>)

  /** Where the loop over pending files stands: between files, or in one of the steps of one file. */
  datatype Phase =
    | Between
    | Summed(sum: Digest)
    | Loaded(sum: Digest, sql: string)
    | Begun(sum: Digest, sql: string)
    | Ran(sum: Digest, sql: string)
    | Inserted(sum: Digest, sql: string)
    | Undoing

  datatype Outcome = Applied(files: seq<MigrationFile>, skipped: nat) | Failed(error: Error) | ConnectionLost

  datatype Pc =
    | Idle
    | Waiting
    | Locked
    | Ready
    | Listed(files: seq<MigrationFile>)
    | Checking(files: seq<MigrationFile>, snapshot: seq<Row>, k: nat, maxApplied: nat)
    | Applying(plan: Plan, k: nat, phase: Phase)
    | Leaving(outcome: Outcome)
    | Closing(outcome: Outcome)
    | Ended(outcome: Outcome)
  {
    /** From taking the lock to giving it back. */
    predicate Critical() { Locked? || Ready? || Listed? || Checking? || Applying? || Leaving? }

    predicate Live() { !Idle? && !Ended? }
  }

  datatype State = State(disk: Disk, db: Db, lock: Option<nat>, runners: map<nat, Pc>,
                         sessions: map<nat, Session>, readings: map<nat, Reading>)

  datatype Action =
    | Connect | TakeLock | LockFails | CreateTable(ok: bool)
    | ReadDirectory(listing: seq<DirEntry>) | ReadRows(rows: seq<Row>) | StatementFails | ReadFails
    | CheckRow | CheckOrder
    | ReadChecksum | ReadSql | Begin | RunSql(ok: bool) | InsertRow(ok: bool) | Commit(ok: bool) | Rollback(ok: bool)
    | Finish | Unlock(ok: bool) | Close
    | LoseConnection(committed: bool)

  datatype Event = Act(id: nat, action: Action) | ChangeDisk(disk: Disk)

  // ---------------------------------------------------------------- steps

  function PcOf(s: State, id: nat): Pc { if id in s.runners then s.runners[id] else Idle }

  function Move(s: State, id: nat, pc: Pc): State { s.(runners := s.runners[id := pc]) }

  function SessionOf(s: State, id: nat): Session { if id in s.sessions then s.sessions[id] else NO_TX }

  function ReadingOf(s: State, id: nat): Reading { if id in s.readings then s.readings[id] else Reading("", "") }

  function Release(s: State, id: nat): State { if s.lock == Some(id) then s.(lock := None) else s }

  ghost function Versions(rows: seq<Row>): set<nat> { set r | r in rows :: r.version }

  function HasVersion(rows: seq<Row>, v: nat): bool { exists r | r in rows :: r.version == v }

  ghost predicate RowsIncreasing(rows: seq<Row>) {
    forall i, j :: 0 <= i < j < |rows| ==> rows[i].version < rows[j].version
  }

  /** SELECT ... ORDER BY version. */
  ghost predicate OrderedRows(rows: seq<Row>, table: seq<Row>) {
    RowsIncreasing(rows) && forall r :: r in rows <==> r in table
  }

  function FindVersion(files: seq<MigrationFile>, v: nat): (r: Option<MigrationFile>)
    ensures r.Some? ==> r.value in files && r.value.version == v
    ensures r.None? ==> forall f :: f in files ==> f.version != v
  {
    if files == [] then None
    else if files[0].version == v then Some(files[0])
    else FindVersion(files[1..], v)
  }

  function Pending(files: seq<MigrationFile>, rows: seq<Row>): seq<MigrationFile> {
    if files == [] then []
    else (if HasVersion(rows, files[0].version) then [] else [files[0]]) + Pending(files[1..], rows)
  }

  function FirstBelow(files: seq<MigrationFile>, limit: nat): (r: Option<MigrationFile>)
    ensures r.None? <==> forall f :: f in files ==> f.version >= limit
  {
    if files == [] then None
    else if files[0].version < limit then Some(files[0])
    else FirstBelow(files[1..], limit)
  }

  // ---------------------------------------------------------------- statements on the server

  function Publish(db: Db, rows: seq<Row>, effects: seq<Effect>, id: nat, reading: Reading): Db {
    Db(db.rows + rows, db.effects + effects,
       db.authors + seq(|rows|, _ => id), db.readings + seq(|rows|, _ => reading))
  }

  function SetSession(s: State, id: nat, x: Session): State { s.(sessions := s.sessions[id := x]) }

  /** A statement that writes: into the open transaction, or, without one, committed at once. */
  function Write(s: State, id: nat, rows: seq<Row>, effects: seq<Effect>): State {
    var x := SessionOf(s, id);
    if x.inTx then SetSession(s, id, x.(rows := x.rows + rows, effects := x.effects + effects))
    else s.(db := Publish(s.db, rows, effects, id, ReadingOf(s, id)))
  }

  /** A statement that fails aborts an open transaction. */
  function Fail(s: State, id: nat): State {
    var x := SessionOf(s, id);
    SetSession(s, id, x.(aborted := x.inTx))
  }

  /** The end of a transaction, if one is open. An aborted one is dropped even by COMMIT. */
  function EndTx(s: State, id: nat, commit: bool): State {
    var x := SessionOf(s, id);
    var t := SetSession(s, id, NO_TX);
    if commit && x.inTx && !x.aborted then t.(db := Publish(s.db, x.rows, x.effects, id, ReadingOf(s, id))) else t
  }

  // ---------------------------------------------------------------- steps of a runner

  /** One applied row against the directory: gone, changed, or as recorded. */
  function RowCheck(disk: Disk, files: seq<MigrationFile>, row: Row): Option<Error> {
    match FindVersion(files, row.version)
    case None => Some(ChecksumMismatch(row.version))
    case Some(f) =>
      if f.fileName !in disk.content then Some(ReadFailed)
      else if Checksum(disk.content[f.fileName]) != row.checksum then Some(ChecksumMismatch(row.version))
      else None
  }

  ghost function SetupStep(s: State, id: nat, a: Action): Option<State> {
    match (PcOf(s, id), a)
    case (Idle, Connect) => Some(Move(s, id, Waiting))
    case (Waiting, TakeLock) => if s.lock == None then Some(Move(s.(lock := Some(id)), id, Locked)) else None
    case (Waiting, LockFails) => Some(Move(s, id, Closing(Failed(StatementFailed))))
    case (Locked, CreateTable(ok)) => Some(Move(s, id, if ok then Ready else Leaving(Failed(StatementFailed))))
    case (Ready, ReadFails) => Some(Move(s, id, Leaving(Failed(ReadFailed))))
    case (Ready, ReadDirectory(listing)) =>
      if !IsListing(listing, s.disk.entries) then None
      else (match Discover(listing)
            case Success(files) => Some(Move(s, id, Listed(files)))
            case Failure(e) => Some(Move(s, id, Leaving(Failed(e)))))
    case (Listed(files), ReadRows(rows)) =>
      if OrderedRows(rows, s.db.rows) then Some(Move(s, id, Checking(files, rows, 0, 0))) else None
    case (Listed(files), StatementFails) => Some(Move(s, id, Leaving(Failed(StatementFailed))))
    case _ => None
  }

  function CheckStep(s: State, id: nat, a: Action): Option<State> {
    match (PcOf(s, id), a)
    case (Checking(files, snapshot, k, maxApplied), CheckRow) =>
      if k >= |snapshot| then None
      else (match RowCheck(s.disk, files, snapshot[k])
            case Some(e) => Some(Move(s, id, Leaving(Failed(e))))
            case None =>
              var version := snapshot[k].version;
              Some(Move(s, id, Checking(files, snapshot, k + 1, if version > maxApplied then version else maxApplied))))
    case (Checking(files, snapshot, k, maxApplied), ReadFails) =>
      if k < |snapshot| then Some(Move(s, id, Leaving(Failed(ReadFailed)))) else None
    case (Checking(files, snapshot, k, maxApplied), CheckOrder) =>
      if k != |snapshot| then None
      else
        var pending := Pending(files, snapshot);
        (match FirstBelow(pending, maxApplied)
         case Some(f) => Some(Move(s, id, Leaving(Failed(OutOfOrder(f.version)))))
         case None => Some(Move(s, id, Applying(Plan(files, snapshot, pending), 0, Between))))
    case _ => None
  }

  function ApplyStep(s: State, id: nat, plan: Plan, k: nat, phase: Phase, a: Action): Option<State>
    requires k < |plan.pending|
  {
    var file := plan.pending[k];
    var x := SessionOf(s, id);
    match (phase, a)
    case (Between, ReadFails) => Some(Move(s, id, Leaving(Failed(ReadFailed))))
    case (Between, ReadChecksum) =>
      if file.fileName !in s.disk.content then None
      else
        var found := s.disk.content[file.fileName];
        Some(Move(s.(readings := s.readings[id := Reading(found, "")]), id, Applying(plan, k, Summed(Checksum(found)))))
    case (Summed(sum), ReadFails) => Some(Move(s, id, Leaving(Failed(ReadFailed))))
    case (Summed(sum), ReadSql) =>
      if file.fileName !in s.disk.content then None
      else
        var found := s.disk.content[file.fileName];
        var reading := Reading(ReadingOf(s, id).first, found);
        Some(Move(s.(readings := s.readings[id := reading]), id, Applying(plan, k, Loaded(sum, found))))
    case (Loaded(sum, sql), StatementFails) => Some(Move(s, id, Leaving(Failed(StatementFailed))))
    case (Loaded(sum, sql), Begin) => Some(Move(SetSession(s, id, FRESH_TX), id, Applying(plan, k, Begun(sum, sql))))
    case (Begun(sum, sql), RunSql(ok)) =>
      if !ok then Some(Move(Fail(s, id), id, Applying(plan, k, Undoing)))
      else if x.aborted then None
      else Some(Move(Write(s, id, [], [Effect(file.version, sql)]), id, Applying(plan, k, Ran(sum, sql))))
    case (Ran(sum, sql), InsertRow(ok)) =>
      if !ok then Some(Move(Fail(s, id), id, Applying(plan, k, Undoing)))
      else if x.aborted || HasVersion(s.db.rows + x.rows, file.version) then None
      else Some(Move(Write(s, id, [Row(file.version, file.slug, sum)], []), id, Applying(plan, k, Inserted(sum, sql))))
    case (Inserted(sum, sql), Commit(ok)) =>
      Some(Move(EndTx(s, id, ok), id, if ok then Applying(plan, k + 1, Between) else Applying(plan, k, Undoing)))
    case (Undoing, Rollback(ok)) =>
      if ok then Some(Move(EndTx(s, id, false), id, Leaving(Failed(ApplyFailed(file.version)))))
      else Some(Move(s, id, Leaving(Failed(StatementFailed))))
    case _ => None
  }

  ghost function ExitStep(s: State, id: nat, a: Action): Option<State> {
    match (PcOf(s, id), a)
    case (Applying(plan, k, Between), Finish) =>
      if k < |plan.pending| then None
      else Some(Move(s, id, Leaving(Applied(plan.pending, |Versions(plan.snapshot)|))))
    case (Leaving(outcome), Unlock(ok)) =>
      if !ok then Some(Move(s, id, Closing(Failed(StatementFailed))))
      else if SessionOf(s, id).aborted then None
      else Some(Move(Release(s, id), id, Closing(outcome)))
    case (Closing(outcome), Close) => Some(Move(Release(EndTx(s, id, false), id), id, Ended(outcome)))
    case _ => None
  }

  /** The server ends the session: the lock goes, an open transaction goes, unless its COMMIT had already arrived. */
  function LostStep(s: State, id: nat, committed: bool): Option<State> {
    var pc := PcOf(s, id);
    if !pc.Live() then None
    else
      var arrived := committed && pc.Applying? && pc.phase.Inserted?;
      Some(Move(Release(EndTx(s, id, arrived), id), id, Ended(ConnectionLost)))
  }

  ghost function Next(s: State, e: Event): Option<State> {
    match e
    case ChangeDisk(disk) => Some(s.(disk := disk))
    case Act(id, a) =>
      var pc := PcOf(s, id);
      if a.LoseConnection? then LostStep(s, id, a.committed)
      else if pc.Checking? then CheckStep(s, id, a)
      else if pc.Applying? && pc.k < |pc.plan.pending| then ApplyStep(s, id, pc.plan, pc.k, pc.phase, a)
      else if pc.Applying? || pc.Leaving? || pc.Closing? then ExitStep(s, id, a)
      else SetupStep(s, id, a)
  }

  ghost function Run(s: State, events: seq<Event>): Option<State> {
    if events == [] then Some(s)
    else match Run(s, events[..|events| - 1])
      case None => None
      case Some(t) => Next(t, events[|events| - 1])
  }

  function Init(disk: Disk): State { State(disk, Db([], [], [], []), None, map[], map[], map[]) }

  // ---------------------------------------------------------------- what every step keeps

  /** Versions strictly increase in commit order, and each effect is there exactly with its row. */
  ghost predicate DbOk(db: Db) {
    && RowsIncreasing(db.rows) && |db.effects| == |db.rows| == |db.authors|
    && forall i :: 0 <= i < |db.rows| ==> db.effects[i].version == db.rows[i].version
  }

  /** What the transaction of a runner holds, by the statements it has sent. */
  predicate SessionOk(pc: Pc, x: Session) {
    if pc.Applying? && pc.k < |pc.plan.pending| then
      var file := pc.plan.pending[pc.k];
      match pc.phase
      case Between => x == NO_TX
      case Summed(_) => x == NO_TX
      case Loaded(_, _) => x == NO_TX
      case Begun(_, _) => x == FRESH_TX
      case Ran(_, sql) => x == Session(true, false, [], [Effect(file.version, sql)])
      case Inserted(sum, sql) =>
        x == Session(true, false, [Row(file.version, file.slug, sum)], [Effect(file.version, sql)])
      case Undoing => true
    else pc.Leaving? || pc.Closing? || x == NO_TX
  }

  /** One row with its effect, on top. */
  function Append(db: Db, file: MigrationFile, sum: Digest, sql: string, id: nat, reading: Reading): Db {
    Db(db.rows + [Row(file.version, file.slug, sum)], db.effects + [Effect(file.version, sql)],
       db.authors + [id], db.readings + [reading])
  }

  ghost predicate PlanOk(plan: Plan, k: nat, id: nat, db: Db) {
    && Increasing(plan.files) && Increasing(plan.pending) && RowsIncreasing(plan.snapshot)
    && k <= |plan.pending| && |db.rows| == |plan.snapshot| + k == |db.authors|
    && db.rows[..|plan.snapshot|] == plan.snapshot
    && (forall i :: 0 <= i < k ==> db.rows[|plan.snapshot| + i].version == plan.pending[i].version)
    && (forall f :: f in plan.pending <==> f in plan.files && !HasVersion(plan.snapshot, f.version))
    && (forall r :: r in plan.snapshot ==> FindVersion(plan.files, r.version).Some?)
    && (forall f, r :: f in plan.pending && r in plan.snapshot ==> r.version < f.version)
  }

  /** The error of a check that runs before anything is applied. */
  predicate CheckError(e: Error) { e.BadFileName? || e.DuplicateVersion? || e.ChecksumMismatch? || e.OutOfOrder? }

  ghost predicate OutcomeOk(outcome: Outcome, id: nat, db: Db) {
    outcome.Failed? && CheckError(outcome.error) ==> id !in db.authors
  }

  /** The highest of the first k versions of an increasing list of rows. */
  function Highest(rows: seq<Row>, k: nat): nat
    requires k <= |rows|
  {
    if k == 0 then 0 else rows[k - 1].version
  }

  ghost predicate PcOk(pc: Pc, id: nat, db: Db) {
    match pc
    case Listed(files) => id !in db.authors && Increasing(files)
    case Checking(files, snapshot, k, maxApplied) =>
      && id !in db.authors && Increasing(files) && snapshot == db.rows && k <= |snapshot|
      && maxApplied == Highest(snapshot, k)
      && forall i :: 0 <= i < k ==> FindVersion(files, snapshot[i].version).Some?
    case Applying(plan, k, phase) => PlanOk(plan, k, id, db) && (phase != Between ==> k < |plan.pending|)
    case Leaving(outcome) => OutcomeOk(outcome, id, db)
    case Closing(outcome) => OutcomeOk(outcome, id, db)
    case Ended(outcome) => OutcomeOk(outcome, id, db)
    case _ => id !in db.authors
  }

  ghost predicate Inv(s: State) {
    && DbOk(s.db)
    && (forall id: nat :: PcOf(s, id).Critical() ==> s.lock == Some(id))
    && (forall id: nat :: PcOk(PcOf(s, id), id, s.db))
    && forall id: nat :: SessionOk(PcOf(s, id), SessionOf(s, id))
  }

  /** What a step by one runner can do to the database: nothing, or commit the file it is applying. */
  ghost predicate Commits(s: State, id: nat, db: Db) {
    var pc := PcOf(s, id);
    && pc.Applying? && pc.phase.Inserted? && pc.k < |pc.plan.pending|
    && db == Append(s.db, pc.plan.pending[pc.k], pc.phase.sum, pc.phase.sql, id, ReadingOf(s, id))
  }

  predicate SameRunner(s: State, t: State, id: nat) {
    PcOf(t, id) == PcOf(s, id) && SessionOf(t, id) == SessionOf(s, id) && ReadingOf(t, id) == ReadingOf(s, id)
  }

  /** What a step by one runner leaves alone: the directory, the other runners, a lock held by another. */
  ghost predicate Framed(s: State, id: nat, t: State) {
    && t.disk == s.disk && (forall other: nat :: other != id ==> SameRunner(s, t, other))
    && (t.lock == s.lock || (s.lock == None && t.lock == Some(id)) || (s.lock == Some(id) && t.lock == None))
    && (PcOf(t, id).Critical() ==> t.lock == Some(id) || (PcOf(s, id).Critical() && t.lock == s.lock))
  }

  predicate Writes(a: Action) { a.RunSql? || a.InsertRow? }

  predicate EndsTx(a: Action) { a.Commit? || a.Rollback? }

  lemma WriteFrame(s: State, id: nat, plan: Plan, k: nat, phase: Phase, a: Action)
    requires PcOf(s, id) == Applying(plan, k, phase) && k < |plan.pending| && ApplyStep(s, id, plan, k, phase, a).Some?
    requires Writes(a)
    ensures Framed(s, id, ApplyStep(s, id, plan, k, phase, a).value)
  {
    hide HasVersion, Publish, EndTx;
  }

  lemma EndTxFrame(s: State, id: nat, plan: Plan, k: nat, phase: Phase, a: Action)
    requires PcOf(s, id) == Applying(plan, k, phase) && k < |plan.pending| && ApplyStep(s, id, plan, k, phase, a).Some?
    requires EndsTx(a)
    ensures Framed(s, id, ApplyStep(s, id, plan, k, phase, a).value)
  {
    hide HasVersion, Publish, Write, Fail;
  }

  lemma ReadFrame(s: State, id: nat, plan: Plan, k: nat, phase: Phase, a: Action)
    requires PcOf(s, id) == Applying(plan, k, phase) && k < |plan.pending| && ApplyStep(s, id, plan, k, phase, a).Some?
    requires !Writes(a) && !EndsTx(a)
    ensures Framed(s, id, ApplyStep(s, id, plan, k, phase, a).value)
  {
    hide HasVersion, Write, Fail, EndTx;
  }

  lemma ApplyFrame(s: State, id: nat, plan: Plan, k: nat, phase: Phase, a: Action)
    requires PcOf(s, id) == Applying(plan, k, phase) && k < |plan.pending| && ApplyStep(s, id, plan, k, phase, a).Some?
    ensures Framed(s, id, ApplyStep(s, id, plan, k, phase, a).value)
  {
    hide Framed, ApplyStep;
    if Writes(a) {
      WriteFrame(s, id, plan, k, phase, a);
    } else if EndsTx(a) {
      EndTxFrame(s, id, plan, k, phase, a);
    } else {
      ReadFrame(s, id, plan, k, phase, a);
    }
  }

  lemma SetupFrame(s: State, id: nat, a: Action)
    requires SetupStep(s, id, a).Some?
    ensures Framed(s, id, SetupStep(s, id, a).value)
  {
    hide Discover, IsListing, OrderedRows;
  }

  lemma CheckFrame(s: State, id: nat, a: Action)
    requires CheckStep(s, id, a).Some?
    ensures Framed(s, id, CheckStep(s, id, a).value)
  {
    hide RowCheck, Pending, FirstBelow;
  }

  lemma ExitFrame(s: State, id: nat, a: Action)
    requires ExitStep(s, id, a).Some?
    ensures Framed(s, id, ExitStep(s, id, a).value)
  {
    hide EndTx;
    if a.Close? {
      CloseFrame(s, id);
      hide ExitStep, Framed;
    } else {
      hide Versions;
    }
  }

  lemma CloseFrame(s: State, id: nat)
    requires PcOf(s, id).Closing? && ExitStep(s, id, Close).Some?
    ensures Framed(s, id, ExitStep(s, id, Close).value)
  {
    hide Publish, Versions;
  }

  lemma LostFrame(s: State, id: nat, committed: bool)
    requires LostStep(s, id, committed).Some?
    ensures Framed(s, id, LostStep(s, id, committed).value)
  {
    hide Publish;
  }

  /** The frame of a step by one runner. */
  lemma StepFrame(s: State, id: nat, a: Action, t: State)
    requires Next(s, Act(id, a)) == Some(t)
    ensures Framed(s, id, t)
  {
    hide Framed, PcOf, SetupStep, CheckStep, ApplyStep, ExitStep, LostStep;
    var pc := PcOf(s, id);
    if a.LoseConnection? {
      LostFrame(s, id, a.committed);
    } else if pc.Checking? {
      CheckFrame(s, id, a);
    } else if pc.Applying? && pc.k < |pc.plan.pending| {
      ApplyFrame(s, id, pc.plan, pc.k, pc.phase, a);
    } else if pc.Applying? || pc.Leaving? || pc.Closing? {
      ExitFrame(s, id, a);
    } else {
      SetupFrame(s, id, a);
    }
  }

  lemma PublishOne(db: Db, file: MigrationFile, sum: Digest, sql: string, id: nat, reading: Reading)
    ensures Publish(db, [Row(file.version, file.slug, sum)], [Effect(file.version, sql)], id, reading)
            == Append(db, file, sum, sql, id, reading)
  {
    assert seq(1, _ => id) == [id] && seq(1, _ => reading) == [reading];
  }

  /** The statements of one file, in their order, leave the database as it is until the COMMIT, which publishes the row
      and the effect together. */
  lemma ApplySession(s: State, id: nat, plan: Plan, k: nat, phase: Phase, a: Action)
    requires PcOf(s, id) == Applying(plan, k, phase) && k < |plan.pending| && SessionOk(PcOf(s, id), SessionOf(s, id))
    requires ApplyStep(s, id, plan, k, phase, a).Some?
    ensures var t := ApplyStep(s, id, plan, k, phase, a).value;
            && SessionOk(PcOf(t, id), SessionOf(t, id))
            && t.db == if phase.Inserted? && a == Commit(true)
                       then Append(s.db, plan.pending[k], phase.sum, phase.sql, id, ReadingOf(s, id)) else s.db
  {
    if phase.Inserted? { PublishOne(s.db, plan.pending[k], phase.sum, phase.sql, id, ReadingOf(s, id)); }
    hide Publish, Append, HasVersion;
  }

  lemma LostSession(s: State, id: nat, committed: bool)
    requires SessionOk(PcOf(s, id), SessionOf(s, id)) && LostStep(s, id, committed).Some?
    ensures var t := LostStep(s, id, committed).value;
            && SessionOk(PcOf(t, id), SessionOf(t, id)) && PcOf(t, id) == Ended(ConnectionLost)
            && (t.db == s.db || Commits(s, id, t.db))
  {
    var pc := PcOf(s, id);
    if pc.Applying? && pc.phase.Inserted? && pc.k < |pc.plan.pending| {
      PublishOne(s.db, pc.plan.pending[pc.k], pc.phase.sum, pc.phase.sql, id, ReadingOf(s, id));
    }
    hide Publish, Append;
  }

  lemma SetupKeeps(s: State, id: nat, a: Action)
    requires DbOk(s.db) && PcOk(PcOf(s, id), id, s.db) && SetupStep(s, id, a).Some?
    ensures PcOk(PcOf(SetupStep(s, id, a).value, id), id, s.db)
  {
    hide Discover, IsListing;
    match a
    case ReadDirectory(listing) => DiscoverMeaning(listing, s.disk.entries);
    case ReadRows(rows) => if OrderedRows(rows, s.db.rows) { RowsUnique(rows, s.db.rows); }
    case _ =>
  }

  lemma RowsTail(rows: seq<Row>)
    requires RowsIncreasing(rows) && rows != []
    ensures RowsIncreasing(rows[1..]) && forall r :: r in rows <==> r == rows[0] || r in rows[1..]
    ensures forall r :: r in rows[1..] ==> r.version > rows[0].version
  {
    assert rows == [rows[0]] + rows[1..];
    forall r | r in rows[1..] ensures r.version > rows[0].version {
      var i :| 0 <= i < |rows[1..]| && rows[1..][i] == r;
      assert rows[i + 1] == r;
    }
  }

  lemma FirstRowIsIn(rows: seq<Row>)
    ensures rows != [] ==> rows[0] in rows
  {
  }

  lemma {:induction false} RowsUnique(xs: seq<Row>, ys: seq<Row>)
    requires RowsIncreasing(xs) && RowsIncreasing(ys) && forall r :: r in xs <==> r in ys
    ensures xs == ys
  {
    FirstRowIsIn(xs);
    FirstRowIsIn(ys);
    if xs == [] {
    } else {
      RowsTail(xs);
      RowsTail(ys);
      RowsUnique(xs[1..], ys[1..]);
    }
  }

  lemma {:induction false} PendingMeaning(files: seq<MigrationFile>, rows: seq<Row>)
    requires Increasing(files)
    ensures Increasing(Pending(files, rows))
    ensures forall f :: f in Pending(files, rows) <==> f in files && !HasVersion(rows, f.version)
  {
    if files == [] {
    } else {
      TailIsLarger(files);
      PendingMeaning(files[1..], rows);
      if !HasVersion(rows, files[0].version) { ConsIncreasing(files[0], Pending(files[1..], rows)); }
    }
  }

  // ---------------------------------------------------------------- what the checks let through

  /** A listed file of the row's version is readable, and its bytes are those the checksum was taken of. */
  ghost predicate Matched(disk: Disk, files: seq<MigrationFile>, r: Row) {
    exists f :: f in files && f.version == r.version && IsAsRecorded(disk, f, r)
  }

  predicate IsAsRecorded(disk: Disk, f: MigrationFile, r: Row) {
    f.fileName in disk.content && r.checksum == Digest(disk.content[f.fileName])
  }

  /** A listed file of that version cannot be read. */
  ghost predicate Unreadable(disk: Disk, files: seq<MigrationFile>, v: nat) {
    exists f :: f in files && f.version == v && f.fileName !in disk.content
  }

  /** The check of a row passes exactly when the row is matched, and otherwise says why not. */
  lemma CheckRowMeaning(s: State, id: nat, files: seq<MigrationFile>, snapshot: seq<Row>, k: nat, maxApplied: nat)
    requires PcOf(s, id) == Checking(files, snapshot, k, maxApplied) && k < |snapshot| && Increasing(files)
    ensures var r := snapshot[k];
            Next(s, Act(id, CheckRow))
            == Some(Move(s, id,
                         if Matched(s.disk, files, r) then
                           Checking(files, snapshot, k + 1, if maxApplied > r.version then maxApplied else r.version)
                         else if Unreadable(s.disk, files, r.version) then Leaving(Failed(ReadFailed))
                         else Leaving(Failed(ChecksumMismatch(r.version)))))
  {
    var r := snapshot[k];
    RowCheckMeaning(s.disk, files, r);
    hide RowCheck, Matched, Unreadable, Increasing;
  }

  lemma RowCheckMeaning(disk: Disk, files: seq<MigrationFile>, r: Row)
    requires Increasing(files)
    ensures RowCheck(disk, files, r)
            == if Matched(disk, files, r) then None
               else if Unreadable(disk, files, r.version) then Some(ReadFailed)
               else Some(ChecksumMismatch(r.version))
  {
    var found := FindVersion(files, r.version);
    if found.Some? {
      assert forall f :: f in files && f.version == r.version ==> f == found.value;
    }
  }

  /** A listed file without a row. */
  ghost predicate Missing(files: seq<MigrationFile>, rows: seq<Row>, f: MigrationFile) {
    f in files && forall r :: r in rows ==> r.version != f.version
  }

  /** A row with a version above that of a listed file without a row. */
  ghost predicate Overtaken(files: seq<MigrationFile>, rows: seq<Row>) {
    exists f, r :: Missing(files, rows, f) && r in rows && f.version < r.version
  }

  /** The order check passes exactly when no file without a row is overtaken; it then plans all files without one, and
      otherwise names the first of them. */
  lemma CheckOrderMeaning(s: State, id: nat, files: seq<MigrationFile>, rows: seq<Row>, maxApplied: nat)
    requires PcOf(s, id) == Checking(files, rows, |rows|, maxApplied) && PcOk(PcOf(s, id), id, s.db) && DbOk(s.db)
    ensures var u := Next(s, Act(id, CheckOrder));
            && u.Some? && u.value == Move(s, id, PcOf(u.value, id))
            && if Overtaken(files, rows) then
                 exists f ::
                   && Missing(files, rows, f) && (forall g :: Missing(files, rows, g) ==> f.version <= g.version)
                   && PcOf(u.value, id) == Leaving(Failed(OutOfOrder(f.version)))
               else
                 exists pending ::
                   && Increasing(pending) && (forall f :: f in pending <==> Missing(files, rows, f))
                   && PcOf(u.value, id) == Applying(Plan(files, rows, pending), 0, Between)
  {
    hide Pending, FirstBelow, Missing, PcOk, DbOk;
    assert Increasing(files) && RowsIncreasing(rows) && maxApplied == Highest(rows, |rows|) by { CheckingOk(s, id); }
    OrderMeaning(files, rows);
    hide Overtaken, Increasing, Highest, RowsIncreasing;
  }

  lemma CheckingOk(s: State, id: nat)
    requires PcOf(s, id).Checking? && PcOk(PcOf(s, id), id, s.db) && DbOk(s.db)
    ensures var Checking(files, rows, k, maxApplied) := PcOf(s, id);
            Increasing(files) && RowsIncreasing(rows) && k <= |rows| && maxApplied == Highest(rows, k)
  {
    hide FindVersion, Increasing, RowsIncreasing;
  }

  lemma OrderMeaning(files: seq<MigrationFile>, rows: seq<Row>)
    requires Increasing(files) && RowsIncreasing(rows)
    ensures var pending := Pending(files, rows);
            var first := FirstBelow(pending, Highest(rows, |rows|));
            && Increasing(pending) && (forall f :: f in pending <==> Missing(files, rows, f))
            && (first.Some? <==> Overtaken(files, rows))
            && (first.Some? ==>
                  Missing(files, rows, first.value)
                  && forall g :: Missing(files, rows, g) ==> first.value.version <= g.version)
  {
    var pending, limit := Pending(files, rows), Highest(rows, |rows|);
    PendingMeaning(files, rows);
    assert forall f :: f in pending <==> Missing(files, rows, f);
    HighestIsHighest(rows);
    FirstBelowIsFirst(pending, limit);
    hide Pending, Missing, HasVersion, Highest, RowsIncreasing, Increasing;
    var first := FirstBelow(pending, limit);
    if first.Some? {
      assert Missing(files, rows, first.value);
      assert rows != [] && rows[|rows| - 1] in rows;
    }
    hide FirstBelow;
  }

  lemma HighestIsHighest(rows: seq<Row>)
    requires RowsIncreasing(rows)
    ensures forall r :: r in rows ==> r.version <= Highest(rows, |rows|)
    ensures rows != [] ==> Highest(rows, |rows|) == rows[|rows| - 1].version
    ensures rows == [] ==> Highest(rows, |rows|) == 0
  {
  }

  lemma {:induction false} FirstBelowIsFirst(files: seq<MigrationFile>, limit: nat)
    requires Increasing(files)
    ensures var r := FirstBelow(files, limit);
            r.Some? ==>
              && r.value in files && r.value.version < limit
              && forall g :: g in files ==> r.value.version <= g.version
  {
    if files == [] {
    } else {
      TailIsLarger(files);
    }
  }

  lemma CheckKeeps(s: State, id: nat, a: Action)
    requires DbOk(s.db) && PcOk(PcOf(s, id), id, s.db) && CheckStep(s, id, a).Some?
    ensures PcOk(PcOf(CheckStep(s, id, a).value, id), id, s.db)
  {
    var pc := PcOf(s, id);
    if a.CheckRow? {
      RowKeeps(s, id);
    } else if a.CheckOrder? && FirstBelow(Pending(pc.files, pc.snapshot), pc.maxApplied).None? {
      HighestIsHighest(pc.snapshot);
      PlanStarts(pc.files, pc.snapshot, pc.maxApplied, id, s.db);
    }
    hide FindVersion, Pending, FirstBelow, PlanOk, Increasing, HasVersion, Highest, RowCheck;
  }

  lemma RowKeeps(s: State, id: nat)
    requires DbOk(s.db) && PcOk(PcOf(s, id), id, s.db) && CheckStep(s, id, CheckRow).Some?
    ensures PcOk(PcOf(CheckStep(s, id, CheckRow).value, id), id, s.db)
  {
    var pc := PcOf(s, id);
    VersionsGrow(pc.snapshot, pc.k);
    hide FindVersion, PlanOk, Increasing, RowsIncreasing;
  }

  /** Past the order check every pending file is newer than every applied row. */
  lemma PlanStarts(files: seq<MigrationFile>, rows: seq<Row>, maxApplied: nat, id: nat, db: Db)
    requires DbOk(db) && db.rows == rows && Increasing(files)
    requires forall r :: r in rows ==> r.version <= maxApplied && FindVersion(files, r.version).Some?
    requires forall f :: f in Pending(files, rows) ==> f.version >= maxApplied
    ensures PlanOk(Plan(files, rows, Pending(files, rows)), 0, id, db)
  {
    PendingMeaning(files, rows);
    hide FindVersion, Pending;
  }

  /** Every committed version is below that of the file being applied. */
  lemma RowsBelow(plan: Plan, k: nat, id: nat, db: Db, i: nat)
    requires PlanOk(plan, k, id, db) && k < |plan.pending| && i < |db.rows|
    ensures db.rows[i].version < plan.pending[k].version
  {
    hide FindVersion, HasVersion;
    var n := |plan.snapshot|;
    if i < n {
      assert db.rows[i] == db.rows[..n][i] == plan.snapshot[i];
      assert plan.snapshot[i] in plan.snapshot && plan.pending[k] in plan.pending;
    } else {
      assert db.rows[n + (i - n)].version == plan.pending[i - n].version;
    }
  }

  lemma AppendOk(db: Db, file: MigrationFile, sum: Digest, sql: string, id: nat, reading: Reading)
    requires DbOk(db) && forall i :: 0 <= i < |db.rows| ==> db.rows[i].version < file.version
    ensures DbOk(Append(db, file, sum, sql, id, reading))
  {
  }

  lemma AppendPlan(plan: Plan, k: nat, id: nat, db: Db, sum: Digest, sql: string, reading: Reading)
    requires PlanOk(plan, k, id, db) && k < |plan.pending|
    ensures PlanOk(plan, k + 1, id, Append(db, plan.pending[k], sum, sql, id, reading))
  {
    hide FindVersion, HasVersion, Increasing, RowsIncreasing;
    var n := |plan.snapshot|;
    var rows := db.rows + [Row(plan.pending[k].version, plan.pending[k].slug, sum)];
    assert rows[..n] == db.rows[..n];
    assert forall j :: n <= j < n + k ==> rows[j] == db.rows[j];
  }

  /** A commit goes on top: its version is above every committed one. */
  lemma CommitKeeps(plan: Plan, k: nat, id: nat, db: Db, sum: Digest, sql: string, reading: Reading)
    requires DbOk(db) && PlanOk(plan, k, id, db) && k < |plan.pending|
    ensures var db' := Append(db, plan.pending[k], sum, sql, id, reading);
            DbOk(db') && PlanOk(plan, k + 1, id, db')
  {
    hide DbOk, PlanOk;
    forall i | 0 <= i < |db.rows| ensures db.rows[i].version < plan.pending[k].version {
      RowsBelow(plan, k, id, db, i);
    }
    AppendOk(db, plan.pending[k], sum, sql, id, reading);
    AppendPlan(plan, k, id, db, sum, sql, reading);
  }

  lemma CommitStepKeeps(s: State, id: nat, plan: Plan, k: nat, phase: Phase)
    requires PcOf(s, id) == Applying(plan, k, phase) && k < |plan.pending| && ActorOk(s, id) && phase.Inserted?
    ensures var u := ApplyStep(s, id, plan, k, phase, Commit(true)); u.Some? && Kept(s, id, u.value)
  {
    assert PlanOk(plan, k, id, s.db);
    assert ApplyStep(s, id, plan, k, phase, Commit(true)).Some?;
    ApplySession(s, id, plan, k, phase, Commit(true));
    hide PlanOk, DbOk, HasVersion, Append, SessionOk, Write, Fail, EndTx;
    CommitKeeps(plan, k, id, s.db, phase.sum, phase.sql, ReadingOf(s, id));
  }

  lemma ApplyKeeps(s: State, id: nat, plan: Plan, k: nat, phase: Phase, a: Action)
    requires PcOf(s, id) == Applying(plan, k, phase) && k < |plan.pending| && ActorOk(s, id)
    requires ApplyStep(s, id, plan, k, phase, a).Some?
    ensures Kept(s, id, ApplyStep(s, id, plan, k, phase, a).value)
  {
    if phase.Inserted? && a == Commit(true) {
      CommitStepKeeps(s, id, plan, k, phase);
      hide ApplyStep, Kept, ActorOk;
    } else {
      assert PlanOk(plan, k, id, s.db);
      ApplySession(s, id, plan, k, phase, a);
      hide PlanOk, DbOk, HasVersion, Append, SessionOk, Write, Fail, EndTx, Commits;
    }
  }

  /** What the invariant says of one runner and the database. */
  ghost predicate ActorOk(s: State, id: nat) {
    DbOk(s.db) && PcOk(PcOf(s, id), id, s.db) && SessionOk(PcOf(s, id), SessionOf(s, id))
  }

  ghost predicate Kept(s: State, id: nat, t: State) { ActorOk(t, id) && (t.db == s.db || Commits(s, id, t.db)) }

  lemma ExitKeeps(s: State, id: nat, a: Action)
    requires ActorOk(s, id) && ExitStep(s, id, a).Some?
    ensures Kept(s, id, ExitStep(s, id, a).value) && ExitStep(s, id, a).value.db == s.db
  {
    hide PlanOk, DbOk, Versions, Publish;
  }

  lemma LostKeeps(s: State, id: nat, committed: bool)
    requires ActorOk(s, id) && LostStep(s, id, committed).Some?
    ensures Kept(s, id, LostStep(s, id, committed).value)
  {
    var pc := PcOf(s, id);
    LostSession(s, id, committed);
    hide LostStep, SessionOk;
    if pc.Applying? && pc.phase.Inserted? && pc.k < |pc.plan.pending| {
      CommitKeeps(pc.plan, pc.k, id, s.db, pc.phase.sum, pc.phase.sql, ReadingOf(s, id));
    }
    hide PlanOk, DbOk, Append;
  }

  lemma CheckSession(s: State, id: nat, a: Action)
    requires CheckStep(s, id, a).Some? && SessionOk(PcOf(s, id), SessionOf(s, id))
    ensures var t := CheckStep(s, id, a).value;
            t.db == s.db && SessionOk(PcOf(t, id), SessionOf(t, id)) && ReadingOf(t, id) == ReadingOf(s, id)
  {
    hide RowCheck, Pending, FirstBelow;
  }

  lemma SetupSession(s: State, id: nat, a: Action)
    requires SetupStep(s, id, a).Some? && SessionOk(PcOf(s, id), SessionOf(s, id))
    ensures var t := SetupStep(s, id, a).value;
            t.db == s.db && SessionOk(PcOf(t, id), SessionOf(t, id)) && ReadingOf(t, id) == ReadingOf(s, id)
  {
    hide Discover, IsListing, OrderedRows;
  }

  lemma ActorKeeps(s: State, id: nat, a: Action)
    requires ActorOk(s, id) && Next(s, Act(id, a)).Some?
    ensures Kept(s, id, Next(s, Act(id, a)).value)
  {
    hide DbOk, PcOk, PcOf, SessionOf, SessionOk, SetupStep, CheckStep, ApplyStep, ExitStep, LostStep, Commits;
    var pc := PcOf(s, id);
    if a.LoseConnection? {
      LostKeeps(s, id, a.committed);
    } else if pc.Checking? {
      CheckKeeps(s, id, a);
      CheckSession(s, id, a);
    } else if pc.Applying? && pc.k < |pc.plan.pending| {
      ApplyKeeps(s, id, pc.plan, pc.k, pc.phase, a);
    } else if pc.Applying? || pc.Leaving? || pc.Closing? {
      ExitKeeps(s, id, a);
    } else {
      SetupKeeps(s, id, a);
      SetupSession(s, id, a);
    }
  }

  /** A runner outside the lock does not depend on the rows, only on having written none of its own. */
  lemma OthersKeep(pc: Pc, id: nat, db: Db, db': Db)
    requires PcOk(pc, id, db) && (db' == db || (!pc.Critical() && (id in db'.authors ==> id in db.authors)))
    ensures PcOk(pc, id, db')
  {
    hide PlanOk;
  }

  lemma StepKeepsInv(s: State, e: Event)
    requires Inv(s) && Next(s, e).Some?
    ensures Inv(Next(s, e).value)
    ensures Next(s, e).value.db == s.db || (e.Act? && Commits(s, e.id, Next(s, e).value.db))
  {
    var t := Next(s, e).value;
    match e
    case ChangeDisk(disk) =>
      hide PcOk, DbOk, SessionOk;
      assert forall id: nat :: PcOf(t, id) == PcOf(s, id) && SessionOf(t, id) == SessionOf(s, id);
    case Act(id, a) =>
      StepFrame(s, id, a, t);
      ActorKeeps(s, id, a);
      hide Next, Framed, Kept, ActorOk, Inv, Commits;
      FrameKeepsInv(s, id, t);
  }

  lemma FrameKeepsInv(s: State, id: nat, t: State)
    requires Inv(s) && Framed(s, id, t) && Kept(s, id, t)
    ensures Inv(t) && (t.db == s.db || Commits(s, id, t.db))
  {
    OwnAuthor(s, id, t.db);
    hide PcOf, SessionOf, ReadingOf, PcOk, DbOk, SessionOk, Commits;
    forall other: nat | other != id
      ensures PcOk(PcOf(t, other), other, t.db) && SessionOk(PcOf(t, other), SessionOf(t, other))
    {
      assert SameRunner(s, t, other);
      OthersKeep(PcOf(s, other), other, s.db, t.db);
    }
    forall other: nat | PcOf(t, other).Critical() ensures t.lock == Some(other) {
      assert other != id ==> SameRunner(s, t, other);
    }
  }

  /** A commit adds the committing runner to the authors, and nobody else. */
  lemma OwnAuthor(s: State, id: nat, db: Db)
    requires db == s.db || Commits(s, id, db)
    ensures forall other: nat :: other != id ==> (other in db.authors ==> other in s.db.authors)
    ensures db != s.db ==> PcOf(s, id).Critical()
  {
  }

  lemma InitInv(disk: Disk)
    ensures Inv(Init(disk))
  {
  }

  /** Every reachable state, whatever the runners do, fail or lose, and however the directory changes. */
  lemma {:induction false} ReachableInv(disk: Disk, events: seq<Event>)
    requires Run(Init(disk), events).Some?
    ensures Inv(Run(Init(disk), events).value)
  {
    if events == [] {
      InitInv(disk);
    } else {
      ReachableInv(disk, events[..|events| - 1]);
      StepKeepsInv(Run(Init(disk), events[..|events| - 1]).value, events[|events| - 1]);
    }
  }

  // ---------------------------------------------------------------- safety

  /** Rows and effects only ever grow, by one commit of the lock holder, at a version above all others. */
  lemma OnlyTheLockHolderCommits(s: State, e: Event)
    requires Inv(s) && Next(s, e).Some? && Next(s, e).value.db != s.db
    ensures e.Act? && s.lock == Some(e.id)
    ensures var t := Next(s, e).value;
            exists row, sql ::
              && t.db.rows == s.db.rows + [row] && t.db.effects == s.db.effects + [Effect(row.version, sql)]
              && forall r :: r in s.db.rows ==> r.version < row.version
  {
    var t := Next(s, e).value;
    StepKeepsInv(s, e);
    hide Next, PcOk;
    var pc := PcOf(s, e.id);
    var file := pc.plan.pending[pc.k];
    assert t.db.rows == s.db.rows + [Row(file.version, file.slug, pc.phase.sum)];
    assert t.db.effects == s.db.effects + [Effect(file.version, pc.phase.sql)];
    forall r | r in s.db.rows ensures r.version < file.version {
      var i :| 0 <= i < |s.db.rows| && s.db.rows[i] == r;
      assert t.db.rows[i] == r && t.db.rows[|s.db.rows|].version == file.version;
    }
  }

  /** While a run applies, no file of its directory listing is skipped over: whatever is not above the newest row has
      its row. */
  lemma DownwardClosed(s: State, id: nat, f: MigrationFile, r: Row)
    requires Inv(s) && PcOf(s, id).Applying?
    requires f in PcOf(s, id).plan.files && r in s.db.rows && f.version <= r.version
    ensures HasVersion(s.db.rows, f.version)
  {
    var Applying(plan, k, phase) := PcOf(s, id);
    assert PlanOk(plan, k, id, s.db);
    PlanDownwardClosed(plan, k, id, s.db, f, r);
  }

  lemma SnapshotRows(plan: Plan, k: nat, id: nat, db: Db)
    requires PlanOk(plan, k, id, db)
    ensures |plan.snapshot| <= |db.rows|
    ensures forall i :: 0 <= i < |plan.snapshot| ==> db.rows[i] == plan.snapshot[i] && db.rows[i] in plan.snapshot
  {
    hide FindVersion, HasVersion;
    assert forall i :: 0 <= i < |plan.snapshot| ==> db.rows[..|plan.snapshot|][i] == db.rows[i];
  }

  /** A row at or above a pending file's version: that file has been applied. */
  lemma NewRow(plan: Plan, k: nat, id: nat, db: Db, i: nat, j: nat)
    requires PlanOk(plan, k, id, db) && |plan.snapshot| <= i < |db.rows| && j < |plan.pending|
    requires plan.pending[j].version <= db.rows[i].version
    ensures |plan.snapshot| + j < |db.rows| && db.rows[|plan.snapshot| + j].version == plan.pending[j].version
  {
    hide FindVersion, HasVersion;
    var m := i - |plan.snapshot|;
    assert db.rows[|plan.snapshot| + m].version == plan.pending[m].version;
    assert j <= m;
  }

  lemma PlanPending(plan: Plan, k: nat, id: nat, db: Db, f: MigrationFile)
    requires PlanOk(plan, k, id, db) && f in plan.files
    ensures f in plan.pending <==> !HasVersion(plan.snapshot, f.version)
    ensures f in plan.pending ==> forall q :: q in plan.snapshot ==> q.version < f.version
  {
    hide FindVersion;
  }

  lemma PlanDownwardClosed(plan: Plan, k: nat, id: nat, db: Db, f: MigrationFile, r: Row)
    requires PlanOk(plan, k, id, db) && f in plan.files && r in db.rows && f.version <= r.version
    ensures HasVersion(db.rows, f.version)
  {
    hide FindVersion, PlanOk;
    SnapshotRows(plan, k, id, db);
    PlanPending(plan, k, id, db, f);
    var n := |plan.snapshot|;
    var i :| 0 <= i < |db.rows| && db.rows[i] == r;
    if HasVersion(plan.snapshot, f.version) {
      var q :| 0 <= q < n && plan.snapshot[q].version == f.version;
      assert db.rows[q] in db.rows;
    } else {
      var j :| 0 <= j < |plan.pending| && plan.pending[j] == f;
      hide HasVersion;
      NewRow(plan, k, id, db, i, j);
      assert db.rows[n + j] in db.rows;
    }
  }

  /** A run that fails a check has committed nothing. */
  lemma FailedChecksCommitNothing(disk: Disk, events: seq<Event>, id: nat)
    requires Run(Init(disk), events).Some?
    ensures var s := Run(Init(disk), events).value;
            var pc := PcOf(s, id);
            (pc.Leaving? || pc.Closing? || pc.Ended?) && pc.outcome.Failed? && CheckError(pc.outcome.error)
            ==> id !in s.db.authors
  {
    ReachableInv(disk, events);
    var s := Run(Init(disk), events).value;
    assert PcOk(PcOf(s, id), id, s.db);
  }

  // ---------------------------------------------------------------- counting

  lemma {:induction false} VersionsCount(rows: seq<Row>)
    requires RowsIncreasing(rows)
    ensures |Versions(rows)| == |rows|
  {
    if rows == [] {
    } else {
      RowsTail(rows);
      VersionsCount(rows[1..]);
      hide RowsIncreasing;
      assert rows[0].version !in Versions(rows[1..]);
      assert Versions(rows) == Versions(rows[1..]) + {rows[0].version};
    }
  }

  ghost function FileVersions(files: seq<MigrationFile>): set<nat> { set f | f in files :: f.version }

  lemma {:induction false} FileVersionsCount(files: seq<MigrationFile>)
    requires Increasing(files)
    ensures |FileVersions(files)| == |files|
  {
    if files == [] {
    } else {
      TailIsLarger(files);
      FileVersionsCount(files[1..]);
      hide Increasing;
      assert files[0].version !in FileVersions(files[1..]);
      assert FileVersions(files) == FileVersions(files[1..]) + {files[0].version};
    }
  }

  /** A successful run: applied plus skipped is the number of files of its listing. */
  lemma FinishCounts(s: State, id: nat)
    requires Inv(s) && PcOf(s, id).Applying? && Next(s, Act(id, Finish)).Some?
    ensures var outcome := PcOf(Next(s, Act(id, Finish)).value, id).outcome;
            outcome.Applied? && |outcome.files| + outcome.skipped == |PcOf(s, id).plan.files|
  {
    var Applying(plan, k, phase) := PcOf(s, id);
    assert PlanOk(plan, k, id, s.db);
    PlanCounts(plan, k, id, s.db);
    hide PlanOk, Versions;
  }

  lemma PlanCounts(plan: Plan, k: nat, id: nat, db: Db)
    requires PlanOk(plan, k, id, db)
    ensures |plan.pending| + |Versions(plan.snapshot)| == |plan.files|
  {
    FileVersionsCount(plan.files);
    FileVersionsCount(plan.pending);
    var new_, old_ := FileVersions(plan.pending), Versions(plan.snapshot);
    assert new_ !! old_;
    forall v ensures v in FileVersions(plan.files) <==> v in new_ + old_ {
      if v in FileVersions(plan.files) {
        var f :| f in plan.files && f.version == v;
        assert f in plan.pending || HasVersion(plan.snapshot, v);
      }
      if v in old_ {
        var r :| r in plan.snapshot && r.version == v;
        assert FindVersion(plan.files, r.version).value in plan.files;
      }
    }
    assert FileVersions(plan.files) == new_ + old_;
  }

  // ---------------------------------------------------------------- a directory that stays as it is

  function ContentOf(disk: Disk, f: MigrationFile): string {
    if f.fileName in disk.content then disk.content[f.fileName] else ""
  }

  function RowOf(disk: Disk, f: MigrationFile): Row { Row(f.version, f.slug, Digest(ContentOf(disk, f))) }

  function RowsOf(disk: Disk, fs: seq<MigrationFile>): (rows: seq<Row>)
    ensures |rows| == |fs|
  {
    seq(|fs|, i requires 0 <= i < |fs| => RowOf(disk, fs[i]))
  }

  function EffectsOf(disk: Disk, fs: seq<MigrationFile>): (es: seq<Effect>)
    ensures |es| == |fs|
  {
    seq(|fs|, i requires 0 <= i < |fs| => Effect(fs[i].version, ContentOf(disk, fs[i])))
  }

  /** files is the directory's list of migrations, by version. */
  ghost predicate Lists(disk: Disk, files: seq<MigrationFile>) {
    Usable(disk.entries) && Increasing(files) && forall f :: f in files <==> Holds(disk.entries, f)
  }

  lemma DiscoverLists(disk: Disk, files: seq<MigrationFile>, listing: seq<DirEntry>)
    requires Lists(disk, files) && IsListing(listing, disk.entries)
    ensures Discover(listing) == Success(files)
  {
    DiscoverMeaning(listing, disk.entries);
    hide Discover, IsListing;
    IncreasingUnique(Discover(listing).value, files);
  }

  /** The log is the first so many files, in version order, with their bytes. */
  ghost predicate LogIsPrefix(db: Db, disk: Disk, files: seq<MigrationFile>) {
    && |db.rows| <= |files|
    && db.rows == RowsOf(disk, files[..|db.rows|]) && db.effects == EffectsOf(disk, files[..|db.rows|])
  }

  predicate PhaseReads(phase: Phase, sum: Digest, sql: string) {
    match phase
    case Between => true
    case Undoing => true
    case Summed(x) => x == sum
    case Loaded(x, y) => x == sum && y == sql
    case Begun(x, y) => x == sum && y == sql
    case Ran(x, y) => x == sum && y == sql
    case Inserted(x, y) => x == sum && y == sql
  }

  ghost predicate OutcomeExact(outcome: Outcome, db: Db, files: seq<MigrationFile>) {
    outcome.Applied? ==> |db.rows| == |files| && outcome.skipped <= |files| && outcome.files == files[outcome.skipped..]
  }

  ghost predicate PcExact(pc: Pc, db: Db, disk: Disk, files: seq<MigrationFile>) {
    match pc
    case Listed(fs) => fs == files
    case Checking(fs, snapshot, k, maxApplied) => fs == files
    case Applying(plan, k, phase) =>
      && plan.files == files && |plan.snapshot| <= |files| && plan.pending == files[|plan.snapshot|..]
      && (k < |plan.pending| ==>
            PhaseReads(phase, Checksum(ContentOf(disk, plan.pending[k])), ContentOf(disk, plan.pending[k])))
    case Leaving(outcome) => OutcomeExact(outcome, db, files)
    case Closing(outcome) => OutcomeExact(outcome, db, files)
    case Ended(outcome) => OutcomeExact(outcome, db, files)
    case _ => true
  }

  ghost predicate Exact(s: State, disk: Disk, files: seq<MigrationFile>) {
    && Inv(s) && s.disk == disk && Lists(disk, files) && LogIsPrefix(s.db, disk, files)
    && forall id: nat :: PcExact(PcOf(s, id), s.db, disk, files)
  }

  /** The file at i has a row among the first n exactly when i < n. */
  lemma PrefixHasVersion(disk: Disk, files: seq<MigrationFile>, n: nat, i: nat)
    requires Increasing(files) && n <= |files| && i < |files|
    ensures HasVersion(RowsOf(disk, files[..n]), files[i].version) <==> i < n
  {
    var rows := RowsOf(disk, files[..n]);
    assert forall j :: 0 <= j < n ==> rows[j].version == files[j].version;
    if i < n { assert rows[i] in rows; }
  }

  lemma SuffixMember(files: seq<MigrationFile>, n: nat, i: nat)
    requires Increasing(files) && n <= |files| && i < |files|
    ensures files[i] in files[n..] <==> n <= i
  {
    assert forall j :: 0 <= j < |files| - n ==> files[n..][j] == files[n + j];
    if n <= i { assert files[n..][i - n] == files[i]; }
  }

  lemma PendingIsSuffix(disk: Disk, files: seq<MigrationFile>, n: nat)
    requires Increasing(files) && n <= |files|
    ensures Pending(files, RowsOf(disk, files[..n])) == files[n..]
  {
    var rows := RowsOf(disk, files[..n]);
    PendingMeaning(files, rows);
    hide RowsOf, Pending, HasVersion;
    forall f ensures f in files[n..] <==> f in files && !HasVersion(rows, f.version) {
      if f in files {
        var i :| 0 <= i < |files| && files[i] == f;
        PrefixHasVersion(disk, files, n, i);
        SuffixMember(files, n, i);
      }
    }
    IncreasingUnique(Pending(files, rows), files[n..]);
  }

  lemma SetupExact(s: State, id: nat, a: Action, disk: Disk, files: seq<MigrationFile>)
    requires s.disk == disk && Lists(disk, files) && PcExact(PcOf(s, id), s.db, disk, files)
             && SetupStep(s, id, a).Some?
    ensures PcExact(PcOf(SetupStep(s, id, a).value, id), s.db, disk, files)
  {
    if a.ReadDirectory? && IsListing(a.listing, disk.entries) { DiscoverLists(disk, files, a.listing); }
    hide Discover, IsListing, OrderedRows, Lists;
  }

  lemma CheckExact(s: State, id: nat, a: Action, disk: Disk, files: seq<MigrationFile>)
    requires PcOk(PcOf(s, id), id, s.db) && Lists(disk, files) && LogIsPrefix(s.db, disk, files)
    requires PcExact(PcOf(s, id), s.db, disk, files) && CheckStep(s, id, a).Some?
    ensures PcExact(PcOf(CheckStep(s, id, a).value, id), s.db, disk, files)
  {
    hide Lists, LogIsPrefix, RowCheck, FirstBelow, Pending, FindVersion, Increasing;
    var Checking(fs, snapshot, k, maxApplied) := PcOf(s, id);
    if a.CheckOrder? {
      OrderExact(s, id, disk, files);
    }
  }

  /** Past the order check the pending files are the rest of the directory. */
  lemma OrderExact(s: State, id: nat, disk: Disk, files: seq<MigrationFile>)
    requires PcOk(PcOf(s, id), id, s.db) && Lists(disk, files) && LogIsPrefix(s.db, disk, files)
    requires PcOf(s, id).Checking? && PcExact(PcOf(s, id), s.db, disk, files) && CheckStep(s, id, CheckOrder).Some?
    ensures PcExact(PcOf(CheckStep(s, id, CheckOrder).value, id), s.db, disk, files)
  {
    var n := |s.db.rows|;
    var Checking(fs, snapshot, k, maxApplied) := PcOf(s, id);
    assert fs == files && snapshot == s.db.rows;
    assert PcOf(s, id) == Checking(files, s.db.rows, k, maxApplied);
    PendingIsRest(s.db, disk, files);
    hide PcOk, Lists, LogIsPrefix, FirstBelow, Pending, FindVersion, RowCheck;
  }

  lemma PendingIsRest(db: Db, disk: Disk, files: seq<MigrationFile>)
    requires Lists(disk, files) && LogIsPrefix(db, disk, files)
    ensures |db.rows| <= |files| && Pending(files, db.rows) == files[|db.rows|..]
  {
    hide RowsOf, EffectsOf, Pending, Increasing;
    PendingIsSuffix(disk, files, |db.rows|);
  }

  /** The next commit is the next file of the directory, with the bytes it has. */
  lemma CommitExact(plan: Plan, k: nat, id: nat, db: Db, reading: Reading, disk: Disk, files: seq<MigrationFile>)
    requires PlanOk(plan, k, id, db) && LogIsPrefix(db, disk, files) && k < |plan.pending|
    requires |plan.snapshot| <= |files| && plan.pending == files[|plan.snapshot|..]
    ensures var f := plan.pending[k];
            LogIsPrefix(Append(db, f, Checksum(ContentOf(disk, f)), ContentOf(disk, f), id, reading), disk, files)
  {
    hide FindVersion, HasVersion, Increasing, RowsIncreasing;
    var n := |db.rows|;
    assert plan.pending[k] == files[n];
    assert files[..n + 1] == files[..n] + [files[n]];
    assert RowsOf(disk, files[..n + 1]) == RowsOf(disk, files[..n]) + [RowOf(disk, files[n])];
    var effect := Effect(files[n].version, ContentOf(disk, files[n]));
    assert EffectsOf(disk, files[..n + 1]) == EffectsOf(disk, files[..n]) + [effect];
  }

  /** What a step must leave true of one runner on a directory that stays as it is. */
  ghost predicate ActorIsExact(s: State, id: nat, disk: Disk, files: seq<MigrationFile>) {
    LogIsPrefix(s.db, disk, files) && PcExact(PcOf(s, id), s.db, disk, files)
  }

  lemma ApplyExact(s: State, id: nat, plan: Plan, k: nat, phase: Phase, a: Action, disk: Disk,
                   files: seq<MigrationFile>)
    requires PcOf(s, id) == Applying(plan, k, phase) && k < |plan.pending| && s.disk == disk
    requires ActorOk(s, id) && ActorIsExact(s, id, disk, files) && ApplyStep(s, id, plan, k, phase, a).Some?
    ensures ActorIsExact(ApplyStep(s, id, plan, k, phase, a).value, id, disk, files)
  {
    ApplySession(s, id, plan, k, phase, a);
    CommitExact(plan, k, id, s.db, ReadingOf(s, id), disk, files);
    hide PlanOk, DbOk, LogIsPrefix, HasVersion, Append, SessionOk, SessionOf, Write, Fail, EndTx;
  }

  /** A run that finishes has everything in the log, and what it says it skipped was there before. */
  lemma FinishExact(s: State, id: nat, disk: Disk, files: seq<MigrationFile>)
    requires PcOf(s, id).Applying? && PcOk(PcOf(s, id), id, s.db) && ActorIsExact(s, id, disk, files)
    requires PcOf(s, id).k == |PcOf(s, id).plan.pending|
    ensures var plan := PcOf(s, id).plan;
            OutcomeExact(Applied(plan.pending, |Versions(plan.snapshot)|), s.db, files)
  {
    VersionsCount(PcOf(s, id).plan.snapshot);
    hide Versions, RowsOf, EffectsOf, FindVersion, HasVersion, RowsIncreasing, Increasing, PhaseReads;
  }

  lemma ExitExact(s: State, id: nat, a: Action, disk: Disk, files: seq<MigrationFile>)
    requires ActorOk(s, id) && ActorIsExact(s, id, disk, files) && ExitStep(s, id, a).Some?
    ensures ActorIsExact(ExitStep(s, id, a).value, id, disk, files)
  {
    ExitKeeps(s, id, a);
    var pc := PcOf(s, id);
    if a.Finish? && pc.Applying? {
      assert pc.k == |pc.plan.pending| by { hide DbOk, SessionOk; }
      FinishExact(s, id, disk, files);
    }
    hide Versions, DbOk, SessionOk, EndTx, Commits, Kept, LogIsPrefix, PlanOk, PhaseReads, OutcomeOk, ActorOk;
    hide OutcomeExact;
    if !a.Finish? { OutcomeCarried(s, id, a, disk, files); }
  }

  /** Giving back the lock and closing carry the outcome on, or turn it into a failure. */
  lemma OutcomeCarried(s: State, id: nat, a: Action, disk: Disk, files: seq<MigrationFile>)
    requires ExitStep(s, id, a).Some? && !a.Finish? && PcExact(PcOf(s, id), s.db, disk, files)
    ensures PcExact(PcOf(ExitStep(s, id, a).value, id), s.db, disk, files)
  {
    hide EndTx, Versions, PhaseReads;
  }

  lemma LostExact(s: State, id: nat, committed: bool, disk: Disk, files: seq<MigrationFile>)
    requires ActorOk(s, id) && ActorIsExact(s, id, disk, files) && LostStep(s, id, committed).Some?
    ensures ActorIsExact(LostStep(s, id, committed).value, id, disk, files)
  {
    LostSession(s, id, committed);
    hide LostStep, SessionOk, DbOk;
    var pc := PcOf(s, id);
    if pc.Applying? && pc.k < |pc.plan.pending| {
      CommitExact(pc.plan, pc.k, id, s.db, ReadingOf(s, id), disk, files);
    }
    hide PlanOk, LogIsPrefix, Append;
  }

  lemma ActorExact(s: State, id: nat, a: Action, disk: Disk, files: seq<MigrationFile>)
    requires s.disk == disk && Lists(disk, files) && ActorOk(s, id) && ActorIsExact(s, id, disk, files)
    requires Next(s, Act(id, a)).Some?
    ensures ActorIsExact(Next(s, Act(id, a)).value, id, disk, files)
  {
    hide DbOk, PcOk, PcOf, PcExact, Lists, LogIsPrefix, SessionOk, SessionOf;
    hide SetupStep, CheckStep, ApplyStep, ExitStep, LostStep;
    var pc := PcOf(s, id);
    if a.LoseConnection? {
      LostExact(s, id, a.committed, disk, files);
    } else if pc.Checking? {
      CheckExact(s, id, a, disk, files);
      CheckSession(s, id, a);
    } else if pc.Applying? && pc.k < |pc.plan.pending| {
      ApplyExact(s, id, pc.plan, pc.k, pc.phase, a, disk, files);
    } else if pc.Applying? || pc.Leaving? || pc.Closing? {
      ExitExact(s, id, a, disk, files);
    } else {
      SetupExact(s, id, a, disk, files);
      SetupSession(s, id, a);
    }
  }

  /** Once a run has succeeded there is nothing left to commit. */
  lemma OthersExact(pc: Pc, db: Db, db': Db, disk: Disk, files: seq<MigrationFile>)
    requires PcExact(pc, db, disk, files) && |db.rows| <= |db'.rows| <= |files|
    ensures PcExact(pc, db', disk, files)
  {
  }

  lemma StepKeepsExact(s: State, id: nat, a: Action, disk: Disk, files: seq<MigrationFile>)
    requires Exact(s, disk, files) && Next(s, Act(id, a)).Some?
    ensures Exact(Next(s, Act(id, a)).value, disk, files)
  {
    var t := Next(s, Act(id, a)).value;
    StepFrame(s, id, a, t);
    StepKeepsInv(s, Act(id, a));
    assert ActorOk(s, id) && PcExact(PcOf(s, id), s.db, disk, files);
    ActorExact(s, id, a, disk, files);
    hide Next, PcOf, PcExact, Lists, Inv, RowsOf, EffectsOf;
    forall other: nat | other != id ensures PcExact(PcOf(t, other), t.db, disk, files) {
      assert SameRunner(s, t, other);
      OthersExact(PcOf(s, other), s.db, t.db, disk, files);
    }
  }

  ghost predicate NoDiskChange(events: seq<Event>) { forall e :: e in events ==> e.Act? }

  lemma {:induction false} RunKeepsExact(s: State, events: seq<Event>, disk: Disk, files: seq<MigrationFile>)
    requires Exact(s, disk, files) && NoDiskChange(events) && Run(s, events).Some?
    ensures Exact(Run(s, events).value, disk, files)
  {
    if events == [] {
    } else {
      var n := |events| - 1;
      assert events[n] in events && forall e :: e in events[..n] ==> e in events;
      RunKeepsExact(s, events[..n], disk, files);
      var mid := Run(s, events[..n]).value;
      StepKeepsExact(mid, events[n].id, events[n].action, disk, files);
    }
    hide Exact;
  }

  lemma InitExact(disk: Disk, files: seq<MigrationFile>)
    requires Lists(disk, files)
    ensures Exact(Init(disk), disk, files)
  {
    InitInv(disk);
    hide Inv, Lists;
  }

  predicate Succeeded(pc: Pc) { (pc.Leaving? || pc.Closing? || pc.Ended?) && pc.outcome.Applied? }

  /** Confluence: on a directory that stays as it is, after any failed, crashed and interleaved runs, a state in which
      some run has succeeded has every migration in the log, once, in version order, with its bytes. */
  lemma Confluence(disk: Disk, files: seq<MigrationFile>, events: seq<Event>, id: nat)
    requires Lists(disk, files) && NoDiskChange(events) && Run(Init(disk), events).Some?
    ensures var s := Run(Init(disk), events).value;
            && LogIsPrefix(s.db, disk, files)
            && (Succeeded(PcOf(s, id)) ==>
                  && s.db.rows == RowsOf(disk, files) && s.db.effects == EffectsOf(disk, files)
                  && PcOf(s, id).outcome.skipped <= |files|
                  && PcOf(s, id).outcome.files == files[PcOf(s, id).outcome.skipped..])
  {
    InitExact(disk, files);
    RunKeepsExact(Init(disk), events, disk, files);
    var s := Run(Init(disk), events).value;
    assert PcExact(PcOf(s, id), s.db, disk, files);
    assert files[..|files|] == files;
    hide Run, Inv, Lists, RowsOf, EffectsOf;
  }

  // ---------------------------------------------------------------- an applied file that was changed

  /** The directory has a file of the row's version, and its bytes are those the checksum was taken of. */
  ghost predicate RowMatches(r: Row, disk: Disk) {
    && (exists f :: Holds(disk.entries, f) && f.version == r.version)
    && forall f :: Holds(disk.entries, f) && f.version == r.version ==> IsAsRecorded(disk, f, r)
  }

  ghost predicate LogMatches(rows: seq<Row>, disk: Disk) { forall r :: r in rows ==> RowMatches(r, disk) }

  function SumOf(phase: Phase): Option<Digest> {
    if phase.Between? || phase.Undoing? then None else Some(phase.sum)
  }

  /** What a runner holds in memory is what the directory has now. */
  ghost predicate Fresh(pc: Pc, disk: Disk) {
    match pc
    case Listed(files) => Lists(disk, files)
    case Checking(files, snapshot, k, maxApplied) => Lists(disk, files)
    case Applying(plan, k, phase) =>
      && Lists(disk, plan.files)
      && (k < |plan.pending| && SumOf(phase).Some? ==>
            var f := plan.pending[k]; IsAsRecorded(disk, f, Row(f.version, f.slug, phase.sum)))
    case _ => true
  }

  /** What the checks of a runner have established of the rows. */
  ghost predicate Vouched(pc: Pc, rows: seq<Row>, disk: Disk) {
    match pc
    case Checking(files, snapshot, k, maxApplied) => k <= |snapshot| && LogMatches(snapshot[..k], disk)
    case Applying(plan, k, phase) => LogMatches(rows, disk)
    case _ => Succeeded(pc) ==> LogMatches(rows, disk)
  }

  lemma FreshSetup(s: State, id: nat, a: Action)
    requires Fresh(PcOf(s, id), s.disk) && SetupStep(s, id, a).Some?
    ensures Fresh(PcOf(SetupStep(s, id, a).value, id), s.disk)
  {
    if a.ReadDirectory? && IsListing(a.listing, s.disk.entries) { DiscoverMeaning(a.listing, s.disk.entries); }
    hide Discover, IsListing, OrderedRows, Holds, Usable, Increasing;
  }

  lemma FreshCheck(s: State, id: nat, a: Action)
    requires Fresh(PcOf(s, id), s.disk) && CheckStep(s, id, a).Some?
    ensures Fresh(PcOf(CheckStep(s, id, a).value, id), s.disk)
  {
    hide RowCheck, Lists, FirstBelow, Pending;
  }

  lemma FreshApply(s: State, id: nat, plan: Plan, k: nat, phase: Phase, a: Action)
    requires PcOf(s, id) == Applying(plan, k, phase) && k < |plan.pending|
    requires Fresh(PcOf(s, id), s.disk) && ApplyStep(s, id, plan, k, phase, a).Some?
    ensures Fresh(PcOf(ApplyStep(s, id, plan, k, phase, a).value, id), s.disk)
  {
    hide Lists, HasVersion, Write, Fail, EndTx, ReadingOf, SessionOf;
  }

  lemma FreshExit(s: State, id: nat, a: Action)
    requires ExitStep(s, id, a).Some?
    ensures Fresh(PcOf(ExitStep(s, id, a).value, id), s.disk)
  {
    hide Lists, EndTx, Versions, SessionOf;
  }

  lemma LostEnds(s: State, id: nat, committed: bool)
    requires LostStep(s, id, committed).Some?
    ensures PcOf(LostStep(s, id, committed).value, id) == Ended(ConnectionLost)
  {
    hide EndTx;
  }

  lemma FreshStep(s: State, id: nat, a: Action)
    requires Fresh(PcOf(s, id), s.disk) && Next(s, Act(id, a)).Some?
    ensures Fresh(PcOf(Next(s, Act(id, a)).value, id), s.disk)
  {
    hide SetupStep, CheckStep, ApplyStep, ExitStep, LostStep, PcOf;
    var pc := PcOf(s, id);
    if a.LoseConnection? {
      LostEnds(s, id, a.committed);
    } else if pc.Checking? {
      FreshCheck(s, id, a);
    } else if pc.Applying? && pc.k < |pc.plan.pending| {
      FreshApply(s, id, pc.plan, pc.k, pc.phase, a);
    } else if pc.Applying? || pc.Leaving? || pc.Closing? {
      FreshExit(s, id, a);
    } else {
      FreshSetup(s, id, a);
    }
  }

  /** With a listing of the directory, a row that passes the check matches the directory. */
  lemma MatchedIsMatching(disk: Disk, files: seq<MigrationFile>, r: Row)
    requires Lists(disk, files) && Matched(disk, files, r)
    ensures RowMatches(r, disk)
  {
    hide Holds, Usable;
    var f :| f in files && f.version == r.version && IsAsRecorded(disk, f, r);
    assert Holds(disk.entries, f);
    forall g | Holds(disk.entries, g) && g.version == r.version ensures g == f {
      assert g in files;
    }
  }

  lemma VouchedRow(s: State, id: nat)
    requires Fresh(PcOf(s, id), s.disk) && Vouched(PcOf(s, id), s.db.rows, s.disk)
    requires PcOf(s, id).Checking? && CheckStep(s, id, CheckRow).Some?
    ensures Vouched(PcOf(CheckStep(s, id, CheckRow).value, id), s.db.rows, s.disk)
  {
    var Checking(files, snapshot, k, maxApplied) := PcOf(s, id);
    RowCheckMeaning(s.disk, files, snapshot[k]);
    assert snapshot[..k + 1] == snapshot[..k] + [snapshot[k]];
    if Matched(s.disk, files, snapshot[k]) { MatchedIsMatching(s.disk, files, snapshot[k]); }
    hide RowCheck, Matched, Lists, RowMatches;
  }

  lemma VouchedCheck(s: State, id: nat, a: Action)
    requires Fresh(PcOf(s, id), s.disk) && Vouched(PcOf(s, id), s.db.rows, s.disk) && PcOk(PcOf(s, id), id, s.db)
    requires PcOf(s, id).Checking? && CheckStep(s, id, a).Some?
    ensures Vouched(PcOf(CheckStep(s, id, a).value, id), s.db.rows, s.disk)
  {
    if a.CheckRow? {
      VouchedRow(s, id);
    } else {
      var pc := PcOf(s, id);
      assert pc.snapshot[..|pc.snapshot|] == pc.snapshot;
      hide LogMatches, Pending, FirstBelow, FindVersion, Lists, Increasing;
    }
  }

  /** A commit of a fresh runner adds a row that matches. */
  lemma CommitMatches(s: State, id: nat, db: Db)
    requires LogMatches(s.db.rows, s.disk) && Fresh(PcOf(s, id), s.disk) && PcOk(PcOf(s, id), id, s.db)
    requires db == s.db || Commits(s, id, db)
    ensures LogMatches(db.rows, s.disk)
  {
    if db != s.db {
      var pc := PcOf(s, id);
      var f := pc.plan.pending[pc.k];
      var r := Row(f.version, f.slug, pc.phase.sum);
      assert f in pc.plan.files by { PendingIsListed(pc.plan, pc.k, id, s.db); }
      assert Matched(s.disk, pc.plan.files, r);
      MatchedIsMatching(s.disk, pc.plan.files, r);
      assert db.rows == s.db.rows + [r];
      hide RowMatches, Lists, PlanOk;
    }
  }

  lemma PendingIsListed(plan: Plan, k: nat, id: nat, db: Db)
    requires PlanOk(plan, k, id, db) && k < |plan.pending|
    ensures plan.pending[k] in plan.files
  {
    hide FindVersion, HasVersion, Increasing, RowsIncreasing;
  }

  lemma VouchedExit(s: State, id: nat, a: Action)
    requires Vouched(PcOf(s, id), s.db.rows, s.disk) && ExitStep(s, id, a).Some?
    ensures Vouched(PcOf(ExitStep(s, id, a).value, id), s.db.rows, s.disk)
  {
    hide LogMatches, EndTx, Versions;
  }

  lemma VouchedApply(s: State, id: nat, plan: Plan, k: nat, phase: Phase, a: Action, rows: seq<Row>)
    requires PcOf(s, id) == Applying(plan, k, phase) && k < |plan.pending| && ApplyStep(s, id, plan, k, phase, a).Some?
    requires LogMatches(rows, s.disk)
    ensures Vouched(PcOf(ApplyStep(s, id, plan, k, phase, a).value, id), rows, s.disk)
  {
    hide LogMatches, HasVersion, Write, Fail, EndTx, ReadingOf, SessionOf;
  }

  lemma VouchedSetup(s: State, id: nat, a: Action)
    requires SetupStep(s, id, a).Some?
    ensures Vouched(PcOf(SetupStep(s, id, a).value, id), s.db.rows, s.disk)
  {
    var t := SetupStep(s, id, a).value;
    if PcOf(t, id).Checking? { assert PcOf(t, id).snapshot[..0] == []; }
    hide Discover, IsListing, OrderedRows, RowMatches;
  }

  lemma VouchedStep(s: State, id: nat, a: Action)
    requires Fresh(PcOf(s, id), s.disk) && Vouched(PcOf(s, id), s.db.rows, s.disk) && ActorOk(s, id)
    requires Next(s, Act(id, a)).Some?
    ensures var t := Next(s, Act(id, a)).value; Vouched(PcOf(t, id), t.db.rows, s.disk)
  {
    ActorKeeps(s, id, a);
    var t, pc := Next(s, Act(id, a)).value, PcOf(s, id);
    if pc.Applying? { CommitMatches(s, id, t.db); }
    hide SetupStep, CheckStep, ApplyStep, ExitStep, LostStep, Fresh, PcOf, PcOk, DbOk, SessionOk, LogMatches;
    if a.LoseConnection? {
      LostEnds(s, id, a.committed);
    } else if pc.Checking? {
      VouchedCheck(s, id, a);
      CheckSession(s, id, a);
    } else if pc.Applying? && pc.k < |pc.plan.pending| {
      VouchedApply(s, id, pc.plan, pc.k, pc.phase, a, t.db.rows);
    } else if pc.Applying? || pc.Leaving? || pc.Closing? {
      ExitKeeps(s, id, a);
      VouchedExit(s, id, a);
    } else {
      SetupSession(s, id, a);
      VouchedSetup(s, id, a);
    }
  }

  /** From taking the lock on, and after a success, nobody holds stale contents, and the checks hold good. */
  ghost predicate Settled(s: State, id: nat) {
    && Inv(s) && Vouched(PcOf(s, id), s.db.rows, s.disk)
    && (PcOf(s, id).Critical() || Succeeded(PcOf(s, id)) ==> forall j: nat :: Fresh(PcOf(s, j), s.disk))
  }

  /** The only way in is taking the lock, which no other runner then holds. */
  lemma WayIn(s: State, id: nat, a: Action)
    requires Next(s, Act(id, a)).Some? && !PcOf(s, id).Critical() && !Succeeded(PcOf(s, id))
    ensures var pc := PcOf(Next(s, Act(id, a)).value, id); pc.Locked? || (!pc.Critical() && !Succeeded(pc))
  {
    hide ApplyStep, CheckStep, Discover, IsListing, OrderedRows, EndTx, Versions;
  }

  lemma LockedIsFresh(s: State, id: nat)
    requires Inv(s) && PcOf(s, id).Locked?
    ensures forall j: nat :: Fresh(PcOf(s, j), s.disk)
  {
    hide PcOk, DbOk, SessionOk, PcOf;
    forall j: nat ensures Fresh(PcOf(s, j), s.disk) {
      assert PcOf(s, j).Critical() ==> j == id;
    }
  }

  lemma SettledOwn(s: State, id: nat, a: Action)
    requires Settled(s, id) && Next(s, Act(id, a)).Some?
    ensures Settled(Next(s, Act(id, a)).value, id)
  {
    var t := Next(s, Act(id, a)).value;
    StepKeepsInv(s, Act(id, a));
    StepFrame(s, id, a, t);
    hide Next, Inv, Fresh, Vouched, PcOf;
    if PcOf(s, id).Critical() || Succeeded(PcOf(s, id)) {
      assert ActorOk(s, id) by { InvActor(s, id); }
      VouchedStep(s, id, a);
      FreshStep(s, id, a);
      forall j: nat ensures Fresh(PcOf(t, j), t.disk) {
        if j != id { assert SameRunner(s, t, j); }
      }
    } else {
      WayIn(s, id, a);
      if PcOf(t, id).Locked? { LockedIsFresh(t, id); }
      NotYetVouched(PcOf(t, id), t.db.rows, t.disk);
    }
  }

  lemma InvActor(s: State, id: nat)
    requires Inv(s)
    ensures ActorOk(s, id)
  {
    hide PcOk, DbOk, SessionOk;
  }

  lemma NotYetVouched(pc: Pc, rows: seq<Row>, disk: Disk)
    requires pc.Locked? || (!pc.Critical() && !Succeeded(pc))
    ensures Vouched(pc, rows, disk)
  {
  }

  lemma SettledOther(s: State, id: nat, other: nat, a: Action)
    requires Settled(s, id) && Next(s, Act(other, a)).Some? && other != id
    ensures Settled(Next(s, Act(other, a)).value, id)
  {
    var t := Next(s, Act(other, a)).value;
    StepKeepsInv(s, Act(other, a));
    StepFrame(s, other, a, t);
    assert SameRunner(s, t, id);
    assert PcOk(PcOf(s, other), other, s.db);
    hide Next, Inv, Fresh, PcOf, LogMatches, PcOk, Commits;
    if PcOf(s, id).Critical() || Succeeded(PcOf(s, id)) {
      FreshStep(s, other, a);
      if LogMatches(s.db.rows, s.disk) { CommitMatches(s, other, t.db); }
      forall j: nat ensures Fresh(PcOf(t, j), t.disk) {
        if j != other { assert SameRunner(s, t, j); }
      }
    }
  }

  lemma {:induction false} RunSettles(s: State, id: nat, events: seq<Event>)
    requires Inv(s) && PcOf(s, id).Idle? && NoDiskChange(events) && Run(s, events).Some?
    ensures Settled(Run(s, events).value, id) && Run(s, events).value.disk == s.disk
  {
    hide Inv, Settled, Next;
    if events == [] {
      NeverStarted(s, id);
    } else {
      var n := |events| - 1;
      assert events[n] in events && forall e :: e in events[..n] ==> e in events;
      RunSettles(s, id, events[..n]);
      var t := Run(s, events[..n]).value;
      var Act(actor, a) := events[n];
      StepFrame(t, actor, a, Next(t, events[n]).value);
      if actor == id {
        SettledOwn(t, id, a);
      } else {
        SettledOther(t, id, actor, a);
      }
    }
  }

  lemma NeverStarted(s: State, id: nat)
    requires Inv(s) && PcOf(s, id).Idle?
    ensures Settled(s, id)
  {
    hide Inv;
  }

  /** Whatever happened before: once a run succeeds on a directory that has not changed since the run began, each row
      of the log has its file in the directory, unchanged. */
  lemma {:induction false} SuccessMeansUnchanged(disk: Disk, before: seq<Event>, id: nat, after: seq<Event>)
    requires Run(Init(disk), before).Some? && PcOf(Run(Init(disk), before).value, id).Idle?
    requires NoDiskChange(after) && Run(Run(Init(disk), before).value, after).Some?
    ensures var s := Run(Init(disk), before).value;
            var t := Run(s, after).value;
            Succeeded(PcOf(t, id)) || PcOf(t, id).Applying? ==> LogMatches(t.db.rows, s.disk)
  {
    ReachableInv(disk, before);
    RunSettles(Run(Init(disk), before).value, id, after);
    hide Run, NoDiskChange, Inv, LogMatches, Fresh;
  }

  lemma {:induction false} RowsStay(s: State, events: seq<Event>)
    requires Inv(s) && Run(s, events).Some?
    ensures Inv(Run(s, events).value) && s.db.rows <= Run(s, events).value.db.rows
  {
    if events == [] {
    } else {
      var n := |events| - 1;
      RowsStay(s, events[..n]);
      StepKeepsInv(Run(s, events[..n]).value, events[n]);
      hide Next, Inv, PcOf, ReadingOf;
    }
  }

  /** Once an applied file was changed, has become unreadable or is gone, no new run on that directory succeeds, and
      none commits anything. */
  lemma {:induction false} ChangedFileRefused(disk: Disk, before: seq<Event>, r: Row, id: nat, after: seq<Event>)
    requires Run(Init(disk), before).Some? && PcOf(Run(Init(disk), before).value, id).Idle?
    requires r in Run(Init(disk), before).value.db.rows && !RowMatches(r, Run(Init(disk), before).value.disk)
    requires NoDiskChange(after) && Run(Run(Init(disk), before).value, after).Some?
    ensures var t := Run(Run(Init(disk), before).value, after).value;
            !Succeeded(PcOf(t, id)) && id !in t.db.authors
  {
    var s := Run(Init(disk), before).value;
    ReachableInv(disk, before);
    hide Inv, Next, RowMatches;
    RowsStay(s, after);
    SuccessMeansUnchanged(disk, before, id, after);
    var t := Run(s, after).value;
    assert r in t.db.rows;
    hide PcOf;
    if after == [] {
      IdleWroteNothing(s, id);
    } else {
      var n := |after| - 1;
      assert after[n] in after && forall e :: e in after[..n] ==> e in after;
      ChangedFileRefused(disk, before, r, id, after[..n]);
      RowsStay(s, after[..n]);
      SuccessMeansUnchanged(disk, before, id, after[..n]);
      WritesNothing(Run(s, after[..n]).value, after[n], id);
    }
  }

  lemma IdleWroteNothing(s: State, id: nat)
    requires Inv(s) && PcOf(s, id).Idle?
    ensures id !in s.db.authors
  {
    assert PcOk(PcOf(s, id), id, s.db);
  }

  lemma WritesNothing(s: State, e: Event, id: nat)
    requires Inv(s) && Next(s, e).Some? && id !in s.db.authors && !PcOf(s, id).Applying?
    ensures id !in Next(s, e).value.db.authors
  {
    StepKeepsInv(s, e);
    hide Next, Inv;
    if e.Act? { OwnAuthor(s, e.id, Next(s, e).value.db); }
  }

  // ---------------------------------------------------------------- running again

  /** A run that has read a complete log has nothing pending. */
  ghost predicate NothingToDo(pc: Pc, files: seq<MigrationFile>) {
    && (pc.Applying? ==> |pc.plan.snapshot| == |files|)
    && (Succeeded(pc) ==> pc.outcome.skipped == |files|)
  }

  lemma RerunCheck(s: State, id: nat, a: Action, files: seq<MigrationFile>)
    requires PcOk(PcOf(s, id), id, s.db) && |s.db.rows| == |files| && CheckStep(s, id, a).Some?
    ensures NothingToDo(PcOf(CheckStep(s, id, a).value, id), files)
  {
    hide RowCheck, Pending, FirstBelow, FindVersion, Increasing;
  }

  lemma RerunApply(s: State, id: nat, plan: Plan, k: nat, phase: Phase, a: Action, files: seq<MigrationFile>)
    requires PcOf(s, id) == Applying(plan, k, phase) && k < |plan.pending| && NothingToDo(PcOf(s, id), files)
    requires ApplyStep(s, id, plan, k, phase, a).Some?
    ensures NothingToDo(PcOf(ApplyStep(s, id, plan, k, phase, a).value, id), files)
  {
    hide HasVersion, Write, Fail, EndTx, SessionOf;
  }

  lemma RerunExit(s: State, id: nat, a: Action, files: seq<MigrationFile>)
    requires PcOk(PcOf(s, id), id, s.db) && NothingToDo(PcOf(s, id), files) && ExitStep(s, id, a).Some?
    ensures NothingToDo(PcOf(ExitStep(s, id, a).value, id), files)
  {
    var pc := PcOf(s, id);
    if pc.Applying? { VersionsCount(pc.plan.snapshot); }
    hide Versions, PlanOk, EndTx, SessionOf;
  }

  lemma RerunStep(s: State, id: nat, a: Action, files: seq<MigrationFile>)
    requires PcOk(PcOf(s, id), id, s.db) && |s.db.rows| == |files| && NothingToDo(PcOf(s, id), files)
    requires Next(s, Act(id, a)).Some?
    ensures NothingToDo(PcOf(Next(s, Act(id, a)).value, id), files)
  {
    var pc := PcOf(s, id);
    if a.LoseConnection? {
      hide EndTx;
    } else if pc.Checking? {
      hide CheckStep, NothingToDo, PcOk, PcOf;
      RerunCheck(s, id, a, files);
    } else if pc.Applying? && pc.k < |pc.plan.pending| {
      hide ApplyStep, NothingToDo, PcOk, PcOf;
      RerunApply(s, id, pc.plan, pc.k, pc.phase, a, files);
    } else if pc.Applying? || pc.Leaving? || pc.Closing? {
      hide ExitStep, NothingToDo, PcOk, PcOf;
      RerunExit(s, id, a, files);
    } else {
      hide Discover, IsListing, OrderedRows, PcOk;
    }
  }

  lemma RerunEvent(s: State, e: Event, id: nat, disk: Disk, files: seq<MigrationFile>)
    requires Exact(s, disk, files) && |s.db.rows| == |files| && NothingToDo(PcOf(s, id), files)
    requires e.Act? && Next(s, e).Some?
    ensures var t := Next(s, e).value;
            Exact(t, disk, files) && |t.db.rows| == |files| && NothingToDo(PcOf(t, id), files)
  {
    var t := Next(s, e).value;
    StepFrame(s, e.id, e.action, t);
    StepKeepsInv(s, e);
    StepKeepsExact(s, e.id, e.action, disk, files);
    assert PcOk(PcOf(s, id), id, s.db);
    if e.id == id { RerunStep(s, id, e.action, files); }
    hide Next, NothingToDo, PcOf, SessionOf, ReadingOf, PcOk, RowsOf, EffectsOf, Inv, Lists, PcExact;
    assert e.id != id ==> SameRunner(s, t, id);
  }

  lemma {:induction false} RerunInv(s: State, events: seq<Event>, id: nat, disk: Disk, files: seq<MigrationFile>)
    requires Exact(s, disk, files) && |s.db.rows| == |files| && PcOf(s, id).Idle?
    requires NoDiskChange(events) && Run(s, events).Some?
    ensures var t := Run(s, events).value;
            Exact(t, disk, files) && |t.db.rows| == |files| && NothingToDo(PcOf(t, id), files)
  {
    if events == [] {
      hide Exact;
    } else {
      var n := |events| - 1;
      assert events[n] in events && forall e :: e in events[..n] ==> e in events;
      hide Exact, NothingToDo, Next, PcOf;
      RerunInv(s, events[..n], id, disk, files);
      RerunEvent(Run(s, events[..n]).value, events[n], id, disk, files);
    }
  }

  /** After a success, any later successful run on the same directory applies nothing and skips every file. */
  lemma RerunAppliesNothing(disk: Disk, files: seq<MigrationFile>, before: seq<Event>, first: nat, after: seq<Event>,
                            id: nat)
    requires Lists(disk, files) && NoDiskChange(before) && NoDiskChange(after)
    requires Run(Init(disk), before).Some? && Succeeded(PcOf(Run(Init(disk), before).value, first))
    requires PcOf(Run(Init(disk), before).value, id).Idle?
    requires Run(Run(Init(disk), before).value, after).Some?
    requires Succeeded(PcOf(Run(Run(Init(disk), before).value, after).value, id))
    ensures PcOf(Run(Run(Init(disk), before).value, after).value, id).outcome == Applied([], |files|)
  {
    hide Run, Lists, RowsOf, EffectsOf, Inv, PcOk;
    InitExact(disk, files);
    RunKeepsExact(Init(disk), before, disk, files);
    var s := Run(Init(disk), before).value;
    assert PcExact(PcOf(s, first), s.db, disk, files);
    RerunInv(s, after, id, disk, files);
    var t := Run(s, after).value;
    assert PcExact(PcOf(t, id), t.db, disk, files);
  }

  // ---------------------------------------------------------------- a run can always succeed

  /** t comes from s by steps of runners alone. */
  ghost predicate Quietly(s: State, events: seq<Event>, t: State) {
    Run(s, events) == Some(t) && NoDiskChange(events)
  }

  /** One more step of an undisturbed run. */
  lemma Extend(s: State, events: seq<Event>, t: State, id: nat, a: Action, disk: Disk, files: seq<MigrationFile>)
      returns (events': seq<Event>, t': State)
    requires Quietly(s, events, t) && Exact(t, disk, files) && Next(t, Act(id, a)).Some?
    ensures Quietly(s, events', t') && Exact(t', disk, files) && t' == Next(t, Act(id, a)).value
  {
    hide Next, Exact, Quietly;
    t' := Next(t, Act(id, a)).value;
    events' := events + [Act(id, a)];
    QuietlyMore(s, events, t, Act(id, a));
    StepKeepsExact(t, id, a, disk, files);
  }

  lemma QuietlyMore(s: State, events: seq<Event>, t: State, e: Event)
    requires Quietly(s, events, t) && e.Act? && Next(t, e).Some?
    ensures Quietly(s, events + [e], Next(t, e).value)
  {
    hide Next;
    assert (events + [e])[..|events|] == events;
  }

  lemma {:induction false} ListingExists(dir: set<DirEntry>) returns (entries: seq<DirEntry>)
    ensures IsListing(entries, dir)
  {
    if dir == {} {
      entries := [];
    } else {
      var e :| e in dir;
      var rest := ListingExists(dir - {e});
      entries := rest + [e];
    }
  }

  lemma CleanSetup(s: State, id: nat, disk: Disk, files: seq<MigrationFile>) returns (events: seq<Event>, t: State)
    requires Exact(s, disk, files) && s.lock == None && PcOf(s, id).Idle?
    ensures Quietly(s, events, t) && Exact(t, disk, files)
    ensures PcOf(t, id) == Checking(files, t.db.rows, 0, 0) && t.db == s.db
  {
    var listing := ListingExists(disk.entries);
    DiscoverLists(disk, files, listing);
    hide Next, Exact, Lists, IsListing, Discover, OrderedRows;
    events, t := [], s;
    assert Quietly(s, events, t);
    hide Quietly;
    SetupNext(t, id, listing);
    events, t := Extend(s, events, t, id, Connect, disk, files);
    SetupNext(t, id, listing);
    events, t := Extend(s, events, t, id, TakeLock, disk, files);
    SetupNext(t, id, listing);
    events, t := Extend(s, events, t, id, CreateTable(true), disk, files);
    SetupNext(t, id, listing);
    DiskOf(t, disk, files);
    events, t := Extend(s, events, t, id, ReadDirectory(listing), disk, files);
    SetupNext(t, id, listing);
    DiskOf(t, disk, files);
    events, t := Extend(s, events, t, id, ReadRows(t.db.rows), disk, files);
  }

  /** The undisturbed steps up to the snapshot. */
  lemma SetupNext(t: State, id: nat, listing: seq<DirEntry>)
    ensures match PcOf(t, id)
            case Idle => Next(t, Act(id, Connect)) == Some(Move(t, id, Waiting))
            case Waiting =>
              t.lock == None ==> Next(t, Act(id, TakeLock)) == Some(Move(t.(lock := Some(id)), id, Locked))
            case Locked => Next(t, Act(id, CreateTable(true))) == Some(Move(t, id, Ready))
            case Ready =>
              IsListing(listing, t.disk.entries) && Discover(listing).Success? ==>
                Next(t, Act(id, ReadDirectory(listing))) == Some(Move(t, id, Listed(Discover(listing).value)))
            case Listed(files) =>
              RowsIncreasing(t.db.rows) ==>
                Next(t, Act(id, ReadRows(t.db.rows))) == Some(Move(t, id, Checking(files, t.db.rows, 0, 0)))
            case _ => true
  {
    hide IsListing, Discover;
  }

  lemma DiskOf(t: State, disk: Disk, files: seq<MigrationFile>)
    requires Exact(t, disk, files)
    ensures t.disk == disk && RowsIncreasing(t.db.rows) && LogIsPrefix(t.db, disk, files) && Increasing(files)
  {
  }

  lemma {:induction false} FindVersionAt(files: seq<MigrationFile>, i: nat)
    requires Increasing(files) && i < |files|
    ensures FindVersion(files, files[i].version) == Some(files[i])
  {
    if i == 0 {
    } else {
      FindVersionAt(files[1..], i - 1);
    }
  }

  ghost predicate Readable(disk: Disk, files: seq<MigrationFile>) {
    forall f :: f in files ==> f.fileName in disk.content
  }

  /** On its own directory's rows no check fails. */
  lemma RowPasses(disk: Disk, files: seq<MigrationFile>, db: Db, k: nat)
    requires Increasing(files) && Readable(disk, files) && LogIsPrefix(db, disk, files) && k < |db.rows|
    ensures db.rows[k].version == files[k].version && RowCheck(disk, files, db.rows[k]) == None
  {
    assert db.rows[k] == RowOf(disk, files[..|db.rows|][k]);
    assert files[k] in files;
    FindVersionAt(files, k);
  }

  /** An undisturbed run passes the check of row k. */
  lemma CleanRow(t: State, id: nat, k: nat, disk: Disk, files: seq<MigrationFile>)
    requires Exact(t, disk, files) && Readable(disk, files) && k < |t.db.rows|
    requires PcOf(t, id) == Checking(files, t.db.rows, k, Highest(t.db.rows, k))
    ensures Reaches(t, id, CheckRow, Checking(files, t.db.rows, k + 1, Highest(t.db.rows, k + 1)))
  {
    DiskOf(t, disk, files);
    hide Exact, Reaches, LogIsPrefix, RowCheck, Increasing, RowsIncreasing, PcOf, Readable;
    CheckNext(t, id, files, t.db.rows, k, Highest(t.db.rows, k));
    RowPasses(disk, files, t.db, k);
    VersionsGrow(t.db.rows, k);
  }

  /** And the check of the order. */
  lemma CleanOrder(t: State, id: nat, disk: Disk, files: seq<MigrationFile>)
    requires Exact(t, disk, files)
    requires PcOf(t, id) == Checking(files, t.db.rows, |t.db.rows|, Highest(t.db.rows, |t.db.rows|))
    ensures |t.db.rows| <= |files|
    ensures Reaches(t, id, CheckOrder, Applying(Plan(files, t.db.rows, files[|t.db.rows|..]), 0, Between))
  {
    var n := |t.db.rows|;
    DiskOf(t, disk, files);
    assert n <= |files|;
    hide Exact, Reaches, LogIsPrefix, Pending, FirstBelow, Increasing, RowsIncreasing, PcOf;
    CheckNext(t, id, files, t.db.rows, n, Highest(t.db.rows, n));
    NothingBelow(disk, files, t.db);
  }

  lemma {:induction false} CleanChecks(s: State, events: seq<Event>, t: State, id: nat, k: nat,
                                       disk: Disk, files: seq<MigrationFile>)
      returns (events': seq<Event>, t': State)
    requires Quietly(s, events, t) && Exact(t, disk, files) && Readable(disk, files)
    requires k <= |t.db.rows| && PcOf(t, id) == Checking(files, t.db.rows, k, Highest(t.db.rows, k))
    ensures Quietly(s, events', t') && Exact(t', disk, files) && t'.db == t.db && |t.db.rows| <= |files|
    ensures PcOf(t', id) == Applying(Plan(files, t.db.rows, files[|t.db.rows|..]), 0, Between)
    decreases |t.db.rows| - k
  {
    hide Next, Exact, Quietly, PcOf, Readable, Highest;
    if k == |t.db.rows| {
      CleanOrder(t, id, disk, files);
      events', t' := Extend(s, events, t, id, CheckOrder, disk, files);
    } else {
      CleanRow(t, id, k, disk, files);
      events', t' := Extend(s, events, t, id, CheckRow, disk, files);
      events', t' := CleanChecks(s, events', t', id, k + 1, disk, files);
    }
  }

  lemma VersionsGrow(rows: seq<Row>, k: nat)
    requires RowsIncreasing(rows) && k < |rows|
    ensures k > 0 ==> rows[k - 1].version < rows[k].version
  {
  }

  /** The step leads to pc and commits nothing. */
  ghost predicate Reaches(t: State, id: nat, a: Action, pc: Pc) {
    var u := Next(t, Act(id, a)); u.Some? && PcOf(u.value, id) == pc && u.value.db == t.db
  }

  /** The undisturbed steps of the checks. */
  lemma CheckNext(t: State, id: nat, files: seq<MigrationFile>, snapshot: seq<Row>, k: nat, maxApplied: nat)
    requires PcOf(t, id) == Checking(files, snapshot, k, maxApplied)
    ensures k < |snapshot| && RowCheck(t.disk, files, snapshot[k]) == None ==>
              var version := snapshot[k].version;
              var highest := if version > maxApplied then version else maxApplied;
              Reaches(t, id, CheckRow, Checking(files, snapshot, k + 1, highest))
    ensures k == |snapshot| && FirstBelow(Pending(files, snapshot), maxApplied) == None ==>
              Reaches(t, id, CheckOrder, Applying(Plan(files, snapshot, Pending(files, snapshot)), 0, Between))
  {
    hide RowCheck, FirstBelow, Pending;
  }

  lemma NothingBelow(disk: Disk, files: seq<MigrationFile>, db: Db)
    requires Increasing(files) && LogIsPrefix(db, disk, files)
    ensures var n := |db.rows|;
            && Pending(files, db.rows) == files[n..]
            && FirstBelow(files[n..], Highest(db.rows, n)) == None
  {
    var n := |db.rows|;
    PendingIsSuffix(disk, files, n);
    hide Pending, HasVersion;
    if n > 0 {
      assert db.rows[n - 1] == RowOf(disk, files[..n][n - 1]);
      hide RowsOf, EffectsOf, LogIsPrefix;
      SuffixAbove(files, n);
    }
  }

  lemma SuffixAbove(files: seq<MigrationFile>, n: nat)
    requires Increasing(files) && 0 < n <= |files|
    ensures FirstBelow(files[n..], files[n - 1].version) == None
  {
    hide FirstBelow;
    forall f | f in files[n..] ensures f.version >= files[n - 1].version {
      var i :| 0 <= i < |files[n..]| && files[n..][i] == f;
      assert files[n + i] == f;
    }
  }

  /** A step of one runner: where it stands behind it, and what is committed then. */
  ghost predicate Leads(t: State, id: nat, a: Action, pc: Pc, db: Db) {
    var u := Next(t, Act(id, a));
    && u.Some? && PcOf(u.value, id) == pc && u.value.db == db && u.value.disk == t.disk
    && SessionOk(pc, SessionOf(u.value, id))
  }

  /** The undisturbed steps of one file. */
  lemma ApplyNext(t: State, id: nat, plan: Plan, k: nat, phase: Phase)
    requires PcOf(t, id) == Applying(plan, k, phase) && k < |plan.pending|
    requires SessionOk(PcOf(t, id), SessionOf(t, id)) && !HasVersion(t.db.rows, plan.pending[k].version)
    requires plan.pending[k].fileName in t.disk.content
    ensures var content := t.disk.content[plan.pending[k].fileName];
            match phase
            case Between => Leads(t, id, ReadChecksum, Applying(plan, k, Summed(Checksum(content))), t.db)
            case Summed(sum) => Leads(t, id, ReadSql, Applying(plan, k, Loaded(sum, content)), t.db)
            case Loaded(sum, sql) => Leads(t, id, Begin, Applying(plan, k, Begun(sum, sql)), t.db)
            case Begun(sum, sql) => Leads(t, id, RunSql(true), Applying(plan, k, Ran(sum, sql)), t.db)
            case Ran(sum, sql) => Leads(t, id, InsertRow(true), Applying(plan, k, Inserted(sum, sql)), t.db)
            case Inserted(sum, sql) =>
              Leads(t, id, Commit(true), Applying(plan, k + 1, Between),
                    Append(t.db, plan.pending[k], sum, sql, id, ReadingOf(t, id)))
            case Undoing => true
  {
    var x := SessionOf(t, id);
    assert x.rows == [] ==> t.db.rows + x.rows == t.db.rows;
    var a := match phase
      case Between => ReadChecksum
      case Summed(_) => ReadSql
      case Loaded(_, _) => Begin
      case Begun(_, _) => RunSql(true)
      case Ran(_, _) => InsertRow(true)
      case Inserted(_, _) => Commit(true)
      case Undoing => Rollback(true);
    assert ApplyStep(t, id, plan, k, phase, a).Some? by { hide Write, EndTx, HasVersion; }
    ApplySession(t, id, plan, k, phase, a);
    StepFrame(t, id, a, ApplyStep(t, id, plan, k, phase, a).value);
    hide HasVersion, Append, Write, Fail, EndTx, SessionOk, SessionOf, ReadingOf;
  }

  lemma FinishNext(t: State, id: nat, plan: Plan)
    requires PcOf(t, id) == Applying(plan, |plan.pending|, Between)
    ensures Next(t, Act(id, Finish)) == Some(Move(t, id, Leaving(Applied(plan.pending, |Versions(plan.snapshot)|))))
  {
    hide Versions;
  }

  lemma NextFileIsNew(t: State, id: nat, plan: Plan, k: nat, phase: Phase, disk: Disk, files: seq<MigrationFile>)
    requires Exact(t, disk, files) && Readable(disk, files)
    requires PcOf(t, id) == Applying(plan, k, phase) && k < |plan.pending|
    ensures !HasVersion(t.db.rows, plan.pending[k].version) && plan.pending[k].fileName in t.disk.content
    ensures SessionOk(PcOf(t, id), SessionOf(t, id))
  {
    assert PcExact(PcOf(t, id), t.db, disk, files) && PlanOk(plan, k, id, t.db);
    var n := |t.db.rows|;
    assert plan.pending[k] == files[n] && files[n] in files;
    hide PlanOk;
    PrefixHasVersion(disk, files, n, n);
  }

  /** One undisturbed step within one file. */
  lemma CleanStep(s: State, events: seq<Event>, t: State, id: nat, a: Action, plan: Plan, k: nat, phase: Phase,
                  pc: Pc, db: Db, disk: Disk, files: seq<MigrationFile>)
      returns (events': seq<Event>, t': State)
    requires Quietly(s, events, t) && Exact(t, disk, files) && Readable(disk, files)
    requires PcOf(t, id) == Applying(plan, k, phase) && k < |plan.pending| && Leads(t, id, a, pc, db)
    ensures Quietly(s, events', t') && Exact(t', disk, files) && PcOf(t', id) == pc && t'.db == db
  {
    hide Next, Exact, Readable, Quietly;
    events', t' := Extend(s, events, t, id, a, disk, files);
  }

  lemma CleanFile(s: State, events: seq<Event>, t: State, id: nat, plan: Plan, k: nat,
                  disk: Disk, files: seq<MigrationFile>)
      returns (events': seq<Event>, t': State)
    requires Quietly(s, events, t) && Exact(t, disk, files) && Readable(disk, files)
    requires PcOf(t, id) == Applying(plan, k, Between) && k < |plan.pending|
    ensures Quietly(s, events', t') && Exact(t', disk, files) && PcOf(t', id) == Applying(plan, k + 1, Between)
  {
    hide Quietly, Next, Leads, Exact, Readable, HasVersion, Append, SessionOk, SessionOf;
    NextFileIsNew(t, id, plan, k, Between, disk, files);
    var content := t.disk.content[plan.pending[k].fileName];
    var sum := Checksum(content);
    ApplyNext(t, id, plan, k, Between);
    events', t' := CleanStep(s, events, t, id, ReadChecksum, plan, k, Between,
                             Applying(plan, k, Summed(sum)), t.db, disk, files);
    NextFileIsNew(t', id, plan, k, Summed(sum), disk, files);
    DiskOf(t, disk, files);
    DiskOf(t', disk, files);
    ApplyNext(t', id, plan, k, Summed(sum));
    events', t' := CleanStep(s, events', t', id, ReadSql, plan, k, Summed(sum),
                             Applying(plan, k, Loaded(sum, content)), t'.db, disk, files);
    events', t' := CleanTransaction(s, events', t', id, plan, k, sum, content, disk, files);
  }

  lemma CleanTransaction(s: State, events: seq<Event>, t: State, id: nat, plan: Plan, k: nat, sum: Digest, sql: string,
                         disk: Disk, files: seq<MigrationFile>)
      returns (events': seq<Event>, t': State)
    requires Quietly(s, events, t) && Exact(t, disk, files) && Readable(disk, files)
    requires PcOf(t, id) == Applying(plan, k, Loaded(sum, sql)) && k < |plan.pending|
    ensures Quietly(s, events', t') && Exact(t', disk, files) && PcOf(t', id) == Applying(plan, k + 1, Between)
  {
    hide Quietly, Next, Leads, Exact, Readable, HasVersion, Append, SessionOk, SessionOf;
    events', t' := events, t;
    NextFileIsNew(t', id, plan, k, Loaded(sum, sql), disk, files);
    ApplyNext(t', id, plan, k, Loaded(sum, sql));
    events', t' := CleanStep(s, events', t', id, Begin, plan, k, Loaded(sum, sql),
                             Applying(plan, k, Begun(sum, sql)), t'.db, disk, files);
    NextFileIsNew(t', id, plan, k, Begun(sum, sql), disk, files);
    ApplyNext(t', id, plan, k, Begun(sum, sql));
    events', t' := CleanStep(s, events', t', id, RunSql(true), plan, k, Begun(sum, sql),
                             Applying(plan, k, Ran(sum, sql)), t'.db, disk, files);
    NextFileIsNew(t', id, plan, k, Ran(sum, sql), disk, files);
    ApplyNext(t', id, plan, k, Ran(sum, sql));
    events', t' := CleanStep(s, events', t', id, InsertRow(true), plan, k, Ran(sum, sql),
                             Applying(plan, k, Inserted(sum, sql)), t'.db, disk, files);
    NextFileIsNew(t', id, plan, k, Inserted(sum, sql), disk, files);
    ApplyNext(t', id, plan, k, Inserted(sum, sql));
    var db := Append(t'.db, plan.pending[k], sum, sql, id, ReadingOf(t', id));
    events', t' := CleanStep(s, events', t', id, Commit(true), plan, k, Inserted(sum, sql),
                             Applying(plan, k + 1, Between), db, disk, files);
  }

  lemma {:induction false} CleanApply(s: State, events: seq<Event>, t: State, id: nat, plan: Plan, k: nat,
                                      disk: Disk, files: seq<MigrationFile>)
      returns (events': seq<Event>, t': State)
    requires Quietly(s, events, t) && Exact(t, disk, files) && Readable(disk, files)
    requires PcOf(t, id) == Applying(plan, k, Between) && k <= |plan.pending|
    ensures Quietly(s, events', t') && Exact(t', disk, files) && Succeeded(PcOf(t', id))
    decreases |plan.pending| - k
  {
    hide Quietly, Next, Exact, Readable, Versions;
    if k == |plan.pending| {
      FinishNext(t, id, plan);
      events', t' := Extend(s, events, t, id, Finish, disk, files);
    } else {
      events', t' := CleanFile(s, events, t, id, plan, k, disk, files);
      events', t' := CleanApply(s, events', t', id, plan, k + 1, disk, files);
    }
  }

  /** After any failed, crashed and interleaved runs on a readable directory that stays as it is, a new run can go
      through and succeed as soon as the lock is free. */
  lemma SomeRunSucceeds(disk: Disk, files: seq<MigrationFile>, before: seq<Event>, id: nat)
    requires Lists(disk, files) && Readable(disk, files) && NoDiskChange(before) && Run(Init(disk), before).Some?
    requires var s := Run(Init(disk), before).value; s.lock == None && PcOf(s, id).Idle?
    ensures var s := Run(Init(disk), before).value;
            exists after, t :: Quietly(s, after, t) && Succeeded(PcOf(t, id))
  {
    hide Run, Lists, Quietly, Next, NoDiskChange, Readable, Succeeded;
    InitExact(disk, files);
    RunKeepsExact(Init(disk), before, disk, files);
    hide Exact;
    var s := Run(Init(disk), before).value;
    var events, t := CleanSetup(s, id, disk, files);
    events, t := CleanChecks(s, events, t, id, 0, disk, files);
    events, t := CleanApply(s, events, t, id, PcOf(t, id).plan, 0, disk, files);
  }

  // ---------------------------------------------------------------- the bytes that were run

  /** Every row records the checksum of the SQL that was run for it. */
  ghost predicate ChecksumsTrue(db: Db) {
    |db.effects| == |db.rows| && forall i :: 0 <= i < |db.rows| ==> db.rows[i].checksum == Digest(db.effects[i].sql)
  }

  /** Each file was read alike, once for its checksum and once for its text, before its row was committed. */
  ghost predicate ReadAlike(db: Db) {
    |db.readings| == |db.rows| && forall i :: 0 <= i < |db.rows| ==> db.readings[i].first == db.readings[i].second
  }

  ghost predicate FromReadings(db: Db) {
    && |db.readings| == |db.rows| == |db.effects|
    && (forall i :: 0 <= i < |db.rows| ==> db.rows[i].checksum == Digest(db.readings[i].first))
    && forall i :: 0 <= i < |db.rows| ==> db.effects[i].sql == db.readings[i].second
  }

  predicate ReadingOk(pc: Pc, reading: Reading) {
    pc.Applying? ==>
      match pc.phase
      case Between => true
      case Summed(sum) => sum == Checksum(reading.first)
      case Loaded(sum, sql) => sum == Checksum(reading.first) && sql == reading.second
      case Begun(sum, sql) => sum == Checksum(reading.first) && sql == reading.second
      case Ran(sum, sql) => sum == Checksum(reading.first) && sql == reading.second
      case Inserted(sum, sql) => sum == Checksum(reading.first) && sql == reading.second
      case Undoing => true
  }

  /** Nothing of a file is in use: between files, or outside the loop. */
  predicate Unread(pc: Pc) { pc.Applying? ==> pc.phase.Between? || pc.phase.Undoing? }

  /** Outside the steps of one file nothing read is in use. */
  lemma StepUnread(s: State, id: nat, a: Action)
    requires Next(s, Act(id, a)).Some?
    requires !(PcOf(s, id).Applying? && PcOf(s, id).k < |PcOf(s, id).plan.pending|) || a.LoseConnection?
    ensures Unread(PcOf(Next(s, Act(id, a)).value, id))
  {
    hide RowCheck, Pending, FirstBelow, Discover, IsListing, OrderedRows, Versions, EndTx, ApplyStep;
  }

  lemma ApplyReads(s: State, id: nat, plan: Plan, k: nat, phase: Phase, a: Action)
    requires PcOf(s, id) == Applying(plan, k, phase) && k < |plan.pending| && ApplyStep(s, id, plan, k, phase, a).Some?
    requires ReadingOk(PcOf(s, id), ReadingOf(s, id))
    ensures var t := ApplyStep(s, id, plan, k, phase, a).value; ReadingOk(PcOf(t, id), ReadingOf(t, id))
  {
    hide HasVersion, Publish, SessionOf;
  }

  lemma ActorReads(s: State, id: nat, a: Action)
    requires Next(s, Act(id, a)).Some? && ReadingOk(PcOf(s, id), ReadingOf(s, id))
    ensures var t := Next(s, Act(id, a)).value; ReadingOk(PcOf(t, id), ReadingOf(t, id))
  {
    hide PcOf, ReadingOf, ApplyStep, SetupStep, CheckStep, ExitStep, LostStep;
    var pc := PcOf(s, id);
    if pc.Applying? && pc.k < |pc.plan.pending| && !a.LoseConnection? {
      ApplyReads(s, id, pc.plan, pc.k, pc.phase, a);
    } else {
      StepUnread(s, id, a);
    }
  }

  lemma AppendReads(db: Db, file: MigrationFile, sum: Digest, sql: string, id: nat, reading: Reading)
    requires FromReadings(db) && sum == Checksum(reading.first) && sql == reading.second
    ensures FromReadings(Append(db, file, sum, sql, id, reading))
  {
  }

  /** What was read of a file is what its checksum and its effect were made from. */
  ghost predicate ReadingsKept(s: State) {
    Inv(s) && FromReadings(s.db) && forall id: nat :: ReadingOk(PcOf(s, id), ReadingOf(s, id))
  }

  lemma StepKeepsReadings(s: State, e: Event)
    requires ReadingsKept(s) && Next(s, e).Some?
    ensures ReadingsKept(Next(s, e).value)
  {
    var t := Next(s, e).value;
    StepKeepsInv(s, e);
    match e
    case ChangeDisk(disk) =>
      hide Inv, FromReadings, ReadingOk;
      assert forall id: nat :: PcOf(t, id) == PcOf(s, id) && ReadingOf(t, id) == ReadingOf(s, id);
    case Act(id, a) =>
      StepFrame(s, id, a, t);
      ActorReads(s, id, a);
      var pc := PcOf(s, id);
      if Commits(s, id, t.db) {
        AppendReads(s.db, pc.plan.pending[pc.k], pc.phase.sum, pc.phase.sql, id, ReadingOf(s, id));
      }
      hide Next, Inv, PcOf, ReadingOf, ReadingOk, FromReadings;
      forall other: nat | other != id ensures ReadingOk(PcOf(t, other), ReadingOf(t, other)) {
        assert SameRunner(s, t, other);
      }
  }

  lemma {:induction false} ReachableReadings(disk: Disk, events: seq<Event>)
    requires Run(Init(disk), events).Some?
    ensures ReadingsKept(Run(Init(disk), events).value)
  {
    if events == [] {
      InitInv(disk);
    } else {
      ReachableReadings(disk, events[..|events| - 1]);
      StepKeepsReadings(Run(Init(disk), events[..|events| - 1]).value, events[|events| - 1]);
      hide ReadingsKept, Next;
    }
  }

  /** Whatever runners do and however the directory changes, the checksums in the log are those of the SQL that was run
      exactly when each committed file was read alike both times. */
  lemma ChecksumsTrueExactly(disk: Disk, events: seq<Event>)
    requires Run(Init(disk), events).Some?
    ensures var db := Run(Init(disk), events).value.db; ChecksumsTrue(db) <==> ReadAlike(db)
  {
    ReachableReadings(disk, events);
    hide Run, Inv;
  }

  /** The file is read twice, once for its checksum and once for its text. */
  predicate BetweenReads(pc: Pc) { pc.Applying? && pc.phase.Summed? && pc.k < |pc.plan.pending| }

  predicate KeepsFirst(s: State, id: nat, disk: Disk) {
    BetweenReads(PcOf(s, id)) ==>
      var name := PcOf(s, id).plan.pending[PcOf(s, id).k].fileName;
      name in disk.content ==> disk.content[name] == ReadingOf(s, id).first
  }

  /** A new directory in which no file that is between its two reads holds other bytes than those read first. */
  ghost predicate KeepsFirstReads(s: State, disk: Disk) {
    forall id: nat :: KeepsFirst(s, id, disk)
  }

  /** Every change of the directory leaves alone the files that are between their two reads. */
  ghost predicate QuietReads(s: State, events: seq<Event>) {
    events == [] ||
    var n := |events| - 1;
    && QuietReads(s, events[..n])
    && (events[n].ChangeDisk? && Run(s, events[..n]).Some? ==>
          KeepsFirstReads(Run(s, events[..n]).value, events[n].disk))
  }

  /** Nothing has been read in two versions, and nothing is about to be. */
  ghost predicate ReadsAgree(s: State) {
    && ReadAlike(s.db) && KeepsFirstReads(s, s.disk)
    && forall id: nat :: SecondAsFirst(PcOf(s, id), ReadingOf(s, id))
  }

  predicate SecondAsFirst(pc: Pc, reading: Reading) {
    pc.Applying? && !pc.phase.Between? && !pc.phase.Summed? && !pc.phase.Undoing? ==> reading.first == reading.second
  }

  lemma ApplyAgrees(s: State, id: nat, plan: Plan, k: nat, phase: Phase, a: Action)
    requires PcOf(s, id) == Applying(plan, k, phase) && k < |plan.pending| && ApplyStep(s, id, plan, k, phase, a).Some?
    requires SecondAsFirst(PcOf(s, id), ReadingOf(s, id)) && KeepsFirst(s, id, s.disk)
    ensures var t := ApplyStep(s, id, plan, k, phase, a).value;
            SecondAsFirst(PcOf(t, id), ReadingOf(t, id)) && KeepsFirst(t, id, s.disk)
  {
    hide HasVersion, Publish, SessionOf;
  }

  lemma ActorAgrees(s: State, id: nat, a: Action)
    requires Next(s, Act(id, a)).Some? && SecondAsFirst(PcOf(s, id), ReadingOf(s, id))
    requires KeepsFirst(s, id, s.disk)
    ensures var t := Next(s, Act(id, a)).value;
            SecondAsFirst(PcOf(t, id), ReadingOf(t, id)) && KeepsFirst(t, id, s.disk)
  {
    hide PcOf, ReadingOf, ApplyStep, SetupStep, CheckStep, ExitStep, LostStep;
    var pc := PcOf(s, id);
    if pc.Applying? && pc.k < |pc.plan.pending| && !a.LoseConnection? {
      hide KeepsFirst, SecondAsFirst;
      ApplyAgrees(s, id, pc.plan, pc.k, pc.phase, a);
    } else {
      StepUnread(s, id, a);
    }
  }

  lemma StepAgrees(s: State, id: nat, a: Action)
    requires Inv(s) && ReadsAgree(s) && Next(s, Act(id, a)).Some?
    ensures ReadsAgree(Next(s, Act(id, a)).value)
  {
    var t := Next(s, Act(id, a)).value;
    StepKeepsInv(s, Act(id, a));
    StepFrame(s, id, a, t);
    ActorAgrees(s, id, a);
    hide Next, Inv, PcOf, ReadingOf, BetweenReads;
    forall other: nat ensures KeepsFirst(t, other, t.disk) && SecondAsFirst(PcOf(t, other), ReadingOf(t, other)) {
      if other != id {
        assert SameRunner(s, t, other) && KeepsFirst(s, other, s.disk);
      }
    }
  }

  lemma ChangeAgrees(s: State, changed: Disk)
    requires ReadsAgree(s) && KeepsFirstReads(s, changed)
    ensures ReadsAgree(s.(disk := changed))
  {
    var t := s.(disk := changed);
    forall id: nat ensures KeepsFirst(t, id, t.disk) && SecondAsFirst(PcOf(t, id), ReadingOf(t, id)) {
      assert KeepsFirst(s, id, changed) && SecondAsFirst(PcOf(s, id), ReadingOf(s, id));
      assert PcOf(t, id) == PcOf(s, id) && ReadingOf(t, id) == ReadingOf(s, id);
    }
  }

  /** As long as the files between their reads are left alone, every checksum is that of the bytes that were run. */
  lemma {:induction false} RowsMatchEffects(disk: Disk, events: seq<Event>)
    requires QuietReads(Init(disk), events) && Run(Init(disk), events).Some?
    ensures ReadsAgree(Run(Init(disk), events).value) && ChecksumsTrue(Run(Init(disk), events).value.db)
  {
    ChecksumsTrueExactly(disk, events);
    hide ChecksumsTrue;
    if events == [] {
    } else {
      var n := |events| - 1;
      RowsMatchEffects(disk, events[..n]);
      ReachableInv(disk, events[..n]);
      var t := Run(Init(disk), events[..n]).value;
      if events[n].Act? {
        StepAgrees(t, events[n].id, events[n].action);
      } else {
        hide ReadsAgree;
        ChangeAgrees(t, events[n].disk);
      }
    }
  }

  /** A reached state in which a runner is between its two reads, and other bytes under the file's name now: the run can
      go on to a row whose checksum is not that of what was run. */
  lemma ChangeBetweenReads(disk: Disk, events: seq<Event>, id: nat, changed: Disk)
    requires Run(Init(disk), events).Some? && BetweenReads(PcOf(Run(Init(disk), events).value, id))
    requires var Applying(plan, k, phase) := PcOf(Run(Init(disk), events).value, id);
             var name := plan.pending[k].fileName;
             name in changed.content && Checksum(changed.content[name]) != phase.sum
    ensures exists longer ::
              events <= longer && Run(Init(disk), longer).Some? && !ChecksumsTrue(Run(Init(disk), longer).value.db)
  {
    var s := Run(Init(disk), events).value;
    var Applying(plan, k, phase) := PcOf(s, id);
    var sum, sql := phase.sum, changed.content[plan.pending[k].fileName];
    ReachableInv(disk, events);
    NotYetApplied(s, id, plan, k, phase);
    ChangeNext(s, changed, id);
    hide Run, Next, HasVersion, Checksum, Inv, PcOf, SessionOf, SessionOk;
    var es, t := OneMore(disk, events, s, ChangeDisk(changed));
    ApplyNext(t, id, plan, k, Summed(sum));
    es, t := Advance(disk, es, t, id, ReadSql, Applying(plan, k, Loaded(sum, sql)), s.db);
    es, t := CommitFile(disk, es, t, id, plan, k, sum, sql);
    assert t.db.rows[|s.db.rows|].checksum == sum && t.db.effects[|s.db.effects|].sql == sql;
  }

  /** One step of a run from the start. */
  lemma Advance(disk: Disk, events: seq<Event>, t: State, id: nat, a: Action, pc: Pc, db: Db)
      returns (events': seq<Event>, t': State)
    requires Run(Init(disk), events) == Some(t) && Leads(t, id, a, pc, db)
    ensures events <= events' && Run(Init(disk), events') == Some(t')
    ensures PcOf(t', id) == pc && t'.db == db && t'.disk == t.disk && SessionOk(pc, SessionOf(t', id))
  {
    hide Run, Next, PcOf, SessionOf, SessionOk;
    events', t' := OneMore(disk, events, t, Act(id, a));
  }

  /** The transaction of one file, as a part of a run from the start. */
  lemma CommitFile(disk: Disk, events: seq<Event>, t: State, id: nat, plan: Plan, k: nat, sum: Digest, sql: string)
      returns (events': seq<Event>, t': State)
    requires Run(Init(disk), events) == Some(t) && SessionOk(PcOf(t, id), SessionOf(t, id))
    requires PcOf(t, id) == Applying(plan, k, Loaded(sum, sql)) && k < |plan.pending|
    requires plan.pending[k].fileName in t.disk.content && !HasVersion(t.db.rows, plan.pending[k].version)
    ensures events <= events' && Run(Init(disk), events') == Some(t')
    ensures t'.db.rows == t.db.rows + [Row(plan.pending[k].version, plan.pending[k].slug, sum)]
    ensures t'.db.effects == t.db.effects + [Effect(plan.pending[k].version, sql)]
  {
    hide Run, Init, Next, HasVersion, PcOf, SessionOf, SessionOk, Leads;
    ApplyNext(t, id, plan, k, Loaded(sum, sql));
    events', t' := Advance(disk, events, t, id, Begin, Applying(plan, k, Begun(sum, sql)), t.db);
    ApplyNext(t', id, plan, k, Begun(sum, sql));
    events', t' := Advance(disk, events', t', id, RunSql(true), Applying(plan, k, Ran(sum, sql)), t.db);
    ApplyNext(t', id, plan, k, Ran(sum, sql));
    events', t' := Advance(disk, events', t', id, InsertRow(true), Applying(plan, k, Inserted(sum, sql)), t.db);
    ApplyNext(t', id, plan, k, Inserted(sum, sql));
    var db := Append(t.db, plan.pending[k], sum, sql, id, ReadingOf(t', id));
    events', t' := Advance(disk, events', t', id, Commit(true), Applying(plan, k + 1, Between), db);
  }

  lemma ChangeNext(s: State, changed: Disk, id: nat)
    ensures var t := s.(disk := changed);
            && Next(s, ChangeDisk(changed)) == Some(t)
            && PcOf(t, id) == PcOf(s, id) && SessionOf(t, id) == SessionOf(s, id)
  {
  }

  /** The file a runner is applying has no row yet. */
  lemma NotYetApplied(s: State, id: nat, plan: Plan, k: nat, phase: Phase)
    requires Inv(s) && PcOf(s, id) == Applying(plan, k, phase) && k < |plan.pending|
    ensures !HasVersion(s.db.rows, plan.pending[k].version) && SessionOk(PcOf(s, id), SessionOf(s, id))
    ensures |s.db.rows| == |s.db.effects|
  {
    assert PcOk(PcOf(s, id), id, s.db);
    hide DbOk;
    forall r | r in s.db.rows ensures r.version != plan.pending[k].version {
      var i :| 0 <= i < |s.db.rows| && s.db.rows[i] == r;
      RowsBelow(plan, k, id, s.db, i);
    }
    assert |s.db.rows| == |s.db.effects| by { assert DbOk(s.db); LogLengths(s.db); }
  }

  lemma LogLengths(db: Db)
    requires DbOk(db)
    ensures |db.rows| == |db.effects|
  {
  }

  lemma OneMore(disk: Disk, events: seq<Event>, t: State, e: Event) returns (events': seq<Event>, t': State)
    requires Run(Init(disk), events) == Some(t) && Next(t, e).Some?
    ensures events <= events' && Run(Init(disk), events') == Some(t') && t' == Next(t, e).value
  {
    t' := Next(t, e).value;
    events' := events + [e];
    assert events'[..|events|] == events;
    hide Next;
  }

  /** It does happen: on any readable directory that has a file, some run ends in a false checksum. */
  lemma FalseChecksum(disk: Disk, files: seq<MigrationFile>)
    requires Lists(disk, files) && Readable(disk, files) && files != []
    ensures exists events :: Run(Init(disk), events).Some? && !ChecksumsTrue(Run(Init(disk), events).value.db)
  {
    var s := Init(disk);
    InitExact(disk, files);
    assert s.lock == None && PcOf(s, 0) == Idle && s.db.rows == [];
    hide Init, Next, Exact, Readable, Quietly, Lists, SessionOk, SessionOf, HasVersion;
    var events, t := CleanSetup(s, 0, disk, files);
    events, t := CleanChecks(s, events, t, 0, 0, disk, files);
    var plan := Plan(files, [], files[0..]);
    NextFileIsNew(t, 0, plan, 0, Between, disk, files);
    ApplyNext(t, 0, plan, 0, Between);
    var name := plan.pending[0].fileName;
    var content := t.disk.content[name];
    events, t := CleanStep(s, events, t, 0, ReadChecksum, plan, 0, Between,
                           Applying(plan, 0, Summed(Checksum(content))), t.db, disk, files);
    QuietlyRuns(s, events, t);
    hide Leads, PcOf;
    ChangeBetweenReads(disk, events, 0, disk.(content := disk.content[name := content + "x"]));
  }

  lemma QuietlyRuns(s: State, events: seq<Event>, t: State)
    requires Quietly(s, events, t)
    ensures Run(s, events) == Some(t)
  {
  }
}
