/** createClasses as a function of the database and the batch: each subject
    is handled on its own; a subject that fails is reported and the rows
    written for it before the failure stay. Only a `null` batch item aborts
    the whole batch (the error handler itself throws), which rolls back. */
module Ingest {
  import opened Common
  import opened Tables
  import opened PeriodCodec
  import opened Records
  import opened Resolver

  /** The state threaded through one run: the tables, the teacher and
      classroom name caches shared by the whole batch, and the error list. */
  datatype Work = Work(db: Db, teacherIds: map<string, nat>, classroomIds: map<string, nat>, errors: seq<Entry>)

  /** A step either completes or throws; a throw keeps the state reached. */
  datatype Outcome<S> = Done(state: S) | Threw(state: S, fault: Fault)

  datatype CreatedEntry = CreatedEntry(name: string, description: string, semester: string, schedules: nat)

  datatype Batch = Batch(w: Work, existing: set<string>, created: seq<CreatedEntry>, skipped: seq<Entry>)

  datatype CreateReport = CreateReport(created: seq<CreatedEntry>, skipped: seq<Entry>, errors: seq<Entry>)

  /** The schedule row of one nested schedule once its teacher, classroom and
      group are known: parsed week day and the first and last period. */
  function ScheduleInsert(db: Db, subjectId: nat, groupId: nat, teacherId: nat, classroomId: nat,
                          s: NestedSchedule): Result<(Db, nat), Violation>
    requires s.period.Some?
  {
    var ends := Collapse(s.period.value);
    InsertSchedule(db, subjectId, groupId, teacherId, classroomId, ParseOptional(s.weekDay), ends.0, ends.1)
  }

  /** One schedule of a subject: resolve the teacher, then the classroom,
      then look up the group by `whichClass || "DEFAULT"`; a missing group is
      reported under `name` and the schedule skipped; otherwise the row is
      inserted. */
  function ScheduleStep(w: Work, subjectId: nat, name: string, groupIds: map<string, nat>,
                        s: NestedSchedule): Outcome<Work>
  {
    match Resolve(w.db, Teachers, w.teacherIds, s.teacher)
    case Err(v) => Threw(w, Violated(v))
    case Ok(t) =>
      var w1 := w.(db := t.db, teacherIds := t.cache);
      match Resolve(w1.db, Classrooms, w1.classroomIds, s.classroom)
      case Err(v) => Threw(w1, Violated(v))
      case Ok(c) =>
        var w2 := w1.(db := c.db, classroomIds := c.cache);
        var code := GroupCodeOf(s);
        if code !in groupIds then Done(w2.(errors := w2.errors + [Entry(name, GroupNotFound(code))]))
        else if s.period.None? then Threw(w2, TypeError)
        else
          match ScheduleInsert(w2.db, subjectId, groupIds[code], t.id, c.id, s)
          case Err(v) => Threw(w2, Violated(v))
          case Ok(res) => Done(w2.(db := res.0))
  }

  /** The schedules in order, stopping at the first that throws. */
  function ScheduleLoop(w: Work, subjectId: nat, name: string, groupIds: map<string, nat>,
                        ss: seq<NestedSchedule>): Outcome<Work>
    decreases |ss|
  {
    if ss == [] then Done(w)
    else
      match ScheduleStep(w, subjectId, name, groupIds, ss[0])
      case Threw(w1, f) => Threw(w1, f)
      case Done(w1) => ScheduleLoop(w1, subjectId, name, groupIds, ss[1..])
  }

  /** The group codes in order, each inserted for the subject and recorded
      in the code-to-id map, stopping at the first insert that fails. */
  function GroupLoop(db: Db, subjectId: nat, codes: seq<string>, ids: map<string, nat>)
    : Outcome<(Db, map<string, nat>)>
    decreases |codes|
  {
    if codes == [] then Done((db, ids))
    else
      match InsertGroup(db, subjectId, codes[0])
      case Err(v) => Threw((db, ids), Violated(v))
      case Ok(res) => GroupLoop(res.0, subjectId, codes[1..], ids[codes[0] := res.1])
  }

  /** The groups createClasses gives a new subject: its `classList` when
      it is multi-class and has one (even an empty one), else one "DEFAULT". */
  function GroupCodesFor(d: NestedSubject): seq<string> {
    if d.multiClass && d.classList.Some? then d.classList.value else [DefaultGroup]
  }

  function ClassesOf(d: NestedSubject): seq<NestedSchedule> {
    if d.classes.Some? then d.classes.value else []
  }

  function Fail(b: Batch, db: Db, name: string, r: Reason): Batch {
    b.(w := b.w.(db := db, errors := b.w.errors + [Entry(name, r)]))
  }

  /** One item of the batch whose value is an object. */
  function CreateOne(b: Batch, d: NestedSubject): Batch {
    if d.name.None? then Fail(b, b.w.db, "Unknown", Thrown(TypeError))
    else
      var name := d.name.value;
      if Lower(name) in b.existing then b.(skipped := b.skipped + [Entry(name, AlreadyExists)])
      else if name == "" || !Truthy(d.description) || !Truthy(d.semester) then
        Fail(b, b.w.db, OrElse(d.name, "Unknown"), MissingFields)
      else CreateNew(b, d, name)
  }

  /** An item that passed the checks: its subject row, its groups and its
      schedules, or the entry for the statement that failed. */
  function CreateNew(b: Batch, d: NestedSubject, name: string): Batch
    requires Truthy(d.description) && Truthy(d.semester)
  {
    match InsertSubject(b.w.db, name, d.description.value, d.semester.value, d.multiClass, d.greve)
    case Err(v) => Fail(b, b.w.db, name, Thrown(Violated(v)))
    case Ok(res) => CreateGroups(b, d, name, res.0, res.1)
  }

  /** Once the subject row `subjectId` is in `db`: its groups, then its
      schedules. */
  function CreateGroups(b: Batch, d: NestedSubject, name: string, db: Db, subjectId: nat): Batch
    requires Truthy(d.description) && Truthy(d.semester)
  {
    match GroupLoop(db, subjectId, GroupCodesFor(d), map[])
    case Threw(g, f) => Fail(b, g.0, name, Thrown(f))
    case Done(g) => CreateSchedules(b, d, name, subjectId, g.0, g.1)
  }

  /** Once the groups are in `db` with ids `groupIds`: the schedules, and the
      "created" entry when all of them went through. */
  function CreateSchedules(b: Batch, d: NestedSubject, name: string, subjectId: nat, db: Db,
                           groupIds: map<string, nat>): Batch
    requires Truthy(d.description) && Truthy(d.semester)
  {
    match ScheduleLoop(b.w.(db := db), subjectId, name, groupIds, ClassesOf(d))
    case Threw(w1, f) => Fail(b.(w := w1), w1.db, name, Thrown(f))
    case Done(w1) =>
      Batch(w1, b.existing + {Lower(name)},
            b.created + [CreatedEntry(name, d.description.value, d.semester.value, |ClassesOf(d)|)],
            b.skipped)
  }

  /** The batch in order; a `null` item aborts it. */
  function RunBatch(b: Batch, items: seq<Option<NestedSubject>>): Result<Batch, Fault>
    decreases |items|
  {
    if items == [] then Ok(b)
    else if items[0].None? then Err(TypeError)
    else RunBatch(CreateOne(b, items[0].value), items[1..])
  }

  function StartBatch(db: Db): Batch {
    Batch(Work(db, map[], map[], []), LowerCodes(db), [], [])
  }

  /** createClasses: the tables after COMMIT and the report, or the fault that
      made it roll back. */
  function CreateClassesSpec(db: Db, items: seq<Option<NestedSubject>>): Result<(Db, CreateReport), Fault> {
    match RunBatch(StartBatch(db), items)
    case Err(f) => Err(f)
    case Ok(b) => Ok((b.w.db, CreateReport(b.created, b.skipped, b.w.errors)))
  }
}
