/** update(code, patch) as a function of the database: find the subject
    case-insensitively, set the given fields, optionally rebuild its groups
    from `classList`, optionally replace its schedules from `classes`. Any
    statement failure or exception rolls the whole update back. */
module Update {
  import opened Common
  import opened Tables
  import opened Records
  import opened Ingest

  /** The fields of the patch; `None` is a field the request leaves out. */
  datatype Patch = Patch(
    description: Option<string>,
    semester: Option<string>,
    multiClass: Option<bool>,
    greve: Option<bool>,
    classList: Option<seq<string>>,
    classes: Option<seq<NestedSchedule>>)

  datatype Updated = Updated(name: string, description: Option<string>, semester: Option<string>,
                             schedules: Option<nat>)

  datatype UpdateReport = UpdateReport(updated: Option<Updated>, errors: seq<Entry>)

  /** The SET list the patch gives, in the order the source builds it. */
  function AssignmentsOf(p: Patch): (r: seq<Assignment>)
    ensures |r| <= 4
    ensures r == [] <==> p.description.None? && p.semester.None? && p.multiClass.None? && p.greve.None?
  {
    (if p.description.Some? then [SetName(p.description.value)] else [])
    + (if p.semester.Some? then [SetSemester(p.semester.value)] else [])
    + (if p.multiClass.Some? then [SetMultiClass(p.multiClass.value)] else [])
    + (if p.greve.Some? then [SetOnStrike(p.greve.value)] else [])
  }

  /** An independent statement of what the SET list does to a row: each
      field the patch gives replaces the stored one. */
  function Patched(row: SubjectRow, p: Patch): SubjectRow {
    SubjectRow(row.id, row.code,
               if p.description.Some? then p.description.value else row.name,
               if p.semester.Some? then p.semester.value else row.semester,
               if p.multiClass.Some? then p.multiClass.value else row.multiClass,
               if p.greve.Some? then p.greve.value else row.onStrike)
  }

  /** The groups a `classList` rebuild creates: the list when the patch's
      own `multiClass` is true and the list is not empty, else "DEFAULT". */
  function RebuildCodes(p: Patch): seq<string> {
    if p.multiClass == Some(true) && p.classList.Some? && |p.classList.value| > 0 then p.classList.value
    else [DefaultGroup]
  }

  /** The group-code-to-id map read back with `SELECT id, group_code`. */
  function GroupIdMap(rows: seq<GroupRow>): map<string, nat>
    decreases |rows|
  {
    if rows == [] then map[]
    else GroupIdMap(rows[..|rows| - 1])[rows[|rows| - 1].groupCode := rows[|rows| - 1].id]
  }

  /** Delete the subject's schedules (through its groups) and its groups,
      then insert the new groups. */
  function RebuildGroups(db: Db, subjectId: nat, codes: seq<string>): Result<Db, Fault> {
    var cleared := DeleteGroupsOf(DeleteSchedulesOfGroupsOf(db, subjectId), subjectId);
    match GroupLoop(cleared, subjectId, codes, map[])
    case Threw(_, f) => Err(f)
    case Done(g) => Ok(g.0)
  }

  /** Read the subject's groups, delete its schedules, then insert the new
      schedules with caches of their own; schedules whose group is missing
      are reported under `code`. */
  function RebuildSchedules(db: Db, subjectId: nat, code: string, classes: seq<NestedSchedule>)
    : Result<(Db, seq<Entry>), Fault>
  {
    var ids := GroupIdMap(GroupsOf(db, subjectId));
    var cleared := DeleteSchedulesOf(db, subjectId);
    match ScheduleLoop(Work(cleared, map[], map[], []), subjectId, code, ids, classes)
    case Threw(_, f) => Err(f)
    case Done(w) => Ok((w.db, w.errors))
  }

  function UpdateSpec(db: Db, code: string, p: Patch): Result<(Db, UpdateReport), Fault> {
    match FirstSubjectIdCI(db.subjects, code)
    case None => Ok((db, UpdateReport(None, [Entry(code, SubjectNotFound)])))
    case Some(subjectId) =>
      var assignments := AssignmentsOf(p);
      var r1 := if assignments == [] then Ok(db) else UpdateSubjects(db, code, assignments);
      if r1.Err? then Err(Violated(r1.error))
      else UpdateGroupsAndClasses(r1.value, subjectId, code, p)
  }

  /** What follows the UPDATE of the fields: the `classList` rebuild, then
      the `classes` replacement. */
  function UpdateGroupsAndClasses(db: Db, subjectId: nat, code: string, p: Patch): Result<(Db, UpdateReport), Fault> {
    var r2 := if p.classList.Some? then RebuildGroups(db, subjectId, RebuildCodes(p)) else Ok(db);
    if r2.Err? then Err(r2.error)
    else UpdateClasses(r2.value, code, subjectId, p)
  }

  /** The `classes` replacement and the report. */
  function UpdateClasses(db: Db, code: string, subjectId: nat, p: Patch): Result<(Db, UpdateReport), Fault> {
    var r3 := if p.classes.Some? then RebuildSchedules(db, subjectId, code, p.classes.value) else Ok((db, []));
    if r3.Err? then Err(r3.error)
    else
      var schedules := if p.classes.Some? then Some(|p.classes.value|) else None;
      Ok((r3.value.0, UpdateReport(Some(Updated(code, p.description, p.semester, schedules)), r3.value.1)))
  }
}
