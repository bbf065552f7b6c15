/** delete(code) and clean() as functions of the database. */
module Maintenance {
  import opened Common
  import opened Tables

  /** delete's four statements, in order, outside any transaction: the
      subject row by exact code (cascading to its groups and schedules), the
      groups and then the schedules of subjects with that code, and the
      subject row once more. */
  function DeleteSpec(db: Db, code: string): Db {
    DeleteSubject(DeleteSchedulesOfCode(DeleteGroupsOfCode(DeleteSubject(db, code), code), code), code)
  }

  /** clean's five statements in one transaction; the first failure rolls
      back. */
  function CleanSpec(db: Db): Result<Db, Violation> {
    var r1 := DeleteAll(db, SchedulesTable);
    if r1.Err? then Err(r1.error) else
    var r2 := DeleteAll(r1.value, GroupsTable);
    if r2.Err? then Err(r2.error) else
    var r3 := DeleteAll(r2.value, SubjectsTable);
    if r3.Err? then Err(r3.error) else
    var r4 := DeleteAll(r3.value, TeachersTable);
    if r4.Err? then Err(r4.error) else
    DeleteAll(r4.value, ClassroomsTable)
  }

  /** Deleting by a code no subject has deletes nothing. */
  lemma DeleteAbsentCode(d: Db, code: string)
    requires !CodeTaken(d, code)
    ensures DeleteSubject(d, code) == d
    ensures DeleteGroupsOfCode(d, code) == d
    ensures DeleteSchedulesOfCode(d, code) == d
  {
    var gone := set s | s in d.subjects && s.code == code :: s.id;
    assert gone == {};
    var goneGroups := set g | g in d.groups && g.subjectId in gone :: g.id;
    assert goneGroups == {};
    FilterKeepsAll(d.subjects, (s: SubjectRow) => s.code != code);
    FilterKeepsAll(d.groups, (g: GroupRow) => g.subjectId !in gone);
    FilterKeepsAll(d.schedules, (s: ScheduleRow) => s.subjectId !in gone && s.groupId !in goneGroups);
    FilterKeepsAll(d.schedules, (s: ScheduleRow) => s.groupId !in goneGroups);
    FilterKeepsAll(d.schedules, (s: ScheduleRow) => s.subjectId !in gone);
  }

  /** After the first statement no subject has the code, so the last three
      statements delete nothing. */
  lemma DeleteTailIsNoop(db: Db, code: string)
    ensures DeleteSpec(db, code) == DeleteSubject(db, code)
  {
    var d := DeleteSubject(db, code);
    assert !CodeTaken(d, code);
    DeleteAbsentCode(d, code);
  }

  /** What delete leaves: no subject with the code, every other subject,
      no group or schedule of a deleted subject, every group of another
      subject, every schedule of another subject (when each schedule's
      group is its subject's), the teachers, classrooms and sequences as
      they were, and the schema constraints and the group-belongs-to-subject
      invariant intact. */
  lemma DeleteRemoves(db: Db, code: string)
    requires Valid(db)
    ensures var d := DeleteSpec(db, code);
      && !CodeTaken(d, code)
      && (forall s :: s in db.subjects && s.code != code ==> s in d.subjects)
      && (forall g :: g in d.groups ==> g.subjectId !in SubjectIdsWithCode(db, code))
      && (forall s :: s in d.schedules ==> s.subjectId !in SubjectIdsWithCode(db, code))
      && (forall g :: g in db.groups && g.subjectId !in SubjectIdsWithCode(db, code) ==> g in d.groups)
      && (GroupsMatch(db) ==>
            forall s :: s in db.schedules && s.subjectId !in SubjectIdsWithCode(db, code) ==> s in d.schedules)
      && d.teachers == db.teachers && d.classrooms == db.classrooms && d.serials == db.serials
      && Valid(d)
      && (GroupsMatch(db) ==> GroupsMatch(d))
  {
    DeleteTailIsNoop(db, code);
    DeleteSubjectValid(db, code);
    var gone := SubjectIdsWithCode(db, code);
    var goneGroups := set g | g in db.groups && g.subjectId in gone :: g.id;
    var d := DeleteSubject(db, code);
    if GroupsMatch(db) {
      forall s | s in db.schedules && s.subjectId !in gone ensures s in d.schedules {
        var g :| g in db.groups && g.id == s.groupId && g.subjectId == s.subjectId;
        assert s.groupId !in goneGroups;
      }
    }
  }

  /** clean always succeeds and empties every table; the id sequences keep
      their values. */
  lemma CleanEmpties(db: Db)
    ensures CleanSpec(db) == Ok(Db([], [], [], [], [], db.serials))
  {
    CleanOrderSucceeds(db);
  }
}
