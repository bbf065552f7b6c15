/** The database the engine talks to: one mutable field per table and one
    serial counter per table. Each method is one SQL statement; its effect is
    the corresponding statement of `Tables` on the abstract value `Abs()`. */
module StoreModel {
  import opened Common
  import opened Tables

  /** `after` and `r` are what the insert statement `spec` yields from `before`:
      the new tables and the new id, or the old tables and the error. */
  ghost predicate Inserted(before: Db, spec: Result<(Db, nat), Violation>, after: Db, r: Result<nat, Violation>) {
    match spec
    case Ok(res) => after == res.0 && r == Ok(res.1)
    case Err(v) => after == before && r == Err(v)
  }

  /** The same for a statement that returns no id. */
  ghost predicate Applied(before: Db, spec: Result<Db, Violation>, after: Db, r: Option<Violation>) {
    match spec
    case Ok(d) => after == d && r == None
    case Err(v) => after == before && r == Some(v)
  }

  class Store {
    var subjects: seq<SubjectRow>
    var teachers: seq<NamedRow>
    var classrooms: seq<NamedRow>
    var groups: seq<GroupRow>
    var schedules: seq<ScheduleRow>
    var subjectSerial: nat
    var teacherSerial: nat
    var classroomSerial: nat
    var groupSerial: nat
    var scheduleSerial: nat

    function Abs(): Db
      reads this
    {
      Db(subjects, teachers, classrooms, groups, schedules,
         Serials(subjectSerial, teacherSerial, classroomSerial, groupSerial, scheduleSerial))
    }

    /** A freshly migrated database. */
    constructor ()
      ensures Abs() == Fresh
    {
      subjects, teachers, classrooms, groups, schedules := [], [], [], [], [];
      subjectSerial, teacherSerial, classroomSerial, groupSerial, scheduleSerial := 1, 1, 1, 1, 1;
    }

    /** ROLLBACK: the tables return to the state saved at BEGIN. */
    method Rollback(saved: Db)
      modifies this
      ensures Abs() == saved
    {
      subjects, teachers, classrooms, groups, schedules :=
        saved.subjects, saved.teachers, saved.classrooms, saved.groups, saved.schedules;
      subjectSerial, teacherSerial, classroomSerial, groupSerial, scheduleSerial :=
        saved.serials.subject, saved.serials.teacher, saved.serials.classroom,
        saved.serials.group, saved.serials.schedule;
    }

    /** `SELECT code FROM subjects`. */
    method SelectCodes() returns (codes: seq<string>)
      ensures codes == SubjectCodes(Abs())
    {
      codes := SubjectCodes(Abs());
    }

    /** `SELECT id FROM subjects WHERE LOWER(code) = LOWER($1)`, first row. */
    method SelectSubjectIdCI(code: string) returns (r: Option<nat>)
      ensures r == FirstSubjectIdCI(subjects, code)
    {
      r := FirstSubjectIdCI(subjects, code);
    }

    /** `SELECT id FROM teachers|classrooms WHERE name = $1`, first row. */
    method SelectNamed(k: Kind, name: Option<string>) returns (r: Option<nat>)
      ensures r == FindNamed(Named(Abs(), k), name)
    {
      r := FindNamed(Named(Abs(), k), name);
    }

    /** `SELECT id, group_code FROM class_groups WHERE subject_id = $1`. */
    method SelectGroupsOf(subjectId: nat) returns (rows: seq<GroupRow>)
      ensures rows == GroupsOf(Abs(), subjectId)
    {
      rows := GroupsOf(Abs(), subjectId);
    }

    method InsertSubject(code: string, name: string, semester: string, multiClass: bool, onStrike: bool)
      returns (r: Result<nat, Violation>)
      modifies this
      ensures Inserted(old(Abs()), Tables.InsertSubject(old(Abs()), code, name, semester, multiClass, onStrike), Abs(), r)
    {
      if |code| > CodeLength {
        r := Err(TooLong("code", CodeLength));
      } else if |name| > NameLength {
        r := Err(TooLong("name", NameLength));
      } else if |semester| > SemesterLength {
        r := Err(TooLong("semester", SemesterLength));
      } else if exists s :: s in subjects && s.code == code {
        r := Err(Unique("subjects_code_key"));
      } else {
        subjects := subjects + [SubjectRow(subjectSerial, code, name, semester, multiClass, onStrike)];
        r := Ok(subjectSerial);
        subjectSerial := subjectSerial + 1;
      }
    }

    method InsertNamed(k: Kind, name: Option<string>) returns (r: Result<nat, Violation>)
      modifies this
      ensures Inserted(old(Abs()), Tables.InsertNamed(old(Abs()), k, name), Abs(), r)
    {
      if name.None? {
        r := Err(NotNull("name"));
      } else if |name.value| > NameLength {
        r := Err(TooLong("name", NameLength));
      } else if k == Teachers {
        teachers := teachers + [NamedRow(teacherSerial, name.value)];
        r := Ok(teacherSerial);
        teacherSerial := teacherSerial + 1;
      } else {
        classrooms := classrooms + [NamedRow(classroomSerial, name.value)];
        r := Ok(classroomSerial);
        classroomSerial := classroomSerial + 1;
      }
    }

    method InsertGroup(subjectId: nat, groupCode: string) returns (r: Result<nat, Violation>)
      modifies this
      ensures Inserted(old(Abs()), Tables.InsertGroup(old(Abs()), subjectId, groupCode), Abs(), r)
    {
      if |groupCode| > GroupCodeLength {
        r := Err(TooLong("group_code", GroupCodeLength));
      } else if exists g :: g in groups && g.subjectId == subjectId && g.groupCode == groupCode {
        r := Err(Unique("unique_subject_group"));
      } else if !exists s :: s in subjects && s.id == subjectId {
        r := Err(ForeignKey("subject_id"));
      } else {
        groups := groups + [GroupRow(groupSerial, subjectId, groupCode)];
        r := Ok(groupSerial);
        groupSerial := groupSerial + 1;
      }
    }

    method InsertSchedule(subjectId: nat, groupId: nat, teacherId: nat, classroomId: nat,
                          weekDay: Option<int>, startPeriod: Option<int>, endPeriod: Option<int>)
      returns (r: Result<nat, Violation>)
      modifies this
      ensures Inserted(old(Abs()),
                       Tables.InsertSchedule(old(Abs()), subjectId, groupId, teacherId, classroomId,
                                             weekDay, startPeriod, endPeriod),
                       Abs(), r)
    {
      if !ScheduleValuesOk(weekDay, startPeriod, endPeriod)
         || !ScheduleRefsOk(Abs(), subjectId, groupId, teacherId, classroomId) {
        r := Err(ScheduleViolation(Abs(), subjectId, groupId, teacherId, classroomId,
                                   weekDay, startPeriod, endPeriod));
      } else {
        schedules := schedules + [ScheduleRow(scheduleSerial, subjectId, groupId, teacherId, classroomId,
                                              weekDay.value, startPeriod.value, endPeriod.value)];
        r := Ok(scheduleSerial);
        scheduleSerial := scheduleSerial + 1;
      }
    }

    method UpdateSubjects(code: string, assignments: seq<Assignment>) returns (r: Option<Violation>)
      modifies this
      ensures Applied(old(Abs()), Tables.UpdateSubjects(old(Abs()), code, assignments), Abs(), r)
    {
      var result := Tables.UpdateSubjects(Abs(), code, assignments);
      if result.Ok? {
        subjects := result.value.subjects;
        r := None;
      } else {
        r := Some(result.error);
      }
    }

    method DeleteSubject(code: string)
      modifies this
      ensures Abs() == Tables.DeleteSubject(old(Abs()), code)
    {
      var gone := set s | s in subjects && s.code == code :: s.id;
      var goneGroups := set g | g in groups && g.subjectId in gone :: g.id;
      subjects := Filter(subjects, (s: SubjectRow) => s.code != code);
      groups := Filter(groups, (g: GroupRow) => g.subjectId !in gone);
      schedules := Filter(schedules, (s: ScheduleRow) => s.subjectId !in gone && s.groupId !in goneGroups);
    }

    method DeleteGroupsOfCode(code: string)
      modifies this
      ensures Abs() == Tables.DeleteGroupsOfCode(old(Abs()), code)
    {
      var ids := set s | s in subjects && s.code == code :: s.id;
      var goneGroups := set g | g in groups && g.subjectId in ids :: g.id;
      groups := Filter(groups, (g: GroupRow) => g.subjectId !in ids);
      schedules := Filter(schedules, (s: ScheduleRow) => s.groupId !in goneGroups);
    }

    method DeleteSchedulesOfCode(code: string)
      modifies this
      ensures Abs() == Tables.DeleteSchedulesOfCode(old(Abs()), code)
    {
      var ids := set s | s in subjects && s.code == code :: s.id;
      schedules := Filter(schedules, (s: ScheduleRow) => s.subjectId !in ids);
    }

    method DeleteSchedulesOfGroupsOf(subjectId: nat)
      modifies this
      ensures Abs() == Tables.DeleteSchedulesOfGroupsOf(old(Abs()), subjectId)
    {
      var ids := set g | g in groups && g.subjectId == subjectId :: g.id;
      schedules := Filter(schedules, (s: ScheduleRow) => s.groupId !in ids);
    }

    method DeleteGroupsOf(subjectId: nat)
      modifies this
      ensures Abs() == Tables.DeleteGroupsOf(old(Abs()), subjectId)
    {
      var ids := set g | g in groups && g.subjectId == subjectId :: g.id;
      groups := Filter(groups, (g: GroupRow) => g.subjectId != subjectId);
      schedules := Filter(schedules, (s: ScheduleRow) => s.groupId !in ids);
    }

    method DeleteSchedulesOf(subjectId: nat)
      modifies this
      ensures Abs() == Tables.DeleteSchedulesOf(old(Abs()), subjectId)
    {
      schedules := Filter(schedules, (s: ScheduleRow) => s.subjectId != subjectId);
    }

    method DeleteAll(t: Table) returns (r: Option<Violation>)
      modifies this
      ensures Applied(old(Abs()), Tables.DeleteAll(old(Abs()), t), Abs(), r)
    {
      r := None;
      match t
      case SchedulesTable =>
        schedules := [];
      case GroupsTable =>
        groups, schedules := [], [];
      case SubjectsTable =>
        subjects, groups, schedules := [], [], [];
      case TeachersTable =>
        if exists s :: s in schedules && HasNamed(teachers, s.teacherId) {
          r := Some(ForeignKey("teacher_id"));
        } else {
          teachers := [];
        }
      case ClassroomsTable =>
        if exists s :: s in schedules && HasNamed(classrooms, s.classroomId) {
          r := Some(ForeignKey("classroom_id"));
        } else {
          classrooms := [];
        }
    }
  }
}
