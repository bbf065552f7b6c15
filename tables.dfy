/** The relational store as a value: the five tables (subjects, teachers,
    classrooms, class_groups, class_schedules), the next value of each
    table's serial id, and the statements the engine issues against them.
    Every statement that would break a schema constraint fails with a
    `Violation` and leaves the tables as they were. */
module Tables {
  import opened Common

  // Column widths and integer range of the schema.
  const CodeLength: nat := 10       // subjects.code varchar(10)
  const NameLength: nat := 255      // subjects.name, teachers.name, classrooms.name varchar(255)
  const SemesterLength: nat := 10   // subjects.semester varchar(10)
  const GroupCodeLength: nat := 10  // class_groups.group_code varchar(10)
  const IntMin: int := -0x8000_0000 // PostgreSQL `integer`
  const IntMax: int := 0x7fff_ffff

  datatype SubjectRow = SubjectRow(id: nat, code: string, name: string, semester: string,
                                   multiClass: bool, onStrike: bool)

  /** A row of `teachers` or of `classrooms`: both tables have the same shape. */
  datatype NamedRow = NamedRow(id: nat, name: string)

  datatype GroupRow = GroupRow(id: nat, subjectId: nat, groupCode: string)

  datatype ScheduleRow = ScheduleRow(id: nat, subjectId: nat, groupId: nat,
                                     teacherId: nat, classroomId: nat,
                                     weekDay: int, startPeriod: int, endPeriod: int)

  /** The next value of each table's `serial` id sequence. */
  datatype Serials = Serials(subject: nat, teacher: nat, classroom: nat, group: nat, schedule: nat)

  datatype Db = Db(subjects: seq<SubjectRow>, teachers: seq<NamedRow>, classrooms: seq<NamedRow>,
                   groups: seq<GroupRow>, schedules: seq<ScheduleRow>, serials: Serials)

  /** The two reference tables that are looked up by name. */
  datatype Kind = Teachers | Classrooms

  datatype Violation =
    | NotNull(column: string)
    | TooLong(column: string, limit: nat)
    | Unique(constraint: string)
    | ForeignKey(column: string)
    | Check(column: string)
    | InvalidInteger(column: string)  // `NaN` sent to an integer column
    | OutOfRange(column: string)      // outside the 32-bit integer range

  /** A freshly migrated database: no rows, every sequence at 1. */
  const Fresh: Db := Db([], [], [], [], [], Serials(1, 1, 1, 1, 1))

  function Named(db: Db, k: Kind): seq<NamedRow> {
    match k
    case Teachers => db.teachers
    case Classrooms => db.classrooms
  }

  function NextNamed(db: Db, k: Kind): nat {
    match k
    case Teachers => db.serials.teacher
    case Classrooms => db.serials.classroom
  }

  // ---------------------------------------------------------------------
  // Schema constraints
  // ---------------------------------------------------------------------

  predicate HasSubject(db: Db, id: nat) {
    exists s :: s in db.subjects && s.id == id
  }

  predicate HasGroup(db: Db, id: nat) {
    exists g :: g in db.groups && g.id == id
  }

  predicate HasNamed(rows: seq<NamedRow>, id: nat) {
    exists r :: r in rows && r.id == id
  }

  ghost predicate SubjectsValid(db: Db) {
    && 1 <= db.serials.subject
    && (forall s :: s in db.subjects ==>
          && 1 <= s.id < db.serials.subject
          && |s.code| <= CodeLength && |s.name| <= NameLength && |s.semester| <= SemesterLength)
    && (forall s, t :: s in db.subjects && t in db.subjects && (s.id == t.id || s.code == t.code) ==> s == t)
  }

  ghost predicate NamedValid(rows: seq<NamedRow>, next: nat) {
    && 1 <= next
    && (forall r :: r in rows ==> 1 <= r.id < next && |r.name| <= NameLength)
    && (forall r, q :: r in rows && q in rows && r.id == q.id ==> r == q)
  }

  ghost predicate GroupsValid(db: Db) {
    && 1 <= db.serials.group
    && (forall g :: g in db.groups ==>
          1 <= g.id < db.serials.group && |g.groupCode| <= GroupCodeLength && HasSubject(db, g.subjectId))
    && (forall g, h ::
          (g in db.groups && h in db.groups &&
           (g.id == h.id || (g.subjectId == h.subjectId && g.groupCode == h.groupCode))) ==> g == h)
  }

  ghost predicate ScheduleRowValid(db: Db, s: ScheduleRow) {
    && 1 <= s.id < db.serials.schedule
    && HasSubject(db, s.subjectId) && HasGroup(db, s.groupId)
    && HasNamed(db.teachers, s.teacherId) && HasNamed(db.classrooms, s.classroomId)
    && 1 <= s.weekDay <= 7 && 0 <= s.startPeriod <= s.endPeriod <= IntMax
  }

  ghost predicate SchedulesValid(db: Db) {
    && 1 <= db.serials.schedule
    && (forall s :: s in db.schedules ==> ScheduleRowValid(db, s))
    && (forall s, t :: s in db.schedules && t in db.schedules && s.id == t.id ==> s == t)
  }

  /** Every constraint the migrations declare: serial ids, unique subject
      code, unique (subject_id, group_code), column widths, the week-day and
      period checks, and every foreign key. */
  ghost predicate Valid(db: Db) {
    && SubjectsValid(db)
    && NamedValid(db.teachers, db.serials.teacher)
    && NamedValid(db.classrooms, db.serials.classroom)
    && GroupsValid(db)
    && SchedulesValid(db)
  }

  /** Not a schema constraint (no foreign key ties a schedule's group to its
      subject), but what the engine keeps: a schedule's group belongs to the
      schedule's own subject. */
  ghost predicate GroupsMatch(db: Db) {
    forall s :: s in db.schedules ==>
      exists g :: g in db.groups && g.id == s.groupId && g.subjectId == s.subjectId
  }

  // ---------------------------------------------------------------------
  // Queries
  // ---------------------------------------------------------------------

  predicate CodeTaken(db: Db, code: string) {
    exists s :: s in db.subjects && s.code == code
  }

  /** `SELECT code FROM subjects`. */
  function SubjectCodes(db: Db): (codes: seq<string>)
    ensures |codes| == |db.subjects|
    ensures forall i :: 0 <= i < |codes| ==> codes[i] == db.subjects[i].code
  {
    seq(|db.subjects|, i requires 0 <= i < |db.subjects| => db.subjects[i].code)
  }

  /** The lower-cased codes of all subjects. */
  function LowerCodes(db: Db): set<string> {
    set s | s in db.subjects :: Lower(s.code)
  }

  /** `SELECT id FROM subjects WHERE LOWER(code) = LOWER($1)`, first row. */
  function FirstSubjectIdCI(subjects: seq<SubjectRow>, code: string): (r: Option<nat>)
    ensures r.None? <==> forall s :: s in subjects ==> Lower(s.code) != Lower(code)
    ensures r.Some? ==> exists s :: s in subjects && s.id == r.value && Lower(s.code) == Lower(code)
  {
    if subjects == [] then None
    else if Lower(subjects[0].code) == Lower(code) then Some(subjects[0].id)
    else FirstSubjectIdCI(subjects[1..], code)
  }

  /** `SELECT id FROM teachers|classrooms WHERE name = $1`, first row. An
      absent name compares as SQL NULL and matches nothing. */
  function FindNamed(rows: seq<NamedRow>, name: Option<string>): (r: Option<nat>)
    ensures r.Some? ==> name.Some? && NamedRow(r.value, name.value) in rows
    ensures r.None? ==> name.None? || forall q :: q in rows ==> q.name != name.value
  {
    if name.None? || rows == [] then None
    else if rows[0].name == name.value then Some(rows[0].id)
    else FindNamed(rows[1..], name)
  }

  /** `SELECT id, group_code FROM class_groups WHERE subject_id = $1`. */
  function GroupsOf(db: Db, subjectId: nat): seq<GroupRow> {
    Filter(db.groups, (g: GroupRow) => g.subjectId == subjectId)
  }

  // ---------------------------------------------------------------------
  // INSERT statements
  // ---------------------------------------------------------------------

  /** `INSERT INTO subjects (code, name, semester, multi_class, on_strike)
      ... RETURNING id`. */
  function InsertSubject(db: Db, code: string, name: string, semester: string,
                         multiClass: bool, onStrike: bool): (r: Result<(Db, nat), Violation>)
    ensures r.Ok? <==>
      |code| <= CodeLength && |name| <= NameLength && |semester| <= SemesterLength && !CodeTaken(db, code)
    ensures r.Ok? ==> r.value.1 == db.serials.subject
    ensures r.Ok? && SubjectsValid(db) ==> !HasSubject(db, r.value.1)
    ensures r.Ok? && Valid(db) ==> Valid(r.value.0)
  {
    if |code| > CodeLength then Err(TooLong("code", CodeLength))
    else if |name| > NameLength then Err(TooLong("name", NameLength))
    else if |semester| > SemesterLength then Err(TooLong("semester", SemesterLength))
    else if CodeTaken(db, code) then Err(Unique("subjects_code_key"))
    else
      var id := db.serials.subject;
      var row := SubjectRow(id, code, name, semester, multiClass, onStrike);
      Ok((db.(subjects := db.subjects + [row], serials := db.serials.(subject := id + 1)), id))
  }

  /** `INSERT INTO teachers|classrooms (name) ... RETURNING id`. */
  function InsertNamed(db: Db, k: Kind, name: Option<string>): (r: Result<(Db, nat), Violation>)
    ensures r.Ok? <==> name.Some? && |name.value| <= NameLength
    ensures r.Ok? && Valid(db) ==> Valid(r.value.0)
  {
    if name.None? then Err(NotNull("name"))
    else if |name.value| > NameLength then Err(TooLong("name", NameLength))
    else
      var id := NextNamed(db, k);
      var row := NamedRow(id, name.value);
      Ok((match k
          case Teachers => db.(teachers := db.teachers + [row], serials := db.serials.(teacher := id + 1))
          case Classrooms => db.(classrooms := db.classrooms + [row], serials := db.serials.(classroom := id + 1)),
          id))
  }

  predicate GroupTaken(db: Db, subjectId: nat, groupCode: string) {
    exists g :: g in db.groups && g.subjectId == subjectId && g.groupCode == groupCode
  }

  /** `INSERT INTO class_groups (subject_id, group_code) ... RETURNING id`. */
  function InsertGroup(db: Db, subjectId: nat, groupCode: string): (r: Result<(Db, nat), Violation>)
    ensures r.Ok? <==>
      |groupCode| <= GroupCodeLength && !GroupTaken(db, subjectId, groupCode) && HasSubject(db, subjectId)
    ensures r.Ok? && Valid(db) ==> Valid(r.value.0)
  {
    if |groupCode| > GroupCodeLength then Err(TooLong("group_code", GroupCodeLength))
    else if GroupTaken(db, subjectId, groupCode) then Err(Unique("unique_subject_group"))
    else if !HasSubject(db, subjectId) then Err(ForeignKey("subject_id"))
    else
      var id := db.serials.group;
      Ok((db.(groups := db.groups + [GroupRow(id, subjectId, groupCode)],
              serials := db.serials.(group := id + 1)), id))
  }

  predicate InInt(x: int) {
    IntMin <= x <= IntMax
  }

  /** The value checks of a schedule row: each integer is a number (not
      `NaN`) in the 32-bit range, the week day is 1..7, start is not negative
      and end is not before start. */
  predicate ScheduleValuesOk(weekDay: Option<int>, startPeriod: Option<int>, endPeriod: Option<int>) {
    && weekDay.Some? && startPeriod.Some? && endPeriod.Some?
    && InInt(weekDay.value) && InInt(startPeriod.value) && InInt(endPeriod.value)
    && 1 <= weekDay.value <= 7 && 0 <= startPeriod.value <= endPeriod.value
  }

  predicate ScheduleRefsOk(db: Db, subjectId: nat, groupId: nat, teacherId: nat, classroomId: nat) {
    && HasSubject(db, subjectId) && HasGroup(db, groupId)
    && HasNamed(db.teachers, teacherId) && HasNamed(db.classrooms, classroomId)
  }

  /** The error PostgreSQL reports for a rejected schedule row: input errors
      first, then the check constraints, then the foreign keys. */
  function ScheduleViolation(db: Db, subjectId: nat, groupId: nat, teacherId: nat, classroomId: nat,
                             weekDay: Option<int>, startPeriod: Option<int>, endPeriod: Option<int>): Violation
  {
    if weekDay.None? then InvalidInteger("week_day")
    else if startPeriod.None? then InvalidInteger("start_period")
    else if endPeriod.None? then InvalidInteger("end_period")
    else if !InInt(weekDay.value) then OutOfRange("week_day")
    else if !InInt(startPeriod.value) then OutOfRange("start_period")
    else if !InInt(endPeriod.value) then OutOfRange("end_period")
    else if !(1 <= weekDay.value <= 7) then Check("week_day")
    else if startPeriod.value < 0 then Check("start_period")
    else if endPeriod.value < startPeriod.value then Check("end_period")
    else if !HasSubject(db, subjectId) then ForeignKey("subject_id")
    else if !HasGroup(db, groupId) then ForeignKey("class_group_id")
    else if !HasNamed(db.teachers, teacherId) then ForeignKey("teacher_id")
    else ForeignKey("classroom_id")
  }

  /** `INSERT INTO class_schedules (subject_id, class_group_id, teacher_id,
      classroom_id, week_day, start_period, end_period)`. The three integers
      arrive as the results of `parseInt`, so each may be `NaN`. */
  function InsertSchedule(db: Db, subjectId: nat, groupId: nat, teacherId: nat, classroomId: nat,
                          weekDay: Option<int>, startPeriod: Option<int>, endPeriod: Option<int>)
    : (r: Result<(Db, nat), Violation>)
    ensures r.Ok? <==>
      ScheduleValuesOk(weekDay, startPeriod, endPeriod) && ScheduleRefsOk(db, subjectId, groupId, teacherId, classroomId)
    ensures r.Ok? && Valid(db) ==> Valid(r.value.0)
  {
    if !ScheduleValuesOk(weekDay, startPeriod, endPeriod) || !ScheduleRefsOk(db, subjectId, groupId, teacherId, classroomId) then
      Err(ScheduleViolation(db, subjectId, groupId, teacherId, classroomId, weekDay, startPeriod, endPeriod))
    else
      var id := db.serials.schedule;
      var row := ScheduleRow(id, subjectId, groupId, teacherId, classroomId,
                             weekDay.value, startPeriod.value, endPeriod.value);
      var d := db.(schedules := db.schedules + [row], serials := db.serials.(schedule := id + 1));
      AppendScheduleValid(db, row);
      Ok((d, id))
  }

  lemma AppendScheduleValid(db: Db, row: ScheduleRow)
    requires row.id == db.serials.schedule
    requires ScheduleRefsOk(db, row.subjectId, row.groupId, row.teacherId, row.classroomId)
    requires 1 <= row.weekDay <= 7 && 0 <= row.startPeriod <= row.endPeriod <= IntMax
    ensures Valid(db) ==> Valid(db.(schedules := db.schedules + [row], serials := db.serials.(schedule := row.id + 1)))
  {
    if Valid(db) {
      var d := db.(schedules := db.schedules + [row], serials := db.serials.(schedule := row.id + 1));
      forall s | s in d.schedules ensures ScheduleRowValid(d, s) {
        if s in db.schedules {
          assert ScheduleRowValid(db, s);
        }
      }
    }
  }

  // ---------------------------------------------------------------------
  // UPDATE and DELETE statements
  // ---------------------------------------------------------------------

  /** One `SET` item of the subject patch. */
  datatype Assignment =
    | SetName(name: string)
    | SetSemester(semester: string)
    | SetMultiClass(multiClass: bool)
    | SetOnStrike(onStrike: bool)

  function Assign(row: SubjectRow, a: Assignment): SubjectRow {
    match a
    case SetName(n) => row.(name := n)
    case SetSemester(s) => row.(semester := s)
    case SetMultiClass(m) => row.(multiClass := m)
    case SetOnStrike(o) => row.(onStrike := o)
  }

  function AssignAll(row: SubjectRow, assignments: seq<Assignment>): SubjectRow
    decreases |assignments|
  {
    if assignments == [] then row
    else AssignAll(Assign(row, assignments[0]), assignments[1..])
  }

  predicate Fits(a: Assignment) {
    match a
    case SetName(n) => |n| <= NameLength
    case SetSemester(s) => |s| <= SemesterLength
    case _ => true
  }

  /** `UPDATE subjects SET ... WHERE LOWER(code) = LOWER($n)`: every subject
      whose code matches case-insensitively gets the assignments. */
  function UpdateSubjects(db: Db, code: string, assignments: seq<Assignment>): (r: Result<Db, Violation>)
    ensures r.Ok? <==>
      (forall a :: a in assignments ==> Fits(a)) || (forall s :: s in db.subjects ==> Lower(s.code) != Lower(code))
    ensures r.Ok? ==> r.value.(subjects := db.subjects) == db
    ensures r.Ok? ==> |r.value.subjects| == |db.subjects|
    ensures r.Ok? ==> forall i :: 0 <= i < |db.subjects| ==>
      r.value.subjects[i] ==
        (if Lower(db.subjects[i].code) == Lower(code) then AssignAll(db.subjects[i], assignments) else db.subjects[i])
  {
    var hit := exists s :: s in db.subjects && Lower(s.code) == Lower(code);
    if hit && exists a :: a in assignments && a.SetName? && !Fits(a) then
      Err(TooLong("name", NameLength))
    else if hit && exists a :: a in assignments && !Fits(a) then
      Err(TooLong("semester", SemesterLength))
    else
      Ok(db.(subjects := seq(|db.subjects|, i requires 0 <= i < |db.subjects| =>
        if Lower(db.subjects[i].code) == Lower(code) then AssignAll(db.subjects[i], assignments)
        else db.subjects[i])))
  }

  /** `DELETE FROM subjects WHERE code = $1` (exact match), with the
      cascade to the subject's groups and to the schedules of the subject and
      of those groups. */
  function DeleteSubject(db: Db, code: string): (r: Db)
    ensures !CodeTaken(r, code)
    ensures forall s :: s in db.subjects && s.code != code ==> s in r.subjects
    ensures r.teachers == db.teachers && r.classrooms == db.classrooms && r.serials == db.serials
  {
    var gone := set s | s in db.subjects && s.code == code :: s.id;
    var goneGroups := set g | g in db.groups && g.subjectId in gone :: g.id;
    db.(subjects := Filter(db.subjects, (s: SubjectRow) => s.code != code),
        groups := Filter(db.groups, (g: GroupRow) => g.subjectId !in gone),
        schedules := Filter(db.schedules, (s: ScheduleRow) => s.subjectId !in gone && s.groupId !in goneGroups))
  }

  /** `DELETE FROM class_schedules WHERE class_group_id IN (SELECT id FROM
      class_groups WHERE subject_id = $1)`. */
  function DeleteSchedulesOfGroupsOf(db: Db, subjectId: nat): Db {
    var ids := set g | g in db.groups && g.subjectId == subjectId :: g.id;
    db.(schedules := Filter(db.schedules, (s: ScheduleRow) => s.groupId !in ids))
  }

  /** `DELETE FROM class_groups WHERE subject_id = $1`, with the cascade to
      the schedules of those groups. */
  function DeleteGroupsOf(db: Db, subjectId: nat): Db {
    var ids := set g | g in db.groups && g.subjectId == subjectId :: g.id;
    db.(groups := Filter(db.groups, (g: GroupRow) => g.subjectId != subjectId),
        schedules := Filter(db.schedules, (s: ScheduleRow) => s.groupId !in ids))
  }

  /** `DELETE FROM class_schedules WHERE subject_id = $1`. */
  function DeleteSchedulesOf(db: Db, subjectId: nat): Db {
    db.(schedules := Filter(db.schedules, (s: ScheduleRow) => s.subjectId != subjectId))
  }

  /** The ids of the subjects whose code is exactly `code`. */
  function SubjectIdsWithCode(db: Db, code: string): set<nat> {
    set s | s in db.subjects && s.code == code :: s.id
  }

  /** `DELETE FROM class_groups WHERE subject_id IN (SELECT id FROM subjects
      WHERE code = $1)`, with the cascade to the schedules of those groups. */
  function DeleteGroupsOfCode(db: Db, code: string): Db {
    var ids := SubjectIdsWithCode(db, code);
    var goneGroups := set g | g in db.groups && g.subjectId in ids :: g.id;
    db.(groups := Filter(db.groups, (g: GroupRow) => g.subjectId !in ids),
        schedules := Filter(db.schedules, (s: ScheduleRow) => s.groupId !in goneGroups))
  }

  /** `DELETE FROM class_schedules WHERE subject_id IN (SELECT id FROM
      subjects WHERE code = $1)`. */
  function DeleteSchedulesOfCode(db: Db, code: string): Db {
    var ids := SubjectIdsWithCode(db, code);
    db.(schedules := Filter(db.schedules, (s: ScheduleRow) => s.subjectId !in ids))
  }

  /** The tables a `DELETE FROM <table>` without a WHERE clause can empty. */
  datatype Table = SubjectsTable | TeachersTable | ClassroomsTable | GroupsTable | SchedulesTable

  /** `DELETE FROM <table>`: subjects cascade to groups and schedules, groups
      to schedules; teachers and classrooms are RESTRICT, so the statement
      fails while a schedule still refers to one of their rows. Sequences are
      not reset. */
  function DeleteAll(db: Db, t: Table): (r: Result<Db, Violation>)
    ensures r.Ok? ==> r.value.serials == db.serials
  {
    match t
    case SchedulesTable => Ok(db.(schedules := []))
    case GroupsTable => Ok(db.(groups := [], schedules := []))
    case SubjectsTable => Ok(db.(subjects := [], groups := [], schedules := []))
    case TeachersTable =>
      if exists s :: s in db.schedules && HasNamed(db.teachers, s.teacherId) then Err(ForeignKey("teacher_id"))
      else Ok(db.(teachers := []))
    case ClassroomsTable =>
      if exists s :: s in db.schedules && HasNamed(db.classrooms, s.classroomId) then Err(ForeignKey("classroom_id"))
      else Ok(db.(classrooms := []))
  }

  // ---------------------------------------------------------------------
  // The deletes keep the constraints
  // ---------------------------------------------------------------------

  lemma DeleteSubjectValid(db: Db, code: string)
    requires Valid(db)
    ensures Valid(DeleteSubject(db, code))
    ensures GroupsMatch(db) ==> GroupsMatch(DeleteSubject(db, code))
  {
    var d := DeleteSubject(db, code);
    var gone := set s | s in db.subjects && s.code == code :: s.id;
    var goneGroups := set g | g in db.groups && g.subjectId in gone :: g.id;
    forall g | g in d.groups ensures HasSubject(d, g.subjectId) {
      var s :| s in db.subjects && s.id == g.subjectId;
      assert s.code != code;
    }
    forall s | s in d.schedules ensures ScheduleRowValid(d, s) {
      var t :| t in db.subjects && t.id == s.subjectId;
      assert t.code != code;
      var g :| g in db.groups && g.id == s.groupId;
      assert g.subjectId !in gone;
      assert g in d.groups;
    }
    if GroupsMatch(db) {
      forall s | s in d.schedules
        ensures exists g :: g in d.groups && g.id == s.groupId && g.subjectId == s.subjectId
      {
        var g :| g in db.groups && g.id == s.groupId && g.subjectId == s.subjectId;
        assert g in d.groups;
      }
    }
  }

  lemma DeleteGroupsOfValid(db: Db, subjectId: nat)
    requires Valid(db)
    ensures Valid(DeleteGroupsOf(db, subjectId))
    ensures GroupsMatch(db) ==> GroupsMatch(DeleteGroupsOf(db, subjectId))
  {
    var d := DeleteGroupsOf(db, subjectId);
    var ids := set g | g in db.groups && g.subjectId == subjectId :: g.id;
    forall s | s in d.schedules ensures ScheduleRowValid(d, s) {
      var g :| g in db.groups && g.id == s.groupId;
      assert g in d.groups;
    }
    if GroupsMatch(db) {
      forall s | s in d.schedules
        ensures exists g :: g in d.groups && g.id == s.groupId && g.subjectId == s.subjectId
      {
        var g :| g in db.groups && g.id == s.groupId && g.subjectId == s.subjectId;
        assert g in d.groups;
      }
    }
  }

  /** Clean's five statements, in the source's order, always succeed and
      leave every table empty; the sequences keep their values. */
  lemma CleanOrderSucceeds(db: Db)
    ensures DeleteAll(db, SchedulesTable).Ok?
    ensures var d1 := DeleteAll(db, SchedulesTable).value;
      DeleteAll(d1, GroupsTable).Ok? &&
      var d2 := DeleteAll(d1, GroupsTable).value;
      DeleteAll(d2, SubjectsTable).Ok? &&
      var d3 := DeleteAll(d2, SubjectsTable).value;
      DeleteAll(d3, TeachersTable).Ok? &&
      var d4 := DeleteAll(d3, TeachersTable).value;
      DeleteAll(d4, ClassroomsTable) == Ok(Db([], [], [], [], [], db.serials))
  {
  }

  /** The RESTRICT rule is why clean deletes schedules first: while a valid
      store holds a schedule, its teachers cannot be deleted. */
  lemma TeachersRestricted(db: Db)
    requires Valid(db) && |db.schedules| > 0
    ensures DeleteAll(db, TeachersTable).Err?
  {
    assert db.schedules[0] in db.schedules;
  }
}
