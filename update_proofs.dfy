/** What update guarantees: a subject that does not exist is reported and
    nothing changes; the SET list does exactly what the patch says; the
    schema constraints and the group-belongs-to-subject invariant are kept;
    a `classList` rebuild leaves exactly the requested groups; every
    schedule of `classes` is stored or reported; other subjects' groups and
    schedules are untouched. */
module UpdateProofs {
  import opened Common
  import opened Tables
  import opened Records
  import opened Resolver
  import opened Ingest
  import opened IngestProofs
  import opened Update

  // ---------------------------------------------------------------------
  // The SET list
  // ---------------------------------------------------------------------

  lemma {:induction false} AssignAllAppend(row: SubjectRow, a: seq<Assignment>, b: seq<Assignment>)
    ensures AssignAll(row, a + b) == AssignAll(AssignAll(row, a), b)
    decreases |a|
  {
    if a == [] {
      assert a + b == b;
    } else {
      assert (a + b)[0] == a[0] && (a + b)[1..] == a[1..] + b;
      AssignAllAppend(Assign(row, a[0]), a[1..], b);
    }
  }

  /** The SET list built from a patch replaces exactly the fields the patch
      gives. */
  lemma AssignmentsPatch(row: SubjectRow, p: Patch)
    ensures AssignAll(row, AssignmentsOf(p)) == Patched(row, p)
  {
    var d := if p.description.Some? then [SetName(p.description.value)] else [];
    var s := if p.semester.Some? then [SetSemester(p.semester.value)] else [];
    var m := if p.multiClass.Some? then [SetMultiClass(p.multiClass.value)] else [];
    var g := if p.greve.Some? then [SetOnStrike(p.greve.value)] else [];
    assert AssignmentsOf(p) == d + s + m + g;
    AssignAllAppend(row, d + s + m, g);
    AssignAllAppend(row, d + s, m);
    AssignAllAppend(row, d, s);
    var r1 := AssignAll(row, d);
    var r2 := AssignAll(r1, s);
    var r3 := AssignAll(r2, m);
    AssignAllAtMostOne(row, d);
    AssignAllAtMostOne(r1, s);
    AssignAllAtMostOne(r2, m);
    AssignAllAtMostOne(r3, g);
  }

  /** A SET list of at most one assignment applies that assignment. */
  lemma AssignAllAtMostOne(row: SubjectRow, a: seq<Assignment>)
    requires |a| <= 1
    ensures AssignAll(row, a) == if a == [] then row else Assign(row, a[0])
  {
    if a != [] {
      assert a[1..] == [];
    }
  }

  /** Only the two text fields can be too wide. */
  lemma PatchFits(p: Patch)
    ensures (forall a :: a in AssignmentsOf(p) ==> Fits(a)) <==>
      (p.description.None? || |p.description.value| <= NameLength)
      && (p.semester.None? || |p.semester.value| <= SemesterLength)
  {
    if p.description.Some? {
      assert SetName(p.description.value) in AssignmentsOf(p);
    }
    if p.semester.Some? {
      assert SetSemester(p.semester.value) in AssignmentsOf(p);
    }
  }

  lemma {:induction false} AssignAllKeeps(row: SubjectRow, a: seq<Assignment>)
    ensures AssignAll(row, a).id == row.id && AssignAll(row, a).code == row.code
    ensures (forall x :: x in a ==> Fits(x)) && |row.name| <= NameLength && |row.semester| <= SemesterLength
      ==> |AssignAll(row, a).name| <= NameLength && |AssignAll(row, a).semester| <= SemesterLength
    decreases |a|
  {
    if a != [] {
      AssignAllKeeps(Assign(row, a[0]), a[1..]);
      assert a[0] in a;
      assert forall x :: x in a[1..] ==> x in a;
    }
  }

  /** The UPDATE of subject fields keeps every constraint: ids and codes do
      not change, and the new texts fit their columns. */
  lemma UpdateSubjectsValid(db: Db, code: string, a: seq<Assignment>)
    requires Valid(db) && UpdateSubjects(db, code, a).Ok?
    ensures Valid(UpdateSubjects(db, code, a).value)
    ensures GroupsMatch(db) ==> GroupsMatch(UpdateSubjects(db, code, a).value)
  {
    var d := UpdateSubjects(db, code, a).value;
    var f := (s: SubjectRow) => if Lower(s.code) == Lower(code) then AssignAll(s, a) else s;
    forall s | s in db.subjects
      ensures f(s).id == s.id && f(s).code == s.code
      ensures |f(s).name| <= NameLength && |f(s).semester| <= SemesterLength
    {
      AssignAllKeeps(s, a);
    }
    RewrittenSubjectRows(db.subjects, d.subjects, db.serials.subject, f);
    forall x | HasSubject(db, x) ensures HasSubject(d, x) {
      var s :| s in db.subjects && s.id == x;
      var i :| 0 <= i < |db.subjects| && db.subjects[i] == s;
      assert d.subjects[i] in d.subjects;
    }
    assert GroupsValid(d);
    forall s | s in d.schedules ensures ScheduleRowValid(d, s) {
      assert ScheduleRowValid(db, s);
    }
  }

  /** The subject-table constraints survive rewriting each row by a map
      that keeps its id and code and fits its texts. */
  lemma RewrittenSubjectRows(rows: seq<SubjectRow>, rows': seq<SubjectRow>, next: nat,
                             f: SubjectRow -> SubjectRow)
    requires |rows'| == |rows| && forall i :: 0 <= i < |rows| ==> rows'[i] == f(rows[i])
    requires forall s :: s in rows ==>
      1 <= s.id < next && |s.code| <= CodeLength && |s.name| <= NameLength && |s.semester| <= SemesterLength
    requires forall s, t :: s in rows && t in rows && (s.id == t.id || s.code == t.code) ==> s == t
    requires forall s :: s in rows ==>
      f(s).id == s.id && f(s).code == s.code && |f(s).name| <= NameLength && |f(s).semester| <= SemesterLength
    ensures forall s :: s in rows' ==>
      1 <= s.id < next && |s.code| <= CodeLength && |s.name| <= NameLength && |s.semester| <= SemesterLength
    ensures forall s, t :: s in rows' && t in rows' && (s.id == t.id || s.code == t.code) ==> s == t
  {
    forall s | s in rows'
      ensures 1 <= s.id < next && |s.code| <= CodeLength && |s.name| <= NameLength && |s.semester| <= SemesterLength
    {
      var i :| 0 <= i < |rows'| && rows'[i] == s;
      assert rows[i] in rows;
    }
    forall s, t | s in rows' && t in rows' && (s.id == t.id || s.code == t.code) ensures s == t {
      var i :| 0 <= i < |rows'| && rows'[i] == s;
      var j :| 0 <= j < |rows'| && rows'[j] == t;
      assert rows[i] in rows && rows[j] in rows;
      assert rows[i] == rows[j];
    }
  }

  // ---------------------------------------------------------------------
  // Deletes inside update
  // ---------------------------------------------------------------------

  /** Dropping schedules keeps every constraint. */
  lemma DropSchedulesValid(db: Db, d: Db)
    requires Valid(db) && GroupsMatch(db)
    requires d == db.(schedules := d.schedules) && forall s :: s in d.schedules ==> s in db.schedules
    ensures Valid(d) && GroupsMatch(d)
  {
    forall s | s in d.schedules ensures ScheduleRowValid(d, s) {
      assert ScheduleRowValid(db, s);
    }
  }

  /** Under the constraints, a schedule of another subject never hangs off
      one of this subject's groups. */
  lemma OtherScheduleNotInGroups(db: Db, subjectId: nat, q: ScheduleRow)
    requires Valid(db) && GroupsMatch(db) && q in db.schedules && q.subjectId != subjectId
    ensures q.groupId !in (set g | g in db.groups && g.subjectId == subjectId :: g.id)
  {
    var g :| g in db.groups && g.id == q.groupId && g.subjectId == q.subjectId;
    forall h | h in db.groups && h.id == q.groupId ensures h.subjectId != subjectId {
      assert h == g;
    }
  }

  function OtherGroups(db: Db, subjectId: nat): seq<GroupRow> {
    Filter(db.groups, (g: GroupRow) => g.subjectId != subjectId)
  }

  function OtherSchedules(db: Db, subjectId: nat): seq<ScheduleRow> {
    Filter(db.schedules, (s: ScheduleRow) => s.subjectId != subjectId)
  }

  function SchedulesOf(db: Db, subjectId: nat): seq<ScheduleRow> {
    Filter(db.schedules, (s: ScheduleRow) => s.subjectId == subjectId)
  }

  /** Removing the subject's schedules and groups keeps the constraints. */
  lemma ClearGroupsValid(db: Db, subjectId: nat)
    requires Valid(db) && GroupsMatch(db)
    ensures var c := DeleteGroupsOf(DeleteSchedulesOfGroupsOf(db, subjectId), subjectId);
      && Valid(c) && GroupsMatch(c) && c == db.(groups := c.groups, schedules := c.schedules)
  {
    var d1 := DeleteSchedulesOfGroupsOf(db, subjectId);
    DropSchedulesValid(db, d1);
    DeleteGroupsOfValid(d1, subjectId);
  }

  /** After the removal the subject has no group, and other subjects keep
      their groups and schedules. */
  lemma ClearGroupsOthers(db: Db, subjectId: nat)
    requires Valid(db) && GroupsMatch(db)
    ensures var c := DeleteGroupsOf(DeleteSchedulesOfGroupsOf(db, subjectId), subjectId);
      && GroupsOf(c, subjectId) == [] && SchedulesOf(c, subjectId) == []
      && OtherGroups(c, subjectId) == OtherGroups(db, subjectId)
      && OtherSchedules(c, subjectId) == OtherSchedules(db, subjectId)
  {
    var d1 := DeleteSchedulesOfGroupsOf(db, subjectId);
    var c := DeleteGroupsOf(d1, subjectId);
    var ids := set g | g in db.groups && g.subjectId == subjectId :: g.id;
    var other := (s: ScheduleRow) => s.subjectId != subjectId;
    var notMine := (s: ScheduleRow) => s.groupId !in ids;
    assert d1.schedules == Filter(db.schedules, notMine);
    assert c.schedules == Filter(d1.schedules, notMine);
    forall q | q in db.schedules && other(q) ensures notMine(q) {
      OtherScheduleNotInGroups(db, subjectId, q);
    }
    FilterFilter(db.schedules, notMine, other);
    FilterFilter(d1.schedules, notMine, other);
    forall q | q in c.schedules ensures q.subjectId != subjectId {
      var g :| g in db.groups && g.id == q.groupId && g.subjectId == q.subjectId;
      assert q.groupId !in ids;
    }
    FilterKeepsNone(c.schedules, (s: ScheduleRow) => s.subjectId == subjectId);
    var otherG := (g: GroupRow) => g.subjectId != subjectId;
    assert c.groups == Filter(db.groups, otherG);
    FilterFilter(db.groups, otherG, otherG);
    FilterKeepsNone(c.groups, (g: GroupRow) => g.subjectId == subjectId);
  }

  /** The groups rebuilt by a `classList` are exactly the requested codes
      and the subject is left with no schedule; the constraints hold and
      other subjects keep their groups and schedules. */
  lemma RebuildGroupsKeeps(db: Db, subjectId: nat, codes: seq<string>)
    requires Valid(db) && GroupsMatch(db) && HasSubject(db, subjectId)
    requires RebuildGroups(db, subjectId, codes).Ok?
    ensures var d := RebuildGroups(db, subjectId, codes).value;
      && Valid(d) && GroupsMatch(d)
      && CodesOf(GroupsOf(d, subjectId)) == codes && SchedulesOf(d, subjectId) == []
      && OtherGroups(d, subjectId) == OtherGroups(db, subjectId)
      && OtherSchedules(d, subjectId) == OtherSchedules(db, subjectId)
      && d.subjects == db.subjects
  {
    ClearGroupsValid(db, subjectId);
    ClearGroupsOthers(db, subjectId);
    var c := DeleteGroupsOf(DeleteSchedulesOfGroupsOf(db, subjectId), subjectId);
    GroupLoopKeeps(c, subjectId, codes, map[]);
    GroupLoopAppends(c, subjectId, codes, map[]);
    GroupLoopOwnRows(c, subjectId, codes, map[]);
    var d := GroupLoop(c, subjectId, codes, map[]).state.0;
    AddedGroupsOwn(c, d, subjectId);
    assert [] + codes == codes;
  }

  /** Groups appended for the subject leave the other subjects' groups as
      they were. */
  lemma AddedGroupsOwn(c: Db, d: Db, subjectId: nat)
    requires c.groups <= d.groups
    requires forall i :: |c.groups| <= i < |d.groups| ==> d.groups[i].subjectId == subjectId
    ensures OtherGroups(d, subjectId) == OtherGroups(c, subjectId)
  {
    var added := d.groups[|c.groups|..];
    assert d.groups == c.groups + added;
    FilterAppend(c.groups, added, (g: GroupRow) => g.subjectId != subjectId);
    forall g | g in added ensures g.subjectId == subjectId {
      var i :| 0 <= i < |added| && added[i] == g;
      assert d.groups[|c.groups| + i] == g;
    }
    FilterKeepsNone(added, (g: GroupRow) => g.subjectId != subjectId);
  }

  /** The cleared tables and the group map the schedule rebuild starts from
      satisfy the loop's invariants. */
  lemma RebuildSchedulesStart(db: Db, subjectId: nat, code: string)
    requires Valid(db) && GroupsMatch(db)
    ensures var cleared := DeleteSchedulesOf(db, subjectId);
      && WorkInv(Work(cleared, map[], map[], []))
      && IdsOwned(cleared, subjectId, GroupIdMap(GroupsOf(db, subjectId)))
      && SchedulesOf(cleared, subjectId) == []
      && OtherSchedules(cleared, subjectId) == OtherSchedules(db, subjectId)
  {
    var ids := GroupIdMap(GroupsOf(db, subjectId));
    var cleared := DeleteSchedulesOf(db, subjectId);
    DropSchedulesValid(db, cleared);
    GroupIdMapOwned(GroupsOf(db, subjectId));
    forall c | c in ids ensures GroupRow(ids[c], subjectId, c) in cleared.groups {
      var g :| g in GroupsOf(db, subjectId) && g.id == ids[c] && g.groupCode == c;
    }
    var mine := (s: ScheduleRow) => s.subjectId == subjectId;
    var other := (s: ScheduleRow) => s.subjectId != subjectId;
    FilterKeepsNone(cleared.schedules, mine);
    FilterFilter(db.schedules, other, other);
  }

  /** The schedule rebuild keeps the constraints and the groups. */
  lemma RebuildSchedulesValid(db: Db, subjectId: nat, code: string, classes: seq<NestedSchedule>)
    requires Valid(db) && GroupsMatch(db)
    requires RebuildSchedules(db, subjectId, code, classes).Ok?
    ensures var r := RebuildSchedules(db, subjectId, code, classes).value;
      && Valid(r.0) && GroupsMatch(r.0) && r.0.groups == db.groups && r.0.subjects == db.subjects
  {
    RebuildSchedulesStart(db, subjectId, code);
    var ids := GroupIdMap(GroupsOf(db, subjectId));
    ScheduleLoopKeeps(Work(DeleteSchedulesOf(db, subjectId), map[], map[], []), subjectId, code, ids, classes);
  }

  /** The schedule rebuild stores each schedule of `classes` as a row of the
      subject or reports it, and keeps other subjects' schedules. */
  lemma RebuildSchedulesAccounts(db: Db, subjectId: nat, code: string, classes: seq<NestedSchedule>)
    requires Valid(db) && GroupsMatch(db)
    requires RebuildSchedules(db, subjectId, code, classes).Ok?
    ensures var r := RebuildSchedules(db, subjectId, code, classes).value;
      && |SchedulesOf(r.0, subjectId)| + |r.1| == |classes|
      && OtherSchedules(r.0, subjectId) == OtherSchedules(db, subjectId)
  {
    RebuildSchedulesStart(db, subjectId, code);
    var ids := GroupIdMap(GroupsOf(db, subjectId));
    var cleared := DeleteSchedulesOf(db, subjectId);
    var w := Work(cleared, map[], map[], []);
    ScheduleLoopAccounts(w, subjectId, code, ids, classes);
    var w' := ScheduleLoop(w, subjectId, code, ids, classes).state;
    AppendedRows(cleared.schedules, w'.db.schedules, subjectId);
    AppendedOfSubject(cleared.schedules, w'.db.schedules[|cleared.schedules|..], subjectId);
  }

  /** The group codes the subject has in `db`. */
  function GroupCodes(db: Db, subjectId: nat): set<string> {
    set g | g in db.groups && g.subjectId == subjectId :: g.groupCode
  }

  /** The read-back map has a key for each group code of the rows. */
  lemma {:induction false} GroupIdMapKeys(rows: seq<GroupRow>)
    ensures GroupIdMap(rows).Keys == set g | g in rows :: g.groupCode
    decreases |rows|
  {
    if rows != [] {
      var init := rows[..|rows| - 1];
      GroupIdMapKeys(init);
      assert rows == init + [rows[|rows| - 1]];
    }
  }

  /** The subject's schedule rows in `d` are the rows stored for the
      schedules of `classes` whose group code is one of the subject's groups,
      one each and in order. */
  ghost predicate SchedulesFiled(d: Db, subjectId: nat, classes: seq<NestedSchedule>) {
    var filed := Filed(classes, GroupCodes(d, subjectId));
    && |SchedulesOf(d, subjectId)| == |filed|
    && forall k :: 0 <= k < |filed| ==> StoredAs(d, subjectId, filed[k], SchedulesOf(d, subjectId)[k])
  }

  /** The keys of the map read back for the subject are its group codes. */
  lemma GroupIdMapCodes(db: Db, d: Db, subjectId: nat)
    requires d.groups == db.groups
    ensures GroupIdMap(GroupsOf(db, subjectId)).Keys == GroupCodes(d, subjectId)
  {
    GroupIdMapKeys(GroupsOf(db, subjectId));
  }

  /** Rows stored for `filed` from index `from` on, when those are all the
      subject's rows, make the subject's rows the filed ones. */
  lemma FiledRowsOfSubject(d: Db, subjectId: nat, filed: seq<NestedSchedule>, from: nat)
    requires FiledRows(d, subjectId, filed, from)
    requires SchedulesOf(d, subjectId) == d.schedules[from..]
    ensures |SchedulesOf(d, subjectId)| == |filed|
    ensures forall k :: 0 <= k < |filed| ==> StoredAs(d, subjectId, filed[k], SchedulesOf(d, subjectId)[k])
  {
    forall k | 0 <= k < |filed| ensures StoredAs(d, subjectId, filed[k], SchedulesOf(d, subjectId)[k]) {
      assert SchedulesOf(d, subjectId)[k] == d.schedules[from + k];
    }
  }

  /** After the schedule rebuild the subject's rows are exactly the rows
      stored for the sent schedules whose group exists, in order. */
  lemma RebuildSchedulesFiles(db: Db, subjectId: nat, code: string, classes: seq<NestedSchedule>)
    requires Valid(db) && GroupsMatch(db)
    requires RebuildSchedules(db, subjectId, code, classes).Ok?
    ensures SchedulesFiled(RebuildSchedules(db, subjectId, code, classes).value.0, subjectId, classes)
  {
    RebuildSchedulesStart(db, subjectId, code);
    var ids := GroupIdMap(GroupsOf(db, subjectId));
    var cleared := DeleteSchedulesOf(db, subjectId);
    var w := Work(cleared, map[], map[], []);
    ScheduleLoopAccounts(w, subjectId, code, ids, classes);
    ScheduleLoopKeeps(w, subjectId, code, ids, classes);
    ScheduleLoopFiles(w, subjectId, code, ids, classes);
    var d := ScheduleLoop(w, subjectId, code, ids, classes).state.db;
    AppendedRows(cleared.schedules, d.schedules, subjectId);
    AppendedOfSubject(cleared.schedules, d.schedules[|cleared.schedules|..], subjectId);
    GroupIdMapCodes(db, d, subjectId);
    FiledRowsOfSubject(d, subjectId, Filed(classes, ids.Keys), |cleared.schedules|);
  }

  /** Appending rows of the subject to rows of which none is the subject's:
      the subject's rows are the appended ones, the others stay. */
  lemma AppendedOfSubject(before: seq<ScheduleRow>, added: seq<ScheduleRow>, subjectId: nat)
    requires forall q :: q in added ==> q.subjectId == subjectId
    requires Filter(before, (s: ScheduleRow) => s.subjectId == subjectId) == []
    ensures Filter(before + added, (s: ScheduleRow) => s.subjectId == subjectId) == added
    ensures Filter(before + added, (s: ScheduleRow) => s.subjectId != subjectId)
         == Filter(before, (s: ScheduleRow) => s.subjectId != subjectId)
  {
    FilterAppend(before, added, (s: ScheduleRow) => s.subjectId == subjectId);
    FilterKeepsAll(added, (s: ScheduleRow) => s.subjectId == subjectId);
    assert [] + added == added;
    FilterAppend(before, added, (s: ScheduleRow) => s.subjectId != subjectId);
    FilterKeepsNone(added, (s: ScheduleRow) => s.subjectId != subjectId);
    assert Filter(before, (s: ScheduleRow) => s.subjectId != subjectId) + [] 
        == Filter(before, (s: ScheduleRow) => s.subjectId != subjectId);
  }

  /** The rows past a prefix, when all of them belong to the subject. */
  lemma AppendedRows(before: seq<ScheduleRow>, after: seq<ScheduleRow>, subjectId: nat)
    requires before <= after
    requires forall i :: |before| <= i < |after| ==> after[i].subjectId == subjectId
    ensures after == before + after[|before|..]
    ensures forall q :: q in after[|before|..] ==> q.subjectId == subjectId
  {
    forall q | q in after[|before|..] ensures q.subjectId == subjectId {
      var i :| 0 <= i < |after| - |before| && after[|before|..][i] == q;
      assert after[|before| + i] == q;
    }
  }

  /** Each code of the read-back map names a group row with that id. */
  lemma {:induction false} GroupIdMapOwned(rows: seq<GroupRow>)
    ensures forall c :: c in GroupIdMap(rows) ==>
      exists g :: g in rows && g.id == GroupIdMap(rows)[c] && g.groupCode == c
    decreases |rows|
  {
    if rows != [] {
      var init := rows[..|rows| - 1];
      GroupIdMapOwned(init);
      forall c | c in GroupIdMap(rows)
        ensures exists g :: g in rows && g.id == GroupIdMap(rows)[c] && g.groupCode == c
      {
        if c != rows[|rows| - 1].groupCode {
          var g :| g in init && g.id == GroupIdMap(init)[c] && g.groupCode == c;
          assert g in rows;
        } else {
          assert rows[|rows| - 1] in rows;
        }
      }
    }
  }

  // ---------------------------------------------------------------------
  // The whole update
  // ---------------------------------------------------------------------

  /** The subject is reported as not found exactly when no code matches
      case-insensitively, and then nothing is written. */
  lemma UpdateNotFound(db: Db, code: string, p: Patch)
    ensures (forall s :: s in db.subjects ==> Lower(s.code) != Lower(code)) <==>
      UpdateSpec(db, code, p).Ok? && UpdateSpec(db, code, p).value.1.updated.None?
    ensures (forall s :: s in db.subjects ==> Lower(s.code) != Lower(code)) ==>
      UpdateSpec(db, code, p) == Ok((db, UpdateReport(None, [Entry(code, SubjectNotFound)])))
  {
  }

  /** Without `classList` and `classes`, update is the UPDATE statement
      alone (or nothing, for an empty SET list). */
  lemma UpdateSpecFieldsShape(db: Db, code: string, p: Patch)
    requires FirstSubjectIdCI(db.subjects, code).Some?
    requires p.classList.None? && p.classes.None?
    ensures UpdateSpec(db, code, p).Ok? <==>
      AssignmentsOf(p) == [] || UpdateSubjects(db, code, AssignmentsOf(p)).Ok?
    ensures UpdateSpec(db, code, p).Ok? ==>
      UpdateSpec(db, code, p).value.0 ==
        if AssignmentsOf(p) == [] then db else UpdateSubjects(db, code, AssignmentsOf(p)).value
  {
  }

  /** A patch without `classList` and `classes` touches only the subject
      rows: it fails exactly when a given text is too wide for its column,
      and otherwise every case-insensitively matching row gets the patched
      fields and every other row stays. */
  lemma UpdateFieldsOnly(db: Db, code: string, p: Patch)
    requires FirstSubjectIdCI(db.subjects, code).Some?
    requires p.classList.None? && p.classes.None?
    ensures UpdateSpec(db, code, p).Ok? <==>
      (p.description.None? || |p.description.value| <= NameLength)
      && (p.semester.None? || |p.semester.value| <= SemesterLength)
    ensures UpdateSpec(db, code, p).Ok? ==> PatchedAll(db, code, p, UpdateSpec(db, code, p).value.0)
  {
    UpdateSpecFieldsShape(db, code, p);
    SetListEffect(db, code, p);
  }

  /** `rows` are the subject rows of `db`, each case-insensitively matching
      one patched and every other one as it was. */
  ghost predicate RowsPatched(db: Db, code: string, p: Patch, rows: seq<SubjectRow>) {
    && |rows| == |db.subjects|
    && forall i :: 0 <= i < |db.subjects| ==>
         rows[i] == (if Lower(db.subjects[i].code) == Lower(code) then Patched(db.subjects[i], p)
                     else db.subjects[i])
  }

  /** `d` is `db` with every case-insensitively matching subject row patched. */
  ghost predicate PatchedAll(db: Db, code: string, p: Patch, d: Db) {
    d == db.(subjects := d.subjects) && RowsPatched(db, code, p, d.subjects)
  }

  /** The UPDATE statement for a patch (or no statement, for an empty SET
      list) succeeds exactly when the texts fit and patches the matching rows. */
  lemma SetListEffect(db: Db, code: string, p: Patch)
    requires FirstSubjectIdCI(db.subjects, code).Some?
    ensures var a := AssignmentsOf(p);
      && (a == [] || UpdateSubjects(db, code, a).Ok? <==>
            (p.description.None? || |p.description.value| <= NameLength)
            && (p.semester.None? || |p.semester.value| <= SemesterLength))
      && (a == [] ==> PatchedAll(db, code, p, db))
      && (a != [] && UpdateSubjects(db, code, a).Ok? ==> PatchedAll(db, code, p, UpdateSubjects(db, code, a).value))
  {
    PatchFits(p);
    var a := AssignmentsOf(p);
    if a == [] {
      forall i | 0 <= i < |db.subjects| ensures Patched(db.subjects[i], p) == db.subjects[i] {
      }
    } else if UpdateSubjects(db, code, a).Ok? {
      forall i | 0 <= i < |db.subjects| ensures AssignAll(db.subjects[i], a) == Patched(db.subjects[i], p) {
        AssignmentsPatch(db.subjects[i], p);
      }
    }
  }

  /** The stages after the subject update, on a database that satisfies the
      constraints. */
  lemma UpdateTailKeeps(db1: Db, subjectId: nat, code: string, p: Patch)
    requires Valid(db1) && GroupsMatch(db1) && HasSubject(db1, subjectId)
    requires p.classList.Some? ==> RebuildGroups(db1, subjectId, RebuildCodes(p)).Ok?
    ensures var db2 := if p.classList.Some? then RebuildGroups(db1, subjectId, RebuildCodes(p)).value else db1;
      && Valid(db2) && GroupsMatch(db2) && db2.subjects == db1.subjects
      && OtherGroups(db2, subjectId) == OtherGroups(db1, subjectId)
      && OtherSchedules(db2, subjectId) == OtherSchedules(db1, subjectId)
      && (p.classList.Some? ==> CodesOf(GroupsOf(db2, subjectId)) == RebuildCodes(p))
      && (p.classList.Some? ==> SchedulesOf(db2, subjectId) == [])
  {
    if p.classList.Some? {
      RebuildGroupsKeeps(db1, subjectId, RebuildCodes(p));
    }
  }

  /** The SET step keeps the constraints, the groups, the schedules and the
      subject's row. */
  lemma UpdateHeadKeeps(db: Db, code: string, a: seq<Assignment>, subjectId: nat)
    requires Valid(db) && GroupsMatch(db) && HasSubject(db, subjectId)
    requires a != [] ==> UpdateSubjects(db, code, a).Ok?
    ensures var db1 := if a == [] then db else UpdateSubjects(db, code, a).value;
      && Valid(db1) && GroupsMatch(db1) && HasSubject(db1, subjectId)
      && db1.groups == db.groups && db1.schedules == db.schedules
  {
    if a != [] {
      var db1 := UpdateSubjects(db, code, a).value;
      UpdateSubjectsValid(db, code, a);
      var s :| s in db.subjects && s.id == subjectId;
      var i :| 0 <= i < |db.subjects| && db.subjects[i] == s;
      AssignAllKeeps(s, a);
      assert db1.subjects[i].id == subjectId;
      assert db1.subjects[i] in db1.subjects;
    }
  }

  /** The `classes` step keeps the constraints and the groups, and accounts
      for each schedule. */
  lemma UpdateLastKeeps(db2: Db, subjectId: nat, code: string, p: Patch)
    requires Valid(db2) && GroupsMatch(db2)
    requires p.classes.Some? ==> RebuildSchedules(db2, subjectId, code, p.classes.value).Ok?
    ensures var r3 := if p.classes.Some? then RebuildSchedules(db2, subjectId, code, p.classes.value).value
                      else (db2, []);
      && Valid(r3.0) && GroupsMatch(r3.0) && r3.0.groups == db2.groups && r3.0.subjects == db2.subjects
      && (p.classes.None? ==> r3.0 == db2)
      && (p.classes.Some? ==> |SchedulesOf(r3.0, subjectId)| + |r3.1| == |p.classes.value|)
      && (p.classes.Some? ==> SchedulesFiled(r3.0, subjectId, p.classes.value))
      && OtherSchedules(r3.0, subjectId) == OtherSchedules(db2, subjectId)
  {
    if p.classes.Some? {
      RebuildSchedulesValid(db2, subjectId, code, p.classes.value);
      RebuildSchedulesAccounts(db2, subjectId, code, p.classes.value);
      RebuildSchedulesFiles(db2, subjectId, code, p.classes.value);
    }
  }

  /** A successful update runs its three stages, each succeeding: the SET
      step, the `classList` rebuild and the `classes` replacement. */
  lemma UpdateStages(db: Db, code: string, p: Patch)
    requires FirstSubjectIdCI(db.subjects, code).Some?
    requires UpdateSpec(db, code, p).Ok?
    ensures var subjectId := FirstSubjectIdCI(db.subjects, code).value;
      var a := AssignmentsOf(p);
      && (a != [] ==> UpdateSubjects(db, code, a).Ok?)
      && var db1 := if a == [] then db else UpdateSubjects(db, code, a).value;
      && (p.classList.Some? ==> RebuildGroups(db1, subjectId, RebuildCodes(p)).Ok?)
      && var db2 := if p.classList.Some? then RebuildGroups(db1, subjectId, RebuildCodes(p)).value else db1;
      && (p.classes.Some? ==> RebuildSchedules(db2, subjectId, code, p.classes.value).Ok?)
      && var r3 := if p.classes.Some? then RebuildSchedules(db2, subjectId, code, p.classes.value).value
                   else (db2, []);
      && UpdateSpec(db, code, p).value.0 == r3.0 && UpdateSpec(db, code, p).value.1.errors == r3.1
  {
  }

  /** A successful update patches every case-insensitively matching
      subject row with the given fields and leaves the other rows; it keeps
      every constraint and the group-belongs-to-subject invariant; a
      `classList` leaves exactly the groups it asks for and, when sent
      without `classes`, leaves the subject no schedule; without a
      `classList` no group changes; with `classes`, each schedule is stored
      for the subject or
      reported, and the subject's rows are exactly the rows stored for the
      schedules whose group exists, in order; without either key no
      schedule changes; the groups and schedules of every other subject stay
      as they were. */
  lemma UpdateKeeps(db: Db, code: string, p: Patch)
    requires Valid(db) && GroupsMatch(db)
    requires FirstSubjectIdCI(db.subjects, code).Some?
    requires UpdateSpec(db, code, p).Ok?
    ensures var subjectId := FirstSubjectIdCI(db.subjects, code).value;
      var res := UpdateSpec(db, code, p).value;
      && RowsPatched(db, code, p, res.0.subjects)
      && Valid(res.0) && GroupsMatch(res.0)
      && (p.classList.Some? ==> CodesOf(GroupsOf(res.0, subjectId)) == RebuildCodes(p))
      && (p.classList.None? ==> res.0.groups == db.groups)
      && (p.classList.Some? && p.classes.None? ==> SchedulesOf(res.0, subjectId) == [])
      && (p.classList.None? && p.classes.None? ==> res.0.schedules == db.schedules)
      && (p.classes.Some? ==> |SchedulesOf(res.0, subjectId)| + |res.1.errors| == |p.classes.value|)
      && (p.classes.Some? ==> SchedulesFiled(res.0, subjectId, p.classes.value))
      && OtherGroups(res.0, subjectId) == OtherGroups(db, subjectId)
      && OtherSchedules(res.0, subjectId) == OtherSchedules(db, subjectId)
  {
    var subjectId := FirstSubjectIdCI(db.subjects, code).value;
    var a := AssignmentsOf(p);
    UpdateStages(db, code, p);
    SetListEffect(db, code, p);
    UpdateHeadKeeps(db, code, a, subjectId);
    var db1 := if a == [] then db else UpdateSubjects(db, code, a).value;
    UpdateTailKeeps(db1, subjectId, code, p);
    var db2 := if p.classList.Some? then RebuildGroups(db1, subjectId, RebuildCodes(p)).value else db1;
    UpdateLastKeeps(db2, subjectId, code, p);
  }
}
