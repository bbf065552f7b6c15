/** What createClasses guarantees: the schema constraints and the
    group-belongs-to-subject invariant hold after every run, tables only
    grow, a teacher or classroom name is never inserted twice, a created
    subject gets exactly the groups its item asks for, schedule rows carry
    the first and last period, and running a batch whose subjects all exist
    changes nothing. */
module IngestProofs {
  import opened Common
  import opened Tables
  import opened PeriodCodec
  import opened Records
  import opened Resolver
  import opened Ingest

  /** `b` extends `a`: every table keeps its rows and only appends, and the
      teacher and classroom tables append only names they did not have. */
  ghost predicate Grows(a: Db, b: Db) {
    && AddedFresh(a.teachers, b.teachers) && AddedFresh(a.classrooms, b.classrooms)
    && a.subjects <= b.subjects && a.groups <= b.groups && a.schedules <= b.schedules
  }

  /** Every entry of the code-to-id map is a group of `subjectId` with that code. */
  ghost predicate IdsOwned(db: Db, subjectId: nat, ids: map<string, nat>) {
    forall c :: c in ids ==> GroupRow(ids[c], subjectId, c) in db.groups
  }

  ghost predicate WorkInv(w: Work) {
    && Valid(w.db) && GroupsMatch(w.db)
    && CacheSound(w.db, Teachers, w.teacherIds) && CacheSound(w.db, Classrooms, w.classroomIds)
  }

  /** The lower-cased codes already seen are codes of the table, and every
      created subject has been added to them. */
  ghost predicate BatchInv(b: Batch) {
    && WorkInv(b.w)
    && b.existing <= LowerCodes(b.w.db)
    && forall e :: e in b.created ==> Lower(e.name) in b.existing
  }

  function CodesOf(rows: seq<GroupRow>): (codes: seq<string>)
    ensures |codes| == |rows|
    ensures forall i :: 0 <= i < |rows| ==> codes[i] == rows[i].groupCode
  {
    seq(|rows|, i requires 0 <= i < |rows| => rows[i].groupCode)
  }

  lemma GrowsRefl(a: Db)
    ensures Grows(a, a)
  {
    AddedFreshRefl(a.teachers);
    AddedFreshRefl(a.classrooms);
  }

  lemma GrowsTrans(a: Db, b: Db, c: Db)
    requires Grows(a, b) && Grows(b, c)
    ensures Grows(a, c)
  {
    AddedFreshTrans(a.teachers, b.teachers, c.teachers);
    AddedFreshTrans(a.classrooms, b.classrooms, c.classrooms);
  }

  /** Only the groups and their sequence changed. */
  lemma GroupsOnlyGrow(a: Db, b: Db)
    requires b == a.(groups := b.groups, serials := a.serials.(group := b.serials.group))
    requires a.groups <= b.groups
    ensures Grows(a, b)
  {
    AddedFreshRefl(a.teachers);
    AddedFreshRefl(a.classrooms);
  }

  // ---------------------------------------------------------------------
  // One schedule
  // ---------------------------------------------------------------------

  /** Resolving a teacher keeps the invariants and touches only the
      teacher table and cache. */
  lemma TeacherResolvedKeeps(w: Work, name: Option<string>)
    requires WorkInv(w) && Resolve(w.db, Teachers, w.teacherIds, name).Ok?
    ensures var t := Resolve(w.db, Teachers, w.teacherIds, name).value;
      var w1 := w.(db := t.db, teacherIds := t.cache);
      && WorkInv(w1) && Grows(w.db, w1.db)
      && w1.db == w.db.(teachers := w1.db.teachers, serials := w.db.serials.(teacher := w1.db.serials.teacher))
      && NamedRow(t.id, name.value) in w1.db.teachers
  {
    ResolveSpec(w.db, Teachers, w.teacherIds, name);
    var t := Resolve(w.db, Teachers, w.teacherIds, name).value;
    AddedFreshRefl(w.db.classrooms);
    assert CacheSound(t.db, Classrooms, w.classroomIds);
    GroupsMatchSameLinks(w.db, t.db);
  }

  /** Resolving a classroom keeps the invariants and touches only the
      classroom table and cache. */
  lemma ClassroomResolvedKeeps(w: Work, name: Option<string>)
    requires WorkInv(w) && Resolve(w.db, Classrooms, w.classroomIds, name).Ok?
    ensures var c := Resolve(w.db, Classrooms, w.classroomIds, name).value;
      var w1 := w.(db := c.db, classroomIds := c.cache);
      && WorkInv(w1) && Grows(w.db, w1.db)
      && w1.db == w.db.(classrooms := w1.db.classrooms, serials := w.db.serials.(classroom := w1.db.serials.classroom))
      && NamedRow(c.id, name.value) in w1.db.classrooms
  {
    ResolveSpec(w.db, Classrooms, w.classroomIds, name);
    var c := Resolve(w.db, Classrooms, w.classroomIds, name).value;
    AddedFreshRefl(w.db.teachers);
    assert CacheSound(c.db, Teachers, w.teacherIds);
    GroupsMatchSameLinks(w.db, c.db);
  }

  lemma GroupsMatchSameLinks(a: Db, b: Db)
    requires GroupsMatch(a) && a.groups == b.groups && a.schedules == b.schedules
    ensures GroupsMatch(b)
  {
  }

  /** Appending a schedule row whose group belongs to its subject keeps
      GroupsMatch. */
  lemma GroupsMatchAppendRow(a: Db, b: Db, row: ScheduleRow, code: string)
    requires GroupsMatch(a) && b.groups == a.groups && b.schedules == a.schedules + [row]
    requires GroupRow(row.groupId, row.subjectId, code) in a.groups
    ensures GroupsMatch(b)
  {
    forall q | q in b.schedules
      ensures exists g :: g in b.groups && g.id == q.groupId && g.subjectId == q.subjectId
    {
      if q == row {
        assert GroupRow(row.groupId, row.subjectId, code) in b.groups;
      } else {
        assert q in a.schedules;
      }
    }
  }

  /** A successful schedule insert for a group of the subject keeps the
      invariants and only appends one schedule row. */
  lemma ScheduleInsertKeeps(w: Work, subjectId: nat, code: string, groupId: nat, teacherId: nat, classroomId: nat,
                            s: NestedSchedule)
    requires WorkInv(w) && GroupRow(groupId, subjectId, code) in w.db.groups && s.period.Some?
    requires ScheduleInsert(w.db, subjectId, groupId, teacherId, classroomId, s).Ok?
    ensures var d := ScheduleInsert(w.db, subjectId, groupId, teacherId, classroomId, s).value.0;
      && WorkInv(w.(db := d)) && Grows(w.db, d)
      && d.subjects == w.db.subjects && d.groups == w.db.groups
  {
    var d := ScheduleInsert(w.db, subjectId, groupId, teacherId, classroomId, s).value.0;
    var row := d.schedules[|d.schedules| - 1];
    assert d.schedules == w.db.schedules + [row];
    GroupsMatchAppendRow(w.db, d, row, code);
    assert CacheSound(d, Teachers, w.teacherIds);
    assert CacheSound(d, Classrooms, w.classroomIds);
    AddedFreshRefl(d.teachers);
    AddedFreshRefl(d.classrooms);
  }

  /** One schedule keeps the invariants, touches neither subjects nor groups,
      only grows the tables, and either adds no error or the group-not-found
      error of its own group code. */
  lemma ScheduleStepKeeps(w: Work, subjectId: nat, name: string, groupIds: map<string, nat>, s: NestedSchedule)
    requires WorkInv(w) && IdsOwned(w.db, subjectId, groupIds)
    ensures var w' := ScheduleStep(w, subjectId, name, groupIds, s).state;
      && WorkInv(w') && Grows(w.db, w'.db)
      && w'.db.subjects == w.db.subjects && w'.db.groups == w.db.groups
      && (w'.errors == w.errors || w'.errors == w.errors + [Entry(name, GroupNotFound(GroupCodeOf(s)))])
      && (GroupCodeOf(s) !in groupIds ==> w'.db.schedules == w.db.schedules)
  {
    var rt := Resolve(w.db, Teachers, w.teacherIds, s.teacher);
    if rt.Err? {
      GrowsRefl(w.db);
      return;
    }
    var t := rt.value;
    TeacherResolvedKeeps(w, s.teacher);
    var w1 := w.(db := t.db, teacherIds := t.cache);
    var rc := Resolve(w1.db, Classrooms, w1.classroomIds, s.classroom);
    if rc.Err? {
      return;
    }
    var c := rc.value;
    ClassroomResolvedKeeps(w1, s.classroom);
    var w2 := w1.(db := c.db, classroomIds := c.cache);
    GrowsTrans(w.db, w1.db, w2.db);
    var code := GroupCodeOf(s);
    if code !in groupIds || s.period.None? {
      return;
    }
    assert GroupRow(groupIds[code], subjectId, code) in w2.db.groups;
    if ScheduleInsert(w2.db, subjectId, groupIds[code], t.id, c.id, s).Ok? {
      ScheduleInsertKeeps(w2, subjectId, code, groupIds[code], t.id, c.id, s);
      GrowsTrans(w.db, w2.db, ScheduleInsert(w2.db, subjectId, groupIds[code], t.id, c.id, s).value.0);
    }
  }

  /** The schedule rows a successful schedule adds: one row, for the
      subject and the group its `whichClass` names, whose teacher and
      classroom rows carry the schedule's names, whose week day is the
      parsed `weekDay` and whose periods are the first and last entries of
      `period`. */
  lemma ScheduleStepInserts(w: Work, subjectId: nat, name: string, groupIds: map<string, nat>, s: NestedSchedule)
    requires WorkInv(w) && IdsOwned(w.db, subjectId, groupIds)
    requires ScheduleStep(w, subjectId, name, groupIds, s).Done?
    requires GroupCodeOf(s) in groupIds
    ensures var d := ScheduleStep(w, subjectId, name, groupIds, s).state.db;
      && |d.schedules| == |w.db.schedules| + 1 && d.schedules[..|w.db.schedules|] == w.db.schedules
      && var row := d.schedules[|w.db.schedules|];
      && row.subjectId == subjectId && row.groupId == groupIds[GroupCodeOf(s)]
      && s.teacher.Some? && NamedRow(row.teacherId, s.teacher.value) in d.teachers
      && s.classroom.Some? && NamedRow(row.classroomId, s.classroom.value) in d.classrooms
      && s.period.Some? && ParseOptional(s.weekDay) == Some(row.weekDay)
      && Collapse(s.period.value) == (Some(row.startPeriod), Some(row.endPeriod))
    ensures ScheduleStep(w, subjectId, name, groupIds, s).state.errors == w.errors
  {
    TeacherResolvedKeeps(w, s.teacher);
    var t := Resolve(w.db, Teachers, w.teacherIds, s.teacher).value;
    var w1 := w.(db := t.db, teacherIds := t.cache);
    ClassroomResolvedKeeps(w1, s.classroom);
    var c := Resolve(w1.db, Classrooms, w1.classroomIds, s.classroom).value;
    var w2 := w1.(db := c.db, classroomIds := c.cache);
    var code := GroupCodeOf(s);
    var d := ScheduleInsert(w2.db, subjectId, groupIds[code], t.id, c.id, s).value.0;
    assert ScheduleStep(w, subjectId, name, groupIds, s).state.db == d;
    assert w2.db.schedules == w.db.schedules;
    assert d.schedules[..|w.db.schedules|] == w.db.schedules;
  }

  /** A schedule whose `period` is the expansion of a range is stored with
      that range. */
  lemma IngestExpandedPeriod(w: Work, subjectId: nat, name: string, groupIds: map<string, nat>,
                             s: NestedSchedule, first: int, last: int)
    requires WorkInv(w) && IdsOwned(w.db, subjectId, groupIds)
    requires ScheduleStep(w, subjectId, name, groupIds, s).Done? && GroupCodeOf(s) in groupIds
    requires first <= last && s.period == Some(Expand(first, last))
    ensures var d := ScheduleStep(w, subjectId, name, groupIds, s).state.db;
      && |d.schedules| == |w.db.schedules| + 1
      && d.schedules[|w.db.schedules|].startPeriod == first
      && d.schedules[|w.db.schedules|].endPeriod == last
  {
    ScheduleStepInserts(w, subjectId, name, groupIds, s);
    CollapseExpand(first, last);
  }

  lemma {:induction false} ScheduleLoopKeeps(w: Work, subjectId: nat, name: string, groupIds: map<string, nat>,
                                             ss: seq<NestedSchedule>)
    requires WorkInv(w) && IdsOwned(w.db, subjectId, groupIds)
    ensures var w' := ScheduleLoop(w, subjectId, name, groupIds, ss).state;
      && WorkInv(w') && Grows(w.db, w'.db)
      && w'.db.subjects == w.db.subjects && w'.db.groups == w.db.groups
      && w.errors <= w'.errors
    decreases |ss|
  {
    if ss == [] {
      GrowsRefl(w.db);
    } else {
      ScheduleStepKeeps(w, subjectId, name, groupIds, ss[0]);
      var o := ScheduleStep(w, subjectId, name, groupIds, ss[0]);
      if o.Done? {
        ScheduleLoopKeeps(o.state, subjectId, name, groupIds, ss[1..]);
        GrowsTrans(w.db, o.state.db, ScheduleLoop(o.state, subjectId, name, groupIds, ss[1..]).state.db);
      }
    }
  }

  /** A schedule that completes either stores one row of the subject or
      reports one error. */
  lemma ScheduleStepAccounts(w: Work, subjectId: nat, name: string, groupIds: map<string, nat>, s: NestedSchedule)
    requires WorkInv(w) && IdsOwned(w.db, subjectId, groupIds)
    requires ScheduleStep(w, subjectId, name, groupIds, s).Done?
    ensures var w' := ScheduleStep(w, subjectId, name, groupIds, s).state;
      && w.db.schedules <= w'.db.schedules && w.errors <= w'.errors
      && |w'.db.schedules| + |w'.errors| == |w.db.schedules| + |w.errors| + 1
      && forall i :: |w.db.schedules| <= i < |w'.db.schedules| ==> w'.db.schedules[i].subjectId == subjectId
  {
    ScheduleStepKeeps(w, subjectId, name, groupIds, s);
    if GroupCodeOf(s) in groupIds {
      ScheduleStepInserts(w, subjectId, name, groupIds, s);
    }
  }

  /** Every schedule of a completed loop is stored as a row of the subject or
      reported as an error, and nothing else is added. */
  lemma {:induction false} ScheduleLoopAccounts(w: Work, subjectId: nat, name: string, groupIds: map<string, nat>,
                                                ss: seq<NestedSchedule>)
    requires WorkInv(w) && IdsOwned(w.db, subjectId, groupIds)
    requires ScheduleLoop(w, subjectId, name, groupIds, ss).Done?
    ensures var w' := ScheduleLoop(w, subjectId, name, groupIds, ss).state;
      && w.db.schedules <= w'.db.schedules && w.errors <= w'.errors
      && |w'.db.schedules| + |w'.errors| == |w.db.schedules| + |w.errors| + |ss|
      && forall i :: |w.db.schedules| <= i < |w'.db.schedules| ==> w'.db.schedules[i].subjectId == subjectId
    decreases |ss|
  {
    if ss != [] {
      var w1 := ScheduleStep(w, subjectId, name, groupIds, ss[0]).state;
      ScheduleStepKeeps(w, subjectId, name, groupIds, ss[0]);
      ScheduleStepAccounts(w, subjectId, name, groupIds, ss[0]);
      ScheduleLoopAccounts(w1, subjectId, name, groupIds, ss[1..]);
      var w2 := ScheduleLoop(w1, subjectId, name, groupIds, ss[1..]).state;
      forall i | |w.db.schedules| <= i < |w2.db.schedules| ensures w2.db.schedules[i].subjectId == subjectId {
        if i < |w1.db.schedules| {
          assert w2.db.schedules[i] == w1.db.schedules[i];
        }
      }
    }
  }

  /** The schedules of `ss` whose group code is one of `codes`, in order:
      the ones a completed loop stores. */
  function Filed(ss: seq<NestedSchedule>, codes: set<string>): seq<NestedSchedule>
    decreases |ss|
  {
    if ss == [] then []
    else (if GroupCodeOf(ss[0]) in codes then [ss[0]] else []) + Filed(ss[1..], codes)
  }

  /** The "Class group not found" entry, under `name`, of a schedule whose
      group code is not one of `codes`; none for the others. */
  function Unmatched(s: NestedSchedule, codes: set<string>, name: string): seq<Entry> {
    if GroupCodeOf(s) in codes then [] else [Entry(name, GroupNotFound(GroupCodeOf(s)))]
  }

  /** The entries of `Unmatched` for the schedules of `ss`, in order. */
  function Unfiled(ss: seq<NestedSchedule>, codes: set<string>, name: string): seq<Entry>
    decreases |ss|
  {
    if ss == [] then [] else Unmatched(ss[0], codes, name) + Unfiled(ss[1..], codes, name)
  }

  /** `row` is the row stored for `s` in `d`: of the subject, in the
      subject's group that `whichClass` names, with teacher and classroom
      rows carrying the schedule's names, the parsed week day, and the first
      and last entries of `period`. */
  ghost predicate StoredAs(d: Db, subjectId: nat, s: NestedSchedule, row: ScheduleRow) {
    && row.subjectId == subjectId
    && GroupRow(row.groupId, subjectId, GroupCodeOf(s)) in d.groups
    && s.teacher.Some? && NamedRow(row.teacherId, s.teacher.value) in d.teachers
    && s.classroom.Some? && NamedRow(row.classroomId, s.classroom.value) in d.classrooms
    && s.period.Some? && ParseOptional(s.weekDay) == Some(row.weekDay)
    && Collapse(s.period.value) == (Some(row.startPeriod), Some(row.endPeriod))
  }

  lemma StoredAsGrows(a: Db, b: Db, subjectId: nat, s: NestedSchedule, row: ScheduleRow)
    requires StoredAs(a, subjectId, s, row) && Grows(a, b)
    ensures StoredAs(b, subjectId, s, row)
  {
    assert b.teachers[..|a.teachers|] == a.teachers;
    assert b.classrooms[..|a.classrooms|] == a.classrooms;
    var t :| 0 <= t < |a.teachers| && a.teachers[t] == NamedRow(row.teacherId, s.teacher.value);
    assert b.teachers[t] == a.teachers[t];
    var c :| 0 <= c < |a.classrooms| && a.classrooms[c] == NamedRow(row.classroomId, s.classroom.value);
    assert b.classrooms[c] == a.classrooms[c];
  }

  /** One completed schedule keeps the invariants and the map's groups, and
      appends the row stored for it exactly when its group code is in the
      map. */
  lemma ScheduleStepFiles(w: Work, subjectId: nat, name: string, groupIds: map<string, nat>, s: NestedSchedule)
    requires WorkInv(w) && IdsOwned(w.db, subjectId, groupIds)
    requires ScheduleStep(w, subjectId, name, groupIds, s).Done?
    ensures var d := ScheduleStep(w, subjectId, name, groupIds, s).state.db;
      && WorkInv(ScheduleStep(w, subjectId, name, groupIds, s).state) && IdsOwned(d, subjectId, groupIds)
      && w.db.schedules <= d.schedules
      && (GroupCodeOf(s) !in groupIds ==> |d.schedules| == |w.db.schedules|)
      && (GroupCodeOf(s) in groupIds ==>
            |d.schedules| == |w.db.schedules| + 1 && StoredAs(d, subjectId, s, d.schedules[|w.db.schedules|]))
    ensures ScheduleStep(w, subjectId, name, groupIds, s).state.errors == w.errors + Unmatched(s, groupIds.Keys, name)
  {
    ScheduleStepKeeps(w, subjectId, name, groupIds, s);
    if GroupCodeOf(s) in groupIds {
      ScheduleStepInserts(w, subjectId, name, groupIds, s);
    }
  }

  /** From index `from` on, the rows of `d` are the rows stored for `filed`,
      one each and in order. */
  ghost predicate FiledRows(d: Db, subjectId: nat, filed: seq<NestedSchedule>, from: nat) {
    && |d.schedules| == from + |filed|
    && forall k :: 0 <= k < |filed| ==> StoredAs(d, subjectId, filed[k], d.schedules[from + k])
  }

  /** A row stored for `s` right before the rows stored for `rest`, in a
      database that grows into `d`. */
  lemma FiledRowsCons(a: Db, d: Db, subjectId: nat, s: NestedSchedule, rest: seq<NestedSchedule>, from: nat)
    requires |a.schedules| == from + 1 && StoredAs(a, subjectId, s, a.schedules[from])
    requires Grows(a, d) && FiledRows(d, subjectId, rest, from + 1)
    ensures FiledRows(d, subjectId, [s] + rest, from)
  {
    StoredAsGrows(a, d, subjectId, s, a.schedules[from]);
    assert d.schedules[from] == a.schedules[from];
    var filed := [s] + rest;
    forall k | 0 <= k < |filed| ensures StoredAs(d, subjectId, filed[k], d.schedules[from + k]) {
      if k > 0 {
        assert filed[k] == rest[k - 1] && from + k == (from + 1) + (k - 1);
      }
    }
  }

  /** A completed loop reports exactly the schedules whose group code is not
      in the map, in order. */
  lemma {:induction false} ScheduleLoopReports(w: Work, subjectId: nat, name: string, groupIds: map<string, nat>,
                                               ss: seq<NestedSchedule>)
    requires WorkInv(w) && IdsOwned(w.db, subjectId, groupIds)
    requires ScheduleLoop(w, subjectId, name, groupIds, ss).Done?
    ensures ScheduleLoop(w, subjectId, name, groupIds, ss).state.errors == w.errors + Unfiled(ss, groupIds.Keys, name)
    decreases |ss|
  {
    if ss == [] {
      assert w.errors + [] == w.errors;
    } else {
      var w1 := ScheduleStep(w, subjectId, name, groupIds, ss[0]).state;
      assert ScheduleLoop(w, subjectId, name, groupIds, ss) == ScheduleLoop(w1, subjectId, name, groupIds, ss[1..]);
      ScheduleStepFiles(w, subjectId, name, groupIds, ss[0]);
      ScheduleLoopReports(w1, subjectId, name, groupIds, ss[1..]);
      var head := Unmatched(ss[0], groupIds.Keys, name);
      var tail := Unfiled(ss[1..], groupIds.Keys, name);
      assert Unfiled(ss, groupIds.Keys, name) == head + tail;
      assert w1.errors == w.errors + head;
      AppendAssoc(w.errors, head, tail);
    }
  }

  /** A completed loop appends exactly one row per schedule whose group code
      is in the map, in the order of `ss`, each the row stored for it. */
  lemma {:induction false} ScheduleLoopFiles(w: Work, subjectId: nat, name: string, groupIds: map<string, nat>,
                                             ss: seq<NestedSchedule>)
    requires WorkInv(w) && IdsOwned(w.db, subjectId, groupIds)
    requires ScheduleLoop(w, subjectId, name, groupIds, ss).Done?
    ensures FiledRows(ScheduleLoop(w, subjectId, name, groupIds, ss).state.db, subjectId,
                      Filed(ss, groupIds.Keys), |w.db.schedules|)
    decreases |ss|
  {
    if ss != [] {
      var w1 := ScheduleStep(w, subjectId, name, groupIds, ss[0]).state;
      assert ScheduleLoop(w, subjectId, name, groupIds, ss) == ScheduleLoop(w1, subjectId, name, groupIds, ss[1..]);
      ScheduleStepFiles(w, subjectId, name, groupIds, ss[0]);
      ScheduleLoopFiles(w1, subjectId, name, groupIds, ss[1..]);
      var rest := Filed(ss[1..], groupIds.Keys);
      if GroupCodeOf(ss[0]) in groupIds {
        ScheduleLoopKeeps(w1, subjectId, name, groupIds, ss[1..]);
        var d := ScheduleLoop(w1, subjectId, name, groupIds, ss[1..]).state.db;
        FiledRowsCons(w1.db, d, subjectId, ss[0], rest, |w.db.schedules|);
        assert Filed(ss, groupIds.Keys) == [ss[0]] + rest;
      } else {
        assert Filed(ss, groupIds.Keys) == rest;
      }
    }
  }

  // ---------------------------------------------------------------------
  // Groups
  // ---------------------------------------------------------------------

  /** One group insert keeps the constraints and appends one group of the
      subject, recorded in the map. */
  lemma InsertGroupKeeps(db: Db, subjectId: nat, code: string, ids: map<string, nat>)
    requires Valid(db) && GroupsMatch(db) && IdsOwned(db, subjectId, ids)
    requires InsertGroup(db, subjectId, code).Ok?
    ensures var r := InsertGroup(db, subjectId, code).value;
      && Valid(r.0) && GroupsMatch(r.0) && IdsOwned(r.0, subjectId, ids[code := r.1])
      && r.0 == db.(groups := db.groups + [GroupRow(r.1, subjectId, code)],
                    serials := db.serials.(group := r.0.serials.group))
  {
    var r := InsertGroup(db, subjectId, code).value;
    var d := r.0;
    assert d.groups == db.groups + [GroupRow(r.1, subjectId, code)];
    forall q | q in d.schedules
      ensures exists g :: g in d.groups && g.id == q.groupId && g.subjectId == q.subjectId
    {
      var g :| g in db.groups && g.id == q.groupId && g.subjectId == q.subjectId;
      assert g in d.groups;
    }
  }

  /** The group inserts keep the constraints and change only the groups. */
  lemma {:induction false} GroupLoopKeeps(db: Db, subjectId: nat, codes: seq<string>, ids: map<string, nat>)
    requires Valid(db) && GroupsMatch(db) && IdsOwned(db, subjectId, ids)
    ensures var g := GroupLoop(db, subjectId, codes, ids).state;
      && Valid(g.0) && GroupsMatch(g.0) && IdsOwned(g.0, subjectId, g.1)
      && g.0 == db.(groups := g.0.groups, serials := db.serials.(group := g.0.serials.group))
      && db.groups <= g.0.groups
    decreases |codes|
  {
    if codes != [] && InsertGroup(db, subjectId, codes[0]).Ok? {
      var r := InsertGroup(db, subjectId, codes[0]).value;
      InsertGroupKeeps(db, subjectId, codes[0], ids);
      GroupLoopKeeps(r.0, subjectId, codes[1..], ids[codes[0] := r.1]);
    }
  }

  /** When all group inserts succeed they append exactly `codes` to the
      subject's groups. */
  lemma {:induction false} GroupLoopAppends(db: Db, subjectId: nat, codes: seq<string>, ids: map<string, nat>)
    requires GroupLoop(db, subjectId, codes, ids).Done?
    ensures var g := GroupLoop(db, subjectId, codes, ids).state;
      CodesOf(GroupsOf(g.0, subjectId)) == CodesOf(GroupsOf(db, subjectId)) + codes
    decreases |codes|
  {
    if codes != [] {
      var r := InsertGroup(db, subjectId, codes[0]).value;
      assert GroupLoop(db, subjectId, codes, ids) == GroupLoop(r.0, subjectId, codes[1..], ids[codes[0] := r.1]);
      assert codes == [codes[0]] + codes[1..];
      InsertGroupCodes(db, subjectId, codes[0]);
      GroupLoopAppends(r.0, subjectId, codes[1..], ids[codes[0] := r.1]);
    }
  }

  /** When all group inserts succeed, every code is in the code-to-id map. */
  lemma {:induction false} GroupLoopRecords(db: Db, subjectId: nat, codes: seq<string>, ids: map<string, nat>)
    requires GroupLoop(db, subjectId, codes, ids).Done?
    ensures forall c :: c in codes ==> c in GroupLoop(db, subjectId, codes, ids).state.1
    decreases |codes|
  {
    if codes != [] {
      var r := InsertGroup(db, subjectId, codes[0]).value;
      var ids' := ids[codes[0] := r.1];
      assert GroupLoop(db, subjectId, codes, ids) == GroupLoop(r.0, subjectId, codes[1..], ids');
      GroupLoopRecords(r.0, subjectId, codes[1..], ids');
      GroupLoopKeepsKeys(r.0, subjectId, codes[1..], ids');
      forall c | c in codes ensures c == codes[0] || c in codes[1..] {
        var i :| 0 <= i < |codes| && codes[i] == c;
        if i > 0 {
          assert codes[1..][i - 1] == c;
        }
      }
    }
  }

  /** One group insert appends its code to the subject's group codes. */
  lemma InsertGroupCodes(db: Db, subjectId: nat, code: string)
    requires InsertGroup(db, subjectId, code).Ok?
    ensures CodesOf(GroupsOf(InsertGroup(db, subjectId, code).value.0, subjectId))
         == CodesOf(GroupsOf(db, subjectId)) + [code]
  {
    var r := InsertGroup(db, subjectId, code).value;
    var row := GroupRow(r.1, subjectId, code);
    assert r.0.groups == db.groups + [row];
    FilterAppend(db.groups, [row], (g: GroupRow) => g.subjectId == subjectId);
    var before := GroupsOf(db, subjectId);
    assert GroupsOf(r.0, subjectId) == before + [row];
    var a := CodesOf(before + [row]);
    var b := CodesOf(before) + [code];
    assert |a| == |b|;
    forall i | 0 <= i < |a| ensures a[i] == b[i] {
      if i < |before| {
        assert (before + [row])[i] == before[i];
      }
    }
  }

  lemma {:induction false} GroupLoopKeepsKeys(db: Db, subjectId: nat, codes: seq<string>, ids: map<string, nat>)
    ensures ids.Keys <= GroupLoop(db, subjectId, codes, ids).state.1.Keys
    decreases |codes|
  {
    if codes != [] && InsertGroup(db, subjectId, codes[0]).Ok? {
      var r := InsertGroup(db, subjectId, codes[0]).value;
      GroupLoopKeepsKeys(r.0, subjectId, codes[1..], ids[codes[0] := r.1]);
    }
  }

  /** Every group the loop adds belongs to the subject. */
  lemma {:induction false} GroupLoopOwnRows(db: Db, subjectId: nat, codes: seq<string>, ids: map<string, nat>)
    ensures var g := GroupLoop(db, subjectId, codes, ids).state.0;
      && db.groups <= g.groups
      && forall i :: |db.groups| <= i < |g.groups| ==> g.groups[i].subjectId == subjectId
    decreases |codes|
  {
    if codes != [] && InsertGroup(db, subjectId, codes[0]).Ok? {
      var r := InsertGroup(db, subjectId, codes[0]).value;
      GroupLoopOwnRows(r.0, subjectId, codes[1..], ids[codes[0] := r.1]);
      var g := GroupLoop(r.0, subjectId, codes[1..], ids[codes[0] := r.1]).state.0;
      forall i | |db.groups| <= i < |g.groups| ensures g.groups[i].subjectId == subjectId {
        if i < |r.0.groups| {
          assert g.groups[i] == r.0.groups[i];
        }
      }
    }
  }

  /** A subject id no row has yet owns no group. */
  lemma NoGroupsOfFreshSubject(db: Db, subjectId: nat)
    requires Valid(db) && !HasSubject(db, subjectId)
    ensures GroupsOf(db, subjectId) == []
  {
    FilterKeepsNone(db.groups, (g: GroupRow) => g.subjectId == subjectId);
  }

  /** Group inserts from an empty map, for a subject that had no group, map
      exactly the inserted codes. */
  lemma CreatedGroupKeys(db: Db, subjectId: nat, codes: seq<string>)
    requires Valid(db) && GroupsMatch(db) && GroupsOf(db, subjectId) == []
    requires GroupLoop(db, subjectId, codes, map[]).Done?
    ensures GroupLoop(db, subjectId, codes, map[]).state.1.Keys == set c | c in codes
  {
    GroupLoopKeeps(db, subjectId, codes, map[]);
    GroupLoopAppends(db, subjectId, codes, map[]);
    GroupLoopRecords(db, subjectId, codes, map[]);
    var g := GroupLoop(db, subjectId, codes, map[]).state;
    assert CodesOf([]) + codes == codes;
    forall c | c in g.1 ensures c in codes {
      var row := GroupRow(g.1[c], subjectId, c);
      assert row in GroupsOf(g.0, subjectId);
      var i :| 0 <= i < |GroupsOf(g.0, subjectId)| && GroupsOf(g.0, subjectId)[i] == row;
      assert CodesOf(GroupsOf(g.0, subjectId))[i] == c;
    }
  }

  // ---------------------------------------------------------------------
  // One subject
  // ---------------------------------------------------------------------

  lemma LowerCodesGrow(a: Db, b: Db)
    requires a.subjects <= b.subjects
    ensures LowerCodes(a) <= LowerCodes(b)
  {
    forall x | x in LowerCodes(a) ensures x in LowerCodes(b) {
      var s :| s in a.subjects && Lower(s.code) == x;
      assert s in b.subjects;
    }
  }

  lemma CreateOneKeeps(b: Batch, d: NestedSubject)
    requires BatchInv(b)
    ensures BatchInv(CreateOne(b, d)) && Grows(b.w.db, CreateOne(b, d).w.db)
  {
    if d.name.None? || Lower(d.name.value) in b.existing || d.name.value == ""
       || !Truthy(d.description) || !Truthy(d.semester) {
      GrowsRefl(b.w.db);
    } else {
      CreateNewKeeps(b, d, d.name.value);
    }
  }

  lemma CreateNewKeeps(b: Batch, d: NestedSubject, name: string)
    requires BatchInv(b) && Truthy(d.description) && Truthy(d.semester)
    ensures BatchInv(CreateNew(b, d, name)) && Grows(b.w.db, CreateNew(b, d, name).w.db)
  {
    var r := InsertSubject(b.w.db, name, d.description.value, d.semester.value, d.multiClass, d.greve);
    if r.Err? {
      GrowsRefl(b.w.db);
      return;
    }
    var db1 := r.value.0;
    var row := SubjectRow(r.value.1, name, d.description.value, d.semester.value, d.multiClass, d.greve);
    assert db1.subjects == b.w.db.subjects + [row];
    assert Grows(b.w.db, db1) by {
      AddedFreshRefl(db1.teachers);
      AddedFreshRefl(db1.classrooms);
    }
    assert Lower(name) in LowerCodes(db1);
    CreateGroupsKeeps(b, d, name, db1, r.value.1);
  }

  lemma CreateGroupsKeeps(b: Batch, d: NestedSubject, name: string, db1: Db, subjectId: nat)
    requires BatchInv(b) && Truthy(d.description) && Truthy(d.semester)
    requires Valid(db1) && GroupsMatch(db1) && Grows(b.w.db, db1)
    requires Lower(name) in LowerCodes(db1)
    ensures BatchInv(CreateGroups(b, d, name, db1, subjectId)) && Grows(b.w.db, CreateGroups(b, d, name, db1, subjectId).w.db)
  {
    GroupLoopKeeps(db1, subjectId, GroupCodesFor(d), map[]);
    var g := GroupLoop(db1, subjectId, GroupCodesFor(d), map[]);
    GroupsOnlyGrow(db1, g.state.0);
    GrowsTrans(b.w.db, db1, g.state.0);
    LowerCodesGrow(db1, g.state.0);
    LowerCodesGrow(b.w.db, g.state.0);
    if g.Done? {
      CreateSchedulesKeeps(b, d, name, subjectId, g.state.0, g.state.1);
    }
  }

  lemma CreateSchedulesKeeps(b: Batch, d: NestedSubject, name: string, subjectId: nat, db2: Db,
                             groupIds: map<string, nat>)
    requires BatchInv(b) && Truthy(d.description) && Truthy(d.semester)
    requires WorkInv(b.w.(db := db2)) && Grows(b.w.db, db2) && IdsOwned(db2, subjectId, groupIds)
    requires Lower(name) in LowerCodes(db2)
    ensures BatchInv(CreateSchedules(b, d, name, subjectId, db2, groupIds))
    ensures Grows(b.w.db, CreateSchedules(b, d, name, subjectId, db2, groupIds).w.db)
  {
    var w1 := b.w.(db := db2);
    ScheduleLoopKeeps(w1, subjectId, name, groupIds, ClassesOf(d));
    var w2 := ScheduleLoop(w1, subjectId, name, groupIds, ClassesOf(d)).state;
    GrowsTrans(b.w.db, db2, w2.db);
    LowerCodesGrow(b.w.db, w2.db);
    LowerCodesGrow(db2, w2.db);
  }

  /** An item without a name, with a name already seen (case-insensitively),
      or missing a required field writes nothing and creates nothing; it is
      reported as skipped exactly when its name was already seen. */
  lemma CreateOneRejects(b: Batch, d: NestedSubject)
    requires d.name.None? || Lower(d.name.value) in b.existing || d.name.value == ""
             || !Truthy(d.description) || !Truthy(d.semester)
    ensures var b' := CreateOne(b, d);
      && b'.w.db == b.w.db && b'.created == b.created && b'.existing == b.existing
      && (d.name.Some? && Lower(d.name.value) in b.existing
          ==> b'.skipped == b.skipped + [Entry(d.name.value, AlreadyExists)] && b'.w.errors == b.w.errors)
      && (d.name.None? ==> b'.w.errors == b.w.errors + [Entry("Unknown", Thrown(TypeError))])
      && (d.name.Some? && Lower(d.name.value) !in b.existing
          ==> b'.w.errors == b.w.errors + [Entry(OrElse(d.name, "Unknown"), MissingFields)])
  {
  }

  /** A created subject: its row carries the item's fields under the next
      subject id, and its groups are exactly the codes the item asks for, in
      order. */
  lemma CreateOneCreates(b: Batch, d: NestedSubject)
    requires BatchInv(b)
    requires |CreateOne(b, d).created| == |b.created| + 1
    ensures d.name.Some? && d.description.Some? && d.semester.Some?
    ensures var db := CreateOne(b, d).w.db;
      var id := b.w.db.serials.subject;
      && SubjectRow(id, d.name.value, d.description.value, d.semester.value, d.multiClass, d.greve) in db.subjects
      && CodesOf(GroupsOf(db, id)) == GroupCodesFor(d)
      && CreateOne(b, d).created[|b.created|].schedules == |ClassesOf(d)|
  {
    var name := d.name.value;
    var r := InsertSubject(b.w.db, name, d.description.value, d.semester.value, d.multiClass, d.greve);
    var id := r.value.1;
    var db1 := r.value.0;
    assert db1.groups == b.w.db.groups;
    NoGroupsOfFreshSubject(b.w.db, id);
    GroupLoopKeeps(db1, id, GroupCodesFor(d), map[]);
    GroupLoopAppends(db1, id, GroupCodesFor(d), map[]);
    var g := GroupLoop(db1, id, GroupCodesFor(d), map[]);
    var w1 := b.w.(db := g.state.0);
    ScheduleLoopKeeps(w1, id, name, g.state.1, ClassesOf(d));
    var w2 := ScheduleLoop(w1, id, name, g.state.1, ClassesOf(d)).state;
    assert GroupsOf(w2.db, id) == GroupsOf(g.state.0, id);
    assert SubjectRow(id, name, d.description.value, d.semester.value, d.multiClass, d.greve) in db1.subjects;
  }

  /** A created subject's schedules: its new rows are the rows stored for
      the schedules whose group code is one of the groups it was given, one
      each and in order, and each other schedule is reported as "Class group
      not found" under the subject's name, in order. */
  lemma CreateOneFiles(b: Batch, d: NestedSubject)
    requires BatchInv(b)
    requires |CreateOne(b, d).created| == |b.created| + 1
    ensures d.name.Some?
    ensures var b' := CreateOne(b, d);
      var codes := set c | c in GroupCodesFor(d);
      && FiledRows(b'.w.db, b.w.db.serials.subject, Filed(ClassesOf(d), codes), |b.w.db.schedules|)
      && b'.w.errors == b.w.errors + Unfiled(ClassesOf(d), codes, d.name.value)
  {
    var name := d.name.value;
    var r := InsertSubject(b.w.db, name, d.description.value, d.semester.value, d.multiClass, d.greve);
    var id := r.value.1;
    var db1 := r.value.0;
    assert db1.groups == b.w.db.groups && db1.schedules == b.w.db.schedules;
    NoGroupsOfFreshSubject(b.w.db, id);
    CreatedGroupKeys(db1, id, GroupCodesFor(d));
    GroupLoopKeeps(db1, id, GroupCodesFor(d), map[]);
    var g := GroupLoop(db1, id, GroupCodesFor(d), map[]).state;
    var w1 := b.w.(db := g.0);
    assert CacheSound(g.0, Teachers, b.w.teacherIds) && CacheSound(g.0, Classrooms, b.w.classroomIds);
    ScheduleLoopFiles(w1, id, name, g.1, ClassesOf(d));
    ScheduleLoopReports(w1, id, name, g.1, ClassesOf(d));
  }

  // ---------------------------------------------------------------------
  // The batch
  // ---------------------------------------------------------------------

  lemma {:induction false} RunBatchKeeps(b: Batch, items: seq<Option<NestedSubject>>)
    requires BatchInv(b)
    requires RunBatch(b, items).Ok?
    ensures BatchInv(RunBatch(b, items).value) && Grows(b.w.db, RunBatch(b, items).value.w.db)
    decreases |items|
  {
    if items == [] {
      GrowsRefl(b.w.db);
    } else {
      var b1 := CreateOne(b, items[0].value);
      CreateOneKeeps(b, items[0].value);
      RunBatchKeeps(b1, items[1..]);
      GrowsTrans(b.w.db, b1.w.db, RunBatch(b1, items[1..]).value.w.db);
    }
  }

  /** createClasses keeps every schema constraint and the group-belongs-to-
      subject invariant, only appends rows, and every subject it reports as
      created is in the table afterwards (so a second run skips it). */
  lemma CreateClassesKeeps(db: Db, items: seq<Option<NestedSubject>>)
    requires Valid(db) && GroupsMatch(db)
    requires CreateClassesSpec(db, items).Ok?
    ensures var res := CreateClassesSpec(db, items).value;
      && Valid(res.0) && GroupsMatch(res.0) && Grows(db, res.0)
      && forall e :: e in res.1.created ==> Lower(e.name) in LowerCodes(res.0)
  {
    RunBatchKeeps(StartBatch(db), items);
  }

  /** Some schedule of `db` refers to a teacher row called `n`. */
  ghost predicate TeacherInUse(db: Db, n: string) {
    exists s, t :: s in db.schedules && t in db.teachers && t.id == s.teacherId && t.name == n
  }

  /** Some schedule of `db` refers to a classroom row called `n`. */
  ghost predicate ClassroomInUse(db: Db, n: string) {
    exists s, c :: s in db.schedules && c in db.classrooms && c.id == s.classroomId && c.name == n
  }

  /** A name with a row has a count of at least one. */
  lemma CountNameHeld(rows: seq<NamedRow>, row: NamedRow)
    requires row in rows
    ensures CountName(rows, row.name) >= 1
  {
    assert row in Filter(rows, (r: NamedRow) => r.name == row.name);
  }

  /** No teacher name gets a second row in a run: a name that had rows has
      the same number afterwards, and a new name has at most one row, and
      exactly one once a stored schedule refers to it; likewise for
      classrooms. */
  lemma CreateClassesNamesOnce(db: Db, items: seq<Option<NestedSubject>>, n: string)
    requires Valid(db) && GroupsMatch(db)
    requires CreateClassesSpec(db, items).Ok?
    ensures var after := CreateClassesSpec(db, items).value.0;
      && (CountName(db.teachers, n) > 0 ==> CountName(after.teachers, n) == CountName(db.teachers, n))
      && (CountName(db.teachers, n) == 0 ==> CountName(after.teachers, n) <= 1)
      && (CountName(db.classrooms, n) > 0 ==> CountName(after.classrooms, n) == CountName(db.classrooms, n))
      && (CountName(db.classrooms, n) == 0 ==> CountName(after.classrooms, n) <= 1)
      && (CountName(db.teachers, n) == 0 && TeacherInUse(after, n) ==> CountName(after.teachers, n) == 1)
      && (CountName(db.classrooms, n) == 0 && ClassroomInUse(after, n) ==> CountName(after.classrooms, n) == 1)
  {
    CreateClassesKeeps(db, items);
    var after := CreateClassesSpec(db, items).value.0;
    AddedFreshCounts(db.teachers, after.teachers, n);
    AddedFreshCounts(db.classrooms, after.classrooms, n);
    InUseCounted(after, n);
  }

  /** A name some schedule refers to has at least one row. */
  lemma InUseCounted(d: Db, n: string)
    ensures TeacherInUse(d, n) ==> CountName(d.teachers, n) >= 1
    ensures ClassroomInUse(d, n) ==> CountName(d.classrooms, n) >= 1
  {
    if TeacherInUse(d, n) {
      var s, t :| s in d.schedules && t in d.teachers && t.id == s.teacherId && t.name == n;
      CountNameHeld(d.teachers, t);
    }
    if ClassroomInUse(d, n) {
      var s, c :| s in d.schedules && c in d.classrooms && c.id == s.classroomId && c.name == n;
      CountNameHeld(d.classrooms, c);
    }
  }

  /** The items of a batch are objects with names. */
  predicate AllNamed(items: seq<Option<NestedSubject>>) {
    forall d :: d in items ==> d.Some? && d.value.name.Some?
  }

  /** ... whose codes are all in `known`, compared case-insensitively. */
  predicate AllKnown(items: seq<Option<NestedSubject>>, known: set<string>) {
    forall d :: d in items ==> d.Some? && d.value.name.Some? && Lower(d.value.name.value) in known
  }

  /** The "already exists" entries for such a batch. */
  function SkipsOf(items: seq<Option<NestedSubject>>): (r: seq<Entry>)
    requires AllNamed(items)
    ensures |r| == |items|
    ensures forall i :: 0 <= i < |items| ==> r[i] == Entry(items[i].value.name.value, AlreadyExists)
    decreases |items|
  {
    if items == [] then []
    else
      assert items[0] in items;
      [Entry(items[0].value.name.value, AlreadyExists)] + SkipsOf(items[1..])
  }

  lemma {:induction false} RunBatchSkipsKnown(b: Batch, items: seq<Option<NestedSubject>>)
    requires AllKnown(items, b.existing)
    ensures RunBatch(b, items) == Ok(b.(skipped := b.skipped + SkipsOf(items)))
    decreases |items|
  {
    if items == [] {
      assert b.skipped + SkipsOf(items) == b.skipped;
    } else {
      assert items[0] in items;
      var b1 := b.(skipped := b.skipped + [Entry(items[0].value.name.value, AlreadyExists)]);
      RunBatchSkipStep(b, items);
      KnownTail(items, b.existing);
      RunBatchSkipsKnown(b1, items[1..]);
      SkipsJoin(b, items);
    }
  }

  /** The rest of a batch of known items is known. */
  lemma KnownTail(items: seq<Option<NestedSubject>>, known: set<string>)
    requires items != [] && AllKnown(items, known)
    ensures AllKnown(items[1..], known)
  {
    forall d | d in items[1..] ensures d in items {
      var i :| 0 <= i < |items[1..]| && items[1..][i] == d;
      assert items[i + 1] == d;
    }
  }

  /** Adding the first entry and then the rest's entries is adding them all. */
  lemma SkipsJoin(b: Batch, items: seq<Option<NestedSubject>>)
    requires items != [] && AllNamed(items)
    ensures AllNamed(items[1..])
    ensures var b1 := b.(skipped := b.skipped + [Entry(items[0].value.name.value, AlreadyExists)]);
      b1.(skipped := b1.skipped + SkipsOf(items[1..])) == b.(skipped := b.skipped + SkipsOf(items))
  {
    assert items[0] in items;
    assert b.skipped + [Entry(items[0].value.name.value, AlreadyExists)] + SkipsOf(items[1..])
        == b.skipped + SkipsOf(items);
  }

  /** A first item whose code is already known only adds its "already
      exists" entry before the rest of the batch. */
  lemma RunBatchSkipStep(b: Batch, items: seq<Option<NestedSubject>>)
    requires items != [] && items[0].Some? && items[0].value.name.Some?
    requires Lower(items[0].value.name.value) in b.existing
    ensures RunBatch(b, items)
         == RunBatch(b.(skipped := b.skipped + [Entry(items[0].value.name.value, AlreadyExists)]), items[1..])
  {
    var d := items[0].value;
    assert CreateOne(b, d) == b.(skipped := b.skipped + [Entry(d.name.value, AlreadyExists)]);
  }

  /** Re-running a batch whose subjects all exist (compared case-insensitively)
      writes nothing and reports every item as skipped. */
  lemma RerunChangesNothing(db: Db, items: seq<Option<NestedSubject>>)
    requires AllKnown(items, LowerCodes(db))
    ensures CreateClassesSpec(db, items) == Ok((db, CreateReport([], SkipsOf(items), [])))
  {
    RunBatchSkipsKnown(StartBatch(db), items);
    assert [] + SkipsOf(items) == SkipsOf(items);
  }

  /** A `null` item anywhere in the batch rolls the whole batch back. */
  lemma {:induction false} NullItemAborts(b: Batch, items: seq<Option<NestedSubject>>)
    requires exists i :: 0 <= i < |items| && items[i].None?
    ensures RunBatch(b, items) == Err(TypeError)
    decreases |items|
  {
    if items[0].Some? {
      var i :| 0 <= i < |items| && items[i].None?;
      assert items[1..][i - 1] == items[i];
      NullItemAborts(CreateOne(b, items[0].value), items[1..]);
    }
  }
}
