/** The write side and the read side together: a schedule that createClasses
    or update stores comes back from the join and the transformer as the
    schedule that was sent, when it was sent in the form the transformer
    produces. */
module RoundTrip {
  import opened Common
  import opened Tables
  import opened PeriodCodec
  import opened Records
  import opened Ingest
  import opened IngestProofs
  import opened ClassTransformer

  /** The join row of a stored schedule: its subject's columns, its group's
      code, its own columns and the names of its teacher and classroom. */
  function JoinOf(subject: SubjectRow, groupCode: string, row: ScheduleRow, teacher: string, classroom: string)
    : JoinRow
  {
    JoinRow(subject.code, subject.name, subject.semester, subject.multiClass, subject.onStrike, Some(groupCode),
            Some(Slot(row.weekDay, row.startPeriod, row.endPeriod, teacher, classroom)))
  }

  /** A schedule is stored, read back through the join and transformed:
      when its week day is the decimal string of a number, its period the
      expansion of a range, its teacher named, and its `whichClass` given
      exactly for a multi-class subject, the transformer returns it
      unchanged. The join row uses the subject, group, teacher and classroom
      rows the stored row points to. */
  lemma ScheduleRoundTrip(w: Work, subjectId: nat, name: string, groupIds: map<string, nat>, s: NestedSchedule,
                          subject: SubjectRow, weekDay: int, first: int, last: int)
    requires WorkInv(w) && IdsOwned(w.db, subjectId, groupIds)
    requires subject in w.db.subjects && subject.id == subjectId
    requires ScheduleStep(w, subjectId, name, groupIds, s).Done? && GroupCodeOf(s) in groupIds
    requires s.weekDay == Some(IntToString(weekDay))
    requires first <= last && s.period == Some(Expand(first, last))
    requires Truthy(s.teacher)
    requires if subject.multiClass then Truthy(s.whichClass) else s.whichClass.None?
    ensures var d := ScheduleStep(w, subjectId, name, groupIds, s).state.db;
      && |d.schedules| == |w.db.schedules| + 1
      && var row := d.schedules[|w.db.schedules|];
      && s.classroom.Some?
      && subject in d.subjects && row.subjectId == subject.id
      && GroupRow(row.groupId, subjectId, GroupCodeOf(s)) in d.groups
      && NamedRow(row.teacherId, s.teacher.value) in d.teachers
      && NamedRow(row.classroomId, s.classroom.value) in d.classrooms
      && var j := JoinOf(subject, GroupCodeOf(s), row, s.teacher.value, s.classroom.value);
      && Listed(j) && ScheduleOf(j) == s
  {
    ScheduleStepInserts(w, subjectId, name, groupIds, s);
    IngestExpandedPeriod(w, subjectId, name, groupIds, s, first, last);
    ScheduleStepKeeps(w, subjectId, name, groupIds, s);
    ParseIntToString(weekDay);
    var d := ScheduleStep(w, subjectId, name, groupIds, s).state.db;
    var row := d.schedules[|w.db.schedules|];
    assert row in d.schedules;
    assert row.weekDay == weekDay;
    var j := JoinOf(subject, GroupCodeOf(s), row, s.teacher.value, s.classroom.value);
    assert Listed(j);
    assert ScheduleOf(j).whichClass == s.whichClass;
  }
}
