/** The engine itself: createClasses, update, delete, clean and populate as
    methods that issue their statements one by one against a `Store`. Each
    method's final store and result are those of the function that specifies
    it, so everything proved about the functions holds of the engine. */
module SubjectModel {
  import opened Common
  import opened Tables
  import opened PeriodCodec
  import opened Records
  import opened Resolver
  import opened Ingest
  import opened Update
  import opened Maintenance
  import opened PopulateModel
  import opened StoreModel

  /** The state an engine run keeps beside the store: the teacher and
      classroom caches and the error list. */
  datatype Scratch = Scratch(teacherIds: map<string, nat>, classroomIds: map<string, nat>, errors: seq<Entry>)

  function At(d: Db, sc: Scratch): Work {
    Work(d, sc.teacherIds, sc.classroomIds, sc.errors)
  }

  /** The store `d`, the scratch state and the fault are the outcome `o`. */
  ghost predicate Ended(o: Outcome<Work>, d: Db, sc: Scratch, fault: Option<Fault>) {
    match o
    case Done(w) => At(d, sc) == w && fault == None
    case Threw(w, f) => At(d, sc) == w && fault == Some(f)
  }

  ghost predicate Resolved(before: Db, spec: Result<Resolution, Violation>, after: Db,
                           r: Result<(map<string, nat>, nat, bool), Violation>) {
    match spec
    case Ok(res) => after == res.db && r == Ok((res.cache, res.id, res.inserted))
    case Err(v) => after == before && r == Err(v)
  }

  /** The teacher or classroom of a schedule: from the cache, else by
      `SELECT`, else by `INSERT`. */
  method ResolveName(db: Store, k: Kind, cache: map<string, nat>, name: Option<string>)
    returns (r: Result<(map<string, nat>, nat, bool), Violation>)
    modifies db
    ensures Resolved(old(db.Abs()), Resolve(old(db.Abs()), k, cache, name), db.Abs(), r)
  {
    if name.Some? && name.value in cache {
      return Ok((cache, cache[name.value], false));
    }
    var found := db.SelectNamed(k, name);
    if found.Some? {
      return Ok((cache[name.value := found.value], found.value, false));
    }
    var ins := db.InsertNamed(k, name);
    if ins.Err? {
      return Err(ins.error);
    }
    r := Ok((cache[name.value := ins.value], ins.value, true));
  }

  // ---------------------------------------------------------------------
  // createClasses
  // ---------------------------------------------------------------------

  /** One schedule of a subject being created or updated. */
  method AddSchedule(db: Store, subjectId: nat, name: string, groupIds: map<string, nat>, s: NestedSchedule,
                     sc: Scratch)
    returns (sc': Scratch, fault: Option<Fault>)
    modifies db
    ensures Ended(ScheduleStep(At(old(db.Abs()), sc), subjectId, name, groupIds, s), db.Abs(), sc', fault)
  {
    var rt := ResolveName(db, Teachers, sc.teacherIds, s.teacher);
    if rt.Err? {
      return sc, Some(Violated(rt.error));
    }
    var sc1 := sc.(teacherIds := rt.value.0);
    var rc := ResolveName(db, Classrooms, sc1.classroomIds, s.classroom);
    if rc.Err? {
      return sc1, Some(Violated(rc.error));
    }
    var sc2 := sc1.(classroomIds := rc.value.0);
    var code := GroupCodeOf(s);
    if code !in groupIds {
      return sc2.(errors := sc2.errors + [Entry(name, GroupNotFound(code))]), None;
    }
    if s.period.None? {
      return sc2, Some(TypeError);
    }
    var ends := Collapse(s.period.value);
    var ins := db.InsertSchedule(subjectId, groupIds[code], rt.value.1, rc.value.1, ParseOptional(s.weekDay),
                                 ends.0, ends.1);
    if ins.Err? {
      return sc2, Some(Violated(ins.error));
    }
    sc', fault := sc2, None;
  }

  /** The schedules in order, stopping at the first that throws. */
  method AddSchedules(db: Store, subjectId: nat, name: string, groupIds: map<string, nat>,
                      ss: seq<NestedSchedule>, sc: Scratch)
    returns (sc': Scratch, fault: Option<Fault>)
    modifies db
    ensures Ended(ScheduleLoop(At(old(db.Abs()), sc), subjectId, name, groupIds, ss), db.Abs(), sc', fault)
  {
    sc' := sc;
    for i := 0 to |ss|
      invariant ScheduleLoop(At(db.Abs(), sc'), subjectId, name, groupIds, ss[i..])
             == ScheduleLoop(At(old(db.Abs()), sc), subjectId, name, groupIds, ss)
    {
      assert ss[i..][1..] == ss[i + 1..];
      var f;
      sc', f := AddSchedule(db, subjectId, name, groupIds, ss[i], sc');
      if f.Some? {
        return sc', f;
      }
    }
    assert ss[|ss|..] == [];
    fault := None;
  }

  ghost predicate GroupsEnded(o: Outcome<(Db, map<string, nat>)>, d: Db, ids: map<string, nat>, fault: Option<Fault>) {
    match o
    case Done(g) => g == (d, ids) && fault == None
    case Threw(g, f) => g == (d, ids) && fault == Some(f)
  }

  /** The group codes in order, each inserted and recorded, stopping at the
      first insert that fails. */
  method AddGroups(db: Store, subjectId: nat, codes: seq<string>, ids: map<string, nat>)
    returns (ids': map<string, nat>, fault: Option<Fault>)
    modifies db
    ensures GroupsEnded(GroupLoop(old(db.Abs()), subjectId, codes, ids), db.Abs(), ids', fault)
  {
    ids' := ids;
    for i := 0 to |codes|
      invariant GroupLoop(db.Abs(), subjectId, codes[i..], ids') == GroupLoop(old(db.Abs()), subjectId, codes, ids)
    {
      assert codes[i..][1..] == codes[i + 1..];
      var r := db.InsertGroup(subjectId, codes[i]);
      if r.Err? {
        return ids', Some(Violated(r.error));
      }
      ids' := ids'[codes[i] := r.value];
    }
    assert codes[|codes|..] == [];
    fault := None;
  }

  /** The state of a createClasses run beside the store. */
  datatype Session = Session(sc: Scratch, existing: set<string>, created: seq<CreatedEntry>, skipped: seq<Entry>)

  function BatchAt(d: Db, ses: Session): Batch {
    Batch(At(d, ses.sc), ses.existing, ses.created, ses.skipped)
  }

  function Report(ses: Session, reason: Entry): Session {
    ses.(sc := ses.sc.(errors := ses.sc.errors + [reason]))
  }

  /** One object item of the batch. */
  method CreateSubject(db: Store, ses: Session, d: NestedSubject) returns (ses': Session)
    modifies db
    ensures BatchAt(db.Abs(), ses') == CreateOne(BatchAt(old(db.Abs()), ses), d)
  {
    if d.name.None? {
      return Report(ses, Entry("Unknown", Thrown(TypeError)));
    }
    var name := d.name.value;
    if Lower(name) in ses.existing {
      return ses.(skipped := ses.skipped + [Entry(name, AlreadyExists)]);
    }
    if name == "" || !Truthy(d.description) || !Truthy(d.semester) {
      return Report(ses, Entry(OrElse(d.name, "Unknown"), MissingFields));
    }
    var ins := db.InsertSubject(name, d.description.value, d.semester.value, d.multiClass, d.greve);
    if ins.Err? {
      return Report(ses, Entry(name, Thrown(Violated(ins.error))));
    }
    var ids, fault := AddGroups(db, ins.value, GroupCodesFor(d), map[]);
    if fault.Some? {
      return Report(ses, Entry(name, Thrown(fault.value)));
    }
    var sc1, f := AddSchedules(db, ins.value, name, ids, ClassesOf(d), ses.sc);
    if f.Some? {
      return Report(ses.(sc := sc1), Entry(name, Thrown(f.value)));
    }
    ses' := Session(sc1, ses.existing + {Lower(name)},
                    ses.created + [CreatedEntry(name, d.description.value, d.semester.value, |ClassesOf(d)|)],
                    ses.skipped);
  }

  /** createClasses: BEGIN, the lower-cased codes already stored, every item
      in order, COMMIT; a `null` item rolls everything back. */
  method CreateClasses(db: Store, items: seq<Option<NestedSubject>>) returns (r: Result<CreateReport, Fault>)
    modifies db
    ensures match CreateClassesSpec(old(db.Abs()), items)
      case Ok(res) => db.Abs() == res.0 && r == Ok(res.1)
      case Err(f) => db.Abs() == old(db.Abs()) && r == Err(f)
  {
    var saved := db.Abs();
    var codes := db.SelectCodes();
    var existing: set<string> := {};
    for i := 0 to |codes|
      invariant existing == set j | 0 <= j < i :: Lower(codes[j])
    {
      existing := existing + {Lower(codes[i])};
    }
    assert existing == LowerCodes(saved) by {
      forall x | x in LowerCodes(saved) ensures x in existing {
        var s :| s in saved.subjects && Lower(s.code) == x;
        var j :| 0 <= j < |saved.subjects| && saved.subjects[j] == s;
        assert Lower(codes[j]) == x;
      }
    }
    var ses := Session(Scratch(map[], map[], []), existing, [], []);
    for i := 0 to |items|
      invariant RunBatch(BatchAt(db.Abs(), ses), items[i..]) == RunBatch(StartBatch(saved), items)
    {
      assert items[i..][1..] == items[i + 1..];
      if items[i].None? {
        db.Rollback(saved);
        return Err(TypeError);
      }
      ses := CreateSubject(db, ses, items[i].value);
    }
    assert items[|items|..] == [];
    r := Ok(CreateReport(ses.created, ses.skipped, ses.sc.errors));
  }

  // ---------------------------------------------------------------------
  // update
  // ---------------------------------------------------------------------

  /** The group-code-to-id map read back from the subject's group rows. */
  method ReadGroupIds(rows: seq<GroupRow>) returns (ids: map<string, nat>)
    ensures ids == GroupIdMap(rows)
  {
    ids := map[];
    for i := 0 to |rows|
      invariant ids == GroupIdMap(rows[..i])
    {
      assert rows[..i + 1][..i] == rows[..i];
      ids := ids[rows[i].groupCode := rows[i].id];
    }
    assert rows[..|rows|] == rows;
  }

  /** The `classList` part of update: the subject's schedules and groups
      deleted, then the new groups inserted. */
  method ReplaceGroups(db: Store, subjectId: nat, codes: seq<string>) returns (fault: Option<Fault>)
    modifies db
    ensures match RebuildGroups(old(db.Abs()), subjectId, codes)
      case Ok(d) => db.Abs() == d && fault.None?
      case Err(f) => fault == Some(f)
  {
    db.DeleteSchedulesOfGroupsOf(subjectId);
    db.DeleteGroupsOf(subjectId);
    var _, f := AddGroups(db, subjectId, codes, map[]);
    fault := f;
  }

  /** The `classes` part of update: the subject's groups read back, its
      schedules deleted, then the new schedules inserted. */
  method ReplaceSchedules(db: Store, subjectId: nat, code: string, classes: seq<NestedSchedule>)
    returns (errors: seq<Entry>, fault: Option<Fault>)
    modifies db
    ensures match RebuildSchedules(old(db.Abs()), subjectId, code, classes)
      case Ok(res) => db.Abs() == res.0 && errors == res.1 && fault.None?
      case Err(f) => fault == Some(f)
  {
    var rows := db.SelectGroupsOf(subjectId);
    var ids := ReadGroupIds(rows);
    db.DeleteSchedulesOf(subjectId);
    var sc, f := AddSchedules(db, subjectId, code, ids, classes, Scratch(map[], map[], []));
    errors, fault := sc.errors, f;
  }

  /** update after the UPDATE of the fields: the `classList` rebuild, then
      the `classes` replacement and the report; a failure is returned for
      the caller to roll back. */
  method UpdateGroupsAndClassesOf(db: Store, subjectId: nat, code: string, p: Patch)
    returns (r: Result<UpdateReport, Fault>)
    modifies db
    ensures match UpdateGroupsAndClasses(old(db.Abs()), subjectId, code, p)
      case Ok(res) => db.Abs() == res.0 && r == Ok(res.1)
      case Err(f) => r == Err(f)
  {
    if p.classList.Some? {
      var fault := ReplaceGroups(db, subjectId, RebuildCodes(p));
      if fault.Some? {
        return Err(fault.value);
      }
    }
    var errors := [];
    if p.classes.Some? {
      var fault;
      errors, fault := ReplaceSchedules(db, subjectId, code, p.classes.value);
      if fault.Some? {
        return Err(fault.value);
      }
    }
    var schedules := if p.classes.Some? then Some(|p.classes.value|) else None;
    r := Ok(UpdateReport(Some(Updated(code, p.description, p.semester, schedules)), errors));
  }

  /** update: BEGIN, find the subject case-insensitively, set the patched
      fields, rebuild its groups when `classList` is given, replace its
      schedules when `classes` is given, COMMIT; any failure rolls back. */
  method UpdateSubject(db: Store, code: string, p: Patch) returns (r: Result<UpdateReport, Fault>)
    modifies db
    ensures match UpdateSpec(old(db.Abs()), code, p)
      case Ok(res) => db.Abs() == res.0 && r == Ok(res.1)
      case Err(f) => db.Abs() == old(db.Abs()) && r == Err(f)
  {
    var saved := db.Abs();
    var found := db.SelectSubjectIdCI(code);
    if found.None? {
      return Ok(UpdateReport(None, [Entry(code, SubjectNotFound)]));
    }
    var subjectId := found.value;
    var assignments := AssignmentsOf(p);
    if assignments != [] {
      var v := db.UpdateSubjects(code, assignments);
      if v.Some? {
        db.Rollback(saved);
        return Err(Violated(v.value));
      }
    }
    r := UpdateGroupsAndClassesOf(db, subjectId, code, p);
    if r.Err? {
      db.Rollback(saved);
    }
  }

  // ---------------------------------------------------------------------
  // delete and clean
  // ---------------------------------------------------------------------

  /** delete: the four statements in order, with no transaction. */
  method Delete(db: Store, code: string)
    modifies db
    ensures db.Abs() == DeleteSpec(old(db.Abs()), code)
  {
    db.DeleteSubject(code);
    db.DeleteGroupsOfCode(code);
    db.DeleteSchedulesOfCode(code);
    db.DeleteSubject(code);
  }

  /** clean: BEGIN, empty the five tables children first, COMMIT; the first
      failing statement rolls back and is rethrown. */
  method Clean(db: Store) returns (r: Option<Violation>)
    modifies db
    ensures Applied(old(db.Abs()), CleanSpec(old(db.Abs())), db.Abs(), r)
  {
    var saved := db.Abs();
    r := db.DeleteAll(SchedulesTable);
    if r == None {
      r := db.DeleteAll(GroupsTable);
    }
    if r == None {
      r := db.DeleteAll(SubjectsTable);
    }
    if r == None {
      r := db.DeleteAll(TeachersTable);
    }
    if r == None {
      r := db.DeleteAll(ClassroomsTable);
    }
    if r != None {
      db.Rollback(saved);
    }
  }

  // ---------------------------------------------------------------------
  // populate
  // ---------------------------------------------------------------------

  /** The state of populate's second pass beside the store; the group map
      is keyed by whatever the key function makes of (subject name, group
      code). */
  datatype Pending<K(==)> = Pending(teacherIds: map<string, nat>, classroomIds: map<string, nat>,
                                    groupIds: map<K, nat>, errors: seq<Entry>, summary: Summary)

  function PassAt<K(==)>(d: Db, pd: Pending<K>): Pass<K> {
    Pass(d, pd.teacherIds, pd.classroomIds, pd.groupIds, pd.errors, pd.summary)
  }

  function Failed<K(==)>(pd: Pending<K>, name: string, f: Fault): Pending<K> {
    pd.(errors := pd.errors + [Entry(name, ScheduleFailed(f))])
  }

  /** The filter of a suffix: its first item's listing, then the rest. */
  lemma EligiblesAt(items: seq<Option<NestedSubject>>, i: nat)
    requires i < |items|
    ensures Eligibles(items[i..])
         == (if Eligible(items[i]) then [ListingOf(items[i].value)] else []) + Eligibles(items[i + 1..])
  {
    assert items[i..][1..] == items[i + 1..];
  }

  /** The items that pass populate's filter, in order. */
  method Listings(items: seq<Option<NestedSubject>>) returns (ls: seq<Listing>)
    ensures ls == Eligibles(items)
  {
    ls := [];
    for i := 0 to |items|
      invariant ls + Eligibles(items[i..]) == Eligibles(items)
    {
      EligiblesAt(items, i);
      if Eligible(items[i]) {
        ls := ls + [ListingOf(items[i].value)];
      }
    }
    assert items[|items|..] == [];
  }

  /** The first pass: every listing's subject row, failures reported. */
  method AddListedSubjects(db: Store, ls: seq<Listing>) returns (p: SubjectPass)
    modifies db
    ensures p == InsertSubjects(SubjectPass(old(db.Abs()), map[], [], [], 0), ls)
    ensures p.db == db.Abs()
  {
    var start := SubjectPass(db.Abs(), map[], [], [], 0);
    p := start;
    for i := 0 to |ls|
      invariant p.db == db.Abs()
      invariant InsertSubjects(p, ls[i..]) == InsertSubjects(start, ls)
    {
      assert ls[i..][1..] == ls[i + 1..];
      var l := ls[i];
      var ins := db.InsertSubject(l.name, l.description, l.semester, l.multiClass, l.greve);
      if ins.Err? {
        p := p.(errors := p.errors + [Entry(l.name, SubjectFailed(Violated(ins.error)))]);
      } else {
        p := SubjectPass(db.Abs(), p.subjectIds[l.name := ins.value],
                         p.created + [PopCreated(l.name, l.description, l.semester)], p.errors, p.count + 1);
      }
    }
    assert ls[|ls|..] == [];
  }

  ghost predicate ListedGroupsEnded<K>(o: Outcome<Pass<K>>, d: Db, pd: Pending<K>, fault: Option<Fault>) {
    match o
    case Done(st) => PassAt(d, pd) == st && fault == None
    case Threw(st, f) => PassAt(d, pd) == st && fault == Some(f)
  }

  /** A listing's groups, each counted and recorded under its key. */
  method AddListedGroups<K(==)>(db: Store, pd: Pending<K>, subjectId: nat, name: string, codes: seq<string>,
                                key: (string, string) -> K)
    returns (pd': Pending<K>, fault: Option<Fault>)
    modifies db
    ensures ListedGroupsEnded(PopGroups(PassAt(old(db.Abs()), pd), subjectId, name, codes, key),
                              db.Abs(), pd', fault)
  {
    pd' := pd;
    for i := 0 to |codes|
      invariant PopGroups(PassAt(db.Abs(), pd'), subjectId, name, codes[i..], key)
             == PopGroups(PassAt(old(db.Abs()), pd), subjectId, name, codes, key)
    {
      assert codes[i..][1..] == codes[i + 1..];
      ghost var st := PassAt(db.Abs(), pd');
      var r := db.InsertGroup(subjectId, codes[i]);
      if r.Err? {
        return pd', Some(Violated(r.error));
      }
      PopGroupsInserted(st, subjectId, name, codes[i..], key, (db.Abs(), r.value));
      pd' := pd'.(groupIds := pd'.groupIds[key(name, codes[i]) := r.value],
                  summary := pd'.summary.(classGroups := pd'.summary.classGroups + 1));
    }
    assert codes[|codes|..] == [];
    fault := None;
  }

  /** A schedule whose teacher and classroom ids are known: look up its
      group by key and insert the row. */
  method FileListedSchedule<K(==)>(db: Store, pd: Pending<K>, subjectId: nat, name: string, s: NestedSchedule,
                                   key: (string, string) -> K, teacherId: nat, classroomId: nat)
    returns (pd': Pending<K>)
    requires s.period.Some?
    modifies db
    ensures PassAt(db.Abs(), pd')
         == FileSchedule(PassAt(old(db.Abs()), pd), subjectId, name, s, key, teacherId, classroomId)
  {
    var code := GroupCodeOf(s);
    var k := key(name, code);
    if k !in pd.groupIds {
      return pd.(errors := pd.errors + [Entry(name, GroupNotFound(code))]);
    }
    var ends := Collapse(s.period.value);
    var ins := db.InsertSchedule(subjectId, pd.groupIds[k], teacherId, classroomId,
                                 ParseOptional(s.weekDay), ends.0, ends.1);
    if ins.Err? {
      return Failed(pd, name, Violated(ins.error));
    }
    pd' := pd.(summary := pd.summary.(schedules := pd.summary.schedules + 1));
  }

  /** A schedule whose teacher id is known: resolve its classroom, counting
      an insert, then file it. */
  method PlaceListedSchedule<K(==)>(db: Store, pd: Pending<K>, subjectId: nat, name: string, s: NestedSchedule,
                                    key: (string, string) -> K, teacherId: nat)
    returns (pd': Pending<K>)
    requires s.period.Some?
    modifies db
    ensures PassAt(db.Abs(), pd') == PlaceSchedule(PassAt(old(db.Abs()), pd), subjectId, name, s, key, teacherId)
  {
    ghost var st := PassAt(db.Abs(), pd);
    var rc := ResolveName(db, Classrooms, pd.classroomIds, s.classroom);
    if rc.Err? {
      return Failed(pd, name, Violated(rc.error));
    }
    var pd1 := pd.(classroomIds := rc.value.0,
                   summary := pd.summary.(classrooms := pd.summary.classrooms + if rc.value.2 then 1 else 0));
    PlaceResolved(st, subjectId, name, s, key, teacherId, Resolution(db.Abs(), rc.value.0, rc.value.1, rc.value.2));
    assert PassAt(db.Abs(), pd1) == st.(db := db.Abs(), classroomIds := rc.value.0, summary := pd1.summary);
    pd' := FileListedSchedule(db, pd1, subjectId, name, s, key, teacherId, rc.value.1);
  }

  /** One schedule of the second pass: skipped silently when incomplete,
      otherwise its teacher is resolved, counting an insert, and it is
      placed. */
  method AddListedSchedule<K(==)>(db: Store, pd: Pending<K>, subjectId: nat, name: string, s: NestedSchedule,
                                  key: (string, string) -> K)
    returns (pd': Pending<K>)
    modifies db
    ensures PassAt(db.Abs(), pd') == PopSchedule(PassAt(old(db.Abs()), pd), subjectId, name, s, key)
  {
    if !Truthy(s.teacher) || !Truthy(s.classroom) || !Truthy(s.weekDay) || s.period.None? {
      return pd;
    }
    pd' := SeatListedSchedule(db, pd, subjectId, name, s, key);
  }

  /** A complete schedule of the second pass: its teacher is resolved,
      counting an insert, and it is placed. */
  method SeatListedSchedule<K(==)>(db: Store, pd: Pending<K>, subjectId: nat, name: string, s: NestedSchedule,
                                   key: (string, string) -> K)
    returns (pd': Pending<K>)
    requires s.period.Some?
    modifies db
    ensures PassAt(db.Abs(), pd') == SeatSchedule(PassAt(old(db.Abs()), pd), subjectId, name, s, key)
  {
    ghost var st := PassAt(db.Abs(), pd);
    var rt := ResolveName(db, Teachers, pd.teacherIds, s.teacher);
    if rt.Err? {
      return Failed(pd, name, Violated(rt.error));
    }
    var pd1 := pd.(teacherIds := rt.value.0,
                   summary := pd.summary.(teachers := pd.summary.teachers + if rt.value.2 then 1 else 0));
    SeatResolved(st, subjectId, name, s, key, Resolution(db.Abs(), rt.value.0, rt.value.1, rt.value.2));
    assert PassAt(db.Abs(), pd1) == st.(db := db.Abs(), teacherIds := rt.value.0, summary := pd1.summary);
    pd' := PlaceListedSchedule(db, pd1, subjectId, name, s, key, rt.value.1);
  }

  /** A listing's schedules, one after the other. */
  method AddListedSchedules<K(==)>(db: Store, pd: Pending<K>, subjectId: nat, name: string, ss: seq<NestedSchedule>,
                                   key: (string, string) -> K)
    returns (pd': Pending<K>)
    modifies db
    ensures PassAt(db.Abs(), pd') == PopSchedules(PassAt(old(db.Abs()), pd), subjectId, name, ss, key)
  {
    pd' := pd;
    for i := 0 to |ss|
      invariant PopSchedules(PassAt(db.Abs(), pd'), subjectId, name, ss[i..], key)
             == PopSchedules(PassAt(old(db.Abs()), pd), subjectId, name, ss, key)
    {
      assert ss[i..][1..] == ss[i + 1..];
      pd' := AddListedSchedule(db, pd', subjectId, name, ss[i], key);
    }
    assert ss[|ss|..] == [];
  }

  /** One listing of the second pass: its groups, then its schedules; a
      failing group insert is reported and its schedules skipped. */
  method AddListing<K(==)>(db: Store, pd: Pending<K>, subjectIds: map<string, nat>, l: Listing,
                           key: (string, string) -> K)
    returns (pd': Pending<K>)
    modifies db
    ensures PassAt(db.Abs(), pd') == PopItem(PassAt(old(db.Abs()), pd), subjectIds, l, key)
  {
    if l.name !in subjectIds {
      return pd;
    }
    var subjectId := subjectIds[l.name];
    var pd1, fault := AddListedGroups(db, pd, subjectId, l.name, PopGroupCodes(l), key);
    if fault.Some? {
      return pd1.(errors := pd1.errors + [Entry(l.name, ClassFailed(fault.value))]);
    }
    pd' := AddListedSchedules(db, pd1, subjectId, l.name, l.classes, key);
  }

  /** populate over a group key: BEGIN, filter the seed data, insert every
      subject, then every listing's groups and schedules, COMMIT. Failures
      are reported and never roll back. */
  method PopulateKeyed<K(==)>(db: Store, items: seq<Option<NestedSubject>>, key: (string, string) -> K)
    returns (report: PopReport)
    modifies db
    ensures (db.Abs(), report) == PopulateWith(old(db.Abs()), items, key)
  {
    var ls := Listings(items);
    var p1 := AddListedSubjects(db, ls);
    var pd: Pending<K> := Pending(map[], map[], map[], p1.errors, Summary(p1.count, 0, 0, 0, 0));
    ghost var start := PassAt(db.Abs(), pd);
    for i := 0 to |ls|
      invariant PopItems(PassAt(db.Abs(), pd), p1.subjectIds, ls[i..], key)
             == PopItems(start, p1.subjectIds, ls, key)
    {
      assert ls[i..][1..] == ls[i + 1..];
      pd := AddListing(db, pd, p1.subjectIds, ls[i], key);
    }
    assert ls[|ls|..] == [];
    report := PopReport(p1.created, pd.errors, pd.summary);
  }

  /** populate as the source writes it: groups looked up by the string
      `name + "-" + code`. */
  method Populate(db: Store, items: seq<Option<NestedSubject>>) returns (report: PopReport)
    modifies db
    ensures (db.Abs(), report) == PopulateAsWritten(old(db.Abs()), items)
  {
    report := PopulateKeyed(db, items, JoinKey);
  }

  /** populate with groups looked up by the pair (name, code). */
  method PopulateByPair(db: Store, items: seq<Option<NestedSubject>>) returns (report: PopReport)
    modifies db
    ensures (db.Abs(), report) == PopulateSpec(old(db.Abs()), items)
  {
    report := PopulateKeyed(db, items, PairKey);
  }
}
