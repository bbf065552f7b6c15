/** What populate guarantees: the summary counts exactly the rows each table
    gained, every created subject is in the table, and a second run over the
    same seed data changes nothing. With the group map keyed by (name, code)
    the schema constraints and the group-belongs-to-subject invariant hold
    after the run; with the source's string key they do not, and a concrete
    seed shows a schedule filed under another subject's group. */
module PopulateProofs {
  import opened Common
  import opened Tables
  import opened PeriodCodec
  import opened Records
  import opened Resolver
  import opened Ingest
  import opened IngestProofs
  import opened PopulateModel

  // ---------------------------------------------------------------------
  // First pass
  // ---------------------------------------------------------------------

  /** Only the subject table and its sequence differ. */
  ghost predicate OnlySubjectsChanged(a: Db, b: Db) {
    b == a.(subjects := b.subjects, serials := a.serials.(subject := b.serials.subject))
  }

  /** The subject pass appends one subject row per created entry, counted in
      `count`, and changes no other table; afterwards every listing's insert
      would fail, because its code is taken or one of its values is too wide. */
  lemma {:induction false} InsertSubjectsTally(st: SubjectPass, ls: seq<Listing>)
    ensures var r := InsertSubjects(st, ls);
      && st.count <= r.count
      && |r.created| == |st.created| + (r.count - st.count)
      && |r.db.subjects| == |st.db.subjects| + (r.count - st.count)
      && st.db.subjects <= r.db.subjects
      && OnlySubjectsChanged(st.db, r.db)
      && (forall l :: l in ls ==> InsertSubject(r.db, l.name, l.description, l.semester, l.multiClass, l.greve).Err?)
      && (forall c :: c in r.created ==> c in st.created || CodeTaken(r.db, c.name))
      && (Valid(st.db) ==> Valid(r.db))
    decreases |ls|
  {
    if ls != [] {
      var l := ls[0];
      var ins := InsertSubject(st.db, l.name, l.description, l.semester, l.multiClass, l.greve);
      var next := if ins.Err? then st.(errors := st.errors + [Entry(l.name, SubjectFailed(Violated(ins.error)))])
                  else SubjectPass(ins.value.0, st.subjectIds[l.name := ins.value.1],
                                   st.created + [PopCreated(l.name, l.description, l.semester)], st.errors, st.count + 1);
      assert InsertSubjects(st, ls) == InsertSubjects(next, ls[1..]);
      InsertSubjectsTally(next, ls[1..]);
      var r := InsertSubjects(next, ls[1..]);
      if ins.Ok? {
        var row := SubjectRow(ins.value.1, l.name, l.description, l.semester, l.multiClass, l.greve);
        assert next.db.subjects == st.db.subjects + [row];
        assert row in next.db.subjects;
        assert row in r.db.subjects;
        assert CodeTaken(r.db, l.name);
      } else {
        if CodeTaken(st.db, l.name) {
          var s :| s in st.db.subjects && s.code == l.name;
          assert s in r.db.subjects;
        }
      }
    }
  }

  // ---------------------------------------------------------------------
  // Second pass: the counters
  // ---------------------------------------------------------------------

  /** Each counter of the summary is the number of rows its table gained
      since `base`, and the subjects are those of `base`. */
  ghost predicate Tallied<K>(base: Db, st: Pass<K>) {
    && st.db.subjects == base.subjects
    && |st.db.teachers| == |base.teachers| + st.summary.teachers
    && |st.db.classrooms| == |base.classrooms| + st.summary.classrooms
    && |st.db.groups| == |base.groups| + st.summary.classGroups
    && |st.db.schedules| == |base.schedules| + st.summary.schedules
  }

  /** A resolution changes only its own table, by one row exactly when it
      reports an insert. */
  lemma ResolveGrowth(db: Db, k: Kind, cache: map<string, nat>, name: Option<string>)
    requires Resolve(db, k, cache, name).Ok?
    ensures var res := Resolve(db, k, cache, name).value;
      && OnlyNamedChanged(db, res.db, k)
      && |Named(res.db, k)| == |Named(db, k)| + (if res.inserted then 1 else 0)
  {
    if !(name.value in cache) && FindNamed(Named(db, k), name).None? {
      var res := Resolve(db, k, cache, name).value;
      assert res.db == InsertNamed(db, k, name).value.0;
    }
  }

  lemma {:induction false} PopGroupsTally<K>(base: Db, st: Pass<K>, subjectId: nat, name: string,
                                                  codes: seq<string>, key: (string, string) -> K)
    requires Tallied(base, st)
    ensures var r := PopGroups(st, subjectId, name, codes, key).state;
      Tallied(base, r) && r.summary.subjects == st.summary.subjects && r.errors == st.errors
    decreases |codes|
  {
    if codes != [] && InsertGroup(st.db, subjectId, codes[0]).Ok? {
      var res := InsertGroup(st.db, subjectId, codes[0]).value;
      var next := st.(db := res.0, groupIds := st.groupIds[key(name, codes[0]) := res.1],
                      summary := st.summary.(classGroups := st.summary.classGroups + 1));
      assert Tallied(base, next);
      PopGroupsTally(base, next, subjectId, name, codes[1..], key);
    }
  }

  lemma FileScheduleTally<K>(base: Db, st: Pass<K>, subjectId: nat, name: string, s: NestedSchedule,
                             key: (string, string) -> K, teacherId: nat, classroomId: nat)
    requires Tallied(base, st) && s.period.Some?
    ensures var r := FileSchedule(st, subjectId, name, s, key, teacherId, classroomId);
      Tallied(base, r) && r.summary.subjects == st.summary.subjects
  {
    var k := key(name, GroupCodeOf(s));
    if k in st.groupIds {
      var ins := ScheduleInsert(st.db, subjectId, st.groupIds[k], teacherId, classroomId, s);
      if ins.Ok? {
        assert |ins.value.0.schedules| == |st.db.schedules| + 1;
      }
    }
  }

  /** Resolving a name counts exactly the row it inserts. */
  lemma ResolvedTally<K>(base: Db, st: Pass<K>, k: Kind, cache: map<string, nat>, name: Option<string>)
    requires Tallied(base, st) && Resolve(st.db, k, cache, name).Ok?
    ensures var t := Resolve(st.db, k, cache, name).value;
      var inc := if t.inserted then 1 else 0;
      match k
      case Teachers => Tallied(base, st.(db := t.db, summary := st.summary.(teachers := st.summary.teachers + inc)))
      case Classrooms => Tallied(base, st.(db := t.db, summary := st.summary.(classrooms := st.summary.classrooms + inc)))
  {
    ResolveGrowth(st.db, k, cache, name);
  }

  lemma PlaceScheduleTally<K>(base: Db, st: Pass<K>, subjectId: nat, name: string, s: NestedSchedule,
                              key: (string, string) -> K, teacherId: nat)
    requires Tallied(base, st) && s.period.Some?
    ensures var r := PlaceSchedule(st, subjectId, name, s, key, teacherId);
      Tallied(base, r) && r.summary.subjects == st.summary.subjects
  {
    var rc := Resolve(st.db, Classrooms, st.classroomIds, s.classroom);
    if rc.Ok? {
      var c := rc.value;
      ResolvedTally(base, st, Classrooms, st.classroomIds, s.classroom);
      var st1 := st.(db := c.db, classroomIds := c.cache,
                     summary := st.summary.(classrooms := st.summary.classrooms + if c.inserted then 1 else 0));
      PlaceResolved(st, subjectId, name, s, key, teacherId, c);
      FileScheduleTally(base, st1, subjectId, name, s, key, teacherId, c.id);
    }
  }

  lemma SeatScheduleTally<K>(base: Db, st: Pass<K>, subjectId: nat, name: string, s: NestedSchedule,
                             key: (string, string) -> K)
    requires Tallied(base, st) && s.period.Some?
    ensures var r := SeatSchedule(st, subjectId, name, s, key);
      Tallied(base, r) && r.summary.subjects == st.summary.subjects
  {
    var rt := Resolve(st.db, Teachers, st.teacherIds, s.teacher);
    if rt.Ok? {
      var t := rt.value;
      ResolvedTally(base, st, Teachers, st.teacherIds, s.teacher);
      var st1 := st.(db := t.db, teacherIds := t.cache,
                     summary := st.summary.(teachers := st.summary.teachers + if t.inserted then 1 else 0));
      SeatResolved(st, subjectId, name, s, key, t);
      PlaceScheduleTally(base, st1, subjectId, name, s, key, t.id);
    }
  }

  lemma PopScheduleTally<K>(base: Db, st: Pass<K>, subjectId: nat, name: string, s: NestedSchedule,
                            key: (string, string) -> K)
    requires Tallied(base, st)
    ensures var r := PopSchedule(st, subjectId, name, s, key);
      Tallied(base, r) && r.summary.subjects == st.summary.subjects
  {
    if Truthy(s.teacher) && Truthy(s.classroom) && Truthy(s.weekDay) && s.period.Some? {
      SeatScheduleTally(base, st, subjectId, name, s, key);
    }
  }

  lemma {:induction false} PopSchedulesTally<K>(base: Db, st: Pass<K>, subjectId: nat, name: string,
                                                     ss: seq<NestedSchedule>, key: (string, string) -> K)
    requires Tallied(base, st)
    ensures var r := PopSchedules(st, subjectId, name, ss, key);
      Tallied(base, r) && r.summary.subjects == st.summary.subjects
    decreases |ss|
  {
    if ss != [] {
      PopScheduleTally(base, st, subjectId, name, ss[0], key);
      PopSchedulesTally(base, PopSchedule(st, subjectId, name, ss[0], key), subjectId, name, ss[1..], key);
    }
  }

  lemma {:induction false} PopItemsTally<K>(base: Db, st: Pass<K>, subjectIds: map<string, nat>,
                                                 ls: seq<Listing>, key: (string, string) -> K)
    requires Tallied(base, st)
    ensures var r := PopItems(st, subjectIds, ls, key);
      Tallied(base, r) && r.summary.subjects == st.summary.subjects
    decreases |ls|
  {
    if ls != [] {
      var l := ls[0];
      if l.name in subjectIds {
        var g := PopGroups(st, subjectIds[l.name], l.name, PopGroupCodes(l), key);
        PopGroupsTally(base, st, subjectIds[l.name], l.name, PopGroupCodes(l), key);
        if g.Done? {
          PopSchedulesTally(base, g.state, subjectIds[l.name], l.name, l.classes, key);
        }
      }
      PopItemsTally(base, PopItem(st, subjectIds, l, key), subjectIds, ls[1..], key);
    }
  }

  /** Whatever the group key: the summary counts exactly the rows each table
      gained, one subject per created entry, and every created subject is in
      the table. */
  lemma PopulateTally<K>(db: Db, items: seq<Option<NestedSubject>>, key: (string, string) -> K)
    ensures var (db', r) := PopulateWith(db, items, key);
      && r.summary.subjects == |r.created|
      && |db'.subjects| == |db.subjects| + r.summary.subjects
      && |db'.teachers| == |db.teachers| + r.summary.teachers
      && |db'.classrooms| == |db.classrooms| + r.summary.classrooms
      && |db'.groups| == |db.groups| + r.summary.classGroups
      && |db'.schedules| == |db.schedules| + r.summary.schedules
      && (forall c :: c in r.created ==> CodeTaken(db', c.name))
  {
    var ls := Eligibles(items);
    var st0 := SubjectPass(db, map[], [], [], 0);
    InsertSubjectsTally(st0, ls);
    var p1 := InsertSubjects(st0, ls);
    var pass := Pass(p1.db, map[], map[], map[], p1.errors, Summary(p1.count, 0, 0, 0, 0));
    assert Tallied(p1.db, pass);
    PopItemsTally(p1.db, pass, p1.subjectIds, ls, key);
    var p2 := PopItems(pass, p1.subjectIds, ls, key);
    forall c | c in p1.created ensures CodeTaken(p2.db, c.name) {
      var s :| s in p1.db.subjects && s.code == c.name;
      assert s in p2.db.subjects;
    }
  }

  // ---------------------------------------------------------------------
  // A second run
  // ---------------------------------------------------------------------

  /** When no listing's subject insert can succeed, the second pass has no
      subject to work on: the run changes nothing and reports one failure per
      listing. */
  lemma {:induction false} InsertSubjectsNone(st: SubjectPass, ls: seq<Listing>)
    requires forall l :: l in ls ==> InsertSubject(st.db, l.name, l.description, l.semester, l.multiClass, l.greve).Err?
    ensures var r := InsertSubjects(st, ls);
      && r.db == st.db && r.subjectIds == st.subjectIds && r.created == st.created && r.count == st.count
      && |r.errors| == |st.errors| + |ls|
    decreases |ls|
  {
    if ls != [] {
      var l := ls[0];
      var ins := InsertSubject(st.db, l.name, l.description, l.semester, l.multiClass, l.greve);
      var next := st.(errors := st.errors + [Entry(l.name, SubjectFailed(Violated(ins.error)))]);
      assert InsertSubjects(st, ls) == InsertSubjects(next, ls[1..]);
      InsertSubjectsNone(next, ls[1..]);
    }
  }

  lemma {:induction false} PopItemsNone<K>(st: Pass<K>, ls: seq<Listing>, key: (string, string) -> K)
    ensures PopItems(st, map[], ls, key) == st
    decreases |ls|
  {
    if ls != [] {
      PopItemsNone(st, ls[1..], key);
    }
  }

  /** A run in which every subject insert fails writes nothing. */
  lemma PopulateNothingNew<K>(db: Db, items: seq<Option<NestedSubject>>, key: (string, string) -> K)
    requires forall l :: l in Eligibles(items) ==>
      InsertSubject(db, l.name, l.description, l.semester, l.multiClass, l.greve).Err?
    ensures var (db', r) := PopulateWith(db, items, key);
      && db' == db && r.created == [] && r.summary == Summary(0, 0, 0, 0, 0)
      && |r.errors| == |Eligibles(items)|
  {
    var ls := Eligibles(items);
    var st0 := SubjectPass(db, map[], [], [], 0);
    InsertSubjectsNone(st0, ls);
    var p1 := InsertSubjects(st0, ls);
    PopItemsNone(Pass(p1.db, map[], map[], map[], p1.errors, Summary(p1.count, 0, 0, 0, 0)), ls, key);
  }

  /** Running populate a second time over the same seed data, whatever the
      group key, leaves the tables as the first run left them and counts
      nothing. */
  lemma PopulateTwice<K>(db: Db, items: seq<Option<NestedSubject>>, key: (string, string) -> K)
    ensures var db1 := PopulateWith(db, items, key).0;
      && PopulateWith(db1, items, key).0 == db1
      && PopulateWith(db1, items, key).1.summary == Summary(0, 0, 0, 0, 0)
  {
    var ls := Eligibles(items);
    var st0 := SubjectPass(db, map[], [], [], 0);
    InsertSubjectsTally(st0, ls);
    var p1 := InsertSubjects(st0, ls);
    var pass := Pass(p1.db, map[], map[], map[], p1.errors, Summary(p1.count, 0, 0, 0, 0));
    PopItemsTally(p1.db, pass, p1.subjectIds, ls, key);
    var db1 := PopItems(pass, p1.subjectIds, ls, key).db;
    assert db1.subjects == p1.db.subjects;
    forall l | l in ls
      ensures InsertSubject(db1, l.name, l.description, l.semester, l.multiClass, l.greve).Err?
    {
      assert InsertSubject(p1.db, l.name, l.description, l.semester, l.multiClass, l.greve).Err?;
    }
    PopulateNothingNew(db1, items, key);
  }

  // ---------------------------------------------------------------------
  // Second pass keyed by (name, code): the invariants
  // ---------------------------------------------------------------------

  function WorkOf<K>(st: Pass<K>): Work {
    Work(st.db, st.teacherIds, st.classroomIds, st.errors)
  }

  /** Every entry of the group map is a group of the subject its name was
      created as, with the code of its key. */
  ghost predicate KeysOwned(db: Db, subjectIds: map<string, nat>, ids: map<(string, string), nat>) {
    forall k :: k in ids ==> k.0 in subjectIds && GroupRow(ids[k], subjectIds[k.0], k.1) in db.groups
  }

  ghost predicate PassInv(st: Pass<(string, string)>, subjectIds: map<string, nat>) {
    WorkInv(WorkOf(st)) && KeysOwned(st.db, subjectIds, st.groupIds)
  }

  /** One group insert records its own group under (name, code). */
  lemma PopGroupStepKeeps(st: Pass<(string, string)>, subjectIds: map<string, nat>, name: string, code: string)
    requires PassInv(st, subjectIds) && name in subjectIds
    requires InsertGroup(st.db, subjectIds[name], code).Ok?
    ensures var res := InsertGroup(st.db, subjectIds[name], code).value;
      var next := st.(db := res.0, groupIds := st.groupIds[PairKey(name, code) := res.1],
                      summary := st.summary.(classGroups := st.summary.classGroups + 1));
      PassInv(next, subjectIds) && Grows(st.db, next.db)
  {
    var subjectId := subjectIds[name];
    var res := InsertGroup(st.db, subjectId, code).value;
    InsertGroupKeeps(st.db, subjectId, code, map[]);
    var next := st.(db := res.0, groupIds := st.groupIds[PairKey(name, code) := res.1],
                    summary := st.summary.(classGroups := st.summary.classGroups + 1));
    assert CacheSound(next.db, Teachers, next.teacherIds);
    assert CacheSound(next.db, Classrooms, next.classroomIds);
    assert KeysOwned(next.db, subjectIds, next.groupIds);
    GroupsOnlyGrow(st.db, next.db);
  }

  lemma {:induction false} PopGroupsKeeps(st: Pass<(string, string)>, subjectIds: map<string, nat>, name: string,
                                          codes: seq<string>)
    requires PassInv(st, subjectIds) && name in subjectIds
    ensures var r := PopGroups(st, subjectIds[name], name, codes, PairKey).state;
      PassInv(r, subjectIds) && Grows(st.db, r.db)
    decreases |codes|
  {
    var subjectId := subjectIds[name];
    if codes != [] && InsertGroup(st.db, subjectId, codes[0]).Ok? {
      var res := InsertGroup(st.db, subjectId, codes[0]).value;
      PopGroupStepKeeps(st, subjectIds, name, codes[0]);
      var next := st.(db := res.0, groupIds := st.groupIds[PairKey(name, codes[0]) := res.1],
                      summary := st.summary.(classGroups := st.summary.classGroups + 1));
      assert PopGroups(st, subjectId, name, codes, PairKey) == PopGroups(next, subjectId, name, codes[1..], PairKey);
      PopGroupsKeeps(next, subjectIds, name, codes[1..]);
      GrowsTrans(st.db, next.db, PopGroups(next, subjectId, name, codes[1..], PairKey).state.db);
    } else {
      GrowsRefl(st.db);
    }
  }

  lemma FileScheduleKeeps(st: Pass<(string, string)>, subjectIds: map<string, nat>, name: string,
                          s: NestedSchedule, teacherId: nat, classroomId: nat)
    requires PassInv(st, subjectIds) && name in subjectIds && s.period.Some?
    ensures var r := FileSchedule(st, subjectIds[name], name, s, PairKey, teacherId, classroomId);
      PassInv(r, subjectIds) && Grows(st.db, r.db)
  {
    var subjectId := subjectIds[name];
    var k := PairKey(name, GroupCodeOf(s));
    GrowsRefl(st.db);
    if k in st.groupIds {
      var ins := ScheduleInsert(st.db, subjectId, st.groupIds[k], teacherId, classroomId, s);
      if ins.Ok? {
        ScheduleInsertKeeps(WorkOf(st), subjectId, GroupCodeOf(s), st.groupIds[k], teacherId, classroomId, s);
        assert KeysOwned(ins.value.0, subjectIds, st.groupIds);
      }
    }
  }

  lemma PlaceScheduleKeeps(st: Pass<(string, string)>, subjectIds: map<string, nat>, name: string,
                           s: NestedSchedule, teacherId: nat)
    requires PassInv(st, subjectIds) && name in subjectIds && s.period.Some?
    ensures var r := PlaceSchedule(st, subjectIds[name], name, s, PairKey, teacherId);
      PassInv(r, subjectIds) && Grows(st.db, r.db)
  {
    var rc := Resolve(st.db, Classrooms, st.classroomIds, s.classroom);
    if rc.Ok? {
      var c := rc.value;
      ClassroomResolvedKeeps(WorkOf(st), s.classroom);
      var st1 := st.(db := c.db, classroomIds := c.cache,
                     summary := st.summary.(classrooms := st.summary.classrooms + if c.inserted then 1 else 0));
      assert KeysOwned(st1.db, subjectIds, st1.groupIds);
      PlaceResolved(st, subjectIds[name], name, s, PairKey, teacherId, c);
      FileScheduleKeeps(st1, subjectIds, name, s, teacherId, c.id);
      GrowsTrans(st.db, st1.db, PlaceSchedule(st, subjectIds[name], name, s, PairKey, teacherId).db);
    } else {
      GrowsRefl(st.db);
    }
  }

  /** Resolving the teacher keeps the invariants of the pass. */
  lemma TeacherStepKeeps(st: Pass<(string, string)>, subjectIds: map<string, nat>, name: Option<string>)
    requires PassInv(st, subjectIds) && Resolve(st.db, Teachers, st.teacherIds, name).Ok?
    ensures var t := Resolve(st.db, Teachers, st.teacherIds, name).value;
      var st1 := st.(db := t.db, teacherIds := t.cache,
                     summary := st.summary.(teachers := st.summary.teachers + if t.inserted then 1 else 0));
      PassInv(st1, subjectIds) && Grows(st.db, st1.db)
  {
    var t := Resolve(st.db, Teachers, st.teacherIds, name).value;
    TeacherResolvedKeeps(WorkOf(st), name);
    assert KeysOwned(t.db, subjectIds, st.groupIds);
  }

  lemma PopScheduleKeeps(st: Pass<(string, string)>, subjectIds: map<string, nat>, name: string, s: NestedSchedule)
    requires PassInv(st, subjectIds) && name in subjectIds
    ensures var r := PopSchedule(st, subjectIds[name], name, s, PairKey);
      PassInv(r, subjectIds) && Grows(st.db, r.db)
  {
    var r := PopSchedule(st, subjectIds[name], name, s, PairKey);
    if Truthy(s.teacher) && Truthy(s.classroom) && Truthy(s.weekDay) && s.period.Some?
       && Resolve(st.db, Teachers, st.teacherIds, s.teacher).Ok?
    {
      var t := Resolve(st.db, Teachers, st.teacherIds, s.teacher).value;
      TeacherStepKeeps(st, subjectIds, s.teacher);
      var st1 := st.(db := t.db, teacherIds := t.cache,
                     summary := st.summary.(teachers := st.summary.teachers + if t.inserted then 1 else 0));
      SeatResolved(st, subjectIds[name], name, s, PairKey, t);
      PlaceScheduleKeeps(st1, subjectIds, name, s, t.id);
      GrowsTrans(st.db, st1.db, r.db);
    } else {
      assert r.db == st.db && r.teacherIds == st.teacherIds && r.classroomIds == st.classroomIds
        && r.groupIds == st.groupIds;
      GrowsRefl(st.db);
    }
  }

  lemma {:induction false} PopSchedulesKeeps(st: Pass<(string, string)>, subjectIds: map<string, nat>, name: string,
                                             ss: seq<NestedSchedule>)
    requires PassInv(st, subjectIds) && name in subjectIds
    ensures var r := PopSchedules(st, subjectIds[name], name, ss, PairKey);
      PassInv(r, subjectIds) && Grows(st.db, r.db)
    decreases |ss|
  {
    if ss == [] {
      GrowsRefl(st.db);
    } else {
      var st1 := PopSchedule(st, subjectIds[name], name, ss[0], PairKey);
      PopScheduleKeeps(st, subjectIds, name, ss[0]);
      PopSchedulesKeeps(st1, subjectIds, name, ss[1..]);
      GrowsTrans(st.db, st1.db, PopSchedules(st1, subjectIds[name], name, ss[1..], PairKey).db);
    }
  }

  lemma {:induction false} PopItemsKeeps(st: Pass<(string, string)>, subjectIds: map<string, nat>, ls: seq<Listing>)
    requires PassInv(st, subjectIds)
    ensures var r := PopItems(st, subjectIds, ls, PairKey);
      PassInv(r, subjectIds) && Grows(st.db, r.db)
    decreases |ls|
  {
    if ls == [] {
      GrowsRefl(st.db);
    } else {
      var l := ls[0];
      var st1 := PopItem(st, subjectIds, l, PairKey);
      if l.name in subjectIds {
        var g := PopGroups(st, subjectIds[l.name], l.name, PopGroupCodes(l), PairKey);
        PopGroupsKeeps(st, subjectIds, l.name, PopGroupCodes(l));
        if g.Done? {
          PopSchedulesKeeps(g.state, subjectIds, l.name, l.classes);
          GrowsTrans(st.db, g.state.db, st1.db);
        } else {
          assert WorkInv(WorkOf(st1));
        }
      } else {
        GrowsRefl(st.db);
      }
      PopItemsKeeps(st1, subjectIds, ls[1..]);
      GrowsTrans(st.db, st1.db, PopItems(st1, subjectIds, ls[1..], PairKey).db);
    }
  }

  /** populate with the group map keyed by (name, code) keeps every schema
      constraint and files every schedule under a group of its own subject;
      the tables only grow, and no teacher or classroom name is inserted
      twice or while a row with it exists. */
  lemma PopulateKeeps(db: Db, items: seq<Option<NestedSubject>>)
    requires Valid(db) && GroupsMatch(db)
    ensures var db' := PopulateSpec(db, items).0;
      Valid(db') && GroupsMatch(db') && Grows(db, db')
  {
    var ls := Eligibles(items);
    var st0 := SubjectPass(db, map[], [], [], 0);
    InsertSubjectsTally(st0, ls);
    var p1 := InsertSubjects(st0, ls);
    GroupsMatchSameLinks(db, p1.db);
    AddedFreshRefl(db.teachers);
    AddedFreshRefl(db.classrooms);
    assert Grows(db, p1.db);
    var pass := Pass(p1.db, map[], map[], map[], p1.errors, Summary(p1.count, 0, 0, 0, 0));
    assert PassInv(pass, p1.subjectIds);
    PopItemsKeeps(pass, p1.subjectIds, ls);
    GrowsTrans(db, p1.db, PopItems(pass, p1.subjectIds, ls, PairKey).db);
  }

  // ---------------------------------------------------------------------
  // The string key of the source
  // ---------------------------------------------------------------------

  /** Two different (subject, group code) pairs share a string key. */
  lemma JoinKeyCollides()
    ensures ("A", "B-C") != ("A-B", "C") && JoinKey("A", "B-C") == JoinKey("A-B", "C")
  {
    assert JoinKey("A", "B-C") == "A-B-C";
    assert JoinKey("A-B", "C") == "A-B-C";
  }

  lemma ParseSmall()
    ensures ParseInt("1") == Some(1) && ParseInt("2") == Some(2)
  {
    assert "1"[SignLength("1")..] == "1";
    assert "2"[SignLength("2")..] == "2";
    assert LeadingDigits("1") == 1 && LeadingDigits("2") == 1;
    assert "1"[..1] == "1" && "2"[..1] == "2";
    assert DigitsValue("1") == 1 && DigitsValue("2") == 2;
  }

  /** Subject "A", multi-class with the one group "B-C" and no schedules,
      then subject "A-B", single group, with one schedule of group "C". */
  function MisfiledSeed(): seq<Option<NestedSubject>> {
    [Some(NestedSubject(Some("A"), Some("x"), Some("1"), true, false, None, Some(["B-C"]))),
     Some(NestedSubject(Some("A-B"), Some("y"), Some("1"), false, false, Some([SeedSchedule()]), None))]
  }

  function SeedSchedule(): NestedSchedule {
    NestedSchedule(Some("2"), Some(["1"]), Some("T"), Some("R"), Some("C"))
  }

  function SeedA(): Listing { Listing("A", "x", "1", true, false, [], Some(["B-C"])) }

  function SeedB(): Listing { Listing("A-B", "y", "1", false, false, [SeedSchedule()], None) }

  /** The tables after the subject pass of the seed. */
  function SeedSubjects(): Db {
    Db([SubjectRow(1, "A", "x", "1", true, false), SubjectRow(2, "A-B", "y", "1", false, false)],
       [], [], [], [], Serials(3, 1, 1, 1, 1))
  }

  function SeedIds(): map<string, nat> { map["A" := 1, "A-B" := 2] }

  lemma SeedListings()
    ensures Eligibles(MisfiledSeed()) == [SeedA(), SeedB()]
  {
    var items := MisfiledSeed();
    assert Eligible(items[0]) && ListingOf(items[0].value) == SeedA();
    assert Eligible(items[1]) && ListingOf(items[1].value) == SeedB();
    assert items[1..][1..] == [];
    assert Eligibles(items[1..]) == [SeedB()] + Eligibles(items[1..][1..]);
  }

  lemma SeedFirstPass()
    ensures var p1 := InsertSubjects(SubjectPass(Fresh, map[], [], [], 0), [SeedA(), SeedB()]);
      p1.db == SeedSubjects() && p1.subjectIds == SeedIds() && p1.errors == [] && p1.count == 2
  {
    var db1 := Fresh.(subjects := [SubjectRow(1, "A", "x", "1", true, false)], serials := Serials(2, 1, 1, 1, 1));
    assert !CodeTaken(Fresh, "A");
    assert |"A"| == 1 && |"x"| == 1 && |"1"| == 1 && |"A-B"| == 3 && |"y"| == 1;
    assert Fresh.subjects + [SubjectRow(1, "A", "x", "1", true, false)] == db1.subjects;
    assert db1.subjects + [SubjectRow(2, "A-B", "y", "1", false, false)] == SeedSubjects().subjects;
    assert InsertSubject(Fresh, "A", "x", "1", true, false) == Ok((db1, 1));
    var st1 := SubjectPass(db1, map["A" := 1], [PopCreated("A", "x", "1")], [], 1);
    assert InsertSubjects(SubjectPass(Fresh, map[], [], [], 0), [SeedA(), SeedB()])
        == InsertSubjects(st1, [SeedB()]);
    assert !CodeTaken(db1, "A-B");
    assert InsertSubject(db1, "A-B", "y", "1", false, false) == Ok((SeedSubjects(), 2));
    assert [SeedB()][1..] == [];
  }

  /** The second pass for "A": its group "B-C" is recorded under "A-B-C". */
  lemma SeedItemA(st: Pass<string>)
    requires st.db == SeedSubjects() && st.groupIds == map[]
    ensures var r := PopItem(st, SeedIds(), SeedA(), JoinKey);
      && r.db == SeedSubjects().(groups := [GroupRow(1, 1, "B-C")], serials := Serials(3, 1, 1, 2, 1))
      && r.groupIds == map["A-B-C" := 1]
      && r.teacherIds == st.teacherIds && r.classroomIds == st.classroomIds
  {
    assert JoinKey("A", "B-C") == "A-B-C";
    assert !GroupTaken(st.db, 1, "B-C");
    assert SubjectRow(1, "A", "x", "1", true, false) in st.db.subjects;
    assert HasSubject(st.db, 1);
    assert PopGroupCodes(SeedA()) == ["B-C"];
  }

  function SeedGroups(): seq<GroupRow> { [GroupRow(1, 1, "B-C"), GroupRow(2, 2, "DEFAULT")] }

  /** The second pass for "A-B": its group "DEFAULT" first. */
  lemma SeedGroupsB(st: Pass<string>)
    requires st.db == SeedSubjects().(groups := [GroupRow(1, 1, "B-C")], serials := Serials(3, 1, 1, 2, 1))
    ensures var g := st.(db := st.db.(groups := SeedGroups(), serials := Serials(3, 1, 1, 3, 1)),
                         groupIds := st.groupIds[JoinKey("A-B", DefaultGroup) := 2],
                         summary := st.summary.(classGroups := st.summary.classGroups + 1));
      PopItem(st, SeedIds(), SeedB(), JoinKey) == PopSchedules(g, 2, "A-B", [SeedSchedule()], JoinKey)
  {
    var db2 := st.db.(groups := SeedGroups(), serials := Serials(3, 1, 1, 3, 1));
    assert PopGroupCodes(SeedB()) == [DefaultGroup];
    assert !GroupTaken(st.db, 2, DefaultGroup);
    assert SubjectRow(2, "A-B", "y", "1", false, false) in st.db.subjects;
    var ids2 := st.groupIds[JoinKey("A-B", DefaultGroup) := 2];
    var g := st.(db := db2, groupIds := ids2, summary := st.summary.(classGroups := st.summary.classGroups + 1));
    assert |DefaultGroup| == 7;
    assert st.db.groups + [GroupRow(2, 2, DefaultGroup)] == db2.groups;
    assert InsertGroup(st.db, 2, DefaultGroup) == Ok((db2, 2));
    assert [DefaultGroup][1..] == [];
    assert PopGroups(st, 2, "A-B", [DefaultGroup], JoinKey) == PopGroups(g, 2, "A-B", [], JoinKey);
  }

  /** Then its schedule: teacher "T" is inserted as 1, ... */
  lemma SeedTeacher(st: Pass<string>)
    requires st.db == SeedSubjects().(groups := SeedGroups(), serials := Serials(3, 1, 1, 3, 1))
    requires st.teacherIds == map[]
    ensures PopSchedule(st, 2, "A-B", SeedSchedule(), JoinKey)
         == PlaceSchedule(st.(db := st.db.(teachers := [NamedRow(1, "T")], serials := Serials(3, 2, 1, 3, 1)),
                              teacherIds := map["T" := 1],
                              summary := st.summary.(teachers := st.summary.teachers + 1)),
                          2, "A-B", SeedSchedule(), JoinKey, 1)
  {
    var s := SeedSchedule();
    var db3 := st.db.(teachers := [NamedRow(1, "T")], serials := Serials(3, 2, 1, 3, 1));
    assert FindNamed(st.db.teachers, s.teacher).None?;
    assert |"T"| == 1 && NextNamed(st.db, Teachers) == 1;
    assert st.db.teachers + [NamedRow(1, "T")] == db3.teachers;
    assert InsertNamed(st.db, Teachers, s.teacher) == Ok((db3, 1));
    assert Resolve(st.db, Teachers, map[], s.teacher) == Ok(Resolution(db3, map["T" := 1], 1, true));
  }

  /** ... and classroom "R" as 1. */
  lemma SeedClassroom(st: Pass<string>)
    requires st.db == SeedSubjects().(groups := SeedGroups(), teachers := [NamedRow(1, "T")],
                                      serials := Serials(3, 2, 1, 3, 1))
    requires st.classroomIds == map[]
    ensures PlaceSchedule(st, 2, "A-B", SeedSchedule(), JoinKey, 1)
         == FileSchedule(st.(db := st.db.(classrooms := [NamedRow(1, "R")], serials := Serials(3, 2, 2, 3, 1)),
                             classroomIds := map["R" := 1],
                             summary := st.summary.(classrooms := st.summary.classrooms + 1)),
                         2, "A-B", SeedSchedule(), JoinKey, 1, 1)
  {
    var s := SeedSchedule();
    var db4 := st.db.(classrooms := [NamedRow(1, "R")], serials := Serials(3, 2, 2, 3, 1));
    assert FindNamed(st.db.classrooms, s.classroom).None?;
    assert |"R"| == 1 && NextNamed(st.db, Classrooms) == 1;
    assert st.db.classrooms + [NamedRow(1, "R")] == db4.classrooms;
    assert InsertNamed(st.db, Classrooms, s.classroom) == Ok((db4, 1));
    assert Resolve(st.db, Classrooms, map[], s.classroom) == Ok(Resolution(db4, map["R" := 1], 1, true));
  }

  /** Filing the schedule: "A-B-C" is the key of the group of "A". */
  lemma SeedFiles(st: Pass<string>)
    requires st.db == SeedSubjects().(groups := SeedGroups(), teachers := [NamedRow(1, "T")],
                                      classrooms := [NamedRow(1, "R")], serials := Serials(3, 2, 2, 3, 1))
    requires "A-B-C" in st.groupIds && st.groupIds["A-B-C"] == 1
    ensures var r := FileSchedule(st, 2, "A-B", SeedSchedule(), JoinKey, 1, 1);
      ScheduleRow(1, 2, 1, 1, 1, 2, 1, 1) in r.db.schedules && r.db.groups == SeedGroups()
  {
    ParseSmall();
    var s := SeedSchedule();
    assert JoinKey("A-B", GroupCodeOf(s)) == "A-B-C";
    assert Collapse(["1"]) == (Some(1), Some(1));
    assert ParseOptional(s.weekDay) == Some(2);
    assert SubjectRow(2, "A-B", "y", "1", false, false) in st.db.subjects;
    assert GroupRow(1, 1, "B-C") in st.db.groups;
    assert NamedRow(1, "T") in st.db.teachers && NamedRow(1, "R") in st.db.classrooms;
    assert ScheduleRefsOk(st.db, 2, 1, 1, 1);
    var ins := ScheduleInsert(st.db, 2, 1, 1, 1, s);
    assert ins.Ok? && ins.value.0.schedules == [ScheduleRow(1, 2, 1, 1, 1, 2, 1, 1)];
  }

  lemma SeedItemB(st: Pass<string>)
    requires st.db == SeedSubjects().(groups := [GroupRow(1, 1, "B-C")], serials := Serials(3, 1, 1, 2, 1))
    requires st.groupIds == map["A-B-C" := 1] && st.teacherIds == map[] && st.classroomIds == map[]
    ensures var r := PopItem(st, SeedIds(), SeedB(), JoinKey);
      ScheduleRow(1, 2, 1, 1, 1, 2, 1, 1) in r.db.schedules && r.db.groups == SeedGroups()
  {
    SeedGroupsB(st);
    var g := st.(db := st.db.(groups := SeedGroups(), serials := Serials(3, 1, 1, 3, 1)),
                 groupIds := st.groupIds[JoinKey("A-B", DefaultGroup) := 2],
                 summary := st.summary.(classGroups := st.summary.classGroups + 1));
    assert [SeedSchedule()][1..] == [];
    assert PopSchedules(g, 2, "A-B", [SeedSchedule()], JoinKey) == PopSchedule(g, 2, "A-B", SeedSchedule(), JoinKey);
    SeedTeacher(g);
    var t := g.(db := g.db.(teachers := [NamedRow(1, "T")], serials := Serials(3, 2, 1, 3, 1)),
                teacherIds := map["T" := 1], summary := g.summary.(teachers := g.summary.teachers + 1));
    SeedClassroom(t);
    var f := t.(db := t.db.(classrooms := [NamedRow(1, "R")], serials := Serials(3, 2, 2, 3, 1)),
                classroomIds := map["R" := 1], summary := t.summary.(classrooms := t.summary.classrooms + 1));
    assert JoinKey("A-B", DefaultGroup) != "A-B-C";
    SeedFiles(f);
  }

  /** populate as written, on an empty database: the key "A-B-C" of the
      schedule of "A-B" finds the group "B-C" of "A", and the schedule row is
      filed under subject 2 with group 1, which belongs to subject 1. */
  lemma JoinKeyMisfiles()
    ensures var db := PopulateAsWritten(Fresh, MisfiledSeed()).0;
      && ScheduleRow(1, 2, 1, 1, 1, 2, 1, 1) in db.schedules
      && db.groups == SeedGroups()
      && !GroupsMatch(db)
  {
    SeedListings();
    SeedFirstPass();
    var ls := [SeedA(), SeedB()];
    var p1 := InsertSubjects(SubjectPass(Fresh, map[], [], [], 0), ls);
    var pass := Pass(p1.db, map[], map[], map[], p1.errors, Summary(p1.count, 0, 0, 0, 0));
    SeedItemA(pass);
    var st1 := PopItem(pass, SeedIds(), SeedA(), JoinKey);
    SeedItemB(st1);
    var st2 := PopItem(st1, SeedIds(), SeedB(), JoinKey);
    assert ls[1..][1..] == [];
    assert PopItems(pass, SeedIds(), ls, JoinKey) == st2;
    var db := st2.db;
    var row := ScheduleRow(1, 2, 1, 1, 1, 2, 1, 1);
    assert row in db.schedules;
    assert !(exists g :: g in db.groups && g.id == row.groupId && g.subjectId == row.subjectId);
  }
}
