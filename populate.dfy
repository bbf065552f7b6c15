/** populate as a function of the database and the seed data: keep the items
    with a name, a description and a semester; first insert every subject,
    then, subject by subject, its groups and its schedules, counting what is
    inserted. Every failure is reported and the run goes on.

    The group map of the source is keyed by the string `name + "-" + code`,
    shared by all subjects, and two different (name, code) pairs can give the
    same key. The pass is therefore written over any key function: the
    source's `JoinKey` and the pair key `PairKey` that the rest of the model
    uses. */
module PopulateModel {
  import opened Common
  import opened Tables
  import opened Records
  import opened Resolver
  import opened Ingest

  /** An item that passed the filter: name and description present and not
      empty, semester present. */
  datatype Listing = Listing(
    name: string,
    description: string,
    semester: string,
    multiClass: bool,
    greve: bool,
    classes: seq<NestedSchedule>,
    classList: Option<seq<string>>)

  datatype Summary = Summary(subjects: nat, teachers: nat, classrooms: nat, classGroups: nat, schedules: nat)

  datatype PopCreated = PopCreated(name: string, description: string, semester: string)

  datatype PopReport = PopReport(created: seq<PopCreated>, errors: seq<Entry>, summary: Summary)

  predicate Eligible(item: Option<NestedSubject>) {
    && item.Some? && Truthy(item.value.name) && Truthy(item.value.description)
    && item.value.semester.Some?
  }

  function ListingOf(d: NestedSubject): Listing
    requires d.name.Some? && d.description.Some? && d.semester.Some?
  {
    Listing(d.name.value, d.description.value, d.semester.value, d.multiClass, d.greve, ClassesOf(d), d.classList)
  }

  /** The filter of the seed data, in order. */
  function Eligibles(items: seq<Option<NestedSubject>>): (r: seq<Listing>)
    ensures |r| <= |items|
    ensures forall l :: l in r ==> l.name != "" && l.description != ""
    decreases |items|
  {
    if items == [] then []
    else (if Eligible(items[0]) then [ListingOf(items[0].value)] else []) + Eligibles(items[1..])
  }

  /** The filter keeps the listing of every eligible item and nothing else. */
  lemma {:induction false} EligiblesExactly(items: seq<Option<NestedSubject>>)
    ensures forall i :: 0 <= i < |items| && Eligible(items[i]) ==> ListingOf(items[i].value) in Eligibles(items)
    ensures forall l :: l in Eligibles(items) ==>
      exists i :: 0 <= i < |items| && Eligible(items[i]) && l == ListingOf(items[i].value)
    decreases |items|
  {
    if items != [] {
      var rest := items[1..];
      EligiblesExactly(rest);
      forall i | 1 <= i < |items| ensures items[i] == rest[i - 1] { }
      forall l | l in Eligibles(items)
        ensures exists i :: 0 <= i < |items| && Eligible(items[i]) && l == ListingOf(items[i].value)
      {
        if l !in Eligibles(rest) {
          assert Eligible(items[0]) && l == ListingOf(items[0].value);
        } else {
          var j :| 0 <= j < |rest| && Eligible(rest[j]) && l == ListingOf(rest[j].value);
          assert items[j + 1] == rest[j];
        }
      }
    }
  }

  /** The source's group key. */
  function JoinKey(name: string, code: string): string {
    name + "-" + code
  }

  /** The key the group map needs: the pair itself. */
  function PairKey(name: string, code: string): (string, string) {
    (name, code)
  }

  // ---------------------------------------------------------------------
  // First pass: subjects
  // ---------------------------------------------------------------------

  datatype SubjectPass = SubjectPass(db: Db, subjectIds: map<string, nat>, created: seq<PopCreated>,
                                     errors: seq<Entry>, count: nat)

  function InsertSubjects(st: SubjectPass, ls: seq<Listing>): SubjectPass
    decreases |ls|
  {
    if ls == [] then st
    else
      var l := ls[0];
      var next :=
        match InsertSubject(st.db, l.name, l.description, l.semester, l.multiClass, l.greve)
        case Err(v) => st.(errors := st.errors + [Entry(l.name, SubjectFailed(Violated(v)))])
        case Ok(res) =>
          SubjectPass(res.0, st.subjectIds[l.name := res.1],
                      st.created + [PopCreated(l.name, l.description, l.semester)], st.errors, st.count + 1);
      InsertSubjects(next, ls[1..])
  }

  // ---------------------------------------------------------------------
  // Second pass: groups and schedules
  // ---------------------------------------------------------------------

  datatype Pass<K(==)> = Pass(db: Db, teacherIds: map<string, nat>, classroomIds: map<string, nat>,
                              groupIds: map<K, nat>, errors: seq<Entry>, summary: Summary)

  /** The groups populate gives a subject: its non-empty `classList` when
      multi-class, else "DEFAULT". */
  function PopGroupCodes(l: Listing): seq<string> {
    if l.multiClass && l.classList.Some? && |l.classList.value| > 0 then l.classList.value else [DefaultGroup]
  }

  function PopGroups<K(==)>(st: Pass<K>, subjectId: nat, name: string, codes: seq<string>,
                            key: (string, string) -> K): Outcome<Pass<K>>
    decreases |codes|
  {
    if codes == [] then Done(st)
    else
      match InsertGroup(st.db, subjectId, codes[0])
      case Err(v) => Threw(st, Violated(v))
      case Ok(res) =>
        PopGroups(st.(db := res.0, groupIds := st.groupIds[key(name, codes[0]) := res.1],
                      summary := st.summary.(classGroups := st.summary.classGroups + 1)),
                  subjectId, name, codes[1..], key)
  }

  /** Once the first group's insert returns `res`, the rest of the groups
      follow from the updated pass. */
  lemma PopGroupsInserted<K>(st: Pass<K>, subjectId: nat, name: string, codes: seq<string>,
                             key: (string, string) -> K, res: (Db, nat))
    requires codes != [] && InsertGroup(st.db, subjectId, codes[0]) == Ok(res)
    ensures PopGroups(st, subjectId, name, codes, key)
         == PopGroups(st.(db := res.0, groupIds := st.groupIds[key(name, codes[0]) := res.1],
                          summary := st.summary.(classGroups := st.summary.classGroups + 1)),
                      subjectId, name, codes[1..], key)
  {
  }

  function ScheduleFailure<K(==)>(st: Pass<K>, name: string, f: Fault): Pass<K> {
    st.(errors := st.errors + [Entry(name, ScheduleFailed(f))])
  }

  /** The end of one schedule, once its teacher and classroom ids are
      known: find the group by key (a missing one is reported under its
      code) and insert the row. */
  function FileSchedule<K(==)>(st: Pass<K>, subjectId: nat, name: string, s: NestedSchedule,
                               key: (string, string) -> K, teacherId: nat, classroomId: nat): Pass<K>
    requires s.period.Some?
  {
    var k := key(name, GroupCodeOf(s));
    if k !in st.groupIds then st.(errors := st.errors + [Entry(name, GroupNotFound(GroupCodeOf(s)))])
    else
      match ScheduleInsert(st.db, subjectId, st.groupIds[k], teacherId, classroomId, s)
      case Err(v) => ScheduleFailure(st, name, Violated(v))
      case Ok(res) => st.(db := res.0, summary := st.summary.(schedules := st.summary.schedules + 1))
  }

  /** The middle of one schedule, once its teacher id is known: resolve the
      classroom (counting an insert), then file it. */
  function PlaceSchedule<K(==)>(st: Pass<K>, subjectId: nat, name: string, s: NestedSchedule,
                                key: (string, string) -> K, teacherId: nat): Pass<K>
    requires s.period.Some?
  {
    match Resolve(st.db, Classrooms, st.classroomIds, s.classroom)
    case Err(v) => ScheduleFailure(st, name, Violated(v))
    case Ok(c) =>
      var st1 := st.(db := c.db, classroomIds := c.cache,
                     summary := st.summary.(classrooms := st.summary.classrooms + if c.inserted then 1 else 0));
      FileSchedule(st1, subjectId, name, s, key, teacherId, c.id)
  }

  /** A complete schedule: resolve the teacher (counting an insert), then
      place it. */
  function SeatSchedule<K(==)>(st: Pass<K>, subjectId: nat, name: string, s: NestedSchedule,
                               key: (string, string) -> K): Pass<K>
    requires s.period.Some?
  {
    match Resolve(st.db, Teachers, st.teacherIds, s.teacher)
    case Err(v) => ScheduleFailure(st, name, Violated(v))
    case Ok(t) =>
      var st1 := st.(db := t.db, teacherIds := t.cache,
                     summary := st.summary.(teachers := st.summary.teachers + if t.inserted then 1 else 0));
      PlaceSchedule(st1, subjectId, name, s, key, t.id)
  }

  /** Once the teacher resolves to `t`, seating is placing with `t`'s id. */
  lemma SeatResolved<K>(st: Pass<K>, subjectId: nat, name: string, s: NestedSchedule,
                            key: (string, string) -> K, t: Resolution)
    requires s.period.Some? && Resolve(st.db, Teachers, st.teacherIds, s.teacher) == Ok(t)
    ensures SeatSchedule(st, subjectId, name, s, key)
         == PlaceSchedule(st.(db := t.db, teacherIds := t.cache,
                              summary := st.summary.(teachers := st.summary.teachers + if t.inserted then 1 else 0)),
                          subjectId, name, s, key, t.id)
  {
  }

  /** Once the classroom resolves to `c`, placing is filing with `c`'s id. */
  lemma PlaceResolved<K>(st: Pass<K>, subjectId: nat, name: string, s: NestedSchedule,
                         key: (string, string) -> K, teacherId: nat, c: Resolution)
    requires s.period.Some? && Resolve(st.db, Classrooms, st.classroomIds, s.classroom) == Ok(c)
    ensures PlaceSchedule(st, subjectId, name, s, key, teacherId)
         == FileSchedule(st.(db := c.db, classroomIds := c.cache,
                             summary := st.summary.(classrooms := st.summary.classrooms + if c.inserted then 1 else 0)),
                         subjectId, name, s, key, teacherId, c.id)
  {
  }

  /** One schedule: skipped silently without teacher, classroom, week day or
      period; otherwise resolve the teacher (counting an insert), then the
      classroom, then file it. A failure is reported and the run goes on. */
  function PopSchedule<K(==)>(st: Pass<K>, subjectId: nat, name: string, s: NestedSchedule,
                              key: (string, string) -> K): Pass<K>
  {
    if !Truthy(s.teacher) || !Truthy(s.classroom) || !Truthy(s.weekDay) || s.period.None? then st
    else SeatSchedule(st, subjectId, name, s, key)
  }

  function PopSchedules<K(==)>(st: Pass<K>, subjectId: nat, name: string, ss: seq<NestedSchedule>,
                               key: (string, string) -> K): Pass<K>
    decreases |ss|
  {
    if ss == [] then st
    else PopSchedules(PopSchedule(st, subjectId, name, ss[0], key), subjectId, name, ss[1..], key)
  }

  /** One listing in the second pass: nothing if its subject was not
      created; a failing group insert reports the listing and skips its
      schedules. */
  function PopItem<K(==)>(st: Pass<K>, subjectIds: map<string, nat>, l: Listing,
                          key: (string, string) -> K): Pass<K>
  {
    if l.name !in subjectIds then st
    else
      var subjectId := subjectIds[l.name];
      match PopGroups(st, subjectId, l.name, PopGroupCodes(l), key)
      case Threw(st1, f) => st1.(errors := st1.errors + [Entry(l.name, ClassFailed(f))])
      case Done(st1) => PopSchedules(st1, subjectId, l.name, l.classes, key)
  }

  function PopItems<K(==)>(st: Pass<K>, subjectIds: map<string, nat>, ls: seq<Listing>,
                           key: (string, string) -> K): Pass<K>
    decreases |ls|
  {
    if ls == [] then st
    else PopItems(PopItem(st, subjectIds, ls[0], key), subjectIds, ls[1..], key)
  }

  function PopulateWith<K(==)>(db: Db, items: seq<Option<NestedSubject>>, key: (string, string) -> K)
    : (Db, PopReport)
  {
    var ls := Eligibles(items);
    var p1 := InsertSubjects(SubjectPass(db, map[], [], [], 0), ls);
    var p2 := PopItems(Pass(p1.db, map[], map[], map[], p1.errors, Summary(p1.count, 0, 0, 0, 0)),
                       p1.subjectIds, ls, key);
    (p2.db, PopReport(p1.created, p2.errors, p2.summary))
  }

  /** populate as the source writes it. */
  function PopulateAsWritten(db: Db, items: seq<Option<NestedSubject>>): (Db, PopReport) {
    PopulateWith(db, items, JoinKey)
  }

  /** populate with the group map keyed by (name, code). */
  function PopulateSpec(db: Db, items: seq<Option<NestedSubject>>): (Db, PopReport) {
    PopulateWith(db, items, PairKey)
  }
}
