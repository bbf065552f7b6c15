/** The read side: the flat rows of the subjects / class_groups /
    class_schedules / teachers / classrooms left join are folded into the
    nested subjects the ingestion consumes. Rows are grouped by subject code
    in first-seen order; a row with a week day and a teacher becomes a
    schedule; the group codes seen form the subject's `classList`, sorted. */
module ClassTransformer {
  import opened Common
  import opened PeriodCodec
  import opened Records

  /** The class_schedules, teachers and classrooms columns of a join row;
      all present together, since every one of them is NOT NULL. */
  datatype Slot = Slot(weekDay: int, startPeriod: int, endPeriod: int, teacherName: string, classroomName: string)

  /** One row of the join: the subject's columns, the group's code (absent
      for a subject without groups) and the schedule's columns (absent for a
      group without schedules). */
  datatype JoinRow = JoinRow(code: string, name: string, semester: string, multiClass: bool, onStrike: bool,
                             groupCode: Option<string>, slot: Option<Slot>)

  /** `row.week_day && row.teacher_name`: a week day other than 0 and a
      non-empty teacher name. */
  predicate Listed(r: JoinRow) {
    r.slot.Some? && r.slot.value.weekDay != 0 && r.slot.value.teacherName != ""
  }

  /** The schedule a listed row becomes. */
  function ScheduleOf(row: JoinRow): (s: NestedSchedule)
    requires Listed(row)
    ensures s.weekDay == Some(IntToString(row.slot.value.weekDay))
    ensures s.period.Some? && |s.period.value| == if row.slot.value.startPeriod <= row.slot.value.endPeriod
                                                  then row.slot.value.endPeriod - row.slot.value.startPeriod + 1 else 0
    ensures s.whichClass.Some? <==> row.multiClass && Truthy(row.groupCode)
    ensures s.whichClass.Some? ==> s.whichClass == row.groupCode
  {
    var slot := row.slot.value;
    ExpandAt(slot.startPeriod, slot.endPeriod);
    NestedSchedule(Some(IntToString(slot.weekDay)), Some(Expand(slot.startPeriod, slot.endPeriod)),
                   Some(slot.teacherName), Some(slot.classroomName),
                   if row.multiClass && Truthy(row.groupCode) then row.groupCode else None)
  }

  // ---------------------------------------------------------------------
  // Sorting the group codes
  // ---------------------------------------------------------------------

  /** The order of JavaScript's default `sort()` on strings: character by
      character, a prefix before its extensions. */
  predicate Below(a: string, b: string)
    decreases |a|
  {
    a == [] || (b != [] && (a[0] < b[0] || (a[0] == b[0] && Below(a[1..], b[1..]))))
  }

  lemma {:induction false} BelowTotal(a: string, b: string)
    ensures Below(a, b) || Below(b, a)
    decreases |a|
  {
    if a != [] && b != [] && a[0] == b[0] {
      BelowTotal(a[1..], b[1..]);
    }
  }

  lemma {:induction false} BelowAntisymmetric(a: string, b: string)
    requires Below(a, b) && Below(b, a)
    ensures a == b
    decreases |a|
  {
    if a != [] {
      BelowAntisymmetric(a[1..], b[1..]);
      assert a == [a[0]] + a[1..] && b == [b[0]] + b[1..];
    }
  }

  predicate Sorted(s: seq<string>) {
    forall i, j :: 0 <= i < j < |s| ==> Below(s[i], s[j])
  }

  predicate Distinct<T(==)>(s: seq<T>) {
    forall i, j :: 0 <= i < j < |s| ==> s[i] != s[j]
  }

  function Insert(x: string, s: seq<string>): (r: seq<string>)
    ensures multiset(r) == multiset(s) + multiset{x}
  {
    if s == [] || Below(x, s[0]) then [x] + s
    else
      assert s == [s[0]] + s[1..];
      [s[0]] + Insert(x, s[1..])
  }

  lemma {:induction false} BelowTransitive(a: string, b: string, c: string)
    requires Below(a, b) && Below(b, c)
    ensures Below(a, c)
    decreases |a|
  {
    if a != [] && a[0] == b[0] && b[0] == c[0] {
      BelowTransitive(a[1..], b[1..], c[1..]);
    }
  }

  /** Inserting into a sorted list keeps it sorted. */
  lemma {:induction false} InsertSorted(x: string, s: seq<string>)
    requires Sorted(s)
    ensures Sorted(Insert(x, s))
  {
    if s == [] {
    } else if Below(x, s[0]) {
      forall k | 0 < k < |s| ensures Below(x, s[k]) {
        BelowTransitive(x, s[0], s[k]);
      }
    } else {
      BelowTotal(x, s[0]);
      var t := Insert(x, s[1..]);
      InsertSorted(x, s[1..]);
      assert s == [s[0]] + s[1..];
      forall y | y in t ensures Below(s[0], y) {
        assert y in multiset(t);
      }
    }
  }

  /** Inserting a new string into a list without repeats gives one. */
  lemma {:induction false} InsertDistinct(x: string, s: seq<string>)
    requires x !in s && Distinct(s)
    ensures Distinct(Insert(x, s))
  {
    if s == [] || Below(x, s[0]) {
      ConsDistinct(x, s);
    } else {
      var t := Insert(x, s[1..]);
      assert s == [s[0]] + s[1..];
      DistinctTail(s);
      InsertDistinct(x, s[1..]);
      forall y | y in t ensures y != s[0] {
        assert y in multiset(t);
      }
      ConsDistinct(s[0], t);
    }
  }

  lemma DistinctTail(s: seq<string>)
    requires s != [] && Distinct(s)
    ensures s[0] !in s[1..] && Distinct(s[1..])
  {
    forall i, j | 0 <= i < j < |s[1..]| ensures s[1..][i] != s[1..][j] {
      assert s[1..][i] == s[i + 1] && s[1..][j] == s[j + 1];
    }
  }

  lemma ConsDistinct(a: string, t: seq<string>)
    requires a !in t && Distinct(t)
    ensures Distinct([a] + t)
  {
    var r := [a] + t;
    forall i, j | 0 <= i < j < |r| ensures r[i] != r[j] {
      assert r[j] == t[j - 1] && r[j] in t;
      if i == 0 {
        assert r[i] == a;
      } else {
        assert r[i] == t[i - 1];
      }
    }
  }

  /** `Array.from(set).sort()`. */
  function Sort(s: seq<string>): (r: seq<string>)
    ensures multiset(r) == multiset(s)
  {
    if s == [] then []
    else
      assert s == [s[0]] + s[1..];
      Insert(s[0], Sort(s[1..]))
  }

  /** The sorted list is sorted, holds the same strings, and has no repeats
      when the list had none. */
  lemma {:induction false} SortSorts(s: seq<string>)
    ensures Sorted(Sort(s))
    ensures forall x :: x in Sort(s) <==> x in s
    ensures Distinct(s) ==> Distinct(Sort(s))
  {
    forall x ensures x in Sort(s) <==> x in s {
      assert x in Sort(s) <==> x in multiset(Sort(s));
    }
    if s != [] {
      SortSorts(s[1..]);
      InsertSorted(s[0], Sort(s[1..]));
      if Distinct(s) {
        assert s[0] !in s[1..];
        InsertDistinct(s[0], Sort(s[1..]));
      }
    }
  }

  /** Two sorted lists of the same strings are the same list: the sorted
      `classList` depends only on the set of codes, not on the order the
      rows brought them in. */
  lemma {:induction false} SortedUnique(a: seq<string>, b: seq<string>)
    requires Sorted(a) && Sorted(b) && multiset(a) == multiset(b)
    ensures a == b
    decreases |a|
  {
    if a != [] {
      assert |b| == |multiset(b)| == |a|;
      SameLeast(a, b);
      SortedTail(a);
      SortedTail(b);
      assert a == [a[0]] + a[1..] && b == [b[0]] + b[1..];
      assert multiset(a[1..]) == multiset(a) - multiset{a[0]};
      assert multiset(b[1..]) == multiset(b) - multiset{b[0]};
      SortedUnique(a[1..], b[1..]);
    }
  }

  /** Two sorted lists of the same strings start with the same one. */
  lemma SameLeast(a: seq<string>, b: seq<string>)
    requires Sorted(a) && Sorted(b) && multiset(a) == multiset(b) && a != [] && b != []
    ensures a[0] == b[0]
  {
    assert a[0] in multiset(b) && b[0] in multiset(a);
    var i :| 0 <= i < |b| && b[i] == a[0];
    var j :| 0 <= j < |a| && a[j] == b[0];
    if i > 0 && j > 0 {
      BelowAntisymmetric(a[0], b[0]);
    }
  }

  lemma SortedTail(a: seq<string>)
    requires Sorted(a) && a != []
    ensures Sorted(a[1..])
  {
    forall i, j | 0 <= i < j < |a[1..]| ensures Below(a[1..][i], a[1..][j]) {
      assert a[1..][i] == a[i + 1] && a[1..][j] == a[j + 1];
    }
  }

  // ---------------------------------------------------------------------
  // Grouping the rows
  // ---------------------------------------------------------------------

  /** One entry of the subjects map while rows are folded in; `classList`
      is the Set of codes in insertion order. */
  datatype Gathered = Gathered(description: string, semester: string, multiClass: bool, greve: bool,
                               classes: seq<NestedSchedule>, classList: seq<string>)

  /** The subjects map: its keys in insertion order, and its entries. */
  datatype Grouping = Grouping(order: seq<string>, subjects: map<string, Gathered>)

  /** `Set.prototype.add` on an insertion-ordered list. */
  function AddCode(list: seq<string>, c: string): (r: seq<string>)
    ensures Distinct(list) ==> Distinct(r)
    ensures forall x :: x in r <==> x in list || x == c
  {
    if c in list then list else list + [c]
  }

  /** The body of the `forEach`: the entry for the row's code (created from
      this row when new), its schedule, its group code. */
  function Step(g: Grouping, r: JoinRow): Grouping {
    var order := if r.code in g.subjects then g.order else g.order + [r.code];
    var a0 := if r.code in g.subjects then g.subjects[r.code]
              else Gathered(r.name, r.semester, r.multiClass, r.onStrike, [], []);
    var a1 := if !Listed(r) then a0
              else a0.(classes := a0.classes + [ScheduleOf(r)],
                       classList := if r.multiClass && Truthy(r.groupCode) then AddCode(a0.classList, r.groupCode.value)
                                    else a0.classList);
    var a2 := if Truthy(r.groupCode) then a1.(classList := AddCode(a1.classList, r.groupCode.value)) else a1;
    Grouping(order, g.subjects[r.code := a2])
  }

  function Fold(rows: seq<JoinRow>): (g: Grouping)
    ensures forall c :: c in g.order <==> c in g.subjects
    decreases |rows|
  {
    if rows == [] then Grouping([], map[]) else Step(Fold(rows[..|rows| - 1]), rows[|rows| - 1])
  }

  /** The `map` at the end: one output object per entry, with `classList`
      only for a multi-class subject that saw a group code. */
  function Emit(code: string, a: Gathered): NestedSubject {
    NestedSubject(Some(code), Some(a.description), Some(a.semester), a.multiClass, a.greve, Some(a.classes),
                  if a.multiClass && |a.classList| > 0 then Some(Sort(a.classList)) else None)
  }

  function Finish(g: Grouping): seq<NestedSubject>
    requires forall c :: c in g.order ==> c in g.subjects
  {
    seq(|g.order|, i requires 0 <= i < |g.order| => Emit(g.order[i], g.subjects[g.order[i]]))
  }

  function Transform(rows: seq<JoinRow>): seq<NestedSubject> {
    Finish(Fold(rows))
  }

  /** The callback of the `forEach`: the row's entry, created when its code
      is new, gets the row's schedule and group code. */
  method AddRow(order: seq<string>, subjects: map<string, Gathered>, row: JoinRow)
    returns (order': seq<string>, subjects': map<string, Gathered>)
    ensures Grouping(order', subjects') == Step(Grouping(order, subjects), row)
  {
    order', subjects' := order, subjects;
    if row.code !in subjects' {
      subjects' := subjects'[row.code := Gathered(row.name, row.semester, row.multiClass, row.onStrike, [], [])];
      order' := order' + [row.code];
    }
    var subject := subjects'[row.code];
    if Listed(row) {
      var slot := row.slot.value;
      var period := GeneratePeriodArray(slot.startPeriod, slot.endPeriod);
      var whichClass := None;
      if row.multiClass && Truthy(row.groupCode) {
        whichClass := row.groupCode;
        subject := subject.(classList := AddCode(subject.classList, row.groupCode.value));
      }
      var schedule := NestedSchedule(Some(IntToString(slot.weekDay)), Some(period), Some(slot.teacherName),
                                     Some(slot.classroomName), whichClass);
      assert schedule == ScheduleOf(row);
      subject := subject.(classes := subject.classes + [schedule]);
    }
    if Truthy(row.groupCode) {
      subject := subject.(classList := AddCode(subject.classList, row.groupCode.value));
    }
    subjects' := subjects'[row.code := subject];
  }

  /** transformToFrontendFormat: one pass over the rows filling the
      subjects map, then the output objects. */
  method TransformToFrontendFormat(rows: seq<JoinRow>) returns (out: seq<NestedSubject>)
    ensures out == Transform(rows)
  {
    var order: seq<string> := [];
    var subjects: map<string, Gathered> := map[];
    for i := 0 to |rows|
      invariant Grouping(order, subjects) == Fold(rows[..i])
    {
      assert rows[..i + 1][..i] == rows[..i];
      order, subjects := AddRow(order, subjects, rows[i]);
    }
    assert rows[..|rows|] == rows;
    out := Finish(Grouping(order, subjects));
  }

  // ---------------------------------------------------------------------
  // What the output is, stated on the rows
  // ---------------------------------------------------------------------

  predicate HasCode(rows: seq<JoinRow>, code: string) {
    exists i :: 0 <= i < |rows| && rows[i].code == code
  }

  /** The index of the first row of a code. */
  function FirstIndex(rows: seq<JoinRow>, code: string): (i: nat)
    requires HasCode(rows, code)
    ensures i < |rows| && rows[i].code == code
    ensures forall j :: 0 <= j < i ==> rows[j].code != code
  {
    if rows[0].code == code then 0
    else
      assert HasCode(rows[1..], code) by {
        var k :| 0 <= k < |rows| && rows[k].code == code;
        assert rows[1..][k - 1] == rows[k];
      }
      1 + FirstIndex(rows[1..], code)
  }

  /** The schedules of a code's listed rows, in row order. */
  function ClassesFor(rows: seq<JoinRow>, code: string): seq<NestedSchedule> {
    if rows == [] then []
    else (if rows[0].code == code && Listed(rows[0]) then [ScheduleOf(rows[0])] else []) + ClassesFor(rows[1..], code)
  }

  /** The non-empty group codes on a code's rows. */
  function GroupSet(rows: seq<JoinRow>, code: string): set<string> {
    set r | r in rows && r.code == code && Truthy(r.groupCode) :: r.groupCode.value
  }

  /** `s` is the output object for `code`: the scalar fields of the code's
      first row, the schedules of its listed rows in order, and `classList`
      exactly when multi-class with some group code, holding each such code
      once, sorted. */
  ghost predicate Describes(rows: seq<JoinRow>, code: string, s: NestedSubject)
    requires HasCode(rows, code)
  {
    var first := rows[FirstIndex(rows, code)];
    && s.name == Some(code) && s.description == Some(first.name) && s.semester == Some(first.semester)
    && s.multiClass == first.multiClass && s.greve == first.onStrike
    && s.classes == Some(ClassesFor(rows, code))
    && (s.classList.Some? <==> first.multiClass && GroupSet(rows, code) != {})
    && (s.classList.Some? ==>
          && Sorted(s.classList.value) && Distinct(s.classList.value)
          && forall x :: x in s.classList.value <==> x in GroupSet(rows, code))
  }

  /** The subjects map after a prefix of the rows: its keys are the codes
      seen, once each, in the order of their first rows. */
  ghost predicate KeysFolded(rows: seq<JoinRow>, g: Grouping) {
    && Distinct(g.order)
    && (forall c :: c in g.order <==> c in g.subjects)
    && (forall c :: c in g.subjects <==> HasCode(rows, c))
    && (forall i, j :: 0 <= i < j < |g.order| && HasCode(rows, g.order[i]) && HasCode(rows, g.order[j]) ==>
          FirstIndex(rows, g.order[i]) < FirstIndex(rows, g.order[j]))
  }

  /** The entry of a code seen: its first row's fields, its schedules, its
      group codes once each. */
  ghost predicate EntryFolded(rows: seq<JoinRow>, c: string, a: Gathered)
    requires HasCode(rows, c)
  {
    var first := rows[FirstIndex(rows, c)];
    && a.description == first.name && a.semester == first.semester
    && a.multiClass == first.multiClass && a.greve == first.onStrike
    && a.classes == ClassesFor(rows, c)
    && Distinct(a.classList) && (forall x :: x in a.classList <==> x in GroupSet(rows, c))
  }

  ghost predicate Folded(rows: seq<JoinRow>, g: Grouping) {
    && KeysFolded(rows, g)
    && forall c :: c in g.subjects && HasCode(rows, c) ==> EntryFolded(rows, c, g.subjects[c])
  }

  lemma HasCodeAppend(rows: seq<JoinRow>, r: JoinRow, c: string)
    ensures HasCode(rows + [r], c) <==> HasCode(rows, c) || c == r.code
  {
    if HasCode(rows, c) {
      var k :| 0 <= k < |rows| && rows[k].code == c;
      assert (rows + [r])[k] == rows[k];
    }
    if c == r.code {
      assert (rows + [r])[|rows|] == r;
    }
  }

  lemma FirstIndexAppend(rows: seq<JoinRow>, r: JoinRow, c: string)
    requires HasCode(rows, c) || c == r.code
    ensures HasCode(rows + [r], c)
    ensures FirstIndex(rows + [r], c) == if HasCode(rows, c) then FirstIndex(rows, c) else |rows|
  {
    HasCodeAppend(rows, r, c);
    var rows' := rows + [r];
    forall j | 0 <= j < |rows| ensures rows'[j] == rows[j] {
    }
    if HasCode(rows, c) {
      var k := FirstIndex(rows, c);
      assert rows'[k].code == c;
    } else {
      assert rows'[|rows|] == r;
    }
  }

  lemma {:induction false} ClassesForAppend(rows: seq<JoinRow>, r: JoinRow, code: string)
    ensures ClassesFor(rows + [r], code)
         == ClassesFor(rows, code) + (if r.code == code && Listed(r) then [ScheduleOf(r)] else [])
  {
    if rows == [] {
      assert ClassesFor([r], code) == (if r.code == code && Listed(r) then [ScheduleOf(r)] else []) + ClassesFor([], code);
    } else {
      assert (rows + [r])[1..] == rows[1..] + [r];
      ClassesForAppend(rows[1..], r, code);
    }
  }

  lemma {:induction false} ClassesForNone(rows: seq<JoinRow>, code: string)
    requires !HasCode(rows, code)
    ensures ClassesFor(rows, code) == []
  {
    if rows != [] {
      forall k | 0 <= k < |rows[1..]| ensures rows[1..][k].code != code {
        assert rows[1..][k] == rows[k + 1];
      }
      ClassesForNone(rows[1..], code);
    }
  }

  /** Folding one more row keeps the keys in first-seen order. */
  lemma StepKeys(rows: seq<JoinRow>, r: JoinRow, g: Grouping)
    requires KeysFolded(rows, g)
    ensures KeysFolded(rows + [r], Step(g, r))
  {
    var g' := Step(g, r);
    forall c ensures c in g'.subjects <==> HasCode(rows + [r], c) {
      HasCodeAppend(rows, r, c);
    }
    StepOrder(rows, r, g);
  }

  /** The codes seen before keep their first rows; a new code's first row is
      the one just folded, after all of them. */
  lemma StepOrder(rows: seq<JoinRow>, r: JoinRow, g: Grouping)
    requires KeysFolded(rows, g)
    ensures var o := Step(g, r).order;
      forall i, j :: 0 <= i < j < |o| && HasCode(rows + [r], o[i]) && HasCode(rows + [r], o[j]) ==>
        FirstIndex(rows + [r], o[i]) < FirstIndex(rows + [r], o[j])
  {
    var rows' := rows + [r];
    var o := Step(g, r).order;
    assert o == if r.code in g.subjects then g.order else g.order + [r.code];
    forall i, j | 0 <= i < j < |o| && HasCode(rows', o[i]) && HasCode(rows', o[j])
      ensures FirstIndex(rows', o[i]) < FirstIndex(rows', o[j])
    {
      assert o[i] == g.order[i] && o[i] in g.subjects && HasCode(rows, o[i]);
      FirstIndexAppend(rows, r, o[i]);
      if j < |g.order| {
        assert o[j] == g.order[j] && o[j] in g.subjects && HasCode(rows, o[j]);
        FirstIndexAppend(rows, r, o[j]);
      } else {
        assert o[j] == r.code && r.code !in g.subjects && !HasCode(rows, r.code);
        FirstIndexAppend(rows, r, r.code);
      }
    }
  }

  lemma GroupSetAppend(rows: seq<JoinRow>, r: JoinRow, c: string)
    ensures GroupSet(rows + [r], c)
         == GroupSet(rows, c) + (if r.code == c && Truthy(r.groupCode) then {r.groupCode.value} else {})
  {
    var extra := if r.code == c && Truthy(r.groupCode) then {r.groupCode.value} else {};
    forall x | x in GroupSet(rows + [r], c) ensures x in GroupSet(rows, c) + extra {
      var q :| q in rows + [r] && q.code == c && Truthy(q.groupCode) && q.groupCode.value == x;
      if q != r {
        assert q in rows;
      }
    }
    forall x | x in GroupSet(rows, c) ensures x in GroupSet(rows + [r], c) {
      var q :| q in rows && q.code == c && Truthy(q.groupCode) && q.groupCode.value == x;
      assert q in rows + [r];
    }
    if r.code == c && Truthy(r.groupCode) {
      assert r in rows + [r];
    }
  }

  /** The entry `Step` leaves for the row's own code: the scalar fields of
      the entry it started from, one more schedule when the row is listed,
      and the row's group code added to the list. */
  lemma StepAt(g: Grouping, r: JoinRow)
    ensures var a0 := if r.code in g.subjects then g.subjects[r.code]
                      else Gathered(r.name, r.semester, r.multiClass, r.onStrike, [], []);
      var a := Step(g, r).subjects[r.code];
      && a.description == a0.description && a.semester == a0.semester
      && a.multiClass == a0.multiClass && a.greve == a0.greve
      && a.classes == a0.classes + (if Listed(r) then [ScheduleOf(r)] else [])
      && (Distinct(a0.classList) ==> Distinct(a.classList))
      && (forall x :: x in a.classList <==> x in a0.classList || (Truthy(r.groupCode) && x == r.groupCode.value))
  {
  }

  /** Folding one more row keeps every entry's description. */
  lemma StepEntry(rows: seq<JoinRow>, r: JoinRow, g: Grouping, c: string)
    requires Folded(rows, g)
    requires c in Step(g, r).subjects
    ensures HasCode(rows + [r], c)
    ensures EntryFolded(rows + [r], c, Step(g, r).subjects[c])
  {
    FirstIndexAppend(rows, r, c);
    ClassesForAppend(rows, r, c);
    GroupSetAppend(rows, r, c);
    if c != r.code {
      assert Step(g, r).subjects[c] == g.subjects[c];
    } else {
      StepAt(g, r);
      if c !in g.subjects {
        ClassesForNone(rows, c);
        assert GroupSet(rows, c) == {};
      }
    }
  }

  lemma StepFolds(rows: seq<JoinRow>, r: JoinRow, g: Grouping)
    requires Folded(rows, g)
    ensures Folded(rows + [r], Step(g, r))
  {
    StepKeys(rows, r, g);
    forall c | c in Step(g, r).subjects && HasCode(rows + [r], c)
      ensures EntryFolded(rows + [r], c, Step(g, r).subjects[c])
    {
      StepEntry(rows, r, g, c);
    }
  }

  lemma {:induction false} FoldFolds(rows: seq<JoinRow>)
    ensures Folded(rows, Fold(rows))
    decreases |rows|
  {
    if rows != [] {
      var p := rows[..|rows| - 1];
      var r := rows[|rows| - 1];
      assert rows == p + [r];
      assert Fold(rows) == Step(Fold(p), r);
      FoldFolds(p);
      StepFolds(p, r, Fold(p));
    }
  }

  /** transformToFrontendFormat, stated on the rows: one subject per
      distinct code, in first-seen order, each as `Describes` says. */
  lemma TransformDescribes(rows: seq<JoinRow>)
    ensures forall c :: HasCode(rows, c) <==> exists i :: 0 <= i < |Transform(rows)| && Transform(rows)[i].name == Some(c)
    ensures forall i :: 0 <= i < |Transform(rows)| ==>
              && Transform(rows)[i].name.Some? && HasCode(rows, Transform(rows)[i].name.value)
              && Describes(rows, Transform(rows)[i].name.value, Transform(rows)[i])
    ensures forall i, j :: 0 <= i < j < |Transform(rows)| ==>
              && Transform(rows)[i].name.Some? && HasCode(rows, Transform(rows)[i].name.value)
              && Transform(rows)[j].name.Some? && HasCode(rows, Transform(rows)[j].name.value)
              && FirstIndex(rows, Transform(rows)[i].name.value) < FirstIndex(rows, Transform(rows)[j].name.value)
  {
    var g := Fold(rows);
    FoldFolds(rows);
    var out := Transform(rows);
    forall c | HasCode(rows, c) ensures exists i :: 0 <= i < |out| && out[i].name == Some(c) {
      var i :| 0 <= i < |g.order| && g.order[i] == c;
      assert out[i].name == Some(c);
    }
    forall i | 0 <= i < |out|
      ensures out[i].name.Some? && HasCode(rows, out[i].name.value) && Describes(rows, out[i].name.value, out[i])
    {
      var c := g.order[i];
      var a := g.subjects[c];
      assert out[i] == Emit(c, a);
      if a.multiClass && |a.classList| > 0 {
        SortSorts(a.classList);
        assert a.classList[0] in GroupSet(rows, c);
      } else if a.multiClass {
        forall x ensures x !in GroupSet(rows, c) {
          assert x in GroupSet(rows, c) <==> x in a.classList;
        }
      }
    }
  }

  /** transformSingleSubject: nothing for no rows, otherwise the first
      output object. */
  function TransformSingleSubject(rows: seq<JoinRow>): (r: Option<NestedSubject>)
    ensures r.None? <==> rows == []
    ensures r.Some? ==> HasCode(rows, rows[0].code) && Describes(rows, rows[0].code, r.value)
  {
    if rows == [] then None
    else
      var out := Transform(rows);
      TransformDescribes(rows);
      assert HasCode(rows, rows[0].code);
      var k :| 0 <= k < |out| && out[k].name == Some(rows[0].code);
      assert FirstIndex(rows, rows[0].code) == 0;
      assert forall j :: 0 < j < |out| ==> out[j].name != Some(rows[0].code) by {
        forall j | 0 < j < |out| ensures out[j].name != Some(rows[0].code) {
          assert FirstIndex(rows, out[0].name.value) < FirstIndex(rows, out[j].name.value);
        }
      }
      if |out| > 0 then Some(out[0]) else None
  }
}
