/** The teacher/classroom name resolver shared by createClasses, update and
    populate: a name is looked up in a cache scoped to one operation, then by
    exact name in the table, and inserted only when the table has no row with
    that name. */
module Resolver {
  import opened Common
  import opened Tables

  datatype Resolution = Resolution(db: Db, cache: map<string, nat>, id: nat, inserted: bool)

  function Resolve(db: Db, k: Kind, cache: map<string, nat>, name: Option<string>): (r: Result<Resolution, Violation>)
    ensures r.Ok? ==> name.Some? && r.value.cache == cache[name.value := r.value.id]
    ensures r.Err? ==> name.None? || (name.value !in cache && |name.value| > NameLength)
  {
    if name.Some? && name.value in cache then Ok(Resolution(db, cache, cache[name.value], false))
    else
      match FindNamed(Named(db, k), name)
      case Some(id) => Ok(Resolution(db, cache[name.value := id], id, false))
      case None =>
        match InsertNamed(db, k, name)
        case Err(v) => Err(v)
        case Ok(res) => Ok(Resolution(res.0, cache[name.value := res.1], res.1, true))
  }

  /** Every cached name stands for a row of the table with that name and id. */
  ghost predicate CacheSound(db: Db, k: Kind, cache: map<string, nat>) {
    forall n :: n in cache ==> NamedRow(cache[n], n) in Named(db, k)
  }

  /** `after` is `before` followed by rows whose names appear nowhere earlier
      in the table: no name was inserted while a row with it existed, and
      none was inserted twice. */
  ghost predicate AddedFresh(before: seq<NamedRow>, after: seq<NamedRow>) {
    && |before| <= |after| && after[..|before|] == before
    && forall i, j :: 0 <= j < i && |before| <= i < |after| ==> after[j].name != after[i].name
  }

  /** `db2` differs from `db1` at most in table `k` and its sequence. */
  ghost predicate OnlyNamedChanged(db1: Db, db2: Db, k: Kind) {
    match k
    case Teachers => db2 == db1.(teachers := db2.teachers, serials := db1.serials.(teacher := db2.serials.teacher))
    case Classrooms => db2 == db1.(classrooms := db2.classrooms, serials := db1.serials.(classroom := db2.serials.classroom))
  }

  lemma AddedFreshRefl(rows: seq<NamedRow>)
    ensures AddedFresh(rows, rows)
  {
    assert rows[..|rows|] == rows;
  }

  lemma AddedFreshTrans(a: seq<NamedRow>, b: seq<NamedRow>, c: seq<NamedRow>)
    requires AddedFresh(a, b) && AddedFresh(b, c)
    ensures AddedFresh(a, c)
  {
    assert c[..|b|] == b;
    forall i, j | 0 <= j < i && |a| <= i < |c| ensures c[j].name != c[i].name {
      if i < |b| {
        assert c[i] == b[i] && c[j] == b[j];
      }
    }
    assert c[..|a|] == b[..|a|];
  }

  /** What one resolution does: the id returned belongs to a row with that
      exact name, the cache stays sound, the table only gains a row whose name
      it did not have, exactly when `inserted` says so, and nothing else
      changes. */
  lemma ResolveSpec(db: Db, k: Kind, cache: map<string, nat>, name: Option<string>)
    requires CacheSound(db, k, cache)
    requires Resolve(db, k, cache, name).Ok?
    ensures var res := Resolve(db, k, cache, name).value;
      && NamedRow(res.id, name.value) in Named(res.db, k)
      && CacheSound(res.db, k, res.cache)
      && AddedFresh(Named(db, k), Named(res.db, k))
      && OnlyNamedChanged(db, res.db, k)
      && |Named(res.db, k)| == |Named(db, k)| + (if res.inserted then 1 else 0)
      && (Valid(db) ==> Valid(res.db))
  {
    var res := Resolve(db, k, cache, name).value;
    if name.value in cache {
      AddedFreshRefl(Named(db, k));
    } else if FindNamed(Named(db, k), name).Some? {
      AddedFreshRefl(Named(db, k));
    } else {
      var rows := Named(db, k);
      var after := Named(res.db, k);
      assert after == rows + [NamedRow(res.id, name.value)];
      assert after[..|rows|] == rows;
      forall i, j | 0 <= j < i && |rows| <= i < |after| ensures after[j].name != after[i].name {
        assert after[j] in rows;
      }
      forall n | n in res.cache ensures NamedRow(res.cache[n], n) in after {
        if n != name.value {
          assert NamedRow(cache[n], n) in rows;
        }
      }
    }
  }

  /** A resolution fails exactly when the name is absent, or is new to the
      cache and to the table and too wide for the name column; the failed
      insert returns no store, so nothing is written. */
  lemma ResolveFailsCleanly(db: Db, k: Kind, cache: map<string, nat>, name: Option<string>)
    ensures Resolve(db, k, cache, name).Err? <==>
      name.None? || (name.value !in cache && FindNamed(Named(db, k), name).None? && |name.value| > NameLength)
  {
  }

  function CountName(rows: seq<NamedRow>, n: string): nat {
    |Filter(rows, (r: NamedRow) => r.name == n)|
  }

  /** The count form of AddedFresh: a name that had rows keeps exactly its
      rows, and a name that had none has at most one. */
  lemma {:induction false} AddedFreshCounts(before: seq<NamedRow>, after: seq<NamedRow>, n: string)
    requires AddedFresh(before, after)
    ensures CountName(before, n) > 0 ==> CountName(after, n) == CountName(before, n)
    ensures CountName(before, n) == 0 ==> CountName(after, n) <= 1
    decreases |after|
  {
    var keep := (r: NamedRow) => r.name == n;
    if |after| > |before| {
      var init := after[..|after| - 1];
      var last := after[|after| - 1];
      assert init[..|before|] == before;
      assert AddedFresh(before, init);
      AddedFreshCounts(before, init, n);
      assert after == init + [last];
      FilterAppend(init, [last], keep);
      if last.name == n {
        forall r | r in init ensures r.name != n {
          var j :| 0 <= j < |init| && init[j] == r;
          assert after[j].name != after[|after| - 1].name;
        }
        FilterKeepsNone(init, keep);
        assert forall r :: r in before ==> r in init;
        FilterKeepsNone(before, keep);
      }
    } else {
      assert after == before;
    }
  }
}
