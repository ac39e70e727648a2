/**
 * The EcoDev progress hook: the signed-in user's per-module progress records,
 * loaded from the `ecodev_progress` table into a map keyed by module id and
 * updated in memory after each successful upsert.
 */
module EcoDevProgress {
  import opened Wrappers

  /** One module's progress as the hook keeps it. */
  datatype ModuleProgress = ModuleProgress(
    moduleId: int,
    completedLessons: seq<int>,
    quizScores: map<string, int>,
    completed: bool)

  /** A row of `ecodev_progress` as the query returns it; the two JSON columns may be null. */
  datatype ProgressRow = ProgressRow(
    moduleId: int,
    completedLessons: Option<seq<int>>,
    quizScores: Option<map<string, int>>,
    completed: bool)

  type ProgressMap = map<int, ModuleProgress>

  /** Every record is filed under its own module id, so there is at most one record per module. */
  predicate KeyedById(p: ProgressMap) {
    forall k :: k in p ==> p[k].moduleId == k
  }

  /** The record built from one row: a null lesson list reads as empty, null scores as no scores. */
  function FromRow(row: ProgressRow): (r: ModuleProgress)
    ensures r.moduleId == row.moduleId && r.completed == row.completed
    ensures r.completedLessons == (if row.completedLessons.Some? then row.completedLessons.value else [])
    ensures r.quizScores == (if row.quizScores.Some? then row.quizScores.value else map[])
  {
    ModuleProgress(row.moduleId, row.completedLessons.GetOr([]), row.quizScores.GetOr(map[]), row.completed)
  }

  /**
   * The map the loader builds: one `set` per row, in order. Whatever the rows,
   * every record is filed under its own module id.
   */
  function FromRows(rows: seq<ProgressRow>): (r: ProgressMap)
    ensures KeyedById(r)
  {
    if rows == [] then map[]
    else
      var last := rows[|rows| - 1];
      FromRows(rows[..|rows| - 1])[last.moduleId := FromRow(last)]
  }

  /** The map holds one entry per module id that occurs in the rows, and no other. */
  lemma {:induction false} FromRowsKeys(rows: seq<ProgressRow>, k: int)
    ensures k in FromRows(rows) <==> exists i :: 0 <= i < |rows| && rows[i].moduleId == k
  {
    if rows != [] {
      var init := rows[..|rows| - 1];
      FromRowsKeys(init, k);
      if exists i :: 0 <= i < |init| && init[i].moduleId == k {
        var i :| 0 <= i < |init| && init[i].moduleId == k;
        assert rows[i].moduleId == k;
      }
      if exists i :: 0 <= i < |rows| && rows[i].moduleId == k {
        var i :| 0 <= i < |rows| && rows[i].moduleId == k;
        if i < |init| {
          assert init[i].moduleId == k;
        }
      }
    }
  }

  /** A later row with the same module id overwrites an earlier one: the entry is built from the last such row. */
  lemma {:induction false} FromRowsLastWins(rows: seq<ProgressRow>, j: int)
    requires 0 <= j < |rows|
    requires forall i :: j < i < |rows| ==> rows[i].moduleId != rows[j].moduleId
    ensures rows[j].moduleId in FromRows(rows)
    ensures FromRows(rows)[rows[j].moduleId] == FromRow(rows[j])
  {
    if j < |rows| - 1 {
      var init := rows[..|rows| - 1];
      FromRowsLastWins(init, j);
    }
  }

  /** The in-memory update after a successful write: copy the map and set one key. */
  function Upsert(p: ProgressMap, rec: ModuleProgress): (r: ProgressMap)
    ensures r.Keys == p.Keys + {rec.moduleId}
    ensures r[rec.moduleId] == rec
    ensures forall k :: k in p && k != rec.moduleId ==> r[k] == p[k]
  {
    p[rec.moduleId := rec]
  }

  /** Saving the same record twice leaves the same map as saving it once. */
  lemma {:induction false} UpsertIdempotent(p: ProgressMap, rec: ModuleProgress)
    ensures Upsert(Upsert(p, rec), rec) == Upsert(p, rec)
  {
  }

  /** An upsert keeps the one-record-per-module invariant. */
  lemma {:induction false} UpsertKeyedById(p: ProgressMap, rec: ModuleProgress)
    requires KeyedById(p)
    ensures KeyedById(Upsert(p, rec))
  {
  }

  /**
   * The hook's state: the signed-in user the effect last ran for, the
   * progress map and the loading flag.
   */
  class ProgressStore {
    var user: Option<string>
    var progress: ProgressMap
    var loading: bool

    ghost predicate Valid()
      reads this
    {
      KeyedById(progress)
    }

    constructor (user: Option<string>)
      ensures Valid()
      ensures this.user == user && progress == map[] && loading
    {
      this.user := user;
      progress := map[];
      loading := true;
    }

    /**
     * The loading effect, run whenever the signed-in user changes to `current`.
     * Without a user it only clears the loading flag, so the map loaded for the
     * previous user stays in place. With one, `data` is what the query returned
     * (None when it returned null), and the map becomes one entry per row.
     */
    method Load(current: Option<string>, data: Option<seq<ProgressRow>>)
      requires Valid()
      modifies this
      ensures Valid() && !loading && user == current
      ensures current.None? ==> progress == old(progress)
      ensures current.Some? ==> progress == FromRows(data.GetOr([]))
    {
      user := current;
      if current.None? {
        loading := false;
        return;
      }
      loading := true;
      var rows := data.GetOr([]);
      var m: ProgressMap := map[];
      var i := 0;
      while i < |rows|
        invariant 0 <= i <= |rows|
        invariant m == FromRows(rows[..i])
      {
        var row := rows[i];
        m := m[row.moduleId := FromRow(row)];
        assert rows[..i + 1][..i] == rows[..i];
        i := i + 1;
      }
      assert rows[..|rows|] == rows;
      progress := m;
      loading := false;
    }

    /**
     * `saveProgress`: without a user nothing happens. Otherwise the record is
     * upserted on (user, module); `writeOk` is whether the store accepted it.
     * Only an accepted write changes the map, and then only at `moduleId`.
     */
    method SaveProgress(moduleId: int, completedLessons: seq<int>, quizScores: map<string, int>,
                        completed: bool, writeOk: bool)
      requires Valid()
      modifies this`progress
      ensures Valid()
      ensures progress == if user.Some? && writeOk
        then Upsert(old(progress), ModuleProgress(moduleId, completedLessons, quizScores, completed))
        else old(progress)
    {
      if user.None? {
        return;
      }
      if writeOk {
        var next := progress;
        next := next[moduleId := ModuleProgress(moduleId, completedLessons, quizScores, completed)];
        progress := next;
      }
    }
  }
}
