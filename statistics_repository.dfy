/**
 * Usage counters (repositories/statistics_repository.go): an in-memory
 * map of action counts and the statistics table they are flushed into.
 */
module StatisticsRepository {

  /** The count of an action; an action never seen counts 0. */
  function Count(m: map<string, int>, action: string): int {
    if action in m then m[action] else 0
  }

  /** The counters with one more `action`. */
  function Bumped(m: map<string, int>, action: string): map<string, int> {
    m[action := Count(m, action) + 1]
  }

  /**
   * The table after `INSERT .. ON CONFLICT(action) DO UPDATE SET count =
   * count + $2` for the actions in `done`: a new action is inserted with
   * its in-memory count, an existing one gets it added.
   */
  function MergedOn(table: map<string, int>, stats: map<string, int>, done: set<string>): map<string, int> {
    map a | a in table.Keys + (done * stats.Keys) :: Count(table, a) + (if a in done then Count(stats, a) else 0)
  }

  /** The table after every in-memory count has been added into it. */
  function Merged(table: map<string, int>, stats: map<string, int>): map<string, int> {
    MergedOn(table, stats, stats.Keys)
  }

  class StatisticsRepository {
    var stats: map<string, int>
    var table: map<string, int>

    /** Empty counters over an existing table. */
    constructor (table: map<string, int>)
      ensures stats == map[] && this.table == table
    {
      stats := map[];
      this.table := table;
    }

    /** `AddOne`: the action's counter goes up by exactly one (from 0 when new); nothing else changes. */
    method AddOne(action: string)
      modifies this
      ensures stats == Bumped(old(stats), action)
      ensures table == old(table)
    {
      stats := stats[action := Count(stats, action) + 1];
    }

    /**
     * `Upsert`: adds every in-memory count into the table in one
     * transaction, visiting the actions in any order. A failing begin,
     * insert (for an action in `execFails`) or commit rolls everything
     * back. The in-memory counts are never cleared.
     */
    method Upsert(beginFails: bool, execFails: set<string>, commitFails: bool) returns (err: bool)
      modifies this
      ensures stats == old(stats)
      ensures err <==> beginFails || commitFails || stats.Keys * execFails != {}
      ensures err ==> table == old(table)
      ensures !err ==> table == Merged(old(table), old(stats))
    {
      if beginFails {
        return true;
      }
      var tx := table;
      var rest := stats.Keys;
      while rest != {}
        invariant stats == old(stats) && table == old(table)
        invariant rest <= stats.Keys
        invariant (stats.Keys - rest) * execFails == {}
        invariant tx == MergedOn(table, stats, stats.Keys - rest)
        decreases rest
      {
        var action :| action in rest;
        if action in execFails {
          assert action in stats.Keys * execFails;
          return true;
        }
        MergedOnStep(table, stats, stats.Keys - rest, action);
        tx := tx[action := Count(tx, action) + stats[action]];
        rest := rest - {action};
        assert stats.Keys - rest == (stats.Keys - (rest + {action})) + {action};
      }
      assert stats.Keys - rest == stats.Keys;
      if commitFails {
        return true;
      }
      table := tx;
      return false;
    }

    /**
     * The flush as evidently intended: the same transaction, and the
     * counters start again from nothing once it has committed.
     */
    method UpsertAndReset(beginFails: bool, execFails: set<string>, commitFails: bool) returns (err: bool)
      modifies this
      ensures err <==> beginFails || commitFails || old(stats).Keys * execFails != {}
      ensures err ==> table == old(table) && stats == old(stats)
      ensures !err ==> table == Merged(old(table), old(stats)) && stats == map[]
    {
      err := Upsert(beginFails, execFails, commitFails);
      if !err {
        stats := map[];
      }
    }
  }

  /** Adding one more action's count updates that action's row only. */
  lemma MergedOnStep(table: map<string, int>, stats: map<string, int>, done: set<string>, action: string)
    requires action in stats && action !in done
    ensures MergedOn(table, stats, done + {action})
         == MergedOn(table, stats, done)[action := Count(MergedOn(table, stats, done), action) + stats[action]]
  {
    var l := MergedOn(table, stats, done + {action});
    var r := MergedOn(table, stats, done)[action := Count(MergedOn(table, stats, done), action) + stats[action]];
    assert l.Keys == r.Keys;
    forall a | a in l
      ensures l[a] == r[a]
    {
    }
  }

  /**
   * Flushing adds: every action's row becomes its old count plus its
   * in-memory count, and the table gains exactly the new actions.
   */
  lemma MergedCounts(table: map<string, int>, stats: map<string, int>, action: string)
    ensures Count(Merged(table, stats), action) == Count(table, action) + Count(stats, action)
    ensures action in Merged(table, stats) <==> action in table || action in stats
  {
  }

  /** Since the counters are not cleared, a second flush adds the same totals again. */
  lemma FlushTwice(table: map<string, int>, stats: map<string, int>, action: string)
    ensures Count(Merged(Merged(table, stats), stats), action) == Count(table, action) + 2 * Count(stats, action)
  {
    MergedCounts(table, stats, action);
    MergedCounts(Merged(table, stats), stats, action);
  }

  /**
   * With the counters reset after each flush, the counts of two periods
   * each reach the table once.
   */
  lemma EachPeriodFlushedOnce(table: map<string, int>, first: map<string, int>, second: map<string, int>, action: string)
    ensures Count(Merged(Merged(table, first), second), action)
         == Count(table, action) + Count(first, action) + Count(second, action)
  {
    MergedCounts(table, first, action);
    MergedCounts(Merged(table, first), second, action);
  }

  /** With no in-memory counts a flush leaves the table as it was. */
  lemma FlushNothing(table: map<string, int>)
    ensures Merged(table, map[]) == table
  {
    var m := Merged(table, map[]);
    assert m.Keys == table.Keys;
  }

  /** One more action counts one more for it, from 0 when new, and the same for every other action. */
  lemma BumpedCounts(m: map<string, int>, action: string, other: string)
    ensures Count(Bumped(m, action), action) == Count(m, action) + 1
    ensures action !in m ==> Count(Bumped(m, action), action) == 1
    ensures other != action ==> Count(Bumped(m, action), other) == Count(m, other)
  {
  }
}
