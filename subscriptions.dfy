/**
 * The subscriptions table (repositories/subscription_repository_sqlite.go),
 * keyed by (telegram_id, course, section). The table is a map from the
 * primary key to the remaining columns; a failing SQL statement is given
 * to each operation as a fault, since the database is not modelled.
 */
module Subscriptions {
  import opened Wrappers

  /** The primary key of a row. */
  datatype SubKey = SubKey(telegramID: int, course: string, section: string)

  /** The other columns: added_at, updated_at (NULL until updated) and is_full. */
  datatype SubRow = SubRow(addedAt: int, updatedAt: Option<int>, isFull: bool)

  /** `models.CourseSubscription`: the columns the queries select. */
  datatype CourseSubscription = CourseSubscription(telegramID: int, course: string, section: string, isFull: bool)

  type Table = map<SubKey, SubRow>

  function KeyOf(sub: CourseSubscription): SubKey {
    SubKey(sub.telegramID, sub.course, sub.section)
  }

  function Selected(k: SubKey, row: SubRow): CourseSubscription {
    CourseSubscription(k.telegramID, k.course, k.section, row.isFull)
  }

  /** The table without the user's rows for the course; every other row is kept as it was. */
  function Unsubscribed(t: Table, userID: int, course: string): (r: Table)
    ensures forall k :: k in r <==> k in t && !(k.telegramID == userID && k.course == course)
    ensures forall k :: k in r ==> r[k] == t[k]
  {
    map k | k in t && !(k.telegramID == userID && k.course == course) :: t[k]
  }

  /** Which statement of `Subscribe`'s transaction fails, if any. */
  datatype Fault = NoFault | BeginFails | InsertFails(index: nat) | CommitFails

  /** Whether the fault aborts a transaction of `count` inserts. */
  predicate Aborts(fault: Fault, count: nat) {
    fault.BeginFails? || fault.CommitFails? || (fault.InsertFails? && fault.index < count)
  }

  /**
   * The table after `INSERT OR REPLACE` of each section in turn: the row of
   * each key is written afresh with is_full FALSE, updated_at NULL and
   * added_at `now`.
   */
  function Subscribed(t: Table, telegramID: int, course: string, sections: seq<string>, now: int): Table {
    if sections == [] then t
    else Subscribed(t, telegramID, course, sections[..|sections| - 1], now)[
      SubKey(telegramID, course, sections[|sections| - 1]) := SubRow(now, None, false)]
  }

  /**
   * After subscribing, the user has exactly one row per given section of
   * the course, each fresh (not full, never updated, added now); every
   * other row is untouched and no other row appears.
   */
  lemma {:induction false} SubscribedRows(t: Table, telegramID: int, course: string, sections: seq<string>, now: int)
    ensures var t' := Subscribed(t, telegramID, course, sections, now);
      && (forall k :: k in t' <==> k in t || (k.telegramID == telegramID && k.course == course && k.section in sections))
      && (forall s :: s in sections ==> t'[SubKey(telegramID, course, s)] == SubRow(now, None, false))
      && (forall k :: k in t && !(k.telegramID == telegramID && k.course == course && k.section in sections) ==> t'[k] == t[k])
  {
    if sections != [] {
      var n := |sections| - 1;
      SubscribedRows(t, telegramID, course, sections[..n], now);
      assert forall s :: s in sections <==> s in sections[..n] || s == sections[n] by {
        assert sections == sections[..n] + [sections[n]];
      }
    }
  }

  /**
   * Subscribing twice to the same sections leaves the same rows as
   * subscribing once (one row per key); the second call only refreshes
   * added_at.
   */
  lemma SubscribeTwice(t: Table, telegramID: int, course: string, sections: seq<string>, now1: int, now2: int)
    ensures Subscribed(Subscribed(t, telegramID, course, sections, now1), telegramID, course, sections, now2).Keys
         == Subscribed(t, telegramID, course, sections, now1).Keys
    ensures Subscribed(Subscribed(t, telegramID, course, sections, now1), telegramID, course, sections, now2)
         == Subscribed(t, telegramID, course, sections, now2)
  {
    var once := Subscribed(t, telegramID, course, sections, now1);
    SubscribedRows(t, telegramID, course, sections, now1);
    SubscribedRows(once, telegramID, course, sections, now2);
    SubscribedRows(t, telegramID, course, sections, now2);
  }

  /** The subscription is read from its own row of the table. */
  predicate RowOf(t: Table, sub: CourseSubscription) {
    KeyOf(sub) in t && t[KeyOf(sub)].isFull == sub.isFull
  }

  /** Newest added_at first (ties in any order). */
  predicate NewestFirst(t: Table, subs: seq<CourseSubscription>) {
    forall i, j :: 0 <= i < j < |subs| ==>
      KeyOf(subs[i]) in t && KeyOf(subs[j]) in t && t[KeyOf(subs[i])].addedAt >= t[KeyOf(subs[j])].addedAt
  }

  predicate DistinctKeys(subs: seq<CourseSubscription>) {
    forall i, j :: 0 <= i < j < |subs| ==> KeyOf(subs[i]) != KeyOf(subs[j])
  }

  /** A row of `rest` added no earlier than any other of `rest`. */
  lemma {:induction false} LatestExists(rest: set<SubKey>, t: Table)
    requires rest != {} && rest <= t.Keys
    ensures exists k :: k in rest && forall k' :: k' in rest ==> t[k'].addedAt <= t[k].addedAt
    decreases rest
  {
    var x :| x in rest;
    if rest != {x} {
      LatestExists(rest - {x}, t);
      var m :| m in rest - {x} && forall k' :: k' in rest - {x} ==> t[k'].addedAt <= t[m].addedAt;
      if t[x].addedAt > t[m].addedAt {
        assert forall k' :: k' in rest ==> t[k'].addedAt <= t[x].addedAt;
      } else {
        assert forall k' :: k' in rest ==> t[k'].addedAt <= t[m].addedAt;
      }
    } else {
      assert forall k' :: k' in rest ==> k' == x;
    }
  }

  /** Appending the latest remaining row keeps the list duplicate-free and newest first. */
  lemma AppendLatest(t: Table, subs: seq<CourseSubscription>, k: SubKey, rest: set<SubKey>)
    requires k in rest && rest <= t.Keys
    requires forall i :: 0 <= i < |subs| ==> KeyOf(subs[i]) in t && KeyOf(subs[i]) !in rest
    requires DistinctKeys(subs) && NewestFirst(t, subs)
    requires forall i, k' :: 0 <= i < |subs| && k' in rest ==> t[KeyOf(subs[i])].addedAt >= t[k'].addedAt
    requires forall k' :: k' in rest ==> t[k'].addedAt <= t[k].addedAt
    ensures var subs' := subs + [Selected(k, t[k])];
      && DistinctKeys(subs') && NewestFirst(t, subs')
      && forall i, k' :: 0 <= i < |subs'| && k' in rest - {k} ==> t[KeyOf(subs'[i])].addedAt >= t[k'].addedAt
  {
    var subs' := subs + [Selected(k, t[k])];
    assert KeyOf(subs'[|subs|]) == k;
    forall i, j | 0 <= i < j < |subs'|
      ensures KeyOf(subs'[i]) != KeyOf(subs'[j])
      ensures KeyOf(subs'[i]) in t && KeyOf(subs'[j]) in t && t[KeyOf(subs'[i])].addedAt >= t[KeyOf(subs'[j])].addedAt
    {
      assert subs'[i] == subs[i];
      if j < |subs| {
        assert subs'[j] == subs[j];
      }
    }
    forall i, k' | 0 <= i < |subs'| && k' in rest - {k}
      ensures t[KeyOf(subs'[i])].addedAt >= t[k'].addedAt
    {
      if i < |subs| {
        assert subs'[i] == subs[i];
      }
    }
  }

  class SubscriptionRepository {
    var table: Table

    /** An empty table (the database's `CREATE TABLE IF NOT EXISTS`). */
    constructor ()
      ensures table == map[]
    {
      table := map[];
    }

    /**
     * `Subscribe`: inserts one row per section in a transaction; any
     * failing statement rolls the whole transaction back, so either all
     * sections are written or none.
     */
    method Subscribe(telegramID: int, course: string, sections: seq<string>, now: int, fault: Fault)
      returns (err: bool)
      modifies this
      ensures err == Aborts(fault, |sections|)
      ensures err ==> table == old(table)
      ensures !err ==> table == Subscribed(old(table), telegramID, course, sections, now)
    {
      if fault.BeginFails? {
        return true;
      }
      var tx := table;
      for i := 0 to |sections|
        invariant tx == Subscribed(table, telegramID, course, sections[..i], now)
        invariant !(fault.InsertFails? && fault.index < i)
      {
        assert sections[..i + 1][..i] == sections[..i];
        if fault == InsertFails(i) {
          return true;
        }
        tx := tx[SubKey(telegramID, course, sections[i]) := SubRow(now, None, false)];
      }
      assert sections[..|sections|] == sections;
      if fault.CommitFails? {
        return true;
      }
      table := tx;
      return false;
    }

    /** `UnSubscribe`: deletes every row of the user for the course and nothing else. */
    method UnSubscribe(userID: int, course: string, fail: bool) returns (err: bool)
      modifies this
      ensures err == fail
      ensures table == if fail then old(table) else Unsubscribed(old(table), userID, course)
    {
      if fail {
        return true;
      }
      table := map k | k in table && !(k.telegramID == userID && k.course == course) :: table[k];
      return false;
    }

    /** `ClearSubscriptions`: deletes every row of the user. */
    method ClearSubscriptions(userID: int, fail: bool) returns (err: bool)
      modifies this
      ensures err == fail
      ensures fail ==> table == old(table)
      ensures !fail ==> forall k :: k in table <==> k in old(table) && k.telegramID != userID
      ensures !fail ==> forall k :: k in table ==> table[k] == old(table)[k]
    {
      if fail {
        return true;
      }
      table := map k | k in table && k.telegramID != userID :: table[k];
      return false;
    }

    /**
     * `Update`: sets is_full and updated_at of the row with exactly the
     * subscription's key; a missing row is not inserted.
     */
    method Update(sub: CourseSubscription, now: int, fail: bool) returns (err: bool)
      modifies this
      ensures err == fail
      ensures fail || KeyOf(sub) !in old(table) ==> table == old(table)
      ensures !fail && KeyOf(sub) in old(table) ==>
        table == old(table)[KeyOf(sub) := old(table)[KeyOf(sub)].(updatedAt := Some(now), isFull := sub.isFull)]
    {
      if fail {
        return true;
      }
      var k := KeyOf(sub);
      if k in table {
        table := table[k := table[k].(updatedAt := Some(now), isFull := sub.isFull)];
      }
      return false;
    }

    /**
     * `GetAll`: every row once, in the order the database returns them;
     * nothing on a failing query.
     */
    method GetAll(fail: bool) returns (subs: seq<CourseSubscription>, err: bool)
      ensures err == fail
      ensures fail ==> subs == []
      ensures forall i :: 0 <= i < |subs| ==> RowOf(table, subs[i])
      ensures !fail ==> forall k :: k in table ==> Selected(k, table[k]) in subs
      ensures DistinctKeys(subs)
    {
      subs := [];
      if fail {
        return subs, true;
      }
      var rest := table.Keys;
      while rest != {}
        invariant rest <= table.Keys
        invariant forall i :: 0 <= i < |subs| ==> RowOf(table, subs[i]) && KeyOf(subs[i]) !in rest
        invariant forall k :: k in table && k !in rest ==> Selected(k, table[k]) in subs
        invariant DistinctKeys(subs)
        decreases rest
      {
        var k :| k in rest;
        subs := subs + [Selected(k, table[k])];
        rest := rest - {k};
      }
      return subs, false;
    }

    /**
     * `GetSubscriptions`: exactly the user's rows, each once, newest
     * added_at first; nothing on a failing query.
     */
    method GetSubscriptions(userID: int, fail: bool) returns (subs: seq<CourseSubscription>, err: bool)
      ensures err == fail
      ensures fail ==> subs == []
      ensures forall i :: 0 <= i < |subs| ==> RowOf(table, subs[i]) && subs[i].telegramID == userID
      ensures !fail ==> forall k :: k in table && k.telegramID == userID ==> Selected(k, table[k]) in subs
      ensures DistinctKeys(subs)
      ensures NewestFirst(table, subs)
    {
      subs := [];
      if fail {
        return subs, true;
      }
      var rest := set k | k in table && k.telegramID == userID;
      while rest != {}
        invariant rest <= table.Keys
        invariant forall k :: k in rest ==> k.telegramID == userID
        invariant forall i :: 0 <= i < |subs| ==> RowOf(table, subs[i]) && KeyOf(subs[i]) !in rest && subs[i].telegramID == userID
        invariant forall k :: k in table && k.telegramID == userID && k !in rest ==> Selected(k, table[k]) in subs
        invariant DistinctKeys(subs)
        invariant NewestFirst(table, subs)
        invariant forall i, k :: 0 <= i < |subs| && k in rest ==> table[KeyOf(subs[i])].addedAt >= table[k].addedAt
        decreases rest
      {
        LatestExists(rest, table);
        var k :| k in rest && forall k' :: k' in rest ==> table[k'].addedAt <= table[k].addedAt;
        AppendLatest(table, subs, k, rest);
        subs := subs + [Selected(k, table[k])];
        rest := rest - {k};
      }
      return subs, false;
    }
  }
}
