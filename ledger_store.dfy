/** The savings database as one object whose tables the write routes of
    main.py change in place: one sequence per table, one next-id counter per
    `AUTOINCREMENT` key, and the logical clock. Each method performs its route's
    SQL statements in the route's order and is proved to reach the state the
    matching function of LedgerSpec describes. */
module LedgerStore {

  import opened Wrappers
  import opened Schema
  import LedgerSpec

  class Ledger {
    var users: seq<User>
    var goals: seq<Goal>
    var sacrifices: seq<Sacrifice>
    var feedEvents: seq<FeedEvent>
    var nextUserId: nat
    var nextGoalId: nat
    var nextSacrificeId: nat
    var nextEventId: nat
    var clock: nat

    /** The tables as one value. */
    function Snapshot(): Db
      reads this
    {
      Db(users, goals, sacrifices, feedEvents, nextUserId, nextGoalId, nextSacrificeId, nextEventId, clock)
    }

    ghost predicate Valid()
      reads this
    {
      ValidDb(Snapshot())
    }

    /** `init_db` on a fresh file: four empty tables. */
    constructor ()
      ensures Valid() && Snapshot() == EmptyDb
    {
      users, goals, sacrifices, feedEvents := [], [], [], [];
      nextUserId, nextGoalId, nextSacrificeId, nextEventId := 1, 1, 1, 1;
      clock := 0;
      EmptyDbValid();
    }

    /** The database part of `google_callback`: the id of the user with this
        Google subject, inserting the user first when there is none. */
    method FindOrCreateUser(sub: string, email: Option<string>, name: Option<string>,
                            picture: Option<string>) returns (r: Result<nat, HttpError>)
      requires Valid()
      modifies this
      ensures Valid()
      ensures (Snapshot(), r) == LedgerSpec.FindOrCreateUser(old(Snapshot()), sub, email, name, picture)
    {
      var found := LedgerSpec.FindUserBySub(users, sub);
      if found.Some? {
        r := Ok(users[found.value].id);
      } else if email.None? || LedgerSpec.FindUserByEmail(users, email.value).Some? {
        // the INSERT violates NOT NULL or UNIQUE on `email`
        r := Err(InternalServerError);
      } else {
        var id := nextUserId;
        users := users + [User(id, email.value, name, picture, sub, 0.0, 0, None, clock)];
        nextUserId := nextUserId + 1;
        clock := clock + 1;
        r := Ok(id);
      }
    }

    /** `create_goal`: insert the goal, then its `goal_created` event. */
    method CreateGoal(userId: nat, title: string, targetAmount: real, category: Option<string>)
      returns (goalId: nat, goalTitle: string)
      requires Valid()
      modifies this
      ensures Valid()
      ensures (Snapshot(), goalId) == LedgerSpec.CreateGoal(old(Snapshot()), userId, title, targetAmount, category)
      ensures goalTitle == title
    {
      var now := clock;
      goalId := nextGoalId;
      var cat := if category.Some? then category.value else LedgerSpec.DefaultCategory;
      goals := goals + [Goal(goalId, userId, title, targetAmount, 0.0, cat, now)];
      nextGoalId := nextGoalId + 1;
      feedEvents := feedEvents + [FeedEvent(nextEventId, userId, GoalCreatedData(goalId, title), now)];
      nextEventId := nextEventId + 1;
      clock := now + 1;
      goalTitle := title;
    }

    /** `log_sacrifice`: find or create the sacrifice, credit the user, append
        the `sacrifice_logged` event, answer with the days count. */
    method LogSacrifice(userId: nat, title: string, amount: real) returns (days: int)
      requires Valid()
      modifies this
      ensures Valid()
      ensures (Snapshot(), days) == LedgerSpec.LogSacrifice(old(Snapshot()), userId, title, amount)
    {
      var now := clock;
      var sacrificeId;
      sacrificeId, days := UpsertSacrifice(userId, title, amount, now);
      users := LedgerSpec.CreditUser(users, userId, amount);
      feedEvents := feedEvents + [FeedEvent(nextEventId, userId, SacrificeLoggedData(sacrificeId, title, days), now)];
      nextEventId := nextEventId + 1;
      clock := now + 1;
    }

    /** The first statements of `log_sacrifice`: look the (user, title) pair up,
        then either set the row's `days_count` one higher and its
        `last_done_date` to `now`, or insert a row with `days_count` 1. */
    method UpsertSacrifice(userId: nat, title: string, amount: real, now: nat)
      returns (sacrificeId: nat, days: int)
      requires Valid()
      modifies this`sacrifices, this`nextSacrificeId
      ensures LedgerSpec.Upsert(old(Snapshot()), userId, title, amount, now)
        == LedgerSpec.Upserted(sacrifices, nextSacrificeId, sacrificeId, days)
    {
      var existing := LedgerSpec.FindSacrifice(sacrifices, userId, title);
      if existing.Some? {
        var row := sacrifices[existing.value];
        days := row.daysCount + 1;
        sacrifices := LedgerSpec.SetDaysCount(sacrifices, row.id, days, now);
        sacrificeId := row.id;
      } else {
        sacrificeId := nextSacrificeId;
        sacrifices := sacrifices + [Sacrifice(sacrificeId, userId, title, amount, 1, now, now)];
        nextSacrificeId := nextSacrificeId + 1;
        days := 1;
      }
    }
  }
}
