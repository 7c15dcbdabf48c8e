/** The three routes of main.py that write to the database, as pure
    transitions from one database value to the next, each returning what the
    route answers. The class in module LedgerStore performs the same steps in
    place and is proved equal to these functions. */
module LedgerSpec {

  import opened Wrappers
  import opened Ordering
  import opened Schema

  /** The category `GoalCreate` falls back to when the request omits one. */
  const DefaultCategory := "General"

  /** `SELECT * FROM users WHERE google_sub = ?`, `fetchone()`. */
  function FindUserBySub(users: seq<User>, sub: string): (r: Option<nat>)
    ensures r.Some? ==> r.value < |users| && users[r.value].googleSub == sub
    ensures r.None? <==> forall i :: 0 <= i < |users| ==> users[i].googleSub != sub
  {
    First(users, (u: User) => u.googleSub == sub)
  }

  /** A user already holding `email`, which the `UNIQUE` constraint on
      `users.email` looks for when a row is inserted. */
  function FindUserByEmail(users: seq<User>, email: string): (r: Option<nat>)
    ensures r.Some? ==> r.value < |users| && users[r.value].email == email
    ensures r.None? <==> EmailFree(users, email)
  {
    First(users, (u: User) => u.email == email)
  }

  /** `SELECT * FROM sacrifices WHERE user_id = ? AND title = ?`, `fetchone()`. */
  function FindSacrifice(sacrifices: seq<Sacrifice>, userId: nat, title: string): (r: Option<nat>)
    ensures r.Some? ==>
      r.value < |sacrifices| && sacrifices[r.value].userId == userId && sacrifices[r.value].title == title
    ensures r.None? <==> forall i :: 0 <= i < |sacrifices| ==>
      !(sacrifices[i].userId == userId && sacrifices[i].title == title)
  {
    First(sacrifices, (s: Sacrifice) => s.userId == userId && s.title == title)
  }

  /** `UPDATE users SET total_saved = total_saved + ?, current_streak = current_streak + 1 WHERE id = ?`. */
  function CreditUser(users: seq<User>, userId: nat, amount: real): (r: seq<User>)
    ensures |r| == |users|
    ensures forall i :: 0 <= i < |users| && users[i].id != userId ==> r[i] == users[i]
    ensures forall i :: 0 <= i < |users| && users[i].id == userId ==>
      r[i] == users[i].(totalSaved := users[i].totalSaved + amount,
                        currentStreak := users[i].currentStreak + 1)
  {
    seq(|users|, i requires 0 <= i < |users| =>
      if users[i].id == userId
      then users[i].(totalSaved := users[i].totalSaved + amount,
                     currentStreak := users[i].currentStreak + 1)
      else users[i])
  }

  /** `UPDATE sacrifices SET days_count = ?, last_done_date = ? WHERE id = ?`. */
  function SetDaysCount(sacrifices: seq<Sacrifice>, id: nat, days: int, now: nat): (r: seq<Sacrifice>)
    ensures |r| == |sacrifices|
    ensures forall i :: 0 <= i < |sacrifices| && sacrifices[i].id != id ==> r[i] == sacrifices[i]
    ensures forall i :: 0 <= i < |sacrifices| && sacrifices[i].id == id ==>
      r[i] == sacrifices[i].(daysCount := days, lastDoneDate := now)
  {
    seq(|sacrifices|, i requires 0 <= i < |sacrifices| =>
      if sacrifices[i].id == id
      then sacrifices[i].(daysCount := days, lastDoneDate := now)
      else sacrifices[i])
  }

  /** The database part of `google_callback`: find the user by Google subject
      id, or insert one. The insert fails, as SQLite's `IntegrityError`, when
      the profile has no email (`email` is `NOT NULL`) or another user already
      has that email (`email` is `UNIQUE`); the route does not catch it. */
  function FindOrCreateUser(db: Db, sub: string, email: Option<string>,
                            name: Option<string>, picture: Option<string>): (r: (Db, Result<nat, HttpError>))
    requires ValidDb(db)
    ensures ValidDb(r.0)
    // a known subject: its id, and nothing is written
    ensures FindUserBySub(db.users, sub).Some? ==>
      r.0 == db && r.1.Ok? &&
      exists i :: 0 <= i < |db.users| && db.users[i].googleSub == sub && db.users[i].id == r.1.value
    // an unknown subject with a fresh email: exactly one new user, with zero savings and streak
    ensures FindUserBySub(db.users, sub).None? && email.Some? && EmailFree(db.users, email.value) ==>
      && r.1.Ok?
      && |r.0.users| == |db.users| + 1
      && r.0.users[..|db.users|] == db.users
      && IsNewUser(r.0.users[|db.users|], r.1.value, sub, email.value, name, picture)
      && (forall i :: 0 <= i < |db.users| ==> db.users[i].id != r.1.value)
      && r.0.goals == db.goals && r.0.sacrifices == db.sacrifices && r.0.feed == db.feed
    // an unknown subject without an email, or with one already taken: an error and no change
    ensures FindUserBySub(db.users, sub).None? && !(email.Some? && EmailFree(db.users, email.value)) ==>
      r.0 == db && r.1 == Err(InternalServerError)
  {
    match FindUserBySub(db.users, sub)
    case Some(i) => (db, Ok(db.users[i].id))
    case None =>
      if email.None? || FindUserByEmail(db.users, email.value).Some? then
        (db, Err(InternalServerError))
      else
        var user := User(db.nextUserId, email.value, name, picture, sub, 0.0, 0, None, db.clock);
        var db' := db.(users := db.users + [user], nextUserId := db.nextUserId + 1, clock := db.clock + 1);
        AppendKeepsIdsAscending(db.users, (u: User) => u.id, db.nextUserId, user);
        assert UniqueUserKeys(db'.users);
        (db', Ok(user.id))
  }

  /** No user has this email yet. */
  ghost predicate EmailFree(users: seq<User>, email: string)
  {
    forall i :: 0 <= i < |users| ==> users[i].email != email
  }

  /** The row `google_callback` inserts: the profile's fields, id `id`,
      `total_saved` 0 and `current_streak` 0 (the column defaults). */
  ghost predicate IsNewUser(u: User, id: nat, sub: string, email: string,
                            name: Option<string>, picture: Option<string>)
  {
    && u.id == id && u.googleSub == sub && u.email == email
    && u.name == name && u.avatarUrl == picture
    && u.totalSaved == 0.0 && u.currentStreak == 0
  }

  /** `create_goal`: insert the goal with `current_amount` 0, append one
      `goal_created` event carrying the new id and the title, and answer with
      that id (the route answers with the request's title beside it). */
  function CreateGoal(db: Db, userId: nat, title: string, targetAmount: real,
                      category: Option<string>): (r: (Db, nat))
    requires ValidDb(db)
    ensures ValidDb(r.0)
    ensures |r.0.goals| == |db.goals| + 1 && r.0.goals[..|db.goals|] == db.goals
    ensures forall i :: 0 <= i < |db.goals| ==> db.goals[i].id != r.1
    ensures var g := r.0.goals[|db.goals|];
      && g.id == r.1 && g.userId == userId && g.title == title
      && g.targetAmount == targetAmount && g.currentAmount == 0.0
      && g.category == (if category.Some? then category.value else DefaultCategory)
    ensures |r.0.feed| == |db.feed| + 1 && r.0.feed[..|db.feed|] == db.feed
    ensures var e := r.0.feed[|db.feed|];
      e.userId == userId && e.data == GoalCreatedData(r.1, title) && e.EventType() == "goal_created"
    ensures r.0.users == db.users && r.0.sacrifices == db.sacrifices
  {
    var now := db.clock;
    var goal := Goal(db.nextGoalId, userId, title, targetAmount, 0.0,
                     if category.Some? then category.value else DefaultCategory, now);
    var event := FeedEvent(db.nextEventId, userId, GoalCreatedData(goal.id, title), now);
    AppendKeepsIdsAscending(db.goals, (g: Goal) => g.id, db.nextGoalId, goal);
    AppendKeepsIdsAscending(db.feed, (e: FeedEvent) => e.id, db.nextEventId, event);
    (db.(goals := db.goals + [goal], feed := db.feed + [event],
         nextGoalId := db.nextGoalId + 1, nextEventId := db.nextEventId + 1, clock := now + 1),
     goal.id)
  }

  /** `log_sacrifice`: look the (user, title) pair up; bump `days_count` of the
      row found, or insert a row with the request's amount and `days_count` 1;
      credit the user with the request's amount and one streak step; append one
      `sacrifice_logged` event; answer with the new `days_count`. */
  function LogSacrifice(db: Db, userId: nat, title: string, amount: real): (r: (Db, int))
    requires ValidDb(db)
    ensures ValidDb(r.0)
  {
    var now := db.clock;
    var up := Upsert(db, userId, title, amount, now);
    var event := FeedEvent(db.nextEventId, userId, SacrificeLoggedData(up.sacrificeId, title, up.days), now);
    AppendKeepsIdsAscending(db.feed, (e: FeedEvent) => e.id, db.nextEventId, event);
    CreditKeepsUserKeys(db.users, userId, amount);
    (db.(users := CreditUser(db.users, userId, amount), sacrifices := up.sacrifices,
         feed := db.feed + [event], nextSacrificeId := up.nextSacrificeId,
         nextEventId := db.nextEventId + 1, clock := now + 1),
     up.days)
  }

  /** `log_sacrifice` with a title the user has not used: exactly one new
      row, of this user, with the request's amount and `days_count` 1, and the
      route answers 1. */
  lemma LogUnseenTitle(db: Db, userId: nat, title: string, amount: real)
    requires ValidDb(db) && FindSacrifice(db.sacrifices, userId, title).None?
    ensures var r := LogSacrifice(db, userId, title, amount);
      && r.1 == 1
      && |r.0.sacrifices| == |db.sacrifices| + 1
      && r.0.sacrifices[..|db.sacrifices|] == db.sacrifices
      && var s := r.0.sacrifices[|db.sacrifices|];
         s.userId == userId && s.title == title && s.amount == amount && s.daysCount == 1
  {
  }

  /** `log_sacrifice` with a title the user has used: no new row; the row found
      gains exactly one day and keeps the amount first stored, whatever amount
      the request carries; every other row stays; the route answers the new
      days count. */
  lemma LogKnownTitle(db: Db, userId: nat, title: string, amount: real, k: nat)
    requires ValidDb(db) && FindSacrifice(db.sacrifices, userId, title) == Some(k)
    ensures var r := LogSacrifice(db, userId, title, amount);
      && |r.0.sacrifices| == |db.sacrifices|
      && r.1 == db.sacrifices[k].daysCount + 1
      && r.0.sacrifices[k] == db.sacrifices[k].(daysCount := r.1, lastDoneDate := db.clock)
      && r.0.sacrifices[k].amount == db.sacrifices[k].amount
      && forall i :: 0 <= i < |db.sacrifices| && i != k ==> r.0.sacrifices[i] == db.sacrifices[i]
  {
    RepeatKeepsInvariants(db, k, db.sacrifices[k].daysCount + 1, db.clock);
  }

  /** `log_sacrifice` in either branch credits the caller with the request's
      amount and exactly one streak step; other users and all goals stay. */
  lemma LogCreditsUser(db: Db, userId: nat, title: string, amount: real)
    requires ValidDb(db)
    ensures var r := LogSacrifice(db, userId, title, amount).0;
      && |r.users| == |db.users|
      && r.goals == db.goals
      && forall i :: 0 <= i < |db.users| ==>
           r.users[i] == if db.users[i].id == userId
                         then db.users[i].(totalSaved := db.users[i].totalSaved + amount,
                                           currentStreak := db.users[i].currentStreak + 1)
                         else db.users[i]
  {
  }

  /** `log_sacrifice` appends exactly one `sacrifice_logged` event for the
      caller, leaves every earlier event as it was, and the event carries the
      title and the days count the route answers. */
  lemma LogAppendsEvent(db: Db, userId: nat, title: string, amount: real)
    requires ValidDb(db)
    ensures var r := LogSacrifice(db, userId, title, amount);
      && |r.0.feed| == |db.feed| + 1
      && r.0.feed[..|db.feed|] == db.feed
      && var e := r.0.feed[|db.feed|];
         && e.userId == userId && e.EventType() == "sacrifice_logged"
         && e.data.SacrificeLoggedData? && e.data.title == title && e.data.days == r.1
  {
  }

  /** The sacrifice id in the new event is the id of the caller's row for that
      title, which now holds the days count the event reports. */
  lemma LogEventNamesRow(db: Db, userId: nat, title: string, amount: real)
    requires ValidDb(db)
    ensures var r := LogSacrifice(db, userId, title, amount);
      && |r.0.feed| == |db.feed| + 1
      && var e := r.0.feed[|db.feed|];
         && e.data.SacrificeLoggedData?
         && exists i :: 0 <= i < |r.0.sacrifices| && r.0.sacrifices[i].id == e.data.sacrificeId
              && r.0.sacrifices[i].userId == userId && r.0.sacrifices[i].title == title
              && r.0.sacrifices[i].daysCount == r.1
  {
    var r := LogSacrifice(db, userId, title, amount);
    match FindSacrifice(db.sacrifices, userId, title)
    case Some(k) =>
      LogKnownTitle(db, userId, title, amount, k);
      assert r.0.sacrifices[k].id == r.0.feed[|db.feed|].data.sacrificeId;
    case None =>
      LogUnseenTitle(db, userId, title, amount);
      assert r.0.sacrifices[|db.sacrifices|].id == r.0.feed[|db.feed|].data.sacrificeId;
  }

  /** Logging one title twice: the first log creates the row with days 1, the
      second finds that row and answers 2; the row keeps the first amount. */
  lemma LogSameTitleTwice(db: Db, userId: nat, title: string, first: real, second: real)
    requires ValidDb(db) && FindSacrifice(db.sacrifices, userId, title).None?
    ensures var (db1, days1) := LogSacrifice(db, userId, title, first);
      var (db2, days2) := LogSacrifice(db1, userId, title, second);
      && days1 == 1 && days2 == 2
      && |db2.sacrifices| == |db.sacrifices| + 1
      && db2.sacrifices[|db.sacrifices|].amount == first
      && db2.sacrifices[|db.sacrifices|].daysCount == 2
  {
    var n := |db.sacrifices|;
    LogUnseenTitle(db, userId, title, first);
    var db1 := LogSacrifice(db, userId, title, first).0;
    assert forall j :: 0 <= j < n ==> db1.sacrifices[j] == db.sacrifices[j];
    assert FindSacrifice(db1.sacrifices, userId, title) == Some(n);
    LogKnownTitle(db1, userId, title, second, n);
  }

  /** What the find-or-create step of `log_sacrifice` leaves: the `sacrifices`
      table, its next id, the id of the row bumped or inserted, and its days. */
  datatype Upserted = Upserted(sacrifices: seq<Sacrifice>, nextSacrificeId: nat, sacrificeId: nat, days: int)

  /** The find-or-create step of `log_sacrifice` on its own. */
  function Upsert(db: Db, userId: nat, title: string, amount: real, now: nat): (r: Upserted)
    requires ValidDb(db)
    ensures IdsAscending(r.sacrifices, (s: Sacrifice) => s.id, r.nextSacrificeId)
    ensures NoDuplicateSacrifices(r.sacrifices)
  {
    match FindSacrifice(db.sacrifices, userId, title)
    case Some(k) =>
      var existing := db.sacrifices[k];
      var days := existing.daysCount + 1;
      RepeatKeepsInvariants(db, k, days, now);
      Upserted(SetDaysCount(db.sacrifices, existing.id, days, now), db.nextSacrificeId, existing.id, days)
    case None =>
      var row := Sacrifice(db.nextSacrificeId, userId, title, amount, 1, now, now);
      AppendKeepsIdsAscending(db.sacrifices, (s: Sacrifice) => s.id, db.nextSacrificeId, row);
      Upserted(db.sacrifices + [row], db.nextSacrificeId + 1, row.id, 1)
  }

  /** Bumping the row at `k` touches that row only (ids are unique) and keeps
      the sacrifice invariants. */
  lemma RepeatKeepsInvariants(db: Db, k: nat, days: int, now: nat)
    requires ValidDb(db) && k < |db.sacrifices|
    ensures var r := SetDaysCount(db.sacrifices, db.sacrifices[k].id, days, now);
      && r == db.sacrifices[k := db.sacrifices[k].(daysCount := days, lastDoneDate := now)]
      && IdsAscending(r, (s: Sacrifice) => s.id, db.nextSacrificeId)
      && NoDuplicateSacrifices(r)
  {
    var r := SetDaysCount(db.sacrifices, db.sacrifices[k].id, days, now);
    forall i | 0 <= i < |r| ensures r[i] == db.sacrifices[k := db.sacrifices[k].(daysCount := days, lastDoneDate := now)][i] {
      if i < k {
        assert db.sacrifices[i].id < db.sacrifices[k].id;
      } else if i > k {
        assert db.sacrifices[k].id < db.sacrifices[i].id;
      }
    }
  }

  /** Crediting a user changes neither the ids nor the unique keys of `users`. */
  lemma CreditKeepsUserKeys(users: seq<User>, userId: nat, amount: real)
    ensures var r := CreditUser(users, userId, amount);
      forall i :: 0 <= i < |users| ==>
        r[i].id == users[i].id && r[i].googleSub == users[i].googleSub && r[i].email == users[i].email
  {
  }

  /** One `POST /api/sacrifices` request: the caller's id and the body. */
  datatype LogRequest = LogRequest(userId: nat, title: string, amount: real)

  /** The database after serving `reqs` in order. */
  function LogAll(db: Db, reqs: seq<LogRequest>): (r: Db)
    requires ValidDb(db)
    ensures ValidDb(r)
    decreases |reqs|
  {
    if reqs == [] then db
    else LogAll(LogSacrifice(db, reqs[0].userId, reqs[0].title, reqs[0].amount).0, reqs[1..])
  }

  /** The sum of the amounts `userId` sent in `reqs`. */
  function AmountSentBy(reqs: seq<LogRequest>, userId: nat): real
  {
    if reqs == [] then 0.0
    else (if reqs[0].userId == userId then reqs[0].amount else 0.0) + AmountSentBy(reqs[1..], userId)
  }

  /** How many of `reqs` `userId` sent. */
  function CountSentBy(reqs: seq<LogRequest>, userId: nat): nat
  {
    if reqs == [] then 0
    else (if reqs[0].userId == userId then 1 else 0) + CountSentBy(reqs[1..], userId)
  }

  /** After any sequence of logs, each user's `total_saved` has grown by exactly
      the amounts that user sent, whatever the titles and their repetition, and
      `current_streak` by the number of logs the user sent. */
  lemma {:induction false} LogAllCredits(db: Db, reqs: seq<LogRequest>, i: nat)
    requires ValidDb(db) && i < |db.users|
    ensures |LogAll(db, reqs).users| == |db.users|
    ensures var u := LogAll(db, reqs).users[i];
      && u.id == db.users[i].id
      && u.totalSaved == db.users[i].totalSaved + AmountSentBy(reqs, db.users[i].id)
      && u.currentStreak == db.users[i].currentStreak + CountSentBy(reqs, db.users[i].id)
    decreases |reqs|
  {
    if reqs != [] {
      var next := LogSacrifice(db, reqs[0].userId, reqs[0].title, reqs[0].amount).0;
      LogCreditsUser(db, reqs[0].userId, reqs[0].title, reqs[0].amount);
      LogAllCredits(next, reqs[1..], i);
    }
  }

  /** The feed only grows: after any sequence of logs the old events are
      untouched and there is exactly one new event per request. Goals never
      change. */
  lemma {:induction false} LogAllAppendsFeed(db: Db, reqs: seq<LogRequest>)
    requires ValidDb(db)
    ensures var r := LogAll(db, reqs);
      && |r.feed| == |db.feed| + |reqs|
      && r.feed[..|db.feed|] == db.feed
      && r.goals == db.goals
    decreases |reqs|
  {
    if reqs != [] {
      var next := LogSacrifice(db, reqs[0].userId, reqs[0].title, reqs[0].amount).0;
      LogCreditsUser(db, reqs[0].userId, reqs[0].title, reqs[0].amount);
      LogAppendsEvent(db, reqs[0].userId, reqs[0].title, reqs[0].amount);
      LogAllAppendsFeed(next, reqs[1..]);
      var feed := LogAll(next, reqs[1..]).feed;
      var n := |db.feed|;
      assert feed[..n] == feed[..n + 1][..n];
    }
  }

  /** The events a sequence of logs appends follow request order: the `j`-th
      new event is a `sacrifice_logged` event for the `j`-th request's user and
      title. */
  lemma {:induction false} LogAllEventsInOrder(db: Db, reqs: seq<LogRequest>, j: nat)
    requires ValidDb(db) && j < |reqs|
    ensures var r := LogAll(db, reqs);
      && |db.feed| + j < |r.feed|
      && r.feed[|db.feed| + j].userId == reqs[j].userId
      && r.feed[|db.feed| + j].data.SacrificeLoggedData?
      && r.feed[|db.feed| + j].data.title == reqs[j].title
    decreases |reqs|
  {
    var next := LogSacrifice(db, reqs[0].userId, reqs[0].title, reqs[0].amount).0;
    LogAppendsEvent(db, reqs[0].userId, reqs[0].title, reqs[0].amount);
    LogAllAppendsFeed(next, reqs[1..]);
    var feed := LogAll(next, reqs[1..]).feed;
    var n := |db.feed|;
    if j == 0 {
      assert feed[n] == feed[..n + 1][n];
    } else {
      LogAllEventsInOrder(next, reqs[1..], j - 1);
      assert reqs[1..][j - 1] == reqs[j];
    }
  }
}
