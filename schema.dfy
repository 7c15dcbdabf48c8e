/** The four tables of the savings database (main.py:46-90) as row datatypes,
    and one value holding every table together with its autoincrement
    counters and the logical clock that stands for `CURRENT_TIMESTAMP` and
    `datetime.now()`. Amounts (`REAL` columns) are reals; rounding is not
    modelled. */
module Schema {

  import opened Wrappers

  /** A row of `users`. `email` is `NOT NULL`, so it is a plain string;
      `name` and `avatar_url` may be `NULL`. */
  datatype User = User(
    id: nat,
    email: string,
    name: Option<string>,
    avatarUrl: Option<string>,
    googleSub: string,
    totalSaved: real,
    currentStreak: int,
    lastSaveDate: Option<nat>,
    createdAt: nat)

  /** A row of `goals`. */
  datatype Goal = Goal(
    id: nat,
    userId: nat,
    title: string,
    targetAmount: real,
    currentAmount: real,
    category: string,
    createdAt: nat)

  /** A row of `sacrifices`: a habit skipped to save `amount`, done `daysCount` times. */
  datatype Sacrifice = Sacrifice(
    id: nat,
    userId: nat,
    title: string,
    amount: real,
    daysCount: int,
    lastDoneDate: nat,
    createdAt: nat)

  /** The JSON payload stored in `feed_events.event_data`, one shape per event type. */
  datatype EventData =
    | GoalCreatedData(goalId: nat, title: string)
    | SacrificeLoggedData(sacrificeId: nat, title: string, days: int)

  /** A row of `feed_events`; its `event_type` column is determined by the payload. */
  datatype FeedEvent = FeedEvent(id: nat, userId: nat, data: EventData, createdAt: nat)
  {
    function EventType(): string
    {
      match data
      case GoalCreatedData(_, _) => "goal_created"
      case SacrificeLoggedData(_, _, _) => "sacrifice_logged"
    }
  }

  /** The error a route answers with: an HTTP status and its detail text. */
  datatype HttpError = HttpError(status: nat, detail: string)

  /** What FastAPI answers when a route raises something other than an HTTPException. */
  const InternalServerError := HttpError(500, "Internal Server Error")

  /** The whole database: the four tables in insertion order, the next id
      each `AUTOINCREMENT` key will hand out, and the logical clock. */
  datatype Db = Db(
    users: seq<User>,
    goals: seq<Goal>,
    sacrifices: seq<Sacrifice>,
    feed: seq<FeedEvent>,
    nextUserId: nat,
    nextGoalId: nat,
    nextSacrificeId: nat,
    nextEventId: nat,
    clock: nat)

  /** The database `init_db` leaves behind before any seeding: empty tables;
      `AUTOINCREMENT` starts at 1. */
  const EmptyDb := Db([], [], [], [], 1, 1, 1, 1, 0)

  /** An `AUTOINCREMENT` primary key: ids grow with insertion order and stay
      below the next id to be handed out. */
  ghost predicate IdsAscending<T>(s: seq<T>, id: T -> nat, next: nat)
  {
    && (forall i, j :: 0 <= i < j < |s| ==> id(s[i]) < id(s[j]))
    && (forall i :: 0 <= i < |s| ==> id(s[i]) < next)
  }

  /** The `UNIQUE` constraints on `users.google_sub` and `users.email`. */
  ghost predicate UniqueUserKeys(users: seq<User>)
  {
    forall i, j :: 0 <= i < j < |users| ==>
      users[i].googleSub != users[j].googleSub && users[i].email != users[j].email
  }

  /** No two sacrifices of one user share a title. The schema does not declare
      this; `log_sacrifice` keeps it by looking the pair up before inserting. */
  ghost predicate NoDuplicateSacrifices(sacrifices: seq<Sacrifice>)
  {
    forall i, j :: 0 <= i < j < |sacrifices| ==>
      !(sacrifices[i].userId == sacrifices[j].userId && sacrifices[i].title == sacrifices[j].title)
  }

  /** The invariant every route keeps. */
  ghost predicate ValidDb(db: Db)
  {
    && IdsAscending(db.users, (u: User) => u.id, db.nextUserId)
    && IdsAscending(db.goals, (g: Goal) => g.id, db.nextGoalId)
    && IdsAscending(db.sacrifices, (s: Sacrifice) => s.id, db.nextSacrificeId)
    && IdsAscending(db.feed, (e: FeedEvent) => e.id, db.nextEventId)
    && UniqueUserKeys(db.users)
    && NoDuplicateSacrifices(db.sacrifices)
  }

  /** Appending a row that takes the next id keeps the key ascending. */
  lemma AppendKeepsIdsAscending<T>(s: seq<T>, id: T -> nat, next: nat, x: T)
    requires IdsAscending(s, id, next) && id(x) == next
    ensures IdsAscending(s + [x], id, next + 1)
  {
  }

  lemma EmptyDbValid()
    ensures ValidDb(EmptyDb)
  {
  }
}
