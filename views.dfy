/** The read routes of main.py: `get_me`, `get_dashboard`, `get_feed` and
    `get_leaderboard`. Each is a filter, a sort and a limit over the tables,
    and none of them writes. */
module Views {

  import opened Wrappers
  import opened Ordering
  import opened Schema

  /** `SELECT * FROM users WHERE id = ?`, `fetchone()`. */
  function UserById(users: seq<User>, id: nat): (r: Option<User>)
    ensures r.Some? ==> r.value in users && r.value.id == id
    ensures r.None? <==> forall i :: 0 <= i < |users| ==> users[i].id != id
  {
    match First(users, (u: User) => u.id == id)
    case Some(i) => Some(users[i])
    case None => None
  }

  /** `get_me`: the caller's row, or 404 when no row has the caller's id. */
  function GetMe(users: seq<User>, userId: nat): (r: Result<User, HttpError>)
    ensures r.Ok? ==> r.value in users && r.value.id == userId
    ensures r.Err? <==> forall i :: 0 <= i < |users| ==> users[i].id != userId
    ensures r.Err? ==> r.error == HttpError(404, "User not found")
  {
    match UserById(users, userId)
    case Some(u) => Ok(u)
    case None => Err(HttpError(404, "User not found"))
  }

  /** The dashboard a user sees. */
  datatype Dashboard = Dashboard(user: User, goals: seq<Goal>, sacrifices: seq<Sacrifice>)

  /** How many sacrifices `get_dashboard` lists. */
  const RecentSacrifices := 5

  function GoalCreatedAt(g: Goal): real { g.createdAt as real }

  function SacrificeCreatedAt(s: Sacrifice): real { s.createdAt as real }

  /** `WHERE user_id = ?` on `sacrifices`. */
  function SacrificesOf(sacrifices: seq<Sacrifice>, userId: nat): (r: seq<Sacrifice>)
  {
    Where(sacrifices, (s: Sacrifice) => s.userId == userId)
  }

  /** `WHERE user_id = ? ORDER BY created_at DESC LIMIT 5` on `sacrifices`. */
  function RecentSacrificesOf(sacrifices: seq<Sacrifice>, userId: nat): (r: seq<Sacrifice>)
    ensures |r| == Min(RecentSacrifices, |SacrificesOf(sacrifices, userId)|)
    ensures multiset(r) <= multiset(SacrificesOf(sacrifices, userId))
    ensures forall s :: s in r ==> s in sacrifices && s.userId == userId
    ensures SortedDesc(r, SacrificeCreatedAt)
    ensures forall s, t :: s in sacrifices && s.userId == userId && s !in r && t in r ==>
      s.createdAt <= t.createdAt
    ensures |r| < RecentSacrifices ==> forall s :: s in sacrifices && s.userId == userId ==> s in r
  {
    var mine := SacrificesOf(sacrifices, userId);
    var recent := TopBy(mine, SacrificeCreatedAt, RecentSacrifices);
    RecentFromMine(sacrifices, userId, mine, recent);
    recent
  }

  /** What the `LIMIT 5` query's contract says about rows of the caller's
      sacrifices, restated for rows of the whole table. */
  lemma RecentFromMine(sacrifices: seq<Sacrifice>, userId: nat, mine: seq<Sacrifice>, recent: seq<Sacrifice>)
    requires forall x :: multiset(mine)[x] == if x.userId == userId then multiset(sacrifices)[x] else 0
    requires |recent| == Min(RecentSacrifices, |mine|)
    requires multiset(recent) <= multiset(mine)
    requires forall x, y :: x in multiset(mine) - multiset(recent) && y in recent ==>
      SacrificeCreatedAt(x) <= SacrificeCreatedAt(y)
    ensures forall s :: s in recent ==> s in sacrifices && s.userId == userId
    ensures forall s, t :: s in sacrifices && s.userId == userId && s !in recent && t in recent ==>
      s.createdAt <= t.createdAt
    ensures |recent| < RecentSacrifices ==> forall s :: s in sacrifices && s.userId == userId ==> s in recent
  {
    assert forall s :: s in sacrifices && s.userId == userId ==> s in multiset(mine);
    assert forall s :: s in recent ==> s in multiset(mine);
    forall s, t | s in sacrifices && s.userId == userId && s !in recent && t in recent
      ensures s.createdAt <= t.createdAt
    {
      assert s in multiset(mine) - multiset(recent);
      assert SacrificeCreatedAt(s) <= SacrificeCreatedAt(t);
    }
    if |recent| < RecentSacrifices {
      // as many rows as the caller has, drawn from them: all of them
      var left := multiset(mine) - multiset(recent);
      assert multiset(mine) == multiset(recent) + left;
      assert |left| == 0;
      forall s | s in sacrifices && s.userId == userId ensures s in recent {
        assert s in multiset(mine);
        assert s !in left;
      }
    }
  }

  /** `get_dashboard`: the caller's row; all the caller's goals, newest first;
      the caller's five newest sacrifices, newest first. With no row for the
      caller, `dict(None)` raises and the route fails with a server error
      (unlike `get_me`, which answers 404). */
  function GetDashboard(users: seq<User>, goals: seq<Goal>, sacrifices: seq<Sacrifice>,
                        userId: nat): (r: Result<Dashboard, HttpError>)
    ensures r.Err? <==> forall i :: 0 <= i < |users| ==> users[i].id != userId
    ensures r.Err? ==> r.error == InternalServerError
    ensures r.Ok? ==> r.value.user in users && r.value.user.id == userId
    // every goal of the caller, as often as stored, and nothing else, newest first
    ensures r.Ok? ==> forall g ::
      multiset(r.value.goals)[g] == (if g.userId == userId then multiset(goals)[g] else 0)
    ensures r.Ok? ==> SortedDesc(r.value.goals, GoalCreatedAt)
    // at most five of the caller's sacrifices, newest first, none older than one left out
    ensures r.Ok? ==> |r.value.sacrifices| == Min(RecentSacrifices, |SacrificesOf(sacrifices, userId)|)
    ensures r.Ok? ==> multiset(r.value.sacrifices) <= multiset(SacrificesOf(sacrifices, userId))
    ensures r.Ok? ==> forall s :: s in r.value.sacrifices ==> s in sacrifices && s.userId == userId
    ensures r.Ok? ==> SortedDesc(r.value.sacrifices, SacrificeCreatedAt)
    ensures r.Ok? ==> forall s, t ::
      s in sacrifices && s.userId == userId && s !in r.value.sacrifices && t in r.value.sacrifices ==>
        s.createdAt <= t.createdAt
    ensures r.Ok? && |r.value.sacrifices| < RecentSacrifices ==>
      forall s :: s in sacrifices && s.userId == userId ==> s in r.value.sacrifices
  {
    match UserById(users, userId)
    case None => Err(InternalServerError)
    case Some(u) =>
      var recent := RecentSacrificesOf(sacrifices, userId);
      Ok(Dashboard(u, SortDesc(Where(goals, (g: Goal) => g.userId == userId), GoalCreatedAt), recent))
  }

  /** A feed entry: the event row joined with its author's `name` and `avatar_url`. */
  datatype FeedItem = FeedItem(event: FeedEvent, name: Option<string>, avatarUrl: Option<string>)

  /** How many entries `get_feed` lists. */
  const FeedLimit := 20

  function ItemCreatedAt(item: FeedItem): real { item.event.createdAt as real }

  /** `item` is an event of `events` beside the name and avatar of a user row
      whose id is the event's `user_id`. */
  ghost predicate JoinedWithAuthor(item: FeedItem, events: seq<FeedEvent>, users: seq<User>)
  {
    item.event in events &&
    exists u :: u in users && u.id == item.event.userId && u.name == item.name && u.avatarUrl == item.avatarUrl
  }

  /** Some user row has the event's `user_id`. */
  predicate HasAuthor(users: seq<User>, e: FeedEvent)
  {
    UserById(users, e.userId).Some?
  }

  /** The event rows of feed entries, in order. */
  function EventsOf(items: seq<FeedItem>): (r: seq<FeedEvent>)
    ensures |r| == |items| && forall i :: 0 <= i < |items| ==> r[i] == items[i].event
  {
    seq(|items|, i requires 0 <= i < |items| => items[i].event)
  }

  lemma EventsOfCons(item: FeedItem, items: seq<FeedItem>)
    ensures EventsOf([item] + items) == [item.event] + EventsOf(items)
  {
  }

  /** `feed_events f JOIN users u ON f.user_id = u.id`: each event whose author
      has a row, with that row's display fields; events of an unknown author
      drop out (the foreign key is declared but SQLite does not enforce it). */
  function JoinAuthors(events: seq<FeedEvent>, users: seq<User>): (r: seq<FeedItem>)
    ensures forall item :: item in r ==> JoinedWithAuthor(item, events, users)
    ensures forall e :: e in events && (exists u :: u in users && u.id == e.userId) ==>
      exists item :: item in r && item.event == e
  {
    if events == [] then []
    else
      var rest := JoinAuthors(events[1..], users);
      assert events == [events[0]] + events[1..];
      match UserById(users, events[0].userId)
      case Some(u) => [FeedItem(events[0], u.name, u.avatarUrl)] + rest
      case None => rest
  }

  /** The join lists exactly the events that have an author, each once and in
      table order. */
  lemma {:induction false} JoinAuthorsEvents(events: seq<FeedEvent>, users: seq<User>)
    ensures EventsOf(JoinAuthors(events, users)) == Where(events, (e: FeedEvent) => HasAuthor(users, e))
  {
    if events != [] {
      var rest := JoinAuthors(events[1..], users);
      JoinAuthorsEvents(events[1..], users);
      WhereCons(events, (e: FeedEvent) => HasAuthor(users, e));
      match UserById(users, events[0].userId)
      case Some(u) =>
        EventsOfCons(FeedItem(events[0], u.name, u.avatarUrl), rest);
      case None =>
    }
  }

  /** `get_feed`: the twenty newest joined events of all users, newest first. */
  function GetFeed(users: seq<User>, events: seq<FeedEvent>): (r: seq<FeedItem>)
    ensures |r| <= FeedLimit
    ensures SortedDesc(r, ItemCreatedAt)
    ensures forall item :: item in r ==> JoinedWithAuthor(item, events, users)
    // a full page unless fewer events have an author; nothing left out is newer than anything shown
    ensures |r| == Min(FeedLimit, |JoinAuthors(events, users)|)
    ensures multiset(r) <= multiset(JoinAuthors(events, users))
    ensures forall x, y :: x in multiset(JoinAuthors(events, users)) - multiset(r) && y in r ==>
      x.event.createdAt <= y.event.createdAt
  {
    var joined := JoinAuthors(events, users);
    var r := TopBy(joined, ItemCreatedAt, FeedLimit);
    assert forall item :: item in r ==> item in multiset(joined);
    r
  }

  /** A leaderboard line: `SELECT id, name, avatar_url, total_saved, current_streak`. */
  datatype LeaderRow = LeaderRow(id: nat, name: Option<string>, avatarUrl: Option<string>,
                                 totalSaved: real, currentStreak: int)

  /** How many users `get_leaderboard` lists. */
  const LeaderboardLimit := 10

  function TotalSaved(u: User): real { u.totalSaved }

  function ToLeaderRow(u: User): LeaderRow
  {
    LeaderRow(u.id, u.name, u.avatarUrl, u.totalSaved, u.currentStreak)
  }

  /** The leaderboard lines of `us`, in order. */
  function LinesOf(us: seq<User>): (r: seq<LeaderRow>)
    ensures |r| == |us| && forall i :: 0 <= i < |us| ==> r[i] == ToLeaderRow(us[i])
  {
    seq(|us|, i requires 0 <= i < |us| => ToLeaderRow(us[i]))
  }

  lemma LinesOfAppend(a: seq<User>, b: seq<User>)
    ensures LinesOf(a + b) == LinesOf(a) + LinesOf(b)
  {
  }

  /** Projecting rows to lines keeps multiset inclusion: lines drawn from some
      of the users are drawn from the lines of all of them, each at most as
      often as its users occur. */
  lemma {:induction false} LinesKeepInclusion(a: seq<User>, b: seq<User>)
    requires multiset(a) <= multiset(b)
    ensures multiset(LinesOf(a)) <= multiset(LinesOf(b))
    decreases |a|
  {
    if a != [] {
      assert a[0] in multiset(b);
      var j :| 0 <= j < |b| && b[j] == a[0];
      var rest := WithoutAt(b, j);
      assert a == [a[0]] + a[1..];
      assert multiset(a[1..]) <= multiset(rest);
      LinesKeepInclusion(a[1..], rest);
      LinesMatchedHead(a, b, j);
    }
  }

  /** Matching `a`'s first row with `b`'s `j`-th extends an inclusion of the
      remaining lines to all of them. */
  lemma LinesMatchedHead(a: seq<User>, b: seq<User>, j: nat)
    requires a != [] && j < |b| && b[j] == a[0]
    requires multiset(LinesOf(a[1..])) <= multiset(LinesOf(WithoutAt(b, j)))
    ensures multiset(LinesOf(a)) <= multiset(LinesOf(b))
  {
    assert a == [a[0]] + a[1..];
    LinesOfAppend([a[0]], a[1..]);
    LinesWithoutAt(b, j);
    assert LinesOf([a[0]]) == [ToLeaderRow(a[0])];
    assert LinesOf(a) == [ToLeaderRow(a[0])] + LinesOf(a[1..]);
    var line := multiset{ToLeaderRow(a[0])};
    var tail, kept := multiset(LinesOf(a[1..])), multiset(LinesOf(WithoutAt(b, j)));
    assert multiset(LinesOf(a)) == line + tail;
    assert multiset(LinesOf(b)) == kept + line;
  }

  /** `b` with its `j`-th row removed; it keeps every other row. */
  function WithoutAt(b: seq<User>, j: nat): (r: seq<User>)
    requires j < |b|
    ensures multiset(r) == multiset(b) - multiset{b[j]}
  {
    assert b == b[..j] + [b[j]] + b[j+1..];
    b[..j] + b[j+1..]
  }

  lemma LinesWithoutAt(b: seq<User>, j: nat)
    requires j < |b|
    ensures multiset(LinesOf(b)) == multiset(LinesOf(WithoutAt(b, j))) + multiset{ToLeaderRow(b[j])}
  {
    assert b == b[..j] + [b[j]] + b[j+1..];
    LinesOfAppend(b[..j] + [b[j]], b[j+1..]);
    LinesOfAppend(b[..j], [b[j]]);
    LinesOfAppend(b[..j], b[j+1..]);
  }

  /** `row` is the leaderboard line of some user in `users`. */
  ghost predicate IsLineOf(row: LeaderRow, users: seq<User>)
  {
    exists u :: u in users && row == ToLeaderRow(u)
  }

  /** `get_leaderboard`: the ten users with the most saved, in non-increasing
      order of `total_saved`; no user left out has saved more than a user listed. */
  function GetLeaderboard(users: seq<User>): (r: seq<LeaderRow>)
    ensures |r| == Min(LeaderboardLimit, |users|)
    ensures forall i, j :: 0 <= i < j < |r| ==> r[i].totalSaved >= r[j].totalSaved
    ensures forall i :: 0 <= i < |r| ==> IsLineOf(r[i], users)
    ensures multiset(r) <= multiset(LinesOf(users))
    ensures forall u :: u in users && ToLeaderRow(u) !in r ==>
      forall i :: 0 <= i < |r| ==> u.totalSaved <= r[i].totalSaved
  {
    var top := TopBy(users, TotalSaved, LeaderboardLimit);
    var r := LinesOf(top);
    LeaderRowsOfTop(users, top, r);
    r
  }

  /** The lines of the top users inherit the top users' order and dominance. */
  lemma LeaderRowsOfTop(users: seq<User>, top: seq<User>, r: seq<LeaderRow>)
    requires multiset(top) <= multiset(users)
    requires forall x, y :: x in multiset(users) - multiset(top) && y in top ==> x.totalSaved <= y.totalSaved
    requires SortedDesc(top, TotalSaved)
    requires r == LinesOf(top)
    ensures forall i, j :: 0 <= i < j < |r| ==> r[i].totalSaved >= r[j].totalSaved
    ensures forall i :: 0 <= i < |r| ==> IsLineOf(r[i], users)
    ensures multiset(r) <= multiset(LinesOf(users))
    ensures forall u :: u in users && ToLeaderRow(u) !in r ==>
      forall i :: 0 <= i < |r| ==> u.totalSaved <= r[i].totalSaved
  {
    LinesKeepInclusion(top, users);
    forall i, j | 0 <= i < j < |r| ensures r[i].totalSaved >= r[j].totalSaved {
      assert TotalSaved(top[i]) >= TotalSaved(top[j]);
    }
    forall i | 0 <= i < |r| ensures IsLineOf(r[i], users) {
      assert top[i] in multiset(top);
      assert top[i] in multiset(users);
      assert top[i] in users && r[i] == ToLeaderRow(top[i]);
    }
    forall u | u in users && ToLeaderRow(u) !in r
      ensures forall i :: 0 <= i < |r| ==> u.totalSaved <= r[i].totalSaved
    {
      assert u in multiset(users) - multiset(top);
      forall i | 0 <= i < |r| ensures u.totalSaved <= r[i].totalSaved {
        assert top[i] in multiset(top);
      }
    }
  }
}
