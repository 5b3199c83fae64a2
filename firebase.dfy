/**
 * The persistence layer: the `users` and `workouts` Firestore collections
 * held in memory as sequences of documents in insertion order. A query
 * without `orderBy` takes its first match in that order.
 */
module Firebase {
  import opened Wrappers
  import opened Js
  import opened Text
  import opened Seqs

  /** A `users` document with its id: `{ id, username, email, password }`, the password already hashed. */
  datatype User = User(id: string, username: string, email: string, password: string)

  /** A stored time field: a Firestore `Timestamp`, or any other value another writer left. */
  datatype Stamp = Timestamp(ms: int) | Plain(v: JsValue)

  /** The fields of a `workouts` document (`kind` is the `type` field); a missing field is `Undefined`. */
  datatype WorkoutData = WorkoutData(
    userId: JsValue,
    kind: JsValue,
    duration: JsValue,
    calories: JsValue,
    date: Stamp,
    createdAt: Stamp)

  datatype WorkoutDoc = WorkoutDoc(id: string, data: WorkoutData)

  /** A time field as sent to clients: the ISO text of a timestamp (kept as its milliseconds), or the raw value. */
  datatype TimeText = Iso(ms: int) | Raw(v: JsValue)

  /** A workout as returned to clients (`formatWorkoutDoc`). */
  datatype Workout = Workout(
    id: string,
    kind: JsValue,
    duration: Option<Number>,
    calories: Option<Number>,
    userId: JsValue,
    date: TimeText,
    createdAt: TimeText)

  /** The `workoutData` argument of `addWorkout`. */
  datatype WorkoutInput = WorkoutInput(kind: JsValue, duration: JsValue, calories: JsValue, date: JsValue)

  /** The default `limit` of `getLimitedRecentWorkouts`. */
  const DefaultLimit: nat := 3

  /** The earliest instant a Firestore `Timestamp` holds, 0001-01-01T00:00:00Z, in milliseconds. */
  const MinTimestampMs: int := -62135596800000

  /** The latest instant a Firestore `Timestamp` holds at millisecond precision, 9999-12-31T23:59:59.999Z. */
  const MaxTimestampMs: int := 253402300799999

  /** `Timestamp.fromDate` accepts the instant; outside this range it throws. */
  predicate Representable(ms: int) {
    MinTimestampMs <= ms <= MaxTimestampMs
  }

  /* ---------------- users ---------------- */

  function UserIds(users: seq<User>): set<string> {
    set u | u in users :: u.id
  }

  /** The first user satisfying `p`, as a `where(...).limit(1)` query returns it. */
  function FirstUser(users: seq<User>, p: User -> bool): (r: Option<User>)
    ensures r.Some? ==> p(r.value) && r.value in users
    ensures r.None? ==> forall u :: u in users ==> !p(u)
    ensures forall j :: 0 <= j < |users| && p(users[j]) ==> r.Some? && r.value in users[..j + 1]
  {
    var i := FindFirst(users, p);
    if i < |users| then
      assert forall j :: 0 <= j < |users| && p(users[j]) ==> users[i] == users[..j + 1][i];
      Some(users[i])
    else
      assert forall u :: u in users ==> exists j :: 0 <= j < |users| && users[j] == u;
      None
  }

  /** `getUserByUsername`: the first user with that username, or null. */
  function UserByUsername(users: seq<User>, username: string): (r: Option<User>)
    ensures r.Some? ==> r.value.username == username && r.value in users
    ensures r.None? <==> forall u :: u in users ==> u.username != username
    ensures forall j :: 0 <= j < |users| && users[j].username == username ==> r.Some? && r.value in users[..j + 1]
  {
    FirstUser(users, (u: User) => u.username == username)
  }

  /** `getUserByEmail`: the first user with that email, or null. */
  function UserByEmail(users: seq<User>, email: string): (r: Option<User>)
    ensures r.Some? ==> r.value.email == email && r.value in users
    ensures r.None? <==> forall u :: u in users ==> u.email != email
    ensures forall j :: 0 <= j < |users| && users[j].email == email ==> r.Some? && r.value in users[..j + 1]
  {
    FirstUser(users, (u: User) => u.email == email)
  }

  /** `getUserByUsernameOrEmail`: a username match wins; only without one is the email consulted. */
  function UserByUsernameOrEmail(users: seq<User>, value: string): (r: Option<User>)
    ensures r.Some? ==> r.value in users && (r.value.username == value || r.value.email == value)
    ensures r.None? <==> forall u :: u in users ==> u.username != value && u.email != value
    ensures (exists u :: u in users && u.username == value) ==> r == UserByUsername(users, value) && r.value.username == value
    ensures (forall u :: u in users ==> u.username != value) ==> r == UserByEmail(users, value)
  {
    var user := UserByUsername(users, value);
    if user.Some? then user else UserByEmail(users, value)
  }

  /** A new user is found by its username once no earlier user has that username. */
  lemma CreatedUserFound(users: seq<User>, user: User)
    requires UserByUsername(users, user.username).None?
    ensures UserByUsername(users + [user], user.username) == Some(user)
    ensures UserByUsernameOrEmail(users + [user], user.username) == Some(user)
  {
  }

  /* ---------------- workouts ---------------- */

  function WorkoutIds(ws: seq<WorkoutDoc>): set<string> {
    set d | d in ws :: d.id
  }

  /** No two documents share an id. */
  predicate DistinctIds(ws: seq<WorkoutDoc>) {
    forall i, j :: 0 <= i < j < |ws| ==> ws[i].id != ws[j].id
  }

  /** `x || null` and `toDate().toISOString()` applied to a stored time field. */
  function FormatTime(s: Stamp): TimeText {
    match s
    case Timestamp(ms) => Iso(ms)
    case Plain(v) => Raw(if Truthy(v) then v else Null)
  }

  /** `formatWorkoutDoc`: defaults for missing fields and plain numbers or null for the numeric ones. */
  function FormatWorkoutDoc(rt: Runtime, d: WorkoutDoc): (w: Workout)
    ensures w.id == d.id
    ensures Truthy(d.data.kind) ==> w.kind == d.data.kind
    ensures !Truthy(d.data.kind) ==> w.kind == Str("")
    ensures w.duration.None? <==> Nullish(d.data.duration)
    ensures w.calories.None? <==> Nullish(d.data.calories)
    ensures d.data.duration.Num? ==> w.duration == Some(d.data.duration.n)
    ensures d.data.calories.Num? ==> w.calories == Some(d.data.calories.n)
    ensures w.userId == Null <==> !Truthy(d.data.userId)
    ensures Truthy(d.data.userId) ==> w.userId == d.data.userId
    ensures d.data.date.Timestamp? ==> w.date == Iso(d.data.date.ms)
    ensures d.data.createdAt.Timestamp? ==> w.createdAt == Iso(d.data.createdAt.ms)
  {
    Workout(
      d.id,
      if Truthy(d.data.kind) then d.data.kind else Str(""),
      NumberOrNull(rt, d.data.duration),
      NumberOrNull(rt, d.data.calories),
      if Truthy(d.data.userId) then d.data.userId else Null,
      FormatTime(d.data.date),
      FormatTime(d.data.createdAt))
  }

  /** `workoutData.date && !isNaN(Date.parse(workoutData.date))`, with the parsed time. */
  function ParsedDate(rt: Runtime, v: JsValue): Option<int> {
    if v.Str? && v.s != "" then rt.parseDate(v.s) else None
  }

  /** `Date.parse` accepts the `date` text but `Timestamp.fromDate` throws on it, before anything is written. */
  predicate UnstorableDate(rt: Runtime, v: JsValue) {
    ParsedDate(rt, v).Some? && !Representable(ParsedDate(rt, v).value)
  }

  /** The document `addWorkout` writes: `now` is `Timestamp.now()`, `serverNow` the server timestamp. */
  function NewWorkoutDoc(rt: Runtime, userId: string, input: WorkoutInput, now: int, serverNow: int, id: string): WorkoutDoc {
    WorkoutDoc(id, WorkoutData(
      Str(userId),
      if Truthy(input.kind) then input.kind else Str(""),
      NumberValue(NumberOrNull(rt, input.duration)),
      NumberValue(NumberOrNull(rt, input.calories)),
      Timestamp(ParsedDate(rt, input.date).GetOr(now)),
      Timestamp(serverNow)))
  }

  /**
   * What `addWorkout` returns, read back from the document it wrote: the
   * parsed date or the current time, `''` for a missing type, null for a
   * null or absent duration or calories and their numeric value otherwise.
   */
  lemma AddedWorkoutReadBack(rt: Runtime, userId: string, input: WorkoutInput, now: int, serverNow: int, id: string)
    ensures var w := FormatWorkoutDoc(rt, NewWorkoutDoc(rt, userId, input, now, serverNow, id));
      && w.id == id
      && (userId != "" ==> w.userId == Str(userId))
      && w.kind == (if Truthy(input.kind) then input.kind else Str(""))
      && w.duration == NumberOrNull(rt, input.duration)
      && w.calories == NumberOrNull(rt, input.calories)
      && w.date == Iso(if ParsedDate(rt, input.date).Some? then ParsedDate(rt, input.date).value else now)
      && w.createdAt == Iso(serverNow)
  {
  }

  /** A document the per-user queries see: `where('userId', '==', userId)` with a timestamp to order by. */
  predicate OwnedBy(d: WorkoutDoc, userId: string) {
    d.data.userId == Str(userId) && d.data.date.Timestamp?
  }

  /** The `date` a query orders by. */
  function DateKey(d: WorkoutDoc): int {
    if d.data.date.Timestamp? then d.data.date.ms else 0
  }

  /** The time of a returned workout. */
  function WorkoutTime(w: Workout): int {
    if w.date.Iso? then w.date.ms else 0
  }

  function Format(rt: Runtime, ds: seq<WorkoutDoc>): seq<Workout> {
    Map(d => FormatWorkoutDoc(rt, d), ds)
  }

  /**
   * A Firestore query over timestamped documents: the documents satisfying
   * `p`, ordered by date, formatted. Exactly one workout per matching
   * document, in order.
   */
  function Query(rt: Runtime, ws: seq<WorkoutDoc>, p: WorkoutDoc -> bool, descending: bool): (r: seq<Workout>)
    requires forall d :: p(d) ==> d.data.date.Timestamp?
    ensures |r| == |Filter(ws, p)|
    ensures forall i :: 0 <= i < |r| ==>
      r[i].date.Iso? && exists d :: d in ws && p(d) && r[i] == FormatWorkoutDoc(rt, d)
    ensures forall i, j :: 0 <= i < j < |r| ==> InOrder(WorkoutTime(r[i]), WorkoutTime(r[j]), descending)
    ensures forall d :: d in ws && p(d) ==> FormatWorkoutDoc(rt, d) in r
  {
    var src := Filter(ws, p);
    var ds := Sort(src, DateKey, descending);
    QueryFacts(rt, ws, p, src, ds, descending);
    Format(rt, ds)
  }

  lemma QueryFacts(rt: Runtime, ws: seq<WorkoutDoc>, p: WorkoutDoc -> bool, src: seq<WorkoutDoc>, ds: seq<WorkoutDoc>, descending: bool)
    requires forall d :: p(d) ==> d.data.date.Timestamp?
    requires src == Filter(ws, p)
    requires multiset(ds) == multiset(src)
    requires Ordered(ds, DateKey, descending)
    ensures var r := Format(rt, ds);
      && |r| == |src|
      && (forall i :: 0 <= i < |r| ==> r[i].date.Iso? && ds[i] in ws && p(ds[i]) && r[i] == FormatWorkoutDoc(rt, ds[i]))
      && (forall i, j :: 0 <= i < j < |r| ==> InOrder(WorkoutTime(r[i]), WorkoutTime(r[j]), descending))
      && (forall d :: d in ws && p(d) ==> FormatWorkoutDoc(rt, d) in r)
  {
  }

  /**
   * `getWorkoutsByUser`: exactly the user's workouts, one per document,
   * most recent first (the order among equal dates is not specified).
   */
  function WorkoutsByUser(rt: Runtime, ws: seq<WorkoutDoc>, userId: string): (r: seq<Workout>)
    ensures |r| == |Filter(ws, d => OwnedBy(d, userId))|
    ensures forall i :: 0 <= i < |r| ==>
      r[i].date.Iso? && exists d :: d in ws && OwnedBy(d, userId) && r[i] == FormatWorkoutDoc(rt, d)
    ensures forall i :: 0 <= i < |r| && userId != "" ==> r[i].userId == Str(userId)
    ensures forall i, j :: 0 <= i < j < |r| ==> WorkoutTime(r[j]) <= WorkoutTime(r[i])
    ensures forall d :: d in ws && OwnedBy(d, userId) ==> FormatWorkoutDoc(rt, d) in r
  {
    Query(rt, ws, d => OwnedBy(d, userId), true)
  }

  /**
   * `getLimitedRecentWorkouts`: the first `limit` (default 3) workouts of
   * `getWorkoutsByUser`, so none of the user's other workouts is more recent.
   */
  function LimitedRecentWorkouts(rt: Runtime, ws: seq<WorkoutDoc>, userId: string, limit: Option<nat>): (r: seq<Workout>)
    ensures var all := WorkoutsByUser(rt, ws, userId);
      var k := limit.GetOr(DefaultLimit);
      r == all[..if k < |all| then k else |all|]
    ensures |r| <= limit.GetOr(DefaultLimit)
    ensures forall i, d :: 0 <= i < |r| && d in ws && OwnedBy(d, userId) && FormatWorkoutDoc(rt, d) !in r ==>
      DateKey(d) <= WorkoutTime(r[i])
  {
    var all := WorkoutsByUser(rt, ws, userId);
    var k := limit.GetOr(DefaultLimit);
    var n := if k < |all| then k else |all|;
    TopOfQuery(rt, ws, userId, n);
    all[..n]
  }

  /** A prefix of the descending list holds every workout that is more recent than something left out. */
  lemma TopOfQuery(rt: Runtime, ws: seq<WorkoutDoc>, userId: string, n: nat)
    requires n <= |WorkoutsByUser(rt, ws, userId)|
    ensures var all := WorkoutsByUser(rt, ws, userId);
      forall i, d :: 0 <= i < n && d in ws && OwnedBy(d, userId) && FormatWorkoutDoc(rt, d) !in all[..n] ==>
        DateKey(d) <= WorkoutTime(all[..n][i])
  {
  }

  /** A calendar day `[start, end]` in milliseconds. */
  datatype Span = Span(start: int, end: int)

  /**
   * `new Date(y, m - 1, d, h, min, s, ms).getTime()` for the numbers `y`, `m`,
   * `d` of the three pieces: the month piece counts from 1, the constructor's
   * month from 0. None for an invalid date, which includes a NaN piece.
   */
  function LocalDayTime(rt: Runtime, parts: seq<string>, h: real, min: real, s: real, ms: real): (t: Option<int>)
    requires |parts| == 3
    ensures (exists i :: 0 <= i < 3 && ToNumber(rt, Str(parts[i])).NaN?) ==> t.None?
    ensures (forall i :: 0 <= i < 3 ==> ToNumber(rt, Str(parts[i])).Finite?) ==>
      t == rt.localTime(ToNumber(rt, Str(parts[0])).value, ToNumber(rt, Str(parts[1])).value - 1.0,
                        ToNumber(rt, Str(parts[2])).value, h, min, s, ms)
  {
    var y := ToNumber(rt, Str(parts[0]));
    var m := ToNumber(rt, Str(parts[1]));
    var d := ToNumber(rt, Str(parts[2]));
    if y.NaN? || m.NaN? || d.NaN? then None
    else rt.localTime(y.value, m.value - 1.0, d.value, h, min, s, ms)
  }

  /**
   * The bounds `getWorkoutsByUserAndDate` computes from the three pieces of
   * the date, from 00:00:00.000 to 23:59:59.999 local time, both included;
   * None when `Timestamp.fromDate` throws on either: a piece that is not a
   * number, an invalid date, or an instant outside the timestamp range.
   */
  function DayBounds(rt: Runtime, parts: seq<string>): (r: Option<Span>)
    requires |parts| == 3
    ensures (exists i :: 0 <= i < 3 && ToNumber(rt, Str(parts[i])).NaN?) ==> r.None?
    ensures var start, end := LocalDayTime(rt, parts, 0.0, 0.0, 0.0, 0.0), LocalDayTime(rt, parts, 23.0, 59.0, 59.0, 999.0);
      && (r.Some? <==> start.Some? && end.Some? && Representable(start.value) && Representable(end.value))
      && (r.Some? ==> r.value == Span(start.value, end.value))
  {
    var start := LocalDayTime(rt, parts, 0.0, 0.0, 0.0, 0.0);
    var end := LocalDayTime(rt, parts, 23.0, 59.0, 59.0, 999.0);
    if start.None? || end.None? || !Representable(start.value) || !Representable(end.value) then None
    else Some(Span(start.value, end.value))
  }

  /** A document of the user dated within the day, both ends included. */
  predicate OnDay(d: WorkoutDoc, userId: string, day: Span) {
    OwnedBy(d, userId) && day.start <= DateKey(d) <= day.end
  }

  /**
   * `getWorkoutsByUserAndDate`: `[]` unless the text splits into exactly
   * three `-`-separated pieces (whether they are numeric is not checked
   * there); a failure when the pieces do not make a valid date; otherwise
   * exactly the user's workouts of that day, both ends included, earliest
   * first.
   */
  function WorkoutsByUserAndDate(rt: Runtime, ws: seq<WorkoutDoc>, userId: string, dateStr: string): (r: Result<seq<Workout>>)
    ensures |Split(dateStr, '-')| != 3 ==> r == Success([])
    ensures |Split(dateStr, '-')| == 3 ==> (r.Failure? <==> DayBounds(rt, Split(dateStr, '-')).None?)
    ensures r.Success? && |Split(dateStr, '-')| == 3 ==>
      var day := DayBounds(rt, Split(dateStr, '-')).value;
      && |r.value| == |Filter(ws, d => OnDay(d, userId, day))|
      && (forall i :: 0 <= i < |r.value| ==> r.value[i].date.Iso? && day.start <= WorkoutTime(r.value[i]) <= day.end)
      && (forall i, j :: 0 <= i < j < |r.value| ==> WorkoutTime(r.value[i]) <= WorkoutTime(r.value[j]))
      && (forall d :: d in ws && OnDay(d, userId, day) ==> FormatWorkoutDoc(rt, d) in r.value)
      && (forall w :: w in r.value ==> exists d :: d in ws && OnDay(d, userId, day) && w == FormatWorkoutDoc(rt, d))
  {
    var parts := Split(dateStr, '-');
    if |parts| != 3 then Success([])
    else
      match DayBounds(rt, parts)
      case None => Failure
      case Some(day) => Success(Query(rt, ws, d => OnDay(d, userId, day), false))
  }

  /** A date text without any `-` never reaches the query. */
  lemma UndashedDateIsEmpty(rt: Runtime, ws: seq<WorkoutDoc>, userId: string, dateStr: string)
    requires '-' !in dateStr
    ensures WorkoutsByUserAndDate(rt, ws, userId, dateStr) == Success([])
  {
    SplitWithoutSeparator(dateStr, '-');
  }

  /**
   * A date such as `"not-a-date"` passes the piece count: with `Number("not")`
   * NaN the date is invalid, the query throws and the route answers 500
   * instead of returning `[]`.
   */
  lemma NotADateFails(rt: Runtime, ws: seq<WorkoutDoc>, userId: string, y: string, m: string, d: string)
    requires '-' !in y && '-' !in m && '-' !in d
    requires rt.parseNumber(y).NaN?
    ensures WorkoutsByUserAndDate(rt, ws, userId, y + "-" + m + "-" + d).Failure?
  {
    DatePieces(y, m, d);
    NonNumericDateFails(rt, ws, userId, y + "-" + m + "-" + d, 0);
  }

  /** Three pieces of which one is not a number make the query fail rather than return `[]`. */
  lemma NonNumericDateFails(rt: Runtime, ws: seq<WorkoutDoc>, userId: string, dateStr: string, i: nat)
    requires |Split(dateStr, '-')| == 3 && i < 3
    requires ToNumber(rt, Str(Split(dateStr, '-')[i])).NaN?
    ensures WorkoutsByUserAndDate(rt, ws, userId, dateStr).Failure?
  {
  }

  /** `dateStr.split('-')` on three dash-free pieces joined by dashes gives those pieces back. */
  lemma DatePieces(y: string, m: string, d: string)
    requires '-' !in y && '-' !in m && '-' !in d
    ensures Split(y + "-" + m + "-" + d, '-') == [y, m, d]
  {
    SplitWithoutSeparator(d, '-');
    assert m + "-" + d == m + ['-'] + d;
    SplitAfterField(m, '-', d);
    assert y + "-" + m + "-" + d == y + ['-'] + (m + "-" + d);
    SplitAfterField(y, '-', m + "-" + d);
  }

  /** `deleteWorkout`'s effect: every document with that id goes, whoever owns it, and nothing else. */
  function RemoveById(ws: seq<WorkoutDoc>, id: string): (r: seq<WorkoutDoc>)
    ensures forall d :: d in r <==> d in ws && d.id != id
    ensures forall d: WorkoutDoc :: d.id != id ==> multiset(r)[d] == multiset(ws)[d]
    ensures id !in WorkoutIds(r)
  {
    var r := Filter(ws, (d: WorkoutDoc) => d.id != id);
    assert forall d :: d in r <==> d in multiset(r);
    r
  }

  /** With distinct ids, deleting an id that is present removes exactly one document. */
  lemma RemoveByIdCount(ws: seq<WorkoutDoc>, id: string)
    requires DistinctIds(ws)
    ensures |RemoveById(ws, id)| == if id in WorkoutIds(ws) then |ws| - 1 else |ws|
  {
    var p := (d: WorkoutDoc) => d.id != id;
    assert RemoveById(ws, id) == Filter(ws, p);
    if id in WorkoutIds(ws) {
      var k :| 0 <= k < |ws| && ws[k].id == id;
      FilterDropsOne(ws, p, k);
    } else {
      assert forall j :: 0 <= j < |ws| ==> ws[j] in ws;
      FilterKeepsAll(ws, p);
    }
  }

  /** The two collections, updated in place by the write operations. */
  class Store {
    var users: seq<User>
    var workouts: seq<WorkoutDoc>

    /** Document ids are unique within each collection. */
    ghost predicate Valid()
      reads this
    {
      (forall i, j :: 0 <= i < j < |users| ==> users[i].id != users[j].id) &&
      DistinctIds(workouts)
    }

    constructor ()
      ensures Valid() && users == [] && workouts == []
    {
      users := [];
      workouts := [];
    }

    /** `createUser`: appends one user under the fresh id Firestore assigns and returns it. */
    method CreateUser(username: string, email: string, password: string, id: string) returns (user: User)
      requires Valid() && id !in UserIds(users)
      modifies this
      ensures Valid()
      ensures user == User(id, username, email, password)
      ensures users == old(users) + [user] && workouts == old(workouts)
    {
      user := User(id, username, email, password);
      assert forall i :: 0 <= i < |users| ==> users[i] in users;
      users := users + [user];
    }

    /**
     * `addWorkout`: appends the normalised document under a fresh id and
     * returns it formatted, or throws (None) without writing when the date
     * parses to an instant a timestamp cannot hold.
     */
    method AddWorkout(rt: Runtime, userId: string, input: WorkoutInput, now: int, serverNow: int, id: string)
      returns (w: Option<Workout>)
      requires Valid() && id !in WorkoutIds(workouts)
      modifies this
      ensures Valid()
      ensures w.None? <==> UnstorableDate(rt, input.date)
      ensures workouts ==
        if w.None? then old(workouts) else old(workouts) + [NewWorkoutDoc(rt, userId, input, now, serverNow, id)]
      ensures users == old(users)
      ensures w.Some? ==> w.value == FormatWorkoutDoc(rt, NewWorkoutDoc(rt, userId, input, now, serverNow, id))
    {
      if UnstorableDate(rt, input.date) {
        return None;
      }
      var doc := NewWorkoutDoc(rt, userId, input, now, serverNow, id);
      assert forall i :: 0 <= i < |workouts| ==> workouts[i] in workouts;
      workouts := workouts + [doc];
      w := Some(FormatWorkoutDoc(rt, doc));
    }

    /** `deleteWorkout`: removes the document with that id, with no check of its owner, and returns true. */
    method DeleteWorkout(id: string) returns (ok: bool)
      requires Valid()
      modifies this
      ensures Valid() && ok
      ensures workouts == RemoveById(old(workouts), id)
      ensures users == old(users)
    {
      RemoveKeepsDistinct(workouts, id);
      workouts := RemoveById(workouts, id);
      ok := true;
    }
  }

  /** Removing documents keeps the remaining ids distinct. */
  lemma RemoveKeepsDistinct(ws: seq<WorkoutDoc>, id: string)
    requires DistinctIds(ws)
    ensures DistinctIds(RemoveById(ws, id))
  {
    var p := (d: WorkoutDoc) => d.id != id;
    assert RemoveById(ws, id) == Filter(ws, p);
    FilterKeepsDistinct(ws, p);
  }

  /** Keeping only some documents cannot make two ids equal. */
  lemma {:induction false} FilterKeepsDistinct(ws: seq<WorkoutDoc>, p: WorkoutDoc -> bool)
    requires DistinctIds(ws)
    ensures DistinctIds(Filter(ws, p))
  {
    if |ws| > 0 {
      var rest := Filter(ws[1..], p);
      assert DistinctIds(ws[1..]);
      FilterKeepsDistinct(ws[1..], p);
      if p(ws[0]) {
        assert Filter(ws, p) == [ws[0]] + rest;
        forall d | d in rest
          ensures d.id != ws[0].id
        {
          var m :| 0 <= m < |ws[1..]| && ws[1..][m] == d;
          assert ws[m + 1] == d;
        }
        ConsDistinct(ws[0], rest);
      } else {
        assert Filter(ws, p) == rest;
      }
    }
  }

  /** A document whose id no other document has can go in front. */
  lemma ConsDistinct(d: WorkoutDoc, ws: seq<WorkoutDoc>)
    requires DistinctIds(ws)
    requires forall e :: e in ws ==> e.id != d.id
    ensures DistinctIds([d] + ws)
  {
    forall i, j | 0 <= i < j < |[d] + ws|
      ensures ([d] + ws)[i].id != ([d] + ws)[j].id
    {
      if i == 0 {
        assert ([d] + ws)[j] == ws[j - 1];
      } else {
        assert ([d] + ws)[i] == ws[i - 1];
        assert ([d] + ws)[j] == ws[j - 1];
      }
    }
  }
}
