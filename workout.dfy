/**
 * The `/api/workouts` router. The POST and GET handlers check the caller
 * and their input; DELETE checks only the id. Each then makes at most one
 * store call. `fault` says that store call throws, which the handler's
 * `catch` turns into a 500.
 */
module WorkoutRoutes {
  import opened Wrappers
  import opened Js
  import opened Text
  import opened Tokens
  import opened Firebase
  import opened Http

  const Unauthorized: string := "Unauthorized"
  const TypeAndDurationRequired: string := "Please provide type and duration (minutes)."
  const WorkoutSaved: string := "Workout added"
  const DateRequired: string := "Date query parameter is required"
  const MissingId: string := "Missing id"
  const WorkoutDeleted: string := "Workout deleted successfully"

  /** How many workouts `GET /recent` asks for. */
  const RecentCount: nat := 3

  /** `req.user && req.user.userId`, when truthy. */
  function CallerId(user: Option<Claims>): (id: Option<string>)
    ensures id.Some? <==> user.Some? && user.value.userId != ""
    ensures id.Some? ==> id.value == user.value.userId
  {
    if user.Some? && user.value.userId != "" then Some(user.value.userId) else None
  }

  /** `x != null ? Number(x) : null` applied to `duration` and `calories` of the body. */
  function Coerce(rt: Runtime, body: WorkoutInput): (input: WorkoutInput)
    ensures input.kind == body.kind && input.date == body.date
    ensures Nullish(body.duration) <==> input.duration == Null
    ensures Nullish(body.calories) <==> input.calories == Null
    ensures !Nullish(body.duration) ==> input.duration == Num(ToNumber(rt, body.duration))
    ensures !Nullish(body.calories) ==> input.calories == Num(ToNumber(rt, body.calories))
    ensures input.duration.Num? || input.duration.Null?
    ensures input.calories.Num? || input.calories.Null?
  {
    body.(duration := NumberValue(NumberOrNull(rt, body.duration)),
          calories := NumberValue(NumberOrNull(rt, body.calories)))
  }

  /** `!type || !duration || isNaN(duration)` on the coerced body. */
  predicate Rejected(rt: Runtime, body: WorkoutInput) {
    var duration := Coerce(rt, body).duration;
    !Truthy(body.kind) || !Truthy(duration) || (duration.Num? && duration.n.NaN?)
  }

  /**
   * The add-workout check in plain terms: the type must be truthy and the
   * duration must be present and a number other than 0; a negative duration
   * passes.
   */
  lemma RejectedExactly(rt: Runtime, body: WorkoutInput)
    ensures Rejected(rt, body) <==>
      !Truthy(body.kind) || Nullish(body.duration) ||
      ToNumber(rt, body.duration).NaN? || ToNumber(rt, body.duration) == Finite(0.0)
    ensures (Truthy(body.kind) && !Nullish(body.duration) && ToNumber(rt, body.duration).Finite? &&
             ToNumber(rt, body.duration).value < 0.0) ==> !Rejected(rt, body)
  {
  }

  /**
   * `POST /`: validates, then adds the workout under the caller's id. The
   * add throws when the store call fails (`fault`) or when the date parses
   * to an instant a timestamp cannot hold.
   */
  method PostWorkout(store: Store, rt: Runtime, user: Option<Claims>, body: WorkoutInput,
                     now: int, serverNow: int, freshId: string, fault: bool)
    returns (r: Response)
    requires store.Valid() && freshId !in WorkoutIds(store.workouts)
    modifies store
    ensures store.Valid() && store.users == old(store.users)
    ensures CallerId(user).None? ==> r == Response(401, Message(Unauthorized))
    ensures CallerId(user).Some? && Rejected(rt, body) ==> r == Response(400, Message(TypeAndDurationRequired))
    ensures CallerId(user).Some? && !Rejected(rt, body) && (fault || UnstorableDate(rt, body.date)) ==> r == InternalError
    ensures store.workouts ==
      if CallerId(user).Some? && !Rejected(rt, body) && !fault && !UnstorableDate(rt, body.date)
      then old(store.workouts) + [NewWorkoutDoc(rt, CallerId(user).value, Coerce(rt, body), now, serverNow, freshId)]
      else old(store.workouts)
    ensures r.status == 201 <==> CallerId(user).Some? && !Rejected(rt, body) && !fault && !UnstorableDate(rt, body.date)
    ensures r.status == 201 ==>
      r.body == Added(WorkoutSaved, FormatWorkoutDoc(rt, store.workouts[|store.workouts| - 1]))
  {
    var caller := CallerId(user);
    if caller.None? {
      return Response(401, Message(Unauthorized));
    }
    var input := Coerce(rt, body);
    if Rejected(rt, body) {
      return Response(400, Message(TypeAndDurationRequired));
    }
    if fault {
      return InternalError;
    }
    var workout := store.AddWorkout(rt, caller.value, input, now, serverNow, freshId);
    if workout.None? {
      return InternalError;
    }
    return Response(201, Added(WorkoutSaved, workout.value));
  }

  /** A valid body stores the coerced numbers: `{type: 'run', duration: 30}` comes back with duration 30 and null calories. */
  lemma RunExample(rt: Runtime, userId: string, now: int, serverNow: int, id: string)
    ensures var body := WorkoutInput(Str("run"), Num(Finite(30.0)), Undefined, Undefined);
      && !Rejected(rt, body) && !UnstorableDate(rt, body.date)
      && var w := FormatWorkoutDoc(rt, NewWorkoutDoc(rt, userId, Coerce(rt, body), now, serverNow, id));
      && w.kind == Str("run") && w.duration == Some(Finite(30.0)) && w.calories.None? && w.date == Iso(now)
  {
  }

  /** `GET /`: every workout of the caller, most recent first. */
  function ListWorkouts(rt: Runtime, ws: seq<WorkoutDoc>, user: Option<Claims>, fault: bool): (r: Response)
    ensures CallerId(user).None? ==> r == Response(401, Message(Unauthorized))
    ensures CallerId(user).Some? && fault ==> r == InternalError
    ensures CallerId(user).Some? && !fault ==> r == Response(200, WorkoutList(WorkoutsByUser(rt, ws, CallerId(user).value)))
    ensures r.status == 200 ==> forall i :: 0 <= i < |r.body.workouts| ==> r.body.workouts[i].userId == Str(user.value.userId)
  {
    match CallerId(user)
    case None => Response(401, Message(Unauthorized))
    case Some(userId) =>
      if fault then InternalError else Response(200, WorkoutList(WorkoutsByUser(rt, ws, userId)))
  }

  /** `GET /recent`: the caller's three most recent workouts at most. */
  function RecentWorkouts(rt: Runtime, ws: seq<WorkoutDoc>, user: Option<Claims>, fault: bool): (r: Response)
    ensures CallerId(user).None? ==> r == Response(401, Message(Unauthorized))
    ensures CallerId(user).Some? && fault ==> r == InternalError
    ensures CallerId(user).Some? && !fault ==>
      r == Response(200, WorkoutList(LimitedRecentWorkouts(rt, ws, CallerId(user).value, Some(RecentCount))))
    ensures r.status == 200 ==> |r.body.workouts| <= 3
  {
    match CallerId(user)
    case None => Response(401, Message(Unauthorized))
    case Some(userId) =>
      if fault then InternalError
      else Response(200, WorkoutList(LimitedRecentWorkouts(rt, ws, userId, Some(RecentCount))))
  }

  /**
   * `GET /by-date?date=...`: the caller's workouts of one day. A date
   * without three `-`-separated pieces answers `[]` before the store is
   * reached, so `fault` cannot affect it; an invalid day throws before the
   * query runs.
   */
  function WorkoutsOnDate(rt: Runtime, ws: seq<WorkoutDoc>, user: Option<Claims>, date: Option<string>, fault: bool)
    : (r: Response)
    ensures CallerId(user).None? ==> r == Response(401, Message(Unauthorized))
    ensures CallerId(user).Some? && (date.None? || date.value == "") ==> r == Response(400, Message(DateRequired))
    ensures CallerId(user).Some? && date.Some? && date.value != "" && |Split(date.value, '-')| != 3 ==>
      r == Response(200, WorkoutList([]))
    ensures CallerId(user).Some? && date.Some? && date.value != "" && |Split(date.value, '-')| == 3 ==>
      match WorkoutsByUserAndDate(rt, ws, CallerId(user).value, date.value)
      case Success(found) => r == if fault then InternalError else Response(200, WorkoutList(found))
      case Failure => r == InternalError
  {
    match CallerId(user)
    case None => Response(401, Message(Unauthorized))
    case Some(userId) =>
      if date.None? || date.value == "" then Response(400, Message(DateRequired))
      else
        match WorkoutsByUserAndDate(rt, ws, userId, date.value)
        case Failure => InternalError
        case Success(found) =>
          if fault && |Split(date.value, '-')| == 3 then InternalError else Response(200, WorkoutList(found))
  }

  /** `?date=20240101`, or any date without a dash, lists nothing with 200 even when the store would throw. */
  lemma UndashedDateAnswersEmpty(rt: Runtime, ws: seq<WorkoutDoc>, user: Option<Claims>, date: string, fault: bool)
    requires CallerId(user).Some? && date != "" && '-' !in date
    ensures WorkoutsOnDate(rt, ws, user, Some(date), fault) == Response(200, WorkoutList([]))
  {
    SplitWithoutSeparator(date, '-');
  }

  /** `DELETE /:id`: deletes by id alone; the caller's identity is never compared with the owner. */
  method DeleteWorkoutById(store: Store, id: string, fault: bool) returns (r: Response)
    requires store.Valid()
    modifies store
    ensures store.Valid() && store.users == old(store.users)
    ensures id == "" ==> r == Response(400, Message(MissingId))
    ensures id != "" && fault ==> r == InternalError
    ensures id != "" && !fault ==> r == Response(200, Message(WorkoutDeleted))
    ensures store.workouts == if id != "" && !fault then RemoveById(old(store.workouts), id) else old(store.workouts)
  {
    if id == "" {
      return Response(400, Message(MissingId));
    }
    if fault {
      return InternalError;
    }
    var _ := store.DeleteWorkout(id);
    return Response(200, Message(WorkoutDeleted));
  }
}
