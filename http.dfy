/** The JSON responses the route handlers send: a status code and a body. */
module Http {
  import opened Firebase

  datatype Body =
    | Message(message: string)
    | SignedUp(message: string, token: string, username: string)
    | LoggedIn(token: string, username: string)
    | Added(message: string, workout: Workout)
    | WorkoutList(workouts: seq<Workout>)

  datatype Response = Response(status: int, body: Body)

  /** What every handler's `catch` sends. */
  const InternalError: Response := Response(500, Message("Internal server error"))
}
