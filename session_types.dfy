/** The session record and the errors the store's operations throw
    (src/types/session.ts). */
module SessionTypes {
  import opened Wrappers

  /** The closed set of interval kinds (`type` in the source). */
  datatype SessionType = Focus | Break | Checkin | Cooloff

  /** One timed interval. Instants are integer milliseconds; `duration` is in
      seconds. `createdAt` is the server's creation instant, which the model
      takes from the same clock as `startTime`. */
  datatype Session = Session(
    id: string,
    startTime: int,
    duration: int,
    kind: SessionType,
    completed: bool,
    interrupted: bool,
    dismissed: bool,
    completedAt: Option<int>,
    createdAt: int)

  /** The error kinds the core surfaces to its callers. */
  datatype Error = Unauthenticated | InvalidArgument | Busy | LimitExceeded | NotFound
}
