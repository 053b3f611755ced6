/** Optional values, the service's error taxonomy, results and the time constants
    the services use (all times are milliseconds since the epoch, as a JavaScript
    `Date.getTime()` gives them). */
module Base {

  datatype Option<+T> = None | Some(value: T)

  /** The exceptions the services throw. `RecordNotFound` stands for the error the
      database client raises when an update or a delete finds no row to act on. */
  datatype Error =
    | Conflict(message: string)
    | Unauthorized(message: string)
    | NotFound(message: string)
    | InternalServerError(message: string)
    | RecordNotFound

  datatype Result<+T> = Ok(value: T) | Err(error: Error)

  const Second: int := 1000
  const Minute: int := 60 * Second
  const Hour: int := 60 * Minute
  const Day: int := 24 * Hour

  /** Lifetime of an email-verification request (`fortyFiveMinutesFromNow`). */
  const EmailVerificationTtl: int := 45 * Minute
  /** Lifetime of a password-reset request (`anHourFromNow`). */
  const PasswordResetTtl: int := Hour
  /** Lifetime of a session row (`thirtyDaysFromNow`). */
  const SessionTtl: int := 30 * Day
  /** Trailing window of the password-reset rate limiter (`threeMinutesAgo`). */
  const ResetWindow: int := 3 * Minute
  /** Password-reset requests allowed inside the window. */
  const MaxResetAttempts: int := 2
}
