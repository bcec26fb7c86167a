/** One job of the leased queue: what each service operation does to it. */
module A2AJobs {
  import opened Arithmetic
  import opened Options
  import opened Text

  /** Nanoseconds, as in the source's clock. */
  type Time = int

  const SECOND: Time := 1_000_000_000
  const HOUR: Time := 3600 * SECOND
  const DEFAULT_JOB_TTL: Time := 24 * HOUR
  const DEFAULT_CLAIM_LEASE_SECONDS := 120
  const MAX_CLAIM_LEASE_SECONDS := 600
  const DEFAULT_CLAIM_BATCH := 5
  const MAX_CLAIM_BATCH := 20
  const MAX_REDELIVERY := 10
  const CALLBACK_MAX_ATTEMPTS := 12
  const CALLBACK_RETRY_WINDOW: Time := 24 * HOUR
  const REQUEST_MAX_BYTES := 256 * 1024
  const LEASE_TIMEOUT_JSON := "{\"code\":\"LEASE_TIMEOUT\",\"message\":\"job exceeded maximum claim retries\"}"

  datatype JobStatus = Queued | Claimed | Succeeded | Failed | Expired | Cancelled

  datatype CallbackStatus = NoCallback | Pending | Retrying | Delivered | DeadLettered

  datatype Job = Job(
    fromPublicKey: string, toPublicKey: string,
    status: JobStatus,
    idempotencyKey: string,
    requestJSON: string, resultJSON: string, errorJSON: string,
    claimedBy: string, claimedAt: Option<Time>, leaseExpiresAt: Option<Time>,
    redelivery: int,
    callbackURL: string, callbackStatus: CallbackStatus, callbackAttempts: int,
    nextCallbackAt: Option<Time>, lastCallbackErr: string,
    createdAt: Time, updatedAt: Time, completedAt: Option<Time>, expiresAt: Time)

  /** Resolution of stored times: whole seconds on SQLite, finer elsewhere. */
  ghost predicate ValidTick(tick: Time) {
    tick > 0 && SECOND % tick == 0
  }

  /** A time as it is read back from the table: rounded down to the resolution. */
  function Stored(tick: Time, t: Time): (s: Time)
    requires tick > 0
    ensures s <= t < s + tick
  {
    t - t % tick
  }

  predicate Terminal(j: Job) {
    j.status == Succeeded || j.status == Failed || j.status == Expired
  }

  // ----- Submit

  function NewJob(tick: Time, now: Time, from: string, to: string, key: string, request: string, url: string): Job
    requires tick > 0
  {
    Job(from, to, Queued, key, request, "", "", "", None, None, 0,
        url, if url == "" then NoCallback else Pending, 0, None, "",
        Stored(tick, now), Stored(tick, now), None, Stored(tick, now + DEFAULT_JOB_TTL))
  }

  // ----- Cleanup

  predicate PastTTL(now: Time, j: Job) {
    (j.status == Queued || j.status == Claimed) && now > j.expiresAt
  }

  predicate LeaseLapsed(now: Time, j: Job) {
    j.status == Claimed && j.leaseExpiresAt.Some? && now > j.leaseExpiresAt.value
  }

  datatype CleanupAction = Expire | FailLease | Requeue | Keep

  function ActionFor(now: Time, j: Job): CleanupAction {
    if PastTTL(now, j) then Expire
    else if LeaseLapsed(now, j) then (if j.redelivery + 1 > MAX_REDELIVERY then FailLease else Requeue)
    else Keep
  }

  function CleanJob(tick: Time, now: Time, j: Job): Job
    requires tick > 0
  {
    match ActionFor(now, j)
    case Expire =>
      j.(status := Expired, updatedAt := Stored(tick, now), leaseExpiresAt := None, claimedBy := "")
    case FailLease =>
      var failed := j.(status := Failed, errorJSON := LEASE_TIMEOUT_JSON, claimedBy := "", leaseExpiresAt := None,
                       updatedAt := Stored(tick, now), completedAt := Some(Stored(tick, now)));
      if j.callbackURL != "" then
        failed.(callbackStatus := Pending, nextCallbackAt := Some(Stored(tick, now)))
      else failed
    case Requeue =>
      j.(status := Queued, claimedBy := "", leaseExpiresAt := None, redelivery := j.redelivery + 1,
         updatedAt := Stored(tick, now))
    case Keep => j
  }

  // ----- Claim and extend

  function ClampLease(seconds: int): (r: int)
    ensures 1 <= r <= MAX_CLAIM_LEASE_SECONDS
  {
    var s := if seconds <= 0 then DEFAULT_CLAIM_LEASE_SECONDS else seconds;
    if s > MAX_CLAIM_LEASE_SECONDS then MAX_CLAIM_LEASE_SECONDS else s
  }

  function ClampBatch(jobs: int): (r: nat)
    ensures 1 <= r <= MAX_CLAIM_BATCH
  {
    var n := if jobs <= 0 then DEFAULT_CLAIM_BATCH else jobs;
    if n > MAX_CLAIM_BATCH then MAX_CLAIM_BATCH else n
  }

  function LeaseEnd(tick: Time, now: Time, leaseSeconds: int): (e: Time)
    requires tick > 0
    ensures ValidTick(tick) ==> e >= now
  {
    StoredLease(tick, now, ClampLease(leaseSeconds));
    Stored(tick, now + ClampLease(leaseSeconds) * SECOND)
  }

  lemma StoredLease(tick: Time, now: Time, seconds: int)
    requires tick > 0 && seconds >= 1
    ensures ValidTick(tick) ==> Stored(tick, now + seconds * SECOND) >= now
  {
    if ValidTick(tick) {
      TickAtMostSecond(tick);
    }
  }

  lemma TickAtMostSecond(tick: Time)
    requires ValidTick(tick)
    ensures tick <= SECOND
  {
  }

  function ClaimJob(tick: Time, now: Time, who: string, leaseSeconds: int, j: Job): Job
    requires tick > 0
  {
    j.(status := Claimed, claimedBy := who, claimedAt := Some(Stored(tick, now)),
       leaseExpiresAt := Some(LeaseEnd(tick, now, leaseSeconds)), updatedAt := Stored(tick, now))
  }

  /** The caller holds an unexpired claim. */
  predicate HoldsLease(now: Time, who: string, j: Job) {
    && j.toPublicKey == who && j.status == Claimed && j.claimedBy == who
    && j.leaseExpiresAt.Some? && now <= j.leaseExpiresAt.value
  }

  function ExtendJob(tick: Time, now: Time, leaseSeconds: int, j: Job): Job
    requires tick > 0
  {
    j.(leaseExpiresAt := Some(LeaseEnd(tick, now, leaseSeconds)), updatedAt := Stored(tick, now))
  }

  // ----- Complete

  /** JSON text is never empty. */
  type JsonText = s: string | s != "" witness "{}"

  datatype Encoding = Unencodable | Json(text: JsonText)

  datatype ErrorPayload = ErrorPayload(message: string, encoding: Encoding)

  datatype ServiceError =
    | InvalidStatus | NotFound | Forbidden | InvalidState | LeaseExpired
    | CannotEncode | TooLarge | PayloadRequired | MessageRequired

  /** What the caller reports: a result map or an error payload, either of which may be missing. */
  datatype Report = Report(status: JobStatus, result: Option<Encoding>, error: Option<ErrorPayload>)

  datatype Checked = Accepted(blob: JsonText) | Rejected(error: ServiceError)

  function CheckBlob(e: Encoding): Checked {
    if e.Unencodable? then Rejected(CannotEncode)
    else if |e.text| > REQUEST_MAX_BYTES then Rejected(TooLarge)
    else Accepted(e.text)
  }

  function CheckReport(r: Report): Checked {
    if r.status == Succeeded then CheckBlob(if r.result.None? then Json("{}") else r.result.value)
    else if r.status != Failed then Rejected(InvalidStatus)
    else if r.error.None? then Rejected(PayloadRequired)
    else if TrimSpace(r.error.value.message) == "" then Rejected(MessageRequired)
    else CheckBlob(r.error.value.encoding)
  }

  function CompleteJob(tick: Time, now: Time, status: JobStatus, blob: JsonText, j: Job): Job
    requires tick > 0
  {
    var done := j.(status := status, completedAt := Some(Stored(tick, now)), updatedAt := Stored(tick, now),
                   leaseExpiresAt := None, claimedBy := "",
                   resultJSON := if status == Succeeded then blob else "",
                   errorJSON := if status == Succeeded then "" else blob);
    if j.callbackURL != "" then
      done.(callbackStatus := Pending, nextCallbackAt := Some(Stored(tick, now)), lastCallbackErr := "")
    else
      done.(callbackStatus := NoCallback, nextCallbackAt := None)
  }

  // ----- Callbacks

  predicate Due(now: Time, j: Job) {
    && (j.callbackStatus == Pending || j.callbackStatus == Retrying)
    && j.callbackURL != ""
    && (j.status == Succeeded || j.status == Failed)
    && (j.nextCallbackAt.Some? ==> now >= j.nextCallbackAt.value)
  }

  /** The delay before jitter. */
  function BackoffBase(attempt: int): (base: Time)
    ensures base >= SECOND
  {
    var exp := (if attempt < 1 then 1 else attempt) - 1;
    var base := SECOND * Pow2(if exp > 10 then 10 else exp);
    if base > 1800 * SECOND then 1800 * SECOND else base
  }

  /** `jitter` is the random draw; it is used only when the base leaves room for it. */
  method CallbackBackoff(attempt: int, jitter: Time) returns (delay: Time)
    requires 0 <= jitter <= BackoffBase(attempt) / 5
    ensures delay == BackoffBase(attempt) + jitter
  {
    var a := attempt;
    if a < 1 {
      a := 1;
    }
    var exp := a - 1;
    if exp > 10 {
      exp := 10;
    }
    var base := SECOND * Pow2(exp);
    if base > 1800 * SECOND {
      base := 1800 * SECOND;
    }
    var jitterMax := base / 5;
    if jitterMax <= 0 {
      return base;
    }
    delay := base + jitter;
  }

  /** The half-hour cap never takes effect: attempt k waits min(2^(k-1), 1024)
      seconds, and jitter adds at most a fifth. */
  lemma BackoffDoubles(attempt: int, jitter: Time)
    requires attempt >= 1 && 0 <= jitter <= BackoffBase(attempt) / 5
    ensures BackoffBase(attempt) == SECOND * (if attempt <= 11 then Pow2(attempt - 1) else 1024)
    ensures BackoffBase(attempt) <= BackoffBase(attempt) + jitter <= BackoffBase(attempt) * 6 / 5
  {
    assert Pow2(10) == 1024;
    Pow2Monotone(if attempt <= 11 then attempt - 1 else 10, 10);
  }

  function RecordJob(tick: Time, now: Time, delivered: bool, lastErr: string, jitter: Time, j: Job): Job
    requires tick > 0
  {
    var attempts := j.callbackAttempts + 1;
    var counted := j.(callbackAttempts := attempts, updatedAt := Stored(tick, now));
    if delivered then
      counted.(callbackStatus := Delivered, nextCallbackAt := None, lastCallbackErr := "")
    else
      var failed := counted.(lastCallbackErr := TrimSpace(lastErr));
      if attempts >= CALLBACK_MAX_ATTEMPTS || (j.completedAt.Some? && now - j.completedAt.value > CALLBACK_RETRY_WINDOW) then
        failed.(callbackStatus := DeadLettered, nextCallbackAt := None)
      else
        failed.(callbackStatus := Retrying,
                nextCallbackAt := Some(Stored(tick, now + BackoffBase(attempts) + jitter)))
  }
}
