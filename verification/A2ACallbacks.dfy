/** Callback delivery over whole runs in which outcomes are recorded only for
    jobs that are due at that moment. */
module A2ACallbacks {
  import opened A2AJobs
  import opened A2ARuns
  import opened Arithmetic
  import opened Text

  /** Every recorded outcome belongs to a job that is due when it is recorded. */
  ghost predicate Disciplined(events: seq<Event>, tables: seq<Table>)
    requires |tables| == |events| + 1
  {
    forall i :: 0 <= i < |events| && events[i].op.Record? && events[i].op.id in tables[i] ==>
      Due(events[i].now, tables[i][events[i].op.id])
  }

  lemma StoredShift(tick: Time, t: Time, seconds: int)
    requires ValidTick(tick)
    ensures Stored(tick, t + seconds * SECOND) == Stored(tick, t) + seconds * SECOND
  {
    var k := SECOND / tick;
    assert SECOND == k * tick;
    var d := seconds * k;
    assert seconds * SECOND == d * tick by {
      assert seconds * (k * tick) == (seconds * k) * tick;
    }
    ModShift(t, tick, d);
  }

  lemma {:induction false} ModShift(t: int, tick: Time, d: int)
    requires tick > 0
    ensures (t + d * tick) % tick == t % tick
    decreases if d < 0 then -d else d
  {
    if d > 0 {
      ModShift(t, tick, d - 1);
      assert t + d * tick == (t + (d - 1) * tick) + tick;
      ModOne(t + (d - 1) * tick, tick);
    } else if d < 0 {
      ModShift(t, tick, d + 1);
      assert t + (d + 1) * tick == (t + d * tick) + tick;
      ModOne(t + d * tick, tick);
    }
  }

  lemma ModOne(a: int, tick: Time)
    requires tick > 0
    ensures (a + tick) % tick == a % tick
  {
    var q, r := a / tick, a % tick;
    assert a + tick == (q + 1) * tick + r;
    DivUnique(a + tick, tick, q + 1, r);
  }

  lemma LessMul(x: int, y: int, m: int)
    requires m > 0 && x * m < y * m
    ensures x < y
  {
  }

  lemma MulNonneg(a: nat, m: nat)
    ensures a * m >= 0
  {
  }

  lemma DivUnique(a: int, m: int, q: int, r: int)
    requires m > 0 && a == q * m + r && 0 <= r < m
    ensures a / m == q && a % m == r
  {
    var q' := a / m;
    assert q' * m <= a < (q' + 1) * m;
    LessMul(q, q' + 1, m);
    assert a < (q + 1) * m;
    LessMul(q', q + 1, m);
  }

  function WaitSeconds(attempt: nat): nat
    requires attempt >= 1
  {
    if attempt <= 11 then Pow2(attempt - 1) else 1024
  }

  /** Each outcome after the first waited out the delay set by the one before it. */
  ghost predicate Spaced(tick: Time, outcomes: seq<Outcome>)
    requires tick > 0
  {
    forall i, k :: 0 <= i && k == i + 1 && k < |outcomes| ==>
      Stored(tick, outcomes[k].time) >= Stored(tick, outcomes[i].time) + WaitSeconds(k) * SECOND
  }

  ghost predicate AllFailed(outcomes: seq<Outcome>) {
    forall o :: o in outcomes ==> !o.delivered
  }

  ghost predicate CallbackInv(tick: Time, j: Job, h: History)
    requires tick > 0
  {
    && var n := |h.outcomes|;
    && j.callbackAttempts == n && n <= CALLBACK_MAX_ATTEMPTS
    && (j.callbackURL == "" <==> j.callbackStatus == NoCallback)
    && Spaced(tick, h.outcomes)
    && (j.status == Queued || j.status == Claimed || j.status == Expired ==>
          n == 0 && j.callbackStatus in {NoCallback, Pending})
    && match j.callbackStatus
       case NoCallback => n == 0
       case Pending => n == 0
       case Retrying =>
         && 1 <= n < CALLBACK_MAX_ATTEMPTS && AllFailed(h.outcomes) && j.nextCallbackAt.Some?
         && j.nextCallbackAt.value >= Stored(tick, h.outcomes[n - 1].time) + WaitSeconds(n) * SECOND
       case Delivered =>
         n >= 1 && h.outcomes[n - 1].delivered && AllFailed(h.outcomes[..n - 1])
       case DeadLettered =>
         && n >= 1 && AllFailed(h.outcomes)
         && (n == CALLBACK_MAX_ATTEMPTS
             || (j.completedAt.Some? && h.outcomes[n - 1].time - j.completedAt.value > CALLBACK_RETRY_WINDOW))
  }

  lemma NextDelay(tick: Time, now: Time, attempts: nat, jitter: Time)
    requires ValidTick(tick) && attempts >= 1 && 0 <= jitter <= BackoffBase(attempts) / 5
    ensures Stored(tick, now + BackoffBase(attempts) + jitter) >= Stored(tick, now) + WaitSeconds(attempts) * SECOND
  {
    BackoffDoubles(attempts, jitter);
    assert BackoffBase(attempts) == WaitSeconds(attempts) * SECOND;
    StoredShift(tick, now + jitter, WaitSeconds(attempts));
    StoredMonotone(tick, now, now + jitter);
  }

  lemma StoredMonotone(tick: Time, a: Time, b: Time)
    requires tick > 0 && a <= b
    ensures Stored(tick, a) <= Stored(tick, b)
  {
    assert Stored(tick, a) == (a / tick) * tick && Stored(tick, b) == (b / tick) * tick;
    DivMonotone(a, b, tick);
  }

  lemma DivMonotone(a: int, b: int, m: int)
    requires m > 0 && a <= b
    ensures (a / m) * m <= (b / m) * m
  {
    var x, y := a / m, b / m;
    assert x * m <= a && b < (y + 1) * m;
    LessMul(x, y + 1, m);
    MulNonneg(y - x, m);
  }

  lemma SpacedAppend(tick: Time, outcomes: seq<Outcome>, o: Outcome)
    requires tick > 0 && Spaced(tick, outcomes)
    requires outcomes != [] ==>
      Stored(tick, o.time) >= Stored(tick, outcomes[|outcomes| - 1].time) + WaitSeconds(|outcomes|) * SECOND
    ensures Spaced(tick, outcomes + [o])
  {
  }

  lemma AllFailedAppend(outcomes: seq<Outcome>, o: Outcome)
    ensures AllFailed(outcomes) && !o.delivered ==> AllFailed(outcomes + [o])
    ensures (outcomes + [o])[..|outcomes|] == outcomes
  {
  }

  lemma RecordCallback(tick: Time, now: Time, delivered: bool, lastErr: string, jitter: Time, j: Job, h: History)
    requires ValidTick(tick) && CallbackInv(tick, j, h) && Due(now, j)
    requires 0 <= jitter <= BackoffBase(j.callbackAttempts + 1) / 5
    ensures CallbackInv(tick, RecordJob(tick, now, delivered, lastErr, jitter, j),
                        h.(outcomes := h.outcomes + [Outcome(now, delivered)]))
  {
    hide Spaced, AllFailed, Stored, WaitSeconds, BackoffBase, TrimSpace;
    var n, o := |h.outcomes|, Outcome(now, delivered);
    assert AllFailed(h.outcomes) by {
      if n == 0 {
        NoneFailed(h.outcomes);
      }
    }
    if n > 0 {
      StoredAligned(tick, h.outcomes[n - 1].time, WaitSeconds(n), j.nextCallbackAt.value, now);
    }
    SpacedAppend(tick, h.outcomes, o);
    NextDelay(tick, now, n + 1, jitter);
    AllFailedAppend(h.outcomes, o);
  }

  lemma NoneFailed(outcomes: seq<Outcome>)
    requires outcomes == []
    ensures AllFailed(outcomes)
  {
  }

  lemma StoredAligned(tick: Time, last: Time, seconds: int, next: Time, now: Time)
    requires ValidTick(tick) && next >= Stored(tick, last) + seconds * SECOND && now >= next
    ensures Stored(tick, now) >= Stored(tick, last) + seconds * SECOND
  {
    var s := Stored(tick, last);
    StoredMonotone(tick, s + seconds * SECOND, now);
    StoredShift(tick, s, seconds);
    StoredTwice(tick, last);
  }

  lemma StoredTwice(tick: Time, t: Time)
    requires tick > 0
    ensures Stored(tick, Stored(tick, t)) == Stored(tick, t)
  {
    DivUnique(Stored(tick, t), tick, t / tick, 0);
  }

  lemma CleanCallback(tick: Time, now: Time, j: Job, h: History)
    requires tick > 0 && CallbackInv(tick, j, h)
    ensures CallbackInv(tick, CleanJob(tick, now, j), ObserveClean(now, j, h))
  {
  }

  lemma CompleteCallback(tick: Time, now: Time, who: string, status: JobStatus, blob: JsonText, j: Job, h: History)
    requires tick > 0 && CallbackInv(tick, j, h) && HoldsLease(now, who, j)
    requires status == Succeeded || status == Failed
    ensures CallbackInv(tick, CompleteJob(tick, now, status, blob, j),
                        h.(completions := h.completions + [now], changes := h.changes + 1))
  {
  }

  lemma EffectCallback(tick: Time, now: Time, op: Op, t: Table, id: string, h: History)
    requires ValidTick(tick) && OpOk(tick, now, op, t)
    requires id in t && CallbackInv(tick, t[id], h)
    requires op.Record? && op.id == id ==> Due(now, t[id])
    ensures CallbackInv(tick, EffectOn(tick, now, op, id, t[id]), Observe(tick, now, op, id, t[id], h))
  {
    var j := t[id];
    match op
    case Submit(_, _, _, _, _, _) =>
    case Claim(recipient, _, leaseSeconds, claimed) =>
      CleanCallback(tick, now, j, h);
      if id in claimed {
        ClaimedWasQueued(tick, now, op, t, id);
      }
    case Complete(who, target, report) =>
      if id == target && HoldsLease(now, who, j) && CheckReport(report).Accepted? {
        AcceptedStatus(report);
        CompleteCallback(tick, now, who, report.status, CheckReport(report).blob, j, h);
      }
    case Extend(who, target, leaseSeconds) =>
    case Cleanup =>
      CleanCallback(tick, now, j, h);
    case Record(target, delivered, lastErr, jitter) =>
      if id == target {
        RecordCallback(tick, now, delivered, lastErr, jitter, j, h);
      }
  }

  lemma {:induction false} RunKeepsCallbackInv(tick: Time, events: seq<Event>, tables: seq<Table>, id: string)
    requires Run(tick, events, tables) && Disciplined(events, tables) && id in tables[|events|]
    ensures CallbackInv(tick, tables[|events|][id], HistoryOf(tick, events, tables, id))
  {
    hide CallbackInv, EffectOn, Observe, Due, OpOk;
    if events != [] {
      var n := |events| - 1;
      var now, op := events[n].now, events[n].op;
      assert Next(tick, now, op, tables[n], tables[n + 1]);
      if id in tables[n] {
        RunPrefix(tick, events, tables, n);
        RunKeepsCallbackInv(tick, events[..n], tables[..n + 1], id);
        EffectCallback(tick, now, op, tables[n], id, HistoryOf(tick, events[..n], tables[..n + 1], id));
      } else {
        NewJobCallback(tick, now, op);
      }
    }
  }

  lemma NewJobCallback(tick: Time, now: Time, op: Op)
    requires tick > 0 && op.Submit?
    ensures CallbackInv(tick, NewJob(tick, now, op.from, op.to, op.key, op.request, op.url), NOTHING)
  {
  }

  /** Attempts are bounded whatever the interleaving of deliveries and queue operations. */
  lemma AttemptsBounded(tick: Time, events: seq<Event>, tables: seq<Table>, id: string)
    requires Run(tick, events, tables) && Disciplined(events, tables) && id in tables[|events|]
    ensures 0 <= tables[|events|][id].callbackAttempts <= CALLBACK_MAX_ATTEMPTS
  {
    RunKeepsCallbackInv(tick, events, tables, id);
  }

  lemma {:induction false} SpacedSum(tick: Time, outcomes: seq<Outcome>, m: nat)
    requires ValidTick(tick) && Spaced(tick, outcomes) && m < |outcomes| && m <= 11
    ensures Stored(tick, outcomes[m].time) >= Stored(tick, outcomes[0].time) + (Pow2(m) - 1) * SECOND
  {
    if m > 0 {
      SpacedSum(tick, outcomes, m - 1);
    }
  }

  /** A dead-lettered job is more than a day past completion, or has failed
      twelve times over at least 2047 seconds. */
  lemma DeadLetterReason(tick: Time, events: seq<Event>, tables: seq<Table>, id: string)
    requires Run(tick, events, tables) && Disciplined(events, tables) && id in tables[|events|]
    requires tables[|events|][id].callbackStatus == DeadLettered
    ensures var j, o := tables[|events|][id], HistoryOf(tick, events, tables, id).outcomes;
            o != [] && AllFailed(o)
    ensures var j, o := tables[|events|][id], HistoryOf(tick, events, tables, id).outcomes;
            || (j.completedAt.Some? && o[|o| - 1].time - j.completedAt.value > CALLBACK_RETRY_WINDOW)
            || (|o| == 12 && Stored(tick, o[11].time) - Stored(tick, o[0].time) >= 2047 * SECOND)
  {
    RunKeepsCallbackInv(tick, events, tables, id);
    var o := HistoryOf(tick, events, tables, id).outcomes;
    if |o| == 12 {
      assert Pow2(11) == 2048;
      SpacedSum(tick, o, 11);
    }
  }

  predicate Finished(j: Job) {
    j.status == Succeeded || j.status == Failed
  }

  predicate Closed(j: Job) {
    j.callbackStatus == Delivered || j.callbackStatus == DeadLettered
  }

  predicate Settled(j: Job) {
    Closed(j) && Finished(j)
  }

  lemma EffectSettled(tick: Time, now: Time, op: Op, t: Table, id: string)
    requires tick > 0 && OpOk(tick, now, op, t) && id in t && Settled(t[id])
    requires !(op.Record? && op.id == id)
    ensures Settled(EffectOn(tick, now, op, id, t[id]))
    ensures EffectOn(tick, now, op, id, t[id]).callbackStatus == t[id].callbackStatus
  {
    if op.Claim? && id in op.claimed {
      ClaimedWasQueued(tick, now, op, t, id);
    }
  }

  lemma SettledNotDue(j: Job)
    requires Settled(j)
    ensures forall now :: !Due(now, j)
  {
  }

  /** Delivered and dead-lettered callbacks stay so and are never due again. */
  lemma {:induction false} SettledStays(tick: Time, events: seq<Event>, tables: seq<Table>, id: string, i: nat, k: nat)
    requires Run(tick, events, tables) && Disciplined(events, tables) && i <= k <= |events|
    requires id in tables[i] && Settled(tables[i][id])
    ensures id in tables[k] && Settled(tables[k][id])
    ensures tables[k][id].callbackStatus == tables[i][id].callbackStatus
    ensures forall now :: !Due(now, tables[k][id])
    decreases k
  {
    hide Settled, EffectOn, OpOk, Due;
    if i == k {
      SettledNotDue(tables[k][id]);
    } else {
      SettledStays(tick, events, tables, id, i, k - 1);
      var now, op := events[k - 1].now, events[k - 1].op;
      assert Next(tick, now, op, tables[k - 1], tables[k]);
      EffectSettled(tick, now, op, tables[k - 1], id);
      SettledNotDue(tables[k][id]);
    }
  }

  // ----- Outcomes recorded for jobs that are not due

  /** The callback is due, now or later. */
  predicate Open(j: Job) {
    (j.callbackStatus == Pending || j.callbackStatus == Retrying) && j.callbackURL != "" && Finished(j)
  }

  lemma OpenMeansDue(j: Job, now: Time)
    ensures Open(j) <==> exists later :: later >= now && Due(later, j)
  {
    if Open(j) {
      var later := if j.nextCallbackAt.Some? && now < j.nextCallbackAt.value then j.nextCallbackAt.value else now;
      assert Due(later, j);
    }
  }

  predicate PastWindow(now: Time, j: Job) {
    j.completedAt.Some? && now - j.completedAt.value > CALLBACK_RETRY_WINDOW
  }

  /** A failure recorded now would be retried. */
  predicate HasRetries(now: Time, j: Job) {
    j.callbackAttempts + 1 < CALLBACK_MAX_ATTEMPTS && !PastWindow(now, j)
  }

  /** The recorder looks at neither status: whatever they were, a failure leaves the
      callback due exactly for a finished job with retries left. */
  lemma UndueFailureReopens(tick: Time, now: Time, lastErr: string, jitter: Time, j: Job)
    requires tick > 0
    ensures (exists later :: later >= now && Due(later, RecordJob(tick, now, false, lastErr, jitter, j)))
       <==> j.callbackURL != "" && Finished(j) && HasRetries(now, j)
  {
    OpenMeansDue(RecordJob(tick, now, false, lastErr, jitter, j), now);
  }

  /** An outcome recorded while the job is still claimed is lost: completion opens the
      callback again and keeps the count, so a twelfth such outcome is followed by a
      thirteenth attempt. */
  lemma EarlyRecordIsLost(tick: Time, now: Time, later: Time, delivered: bool, lastErr: string, jitter: Time,
                          who: string, status: JobStatus, blob: JsonText, j: Job)
    requires ValidTick(tick) && now <= later && j.callbackURL != "" && HoldsLease(later, who, j)
    requires status == Succeeded || status == Failed
    ensures var recorded := RecordJob(tick, now, delivered, lastErr, jitter, j);
      var done := CompleteJob(tick, later, status, blob, recorded);
      && HoldsLease(later, who, recorded) && Due(later, done)
      && done.callbackAttempts == j.callbackAttempts + 1
      && (delivered ==> recorded.callbackStatus == Delivered)
      && (j.callbackAttempts + 1 == CALLBACK_MAX_ATTEMPTS ==>
            RecordJob(tick, later, delivered, lastErr, jitter, done).callbackAttempts == CALLBACK_MAX_ATTEMPTS + 1)
  {
    hide BackoffBase, TrimSpace;
  }

  /** Finishing a job opens its callback, whatever was recorded before. */
  lemma FinishingOpens(tick: Time, now: Time, op: Op, t: Table, id: string)
    requires tick > 0 && OpOk(tick, now, op, t) && id in t && !Finished(t[id])
    ensures var j := EffectOn(tick, now, op, id, t[id]);
      Finished(j) && j.callbackURL != "" ==> Open(j)
    ensures EffectOn(tick, now, op, id, t[id]).callbackURL == t[id].callbackURL
  {
    hide CheckReport, BackoffBase, Stored, LeaseEnd;
    if op.Claim? && id in op.claimed {
      ClaimedWasQueued(tick, now, op, t, id);
    }
  }

  predicate Reopens(e: Event, t: Table, id: string) {
    e.op.Record? && e.op.id == id && !e.op.delivered && id in t && HasRetries(e.now, t[id])
  }

  lemma FinishedStep(tick: Time, e: Event, t: Table, id: string)
    requires tick > 0 && OpOk(tick, e.now, e.op, t) && id in t && Finished(t[id])
    ensures var j := EffectOn(tick, e.now, e.op, id, t[id]);
      && Finished(j) && j.callbackURL == t[id].callbackURL
      && (Reopens(e, t, id) ==> j.callbackStatus == Retrying)
      && (Closed(t[id]) && !Reopens(e, t, id) ==> Closed(j))
  {
    hide CheckReport, BackoffBase, Stored, LeaseEnd;
    if e.op.Claim? && id in e.op.claimed {
      ClaimedWasQueued(tick, e.now, e.op, t, id);
    }
  }

  /** A closed callback of a finished job is opened by a failure with retries left, and by
      nothing else. */
  lemma FinishedNext(tick: Time, e: Event, t: Table, t': Table, id: string)
    requires tick > 0 && Next(tick, e.now, e.op, t, t') && id in t && Finished(t[id])
    ensures id in t' && Finished(t'[id]) && t'[id].callbackURL == t[id].callbackURL
    ensures Reopens(e, t, id) ==> t'[id].callbackStatus == Retrying
    ensures Closed(t[id]) && !Reopens(e, t, id) ==> Closed(t'[id])
  {
    NextIs(tick, e, t, t', id);
    FinishedStep(tick, e, t, id);
  }

  lemma FinishedAt(tick: Time, events: seq<Event>, tables: seq<Table>, id: string, n: nat)
    requires Run(tick, events, tables) && n < |events| && id in tables[n] && Finished(tables[n][id])
    ensures id in tables[n + 1] && Finished(tables[n + 1][id])
    ensures tables[n + 1][id].callbackURL == tables[n][id].callbackURL
    ensures Reopens(events[n], tables[n], id) ==> tables[n + 1][id].callbackStatus == Retrying
    ensures Closed(tables[n][id]) && !Reopens(events[n], tables[n], id) ==> Closed(tables[n + 1][id])
  {
    RunNext(tick, events, tables, n);
    var e, t, t' := events[n], tables[n], tables[n + 1];
    hide Run, Finished, Closed, Reopens, Next;
    FinishedNext(tick, e, t, t', id);
  }

  lemma {:induction false} FinishedStays(tick: Time, events: seq<Event>, tables: seq<Table>, id: string, i: nat, k: nat)
    requires Run(tick, events, tables) && i <= k <= |events| && id in tables[i] && Finished(tables[i][id])
    ensures id in tables[k] && Finished(tables[k][id])
    decreases k
  {
    assert |tables| == |events| + 1;
    hide Run, Finished;
    if i < k {
      FinishedStays(tick, events, tables, id, i, k - 1);
      FinishedAt(tick, events, tables, id, k - 1);
    }
  }

  /** If the closed callback of a finished job is no longer closed at `k`, it was reopened
      at some `m` before. */
  lemma {:induction false} FinishedRun(tick: Time, events: seq<Event>, tables: seq<Table>, id: string, i: nat, k: nat)
    returns (m: nat)
    requires Run(tick, events, tables) && i <= k <= |events|
    requires id in tables[i] && Finished(tables[i][id]) && Closed(tables[i][id])
    ensures id in tables[k]
    ensures !Closed(tables[k][id]) ==> i <= m < k && Reopens(events[m], tables[m], id)
    decreases k
  {
    m := i;
    FinishedStays(tick, events, tables, id, i, k);
    assert |tables| == |events| + 1;
    hide Run, Finished, Closed, Reopens;
    if i < k {
      var n := k - 1;
      FinishedStays(tick, events, tables, id, i, n);
      m := FinishedRun(tick, events, tables, id, i, n);
      FinishedAt(tick, events, tables, id, n);
      if Closed(tables[n][id]) {
        m := n;
      }
    }
  }

  lemma RunLength(tick: Time, events: seq<Event>, tables: seq<Table>)
    requires Run(tick, events, tables)
    ensures |tables| == |events| + 1
  {
  }

  lemma NextIs(tick: Time, e: Event, t: Table, t': Table, id: string)
    requires tick > 0 && Next(tick, e.now, e.op, t, t') && id in t
    ensures OpOk(tick, e.now, e.op, t) && id in t' && t'[id] == EffectOn(tick, e.now, e.op, id, t[id])
  {
  }

  lemma {:induction false} Remains(tick: Time, events: seq<Event>, tables: seq<Table>, id: string, i: nat, k: nat)
    requires Run(tick, events, tables) && i <= k <= |events| && id in tables[i]
    ensures id in tables[k] && tables[k][id].callbackURL == tables[i][id].callbackURL
    decreases k
  {
    if i < k {
      Remains(tick, events, tables, id, i, k - 1);
      RunNext(tick, events, tables, k - 1);
      var e, t := events[k - 1], tables[k - 1];
      hide Run, EffectOn, OpOk, Finished;
      NextIs(tick, e, t, tables[k], id);
      if Finished(t[id]) {
        FinishedNext(tick, e, t, tables[k], id);
      } else {
        FinishingOpens(tick, e.now, e.op, t, id);
      }
    }
  }

  /** The job is finished for the first time at `m`. */
  lemma {:induction false} FirstFinish(tick: Time, events: seq<Event>, tables: seq<Table>, id: string, i: nat, k: nat)
    returns (m: nat)
    requires Run(tick, events, tables) && i <= k <= |events| && id in tables[i] && !Finished(tables[i][id])
    requires id in tables[k] && Finished(tables[k][id])
    ensures i < m <= k && id in tables[m] && Finished(tables[m][id])
    ensures tables[i][id].callbackURL != "" ==> Open(tables[m][id])
    decreases k
  {
    hide Run, Next, EffectOn, OpOk, Finished, Open;
    RunLength(tick, events, tables);
    Remains(tick, events, tables, id, i, k - 1);
    if Finished(tables[k - 1][id]) {
      m := FirstFinish(tick, events, tables, id, i, k - 1);
    } else {
      m := k;
      RunNext(tick, events, tables, k - 1);
      NextIs(tick, events[k - 1], tables[k - 1], tables[k], id);
      FinishingOpens(tick, events[k - 1].now, events[k - 1].op, tables[k - 1], id);
    }
  }

  /** Some state from `i` to `k` leaves the callback due, then or later. */
  ghost predicate OpenWithin(tables: seq<Table>, id: string, i: nat, k: nat) {
    exists m :: i <= m <= k < |tables| && id in tables[m] && Open(tables[m][id])
  }

  ghost predicate ReopenedWithin(events: seq<Event>, tables: seq<Table>, id: string, i: nat, k: nat)
    requires |tables| == |events| + 1
  {
    exists m :: i <= m < k <= |events| && Reopens(events[m], tables[m], id)
  }

  ghost predicate FinishedWithin(tables: seq<Table>, id: string, i: nat, k: nat) {
    exists m :: i <= m <= k < |tables| && id in tables[m] && Finished(tables[m][id])
  }

  /** In any run, disciplined or not, a delivered or dead-lettered callback falls due again
      exactly in two ways: the job was finished and a failure with retries left is
      recorded, or the job was not finished and then is. */
  lemma {:induction false} ClosedFallsDueIff(tick: Time, events: seq<Event>, tables: seq<Table>, id: string, i: nat, k: nat)
    requires Run(tick, events, tables) && i <= k <= |events|
    requires id in tables[i] && Closed(tables[i][id])
    ensures OpenWithin(tables, id, i, k) <==>
      (tables[i][id].callbackURL != ""
       && if Finished(tables[i][id]) then ReopenedWithin(events, tables, id, i, k) else FinishedWithin(tables, id, i, k))
  {
    if OpenWithin(tables, id, i, k) {
      OpenHasCause(tick, events, tables, id, i, k);
    }
    if tables[i][id].callbackURL != "" {
      if Finished(tables[i][id]) && ReopenedWithin(events, tables, id, i, k) {
        ReopeningOpens(tick, events, tables, id, i, k);
      }
      if !Finished(tables[i][id]) && FinishedWithin(tables, id, i, k) {
        hide Run;
        var m :| i <= m <= k < |tables| && id in tables[m] && Finished(tables[m][id]);
        var first := FirstFinish(tick, events, tables, id, i, m);
        assert Open(tables[first][id]);
      }
    }
  }

  lemma {:induction false} OpenHasCause(tick: Time, events: seq<Event>, tables: seq<Table>, id: string, i: nat, k: nat)
    requires Run(tick, events, tables) && i <= k <= |events|
    requires id in tables[i] && Closed(tables[i][id]) && OpenWithin(tables, id, i, k)
    ensures tables[i][id].callbackURL != ""
    ensures if Finished(tables[i][id]) then ReopenedWithin(events, tables, id, i, k) else FinishedWithin(tables, id, i, k)
  {
    var m :| i <= m <= k < |tables| && id in tables[m] && Open(tables[m][id]);
    Remains(tick, events, tables, id, i, m);
    if Finished(tables[i][id]) {
      var n := FinishedRun(tick, events, tables, id, i, m);
      assert Reopens(events[n], tables[n], id);
    }
  }

  lemma {:induction false} ReopeningOpens(tick: Time, events: seq<Event>, tables: seq<Table>, id: string, i: nat, k: nat)
    requires Run(tick, events, tables) && i <= k <= |events|
    requires id in tables[i] && Finished(tables[i][id]) && tables[i][id].callbackURL != ""
    requires ReopenedWithin(events, tables, id, i, k)
    ensures OpenWithin(tables, id, i, k)
  {
    var m :| i <= m < k <= |events| && Reopens(events[m], tables[m], id);
    FinishedStays(tick, events, tables, id, i, m);
    Remains(tick, events, tables, id, i, m);
    FinishedAt(tick, events, tables, id, m);
    assert |tables| == |events| + 1;
    hide Run;
    assert Open(tables[m + 1][id]);
  }

  /** Why a callback is a dead letter, in any run. */
  predicate Exhausted(clock: Time, j: Job) {
    j.callbackAttempts >= CALLBACK_MAX_ATTEMPTS || PastWindow(clock, j)
  }

  lemma ExhaustedStep(tick: Time, clock: Time, e: Event, t: Table, id: string)
    requires ValidTick(tick) && clock <= e.now && OpOk(tick, e.now, e.op, t) && id in t && Shape(t[id])
    requires t[id].callbackStatus == DeadLettered ==> Exhausted(clock, t[id])
    ensures var j := EffectOn(tick, e.now, e.op, id, t[id]);
      && (j.callbackStatus == DeadLettered ==> Exhausted(e.now, j))
      && (Finished(t[id]) && Exhausted(clock, t[id]) ==> Exhausted(e.now, j) && !Reopens(e, t, id))
  {
    hide CheckReport, BackoffBase, Stored, LeaseEnd;
    if e.op.Claim? && id in e.op.claimed {
      ClaimedWasQueued(tick, e.now, e.op, t, id);
    }
  }

  lemma ExhaustedNext(tick: Time, clock: Time, e: Event, t: Table, t': Table, id: string)
    requires ValidTick(tick) && clock <= e.now && Next(tick, e.now, e.op, t, t') && id in t && Shape(t[id])
    requires t[id].callbackStatus == DeadLettered ==> Exhausted(clock, t[id])
    ensures id in t' && (t'[id].callbackStatus == DeadLettered ==> Exhausted(e.now, t'[id]))
    ensures Finished(t[id]) && Exhausted(clock, t[id]) ==> Exhausted(e.now, t'[id]) && !Reopens(e, t, id)
  {
    NextIs(tick, e, t, t', id);
    ExhaustedStep(tick, clock, e, t, id);
  }

  lemma ExhaustedAt(tick: Time, events: seq<Event>, tables: seq<Table>, id: string, n: nat)
    requires Run(tick, events, tables) && 0 < n < |events| && id in tables[n]
    requires tables[n][id].callbackStatus == DeadLettered ==> Exhausted(events[n - 1].now, tables[n][id])
    ensures id in tables[n + 1]
    ensures tables[n + 1][id].callbackStatus == DeadLettered ==> Exhausted(events[n].now, tables[n + 1][id])
    ensures Finished(tables[n][id]) && Exhausted(events[n - 1].now, tables[n][id]) ==>
      Exhausted(events[n].now, tables[n + 1][id]) && !Reopens(events[n], tables[n], id)
  {
    ReachableAt(tick, events, tables, id, n);
    RunNext(tick, events, tables, n);
    assert events[n - 1].now <= events[n].now;
    var e, t, t', clock := events[n], tables[n], tables[n + 1], events[n - 1].now;
    hide Run, Shape, Exhausted, Reopens, Finished, Next;
    ExhaustedNext(tick, clock, e, t, t', id);
  }

  lemma FirstAppearance(tick: Time, events: seq<Event>, tables: seq<Table>, id: string, n: nat)
    requires Run(tick, events, tables) && n < |events| && id in tables[n + 1] && id !in tables[n]
    ensures !Closed(tables[n + 1][id])
  {
    RunNext(tick, events, tables, n);
  }

  lemma {:induction false} DeadLettersExhausted(tick: Time, events: seq<Event>, tables: seq<Table>, id: string, k: nat)
    requires Run(tick, events, tables) && 0 < k <= |events| && id in tables[k]
    ensures tables[k][id].callbackStatus == DeadLettered ==> Exhausted(events[k - 1].now, tables[k][id])
    decreases k
  {
    var n := k - 1;
    assert |tables| == |events| + 1 && tables[0] == map[];
    hide Run, Exhausted;
    if id in tables[n] {
      DeadLettersExhausted(tick, events, tables, id, n);
      ExhaustedAt(tick, events, tables, id, n);
    } else {
      FirstAppearance(tick, events, tables, id, n);
    }
  }

  lemma ReachableAt(tick: Time, events: seq<Event>, tables: seq<Table>, id: string, k: nat)
    requires Run(tick, events, tables) && k <= |events| && id in tables[k]
    ensures ValidTick(tick) && Shape(tables[k][id])
  {
    RunPrefix(tick, events, tables, k);
    ReachableShape(tick, events[..k], tables[..k + 1], id);
  }

  lemma {:induction false} StaysExhausted(tick: Time, events: seq<Event>, tables: seq<Table>, id: string, i: nat, k: nat)
    requires Run(tick, events, tables) && 0 < i <= k <= |events| && id in tables[i]
    requires Finished(tables[i][id]) && tables[i][id].callbackStatus == DeadLettered
    ensures id in tables[k] && Finished(tables[k][id]) && Exhausted(events[k - 1].now, tables[k][id])
    decreases k
  {
    hide Run, Exhausted, Finished;
    RunLength(tick, events, tables);
    FinishedStays(tick, events, tables, id, i, k);
    if i == k {
      DeadLettersExhausted(tick, events, tables, id, i);
    } else {
      var n := k - 1;
      StaysExhausted(tick, events, tables, id, i, n);
      ExhaustedOn(tick, events, tables, id, n);
    }
  }

  lemma ExhaustedOn(tick: Time, events: seq<Event>, tables: seq<Table>, id: string, n: nat)
    requires Run(tick, events, tables) && 0 < n < |events| && id in tables[n]
    requires Finished(tables[n][id]) && Exhausted(events[n - 1].now, tables[n][id])
    ensures id in tables[n + 1] && Exhausted(events[n].now, tables[n + 1][id])
    ensures !Reopens(events[n], tables[n], id)
  {
    assert |tables| == |events| + 1;
    hide Run, Exhausted, Finished, Reopens;
    DeadLettersExhausted(tick, events, tables, id, n);
    ExhaustedAt(tick, events, tables, id, n);
  }

  lemma NeverReopens(tick: Time, events: seq<Event>, tables: seq<Table>, id: string, i: nat, m: nat)
    requires Run(tick, events, tables) && 0 < i <= m < |events| && id in tables[i]
    requires Finished(tables[i][id]) && tables[i][id].callbackStatus == DeadLettered
    ensures !Reopens(events[m], tables[m], id)
  {
    StaysExhausted(tick, events, tables, id, i, m);
    ExhaustedOn(tick, events, tables, id, m);
  }

  /** In any run, the dead letter of a finished job never falls due again. */
  lemma {:induction false} DeadLetterIsFinal(tick: Time, events: seq<Event>, tables: seq<Table>, id: string, i: nat, k: nat)
    requires Run(tick, events, tables) && i <= k <= |events| && id in tables[i]
    requires Finished(tables[i][id]) && tables[i][id].callbackStatus == DeadLettered
    ensures id in tables[k] && forall now :: !Due(now, tables[k][id])
  {
    assert i > 0 by {
      assert tables[0] == map[];
    }
    var m := FinishedRun(tick, events, tables, id, i, k);
    if !Closed(tables[k][id]) {
      NeverReopens(tick, events, tables, id, i, m);
      assert false;
    }
  }
}
