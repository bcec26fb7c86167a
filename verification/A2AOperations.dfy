/** What the operations of the job queue come to, in the terms of those who call them. */
module A2AOperations {
  import opened A2AJobs
  import opened A2ARuns
  import opened Text

  /** What the sender asked for, as it stays for good. */
  predicate SameOrder(a: Job, b: Job) {
    && a.fromPublicKey == b.fromPublicKey && a.toPublicKey == b.toPublicKey
    && a.idempotencyKey == b.idempotencyKey && a.requestJSON == b.requestJSON && a.callbackURL == b.callbackURL
    && a.createdAt == b.createdAt && a.expiresAt == b.expiresAt
  }

  lemma EffectKeepsOrder(tick: Time, now: Time, op: Op, id: string, j: Job)
    requires tick > 0
    ensures SameOrder(j, EffectOn(tick, now, op, id, j))
  {
    hide CheckReport, Stored, BackoffBase, TrimSpace, LeaseEnd;
  }

  lemma NextKeepsOrder(tick: Time, e: Event, t: Table, t': Table, id: string)
    requires tick > 0 && Next(tick, e.now, e.op, t, t') && id in t
    ensures id in t' && SameOrder(t[id], t'[id])
  {
    EffectKeepsOrder(tick, e.now, e.op, id, t[id]);
    hide EffectOn, OpOk, NewJob, SameOrder;
  }

  /** No operation of any run changes who sent a job to whom, what it asks for, or when it
      was made and expires. */
  lemma {:induction false} OrderIsFixed(tick: Time, events: seq<Event>, tables: seq<Table>, id: string, i: nat, k: nat)
    requires Run(tick, events, tables) && i <= k <= |events| && id in tables[i]
    ensures id in tables[k] && SameOrder(tables[i][id], tables[k][id])
    decreases k
  {
    if i < k {
      OrderIsFixed(tick, events, tables, id, i, k - 1);
      RunNext(tick, events, tables, k - 1);
      hide Run, Next;
      NextKeepsOrder(tick, events[k - 1], tables[k - 1], tables[k], id);
    }
  }

  /** Whatever changes a job dates the change. */
  lemma ChangesAreDated(tick: Time, now: Time, op: Op, id: string, j: Job)
    requires tick > 0
    ensures var k := EffectOn(tick, now, op, id, j); k != j ==> k.updatedAt <= now < k.updatedAt + tick
  {
    hide CheckReport, BackoffBase, TrimSpace, LeaseEnd;
  }

  // ----- Submit

  const DAY: Time := 86_400_000_000_000

  /** The job waits for `to` and nobody else, for a day, under the sender's key. */
  ghost predicate WaitsFor(tick: Time, now: Time, t: Table, id: string, from: string, to: string, key: string) {
    && (forall who :: id in QueuedFor(t, who) <==> who == to)
    && id in t && t[id].fromPublicKey == from && t[id].idempotencyKey == key
    && t[id].createdAt <= now < t[id].createdAt + tick && t[id].redelivery == 0 && t[id].callbackAttempts == 0
    && (forall later :: later > now + DAY ==> PastTTL(later, t[id]))
    && (forall later :: later <= now + DAY - tick ==> !PastTTL(later, t[id]))
  }

  lemma SubmittedWaits(tick: Time, now: Time, op: Op, t: Table, t': Table)
    requires tick > 0 && op.Submit? && Next(tick, now, op, t, t') && op.id in t'
    ensures WaitsFor(tick, now, t', op.id, op.from, op.to, op.key)
    ensures t'[op.id].requestJSON == op.request && t'[op.id].callbackURL == op.url
    ensures t' == t[op.id := t'[op.id]]
  {
    assert op.id !in t;
  }

  // ----- Cleanup

  predicate Expires(now: Time, j: Job) {
    (j.status == Queued || j.status == Claimed) && now > j.expiresAt
  }

  predicate Abandoned(now: Time, j: Job) {
    j.status == Claimed && now <= j.expiresAt && j.leaseExpiresAt.Some? && now > j.leaseExpiresAt.value
  }

  /** A job past its day expires; an abandoned one is offered again ten times and then
      fails, its sender being told at once; every other job is left alone. */
  lemma CleanupMeans(tick: Time, now: Time, j: Job)
    requires tick > 0
    ensures var c := CleanJob(tick, now, j);
      && (Expires(now, j) ==>
            c.status == Expired && c.claimedBy == "" && c.leaseExpiresAt.None? && c.redelivery == j.redelivery)
      && (Abandoned(now, j) && j.redelivery < 10 ==>
            c.status == Queued && c.claimedBy == "" && c.leaseExpiresAt.None? && c.redelivery == j.redelivery + 1)
      && (Abandoned(now, j) && j.redelivery >= 10 ==>
            && c.status == Failed && c.errorJSON == LEASE_TIMEOUT_JSON && c.redelivery == j.redelivery
            && c.completedAt.Some? && c.completedAt.value <= now < c.completedAt.value + tick
            && (j.callbackURL != "" ==> Due(now, c)))
      && (!Expires(now, j) && !Abandoned(now, j) ==> c == j)
      && c.resultJSON == j.resultJSON && (c.status != Failed || j.status == Failed ==> c.errorJSON == j.errorJSON)
  {
  }

  // ----- Claim and extend

  /** The seconds a lease lasts: 120 if none are asked for, and at most 600. */
  predicate LeaseFor(tick: Time, now: Time, asked: int, end: Time) {
    var seconds := if asked <= 0 then 120 else if asked >= 600 then 600 else asked;
    end <= now + seconds * 1_000_000_000 < end + tick
  }

  lemma LeaseEndMeans(tick: Time, now: Time, asked: int)
    requires tick > 0
    ensures LeaseFor(tick, now, asked, LeaseEnd(tick, now, asked))
  {
  }

  /** Jobs the recipient can have: queued, or abandoned and to be offered again. */
  ghost function Claimable(now: Time, t: Table, who: string): set<string> {
    set id | id in t && t[id].toPublicKey == who && now <= t[id].expiresAt
      && (t[id].status == Queued || (Abandoned(now, t[id]) && t[id].redelivery < 10))
  }

  lemma CleanedIsClaimable(tick: Time, now: Time, t: Table, who: string)
    requires tick > 0
    ensures QueuedFor(CleanTable(tick, now, t), who) == Claimable(now, t, who)
    ensures forall id :: id in t ==> CleanTable(tick, now, t)[id].createdAt == t[id].createdAt
  {
    forall id | id in t
      ensures id in QueuedFor(CleanTable(tick, now, t), who) <==> id in Claimable(now, t, who)
      ensures CleanTable(tick, now, t)[id].createdAt == t[id].createdAt
    {
      CleanupMeans(tick, now, t[id]);
    }
  }

  ghost predicate TakesOldest(t: Table, from: set<string>, n: nat, ids: seq<string>) {
    && (forall id :: id in from ==> id in t) && (forall id :: id in ids ==> id in from)
    && (forall i, k :: 0 <= i < k < |ids| ==> ids[i] != ids[k] && t[ids[i]].createdAt <= t[ids[k]].createdAt)
    && (forall a, b :: a in ids && b in from && b !in ids ==> t[a].createdAt <= t[b].createdAt)
    && |ids| <= n && (|ids| < n ==> forall id :: id in from ==> id in ids)
  }

  /** A claim gives the recipient its oldest claimable jobs: five if it does not say how
      many, and twenty at most. */
  lemma ClaimTakesOldest(tick: Time, now: Time, op: Op, t: Table, t': Table)
    requires tick > 0 && op.Claim? && Next(tick, now, op, t, t')
    ensures var n := if op.maxJobs <= 0 then 5 else if op.maxJobs >= 20 then 20 else op.maxJobs;
      TakesOldest(t, Claimable(now, t, op.recipient), n, op.claimed)
  {
    CleanedIsClaimable(tick, now, t, op.recipient);
    hide EffectOn, Claimable;
    assert FirstQueued(CleanTable(tick, now, t), op.recipient, ClampBatch(op.maxJobs), op.claimed);
    hide Next, OpOk;
  }

  /** What it gives is claimed and leased to the recipient from now. */
  lemma ClaimLeases(tick: Time, now: Time, op: Op, t: Table, t': Table, id: string)
    requires tick > 0 && op.Claim? && Next(tick, now, op, t, t') && id in op.claimed
    ensures id in t' && LeasedTo(tick, now, op.recipient, op.leaseSeconds, t'[id])
  {
    assert id in t;
    LeaseEndMeans(tick, now, op.leaseSeconds);
    hide CleanJob, LeaseEnd, LeaseFor, FirstQueued, OpOk;
  }

  predicate LeasedTo(tick: Time, now: Time, who: string, asked: int, j: Job) {
    && j.status == Claimed && j.claimedBy == who
    && j.leaseExpiresAt.Some? && LeaseFor(tick, now, asked, j.leaseExpiresAt.value)
    && j.claimedAt.Some? && j.claimedAt.value <= now < j.claimedAt.value + tick
  }

  // ----- Complete

  predicate Fits(e: Encoding) {
    e.Json? && |e.text| <= 262144
  }

  /** Succeeded with a result that fits or none, or failed with a message and a payload that fits. */
  predicate WellFormed(r: Report) {
    || (r.status == Succeeded && (r.result.Some? ==> Fits(r.result.value)))
    || (r.status == Failed && r.error.Some? && TrimSpace(r.error.value.message) != "" && Fits(r.error.value.encoding))
  }

  /** The text the caller reported; no result counts as an empty one. */
  function ReportedText(r: Report): string
    requires WellFormed(r)
  {
    if r.status == Failed then r.error.value.encoding.text
    else if r.result.None? then "{}"
    else r.result.value.text
  }

  ghost predicate HoldsReport(j: Job, r: Report) {
    && WellFormed(r) && j.status == r.status
    && (r.status == Succeeded ==> j.resultJSON == ReportedText(r) && j.errorJSON == "")
    && (r.status == Failed ==> j.errorJSON == ReportedText(r) && j.resultJSON == "")
  }

  lemma AcceptedIffWellFormed(r: Report)
    ensures CheckReport(r).Accepted? <==> WellFormed(r)
    ensures WellFormed(r) ==> CheckReport(r).blob == ReportedText(r)
  {
    hide TrimSpace;
  }

  /** An accepted report is stored word for word, finished now, and its sender told if it
      asked to be. */
  lemma CompletionStores(tick: Time, now: Time, op: Op, t: Table, t': Table)
    requires tick > 0 && op.Complete? && Next(tick, now, op, t, t')
    requires op.id in t && HoldsLease(now, op.who, t[op.id]) && WellFormed(op.report)
    ensures op.id in t' && HoldsReport(t'[op.id], op.report)
    ensures var c := t'[op.id].completedAt; c.Some? && c.value <= now < c.value + tick
    ensures if t[op.id].callbackURL == "" then forall later :: !Due(later, t'[op.id]) else Due(now, t'[op.id])
  {
    AcceptedIffWellFormed(op.report);
    hide CheckReport, TrimSpace;
  }

  /** From its completion on a job holds just what its holder reported. */
  lemma ReportStays(tick: Time, events: seq<Event>, tables: seq<Table>, n: nat, k: nat)
    requires Run(tick, events, tables) && n < k <= |events| && events[n].op.Complete?
    requires var op := events[n].op;
      op.id in tables[n] && HoldsLease(events[n].now, op.who, tables[n][op.id]) && WellFormed(op.report)
    ensures var op := events[n].op; op.id in tables[k] && HoldsReport(tables[k][op.id], op.report)
  {
    var op := events[n].op;
    RunNext(tick, events, tables, n);
    CompletionStores(tick, events[n].now, op, tables[n], tables[n + 1]);
    TerminalIsFinal(tick, events, tables, op.id, n + 1, k);
  }

  // ----- Record

  /** One attempt more. A delivery ends the callback; a failure keeps its message and ends
      it too after twelve attempts or a day, else sets the next attempt. */
  predicate Counts(tick: Time, now: Time, delivered: bool, lastErr: string, jitter: Time, j: Job, k: Job) {
    && k == j.(updatedAt := k.updatedAt, callbackAttempts := j.callbackAttempts + 1, callbackStatus := k.callbackStatus,
               nextCallbackAt := k.nextCallbackAt, lastCallbackErr := k.lastCallbackErr)
    && k.lastCallbackErr == (if delivered then "" else TrimSpace(lastErr))
    && (k.callbackStatus == Delivered <==> delivered)
    && (k.callbackStatus == DeadLettered <==>
          !delivered && (j.callbackAttempts >= 11 || (j.completedAt.Some? && now > j.completedAt.value + DAY)))
    && (k.callbackStatus == Retrying || k.callbackStatus == Delivered || k.callbackStatus == DeadLettered)
    && (k.callbackStatus != Retrying ==> k.nextCallbackAt.None?)
    && (k.callbackStatus == Retrying ==>
          && k.nextCallbackAt.Some?
          && k.nextCallbackAt.value <= now + BackoffBase(j.callbackAttempts + 1) + jitter < k.nextCallbackAt.value + tick)
  }

  lemma RecordCounts(tick: Time, now: Time, delivered: bool, lastErr: string, jitter: Time, j: Job)
    requires tick > 0
    ensures Counts(tick, now, delivered, lastErr, jitter, j, RecordJob(tick, now, delivered, lastErr, jitter, j))
  {
    hide TrimSpace, BackoffBase;
  }
}
