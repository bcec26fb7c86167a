/** Whole runs of the job queue: a non-decreasing clock, one operation at a
    time, and what holds of every job in every reachable table. */
module A2ARuns {
  import opened A2AJobs
  import opened Options
  import opened Text

  type Table = map<string, Job>

  datatype Op =
    | Submit(id: string, from: string, to: string, key: string, request: string, url: string)
    | Claim(recipient: string, maxJobs: int, leaseSeconds: int, claimed: seq<string>)
    | Complete(who: string, id: string, report: Report)
    | Extend(who: string, id: string, leaseSeconds: int)
    | Cleanup
    | Record(id: string, delivered: bool, lastErr: string, jitter: Time)

  /** What an operation does to an existing job. */
  function EffectOn(tick: Time, now: Time, op: Op, id: string, j: Job): Job
    requires tick > 0
  {
    match op
    case Submit(_, _, _, _, _, _) => j
    case Claim(recipient, _, leaseSeconds, claimed) =>
      var c := CleanJob(tick, now, j);
      if id in claimed then ClaimJob(tick, now, recipient, leaseSeconds, c) else c
    case Complete(who, target, report) =>
      var checked := CheckReport(report);
      if id == target && HoldsLease(now, who, j) && checked.Accepted? then
        CompleteJob(tick, now, report.status, checked.blob, j)
      else j
    case Extend(who, target, leaseSeconds) =>
      if id == target && HoldsLease(now, who, j) then ExtendJob(tick, now, leaseSeconds, j) else j
    case Cleanup => CleanJob(tick, now, j)
    case Record(target, delivered, lastErr, jitter) =>
      if id == target then RecordJob(tick, now, delivered, lastErr, jitter, j) else j
  }

  ghost function CleanTable(tick: Time, now: Time, t: Table): Table
    requires tick > 0
  {
    map id | id in t :: CleanJob(tick, now, t[id])
  }

  ghost function QueuedFor(t: Table, recipient: string): set<string> {
    set id | id in t && t[id].status == Queued && t[id].toPublicKey == recipient
  }

  ghost predicate OldestFirst(t: Table, ids: seq<string>) {
    && (forall i :: 0 <= i < |ids| ==> ids[i] in t)
    && (forall i, j :: 0 <= i < j < |ids| ==> ids[i] != ids[j] && t[ids[i]].createdAt <= t[ids[j]].createdAt)
  }

  /** The first `n` of the queued jobs for the recipient, by age. */
  ghost predicate FirstQueued(t: Table, recipient: string, n: nat, ids: seq<string>) {
    && OldestFirst(t, ids)
    && (forall id :: id in ids ==> id in QueuedFor(t, recipient))
    && (|ids| == n || forall id :: id in QueuedFor(t, recipient) ==> id in ids)
    && |ids| <= n
    && (forall a, b :: a in ids && b in QueuedFor(t, recipient) && b !in ids ==> t[a].createdAt <= t[b].createdAt)
  }

  ghost predicate OpOk(tick: Time, now: Time, op: Op, t: Table)
    requires tick > 0
  {
    match op
    case Submit(id, from, to, _, _, _) => id !in t && from != "" && to != "" && from != to
    case Claim(recipient, maxJobs, _, claimed) => FirstQueued(CleanTable(tick, now, t), recipient, ClampBatch(maxJobs), claimed)
    case Record(id, _, _, jitter) => id in t ==> 0 <= jitter <= BackoffBase(t[id].callbackAttempts + 1) / 5
    case _ => true
  }

  ghost predicate Next(tick: Time, now: Time, op: Op, t: Table, t': Table)
    requires tick > 0
  {
    && OpOk(tick, now, op, t)
    && (forall id :: id in t ==> id in t' && t'[id] == EffectOn(tick, now, op, id, t[id]))
    && (forall id :: id in t' && id !in t ==>
          op.Submit? && op.id == id && t'[id] == NewJob(tick, now, op.from, op.to, op.key, op.request, op.url))
  }

  datatype Event = Event(now: Time, op: Op)

  ghost predicate Run(tick: Time, events: seq<Event>, tables: seq<Table>) {
    && ValidTick(tick)
    && |tables| == |events| + 1 && tables[0] == map[]
    && (forall i, j :: 0 <= i < j < |events| ==> events[i].now <= events[j].now)
    && (forall i, j :: 0 <= i < |events| && j == i + 1 ==> Next(tick, events[i].now, events[i].op, tables[i], tables[j]))
  }

  // ----- What happened to one job

  /** From a claim to the last lease expiry it was given. */
  datatype Attempt = Attempt(start: Time, end: Time)

  datatype Outcome = Outcome(time: Time, delivered: bool)

  datatype History = History(attempts: seq<Attempt>, completions: seq<Time>, changes: nat, outcomes: seq<Outcome>)

  const NOTHING := History([], [], 0, [])

  function ObserveClean(now: Time, j: Job, h: History): History {
    if ActionFor(now, j) == Keep then h else h.(changes := h.changes + 1)
  }

  function ObserveClaim(tick: Time, now: Time, leaseSeconds: int, h: History): History
    requires tick > 0
  {
    h.(attempts := h.attempts + [Attempt(now, LeaseEnd(tick, now, leaseSeconds))], changes := h.changes + 1)
  }

  function ObserveExtend(tick: Time, now: Time, leaseSeconds: int, h: History): History
    requires tick > 0
  {
    if h.attempts == [] then h
    else
      var n := |h.attempts| - 1;
      h.(attempts := h.attempts[n := h.attempts[n].(end := LeaseEnd(tick, now, leaseSeconds))])
  }

  function Observe(tick: Time, now: Time, op: Op, id: string, j: Job, h: History): History
    requires tick > 0
  {
    match op
    case Submit(_, _, _, _, _, _) => h
    case Claim(_, _, leaseSeconds, claimed) =>
      var h' := ObserveClean(now, j, h);
      if id in claimed then ObserveClaim(tick, now, leaseSeconds, h') else h'
    case Complete(who, target, report) =>
      if id == target && HoldsLease(now, who, j) && CheckReport(report).Accepted? then
        h.(completions := h.completions + [now], changes := h.changes + 1)
      else h
    case Extend(who, target, leaseSeconds) =>
      if id == target && HoldsLease(now, who, j) then ObserveExtend(tick, now, leaseSeconds, h) else h
    case Cleanup => ObserveClean(now, j, h)
    case Record(target, delivered, _, _) =>
      if id == target then h.(outcomes := h.outcomes + [Outcome(now, delivered)]) else h
  }

  ghost function HistoryOf(tick: Time, events: seq<Event>, tables: seq<Table>, id: string): History
    requires tick > 0 && |tables| == |events| + 1
  {
    if events == [] then NOTHING
    else
      var n := |events| - 1;
      if id !in tables[n] then NOTHING
      else Observe(tick, events[n].now, events[n].op, id, tables[n][id], HistoryOf(tick, events[..n], tables[..n + 1], id))
  }

  // ----- The job invariant

  ghost predicate Shape(j: Job) {
    && j.fromPublicKey != "" && j.toPublicKey != "" && j.fromPublicKey != j.toPublicKey
    && j.status != Cancelled
    && (j.status == Claimed <==> j.leaseExpiresAt.Some?)
    && (j.status == Claimed <==> j.claimedBy == j.toPublicKey)
    && (j.status == Succeeded || j.status == Failed <==> j.completedAt.Some?)
    && (j.status == Succeeded <==> j.resultJSON != "")
    && (j.status == Failed <==> j.errorJSON != "")
    && 0 <= j.redelivery <= MAX_REDELIVERY
  }

  /** Attempts follow one another without overlap; the current one ends at the stored lease. */
  ghost predicate Leases(clock: Time, j: Job, attempts: seq<Attempt>) {
    && (forall a :: a in attempts ==> a.start <= a.end && a.start <= clock)
    && (forall i, k :: 0 <= i < k < |attempts| ==> attempts[i].end < attempts[k].start)
    && (j.status == Claimed ==> attempts != [] && j.leaseExpiresAt == Some(attempts[|attempts| - 1].end))
    && (j.status == Queued ==> forall a :: a in attempts ==> a.end < clock)
  }

  ghost predicate Tallies(j: Job, h: History) {
    match j.status
    case Queued => |h.attempts| == j.redelivery && h.changes == 2 * j.redelivery
    case Claimed => |h.attempts| == j.redelivery + 1 && h.changes == 2 * j.redelivery + 1
    case _ => |h.attempts| <= j.redelivery + 1 && h.changes <= 2 * j.redelivery + 2
  }

  ghost predicate Completions(j: Job, h: History) {
    && |h.completions| <= 1
    && (h.completions != [] ==>
          && (j.status == Succeeded || j.status == Failed) && h.attempts != []
          && h.attempts[|h.attempts| - 1].start <= h.completions[0] <= h.attempts[|h.attempts| - 1].end)
    && (j.status == Succeeded ==> h.completions != [])
  }

  ghost predicate JobInv(clock: Time, j: Job, h: History) {
    Shape(j) && Leases(clock, j, h.attempts) && Tallies(j, h) && Completions(j, h)
  }

  lemma CleanInv(tick: Time, clock: Time, now: Time, j: Job, h: History)
    requires ValidTick(tick) && clock <= now && JobInv(clock, j, h)
    ensures JobInv(now, CleanJob(tick, now, j), ObserveClean(now, j, h))
  {
    if ActionFor(now, j) == Requeue {
      var n := |h.attempts| - 1;
      assert h.attempts[n].end < now;
      assert forall i :: 0 <= i < n ==> h.attempts[i].end < h.attempts[n].start;
    }
  }

  lemma ClaimInv(tick: Time, now: Time, who: string, leaseSeconds: int, j: Job, h: History)
    requires ValidTick(tick) && JobInv(now, j, h)
    requires j.status == Queued && j.toPublicKey == who
    ensures JobInv(now, ClaimJob(tick, now, who, leaseSeconds, j), ObserveClaim(tick, now, leaseSeconds, h))
  {
  }

  lemma ExtendInv(tick: Time, clock: Time, now: Time, who: string, leaseSeconds: int, j: Job, h: History)
    requires ValidTick(tick) && clock <= now && JobInv(clock, j, h) && HoldsLease(now, who, j)
    ensures JobInv(now, ExtendJob(tick, now, leaseSeconds, j), ObserveExtend(tick, now, leaseSeconds, h))
  {
    var n := |h.attempts| - 1;
    assert h.attempts[n] in h.attempts;
    var attempts := ObserveExtend(tick, now, leaseSeconds, h).attempts;
    forall a | a in attempts ensures a.start <= a.end && a.start <= now {
      var i :| 0 <= i < |attempts| && attempts[i] == a;
      assert h.attempts[i] in h.attempts;
    }
  }

  lemma CompleteInv(tick: Time, clock: Time, now: Time, who: string, status: JobStatus, blob: JsonText, j: Job, h: History)
    requires ValidTick(tick) && clock <= now && JobInv(clock, j, h) && HoldsLease(now, who, j)
    requires status == Succeeded || status == Failed
    ensures JobInv(now, CompleteJob(tick, now, status, blob, j),
                   h.(completions := h.completions + [now], changes := h.changes + 1))
  {
    var n := |h.attempts| - 1;
    assert h.attempts[n] in h.attempts;
  }

  lemma RecordInv(tick: Time, clock: Time, now: Time, delivered: bool, lastErr: string, jitter: Time, j: Job, h: History)
    requires ValidTick(tick) && clock <= now && JobInv(clock, j, h)
    ensures JobInv(now, RecordJob(tick, now, delivered, lastErr, jitter, j),
                   h.(outcomes := h.outcomes + [Outcome(now, delivered)]))
  {
    hide TrimSpace, BackoffBase, Stored;
    var r := RecordJob(tick, now, delivered, lastErr, jitter, j);
    assert r.status == j.status && r.redelivery == j.redelivery && r.leaseExpiresAt == j.leaseExpiresAt
        && r.claimedBy == j.claimedBy && r.toPublicKey == j.toPublicKey && r.completedAt == j.completedAt
        && r.resultJSON == j.resultJSON && r.errorJSON == j.errorJSON;
    hide RecordJob;
  }

  lemma LaterInv(clock: Time, now: Time, j: Job, h: History)
    requires clock <= now && JobInv(clock, j, h)
    ensures JobInv(now, j, h)
  {
  }

  lemma AcceptedStatus(report: Report)
    requires CheckReport(report).Accepted?
    ensures report.status == Succeeded || report.status == Failed
  {
  }

  lemma ClaimedWasQueued(tick: Time, now: Time, op: Op, t: Table, id: string)
    requires tick > 0 && op.Claim? && OpOk(tick, now, op, t) && id in t && id in op.claimed
    ensures CleanJob(tick, now, t[id]).status == Queued && CleanJob(tick, now, t[id]).toPublicKey == op.recipient
  {
    assert id in QueuedFor(CleanTable(tick, now, t), op.recipient);
  }

  /** Every operation keeps the invariant of every job. */
  lemma EffectInv(tick: Time, clock: Time, now: Time, op: Op, t: Table, id: string, h: History)
    requires ValidTick(tick) && clock <= now && OpOk(tick, now, op, t)
    requires id in t && JobInv(clock, t[id], h)
    ensures JobInv(now, EffectOn(tick, now, op, id, t[id]), Observe(tick, now, op, id, t[id], h))
  {
    var j := t[id];
    hide JobInv, CheckReport, HoldsLease, OpOk;
    LaterInv(clock, now, j, h);
    match op
    case Submit(_, _, _, _, _, _) =>
    case Claim(recipient, _, leaseSeconds, claimed) =>
      CleanInv(tick, clock, now, j, h);
      if id in claimed {
        ClaimedWasQueued(tick, now, op, t, id);
        ClaimInv(tick, now, recipient, leaseSeconds, CleanJob(tick, now, j), ObserveClean(now, j, h));
      }
    case Complete(who, target, report) =>
      if id == target && HoldsLease(now, who, j) && CheckReport(report).Accepted? {
        AcceptedStatus(report);
        CompleteInv(tick, clock, now, who, report.status, CheckReport(report).blob, j, h);
      }
    case Extend(who, target, leaseSeconds) =>
      if id == target && HoldsLease(now, who, j) {
        ExtendInv(tick, clock, now, who, leaseSeconds, j, h);
      }
    case Cleanup =>
      CleanInv(tick, clock, now, j, h);
    case Record(target, delivered, lastErr, jitter) =>
      if id == target {
        RecordInv(tick, clock, now, delivered, lastErr, jitter, j, h);
      }
  }

  lemma NewJobInv(tick: Time, now: Time, op: Op)
    requires ValidTick(tick) && op.Submit? && OpOk(tick, now, op, map[])
    ensures JobInv(now, NewJob(tick, now, op.from, op.to, op.key, op.request, op.url), NOTHING)
  {
  }

  lemma RunPrefix(tick: Time, events: seq<Event>, tables: seq<Table>, n: nat)
    requires Run(tick, events, tables) && n <= |events|
    ensures Run(tick, events[..n], tables[..n + 1])
  {
  }

  /** Every job of every reachable table satisfies the invariant. */
  lemma {:induction false} RunKeepsJobInv(tick: Time, events: seq<Event>, tables: seq<Table>, id: string)
    requires Run(tick, events, tables) && id in tables[|events|]
    ensures events != []
    ensures JobInv(events[|events| - 1].now, tables[|events|][id], HistoryOf(tick, events, tables, id))
  {
    hide JobInv, EffectOn, Observe, NewJob;
    var n := |events| - 1;
    var now, op := events[n].now, events[n].op;
    assert Next(tick, now, op, tables[n], tables[n + 1]);
    if id in tables[n] {
      RunPrefix(tick, events, tables, n);
      RunKeepsJobInv(tick, events[..n], tables[..n + 1], id);
      EffectInv(tick, events[n - 1].now, now, op, tables[n], id, HistoryOf(tick, events[..n], tables[..n + 1], id));
    } else {
      NewJobInv(tick, now, op);
    }
  }

  // ----- Consequences over whole runs

  ghost predicate CompletedInside(h: History) {
    h.completions != [] ==>
      h.attempts != [] && h.attempts[|h.attempts| - 1].start <= h.completions[0] <= h.attempts[|h.attempts| - 1].end
  }

  ghost predicate Exclusive(attempts: seq<Attempt>) {
    forall i, k :: 0 <= i < k < |attempts| ==> attempts[i].end < attempts[k].start
  }

  lemma InvGivesExclusivity(clock: Time, j: Job, h: History)
    requires JobInv(clock, j, h)
    ensures Exclusive(h.attempts) && |h.attempts| <= MAX_REDELIVERY + 1 && h.changes <= 22
    ensures |h.completions| <= 1 && CompletedInside(h)
  {
  }

  /** Claim intervals of one job never overlap, a completion is accepted at most
      once and only inside the current interval, and a job is claimed at most
      eleven times with at most twenty-two status changes. */
  lemma LeaseExclusivity(tick: Time, events: seq<Event>, tables: seq<Table>, id: string)
    requires Run(tick, events, tables) && id in tables[|events|]
    ensures Exclusive(HistoryOf(tick, events, tables, id).attempts)
    ensures |HistoryOf(tick, events, tables, id).attempts| <= MAX_REDELIVERY + 1
    ensures |HistoryOf(tick, events, tables, id).completions| <= 1
    ensures CompletedInside(HistoryOf(tick, events, tables, id))
    ensures HistoryOf(tick, events, tables, id).changes <= 22
  {
    hide Exclusive, JobInv, CompletedInside, HistoryOf;
    RunKeepsJobInv(tick, events, tables, id);
    InvGivesExclusivity(events[|events| - 1].now, tables[|events|][id], HistoryOf(tick, events, tables, id));
  }

  lemma ReachableShape(tick: Time, events: seq<Event>, tables: seq<Table>, id: string)
    requires Run(tick, events, tables) && id in tables[|events|]
    ensures Shape(tables[|events|][id])
  {
    RunKeepsJobInv(tick, events, tables, id);
  }

  predicate SameEnd(a: Job, b: Job) {
    a.status == b.status && a.resultJSON == b.resultJSON && a.errorJSON == b.errorJSON && a.completedAt == b.completedAt
  }

  lemma EffectTerminal(tick: Time, now: Time, op: Op, t: Table, id: string)
    requires tick > 0 && OpOk(tick, now, op, t) && id in t && Terminal(t[id])
    ensures SameEnd(t[id], EffectOn(tick, now, op, id, t[id]))
  {
    if op.Claim? && id in op.claimed {
      ClaimedWasQueued(tick, now, op, t, id);
    }
  }

  lemma NextTerminal(tick: Time, e: Event, t: Table, t': Table, id: string)
    requires tick > 0 && Next(tick, e.now, e.op, t, t') && id in t && Terminal(t[id])
    ensures id in t' && Terminal(t'[id]) && SameEnd(t[id], t'[id])
  {
    EffectTerminal(tick, e.now, e.op, t, id);
    hide EffectOn, OpOk, NewJob;
  }

  lemma RunNext(tick: Time, events: seq<Event>, tables: seq<Table>, k: nat)
    requires Run(tick, events, tables) && k < |events|
    ensures tick > 0 && Next(tick, events[k].now, events[k].op, tables[k], tables[k + 1])
  {
    hide Next;
  }

  /** Succeeded, Failed and Expired are final, and so is what was reported. */
  lemma {:induction false} TerminalIsFinal(tick: Time, events: seq<Event>, tables: seq<Table>, id: string, i: nat, k: nat)
    requires Run(tick, events, tables) && i <= k <= |events|
    requires id in tables[i] && Terminal(tables[i][id])
    ensures id in tables[k] && Terminal(tables[k][id])
    ensures SameEnd(tables[i][id], tables[k][id])
    decreases k
  {
    if i < k {
      TerminalIsFinal(tick, events, tables, id, i, k - 1);
      RunNext(tick, events, tables, k - 1);
      hide Run, Next, Terminal;
      NextTerminal(tick, events[k - 1], tables[k - 1], tables[k], id);
    }
  }

  // ----- Cleanup

  /** Nothing is left to expire, requeue or fail, so a second pass changes
      nothing and no queued job that claiming sees is past its expiry. */
  lemma CleanupIsComplete(tick: Time, now: Time, t: Table)
    requires tick > 0
    ensures forall id :: id in t ==> ActionFor(now, CleanTable(tick, now, t)[id]) == Keep
    ensures CleanTable(tick, now, CleanTable(tick, now, t)) == CleanTable(tick, now, t)
    ensures forall id :: id in t && CleanTable(tick, now, t)[id].status == Queued ==> now <= t[id].expiresAt
  {
    forall id | id in t ensures ActionFor(now, CleanJob(tick, now, t[id])) == Keep {
    }
  }
}
