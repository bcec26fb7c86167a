/** The job service: a table updated in place, each mutex-protected method one
    atomic operation of the queue. */
module A2AService {
  import opened A2AJobs
  import opened A2ARuns
  import opened A2AOperations
  import opened Text
  import opened Options

  datatype Response = Ok(job: Job) | Err(error: ServiceError)

  datatype SubmitResponse = Created(id: string) | Existing(id: string) | Refused

  /** Answers of the systems asked before a job is accepted: key decoding, the
      premium list, the revocation list, URL parsing and the request encoder. */
  datatype Gate = Gate(validKey: bool, premium: bool, revoked: bool, methodGiven: bool, httpsURL: bool, request: Encoding)

  lemma {:induction false} OldestExists(t: Table, s: set<string>) returns (x: string)
    requires s != {} && forall id :: id in s ==> id in t
    ensures x in s && forall y :: y in s ==> t[x].createdAt <= t[y].createdAt
  {
    var a :| a in s;
    x := a;
    var rest := s - {a};
    if rest != {} {
      var b := OldestExists(t, rest);
      if t[b].createdAt < t[a].createdAt {
        x := b;
      }
    }
    forall y | y in s ensures t[x].createdAt <= t[y].createdAt {
      if y != a {
        assert y in rest;
      }
    }
  }

  lemma {:induction false} NewestExists(t: Table, s: set<string>) returns (x: string)
    requires s != {} && forall id :: id in s ==> id in t
    ensures x in s && forall y :: y in s ==> t[y].createdAt <= t[x].createdAt
  {
    var a :| a in s;
    x := a;
    var rest := s - {a};
    if rest != {} {
      var b := NewestExists(t, rest);
      if t[b].createdAt > t[a].createdAt {
        x := b;
      }
    }
    forall y | y in s ensures t[x].createdAt >= t[y].createdAt {
      if y != a {
        assert y in rest;
      }
    }
  }

  /** Jobs of the sender submitted under the idempotency key. */
  function Matches(t: Table, from: string, key: string): set<string> {
    set id | id in t && t[id].fromPublicKey == from && t[id].idempotencyKey == key
  }

  /** What is checked before the queue is looked at. */
  predicate Admitted(from: string, to: string, url: string, gate: Gate) {
    && from != "" && to != "" && from != to
    && gate.validKey && gate.premium && !gate.revoked && gate.methodGiven
    && (url != "" ==> gate.httpsURL)
  }

  function Least(a: nat, b: nat): nat {
    if a < b then a else b
  }

  /** The jobs whose cleanup action is `act`. */
  ghost function Acted(now: Time, t: Table, act: CleanupAction): set<string> {
    set id | id in t && ActionFor(now, t[id]) == act
  }

  /** The jobs an operation changed. */
  ghost function Changed(t: Table, t': Table): set<string> {
    set id | id in t && id in t' && t'[id] != t[id]
  }

  /** The jobs whose status went from one of `from` to `to`. */
  ghost function Moved(t: Table, t': Table, from: set<JobStatus>, to: JobStatus): set<string> {
    set id | id in t && id in t' && t[id].status in from && t'[id].status == to
  }

  lemma ActedMoves(tick: Time, now: Time, t: Table)
    requires tick > 0
    ensures var t' := CleanTable(tick, now, t);
      && Acted(now, t, Expire) == Moved(t, t', {Queued, Claimed}, Expired)
      && Acted(now, t, Requeue) == Moved(t, t', {Claimed}, Queued)
      && Acted(now, t, FailLease) == Moved(t, t', {Claimed}, Failed)
  {
  }

  /** The three counters add up to the number of jobs changed. */
  lemma CountersAddUp(tick: Time, now: Time, t: Table)
    requires tick > 0
    ensures |Acted(now, t, Expire)| + |Acted(now, t, FailLease)| + |Acted(now, t, Requeue)|
         == |Changed(t, CleanTable(tick, now, t))|
  {
    var e, f, r := Acted(now, t, Expire), Acted(now, t, FailLease), Acted(now, t, Requeue);
    assert Changed(t, CleanTable(tick, now, t)) == e + f + r by {
      forall id | id in t
        ensures id in Changed(t, CleanTable(tick, now, t)) <==> id in e || id in f || id in r
      {
        CleaningChanges(tick, now, t[id]);
      }
    }
    hide Acted, Changed, CleanTable;
    assert e !! f && e + f !! r by {
      ActionsDiffer(now, t);
    }
  }

  lemma CleaningChanges(tick: Time, now: Time, j: Job)
    requires tick > 0
    ensures CleanJob(tick, now, j) != j <==> ActionFor(now, j) != Keep
  {
  }

  lemma ActionsDiffer(now: Time, t: Table)
    ensures forall a, b :: a != b ==> Acted(now, t, a) !! Acted(now, t, b)
  {
  }

  // ----- Due callbacks

  ghost function DueIn(now: Time, t: Table): set<string> {
    set id | id in t && Due(now, t[id])
  }

  /** Sort order of due callbacks: by the time they were due, unset first, then by age. */
  predicate Before(a: Job, b: Job) {
    if a.nextCallbackAt.None? && b.nextCallbackAt.None? then a.createdAt < b.createdAt
    else if a.nextCallbackAt.None? then true
    else if b.nextCallbackAt.None? then false
    else if a.nextCallbackAt.value == b.nextCallbackAt.value then a.createdAt < b.createdAt
    else a.nextCallbackAt.value < b.nextCallbackAt.value
  }

  ghost predicate Urgent(t: Table, ids: seq<string>) {
    && (forall i :: 0 <= i < |ids| ==> ids[i] in t)
    && (forall i, j :: 0 <= i < j < |ids| ==> ids[i] != ids[j] && !Before(t[ids[j]], t[ids[i]]))
  }

  /** The `n` most urgent of the due callbacks, in order. */
  ghost predicate FirstDue(now: Time, t: Table, n: nat, ids: seq<string>) {
    && Urgent(t, ids) && |ids| == Least(n, |DueIn(now, t)|)
    && (forall id :: id in ids ==> id in DueIn(now, t))
    && (forall a, b :: a in ids && b in DueIn(now, t) && b !in ids ==> !Before(t[b], t[a]))
  }

  /** Due no later, where no due time is earliest, and as old where they are due together. */
  predicate NoLater(a: Job, b: Job) {
    && (a.nextCallbackAt.None? || (b.nextCallbackAt.Some? && a.nextCallbackAt.value <= b.nextCallbackAt.value))
    && (a.nextCallbackAt == b.nextCallbackAt ==> a.createdAt <= b.createdAt)
  }

  lemma FirstDueInOrder(now: Time, t: Table, n: nat, ids: seq<string>)
    requires FirstDue(now, t, n, ids)
    ensures forall i, k :: 0 <= i < k < |ids| ==> ids[i] in t && ids[k] in t && NoLater(t[ids[i]], t[ids[k]])
    ensures forall a, b :: a in ids && b in t && Due(now, t[b]) && b !in ids ==> a in t && NoLater(t[a], t[b])
  {
  }

  lemma {:induction false} MostUrgentExists(t: Table, s: set<string>) returns (x: string)
    requires s != {} && forall id :: id in s ==> id in t
    ensures x in s && forall y :: y in s ==> !Before(t[y], t[x])
  {
    var a :| a in s;
    x := a;
    var rest := s - {a};
    if rest != {} {
      var b := MostUrgentExists(t, rest);
      if Before(t[b], t[a]) {
        x := b;
      }
    }
    forall y | y in s ensures !Before(t[y], t[x]) {
      if y != a {
        assert y in rest;
      }
    }
  }

  lemma DuePrefix(now: Time, t: Table, sorted: seq<string>, n: nat)
    requires Urgent(t, sorted) && |sorted| == |DueIn(now, t)| && forall id :: id in sorted <==> id in DueIn(now, t)
    ensures FirstDue(now, t, n, if |sorted| > n then sorted[..n] else sorted)
  {
    hide Before, DueIn;
    var ids := if |sorted| > n then sorted[..n] else sorted;
    forall a, b | a in ids && b in DueIn(now, t) && b !in ids ensures !Before(t[b], t[a]) {
      var i :| 0 <= i < |ids| && ids[i] == a;
      var k :| 0 <= k < |sorted| && sorted[k] == b;
      assert k >= |ids|;
    }
  }

  function DeadAmong(t: Table, ids: seq<string>): nat {
    if ids == [] then 0
    else
      var id := ids[|ids| - 1];
      DeadAmong(t, ids[..|ids| - 1]) + if id in t && t[id].callbackStatus == DeadLettered then 1 else 0
  }

  lemma {:induction false} NoneDead(now: Time, t: Table, ids: seq<string>)
    requires forall id :: id in ids ==> id in DueIn(now, t)
    ensures DeadAmong(t, ids) == 0
  {
    if ids != [] {
      assert ids[|ids| - 1] in DueIn(now, t);
      NoneDead(now, t, ids[..|ids| - 1]);
    }
  }

  /** No due callback is a dead letter, so counting them among the due finds none. */
  lemma FirstDueMeans(now: Time, t: Table, n: nat, ids: seq<string>)
    requires FirstDue(now, t, n, ids)
    ensures |ids| == Least(n, |DueIn(now, t)|) && DeadAmong(t, ids) == 0
  {
    NoneDead(now, t, ids);
  }

  class Service {
    const tick: Time
    var jobs: Table

    constructor (tick: Time)
      requires tick > 0
      ensures this.tick == tick && jobs == map[]
    {
      this.tick := tick;
      jobs := map[];
    }

    method SubmitJob(now: Time, from: string, toRaw: string, keyRaw: string, urlRaw: string, gate: Gate, newID: string)
      returns (r: SubmitResponse)
      requires tick > 0
      modifies this
      ensures r.Existing? <==>
        && Admitted(from, TrimSpace(toRaw), TrimSpace(urlRaw), gate)
        && TrimSpace(keyRaw) != "" && Matches(old(jobs), from, TrimSpace(keyRaw)) != {}
      ensures r.Created? <==>
        && Admitted(from, TrimSpace(toRaw), TrimSpace(urlRaw), gate) && !r.Existing?
        && gate.request.Json? && |gate.request.text| <= REQUEST_MAX_BYTES && newID !in old(jobs)
      ensures !r.Created? ==> jobs == old(jobs)
      ensures r.Existing? ==> r.id in Matches(jobs, from, TrimSpace(keyRaw))
      ensures r.Existing? ==> forall id :: id in Matches(jobs, from, TrimSpace(keyRaw)) ==> jobs[id].createdAt <= jobs[r.id].createdAt
      ensures r.Created? ==>
        && r.id == newID && gate.request.Json?
        && Next(tick, now, Submit(newID, from, TrimSpace(toRaw), TrimSpace(keyRaw), gate.request.text, TrimSpace(urlRaw)),
                old(jobs), jobs)
      ensures r.Created? ==>
        && WaitsFor(tick, now, jobs, newID, from, TrimSpace(toRaw), TrimSpace(keyRaw))
        && jobs[newID].requestJSON == gate.request.text && jobs[newID].callbackURL == TrimSpace(urlRaw)
        && jobs == old(jobs)[newID := jobs[newID]]
    {
      hide TrimSpace, WaitsFor;
      var to, key, url := TrimSpace(toRaw), TrimSpace(keyRaw), TrimSpace(urlRaw);
      if from == "" || to == "" || from == to || !gate.validKey || !gate.premium || gate.revoked || !gate.methodGiven {
        return Refused;
      }
      if url != "" && !gate.httpsURL {
        return Refused;
      }
      if key != "" {
        var matches := Matches(jobs, from, key);
        if matches != {} {
          ghost var newest := NewestExists(jobs, matches);
          var existing :| existing in matches && forall id :: id in matches ==> jobs[id].createdAt <= jobs[existing].createdAt;
          return Existing(existing);
        }
      }
      if gate.request.Unencodable? || |gate.request.text| > REQUEST_MAX_BYTES || newID in jobs {
        return Refused;
      }
      jobs := jobs[newID := NewJob(tick, now, from, to, key, gate.request.text, url)];
      SubmittedWaits(tick, now, Submit(newID, from, to, key, gate.request.text, url), old(jobs), jobs);
      r := Created(newID);
    }

    /** Expires, requeues or fails whatever is past its time; counts each kind, and the
        callbacks that are due at a second reading of the clock. */
    method CleanupQueue(now: Time, later: Time)
      returns (expired: nat, requeued: nat, failedLeases: nat, callbacksDue: nat, callbacksDead: nat)
      requires tick > 0
      modifies this
      ensures jobs == CleanTable(tick, now, old(jobs))
      ensures expired == |Acted(now, old(jobs), Expire)|
      ensures requeued == |Acted(now, old(jobs), Requeue)|
      ensures failedLeases == |Acted(now, old(jobs), FailLease)|
      ensures Acted(now, old(jobs), Expire) == Moved(old(jobs), jobs, {Queued, Claimed}, Expired)
      ensures Acted(now, old(jobs), Requeue) == Moved(old(jobs), jobs, {Claimed}, Queued)
      ensures Acted(now, old(jobs), FailLease) == Moved(old(jobs), jobs, {Claimed}, Failed)
      ensures callbacksDue == Least(1000, |DueIn(later, jobs)|) && callbacksDead == 0
    {
      hide SweptTable, ActedIn, CleanTable, Acted, CleanJob, ActionFor;
      expired, requeued, failedLeases := 0, 0, 0;
      ghost var before, swept: set<string> := jobs, {};
      var todo := set id | id in jobs;
      SweptNone(tick, now, before);
      while todo != {}
        invariant forall id :: id in before <==> id in todo || id in swept
        invariant todo !! swept
        invariant jobs == SweptTable(tick, now, before, swept)
        invariant expired == |ActedIn(now, before, Expire, swept)|
        invariant requeued == |ActedIn(now, before, Requeue, swept)|
        invariant failedLeases == |ActedIn(now, before, FailLease, swept)|
        decreases |todo|
      {
        var id :| id in todo;
        SweepOne(tick, now, before, swept, id);
        swept := swept + {id};
        var action := ActionFor(now, jobs[id]);
        jobs := jobs[id := CleanJob(tick, now, jobs[id])];
        match action {
          case Expire => expired := expired + 1;
          case FailLease => failedLeases := failedLeases + 1;
          case Requeue => requeued := requeued + 1;
          case Keep =>
        }
        todo := todo - {id};
      }
      SweptAll(tick, now, before, swept);
      ActedMoves(tick, now, before);
      var due := DueCallbacks(later, 1000);
      callbacksDue := |due|;
      callbacksDead := CountDead(due);
      FirstDueMeans(later, jobs, 1000, due);
    }

    method CountDead(ids: seq<string>) returns (dead: nat)
      ensures dead == DeadAmong(jobs, ids)
    {
      dead := 0;
      for i := 0 to |ids|
        invariant dead == DeadAmong(jobs, ids[..i])
      {
        assert ids[..i + 1][..i] == ids[..i];
        if ids[i] in jobs && jobs[ids[i]].callbackStatus == DeadLettered {
          dead := dead + 1;
        }
      }
      assert ids[..|ids|] == ids;
    }

    /** SELECT … ORDER BY created_at LIMIT n: ties in any order. */
    method QueryQueued(recipient: string, limit: nat) returns (ids: seq<string>)
      ensures FirstQueued(jobs, recipient, limit, ids)
    {
      ids := [];
      var rest := set id | id in jobs && jobs[id].status == Queued && jobs[id].toPublicKey == recipient;
      while |ids| < limit && rest != {}
        invariant |ids| <= limit && OldestFirst(jobs, ids)
        invariant forall id :: id in QueuedFor(jobs, recipient) <==> id in ids || id in rest
        invariant forall id :: id in ids ==> id !in rest
        invariant forall a, b :: a in ids && b in rest ==> jobs[a].createdAt <= jobs[b].createdAt
        decreases |rest|
      {
        ghost var oldest := OldestExists(jobs, rest);
        var id :| id in rest && forall y :: y in rest ==> jobs[id].createdAt <= jobs[y].createdAt;
        ids, rest := ids + [id], rest - {id};
      }
    }

    /** Cleans up, then claims the recipient's oldest queued jobs. */
    method ClaimJobs(now: Time, recipient: string, maxJobs: int, leaseSeconds: int) returns (claimed: seq<string>)
      requires tick > 0
      modifies this
      ensures Next(tick, now, Claim(recipient, maxJobs, leaseSeconds, claimed), old(jobs), jobs)
      ensures jobs.Keys == old(jobs).Keys
      ensures TakesOldest(old(jobs), Claimable(now, old(jobs), recipient),
                          if maxJobs <= 0 then 5 else if maxJobs >= 20 then 20 else maxJobs, claimed)
      ensures forall id :: id in claimed ==> id in jobs && LeasedTo(tick, now, recipient, leaseSeconds, jobs[id])
    {
      var max := ClampBatch(maxJobs);
      ghost var before := jobs;
      CleanupIsComplete(tick, now, jobs);
      var e, r, f, due, dead := CleanupQueue(now, now);
      hide CleanTable, ClaimedTable, TakesOldest, Claimable, LeasedTo;
      var results := QueryQueued(recipient, max * 4);
      claimed := ClaimEach(now, recipient, leaseSeconds, max, results);
      FirstOfFirst(CleanTable(tick, now, before), recipient, max, results);
      ClaimIsNext(tick, now, recipient, maxJobs, leaseSeconds, before, claimed);
      ghost var op := Claim(recipient, maxJobs, leaseSeconds, claimed);
      ClaimTakesOldest(tick, now, op, before, jobs);
      forall id | id in claimed ensures id in jobs && LeasedTo(tick, now, recipient, leaseSeconds, jobs[id]) {
        ClaimLeases(tick, now, op, before, jobs, id);
      }
    }

    /** Claims the queried jobs in order until `max` are claimed. */
    method ClaimEach(now: Time, recipient: string, leaseSeconds: int, max: nat, results: seq<string>) returns (claimed: seq<string>)
      requires tick > 0 && OldestFirst(jobs, results)
      requires forall id :: id in results ==> now <= jobs[id].expiresAt
      modifies this
      ensures claimed == results[..Least(max, |results|)]
      ensures jobs == ClaimedTable(tick, now, recipient, leaseSeconds, old(jobs), claimed)
    {
      claimed := [];
      for i := 0 to |results|
        invariant i == |claimed| <= max && claimed == results[..i]
        invariant jobs == ClaimedTable(tick, now, recipient, leaseSeconds, old(jobs), claimed)
      {
        if |claimed| >= max {
          break;
        }
        var id := results[i];
        ClaimOne(tick, now, recipient, leaseSeconds, old(jobs), claimed, id);
        var job := jobs[id];
        if now > job.expiresAt {
          // Cleanup has just expired every such job.
          assert false;
        }
        jobs := jobs[id := ClaimJob(tick, now, recipient, leaseSeconds, job)];
        claimed := claimed + [id];
      }
    }

    /** Accepts a result or an error from the holder of an unexpired lease. */
    method CompleteClaim(now: Time, who: string, id: string, report: Report) returns (r: Response)
      requires tick > 0
      modifies this
      ensures Next(tick, now, Complete(who, id, report), old(jobs), jobs)
      ensures r.Ok? <==> id in old(jobs) && HoldsLease(now, who, old(jobs)[id]) && WellFormed(report)
      ensures r.Ok? ==> jobs == old(jobs)[id := r.job] && HoldsReport(r.job, report)
      ensures r.Err? ==> jobs == old(jobs)
    {
      AcceptedIffWellFormed(report);
      hide TrimSpace;
      if report.status != Succeeded && report.status != Failed {
        return Err(InvalidStatus);
      }
      if id !in jobs {
        return Err(NotFound);
      }
      var job := jobs[id];
      if job.toPublicKey != who {
        return Err(Forbidden);
      }
      if job.status != Claimed || job.claimedBy != who {
        return Err(InvalidState);
      }
      if job.leaseExpiresAt.None? || now > job.leaseExpiresAt.value {
        return Err(LeaseExpired);
      }
      var checked := CheckReport(report);
      if checked.Rejected? {
        return Err(checked.error);
      }
      job := CompleteJob(tick, now, report.status, checked.blob, job);
      jobs := jobs[id := job];
      r := Ok(job);
    }

    /** Gives the holder a new lease counted from now; it may end earlier than the old one. */
    method ExtendLease(now: Time, who: string, id: string, leaseSeconds: int) returns (r: Response)
      requires tick > 0
      modifies this
      ensures Next(tick, now, Extend(who, id, leaseSeconds), old(jobs), jobs)
      ensures r.Ok? <==> id in old(jobs) && HoldsLease(now, who, old(jobs)[id])
      ensures r.Ok? ==>
        && jobs == old(jobs)[id := r.job]
        && r.job.leaseExpiresAt.Some? && LeaseFor(tick, now, leaseSeconds, r.job.leaseExpiresAt.value)
        && r.job == old(jobs)[id].(leaseExpiresAt := r.job.leaseExpiresAt, updatedAt := r.job.updatedAt)
      ensures r.Err? ==> jobs == old(jobs)
    {
      if id !in jobs {
        return Err(NotFound);
      }
      var job := jobs[id];
      if job.toPublicKey != who {
        return Err(Forbidden);
      }
      if job.status != Claimed || job.claimedBy != who {
        return Err(InvalidState);
      }
      if job.leaseExpiresAt.None? || now > job.leaseExpiresAt.value {
        return Err(LeaseExpired);
      }
      LeaseEndMeans(tick, now, leaseSeconds);
      job := ExtendJob(tick, now, leaseSeconds, job);
      jobs := jobs[id := job];
      r := Ok(job);
    }

    /** The jobs whose callback is to be attempted now, most urgent first; ties in any order. */
    method DueCallbacks(now: Time, limit: int) returns (due: seq<string>)
      ensures FirstDue(now, jobs, if limit <= 0 then 50 else limit, due)
      ensures forall i, k :: 0 <= i < k < |due| ==> due[i] in jobs && due[k] in jobs && NoLater(jobs[due[i]], jobs[due[k]])
      ensures forall a, b :: a in due && b in jobs && Due(now, jobs[b]) && b !in due ==> a in jobs && NoLater(jobs[a], jobs[b])
    {
      hide FirstDue, Before, Urgent;
      var found := CollectDue(now);
      var sorted := SortDue(now, found);
      var most := if limit <= 0 then 50 else limit;
      due := if |sorted| > most then sorted[..most] else sorted;
      DuePrefix(now, jobs, sorted, most);
      FirstDueInOrder(now, jobs, most, due);
    }

    /** The pending and the retrying jobs, filtered. */
    method CollectDue(now: Time) returns (found: set<string>)
      ensures found == DueIn(now, jobs)
    {
      var pending := set id | id in jobs && jobs[id].callbackStatus == Pending;
      var retrying := set id | id in jobs && jobs[id].callbackStatus == Retrying;
      found := {};
      var todo := pending + retrying;
      while todo != {}
        invariant forall id :: id in todo ==> id in pending + retrying
        invariant forall id :: id in found <==> id in pending + retrying && id !in todo && Due(now, jobs[id])
        decreases |todo|
      {
        var id :| id in todo;
        todo := todo - {id};
        var job := jobs[id];
        assert id in pending + retrying;
        if job.callbackURL != ""
           && (job.status == Succeeded || job.status == Failed)
           && !(job.nextCallbackAt.Some? && now < job.nextCallbackAt.value)
        {
          found := found + {id};
        }
      }
      assert found == DueIn(now, jobs);
    }

    /** sort.SliceStable by urgency. */
    method SortDue(now: Time, found: set<string>) returns (sorted: seq<string>)
      requires found == DueIn(now, jobs)
      ensures Urgent(jobs, sorted) && |sorted| == |found| && forall id :: id in sorted <==> id in found
    {
      sorted := [];
      var rest := found;
      while rest != {}
        invariant Urgent(jobs, sorted) && rest <= found && |sorted| + |rest| == |found|
        invariant forall id :: id in found <==> id in sorted || id in rest
        invariant forall id :: id in sorted ==> id !in rest
        invariant forall a, b :: a in sorted && b in rest ==> !Before(jobs[b], jobs[a])
        decreases |rest|
      {
        hide Before;
        ghost var first := MostUrgentExists(jobs, rest);
        var id :| id in rest && forall y :: y in rest ==> !Before(jobs[y], jobs[id]);
        sorted, rest := sorted + [id], rest - {id};
      }
    }

    /** Counts a delivery attempt and schedules the next, if any. Looks at
        neither the job's status nor its callback's. */
    method RecordCallbackOutcome(now: Time, id: string, delivered: bool, lastErr: string, jitter: Time)
      returns (r: Response)
      requires tick > 0
      requires id in jobs ==> 0 <= jitter <= BackoffBase(jobs[id].callbackAttempts + 1) / 5
      modifies this
      ensures Next(tick, now, Record(id, delivered, lastErr, jitter), old(jobs), jobs)
      ensures r.Ok? <==> id in old(jobs)
      ensures r.Ok? ==> jobs == old(jobs)[id := r.job] && Counts(tick, now, delivered, lastErr, jitter, old(jobs)[id], r.job)
      ensures r.Err? ==> jobs == old(jobs)
    {
      OutcomeIsNext(tick, now, Record(id, delivered, lastErr, jitter), jobs);
      hide Next, OpOk, EffectOn, Stored, BackoffBase, TrimSpace;
      if id !in jobs {
        return Err(NotFound);
      }
      ghost var recorded := RecordJob(tick, now, delivered, lastErr, jitter, jobs[id]);
      RecordCounts(tick, now, delivered, lastErr, jitter, jobs[id]);
      hide Counts;
      var job := jobs[id];
      job := job.(callbackAttempts := job.callbackAttempts + 1, updatedAt := Stored(tick, now));
      if delivered {
        job := job.(callbackStatus := Delivered, nextCallbackAt := None, lastCallbackErr := "");
        assert job == recorded;
        jobs := jobs[id := job];
        return Ok(job);
      }
      job := job.(lastCallbackErr := TrimSpace(lastErr));
      var dead := job.callbackAttempts >= CALLBACK_MAX_ATTEMPTS;
      if job.completedAt.Some? && now - job.completedAt.value > CALLBACK_RETRY_WINDOW {
        dead := true;
      }
      if dead {
        job := job.(callbackStatus := DeadLettered, nextCallbackAt := None);
        assert job == recorded;
        jobs := jobs[id := job];
        return Ok(job);
      }
      var delay := CallbackBackoff(job.callbackAttempts, jitter);
      job := job.(callbackStatus := Retrying, nextCallbackAt := Some(Stored(tick, now + delay)));
      assert job == recorded;
      jobs := jobs[id := job];
      r := Ok(job);
    }
  }

  /** A second submit by the sender under the same key answers with the job of the first,
      whatever else it asks for. */
  method SubmitTwice(service: Service, from: string, keyRaw: string, now: Time, to: string, url: string, gate: Gate, id: string,
                     later: Time, to2: string, url2: string, gate2: Gate, id2: string)
    returns (first: SubmitResponse, second: SubmitResponse)
    requires service.tick > 0
    modifies service
    ensures first.Created? && TrimSpace(keyRaw) != "" && Admitted(from, TrimSpace(to2), TrimSpace(url2), gate2) ==>
      second == Existing(first.id)
  {
    hide TrimSpace, Next;
    ghost var before := service.jobs;
    first := service.SubmitJob(now, from, to, keyRaw, url, gate, id);
    ghost var key := TrimSpace(keyRaw);
    ghost var was := service.jobs;
    assert first.Created? && key != "" ==> Matches(before, from, key) == {} && Matches(was, from, key) == {id};
    second := service.SubmitJob(later, from, to2, keyRaw, url2, gate2, id2);
  }

  lemma OutcomeIsNext(tick: Time, now: Time, op: Op, t: Table)
    requires tick > 0 && op.Record? && OpOk(tick, now, op, t)
    ensures op.id in t ==>
      Next(tick, now, op, t, t[op.id := RecordJob(tick, now, op.delivered, op.lastErr, op.jitter, t[op.id])])
    ensures op.id !in t ==> Next(tick, now, op, t, t)
  {
  }

  // ----- Loops over the table

  ghost function SweptTable(tick: Time, now: Time, t: Table, swept: set<string>): Table
    requires tick > 0
  {
    map id | id in t :: if id in swept then CleanJob(tick, now, t[id]) else t[id]
  }

  ghost function ActedIn(now: Time, t: Table, act: CleanupAction, swept: set<string>): set<string> {
    set id | id in t && id in swept && ActionFor(now, t[id]) == act
  }

  lemma SweptNone(tick: Time, now: Time, t: Table)
    requires tick > 0
    ensures SweptTable(tick, now, t, {}) == t
    ensures forall act :: ActedIn(now, t, act, {}) == {}
  {
  }

  lemma SweepOne(tick: Time, now: Time, t: Table, swept: set<string>, id: string)
    requires tick > 0 && id in t && id !in swept
    ensures id in SweptTable(tick, now, t, swept) && SweptTable(tick, now, t, swept)[id] == t[id]
    ensures SweptTable(tick, now, t, swept + {id}) == SweptTable(tick, now, t, swept)[id := CleanJob(tick, now, t[id])]
    ensures forall act :: |ActedIn(now, t, act, swept + {id})|
                       == |ActedIn(now, t, act, swept)| + if ActionFor(now, t[id]) == act then 1 else 0
  {
    hide ActionFor, CleanJob;
    forall act ensures |ActedIn(now, t, act, swept + {id})|
                    == |ActedIn(now, t, act, swept)| + if ActionFor(now, t[id]) == act then 1 else 0
    {
      if ActionFor(now, t[id]) == act {
        assert ActedIn(now, t, act, swept + {id}) == ActedIn(now, t, act, swept) + {id};
      } else {
        assert ActedIn(now, t, act, swept + {id}) == ActedIn(now, t, act, swept);
      }
    }
  }

  lemma SweptAll(tick: Time, now: Time, t: Table, swept: set<string>)
    requires tick > 0 && forall id :: id in t ==> id in swept
    ensures SweptTable(tick, now, t, swept) == CleanTable(tick, now, t)
    ensures forall act :: ActedIn(now, t, act, swept) == Acted(now, t, act)
  {
  }

  ghost function ClaimedTable(tick: Time, now: Time, who: string, leaseSeconds: int, t: Table, claimed: seq<string>): Table
    requires tick > 0
  {
    map id | id in t :: if id in claimed then ClaimJob(tick, now, who, leaseSeconds, t[id]) else t[id]
  }

  lemma ClaimOne(tick: Time, now: Time, who: string, leaseSeconds: int, t: Table, claimed: seq<string>, id: string)
    requires tick > 0 && id in t && id !in claimed
    ensures ClaimedTable(tick, now, who, leaseSeconds, t, claimed)[id] == t[id]
    ensures ClaimedTable(tick, now, who, leaseSeconds, t, claimed + [id])
         == ClaimedTable(tick, now, who, leaseSeconds, t, claimed)[id := ClaimJob(tick, now, who, leaseSeconds, t[id])]
  {
  }

  /** A prefix of the first `4n` is the first `n`. */
  lemma FirstOfFirst(t: Table, recipient: string, n: nat, results: seq<string>)
    requires n >= 1 && FirstQueued(t, recipient, n * 4, results)
    ensures FirstQueued(t, recipient, n, results[..Least(n, |results|)])
  {
    var ids := results[..Least(n, |results|)];
    forall a, b | a in ids && b in QueuedFor(t, recipient) && b !in ids
      ensures t[a].createdAt <= t[b].createdAt
    {
      if b in results {
        var i :| 0 <= i < |ids| && ids[i] == a;
        var k :| 0 <= k < |results| && results[k] == b;
        assert k >= |ids|;
      }
    }
    assert |results| <= n ==> ids == results;
  }

  lemma ClaimIsNext(tick: Time, now: Time, recipient: string, maxJobs: int, leaseSeconds: int, t: Table, claimed: seq<string>)
    requires tick > 0 && FirstQueued(CleanTable(tick, now, t), recipient, ClampBatch(maxJobs), claimed)
    ensures Next(tick, now, Claim(recipient, maxJobs, leaseSeconds, claimed), t,
                 ClaimedTable(tick, now, recipient, leaseSeconds, CleanTable(tick, now, t), claimed))
  {
  }
}
