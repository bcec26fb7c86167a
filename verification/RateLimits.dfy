/** Fixed-window rate limits: the stored counters, and the request log they stand for. */
module RateLimits {
  import opened Arithmetic

  /** Nanoseconds since Go's zero time, to which Truncate aligns. */
  type Time = nat

  const MINUTE: nat := 60_000_000_000
  const HOUR: nat := 60 * MINUTE

  datatype Window = PerMinute | PerHour

  datatype Tier = Free | Premium | Unlisted

  function Duration(w: Window): nat {
    if w == PerMinute then MINUTE else HOUR
  }

  /** A tier without an entry has the zero limits. */
  function Limit(tier: Tier, w: Window): int {
    match tier
    case Free => if w == PerMinute then 1 else 10
    case Premium => if w == PerMinute then 60 else 600
    case Unlisted => 0
  }

  /** now.Truncate */
  function Start(now: Time, w: Window): Time {
    now - now % Duration(w)
  }

  datatype Counter = Counter(start: Time, count: nat)

  /** The record's id is a hash of the key and the window type. */
  type Table = map<(string, Window), Counter>

  datatype Verdict = Allowed | Refused(limit: int, window: Window, retryAfter: int)

  function CheckOne(t: Table, key: string, w: Window, limit: int, now: Time): Verdict {
    var id := (key, w);
    if id !in t || t[id].start < Start(now, w) || t[id].count < limit then Allowed
    else Refused(limit, w, t[id].start + Duration(w) - now)
  }

  function Check(t: Table, key: string, tier: Tier, now: Time): Verdict {
    var minute := CheckOne(t, key, PerMinute, Limit(tier, PerMinute), now);
    if minute.Refused? then minute else CheckOne(t, key, PerHour, Limit(tier, PerHour), now)
  }

  function Bumped(t: Table, key: string, w: Window, now: Time): Counter {
    var id := (key, w);
    if id in t && t[id].start >= Start(now, w) then Counter(t[id].start, t[id].count + 1)
    else Counter(Start(now, w), 1)
  }

  function Record(t: Table, key: string, now: Time): Table {
    t[(key, PerMinute) := Bumped(t, key, PerMinute, now)][(key, PerHour) := Bumped(t, key, PerHour, now)]
  }

  function Clean(t: Table, now: Time): Table {
    map id | id in t && now - t[id].start <= 2 * HOUR :: t[id]
  }

  class RateLimiter {
    var records: Table

    constructor ()
      ensures records == map[]
    {
      records := map[];
    }

    method CheckWindow(key: string, w: Window, limit: int, now: Time) returns (r: Verdict)
      ensures r == CheckOne(records, key, w, limit, now)
    {
      var windowStart := Start(now, w);
      if (key, w) !in records {
        return Allowed;
      }
      var counter := records[(key, w)];
      if counter.start < windowStart {
        return Allowed;
      }
      if counter.count >= limit {
        return Refused(limit, w, counter.start + Duration(w) - now);
      }
      return Allowed;
    }

    method IncrementWindow(key: string, w: Window, now: Time)
      modifies this
      ensures records == old(records)[(key, w) := Bumped(old(records), key, w, now)]
    {
      var windowStart := Start(now, w);
      if (key, w) !in records {
        records := records[(key, w) := Counter(windowStart, 1)];
        return;
      }
      var counter := records[(key, w)];
      if counter.start < windowStart {
        counter := Counter(windowStart, 1);
      } else {
        counter := counter.(count := counter.count + 1);
      }
      records := records[(key, w) := counter];
    }

    method CheckLimit(key: string, tier: Tier, now: Time) returns (r: Verdict)
      ensures r == Check(records, key, tier, now)
    {
      r := CheckWindow(key, PerMinute, Limit(tier, PerMinute), now);
      if r.Refused? {
        return;
      }
      r := CheckWindow(key, PerHour, Limit(tier, PerHour), now);
    }

    method RecordRequest(key: string, now: Time)
      modifies this
      ensures records == Record(old(records), key, now)
    {
      IncrementWindow(key, PerMinute, now);
      IncrementWindow(key, PerHour, now);
    }

    /** The listing is a snapshot, in any order. */
    method Cleanup(now: Time) returns (deleted: nat)
      modifies this
      ensures records == Clean(old(records), now)
      ensures deleted + |records| == |old(records)|
      ensures forall id :: id in records <==> id in old(records) && now - old(records)[id].start <= 7_200_000_000_000
      ensures forall id :: id in records ==> records[id] == old(records)[id]
    {
      deleted := 0;
      ghost var was := records;
      var todo := records.Keys;
      while todo != {}
        invariant todo <= was.Keys && deleted + |records| == |was|
        invariant forall id :: id in records <==> id in was && (id in todo || now - was[id].start <= 2 * HOUR)
        invariant forall id :: id in records ==> records[id] == was[id]
        decreases |todo|
      {
        var id :| id in todo;
        todo := todo - {id};
        if now - records[id].start > 2 * HOUR {
          ghost var before := records;
          records := records - {id};
          Removed(before, id);
          deleted := deleted + 1;
        }
      }
      assert records == Clean(was, now);
    }
  }

  lemma Removed(t: Table, id: (string, Window))
    requires id in t
    ensures |t - {id}| == |t| - 1
  {
    assert (t - {id}).Keys == t.Keys - {id};
  }

  // ----- Runs

  datatype Event =
    | Checked(key: string, tier: Tier, now: Time)
    | Recorded(key: string, now: Time)
    | Swept(now: Time)

  predicate Timed(events: seq<Event>) {
    forall i, j :: 0 <= i < j < |events| ==> events[i].now <= events[j].now
  }

  function Clock(events: seq<Event>): Time {
    if events == [] then 0 else events[|events| - 1].now
  }

  function Apply(t: Table, e: Event): Table {
    match e
    case Checked(_, _, _) => t
    case Recorded(key, now) => Record(t, key, now)
    case Swept(now) => Clean(t, now)
  }

  function After(events: seq<Event>): Table {
    if events == [] then map[] else Apply(After(events[..|events| - 1]), events[|events| - 1])
  }

  /** Requests of `key` logged in the window that starts at `s`. */
  function Hits(events: seq<Event>, key: string, w: Window, s: Time): nat {
    if events == [] then 0 else
      var e := events[|events| - 1];
      Hits(events[..|events| - 1], key, w, s) + (if e.Recorded? && e.key == key && Start(e.now, w) == s then 1 else 0)
  }

  /** Requests of `key` logged from `a` up to, not including, `b`. */
  function Between(events: seq<Event>, key: string, a: Time, b: Time): nat {
    if events == [] then 0 else
      var e := events[|events| - 1];
      Between(events[..|events| - 1], key, a, b) + (if e.Recorded? && e.key == key && a <= e.now < b then 1 else 0)
  }

  /** Requests allowed but not yet recorded. */
  function InFlight(events: seq<Event>, key: string): int {
    if events == [] then 0 else
      var before, e := events[..|events| - 1], events[|events| - 1];
      InFlight(before, key) +
      match e
      case Checked(k, tier, now) => if k == key && Check(After(before), key, tier, now).Allowed? then 1 else 0
      case Recorded(k, _) => if k == key then -1 else 0
      case Swept(_) => 0
  }

  /** Every recorded request was allowed first, and at most `c` requests of the key are
      between their check and their record at the same time. */
  ghost predicate Overlapping(events: seq<Event>, key: string, c: nat) {
    forall n :: 0 <= n <= |events| ==> 0 <= InFlight(events[..n], key) <= c
  }

  ghost predicate LimitAtMost(events: seq<Event>, key: string, w: Window, limit: nat) {
    forall i :: 0 <= i < |events| && events[i].Checked? && events[i].key == key ==> Limit(events[i].tier, w) <= limit
  }

  // ----- Windows

  lemma StartProps(a: Time, b: Time, w: Window)
    requires a <= b
    ensures Start(a, w) <= Start(b, w) <= b < Start(b, w) + Duration(w)
    ensures b < a + Duration(w) ==> Start(b, w) == Start(a, w) || Start(b, w) == Start(a, w) + Duration(w)
    ensures b >= Start(a, w) + Duration(w) ==> Start(b, w) > Start(a, w)
    ensures b < Start(a, w) + Duration(w) ==> Start(b, w) == Start(a, w)
  {
    if w == PerMinute {
      Multiples(a, b, MINUTE);
    } else {
      Multiples(a, b, HOUR);
    }
  }

  lemma {:induction false} Multiples(a: nat, b: nat, d: nat)
    requires a <= b && d > 0
    ensures a - a % d <= b - b % d <= b < b - b % d + d
    ensures b < a + d ==> b - b % d == a - a % d || b - b % d == a - a % d + d
    ensures b >= a - a % d + d ==> b - b % d > a - a % d
    ensures b < a - a % d + d ==> b - b % d == a - a % d
  {
    var m, n := a / d, b / d;
    Split(a, d);
    Split(b, d);
    Step(m, n, d);
    Step(n, m, d);
  }

  lemma Split(a: nat, d: nat)
    requires d > 0
    ensures a == a / d * d + a % d && 0 <= a % d < d
  {
  }

  lemma {:induction false} Step(m: int, n: int, d: nat)
    ensures m < n ==> m * d + d <= n * d
    ensures m + 1 < n ==> m * d + 2 * d <= n * d
  {
    if m < n {
      MulMonotone(m + 1, n, d);
      assert (m + 1) * d == m * d + d;
    }
    if m + 1 < n {
      MulMonotone(m + 2, n, d);
      assert (m + 2) * d == m * d + 2 * d;
    }
  }

  // ----- The table refines the log

  ghost predicate NoneFrom(events: seq<Event>, key: string, w: Window, s: Time) {
    forall x: Time :: x >= s ==> Hits(events, key, w, x) == 0
  }

  ghost predicate Refines(t: Table, events: seq<Event>, key: string, w: Window, clock: Time) {
    if (key, w) in t then
      var r := t[(key, w)];
      r.start <= Start(clock, w) && r.count == Hits(events, key, w, r.start) && r.count >= 1
      && NoneFrom(events, key, w, r.start + 1)
    else NoneFrom(events, key, w, Start(clock, w))
  }

  lemma {:induction false} TableRefinesLog(events: seq<Event>, key: string, w: Window)
    requires Timed(events)
    ensures Refines(After(events), events, key, w, Clock(events))
  {
    if events != [] {
      var before, e := events[..|events| - 1], events[|events| - 1];
      assert Clock(before) <= e.now;
      TableRefinesLog(before, key, w);
      StartProps(Clock(before), e.now, w);
      hide Start;
      var t := After(before);
      match e {
        case Checked(_, _, _) =>
          RefinesLater(t, before, events, key, w, Clock(before), e.now);
        case Recorded(k, now) =>
          if k == key {
            RefinesRecord(t, before, events, w);
          } else {
            RefinesLater(t, before, events, key, w, Clock(before), e.now);
          }
        case Swept(now) =>
          RefinesLater(t, before, events, key, w, Clock(before), e.now);
          RefinesSweep(t, events, key, w, now);
      }
    }
  }

  /** Time passes and nothing of this key is recorded. */
  lemma RefinesLater(t: Table, before: seq<Event>, events: seq<Event>, key: string, w: Window, was: Time, now: Time)
    requires Refines(t, before, key, w, was) && Start(was, w) <= Start(now, w)
    requires events != [] && before == events[..|events| - 1]
    requires var e := events[|events| - 1]; e.Recorded? ==> e.key != key
    ensures Refines(t, events, key, w, now)
  {
    hide Start;
    assert forall x :: Hits(events, key, w, x) == Hits(before, key, w, x);
  }

  lemma RefinesRecord(t: Table, before: seq<Event>, events: seq<Event>, w: Window)
    requires events != [] && before == events[..|events| - 1] && events[|events| - 1].Recorded?
    requires var e := events[|events| - 1];
      Refines(t, before, e.key, w, Clock(before)) && Start(Clock(before), w) <= Start(e.now, w)
    ensures var e := events[|events| - 1];
      Refines(Record(t, e.key, e.now), events, e.key, w, e.now)
  {
    hide Start;
    var e := events[|events| - 1];
    var s := Start(e.now, w);
    assert forall x :: Hits(events, e.key, w, x) == Hits(before, e.key, w, x) + if x == s then 1 else 0;
    assert Record(t, e.key, e.now)[(e.key, w)] == Bumped(t, e.key, w, e.now);
    if (e.key, w) in t && t[(e.key, w)].start < s {
      assert Hits(before, e.key, w, s) == 0;
    }
  }

  lemma RefinesSweep(t: Table, events: seq<Event>, key: string, w: Window, now: Time)
    requires Refines(t, events, key, w, now)
    ensures Refines(Clean(t, now), events, key, w, now)
  {
    StartProps(now, now, w);
  }

  /** What the table says about the current window. */
  function Current(t: Table, key: string, w: Window, now: Time): nat {
    if (key, w) in t && t[(key, w)].start >= Start(now, w) then t[(key, w)].count else 0
  }

  lemma {:induction false} CountsCurrentWindow(events: seq<Event>, key: string, w: Window, now: Time)
    requires Timed(events) && Clock(events) <= now
    ensures Current(After(events), key, w, now) == Hits(events, key, w, Start(now, w))
  {
    TableRefinesLog(events, key, w);
    StartProps(Clock(events), now, w);
  }

  /** Each decision, in terms of the log alone: a window refuses when it is full and not
      empty, so a limit of zero still lets one request through. */
  lemma {:induction false} DecisionFromLog(events: seq<Event>, key: string, w: Window, limit: int, now: Time)
    requires Timed(events) && Clock(events) <= now
    ensures var n := Hits(events, key, w, Start(now, w));
      CheckOne(After(events), key, w, limit, now).Allowed? <==> n == 0 || n < limit
  {
    CountsCurrentWindow(events, key, w, now);
    TableRefinesLog(events, key, w);
  }

  /** In a run up to `now`, a window's hits are the requests since it began. */
  lemma {:induction false} HitsSinceStart(events: seq<Event>, key: string, w: Window, now: Time)
    requires Timed(events) && Clock(events) <= now
    ensures Hits(events, key, w, Start(now, w)) == Between(events, key, Start(now, w), now + 1)
  {
    if events != [] {
      var before, e := events[..|events| - 1], events[|events| - 1];
      assert Clock(before) <= e.now;
      HitsSinceStart(before, key, w, now);
      StartProps(e.now, now, w);
      if e.now >= Start(now, w) {
        StartProps(Start(now, w), e.now, w);
        StartTwice(now, w);
      }
    }
  }

  lemma StartTwice(now: Time, w: Window)
    ensures Start(Start(now, w), w) == Start(now, w)
  {
    StartProps(now, now, w);
    StartProps(Start(now, w), Start(now, w), w);
    StartProps(Start(now, w), now, w);
  }

  /** A limit that has been reached; with no request it never has. */
  predicate Reached(n: nat, limit: int) {
    n > 0 && n >= limit
  }

  /** The verdict on a request, from the log: refused for the minute if as many requests as
      its limit came since the last full minute, else for the hour likewise, to be tried
      again when that minute or hour is over. */
  lemma {:induction false} VerdictFromLog(events: seq<Event>, key: string, tier: Tier, now: Time)
    requires Timed(events) && Clock(events) <= now
    ensures var minute, hour := now - now % 60_000_000_000, now - now % 3_600_000_000_000;
      var perMinute := Reached(Between(events, key, minute, now + 1), Limit(tier, PerMinute));
      var perHour := Reached(Between(events, key, hour, now + 1), Limit(tier, PerHour));
      Check(After(events), key, tier, now) ==
        if perMinute then Refused(Limit(tier, PerMinute), PerMinute, minute + 60_000_000_000 - now)
        else if perHour then Refused(Limit(tier, PerHour), PerHour, hour + 3_600_000_000_000 - now)
        else Allowed
    ensures var minute, hour := Limit(tier, PerMinute), Limit(tier, PerHour);
      match tier
      case Free => minute == 1 && hour == 10
      case Premium => minute == 60 && hour == 600
      case Unlisted => minute == 0 && hour == 0
  {
    HitsSinceStart(events, key, PerMinute, now);
    HitsSinceStart(events, key, PerHour, now);
    DecisionFromLog(events, key, PerMinute, Limit(tier, PerMinute), now);
    DecisionFromLog(events, key, PerHour, Limit(tier, PerHour), now);
    RefusedUntil(events, key, PerMinute, Limit(tier, PerMinute), now);
    RefusedUntil(events, key, PerHour, Limit(tier, PerHour), now);
    hide After, CheckOne, Between;
  }

  lemma RefusedUntil(events: seq<Event>, key: string, w: Window, limit: int, now: Time)
    requires Timed(events) && Clock(events) <= now
    ensures var r := CheckOne(After(events), key, w, limit, now);
      r.Refused? ==> r == Refused(limit, w, Start(now, w) + Duration(w) - now)
  {
    TableRefinesLog(events, key, w);
    StartProps(Clock(events), now, w);
  }

  /** Retrying makes sense exactly when the window ends. */
  lemma {:induction false} RetryAfterIsExact(events: seq<Event>, key: string, w: Window, limit: int, now: Time, later: Time)
    requires Timed(events) && Clock(events) <= now <= later
    requires CheckOne(After(events), key, w, limit, now).Refused?
    ensures var retry := CheckOne(After(events), key, w, limit, now).retryAfter;
      && 0 < retry <= Duration(w)
      && (CheckOne(After(events), key, w, limit, later).Allowed? <==> later >= now + retry)
  {
    TableRefinesLog(events, key, w);
    StartProps(Clock(events), now, w);
    StartProps(now, later, w);
  }

  /** Sweeping old counters changes no later decision and no later counter. */
  lemma CleanupIsInvisible(t: Table, swept: Time, key: string, tier: Tier, w: Window, now: Time)
    requires swept <= now
    ensures Check(Clean(t, swept), key, tier, now) == Check(t, key, tier, now)
    ensures Bumped(Clean(t, swept), key, w, now) == Bumped(t, key, w, now)
    ensures Current(Clean(t, swept), key, w, now) == Current(t, key, w, now)
  {
    StartProps(now, now, PerMinute);
    StartProps(now, now, PerHour);
  }

  // ----- How many requests get through

  /** In the current window the logged requests and those on their way stay below the bound. */
  lemma {:induction false} Budget(events: seq<Event>, key: string, w: Window, limit: nat, c: nat)
    requires Timed(events) && c >= 1 && Overlapping(events, key, c) && LimitAtMost(events, key, w, limit)
    ensures var bound := (if limit > 1 then limit else 1) + c - 1;
      && Hits(events, key, w, Start(Clock(events), w)) + InFlight(events, key) <= bound
      && forall s :: Hits(events, key, w, s) <= bound
  {
    assert events[..|events|] == events;
    if events != [] {
      var before, e := events[..|events| - 1], events[|events| - 1];
      assert forall n :: 0 <= n <= |before| ==> before[..n] == events[..n];
      assert Overlapping(before, key, c);
      assert before[..|before|] == before;
      Budget(before, key, w, limit, c);
      NextBudget(events, key, w, limit, c);
    }
  }

  lemma {:induction false} NextBudget(events: seq<Event>, key: string, w: Window, limit: nat, c: nat)
    requires events != [] && Timed(events) && c >= 1 && LimitAtMost(events, key, w, limit)
    requires var before := events[..|events| - 1];
      && 0 <= InFlight(before, key) <= c && 0 <= InFlight(events, key) <= c
      && Hits(before, key, w, Start(Clock(before), w)) + InFlight(before, key) <= (if limit > 1 then limit else 1) + c - 1
      && forall s :: Hits(before, key, w, s) <= (if limit > 1 then limit else 1) + c - 1
    ensures var bound := (if limit > 1 then limit else 1) + c - 1;
      && Hits(events, key, w, Start(Clock(events), w)) + InFlight(events, key) <= bound
      && forall s :: Hits(events, key, w, s) <= bound
  {
    var before, e := events[..|events| - 1], events[|events| - 1];
    var s := Start(e.now, w);
    assert Clock(before) <= e.now;
    StartProps(Clock(before), e.now, w);
    TableRefinesLog(before, key, w);
    NewWindowIsEmpty(before, key, w, e.now);
    if e.Checked? && e.key == key && Check(After(before), key, e.tier, e.now).Allowed? {
      DecisionFromLog(before, key, w, Limit(e.tier, w), e.now);
    }
    hide Start, After, Check;
    var hit := if e.Recorded? && e.key == key then 1 else 0;
    assert forall x :: Hits(events, key, w, x) == Hits(before, key, w, x) + if x == s then hit else 0;
  }

  lemma NewWindowIsEmpty(events: seq<Event>, key: string, w: Window, now: Time)
    requires Timed(events) && Clock(events) <= now
    requires Refines(After(events), events, key, w, Clock(events))
    ensures Start(now, w) != Start(Clock(events), w) ==> Hits(events, key, w, Start(now, w)) == 0
  {
    StartProps(Clock(events), now, w);
    hide Start, After;
  }

  /** With `c` overlapping requests a window lets through at most max(1, limit) + c - 1,
      and any stretch as long as a window at most twice that. */
  lemma {:induction false} WindowBound(events: seq<Event>, key: string, w: Window, limit: nat, c: nat, s: Time, from: Time)
    requires Timed(events) && c >= 1 && Overlapping(events, key, c) && LimitAtMost(events, key, w, limit)
    ensures var bound := (if limit > 1 then limit else 1) + c - 1;
      Hits(events, key, w, s) <= bound && Between(events, key, from, from + Duration(w)) <= 2 * bound
  {
    Budget(events, key, w, limit, c);
    TwoWindows(events, key, w, from);
  }

  lemma {:induction false} TwoWindows(events: seq<Event>, key: string, w: Window, from: Time)
    ensures Between(events, key, from, from + Duration(w))
      <= Hits(events, key, w, Start(from, w)) + Hits(events, key, w, Start(from, w) + Duration(w))
  {
    if events != [] {
      TwoWindows(events[..|events| - 1], key, w, from);
      var e := events[|events| - 1];
      if from <= e.now {
        StartProps(from, e.now, w);
      }
    }
  }
}
