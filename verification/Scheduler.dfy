/** Schedules: when a schedule runs next, and what any mix of ticks and manual runs creates.
    Instants are microseconds since the epoch; a zone is a fixed offset from UTC. */
module Scheduler {
  import opened Wrappers

  const SECOND := 1_000_000
  const MINUTE := 60_000_000
  const HOUR := 3_600_000_000
  const DAY := 86_400_000_000

  datatype Timing =
    | Once(at: int)
    | Interval(length: int)
    | Hourly
    | Daily
    | EveryMinutes(n: int)        // "*/n * * * *"
    | Unreadable                  // any other cron expression, or a text that is no number or date

  datatype ScheduleError = UnreadableTiming | DivisionByZero | InvalidSubmission

  /** The next instant after `after`, or none for a one-off that is past. */
  function NextRun(timing: Timing, offset: int, after: int): Result<Option<int>, ScheduleError> {
    var local := after + offset;
    match timing
    case Once(at) => Ok(if at > after then Some(at) else None)
    case Interval(length) => Ok(Some(after + length))
    case Hourly => Ok(Some(local - local % HOUR + HOUR - offset))
    case Daily => Ok(Some(local - local % DAY + DAY - offset))
    case EveryMinutes(n) =>
      if n == 0 then Err(DivisionByZero)
      else Ok(Some((local / MINUTE + n - FloorMod(MinuteOfHour(local), n)) * MINUTE - offset))
    case Unreadable => Err(UnreadableTiming)
  }

  /** The remainder with the sign of its divisor. */
  function FloorMod(a: int, n: int): (r: int)
    requires n != 0
    ensures if n > 0 then 0 <= r < n else n < r <= 0
  {
    if n > 0 then a % n else -(-a % -n)
  }

  function MinuteOfHour(local: int): (minute: nat)
    ensures minute < 60
  {
    local / MINUTE % 60
  }

  /** The instants a cron expression names: whole local hours, local midnights, or the whole
      minutes whose minute of the hour is a multiple of n. */
  predicate OnGrid(timing: Timing, offset: int, t: int) {
    var local := t + offset;
    match timing
    case Hourly => local % HOUR == 0
    case Daily => local % DAY == 0
    case EveryMinutes(n) => n > 0 && local % MINUTE == 0 && MinuteOfHour(local) % n == 0
    case _ => false
  }

  /** The next run is the first grid instant strictly after `after`. */
  ghost predicate IsLeastAfter(timing: Timing, offset: int, after: int) {
    var next := NextRun(timing, offset, after);
    && next.Ok? && next.value.Some? && next.value.value > after && OnGrid(timing, offset, next.value.value)
    && forall t :: after < t < next.value.value ==> !OnGrid(timing, offset, t)
  }

  // ---------------------------------------------------------------- grid instants

  lemma NonNegative(a: int, b: int)
    requires a >= 0 && b >= 0
    ensures a * b >= 0
  {}

  /** Different multiples of n are at least n apart. */
  lemma Apart(a: int, b: int, n: int)
    requires n > 0 && a < b
    ensures b * n >= a * n + n
  {
    NonNegative(b - a - 1, n);
    assert (b - a - 1) * n == b * n - a * n - n;
  }

  lemma RemainderIs(q: int, n: int, r: int)
    requires 0 <= r < n
    ensures (q * n + r) % n == r
  {
    var x := q * n + r;
    var q' := x / n;
    assert x == q' * n + x % n;
    if q < q' {
      Apart(q, q', n);
    } else if q' < q {
      Apart(q', q, n);
    }
  }

  lemma NoMultipleBetween(base: int, n: int, t: int)
    requires n > 0 && base % n == 0 && base < t < base + n
    ensures t % n != 0
  {
    RemainderIs(base / n, n, t - base);
    assert base == base / n * n;
  }

  lemma RoundDown(x: int, n: int)
    requires n > 0
    ensures (x - x % n) % n == 0 && (x - x % n + n) % n == 0
  {
    var q := x / n;
    assert x == q * n + x % n;
    RemainderIs(q, n, 0);
    RemainderIs(q + 1, n, 0);
    assert (q + 1) * n == q * n + n;
  }

  lemma NextMultiple(x: int, n: int, t: int)
    requires n > 0 && x < t
    ensures (x - x % n + n) % n == 0 && x < x - x % n + n
    ensures t < x - x % n + n ==> t % n != 0
  {
    RoundDown(x, n);
    if t < x - x % n + n {
      NoMultipleBetween(x - x % n, n, t);
    }
  }

  lemma HourlyAndDailyAreLeast(offset: int, after: int)
    ensures IsLeastAfter(Hourly, offset, after) && IsLeastAfter(Daily, offset, after)
  {
    var local := after + offset;
    NextMultiple(local, HOUR, local + 1);
    forall t | after < t < local - local % HOUR + HOUR - offset ensures !OnGrid(Hourly, offset, t) {
      NextMultiple(local, HOUR, t + offset);
    }
    NextMultiple(local, DAY, local + 1);
    forall t | after < t < local - local % DAY + DAY - offset ensures !OnGrid(Daily, offset, t) {
      NextMultiple(local, DAY, t + offset);
    }
  }

  /** Minutes counted within the hour or from the epoch agree modulo a divisor of 60. */
  lemma MinuteModDivisor(m: int, n: nat)
    requires n > 0 && 60 % n == 0
    ensures m % 60 % n == m % n
  {
    var k, a, b := 60 / n, m / 60, m % 60;
    var c, d := b / n, b % n;
    assert 60 == k * n;
    assert b == c * n + d;
    assert (a * k + c) * n == a * (k * n) + c * n;
    RemainderIs(a * k + c, n, d);
  }

  lemma NextMinute(m: int, n: nat, minute: int)
    requires n > 0 && 60 % n == 0 && m < minute
    ensures var next := m - m % 60 % n + n;
            m < next && next % 60 % n == 0 && (minute < next ==> minute % 60 % n != 0)
  {
    MinuteModDivisor(m, n);
    NextMultiple(m, n, minute);
    MinuteModDivisor(m - m % n + n, n);
    MinuteModDivisor(minute, n);
  }

  /** What NextRun gives for minutes, by the minute of its argument. */
  lemma MinutesStep(n: nat, offset: int, after: int) returns (m: int, next: int)
    requires n > 0
    ensures m * MINUTE <= after + offset < (m + 1) * MINUTE && next == m - m % 60 % n + n
    ensures NextRun(EveryMinutes(n), offset, after) == Ok(Some(next * MINUTE - offset))
  {
    m := (after + offset) / MINUTE;
    next := m - m % 60 % n + n;
  }

  lemma GridMinute(n: nat, offset: int, t: int)
    requires n > 0
    ensures OnGrid(EveryMinutes(n), offset, t) <==>
            (t + offset) % MINUTE == 0 && (t + offset) / MINUTE % 60 % n == 0
  {}

  /** No grid instant lies between an instant in minute m and the start of minute `next`. */
  lemma NoGridBetween(n: nat, offset: int, m: int, next: int, after: int, t: int)
    requires n > 0 && 60 % n == 0 && m * MINUTE <= after + offset && next == m - m % 60 % n + n
    requires after < t < next * MINUTE - offset
    ensures !OnGrid(EveryMinutes(n), offset, t)
  {
    GridMinute(n, offset, t);
    if (t + offset) % MINUTE == 0 {
      NextMinute(m, n, (t + offset) / MINUTE);
    }
  }

  lemma EveryMinutesIsLeast(n: nat, offset: int, after: int)
    requires n > 0 && 60 % n == 0
    ensures IsLeastAfter(EveryMinutes(n), offset, after)
  {
    var m, next := MinutesStep(n, offset, after);
    NextMinute(m, n, m + 1);
    GridMinute(n, offset, next * MINUTE - offset);
    forall t | after < t < next * MINUTE - offset ensures !OnGrid(EveryMinutes(n), offset, t) {
      NoGridBetween(n, offset, m, next, after, t);
    }
  }

  lemma NextFromMultiple(n: nat, m: nat)
    requires n > 0 && m < 60 && m % n == 0
    ensures NextRun(EveryMinutes(n), 0, m * MINUTE) == Ok(Some((m + n) * MINUTE))
  {
    assert MinuteOfHour(m * MINUTE) == m;
  }

  lemma LastMultipleInHour(n: nat)
    requires n > 0 && 60 % n != 0
    ensures var m := 59 - 59 % n; 0 <= m < 60 && m % n == 0 && m + n > 60
  {
    RoundDown(59, n);
    assert 0 <= 59 % n < n;
    assert 59 == 59 / n * n + 59 % n;
    NonNegative(59 / n, n);
  }

  /** A run from the hour's last multiple of n steps over the next whole hour, which is on the grid. */
  lemma HourIsSkipped(n: nat)
    requires n > 0 && 60 % n != 0
    ensures !IsLeastAfter(EveryMinutes(n), 0, (59 - 59 % n) * MINUTE)
  {
    var m := 59 - 59 % n;
    LastMultipleInHour(n);
    NextFromMultiple(n, m);
    assert MinuteOfHour(60 * MINUTE) == 0;
    assert OnGrid(EveryMinutes(n), 0, 60 * MINUTE);
  }

  /** Stepping by n minutes follows the grid from every instant in every zone exactly when n divides 60. */
  lemma EveryMinutesMeetsGridExactly(n: int)
    ensures (forall offset, after :: IsLeastAfter(EveryMinutes(n), offset, after)) <==> (n > 0 && 60 % n == 0)
  {
    if n > 0 && 60 % n == 0 {
      forall offset, after ensures IsLeastAfter(EveryMinutes(n), offset, after) {
        EveryMinutesIsLeast(n, offset, after);
      }
    } else if n > 0 {
      HourIsSkipped(n);
    } else {
      assert !IsLeastAfter(EveryMinutes(n), 0, 0);
    }
  }

  // ---------------------------------------------------------------- schedules and their jobs

  /** The hash of a schedule, its operation, its account and a second identifies a job. */
  datatype JobKey = JobKey(schedule: nat, operation: string, account: string, second: int)

  datatype Schedule = Schedule(
    id: nat,
    enabled: bool,
    marketplace: bool,
    operation: string,
    account: string,
    timing: Timing,
    offset: int,
    skipMissed: bool,
    maxCatchUp: nat,
    nextRunAt: Option<int>,
    lastScheduledAt: Option<int>,
    lastJob: Option<JobKey>)

  /** What one unit of work has read and written so far. */
  datatype Session = Session(rows: seq<Schedule>, jobs: seq<JobKey>, submitted: seq<nat>, created: nat)

  predicate Due(s: Schedule, now: int) {
    s.enabled && s.nextRunAt.Some? && s.nextRunAt.value <= now
  }

  function KeyOf(s: Schedule, at: int): JobKey {
    JobKey(s.id, s.operation, s.account, at - at % SECOND)
  }

  function Enqueued(jobs: seq<JobKey>, key: JobKey): seq<JobKey> {
    if key in jobs then jobs else jobs + [key]
  }

  /** How many jobs a due schedule outside the marketplace submits. */
  function Runs(s: Schedule): nat {
    if s.skipMissed then 1 else if s.maxCatchUp < 100 then s.maxCatchUp else 100
  }

  /** A due schedule outside the marketplace builds its job submissions inside the unit of work. */
  predicate Submits(s: Schedule) {
    !s.marketplace && Runs(s) > 0
  }

  /** `valid` holds the schedules whose submission passes validation now: the workspace and the context
      files exist, the files lie inside the workspace, and the texts have permitted lengths. */
  function Visit(s: Schedule, session: Session, now: int, valid: set<nat>): Result<Session, ScheduleError> {
    if !Due(s, now) then Ok(session.(rows := session.rows + [s]))
    else if Submits(s) && s.id !in valid then Err(InvalidSubmission)
    else
      match NextRun(s.timing, s.offset, now)
      case Err(e) => Err(e)
      case Ok(next) =>
        var moved := s.(lastScheduledAt := Some(now), nextRunAt := next);
        if s.marketplace then
          var key := KeyOf(s, s.nextRunAt.value);
          var jobs := Enqueued(session.jobs, key);
          Ok(session.(rows := session.rows + [moved.(lastJob := Some(key))], jobs := jobs,
             created := session.created + |jobs| - |session.jobs|))
        else
          Ok(session.(rows := session.rows + [moved], submitted := session.submitted + seq(Runs(s), _ => s.id),
             created := session.created + Runs(s)))
  }

  function VisitAll(rows: seq<Schedule>, jobs: seq<JobKey>, now: int, valid: set<nat>): Result<Session, ScheduleError> {
    if rows == [] then Ok(Session([], jobs, [], 0))
    else
      var before := VisitAll(rows[..|rows| - 1], jobs, now, valid);
      if before.Err? then before else Visit(rows[|rows| - 1], before.value, now, valid)
  }

  predicate HasId(rows: seq<Schedule>, id: nat) {
    exists i :: 0 <= i < |rows| && rows[i].id == id
  }

  datatype RunNowError = NotFound | NotMarketplace

  lemma {:induction false} ErrorStays(rows: seq<Schedule>, k: nat, jobs: seq<JobKey>, now: int, valid: set<nat>)
    requires k <= |rows| && VisitAll(rows[..k], jobs, now, valid).Err?
    ensures VisitAll(rows, jobs, now, valid) == VisitAll(rows[..k], jobs, now, valid)
    decreases |rows|
  {
    if k < |rows| {
      assert rows[..|rows| - 1][..k] == rows[..k];
      ErrorStays(rows[..|rows| - 1], k, jobs, now, valid);
    } else {
      assert rows[..k] == rows;
    }
  }

  /** The position of the schedule called `id`, or the length when there is none. */
  function First(rows: seq<Schedule>, id: nat): (i: nat)
    ensures i <= |rows|
    ensures i < |rows| ==> rows[i].id == id
    ensures forall j | 0 <= j < i :: rows[j].id != id
  {
    if rows == [] || rows[0].id == id then 0 else 1 + First(rows[1..], id)
  }

  lemma FirstIs(rows: seq<Schedule>, id: nat, i: nat)
    requires i <= |rows| && (i < |rows| ==> rows[i].id == id) && forall j | 0 <= j < i :: rows[j].id != id
    ensures First(rows, id) == i
  {}

  function RunNowRows(rows: seq<Schedule>, id: nat, now: int): seq<Schedule> {
    var i := First(rows, id);
    if i < |rows| && rows[i].marketplace then rows[i := rows[i].(lastJob := Some(KeyOf(rows[i], now)))] else rows
  }

  function RunNowJobs(rows: seq<Schedule>, jobs: seq<JobKey>, id: nat, now: int): seq<JobKey> {
    var i := First(rows, id);
    if i < |rows| && rows[i].marketplace then Enqueued(jobs, KeyOf(rows[i], now)) else jobs
  }

  class SchedulerService {
    var schedules: seq<Schedule>
    var jobs: seq<JobKey>

    /** One unit of work: an error for any due schedule undoes the whole tick. */
    method Tick(now: int, valid: set<nat>) returns (result: Result<nat, ScheduleError>, submitted: seq<nat>)
      modifies this
      ensures var after := VisitAll(old(schedules), old(jobs), now, valid);
              match after
              case Err(e) => result == Err(e) && submitted == [] && schedules == old(schedules) && jobs == old(jobs)
              case Ok(session) =>
                && result == Ok(session.created) && submitted == session.submitted
                && schedules == session.rows && jobs == session.jobs
    {
      submitted := [];
      var rows: seq<Schedule>, newJobs := [], jobs;
      var created: nat := 0;
      var i := 0;
      while i < |schedules|
        invariant 0 <= i <= |schedules| && schedules == old(schedules) && jobs == old(jobs)
        invariant VisitAll(schedules[..i], jobs, now, valid) == Ok(Session(rows, newJobs, submitted, created))
      {
        var s := schedules[i];
        assert schedules[..i + 1][..i] == schedules[..i];
        if Due(s, now) {
          if Submits(s) && s.id !in valid {
            ErrorStays(schedules, i + 1, jobs, now, valid);
            return Err(InvalidSubmission), [];
          }
          var next := NextRun(s.timing, s.offset, now);
          if next.Err? {
            ErrorStays(schedules, i + 1, jobs, now, valid);
            return Err(next.error), [];
          }
          if s.marketplace {
            var key := KeyOf(s, s.nextRunAt.value);
            if key !in newJobs {
              newJobs := newJobs + [key];
              created := created + 1;
            }
            s := s.(lastJob := Some(key));
          } else {
            submitted := submitted + seq(Runs(s), _ => s.id);
            created := created + Runs(s);
          }
          s := s.(lastScheduledAt := Some(now), nextRunAt := next.value);
        }
        rows := rows + [s];
        i := i + 1;
      }
      assert schedules[..i] == schedules;
      schedules, jobs := rows, newJobs;
      result := Ok(created);
    }

    method RunNow(id: nat, now: int) returns (result: Result<Option<JobKey>, RunNowError>)
      modifies this
      ensures schedules == RunNowRows(old(schedules), id, now) && jobs == RunNowJobs(old(schedules), old(jobs), id, now)
      ensures result == Err(NotFound) <==> !HasId(old(schedules), id)
      ensures result == Err(NotMarketplace) <==>
              HasId(old(schedules), id) && !old(schedules[First(schedules, id)].marketplace)
      ensures result.Ok? ==> result == Ok(if jobs == old(jobs) then None else Some(jobs[|jobs| - 1]))
    {
      var i := 0;
      while i < |schedules| && schedules[i].id != id
        invariant 0 <= i <= |schedules| && forall j | 0 <= j < i :: schedules[j].id != id
      {
        i := i + 1;
      }
      FirstIs(schedules, id, i);
      if i == |schedules| {
        return Err(NotFound);
      }
      if !schedules[i].marketplace {
        return Err(NotMarketplace);
      }
      var key := KeyOf(schedules[i], now);
      schedules := schedules[i := schedules[i].(lastJob := Some(key))];
      if key in jobs {
        return Ok(None);
      }
      jobs := jobs + [key];
      result := Ok(Some(key));
    }
  }

  // ---------------------------------------------------------------- what a tick does

  predicate HasGrid(timing: Timing) {
    timing != Unreadable && timing != EveryMinutes(0)
  }

  predicate Stuck(s: Schedule) {
    GoesBack(s.timing)
  }

  /** An interval that is not positive, or a negative step in minutes. */
  predicate GoesBack(timing: Timing) {
    (timing.Interval? && timing.length <= 0) || (timing.EveryMinutes? && timing.n < 0)
  }

  lemma NextRunIsLater(timing: Timing, offset: int, after: int)
    ensures NextRun(timing, offset, after).Ok? <==> HasGrid(timing)
    ensures HasGrid(timing) ==>
            var next := NextRun(timing, offset, after).value;
            (next.Some? && next.value <= after) <==> GoesBack(timing)
  {
    if timing.EveryMinutes? && timing.n != 0 {
      var minutes := (after + offset) / MINUTE;
      assert minutes * MINUTE <= after + offset < (minutes + 1) * MINUTE;
    }
  }

  /** What one visited row becomes. */
  ghost predicate RowMoved(before: Schedule, after: Schedule, now: int) {
    if !Due(before, now) then after == before
    else
      && HasGrid(before.timing)
      && after.nextRunAt == NextRun(before.timing, before.offset, now).value
      && after.lastScheduledAt == Some(now)
      && after == before.(nextRunAt := after.nextRunAt, lastScheduledAt := Some(now), lastJob := after.lastJob)
      && after.lastJob == if before.marketplace then Some(KeyOf(before, before.nextRunAt.value)) else before.lastJob
  }

  lemma {:induction false} TickMovesRows(rows: seq<Schedule>, jobs: seq<JobKey>, now: int, valid: set<nat>)
    requires VisitAll(rows, jobs, now, valid).Ok?
    ensures var after := VisitAll(rows, jobs, now, valid).value.rows;
            |after| == |rows| && forall i :: 0 <= i < |rows| ==> RowMoved(rows[i], after[i], now)
  {
    if rows != [] {
      var init := rows[..|rows| - 1];
      TickMovesRows(init, jobs, now, valid);
      NextRunIsLater(rows[|rows| - 1].timing, rows[|rows| - 1].offset, now);
    }
  }

  /** A due schedule that stops the whole tick: it has no next run, or a submission that cannot be built. */
  predicate Fails(s: Schedule, now: int, valid: set<nat>) {
    && s.enabled && s.nextRunAt.Some? && s.nextRunAt.value <= now
    && (|| s.timing == Unreadable || s.timing == EveryMinutes(0)
        || (!s.marketplace && (s.skipMissed || s.maxCatchUp > 0) && s.id !in valid))
  }

  /** A tick is undone exactly when some due schedule has no next run or a submission that cannot be built. */
  lemma {:induction false} TickFailsExactly(rows: seq<Schedule>, jobs: seq<JobKey>, now: int, valid: set<nat>)
    ensures VisitAll(rows, jobs, now, valid).Err? <==> exists s :: s in rows && Fails(s, now, valid)
  {
    if rows != [] {
      var init, last := rows[..|rows| - 1], rows[|rows| - 1];
      TickFailsExactly(init, jobs, now, valid);
      NextRunIsLater(last.timing, last.offset, now);
      assert forall s :: s in rows <==> s in init || s == last;
      assert Fails(last, now, valid) ==> exists s :: s in rows && Fails(s, now, valid);
      if exists s :: s in init && Fails(s, now, valid) {
        var s :| s in init && Fails(s, now, valid);
        assert s in rows;
      }
    }
  }

  /** What stops the tick at a schedule: a submission first, and then the kind of timing. */
  function FailureOf(s: Schedule, valid: set<nat>): ScheduleError {
    if !s.marketplace && (s.skipMissed || s.maxCatchUp > 0) && s.id !in valid then InvalidSubmission
    else if s.timing == Unreadable then UnreadableTiming
    else DivisionByZero
  }

  /** A tick that is undone reports the failure of the first schedule that stops it. */
  lemma {:induction false} TickReportsFirst(rows: seq<Schedule>, jobs: seq<JobKey>, now: int, valid: set<nat>) returns (i: nat)
    requires VisitAll(rows, jobs, now, valid).Err?
    ensures i < |rows| && Fails(rows[i], now, valid) && forall k | 0 <= k < i :: !Fails(rows[k], now, valid)
    ensures VisitAll(rows, jobs, now, valid) == Err(FailureOf(rows[i], valid))
  {
    var init, last := rows[..|rows| - 1], rows[|rows| - 1];
    if VisitAll(init, jobs, now, valid).Err? {
      i := TickReportsFirst(init, jobs, now, valid);
    } else {
      i := |init|;
      TickFailsExactly(init, jobs, now, valid);
      NextRunIsLater(last.timing, last.offset, now);
      forall k | 0 <= k < i ensures !Fails(rows[k], now, valid) {
        assert rows[k] in init;
      }
    }
  }

  /** After a tick a schedule is still due at the same instant exactly when it was due and its
      timing does not move it forward. */
  lemma TickLeavesDueExactly(rows: seq<Schedule>, jobs: seq<JobKey>, now: int, valid: set<nat>, i: nat)
    requires VisitAll(rows, jobs, now, valid).Ok? && i < |rows|
    ensures |VisitAll(rows, jobs, now, valid).value.rows| == |rows|
    ensures Due(VisitAll(rows, jobs, now, valid).value.rows[i], now) <==> Due(rows[i], now) && Stuck(rows[i])
  {
    TickMovesRows(rows, jobs, now, valid);
    NextRunIsLater(rows[i].timing, rows[i].offset, now);
    assert RowMoved(rows[i], VisitAll(rows, jobs, now, valid).value.rows[i], now);
  }

  lemma {:induction false} NothingDue(rows: seq<Schedule>, jobs: seq<JobKey>, now: int, valid: set<nat>)
    requires forall i :: 0 <= i < |rows| ==> !Due(rows[i], now)
    ensures VisitAll(rows, jobs, now, valid) == Ok(Session(rows, jobs, [], 0))
  {
    if rows != [] {
      var init := rows[..|rows| - 1];
      NothingDue(init, jobs, now, valid);
      assert rows == init + [rows[|rows| - 1]];
    }
  }

  /** A second tick at the same instant creates nothing and changes nothing. */
  lemma SecondTickIsIdle(rows: seq<Schedule>, jobs: seq<JobKey>, now: int, valid: set<nat>)
    requires VisitAll(rows, jobs, now, valid).Ok? && forall i :: 0 <= i < |rows| ==> !Stuck(rows[i])
    ensures var first := VisitAll(rows, jobs, now, valid).value;
            VisitAll(first.rows, first.jobs, now, valid) == Ok(Session(first.rows, first.jobs, [], 0))
  {
    var first := VisitAll(rows, jobs, now, valid).value;
    TickMovesRows(rows, jobs, now, valid);
    forall i | 0 <= i < |first.rows| ensures !Due(first.rows[i], now) {
      TickLeavesDueExactly(rows, jobs, now, valid, i);
    }
    NothingDue(first.rows, first.jobs, now, valid);
  }

  predicate IsDueKey(rows: seq<Schedule>, now: int, key: JobKey) {
    exists s :: s in rows && Due(s, now) && s.marketplace && key == KeyOf(s, s.nextRunAt.value)
  }

  /** Every due marketplace schedule has its job afterwards, no other job appears, and the count
      the tick reports is the number of new rows and submissions. */
  lemma {:induction false} TickCreatesExactly(rows: seq<Schedule>, jobs: seq<JobKey>, now: int, valid: set<nat>)
    requires VisitAll(rows, jobs, now, valid).Ok?
    ensures var after := VisitAll(rows, jobs, now, valid).value;
            && after.created == |after.jobs| - |jobs| + |after.submitted|
            && (forall key :: key in after.jobs <==> (key in jobs || IsDueKey(rows, now, key)))
  {
    if rows != [] {
      var init, last := rows[..|rows| - 1], rows[|rows| - 1];
      TickCreatesExactly(init, jobs, now, valid);
      assert forall s :: s in rows <==> s in init || s == last;
    }
  }

  // ---------------------------------------------------------------- runs of ticks and manual runs

  datatype Action = Tick(now: int, valid: set<nat>) | RunNow(id: nat, now: int)

  datatype State = State(schedules: seq<Schedule>, jobs: seq<JobKey>)

  function Next(st: State, action: Action): State {
    match action
    case Tick(now, valid) =>
      var after := VisitAll(st.schedules, st.jobs, now, valid);
      if after.Err? then st else State(after.value.rows, after.value.jobs)
    case RunNow(id, now) =>
      State(RunNowRows(st.schedules, id, now), RunNowJobs(st.schedules, st.jobs, id, now))
  }

  function Run(st: State, actions: seq<Action>): State {
    if actions == [] then st else Next(Run(st, actions[..|actions| - 1]), actions[|actions| - 1])
  }

  predicate UniqueIds(rows: seq<Schedule>) {
    forall i, j | 0 <= i < j < |rows| :: rows[i].id != rows[j].id
  }

  predicate SameSlot(a: JobKey, b: JobKey) {
    a.schedule == b.schedule && a.second == b.second
  }

  /** Schedule names are unique, and no two jobs share a schedule and a second. */
  ghost predicate Inv(st: State) {
    && UniqueIds(st.schedules)
    && (forall i, j | 0 <= i < j < |st.jobs| :: !SameSlot(st.jobs[i], st.jobs[j]))
    && (forall i, j | 0 <= i < |st.jobs| && 0 <= j < |st.schedules| :: Agrees(st.jobs[i], st.schedules[j]))
  }

  predicate Agrees(job: JobKey, s: Schedule) {
    job.schedule == s.id ==> job.operation == s.operation && job.account == s.account
  }

  predicate SameIdentity(a: Schedule, b: Schedule) {
    a.id == b.id && a.operation == b.operation && a.account == b.account
  }

  lemma EnqueueKeepsInv(st: State, i: nat, at: int)
    requires Inv(st) && i < |st.schedules|
    ensures Inv(st.(jobs := Enqueued(st.jobs, KeyOf(st.schedules[i], at))))
  {
    var key := KeyOf(st.schedules[i], at);
    forall j | 0 <= j < |st.jobs| && SameSlot(st.jobs[j], key) ensures key in st.jobs {
      assert Agrees(st.jobs[j], st.schedules[i]);
      assert st.jobs[j] == key;
    }
    forall j | 0 <= j < |st.schedules| ensures Agrees(key, st.schedules[j]) {
      assert j == i || st.schedules[i].id != st.schedules[j].id;
    }
  }

  lemma IdentityKeepsInv(st: State, rows: seq<Schedule>)
    requires Inv(st) && |rows| == |st.schedules|
    requires forall i :: 0 <= i < |rows| ==> SameIdentity(st.schedules[i], rows[i])
    ensures Inv(st.(schedules := rows))
  {
    forall i, j | 0 <= i < |st.jobs| && 0 <= j < |rows| ensures Agrees(st.jobs[i], rows[j]) {
      assert Agrees(st.jobs[i], st.schedules[j]) && SameIdentity(st.schedules[j], rows[j]);
    }
    forall i, j | 0 <= i < j < |rows| ensures rows[i].id != rows[j].id {
      assert SameIdentity(st.schedules[i], rows[i]) && SameIdentity(st.schedules[j], rows[j]);
    }
  }

  lemma {:induction false} VisitKeepsInv(st: State, k: nat, now: int, valid: set<nat>)
    requires Inv(st) && k <= |st.schedules| && VisitAll(st.schedules[..k], st.jobs, now, valid).Ok?
    ensures Inv(st.(jobs := VisitAll(st.schedules[..k], st.jobs, now, valid).value.jobs))
  {
    if k > 0 {
      assert st.schedules[..k][..k - 1] == st.schedules[..k - 1];
      VisitKeepsInv(st, k - 1, now, valid);
      var s := st.schedules[k - 1];
      if Due(s, now) && s.marketplace {
        EnqueueKeepsInv(st.(jobs := VisitAll(st.schedules[..k - 1], st.jobs, now, valid).value.jobs), k - 1, s.nextRunAt.value);
      }
    }
  }

  lemma NextKeepsInv(st: State, action: Action)
    requires Inv(st)
    ensures Inv(Next(st, action))
  {
    match action
    case Tick(now, valid) =>
      var rows := st.schedules;
      if VisitAll(rows, st.jobs, now, valid).Ok? {
        assert rows[..|rows|] == rows;
        VisitKeepsInv(st, |rows|, now, valid);
        TickMovesRows(rows, st.jobs, now, valid);
        var after := VisitAll(rows, st.jobs, now, valid).value;
        forall i | 0 <= i < |rows| ensures SameIdentity(rows[i], after.rows[i]) {
          assert RowMoved(rows[i], after.rows[i], now);
        }
        IdentityKeepsInv(st.(jobs := after.jobs), after.rows);
      }
    case RunNow(id, now) =>
      var i := First(st.schedules, id);
      if i < |st.schedules| && st.schedules[i].marketplace {
        EnqueueKeepsInv(st, i, now);
        IdentityKeepsInv(st.(jobs := RunNowJobs(st.schedules, st.jobs, id, now)), RunNowRows(st.schedules, id, now));
      }
  }

  /** Over any mix of ticks and manual runs a schedule gets at most one job for each second. */
  lemma {:induction false} OneJobPerSecond(st: State, actions: seq<Action>)
    requires UniqueIds(st.schedules) && st.jobs == []
    ensures var jobs := Run(st, actions).jobs;
            forall i, j | 0 <= i < j < |jobs| :: !SameSlot(jobs[i], jobs[j])
    ensures Inv(Run(st, actions))
  {
    if actions != [] {
      OneJobPerSecond(st, actions[..|actions| - 1]);
      NextKeepsInv(Run(st, actions[..|actions| - 1]), actions[|actions| - 1]);
    }
  }

  // ---------------------------------------------------------------- what a schedule gets

  /** How many of the submissions of a tick are of a schedule. */
  function Submissions(submitted: seq<nat>, id: nat): nat {
    multiset(submitted)[id]
  }

  lemma SameMany(n: nat, id: nat, other: nat)
    ensures multiset(seq(n, _ => id))[other] == if other == id then n else 0
  {
    if n > 0 {
      SameMany(n - 1, id, other);
      assert seq(n, _ => id) == seq(n - 1, _ => id) + [id];
    }
  }

  /** What a due schedule outside the marketplace must submit: one run when missed runs are skipped, and
      otherwise its catch-up limit, at most a hundred. */
  predicate CatchUpOf(s: Schedule, n: nat) {
    if s.skipMissed then n == 1 else if s.maxCatchUp >= 100 then n == 100 else n == s.maxCatchUp
  }

  /** After a committed tick a schedule has submitted nothing unless it was due and outside the marketplace, and
      then exactly its catch-up runs. */
  lemma {:induction false} SubmitsExactly(rows: seq<Schedule>, jobs: seq<JobKey>, now: int, valid: set<nat>, i: nat)
    requires UniqueIds(rows) && VisitAll(rows, jobs, now, valid).Ok? && i < |rows|
    ensures var n := Submissions(VisitAll(rows, jobs, now, valid).value.submitted, rows[i].id);
            var s := rows[i];
            if s.enabled && s.nextRunAt.Some? && s.nextRunAt.value <= now && !s.marketplace then CatchUpOf(s, n) else n == 0
  {
    var init, last := rows[..|rows| - 1], rows[|rows| - 1];
    var before := VisitAll(init, jobs, now, valid).value;
    SameMany(Runs(last), last.id, rows[i].id);
    if i < |init| {
      SubmitsExactly(init, jobs, now, valid, i);
    } else {
      NoneSubmitted(init, jobs, now, valid, last.id);
    }
  }

  lemma {:induction false} NoneSubmitted(rows: seq<Schedule>, jobs: seq<JobKey>, now: int, valid: set<nat>, id: nat)
    requires VisitAll(rows, jobs, now, valid).Ok? && forall i | 0 <= i < |rows| :: rows[i].id != id
    ensures Submissions(VisitAll(rows, jobs, now, valid).value.submitted, id) == 0
  {
    if rows != [] {
      NoneSubmitted(rows[..|rows| - 1], jobs, now, valid, id);
      SameMany(Runs(rows[|rows| - 1]), rows[|rows| - 1].id, id);
    }
  }

  /** Two runs share a job exactly when they are of the same schedule, operation and account and fall in the
      same whole second. */
  lemma KeysAreSeconds(s: Schedule, t: Schedule, a: int, b: int)
    ensures KeyOf(s, a) == KeyOf(t, b) <==>
            s.id == t.id && s.operation == t.operation && s.account == t.account && a / SECOND == b / SECOND
    ensures KeyOf(s, a).second <= a < KeyOf(s, a).second + SECOND
  {}

  /** A one-off runs at its instant if that is still to come and never again; an interval runs its length later. */
  lemma OnceAndInterval(at: int, length: int, offset: int, after: int)
    ensures NextRun(Once(at), offset, after) == Ok(if after < at then Some(at) else None)
    ensures NextRun(Interval(length), offset, after) == Ok(Some(after + length))
  {}

  /** A manual run of a marketplace schedule leaves its job of that second, adds no other, and moves no timing. */
  lemma RunNowCreates(rows: seq<Schedule>, jobs: seq<JobKey>, id: nat, now: int, i: nat)
    requires UniqueIds(rows) && i < |rows| && rows[i].id == id && rows[i].marketplace
    ensures forall key :: key in RunNowJobs(rows, jobs, id, now) <==>
              key in jobs || key == JobKey(id, rows[i].operation, rows[i].account, now / SECOND * SECOND)
    ensures var after := RunNowRows(rows, id, now);
            |after| == |rows| && forall k | 0 <= k < |rows| ::
              after[k].nextRunAt == rows[k].nextRunAt && after[k].enabled == rows[k].enabled
  {
    FirstIs(rows, id, i);
    assert now - now % SECOND == now / SECOND * SECOND;
  }
}
