/** Agent jobs: versioned compare-and-swap transitions committed together with their audit events,
    under every interleaving of submit, claim, cancel and finish that work from stale reads. */
module AgentJobs {
  import opened Wrappers

  type JobId = nat

  datatype Status = Pending | Queued | Running | Succeeded | Failed | TimedOut | Cancelled

  datatype Job = Job(status: Status, version: nat)

  datatype Event =
    | JobSubmitted | NoEligibleAgent | AgentSelected | JobQueued | JobScheduled
    | CancellationRequested | InvalidTransition | SignalFailed | OutputTruncated
    | ExecutionStarted | ExecutionSucceeded | ExecutionFailed | ExecutionTimedOut | ExecutionCancelled

  datatype Audit = Audit(jobId: JobId, event: Event)

  /** The two tables a unit of work commits or rolls back together. */
  datatype Tables = Tables(jobs: map<JobId, Job>, audits: seq<Audit>)

  /** How a process ended. */
  datatype Outcome = ProcessCancelled | ProcessTimedOut | ProcessSucceeded | ProcessFailed

  // ---------------------------------------------------------------- transitions

  function ValidTransitions(from: Status): set<Status> {
    match from
    case Pending => {Queued, Failed, Cancelled}
    case Queued => {Running, Failed, Cancelled}
    case Running => {Queued, Succeeded, Failed, TimedOut, Cancelled}
    case Succeeded => {}
    case Failed => {}
    case TimedOut => {}
    case Cancelled => {}
  }

  predicate Terminal(status: Status) {
    status == Succeeded || status == Failed || status == TimedOut || status == Cancelled
  }

  /** `transition` as called by a session that read `seen`: the target must follow the status that
      was read, and the update applies only to a row with that version and status. */
  predicate Applies(jobs: map<JobId, Job>, id: JobId, seen: Job, to: Status) {
    to in ValidTransitions(seen.status) && id in jobs && jobs[id].version == seen.version && jobs[id].status == seen.status
  }

  function Moved(seen: Job, to: Status): Job {
    Job(to, seen.version + 1)
  }

  // ---------------------------------------------------------------- units of work

  function Events(id: JobId, events: seq<Event>): seq<Audit> {
    seq(|events|, i requires 0 <= i < |events| => Audit(id, events[i]))
  }

  /** A transition with its events; a refused transition raises and rolls the events back too. */
  function Committed(t: Tables, id: JobId, seen: Job, to: Status, events: seq<Event>): Tables {
    if Applies(t.jobs, id, seen, to)
    then Tables(t.jobs[id := Moved(seen, to)], t.audits + Events(id, events))
    else t
  }

  function Noted(t: Tables, id: JobId, events: seq<Event>): Tables {
    t.(audits := t.audits + Events(id, events))
  }

  function CancelFrom(t: Tables, id: JobId, seen: Job): Tables {
    if Terminal(seen.status) then Noted(t, id, [CancellationRequested, InvalidTransition])
    else Committed(t, id, seen, Cancelled, [CancellationRequested, ExecutionCancelled])
  }

  function TargetOf(outcome: Outcome): Status {
    match outcome
    case ProcessCancelled => Cancelled
    case ProcessTimedOut => TimedOut
    case ProcessSucceeded => Succeeded
    case ProcessFailed => Failed
  }

  /** The audit event that records the end of a job in this status. */
  function EndEvent(status: Status): Event
    requires Terminal(status)
  {
    match status
    case Succeeded => ExecutionSucceeded
    case Failed => ExecutionFailed
    case TimedOut => ExecutionTimedOut
    case Cancelled => ExecutionCancelled
  }

  function TruncationEvents(truncated: bool): seq<Event> {
    if truncated then [OutputTruncated] else []
  }

  /** `_finish`: a job that was read as cancelled keeps its status and gets no further end event. */
  function FinishFrom(t: Tables, id: JobId, seen: Job, outcome: Outcome, truncated: bool): Tables {
    if seen.status == Cancelled then Noted(t, id, TruncationEvents(truncated))
    else Committed(t, id, seen, TargetOf(outcome), TruncationEvents(truncated) + [EndEvent(TargetOf(outcome))])
  }

  predicate IsQueued(jobs: map<JobId, Job>, id: JobId) {
    id in jobs && jobs[id].status == Queued
  }

  /** Queued, and no job before it in the order is. */
  predicate IsOldest(jobs: map<JobId, Job>, order: seq<JobId>, id: JobId) {
    IsQueued(jobs, id)
    && exists k :: 0 <= k < |order| && order[k] == id && forall i | 0 <= i < k :: !IsQueued(jobs, order[i])
  }

  function FirstQueued(jobs: map<JobId, Job>, order: seq<JobId>, limit: nat): seq<(JobId, Job)> {
    if order == [] then []
    else
      var before, id := FirstQueued(jobs, order[..|order| - 1], limit), order[|order| - 1];
      if |before| < limit && IsQueued(jobs, id) then before + [(id, jobs[id])] else before
  }

  /** The rows selected are queued as they were read, the first is the oldest, and there is one if any job is queued. */
  lemma {:induction false} QueuedAreFirst(jobs: map<JobId, Job>, order: seq<JobId>, limit: nat)
    requires limit > 0
    ensures var found := FirstQueued(jobs, order, limit);
            && (forall c | c in found :: c.0 in jobs && jobs[c.0].status == Queued && c.1 == jobs[c.0])
            && (found != [] ==> IsOldest(jobs, order, found[0].0))
            && (found == [] ==> forall id | id in order :: !IsQueued(jobs, id))
  {
    if order != [] {
      var init := order[..|order| - 1];
      var before, found := FirstQueued(jobs, init, limit), FirstQueued(jobs, order, limit);
      QueuedAreFirst(jobs, init, limit);
      assert order == init + [order[|order| - 1]];
      if before != [] {
        var id := before[0].0;
        var k :| 0 <= k < |init| && init[k] == id && forall i | 0 <= i < k :: !IsQueued(jobs, init[i]);
        assert order[k] == id && forall i | 0 <= i < k :: order[i] == init[i];
        assert found[0] == before[0];
      } else if found != [] {
        assert forall i | 0 <= i < |init| :: order[i] in init;
        assert order[|init|] == found[0].0;
      }
    }
  }

  /** No more than the limit are selected, and under it every queued row is. */
  lemma {:induction false} SelectsUpToLimit(jobs: map<JobId, Job>, order: seq<JobId>, limit: nat, id: JobId)
    ensures |FirstQueued(jobs, order, limit)| <= limit
    ensures |FirstQueued(jobs, order, limit)| < limit && id in order && id in jobs && jobs[id].status == Queued ==>
              (id, jobs[id]) in FirstQueued(jobs, order, limit)
  {
    if order != [] {
      SelectsUpToLimit(jobs, order[..|order| - 1], limit, id);
      assert order == order[..|order| - 1] + [order[|order| - 1]];
    }
  }

  /** The job and audit tables, written by one unit of work at a time. */
  class JobStore {
    var jobs: map<JobId, Job>
    var audits: seq<Audit>

    ghost function State(): Tables
      reads this
    {
      Tables(jobs, audits)
    }

    constructor ()
      ensures State() == Tables(map[], [])
    {
      jobs, audits := map[], [];
    }

    method Transition(id: JobId, seen: Job, to: Status) returns (ok: bool)
      modifies this`jobs
      ensures ok <==> Applies(old(jobs), id, seen, to)
      ensures jobs == if ok then old(jobs)[id := Moved(seen, to)] else old(jobs)
    {
      if to !in ValidTransitions(seen.status) {
        return false;
      }
      if id !in jobs || jobs[id].version != seen.version || jobs[id].status != seen.status {
        return false;
      }
      jobs := jobs[id := Moved(seen, to)];
      return true;
    }

    /** `claim_next`: the first of the candidates read whose transition still applies. */
    method ClaimNext(candidates: seq<(JobId, Job)>) returns (claimed: Option<nat>)
      modifies this
      ensures claimed.Some? ==>
                && claimed.value < |candidates|
                && Applies(old(jobs), candidates[claimed.value].0, candidates[claimed.value].1, Running)
                && State() == Committed(old(State()), candidates[claimed.value].0, candidates[claimed.value].1,
                                        Running, [ExecutionStarted])
      ensures forall i | 0 <= i < |candidates| && (claimed.Some? ==> i < claimed.value) ::
                !Applies(old(jobs), candidates[i].0, candidates[i].1, Running)
      ensures claimed.None? ==> State() == old(State())
    {
      for i := 0 to |candidates|
        invariant State() == old(State())
        invariant forall j :: 0 <= j < i ==> !Applies(jobs, candidates[j].0, candidates[j].1, Running)
      {
        var (id, seen) := candidates[i];
        var ok := Transition(id, seen, Running);
        if ok {
          audits := audits + Events(id, [ExecutionStarted]);
          return Some(i);
        }
      }
      return None;
    }

    /** The select of a claim over the jobs in `queued_at`, `created_at` order: the first twenty queued rows. */
    method SelectQueued(order: seq<JobId>) returns (candidates: seq<(JobId, Job)>)
      ensures candidates == FirstQueued(jobs, order, 20)
    {
      candidates := [];
      for i := 0 to |order|
        invariant candidates == FirstQueued(jobs, order[..i], 20)
      {
        assert order[..i + 1][..i] == order[..i];
        if |candidates| < 20 && order[i] in jobs && jobs[order[i]].status == Queued {
          candidates := candidates + [(order[i], jobs[order[i]])];
        }
      }
      assert order[..|order|] == order;
    }

    /** A claim that nothing interrupts takes the oldest queued job, and none only when none is queued. */
    method ClaimOldest(order: seq<JobId>) returns (claimed: Option<JobId>)
      modifies this
      ensures claimed.None? ==> State() == old(State()) && forall id | id in order :: !IsQueued(jobs, id)
      ensures claimed.Some? ==>
                && IsOldest(old(jobs), order, claimed.value)
                && State() == Committed(old(State()), claimed.value, old(jobs)[claimed.value], Running, [ExecutionStarted])
    {
      var candidates := SelectQueued(order);
      QueuedAreFirst(jobs, order, 20);
      assert candidates != [] ==> Applies(jobs, candidates[0].0, candidates[0].1, Running);
      var i := ClaimNext(candidates);
      if i.None? {
        return None;
      }
      return Some(candidates[i.value].0);
    }

    /** `cancel`, from the record it read at the start of its unit of work. */
    method Cancel(id: JobId, seen: Job)
      modifies this
      ensures State() == CancelFrom(old(State()), id, seen)
    {
      var before := audits;
      audits := audits + [Audit(id, CancellationRequested)];
      if Terminal(seen.status) {
        audits := audits + [Audit(id, InvalidTransition)];
      } else {
        var ok := Transition(id, seen, Cancelled);
        audits := if ok then audits + [Audit(id, ExecutionCancelled)] else before;
      }
    }

    /** `_finish`, from the record it read at the start of its unit of work. */
    method Finish(id: JobId, seen: Job, outcome: Outcome, truncated: bool)
      modifies this
      ensures State() == FinishFrom(old(State()), id, seen, outcome, truncated)
    {
      var before := audits;
      if truncated {
        audits := audits + [Audit(id, OutputTruncated)];
      }
      if seen.status == Cancelled {
        return;
      }
      var ok := Transition(id, seen, TargetOf(outcome));
      audits := if ok then audits + [Audit(id, EndEvent(TargetOf(outcome)))] else before;
    }
  }

  // ---------------------------------------------------------------- interleavings

  /** The tables, and every record any unit of work has ever read: a unit of work may write from
      any of them, at any later time, or never. */
  datatype Sys = Sys(tables: Tables, observed: set<(JobId, Job)>)

  datatype Action =
    | Submit(id: JobId)
    | Schedule(id: JobId)
    | Read(id: JobId)
    | RouteFailed(id: JobId, seen: Job)
    | RouteQueued(id: JobId, seen: Job)
    | Claim(id: JobId, seen: Job)
    | Acquire(id: JobId, seen: Job)
    | CancelJob(id: JobId, seen: Job)
    | SignalLost(id: JobId, seen: Job)
    | FinishJob(id: JobId, seen: Job, outcome: Outcome, truncated: bool)

  predicate Enabled(s: Sys, a: Action) {
    match a
    case Submit(id) => id !in s.tables.jobs
    case Schedule(id) => id !in s.tables.jobs
    case Read(id) => id in s.tables.jobs
    case _ => (a.id, a.seen) in s.observed
  }

  function NextTables(t: Tables, a: Action): Tables {
    match a
    case Submit(id) => Tables(t.jobs[id := Job(Pending, 1)], t.audits + Events(id, [JobSubmitted]))
    case Schedule(id) => Tables(t.jobs[id := Job(Queued, 2)], t.audits + Events(id, [JobScheduled]))
    case Read(_) => t
    case RouteFailed(id, seen) => Committed(t, id, seen, Failed, [NoEligibleAgent, ExecutionFailed])
    case RouteQueued(id, seen) => Committed(t, id, seen, Queued, [AgentSelected, JobQueued])
    case Claim(id, seen) => Committed(t, id, seen, Running, [ExecutionStarted])
    case Acquire(id, seen) => Committed(t, id, seen, Running, [])
    case CancelJob(id, seen) => CancelFrom(t, id, seen)
    case SignalLost(id, _) => Noted(t, id, [SignalFailed])
    case FinishJob(id, seen, outcome, truncated) => FinishFrom(t, id, seen, outcome, truncated)
  }

  function Next(s: Sys, a: Action): Sys
    requires Enabled(s, a)
  {
    Sys(NextTables(s.tables, a), if a.Read? then s.observed + {(a.id, s.tables.jobs[a.id])} else s.observed)
  }

  ghost predicate Run(states: seq<Sys>, actions: seq<Action>) {
    && |states| == |actions| + 1 && states[0] == Sys(Tables(map[], []), {})
    && forall i | 0 <= i < |actions| :: StepAt(states, actions, i)
  }

  predicate StepAt(states: seq<Sys>, actions: seq<Action>, i: nat)
    requires i < |actions| < |states|
  {
    Enabled(states[i], actions[i]) && states[i + 1] == Next(states[i], actions[i])
  }

  // ---------------------------------------------------------------- status traces

  /** A row changes only along a valid transition, and then its version rises by one. */
  predicate Follows(job: Job, after: Job) {
    after == job || (after.status in ValidTransitions(job.status) && after.version == job.version + 1)
  }

  lemma StepFollows(s: Sys, a: Action, id: JobId)
    requires Enabled(s, a) && id in s.tables.jobs
    ensures id in Next(s, a).tables.jobs && Follows(s.tables.jobs[id], Next(s, a).tables.jobs[id])
  {
  }

  /** The transitions a run makes on a job between two of its states. */
  function Moves(states: seq<Sys>, id: JobId, from: nat, to: nat): nat
    requires to < |states|
  {
    if to <= from then 0
    else
      var (before, after) := (states[to - 1].tables.jobs, states[to].tables.jobs);
      Moves(states, id, from, to - 1) + if id in before && id in after && before[id] != after[id] then 1 else 0
  }

  /** In every interleaving each status of a job follows the one before it along a valid transition,
      and each transition raises the version by exactly one. */
  lemma TraceIsPath(states: seq<Sys>, actions: seq<Action>, id: JobId, i: nat)
    requires Run(states, actions) && i < |actions| && id in states[i].tables.jobs
    ensures id in states[i + 1].tables.jobs
    ensures Follows(states[i].tables.jobs[id], states[i + 1].tables.jobs[id])
  {
    assert StepAt(states, actions, i);
    StepFollows(states[i], actions[i], id);
  }

  predicate StepsTo(states: seq<Sys>, id: JobId, i: nat)
    requires 0 < i < |states|
  {
    && id in states[i - 1].tables.jobs && id in states[i].tables.jobs
    && Follows(states[i - 1].tables.jobs[id], states[i].tables.jobs[id])
  }

  /** A job stays in the table between two states and follows valid transitions there. */
  ghost predicate Path(states: seq<Sys>, id: JobId, from: nat, to: nat)
    requires from <= to < |states|
  {
    id in states[from].tables.jobs && forall i | from < i <= to :: StepsTo(states, id, i)
  }

  lemma {:induction false} RunIsPath(states: seq<Sys>, actions: seq<Action>, id: JobId, from: nat, to: nat)
    requires Run(states, actions) && from <= to < |states| && id in states[from].tables.jobs
    ensures Path(states, id, from, to)
  {
    if from < to {
      RunIsPath(states, actions, id, from, to - 1);
      assert from < to - 1 ==> StepsTo(states, id, to - 1);
      TraceIsPath(states, actions, id, to - 1);
      assert StepsTo(states, id, to);
    }
  }

  /** The version counts the transitions: along a path it has risen by exactly their number. */
  lemma {:induction false} VersionCountsMoves(states: seq<Sys>, id: JobId, from: nat, to: nat)
    requires from <= to < |states| && Path(states, id, from, to)
    ensures id in states[to].tables.jobs
    ensures states[to].tables.jobs[id].version == states[from].tables.jobs[id].version + Moves(states, id, from, to)
  {
    if from < to {
      VersionCountsMoves(states, id, from, to - 1);
      assert StepsTo(states, id, to);
    }
  }

  /** Nothing leaves a terminal status. */
  lemma {:induction false} TerminalIsFinal(states: seq<Sys>, actions: seq<Action>, id: JobId, i: nat, j: nat)
    requires Run(states, actions) && i <= j < |states|
    requires id in states[i].tables.jobs && Terminal(states[i].tables.jobs[id].status)
    ensures id in states[j].tables.jobs && states[j].tables.jobs[id] == states[i].tables.jobs[id]
  {
    if i < j {
      TerminalIsFinal(states, actions, id, i, j - 1);
      TraceIsPath(states, actions, id, j - 1);
    }
  }

  // ---------------------------------------------------------------- audit events

  predicate IsEnd(event: Event) {
    event == ExecutionSucceeded || event == ExecutionFailed || event == ExecutionTimedOut || event == ExecutionCancelled
  }

  /** The end-of-execution events recorded for a job, in order. */
  function EndEvents(audits: seq<Audit>, id: JobId): seq<Event> {
    if audits == [] then []
    else
      var last := audits[|audits| - 1];
      EndEvents(audits[..|audits| - 1], id) + if last.jobId == id && IsEnd(last.event) then [last.event] else []
  }

  lemma {:induction false} EndEventsConcat(xs: seq<Audit>, ys: seq<Audit>, id: JobId)
    ensures EndEvents(xs + ys, id) == EndEvents(xs, id) + EndEvents(ys, id)
  {
    if ys == [] {
      assert xs + ys == xs;
    } else {
      EndEventsConcat(xs, ys[..|ys| - 1], id);
      assert (xs + ys)[..|xs + ys| - 1] == xs + ys[..|ys| - 1];
    }
  }

  /** What the end events of a job must be: the one for its status if it has ended, and none before. */
  function ExpectedEnd(jobs: map<JobId, Job>, id: JobId): seq<Event> {
    if id in jobs && Terminal(jobs[id].status) then [EndEvent(jobs[id].status)] else []
  }

  ghost predicate AuditsMatch(t: Tables) {
    forall id: JobId :: EndEvents(t.audits, id) == ExpectedEnd(t.jobs, id)
  }

  function OwnEnds(events: seq<Event>): seq<Event> {
    if events == [] then []
    else OwnEnds(events[..|events| - 1])
         + if IsEnd(events[|events| - 1]) then [events[|events| - 1]] else []
  }

  lemma {:induction false} EndEventsOf(id: JobId, events: seq<Event>, other: JobId)
    ensures EndEvents(Events(id, events), other) == if id == other then OwnEnds(events) else []
  {
    if events != [] {
      EndEventsOf(id, events[..|events| - 1], other);
      assert Events(id, events)[..|events| - 1] == Events(id, events[..|events| - 1]);
    }
  }

  lemma EndsAppended(audits: seq<Audit>, id: JobId, events: seq<Event>, other: JobId)
    ensures EndEvents(audits + Events(id, events), other)
         == if id == other then EndEvents(audits, other) + OwnEnds(events) else EndEvents(audits, other)
  {
    EndEventsConcat(audits, Events(id, events), other);
    EndEventsOf(id, events, other);
  }

  /** What a transition changes in the end events expected of each job. */
  lemma ExpectedAfter(jobs: map<JobId, Job>, id: JobId, seen: Job, to: Status, other: JobId)
    requires Applies(jobs, id, seen, to)
    ensures ExpectedEnd(jobs, id) == []
    ensures ExpectedEnd(jobs[id := Moved(seen, to)], other) ==
            if other != id then ExpectedEnd(jobs, other) else if Terminal(to) then [EndEvent(to)] else []
  {
  }

  lemma CommittedMatchesAt(t: Tables, id: JobId, seen: Job, to: Status, events: seq<Event>, other: JobId)
    requires EndEvents(t.audits, other) == ExpectedEnd(t.jobs, other) && Applies(t.jobs, id, seen, to)
    requires OwnEnds(events) == if Terminal(to) then [EndEvent(to)] else []
    ensures EndEvents(t.audits + Events(id, events), other) == ExpectedEnd(t.jobs[id := Moved(seen, to)], other)
  {
    ExpectedAfter(t.jobs, id, seen, to, other);
    EndsAppended(t.audits, id, events, other);
    assert [] + OwnEnds(events) == OwnEnds(events);
  }

  /** A unit of work keeps the audits matching when its end events are those its transition calls for. */
  lemma CommittedMatches(t: Tables, id: JobId, seen: Job, to: Status, events: seq<Event>)
    requires AuditsMatch(t)
    requires OwnEnds(events) == if Terminal(to) then [EndEvent(to)] else []
    ensures AuditsMatch(Committed(t, id, seen, to, events))
  {
    if Applies(t.jobs, id, seen, to) {
      forall other
        ensures EndEvents(t.audits + Events(id, events), other) == ExpectedEnd(t.jobs[id := Moved(seen, to)], other)
      {
        CommittedMatchesAt(t, id, seen, to, events, other);
      }
    }
  }

  lemma NotedMatches(t: Tables, id: JobId, events: seq<Event>)
    requires AuditsMatch(t) && OwnEnds(events) == []
    ensures AuditsMatch(Noted(t, id, events))
  {
    forall other ensures EndEvents(Noted(t, id, events).audits, other) == ExpectedEnd(t.jobs, other) {
      EndsAppended(t.audits, id, events, other);
      assert EndEvents(t.audits, other) == ExpectedEnd(t.jobs, other);
    }
  }

  lemma CreatedMatches(t: Tables, id: JobId, job: Job, event: Event)
    requires AuditsMatch(t) && id !in t.jobs && !Terminal(job.status) && !IsEnd(event)
    ensures AuditsMatch(Tables(t.jobs[id := job], t.audits + Events(id, [event])))
  {
    OwnOne(event);
    NotedMatches(t, id, [event]);
    var after := Tables(t.jobs[id := job], t.audits + Events(id, [event]));
    forall other ensures EndEvents(after.audits, other) == ExpectedEnd(after.jobs, other) {
      assert EndEvents(Noted(t, id, [event]).audits, other) == ExpectedEnd(t.jobs, other);
    }
  }

  lemma OwnOne(event: Event)
    ensures OwnEnds([event]) == if IsEnd(event) then [event] else []
  {
    assert [event][..0] == [];
  }

  lemma OwnTwo(first: Event, second: Event)
    ensures OwnEnds([first, second]) == OwnEnds([first]) + OwnEnds([second])
  {
    OwnOne(second);
    assert [first, second][..1] == [first];
  }

  lemma PairMatches(t: Tables, id: JobId, seen: Job, to: Status, note: Event, last: Event)
    requires AuditsMatch(t) && !IsEnd(note)
    requires IsEnd(last) == Terminal(to) && (Terminal(to) ==> last == EndEvent(to))
    ensures AuditsMatch(Committed(t, id, seen, to, [note, last]))
  {
    OwnTwo(note, last);
    OwnOne(note);
    OwnOne(last);
    CommittedMatches(t, id, seen, to, [note, last]);
  }

  lemma StepMatches(t: Tables, a: Action)
    requires AuditsMatch(t) && (a.Submit? || a.Schedule? ==> a.id !in t.jobs)
    ensures AuditsMatch(NextTables(t, a))
  {
    match a
    case Submit(id) => CreatedMatches(t, id, Job(Pending, 1), JobSubmitted);
    case Schedule(id) => CreatedMatches(t, id, Job(Queued, 2), JobScheduled);
    case Read(_) =>
    case RouteFailed(id, seen) => PairMatches(t, id, seen, Failed, NoEligibleAgent, ExecutionFailed);
    case RouteQueued(id, seen) => PairMatches(t, id, seen, Queued, AgentSelected, JobQueued);
    case Claim(id, seen) =>
      OwnOne(ExecutionStarted);
      CommittedMatches(t, id, seen, Running, [ExecutionStarted]);
    case Acquire(id, seen) => CommittedMatches(t, id, seen, Running, []);
    case CancelJob(id, seen) => CancelMatches(t, id, seen);
    case SignalLost(id, _) =>
      OwnOne(SignalFailed);
      NotedMatches(t, id, [SignalFailed]);
    case FinishJob(id, seen, outcome, truncated) => FinishMatches(t, id, seen, outcome, truncated);
  }

  lemma CancelMatches(t: Tables, id: JobId, seen: Job)
    requires AuditsMatch(t)
    ensures AuditsMatch(CancelFrom(t, id, seen))
  {
    OwnOne(CancellationRequested);
    if Terminal(seen.status) {
      OwnTwo(CancellationRequested, InvalidTransition);
      OwnOne(InvalidTransition);
      NotedMatches(t, id, [CancellationRequested, InvalidTransition]);
    } else {
      PairMatches(t, id, seen, Cancelled, CancellationRequested, ExecutionCancelled);
    }
  }

  lemma FinishMatches(t: Tables, id: JobId, seen: Job, outcome: Outcome, truncated: bool)
    requires AuditsMatch(t)
    ensures AuditsMatch(FinishFrom(t, id, seen, outcome, truncated))
  {
    var end := EndEvent(TargetOf(outcome));
    OwnOne(OutputTruncated);
    OwnOne(end);
    OwnTwo(OutputTruncated, end);
    if seen.status == Cancelled {
      NotedMatches(t, id, TruncationEvents(truncated));
    } else {
      assert TruncationEvents(truncated) + [end] == if truncated then [OutputTruncated, end] else [end];
      CommittedMatches(t, id, seen, TargetOf(outcome), TruncationEvents(truncated) + [end]);
    }
  }

  /** In every interleaving of the job service's units of work a job has exactly the end event of its status
      once it has ended, and none before. */
  lemma {:induction false} OneEndEventPerJob(states: seq<Sys>, actions: seq<Action>, i: nat)
    requires Run(states, actions) && i < |states|
    ensures AuditsMatch(states[i].tables)
  {
    if i > 0 {
      OneEndEventPerJob(states, actions, i - 1);
      assert StepAt(states, actions, i - 1);
      StepMatches(states[i - 1].tables, actions[i - 1]);
    }
  }

  /** Of all the units of work that read the same version of a job, at most one transition commits. */
  lemma OneWinnerPerRead(states: seq<Sys>, actions: seq<Action>, id: JobId, seen: Job, i: nat, j: nat,
                         first: Status, second: Status)
    requires Run(states, actions) && i < j < |states|
    requires Applies(states[i].tables.jobs, id, seen, first)
    requires id in states[i + 1].tables.jobs && states[i + 1].tables.jobs[id] == Moved(seen, first)
    ensures !Applies(states[j].tables.jobs, id, seen, second)
  {
    RunIsPath(states, actions, id, i + 1, j);
    VersionCountsMoves(states, id, i + 1, j);
  }

  // ---------------------------------------------------------------- what a job ends as

  /** Which pairs of statuses are transitions. */
  lemma TransitionsAre(from: Status, to: Status)
    ensures to in ValidTransitions(from) <==>
            (from, to) in {(Pending, Queued), (Pending, Failed), (Pending, Cancelled),
                           (Queued, Running), (Queued, Failed), (Queued, Cancelled),
                           (Running, Queued), (Running, Succeeded), (Running, Failed), (Running, TimedOut),
                           (Running, Cancelled)}
  {}

  /** A finish from the current record of a running job: the status says how the process ended, the event
      says the same, and the version rises by one. */
  lemma FinishSays(t: Tables, id: JobId, seen: Job, outcome: Outcome, truncated: bool)
    requires id in t.jobs && t.jobs[id] == seen && seen.status == Running
    ensures var after := FinishFrom(t, id, seen, outcome, truncated);
            && after.jobs.Keys == t.jobs.Keys && after.jobs == t.jobs[id := after.jobs[id]]
            && after.jobs[id].version == seen.version + 1
            && (after.jobs[id].status == Succeeded <==> outcome.ProcessSucceeded?)
            && (after.jobs[id].status == Failed <==> outcome.ProcessFailed?)
            && (after.jobs[id].status == TimedOut <==> outcome.ProcessTimedOut?)
            && (after.jobs[id].status == Cancelled <==> outcome.ProcessCancelled?)
            && after.audits == t.audits + (if truncated then [Audit(id, OutputTruncated)] else []) + [
                 Audit(id, match outcome
                           case ProcessSucceeded => ExecutionSucceeded
                           case ProcessFailed => ExecutionFailed
                           case ProcessTimedOut => ExecutionTimedOut
                           case ProcessCancelled => ExecutionCancelled)]
  {
    var end := EndEvent(TargetOf(outcome));
    EventsOf(id, TruncationEvents(truncated), end);
    var note := if truncated then [Audit(id, OutputTruncated)] else [];
    assert Events(id, TruncationEvents(truncated)) == note;
    assert t.audits + (note + [Audit(id, end)]) == t.audits + note + [Audit(id, end)];
  }

  lemma EventsOf(id: JobId, events: seq<Event>, last: Event)
    ensures Events(id, events + [last]) == Events(id, events) + [Audit(id, last)]
  {}

  /** A finish of a job that was cancelled, or has changed since it was read, moves nothing. */
  lemma StaleFinishMovesNothing(t: Tables, id: JobId, seen: Job, outcome: Outcome, truncated: bool)
    requires seen.status == Cancelled || id !in t.jobs || t.jobs[id] != seen
    ensures FinishFrom(t, id, seen, outcome, truncated).jobs == t.jobs
    ensures seen.status != Cancelled ==> FinishFrom(t, id, seen, outcome, truncated) == t
  {}

  /** A cancellation from the current record: a job that has not ended is cancelled, and one that has is
      left as it is with a note; from a stale record of a job that had not ended nothing happens. */
  lemma CancelSays(t: Tables, id: JobId, seen: Job)
    ensures var after := CancelFrom(t, id, seen);
            if seen.status in {Succeeded, Failed, TimedOut, Cancelled} then
              after.jobs == t.jobs &&
              after.audits == t.audits + [Audit(id, CancellationRequested), Audit(id, InvalidTransition)]
            else if id in t.jobs && t.jobs[id] == seen then
              && after.jobs == t.jobs[id := Job(Cancelled, seen.version + 1)]
              && after.audits == t.audits + [Audit(id, CancellationRequested), Audit(id, ExecutionCancelled)]
            else after == t
  {
    assert Events(id, [CancellationRequested, InvalidTransition])
        == [Audit(id, CancellationRequested), Audit(id, InvalidTransition)];
    assert Events(id, [CancellationRequested, ExecutionCancelled])
        == [Audit(id, CancellationRequested), Audit(id, ExecutionCancelled)];
  }

  /** What can have ended a job: a process that ended that way, or, for a failure, the lack of an eligible
      agent, and, for a cancellation, a request. */
  predicate Ends(a: Action, id: JobId, before: Job, status: Status) {
    match status
    case Succeeded => a.FinishJob? && a.id == id && a.outcome.ProcessSucceeded? && before.status == Running
    case TimedOut => a.FinishJob? && a.id == id && a.outcome.ProcessTimedOut? && before.status == Running
    case Failed =>
      a.id == id && ((a.FinishJob? && a.outcome.ProcessFailed? && before.status != Cancelled) || a.RouteFailed?)
    case Cancelled => a.id == id && ((a.FinishJob? && a.outcome.ProcessCancelled?) || a.CancelJob?)
    case _ => false
  }

  lemma EndSource(s: Sys, a: Action, id: JobId)
    requires Enabled(s, a) && id in Next(s, a).tables.jobs
    requires Next(s, a).tables.jobs[id].status in {Succeeded, Failed, TimedOut, Cancelled}
    requires id in s.tables.jobs ==> s.tables.jobs[id] != Next(s, a).tables.jobs[id]
    ensures id in s.tables.jobs && Ends(a, id, s.tables.jobs[id], Next(s, a).tables.jobs[id].status)
  {}

  /** In every interleaving an ended job was ended by one earlier step of the kind its status says: one that
      succeeded or timed out by a finish of its running process with that outcome. */
  lemma {:induction false} EndedByOutcome(states: seq<Sys>, actions: seq<Action>, j: nat, id: JobId) returns (i: nat)
    requires Run(states, actions) && j < |states| && id in states[j].tables.jobs
    requires states[j].tables.jobs[id].status in {Succeeded, Failed, TimedOut, Cancelled}
    ensures i < j && id in states[i].tables.jobs
    ensures Ends(actions[i], id, states[i].tables.jobs[id], states[j].tables.jobs[id].status)
    ensures id in states[i + 1].tables.jobs && states[i + 1].tables.jobs[id] == states[j].tables.jobs[id]
  {
    i := j - 1;
    if id in states[i].tables.jobs && states[i].tables.jobs[id] == states[j].tables.jobs[id] {
      i := EndedByOutcome(states, actions, i, id);
    } else {
      assert StepAt(states, actions, i);
      EndSource(states[i], actions[i], id);
    }
  }

  /** In every interleaving the end events of a job are the one that names its status, or none. */
  lemma EndEventsSay(states: seq<Sys>, actions: seq<Action>, i: nat, id: JobId)
    requires Run(states, actions) && i < |states| && id in states[i].tables.jobs
    ensures EndEvents(states[i].tables.audits, id) ==
            match states[i].tables.jobs[id].status
            case Succeeded => [ExecutionSucceeded]
            case Failed => [ExecutionFailed]
            case TimedOut => [ExecutionTimedOut]
            case Cancelled => [ExecutionCancelled]
            case _ => []
  {
    OneEndEventPerJob(states, actions, i);
    assert EndEvents(states[i].tables.audits, id) == ExpectedEnd(states[i].tables.jobs, id);
  }

  /** A submitted job starts pending at version one; a scheduled one starts queued at version two. */
  lemma CreationSays(t: Tables, id: JobId)
    ensures NextTables(t, Submit(id)) == Tables(t.jobs[id := Job(Pending, 1)], t.audits + [Audit(id, JobSubmitted)])
    ensures NextTables(t, Schedule(id)) == Tables(t.jobs[id := Job(Queued, 2)], t.audits + [Audit(id, JobScheduled)])
  {
    assert Events(id, [JobSubmitted]) == [Audit(id, JobSubmitted)];
    assert Events(id, [JobScheduled]) == [Audit(id, JobScheduled)];
  }

  /** Routing sends a pending job to the queue, or ends it for the lack of an agent, with both events. */
  lemma RoutingSays(t: Tables, id: JobId, seen: Job)
    requires id in t.jobs && t.jobs[id] == seen && seen.status == Pending
    ensures NextTables(t, RouteQueued(id, seen)) ==
            Tables(t.jobs[id := Job(Queued, seen.version + 1)], t.audits + [Audit(id, AgentSelected), Audit(id, JobQueued)])
    ensures NextTables(t, RouteFailed(id, seen)) ==
            Tables(t.jobs[id := Job(Failed, seen.version + 1)], t.audits + [Audit(id, NoEligibleAgent), Audit(id, ExecutionFailed)])
  {
    assert Events(id, [AgentSelected, JobQueued]) == [Audit(id, AgentSelected), Audit(id, JobQueued)];
    assert Events(id, [NoEligibleAgent, ExecutionFailed]) == [Audit(id, NoEligibleAgent), Audit(id, ExecutionFailed)];
  }

  /** A claim starts a job that was queued, and leaves its start event; the second claim path leaves none. */
  lemma ClaimSays(t: Tables, id: JobId, seen: Job)
    requires id in t.jobs && t.jobs[id] == seen && seen.status == Queued
    ensures NextTables(t, Claim(id, seen)) ==
            Tables(t.jobs[id := Job(Running, seen.version + 1)], t.audits + [Audit(id, ExecutionStarted)])
    ensures NextTables(t, Acquire(id, seen)) == Tables(t.jobs[id := Job(Running, seen.version + 1)], t.audits)
  {
    assert Events(id, [ExecutionStarted]) == [Audit(id, ExecutionStarted)];
    assert Events(id, []) == [];
    assert t.audits + [] == t.audits;
  }
}
