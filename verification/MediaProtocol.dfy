/** Many image-processing workers over one shared database: every interleaving of claims split into
    snapshot and update, publications, completions, crashes and reaps. */
module MediaProtocol {
  import opened Wrappers
  import opened MediaJobs

  datatype MediaStatus = Validated | Processing | Processed | ProcessingFailed | Archived

  datatype Media = Media(status: MediaStatus, version: nat)

  datatype Operation = Normalized | Thumbnail | Preview

  /** A row of `media_derivations`. */
  datatype Derivation = Derivation(mediaId: MediaId, operation: Operation)

  /** A row of `media_processing_attempts`. */
  datatype Attempt = Attempt(worker: WorkerId, status: AttemptStatus)

  datatype AttemptStatus = AttemptRunning | AttemptSucceeded | AttemptFailed

  /** What a worker holds after its claim committed. */
  datatype Lease = Lease(jobId: JobId, mediaId: MediaId, worker: WorkerId, token: Token, number: nat)

  /** Where one call of `run_next` stands, between its transactions. */
  datatype Phase =
    | Idle
    | Snapped(id: JobId, seen: Job)      // candidate read, claiming update not yet sent
    | Claimed(lease: Lease)              // claim committed
    | Marked(lease: Lease)               // media marked as processing
    | Finished(lease: Lease)             // `_process` returned
    | Erred(lease: Lease)                // `_process` raised

  type Process = nat

  /** The database, the tokens drawn so far, and the local state of every worker process. */
  datatype Sys = Sys(
    jobs: Jobs,
    attempts: map<(JobId, nat), Attempt>,
    media: map<MediaId, Media>,
    derivations: seq<Derivation>,
    hashes: seq<MediaId>,
    processedAudits: seq<MediaId>,
    issued: Token,
    workers: map<Process, Phase>)

  const EMPTY := Sys(map[], map[], map[], [], [], [], 0, map[])

  datatype Action =
    | AddMedia(mediaId: MediaId)
    | ArchiveMedia(mediaId: MediaId)
    | Enqueue(newId: JobId, mediaId: MediaId, maxAttempts: nat, now: int)
    | Snapshot(p: Process, id: JobId, now: int)
    | UpdateClaim(p: Process, worker: WorkerId, expiresAt: int)
    | Mark(p: Process)
    | Publish(p: Process)
    | Raise(p: Process)
    | CompleteSuccess(p: Process)
    | CompleteFailure(p: Process, now: int, backoff: int)
    | Reap(now: int)
    | Crash(p: Process)

  function PhaseOf(s: Sys, p: Process): Phase {
    if p in s.workers then s.workers[p] else Idle
  }

  predicate Leased(phase: Phase) {
    phase.Claimed? || phase.Marked? || phase.Finished? || phase.Erred?
  }

  // ---------------------------------------------------------------- transactions

  function InPhase(s: Sys, p: Process, phase: Phase): Sys {
    s.(workers := s.workers[p := phase])
  }

  /** The rest of the claim transaction: the conditional update and, in the same transaction, the
      attempt row, whose (job, number) pair is unique. */
  function DoUpdateClaim(s: Sys, p: Process, id: JobId, seen: Job, worker: WorkerId, expiresAt: int): Sys {
    if !Matches(s.jobs, id, seen) then InPhase(s, p, Idle)
    else
      var row := ClaimedRow(s.jobs[id], seen, worker, s.issued, expiresAt);
      if (id, row.attempts) in s.attempts then InPhase(s, p, Idle)
      else
        InPhase(s.(jobs := s.jobs[id := row],
                   attempts := s.attempts[(id, row.attempts) := Attempt(worker, AttemptRunning)],
                   issued := s.issued + 1),
                p, Claimed(Lease(id, row.mediaId, worker, s.issued, row.attempts)))
  }

  /** The first transaction of `_process`. */
  function DoMark(s: Sys, p: Process, lease: Lease): Sys {
    var m := lease.mediaId;
    if m !in s.media then InPhase(s, p, Erred(lease))
    else if s.media[m].status == Processed then InPhase(s, p, Finished(lease))
    else InPhase(s.(media := s.media[m := Media(Processing, s.media[m].version + 1)]), p, Marked(lease))
  }

  /** The loop over the derivations: each is added unless the media already has it. */
  function AddDerivations(derivations: seq<Derivation>, m: MediaId, operations: seq<Operation>): seq<Derivation> {
    if operations == [] then derivations
    else
      var before := AddDerivations(derivations, m, operations[..|operations| - 1]);
      var d := Derivation(m, operations[|operations| - 1]);
      if d in before then before else before + [d]
  }

  const OPERATIONS := [Normalized, Thumbnail, Preview]

  /** The publishing transaction of `_process`: derivations, perceptual hash, status and audit event.
      The hash table is unique per media, so a second publication raises and is rolled back. */
  function DoPublish(s: Sys, p: Process, lease: Lease): Sys {
    var m := lease.mediaId;
    if m !in s.media || m in s.hashes then InPhase(s, p, Erred(lease))
    else
      InPhase(s.(derivations := AddDerivations(s.derivations, m, OPERATIONS),
                 hashes := s.hashes + [m],
                 media := s.media[m := Media(Processed, s.media[m].version + 1)],
                 processedAudits := s.processedAudits + [m]),
              p, Finished(lease))
  }

  function CompletedAttempt(s: Sys, lease: Lease, status: AttemptStatus): map<(JobId, nat), Attempt> {
    var key := (lease.jobId, lease.number);
    if key in s.attempts then s.attempts[key := s.attempts[key].(status := status)] else s.attempts
  }

  /** Attempt and job complete together; a lease that is no longer accepted rolls both back. */
  function DoCompleteSuccess(s: Sys, p: Process, lease: Lease): Sys {
    if !Accepts(s.jobs, lease.jobId, lease.worker, lease.token) then InPhase(s, p, Idle)
    else InPhase(s.(jobs := s.jobs[lease.jobId := SucceededRow(s.jobs[lease.jobId])],
                    attempts := CompletedAttempt(s, lease, AttemptSucceeded)), p, Idle)
  }

  function DoCompleteFailure(s: Sys, p: Process, lease: Lease, now: int, backoff: int): Sys {
    if !Accepts(s.jobs, lease.jobId, lease.worker, lease.token) then InPhase(s, p, Idle)
    else
      var m := lease.mediaId;
      var media := if m in s.media && s.media[m].status == Processing
                   then s.media[m := Media(ProcessingFailed, s.media[m].version + 1)] else s.media;
      InPhase(s.(jobs := s.jobs[lease.jobId := FailedRow(s.jobs[lease.jobId], now, backoff)],
                 attempts := CompletedAttempt(s, lease, AttemptFailed),
                 media := media), p, Idle)
  }

  predicate Enabled(s: Sys, a: Action) {
    match a
    case AddMedia(m) => m !in s.media
    case ArchiveMedia(m) => m in s.media
    case Enqueue(newId, _, maxAttempts, _) => newId !in s.jobs && maxAttempts >= 1
    case Snapshot(p, id, now) => PhaseOf(s, p).Idle? && IsCandidate(s.jobs, id, now)
    case UpdateClaim(p, _, _) => PhaseOf(s, p).Snapped?
    case Mark(p) => PhaseOf(s, p).Claimed?
    case Publish(p) => PhaseOf(s, p).Marked?
    case Raise(p) => PhaseOf(s, p).Claimed? || PhaseOf(s, p).Marked?
    case CompleteSuccess(p) => PhaseOf(s, p).Finished?
    case CompleteFailure(p, _, _) => PhaseOf(s, p).Erred?
    case Reap(_) => true
    case Crash(_) => true
  }

  function Next(s: Sys, a: Action): Sys
    requires Enabled(s, a)
  {
    match a
    case AddMedia(m) => s.(media := s.media[m := Media(Validated, 1)])
    case ArchiveMedia(m) => s.(media := s.media[m := Media(Archived, s.media[m].version + 1)])
    case Enqueue(newId, m, maxAttempts, now) => s.(jobs := Enqueued(s.jobs, newId, m, maxAttempts, now))
    case Snapshot(p, id, _) => InPhase(s, p, Snapped(id, s.jobs[id]))
    case UpdateClaim(p, worker, expiresAt) =>
      DoUpdateClaim(s, p, PhaseOf(s, p).id, PhaseOf(s, p).seen, worker, expiresAt)
    case Mark(p) => DoMark(s, p, PhaseOf(s, p).lease)
    case Publish(p) => DoPublish(s, p, PhaseOf(s, p).lease)
    case Raise(p) => InPhase(s, p, Erred(PhaseOf(s, p).lease))
    case CompleteSuccess(p) => DoCompleteSuccess(s, p, PhaseOf(s, p).lease)
    case CompleteFailure(p, now, backoff) => DoCompleteFailure(s, p, PhaseOf(s, p).lease, now, backoff)
    case Reap(now) => s.(jobs := Reaped(s.jobs, now))
    case Crash(p) => InPhase(s, p, Idle)
  }

  /** A run: the states a sequence of enabled actions leads through from the empty system. */
  ghost predicate Run(states: seq<Sys>, actions: seq<Action>) {
    |states| == |actions| + 1 && states[0] == EMPTY && forall i | 0 <= i < |actions| :: StepAt(states, actions, i)
  }

  predicate StepAt(states: seq<Sys>, actions: seq<Action>, i: nat)
    requires i < |actions| < |states|
  {
    Enabled(states[i], actions[i]) && states[i + 1] == Next(states[i], actions[i])
  }

  // ---------------------------------------------------------------- what one step does to one row

  /** The ways a transaction may change an existing row. */
  predicate Advances(job: Job, after: Job, issued: Token) {
    && after.mediaId == job.mediaId && after.maxAttempts == job.maxAttempts
    && (IsClaim(job, after, issued) || IsCompletion(job, after) || IsReap(job, after))
  }

  predicate IsClaim(job: Job, after: Job, issued: Token) {
    && job.status == Queued && after.status == Running
    && after.attempts == job.attempts + 1 && after.version == job.version + 1
    && after.lockedBy.Some? && after.leaseExpiresAt.Some? && after.token == Some(issued)
  }

  /** The lease is gone, and the job ended or was requeued according to its attempts. */
  predicate IsRelease(job: Job, after: Job) {
    && after.lockedBy.None? && after.leaseExpiresAt.None? && after.token.None?
    && after.attempts == job.attempts
    && (after.status == Succeeded || after.status == if job.attempts >= job.maxAttempts then Failed else Queued)
  }

  predicate IsCompletion(job: Job, after: Job) {
    job.token.Some? && IsRelease(job, after) && after.version == job.version + 1
  }

  predicate IsReap(job: Job, after: Job) {
    job.status == Running && IsRelease(job, after) && after.status != Succeeded && after.version == job.version
  }

  predicate IsNew(jobs: Jobs, job: Job) {
    && job.status == Queued && job.attempts == 0 && job.maxAttempts >= 1
    && job.lockedBy.None? && job.leaseExpiresAt.None? && job.token.None?
    && !HasActive(jobs, job.mediaId)
  }

  predicate RowStep(jobs: Jobs, after: Jobs, issued: Token, id: JobId) {
    if id in jobs then id in after && (after[id] == jobs[id] || Advances(jobs[id], after[id], issued))
    else id in after ==> IsNew(jobs, after[id])
  }

  ghost predicate RowSteps(jobs: Jobs, after: Jobs, issued: Token) {
    && (forall id :: id in jobs || id in after ==> RowStep(jobs, after, issued, id))
    && (forall i, j | i in after && i !in jobs && j in after && j !in jobs :: i == j)
  }

  // ---------------------------------------------------------------- invariants

  /** A job is RUNNING exactly when holder, token and expiry are all set, and otherwise none is;
      a queued job has attempts left, and a running one has used at least one. */
  predicate WellFormed(job: Job) {
    && (job.status == Running <==> job.lockedBy.Some?)
    && job.lockedBy.Some? == job.token.Some? == job.leaseExpiresAt.Some?
    && (job.status == Queued ==> job.attempts < job.maxAttempts)
    && (job.status == Running ==> 1 <= job.attempts)
    && job.attempts <= job.maxAttempts
  }

  ghost predicate JobsWellFormed(jobs: Jobs) {
    forall id :: id in jobs ==> WellFormed(jobs[id])
  }

  /** At most one job of a media is queued, running or succeeded. */
  ghost predicate OneActivePerMedia(jobs: Jobs) {
    forall i, j | i in jobs && j in jobs && Active(jobs[i]) && Active(jobs[j]) ::
      jobs[i].mediaId == jobs[j].mediaId ==> i == j
  }

  /** Attempt rows are exactly 1..attempts of each job. */
  ghost predicate AttemptsNumbered(jobs: Jobs, attempts: map<(JobId, nat), Attempt>) {
    forall id: JobId, k: nat :: (id, k) in attempts <==> id in jobs && 1 <= k <= jobs[id].attempts
  }

  /** A snapshot is of a queued row, and while the version is the one it saw the whole row is. */
  predicate Tracks(jobs: Jobs, id: JobId, seen: Job) {
    && id in jobs && seen.status == Queued && seen.version <= jobs[id].version
    && (seen.version == jobs[id].version ==> jobs[id] == seen)
  }

  ghost predicate SnapshotsTrack(jobs: Jobs, workers: map<Process, Phase>) {
    forall p :: p in workers && workers[p].Snapped? ==> Tracks(jobs, workers[p].id, workers[p].seen)
  }

  /** Tokens are drawn once: no two processes and no two jobs share one, and a lease names its job's media. */
  ghost predicate TokensDistinct(jobs: Jobs, issued: Token) {
    && (forall id :: id in jobs && jobs[id].token.Some? ==> jobs[id].token.value < issued)
    && (forall i, j | i in jobs && j in jobs && jobs[i].token.Some? :: jobs[i].token == jobs[j].token ==> i == j)
  }

  predicate LeaseFits(jobs: Jobs, issued: Token, lease: Lease) {
    lease.token < issued && lease.jobId in jobs && jobs[lease.jobId].mediaId == lease.mediaId
  }

  ghost predicate LeasesDistinct(jobs: Jobs, issued: Token, workers: map<Process, Phase>) {
    && (forall p :: p in workers && Leased(workers[p]) ==> LeaseFits(jobs, issued, workers[p].lease))
    && (forall p, q | p in workers && q in workers && Leased(workers[p]) && Leased(workers[q]) ::
          workers[p].lease.token == workers[q].lease.token ==> p == q)
  }

  ghost predicate NoDuplicates<T(!new)>(xs: seq<T>) {
    forall i, j :: 0 <= i < j < |xs| ==> xs[i] != xs[j]
  }

  /** One hash and one audit event per published media, and each derivation once, exactly for the published media. */
  ghost predicate PublishedOnce(s: Sys) {
    && NoDuplicates(s.hashes) && NoDuplicates(s.derivations) && s.processedAudits == s.hashes
    && forall m: MediaId, op: Operation :: Derivation(m, op) in s.derivations <==> m in s.hashes
  }

  /** Only published media are processed, finished by a worker, or have a succeeded job. */
  ghost predicate SuccessIsPublished(s: Sys) {
    && (forall m :: m in s.media && s.media[m].status == Processed ==> m in s.hashes)
    && (forall p :: p in s.workers && s.workers[p].Finished? ==> s.workers[p].lease.mediaId in s.hashes)
    && (forall id :: id in s.jobs && s.jobs[id].status == Succeeded ==> s.jobs[id].mediaId in s.hashes)
  }

  ghost predicate Inv(s: Sys) {
    && JobsWellFormed(s.jobs) && OneActivePerMedia(s.jobs) && AttemptsNumbered(s.jobs, s.attempts)
    && SnapshotsTrack(s.jobs, s.workers) && TokensDistinct(s.jobs, s.issued)
    && LeasesDistinct(s.jobs, s.issued, s.workers) && PublishedOnce(s) && SuccessIsPublished(s)
  }

  // ---------------------------------------------------------------- the job table

  lemma ReapAdvances(job: Job, now: int, issued: Token)
    requires WellFormed(job)
    ensures ReapedRow(job, now) == job || Advances(job, ReapedRow(job, now), issued)
  {
  }

  lemma CompletionAdvances(job: Job, now: int, backoff: int, issued: Token)
    requires WellFormed(job) && job.token.Some?
    ensures Advances(job, SucceededRow(job), issued) && Advances(job, FailedRow(job, now, backoff), issued)
  {
  }

  lemma ClaimAdvances(jobs: Jobs, id: JobId, seen: Job, worker: WorkerId, issued: Token, expiresAt: int)
    requires Matches(jobs, id, seen) && Tracks(jobs, id, seen)
    ensures Advances(jobs[id], ClaimedRow(jobs[id], seen, worker, issued, expiresAt), issued)
  {
  }

  lemma NextIsRowStep(s: Sys, a: Action, id: JobId)
    requires JobsWellFormed(s.jobs) && SnapshotsTrack(s.jobs, s.workers) && Enabled(s, a)
    ensures RowStep(s.jobs, Next(s, a).jobs, s.issued, id)
  {
    if id in s.jobs {
      match a
      case Reap(now) => ReapAdvances(s.jobs[id], now, s.issued);
      case CompleteSuccess(p) =>
        if Accepts(s.jobs, id, PhaseOf(s, p).lease.worker, PhaseOf(s, p).lease.token) {
          CompletionAdvances(s.jobs[id], 0, 0, s.issued);
        }
      case CompleteFailure(p, now, backoff) =>
        if Accepts(s.jobs, id, PhaseOf(s, p).lease.worker, PhaseOf(s, p).lease.token) {
          CompletionAdvances(s.jobs[id], now, backoff, s.issued);
        }
      case UpdateClaim(p, worker, expiresAt) =>
        if Matches(s.jobs, PhaseOf(s, p).id, PhaseOf(s, p).seen) {
          ClaimAdvances(s.jobs, PhaseOf(s, p).id, PhaseOf(s, p).seen, worker, s.issued, expiresAt);
        }
      case _ =>
    }
  }

  /** Only an enqueue adds a job, and only its own. */
  lemma OnlyEnqueueAdds(s: Sys, a: Action, id: JobId)
    requires Enabled(s, a) && id in Next(s, a).jobs && id !in s.jobs
    ensures a.Enqueue? && id == a.newId
  {
  }

  /** Only a winning claim stores the next token, and only in the job it claims. */
  lemma OnlyClaimStoresToken(s: Sys, a: Action, id: JobId)
    requires Enabled(s, a) && (id in s.jobs ==> s.jobs[id].token != Some(s.issued))
    requires id in Next(s, a).jobs && Next(s, a).jobs[id].token == Some(s.issued)
    ensures a.UpdateClaim? && id == PhaseOf(s, a.p).id && Next(s, a).issued == s.issued + 1
  {
  }

  lemma NextIsRowSteps(s: Sys, a: Action)
    requires JobsWellFormed(s.jobs) && SnapshotsTrack(s.jobs, s.workers) && Enabled(s, a)
    ensures RowSteps(s.jobs, Next(s, a).jobs, s.issued)
  {
    forall id ensures RowStep(s.jobs, Next(s, a).jobs, s.issued, id) {
      NextIsRowStep(s, a, id);
    }
    forall i | i in Next(s, a).jobs && i !in s.jobs ensures a.Enqueue? && i == a.newId {
      OnlyEnqueueAdds(s, a, i);
    }
  }

  lemma RowStepsKeepJobs(jobs: Jobs, after: Jobs, issued: Token)
    requires RowSteps(jobs, after, issued) && JobsWellFormed(jobs)
    ensures JobsWellFormed(after)
  {
  }

  lemma RowStepsKeepOneActive(jobs: Jobs, after: Jobs, issued: Token)
    requires RowSteps(jobs, after, issued) && JobsWellFormed(jobs) && OneActivePerMedia(jobs)
    ensures OneActivePerMedia(after)
  {
    forall i, j | i in after && j in after && Active(after[i]) && Active(after[j]) && after[i].mediaId == after[j].mediaId
      ensures i == j
    {
      assert RowStep(jobs, after, issued, i) && RowStep(jobs, after, issued, j);
    }
  }

  lemma RowStepKeepsToken(jobs: Jobs, after: Jobs, issued: Token, id: JobId)
    requires RowSteps(jobs, after, issued) && id in after && after[id].token.Some?
    ensures after[id].token == Some(issued) || (id in jobs && after[id].token == jobs[id].token)
  {
  }

  lemma TokensKept(s: Sys, a: Action)
    requires Inv(s) && Enabled(s, a)
    ensures TokensDistinct(Next(s, a).jobs, Next(s, a).issued)
  {
    var jobs, after := s.jobs, Next(s, a).jobs;
    NextIsRowSteps(s, a);
    forall id | id in after && after[id].token.Some?
      ensures if after[id].token == Some(s.issued)
              then a.UpdateClaim? && id == PhaseOf(s, a.p).id && Next(s, a).issued == s.issued + 1
              else id in jobs && after[id].token == jobs[id].token
    {
      RowStepKeepsToken(jobs, after, s.issued, id);
      if after[id].token == Some(s.issued) {
        OnlyClaimStoresToken(s, a, id);
      }
    }
    IssuedGrows(s, a);
  }

  lemma IssuedGrows(s: Sys, a: Action)
    requires Enabled(s, a)
    ensures s.issued <= Next(s, a).issued <= s.issued + 1
  {
  }

  // ---------------------------------------------------------------- attempts

  lemma AttemptsKept(s: Sys, a: Action)
    requires Inv(s) && Enabled(s, a)
    ensures AttemptsNumbered(Next(s, a).jobs, Next(s, a).attempts)
  {
    forall id: JobId, k: nat
      ensures (id, k) in Next(s, a).attempts <==> id in Next(s, a).jobs && 1 <= k <= Next(s, a).jobs[id].attempts
    {
      AttemptKept(s, a, id, k);
    }
  }

  lemma AttemptKept(s: Sys, a: Action, id: JobId, k: nat)
    requires AttemptsNumbered(s.jobs, s.attempts) && SnapshotsTrack(s.jobs, s.workers) && Enabled(s, a)
    ensures (id, k) in Next(s, a).attempts <==> id in Next(s, a).jobs && 1 <= k <= Next(s, a).jobs[id].attempts
  {
    assert (id, k) in s.attempts <==> id in s.jobs && 1 <= k <= s.jobs[id].attempts;
    match a
    case UpdateClaim(p, _, _) =>
      var (claimed, seen) := (PhaseOf(s, p).id, PhaseOf(s, p).seen);
      assert Tracks(s.jobs, claimed, seen);
      assert (claimed, seen.attempts + 1) in s.attempts ==> seen.attempts + 1 <= s.jobs[claimed].attempts;
    case _ =>
  }

  // ---------------------------------------------------------------- worker processes

  /** A snapshot held after a step was held before it or was taken by it. */
  lemma SnapshotSource(s: Sys, a: Action, p: Process)
    requires Enabled(s, a) && p in Next(s, a).workers && Next(s, a).workers[p].Snapped?
    ensures (p in s.workers && s.workers[p] == Next(s, a).workers[p])
            || (a.Snapshot? && a.p == p && Next(s, a).workers[p] == Snapped(a.id, s.jobs[a.id]))
  {
  }

  lemma SnapshotKept(s: Sys, a: Action, p: Process)
    requires JobsWellFormed(s.jobs) && SnapshotsTrack(s.jobs, s.workers) && Enabled(s, a)
    requires p in Next(s, a).workers && Next(s, a).workers[p].Snapped?
    ensures Tracks(Next(s, a).jobs, Next(s, a).workers[p].id, Next(s, a).workers[p].seen)
  {
    var phase := Next(s, a).workers[p];
    SnapshotSource(s, a, p);
    NextIsRowStep(s, a, phase.id);
    if !a.Snapshot? {
      TracksKept(s.jobs, Next(s, a).jobs, s.issued, phase.id, phase.seen);
    }
  }

  lemma TracksKept(jobs: Jobs, after: Jobs, issued: Token, id: JobId, seen: Job)
    requires Tracks(jobs, id, seen) && WellFormed(jobs[id]) && RowStep(jobs, after, issued, id)
    ensures Tracks(after, id, seen)
  {
  }

  /** A lease held after a step was held before it or was won by it. */
  lemma LeaseSource(s: Sys, a: Action, p: Process)
    requires Enabled(s, a) && p in Next(s, a).workers && Leased(Next(s, a).workers[p])
    ensures var lease := Next(s, a).workers[p].lease;
            (p in s.workers && Leased(s.workers[p]) && s.workers[p].lease == lease)
            || (a.UpdateClaim? && a.p == p && lease.token == s.issued && Next(s, a).issued == s.issued + 1
                && lease.jobId in Next(s, a).jobs && Next(s, a).jobs[lease.jobId].mediaId == lease.mediaId)
  {
    if !a.UpdateClaim? {
      assert p in s.workers && Leased(s.workers[p]) && s.workers[p].lease == Next(s, a).workers[p].lease;
    }
  }

  lemma LeaseKept(s: Sys, a: Action, p: Process)
    requires JobsWellFormed(s.jobs) && SnapshotsTrack(s.jobs, s.workers)
    requires LeasesDistinct(s.jobs, s.issued, s.workers) && Enabled(s, a)
    requires p in Next(s, a).workers && Leased(Next(s, a).workers[p])
    ensures LeaseFits(Next(s, a).jobs, Next(s, a).issued, Next(s, a).workers[p].lease)
  {
    LeaseSource(s, a, p);
    if p in s.workers && Leased(s.workers[p]) && s.workers[p].lease == Next(s, a).workers[p].lease {
      IssuedGrows(s, a);
      NextIsRowStep(s, a, s.workers[p].lease.jobId);
    }
  }

  lemma LeasesKept(s: Sys, a: Action)
    requires Inv(s) && Enabled(s, a)
    ensures LeasesDistinct(Next(s, a).jobs, Next(s, a).issued, Next(s, a).workers)
  {
    var workers := Next(s, a).workers;
    forall p | p in workers && Leased(workers[p])
      ensures LeaseFits(Next(s, a).jobs, Next(s, a).issued, workers[p].lease)
      ensures (p in s.workers && Leased(s.workers[p]) && s.workers[p].lease == workers[p].lease
               && workers[p].lease.token < s.issued)
              || (a.UpdateClaim? && a.p == p && workers[p].lease.token == s.issued)
    {
      LeaseKept(s, a, p);
      LeaseSource(s, a, p);
    }
  }

  // ---------------------------------------------------------------- publications

  lemma {:induction false} AddDerivationsAddsEach(derivations: seq<Derivation>, m: MediaId, operations: seq<Operation>)
    requires NoDuplicates(derivations)
    ensures var after := AddDerivations(derivations, m, operations);
            NoDuplicates(after)
            && forall d :: d in after <==> d in derivations || (d.mediaId == m && d.operation in operations)
  {
    if operations != [] {
      var rest, last := operations[..|operations| - 1], operations[|operations| - 1];
      AddDerivationsAddsEach(derivations, m, rest);
      assert operations == rest + [last];
    }
  }

  lemma AppendKeepsDistinct<T(!new)>(xs: seq<T>, x: T)
    requires NoDuplicates(xs) && x !in xs
    ensures NoDuplicates(xs + [x])
  {
  }

  lemma PublishedOnceKept(s: Sys, a: Action)
    requires PublishedOnce(s) && Enabled(s, a)
    ensures PublishedOnce(Next(s, a))
  {
    if a.Publish? {
      var m := PhaseOf(s, a.p).lease.mediaId;
      if m in s.media && m !in s.hashes {
        AddDerivationsAddsEach(s.derivations, m, OPERATIONS);
        AppendKeepsDistinct(s.hashes, m);
        AllOperations();
      }
    }
  }

  lemma AllOperations()
    ensures forall op: Operation :: op in OPERATIONS
  {
    forall op: Operation ensures op in OPERATIONS {
      match op
      case Normalized => assert OPERATIONS[0] == op;
      case Thumbnail => assert OPERATIONS[1] == op;
      case Preview => assert OPERATIONS[2] == op;
    }
  }

  lemma HashesKept(s: Sys, a: Action)
    requires Enabled(s, a)
    ensures s.hashes <= Next(s, a).hashes
  {
  }

  /** A worker is finished because it was, or because its media was processed or published. */
  lemma FinishedSource(s: Sys, a: Action, p: Process)
    requires Enabled(s, a) && p in Next(s, a).workers && Next(s, a).workers[p].Finished?
    ensures var m := Next(s, a).workers[p].lease.mediaId;
            (p in s.workers && s.workers[p] == Next(s, a).workers[p])
            || (m in s.media && s.media[m].status == Processed) || m in Next(s, a).hashes
  {
  }

  /** A job succeeded because it had, or because a finished worker of its media reported it. */
  lemma SuccessSource(s: Sys, a: Action, id: JobId)
    requires Enabled(s, a) && id in Next(s, a).jobs && Next(s, a).jobs[id].status == Succeeded
    ensures id in s.jobs && s.jobs[id].mediaId == Next(s, a).jobs[id].mediaId
    ensures s.jobs[id].status == Succeeded
            || (a.CompleteSuccess? && PhaseOf(s, a.p).Finished? && PhaseOf(s, a.p).lease.jobId == id)
  {
  }

  lemma ProcessedIsPublished(s: Sys, a: Action, m: MediaId)
    requires SuccessIsPublished(s) && Enabled(s, a)
    requires m in Next(s, a).media && Next(s, a).media[m].status == Processed
    ensures m in Next(s, a).hashes
  {
  }

  lemma FinishedIsPublished(s: Sys, a: Action, p: Process)
    requires SuccessIsPublished(s) && Enabled(s, a)
    requires p in Next(s, a).workers && Next(s, a).workers[p].Finished?
    ensures Next(s, a).workers[p].lease.mediaId in Next(s, a).hashes
  {
    FinishedSource(s, a, p);
    HashesKept(s, a);
  }

  lemma SucceededIsPublished(s: Sys, a: Action, id: JobId)
    requires SuccessIsPublished(s) && LeasesDistinct(s.jobs, s.issued, s.workers) && Enabled(s, a)
    requires id in Next(s, a).jobs && Next(s, a).jobs[id].status == Succeeded
    ensures Next(s, a).jobs[id].mediaId in Next(s, a).hashes
  {
    SuccessSource(s, a, id);
    HashesKept(s, a);
  }

  lemma SuccessIsPublishedKept(s: Sys, a: Action)
    requires SuccessIsPublished(s) && LeasesDistinct(s.jobs, s.issued, s.workers) && Enabled(s, a)
    ensures SuccessIsPublished(Next(s, a))
  {
    var t := Next(s, a);
    forall m | m in t.media && t.media[m].status == Processed ensures m in t.hashes {
      ProcessedIsPublished(s, a, m);
    }
    forall p | p in t.workers && t.workers[p].Finished? ensures t.workers[p].lease.mediaId in t.hashes {
      FinishedIsPublished(s, a, p);
    }
    forall id | id in t.jobs && t.jobs[id].status == Succeeded ensures t.jobs[id].mediaId in t.hashes {
      SucceededIsPublished(s, a, id);
    }
  }

  // ---------------------------------------------------------------- every reachable state

  lemma InvKept(s: Sys, a: Action)
    requires Inv(s) && Enabled(s, a)
    ensures Inv(Next(s, a))
  {
    NextIsRowSteps(s, a);
    RowStepsKeepJobs(s.jobs, Next(s, a).jobs, s.issued);
    RowStepsKeepOneActive(s.jobs, Next(s, a).jobs, s.issued);
    TokensKept(s, a);
    AttemptsKept(s, a);
    LeasesKept(s, a);
    PublishedOnceKept(s, a);
    SuccessIsPublishedKept(s, a);
    forall p | p in Next(s, a).workers && Next(s, a).workers[p].Snapped?
      ensures Tracks(Next(s, a).jobs, Next(s, a).workers[p].id, Next(s, a).workers[p].seen)
    {
      SnapshotKept(s, a, p);
    }
  }

  /** Every state of every interleaving satisfies the invariant. */
  lemma {:induction false} RunsKeepInv(states: seq<Sys>, actions: seq<Action>, i: nat)
    requires Run(states, actions) && i < |states|
    ensures Inv(states[i])
  {
    if i > 0 {
      RunsKeepInv(states, actions, i - 1);
      assert StepAt(states, actions, i - 1);
      InvKept(states[i - 1], actions[i - 1]);
    }
  }

  /** This step commits a publishing transaction of the media. */
  predicate Publishes(s: Sys, a: Action, m: MediaId) {
    && Enabled(s, a) && a.Publish?
    && PhaseOf(s, a.p).lease.mediaId == m && PhaseOf(Next(s, a), a.p).Finished?
  }

  /** A publication commits only without a hash of its media, and leaves one. */
  lemma PublishingAddsHash(s: Sys, a: Action, m: MediaId)
    requires Publishes(s, a, m)
    ensures m !in s.hashes && m in Next(s, a).hashes
  {
  }

  lemma HashSource(s: Sys, a: Action, m: MediaId)
    requires Enabled(s, a) && m !in s.hashes && m in Next(s, a).hashes
    ensures Publishes(s, a, m)
  {
  }

  predicate PublishesAt(states: seq<Sys>, actions: seq<Action>, i: nat, m: MediaId)
    requires i < |actions| < |states|
  {
    Publishes(states[i], actions[i], m)
  }

  lemma PublishesAtHash(states: seq<Sys>, actions: seq<Action>, i: nat, m: MediaId)
    requires Run(states, actions) && i < |actions|
    ensures PublishesAt(states, actions, i, m) <==> m !in states[i].hashes && m in states[i + 1].hashes
  {
    assert StepAt(states, actions, i);
    if PublishesAt(states, actions, i, m) {
      PublishingAddsHash(states[i], actions[i], m);
    } else if m !in states[i].hashes && m in states[i + 1].hashes {
      HashSource(states[i], actions[i], m);
    }
  }

  lemma HashesKeptAt(states: seq<Sys>, actions: seq<Action>, i: nat)
    requires Run(states, actions) && i < |actions|
    ensures states[i].hashes <= states[i + 1].hashes
  {
    assert StepAt(states, actions, i);
    HashesKept(states[i], actions[i]);
  }

  lemma {:induction false} HashesGrow(states: seq<Sys>, actions: seq<Action>, i: nat, j: nat)
    requires Run(states, actions) && i <= j < |states|
    ensures states[i].hashes <= states[j].hashes
  {
    if i < j {
      HashesGrow(states, actions, i, j - 1);
      HashesKeptAt(states, actions, j - 1);
    }
  }

  /** In every interleaving at most one publishing transaction per media commits: two steps that
      commit one are the same step. */
  lemma PublishesAtMostOnce(states: seq<Sys>, actions: seq<Action>, i: nat, j: nat, m: MediaId)
    requires Run(states, actions) && i < |actions| && j < |actions|
    requires PublishesAt(states, actions, i, m) && PublishesAt(states, actions, j, m)
    ensures i == j
  {
    PublishesAtHash(states, actions, i, m);
    PublishesAtHash(states, actions, j, m);
    if i < j {
      HashesGrow(states, actions, i + 1, j);
    } else if j < i {
      HashesGrow(states, actions, j + 1, i);
    }
  }

  lemma {:induction false} HashesWerePublished(states: seq<Sys>, actions: seq<Action>, to: nat, m: MediaId) returns (k: nat)
    requires Run(states, actions) && to < |states| && m in states[to].hashes
    ensures k < to && PublishesAt(states, actions, k, m)
  {
    k := to - 1;
    if m in states[k].hashes {
      k := HashesWerePublished(states, actions, k, m);
    } else {
      PublishesAtHash(states, actions, k, m);
    }
  }

  /** A job that a run leaves succeeded had a publishing transaction of its media committed before. */
  lemma SucceededAfterPublishing(states: seq<Sys>, actions: seq<Action>, to: nat, id: JobId) returns (k: nat)
    requires Run(states, actions) && to < |states|
    requires id in states[to].jobs && states[to].jobs[id].status == Succeeded
    ensures k < to && PublishesAt(states, actions, k, states[to].jobs[id].mediaId)
  {
    RunsKeepInv(states, actions, to);
    k := HashesWerePublished(states, actions, to, states[to].jobs[id].mediaId);
  }

  // ---------------------------------------------------------------- leases

  /** Of two different worker processes at most one has a lease that its job still accepts. */
  lemma OneHolder(s: Sys, p: Process, q: Process)
    requires Inv(s) && p in s.workers && q in s.workers && Leased(s.workers[p]) && Leased(s.workers[q])
    requires s.workers[p].lease.jobId == s.workers[q].lease.jobId
    requires var lease := s.workers[p].lease; Accepts(s.jobs, lease.jobId, lease.worker, lease.token)
    requires var lease := s.workers[q].lease; Accepts(s.jobs, lease.jobId, lease.worker, lease.token)
    ensures p == q
  {
  }

  /** A token that was drawn and that the job does not carry. */
  predicate Stale(s: Sys, id: JobId, token: Token) {
    token < s.issued && (id in s.jobs ==> s.jobs[id].token != Some(token))
  }

  lemma StaleKept(s: Sys, a: Action, id: JobId, token: Token)
    requires Inv(s) && Enabled(s, a) && Stale(s, id, token)
    ensures Stale(Next(s, a), id, token)
  {
    NextIsRowStep(s, a, id);
    IssuedGrows(s, a);
  }

  /** Once stale, a token stays stale for ever, so no completion with it is ever accepted. */
  lemma {:induction false} StaleForEver(states: seq<Sys>, actions: seq<Action>, i: nat, j: nat, id: JobId,
                                        worker: WorkerId, token: Token)
    requires Run(states, actions) && i <= j < |states| && Stale(states[i], id, token)
    ensures Stale(states[j], id, token) && !Accepts(states[j].jobs, id, worker, token)
  {
    if i < j {
      StaleForEver(states, actions, i, j - 1, id, worker, token);
      RunsKeepInv(states, actions, j - 1);
      assert StepAt(states, actions, j - 1);
      StaleKept(states[j - 1], actions[j - 1], id, token);
    }
  }

  /** Any change of a job (a reap, a claim, a completion) makes every token drawn before it stale for that job. */
  lemma ChangeMakesTokensStale(s: Sys, a: Action, id: JobId, token: Token)
    requires Inv(s) && Enabled(s, a) && id in s.jobs && token < s.issued
    requires id !in Next(s, a).jobs || Next(s, a).jobs[id] != s.jobs[id]
    ensures Stale(Next(s, a), id, token)
  {
    NextIsRowStep(s, a, id);
    IssuedGrows(s, a);
  }

  /** A worker whose token is stale changes nothing but its own local state, whether it reports success or failure. */
  lemma StaleCompletionIsRejected(s: Sys, p: Process, now: int, backoff: int)
    requires Leased(PhaseOf(s, p))
    requires var lease := PhaseOf(s, p).lease; !Accepts(s.jobs, lease.jobId, lease.worker, lease.token)
    ensures PhaseOf(s, p).Finished? ==> Next(s, CompleteSuccess(p)) == InPhase(s, p, Idle)
    ensures PhaseOf(s, p).Erred? ==> Next(s, CompleteFailure(p, now, backoff)) == InPhase(s, p, Idle)
  {
  }

  /** The same database, whatever the workers hold. */
  predicate SameDatabase(s: Sys, t: Sys) {
    && t.jobs == s.jobs && t.attempts == s.attempts && t.media == s.media
    && t.derivations == s.derivations && t.hashes == s.hashes && t.processedAudits == s.processedAudits
  }

  /** The worker reports success or failure, in its last transaction. */
  predicate Reports(a: Action, p: Process) {
    (a.CompleteSuccess? || a.CompleteFailure?) && a.p == p
  }

  lemma ReportIsRejected(s: Sys, a: Action, p: Process)
    requires Enabled(s, a) && Reports(a, p)
    requires var lease := PhaseOf(s, p).lease; !Accepts(s.jobs, lease.jobId, lease.worker, lease.token)
    ensures SameDatabase(s, Next(s, a))
  {
    StaleCompletionIsRejected(s, p, if a.CompleteFailure? then a.now else 0, if a.CompleteFailure? then a.backoff else 0);
  }

  lemma ChangeAt(states: seq<Sys>, actions: seq<Action>, i: nat, id: JobId, token: Token)
    requires Run(states, actions) && i < |actions| && id in states[i].jobs && token < states[i].issued
    requires id !in states[i + 1].jobs || states[i + 1].jobs[id] != states[i].jobs[id]
    ensures Stale(states[i + 1], id, token)
  {
    RunsKeepInv(states, actions, i);
    assert StepAt(states, actions, i);
    NextIsRowStep(states[i], actions[i], id);
    ChangeMakesTokensStale(states[i], actions[i], id, token);
  }

  /** In every run, once a step has changed a job (a reap, a claim or a completion), a worker whose
      lease on it was drawn before that step leaves the database as it is, whenever and however it reports. */
  lemma LateWorkerChangesNothing(states: seq<Sys>, actions: seq<Action>, i: nat, j: nat, p: Process)
    requires Run(states, actions) && i < j < |actions|
    requires Leased(PhaseOf(states[j], p)) && Reports(actions[j], p)
    requires var lease := PhaseOf(states[j], p).lease;
             && lease.token < states[i].issued && lease.jobId in states[i].jobs
             && (lease.jobId !in states[i + 1].jobs || states[i + 1].jobs[lease.jobId] != states[i].jobs[lease.jobId])
    ensures SameDatabase(states[j], states[j + 1])
  {
    var lease := PhaseOf(states[j], p).lease;
    ChangeAt(states, actions, i, lease.jobId, lease.token);
    StaleForEver(states, actions, i + 1, j, lease.jobId, lease.worker, lease.token);
    assert StepAt(states, actions, j);
    ReportIsRejected(states[j], actions[j], p);
  }

  // ---------------------------------------------------------------- backing off

  /** This step ends a job's attempt in a failure that leaves attempts. */
  predicate FailsWithAttemptsLeft(s: Sys, a: Action, id: JobId) {
    && a.CompleteFailure? && PhaseOf(s, a.p).Erred? && PhaseOf(s, a.p).lease.jobId == id
    && id in s.jobs && s.jobs[id].attempts < s.jobs[id].maxAttempts
    && s.jobs[id].lockedBy == Some(PhaseOf(s, a.p).lease.worker) && s.jobs[id].token == Some(PhaseOf(s, a.p).lease.token)
  }

  lemma FailureRow(s: Sys, a: Action, id: JobId)
    requires FailsWithAttemptsLeft(s, a, id)
    ensures Enabled(s, a) && id in Next(s, a).jobs && Next(s, a).jobs[id] == FailedRow(s.jobs[id], a.now, a.backoff)
  {}

  /** In every run, after a failure that leaves attempts no worker can select the job before the backoff
      times its attempts has passed, as long as its row is as the failure left it. */
  lemma BackoffHolds(states: seq<Sys>, actions: seq<Action>, i: nat, j: nat, id: JobId)
    requires Run(states, actions) && i < j < |actions|
    requires FailsWithAttemptsLeft(states[i], actions[i], id)
    requires id in states[j].jobs && id in states[i + 1].jobs && states[j].jobs[id] == states[i + 1].jobs[id]
    requires actions[j].Snapshot? && actions[j].id == id
    ensures actions[j].now >= actions[i].now + actions[i].backoff * states[i].jobs[id].attempts
  {
    assert StepAt(states, actions, i) && StepAt(states, actions, j);
    FailureRow(states[i], actions[i], id);
    FailureBacksOff(states[i].jobs[id], actions[i].now, actions[i].backoff, actions[j].now);
  }

  /** In every run a worker selects only a queued job whose waiting time is over, and no older one waits. */
  lemma SelectsOldest(states: seq<Sys>, actions: seq<Action>, j: nat)
    requires Run(states, actions) && j < |actions| && actions[j].Snapshot?
    ensures var jobs, id, now := states[j].jobs, actions[j].id, actions[j].now;
            && id in jobs && jobs[id].status == Queued && (jobs[id].nextEligibleAt.Some? ==> jobs[id].nextEligibleAt.value <= now)
            && forall other | other in jobs && jobs[other].status == Queued
                              && (jobs[other].nextEligibleAt.Some? ==> jobs[other].nextEligibleAt.value <= now) ::
                 jobs[id].createdAt <= jobs[other].createdAt
  {
    assert StepAt(states, actions, j);
  }

  // ---------------------------------------------------------------- what the transactions leave

  /** In every run a media has at most one job that is queued, running or succeeded. */
  lemma OneLiveJob(states: seq<Sys>, actions: seq<Action>, i: nat, id: JobId, other: JobId)
    requires Run(states, actions) && i < |states| && id in states[i].jobs && other in states[i].jobs
    requires states[i].jobs[id].status in {Queued, Running, Succeeded}
    requires states[i].jobs[other].status in {Queued, Running, Succeeded}
    requires states[i].jobs[id].mediaId == states[i].jobs[other].mediaId
    ensures id == other
  {
    RunsKeepInv(states, actions, i);
    assert Active(states[i].jobs[id]) && Active(states[i].jobs[other]);
  }

  /** In every run a claiming update wins exactly while its row is queued at the version it read, and then
      holds the job: no attempt row ever stands in its way. */
  lemma ClaimWinsExactly(states: seq<Sys>, actions: seq<Action>, i: nat)
    requires Run(states, actions) && i < |actions| && actions[i].UpdateClaim?
    ensures var s, t, a := states[i], states[i + 1], actions[i];
            && PhaseOf(s, a.p).Snapped?
            && var id, seen := PhaseOf(s, a.p).id, PhaseOf(s, a.p).seen;
            if id in s.jobs && s.jobs[id].status == Queued && s.jobs[id].version == seen.version then
              && s.jobs[id] == seen && id in t.jobs && t.issued == s.issued + 1
              && t.jobs[id] == ClaimedRow(seen, seen, a.worker, s.issued, a.expiresAt)
              && PhaseOf(t, a.p) == Claimed(Lease(id, seen.mediaId, a.worker, s.issued, seen.attempts + 1))
              && (id, seen.attempts + 1) in t.attempts
              && t.attempts[(id, seen.attempts + 1)] == Attempt(a.worker, AttemptRunning)
            else t.jobs == s.jobs && t.attempts == s.attempts && PhaseOf(t, a.p) == Idle
  {
    RunsKeepInv(states, actions, i);
    assert StepAt(states, actions, i);
    ClaimWins(states[i], actions[i]);
  }

  lemma ClaimWins(s: Sys, a: Action)
    requires Inv(s) && Enabled(s, a) && a.UpdateClaim?
    ensures var id, seen := PhaseOf(s, a.p).id, PhaseOf(s, a.p).seen;
            var t := Next(s, a);
            if id in s.jobs && s.jobs[id].status == Queued && s.jobs[id].version == seen.version then
              && s.jobs[id] == seen && id in t.jobs && t.issued == s.issued + 1
              && t.jobs[id] == ClaimedRow(seen, seen, a.worker, s.issued, a.expiresAt)
              && PhaseOf(t, a.p) == Claimed(Lease(id, seen.mediaId, a.worker, s.issued, seen.attempts + 1))
              && (id, seen.attempts + 1) in t.attempts
              && t.attempts[(id, seen.attempts + 1)] == Attempt(a.worker, AttemptRunning)
            else t.jobs == s.jobs && t.attempts == s.attempts && PhaseOf(t, a.p) == Idle
  {
    var id, seen := PhaseOf(s, a.p).id, PhaseOf(s, a.p).seen;
    assert Tracks(s.jobs, id, seen);
    assert (id, seen.attempts + 1) in s.attempts <==> id in s.jobs && 1 <= seen.attempts + 1 <= s.jobs[id].attempts;
  }

  /** A worker marks, publishes and reports in that order and may raise at any point of its work, a reap and a crash may come at any time, a new media is any
      that does not exist, and a job may be queued with any budget of at least one attempt. */
  lemma StepsMayCome(s: Sys, p: Process, m: MediaId, id: JobId, maxAttempts: nat, now: int, backoff: int)
    ensures Enabled(s, Raise(p)) <==> PhaseOf(s, p).Claimed? || PhaseOf(s, p).Marked?
    ensures Enabled(s, Mark(p)) <==> PhaseOf(s, p).Claimed?
    ensures Enabled(s, Publish(p)) <==> PhaseOf(s, p).Marked?
    ensures Enabled(s, CompleteSuccess(p)) <==> PhaseOf(s, p).Finished?
    ensures Enabled(s, CompleteFailure(p, now, backoff)) <==> PhaseOf(s, p).Erred?
    ensures Enabled(s, Reap(now)) && Enabled(s, Crash(p))
    ensures Enabled(s, AddMedia(m)) <==> m !in s.media
    ensures m !in s.media ==> m in Next(s, AddMedia(m)).media && Next(s, AddMedia(m)).media[m] == Media(Validated, 1)
    ensures m in s.media ==>
              && Enabled(s, ArchiveMedia(m)) && m in Next(s, ArchiveMedia(m)).media
              && Next(s, ArchiveMedia(m)).media[m] == Media(Archived, s.media[m].version + 1)
    ensures Enabled(s, Enqueue(id, m, maxAttempts, now)) <==> id !in s.jobs && maxAttempts >= 1
  {}

  /** A committed publication leaves the media processed, one version on, with its hash, its audit event and
      all three derivations. */
  lemma PublishingLeaves(s: Sys, a: Action, m: MediaId)
    requires Publishes(s, a, m) && PublishedOnce(s)
    ensures var t := Next(s, a);
            && m in s.media && m in t.media && t.media[m] == Media(Processed, s.media[m].version + 1)
            && t.hashes == s.hashes + [m] && t.processedAudits == s.processedAudits + [m]
            && Derivation(m, Normalized) in t.derivations && Derivation(m, Thumbnail) in t.derivations
            && Derivation(m, Preview) in t.derivations && t.jobs == s.jobs
  {
    PublishedOnceKept(s, a);
  }

  /** A worker that has marked its media commits the publication exactly when the media is there and has no
      hash yet; otherwise it raises with nothing changed. */
  lemma PublishesExactly(s: Sys, p: Process, m: MediaId)
    requires PhaseOf(s, p).Marked? && PhaseOf(s, p).lease.mediaId == m
    ensures Publishes(s, Publish(p), m) <==> m in s.media && m !in s.hashes
    ensures !(m in s.media && m !in s.hashes) ==>
              SameDatabase(s, Next(s, Publish(p))) && PhaseOf(Next(s, Publish(p)), p).Erred?
  {}

  /** Marking: a processed media is left alone and ends the work, any other one is marked as processing. */
  lemma MarkingLeaves(s: Sys, p: Process)
    requires PhaseOf(s, p).Claimed?
    ensures var m, t := PhaseOf(s, p).lease.mediaId, Next(s, Mark(p));
            && t.jobs == s.jobs && t.hashes == s.hashes
            && (m in s.media && s.media[m].status != Processed ==>
                  PhaseOf(t, p).Marked? && m in t.media && t.media[m] == Media(Processing, s.media[m].version + 1))
            && (m in s.media && s.media[m].status == Processed ==> PhaseOf(t, p).Finished? && t.media == s.media)
            && (m !in s.media ==> PhaseOf(t, p).Erred? && t.media == s.media)
  {}

  /** An accepted report ends the attempt row with the job: succeeded with it, or failed with it, and then a
      media still marked as processing is marked as failed. */
  lemma ReportLeaves(s: Sys, a: Action, p: Process)
    requires Enabled(s, a) && Reports(a, p)
    requires var lease := PhaseOf(s, p).lease;
             Accepts(s.jobs, lease.jobId, lease.worker, lease.token) && (lease.jobId, lease.number) in s.attempts
    ensures var lease, t := PhaseOf(s, p).lease, Next(s, a);
            var key, m := (lease.jobId, lease.number), lease.mediaId;
            && lease.jobId in t.jobs && key in t.attempts
            && (a.CompleteSuccess? ==>
                  t.jobs[lease.jobId].status == Succeeded && t.attempts[key].status == AttemptSucceeded && t.media == s.media)
            && (a.CompleteFailure? ==>
                  && t.jobs[lease.jobId].status in {Queued, Failed}
                  && t.attempts[key].status == AttemptFailed
                  && t.media == (if m in s.media && s.media[m].status == Processing
                                 then s.media[m := Media(ProcessingFailed, s.media[m].version + 1)] else s.media))
  {}

  // ---------------------------------------------------------------- attempts and budget

  /** The steps of a run, up to a state, that change this job after it exists. */
  function Changes(states: seq<Sys>, id: JobId, to: nat): nat
    requires to < |states|
  {
    if to == 0 then 0
    else
      var (before, after) := (states[to - 1].jobs, states[to].jobs);
      Changes(states, id, to - 1) + if id in before && id in after && before[id] != after[id] then 1 else 0
  }

  /** The claims of this job that a run commits up to a state. */
  function Claims(states: seq<Sys>, id: JobId, to: nat): nat
    requires to < |states|
  {
    if to == 0 then 0
    else
      var (before, after) := (states[to - 1].jobs, states[to].jobs);
      Claims(states, id, to - 1)
        + if id in before && id in after && before[id].status == Queued && after[id].status == Running then 1 else 0
  }

  /** What is left of a job: two steps per remaining attempt, one more while it runs. */
  function Budget(job: Job): int {
    2 * (job.maxAttempts - job.attempts) + if job.status == Running then 1 else 0
  }

  /** Every change of a job uses up budget and counts an attempt exactly when it is a claim. */
  lemma ChangeSpendsBudget(job: Job, after: Job, issued: Token)
    requires WellFormed(job) && Advances(job, after, issued)
    ensures after != job && after.maxAttempts == job.maxAttempts
    ensures 0 <= Budget(after) < Budget(job)
    ensures after.attempts == job.attempts + if job.status == Queued && after.status == Running then 1 else 0
  {
  }

  /** In every run a job's attempts are exactly its committed claims, and its changes never exceed the budget spent. */
  lemma {:induction false} AttemptsAreClaims(states: seq<Sys>, actions: seq<Action>, id: JobId, to: nat)
    requires Run(states, actions) && to < |states|
    ensures var jobs := states[to].jobs;
            if id in jobs then
              jobs[id].attempts == Claims(states, id, to)
              && Changes(states, id, to) + Budget(jobs[id]) <= 2 * jobs[id].maxAttempts
            else Claims(states, id, to) == 0 && Changes(states, id, to) == 0
  {
    if to > 0 {
      var s, a := states[to - 1], actions[to - 1];
      AttemptsAreClaims(states, actions, id, to - 1);
      RunsKeepInv(states, actions, to - 1);
      assert StepAt(states, actions, to - 1);
      NextIsRowStep(s, a, id);
      if id in s.jobs && states[to].jobs[id] != s.jobs[id] {
        ChangeSpendsBudget(s.jobs[id], states[to].jobs[id], s.issued);
      }
    }
  }

  /** A job changes at most twice per attempt it is allowed. */
  lemma JobsTerminate(states: seq<Sys>, actions: seq<Action>, id: JobId, to: nat)
    requires Run(states, actions) && to < |states| && id in states[to].jobs
    ensures Changes(states, id, to) <= 2 * states[to].jobs[id].maxAttempts
  {
    AttemptsAreClaims(states, actions, id, to);
    RunsKeepInv(states, actions, to);
  }

  // ---------------------------------------------------------------- the publishing transaction, in place

  /** The media tables the worker's two `_process` transactions write. */
  class MediaTables {
    var media: map<MediaId, Media>
    var derivations: seq<Derivation>
    var hashes: seq<MediaId>
    var processedAudits: seq<MediaId>

    constructor ()
      ensures media == map[] && derivations == [] && hashes == [] && processedAudits == []
    {
      media, derivations, hashes, processedAudits := map[], [], [], [];
    }

    /** Publish, or raise with nothing changed when the media is gone or already has its hash. */
    method PublishMedia(m: MediaId) returns (ok: bool)
      modifies this
      ensures ok <==> m in old(media) && m !in old(hashes)
      ensures ok ==>
                derivations == AddDerivations(old(derivations), m, OPERATIONS)
                && hashes == old(hashes) + [m] && processedAudits == old(processedAudits) + [m]
                && media == old(media)[m := Media(Processed, old(media)[m].version + 1)]
      ensures !ok ==>
                derivations == old(derivations) && hashes == old(hashes)
                && processedAudits == old(processedAudits) && media == old(media)
    {
      var added := derivations;
      for i := 0 to |OPERATIONS|
        invariant added == AddDerivations(derivations, m, OPERATIONS[..i])
        invariant unchanged(this)
      {
        assert OPERATIONS[..i + 1][..i] == OPERATIONS[..i];
        var d := Derivation(m, OPERATIONS[i]);
        if d !in added {
          added := added + [d];
        }
      }
      assert OPERATIONS[..|OPERATIONS|] == OPERATIONS;
      if m !in media || m in hashes {
        return false;
      }
      derivations, hashes, processedAudits := added, hashes + [m], processedAudits + [m];
      media := media[m := Media(Processed, media[m].version + 1)];
      return true;
    }
  }
}
