/** The durable queue of image-processing jobs: claims by versioned compare-and-swap, leases
    checked by token, retries with an attempt budget, and reaping of expired leases. */
module MediaJobs {
  import opened Wrappers

  type JobId = nat
  type MediaId = nat
  type WorkerId = string

  /** A lease token.  Tokens are drawn fresh and stored hashed; a hash that never collides is the token itself. */
  type Token = nat

  datatype Status = Queued | Running | Succeeded | Failed

  datatype Job = Job(
    mediaId: MediaId,
    status: Status,
    attempts: nat,
    maxAttempts: nat,
    lockedBy: Option<WorkerId>,
    token: Option<Token>,
    leaseExpiresAt: Option<int>,
    nextEligibleAt: Option<int>,
    version: nat,
    createdAt: int)

  datatype LeaseError = RecordNotFound | InvalidLease

  // ---------------------------------------------------------------- one row

  function NewJob(mediaId: MediaId, maxAttempts: nat, now: int): Job {
    Job(mediaId, Queued, 0, maxAttempts, None, None, None, None, 1, now)
  }

  predicate Eligible(job: Job, now: int) {
    job.status == Queued && (job.nextEligibleAt.None? || job.nextEligibleAt.value <= now)
  }

  /** The row the conditional update writes: version and attempts come from the claimant's snapshot. */
  function ClaimedRow(job: Job, seen: Job, worker: WorkerId, token: Token, expiresAt: int): Job {
    job.(status := Running, version := seen.version + 1, attempts := seen.attempts + 1,
         lockedBy := Some(worker), token := Some(token), leaseExpiresAt := Some(expiresAt))
  }

  /** `_validate_lease`: neither the status nor the expiry is looked at. */
  predicate HoldsLease(job: Job, worker: WorkerId, token: Token) {
    job.lockedBy == Some(worker) && job.token == Some(token)
  }

  function Unlocked(job: Job): Job {
    job.(lockedBy := None, token := None, leaseExpiresAt := None)
  }

  function SucceededRow(job: Job): Job {
    Unlocked(job).(status := Succeeded, version := job.version + 1)
  }

  function FailedRow(job: Job, now: int, backoff: int): Job {
    if job.attempts >= job.maxAttempts then Unlocked(job).(status := Failed, version := job.version + 1)
    else Unlocked(job).(status := Queued, nextEligibleAt := Some(now + backoff * job.attempts), version := job.version + 1)
  }

  predicate Expired(job: Job, now: int) {
    job.status == Running && job.leaseExpiresAt.Some? && job.leaseExpiresAt.value <= now
  }

  /** Reaping requeues or fails an expired job and leaves its version alone. */
  function ReapedRow(job: Job, now: int): Job {
    if !Expired(job, now) then job
    else if job.attempts >= job.maxAttempts then Unlocked(job).(status := Failed)
    else Unlocked(job).(status := Queued, nextEligibleAt := Some(now))
  }

  // ---------------------------------------------------------------- the table

  type Jobs = map<JobId, Job>

  predicate Active(job: Job) {
    job.status != Failed
  }

  predicate HasActive(jobs: Jobs, mediaId: MediaId) {
    exists id :: id in jobs && jobs[id].mediaId == mediaId && Active(jobs[id])
  }

  function Enqueued(jobs: Jobs, id: JobId, mediaId: MediaId, maxAttempts: nat, now: int): Jobs {
    if HasActive(jobs, mediaId) then jobs else jobs[id := NewJob(mediaId, maxAttempts, now)]
  }

  /** An eligible job that no other eligible job is older than. */
  predicate IsCandidate(jobs: Jobs, id: JobId, now: int) {
    id in jobs && Eligible(jobs[id], now)
    && forall other :: other in jobs && Eligible(jobs[other], now) ==> jobs[id].createdAt <= jobs[other].createdAt
  }

  /** The condition of the claiming update. */
  predicate Matches(jobs: Jobs, id: JobId, seen: Job) {
    id in jobs && jobs[id].version == seen.version && jobs[id].status == Queued
  }

  predicate Accepts(jobs: Jobs, id: JobId, worker: WorkerId, token: Token) {
    id in jobs && HoldsLease(jobs[id], worker, token)
  }

  function Reaped(jobs: Jobs, now: int): Jobs {
    map id | id in jobs :: ReapedRow(jobs[id], now)
  }

  function ExpiredJobs(jobs: Jobs, now: int): set<JobId> {
    set id | id in jobs && Expired(jobs[id], now)
  }

  // ---------------------------------------------------------------- when a row can be claimed

  /** A job that failed with attempts left can be claimed exactly from the backoff times its attempts after
      the failure on; one without attempts left never again. */
  lemma FailureBacksOff(job: Job, now: int, backoff: int, t: int)
    ensures Eligible(FailedRow(job, now, backoff), t) <==> job.attempts < job.maxAttempts && t >= now + backoff * job.attempts
    ensures FailedRow(job, now, backoff).status == if job.attempts < job.maxAttempts then Queued else Failed
  {}

  /** A reaped job with attempts left can be claimed exactly from the reap on. */
  lemma ReapedEligible(job: Job, now: int, t: int)
    requires job.status == Running && job.leaseExpiresAt.Some? && job.leaseExpiresAt.value <= now
    ensures Eligible(ReapedRow(job, now), t) <==> job.attempts < job.maxAttempts && t >= now
    ensures ReapedRow(job, now).status == if job.attempts < job.maxAttempts then Queued else Failed
    ensures ReapedRow(job, now).version == job.version
  {}

  /** A reap touches exactly the running jobs whose lease has run out. */
  lemma ReapedExactly(job: Job, now: int)
    ensures ReapedRow(job, now) != job <==>
            job.status == Running && job.leaseExpiresAt.Some? && job.leaseExpiresAt.value <= now
  {}

  /** A new job can be claimed at once; a claimed one is reaped exactly from the end of its lease on. */
  lemma ClaimedUntilExpiry(job: Job, seen: Job, worker: WorkerId, token: Token, expiresAt: int, now: int, t: int)
    ensures var added := NewJob(job.mediaId, job.maxAttempts, now);
            && Eligible(added, t) && added.attempts == 0 && added.version == 1 && added.createdAt == now
            && added.lockedBy.None? && added.token.None? && added.leaseExpiresAt.None?
    ensures var claimed := ClaimedRow(job, seen, worker, token, expiresAt);
            && !Eligible(claimed, t) && (Expired(claimed, t) <==> t >= expiresAt)
            && claimed.lockedBy == Some(worker) && claimed.token == Some(token)
            && claimed.attempts == seen.attempts + 1 && claimed.version == seen.version + 1
  {}

  /** What a claim may select, and which rows its update still takes. */
  lemma ClaimableExactly(jobs: Jobs, id: JobId, seen: Job, now: int)
    requires id in jobs
    ensures IsCandidate(jobs, id, now) <==>
            && jobs[id].status == Queued && (jobs[id].nextEligibleAt.Some? ==> jobs[id].nextEligibleAt.value <= now)
            && forall other | other in jobs && jobs[other].createdAt < jobs[id].createdAt ::
                 jobs[other].status != Queued || (jobs[other].nextEligibleAt.Some? && jobs[other].nextEligibleAt.value > now)
    ensures Matches(jobs, id, seen) <==> jobs[id].version == seen.version && jobs[id].status == Queued
  {}

  /** A completion is accepted exactly from the worker and with the token on the row. */
  lemma AcceptedExactly(jobs: Jobs, id: JobId, worker: WorkerId, token: Token)
    ensures Accepts(jobs, id, worker, token) <==>
            id in jobs && jobs[id].lockedBy == Some(worker) && jobs[id].token == Some(token)
  {}

  /** A completion leaves no lease behind, counts one version, and keeps the attempts. */
  lemma CompletionUnlocks(job: Job, now: int, backoff: int)
    ensures forall after | after in {SucceededRow(job), FailedRow(job, now, backoff)} ::
              && after.lockedBy.None? && after.token.None? && after.leaseExpiresAt.None?
              && after.version == job.version + 1 && after.attempts == job.attempts && after.mediaId == job.mediaId
    ensures SucceededRow(job).status == Succeeded
  {}

  // ---------------------------------------------------------------- the repository

  class MediaProcessingJobRepository {
    var jobs: Jobs
    /** The tokens drawn so far are the numbers below `issued`. */
    var issued: Token

    constructor ()
      ensures jobs == map[] && issued == 0
    {
      jobs, issued := map[], 0;
    }

    method Enqueue(newId: JobId, mediaId: MediaId, maxAttempts: nat, now: int) returns (id: JobId)
      requires newId !in jobs
      modifies this`jobs
      ensures jobs == Enqueued(old(jobs), newId, mediaId, maxAttempts, now)
      ensures id in jobs && jobs[id].mediaId == mediaId && Active(jobs[id])
    {
      if existing :| existing in jobs && jobs[existing].mediaId == mediaId && Active(jobs[existing]) {
        return existing;
      }
      jobs := jobs[newId := NewJob(mediaId, maxAttempts, now)];
      return newId;
    }

    /** The select of a claim: the oldest eligible job. */
    method FindCandidate(now: int) returns (found: Option<JobId>)
      ensures found.Some? ==> IsCandidate(jobs, found.value, now)
      ensures found.None? ==> forall id :: id in jobs ==> !Eligible(jobs[id], now)
    {
      found := None;
      var rest := jobs.Keys;
      while rest != {}
        invariant rest <= jobs.Keys
        invariant found.Some? ==> found.value in jobs && Eligible(jobs[found.value], now)
        invariant forall id :: id in jobs && id !in rest && Eligible(jobs[id], now) ==>
                    found.Some? && jobs[found.value].createdAt <= jobs[id].createdAt
        decreases rest
      {
        var id :| id in rest;
        if Eligible(jobs[id], now) && (found.None? || jobs[id].createdAt < jobs[found.value].createdAt) {
          found := Some(id);
        }
        rest := rest - {id};
      }
    }

    /** The conditional update of a claim, against a snapshot that may be stale. */
    method UpdateClaimed(id: JobId, seen: Job, worker: WorkerId, expiresAt: int) returns (token: Option<Token>)
      modifies this
      ensures Matches(old(jobs), id, seen) ==>
                token == Some(old(issued)) && issued == old(issued) + 1
                && jobs == old(jobs)[id := ClaimedRow(old(jobs)[id], seen, worker, old(issued), expiresAt)]
      ensures !Matches(old(jobs), id, seen) ==> token.None? && jobs == old(jobs) && issued == old(issued)
    {
      if !Matches(jobs, id, seen) {
        return None;
      }
      token := Some(issued);
      jobs := jobs[id := ClaimedRow(jobs[id], seen, worker, issued, expiresAt)];
      issued := issued + 1;
    }

    /** A claim that nothing interrupts always wins the candidate it read. */
    method Claim(worker: WorkerId, leaseSeconds: int, now: int) returns (claimed: Option<(JobId, Token)>)
      modifies this
      ensures claimed.None? ==> jobs == old(jobs) && forall id :: id in jobs ==> !Eligible(jobs[id], now)
      ensures claimed.Some? ==>
                var (id, token) := claimed.value;
                IsCandidate(old(jobs), id, now) && token == old(issued)
                && jobs == old(jobs)[id := ClaimedRow(old(jobs)[id], old(jobs)[id], worker, token, now + leaseSeconds)]
    {
      var found := FindCandidate(now);
      if found.None? {
        return None;
      }
      var token := UpdateClaimed(found.value, jobs[found.value], worker, now + leaseSeconds);
      return Some((found.value, token.value));
    }

    method CompleteSuccess(id: JobId, worker: WorkerId, token: Token) returns (r: Result<Job, LeaseError>)
      modifies this`jobs
      ensures Accepts(old(jobs), id, worker, token) ==>
                r == Ok(SucceededRow(old(jobs)[id])) && jobs == old(jobs)[id := r.value]
      ensures !Accepts(old(jobs), id, worker, token) ==>
                r == Err(if id in old(jobs) then InvalidLease else RecordNotFound) && jobs == old(jobs)
    {
      if id !in jobs {
        return Err(RecordNotFound);
      }
      if !HoldsLease(jobs[id], worker, token) {
        return Err(InvalidLease);
      }
      jobs := jobs[id := SucceededRow(jobs[id])];
      return Ok(jobs[id]);
    }

    method CompleteFailure(id: JobId, worker: WorkerId, token: Token, now: int, backoff: int)
      returns (r: Result<Job, LeaseError>)
      modifies this`jobs
      ensures Accepts(old(jobs), id, worker, token) ==>
                r == Ok(FailedRow(old(jobs)[id], now, backoff)) && jobs == old(jobs)[id := r.value]
      ensures !Accepts(old(jobs), id, worker, token) ==>
                r == Err(if id in old(jobs) then InvalidLease else RecordNotFound) && jobs == old(jobs)
    {
      if id !in jobs {
        return Err(RecordNotFound);
      }
      var job := jobs[id];
      if !HoldsLease(job, worker, token) {
        return Err(InvalidLease);
      }
      job := Unlocked(job);
      if job.attempts >= job.maxAttempts {
        job := job.(status := Failed);
      } else {
        job := job.(status := Queued, nextEligibleAt := Some(now + backoff * job.attempts));
      }
      jobs := jobs[id := job.(version := job.version + 1)];
      return Ok(jobs[id]);
    }

    /** The loop over the expired rows, each requeued or failed in place. */
    method ReapExpired(now: int) returns (count: nat)
      modifies this`jobs
      ensures jobs == Reaped(old(jobs), now)
      ensures count == |ExpiredJobs(old(jobs), now)|
    {
      var rest := ExpiredJobs(jobs, now);
      count := |rest|;
      while rest != {}
        invariant jobs.Keys == old(jobs).Keys && rest <= ExpiredJobs(old(jobs), now)
        invariant forall id :: id in jobs ==>
                    jobs[id] == if id in rest then old(jobs)[id] else ReapedRow(old(jobs)[id], now)
        decreases rest
      {
        var id :| id in rest;
        var job := Unlocked(jobs[id]);
        if job.attempts >= job.maxAttempts {
          job := job.(status := Failed);
        } else {
          job := job.(status := Queued, nextEligibleAt := Some(now));
        }
        jobs := jobs[id := job];
        rest := rest - {id};
      }
      assert jobs == Reaped(old(jobs), now);
    }
  }
}
