/** Circuit breakers: one row per scope, changed by gateway calls, probes and resets.
    Instants and the cooldown are in seconds. */
module CircuitBreaker {
  import opened Wrappers

  datatype Key =
    | Global
    | Adapter(marketplace: string)
    | Account(account: string)
    | Operation(account: string, operation: string)

  datatype State = Closed | Open | HalfOpen

  datatype Breaker = Breaker(
    state: State,
    failureCount: nat,
    threshold: nat,
    openedAt: Option<int>,
    nextProbeAt: Option<int>,
    resetAt: Option<int>,
    version: nat)

  function Untouched(threshold: nat): Breaker {
    Breaker(Closed, 0, threshold, None, None, None, 1)
  }

  /** A scope without a row behaves as a closed breaker. */
  function Get(breakers: map<Key, Breaker>, key: Key, threshold: nat): Breaker {
    if key in breakers then breakers[key] else Untouched(threshold)
  }

  predicate ProbeIsDue(b: Breaker, now: int) {
    b.nextProbeAt.Some? && b.nextProbeAt.value <= now
  }

  /** The breaker after asking whether it is open, which half-opens it when its probe is due. */
  function Observed(b: Breaker, now: int): Breaker {
    if b.state.Open? && ProbeIsDue(b, now) then b.(state := HalfOpen) else b
  }

  function Asked(breakers: map<Key, Breaker>, key: Key, now: int): map<Key, Breaker> {
    if key in breakers then breakers[key := Observed(breakers[key], now)] else breakers
  }

  predicate IsOpen(breakers: map<Key, Breaker>, key: Key) {
    key in breakers && breakers[key].state.Open?
  }

  function Failed(b: Breaker, now: int, cooldown: int): Breaker {
    var counted := b.(failureCount := b.failureCount + 1, version := b.version + 1);
    if counted.failureCount >= b.threshold && !b.state.Open?
    then counted.(state := Open, openedAt := Some(now), nextProbeAt := Some(now + cooldown))
    else counted
  }

  function Succeeded(b: Breaker, now: int): Breaker {
    if b.state.HalfOpen? then WasReset(b, now) else b
  }

  function WasReset(b: Breaker, now: int): Breaker {
    b.(state := Closed, failureCount := 0, resetAt := Some(now), version := b.version + 1)
  }

  function ProbeStarted(b: Breaker, now: int): Breaker {
    if !b.state.Closed? && (b.nextProbeAt.None? || ProbeIsDue(b, now)) then b.(state := HalfOpen) else b
  }

  function Outcome(b: Breaker, ok: bool, now: int, cooldown: int): Breaker {
    if ok then Succeeded(b, now) else Failed(b, now, cooldown)
  }

  predicate OfAccount(key: Key, account: string) {
    match key
    case Account(a) => a == account
    case Operation(a, _) => a == account
    case _ => false
  }

  predicate IsCandidate(key: Key, b: Breaker, account: string, now: int) {
    !b.state.Closed? && OfAccount(key, account) && (b.nextProbeAt.None? || ProbeIsDue(b, now))
  }

  function AllStarted(breakers: map<Key, Breaker>, account: string, now: int): map<Key, Breaker> {
    map k | k in breakers :: if OfAccount(k, account) then ProbeStarted(breakers[k], now) else breakers[k]
  }

  function AllFinished(breakers: map<Key, Breaker>, keys: set<Key>, ok: bool, cooldown: int, now: int): map<Key, Breaker> {
    map k | k in breakers :: if k in keys then Outcome(breakers[k], ok, now, cooldown) else breakers[k]
  }

  /** The rows of the breakers; reset answers whether the row exists. */
  class CircuitBreakerRepository {
    var breakers: map<Key, Breaker>

    method GetOrCreate(key: Key, threshold: nat) returns (b: Breaker)
      modifies this
      ensures b == Get(old(breakers), key, threshold)
      ensures breakers == old(breakers)[key := b]
    {
      if key !in breakers {
        breakers := breakers[key := Untouched(threshold)];
      }
      b := breakers[key];
    }

    method IsOpen(key: Key, now: int) returns (open: bool)
      modifies this
      ensures breakers == Asked(old(breakers), key, now)
      ensures open <==> key in breakers && breakers[key].state.Open?
    {
      if key !in breakers || breakers[key].state.Closed? {
        return false;
      }
      var b := breakers[key];
      if b.state.Open? {
        if b.nextProbeAt.Some? && b.nextProbeAt.value <= now {
          breakers := breakers[key := b.(state := HalfOpen)];
          return false;
        }
        return true;
      }
      return false;
    }

    method RecordFailure(key: Key, threshold: nat, cooldown: int, now: int) returns (b: Breaker)
      modifies this
      ensures b == Failed(Get(old(breakers), key, threshold), now, cooldown)
      ensures breakers == old(breakers)[key := b]
    {
      b := GetOrCreate(key, threshold);
      b := b.(failureCount := b.failureCount + 1);
      if b.failureCount >= b.threshold && !b.state.Open? {
        b := b.(state := Open, openedAt := Some(now), nextProbeAt := Some(now + cooldown));
      }
      b := b.(version := b.version + 1);
      breakers := breakers[key := b];
    }

    method RecordSuccess(key: Key, now: int)
      modifies this
      ensures breakers == if key in old(breakers)
                          then old(breakers)[key := Succeeded(old(breakers)[key], now)]
                          else old(breakers)
    {
      if key in breakers && breakers[key].state.HalfOpen? {
        var b := breakers[key];
        b := b.(state := Closed, failureCount := 0, resetAt := Some(now), version := b.version + 1);
        breakers := breakers[key := b];
      }
    }

    method Reset(key: Key, now: int) returns (found: bool)
      modifies this
      ensures found <==> key in old(breakers)
      ensures breakers == if found then old(breakers)[key := WasReset(old(breakers)[key], now)] else old(breakers)
    {
      found := key in breakers;
      if found {
        var b := breakers[key];
        b := b.(state := Closed, failureCount := 0, resetAt := Some(now), version := b.version + 1);
        breakers := breakers[key := b];
      }
    }

    /** The first half of a probe: half-open the account's breakers that are due. */
    method StartProbe(account: string, now: int) returns (candidates: set<Key>)
      modifies this
      ensures breakers == AllStarted(old(breakers), account, now)
      ensures candidates == set k | k in old(breakers) && IsCandidate(k, old(breakers)[k], account, now)
    {
      candidates := set k | k in breakers && IsCandidate(k, breakers[k], account, now);
      var todo := candidates;
      while todo != {}
        invariant todo <= candidates && breakers.Keys == old(breakers).Keys
        invariant forall k | k in breakers :: breakers[k] ==
                    if k in candidates - todo then old(breakers)[k].(state := HalfOpen) else old(breakers)[k]
      {
        var k :| k in todo;
        breakers := breakers[k := breakers[k].(state := HalfOpen)];
        todo := todo - {k};
      }
    }

    /** The second half: record the health check's answer on the breakers that still exist. */
    method FinishProbe(candidates: set<Key>, ok: bool, cooldown: int, now: int)
      modifies this
      ensures breakers == AllFinished(old(breakers), candidates, ok, cooldown, now)
    {
      var todo := candidates;
      while todo != {}
        invariant todo <= candidates && breakers.Keys == old(breakers).Keys
        invariant forall k | k in breakers :: breakers[k] ==
                    if k in candidates - todo then Outcome(old(breakers)[k], ok, now, cooldown) else old(breakers)[k]
      {
        var k :| k in todo;
        todo := todo - {k};
        if k in breakers {
          if ok {
            RecordSuccess(k, now);
          } else {
            var _ := RecordFailure(k, breakers[k].threshold, cooldown, now);
          }
        }
      }
    }
  }

  // ---------------------------------------------------------------- one breaker over time

  /** What can happen to one breaker. A call asks whether the breaker is open and records its
      outcome in one step; a probe ends some time after it starts. */
  datatype Step =
    | Observe(now: int)
    | Call(now: int, ok: bool)
    | StartProbe(now: int)
    | FinishProbe(now: int, ok: bool)
    | Reset(now: int)

  function Next(b: Breaker, step: Step, cooldown: int): Breaker {
    match step
    case Observe(now) => Observed(b, now)
    case Call(now, ok) =>
      var seen := Observed(b, now);
      if seen.state.Open? then seen else Outcome(seen, ok, now, cooldown)
    case StartProbe(now) => ProbeStarted(b, now)
    case FinishProbe(now, ok) => Outcome(b, ok, now, cooldown)
    case Reset(now) => WasReset(b, now)
  }

  function Run(b: Breaker, steps: seq<Step>, cooldown: int): Breaker {
    if steps == [] then b else Next(Run(b, steps[..|steps| - 1], cooldown), steps[|steps| - 1], cooldown)
  }

  predicate Ordered(steps: seq<Step>) {
    forall i, j | 0 <= i <= j < |steps| :: steps[i].now <= steps[j].now
  }

  /** A failure recorded while the breaker is not open; only a probe that ends after the breaker
      re-opened can record one while it is. */
  predicate Counted(b: Breaker, step: Step) {
    match step
    case Call(now, ok) => !ok && !Observed(b, now).state.Open?
    case FinishProbe(_, ok) => !ok && !b.state.Open?
    case _ => false
  }

  predicate Closes(b: Breaker, step: Step, cooldown: int) {
    step.Reset? || (!b.state.Closed? && Next(b, step, cooldown).state.Closed?)
  }

  /** Closed exactly under the threshold, and not closed with the probe one cooldown after the opening. */
  predicate Inv(b: Breaker, cooldown: int) {
    && b.threshold >= 1
    && (b.state.Closed? <==> b.failureCount < b.threshold)
    && (!b.state.Closed? ==> b.openedAt.Some? && b.nextProbeAt == Some(b.openedAt.value + cooldown))
  }

  /** No later step comes before the opening, nor before the probe of a half-open breaker. */
  predicate Current(b: Breaker, now: int) {
    && (b.state.Open? ==> b.openedAt.Some? && b.openedAt.value <= now)
    && (b.state.HalfOpen? ==> ProbeIsDue(b, now))
  }

  lemma NextKeepsInv(b: Breaker, step: Step, cooldown: int)
    requires Inv(b, cooldown) && Current(b, step.now)
    ensures Inv(Next(b, step, cooldown), cooldown) && Current(Next(b, step, cooldown), step.now)
  {}

  /** In every run a breaker is closed exactly while its failures are under the threshold. */
  lemma {:induction false} ClosedExactlyUnderThreshold(b: Breaker, steps: seq<Step>, cooldown: int)
    requires Ordered(steps) && Inv(b, cooldown) && (steps != [] ==> Current(b, steps[0].now))
    ensures var end := Run(b, steps, cooldown);
            && (end.state.Closed? <==> end.failureCount < end.threshold)
            && Inv(end, cooldown)
            && (steps != [] ==> Current(end, steps[|steps| - 1].now))
  {
    if steps != [] {
      var init, last := steps[..|steps| - 1], steps[|steps| - 1];
      ClosedExactlyUnderThreshold(b, init, cooldown);
      var mid := Run(b, init, cooldown);
      assert Current(mid, last.now);
      NextKeepsInv(mid, last, cooldown);
    }
  }

  /** An open breaker lets a call through exactly from one cooldown after its opening on. */
  lemma LetsThroughExactly(b: Breaker, now: int, cooldown: int)
    requires Inv(b, cooldown) && b.state.Open?
    ensures Next(b, Observe(now), cooldown).state.Open? <==> now < b.openedAt.value + cooldown
    ensures !Next(b, Observe(now), cooldown).state.Open? ==> Next(b, Observe(now), cooldown).state.HalfOpen?
  {}

  /** A success closes exactly a half-open breaker, or an open one whose call is let through, and then starts
      its count again; a closed one keeps its failures. */
  lemma SuccessCloses(b: Breaker, step: Step, cooldown: int)
    requires Inv(b, cooldown) && (step.Call? || step.FinishProbe?) && step.ok
    ensures var after := Next(b, step, cooldown);
            if b.state.Closed? then after == b
            else if b.state.HalfOpen? || (step.Call? && step.now >= b.openedAt.value + cooldown)
            then after.state.Closed? && after.failureCount == 0 && after.resetAt == Some(step.now)
            else after == b
  {}

  /** The version starts at one and counts every failure and every closing, and nothing else. */
  lemma VersionCountsWrites(b: Breaker, step: Step, cooldown: int)
    ensures Untouched(b.threshold).version == 1 && Untouched(b.threshold).state.Closed?
    ensures var after := Next(b, step, cooldown);
            after.version == b.version
              + if step.Reset? || after.failureCount == b.failureCount + 1 || (b.state != Closed && after.state == Closed) then 1 else 0
  {}

  /** A probe of an account touches its own breaker and those of its operations, and no other: it half-opens
      those that are not closed and whose probe is due, and these are its candidates. */
  lemma ProbesOwnBreakers(breakers: map<Key, Breaker>, key: Key, account: string, now: int)
    requires key in breakers
    ensures var b := breakers[key];
            var own := key == Account(account) || (key.Operation? && key.account == account);
            var due := own && !b.state.Closed? && (b.nextProbeAt.None? || b.nextProbeAt.value <= now);
            && (IsCandidate(key, b, account, now) <==> due)
            && key in AllStarted(breakers, account, now)
            && AllStarted(breakers, account, now)[key] == if due then b.(state := HalfOpen) else b
  {}

  /** The end of a probe records its answer on the candidates that still exist, and on no other breaker. */
  lemma ProbeEndsOnCandidates(breakers: map<Key, Breaker>, keys: set<Key>, ok: bool, cooldown: int, now: int, key: Key)
    ensures var after := AllFinished(breakers, keys, ok, cooldown, now);
            && (key in after <==> key in breakers)
            && (key in breakers ==>
                  after[key] == if key in keys then Next(breakers[key], FinishProbe(now, ok), cooldown) else breakers[key])
  {}

  /** A probe of a breaker that is not closed half-opens it exactly from one cooldown after its opening on. */
  lemma ProbeStartsExactly(b: Breaker, now: int, cooldown: int)
    requires Inv(b, cooldown)
    ensures Next(b, StartProbe(now), cooldown).state.HalfOpen? <==>
            b.state.HalfOpen? || (b.state.Open? && now >= b.openedAt.value + cooldown)
    ensures Next(b, StartProbe(now), cooldown).failureCount == b.failureCount
  {}

  /** A breaker that is closed opens exactly with the failure that reaches its threshold. */
  lemma OpensAtThreshold(b: Breaker, step: Step, cooldown: int)
    requires Inv(b, cooldown) && b.state.Closed?
    ensures Next(b, step, cooldown).state.Open? <==>
            (step.Call? || step.FinishProbe?) && !step.ok && b.failureCount == b.threshold - 1
  {}

  /** One counted failure re-opens a half-open breaker for a whole cooldown. */
  lemma FailureReopens(b: Breaker, step: Step, cooldown: int)
    requires Inv(b, cooldown) && Counted(b, step)
    requires Observed(b, step.now).state.HalfOpen? || b.state.HalfOpen?
    ensures var after := Next(b, step, cooldown);
            after.state.Open? && after.openedAt == Some(step.now) && after.nextProbeAt == Some(step.now + cooldown)
  {}

  function CountedIn(b: Breaker, steps: seq<Step>, cooldown: int): nat {
    if steps == [] then 0
    else
      var init, last := steps[..|steps| - 1], steps[|steps| - 1];
      CountedIn(b, init, cooldown) + if Counted(Run(b, init, cooldown), last) then 1 else 0
  }

  predicate NeverCloses(b: Breaker, steps: seq<Step>, cooldown: int) {
    forall i | 0 <= i < |steps| :: StaysAt(b, steps, i, cooldown)
  }

  predicate StaysAt(b: Breaker, steps: seq<Step>, i: nat, cooldown: int)
    requires i < |steps|
  {
    !Closes(Run(b, steps[..i], cooldown), steps[i], cooldown)
  }

  function Times(n: int, cooldown: int): (p: int)
    ensures n <= 0 && cooldown > 0 ==> p <= 0
  {
    if n <= 0 && cooldown > 0 then NonPositive(n, cooldown); n * cooldown else n * cooldown
  }

  lemma NonPositive(n: int, cooldown: int)
    requires n <= 0 && cooldown > 0
    ensures n * cooldown <= 0
  {}

  lemma OneMore(n: int, cooldown: int)
    ensures Times(n + 1, cooldown) == Times(n, cooldown) + cooldown
  {}

  /** How many failures a breaker can have counted since `start` without closing in between. */
  predicate Within(b: Breaker, counted: nat, start: int, cooldown: int) {
    if b.state.Closed? then counted <= b.failureCount
    else counted > 0 ==>
      && b.openedAt.Some? && b.openedAt.value >= start
      && Times(counted - b.threshold, cooldown) <= b.openedAt.value - start
  }

  lemma NextWithin(b: Breaker, step: Step, counted: nat, start: int, cooldown: int)
    requires cooldown > 0 && Inv(b, cooldown) && Current(b, step.now) && start <= step.now
    requires Within(b, counted, start, cooldown) && !Closes(b, step, cooldown)
    ensures Within(Next(b, step, cooldown), counted + if Counted(b, step) then 1 else 0, start, cooldown)
  {
    if Counted(b, step) {
      OneMore(counted - b.threshold, cooldown);
    }
  }

  lemma NeverClosesInit(b: Breaker, steps: seq<Step>, cooldown: int)
    requires steps != [] && NeverCloses(b, steps, cooldown)
    ensures NeverCloses(b, steps[..|steps| - 1], cooldown)
  {
    var init := steps[..|steps| - 1];
    forall i | 0 <= i < |init| ensures StaysAt(b, init, i, cooldown) {
      assert init[..i] == steps[..i] && StaysAt(b, steps, i, cooldown);
    }
  }

  lemma {:induction false} SpanWithin(b: Breaker, steps: seq<Step>, cooldown: int)
    requires cooldown > 0 && Ordered(steps) && Inv(b, cooldown) && (steps != [] ==> Current(b, steps[0].now))
    requires NeverCloses(b, steps, cooldown)
    ensures steps != [] ==>
              Within(Run(b, steps, cooldown), CountedIn(b, steps, cooldown), steps[0].now, cooldown)
    ensures steps == [] ==> CountedIn(b, steps, cooldown) == 0
  {
    if steps != [] {
      var init, last := steps[..|steps| - 1], steps[|steps| - 1];
      NeverClosesInit(b, steps, cooldown);
      SpanWithin(b, init, cooldown);
      assert StaysAt(b, steps, |steps| - 1, cooldown);
      ClosedExactlyUnderThreshold(b, init, cooldown);
      NextWithin(Run(b, init, cooldown), last, CountedIn(b, init, cooldown), steps[0].now, cooldown);
    }
  }

  lemma {:induction false} ThresholdStays(b: Breaker, steps: seq<Step>, cooldown: int)
    ensures Run(b, steps, cooldown).threshold == b.threshold
  {
    if steps != [] {
      ThresholdStays(b, steps[..|steps| - 1], cooldown);
    }
  }

  lemma TimesMonotone(m: int, n: int, cooldown: int)
    requires m <= n && cooldown > 0
    ensures Times(m, cooldown) <= Times(n, cooldown)
  {
    NonPositive(m - n, cooldown);
    assert (m - n) * cooldown == m * cooldown - n * cooldown;
  }

  lemma FailuresBound(n: int, threshold: nat, span: int, cooldown: int)
    requires cooldown > 0 && (n <= threshold || Times(n - threshold, cooldown) <= span) && span >= 0
    ensures n <= threshold + span / cooldown
  {
    var q := span / cooldown;
    assert span < Times(q, cooldown) + cooldown;
    OneMore(q, cooldown);
    if n - threshold >= q + 1 {
      TimesMonotone(q + 1, n - threshold, cooldown);
    }
  }

  lemma CurrentLater(b: Breaker, now: int, later: int)
    requires Current(b, now) && now <= later
    ensures Current(b, later)
  {}

  /** All steps lie between two instants. */
  predicate During(steps: seq<Step>, start: int, end: int) {
    start <= end && forall i | 0 <= i < |steps| :: start <= steps[i].now <= end
  }

  /** What every run that starts at `start` from a breaker in order leaves at `end`. */
  lemma RunKeepsInv(b: Breaker, steps: seq<Step>, cooldown: int, start: int, end: int)
    requires Ordered(steps) && During(steps, start, end) && Inv(b, cooldown) && Current(b, start)
    ensures Inv(Run(b, steps, cooldown), cooldown) && Current(Run(b, steps, cooldown), end)
  {
    if steps == [] {
      CurrentLater(b, start, end);
    } else {
      CurrentLater(b, start, steps[0].now);
      ClosedExactlyUnderThreshold(b, steps, cooldown);
      CurrentLater(Run(b, steps, cooldown), steps[|steps| - 1].now, end);
    }
  }

  lemma SpanNotLess(steps: seq<Step>, start: int, end: int)
    requires steps != [] && Ordered(steps) && During(steps, start, end)
    ensures 0 <= steps[|steps| - 1].now - steps[0].now <= end - start
  {}

  lemma ClosedUnderThreshold(b: Breaker, counted: nat, start: int, cooldown: int)
    requires Inv(b, cooldown) && Within(b, counted, start, cooldown)
    ensures counted <= b.threshold
            || (b.openedAt.Some? && Times(counted - b.threshold, cooldown) <= b.openedAt.value - start)
  {}

  lemma OpenedBefore(b: Breaker, cooldown: int, end: int)
    requires cooldown > 0 && Inv(b, cooldown) && Current(b, end) && !b.state.Closed?
    ensures b.openedAt.Some? && b.openedAt.value <= end
  {}

  /** While a breaker does not close, T seconds hold at most threshold + T / cooldown failures counted
      while it is not open, from calls and probes together. */
  lemma FailuresAreSpaced(b: Breaker, steps: seq<Step>, cooldown: int, start: int, end: int)
    requires cooldown > 0 && Ordered(steps) && During(steps, start, end) && Inv(b, cooldown) && Current(b, start)
    requires NeverCloses(b, steps, cooldown)
    ensures CountedIn(b, steps, cooldown) <= b.threshold + (end - start) / cooldown
  {
    var counted, after := CountedIn(b, steps, cooldown), Run(b, steps, cooldown);
    RunKeepsInv(b, steps, cooldown, start, end);
    ThresholdStays(b, steps, cooldown);
    if steps == [] {
      FailuresBound(0, b.threshold, end - start, cooldown);
    } else {
      CurrentLater(b, start, steps[0].now);
      SpanWithin(b, steps, cooldown);
      SpanNotLess(steps, start, end);
      CountedBound(after, counted, steps[0].now, start, end, cooldown);
    }
  }

  lemma CountedBound(b: Breaker, counted: nat, first: int, start: int, end: int, cooldown: int)
    requires cooldown > 0 && Inv(b, cooldown) && Current(b, end) && start <= first <= end
    requires Within(b, counted, first, cooldown)
    ensures counted <= b.threshold + (end - start) / cooldown
  {
    ClosedUnderThreshold(b, counted, first, cooldown);
    if counted > b.threshold {
      OpenedBefore(b, cooldown, end);
    }
    FailuresBound(counted, b.threshold, end - start, cooldown);
  }

  // ---------------------------------------------------------------- failures recorded late

  /** A failing probe that ends while the breaker is open: it raises the count without re-opening. */
  predicate Late(b: Breaker, step: Step) {
    step.FinishProbe? && !step.ok && b.state.Open?
  }

  function LateIn(b: Breaker, steps: seq<Step>, cooldown: int): nat {
    if steps == [] then 0
    else
      var init, last := steps[..|steps| - 1], steps[|steps| - 1];
      LateIn(b, init, cooldown) + if Late(Run(b, init, cooldown), last) then 1 else 0
  }

  /** The failure count rises exactly with counted and with late failures. */
  lemma CountRisesExactly(b: Breaker, step: Step, cooldown: int)
    requires Inv(b, cooldown)
    ensures Next(b, step, cooldown).failureCount == b.failureCount + 1 <==> Counted(b, step) || Late(b, step)
  {}

  lemma StepRecords(b: Breaker, step: Step, cooldown: int)
    requires !Closes(b, step, cooldown)
    ensures Next(b, step, cooldown).failureCount ==
            b.failureCount + (if Counted(b, step) then 1 else 0) + if Late(b, step) then 1 else 0
  {}

  /** While a breaker does not close, its failure count rises by exactly the counted and the late failures. */
  lemma {:induction false} RunRecords(b: Breaker, steps: seq<Step>, cooldown: int)
    requires NeverCloses(b, steps, cooldown)
    ensures Run(b, steps, cooldown).failureCount ==
            b.failureCount + CountedIn(b, steps, cooldown) + LateIn(b, steps, cooldown)
  {
    if steps != [] {
      var init, last := steps[..|steps| - 1], steps[|steps| - 1];
      NeverClosesInit(b, steps, cooldown);
      RunRecords(b, init, cooldown);
      assert StaysAt(b, steps, |steps| - 1, cooldown);
      StepRecords(Run(b, init, cooldown), last, cooldown);
    }
  }

  /** While a breaker does not close, T seconds record at most threshold + T / cooldown failures, and
      one more for each late one. */
  lemma RecordedFailuresBound(b: Breaker, steps: seq<Step>, cooldown: int, start: int, end: int)
    requires cooldown > 0 && Ordered(steps) && During(steps, start, end) && Inv(b, cooldown) && Current(b, start)
    requires NeverCloses(b, steps, cooldown)
    ensures Run(b, steps, cooldown).failureCount - b.failureCount <=
            b.threshold + (end - start) / cooldown + LateIn(b, steps, cooldown)
  {
    RunRecords(b, steps, cooldown);
    FailuresAreSpaced(b, steps, cooldown, start, end);
  }

  /** As many calls as can fail: up to the threshold at once, then one as each cooldown ends. */
  function WorstCalls(atOnce: nat, cooldowns: nat, cooldown: int): seq<Step> {
    if cooldowns > 0 then WorstCalls(atOnce, cooldowns - 1, cooldown) + [Call(Times(cooldowns, cooldown), false)]
    else if atOnce > 0 then WorstCalls(atOnce - 1, 0, cooldown) + [Call(0, false)]
    else []
  }

  /** Then this many probes start as one more cooldown ends. */
  function WorstProbes(threshold: nat, cooldowns: nat, probes: nat, cooldown: int): seq<Step> {
    if probes == 0 then WorstCalls(threshold, cooldowns, cooldown)
    else WorstProbes(threshold, cooldowns, probes - 1, cooldown) + [StartProbe(Times(cooldowns + 1, cooldown))]
  }

  /** Then a call fails before any of them ends, and `late` of them end after it. */
  function Worst(threshold: nat, cooldowns: nat, probes: nat, late: nat, cooldown: int): seq<Step> {
    var now := Times(cooldowns + 1, cooldown);
    if late == 0 then WorstProbes(threshold, cooldowns, probes, cooldown) + [Call(now, false)]
    else Worst(threshold, cooldowns, probes, late - 1, cooldown) + [FinishProbe(now, false)]
  }

  predicate WorstState(b: Breaker, threshold: nat, atOnce: nat, cooldowns: nat, late: nat, cooldown: int) {
    && b.threshold == threshold && b.failureCount == atOnce + cooldowns + late
    && if atOnce < threshold then b.state.Closed?
       else !b.state.Closed? && b.nextProbeAt == Some(Times(cooldowns + 1, cooldown))
  }

  lemma RunMore(b: Breaker, steps: seq<Step>, step: Step, cooldown: int)
    ensures Run(b, steps + [step], cooldown) == Next(Run(b, steps, cooldown), step, cooldown)
    ensures LateIn(b, steps + [step], cooldown) ==
            LateIn(b, steps, cooldown) + if Late(Run(b, steps, cooldown), step) then 1 else 0
    ensures NeverCloses(b, steps, cooldown) && !Closes(Run(b, steps, cooldown), step, cooldown) ==>
              NeverCloses(b, steps + [step], cooldown)
  {
    var more := steps + [step];
    assert more[..|steps|] == steps;
    if NeverCloses(b, steps, cooldown) && !Closes(Run(b, steps, cooldown), step, cooldown) {
      forall i | 0 <= i < |more| ensures StaysAt(b, more, i, cooldown) {
        if i < |steps| {
          assert more[..i] == steps[..i] && StaysAt(b, steps, i, cooldown);
        }
      }
    }
  }

  lemma OrderedMore(steps: seq<Step>, step: Step, end: int)
    requires Ordered(steps) && During(steps, 0, end) && end <= step.now
    ensures Ordered(steps + [step]) && During(steps + [step], 0, step.now)
  {}

  lemma AddWorst(b: Breaker, steps: seq<Step>, step: Step, cooldown: int, end: int)
    requires Ordered(steps) && During(steps, 0, end) && end <= step.now && NeverCloses(b, steps, cooldown)
    requires step.StartProbe? || ((step.Call? || step.FinishProbe?) && !step.ok)
    ensures Run(b, steps + [step], cooldown) == Next(Run(b, steps, cooldown), step, cooldown)
    ensures LateIn(b, steps + [step], cooldown) ==
            LateIn(b, steps, cooldown) + if Late(Run(b, steps, cooldown), step) then 1 else 0
    ensures NeverCloses(b, steps + [step], cooldown)
    ensures Ordered(steps + [step]) && During(steps + [step], 0, step.now)
  {
    OrderedMore(steps, step, end);
    RunMore(b, steps, step, cooldown);
  }

  lemma NextWorst(b: Breaker, threshold: nat, atOnce: nat, cooldowns: nat, late: nat, cooldown: int)
    requires threshold >= 1 && cooldown > 0 && WorstState(b, threshold, atOnce, cooldowns, late, cooldown)
    ensures late == cooldowns == 0 && atOnce < threshold ==>
              var next := Next(b, Call(0, false), cooldown);
              WorstState(next, threshold, atOnce + 1, 0, 0, cooldown)
    ensures late == 0 && atOnce == threshold ==>
              var next := Next(b, Call(Times(cooldowns + 1, cooldown), false), cooldown);
              WorstState(next, threshold, atOnce, cooldowns + 1, 0, cooldown) && next.state.Open?
    ensures late == 0 && atOnce == threshold ==>
              var next := Next(b, StartProbe(Times(cooldowns + 1, cooldown)), cooldown);
              WorstState(next, threshold, atOnce, cooldowns, 0, cooldown) && next.state.HalfOpen?
    ensures atOnce == threshold && b.state.Open? ==>
              var next := Next(b, FinishProbe(Times(cooldowns, cooldown), false), cooldown);
              WorstState(next, threshold, atOnce, cooldowns, late + 1, cooldown) && next.state.Open?
  {
    OneMore(cooldowns, cooldown);
    OneMore(cooldowns + 1, cooldown);
    assert Times(0, cooldown) == 0;
  }

  /** What holds of the steps of the worst run so far. */
  predicate WorstSoFar(steps: seq<Step>, threshold: nat, atOnce: nat, cooldowns: nat, late: nat, cooldown: int, end: int) {
    var b := Untouched(threshold);
    && WorstState(Run(b, steps, cooldown), threshold, atOnce, cooldowns, late, cooldown)
    && LateIn(b, steps, cooldown) == late && NeverCloses(b, steps, cooldown)
    && Ordered(steps) && During(steps, 0, end)
  }

  lemma {:induction false} WorstAtOnce(threshold: nat, atOnce: nat, cooldown: int)
    requires threshold >= 1 && cooldown > 0 && atOnce <= threshold
    ensures WorstSoFar(WorstCalls(atOnce, 0, cooldown), threshold, atOnce, 0, 0, cooldown, 0)
  {
    assert Times(0, cooldown) == 0;
    if atOnce > 0 {
      var b, steps := Untouched(threshold), WorstCalls(atOnce - 1, 0, cooldown);
      WorstAtOnce(threshold, atOnce - 1, cooldown);
      NextWorst(Run(b, steps, cooldown), threshold, atOnce - 1, 0, 0, cooldown);
      AddWorst(b, steps, Call(0, false), cooldown, 0);
    }
  }

  lemma {:induction false} WorstWithCooldowns(threshold: nat, cooldowns: nat, cooldown: int)
    requires threshold >= 1 && cooldown > 0
    ensures WorstSoFar(WorstCalls(threshold, cooldowns, cooldown), threshold, threshold, cooldowns, 0, cooldown,
                       Times(cooldowns, cooldown))
  {
    if cooldowns == 0 {
      WorstAtOnce(threshold, threshold, cooldown);
      assert Times(0, cooldown) == 0;
    } else {
      var b, steps := Untouched(threshold), WorstCalls(threshold, cooldowns - 1, cooldown);
      WorstWithCooldowns(threshold, cooldowns - 1, cooldown);
      NextWorst(Run(b, steps, cooldown), threshold, threshold, cooldowns - 1, 0, cooldown);
      OneMore(cooldowns - 1, cooldown);
      AddWorst(b, steps, Call(Times(cooldowns, cooldown), false), cooldown, Times(cooldowns - 1, cooldown));
    }
  }

  lemma {:induction false} WorstWithProbes(threshold: nat, cooldowns: nat, probes: nat, cooldown: int)
    requires threshold >= 1 && cooldown > 0
    ensures WorstSoFar(WorstProbes(threshold, cooldowns, probes, cooldown), threshold, threshold, cooldowns, 0, cooldown,
                       Times(cooldowns + 1, cooldown))
  {
    if probes == 0 {
      WorstWithCooldowns(threshold, cooldowns, cooldown);
      OneMore(cooldowns, cooldown);
    } else {
      var b, steps := Untouched(threshold), WorstProbes(threshold, cooldowns, probes - 1, cooldown);
      var now := Times(cooldowns + 1, cooldown);
      WorstWithProbes(threshold, cooldowns, probes - 1, cooldown);
      NextWorst(Run(b, steps, cooldown), threshold, threshold, cooldowns, 0, cooldown);
      AddWorst(b, steps, StartProbe(now), cooldown, now);
    }
  }

  lemma {:induction false} WorstRun(threshold: nat, cooldowns: nat, probes: nat, late: nat, cooldown: int)
    requires threshold >= 1 && cooldown > 0
    ensures WorstSoFar(Worst(threshold, cooldowns, probes, late, cooldown), threshold, threshold, cooldowns + 1, late, cooldown,
                       Times(cooldowns + 1, cooldown))
    ensures Run(Untouched(threshold), Worst(threshold, cooldowns, probes, late, cooldown), cooldown).state.Open?
  {
    var b, now := Untouched(threshold), Times(cooldowns + 1, cooldown);
    if late == 0 {
      var steps := WorstProbes(threshold, cooldowns, probes, cooldown);
      WorstWithProbes(threshold, cooldowns, probes, cooldown);
      NextWorst(Run(b, steps, cooldown), threshold, threshold, cooldowns, 0, cooldown);
      AddWorst(b, steps, Call(now, false), cooldown, now);
    } else {
      var steps := Worst(threshold, cooldowns, probes, late - 1, cooldown);
      WorstRun(threshold, cooldowns, probes, late - 1, cooldown);
      NextWorst(Run(b, steps, cooldown), threshold, threshold, cooldowns + 1, late - 1, cooldown);
      AddWorst(b, steps, FinishProbe(now, false), cooldown, now);
    }
  }

  /** A run of a breaker in order between two instants that never closes it and records this many late failures. */
  ghost predicate LateRun(b: Breaker, steps: seq<Step>, cooldown: int, start: int, end: int, late: nat) {
    && Ordered(steps) && During(steps, start, end) && Inv(b, cooldown) && Current(b, start)
    && NeverCloses(b, steps, cooldown) && LateIn(b, steps, cooldown) == late
  }

  predicate Bounded(b: Breaker, steps: seq<Step>, cooldown: int, start: int, end: int, bound: int)
    requires cooldown > 0
  {
    Run(b, steps, cooldown).failureCount - b.failureCount <= bound + (end - start) / cooldown
  }

  /** Every such run records at most `bound` failures and one for each cooldown it lasts. */
  ghost predicate RunsBounded(threshold: nat, cooldown: int, late: nat, bound: int)
    requires cooldown > 0
  {
    forall b: Breaker, steps: seq<Step>, start: int, end: int |
      b.threshold == threshold && LateRun(b, steps, cooldown, start, end, late) ::
      Bounded(b, steps, cooldown, start, end, bound)
  }

  /** The bound is exact: threshold and late failures together, and nothing less, bound all runs. So
      threshold + T / cooldown alone bounds them exactly when no failure is late. */
  lemma RecordedFailuresExactly(threshold: nat, cooldown: int, late: nat, bound: int)
    requires threshold >= 1 && cooldown > 0
    ensures RunsBounded(threshold, cooldown, late, bound) <==> bound >= threshold + late
    ensures RunsBounded(threshold, cooldown, late, threshold) <==> late == 0
  {
    BoundedWhenEnough(threshold, cooldown, late, threshold + late);
    WorstIsAttained(threshold, 0, late, cooldown);
    var b, steps, end := Untouched(threshold), Worst(threshold, 0, late, late, cooldown), Times(1, cooldown);
    assert forall k :: Bounded(b, steps, cooldown, 0, end, k) <==> k >= threshold + late;
    if bound >= threshold + late {
      BoundedWhenEnough(threshold, cooldown, late, bound);
    }
  }

  lemma BoundedWhenEnough(threshold: nat, cooldown: int, late: nat, bound: int)
    requires cooldown > 0 && bound >= threshold + late
    ensures RunsBounded(threshold, cooldown, late, bound)
  {
    forall b: Breaker, steps: seq<Step>, start: int, end: int |
      b.threshold == threshold && LateRun(b, steps, cooldown, start, end, late)
      ensures Bounded(b, steps, cooldown, start, end, bound)
    {
      RecordedFailuresBound(b, steps, cooldown, start, end);
    }
  }

  /** The bound is attained: `late` probes start as a cooldown ends, a call fails before they end, and
      they all fail after it. From an untouched breaker this records threshold + T / cooldown + late. */
  lemma WorstIsAttained(threshold: nat, cooldowns: nat, late: nat, cooldown: int)
    requires threshold >= 1 && cooldown > 0
    ensures var b, steps := Untouched(threshold), Worst(threshold, cooldowns, late, late, cooldown);
            var end := Times(cooldowns + 1, cooldown);
            && LateRun(b, steps, cooldown, 0, end, late)
            && Run(b, steps, cooldown).failureCount == threshold + end / cooldown + late
  {
    WorstRun(threshold, cooldowns, late, late, cooldown);
    TimesDivides(cooldowns + 1, cooldown);
  }

  /** The smallest such run: three failures in one cooldown under a threshold of one. */
  lemma LateProbeExceedsBound()
    ensures var steps := [Call(0, false), StartProbe(10), Call(10, false), FinishProbe(10, false)];
            && LateRun(Untouched(1), steps, 10, 0, 10, 1)
            && Run(Untouched(1), steps, 10).failureCount == 3 > 1 + (10 - 0) / 10
  {
    WorstIsAttained(1, 0, 1, 10);
    assert Times(1, 10) == 10 && Times(0, 10) == 0;
    assert WorstCalls(1, 0, 10) == [Call(0, false)];
    assert WorstProbes(1, 0, 1, 10) == [Call(0, false), StartProbe(10)];
    assert Worst(1, 0, 1, 0, 10) == [Call(0, false), StartProbe(10), Call(10, false)];
    assert Worst(1, 0, 1, 1, 10) == [Call(0, false), StartProbe(10), Call(10, false), FinishProbe(10, false)];
  }

  lemma TimesDivides(n: nat, cooldown: int)
    requires cooldown > 0
    ensures Times(n, cooldown) / cooldown == n
  {
    var q := Times(n, cooldown) / cooldown;
    OneMore(q, cooldown);
    assert Times(q, cooldown) <= Times(n, cooldown) < Times(q, cooldown) + cooldown;
    if q < n {
      TimesMonotone(q + 1, n, cooldown);
    } else if q > n {
      OneMore(n, cooldown);
      TimesMonotone(n + 1, q, cooldown);
    }
  }
}
