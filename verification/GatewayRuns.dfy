/** Whole runs of the gateway: calls, probes, resets, emergency stops and account changes in any
    order. What reaches an adapter, how often, and how each breaker moves. */
module GatewayRuns {
  import opened Wrappers
  import opened Gateway
  import CB = CircuitBreaker

  datatype Action =
    | Execute(req: Request, adapter: Adapter)
    | ResetBreaker(key: CB.Key)
    | StartProbe(account: string)
    | FinishProbe(keys: set<CB.Key>, ok: bool)
    | Activate(stop: StopKey)
    | Release(stop: StopKey)
    | SetAccount(id: string, row: Account)

  datatype Event = Event(at: int, action: Action)

  function Next(w: World, config: Config, e: Event): World {
    match e.action
    case Execute(req, adapter) => Executed(w, config, req, adapter, e.at).world
    case ResetBreaker(key) =>
      if key in w.breakers then w.(breakers := w.breakers[key := CB.WasReset(w.breakers[key], e.at)]) else w
    case StartProbe(account) => w.(breakers := CB.AllStarted(w.breakers, account, e.at))
    case FinishProbe(keys, ok) => w.(breakers := CB.AllFinished(w.breakers, keys, ok, config.cooldown, e.at))
    case Activate(stop) => w.(stops := w.stops + {stop})
    case Release(stop) => w.(stops := w.stops - {stop})
    case SetAccount(id, row) => w.(accounts := w.accounts[id := row])
  }

  function Run(w: World, config: Config, events: seq<Event>): World {
    if events == [] then w else Next(Run(w, config, events[..|events| - 1]), config, events[|events| - 1])
  }

  lemma RunOneMore(w: World, config: Config, events: seq<Event>, i: nat)
    requires i < |events|
    ensures Run(w, config, events[..i + 1]) == Next(Run(w, config, events[..i]), config, events[i])
  {
    assert events[..i + 1][..i] == events[..i];
  }

  // ---------------------------------------------------------------- one step

  /** Every condition under which a write is let through to an adapter. */
  ghost predicate Allowed(w: World, config: Config, c: WriteCall) {
    && c.account in w.accounts
    && c.status == w.accounts[c.account].status && c.marketplace == w.accounts[c.account].marketplace
    && c.mode == EffectiveMode(config, w.accounts[c.account], c.operation)
    && c.mode in AUTONOMOUS_WRITE_MODES && c.status !in WRITE_FORBIDDEN
    && (forall stop | stop in w.stops :: !Stops(stop, c.account, c.marketplace, c.operation, c.resource))
    && (forall key | key in Covering(c.account, c.marketplace, c.operation) ::
          !CB.IsOpen(CB.Asked(w.breakers, key, c.at), key))
    && !HasSuccess(w.attempts, c.key)
    && CountSince(w.attempts, OfAccount(c.account), c.at - 60) < config.ratePerMinute
    && (c.operation == "create_listing" ==>
          CountSince(w.attempts, OfOperation(c.operation), c.at - 3600) < config.publishPerHour)
    && (c.mode.Canary? ==> CountSince(w.attempts, OfAccount(c.account), c.at - 3600) < config.canary.writesPerHour)
  }

  lemma {:induction false} Asking(breakers: map<CB.Key, CB.Breaker>, keys: seq<CB.Key>, now: int, key: CB.Key)
    ensures var gate := AskAll(breakers, keys, now);
            && (key in gate.breakers <==> key in breakers)
            && (key in breakers ==> gate.breakers[key] in {breakers[key], CB.Observed(breakers[key], now)})
            && (gate.open.None? && key in keys && key in breakers ==>
                  gate.breakers[key] == CB.Observed(breakers[key], now) && !gate.breakers[key].state.Open?)
  {
    if keys != [] {
      Asking(CB.Asked(breakers, keys[0], now), keys[1..], now, key);
    }
  }

  /** Whether this step sends a write to an adapter. */
  predicate Reaches(w: World, config: Config, e: Event) {
    && e.action.Execute? && IsWrite(e.action.req.operation)
    && (Executed(w, config, e.action.req, e.action.adapter, e.at).receipt.CallFailed? ||
        Executed(w, config, e.action.req, e.action.adapter, e.at).receipt.CallDone?)
  }

  /** What a write that gets through has passed. */
  predicate Cleared(w: World, config: Config, req: Request, mode: Mode, now: int) {
    && IsWrite(req.operation) && HasKey(req) && req.account in w.accounts
    && var account := w.accounts[req.account];
    && mode == EffectiveMode(config, account, req.operation)
    && Refusal(account.status, mode).None? && mode !in {Shadow, Simulation}
    && !StopActive(w.stops, req, account.marketplace)
    && AskAll(w.breakers, Covering(req.account, account.marketplace, req.operation), now).open.None?
    && OverLimit(w.attempts, config, req, mode, now).None?
    && !HasSuccess(w.attempts, req.key.value)
  }

  function Gated(w: World, req: Request, now: int): World
    requires req.account in w.accounts
  {
    w.(breakers := AskAll(w.breakers, Covering(req.account, w.accounts[req.account].marketplace, req.operation), now).breakers)
  }

  lemma Reached(w: World, config: Config, e: Event)
    requires Reaches(w, config, e)
    ensures var req, result := e.action.req, e.action.adapter.result;
            req.account in w.accounts &&
            var mode := EffectiveMode(config, w.accounts[req.account], req.operation);
            && Cleared(w, config, req, mode, e.at)
            && Next(w, config, e) == Answered(Gated(w, req, e.at), config, req, mode, result, e.at)
            && Executed(w, config, req, e.action.adapter, e.at).receipt == ReceiptOf(req, result)
  {}

  lemma ClearedIsAllowed(w: World, config: Config, req: Request, mode: Mode, ok: bool, now: int)
    requires Cleared(w, config, req, mode, now)
    ensures Allowed(w, config, NewCall(w.accounts[req.account], req, mode, ok, now))
  {
    var keys := Covering(req.account, w.accounts[req.account].marketplace, req.operation);
    forall key | key in keys ensures !CB.IsOpen(CB.Asked(w.breakers, key, now), key) {
      Asking(w.breakers, keys, now, key);
    }
  }

  lemma AnswerIsAllowed(w: World, config: Config, req: Request, mode: Mode, result: AdapterResult, now: int)
    requires Cleared(w, config, req, mode, now)
    ensures var after := Answered(Gated(w, req, now), config, req, mode, result, now);
            && after.calls != [] && after.attempts != []
            && var c := after.calls[|after.calls| - 1];
               var a := after.attempts[|after.attempts| - 1];
            && after.calls == w.calls + [c] && after.attempts == w.attempts + [a]
            && c.at == now && Allowed(w, config, c) && Records(a, c)
  {
    var c := NewCall(w.accounts[req.account], req, mode, result.Done?, now);
    var after := Answered(Gated(w, req, now), config, req, mode, result, now);
    assert after.calls == w.calls + [c];
    ClearedIsAllowed(w, config, req, mode, result.Done?, now);
  }

  /** A step sends at most one write, only when every condition holds, and records it in one attempt. */
  lemma CallIsAllowed(w: World, config: Config, e: Event)
    ensures var after := Next(w, config, e);
            if Reaches(w, config, e)
            then after.calls != [] && after.attempts != [] &&
                 var c := after.calls[|after.calls| - 1];
                 var a := after.attempts[|after.attempts| - 1];
                 && after.calls == w.calls + [c] && after.attempts == w.attempts + [a]
                 && c.at == e.at && Allowed(w, config, c) && Records(a, c)
            else after.calls == w.calls
  {
    if Reaches(w, config, e) {
      Reached(w, config, e);
      var req := e.action.req;
      var mode := EffectiveMode(config, w.accounts[req.account], req.operation);
      AnswerIsAllowed(w, config, req, mode, e.action.adapter.result, e.at);
    }
  }

  /** The attempt a write leaves: under the caller's own key exactly when it succeeded. */
  predicate Records(a: Attempt, c: WriteCall) {
    && a.account == c.account && a.operation == c.operation && a.mode == c.mode && a.createdAt == c.at
    && IsWrite(a.operation) && !a.status.Shadowed?
    && (IsSuccess(a, c.key) <==> c.ok)
    && (a.key.Exact? ==> a.key.key == c.key)
    && (a.key.Exact? <==> c.ok)
  }

  /** Any other step leaves at most one attempt, which is no write's. */
  lemma OtherAttempts(w: World, config: Config, e: Event)
    requires !Reaches(w, config, e)
    ensures var after := Next(w, config, e);
            after.attempts == w.attempts || (after.attempts != [] &&
            var a := after.attempts[|after.attempts| - 1];
            && after.attempts == w.attempts + [a]
            && (!IsWrite(a.operation) || a.status.Shadowed?)
            && e.action.Execute? && (a.key.Exact? ==> !IsWrite(e.action.req.operation) && HasKey(e.action.req)))
  {}

  // ---------------------------------------------------------------- at most one success for each key

  predicate ReadsCarryNoKey(events: seq<Event>) {
    forall e | e in events :: e.action.Execute? && !IsWrite(e.action.req.operation) ==> !HasKey(e.action.req)
  }

  predicate HasCall(calls: seq<WriteCall>, key: string) {
    exists i :: 0 <= i < |calls| && calls[i].ok && calls[i].key == key
  }

  /** Each key has at most one successful write, and the ledger holds a success exactly for those. */
  ghost predicate LedgerInv(w: World) {
    && (forall i, j | 0 <= i < j < |w.calls| && w.calls[i].ok && w.calls[j].ok :: w.calls[i].key != w.calls[j].key)
    && (forall key :: HasSuccess(w.attempts, key) <==> HasCall(w.calls, key))
  }

  lemma SuccessIn(attempts: seq<Attempt>, a: Attempt, key: string)
    ensures HasSuccess(attempts + [a], key) <==> (HasSuccess(attempts, key) || IsSuccess(a, key))
  {
    assert forall b :: b in attempts + [a] <==> b in attempts || b == a;
    assert a in attempts + [a];
  }

  lemma CallIn(calls: seq<WriteCall>, c: WriteCall, key: string)
    ensures HasCall(calls + [c], key) <==> (HasCall(calls, key) || (c.ok && c.key == key))
  {
    if HasCall(calls, key) {
      var i :| 0 <= i < |calls| && calls[i].ok && calls[i].key == key;
      assert (calls + [c])[i] == calls[i];
    }
    assert (calls + [c])[|calls|] == c;
  }

  lemma NextKeepsLedger(w: World, config: Config, e: Event)
    requires LedgerInv(w) && ReadsCarryNoKey([e])
    ensures LedgerInv(Next(w, config, e))
  {
    var after := Next(w, config, e);
    CallIsAllowed(w, config, e);
    if Reaches(w, config, e) {
      var c, a := after.calls[|after.calls| - 1], after.attempts[|after.attempts| - 1];
      AddKeepsLedger(w, after, a, c);
    } else {
      OtherAttempts(w, config, e);
      assert e in [e];
      if after.attempts != w.attempts {
        var a := after.attempts[|after.attempts| - 1];
        forall key ensures HasSuccess(after.attempts, key) <==> HasCall(after.calls, key) {
          SuccessIn(w.attempts, a, key);
        }
      }
    }
  }

  lemma AddKeepsLedger(w: World, after: World, a: Attempt, c: WriteCall)
    requires LedgerInv(w) && !HasSuccess(w.attempts, c.key) && Records(a, c)
    requires after.calls == w.calls + [c] && after.attempts == w.attempts + [a]
    ensures LedgerInv(after)
  {
    forall key ensures HasSuccess(after.attempts, key) <==> HasCall(after.calls, key) {
      SuccessIn(w.attempts, a, key);
      CallIn(w.calls, c, key);
    }
    assert !HasCall(w.calls, c.key);
    forall i, j | 0 <= i < j < |after.calls| && after.calls[i].ok && after.calls[j].ok
      ensures after.calls[i].key != after.calls[j].key
    {
      if j == |w.calls| {
        assert after.calls[i] == w.calls[i] && after.calls[j] == c;
      }
    }
  }

  predicate Fresh(w: World) {
    w.attempts == [] && w.calls == []
  }

  /** In every run at most one write succeeds under each idempotency key. */
  lemma {:induction false} OneSuccessPerKey(w: World, config: Config, events: seq<Event>)
    requires Fresh(w) && ReadsCarryNoKey(events)
    ensures LedgerInv(Run(w, config, events))
    ensures var calls := Run(w, config, events).calls;
            forall i, j | 0 <= i < j < |calls| && calls[i].ok && calls[j].ok :: calls[i].key != calls[j].key
  {
    if events != [] {
      var init, last := events[..|events| - 1], events[|events| - 1];
      OneSuccessPerKey(w, config, init);
      NextKeepsLedger(Run(w, config, init), config, last);
    }
  }

  /** A write that passes its checks is answered from the ledger exactly when an earlier write
      succeeded under its key: failed and shadowed attempts never stand in its way. */
  lemma ReplayExactly(w: World, config: Config, events: seq<Event>, req: Request, adapter: Adapter, now: int)
    requires Fresh(w) && ReadsCarryNoKey(events) && IsWrite(req.operation) && HasKey(req)
    ensures var before := Run(w, config, events);
            var receipt := Executed(before, config, req, adapter, now).receipt;
            receipt.MissingKey? || receipt.Unauthorized? || receipt.UnknownAccount? || receipt.Blocked? ||
            (receipt.Replayed? <==> HasCall(before.calls, req.key.value))
  {
    OneSuccessPerKey(w, config, events);
  }

  // ---------------------------------------------------------------- limits over sliding windows

  predicate CountsCall(f: Filter, c: WriteCall, since: int) {
    && c.at >= since
    && match f
       case OfAccount(account) => c.account == account
       case OfOperation(operation) => c.operation == operation
       case CanaryOf(account) => c.account == account && c.mode.Canary?
  }

  function CallsSince(calls: seq<WriteCall>, f: Filter, since: int): nat {
    if calls == [] then 0
    else CallsSince(calls[..|calls| - 1], f, since) + if CountsCall(f, calls[|calls| - 1], since) then 1 else 0
  }

  function CallsBetween(calls: seq<WriteCall>, f: Filter, start: int, end: int): nat {
    if calls == [] then 0
    else
      var last := calls[|calls| - 1];
      CallsBetween(calls[..|calls| - 1], f, start, end) + if CountsCall(f, last, start) && last.at <= end then 1 else 0
  }

  /** When each call was made, fewer than `limit` earlier ones lay in the window behind it. */
  ghost predicate Paced(calls: seq<WriteCall>, f: Filter, window: int, limit: nat) {
    forall i | 0 <= i < |calls| && CountsCall(f, calls[i], calls[i].at) ::
      CallsSince(calls[..i], f, calls[i].at - window) < limit
  }

  lemma {:induction false} BetweenAtMostSince(calls: seq<WriteCall>, f: Filter, start: int, end: int, since: int)
    requires since <= start
    ensures CallsBetween(calls, f, start, end) <= CallsSince(calls, f, since)
  {
    if calls != [] {
      BetweenAtMostSince(calls[..|calls| - 1], f, start, end, since);
    }
  }

  lemma PacedInit(calls: seq<WriteCall>, f: Filter, window: int, limit: nat)
    requires calls != [] && Paced(calls, f, window, limit)
    ensures Paced(calls[..|calls| - 1], f, window, limit)
  {
    var init := calls[..|calls| - 1];
    assert forall i | 0 <= i < |init| :: init[..i] == calls[..i];
  }

  /** A limit checked before every call bounds every window, wherever it starts. */
  lemma {:induction false} PacedBoundsWindows(calls: seq<WriteCall>, f: Filter, window: int, limit: nat, start: int)
    requires Paced(calls, f, window, limit)
    ensures CallsBetween(calls, f, start, start + window) <= limit
  {
    if calls != [] {
      var init, last := calls[..|calls| - 1], calls[|calls| - 1];
      PacedInit(calls, f, window, limit);
      PacedBoundsWindows(init, f, window, limit, start);
      if CountsCall(f, last, start) && last.at <= start + window {
        BetweenAtMostSince(init, f, start, start + window, last.at - window);
      }
    }
  }

  /** Every call the filter counts is counted among the attempts. */
  ghost predicate AllCounted(w: World) {
    forall f, since :: CallsSince(w.calls, f, since) <= CountSince(w.attempts, f, since)
  }

  lemma CountMore(attempts: seq<Attempt>, a: Attempt, f: Filter, since: int)
    ensures CountSince(attempts + [a], f, since) ==
            CountSince(attempts, f, since) + if CountsAttempt(f, a, since) then 1 else 0
  {
    assert (attempts + [a])[..|attempts|] == attempts;
  }

  lemma CallsMore(calls: seq<WriteCall>, c: WriteCall, f: Filter, since: int)
    ensures CallsSince(calls + [c], f, since) == CallsSince(calls, f, since) + if CountsCall(f, c, since) then 1 else 0
  {
    assert (calls + [c])[..|calls|] == calls;
  }

  lemma AddKeepsCounted(w: World, after: World, a: Attempt, c: WriteCall)
    requires AllCounted(w) && Records(a, c)
    requires after.calls == w.calls + [c] && after.attempts == w.attempts + [a]
    ensures AllCounted(after)
  {
    forall f, since ensures CallsSince(after.calls, f, since) <= CountSince(after.attempts, f, since) {
      CallsMore(w.calls, c, f, since);
      CountMore(w.attempts, a, f, since);
    }
  }

  lemma NextKeepsCounted(w: World, config: Config, e: Event)
    requires AllCounted(w)
    ensures AllCounted(Next(w, config, e))
  {
    var after := Next(w, config, e);
    CallIsAllowed(w, config, e);
    if Reaches(w, config, e) {
      AddKeepsCounted(w, after, after.attempts[|after.attempts| - 1], after.calls[|after.calls| - 1]);
    } else {
      OtherAttempts(w, config, e);
      if after.attempts != w.attempts {
        forall f, since ensures CallsSince(after.calls, f, since) <= CountSince(after.attempts, f, since) {
          CountMore(w.attempts, after.attempts[|after.attempts| - 1], f, since);
        }
      }
    }
  }

  lemma {:induction false} CanaryAreOfAccount(attempts: seq<Attempt>, account: string, since: int)
    ensures CountSince(attempts, CanaryOf(account), since) <= CountSince(attempts, OfAccount(account), since)
  {
    if attempts != [] {
      CanaryAreOfAccount(attempts[..|attempts| - 1], account, since);
    }
  }

  /** The three limits: a minute for each account, an hour of new listings over all accounts, an
      hour of canary writes for each account. */
  ghost predicate Limits(config: Config, f: Filter, window: int, limit: nat) {
    match f
    case OfAccount(_) => window == 60 && limit == config.ratePerMinute
    case OfOperation(op) => op == "create_listing" && window == 3600 && limit == config.publishPerHour
    case CanaryOf(_) => window == 3600 && limit == config.canary.writesPerHour
  }

  lemma LimitHolds(w: World, config: Config, c: WriteCall, f: Filter, window: int, limit: nat)
    requires AllCounted(w) && Allowed(w, config, c) && Limits(config, f, window, limit)
    requires CountsCall(f, c, c.at)
    ensures CallsSince(w.calls, f, c.at - window) < limit
  {
    assert CallsSince(w.calls, f, c.at - window) <= CountSince(w.attempts, f, c.at - window);
    CanaryAreOfAccount(w.attempts, c.account, c.at - window);
  }

  lemma AddKeepsPaced(calls: seq<WriteCall>, c: WriteCall, f: Filter, window: int, limit: nat)
    requires Paced(calls, f, window, limit)
    requires CountsCall(f, c, c.at) ==> CallsSince(calls, f, c.at - window) < limit
    ensures Paced(calls + [c], f, window, limit)
  {
    forall i | 0 <= i < |calls + [c]| && CountsCall(f, (calls + [c])[i], (calls + [c])[i].at)
      ensures CallsSince((calls + [c])[..i], f, (calls + [c])[i].at - window) < limit
    {
      assert (calls + [c])[..i] == calls[..i];
      assert i == |calls| ==> calls[..i] == calls;
    }
  }

  lemma {:induction false} RunsArePaced(w: World, config: Config, events: seq<Event>, f: Filter, window: int, limit: nat)
    requires Fresh(w) && Limits(config, f, window, limit)
    ensures AllCounted(Run(w, config, events)) && Paced(Run(w, config, events).calls, f, window, limit)
  {
    if events != [] {
      var init, last := events[..|events| - 1], events[|events| - 1];
      RunsArePaced(w, config, init, f, window, limit);
      var mid := Run(w, config, init);
      NextKeepsCounted(mid, config, last);
      CallIsAllowed(mid, config, last);
      if Reaches(mid, config, last) {
        var calls := Next(mid, config, last).calls;
        var c := calls[|calls| - 1];
        if CountsCall(f, c, c.at) {
          LimitHolds(mid, config, c, f, window, limit);
        }
        AddKeepsPaced(mid.calls, c, f, window, limit);
      }
    }
  }

  /** In every run each limit holds in every window, wherever the window starts: writes of an
      account in a minute, new listings of all accounts in an hour, canary writes in an hour. */
  lemma WindowsAreBounded(w: World, config: Config, events: seq<Event>, account: string, start: int)
    requires Fresh(w)
    ensures var calls := Run(w, config, events).calls;
            && CallsBetween(calls, OfAccount(account), start, start + 60) <= config.ratePerMinute
            && CallsBetween(calls, OfOperation("create_listing"), start, start + 3600) <= config.publishPerHour
            && CallsBetween(calls, CanaryOf(account), start, start + 3600) <= config.canary.writesPerHour
  {
    var calls := Run(w, config, events).calls;
    RunsArePaced(w, config, events, OfAccount(account), 60, config.ratePerMinute);
    PacedBoundsWindows(calls, OfAccount(account), 60, config.ratePerMinute, start);
    RunsArePaced(w, config, events, OfOperation("create_listing"), 3600, config.publishPerHour);
    PacedBoundsWindows(calls, OfOperation("create_listing"), 3600, config.publishPerHour, start);
    RunsArePaced(w, config, events, CanaryOf(account), 3600, config.canary.writesPerHour);
    PacedBoundsWindows(calls, CanaryOf(account), 3600, config.canary.writesPerHour, start);
  }

  // ---------------------------------------------------------------- what never reaches an adapter

  /** In every run each write went out in one of five modes, from an account in none of five statuses. */
  lemma {:induction false} WritesNeedModeAndStatus(w: World, config: Config, events: seq<Event>)
    requires Fresh(w)
    ensures forall c | c in Run(w, config, events).calls ::
              && (c.mode.Sandbox? || c.mode.Canary? || c.mode.Production? || c.mode.AutonomousConservative? || c.mode.AutonomousNormal?)
              && !c.status.Challenged? && !c.status.Suspended? && !c.status.DisabledAccount?
              && !c.status.AuthenticationRequired? && !c.status.Revoked?
  {
    if events != [] {
      var init, last := events[..|events| - 1], events[|events| - 1];
      WritesNeedModeAndStatus(w, config, init);
      CallIsAllowed(Run(w, config, init), config, last);
    }
  }

  /** What step i of a run sends to an adapter. */
  function SentAt(w: World, config: Config, events: seq<Event>, i: nat): Option<WriteCall>
    requires i < |events|
  {
    var before, after := Run(w, config, events[..i]), Run(w, config, events[..i + 1]);
    if |after.calls| > |before.calls| then Some(after.calls[|after.calls| - 1]) else None
  }

  lemma SentIsAllowed(w: World, config: Config, events: seq<Event>, i: nat)
    requires i < |events| && SentAt(w, config, events, i).Some?
    ensures var c := SentAt(w, config, events, i).value;
            c.at == events[i].at && Allowed(Run(w, config, events[..i]), config, c)
  {
    RunOneMore(w, config, events, i);
    CallIsAllowed(Run(w, config, events[..i]), config, events[i]);
  }

  lemma StopStays(w: World, config: Config, e: Event, stop: StopKey)
    requires stop in w.stops && e.action != Release(stop)
    ensures stop in Next(w, config, e).stops
  {}

  lemma {:induction false} StopPersists(w: World, config: Config, events: seq<Event>, i: nat, j: nat, stop: StopKey)
    requires i < j <= |events| && events[i].action == Activate(stop)
    requires forall m | i < m < j :: events[m].action != Release(stop)
    ensures stop in Run(w, config, events[..j]).stops
  {
    RunOneMore(w, config, events, j - 1);
    if j > i + 1 {
      StopPersists(w, config, events, i, j - 1, stop);
      StopStays(Run(w, config, events[..j - 1]), config, events[j - 1], stop);
    }
  }

  /** Between the activation of a stop and its release no write it covers reaches an adapter: none at all
      under a stop of everything, none of the account, the marketplace, the operation of the account or on
      the resource that it names. */
  lemma StopHolds(w: World, config: Config, events: seq<Event>, i: nat, j: nat, stop: StopKey)
    requires i < j < |events| && events[i].action == Activate(stop)
    requires forall m | i < m < j :: events[m].action != Release(stop)
    ensures match SentAt(w, config, events, j)
            case None => true
            case Some(c) =>
              match stop
              case AllStop => false
              case AccountStop(account) => c.account != account
              case MarketplaceStop(marketplace) => c.marketplace != marketplace
              case OperationStop(account, operation) => c.account != account || c.operation != operation
              case ResourceStop(resource) => c.resource != Some(resource)
  {
    StopPersists(w, config, events, i, j, stop);
    if SentAt(w, config, events, j).Some? {
      SentIsAllowed(w, config, events, j);
    }
  }

  predicate Barred(w: World, account: string) {
    account in w.accounts && w.accounts[account].status in WRITE_FORBIDDEN
  }

  lemma BarStays(w: World, config: Config, e: Event, account: string)
    requires Barred(w, account) && !(e.action.SetAccount? && e.action.id == account)
    ensures Barred(Next(w, config, e), account)
  {}

  lemma {:induction false} BarPersists(w: World, config: Config, events: seq<Event>, i: nat, j: nat, account: string)
    requires i <= j <= |events| && Barred(Run(w, config, events[..i]), account)
    requires forall m | i <= m < j :: !(events[m].action.SetAccount? && events[m].action.id == account)
    ensures Barred(Run(w, config, events[..j]), account)
  {
    if j > i {
      BarPersists(w, config, events, i, j - 1, account);
      RunOneMore(w, config, events, j - 1);
      BarStays(Run(w, config, events[..j - 1]), config, events[j - 1], account);
    }
  }

  lemma AuthenticationBars(w: World, config: Config, e: Event)
    requires e.action.Execute?
    requires Executed(w, config, e.action.req, e.action.adapter, e.at).receipt == CallFailed("authentication")
    ensures Barred(Next(w, config, e), e.action.req.account)
  {}

  /** After an authentication failure the account sends no write until an operator changes its row. */
  lemma ReauthenticationIsRequired(w: World, config: Config, events: seq<Event>, i: nat, j: nat)
    requires i < j < |events| && events[i].action.Execute?
    requires Executed(Run(w, config, events[..i]), config, events[i].action.req, events[i].action.adapter, events[i].at).receipt
             == CallFailed("authentication")
    requires forall m | i < m < j :: !(events[m].action.SetAccount? && events[m].action.id == events[i].action.req.account)
    ensures match SentAt(w, config, events, j)
            case None => true
            case Some(c) => c.account != events[i].action.req.account
  {
    RunOneMore(w, config, events, i);
    AuthenticationBars(Run(w, config, events[..i]), config, events[i]);
    BarPersists(w, config, events, i + 1, j, events[i].action.req.account);
    if SentAt(w, config, events, j).Some? {
      SentIsAllowed(w, config, events, j);
    }
  }

  // ---------------------------------------------------------------- how each breaker moves

  /** What a step means for one breaker, or none when it leaves the breaker alone. */
  function Project(w: World, config: Config, e: Event, key: CB.Key): Option<CB.Step> {
    match e.action
    case Execute(req, adapter) =>
      var after := Executed(w, config, req, adapter, e.at);
      if Reaches(w, config, e) && Touches(req, key)
         && (after.receipt.CallFailed? ==> TripsBreakers(after.receipt.category))
      then Some(CB.Call(e.at, after.receipt.CallDone?))
      else if CB.Get(after.world.breakers, key, config.threshold) == CB.Get(w.breakers, key, config.threshold) then None
      else Some(CB.Observe(e.at))
    case ResetBreaker(k) => if k == key && k in w.breakers then Some(CB.Reset(e.at)) else None
    case StartProbe(account) =>
      if key in w.breakers && CB.OfAccount(key, account) then Some(CB.StartProbe(e.at)) else None
    case FinishProbe(keys, ok) => if key in keys && key in w.breakers then Some(CB.FinishProbe(e.at, ok)) else None
    case _ => None
  }

  function StepTo(b: CB.Breaker, step: Option<CB.Step>, cooldown: int): CB.Breaker {
    match step
    case None => b
    case Some(s) => CB.Next(b, s, cooldown)
  }

  /** The same breaker, as it was or as asking left it. */
  predicate OnlyAsked(before: map<CB.Key, CB.Breaker>, after: map<CB.Key, CB.Breaker>, key: CB.Key, now: int) {
    && (key in before <==> key in after)
    && (key in before ==> after[key] in {before[key], CB.Observed(before[key], now)})
  }

  lemma PrecheckAsks(w: World, config: Config, req: Request, mode: Mode, now: int, key: CB.Key)
    requires req.account in w.accounts
    ensures OnlyAsked(w.breakers, Precheck(w, config, req, mode, now).breakers, key, now)
  {
    Asking(w.breakers, Covering(req.account, w.accounts[req.account].marketplace, req.operation), now, key);
  }

  predicate Touches(req: Request, key: CB.Key) {
    IsWrite(req.operation) && key in [CB.Account(req.account), CB.Operation(req.account, req.operation)]
  }

  lemma AnswerTouches(w: World, config: Config, req: Request, mode: Mode, result: AdapterResult, now: int, key: CB.Key)
    requires req.account in w.accounts && (IsWrite(req.operation) ==> HasKey(req))
    ensures var after := Answered(w, config, req, mode, result, now);
            var receipt := ReceiptOf(req, result);
            var before := CB.Get(w.breakers, key, config.threshold);
            if Touches(req, key) && (receipt.CallFailed? ==> TripsBreakers(receipt.category))
            then CB.Get(after.breakers, key, config.threshold) == CB.Outcome(before, receipt.CallDone?, now, config.cooldown)
            else (key in after.breakers <==> key in w.breakers) && (key in w.breakers ==> after.breakers[key] == before)
  {}

  lemma ExecuteAsks(w: World, config: Config, e: Event, key: CB.Key)
    requires e.action.Execute? && !(Reaches(w, config, e) && Touches(e.action.req, key))
    ensures OnlyAsked(w.breakers, Next(w, config, e).breakers, key, e.at)
  {
    var req := e.action.req;
    if req.account in w.accounts && (IsWrite(req.operation) ==> HasKey(req)) {
      var mode := EffectiveMode(config, w.accounts[req.account], req.operation);
      PrecheckAsks(w, config, req, mode, e.at, key);
      AnswerTouches(w.(breakers := Precheck(w, config, req, mode, e.at).breakers), config, req, mode,
                    e.action.adapter.result, e.at, key);
    }
  }

  lemma CallOutcome(w: World, config: Config, e: Event, key: CB.Key)
    requires Reaches(w, config, e) && Touches(e.action.req, key)
    ensures CB.Get(Next(w, config, e).breakers, key, config.threshold) ==
            var before := CB.Get(w.breakers, key, config.threshold);
            var receipt := Executed(w, config, e.action.req, e.action.adapter, e.at).receipt;
            if receipt.CallFailed? && !TripsBreakers(receipt.category) then CB.Observed(before, e.at)
            else CB.Next(before, CB.Call(e.at, receipt.CallDone?), config.cooldown)
  {
    Reached(w, config, e);
    var req := e.action.req;
    var mode := EffectiveMode(config, w.accounts[req.account], req.operation);
    Asking(w.breakers, Covering(req.account, w.accounts[req.account].marketplace, req.operation), e.at, key);
    AnswerTouches(Gated(w, req, e.at), config, req, mode, e.action.adapter.result, e.at, key);
  }

  /** Every step of the gateway is one step, or none, of each breaker. */
  lemma StepProjects(w: World, config: Config, e: Event, key: CB.Key)
    ensures CB.Get(Next(w, config, e).breakers, key, config.threshold) ==
            StepTo(CB.Get(w.breakers, key, config.threshold), Project(w, config, e, key), config.cooldown)
    ensures Project(w, config, e, key).Some? ==> Project(w, config, e, key).value.now == e.at
  {
    match e.action
    case Execute(req, _) =>
      if Reaches(w, config, e) && Touches(req, key) {
        CallOutcome(w, config, e, key);
      } else {
        ExecuteAsks(w, config, e, key);
      }
    case _ =>
  }

  /** The steps one breaker takes during a run. */
  function Steps(w: World, config: Config, events: seq<Event>, key: CB.Key): seq<CB.Step> {
    if events == [] then []
    else
      var init, last := events[..|events| - 1], events[|events| - 1];
      var step := Project(Run(w, config, init), config, last, key);
      Steps(w, config, init, key) + if step.Some? then [step.value] else []
  }

  predicate Ordered(events: seq<Event>) {
    forall i, j | 0 <= i <= j < |events| :: events[i].at <= events[j].at
  }

  /** A run of the gateway is, for each breaker, a run of that breaker alone. */
  lemma {:induction false} RunProjects(w: World, config: Config, events: seq<Event>, key: CB.Key)
    ensures CB.Get(Run(w, config, events).breakers, key, config.threshold) ==
            CB.Run(CB.Get(w.breakers, key, config.threshold), Steps(w, config, events, key), config.cooldown)
  {
    if events != [] {
      var init, last := events[..|events| - 1], events[|events| - 1];
      RunProjects(w, config, init, key);
      StepProjects(Run(w, config, init), config, last, key);
      var steps := Steps(w, config, events, key);
      var step := Project(Run(w, config, init), config, last, key);
      if step.Some? {
        assert steps[..|steps| - 1] == Steps(w, config, init, key) && steps[|steps| - 1] == step.value;
      } else {
        assert steps == Steps(w, config, init, key);
      }
    }
  }

  lemma StepAdded(steps: seq<CB.Step>, step: Option<CB.Step>, start: int, end: int, now: int)
    requires CB.Ordered(steps) && CB.During(steps, start, end) && end <= now
    requires step.Some? ==> step.value.now == now
    ensures var more := steps + if step.Some? then [step.value] else [];
            CB.Ordered(more) && CB.During(more, start, now)
  {
  }

  lemma ProjectedAt(w: World, config: Config, e: Event, key: CB.Key)
    ensures Project(w, config, e, key).Some? ==> Project(w, config, e, key).value.now == e.at
  {
    StepProjects(w, config, e, key);
  }

  lemma {:induction false} StepsAreOrdered(w: World, config: Config, events: seq<Event>, key: CB.Key)
    requires Ordered(events) && events != []
    ensures CB.Ordered(Steps(w, config, events, key))
    ensures CB.During(Steps(w, config, events, key), events[0].at, events[|events| - 1].at)
  {
    var init, last := events[..|events| - 1], events[|events| - 1];
    var step := Project(Run(w, config, init), config, last, key);
    ProjectedAt(Run(w, config, init), config, last, key);
    assert last.at >= events[0].at;
    if init == [] {
      StepAdded([], step, last.at, last.at, last.at);
    } else {
      StepsAreOrdered(w, config, init, key);
      assert init[|init| - 1].at <= last.at;
      StepAdded(Steps(w, config, init, key), step, init[0].at, init[|init| - 1].at, last.at);
    }
  }

  /** A breaker in order at the first of the events. */
  predicate BreakerReady(w: World, config: Config, events: seq<Event>, key: CB.Key) {
    events != [] && Ready(CB.Get(w.breakers, key, config.threshold), config.cooldown, events[0].at)
  }

  predicate Ready(b: CB.Breaker, cooldown: int, now: int) {
    CB.Inv(b, cooldown) && CB.Current(b, now)
  }

  lemma ReadyRuns(b: CB.Breaker, steps: seq<CB.Step>, cooldown: int, start: int, end: int)
    requires CB.Ordered(steps) && CB.During(steps, start, end) && Ready(b, cooldown, start)
    ensures Ready(CB.Run(b, steps, cooldown), cooldown, end)
  {
    CB.RunKeepsInv(b, steps, cooldown, start, end);
  }

  /** In every run a breaker is closed exactly while its failures are under its threshold. */
  lemma BreakersInRuns(w: World, config: Config, events: seq<Event>, key: CB.Key)
    requires Ordered(events) && BreakerReady(w, config, events, key)
    ensures var b := CB.Get(Run(w, config, events).breakers, key, config.threshold);
            && (b.state.Closed? <==> b.failureCount < b.threshold)
            && Ready(b, config.cooldown, events[|events| - 1].at)
  {
    var b, steps := CB.Get(w.breakers, key, config.threshold), Steps(w, config, events, key);
    StepsAreOrdered(w, config, events, key);
    ReadyRuns(b, steps, config.cooldown, events[0].at, events[|events| - 1].at);
    RunProjects(w, config, events, key);
  }

  /** No event of the run closes the breaker. */
  predicate NeverCloses(w: World, config: Config, events: seq<Event>, key: CB.Key) {
    CB.NeverCloses(CB.Get(w.breakers, key, config.threshold), Steps(w, config, events, key), config.cooldown)
  }

  /** The failing probes of a run that ended while the breaker was open. */
  function LateIn(w: World, config: Config, events: seq<Event>, key: CB.Key): nat {
    CB.LateIn(CB.Get(w.breakers, key, config.threshold), Steps(w, config, events, key), config.cooldown)
  }

  /** The failures recorded between two states of a breaker, a number of seconds apart: threshold +
      seconds / cooldown at most, and one more for each late one. */
  predicate RecordedWithin(b: CB.Breaker, after: CB.Breaker, seconds: int, cooldown: int, late: nat)
    requires cooldown > 0
  {
    after.failureCount - b.failureCount <= b.threshold + seconds / cooldown + late
  }

  /** A run of one breaker between two instants, in order at its start, that never closes it. */
  predicate OwnRun(b: CB.Breaker, steps: seq<CB.Step>, cooldown: int, start: int, end: int) {
    CB.Ordered(steps) && CB.During(steps, start, end) && Ready(b, cooldown, start) && CB.NeverCloses(b, steps, cooldown)
  }

  /** What a run of one breaker between two instants comes to. */
  predicate OwnEnd(b: CB.Breaker, steps: seq<CB.Step>, cooldown: int, after: CB.Breaker, late: nat) {
    after == CB.Run(b, steps, cooldown) && late == CB.LateIn(b, steps, cooldown)
  }

  lemma RecordedBound(b: CB.Breaker, steps: seq<CB.Step>, cooldown: int, start: int, end: int, after: CB.Breaker, late: nat)
    requires cooldown > 0 && OwnRun(b, steps, cooldown, start, end) && OwnEnd(b, steps, cooldown, after, late)
    ensures RecordedWithin(b, after, end - start, cooldown, late)
  {
    CB.RecordedFailuresBound(b, steps, cooldown, start, end);
  }

  /** The run of one breaker within a run of the gateway. */
  lemma RunIsOwn(w: World, config: Config, events: seq<Event>, key: CB.Key)
    returns (b: CB.Breaker, steps: seq<CB.Step>, after: CB.Breaker, start: int, end: int, late: nat)
    requires Ordered(events) && BreakerReady(w, config, events, key) && NeverCloses(w, config, events, key)
    ensures b == CB.Get(w.breakers, key, config.threshold)
    ensures after == CB.Get(Run(w, config, events).breakers, key, config.threshold)
    ensures start == events[0].at && end == events[|events| - 1].at && late == LateIn(w, config, events, key)
    ensures OwnRun(b, steps, config.cooldown, start, end) && OwnEnd(b, steps, config.cooldown, after, late)
  {
    b, steps := CB.Get(w.breakers, key, config.threshold), Steps(w, config, events, key);
    after := CB.Get(Run(w, config, events).breakers, key, config.threshold);
    start, end, late := events[0].at, events[|events| - 1].at, LateIn(w, config, events, key);
    StepsAreOrdered(w, config, events, key);
    RunProjects(w, config, events, key);
  }

  /** While a breaker does not close, a run lasting T seconds records at most threshold + T / cooldown
      failures on it, and one more for each probe that ended late. */
  lemma GatewayFailuresAreSpaced(w: World, config: Config, events: seq<Event>, key: CB.Key)
    returns (b: CB.Breaker, after: CB.Breaker, seconds: int, late: nat)
    requires config.cooldown > 0 && Ordered(events) && BreakerReady(w, config, events, key)
    requires NeverCloses(w, config, events, key)
    ensures b == CB.Get(w.breakers, key, config.threshold)
    ensures after == CB.Get(Run(w, config, events).breakers, key, config.threshold)
    ensures seconds == events[|events| - 1].at - events[0].at && late == LateIn(w, config, events, key)
    ensures RecordedWithin(b, after, seconds, config.cooldown, late)
  {
    var steps: seq<CB.Step>, start: int, end: int;
    b, steps, after, start, end, late := RunIsOwn(w, config, events, key);
    seconds := end - start;
    RecordedBound(b, steps, config.cooldown, start, end, after, late);
  }

  /** An event that ends a failing probe of this breaker. */
  predicate FailsProbe(e: Event, key: CB.Key) {
    e.action.FinishProbe? && !e.action.ok && key in e.action.keys
  }

  lemma NotLate(w: World, config: Config, e: Event, key: CB.Key, b: CB.Breaker)
    requires !(FailsProbe(e, key) && CB.IsOpen(w.breakers, key))
    requires b == CB.Get(w.breakers, key, config.threshold)
    ensures Project(w, config, e, key).Some? ==> !CB.Late(b, Project(w, config, e, key).value)
  {
  }

  /** No failure is late in a run whose failing probes of the breaker each end while it is not open. */
  lemma {:induction false} NoneLate(w: World, config: Config, events: seq<Event>, key: CB.Key)
    requires forall i | 0 <= i < |events| ::
               !(FailsProbe(events[i], key) && CB.IsOpen(Run(w, config, events[..i]).breakers, key))
    ensures LateIn(w, config, events, key) == 0
  {
    if events != [] {
      var init, last := events[..|events| - 1], events[|events| - 1];
      assert forall i | 0 <= i < |init| :: init[..i] == events[..i];
      NoneLate(w, config, init, key);
      RunProjects(w, config, init, key);
      NotLate(Run(w, config, init), config, last, key, CB.Get(Run(w, config, init).breakers, key, config.threshold));
      StepCounted(CB.Get(w.breakers, key, config.threshold), Steps(w, config, init, key),
                  Project(Run(w, config, init), config, last, key), config.cooldown);
    }
  }

  /** Without late probes threshold + T / cooldown alone bounds the recorded failures. */
  lemma PlainBoundWithoutLateProbes(w: World, config: Config, events: seq<Event>, key: CB.Key)
    returns (b: CB.Breaker, after: CB.Breaker, seconds: int)
    requires config.cooldown > 0 && Ordered(events) && BreakerReady(w, config, events, key)
    requires NeverCloses(w, config, events, key)
    requires forall i | 0 <= i < |events| ::
               !(FailsProbe(events[i], key) && CB.IsOpen(Run(w, config, events[..i]).breakers, key))
    ensures b == CB.Get(w.breakers, key, config.threshold)
    ensures after == CB.Get(Run(w, config, events).breakers, key, config.threshold)
    ensures seconds == events[|events| - 1].at - events[0].at
    ensures RecordedWithin(b, after, seconds, config.cooldown, 0)
  {
    var late: nat;
    b, after, seconds, late := GatewayFailuresAreSpaced(w, config, events, key);
    NoneLate(w, config, events, key);
  }

  lemma StepCounted(b: CB.Breaker, steps: seq<CB.Step>, step: Option<CB.Step>, cooldown: int)
    ensures CB.LateIn(b, steps + (if step.Some? then [step.value] else []), cooldown) ==
            CB.LateIn(b, steps, cooldown)
            + if step.Some? && CB.Late(CB.Run(b, steps, cooldown), step.value) then 1 else 0
  {
    if step.Some? {
      CB.RunMore(b, steps, step.value, cooldown);
    } else {
      assert steps + [] == steps;
    }
  }

  // ---------------------------------------------------------------- open breakers hold writes back

  /** Open, with its probe not before the given instant. */
  predicate OpenUntil(w: World, key: CB.Key, until: int) {
    key in w.breakers && w.breakers[key].state.Open? && w.breakers[key].nextProbeAt == Some(until)
  }

  lemma OpenStays(w: World, config: Config, e: Event, key: CB.Key, until: int)
    requires OpenUntil(w, key, until) && e.at < until && e.action != ResetBreaker(key)
    ensures OpenUntil(Next(w, config, e), key, until)
  {
    match e.action
    case Execute(req, _) =>
      if Reaches(w, config, e) && Touches(req, key) {
        Reached(w, config, e);
        Asking(w.breakers, Covering(req.account, w.accounts[req.account].marketplace, req.operation), e.at, key);
        assert false;
      } else {
        ExecuteAsks(w, config, e, key);
      }
    case _ =>
  }

  lemma {:induction false} OpenPersists(w: World, config: Config, events: seq<Event>, i: nat, j: nat, key: CB.Key, until: int)
    requires i <= j <= |events| && OpenUntil(Run(w, config, events[..i]), key, until)
    requires forall m | i <= m < j :: events[m].at < until && events[m].action != ResetBreaker(key)
    ensures OpenUntil(Run(w, config, events[..j]), key, until)
  {
    if j > i {
      OpenPersists(w, config, events, i, j - 1, key, until);
      RunOneMore(w, config, events, j - 1);
      OpenStays(Run(w, config, events[..j - 1]), config, events[j - 1], key, until);
    }
  }

  lemma CoveringIs(key: CB.Key, account: string, marketplace: string, operation: string)
    ensures key in Covering(account, marketplace, operation) <==>
            match key
            case Global => true
            case Adapter(m) => m == marketplace
            case Account(a) => a == account
            case Operation(a, op) => a == account && op == operation
  {
    assert Covering(account, marketplace, operation)[0] == CB.Global;
    assert Covering(account, marketplace, operation)[1] == CB.Adapter(marketplace);
    assert Covering(account, marketplace, operation)[2] == CB.Account(account);
    assert Covering(account, marketplace, operation)[3] == CB.Operation(account, operation);
  }

  lemma OpenUntilStops(w: World, config: Config, c: WriteCall, key: CB.Key, until: int)
    requires Allowed(w, config, c) && OpenUntil(w, key, until) && c.at < until
    ensures match key
            case Global => false
            case Adapter(marketplace) => c.marketplace != marketplace
            case Account(account) => c.account != account
            case Operation(account, operation) => c.account != account || c.operation != operation
  {
    CoveringIs(key, c.account, c.marketplace, c.operation);
  }

  /** From a breaker's opening until its cooldown ends, unless it is reset, no write it covers reaches an
      adapter: none at all under the global one, none to the marketplace, of the account or of the operation
      of the account that it stands for. */
  lemma OpenBreakerHolds(w: World, config: Config, events: seq<Event>, i: nat, j: nat, key: CB.Key)
    requires Ordered(events) && BreakerReady(w, config, events, key) && i < j < |events|
    requires var b := CB.Get(Run(w, config, events[..i + 1]).breakers, key, config.threshold);
             b.state.Open? && b.openedAt == Some(events[i].at)
    requires events[j].at < events[i].at + config.cooldown
    requires forall m | i < m < j :: events[m].action != ResetBreaker(key)
    ensures match SentAt(w, config, events, j)
            case None => true
            case Some(c) =>
              match key
              case Global => false
              case Adapter(marketplace) => c.marketplace != marketplace
              case Account(account) => c.account != account
              case Operation(account, operation) => c.account != account || c.operation != operation
  {
    var until := events[i].at + config.cooldown;
    BreakersInRuns(w, config, events[..i + 1], key);
    OpenPersists(w, config, events, i + 1, j, key, until);
    if SentAt(w, config, events, j).Some? {
      SentIsAllowed(w, config, events, j);
      OpenUntilStops(Run(w, config, events[..j]), config, SentAt(w, config, events, j).value, key, until);
    }
  }

  // ---------------------------------------------------------------- which writes go through

  /** What a request must carry: for the writes a key, and for a principal one of three scopes. */
  predicate Admissible(req: Request) {
    && req.key.Some? && req.key.value != ""
    && (req.principal.Some? ==>
          || req.scope in req.principal.value || req.scope + "@" + req.account in req.principal.value
          || "admin" in req.principal.value)
  }

  /** Thirteen operations are writes: exactly they are refused without a key. */
  lemma WritesNeedKeys(w: World, config: Config, req: Request, adapter: Adapter, now: int)
    ensures Executed(w, config, req, adapter, now).receipt.MissingKey? <==>
            && (req.key.None? || req.key.value == "")
            && (|| req.operation == "create_listing" || req.operation == "update_listing"
                || req.operation == "refresh_listing" || req.operation == "promote_listing"
                || req.operation == "share_listing" || req.operation == "end_listing"
                || req.operation == "accept_offer" || req.operation == "decline_offer"
                || req.operation == "counter_offer" || req.operation == "send_offer"
                || req.operation == "send_message" || req.operation == "update_tracking"
                || req.operation == "purchase_label")
  {}

  predicate ConfiguredFor(config: AccountConfig, account: Account) {
    config.marketplace == account.marketplace && config.name == account.name
  }

  lemma {:induction false} FirstConfiguredIs(accounts: seq<AccountConfig>, account: Account)
    ensures var i := FirstConfigured(accounts, account);
            && (i < |accounts| ==> ConfiguredFor(accounts[i], account))
            && forall k | 0 <= k < i :: !ConfiguredFor(accounts[k], account)
  {
    if accounts != [] && !ConfiguredFor(accounts[0], account) {
      FirstConfiguredIs(accounts[1..], account);
      var i := FirstConfigured(accounts[1..], account);
      forall k | 0 <= k < i + 1 ensures !ConfiguredFor(accounts[k], account) {
        assert k > 0 ==> accounts[k] == accounts[1..][k - 1];
      }
    }
  }

  /** An override for the operation wins over everything; then the first configured account that matches
      decides, if it names the operation; otherwise the account's own mode holds. */
  lemma ModeIs(config: Config, account: Account, operation: string, i: nat)
    requires i < |config.accounts| ==> ConfiguredFor(config.accounts[i], account)
    requires i <= |config.accounts| && forall k | 0 <= k < i :: !ConfiguredFor(config.accounts[k], account)
    ensures operation in config.operationModes ==>
              EffectiveMode(config, account, operation) == config.operationModes[operation]
    ensures operation !in config.operationModes && i < |config.accounts| && operation in config.accounts[i].modes ==>
              EffectiveMode(config, account, operation) == config.accounts[i].modes[operation]
    ensures operation !in config.operationModes && (i < |config.accounts| ==> operation !in config.accounts[i].modes) ==>
              EffectiveMode(config, account, operation) == account.mode
  {
    FirstConfiguredIs(config.accounts, account);
    var first := FirstConfigured(config.accounts, account);
    assert first == i;
  }

  predicate Autonomous(mode: Mode) {
    mode.Sandbox? || mode.Canary? || mode.Production? || mode.AutonomousConservative? || mode.AutonomousNormal?
  }

  predicate MayWrite(status: AccountStatus) {
    !status.Challenged? && !status.Suspended? && !status.DisabledAccount? && !status.AuthenticationRequired? && !status.Revoked?
  }

  predicate NoStop(stops: set<StopKey>, req: Request, marketplace: string) {
    && AllStop !in stops && AccountStop(req.account) !in stops && MarketplaceStop(marketplace) !in stops
    && OperationStop(req.account, req.operation) !in stops
    && (req.resource.Some? ==> ResourceStop(req.resource.value) !in stops)
  }

  /** A breaker lets a call through unless it is open and its probe is not due. */
  predicate Lets(breakers: map<CB.Key, CB.Breaker>, key: CB.Key, now: int) {
    key in breakers && breakers[key].state.Open? ==>
      breakers[key].nextProbeAt.Some? && breakers[key].nextProbeAt.value <= now
  }

  predicate NoBreaker(breakers: map<CB.Key, CB.Breaker>, req: Request, marketplace: string, now: int) {
    && Lets(breakers, CB.Global, now) && Lets(breakers, CB.Adapter(marketplace), now)
    && Lets(breakers, CB.Account(req.account), now) && Lets(breakers, CB.Operation(req.account, req.operation), now)
  }

  predicate InCanary(rules: CanaryRules, req: Request) {
    && (rules.accounts == {} || req.account in rules.accounts)
    && (rules.operations == {} || req.operation in rules.operations)
    && (req.resource.None? || rules.resources == {} || req.resource.value in rules.resources)
  }

  predicate UnderLimits(attempts: seq<Attempt>, config: Config, req: Request, mode: Mode, now: int) {
    && CountSince(attempts, OfAccount(req.account), now - 60) < config.ratePerMinute
    && (req.operation == "create_listing" ==>
          CountSince(attempts, OfOperation("create_listing"), now - 3600) < config.publishPerHour)
    && (mode.Canary? ==>
          InCanary(config.canary, req) && CountSince(attempts, OfAccount(req.account), now - 3600) < config.canary.writesPerHour)
  }

  /** What a limit counts: an attempt of the account, of the operation, or of the account in canary mode,
      made at or after an instant. */
  predicate IsCounted(a: Attempt, f: Filter, since: int) {
    match f
    case OfAccount(account) => a.account == account && a.createdAt >= since
    case OfOperation(operation) => a.operation == operation && a.createdAt >= since
    case CanaryOf(account) => a.account == account && a.mode.Canary? && a.createdAt >= since
  }

  /** The count starts at zero and takes in each counted attempt once. */
  lemma CountsExactly(attempts: seq<Attempt>, a: Attempt, f: Filter, since: int)
    ensures CountSince([], f, since) == 0
    ensures CountSince(attempts + [a], f, since) == CountSince(attempts, f, since) + if IsCounted(a, f, since) then 1 else 0
  {
    CountMore(attempts, a, f, since);
  }

  predicate NeverSucceeded(attempts: seq<Attempt>, key: string) {
    forall a | a in attempts :: a.key != Exact(key) || (a.status != Succeeded && a.status != Verified)
  }

  lemma StopsAre(stops: set<StopKey>, req: Request, marketplace: string)
    ensures StopActive(stops, req, marketplace) <==> !NoStop(stops, req, marketplace)
  {
    if stop :| stop in stops && Stops(stop, req.account, marketplace, req.operation, req.resource) {
      match stop
      case _ =>
    }
  }

  lemma LetsIsNotOpen(breakers: map<CB.Key, CB.Breaker>, key: CB.Key, now: int)
    ensures CB.IsOpen(CB.Asked(breakers, key, now), key) <==> !Lets(breakers, key, now)
  {}

  lemma {:induction false} GateOpens(breakers: map<CB.Key, CB.Breaker>, keys: seq<CB.Key>, now: int)
    ensures AskAll(breakers, keys, now).open.None? <==> forall key | key in keys :: Lets(breakers, key, now)
  {
    if keys != [] {
      var asked := CB.Asked(breakers, keys[0], now);
      LetsIsNotOpen(breakers, keys[0], now);
      GateOpens(asked, keys[1..], now);
      assert keys == [keys[0]] + keys[1..];
      if Lets(breakers, keys[0], now) {
        forall key ensures Lets(asked, key, now) <==> Lets(breakers, key, now) {
          LetsAfterAsking(breakers, keys[0], key, now);
        }
      }
    }
  }

  lemma LetsAfterAsking(breakers: map<CB.Key, CB.Breaker>, asked: CB.Key, key: CB.Key, now: int)
    ensures Lets(CB.Asked(breakers, asked, now), key, now) <==> Lets(breakers, key, now)
  {}

  lemma BreakersAre(breakers: map<CB.Key, CB.Breaker>, req: Request, marketplace: string, now: int)
    ensures AskAll(breakers, Covering(req.account, marketplace, req.operation), now).open.None? <==>
            NoBreaker(breakers, req, marketplace, now)
  {
    var keys := Covering(req.account, marketplace, req.operation);
    GateOpens(breakers, keys, now);
    assert keys[0] == CB.Global && keys[1] == CB.Adapter(marketplace);
    assert keys[2] == CB.Account(req.account) && keys[3] == CB.Operation(req.account, req.operation);
  }

  lemma LimitsAre(attempts: seq<Attempt>, config: Config, req: Request, mode: Mode, now: int)
    ensures OverLimit(attempts, config, req, mode, now).None? <==> UnderLimits(attempts, config, req, mode, now)
  {}

  lemma RefusalIs(status: AccountStatus, mode: Mode)
    ensures Refusal(status, mode).None? <==> MayWrite(status) && (Autonomous(mode) || mode.Shadow? || mode.Simulation?)
  {}

  /** What a write of an account in a mode must meet, in the fields of the request and of the tables. */
  predicate LetThrough(w: World, config: Config, req: Request, mode: Mode, adapter: Adapter, now: int) {
    && Admissible(req) && req.account in w.accounts
    && var account := w.accounts[req.account];
    && Autonomous(mode) && MayWrite(account.status)
    && NoStop(w.stops, req, account.marketplace) && NoBreaker(w.breakers, req, account.marketplace, now)
    && UnderLimits(w.attempts, config, req, mode, now)
    && NeverSucceeded(w.attempts, req.key.value)
    && req.operation in adapter.capabilities
  }

  lemma CheckPasses(w: World, config: Config, req: Request, mode: Mode, now: int)
    requires req.account in w.accounts && IsWrite(req.operation)
    ensures var account := w.accounts[req.account];
            Precheck(w, config, req, mode, now).block.None? <==>
            && MayWrite(account.status) && (Autonomous(mode) || mode.Shadow? || mode.Simulation?)
            && NoStop(w.stops, req, account.marketplace) && NoBreaker(w.breakers, req, account.marketplace, now)
            && UnderLimits(w.attempts, config, req, mode, now)
  {
    var account := w.accounts[req.account];
    StopsAre(w.stops, req, account.marketplace);
    BreakersAre(w.breakers, req, account.marketplace, now);
    LimitsAre(w.attempts, config, req, mode, now);
    RefusalIs(account.status, mode);
  }

  /** A write reaches the adapter exactly when every condition holds: none is missing and none is added. */
  lemma ReachesExactly(w: World, config: Config, e: Event)
    requires e.action.Execute? && IsWrite(e.action.req.operation)
    ensures var req := e.action.req;
            Reaches(w, config, e) <==>
            && req.account in w.accounts
            && LetThrough(w, config, req, EffectiveMode(config, w.accounts[req.account], req.operation), e.action.adapter, e.at)
  {
    var req := e.action.req;
    if req.account in w.accounts {
      CheckPasses(w, config, req, EffectiveMode(config, w.accounts[req.account], req.operation), e.at);
      ScopesAre(req);
      if HasKey(req) {
        SuccessesAre(w.attempts, req.key.value);
      }
    }
  }

  lemma ScopesAre(req: Request)
    ensures HasKey(req) && ScopeOk(req) <==> Admissible(req)
  {
    assert req.scope in [req.scope, req.scope + "@" + req.account, "admin"];
    assert req.scope + "@" + req.account in [req.scope, req.scope + "@" + req.account, "admin"];
    assert "admin" in [req.scope, req.scope + "@" + req.account, "admin"];
  }

  lemma SuccessesAre(attempts: seq<Attempt>, key: string)
    ensures HasSuccess(attempts, key) <==> !NeverSucceeded(attempts, key)
  {}

  /** Why a write is blocked, and that everything asked before that let it pass. */
  predicate BlockedFor(reason: BlockReason, w: World, config: Config, req: Request, mode: Mode, now: int)
    requires req.account in w.accounts
  {
    var account, rules := w.accounts[req.account], config.canary;
    var passed := NoStop(w.stops, req, account.marketplace) && NoBreaker(w.breakers, req, account.marketplace, now);
    var minute := CountSince(w.attempts, OfAccount(req.account), now - 60);
    var listings := CountSince(w.attempts, OfOperation("create_listing"), now - 3600);
    match reason
    case AutomationDisabled => mode.Disabled?
    case EmergencyStop => !NoStop(w.stops, req, account.marketplace)
    case BreakerOpen(key) => NoStop(w.stops, req, account.marketplace) && !Lets(w.breakers, key, now)
    case RateLimit => passed && minute >= config.ratePerMinute
    case PublishVolume =>
      passed && minute < config.ratePerMinute && req.operation == "create_listing" && listings >= config.publishPerHour
    case CanaryAccount => passed && mode.Canary? && rules.accounts != {} && req.account !in rules.accounts
    case CanaryOperation => passed && mode.Canary? && rules.operations != {} && req.operation !in rules.operations
    case CanaryResource =>
      passed && mode.Canary? && rules.resources != {} && req.resource.Some? && req.resource.value !in rules.resources
    case CanaryLimit =>
      passed && mode.Canary? && CountSince(w.attempts, OfAccount(req.account), now - 3600) >= rules.writesPerHour
    case ForbiddenStatus => passed && UnderLimits(w.attempts, config, req, mode, now) && !MayWrite(account.status)
    case ForbiddenMode =>
      passed && UnderLimits(w.attempts, config, req, mode, now) && MayWrite(account.status) && !Autonomous(mode)
  }

  lemma {:induction false} GateIsClosedBy(breakers: map<CB.Key, CB.Breaker>, keys: seq<CB.Key>, now: int)
    requires AskAll(breakers, keys, now).open.Some?
    ensures !Lets(breakers, AskAll(breakers, keys, now).open.value, now)
  {
    LetsIsNotOpen(breakers, keys[0], now);
    var asked := CB.Asked(breakers, keys[0], now);
    if !CB.IsOpen(asked, keys[0]) {
      GateIsClosedBy(asked, keys[1..], now);
      LetsAfterAsking(breakers, keys[0], AskAll(asked, keys[1..], now).open.value, now);
    }
  }

  /** A block names a reason that holds, and a limit leaves every breaker as it was. */
  lemma BlocksAreTrue(w: World, config: Config, req: Request, mode: Mode, now: int)
    requires req.account in w.accounts && IsWrite(req.operation) && Precheck(w, config, req, mode, now).block.Some?
    ensures BlockedFor(Precheck(w, config, req, mode, now).block.value, w, config, req, mode, now)
    ensures var decision := Precheck(w, config, req, mode, now);
            decision.block.value in {RateLimit, PublishVolume, CanaryAccount, CanaryOperation, CanaryResource, CanaryLimit} ==>
              decision.breakers == w.breakers
  {
    var marketplace := w.accounts[req.account].marketplace;
    StopsAre(w.stops, req, marketplace);
    BreakersAre(w.breakers, req, marketplace, now);
    LimitsAre(w.attempts, config, req, mode, now);
    if !NoBreaker(w.breakers, req, marketplace, now) {
      GateIsClosedBy(w.breakers, Covering(req.account, marketplace, req.operation), now);
    }
  }

  /** Who is refused before anything is looked at: a write without a key, then a principal without a scope, then
      an unknown account. */
  lemma RefusedFirst(w: World, config: Config, req: Request, adapter: Adapter, now: int)
    ensures var receipt := Executed(w, config, req, adapter, now).receipt;
            var keyed := !IsWrite(req.operation) || (req.key.Some? && req.key.value != "");
            var scoped := req.principal.None? || req.scope in req.principal.value
                          || req.scope + "@" + req.account in req.principal.value || "admin" in req.principal.value;
            && (receipt.MissingKey? <==> !keyed)
            && (receipt.Unauthorized? <==> keyed && !scoped)
            && (receipt.UnknownAccount? <==> keyed && scoped && req.account !in w.accounts)
            && (receipt.MissingKey? || receipt.Unauthorized? || receipt.UnknownAccount? ==>
                  Executed(w, config, req, adapter, now).world == w)
  {
    assert req.scope in [req.scope, req.scope + "@" + req.account, "admin"];
    assert req.scope + "@" + req.account in [req.scope, req.scope + "@" + req.account, "admin"];
    assert "admin" in [req.scope, req.scope + "@" + req.account, "admin"];
  }

  /** A read of a known account within its scopes is blocked exactly when automation is disabled for it, and
      unsupported exactly when the adapter lacks it and it is neither of two checks every adapter has;
      otherwise it leaves one attempt. Whatever becomes of it touches no breaker, stop or write. */
  lemma ReadsPass(w: World, config: Config, req: Request, adapter: Adapter, now: int)
    requires !IsWrite(req.operation) && req.account in w.accounts && ScopeOk(req)
    ensures var outcome := Executed(w, config, req, adapter, now);
            var disabled := EffectiveMode(config, w.accounts[req.account], req.operation).Disabled?;
            var supported := req.operation in adapter.capabilities || req.operation == "health_check"
                             || req.operation == "authentication_status";
            && (outcome.receipt.Blocked? <==> disabled) && (outcome.receipt.Unsupported? <==> !disabled && !supported)
            && outcome.world.breakers == w.breakers && outcome.world.stops == w.stops && outcome.world.calls == w.calls
            && (outcome.receipt.CallDone? ==> outcome.receipt.ok && !outcome.receipt.verified)
            && (if disabled || !supported then outcome.world == w
                else
                  && |outcome.world.attempts| == |w.attempts| + 1 && outcome.world.attempts[..|w.attempts|] == w.attempts
                  && var a := outcome.world.attempts[|w.attempts|];
                  && a.account == req.account && a.operation == req.operation && a.createdAt == now
                  && a.status == (if adapter.result.Done? then Succeeded else Failed))
  {}

  // ---------------------------------------------------------------- what a write leaves

  /** The write that goes out is the one requested. */
  lemma CallIsOfRequest(w: World, config: Config, e: Event)
    requires Reaches(w, config, e)
    ensures var req, after := e.action.req, Next(w, config, e);
            && after.calls != [] && req.key.Some? && req.account in w.accounts
            && var c := after.calls[|after.calls| - 1];
            && c.account == req.account && c.operation == req.operation && c.resource == req.resource
            && c.key == req.key.value && c.at == e.at && c.marketplace == w.accounts[req.account].marketplace
            && (c.ok <==> e.action.adapter.result.Done?)
  {
    Reached(w, config, e);
  }

  /** The failures that say nothing about the marketplace's health. */
  predicate Excused(category: Option<string>) {
    category in {Some("rate_limited"), Some("rate_limit"), Some("invalid"), Some("validation"), Some("not_supported"),
                 Some("unsupported"), Some("not_found"), Some("conflict")}
  }

  predicate NeedsLogin(category: Option<string>) {
    category == Some("auth_required") || category == Some("authentication")
  }

  /** The names a failure is reported under: six of the adapter's are renamed, a missing one counts as
      temporary, and any other is kept. */
  lemma CategoryNames(category: Option<string>)
    ensures var name := Category(category);
            && (name == "authentication" <==> category in {Some("auth_required"), Some("authentication")})
            && (name == "rate_limit" <==> category in {Some("rate_limited"), Some("rate_limit")})
            && (name == "unsupported" <==> category in {Some("not_supported"), Some("unsupported")})
            && (name == "verification" <==> category in {Some("verification_failed"), Some("verification")})
            && (name == "validation" <==> category in {Some("invalid"), Some("validation")})
            && (name == "temporary_remote" <==>
                  category in {None, Some(""), Some("transient"), Some("temporary_remote")})
            && (name !in {"authentication", "rate_limit", "unsupported", "verification", "validation", "temporary_remote"} ==>
                  category == Some(name))
  {}

  lemma CategoriesAre(category: Option<string>)
    ensures TripsBreakers(Category(category)) <==> !Excused(category)
    ensures Category(category) == "authentication" <==> NeedsLogin(category)
  {}

  /** A failed write: the account must log in again exactly after an authentication failure, the attempt
      is stored as failed under a salted key, and each of the two breakers that are not excused counts it. */
  lemma FailureLeaves(w: World, config: Config, e: Event)
    requires Reaches(w, config, e) && e.action.adapter.result.Refused?
    ensures var req, category, after := e.action.req, e.action.adapter.result.category, Next(w, config, e);
            && after.attempts != [] && req.key.Some? && req.account in w.accounts
            && var a := after.attempts[|after.attempts| - 1];
            && a.status == Failed && a.key == Salted(req.key.value) && a.category == Category(category) && a.remoteId.None?
            && after.stops == w.stops
            && after.accounts == (if NeedsLogin(category)
                                  then w.accounts[req.account := w.accounts[req.account].(status := AuthenticationRequired)]
                                  else w.accounts)
    ensures forall key | key in {CB.Account(e.action.req.account), CB.Operation(e.action.req.account, e.action.req.operation)} ::
              CB.Get(Next(w, config, e).breakers, key, config.threshold).failureCount ==
              CB.Get(w.breakers, key, config.threshold).failureCount
              + if Excused(e.action.adapter.result.category) then 0 else 1
  {
    Reached(w, config, e);
    var req := e.action.req;
    CategoriesAre(e.action.adapter.result.category);
    forall key | key in {CB.Account(req.account), CB.Operation(req.account, req.operation)}
      ensures CB.Get(Next(w, config, e).breakers, key, config.threshold).failureCount ==
              CB.Get(w.breakers, key, config.threshold).failureCount
              + if Excused(e.action.adapter.result.category) then 0 else 1
    {
      FailureCounts(w, config, e, key);
    }
  }

  lemma FailureCounts(w: World, config: Config, e: Event, key: CB.Key)
    requires Reaches(w, config, e) && e.action.adapter.result.Refused? && Touches(e.action.req, key)
    ensures CB.Get(Next(w, config, e).breakers, key, config.threshold).failureCount ==
            CB.Get(w.breakers, key, config.threshold).failureCount
            + if TripsBreakers(Category(e.action.adapter.result.category)) then 1 else 0
  {
    Reached(w, config, e);
    CallOutcome(w, config, e, key);
    var req := e.action.req;
    var keys := Covering(req.account, w.accounts[req.account].marketplace, req.operation);
    assert keys[2] == CB.Account(req.account) && keys[3] == CB.Operation(req.account, req.operation);
    Asking(w.breakers, keys, e.at, key);
  }

  /** A successful write: it is reported ok exactly when verified, stored under its own key, and leaves both
      breakers closed: one that was closed as it was, any other with a count of zero. */
  lemma SuccessLeaves(w: World, config: Config, e: Event, key: CB.Key)
    requires Reaches(w, config, e) && e.action.adapter.result.Done?
    requires key in {CB.Account(e.action.req.account), CB.Operation(e.action.req.account, e.action.req.operation)}
    ensures var req, result, after := e.action.req, e.action.adapter.result, Next(w, config, e);
            && Executed(w, config, req, e.action.adapter, e.at).receipt == CallDone(result.verified, result.verified)
            && after.attempts != [] && req.key.Some? && after.accounts == w.accounts && after.stops == w.stops
            && var a := after.attempts[|after.attempts| - 1];
            && a.status == (if result.verified then Verified else Succeeded)
            && a.key == Exact(req.key.value) && a.remoteId == result.remoteId && a.category == ""
    ensures var before := CB.Get(w.breakers, key, config.threshold);
            var after := CB.Get(Next(w, config, e).breakers, key, config.threshold);
            after.state.Closed? && (if before.state.Closed? then after == before else after.failureCount == 0)
  {
    Reached(w, config, e);
    CallOutcome(w, config, e, key);
    var req := e.action.req;
    var keys := Covering(req.account, w.accounts[req.account].marketplace, req.operation);
    assert keys[2] == CB.Account(req.account) && keys[3] == CB.Operation(req.account, req.operation);
    Asking(w.breakers, keys, e.at, key);
  }

  /** What a write that does not reach the adapter leaves: nothing but breakers it asked, except a shadowed
      attempt, exactly in the two shadow modes. */
  lemma OthersLeave(w: World, config: Config, e: Event)
    requires e.action.Execute? && IsWrite(e.action.req.operation) && !Reaches(w, config, e)
    ensures var after := Next(w, config, e);
            && after.accounts == w.accounts && after.stops == w.stops && after.calls == w.calls
            && (after.attempts == w.attempts ||
                (|after.attempts| == |w.attempts| + 1 && after.attempts[..|w.attempts|] == w.attempts &&
                 var a := after.attempts[|w.attempts|];
                 && a.status == Shadowed && a.key == Salted(e.action.req.key.value) && a.category == "" && a.remoteId.None?
                 && a.account == e.action.req.account && a.operation == e.action.req.operation && a.createdAt == e.at
                 && (a.mode.Shadow? || a.mode.Simulation?)))
  {}
}
