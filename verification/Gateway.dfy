/** The marketplace gateway: one call decides from the account, its mode, the emergency stops, the
    breakers and the ledger of attempts whether a write reaches the adapter, and records the outcome.
    A call is one step at one instant, in seconds; the adapter's answer is a parameter. */
module Gateway {
  import opened Wrappers
  import CB = CircuitBreaker

  const WRITE_OPERATIONS: set<string> := {
    "create_listing", "update_listing", "refresh_listing", "promote_listing", "share_listing", "end_listing",
    "accept_offer", "decline_offer", "counter_offer", "send_offer", "send_message", "update_tracking",
    "purchase_label"
  }

  datatype Mode =
    | Fake | Simulation | Disabled | Observe | Shadow | Sandbox | Canary | Production
    | AutonomousConservative | AutonomousNormal | Paused

  datatype AccountStatus =
    | Disconnected | AuthenticationRequired | Connecting | Healthy | Active | Degraded | RateLimited
    | Challenged | Suspended | Revoked | DisabledAccount

  const AUTONOMOUS_WRITE_MODES: set<Mode> := {
    Sandbox, Canary, Production, AutonomousConservative, AutonomousNormal
  }

  const WRITE_FORBIDDEN: set<AccountStatus> := {
    Challenged, Suspended, DisabledAccount, AuthenticationRequired, Revoked
  }

  datatype Account = Account(marketplace: string, name: string, status: AccountStatus, mode: Mode)

  datatype StopKey =
    | AllStop
    | AccountStop(account: string)
    | MarketplaceStop(marketplace: string)
    | OperationStop(account: string, operation: string)
    | ResourceStop(resource: string)

  /** The key an attempt is stored under: the caller's own after a success, a salted one otherwise,
      and a generated one for a read. */
  datatype StoredKey = Exact(key: string) | Salted(key: string) | Generated

  datatype AttemptStatus = Shadowed | Failed | Succeeded | Verified

  datatype Attempt = Attempt(
    account: string,
    operation: string,
    key: StoredKey,
    status: AttemptStatus,
    mode: Mode,
    createdAt: int,
    category: string,
    remoteId: Option<string>)

  /** A write that reached the adapter, with the mode and the account status it was let through on. */
  datatype WriteCall = WriteCall(
    account: string,
    marketplace: string,
    operation: string,
    resource: Option<string>,
    key: string,
    mode: Mode,
    status: AccountStatus,
    at: int,
    ok: bool)

  datatype World = World(
    accounts: map<string, Account>,
    breakers: map<CB.Key, CB.Breaker>,
    stops: set<StopKey>,
    attempts: seq<Attempt>,
    calls: seq<WriteCall>)

  datatype CanaryRules = CanaryRules(
    accounts: set<string>, operations: set<string>, resources: set<string>, writesPerHour: nat)

  datatype AccountConfig = AccountConfig(marketplace: string, name: string, modes: map<string, Mode>)

  datatype Config = Config(
    ratePerMinute: nat,
    publishPerHour: nat,
    canary: CanaryRules,
    threshold: nat,
    cooldown: int,
    operationModes: map<string, Mode>,
    accounts: seq<AccountConfig>)

  datatype Request = Request(
    account: string,
    operation: string,
    key: Option<string>,
    scope: string,
    principal: Option<set<string>>,
    resource: Option<string>)

  datatype AdapterResult =
    | Done(verified: bool, remoteId: Option<string>)
    | Refused(category: Option<string>)

  datatype Adapter = Adapter(capabilities: set<string>, result: AdapterResult)

  datatype BlockReason =
    | AutomationDisabled
    | EmergencyStop
    | BreakerOpen(key: CB.Key)
    | RateLimit
    | PublishVolume
    | CanaryAccount
    | CanaryOperation
    | CanaryResource
    | CanaryLimit
    | ForbiddenStatus
    | ForbiddenMode

  datatype Receipt =
    | MissingKey
    | Unauthorized
    | UnknownAccount
    | Blocked(reason: BlockReason)
    | Replayed(attempt: nat)
    | ShadowWrite
    | Unsupported
    | CallFailed(category: string)
    | CallDone(ok: bool, verified: bool)

  predicate IsWrite(operation: string) {
    operation in WRITE_OPERATIONS
  }

  predicate HasKey(req: Request) {
    req.key.Some? && req.key.value != ""
  }

  predicate ScopeOk(req: Request) {
    req.principal.None? ||
    exists s | s in [req.scope, req.scope + "@" + req.account, "admin"] :: s in req.principal.value
  }

  // ---------------------------------------------------------------- deciding

  /** The position of the first configured account with this marketplace and name. */
  function FirstConfigured(accounts: seq<AccountConfig>, account: Account): (i: nat)
    ensures i <= |accounts|
  {
    if accounts == [] || (accounts[0].marketplace == account.marketplace && accounts[0].name == account.name)
    then 0
    else 1 + FirstConfigured(accounts[1..], account)
  }

  function EffectiveMode(config: Config, account: Account, operation: string): Mode {
    var i := FirstConfigured(config.accounts, account);
    if operation in config.operationModes then config.operationModes[operation]
    else if i < |config.accounts| && operation in config.accounts[i].modes then config.accounts[i].modes[operation]
    else account.mode
  }

  predicate Stops(stop: StopKey, account: string, marketplace: string, operation: string, resource: Option<string>) {
    match stop
    case AllStop => true
    case AccountStop(a) => a == account
    case MarketplaceStop(m) => m == marketplace
    case OperationStop(a, op) => a == account && op == operation
    case ResourceStop(r) => resource == Some(r)
  }

  predicate StopActive(stops: set<StopKey>, req: Request, marketplace: string) {
    exists stop :: stop in stops && Stops(stop, req.account, marketplace, req.operation, req.resource)
  }

  function Covering(account: string, marketplace: string, operation: string): seq<CB.Key> {
    [CB.Global, CB.Adapter(marketplace), CB.Account(account), CB.Operation(account, operation)]
  }

  datatype Gate = Gate(breakers: map<CB.Key, CB.Breaker>, open: Option<CB.Key>)

  /** Ask each breaker in turn up to the first open one. */
  function AskAll(breakers: map<CB.Key, CB.Breaker>, keys: seq<CB.Key>, now: int): Gate {
    if keys == [] then Gate(breakers, None)
    else
      var asked := CB.Asked(breakers, keys[0], now);
      if CB.IsOpen(asked, keys[0]) then Gate(asked, Some(keys[0])) else AskAll(asked, keys[1..], now)
  }

  /** Which attempts or calls a limit counts. */
  datatype Filter = OfAccount(account: string) | OfOperation(operation: string) | CanaryOf(account: string)

  predicate CountsAttempt(f: Filter, a: Attempt, since: int) {
    && a.createdAt >= since
    && match f
       case OfAccount(account) => a.account == account
       case OfOperation(operation) => a.operation == operation
       case CanaryOf(account) => a.account == account && a.mode.Canary?
  }

  function CountSince(attempts: seq<Attempt>, f: Filter, since: int): nat {
    if attempts == [] then 0
    else
      CountSince(attempts[..|attempts| - 1], f, since)
      + if CountsAttempt(f, attempts[|attempts| - 1], since) then 1 else 0
  }

  function OverCanaryLimit(rules: CanaryRules, attempts: seq<Attempt>, req: Request, now: int): Option<BlockReason> {
    if rules.accounts != {} && req.account !in rules.accounts then Some(CanaryAccount)
    else if rules.operations != {} && req.operation !in rules.operations then Some(CanaryOperation)
    else if req.resource.Some? && rules.resources != {} && req.resource.value !in rules.resources then
      Some(CanaryResource)
    else if CountSince(attempts, OfAccount(req.account), now - 3600) >= rules.writesPerHour then
      Some(CanaryLimit)
    else None
  }

  function OverLimit(attempts: seq<Attempt>, config: Config, req: Request, mode: Mode, now: int): Option<BlockReason> {
    if CountSince(attempts, OfAccount(req.account), now - 60) >= config.ratePerMinute then Some(RateLimit)
    else if req.operation == "create_listing" &&
            CountSince(attempts, OfOperation("create_listing"), now - 3600) >= config.publishPerHour then
      Some(PublishVolume)
    else if mode.Canary? then OverCanaryLimit(config.canary, attempts, req, now)
    else None
  }

  function Refusal(status: AccountStatus, mode: Mode): Option<BlockReason> {
    if status in WRITE_FORBIDDEN then Some(ForbiddenStatus)
    else if mode !in AUTONOMOUS_WRITE_MODES && mode !in {Shadow, Simulation} then Some(ForbiddenMode)
    else None
  }

  datatype Decision = Decision(breakers: map<CB.Key, CB.Breaker>, block: Option<BlockReason>)

  /** Whether the call may go on, and the breakers as they are stored then: a limit rolls the
      half-opened breakers back, every other outcome keeps them. */
  function Precheck(w: World, config: Config, req: Request, mode: Mode, now: int): Decision
    requires req.account in w.accounts
  {
    var account := w.accounts[req.account];
    if mode.Disabled? then Decision(w.breakers, Some(AutomationDisabled))
    else if !IsWrite(req.operation) then Decision(w.breakers, None)
    else if StopActive(w.stops, req, account.marketplace) then Decision(w.breakers, Some(EmergencyStop))
    else
      var gate := AskAll(w.breakers, Covering(req.account, account.marketplace, req.operation), now);
      if gate.open.Some? then Decision(gate.breakers, Some(BreakerOpen(gate.open.value)))
      else
        var limit := OverLimit(w.attempts, config, req, mode, now);
        if limit.Some? then Decision(w.breakers, limit) else Decision(gate.breakers, Refusal(account.status, mode))
  }

  predicate IsSuccess(a: Attempt, key: string) {
    a.key == Exact(key) && (a.status.Succeeded? || a.status.Verified?)
  }

  predicate HasSuccess(attempts: seq<Attempt>, key: string) {
    exists a :: a in attempts && IsSuccess(a, key)
  }

  function FirstSuccess(attempts: seq<Attempt>, key: string): (i: nat)
    ensures i <= |attempts| && (i < |attempts| <==> HasSuccess(attempts, key))
    ensures i < |attempts| ==> IsSuccess(attempts[i], key)
  {
    if attempts == [] then 0
    else if IsSuccess(attempts[0], key) then 0
    else
      var i := FirstSuccess(attempts[1..], key);
      assert attempts == [attempts[0]] + attempts[1..];
      1 + i
  }

  // ---------------------------------------------------------------- outcomes

  function Category(category: Option<string>): string {
    match category
    case None => "temporary_remote"
    case Some(c) =>
      if c == "" then "temporary_remote"
      else if c == "auth_required" then "authentication"
      else if c == "rate_limited" then "rate_limit"
      else if c == "not_supported" then "unsupported"
      else if c == "verification_failed" then "verification"
      else if c == "transient" then "temporary_remote"
      else if c == "invalid" then "validation"
      else c
  }

  predicate TripsBreakers(category: string) {
    category !in {"rate_limit", "validation", "unsupported", "not_found", "conflict"}
  }

  function FailedBoth(breakers: map<CB.Key, CB.Breaker>, config: Config, account: string, operation: string, now: int)
    : map<CB.Key, CB.Breaker>
  {
    var a, o := CB.Account(account), CB.Operation(account, operation);
    breakers[a := CB.Failed(CB.Get(breakers, a, config.threshold), now, config.cooldown)]
    [o := CB.Failed(CB.Get(breakers, o, config.threshold), now, config.cooldown)]
  }

  function SucceededAt(breakers: map<CB.Key, CB.Breaker>, key: CB.Key, now: int): map<CB.Key, CB.Breaker> {
    if key in breakers then breakers[key := CB.Succeeded(breakers[key], now)] else breakers
  }

  function SucceededBoth(breakers: map<CB.Key, CB.Breaker>, account: string, operation: string, now: int)
    : map<CB.Key, CB.Breaker>
  {
    SucceededAt(SucceededAt(breakers, CB.Account(account), now), CB.Operation(account, operation), now)
  }

  function NewAttempt(req: Request, mode: Mode, status: AttemptStatus, category: string, remoteId: Option<string>, now: int)
    : Attempt
  {
    var key := if !HasKey(req) then Generated
               else if status.Succeeded? || status.Verified? then Exact(req.key.value)
               else Salted(req.key.value);
    Attempt(req.account, req.operation, key, status, mode, now, category, remoteId)
  }

  function NewCall(account: Account, req: Request, mode: Mode, ok: bool, now: int): WriteCall
    requires HasKey(req)
  {
    WriteCall(req.account, account.marketplace, req.operation, req.resource, req.key.value, mode, account.status, now, ok)
  }

  function StatusOf(req: Request, result: AdapterResult): AttemptStatus {
    if result.Refused? then Failed else if IsWrite(req.operation) && result.verified then Verified else Succeeded
  }

  /** The world after the adapter answered. */
  function Answered(w: World, config: Config, req: Request, mode: Mode, result: AdapterResult, now: int): World
    requires req.account in w.accounts && (IsWrite(req.operation) ==> HasKey(req))
  {
    var account := w.accounts[req.account];
    var write := IsWrite(req.operation);
    var category := if result.Refused? then Category(result.category) else "";
    World(
      if category == "authentication"
      then w.accounts[req.account := account.(status := AuthenticationRequired)] else w.accounts,
      if !write || (result.Refused? && !TripsBreakers(category)) then w.breakers
      else if result.Refused? then FailedBoth(w.breakers, config, req.account, req.operation, now)
      else SucceededBoth(w.breakers, req.account, req.operation, now),
      w.stops,
      w.attempts + [NewAttempt(req, mode, StatusOf(req, result), category,
                               if result.Done? then result.remoteId else None, now)],
      if write then w.calls + [NewCall(account, req, mode, result.Done?, now)] else w.calls)
  }

  function ReceiptOf(req: Request, result: AdapterResult): Receipt {
    match result
    case Refused(category) => CallFailed(Category(category))
    case Done(verified, _) => CallDone(!IsWrite(req.operation) || verified, IsWrite(req.operation) && verified)
  }

  predicate Supports(adapter: Adapter, operation: string) {
    operation in adapter.capabilities || operation in {"health_check", "authentication_status"}
  }

  datatype Outcome = Outcome(world: World, receipt: Receipt)

  function Executed(w: World, config: Config, req: Request, adapter: Adapter, now: int): Outcome {
    var write := IsWrite(req.operation);
    if write && !HasKey(req) then Outcome(w, MissingKey)
    else if !ScopeOk(req) then Outcome(w, Unauthorized)
    else if req.account !in w.accounts then Outcome(w, UnknownAccount)
    else
      var mode := EffectiveMode(config, w.accounts[req.account], req.operation);
      var decision := Precheck(w, config, req, mode, now);
      var checked := w.(breakers := decision.breakers);
      if decision.block.Some? then Outcome(checked, Blocked(decision.block.value))
      else if write && HasSuccess(w.attempts, req.key.value) then
        Outcome(checked, Replayed(FirstSuccess(w.attempts, req.key.value)))
      else if write && mode in {Shadow, Simulation} then
        Outcome(checked.(attempts := w.attempts + [NewAttempt(req, mode, Shadowed, "", None, now)]), ShadowWrite)
      else if !Supports(adapter, req.operation) then Outcome(checked, Unsupported)
      else Outcome(Answered(checked, config, req, mode, adapter.result, now), ReceiptOf(req, adapter.result))
  }

  // ---------------------------------------------------------------- the gateway over its tables

  lemma AskedFour(breakers: map<CB.Key, CB.Breaker>, keys: seq<CB.Key>, now: int)
    requires |keys| == 4
    ensures var b1 := CB.Asked(breakers, keys[0], now);
            var b2 := CB.Asked(b1, keys[1], now);
            var b3 := CB.Asked(b2, keys[2], now);
            var b4 := CB.Asked(b3, keys[3], now);
            AskAll(breakers, keys, now) ==
            if CB.IsOpen(b1, keys[0]) then Gate(b1, Some(keys[0]))
            else if CB.IsOpen(b2, keys[1]) then Gate(b2, Some(keys[1]))
            else if CB.IsOpen(b3, keys[2]) then Gate(b3, Some(keys[2]))
            else if CB.IsOpen(b4, keys[3]) then Gate(b4, Some(keys[3]))
            else Gate(b4, None)
  {
    var b1 := CB.Asked(breakers, keys[0], now);
    var b2 := CB.Asked(b1, keys[1], now);
    var b3 := CB.Asked(b2, keys[2], now);
    var b4 := CB.Asked(b3, keys[3], now);
    assert keys[1..][1..] == keys[2..] && keys[2..][1..] == keys[3..] && keys[3..][1..] == [];
    assert AskAll(b4, [], now) == Gate(b4, None);
    assert AskAll(b3, keys[3..], now) == if CB.IsOpen(b4, keys[3]) then Gate(b4, Some(keys[3])) else Gate(b4, None);
    assert AskAll(b2, keys[2..], now) == if CB.IsOpen(b3, keys[2]) then Gate(b3, Some(keys[2])) else AskAll(b3, keys[3..], now);
    assert AskAll(b1, keys[1..], now) == if CB.IsOpen(b2, keys[1]) then Gate(b2, Some(keys[1])) else AskAll(b2, keys[2..], now);
  }

  class MarketplaceGateway {
    const config: Config
    var accounts: map<string, Account>
    var stops: set<StopKey>
    var attempts: seq<Attempt>
    var calls: seq<WriteCall>
    const breakers: CB.CircuitBreakerRepository

    constructor (config: Config, breakers: CB.CircuitBreakerRepository)
      ensures this.config == config && this.breakers == breakers
      ensures accounts == map[] && stops == {} && attempts == [] && calls == []
    {
      this.config, this.breakers := config, breakers;
      accounts, stops, attempts, calls := map[], {}, [], [];
    }

    function Tables(): World
      reads this, breakers
    {
      World(accounts, breakers.breakers, stops, attempts, calls)
    }

    method CheckWrite(req: Request, mode: Mode, now: int) returns (block: Option<BlockReason>)
      requires req.account in accounts && IsWrite(req.operation) && !mode.Disabled?
      modifies breakers
      ensures Decision(breakers.breakers, block) == Precheck(old(Tables()), config, req, mode, now)
    {
      var account := accounts[req.account];
      if StopActive(stops, req, account.marketplace) {
        return Some(EmergencyStop);
      }
      var before := breakers.breakers;
      var keys := Covering(req.account, account.marketplace, req.operation);
      AskedFour(before, keys, now);
      var open := breakers.IsOpen(keys[0], now);
      if open {
        return Some(BreakerOpen(keys[0]));
      }
      open := breakers.IsOpen(keys[1], now);
      if open {
        return Some(BreakerOpen(keys[1]));
      }
      open := breakers.IsOpen(keys[2], now);
      if open {
        return Some(BreakerOpen(keys[2]));
      }
      open := breakers.IsOpen(keys[3], now);
      if open {
        return Some(BreakerOpen(keys[3]));
      }
      block := OverLimit(attempts, config, req, mode, now);
      if block.Some? {
        breakers.breakers := before;
        return;
      }
      block := Refusal(account.status, mode);
    }

    method Execute(req: Request, adapter: Adapter, now: int) returns (receipt: Receipt)
      modifies this, breakers
      ensures Outcome(Tables(), receipt) == Executed(old(Tables()), config, req, adapter, now)
    {
      var write := IsWrite(req.operation);
      if write && !HasKey(req) {
        return MissingKey;
      }
      if !ScopeOk(req) {
        return Unauthorized;
      }
      if req.account !in accounts {
        return UnknownAccount;
      }
      var account := accounts[req.account];
      var mode := EffectiveMode(config, account, req.operation);
      if mode.Disabled? {
        return Blocked(AutomationDisabled);
      }
      if write {
        var block := CheckWrite(req, mode, now);
        if block.Some? {
          return Blocked(block.value);
        }
        var i := FirstSuccess(attempts, req.key.value);
        if i < |attempts| {
          return Replayed(i);
        }
        if mode in {Shadow, Simulation} {
          attempts := attempts + [NewAttempt(req, mode, Shadowed, "", None, now)];
          return ShadowWrite;
        }
      }
      if !Supports(adapter, req.operation) {
        return Unsupported;
      }
      if write {
        calls := calls + [NewCall(account, req, mode, adapter.result.Done?, now)];
      }
      if adapter.result.Refused? {
        receipt := HandleFailure(req, mode, adapter.result, now);
        return;
      }
      attempts := attempts + [NewAttempt(req, mode, StatusOf(req, adapter.result), "", adapter.result.remoteId, now)];
      if write {
        breakers.RecordSuccess(CB.Account(req.account), now);
        breakers.RecordSuccess(CB.Operation(req.account, req.operation), now);
      }
      receipt := ReceiptOf(req, adapter.result);
    }

    method HandleFailure(req: Request, mode: Mode, result: AdapterResult, now: int) returns (receipt: Receipt)
      requires req.account in accounts && result.Refused? && (IsWrite(req.operation) ==> HasKey(req))
      modifies this, breakers
      ensures receipt == ReceiptOf(req, result) && calls == old(calls)
      ensures Tables() == Answered(old(Tables()), config, req, mode, result, now).(calls := old(calls))
    {
      var category := Category(result.category);
      if category == "authentication" {
        accounts := accounts[req.account := accounts[req.account].(status := AuthenticationRequired)];
      }
      attempts := attempts + [NewAttempt(req, mode, Failed, category, None, now)];
      if IsWrite(req.operation) && TripsBreakers(category) {
        var _ := breakers.RecordFailure(CB.Account(req.account), config.threshold, config.cooldown, now);
        var _ := breakers.RecordFailure(CB.Operation(req.account, req.operation), config.threshold, config.cooldown, now);
      }
      receipt := CallFailed(category);
    }
  }
}
