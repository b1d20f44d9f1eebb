/** Approval proposals, the inventory items and listing drafts they change, and the append-only draft history. */
module Proposals {
  import opened Wrappers

  type ItemId = nat
  type DraftId = nat
  type ProposalId = nat

  datatype Kind =
    | InventoryUpdate | IdentificationSelection | ResearchResolution
    | ListingDraftApproval | PricingChange | ListingVariantApproval | ArchiveRecommendation

  datatype ProposalStatus = Pending | Approved | Rejected | Expired | Superseded | Executed | ExecutionFailed

  datatype Proposal = Proposal(
    kind: Kind,
    resource: nat,
    currentVersion: nat,
    payload: map<string, string>,
    status: ProposalStatus,
    expiresAt: Option<int>)

  datatype Item = Item(version: nat, quantity: int, fields: map<string, string>)

  datatype DraftStatus = DraftOpen | NeedsReview | DraftApproved | DraftRejected | DraftSuperseded

  datatype Draft = Draft(version: nat, status: DraftStatus)

  /** A row of `listing_draft_versions`. */
  datatype Entry = Entry(version: nat, status: DraftStatus)

  datatype Error = NotFound | NotPending | ProposalExpired | FieldsNotWritable | VersionConflict | DraftIsApproved | NegativeQuantity

  datatype World = World(
    items: map<ItemId, Item>,
    drafts: map<DraftId, Draft>,
    history: map<DraftId, seq<Entry>>,
    proposals: map<ProposalId, Proposal>)

  predicate ChangesInventory(kind: Kind) {
    kind == InventoryUpdate || kind == IdentificationSelection || kind == ResearchResolution
  }

  // ---------------------------------------------------------------- repositories

  function Edited(item: Item, changes: map<string, string>): Item {
    item.(version := item.version + 1, fields := item.fields + changes)
  }

  /** `set_quantity` of an inventory item leaves its version alone. */
  function SetQuantity(w: World, id: ItemId, quantity: int): Result<World, Error> {
    if quantity < 0 then Err(NegativeQuantity)
    else if id !in w.items then Err(NotFound)
    else Ok(w.(items := w.items[id := w.items[id].(quantity := quantity)]))
  }

  /** `update_draft` of an inventory item: a versioned compare-and-swap over writable fields. */
  function UpdateItem(w: World, id: ItemId, expected: nat, changes: map<string, string>, writable: set<string>)
    : Result<World, Error>
  {
    if !(changes.Keys <= writable) then Err(FieldsNotWritable)
    else if id !in w.items then Err(NotFound)
    else if w.items[id].version != expected then Err(VersionConflict)
    else Ok(w.(items := w.items[id := Edited(w.items[id], changes)]))
  }

  /** `set_status` of a listing draft, with the snapshot of the new version. */
  function SetDraftStatus(w: World, id: DraftId, status: DraftStatus): Result<World, Error>
  {
    if id !in w.drafts then Err(NotFound)
    else if w.drafts[id].status == DraftApproved && status != DraftSuperseded then Err(DraftIsApproved)
    else
      var draft := Draft(w.drafts[id].version + 1, status);
      Ok(w.(drafts := w.drafts[id := draft],
            history := w.history[id := HistoryOf(w, id) + [Entry(draft.version, status)]]))
  }

  function HistoryOf(w: World, id: DraftId): seq<Entry> {
    if id in w.history then w.history[id] else []
  }

  function CreateDraft(w: World, id: DraftId): World {
    w.(drafts := w.drafts[id := Draft(1, DraftOpen)], history := w.history[id := [Entry(1, DraftOpen)]])
  }

  /** `decide`: only a pending proposal that has not expired can be decided. */
  function Decide(w: World, id: ProposalId, status: ProposalStatus, now: int): Result<World, Error> {
    if id !in w.proposals then Err(NotFound)
    else if w.proposals[id].status != Pending then Err(NotPending)
    else if w.proposals[id].expiresAt.Some? && w.proposals[id].expiresAt.value <= now then Err(ProposalExpired)
    else Ok(WithStatus(w, id, status))
  }

  function WithStatus(w: World, id: ProposalId, status: ProposalStatus): World
    requires id in w.proposals
  {
    w.(proposals := w.proposals[id := w.proposals[id].(status := status)])
  }

  function ExpiredRow(p: Proposal, now: int): Proposal {
    if p.status == Pending && p.expiresAt.Some? && p.expiresAt.value <= now then p.(status := Expired) else p
  }

  function ExpireDue(w: World, now: int): World {
    w.(proposals := map id | id in w.proposals :: ExpiredRow(w.proposals[id], now))
  }

  // ---------------------------------------------------------------- services

  /** `_execute_proposal`: the changed world and whether execution succeeded.  A missing or stale
      resource is recorded as a failed execution; any other error is raised. */
  function Execute(w: World, p: Proposal, writable: set<string>): Result<(World, bool), Error> {
    if ChangesInventory(p.kind) then
      if p.resource !in w.items || w.items[p.resource].version != p.currentVersion then Ok((w, false))
      else
        var updated := UpdateItem(w, p.resource, p.currentVersion, p.payload, writable);
        if updated.Err? then Err(updated.error) else Ok((updated.value, true))
    else if p.kind == ListingDraftApproval then
      if p.resource !in w.drafts || w.drafts[p.resource].version != p.currentVersion then Ok((w, false))
      else
        var updated := SetDraftStatus(w, p.resource, DraftApproved);
        if updated.Err? then Err(updated.error) else Ok((updated.value, true))
    else Ok((w, true))
  }

  /** `approve_proposal`: decide, execute and mark, in one transaction. */
  function Approve(w: World, id: ProposalId, now: int, writable: set<string>): Result<World, Error> {
    var decided := Decide(w, id, Approved, now);
    if decided.Err? then decided
    else
      var executed := Execute(decided.value, w.proposals[id], writable);
      if executed.Err? then Err(executed.error)
      else if id !in executed.value.0.proposals then Err(NotFound)
      else Ok(WithStatus(executed.value.0, id, if executed.value.1 then Executed else ExecutionFailed))
  }

  function Supersede(w: World, id: ProposalId): Result<World, Error> {
    if id !in w.proposals then Err(NotFound)
    else if w.proposals[id].status != Pending then Err(NotPending)
    else Ok(WithStatus(w, id, Superseded))
  }

  /** `request_listing_approval`: mark the draft for review and propose its approval at that version. */
  function RequestApproval(w: World, draftId: DraftId, id: ProposalId, expiresAt: int): Result<World, Error> {
    var marked := SetDraftStatus(w, draftId, NeedsReview);
    if marked.Err? then marked
    else
      var p := Proposal(ListingDraftApproval, draftId, marked.value.drafts[draftId].version, map["status" := "approved"],
                        Pending, Some(expiresAt));
      Ok(marked.value.(proposals := marked.value.proposals[id := p]))
  }

  // ---------------------------------------------------------------- in place

  /** The four tables; each method is one session, rolled back when it returns an error. */
  class DomainStore {
    var items: map<ItemId, Item>
    var drafts: map<DraftId, Draft>
    var history: map<DraftId, seq<Entry>>
    var proposals: map<ProposalId, Proposal>

    ghost function State(): World
      reads this
    {
      World(items, drafts, history, proposals)
    }

    constructor ()
      ensures State() == World(map[], map[], map[], map[])
    {
      items, drafts, history, proposals := map[], map[], map[], map[];
    }

    method ApproveProposal(id: ProposalId, now: int, writable: set<string>) returns (error: Option<Error>)
      modifies this
      ensures var r := Approve(old(State()), id, now, writable);
              if r.Ok? then error.None? && State() == r.value
              else error == Some(r.error) && State() == old(State())
    {
      if id !in proposals {
        return Some(NotFound);
      }
      var p := proposals[id];
      if p.status != Pending {
        return Some(NotPending);
      }
      if p.expiresAt.Some? && p.expiresAt.value <= now {
        return Some(ProposalExpired);
      }
      var outcome := Executed;
      if ChangesInventory(p.kind) {
        if p.resource !in items || items[p.resource].version != p.currentVersion {
          outcome := ExecutionFailed;
        } else if !(p.payload.Keys <= writable) {
          return Some(FieldsNotWritable);
        } else {
          items := items[p.resource := Edited(items[p.resource], p.payload)];
        }
      } else if p.kind == ListingDraftApproval {
        if p.resource !in drafts || drafts[p.resource].version != p.currentVersion {
          outcome := ExecutionFailed;
        } else {
          var failed := ChangeDraftStatus(p.resource, DraftApproved);
          if failed.Some? {
            return failed;
          }
        }
      }
      proposals := proposals[id := p.(status := outcome)];
      return None;
    }

    method ChangeDraftStatus(id: DraftId, status: DraftStatus) returns (error: Option<Error>)
      modifies this`drafts, this`history
      ensures var r := SetDraftStatus(old(State()), id, status);
              if r.Ok? then error.None? && State() == r.value
              else error == Some(r.error) && State() == old(State())
    {
      if id !in drafts {
        return Some(NotFound);
      }
      if drafts[id].status == DraftApproved && status != DraftSuperseded {
        return Some(DraftIsApproved);
      }
      var version := drafts[id].version + 1;
      drafts := drafts[id := Draft(version, status)];
      history := history[id := (if id in history then history[id] else []) + [Entry(version, status)]];
      return None;
    }

    method ChangeQuantity(id: ItemId, quantity: int) returns (error: Option<Error>)
      modifies this`items
      ensures var r := SetQuantity(old(State()), id, quantity);
              if r.Ok? then error.None? && State() == r.value
              else error == Some(r.error) && State() == old(State())
    {
      if quantity < 0 {
        return Some(NegativeQuantity);
      }
      if id !in items {
        return Some(NotFound);
      }
      items := items[id := items[id].(quantity := quantity)];
      return None;
    }

    /** The loop over the pending proposals. */
    method ExpireProposals(now: int) returns (expired: nat)
      modifies this`proposals
      ensures State() == ExpireDue(old(State()), now)
      ensures expired == |set id | id in old(proposals) && ExpiredRow(old(proposals)[id], now) != old(proposals)[id]|
    {
      var due := set id | id in proposals && ExpiredRow(proposals[id], now) != proposals[id];
      expired := |due|;
      var rest := due;
      while rest != {}
        invariant rest <= due && proposals.Keys == old(proposals).Keys
        invariant forall id :: id in proposals ==>
                    proposals[id] == if id in rest then old(proposals)[id] else ExpiredRow(old(proposals)[id], now)
        decreases rest
      {
        var id :| id in rest;
        proposals := proposals[id := proposals[id].(status := Expired)];
        rest := rest - {id};
      }
      assert proposals == ExpireDue(old(State()), now).proposals;
    }
  }

  // ---------------------------------------------------------------- runs

  datatype Action =
    | AddItem(itemId: ItemId, stock: int, fields: map<string, string>)
    | EditItem(itemId: ItemId, expected: nat, changes: map<string, string>)
    | SetStock(itemId: ItemId, stock: int)
    | AddDraft(draftId: DraftId)
    | MoveDraft(draftId: DraftId, to: DraftStatus)
    | SubmitProposal(id: ProposalId, proposal: Proposal)
    | RequestReview(draftId: DraftId, id: ProposalId, expiresAt: int)
    | ApproveOne(id: ProposalId, now: int)
    | RejectOne(id: ProposalId, now: int)
    | SupersedeOne(id: ProposalId)
    | ExpireAll(now: int)

  predicate Enabled(w: World, a: Action) {
    match a
    case AddItem(id, _, _) => id !in w.items
    case AddDraft(id) => id !in w.drafts
    case SubmitProposal(id, p) => id !in w.proposals && p.status == Pending
    case RequestReview(_, id, _) => id !in w.proposals
    case _ => true
  }

  function Step(w: World, a: Action, writable: set<string>): Result<World, Error> {
    match a
    case AddItem(id, stock, fields) => Ok(w.(items := w.items[id := Item(1, stock, fields)]))
    case EditItem(id, expected, changes) => UpdateItem(w, id, expected, changes, writable)
    case SetStock(id, stock) => SetQuantity(w, id, stock)
    case AddDraft(id) => Ok(CreateDraft(w, id))
    case MoveDraft(id, to) => SetDraftStatus(w, id, to)
    case SubmitProposal(id, p) => Ok(w.(proposals := w.proposals[id := p]))
    case RequestReview(draftId, id, expiresAt) => RequestApproval(w, draftId, id, expiresAt)
    case ApproveOne(id, now) => Approve(w, id, now, writable)
    case RejectOne(id, now) => Decide(w, id, Rejected, now)
    case SupersedeOne(id) => Supersede(w, id)
    case ExpireAll(now) => Ok(ExpireDue(w, now))
  }

  /** A raised error rolls the step back. */
  function Next(w: World, a: Action, writable: set<string>): World {
    var r := Step(w, a, writable);
    if r.Ok? then r.value else w
  }

  const EMPTY := World(map[], map[], map[], map[])

  ghost predicate Run(states: seq<World>, actions: seq<Action>, writable: set<string>) {
    && |states| == |actions| + 1 && states[0] == EMPTY
    && forall i | 0 <= i < |actions| :: StepAt(states, actions, writable, i)
  }

  predicate StepAt(states: seq<World>, actions: seq<Action>, writable: set<string>, i: nat)
    requires i < |actions| < |states|
  {
    Enabled(states[i], actions[i]) && states[i + 1] == Next(states[i], actions[i], writable)
  }

  // ---------------------------------------------------------------- executed proposals

  predicate ExecutedOnItem(p: Proposal) {
    ChangesInventory(p.kind) && p.status == Executed
  }

  predicate SameTarget(p: Proposal, q: Proposal) {
    ExecutedOnItem(p) && ExecutedOnItem(q) && p.resource == q.resource && p.currentVersion == q.currentVersion
  }

  /** No two proposals were executed on the same version of the same item. */
  ghost predicate OnePerVersion(w: World) {
    forall i, j | i in w.proposals && j in w.proposals :: SameTarget(w.proposals[i], w.proposals[j]) ==> i == j
  }

  /** No committed proposal is merely approved, and every executed inventory change is behind its item's version. */
  ghost predicate ExecutionsBehind(w: World) {
    forall id :: id in w.proposals ==>
      var p := w.proposals[id];
      p.status != Approved
      && (ExecutedOnItem(p) ==> p.resource in w.items && p.currentVersion < w.items[p.resource].version)
  }

  /** What an approval does: it executes exactly the proposals that are not stale. */
  lemma ApprovalOutcome(w: World, id: ProposalId, now: int, writable: set<string>)
    requires Approve(w, id, now, writable).Ok? && ChangesInventory(w.proposals[id].kind)
    ensures var p, after := w.proposals[id], Approve(w, id, now, writable).value;
            var current := p.resource in w.items && w.items[p.resource].version == p.currentVersion;
            && after.proposals == w.proposals[id := p.(status := if current then Executed else ExecutionFailed)]
            && after.drafts == w.drafts && after.history == w.history
            && (current ==> after.items == w.items[p.resource := Edited(w.items[p.resource], p.payload)])
            && (!current ==> after.items == w.items)
  {
  }

  /** The same item, apart from its quantity. */
  predicate SameDraft(item: Item, after: Item) {
    after.(quantity := item.quantity) == item
  }

  /** An item keeps its version while only its quantity is set, and otherwise gains exactly one. */
  lemma ItemsAdvance(w: World, a: Action, writable: set<string>, id: ItemId)
    requires Enabled(w, a) && id in w.items
    ensures id in Next(w, a, writable).items
    ensures var item, after := w.items[id], Next(w, a, writable).items[id];
            if SameDraft(item, after) then after == item || a.SetStock?
            else after.version == item.version + 1 && after.quantity == item.quantity
  {
  }

  /** A proposal becomes executed only by an approval that found its item at its version. */
  lemma ExecutionSource(w: World, a: Action, writable: set<string>, id: ProposalId)
    requires Enabled(w, a) && id in Next(w, a, writable).proposals && ExecutedOnItem(Next(w, a, writable).proposals[id])
    ensures (id in w.proposals && w.proposals[id] == Next(w, a, writable).proposals[id])
            || (a.ApproveOne? && a.id == id && id in w.proposals
                && var p := w.proposals[id];
                   p.resource in w.items && w.items[p.resource].version == p.currentVersion
                   && Next(w, a, writable).proposals[id] == p.(status := Executed)
                   && p.resource in Next(w, a, writable).items
                   && Next(w, a, writable).items[p.resource].version == p.currentVersion + 1)
  {
  }

  lemma NeverMerelyApproved(w: World, a: Action, writable: set<string>, id: ProposalId)
    requires Enabled(w, a) && id in Next(w, a, writable).proposals
    requires id in w.proposals ==> w.proposals[id].status != Approved
    ensures Next(w, a, writable).proposals[id].status != Approved
  {
  }

  lemma ExecutionsStayBehind(w: World, a: Action, writable: set<string>)
    requires Enabled(w, a) && ExecutionsBehind(w)
    ensures ExecutionsBehind(Next(w, a, writable))
  {
    var after := Next(w, a, writable);
    forall id | id in after.proposals
      ensures var p := after.proposals[id];
              p.status != Approved
              && (ExecutedOnItem(p) ==> p.resource in after.items && p.currentVersion < after.items[p.resource].version)
    {
      NeverMerelyApproved(w, a, writable, id);
      if ExecutedOnItem(after.proposals[id]) {
        ExecutionSource(w, a, writable, id);
        if w.proposals[id] == after.proposals[id] {
          ItemsAdvance(w, a, writable, after.proposals[id].resource);
        }
      }
    }
  }

  lemma OnePerVersionKept(w: World, a: Action, writable: set<string>)
    requires Enabled(w, a) && ExecutionsBehind(w) && OnePerVersion(w)
    ensures OnePerVersion(Next(w, a, writable))
  {
    var after := Next(w, a, writable);
    forall i, j | i in after.proposals && j in after.proposals && SameTarget(after.proposals[i], after.proposals[j])
      ensures i == j
    {
      ExecutionSource(w, a, writable, i);
      ExecutionSource(w, a, writable, j);
      BothExecuted(w, i, j, after.proposals[i], after.proposals[j]);
    }
  }

  /** Two executions on the same version are one: an old one is behind the version a new one needs. */
  lemma BothExecuted(w: World, i: ProposalId, j: ProposalId, p: Proposal, q: Proposal)
    requires ExecutionsBehind(w) && OnePerVersion(w) && SameTarget(p, q) && i in w.proposals && j in w.proposals
    requires w.proposals[i] == p || (p.resource in w.items && w.items[p.resource].version == p.currentVersion)
    requires w.proposals[j] == q || (q.resource in w.items && w.items[q.resource].version == q.currentVersion)
    requires w.proposals[i] != p && w.proposals[j] != q ==> i == j
    ensures i == j
  {
  }

  /** In every run at most one inventory proposal per item and version is ever executed. */
  lemma {:induction false} OneExecutionPerVersion(states: seq<World>, actions: seq<Action>, writable: set<string>, i: nat)
    requires Run(states, actions, writable) && i < |states|
    ensures ExecutionsBehind(states[i]) && OnePerVersion(states[i])
  {
    if i > 0 {
      OneExecutionPerVersion(states, actions, writable, i - 1);
      assert StepAt(states, actions, writable, i - 1);
      ExecutionsStayBehind(states[i - 1], actions[i - 1], writable);
      OnePerVersionKept(states[i - 1], actions[i - 1], writable);
    }
  }

  /** This step executes an inventory proposal: the item was at the proposal's version, takes its payload
      and moves one version on. */
  predicate Executes(w: World, after: World, id: ProposalId) {
    && id in w.proposals && w.proposals[id].status == Pending
    && id in after.proposals && after.proposals[id] == w.proposals[id].(status := Executed)
    && var p := w.proposals[id];
    && p.resource in w.items && w.items[p.resource].version == p.currentVersion
    && after.items == w.items[p.resource := Edited(w.items[p.resource], p.payload)]
  }

  /** This step fails an inventory proposal: the item was gone or at another version, and no item changes. */
  predicate FailsStale(w: World, after: World, id: ProposalId) {
    && id in w.proposals && w.proposals[id].status == Pending
    && id in after.proposals && after.proposals[id] == w.proposals[id].(status := ExecutionFailed)
    && var p := w.proposals[id];
    && !(p.resource in w.items && w.items[p.resource].version == p.currentVersion)
    && after.items == w.items
  }

  /** Approving is what executes or fails an inventory proposal. */
  lemma OutcomeSource(w: World, a: Action, writable: set<string>, id: ProposalId)
    requires Enabled(w, a) && id in Next(w, a, writable).proposals
    requires id in w.proposals ==> w.proposals[id] != Next(w, a, writable).proposals[id]
    requires var p := Next(w, a, writable).proposals[id];
             ChangesInventory(p.kind) && (p.status == Executed || p.status == ExecutionFailed)
    ensures a == ApproveOne(id, if a.ApproveOne? then a.now else 0) && Approve(w, id, a.now, writable).Ok?
    ensures id in w.proposals && w.proposals[id].status == Pending && ChangesInventory(w.proposals[id].kind)
  {
  }

  lemma OutcomeStep(w: World, a: Action, writable: set<string>, id: ProposalId)
    requires Enabled(w, a) && id in Next(w, a, writable).proposals
    requires id in w.proposals ==> w.proposals[id] != Next(w, a, writable).proposals[id]
    requires var p := Next(w, a, writable).proposals[id];
             ChangesInventory(p.kind) && (p.status == Executed || p.status == ExecutionFailed)
    ensures var after := Next(w, a, writable);
            if after.proposals[id].status == Executed then Executes(w, after, id) else FailsStale(w, after, id)
  {
    OutcomeSource(w, a, writable, id);
    ApprovalOutcome(w, id, a.now, writable);
  }

  /** In every run an executed inventory proposal was executed by one earlier step that found its item at
      its version and left it one version on, and a failed one by a step that changed no item. */
  lemma {:induction false} OutcomesInRuns(states: seq<World>, actions: seq<Action>, writable: set<string>, j: nat, id: ProposalId)
    returns (i: nat)
    requires Run(states, actions, writable) && j < |states| && id in states[j].proposals
    requires ChangesInventory(states[j].proposals[id].kind)
    requires states[j].proposals[id].status == Executed || states[j].proposals[id].status == ExecutionFailed
    ensures i < j && id in states[i + 1].proposals && states[i + 1].proposals[id] == states[j].proposals[id]
    ensures if states[j].proposals[id].status == Executed
            then Executes(states[i], states[i + 1], id) else FailsStale(states[i], states[i + 1], id)
  {
    i := j - 1;
    if id in states[i].proposals && states[i].proposals[id] == states[j].proposals[id] {
      i := OutcomesInRuns(states, actions, writable, i, id);
    } else {
      assert StepAt(states, actions, writable, i);
      OutcomeStep(states[i], actions[i], writable, id);
    }
  }

  /** A decision is final: only a pending proposal ever changes, and only its status does. */
  lemma DecidedIsFinal(w: World, a: Action, writable: set<string>, id: ProposalId)
    requires Enabled(w, a) && id in w.proposals
    ensures id in Next(w, a, writable).proposals
    ensures var p, after := w.proposals[id], Next(w, a, writable).proposals[id];
            if p.status != Pending then after == p else after.(status := Pending) == p
  {
  }

  lemma DecidedStaysAt(states: seq<World>, actions: seq<Action>, writable: set<string>, id: ProposalId, i: nat)
    requires Run(states, actions, writable) && i < |actions|
    requires id in states[i].proposals && states[i].proposals[id].status != Pending
    ensures id in states[i + 1].proposals && states[i + 1].proposals[id] == states[i].proposals[id]
  {
    assert StepAt(states, actions, writable, i);
    DecidedIsFinal(states[i], actions[i], writable, id);
  }

  lemma ItemAdvancesAt(states: seq<World>, actions: seq<Action>, writable: set<string>, id: ItemId, i: nat)
    requires Run(states, actions, writable) && i < |actions| && id in states[i].items
    ensures id in states[i + 1].items
    ensures var item, after := states[i].items[id], states[i + 1].items[id];
            after.version == item.version + if SameDraft(item, after) then 0 else 1
  {
    assert StepAt(states, actions, writable, i);
    ItemsAdvance(states[i], actions[i], writable, id);
  }

  /** In every run a decided proposal stays as it was decided. */
  lemma {:induction false} DecidedStays(states: seq<World>, actions: seq<Action>, writable: set<string>, id: ProposalId,
                                        i: nat, j: nat)
    requires Run(states, actions, writable) && i <= j < |states|
    requires id in states[i].proposals && states[i].proposals[id].status != Pending
    ensures id in states[j].proposals && states[j].proposals[id] == states[i].proposals[id]
  {
    if i < j {
      DecidedStays(states, actions, writable, id, i, j - 1);
      DecidedStaysAt(states, actions, writable, id, j - 1);
    }
  }

  /** The steps of a run between two of its states that change more of this item than its quantity. */
  function Changes(states: seq<World>, id: ItemId, from: nat, to: nat): nat
    requires to < |states|
  {
    if to <= from then 0
    else
      var (before, after) := (states[to - 1].items, states[to].items);
      Changes(states, id, from, to - 1) + if id in before && id in after && !SameDraft(before[id], after[id]) then 1 else 0
  }

  /** In every run the version of an item has risen by exactly the number of its changes, those of its
      quantity apart. */
  lemma {:induction false} VersionCountsChanges(states: seq<World>, actions: seq<Action>, writable: set<string>, id: ItemId,
                                                from: nat, to: nat)
    requires Run(states, actions, writable) && from <= to < |states| && id in states[from].items
    ensures id in states[to].items
    ensures states[to].items[id].version == states[from].items[id].version + Changes(states, id, from, to)
  {
    if from < to {
      VersionCountsChanges(states, actions, writable, id, from, to - 1);
      ItemAdvancesAt(states, actions, writable, id, to - 1);
    }
  }

  // ---------------------------------------------------------------- draft history

  /** The history of a draft is versions 1..version in order, ends in its current status, and an
      approved entry is followed only by a superseded one. */
  predicate HistoryExact(draft: Draft, entries: seq<Entry>) {
    && |entries| == draft.version >= 1
    && (forall k :: 0 <= k < |entries| ==> entries[k].version == k + 1)
    && entries[|entries| - 1].status == draft.status
    && (forall k :: 0 <= k < |entries| - 1 && entries[k].status == DraftApproved ==> entries[k + 1].status == DraftSuperseded)
  }

  ghost predicate HistoriesExact(w: World) {
    forall id :: id in w.drafts ==> HistoryExact(w.drafts[id], HistoryOf(w, id))
  }

  lemma AppendKeepsHistory(draft: Draft, entries: seq<Entry>, status: DraftStatus)
    requires HistoryExact(draft, entries) && (draft.status == DraftApproved ==> status == DraftSuperseded)
    ensures HistoryExact(Draft(draft.version + 1, status), entries + [Entry(draft.version + 1, status)])
  {
  }

  /** A draft is created with its first version, left alone, or moved to its next version. */
  lemma DraftSource(w: World, a: Action, writable: set<string>, id: DraftId)
    requires Enabled(w, a) && id in Next(w, a, writable).drafts
    ensures var after := Next(w, a, writable);
            var draft, entries := after.drafts[id], HistoryOf(after, id);
            if id !in w.drafts then draft == Draft(1, DraftOpen) && entries == [Entry(1, DraftOpen)]
            else if draft == w.drafts[id] then entries == HistoryOf(w, id)
            else
              && draft.version == w.drafts[id].version + 1
              && entries == HistoryOf(w, id) + [Entry(draft.version, draft.status)]
              && (w.drafts[id].status == DraftApproved ==> draft.status == DraftSuperseded)
  {
  }

  /** In every run the history of every draft is exact. */
  lemma {:induction false} HistoriesStayExact(states: seq<World>, actions: seq<Action>, writable: set<string>, i: nat)
    requires Run(states, actions, writable) && i < |states|
    ensures HistoriesExact(states[i])
  {
    if i > 0 {
      var w, a := states[i - 1], actions[i - 1];
      HistoriesStayExact(states, actions, writable, i - 1);
      assert StepAt(states, actions, writable, i - 1);
      forall id | id in states[i].drafts ensures HistoryExact(states[i].drafts[id], HistoryOf(states[i], id)) {
        HistoryKept(w, a, writable, id);
      }
    }
  }

  lemma HistoryKept(w: World, a: Action, writable: set<string>, id: DraftId)
    requires Enabled(w, a) && HistoriesExact(w) && id in Next(w, a, writable).drafts
    ensures HistoryExact(Next(w, a, writable).drafts[id], HistoryOf(Next(w, a, writable), id))
  {
    DraftSource(w, a, writable, id);
    if id in w.drafts && Next(w, a, writable).drafts[id] != w.drafts[id] {
      AppendKeepsHistory(w.drafts[id], HistoryOf(w, id), Next(w, a, writable).drafts[id].status);
    }
  }

  // ---------------------------------------------------------------- what each operation does to its rows

  /** An edit writes every field of its payload and no other, leaves the quantity, and counts one version. */
  lemma EditWritesPayload(item: Item, changes: map<string, string>, field: string)
    ensures var after := Edited(item, changes);
            && after.version == item.version + 1 && after.quantity == item.quantity
            && (field in after.fields <==> field in item.fields || field in changes)
            && (field in changes ==> after.fields[field] == changes[field])
            && (field in item.fields && field !in changes ==> after.fields[field] == item.fields[field])
  {}

  /** An edit goes through exactly for writable fields of an item that is at the expected version. */
  lemma EditsExactly(w: World, id: ItemId, expected: nat, changes: map<string, string>, writable: set<string>)
    ensures UpdateItem(w, id, expected, changes, writable).Ok? <==>
            (forall field | field in changes :: field in writable) && id in w.items && w.items[id].version == expected
    ensures UpdateItem(w, id, expected, changes, writable).Ok? ==>
              UpdateItem(w, id, expected, changes, writable).value == w.(items := w.items[id := Edited(w.items[id], changes)])
  {}

  /** In every run an executed inventory proposal wrote each field of its payload into its item. */
  lemma ExecutionWritesPayload(states: seq<World>, actions: seq<Action>, writable: set<string>, j: nat, id: ProposalId,
                               field: string) returns (i: nat)
    requires Run(states, actions, writable) && j < |states| && id in states[j].proposals
    requires ChangesInventory(states[j].proposals[id].kind) && states[j].proposals[id].status == Executed
    requires field in states[j].proposals[id].payload
    ensures i < j && var p := states[j].proposals[id];
            && p.resource in states[i].items && states[i].items[p.resource].version == p.currentVersion
            && p.resource in states[i + 1].items && states[i + 1].items[p.resource].version == p.currentVersion + 1
            && field in states[i + 1].items[p.resource].fields
            && states[i + 1].items[p.resource].fields[field] == p.payload[field]
  {
    i := OutcomesInRuns(states, actions, writable, j, id);
    var p := states[j].proposals[id];
    EditWritesPayload(states[i].items[p.resource], p.payload, field);
  }

  /** A quantity can be set exactly on an existing item to a number that is not negative, and is then the only
      thing that changes. */
  lemma QuantitySetExactly(w: World, id: ItemId, quantity: int)
    ensures SetQuantity(w, id, quantity).Ok? <==> quantity >= 0 && id in w.items
    ensures SetQuantity(w, id, quantity).Ok? ==>
              var after := SetQuantity(w, id, quantity).value;
              && id in after.items && after.items[id].quantity == quantity
              && after == w.(items := w.items[id := Item(w.items[id].version, quantity, w.items[id].fields)])
  {}

  /** Three kinds of proposal change inventory. */
  lemma InventoryKinds(kind: Kind)
    ensures ChangesInventory(kind) <==> kind in {InventoryUpdate, IdentificationSelection, ResearchResolution}
  {}

  /** An approval is refused exactly when the proposal is missing, no longer pending or expired, when its
      fields are not writable on a current item, or when its current draft is approved already. */
  lemma ApprovalFailsExactly(w: World, id: ProposalId, now: int, writable: set<string>)
    ensures Approve(w, id, now, writable).Err? <==>
            || id !in w.proposals || w.proposals[id].status != Pending
            || (w.proposals[id].expiresAt.Some? && w.proposals[id].expiresAt.value <= now)
            || var p := w.proposals[id];
               || (ChangesInventory(p.kind) && p.resource in w.items && w.items[p.resource].version == p.currentVersion
                   && exists field | field in p.payload :: field !in writable)
               || (p.kind == ListingDraftApproval && p.resource in w.drafts && w.drafts[p.resource].version == p.currentVersion
                   && w.drafts[p.resource].status == DraftApproved)
  {}

  /** Approving a draft: a current one is approved at its next version with that entry in its history, and a
      stale one fails with every draft as it was. */
  lemma DraftApprovalOutcome(w: World, id: ProposalId, now: int, writable: set<string>)
    requires Approve(w, id, now, writable).Ok? && w.proposals[id].kind == ListingDraftApproval
    ensures var p, after := w.proposals[id], Approve(w, id, now, writable).value;
            var current := p.resource in w.drafts && w.drafts[p.resource].version == p.currentVersion;
            && after.items == w.items
            && after.proposals == w.proposals[id := p.(status := if current then Executed else ExecutionFailed)]
            && (current ==>
                  && after.drafts == w.drafts[p.resource := Draft(p.currentVersion + 1, DraftApproved)]
                  && after.history == w.history[p.resource :=
                       HistoryOf(w, p.resource) + [Entry(p.currentVersion + 1, DraftApproved)]])
            && (!current ==> after.drafts == w.drafts && after.history == w.history)
  {}

  /** The other kinds of proposal record the approval and change nothing else. */
  lemma OtherApprovalOutcome(w: World, id: ProposalId, now: int, writable: set<string>)
    requires Approve(w, id, now, writable).Ok?
    requires w.proposals[id].kind in {PricingChange, ListingVariantApproval, ArchiveRecommendation}
    ensures Approve(w, id, now, writable).value == w.(proposals := w.proposals[id := w.proposals[id].(status := Executed)])
  {}

  /** A rejection or a replacement goes through exactly for a pending proposal, a rejection only before it
      expires, and changes its status alone. */
  lemma DecisionsAre(w: World, id: ProposalId, now: int)
    ensures Decide(w, id, Rejected, now).Ok? <==>
            id in w.proposals && w.proposals[id].status == Pending
            && !(w.proposals[id].expiresAt.Some? && w.proposals[id].expiresAt.value <= now)
    ensures Decide(w, id, Rejected, now).Ok? ==>
              Decide(w, id, Rejected, now).value == w.(proposals := w.proposals[id := w.proposals[id].(status := Rejected)])
    ensures Supersede(w, id).Ok? <==> id in w.proposals && w.proposals[id].status == Pending
    ensures Supersede(w, id).Ok? ==>
              Supersede(w, id).value == w.(proposals := w.proposals[id := w.proposals[id].(status := Superseded)])
  {}

  /** Expiry ends exactly the pending proposals whose time has come. */
  lemma ExpiresExactly(w: World, now: int, id: ProposalId)
    requires id in w.proposals
    ensures id in ExpireDue(w, now).proposals && ExpireDue(w, now).items == w.items && ExpireDue(w, now).drafts == w.drafts
    ensures var p, after := w.proposals[id], ExpireDue(w, now).proposals[id];
            if p.status == Pending && p.expiresAt.Some? && p.expiresAt.value <= now
            then after == p.(status := Expired) else after == p
  {}

  /** A requested review can be approved: the draft is marked for review, and approving the proposal in time,
      with nothing in between, approves the draft at the version after that. */
  lemma RequestedReviewIsApprovable(w: World, draftId: DraftId, id: ProposalId, expiresAt: int, now: int, writable: set<string>)
    requires draftId in w.drafts && w.drafts[draftId].status != DraftApproved && now < expiresAt
    ensures var marked := RequestApproval(w, draftId, id, expiresAt);
            && marked.Ok? && draftId in marked.value.drafts && id in marked.value.proposals
            && marked.value.drafts[draftId] == Draft(w.drafts[draftId].version + 1, NeedsReview)
            && marked.value.proposals[id] ==
                 Proposal(ListingDraftApproval, draftId, w.drafts[draftId].version + 1, map["status" := "approved"], Pending, Some(expiresAt))
            && var approved := Approve(marked.value, id, now, writable);
            && approved.Ok? && draftId in approved.value.drafts
            && approved.value.drafts[draftId] == Draft(w.drafts[draftId].version + 2, DraftApproved)
  {}

  // ---------------------------------------------------------------- which error is given

  /** An edit is refused for a field that is not writable, then for a missing item, then for its version. */
  lemma EditErrors(w: World, id: ItemId, expected: nat, changes: map<string, string>, writable: set<string>, quantity: int)
    ensures var r, bad := UpdateItem(w, id, expected, changes, writable), exists field | field in changes :: field !in writable;
            && (r == Err(FieldsNotWritable) <==> bad)
            && (r == Err(NotFound) <==> !bad && id !in w.items)
            && (r == Err(VersionConflict) <==> !bad && id in w.items && w.items[id].version != expected)
    ensures SetQuantity(w, id, quantity) == Err(NegativeQuantity) <==> quantity < 0
    ensures SetQuantity(w, id, quantity) == Err(NotFound) <==> quantity >= 0 && id !in w.items
  {}

  /** A draft is not moved when it is missing, or when it is approved and not being superseded. */
  lemma DraftErrors(w: World, id: DraftId, status: DraftStatus)
    ensures SetDraftStatus(w, id, status) == Err(NotFound) <==> id !in w.drafts
    ensures SetDraftStatus(w, id, status) == Err(DraftIsApproved) <==>
            id in w.drafts && w.drafts[id].status == DraftApproved && status != DraftSuperseded
    ensures SetDraftStatus(w, id, status).Ok? <==> id in w.drafts && (w.drafts[id].status == DraftApproved ==> status == DraftSuperseded)
  {}

  /** The three refusals every decision shares: missing, then decided, then expired. */
  predicate RefusedAs(r: Result<World, Error>, w: World, id: ProposalId, now: int) {
    && (r == Err(NotFound) <==> id !in w.proposals)
    && (r == Err(NotPending) <==> id in w.proposals && w.proposals[id].status != Pending)
    && (r == Err(ProposalExpired) <==>
          && id in w.proposals && w.proposals[id].status == Pending
          && w.proposals[id].expiresAt.Some? && w.proposals[id].expiresAt.value <= now)
  }

  /** Which error a rejection, a replacement or an approval gives; an approval can after that be refused for
      its fields or for its draft. */
  lemma DecisionErrors(w: World, id: ProposalId, now: int, writable: set<string>)
    ensures RefusedAs(Decide(w, id, Rejected, now), w, id, now) && RefusedAs(Approve(w, id, now, writable), w, id, now)
    ensures Supersede(w, id) == Err(NotFound) <==> id !in w.proposals
    ensures Supersede(w, id) == Err(NotPending) <==> id in w.proposals && w.proposals[id].status != Pending
    ensures Approve(w, id, now, writable) == Err(FieldsNotWritable) ==> ChangesInventory(w.proposals[id].kind)
    ensures Approve(w, id, now, writable) == Err(DraftIsApproved) ==> w.proposals[id].kind == ListingDraftApproval
    ensures Approve(w, id, now, writable).Err? ==>
              Approve(w, id, now, writable).error in {NotFound, NotPending, ProposalExpired, FieldsNotWritable, DraftIsApproved}
  {}
}
