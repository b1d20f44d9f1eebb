/** Publishing a listing on eBay through a connection that may lose requests and responses: the
    bounded retry loop, the lookup by a deterministic SKU, and what the remote side ends up holding. */
module EbayListing {
  import opened Wrappers

  datatype Offer = Offer(sku: string, price: real, quantity: int, published: bool)

  datatype Request =
    | ListOffers(sku: string)
    | PutItem(sku: string)
    | CreateOffer(sku: string, price: real, quantity: int)
    | PublishOffer(offer: nat)
    | GetOffer(offer: nat)

  /** The remote side: its offers, called by position, its inventory items, and every request sent to it. */
  datatype Net = Net(offers: seq<Offer>, items: set<string>, sent: seq<Request>)

  /** What goes wrong with one HTTP attempt, before or after the remote acted on it. */
  datatype Fault =
    | NoFault
    | LostBefore
    | LostAfter
    | ErrorBefore(code: nat)
    | ErrorAfter(code: nat)
    | Unreadable
    | EmptyBody
    | Altered(price: real, quantity: int)

  datatype Body = Offers(ids: seq<nat>) | Created(id: nat) | Found(offer: Offer) | Empty

  datatype Reply = Lost | Status(code: nat) | NotJson | Answer(body: Body)

  datatype Failure = Failure(category: string, status: Option<nat>)

  // ---------------------------------------------------------------- the remote side

  predicate Acts(fault: Fault) {
    !fault.LostBefore? && !fault.ErrorBefore?
  }

  function Act(net: Net, request: Request, fault: Fault): Net {
    match request
    case PutItem(sku) => net.(items := net.items + {sku})
    case CreateOffer(sku, price, quantity) =>
      var stored := if fault.Altered? then Offer(sku, fault.price, fault.quantity, false)
                    else Offer(sku, price, quantity, false);
      net.(offers := net.offers + [stored])
    case PublishOffer(id) =>
      if id < |net.offers| then net.(offers := net.offers[id := net.offers[id].(published := true)]) else net
    case _ => net
  }

  function Matching(offers: seq<Offer>, sku: string): (ids: seq<nat>)
    ensures forall id | id in ids :: id < |offers| && offers[id].sku == sku
    ensures forall id: nat | id < |offers| && offers[id].sku == sku :: id in ids
  {
    if offers == [] then []
    else
      var last := |offers| - 1;
      Matching(offers[..last], sku) + if offers[last].sku == sku then [last] else []
  }

  function Content(before: Net, net: Net, request: Request): Reply {
    match request
    case ListOffers(sku) => Answer(Offers(Matching(net.offers, sku)))
    case PutItem(_) => Answer(Empty)
    case CreateOffer(_, _, _) => Answer(Created(|before.offers|))
    case PublishOffer(id) => if id < |net.offers| then Answer(Empty) else Status(404)
    case GetOffer(id) => if id < |net.offers| then Answer(Found(net.offers[id])) else Status(404)
  }

  /** A lookup is answered with 404 or an empty page only when the remote holds no such offer. */
  predicate Truthful(net: Net, request: Request, fault: Fault) {
    request.ListOffers? && (fault.EmptyBody? || (fault.ErrorBefore? && fault.code == 404) || (fault.ErrorAfter? && fault.code == 404))
    ==> Matching(net.offers, request.sku) == []
  }

  datatype Served = Served(net: Net, reply: Reply)

  function Serve(net: Net, request: Request, fault: Fault): Served {
    var received := net.(sent := net.sent + [request]);
    var after := if Acts(fault) then Act(received, request, fault) else received;
    Served(after,
           if !Truthful(net, request, fault) then Content(received, after, request)
           else match fault
                case LostBefore => Lost
                case LostAfter => Lost
                case ErrorBefore(code) => if code >= 400 then Status(code) else NotJson
                case ErrorAfter(code) => if code >= 400 then Status(code) else NotJson
                case Unreadable => NotJson
                case EmptyBody => Answer(Empty)
                case _ => Content(received, after, request))
  }

  // ---------------------------------------------------------------- one request with its retries

  function StatusCategory(code: nat): string {
    if code == 401 then "authentication"
    else if code == 403 then "authorization"
    else if code == 404 then "not_found"
    else if code == 409 then "conflict"
    else if code in {408, 425, 500, 502, 503, 504} then "temporary_remote"
    else if code in {400, 405, 406, 415, 422} then "validation"
    else "permanent_remote"
  }

  function Next(script: seq<Fault>): Fault {
    if script == [] then NoFault else script[0]
  }

  function Rest(script: seq<Fault>): seq<Fault> {
    if script == [] then [] else script[1..]
  }

  /** The network after an exchange, the faults still to come, and what the caller got. */
  datatype Exchange = Exchange(net: Net, script: seq<Fault>, result: Result<Body, Failure>)

  predicate Retried(reply: Reply) {
    reply.Lost? || (reply.Status? && reply.code in {500, 502, 503, 504})
  }

  function Verdict(reply: Reply): Result<Body, Failure> {
    match reply
    case Lost => Err(Failure("transport", None))
    case Status(code) => Err(Failure(if code == 429 then "rate_limit" else StatusCategory(code), Some(code)))
    case NotJson => Err(Failure("transport", None))
    case Answer(body) => Ok(body)
  }

  function SendAll(net: Net, script: seq<Fault>, request: Request, attempts: nat): Exchange
    requires attempts > 0
    decreases attempts
  {
    var served := Serve(net, request, Next(script));
    if Retried(served.reply) && attempts > 1
    then SendAll(served.net, Rest(script), request, attempts - 1)
    else Exchange(served.net, Rest(script), Verdict(served.reply))
  }

  class EbayTransport {
    const maxRetries: nat
    var net: Net
    var script: seq<Fault>

    constructor (maxRetries: nat, net: Net, script: seq<Fault>)
      ensures this.maxRetries == maxRetries && this.net == net && this.script == script
    {
      this.maxRetries, this.net, this.script := maxRetries, net, script;
    }

    method Send(request: Request, retrySafe: bool) returns (result: Result<Body, Failure>)
      modifies this
      ensures Exchange(net, script, result) ==
              SendAll(old(net), old(script), request, if retrySafe then maxRetries + 1 else 1)
    {
      var attempts := if retrySafe then maxRetries + 1 else 1;
      var attempt := 0;
      while attempt < attempts
        invariant 0 <= attempt < attempts
        invariant SendAll(net, script, request, attempts - attempt) ==
                  SendAll(old(net), old(script), request, attempts)
        decreases attempts - attempt
      {
        var served := Serve(net, request, Next(script));
        net, script := served.net, Rest(script);
        if Retried(served.reply) && attempt + 1 < attempts {
          attempt := attempt + 1;
        } else {
          return Verdict(served.reply);
        }
      }
    }
  }

  // ---------------------------------------------------------------- creating a listing

  datatype Settings = Settings(location: string, paymentPolicy: string, fulfillmentPolicy: string, returnPolicy: string)

  datatype ListingRequest = ListingRequest(
    item: string,
    title: string,
    description: string,
    price: real,
    quantity: int,
    category: string,
    condition: string,
    images: Option<seq<string>>)

  predicate Blank(s: string) {
    forall c | c in s :: c in " \t\n\r"
  }

  predicate StartsWith(s: string, prefix: string) {
    |prefix| <= |s| && s[..|prefix|] == prefix
  }

  predicate Valid(r: ListingRequest, settings: Settings) {
    && r.category != "" && r.condition != ""
    && settings.location != "" && settings.paymentPolicy != "" && settings.fulfillmentPolicy != "" && settings.returnPolicy != ""
    && r.price > 0.0 && r.quantity >= 1 && !Blank(r.title) && !Blank(r.description)
    && r.images.Some? && r.images.value != [] && forall url | url in r.images.value :: StartsWith(url, "https://")
  }

  function Sku(r: ListingRequest): string {
    "goliath-" + r.item
  }

  datatype ListingResult = Listed(offer: nat, replay: bool) | NotListed(category: string)

  datatype Publication = Publication(net: Net, script: seq<Fault>, result: ListingResult)

  /** The offers of a page that carry the SKU; an error page is a failure unless it says not found. */
  function Lookup(found: Result<Body, Failure>): Result<Option<nat>, Failure> {
    match found
    case Err(failure) => if failure.status == Some(404) then Ok(None) else Err(failure)
    case Ok(Offers(ids)) =>
      if |ids| > 1 then Err(Failure("conflict", None))
      else if ids == [] then Ok(None)
      else Ok(Some(ids[0]))
    case Ok(_) => Ok(None)
  }

  function Failed(e: Exchange): Publication
    requires e.result.Err?
  {
    Publication(e.net, e.script, NotListed(e.result.error.category))
  }

  function ReadBack(e: Exchange, r: ListingRequest, offer: nat): Publication {
    if e.result.Err? then Failed(e)
    else
      Publication(e.net, e.script,
                  if !e.result.value.Found? then NotListed("validation")
                  else if e.result.value.offer.price != r.price || e.result.value.offer.quantity != r.quantity
                  then NotListed("verification")
                  else Listed(offer, false))
  }

  function PublishAndRead(net: Net, script: seq<Fault>, r: ListingRequest, offer: nat, retries: nat): Publication {
    var published := SendAll(net, script, PublishOffer(offer), 1);
    if published.result.Err? then Failed(published)
    else ReadBack(SendAll(published.net, published.script, GetOffer(offer), retries + 1), r, offer)
  }

  function CreateAndPublish(net: Net, script: seq<Fault>, r: ListingRequest, retries: nat): Publication {
    var put := SendAll(net, script, PutItem(Sku(r)), retries + 1);
    if put.result.Err? then Failed(put)
    else
      var created := SendAll(put.net, put.script, CreateOffer(Sku(r), r.price, r.quantity), 1);
      if created.result.Err? then Failed(created)
      else if !created.result.value.Created? then
        Publication(created.net, created.script, NotListed("permanent_remote"))
      else PublishAndRead(created.net, created.script, r, created.result.value.id, retries)
  }

  function Create(net: Net, script: seq<Fault>, r: ListingRequest, settings: Settings, retries: nat): Publication {
    if !Valid(r, settings) then Publication(net, script, NotListed("validation"))
    else
      var page := SendAll(net, script, ListOffers(Sku(r)), retries + 1);
      match Lookup(page.result)
      case Err(failure) => Publication(page.net, page.script, NotListed(failure.category))
      case Ok(Some(offer)) => Publication(page.net, page.script, Listed(offer, true))
      case Ok(None) => CreateAndPublish(page.net, page.script, r, retries)
  }

  class EbayMarketplaceAdapter {
    const settings: Settings
    const transport: EbayTransport

    constructor (settings: Settings, transport: EbayTransport)
      ensures this.settings == settings && this.transport == transport
    {
      this.settings, this.transport := settings, transport;
    }

    method FindOfferBySku(sku: string) returns (found: Result<Option<nat>, Failure>)
      modifies transport
      ensures var page := SendAll(old(transport.net), old(transport.script), ListOffers(sku), transport.maxRetries + 1);
              transport.net == page.net && transport.script == page.script && found == Lookup(page.result)
    {
      var page := transport.Send(ListOffers(sku), true);
      found := Lookup(page);
    }

    method CreateListing(r: ListingRequest) returns (result: ListingResult)
      modifies transport
      ensures Publication(transport.net, transport.script, result) ==
              Create(old(transport.net), old(transport.script), r, settings, transport.maxRetries)
    {
      if !Valid(r, settings) {
        return NotListed("validation");
      }
      var found := FindOfferBySku(Sku(r));
      if found.Err? {
        return NotListed(found.error.category);
      }
      if found.value.Some? {
        return Listed(found.value.value, true);
      }
      var put := transport.Send(PutItem(Sku(r)), true);
      if put.Err? {
        return NotListed(put.error.category);
      }
      var created := transport.Send(CreateOffer(Sku(r), r.price, r.quantity), false);
      if created.Err? {
        return NotListed(created.error.category);
      }
      if !created.value.Created? {
        return NotListed("permanent_remote");
      }
      var published := transport.Send(PublishOffer(created.value.id), false);
      if published.Err? {
        return NotListed(published.error.category);
      }
      var readback := transport.Send(GetOffer(created.value.id), true);
      if readback.Err? {
        return NotListed(readback.error.category);
      }
      if !readback.value.Found? {
        return NotListed("validation");
      }
      if readback.value.offer.price != r.price || readback.value.offer.quantity != r.quantity {
        return NotListed("verification");
      }
      result := Listed(created.value.id, false);
    }
  }

  // ---------------------------------------------------------------- one exchange

  /** The log has only grown, and only by this request. */
  predicate GrewBy(before: seq<Request>, after: seq<Request>, request: Request) {
    |before| <= |after| && after[..|before|] == before && forall i | |before| <= i < |after| :: after[i] == request
  }

  lemma GrewByOneMore(before: seq<Request>, after: seq<Request>, request: Request)
    requires GrewBy(before + [request], after, request)
    ensures GrewBy(before, after, request)
  {
    assert after[..|before|] == after[..|before| + 1][..|before|];
    assert after[|before|] == after[..|before| + 1][|before|];
  }

  /** The request goes out at least once and at most `attempts` times, and nothing else does. */
  lemma {:induction false} SendIsBounded(net: Net, script: seq<Fault>, request: Request, attempts: nat)
    requires attempts > 0
    ensures var sent := SendAll(net, script, request, attempts).net.sent;
            |net.sent| < |sent| <= |net.sent| + attempts && GrewBy(net.sent, sent, request)
    decreases attempts
  {
    var served := Serve(net, request, Next(script));
    assert served.net.sent == net.sent + [request];
    if Retried(served.reply) && attempts > 1 {
      SendIsBounded(served.net, Rest(script), request, attempts - 1);
      GrewByOneMore(net.sent, SendAll(net, script, request, attempts).net.sent, request);
    }
  }

  predicate LeavesOffers(request: Request) {
    request.ListOffers? || request.PutItem? || request.GetOffer?
  }

  lemma {:induction false} ReadsLeaveOffers(net: Net, script: seq<Fault>, request: Request, attempts: nat)
    requires attempts > 0 && LeavesOffers(request)
    ensures SendAll(net, script, request, attempts).net.offers == net.offers
    decreases attempts
  {
    var served := Serve(net, request, Next(script));
    if Retried(served.reply) && attempts > 1 {
      ReadsLeaveOffers(served.net, Rest(script), request, attempts - 1);
    }
  }

  /** However often a lookup is retried, it finds exactly the offers the remote holds, or fails. */
  lemma {:induction false} LookupIsTrue(net: Net, script: seq<Fault>, sku: string, attempts: nat)
    requires attempts > 0
    ensures var e := SendAll(net, script, ListOffers(sku), attempts);
            var ids := Matching(net.offers, sku);
            && e.net.offers == net.offers
            && match Lookup(e.result)
               case Ok(None) => ids == []
               case Ok(Some(id)) => ids == [id]
               case Err(_) => true
    decreases attempts
  {
    var served := Serve(net, ListOffers(sku), Next(script));
    if Retried(served.reply) && attempts > 1 {
      LookupIsTrue(served.net, Rest(script), sku, attempts - 1);
    }
  }

  /** A create request adds one offer or none, and an answer naming an offer names the added one. */
  lemma CreateAddsOne(net: Net, script: seq<Fault>, sku: string, price: real, quantity: int)
    ensures var e := SendAll(net, script, CreateOffer(sku, price, quantity), 1);
            && (e.net.offers == net.offers ||
                (|e.net.offers| == |net.offers| + 1 && e.net.offers[..|net.offers|] == net.offers &&
                 e.net.offers[|net.offers|].sku == sku))
            && (e.result.Ok? && e.result.value.Created? ==>
                  e.result.value.id == |net.offers| && |e.net.offers| == |net.offers| + 1)
  {}

  /** The same offers, some of them published since. */
  predicate SameOffers(before: seq<Offer>, after: seq<Offer>) {
    && |before| == |after|
    && forall i | 0 <= i < |before| :: after[i] == before[i] || after[i] == before[i].(published := true)
  }

  lemma PublishKeepsOffers(net: Net, script: seq<Fault>, offer: nat)
    ensures var e := SendAll(net, script, PublishOffer(offer), 1);
            && SameOffers(net.offers, e.net.offers)
            && (e.result.Ok? && offer < |net.offers| ==> e.net.offers[offer].published)
  {}

  /** A read-back that names an offer names it as the remote holds it. */
  lemma {:induction false} ReadBackIsTrue(net: Net, script: seq<Fault>, offer: nat, attempts: nat)
    requires attempts > 0
    ensures var e := SendAll(net, script, GetOffer(offer), attempts);
            e.net.offers == net.offers &&
            (e.result.Ok? && e.result.value.Found? ==> offer < |net.offers| && e.result.value.offer == net.offers[offer])
    decreases attempts
  {
    var served := Serve(net, GetOffer(offer), Next(script));
    if Retried(served.reply) && attempts > 1 {
      ReadBackIsTrue(served.net, Rest(script), offer, attempts - 1);
    }
  }

  // ---------------------------------------------------------------- one call

  /** At most one offer more than before, under the SKU. */
  predicate AddsAtMostOne(before: seq<Offer>, after: seq<Offer>, sku: string) {
    SameOffers(before, after) ||
    (|after| == |before| + 1 && SameOffers(before, after[..|before|]) && after[|before|].sku == sku)
  }

  lemma PublishAndReadKeeps(net: Net, script: seq<Fault>, r: ListingRequest, offer: nat, retries: nat)
    ensures var p := PublishAndRead(net, script, r, offer, retries);
            && SameOffers(net.offers, p.net.offers)
            && !(p.result.Listed? && p.result.replay)
            && (p.result.Listed? ==>
                  && p.result.offer == offer && offer < |p.net.offers| && p.net.offers[offer].published
                  && p.net.offers[offer].price == r.price && p.net.offers[offer].quantity == r.quantity)
  {
    PublishKeepsOffers(net, script, offer);
    var published := SendAll(net, script, PublishOffer(offer), 1);
    ReadBackIsTrue(published.net, published.script, offer, retries + 1);
  }

  lemma CreateAndPublishAdds(net: Net, script: seq<Fault>, r: ListingRequest, retries: nat)
    ensures var p := CreateAndPublish(net, script, r, retries);
            && AddsAtMostOne(net.offers, p.net.offers, Sku(r))
            && !(p.result.Listed? && p.result.replay)
            && (p.result.Listed? ==>
                  && p.result.offer == |net.offers| && |p.net.offers| == |net.offers| + 1
                  && p.net.offers[|net.offers|] == Offer(Sku(r), r.price, r.quantity, true))
  {
    ReadsLeaveOffers(net, script, PutItem(Sku(r)), retries + 1);
    var put := SendAll(net, script, PutItem(Sku(r)), retries + 1);
    CreateAddsOne(put.net, put.script, Sku(r), r.price, r.quantity);
    var created := SendAll(put.net, put.script, CreateOffer(Sku(r), r.price, r.quantity), 1);
    if created.result.Ok? && created.result.value.Created? {
      PublishAndReadKeeps(created.net, created.script, r, created.result.value.id, retries);
    }
  }

  ghost predicate OnePerSku(offers: seq<Offer>) {
    forall i, j | 0 <= i < j < |offers| :: offers[i].sku != offers[j].sku
  }

  /** A call adds an offer only under its own SKU and only where there was none. */
  lemma CallAddsOnlyWhereNone(net: Net, script: seq<Fault>, r: ListingRequest, settings: Settings, retries: nat)
    ensures var p := Create(net, script, r, settings, retries);
            if Matching(net.offers, Sku(r)) == []
            then AddsAtMostOne(net.offers, p.net.offers, Sku(r))
            else p.net.offers == net.offers
  {
    LookupIsTrue(net, script, Sku(r), retries + 1);
    var page := SendAll(net, script, ListOffers(Sku(r)), retries + 1);
    CreateAndPublishAdds(page.net, page.script, r, retries);
  }

  lemma AddKeepsOnePerSku(before: seq<Offer>, after: seq<Offer>, sku: string)
    requires OnePerSku(before) && Matching(before, sku) == [] && AddsAtMostOne(before, after, sku)
    ensures OnePerSku(after)
  {
    assert forall i: nat | i < |before| && before[i].sku == sku :: i in Matching(before, sku);
    assert forall i | 0 <= i < |before| :: after[i] == after[..|before|][i] && after[i].sku == before[i].sku;
  }

  lemma CallKeepsOnePerSku(net: Net, script: seq<Fault>, r: ListingRequest, settings: Settings, retries: nat)
    requires OnePerSku(net.offers)
    ensures OnePerSku(Create(net, script, r, settings, retries).net.offers)
  {
    CallAddsOnlyWhereNone(net, script, r, settings, retries);
    if Matching(net.offers, Sku(r)) == [] {
      AddKeepsOnePerSku(net.offers, Create(net, script, r, settings, retries).net.offers, Sku(r));
    }
  }

  /** Every offer of the SKU is live. */
  predicate AllPublished(offers: seq<Offer>, sku: string) {
    forall i | 0 <= i < |offers| && offers[i].sku == sku :: offers[i].published
  }

  /** Success names the only offer of the SKU, at the requested price when there was none before. It is
      live exactly when every offer of the SKU held before the call was. */
  lemma ListedIsLiveExactly(net: Net, script: seq<Fault>, r: ListingRequest, settings: Settings, retries: nat)
    requires OnePerSku(net.offers) && Create(net, script, r, settings, retries).result.Listed?
    ensures var p := Create(net, script, r, settings, retries);
            var id := p.result.offer;
            && id < |p.net.offers| && p.net.offers[id].sku == Sku(r)
            && (forall i | 0 <= i < |p.net.offers| && p.net.offers[i].sku == Sku(r) :: i == id)
            && (p.result.replay <==> Matching(net.offers, Sku(r)) != [])
            && (p.result.replay ==> p.net.offers == net.offers)
            && (!p.result.replay ==> p.net.offers[id] == Offer(Sku(r), r.price, r.quantity, true))
            && (p.net.offers[id].published <==> AllPublished(net.offers, Sku(r)))
  {
    CallKeepsOnePerSku(net, script, r, settings, retries);
    LookupIsTrue(net, script, Sku(r), retries + 1);
    var page := SendAll(net, script, ListOffers(Sku(r)), retries + 1);
    CreateAndPublishAdds(page.net, page.script, r, retries);
    var p := Create(net, script, r, settings, retries);
    if p.result.replay {
      assert p.result.offer in Matching(net.offers, Sku(r));
    }
    assert p.result.offer < |p.net.offers| && p.net.offers[p.result.offer].sku == Sku(r);
  }

  // ---------------------------------------------------------------- calls in sequence

  datatype Remote = Remote(net: Net, script: seq<Fault>)

  function Calls(net: Net, script: seq<Fault>, requests: seq<ListingRequest>, settings: Settings, retries: nat): Remote {
    if requests == [] then Remote(net, script)
    else
      var before := Calls(net, script, requests[..|requests| - 1], settings, retries);
      var p := Create(before.net, before.script, requests[|requests| - 1], settings, retries);
      Remote(p.net, p.script)
  }

  /** However often listings are created, and wherever requests and responses are lost, the remote
      holds at most one offer for each SKU. */
  lemma {:induction false} OneOfferPerSku(net: Net, script: seq<Fault>, requests: seq<ListingRequest>, settings: Settings, retries: nat)
    requires OnePerSku(net.offers)
    ensures OnePerSku(Calls(net, script, requests, settings, retries).net.offers)
  {
    if requests != [] {
      var init := requests[..|requests| - 1];
      OneOfferPerSku(net, script, init, settings, retries);
      var before := Calls(net, script, init, settings, retries);
      CallKeepsOnePerSku(before.net, before.script, requests[|requests| - 1], settings, retries);
    }
  }

  // ---------------------------------------------------------------- what a call sends

  function Creates(sent: seq<Request>): nat {
    if sent == [] then 0 else Creates(sent[..|sent| - 1]) + if sent[|sent| - 1].CreateOffer? then 1 else 0
  }

  lemma {:induction false} NoMoreCreates(before: seq<Request>, after: seq<Request>)
    requires |before| <= |after| && after[..|before|] == before
    requires forall i | |before| <= i < |after| :: !after[i].CreateOffer?
    ensures Creates(after) == Creates(before)
    decreases |after|
  {
    if |before| < |after| {
      assert after[..|after| - 1][..|before|] == before;
      NoMoreCreates(before, after[..|after| - 1]);
    } else {
      assert after == before;
    }
  }

  lemma SendCreates(net: Net, script: seq<Fault>, request: Request, attempts: nat)
    requires attempts > 0 && (request.CreateOffer? ==> attempts == 1)
    ensures Creates(SendAll(net, script, request, attempts).net.sent) ==
            Creates(net.sent) + if request.CreateOffer? then 1 else 0
  {
    SendIsBounded(net, script, request, attempts);
    var sent := SendAll(net, script, request, attempts).net.sent;
    if request.CreateOffer? {
      assert sent[..|sent| - 1] == net.sent;
    } else {
      NoMoreCreates(net.sent, sent);
    }
  }

  lemma PublishAndReadCreates(net: Net, script: seq<Fault>, r: ListingRequest, offer: nat, retries: nat)
    ensures Creates(PublishAndRead(net, script, r, offer, retries).net.sent) == Creates(net.sent)
  {
    SendCreates(net, script, PublishOffer(offer), 1);
    var published := SendAll(net, script, PublishOffer(offer), 1);
    SendCreates(published.net, published.script, GetOffer(offer), retries + 1);
  }

  lemma CreateAndPublishCreates(net: Net, script: seq<Fault>, r: ListingRequest, retries: nat)
    ensures Creates(net.sent) <= Creates(CreateAndPublish(net, script, r, retries).net.sent) <= Creates(net.sent) + 1
  {
    SendCreates(net, script, PutItem(Sku(r)), retries + 1);
    var put := SendAll(net, script, PutItem(Sku(r)), retries + 1);
    SendCreates(put.net, put.script, CreateOffer(Sku(r), r.price, r.quantity), 1);
    var created := SendAll(put.net, put.script, CreateOffer(Sku(r), r.price, r.quantity), 1);
    if created.result.Ok? && created.result.value.Created? {
      PublishAndReadCreates(created.net, created.script, r, created.result.value.id, retries);
    }
  }

  /** A call sends its create request at most once, and never while the remote holds an offer of the SKU. */
  lemma CreateIsSentOnce(net: Net, script: seq<Fault>, r: ListingRequest, settings: Settings, retries: nat)
    ensures var sent := Create(net, script, r, settings, retries).net.sent;
            && Creates(net.sent) <= Creates(sent) <= Creates(net.sent) + 1
            && (Matching(net.offers, Sku(r)) != [] ==> Creates(sent) == Creates(net.sent))
  {
    SendCreates(net, script, ListOffers(Sku(r)), retries + 1);
    LookupIsTrue(net, script, Sku(r), retries + 1);
    var page := SendAll(net, script, ListOffers(Sku(r)), retries + 1);
    CreateAndPublishCreates(page.net, page.script, r, retries);
  }

  // ---------------------------------------------------------------- a lost publish request

  lemma Faultless(net: Net, script: seq<Fault>, request: Request, attempts: nat)
    requires attempts > 0 && Next(script) == NoFault && !request.PublishOffer? && !request.GetOffer?
    ensures var received := net.(sent := net.sent + [request]);
            var after := Act(received, request, NoFault);
            SendAll(net, script, request, attempts) == Exchange(after, Rest(script), Verdict(Content(received, after, request)))
  {}

  /** A faultless call finds the offer of its SKU again and changes nothing. */
  lemma FoundAgain(net: Net, r: ListingRequest, settings: Settings, retries: nat, id: nat)
    requires Valid(r, settings) && Matching(net.offers, Sku(r)) == [id]
    ensures var p := Create(net, [], r, settings, retries);
            p.result == Listed(id, true) && p.net.offers == net.offers
  {
    Faultless(net, [], ListOffers(Sku(r)), retries + 1);
  }

  lemma PublishIsLost(net: Net, script: seq<Fault>, r: ListingRequest, retries: nat)
    requires script == [NoFault, NoFault, LostBefore]
    ensures var p := CreateAndPublish(net, script, r, retries);
            && p.result == NotListed("transport")
            && p.net.offers == net.offers + [Offer(Sku(r), r.price, r.quantity, false)]
            && p.script == []
  {
    Faultless(net, script, PutItem(Sku(r)), retries + 1);
    var put := SendAll(net, script, PutItem(Sku(r)), retries + 1);
    assert put.script == [NoFault, LostBefore] && put.result == Ok(Empty);
    var create := CreateOffer(Sku(r), r.price, r.quantity);
    Faultless(put.net, put.script, create, 1);
    var created := SendAll(put.net, put.script, create, 1);
    assert created.script == [LostBefore] && created.result == Ok(Created(|net.offers|));
    var published := SendAll(created.net, created.script, PublishOffer(|net.offers|), 1);
    assert published.script == [] && published.result == Err(Failure("transport", None));
  }

  lemma MatchingMore(offers: seq<Offer>, offer: Offer, sku: string)
    ensures Matching(offers + [offer], sku) == Matching(offers, sku) + if offer.sku == sku then [|offers|] else []
  {
    assert (offers + [offer])[..|offers|] == offers;
  }

  /** When the publish request of a first call is lost the call fails; the next one then reports
      success for an offer that is not live. */
  lemma LostPublishIsReportedAsListed(net: Net, r: ListingRequest, settings: Settings, retries: nat)
    requires Valid(r, settings) && Matching(net.offers, Sku(r)) == []
    ensures var first := Create(net, [NoFault, NoFault, NoFault, LostBefore], r, settings, retries);
            var second := Create(first.net, first.script, r, settings, retries);
            && first.result == NotListed("transport")
            && second.result == Listed(|net.offers|, true)
            && second.net.offers == net.offers + [Offer(Sku(r), r.price, r.quantity, false)]
  {
    var script := [NoFault, NoFault, NoFault, LostBefore];
    Faultless(net, script, ListOffers(Sku(r)), retries + 1);
    var page := SendAll(net, script, ListOffers(Sku(r)), retries + 1);
    assert page.script == [NoFault, NoFault, LostBefore] && Lookup(page.result) == Ok(None);
    PublishIsLost(page.net, page.script, r, retries);
    var first := Create(net, script, r, settings, retries);
    MatchingMore(net.offers, Offer(Sku(r), r.price, r.quantity, false), Sku(r));
    FoundAgain(first.net, r, settings, retries, |net.offers|);
  }

  // ---------------------------------------------------------------- one SKU for each item

  /** Two requests share an SKU exactly when they are for the same item. */
  lemma SkusAreItems(a: ListingRequest, b: ListingRequest)
    ensures Sku(a) == Sku(b) <==> a.item == b.item
  {
    assert Sku(a)[8..] == a.item && Sku(b)[8..] == b.item;
  }

  /** The answer of one call of a sequence. */
  function AnswerAt(net: Net, script: seq<Fault>, requests: seq<ListingRequest>, i: nat, settings: Settings, retries: nat)
    : ListingResult
    requires i < |requests|
  {
    var before := Calls(net, script, requests[..i], settings, retries);
    Create(before.net, before.script, requests[i], settings, retries).result
  }

  function OffersAfter(net: Net, script: seq<Fault>, requests: seq<ListingRequest>, i: nat, settings: Settings, retries: nat)
    : seq<Offer>
    requires i <= |requests|
  {
    Calls(net, script, requests[..i], settings, retries).net.offers
  }

  predicate NamesItem(requests: seq<ListingRequest>, item: string) {
    exists k :: 0 <= k < |requests| && requests[k].item == item
  }

  lemma AddedUnderSku(before: seq<Offer>, after: seq<Offer>, sku: string, i: nat)
    requires AddsAtMostOne(before, after, sku) && i < |after|
    ensures |before| <= |after|
    ensures if i < |before| then after[i].sku == before[i].sku else after[i].sku == sku
  {
    if |after| > |before| && i < |before| {
      assert after[i] == after[..|before|][i];
    }
  }

  lemma CallAdds(net: Net, script: seq<Fault>, r: ListingRequest, settings: Settings, retries: nat)
    ensures AddsAtMostOne(net.offers, Create(net, script, r, settings, retries).net.offers, Sku(r))
  {
    CallAddsOnlyWhereNone(net, script, r, settings, retries);
  }

  lemma OneCallMore(net: Net, script: seq<Fault>, requests: seq<ListingRequest>, i: nat, settings: Settings, retries: nat)
    requires i < |requests|
    ensures AddsAtMostOne(OffersAfter(net, script, requests, i, settings, retries),
                          OffersAfter(net, script, requests, i + 1, settings, retries), Sku(requests[i]))
  {
    assert requests[..i + 1][..i] == requests[..i];
    var before := Calls(net, script, requests[..i], settings, retries);
    CallAdds(before.net, before.script, requests[i], settings, retries);
  }

  /** From a remote without offers every offer carries the SKU of an item that some call named. */
  lemma {:induction false} OffersAreNamed(net: Net, script: seq<Fault>, requests: seq<ListingRequest>, i: nat,
                                          settings: Settings, retries: nat, offer: nat) returns (k: nat)
    requires net.offers == [] && i <= |requests| && offer < |OffersAfter(net, script, requests, i, settings, retries)|
    ensures k < i && OffersAfter(net, script, requests, i, settings, retries)[offer].sku == Sku(requests[k])
  {
    k := i - 1;
    var before := OffersAfter(net, script, requests, k, settings, retries);
    OneCallMore(net, script, requests, k, settings, retries);
    AddedUnderSku(before, OffersAfter(net, script, requests, i, settings, retries), Sku(requests[k]), offer);
    if offer < |before| {
      k := OffersAreNamed(net, script, requests, k, settings, retries, offer);
    }
  }

  lemma ReplayHasOffer(net: Net, script: seq<Fault>, r: ListingRequest, settings: Settings, retries: nat)
    ensures var result := Create(net, script, r, settings, retries).result;
            result.Listed? && result.replay ==> result.offer in Matching(net.offers, Sku(r))
  {
    LookupIsTrue(net, script, Sku(r), retries + 1);
    var page := SendAll(net, script, ListOffers(Sku(r)), retries + 1);
    CreateAndPublishAdds(page.net, page.script, r, retries);
  }

  lemma NotNamed(requests: seq<ListingRequest>, i: nat, item: string)
    requires i <= |requests| && !NamesItem(requests[..i], item)
    ensures forall k | 0 <= k < i :: requests[k].item != item
  {
    forall k | 0 <= k < i ensures requests[k].item != item {
      assert requests[..i][k] == requests[k];
    }
  }

  /** From a remote without offers, a call for an item that no earlier call named is never a replay. */
  lemma NewItemIsNoReplay(net: Net, script: seq<Fault>, requests: seq<ListingRequest>, i: nat, settings: Settings, retries: nat)
    requires net.offers == [] && i < |requests| && !NamesItem(requests[..i], requests[i].item)
    ensures var answer := AnswerAt(net, script, requests, i, settings, retries);
            !(answer.Listed? && answer.replay)
  {
    var before := Calls(net, script, requests[..i], settings, retries);
    var answer := AnswerAt(net, script, requests, i, settings, retries);
    ReplayHasOffer(before.net, before.script, requests[i], settings, retries);
    NotNamed(requests, i, requests[i].item);
    if answer.Listed? && answer.replay {
      var k := OffersAreNamed(net, script, requests, i, settings, retries, answer.offer);
      SkusAreItems(requests[k], requests[i]);
    }
  }

  lemma {:induction false} SkuStays(net: Net, script: seq<Fault>, requests: seq<ListingRequest>, i: nat, j: nat,
                                    settings: Settings, retries: nat, offer: nat)
    requires i <= j <= |requests| && offer < |OffersAfter(net, script, requests, i, settings, retries)|
    ensures var later := OffersAfter(net, script, requests, j, settings, retries);
            offer < |later| && later[offer].sku == OffersAfter(net, script, requests, i, settings, retries)[offer].sku
    decreases j
  {
    if i < j {
      SkuStays(net, script, requests, i, j - 1, settings, retries, offer);
      OneCallMore(net, script, requests, j - 1, settings, retries);
      var before := OffersAfter(net, script, requests, j - 1, settings, retries);
      var after := OffersAfter(net, script, requests, j, settings, retries);
      assert |before| <= |after|;
      AddedUnderSku(before, after, Sku(requests[j - 1]), offer);
    }
  }

  /** A call that succeeds names an offer of its own item's SKU. */
  lemma AnswerIsOwnOffer(net: Net, script: seq<Fault>, requests: seq<ListingRequest>, i: nat, settings: Settings, retries: nat)
    requires net.offers == [] && i < |requests| && AnswerAt(net, script, requests, i, settings, retries).Listed?
    ensures var offers := OffersAfter(net, script, requests, i + 1, settings, retries);
            var offer := AnswerAt(net, script, requests, i, settings, retries).offer;
            offer < |offers| && offers[offer].sku == Sku(requests[i])
  {
    assert requests[..i + 1][..i] == requests[..i];
    OneOfferPerSku(net, script, requests[..i], settings, retries);
    var before := Calls(net, script, requests[..i], settings, retries);
    ListedIsLiveExactly(before.net, before.script, requests[i], settings, retries);
  }

  predicate IsOfferOf(offers: seq<Offer>, offer: nat, r: ListingRequest) {
    offer < |offers| && offers[offer].sku == Sku(r)
  }

  lemma OneOfferForEachItem(offers: seq<Offer>, a: nat, b: nat, r: ListingRequest, t: ListingRequest)
    requires OnePerSku(offers) && IsOfferOf(offers, a, r) && IsOfferOf(offers, b, t)
    ensures a == b <==> r.item == t.item
  {
    SkusAreItems(r, t);
    OneOf(offers, a, b);
  }

  lemma ItemsHaveOneOffer(net: Net, script: seq<Fault>, requests: seq<ListingRequest>, j: nat, settings: Settings, retries: nat,
                          a: nat, b: nat, r: ListingRequest, t: ListingRequest)
    requires net.offers == [] && j <= |requests|
    requires IsOfferOf(OffersAfter(net, script, requests, j, settings, retries), a, r)
    requires IsOfferOf(OffersAfter(net, script, requests, j, settings, retries), b, t)
    ensures a == b <==> r.item == t.item
  {
    OneOfferPerSku(net, script, requests[..j], settings, retries);
    OneOfferForEachItem(OffersAfter(net, script, requests, j, settings, retries), a, b, r, t);
  }

  /** A successful call of a sequence names an offer that an earlier call left, under whichever item, exactly
      when it is for that item. */
  lemma OffersAreItems(net: Net, script: seq<Fault>, requests: seq<ListingRequest>, i: nat, j: nat,
                       settings: Settings, retries: nat, a: nat, r: ListingRequest)
    requires net.offers == [] && i <= j < |requests|
    ensures var answer := AnswerAt(net, script, requests, j, settings, retries);
            answer.Listed? && IsOfferOf(OffersAfter(net, script, requests, i, settings, retries), a, r) ==>
              (answer.offer == a <==> r.item == requests[j].item)
  {
    var answer := AnswerAt(net, script, requests, j, settings, retries);
    if answer.Listed? && IsOfferOf(OffersAfter(net, script, requests, i, settings, retries), a, r) {
      AnswerIsOwnOffer(net, script, requests, j, settings, retries);
      SkuStays(net, script, requests, i, j + 1, settings, retries, a);
      ItemsHaveOneOffer(net, script, requests, j + 1, settings, retries, a, answer.offer, r, requests[j]);
    }
  }

  lemma OneOf(offers: seq<Offer>, a: nat, b: nat)
    requires OnePerSku(offers) && a < |offers| && b < |offers|
    ensures offers[a].sku == offers[b].sku <==> a == b
  {}

  // ---------------------------------------------------------------- what is sent, and how failures are named

  /** A listing is sent to eBay exactly when its fields are complete: a category, a condition, the account's
      location and three policies, a positive price and quantity, a title and a description that are not
      blank, and at least one image, all of them HTTPS. Otherwise the answer is a validation failure. */
  lemma SentExactlyWhenComplete(net: Net, script: seq<Fault>, r: ListingRequest, settings: Settings, retries: nat)
    ensures var p := Create(net, script, r, settings, retries);
            if || r.category == "" || r.condition == "" || settings.location == "" || settings.paymentPolicy == ""
               || settings.fulfillmentPolicy == "" || settings.returnPolicy == "" || r.price <= 0.0 || r.quantity < 1
               || (forall c | c in r.title :: c == ' ' || c == '\t' || c == '\n' || c == '\r')
               || (forall c | c in r.description :: c == ' ' || c == '\t' || c == '\n' || c == '\r')
               || r.images.None? || r.images.value == []
               || (exists url | url in r.images.value :: |url| < 8 || url[..8] != "https://")
            then p.result == NotListed("validation") && p.net == net
            else |p.net.sent| > |net.sent|
  {
    if Valid(r, settings) {
      SendIsBounded(net, script, ListOffers(Sku(r)), retries + 1);
      SentGrows(net, script, r, settings, retries);
    }
  }

  lemma SentGrows(net: Net, script: seq<Fault>, r: ListingRequest, settings: Settings, retries: nat)
    requires Valid(r, settings)
    ensures |Create(net, script, r, settings, retries).net.sent| > |net.sent|
  {
    SendIsBounded(net, script, ListOffers(Sku(r)), retries + 1);
    var page := SendAll(net, script, ListOffers(Sku(r)), retries + 1);
    SendIsBounded(page.net, page.script, PutItem(Sku(r)), retries + 1);
    var put := SendAll(page.net, page.script, PutItem(Sku(r)), retries + 1);
    SendIsBounded(put.net, put.script, CreateOffer(Sku(r), r.price, r.quantity), 1);
    var created := SendAll(put.net, put.script, CreateOffer(Sku(r), r.price, r.quantity), 1);
    if created.result.Ok? && created.result.value.Created? {
      var offer := created.result.value.id;
      SendIsBounded(created.net, created.script, PublishOffer(offer), 1);
      var published := SendAll(created.net, created.script, PublishOffer(offer), 1);
      SendIsBounded(published.net, published.script, GetOffer(offer), retries + 1);
    }
  }

  /** Whether a request goes out again after its first attempt: exactly when nothing came back, or one of
      four server errors did, and an attempt is left. A rate limit or any other error ends it. */
  lemma SentAgainExactly(net: Net, script: seq<Fault>, request: Request, attempts: nat)
    requires attempts > 0
    ensures var reply := Serve(net, request, Next(script)).reply;
            |SendAll(net, script, request, attempts).net.sent| > |net.sent| + 1 <==>
            attempts > 1 && (reply == Lost || reply == Status(500) || reply == Status(502) || reply == Status(503) || reply == Status(504))
  {
    var served := Serve(net, request, Next(script));
    if Retried(served.reply) && attempts > 1 {
      SendIsBounded(served.net, Rest(script), request, attempts - 1);
    }
  }

  /** Which statuses each category of failure stands for. */
  lemma CategoriesOfStatuses(code: nat)
    ensures var category := Verdict(Status(code)).error.category;
            && Verdict(Status(code)).error.status == Some(code)
            && (category == "rate_limit" <==> code == 429)
            && (category == "authentication" <==> code == 401)
            && (category == "authorization" <==> code == 403)
            && (category == "not_found" <==> code == 404)
            && (category == "conflict" <==> code == 409)
            && (category == "validation" <==> code == 400 || code == 405 || code == 406 || code == 415 || code == 422)
            && (category == "temporary_remote" <==>
                  code == 408 || code == 425 || code == 500 || code == 502 || code == 503 || code == 504)
    ensures Verdict(Lost) == Verdict(NotJson) == Err(Failure("transport", None))
  {}

  /** Two offers of one SKU are a conflict, and nothing is sent after the lookup. */
  lemma DuplicatesConflict(net: Net, r: ListingRequest, settings: Settings, retries: nat)
    requires Valid(r, settings) && |Matching(net.offers, Sku(r))| > 1
    ensures var p := Create(net, [], r, settings, retries);
            p.result == NotListed("conflict") && p.net.offers == net.offers && p.net.sent == net.sent + [ListOffers(Sku(r))]
  {
    Faultless(net, [], ListOffers(Sku(r)), retries + 1);
  }

  /** A create answer that names no offer is a permanent failure, although the offer is there: not published. */
  lemma NamelessOfferIsPermanent(net: Net, r: ListingRequest, retries: nat)
    ensures var p := CreateAndPublish(net, [NoFault, EmptyBody], r, retries);
            p.result == NotListed("permanent_remote") && p.net.offers == net.offers + [Offer(Sku(r), r.price, r.quantity, false)]
  {
    Faultless(net, [NoFault, EmptyBody], PutItem(Sku(r)), retries + 1);
    var put := SendAll(net, [NoFault, EmptyBody], PutItem(Sku(r)), retries + 1);
    assert put.script == [EmptyBody] && put.net.offers == net.offers && put.result == Ok(Empty);
    var created := SendAll(put.net, put.script, CreateOffer(Sku(r), r.price, r.quantity), 1);
    assert created.result == Ok(Empty);
  }

  /** An offer that the remote side stored with another price or quantity fails verification, and one that
      cannot be read back fails validation. */
  lemma ReadBackMismatch(net: Net, r: ListingRequest, offer: nat, retries: nat)
    requires offer < |net.offers|
    ensures var p := PublishAndRead(net, [], r, offer, retries);
            if net.offers[offer].price == r.price && net.offers[offer].quantity == r.quantity then p.result == Listed(offer, false)
            else p.result == NotListed("verification")
    ensures PublishAndRead(net, [NoFault, EmptyBody], r, offer, retries).result == NotListed("validation")
  {
    var published := SendAll(net, [], PublishOffer(offer), 1);
    assert published.net.offers == net.offers[offer := net.offers[offer].(published := true)];
    var again := SendAll(net, [NoFault, EmptyBody], PublishOffer(offer), 1);
    assert again.script == [EmptyBody];
    assert SendAll(again.net, again.script, GetOffer(offer), retries + 1).result == Ok(Empty);
  }
}
