/** The billing panel of the client page: a cart of services being billed,
    edited in place and checked out as one visit. */
module ClientDetailPage {

  import opened Outcomes
  import opened Seqs
  import opened Store
  import opened Calendar
  import opened Models
  import opened VisitController

  /** A cart line: the service, its catalog price and the price to charge. */
  datatype CartItem = CartItem(id: Id, name: string, basePrice: int, chargedPrice: int)

  /** The billing state: the cart, the service picked in the drop-down
      ("" for none), the visit notes and the visit day (None when the date
      input is cleared). */
  datatype Billing = Billing(cart: seq<CartItem>, selected: Id, notes: string, visitDay: Option<int>)

  /** The services offered for billing: the active ones, in catalog order. */
  function Offered(services: seq<Service>): (r: seq<Service>)
    ensures forall i :: 0 <= i < |r| ==> r[i].isActive && r[i] in services
    ensures forall i :: 0 <= i < |services| && services[i].isActive ==> services[i] in r
    ensures SubsequenceOf(r, services)
    ensures forall s :: multiset(r)[s] == if s.isActive then multiset(services)[s] else 0
  {
    Filter(services, Active)
  }

  /** Adding the selected service: an unknown selection changes nothing;
      otherwise one line priced at the catalog price is appended and the
      selection is cleared. */
  function AddServiceToVisit(b: Billing, offered: seq<Service>): (r: Billing)
    ensures Find(offered, ServiceKey, b.selected).None? ==> r == b
    ensures Find(offered, ServiceKey, b.selected).Some? ==>
              var svc := offered[Find(offered, ServiceKey, b.selected).value];
              && svc.id == b.selected
              && r == b.(cart := b.cart + [CartItem(svc.id, svc.name, svc.price, svc.price)], selected := [])
  {
    match Find(offered, ServiceKey, b.selected)
    case None => b
    case Some(i) =>
      var svc := offered[i];
      b.(cart := b.cart + [CartItem(svc.id, svc.name, svc.price, svc.price)], selected := [])
  }

  /** The price typed into a cart line: `Number(value) || 0`, floored at 0.
      `None` stands for input that is not a number. */
  function TypedPrice(value: Option<int>): (p: int)
    ensures p >= 0
    ensures value.Some? && value.value > 0 ==> p == value.value
    ensures value.None? || value.value <= 0 ==> p == 0
  {
    match value
    case None => 0
    case Some(n) => if n > 0 then n else 0
  }

  /** Editing the charged price of the line at `index`; every other line,
      and every other field of that line, stays as it was. */
  function UpdateChargedPrice(cart: seq<CartItem>, index: int, value: Option<int>): (r: seq<CartItem>)
    ensures |r| == |cart|
    ensures forall i :: 0 <= i < |cart| && i != index ==> r[i] == cart[i]
    ensures 0 <= index < |cart| ==> r[index] == cart[index].(chargedPrice := TypedPrice(value))
    ensures forall i :: 0 <= i < |r| && cart[i].chargedPrice >= 0 ==> r[i].chargedPrice >= 0
  {
    seq(|cart|, i requires 0 <= i < |cart| =>
      if i == index then cart[i].(chargedPrice := TypedPrice(value)) else cart[i])
  }

  /** Removing the line at `index`; the others keep their order. An index
      outside the cart removes nothing. */
  function RemoveService(cart: seq<CartItem>, index: int): (r: seq<CartItem>)
    ensures 0 <= index < |cart| ==> |r| == |cart| - 1
    ensures 0 <= index < |cart| ==> forall i :: 0 <= i < |r| ==> r[i] == cart[if i < index then i else i + 1]
    ensures !(0 <= index < |cart|) ==> r == cart
  {
    if 0 <= index < |cart| then cart[..index] + cart[index + 1..] else cart
  }

  function Charged(c: CartItem): int
  {
    c.chargedPrice
  }

  /** The running total shown under the cart. */
  function CurrentTotal(cart: seq<CartItem>): int
  {
    SumBy(cart, Charged)
  }

  /** Adding a known service raises the total by its catalog price. */
  lemma AddRaisesTotal(b: Billing, offered: seq<Service>)
    requires Find(offered, ServiceKey, b.selected).Some?
    ensures CurrentTotal(AddServiceToVisit(b, offered).cart)
              == CurrentTotal(b.cart) + offered[Find(offered, ServiceKey, b.selected).value].price
  {
    var svc := offered[Find(offered, ServiceKey, b.selected).value];
    SumBySnoc(b.cart, CartItem(svc.id, svc.name, svc.price, svc.price), Charged);
  }

  /** Editing a line moves the total by the change in that line's price. */
  lemma UpdateMovesTotal(cart: seq<CartItem>, index: int, value: Option<int>)
    requires 0 <= index < |cart|
    ensures CurrentTotal(UpdateChargedPrice(cart, index, value))
              == CurrentTotal(cart) - cart[index].chargedPrice + TypedPrice(value)
  {
    assert UpdateChargedPrice(cart, index, value) == cart[index := cart[index].(chargedPrice := TypedPrice(value))];
    SumByUpdate(cart, index, cart[index].(chargedPrice := TypedPrice(value)), Charged);
  }

  /** Removing a line lowers the total by that line's price. */
  lemma RemoveLowersTotal(cart: seq<CartItem>, index: int)
    requires 0 <= index < |cart|
    ensures CurrentTotal(RemoveService(cart, index)) == CurrentTotal(cart) - cart[index].chargedPrice
  {
    SumByRemove(cart, index, Charged);
  }

  /** The selections sent for the cart: each line's service and its price. */
  function Selections(cart: seq<CartItem>): (sels: seq<Selection>)
    ensures |sels| == |cart|
    ensures forall i :: 0 <= i < |cart| ==> sels[i] == Selection(cart[i].id, Some(cart[i].chargedPrice))
  {
    seq(|cart|, i requires 0 <= i < |cart| => Selection(cart[i].id, Some(cart[i].chargedPrice)))
  }

  /** The request body posted for the cart. The total the page also sends is
      ignored by the server, which prices the visit itself. */
  function VisitRequestFor(b: Billing, clientId: Id): VisitRequest
  {
    VisitRequest(Some(clientId), if b.visitDay.Some? then Some(StartOfDay(b.visitDay.value)) else None,
                 Some(Selections(b.cart)), Some(b.notes))
  }

  /** What a checkout did: the billing state afterwards and the server's
      answer, if a request was sent. */
  datatype Checkout = Checkout(billing: Billing, answer: Option<Result<Saved>>)

  /** Checking out: an empty cart sends nothing; otherwise the visit is
      posted and, when the server accepts it, the cart and notes are cleared.
      A refused request leaves the page as it was. */
  function AddVisit(b: Billing, clientId: Id, visits: seq<Visit>, clients: seq<Client>, catalog: seq<Service>,
                    newId: Id, now: int): (r: Checkout)
    ensures b.cart == [] <==> r.answer.None?
    ensures b.cart == [] ==> r.billing == b
    ensures r.answer.Some? ==>
              r.answer.value == CreateVisit(visits, clients, catalog, newId, now, VisitRequestFor(b, clientId))
    ensures r.answer.Some? && r.answer.value.Ok? ==> r.billing == b.(cart := [], notes := [])
    ensures r.answer.Some? && r.answer.value.Err? ==> r.billing == b
    ensures r.answer.Some? && r.answer.value.Ok? ==>
              r.answer.value.value.visit.totalAmount == CurrentTotal(b.cart)
              && r.answer.value.value.visit.notes == b.notes
  {
    if b.cart == [] then Checkout(b, None)
    else
      var answer := CreateVisit(visits, clients, catalog, newId, now, VisitRequestFor(b, clientId));
      if answer.Ok? then
        ServerTotalIsCartTotal(b, clientId, visits, clients, catalog, newId, now);
        Checkout(b.(cart := [], notes := []), Some(answer))
      else Checkout(b, Some(answer))
  }

  /** The server prices an accepted cart exactly as the page showed it. */
  lemma ServerTotalIsCartTotal(b: Billing, clientId: Id, visits: seq<Visit>, clients: seq<Client>,
                               catalog: seq<Service>, newId: Id, now: int)
    requires CreateVisit(visits, clients, catalog, newId, now, VisitRequestFor(b, clientId)).Ok?
    ensures CreateVisit(visits, clients, catalog, newId, now, VisitRequestFor(b, clientId)).value.visit.totalAmount
              == CurrentTotal(b.cart)
  {
    var v := CreateVisit(visits, clients, catalog, newId, now, VisitRequestFor(b, clientId)).value.visit;
    var sels := Selections(b.cart);
    assert forall i :: 0 <= i < |v.services| ==> LineCharge(v.services[i]) == Charged(b.cart[i]);
    SumByPointwise(v.services, LineCharge, b.cart, Charged);
  }

  /** A cart holding the same service twice is refused by the server with
      400, whatever else it holds. */
  lemma RepeatedServiceRefused(b: Billing, clientId: Id, visits: seq<Visit>, clients: seq<Client>,
                               catalog: seq<Service>, newId: Id, now: int, i: nat, j: nat)
    requires UniqueKeys(catalog, ServiceKey)
    requires ClientExists(clients, clientId)
    requires i < j < |b.cart| && b.cart[i].id == b.cart[j].id
    ensures AddVisit(b, clientId, visits, clients, catalog, newId, now)
              == Checkout(b, Some(Err(BadRequest)))
  {
    CreateVisitRejectsRepeats(visits, clients, catalog, newId, now, VisitRequestFor(b, clientId), i, j);
  }

  /** The badge next to a cart line: '-' for a discount, '+' for a surcharge,
      none when the line is charged its catalog price. */
  function PriceBadge(c: CartItem): (r: Option<char>)
    ensures r == Some('-') <==> c.chargedPrice < c.basePrice
    ensures r == Some('+') <==> c.chargedPrice > c.basePrice
    ensures r.None? <==> c.chargedPrice == c.basePrice
  {
    var diff := c.chargedPrice - c.basePrice;
    if diff == 0 then None else if diff < 0 then Some('-') else Some('+')
  }
}
