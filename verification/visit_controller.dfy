/** The visit handlers: billing a visit, listing a client's visits and
    deleting a visit. */
module VisitController {

  import opened Outcomes
  import opened Seqs
  import opened Sorting
  import opened Store
  import opened Models

  /** One requested service; `chargedPrice` is `None` unless the request
      carried a number there. */
  datatype Selection = Selection(serviceId: Id, chargedPrice: Option<int>)

  /** The body of a create-visit request. `clientId` is `None` when absent or
      empty; `services` is `None` when absent or not an array. A total sent
      by the client is not part of the model because it is never read. */
  datatype VisitRequest = VisitRequest(clientId: Option<Id>, visitDate: Option<int>,
                                       services: Option<seq<Selection>>, notes: Option<string>)

  /** A successful write: the collection afterwards and the record answered. */
  datatype Saved = Saved(store: seq<Visit>, visit: Visit)

  /** A client with this id exists, active or soft-deleted. */
  predicate ClientExists(clients: seq<Client>, id: Id)
  {
    exists j :: 0 <= j < |clients| && clients[j].id == id
  }

  /** The catalogue holds an active service with this id. */
  predicate IsActiveService(catalog: seq<Service>, id: Id)
  {
    exists j :: 0 <= j < |catalog| && catalog[j].id == id && catalog[j].isActive
  }

  /** The ids of the requested services, in request order. */
  function RequestedIds(sels: seq<Selection>): (ids: seq<Id>)
    ensures |ids| == |sels| && forall i :: 0 <= i < |sels| ==> ids[i] == sels[i].serviceId
  {
    seq(|sels|, i requires 0 <= i < |sels| => sels[i].serviceId)
  }

  /** The active catalogue documents whose id is among `ids`: what the
      query `{_id: {$in: ids}, isActive: true}` returns. */
  function ActiveMatching(catalog: seq<Service>, ids: set<Id>): (r: seq<Service>)
    ensures forall s :: s in r <==> s in catalog && s.isActive && s.id in ids
  {
    Filter(catalog, (s: Service) => s.isActive && s.id in ids)
  }

  /** The number of documents the service query finds for a request. */
  function FoundCount(catalog: seq<Service>, sels: seq<Selection>): nat
  {
    |ActiveMatching(catalog, set i | 0 <= i < |sels| :: sels[i].serviceId)|
  }

  /** The first active service with this id. */
  function ActiveService(catalog: seq<Service>, id: Id): (r: Option<Service>)
    ensures r.Some? <==> IsActiveService(catalog, id)
    ensures r.Some? ==> r.value in catalog && r.value.id == id && r.value.isActive
  {
    if |catalog| == 0 then None
    else if catalog[0].id == id && catalog[0].isActive then Some(catalog[0])
    else ActiveService(catalog[1..], id)
  }

  /** The billed line for a selection: name and base price copied from the
      service, the charged price falling back to the base price. */
  function LineFor(svc: Service, sel: Selection): LineItem
  {
    var charged := sel.chargedPrice.GetOr(svc.price);
    LineItem(svc.id, svc.name, svc.price, charged, charged)
  }

  function LineCharge(l: LineItem): int
  {
    l.lineTotal
  }

  /** Every requested service resolves to an active one. */
  predicate AllResolvable(catalog: seq<Service>, sels: seq<Selection>)
  {
    forall i :: 0 <= i < |sels| ==> IsActiveService(catalog, sels[i].serviceId)
  }

  /** The lines of a visit, one per selection, in request order. */
  function Lines(catalog: seq<Service>, sels: seq<Selection>): (lines: seq<LineItem>)
    requires AllResolvable(catalog, sels)
    ensures |lines| == |sels|
    ensures forall i :: 0 <= i < |sels| ==> lines[i] == LineFor(ActiveService(catalog, sels[i].serviceId).value, sels[i])
  {
    seq(|sels|, i requires 0 <= i < |sels| => LineFor(ActiveService(catalog, sels[i].serviceId).value, sels[i]))
  }

  /** Every requested service resolves to an active one with a name, so
      each line passes the line-item schema. */
  predicate NamedSelections(catalog: seq<Service>, sels: seq<Selection>)
  {
    AllResolvable(catalog, sels)
    && forall i :: 0 <= i < |sels| ==> ActiveService(catalog, sels[i].serviceId).value.name != []
  }

  /** The billing step of `createVisit`, once every selection resolves:
      one line per selection in request order, the total the sum of the
      line totals, the date defaulting to `now` and the notes to "". The
      visit schema refuses (500) a visit one of whose lines has an empty
      name. */
  function Bill(visits: seq<Visit>, catalog: seq<Service>, newId: Id, now: int, client: Id,
                sels: seq<Selection>, visitDate: Option<int>, notes: Option<string>): (r: Result<Saved>)
    requires |sels| > 0 && AllResolvable(catalog, sels)
    ensures r.Err? <==> !NamedSelections(catalog, sels)
    ensures r.Err? ==> r.status == ServerError
    ensures r.Ok? ==>
              var v := r.value.visit;
              && v == Visit(newId, client, visitDate.GetOr(now), v.services, v.totalAmount, notes.GetOr([]), false)
              && ValidVisit(v)
              && |v.services| == |sels|
              && (forall i :: 0 <= i < |sels| ==>
                    && v.services[i].service == sels[i].serviceId
                    && (exists j :: 0 <= j < |catalog| && catalog[j].id == sels[i].serviceId
                                    && catalog[j].isActive && catalog[j].name == v.services[i].name
                                    && catalog[j].price == v.services[i].basePrice)
                    && v.services[i].chargedPrice == sels[i].chargedPrice.GetOr(v.services[i].basePrice)
                    && v.services[i].lineTotal == v.services[i].chargedPrice)
              && v.totalAmount == SumBy(v.services, LineCharge)
              && r.value.store == visits + [v]
  {
    var lines := Lines(catalog, sels);
    assert forall i :: 0 <= i < |sels| ==> ActiveService(catalog, sels[i].serviceId).value in catalog;
    var made := NewVisit(newId, now, client, visitDate, lines, SumBy(lines, LineCharge), notes);
    if made.Err? then Err(made.status) else Ok(Saved(visits + [made.value], made.value))
  }

  /** `createVisit`. The checks run in order and the first failure answers:
      missing client id (400), no services (400), unknown client (404; a
      soft-deleted client still counts as known), and fewer active services
      found than requested (400). A request that passes is billed by
      `Bill`, which the visit schema may still refuse (500). */
  function CreateVisit(visits: seq<Visit>, clients: seq<Client>, catalog: seq<Service>, newId: Id, now: int,
                       req: VisitRequest): (r: Result<Saved>)
    ensures req.clientId.None? ==> r == Err(BadRequest)
    ensures req.clientId.Some? && (req.services.None? || req.services.value == []) ==> r == Err(BadRequest)
    ensures (req.clientId.Some? && req.services.Some? && req.services.value != []
             && !ClientExists(clients, req.clientId.value)) ==> r == Err(NotFound)
    ensures (req.clientId.Some? && req.services.Some? && req.services.value != []
             && ClientExists(clients, req.clientId.value)
             && FoundCount(catalog, req.services.value) != |req.services.value|) ==> r == Err(BadRequest)
    ensures r == Err(ServerError) <==>
              && req.clientId.Some? && req.services.Some? && req.services.value != []
              && ClientExists(clients, req.clientId.value)
              && FoundCount(catalog, req.services.value) == |req.services.value|
              && !NamedSelections(catalog, req.services.value)
    ensures r.Ok? <==>
              && req.clientId.Some? && req.services.Some? && req.services.value != []
              && ClientExists(clients, req.clientId.value)
              && FoundCount(catalog, req.services.value) == |req.services.value|
              && NamedSelections(catalog, req.services.value)
    ensures r.Ok? ==>
              && req.clientId.Some? && req.services.Some? && req.services.value != []
              && ClientExists(clients, req.clientId.value)
              && FoundCount(catalog, req.services.value) == |req.services.value|
              && AllResolvable(catalog, req.services.value)
              && r == Bill(visits, catalog, newId, now, req.clientId.value, req.services.value, req.visitDate,
                           req.notes)
  {
    if req.clientId.None? then Err(BadRequest)
    else if req.services.None? || req.services.value == [] then Err(BadRequest)
    else if !ClientExists(clients, req.clientId.value) then Err(NotFound)
    else if FoundCount(catalog, req.services.value) != |req.services.value| then Err(BadRequest)
    else if !AllResolvable(catalog, req.services.value) then Err(ServerError)
    else Bill(visits, catalog, newId, now, req.clientId.value, req.services.value, req.visitDate, req.notes)
  }

  /** Creating a visit under a fresh id keeps the visit ids unique, as
      `DeleteVisit` expects. */
  lemma CreateVisitKeepsIdsUnique(visits: seq<Visit>, clients: seq<Client>, catalog: seq<Service>, newId: Id,
                                  now: int, req: VisitRequest)
    requires UniqueKeys(visits, VisitKey) && Find(visits, VisitKey, newId).None?
    requires CreateVisit(visits, clients, catalog, newId, now, req).Ok?
    ensures UniqueKeys(CreateVisit(visits, clients, catalog, newId, now, req).value.store, VisitKey)
  {
    var saved := CreateVisit(visits, clients, catalog, newId, now, req).value;
    AppendFreshUnique(visits, VisitKey, saved.visit);
  }

  /** The requested ids that name an active service. */
  ghost function FoundIds(catalog: seq<Service>, ids: set<Id>): set<Id>
  {
    set id | id in ids && IsActiveService(catalog, id)
  }

  /** An active service of the catalogue is its first document or an
      active service of the rest. */
  lemma IsActiveServiceCons(catalog: seq<Service>, id: Id)
    requires |catalog| > 0
    ensures IsActiveService(catalog, id) <==>
              (catalog[0].id == id && catalog[0].isActive) || IsActiveService(catalog[1..], id)
  {
    var rest := catalog[1..];
    if IsActiveService(catalog, id) && !(catalog[0].id == id && catalog[0].isActive) {
      var j :| 0 <= j < |catalog| && catalog[j].id == id && catalog[j].isActive;
      assert rest[j - 1] == catalog[j];
    }
    if IsActiveService(rest, id) {
      var j :| 0 <= j < |rest| && rest[j].id == id && rest[j].isActive;
      assert catalog[j + 1] == rest[j];
    }
  }

  lemma FoundIdsCons(catalog: seq<Service>, ids: set<Id>)
    requires |catalog| > 0
    ensures FoundIds(catalog, ids) ==
              FoundIds(catalog[1..], ids) + (if catalog[0].isActive && catalog[0].id in ids then {catalog[0].id} else {})
  {
    forall id
      ensures IsActiveService(catalog, id) <==>
                (catalog[0].id == id && catalog[0].isActive) || IsActiveService(catalog[1..], id)
    {
      IsActiveServiceCons(catalog, id);
    }
  }

  /** With unique ids, the query finds one document per requested id that
      names an active service. */
  lemma {:induction false} ActiveMatchingCount(catalog: seq<Service>, ids: set<Id>)
    requires UniqueKeys(catalog, ServiceKey)
    ensures |ActiveMatching(catalog, ids)| == |FoundIds(catalog, ids)|
  {
    if |catalog| == 0 {
      assert FoundIds(catalog, ids) == {};
    } else {
      var c := catalog[0];
      var rest := catalog[1..];
      assert UniqueKeys(rest, ServiceKey) by {
        forall i, j | 0 <= i < j < |rest|
          ensures rest[i].id != rest[j].id
        {
          assert rest[i] == catalog[i + 1] && rest[j] == catalog[j + 1];
        }
      }
      ActiveMatchingCount(rest, ids);
      assert forall j :: 0 <= j < |rest| ==> rest[j].id != c.id by {
        forall j | 0 <= j < |rest|
          ensures rest[j].id != c.id
        {
          assert rest[j] == catalog[j + 1];
        }
      }
      assert c.id !in FoundIds(rest, ids);
      FoundIdsCons(catalog, ids);
      if c.isActive && c.id in ids {
        assert ActiveMatching(catalog, ids) == [c] + ActiveMatching(rest, ids);
      } else {
        assert ActiveMatching(catalog, ids) == ActiveMatching(rest, ids);
      }
    }
  }

  /** The count check of `createVisit` passes exactly when the requested ids
      are pairwise different and each names an active service: an unknown
      or inactive id, or the same service requested twice, is refused. */
  lemma CountCheckIff(catalog: seq<Service>, sels: seq<Selection>)
    requires UniqueKeys(catalog, ServiceKey)
    ensures FoundCount(catalog, sels) == |sels| <==>
              Distinct(RequestedIds(sels)) && AllResolvable(catalog, sels)
  {
    var ids := RequestedIds(sels);
    var requested := set i | 0 <= i < |sels| :: sels[i].serviceId;
    assert requested == set x | x in ids by {
      forall x | x in ids
        ensures x in requested
      {
        var k :| 0 <= k < |ids| && ids[k] == x;
        assert sels[k].serviceId == x;
      }
    }
    CardinalityOfElements(ids);
    ActiveMatchingCount(catalog, requested);
    var found := FoundIds(catalog, requested);
    assert found <= requested;
    assert requested == found + (requested - found);
    assert |requested| == |found| + |requested - found|;
    if Distinct(ids) && AllResolvable(catalog, sels) {
      forall x | x in requested
        ensures x in found
      {
        var k :| 0 <= k < |sels| && sels[k].serviceId == x;
      }
      assert requested - found == {};
    }
    if FoundCount(catalog, sels) == |sels| {
      assert |requested - found| == 0;
      assert requested - found == {};
      forall i | 0 <= i < |sels|
        ensures IsActiveService(catalog, sels[i].serviceId)
      {
        assert sels[i].serviceId in requested;
      }
    }
  }

  /** With unique ids and a catalogue of named services (as `AddService`
      and `UpdateService` keep it), a request whose client exists and whose
      services are distinct and active is always billed; no server error
      arises. */
  lemma CreateVisitSucceeds(visits: seq<Visit>, clients: seq<Client>, catalog: seq<Service>, newId: Id, now: int,
                            req: VisitRequest)
    requires UniqueKeys(catalog, ServiceKey)
    requires req.clientId.Some? && req.services.Some? && req.services.value != []
    requires ClientExists(clients, req.clientId.value)
    requires Distinct(RequestedIds(req.services.value)) && AllResolvable(catalog, req.services.value)
    requires forall k :: 0 <= k < |catalog| ==> catalog[k].name != []
    ensures CreateVisit(visits, clients, catalog, newId, now, req).Ok?
  {
    CountCheckIff(catalog, req.services.value);
    var sels := req.services.value;
    forall i | 0 <= i < |sels|
      ensures ActiveService(catalog, sels[i].serviceId).value.name != []
    {
      var svc := ActiveService(catalog, sels[i].serviceId).value;
      var k :| 0 <= k < |catalog| && catalog[k] == svc;
    }
  }

  /** A catalogue service with an empty name gets past every check of the
      handler, and the visit schema then refuses its line with a 500. */
  lemma UnnamedServiceRefused(clients: seq<Client>)
    requires ClientExists(clients, "c")
    ensures var catalog := [Service("A", "", "Hair", 500, true)];
            var req := VisitRequest(Some("c"), None, Some([Selection("A", None)]), None);
            CreateVisit([], clients, catalog, "v", 0, req) == Err(ServerError)
  {
    var catalog := [Service("A", "", "Hair", 500, true)];
    var sels := [Selection("A", None)];
    assert IsActiveService(catalog, "A") by { assert catalog[0].id == "A"; }
    CountCheckIff(catalog, sels);
    assert RequestedIds(sels) == ["A"];
  }

  /** Requesting the same service twice is refused with 400, however the
      rest of the request looks. */
  lemma CreateVisitRejectsRepeats(visits: seq<Visit>, clients: seq<Client>, catalog: seq<Service>, newId: Id,
                                  now: int, req: VisitRequest, i: nat, j: nat)
    requires UniqueKeys(catalog, ServiceKey)
    requires req.clientId.Some? && req.services.Some?
    requires ClientExists(clients, req.clientId.value)
    requires i < j < |req.services.value| && req.services.value[i].serviceId == req.services.value[j].serviceId
    ensures CreateVisit(visits, clients, catalog, newId, now, req) == Err(BadRequest)
  {
    CountCheckIff(catalog, req.services.value);
    assert RequestedIds(req.services.value)[i] == RequestedIds(req.services.value)[j];
  }

  /** Newest first. */
  predicate ByDateDesc(a: Visit, b: Visit)
  {
    a.visitDate >= b.visitDate
  }

  lemma ByDateDescIsTotalPreorder()
    ensures TotalPreorder(ByDateDesc)
  {
  }

  /** `getClientVisits`: that client's visits, each once, newest first. */
  function GetClientVisits(visits: seq<Visit>, clientId: Id): (r: seq<Visit>)
    ensures forall v :: multiset(r)[v] == if v.client == clientId then multiset(visits)[v] else 0
    ensures forall i, j :: 0 <= i < j < |r| ==> r[i].visitDate >= r[j].visitDate
  {
    ByDateDescIsTotalPreorder();
    var own := Filter(visits, (v: Visit) => v.client == clientId);
    SortBy(ByDateDesc, own)
  }

  /** `deleteVisit`: 404 when the id is unknown, otherwise that visit is
      removed and the others keep their order. */
  function DeleteVisit(visits: seq<Visit>, id: Id): (r: Result<seq<Visit>>)
    ensures r.Err? <==> forall j :: 0 <= j < |visits| ==> visits[j].id != id
    ensures r.Err? ==> r.status == NotFound
    ensures r.Ok? ==> var i := Find(visits, VisitKey, id).value;
                      r.value == visits[..i] + visits[i + 1..]
    ensures r.Ok? && UniqueKeys(visits, VisitKey) ==>
              UniqueKeys(r.value, VisitKey) && forall j :: 0 <= j < |r.value| ==> r.value[j].id != id
  {
    match Find(visits, VisitKey, id)
    case None => Err(NotFound)
    case Some(i) =>
      RemoveAtUnique(visits, VisitKey, i);
      Ok(RemoveAt(visits, i))
  }

  /** The worked example: services A (500) and B (300); A billed at 450 and
      B at its base price give two lines and a total of 750. */
  lemma BillingExample(clients: seq<Client>)
    requires ClientExists(clients, "c")
    ensures var catalog := [Service("A", "Cut", "Hair", 500, true), Service("B", "Wash", "Hair", 300, true)];
            var req := VisitRequest(Some("c"), Some(0), Some([Selection("A", Some(450)), Selection("B", None)]), None);
            var r := CreateVisit([], clients, catalog, "v", 0, req);
            && r.Ok?
            && r.value.visit.services == [LineItem("A", "Cut", 500, 450, 450), LineItem("B", "Wash", 300, 300, 300)]
            && r.value.visit.totalAmount == 750
  {
    var catalog := [Service("A", "Cut", "Hair", 500, true), Service("B", "Wash", "Hair", 300, true)];
    var sels := [Selection("A", Some(450)), Selection("B", None)];
    var req := VisitRequest(Some("c"), Some(0), Some(sels), None);
    ExampleResolves(catalog, sels);
    CreateVisitSucceeds([], clients, catalog, "v", 0, req);
    ExampleLines(catalog, sels);
  }

  lemma ExampleResolves(catalog: seq<Service>, sels: seq<Selection>)
    requires catalog == [Service("A", "Cut", "Hair", 500, true), Service("B", "Wash", "Hair", 300, true)]
    requires sels == [Selection("A", Some(450)), Selection("B", None)]
    ensures UniqueKeys(catalog, ServiceKey)
    ensures Distinct(RequestedIds(sels)) && AllResolvable(catalog, sels)
  {
    assert IsActiveService(catalog, "A") by { assert catalog[0].id == "A"; }
    assert IsActiveService(catalog, "B") by { assert catalog[1].id == "B"; }
    assert "A" != "B" by { assert "A"[0] != "B"[0]; }
    assert RequestedIds(sels) == ["A", "B"];
  }

  lemma ExampleLines(catalog: seq<Service>, sels: seq<Selection>)
    requires catalog == [Service("A", "Cut", "Hair", 500, true), Service("B", "Wash", "Hair", 300, true)]
    requires sels == [Selection("A", Some(450)), Selection("B", None)]
    requires AllResolvable(catalog, sels)
    ensures Lines(catalog, sels) == [LineItem("A", "Cut", 500, 450, 450), LineItem("B", "Wash", 300, 300, 300)]
    ensures SumBy(Lines(catalog, sels), LineCharge) == 750
  {
    assert ActiveService(catalog, "A") == Some(catalog[0]);
    assert ActiveService(catalog, "B") == Some(catalog[1]) by { assert "A" != "B" by { assert "A"[0] != "B"[0]; } }
    var ls := Lines(catalog, sels);
    assert ls[0] == LineItem("A", "Cut", 500, 450, 450);
    assert ls[1] == LineItem("B", "Wash", 300, 300, 300);
    assert ls[1..][1..] == [];
    assert SumBy(ls[1..], LineCharge) == 300;
  }
}
