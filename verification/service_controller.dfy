/** The catalogue handlers: add, list, partial update and the
    active/inactive toggle of services. */
module ServiceController {

  import opened Outcomes
  import opened Seqs
  import opened Sorting
  import opened Text
  import opened Store
  import opened Models

  /** A successful write: the collection afterwards and the record answered. */
  datatype Saved = Saved(store: seq<Service>, service: Service)

  /** Some service in the catalogue already has exactly this name. */
  predicate NameTaken(store: seq<Service>, name: string)
  {
    exists i :: 0 <= i < |store| && store[i].name == name
  }

  /** `addService`: name and price are required (a price of 0 is accepted),
      the trimmed name must not be taken, and the record must pass the schema. */
  function AddService(store: seq<Service>, newId: Id, name: Option<string>, category: Option<string>,
                      price: Option<int>): (r: Result<Saved>)
    ensures r == Err(BadRequest) <==>
              name.None? || name.value == [] || price.None? || NameTaken(store, Trim(name.value))
    ensures r == Err(ServerError) <==>
              name.Some? && name.value != [] && price.Some? && !NameTaken(store, Trim(name.value))
              && (Trim(name.value) == [] || price.value < 0)
    ensures r.Ok? ==> r.value.service == Service(newId, Trim(name.value), category.GetOr([]), price.value, true)
    ensures r.Ok? ==> r.value.store == store + [r.value.service]
    ensures r.Ok? ==> ValidService(r.value.service)
    ensures r.Err? ==> r.status != NotFound
  {
    if name.None? || name.value == [] || price.None? then Err(BadRequest)
    else if NameTaken(store, Trim(name.value)) then Err(BadRequest)
    else
      var service :- NewService(newId, name.value, category, price.value);
      Ok(Saved(store + [service], service))
  }

  /** Adding a service under a fresh id keeps the service ids unique. */
  lemma AddServiceKeepsIdsUnique(store: seq<Service>, newId: Id, name: Option<string>, category: Option<string>,
                                 price: Option<int>)
    requires UniqueKeys(store, ServiceKey) && Find(store, ServiceKey, newId).None?
    requires AddService(store, newId, name, category, price).Ok?
    ensures UniqueKeys(AddService(store, newId, name, category, price).value.store, ServiceKey)
  {
    var saved := AddService(store, newId, name, category, price).value;
    AppendFreshUnique(store, ServiceKey, saved.service);
  }

  /** No two services share a name. */
  predicate DistinctNames(store: seq<Service>)
  {
    forall i, j :: 0 <= i < j < |store| ==> store[i].name != store[j].name
  }

  /** The duplicate check keeps the catalogue's names distinct: a service is
      added only under a trimmed name no service has yet. */
  lemma AddServiceKeepsNamesDistinct(store: seq<Service>, newId: Id, name: Option<string>,
                                     category: Option<string>, price: Option<int>)
    requires DistinctNames(store)
    requires AddService(store, newId, name, category, price).Ok?
    ensures DistinctNames(AddService(store, newId, name, category, price).value.store)
  {
    var saved := AddService(store, newId, name, category, price).value;
    assert !NameTaken(store, saved.service.name);
    forall i | 0 <= i < |store|
      ensures saved.store[i].name != saved.service.name
    {
      assert saved.store[i] == store[i];
    }
  }

  predicate ByName(a: Service, b: Service)
  {
    LexLe(a.name, b.name)
  }

  lemma ByNameIsTotalPreorder()
    ensures TotalPreorder(ByName)
  {
    forall a: Service, b: Service
      ensures ByName(a, b) || ByName(b, a)
    {
      LexLeTotal(a.name, b.name);
    }
    forall a: Service, b: Service, c: Service | ByName(a, b) && ByName(b, c)
      ensures ByName(a, c)
    {
      LexLeTransitive(a.name, b.name, c.name);
    }
  }

  /** `getServices`: every service, active or not, ordered by name. */
  function GetServices(store: seq<Service>): (r: seq<Service>)
    ensures multiset(r) == multiset(store)
    ensures forall i, j :: 0 <= i < j < |r| ==> LexLe(r[i].name, r[j].name)
  {
    ByNameIsTotalPreorder();
    SortBy(ByName, store)
  }

  /** The fields of an update request; `None` means the field was not sent. */
  datatype ServicePatch = ServicePatch(name: Option<string>, category: Option<string>,
                                       price: Option<int>, isActive: Option<bool>)

  /** Copies the fields that were sent onto the record, the name trimmed. */
  function ApplyPatch(s: Service, p: ServicePatch): Service
  {
    Service(s.id,
            if p.name.Some? then Trim(p.name.value) else s.name,
            p.category.GetOr(s.category),
            p.price.GetOr(s.price),
            p.isActive.GetOr(s.isActive))
  }

  /** `updateService`: 404 when the id is unknown; otherwise only the fields
      present change, and the record is saved (its validators run, name
      uniqueness is not checked again). Every other service is untouched. */
  function UpdateService(store: seq<Service>, id: Id, patch: ServicePatch): (r: Result<Saved>)
    ensures r == Err(NotFound) <==> forall j :: 0 <= j < |store| ==> store[j].id != id
    ensures r.Err? ==> r.status != BadRequest
    ensures r == Err(ServerError) <==>
              Find(store, ServiceKey, id).Some?
              && !ServiceValidators(ApplyPatch(store[Find(store, ServiceKey, id).value], patch))
    ensures r.Ok? ==>
              var i := Find(store, ServiceKey, id).value;
              var prev := store[i];
              var s := r.value.service;
              && s.id == id
              && s.name == (if patch.name.Some? then Trim(patch.name.value) else prev.name)
              && (patch.category.None? ==> s.category == prev.category)
              && (patch.category.Some? ==> s.category == patch.category.value)
              && (patch.price.None? ==> s.price == prev.price)
              && (patch.price.Some? ==> s.price == patch.price.value)
              && (patch.isActive.None? ==> s.isActive == prev.isActive)
              && (patch.isActive.Some? ==> s.isActive == patch.isActive.value)
              && ServiceValidators(s)
              && r.value.store == store[i := s]
  {
    match Find(store, ServiceKey, id)
    case None => Err(NotFound)
    case Some(i) =>
      var updated := ApplyPatch(store[i], patch);
      var saved :- CheckService(updated);
      Ok(Saved(store[i := saved], saved))
  }

  /** An update leaves every other service of the catalogue as it was. */
  lemma UpdateServiceFrame(store: seq<Service>, id: Id, patch: ServicePatch)
    requires UpdateService(store, id, patch).Ok?
    ensures var after := UpdateService(store, id, patch).value.store;
            |after| == |store| &&
            forall j :: 0 <= j < |store| && after[j] != store[j] ==> store[j].id == id
  {
  }

  /** `toggleServiceStatus`: 404 when the id is unknown; otherwise negates
      `isActive` of that service and changes nothing else. */
  function ToggleServiceStatus(store: seq<Service>, id: Id): (r: Result<Saved>)
    ensures r.Err? <==> forall j :: 0 <= j < |store| ==> store[j].id != id
    ensures r.Err? ==> r.status == NotFound
    ensures r.Ok? ==>
              var i := Find(store, ServiceKey, id).value;
              && r.value.service == store[i].(isActive := !store[i].isActive)
              && r.value.store == store[i := r.value.service]
  {
    match Find(store, ServiceKey, id)
    case None => Err(NotFound)
    case Some(i) =>
      var toggled := store[i].(isActive := !store[i].isActive);
      Ok(Saved(store[i := toggled], toggled))
  }

  /** Toggling the same service twice restores the catalogue. */
  lemma ToggleTwiceRestores(store: seq<Service>, id: Id)
    requires exists j :: 0 <= j < |store| && store[j].id == id
    ensures ToggleServiceStatus(store, id).Ok?
    ensures ToggleServiceStatus(ToggleServiceStatus(store, id).value.store, id).Ok?
    ensures ToggleServiceStatus(ToggleServiceStatus(store, id).value.store, id).value.store == store
  {
    var i := Find(store, ServiceKey, id).value;
    var once := ToggleServiceStatus(store, id).value.store;
    assert once[i].id == id;
    var k := Find(once, ServiceKey, id).value;
    assert k == i by {
      forall j | 0 <= j < i
        ensures once[j].id != id
      {
        assert once[j] == store[j];
      }
    }
  }

  /** A toggle keeps a valid catalogue valid. */
  lemma ToggleKeepsValid(store: seq<Service>, id: Id)
    requires forall j :: 0 <= j < |store| ==> ValidService(store[j])
    requires ToggleServiceStatus(store, id).Ok?
    ensures var after := ToggleServiceStatus(store, id).value.store;
            forall j :: 0 <= j < |after| ==> ValidService(after[j])
  {
  }
}
