/** The service menu page: counts, search, the add/edit form, the
    optimistic status toggle and the category colour class. */
module ServicesPage {

  import opened Outcomes
  import opened Seqs
  import opened Store
  import opened Text
  import opened Models
  import ServiceController

  predicate Inactive(s: Service)
  {
    !s.isActive
  }

  function ActiveCount(services: seq<Service>): (n: nat)
    ensures n <= |services|
  {
    |Filter(services, Active)|
  }

  function InactiveCount(services: seq<Service>): (n: nat)
    ensures n <= |services|
  {
    |Filter(services, Inactive)|
  }

  /** Every listed service is counted once, as active or as inactive. */
  lemma CountsAddUp(services: seq<Service>)
    ensures ActiveCount(services) + InactiveCount(services) == |services|
  {
    FilterComplementCount(services, Active, Inactive);
  }

  /** Whether a service matches the search term: its lower-cased name or
      category contains the lower-cased term. */
  predicate Matches(term: string, s: Service)
  {
    Contains(Lower(s.name), Lower(term)) || Contains(Lower(s.category), Lower(term))
  }

  /** The services shown for a search term, in list order. */
  function FilteredServices(services: seq<Service>, term: string): (r: seq<Service>)
    ensures forall i :: 0 <= i < |r| ==> r[i] in services && Matches(term, r[i])
    ensures forall i :: 0 <= i < |services| && Matches(term, services[i]) ==> services[i] in r
    ensures SubsequenceOf(r, services)
    ensures forall s :: multiset(r)[s] == if Matches(term, s) then multiset(services)[s] else 0
  {
    Filter(services, s => Matches(term, s))
  }

  /** An empty search shows the whole list. */
  lemma EmptyTermKeepsAll(services: seq<Service>)
    ensures FilteredServices(services, []) == services
  {
    forall i | 0 <= i < |services|
      ensures Matches([], services[i])
    {
      ContainsEmpty(Lower(services[i].name));
    }
    FilterAll(services, s => Matches([], s));
  }

  /** The add/edit form, every field as typed. */
  datatype Form = Form(name: string, category: string, price: string)

  const EmptyForm := Form([], [], [])

  /** The page state the form handlers touch. */
  datatype Page = Page(services: seq<Service>, form: Form, editingId: Option<Id>, formError: string)

  /** A submit is sent only with a name that is not blank and a price. */
  predicate SubmitAllowed(form: Form)
  {
    Trim(form.name) != [] && form.price != []
  }

  /** What a submit did: the page afterwards and the server's answer, if a
      request was sent. */
  datatype Submitted = Submitted(page: Page, answer: Option<Result<ServiceController.Saved>>)

  /** The list after the server answered a save with `saved`: an edit
      replaces the entry with the edited id, an add puts the new entry first. */
  function ApplySaved(services: seq<Service>, editingId: Option<Id>, saved: Service): (r: seq<Service>)
    ensures editingId.Some? ==> |r| == |services|
    ensures editingId.Some? ==> forall i :: 0 <= i < |services| ==>
              r[i] == if services[i].id == editingId.value then saved else services[i]
    ensures editingId.None? ==> r == [saved] + services
  {
    match editingId
    case Some(id) => seq(|services|, i requires 0 <= i < |services| => if services[i].id == id then saved else services[i])
    case None => [saved] + services
  }

  /** The request a submit sends: the form's fields with the price as a
      number, to the update handler while editing and to the add handler
      otherwise (the form has no status field). */
  function SaveRequest(p: Page, price: int, store: seq<Service>, newId: Id): Result<ServiceController.Saved>
  {
    match p.editingId
    case Some(id) =>
      ServiceController.UpdateService(store, id,
        ServiceController.ServicePatch(Some(p.form.name), Some(p.form.category), Some(price), None))
    case None =>
      ServiceController.AddService(store, newId, Some(p.form.name), Some(p.form.category), Some(price))
  }

  /** Submitting the form. `price` is the number the price text reads as,
      `store` the catalogue on the server and `newId` the id a new service
      gets. A blank name or an empty price sends nothing; a saved service
      updates the list and resets the form, a refusal keeps the form and
      shows the error. */
  function HandleSubmit(p: Page, price: int, store: seq<Service>, newId: Id): (r: Submitted)
    ensures r.answer.None? <==> !SubmitAllowed(p.form)
    ensures r.answer.None? ==> r.page == p.(formError := "Name and Price are required")
    ensures r.answer.Some? && p.editingId.Some? ==>
              r.answer.value == ServiceController.UpdateService(store, p.editingId.value,
                                  ServiceController.ServicePatch(Some(p.form.name), Some(p.form.category),
                                                                 Some(price), None))
    ensures r.answer.Some? && p.editingId.None? ==>
              r.answer.value == ServiceController.AddService(store, newId, Some(p.form.name),
                                                             Some(p.form.category), Some(price))
    ensures r.answer.Some? && r.answer.value.Ok? ==>
              r.page == Page(ApplySaved(p.services, p.editingId, r.answer.value.value.service), EmptyForm,
                             None, [])
    ensures r.answer.Some? && r.answer.value.Err? ==> r.page == p.(formError := "Failed to save service")
  {
    if !SubmitAllowed(p.form) then Submitted(p.(formError := "Name and Price are required"), None)
    else
      var answer := SaveRequest(p, price, store, newId);
      match answer
      case Ok(saved) =>
        Submitted(Page(ApplySaved(p.services, p.editingId, saved.service), EmptyForm, None, []), Some(answer))
      case Err(_) => Submitted(p.(formError := "Failed to save service"), Some(answer))
  }

  /** What the page's own check buys at the server: a sent form never fails
      the name validator. A new service is refused with 400 exactly when its
      trimmed name is taken and with 500 exactly when the price is negative;
      an edit is never a 400 and is refused with 500 exactly when the edited
      service exists and the price is negative. A saved service carries the
      trimmed name and the price sent. */
  lemma SubmitPassesNameCheck(p: Page, price: int, store: seq<Service>, newId: Id)
    requires SubmitAllowed(p.form)
    ensures var a := HandleSubmit(p, price, store, newId).answer.value;
            && (p.editingId.None? ==>
                  && (a == Err(BadRequest) <==> ServiceController.NameTaken(store, Trim(p.form.name)))
                  && (a == Err(ServerError) <==>
                        !ServiceController.NameTaken(store, Trim(p.form.name)) && price < 0))
            && (p.editingId.Some? ==>
                  && a != Err(BadRequest)
                  && (a == Err(ServerError) <==> Find(store, ServiceKey, p.editingId.value).Some? && price < 0))
            && (a.Ok? ==> a.value.service.name == Trim(p.form.name) && a.value.service.price == price)
  {
    TrimEmptyIffBlank(p.form.name);
  }

  /** Setting the status of every entry with id `id`; the rest are untouched. */
  function SetStatus(services: seq<Service>, id: Id, status: bool): (r: seq<Service>)
    ensures |r| == |services|
    ensures forall i :: 0 <= i < |services| ==>
              r[i] == if services[i].id == id then services[i].(isActive := status) else services[i]
  {
    seq(|services|, i requires 0 <= i < |services| =>
      if services[i].id == id then services[i].(isActive := status) else services[i])
  }

  /** What a toggle did: the list the page shows afterwards and the
      server's answer, if a request was sent. */
  datatype Toggling = Toggling(services: seq<Service>, answer: Option<Result<ServiceController.Saved>>)

  /** The status toggle: nothing without confirmation; otherwise the entry is
      flipped at once, the server is asked to toggle it, and the entry is
      flipped back if the server refuses (an unknown id). */
  function HandleToggle(services: seq<Service>, store: seq<Service>, id: Id, current: bool, confirmed: bool)
    : (r: Toggling)
    ensures !confirmed ==> r == Toggling(services, None)
    ensures confirmed ==> r.answer == Some(ServiceController.ToggleServiceStatus(store, id))
    ensures confirmed && (exists j :: 0 <= j < |store| && store[j].id == id) ==>
              r.services == SetStatus(services, id, !current)
    ensures confirmed && (forall j :: 0 <= j < |store| ==> store[j].id != id) ==>
              r.services == SetStatus(SetStatus(services, id, !current), id, current)
  {
    if !confirmed then Toggling(services, None)
    else
      var flipped := SetStatus(services, id, !current);
      var answer := ServiceController.ToggleServiceStatus(store, id);
      if answer.Ok? then Toggling(flipped, Some(answer)) else Toggling(SetStatus(flipped, id, current), Some(answer))
  }

  /** A refused toggle restores the list, provided the page showed the
      entry's status correctly when the toggle was clicked. */
  lemma FailedToggleRestores(services: seq<Service>, store: seq<Service>, id: Id, current: bool)
    requires forall i :: 0 <= i < |services| && services[i].id == id ==> services[i].isActive == current
    requires forall j :: 0 <= j < |store| ==> store[j].id != id
    ensures HandleToggle(services, store, id, current, true).services == services
  {
    var r := HandleToggle(services, store, id, current, true).services;
    assert forall i :: 0 <= i < |services| ==> r[i] == services[i];
  }

  /** An accepted toggle leaves the page showing what the server stored:
      when the page and the server agreed on the entry's status before the
      click, they agree after it. */
  lemma ToggleAgreesWithServer(services: seq<Service>, store: seq<Service>, id: Id, current: bool, i: int)
    requires 0 <= i < |services| && services[i].id == id && services[i].isActive == current
    requires ServiceController.ToggleServiceStatus(store, id).Ok?
    requires store[Find(store, ServiceKey, id).value].isActive == current
    ensures var r := HandleToggle(services, store, id, current, true);
            r.services[i].isActive == r.answer.value.value.service.isActive == !current
  {
    var k := Find(store, ServiceKey, id).value;
    assert store[k].id == id;
  }

  /** The colour class of a category: none for an empty category; "hair"
      wins over "skin" and "facial". */
  function CategoryClass(category: string): (c: string)
    ensures c == "cat-skin" <==>
              (!Contains(Lower(category), "hair")
               && (Contains(Lower(category), "skin") || Contains(Lower(category), "facial")))
    ensures c == "cat-hair" <==> category != [] && Contains(Lower(category), "hair")
    ensures c == "cat-default" <==>
              category == [] || (!Contains(Lower(category), "hair") && !Contains(Lower(category), "skin")
                                 && !Contains(Lower(category), "facial"))
    ensures c in {"cat-default", "cat-hair", "cat-skin"}
  {
    if category == [] then "cat-default"
    else
      var lower := Lower(category);
      if Contains(lower, "hair") then "cat-hair"
      else if Contains(lower, "skin") || Contains(lower, "facial") then "cat-skin"
      else "cat-default"
  }
}
