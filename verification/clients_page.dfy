/** The client list page: local search, the add form and deletion, over
    the two lists the page keeps (the shown list and the full list). */
module ClientsPage {

  import opened Outcomes
  import opened Seqs
  import opened Store
  import opened Text
  import opened Models
  import ClientController

  /** The shown list and the full list last fetched. */
  datatype Lists = Lists(shown: seq<Client>, all: seq<Client>)

  /** Whether a client matches a query: the lower-cased name, or the phone,
      contains the lower-cased query. */
  predicate Matches(value: string, c: Client)
  {
    Contains(Lower(c.name), Lower(value)) || Contains(c.phone, Lower(value))
  }

  /** The list shown for a search box value: everything for a blank value,
      otherwise the matching clients in list order. */
  function HandleSearch(all: seq<Client>, value: string): (r: seq<Client>)
    ensures IsBlank(value) ==> r == all
    ensures !IsBlank(value) ==>
              && (forall i :: 0 <= i < |r| ==> r[i] in all && Matches(value, r[i]))
              && (forall i :: 0 <= i < |all| && Matches(value, all[i]) ==> all[i] in r)
              && (forall c :: multiset(r)[c] == if Matches(value, c) then multiset(all)[c] else 0)
    ensures SubsequenceOf(r, all)
  {
    TrimEmptyIffBlank(value);
    if Trim(value) == [] then
      SubsequenceOfSelf(all);
      all
    else Filter(all, c => Matches(value, c))
  }

  /** The add form as typed; the phone field keeps digits only. */
  datatype Form = Form(name: string, phone: string, notes: string)

  const EmptyForm := Form([], [], [])

  /** The page state the add form touches. */
  datatype Page = Page(lists: Lists, form: Form, showForm: bool, error: string)

  /** Typing into the phone field. */
  function PhoneInput(f: Form, typed: string): (r: Form)
    ensures r.name == f.name && r.notes == f.notes
    ensures forall i :: 0 <= i < |r.phone| ==> IsDigit(r.phone[i])
    ensures SubsequenceOf(r.phone, typed)
    ensures forall c :: multiset(r.phone)[c] == if IsDigit(c) then multiset(typed)[c] else 0
  {
    f.(phone := DigitsOnly(typed))
  }

  /** What the add form did: the page afterwards and the server's answer,
      if a request was sent. */
  datatype Added = Added(page: Page, answer: Option<Result<ClientController.Saved>>)

  /** Adding a client: an empty name or phone (not trimmed) sends nothing;
      otherwise the form is posted, and a created client is put first in
      both lists and the form is reset and closed. */
  function AddClient(p: Page, store: seq<Client>, newId: Id): (r: Added)
    ensures r.answer.None? <==> p.form.name == [] || p.form.phone == []
    ensures r.answer.None? ==> r.page == p.(error := "Name & phone required")
    ensures r.answer.Some? ==>
              r.answer.value == ClientController.CreateClient(store, newId, Some(p.form.name),
                                                              Some(p.form.phone), Some(p.form.notes))
    ensures r.answer.Some? && r.answer.value.Ok? ==>
              var c := r.answer.value.value.client;
              r.page == Page(Lists([c] + p.lists.shown, [c] + p.lists.all), EmptyForm, false, [])
    ensures r.answer.Some? && r.answer.value.Err? ==> r.page == p.(error := "Failed to add client")
  {
    if p.form.name == [] || p.form.phone == [] then Added(p.(error := "Name & phone required"), None)
    else
      var answer := ClientController.CreateClient(store, newId, Some(p.form.name), Some(p.form.phone),
                                                  Some(p.form.notes));
      match answer
      case Ok(saved) =>
        var c := saved.client;
        Added(Page(Lists([c] + p.lists.shown, [c] + p.lists.all), EmptyForm, false, []), Some(answer))
      case Err(_) => Added(p.(error := "Failed to add client"), Some(answer))
  }

  /** A name of spaces passes the form's check but not the server's: the
      server trims it to nothing and refuses the save. */
  lemma BlankNameRefusedByServer(p: Page, store: seq<Client>, newId: Id)
    requires p.form.name != [] && p.form.phone != [] && IsBlank(p.form.name)
    ensures AddClient(p, store, newId).answer == Some(Err(ServerError))
    ensures AddClient(p, store, newId).page.error == "Failed to add client"
  {
    TrimEmptyIffBlank(p.form.name);
  }

  /** The list without the client `id`, in order. */
  function Without(cs: seq<Client>, id: Id): (r: seq<Client>)
    ensures forall i :: 0 <= i < |r| ==> r[i].id != id && r[i] in cs
    ensures forall i :: 0 <= i < |cs| && cs[i].id != id ==> cs[i] in r
    ensures SubsequenceOf(r, cs)
  {
    Filter(cs, (c: Client) => c.id != id)
  }

  /** Deleting a client: nothing without confirmation or when the server
      refuses; otherwise the client leaves both lists. */
  function DeleteClient(l: Lists, store: seq<Client>, id: Id, confirmed: bool): (r: Lists)
    ensures !confirmed || ClientController.DeleteClient(store, id).Err? ==> r == l
    ensures confirmed && ClientController.DeleteClient(store, id).Ok? ==>
              r == Lists(Without(l.shown, id), Without(l.all, id))
  {
    if confirmed && ClientController.DeleteClient(store, id).Ok? then Lists(Without(l.shown, id), Without(l.all, id))
    else l
  }

  /** Removing the client from the page agrees with fetching the list again:
      the server only deactivates it, and the list leaves inactive clients out. */
  lemma DeletedClientNotRefetched(store: seq<Client>, id: Id)
    requires UniqueKeys(store, ClientKey)
    requires ClientController.DeleteClient(store, id).Ok?
    ensures var after := ClientController.DeleteClient(store, id).value.store;
            forall i :: 0 <= i < |ClientController.GetClients(after)| ==> ClientController.GetClients(after)[i].id != id
  {
    var i := Find(store, ClientKey, id).value;
    var after := ClientController.DeleteClient(store, id).value.store;
    forall j | 0 <= j < |after|
      ensures after[j].isActive ==> after[j].id != id
    {
      if j != i {
        assert after[j] == store[j];
      }
    }
    var listed := ClientController.GetClients(after);
    forall k | 0 <= k < |listed|
      ensures listed[k].id != id
    {
      assert multiset(listed)[listed[k]] > 0;
      assert listed[k].isActive && listed[k] in after;
    }
  }
}
