/** The client handlers: create, list, fetch, search, whitelisted update and
    soft delete. */
module ClientController {

  import opened Outcomes
  import opened Seqs
  import opened Sorting
  import opened Text
  import opened Store
  import opened Models

  /** A successful write: the collection afterwards and the record answered. */
  datatype Saved = Saved(store: seq<Client>, client: Client)

  /** `createClient`: name and phone are required; both are stored trimmed
      and `notes` defaults to "". */
  function CreateClient(store: seq<Client>, newId: Id, name: Option<string>, phone: Option<string>,
                        notes: Option<string>): (r: Result<Saved>)
    ensures r == Err(BadRequest) <==> name.None? || name.value == [] || phone.None? || phone.value == []
    ensures r == Err(ServerError) <==>
              name.Some? && name.value != [] && phone.Some? && phone.value != [] && Trim(name.value) == []
    ensures r.Ok? ==> r.value.client == Client(newId, Trim(name.value), Trim(phone.value), notes.GetOr([]), true)
    ensures r.Ok? ==> r.value.store == store + [r.value.client] && ValidClient(r.value.client)
    ensures r.Err? ==> r.status != NotFound
  {
    if name.None? || name.value == [] || phone.None? || phone.value == [] then Err(BadRequest)
    else
      var client :- NewClient(newId, name.value, phone.value, notes);
      Ok(Saved(store + [client], client))
  }

  /** Creating a client under a fresh id keeps the client ids unique. */
  lemma CreateClientKeepsIdsUnique(store: seq<Client>, newId: Id, name: Option<string>, phone: Option<string>,
                                   notes: Option<string>)
    requires UniqueKeys(store, ClientKey) && Find(store, ClientKey, newId).None?
    requires CreateClient(store, newId, name, phone, notes).Ok?
    ensures UniqueKeys(CreateClient(store, newId, name, phone, notes).value.store, ClientKey)
  {
    var saved := CreateClient(store, newId, name, phone, notes).value;
    AppendFreshUnique(store, ClientKey, saved.client);
  }

  predicate ByName(a: Client, b: Client)
  {
    LexLe(a.name, b.name)
  }

  lemma ByNameIsTotalPreorder()
    ensures TotalPreorder(ByName)
  {
    forall a: Client, b: Client
      ensures ByName(a, b) || ByName(b, a)
    {
      LexLeTotal(a.name, b.name);
    }
    forall a: Client, b: Client, c: Client | ByName(a, b) && ByName(b, c)
      ensures ByName(a, c)
    {
      LexLeTransitive(a.name, b.name, c.name);
    }
  }

  predicate IsActive(c: Client)
  {
    c.isActive
  }

  /** `getClients`: the active clients, each once, ordered by name. */
  function GetClients(store: seq<Client>): (r: seq<Client>)
    ensures forall c :: multiset(r)[c] == if c.isActive then multiset(store)[c] else 0
    ensures forall i, j :: 0 <= i < j < |r| ==> LexLe(r[i].name, r[j].name)
  {
    ByNameIsTotalPreorder();
    var active := Filter(store, IsActive);
    SortBy(ByName, active)
  }

  /** `getClientById`: the client whatever its `isActive`; 404 only when no
      client has the id. */
  function GetClientById(store: seq<Client>, id: Id): (r: Result<Client>)
    ensures r.Err? <==> forall j :: 0 <= j < |store| ==> store[j].id != id
    ensures r.Err? ==> r.status == NotFound
    ensures r.Ok? ==> r.value in store && r.value.id == id
  {
    match Find(store, ClientKey, id)
    case None => Err(NotFound)
    case Some(i) => Ok(store[i])
  }

  /** The most results a search returns. */
  const SearchLimit: nat := 10

  /** `searchClients`: an absent or empty query finds nothing; otherwise the
      first ten active clients, in collection order, whose name or phone the
      query matches. `matches(q, field)` stands for the case-insensitive
      regular expression built from the query. */
  function SearchClients(store: seq<Client>, q: Option<string>, matches: (string, string) -> bool): (r: seq<Client>)
    ensures q.None? || q.value == [] ==> r == []
    ensures |r| <= SearchLimit
    ensures forall i :: 0 <= i < |r| ==>
              r[i] in store && r[i].isActive && (matches(q.value, r[i].name) || matches(q.value, r[i].phone))
    ensures SubsequenceOf(r, store)
    ensures q.Some? && q.value != [] && |r| < SearchLimit ==>
              forall c :: c in store && c.isActive && (matches(q.value, c.name) || matches(q.value, c.phone))
                          ==> c in r
  {
    if q.None? || q.value == [] then []
    else
      var hits := Filter(store, (c: Client) => c.isActive && (matches(q.value, c.name) || matches(q.value, c.phone)));
      var r := Take(hits, SearchLimit);
      SubsequencePrefix(r, hits, store);
      r
  }

  /** A prefix of a subsequence is a subsequence. */
  lemma {:induction false} SubsequencePrefix<T>(r: seq<T>, hits: seq<T>, s: seq<T>)
    requires r <= hits && SubsequenceOf(hits, s)
    ensures SubsequenceOf(r, s)
    decreases |s|
  {
    if |r| > 0 && |s| > 0 {
      if hits[0] == s[0] && SubsequenceOf(hits[1..], s[1..]) {
        SubsequencePrefix(r[1..], hits[1..], s[1..]);
      } else {
        SubsequencePrefix(r, hits, s[1..]);
      }
    }
  }

  /** A JSON value in a request body. */
  datatype Json = JStr(s: string) | JBool(b: bool) | JNum(n: int) | JNull

  /** The only fields an update may set. */
  const UpdatableFields: set<string> := {"name", "phone", "notes", "isActive"}

  function TrimIfString(v: Json): Json
  {
    if v.JStr? then JStr(Trim(v.s)) else v
  }

  /** The update built from a request body: the whitelisted fields that are
      present, string values trimmed; every other field is dropped. */
  function Updates(body: map<string, Json>): (u: map<string, Json>)
    ensures u.Keys == body.Keys * UpdatableFields
    ensures forall k :: k in u ==> u[k] == TrimIfString(body[k])
  {
    map k | k in body.Keys * UpdatableFields :: TrimIfString(body[k])
  }

  /** The update carries values of the schema's own types: strings for the
      text fields and a boolean for `isActive`. The database would also cast
      some other values (numbers to text, "true" to a boolean, null); the
      model refuses those. */
  predicate WellTyped(u: map<string, Json>)
  {
    && ("name" in u ==> u["name"].JStr?)
    && ("phone" in u ==> u["phone"].JStr?)
    && ("notes" in u ==> u["notes"].JStr?)
    && ("isActive" in u ==> u["isActive"].JBool?)
  }

  /** Writes the fields of a well-typed update onto a client. */
  function ApplyUpdates(c: Client, u: map<string, Json>): Client
    requires WellTyped(u)
  {
    Client(c.id,
           if "name" in u then u["name"].s else c.name,
           if "phone" in u then u["phone"].s else c.phone,
           if "notes" in u then u["notes"].s else c.notes,
           if "isActive" in u then u["isActive"].b else c.isActive)
  }

  /** `updateClient`: the update is checked first (a value not of the
      schema's type, or a name that trims to nothing, is a server error), then
      404 when the id is unknown; otherwise the whitelisted fields are written
      and nothing else changes. */
  function UpdateClient(store: seq<Client>, id: Id, body: map<string, Json>): (r: Result<Saved>)
    ensures r.Err? ==> r.status != BadRequest
    ensures r == Err(NotFound) <==>
              WellTyped(Updates(body)) && !("name" in body && body["name"].JStr? && Trim(body["name"].s) == [])
              && forall j :: 0 <= j < |store| ==> store[j].id != id
    ensures r == Err(ServerError) <==>
              !WellTyped(Updates(body)) || ("name" in body && body["name"].JStr? && Trim(body["name"].s) == [])
    ensures r.Ok? <==>
              WellTyped(Updates(body)) && !("name" in body && body["name"].JStr? && Trim(body["name"].s) == [])
              && exists j :: 0 <= j < |store| && store[j].id == id
    ensures r.Ok? ==> Find(store, ClientKey, id).Some?
    ensures r.Ok? ==>
              var i := Find(store, ClientKey, id).value;
              && r.value.client.id == id
              && r.value.store == store[i := r.value.client]
  {
    var u := Updates(body);
    if !WellTyped(u) then Err(ServerError)
    else if "name" in u && u["name"].s == [] then Err(ServerError)
    else match Find(store, ClientKey, id)
      case None => Err(NotFound)
      case Some(i) =>
        var c := ApplyUpdates(store[i], u);
        Ok(Saved(store[i := c], c))
  }

  /** What a successful update writes: each whitelisted field present in the
      body, trimmed; every other field keeps its stored value. */
  lemma UpdateClientWrites(store: seq<Client>, id: Id, body: map<string, Json>)
    requires UpdateClient(store, id, body).Ok?
    ensures "name" in body ==> body["name"].JStr?
    ensures "phone" in body ==> body["phone"].JStr?
    ensures "notes" in body ==> body["notes"].JStr?
    ensures "isActive" in body ==> body["isActive"].JBool?
    ensures var prev := store[Find(store, ClientKey, id).value];
            var c := UpdateClient(store, id, body).value.client;
            && c.name == (if "name" in body then Trim(body["name"].s) else prev.name)
            && c.phone == (if "phone" in body then Trim(body["phone"].s) else prev.phone)
            && c.notes == (if "notes" in body then Trim(body["notes"].s) else prev.notes)
            && c.isActive == (if "isActive" in body then body["isActive"].b else prev.isActive)
  {
    var u := Updates(body);
    assert WellTyped(u);
    assert forall k :: k in body && k in UpdatableFields ==> k in u && u[k] == TrimIfString(body[k]);
  }

  /** Fields outside the whitelist have no effect on the update. */
  lemma UpdateIgnoresOtherFields(store: seq<Client>, id: Id, body: map<string, Json>, k: string, v: Json)
    requires k !in UpdatableFields
    ensures UpdateClient(store, id, body[k := v]) == UpdateClient(store, id, body)
  {
    assert Updates(body[k := v]) == Updates(body);
  }

  /** `deleteClient`: a soft delete. 404 when the id is unknown; otherwise
      `isActive` becomes false and nothing else changes. */
  function DeleteClient(store: seq<Client>, id: Id): (r: Result<Saved>)
    ensures r.Err? <==> forall j :: 0 <= j < |store| ==> store[j].id != id
    ensures r.Err? ==> r.status == NotFound
    ensures r.Ok? ==>
              var i := Find(store, ClientKey, id).value;
              && r.value.client == store[i].(isActive := false)
              && r.value.store == store[i := r.value.client]
              && |r.value.store| == |store|
  {
    match Find(store, ClientKey, id)
    case None => Err(NotFound)
    case Some(i) =>
      var c := store[i].(isActive := false);
      Ok(Saved(store[i := c], c))
  }

  /** Deleting a client twice is the same as deleting it once. */
  lemma DeleteClientIdempotent(store: seq<Client>, id: Id)
    requires DeleteClient(store, id).Ok?
    ensures DeleteClient(DeleteClient(store, id).value.store, id).Ok?
    ensures DeleteClient(DeleteClient(store, id).value.store, id).value.store == DeleteClient(store, id).value.store
  {
    var i := Find(store, ClientKey, id).value;
    var once := DeleteClient(store, id).value.store;
    assert once[i].id == id;
    var k := Find(once, ClientKey, id).value;
    assert k == i by {
      forall j | 0 <= j < i
        ensures once[j].id != id
      {
        assert once[j] == store[j];
      }
    }
  }
}
