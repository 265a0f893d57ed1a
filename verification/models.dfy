/** The four document schemas: the fields of each record, their defaults,
    the `trim` setters and the validators that run when a record is saved.
    A record that fails a validator is not stored; the handler that tried
    to save it answers with a server error. */
module Models {

  import opened Outcomes
  import opened Text
  import opened Store

  /** A catalogue entry. Deactivated services stay in the collection. */
  datatype Service = Service(id: Id, name: string, category: string, price: int, isActive: bool)

  /** A client of the salon; soft-deleted clients have `isActive == false`. */
  datatype Client = Client(id: Id, name: string, phone: string, notes: string, isActive: bool)

  /** A business expense; `date` is an instant (milliseconds since the epoch). */
  datatype Expense = Expense(id: Id, date: int, category: string, amount: int, notes: string)

  /** One billed service inside a visit: the service's id, a copy of its name
      and base price when billed, the price actually charged, and the line
      total (one unit per line). */
  datatype LineItem = LineItem(service: Id, name: string, basePrice: int, chargedPrice: int, lineTotal: int)

  /** A billed visit of a client. */
  datatype Visit = Visit(id: Id, client: Id, visitDate: int, services: seq<LineItem>,
                         totalAmount: int, notes: string, isDeleted: bool)

  /** A service currently offered (`isActive`). */
  predicate Active(s: Service)
  {
    s.isActive
  }

  function ServiceKey(s: Service): Id { s.id }
  function ClientKey(c: Client): Id { c.id }
  function ExpenseKey(e: Expense): Id { e.id }
  function VisitKey(v: Visit): Id { v.id }

  /** A string field with `trim: true` holds no surrounding white space. */
  predicate Trimmed(s: string)
  {
    Trim(s) == s
  }

  /** Service schema validators: `name` required, `price` at least 0. */
  predicate ServiceValidators(s: Service)
  {
    s.name != [] && s.price >= 0
  }

  /** A stored service: it passed the validators and its name went through
      the `trim` setter. */
  predicate ValidService(s: Service)
  {
    ServiceValidators(s) && Trimmed(s.name)
  }

  /** Client schema validators: `name` required (`phone` is not required and
      not unique). */
  predicate ClientValidators(c: Client)
  {
    c.name != []
  }

  /** A stored client: validated, with name and phone trimmed. */
  predicate ValidClient(c: Client)
  {
    ClientValidators(c) && Trimmed(c.name) && Trimmed(c.phone)
  }

  /** Expense schema validators: `category` required, `amount` at least 0. */
  predicate ExpenseValidators(e: Expense)
  {
    e.category != [] && e.amount >= 0
  }

  /** A stored expense: validated, with category and notes trimmed. */
  predicate ValidExpense(e: Expense)
  {
    ExpenseValidators(e) && Trimmed(e.category) && Trimmed(e.notes)
  }

  /** Line-item schema: every billed line carries a name. */
  predicate NamedLines(lines: seq<LineItem>)
  {
    forall i :: 0 <= i < |lines| ==> lines[i].name != []
  }

  /** Visit schema: the list of billed services must not be empty and every
      line needs a name. Prices and the total have no lower bound. */
  predicate ValidVisit(v: Visit)
  {
    |v.services| > 0 && NamedLines(v.services)
  }

  /** Saving a service document runs the validators; a refusal surfaces as a
      server error. */
  function CheckService(s: Service): (r: Result<Service>)
    ensures r.Ok? <==> s.name != [] && s.price >= 0
    ensures r.Ok? ==> r.value == s
    ensures r.Err? ==> r.status == ServerError
  {
    if ServiceValidators(s) then Ok(s) else Err(ServerError)
  }

  /** A new service: the name is trimmed, `category` defaults to "" and
      `isActive` to true. */
  function NewService(id: Id, name: string, category: Option<string>, price: int): (r: Result<Service>)
    ensures r.Ok? <==> Trim(name) != [] && price >= 0
    ensures r.Ok? ==> ValidService(r.value)
    ensures r.Ok? ==> r.value == Service(id, Trim(name), category.GetOr([]), price, true)
    ensures r.Err? ==> r.status == ServerError
  {
    TrimIdempotent(name);
    CheckService(Service(id, Trim(name), category.GetOr([]), price, true))
  }

  /** Validation of a client document. */
  function CheckClient(c: Client): (r: Result<Client>)
    ensures r.Ok? <==> c.name != []
    ensures r.Ok? ==> r.value == c
    ensures r.Err? ==> r.status == ServerError
  {
    if ClientValidators(c) then Ok(c) else Err(ServerError)
  }

  /** A new client: name and phone trimmed, `notes` defaults to "" and
      `isActive` to true. */
  function NewClient(id: Id, name: string, phone: string, notes: Option<string>): (r: Result<Client>)
    ensures r.Ok? <==> Trim(name) != []
    ensures r.Ok? ==> ValidClient(r.value)
    ensures r.Ok? ==> r.value == Client(id, Trim(name), Trim(phone), notes.GetOr([]), true)
    ensures r.Err? ==> r.status == ServerError
  {
    TrimIdempotent(name);
    TrimIdempotent(phone);
    CheckClient(Client(id, Trim(name), Trim(phone), notes.GetOr([]), true))
  }

  /** A new expense: `date` defaults to the current instant, `notes` to "";
      `category` and `notes` are trimmed, then validated. */
  function NewExpense(id: Id, now: int, date: Option<int>, category: string, amount: int,
                      notes: Option<string>): (r: Result<Expense>)
    ensures r.Ok? <==> Trim(category) != [] && amount >= 0
    ensures r.Ok? ==> ValidExpense(r.value)
    ensures r.Ok? ==> r.value == Expense(id, date.GetOr(now), Trim(category), amount, Trim(notes.GetOr([])))
    ensures r.Err? ==> r.status == ServerError
  {
    var e := Expense(id, date.GetOr(now), Trim(category), amount, Trim(notes.GetOr([])));
    TrimIdempotent(category);
    TrimIdempotent(notes.GetOr([]));
    if ExpenseValidators(e) then Ok(e) else Err(ServerError)
  }

  /** A new visit: `visitDate` defaults to the current instant, `notes` to ""
      and `isDeleted` to false; a visit without services, or with a line
      whose name is empty, is refused. */
  function NewVisit(id: Id, now: int, client: Id, visitDate: Option<int>, services: seq<LineItem>,
                    totalAmount: int, notes: Option<string>): (r: Result<Visit>)
    ensures r.Ok? <==> |services| > 0 && forall i :: 0 <= i < |services| ==> services[i].name != []
    ensures r.Ok? ==> ValidVisit(r.value)
    ensures r.Ok? ==> r.value == Visit(id, client, visitDate.GetOr(now), services, totalAmount,
                                       notes.GetOr([]), false)
    ensures r.Err? ==> r.status == ServerError
  {
    var v := Visit(id, client, visitDate.GetOr(now), services, totalAmount, notes.GetOr([]), false);
    if ValidVisit(v) then Ok(v) else Err(ServerError)
  }
}
