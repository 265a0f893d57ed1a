# SalonCRM core, modelled in Dafny

SalonCRM is a small salon back office. It has a catalogue of services, client records, billed visits, expenses and a financial summary. The back end is a set of Express handlers over Mongoose models. The front end is a set of React pages.

This project models the core of both as pure Dafny functions over immutable records:

- **Back-end handlers.**
  - Each collection is a sequence of records in storage order, with string ids.
  - Each handler is a function from the collection and the request to a `Result`: `Ok` with the answer and the collection afterwards, or `Err` with 400 (`BadRequest`), 404 (`NotFound`) or 500 (`ServerError`).
  - A 500 models a schema validator refusing a save: a name that trims to nothing, or a negative price or amount.
- **Time.**
  - Instants are integer milliseconds since the epoch.
  - A day is `instant / 86_400_000`.
  - Query dates are day numbers. An absent or empty query parameter is `None`.
- **Money.** Money is an integer.
- **Front-end pages.** Each page handler is a function from the page state (and, where the page talks to the server, from the server's answer) to the page state afterwards. Where it matters, the answer is the modelled handler itself, so the front-end guards and the back-end checks are proved against each other.

Modules, one per file:

| module | models |
|---|---|
| `Outcomes` | HTTP outcomes |
| `Seqs` | sums, filters, distinctness |
| `Sorting` | insertion sort against a total preorder, for `.sort()` |
| `Text` | trim, lower/upper case, `includes`, code-point order, digit filter, initials |
| `Calendar` | days, the day-label loop, civil dates, weekdays |
| `Store` | lookup by id, removal |
| `Grouping` | the `$group`/`$sum` stage |
| `Models` | the schemas, their defaults and validators |
| `ServiceController`, `ClientController`, `ExpenseController`, `VisitController`, `ReportController` | one per controller; `ReportProperties` holds the summary's consistency lemmas |
| `ClientDetailPage`, `ServicesPage`, `ClientsPage`, `ReportsPage` | one per page |

## Model

| member | source | states |
|---|---|---|
| Models.NewService | backend/models/Service.js:3-25 | a new service is stored with its name trimmed, category defaulting to "" and isActive to true; it is refused (500) exactly when the trimmed name is empty or the price is negative |
| Models.CheckService | backend/models/Service.js:5-18 | a save succeeds exactly when the name is non-empty and the price is at least 0, and then stores the record unchanged |
| Models.NewClient | backend/models/Client.js:3-25 | a new client is stored trimmed, notes defaulting to "" and isActive to true; refused exactly when the trimmed name is empty |
| Models.CheckClient | backend/models/Client.js:5-9 | a client document validates exactly when its name is non-empty |
| Models.NewExpense | backend/models/Expense.js:3-27 | a new expense defaults its date to now and notes to ""; category and notes are trimmed; refused exactly when the trimmed category is empty or the amount is negative |
| Models.NewVisit | backend/models/Visit.js:3-64 | a visit is stored exactly when it has at least one line and every line has a non-empty name; visitDate defaults to now, notes to "", isDeleted to false |
| ServiceController.AddService | backend/controllers/serviceController.js:4-33 | 400 exactly when the name is missing or empty, the price is missing, or the trimmed name is already taken; 500 exactly when otherwise the trimmed name is empty or the price negative; on success the trimmed record is appended, and it is valid (trimmed non-empty name, non-negative price) |
| ServiceController.AddServiceKeepsIdsUnique | backend/controllers/serviceController.js:21-28 | a service saved under a fresh id keeps the catalogue's ids unique |
| ServiceController.AddServiceKeepsNamesDistinct | backend/controllers/serviceController.js:14-19 | the duplicate-name check keeps a catalogue's names distinct across an add |
| ServiceController.GetServices | backend/controllers/serviceController.js:36-44 | the answer is a permutation of the whole catalogue, inactive services included, ordered by name |
| ServiceController.UpdateService | backend/controllers/serviceController.js:47-68 | 404 exactly when the id is unknown; 500 exactly when the patched record fails validation; a sent field overwrites (the name trimmed), an absent one keeps its value; only that record changes |
| ServiceController.UpdateServiceFrame | backend/controllers/serviceController.js:52-62 | an update changes no record other than the one with the given id |
| ServiceController.ToggleServiceStatus | backend/controllers/serviceController.js:91-111 | 404 exactly when the id is unknown; otherwise only isActive of that service is negated |
| ServiceController.ToggleTwiceRestores | backend/controllers/serviceController.js:100 | toggling the same service twice gives back the original catalogue |
| ServiceController.ToggleKeepsValid | backend/controllers/serviceController.js:100-101 | a toggle keeps every stored service valid |
| ClientController.CreateClient | backend/controllers/clientController.js:4-23 | 400 exactly when name or phone is missing or empty; 500 exactly when the name is only whitespace; on success the trimmed, active client is appended |
| ClientController.CreateClientKeepsIdsUnique | backend/controllers/clientController.js:4-23 | a client saved under a fresh id keeps the client ids unique |
| ClientController.GetClients | backend/controllers/clientController.js:26-35 | the answer holds each active client (and only those) as often as stored, ordered by name |
| ClientController.GetClientById | backend/controllers/clientController.js:38-50 | 404 exactly when no client has the id; otherwise a stored client with that id, active or not |
| ClientController.SearchClients | backend/controllers/clientController.js:53-69 | an empty query finds nothing; otherwise at most 10 active matching clients in storage order; fewer than 10 means every match is included |
| ClientController.Updates | backend/controllers/clientController.js:74-84 | the update holds exactly the whitelisted fields present in the body, strings trimmed |
| ClientController.UpdateClient | backend/controllers/clientController.js:72-100 | a 500 exactly when a whitelisted field is not a string (name, phone, notes) or not a boolean (isActive), or the name trims to nothing, checked before the id is looked up; otherwise 404 exactly for an unknown id and success for a known one; on success only the client's own slot changes and its id is kept |
| ClientController.UpdateClientWrites | backend/controllers/clientController.js:74-90 | after a successful update every whitelisted field present in the body was well typed and is stored trimmed; absent fields keep their stored values |
| ClientController.UpdateIgnoresOtherFields | backend/controllers/clientController.js:75-78 | adding a non-whitelisted field to the body does not change the outcome |
| ClientController.DeleteClient | backend/controllers/clientController.js:103-119 | 404 exactly for an unknown id; otherwise the client is kept with isActive false and nothing else changes |
| ClientController.DeleteClientIdempotent | backend/controllers/clientController.js:105-109 | deleting a client twice leaves the same collection as deleting it once |
| ExpenseController.AddExpense | backend/controllers/expenseController.js:5-28 | 400 exactly when the category is missing or empty or the amount is missing; 500 exactly when the category is only whitespace or the amount negative; on success the trimmed expense is appended |
| ExpenseController.AddExpenseKeepsIdsUnique | backend/controllers/expenseController.js:5-28 | an expense saved under a fresh id keeps the expense ids unique, which deleting by id relies on |
| ExpenseController.GetExpenses | backend/controllers/expenseController.js:32-55 | the answer holds each in-window expense as often as stored and nothing else, newest first |
| ExpenseController.WindowByDays | backend/controllers/expenseController.js:38-47 | each bound applies on its own: from midnight of `from`, through the whole day of `to` |
| ExpenseController.DeleteExpense | backend/controllers/expenseController.js:58-72 | 404 exactly for an unknown id; otherwise exactly that record is removed, the rest keep their order, and no record with that id remains |
| VisitController.Bill | backend/controllers/visitController.js:42-68 | each line carries the catalogue name and price, the charged price defaults to the base price, and the total is the sum of line totals; the schema refuses it (500) exactly when a billed service has an empty name |
| VisitController.CreateVisit | backend/controllers/visitController.js:9-75 | the checks come in the source's order: missing client id, empty service list, unknown client (404), count of active matches differs from the request (400); a 500 exactly when a request passing them names a service that does not resolve or has an empty name; success exactly when it passes them and every selected service resolves with a name, and every success is the billed visit |
| VisitController.CreateVisitKeepsIdsUnique | backend/controllers/visitController.js:9-75 | a visit saved under a fresh id keeps the visit ids unique, which deleting by id relies on |
| VisitController.CountCheckIff | backend/controllers/visitController.js:26-35 | with unique catalogue ids, the count check passes exactly when the requested ids are distinct and all active |
| VisitController.CreateVisitSucceeds | backend/controllers/visitController.js:9-75 | a request with a known client and distinct active services from a catalogue of named services is accepted |
| VisitController.UnnamedServiceRefused | backend/controllers/visitController.js:53-68 | a service with an empty name passes the handler's checks and its visit is refused by the schema with 500 |
| VisitController.CreateVisitRejectsRepeats | backend/controllers/visitController.js:28-35 | a request naming the same service twice is refused with 400 |
| VisitController.BillingExample | backend/controllers/visitController.js:42-58 | A (500) charged 450 and B (300) at its base price bill as two lines totalling 750 |
| VisitController.GetClientVisits | backend/controllers/visitController.js:80-89 | the answer holds exactly that client's visits, each as often as stored, newest first |
| VisitController.DeleteVisit | backend/controllers/visitController.js:94-104 | 404 exactly for an unknown id; otherwise exactly that visit is removed |
| ReportController.ResolveRange | backend/controllers/reportController.js:9-22 | 400 exactly when one bound is given without the other; no bounds is epoch to now; two bounds run from midnight of `from` to the last millisecond of `to` |
| ReportController.ResolvedRangeIsWholeDays | backend/controllers/reportController.js:19-21 | with both bounds an instant is in range exactly when its day lies between `from` and `to` |
| ReportController.CategoryTotals | backend/controllers/reportController.js:63-72 | one row per distinct category, each with its category's sum, largest total first, rows adding up to the total |
| ReportController.ByDay | backend/controllers/reportController.js:74-95 | one row per day from the start day to the end day, none when the range is empty; each row has that day's earnings and expenses, 0 for a quiet day |
| ReportController.BuildByDay | backend/controllers/reportController.js:74-95 | the cursor loop and the per-day lookup produce exactly the day series |
| ReportController.GetSummary | backend/controllers/reportController.js:5-114 | 400 exactly for a one-sided range; otherwise the echoed bounds, the visit count, the earnings and expense totals of in-range records, netProfit as their difference, the day series and the labelled category rows |
| ReportProperties.ByDayAddsUp | backend/controllers/reportController.js:86-95 | the day rows add up to the earnings and expense totals: no in-range record falls outside the listed days or is counted twice |
| ReportProperties.SummaryConsistent | backend/controllers/reportController.js:100-109 | a summary's day rows and category rows add up to its totals, and netProfit is earnings minus expenses |
| ReportProperties.FilterIsWholeDays | backend/controllers/reportController.js:19-40 | with both bounds a visit or expense is counted exactly when its day lies between `from` and `to` |
| ReportProperties.OneDayExample | backend/controllers/reportController.js:5-109 | a 1000 visit and a 200 expense on the same day, reported over that day, give one day row, a profit of 800 and one category row |
| Calendar.DayLabels | backend/controllers/reportController.js:75-84 | the cursor loop yields one consecutive day per step up to the end, and from a midnight start exactly the days from the start day to the end day |
| Calendar.DayNumberExamples | frontend/src/pages/ReportsPage.js:87-93 | the civil-date day numbering agrees with the epoch (1970-01-01 is day 0, a Thursday) and known dates |
| Grouping.PartitionSum | backend/controllers/reportController.js:39-60 | summing the groups of distinct keys that cover every record gives the grand total |
| ClientDetailPage.Offered | frontend/src/pages/ClientDetailPage.js:44 | exactly the active services are offered, each copy once, in catalogue order |
| ClientDetailPage.AddServiceToVisit | frontend/src/pages/ClientDetailPage.js:60-75 | an unknown selection changes nothing; otherwise one line priced at the catalogue price is appended and the selection cleared |
| ClientDetailPage.TypedPrice | frontend/src/pages/ClientDetailPage.js:81 | a typed price is never negative: a non-number or non-positive input gives 0, a positive one itself |
| ClientDetailPage.UpdateChargedPrice | frontend/src/pages/ClientDetailPage.js:77-85 | only the line at the index changes, and only its charged price |
| ClientDetailPage.RemoveService | frontend/src/pages/ClientDetailPage.js:87-89 | exactly the line at the index is removed, the others keep their order |
| ClientDetailPage.AddRaisesTotal | frontend/src/pages/ClientDetailPage.js:91-94 | adding a service raises the running total by its price |
| ClientDetailPage.UpdateMovesTotal | frontend/src/pages/ClientDetailPage.js:91-94 | editing a line moves the total by the change in its price |
| ClientDetailPage.RemoveLowersTotal | frontend/src/pages/ClientDetailPage.js:91-94 | removing a line lowers the total by its price |
| ClientDetailPage.AddVisit | frontend/src/pages/ClientDetailPage.js:96-118 | an empty cart sends nothing; otherwise the visit is posted, and an accepted visit clears cart and notes and carries the cart's total |
| ClientDetailPage.ServerTotalIsCartTotal | frontend/src/pages/ClientDetailPage.js:102-111 | the server's total for an accepted cart equals the running total the page showed |
| ClientDetailPage.RepeatedServiceRefused | frontend/src/pages/ClientDetailPage.js:60-72 | a cart holding the same service twice is refused by the server with 400 and the page is left unchanged |
| ClientDetailPage.PriceBadge | frontend/src/pages/ClientDetailPage.js:296-300 | '-' exactly for a discount, '+' exactly for a surcharge, no badge exactly at the catalogue price |
| ServicesPage.CountsAddUp | frontend/src/pages/ServicesPage.js:61-69 | the active and inactive counts add up to the number of services |
| ServicesPage.FilteredServices | frontend/src/pages/ServicesPage.js:71-77 | the shown services are the order-preserving sublist whose lower-cased name or category contains the lower-cased term, each matching copy kept |
| ServicesPage.EmptyTermKeepsAll | frontend/src/pages/ServicesPage.js:71-77 | an empty search term shows every service |
| ServicesPage.HandleSubmit | frontend/src/pages/ServicesPage.js:82-118 | a blank name or empty price sends nothing and sets the error; otherwise the form goes to the update handler while editing and to the add handler otherwise; a saved edit replaces the entry with the edited id, a saved add goes first and the form is reset; a refusal keeps the form and shows the error |
| ServicesPage.SubmitPassesNameCheck | frontend/src/pages/ServicesPage.js:86-110 | a sent form never fails the server's name validator: an add is a 400 exactly for a taken trimmed name and a 500 exactly for a negative price; an edit is never a 400 and a 500 exactly for a known id with a negative price |
| ServicesPage.ApplySaved | frontend/src/pages/ServicesPage.js:99-109 | an edit replaces exactly the entries with the edited id; an add prepends |
| ServicesPage.HandleToggle | frontend/src/pages/ServicesPage.js:142-169 | nothing happens without confirmation; otherwise the server's toggle handler is called, the target's status is flipped, and set back to its old value exactly when the server does not know the id |
| ServicesPage.FailedToggleRestores | frontend/src/pages/ServicesPage.js:153-168 | a toggle the server refuses restores the list the page showed |
| ServicesPage.ToggleAgreesWithServer | frontend/src/pages/ServicesPage.js:153-160 | after an accepted toggle the page shows the status the server stored, when the two agreed before the click |
| ServicesPage.CategoryClass | frontend/src/pages/ServicesPage.js:171-181 | the hair class exactly for a non-empty category containing "hair"; the skin class exactly for "skin" or "facial" without "hair"; the default class exactly for an empty category or one containing none of the three, all after lower-casing |
| ClientsPage.HandleSearch | frontend/src/pages/ClientsPage.js:77-94 | a blank query shows the full list; otherwise the order-preserving sublist whose lower-cased name or phone contains the lower-cased query, each matching copy kept |
| ClientsPage.PhoneInput | frontend/src/pages/ClientsPage.js:220-222 | the phone field is the typed text with every non-digit removed: digits only, in typed order, each digit as often as it was typed |
| ClientsPage.AddClient | frontend/src/pages/ClientsPage.js:99-130 | an empty name or phone sends nothing; a created client goes first in both lists and the form is reset and closed; a refusal sets the error |
| ClientsPage.BlankNameRefusedByServer | frontend/src/pages/ClientsPage.js:103-126 | a name of spaces passes the page's check but the server refuses it with 500 |
| ClientsPage.DeleteClient | frontend/src/pages/ClientsPage.js:135-151 | without confirmation or on a refusal nothing changes; otherwise exactly that id leaves both lists |
| ClientsPage.DeletedClientNotRefetched | frontend/src/pages/ClientsPage.js:139-146 | after the server's soft delete, fetching the list again does not bring the client back |
| Text.InitialsAreWordStarts | frontend/src/pages/ClientsPage.js:156-161 | the initials are the upper-cased first characters of the space-separated words, an empty word adding nothing |
| Text.TrimEmptyIffBlank | backend/controllers/clientController.js:13 | a string trims to nothing exactly when it is all whitespace |
| ReportsPage.SortExpenses | frontend/src/pages/ReportsPage.js:58-70 | the list is a permutation of the fetched expenses, newest date first, greater id first on the same date |
| ReportsPage.ExpenseOrderHasNoTies | frontend/src/pages/ReportsPage.js:114-119 | two expenses the order cannot separate share date and id |
| ReportsPage.Recent | frontend/src/pages/ReportsPage.js:237 | the recent table is the first five of the ordered list, or all of them when fewer |
| ReportsPage.ApplyPreset | frontend/src/pages/ReportsPage.js:79-99 | today is a single day; the week runs from a Monday at most six days back to today; the month runs from its first day to today |
| ReportsPage.PresetExample | frontend/src/pages/ReportsPage.js:86-95 | on Sunday 2025-12-07 the week starts Monday 2025-12-01, the first of the month |
| ReportsPage.HandleSaveExpense | frontend/src/pages/ReportsPage.js:129-155 | an empty category or amount sends nothing; otherwise the picked day is posted at midnight, or no date when the input was cleared; a stored expense clears category, amount and notes and keeps the day; a refusal leaves the form |
| ReportsPage.SentFormPassesPresenceCheck | frontend/src/pages/ReportsPage.js:131-143 | a form the page sends is never a 400 at the server; it fails exactly for a blank category or a negative amount; a stored expense is dated at midnight of the picked day, or at now when the date was cleared |
| ReportsPage.DoughnutIffPositiveExpense | frontend/src/pages/ReportsPage.js:319 | with stored expenses the doughnut is drawn exactly when some in-range expense has a positive amount |

## Left out

- Authentication: `authController.js`, `authMiddleware.js` and `User.js` are bcrypt and JWT library calls. They are not part of this model.
- Wiring and I/O: `server.js`, the route files, the axios client, routing and rendering. Handlers are called directly with their inputs.
- The MongoDB engine: queries are modelled as filter, sum and sort over sequences. Ties in a Mongo `sort` have no specified order. The model's insertion sort fixes one, and the contracts promise only a sorted permutation.
- ClientController.SearchClients: the case-insensitive regular expression is a parameter `matches`. Regular-expression syntax errors (a 500) are not modelled.
- ObjectId casts: a malformed id that makes Mongoose throw (a 500) is not modelled. An unknown id is a 404 as in the source. In `createVisit`, a catalogue holding two active services under one id can pass the count check while another requested service is missing. The lookup of that service then throws. Apart from the visit schema refusing a line with an empty name, this is the model's only 500 there.
- Mongoose casting: a value of the wrong type (for example a price sent as text) is not cast. Request fields are typed `Option`s. ClientController.UpdateClient is the exception: it takes a JSON body (see its own line below).
- Timezones: the summary groups by UTC day while the day labels use the host's local calendar. The page's presets mix local dates with `toISOString` (UTC). The model has one day function. The month preset, computed as local midnight of the 1st and printed in UTC, reads as the last day of the previous month east of Greenwich; the model does not show this.
- Floating point: JS numbers are floats. Money is an integer here, and a typed price that is not a whole number is not modelled.
- ReportsPage.ApplyPreset: takes today's civil date as a parameter instead of reading the clock. Any preset name other than "today" and "week" behaves as "month" in the source; the model has exactly three presets.
- ReportsPage.SortExpenses: `localeCompare` is taken as code-point order. For ObjectId hex strings the two agree.
- ServicesPage.HandleSubmit: the price text is read as a number by the caller, passed as `price`. `Number` on text that is not a number is not modelled.
- ReportsPage.HandleSaveExpense: the amount text is read as a number by the caller, passed as `amount`. `Number` on text that is not a number is not modelled.
- Async behaviour: `await` ordering, overlapping requests, `confirm`/`alert`, scrolling and charts are not modelled. Confirmation and the server's answer are parameters.
- The client profile editor (`saveClient`) and the visit history display in the client page are left out. They are direct calls to `updateClient` and `getClientVisits`.
- Text.IsSpace: covers ASCII whitespace, no-break space and the byte-order mark. Other Unicode space characters that JS `trim` also removes are not included.
- Text.Lower: changes only ASCII letters. JS `toLowerCase` also folds non-ASCII letters.
- Text.Upper: changes only ASCII letters, one character for one. JS `toUpperCase` also upper-cases non-ASCII letters and can lengthen the text ("ß" becomes "SS"), so a client's initials can differ for such names.
- ClientController.UpdateClient: Mongoose's casting of update values is not modelled. The source accepts a number or boolean sent for name, phone or notes (stored as its text), "true", "false", 0 or 1 sent for isActive (stored as a boolean), and a null for phone, notes or isActive (stored as null), all answered with 200. The model answers each of these with a 500, because it accepts only strings for the text fields and booleans for isActive.
