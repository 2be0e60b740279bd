# Scanventory inventory core, in Dafny

Scanventory is a small inventory application. An Express/Mongoose backend
keeps a table of items, and each item belongs to the account that created
it. An item gets a QR code that encodes its own store identifier, and its
quantity changes only by signed deltas that may never take it below zero.
A React dashboard lists the items with a search and two filters. It shows
summary figures, raises a notice when an item drops below five units, and
has a scanned-item panel with a quantity box.

This project models that core and proves properties of the model:

- `ItemModel` (item_model.dfy): the item record, and the schema's
  trimming and validation on save.
- `ItemRoutes` (item_routes.dfy): the item table as a class.
  - create (route presence check, then schema cast, then two saves around
    the code generation), list, get and quantity adjustment;
  - each request first passes the bearer-token gate.
- `AuthMiddleware` (auth_middleware.dfy): the `Authorization` header check,
  the prefix stripping, and the mapping of the token library's outcome to a
  reply.
- `ContactRoutes` (contact_routes.dfy): the contact-form presence check, the
  email regular expression, and the append to the store of messages.
- `DashboardLists` (dashboard_lists.dfy): the dashboard's filtered list,
  location choices and summary figures.
- `Dashboard` (dashboard.dfy):
  - the low-stock transition tracker (two loops, as in the effect);
  - the quantity box acceptance rule, the blur handler and the scan/load
    guards;
  - a `DashboardState` class holding the page state those handlers update.
- `JsText` and `JsNumber` (js_text.dfy, js_number.dfy): the JavaScript
  built-ins the core relies on.
  - white space as `\s` and `trim` see it, `toLowerCase`, `includes`, and
    the default `sort` order;
  - `toString` and `parseInt(…, 10)` on integers;
  - the text of a store identifier, as 24 lower-case hexadecimal digits.

The code generator (`QRCode.toDataURL`) is a parameter of the store: an
arbitrary function from text to an optional data URL, where `None` stands
for a thrown error. The token library (`jwt.verify`) is a parameter of the
gate: an arbitrary function from a token to its claims or an error name.
Clock readings and the replies of the page's requests are method
parameters.

Where the documentation and the code differ, the model follows the code:

- A create whose text fields are present but only white space, or whose
  quantity is negative, passes the route's own check. It then fails the
  schema's validators. The route's catch-all answers 500 "Server error
  while creating item.", not a 400 validation reply.
- `backend/src/models/Item.js` declares no `userId` field. The routes set
  and query one, so the model gives every record the `owner` the routes
  intend.

## Model

| member | source | states |
|---|---|---|
| ItemModel.Cast | backend/src/models/Item.js:6-33 | Saving succeeds exactly when the trimmed name, category and location are non-empty and the quantity is at least 0; what is stored then passes the validators and keeps the quantity |
| ItemModel.CastTrims | backend/src/models/Item.js:8-28 | Each stored text field is the given one cut at white space on both ends |
| ItemModel.CastOfValid | backend/src/models/Item.js:8-28 | Fields that already pass are stored unchanged |
| ItemModel.CastIdempotent | backend/src/models/Item.js:8-28 | Casting a cast record changes nothing |
| ItemModel.NewRecord | backend/src/models/Item.js:29-36 | A newly saved record is valid, has no code yet, and both timestamps are the save time |
| ItemRoutes.Find | backend/src/routes/itemRoutes.js:71 | `findOne({_id, userId})` finds a position holding that id and owner, and finds none exactly when no record has both |
| ItemRoutes.Owned | backend/src/routes/itemRoutes.js:59 | `find({userId})` holds exactly the records of that owner |
| ItemRoutes.SortNewestFirst | backend/src/routes/itemRoutes.js:59 | The sort returns a permutation of its input |
| ItemRoutes.InsertByAgeOrdered | backend/src/routes/itemRoutes.js:59 | Inserting a record into a newest-first list keeps it newest-first |
| ItemRoutes.SortNewestFirstOrdered | backend/src/routes/itemRoutes.js:59 | The sort's result is ordered by creation stamp, descending |
| ItemRoutes.NextQuantity | backend/src/routes/itemRoutes.js:97-103 | An adjustment applies `q + delta`, or keeps `q` when that would be negative; a non-negative quantity stays non-negative |
| ItemRoutes.ReplayNonNegative | backend/src/routes/itemRoutes.js:97-104 | No series of adjustments takes a non-negative quantity below zero |
| ItemRoutes.ReplayAppliesAll | backend/src/routes/itemRoutes.js:97-104 | When no running total goes negative, the final quantity is the start plus the sum of all deltas |
| ItemRoutes.AppendKeepsValid | backend/src/routes/itemRoutes.js:40 | The first save of a valid record under a fresh id keeps the table invariant: valid records, distinct ids, codes that match their ids |
| ItemRoutes.ReplaceKeepsValid | backend/src/routes/itemRoutes.js:45-46 | Saving a valid record over one with the same id keeps the table invariant |
| ItemRoutes.ItemStore.constructor | backend/src/routes/itemRoutes.js:9 | The table starts empty and valid |
| ItemRoutes.ItemStore.Get | backend/src/routes/itemRoutes.js:69-75 | 200 with the record exactly when a record has both the id and the caller as owner; otherwise 404 "Item not found.", so another account's record looks missing |
| ItemRoutes.ItemStore.List | backend/src/routes/itemRoutes.js:57-60 | 200 with exactly the caller's records, a permutation of them, newest first |
| ItemRoutes.ItemStore.Create | backend/src/routes/itemRoutes.js:23-52 | Missing fields give 400 "All fields are required." and nothing is stored (quantity 0 passes). A failing cast gives 500 and nothing is stored. Otherwise exactly one record owned by the caller is appended, under the next id, with the cast fields; the reply is 201 with it |
| ItemRoutes.ItemStore.Stored | backend/src/routes/itemRoutes.js:15-46 | The created record carries the given fields and owner, and its code is the encoding of the text of its own id |
| ItemRoutes.ItemStore.SaveNew | backend/src/routes/itemRoutes.js:39-48 | The id exists before it is encoded. Encoder failure leaves the first save in place and answers 500. Otherwise the saved record gets the code and the reply is 201 |
| ItemRoutes.ItemStore.AdjustQuantity | backend/src/routes/itemRoutes.js:84-110 | No numeric delta gives 400 and a missing or foreign id gives 404, each with the table unchanged. A negative result gives 400 with the table unchanged. Otherwise only that record's quantity becomes old + delta. Every stored quantity is either unchanged or `NextQuantity` of the old one |
| ItemRoutes.ItemStore.Handle | backend/src/routes/itemRoutes.js:12 | A request the gate rejects gets the gate's reply and leaves the table unchanged. Otherwise records of other accounts are unchanged and new records belong to the caller; list and get answer for the caller and leave the table and the id counter unchanged |
| AuthMiddleware.TokenOf | backend/src/middleware/authMiddleware.js:15 | The token is the header with the seven-character "Bearer " prefix removed |
| AuthMiddleware.ErrorReply | backend/src/middleware/authMiddleware.js:25-33 | 401 exactly for `JsonWebTokenError` and `TokenExpiredError`, each with its message; every other error is 500 "Authentication error." |
| AuthMiddleware.Gate | backend/src/middleware/authMiddleware.js:6-34 | The request proceeds exactly when the header starts with "Bearer " and the token verifies, carrying the token's userId and email. A missing or malformed header gives 401 "No token provided. Please log in.". Every rejection is 401 or 500 "Authentication error." |
| AuthMiddleware.GateDependsOnlyOnToken | backend/src/middleware/authMiddleware.js:15-18 | Only the stripped token is passed to verification |
| AuthMiddleware.GateOnBearer | backend/src/middleware/authMiddleware.js:15-33 | For `Bearer t` the outcome is the claims of `t`, or the reply for the error name |
| AuthMiddleware.PrefixIsExact | backend/src/middleware/authMiddleware.js:11-12 | A lower-case scheme, or a missing space, counts as no token |
| ContactRoutes.EmailCheckMatchesPattern | backend/src/routes/contactRoutes.js:20-21 | The check accepts a string exactly when it matches `^[^\s@]+@[^\s@]+\.[^\s@]+$` |
| ContactRoutes.ValidEmailHasOneAt | backend/src/routes/contactRoutes.js:20 | An accepted address has exactly one `@`, with text before it |
| ContactRoutes.Check | backend/src/routes/contactRoutes.js:12-23 | A missing field gives 400 "All fields are required." before any email check. "Invalid email format." is given exactly when the fields are present and the pattern fails. Success is exactly both checks passing, with the record built from the three fields |
| ContactRoutes.ContactStore.constructor | backend/src/routes/contactRoutes.js:6 | The store starts empty |
| ContactRoutes.ContactStore.Submit | backend/src/routes/contactRoutes.js:10-38 | A refused submission leaves the store unchanged and returns the check's reply. An accepted one appends exactly one record and returns 201 with the thank-you message |
| JsText.LeadingSpaces | backend/src/models/Item.js:11 | The count of leading characters `trim` removes: all of them are white space, and the next one is not |
| JsText.TrailingSpaces | backend/src/models/Item.js:11 | The count of trailing characters `trim` removes: all of them are white space, and the one before them is not |
| JsText.TrimSpec | backend/src/models/Item.js:11 | `trim` leaves no white space at either end and removes only white space from the ends |
| JsText.TrimIdempotent | frontend/src/pages/Dashboard.jsx:159 | Trimming twice is trimming once |
| JsText.ToLower | frontend/src/pages/Dashboard.jsx:226 | Lower-casing keeps the length and maps each character |
| JsText.IncludesIff | frontend/src/pages/Dashboard.jsx:226 | `includes` holds exactly when the query occurs at some position |
| JsText.LessIrreflexive | frontend/src/pages/Dashboard.jsx:239 | The default `sort` order is irreflexive |
| JsText.LessAsymmetric | frontend/src/pages/Dashboard.jsx:239 | The default `sort` order is asymmetric |
| JsText.LessTransitive | frontend/src/pages/Dashboard.jsx:239 | The default `sort` order is transitive |
| JsText.LessTotal | frontend/src/pages/Dashboard.jsx:239 | Any two distinct strings are ordered one way or the other |
| JsNumber.ValueOfRender | backend/src/routes/itemRoutes.js:17 | Reading back the digits of a number gives the number |
| JsNumber.IdTextInjective | backend/src/routes/itemRoutes.js:17 | Distinct ids have distinct texts, so distinct ids are given distinct codes |
| JsNumber.DigitPrefix | frontend/src/pages/Dashboard.jsx:195 | `parseInt` reads the longest run of decimal digits |
| JsNumber.ParseIntOfToString | frontend/src/pages/Dashboard.jsx:175-195 | `parseInt(n.toString(), 10)` is `n` |
| DashboardLists.FilterItems | frontend/src/pages/Dashboard.jsx:223-236 | An item is shown exactly when it passes the search, the location choice and the stock choice |
| DashboardLists.FilterByIsOrderedSubsequence | frontend/src/pages/Dashboard.jsx:223 | A filtered list is the kept elements at strictly increasing positions, and the positions are exactly the kept ones |
| DashboardLists.FilterIsOrderedSubsequence | frontend/src/pages/Dashboard.jsx:223-236 | `filteredItems` is an order-preserving subsequence of the fetched items |
| DashboardLists.FilterByAppend | frontend/src/pages/Dashboard.jsx:78-86 | Filtering a list grown at its end extends the filtered list by the new element when it is kept |
| DashboardLists.FilterByNone | frontend/src/pages/Dashboard.jsx:78-86 | When no element is kept the result is empty |
| DashboardLists.Dedup | frontend/src/pages/Dashboard.jsx:239 | `new Set` keeps exactly the same elements, each once |
| DashboardLists.SortDistinct | frontend/src/pages/Dashboard.jsx:239 | Sorting distinct strings gives a strictly ascending list of the same strings |
| DashboardLists.UniqueLocations | frontend/src/pages/Dashboard.jsx:239 | The location choices are strictly sorted (so duplicate-free) and are exactly the locations of the fetched items |
| DashboardLists.StrictlySortedUnique | frontend/src/pages/Dashboard.jsx:239 | Two strictly sorted lists with the same elements are equal |
| DashboardLists.UniqueLocationsOrderFree | frontend/src/pages/Dashboard.jsx:239 | The location choices depend only on which items are fetched, not on their order |
| DashboardLists.CountLow | frontend/src/pages/Dashboard.jsx:243 | The low-stock count never exceeds the number of items |
| DashboardLists.StatsOf | frontend/src/pages/Dashboard.jsx:242-244 | The item count is the length of the filtered list, and the low-stock figure is at most the item count |
| DashboardLists.LowFilterAllLow | frontend/src/pages/Dashboard.jsx:232-243 | With the 'low' choice the low-stock figure equals the item count |
| DashboardLists.FilteredTotalBounded | frontend/src/pages/Dashboard.jsx:244 | With no negative quantity, the shown total is between 0 and the total of all items |
| DashboardLists.NeutralFiltersKeepAll | frontend/src/pages/Dashboard.jsx:223-236 | With the initial controls (empty search, 'all', 'all') every item is shown |
| Dashboard.Alerts | frontend/src/pages/Dashboard.jsx:78-86 | An item raises an alert exactly when its previous quantity is known and at least 5 and its current quantity is below 5 |
| Dashboard.QuantityMapSpec | frontend/src/pages/Dashboard.jsx:89-92 | The new map has every listed id as a key and no other, and holds the quantity of the last item with each id |
| Dashboard.QuantityMapRecordsAll | frontend/src/pages/Dashboard.jsx:89-92 | With distinct ids the new map holds each item's current quantity |
| Dashboard.TrackLowStock | frontend/src/pages/Dashboard.jsx:76-95 | The alerts are exactly `Alerts` of the previous map. The map becomes the current quantities, or stays as it was when the list is empty |
| Dashboard.CollectAlerts | frontend/src/pages/Dashboard.jsx:78-86 | The first loop collects exactly the alerts, in list order |
| Dashboard.RecordQuantities | frontend/src/pages/Dashboard.jsx:89-92 | The second loop builds exactly `QuantityMap` |
| Dashboard.NoRepeatAlert | frontend/src/pages/Dashboard.jsx:76-95 | Loading the same list again raises no alert |
| Dashboard.AlertOnceOnDrop | frontend/src/pages/Dashboard.jsx:76-92 | For lists with distinct ids, an item whose quantity drops from at least 5 to below 5 between two loads alerts on the second load, and a further load of the same list alerts on nothing |
| Dashboard.AcceptInput | frontend/src/pages/Dashboard.jsx:184-190 | The box takes text matching `-?\d*` (the empty text included) and otherwise keeps its old text |
| Dashboard.AcceptKeepsShape | frontend/src/pages/Dashboard.jsx:184-190 | The box keeps holding text of that shape |
| Dashboard.ToStringHasShape | frontend/src/pages/Dashboard.jsx:151-199 | The quantity text written into the box has that shape |
| Dashboard.ShapeParses | frontend/src/pages/Dashboard.jsx:195-198 | Any text of that shape other than "" and "-" parses to a number |
| Dashboard.OnBlur | frontend/src/pages/Dashboard.jsx:192-214 | Nothing happens exactly when there is no scanned item, the box is empty, or the box reads the current non-negative quantity. A reset (to the quantity's text) happens exactly when the text is not a number or is negative. A sent delta is non-zero, for the scanned item, and equals typed − current with typed ≥ 0 |
| Dashboard.BlurAfterResetIsQuiet | frontend/src/pages/Dashboard.jsx:198-201 | Leaving the box after a reset does nothing |
| Dashboard.SentDeltaLandsOnTyped | frontend/src/pages/Dashboard.jsx:205-213 | The server's adjustment by the sent delta gives exactly the typed quantity |
| Dashboard.BlurOnOwnQuantity | frontend/src/pages/Dashboard.jsx:205-210 | A box holding the current quantity sends nothing |
| Dashboard.ScanInput | frontend/src/pages/Dashboard.jsx:158-160 | The id field holds the typed text, trimmed |
| Dashboard.ScanInputStable | frontend/src/pages/Dashboard.jsx:159 | Re-entering the trimmed id changes nothing |
| Dashboard.OnLoad | frontend/src/pages/Dashboard.jsx:162-173 | An empty id does nothing. The id of the shown item gives "already loaded" and no fetch. Any other id is fetched as is |
| Dashboard.SecondLoadIsNoFetch | frontend/src/pages/Dashboard.jsx:165-169 | Once the scanned id's item is shown, loading again sends no request |
| Dashboard.ErrorText | frontend/src/pages/Dashboard.jsx:28 | A failed request shows its message, or "Request failed" when the message is empty |
| Dashboard.DashboardState.constructor | frontend/src/pages/Dashboard.jsx:35-55 | The initial page state: no items, neutral filters, empty map, empty id and box, no scanned item |
| Dashboard.DashboardState.Shown | frontend/src/pages/Dashboard.jsx:223-236 | The table shows exactly the loaded items that pass the current filters |
| Dashboard.DashboardState.Figures | frontend/src/pages/Dashboard.jsx:242-244 | The figures count the shown items |
| Dashboard.DashboardState.ItemsLoaded | frontend/src/pages/Dashboard.jsx:63-95 | The list is replaced, the alerts are computed against the old map, the map is replaced (unless the list is empty), and the last alert is the notice; nothing else changes |
| Dashboard.DashboardState.FiltersChanged | frontend/src/pages/Dashboard.jsx:460-502 | Only the filter controls change |
| Dashboard.DashboardState.ScanInputChanged | frontend/src/pages/Dashboard.jsx:158-160 | Only the id field changes, to the trimmed text |
| Dashboard.DashboardState.LoadScannedItem | frontend/src/pages/Dashboard.jsx:162-171 | Returns `OnLoad`'s action, shows "Item already loaded" for the shown id, clears the error before a fetch, and changes nothing else |
| Dashboard.DashboardState.ScannedItemFetched | frontend/src/pages/Dashboard.jsx:172-180 | A fetched item fills the panel and the box gets its quantity. A failure clears the panel and box and shows the error |
| Dashboard.DashboardState.QuantityInputChanged | frontend/src/pages/Dashboard.jsx:184-190 | Only the box changes, by `AcceptInput` |
| Dashboard.DashboardState.QuantityInputBlurred | frontend/src/pages/Dashboard.jsx:192-214 | Returns `OnBlur`'s action. A reset puts the quantity text back and warns "Invalid quantity. Please enter a number >= 0". A sent delta starts the adjustment, which clears the error banner. The box keeps its shape |
| Dashboard.DashboardState.AdjustmentStarted | frontend/src/pages/Dashboard.jsx:139-140 | Starting an adjustment clears the error banner and changes nothing else |
| Dashboard.DashboardState.ItemsRequested | frontend/src/pages/Dashboard.jsx:58-60 | Starting a reload of the list clears the error banner and changes nothing else |
| Dashboard.DashboardState.PutBack | frontend/src/pages/Dashboard.jsx:198-200 | The reset puts the given text in the box, shows the "Invalid quantity" warning, and changes nothing else |
| Dashboard.ResetTextHasShape | frontend/src/pages/Dashboard.jsx:199 | The text a reset puts back has the shape the box accepts (an optional minus and digits) |
| Dashboard.DashboardState.ScannedItemRefreshed | frontend/src/pages/Dashboard.jsx:147-152 | After an adjustment, the panel and box are refreshed only when they show the adjusted item |
| Dashboard.DashboardState.RequestFailed | frontend/src/pages/Dashboard.jsx:153-155 | A failed request shows its error and changes nothing else |

## Left out

- Network and browser I/O are not modelled: `fetch`, `localStorage`, the
  redirect to the login page on 401, and the awaiting of replies. Each
  reply a handler waits for is a parameter of the method that receives it.
- QR image encoding is an arbitrary function. The scanning, canvas and
  clipboard code of the QR card is not part of this model, and no
  encode/decode round trip is stated.
- The signature and expiry checks of `jwt.verify` are an arbitrary function
  from a token to claims or an error name.
- Account signup and login, password hashing, the server bootstrap, the
  Express wiring and the database connection are not part of this model.
- Mongoose cast errors (a malformed id gives 500) are not modelled.
  Identifiers are natural numbers, shown as 24 hexadecimal digits.
- JavaScript numbers are modelled as integers. NaN and fractional deltas,
  and values of other JSON types in a request body, are not modelled: a
  body field is either a value of its type or missing.
- Concurrent requests are not modelled. Requests run one after another, so
  the lost update between `findOne` and `save` under concurrent adjustments
  is not represented.
- `toLowerCase` is modelled for ASCII letters only. The default `sort`
  compares code points; for characters outside the Basic Multilingual
  Plane this can differ from JavaScript's UTF-16 order.
- ItemRoutes.ItemStore.Create: both saves use one clock reading `now`, so
  `updatedAt` is not advanced by the second save.
- ItemModel.Cast: the schema default of 0 for `quantity` is not modelled,
  because the route refuses a missing quantity before the schema runs.
- ItemModel.Cast: Mongoose's strict mode, which would drop the undeclared
  `userId`, is not modelled. The owner is kept as the routes intend.
- ItemRoutes.ItemStore.Handle: for create and adjustment requests the
  contract states only ownership isolation. The full result is the
  contract of `Create` and `AdjustQuantity`, which `Handle` calls.
- The contact record's own model file is not part of this model. A stored
  submission is the three fields, without timestamps.
- The `console` logging and the 500 replies for failures of the contact
  save and of list, get and adjustment queries are not modelled. The store
  is in memory and never fails.
- The `loading` flag of the list reload is not modelled. While a request
  is out it only disables the refresh buttons and changes what is rendered.
- Toast timers, JSX rendering, the create form on the dashboard (with its
  own low-stock notice) and the Enter-key blur are not modelled.
- Dashboard.DashboardState.ItemsLoaded: only the last alert is kept as the
  notice. Each `showToast` call replaces the previous one, and their
  timers are left out.
