# Restaurante ABBA order core, in Dafny

This project models the domain core of a small restaurant order-management web
application. Waiters (`garzon`) open orders for tables. Cooks (`cocinero`) work a
kitchen queue of pending orders. Reception (`recepcion`) totals the day's sales.
Admins issue registration PINs, and a PIN fixes the role of the person who
registers with it.

The relational store is an immutable `Models.Store`:
- One sequence per table of the schema. Element `id - 1` is the row with that
  auto-increment id; the application never deletes rows.
- A map from user id to profile.
- Prices are integer cents. Timestamps are integer microseconds.
- `Models.Valid` states the invariants every reachable store keeps: one profile
  per user, known role texts, unique usernames, table numbers and PIN codes, PIN
  use counters in 0..2, and foreign keys that resolve.

Every view is modelled as a pure function of the store and the request's
inputs. A view that writes returns an `Http.Step`: the store after the request,
plus a reply that is either `Ok` or one of the error responses
(`Http.Failure`). A read-only view (`Kitchen.KitchenQueue`,
`Kitchen.KitchenQueueData`, `Reception.ReceptionDashboard`) returns only an
`Http.Reply`. The daily report is a method, `Reception.DailyReport`, whose loop
builds the sheet's rows. Randomness (the PIN text), the clock (`now`, `today`)
and the auth layer's username normalisation (`norm`) are parameters.

Modules:
- `Text`: whitespace stripping, integer parsing and printing.
- `Models`: record shapes, defaults, the store invariant, `calculate_total` and
  the profile-creation signal.
- `Auth`: `register` and `home`.
- `Admin`: PIN issuance in `admin_users`.
- `Waiter`: `send_order` and `toggle_table_availability`.
- `Grouping`: the kitchen's group-by-(menu item, stripped note) fold and an
  independent reference description of its result.
- `Kitchen`: `kitchen_queue`, `kitchen_queue_data` and `update_order_status`.
- `Reception`: the reception dashboard and the daily report.

Notes on the code's behaviour:
- `send_order` is not atomic (see Findings).
- `update_order_status` answers a missing order with a 500, not a 404. The
  not-found error is raised inside the view's catch-all handler.
- The daily report's sheet is titled "Reporte Diario", as in the code.
- `kitchen_queue_data` checks the HTTP method before the role, because its
  GET-only decorator sits inside the login decorator.

## Model

| member | source | states |
|---|---|---|
| Models.ParseRole | restaurant/models.py:7-12 | A role column reads back as a role exactly when its text is one of the four choices; the role read back prints as that same text. |
| Models.CreateUserValid | restaurant/models.py:119-122 | Creating a user under a free name keeps the store invariants and adds exactly one profile. The new user is the only one with that name, and its profile has role `garzon` and no quick PIN. Every existing user keeps its profile. |
| Models.CreateTableValid | restaurant/models.py:22-25 | Adding a table with a fresh number keeps the invariants. The new table is the only one with that number; it seats 4 and is available. The earlier tables are unchanged. |
| Models.CreatePinValid | restaurant/models.py:84-94 | Adding a PIN with a fresh code and a known role keeps the invariants. The new PIN is the only one with that code, carries the role asked for and has 0 uses. The earlier PINs are unchanged. |
| Models.LogValid | restaurant/models.py:103-107 | Logging by an existing user keeps the invariants and never rewrites history. The earlier entries stay a prefix of the log, and the new last entry is by that user at that time. |
| Models.ItemsTotalAppend | restaurant/models.py:63-65 | The sum of quantity times price over two runs of line items is the sum of the two sums. |
| Models.TotalOfAddedItem | restaurant/models.py:63-65 | An order with no line items totals 0. Adding a line item raises its own order's total by quantity times price and leaves every other order's total unchanged. |
| Text.StripSpec | restaurant/views.py:252 | Stripping removes exactly the leading and trailing whitespace and keeps the middle intact. |
| Text.StripIdempotent | restaurant/views.py:252 | Stripping an already stripped note changes nothing. |
| Text.ParseInt | restaurant/views.py:164-165 | Text that is blank after `int()`'s whitespace trimming does not parse. Accepted text ends in a digit, and a negative result needs a leading minus sign. |
| Text.ParseIntSpec | restaurant/views.py:164-165 | Text is accepted exactly when, after trimming, it is an optional sign followed by digits with single underscores between them, and there are at most 4300 digits (`int()`'s default limit; leading zeros count, the sign and underscores do not). The magnitude of the result is the value of those digits, and only a minus sign makes it negative. |
| Text.ParseIntRejectsJunk | restaurant/views.py:164-165 | A decimal point, a letter, inner whitespace or a doubled sign makes the text unparseable. |
| Text.ParseIntUnderscores | restaurant/views.py:164-165 | Doubled and trailing underscores are refused; `1_0` reads as 10. |
| Text.ParseIntWhitespace | restaurant/views.py:164-165 | Spaces and newlines around a number are skipped, but the separator U+001C is not, although `strip()` drops it. |
| Text.ParseIntSigned | restaurant/views.py:164-165 | A minus sign negates, and leading zeros are allowed. |
| Text.ParseIntText | restaurant/views.py:164-165 | The decimal text of an integer parses back to that integer exactly when it has at most 4300 digits; the text of a longer integer is refused. |
| Text.FitsStrDigitsBound | restaurant/views.py:164-165 | An integer's decimal text is within the digit limit exactly when the integer lies strictly between -10^4300 and 10^4300. |
| Text.ParseIntDigitLimit | restaurant/views.py:164-165 | `n` zeros followed by a one read as 1 while the n + 1 digits fit the limit, and are refused beyond it: leading zeros count towards the limit. |
| Auth.FindUsablePin | restaurant/views.py:47-51 | Finds the first PIN with the given code and fewer than 2 uses, and finds none exactly when no such PIN exists. |
| Auth.GrantedRole | restaurant/views.py:59-66 | A PIN's role is granted when it is one of the four roles; any other text falls back to `garzon`. |
| Auth.Enrol | restaurant/views.py:57-77 | Successful registration appends the user under the stored (normalised) name and gives the profile the granted role. It raises the PIN's use counter by exactly one and logs one audit entry naming the username as posted; nothing else changes. |
| Auth.EnrolValid | restaurant/views.py:57-70 | Registration with a PIN below its cap keeps every store invariant, including use counters of at most 2. |
| Auth.Register | restaurant/views.py:31-83 | Non-POST shows the form. Blank fields, an unusable PIN and a taken username (as posted) are refused, in that order, with no change to the store (the PIN is untouched). When only the normalised name is taken, the request is a server error that writes nothing. Registration succeeds exactly when none of those applies. |
| Auth.RegisteredRole | restaurant/views.py:57-67 | The newly registered user exists and has the role of the PIN that admitted them, and that PIN had fewer than 2 uses. |
| Auth.RegisterBumpsCode | restaurant/views.py:69-70 | One request raises the use count of a code by one when it registers with that code, and otherwise leaves it alone. |
| Auth.PinAdmitsAtMostTwo | restaurant/views.py:47-70 | Over any sequence of registration requests, the registrations admitted by one PIN code plus its earlier uses never exceed 2. |
| Auth.LandingRoundTrip | restaurant/views.py:101-110 | The role-to-landing-page table is one-to-one: each role's page leads back to that role, and each role page comes from its role. |
| Auth.Home | restaurant/views.py:86-112 | The caller ends with a profile (a missing one is created with role `garzon`). A superuser goes to the admin site; anyone else goes to the page of their role, or sees "unrecognised role". |
| Auth.HomeLandsOnOwnRole | restaurant/views.py:94-110 | In a valid store, home changes nothing and sends a non-superuser to the page of the role stored in their profile, never to the unrecognised-role page. |
| Admin.IssuePin | restaurant/views.py:339-369 | Non-admins are sent home; GET shows the page; an unknown role is refused. A code that is already taken is a server error. Otherwise exactly one PIN with zero uses is added and one audit entry is logged. |
| Admin.IssuedPinRegisters | restaurant/views.py:352-364 | A freshly issued PIN admits the registration of a name that is free both as posted and as stored. The new user gets the role the admin chose, and the PIN has been used once. |
| Grouping.DistinctKeys | restaurant/views.py:249-257 | Lists every line's (menu item, stripped note) key with no repetition. |
| Grouping.DistinctKeysExact | restaurant/views.py:249-257 | A key is listed exactly when some line carries it. |
| Grouping.FirstOccurrenceOrder | restaurant/views.py:249-257 | Keys are listed in order of first occurrence: a key listed earlier first appears on an earlier line. |
| Grouping.FoldHtmlReference | restaurant/views.py:249-257 | The page view's dictionary fold agrees, group by group, with the reference groups. |
| Grouping.FoldJsonReference | restaurant/views.py:278-286 | Whenever lines naming the same menu item carry the same name, the JSON view's fold agrees, group by group, with the reference groups. |
| Grouping.GroupHtml | restaurant/views.py:249-257 | One group per distinct key, in order of first occurrence. Each group holds the first such line's menu item and stripped note, with a quantity equal to the sum over all lines with that key. |
| Grouping.GroupJson | restaurant/views.py:278-286 | The JSON view's groups are the same reference groups, by item name. |
| Grouping.JsonAgreesWithHtml | restaurant/views.py:278-286 | The JSON and page views give the same groups in the same order. |
| Grouping.GroupingKeepsQuantity | restaurant/views.py:249-257 | The group quantities add up to the total quantity of the order's lines. |
| Kitchen.PendingIds | restaurant/views.py:244 | Exactly the orders with status `not_taken` or `preparing`, each once. |
| Kitchen.InsertKeepsOrder | restaurant/views.py:246 | Inserting an order into a queue sorted by creation time keeps it sorted. |
| Kitchen.SortByCreation | restaurant/views.py:246 | The sorted queue is a permutation of its input, ascending by `created_at`, and stays free of duplicates. |
| Kitchen.QueueIds | restaurant/views.py:244-246 | The queue holds exactly the pending orders, each once, in ascending `created_at` order. |
| Kitchen.KitchenQueue | restaurant/views.py:234-259 | Only cooks and admins see the queue; others are sent home. There is one entry per queued order, in queue order. |
| Kitchen.KitchenQueueShows | restaurant/views.py:244-259 | Each page entry is the queued order at its position, with its table's number and its grouped items. |
| Kitchen.KitchenQueueData | restaurant/views.py:262-296 | A non-GET request is refused with 405 whatever the role; on GET, non-kitchen roles get a 403. Otherwise there is one entry per queued order, in queue order. |
| Kitchen.KitchenQueueDataDescribes | restaurant/views.py:273-296 | Each JSON entry carries the queued order's id, table number, status text and label, notes and JSON groups. |
| Kitchen.QueueViewsAgree | restaurant/views.py:273-296 | The JSON endpoint lists the same orders as the page, in the same order, with the same table, status and groups. |
| Kitchen.TargetStatus | restaurant/views.py:313-315 | Only `preparing` and `ready` are accepted as targets. |
| Kitchen.UpdateOrderStatus | restaurant/views.py:300-334 | Succeeds exactly for a kitchen role posting an accepted target for an existing order. The refusals come in the view's order: 403 for any other role, 405 for any other method, 400 "Estado inválido" for any other target, and 500 for a missing order, whose not-found error the catch-all handler turns into a server error. Every failure leaves the store unchanged. |
| Kitchen.UpdateOrderStatusEffect | restaurant/views.py:317-326 | On success only that order's status changes, and it becomes the target whatever it was before. Exactly one audit entry by the caller is added. |
| Kitchen.UpdateRejectsOtherTargets | restaurant/views.py:313-315 | Any other target is a 400 with "Estado inválido" and no change. |
| Kitchen.UpdateOrderStatusIdempotent | restaurant/views.py:310-328 | Repeating a successful update succeeds again, leaves the orders as they were after the first update, and writes one more audit entry. |
| Reception.OrdersOn | restaurant/views.py:397-398 | Exactly the orders created on the given day, in id order. |
| Reception.AnnotatedTotalNull | restaurant/views.py:400 | The per-order `Sum` annotation is NULL exactly when the order has no line items. |
| Reception.AnnotatedTotalValue | restaurant/views.py:400-402 | With NULL read as 0, the annotation equals the order's `calculate_total`. |
| Reception.DashboardRowOf | restaurant/views.py:398-402 | A dashboard row has a NULL total exactly for an order without items; otherwise its total is the order's total. |
| Reception.RowsTotalIsSales | restaurant/views.py:402 | The dashboard's grand total is the sum of the orders' totals. |
| Reception.ReceptionDashboard | restaurant/views.py:387-403 | Only reception sees the dashboard; others are sent home. It lists today's orders in order, one row each. A row's total is NULL exactly when its order has no items, and otherwise it is the order's total. The grand total is the day's sales. |
| Reception.ClockOf | restaurant/views.py:437 | The time column is an hour below 24 and a minute below 60. |
| Reception.ClockTextReadsBack | restaurant/views.py:437 | The printed HH:MM time reads back as the minute of the day at which the order was created. |
| Reception.ReportRows | restaurant/views.py:428-440 | One report row per order, in order, each with the order's id, table number, waiter, status label and total. The running total equals the sum of the orders' totals. |
| Reception.DailyReport | restaurant/views.py:406-444 | Only reception gets the report. It carries the fixed title and headers, one row per order of the day and a grand total equal to that day's sales. |
| Waiter.LineWithoutQuantity | restaurant/views.py:164-171 | An item key whose id parses, posted without a quantity field, gives a line with quantity 1. |
| Waiter.LineFor | restaurant/views.py:160-171 | A posted key yields a line exactly when it is an `item_id_` key whose id and quantity parse and whose quantity is positive. The line carries that id and quantity and the notes field (blank when absent). |
| Waiter.ExtractLines | restaurant/views.py:159-171 | The extracted lines are exactly the lines the posted keys yield, and all of them have positive quantity. |
| Waiter.ExtractLinesOrder | restaurant/views.py:159-171 | The lines come one per line-giving key, in posting order: the i-th line is what the key at the i-th position gives, the positions increase, and every line-giving key has a position. |
| Waiter.ExtractLinesRoundTrip | restaurant/views.py:160-171 | Posting any list of lines as item/quantity/notes fields and extracting them gives back, in order, exactly the lines whose quantity is positive and whose id and quantity have at most 4300 digits. When every line is such a line, the list comes back unchanged. |
| Waiter.ExistingPrefix | restaurant/views.py:179-180 | Measures how far the item loop gets before its first missing menu item. |
| Waiter.AddItemsComplete | restaurant/views.py:179-186 | The item loop completes exactly when every line's menu item exists. |
| Waiter.AddItemsFrame | restaurant/views.py:179-186 | The item loop writes only line items. |
| Waiter.AddItemsEffect | restaurant/views.py:179-186 | The item loop writes one line item per line up to the first missing menu item, in order. |
| Waiter.PlaceOrder | restaurant/views.py:176-199 | One order is always created (status `not_taken`), then the line items up to the first missing menu item. The table flag and audit change only when every item exists. |
| Waiter.SendOrder | restaurant/views.py:144-201 | The role is checked first (403), then the method (405), then an empty line list (400), then the table (404), with no change for any of these. Submission succeeds exactly when every extracted line names an existing menu item. |
| Waiter.SendOrderEffect | restaurant/views.py:176-197 | A waiter or admin POSTs at least one line for an existing table, and every line names an existing menu item. Then the submission succeeds. It creates one order whose items are the extracted lines (id, quantity and raw notes), leaves other orders' items alone, marks the table unavailable and appends one audit entry. |
| Waiter.SendOrderTotal | restaurant/views.py:177-186 | Under the same conditions, the new order's total is the sum of quantity times price over the submitted lines. |
| Waiter.SendOrderPartialWrite | restaurant/views.py:177-186 | A missing menu item anywhere in the lines gives a 404, but the order has already been written, together with one line item for each line before the first missing menu item. The tables and the audit log are unchanged. |
| Waiter.SendOrderLeavesEmptyOrder | restaurant/views.py:177-180 | When the first line's menu item is missing, the 404 leaves behind an order with no items. |
| Waiter.SendOrderSampleLeavesEmptyOrder | restaurant/views.py:176-186 | A concrete store and POST: one table, no menu, `item_id_1=7`. The request answers 404 and leaves an order with no items, with the table still available. |
| Waiter.SendOrderAtomic | restaurant/views.py:176-197 | The all-or-nothing submission gives the same reply as the original. A failure leaves the store unchanged, and a success has the same effect as the original. |
| Waiter.SendOrderAtomicKeepsItems | restaurant/views.py:176-197 | With the all-or-nothing submission, every order keeps at least one line item. |
| Waiter.ToggleTable | restaurant/views.py:204-229 | Checks the role (403), then the method (405), then the table (404), with no change on failure. On success the flag is negated, the new value is reported and one audit entry is logged. |
| Waiter.ToggleTwiceRestores | restaurant/views.py:214-227 | Toggling twice restores the table's flag and the rest of the store, except for the two audit entries. |

## Left out

- restaurant/admin.py, restaurant/urls.py and the `create_users` management command are not part of this model. They are admin configuration, routing and provisioning.
- Template rendering, flash messages, `login()`, sessions and the login-required redirect are left out. Page errors are the `Http.Failure` values.
- `select_table`, `menu` and `audit_log` are left out: they only list rows.
- The JSON body parsing of `update_order_status` and its 400 for a malformed body are left out. The status arrives already decoded as an optional string.
- The catch-all 500 of `update_order_status` is modelled only for the missing order. No other exception can arise in the model.
- The random eight-character PIN text is a parameter, and the clock and today's date are parameters. The server's time zone is left out: dates are taken in UTC.
- The spreadsheet library, the `float` conversion of totals, the attachment file name, and the JSON view's date and time strings are left out. The report row keeps the order time as a clock value that `Reception.ClockText` prints as HH:MM.
- The order of today's orders, which the query leaves unspecified, is taken to be id order. `created_at` ties in the kitchen queue are broken by id.
- The admin listing's newest-first PIN order is left out.
- Concurrent requests, including races on a PIN's use counter or on a table flag, are left out: the model is single-threaded.
- Password hashing is left out. The password is only checked for presence.
- Column lengths (`max_length`) and the price's `max_digits` are not enforced.
- Integer column ranges are not enforced: ids, table numbers and quantities are unbounded integers. On a backend with 32-bit integer columns, a quantity of 2^31 parses and then fails at the line-item insert, after the order row is written; the model accepts it.
- Line items are read in id order. The source's `order.items.all()` has no ordering, so the database may return them in another order, and then the kitchen's group order may differ.
- The crash of a view whose caller has no profile is left out: the store invariant gives every user a profile. The signal that creates it is modelled by `Models.CreateUser`.
- Text.ParseInt: accepts only ASCII digits, with single underscores between them, an optional sign and surrounding whitespace. Python's `int()` also accepts other Unicode decimal digits.
- Text.MaxStrDigits: the 4300-digit limit is CPython's default for converting between text and integers. The limit can be changed in the interpreter's configuration, and interpreters that predate it have none; the model fixes the default.
- Text.IntText: renders every integer. Python's `str()` refuses integers of more than 4300 digits. The source renders only order ids and table numbers, in audit details. These are database integers and far shorter (their column ranges are left out, as noted above). `Waiter.PostLines` also uses `IntText` for the text a browser posts, which no such limit applies to.
- The username normalisation (NFKC) is the parameter `norm` of `Auth.Register`; its definition is not modelled.
- Grouping.GroupJson: its reference description is stated only when lines naming the same menu item carry the same name. This always holds for lines read from the store (`Kitchen.LinesOf`).

## Findings

| source | as written | input that shows it | evidently intended | confidence | as-written member | corrected member |
|---|---|---|---|---|---|---|
| restaurant/views.py:177-186 | The order row is created before each menu item is looked up. A missing menu item ends the request with a 404 after the order (and any earlier line items) has been written, so an order with no items, or with only some of them, is left behind. | A waiter POSTs `item_id_1=7` for an existing table when no menu item 7 exists. | Submission is all-or-nothing: a failure writes nothing, so every order has at least one line item. | not executed | Waiter.SendOrderSampleLeavesEmptyOrder | Waiter.SendOrderAtomic |
