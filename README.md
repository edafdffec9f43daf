# A verified model of the hanben_crm server's record keeping

hanben_crm is a small customer-relationship store for a retail business.
It keeps two tables:

- customers, unique by phone number;
- orders, unique by a business order id. Each order refers to a customer by
  that customer's internal id.

The Express server in `server/index.js` offers these routes over the tables:

- a dashboard with counts;
- the after-sales follow-up list, for orders that arrived five or more days
  ago and carry no follow-up note;
- paginated customer and order lists with substring search;
- a lookup of a customer by phone;
- order creation, which first upserts the customer by phone and then creates
  the order;
- partial updates of orders and customers;
- spreadsheet export of both tables;
- spreadsheet import of both tables, row by row with a running count.

This project models those routes in Dafny and proves what they promise.

The modules follow the structure of the server:

| module | what it holds |
|---|---|
| `Wrappers` | `Option` and `Result`. |
| `Coercion` | The JavaScript coercions the handlers rely on: truthiness, `String(x)`, `x \|\| null`, `Number(x) \|\| d`, and the date text codec. |
| `Records` | The two row types, the store `Db`, the error kinds, and the store invariant `Valid`. `Valid` says that keys match their key column, internal ids are distinct and below the autoincrement counter, and every order's customer exists. This module also has the two primitive writes and proofs that they keep the invariant. |
| `Tables` | What the database engine does for `findMany`/`count`: scan, filter, stable ordering by a key, and counting. |
| `AfterSales` | The follow-up rule, the dashboard count and the pending list. |
| `Handlers` | `POST /api/orders`, `PUT /api/orders/:id` and `PUT /api/customers/:id`. Each is a function from the store before to the store after and the response. |
| `Listing` | The list routes (search, order, `skip`/`take`, `totalPages`) and the lookup by phone. |
| `Spreadsheet` | The export row projections and the two import loops, written as folds over the sheet's rows. |
| `ImportLaws` | Round trips: export, then import. |
| `LastWriter` | What a finished order import leaves, key by key. From that follows idempotence of re-importing the same sheet. |
| `Server` | The class `Store`, whose fields are the two tables and their counters. Its methods update the tables in place: the two writes of the order create, the two updates, and the two import loops. Each method is proved to leave exactly the state that the matching handler function describes, and to keep the invariant. |

Values are modelled as follows:

- Dates are integer day numbers. A date cell or body field is the decimal
  numeral of its day.
- Spreadsheet rows are maps from header text to cell text.
- A `POST` body field is absent, or carries a string. JSON values of other types are not modelled (see "## Left out").
- A PUT body field is absent, `null`, or a value. A PUT with an absent field
  leaves that column alone.
- Every error the store would raise (unique violation, missing record,
  foreign key, invalid date, null in a required column, negative or
  non-numeric pagination) is a `Failure` value. All failures but the missing
  lookup phone reach the client as status 500.

## Model

| member | source | states |
|---|---|---|
| `AfterSales.DueDate` | server/index.js:20-25 | `getAfterSalesDueDate`: no date without an arrival date, else arrival + 5 days. Its meaning is proved in `AfterSales.PendingIffDue`. |
| `AfterSales.IsPending` | server/index.js:44-53 | The shared `where` filter of the dashboard count and the pending list. Its equivalence with the due-date rule is `AfterSales.PendingIffDue`. |
| `AfterSales.PendingIffDue` | server/index.js:20-25 | An order is on the follow-up list iff its due date (arrival + 5 days) exists and has been reached and no note is recorded. There is no due date exactly when there is no arrival date, and a due date is always 5 days after arrival. |
| `AfterSales.PendingBoundaries` | server/index.js:40-53 | Arrival exactly five days ago is due, with a null or an empty note. Four days ago is not due. A missing arrival is never due, and neither is any non-empty note. |
| `AfterSales.Dashboard` | server/index.js:32-54 | The totals are the sizes of the two tables, and the pending count never exceeds the number of orders. |
| `AfterSales.PendingList` | server/index.js:73-86 | The list holds exactly the stored orders that pass the pending filter, by ascending arrival date. |
| `AfterSales.DashboardCountIsPendingListLength` | server/index.js:43-86 | For the same `now`, the dashboard's pending count equals the length of the pending list. |
| `Coercion.NatToText` | server/index.js:285-287 | The decimal numeral of a number is non-empty and all digits. |
| `Coercion.DigitsValueOfNatToText` | server/index.js:285-287 | Reading a natural number's numeral back gives the number. |
| `Coercion.IntToText` | server/index.js:285-287 | The numeral of an integer is never empty. |
| `Coercion.ToNumber` | server/index.js:213-215 | `Number(s)` is the value of a digit string, and NaN for text that is neither digits nor signed. |
| `Coercion.ToNumberOfIntToText` | server/index.js:372-374 | `Number(String(n))` is `n` for every integer, negative ones included. |
| `Coercion.DayToText` | server/index.js:279 | The text of a date cell is never empty. |
| `Coercion.ParseDayOfDayToText` | server/index.js:279 | A date written as a cell reads back as the same day. |
| `Records.PutCustomerKeepsValid` | server/index.js:193-204 | Writing a customer under its phone, with its existing id or the next id, keeps the store invariant, the orders, and every stored customer's id, and adds exactly that phone to the keys. |
| `Records.PutOrderKeepsValid` | server/index.js:207-222 | Writing an order whose customer exists, with its existing id or the next id, keeps the store invariant. |
| `Tables.Scan` | server/index.js:107-113 | A table scan lists each stored row once. |
| `Tables.Filter` | server/index.js:108 | A `where` keeps exactly the rows that match it, and never more rows than it started with. |
| `Tables.FilterAppend` | server/index.js:108 | Filtering a concatenation filters each part and concatenates the results, so the matches keep the scan's order. |
| `Tables.InsertBy` | server/index.js:110 | Inserting into an ordered sequence keeps it ordered and adds exactly that element. |
| `Tables.SortBy` | server/index.js:110 | `orderBy` gives an ordered permutation of its input. |
| `Tables.CountWhereAtMostSize` | server/index.js:114 | A `count` with a filter is at most the table's size. |
| `Tables.CountWhereIsFilteredScanLength` | server/index.js:106-115 | A `count` with a `where` equals the number of rows a `findMany` with the same `where` finds. |
| `Handlers.AutoOrderId` | server/index.js:209 | The automatic order id is "AUTO-" followed by a string of digits that reads as the clock reading. |
| `Handlers.AutoOrderIdInjective` | server/index.js:209 | Two different clock readings never give the same automatic order id. |
| `Handlers.UpsertOrderCustomer` | server/index.js:193-204 | The customer upsert by phone. Its properties are stated in `Handlers.CreateOrderUpsertsByPhone` and `Handlers.UpsertKeepsValid`. |
| `Handlers.NewOrderRow` | server/index.js:207-221 | The create payload with its defaults. Its properties are stated in `Handlers.CreateOrderDefaults`. |
| `Handlers.CreateOrder` | server/index.js:184-229 | `POST /api/orders`: the upsert, then the create. Its properties are stated in the lemmas below and in `Server.Store.CreateOrder`. |
| `Handlers.CreateOrderUpsertsByPhone` | server/index.js:193-220 | After a successful create, exactly one customer has the phone, and every other customer is unchanged. An existing one keeps its id, symptoms and creation day, takes the submitted name, and changes its address only for a non-empty one. A new one gets the next customer id, the submitted address, no symptoms and today as creation day. The new order gets the next order id, refers to that customer, and is the only order added. |
| `Handlers.CreateOrderDefaults` | server/index.js:207-221 | A submitted non-empty text is stored as submitted. A submitted date or arrival date is stored as the day it reads as. A numeric non-zero quantity, amount or shipping fee is stored as its value. Otherwise: quantity becomes 1 (so it is never 0), amount and shipping fee become 0, optional texts and the arrival date become null, the date becomes today, and the order id becomes `AUTO-<clock>`. |
| `Handlers.FailedCreateKeepsUpsert` | server/index.js:193-222 | A create that fails after the customer upsert keeps the upsert and adds no order. |
| `Handlers.DuplicateOrderIdRefused` | server/index.js:207-209 | A submitted order id that is already stored is refused, and the orders stay unchanged. |
| `Handlers.CreateOrderKeepsValid` | server/index.js:184-229 | Order creation keeps the store invariant, whether it succeeds or fails. |
| `Handlers.UpsertKeepsValid` | server/index.js:193-204 | The customer upsert keeps the invariant and the orders. It stores the returned customer under the phone, adds exactly that phone to the keys, keeps every stored id and every other customer, and takes the next customer id (moving the counter) only for a new phone. A new customer has no symptoms and today as creation day. |
| `Handlers.ValidateOrderPatch` | server/index.js:241-244 | An accepted update body sets no non-nullable column to null. |
| `Handlers.ApplyOrderPatch` | server/index.js:241-244 | The submitted columns written over the stored order. Its properties are stated in `Handlers.UpdateOrderKeepsOmitted`. |
| `Handlers.OrderKeyUnique` | server/index.js:242 | In a valid store an internal id is held by one order only, so the update by id finds exactly that order. |
| `Handlers.UpdateOrder` | server/index.js:232-249 | A failed order update leaves the store as it was. |
| `Handlers.UpdateOrderWritesOnlySubmitted` | server/index.js:241-244 | A successful update changes only that order: every other order, all customers and the customer counter stay. The order keeps its internal id, or takes the submitted one, which no other order then holds. The order counter moves only for a submitted id at or past it. |
| `Handlers.UpdateOrderKeepsOmitted` | server/index.js:234-244 | For each of the thirteen columns: an omitted column keeps its value; a set column takes the submitted value (a date as the day it reads as); a nullable column set to null becomes null. |
| `Handlers.NoteEndsPending` | server/index.js:237-244 | Recording a non-empty after-sales note takes the updated order off the follow-up list for every `now`. |
| `Handlers.UpdateOrderKeepsValid` | server/index.js:241-244 | An order update keeps the store invariant. |
| `Handlers.ApplyCustomerPatch` | server/index.js:135-138 | The submitted columns written over the stored customer. Its properties are stated in `Handlers.UpdateCustomerWritesOnlySubmitted`. |
| `Handlers.CustomerKeyUnique` | server/index.js:136 | In a valid store an internal id is held by one customer only, so the update by id finds exactly that customer. |
| `Handlers.UpdateCustomer` | server/index.js:131-143 | A failed customer update leaves the store as it was. |
| `Handlers.UpdateCustomerWritesOnlySubmitted` | server/index.js:133-138 | A successful update writes the submitted name, phone, address and symptoms, with a null clearing address or symptoms. It keeps the customer's id, creation day and omitted columns, every other customer, and all orders. |
| `Handlers.UpdateCustomerKeepsValid` | server/index.js:135-138 | A customer update keeps the store invariant, so every order still has its customer. |
| `Listing.CustomerMatches` | server/index.js:98-103 | The customer search: no filter for an empty search, else name or phone contains it. Used by `Listing.ListCustomers`. |
| `Listing.OrderMatches` | server/index.js:150-156 | The order search: order id, or the customer's name or phone, contains it. Used by `Listing.ListOrders`. |
| `Listing.Skip` | server/index.js:96 | `skip = (page - 1) * limit`. Its properties are stated in `Listing.Paginate` and `Listing.PageIsSlice`. |
| `Listing.WindowEnd` | server/index.js:111-112 | `skip`/`take` select a range inside the rows. |
| `Listing.Window` | server/index.js:111-112 | `take` bounds the rows returned, and every row returned is one of the matches. |
| `Listing.WindowSorted` | server/index.js:110-112 | A page of ordered rows is ordered. |
| `Listing.TotalPages` | server/index.js:123 | `ceil(total/limit)` is null only for limit 0 and 0 for no rows. For a positive limit and total, (totalPages-1)·limit < total ≤ totalPages·limit. |
| `Listing.Paginate` | server/index.js:96-124 | A negative skip is an error. Otherwise the page holds at most `limit` matches and the block carries the total and `totalPages`. |
| `Listing.PageIsSlice` | server/index.js:96-112 | Page p holds exactly rows (p-1)·limit up to p·limit. |
| `Listing.EveryRowOnItsPage` | server/index.js:96-123 | Every position appears on its page at its offset, and that page is within `totalPages`. |
| `Listing.Matches` | server/index.js:107-110 | All matches, in `orderBy` order, are as many as the `count` with the same `where` finds. |
| `Listing.ListPage` | server/index.js:105-125 | `total` counts every match whatever the page. The page holds matches only, in order, and at most `limit` of them. |
| `Listing.ListPageOfNumbers` | server/index.js:95-124 | Query strings written as numerals paginate by those numbers. |
| `Listing.ListCustomers` | server/index.js:94-129 | The page holds stored customers whose name or phone contains the search, newest first. |
| `Listing.ListOrders` | server/index.js:146-182 | The page holds stored orders whose id, or whose customer's name or phone, contains the search, latest first. |
| `Listing.LookupByPhone` | server/index.js:252-264 | A missing or empty phone is a 400 error. Otherwise the result is the customer with exactly that phone, or null when none exists. |
| `Spreadsheet.ExportOrderRow` | server/index.js:277-292 | An order export row has exactly the fourteen headers the order import reads. |
| `Spreadsheet.ExportOrderRowCells` | server/index.js:277-292 | An order export row carries its order's and its customer's cells, with null written as ''. |
| `Spreadsheet.OrderCount` | server/index.js:311 | A customer's order count is at most the number of orders. |
| `Spreadsheet.ExportCustomerRow` | server/index.js:315-322 | A customer export row has the four headers the customer import reads, plus the count and the creation day. |
| `Spreadsheet.ExportCustomerRowCells` | server/index.js:315-322 | A customer export row carries the customer's cells. |
| `Spreadsheet.CustomerWithIdUnique` | server/index.js:273 | In a valid store the customer joined to an order is the one stored customer with the order's customer id. |
| `Spreadsheet.OrdersByDate` | server/index.js:272-275 | The export visits every stored order once, latest date first. |
| `Spreadsheet.OrderRows` | server/index.js:277-292 | Row i is the export row of order i joined with its customer. |
| `Spreadsheet.ExportOrders` | server/index.js:270-292 | The export has one row per stored order. |
| `Spreadsheet.RowDateOfExport` | server/index.js:279 | An export row's date cell reads back as the order's date. |
| `Spreadsheet.ExportOrdersByDate` | server/index.js:274-279 | Read back, the export's date column never increases. |
| `Spreadsheet.CustomersByNewest` | server/index.js:310-313 | The export visits every stored customer once, newest first. |
| `Spreadsheet.CustomerRows` | server/index.js:315-322 | Row i is the export row of customer i with that customer's order count. |
| `Spreadsheet.ExportCustomers` | server/index.js:308-322 | The export has one row per stored customer. |
| `Spreadsheet.RowOrder` | server/index.js:366-394 | The order payload has the internal id and the customer id it is given, and the order id the row carries. Whether it fails does not depend on the two ids given. |
| `Spreadsheet.UpsertRowCustomer` | server/index.js:359-363 | The customer upsert of one order row. Its properties are stated in `Spreadsheet.UpsertRowCustomerKeepsValid` and `LastWriter.UpsertedCustomerAfter`. |
| `Spreadsheet.ImportOrderRow` | server/index.js:356-395 | One pass of the order loop: skip, write, or fail after the customer upsert. Its properties are stated in `Spreadsheet.WrittenRow` and `Spreadsheet.AbortedRow`. |
| `Spreadsheet.ImportStep` | server/index.js:347-402 | The run after one more row: an ended run stays, a written row is counted, a failed row ends it. Its properties are stated in `LastWriter.StepFinishesIffRowPasses`. |
| `Spreadsheet.ImportOrders` | server/index.js:341-402 | `POST /api/import/orders` as a fold over the rows. Its properties are stated in the lemmas below and in `Server.Store.ImportOrders`. |
| `Spreadsheet.ImportCustomerRow` | server/index.js:417-433 | One pass of the customer loop. Its properties are stated in `Spreadsheet.ImportCustomerRowKeepsValid` and `ImportLaws.ReimportCustomerRow`. |
| `Spreadsheet.WrittenRow` | server/index.js:359-395 | A written row upserts its customer, then writes its order under its order id with the payload it carries. That keeps an existing order's id, or draws the next one for a new order, and every other order stays. |
| `Spreadsheet.AbortedRow` | server/index.js:359-369 | A row that fails keeps its customer upsert and writes no order. |
| `Spreadsheet.ImportCustomers` | server/index.js:416-435 | The customer import never fails. |
| `Spreadsheet.UpsertRowCustomerKeepsValid` | server/index.js:359-363 | The customer upsert of an order row keeps the invariant and the orders. It stores the customer under the row's phone and never drops or renumbers a customer. |
| `Spreadsheet.ImportOrderRowKeepsValid` | server/index.js:359-395 | Every outcome of one order row keeps the invariant. |
| `Spreadsheet.ImportOrdersKeepsValid` | server/index.js:347-397 | Every run of the order import, finished or aborted, keeps the invariant. |
| `Spreadsheet.ImportOrdersAppend` | server/index.js:347-397 | Importing a + b is importing a and then, unless a ended in an error, importing b. |
| `Spreadsheet.AbortStopsImport` | server/index.js:341-402 | An error on row k ends the run with that error. The rows before k stay written, as does row k's customer upsert, and no later row is applied or counted. |
| `Spreadsheet.EndedRunStays` | server/index.js:341-402 | Once a prefix has ended the run, the rest of the sheet changes nothing. |
| `Spreadsheet.ImportOrdersSkipsInactive` | server/index.js:356 | Rows without a phone or an order id are skipped, so a sheet imports like its active rows alone. |
| `Spreadsheet.ImportOrdersCount` | server/index.js:346-396 | The count is the number of rows with a phone and an order id, and fewer only when a row ended the run. |
| `Spreadsheet.ImportCustomerRowKeepsValid` | server/index.js:420-433 | A customer row keeps the invariant, the orders, every phone and every id. |
| `Spreadsheet.ImportCustomersKeepsValid` | server/index.js:416-435 | The customer import keeps the invariant. |
| `Spreadsheet.ImportCustomersCount` | server/index.js:415-435 | The customer import counts exactly the rows with a phone and a name. |
| `ImportLaws.UpsertOfCarriedCustomer` | server/index.js:359-363 | A row carrying a stored customer's cells upserts that customer onto itself. |
| `ImportLaws.RowOrderOfCarriedOrder` | server/index.js:366-394 | Re-reading an exported order gives its normal form: empty texts become null and a zero quantity becomes 1. |
| `ImportLaws.ReimportOrderRow` | server/index.js:366-395 | Importing a row that carries an order and its stored customer writes the normal form under the order id. It keeps the internal id and touches nothing else. |
| `ImportLaws.ReimportExportedOrder` | server/index.js:277-292 | A stored order's export row reads back as its normal form. An order in normal form comes back to the very same store. |
| `ImportLaws.NormalizeOneMore` | server/index.js:366-367 | Normalizing one more order is writing its normal form under its key. |
| `ImportLaws.OrderIdsHas` | server/index.js:367 | Every exported order's id is among the ids the sheet carries. |
| `ImportLaws.CarriesAllOfEach` | server/index.js:277-292 | Export rows that each carry their order carry the whole sequence. |
| `ImportLaws.ReimportNext` | server/index.js:347-397 | The next carried row normalizes one more stored order. |
| `ImportLaws.ReimportRows` | server/index.js:347-397 | Re-importing rows that carry stored orders normalizes exactly those orders, counts every row and never fails. |
| `ImportLaws.NormalizeCovering` | server/index.js:366-395 | A normalization that covers every key leaves the customers, counters and keys, and normalizes each order. |
| `ImportLaws.NormalizeNormal` | server/index.js:366-395 | Normalizing a store already in normal form changes nothing. |
| `ImportLaws.ExportVisitsEveryOrder` | server/index.js:272-277 | The order export carries every stored order id. |
| `ImportLaws.ExportCarriesOrders` | server/index.js:277-292 | Each export row carries the stored order at its position and that order's customer. |
| `ImportLaws.ReimportOrderExport` | server/index.js:277-395 | Importing the order export back never fails and counts every order. It keeps the customers, counters and keys, and normalizes every order, so a store in normal form is restored exactly. |
| `ImportLaws.ReimportCustomerRow` | server/index.js:420-433 | Importing a row that carries a stored customer changes nothing. |
| `ImportLaws.ReimportCustomerRows` | server/index.js:416-435 | Importing rows that each carry a stored customer changes nothing. |
| `ImportLaws.ReimportCustomerExport` | server/index.js:315-433 | Importing the customer export back leaves the store exactly as it was. |
| `LastWriter.LastCustomerRow` | server/index.js:359-363 | The row found for a phone is processed and carries that phone. |
| `LastWriter.LastAddressRow` | server/index.js:361 | The row found for an address carries the phone and a non-empty address. |
| `LastWriter.LastOrderRow` | server/index.js:366-367 | The row found for an order id is processed and carries that id. |
| `LastWriter.PhonesHaveWriters` | server/index.js:356-360 | A phone is among the sheet's phones iff some processed row upserts it. |
| `LastWriter.OrderKeysHaveWriters` | server/index.js:356-367 | An order id is among the sheet's ids iff some processed row upserts it. |
| `LastWriter.AfterNothing` | server/index.js:346-347 | An empty sheet decides nothing and leaves the store. |
| `LastWriter.AfterSkip` | server/index.js:356 | A skipped row changes neither the store nor any key's last writer. |
| `LastWriter.UpsertedCustomerAfter` | server/index.js:359-363 | The customer a row upserts takes that row's name, and its address when the row has one. |
| `LastWriter.OtherCustomerAfter` | server/index.js:359-363 | A customer the row does not name keeps its last writer. |
| `LastWriter.CustomerKeysStep` | server/index.js:359-363 | The upsert adds the row's phone and draws a customer id only for a new phone. |
| `LastWriter.CustomerValuesStep` | server/index.js:359-363 | After the upsert, every customer is decided by its last writer. |
| `LastWriter.UpsertKeepsIds` | server/index.js:359-363 | The upsert adds the row's phone and keeps every stored customer's id. |
| `LastWriter.WrittenOrderAfter` | server/index.js:366-395 | The order a row writes is that row's payload, joined with the customer of the row's phone. |
| `LastWriter.OtherOrderAfter` | server/index.js:366-395 | An order the row does not name keeps its last writer. |
| `LastWriter.OrderKeysStep` | server/index.js:366-395 | The order upsert adds the row's order id and draws an order id only for a new one. |
| `LastWriter.OrderValuesStep` | server/index.js:366-395 | After the order upsert, every order is decided by its last writer. |
| `LastWriter.AfterStep` | server/index.js:356-396 | One more processed row leaves what the longer sheet decides. |
| `LastWriter.StepFinishesIffRowPasses` | server/index.js:369-376 | One more row ends the run iff the run had not ended and the row's date or arrival date is invalid. |
| `LastWriter.ImportFinishesIffNoRowFails` | server/index.js:347-397 | A run finishes iff no processed row has an invalid date, whatever the store. |
| `LastWriter.LastWriterWins` | server/index.js:347-397 | After a finished import, each customer and each order was written by the last row that names its key. Otherwise it kept what the store had, and the counters only moved for new keys. |
| `LastWriter.AfterTwice` | server/index.js:366-395 | A store that the same sheet decides a second time is unchanged. |
| `LastWriter.ImportOrdersIdempotent` | server/index.js:347-397 | Re-importing a sheet whose first import finished gives the same store and the same count. |
| `Server.Store.constructor` | server/index.js:8 | A fresh database: both tables empty, ids from 1, invariant holds. |
| `Server.Store.FindOrderKey` | server/index.js:242 | The search by internal id finds a key iff an order has that id, and a found key holds it. |
| `Server.Store.FindCustomerKey` | server/index.js:136 | The search by internal id finds a key iff a customer has that id, and a found key holds it. |
| `Server.Store.UpsertOrderCustomer` | server/index.js:193-204 | The in-place customer upsert leaves exactly the store and the result of the upsert function. |
| `Server.Store.CreateOrder` | server/index.js:184-229 | The two writes leave exactly the store and response of `Handlers.CreateOrder`, and keep the invariant. |
| `Server.Store.UpdateOrder` | server/index.js:232-249 | The in-place update leaves exactly the store and response of `Handlers.UpdateOrder`, and keeps the invariant. |
| `Server.Store.UpdateCustomer` | server/index.js:131-143 | The in-place update leaves exactly the store and response of `Handlers.UpdateCustomer`, and keeps the invariant. |
| `Server.Store.UpsertRowCustomer` | server/index.js:359-363 | The in-place upsert of one order row's customer matches `Spreadsheet.UpsertRowCustomer`. |
| `Server.Store.ImportOrderRow` | server/index.js:356-395 | One pass of the loop skips, writes or fails exactly as `Spreadsheet.ImportOrderRow` says. |
| `Server.Store.ImportOrders` | server/index.js:346-399 | The loop leaves the store, count and error of the fold `Spreadsheet.ImportOrders`, stopping at the first error, and keeps the invariant. |
| `Server.Store.ImportCustomers` | server/index.js:415-436 | The loop leaves the store and count of the fold `Spreadsheet.ImportCustomers`, and keeps the invariant. |

## Left out

- The Express setup is not modelled: CORS, static files, JSON parsing, multer uploads, `listen`, and the 400 for a missing upload file. It is HTTP plumbing.
- The XLSX workbook codec is not modelled. A sheet is the sequence of rows the reader returns, and each cell reads back as the text that was written. Numeric cells are treated as their decimal text.
- The client files are not modelled:
  - the React pages and the Alpine script are user interface;
  - `client/src/pages/Settings.jsx` calls endpoints the server does not have.
- `analyze_excel.py` is not modelled; it is an inspection script.
- The dashboard's `totalSales` sum is not modelled; it is a database aggregate over amounts.
- JavaScript `Date` is not modelled: time of day, time zones, `setDate`, and ISO text. A date is a day number, and its text is that number's decimal numeral.
- `Coercion.ToNumber`: no floating point, exponents, whitespace, `+` sign, `0x`/`0o`/`0b` prefixes or `Infinity`. Such texts read as NaN (None), where JavaScript reads most of them as numbers. So `limit=0x14` pages by 20 in the server and is an error in the model.
- `Date.now()` and the current day are parameters, `clock` and `today`. One import run uses one `today`.
- A JSON `null` in the body of `POST /api/orders` is treated like an absent field. `PUT` bodies keep the distinction.
- Body values of the wrong JSON type are not modelled. Examples are a number or boolean in a `POST /api/orders` body, or `{"quantity":"3"}` or `{"channel":5}` in a `PUT` body, which passes its body to the store uncoerced. The store would refuse a `PUT` with such a value, as a 500 with the store unchanged.
- Columns a `PUT /api/orders/:id` body names but the order table does not have are not modelled; the store would refuse them.
- `Handlers.UpdateOrder`: a submitted internal `id` must be a natural number. After an update to an explicit id at or past the counter, the counter moves past it, as an autoincrement column that remembers the largest id it has seen does. A database sequence that ignores explicit ids is not modelled: there, a later create could collide with the renumbered id.
- `Number(id)` on the route parameter is not modelled; ids are given as naturals.
- The `include` joins are not modelled: the customer inside each listed order, and the orders inside each listed customer. Rows are returned without them.
- Database tie order: rows with equal sort keys come out in one fixed order that the model chooses.
- `contains` is modelled as a case-sensitive substring test on the stored text.
- A failed create or import row does not consume an autoincrement value in the model.
- Concurrency between requests and upsert races are not modelled; the model is sequential.
- Stock reservation, order items and stock movements are not modelled. The server has no code for them: `client/src/pages/OrderList.jsx:90` reads `order.items`, but nothing in `server/index.js` writes it.
- Lookup by phone is kept as the function `Listing.LookupByPhone`, because it changes nothing; the `Store` class has no method for it.
- `Server.Store.FindOrderKey` and `Server.Store.FindCustomerKey` scan the keys; the database's index on internal ids is not modelled.
- `LastWriter.ImportOrdersIdempotent` is proved only for imports that finished; a sheet whose first import stopped at an error is not covered.
- `ImportLaws.ReimportOrderExport` requires that no stored order id and no stored phone is empty. A row with an empty one would be skipped on import.
