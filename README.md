# Ledger store, repositories, services and error pipeline — a Dafny model

This project models the core of a small Koa/knex web shop back end.

- **The store.** Three MySQL tables hold users, products and transactions. Their migrations declare:
  - primary keys;
  - a unique product name;
  - NOT NULL columns, the 255-character width of `name` and the 32-bit range of the INT columns;
  - two foreign keys from transactions to users and products, with cascading delete.
- **The repositories.** They:
  - list a page of rows with `ORDER BY … LIMIT … OFFSET`;
  - inner-join transactions with their product and user;
  - reshape joined rows into `{id, amount, date, product: {id, name}, user: {id, name}}`;
  - count rows;
  - insert, update and delete rows, then read the row back.
- **The services.** They:
  - apply the pagination defaults (100 and 0);
  - build the `{data, count, limit, offset}` envelope;
  - turn a missing transaction into a thrown error;
  - pass only the fields they read on to the repositories.
- **The server pipeline.** Its middleware maps any thrown error to a status code and an `{code, message, details, stack}` body. It gives a bare 404 a structured `NOT_FOUND` body. The CORS `origin` callback picks the allowed origin.

The model is organised as follows:

- `Schema` holds the rows and tables and the schema's constraints, as the predicate `Consistent`.
- `Store` gives each SQL statement a meaning as a function from the tables before to the tables after. The statement either fails with the constraint it would break, leaving the tables as they were, or commits.
  - Lemmas prove that every statement keeps `Consistent`.
  - The class `Store.Database` holds the three tables as fields. It applies statements in place and keeps `Consistent` as its invariant `Valid()`.
- Read-only queries (`findAll`, `findById`, `findByName`, `findCount`) are functions over the tables.
- `create`, `updateById` and `deleteById` are methods that change the `Database` and then read back.
- The services are functions (reads) and methods (writes) over the repositories.
- `Server` holds the error-handling middleware as a method on a request `Context`, and the CORS callback as a function.
- `EndToEnd` connects service results to the responses a client sees. It also replays the transaction-listing scenario of the REST tests.

Dates are integers compared only by order, and ids are opaque strings. `uuid.v4()` becomes a parameter `newId`. An id that is already taken fails as a duplicate primary key, as the store would report it.

A JavaScript `undefined` field is `None`:

- An INSERT that leaves out a NOT NULL column fails with `NoDefaultValue`.
- An UPDATE leaves an omitted column as it was.
- An UPDATE with no field at all is refused (knex refuses an empty `.update()`).

The store runs in strict mode, so an integer outside the 32-bit range and a name longer than 255 characters are refused. When one statement breaks several constraints, the model reports them in a fixed order:

- product insert: missing name, missing price, name too long, price out of range, duplicate id, duplicate name;
- product update: name too long, price out of range, name taken by another product;
- transaction insert: missing amount, date, user or product, amount out of range, duplicate id, unknown user, unknown product;
- transaction update: amount out of range, unknown user, unknown product.

Behaviour of the code worth noting:

- **A missing transaction.** `getById` throws a plain `Error` (`src/service/transaction.js:43-45`), not a not-found service error. The middleware therefore answers 500 `INTERNAL_SERVER_ERROR`, not 404 (`EndToEnd.MissingTransactionIsInternalError`).
- **Store failures.** They are not re-classified into service errors. The repositories rethrow them and the services pass them on. A duplicate product name or a dangling foreign key therefore reaches the client as a 500 carrying the driver's error code (`EndToEnd.StoreFailureIsInternalError`).
- **Creating a transaction by user name.** A REST test posts a transaction with `user: 'Test User'` and no `userId`, and expects 201 (`__tests__/rest/transactions.spec.js:198-206`). The service forwards only `userId`, so by the code the insert leaves `user_id` undefined and is refused with a 500 (`EndToEnd.PostWithoutUserIdIsRefused`). The service's own doc comments disagree about this field: `create` documents `userId` as the user's id (`src/service/transaction.js:57`), `updateById` as the user's name (`src/service/transaction.js:79`). The code forwards it unchanged as the `user_id` foreign key.
- **An unknown product.** The doc comments of the transaction service's `create` and `updateById` say they "will create a new product if necessary" (`src/service/transaction.js:51`, `:72`). The code creates no product. It forwards `productId` as given, so a body naming an unknown product is refused by `fk_transaction_product`, and the client gets a 500 with `ER_NO_REFERENCED_ROW_2` (`EndToEnd.UnknownProductIsRefused`).
- **Price range.** The product service documents the price as "between 1 and 5" (`src/service/product.js:44`, `:58`). No code checks this. The model accepts every price that fits the 32-bit INT column.
- **What product writes return.** The product repository's `create` and `updateById` are documented to return the product's id (`src/repository/product.js:61`, `:94`). The code returns the row it reads back, and the model does the same (`ProductRepository.Create`, `ProductRepository.UpdateById`).
- **Production mode.** Only `stack` is dropped from the error body in production; the error's `message` is always sent (`src/createServer.js:159-163`).

## Model

| member | source | states |
|---|---|---|
| `Query.FirstWithKey` | src/repository/product.js:39-43 | `WHERE key = k` with `.first()` finds a row exactly when some row has that key, and the row it finds is in the table with that key |
| `Query.FirstWithUniqueKey` | src/data/migrations/202111041510_createProductTable.js:6-7 | under a primary or unique key, the row found for a row's key is that row |
| `Query.AppendKeepsUniqueKeys` | src/data/migrations/202111041510_createProductTable.js:15 | inserting a row whose key is new keeps a unique index unique |
| `Query.ReplaceWhere` | src/repository/product.js:101-106 | `UPDATE … WHERE key = k` keeps the row count and every row's key, replaces exactly the rows with that key and leaves the others |
| `Query.ReplaceKeepsKeys` | src/repository/product.js:101-106 | an update of a key's own row leaves the set of keys as it was and keeps a unique index unique |
| `Query.Where` | src/repository/product.js:127-129 | `DELETE … WHERE` leaves exactly the rows the condition keeps, and removes something exactly when some row fails the condition |
| `Query.WhereKeepsUniqueKeys` | src/data/migrations/202111041520_createTransactionTable.js:6-7 | deleting rows never breaks a unique index |
| `Query.SortBy` | src/repository/product.js:20 | `ORDER BY` returns the same rows, as a multiset |
| `Query.SortBySorts` | src/repository/transaction.js:41 | under a total preorder, `ORDER BY` yields an ascending rearrangement of the rows |
| `Query.StrLeTotal` | src/repository/product.js:20 | any two names compare one way or the other |
| `Query.StrLeTransitive` | src/repository/product.js:20 | name comparison is transitive |
| `Query.StrLeAntisymmetric` | src/repository/product.js:20 | two names that compare both ways are equal |
| `Paging.Window` | src/repository/transaction.js:39-40 | `LIMIT l OFFSET o` returns at most `l` rows, the rows from position `o` on, and none past the end |
| `Paging.WindowKeepsOrder` | src/repository/product.js:18-20 | a window of an ordered result is ordered |
| `Paging.ConsecutivePages` | src/repository/product.js:18-19 | the page at `o` of size `a` followed by the page at `o + a` of size `b` is the page at `o` of size `a + b` |
| `Paging.WholeWindow` | src/service/transaction.js:24-25 | a window as long as the whole result from offset 0 is the whole result, so the count and a full page agree |
| `Schema.UserById` | src/repository/transaction.js:38 | the user joined for an id exists exactly when a user has that id, and has that id |
| `Schema.ProductById` | src/repository/transaction.js:37 | the product joined for an id exists exactly when a product has that id, and has that id |
| `Schema.ProductByName` | src/repository/product.js:28-32 | the product found by name exists exactly when a product has that name, and has that name |
| `Schema.TransactionById` | src/repository/transaction.js:64 | the transaction found by id exists exactly when one has that id, and has that id |
| `Schema.ProductColumnsOk` | src/data/migrations/202111041510_createProductTable.js:9-13 | a product's name fits `string('name', 255)` and its price fits the signed 32-bit `integer` column |
| `Schema.TransactionColumnsOk` | src/data/migrations/202111041520_createTransactionTable.js:9-10 | a transaction's amount fits the signed 32-bit `integer` column |
| `Schema.References` | src/data/migrations/202111041520_createTransactionTable.js:15-29 | both foreign keys of a transaction, `fk_transaction_user` and `fk_transaction_product`, point at existing rows |
| `Schema.Consistent` | src/data/migrations/202111041510_createProductTable.js:5-16 | every constraint of both migrations holds: the primary keys of all three tables, the unique name index, the product and transaction columns, and both foreign keys of every transaction; NOT NULL is in the row types |
| `Store.InsertUserRow` | __tests__/rest/transactions.spec.js:68-72 | inserting a user commits exactly when the id is free, appending the row, and otherwise fails on the primary key |
| `Store.DeleteUserRows` | src/data/migrations/202111041520_createTransactionTable.js:15-21 | deleting a user removes exactly that user's rows and, by the cascade, exactly that user's transactions, and leaves the products; it removes a user exactly when one had the id |
| `Store.InsertProductRow` | src/repository/product.js:69-74 | inserting a product commits exactly when name and price are given, the name fits 255 characters, the price fits an INT, and the id and the name are both unused; a valid row under a taken name fails on `idx_product_name_unique` |
| `Store.UpdateProductRow` | src/repository/product.js:101-106 | an update with no field is refused; an unknown id changes nothing and does not fail; for an existing product the update commits exactly when the given fields over the old ones fit their columns and no other product has the resulting name, and the row then becomes that row |
| `Store.DeleteProductRows` | src/data/migrations/202111041520_createTransactionTable.js:23-29 | deleting a product removes exactly that product and, by the cascade, exactly its transactions, and leaves the users; it removes a product exactly when one had the id |
| `Store.InsertTransactionRow` | src/repository/transaction.js:90-97 | inserting a transaction commits exactly when all four columns are given, the amount fits an INT, the id is unused and both foreign keys point at existing rows; a dangling reference fails on its foreign key |
| `Store.Patched` | src/repository/transaction.js:127-133 | the updated row keeps the transaction's id |
| `Store.UpdateTransactionRow` | src/repository/transaction.js:127-134 | an update with no field is refused; an unknown id changes nothing and does not fail; for an existing transaction the update commits exactly when the given fields over the old ones fit their columns and both references exist, and the row then becomes that row, leaving users and products alone |
| `Store.DeleteTransactionRows` | src/repository/transaction.js:154-156 | deleting a transaction removes exactly the row with that id and nothing else; it removes one exactly when one had the id |
| `Store.InsertUserKeepsConsistency` | src/data/migrations/202111041520_createTransactionTable.js:5-30 | a committed user insert keeps every schema constraint |
| `Store.DeleteUserKeepsConsistency` | src/data/migrations/202111041520_createTransactionTable.js:15-21 | a user delete keeps every constraint, because the cascade leaves no transaction pointing at the removed user |
| `Store.InsertProductKeepsConsistency` | src/data/migrations/202111041510_createProductTable.js:5-16 | a committed product insert keeps the primary key, the unique name and the column constraints |
| `Store.UpdateProductKeepsConsistency` | src/data/migrations/202111041510_createProductTable.js:5-16 | a committed product update keeps the unique name, the column constraints and every transaction's reference |
| `Store.DeleteProductKeepsConsistency` | src/data/migrations/202111041520_createTransactionTable.js:23-29 | a product delete keeps every constraint, because the cascade leaves no transaction pointing at the removed product |
| `Store.InsertTransactionKeepsConsistency` | src/data/migrations/202111041520_createTransactionTable.js:5-30 | a committed transaction insert keeps the primary key, the column constraints and both foreign keys |
| `Store.UpdateTransactionKeepsConsistency` | src/data/migrations/202111041520_createTransactionTable.js:5-30 | a committed transaction update keeps every constraint |
| `Store.DeleteTransactionKeepsConsistency` | src/data/migrations/202111041520_createTransactionTable.js:5-30 | a transaction delete keeps every constraint |
| `Store.Database.constructor` | src/data/migrations/202111041520_createTransactionTable.js:5 | freshly migrated tables are empty and satisfy the schema |
| `Store.Database.InsertUser` | __tests__/rest/transactions.spec.js:68-72 | the store answers and changes as the insert's meaning says, and stays consistent |
| `Store.Database.DeleteUser` | src/data/migrations/202111041520_createTransactionTable.js:15-21 | the tables become the cascade's result; the affected-row count is positive exactly when the user existed |
| `Store.Database.InsertProduct` | src/repository/product.js:69-74 | the store commits or fails, with the constraint's error, as the insert's meaning says, and stays consistent |
| `Store.Database.UpdateProduct` | src/repository/product.js:101-106 | the store commits or fails as the update's meaning says, and stays consistent |
| `Store.Database.DeleteProduct` | src/repository/product.js:127-129 | the tables become the cascade's result; the affected-row count is positive exactly when the product existed |
| `Store.Database.InsertTransaction` | src/repository/transaction.js:90-97 | the store commits or fails as the insert's meaning says, and stays consistent |
| `Store.Database.UpdateTransaction` | src/repository/transaction.js:127-134 | the store commits or fails as the update's meaning says, and stays consistent |
| `Store.Database.DeleteTransaction` | src/repository/transaction.js:154-157 | the tables become the delete's result; the affected-row count is positive exactly when the transaction existed |
| `TransactionRepository.FormatTransaction` | src/repository/transaction.js:11-21 | the reshape keeps `id`, `amount` and `date` and nests the product's and user's id and name as `product` and `user` |
| `TransactionRepository.FormatRoundTrip` | src/repository/transaction.js:11-21 | the reshape is a bijection: flattening a reshaped row gives the row back, and reshaping a flattened view gives the view back |
| `TransactionRepository.JoinOf` | src/repository/transaction.js:5-9 | a transaction joined with its references keeps the transaction's columns, with the names stored for its product and user |
| `TransactionRepository.JoinRows` | src/repository/transaction.js:35-38 | the inner join has every row made of a listed transaction with its stored names, contains every transaction whose references exist, and drops the others |
| `TransactionRepository.Join` | src/repository/transaction.js:35-38 | every joined row comes from a stored transaction and carries the names stored for its product and user |
| `TransactionRepository.JoinRowsCoversAll` | src/data/migrations/202111041520_createTransactionTable.js:15-29 | when every transaction's references exist, the join has one row per transaction, in table order |
| `TransactionRepository.JoinCoversAll` | src/data/migrations/202111041520_createTransactionTable.js:15-29 | in a consistent store the inner join drops no transaction |
| `TransactionRepository.FormatAll` | src/repository/transaction.js:43 | `map(formatTransaction)` reshapes each row in place and keeps the count |
| `TransactionRepository.ByDateIsTotalPreorder` | src/repository/transaction.js:41 | ordering joined rows by date is a total preorder, as `ORDER BY` needs |
| `TransactionRepository.OrderedJoin` | src/repository/transaction.js:41 | the joined rows in ascending date order, the same rows as the join, each from the store |
| `TransactionRepository.FindAll` | src/repository/transaction.js:31-44 | a page holds `PageSize(joined rows, limit, offset)` views, at most `limit`, in ascending date order, each from a stored transaction with its stored product and user names |
| `TransactionRepository.FindAllIsPageOfOrderedJoin` | src/repository/transaction.js:35-43 | the page is the `LIMIT/OFFSET` window of some ascending-by-date rearrangement of the join, so the order of equal dates is left open |
| `TransactionRepository.SortedByDistinctDatesIsUnique` | src/repository/transaction.js:41 | without two rows of the same date, any two ascending-by-date rearrangements of the same rows are identical |
| `TransactionRepository.FindAllIsPageOfEveryOrdering` | src/repository/transaction.js:35-43 | when no two joined rows share a date, the page is exactly the `LIMIT/OFFSET` window of every ascending-by-date ordering of the join |
| `TransactionRepository.FindAllConsecutivePages` | src/repository/transaction.js:39-41 | when no two joined rows share a date, a page followed by the next one is the larger page, even when each of the three queries picks its own ascending-by-date ordering of the join |
| `TransactionRepository.FindCountIsJoinSize` | src/repository/transaction.js:49-54 | the count is the number of rows in the transaction table; in a consistent store it equals the number of joined rows, so a page of that size from 0 holds them all |
| `TransactionRepository.FindById` | src/repository/transaction.js:61-69 | a found view has the id asked for and comes from a stored transaction with its stored names; nothing found means no joined row has the id |
| `TransactionRepository.FindByIdOfStored` | src/repository/transaction.js:61-69 | in a consistent store every stored transaction is found by its id, joined with its own product and user |
| `TransactionRepository.FindByIdOfMissing` | src/repository/transaction.js:68 | an id no transaction has yields nothing, not a failure |
| `TransactionRepository.Create` | src/repository/transaction.js:82-106 | inserts one row under the fresh id and returns it read back: the given amount, date, product id and user id with the stored product and user names; a store failure is rethrown and changes nothing |
| `TransactionRepository.UpdateById` | src/repository/transaction.js:120-143 | applies the update, then returns the row read back: found exactly when the id existed, and then the given fields over the old row; a store failure is rethrown and changes nothing |
| `TransactionRepository.DeleteById` | src/repository/transaction.js:152-165 | returns true exactly when a transaction had the id; afterwards none has it and every other row is as it was |
| `ProductRepository.ByNameIsTotalPreorder` | src/repository/product.js:20 | ordering products by name is a total preorder, as `ORDER BY` needs |
| `ProductRepository.OrderedProducts` | src/repository/product.js:20 | the products in ascending name order: the same rows as the table |
| `ProductRepository.FindAll` | src/repository/product.js:12-21 | a page holds `PageSize(products, limit, offset)` stored products, at most `limit`, in ascending name order |
| `ProductRepository.SortedByUniqueNameIsUnique` | src/data/migrations/202111041510_createProductTable.js:15 | with unique names, any two ascending rearrangements of the same products are identical |
| `ProductRepository.OnlyNameOrdering` | src/repository/product.js:16-20 | in a consistent store every ordering `ORDER BY name ASC` may return is the model's name-sorted table |
| `ProductRepository.FindAllIsPageOfOrderedTable` | src/repository/product.js:16-20 | in a consistent store the page is exactly the `LIMIT/OFFSET` window of every ascending-by-name ordering of the table |
| `ProductRepository.NoTwoRowsShareAName` | src/data/migrations/202111041510_createProductTable.js:15 | any rearrangement of the product table still has pairwise distinct names |
| `ProductRepository.UniqueRowOccursOnce` | src/data/migrations/202111041510_createProductTable.js:15 | under the unique name index each product row occurs exactly once |
| `ProductRepository.FindByName` | src/repository/product.js:28-32 | finds a product exactly when one has that name, and it has that name |
| `ProductRepository.FindById` | src/repository/product.js:39-43 | finds a product exactly when one has that id, and returns nothing otherwise |
| `ProductRepository.FindStored` | src/repository/product.js:28-43 | in a consistent store each product is what the lookups return for its id and for its name |
| `ProductRepository.FindCountCoversAll` | src/repository/product.js:48-52 | the count ignores pagination: a page of that size from offset 0 is every product in name order |
| `ProductRepository.Create` | src/repository/product.js:63-84 | inserts one row under the fresh id and returns exactly that row read back; a store failure such as a taken name is rethrown and changes nothing |
| `ProductRepository.UpdateById` | src/repository/product.js:96-116 | applies the update and returns the row read back: found exactly when the id existed, and then the given fields over the old ones |
| `ProductRepository.DeleteById` | src/repository/product.js:125-139 | returns true exactly when a product had the id; afterwards none has it, and the cascade has removed its transactions |
| `Errors.NewError` | src/service/transaction.js:44 | `new Error(message)` is a plain error with that message and no status, code or details |
| `Errors.StoreFailure` | src/repository/product.js:77-83 | a failed statement throws a plain error with the driver's code and no status or details, which the repository rethrows |
| `TransactionService.Forwarded` | src/service/transaction.js:63-68 | exactly `amount`, `date`, `productId` and `userId` are passed on |
| `TransactionService.GetAll` | src/service/transaction.js:19-32 | omitted limit and offset default to the configured values; the envelope holds that page, the total count, and the limit and offset used |
| `TransactionService.GetAllEnvelope` | src/service/transaction.js:24-31 | in a consistent store the page size follows from count, limit and offset; data is in date order with the stored names; with no arguments the window is 100 from 0 |
| `TransactionService.GetById` | src/service/transaction.js:39-48 | returns the repository's transaction when there is one, else throws `new Error("There is no transaction with id …")` |
| `TransactionService.GetByIdSucceedsForStoredIds` | src/service/transaction.js:41-47 | in a consistent store `getById` succeeds exactly for stored ids, returning the stored row |
| `TransactionService.Create` | src/service/transaction.js:59-69 | a committed insert of the forwarded fields returns the created transaction read back; a failed one rethrows the store's error and changes nothing |
| `TransactionService.UpdateById` | src/service/transaction.js:81-96 | a committed update of the forwarded fields returns the row read back, present exactly when the id existed; a failed one rethrows and changes nothing |
| `TransactionService.DeleteById` | src/service/transaction.js:103-106 | deletes the transaction if there is one and returns nothing either way |
| `ProductService.Forwarded` | src/service/product.js:46-50 | exactly `name` and `price` are passed on |
| `ProductService.GetAll` | src/service/product.js:19-27 | omitted limit and offset default to the configured values; the envelope holds that page, the count, and the limit and offset used |
| `ProductService.GetAllEnvelope` | src/service/product.js:24-26 | the page size follows from count, limit and offset; data is stored products in name order; with no arguments the window is 100 from 0 |
| `ProductService.GetAllConsecutivePages` | src/service/product.js:19-27 | in a consistent store, consecutive envelopes with no write between them cover the name-ordered table without gap or overlap, even when each of the three queries picks its own ascending-by-name ordering |
| `ProductService.GetById` | src/service/product.js:34-37 | returns the product with that id, or nothing, never an error |
| `ProductService.Create` | src/service/product.js:46-50 | a committed insert returns exactly the row with the fresh id and the given name and price; a failure, such as a taken name, is rethrown and changes nothing |
| `ProductService.UpdateById` | src/service/product.js:60-64 | a committed update returns the row read back, present exactly when the id existed; a failure is rethrown and changes nothing |
| `ProductService.DeleteById` | src/service/product.js:71-74 | deletes the product and its transactions if there is one, and returns nothing either way |
| `Server.ErrorStatus` | src/createServer.js:158-182 | the status is `error.status` or 500, overwritten by each set flag of a service error in turn, so forbidden beats unauthorized beats validation beats not found |
| `Server.SingleFlagStatus` | src/createServer.js:166-182 | a service error with exactly one flag set gets 404, 400, 401 or 403 accordingly, whatever its own status |
| `Server.ErrorBodyOf` | src/createServer.js:159-164 | the body's code is the error's code when that is non-empty, else `INTERNAL_SERVER_ERROR`, and never empty; message is the error's; details default to `{}`; stack is present exactly outside production |
| `Server.UnknownResourceBody` | src/createServer.js:147-150 | the body for an unknown resource has code `NOT_FOUND` and message `Unknown resource: ` followed by the url |
| `Server.Context.constructor` | src/createServer.js:146 | a request starts with status 404 and no body until a handler sets one, which is what lets the middleware spot an unknown resource |
| `Server.HandleErrors` | src/createServer.js:142-187 | a thrown error becomes its status and error body; a completed 404 gets the `Unknown resource: <url>` body; any other response is left untouched |
| `Server.IndexOf` | src/createServer.js:48 | `indexOf` is -1 exactly when the value is absent, and otherwise the first position holding it |
| `Server.CorsOrigin` | src/createServer.js:47-53 | the origin is the request's own when it is configured, else the first configured one; it is present exactly when the list is non-empty and is then always from the list |
| `Server.CorsOriginIsIdempotent` | src/createServer.js:47-53 | choosing again with the chosen origin gives the same origin |
| `EndToEnd.MissingTransactionIsInternalError` | src/service/transaction.js:43-45 | an unknown transaction id is answered with 500, code `INTERNAL_SERVER_ERROR`, the message naming the id, and the stack outside production |
| `EndToEnd.StoreFailureIsInternalError` | src/createServer.js:158-160 | every store failure is answered with 500 and the driver's code (`ER_DUP_ENTRY` for a duplicate name) |
| `EndToEnd.DuplicateProductNameIsRefused` | src/data/migrations/202111041510_createProductTable.js:15 | creating a valid product under a name already in use fails on `idx_product_name_unique` |
| `EndToEnd.PostWithoutUserIdIsRefused` | __tests__/rest/transactions.spec.js:198-206 | a transaction body that names its user as `user` and has no `userId` leaves `user_id` undefined, so the insert is refused and the client gets a 500 with `ER_NO_DEFAULT_FOR_FIELD` |
| `EndToEnd.UnknownProductIsRefused` | src/service/transaction.js:51-96 | in a consistent store, a create whose four fields are given and valid but whose `productId` names no product fails on `fk_transaction_product`, and so does an update of an existing transaction to such a product. No product is created, and the client gets a 500 with `ER_NO_REFERENCED_ROW_2` |
| `EndToEnd.FixtureIsConsistent` | __tests__/rest/transactions.spec.js:5-37 | the fixture of the transaction tests satisfies the schema |
| `EndToEnd.FixtureJoin` | __tests__/rest/transactions.spec.js:5-37 | the fixture's join has its three transactions with "Test product" and "Test User" |
| `EndToEnd.SortThree` | src/repository/transaction.js:41 | ordering three rows by date puts them in date order |
| `EndToEnd.FixtureOrder` | __tests__/rest/transactions.spec.js:97-129 | the fixture's transactions in date order are the 8 May, 21 May and 25 May ones |
| `EndToEnd.FixtureSecondPage` | __tests__/rest/transactions.spec.js:97-129 | `limit=2, offset=1` returns the 21 May and 25 May transactions, reshaped as the test expects |
| `EndToEnd.ListingScenario` | __tests__/rest/transactions.spec.js:88-129 | the default listing echoes 100 and 0 with all three transactions; `?limit=2&offset=1` gives the envelope the test expects |

## Left out

- Koa, knex and MySQL plumbing are not modelled. This covers connections, async/await, `bodyParser` and Swagger set-up. Each statement is one synchronous, atomic step.
- Logging is not modelled: the `debugLog` helpers, the repositories' `logger.error` calls and the status-emoji logger.
- The REST routers are not modelled: `Number(query)`, `new Date(body)` and route registration. Pagination arguments are therefore naturals, and bodies arrive as records.
- Users are not modelled beyond `{id, name}`. This covers authentication, passwords, roles and the user repository and service, whose files are not part of this model. `Store.InsertUserRow` and `Store.DeleteUserRows` stand in for that repository's writes.
- Text comparison is ordinal, character by character. MySQL's collation, which may ignore case and trailing spaces, is not modelled. That applies to `ORDER BY`, to the unique name index, and to the `WHERE` equality of the lookups: `findByName` may find a product whose name differs only in case.
- Only the first line of an error's `stack` is modelled, not its frames.
- The driver's error messages are short forms of MySQL's. knex's prefix of the failed SQL text is not modelled.
- Server.HandleErrors: Koa's response setters are not modelled. Assigning a body while the status is still Koa's implicit 404 makes Koa answer 200, so an unknown resource may reach the client with status 200. The model keeps the status the handlers left. Koa's status setter also refuses a status that is not an integer from 100 to 999, so an error carrying such a status makes the handler itself throw. The model assigns any status.
- Explicit JSON `null` fields are not modelled; a missing field is `undefined` (`None`).
- TransactionRepository.FindAll: breaks ties between equal dates by table order, while SQL leaves their order open and each query may order tied rows differently. Its contract and `TransactionRepository.FindAllIsPageOfOrderedJoin` therefore promise only what SQL guarantees: date order, and a window of some date-ordered arrangement of the join. `TransactionRepository.FindAllConsecutivePages` holds only when no two joined rows share a date.
- Numbers are integers. In JavaScript `price` and `amount` are doubles, and MySQL rounds a fractional value stored in an INT column on insert and update. The model's bodies carry `int`, so that rounding is not modelled.
- When several constraints fail at once, the model reports them in the fixed order above; MySQL's own order may differ.
- `uuid.v4()` randomness is not modelled; the fresh id is a parameter.
- TransactionRepository.FindCount, ProductRepository.FindCount: plain functions with no contract of their own. Their properties are stated by `TransactionRepository.FindCountIsJoinSize` and `ProductRepository.FindCountCoversAll`.
- That `getAll` only reads is not a separate lemma. SQL promises equal envelopes from two calls without a write in between only where the order is determined:
  - for transactions, when no two joined rows share a date (`TransactionRepository.FindAllIsPageOfEveryOrdering`); with tied dates SQL guarantees only date order;
  - for products, in a consistent store, whose unique name index leaves no ties (`ProductRepository.FindAllIsPageOfOrderedTable`).
- Dates are integers that stand for the stored `datetime` values: whole seconds, years 1000 to 9999, in the server's local time. Converting a JavaScript `Date` to such a value is not modelled. MySQL rounds milliseconds, refuses an invalid date or a year out of range, and can map two instants in the repeated daylight-saving hour to one value. Two requested dates can therefore be stored as equal, which matters to `TransactionRepository.FindAllConsecutivePages`.
- TransactionRepository.Create, TransactionRepository.UpdateById: the date read back equals the date given only because model dates are stored values. In the source this holds for a whole-second date in range.
- Store.InsertTransactionRow, Store.UpdateTransactionRow: ids are assumed to fit the `CHAR(36)` of a `uuid` column. A `productId` or `userId` longer than 36 characters fails in MySQL with `ER_DATA_TOO_LONG`, while the model reports its foreign key. Product and transaction ids also come from `uuid.v4()` and always fit.
- The statements of one request run without interleaving. `create` and `updateById` each run a write and then a read-back, separated by an `await`. A concurrent delete in between would make the read-back `undefined`, and the model's contracts exclude that.
