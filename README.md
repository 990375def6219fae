# Sales API core, modelled in Dafny

This project models the core of the Sales API, a C# service that records sales
(a Sale aggregate with its items) and products in SQL Server through Dapper and
announces sale lifecycle events. The model covers:

- the two query specifications (`GetSalesSpecification` and
  `GetProductsSpecification`). Each builds a SQL text and a named-parameter bag
  from a filter contract, as a class whose `With…` methods update the collected
  conditions, parameters, order terms and paging window in place;
- `SaleRepository`. The fold of join rows into one Sale per id is a loop over a
  dictionary. The transactional insert and the full-replace update work on two
  tables held as maps, with a connection flag, identity counters and a
  rollback snapshot;
- the product table behind `IProductRepository`, with the generic repository's
  insert, update, get and delete-by-id;
- the five command handlers: create and update sale, and create, update and
  delete product. Each validates the command, calls the repository and maps
  every outcome to a `BaseResponse`. The create and update handlers build or
  overwrite the entity first; the delete handler passes only the id. Only the
  two sale handlers publish an event, one per committed write;
- the FluentValidation rule sets of the commands, as pure functions producing
  message lists in rule order;
- `BaseResponse<T>` and its three constructors;
- `InMemoryEventStore`, an append-only list read back by event type.

Exceptions are not Dafny features. Every call that can throw takes a *fault*
argument naming the statement that throws and its message. `Outcome<T>` is
either a value or the raised message. A C# `decimal` is a `real` (exact), a
`DateTime` is a tick count with `default(DateTime)` at 0, and a fresh GUID is a
36-character string argument.

Files:

- `common.dfy`: nullable values and `Outcome`, plus text helpers (`string.Join`,
  integer printing).
- `domain.dfy`: entities, events, line totals.
- `commands.dfy`: the command records.
- `base_response.dfy`: the response envelope.
- `validators.dfy`: the validators.
- `sql_text.dfy`: the shared SQL layer (filters, order terms, clause layout,
  `StringBuilder` text).
- `sales_specification.dfy` and `products_specification.dfy`: the builders.
- `sale_repository.dfy`: the Sale repository.
- `product_repository.dfy`: the Product repository.
- `messaging.dfy`: the event publisher as the handlers see it.
- `sale_commands.dfy` and `product_commands.dfy`: the handlers.
- `event_store.dfy`: the event store.

## Model

| member | source | states |
|---|---|---|
| Responses.WithData | src/Sales.Application/BaseResponse.cs:10-15 | built from data: success, the data set, no error message, no validation errors |
| Responses.WithErrorMessage | src/Sales.Application/BaseResponse.cs:17-22 | built from a message: failure, that message, no data, empty validation list |
| Responses.WithValidationErrors | src/Sales.Application/BaseResponse.cs:24-28 | built from a list: failure, exactly that list, no data and no error message |
| Responses.SuccessIffBuiltFromData | src/Sales.Application/BaseResponse.cs:10-28 | for any response the three constructors can build, success holds iff it was built from data, iff it carries data; an error message never comes with validation errors |
| Validators.SaleItemErrors | src/Sales.Application/Commands/Sale/CreateSale/CreateSaleCommandValidator.cs:25-41 | an item produces no message iff ProductId > 0, Quantity > 0, UnitPrice >= 0 and Discount >= 0; at most four messages |
| Validators.SaleItemErrorsMeaning | src/Sales.Application/Commands/Sale/CreateSale/CreateSaleCommandValidator.cs:29-39 | each item rule's message is present iff the item breaks that rule, and no other message appears |
| Validators.ItemsErrorsContains | src/Sales.Application/Commands/Sale/CreateSale/CreateSaleCommandValidator.cs:21 | `RuleForEach`: a message is reported for the list iff some item reports it |
| Validators.ItemsErrorsEmpty | src/Sales.Application/Commands/Sale/CreateSale/CreateSaleCommandValidator.cs:21 | the item list reports nothing iff every item is valid |
| Validators.ItemsErrorsMeaning | src/Sales.Application/Commands/Sale/UpdateSale/UpdateSaleCommandValidator.cs:24-42 | each item message appears for the list iff some item breaks its rule; only item messages appear |
| Validators.CreateSaleHeaderErrors | src/Sales.Application/Commands/Sale/CreateSale/CreateSaleCommandValidator.cs:9-19 | the command rules: each message iff its rule fails (default date, CustomerId <= 0, BranchId <= 0, no items); none is an item message |
| Validators.ValidateCreateSale | src/Sales.Application/Commands/Sale/CreateSale/CreateSaleCommandValidator.cs:7-22 | a create-sale command yields no messages iff every command and item rule holds; the command-rule messages come first and none of them is an item message |
| Validators.CreateSaleHeaderMessages | src/Sales.Application/Commands/Sale/CreateSale/CreateSaleCommandValidator.cs:9-19 | in the full message list, each command-rule message appears iff that rule fails |
| Validators.CreateSaleItemMessages | src/Sales.Application/Commands/Sale/CreateSale/CreateSaleCommandValidator.cs:21-39 | in the full message list, each item-rule message appears iff some item breaks it |
| Validators.UpdateSaleHeaderErrors | src/Sales.Application/Commands/Sale/UpdateSale/UpdateSaleCommandValidator.cs:9-22 | Id <= 0, a null date, a present non-positive customer or branch id, no items: each message iff its rule fails; an absent customer or branch id passes |
| Validators.ValidateUpdateSale | src/Sales.Application/Commands/Sale/UpdateSale/UpdateSaleCommandValidator.cs:7-25 | an update-sale command yields no messages iff every command and item rule holds; the command-rule messages come first and none of them is an item message |
| Validators.UpdateSaleHeaderMessages | src/Sales.Application/Commands/Sale/UpdateSale/UpdateSaleCommandValidator.cs:9-22 | in the full message list, each command-rule message appears iff that rule fails |
| Validators.UpdateSaleItemMessages | src/Sales.Application/Commands/Sale/UpdateSale/UpdateSaleCommandValidator.cs:24-42 | in the full message list, each item-rule message appears iff some item breaks it |
| Validators.ValidUpdateCarriesItems | src/Sales.Application/Commands/Sale/UpdateSale/UpdateSaleCommandValidator.cs:12-22 | a valid update always carries a date and at least one item |
| Validators.IsWhiteSpace | src/Sales.Application/Commands/Product/CreateProduct/CreateProductCommandValidator.cs:10 | the `char.IsWhiteSpace` set behind `NotEmpty`: space, tab, CR and LF are white space, ASCII letters and digits are not |
| Validators.IsBlank | src/Sales.Application/Commands/Product/CreateProduct/CreateProductCommandValidator.cs:10 | `NotEmpty` fails on the empty string and on white space only; a name with a letter or digit passes |
| Validators.Utf16Length | src/Sales.Application/Commands/Product/CreateProduct/CreateProductCommandValidator.cs:11 | `string.Length` in UTF-16 code units: between one and two per character, exactly one per character when all lie in the Basic Multilingual Plane |
| Validators.Utf16LengthAstral | src/Sales.Application/Commands/Product/CreateProduct/CreateProductCommandValidator.cs:11 | characters above U+FFFF count twice each |
| Validators.ValidateCreateProduct | src/Sales.Application/Commands/Product/CreateProduct/CreateProductCommandValidator.cs:9-14 | no message iff the name is not blank, is at most 100 UTF-16 code units long and the price is > 0; each message iff its rule fails, so a blank name over 100 code units gets both name messages; over 100 characters is always too long, at most 50 characters never is |
| Validators.EmojiNameTooLong | src/Sales.Application/Commands/Product/CreateProduct/CreateProductCommandValidator.cs:11 | a name of 51 emoji (51 characters, 102 code units) is reported as too long |
| Validators.ValidateUpdateProduct | tests/unit-tests/Sales.Application.Tests/Commands/Product/UpdateProductCommandTests.cs:108-238 | the rules the update-product tests exercise: each of the Id > 0, non-blank name, name of at most 100 code units and price > 0 rules reports its own message iff it fails; no message iff all hold |
| Validators.ValidateDeleteProduct | src/Sales.Application/Commands/Product/DeleteProduct/DeleteProductCommandValidator.cs:9-10 | no message iff Id > 0; otherwise exactly the one ProductId message |
| Common.Join | src/Sales.Infra/Persistence/Database/Specifications/Sale/GetSalesSpecification.cs:155 | `string.Join`: a single part is itself, no parts give the empty string; the text starts with the first part, ends with the last and is at least one separator per gap long |
| Common.IntToStringRoundTrip | src/Sales.Infra/Persistence/Database/Specifications/Sale/GetSalesSpecification.cs:170-174 | the number printed after OFFSET or FETCH NEXT reads back as the same integer, negative values included |
| SqlText.FilterStep | src/Sales.Infra/Persistence/Database/Specifications/Sale/GetSalesSpecification.cs:31-39 | applying one more filter of the table adds its predicate and binding when it is present, and nothing when it is absent |
| SqlText.ConditionsOfMeaning | src/Sales.Infra/Persistence/Database/Specifications/Sale/GetSalesSpecification.cs:33-36 | a predicate is among the conditions iff a present filter produces it; never more conditions than filters |
| SqlText.ConditionsOfAppend | src/Sales.Infra/Persistence/Database/Specifications/Sale/GetSalesSpecification.cs:19-26 | conditions keep the filter table's order: the conditions of a split table are the parts' conditions, in turn |
| SqlText.ParametersOfKeys | src/Sales.Infra/Persistence/Database/Specifications/Sale/GetSalesSpecification.cs:35-106 | the bound parameter names are exactly the names of the present filters |
| SqlText.ParametersOfValue | src/Sales.Infra/Persistence/Database/Specifications/Sale/GetSalesSpecification.cs:36 | with distinct names, each present filter's parameter holds that filter's own value |
| SqlText.FilterEffect | src/Sales.Infra/Persistence/Database/Specifications/Sale/GetSalesSpecification.cs:31-109 | with distinct names, a filter's predicate and binding are present iff the filter is, and the binding is its value |
| SqlText.OrderTerm | src/Sales.Infra/Persistence/Database/Specifications/Sale/GetSalesSpecification.cs:118 | the term is the field name followed by " ASC" exactly when ascending, else " DESC" |
| SqlText.AnyEquals | src/Sales.Infra/Persistence/Database/Specifications/Sale/GetSalesSpecification.cs:134 | the allow-list search succeeds iff the name is on the list, with exact case-sensitive equality |
| SqlText.OrderTermsMeaning | src/Sales.Infra/Persistence/Database/Specifications/Sale/GetSalesSpecification.cs:113-119 | a term survives iff its field is on the allow-list; never more terms than requested fields |
| SqlText.OrderTermsEmpty | src/Sales.Infra/Persistence/Database/Specifications/Sale/GetSalesSpecification.cs:113-120 | no term survives iff no requested field is allowed |
| SqlText.OrderTermsAppend | src/Sales.Infra/Persistence/Database/Specifications/Sale/GetSalesSpecification.cs:115-119 | surviving terms keep request order: the terms of consecutive runs of fields are those runs' terms, in turn |
| SqlText.Emit | src/Sales.Infra/Persistence/Database/Specifications/Sale/GetSalesSpecification.cs:153-156 | a conditional `AppendLine` adds its clause iff it is present, keeping the clauses already there |
| SqlText.Clauses | src/Sales.Infra/Persistence/Database/Specifications/Sale/GetSalesSpecification.cs:153-176 | the clauses are exactly: WHERE iff conditions exist; ORDER BY iff a term survived; the fallback ORDER BY iff paging without a term; OFFSET with Skip or 0 iff paging; FETCH NEXT with Take iff Take is set |
| SqlText.RankedEmit | src/Sales.Infra/Persistence/Database/Specifications/Sale/GetSalesSpecification.cs:153-176 | appending a clause ranked above those already present keeps the clause list ranked |
| SqlText.ClausesRanked | src/Sales.Infra/Persistence/Database/Specifications/Sale/GetSalesSpecification.cs:144-178 | the clause kinds strictly increase in the order WHERE, ORDER BY, OFFSET, FETCH, so each kind appears at most once |
| SqlText.StatementLines | src/Sales.Infra/Persistence/Database/Specifications/Sale/GetSalesSpecification.cs:146-151 | a statement starts with the fixed lines unchanged, then has one line per clause, in order |
| SqlText.TextPrefix | src/Sales.Infra/Persistence/Database/Specifications/Sale/GetSalesSpecification.cs:146-178 | the text of the first lines is a prefix of the whole text |
| SqlText.TextShowsLine | src/Sales.Infra/Persistence/Database/Specifications/Sale/GetSalesSpecification.cs:146-178 | every line appears in the text, terminated, right after the lines before it |
| SqlText.StatementShows | src/Sales.Infra/Persistence/Database/Specifications/Sale/GetSalesSpecification.cs:146-178 | the text begins with the fixed lines' text, and every clause's line appears after them |
| SqlText.AppendLine | src/Sales.Infra/Persistence/Database/Specifications/Sale/GetSalesSpecification.cs:147 | `AppendLine` on a builder holding some lines yields the text of those lines plus the new one |
| SqlText.AppendClause | src/Sales.Infra/Persistence/Database/Specifications/Sale/GetSalesSpecification.cs:155 | appending a clause line extends the statement by that clause |
| SqlText.AppendOptional | src/Sales.Infra/Persistence/Database/Specifications/Sale/GetSalesSpecification.cs:153-156 | a guarded `AppendLine` extends the statement by the clause iff it is present |
| SqlText.AppendClauses | src/Sales.Infra/Persistence/Database/Specifications/Sale/GetSalesSpecification.cs:153-176 | the tail of `ToSqlQuery` yields the fixed lines' text followed by exactly the clauses `Clauses` describes |
| SalesSpecification.IsValidOrderingField | src/Sales.Infra/Persistence/Database/Specifications/Sale/GetSalesSpecification.cs:124-135 | a field may be sorted by iff it is exactly SaleDate, TotalSaleValue, SaleNumber or Id |
| SalesSpecification.SaleFilters | src/Sales.Infra/Persistence/Database/Specifications/Sale/GetSalesSpecification.cs:17-29 | the eight filters in the constructor's order, each active iff its contract field is set, with pairwise distinct parameter names |
| SalesSpecification.SaleFiltersDistinct | src/Sales.Infra/Persistence/Database/Specifications/Sale/GetSalesSpecification.cs:35-106 | the eight filters have pairwise distinct parameter names and predicates, so no two bindings collide |
| SalesSpecification.SaleFilterEffect | src/Sales.Infra/Persistence/Database/Specifications/Sale/GetSalesSpecification.cs:31-109 | each of the eight filters contributes its own predicate and a same-named binding to its value iff its field is present |
| SalesSpecification.SaleQueryHasWhere | src/Sales.Infra/Persistence/Database/Specifications/Sale/GetSalesSpecification.cs:153-156 | there are conditions, and so a WHERE line, iff at least one filter of the contract is present |
| SalesSpecification.GetSalesSpecification.constructor | src/Sales.Infra/Persistence/Database/Specifications/Sale/GetSalesSpecification.cs:17-29 | the built state: the table's conditions and bindings in the fixed order, the surviving order terms, and the paging window as given |
| SalesSpecification.GetSalesSpecification.With | src/Sales.Infra/Persistence/Database/Specifications/Sale/GetSalesSpecification.cs:31-109 | one `With…` step appends the predicate and binds the value when present; nothing else changes |
| SalesSpecification.GetSalesSpecification.WithOrdering | src/Sales.Infra/Persistence/Database/Specifications/Sale/GetSalesSpecification.cs:111-122 | appends exactly the allowed terms, in request order; nothing else changes |
| SalesSpecification.GetSalesSpecification.WithPagination | src/Sales.Infra/Persistence/Database/Specifications/Sale/GetSalesSpecification.cs:137-142 | records Skip and Take as given; nothing else changes |
| SalesSpecification.GetSalesSpecification.ToSqlQuery | src/Sales.Infra/Persistence/Database/Specifications/Sale/GetSalesSpecification.cs:144-179 | the text is the SELECT, FROM Sale and three INNER JOIN lines, then the clauses of the collected state |
| SalesSpecification.GetSalesSpecification.Parameters | src/Sales.Infra/Persistence/Database/Specifications/Sale/GetSalesSpecification.cs:181 | the parameter bag is the one collected by the filters |
| ProductsSpecification.IsValidOrderingField | src/Sales.Infra/Persistence/Database/Specifications/Product/GetProductsSpecification.cs:68-78 | a field may be sorted by iff it is exactly ProductName, UnitPrice or Id |
| ProductsSpecification.ProductFilters | src/Sales.Infra/Persistence/Database/Specifications/Product/GetProductsSpecification.cs:16-23 | the three filters in the constructor's order: Id active iff an id is given, ProductName iff the name is neither null nor empty, UnitPrice iff the price is > 0; the parameter names are distinct |
| ProductsSpecification.NameParameter | src/Sales.Infra/Persistence/Database/Specifications/Product/GetProductsSpecification.cs:35-43 | the name filter is active iff the name is neither null nor empty, and binds the name with a `%` on each side |
| ProductsSpecification.PriceParameter | src/Sales.Infra/Persistence/Database/Specifications/Product/GetProductsSpecification.cs:45-53 | the price filter is active iff the price is > 0, and binds that price |
| ProductsSpecification.ProductFiltersDistinct | src/Sales.Infra/Persistence/Database/Specifications/Product/GetProductsSpecification.cs:25-53 | the three filters have distinct parameter names and predicates |
| ProductsSpecification.ProductFilterEffects | src/Sales.Infra/Persistence/Database/Specifications/Product/GetProductsSpecification.cs:25-53 | Id filter iff an id is given; LIKE filter bound to `%name%` iff the name is neither null nor empty; price filter bound to the price iff the price is > 0 |
| ProductsSpecification.GetProductsSpecification.constructor | src/Sales.Infra/Persistence/Database/Specifications/Product/GetProductsSpecification.cs:16-23 | the built state: conditions and bindings in the order Id, ProductName, UnitPrice, the surviving terms, the paging window |
| ProductsSpecification.GetProductsSpecification.With | src/Sales.Infra/Persistence/Database/Specifications/Product/GetProductsSpecification.cs:25-53 | one filter step appends the predicate and binds the value when present; nothing else changes |
| ProductsSpecification.GetProductsSpecification.WithOrdering | src/Sales.Infra/Persistence/Database/Specifications/Product/GetProductsSpecification.cs:55-66 | appends exactly the allowed terms, in request order |
| ProductsSpecification.GetProductsSpecification.WithPagination | src/Sales.Infra/Persistence/Database/Specifications/Product/GetProductsSpecification.cs:80-85 | records Skip and Take as given |
| ProductsSpecification.GetProductsSpecification.ToSqlQuery | src/Sales.Infra/Persistence/Database/Specifications/Product/GetProductsSpecification.cs:87-119 | the text is `SELECT p.*`, `FROM Product p`, then the clauses of the collected state with `ORDER BY p.Id` as the paging fallback |
| ProductsSpecification.GetProductsSpecification.Parameters | src/Sales.Infra/Persistence/Database/Specifications/Product/GetProductsSpecification.cs:121 | the parameter bag is the one collected by the filters |
| Domain.LineTotal | src/Sales.Application/Commands/Sale/CreateSale/CreateSaleCommandHandler.cs:56 | the line value is at most the gross value iff the discount is not negative, equals it without a discount, and is negative iff the discount exceeds the gross value |
| Domain.SumOfItemTotalsAppend | src/Sales.Application/Commands/Sale/CreateSale/CreateSaleCommandHandler.cs:59 | the sum of item totals distributes over concatenation |
| Persistence.Folded | src/Sales.Infra/Persistence/Repositories/SaleRepository.cs:23-43 | a sale is built for an id iff some row carries it; it carries that id, a customer and a branch, and exactly the items of its rows |
| Persistence.SaleIdsMeaning | src/Sales.Infra/Persistence/Repositories/SaleRepository.cs:25-43 | a sale id is in the result iff some row carries it, iff it has a first row |
| Persistence.SaleIdsDistinct | src/Sales.Infra/Persistence/Repositories/SaleRepository.cs:19-43 | no sale id is listed twice: one entry per distinct id |
| Persistence.FirstRowMeaning | src/Sales.Infra/Persistence/Repositories/SaleRepository.cs:25-32 | the row a sale is opened from is a row carrying its id |
| Persistence.ItemsOfMeaning | src/Sales.Infra/Persistence/Repositories/SaleRepository.cs:34-35 | an item belongs to a folded sale iff some row of that sale carries it as a non-null item |
| Persistence.ItemsOfBound | src/Sales.Infra/Persistence/Repositories/SaleRepository.cs:34-35 | a sale has at most as many items as rows; rows without items give it none |
| Persistence.FoldStep | src/Sales.Infra/Persistence/Repositories/SaleRepository.cs:23-38 | one more row leaves a sale's first row alone once set, and appends its item only when it is not null |
| Persistence.NoRowsNoItems | src/Sales.Infra/Persistence/Repositories/SaleRepository.cs:34-35 | a sale with no rows has no items |
| Persistence.FoldedStep | src/Sales.Infra/Persistence/Repositories/SaleRepository.cs:23-38 | one more row opens its sale, with customer, branch and at most that row's item, or extends the open sale; other sales are untouched |
| Persistence.SaleRow | src/Sales.Domain/Aggregates/SaleAggregate/Sale.cs:19-25 | the stored sale row: the `[Write(false)]` customer, branch and items are dropped and every column is kept |
| Persistence.ItemRow | src/Sales.Domain/Aggregates/SaleAggregate/SaleItem.cs:16-17 | the stored item row: the row id is its key, the `[Write(false)]` line total reads back as 0, every other column is kept |
| Persistence.Stamp | src/Sales.Infra/Persistence/Repositories/SaleRepository.cs:54-58 | every item, in order, carries the sale id and nothing else changes |
| Persistence.InsertedAs | src/Sales.Infra/Persistence/Repositories/SaleRepository.cs:52-58 | after an insert the entity carries the new id and its items the new sale id; every other field is as passed |
| Persistence.ItemRows | src/Sales.Infra/Persistence/Repositories/SaleRepository.cs:60 | the list insert writes one row per item under consecutive identity values, each row being that item's columns |
| Persistence.ItemsNotOf | src/Sales.Infra/Persistence/Repositories/SaleRepository.cs:81-82 | the delete keeps exactly the item rows of other sales, unchanged |
| Persistence.ItemsOfSale | src/Sales.Infra/Persistence/Repositories/SaleRepository.cs:81-82 | the item rows a `WHERE SaleId = @SaleId` selects, unchanged |
| Persistence.Numbered | src/Sales.Infra/Persistence/Repositories/SaleRepository.cs:84-88 | each single-row insert writes its identity value back into its item, in order |
| Persistence.InsertKeepsTablesValid | src/Sales.Infra/Persistence/Repositories/SaleRepository.cs:52-62 | a committed insert keeps keys, counters and the SaleItem.SaleId foreign key valid; the new sale's item rows are exactly the written items; no other sale gains or loses a row |
| Persistence.UpdateFailure | src/Sales.Infra/Persistence/Repositories/SaleRepository.cs:77-97 | the update's `try` raises iff one of its statements throws, or an item is inserted under a sale row that does not exist |
| Persistence.BeforeTransaction | src/Sales.Infra/Persistence/Repositories/SaleRepository.cs:48-49 | raises iff the connection is already open or the open or the begin throws |
| Persistence.InsertFailure | src/Sales.Infra/Persistence/Repositories/SaleRepository.cs:46-71 | the insert raises iff the connection is open or one of its statements throws; the already-open message comes first |
| Persistence.UpdateAsyncFailure | src/Sales.Infra/Persistence/Repositories/SaleRepository.cs:73-99 | the update raises iff the connection is open, one of its statements throws, or items go to a missing sale |
| Persistence.UpdateKeepsTablesValid | src/Sales.Infra/Persistence/Repositories/SaleRepository.cs:79-90 | a committed full replace keeps the store valid, leaves the sale with exactly the re-inserted rows, and leaves every other sale's rows alone |
| Persistence.SaleRepository.constructor | src/Sales.Infra/Persistence/Repositories/SaleRepository.cs:10 | an empty, valid store behind a closed connection |
| Persistence.SaleRepository.GetById | src/Sales.Infra/Persistence/Repositories/SaleRepository.cs:10 | the inherited `GetByIdAsync`, read as Dapper.Contrib `Get`: a sale comes back iff its row exists, with that id and no customer, branch or items loaded |
| Persistence.SaleRepository.Rollback | src/Sales.Infra/Persistence/Repositories/SaleRepository.cs:65-70 | restores both tables to the snapshot, closes the connection, keeps the identity counters and the store valid |
| Persistence.SaleRepository.InsertAsync | src/Sales.Infra/Persistence/Repositories/SaleRepository.cs:46-71 | succeeds iff nothing throws and the connection was closed. On success it returns the next identity value and writes the sale row and one row per item stamped with it. On failure both tables are as before and the failure is raised. The store stays valid and the counters never decrease |
| Persistence.SaleRepository.InsertTransaction | src/Sales.Infra/Persistence/Repositories/SaleRepository.cs:50-70 | the `try`/`catch`/`finally`: commit of both writes, or a rollback to the snapshot; the connection is closed on both exits |
| Persistence.SaleRepository.InsertStatements | src/Sales.Infra/Persistence/Repositories/SaleRepository.cs:52-62 | the `try` block: sale row, id write-back and stamping, item rows, commit; it fails iff one of them throws |
| Persistence.SaleRepository.UpdateAsync | src/Sales.Infra/Persistence/Repositories/SaleRepository.cs:73-99 | never returns false. Without a failure the sale row is overwritten, its item rows are replaced by the entity's items stamped with its id, and the identity values are written back. On failure both tables are as before. The store stays valid |
| Persistence.SaleRepository.UpdateTransaction | src/Sales.Infra/Persistence/Repositories/SaleRepository.cs:77-98 | the `try`/`catch`/`finally` of the update: commit, or a rollback to the snapshot; the connection is closed on both exits |
| Persistence.SaleRepository.UpdateStatements | src/Sales.Infra/Persistence/Repositories/SaleRepository.cs:79-91 | the `try` block: overwrite, delete, re-insert, commit, raising exactly what `UpdateFailure` says |
| Persistence.SaleRepository.InsertItemRows | src/Sales.Infra/Persistence/Repositories/SaleRepository.cs:84-88 | the `foreach`: one row per item under consecutive identity values, or the first insert that throws (a missing sale row breaks the foreign key) |
| Persistence.SaleRepository.GetBySpecificationWithRelationShipAsync | src/Sales.Infra/Persistence/Repositories/SaleRepository.cs:14-44 | one sale per distinct sale id, in first-seen order, each equal to the fold of its rows: first row's sale, customer and branch, and its non-null items in row order |
| ProductPersistence.ProductRepository.GetByIdAsync | src/Sales.Infra/Persistence/Database/Repositories/GenericRepository.cs:20 | the product comes back iff its row exists, carrying its key |
| ProductPersistence.ProductRepository.InsertAsync | src/Sales.Infra/Persistence/Database/Repositories/GenericRepository.cs:22 | a new row under a key no row had, written back into the product; existing rows unchanged; a fault changes nothing |
| ProductPersistence.ProductRepository.UpdateAsync | src/Sales.Infra/Persistence/Database/Repositories/GenericRepository.cs:24 | true and overwritten iff a row has the product's key; otherwise false and nothing changes |
| ProductPersistence.ProductRepository.DeleteByIdAsync | src/Sales.Infra/Persistence/Database/Repositories/GenericRepository.cs:28-36 | false when no row has the key, otherwise that row is removed and the answer is true; no row has the key afterwards |
| SaleCommands.BuildItems | src/Sales.Application/Commands/Sale/CreateSale/CreateSaleCommandHandler.cs:50-57 | one item per requested line, in order, with its product, quantity, price and discount and TotalItemValue = UnitPrice * Quantity - Discount |
| SaleCommands.BuildItemsTotal | src/Sales.Application/Commands/Sale/CreateSale/CreateSaleCommandHandler.cs:56-59 | the sum of the built items' totals equals the independently summed line values of the request |
| SaleCommands.NewSale | src/Sales.Application/Commands/Sale/CreateSale/CreateSaleCommandHandler.cs:43-59 | Active status; date, customer and branch copied; sale number the first 20 characters of the GUID; items as built; total the sum of the line values |
| SaleCommands.Overwritten | src/Sales.Application/Commands/Sale/UpdateSale/UpdateSaleCommandHandler.cs:41-64 | each optional field is overwritten iff present, else kept; non-empty request items replace the items and total, empty ones keep them; id and sale number are kept |
| SaleCommands.UpdateEvent | src/Sales.Application/Commands/Sale/UpdateSale/UpdateSaleCommandHandler.cs:70-89 | a SaleCancelledEvent iff the final status is Cancelled, otherwise a SaleUpdatedEvent; both carry Id, CustomerId, BranchId and SaleStatus of the sale |
| SaleCommands.UpdateError | src/Sales.Application/Commands/Sale/UpdateSale/UpdateSaleCommandHandler.cs:66-68 | the error after the update: an exception's message, "Error while updating Sale." for false, none iff the update returned true |
| SaleCommands.CreateSaleCommandHandler.Handle | src/Sales.Application/Commands/Sale/CreateSale/CreateSaleCommandHandler.cs:29-81 | invalid: the validator's messages, nothing written or published. Insert fails: its message, tables and events unchanged. Otherwise `NewSale` is stored under the new id and exactly one SaleCreatedEvent with its Id, CustomerId, BranchId and SaleStatus is published, then the response carries the sale, or the publish error. After a valid command the connection is open afterwards iff it was open before or `BeginTransaction` threw; the identity counters never decrease, and grow by one sale and one per item on success |
| SaleCommands.UpdateSaleCommandHandler.Handle | src/Sales.Application/Commands/Sale/UpdateSale/UpdateSaleCommandHandler.cs:29-98 | invalid: messages, nothing touched; unknown id: "Sale not found.", nothing touched. Otherwise the `Overwritten` sale is written back; a failed update publishes nothing and returns its message; a committed one publishes exactly one `UpdateEvent` and returns the sale. Once the sale is found, the connection is open afterwards iff it was open before or `BeginTransaction` threw; the counters never decrease, and on success only the item counter grows, by one per item |
| SaleCommands.UpdateSaleCommandHandler.Overwrite | src/Sales.Application/Commands/Sale/UpdateSale/UpdateSaleCommandHandler.cs:41-64 | the in-place field assignments produce the `Overwritten` sale |
| SaleCommands.UpdateSaleCommandHandler.SaveAndAnnounce | src/Sales.Application/Commands/Sale/UpdateSale/UpdateSaleCommandHandler.cs:66-91 | update, then on success one event by final status and the written sale as data; on failure no event and the failure's message. Once the sale is found, the connection is open afterwards iff it was open before or `BeginTransaction` threw; the counters never decrease, and on success only the item counter grows, by one per item |
| ProductCommands.CreateProductCommandHandler.Handle | src/Sales.Application/Commands/Product/CreateProduct/CreateProductCommandHandler.cs:24-53 | invalid: the validator's messages and no insert; a fault: its message and no new row; otherwise exactly one new product with the command's name and price under a fresh key, returned with that key. The identity counter grows by one exactly when the product is inserted and is unchanged otherwise, so a later create never reuses a deleted key |
| ProductCommands.UpdateProductCommandHandler.Handle | src/Sales.Application/Commands/Product/UpdateProduct/UpdateProductCommandHandler.cs:24-59 | invalid: messages and no update; a fault: its message; otherwise the product built from Id, name and price overwrites the row and is returned, or "Error while Update Product." when no row has that Id. The identity counter is unchanged on every path |
| ProductCommands.DeleteProductCommandHandler.Handle | src/Sales.Application/Commands/Product/DeleteProduct/DeleteProductCommandHandler.cs:23-51 | invalid: the ProductId message and no delete; a fault: its message; otherwise the row with request.Id is gone and the answer is `true`, or "Error while Delete Product." when there was none. The identity counter is unchanged on every path, so a deleted key is never handed out again |
| Messaging.EventPublisher.PublishAsync | src/Sales.Application/Messaging/EventPublisher.cs:17-27 | the event is appended to what was published, or the bus's exception is raised and nothing is published |
| EventStore.OfTypeMeaning | src/Sales.Application/EventSource/InMemoryEventStore.cs:15 | an event is in the filtered list iff it is stored and of the requested type |
| EventStore.OfTypeAppend | src/Sales.Application/EventSource/InMemoryEventStore.cs:15 | the filter distributes over concatenation, so it keeps insertion order |
| EventStore.OfType | src/Sales.Application/EventSource/InMemoryEventStore.cs:15 | `OfType<T>()`: every event it yields has the requested type, and never more than are stored |
| EventStore.SaveThenGet | src/Sales.Application/EventSource/InMemoryEventStore.cs:7-17 | after a save, reading the saved event's type gives what it gave before plus that event; other types read as before |
| EventStore.InMemoryEventStore.constructor | src/Sales.Application/EventSource/InMemoryEventStore.cs:5 | the store starts empty |
| EventStore.InMemoryEventStore.SaveEventAsync | src/Sales.Application/EventSource/InMemoryEventStore.cs:7-11 | appends the event at the end; earlier events unchanged |
| EventStore.InMemoryEventStore.GetEventsAsync | src/Sales.Application/EventSource/InMemoryEventStore.cs:13-17 | exactly the stored events of the type, read without changing the store, never more than stored |

## Left out

- Persistence.SaleRepository.InsertAsync: `BeginTransaction` runs before the `try`, so when it throws the connection stays open. The model keeps this. It states `connectionOpen` afterwards as "was open, or the begin threw" rather than "always closed". Because the connection is scoped, the next write in the same scope then raises the "connection was not closed" message.
- Persistence.SaleRepository.UpdateAsync: the same open-connection behaviour as `InsertAsync`.
- Persistence.SaleRepository.InsertAsync and UpdateAsync: the identity values consumed by a rolled-back statement are not pinned down. The contract says only that the counters never decrease, as with SQL Server identity columns.
- Actual SQL execution: the join the fold reads is an argument (a sequence of rows), and LIKE matching, `splitOn` column mapping and identity generation are not modelled. The fold takes `Dictionary.Values` in insertion order, which holds for a dictionary with no removals.
- Persistence.SaleRepository.GetBySpecificationWithRelationShipAsync: the specification's text and parameters are not linked to the rows it receives.
- Foreign keys other than SaleItem.SaleId → Sale are not modelled. Sales referencing unknown customers, branches or products are accepted.
- Reads never fail: `GetById` and `GetByIdAsync` are functions without a fault.
- The builder constructors apply the filters by looping over a table of filter requests. They do not call eight (or three) separately named `With…` methods. One generic `With` stands for them all.
- `AppendLine` ends each line with "\n"; `Environment.NewLine` on Windows would be "\r\n".
- The sale contract's optional `Id` is modelled although the contract file does not declare it; the builder reads it.
- UpdateSale with an empty item list would delete every stored item of the sale, because `GetByIdAsync` loads no items. The validator rejects such a command (`ValidUpdateCarriesItems`), so the handler never reaches it.
- SaleCommands.UpdateSaleCommandHandler.Handle: the branch for a `false` answer from the repository ("Error while updating Sale.") is modelled in `UpdateError`. It cannot be reached with this repository, because `UpdateAsync` either returns true or raises.
- ProductCommands.UpdateProductCommandHandler: the source of `UpdateProductCommandValidator` is not part of this model (only its unit tests are), so the handler takes the injected validator as an arbitrary function. `Validators.ValidateUpdateProduct` states the rules the tests exercise; the order of its messages is assumed.
- Null item lists, null names and null commands are not modelled; lists and strings are always present.
- A valid sale command may have a line whose discount exceeds its price times quantity. Its line total is then negative, and the model keeps that.
- Persistence.SaleRepository.GetById: `SaleRepository` inherits `GetByIdAsync` from `SqlRepository<Sale>`, which is not part of this model. It is read as Dapper.Contrib `Get`, which loads the row's columns only and leaves `Items` at its empty default. The consequence that an update with an empty item list deletes every stored item rests on that reading.
- Persistence.SaleRepository.InsertAsync and UpdateAsync: `Rollback` and `Close` are assumed not to throw, and each call has at most one fault. If `transaction.Rollback()` threw inside the `catch` (a broken connection, or a transaction a failing `Commit` already completed), its exception would replace the original one and the tables would not be restored as stated.
- The Product repository registered by dependency injection derives from `SqlRepository`, which is not part of this model. The product table follows the generic repository's Dapper.Contrib semantics.
- Entities are values. A write's effect on the caller's object (the id written back, items stamped) is returned as `written`; aliasing between the caller's object and anything else is not modelled.
- Messaging.EventPublisher.PublishAsync: the null-event check is left out, because the handlers never publish null. MassTransit delivery, the consumers, MongoDB and the command publisher are left out.
- EventStore.InMemoryEventStore.GetEventsAsync: `OfType<T>` is lazy in C#. It is modelled as a snapshot filtered by exact event type, and queries by a base type (`object`, a shared event base class) are left out.
- Async execution, cancellation, concurrent requests, logging, HTTP controllers, request/response mapping and dependency injection are left out.
- ProductPersistence.ProductRepository.InsertAsync: a failed insert leaves the identity counter unchanged. SQL Server may consume an identity value on a failed insert; the sale repository's contracts promise only that their counters never decrease, while the product table keeps the simpler "unchanged".
- The events the sale handlers publish carry Id, CustomerId, BranchId and SaleStatus, as the handlers' object initializers set them (CreateSaleCommandHandler.cs:65-71, UpdateSaleCommandHandler.cs:70-89). `SaleCreatedEvent` and `SaleUpdatedEvent` derive from `DomainEvent` and do not declare all of these properties; only `SaleCancelledEvent` does. The event built in `SaleCommands.CreateSaleCommandHandler.Handle` and `SaleCommands.UpdateEvent` follow the initializers. The `DomainEvent` fields (a generated ObjectId, a clock timestamp, the aggregate and event type names and the JSON payload) are not modelled.
- `Domain.SaleStatus` has only the three named members. A C# `ESaleStatus` can hold any integer; no validator checks `IsInEnum`, and `UpdateSaleCommand.SaleStatus` accepts any value. Such an undeclared status would behave like any status other than `Cancelled`: it is stored and gets a `SaleUpdatedEvent`.
- Decimal range and overflow, and `int`/`long` widths, are not modelled: all numbers are unbounded. A GUID is any 36-character string.
