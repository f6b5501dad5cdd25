# Product inventory API: a Dafny model

This project models the core of a small CRUD REST API for a product inventory.
A product has an integer id, a name and a stock count. The model has three layers,
one module each, over a store module:

- **Data** (`data.dfy`): the products table, keyed by its primary key `Id`. It also
  holds the five seed rows and the id sequence `dbo.ProductIdSequence`. The sequence
  starts at 100005, stays within [100000, 999999] and steps by 1.
- **Repositories** (`product_repository.dfy`): the class `ProductRepository`. Its
  fields are the table (a `map` from id to name and stock) and the sequence's next
  value. Its methods list, get, insert, update and delete in place. Pure functions
  (`Select`, `Find`, `Inserted`, `Updated`, `Deleted`) say what each operation means,
  and each method's `ensures` ties its new state and result to one of them.
- **Services** (`product_service.dfy`): the class `ProductService`. It delegates to
  the repository and copies fields between `Product` and `ProductDto`. `AddStock`
  and `DecreaseStock` each do a get, change the stock, then do an update.
- **Controllers** (`product_controller.dfy`): the class `ProductsController`. Its
  actions call the service at most once and turn the outcome into an HTTP result
  (200, 201, 204, 400, 404, and 500 for an unhandled exception; see below).

`models.dfy` holds the entity, the two DTO shapes and C#'s 32-bit `int`.
`wrappers.dfy` holds `Option` (a nullable result) and `Result` (a call that can throw).
`scenarios.dfy` restates the repository tests' scenarios over the model. It also has
two client methods that drive the controller on a freshly seeded store.

Modelling choices:

- **List results are sets.** The list query has no `ORDER BY`, so the store gives no
  order. Ids are distinct, so a set loses no rows (`SelectAll`: as many products as keys).
- **The name filter is ordinal and case-sensitive.** `Contains` is a left-to-right
  scan whose contract is "the filter occurs at some position".
- **Stock arithmetic wraps at 32 bits.** `Stock += quantity` and `Stock -= quantity`
  use C#'s default unchecked context, so they wrap around (`Wrap32`). Nothing in the
  code checks for overflow, and the project's overflow setting is not part of this model.
- **Id generation.** A product whose `Id` is the CLR default 0 gets the sequence's
  next value; every product added through the service is such a product. A non-zero
  id is inserted as given, as the repository tests do. The sequence value is used up
  even when the insert then fails on a duplicate key. Once the sequence is past
  999999 it raises an error, because it does not cycle.
- **An exception from `PostProduct` becomes 500.** The exception (duplicate key or
  exhausted sequence) leaves the action. The exception middleware is not registered,
  so the framework's default 500 answers it. This is `ActionResult.Unhandled`.

Behaviours of the code worth stating plainly:

- A duplicate key on insert is an unhandled exception, answered with 500; nothing
  maps it to 409.
- An insert with an explicit non-zero id keeps that id; the store does not replace it.
- With exactly one of `minStock`/`maxStock` given, the repository returns nothing:
  a lifted `int?` comparison with null is false. The controller answers 400 before it
  reaches that case.
- `SearchProduct` declares a 404 response
  (src/ZeissAssessment.API/Controllers/ProductController.cs:178) but answers an empty
  result with 204 (:185) and never with 404; the model follows what it returns.

## Model

| member | source | states |
|---|---|---|
| `Models.Wrap32` | src/ZeissAssessment.API/Services/ProductService.cs:33 | unchecked 32-bit `int` arithmetic: the exact value when it fits, otherwise a value congruent to it modulo 2^32 |
| `Models.FromRequest` | src/ZeissAssessment.API/Mappings/AutoMapperProfiles.cs:10 | the request becomes a product with the default id 0, so the store assigns the id; the reverse copy `ToRequest` gives the request back, and no other id-0 product maps to it |
| `Models.FromDto` | src/ZeissAssessment.API/Mappings/AutoMapperProfiles.cs:9 | the DTO-to-entity copy is the inverse of the entity-to-DTO copy, and that copy is injective |
| `Data.RowsOf` | src/ZeissAssessment.API/Data/ProductsDbContext.cs:24-25 | a product is in the table exactly when its id is a key holding its name and stock; two products with one id are the same product (primary key) |
| `Data.RowsOfCount` | src/ZeissAssessment.API/Data/ProductsDbContext.cs:24-25 | the table holds as many products as it has keys |
| `Data.DrawId` | src/ZeissAssessment.API/Data/ProductsDbContext.cs:18-22 | the sequence hands out its current value, which lies in [100000, 999999], and steps by 1; past 999999 it fails with "exhausted" |
| `Data.TableOfDistinct` | src/ZeissAssessment.API/Data/ProductsDbContext.cs:41 | seeding rows with distinct ids gives a table with exactly those ids, one row per seed entry, each with its name and stock |
| `Data.SeedTableContents` | src/ZeissAssessment.API/Data/ProductsDbContext.cs:32-41 | the initial table is exactly the five rows with ids 100000 to 100004 and stocks 10 to 50; every seed id is below the sequence start 100005 |
| `Repositories.Contains` | src/ZeissAssessment.API/Repositories/ProductRepository.cs:23 | the scan returns true exactly when the filter occurs at some position of the name |
| `Repositories.Select` | src/ZeissAssessment.API/Repositories/ProductRepository.cs:17-31 | the query returns only stored products; with exactly one stock bound it returns nothing |
| `Repositories.SelectAll` | src/ZeissAssessment.API/Repositories/ProductRepository.cs:19-31 | without filters the query returns exactly the stored products, as many as there are keys |
| `Repositories.SelectConjunctive` | src/ZeissAssessment.API/Repositories/ProductRepository.cs:21-29 | the name filter and the stock filter combine as an intersection |
| `Repositories.Find` | src/ZeissAssessment.API/Repositories/ProductRepository.cs:34-37 | a product is found exactly when its id is stored, and the result is that stored product |
| `Repositories.Updated` | src/ZeissAssessment.API/Repositories/ProductRepository.cs:46-60 | an absent id leaves the table as it was; otherwise only that row changes, to the new name and stock, and the keys stay the same |
| `Repositories.Deleted` | src/ZeissAssessment.API/Repositories/ProductRepository.cs:62-74 | exactly that key is removed and every other row is kept; afterwards a get finds nothing; a present id shrinks the table by one |
| `Repositories.Inserted` | src/ZeissAssessment.API/Repositories/ProductRepository.cs:39-44 | null fails with ArgumentNull; a duplicate id fails and leaves the table as it was; a success adds exactly one row, which a get then returns; null and an exhausted draw leave the sequence where it was; a default id takes the sequence's next value, and the insert succeeds exactly when that value is not already a key, which always holds while every key is below the sequence |
| `Repositories.ProductRepository.constructor` | src/ZeissAssessment.API/Data/ProductsDbContext.cs:18-41 | a fresh store holds the seed table, with the sequence at its start |
| `Repositories.ProductRepository.GetProducts` | src/ZeissAssessment.API/Repositories/ProductRepository.cs:17-31 | applying the two `Where` filters in turn, with lifted `int?` comparisons, gives exactly `Select` |
| `Repositories.ProductRepository.GetProduct` | src/ZeissAssessment.API/Repositories/ProductRepository.cs:34-37 | returns the stored product with that id, or null when there is none |
| `Repositories.ProductRepository.AddProduct` | src/ZeissAssessment.API/Repositories/ProductRepository.cs:39-44 | the new table, sequence and result are those of `Inserted` |
| `Repositories.ProductRepository.UpdateProduct` | src/ZeissAssessment.API/Repositories/ProductRepository.cs:46-60 | the new table is `Updated`; the result is null exactly when the id was absent, and otherwise the updated row |
| `Repositories.ProductRepository.DeleteProduct` | src/ZeissAssessment.API/Repositories/ProductRepository.cs:62-74 | the new table is `Deleted`; the result is the row as it was before deletion, or null |
| `Services.DtosOf` | src/ZeissAssessment.API/Services/ProductService.cs:71 | mapping a list to DTOs keeps every product and adds none, so the count is unchanged |
| `Services.Restocked` | src/ZeissAssessment.API/Services/ProductService.cs:33 | only the stock of that product changes, by the quantity modulo 2^32 (exactly, when no overflow occurs); an absent id changes nothing |
| `Services.RestockedInverse` | src/ZeissAssessment.API/Services/ProductService.cs:26-49 | decreasing by the quantity just added restores the table, with or without overflow |
| `Services.DecreaseBelowZero` | src/ZeissAssessment.API/Services/ProductService.cs:46 | stock has no lower bound: 10 decreased by 20 is -10 |
| `Services.ProductService.constructor` | src/ZeissAssessment.API/Services/ProductService.cs:14-18 | the service uses the given repository |
| `Services.ProductService.AddProduct` | src/ZeissAssessment.API/Services/ProductService.cs:20-24 | inserts the request under the sequence's next id and returns its DTO; while every key is below the sequence, it fails only when the sequence is exhausted, and that invariant is kept |
| `Services.ProductService.AddStock` | src/ZeissAssessment.API/Services/ProductService.cs:26-37 | an absent id gives null and changes nothing; otherwise the stock grows by the quantity (32-bit wrap), the id and name are kept, and the returned DTO carries the new row |
| `Services.ProductService.DecreaseStock` | src/ZeissAssessment.API/Services/ProductService.cs:39-50 | an absent id gives null and changes nothing; otherwise the stock shrinks by the quantity with no lower bound, and the returned DTO carries the new row |
| `Services.ProductService.DeleteProduct` | src/ZeissAssessment.API/Services/ProductService.cs:52-55 | passes the repository's delete through unchanged |
| `Services.ProductService.GetProduct` | src/ZeissAssessment.API/Services/ProductService.cs:57-66 | null exactly when the id is not stored; otherwise a DTO with the stored id, name and stock |
| `Services.ProductService.GetProducts` | src/ZeissAssessment.API/Services/ProductService.cs:68-72 | the DTOs of every stored product, one per key |
| `Services.ProductService.GetProductsByName` | src/ZeissAssessment.API/Services/ProductService.cs:74-78 | passes only the name filter: exactly the DTOs of the stored products whose name contains it |
| `Services.ProductService.GetProductsByStockLevel` | src/ZeissAssessment.API/Services/ProductService.cs:80-84 | passes only the two bounds: exactly the DTOs of the stored products with min <= stock <= max |
| `Services.ProductService.UpdateProduct` | src/ZeissAssessment.API/Services/ProductService.cs:86-94 | null exactly when the repository finds no such id; otherwise the row is overwritten and the returned DTO equals the one sent |
| `Controllers.StatusCode` | src/ZeissAssessment.API/Controllers/ProductController.cs:26-217 | `Ok`, `CreatedAtAction`, `NoContent`, `BadRequest`, `NotFound` and an escaped exception are answered with 200, 201, 204, 400, 404 and 500, and no two kinds share a code |
| `Controllers.ProductsController.constructor` | src/ZeissAssessment.API/Controllers/ProductController.cs:15-19 | the controller uses the given service |
| `Controllers.ProductsController.GetProducts` | src/ZeissAssessment.API/Controllers/ProductController.cs:28-33 | 200 with the DTOs of every stored product |
| `Controllers.ProductsController.GetProduct` | src/ZeissAssessment.API/Controllers/ProductController.cs:44-54 | 404 exactly when the id is absent; otherwise 200 with the product |
| `Controllers.ProductsController.PostProduct` | src/ZeissAssessment.API/Controllers/ProductController.cs:65-70 | the new table and sequence are those of `Inserted` for the request with id 0, so every other row stays and the sequence steps by 1 when it is not exhausted; 201 pointing at `GetProduct` with the store-assigned id in [100000, 999999] and the request's name and stock; a store failure escapes (500) and leaves the table unchanged |
| `Controllers.ProductsController.PutProduct` | src/ZeissAssessment.API/Controllers/ProductController.cs:84-100 | 400 on a route/body id mismatch with nothing changed; otherwise 404 when absent, and 200 with the updated product when present |
| `Controllers.ProductsController.DeleteProduct` | src/ZeissAssessment.API/Controllers/ProductController.cs:111-122 | 204 when the product existed and is removed; 404 otherwise |
| `Controllers.ProductsController.DecrementStock` | src/ZeissAssessment.API/Controllers/ProductController.cs:134-145 | 404 when absent; otherwise 200 with the product at its decreased stock |
| `Controllers.ProductsController.AddToStock` | src/ZeissAssessment.API/Controllers/ProductController.cs:157-168 | 404 when absent; otherwise 200 with the product at its increased stock |
| `Controllers.ProductsController.SearchProduct` | src/ZeissAssessment.API/Controllers/ProductController.cs:179-189 | 204 when no stored name contains the text; otherwise 200 with exactly the matching products |
| `Controllers.ProductsController.GetProductsWithStockLevel` | src/ZeissAssessment.API/Controllers/ProductController.cs:202-217 | 400 when a bound is missing, so the repository never sees just one bound; otherwise 204 when no stock is in [min, max], else 200 with exactly those products |
| `Scenarios.StockWindowScenario` | src/ZeissAssessment.Tests/ProductRepositoryTest.cs:63-82 | stocks 10, 20, 30, 40 and window [15, 35]: exactly the stock-20 and stock-30 products |
| `Scenarios.ExactStockScenario` | src/ZeissAssessment.Tests/ProductRepositoryTest.cs:215-233 | window [20, 20] selects the single stock-20 product (both ends inclusive) |
| `Scenarios.OutOfRangeScenario` | src/ZeissAssessment.Tests/ProductRepositoryTest.cs:236-253 | window [40, 50] over stocks 10, 20, 30 selects nothing |
| `Scenarios.NameFilterScenario` | src/ZeissAssessment.Tests/ProductRepositoryTest.cs:42-60 | filter "Test" selects exactly the two products whose names contain it |

## Left out

- Framework wiring is left out: dependency injection, Swagger, HTTPS redirection and
  app startup (`Program.cs`). The controller, service and repository are built
  explicitly.
- The exception middleware is left out. It is not registered, and its random
  correlation ids and logging are I/O.
- The migration files are left out. They repeat the `ProductsDbContext` configuration.
- Async/await, change tracking, query translation and `SaveChangesAsync` are left out.
  Every store call is one synchronous map operation. Results are value snapshots, so
  aliasing of tracked entities is not modelled.
- Store connectivity failures are left out. Only the store errors named above are modelled.
- Concurrency is left out. A single sequential caller is modelled, so the lost update
  between get and update in `AddStock`/`DecreaseStock` does not arise.
- Collation is left out. The name filter is ordinal and case-sensitive, whatever the
  store's default collation would do.
- The `ValidateModel` filter and the DTOs' `[Required]`/`[Range]` attributes are left
  out; that filter's source is not part of this model. So is the framework's check
  of a missing `name` query parameter. The model has no 400 for an invalid body, and
  a DTO's stock is always present.
- `Product.cs` is not part of this model. Its fields are taken from the mapping, the
  seed data and the migration.
- Logging calls are left out.
- The repository tests use the in-memory provider, which generates ids its own way.
  The model follows the SQL Server configuration with the sequence.
