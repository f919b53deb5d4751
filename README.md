# Shop catalog API — a Dafny model

This project models the catalog of a small ASP.NET Core shop API. A catalog
has two tables, categories and products, stored in an in-memory database.
Two controllers serve them:

- `CategoryController`: list, read by id, create, replace and delete
  categories.
- `ProductController`: the same for products, plus a listing of one
  category's products. Every product read joins the product's category in
  from the categories table. `CategoryId` is a non-nullable `int`, so the
  relationship is required and the join is an inner join: a product whose
  category row is missing is not returned by any read.

The model has four layers:

- **Validation** (`DataAnnotations`, `CategoryModel`, `ProductModel`). The
  attributes on the two entity classes (`Required`, `MaxLength`,
  `MinLength`, `Range`) become `Check` values. `Violations` runs every
  check and returns the set of fields that fail. The model follows how
  .NET applies these attributes:
  - `Required` rejects null, and on strings it also rejects empty or
    whitespace-only text (`char.IsWhiteSpace`).
  - The length attributes accept null.
  - Lengths are `string.Length`, so they count UTF-16 code units.
  - On a value type, `Required` never fails.

  For each entity, a direct rule (`ValidTitle`, the range bounds, the
  description bound) is proved equal to what running the attributes
  reports.
- **Authorization** (`Auth`). Each action carries `[AllowAnonymous]` or
  `[Authorize(Roles = ...)]`. The gate runs before the action body and
  answers 401 (no token) or 403 (token without the role).
- **The store** (`Data.DataContext`). This is a class holding the two
  tables as maps from key to row. It also holds the two key generators of
  the in-memory provider:
  - A row added with id 0 gets the next generated key; any other id is
    used as given.
  - The generator is drawn when the row is added, before the save, and it
    moves past every key that gets stored.
  - Stored products never carry their joined category.
- **The controllers** (`CategoryController`, `ProductController`). Reads
  are functions of the store. `Post`, `Put` and `Delete` are methods that
  modify the store. Each method's contract gives:
  - the outcome for every combination of failing checks, in the source's
    order;
  - the new contents of both tables;
  - a later read of the written key.
  All outcomes are values of `ActionResults.Outcome`; HTTP status codes
  and messages are not modelled.

The order of checks in the source:

- Category `Post`: role, then validation, then the save.
- Category and product `Put`: role, then route id equal to body id (else
  `NotFound`, even for an invalid body), then validation, then the row must
  still exist (else `ConcurrencyConflict`), then the save.
- Product `Post`: role, then the category must exist (else
  `InvalidReference`, even for an invalid body), then validation, then the
  save. Product `Put` does not look the category up.
- `Delete`: role, then the row must exist (else `NotFound`), then the save.

`saveFails` stands for a save that throws for a reason the model does not
see. The outcome is then `PersistenceFailed` and the tables do not change.
A category or product `Post` whose key is already taken also gives
`PersistenceFailed`: the in-memory provider refuses a duplicate key.

Three consequences of the code that are easy to miss:

- A whitespace-only title fails `Required`, whatever its length.
  `CategoryModel.TitleOfBasicText` states the length rule for non-blank
  titles.
- A two-letter title is rejected by `[MinLength(3)]`.
  `Walkthrough.ShortTitle` shows the rejection of the product title "Go".
- Product `Put` performs no category check, so it can store a product
  whose category does not exist. Deleting a category does the same to the
  products that refer to it. Such a product stays in its table, but no read
  returns it: `Walkthrough.OrphanedProduct` shows this.

`Walkthrough` is a client of the contracts. It creates a category and a
product, reads the product back with its category joined, and shows
rejected requests, a delete followed by a read, and a product whose
category is deleted.

## Model

| member | source | states |
|---|---|---|
| DataAnnotations.Violations | Models/Product.cs:10-24 | a field is reported exactly when one of its attributes rejects its value; every attribute is run, none is skipped after an earlier failure |
| DataAnnotations.ViolationsOfConcatenation | Models/Product.cs:10-24 | the attributes of separate properties are judged independently: the violations of two attribute lists together are the union of each list's violations |
| DataAnnotations.Utf16Length | Models/Category.cs:11-12 | the length the length attributes compare lies between the number of characters and twice that number |
| DataAnnotations.Utf16LengthOfBasicText | Models/Category.cs:11-12 | on text without characters outside the Basic Multilingual Plane, the compared length is the number of characters |
| CategoryModel.TitleChecksMeanValidTitle | Models/Category.cs:10-13 | running Required, MaxLength(60) and MinLength(3) on a title reports Title exactly when the title is null, blank, longer than 60 or shorter than 3 |
| CategoryModel.TitleViolations | Models/Category.cs:10-13 | the title attributes report {Title} when the direct title rule fails and nothing otherwise |
| CategoryModel.CategoryViolations | Models/Category.cs:10-13 | a category can violate only Title, and does so exactly when its title breaks the title rule |
| CategoryModel.TitleOfBasicText | Models/Category.cs:11-13 | a non-blank title without supplementary characters is valid exactly when it has 3 to 60 characters |
| CategoryModel.InvalidTitles | Models/Category.cs:10-12 | a null title, a blank title, a title over 60 and a title under 3 each give exactly {Title} |
| ProductModel.DescriptionViolations | Models/Product.cs:15-16 | Description is reported exactly when it is present and longer than 1024; null passes |
| ProductModel.RangeViolations | Models/Product.cs:18-24 | a numeric property with Required and Range(1, int.MaxValue) is reported exactly when it lies outside 1..2147483647; Required never fails on it |
| ProductModel.ProductViolations | Models/Product.cs:10-24 | the violated fields of a product are among the four annotated ones, with one exact condition per field; several fields can be reported at once |
| ProductModel.ProductViolationsRunEveryAttribute | Models/Product.cs:10-24 | the per-field rule equals the result of running every attribute of the class in declaration order |
| ProductModel.SameTitleRule | Models/Product.cs:10-13 | a product title and a category title with the same text get the same Title verdict |
| ProductModel.NavigationDoesNotAffectValidity | Models/Product.cs:26 | in the model, changing the Category navigation property never changes a product's violations (see Left out for the nested object) |
| ProductModel.AllViolationsReported | Models/Product.cs:10-24 | a body with no title, price 0 and category id 0 reports Title, Price and CategoryId together |
| Auth.Authorize | Controllers/CategoryController.cs:54-56 | an anonymous policy always allows; a role policy allows exactly callers holding the role, challenges anonymous callers and forbids authenticated callers without the role |
| Auth.RolesAreIndependent | Controllers/ProductController.cs:98-100 | for every set of roles: without "manager" the caller is forbidden at the manager gate, and with "employee" it passes the employee gate, whatever else it holds |
| ActionResults.Denied | Controllers/CategoryController.cs:56 | a challenge becomes Unauthenticated and a forbid becomes Forbidden |
| Data.NewKey | Controllers/CategoryController.cs:71-73 | the key a new row is stored under: the given id when it is not 0, the generator's next key when it is |
| Data.GeneratedKeyIsFresh | Controllers/ProductController.cs:89-90 | in a consistent store, a generated key is never a key already in use, for categories and for products |
| Data.HasCategory | Controllers/ProductController.cs:77 | whether some stored category has the given Id, the lookup product Post makes |
| Data.HasProduct | Controllers/ProductController.cs:139 | whether some stored product has the given Id, the lookup product GetById and Delete make |
| Data.LookupByIdIsByKey | Controllers/CategoryController.cs:45 | in a consistent store, a stored row has a given Id exactly when that Id is a key of its table |
| Data.BumpedGenerator | Controllers/CategoryController.cs:71-73 | after a row is stored, the key generator is past its key and never moves back |
| Data.DataContext.constructor | Data/DataContext.cs:8-15 | a fresh store is empty, consistent, and its generators start at 1 |
| Data.IdsAreUnique | Models/Category.cs:7-8 | in a consistent store, two stored categories never share an Id, and neither do two stored products |
| Tables.SortedKeys | Controllers/CategoryController.cs:31 | the keys of a table listed once each, in strictly ascending order |
| Tables.Rows | Controllers/CategoryController.cs:31 | the rows of a table, one per key, including every stored row |
| CategoryController.PolicyOf | Controllers/CategoryController.cs:18-119 | Get and GetById are anonymous; Post, Put and Delete require "employee" |
| CategoryController.Get | Controllers/CategoryController.cs:31-34 | every stored category and only those, each exactly once, unfiltered |
| CategoryController.GetById | Controllers/CategoryController.cs:45-51 | Ok exactly when a stored category has that Id, and then it is that category; NotFound otherwise |
| CategoryController.Post | Controllers/CategoryController.cs:65-80 | role gate first; an invalid model gives its violations and inserts nothing; a valid one is stored under a key not previously used, the other rows stay, and a later GetById returns it; a failed save changes no table |
| CategoryController.Put | Controllers/CategoryController.cs:93-114 | a route id that differs from the body id gives NotFound before validation; an absent row gives ConcurrencyConflict, distinct from PersistenceFailed; neither changes the store; success replaces exactly that row |
| CategoryController.Delete | Controllers/CategoryController.cs:125-142 | an absent id gives NotFound and changes nothing; otherwise exactly that key is removed, products are untouched, and a later GetById gives NotFound |
| ProductController.PolicyOf | Controllers/ProductController.cs:16-133 | reads are anonymous, Post requires "employee", Put and Delete require "manager" |
| ProductController.WithCategoryId | Controllers/ProductController.cs:59 | the filter keeps exactly the products of the given category, never more rows than its input, and keeps an id-ascending input id-ascending |
| ProductController.Joined | Controllers/ProductController.cs:24 | a joined product carries the category row its CategoryId names, and every other field unchanged |
| ProductController.JoinAll | Controllers/ProductController.cs:24 | the inner join of a list of rows with the categories table: exactly the rows whose category exists, each joined, id order kept |
| ProductController.AllJoined | Controllers/ProductController.cs:23-26 | each stored product whose category exists exactly once, joined, in ascending id order; a product whose category row is missing is left out |
| ProductController.Get | Controllers/ProductController.cs:23-27 | every stored product whose category exists, each with its Category filled from the categories table by CategoryId, and no other product |
| ProductController.GetById | Controllers/ProductController.cs:38-44 | Ok exactly when a product with that Id is stored and its category row exists, returned with that category joined; NotFound otherwise, including for a product whose category is missing |
| ProductController.GetByCategory | Controllers/ProductController.cs:55-66 | always Ok, holding exactly the stored products whose CategoryId is the argument, joined, and nothing when that category does not exist; an empty result is a success, so the NotFound branch is unreachable |
| ProductController.Row | Controllers/ProductController.cs:89 | the row the store keeps for a product body: the same fields with no joined category |
| ProductController.Post | Controllers/ProductController.cs:77-95 | role gate first; a missing category gives InvalidReference even for an invalid body, and inserts nothing; an invalid model then gives its violations; a valid one is stored under a key not previously used and read back joined |
| ProductController.Put | Controllers/ProductController.cs:107-128 | a route id that differs from the body id gives NotFound before validation; there is no category check, so a stored product whose category is missing reads back as NotFound; an absent row gives ConcurrencyConflict, distinct from PersistenceFailed; neither changes the store |
| ProductController.Delete | Controllers/ProductController.cs:139-154 | an absent id gives NotFound; otherwise exactly that product is removed and the categories table is untouched |

## Left out

- Startup wiring is not modelled: dependency injection, JWT signature checking, CORS, compression, Swagger and routing. Token verification is a cryptographic call outside the model, so the caller's roles are an input (`Auth.Caller`).
- `async`/`Task`, the response cache on the category listing, JSON (de)serialisation, HTTP status codes and message strings are not modelled. Each response is an `Outcome` case.
- Change-tracking internals (`AsNoTracking`, `Entry(...).State`, `Include` as a query operator) are not modelled. They become map updates, a join function and the rule that a replaced row must exist.
- The `Users` table is left out: its entity class is not part of this model.
- Model binding errors are left out. Neither controller is an API controller, so a body that fails to bind, or is empty, still reaches the action, with an invalid model state and a null `model`. Category `Post` then answers with the model state errors (Controllers/CategoryController.cs:65). Category `Put` (Controllers/CategoryController.cs:93), product `Post` (Controllers/ProductController.cs:77) and product `Put` (Controllers/ProductController.cs:107) read a field of the null model and throw an unhandled exception. The model's actions always receive a bound body.
- A nested `Category` object inside a product body is ignored. The model does not cover the provider inserting it along with the product.
- ProductModel.NavigationDoesNotAffectValidity: holds of the model only. The source's validation recurses into a non-null nested `Category` in a product body (Models/Product.cs:26), so a nested category with a blank title makes the model state invalid under `Category.Title`. `ProductViolations` ignores the navigation property.
- The model does not capture what makes a save throw other than a duplicate key. The `saveFails` parameter stands for that choice.
- Two requests racing on the same row are not modelled. The entities have no concurrency token, so the only conflict the store reports is a replaced row that is no longer there.
- No cascade or referential rule on delete is modelled. Deleting a category leaves the products that refer to it in their table. No read returns them afterwards, because the join with their category finds no row.
- The order in which the store lists rows is unspecified. `CategoryController.Get`, `ProductController.Get` and `ProductController.GetByCategory` list rows in ascending id order, as one admissible order.
- ProductModel.RangeViolations: `Price` is a `decimal` in the source and a whole number here. The rounding that `Range(1, int.MaxValue)` applies to a fractional price, and its failure on prices beyond the `int` range, are not modelled.
- Ids are unbounded integers, so the model does not cover the key generator wrapping past `int.MaxValue`.
