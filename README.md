# Product catalogue model

A Dafny model of the product catalogue of a small FastAPI e-commerce backend.
It covers the six `/products` handlers (list, create, list by category, get,
update, soft delete), the pydantic validation rules of the request and response
schemas, and the `products` table's column definitions.

The database is two in-memory tables:

- `products` maps an id to a `Models.Product` row.
- `categories` maps a category id to its `is_active` flag. The category model
  file is not part of this model, and categories need nothing else here.

The modules follow the source files:

- `Schemas` (`app/schemas.py`): each `Field(...)` is kept as its list of
  declared rules (`MinLength`, `MaxLength`, `Pattern`, `Gt`, `Ge`,
  `DecimalPlaces`). A request is valid when each present field obeys all of
  its rules. The `...Means` lemmas state what those rule lists amount to as
  plain bounds.
- `Decimals` supports the price field. It models a finite Python `Decimal` as
  `coefficient × 10^exponent`. `gt` and `decimal_places` depend only on the
  number's value, so 19.990 has two places, as it does after normalisation.
  The price column holds the number as a whole count of hundredths.
- `Models` (`app/models/products.py`): the `Product` row, the column widths,
  NUMERIC(10, 2), and the `is_active` default of true.
- `ProductsRouter` (`app/routers/products.py`):
  - The read handlers are functions of the tables.
  - The writing handlers each have an outcome function. It gives the response
    and the new `products` table.
  - The `CatalogueStore` class owns both tables. Its `CreateProduct`,
    `UpdateProduct` and `DeleteProduct` methods update the tables in place.
    Each method is proved to produce exactly its outcome function's result and
    to keep the table invariant: primary key, well-formed rows, and the foreign
    key from `category_id` to `categories`.

Errors are `NotFound(detail)` (404) and `BadRequest(detail)` (400). Their detail
texts are the source's own strings. Every writing handler requires an input that
passed `ProductCreate` validation. The framework rejects any other input before
the handler runs.

## Model

| member | source | states |
|---|---|---|
| `ProductsRouter.GetAllProducts` | app/routers/products.py:13-18 | the list holds an active row, never an inactive one, and nothing but rows of the table; it writes nothing |
| `ProductsRouter.ListAgreesWithLookup` | app/routers/products.py:13-18 | a row is listed exactly when the single-product lookup (`id` and `is_active`) finds it |
| `ProductsRouter.CreateOutcome` | app/routers/products.py:21-34 | an absent or inactive category gives NotFound "Category not found" with the table unchanged; otherwise exactly one row is added under the fresh id, it is the row built from the input, it is returned, every other row is unchanged, and the table invariant is kept |
| `ProductsRouter.CatalogueStore.CreateProduct` | app/routers/products.py:21-34 | the handler updates the store in place to exactly the outcome `CreateOutcome` gives, keeps the store invariant and leaves categories alone |
| `ProductsRouter.PersistedMatchesInput` | app/routers/products.py:30-31 | the inserted row has the given id, `is_active` true, and name, description, price (same number), image_url, stock and category_id equal to the input |
| `ProductsRouter.GetProductByCategory` | app/routers/products.py:37-47 | fails NotFound "Category not found or inactive" exactly when the category is absent or inactive; otherwise returns exactly the listed (active) rows with that category_id |
| `ProductsRouter.EmptyCategoryIsNotAnError` | app/routers/products.py:45-47 | an active category with no active product gives an empty list, not an error |
| `ProductsRouter.GetProduct` | app/routers/products.py:50-60 | succeeds exactly for an active row whose category is active, returning that row; NotFound "Product not found" exactly when no active row has the id, whatever the category; BadRequest "Category not found" exactly when the row is active and its category is absent or inactive |
| `ProductsRouter.DanglingCategoryIsInactive` | app/models/products.py:17 | while the foreign key holds, a BadRequest from get means the category exists but is inactive |
| `ProductsRouter.CreateThenGet` | app/routers/products.py:21-60 | after a successful create, get on the new id returns the created row, and the row appears in the list and is the only addition to its category's list |
| `ProductsRouter.UpdateOutcome` | app/routers/products.py:63-76 | no active row gives NotFound; otherwise an inactive or absent input category gives BadRequest "Category not found"; in both error cases the table is unchanged; otherwise only that row changes, to the row with the six input fields written over it, which is returned; the table invariant is kept |
| `ProductsRouter.CatalogueStore.UpdateProduct` | app/routers/products.py:63-76 | the handler updates the store in place to exactly the outcome `UpdateOutcome` gives and keeps the store invariant |
| `ProductsRouter.OverwriteIsCreateInPlace` | app/routers/products.py:73 | an update writes the same six fields a create of that input writes, keeping the row's id and `is_active`; writing the same input twice changes nothing more |
| `ProductsRouter.UpdateThenGet` | app/routers/products.py:63-76 | after a successful update, get returns the row that update returned, with the same id and still active |
| `ProductsRouter.DeleteOutcome` | app/routers/products.py:78-88 | no active row gives NotFound "Product not found" with the table unchanged; otherwise only that row's `is_active` becomes false, every other row and field is unchanged, and the response is the row with all fields but `is_active` as before; the table invariant is kept |
| `ProductsRouter.CatalogueStore.DeleteProduct` | app/routers/products.py:78-88 | the handler updates the store in place to exactly the outcome `DeleteOutcome` gives and keeps the store invariant |
| `ProductsRouter.DeleteHidesProduct` | app/routers/products.py:80-88 | after a successful delete, a second delete, a get and an update of that id fail NotFound and write nothing, and neither list shows a row with that id |
| `ProductsRouter.InactiveIsInvisible` | app/routers/products.py:13-88 | a row that is absent or inactive is never listed, and get, update and delete of its id fail NotFound without writing |
| `ProductsRouter.ProductCreateFitsColumns` | app/models/products.py:11-14 | every request that passes the ProductCreate schema fits the name, description and image_url column widths, and its row is well formed |
| `ProductsRouter.ValidPriceCanExceedColumn` | app/schemas.py:20 | the schema puts no upper bound on price: a valid request with price 10^8 does not fit NUMERIC(10, 2) |
| `Schemas.CategoryCreateValidMeans` | app/schemas.py:5-7 | a CategoryCreate is valid exactly when its name has 3 to 50 characters; parent_id may be absent or any integer |
| `Schemas.ProductCreateValidMeans` | app/schemas.py:17-23 | a ProductCreate is valid exactly when name has 3 to 100 characters, description is absent or at most 500, price is positive with at most two places, image_url is absent or at most 200, and stock is at least 0; category_id is unconstrained |
| `Schemas.PriceRulesMean` | app/schemas.py:20 | the price rules hold exactly for a positive number with at most two decimal places |
| `Schemas.PriceBoundaries` | app/schemas.py:20 | 19.99 and 19.990 pass the price rules; 19.999, 0 and -5 fail |
| `Schemas.ProductOutValidMeans` | app/schemas.py:25-34 | the output Product is valid exactly when its price is positive with at most two places; seller_id is a required integer |
| `Schemas.UserCreateValidMeans` | app/schemas.py:38-41 | a UserCreate is valid exactly when the password has at least 8 characters and the role is omitted or exactly "buyer" or "seller" |
| `Schemas.ValidUserRole` | app/schemas.py:41 | a valid user is created as a buyer or a seller, and as a buyer when the role is omitted |
| `Decimals.AtMostPlacesIsValueBased` | app/schemas.py:20 | a number has at most n decimal places exactly when it is a whole number of units of 10^-n, whatever its representation |
| `Decimals.ExceedsZero` | app/schemas.py:20 | `gt=0` holds exactly when the coefficient is positive |
| `Decimals.PositiveHundredths` | app/schemas.py:20 | a price with at most two places is positive exactly when its count of hundredths is |
| `Decimals.HundredthsRoundTrip` | app/models/products.py:13 | storing a price with at most two places as hundredths and reading it back gives the same number |
| `Models.StoredPriceIsScaleTwo` | app/models/products.py:13 | every stored price reads back as a number with at most two places whose hundredths are the stored value |

## Left out

- ProductsRouter.DeleteOutcome: the contract does not state `is_active` on the returned row. The body returns the snapshot read before the update. The ORM's session synchronisation may or may not set that object's flag to false.
- ProductsRouter.CatalogueStore.DeleteProduct: weaker in the same way, since it is specified by `DeleteOutcome`.
- ProductsRouter.GetAllProducts: returns a set, so the order of the rows is not modelled. The query has no ORDER BY. Rows are keyed by id, so the set loses no rows.
- ProductsRouter.GetProductByCategory: returns a set, for the same reason.
- The async session, `commit`, `refresh` and the SQL statements are replaced by the in-memory tables. A failing database call is an unhandled fault outside this model.
- Races between the category check and the write are not modelled. This is concurrency, and the source gives no isolation.
- How ids are generated is not modelled. `CreateProduct` takes a fresh id as a parameter.
- The model stores any price and stock the schema admits. It does not model the database refusing a price beyond NUMERIC(10, 2) or a stock beyond its INTEGER column. The database engine is not part of this model. `ValidPriceCanExceedColumn` shows that such a price exists.
- Converting a row into the output `Product` schema is not modelled. That schema requires `seller_id`, which the `products` table does not have.
- `EmailStr` validation of `email` is left out. It is done by a foreign library.
- Parsing JSON into field values is left out. This includes lax coercion of strings to numbers and the rejection of NaN and infinite decimals. `Decimal` here is always finite.
- Rounding to the decimal context's 28-digit precision when pydantic normalises a price is not modelled.
- HTTP routing and status codes are left out beyond NotFound for 404 and BadRequest for 400. Schema validation errors (422) happen before a handler runs and appear only as the handlers' precondition.
- The `Category` and `User` response schemas carry no constraints, only types, and are not modelled.
- `Project`, `Employee`, `Participation` and the second `Base` in the models file are not modelled. They declare ORM relationships with no behaviour.
- The `Category` model file and the `category` relationship attribute are not part of this model. Categories are a map from id to the active flag.
