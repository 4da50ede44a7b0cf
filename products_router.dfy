/**
 * The `/products` handlers over two in-memory tables: `products`, keyed by
 * id, and `categories`, which maps a category id to its `is_active` flag.
 *
 * The three read handlers are functions of the tables. The three writing
 * handlers are specified by outcome functions (the response and the new
 * `products` table) and carried out by the methods of `CatalogueStore`,
 * which owns the tables and updates them in place.
 */
module ProductsRouter {
  import opened Wrappers
  import opened Decimals
  import opened Schemas
  import opened Models

  /** A 404 or a 400 response with its detail text. */
  datatype Error = NotFound(detail: string) | BadRequest(detail: string)

  datatype Result<T> = Ok(value: T) | Err(error: Error)

  const ProductNotFound: string := "Product not found"
  const CategoryNotFound: string := "Category not found"
  const CategoryNotFoundOrInactive: string := "Category not found or inactive"

  type Table = map<int, Product>
  type Categories = map<int, bool>

  /** A writing request's response together with the `products` table it leaves. */
  datatype Transition = Transition(response: Result<Product>, table: Table)

  /** `id` is the primary key: every row sits under its own id. */
  predicate KeyedById(t: Table) {
    forall id :: id in t ==> t[id].id == id
  }

  /** A row holds fields that passed the create schema and fit their columns. */
  predicate RowWellFormed(p: Product) {
    && ColumnsFit(p)
    && 3 <= |p.name|
    && p.price > 0
    && p.stock >= 0
  }

  /**
   * What the handlers keep true of the tables: the primary key, well-formed
   * rows, and the foreign key from `category_id` to `categories.id`.
   */
  predicate TableInvariant(t: Table, c: Categories) {
    && KeyedById(t)
    && (forall id :: id in t ==> RowWellFormed(t[id]) && t[id].categoryId in c)
  }

  /** The category lookup every handler does: `id == cid` and `is_active == True`. */
  predicate CategoryActive(c: Categories, cid: int) {
    cid in c && c[cid]
  }

  /** The product lookup every handler does: `id == pid` and `is_active == True`. */
  function FindActive(t: Table, pid: int): Option<Product> {
    if pid in t && t[pid].isActive then Some(t[pid]) else None
  }

  /** The row that `ProductModel(**product.model_dump())` inserts under `id`. */
  function Persisted(id: int, input: ProductCreate): Product
    requires ProductCreateValid(input)
  {
    ProductCreateValidMeans(input);
    NewRow(id, input.name, input.description, Hundredths(input.price),
           input.imageUrl, input.stock, input.categoryId)
  }

  /** `row` after `.values(**product.model_dump())`: the six input fields replaced. */
  function Overwritten(row: Product, input: ProductCreate): Product
    requires ProductCreateValid(input)
  {
    ProductCreateValidMeans(input);
    row.(name := input.name, description := input.description,
         price := Hundredths(input.price), imageUrl := input.imageUrl,
         stock := input.stock, categoryId := input.categoryId)
  }

  // ---------------------------------------------------------------------
  // Read handlers

  /** GET /products/: every active row. */
  function GetAllProducts(t: Table): (r: set<Product>)
    ensures forall id :: id in t ==> (t[id] in r <==> t[id].isActive)
    ensures forall p :: p in r ==> p in t.Values && p.isActive
  {
    set id | id in t && t[id].isActive :: t[id]
  }

  /** GET /products/category/{cid}. */
  function GetProductByCategory(t: Table, c: Categories, cid: int): (r: Result<set<Product>>)
    ensures r.Err? <==> !CategoryActive(c, cid)
    ensures r.Err? ==> r.error == NotFound(CategoryNotFoundOrInactive)
    ensures r.Ok? ==> forall p :: p in r.value <==> p in GetAllProducts(t) && p.categoryId == cid
  {
    if !CategoryActive(c, cid) then Err(NotFound(CategoryNotFoundOrInactive))
    else Ok(set id | id in t && t[id].isActive && t[id].categoryId == cid :: t[id])
  }

  /** GET /products/{pid}: the product is looked up before its category. */
  function GetProduct(t: Table, c: Categories, pid: int): (r: Result<Product>)
    ensures r.Ok? <==> pid in t && t[pid].isActive && CategoryActive(c, t[pid].categoryId)
    ensures r.Ok? ==> r.value == t[pid]
    ensures r == Err(NotFound(ProductNotFound)) <==> FindActive(t, pid).None?
    ensures r == Err(BadRequest(CategoryNotFound)) <==>
      FindActive(t, pid).Some? && !CategoryActive(c, t[pid].categoryId)
  {
    match FindActive(t, pid)
    case None => Err(NotFound(ProductNotFound))
    case Some(p) =>
      if !CategoryActive(c, p.categoryId) then Err(BadRequest(CategoryNotFound)) else Ok(p)
  }

  // ---------------------------------------------------------------------
  // Writing handlers, as outcome functions

  /** POST /products/ with a fresh id `newId` for the inserted row. */
  function CreateOutcome(t: Table, c: Categories, input: ProductCreate, newId: int): (o: Transition)
    requires ProductCreateValid(input) && newId !in t
    ensures !CategoryActive(c, input.categoryId) ==>
      o.response == Err(NotFound(CategoryNotFound)) && o.table == t
    ensures CategoryActive(c, input.categoryId) ==>
      && o.response.Ok?
      && o.table.Keys == t.Keys + {newId}
      && (forall id :: id in t ==> o.table[id] == t[id])
      && o.table[newId] == o.response.value
      && o.response.value == Persisted(newId, input)
    ensures TableInvariant(t, c) ==> TableInvariant(o.table, c)
  {
    if !CategoryActive(c, input.categoryId) then
      Transition(Err(NotFound(CategoryNotFound)), t)
    else
      var row := Persisted(newId, input);
      ProductCreateFitsColumns(newId, input);
      Transition(Ok(row), t[newId := row])
  }

  /** PUT /products/{pid}: the product is checked first, then the input's category. */
  function UpdateOutcome(t: Table, c: Categories, pid: int, input: ProductCreate): (o: Transition)
    requires ProductCreateValid(input)
    ensures FindActive(t, pid).None? ==>
      o.response == Err(NotFound(ProductNotFound)) && o.table == t
    ensures FindActive(t, pid).Some? && !CategoryActive(c, input.categoryId) ==>
      o.response == Err(BadRequest(CategoryNotFound)) && o.table == t
    ensures FindActive(t, pid).Some? && CategoryActive(c, input.categoryId) ==>
      && o.table.Keys == t.Keys
      && (forall id :: id in t && id != pid ==> o.table[id] == t[id])
      && o.table[pid] == Overwritten(t[pid], input)
      && o.response == Ok(o.table[pid])
    ensures TableInvariant(t, c) ==> TableInvariant(o.table, c)
  {
    match FindActive(t, pid)
    case None => Transition(Err(NotFound(ProductNotFound)), t)
    case Some(row) =>
      if !CategoryActive(c, input.categoryId) then
        Transition(Err(BadRequest(CategoryNotFound)), t)
      else
        var updated := Overwritten(row, input);
        ProductCreateFitsColumns(pid, input);
        Transition(Ok(updated), t[pid := updated])
  }

  /**
   * DELETE /products/{pid}: a soft delete. The response is the row as it was
   * read before the update; only its `is_active` is left unstated.
   */
  function DeleteOutcome(t: Table, pid: int): (o: Transition)
    ensures FindActive(t, pid).None? ==>
      o.response == Err(NotFound(ProductNotFound)) && o.table == t
    ensures FindActive(t, pid).Some? ==>
      && o.table.Keys == t.Keys
      && (forall id :: id in t && id != pid ==> o.table[id] == t[id])
      && o.table[pid] == t[pid].(isActive := false)
      && o.response.Ok?
      && o.response.value.(isActive := false) == o.table[pid]
    ensures forall cs :: TableInvariant(t, cs) ==> TableInvariant(o.table, cs)
  {
    match FindActive(t, pid)
    case None => Transition(Err(NotFound(ProductNotFound)), t)
    case Some(row) => Transition(Ok(row), t[pid := row.(isActive := false)])
  }

  // ---------------------------------------------------------------------
  // The store

  /** The catalogue's two tables, owned and updated in place by the writing handlers. */
  class CatalogueStore {
    var products: Table
    var categories: Categories

    ghost predicate Valid()
      reads this
    {
      TableInvariant(products, categories)
    }

    constructor (categories: Categories)
      ensures Valid()
      ensures products == map[] && this.categories == categories
    {
      this.products := map[];
      this.categories := categories;
    }

    /** `create_product`; `newId` stands for the id the database generates. */
    method CreateProduct(input: ProductCreate, newId: int) returns (r: Result<Product>)
      requires Valid()
      requires ProductCreateValid(input) && newId !in products
      modifies this
      ensures Valid() && categories == old(categories)
      ensures Transition(r, products) == CreateOutcome(old(products), categories, input, newId)
    {
      if !CategoryActive(categories, input.categoryId) {
        return Err(NotFound(CategoryNotFound));
      }
      var row := Persisted(newId, input);
      products := products[newId := row];
      r := Ok(row);
      assert Transition(r, products) == CreateOutcome(old(products), categories, input, newId);
    }

    /** `update_product`. */
    method UpdateProduct(pid: int, input: ProductCreate) returns (r: Result<Product>)
      requires Valid()
      requires ProductCreateValid(input)
      modifies this
      ensures Valid() && categories == old(categories)
      ensures Transition(r, products) == UpdateOutcome(old(products), categories, pid, input)
    {
      var found := FindActive(products, pid);
      if found.None? {
        return Err(NotFound(ProductNotFound));
      }
      if !CategoryActive(categories, input.categoryId) {
        return Err(BadRequest(CategoryNotFound));
      }
      products := products[pid := Overwritten(found.value, input)];
      r := Ok(products[pid]);
      assert Transition(r, products) == UpdateOutcome(old(products), categories, pid, input);
    }

    /** `delete_product`. */
    method DeleteProduct(pid: int) returns (r: Result<Product>)
      requires Valid()
      modifies this
      ensures Valid() && categories == old(categories)
      ensures Transition(r, products) == DeleteOutcome(old(products), pid)
    {
      var found := FindActive(products, pid);
      if found.None? {
        return Err(NotFound(ProductNotFound));
      }
      var snapshot := found.value;
      products := products[pid := snapshot.(isActive := false)];
      r := Ok(snapshot);
      assert Transition(r, products) == DeleteOutcome(old(products), pid);
    }
  }

  // ---------------------------------------------------------------------
  // Properties

  /** Every request that passes the create schema fits the string columns. */
  lemma ProductCreateFitsColumns(id: int, input: ProductCreate)
    requires ProductCreateValid(input)
    ensures ColumnsFit(Persisted(id, input)) && RowWellFormed(Persisted(id, input))
  {
    ProductCreateValidMeans(input);
    PositiveHundredths(input.price);
    ExceedsZero(input.price);
  }

  /** The inserted row holds the input's six fields, its id, and `is_active` true. */
  lemma PersistedMatchesInput(id: int, input: ProductCreate)
    requires ProductCreateValid(input)
    ensures var p := Persisted(id, input);
      && p.id == id && p.isActive
      && p.name == input.name && p.description == input.description
      && SameValue(FromHundredths(p.price), input.price)
      && p.imageUrl == input.imageUrl && p.stock == input.stock
      && p.categoryId == input.categoryId
  {
    ProductCreateValidMeans(input);
    HundredthsRoundTrip(input.price);
    SameValueSymmetric(input.price, FromHundredths(Hundredths(input.price)));
  }

  lemma SameValueSymmetric(a: Decimal, b: Decimal)
    requires SameValue(a, b)
    ensures SameValue(b, a)
  {
  }

  /** An update writes exactly what a create of the same input writes, keeping id and flag. */
  lemma OverwriteIsCreateInPlace(row: Product, input: ProductCreate)
    requires ProductCreateValid(input)
    ensures Overwritten(row, input) == Persisted(row.id, input).(isActive := row.isActive)
    ensures Overwritten(Overwritten(row, input), input) == Overwritten(row, input)
  {
  }

  /** The list shows exactly the rows the single-product lookup finds. */
  lemma ListAgreesWithLookup(t: Table)
    requires KeyedById(t)
    ensures forall p :: p in GetAllProducts(t) <==> FindActive(t, p.id) == Some(p)
  {
  }

  /** Under the foreign key, a 400 from GET means the category exists but is inactive. */
  lemma DanglingCategoryIsInactive(t: Table, c: Categories, pid: int)
    requires TableInvariant(t, c)
    requires GetProduct(t, c, pid) == Err(BadRequest(CategoryNotFound))
    ensures t[pid].categoryId in c && !c[t[pid].categoryId]
  {
  }

  /** An active category with no active product lists as empty, not as an error. */
  lemma EmptyCategoryIsNotAnError(t: Table, c: Categories, cid: int)
    requires CategoryActive(c, cid)
    requires forall id :: id in t && t[id].isActive ==> t[id].categoryId != cid
    ensures GetProductByCategory(t, c, cid) == Ok({})
  {
    var r := GetProductByCategory(t, c, cid);
    forall p | p in GetAllProducts(t) ensures p.categoryId != cid {
      var id :| id in t && t[id] == p;
    }
    assert r.value == {};
  }

  /** Creating and then reading the new id gives back the created row, also in both lists. */
  lemma CreateThenGet(t: Table, c: Categories, input: ProductCreate, newId: int)
    requires ProductCreateValid(input) && newId !in t
    requires CategoryActive(c, input.categoryId)
    ensures var o := CreateOutcome(t, c, input, newId);
      && GetProduct(o.table, c, newId) == o.response
      && o.response.value in GetAllProducts(o.table)
      && GetProductByCategory(o.table, c, input.categoryId).value ==
         GetProductByCategory(t, c, input.categoryId).value + {o.response.value}
  {
  }

  /** After a successful update the product reads back as the updated row. */
  lemma UpdateThenGet(t: Table, c: Categories, pid: int, input: ProductCreate)
    requires ProductCreateValid(input)
    requires UpdateOutcome(t, c, pid, input).response.Ok?
    ensures var o := UpdateOutcome(t, c, pid, input);
      && GetProduct(o.table, c, pid) == o.response
      && o.response.value.id == t[pid].id
      && o.response.value.isActive
  {
  }

  /**
   * An inactive row is invisible to every handler: not listed, not found by
   * GET, and PUT and DELETE answer NotFound without writing.
   */
  lemma InactiveIsInvisible(t: Table, c: Categories, pid: int, input: ProductCreate)
    requires KeyedById(t) && ProductCreateValid(input)
    requires pid !in t || !t[pid].isActive
    ensures forall p :: p in GetAllProducts(t) ==> p.id != pid
    ensures forall cid :: GetProductByCategory(t, c, cid).Ok? ==>
      forall p :: p in GetProductByCategory(t, c, cid).value ==> p.id != pid
    ensures GetProduct(t, c, pid) == Err(NotFound(ProductNotFound))
    ensures UpdateOutcome(t, c, pid, input) == Transition(Err(NotFound(ProductNotFound)), t)
    ensures DeleteOutcome(t, pid) == Transition(Err(NotFound(ProductNotFound)), t)
  {
  }

  /**
   * A successful delete hides the row from every handler: a second delete,
   * a GET and a PUT answer NotFound, and neither list shows it.
   */
  lemma DeleteHidesProduct(t: Table, c: Categories, pid: int, input: ProductCreate)
    requires KeyedById(t) && ProductCreateValid(input)
    requires DeleteOutcome(t, pid).response.Ok?
    ensures var t' := DeleteOutcome(t, pid).table;
      && DeleteOutcome(t', pid) == Transition(Err(NotFound(ProductNotFound)), t')
      && GetProduct(t', c, pid) == Err(NotFound(ProductNotFound))
      && UpdateOutcome(t', c, pid, input) == Transition(Err(NotFound(ProductNotFound)), t')
      && (forall p :: p in GetAllProducts(t') ==> p.id != pid)
      && (forall cid :: GetProductByCategory(t', c, cid).Ok? ==>
            forall p :: p in GetProductByCategory(t', c, cid).value ==> p.id != pid)
  {
  }

  /** The schema puts no upper bound on price: a valid request can overflow NUMERIC(10, 2). */
  lemma ValidPriceCanExceedColumn()
    ensures var input := ProductCreate("Widget", None, Decimal(1, 8), None, 0, 1);
      ProductCreateValid(input) && !PriceFitsColumn(Persisted(1, input))
  {
  }
}
