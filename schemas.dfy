/**
 * The request and response schemas of the catalogue. Each field's declared
 * constraints are kept as data (the list of rules its `Field(...)` carries),
 * a request is valid when every present field obeys all of its rules, and
 * the lemmas below state what those rule lists mean in plain bounds.
 */
module Schemas {
  import opened Wrappers
  import opened Decimals

  /** A value given for one field of a request. */
  datatype FieldValue = Text(s: string) | Whole(i: int) | Number(d: Decimal)

  /**
   * One declared field constraint. `Pattern(words)` is an anchored
   * alternation of literal words, `^(w1|w2|...)$`, matched against the
   * whole string.
   */
  datatype Rule =
    | MinLength(min: nat)
    | MaxLength(max: nat)
    | Pattern(words: seq<string>)
    | Gt(bound: int)
    | Ge(lower: int)
    | DecimalPlaces(places: nat)

  predicate Obeys(v: FieldValue, rule: Rule) {
    match rule
    case MinLength(min) => v.Text? && min <= |v.s|
    case MaxLength(max) => v.Text? && |v.s| <= max
    case Pattern(words) => v.Text? && v.s in words
    case Gt(bound) =>
      (v.Whole? && v.i > bound) || (v.Number? && Exceeds(v.d, bound))
    case Ge(lower) => v.Whole? && v.i >= lower
    case DecimalPlaces(places) => v.Number? && AtMostPlaces(v.d, places)
  }

  predicate ObeysAll(v: FieldValue, rules: seq<Rule>) {
    forall i :: 0 <= i < |rules| ==> Obeys(v, rules[i])
  }

  /** A nullable field: an absent value (`None`) passes, a present one obeys every rule. */
  predicate OptionalObeysAll(v: Option<string>, rules: seq<Rule>) {
    v.None? || ObeysAll(Text(v.value), rules)
  }

  // The rules declared on each constrained field.
  const CategoryNameRules: seq<Rule> := [MinLength(3), MaxLength(50)]
  const ProductNameRules: seq<Rule> := [MinLength(3), MaxLength(100)]
  const DescriptionRules: seq<Rule> := [MaxLength(500)]
  const PriceRules: seq<Rule> := [Gt(0), DecimalPlaces(2)]
  const ImageUrlRules: seq<Rule> := [MaxLength(200)]
  const StockRules: seq<Rule> := [Ge(0)]
  const OutputPriceRules: seq<Rule> := [Gt(0), DecimalPlaces(2)]
  const PasswordRules: seq<Rule> := [MinLength(8)]
  const RoleRules: seq<Rule> := [Pattern(["buyer", "seller"])]
  const DefaultRole: string := "buyer"

  datatype CategoryCreate = CategoryCreate(name: string, parentId: Option<int>)

  /** `parent_id` is any integer or absent; only the name is constrained. */
  predicate CategoryCreateValid(c: CategoryCreate) {
    ObeysAll(Text(c.name), CategoryNameRules)
  }

  datatype ProductCreate = ProductCreate(
    name: string,
    description: Option<string>,
    price: Decimal,
    imageUrl: Option<string>,
    stock: int,
    categoryId: int)

  /** `category_id` is a required integer with no range check. */
  predicate ProductCreateValid(p: ProductCreate) {
    && ObeysAll(Text(p.name), ProductNameRules)
    && OptionalObeysAll(p.description, DescriptionRules)
    && ObeysAll(Number(p.price), PriceRules)
    && OptionalObeysAll(p.imageUrl, ImageUrlRules)
    && ObeysAll(Whole(p.stock), StockRules)
  }

  /** The product response schema; `seller_id` is required (not optional). */
  datatype ProductOut = ProductOut(
    id: int,
    name: string,
    description: Option<string>,
    price: Decimal,
    imageUrl: Option<string>,
    stock: int,
    categoryId: int,
    isActive: bool,
    sellerId: int)

  predicate ProductOutValid(p: ProductOut) {
    ObeysAll(Number(p.price), OutputPriceRules)
  }

  /** `role` may be omitted, in which case it takes its default. */
  datatype UserCreate = UserCreate(email: string, password: string, role: Option<string>)

  /** The role a user is created with: the given one, or the default when omitted. */
  function Role(u: UserCreate): string {
    if u.role.Some? then u.role.value else DefaultRole
  }

  /** An omitted role takes the default without being checked against the pattern. */
  predicate UserCreateValid(u: UserCreate) {
    && ObeysAll(Text(u.password), PasswordRules)
    && (u.role.None? || ObeysAll(Text(u.role.value), RoleRules))
  }

  lemma ObeysOne(v: FieldValue, a: Rule)
    ensures ObeysAll(v, [a]) <==> Obeys(v, a)
  {
    if ObeysAll(v, [a]) {
      assert Obeys(v, [a][0]);
    }
  }

  lemma ObeysTwo(v: FieldValue, a: Rule, b: Rule)
    ensures ObeysAll(v, [a, b]) <==> Obeys(v, a) && Obeys(v, b)
  {
    if ObeysAll(v, [a, b]) {
      assert Obeys(v, [a, b][0]) && Obeys(v, [a, b][1]);
    }
  }

  lemma CategoryCreateValidMeans(c: CategoryCreate)
    ensures CategoryCreateValid(c) <==> 3 <= |c.name| <= 50
  {
    ObeysTwo(Text(c.name), MinLength(3), MaxLength(50));
  }

  /** The price rules hold exactly for a positive number with at most two places. */
  lemma PriceRulesMean(d: Decimal)
    ensures ObeysAll(Number(d), PriceRules) <==> d.coefficient > 0 && AtMostPlaces(d, 2)
  {
    ObeysTwo(Number(d), Gt(0), DecimalPlaces(2));
    ExceedsZero(d);
  }

  lemma ProductCreateValidMeans(p: ProductCreate)
    ensures ProductCreateValid(p) <==>
      && 3 <= |p.name| <= 100
      && (p.description.None? || |p.description.value| <= 500)
      && p.price.coefficient > 0 && AtMostPlaces(p.price, 2)
      && (p.imageUrl.None? || |p.imageUrl.value| <= 200)
      && p.stock >= 0
  {
    ObeysTwo(Text(p.name), MinLength(3), MaxLength(100));
    if p.description.Some? {
      ObeysOne(Text(p.description.value), MaxLength(500));
    }
    PriceRulesMean(p.price);
    if p.imageUrl.Some? {
      ObeysOne(Text(p.imageUrl.value), MaxLength(200));
    }
    ObeysOne(Whole(p.stock), Ge(0));
  }

  /** 19.99 and 19.990 pass the price rules; 19.999, 0 and -5 do not. */
  lemma PriceBoundaries()
    ensures ObeysAll(Number(Decimal(1999, -2)), PriceRules)
    ensures ObeysAll(Number(Decimal(19990, -3)), PriceRules)
    ensures !ObeysAll(Number(Decimal(19999, -3)), PriceRules)
    ensures !ObeysAll(Number(Decimal(0, 0)), PriceRules)
    ensures !ObeysAll(Number(Decimal(-5, 0)), PriceRules)
  {
    PriceRulesMean(Decimal(1999, -2));
    PriceRulesMean(Decimal(19990, -3));
    PriceRulesMean(Decimal(19999, -3));
    PriceRulesMean(Decimal(0, 0));
    PriceRulesMean(Decimal(-5, 0));
    assert Pow10(1) == 10;
  }

  lemma ProductOutValidMeans(p: ProductOut)
    ensures ProductOutValid(p) <==> p.price.coefficient > 0 && AtMostPlaces(p.price, 2)
  {
    PriceRulesMean(p.price);
  }

  lemma UserCreateValidMeans(u: UserCreate)
    ensures UserCreateValid(u) <==>
      |u.password| >= 8 && (u.role.None? || u.role.value == "buyer" || u.role.value == "seller")
  {
    ObeysOne(Text(u.password), MinLength(8));
    if u.role.Some? {
      ObeysOne(Text(u.role.value), Pattern(["buyer", "seller"]));
    }
  }

  /** Every valid user is created as a buyer or a seller; omitting the role makes a buyer. */
  lemma ValidUserRole(u: UserCreate)
    requires UserCreateValid(u)
    ensures Role(u) == "buyer" || Role(u) == "seller"
    ensures u.role.None? ==> Role(u) == "buyer"
  {
    UserCreateValidMeans(u);
  }
}
