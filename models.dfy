/**
 * The persisted `products` row and the limits its column definitions put on it.
 * Non-null columns are plain fields; nullable ones are `Option`s.
 */
module Models {
  import opened Wrappers
  import opened Decimals

  /**
   * One row of the `products` table. `price` is a NUMERIC(10, 2) column, held
   * as its unscaled value: a whole number of hundredths. `categoryId` refers
   * to a row of `categories`.
   */
  datatype Product = Product(
    id: int,
    name: string,
    description: Option<string>,
    price: int,
    imageUrl: Option<string>,
    stock: int,
    isActive: bool,
    categoryId: int)

  const NameWidth: nat := 100
  const DescriptionWidth: nat := 500
  const ImageUrlWidth: nat := 200
  /** NUMERIC(10, 2): ten significant digits, two of them after the point. */
  const PricePrecision: nat := 10
  const PriceScale: nat := 2
  /** The value `is_active` takes when an insert does not give one. */
  const DefaultIsActive: bool := true

  predicate FitsNullable(s: Option<string>, width: nat) {
    s.None? || |s.value| <= width
  }

  /** The string columns hold no more characters than their declared widths. */
  predicate ColumnsFit(p: Product) {
    && |p.name| <= NameWidth
    && FitsNullable(p.description, DescriptionWidth)
    && FitsNullable(p.imageUrl, ImageUrlWidth)
  }

  /** The price has at most `PricePrecision` digits in all, `PriceScale` of them after the point. */
  predicate PriceFitsColumn(p: Product) {
    -(Pow10(PricePrecision) as int) < p.price < Pow10(PricePrecision)
  }

  /** The row an insert creates when it gives every column except `id` and `is_active`. */
  function NewRow(id: int, name: string, description: Option<string>, price: int,
                  imageUrl: Option<string>, stock: int, categoryId: int): Product
  {
    Product(id, name, description, price, imageUrl, stock, DefaultIsActive, categoryId)
  }

  /** The price column reads back as the decimal with that many hundredths. */
  lemma StoredPriceIsScaleTwo(p: Product)
    ensures AtMostPlaces(FromHundredths(p.price), PriceScale)
    ensures Hundredths(FromHundredths(p.price)) == p.price
  {
  }
}
