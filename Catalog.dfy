/**
 * The product record the remote catalog returns, mirrored client-side,
 * and the category text the table and the detail view display.
 */
module Catalog {
  import opened Wrappers

  /**
   * A name as the parsed JSON holds it: left out (reads as `undefined`),
   * an explicit `null`, or a string.
   */
  datatype NameValue = Undefined | Null | Name(text: string)

  /** A category reference; the remote service may leave its name out or send `null`. */
  datatype Category = Category(id: int, name: NameValue)

  /**
   * A product as held in the current page buffer. `images` is the raw list
   * from the service (absent when the service omits it) and `cleanImg` the
   * client-derived display image. Prices are whole numbers in this model.
   */
  datatype Product = Product(
    id: int,
    title: string,
    price: int,
    description: string,
    category: Option<Category>,
    images: Option<seq<string>>,
    cleanImg: string)

  /** The optional chain `p.category?.name`: `undefined` when the category itself is absent. */
  function CategoryName(p: Product): NameValue {
    match p.category
    case None => Undefined
    case Some(c) => c.name
  }

  /**
   * The category text of the table and of the detail view,
   * `p.category?.name || 'N/A'`: an absent, null or empty name shows as N/A.
   */
  function CategoryLabel(p: Product): (shown: string)
    ensures shown != ""
    ensures shown == "N/A" <==> CategoryName(p) in {Undefined, Null, Name(""), Name("N/A")}
    ensures CategoryName(p).Name? && CategoryName(p).text != "" ==> shown == CategoryName(p).text
  {
    match CategoryName(p)
    case Undefined => "N/A"
    case Null => "N/A"
    case Name(n) => if n == "" then "N/A" else n
  }
}
