/**
 * The CSV export (app.js exportCSV): a fixed header line and one line per
 * product of the page buffer, in buffer order, with the title and the
 * category name between double quotes and no escaping inside them.
 * ParseCsv reads such a document back; CsvRoundTrip proves that it recovers
 * every row when no quoted field itself holds a double quote.
 */
module Csv {
  import opened Wrappers
  import opened Text
  import opened Decimal
  import opened Catalog

  const Header: string := "ID,Title,Price,Category\n"

  /**
   * The category text of the export, `${p.category?.name}`: an absent category
   * or name is printed as the JavaScript text `undefined`, a null name as `null`.
   */
  function CsvCategory(p: Product): (text: string)
    ensures CategoryName(p).Undefined? ==> text == "undefined"
    ensures CategoryName(p).Null? ==> text == "null"
    ensures CategoryName(p).Name? ==> text == CategoryName(p).text
  {
    match CategoryName(p)
    case Undefined => "undefined"
    case Null => "null"
    case Name(n) => n
  }

  /** The export and the table disagree on the category exactly when it or its name is absent or null, or the name is empty. */
  lemma CategoryTextsDiffer(p: Product)
    ensures CsvCategory(p) != CategoryLabel(p) <==> CategoryName(p) in {Undefined, Null, Name("")}
  {
  }

  /** `${p.id},"${p.title}",${p.price},"${p.category?.name}"\n`. */
  function CsvLine(p: Product): string {
    IntToString(p.id) + "," + Quoted(p.title) + "," + IntToString(p.price) + "," + Quoted(CsvCategory(p)) + "\n"
  }

  /** A field between double quotes, with no escaping. */
  function Quoted(t: string): string {
    "\"" + t + "\""
  }

  /** The lines of the products, in order. */
  function CsvLines(ps: seq<Product>): string
    decreases |ps|
  {
    if ps == [] then "" else CsvLine(ps[0]) + CsvLines(ps[1..])
  }

  /** The whole exported document. */
  function CsvDocument(ps: seq<Product>): string {
    Header + CsvLines(ps)
  }

  /** Appending a product appends its line: the step of the export loop. */
  lemma {:induction false} CsvLinesSnoc(ps: seq<Product>, p: Product)
    ensures CsvLines(ps + [p]) == CsvLines(ps) + CsvLine(p)
    decreases |ps|
  {
    if ps == [] {
      assert [] + [p] == [p];
    } else {
      assert (ps + [p])[1..] == ps[1..] + [p];
      CsvLinesSnoc(ps[1..], p);
    }
  }

  /** Exporting one more product appends exactly its line to the document. */
  lemma CsvDocumentSnoc(ps: seq<Product>, p: Product)
    ensures CsvDocument(ps + [p]) == CsvDocument(ps) + CsvLine(p)
  {
    CsvLinesSnoc(ps, p);
    Assoc(Header, CsvLines(ps), CsvLine(p));
  }

  /** One row of the document as a reader sees it. */
  datatype CsvRow = CsvRow(id: int, title: string, price: int, category: string)

  function RowOf(p: Product): CsvRow {
    CsvRow(p.id, p.title, p.price, CsvCategory(p))
  }

  function RowsOf(ps: seq<Product>): (rows: seq<CsvRow>)
    ensures |rows| == |ps|
    ensures forall i :: 0 <= i < |ps| ==> rows[i] == RowOf(ps[i])
    decreases |ps|
  {
    if ps == [] then [] else [RowOf(ps[0])] + RowsOf(ps[1..])
  }

  /** The length of the longest prefix of s without a double quote. */
  function QuoteFree(s: string): (k: nat)
    ensures k <= |s| && '"' !in s[..k]
    ensures k < |s| ==> s[k] == '"'
  {
    if s == [] || s[0] == '"' then 0
    else
      var k := 1 + QuoteFree(s[1..]);
      assert s[..k] == [s[0]] + s[1..][..k - 1];
      k
  }

  /** Reads `"text"` at the start of s: the text up to the next quote and what follows the closing quote. */
  function ReadQuoted(s: string): (r: Option<(string, string)>)
    ensures r.Some? ==> |r.value.1| < |s|
  {
    if s == [] || s[0] != '"' then None
    else
      var k := QuoteFree(s[1..]);
      if k == |s| - 1 then None else Some((s[1..k + 1], s[k + 2..]))
  }

  /** Reads one line `id,"title",price,"category"\n` and returns the row and what follows. */
  function ReadRow(s: string): (r: Option<(CsvRow, string)>)
    ensures r.Some? ==> |r.value.1| < |s|
  {
    match ReadInt(s)
    case None => None
    case Some((id, r1)) =>
      match StripPrefix(",", r1)
      case None => None
      case Some(r2) =>
        match ReadQuoted(r2)
        case None => None
        case Some((title, r3)) =>
          match StripPrefix(",", r3)
          case None => None
          case Some(r4) =>
            match ReadInt(r4)
            case None => None
            case Some((price, r5)) =>
              match StripPrefix(",", r5)
              case None => None
              case Some(r6) =>
                match ReadQuoted(r6)
                case None => None
                case Some((category, r7)) =>
                  match StripPrefix("\n", r7)
                  case None => None
                  case Some(r8) => Some((CsvRow(id, title, price, category), r8))
  }

  /** Reads lines until the text is used up. */
  function ReadRows(s: string): Option<seq<CsvRow>>
    decreases |s|
  {
    if s == [] then Some([])
    else
      match ReadRow(s)
      case None => None
      case Some((row, rest)) =>
        match ReadRows(rest)
        case None => None
        case Some(rows) => Some([row] + rows)
  }

  /** Reads a whole document: the header, then the rows. */
  function ParseCsv(s: string): Option<seq<CsvRow>> {
    match StripPrefix(Header, s)
    case None => None
    case Some(body) => ReadRows(body)
  }

  /** The two quoted fields of p hold no double quote, so the naive quoting is unambiguous. */
  predicate QuoteSafe(p: Product) {
    '"' !in p.title && '"' !in CsvCategory(p)
  }

  lemma ReadQuotedOf(t: string, rest: string)
    requires '"' !in t
    ensures ReadQuoted(Quoted(t) + rest) == Some((t, rest))
  {
    var s := "\"" + t + "\"" + rest;
    assert s[1..] == t + ("\"" + rest);
    QuoteFreeOf(t, "\"" + rest);
    assert s[1..|t| + 1] == t;
    assert s[|t| + 2..] == rest;
  }

  lemma {:induction false} QuoteFreeOf(t: string, rest: string)
    requires '"' !in t && rest != [] && rest[0] == '"'
    ensures QuoteFree(t + rest) == |t|
    decreases |t|
  {
    if t == [] {
      assert t + rest == rest;
    } else {
      assert t[0] in t;
      assert (t + rest)[1..] == t[1..] + rest;
      assert forall c :: c in t[1..] ==> c in t;
      QuoteFreeOf(t[1..], rest);
    }
  }

  /** Reading the line of a quote-safe product gives back its row and leaves what follows. */
  lemma ReadRowOfCsvLine(p: Product, rest: string)
    requires QuoteSafe(p)
    ensures ReadRow(CsvLine(p) + rest) == Some((RowOf(p), rest))
  {
    var cat := CsvCategory(p);
    var r7 := "\n" + rest;
    var r6 := Quoted(cat) + r7;
    var r5 := "," + r6;
    var r4 := IntToString(p.price) + r5;
    var r3 := "," + r4;
    var r2 := Quoted(p.title) + r3;
    var r1 := "," + r2;
    CsvLineShape(p, rest);
    ReadIntOfIntToString(p.id, r1);
    StripPrefixOfConcat(",", r2);
    ReadQuotedOf(p.title, r3);
    StripPrefixOfConcat(",", r4);
    ReadIntOfIntToString(p.price, r5);
    StripPrefixOfConcat(",", r6);
    ReadQuotedOf(cat, r7);
    StripPrefixOfConcat("\n", rest);
  }

  /** A line followed by more text, split field by field from the left. */
  lemma CsvLineShape(p: Product, rest: string)
    ensures CsvLine(p) + rest
      == IntToString(p.id) + ("," + (Quoted(p.title) + ("," + (IntToString(p.price)
           + ("," + (Quoted(CsvCategory(p)) + ("\n" + rest)))))))
  {
    var id, t, pr, c := IntToString(p.id), Quoted(p.title), IntToString(p.price), Quoted(CsvCategory(p));
    Assoc(id + "," + t + "," + pr + "," + c, "\n", rest);
    RegroupRight7(id, ",", t, ",", pr, ",", c, "\n" + rest);
  }

  lemma {:induction false} ReadRowsOfCsvLines(ps: seq<Product>)
    requires forall i :: 0 <= i < |ps| ==> QuoteSafe(ps[i])
    ensures ReadRows(CsvLines(ps)) == Some(RowsOf(ps))
    decreases |ps|
  {
    if ps != [] {
      ReadRowOfCsvLine(ps[0], CsvLines(ps[1..]));
      ReadRowsOfCsvLines(ps[1..]);
    }
  }

  /**
   * The exported document of quote-safe products reads back as exactly one
   * row per product, in the order of the buffer.
   */
  lemma CsvRoundTrip(ps: seq<Product>)
    requires forall i :: 0 <= i < |ps| ==> QuoteSafe(ps[i])
    ensures ParseCsv(CsvDocument(ps)) == Some(RowsOf(ps))
  {
    StripPrefixOfConcat(Header, CsvLines(ps));
    ReadRowsOfCsvLines(ps);
  }

  /** One shoe, priced 20, in category "Wear": the exact exported text. */
  lemma CsvExample(description: string, images: Option<seq<string>>, cleanImg: string)
    ensures CsvDocument([Product(1, "Shoe", 20, description, Some(Category(1, Name("Wear"))), images, cleanImg)])
      == Header + "1,\"Shoe\",20,\"Wear\"\n"
  {
    var p := Product(1, "Shoe", 20, description, Some(Category(1, Name("Wear"))), images, cleanImg);
    assert CsvLines([p]) == CsvLine(p) + CsvLines([]);
    assert CsvLine(p) + [] == CsvLine(p);
    ExampleLine(p);
  }

  lemma ExampleLine(p: Product)
    requires p.id == 1 && p.title == "Shoe" && p.price == 20 && CsvCategory(p) == "Wear"
    ensures CsvLine(p) + [] == "1,\"Shoe\",20,\"Wear\"\n"
  {
    assert IntToString(1) == "1";
    assert IntToString(20) == "20" by {
      assert NatToString(20) == NatToString(2) + [DigitChar(0)];
    }
    CsvLineShape(p, []);
  }

  /** A quoted field followed by more text, regrouped to the right. */
  lemma QuotedThen(t: string, rest: string)
    ensures Quoted(t) + rest == "\"" + (t + ("\"" + rest))
  {
    Assoc("\"" + t, "\"", rest);
    Assoc("\"", t, "\"" + rest);
  }

  /**
   * Without escaping, a title holding `",<m>,"` shifts the fields: the line of
   * such a product is also the line of a different product, whose title is
   * the part before the quote, whose price is m, and whose category name
   * carries the rest of the title, the real price and the real category.
   */
  lemma QuotedFieldsAreAmbiguous(p: Product, x: string, m: int, y: string)
    requires p.title == x + "\"" + "," + IntToString(m) + "," + "\"" + y
    ensures var z := y + "\"" + "," + IntToString(p.price) + "," + "\"" + CsvCategory(p);
      var q := p.(title := x, price := m, category := Some(Category(0, Name(z))));
      q != p && CsvLine(q) == CsvLine(p)
  {
    var Q, C, tail := "\"", ",", "\n" + [];
    var M, P, c := IntToString(m), IntToString(p.price), CsvCategory(p);
    var z := y + Q + C + P + C + Q + c;
    var q := p.(title := x, price := m, category := Some(Category(0, Name(z))));
    assert |q.title| < |p.title|;
    assert CsvCategory(q) == z;
    CsvLineShape(p, []);
    CsvLineShape(q, []);
    var r1 := C + (P + (C + (Quoted(c) + tail)));
    QuotedThen(p.title, r1);
    RegroupRight7(x, Q, C, M, C, Q, y, Q + r1);
    QuotedThen(c, tail);
    QuotedThen(z, tail);
    RegroupRight7(y, Q, C, P, C, Q, c, Q + tail);
    QuotedThen(x, C + (M + (C + (Quoted(z) + tail))));
    assert CsvLine(p) + [] == CsvLine(p);
    assert CsvLine(q) + [] == CsvLine(q);
  }
}
