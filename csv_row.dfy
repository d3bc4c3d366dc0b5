/**
 * The row validator of the submit endpoint: the two coercions the `data` handler
 * applies to a decoded CSV record, and the `csvSchema` object schema with its
 * `notNumericString` preprocessor that the coerced record must then satisfy.
 */
module CsvRow {
  import opened Wrappers
  import opened EcmaNumber

  const ModelNumberColumn := "Model Number"
  const UnitPriceColumn := "Unit Price"
  const QuantityColumn := "Quantity"

  /**
   * One decoded CSV record, keyed by the header row's column names. A column the
   * record has no value for (JavaScript `undefined`) is absent from the map.
   */
  type Row = map<string, string>

  function Column(row: Row, name: string): Option<string> {
    if name in row then Some(row[name]) else None
  }

  /** ToString of a column value: `undefined` becomes the text "undefined". */
  function ToJsString(a: Option<string>): string {
    if a.Some? then a.value else "undefined"
  }

  /**
   * The double `parseFloat` yields for a text with a numeric prefix; the model keeps
   * the text the value was read from, not the value.
   */
  datatype Price = FloatOf(text: string)

  /**
   * The record after "Unit Price" and "Quantity" have been overwritten with their
   * coerced numbers; NaN, and for the model number `undefined`, is `None`.
   */
  datatype CoercedRow = CoercedRow(modelNumber: Option<string>, unitPrice: Option<Price>, quantity: Option<int>)

  /** The value `csvSchema.parse` returns for a record it accepts. */
  datatype LineItem = LineItem(modelNumber: string, unitPrice: Price, quantity: int)

  /** The text "undefined" that an absent column becomes holds no number for either parser. */
  lemma UndefinedIsNaN()
    ensures !HasFloatPrefix("undefined") && ParseInt("undefined").None?
  {
    var s := "undefined";
    assert s[0] == 'u';
    NoNumberAtFront(s);
  }

  /** parseFloat of a column value: NaN unless the text starts with a number. */
  function ParseFloatColumn(a: Option<string>): (r: Option<Price>)
    ensures r.Some? <==> a.Some? && HasFloatPrefix(a.value)
    ensures r.Some? ==> r.value == FloatOf(a.value)
  {
    UndefinedIsNaN();
    var s := ToJsString(a);
    if HasFloatPrefix(s) then Some(FloatOf(s)) else None
  }

  /** parseInt(…, 10) of a column value: NaN unless a digit follows the white space and sign. */
  function ParseIntColumn(a: Option<string>): (r: Option<int>)
    ensures r.Some? <==> a.Some? && ParseInt(a.value).Some?
    ensures r.Some? ==> r == ParseInt(a.value)
  {
    UndefinedIsNaN();
    ParseInt(ToJsString(a))
  }

  /** The in-place coercion of the two numeric columns. */
  function Coerce(row: Row): CoercedRow {
    CoercedRow(Column(row, ModelNumberColumn),
               ParseFloatColumn(Column(row, UnitPriceColumn)),
               ParseIntColumn(Column(row, QuantityColumn)))
  }

  /**
   * The coercion overwrites only the two numeric columns: the model number goes on
   * as read, the unit price is a number exactly when its text starts with one, and
   * the quantity is the integer `parseInt` finds in its text.
   */
  lemma CoerceReadsColumns(row: Row)
    ensures Coerce(row).modelNumber == Column(row, ModelNumberColumn)
    ensures Coerce(row).unitPrice.Some? <==> UnitPriceAccepted(row)
    ensures Coerce(row).unitPrice.Some? ==> Coerce(row).unitPrice.value == FloatOf(row[UnitPriceColumn])
    ensures Coerce(row).quantity.Some? <==> QuantityAccepted(row)
    ensures Coerce(row).quantity.Some? ==> Coerce(row).quantity == ParseInt(row[QuantityColumn])
  {
  }

  /**
   * The `notNumericString` preprocessor: a string that parseInt finds no number in
   * is passed on, anything else is replaced by `undefined`.
   */
  function NotNumericString(a: Option<string>): (r: Option<string>)
    ensures r.Some? <==> a.Some? && ParseInt(a.value).None?
    ensures r.Some? ==> r == a
  {
    match a
    case Some(s) => if ParseInt(s).None? then a else None
    case None => None
  }

  /**
   * `csvSchema.parse`: the preprocessed model number must be a string, the unit
   * price a number and the quantity an integer (parseInt only yields integers).
   */
  function CsvSchema(c: CoercedRow): Option<LineItem> {
    match (NotNumericString(c.modelNumber), c.unitPrice, c.quantity)
    case (Some(m), Some(p), Some(q)) => Some(LineItem(m, p, q))
    case _ => None
  }

  /** The model number is a text in which parseInt finds no number. */
  predicate ModelNumberAccepted(row: Row) {
    ModelNumberColumn in row && ParseInt(row[ModelNumberColumn]).None?
  }

  /** The unit price is a text that starts with a number. */
  predicate UnitPriceAccepted(row: Row) {
    UnitPriceColumn in row && HasFloatPrefix(row[UnitPriceColumn])
  }

  /** The quantity is a text that starts with an integer. */
  predicate QuantityAccepted(row: Row) {
    QuantityColumn in row && ParseInt(row[QuantityColumn]).Some?
  }

  /**
   * Coercion followed by the schema: a record is accepted exactly when each of its
   * three columns is, and then yields its model number, the double read from its
   * unit price, and the integer prefix of its quantity.
   */
  function ValidateRow(row: Row): Option<LineItem> {
    CsvSchema(Coerce(row))
  }

  lemma ValidateRowAccepts(row: Row)
    ensures ValidateRow(row).Some? <==> ModelNumberAccepted(row) && UnitPriceAccepted(row) && QuantityAccepted(row)
    ensures ValidateRow(row).Some? ==>
              ValidateRow(row).value == LineItem(row[ModelNumberColumn], FloatOf(row[UnitPriceColumn]),
                                                 ParseInt(row[QuantityColumn]).value)
  {
  }

  lemma ParseIntOf100()
    ensures ParseInt("100") == Some(100)
  {
    assert ShowNat(10) == ShowNat(1) + [DigitChar(0)];
    assert ShowNat(100) == ShowNat(10) + [DigitChar(0)];
    assert ShowNat(100) == "100";
    assert ShowInt(100) + "" == "100";
    ParseIntOfShowInt(100, "");
  }

  lemma ParseIntOf12abc()
    ensures ParseInt("12abc") == Some(12)
  {
    assert ShowNat(12) == ShowNat(1) + [DigitChar(2)];
    assert ShowNat(12) == "12";
    assert ShowInt(12) + "abc" == "12abc";
    ParseIntOfShowInt(12, "abc");
  }

  lemma ParseIntOfSpaceMinus7x()
    ensures ParseInt(" -7x") == Some(-7)
  {
    var w, sign, d, t := " ", "-", "7", "x";
    assert w + (sign + d + t) == " -7x";
    assert DecimalValue(d) == 7 by {
      assert d[..0] == [];
    }
    ParseIntOfSignedDigits(sign, d, t);
    ParseIntSkipsWhiteSpace(w, sign + d + t);
  }

  /** Model numbers in which parseInt finds a number, at the front after white space and sign. */
  lemma NumericModelNumbers()
    ensures ParseInt("100") == Some(100)
    ensures ParseInt("12abc") == Some(12)
    ensures ParseInt(" -7x") == Some(-7)
  {
    ParseIntOf100();
    ParseIntOf12abc();
    ParseIntOfSpaceMinus7x();
  }

  /** Model numbers in which parseInt finds none: a letter first, or nothing at all. */
  lemma NonNumericModelNumbers()
    ensures ParseInt("ABC-100").None? && ParseInt("").None?
  {
    ParseIntNaNAtFront("ABC-100");
  }

  /** A missing model-number column is rejected, however good the other columns are. */
  lemma MissingModelNumberRejected(row: Row)
    requires ModelNumberColumn !in row
    ensures ValidateRow(row).None?
  {
  }

  lemma ParseIntOf5dot9()
    ensures ParseInt("5.9") == Some(5)
  {
    assert ShowNat(5) == "5";
    assert ShowInt(5) + ".9" == "5.9";
    ParseIntOfShowInt(5, ".9");
  }

  lemma ParseIntOf10pcs()
    ensures ParseInt("10 pcs") == Some(10)
  {
    assert ShowNat(10) == ShowNat(1) + [DigitChar(0)];
    assert ShowNat(10) == "10";
    assert ShowInt(10) + " pcs" == "10 pcs";
    ParseIntOfShowInt(10, " pcs");
  }

  /** Quantity keeps its integer prefix: "5.9" counts 5 and "10 pcs" counts 10. */
  lemma QuantityPrefixExamples()
    ensures ParseInt("5.9") == Some(5) && ParseInt("10 pcs") == Some(10)
  {
    ParseIntOf5dot9();
    ParseIntOf10pcs();
  }

  lemma ParseIntOf5()
    ensures ParseInt("5") == Some(5)
  {
    assert ShowNat(5) == "5";
    assert ShowInt(5) + "" == "5";
    ParseIntOfShowInt(5, "");
  }

  lemma FloatPrefixOf1999()
    ensures HasFloatPrefix("19.99")
  {
    var s := "19.99";
    assert s[0] == '1';
    DigitFirstHasFloatPrefix(s);
  }

  /** The record of a CSV line with the three expected columns. */
  function SampleRow(model: string, price: string, quantity: string): (row: Row)
    ensures ModelNumberColumn in row && UnitPriceColumn in row && QuantityColumn in row
    ensures row[ModelNumberColumn] == model && row[UnitPriceColumn] == price && row[QuantityColumn] == quantity
  {
    map[ModelNumberColumn := model, UnitPriceColumn := price, QuantityColumn := quantity]
  }

  /** A record of the three expected columns validates column by column. */
  lemma SampleRowValidates(model: string, price: string, quantity: string)
    ensures ValidateRow(SampleRow(model, price, quantity))
         == if ParseInt(model).None? && HasFloatPrefix(price) && ParseInt(quantity).Some?
            then Some(LineItem(model, FloatOf(price), ParseInt(quantity).value))
            else None
  {
    var row := SampleRow(model, price, quantity);
    assert Coerce(row) == CoercedRow(Some(model), ParseFloatColumn(Some(price)), ParseIntColumn(Some(quantity)));
  }

  /**
   * The first row of the sample CSV, "ABC-100,19.99,5", is accepted and becomes
   * the line item ABC-100 at 19.99 times 5.
   */
  lemma SampleRowAccepted()
    ensures ValidateRow(SampleRow("ABC-100", "19.99", "5")) == Some(LineItem("ABC-100", FloatOf("19.99"), 5))
  {
    ParseIntOf5();
    NonNumericModelNumbers();
    FloatPrefixOf1999();
    SampleRowValidates("ABC-100", "19.99", "5");
  }

  lemma FloatPrefixOf550()
    ensures HasFloatPrefix("5.50")
  {
    var s := "5.50";
    assert s[0] == '5';
    DigitFirstHasFloatPrefix(s);
  }

  lemma ParseIntOfXyz200()
    ensures ParseInt("XYZ-200").None?
  {
    ParseIntNaNAtFront("XYZ-200");
  }

  /** The second row of the sample CSV, "XYZ-200,5.50,10", becomes XYZ-200 at 5.50 times 10. */
  lemma SecondSampleRowAccepted()
    ensures ValidateRow(SampleRow("XYZ-200", "5.50", "10")) == Some(LineItem("XYZ-200", FloatOf("5.50"), 10))
  {
    assert ParseInt("10") == Some(10) by {
      assert ShowNat(10) == ShowNat(1) + [DigitChar(0)];
      assert ShowInt(10) + "" == "10";
      ParseIntOfShowInt(10, "");
    }
    ParseIntOfXyz200();
    FloatPrefixOf550();
    SampleRowValidates("XYZ-200", "5.50", "10");
  }

  /** The row "100,19.99,5" is rejected: its model number is purely numeric. */
  lemma NumericModelNumberRowRejected()
    ensures ValidateRow(SampleRow("100", "19.99", "5")).None?
  {
    ParseIntOf100();
    SampleRowValidates("100", "19.99", "5");
  }
}
