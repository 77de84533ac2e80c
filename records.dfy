/** The concatenated order frame and its per-row normalisation
    (`_transform_data`), and the required-field check of a normalised row
    (`_has_all_required_columns`). */
module Records {
  import opened Common
  import opened Ascii
  import opened Formatters
  import opened CountryState
  import opened HeaderAliases

  /** A frame as read: column labels and positional rows of text cells (every
      value is read as text and missing cells are already ""). */
  datatype Table = Table(columns: seq<string>, rows: seq<seq<string>>)

  /** `row[name]`: the cell under the first column with that label. */
  function Cell(cols: seq<string>, row: seq<string>, name: string): string
  {
    match FirstIndex(cols, (c: string) => c == name)
    case None => ""
    case Some(j) => if j < |row| then row[j] else ""
  }

  /** A row after `_transform_data`, with the canonical field names. */
  datatype NormRow = NormRow(
    poNumber: string,
    poDate: string,
    firstName: string,
    lastName: string,
    address1: string,
    address: string,
    city: string,
    country: Option<string>,
    state: Option<string>,
    zip: string,
    phone: Phone,
    sku: string,
    quantity: int,
    dropshipperId: int)

  /** What escapes `_parse` as an exception. */
  datatype ParseError =
    | MissingColumn(column: string)    // KeyError on a column the transform reads
    | DuplicateColumn(column: string)  // a column the transform reads carries its label twice
    | NotAnInteger(column: string)     // ValueError from `astype(int)`
    | UnboundName                      // UnboundLocalError in the row error handler

  /** The columns `_transform_data` reads before converting the numbers, in
      the order it reads them. */
  const TransformedColumns: seq<string> :=
    ["city", "zip", "customer_first_name", "customer_last_name", "address_1", "country", "state", "phone"]

  /** Every label `_transform_data` reads, the optional ones included. */
  const ReadColumns: seq<string> :=
    TransformedColumns + ["address_2", "purchase_order_date", "quantity", "dropshipper_id"]

  /** `name` labels more than one column, as alias renaming can leave it;
      `df[name]` is then a frame, not a column. */
  predicate Repeated(cols: seq<string>, name: string)
  {
    exists i, j :: 0 <= i < j < |cols| && cols[i] == name && cols[j] == name
  }

  /** `df[name].astype(int)` succeeds: every cell of the column is an integer. */
  predicate ColumnIsInt(t: Table, name: string)
  {
    forall i :: 0 <= i < |t.rows| ==> ParseInt(Cell(t.columns, t.rows[i], name)).Some?
  }

  /** One row of the frame after the column-wise transformations. */
  function TransformRow(cols: seq<string>, row: seq<string>, index: CountryIndex, now: string, quantity: int, dropshipperId: int): (n: NormRow)
    ensures |n.zip| == 5
    ensures n.country.None? <==> n.state.None?
    ensures now != "" ==> n.poDate != ""
    ensures forall i :: 0 <= i < |n.city| ==> IsLetterOrSpace(n.city[i])
    ensures n.quantity == quantity && n.dropshipperId == dropshipperId
    ensures n.sku == Cell(cols, row, "sku") && n.poNumber == Cell(cols, row, "purchase_order_number")
  {
    var address1 := Cell(cols, row, "address_1");
    var date := Cell(cols, row, "purchase_order_date");
    var cs := ResolveCountryState(index, Cell(cols, row, "country"), Cell(cols, row, "state"));
    NormRow(
      poNumber := Cell(cols, row, "purchase_order_number"),
      poDate := if date == "" then now else date,
      firstName := Title(Cell(cols, row, "customer_first_name")),
      lastName := Title(Cell(cols, row, "customer_last_name")),
      address1 := address1,
      address := if "address_2" in cols then address1 + " " + Cell(cols, row, "address_2") else address1,
      city := TextFormat(Cell(cols, row, "city")),
      country := cs.0,
      state := cs.1,
      zip := ZipFormat(Cell(cols, row, "zip")),
      phone := PhoneFormat(Cell(cols, row, "phone")),
      sku := Cell(cols, row, "sku"),
      quantity := quantity,
      dropshipperId := dropshipperId)
  }

  /** The facts about one normalised row that `_transform_data` promises. */
  predicate Normalised(cols: seq<string>, row: seq<string>, index: CountryIndex, now: string, n: NormRow)
  {
    var a1 := Cell(cols, row, "address_1");
    var date := Cell(cols, row, "purchase_order_date");
    // address_2 is appended whenever the column exists, even when the cell is empty
    && n.address == (if "address_2" in cols then a1 + " " + Cell(cols, row, "address_2") else a1)
    && n.firstName == Title(Cell(cols, row, "customer_first_name"))
    && n.lastName == Title(Cell(cols, row, "customer_last_name"))
    // an empty or missing order date becomes the processing timestamp
    && n.poDate == (if date == "" then now else date)
    && n.city == TextFormat(Cell(cols, row, "city"))
    && |n.zip| == 5
    && (n.country.None? <==> n.state.None?)
    && (n.country, n.state) == ResolveCountryState(index, Cell(cols, row, "country"), Cell(cols, row, "state"))
    && n.phone == PhoneFormat(Cell(cols, row, "phone"))
    && ParseInt(Cell(cols, row, "quantity")) == Some(n.quantity)
    && ParseInt(Cell(cols, row, "dropshipper_id")) == Some(n.dropshipperId)
    && n.poNumber == Cell(cols, row, "purchase_order_number")
    && n.sku == Cell(cols, row, "sku")
    && n.address1 == a1
  }

  /** `_transform_data` over the whole frame. The integer conversions are
      column-wise, so one bad quantity fails the frame, not just its row.
      A label read twice is reported as `DuplicateColumn` before anything
      else is looked at. */
  function TransformData(t: Table, index: CountryIndex, now: string): (r: Result<seq<NormRow>, ParseError>)
    ensures (exists k :: 0 <= k < |ReadColumns| && Repeated(t.columns, ReadColumns[k])) <==>
      r.Err? && r.error.DuplicateColumn?
    ensures r.Err? && r.error.DuplicateColumn? ==>
      r.error.column in ReadColumns && Repeated(t.columns, r.error.column)
    ensures r.Ok? <==>
      && (forall k :: 0 <= k < |ReadColumns| ==> !Repeated(t.columns, ReadColumns[k]))
      && (forall c :: c in TransformedColumns ==> c in t.columns)
      && "quantity" in t.columns && ColumnIsInt(t, "quantity")
      && "dropshipper_id" in t.columns && ColumnIsInt(t, "dropshipper_id")
    ensures r.Ok? ==> |r.value| == |t.rows|
    ensures r.Ok? ==> forall i :: 0 <= i < |t.rows| ==> Normalised(t.columns, t.rows[i], index, now, r.value[i])
    ensures ((forall k :: 0 <= k < |ReadColumns| ==> !Repeated(t.columns, ReadColumns[k])) &&
      (forall c :: c in TransformedColumns ==> c in t.columns) && "quantity" in t.columns &&
      exists i :: 0 <= i < |t.rows| && ParseInt(Cell(t.columns, t.rows[i], "quantity")).None?) ==>
        r == Err(NotAnInteger("quantity"))
  {
    match FirstIndex(ReadColumns, (c: string) => Repeated(t.columns, c))
    case Some(k) => Err(DuplicateColumn(ReadColumns[k]))
    case None =>
      match FirstIndex(TransformedColumns, (c: string) => c !in t.columns)
      case Some(j) => Err(MissingColumn(TransformedColumns[j]))
      case None =>
        if "quantity" !in t.columns then Err(MissingColumn("quantity"))
        else if !ColumnIsInt(t, "quantity") then Err(NotAnInteger("quantity"))
        else if "dropshipper_id" !in t.columns then Err(MissingColumn("dropshipper_id"))
        else if !ColumnIsInt(t, "dropshipper_id") then Err(NotAnInteger("dropshipper_id"))
        else Ok(TransformRows(t, index, now))
  }

  /** Alias renaming can leave a read label twice: with "LastName" a
      variant of `customer_last_name` and both labels present, the
      transformation reports the repeated label. */
  lemma RenamedDuplicateReported(index: CountryIndex, now: string, rows: seq<seq<string>>)
    ensures var cols := Standardize([("customer_last_name", ["LastName"])], ["customer_last_name", "LastName"]);
      cols == ["customer_last_name", "customer_last_name"] &&
      TransformData(Table(cols, rows), index, now) == Err(DuplicateColumn("customer_last_name"))
  {
    var cols := ["customer_last_name", "LastName"];
    var table := [("customer_last_name", ["LastName"])];
    assert FirstPresent(table[0].1, cols) == Some(0) by {
      assert cols[1] == "LastName";
    }
    var renamed := ApplyAlias(table[0], cols);
    assert Standardize(table, cols) == renamed;
    assert renamed == ["customer_last_name", "customer_last_name"];
    assert renamed[0] == "customer_last_name" && renamed[1] == "customer_last_name";
    forall k | 0 <= k < 3
      ensures !Repeated(renamed, ReadColumns[k])
    {
      assert ReadColumns[k] != "customer_last_name";
    }
    FirstRepeatedReported(Table(renamed, rows), index, now, 3);
  }

  /** Of the labels read twice, the one read first is reported. */
  lemma FirstRepeatedReported(t: Table, index: CountryIndex, now: string, k: nat)
    requires k < |ReadColumns| && Repeated(t.columns, ReadColumns[k])
    requires forall j :: 0 <= j < k ==> !Repeated(t.columns, ReadColumns[j])
    ensures TransformData(t, index, now) == Err(DuplicateColumn(ReadColumns[k]))
  {
    var found := FirstIndex(ReadColumns, (c: string) => Repeated(t.columns, c));
    assert found == Some(k);
  }

  /** The row-wise part of `_transform_data`, once both integer columns
      have converted. */
  function TransformRows(t: Table, index: CountryIndex, now: string): (r: seq<NormRow>)
    requires ColumnIsInt(t, "quantity") && ColumnIsInt(t, "dropshipper_id")
    ensures |r| == |t.rows|
    ensures forall i :: 0 <= i < |t.rows| ==> Normalised(t.columns, t.rows[i], index, now, r[i])
  {
    var rows := seq(|t.rows|, i requires 0 <= i < |t.rows| =>
      TransformRow(t.columns, t.rows[i], index, now,
        ParseInt(Cell(t.columns, t.rows[i], "quantity")).value,
        ParseInt(Cell(t.columns, t.rows[i], "dropshipper_id")).value));
    forall i | 0 <= i < |t.rows|
      ensures Normalised(t.columns, t.rows[i], index, now, rows[i])
    {
      TransformRowNormalised(t.columns, t.rows[i], index, now);
    }
    rows
  }

  /** One transformed row satisfies the normalisation facts. */
  lemma TransformRowNormalised(cols: seq<string>, row: seq<string>, index: CountryIndex, now: string)
    requires ParseInt(Cell(cols, row, "quantity")).Some? && ParseInt(Cell(cols, row, "dropshipper_id")).Some?
    ensures Normalised(cols, row, index, now, TransformRow(cols, row, index, now,
      ParseInt(Cell(cols, row, "quantity")).value, ParseInt(Cell(cols, row, "dropshipper_id")).value))
  {
  }

  // -----------------------------------------------------------------------
  // Required fields

  /** The fields every order row must carry. */
  const RequiredColumns: seq<string> :=
    ["purchase_order_number", "customer_first_name", "address_1", "city", "country", "state", "zip", "sku", "quantity"]

  /** A value of the normalised frame: text, an integer, or None. */
  datatype Value = Text(s: string) | Number(n: int) | Null

  function OptionalText(o: Option<string>): Value
  {
    match o
    case Some(s) => Text(s)
    case None => Null
  }

  /** `getattr(row, name)` for the required fields. */
  function Attr(r: NormRow, name: string): Value
  {
    if name == "purchase_order_number" then Text(r.poNumber)
    else if name == "customer_first_name" then Text(r.firstName)
    else if name == "address_1" then Text(r.address1)
    else if name == "city" then Text(r.city)
    else if name == "country" then OptionalText(r.country)
    else if name == "state" then OptionalText(r.state)
    else if name == "zip" then Text(r.zip)
    else if name == "sku" then Text(r.sku)
    else if name == "quantity" then Number(r.quantity)
    else Null
  }

  /** The test is `== ""`: None and integers are never blank. */
  predicate Blank(r: NormRow, name: string)
  {
    Attr(r, name) == Text("")
  }

  /** The names in `names` whose field is blank, in order. */
  function BlankAmong(names: seq<string>, r: NormRow): (m: seq<string>)
    ensures |m| <= |names|
  {
    if names == [] then []
    else (if Blank(r, names[0]) then [names[0]] else []) + BlankAmong(names[1..], r)
  }

  /** The list holds exactly the given names whose field is blank. */
  lemma {:induction false} BlankAmongMembers(names: seq<string>, r: NormRow)
    ensures forall c :: c in BlankAmong(names, r) <==> c in names && Blank(r, c)
  {
    if names != [] {
      BlankAmongMembers(names[1..], r);
      assert names == [names[0]] + names[1..];
    }
  }

  /** On one name the list is that name when its field is blank. */
  lemma BlankAmongSingle(c: string, r: NormRow)
    ensures BlankAmong([c], r) == (if Blank(r, c) then [c] else [])
  {
    assert [c][1..] == [];
  }

  /** The blank names of two lists are those of the first, then those of
      the second; with `BlankAmongSingle` this fixes the order. */
  lemma {:induction false} BlankAmongConcat(a: seq<string>, b: seq<string>, r: NormRow)
    ensures BlankAmong(a + b, r) == BlankAmong(a, r) + BlankAmong(b, r)
  {
    if a == [] {
      assert a + b == b;
    } else {
      assert (a + b)[0] == a[0];
      assert (a + b)[1..] == a[1..] + b;
      BlankAmongConcat(a[1..], b, r);
    }
  }

  /** `_has_all_required_columns`: (no field blank, the blank fields). */
  function HasAllRequiredColumns(r: NormRow): (res: (bool, seq<string>))
    ensures res.0 <==> res.1 == []
  {
    var missing := BlankAmong(RequiredColumns, r);
    (missing == [], missing)
  }

  /** The reported fields are exactly the required ones that are blank. */
  lemma MissingColumnsMembers(r: NormRow)
    ensures forall c :: c in HasAllRequiredColumns(r).1 <==> c in RequiredColumns && Blank(r, c)
  {
    BlankAmongMembers(RequiredColumns, r);
  }

  /** After normalisation (which makes every zip five characters, see
      `Normalised`) the zip code and the quantity can never be reported
      missing, and neither can a country or state that failed to resolve: the test
      only sees empty strings. */
  lemma NormalisedNeverMissing(n: NormRow)
    requires |n.zip| == 5
    ensures "zip" !in HasAllRequiredColumns(n).1
    ensures "quantity" !in HasAllRequiredColumns(n).1
    ensures n.country.None? ==> "country" !in HasAllRequiredColumns(n).1
    ensures n.state.None? ==> "state" !in HasAllRequiredColumns(n).1
  {
    MissingColumnsMembers(n);
    assert !Blank(n, "zip");
    assert !Blank(n, "quantity");
  }

  /** A normalised row passes the required-field check exactly when none of
      its required text fields is empty; an unresolved (None) country or
      state does not count as empty. */
  lemma RequiredFieldsPresent(r: NormRow)
    ensures HasAllRequiredColumns(r).0 <==>
      && r.poNumber != "" && r.firstName != "" && r.address1 != "" && r.city != ""
      && r.country != Some("") && r.state != Some("") && r.zip != "" && r.sku != ""
  {
    MissingColumnsMembers(r);
    var names := RequiredColumns;
    assert names[0] == "purchase_order_number" && names[1] == "customer_first_name";
    assert names[2] == "address_1" && names[3] == "city" && names[4] == "country";
    assert names[5] == "state" && names[6] == "zip" && names[7] == "sku" && names[8] == "quantity";
    if HasAllRequiredColumns(r).0 {
      forall k | 0 <= k < |names|
        ensures !Blank(r, names[k])
      {
        assert names[k] !in HasAllRequiredColumns(r).1;
      }
      assert !Blank(r, names[0]) && !Blank(r, names[1]) && !Blank(r, names[2]) && !Blank(r, names[3]);
      assert !Blank(r, names[4]) && !Blank(r, names[5]) && !Blank(r, names[6]) && !Blank(r, names[7]);
    } else {
      var c := HasAllRequiredColumns(r).1[0];
      assert c in names && Blank(r, c);
      var k :| 0 <= k < |names| && names[k] == c;
    }
  }
}
