/** The order aggregator (`_parse`): normalised rows are checked for their
    required fields and SKU format and folded into one purchase order per
    order number; rejected rows go to a per-dropshipper bucket. */
module Aggregation {
  import opened Common
  import opened Ascii
  import opened Formatters
  import opened CountryState
  import opened Records

  /** A purchase order aggregate: the customer and shipping snapshot of the
      first accepted row with that number, and SKU -> quantity. */
  datatype PO = PO(
    number: string,
    date: string,
    firstName: string,
    lastName: string,
    address: string,
    city: string,
    country: Option<string>,
    state: Option<string>,
    zip: string,
    phone: Phone,
    dropshipperId: int,
    items: map<string, int>)

  /** An entry of the unparsed bucket: the row and its blank required fields. */
  datatype Unparsed = Unparsed(row: NormRow, missing: seq<string>)

  /** `dropshipper_data.values()` as (id, name), in dict order. */
  type Dropshippers = seq<(int, string)>

  /** `row.sku.replace(" ", "")` */
  function CleanSku(r: NormRow): string
  {
    RemoveSpaces(r.sku)
  }

  /** A row goes into an order when no required field is blank and its
      cleaned SKU has the allowed characters. */
  predicate Accepted(r: NormRow)
  {
    HasAllRequiredColumns(r).0 && HasValidSku(CleanSku(r))
  }

  /** The aggregate created by the first accepted row of an order number. */
  function NewOrder(r: NormRow): PO
  {
    PO(r.poNumber, r.poDate, r.firstName, r.lastName, r.address, r.city,
       r.country, r.state, r.zip, r.phone, r.dropshipperId,
       map[CleanSku(r) := r.quantity])
  }
  /** A new order carries the row's number and dropshipper and holds just
      the row's cleaned SKU with its quantity. */
  lemma NewOrderHolds(r: NormRow)
    ensures NewOrder(r).number == r.poNumber && NewOrder(r).dropshipperId == r.dropshipperId
    ensures NewOrder(r).items.Keys == {CleanSku(r)} && NewOrder(r).items[CleanSku(r)] == r.quantity
  {
  }


  /** An accepted row merged into the orders: a known number only gets its
      item set (overwriting the quantity of a repeated SKU). */
  function AddRow(orders: map<string, PO>, r: NormRow): map<string, PO>
  {
    if r.poNumber in orders then
      var po := orders[r.poNumber];
      orders[r.poNumber := po.(items := po.items[CleanSku(r) := r.quantity])]
    else
      orders[r.poNumber := NewOrder(r)]
  }
  /** Merging a row adds its order number to the keys; a new number gets a
      fresh order, a known one keeps its snapshot and only gets the item
      set; every other order is left as it was. */
  lemma AddRowEffect(orders: map<string, PO>, r: NormRow)
    ensures AddRow(orders, r).Keys == orders.Keys + {r.poNumber}
    ensures r.poNumber !in orders ==> AddRow(orders, r)[r.poNumber] == NewOrder(r)
    ensures r.poNumber in orders ==>
      AddRow(orders, r)[r.poNumber] ==
        orders[r.poNumber].(items := orders[r.poNumber].items[CleanSku(r) := r.quantity])
    ensures forall n :: n in orders && n != r.poNumber ==> AddRow(orders, r)[n] == orders[n]
  {
  }


  /** Whether each row passes the checks of the `try` block. */
  function Verdicts(rows: seq<NormRow>): (ok: seq<bool>)
    ensures |ok| == |rows|
  {
    if rows == [] then [] else Verdicts(rows[..|rows| - 1]) + [Accepted(rows[|rows| - 1])]
  }

  /** `po_objs` after the first `k` rows, where `ok[i]` is row `i`'s verdict. */
  function OrdersUpTo(rows: seq<NormRow>, ok: seq<bool>, k: nat): map<string, PO>
    requires |ok| == |rows| && k <= |rows|
  {
    if k == 0 then map[]
    else
      var prev := OrdersUpTo(rows, ok, k - 1);
      if ok[k - 1] then AddRow(prev, rows[k - 1]) else prev
  }

  /** The name of the first dropshipper whose id equals `id`. */
  function DropshipperName(ds: Dropshippers, id: int): Option<string>
  {
    match FirstIndex(ds, (d: (int, string)) => d.0 == id)
    case Some(j) => Some(ds[j].1)
    case None => None
  }

  /** The unparsed buckets and the `dropshipper_name` variable, which keeps
      its value from one failing row to the next. */
  datatype Buckets = Buckets(unparsed: map<string, seq<Unparsed>>, lastName: Option<string>)

  function Append(m: map<string, seq<Unparsed>>, name: string, u: Unparsed): map<string, seq<Unparsed>>
  {
    m[name := (if name in m then m[name] else []) + [u]]
  }

  /** The exception handler of `_parse` for a rejected row. */
  function RejectRow(b: Buckets, r: NormRow, ds: Dropshippers): Result<Buckets, ParseError>
  {
    var name := if DropshipperName(ds, r.dropshipperId).Some? then DropshipperName(ds, r.dropshipperId) else b.lastName;
    match name
    case None => Err(UnboundName)
    case Some(n) => Ok(Buckets(Append(b.unparsed, n, Unparsed(r, HasAllRequiredColumns(r).1)), name))
  }

  /** The handler raises exactly when the row's dropshipper id is unknown
      and no earlier rejected row has bound a name; otherwise the name it
      files the row under is the row's own dropshipper's when known, else
      the one left by the previous rejected row. */
  lemma RejectRowFails(b: Buckets, r: NormRow, ds: Dropshippers)
    ensures RejectRow(b, r, ds).Err? <==> DropshipperName(ds, r.dropshipperId).None? && b.lastName.None?
    ensures RejectRow(b, r, ds).Err? ==> RejectRow(b, r, ds).error == UnboundName
    ensures RejectRow(b, r, ds).Ok? ==>
      RejectRow(b, r, ds).value.lastName ==
        (if DropshipperName(ds, r.dropshipperId).Some? then DropshipperName(ds, r.dropshipperId) else b.lastName)
  {
  }

  /** A rejected row is appended, with its blank fields, to the bucket of
      the name it is filed under; every other bucket is unchanged. */
  lemma RejectRowAppends(b: Buckets, r: NormRow, ds: Dropshippers)
    requires RejectRow(b, r, ds).Ok?
    ensures var res := RejectRow(b, r, ds).value;
      res.lastName.Some? &&
      var n := res.lastName.value;
      res.unparsed.Keys == b.unparsed.Keys + {n} &&
      res.unparsed[n] == (if n in b.unparsed then b.unparsed[n] else []) + [Unparsed(r, HasAllRequiredColumns(r).1)] &&
      forall k :: k in b.unparsed && k != n ==> res.unparsed[k] == b.unparsed[k]
  {
  }

  /** The buckets after the first `k` rows, or the error that escaped. */
  function BucketsUpTo(rows: seq<NormRow>, ok: seq<bool>, ds: Dropshippers, k: nat): Result<Buckets, ParseError>
    requires |ok| == |rows| && k <= |rows|
  {
    if k == 0 then Ok(Buckets(map[], None))
    else
      match BucketsUpTo(rows, ok, ds, k - 1)
      case Err(e) => Err(e)
      case Ok(b) => if ok[k - 1] then Ok(b) else RejectRow(b, rows[k - 1], ds)
  }

  /** The fold of `_parse` over normalised rows: `(po_objs, unparsed_skus)`
      or the exception that escapes it. */
  function AggregateSpec(rows: seq<NormRow>, ds: Dropshippers)
    : Result<(map<string, PO>, map<string, seq<Unparsed>>), ParseError>
  {
    var ok := Verdicts(rows);
    match BucketsUpTo(rows, ok, ds, |rows|)
    case Err(e) => Err(e)
    case Ok(b) => Ok((OrdersUpTo(rows, ok, |rows|), b.unparsed))
  }

  /** The result of `_parse` on a frame. Without an `sku` or
      `purchase_order_number` column, the first row fails before
      `missing_columns` is bound and the handler raises. */
  function ParseSpec(t: Table, index: CountryIndex, now: string, ds: Dropshippers)
    : Result<(map<string, PO>, map<string, seq<Unparsed>>), ParseError>
  {
    match TransformData(t, index, now)
    case Err(e) => Err(e)
    case Ok(rows) =>
      if rows != [] && ("sku" !in t.columns || "purchase_order_number" !in t.columns) then Err(UnboundName)
      else AggregateSpec(rows, ds)
  }

  // -----------------------------------------------------------------------
  // The loop

  /** The dropshipper lookup of the handler: the first matching entry's
      name, or the previous value of the variable when none matches. */
  method FindDropshipperName(ds: Dropshippers, id: int, previous: Option<string>) returns (name: Option<string>)
    ensures DropshipperName(ds, id).Some? ==> name == DropshipperName(ds, id)
    ensures DropshipperName(ds, id).None? ==> name == previous
  {
    name := previous;
    var j := 0;
    while j < |ds|
      invariant 0 <= j <= |ds|
      invariant forall m :: 0 <= m < j ==> ds[m].0 != id
      invariant name == previous
    {
      if ds[j].0 == id {
        name := Some(ds[j].1);
        break;
      }
      j := j + 1;
    }
  }

  lemma {:induction false} ErrorPersists(rows: seq<NormRow>, ok: seq<bool>, ds: Dropshippers, k: nat, m: nat)
    requires |ok| == |rows| && k <= m <= |rows|
    requires BucketsUpTo(rows, ok, ds, k).Err?
    ensures BucketsUpTo(rows, ok, ds, m) == BucketsUpTo(rows, ok, ds, k)
    decreases m - k
  {
    if k < m {
      ErrorPersists(rows, ok, ds, k + 1, m);
    }
  }

  /** The checks at the head of the `try` block for one row. */
  method CheckRow(row: NormRow) returns (accepted: bool, sku: string, missingColumns: seq<string>)
    ensures accepted == Accepted(row)
    ensures sku == CleanSku(row)
    ensures missingColumns == HasAllRequiredColumns(row).1
  {
    sku := RemoveSpaces(row.sku);
    var ableToParse;
    ableToParse, missingColumns := HasAllRequiredColumns(row).0, HasAllRequiredColumns(row).1;
    var correctSkuFormat := HasValidSku(sku);
    accepted := ableToParse && correctSkuFormat;
  }

  /** The accepting branch: a new order for an unseen number, else the item
      is set on the existing order. */
  method AddToOrders(poObjs: map<string, PO>, row: NormRow, sku: string) returns (m: map<string, PO>)
    requires sku == CleanSku(row)
    ensures m == AddRow(poObjs, row)
  {
    var number := row.poNumber;
    if number in poObjs {
      var po := poObjs[number];
      m := poObjs[number := po.(items := po.items[sku := row.quantity])];
    } else {
      m := poObjs[number := PO(number, row.poDate, row.firstName, row.lastName, row.address,
        row.city, row.country, row.state, row.zip, row.phone, row.dropshipperId, map[sku := row.quantity])];
    }
  }

  /** The exception handler: find the dropshipper's name, keeping the
      previous one when no entry matches, and append the row to its bucket.
      The result is the handler's outcome, `Err` when the name is unbound. */
  method HandleRejected(unparsed: map<string, seq<Unparsed>>, dropshipperName: Option<string>,
                        row: NormRow, missingColumns: seq<string>, ds: Dropshippers)
    returns (r: Result<Buckets, ParseError>)
    requires missingColumns == HasAllRequiredColumns(row).1
    ensures r == RejectRow(Buckets(unparsed, dropshipperName), row, ds)
  {
    var name := FindDropshipperName(ds, row.dropshipperId, dropshipperName);
    if name.None? {
      return Err(UnboundName);
    }
    var u := Unparsed(row, missingColumns);
    if name.value in unparsed {
      r := Ok(Buckets(unparsed[name.value := unparsed[name.value] + [u]], name));
    } else {
      assert [] + [u] == [u];
      r := Ok(Buckets(unparsed[name.value := [u]], name));
    }
  }

  lemma {:induction false} VerdictAt(rows: seq<NormRow>, i: nat)
    requires i < |rows|
    ensures Verdicts(rows)[i] == Accepted(rows[i])
  {
    if i < |rows| - 1 {
      VerdictAt(rows[..|rows| - 1], i);
    }
  }

  /** One step of the fold, split on the row's verdict. */
  lemma FoldStep(rows: seq<NormRow>, ok: seq<bool>, ds: Dropshippers, i: nat)
    requires |ok| == |rows| && i < |rows|
    requires BucketsUpTo(rows, ok, ds, i).Ok?
    ensures ok[i] ==> OrdersUpTo(rows, ok, i + 1) == AddRow(OrdersUpTo(rows, ok, i), rows[i])
    ensures ok[i] ==> BucketsUpTo(rows, ok, ds, i + 1) == BucketsUpTo(rows, ok, ds, i)
    ensures !ok[i] ==> OrdersUpTo(rows, ok, i + 1) == OrdersUpTo(rows, ok, i)
    ensures !ok[i] ==> BucketsUpTo(rows, ok, ds, i + 1) == RejectRow(BucketsUpTo(rows, ok, ds, i).value, rows[i], ds)
  {
  }

  /** The body of `_parse`'s loop for row `i`: the orders and the buckets
      after the row are the fold's after `i + 1` rows. */
  method ParseRow(rows: seq<NormRow>, ghost ok: seq<bool>, ds: Dropshippers, i: nat,
                  poObjs: map<string, PO>, unparsed: map<string, seq<Unparsed>>,
                  dropshipperName: Option<string>)
    returns (poObjs': map<string, PO>, unparsed': map<string, seq<Unparsed>>,
             dropshipperName': Option<string>, failure: Option<ParseError>)
    requires ok == Verdicts(rows) && i < |rows|
    requires poObjs == OrdersUpTo(rows, ok, i)
    requires BucketsUpTo(rows, ok, ds, i) == Ok(Buckets(unparsed, dropshipperName))
    ensures failure.None? ==> poObjs' == OrdersUpTo(rows, ok, i + 1)
    ensures failure.None? ==> BucketsUpTo(rows, ok, ds, i + 1) == Ok(Buckets(unparsed', dropshipperName'))
    ensures failure.Some? ==> AggregateSpec(rows, ds) == Err(failure.value)
  {
    var row := rows[i];
    var accepted, sku, missingColumns := CheckRow(row);
    VerdictAt(rows, i);
    FoldStep(rows, ok, ds, i);
    poObjs', unparsed', dropshipperName', failure := poObjs, unparsed, dropshipperName, None;
    if accepted {
      poObjs' := AddToOrders(poObjs, row, sku);
    } else {
      var handled := HandleRejected(unparsed, dropshipperName, row, missingColumns, ds);
      if handled.Err? {
        ErrorPersists(rows, ok, ds, i + 1, |rows|);
        AggregateSpecOf(rows, ds);
        failure := Some(handled.error);
      } else {
        unparsed', dropshipperName' := handled.value.unparsed, handled.value.lastName;
      }
    }
  }

  /** The loop of `_parse` over the normalised rows. */
  method Aggregate(rows: seq<NormRow>, ds: Dropshippers)
    returns (r: Result<(map<string, PO>, map<string, seq<Unparsed>>), ParseError>)
    ensures r == AggregateSpec(rows, ds)
  {
    ghost var ok := Verdicts(rows);
    var poObjs: map<string, PO> := map[];
    var unparsed: map<string, seq<Unparsed>> := map[];
    var dropshipperName: Option<string> := None;
    var i := 0;
    while i < |rows|
      invariant 0 <= i <= |rows|
      invariant poObjs == OrdersUpTo(rows, ok, i)
      invariant BucketsUpTo(rows, ok, ds, i) == Ok(Buckets(unparsed, dropshipperName))
    {
      var failure;
      poObjs, unparsed, dropshipperName, failure := ParseRow(rows, ok, ds, i, poObjs, unparsed, dropshipperName);
      if failure.Some? {
        return Err(failure.value);
      }
      i := i + 1;
    }
    AggregateDone(rows, ds, poObjs, Buckets(unparsed, dropshipperName));
    return Ok((poObjs, unparsed));
  }

  /** `AggregateSpec` read off the completed folds. */
  lemma AggregateSpecOf(rows: seq<NormRow>, ds: Dropshippers)
    ensures var ok := Verdicts(rows);
      match BucketsUpTo(rows, ok, ds, |rows|)
      case Err(e) => AggregateSpec(rows, ds) == Err(e)
      case Ok(b) => AggregateSpec(rows, ds) == Ok((OrdersUpTo(rows, ok, |rows|), b.unparsed))
  {
  }

  /** The folds run to the end without an exception. */
  lemma AggregateDone(rows: seq<NormRow>, ds: Dropshippers, orders: map<string, PO>, b: Buckets)
    requires orders == OrdersUpTo(rows, Verdicts(rows), |rows|)
    requires BucketsUpTo(rows, Verdicts(rows), ds, |rows|) == Ok(b)
    ensures AggregateSpec(rows, ds) == Ok((orders, b.unparsed))
  {
  }

  /** `_parse`: transform the frame, then fold the rows one by one. */
  method Parse(t: Table, index: CountryIndex, now: string, ds: Dropshippers)
    returns (r: Result<(map<string, PO>, map<string, seq<Unparsed>>), ParseError>)
    ensures r == ParseSpec(t, index, now, ds)
  {
    var transformed := TransformData(t, index, now);
    if transformed.Err? {
      return Err(transformed.error);
    }
    var rows := transformed.value;
    if rows != [] && ("sku" !in t.columns || "purchase_order_number" !in t.columns) {
      return Err(UnboundName);
    }
    r := Aggregate(rows, ds);
  }

  // -----------------------------------------------------------------------
  // What the aggregate holds. `ok[i]` is row `i`'s verdict; `_parse` uses
  // `Verdicts(rows)`.

  /** One order per distinct number of the accepted rows, and no other. */
  lemma {:induction false} OrdersKeys(rows: seq<NormRow>, ok: seq<bool>, k: nat, n: string)
    requires |ok| == |rows| && k <= |rows|
    ensures n in OrdersUpTo(rows, ok, k) <==>
      exists i :: 0 <= i < k && ok[i] && rows[i].poNumber == n
  {
    if k > 0 {
      OrdersKeys(rows, ok, k - 1, n);
    }
  }

  /** The snapshot fields of an order come from the first accepted row with
      its number and are never overwritten. */
  lemma {:induction false} OrdersSnapshot(rows: seq<NormRow>, ok: seq<bool>, k: nat, i: nat)
    requires |ok| == |rows| && i < k <= |rows|
    requires ok[i]
    requires forall j :: 0 <= j < i && ok[j] ==> rows[j].poNumber != rows[i].poNumber
    ensures rows[i].poNumber in OrdersUpTo(rows, ok, k)
    ensures OrdersUpTo(rows, ok, k)[rows[i].poNumber].(items := map[]) == NewOrder(rows[i]).(items := map[])
  {
    var n := rows[i].poNumber;
    if k == i + 1 {
      OrdersKeys(rows, ok, i, n);
    } else {
      OrdersSnapshot(rows, ok, k - 1, i);
    }
  }

  /** The items of an order are exactly the cleaned SKUs of its accepted rows. */
  lemma {:induction false} OrdersItemKeys(rows: seq<NormRow>, ok: seq<bool>, k: nat, n: string, s: string)
    requires |ok| == |rows| && k <= |rows|
    requires n in OrdersUpTo(rows, ok, k)
    ensures s in OrdersUpTo(rows, ok, k)[n].items <==>
      exists i :: 0 <= i < k && ok[i] && rows[i].poNumber == n && CleanSku(rows[i]) == s
  {
    var prev := OrdersUpTo(rows, ok, k - 1);
    if n in prev {
      OrdersItemKeys(rows, ok, k - 1, n, s);
    } else {
      OrdersKeys(rows, ok, k - 1, n);
    }
  }

  /** A repeated SKU keeps the quantity of its last accepted row. */
  lemma {:induction false} OrdersLastWins(rows: seq<NormRow>, ok: seq<bool>, k: nat, i: nat)
    requires |ok| == |rows| && i < k <= |rows|
    requires ok[i]
    requires forall j :: i < j < k && ok[j] && rows[j].poNumber == rows[i].poNumber ==>
      CleanSku(rows[j]) != CleanSku(rows[i])
    ensures rows[i].poNumber in OrdersUpTo(rows, ok, k)
    ensures CleanSku(rows[i]) in OrdersUpTo(rows, ok, k)[rows[i].poNumber].items
    ensures OrdersUpTo(rows, ok, k)[rows[i].poNumber].items[CleanSku(rows[i])] == rows[i].quantity
  {
    if k > i + 1 {
      OrdersLastWins(rows, ok, k - 1, i);
      if ok[k - 1] {
        AddRowEffect(OrdersUpTo(rows, ok, k - 1), rows[k - 1]);
      }
    }
  }

  // -----------------------------------------------------------------------
  // What the buckets hold

  predicate Known(ds: Dropshippers, r: NormRow)
  {
    DropshipperName(ds, r.dropshipperId).Some?
  }

  /** Every row before `k` was accepted. */
  predicate AllAcceptedBefore(ok: seq<bool>, k: nat)
    requires k <= |ok|
  {
    forall j :: 0 <= j < k ==> ok[j]
  }

  /** Row `i` is the first rejected row, and its dropshipper is unknown. */
  predicate FirstRejectedUnknown(rows: seq<NormRow>, ok: seq<bool>, ds: Dropshippers, i: nat)
    requires |ok| == |rows| && i < |rows|
  {
    !ok[i] && !Known(ds, rows[i]) && AllAcceptedBefore(ok, i)
  }

  /** The handler variable is unbound exactly while every row so far was
      accepted, and the only error is the unbound name. */
  lemma {:induction false} BucketsNameBound(rows: seq<NormRow>, ok: seq<bool>, ds: Dropshippers, k: nat)
    requires |ok| == |rows| && k <= |rows|
    ensures BucketsUpTo(rows, ok, ds, k).Err? ==> BucketsUpTo(rows, ok, ds, k).error == UnboundName
    ensures BucketsUpTo(rows, ok, ds, k).Ok? ==>
      (BucketsUpTo(rows, ok, ds, k).value.lastName.None? <==> AllAcceptedBefore(ok, k))
  {
    if k > 0 {
      BucketsNameBound(rows, ok, ds, k - 1);
      var prev := BucketsUpTo(rows, ok, ds, k - 1);
      if prev.Ok? && ok[k - 1] {
        assert AllAcceptedBefore(ok, k) <==> AllAcceptedBefore(ok, k - 1);
      }
    }
  }

  /** The handler fails exactly when neither the row's dropshipper nor the
      variable gives a name. */
  lemma RejectRowError(b: Buckets, r: NormRow, ds: Dropshippers)
    ensures RejectRow(b, r, ds).Err? <==> !Known(ds, r) && b.lastName.None?
  {
  }

  /** `_parse` raises exactly when the first rejected row names no known
      dropshipper: that row finds `dropshipper_name` unbound. */
  lemma {:induction false} BucketsError(rows: seq<NormRow>, ok: seq<bool>, ds: Dropshippers, k: nat)
    requires |ok| == |rows| && k <= |rows|
    ensures BucketsUpTo(rows, ok, ds, k).Err? <==>
      exists i :: 0 <= i < k && FirstRejectedUnknown(rows, ok, ds, i)
  {
    if k > 0 {
      BucketsError(rows, ok, ds, k - 1);
      BucketsNameBound(rows, ok, ds, k - 1);
      var prev := BucketsUpTo(rows, ok, ds, k - 1);
      if prev.Err? {
        var i :| 0 <= i < k - 1 && FirstRejectedUnknown(rows, ok, ds, i);
        assert 0 <= i < k;
      } else if ok[k - 1] {
        assert !FirstRejectedUnknown(rows, ok, ds, k - 1);
      } else {
        RejectRowError(prev.value, rows[k - 1], ds);
        assert BucketsUpTo(rows, ok, ds, k) == RejectRow(prev.value, rows[k - 1], ds);
        if BucketsUpTo(rows, ok, ds, k).Err? {
          assert FirstRejectedUnknown(rows, ok, ds, k - 1);
        } else if exists i :: 0 <= i < k && FirstRejectedUnknown(rows, ok, ds, i) {
          var i :| 0 <= i < k && FirstRejectedUnknown(rows, ok, ds, i);
          assert i == k - 1;
        }
      }
    }
  }

  /** The bucket name a rejected row is filed under: its own dropshipper's,
      or else the one the last rejected row with a known dropshipper had. */
  function ResolvedName(rows: seq<NormRow>, ok: seq<bool>, ds: Dropshippers, i: nat): Option<string>
    requires |ok| == |rows| && i < |rows|
  {
    if !ok[i] && Known(ds, rows[i]) then DropshipperName(ds, rows[i].dropshipperId)
    else if i == 0 then None
    else ResolvedName(rows, ok, ds, i - 1)
  }

  /** A rejected row whose dropshipper is known, with no such row after it
      up to `i`. */
  predicate NearestFiled(rows: seq<NormRow>, ok: seq<bool>, ds: Dropshippers, i: nat, j: nat)
    requires |ok| == |rows| && i < |rows|
  {
    && j <= i && !ok[j] && Known(ds, rows[j])
    && forall m :: j < m <= i ==> !(!ok[m] && Known(ds, rows[m]))
  }

  /** The resolved name is that of the nearest rejected row, at or before
      `i`, whose dropshipper is known, and there is none when no such row
      exists. */
  lemma {:induction false} ResolvedNameNearest(rows: seq<NormRow>, ok: seq<bool>, ds: Dropshippers, i: nat, j: nat)
    requires |ok| == |rows| && i < |rows|
    ensures NearestFiled(rows, ok, ds, i, j) ==>
      ResolvedName(rows, ok, ds, i) == DropshipperName(ds, rows[j].dropshipperId)
    ensures ResolvedName(rows, ok, ds, i).None? && j <= i ==> !(!ok[j] && Known(ds, rows[j]))
  {
    if !ok[i] && Known(ds, rows[i]) {
    } else if i > 0 {
      ResolvedNameNearest(rows, ok, ds, i - 1, j);
      if NearestFiled(rows, ok, ds, i, j) {
        assert j != i;
        assert NearestFiled(rows, ok, ds, i - 1, j);
      }
    }
  }

  /** The entries filed under `name` among the first `k` rows, in row order. */
  function FiledUnder(rows: seq<NormRow>, ok: seq<bool>, ds: Dropshippers, name: string, k: nat): seq<Unparsed>
    requires |ok| == |rows| && k <= |rows|
  {
    if k == 0 then []
    else
      var r := rows[k - 1];
      FiledUnder(rows, ok, ds, name, k - 1) +
        (if !ok[k - 1] && ResolvedName(rows, ok, ds, k - 1) == Some(name)
         then [Unparsed(r, HasAllRequiredColumns(r).1)] else [])
  }

  /** Without an error, each bucket holds exactly the rejected rows filed
      under its name, in row order, with their blank required fields; the
      variable holds the name of the last rejected row. */
  lemma {:induction false} BucketsContents(rows: seq<NormRow>, ok: seq<bool>, ds: Dropshippers, k: nat, name: string)
    requires |ok| == |rows| && k <= |rows|
    requires BucketsUpTo(rows, ok, ds, k).Ok?
    ensures var b := BucketsUpTo(rows, ok, ds, k).value;
      (name in b.unparsed ==> b.unparsed[name] == FiledUnder(rows, ok, ds, name, k)) &&
      (name !in b.unparsed ==> FiledUnder(rows, ok, ds, name, k) == [])
    ensures k > 0 ==> BucketsUpTo(rows, ok, ds, k).value.lastName == ResolvedName(rows, ok, ds, k - 1)
  {
    if k > 0 {
      var prev := BucketsUpTo(rows, ok, ds, k - 1);
      assert prev.Ok?;
      BucketsContents(rows, ok, ds, k - 1, name);
      if k == 1 {
        assert prev.value.lastName == None;
      }
    }
  }

  /** A row left without a resolved name either follows only accepted rows
      or has already made `_parse` raise. */
  lemma {:induction false} UnresolvedRow(rows: seq<NormRow>, ok: seq<bool>, ds: Dropshippers, i: nat)
    requires |ok| == |rows| && i < |rows|
    requires ResolvedName(rows, ok, ds, i).None?
    ensures AllAcceptedBefore(ok, i + 1) || BucketsUpTo(rows, ok, ds, i + 1).Err?
  {
    var prev := BucketsUpTo(rows, ok, ds, i);
    if i > 0 {
      UnresolvedRow(rows, ok, ds, i - 1);
    }
    BucketsNameBound(rows, ok, ds, i);
    if prev.Ok? && AllAcceptedBefore(ok, i) && ok[i] {
      assert AllAcceptedBefore(ok, i + 1);
    }
  }

  /** Every rejected row is filed under some name when `_parse` returns. */
  lemma RejectedRowsFiled(rows: seq<NormRow>, ok: seq<bool>, ds: Dropshippers, i: nat)
    requires |ok| == |rows| && i < |rows|
    requires BucketsUpTo(rows, ok, ds, |rows|).Ok?
    requires !ok[i]
    ensures ResolvedName(rows, ok, ds, i).Some?
  {
    if ResolvedName(rows, ok, ds, i).None? {
      UnresolvedRow(rows, ok, ds, i);
      assert !AllAcceptedBefore(ok, i + 1);
      ErrorPersists(rows, ok, ds, i + 1, |rows|);
    }
  }

  // -----------------------------------------------------------------------
  // The fold on the rows' own verdicts

  /** The orders `_parse` returns are keyed by the order numbers of the
      accepted rows, and by nothing else. */
  lemma AggregateOrderNumbers(rows: seq<NormRow>, ds: Dropshippers, n: string)
    requires AggregateSpec(rows, ds).Ok?
    ensures n in AggregateSpec(rows, ds).value.0 <==>
      exists i :: 0 <= i < |rows| && Accepted(rows[i]) && rows[i].poNumber == n
  {
    var ok := Verdicts(rows);
    OrdersKeys(rows, ok, |rows|, n);
    if n in AggregateSpec(rows, ds).value.0 {
      var i :| 0 <= i < |rows| && ok[i] && rows[i].poNumber == n;
      VerdictAt(rows, i);
    } else {
      forall i | 0 <= i < |rows| && rows[i].poNumber == n
        ensures !Accepted(rows[i])
      {
        VerdictAt(rows, i);
      }
    }
  }

  /** Row isolation: when only row `K` is rejected and its dropshipper is
      known, the fold does not raise, and that row is the only entry of the
      only bucket. */
  lemma {:induction false} OneRejectedRow(rows: seq<NormRow>, ok: seq<bool>, ds: Dropshippers, K: nat, k: nat)
    requires |ok| == |rows| && K < |rows| && k <= |rows|
    requires forall i :: 0 <= i < |rows| && i != K ==> ok[i]
    requires !ok[K] && Known(ds, rows[K])
    ensures k <= K ==> BucketsUpTo(rows, ok, ds, k) == Ok(Buckets(map[], None))
    ensures k > K ==>
      var name := DropshipperName(ds, rows[K].dropshipperId);
      BucketsUpTo(rows, ok, ds, k) ==
        Ok(Buckets(map[name.value := [Unparsed(rows[K], HasAllRequiredColumns(rows[K]).1)]], name))
  {
    if k > 0 {
      OneRejectedRow(rows, ok, ds, K, k - 1);
      if k - 1 == K {
        assert [] + [Unparsed(rows[K], HasAllRequiredColumns(rows[K]).1)] ==
          [Unparsed(rows[K], HasAllRequiredColumns(rows[K]).1)];
      }
    }
  }

  /** A row whose required fields are all filled and whose SKU is made of
      class characters without spaces is accepted, under its own SKU. */
  lemma PlainSkuAccepted(r: NormRow)
    requires AllSkuChars(r.sku) && ' ' !in r.sku
    requires r.poNumber != "" && r.firstName != "" && r.address1 != "" && r.city != ""
    requires r.country != Some("") && r.state != Some("") && r.zip != "" && r.sku != ""
    ensures CleanSku(r) == r.sku && Accepted(r)
  {
    HasValidSkuMeaning(r.sku);
    RequiredFieldsPresent(r);
  }

  /** Two accepted rows of one order with different SKUs give one order
      holding both items with their quantities. */
  lemma TwoItemsOneOrder(rows: seq<NormRow>, ok: seq<bool>)
    requires |rows| == 2 && ok == [true, true]
    requires rows[0].poNumber == rows[1].poNumber
    requires CleanSku(rows[0]) != CleanSku(rows[1])
    ensures OrdersUpTo(rows, ok, 2).Keys == {rows[0].poNumber}
    ensures OrdersUpTo(rows, ok, 2)[rows[0].poNumber].items ==
      map[CleanSku(rows[0]) := rows[0].quantity, CleanSku(rows[1]) := rows[1].quantity]
  {
    assert OrdersUpTo(rows, ok, 1) == map[rows[0].poNumber := NewOrder(rows[0])];
  }
}
