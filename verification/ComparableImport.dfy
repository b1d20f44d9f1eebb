/** `ComparableImportService.import_rows`: every input row ends in exactly one numbered record,
    and no stored comparable identity is ever duplicated. */
module ComparableImport {
  import opened Money
  import opened Wrappers

  /** The text of a date cell after parsing. */
  datatype Date = NoDate | BadDate(text: string) | OnDay(day: int)

  /** The text of a numeric cell after parsing, which lets the texts of NaN and of the infinities through. */
  datatype Number = Missing | Malformed(text: string) | NotANumber | Infinite(negative: bool) | Given(value: real)

  /** One input row.  Text cells are trimmed; `identity` is the source identity or, failing that, the
      source URL; `marketplace` is lower case and `currency` upper case. */
  datatype RawRow = RawRow(
    marketplace: string,
    title: string,
    identity: string,
    currency: string,
    isSold: bool,
    soldPrice: Number,
    listedPrice: Number,
    shippingPrice: Number,
    saleDate: Date,
    similarity: Number,
    reliability: Number,
    condition: Option<string>,
    size: Option<string>,
    url: Option<string>)

  /** Why a row is invalid, with the text of the cell that its message repeats. */
  datatype RowError =
    | UnknownMarketplace(text: string) | MissingTitle | MissingIdentity | DisallowedCurrency(text: string)
    | InvalidNumber(text: string) | NegativePrice | SoldWithoutPrice | InvalidDate(text: string)

  /** The configured limits, and the characters the database cannot store in a text. */
  datatype Limits = Limits(maxRows: nat, marketplaces: set<string>, currencies: set<string>, unstorable: set<char>)

  /** What the record of an import says of it before any row. */
  datatype Header = Header(item: nat, source: string, actor: string)

  /** A stored comparable; `item`, `marketplace` and `identity` identify it. */
  datatype Sale = Sale(
    item: nat,
    marketplace: string,
    identity: string,
    title: string,
    currency: string,
    isSold: bool,
    soldPrice: Number,
    listedPrice: Number,
    shippingPrice: Number,
    saleDate: Date,
    similarity: Number,
    reliability: Number,
    condition: Option<string>,
    size: Option<string>,
    url: Option<string>)

  datatype RowStatus = Failed | Validated | Skipped | Imported | Duplicate

  datatype RowRecord = RowRecord(number: nat, raw: RawRow, status: RowStatus)

  datatype ImportStatus = DryRun | RolledBack | AllFailed | Completed

  datatype Summary = Summary(total: nat, imported: nat, failed: nat, duplicates: nat, status: ImportStatus)

  /** What aborts a whole import: the row limit; a NaN that is compared with zero, by row validation or
      by the comparable store; a negative shipping price, which only the store looks at; an item that does
      not exist; or a value that its column cannot hold. */
  datatype ImportFailure = TooManyRows | InvalidComparison | NegativeShipping | UnknownItem | Unstorable

  /** What validating one row comes to: a NaN price raises past the row. */
  datatype Check = Accepted | Rejected(error: RowError) | Raised

  // ---------------------------------------------------------------- row validation

  function Prefix(s: string, n: nat): string {
    if |s| <= n then s else s[..n]
  }

  function CheckRow(row: RawRow, limits: Limits): Check {
    if row.marketplace !in limits.marketplaces then Rejected(UnknownMarketplace(row.marketplace))
    else if row.title == "" then Rejected(MissingTitle)
    else if row.identity == "" then Rejected(MissingIdentity)
    else if row.currency !in limits.currencies then Rejected(DisallowedCurrency(row.currency))
    else if row.soldPrice.Malformed? then Rejected(InvalidNumber(row.soldPrice.text))
    else if row.listedPrice.Malformed? then Rejected(InvalidNumber(row.listedPrice.text))
    else if row.soldPrice.NotANumber? then Raised
    else if Negative(row.soldPrice) then Rejected(NegativePrice)
    else if row.listedPrice.NotANumber? then Raised
    else if Negative(row.listedPrice) then Rejected(NegativePrice)
    else if row.isSold && row.soldPrice.Missing? then Rejected(SoldWithoutPrice)
    else if row.shippingPrice.Malformed? then Rejected(InvalidNumber(row.shippingPrice.text))
    else if row.saleDate.BadDate? then Rejected(InvalidDate(row.saleDate.text))
    else if row.similarity.Malformed? then Rejected(InvalidNumber(row.similarity.text))
    else if row.reliability.Malformed? then Rejected(InvalidNumber(row.reliability.text))
    else Accepted
  }

  predicate Negative(n: Number) {
    (n.Given? && n.value < 0.0) || (n.Infinite? && n.negative)
  }

  predicate ValidRow(row: RawRow, limits: Limits) {
    CheckRow(row, limits).Accepted?
  }

  predicate RaisesOn(row: RawRow, limits: Limits) {
    CheckRow(row, limits).Raised?
  }

  /** The comparable a valid row describes, its title and identity cut to the column widths. */
  function SaleOf(item: nat, row: RawRow): Sale {
    Sale(item, row.marketplace, Prefix(row.identity, 300), Prefix(row.title, 500), row.currency, row.isSold,
         row.soldPrice, row.listedPrice, row.shippingPrice, row.saleDate, row.similarity, row.reliability,
         row.condition, row.size, row.url)
  }

  // ---------------------------------------------------------------- the store

  predicate SameIdentity(a: Sale, b: Sale) {
    a.item == b.item && a.marketplace == b.marketplace && a.identity == b.identity
  }

  predicate Stored(sales: seq<Sale>, sale: Sale) {
    exists i :: 0 <= i < |sales| && SameIdentity(sales[i], sale)
  }

  ghost predicate UniqueIdentities(sales: seq<Sale>) {
    forall i, j :: 0 <= i < j < |sales| ==> !SameIdentity(sales[i], sales[j])
  }

  // ---------------------------------------------------------------- what the columns hold

  predicate Storable(text: string, limits: Limits) {
    forall c | c in text :: c !in limits.unstorable
  }

  predicate Fits(text: string, width: nat, limits: Limits) {
    |text| <= width && Storable(text, limits)
  }

  predicate FitsIfGiven(text: Option<string>, width: nat, limits: Limits) {
    text.Some? ==> Fits(text.value, width, limits)
  }

  /** NUMERIC(12, 2): the column rounds to hundredths and holds fewer than 10^12 of them, or NaN. */
  predicate InPriceColumn(n: Number) {
    match n
    case Given(value) => -1_000_000_000_000 < RoundHalfUp(value * 100.0) < 1_000_000_000_000
    case Infinite(_) => false
    case _ => true
  }

  /** NUMERIC(4, 3): the column rounds to thousandths and holds fewer than 10^4 of them, or NaN. */
  predicate InScoreColumn(n: Number) {
    match n
    case Given(value) => -10_000 < RoundHalfUp(value * 1000.0) < 10_000
    case Infinite(_) => false
    case _ => true
  }

  predicate FitsColumns(sale: Sale, limits: Limits) {
    && Fits(sale.identity, 300, limits) && Fits(sale.title, 500, limits) && Fits(sale.currency, 3, limits)
    && FitsIfGiven(sale.condition, 100, limits) && FitsIfGiven(sale.size, 50, limits) && FitsIfGiven(sale.url, 2000, limits)
    && InPriceColumn(sale.soldPrice) && InPriceColumn(sale.listedPrice) && InPriceColumn(sale.shippingPrice)
    && InScoreColumn(sale.similarity) && InScoreColumn(sale.reliability)
  }

  /** Why the store refuses a comparable it does not hold: it compares the shipping price with zero, which
      row validation has not, and then inserts the row. */
  function StoreFailure(sale: Sale, limits: Limits): Option<ImportFailure> {
    if sale.shippingPrice.NotANumber? then Some(InvalidComparison)
    else if Negative(sale.shippingPrice) then Some(NegativeShipping)
    else if !FitsColumns(sale, limits) then Some(Unstorable)
    else None
  }

  predicate RefusedByStore(sale: Sale, limits: Limits) {
    StoreFailure(sale, limits).Some?
  }

  /** The message of an invalid row repeats a cell that cannot be stored. */
  predicate EchoRefused(row: RawRow, limits: Limits) {
    match CheckRow(row, limits)
    case Rejected(UnknownMarketplace(text)) => !Storable(text, limits)
    case Rejected(DisallowedCurrency(text)) => !Storable(text, limits)
    case Rejected(InvalidNumber(text)) => !Storable(text, limits)
    case Rejected(InvalidDate(text)) => !Storable(text, limits)
    case _ => false
  }

  /** The kind of actor that an audit event names: the text before the first colon. */
  function ActorType(actor: string): string {
    if actor == "" || actor[0] == ':' then "" else [actor[0]] + ActorType(actor[1..])
  }

  predicate HeaderFits(header: Header, limits: Limits) {
    Fits(header.source, 20, limits) && Fits(header.actor, 200, limits)
  }

  /** What the loop has done so far. */
  datatype Progress = Progress(
    sales: seq<Sale>,
    records: seq<RowRecord>,
    imported: nat,
    failed: nat,
    duplicates: nat)

  /** One row: recorded as failed, as not written, as a duplicate, or as imported. */
  function ImportRow(p: Progress, item: nat, row: RawRow, limits: Limits, write: bool, dryRun: bool)
    : Result<Progress, ImportFailure>
  {
    var number := |p.records| + 1;
    if !ValidRow(row, limits) then
      if EchoRefused(row, limits) then Err(Unstorable)
      else Ok(p.(records := p.records + [RowRecord(number, row, Failed)], failed := p.failed + 1))
    else if !write then
      Ok(p.(records := p.records + [RowRecord(number, row, if dryRun then Validated else Skipped)]))
    else if Stored(p.sales, SaleOf(item, row)) then
      Ok(p.(records := p.records + [RowRecord(number, row, Duplicate)], duplicates := p.duplicates + 1))
    else if RefusedByStore(SaleOf(item, row), limits) then Err(StoreFailure(SaleOf(item, row), limits).value)
    else
      Ok(p.(sales := p.sales + [SaleOf(item, row)],
            records := p.records + [RowRecord(number, row, Imported)],
            imported := p.imported + 1))
  }

  function ImportAll(sales: seq<Sale>, item: nat, rows: seq<RawRow>, limits: Limits, write: bool, dryRun: bool)
    : Result<Progress, ImportFailure>
  {
    if rows == [] then Ok(Progress(sales, [], 0, 0, 0))
    else
      var before := ImportAll(sales, item, rows[..|rows| - 1], limits, write, dryRun);
      if before.Err? then before
      else ImportRow(before.value, item, rows[|rows| - 1], limits, write, dryRun)
  }

  predicate AllValid(rows: seq<RawRow>, limits: Limits) {
    forall i :: 0 <= i < |rows| ==> ValidRow(rows[i], limits)
  }

  /** Rows are written unless this is a dry run, or an all-or-nothing import with an invalid row. */
  predicate Writes(rows: seq<RawRow>, limits: Limits, dryRun: bool, allOrNothing: bool) {
    !dryRun && (!allOrNothing || AllValid(rows, limits))
  }

  predicate NoneRaises(rows: seq<RawRow>, limits: Limits) {
    forall i :: 0 <= i < |rows| ==> !RaisesOn(rows[i], limits)
  }

  /** The whole import as a function of the stored items and comparables. Every row is validated before
      the record of the import is written, and that before any row; the audit event comes last. */
  function Import(items: set<nat>, sales: seq<Sale>, header: Header, rows: seq<RawRow>, limits: Limits,
                  dryRun: bool, allOrNothing: bool): Result<Progress, ImportFailure>
  {
    if |rows| > limits.maxRows then Err(TooManyRows)
    else if !NoneRaises(rows, limits) then Err(InvalidComparison)
    else if !HeaderFits(header, limits) then Err(Unstorable)
    else if header.item !in items then Err(UnknownItem)
    else
      var written := ImportAll(sales, header.item, rows, limits, Writes(rows, limits, dryRun, allOrNothing), dryRun);
      if written.Ok? && |ActorType(header.actor)| > 50 then Err(Unstorable) else written
  }

  function StatusOf(p: Progress, rows: seq<RawRow>, limits: Limits, dryRun: bool, allOrNothing: bool): ImportStatus {
    if dryRun then DryRun
    else if allOrNothing && !AllValid(rows, limits) then RolledBack
    else if p.failed > 0 && p.imported == 0 then AllFailed
    else Completed
  }

  method ValidateRows(rows: seq<RawRow>, limits: Limits) returns (raised: bool, invalid: bool)
    ensures raised <==> !NoneRaises(rows, limits)
    ensures !raised ==> (invalid <==> !AllValid(rows, limits))
  {
    invalid := false;
    for i := 0 to |rows|
      invariant NoneRaises(rows[..i], limits)
      invariant invalid <==> !AllValid(rows[..i], limits)
    {
      assert rows[..i + 1] == rows[..i] + [rows[i]];
      var check := CheckRow(rows[i], limits);
      if check.Raised? {
        assert RaisesOn(rows[i], limits);
        return true, invalid;
      }
      invalid := invalid || check.Rejected?;
    }
    assert rows[..|rows|] == rows;
    raised := false;
  }

  /** The body of the loop, for the next row. */
  method WriteRow(p: Progress, item: nat, row: RawRow, limits: Limits, write: bool, dryRun: bool)
    returns (r: Result<Progress, ImportFailure>)
    ensures r == ImportRow(p, item, row, limits, write, dryRun)
  {
    var number := |p.records| + 1;
    if !ValidRow(row, limits) {
      if EchoRefused(row, limits) {
        return Err(Unstorable);
      }
      return Ok(p.(records := p.records + [RowRecord(number, row, Failed)], failed := p.failed + 1));
    }
    if !write {
      return Ok(p.(records := p.records + [RowRecord(number, row, if dryRun then Validated else Skipped)]));
    }
    var sale := SaleOf(item, row);
    if Stored(p.sales, sale) {
      return Ok(p.(records := p.records + [RowRecord(number, row, Duplicate)], duplicates := p.duplicates + 1));
    }
    var failure := StoreFailure(sale, limits);
    if failure.Some? {
      return Err(failure.value);
    }
    return Ok(p.(sales := p.sales + [sale], records := p.records + [RowRecord(number, row, Imported)],
                 imported := p.imported + 1));
  }

  /** The loop over the rows, inside the transaction. */
  method WriteRows(sales: seq<Sale>, item: nat, rows: seq<RawRow>, limits: Limits, write: bool, dryRun: bool)
    returns (r: Result<Progress, ImportFailure>)
    ensures r == ImportAll(sales, item, rows, limits, write, dryRun)
  {
    r := Ok(Progress(sales, [], 0, 0, 0));
    for i := 0 to |rows|
      invariant r.Ok? && r == ImportAll(sales, item, rows[..i], limits, write, dryRun)
    {
      OneRowMore(sales, item, rows, limits, write, dryRun, i);
      r := WriteRow(r.value, item, rows[i], limits, write, dryRun);
      if r.Err? {
        AbortIsFinal(sales, item, rows, limits, write, dryRun, i + 1);
        return;
      }
    }
    assert rows[..|rows|] == rows;
  }

  lemma OneRowMore(sales: seq<Sale>, item: nat, rows: seq<RawRow>, limits: Limits, write: bool, dryRun: bool, i: nat)
    requires i < |rows| && ImportAll(sales, item, rows[..i], limits, write, dryRun).Ok?
    ensures ImportAll(sales, item, rows[..i + 1], limits, write, dryRun) ==
            ImportRow(ImportAll(sales, item, rows[..i], limits, write, dryRun).value, item, rows[i], limits, write, dryRun)
  {
    assert rows[..i + 1][..i] == rows[..i];
  }

  /** An import that aborts on a prefix of its rows aborts. */
  lemma {:induction false} AbortIsFinal(sales: seq<Sale>, item: nat, rows: seq<RawRow>, limits: Limits,
                                        write: bool, dryRun: bool, n: nat)
    requires n <= |rows| && ImportAll(sales, item, rows[..n], limits, write, dryRun).Err?
    ensures ImportAll(sales, item, rows, limits, write, dryRun)
         == ImportAll(sales, item, rows[..n], limits, write, dryRun)
  {
    if n == |rows| {
      assert rows[..n] == rows;
    } else {
      var shorter := rows[..|rows| - 1];
      assert shorter[..n] == rows[..n];
      AbortIsFinal(sales, item, shorter, limits, write, dryRun, n);
    }
  }

  // ---------------------------------------------------------------- conservation

  function Count(records: seq<RowRecord>, status: RowStatus): nat {
    if records == [] then 0
    else Count(records[..|records| - 1], status) + if records[|records| - 1].status == status then 1 else 0
  }

  lemma CountLast(records: seq<RowRecord>, last: RowRecord, status: RowStatus)
    ensures Count(records + [last], status) == Count(records, status) + if last.status == status then 1 else 0
  {
    assert (records + [last])[..|records|] == records;
  }

  /** Every row has exactly one record, numbered in order. */
  ghost predicate RecordsRows(rows: seq<RawRow>, records: seq<RowRecord>) {
    |records| == |rows|
    && forall i :: 0 <= i < |rows| ==> records[i].number == i + 1 && records[i].raw == rows[i]
  }

  /** The counters say how the recorded rows ended, and the store grew by the imported ones. */
  ghost predicate CountsRecords(sales: seq<Sale>, p: Progress) {
    && p.imported == Count(p.records, Imported)
    && p.failed == Count(p.records, Failed)
    && p.duplicates == Count(p.records, Duplicate)
    && |p.records| == p.imported + p.failed + p.duplicates + Count(p.records, Validated) + Count(p.records, Skipped)
    && sales <= p.sales && |p.sales| == |sales| + p.imported
  }

  lemma RowConserves(sales: seq<Sale>, item: nat, row: RawRow, limits: Limits, write: bool, dryRun: bool, p: Progress)
    requires CountsRecords(sales, p) && ImportRow(p, item, row, limits, write, dryRun).Ok?
    ensures CountsRecords(sales, ImportRow(p, item, row, limits, write, dryRun).value)
  {
    var after := ImportRow(p, item, row, limits, write, dryRun).value;
    var last := after.records[|p.records|];
    assert after.records == p.records + [last];
    forall status | true
      ensures Count(after.records, status) == Count(p.records, status) + if last.status == status then 1 else 0
    {
      CountLast(p.records, last, status);
    }
  }

  lemma RowRecorded(rest: seq<RawRow>, item: nat, row: RawRow, limits: Limits, write: bool, dryRun: bool, p: Progress)
    requires RecordsRows(rest, p.records) && ImportRow(p, item, row, limits, write, dryRun).Ok?
    ensures RecordsRows(rest + [row], ImportRow(p, item, row, limits, write, dryRun).value.records)
  {
    var after := ImportRow(p, item, row, limits, write, dryRun).value;
    assert after.records[..|rest|] == p.records;
  }

  lemma {:induction false} ImportRecordsRows(sales: seq<Sale>, item: nat, rows: seq<RawRow>, limits: Limits,
                                             write: bool, dryRun: bool)
    requires ImportAll(sales, item, rows, limits, write, dryRun).Ok?
    ensures RecordsRows(rows, ImportAll(sales, item, rows, limits, write, dryRun).value.records)
  {
    if rows != [] {
      var rest, row := rows[..|rows| - 1], rows[|rows| - 1];
      ImportRecordsRows(sales, item, rest, limits, write, dryRun);
      RowRecorded(rest, item, row, limits, write, dryRun, ImportAll(sales, item, rest, limits, write, dryRun).value);
      assert rows == rest + [row];
    }
  }

  lemma {:induction false} ImportCounts(sales: seq<Sale>, item: nat, rows: seq<RawRow>, limits: Limits,
                                        write: bool, dryRun: bool)
    requires ImportAll(sales, item, rows, limits, write, dryRun).Ok?
    ensures CountsRecords(sales, ImportAll(sales, item, rows, limits, write, dryRun).value)
  {
    if rows != [] {
      var rest, row := rows[..|rows| - 1], rows[|rows| - 1];
      ImportCounts(sales, item, rest, limits, write, dryRun);
      RowConserves(sales, item, row, limits, write, dryRun, ImportAll(sales, item, rest, limits, write, dryRun).value);
    }
  }

  /** Every row gets exactly one record, and total = imported + failed + duplicates + unwritten. */
  lemma ImportConserves(sales: seq<Sale>, item: nat, rows: seq<RawRow>, limits: Limits, write: bool, dryRun: bool, p: Progress)
    requires ImportAll(sales, item, rows, limits, write, dryRun) == Ok(p)
    ensures RecordsRows(rows, p.records) && CountsRecords(sales, p)
  {
    ImportRecordsRows(sales, item, rows, limits, write, dryRun);
    ImportCounts(sales, item, rows, limits, write, dryRun);
  }

  /** Stored identities stay unique. */
  lemma {:induction false} IdentitiesStayUnique(sales: seq<Sale>, item: nat, rows: seq<RawRow>, limits: Limits,
                                                write: bool, dryRun: bool, p: Progress)
    requires UniqueIdentities(sales) && ImportAll(sales, item, rows, limits, write, dryRun) == Ok(p)
    ensures UniqueIdentities(p.sales)
  {
    if rows != [] {
      var rest := rows[..|rows| - 1];
      var before := ImportAll(sales, item, rest, limits, write, dryRun).value;
      IdentitiesStayUnique(sales, item, rest, limits, write, dryRun, before);
    }
  }

  predicate NoneEchoes(rows: seq<RawRow>, limits: Limits) {
    forall i :: 0 <= i < |rows| ==> !EchoRefused(rows[i], limits)
  }

  /** Without writing, only the message of an invalid row can abort, and no comparable is stored. */
  lemma {:induction false} UnwrittenImport(sales: seq<Sale>, item: nat, rows: seq<RawRow>, limits: Limits, dryRun: bool)
    ensures var r := ImportAll(sales, item, rows, limits, false, dryRun);
            && (r.Ok? <==> NoneEchoes(rows, limits))
            && (r.Ok? ==> r.value.sales == sales && r.value.imported == 0 && r.value.duplicates == 0)
  {
    if rows != [] {
      var rest := rows[..|rows| - 1];
      UnwrittenImport(sales, item, rest, limits, dryRun);
      NoneEchoesInit(rows, limits);
    }
  }

  lemma NoneEchoesInit(rows: seq<RawRow>, limits: Limits)
    requires rows != []
    ensures NoneEchoes(rows, limits) <==> NoneEchoes(rows[..|rows| - 1], limits) && !EchoRefused(rows[|rows| - 1], limits)
  {
    var rest := rows[..|rows| - 1];
    assert rows == rest + [rows[|rows| - 1]];
    assert forall i | 0 <= i < |rest| :: rest[i] == rows[i];
  }

  /** An all-or-nothing import with an invalid row leaves the store as it was. */
  lemma AllOrNothing(items: set<nat>, sales: seq<Sale>, header: Header, rows: seq<RawRow>, limits: Limits, dryRun: bool,
                     p: Progress)
    requires Import(items, sales, header, rows, limits, dryRun, true) == Ok(p) && !AllValid(rows, limits)
    ensures p.sales == sales && p.imported == 0
    ensures StatusOf(p, rows, limits, dryRun, true) == if dryRun then DryRun else RolledBack
  {
    UnwrittenImport(sales, header.item, rows, limits, dryRun);
  }

  // ---------------------------------------------------------------- importing again

  lemma StoredGrows(sales: seq<Sale>, more: seq<Sale>, sale: Sale)
    requires sales <= more && Stored(sales, sale)
    ensures Stored(more, sale)
  {
    var i :| 0 <= i < |sales| && SameIdentity(sales[i], sale);
    assert SameIdentity(more[i], sale);
  }

  /** After a written import every valid row is in the store. */
  lemma {:induction false} ValidRowsAreStored(sales: seq<Sale>, item: nat, rows: seq<RawRow>, limits: Limits,
                                              dryRun: bool, p: Progress, i: nat)
    requires ImportAll(sales, item, rows, limits, true, dryRun) == Ok(p)
    requires i < |rows| && ValidRow(rows[i], limits)
    ensures Stored(p.sales, SaleOf(item, rows[i]))
  {
    var rest := rows[..|rows| - 1];
    var before := ImportAll(sales, item, rest, limits, true, dryRun).value;
    if i < |rest| {
      ValidRowsAreStored(sales, item, rest, limits, dryRun, before, i);
      StoredGrows(before.sales, p.sales, SaleOf(item, rows[i]));
    } else if !Stored(before.sales, SaleOf(item, rows[i])) {
      assert SameIdentity(p.sales[|p.sales| - 1], SaleOf(item, rows[i]));
    }
  }

  /** Rows whose valid members are all stored import nothing and change nothing. */
  lemma {:induction false} StoredRowsImportNothing(sales: seq<Sale>, item: nat, rows: seq<RawRow>, limits: Limits,
                                                   write: bool, dryRun: bool)
    requires NoneEchoes(rows, limits)
    requires forall i :: 0 <= i < |rows| && ValidRow(rows[i], limits) ==> Stored(sales, SaleOf(item, rows[i]))
    ensures var r := ImportAll(sales, item, rows, limits, write, dryRun);
            r.Ok? && r.value.sales == sales && r.value.imported == 0
  {
    if rows != [] {
      var rest := rows[..|rows| - 1];
      NoneEchoesInit(rows, limits);
      StoredRowsImportNothing(sales, item, rest, limits, write, dryRun);
    }
  }

  lemma {:induction false} CommittedRowsEchoNothing(sales: seq<Sale>, item: nat, rows: seq<RawRow>, limits: Limits,
                                                    write: bool, dryRun: bool)
    requires ImportAll(sales, item, rows, limits, write, dryRun).Ok?
    ensures NoneEchoes(rows, limits)
  {
    if rows != [] {
      CommittedRowsEchoNothing(sales, item, rows[..|rows| - 1], limits, write, dryRun);
      NoneEchoesInit(rows, limits);
    }
  }

  /** Importing the same rows a second time, in any mode, imports none of them and leaves the store alone. */
  lemma ReimportIsNoOp(items: set<nat>, sales: seq<Sale>, header: Header, rows: seq<RawRow>, limits: Limits,
                       allOrNothing: bool, p: Progress, dryRunAgain: bool, allOrNothingAgain: bool)
    requires Import(items, sales, header, rows, limits, false, allOrNothing) == Ok(p)
    requires Writes(rows, limits, false, allOrNothing)
    ensures var again := Import(items, p.sales, header, rows, limits, dryRunAgain, allOrNothingAgain);
            again.Ok? && again.value.sales == p.sales && again.value.imported == 0
  {
    var item := header.item;
    forall i | 0 <= i < |rows| && ValidRow(rows[i], limits)
      ensures Stored(p.sales, SaleOf(item, rows[i]))
    {
      ValidRowsAreStored(sales, item, rows, limits, false, p, i);
    }
    CommittedRowsEchoNothing(sales, item, rows, limits, true, false);
    StoredRowsImportNothing(p.sales, item, rows, limits, Writes(rows, limits, dryRunAgain, allOrNothingAgain), dryRunAgain);
  }

  // ---------------------------------------------------------------- aborting

  /** A valid row that the store refuses, whose identity neither the store nor an earlier valid row has. */
  ghost predicate AbortsAt(sales: seq<Sale>, item: nat, rows: seq<RawRow>, limits: Limits, i: int) {
    && 0 <= i < |rows| && ValidRow(rows[i], limits) && RefusedByStore(SaleOf(item, rows[i]), limits)
    && !Stored(sales, SaleOf(item, rows[i]))
    && forall j :: 0 <= j < i && ValidRow(rows[j], limits) ==>
         !SameIdentity(SaleOf(item, rows[j]), SaleOf(item, rows[i]))
  }

  /** What the store holds during a written import: the old store and the valid rows so far. */
  lemma {:induction false} StoredDuringImport(sales: seq<Sale>, item: nat, rows: seq<RawRow>, limits: Limits,
                                              dryRun: bool, p: Progress, sale: Sale)
    requires ImportAll(sales, item, rows, limits, true, dryRun) == Ok(p)
    requires Stored(p.sales, sale) && !Stored(sales, sale)
    ensures exists j :: 0 <= j < |rows| && ValidRow(rows[j], limits) && SameIdentity(SaleOf(item, rows[j]), sale)
  {
    if rows != [] {
      var rest := rows[..|rows| - 1];
      var before := ImportAll(sales, item, rest, limits, true, dryRun).value;
      if Stored(before.sales, sale) {
        StoredDuringImport(sales, item, rest, limits, dryRun, before, sale);
        var j :| 0 <= j < |rest| && ValidRow(rest[j], limits) && SameIdentity(SaleOf(item, rest[j]), sale);
        assert rows[j] == rest[j];
      } else {
        assert SameIdentity(SaleOf(item, rows[|rest|]), sale);
      }
    }
  }

  /** The rows make a written import abort: at one whose message cannot be stored, or at the first valid
      one of an identity that is not stored, which the store refuses. */
  ghost predicate AbortsOnSome(sales: seq<Sale>, item: nat, rows: seq<RawRow>, limits: Limits) {
    !NoneEchoes(rows, limits) || exists i :: AbortsAt(sales, item, rows, limits, i)
  }

  lemma AbortsAtInit(sales: seq<Sale>, item: nat, rows: seq<RawRow>, limits: Limits)
    requires rows != []
    ensures AbortsOnSome(sales, item, rows, limits) <==>
            || AbortsOnSome(sales, item, rows[..|rows| - 1], limits)
            || EchoRefused(rows[|rows| - 1], limits) || AbortsAt(sales, item, rows, limits, |rows| - 1)
  {
    var rest := rows[..|rows| - 1];
    NoneEchoesInit(rows, limits);
    forall i | 0 <= i < |rest|
      ensures AbortsAt(sales, item, rest, limits, i) <==> AbortsAt(sales, item, rows, limits, i)
    {
      assert rest[i] == rows[i] && forall j :: 0 <= j < i ==> rest[j] == rows[j];
    }
    if i :| AbortsAt(sales, item, rest, limits, i) {
      assert AbortsAt(sales, item, rows, limits, i);
    }
  }

  /** A written import aborts exactly when its rows make it. */
  lemma {:induction false} WriteAbortsExactly(sales: seq<Sale>, item: nat, rows: seq<RawRow>, limits: Limits, dryRun: bool)
    ensures ImportAll(sales, item, rows, limits, true, dryRun).Err? <==> AbortsOnSome(sales, item, rows, limits)
  {
    if rows != [] {
      var rest := rows[..|rows| - 1];
      WriteAbortsExactly(sales, item, rest, limits, dryRun);
      AbortsAtInit(sales, item, rows, limits);
      if ImportAll(sales, item, rest, limits, true, dryRun).Ok? {
        LastRowAborts(sales, item, rows, limits, dryRun);
      }
    }
  }

  /** Before the last row, its identity is stored exactly when it was at the start or an earlier valid row has it. */
  lemma StoredBeforeLast(sales: seq<Sale>, item: nat, rest: seq<RawRow>, limits: Limits, dryRun: bool,
                         before: Progress, sale: Sale)
    requires ImportAll(sales, item, rest, limits, true, dryRun) == Ok(before)
    ensures Stored(before.sales, sale)
       <==> Stored(sales, sale)
            || exists j :: 0 <= j < |rest| && ValidRow(rest[j], limits) && SameIdentity(SaleOf(item, rest[j]), sale)
  {
    if Stored(sales, sale) {
      ImportConserves(sales, item, rest, limits, true, dryRun, before);
      StoredGrows(sales, before.sales, sale);
    } else if Stored(before.sales, sale) {
      StoredDuringImport(sales, item, rest, limits, dryRun, before, sale);
    } else {
      forall j | 0 <= j < |rest| && ValidRow(rest[j], limits)
        ensures !SameIdentity(SaleOf(item, rest[j]), sale)
      {
        ValidRowsAreStored(sales, item, rest, limits, dryRun, before, j);
      }
    }
  }

  lemma LastRowAborts(sales: seq<Sale>, item: nat, rows: seq<RawRow>, limits: Limits, dryRun: bool)
    requires rows != [] && ImportAll(sales, item, rows[..|rows| - 1], limits, true, dryRun).Ok?
    ensures ImportAll(sales, item, rows, limits, true, dryRun).Err?
       <==> EchoRefused(rows[|rows| - 1], limits) || AbortsAt(sales, item, rows, limits, |rows| - 1)
  {
    var rest := rows[..|rows| - 1];
    var before := ImportAll(sales, item, rest, limits, true, dryRun).value;
    StoredBeforeLast(sales, item, rest, limits, dryRun, before, SaleOf(item, rows[|rows| - 1]));
    assert forall j :: 0 <= j < |rest| ==> rest[j] == rows[j];
  }

  /** An import aborts exactly when it has too many rows; when a price that validation compares with zero
      is NaN; when its item is unknown, or its source or actor do not fit their columns; when the message of
      an invalid row cannot be stored; or when it writes and the store refuses the first valid row of an
      identity that it does not hold. */
  lemma AbortsExactly(items: set<nat>, sales: seq<Sale>, header: Header, rows: seq<RawRow>, limits: Limits,
                      dryRun: bool, allOrNothing: bool)
    ensures Import(items, sales, header, rows, limits, dryRun, allOrNothing).Err?
       <==> || |rows| > limits.maxRows
            || (exists i :: 0 <= i < |rows| && RaisesOn(rows[i], limits))
            || header.item !in items || !HeaderFits(header, limits) || |ActorType(header.actor)| > 50
            || (exists i :: 0 <= i < |rows| && EchoRefused(rows[i], limits))
            || (Writes(rows, limits, dryRun, allOrNothing) && exists i :: AbortsAt(sales, header.item, rows, limits, i))
  {
    if Writes(rows, limits, dryRun, allOrNothing) {
      WriteAbortsExactly(sales, header.item, rows, limits, dryRun);
    } else {
      UnwrittenImport(sales, header.item, rows, limits, dryRun);
    }
  }

  // ---------------------------------------------------------------- which cell goes where

  /** An imported comparable carries every cell of its row in its own field, with its identity cut to 300 and
      its title to 500 characters. */
  lemma ImportedSale(p: Progress, item: nat, row: RawRow, limits: Limits, write: bool, dryRun: bool)
    requires ImportRow(p, item, row, limits, write, dryRun).Ok?
    requires ImportRow(p, item, row, limits, write, dryRun).value.imported > p.imported
    ensures var after := ImportRow(p, item, row, limits, write, dryRun).value;
            && |after.sales| == |p.sales| + 1 && after.sales[..|p.sales|] == p.sales
            && var sale := after.sales[|p.sales|];
            && sale.item == item && sale.marketplace == row.marketplace && sale.currency == row.currency
            && sale.isSold == row.isSold && sale.saleDate == row.saleDate
            && sale.soldPrice == row.soldPrice && sale.listedPrice == row.listedPrice && sale.shippingPrice == row.shippingPrice
            && sale.similarity == row.similarity && sale.reliability == row.reliability
            && sale.condition == row.condition && sale.size == row.size && sale.url == row.url
            && sale.identity <= row.identity && |sale.identity| == (if |row.identity| < 300 then |row.identity| else 300)
            && sale.title <= row.title && |sale.title| == (if |row.title| < 500 then |row.title| else 500)
  {}

  predicate Readable(n: Number) {
    !n.Malformed?
  }

  /** A price that validation lets through: nothing, a number or an infinity that is not negative. */
  predicate PriceOk(n: Number) {
    n.Missing? || (n.Given? && n.value >= 0.0) || (n.Infinite? && !n.negative)
  }

  /** A row is valid exactly when its marketplace is known, its title and identity are there, its currency is
      allowed, both prices are acceptable, a sold one has its price, and every other number and date reads. */
  lemma ValidExactly(row: RawRow, limits: Limits)
    ensures ValidRow(row, limits) <==>
            && row.marketplace in limits.marketplaces && row.title != "" && row.identity != ""
            && row.currency in limits.currencies && PriceOk(row.soldPrice) && PriceOk(row.listedPrice)
            && (row.isSold ==> row.soldPrice != Missing)
            && Readable(row.shippingPrice) && !row.saleDate.BadDate? && Readable(row.similarity) && Readable(row.reliability)
  {}

  /** Validation raises exactly at the first price that is NaN, in a row that is otherwise in order up to it. */
  lemma RaisesExactly(row: RawRow, limits: Limits)
    ensures RaisesOn(row, limits) <==>
            && row.marketplace in limits.marketplaces && row.title != "" && row.identity != ""
            && row.currency in limits.currencies && Readable(row.soldPrice) && Readable(row.listedPrice)
            && (row.soldPrice == NotANumber || (PriceOk(row.soldPrice) && row.listedPrice == NotANumber))
  {}

  /** What each error of an invalid row says of it. */
  predicate ErrorHolds(error: RowError, row: RawRow, limits: Limits) {
    match error
    case UnknownMarketplace(text) => text == row.marketplace && row.marketplace !in limits.marketplaces
    case MissingTitle => row.title == ""
    case MissingIdentity => row.identity == ""
    case DisallowedCurrency(text) => text == row.currency && row.currency !in limits.currencies
    case InvalidNumber(text) =>
      Malformed(text) in {row.soldPrice, row.listedPrice, row.shippingPrice, row.similarity, row.reliability}
    case NegativePrice => Negative(row.soldPrice) || Negative(row.listedPrice)
    case SoldWithoutPrice => row.isSold && row.soldPrice == Missing
    case InvalidDate(text) => row.saleDate == BadDate(text)
  }

  lemma ErrorsHold(row: RawRow, limits: Limits)
    requires CheckRow(row, limits).Rejected?
    ensures ErrorHolds(CheckRow(row, limits).error, row, limits)
  {}

  /** How each row of an import ends: failed exactly when it is invalid; not written, a duplicate or imported
      exactly as writing and the store say. */
  lemma RowEndsAs(p: Progress, item: nat, row: RawRow, limits: Limits, write: bool, dryRun: bool)
    requires ImportRow(p, item, row, limits, write, dryRun).Ok?
    ensures var after := ImportRow(p, item, row, limits, write, dryRun).value;
            && |after.records| == |p.records| + 1
            && var status := after.records[|p.records|].status;
            && (status == Failed <==> !ValidRow(row, limits))
            && (status == Validated <==> ValidRow(row, limits) && !write && dryRun)
            && (status == Skipped <==> ValidRow(row, limits) && !write && !dryRun)
            && (status == Duplicate <==> (ValidRow(row, limits) && write && Stored(p.sales, SaleOf(item, row))))
            && (status == Imported <==> after.imported == p.imported + 1)
  {}

  /** The comparable's identity is stored exactly when one of the same item and marketplace has it. */
  lemma StoredExactly(sales: seq<Sale>, item: nat, row: RawRow)
    ensures Stored(sales, SaleOf(item, row)) <==>
            exists k :: 0 <= k < |sales| && sales[k].item == item && sales[k].marketplace == row.marketplace
                        && sales[k].identity == Prefix(row.identity, 300)
  {
    if k: int :| 0 <= k < |sales| && sales[k].item == item && sales[k].marketplace == row.marketplace
                 && sales[k].identity == Prefix(row.identity, 300) {
      assert SameIdentity(sales[k], SaleOf(item, row));
    }
  }

  predicate HasUnstorable(text: string, limits: Limits) {
    exists c | c in text :: c in limits.unstorable
  }

  predicate BadText(text: Option<string>, width: nat, limits: Limits) {
    text.Some? && (|text.value| > width || HasUnstorable(text.value, limits))
  }

  /** What the store and the columns refuse, in the cells of the row. */
  lemma RefusedExactly(item: nat, row: RawRow, limits: Limits)
    requires ValidRow(row, limits)
    ensures RefusedByStore(SaleOf(item, row), limits) <==>
            || row.shippingPrice == NotANumber || Negative(row.shippingPrice)
            || HasUnstorable(Prefix(row.identity, 300), limits) || HasUnstorable(Prefix(row.title, 500), limits)
            || BadText(Some(row.currency), 3, limits) || BadText(row.condition, 100, limits)
            || BadText(row.size, 50, limits) || BadText(row.url, 2000, limits)
            || TooLarge(row.soldPrice, 9_999_999_999.995) || TooLarge(row.listedPrice, 9_999_999_999.995)
            || TooLarge(row.shippingPrice, 9_999_999_999.995)
            || TooLarge(row.similarity, 9.9995) || TooLarge(row.reliability, 9.9995)
            || TooLarge(Negated(row.similarity), 9.9995) || TooLarge(Negated(row.reliability), 9.9995)
  {
    PricesFit(row.soldPrice);
    PricesFit(row.listedPrice);
    if !Negative(row.shippingPrice) {
      PricesFit(row.shippingPrice);
    }
    ScoresFit(row.similarity);
    ScoresFit(row.reliability);
    TextFits(Some(row.currency), 3, limits);
    TextFits(row.condition, 100, limits);
    TextFits(row.size, 50, limits);
    TextFits(row.url, 2000, limits);
    assert Storable(Prefix(row.identity, 300), limits) <==> !HasUnstorable(Prefix(row.identity, 300), limits);
    assert Storable(Prefix(row.title, 500), limits) <==> !HasUnstorable(Prefix(row.title, 500), limits);
  }

  lemma TextFits(text: Option<string>, width: nat, limits: Limits)
    ensures FitsIfGiven(text, width, limits) <==> !BadText(text, width, limits)
  {}

  /** At or over a bound, or infinite. */
  predicate TooLarge(n: Number, bound: real) {
    (n.Given? && n.value >= bound) || (n.Infinite? && !n.negative)
  }

  function Negated(n: Number): Number {
    match n
    case Given(value) => Given(-value)
    case Infinite(negative) => Infinite(!negative)
    case _ => n
  }

  lemma PricesFit(n: Number)
    requires !Negative(n)
    ensures InPriceColumn(n) <==> !TooLarge(n, 9_999_999_999.995)
  {}

  lemma ScoresFit(n: Number)
    ensures InScoreColumn(n) <==> !TooLarge(n, 9.9995) && !TooLarge(Negated(n), 9.9995)
  {}

  /** The message of an invalid row cannot be stored exactly when it repeats an unknown marketplace, a
      disallowed currency, or a number or date that does not read, with a character that cannot be. */
  lemma EchoRefusedExactly(row: RawRow, limits: Limits)
    ensures EchoRefused(row, limits) <==>
            && CheckRow(row, limits).Rejected?
            && var error := CheckRow(row, limits).error;
            && (error.UnknownMarketplace? || error.DisallowedCurrency? || error.InvalidNumber? || error.InvalidDate?)
            && HasUnstorable(error.text, limits)
  {}

  /** The record of an import fits exactly for a source of up to 20 and an actor of up to 200 storable characters. */
  lemma HeaderFitsExactly(header: Header, limits: Limits)
    ensures HeaderFits(header, limits) <==>
            !BadText(Some(header.source), 20, limits) && !BadText(Some(header.actor), 200, limits)
  {}

  /** The kind of an actor is the longest beginning of its name without a colon. */
  lemma {:induction false} ActorTypeIs(actor: string)
    ensures var kind := ActorType(actor);
            && kind <= actor && ':' !in kind && (|kind| < |actor| ==> actor[|kind|] == ':')
  {
    if actor != "" && actor[0] != ':' {
      ActorTypeIs(actor[1..]);
    }
  }

  /** When rows are written, and the status an import ends with. */
  lemma ImportEndsAs(p: Progress, rows: seq<RawRow>, limits: Limits, dryRun: bool, allOrNothing: bool)
    ensures Writes(rows, limits, dryRun, allOrNothing) <==>
            !dryRun && (allOrNothing ==> forall row | row in rows :: ValidRow(row, limits))
    ensures var status := StatusOf(p, rows, limits, dryRun, allOrNothing);
            && (status == DryRun <==> dryRun)
            && (status == RolledBack <==> !dryRun && allOrNothing && exists row | row in rows :: !ValidRow(row, limits))
            && (status == AllFailed <==>
                  && !dryRun && !(allOrNothing && exists row | row in rows :: !ValidRow(row, limits))
                  && p.failed > 0 && p.imported == 0)
  {
    if forall row | row in rows :: ValidRow(row, limits) {
      assert forall i | 0 <= i < |rows| :: rows[i] in rows;
    }
  }

  /** Which failure a row aborts with: for a comparable that is not stored, a NaN shipping price first, then a
      negative one, and then a cell that does not fit; for an invalid row, its message. */
  lemma RowFailures(p: Progress, item: nat, row: RawRow, limits: Limits, write: bool, dryRun: bool)
    ensures var r, sale := ImportRow(p, item, row, limits, write, dryRun), SaleOf(item, row);
            var inserts := ValidRow(row, limits) && write && !Stored(p.sales, sale);
            && (r == Err(InvalidComparison) <==> (inserts && row.shippingPrice == NotANumber))
            && (r == Err(NegativeShipping) <==> (inserts && Negative(row.shippingPrice)))
            && (r == Err(Unstorable) <==>
                  || EchoRefused(row, limits)
                  || (inserts && row.shippingPrice != NotANumber && !Negative(row.shippingPrice) && !FitsColumns(sale, limits)))
            && r != Err(TooManyRows) && r != Err(UnknownItem)
  {}

  /** Which failure an import aborts with before any row is written. */
  lemma ImportFailures(items: set<nat>, sales: seq<Sale>, header: Header, rows: seq<RawRow>, limits: Limits,
                       dryRun: bool, allOrNothing: bool)
    ensures var r := Import(items, sales, header, rows, limits, dryRun, allOrNothing);
            var raises := exists i :: 0 <= i < |rows| && RaisesOn(rows[i], limits);
            && (r == Err(TooManyRows) <==> |rows| > limits.maxRows)
            && (|rows| <= limits.maxRows && raises ==> r == Err(InvalidComparison))
            && (|rows| <= limits.maxRows && !raises && !HeaderFits(header, limits) ==> r == Err(Unstorable))
            && (r == Err(UnknownItem) <==>
                  |rows| <= limits.maxRows && !raises && HeaderFits(header, limits) && header.item !in items)
  {
    NeverUnknown(sales, header.item, rows, limits, Writes(rows, limits, dryRun, allOrNothing), dryRun);
  }

  lemma {:induction false} NeverUnknown(sales: seq<Sale>, item: nat, rows: seq<RawRow>, limits: Limits, write: bool, dryRun: bool)
    ensures ImportAll(sales, item, rows, limits, write, dryRun) != Err(TooManyRows)
    ensures ImportAll(sales, item, rows, limits, write, dryRun) != Err(UnknownItem)
  {
    if rows != [] {
      NeverUnknown(sales, item, rows[..|rows| - 1], limits, write, dryRun);
    }
  }

  // ---------------------------------------------------------------- the import as one transaction

  /** The stored items and comparables, and the row records of every committed import. */
  class ImportStore {
    var items: set<nat>
    var sales: seq<Sale>
    var records: seq<RowRecord>
    var imports: seq<Summary>

    ghost predicate Valid()
      reads this
    {
      UniqueIdentities(sales)
    }

    constructor (items: set<nat>)
      ensures Valid() && this.items == items && sales == [] && records == [] && imports == []
    {
      this.items := items;
      sales, records, imports := [], [], [];
    }

    /** One transaction: on an exception nothing is committed. */
    method ImportRows(header: Header, rows: seq<RawRow>, limits: Limits, dryRun: bool, allOrNothing: bool)
      returns (r: Result<Summary, ImportFailure>)
      requires Valid()
      modifies this`sales, this`records, this`imports
      ensures Valid()
      ensures var import' := Import(items, old(sales), header, rows, limits, dryRun, allOrNothing);
              if import'.Err? then
                r == Err(import'.error)
                && sales == old(sales) && records == old(records) && imports == old(imports)
              else
                var p := import'.value;
                sales == p.sales && records == old(records) + p.records
                && r == Ok(Summary(|rows|, p.imported, p.failed, p.duplicates,
                                   StatusOf(p, rows, limits, dryRun, allOrNothing)))
                && imports == old(imports) + [r.value]
    {
      if |rows| > limits.maxRows {
        return Err(TooManyRows);
      }
      var raised, invalid := ValidateRows(rows, limits);
      if raised {
        return Err(InvalidComparison);
      }
      if !HeaderFits(header, limits) {
        return Err(Unstorable);
      }
      if header.item !in items {
        return Err(UnknownItem);
      }
      var outcome := WriteRows(sales, header.item, rows, limits, !dryRun && !(allOrNothing && invalid), dryRun);
      if outcome.Err? {
        return Err(outcome.error);
      } else if |ActorType(header.actor)| > 50 {
        return Err(Unstorable);
      } else {
        var p := outcome.value;
        IdentitiesStayUnique(sales, header.item, rows, limits, !dryRun && !(allOrNothing && invalid), dryRun, p);
        var status := if dryRun then DryRun
                      else if allOrNothing && invalid then RolledBack
                      else if p.failed > 0 && p.imported == 0 then AllFailed
                      else Completed;
        r := Ok(Summary(|rows|, p.imported, p.failed, p.duplicates, status));
        sales, records, imports := p.sales, records + p.records, imports + [r.value];
      }
    }
  }
}
