/** The fixed-asset register, the depreciation ledger, and an asset's own book value. */
module AssetReports {
  import opened Prelude

  type AssetId = nat

  // Dates are day numbers.
  type Date = int

  datatype ScheduleRow = ScheduleRow(date: Date, amount: real, posted: bool)

  datatype Asset = Asset(id: AssetId, category: string, submitted: bool, status: string,
                         gross: real, opening: real, adjustment: real, schedule: seq<ScheduleRow>)
  {
    function AccumulatedDepreciation(): real {
      opening + PostedTotal(schedule) + adjustment
    }

    function BookValue(): real {
      gross - AccumulatedDepreciation()
    }
  }

  function PostedTotal(rows: seq<ScheduleRow>): real {
    if rows == [] then 0.0
    else
      var last := rows[|rows|-1];
      PostedTotal(rows[..|rows|-1]) + if last.posted then last.amount else 0.0
  }

  // --- Register ---

  datatype RegisterRow = RegisterRow(asset: AssetId, accumulated: real, bookValue: real)

  function PostedUpTo(rows: seq<ScheduleRow>, asOf: Date): real {
    if rows == [] then 0.0
    else
      var last := rows[|rows|-1];
      PostedUpTo(rows[..|rows|-1], asOf) + if last.posted && last.date <= asOf then last.amount else 0.0
  }

  function AccumulatedAsOf(a: Asset, asOf: Date): real {
    a.opening + a.adjustment + PostedUpTo(a.schedule, asOf)
  }

  function RowFor(a: Asset, asOf: Date): RegisterRow {
    RegisterRow(a.id, AccumulatedAsOf(a, asOf), a.gross - AccumulatedAsOf(a, asOf))
  }

  predicate Listed(a: Asset, category: Option<string>, includeDisposed: bool) {
    a.submitted && (category.None? || a.category == category.value)
    && (includeDisposed || (a.status != "Sold" && a.status != "Scrapped"))
  }

  function RegisterOf(assets: seq<Asset>, asOf: Date, category: Option<string>, includeDisposed: bool): seq<RegisterRow> {
    if assets == [] then []
    else
      var last := assets[|assets|-1];
      RegisterOf(assets[..|assets|-1], asOf, category, includeDisposed)
      + if Listed(last, category, includeDisposed) then [RowFor(last, asOf)] else []
  }

  method PostedToDate(rows: seq<ScheduleRow>, asOf: Date) returns (total: real)
    ensures total == PostedUpTo(rows, asOf)
  {
    total := 0.0;
    for j := 0 to |rows|
      invariant total == PostedUpTo(rows[..j], asOf)
    {
      assert rows[..j+1][..j] == rows[..j];
      if rows[j].posted && rows[j].date <= asOf {
        total := total + rows[j].amount;
      }
    }
    assert rows[..|rows|] == rows;
  }

  method FixedAssetRegister(assets: seq<Asset>, asOf: Date, category: Option<string>, includeDisposed: bool)
    returns (rows: seq<RegisterRow>)
    ensures rows == RegisterOf(assets, asOf, category, includeDisposed)
  {
    rows := [];
    for i := 0 to |assets|
      invariant rows == RegisterOf(assets[..i], asOf, category, includeDisposed)
    {
      assert assets[..i+1][..i] == assets[..i];
      var a := assets[i];
      if !a.submitted || (category.Some? && a.category != category.value) {
        continue;
      }
      if !includeDisposed && (a.status == "Sold" || a.status == "Scrapped") {
        continue;
      }
      var posted := PostedToDate(a.schedule, asOf);
      var accumulated := a.opening + a.adjustment + posted;
      rows := rows + [RegisterRow(a.id, accumulated, a.gross - accumulated)];
    }
    assert assets[..|assets|] == assets;
  }

  // The asset is submitted, in the category if one is asked for, and not gone unless disposed ones
  // are asked for.
  ghost predicate Reported(a: Asset, category: Option<string>, includeDisposed: bool) {
    && a.submitted
    && (category.Some? ==> a.category == category.value)
    && (a.status in {"Sold", "Scrapped"} ==> includeDisposed)
  }

  // What was posted up to the date, over the first n schedule rows.
  ghost function Posted(a: Asset, asOf: Date, n: nat): real
    requires n <= |a.schedule|
  {
    if n == 0 then 0.0
    else
      var row := a.schedule[n-1];
      Posted(a, asOf, n - 1) + if row.posted && row.date <= asOf then row.amount else 0.0
  }

  lemma {:induction false} PostedIs(a: Asset, asOf: Date, n: nat)
    requires n <= |a.schedule|
    ensures PostedUpTo(a.schedule[..n], asOf) == Posted(a, asOf, n)
  {
    if n > 0 {
      PostedIs(a, asOf, n - 1);
      assert a.schedule[..n][..n-1] == a.schedule[..n-1];
    }
  }

  ghost function Reporting(category: Option<string>, includeDisposed: bool): Asset -> bool {
    (a: Asset) => Reported(a, category, includeDisposed)
  }

  ghost predicate Figured(a: Asset, asOf: Date, row: RegisterRow) {
    && row.asset == a.id
    && row.accumulated == a.opening + a.adjustment + Posted(a, asOf, |a.schedule|)
    && row.accumulated + row.bookValue == a.gross
  }

  ghost predicate Figures(assets: seq<Asset>, asOf: Date, ks: seq<nat>, rows: seq<RegisterRow>) {
    |rows| == |ks| && forall j | 0 <= j < |ks| :: ks[j] < |assets| && Figured(assets[ks[j]], asOf, rows[j])
  }

  /** The register has one row for each asset to report, in sequence: what had been depreciated when
      the asset was entered, adjustments and what was posted up to the date, and what of the gross
      value is left. */
  lemma {:induction false} RegisterShows(assets: seq<Asset>, asOf: Date, category: Option<string>, includeDisposed: bool)
    returns (ks: seq<nat>)
    ensures Kept(assets, Reporting(category, includeDisposed), ks)
    ensures Figures(assets, asOf, ks, RegisterOf(assets, asOf, category, includeDisposed))
  {
    hide *;
    ks := [];
    if assets == [] {
      NothingReported(asOf, category, includeDisposed);
    } else {
      var front, last := assets[..|assets|-1], assets[|assets|-1];
      ks := RegisterShows(front, asOf, category, includeDisposed);
      KeptSnoc(front, last, Reporting(category, includeDisposed), ks);
      FiguresSnoc(front, last, asOf, category, includeDisposed, ks);
      assert assets == front + [last];
      if Reporting(category, includeDisposed)(last) {
        ks := ks + [|front|];
      }
    }
  }

  lemma NothingReported(asOf: Date, category: Option<string>, includeDisposed: bool)
    ensures RegisterOf([], asOf, category, includeDisposed) == []
    ensures Kept([], Reporting(category, includeDisposed), []) && Figures([], asOf, [], [])
  {
  }

  lemma FiguresSnoc(front: seq<Asset>, last: Asset, asOf: Date, category: Option<string>, includeDisposed: bool, ks: seq<nat>)
    requires Figures(front, asOf, ks, RegisterOf(front, asOf, category, includeDisposed))
    ensures Figures(front + [last], asOf, if Reporting(category, includeDisposed)(last) then ks + [|front|] else ks,
                    RegisterOf(front + [last], asOf, category, includeDisposed))
  {
    hide *;
    RegisterSnoc(front, last, asOf, category, includeDisposed);
    FiguresOneMore(front, last, asOf, ks, RegisterOf(front, asOf, category, includeDisposed), RowFor(last, asOf));
  }

  lemma RegisterSnoc(front: seq<Asset>, last: Asset, asOf: Date, category: Option<string>, includeDisposed: bool)
    ensures RegisterOf(front + [last], asOf, category, includeDisposed) ==
      RegisterOf(front, asOf, category, includeDisposed)
      + if Reporting(category, includeDisposed)(last) then [RowFor(last, asOf)] else []
    ensures Figured(last, asOf, RowFor(last, asOf))
  {
    PostedIs(last, asOf, |last.schedule|);
    assert last.schedule[..|last.schedule|] == last.schedule;
    assert (front + [last])[..|front|] == front;
    hide Posted, PostedUpTo;
  }

  lemma FiguresOneMore(front: seq<Asset>, last: Asset, asOf: Date, ks: seq<nat>, rows: seq<RegisterRow>, row: RegisterRow)
    requires Figures(front, asOf, ks, rows) && Figured(last, asOf, row)
    ensures Figures(front + [last], asOf, ks, rows + []) && Figures(front + [last], asOf, ks + [|front|], rows + [row])
  {
    hide Figured;
    assert (front + [last])[|front|] == last;
    assert rows + [] == rows;
  }

  // --- Ledger ---

  // A schedule row joined with its asset.
  datatype Entry = Entry(asset: AssetId, row: ScheduleRow)

  datatype LedgerRow = LedgerRow(asset: AssetId, date: Date, amount: real)

  predicate Selected(e: Entry, from: Option<Date>, to: Option<Date>, asset: Option<AssetId>) {
    && e.row.posted
    && (from.None? || from.value <= e.row.date)
    && (to.None? || e.row.date <= to.value)
    && (asset.None? || e.asset == asset.value)
  }

  function LedgerOf(entries: seq<Entry>, from: Option<Date>, to: Option<Date>, asset: Option<AssetId>): seq<LedgerRow> {
    if entries == [] then []
    else
      var last := entries[|entries|-1];
      LedgerOf(entries[..|entries|-1], from, to, asset)
      + if Selected(last, from, to, asset) then [LedgerRow(last.asset, last.row.date, last.row.amount)] else []
  }

  // The entries come in whatever order the query yields.
  method DepreciationLedger(entries: seq<Entry>, from: Option<Date>, to: Option<Date>, asset: Option<AssetId>)
    returns (rows: seq<LedgerRow>)
    ensures rows == LedgerOf(entries, from, to, asset)
  {
    rows := [];
    for i := 0 to |entries|
      invariant rows == LedgerOf(entries[..i], from, to, asset)
    {
      assert entries[..i+1][..i] == entries[..i];
      var e := entries[i];
      if Selected(e, from, to, asset) {
        rows := rows + [LedgerRow(e.asset, e.row.date, e.row.amount)];
      }
    }
    assert entries[..|entries|] == entries;
  }

  // The row is posted, in the period as far as it is limited, and of the asset if one is asked for.
  ghost predicate Booked(e: Entry, from: Option<Date>, to: Option<Date>, asset: Option<AssetId>) {
    && e.row.posted
    && (from.Some? ==> from.value <= e.row.date) && (to.Some? ==> e.row.date <= to.value)
    && (asset.Some? ==> e.asset == asset.value)
  }

  ghost function Booking(from: Option<Date>, to: Option<Date>, asset: Option<AssetId>): Entry -> bool {
    (e: Entry) => Booked(e, from, to, asset)
  }

  ghost predicate Copied(e: Entry, row: LedgerRow) {
    row.asset == e.asset && row.date == e.row.date && row.amount == e.row.amount
  }

  ghost predicate Copies(entries: seq<Entry>, ks: seq<nat>, rows: seq<LedgerRow>) {
    |rows| == |ks| && forall j | 0 <= j < |ks| :: ks[j] < |entries| && Copied(entries[ks[j]], rows[j])
  }

  /** The ledger has one row for each entry to show, in sequence, with its asset, date and amount. */
  lemma {:induction false} LedgerShows(entries: seq<Entry>, from: Option<Date>, to: Option<Date>, asset: Option<AssetId>)
    returns (ks: seq<nat>)
    ensures Kept(entries, Booking(from, to, asset), ks) && Copies(entries, ks, LedgerOf(entries, from, to, asset))
  {
    hide *;
    ks := [];
    if entries == [] {
      NothingBooked(from, to, asset);
    } else {
      var front, last := entries[..|entries|-1], entries[|entries|-1];
      ks := LedgerShows(front, from, to, asset);
      KeptSnoc(front, last, Booking(from, to, asset), ks);
      CopiesSnoc(front, last, from, to, asset, ks);
      assert entries == front + [last];
      if Booking(from, to, asset)(last) {
        ks := ks + [|front|];
      }
    }
  }

  lemma NothingBooked(from: Option<Date>, to: Option<Date>, asset: Option<AssetId>)
    ensures LedgerOf([], from, to, asset) == [] && Kept([], Booking(from, to, asset), []) && Copies([], [], [])
  {
  }

  lemma CopiesSnoc(front: seq<Entry>, last: Entry, from: Option<Date>, to: Option<Date>, asset: Option<AssetId>, ks: seq<nat>)
    requires Copies(front, ks, LedgerOf(front, from, to, asset))
    ensures Copies(front + [last], if Booking(from, to, asset)(last) then ks + [|front|] else ks,
                   LedgerOf(front + [last], from, to, asset))
  {
    hide *;
    var row := LedgerRow(last.asset, last.row.date, last.row.amount);
    LedgerSnoc(front, last, from, to, asset, row);
    CopiesOneMore(front, last, ks, LedgerOf(front, from, to, asset), row);
  }

  lemma LedgerSnoc(front: seq<Entry>, last: Entry, from: Option<Date>, to: Option<Date>, asset: Option<AssetId>, row: LedgerRow)
    requires row == LedgerRow(last.asset, last.row.date, last.row.amount)
    ensures LedgerOf(front + [last], from, to, asset) ==
      LedgerOf(front, from, to, asset) + if Booking(from, to, asset)(last) then [row] else []
    ensures Copied(last, row)
  {
    assert (front + [last])[..|front|] == front;
  }

  lemma CopiesOneMore(front: seq<Entry>, last: Entry, ks: seq<nat>, rows: seq<LedgerRow>, row: LedgerRow)
    requires Copies(front, ks, rows) && Copied(last, row)
    ensures Copies(front + [last], ks, rows + []) && Copies(front + [last], ks + [|front|], rows + [row])
  {
    hide Copied;
    assert (front + [last])[|front|] == last;
    assert rows + [] == rows;
  }

  function EntriesOf(id: AssetId, schedule: seq<ScheduleRow>): seq<Entry> {
    seq(|schedule|, i requires 0 <= i < |schedule| => Entry(id, schedule[i]))
  }

  function Joined(assets: seq<Asset>): seq<Entry> {
    if assets == [] then []
    else Joined(assets[..|assets|-1]) + EntriesOf(assets[|assets|-1].id, assets[|assets|-1].schedule)
  }

  // What the ledger rows of one asset add up to.
  ghost function LedgerTotal(rows: seq<LedgerRow>, id: AssetId): real {
    if rows == [] then 0.0
    else
      var last := rows[|rows|-1];
      LedgerTotal(rows[..|rows|-1], id) + if last.asset == id then last.amount else 0.0
  }

  // --- The ledger total, independent of order ---

  function Part(e: Entry, from: Option<Date>, to: Option<Date>, asset: Option<AssetId>, id: AssetId): real {
    if Selected(e, from, to, asset) && e.asset == id then e.row.amount else 0.0
  }

  ghost function Parts(entries: seq<Entry>, from: Option<Date>, to: Option<Date>, asset: Option<AssetId>, id: AssetId): real {
    if entries == [] then 0.0
    else Parts(entries[..|entries|-1], from, to, asset, id) + Part(entries[|entries|-1], from, to, asset, id)
  }

  lemma {:induction false} LedgerIsParts(entries: seq<Entry>, from: Option<Date>, to: Option<Date>, asset: Option<AssetId>,
                                         id: AssetId)
    ensures LedgerTotal(LedgerOf(entries, from, to, asset), id) == Parts(entries, from, to, asset, id)
  {
    if entries != [] {
      var front, last := entries[..|entries|-1], entries[|entries|-1];
      LedgerIsParts(front, from, to, asset, id);
      var rows := LedgerOf(front, from, to, asset);
      if Selected(last, from, to, asset) {
        LedgerTotalSnoc(rows, LedgerRow(last.asset, last.row.date, last.row.amount), id);
      } else {
        assert rows + [] == rows;
      }
    }
  }

  lemma LedgerTotalSnoc(rows: seq<LedgerRow>, row: LedgerRow, id: AssetId)
    ensures LedgerTotal(rows + [row], id) == LedgerTotal(rows, id) + if row.asset == id then row.amount else 0.0
  {
    assert (rows + [row])[..|rows|] == rows;
  }

  lemma {:induction false} PartsConcat(a: seq<Entry>, b: seq<Entry>, from: Option<Date>, to: Option<Date>,
                                       asset: Option<AssetId>, id: AssetId)
    ensures Parts(a + b, from, to, asset, id) == Parts(a, from, to, asset, id) + Parts(b, from, to, asset, id)
  {
    if b == [] {
      assert a + b == a;
    } else {
      assert (a + b)[..|a + b| - 1] == a + b[..|b|-1];
      PartsConcat(a, b[..|b|-1], from, to, asset, id);
    }
  }

  lemma {:induction false} PartsAnyOrder(a: seq<Entry>, b: seq<Entry>, from: Option<Date>, to: Option<Date>,
                                         asset: Option<AssetId>, id: AssetId)
    requires multiset(a) == multiset(b)
    ensures Parts(a, from, to, asset, id) == Parts(b, from, to, asset, id)
    decreases |a|
  {
    hide Part;
    if a == [] {
      assert |multiset(b)| == 0;
    } else {
      var front, last := a[..|a|-1], a[|a|-1];
      assert a == front + [last];
      assert last in multiset(b);
      var i :| 0 <= i < |b| && b[i] == last;
      RestAgrees(a, b, i);
      PartsAnyOrder(front, b[..i] + b[i+1..], from, to, asset, id);
      TakeOut(b, i, from, to, asset, id);
    }
  }

  lemma RestAgrees(a: seq<Entry>, b: seq<Entry>, i: nat)
    requires a != [] && multiset(a) == multiset(b) && i < |b| && b[i] == a[|a|-1]
    ensures multiset(a[..|a|-1]) == multiset(b[..i] + b[i+1..])
  {
    var last := a[|a|-1];
    assert a == a[..|a|-1] + [last];
    assert b == b[..i] + [last] + b[i+1..];
    assert multiset(a[..|a|-1]) == multiset(a) - multiset{last};
    assert multiset(b[..i] + b[i+1..]) == multiset(b) - multiset{last};
  }

  lemma TakeOut(b: seq<Entry>, i: nat, from: Option<Date>, to: Option<Date>, asset: Option<AssetId>, id: AssetId)
    requires i < |b|
    ensures Parts(b, from, to, asset, id)
         == Parts(b[..i] + b[i+1..], from, to, asset, id) + Part(b[i], from, to, asset, id)
  {
    hide Part;
    assert b == b[..i+1] + b[i+1..];
    assert b[..i+1][..i] == b[..i];
    PartsConcat(b[..i+1], b[i+1..], from, to, asset, id);
    PartsConcat(b[..i], b[i+1..], from, to, asset, id);
  }

  // Over one asset's own schedule the ledger covers what was posted in the period.
  lemma {:induction false} OwnParts(id: AssetId, schedule: seq<ScheduleRow>, d1: Date, d2: Date, asset: Option<AssetId>)
    requires d1 <= d2 && (asset.None? || asset.value == id)
    ensures Parts(EntriesOf(id, schedule), Some(d1 + 1), Some(d2), asset, id)
         == PostedUpTo(schedule, d2) - PostedUpTo(schedule, d1)
  {
    if schedule != [] {
      var front := schedule[..|schedule|-1];
      OwnParts(id, front, d1, d2, asset);
      var es := EntriesOf(id, schedule);
      assert es[..|es|-1] == EntriesOf(id, front);
    }
  }

  lemma {:induction false} ForeignParts(id: AssetId, other: AssetId, schedule: seq<ScheduleRow>,
                                        from: Option<Date>, to: Option<Date>, asset: Option<AssetId>)
    requires id != other
    ensures Parts(EntriesOf(other, schedule), from, to, asset, id) == 0.0
  {
    if schedule != [] {
      var front, es := schedule[..|schedule|-1], EntriesOf(other, schedule);
      ForeignParts(id, other, front, from, to, asset);
      assert es[..|es|-1] == EntriesOf(other, front);
    }
  }

  ghost predicate IdsUnique(assets: seq<Asset>) {
    forall i, j | 0 <= i < j < |assets| :: assets[i].id != assets[j].id
  }

  lemma {:induction false} JoinedParts(assets: seq<Asset>, a: Asset, d1: Date, d2: Date, asset: Option<AssetId>)
    requires d1 <= d2 && IdsUnique(assets) && (asset.None? || asset.value == a.id)
    requires forall b <- assets :: b.id == a.id ==> b == a
    ensures Parts(Joined(assets), Some(d1 + 1), Some(d2), asset, a.id)
         == if a in assets then PostedUpTo(a.schedule, d2) - PostedUpTo(a.schedule, d1) else 0.0
  {
    if assets != [] {
      var front, last := assets[..|assets|-1], assets[|assets|-1];
      assert assets == front + [last];
      assert forall b <- front :: b.id != last.id;
      JoinedParts(front, a, d1, d2, asset);
      PartsConcat(Joined(front), EntriesOf(last.id, last.schedule), Some(d1 + 1), Some(d2), asset, a.id);
      if last.id == a.id {
        OwnParts(a.id, a.schedule, d1, d2, asset);
      } else {
        ForeignParts(a.id, last.id, last.schedule, Some(d1 + 1), Some(d2), asset);
      }
    }
  }

  lemma {:induction false} InRegister(assets: seq<Asset>, a: Asset, asOf: Date, category: Option<string>, includeDisposed: bool)
    ensures a in assets && Listed(a, category, includeDisposed) ==>
      RowFor(a, asOf) in RegisterOf(assets, asOf, category, includeDisposed)
  {
    if assets != [] {
      InRegister(assets[..|assets|-1], a, asOf, category, includeDisposed);
      assert assets == assets[..|assets|-1] + [assets[|assets|-1]];
    }
  }

  /** Between two dates the register book value of a listed asset falls by exactly what the
      ledger shows for it after the first and up to the second, in whatever order the ledger
      query returns its rows and with or without restricting it to the asset. */
  lemma RegisterAgreesWithLedger(assets: seq<Asset>, entries: seq<Entry>, a: Asset, d1: Date, d2: Date,
                                 category: Option<string>, includeDisposed: bool, only: bool)
    requires IdsUnique(assets) && a in assets && Listed(a, category, includeDisposed)
    requires d1 <= d2 && multiset(entries) == multiset(Joined(assets))
    ensures var ledger := LedgerOf(entries, Some(d1 + 1), Some(d2), if only then Some(a.id) else None);
      && RowFor(a, d1) in RegisterOf(assets, d1, category, includeDisposed)
      && RowFor(a, d2) in RegisterOf(assets, d2, category, includeDisposed)
      && RowFor(a, d1).bookValue - RowFor(a, d2).bookValue == LedgerTotal(ledger, a.id)
  {
    var asset := if only then Some(a.id) else None;
    InRegister(assets, a, d1, category, includeDisposed);
    InRegister(assets, a, d2, category, includeDisposed);
    LedgerIsParts(entries, Some(d1 + 1), Some(d2), asset, a.id);
    PartsAnyOrder(entries, Joined(assets), Some(d1 + 1), Some(d2), asset, a.id);
    JoinedParts(assets, a, d1, d2, asset);
  }

  lemma {:induction false} AllPosted(schedule: seq<ScheduleRow>, asOf: Date)
    requires forall r <- schedule :: r.posted ==> r.date <= asOf
    ensures PostedUpTo(schedule, asOf) == PostedTotal(schedule)
  {
    if schedule != [] {
      AllPosted(schedule[..|schedule|-1], asOf);
    }
  }

  /** Once the date covers every posted row, the register shows the asset's own figures. */
  lemma RegisterEndsAtBookValue(a: Asset, asOf: Date)
    requires forall r <- a.schedule :: r.posted ==> r.date <= asOf
    ensures RowFor(a, asOf) == RegisterRow(a.id, a.AccumulatedDepreciation(), a.BookValue())
  {
    AllPosted(a.schedule, asOf);
  }
}
