/** The recursive explosion of a BOM: scale, round, walk through, merge, sort. */
module BomExplosion {
  import opened Prelude
  import opened Rounding
  import opened BomCatalogue
  import opened RowOrder

  // The code rounds every requirement to six places; Exact leaves it as it is and serves
  // as the yardstick.
  datatype Mode = Exact | Micro

  datatype Plan = Plan(cat: Catalogue, mode: Mode, flat: bool)

  datatype Failure = BadBatch | CycleFound

  function Quantise(mode: Mode, x: real): real {
    if mode.Exact? then x else QuantiseMicro(x)
  }

  function Need(p: Plan, line: Line, scale: real): real {
    Quantise(p.mode, Scaled(line.qty, scale))
  }

  // Whether a component is walked through rather than emitted.
  predicate Opened(p: Plan, item: Item) {
    item in p.cat && (p.flat || p.cat[item].phantom)
  }

  function LeafRow(p: Plan, line: Line, need: real, level: int): Row {
    var rate :=
      if line.item in p.cat && !p.cat[line.item].phantom && p.cat[line.item].CostPerUnit() > 0.0
      then p.cat[line.item].CostPerUnit() else line.rate;
    Row(line.item, need, rate, line.warehouse, line.alt, level, line.code)
  }

  // --- Buckets, in insertion order ---

  function IndexOf(rows: seq<Row>, k: Key): (i: nat)
    ensures i <= |rows|
    ensures i < |rows| ==> KeyOf(rows[i]) == k
    ensures forall j | 0 <= j < i :: KeyOf(rows[j]) != k
  {
    if rows == [] then 0
    else if KeyOf(rows[0]) == k then 0
    else 1 + IndexOf(rows[1..], k)
  }

  function AddRow(rows: seq<Row>, row: Row): (r: seq<Row>)
    ensures DistinctKeys(rows) ==> DistinctKeys(r)
  {
    var i := IndexOf(rows, KeyOf(row));
    if i < |rows| then rows[i := Merge(rows[i], row)] else rows + [row]
  }

  function AddAll(rows: seq<Row>, more: seq<Row>): (r: seq<Row>)
    ensures DistinctKeys(rows) ==> DistinctKeys(r)
  {
    if more == [] then rows
    else AddRow(AddAll(rows, more[..|more|-1]), more[|more|-1])
  }

  // The rows that a dictionary holds, in the sequence of its keys.
  function RowsIn(order: seq<Key>, at: map<Key, Row>): (r: seq<Row>)
    requires forall k <- order :: k in at
    ensures |r| == |order|
  {
    seq(|order|, i requires 0 <= i < |order| => assert order[i] in order; at[order[i]])
  }

  // Each key once, at the rows that carry it.
  ghost predicate Keyed(order: seq<Key>, at: map<Key, Row>) {
    && (forall k :: k in order <==> k in at)
    && (forall i, j | 0 <= i < j < |order| :: order[i] != order[j])
    && (forall k <- at :: KeyOf(at[k]) == k)
  }

  lemma RowsAreDistinct(order: seq<Key>, at: map<Key, Row>)
    requires Keyed(order, at)
    ensures DistinctKeys(RowsIn(order, at))
    ensures forall i | 0 <= i < |order| :: KeyOf(RowsIn(order, at)[i]) == order[i]
  {
    forall i | 0 <= i < |order|
      ensures KeyOf(RowsIn(order, at)[i]) == order[i]
    {
      assert order[i] in order;
    }
  }

  lemma AddNewKey(order: seq<Key>, at: map<Key, Row>, row: Row)
    requires Keyed(order, at) && KeyOf(row) !in at
    ensures Keyed(order + [KeyOf(row)], at[KeyOf(row) := row])
    ensures RowsIn(order + [KeyOf(row)], at[KeyOf(row) := row]) == AddRow(RowsIn(order, at), row)
  {
    hide Merge;
    var key := KeyOf(row);
    var order', at' := order + [key], at[key := row];
    assert forall k :: k in order' <==> k in order || k == key;
    RowsAreDistinct(order, at);
    var rows := RowsIn(order, at);
    assert forall j | 0 <= j < |order| :: order[j] in order;
    assert IndexOf(rows, key) == |rows|;
    assert RowsIn(order', at') == rows + [row];
  }

  lemma AddKnownKey(order: seq<Key>, at: map<Key, Row>, row: Row)
    requires Keyed(order, at) && KeyOf(row) in at
    ensures var merged := Merge(at[KeyOf(row)], row);
      && Keyed(order, at[KeyOf(row) := merged])
      && RowsIn(order, at[KeyOf(row) := merged]) == AddRow(RowsIn(order, at), row)
  {
    var key := KeyOf(row);
    var merged := Merge(at[key], row);
    assert KeyOf(merged) == key;
    hide Merge, IndexOf;
    RowsAreDistinct(order, at);
    var rows := RowsIn(order, at);
    assert key in order;
    var i := IndexOf(rows, key);
    ReplaceAt(order, at, i, merged);
  }

  lemma ReplaceAt(order: seq<Key>, at: map<Key, Row>, i: nat, row: Row)
    requires Keyed(order, at) && i < |order| && KeyOf(row) == order[i]
    ensures RowsIn(order, at[order[i] := row]) == RowsIn(order, at)[i := row]
  {
  }

  // A dictionary keeps the position at which a key was first stored.
  class Buckets {
    var order: seq<Key>
    var at: map<Key, Row>

    ghost predicate Valid()
      reads this
    {
      Keyed(order, at)
    }

    function Rows(): (r: seq<Row>)
      requires Valid()
      reads this
      ensures DistinctKeys(r)
    {
      RowsAreDistinct(order, at);
      RowsIn(order, at)
    }

    constructor ()
      ensures Valid() && Rows() == []
    {
      order, at := [], map[];
    }

    method Add(row: Row)
      requires Valid()
      modifies this
      ensures Valid() && Rows() == AddRow(old(Rows()), row)
    {
      hide Keyed, AddRow, RowsIn, Merge;
      var key := KeyOf(row);
      if key !in at {
        AddNewKey(order, at, row);
        order := order + [key];
        at := at[key := row];
      } else {
        AddKnownKey(order, at, row);
        at := at[key := Merge(at[key], row)];
      }
    }

    method AddEach(rows: seq<Row>)
      requires Valid()
      modifies this
      ensures Valid() && Rows() == AddAll(old(Rows()), rows)
    {
      for k := 0 to |rows|
        invariant Valid() && Rows() == AddAll(old(Rows()), rows[..k])
      {
        assert rows[..k+1][..k] == rows[..k];
        Add(rows[k]);
      }
      assert rows[..|rows|] == rows;
    }
  }

  // --- The explosion ---

  function Products(cat: Catalogue): set<Item> {
    set i <- cat :: cat[i].produces
  }

  // Finished goods that may still be entered: what bounds the recursion, cycles or not.
  function Pending(p: Plan, bom: Bom, ancestors: set<Item>): set<Item> {
    Products(p.cat) + {bom.produces} - ancestors
  }

  function Explode(p: Plan, bom: Bom, qty: real, ancestors: set<Item>, level: int)
    : Result<seq<Row>, Failure>
    decreases Pending(p, bom, ancestors), |bom.lines| + 1
  {
    if qty <= 0.0 then Ok([])
    else if bom.batch <= 0.0 then Err(BadBatch)
    else if bom.produces in ancestors then Err(CycleFound)
    else
      match ExplodeLines(p, bom, qty / bom.batch, ancestors, level, |bom.lines|)
      case Err(e) => Err(e)
      case Ok(buckets) => Ok(SortRows(buckets))
  }

  // The buckets after the first n component lines.
  function ExplodeLines(p: Plan, bom: Bom, scale: real, ancestors: set<Item>, level: int, n: nat)
    : Result<seq<Row>, Failure>
    requires n <= |bom.lines| && bom.produces !in ancestors
    decreases Pending(p, bom, ancestors), n
  {
    if n == 0 then Ok([])
    else
      match ExplodeLines(p, bom, scale, ancestors, level, n - 1)
      case Err(e) => Err(e)
      case Ok(buckets) =>
        match ExplodeLine(p, bom, scale, ancestors, level, n - 1)
        case Err(e) => Err(e)
        case Ok(rows) => Ok(AddAll(buckets, rows))
  }

  // What one component line contributes.
  function ExplodeLine(p: Plan, bom: Bom, scale: real, ancestors: set<Item>, level: int, i: nat)
    : Result<seq<Row>, Failure>
    requires i < |bom.lines| && bom.produces !in ancestors
    decreases Pending(p, bom, ancestors), 0
  {
    var line := bom.lines[i];
    var need := Need(p, line, scale);
    if need <= 0.0 then Ok([])
    else if Opened(p, line.item) then
      Explode(p, p.cat[line.item], need, ancestors + {bom.produces}, level + 1)
    else Ok([LeafRow(p, line, need, level)])
  }

  /** The explosion as the code runs it. */
  method ExplodeBom(cat: Catalogue, bom: Bom, qty: real, flat: bool, ancestors: set<Item>, level: int)
    returns (r: Result<seq<Row>, Failure>)
    ensures r == Explode(Plan(cat, Micro, flat), bom, qty, ancestors, level)
    decreases Pending(Plan(cat, Micro, flat), bom, ancestors), 1
  {
    ghost var p := Plan(cat, Micro, flat);
    EntryCases(p, bom, qty, ancestors, level);
    hide Explode, ExplodeLine, AddAll, Keyed;
    if qty <= 0.0 {
      return Ok([]);
    }
    if bom.batch <= 0.0 {
      return Err(BadBatch);
    }
    if bom.produces in ancestors {
      return Err(CycleFound);
    }
    var scale := qty / bom.batch;
    NoLinesYet(p, bom, scale, ancestors, level);
    hide ExplodeLines;
    var buckets := new Buckets();
    for n := 0 to |bom.lines|
      invariant buckets.Valid() && fresh(buckets)
      invariant ExplodeLines(p, bom, scale, ancestors, level, n) == Ok(buckets.Rows())
    {
      NextLine(p, bom, scale, ancestors, level, n, buckets.Rows());
      var failed := ExplodeLineInto(cat, bom, scale, flat, ancestors, level, n, buckets);
      if failed.Some? {
        FailureStays(p, bom, scale, ancestors, level, n + 1);
        return Err(failed.value);
      }
    }
    return Ok(SortRows(buckets.Rows()));
  }

  // One turn of the loop over the component lines.
  method ExplodeLineInto(cat: Catalogue, bom: Bom, scale: real, flat: bool, ancestors: set<Item>, level: int,
                         n: nat, buckets: Buckets)
    returns (failed: Option<Failure>)
    requires n < |bom.lines| && bom.produces !in ancestors
    requires buckets.Valid()
    modifies buckets
    ensures buckets.Valid()
    ensures match ExplodeLine(Plan(cat, Micro, flat), bom, scale, ancestors, level, n)
      case Ok(rows) => failed == None && buckets.Rows() == AddAll(old(buckets.Rows()), rows)
      case Err(e) => failed == Some(e) && buckets.Rows() == old(buckets.Rows())
    decreases Pending(Plan(cat, Micro, flat), bom, ancestors), 0
  {
    var p := Plan(cat, Micro, flat);
    var line := bom.lines[n];
    ghost var rows := ExplodeLine(p, bom, scale, ancestors, level, n);
    var need := QuantiseMicro(Scaled(line.qty, scale));
    if need <= 0.0 {
      assert rows == Ok([]);
      assert AddAll(buckets.Rows(), []) == buckets.Rows();
      return None;
    }
    if line.item in cat && (flat || cat[line.item].phantom) {
      var nested := ExplodeBom(cat, cat[line.item], need, flat, ancestors + {bom.produces}, level + 1);
      assert nested == rows;
      if nested.Err? {
        return Some(nested.error);
      }
      buckets.AddEach(nested.value);
      return None;
    }
    AddOne(buckets.Rows(), LeafRow(p, line, need, level));
    buckets.Add(LeafRow(p, line, need, level));
    return None;
  }

  lemma EntryCases(p: Plan, bom: Bom, qty: real, ancestors: set<Item>, level: int)
    ensures var r := Explode(p, bom, qty, ancestors, level);
      && (qty <= 0.0 ==> r == Ok([]))
      && (qty > 0.0 && bom.batch <= 0.0 ==> r == Err(BadBatch))
      && (qty > 0.0 && bom.batch > 0.0 && bom.produces in ancestors ==> r == Err(CycleFound))
      && (qty > 0.0 && bom.batch > 0.0 && bom.produces !in ancestors ==>
            var lines := ExplodeLines(p, bom, qty / bom.batch, ancestors, level, |bom.lines|);
            r == if lines.Ok? then Ok(SortRows(lines.value)) else lines)
  {
  }

  lemma NoLinesYet(p: Plan, bom: Bom, scale: real, ancestors: set<Item>, level: int)
    requires bom.produces !in ancestors
    ensures ExplodeLines(p, bom, scale, ancestors, level, 0) == Ok([])
  {
  }

  lemma NextLine(p: Plan, bom: Bom, scale: real, ancestors: set<Item>, level: int, n: nat, buckets: seq<Row>)
    requires n < |bom.lines| && bom.produces !in ancestors
    requires ExplodeLines(p, bom, scale, ancestors, level, n) == Ok(buckets)
    ensures var line := ExplodeLine(p, bom, scale, ancestors, level, n);
      ExplodeLines(p, bom, scale, ancestors, level, n + 1)
        == if line.Ok? then Ok(AddAll(buckets, line.value)) else line
  {
  }

  lemma AddOne(rows: seq<Row>, row: Row)
    ensures AddAll(rows, [row]) == AddRow(rows, row)
  {
    assert [row][..0] == [];
  }

  lemma {:induction false} FailureStays(p: Plan, bom: Bom, scale: real, ancestors: set<Item>, level: int, n: nat)
    requires n <= |bom.lines| && bom.produces !in ancestors
    requires ExplodeLines(p, bom, scale, ancestors, level, n).Err?
    ensures ExplodeLines(p, bom, scale, ancestors, level, |bom.lines|)
         == ExplodeLines(p, bom, scale, ancestors, level, n)
    decreases |bom.lines| - n
  {
    if n < |bom.lines| {
      FailureStays(p, bom, scale, ancestors, level, n + 1);
    }
  }
}
