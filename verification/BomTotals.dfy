/** Quantities in exact arithmetic, exploding in two stages, and what rounding can change. */
module BomTotals {
  import opened Prelude
  import opened Rounding
  import opened BomCatalogue
  import opened RowOrder
  import opened BomExplosion
  import opened BomMerging

  // --- Walks that meet neither a repeated finished good nor an empty batch ---

  ghost predicate Walkable(cat: Catalogue, flat: bool, bom: Bom, ancestors: set<Item>)
    decreases Pending(Plan(cat, Exact, flat), bom, ancestors)
  {
    && bom.batch > 0.0
    && bom.produces !in ancestors
    && forall i | 0 <= i < |bom.lines| && bom.lines[i].qty > 0.0
          && Opened(Plan(cat, Exact, flat), bom.lines[i].item) ::
         Walkable(cat, flat, cat[bom.lines[i].item], ancestors + {bom.produces})
  }

  lemma {:induction false} WalkableFewerAncestors(cat: Catalogue, flat: bool, bom: Bom, fewer: set<Item>, ancestors: set<Item>)
    requires fewer <= ancestors && Walkable(cat, flat, bom, ancestors)
    ensures Walkable(cat, flat, bom, fewer)
    decreases Pending(Plan(cat, Exact, flat), bom, ancestors)
  {
    forall i | 0 <= i < |bom.lines| && bom.lines[i].qty > 0.0 && Opened(Plan(cat, Exact, flat), bom.lines[i].item)
      ensures Walkable(cat, flat, cat[bom.lines[i].item], fewer + {bom.produces})
    {
      WalkableFewerAncestors(cat, flat, cat[bom.lines[i].item], fewer + {bom.produces}, ancestors + {bom.produces});
    }
  }

  lemma {:induction false} WalkableFlat(cat: Catalogue, bom: Bom, ancestors: set<Item>)
    requires Walkable(cat, true, bom, ancestors)
    ensures Walkable(cat, false, bom, ancestors)
    decreases Pending(Plan(cat, Exact, true), bom, ancestors)
  {
    forall i | 0 <= i < |bom.lines| && bom.lines[i].qty > 0.0 && Opened(Plan(cat, Exact, false), bom.lines[i].item)
      ensures Walkable(cat, false, cat[bom.lines[i].item], ancestors + {bom.produces})
    {
      WalkableFlat(cat, cat[bom.lines[i].item], ancestors + {bom.produces});
    }
  }

  lemma NeedSign(p: Plan, line: Line, scale: real)
    requires scale > 0.0
    ensures line.qty <= 0.0 ==> Need(p, line, scale) <= 0.0
    ensures line.qty > 0.0 && p.mode.Exact? ==> Need(p, line, scale) > 0.0
  {
    if line.qty <= 0.0 {
      assert Scaled(line.qty, scale) <= 0.0;
    }
  }

  // A walkable explosion succeeds for every quantity, rounded or not.
  lemma {:induction false} WalkableSucceeds(p: Plan, bom: Bom, qty: real, ancestors: set<Item>, level: int)
    requires Walkable(p.cat, p.flat, bom, ancestors)
    ensures Explode(p, bom, qty, ancestors, level).Ok?
    decreases Pending(p, bom, ancestors), |bom.lines| + 1
  {
    if qty > 0.0 {
      WalkableLinesSucceed(p, bom, qty / bom.batch, ancestors, level, |bom.lines|);
    }
  }

  lemma {:induction false} WalkableLinesSucceed(p: Plan, bom: Bom, scale: real, ancestors: set<Item>, level: int, n: nat)
    requires Walkable(p.cat, p.flat, bom, ancestors) && scale > 0.0 && n <= |bom.lines|
    ensures ExplodeLines(p, bom, scale, ancestors, level, n).Ok?
    decreases Pending(p, bom, ancestors), n
  {
    if n > 0 {
      WalkableLinesSucceed(p, bom, scale, ancestors, level, n - 1);
      var line := bom.lines[n-1];
      var need := Need(p, line, scale);
      NeedSign(p, line, scale);
      if need > 0.0 && Opened(p, line.item) {
        assert Opened(Plan(p.cat, Exact, p.flat), line.item);
        WalkableSucceeds(p, p.cat[line.item], need, ancestors + {bom.produces}, level + 1);
      }
    }
  }

  // In exact arithmetic success does not depend on the quantity: it is walkability.
  lemma {:induction false} SuccessIsWalkable(cat: Catalogue, flat: bool, bom: Bom, qty: real, ancestors: set<Item>, level: int)
    requires qty > 0.0 && Explode(Plan(cat, Exact, flat), bom, qty, ancestors, level).Ok?
    ensures Walkable(cat, flat, bom, ancestors)
    decreases Pending(Plan(cat, Exact, flat), bom, ancestors)
  {
    var p := Plan(cat, Exact, flat);
    EntrySucceeds(p, bom, qty, ancestors, level);
    hide Explode, Need;
    forall i | 0 <= i < |bom.lines| && bom.lines[i].qty > 0.0 && Opened(p, bom.lines[i].item)
      ensures Walkable(cat, flat, cat[bom.lines[i].item], ancestors + {bom.produces})
    {
      OpenedLineSucceeds(p, bom, qty, ancestors, level, i);
      SuccessIsWalkable(cat, flat, cat[bom.lines[i].item], Need(p, bom.lines[i], qty / bom.batch),
                        ancestors + {bom.produces}, level + 1);
    }
  }

  lemma EntrySucceeds(p: Plan, bom: Bom, qty: real, ancestors: set<Item>, level: int)
    requires qty > 0.0 && Explode(p, bom, qty, ancestors, level).Ok?
    ensures bom.batch > 0.0 && bom.produces !in ancestors
    ensures ExplodeLines(p, bom, qty / bom.batch, ancestors, level, |bom.lines|).Ok?
  {
  }

  lemma OpenedLineSucceeds(p: Plan, bom: Bom, qty: real, ancestors: set<Item>, level: int, i: nat)
    requires p.mode.Exact? && qty > 0.0 && Explode(p, bom, qty, ancestors, level).Ok?
    requires i < |bom.lines| && bom.lines[i].qty > 0.0 && Opened(p, bom.lines[i].item)
    ensures bom.batch > 0.0 && Need(p, bom.lines[i], qty / bom.batch) > 0.0
    ensures Explode(p, p.cat[bom.lines[i].item], Need(p, bom.lines[i], qty / bom.batch),
                    ancestors + {bom.produces}, level + 1).Ok?
  {
    EntrySucceeds(p, bom, qty, ancestors, level);
    PositiveScale(qty, bom.batch);
    LineSucceeds(p, bom, qty / bom.batch, ancestors, level, |bom.lines|, i);
    NeedSign(p, bom.lines[i], qty / bom.batch);
  }

  lemma PositiveScale(qty: real, batch: real)
    requires qty > 0.0 && batch > 0.0
    ensures qty / batch > 0.0
  {
  }

  lemma {:induction false} LineSucceeds(p: Plan, bom: Bom, scale: real, ancestors: set<Item>, level: int, n: nat, i: nat)
    requires i < n <= |bom.lines| && bom.produces !in ancestors
    requires ExplodeLines(p, bom, scale, ancestors, level, n).Ok?
    ensures ExplodeLine(p, bom, scale, ancestors, level, i).Ok?
    decreases n
  {
    if i < n - 1 {
      LineSucceeds(p, bom, scale, ancestors, level, n - 1, i);
    }
  }

  // --- The exact requirement per unit ---

  function LineKey(line: Line): Key {
    Key(line.item, line.warehouse, line.alt)
  }

  // Weighted requirement for one unit of the finished good.
  ghost function PerUnit(cat: Catalogue, flat: bool, bom: Bom, ancestors: set<Item>, w: Key -> real): real
    decreases Pending(Plan(cat, Exact, flat), bom, ancestors), |bom.lines| + 1
  {
    if bom.batch <= 0.0 || bom.produces in ancestors then 0.0
    else PerUnitOf(cat, flat, bom, ancestors, w, |bom.lines|)
  }

  ghost function PerUnitOf(cat: Catalogue, flat: bool, bom: Bom, ancestors: set<Item>, w: Key -> real, n: nat): real
    requires n <= |bom.lines| && bom.batch > 0.0 && bom.produces !in ancestors
    decreases Pending(Plan(cat, Exact, flat), bom, ancestors), n, 2
  {
    if n == 0 then 0.0
    else PerUnitOf(cat, flat, bom, ancestors, w, n - 1) + LinePerUnit(cat, flat, bom, ancestors, w, n - 1)
  }

  ghost function LinePerUnit(cat: Catalogue, flat: bool, bom: Bom, ancestors: set<Item>, w: Key -> real, i: nat): real
    requires i < |bom.lines| && bom.batch > 0.0 && bom.produces !in ancestors
    decreases Pending(Plan(cat, Exact, flat), bom, ancestors), 0, 1
  {
    if bom.lines[i].qty <= 0.0 then 0.0
    else Scaled(bom.lines[i].qty / bom.batch, Downstream(cat, flat, bom, ancestors, w, i))
  }

  // What one unit of the i-th component entails.
  ghost function Downstream(cat: Catalogue, flat: bool, bom: Bom, ancestors: set<Item>, w: Key -> real, i: nat): real
    requires i < |bom.lines| && bom.produces !in ancestors
    decreases Pending(Plan(cat, Exact, flat), bom, ancestors), 0, 0
  {
    var line := bom.lines[i];
    if Opened(Plan(cat, Exact, flat), line.item)
    then PerUnit(cat, flat, cat[line.item], ancestors + {bom.produces}, w)
    else w(LineKey(line))
  }

  lemma ScaledByBatch(qty: real, batch: real, lineQty: real, d: real)
    requires batch > 0.0
    ensures Scaled(Scaled(lineQty, qty / batch), d) == Scaled(qty, Scaled(lineQty / batch, d))
  {
    var x, y := qty / batch, lineQty / batch;
    assert x * batch == qty && y * batch == lineQty;
    calc {
      lineQty * x * d;
      y * batch * x * d;
      { assert batch * x == qty; }
      (y * (batch * x)) * d;
      y * qty * d;
      qty * (y * d);
    }
  }

  lemma ScaledSumRight(s: real, a: real, b: real)
    ensures Scaled(s, a + b) == Scaled(s, a) + Scaled(s, b)
  {
  }

  /** In exact arithmetic the leaves for any quantity are that quantity times the requirement
      of one unit. */
  lemma {:induction false} ExactTotals(cat: Catalogue, flat: bool, bom: Bom, qty: real, ancestors: set<Item>, level: int,
                                       w: Key -> real)
    requires qty > 0.0 && Walkable(cat, flat, bom, ancestors)
    ensures Weigh(Leaves(Plan(cat, Exact, flat), bom, qty, ancestors, level), w)
         == Scaled(qty, PerUnit(cat, flat, bom, ancestors, w))
    decreases Pending(Plan(cat, Exact, flat), bom, ancestors), |bom.lines| + 1
  {
    ExactTotalsOf(cat, flat, bom, qty, ancestors, level, w, |bom.lines|);
  }

  lemma {:induction false} ExactTotalsOf(cat: Catalogue, flat: bool, bom: Bom, qty: real, ancestors: set<Item>, level: int,
                                         w: Key -> real, n: nat)
    requires qty > 0.0 && Walkable(cat, flat, bom, ancestors) && n <= |bom.lines|
    ensures Weigh(LeavesOf(Plan(cat, Exact, flat), bom, qty / bom.batch, ancestors, level, n), w)
         == Scaled(qty, PerUnitOf(cat, flat, bom, ancestors, w, n))
    decreases Pending(Plan(cat, Exact, flat), bom, ancestors), n
  {
    if n > 0 {
      var p, scale := Plan(cat, Exact, flat), qty / bom.batch;
      ExactTotalsOf(cat, flat, bom, qty, ancestors, level, w, n - 1);
      ExactLine(cat, flat, bom, qty, ancestors, level, w, n - 1);
      WeighConcat(LeavesOf(p, bom, scale, ancestors, level, n - 1),
                  LineLeaves(p, bom, scale, ancestors, level, n - 1), w);
      ScaledSumRight(qty, PerUnitOf(cat, flat, bom, ancestors, w, n - 1),
                     LinePerUnit(cat, flat, bom, ancestors, w, n - 1));
    }
  }

  lemma {:induction false} ExactLine(cat: Catalogue, flat: bool, bom: Bom, qty: real, ancestors: set<Item>, level: int,
                                     w: Key -> real, i: nat)
    requires qty > 0.0 && Walkable(cat, flat, bom, ancestors) && i < |bom.lines|
    ensures Weigh(LineLeaves(Plan(cat, Exact, flat), bom, qty / bom.batch, ancestors, level, i), w)
         == Scaled(qty, LinePerUnit(cat, flat, bom, ancestors, w, i))
    decreases Pending(Plan(cat, Exact, flat), bom, ancestors), 0
  {
    var p, scale, line := Plan(cat, Exact, flat), qty / bom.batch, bom.lines[i];
    var need := Need(p, line, scale);
    NeedSign(p, line, scale);
    if line.qty > 0.0 {
      ScaledByBatch(qty, bom.batch, line.qty, Downstream(cat, flat, bom, ancestors, w, i));
      if Opened(p, line.item) {
        ExactTotals(cat, flat, cat[line.item], need, ancestors + {bom.produces}, level + 1, w);
      } else {
        WeighOne(LeafRow(p, line, need, level), w);
      }
    }
  }

  // Ancestors only ever block; on a walkable BOM they do not matter.
  lemma {:induction false} PerUnitFewerAncestors(cat: Catalogue, flat: bool, bom: Bom, fewer: set<Item>, ancestors: set<Item>,
                                                 w: Key -> real)
    requires fewer <= ancestors && Walkable(cat, flat, bom, ancestors)
    ensures PerUnit(cat, flat, bom, fewer, w) == PerUnit(cat, flat, bom, ancestors, w)
    decreases Pending(Plan(cat, Exact, flat), bom, ancestors), |bom.lines| + 1
  {
    PerUnitOfFewerAncestors(cat, flat, bom, fewer, ancestors, w, |bom.lines|);
  }

  lemma {:induction false} PerUnitOfFewerAncestors(cat: Catalogue, flat: bool, bom: Bom, fewer: set<Item>, ancestors: set<Item>,
                                                   w: Key -> real, n: nat)
    requires fewer <= ancestors && Walkable(cat, flat, bom, ancestors) && n <= |bom.lines|
    ensures PerUnitOf(cat, flat, bom, fewer, w, n) == PerUnitOf(cat, flat, bom, ancestors, w, n)
    decreases Pending(Plan(cat, Exact, flat), bom, ancestors), n
  {
    if n > 0 {
      PerUnitOfFewerAncestors(cat, flat, bom, fewer, ancestors, w, n - 1);
      var line := bom.lines[n-1];
      if line.qty > 0.0 && Opened(Plan(cat, Exact, flat), line.item) {
        PerUnitFewerAncestors(cat, flat, cat[line.item], fewer + {bom.produces}, ancestors + {bom.produces}, w);
      }
      assert LinePerUnit(cat, flat, bom, fewer, w, n - 1) == LinePerUnit(cat, flat, bom, ancestors, w, n - 1);
    }
  }

  // --- Two stages ---

  // What a row of the first stage entails once it is flattened in turn.
  ghost function Remaining(cat: Catalogue, w: Key -> real): Key -> real {
    (k: Key) => if k.item in cat then PerUnit(cat, true, cat[k.item], {}, w) else w(k)
  }

  // Requirement of one unit: stage one weighted by what remains equals the full walk.
  lemma {:induction false} PerUnitInStages(cat: Catalogue, bom: Bom, ancestors: set<Item>, w: Key -> real)
    requires Walkable(cat, true, bom, ancestors)
    ensures PerUnit(cat, false, bom, ancestors, Remaining(cat, w)) == PerUnit(cat, true, bom, ancestors, w)
    decreases Pending(Plan(cat, Exact, true), bom, ancestors), |bom.lines| + 1
  {
    PerUnitInStagesOf(cat, bom, ancestors, w, |bom.lines|);
  }

  lemma {:induction false} PerUnitInStagesOf(cat: Catalogue, bom: Bom, ancestors: set<Item>, w: Key -> real, n: nat)
    requires Walkable(cat, true, bom, ancestors) && n <= |bom.lines|
    ensures PerUnitOf(cat, false, bom, ancestors, Remaining(cat, w), n) == PerUnitOf(cat, true, bom, ancestors, w, n)
    decreases Pending(Plan(cat, Exact, true), bom, ancestors), n
  {
    if n > 0 {
      PerUnitInStagesOf(cat, bom, ancestors, w, n - 1);
      var line := bom.lines[n-1];
      if line.qty > 0.0 && line.item in cat {
        if cat[line.item].phantom {
          PerUnitInStages(cat, cat[line.item], ancestors + {bom.produces}, w);
        } else {
          PerUnitFewerAncestors(cat, true, cat[line.item], {}, ancestors + {bom.produces}, w);
        }
      }
      assert LinePerUnit(cat, false, bom, ancestors, Remaining(cat, w), n - 1) == LinePerUnit(cat, true, bom, ancestors, w, n - 1);
    }
  }

  // Flatten every row that has a BOM of its own, keep the others.
  ghost function SecondStage(mode: Mode, cat: Catalogue, rows: seq<Row>): Result<seq<Row>, Failure> {
    if rows == [] then Ok([])
    else
      var r := rows[|rows|-1];
      match SecondStage(mode, cat, rows[..|rows|-1])
      case Err(e) => Err(e)
      case Ok(done) =>
        if r.item !in cat then Ok(done + [r])
        else
          match Explode(Plan(cat, mode, true), cat[r.item], r.qty, {}, 0)
          case Err(e) => Err(e)
          case Ok(more) => Ok(done + more)
  }

  lemma {:induction false} SecondStageTotals(cat: Catalogue, rows: seq<Row>, w: Key -> real)
    requires forall r <- rows :: r.qty > 0.0
    requires forall r <- rows :: r.item in cat ==> Walkable(cat, true, cat[r.item], {})
    ensures SecondStage(Exact, cat, rows).Ok?
    ensures Weigh(SecondStage(Exact, cat, rows).value, w) == Weigh(rows, Remaining(cat, w))
  {
    if rows != [] {
      var r, front := rows[|rows|-1], rows[..|rows|-1];
      SecondStageTotals(cat, front, w);
      var done := SecondStage(Exact, cat, front).value;
      if r.item in cat {
        var p := Plan(cat, Exact, true);
        WalkableSucceeds(p, cat[r.item], r.qty, {}, 0);
        WeightConserved(p, cat[r.item], r.qty, {}, 0, w);
        ExactTotals(cat, true, cat[r.item], r.qty, {}, 0, w);
        WeighConcat(done, Explode(p, cat[r.item], r.qty, {}, 0).value, w);
      } else {
        WeighConcat(done, [r], w);
        WeighOne(r, w);
      }
    }
  }

  // Every leaf, and so every row, is for a positive quantity of an item that is not opened.
  ghost predicate Emitted(p: Plan, rows: seq<Row>) {
    forall r <- rows :: r.qty > 0.0 && !Opened(p, r.item)
  }

  lemma EmittedAdd(p: Plan, rows: seq<Row>, row: Row)
    requires Emitted(p, rows) && Emitted(p, [row])
    ensures Emitted(p, AddRow(rows, row))
  {
    var i := IndexOf(rows, KeyOf(row));
    assert row in [row];
    if i < |rows| {
      assert rows[i] in rows;
    }
  }

  lemma {:induction false} EmittedAddAll(p: Plan, rows: seq<Row>, more: seq<Row>)
    requires Emitted(p, rows) && Emitted(p, more)
    ensures Emitted(p, AddAll(rows, more))
  {
    if more != [] {
      EmittedAddAll(p, rows, more[..|more|-1]);
      EmittedAdd(p, AddAll(rows, more[..|more|-1]), more[|more|-1]);
    }
  }

  /** Without flattening no phantom is emitted; with it, nothing that has a BOM. */
  lemma {:induction false} OnlyClosedItems(p: Plan, bom: Bom, qty: real, ancestors: set<Item>, level: int)
    requires Explode(p, bom, qty, ancestors, level).Ok?
    ensures forall r <- Explode(p, bom, qty, ancestors, level).value ::
      r.qty > 0.0 && (r.item in p.cat ==> !p.flat && !p.cat[r.item].phantom)
    decreases Pending(p, bom, ancestors), |bom.lines| + 1
  {
    if qty > 0.0 {
      var rows := ExplodeLines(p, bom, qty / bom.batch, ancestors, level, |bom.lines|).value;
      OnlyClosedItemsOf(p, bom, qty / bom.batch, ancestors, level, |bom.lines|);
      forall r | r in SortRows(rows) ensures r in rows { assert r in multiset(SortRows(rows)); }
    }
  }

  lemma {:induction false} OnlyClosedItemsOf(p: Plan, bom: Bom, scale: real, ancestors: set<Item>, level: int, n: nat)
    requires n <= |bom.lines| && bom.produces !in ancestors
    requires ExplodeLines(p, bom, scale, ancestors, level, n).Ok?
    ensures Emitted(p, ExplodeLines(p, bom, scale, ancestors, level, n).value)
    decreases Pending(p, bom, ancestors), n
  {
    if n > 0 {
      OnlyClosedItemsOf(p, bom, scale, ancestors, level, n - 1);
      var line := bom.lines[n-1];
      var need := Need(p, line, scale);
      if need > 0.0 && Opened(p, line.item) {
        OnlyClosedItems(p, p.cat[line.item], need, ancestors + {bom.produces}, level + 1);
      }
      EmittedAddAll(p, ExplodeLines(p, bom, scale, ancestors, level, n - 1).value,
                    ExplodeLine(p, bom, scale, ancestors, level, n - 1).value);
    }
  }

  // Whatever a walkable explosion emits can be exploded on its own.
  lemma {:induction false} LeavesWalkable(cat: Catalogue, p: Plan, bom: Bom, qty: real, ancestors: set<Item>, level: int)
    requires p.cat == cat && !p.flat && Walkable(cat, true, bom, ancestors)
    ensures forall l <- Leaves(p, bom, qty, ancestors, level) :: l.item in cat ==> Walkable(cat, true, cat[l.item], {})
    decreases Pending(p, bom, ancestors), |bom.lines| + 1
  {
    if qty > 0.0 {
      LeavesOfWalkable(cat, p, bom, qty / bom.batch, ancestors, level, |bom.lines|);
    }
  }

  lemma {:induction false} LeavesOfWalkable(cat: Catalogue, p: Plan, bom: Bom, scale: real, ancestors: set<Item>, level: int, n: nat)
    requires p.cat == cat && !p.flat && Walkable(cat, true, bom, ancestors) && scale > 0.0 && n <= |bom.lines|
    ensures forall l <- LeavesOf(p, bom, scale, ancestors, level, n) :: l.item in cat ==> Walkable(cat, true, cat[l.item], {})
    decreases Pending(p, bom, ancestors), n
  {
    if n > 0 {
      LeavesOfWalkable(cat, p, bom, scale, ancestors, level, n - 1);
      var line := bom.lines[n-1];
      var need := Need(p, line, scale);
      NeedSign(p, line, scale);
      if need > 0.0 && line.item in cat {
        assert Opened(Plan(cat, Exact, true), line.item);
        if Opened(p, line.item) {
          LeavesWalkable(cat, p, cat[line.item], need, ancestors + {bom.produces}, level + 1);
        } else {
          WalkableFewerAncestors(cat, true, cat[line.item], {}, ancestors + {bom.produces});
        }
      }
    }
  }

  lemma RowsComeFromLeaves(p: Plan, bom: Bom, qty: real, ancestors: set<Item>, level: int)
    requires Explode(p, bom, qty, ancestors, level).Ok?
    ensures forall r <- Explode(p, bom, qty, ancestors, level).value ::
      exists l <- Leaves(p, bom, qty, ancestors, level) :: l.item == r.item
  {
    var rows := Explode(p, bom, qty, ancestors, level).value;
    var leaves := Leaves(p, bom, qty, ancestors, level);
    forall i | 0 <= i < |rows|
      ensures exists l <- leaves :: l.item == rows[i].item
    {
      var k := KeyOf(rows[i]);
      MergedSummaries(p, bom, qty, ancestors, level, k);
      SummaryDistinct(rows, k);
      SummaryMeans(leaves, k);
      var j :| 0 <= j < |leaves| && KeyOf(leaves[j]) == k;
      assert leaves[j] in leaves;
    }
  }

  /** Whenever the full explosion succeeds, so does exploding phantoms only and then
      flattening every line that has a BOM; all weighted totals, hence the total of every
      (item, warehouse, alternative) key, agree. */
  lemma TwoStagesEqualFull(cat: Catalogue, bom: Bom, qty: real, w: Key -> real)
    requires Explode(Plan(cat, Exact, true), bom, qty, {}, 0).Ok?
    ensures var first := Explode(Plan(cat, Exact, false), bom, qty, {}, 0);
      && first.Ok?
      && SecondStage(Exact, cat, first.value).Ok?
      && Weigh(SecondStage(Exact, cat, first.value).value, w)
           == Weigh(Explode(Plan(cat, Exact, true), bom, qty, {}, 0).value, w)
  {
    if qty > 0.0 {
      var full, phantoms := Plan(cat, Exact, true), Plan(cat, Exact, false);
      SuccessIsWalkable(cat, true, bom, qty, {}, 0);
      WalkableFlat(cat, bom, {});
      WalkableSucceeds(phantoms, bom, qty, {}, 0);
      var first := Explode(phantoms, bom, qty, {}, 0).value;
      OnlyClosedItems(phantoms, bom, qty, {}, 0);
      LeavesWalkable(cat, phantoms, bom, qty, {}, 0);
      RowsComeFromLeaves(phantoms, bom, qty, {}, 0);
      SecondStageTotals(cat, first, w);
      WeightConserved(phantoms, bom, qty, {}, 0, Remaining(cat, w));
      ExactTotals(cat, false, bom, qty, {}, 0, Remaining(cat, w));
      PerUnitInStages(cat, bom, {}, w);
      WeightConserved(full, bom, qty, {}, 0, w);
      ExactTotals(cat, true, bom, qty, {}, 0, w);
    }
  }

  // --- Rounding ---

  ghost predicate NonNegative(w: Key -> real) {
    forall k :: w(k) >= 0.0
  }

  // The downstream requirement of one unit, summed over every line that is met: what half a
  // unit in the sixth place, lost or gained at each of them, can amount to at the leaves.
  ghost function Slack(cat: Catalogue, flat: bool, bom: Bom, ancestors: set<Item>, w: Key -> real): real
    decreases Pending(Plan(cat, Exact, flat), bom, ancestors), |bom.lines| + 1
  {
    if bom.batch <= 0.0 || bom.produces in ancestors then 0.0
    else SlackOf(cat, flat, bom, ancestors, w, |bom.lines|)
  }

  ghost function SlackOf(cat: Catalogue, flat: bool, bom: Bom, ancestors: set<Item>, w: Key -> real, n: nat): real
    requires n <= |bom.lines| && bom.batch > 0.0 && bom.produces !in ancestors
    decreases Pending(Plan(cat, Exact, flat), bom, ancestors), n
  {
    if n == 0 then 0.0
    else SlackOf(cat, flat, bom, ancestors, w, n - 1) + LineSlack(cat, flat, bom, ancestors, w, n - 1)
  }

  ghost function LineSlack(cat: Catalogue, flat: bool, bom: Bom, ancestors: set<Item>, w: Key -> real, i: nat): real
    requires i < |bom.lines| && bom.produces !in ancestors
    decreases Pending(Plan(cat, Exact, flat), bom, ancestors), 0
  {
    var line := bom.lines[i];
    var below :=
      if Opened(Plan(cat, Exact, flat), line.item)
      then Slack(cat, flat, cat[line.item], ancestors + {bom.produces}, w) else 0.0;
    if line.qty <= 0.0 then 0.0 else Downstream(cat, flat, bom, ancestors, w, i) + below
  }

  lemma {:induction false} PerUnitNonNegative(cat: Catalogue, flat: bool, bom: Bom, ancestors: set<Item>, w: Key -> real)
    requires NonNegative(w)
    ensures PerUnit(cat, flat, bom, ancestors, w) >= 0.0 && Slack(cat, flat, bom, ancestors, w) >= 0.0
    decreases Pending(Plan(cat, Exact, flat), bom, ancestors), |bom.lines| + 1
  {
    if bom.batch > 0.0 && bom.produces !in ancestors {
      PerUnitOfNonNegative(cat, flat, bom, ancestors, w, |bom.lines|);
    }
  }

  lemma {:induction false} PerUnitOfNonNegative(cat: Catalogue, flat: bool, bom: Bom, ancestors: set<Item>, w: Key -> real, n: nat)
    requires NonNegative(w) && n <= |bom.lines| && bom.batch > 0.0 && bom.produces !in ancestors
    ensures PerUnitOf(cat, flat, bom, ancestors, w, n) >= 0.0 && SlackOf(cat, flat, bom, ancestors, w, n) >= 0.0
    decreases Pending(Plan(cat, Exact, flat), bom, ancestors), n
  {
    if n > 0 {
      PerUnitOfNonNegative(cat, flat, bom, ancestors, w, n - 1);
      var line := bom.lines[n-1];
      if line.qty > 0.0 {
        if Opened(Plan(cat, Exact, flat), line.item) {
          PerUnitNonNegative(cat, flat, cat[line.item], ancestors + {bom.produces}, w);
        }
        PositiveProduct(line.qty / bom.batch, Downstream(cat, flat, bom, ancestors, w, n - 1));
      }
    }
  }

  lemma PositiveProduct(a: real, b: real)
    requires a >= 0.0 && b >= 0.0
    ensures Scaled(a, b) >= 0.0
  {
  }

  // An error of at most half a micro-unit in a factor.
  lemma FactorError(need: real, exact: real, d: real)
    requires d >= 0.0 && Within(need, exact, HALF_MICRO)
    ensures Within(Scaled(need, d), Scaled(exact, d), HALF_MICRO * d)
  {
    var e := need - exact;
    ScaledSum(exact, e, d);
    ScaledAtMost(e, HALF_MICRO, d);
    ScaledAtMost(-HALF_MICRO, e, d);
    assert Scaled(HALF_MICRO, d) == HALF_MICRO * d && Scaled(-HALF_MICRO, d) == -(HALF_MICRO * d);
    hide Scaled;
    assert need == exact + e;
  }

  lemma ScaledAtMost(a: real, b: real, d: real)
    requires a <= b && d >= 0.0
    ensures Scaled(a, d) <= Scaled(b, d)
  {
    assert (b - a) * d >= 0.0;
  }

  /** Rounding every requirement to six places, and dropping those that vanish, moves the
      leaves by at most half a micro-unit times a factor that the BOM tree alone determines. */
  lemma {:induction false} RoundedLeaves(cat: Catalogue, flat: bool, bom: Bom, qty: real, ancestors: set<Item>, level: int,
                                         w: Key -> real)
    requires qty > 0.0 && Walkable(cat, flat, bom, ancestors) && NonNegative(w)
    ensures Within(Weigh(Leaves(Plan(cat, Micro, flat), bom, qty, ancestors, level), w),
                   Scaled(qty, PerUnit(cat, flat, bom, ancestors, w)),
                   HALF_MICRO * Slack(cat, flat, bom, ancestors, w))
    decreases Pending(Plan(cat, Exact, flat), bom, ancestors), |bom.lines| + 1
  {
    RoundedLeavesOf(cat, flat, bom, qty, ancestors, level, w, |bom.lines|);
  }

  lemma {:induction false} RoundedLeavesOf(cat: Catalogue, flat: bool, bom: Bom, qty: real, ancestors: set<Item>, level: int,
                                           w: Key -> real, n: nat)
    requires qty > 0.0 && Walkable(cat, flat, bom, ancestors) && NonNegative(w) && n <= |bom.lines|
    ensures Within(Weigh(LeavesOf(Plan(cat, Micro, flat), bom, qty / bom.batch, ancestors, level, n), w),
                   Scaled(qty, PerUnitOf(cat, flat, bom, ancestors, w, n)),
                   HALF_MICRO * SlackOf(cat, flat, bom, ancestors, w, n))
    decreases Pending(Plan(cat, Exact, flat), bom, ancestors), n
  {
    if n > 0 {
      var p, scale := Plan(cat, Micro, flat), qty / bom.batch;
      RoundedLine(cat, flat, bom, qty, ancestors, level, w, n - 1);
      RoundedLeavesOf(cat, flat, bom, qty, ancestors, level, w, n - 1);
      WeighConcat(LeavesOf(p, bom, scale, ancestors, level, n - 1),
                  LineLeaves(p, bom, scale, ancestors, level, n - 1), w);
      ScaledSumRight(qty, PerUnitOf(cat, flat, bom, ancestors, w, n - 1),
                     LinePerUnit(cat, flat, bom, ancestors, w, n - 1));
    }
  }

  // The same for the leaves below one component line.
  lemma {:induction false} RoundedLine(cat: Catalogue, flat: bool, bom: Bom, qty: real, ancestors: set<Item>, level: int,
                                       w: Key -> real, i: nat)
    requires qty > 0.0 && Walkable(cat, flat, bom, ancestors) && NonNegative(w) && i < |bom.lines|
    ensures Within(Weigh(LineLeaves(Plan(cat, Micro, flat), bom, qty / bom.batch, ancestors, level, i), w),
                   Scaled(qty, LinePerUnit(cat, flat, bom, ancestors, w, i)),
                   HALF_MICRO * LineSlack(cat, flat, bom, ancestors, w, i))
    decreases Pending(Plan(cat, Exact, flat), bom, ancestors), 0
  {
    var p, scale, line := Plan(cat, Micro, flat), qty / bom.batch, bom.lines[i];
    var need := Need(p, line, scale);
    NeedSign(p, line, scale);
    if line.qty > 0.0 {
      var d := Downstream(cat, flat, bom, ancestors, w, i);
      var exact := Scaled(line.qty, scale);
      var walked := Opened(Plan(cat, Exact, flat), line.item);
      ScaledByBatch(qty, bom.batch, line.qty, d);
      if walked {
        PerUnitNonNegative(cat, flat, cat[line.item], ancestors + {bom.produces}, w);
      }
      FactorError(need, exact, d);
      if need > 0.0 {
        if walked {
          RoundedLeaves(cat, flat, cat[line.item], need, ancestors + {bom.produces}, level + 1, w);
        } else {
          WeighOne(LeafRow(p, line, need, level), w);
        }
      } else {
        PositiveProduct(exact, d);
        DroppedNeed(need, exact, d);
      }
    }
  }

  // A requirement rounded away was worth no more than half a micro-unit.
  lemma DroppedNeed(need: real, exact: real, d: real)
    requires need <= 0.0 <= exact && d >= 0.0 && Within(need, exact, HALF_MICRO)
    ensures Scaled(exact, d) <= HALF_MICRO * d
  {
    assert exact * d <= HALF_MICRO * d;
  }

  /** For every order size, the rounded explosion succeeds where the exact one does, and each
      weighted total of its result is within the same bound of the exact requirement. */
  lemma RoundingBound(cat: Catalogue, flat: bool, bom: Bom, qty: real, w: Key -> real)
    requires qty > 0.0 && NonNegative(w)
    requires Explode(Plan(cat, Exact, flat), bom, qty, {}, 0).Ok?
    ensures var rounded, exact := Explode(Plan(cat, Micro, flat), bom, qty, {}, 0),
                                  Explode(Plan(cat, Exact, flat), bom, qty, {}, 0);
      rounded.Ok? && Within(Weigh(rounded.value, w), Weigh(exact.value, w),
                            HALF_MICRO * Slack(cat, flat, bom, {}, w))
  {
    SuccessIsWalkable(cat, flat, bom, qty, {}, 0);
    WalkableSucceeds(Plan(cat, Micro, flat), bom, qty, {}, 0);
    WeightConserved(Plan(cat, Micro, flat), bom, qty, {}, 0, w);
    WeightConserved(Plan(cat, Exact, flat), bom, qty, {}, 0, w);
    ExactTotals(cat, flat, bom, qty, {}, 0, w);
    RoundedLeaves(cat, flat, bom, qty, {}, 0, w);
  }
}
