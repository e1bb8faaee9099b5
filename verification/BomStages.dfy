/** Exploding in two stages as the code rounds: within the same bound of the exact requirement
    as exploding in full. */
module BomStages {
  import opened Prelude
  import opened Rounding
  import opened BomCatalogue
  import opened RowOrder
  import opened BomExplosion
  import opened BomMerging
  import opened BomTotals

  // --- What rounding in the second stage can amount to ---

  // The slack of flattening an item that the first stage emits.
  ghost function Below(cat: Catalogue, w: Key -> real, item: Item): real {
    if item in cat then Slack(cat, true, cat[item], {}, w) else 0.0
  }

  ghost function RowSlack(cat: Catalogue, w: Key -> real, rows: seq<Row>): real {
    if rows == [] then 0.0
    else RowSlack(cat, w, rows[..|rows|-1]) + Below(cat, w, rows[|rows|-1].item)
  }

  lemma BelowNonNegative(cat: Catalogue, w: Key -> real, item: Item)
    requires NonNegative(w)
    ensures Below(cat, w, item) >= 0.0
  {
    if item in cat {
      PerUnitNonNegative(cat, true, cat[item], {}, w);
    }
  }

  lemma {:induction false} RowSlackConcat(cat: Catalogue, w: Key -> real, a: seq<Row>, b: seq<Row>)
    ensures RowSlack(cat, w, a + b) == RowSlack(cat, w, a) + RowSlack(cat, w, b)
  {
    hide Below;
    if b == [] {
      assert a + b == a;
    } else {
      assert (a + b)[..|a + b| - 1] == a + b[..|b|-1];
      RowSlackConcat(cat, w, a, b[..|b|-1]);
    }
  }

  lemma RowSlackOne(cat: Catalogue, w: Key -> real, r: Row)
    ensures RowSlack(cat, w, [r]) == Below(cat, w, r.item)
  {
    hide Below;
    assert [r][..0] == [];
  }

  lemma RowSlackReplace(cat: Catalogue, w: Key -> real, rows: seq<Row>, i: nat, r: Row)
    requires i < |rows| && r.item == rows[i].item
    ensures RowSlack(cat, w, rows[i := r]) == RowSlack(cat, w, rows)
  {
    hide RowSlack, Below;
    assert rows == rows[..i] + [rows[i]] + rows[i+1..];
    assert rows[i := r] == rows[..i] + [r] + rows[i+1..];
    RowSlackConcat(cat, w, rows[..i] + [rows[i]], rows[i+1..]);
    RowSlackConcat(cat, w, rows[..i], [rows[i]]);
    RowSlackConcat(cat, w, rows[..i] + [r], rows[i+1..]);
    RowSlackConcat(cat, w, rows[..i], [r]);
    RowSlackOne(cat, w, rows[i]);
    RowSlackOne(cat, w, r);
  }

  // Merging two rows into one can only save a rounding.
  lemma RowSlackAdd(cat: Catalogue, w: Key -> real, rows: seq<Row>, row: Row)
    requires NonNegative(w)
    ensures RowSlack(cat, w, AddRow(rows, row)) <= RowSlack(cat, w, rows) + Below(cat, w, row.item)
  {
    hide RowSlack, Below, NonNegative;
    BelowNonNegative(cat, w, row.item);
    var i := IndexOf(rows, KeyOf(row));
    if i < |rows| {
      RowSlackReplace(cat, w, rows, i, Merge(rows[i], row));
    } else {
      RowSlackConcat(cat, w, rows, [row]);
      RowSlackOne(cat, w, row);
    }
  }

  lemma {:induction false} RowSlackAddAll(cat: Catalogue, w: Key -> real, rows: seq<Row>, more: seq<Row>)
    requires NonNegative(w)
    ensures RowSlack(cat, w, AddAll(rows, more)) <= RowSlack(cat, w, rows) + RowSlack(cat, w, more)
  {
    hide Below, NonNegative, AddRow;
    if more != [] {
      RowSlackAddAll(cat, w, rows, more[..|more|-1]);
      RowSlackAdd(cat, w, AddAll(rows, more[..|more|-1]), more[|more|-1]);
    }
  }

  lemma {:induction false} RowSlackInsert(cat: Catalogue, w: Key -> real, rows: seq<Row>, r: Row)
    ensures RowSlack(cat, w, Insert(rows, r)) == RowSlack(cat, w, rows) + Below(cat, w, r.item)
  {
    hide Below, RowLe;
    if rows == [] {
      RowSlackOne(cat, w, r);
    } else {
      var front, last := rows[..|rows|-1], rows[|rows|-1];
      if RowLe(last, r) {
        RowSlackConcat(cat, w, rows, [r]);
        RowSlackOne(cat, w, r);
      } else {
        RowSlackInsert(cat, w, front, r);
        RowSlackConcat(cat, w, Insert(front, r), [last]);
        RowSlackOne(cat, w, last);
      }
    }
  }

  lemma {:induction false} RowSlackSort(cat: Catalogue, w: Key -> real, rows: seq<Row>)
    ensures RowSlack(cat, w, SortRows(rows)) == RowSlack(cat, w, rows)
  {
    hide Below;
    if rows != [] {
      RowSlackSort(cat, w, rows[..|rows|-1]);
      RowSlackInsert(cat, w, SortRows(rows[..|rows|-1]), rows[|rows|-1]);
    }
  }

  // --- The slack of the full explosion, split over the stages ---

  // Ancestors do not matter on a walkable BOM.
  lemma {:induction false} SlackFewerAncestors(cat: Catalogue, flat: bool, bom: Bom, fewer: set<Item>, ancestors: set<Item>,
                                               w: Key -> real)
    requires fewer <= ancestors && Walkable(cat, flat, bom, ancestors)
    ensures Slack(cat, flat, bom, fewer, w) == Slack(cat, flat, bom, ancestors, w)
    decreases Pending(Plan(cat, Exact, flat), bom, ancestors), |bom.lines| + 1
  {
    SlackOfFewerAncestors(cat, flat, bom, fewer, ancestors, w, |bom.lines|);
  }

  lemma {:induction false} SlackOfFewerAncestors(cat: Catalogue, flat: bool, bom: Bom, fewer: set<Item>,
                                                 ancestors: set<Item>, w: Key -> real, n: nat)
    requires fewer <= ancestors && Walkable(cat, flat, bom, ancestors) && n <= |bom.lines|
    ensures SlackOf(cat, flat, bom, fewer, w, n) == SlackOf(cat, flat, bom, ancestors, w, n)
    decreases Pending(Plan(cat, Exact, flat), bom, ancestors), n
  {
    if n > 0 {
      SlackOfFewerAncestors(cat, flat, bom, fewer, ancestors, w, n - 1);
      var line := bom.lines[n-1];
      if line.qty > 0.0 && Opened(Plan(cat, Exact, flat), line.item) {
        SlackFewerAncestors(cat, flat, cat[line.item], fewer + {bom.produces}, ancestors + {bom.produces}, w);
        PerUnitFewerAncestors(cat, flat, cat[line.item], fewer + {bom.produces}, ancestors + {bom.produces}, w);
      }
      assert LineSlack(cat, flat, bom, fewer, w, n - 1) == LineSlack(cat, flat, bom, ancestors, w, n - 1);
    }
  }

  // What a line of the first stage hands to the second one, told from the BOM tree: the slack of
  // an emitted item with a BOM, and of everything emitted below a phantom.
  ghost function Handed(cat: Catalogue, bom: Bom, ancestors: set<Item>, w: Key -> real): real {
    Slack(cat, true, bom, ancestors, w) - Slack(cat, false, bom, ancestors, Remaining(cat, w))
  }

  ghost function HandedBy(cat: Catalogue, bom: Bom, ancestors: set<Item>, w: Key -> real, i: nat): real
    requires i < |bom.lines| && bom.produces !in ancestors
  {
    var item := bom.lines[i].item;
    if bom.lines[i].qty <= 0.0 || item !in cat then 0.0
    else if cat[item].phantom then Handed(cat, cat[item], ancestors + {bom.produces}, w)
    else Below(cat, w, item)
  }

  lemma LineHands(cat: Catalogue, bom: Bom, ancestors: set<Item>, w: Key -> real, i: nat)
    requires Walkable(cat, true, bom, ancestors) && i < |bom.lines|
    ensures LineSlack(cat, true, bom, ancestors, w, i) - LineSlack(cat, false, bom, ancestors, Remaining(cat, w), i)
         == HandedBy(cat, bom, ancestors, w, i)
  {
    var line := bom.lines[i];
    if line.qty > 0.0 && line.item in cat {
      assert Opened(Plan(cat, Exact, true), line.item);
      if cat[line.item].phantom {
        PerUnitInStages(cat, cat[line.item], ancestors + {bom.produces}, w);
      } else {
        PerUnitFewerAncestors(cat, true, cat[line.item], {}, ancestors + {bom.produces}, w);
        SlackFewerAncestors(cat, true, cat[line.item], {}, ancestors + {bom.produces}, w);
      }
    }
  }

  lemma {:induction false} HandedNonNegative(cat: Catalogue, bom: Bom, ancestors: set<Item>, w: Key -> real)
    requires Walkable(cat, true, bom, ancestors) && NonNegative(w)
    ensures Handed(cat, bom, ancestors, w) >= 0.0
    decreases Pending(Plan(cat, Exact, true), bom, ancestors), |bom.lines| + 1
  {
    HandedOfNonNegative(cat, bom, ancestors, w, |bom.lines|);
  }

  lemma {:induction false} HandedOfNonNegative(cat: Catalogue, bom: Bom, ancestors: set<Item>, w: Key -> real, n: nat)
    requires Walkable(cat, true, bom, ancestors) && NonNegative(w) && n <= |bom.lines|
    ensures SlackOf(cat, true, bom, ancestors, w, n) >= SlackOf(cat, false, bom, ancestors, Remaining(cat, w), n)
    decreases Pending(Plan(cat, Exact, true), bom, ancestors), n
  {
    if n > 0 {
      HandedOfNonNegative(cat, bom, ancestors, w, n - 1);
      LineHands(cat, bom, ancestors, w, n - 1);
      HandedByNonNegative(cat, bom, ancestors, w, n - 1);
    }
  }

  lemma {:induction false} HandedByNonNegative(cat: Catalogue, bom: Bom, ancestors: set<Item>, w: Key -> real, i: nat)
    requires Walkable(cat, true, bom, ancestors) && NonNegative(w) && i < |bom.lines|
    ensures HandedBy(cat, bom, ancestors, w, i) >= 0.0
    decreases Pending(Plan(cat, Exact, true), bom, ancestors), 0
  {
    var line := bom.lines[i];
    if line.qty > 0.0 && line.item in cat {
      assert Opened(Plan(cat, Exact, true), line.item);
      if cat[line.item].phantom {
        HandedNonNegative(cat, cat[line.item], ancestors + {bom.produces}, w);
      } else {
        BelowNonNegative(cat, w, line.item);
      }
    }
  }

  // The rows of the first stage carry no more slack than the tree hands over.
  lemma {:induction false} FirstStageSlack(cat: Catalogue, bom: Bom, qty: real, ancestors: set<Item>, level: int, w: Key -> real)
    requires Walkable(cat, true, bom, ancestors) && NonNegative(w)
    requires Explode(Plan(cat, Micro, false), bom, qty, ancestors, level).Ok?
    ensures RowSlack(cat, w, Explode(Plan(cat, Micro, false), bom, qty, ancestors, level).value)
         <= Handed(cat, bom, ancestors, w)
    decreases Pending(Plan(cat, Exact, true), bom, ancestors), |bom.lines| + 1
  {
    if qty > 0.0 {
      FirstStageSlackOf(cat, bom, qty / bom.batch, ancestors, level, w, |bom.lines|);
      RowSlackSort(cat, w, ExplodeLines(Plan(cat, Micro, false), bom, qty / bom.batch, ancestors, level, |bom.lines|).value);
    } else {
      HandedNonNegative(cat, bom, ancestors, w);
    }
  }

  lemma {:induction false} FirstStageSlackOf(cat: Catalogue, bom: Bom, scale: real, ancestors: set<Item>, level: int,
                                             w: Key -> real, n: nat)
    requires Walkable(cat, true, bom, ancestors) && NonNegative(w) && scale > 0.0 && n <= |bom.lines|
    requires ExplodeLines(Plan(cat, Micro, false), bom, scale, ancestors, level, n).Ok?
    ensures RowSlack(cat, w, ExplodeLines(Plan(cat, Micro, false), bom, scale, ancestors, level, n).value)
         <= SlackOf(cat, true, bom, ancestors, w, n) - SlackOf(cat, false, bom, ancestors, Remaining(cat, w), n)
    decreases Pending(Plan(cat, Exact, true), bom, ancestors), n
  {
    hide *;
    var p := Plan(cat, Micro, false);
    SlackUpTo(cat, bom, ancestors, w, n);
    if n == 0 {
      NoLeavesYet(p, bom, scale, ancestors, level);
      NoRowSlack(cat, w);
    } else {
      LinesUpTo(p, bom, scale, ancestors, level, n);
      FirstStageSlackOf(cat, bom, scale, ancestors, level, w, n - 1);
      FirstStageLine(cat, bom, scale, ancestors, level, w, n - 1);
      LineHands(cat, bom, ancestors, w, n - 1);
      RowSlackAddAll(cat, w, ExplodeLines(p, bom, scale, ancestors, level, n - 1).value,
                     ExplodeLine(p, bom, scale, ancestors, level, n - 1).value);
    }
  }

  lemma NoRowSlack(cat: Catalogue, w: Key -> real)
    ensures RowSlack(cat, w, []) == 0.0
  {
  }

  lemma SlackUpTo(cat: Catalogue, bom: Bom, ancestors: set<Item>, w: Key -> real, n: nat)
    requires Walkable(cat, true, bom, ancestors) && n <= |bom.lines|
    ensures bom.batch > 0.0 && bom.produces !in ancestors
    ensures forall flat, v: Key -> real ::
      SlackOf(cat, flat, bom, ancestors, v, n) ==
        if n == 0 then 0.0
        else SlackOf(cat, flat, bom, ancestors, v, n - 1) + LineSlack(cat, flat, bom, ancestors, v, n - 1)
  {
  }

  lemma {:induction false} FirstStageLine(cat: Catalogue, bom: Bom, scale: real, ancestors: set<Item>, level: int,
                                          w: Key -> real, i: nat)
    requires Walkable(cat, true, bom, ancestors) && NonNegative(w) && scale > 0.0 && i < |bom.lines|
    requires ExplodeLine(Plan(cat, Micro, false), bom, scale, ancestors, level, i).Ok?
    ensures RowSlack(cat, w, ExplodeLine(Plan(cat, Micro, false), bom, scale, ancestors, level, i).value)
         <= HandedBy(cat, bom, ancestors, w, i)
    decreases Pending(Plan(cat, Exact, true), bom, ancestors), 0
  {
    var p, line := Plan(cat, Micro, false), bom.lines[i];
    var need := Need(p, line, scale);
    NeedSign(p, line, scale);
    HandedByNonNegative(cat, bom, ancestors, w, i);
    if need > 0.0 {
      if Opened(p, line.item) {
        assert Opened(Plan(cat, Exact, true), line.item);
        FirstStageSlack(cat, cat[line.item], need, ancestors + {bom.produces}, level + 1, w);
      } else {
        RowSlackOne(cat, w, LeafRow(p, line, need, level));
      }
    }
  }

  // --- The second stage ---

  lemma WithinSum(a: real, b: real, c: real, d: real, x: real, y: real)
    requires Within(a, b, x) && Within(c, d, y)
    ensures Within(a + c, b + d, x + y)
  {
  }

  lemma {:induction false} SecondStageRounded(cat: Catalogue, rows: seq<Row>, w: Key -> real)
    requires NonNegative(w) && forall r <- rows :: r.qty > 0.0
    requires forall r <- rows :: r.item in cat ==> Walkable(cat, true, cat[r.item], {})
    ensures SecondStage(Micro, cat, rows).Ok?
    ensures Within(Weigh(SecondStage(Micro, cat, rows).value, w), Weigh(rows, Remaining(cat, w)),
                   Scaled(HALF_MICRO, RowSlack(cat, w, rows)))
    decreases |rows|
  {
    hide *;
    if rows == [] {
      NothingInStages(cat, w);
    } else {
      var r, front := rows[|rows|-1], rows[..|rows|-1];
      assert r in rows && forall x <- front :: x in rows;
      SecondStageRounded(cat, front, w);
      var done := SecondStage(Micro, cat, front).value;
      OneRowRounded(cat, r, w);
      OneRowMore(cat, rows, w);
      var more := Flattened(cat, r);
      WeighConcat(done, more, w);
      ScaledSumRight(HALF_MICRO, RowSlack(cat, w, front), Below(cat, w, r.item));
      WithinSum(Weigh(done, w), Weigh(front, Remaining(cat, w)), Weigh(more, w),
                Scaled(r.qty, Remaining(cat, w)(KeyOf(r))),
                Scaled(HALF_MICRO, RowSlack(cat, w, front)), Scaled(HALF_MICRO, Below(cat, w, r.item)));
    }
  }

  lemma NothingInStages(cat: Catalogue, w: Key -> real)
    ensures SecondStage(Micro, cat, []) == Ok([]) && Weigh([], w) == 0.0 == Weigh([], Remaining(cat, w))
    ensures RowSlack(cat, w, []) == 0.0 && Within(0.0, 0.0, Scaled(HALF_MICRO, 0.0))
  {
    hide Remaining;
  }

  // What a row becomes in the second stage.
  ghost function Flattened(cat: Catalogue, r: Row): seq<Row> {
    if r.item !in cat then [r]
    else
      var more := Explode(Plan(cat, Micro, true), cat[r.item], r.qty, {}, 0);
      if more.Ok? then more.value else []
  }

  lemma OneRowMore(cat: Catalogue, rows: seq<Row>, w: Key -> real)
    requires rows != [] && SecondStage(Micro, cat, rows[..|rows|-1]).Ok?
    requires var r := rows[|rows|-1];
      r.item in cat ==> Explode(Plan(cat, Micro, true), cat[r.item], r.qty, {}, 0).Ok?
    ensures var r, front := rows[|rows|-1], rows[..|rows|-1];
      && SecondStage(Micro, cat, rows) == Ok(SecondStage(Micro, cat, front).value + Flattened(cat, r))
      && Weigh(rows, Remaining(cat, w)) == Weigh(front, Remaining(cat, w)) + Scaled(r.qty, Remaining(cat, w)(KeyOf(r)))
      && RowSlack(cat, w, rows) == RowSlack(cat, w, front) + Below(cat, w, r.item)
  {
    hide Explode, Remaining, Below, Scaled;
  }

  lemma OneRowRounded(cat: Catalogue, r: Row, w: Key -> real)
    requires NonNegative(w) && r.qty > 0.0 && (r.item in cat ==> Walkable(cat, true, cat[r.item], {}))
    ensures r.item in cat ==> Explode(Plan(cat, Micro, true), cat[r.item], r.qty, {}, 0).Ok?
    ensures Within(Weigh(Flattened(cat, r), w), Scaled(r.qty, Remaining(cat, w)(KeyOf(r))),
                   Scaled(HALF_MICRO, Below(cat, w, r.item)))
  {
    hide Explode, Slack, PerUnit, Leaves, Walkable, NonNegative, Weigh;
    if r.item in cat {
      var p := Plan(cat, Micro, true);
      WalkableSucceeds(p, cat[r.item], r.qty, {}, 0);
      WeightConserved(p, cat[r.item], r.qty, {}, 0, w);
      RoundedLeaves(cat, true, cat[r.item], r.qty, {}, 0, w);
      HalfTimes(Slack(cat, true, cat[r.item], {}, w));
    } else {
      WeighOne(r, w);
      HalfTimes(0.0);
    }
  }

  lemma HalfTimes(x: real)
    ensures Scaled(HALF_MICRO, x) == HALF_MICRO * x
  {
  }

  lemma RemainingNonNegative(cat: Catalogue, w: Key -> real)
    requires NonNegative(w)
    ensures NonNegative(Remaining(cat, w))
  {
    forall k
      ensures Remaining(cat, w)(k) >= 0.0
    {
      if k.item in cat {
        PerUnitNonNegative(cat, true, cat[k.item], {}, w);
      }
    }
  }

  // The first stage gives positive rows that can be flattened.
  lemma FirstStageRows(cat: Catalogue, bom: Bom, qty: real)
    requires qty > 0.0 && Walkable(cat, true, bom, {})
    ensures var first := Explode(Plan(cat, Micro, false), bom, qty, {}, 0);
      && first.Ok?
      && (forall r <- first.value :: r.qty > 0.0)
      && (forall r <- first.value :: r.item in cat ==> Walkable(cat, true, cat[r.item], {}))
  {
    var p := Plan(cat, Micro, false);
    WalkableFlat(cat, bom, {});
    WalkableSucceeds(p, bom, qty, {}, 0);
    OnlyClosedItems(p, bom, qty, {}, 0);
    LeavesWalkable(cat, p, bom, qty, {}, 0);
    RowsComeFromLeaves(p, bom, qty, {}, 0);
  }

  /** As the code rounds, for every order size: whenever the exact explosion succeeds, exploding
      phantoms first and flattening the result afterwards succeeds too, and each weighted total is
      within half a micro-unit times the slack of the full explosion of the exact requirement;
      merging between the stages costs nothing. */
  lemma RoundedTwoStages(cat: Catalogue, bom: Bom, qty: real, w: Key -> real)
    requires qty > 0.0 && NonNegative(w)
    requires Explode(Plan(cat, Exact, true), bom, qty, {}, 0).Ok?
    ensures var first := Explode(Plan(cat, Micro, false), bom, qty, {}, 0);
      && first.Ok?
      && SecondStage(Micro, cat, first.value).Ok?
      && Within(Weigh(SecondStage(Micro, cat, first.value).value, w),
                Weigh(Explode(Plan(cat, Exact, true), bom, qty, {}, 0).value, w),
                Scaled(HALF_MICRO, Slack(cat, true, bom, {}, w)))
  {
    var first := Plan(cat, Micro, false);
    SuccessIsWalkable(cat, true, bom, qty, {}, 0);
    hide Explode, Leaves, Slack, PerUnit, Weigh, SecondStage, RowSlack, NonNegative, Walkable;
    FirstStageRows(cat, bom, qty);
    WalkableFlat(cat, bom, {});
    var rows := Explode(first, bom, qty, {}, 0).value;
    SecondStageRounded(cat, rows, w);
    FirstStageSlack(cat, bom, qty, {}, 0, w);
    RemainingNonNegative(cat, w);
    WeightConserved(first, bom, qty, {}, 0, Remaining(cat, w));
    RoundedLeaves(cat, false, bom, qty, {}, 0, Remaining(cat, w));
    PerUnitInStages(cat, bom, {}, w);
    WeightConserved(Plan(cat, Exact, true), bom, qty, {}, 0, w);
    ExactTotals(cat, true, bom, qty, {}, 0, w);
    hide Remaining;
    WithinChain(Weigh(SecondStage(Micro, cat, rows).value, w), Weigh(rows, Remaining(cat, w)),
                Weigh(Explode(Plan(cat, Exact, true), bom, qty, {}, 0).value, w),
                RowSlack(cat, w, rows), Slack(cat, false, bom, {}, Remaining(cat, w)), Slack(cat, true, bom, {}, w));
  }

  lemma WithinChain(a: real, b: real, c: real, x: real, y: real, z: real)
    requires Within(a, b, Scaled(HALF_MICRO, x)) && Within(b, c, HALF_MICRO * y) && x + y <= z
    ensures Within(a, c, Scaled(HALF_MICRO, z))
  {
  }

  /** So the two ways of exploding, both rounded, differ by at most a micro-unit times that slack,
      whatever the order size. */
  lemma RoundedStagesAgree(cat: Catalogue, bom: Bom, qty: real, w: Key -> real)
    requires qty > 0.0 && NonNegative(w)
    requires Explode(Plan(cat, Exact, true), bom, qty, {}, 0).Ok?
    ensures var first, full := Explode(Plan(cat, Micro, false), bom, qty, {}, 0), Explode(Plan(cat, Micro, true), bom, qty, {}, 0);
      && first.Ok? && SecondStage(Micro, cat, first.value).Ok? && full.Ok?
      && Within(Weigh(SecondStage(Micro, cat, first.value).value, w), Weigh(full.value, w),
                Scaled(2.0 * HALF_MICRO, Slack(cat, true, bom, {}, w)))
  {
    hide Explode, Slack, Weigh, SecondStage, NonNegative;
    RoundedTwoStages(cat, bom, qty, w);
    RoundingBound(cat, true, bom, qty, w);
  }
}
