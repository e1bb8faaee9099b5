/** Merging rows at every level of the explosion loses nothing: the result is what grouping
    the unmerged leaves of the whole explosion tree once, at the root, would give. */
module BomMerging {
  import opened Prelude
  import opened Rounding
  import opened BomCatalogue
  import opened RowOrder
  import opened BomExplosion

  // --- The unmerged leaves, in the order in which the recursion meets them ---

  function Leaves(p: Plan, bom: Bom, qty: real, ancestors: set<Item>, level: int): seq<Row>
    decreases Pending(p, bom, ancestors), |bom.lines| + 1
  {
    if qty <= 0.0 || bom.batch <= 0.0 || bom.produces in ancestors then []
    else LeavesOf(p, bom, qty / bom.batch, ancestors, level, |bom.lines|)
  }

  function LeavesOf(p: Plan, bom: Bom, scale: real, ancestors: set<Item>, level: int, n: nat): seq<Row>
    requires n <= |bom.lines| && bom.produces !in ancestors
    decreases Pending(p, bom, ancestors), n
  {
    if n == 0 then []
    else LeavesOf(p, bom, scale, ancestors, level, n - 1) + LineLeaves(p, bom, scale, ancestors, level, n - 1)
  }

  function LineLeaves(p: Plan, bom: Bom, scale: real, ancestors: set<Item>, level: int, i: nat): seq<Row>
    requires i < |bom.lines| && bom.produces !in ancestors
    decreases Pending(p, bom, ancestors), 0
  {
    var line := bom.lines[i];
    var need := Need(p, line, scale);
    if need <= 0.0 then []
    else if Opened(p, line.item) then
      Leaves(p, p.cat[line.item], need, ancestors + {bom.produces}, level + 1)
    else [LeafRow(p, line, need, level)]
  }

  // --- What all rows of one key amount to ---

  function Join(a: Option<Row>, b: Option<Row>): Option<Row> {
    if a.None? then b else if b.None? then a else Some(Merge(a.value, b.value))
  }

  function Single(r: Row, k: Key): Option<Row> {
    if KeyOf(r) == k then Some(r) else None
  }

  function Summary(rows: seq<Row>, k: Key): Option<Row> {
    if rows == [] then None
    else Join(Summary(rows[..|rows|-1], k), Single(rows[|rows|-1], k))
  }

  lemma JoinAssociative(a: Option<Row>, b: Option<Row>, c: Option<Row>)
    ensures Join(Join(a, b), c) == Join(a, Join(b, c))
  {
  }

  lemma {:induction false} SummaryConcat(a: seq<Row>, b: seq<Row>, k: Key)
    ensures Summary(a + b, k) == Join(Summary(a, k), Summary(b, k))
  {
    if b == [] {
      assert a + b == a;
    } else {
      var last := |b| - 1;
      assert (a + b)[..|a + b| - 1] == a + b[..last];
      SummaryConcat(a, b[..last], k);
      JoinAssociative(Summary(a, k), Summary(b[..last], k), Single(b[last], k));
    }
  }

  // Among rows with distinct keys the summary of a key is the row that carries it.
  lemma {:induction false} SummaryDistinct(rows: seq<Row>, k: Key)
    requires DistinctKeys(rows)
    ensures forall i | 0 <= i < |rows| && KeyOf(rows[i]) == k :: Summary(rows, k) == Some(rows[i])
    ensures (forall i | 0 <= i < |rows| :: KeyOf(rows[i]) != k) ==> Summary(rows, k) == None
  {
    if rows != [] {
      SummaryDistinct(rows[..|rows|-1], k);
    }
  }

  lemma SummaryAdd(rows: seq<Row>, row: Row, k: Key)
    requires DistinctKeys(rows)
    ensures Summary(AddRow(rows, row), k) == Join(Summary(rows, k), Single(row, k))
  {
    var added := AddRow(rows, row);
    var i := IndexOf(rows, KeyOf(row));
    SummaryDistinct(rows, k);
    SummaryDistinct(added, k);
    if i == |rows| {
      assert added[..|added|-1] == rows;
    } else if KeyOf(row) == k {
      assert KeyOf(added[i]) == k;
    } else if j :| 0 <= j < |rows| && KeyOf(rows[j]) == k {
      assert added[j] == rows[j];
    }
  }

  lemma {:induction false} SummaryAddAll(rows: seq<Row>, more: seq<Row>, k: Key)
    requires DistinctKeys(rows)
    ensures Summary(AddAll(rows, more), k) == Join(Summary(rows, k), Summary(more, k))
  {
    if more != [] {
      var last := |more| - 1;
      SummaryAddAll(rows, more[..last], k);
      SummaryAdd(AddAll(rows, more[..last]), more[last], k);
      JoinAssociative(Summary(rows, k), Summary(more[..last], k), Single(more[last], k));
    }
  }

  lemma SortKeepsDistinct(rows: seq<Row>)
    requires DistinctKeys(rows)
    ensures DistinctKeys(SortRows(rows))
  {
    var s := SortRows(rows);
    forall i, j | 0 <= i < j < |s|
      ensures KeyOf(s[i]) != KeyOf(s[j])
    {
      if KeyOf(s[i]) == KeyOf(s[j]) {
        assert s[i] in multiset(s) && s[j] in multiset(s);
        var a :| 0 <= a < |rows| && rows[a] == s[i];
        var b :| 0 <= b < |rows| && rows[b] == s[j];
        assert a == b;
        AtMostOnce(rows, a);
        TwiceMeansTwo(s, i, j);
      }
    }
  }

  lemma AtMostOnce(rows: seq<Row>, a: nat)
    requires DistinctKeys(rows) && a < |rows|
    ensures multiset(rows)[rows[a]] == 1
  {
    assert rows == rows[..a] + [rows[a]] + rows[a+1..];
    assert rows[a] !in rows[..a] && rows[a] !in rows[a+1..];
  }

  lemma TwiceMeansTwo(s: seq<Row>, i: nat, j: nat)
    requires i < j < |s| && s[i] == s[j]
    ensures multiset(s)[s[i]] >= 2
  {
    assert s == s[..i] + [s[i]] + s[i+1..j] + [s[j]] + s[j+1..];
  }

  lemma SummarySort(rows: seq<Row>, k: Key)
    requires DistinctKeys(rows)
    ensures DistinctKeys(SortRows(rows)) && Summary(SortRows(rows), k) == Summary(rows, k)
  {
    var s := SortRows(rows);
    SortKeepsDistinct(rows);
    SummaryDistinct(rows, k);
    SummaryDistinct(s, k);
    if i :| 0 <= i < |rows| && KeyOf(rows[i]) == k {
      assert rows[i] in multiset(s);
    } else {
      forall i | 0 <= i < |s| ensures KeyOf(s[i]) != k { assert s[i] in multiset(rows); }
    }
  }

  // --- Merging early equals merging once ---

  lemma {:induction false} MergedSummaries(p: Plan, bom: Bom, qty: real, ancestors: set<Item>, level: int, k: Key)
    requires Explode(p, bom, qty, ancestors, level).Ok?
    ensures var rows := Explode(p, bom, qty, ancestors, level).value;
      DistinctKeys(rows) && Sorted(rows)
      && Summary(rows, k) == Summary(Leaves(p, bom, qty, ancestors, level), k)
    decreases Pending(p, bom, ancestors), |bom.lines| + 1
  {
    if qty > 0.0 {
      var buckets := ExplodeLines(p, bom, qty / bom.batch, ancestors, level, |bom.lines|).value;
      MergedLines(p, bom, qty / bom.batch, ancestors, level, |bom.lines|, k);
      SummarySort(buckets, k);
      SortRowsSorted(buckets);
    }
  }

  lemma {:induction false} MergedLines(p: Plan, bom: Bom, scale: real, ancestors: set<Item>, level: int, n: nat, k: Key)
    requires n <= |bom.lines| && bom.produces !in ancestors
    requires ExplodeLines(p, bom, scale, ancestors, level, n).Ok?
    ensures var rows := ExplodeLines(p, bom, scale, ancestors, level, n).value;
      DistinctKeys(rows) && Summary(rows, k) == Summary(LeavesOf(p, bom, scale, ancestors, level, n), k)
    decreases Pending(p, bom, ancestors), n
  {
    hide *;
    if n == 0 {
      NoLeavesYet(p, bom, scale, ancestors, level);
    } else {
      LinesUpTo(p, bom, scale, ancestors, level, n);
      MergedLines(p, bom, scale, ancestors, level, n - 1, k);
      MergedLine(p, bom, scale, ancestors, level, n - 1, k);
      SummaryAddAll(ExplodeLines(p, bom, scale, ancestors, level, n - 1).value,
                    ExplodeLine(p, bom, scale, ancestors, level, n - 1).value, k);
      SummaryConcat(LeavesOf(p, bom, scale, ancestors, level, n - 1),
                    LineLeaves(p, bom, scale, ancestors, level, n - 1), k);
    }
  }

  lemma {:induction false} MergedLine(p: Plan, bom: Bom, scale: real, ancestors: set<Item>, level: int, i: nat, k: Key)
    requires i < |bom.lines| && bom.produces !in ancestors
    requires ExplodeLine(p, bom, scale, ancestors, level, i).Ok?
    ensures Summary(ExplodeLine(p, bom, scale, ancestors, level, i).value, k)
         == Summary(LineLeaves(p, bom, scale, ancestors, level, i), k)
    decreases Pending(p, bom, ancestors), 0
  {
    var line := bom.lines[i];
    var need := Need(p, line, scale);
    if need > 0.0 && Opened(p, line.item) {
      MergedSummaries(p, p.cat[line.item], need, ancestors + {bom.produces}, level + 1, k);
    }
  }

  // --- What a summary says ---

  // A sum over rows weighted by key: with the indicator of a key, the quantity of that key.
  ghost function Weigh(rows: seq<Row>, w: Key -> real): real {
    if rows == [] then 0.0
    else Weigh(rows[..|rows|-1], w) + Scaled(rows[|rows|-1].qty, w(KeyOf(rows[|rows|-1])))
  }

  function OnlyKey(k: Key): Key -> real {
    x => if x == k then 1.0 else 0.0
  }

  ghost function QtyOf(rows: seq<Row>, k: Key): real {
    Weigh(rows, OnlyKey(k))
  }

  lemma {:induction false} SummaryQty(rows: seq<Row>, k: Key)
    ensures QtyOf(rows, k) == if Summary(rows, k).Some? then Summary(rows, k).value.qty else 0.0
  {
    if rows != [] {
      SummaryQty(rows[..|rows|-1], k);
    }
  }

  // The rate of the first row with the key, the least of their levels.
  lemma {:induction false} SummaryMeans(rows: seq<Row>, k: Key)
    ensures Summary(rows, k).Some? <==> exists i :: 0 <= i < |rows| && KeyOf(rows[i]) == k
    ensures Summary(rows, k).Some? ==>
      var s := Summary(rows, k).value;
      var first := IndexOf(rows, k);
      && KeyOf(s) == k
      && first < |rows| && s.rate == rows[first].rate
      && (forall i | 0 <= i < |rows| && KeyOf(rows[i]) == k :: s.level <= rows[i].level)
      && (exists i :: 0 <= i < |rows| && KeyOf(rows[i]) == k && s.level == rows[i].level)
  {
    hide IndexOf;
    if rows != [] {
      var last := |rows| - 1;
      var front := rows[..last];
      SummaryMeans(front, k);
      assert forall i | 0 <= i < last :: front[i] == rows[i];
      if Summary(front, k).Some? {
        assert KeyOf(rows[IndexOf(front, k)]) == k;
        FirstIndex(rows, k, IndexOf(front, k));
        var i :| 0 <= i < last && KeyOf(front[i]) == k && Summary(front, k).value.level == front[i].level;
        assert KeyOf(rows[i]) == k;
      } else if KeyOf(rows[last]) == k {
        FirstIndex(rows, k, last);
      }
    }
  }

  lemma FirstIndex(rows: seq<Row>, k: Key, i: nat)
    requires i < |rows| && KeyOf(rows[i]) == k
    requires forall j | 0 <= j < i :: KeyOf(rows[j]) != k
    ensures IndexOf(rows, k) == i
  {
  }

  /** The returned list holds exactly one line for every key that occurs among the leaves of
      the explosion tree, sorted by level, code and item; the line carries the sum of all
      occurrences, their least level and the rate of the first one met. */
  lemma MergingLosesNothing(p: Plan, bom: Bom, qty: real, ancestors: set<Item>, level: int, k: Key)
    requires Explode(p, bom, qty, ancestors, level).Ok?
    ensures var rows := Explode(p, bom, qty, ancestors, level).value;
      var leaves := Leaves(p, bom, qty, ancestors, level);
      var first := IndexOf(leaves, k);
      && DistinctKeys(rows) && Sorted(rows)
      && (first == |leaves| ==> forall r <- rows :: KeyOf(r) != k)
      && (first < |leaves| ==> exists r <- rows ::
            && KeyOf(r) == k && r.qty == QtyOf(leaves, k) && r.rate == leaves[first].rate
            && (forall l <- leaves :: KeyOf(l) == k ==> r.level <= l.level)
            && (exists l <- leaves :: KeyOf(l) == k && r.level == l.level))
  {
    var rows := Explode(p, bom, qty, ancestors, level).value;
    var leaves := Leaves(p, bom, qty, ancestors, level);
    hide Summary, QtyOf, Explode, Leaves, IndexOf;
    MergedSummaries(p, bom, qty, ancestors, level, k);
    LineOfKey(Explode(p, bom, qty, ancestors, level).value, Leaves(p, bom, qty, ancestors, level), k);
  }

  // A line with the summary of a key says all there is to say about the leaves of the key.
  lemma LineOfKey(rows: seq<Row>, leaves: seq<Row>, k: Key)
    requires DistinctKeys(rows) && Summary(rows, k) == Summary(leaves, k)
    ensures var first := IndexOf(leaves, k);
      && (first == |leaves| ==> forall r <- rows :: KeyOf(r) != k)
      && (first < |leaves| ==> exists r <- rows ::
            && KeyOf(r) == k && r.qty == QtyOf(leaves, k) && r.rate == leaves[first].rate
            && (forall l <- leaves :: KeyOf(l) == k ==> r.level <= l.level)
            && (exists l <- leaves :: KeyOf(l) == k && r.level == l.level))
  {
    hide Summary, QtyOf, IndexOf, DistinctKeys;
    SummaryMeans(leaves, k);
    SummaryMeans(rows, k);
    SummaryQty(leaves, k);
    SummaryDistinct(rows, k);
    if IndexOf(leaves, k) < |leaves| {
      assert Summary(leaves, k).Some?;
      var i :| 0 <= i < |rows| && KeyOf(rows[i]) == k;
      var j :| 0 <= j < |leaves| && KeyOf(leaves[j]) == k && rows[i].level == leaves[j].level;
      assert rows[i] in rows && leaves[j] in leaves;
    }
  }

  // --- Weighted totals ---

  lemma {:induction false} WeighConcat(a: seq<Row>, b: seq<Row>, w: Key -> real)
    ensures Weigh(a + b, w) == Weigh(a, w) + Weigh(b, w)
  {
    if b == [] {
      assert a + b == a;
    } else {
      assert (a + b)[..|a + b| - 1] == a + b[..|b|-1];
      WeighConcat(a, b[..|b|-1], w);
    }
  }

  lemma WeighOne(r: Row, w: Key -> real)
    ensures Weigh([r], w) == Scaled(r.qty, w(KeyOf(r)))
  {
    assert [r][..0] == [];
  }

  lemma WeighAdd(rows: seq<Row>, row: Row, w: Key -> real)
    ensures Weigh(AddRow(rows, row), w) == Weigh(rows, w) + Scaled(row.qty, w(KeyOf(row)))
  {
    var i := IndexOf(rows, KeyOf(row));
    if i == |rows| {
      assert (rows + [row])[..|rows|] == rows;
    } else {
      var merged := Merge(rows[i], row);
      assert KeyOf(merged) == KeyOf(row) == KeyOf(rows[i]) && merged.qty == rows[i].qty + row.qty;
      hide *;
      WeighReplace(rows, i, merged, w);
      ScaledSum(rows[i].qty, row.qty, w(KeyOf(row)));
    }
  }

  lemma WeighReplace(rows: seq<Row>, i: nat, row: Row, w: Key -> real)
    requires i < |rows|
    ensures Weigh(rows[i := row], w) ==
      Weigh(rows, w) - Scaled(rows[i].qty, w(KeyOf(rows[i]))) + Scaled(row.qty, w(KeyOf(row)))
  {
    hide Weigh, Scaled;
    assert rows == rows[..i] + [rows[i]] + rows[i+1..];
    assert rows[i := row] == rows[..i] + [row] + rows[i+1..];
    WeighConcat(rows[..i] + [rows[i]], rows[i+1..], w);
    WeighConcat(rows[..i], [rows[i]], w);
    WeighConcat(rows[..i] + [row], rows[i+1..], w);
    WeighConcat(rows[..i], [row], w);
    WeighOne(rows[i], w);
    WeighOne(row, w);
  }

  lemma {:induction false} WeighAddAll(rows: seq<Row>, more: seq<Row>, w: Key -> real)
    ensures Weigh(AddAll(rows, more), w) == Weigh(rows, w) + Weigh(more, w)
  {
    if more != [] {
      WeighAddAll(rows, more[..|more|-1], w);
      WeighAdd(AddAll(rows, more[..|more|-1]), more[|more|-1], w);
    }
  }

  lemma {:induction false} WeighInsert(rows: seq<Row>, r: Row, w: Key -> real)
    ensures Weigh(Insert(rows, r), w) == Weigh(rows, w) + Scaled(r.qty, w(KeyOf(r)))
  {
    if rows == [] {
      WeighOne(r, w);
    } else {
      var last := |rows| - 1;
      if RowLe(rows[last], r) {
        assert (rows + [r])[..|rows|] == rows;
      } else {
        WeighInsert(rows[..last], r, w);
        var s := Insert(rows[..last], r) + [rows[last]];
        assert s[..|s|-1] == Insert(rows[..last], r);
      }
    }
  }

  lemma {:induction false} WeighSort(rows: seq<Row>, w: Key -> real)
    ensures Weigh(SortRows(rows), w) == Weigh(rows, w)
  {
    if rows != [] {
      WeighSort(rows[..|rows|-1], w);
      WeighInsert(SortRows(rows[..|rows|-1]), rows[|rows|-1], w);
    }
  }

  /** Every total that weighs quantities by key is the same over the result and the leaves. */
  lemma {:induction false} WeightConserved(p: Plan, bom: Bom, qty: real, ancestors: set<Item>, level: int, w: Key -> real)
    requires Explode(p, bom, qty, ancestors, level).Ok?
    ensures Weigh(Explode(p, bom, qty, ancestors, level).value, w)
         == Weigh(Leaves(p, bom, qty, ancestors, level), w)
    decreases Pending(p, bom, ancestors), |bom.lines| + 1
  {
    if qty > 0.0 {
      WeightConservedLines(p, bom, qty / bom.batch, ancestors, level, |bom.lines|, w);
      WeighSort(ExplodeLines(p, bom, qty / bom.batch, ancestors, level, |bom.lines|).value, w);
    }
  }

  lemma {:induction false} WeightConservedLines(p: Plan, bom: Bom, scale: real, ancestors: set<Item>, level: int,
                                                n: nat, w: Key -> real)
    requires n <= |bom.lines| && bom.produces !in ancestors
    requires ExplodeLines(p, bom, scale, ancestors, level, n).Ok?
    ensures Weigh(ExplodeLines(p, bom, scale, ancestors, level, n).value, w)
         == Weigh(LeavesOf(p, bom, scale, ancestors, level, n), w)
    decreases Pending(p, bom, ancestors), n
  {
    hide *;
    if n == 0 {
      NoLeavesYet(p, bom, scale, ancestors, level);
    } else {
      LinesUpTo(p, bom, scale, ancestors, level, n);
      WeightConservedLines(p, bom, scale, ancestors, level, n - 1, w);
      WeightConservedLine(p, bom, scale, ancestors, level, n - 1, w);
      WeighAddAll(ExplodeLines(p, bom, scale, ancestors, level, n - 1).value,
                  ExplodeLine(p, bom, scale, ancestors, level, n - 1).value, w);
      WeighConcat(LeavesOf(p, bom, scale, ancestors, level, n - 1),
                  LineLeaves(p, bom, scale, ancestors, level, n - 1), w);
    }
  }

  lemma {:induction false} WeightConservedLine(p: Plan, bom: Bom, scale: real, ancestors: set<Item>, level: int,
                                               i: nat, w: Key -> real)
    requires i < |bom.lines| && bom.produces !in ancestors
    requires ExplodeLine(p, bom, scale, ancestors, level, i).Ok?
    ensures Weigh(ExplodeLine(p, bom, scale, ancestors, level, i).value, w)
         == Weigh(LineLeaves(p, bom, scale, ancestors, level, i), w)
    decreases Pending(p, bom, ancestors), 0
  {
    var line := bom.lines[i];
    var need := Need(p, line, scale);
    if need > 0.0 && Opened(p, line.item) {
      WeightConserved(p, p.cat[line.item], need, ancestors + {bom.produces}, level + 1, w);
    }
  }

  lemma NoLeavesYet(p: Plan, bom: Bom, scale: real, ancestors: set<Item>, level: int)
    requires bom.produces !in ancestors
    ensures ExplodeLines(p, bom, scale, ancestors, level, 0) == Ok([]) && DistinctKeys([])
    ensures LeavesOf(p, bom, scale, ancestors, level, 0) == []
  {
  }

  // How the buckets and the leaves of n lines come from those of one line less.
  lemma LinesUpTo(p: Plan, bom: Bom, scale: real, ancestors: set<Item>, level: int, n: nat)
    requires 0 < n <= |bom.lines| && bom.produces !in ancestors
    requires ExplodeLines(p, bom, scale, ancestors, level, n).Ok?
    ensures var before := ExplodeLines(p, bom, scale, ancestors, level, n - 1);
      var line := ExplodeLine(p, bom, scale, ancestors, level, n - 1);
      && before.Ok? && line.Ok?
      && ExplodeLines(p, bom, scale, ancestors, level, n) == Ok(AddAll(before.value, line.value))
    ensures LeavesOf(p, bom, scale, ancestors, level, n) ==
      LeavesOf(p, bom, scale, ancestors, level, n - 1) + LineLeaves(p, bom, scale, ancestors, level, n - 1)
  {
  }

  // --- Values: quantity times rate ---

  ghost function ValueOf(rows: seq<Row>): real {
    if rows == [] then 0.0
    else ValueOf(rows[..|rows|-1]) + Scaled(rows[|rows|-1].qty, rows[|rows|-1].rate)
  }

  function FirstRate(leaves: seq<Row>): Key -> real {
    k => if IndexOf(leaves, k) < |leaves| then leaves[IndexOf(leaves, k)].rate else 0.0
  }

  lemma {:induction false} ValueIsWeight(rows: seq<Row>, w: Key -> real)
    requires forall r <- rows :: r.rate == w(KeyOf(r))
    ensures ValueOf(rows) == Weigh(rows, w)
  {
    if rows != [] {
      ValueIsWeight(rows[..|rows|-1], w);
    }
  }

  // What valuing at the rates w adds to valuing at each row's own rate.
  ghost function Gap(rows: seq<Row>, w: Key -> real): real {
    if rows == [] then 0.0
    else
      var last := rows[|rows|-1];
      Gap(rows[..|rows|-1], w) + Scaled(last.qty, w(KeyOf(last)) - last.rate)
  }

  lemma {:induction false} GapIsDifference(rows: seq<Row>, w: Key -> real)
    ensures Gap(rows, w) == Weigh(rows, w) - ValueOf(rows)
  {
    if rows != [] {
      GapIsDifference(rows[..|rows|-1], w);
      ScaledDifference(rows[|rows|-1].qty, w(KeyOf(rows[|rows|-1])), rows[|rows|-1].rate);
    }
  }

  lemma ScaledDifference(q: real, a: real, b: real)
    ensures Scaled(q, a - b) == Scaled(q, a) - Scaled(q, b)
  {
  }

  // Positive quantities whose own rates all lie on one side of w only balance at w itself.
  lemma {:induction false} OneSidedGap(rows: seq<Row>, w: Key -> real)
    requires forall r <- rows :: r.qty > 0.0
    ensures (forall r <- rows :: r.rate >= w(KeyOf(r))) ==>
      Gap(rows, w) <= 0.0 && (Gap(rows, w) == 0.0 <==> forall r <- rows :: r.rate == w(KeyOf(r)))
    ensures (forall r <- rows :: r.rate <= w(KeyOf(r))) ==>
      Gap(rows, w) >= 0.0 && (Gap(rows, w) == 0.0 <==> forall r <- rows :: r.rate == w(KeyOf(r)))
  {
    if rows != [] {
      var front, last := rows[..|rows|-1], rows[|rows|-1];
      assert forall r <- front :: r in rows;
      assert forall r <- rows :: r in front || r == last;
      OneSidedGap(front, w);
      ScaledSignOf(last.qty, w(KeyOf(last)) - last.rate);
    }
  }

  lemma ScaledSignOf(q: real, d: real)
    requires q > 0.0
    ensures Scaled(q, d) > 0.0 <==> d > 0.0
    ensures Scaled(q, d) < 0.0 <==> d < 0.0
  {
  }

  ghost predicate RatesAgree(leaves: seq<Row>) {
    forall a, b :: a in leaves && b in leaves && KeyOf(a) == KeyOf(b) ==> a.rate == b.rate
  }

  lemma RatesAgreeAtFirst(leaves: seq<Row>)
    ensures RatesAgree(leaves) <==> forall l <- leaves :: l.rate == FirstRate(leaves)(KeyOf(l))
  {
    forall l | l in leaves
      ensures exists f <- leaves :: KeyOf(f) == KeyOf(l) && f.rate == FirstRate(leaves)(KeyOf(l))
    {
      var i :| 0 <= i < |leaves| && leaves[i] == l;
      assert IndexOf(leaves, KeyOf(l)) < |leaves|;
      assert leaves[IndexOf(leaves, KeyOf(l))] in leaves;
    }
  }

  /** The result values every leaf at the first rate met for its key. What this adds to the
      value of the leaves, or takes away, is the sum over all leaves of quantity times first
      rate less own rate; so value is conserved if and only if these differences cancel. */
  lemma MergedValue(p: Plan, bom: Bom, qty: real, ancestors: set<Item>, level: int)
    requires Explode(p, bom, qty, ancestors, level).Ok?
    ensures var rows := Explode(p, bom, qty, ancestors, level).value;
      var leaves := Leaves(p, bom, qty, ancestors, level);
      && ValueOf(rows) == Weigh(leaves, FirstRate(leaves))
      && ValueOf(rows) - ValueOf(leaves) == Gap(leaves, FirstRate(leaves))
      && (ValueOf(rows) == ValueOf(leaves) <==> Gap(leaves, FirstRate(leaves)) == 0.0)
  {
    hide Explode, Leaves, IndexOf, Summary, Weigh, ValueOf;
    var rows := Explode(p, bom, qty, ancestors, level).value;
    var leaves := Leaves(p, bom, qty, ancestors, level);
    var w := FirstRate(leaves);
    forall r | r in rows
      ensures r.rate == w(KeyOf(r))
    {
      var k := KeyOf(r);
      MergedSummaries(p, bom, qty, ancestors, level, k);
      SummaryMeans(leaves, k);
      SummaryDistinct(rows, k);
    }
    ValueIsWeight(rows, w);
    WeightConserved(p, bom, qty, ancestors, level, w);
    GapIsDifference(leaves, w);
  }

  lemma {:induction false} LeavesPositive(p: Plan, bom: Bom, qty: real, ancestors: set<Item>, level: int)
    ensures forall l <- Leaves(p, bom, qty, ancestors, level) :: l.qty > 0.0
    decreases Pending(p, bom, ancestors), |bom.lines| + 1
  {
    if qty > 0.0 && bom.batch > 0.0 && bom.produces !in ancestors {
      LeavesOfPositive(p, bom, qty / bom.batch, ancestors, level, |bom.lines|);
    }
  }

  lemma {:induction false} LeavesOfPositive(p: Plan, bom: Bom, scale: real, ancestors: set<Item>, level: int, n: nat)
    requires n <= |bom.lines| && bom.produces !in ancestors
    ensures forall l <- LeavesOf(p, bom, scale, ancestors, level, n) :: l.qty > 0.0
    decreases Pending(p, bom, ancestors), n
  {
    if n > 0 {
      LeavesOfPositive(p, bom, scale, ancestors, level, n - 1);
      var line := bom.lines[n-1];
      var need := Need(p, line, scale);
      if need > 0.0 && Opened(p, line.item) {
        LeavesPositive(p, p.cat[line.item], need, ancestors + {bom.produces}, level + 1);
      }
    }
  }

  // No rate lies below the first one of its key, or none above it.
  ghost predicate OneSided(leaves: seq<Row>) {
    || (forall l <- leaves :: l.rate >= FirstRate(leaves)(KeyOf(l)))
    || (forall l <- leaves :: l.rate <= FirstRate(leaves)(KeyOf(l)))
  }

  /** Where no leaf has a rate below the first one of its key, or none above it, value is
      conserved if and only if all rates of a key agree. */
  lemma ValueConservedIff(p: Plan, bom: Bom, qty: real, ancestors: set<Item>, level: int)
    requires Explode(p, bom, qty, ancestors, level).Ok?
    ensures var leaves := Leaves(p, bom, qty, ancestors, level);
      OneSided(leaves) ==>
        (ValueOf(Explode(p, bom, qty, ancestors, level).value) == ValueOf(leaves) <==> RatesAgree(leaves))
  {
    hide Explode, Leaves, Gap, Weigh, ValueOf, FirstRate, RatesAgree;
    var leaves := Leaves(p, bom, qty, ancestors, level);
    MergedValue(p, bom, qty, ancestors, level);
    LeavesPositive(p, bom, qty, ancestors, level);
    OneSidedGap(leaves, FirstRate(leaves));
    RatesAgreeAtFirst(leaves);
  }

  // --- A family of inputs: one unit of a component on each of several lines ---

  function UnitLines(rates: seq<real>): seq<Line> {
    seq(|rates|, i requires 0 <= i < |rates| => Line("R", 1.0, None, false, rates[i], "R"))
  }

  function Kit(rates: seq<real>): Bom {
    Bom("F", 1.0, false, 0.0, UnitLines(rates), [])
  }

  const BARE := Plan(map[], Micro, true)

  function Part(qty: real, rate: real): Row {
    Row("R", qty, rate, None, false, 0, "R")
  }

  function Parts(rates: seq<real>): seq<Row> {
    if rates == [] then [] else Parts(rates[..|rates|-1]) + [Part(1.0, rates[|rates|-1])]
  }

  function Sum(xs: seq<real>): real {
    if xs == [] then 0.0 else Sum(xs[..|xs|-1]) + xs[|xs|-1]
  }

  lemma {:induction false} KitLeaves(rates: seq<real>, n: nat)
    requires n <= |rates|
    ensures LeavesOf(BARE, Kit(rates), 1.0, {}, 0, n) == Parts(rates[..n])
  {
    if n > 0 {
      KitLeaves(rates, n - 1);
      assert rates[..n][..n-1] == rates[..n-1];
      assert LineLeaves(BARE, Kit(rates), 1.0, {}, 0, n - 1) == [Part(1.0, rates[n-1])];
    }
  }

  lemma KitLine(rates: seq<real>, i: nat)
    requires i < |rates|
    ensures |Kit(rates).lines| == |rates| && Kit(rates).produces == "F"
    ensures ExplodeLine(BARE, Kit(rates), 1.0, {}, 0, i) == Ok([Part(1.0, rates[i])])
  {
  }

  lemma {:induction false} KitLines(rates: seq<real>, n: nat)
    requires n <= |rates|
    ensures ExplodeLines(BARE, Kit(rates), 1.0, {}, 0, n) == Ok(if n == 0 then [] else [Part(n as real, rates[0])])
  {
    hide *;
    if n == 0 {
      NoLinesYet(BARE, Kit(rates), 1.0, {}, 0);
    } else {
      KitLines(rates, n - 1);
      KitLine(rates, n - 1);
      NextLine(BARE, Kit(rates), 1.0, {}, 0, n - 1, if n == 1 then [] else [Part((n - 1) as real, rates[0])]);
      OneMorePart(rates, n);
    }
  }

  lemma OneMorePart(rates: seq<real>, n: nat)
    requires 0 < n <= |rates|
    ensures AddAll(if n == 1 then [] else [Part((n - 1) as real, rates[0])], [Part(1.0, rates[n-1])])
         == [Part(n as real, rates[0])]
  {
    var row := Part(1.0, rates[n-1]);
    var before := if n == 1 then [] else [Part((n - 1) as real, rates[0])];
    AddOne(before, row);
    if n > 1 {
      FirstIndex(before, KeyOf(row), 0);
      assert Merge(before[0], row) == Part(n as real, rates[0]);
      assert AddRow(before, row) == [Part(n as real, rates[0])];
    } else {
      assert AddRow(before, row) == [row];
    }
  }

  lemma {:induction false} PartsValue(rates: seq<real>)
    ensures ValueOf(Parts(rates)) == Sum(rates)
  {
    if rates != [] {
      PartsValue(rates[..|rates|-1]);
      var parts := Parts(rates[..|rates|-1]) + [Part(1.0, rates[|rates|-1])];
      assert parts[..|parts|-1] == Parts(rates[..|rates|-1]);
    }
  }

  lemma ValueOfOne(r: Row)
    ensures ValueOf([r]) == Scaled(r.qty, r.rate)
  {
    assert [r][..0] == [];
  }

  // The merged row is worth the number of lines times the first rate, the leaves the sum of
  // the rates.
  lemma KitValues(rates: seq<real>)
    requires rates != []
    ensures Explode(BARE, Kit(rates), 1.0, {}, 0) == Ok([Part(|rates| as real, rates[0])])
    ensures ValueOf([Part(|rates| as real, rates[0])]) == Scaled(|rates| as real, rates[0])
    ensures ValueOf(Leaves(BARE, Kit(rates), 1.0, {}, 0)) == Sum(rates)
  {
    hide ExplodeLines, LeavesOf, ValueOf, Sum;
    assert 1.0 / 1.0 == 1.0;
    var n, row := |rates|, Part(|rates| as real, rates[0]);
    KitLines(rates, n);
    KitLeaves(rates, n);
    assert rates[..n] == rates;
    PartsValue(rates);
    ValueOfOne(row);
    assert [row][..0] == [];
    assert SortRows([row]) == [row];
  }

  lemma SumOf(xs: seq<real>, x: real)
    ensures Sum(xs + [x]) == Sum(xs) + x && Sum([]) == 0.0
  {
    assert (xs + [x])[..|xs|] == xs;
  }

  /** As the code runs it, lines at the rates 1 and 3, worth 4, come out as a row worth 2. */
  lemma ValueCanBeLost()
    ensures Explode(BARE, Kit([1.0, 3.0]), 1.0, {}, 0) == Ok([Part(2.0, 1.0)])
    ensures ValueOf([Part(2.0, 1.0)]) == 2.0
    ensures ValueOf(Leaves(BARE, Kit([1.0, 3.0]), 1.0, {}, 0)) == 4.0
  {
    hide Explode, Leaves, ValueOf, Kit;
    KitValues([1.0, 3.0]);
    SumOf([], 1.0);
    SumOf([1.0], 3.0);
    assert [] + [1.0] == [1.0] && [1.0] + [3.0] == [1.0, 3.0];
  }

  /** Rates 1, 0 and 2 disagree, yet the value of 3 is conserved: the differences cancel. */
  lemma DisagreementCanCancel()
    ensures Explode(BARE, Kit([1.0, 0.0, 2.0]), 1.0, {}, 0) == Ok([Part(3.0, 1.0)])
    ensures ValueOf([Part(3.0, 1.0)]) == ValueOf(Leaves(BARE, Kit([1.0, 0.0, 2.0]), 1.0, {}, 0)) == 3.0
  {
    hide Explode, Leaves, ValueOf, Kit;
    KitValues([1.0, 0.0, 2.0]);
    SumOf([], 1.0);
    SumOf([1.0], 0.0);
    SumOf([1.0, 0.0], 2.0);
    assert [] + [1.0] == [1.0] && [1.0] + [0.0] == [1.0, 0.0] && [1.0, 0.0] + [2.0] == [1.0, 0.0, 2.0];
  }
}
