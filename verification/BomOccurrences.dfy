/** What an explosion returns, told line by line from the BOMs alone: where it meets each
    component, what every returned row says about the lines it stands for, and which failure is
    raised. */
module BomOccurrences {
  import opened Prelude
  import opened Rounding
  import opened BomCatalogue
  import opened RowOrder
  import opened BomExplosion
  import opened BomMerging
  import opened BomTotals

  // The positions of component lines from the root down, each but the last one the line of a
  // sub-assembly that is walked through.
  type Trail = seq<nat>

  // Depth first, in the sequence of the lines.
  predicate Before(s: Trail, t: Trail) {
    t != [] && (s == [] || s[0] < t[0] || (s[0] == t[0] && Before(s[1..], t[1..])))
  }

  // A component line that is emitted, and the quantity asked of it.
  datatype Stop = Stop(line: Line, need: real)

  // What a line asks for at a scale, to the sixth place.
  function Required(line: Line, scale: real): real {
    QuantiseMicro(Scaled(line.qty, scale))
  }

  // Where the trail ends, for qty units of what the BOM makes; None if it does not lead to a
  // line that is emitted.
  function Arrival(cat: Catalogue, flat: bool, bom: Bom, qty: real, t: Trail): Option<Stop>
    decreases |t|
  {
    if t == [] || qty <= 0.0 || bom.batch <= 0.0 || t[0] >= |bom.lines| then None
    else
      var line := bom.lines[t[0]];
      var need := Required(line, qty / bom.batch);
      if need <= 0.0 then None
      else if line.item in cat && (flat || cat[line.item].phantom) then Arrival(cat, flat, cat[line.item], need, t[1..])
      else if |t| == 1 then Some(Stop(line, need)) else None
  }

  // The rate of a line: the unit cost of the BOM of a stocked sub-assembly where that is
  // positive, the line's own rate otherwise.
  ghost predicate Priced(cat: Catalogue, line: Line, rate: real) {
    if line.item in cat && !cat[line.item].phantom && cat[line.item].totalCost * cat[line.item].batch > 0.0
    then rate * cat[line.item].batch == cat[line.item].totalCost
    else rate == line.rate
  }

  ghost predicate Matches(row: Row, line: Line) {
    row.item == line.item && row.warehouse == line.warehouse && row.alt == line.alt
  }

  // All trails that arrive, depth first, and where they do.
  ghost predicate Listing(cat: Catalogue, flat: bool, bom: Bom, qty: real, trails: seq<Trail>, stops: seq<Stop>) {
    && |stops| == |trails|
    && (forall t :: t in trails <==> Arrival(cat, flat, bom, qty, t).Some?)
    && (forall j | 0 <= j < |trails| :: Arrival(cat, flat, bom, qty, trails[j]) == Some(stops[j]))
    && (forall i, j | 0 <= i < j < |trails| :: Before(trails[i], trails[j]))
  }

  // --- What a row says about the lines it stands for ---

  ghost function Asked(stops: seq<Stop>, row: Row): real {
    if stops == [] then 0.0
    else
      var last := stops[|stops|-1];
      Asked(stops[..|stops|-1], row) + if Matches(row, last.line) then last.need else 0.0
  }

  ghost predicate FirstOf(stops: seq<Stop>, row: Row, first: nat) {
    first < |stops| && Matches(row, stops[first].line) && forall j | 0 <= j < first :: !Matches(row, stops[j].line)
  }

  // The code of the first line that has one.
  ghost predicate Coded(stops: seq<Stop>, row: Row) {
    if row.code == "" then forall j | 0 <= j < |stops| && Matches(row, stops[j].line) :: stops[j].line.code == ""
    else exists i | 0 <= i < |stops| ::
      && Matches(row, stops[i].line) && stops[i].line.code == row.code
      && forall j | 0 <= j < i && Matches(row, stops[j].line) :: stops[j].line.code == ""
  }

  // The least level of the lines, a level being the number of BOMs opened on the way.
  ghost predicate Levelled(trails: seq<Trail>, stops: seq<Stop>, row: Row, level: int)
    requires |stops| == |trails|
  {
    && (forall j | 0 <= j < |stops| && Matches(row, stops[j].line) :: row.level <= level + |trails[j]| - 1)
    && (exists j | 0 <= j < |stops| :: Matches(row, stops[j].line) && row.level == level + |trails[j]| - 1)
  }

  ghost predicate Accounts(cat: Catalogue, trails: seq<Trail>, stops: seq<Stop>, row: Row, level: int)
    requires |stops| == |trails|
  {
    && row.qty == Asked(stops, row)
    && Levelled(trails, stops, row, level)
    && Coded(stops, row)
    && exists first: nat :: FirstOf(stops, row, first) && Priced(cat, stops[first].line, row.rate)
  }

  // --- The leaves are the arrivals ---

  lemma NeedIsRequired(p: Plan, line: Line, scale: real)
    requires p.mode == Micro
    ensures Need(p, line, scale) == Required(line, scale)
  {
  }

  ghost predicate Shows(cat: Catalogue, stop: Stop, level: int, row: Row) {
    && Matches(row, stop.line) && row.qty == stop.need && row.code == stop.line.code && row.level == level
    && Priced(cat, stop.line, row.rate)
  }

  ghost predicate Agree(cat: Catalogue, trails: seq<Trail>, stops: seq<Stop>, leaves: seq<Row>, level: int) {
    |trails| == |stops| == |leaves|
    && forall j | 0 <= j < |leaves| :: Shows(cat, stops[j], level + |trails[j]| - 1, leaves[j])
  }

  // The trails that begin with one of the first n lines.
  ghost predicate ListingUpTo(cat: Catalogue, flat: bool, bom: Bom, qty: real, n: nat,
                              trails: seq<Trail>, stops: seq<Stop>) {
    && |stops| == |trails|
    && (forall t :: t in trails <==> Arrival(cat, flat, bom, qty, t).Some? && t != [] && t[0] < n)
    && (forall j | 0 <= j < |trails| :: Arrival(cat, flat, bom, qty, trails[j]) == Some(stops[j]))
    && (forall i, j | 0 <= i < j < |trails| :: Before(trails[i], trails[j]))
  }

  function Prefixed(i: nat, trails: seq<Trail>): (r: seq<Trail>)
    ensures |r| == |trails|
  {
    seq(|trails|, j requires 0 <= j < |trails| => [i] + trails[j])
  }

  lemma {:induction false} LeavesArrive(p: Plan, bom: Bom, qty: real, ancestors: set<Item>, level: int)
    returns (trails: seq<Trail>, stops: seq<Stop>)
    requires p.mode == Micro && Explode(p, bom, qty, ancestors, level).Ok?
    ensures Listing(p.cat, p.flat, bom, qty, trails, stops)
    ensures Agree(p.cat, trails, stops, Leaves(p, bom, qty, ancestors, level), level)
    decreases Pending(p, bom, ancestors), |bom.lines| + 1
  {
    if qty <= 0.0 {
      trails, stops := [], [];
    } else {
      trails, stops := LeavesArriveUpTo(p, bom, qty, ancestors, level, |bom.lines|);
    }
  }

  lemma {:induction false} LeavesArriveUpTo(p: Plan, bom: Bom, qty: real, ancestors: set<Item>, level: int, n: nat)
    returns (trails: seq<Trail>, stops: seq<Stop>)
    requires p.mode == Micro && qty > 0.0 && bom.batch > 0.0 && n <= |bom.lines| && bom.produces !in ancestors
    requires ExplodeLines(p, bom, qty / bom.batch, ancestors, level, n).Ok?
    ensures ListingUpTo(p.cat, p.flat, bom, qty, n, trails, stops)
    ensures Agree(p.cat, trails, stops, LeavesOf(p, bom, qty / bom.batch, ancestors, level, n), level)
    decreases Pending(p, bom, ancestors), n
  {
    hide *;
    var scale := qty / bom.batch;
    if n == 0 {
      NothingListed(p.cat, p.flat, bom, qty, level);
      NoLeavesYet(p, bom, scale, ancestors, level);
      trails, stops := [], [];
    } else {
      LinesUpTo(p, bom, scale, ancestors, level, n);
      var before, stopped := LeavesArriveUpTo(p, bom, qty, ancestors, level, n - 1);
      var more, stops' := LineArrives(p, bom, qty, ancestors, level, n - 1);
      ListingJoins(p.cat, p.flat, bom, qty, n, before, stopped, more, stops');
      AgreeJoins(p.cat, before, stopped, LeavesOf(p, bom, scale, ancestors, level, n - 1),
                 more, stops', LineLeaves(p, bom, scale, ancestors, level, n - 1), level);
      trails, stops := before + more, stopped + stops';
    }
  }

  lemma NothingListed(cat: Catalogue, flat: bool, bom: Bom, qty: real, level: int)
    ensures ListingUpTo(cat, flat, bom, qty, 0, [], []) && Agree(cat, [], [], [], level)
  {
  }

  // The trails that begin with one line.
  ghost predicate ListingOf(cat: Catalogue, flat: bool, bom: Bom, qty: real, i: nat, trails: seq<Trail>, stops: seq<Stop>) {
    && |stops| == |trails|
    && (forall t :: t in trails <==> Arrival(cat, flat, bom, qty, t).Some? && t != [] && t[0] == i)
    && (forall j | 0 <= j < |trails| :: Arrival(cat, flat, bom, qty, trails[j]) == Some(stops[j]))
    && (forall j, k | 0 <= j < k < |trails| :: Before(trails[j], trails[k]))
  }

  lemma {:induction false} LineArrives(p: Plan, bom: Bom, qty: real, ancestors: set<Item>, level: int, i: nat)
    returns (trails: seq<Trail>, stops: seq<Stop>)
    requires p.mode == Micro && qty > 0.0 && bom.batch > 0.0 && i < |bom.lines| && bom.produces !in ancestors
    requires ExplodeLine(p, bom, qty / bom.batch, ancestors, level, i).Ok?
    ensures ListingOf(p.cat, p.flat, bom, qty, i, trails, stops)
    ensures Agree(p.cat, trails, stops, LineLeaves(p, bom, qty / bom.batch, ancestors, level, i), level)
    decreases Pending(p, bom, ancestors), 0
  {
    hide Explode, ExplodeLine, Leaves, LineLeaves, LeafRow, Required, Arrival, Before, Listing, ListingOf, Agree, Shows;
    var line := bom.lines[i];
    var need := Required(line, qty / bom.batch);
    LineCases(p, bom, qty / bom.batch, ancestors, level, i);
    ListingAtLine(p.cat, p.flat, bom, qty, i);
    if need <= 0.0 {
      trails, stops := [], [];
      NothingListed(p.cat, p.flat, bom, qty, level);
      assert Agree(p.cat, [], [], [], level);
    } else if line.item in p.cat && (p.flat || p.cat[line.item].phantom) {
      var below;
      below, stops := LeavesArrive(p, p.cat[line.item], need, ancestors + {bom.produces}, level + 1);
      trails := Prefixed(i, below);
      AgreeBelow(p.cat, i, below, stops, LineLeaves(p, bom, qty / bom.batch, ancestors, level, i), level);
      ListingBelow(p.cat, p.flat, bom, qty, i, below, stops);
    } else {
      trails, stops := [[i]], [Stop(line, need)];
      LeafAgrees(p, line, need, level, i);
    }
  }

  // What one line contributes.
  lemma LineCases(p: Plan, bom: Bom, scale: real, ancestors: set<Item>, level: int, i: nat)
    requires p.mode == Micro && i < |bom.lines| && bom.produces !in ancestors
    requires ExplodeLine(p, bom, scale, ancestors, level, i).Ok?
    ensures var line := bom.lines[i]; var need := Required(line, scale);
      var leaves := LineLeaves(p, bom, scale, ancestors, level, i);
      && (need <= 0.0 ==> leaves == [])
      && (need > 0.0 && line.item in p.cat && (p.flat || p.cat[line.item].phantom) ==>
            && Explode(p, p.cat[line.item], need, ancestors + {bom.produces}, level + 1).Ok?
            && leaves == Leaves(p, p.cat[line.item], need, ancestors + {bom.produces}, level + 1))
      && (need > 0.0 && !(line.item in p.cat && (p.flat || p.cat[line.item].phantom)) ==>
            leaves == [LeafRow(p, line, need, level)])
  {
    NeedIsRequired(p, bom.lines[i], scale);
    hide Explode, Leaves, Need, Required, LeafRow;
  }

  lemma LeafAgrees(p: Plan, line: Line, need: real, level: int, i: nat)
    ensures Agree(p.cat, [[i]], [Stop(line, need)], [LeafRow(p, line, need, level)], level)
  {
    LeafShows(p, line, need, level);
    hide Shows, LeafRow;
  }

  // A line that asks for nothing, and one that is emitted.
  lemma ListingAtLine(cat: Catalogue, flat: bool, bom: Bom, qty: real, i: nat)
    requires qty > 0.0 && bom.batch > 0.0 && i < |bom.lines|
    ensures var line := bom.lines[i]; var need := Required(line, qty / bom.batch);
      && (need <= 0.0 ==> ListingOf(cat, flat, bom, qty, i, [], []))
      && (need > 0.0 && !(line.item in cat && (flat || cat[line.item].phantom)) ==>
            ListingOf(cat, flat, bom, qty, i, [[i]], [Stop(line, need)]))
  {
    hide Required;
    forall t: Trail | t != [] && t[0] == i && |t| == 1
      ensures t == [i]
    {
    }
  }

  lemma LeafShows(p: Plan, line: Line, need: real, level: int)
    ensures Shows(p.cat, Stop(line, need), level, LeafRow(p, line, need, level))
  {
    if line.item in p.cat {
      UnitCost(p.cat[line.item]);
    }
  }

  lemma UnitCost(bom: Bom)
    ensures bom.CostPerUnit() > 0.0 <==> bom.totalCost * bom.batch > 0.0
    ensures bom.CostPerUnit() > 0.0 ==> bom.CostPerUnit() * bom.batch == bom.totalCost
  {
    if bom.batch != 0.0 {
      var cost := bom.totalCost / bom.batch;
      assert cost * bom.batch == bom.totalCost;
      if bom.batch > 0.0 {
        SignOfProduct(cost, bom.batch);
        SignOfProduct(bom.totalCost, bom.batch);
      } else {
        SignOfProduct(cost, -bom.batch);
        SignOfProduct(-bom.totalCost, -bom.batch);
        assert -bom.totalCost * -bom.batch == bom.totalCost * bom.batch;
        assert cost * -bom.batch == -bom.totalCost;
      }
    }
  }

  lemma SignOfProduct(x: real, y: real)
    requires y > 0.0
    ensures x * y > 0.0 <==> x > 0.0
  {
  }

  lemma AgreeBelow(cat: Catalogue, i: nat, below: seq<Trail>, stops: seq<Stop>, leaves: seq<Row>, level: int)
    requires Agree(cat, below, stops, leaves, level + 1)
    ensures Agree(cat, Prefixed(i, below), stops, leaves, level)
  {
    hide Shows;
  }

  lemma AgreeJoins(cat: Catalogue, trails: seq<Trail>, stops: seq<Stop>, leaves: seq<Row>,
                   trails': seq<Trail>, stops': seq<Stop>, leaves': seq<Row>, level: int)
    requires Agree(cat, trails, stops, leaves, level) && Agree(cat, trails', stops', leaves', level)
    ensures Agree(cat, trails + trails', stops + stops', leaves + leaves', level)
  {
    hide Shows;
  }

  lemma ListingJoins(cat: Catalogue, flat: bool, bom: Bom, qty: real, n: nat,
                     trails: seq<Trail>, stops: seq<Stop>, trails': seq<Trail>, stops': seq<Stop>)
    requires n > 0 && ListingUpTo(cat, flat, bom, qty, n - 1, trails, stops)
    requires ListingOf(cat, flat, bom, qty, n - 1, trails', stops')
    ensures ListingUpTo(cat, flat, bom, qty, n, trails + trails', stops + stops')
  {
    hide Arrival, Before;
    var all := trails + trails';
    forall t
      ensures t in all <==> Arrival(cat, flat, bom, qty, t).Some? && t != [] && t[0] < n
    {
      NotEmpty(cat, flat, bom, qty, t);
      assert t in all <==> t in trails || t in trails';
    }
    forall i, j | 0 <= i < j < |all|
      ensures Before(all[i], all[j])
    {
      if i < |trails| <= j {
        assert all[i] in trails && all[j] in trails';
        NotEmpty(cat, flat, bom, qty, all[i]);
        NotEmpty(cat, flat, bom, qty, all[j]);
        FirstDiffers(all[i], all[j]);
      }
    }
  }

  lemma NotEmpty(cat: Catalogue, flat: bool, bom: Bom, qty: real, t: Trail)
    ensures Arrival(cat, flat, bom, qty, t).Some? ==> t != []
  {
  }

  lemma FirstDiffers(s: Trail, t: Trail)
    requires s != [] && t != [] && s[0] < t[0]
    ensures Before(s, t)
  {
  }

  lemma BelowArrives(cat: Catalogue, flat: bool, bom: Bom, qty: real, t: Trail)
    requires qty > 0.0 && bom.batch > 0.0 && t != [] && t[0] < |bom.lines|
    requires var line := bom.lines[t[0]];
      Required(line, qty / bom.batch) > 0.0 && line.item in cat && (flat || cat[line.item].phantom)
    ensures var line := bom.lines[t[0]];
      Arrival(cat, flat, bom, qty, t)
        == Arrival(cat, flat, cat[line.item], Required(line, qty / bom.batch), t[1..])
  {
    hide Required;
  }

  lemma ListingBelow(cat: Catalogue, flat: bool, bom: Bom, qty: real, i: nat, below: seq<Trail>, stops: seq<Stop>)
    requires qty > 0.0 && bom.batch > 0.0 && i < |bom.lines|
    requires var line := bom.lines[i];
      && Required(line, qty / bom.batch) > 0.0 && line.item in cat && (flat || cat[line.item].phantom)
      && Listing(cat, flat, cat[line.item], Required(line, qty / bom.batch), below, stops)
    ensures ListingOf(cat, flat, bom, qty, i, Prefixed(i, below), stops)
  {
    hide Required, Arrival, Before;
    var trails := Prefixed(i, below);
    forall j | 0 <= j < |trails|
      ensures trails[j] != [] && trails[j][0] == i && trails[j][1..] == below[j]
    {
    }
    forall j | 0 <= j < |trails|
      ensures Arrival(cat, flat, bom, qty, trails[j]) == Some(stops[j])
    {
      BelowArrives(cat, flat, bom, qty, trails[j]);
    }
    forall t
      ensures t in trails <==> Arrival(cat, flat, bom, qty, t).Some? && t != [] && t[0] == i
    {
      if t != [] && t[0] == i {
        BelowArrives(cat, flat, bom, qty, t);
        PrefixedHas(i, below, t);
      }
    }
    forall j, k | 0 <= j < k < |trails|
      ensures Before(trails[j], trails[k])
    {
      BeforeBelow(trails[j], trails[k]);
    }
  }

  lemma PrefixedHas(i: nat, below: seq<Trail>, t: Trail)
    requires t != [] && t[0] == i
    ensures t in Prefixed(i, below) <==> t[1..] in below
  {
    var trails := Prefixed(i, below);
    assert t == [i] + t[1..];
    if t[1..] in below {
      var j :| 0 <= j < |below| && below[j] == t[1..];
      assert trails[j] == t;
    }
    if t in trails {
      var j :| 0 <= j < |trails| && trails[j] == t;
      assert below[j] == t[1..];
    }
  }

  lemma BeforeBelow(s: Trail, t: Trail)
    requires s != [] && t != [] && s[0] == t[0]
    ensures Before(s, t) <==> Before(s[1..], t[1..])
  {
  }

  // --- The rows against the arrivals ---

  lemma {:induction false} SummaryCode(rows: seq<Row>, k: Key)
    requires Summary(rows, k).Some?
    ensures var code := Summary(rows, k).value.code;
      if code == "" then forall j | 0 <= j < |rows| && KeyOf(rows[j]) == k :: rows[j].code == ""
      else exists i | 0 <= i < |rows| :: KeyOf(rows[i]) == k && rows[i].code == code
             && forall j | 0 <= j < i && KeyOf(rows[j]) == k :: rows[j].code == ""
  {
    var last := |rows| - 1;
    var front := rows[..last];
    SummaryMeans(front, k);
    assert forall j | 0 <= j < last :: front[j] == rows[j];
    if Summary(front, k).Some? {
      SummaryCode(front, k);
      hide Summary;
      if Summary(front, k).value.code != "" {
        var i :| 0 <= i < last && KeyOf(front[i]) == k && front[i].code == Summary(front, k).value.code
          && forall j | 0 <= j < i && KeyOf(front[j]) == k :: front[j].code == "";
        assert KeyOf(rows[i]) == k;
      }
    }
  }

  lemma {:induction false} QtyIsAsked(cat: Catalogue, trails: seq<Trail>, stops: seq<Stop>, leaves: seq<Row>, level: int,
                                      row: Row)
    requires Agree(cat, trails, stops, leaves, level)
    ensures QtyOf(leaves, KeyOf(row)) == Asked(stops, row)
  {
    if leaves != [] {
      var last := |leaves| - 1;
      assert Shows(cat, stops[last], level + |trails[last]| - 1, leaves[last]);
      AgreeFront(cat, trails, stops, leaves, level);
      QtyIsAsked(cat, trails[..last], stops[..last], leaves[..last], level, row);
      SameKey(leaves[last], stops[last], row);
      hide Shows, Agree;
      WholeOrNothing(leaves[last].qty);
    }
  }

  lemma AgreeFront(cat: Catalogue, trails: seq<Trail>, stops: seq<Stop>, leaves: seq<Row>, level: int)
    requires Agree(cat, trails, stops, leaves, level) && leaves != []
    ensures var last := |leaves| - 1; Agree(cat, trails[..last], stops[..last], leaves[..last], level)
  {
    hide Shows;
  }

  lemma WholeOrNothing(qty: real)
    ensures Scaled(qty, 1.0) == qty && Scaled(qty, 0.0) == 0.0
  {
  }

  lemma SameKey(leaf: Row, stop: Stop, row: Row)
    requires Matches(leaf, stop.line)
    ensures KeyOf(leaf) == KeyOf(row) <==> Matches(row, stop.line)
  {
  }

  lemma KeysMatch(cat: Catalogue, trails: seq<Trail>, stops: seq<Stop>, leaves: seq<Row>, level: int, row: Row)
    requires Agree(cat, trails, stops, leaves, level)
    ensures forall j | 0 <= j < |leaves| :: KeyOf(leaves[j]) == KeyOf(row) <==> Matches(row, stops[j].line)
    ensures forall j | 0 <= j < |leaves| :: leaves[j].code == stops[j].line.code
    ensures forall j | 0 <= j < |leaves| :: leaves[j].level == level + |trails[j]| - 1
    ensures forall j | 0 <= j < |leaves| :: Priced(cat, stops[j].line, leaves[j].rate)
  {
    forall j | 0 <= j < |leaves|
      ensures KeyOf(leaves[j]) == KeyOf(row) <==> Matches(row, stops[j].line)
    {
      assert Shows(cat, stops[j], level + |trails[j]| - 1, leaves[j]);
      SameKey(leaves[j], stops[j], row);
    }
    hide Priced;
  }

  lemma SummaryAccounts(cat: Catalogue, trails: seq<Trail>, stops: seq<Stop>, leaves: seq<Row>, level: int, row: Row)
    requires Agree(cat, trails, stops, leaves, level) && Summary(leaves, KeyOf(row)) == Some(row)
    ensures Accounts(cat, trails, stops, row, level)
  {
    hide Agree, Priced, Shows, Matches, Asked, Summary, QtyOf, IndexOf;
    var k := KeyOf(row);
    KeysMatch(cat, trails, stops, leaves, level, row);
    SummaryMeans(leaves, k);
    SummaryQty(leaves, k);
    QtyIsAsked(cat, trails, stops, leaves, level, row);
    SummaryCode(leaves, k);
    assert |leaves| == |stops| == |trails| by { AgreeLengths(cat, trails, stops, leaves, level); }
    assert FirstOf(stops, row, IndexOf(leaves, k));
    if row.code != "" {
      var i :| 0 <= i < |leaves| && KeyOf(leaves[i]) == k && leaves[i].code == row.code
        && forall j | 0 <= j < i && KeyOf(leaves[j]) == k :: leaves[j].code == "";
      assert Matches(row, stops[i].line);
    }
    var j :| 0 <= j < |leaves| && KeyOf(leaves[j]) == k && row.level == leaves[j].level;
    assert Matches(row, stops[j].line);
  }

  lemma AgreeLengths(cat: Catalogue, trails: seq<Trail>, stops: seq<Stop>, leaves: seq<Row>, level: int)
    requires Agree(cat, trails, stops, leaves, level)
    ensures |leaves| == |stops| == |trails|
  {
  }

  ghost predicate HasRow(rows: seq<Row>, line: Line) {
    exists r <- rows :: Matches(r, line)
  }

  // Every arrival has a row, and every row accounts for its arrivals.
  ghost predicate RowsFit(cat: Catalogue, trails: seq<Trail>, stops: seq<Stop>, rows: seq<Row>, level: int)
    requires |stops| == |trails|
  {
    && (forall j | 0 <= j < |stops| :: HasRow(rows, stops[j].line))
    && (forall r <- rows :: Accounts(cat, trails, stops, r, level))
  }

  // No two rows are for one item, warehouse and alternative flag, and they are in order.
  ghost predicate OrderedOnce(rows: seq<Row>) {
    forall i, j | 0 <= i < j < |rows| ::
      && InOrder(rows[i], rows[j])
      && (rows[i].item != rows[j].item || rows[i].warehouse != rows[j].warehouse || rows[i].alt != rows[j].alt)
  }

  // The rows that summarise the leaves, key by key.
  ghost predicate Summarise(rows: seq<Row>, leaves: seq<Row>) {
    DistinctKeys(rows) && Sorted(rows) && forall k :: Summary(rows, k) == Summary(leaves, k)
  }

  lemma ExplosionSummarises(p: Plan, bom: Bom, qty: real, ancestors: set<Item>, level: int)
    requires Explode(p, bom, qty, ancestors, level).Ok?
    ensures Summarise(Explode(p, bom, qty, ancestors, level).value, Leaves(p, bom, qty, ancestors, level))
  {
    hide Explode, Leaves, Summary, DistinctKeys, Sorted;
    MergedSummaries(p, bom, qty, ancestors, level, Key("", None, false));
    forall k
      ensures Summary(Explode(p, bom, qty, ancestors, level).value, k) == Summary(Leaves(p, bom, qty, ancestors, level), k)
    {
      MergedSummaries(p, bom, qty, ancestors, level, k);
    }
  }

  lemma RowAccounts(cat: Catalogue, trails: seq<Trail>, stops: seq<Stop>, rows: seq<Row>, leaves: seq<Row>, level: int,
                    row: Row)
    requires Agree(cat, trails, stops, leaves, level) && Summarise(rows, leaves) && row in rows
    ensures Accounts(cat, trails, stops, row, level)
  {
    SummaryDistinct(rows, KeyOf(row));
    hide Agree, Accounts, Summary, Sorted;
    SummaryAccounts(cat, trails, stops, leaves, level, row);
  }

  lemma StopHasRow(cat: Catalogue, trails: seq<Trail>, stops: seq<Stop>, rows: seq<Row>, leaves: seq<Row>, level: int, j: nat)
    requires Agree(cat, trails, stops, leaves, level) && Summarise(rows, leaves) && j < |stops|
    ensures HasRow(rows, stops[j].line)
  {
    assert Shows(cat, stops[j], level + |trails[j]| - 1, leaves[j]);
    var k := KeyOf(leaves[j]);
    hide Shows, Agree, Summary, Sorted, IndexOf;
    SummaryMeans(leaves, k);
    SummaryMeans(rows, k);
    var i :| 0 <= i < |rows| && KeyOf(rows[i]) == k;
    SameKey(leaves[j], stops[j], rows[i]);
    assert rows[i] in rows;
  }

  lemma RowsInOrder(rows: seq<Row>)
    requires DistinctKeys(rows) && Sorted(rows)
    ensures OrderedOnce(rows)
  {
    hide InOrder, RowLe;
    forall i, j | 0 <= i < j < |rows|
      ensures InOrder(rows[i], rows[j])
      ensures rows[i].item != rows[j].item || rows[i].warehouse != rows[j].warehouse || rows[i].alt != rows[j].alt
    {
      RowLeMeans(rows[i], rows[j]);
      assert KeyOf(rows[i]) != KeyOf(rows[j]);
    }
  }

  lemma SummaryFits(cat: Catalogue, trails: seq<Trail>, stops: seq<Stop>, rows: seq<Row>, leaves: seq<Row>, level: int)
    requires Agree(cat, trails, stops, leaves, level) && Summarise(rows, leaves)
    ensures |trails| == |stops| && RowsFit(cat, trails, stops, rows, level) && OrderedOnce(rows)
  {
    hide Agree, Accounts, HasRow, InOrder, DistinctKeys, Sorted, Summary;
    AgreeLengths(cat, trails, stops, leaves, level);
    forall r | r in rows
      ensures Accounts(cat, trails, stops, r, level)
    {
      RowAccounts(cat, trails, stops, rows, leaves, level, r);
    }
    forall j | 0 <= j < |stops|
      ensures HasRow(rows, stops[j].line)
    {
      StopHasRow(cat, trails, stops, rows, leaves, level, j);
    }
    RowsInOrder(rows);
  }

  /** A successful explosion returns one row for every item, warehouse and alternative flag that
      some trail arrives at, and no other. The row carries the sum of what is asked at all its
      arrivals, as its level the least number of BOMs opened on the way to one, the first code,
      and the rate of its first arrival: the unit cost of the item's own BOM if the item is a
      stocked sub-assembly with a positive cost, that line's own rate if not. Rows are ordered by level,
      then code, then item. */
  lemma RowsAccountForLines(cat: Catalogue, flat: bool, bom: Bom, qty: real, ancestors: set<Item>, level: int)
    returns (trails: seq<Trail>, stops: seq<Stop>)
    requires Explode(Plan(cat, Micro, flat), bom, qty, ancestors, level).Ok?
    ensures Listing(cat, flat, bom, qty, trails, stops)
    ensures var rows := Explode(Plan(cat, Micro, flat), bom, qty, ancestors, level).value;
      RowsFit(cat, trails, stops, rows, level) && OrderedOnce(rows)
  {
    hide *;
    var p := Plan(cat, Micro, flat);
    trails, stops := LeavesArrive(p, bom, qty, ancestors, level);
    ExplosionSummarises(p, bom, qty, ancestors, level);
    SummaryFits(cat, trails, stops, Explode(p, bom, qty, ancestors, level).value, Leaves(p, bom, qty, ancestors, level), level);
  }

  // --- Which failure is raised ---

  // What is wrong with the BOM that the trail opens last, none of the goods above it being left out.
  function Fault(cat: Catalogue, flat: bool, bom: Bom, qty: real, above: set<Item>, t: Trail): Option<Failure>
    decreases |t|
  {
    if qty <= 0.0 then None
    else if t == [] then
      if bom.batch <= 0.0 then Some(BadBatch) else if bom.produces in above then Some(CycleFound) else None
    else if bom.batch <= 0.0 || t[0] >= |bom.lines| then None
    else
      var line := bom.lines[t[0]];
      if line.item in cat && (flat || cat[line.item].phantom)
      then Fault(cat, flat, cat[line.item], Required(line, qty / bom.batch), above + {bom.produces}, t[1..])
      else None
  }

  // How a line that succeeds or fails does so.
  lemma LineFault(p: Plan, bom: Bom, scale: real, above: set<Item>, level: int, i: nat)
    requires p.mode == Micro && i < |bom.lines| && bom.produces !in above
    ensures var line := bom.lines[i]; var need := Required(line, scale);
      var r := ExplodeLine(p, bom, scale, above, level, i);
      if need > 0.0 && line.item in p.cat && (p.flat || p.cat[line.item].phantom)
      then r == Explode(p, p.cat[line.item], need, above + {bom.produces}, level + 1) else r.Ok?
  {
    NeedIsRequired(p, bom.lines[i], scale);
    hide Explode, Need, Required, LeafRow;
  }

  lemma {:induction false} FaultRaises(p: Plan, bom: Bom, qty: real, above: set<Item>, level: int, t: Trail)
    requires p.mode == Micro && Fault(p.cat, p.flat, bom, qty, above, t).Some?
    ensures Explode(p, bom, qty, above, level).Err?
    decreases |t|
  {
    if t != [] && bom.produces !in above {
      var line := bom.lines[t[0]];
      hide Required, LeafRow;
      FaultRaises(p, p.cat[line.item], Required(line, qty / bom.batch), above + {bom.produces}, level + 1, t[1..]);
      FaultNeeds(p.cat, p.flat, p.cat[line.item], Required(line, qty / bom.batch), above + {bom.produces}, t[1..]);
      LineFault(p, bom, qty / bom.batch, above, level, t[0]);
      if ExplodeLines(p, bom, qty / bom.batch, above, level, |bom.lines|).Ok? {
        LineSucceeds(p, bom, qty / bom.batch, above, level, |bom.lines|, t[0]);
      }
    }
  }

  lemma FaultNeeds(cat: Catalogue, flat: bool, bom: Bom, qty: real, above: set<Item>, t: Trail)
    requires Fault(cat, flat, bom, qty, above, t).Some?
    ensures qty > 0.0
  {
  }

  // The first line that fails decides.
  lemma {:induction false} FirstFailingLine(p: Plan, bom: Bom, scale: real, above: set<Item>, level: int, n: nat)
    returns (i: nat)
    requires n <= |bom.lines| && bom.produces !in above
    requires ExplodeLines(p, bom, scale, above, level, n).Err?
    ensures i < n && ExplodeLines(p, bom, scale, above, level, i).Ok?
    ensures ExplodeLine(p, bom, scale, above, level, i).Err?
    ensures ExplodeLines(p, bom, scale, above, level, n).error == ExplodeLine(p, bom, scale, above, level, i).error
    decreases n
  {
    if ExplodeLines(p, bom, scale, above, level, n - 1).Err? {
      i := FirstFailingLine(p, bom, scale, above, level, n - 1);
    } else {
      i := n - 1;
    }
  }

  ghost predicate FirstFault(cat: Catalogue, flat: bool, bom: Bom, qty: real, above: set<Item>, t: Trail) {
    forall u | Fault(cat, flat, bom, qty, above, u).Some? :: u == t || Before(t, u)
  }

  lemma {:induction false} RaisesFirstFault(p: Plan, bom: Bom, qty: real, above: set<Item>, level: int) returns (t: Trail)
    requires p.mode == Micro && Explode(p, bom, qty, above, level).Err?
    ensures Fault(p.cat, p.flat, bom, qty, above, t) == Some(Explode(p, bom, qty, above, level).error)
    ensures FirstFault(p.cat, p.flat, bom, qty, above, t)
    decreases Pending(p, bom, above)
  {
    hide Required, LeafRow;
    if bom.batch <= 0.0 || bom.produces in above {
      t := [];
    } else {
      var scale := qty / bom.batch;
      var i := FirstFailingLine(p, bom, scale, above, level, |bom.lines|);
      LineFault(p, bom, scale, above, level, i);
      var line := bom.lines[i];
      var rest := RaisesFirstFault(p, p.cat[line.item], Required(line, scale), above + {bom.produces}, level + 1);
      t := [i] + rest;
      assert t[1..] == rest;
      hide Explode, ExplodeLines;
      forall u | Fault(p.cat, p.flat, bom, qty, above, u).Some?
        ensures u == t || Before(t, u)
      {
        if u[0] < i {
          LineSucceeds(p, bom, scale, above, level, i, u[0]);
          LineFault(p, bom, scale, above, level, u[0]);
          var other := bom.lines[u[0]];
          FaultRaises(p, p.cat[other.item], Required(other, scale), above + {bom.produces}, level + 1, u[1..]);
          FaultNeeds(p.cat, p.flat, p.cat[other.item], Required(other, scale), above + {bom.produces}, u[1..]);
          assert false;
        } else if u[0] == i {
          assert u[1..] == rest || Before(rest, u[1..]);
          assert u == [i] + u[1..];
        }
      }
    }
  }

  /** The failure raised is the fault that comes first, depth first: an empty batch, or a finished
      good that is being made already. Without a fault nothing is raised. */
  lemma RaisedIff(cat: Catalogue, flat: bool, bom: Bom, qty: real, above: set<Item>, level: int, e: Failure)
    ensures Explode(Plan(cat, Micro, flat), bom, qty, above, level) == Err(e) <==>
      exists t :: Fault(cat, flat, bom, qty, above, t) == Some(e) && FirstFault(cat, flat, bom, qty, above, t)
  {
    hide *;
    var p := Plan(cat, Micro, flat);
    if Explode(p, bom, qty, above, level).Err? {
      var t := RaisesFirstFault(p, bom, qty, above, level);
      forall u | Fault(cat, flat, bom, qty, above, u).Some? && FirstFault(cat, flat, bom, qty, above, u)
        ensures u == t
      {
        FirstIsOne(cat, flat, bom, qty, above, t, u);
      }
    }
    if t :| Fault(cat, flat, bom, qty, above, t) == Some(e) && FirstFault(cat, flat, bom, qty, above, t) {
      FaultRaises(p, bom, qty, above, level, t);
    }
  }

  lemma {:induction false} NotBothBefore(s: Trail, t: Trail)
    ensures !(Before(s, t) && Before(t, s))
  {
    if s != [] && t != [] {
      NotBothBefore(s[1..], t[1..]);
    }
  }

  lemma FirstIsOne(cat: Catalogue, flat: bool, bom: Bom, qty: real, above: set<Item>, t: Trail, u: Trail)
    requires Fault(cat, flat, bom, qty, above, t).Some? && FirstFault(cat, flat, bom, qty, above, t)
    requires Fault(cat, flat, bom, qty, above, u).Some? && FirstFault(cat, flat, bom, qty, above, u)
    ensures t == u
  {
    hide Fault, Before;
    NotBothBefore(t, u);
  }
}
