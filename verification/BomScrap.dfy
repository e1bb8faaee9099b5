/** Scrap of the root BOM, scaled to the quantity made; scrap is not nested. */
module BomScrap {
  import opened Prelude
  import opened Rounding
  import opened BomCatalogue

  // The scrap rows to post: one for each line whose rounded quantity is positive.
  function ScrapOf(scrap: seq<ScrapLine>, scale: real): seq<ScrapLine> {
    if scrap == [] then []
    else
      var last := scrap[|scrap|-1];
      var qty := QuantiseMicro(Scaled(last.qty, scale));
      ScrapOf(scrap[..|scrap|-1], scale) + if qty > 0.0 then [last.(qty := qty)] else []
  }

  method ExplodeScrap(bom: Bom, qty: real) returns (rows: seq<ScrapLine>)
    ensures rows == if qty <= 0.0 || bom.batch <= 0.0 then [] else ScrapOf(bom.scrap, qty / bom.batch)
  {
    if qty <= 0.0 || bom.batch <= 0.0 {
      return [];
    }
    var scale := qty / bom.batch;
    rows := [];
    for i := 0 to |bom.scrap|
      invariant rows == ScrapOf(bom.scrap[..i], scale)
    {
      assert bom.scrap[..i+1][..i] == bom.scrap[..i];
      var scaled := QuantiseMicro(Scaled(bom.scrap[i].qty, scale));
      if scaled <= 0.0 {
        continue;
      }
      rows := rows + [bom.scrap[i].(qty := scaled)];
    }
    assert bom.scrap[..|bom.scrap|] == bom.scrap;
  }

  ghost function Posted(scale: real): ScrapLine -> bool {
    (l: ScrapLine) => QuantiseMicro(Scaled(l.qty, scale)) > 0.0
  }

  ghost predicate Scales(l: ScrapLine, scale: real, row: ScrapLine) {
    row.item == l.item && row.qty == QuantiseMicro(Scaled(l.qty, scale)) && row.rate == l.rate && row.warehouse == l.warehouse
  }

  ghost predicate PostedFrom(scrap: seq<ScrapLine>, scale: real, ks: seq<nat>, rows: seq<ScrapLine>) {
    |rows| == |ks| && forall j | 0 <= j < |ks| :: ks[j] < |scrap| && Scales(scrap[ks[j]], scale, rows[j])
  }

  /** The rows are those of the lines whose rounded quantity is positive, in sequence; each carries that
      quantity and its line's item, rate and warehouse. */
  lemma {:induction false} ScrapLinesPosted(scrap: seq<ScrapLine>, scale: real) returns (ks: seq<nat>)
    ensures Kept(scrap, Posted(scale), ks) && PostedFrom(scrap, scale, ks, ScrapOf(scrap, scale))
  {
    hide *;
    ks := [];
    if scrap == [] {
      NothingPosted(scale);
    } else {
      var front, last := scrap[..|scrap|-1], scrap[|scrap|-1];
      ks := ScrapLinesPosted(front, scale);
      KeptSnoc(front, last, Posted(scale), ks);
      PostedSnoc(front, last, scale, ks, ScrapOf(front, scale));
      assert scrap == front + [last];
      if Posted(scale)(last) {
        ks := ks + [|front|];
      }
    }
  }

  lemma NothingPosted(scale: real)
    ensures ScrapOf([], scale) == [] && Kept([], Posted(scale), []) && PostedFrom([], scale, [], [])
  {
  }

  lemma PostedSnoc(front: seq<ScrapLine>, last: ScrapLine, scale: real, ks: seq<nat>, rows: seq<ScrapLine>)
    requires PostedFrom(front, scale, ks, rows) && rows == ScrapOf(front, scale)
    ensures PostedFrom(front + [last], scale, if Posted(scale)(last) then ks + [|front|] else ks,
                       ScrapOf(front + [last], scale))
  {
    hide *;
    var row := ScrapLine(last.item, QuantiseMicro(Scaled(last.qty, scale)), last.rate, last.warehouse);
    OneMoreScrap(front, last, scale, row);
    PostedOneMore(front, last, scale, ks, rows, row);
  }

  lemma OneMoreScrap(front: seq<ScrapLine>, last: ScrapLine, scale: real, row: ScrapLine)
    requires row == ScrapLine(last.item, QuantiseMicro(Scaled(last.qty, scale)), last.rate, last.warehouse)
    ensures ScrapOf(front + [last], scale) == ScrapOf(front, scale) + if Posted(scale)(last) then [row] else []
    ensures Scales(last, scale, row)
  {
    assert (front + [last])[..|front|] == front;
    hide QuantiseMicro, Scaled;
  }

  lemma PostedOneMore(front: seq<ScrapLine>, last: ScrapLine, scale: real, ks: seq<nat>, rows: seq<ScrapLine>, row: ScrapLine)
    requires PostedFrom(front, scale, ks, rows) && Scales(last, scale, row)
    ensures PostedFrom(front + [last], scale, ks, rows + []) && PostedFrom(front + [last], scale, ks + [|front|], rows + [row])
  {
    hide Scales;
    assert (front + [last])[|front|] == last;
    assert rows + [] == rows;
  }

  ghost function QtyOf(rows: seq<ScrapLine>, item: Item): real {
    if rows == [] then 0.0
    else QtyOf(rows[..|rows|-1], item) + if rows[|rows|-1].item == item then rows[|rows|-1].qty else 0.0
  }

  lemma QtyOfSnoc(rows: seq<ScrapLine>, row: ScrapLine, item: Item)
    ensures QtyOf(rows + [row], item) == QtyOf(rows, item) + if row.item == item then row.qty else 0.0
  {
    assert (rows + [row])[..|rows|] == rows;
  }

  // The item's lines that carry a positive quantity.
  function LinesOf(scrap: seq<ScrapLine>, item: Item): nat {
    if scrap == [] then 0
    else
      var last := scrap[|scrap|-1];
      LinesOf(scrap[..|scrap|-1], item) + if last.item == item && last.qty > 0.0 then 1 else 0
  }

  ghost function PositiveQtyOf(scrap: seq<ScrapLine>, item: Item): real {
    if scrap == [] then 0.0
    else
      var last := scrap[|scrap|-1];
      PositiveQtyOf(scrap[..|scrap|-1], item) + if last.item == item && last.qty > 0.0 then last.qty else 0.0
  }

  /** For every quantity, the scrap posted of an item is within half a micro-unit per line of
      that many times the per-batch scrap. */
  lemma {:induction false} ScrapWithinRounding(scrap: seq<ScrapLine>, scale: real, item: Item)
    requires scale > 0.0
    ensures Within(QtyOf(ScrapOf(scrap, scale), item), Scaled(PositiveQtyOf(scrap, item), scale),
                   HalfMicros(LinesOf(scrap, item)))
  {
    if scrap != [] {
      ScrapWithinRounding(scrap[..|scrap|-1], scale, item);
      ScrapStep(scrap[..|scrap|-1], scrap[|scrap|-1], scale, item);
      assert scrap == scrap[..|scrap|-1] + [scrap[|scrap|-1]];
    }
  }

  lemma ScrapStep(front: seq<ScrapLine>, last: ScrapLine, scale: real, item: Item)
    requires scale > 0.0
    requires Within(QtyOf(ScrapOf(front, scale), item), Scaled(PositiveQtyOf(front, item), scale),
                    HalfMicros(LinesOf(front, item)))
    ensures Within(QtyOf(ScrapOf(front + [last], scale), item), Scaled(PositiveQtyOf(front + [last], item), scale),
                   HalfMicros(LinesOf(front + [last], item)))
  {
    hide *;
    ScrapOfSnoc(front, last, scale, item);
    LinesOfSnoc(front, last, item);
    RoundedSign(last.qty, scale);
    if last.item == item && last.qty > 0.0 {
      ScaledSum(PositiveQtyOf(front, item), last.qty, scale);
      var qty := QuantiseMicro(Scaled(last.qty, scale));
      WithinOneMore(QtyOf(ScrapOf(front, scale), item), Scaled(PositiveQtyOf(front, item), scale), LinesOf(front, item),
                    if qty > 0.0 then qty else 0.0, Scaled(last.qty, scale));
    }
  }

  lemma RoundedSign(qty: real, scale: real)
    requires scale > 0.0
    ensures var rounded := QuantiseMicro(Scaled(qty, scale));
      && (qty <= 0.0 ==> rounded <= 0.0)
      && (qty > 0.0 ==> Within(if rounded > 0.0 then rounded else 0.0, Scaled(qty, scale), HALF_MICRO))
  {
    ScaledSign(qty, scale);
  }

  lemma ScrapOfSnoc(front: seq<ScrapLine>, last: ScrapLine, scale: real, item: Item)
    ensures var qty := QuantiseMicro(Scaled(last.qty, scale));
      QtyOf(ScrapOf(front + [last], scale), item) ==
        QtyOf(ScrapOf(front, scale), item) + if last.item == item && qty > 0.0 then qty else 0.0
  {
    var qty := QuantiseMicro(Scaled(last.qty, scale));
    assert (front + [last])[..|front|] == front;
    if qty > 0.0 {
      QtyOfSnoc(ScrapOf(front, scale), last.(qty := qty), item);
    } else {
      assert ScrapOf(front, scale) + [] == ScrapOf(front, scale);
    }
  }

  lemma LinesOfSnoc(front: seq<ScrapLine>, last: ScrapLine, item: Item)
    ensures LinesOf(front + [last], item) == LinesOf(front, item) + if last.item == item && last.qty > 0.0 then 1 else 0
    ensures PositiveQtyOf(front + [last], item) ==
      PositiveQtyOf(front, item) + if last.item == item && last.qty > 0.0 then last.qty else 0.0
  {
    assert (front + [last])[..|front|] == front;
  }

  lemma WithinOneMore(a: real, b: real, n: nat, qty: real, exact: real)
    requires Within(a, b, HalfMicros(n)) && Within(qty, exact, HALF_MICRO)
    ensures Within(a + qty, b + exact, HalfMicros(n + 1))
  {
  }

  lemma ScaledSign(qty: real, scale: real)
    requires scale > 0.0
    ensures Scaled(qty, scale) > 0.0 <==> qty > 0.0
  {
  }
}
