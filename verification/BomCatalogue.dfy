/** Bills of materials and the graph "item uses component" that the selected BOMs span. */
module BomCatalogue {
  import opened Prelude

  // An item is named by the text of its identifier, which is also a sort key.
  type Item = string

  datatype Line = Line(item: Item, qty: real, warehouse: Option<string>, alt: bool,
                       rate: real, code: string)

  datatype ScrapLine = ScrapLine(item: Item, qty: real, rate: real, warehouse: Option<string>)

  datatype Bom = Bom(produces: Item, batch: real, phantom: bool, totalCost: real,
                     lines: seq<Line>, scrap: seq<ScrapLine>)
  {
    // Derived, never stored: the rolled-up cost of one unit.
    function CostPerUnit(): real {
      if batch != 0.0 then totalCost / batch else 0.0
    }
  }

  // What looking up the BOM of an item yields; items without a usable BOM are absent.
  type Catalogue = map<Item, Bom>

  function Components(bom: Bom): set<Item> {
    set l <- bom.lines :: l.item
  }

  // The selected BOM of an item makes that item.
  ghost predicate WellFormed(cat: Catalogue) {
    forall i <- cat :: cat[i].produces == i
  }

  predicate Uses(cat: Catalogue, x: Item, y: Item) {
    x in cat && y in Components(cat[x])
  }

  ghost predicate IsPath(cat: Catalogue, p: seq<Item>) {
    |p| > 0 && forall i :: 0 <= i < |p| - 1 ==> Uses(cat, p[i], p[i+1])
  }

  ghost predicate PathFromTo(cat: Catalogue, p: seq<Item>, x: Item, y: Item) {
    IsPath(cat, p) && p[0] == x && p[|p|-1] == y
  }

  // y is reached from x in zero or more steps.
  ghost predicate Reach(cat: Catalogue, x: Item, y: Item) {
    exists p :: PathFromTo(cat, p, x, y)
  }

  ghost predicate Acyclic(cat: Catalogue) {
    forall p :: IsPath(cat, p) && |p| >= 2 ==> p[0] != p[|p|-1]
  }

  lemma ReachRefl(cat: Catalogue, x: Item)
    ensures Reach(cat, x, x)
  {
    assert PathFromTo(cat, [x], x, x);
  }

  lemma ReachSnoc(cat: Catalogue, x: Item, y: Item, z: Item)
    requires Reach(cat, x, y) && Uses(cat, y, z)
    ensures Reach(cat, x, z)
  {
    var p :| PathFromTo(cat, p, x, y);
    assert PathFromTo(cat, p + [z], x, z);
  }

  // Using y, which reaches x again, is what a cycle is.
  lemma WayBackIsCycle(cat: Catalogue, x: Item, y: Item)
    requires Uses(cat, x, y) && Reach(cat, y, x)
    ensures !Acyclic(cat)
  {
    var p :| PathFromTo(cat, p, y, x);
    assert IsPath(cat, [x] + p);
  }

  lemma NoWayBack(cat: Catalogue, x: Item, y: Item)
    requires Acyclic(cat) && Uses(cat, x, y)
    ensures !Reach(cat, y, x)
  {
    hide Acyclic, Reach;
    if Reach(cat, y, x) {
      WayBackIsCycle(cat, x, y);
    }
  }

  // A set that contains x and all components of its members contains all that x reaches.
  lemma {:induction false} ClosedUnderReach(cat: Catalogue, s: set<Item>, p: seq<Item>)
    requires IsPath(cat, p) && p[0] in s
    requires forall x, y :: x in s && Uses(cat, x, y) ==> y in s
    ensures p[|p|-1] in s
    decreases |p|
  {
    if |p| > 1 {
      assert Uses(cat, p[0], p[1]);
      ClosedUnderReach(cat, s, p[1..]);
    }
  }

  // A path that ends in a set can be cut at its first visit of the set.
  lemma {:induction false} FirstVisit(cat: Catalogue, p: seq<Item>, at: set<Item>) returns (q: seq<Item>)
    requires IsPath(cat, p) && p[|p|-1] in at
    ensures IsPath(cat, q) && q[0] == p[0] && q[|q|-1] in at
    ensures forall i :: 0 <= i < |q| - 1 ==> q[i] !in at
    decreases |p|
  {
    if i :| 0 <= i < |p| - 1 && p[i] in at {
      q := FirstVisit(cat, p[..i+1], at);
    } else {
      q := p;
    }
  }

  // Changing the BOMs of some items does not touch paths that never leave those items.
  lemma PathElsewhere(cat: Catalogue, cat': Catalogue, at: set<Item>, q: seq<Item>)
    requires IsPath(cat, q)
    requires forall i :: 0 <= i < |q| - 1 ==> q[i] !in at
    requires cat' - at == cat - at
    ensures IsPath(cat', q)
  {
    forall i | 0 <= i < |q| - 1
      ensures Uses(cat', q[i], q[i+1])
    {
      assert Uses(cat, q[i], q[i+1]);
      assert q[i] in cat - at && (cat - at)[q[i]] == cat[q[i]];
      assert q[i] in cat' - at && (cat' - at)[q[i]] == cat'[q[i]];
    }
  }

  // Whatever reaches one of the changed items still reaches one of them.
  lemma ReachElsewhere(cat: Catalogue, cat': Catalogue, at: set<Item>, x: Item, y: Item) returns (z: Item)
    requires Reach(cat, x, y) && y in at
    requires cat' - at == cat - at
    ensures z in at && Reach(cat', x, z)
  {
    var p :| PathFromTo(cat, p, x, y);
    var q := FirstVisit(cat, p, at);
    PathElsewhere(cat, cat', at, q);
    z := q[|q|-1];
    assert PathFromTo(cat', q, x, z);
  }

  // A cycle can be walked starting right after any of its items.
  lemma Rotate(cat: Catalogue, p: seq<Item>, i: nat)
    requires IsPath(cat, p) && p[0] == p[|p|-1]
    requires i < |p| - 1
    ensures Uses(cat, p[i], p[i+1]) && Reach(cat, p[i+1], p[i])
  {
    var r := p[i+1..] + p[1..i+1];
    forall j | 0 <= j < |r| - 1
      ensures Uses(cat, r[j], r[j+1])
    {
      var k := if j < |p| - i - 2 then i + 1 + j else j - (|p| - i - 2);
      assert Uses(cat, p[k], p[k+1]);
      assert r[j] == p[k] && r[j+1] == p[k+1];
    }
    assert PathFromTo(cat, r, p[i+1], p[i]);
  }

  // Some component of the BOM already leads back to the item.
  ghost predicate LeadsBack(cat: Catalogue, bom: Bom, item: Item) {
    exists c <- Components(bom) :: Reach(cat, c, item)
  }

  // Changing the BOMs of any items keeps an acyclic selection acyclic exactly when none of
  // those items is led back to by a component of its new BOM.
  lemma ChangeAcyclicIff(cat: Catalogue, cat': Catalogue, at: set<Item>)
    requires Acyclic(cat) && cat' - at == cat - at
    ensures Acyclic(cat') <==> forall i <- at :: i in cat' ==> !LeadsBack(cat', cat'[i], i)
  {
    if Acyclic(cat') {
      forall i, c | i in at && i in cat' && c in Components(cat'[i])
        ensures !Reach(cat', c, i)
      {
        NoWayBack(cat', i, c);
      }
    } else {
      var p :| IsPath(cat', p) && |p| >= 2 && p[0] == p[|p|-1];
      if k :| 0 <= k < |p| - 1 && p[k] in at {
        Rotate(cat', p, k);
        assert LeadsBack(cat', cat'[p[k]], p[k]);
      } else {
        PathElsewhere(cat', cat, at, p);
      }
    }
  }

  // When all changed items get the same BOM, the walk under the old selection decides.
  lemma SpreadAcyclicIff(cat: Catalogue, cat': Catalogue, at: set<Item>, bom: Bom)
    requires Acyclic(cat) && cat' - at == cat - at
    requires forall i <- at :: i in cat' && cat'[i] == bom
    ensures Acyclic(cat') <==> forall i <- at :: !LeadsBack(cat, bom, i)
  {
    ChangeAcyclicIff(cat, cat', at);
    if i :| i in at && LeadsBack(cat, bom, i) {
      var c :| c in Components(bom) && Reach(cat, c, i);
      var j := ReachElsewhere(cat, cat', at, c, i);
      assert LeadsBack(cat', cat'[j], j);
    }
    if i :| i in at && LeadsBack(cat', bom, i) {
      var c :| c in Components(bom) && Reach(cat', c, i);
      var j := ReachElsewhere(cat', cat, at, c, i);
      assert LeadsBack(cat, bom, j);
    }
  }

  // Giving an item another BOM keeps an acyclic selection acyclic exactly when no
  // component of the new BOM leads back to the item under the old selection.
  lemma ReselectAcyclicIff(cat: Catalogue, item: Item, bom: Bom)
    requires Acyclic(cat)
    ensures Acyclic(cat[item := bom]) <==> !LeadsBack(cat, bom, item)
  {
    assert cat[item := bom] - {item} == cat - {item};
    SpreadAcyclicIff(cat, cat[item := bom], {item}, bom);
    assert item in {item};
  }

  // Both cases in one: any change to the BOM of a single item.
  lemma OneItemChangeAcyclicIff(cat: Catalogue, cat': Catalogue, item: Item)
    requires Acyclic(cat) && cat' - {item} == cat - {item}
    ensures Acyclic(cat') <==> (item in cat' ==> !LeadsBack(cat, cat'[item], item))
  {
    if item in cat' {
      SpreadAcyclicIff(cat, cat', {item}, cat'[item]);
      assert item in {item};
    } else {
      ChangeAcyclicIff(cat, cat', {item});
    }
  }

  // Levels that drop at every use rule cycles out.
  lemma {:induction false} LevelsDrop(cat: Catalogue, level: Item -> int, p: seq<Item>)
    requires forall x, y :: Uses(cat, x, y) ==> level(y) < level(x)
    requires IsPath(cat, p) && |p| >= 2
    ensures level(p[|p|-1]) < level(p[0])
    decreases |p|
  {
    assert Uses(cat, p[0], p[1]);
    if |p| > 2 {
      LevelsDrop(cat, level, p[1..]);
    }
  }
}
