/** When exploding raises: exactly when a chain of opened BOMs repeats a finished good or
    meets an empty batch; where items use BOMs of their own, never for what the cycle check
    let through. */
module BomSafety {
  import opened Prelude
  import opened Rounding
  import opened BomCatalogue
  import opened BomExplosion
  import opened BomTotals
  import opened BomRegister
  import opened BomSelection
  import opened BomCycleRuns

  // --- Chains of BOMs that one explosion opens ---

  // A BOM together with the quantity asked of it.
  datatype Visit = Visit(bom: Bom, qty: real)

  ghost predicate Opens(p: Plan, v: Visit, next: Visit) {
    v.qty > 0.0 && v.bom.batch > 0.0 &&
    exists i | 0 <= i < |v.bom.lines| ::
      var line := v.bom.lines[i];
      Opened(p, line.item) && next == Visit(p.cat[line.item], Need(p, line, v.qty / v.bom.batch)) && next.qty > 0.0
  }

  ghost predicate IsChain(p: Plan, start: Visit, chain: seq<Visit>) {
    chain != [] && chain[0] == start
    && forall i | 0 <= i < |chain| - 1 :: Opens(p, chain[i], chain[i+1])
  }

  ghost predicate NoRepeat(chain: seq<Visit>) {
    forall i, j | 0 <= i < j < |chain| :: chain[i].bom.produces != chain[j].bom.produces
  }

  lemma {:induction false} SuccessMeansCleanChains(p: Plan, bom: Bom, qty: real, ancestors: set<Item>, level: int,
                                                   chain: seq<Visit>)
    requires qty > 0.0 && Explode(p, bom, qty, ancestors, level).Ok?
    requires IsChain(p, Visit(bom, qty), chain)
    ensures NoRepeat(chain)
    ensures forall v <- chain :: v.bom.batch > 0.0 && v.bom.produces !in ancestors
    decreases |chain|
  {
    if |chain| == 1 {
      assert chain == [Visit(bom, qty)];
    } else {
      hide Explode, NoRepeat, Opens, Opened;
      assert Opens(p, chain[0], chain[1]);
      OpenedSucceeds(p, bom, qty, ancestors, level, chain[1]);
      ChainTail(p, Visit(bom, qty), chain);
      SuccessMeansCleanChains(p, chain[1].bom, chain[1].qty, ancestors + {bom.produces}, level + 1, chain[1..]);
      CleanCons(chain[0], chain[1..], ancestors);
      assert chain == [chain[0]] + chain[1..];
    }
  }

  lemma OpenedSucceeds(p: Plan, bom: Bom, qty: real, ancestors: set<Item>, level: int, next: Visit)
    requires qty > 0.0 && Explode(p, bom, qty, ancestors, level).Ok? && Opens(p, Visit(bom, qty), next)
    ensures bom.batch > 0.0 && bom.produces !in ancestors && next.qty > 0.0
    ensures Explode(p, next.bom, next.qty, ancestors + {bom.produces}, level + 1).Ok?
  {
    var scale := qty / bom.batch;
    var i :| 0 <= i < |bom.lines| && Opened(p, bom.lines[i].item)
      && next == Visit(p.cat[bom.lines[i].item], Need(p, bom.lines[i], scale));
    LineSucceeds(p, bom, scale, ancestors, level, |bom.lines|, i);
  }

  lemma ChainTail(p: Plan, start: Visit, chain: seq<Visit>)
    requires IsChain(p, start, chain) && |chain| > 1
    ensures IsChain(p, chain[1], chain[1..])
  {
    hide Opens;
    var tail := chain[1..];
    forall k | 0 <= k < |tail| - 1
      ensures Opens(p, tail[k], tail[k+1])
    {
      assert Opens(p, chain[k+1], chain[k+2]);
    }
  }

  lemma CleanCons(head: Visit, tail: seq<Visit>, ancestors: set<Item>)
    requires NoRepeat(tail) && head.bom.batch > 0.0 && head.bom.produces !in ancestors
    requires forall v <- tail :: v.bom.batch > 0.0 && v.bom.produces !in ancestors + {head.bom.produces}
    ensures NoRepeat([head] + tail)
    ensures forall v <- [head] + tail :: v.bom.batch > 0.0 && v.bom.produces !in ancestors
  {
    var chain := [head] + tail;
    forall i, j | 0 <= i < j < |chain|
      ensures chain[i].bom.produces != chain[j].bom.produces
    {
      assert chain[j] == tail[j-1] && tail[j-1] in tail;
      if i > 0 { assert chain[i] == tail[i-1]; }
    }
  }

  // The chain that leads to the first failure.
  lemma {:induction false} FailureHasChain(p: Plan, bom: Bom, qty: real, ancestors: set<Item>, level: int)
    returns (chain: seq<Visit>)
    requires Explode(p, bom, qty, ancestors, level).Err?
    ensures IsChain(p, Visit(bom, qty), chain)
    ensures var last := chain[|chain|-1].bom;
      last.batch <= 0.0 || last.produces in ancestors
      || exists i :: 0 <= i < |chain| - 1 && chain[i].bom.produces == last.produces
    decreases Pending(p, bom, ancestors)
  {
    if bom.batch <= 0.0 || bom.produces in ancestors {
      chain := [Visit(bom, qty)];
    } else {
      var scale := qty / bom.batch;
      var i := FailingLine(p, bom, scale, ancestors, level, |bom.lines|);
      var line := bom.lines[i];
      var need := Need(p, line, scale);
      var tail := FailureHasChain(p, p.cat[line.item], need, ancestors + {bom.produces}, level + 1);
      chain := [Visit(bom, qty)] + tail;
      assert Opens(p, chain[0], chain[1]);
      forall k | 0 <= k < |chain| - 1 ensures Opens(p, chain[k], chain[k+1]) {
        if k > 0 { assert Opens(p, tail[k-1], tail[k]); }
      }
      var last := tail[|tail|-1].bom;
      if k :| 0 <= k < |tail| - 1 && tail[k].bom.produces == last.produces {
        assert chain[k+1].bom.produces == last.produces;
      } else if last.produces == bom.produces {
        assert chain[0].bom.produces == last.produces;
      }
    }
  }

  lemma {:induction false} FailingLine(p: Plan, bom: Bom, scale: real, ancestors: set<Item>, level: int, n: nat)
    returns (i: nat)
    requires n <= |bom.lines| && bom.produces !in ancestors
    requires ExplodeLines(p, bom, scale, ancestors, level, n).Err?
    ensures i < n && ExplodeLine(p, bom, scale, ancestors, level, i).Err?
    decreases n
  {
    if ExplodeLines(p, bom, scale, ancestors, level, n - 1).Err? {
      i := FailingLine(p, bom, scale, ancestors, level, n - 1);
    } else {
      i := n - 1;
    }
  }

  /** On every catalogue, cyclic or not, an explosion returns if and only if no chain of BOMs
      it opens repeats a finished good and every BOM on such a chain has a positive batch. */
  lemma SuccessIffCleanChains(p: Plan, bom: Bom, qty: real)
    requires qty > 0.0
    ensures Explode(p, bom, qty, {}, 0).Ok? <==>
      forall chain: seq<Visit> :: IsChain(p, Visit(bom, qty), chain) ==>
        NoRepeat(chain) && forall v <- chain :: v.bom.batch > 0.0
  {
    if Explode(p, bom, qty, {}, 0).Ok? {
      forall chain: seq<Visit> | IsChain(p, Visit(bom, qty), chain)
        ensures NoRepeat(chain) && forall v <- chain :: v.bom.batch > 0.0
      {
        SuccessMeansCleanChains(p, bom, qty, {}, 0, chain);
      }
    } else {
      var chain := FailureHasChain(p, bom, qty, {}, 0);
      assert chain[|chain|-1] in chain;
    }
  }

  // --- What never raising takes, told from the catalogue alone ---

  ghost predicate BatchesPositive(cat: Catalogue) {
    forall i <- cat :: cat[i].batch > 0.0
  }

  ghost predicate LinesPositive(cat: Catalogue) {
    forall i <- cat :: forall l <- cat[i].lines :: l.qty > 0.0
  }

  // Items that the explosion walks through, each a component of the BOM before, starting with
  // the given BOM: all with BOMs in full, the phantoms otherwise.
  ghost predicate Walk(cat: Catalogue, flat: bool, bom: Bom, walk: seq<Item>) {
    && IsPath(cat, walk) && walk[0] in Components(bom)
    && forall x <- walk :: x in cat && (flat || cat[x].phantom)
  }

  ghost predicate GoodsDiffer(cat: Catalogue, bom: Bom, walk: seq<Item>)
    requires forall x <- walk :: x in cat
  {
    && (forall i | 0 <= i < |walk| :: cat[walk[i]].produces != bom.produces)
    && (forall i, j | 0 <= i < j < |walk| :: cat[walk[i]].produces != cat[walk[j]].produces)
  }

  // No walk from the BOM meets a BOM of a good that was made on the way.
  ghost predicate Tidy(cat: Catalogue, flat: bool, bom: Bom) {
    forall walk | Walk(cat, flat, bom, walk) :: GoodsDiffer(cat, bom, walk)
  }

  // What a chain opens after its first BOM is a walk.
  lemma {:induction false} ChainIsWalk(p: Plan, start: Visit, chain: seq<Visit>) returns (walk: seq<Item>)
    requires IsChain(p, start, chain) && |chain| > 1
    ensures Walk(p.cat, p.flat, start.bom, walk) && |walk| == |chain| - 1
    ensures forall i | 0 <= i < |walk| :: chain[i+1].bom == p.cat[walk[i]]
    decreases |chain|
  {
    assert Opens(p, chain[0], chain[1]);
    var bom := start.bom;
    var i :| 0 <= i < |bom.lines| && Opened(p, bom.lines[i].item)
      && chain[1] == Visit(p.cat[bom.lines[i].item], Need(p, bom.lines[i], start.qty / bom.batch));
    var item := bom.lines[i].item;
    assert item in Components(bom) by { assert bom.lines[i] in bom.lines; }
    walk := [item];
    if |chain| > 2 {
      var tail := chain[1..];
      ChainTail(p, start, chain);
      var rest := ChainIsWalk(p, chain[1], tail);
      walk := [item] + rest;
      forall k | 0 <= k < |walk| - 1
        ensures Uses(p.cat, walk[k], walk[k+1])
      {
        if k > 0 { assert Uses(p.cat, rest[k-1], rest[k]); }
      }
      forall k | 0 <= k < |walk|
        ensures chain[k+1].bom == p.cat[walk[k]]
      {
        if k > 0 { assert tail[k].bom == p.cat[rest[k-1]]; }
      }
    }
  }

  lemma TidyChains(p: Plan, start: Visit, chain: seq<Visit>)
    requires Tidy(p.cat, p.flat, start.bom) && BatchesPositive(p.cat) && start.bom.batch > 0.0
    requires IsChain(p, start, chain)
    ensures NoRepeat(chain) && forall v <- chain :: v.bom.batch > 0.0
  {
    if |chain| > 1 {
      var walk := ChainIsWalk(p, start, chain);
      forall i, j | 0 <= i < j < |chain|
        ensures chain[i].bom.produces != chain[j].bom.produces
      {
        assert chain[j].bom == p.cat[walk[j-1]];
        if i > 0 { assert chain[i].bom == p.cat[walk[i-1]]; }
      }
      forall v | v in chain
        ensures v.bom.batch > 0.0
      {
        var i :| 0 <= i < |chain| && chain[i] == v;
        if i > 0 { assert chain[i].bom == p.cat[walk[i-1]]; }
      }
    }
  }

  // Quantities large enough to survive every rounding along a walk open all of it.
  lemma {:induction false} WalkIsChain(cat: Catalogue, flat: bool, bom: Bom, walk: seq<Item>) returns (enough: real)
    requires Walk(cat, flat, bom, walk) && BatchesPositive(cat) && LinesPositive(cat)
    requires bom.batch > 0.0 && forall l <- bom.lines :: l.qty > 0.0
    ensures enough > 0.0
    ensures forall qty: real | qty >= enough :: ChainAlong(cat, flat, bom, qty, walk)
    decreases |walk|
  {
    var next := 0.0;
    var child := cat[walk[0]];
    if |walk| > 1 {
      assert Uses(cat, walk[0], walk[1]);
      forall k | 0 <= k < |walk[1..]| - 1
        ensures Uses(cat, walk[1..][k], walk[1..][k+1])
      {
        assert Uses(cat, walk[k+1], walk[k+2]);
      }
      next := WalkIsChain(cat, flat, child, walk[1..]);
    }
    var line :| line in bom.lines && line.item == walk[0];
    var i :| 0 <= i < |bom.lines| && bom.lines[i] == line;
    enough := (next + 1.0) / line.qty * bom.batch;
    PositiveRatio(next + 1.0, line.qty, bom.batch);
    forall qty: real | qty >= enough
      ensures ChainAlong(cat, flat, bom, qty, walk)
    {
      NeedSuffices(line.qty, bom.batch, qty, next);
      OneFurther(cat, flat, bom, qty, i, walk);
    }
  }

  // The chain opens exactly the walk after its first BOM.
  ghost predicate Follows(cat: Catalogue, walk: seq<Item>, chain: seq<Visit>) {
    |chain| == |walk| + 1
    && forall k | 0 <= k < |walk| :: walk[k] in cat && chain[k+1].bom == cat[walk[k]]
  }

  ghost predicate ChainAlong(cat: Catalogue, flat: bool, bom: Bom, qty: real, walk: seq<Item>) {
    exists chain: seq<Visit> :: IsChain(Plan(cat, Micro, flat), Visit(bom, qty), chain) && Follows(cat, walk, chain)
  }

  lemma OneFurther(cat: Catalogue, flat: bool, bom: Bom, qty: real, i: nat, walk: seq<Item>)
    requires qty > 0.0 && bom.batch > 0.0 && i < |bom.lines| && Walk(cat, flat, bom, walk) && bom.lines[i].item == walk[0]
    requires Need(Plan(cat, Micro, flat), bom.lines[i], qty / bom.batch) > 0.0
    requires |walk| > 1 ==>
      ChainAlong(cat, flat, cat[walk[0]], Need(Plan(cat, Micro, flat), bom.lines[i], qty / bom.batch), walk[1..])
    ensures ChainAlong(cat, flat, bom, qty, walk)
  {
    var p := Plan(cat, Micro, flat);
    var head, next := Visit(bom, qty), Visit(cat[walk[0]], Need(p, bom.lines[i], qty / bom.batch));
    var tail: seq<Visit> := [next];
    if |walk| > 1 {
      tail :| IsChain(p, next, tail) && Follows(cat, walk[1..], tail);
    }
    ChainCons(p, head, i, tail);
    var chain := [head] + tail;
    forall k | 0 <= k < |walk|
      ensures chain[k+1].bom == cat[walk[k]]
    {
      if k > 0 { assert tail[k].bom == cat[walk[1..][k-1]]; }
    }
    assert Follows(cat, walk, chain);
  }

  lemma ChainCons(p: Plan, head: Visit, i: nat, tail: seq<Visit>)
    requires head.qty > 0.0 && head.bom.batch > 0.0 && i < |head.bom.lines|
    requires var line := head.bom.lines[i];
      Opened(p, line.item) && tail != []
      && IsChain(p, Visit(p.cat[line.item], Need(p, line, head.qty / head.bom.batch)), tail) && tail[0].qty > 0.0
    ensures IsChain(p, head, [head] + tail)
  {
    var chain := [head] + tail;
    forall k | 0 <= k < |chain| - 1
      ensures Opens(p, chain[k], chain[k+1])
    {
      if k > 0 { assert Opens(p, tail[k-1], tail[k]); }
    }
  }

  lemma PositiveRatio(a: real, b: real, c: real)
    requires a > 0.0 && b > 0.0 && c > 0.0
    ensures a / b * c > 0.0
  {
  }

  lemma NeedSuffices(lineQty: real, batch: real, qty: real, next: real)
    requires lineQty > 0.0 && batch > 0.0 && next >= 0.0 && qty >= (next + 1.0) / lineQty * batch
    ensures var need := QuantiseMicro(Scaled(lineQty, qty / batch)); need > 0.0 && need >= next
  {
    assert qty / batch >= (next + 1.0) / lineQty;
    ProductAtLeast(lineQty, qty / batch, next + 1.0);
  }

  lemma ProductAtLeast(a: real, b: real, c: real)
    requires a > 0.0 && b >= c / a
    ensures Scaled(a, b) >= c
  {
    assert a * (c / a) == c;
    assert a * (b - c / a) >= 0.0;
  }

  /** With positive batches and lines, a BOM explodes without error for every quantity, be it in
      full or through phantoms only, if and only if no walk of that kind repeats a good. */
  lemma NeverRaisesIff(cat: Catalogue, flat: bool, bom: Bom)
    requires BatchesPositive(cat) && LinesPositive(cat)
    requires bom.batch > 0.0 && forall l <- bom.lines :: l.qty > 0.0
    ensures (forall qty :: Explode(Plan(cat, Micro, flat), bom, qty, {}, 0).Ok?) <==> Tidy(cat, flat, bom)
  {
    hide Explode, IsChain, NoRepeat;
    if Tidy(cat, flat, bom) {
      forall qty
        ensures Explode(Plan(cat, Micro, flat), bom, qty, {}, 0).Ok?
      {
        TidyNeverRaises(Plan(cat, Micro, flat), bom, qty);
      }
    } else {
      var qty := UntidyRaises(cat, flat, bom);
    }
  }

  // This half holds whatever the signs of the lines.
  lemma TidyNeverRaises(p: Plan, bom: Bom, qty: real)
    requires Tidy(p.cat, p.flat, bom) && BatchesPositive(p.cat) && bom.batch > 0.0
    ensures Explode(p, bom, qty, {}, 0).Ok?
  {
    hide Tidy, NoRepeat, IsChain;
    if qty > 0.0 {
      forall chain: seq<Visit> | IsChain(p, Visit(bom, qty), chain)
        ensures NoRepeat(chain) && forall v <- chain :: v.bom.batch > 0.0
      {
        TidyChains(p, Visit(bom, qty), chain);
      }
      SuccessIffCleanChains(p, bom, qty);
    }
  }

  lemma UntidyRaises(cat: Catalogue, flat: bool, bom: Bom) returns (qty: real)
    requires BatchesPositive(cat) && LinesPositive(cat) && !Tidy(cat, flat, bom)
    requires bom.batch > 0.0 && forall l <- bom.lines :: l.qty > 0.0
    ensures Explode(Plan(cat, Micro, flat), bom, qty, {}, 0).Err?
  {
    hide Explode;
    var walk :| Walk(cat, flat, bom, walk) && !GoodsDiffer(cat, bom, walk);
    qty := WalkIsChain(cat, flat, bom, walk);
    assert ChainAlong(cat, flat, bom, qty, walk);
    var chain: seq<Visit> :| IsChain(Plan(cat, Micro, flat), Visit(bom, qty), chain) && Follows(cat, walk, chain);
    if Explode(Plan(cat, Micro, flat), bom, qty, {}, 0).Ok? {
      SuccessMeansCleanChains(Plan(cat, Micro, flat), bom, qty, {}, 0, chain);
      NoRepeatGoodsDiffer(cat, bom, walk, chain);
    }
  }

  lemma NoRepeatGoodsDiffer(cat: Catalogue, bom: Bom, walk: seq<Item>, chain: seq<Visit>)
    requires Follows(cat, walk, chain) && chain[0].bom == bom && NoRepeat(chain)
    requires forall x <- walk :: x in cat
    ensures GoodsDiffer(cat, bom, walk)
  {
    forall i | 0 <= i < |walk|
      ensures cat[walk[i]].produces != bom.produces
    {
      assert chain[i+1].bom.produces != chain[0].bom.produces;
    }
    forall i, j | 0 <= i < j < |walk|
      ensures cat[walk[i]].produces != cat[walk[j]].produces
    {
      assert chain[i+1].bom.produces != chain[j+1].bom.produces;
    }
  }

  // --- What the cycle check buys ---

  // Where every item is linked to a BOM of its own, repeating a good is running in a circle.
  lemma CheckedIsTidy(cat: Catalogue, flat: bool, bom: Bom)
    requires Acyclic(cat) && WellFormed(cat) && !LeadsBack(cat, bom, bom.produces)
    ensures Tidy(cat, flat, bom)
  {
    forall walk | Walk(cat, flat, bom, walk)
      ensures GoodsDiffer(cat, bom, walk)
    {
      hide Acyclic, LeadsBack, IsPath, Components;
      forall i | 0 <= i < |walk|
        ensures walk[i] != bom.produces
      {
        NeverBack(cat, flat, bom, walk, i);
      }
      forall i, j | 0 <= i < j < |walk|
        ensures walk[i] != walk[j]
      {
        NeverTwice(cat, walk, i, j);
      }
      assert forall i | 0 <= i < |walk| :: walk[i] in walk && cat[walk[i]].produces == walk[i];
    }
  }

  lemma SubPath(cat: Catalogue, walk: seq<Item>, i: nat, j: nat)
    requires IsPath(cat, walk) && i <= j < |walk|
    ensures IsPath(cat, walk[i..j+1])
  {
    var part := walk[i..j+1];
    forall k | 0 <= k < |part| - 1
      ensures Uses(cat, part[k], part[k+1])
    {
      assert Uses(cat, walk[i+k], walk[i+k+1]);
    }
  }

  lemma NeverBack(cat: Catalogue, flat: bool, bom: Bom, walk: seq<Item>, i: nat)
    requires Walk(cat, flat, bom, walk) && !LeadsBack(cat, bom, bom.produces) && i < |walk|
    ensures walk[i] != bom.produces
  {
    SubPath(cat, walk, 0, i);
    assert PathFromTo(cat, walk[0..i+1], walk[0], walk[i]);
  }

  lemma NeverTwice(cat: Catalogue, walk: seq<Item>, i: nat, j: nat)
    requires Acyclic(cat) && IsPath(cat, walk) && i < j < |walk|
    ensures walk[i] != walk[j]
  {
    SubPath(cat, walk, i, j);
    assert IsPath(cat, walk[i..j+1]);
  }

  /** A BOM that the cycle check accepts explodes without error, in either form and for every
      quantity, where the selection is acyclic and links each item to a BOM of its own. */
  lemma CheckedNeverRaises(p: Plan, bom: Bom, qty: real)
    requires Acyclic(p.cat) && WellFormed(p.cat) && BatchesPositive(p.cat) && bom.batch > 0.0
    requires !LeadsBack(p.cat, bom, bom.produces)
    ensures Explode(p, bom, qty, {}, 0).Ok?
  {
    hide Tidy, LeadsBack, Explode;
    CheckedIsTidy(p.cat, p.flat, bom);
    TidyNeverRaises(p, bom, qty);
  }

  lemma SelectedNeverRaises(p: Plan, item: Item, qty: real)
    requires Acyclic(p.cat) && WellFormed(p.cat) && BatchesPositive(p.cat) && item in p.cat
    ensures Explode(p, p.cat[item], qty, {}, 0).Ok?
  {
    hide Explode;
    forall c | c in Components(p.cat[item])
      ensures !Reach(p.cat, c, item)
    {
      NoWayBack(p.cat, item, c);
    }
    CheckedNeverRaises(p, p.cat[item], qty);
  }

  /** Over every run from the empty register whose events' guards hold and whose pointers stay
      with their own items, no selected BOM ever raises on explosion. */
  lemma GuardedRunNeverRaises(es: seq<Event>, item: Item, qty: real, flat: bool)
    requires Guarded(EMPTY, es) && OwnPointers(EMPTY, es) && forall e <- es :: PositiveBatch(e)
    requires item in Selection(Run(EMPTY, es))
    ensures var cat := Selection(Run(EMPTY, es));
      Explode(Plan(cat, Micro, flat), cat[item], qty, {}, 0).Ok?
  {
    hide Explode, View, Guarded, OwnPointers, Run;
    var s := Run(EMPTY, es);
    NothingSelected(EMPTY);
    EmptyIsAcyclic();
    RunAcyclicIff(EMPTY, es);
    RunLinked(EMPTY, es);
    RunPositive(EMPTY, es);
    forall i | i in Selection(s)
      ensures Selection(s)[i].batch > 0.0
    {
      ViewIsLookup(s, i, None);
    }
    SelectedNeverRaises(Plan(Selection(s), Micro, flat), item, qty);
  }

  // --- Closed cycles ---

  // A one-line recipe hands the quantity and any failure of its component through.
  lemma RecipeHandsThrough(p: Plan, item: Item, component: Item, ancestors: set<Item>, level: int)
    requires p.flat && component in p.cat && item !in ancestors
    requires Explode(p, p.cat[component], 1.0, ancestors + {item}, level + 1).Err?
    ensures Explode(p, Recipe(item, component), 1.0, ancestors, level)
         == Explode(p, p.cat[component], 1.0, ancestors + {item}, level + 1)
  {
    var bom := Recipe(item, component);
    assert 1.0 / bom.batch == 1.0;
    assert Scaled(1.0, 1.0) == 1.0;
    assert Need(p, bom.lines[0], 1.0) == 1.0;
    assert ExplodeLines(p, bom, 1.0, ancestors, level, 0) == Ok([]);
    assert ExplodeLine(p, bom, 1.0, ancestors, level, 0) == Explode(p, p.cat[component], 1.0, ancestors + {item}, level + 1);
    assert ExplodeLines(p, bom, 1.0, ancestors, level, 1).Err?;
  }

  lemma ComesRound(p: Plan, bom: Bom, qty: real, ancestors: set<Item>, level: int)
    requires qty > 0.0 && bom.batch > 0.0 && bom.produces in ancestors
    ensures Explode(p, bom, qty, ancestors, level) == Err(CycleFound)
  {
  }

  lemma LoopRaises(p: Plan)
    requires p.flat && "A" in p.cat && p.cat["A"] == A1 && "B" in p.cat && p.cat["B"] == B1
    ensures Explode(p, A1, 1.0, {}, 0) == Err(CycleFound)
  {
    hide Explode;
    ComesRound(p, A1, 1.0, {} + {"A"} + {"B"}, 2);
    RecipeHandsThrough(p, "B", "A", {} + {"A"}, 1);
    RecipeHandsThrough(p, "A", "B", {}, 0);
  }

  /** After the cancellation that closes a cycle, exploding A raises the cycle error. */
  lemma ClosedCycleRaises()
    ensures Explode(Plan(Selection(Run(EMPTY, LOOP)), Micro, true), A1, 1.0, {}, 0) == Err(CycleFound)
  {
    CancellingCanCloseACycle();
    AfterCancellation();
    LoopRaises(Plan(Selection(Run(EMPTY, LOOP)), Micro, true));
  }

  /** After the submission of a BOM that a component of it points at, exploding it raises the
      cycle error too, with the component opened as the good itself. */
  lemma StrayPointerRaises()
    ensures Explode(Plan(Selection(Run(EMPTY, STRAY)), Micro, true), A1, 1.0, {}, 0) == Err(CycleFound)
  {
    hide View;
    StrayPointerClosesACycle();
    var p := Plan(Selection(Run(EMPTY, STRAY)), Micro, true);
    hide Explode;
    ComesRound(p, A1, 1.0, {} + {"A"}, 1);
    RecipeHandsThrough(p, "A", "B", {}, 0);
  }
}
