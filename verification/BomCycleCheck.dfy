/** The worklist check that guards every new BOM. */
module BomCycleCheck {
  import opened BomCatalogue

  // The members of a set, in an arbitrary order.
  method ListOf(s: set<Item>) returns (xs: seq<Item>)
    ensures forall x :: x in xs <==> x in s
  {
    xs := [];
    var rest := s;
    while rest != {}
      invariant rest <= s
      invariant forall x :: x in xs <==> x in s - rest
    {
      var x :| x in rest;
      xs := xs + [x];
      rest := rest - {x};
    }
  }

  ghost function Mentioned(cat: Catalogue): set<Item> {
    set x, y | x in cat && y in Components(cat[x]) :: y
  }

  ghost predicate ReachedFrom(cat: Catalogue, starts: set<Item>, x: Item) {
    exists c <- starts :: Reach(cat, c, x)
  }

  method PushComponents(cat: Catalogue, item: Item, stack: seq<Item>, ghost starts: set<Item>)
    returns (pushed: seq<Item>)
    requires item in cat && ReachedFrom(cat, starts, item)
    requires forall x <- stack :: ReachedFrom(cat, starts, x)
    ensures stack <= pushed
    ensures forall x <- pushed :: x in stack || Uses(cat, item, x)
    ensures forall x <- Components(cat[item]) :: x in pushed
    ensures forall x <- pushed :: ReachedFrom(cat, starts, x)
  {
    var bom := cat[item];
    pushed := stack;
    for i := 0 to |bom.lines|
      invariant stack <= pushed
      invariant forall x <- pushed :: x in stack || Uses(cat, item, x)
      invariant forall k :: 0 <= k < i ==> bom.lines[k].item in pushed
      invariant forall x <- pushed :: ReachedFrom(cat, starts, x)
    {
      var row := bom.lines[i];
      assert Uses(cat, item, row.item);
      ghost var c :| c in starts && Reach(cat, c, item);
      ReachSnoc(cat, c, item, row.item);
      pushed := pushed + [row.item];
    }
  }

  // Everything still to be explored is on the stack, and nothing is there without reason.
  ghost predicate Explored(cat: Catalogue, starts: set<Item>, seen: set<Item>, stack: seq<Item>) {
    && (forall x <- starts :: x in seen || x in stack)
    && (forall x, y :: x in seen && Uses(cat, x, y) ==> y in seen || y in stack)
    && (forall x <- stack :: ReachedFrom(cat, starts, x))
  }

  lemma Pop(cat: Catalogue, starts: set<Item>, seen: set<Item>, stack: seq<Item>, stack': seq<Item>)
    requires stack != [] && Explored(cat, starts, seen, stack)
    requires stack[..|stack|-1] <= stack'
    requires forall x <- stack' :: ReachedFrom(cat, starts, x)
    requires var item := stack[|stack|-1];
      item in seen || forall y :: Uses(cat, item, y) ==> y in stack'
    ensures Explored(cat, starts, seen + {stack[|stack|-1]}, stack')
  {
    var item := stack[|stack|-1];
    forall x | x in stack && x != item
      ensures x in stack'
    {
      var i :| 0 <= i < |stack| && stack[i] == x;
      assert stack'[i] == x;
    }
  }

  lemma Begin(cat: Catalogue, starts: set<Item>, stack: seq<Item>)
    requires forall x :: x in stack <==> x in starts
    ensures Explored(cat, starts, {}, stack)
  {
    forall x | x in stack ensures ReachedFrom(cat, starts, x) { ReachRefl(cat, x); }
  }

  lemma OnStack(cat: Catalogue, starts: set<Item>, seen: set<Item>, stack: seq<Item>)
    requires Explored(cat, starts, seen, stack)
    ensures forall x <- stack :: ReachedFrom(cat, starts, x)
  {
  }

  // With nothing left to explore, whatever is reached has been seen.
  lemma Exhausted(cat: Catalogue, starts: set<Item>, seen: set<Item>, x: Item)
    requires Explored(cat, starts, seen, []) && x !in seen
    ensures !ReachedFrom(cat, starts, x)
  {
    if ReachedFrom(cat, starts, x) {
      var c :| c in starts && Reach(cat, c, x);
      var p :| PathFromTo(cat, p, c, x);
      ClosedUnderReach(cat, seen, p);
    }
  }

  /** Returns false where the source raises its cycle error. The catalogue is the view that
      looking up BOMs gives during the walk. */
  method AssertNoBomCycle(cat: Catalogue, production: Item, components: set<Item>) returns (ok: bool)
    ensures ok <==> !ReachedFrom(cat, components, production)
  {
    hide Explored, ReachedFrom, Reach;
    ghost var universe := components + Mentioned(cat);
    var stack := ListOf(components);
    var seen: set<Item> := {};
    Begin(cat, components, stack);
    while stack != []
      invariant seen <= universe && forall x <- stack :: x in universe
      invariant production !in seen
      invariant Explored(cat, components, seen, stack)
      decreases universe - seen, |stack|
    {
      var item := stack[|stack|-1];
      ghost var before := stack;
      OnStack(cat, components, seen, before);
      stack := stack[..|stack|-1];
      if item == production {
        return false;
      }
      if item in seen {
        Pop(cat, components, seen, before, stack);
        assert seen + {item} == seen;
        continue;
      }
      if item in cat {
        ghost var rest := stack;
        stack := PushComponents(cat, item, stack, components);
        assert forall x <- stack :: x in rest || x in Mentioned(cat);
      }
      Pop(cat, components, seen, before, stack);
      seen := seen + {item};
    }
    Exhausted(cat, components, seen, production);
    return true;
  }
}
