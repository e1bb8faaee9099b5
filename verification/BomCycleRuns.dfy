/** Two runs of accepted requests that close a cycle, though every submission passed the
    cycle check. */
module BomCycleRuns {
  import opened Prelude
  import opened BomCatalogue
  import opened BomRegister
  import opened BomSelection

  const EMPTY := Store([], map[])

  function Recipe(item: Item, component: Item): Bom {
    Bom(item, 1.0, false, 0.0, [Line(component, 1.0, None, false, 0.0, component)], [])
  }

  const A1 := Recipe("A", "B")
  const A2 := Recipe("A", "C")
  const B1 := Recipe("B", "A")

  // --- Cancelling ---

  // A is first made from B, then by default from C; B is made from A; cancelling the
  // default recipe of A brings the first one back, and A and B now contain each other.
  const LOOP: seq<Event> := [
    CreateBom(A1, false), SubmitBom(0), CreateBom(A2, true), SubmitBom(1),
    CreateBom(B1, true), SubmitBom(2), CancelBom(1, false)]

  lemma LeadsBackOnlyVia(cat: Catalogue, item: Item, component: Item)
    requires component != item
    requires component in cat ==> Components(cat[component]) !! cat.Keys + {item}
    ensures !LeadsBack(cat, Recipe(item, component), item)
  {
    if Reach(cat, component, item) {
      var p :| PathFromTo(cat, p, component, item);
      var s := {component} + if component in cat then Components(cat[component]) else {};
      ClosedUnderReach(cat, s, p);
    }
  }

  // The store after each of the first six events.
  function Stage(k: nat): Store
    requires k <= 6
  {
    var draftB := Doc(B1, if k < 6 then Draft else Submitted, true, true);
    var draftA2 := Doc(A2, if k < 4 then Draft else Submitted, true, true);
    var draftA1 := Doc(A1, if k < 2 then Draft else Submitted, true, false);
    if k == 0 then EMPTY
    else if k <= 2 then Store([draftA1], map[])
    else if k <= 4 then Store([draftA1, draftA2], map["A" := 1])
    else Store([draftA1, draftA2, draftB], map["A" := 1, "B" := 2])
  }

  lemma StageSelection(k: nat)
    requires k <= 6
    ensures Selection(Stage(k)) ==
      if k < 2 then map[] else if k < 4 then map["A" := A1]
      else if k < 6 then map["A" := A2] else map["A" := A2, "B" := B1]
  {
    hide Fallback, Items, View;
    var s := Stage(k);
    forall i
      ensures i in Selection(s) <==> (i == "A" && k >= 2) || (i == "B" && k == 6)
      ensures i in Selection(s) ==> Selection(s)[i] == if i == "B" then B1 else if k < 4 then A1 else A2
    {
      ViewIsLookup(s, i, None);
      StageFallback(k, i);
    }
  }

  lemma StageFallback(k: nat, item: Item)
    requires k <= 6
    ensures Fallback(Stage(k).docs, item, None, |Stage(k).docs|) ==
      if item == "A" && k >= 4 then Some(1) else if item == "A" && k >= 2 then Some(0)
      else if item == "B" && k == 6 then Some(2) else None
  {
    var docs := Stage(k).docs;
    assert Fallback(docs, item, None, 0) == None;
    assert k >= 1 ==> Fallback(docs, item, None, 1) == if item == "A" && k >= 2 then Some(0) else None;
    if k >= 3 {
      var one := Fallback(docs, item, None, 1);
      assert Fallback(docs, item, None, 2) == if item == "A" && k >= 4 then Some(1) else one;
    }
  }

  lemma NextStageCreated(k: nat)
    requires k in {0, 2, 4}
    ensures Creation(Stage(k), LOOP[k].bom, LOOP[k].isDefault) == Stage(k + 1)
  {
    var t := Creation(Stage(k), LOOP[k].bom, LOOP[k].isDefault);
    assert t.docs == Stage(k + 1).docs;
  }

  lemma NextStageSubmitted(k: nat)
    requires k in {1, 3, 5}
    ensures Submission(Stage(k), LOOP[k].id) == Stage(k + 1)
  {
    var t := Submission(Stage(k), LOOP[k].id);
    assert t.docs == Stage(k + 1).docs;
  }

  // In none of the stages before the last does the check find a way back.
  lemma StageAllows(k: nat)
    requires k < 6
    ensures !LeadsBack(Selection(Stage(k)), if k < 2 then A1 else if k < 4 then A2 else B1,
                       if k < 4 then "A" else "B")
  {
    hide Stage, Selection;
    StageSelection(k);
    if k < 2 {
      LeadsBackOnlyVia(Selection(Stage(k)), "A", "B");
    } else if k < 4 {
      LeadsBackOnlyVia(Selection(Stage(k)), "A", "C");
    } else {
      LeadsBackOnlyVia(Selection(Stage(k)), "B", "A");
    }
  }

  lemma NextStage(k: nat)
    requires k < 6
    ensures Step(Stage(k), LOOP[k]) == Stage(k + 1)
  {
    hide View, LeadsBack, Creation, Submission;
    StageAllows(k);
    if k % 2 == 0 {
      NextStageCreated(k);
    } else {
      DraftNotSelected(Stage(k), k / 2);
      NextStageSubmitted(k);
    }
  }

  lemma {:induction false} RunToStage(k: nat)
    requires k <= 6
    ensures Run(Stage(k), LOOP[k..]) == Step(Stage(6), LOOP[6])
    decreases 6 - k
  {
    assert LOOP[k..][0] == LOOP[k] && LOOP[k..][1..] == LOOP[k+1..];
    if k < 6 {
      NextStage(k);
      RunToStage(k + 1);
    }
  }

  function LoopLevel(item: Item): int {
    if item == "B" then 2 else if item == "A" then 1 else 0
  }

  lemma StageIsAcyclic()
    ensures Acyclic(Selection(Stage(6)))
  {
    var cat := Selection(Stage(6));
    StageSelection(6);
    forall p | IsPath(cat, p) && |p| >= 2
      ensures p[0] != p[|p|-1]
    {
      LevelsDrop(cat, LoopLevel, p);
    }
  }

  lemma AfterCancellation()
    ensures var t := Step(Stage(6), LOOP[6]);
      "A" in Selection(t) && Selection(t)["A"] == A1 && "B" in Selection(t) && Selection(t)["B"] == B1
  {
    var s := Stage(6);
    var t := Step(s, LOOP[6]);
    assert t.pointers == map["B" := 2];
    assert t.docs == [s.docs[0], Doc(A2, Cancelled, false, false), s.docs[2]];
    assert Fallback(t.docs, "A", None, 1) == Some(0);
    assert Fallback(t.docs, "A", None, 2) == Some(0);
    ViewIsLookup(t, "A", None);
    ViewIsLookup(t, "B", None);
  }

  /** All seven requests are accepted, the selection is acyclic before the cancellation, and
      it is cyclic afterwards. */
  lemma CancellingCanCloseACycle()
    ensures Run(EMPTY, LOOP) == Step(Stage(6), LOOP[6]) && Acyclic(Selection(Stage(6)))
    ensures CancelVerdict(Stage(6), 1, false).Ok?
    ensures !Acyclic(Selection(Run(EMPTY, LOOP)))
  {
    hide Selection, Run, Step, Acyclic, FindItemBom;
    StageIsAcyclic();
    RunToStage(0);
    assert LOOP[0..] == LOOP;
    AfterCancellation();
    MutualUse(Selection(Run(EMPTY, LOOP)));
  }

  lemma MutualUse(cat: Catalogue)
    requires "A" in cat && cat["A"] == A1 && "B" in cat && cat["B"] == B1
    ensures !Acyclic(cat)
  {
    assert "B" in Components(A1) by { assert A1.lines[0] in A1.lines; }
    assert "A" in Components(B1) by { assert B1.lines[0] in B1.lines; }
    assert Uses(cat, "A", "B") && Uses(cat, "B", "A");
    assert IsPath(cat, ["A", "B", "A"]);
  }

  // --- Pointing an item at a foreign BOM ---

  // A draft that makes A from B becomes the default of B by way of the item form, and is then
  // submitted: the check walks from B and asks for A only.
  const STRAY: seq<Event> := [CreateBom(A1, false), PointItem("B", Some(0)), SubmitBom(0)]

  const DRAFTED := Store([Doc(A1, Draft, true, false)], map["B" := 0])

  lemma NothingSelected(s: Store)
    requires forall k | 0 <= k < |s.docs| :: !Usable(s.docs[k])
    ensures Selection(s) == map[]
  {
    forall i
      ensures i !in Selection(s)
    {
      ViewIsLookup(s, i, None);
    }
  }

  lemma StrayDrafted()
    ensures Run(EMPTY, STRAY) == Step(DRAFTED, SubmitBom(0))
  {
    hide LeadsBack;
    NothingSelected(EMPTY);
    LeadsBackOnlyVia(map[], "A", "B");
    var one := Store([Doc(A1, Draft, true, false)], map[]);
    assert Step(EMPTY, STRAY[0]) == one;
    assert Step(one, STRAY[1]) == DRAFTED;
    assert STRAY[1..][0] == STRAY[1] && STRAY[1..][1..] == [STRAY[2]] && [STRAY[2]][1..] == [];
    assert Run(DRAFTED, [STRAY[2]]) == Step(DRAFTED, STRAY[2]);
  }

  /** All three requests are accepted and nothing is selected before the submission; after it,
      B uses a BOM that contains B. */
  lemma StrayPointerClosesACycle()
    ensures Run(EMPTY, STRAY) == Submission(DRAFTED, 0) && SubmitVerdict(DRAFTED, 0).Ok?
    ensures Acyclic(Selection(DRAFTED))
    ensures Selection(Submission(DRAFTED, 0)) == map["A" := A1, "B" := A1]
    ensures !Acyclic(Selection(Submission(DRAFTED, 0)))
  {
    hide LeadsBack, View;
    StrayDrafted();
    NothingSelected(DRAFTED);
    DraftNotSelected(DRAFTED, 0);
    LeadsBackOnlyVia(map[], "A", "B");
    var t := Submission(DRAFTED, 0);
    assert t.docs == [Doc(A1, Submitted, true, false)];
    assert Fallback(t.docs, "A", None, 1) == Some(0);
    forall i
      ensures i in Selection(t) <==> i in {"A", "B"}
      ensures i in Selection(t) ==> Selection(t)[i] == A1
    {
      ViewIsLookup(t, i, None);
    }
    assert "B" in Components(A1) by { assert A1.lines[0] in A1.lines; }
    assert Uses(Selection(t), "B", "B");
    assert IsPath(Selection(t), ["B", "B"]);
    EmptyIsAcyclic();
  }

  lemma EmptyIsAcyclic()
    ensures Acyclic(map[])
  {
    forall p | IsPath(map[], p) && |p| >= 2
      ensures p[0] != p[|p|-1]
    {
      LevelsDrop(map[], LoopLevel, p);
    }
  }
}
