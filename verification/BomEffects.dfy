/** What each request does to the stored documents and pointers, told from the request and the
    store alone, and what whole runs keep of it. */
module BomEffects {
  import opened Prelude
  import opened BomCatalogue
  import opened BomRegister
  import opened BomSelection

  // --- One request ---

  // A requested value replaces the former one; without a request the former one stays.
  predicate Replaced<T(==)>(requested: Option<T>, was: T, now: T) {
    if requested.Some? then now == requested.value else now == was
  }

  // No other document changes, except that a default clears the flags of the documents of its item.
  ghost predicate OthersStay(s: Store, t: Store, id: nat)
    requires id < |t.docs| && |s.docs| <= |t.docs|
  {
    forall k | 0 <= k < |s.docs| && k != id ::
      && t.docs[k].bom == s.docs[k].bom && t.docs[k].status == s.docs[k].status && t.docs[k].active == s.docs[k].active
      && t.docs[k].isDefault == (s.docs[k].isDefault
                                 && !(t.docs[id].isDefault && t.docs[id].bom.produces == s.docs[k].bom.produces))
  }

  // No other item's pointer changes, and the document's item points at it, no longer points at
  // it, or points where it did.
  datatype Link = ToDocument | NotToDocument | AsBefore

  ghost predicate Linked(s: Store, t: Store, id: nat, link: Link)
    requires id < |t.docs|
  {
    var item := t.docs[id].bom.produces;
    && (forall i | i != item :: (i in t.pointers <==> i in s.pointers) && (i in t.pointers ==> t.pointers[i] == s.pointers[i]))
    && match link
       case ToDocument => item in t.pointers && t.pointers[item] == id
       case NotToDocument =>
         item in t.pointers <==> item in s.pointers && s.pointers[item] != id
       case AsBefore =>
         (item in t.pointers <==> item in s.pointers) && (item in t.pointers ==> t.pointers[item] == s.pointers[item])
  }

  /** Creating stores a draft of the requested BOM; a default one clears the other flags of its
      item and the item points at it, draft or not. */
  lemma CreationEffect(s: Store, bom: Bom, isDefault: bool)
    ensures var t, id := Creation(s, bom, isDefault), |s.docs|;
      && |t.docs| == |s.docs| + 1
      && t.docs[id] == Doc(bom, Draft, true, isDefault)
      && OthersStay(s, t, id)
      && Linked(s, t, id, if isDefault then ToDocument else AsBefore)
  {
  }

  /** An edit replaces exactly the requested parts of the draft. */
  lemma EditionEffect(s: Store, id: nat, c: Changes)
    requires id < |s.docs|
    ensures var t := Edition(s, id, c);
      && |t.docs| == |s.docs|
      && var was, now := s.docs[id], t.docs[id];
      && Replaced(c.lines, was.bom.lines, now.bom.lines) && Replaced(c.scrap, was.bom.scrap, now.bom.scrap)
      && Replaced(c.batch, was.bom.batch, now.bom.batch) && Replaced(c.phantom, was.bom.phantom, now.bom.phantom)
      && Replaced(c.isDefault, was.isDefault, now.isDefault)
      && now.bom.totalCost == c.totalCost && now.bom.produces == was.bom.produces
      && now.status == was.status && now.active == was.active
      && OthersStay(s, t, id)
      && Linked(s, t, id, if now.isDefault then ToDocument else AsBefore)
  {
  }

  lemma SubmissionEffect(s: Store, id: nat)
    requires id < |s.docs|
    ensures var t := Submission(s, id);
      && |t.docs| == |s.docs|
      && t.docs[id] == s.docs[id].(status := Submitted, active := true)
      && OthersStay(s, t, id)
      && Linked(s, t, id, if s.docs[id].isDefault then ToDocument else NotToDocument)
  {
  }

  lemma CancellationEffect(s: Store, id: nat)
    requires id < |s.docs|
    ensures var t := Cancellation(s, id);
      && |t.docs| == |s.docs|
      && t.docs[id] == s.docs[id].(status := Cancelled, active := false, isDefault := false)
      && OthersStay(s, t, id) && Linked(s, t, id, NotToDocument)
  {
  }

  // An active default is pointed at again; in all other cases a pointer to the document goes.
  lemma ActivationEffect(s: Store, id: nat, active: bool)
    requires id < |s.docs| && s.docs[id].status == Submitted
    ensures var t, was := Activation(s, id, active), s.docs[id];
      && t.docs == s.docs[id := was.(active := active, isDefault := active && was.isDefault)]
      && Linked(s, t, id, if active && was.isDefault then ToDocument else NotToDocument)
  {
  }

  lemma PointingEffect(s: Store, item: Item, to: Option<nat>)
    ensures var t := Pointing(s, item, to);
      && t.docs == s.docs
      && (forall i | i != item :: (i in t.pointers <==> i in s.pointers) && (i in t.pointers ==> t.pointers[i] == s.pointers[i]))
      && (if to.Some? then item in t.pointers && t.pointers[item] == to.value else item !in t.pointers)
  {
  }

  // --- When a request is refused ---

  // A line of the BOM leads back to the item.
  ghost predicate LinesLeadBack(cat: Catalogue, lines: seq<Line>, item: Item) {
    exists l <- lines :: Reach(cat, l.item, item)
  }

  lemma LeadsBackByLines(cat: Catalogue, bom: Bom, item: Item)
    ensures LeadsBack(cat, bom, item) <==> LinesLeadBack(cat, bom.lines, item)
  {
    if LeadsBack(cat, bom, item) {
      var c :| c in Components(bom) && Reach(cat, c, item);
      var l :| l in bom.lines && l.item == c;
    }
    if l :| l in bom.lines && Reach(cat, l.item, item) {
      assert l.item in Components(bom);
    }
  }

  /** An edit is refused for a cycle exactly when it names component lines and one of those, walked
      from without the document, leads back to what the document makes. */
  lemma EditRefusals(s: Store, id: nat, c: Changes)
    ensures EditVerdict(s, id, c) == Err(NotFound) <==> id >= |s.docs|
    ensures EditVerdict(s, id, c) == Err(WrongStatus) <==> id < |s.docs| && s.docs[id].status != Draft
    ensures EditVerdict(s, id, c) == Err(Cycle) <==>
      id < |s.docs| && s.docs[id].status == Draft && c.lines.Some?
      && LinesLeadBack(View(s, Some(id)), c.lines.value, s.docs[id].bom.produces)
    ensures EditVerdict(s, id, c).Err? ==> EditVerdict(s, id, c).error in {NotFound, WrongStatus, Cycle}
  {
    if id < |s.docs| && c.lines.Some? {
      LeadsBackByLines(View(s, Some(id)), s.docs[id].bom.(lines := c.lines.value), s.docs[id].bom.produces);
      LeadsBackByLines(View(s, Some(id)), Revised(s.docs[id], c).bom, s.docs[id].bom.produces);
    }
    hide LinesLeadBack, LeadsBack, View;
  }

  lemma OtherRefusals(s: Store, id: nat, inUse: bool, to: Option<nat>)
    ensures var r := SubmitVerdict(s, id);
      && (r == Err(NotFound) <==> id >= |s.docs|)
      && (r == Err(WrongStatus) <==> id < |s.docs| && s.docs[id].status != Draft)
      && (r == Err(NoComponents) <==> id < |s.docs| && s.docs[id].status == Draft && s.docs[id].bom.lines == [])
      && (r == Err(Cycle) <==>
            id < |s.docs| && s.docs[id].status == Draft
            && LinesLeadBack(View(s, Some(id)), s.docs[id].bom.lines, s.docs[id].bom.produces))
      && r != Err(InUse)
    ensures var r := CancelVerdict(s, id, inUse);
      && (r == Err(NotFound) <==> id >= |s.docs|)
      && (r == Err(WrongStatus) <==> id < |s.docs| && s.docs[id].status != Submitted)
      && (r == Err(InUse) <==> id < |s.docs| && s.docs[id].status == Submitted && inUse)
      && r != Err(NoComponents) && r != Err(Cycle)
    ensures PointVerdict(s, to) == if to.Some? && to.value >= |s.docs| then Err(NotFound) else Ok(())
  {
    if id < |s.docs| {
      LeadsBackByLines(View(s, Some(id)), s.docs[id].bom, s.docs[id].bom.produces);
    }
    hide LeadsBack, View;
  }

  // --- Whole runs ---

  // A document keeps its BOM in every run that does not edit it.
  ghost predicate Unedited(es: seq<Event>, id: nat) {
    forall e <- es :: !(e.EditBom? && e.id == id)
  }

  lemma StepKeepsBom(s: Store, e: Event, id: nat)
    requires id < |s.docs| && !(e.EditBom? && e.id == id)
    ensures var t := Step(s, e); |s.docs| <= |t.docs| && t.docs[id].bom == s.docs[id].bom
  {
    hide View, LeadsBack;
  }

  lemma {:induction false} RunKeepsBom(s: Store, es: seq<Event>, id: nat)
    requires id < |s.docs| && Unedited(es, id)
    ensures var t := Run(s, es); |s.docs| <= |t.docs| && t.docs[id].bom == s.docs[id].bom
    decreases |es|
  {
    hide Step;
    if es != [] {
      StepKeepsBom(s, es[0], id);
      assert forall e <- es[1..] :: e in es;
      RunKeepsBom(Step(s, es[0]), es[1..], id);
    }
  }

  // Once an accepted default is submitted, its item uses it.
  lemma SubmittedDefaultIsUsed(s: Store, id: nat)
    requires SubmitVerdict(s, id).Ok? && s.docs[id].isDefault
    ensures var t, item := Step(s, SubmitBom(id)), s.docs[id].bom.produces;
      item in Selection(t) && Selection(t)[item] == s.docs[id].bom
  {
    hide View, LeadsBack, FindItemBom, IsBest;
    var e, item := SubmitBom(id), s.docs[id].bom.produces;
    assert Accepted(s, e) && Successor(s, e, item) == Some(id);
    SuccessorIsNext(s, e, item);
    ViewIsLookup(Step(s, e), item, None);
  }

  /** An accepted edit, any run that does not edit the draft again, and an accepted submission of the
      draft as a default: the item then uses the BOM with the requested lines, scrap, batch and flag,
      and with the former ones where nothing was requested. */
  lemma EditIsUsed(s: Store, id: nat, c: Changes, es: seq<Event>)
    requires EditVerdict(s, id, c).Ok? && Unedited(es, id)
    requires var u := Run(Step(s, EditBom(id, c)), es);
      SubmitVerdict(u, id).Ok? && u.docs[id].isDefault
    ensures var was, t := s.docs[id].bom, Step(Run(Step(s, EditBom(id, c)), es), SubmitBom(id));
      && was.produces in Selection(t)
      && var now := Selection(t)[was.produces];
      && now.produces == was.produces
      && Replaced(c.lines, was.lines, now.lines) && Replaced(c.scrap, was.scrap, now.scrap)
      && Replaced(c.batch, was.batch, now.batch) && Replaced(c.phantom, was.phantom, now.phantom)
  {
    var u := Step(s, EditBom(id, c));
    assert u == Edition(s, id, c);
    hide *;
    EditionEffect(s, id, c);
    RunKeepsBom(u, es, id);
    SubmittedDefaultIsUsed(Run(u, es), id);
  }

  /** The same for a creation: the item comes to use the BOM that was requested. */
  lemma CreationIsUsed(s: Store, bom: Bom, isDefault: bool, es: seq<Event>)
    requires !LinesLeadBack(Selection(s), bom.lines, bom.produces) && Unedited(es, |s.docs|)
    requires var u := Run(Step(s, CreateBom(bom, isDefault)), es);
      SubmitVerdict(u, |s.docs|).Ok? && u.docs[|s.docs|].isDefault
    ensures var t := Step(Run(Step(s, CreateBom(bom, isDefault)), es), SubmitBom(|s.docs|));
      bom.produces in Selection(t) && Selection(t)[bom.produces] == bom
  {
    LeadsBackByLines(Selection(s), bom, bom.produces);
    var u := Step(s, CreateBom(bom, isDefault));
    assert u == Creation(s, bom, isDefault);
    hide *;
    CreationEffect(s, bom, isDefault);
    RunKeepsBom(u, es, |s.docs|);
    SubmittedDefaultIsUsed(Run(u, es), |s.docs|);
  }

  // --- What every store keeps ---

  // At most one default per item; a default is active and not cancelled, a draft is active, and
  // a cancelled document is not.
  ghost predicate Orderly(s: Store) {
    && (forall j, k | 0 <= j < k < |s.docs| && s.docs[j].isDefault && s.docs[k].isDefault ::
          s.docs[j].bom.produces != s.docs[k].bom.produces)
    && (forall k | 0 <= k < |s.docs| ::
          && (s.docs[k].isDefault ==> s.docs[k].active)
          && (s.docs[k].status == Draft ==> s.docs[k].active)
          && (s.docs[k].status == Cancelled ==> !s.docs[k].active && !s.docs[k].isDefault))
  }

  // A document changed to a sound one, and the others cleared if it is a default.
  lemma ChangeOrderly(s: Store, t: Store, id: nat)
    requires Orderly(s) && id < |t.docs| && (|t.docs| == |s.docs| || (|t.docs| == |s.docs| + 1 && id == |s.docs|))
    requires OthersStay(s, t, id)
    requires var doc := t.docs[id];
      && (doc.isDefault ==> doc.active) && (doc.status == Draft ==> doc.active)
      && (doc.status == Cancelled ==> !doc.active && !doc.isDefault)
    ensures Orderly(t)
  {
  }

  lemma StepOrderly(s: Store, e: Event)
    requires Orderly(s)
    ensures Orderly(Step(s, e))
  {
    hide Orderly, OthersStay, Linked, View, LeadsBack;
    if Accepted(s, e) {
      hide Creation, Edition, Submission, Cancellation, Activation, Pointing;
      match e
      case CreateBom(bom, isDefault) =>
        CreationEffect(s, bom, isDefault);
        ChangeOrderly(s, Creation(s, bom, isDefault), |s.docs|);
      case EditBom(id, c) =>
        EditionEffect(s, id, c);
        OrderlyAt(s, id);
        ChangeOrderly(s, Edition(s, id, c), id);
      case SubmitBom(id) =>
        SubmissionEffect(s, id);
        ChangeOrderly(s, Submission(s, id), id);
      case CancelBom(id, _) =>
        CancellationEffect(s, id);
        ChangeOrderly(s, Cancellation(s, id), id);
      case SetActiveBom(id, active) =>
        ActivationEffect(s, id, active);
        ActivationOthers(s, Activation(s, id, active), id);
        ChangeOrderly(s, Activation(s, id, active), id);
      case PointItem(item, to) =>
        PointingEffect(s, item, to);
        SameDocs(s, Pointing(s, item, to));
    }
  }

  // Activating clears no flags; there is none to clear.
  lemma ActivationOthers(s: Store, t: Store, id: nat)
    requires Orderly(s) && id < |s.docs|
    requires |t.docs| == |s.docs| && t.docs == s.docs[id := t.docs[id]]
    requires t.docs[id].bom == s.docs[id].bom && (t.docs[id].isDefault ==> s.docs[id].isDefault)
    ensures OthersStay(s, t, id)
  {
  }

  lemma OrderlyAt(s: Store, id: nat)
    requires Orderly(s) && id < |s.docs|
    ensures s.docs[id].status == Draft ==> s.docs[id].active
  {
  }

  lemma SameDocs(s: Store, t: Store)
    requires Orderly(s) && t.docs == s.docs
    ensures Orderly(t)
  {
  }

  /** Over every run, however it mixes the requests and whatever is refused: at most one default
      per item, defaults active, drafts active, cancelled documents inactive and no defaults. */
  lemma {:induction false} RunOrderly(s: Store, es: seq<Event>)
    requires Orderly(s)
    ensures Orderly(Run(s, es))
    decreases |es|
  {
    hide Step, Orderly;
    if es != [] {
      StepOrderly(s, es[0]);
      RunOrderly(Step(s, es[0]), es[1..]);
    }
  }
}
