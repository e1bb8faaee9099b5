/** What each operation on the BOM register does to the selection, predicted before it takes
    place, and the runs that keep the selection free of cycles. */
module BomSelection {
  import opened Prelude
  import opened BomCatalogue
  import opened BomRegister

  datatype Event =
    | CreateBom(bom: Bom, isDefault: bool)
    | EditBom(id: nat, changes: Changes)
    | SubmitBom(id: nat)
    | CancelBom(id: nat, inUse: bool)
    | SetActiveBom(id: nat, active: bool)
    | PointItem(item: Item, to: Option<nat>)

  ghost predicate Accepted(s: Store, e: Event) {
    match e
    case CreateBom(bom, _) => !LeadsBack(Selection(s), bom, bom.produces)
    case EditBom(id, c) => EditVerdict(s, id, c).Ok?
    case SubmitBom(id) => SubmitVerdict(s, id).Ok?
    case CancelBom(id, inUse) => CancelVerdict(s, id, inUse).Ok?
    case SetActiveBom(id, _) => CancelVerdict(s, id, false).Ok?
    case PointItem(_, to) => PointVerdict(s, to).Ok?
  }

  ghost function Step(s: Store, e: Event): Store {
    if !Accepted(s, e) then s
    else match e
      case CreateBom(bom, isDefault) => Creation(s, bom, isDefault)
      case EditBom(id, c) => Edition(s, id, c)
      case SubmitBom(id) => Submission(s, id)
      case CancelBom(id, _) => Cancellation(s, id)
      case SetActiveBom(id, active) => Activation(s, id, active)
      case PointItem(item, to) => Pointing(s, item, to)
  }

  // The item whose documents or pointer the event names.
  function Subject(s: Store, e: Event): Item {
    match e
    case CreateBom(bom, _) => bom.produces
    case EditBom(id, _) => if id < |s.docs| then s.docs[id].bom.produces else ""
    case SubmitBom(id) => if id < |s.docs| then s.docs[id].bom.produces else ""
    case CancelBom(id, _) => if id < |s.docs| then s.docs[id].bom.produces else ""
    case SetActiveBom(id, _) => if id < |s.docs| then s.docs[id].bom.produces else ""
    case PointItem(item, _) => item
  }

  // --- Predicting the BOM that an item will use ---

  // The newest usable document of the item, default or not.
  function Newest(docs: seq<Doc>, item: Item, n: nat): (r: Option<nat>)
    requires n <= |docs|
    ensures r.Some? ==> r.value < n
  {
    if n == 0 then None
    else if Candidate(docs[n-1], n - 1, item, None) then Some(n - 1) else Newest(docs, item, n - 1)
  }

  // The best of the others against one more document that is not a default.
  function OneMore(docs: seq<Doc>, id: nat, best: Option<nat>): Option<nat>
    requires best.Some? ==> best.value < |docs|
  {
    if best.None? || (!docs[best.value].isDefault && best.value < id) then Some(id) else best
  }

  // What the item uses once the document is submitted and active.
  function OnceUsable(s: Store, id: nat, item: Item): (r: Option<nat>)
    requires id < |s.docs|
    ensures r.Some? ==> r.value < |s.docs|
  {
    if s.docs[id].bom.produces == item then
      if s.docs[id].isDefault then Some(id)
      else if Pointed(s, item, Some(id)) then Some(s.pointers[item])
      else OneMore(s.docs, id, Fallback(s.docs, item, Some(id), |s.docs|))
    else if item in s.pointers && s.pointers[item] == id then Some(id)
    else FindItemBom(s, item, None)
  }

  // The document that the item will use after the event, told from the store before it.
  ghost function Successor(s: Store, e: Event, item: Item): (r: Option<nat>)
    ensures r.Some? ==> r.value < |s.docs|
  {
    if !Accepted(s, e) then FindItemBom(s, item, None)
    else match e
      case CreateBom(bom, isDefault) =>
        if isDefault && item == bom.produces then Newest(s.docs, item, |s.docs|) else FindItemBom(s, item, None)
      case EditBom(id, c) =>
        if Revised(s.docs[id], c).isDefault && item == s.docs[id].bom.produces
        then Newest(s.docs, item, |s.docs|) else FindItemBom(s, item, None)
      case SubmitBom(id) => OnceUsable(s, id, item)
      case CancelBom(id, _) => FindItemBom(s, item, Some(id))
      case SetActiveBom(id, active) =>
        if active then OnceUsable(s, id, item) else FindItemBom(s, item, Some(id))
      case PointItem(i, to) =>
        if i != item then FindItemBom(s, item, None)
        else if to.Some? && Usable(s.docs[to.value]) then to
        else Fallback(s.docs, item, None, |s.docs|)
  }

  // --- The prediction is right ---

  // A change to one document that is not a candidate before or after.
  lemma {:induction false} FallbackUntouched(docs: seq<Doc>, docs': seq<Doc>, id: nat, item: Item, n: nat)
    requires id < |docs| == |docs'| && docs' == docs[id := docs'[id]] && n <= |docs|
    requires !Candidate(docs[id], id, item, None) && !Candidate(docs'[id], id, item, None)
    ensures Fallback(docs', item, None, n) == Fallback(docs, item, None, n)
  {
    if n > 0 {
      FallbackUntouched(docs, docs', id, item, n - 1);
    }
  }

  // A document that stops being usable is as good as excluded.
  lemma {:induction false} FallbackWithout(docs: seq<Doc>, docs': seq<Doc>, id: nat, item: Item, n: nat)
    requires id < |docs| == |docs'| && docs' == docs[id := docs'[id]] && n <= |docs|
    requires !Candidate(docs'[id], id, item, None)
    ensures Fallback(docs', item, None, n) == Fallback(docs, item, Some(id), n)
  {
    if n > 0 {
      FallbackWithout(docs, docs', id, item, n - 1);
    }
  }

  lemma {:induction false} FallbackWith(docs: seq<Doc>, docs': seq<Doc>, id: nat, item: Item, n: nat)
    requires id < |docs| == |docs'| && docs' == docs[id := docs'[id]] && n <= |docs|
    requires Candidate(docs'[id], id, item, None) && !docs'[id].isDefault
    ensures Fallback(docs', item, None, n) ==
      var best := Fallback(docs, item, Some(id), n); if n <= id then best else OneMore(docs, id, best)
  {
    if n > 0 {
      FallbackWith(docs, docs', id, item, n - 1);
    }
  }

  // Clearing the default flags of an item leaves its documents to be ranked by age.
  lemma {:induction false} FallbackCleared(docs: seq<Doc>, item: Item, keep: nat, n: nat)
    requires n <= |docs| && (keep < |docs| ==> !Candidate(docs[keep], keep, item, None))
    ensures Fallback(ClearedDefaults(docs, item, keep, |docs|), item, None, n) == Newest(docs, item, n)
  {
    if n > 0 {
      FallbackCleared(docs, item, keep, n - 1);
    }
  }

  lemma {:induction false} FallbackOtherCleared(docs: seq<Doc>, item: Item, keep: nat, other: Item, n: nat)
    requires n <= |docs| && other != item
    ensures Fallback(ClearedDefaults(docs, item, keep, |docs|), other, None, n) == Fallback(docs, other, None, n)
  {
    if n > 0 {
      FallbackOtherCleared(docs, item, keep, other, n - 1);
    }
  }

  lemma {:induction false} FallbackPrefix(docs: seq<Doc>, docs': seq<Doc>, item: Item, n: nat)
    requires n <= |docs| && docs <= docs'
    ensures Fallback(docs', item, None, n) == Fallback(docs, item, None, n)
    ensures Newest(docs', item, n) == Newest(docs, item, n)
  {
    if n > 0 {
      FallbackPrefix(docs, docs', item, n - 1);
    }
  }

  lemma {:induction false} NewestUntouched(docs: seq<Doc>, docs': seq<Doc>, id: nat, item: Item, n: nat)
    requires id < |docs| == |docs'| && docs' == docs[id := docs'[id]] && n <= |docs|
    requires !Candidate(docs[id], id, item, None) && !Candidate(docs'[id], id, item, None)
    ensures Newest(docs', item, n) == Newest(docs, item, n)
  {
    if n > 0 {
      NewestUntouched(docs, docs', id, item, n - 1);
    }
  }

  // Which document the default flag of an unusable document leaves to its item.
  lemma MadeDefaultLookup(s: Store, id: nat, item: Item)
    requires id < |s.docs| && !Usable(s.docs[id])
    ensures FindItemBom(MadeDefault(s, id), item, None) ==
      if item == s.docs[id].bom.produces then Newest(s.docs, item, |s.docs|) else FindItemBom(s, item, None)
  {
    hide IsBest, Fallback, Newest;
    var made := s.docs[id].bom.produces;
    if item == made {
      FallbackCleared(s.docs, item, id, |s.docs|);
    } else {
      FallbackOtherCleared(s.docs, made, id, item, |s.docs|);
    }
  }

  lemma CreationLookup(s: Store, bom: Bom, isDefault: bool, item: Item)
    ensures FindItemBom(Creation(s, bom, isDefault), item, None) ==
      if isDefault && item == bom.produces then Newest(s.docs, item, |s.docs|) else FindItemBom(s, item, None)
  {
    hide IsBest, MadeDefault;
    var t := s.(docs := s.docs + [Doc(bom, Draft, true, isDefault)]);
    FallbackPrefix(s.docs, t.docs, item, |s.docs|);
    assert FindItemBom(t, item, None) == FindItemBom(s, item, None);
    if isDefault {
      MadeDefaultLookup(t, |s.docs|, item);
    }
  }

  lemma EditionLookup(s: Store, id: nat, c: Changes, item: Item)
    requires id < |s.docs| && s.docs[id].status == Draft
    ensures FindItemBom(Edition(s, id, c), item, None) ==
      if Revised(s.docs[id], c).isDefault && item == s.docs[id].bom.produces
      then Newest(s.docs, item, |s.docs|) else FindItemBom(s, item, None)
  {
    hide IsBest, MadeDefault, Newest, Fallback, Revised;
    var t := WithDoc(s, id, Revised(s.docs[id], c));
    FallbackUntouched(s.docs, t.docs, id, item, |s.docs|);
    NewestUntouched(s.docs, t.docs, id, item, |s.docs|);
    assert FindItemBom(t, item, None) == FindItemBom(s, item, None);
    if t.docs[id].isDefault {
      MadeDefaultLookup(t, id, item);
    }
  }

  // Cancelling and deactivating.
  lemma UnusableLookup(s: Store, id: nat, doc: Doc, item: Item)
    requires id < |s.docs| && !Usable(doc) && !doc.isDefault && doc.bom == s.docs[id].bom
    ensures FindItemBom(Synced(WithDoc(s, id, doc), id), item, None) == FindItemBom(s, item, Some(id))
  {
    hide IsBest, Fallback;
    FallbackWithout(s.docs, s.docs[id := doc], id, item, |s.docs|);
  }

  // Submitting and activating.
  lemma UsableLookup(s: Store, id: nat, item: Item)
    requires id < |s.docs|
    ensures var t := WithDoc(s, id, s.docs[id].(status := Submitted, active := true));
      FindItemBom(Synced(t, id), item, None) == OnceUsable(s, id, item)
  {
    hide IsBest, Fallback;
    var doc := s.docs[id].(status := Submitted, active := true);
    if doc.bom.produces == item {
      if !doc.isDefault {
        FallbackWith(s.docs, s.docs[id := doc], id, item, |s.docs|);
      }
    } else {
      FallbackUntouched(s.docs, s.docs[id := doc], id, item, |s.docs|);
    }
  }

  // Submitting a default document also clears the other flags, to no further effect.
  lemma SubmissionLookup(s: Store, id: nat, item: Item)
    requires id < |s.docs|
    ensures FindItemBom(Submission(s, id), item, None) == OnceUsable(s, id, item)
  {
    hide IsBest, Fallback;
    UsableLookup(s, id, item);
    if s.docs[id].isDefault {
      var t := WithDoc(s, id, s.docs[id].(status := Submitted, active := true));
      if item != s.docs[id].bom.produces {
        FallbackOtherCleared(t.docs, s.docs[id].bom.produces, id, item, |s.docs|);
      }
    }
  }

  lemma PointingLookup(s: Store, i: Item, to: Option<nat>, item: Item)
    requires to.Some? ==> to.value < |s.docs|
    ensures FindItemBom(Pointing(s, i, to), item, None) ==
      if i != item then FindItemBom(s, item, None)
      else if to.Some? && Usable(s.docs[to.value]) then to
      else Fallback(s.docs, item, None, |s.docs|)
  {
  }

  // No request changes the BOM of a usable document.
  lemma SuccessorKeepsBom(s: Store, e: Event, item: Item)
    ensures var t, r := Step(s, e), FindItemBom(Step(s, e), item, None);
      r.Some? && r.value < |s.docs| ==> t.docs[r.value].bom == s.docs[r.value].bom
  {
    hide Fallback, LeadsBack, View, Revised, IsBest;
  }

  /** The document that any item uses after any request is the one told from the store before
      it, and its BOM is the one stored then. */
  lemma SuccessorIsNext(s: Store, e: Event, item: Item)
    ensures var t := Step(s, e);
      var r := Successor(s, e, item);
      && FindItemBom(t, item, None) == r
      && (r.Some? ==> r.value < |t.docs| && t.docs[r.value].bom == s.docs[r.value].bom)
  {
    hide FindItemBom, OnceUsable, Newest, Fallback, Revised, LeadsBack, View;
    SuccessorKeepsBom(s, e, item);
    SuccessorLookup(s, e, item);
  }

  lemma SuccessorLookup(s: Store, e: Event, item: Item)
    ensures FindItemBom(Step(s, e), item, None) == Successor(s, e, item)
  {
    hide FindItemBom, OnceUsable, Newest, Fallback, Revised, LeadsBack, View, MadeDefault, Synced, WithDoc;
    match e
    case CreateBom(bom, isDefault) => CreationLookup(s, bom, isDefault, item);
    case EditBom(id, c) =>
      if Accepted(s, e) {
        EditionLookup(s, id, c, item);
      }
    case SubmitBom(id) =>
      if Accepted(s, e) {
        SubmissionLookup(s, id, item);
      }
    case CancelBom(id, _) =>
      if Accepted(s, e) {
        UnusableLookup(s, id, s.docs[id].(status := Cancelled, active := false, isDefault := false), item);
      }
    case SetActiveBom(id, active) =>
      if Accepted(s, e) {
        if active {
          UsableLookup(s, id, item);
          assert s.docs[id].(active := true) == s.docs[id].(status := Submitted, active := true);
        } else {
          UnusableLookup(s, id, s.docs[id].(active := false, isDefault := false), item);
        }
      }
    case PointItem(i, to) =>
      if Accepted(s, e) {
        PointingLookup(s, i, to, item);
      }
  }

  // The selection that the event will leave behind.
  ghost function Forecast(s: Store, e: Event): Catalogue {
    map i | i in Items(s) + {Subject(s, e)} && Successor(s, e, i).Some? :: s.docs[Successor(s, e, i).value].bom
  }

  lemma ForecastIsLookup(s: Store, e: Event, item: Item)
    ensures item in Forecast(s, e) <==> Successor(s, e, item).Some?
    ensures item in Forecast(s, e) ==> Forecast(s, e)[item] == s.docs[Successor(s, e, item).value].bom
  {
    hide Newest, Fallback, Revised, View, LeadsBack, Items, IsBest, FindItemBom;
    if item !in Items(s) + {Subject(s, e)} {
      Stranger(s, item, None);
      NoDocuments(s, item, |s.docs|);
      if e.CancelBom? || e.SetActiveBom? {
        Stranger(s, item, Some(e.id));
      }
    }
  }

  lemma NoDocuments(s: Store, item: Item, n: nat)
    requires item !in Items(s) && n <= |s.docs|
    ensures Newest(s.docs, item, n) == None && item !in s.pointers
    ensures forall k | 0 <= k < |s.docs| :: s.docs[k].bom.produces != item
  {
    forall k | 0 <= k < |s.docs| ensures s.docs[k].bom.produces != item { assert s.docs[k] in s.docs; }
    if n > 0 {
      NoDocuments(s, item, n - 1);
    }
  }

  // An item without documents and without a pointer has no BOM.
  lemma Stranger(s: Store, item: Item, exclude: Option<nat>)
    requires item !in Items(s)
    ensures FindItemBom(s, item, exclude) == None
  {
    ViewIsLookup(s, item, exclude);
  }

  lemma ForecastComesTrue(s: Store, e: Event)
    ensures Selection(Step(s, e)) == Forecast(s, e)
  {
    hide FindItemBom, Successor, Step, Forecast, View;
    var t := Step(s, e);
    forall i
      ensures i in Selection(t) <==> i in Forecast(s, e)
      ensures i in Selection(t) ==> Selection(t)[i] == Forecast(s, e)[i]
    {
      SuccessorIsNext(s, e, i);
      ViewIsLookup(t, i, None);
      ForecastIsLookup(s, e, i);
    }
  }

  // --- Which events keep the selection acyclic ---

  // The items that the event gives another document, or none.
  ghost function Movers(s: Store, e: Event): set<Item> {
    set i | i in Items(s) + {Subject(s, e)} && Successor(s, e, i) != FindItemBom(s, i, None)
  }

  lemma OthersStay(s: Store, e: Event)
    ensures Forecast(s, e) - Movers(s, e) == Selection(s) - Movers(s, e)
  {
    hide FindItemBom, Successor, View, Forecast;
    forall i | i !in Movers(s, e)
      ensures i in Selection(s) <==> i in Forecast(s, e)
      ensures i in Selection(s) ==> Selection(s)[i] == Forecast(s, e)[i]
    {
      ForecastIsLookup(s, e, i);
      ViewIsLookup(s, i, None);
      if i !in Items(s) + {Subject(s, e)} {
        OutsideItems(s, e, i);
      }
    }
  }

  lemma OutsideItems(s: Store, e: Event, item: Item)
    requires item !in Items(s) + {Subject(s, e)}
    ensures item !in Forecast(s, e) && item !in Selection(s)
  {
  }

  // The cycle check run in advance: for every item that gets another BOM, no component of
  // that BOM leads back to it in the selection that the event would leave.
  ghost predicate Guard(s: Store, e: Event) {
    forall i <- Movers(s, e) :: i in Forecast(s, e) ==> !LeadsBack(Forecast(s, e), Forecast(s, e)[i], i)
  }

  /** One request keeps an acyclic selection acyclic if and only if its guard holds, in every
      store, wherever the pointers lead. */
  lemma StepAcyclicIff(s: Store, e: Event)
    requires Acyclic(Selection(s))
    ensures Acyclic(Selection(Step(s, e))) <==> Guard(s, e)
  {
    hide FindItemBom, Successor, Step, View, Forecast, Movers;
    ForecastComesTrue(s, e);
    OthersStay(s, e);
    ChangeAcyclicIff(Selection(s), Forecast(s, e), Movers(s, e));
  }

  // Where only one item moves, a walk through the present selection decides.
  lemma SoleMoverGuard(s: Store, e: Event, item: Item)
    requires Acyclic(Selection(s)) && Movers(s, e) <= {item}
    ensures Guard(s, e) <==>
      (Successor(s, e, item).Some? ==> !LeadsBack(Selection(s), s.docs[Successor(s, e, item).value].bom, item))
  {
    hide FindItemBom, Successor, Step, View, Forecast, Movers;
    OthersStay(s, e);
    var f := Forecast(s, e);
    assert f - {item} == Selection(s) - {item} by {
      assert f - {item} == f - Movers(s, e) - {item};
      assert Selection(s) - {item} == Selection(s) - Movers(s, e) - {item};
    }
    ChangeAcyclicIff(Selection(s), f, Movers(s, e));
    OneItemChangeAcyclicIff(Selection(s), f, item);
    ForecastIsLookup(s, e, item);
  }

  // Creating, editing and pointing move the event's subject only; so does every other event
  // when pointers lead to BOMs of their own items.
  ghost predicate ConcernsSubjectOnly(s: Store, e: Event) {
    e.CreateBom? || e.EditBom? || e.PointItem? || WellLinked(s)
  }

  lemma SubjectMoves(s: Store, e: Event)
    requires ConcernsSubjectOnly(s, e)
    ensures Movers(s, e) <= {Subject(s, e)}
  {
    hide IsBest, Revised, View;
    forall i | i in Movers(s, e)
      ensures i == Subject(s, e)
    {
      if i != Subject(s, e) && (e.CancelBom? || e.SetActiveBom?) && e.id < |s.docs| {
        FallbackExcluding(s.docs, e.id, i, |s.docs|);
      }
    }
  }

  /** For those events the guard is one walk through the present selection, from the components
      of the successor to the event's own item. */
  lemma SubjectGuardIff(s: Store, e: Event)
    requires ConcernsSubjectOnly(s, e) && Acyclic(Selection(s))
    ensures var item := Subject(s, e);
      Guard(s, e) <==>
      (Successor(s, e, item).Some? ==> !LeadsBack(Selection(s), s.docs[Successor(s, e, item).value].bom, item))
  {
    SubjectMoves(s, e);
    SoleMoverGuard(s, e, Subject(s, e));
  }

  // --- Cancelling ---

  // Cancelling and deactivating leave the view that the cycle check takes when it is told to
  // exclude the document.
  lemma CancelForecast(s: Store, e: Event)
    requires e.CancelBom? || (e.SetActiveBom? && !e.active)
    requires Accepted(s, e)
    ensures Forecast(s, e) == View(s, Some(e.id))
    ensures forall i <- Movers(s, e) :: FindItemBom(s, i, None) == Some(e.id)
  {
    hide FindItemBom, View, Forecast;
    forall i
      ensures i in Forecast(s, e) <==> i in View(s, Some(e.id))
      ensures i in Forecast(s, e) ==> Forecast(s, e)[i] == View(s, Some(e.id))[i]
    {
      ForecastIsLookup(s, e, i);
      ViewIsLookup(s, i, Some(e.id));
    }
    forall i | i in Movers(s, e)
      ensures FindItemBom(s, i, None) == Some(e.id)
    {
      ExcludingAnother(s, e.id, i);
    }
  }

  // Excluding a document matters to those who use it only.
  lemma ExcludingAnother(s: Store, id: nat, item: Item)
    requires id < |s.docs|
    ensures FindItemBom(s, item, Some(id)) != FindItemBom(s, item, None) <==> FindItemBom(s, item, None) == Some(id)
  {
    FallbackExcluding(s.docs, id, item, |s.docs|);
  }

  lemma FallbackExcluding(docs: seq<Doc>, id: nat, item: Item, n: nat)
    requires n <= |docs|
    ensures Fallback(docs, item, None, n) != Some(id) ==> Fallback(docs, item, Some(id), n) == Fallback(docs, item, None, n)
  {
    FallbackIsBest(docs, item, None, n);
    FallbackIsBest(docs, item, Some(id), n);
  }

  /** Cancelling keeps an acyclic selection acyclic if and only if the cycle check, told to
      exclude the document, would accept the BOM that each of its present users falls back to. */
  lemma CancelAcyclicIff(s: Store, id: nat, inUse: bool)
    requires Acyclic(Selection(s)) && CancelVerdict(s, id, inUse).Ok?
    ensures var v := View(s, Some(id));
      Acyclic(Selection(Cancellation(s, id))) <==>
      forall i <- v :: FindItemBom(s, i, None) == Some(id) ==> !LeadsBack(v, v[i], i)
  {
    hide FindItemBom, View, Forecast, Cancellation, LeadsBack;
    var e := CancelBom(id, inUse);
    StepAcyclicIff(s, e);
    CancelForecast(s, e);
    forall i | i in View(s, Some(id)) && FindItemBom(s, i, None) == Some(id)
      ensures i in Movers(s, e)
    {
      ExcludingAnother(s, id, i);
      ViewIsLookup(s, i, Some(id));
      UsersAreItems(s, i);
    }
  }

  lemma UsersAreItems(s: Store, item: Item)
    requires FindItemBom(s, item, None).Some?
    ensures item in Items(s)
  {
    if item !in Items(s) {
      Stranger(s, item, None);
    }
  }

  // --- Submitting ---

  // A draft is never selected, so excluding it from the walk changes nothing.
  lemma DraftNotSelected(s: Store, id: nat)
    requires id < |s.docs| && s.docs[id].status == Draft
    ensures View(s, Some(id)) == Selection(s)
  {
    forall i
      ensures FindItemBom(s, i, Some(id)) == FindItemBom(s, i, None)
    {
      ExcludingAnother(s, id, i);
    }
  }

  // Whoever moves at a submission moves to the submitted document.
  lemma SubmissionMovers(s: Store, id: nat)
    requires SubmitVerdict(s, id).Ok?
    ensures forall i <- Movers(s, SubmitBom(id)) :: Successor(s, SubmitBom(id), i) == Some(id)
    ensures forall i <- Movers(s, SubmitBom(id)) :: i == s.docs[id].bom.produces || (i in s.pointers && s.pointers[i] == id)
    ensures forall i <- s.pointers :: s.pointers[i] == id && i != s.docs[id].bom.produces ==> i in Movers(s, SubmitBom(id))
  {
    hide View, LeadsBack, IsBest;
    forall i | i in Movers(s, SubmitBom(id))
      ensures Successor(s, SubmitBom(id), i) == Some(id)
      ensures i == s.docs[id].bom.produces || (i in s.pointers && s.pointers[i] == id)
    {
      FallbackExcluding(s.docs, id, i, |s.docs|);
    }
  }

  /** A submission that passes the check keeps an acyclic selection acyclic if and only if the
      check would also pass for every other item whose pointer leads to the document. */
  lemma SubmitAcyclicIff(s: Store, id: nat)
    requires Acyclic(Selection(s)) && SubmitVerdict(s, id).Ok?
    ensures Acyclic(Selection(Submission(s, id))) <==>
      forall i <- s.pointers :: s.pointers[i] == id && i != s.docs[id].bom.produces ==>
        !LeadsBack(Selection(s), s.docs[id].bom, i)
  {
    hide FindItemBom, View, Forecast, Submission, LeadsBack, Successor, Movers;
    var e, bom := SubmitBom(id), s.docs[id].bom;
    ForecastComesTrue(s, e);
    OthersStay(s, e);
    SubmissionMovers(s, id);
    DraftNotSelected(s, id);
    forall i | i in Movers(s, e)
      ensures i in Forecast(s, e) && Forecast(s, e)[i] == bom
    {
      ForecastIsLookup(s, e, i);
    }
    SpreadAcyclicIff(Selection(s), Forecast(s, e), Movers(s, e), bom);
  }

  /** So where no foreign item points at the document the check is enough. */
  lemma SubmitKeepsAcyclic(s: Store, id: nat)
    requires Acyclic(Selection(s)) && SubmitVerdict(s, id).Ok?
    requires forall i <- s.pointers :: s.pointers[i] == id ==> i == s.docs[id].bom.produces
    ensures Acyclic(Selection(Submission(s, id))) && Guard(s, SubmitBom(id))
  {
    hide Selection, Guard, LeadsBack;
    SubmitAcyclicIff(s, id);
    StepAcyclicIff(s, SubmitBom(id));
  }

  // --- Activating ---

  // Whoever moves when an inactive document is activated moves to that document; activating an
  // active one moves its own item at most.
  lemma ActivationMovers(s: Store, id: nat)
    requires CancelVerdict(s, id, false).Ok?
    ensures var e, item := SetActiveBom(id, true), s.docs[id].bom.produces;
      && (s.docs[id].active ==> Movers(s, e) <= {item})
      && (!s.docs[id].active ==>
            && (forall i <- Movers(s, e) :: Successor(s, e, i) == Some(id))
            && (forall i <- Movers(s, e) :: i == item || (i in s.pointers && s.pointers[i] == id))
            && (forall i <- s.pointers :: s.pointers[i] == id && i != item ==> i in Movers(s, e))
            && (Successor(s, e, item) == Some(id) ==> item in Movers(s, e)))
  {
    hide View, LeadsBack, IsBest;
    var e := SetActiveBom(id, true);
    forall i | i in Movers(s, e)
      ensures s.docs[id].active ==> i == s.docs[id].bom.produces
      ensures !s.docs[id].active ==> Successor(s, e, i) == Some(id)
    {
      FallbackExcluding(s.docs, id, i, |s.docs|);
    }
    assert s.docs[id] in s.docs;
  }

  /** Activating an inactive document, which runs no check, keeps an acyclic selection acyclic if
      and only if the check would pass for every item that points at the document and, where it
      comes to use the document, for the document's own item. Activating an active one can move
      its own item only, to the BOM that the check would have to accept. */
  lemma ActivateAcyclicIff(s: Store, id: nat)
    requires Acyclic(Selection(s)) && CancelVerdict(s, id, false).Ok?
    ensures var item, bom := s.docs[id].bom.produces, s.docs[id].bom;
      var next := OnceUsable(s, id, item);
      Acyclic(Selection(Activation(s, id, true))) <==>
        if s.docs[id].active then next.Some? ==> !LeadsBack(Selection(s), s.docs[next.value].bom, item)
        else
          && (next == Some(id) ==> !LeadsBack(Selection(s), bom, item))
          && forall i <- s.pointers :: s.pointers[i] == id && i != item ==> !LeadsBack(Selection(s), bom, i)
  {
    hide FindItemBom, OnceUsable, View, Forecast, Activation, LeadsBack, Movers;
    var e, bom := SetActiveBom(id, true), s.docs[id].bom;
    ActivationMovers(s, id);
    if s.docs[id].active {
      SoleMoverGuard(s, e, bom.produces);
      StepAcyclicIff(s, e);
    } else {
      ForecastComesTrue(s, e);
      OthersStay(s, e);
      forall i | i in Movers(s, e)
        ensures i in Forecast(s, e) && Forecast(s, e)[i] == bom
      {
        ForecastIsLookup(s, e, i);
      }
      SpreadAcyclicIff(Selection(s), Forecast(s, e), Movers(s, e), bom);
    }
  }

  // --- Whole runs ---

  ghost function Run(s: Store, es: seq<Event>): Store
    decreases |es|
  {
    if es == [] then s else Run(Step(s, es[0]), es[1..])
  }

  ghost predicate Guarded(s: Store, es: seq<Event>)
    decreases |es|
  {
    es == [] || (Guard(s, es[0]) && Guarded(Step(s, es[0]), es[1..]))
  }

  ghost predicate AlwaysAcyclic(s: Store, es: seq<Event>)
    decreases |es|
  {
    Acyclic(Selection(s)) && (es != [] ==> AlwaysAcyclic(Step(s, es[0]), es[1..]))
  }

  /** Over every run of creations, edits, submissions, cancellations, (de)activations and
      settings of pointers, from every store: the selection is acyclic throughout if and only
      if the guard of each event held before it. */
  lemma {:induction false} RunAcyclicIff(s: Store, es: seq<Event>)
    requires Acyclic(Selection(s))
    ensures AlwaysAcyclic(s, es) <==> Guarded(s, es)
    ensures Guarded(s, es) ==> Acyclic(Selection(Run(s, es)))
    decreases |es|
  {
    hide Selection, Step, Guard;
    if es != [] {
      StepAcyclicIff(s, es[0]);
      if Acyclic(Selection(Step(s, es[0]))) {
        RunAcyclicIff(Step(s, es[0]), es[1..]);
      }
    }
  }

  // --- Runs whose pointers stay with their own items ---

  // The item form is only used to point an item at a BOM that makes it.
  ghost predicate OwnPointer(s: Store, e: Event) {
    e.PointItem? && e.to.Some? && e.to.value < |s.docs| ==> s.docs[e.to.value].bom.produces == e.item
  }

  ghost predicate OwnPointers(s: Store, es: seq<Event>)
    decreases |es|
  {
    es == [] || (OwnPointer(s, es[0]) && OwnPointers(Step(s, es[0]), es[1..]))
  }

  lemma MadeDefaultLinked(s: Store, id: nat)
    requires WellLinked(s) && id < |s.docs|
    ensures WellLinked(MadeDefault(s, id))
  {
  }

  lemma SyncedLinked(s: Store, id: nat)
    requires WellLinked(s) && id < |s.docs|
    ensures WellLinked(Synced(s, id))
  {
  }

  lemma WithDocLinked(s: Store, id: nat, doc: Doc)
    requires WellLinked(s) && id < |s.docs| && doc.bom.produces == s.docs[id].bom.produces
    ensures WellLinked(WithDoc(s, id, doc))
  {
  }

  lemma PointingLinked(s: Store, item: Item, to: Option<nat>)
    requires WellLinked(s) && OwnPointer(s, PointItem(item, to)) && PointVerdict(s, to).Ok?
    ensures WellLinked(Pointing(s, item, to))
  {
  }

  lemma StepLinked(s: Store, e: Event)
    requires WellLinked(s) && OwnPointer(s, e)
    ensures WellLinked(Step(s, e))
  {
    hide View, LeadsBack, WellLinked, MadeDefault, Synced, WithDoc, Revised, OwnPointer, Pointing;
    if Accepted(s, e) {
      match e
      case CreateBom(bom, isDefault) =>
        var t := s.(docs := s.docs + [Doc(bom, Draft, true, isDefault)]);
        AppendLinked(s, Doc(bom, Draft, true, isDefault));
        MadeDefaultLinked(t, |s.docs|);
      case EditBom(id, c) =>
        WithDocLinked(s, id, Revised(s.docs[id], c));
        MadeDefaultLinked(WithDoc(s, id, Revised(s.docs[id], c)), id);
      case SubmitBom(id) =>
        var t := WithDoc(s, id, s.docs[id].(status := Submitted, active := true));
        WithDocLinked(s, id, s.docs[id].(status := Submitted, active := true));
        MadeDefaultLinked(t, id);
        SyncedLinked(if t.docs[id].isDefault then MadeDefault(t, id) else t, id);
      case CancelBom(id, _) =>
        var doc := s.docs[id].(status := Cancelled, active := false, isDefault := false);
        WithDocLinked(s, id, doc);
        SyncedLinked(WithDoc(s, id, doc), id);
      case SetActiveBom(id, active) =>
        var doc := s.docs[id].(active := active);
        var doc' := if active then doc else doc.(isDefault := false);
        WithDocLinked(s, id, doc');
        SyncedLinked(WithDoc(s, id, doc'), id);
      case PointItem(item, to) => PointingLinked(s, item, to);
    }
  }

  lemma AppendLinked(s: Store, doc: Doc)
    requires WellLinked(s)
    ensures WellLinked(s.(docs := s.docs + [doc]))
  {
  }

  lemma {:induction false} RunLinked(s: Store, es: seq<Event>)
    requires WellLinked(s) && OwnPointers(s, es)
    ensures WellLinked(Run(s, es)) && WellFormed(Selection(Run(s, es)))
    decreases |es|
  {
    hide Step;
    if es == [] {
      SelectionIsWellFormed(s);
    } else {
      StepLinked(s, es[0]);
      RunLinked(Step(s, es[0]), es[1..]);
    }
  }

  // --- Batches ---

  // What the request schema demands of a batch quantity.
  predicate PositiveBatch(e: Event) {
    match e
    case CreateBom(bom, _) => bom.batch > 0.0
    case EditBom(_, c) => c.batch.Some? ==> c.batch.value > 0.0
    case _ => true
  }

  ghost predicate StoredPositive(s: Store) {
    forall k | 0 <= k < |s.docs| :: s.docs[k].bom.batch > 0.0
  }

  lemma StepPositive(s: Store, e: Event)
    requires StoredPositive(s) && PositiveBatch(e)
    ensures StoredPositive(Step(s, e))
  {
    hide View, LeadsBack;
  }

  lemma {:induction false} RunPositive(s: Store, es: seq<Event>)
    requires StoredPositive(s) && forall e <- es :: PositiveBatch(e)
    ensures StoredPositive(Run(s, es))
    decreases |es|
  {
    hide Step;
    if es != [] {
      StepPositive(s, es[0]);
      assert forall e <- es[1..] :: e in es;
      RunPositive(Step(s, es[0]), es[1..]);
    }
  }
}
