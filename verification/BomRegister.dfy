/** The stored BOM documents, which of them an item uses, and the operations on them, in
    place. */
module BomRegister {
  import opened Prelude
  import opened BomCatalogue
  import opened BomCycleCheck

  datatype Status = Draft | Submitted | Cancelled

  datatype Doc = Doc(bom: Bom, status: Status, active: bool, isDefault: bool)

  // Documents are numbered in the order of their creation. The pointers are the items'
  // own default BOM references.
  datatype Store = Store(docs: seq<Doc>, pointers: map<Item, nat>)

  datatype Refusal = NotFound | WrongStatus | NoComponents | Cycle | InUse

  // --- Which BOM an item uses ---

  predicate Usable(doc: Doc) {
    doc.status == Submitted && doc.active
  }

  predicate Candidate(doc: Doc, id: nat, item: Item, exclude: Option<nat>) {
    Usable(doc) && doc.bom.produces == item && Some(id) != exclude
  }

  // Among the first n documents: default ones first, then the most recently created.
  function Fallback(docs: seq<Doc>, item: Item, exclude: Option<nat>, n: nat): (r: Option<nat>)
    requires n <= |docs|
    ensures r.Some? ==> r.value < n && Candidate(docs[r.value], r.value, item, exclude)
  {
    if n == 0 then None
    else
      var best := Fallback(docs, item, exclude, n - 1);
      if Candidate(docs[n-1], n - 1, item, exclude)
         && (best.None? || docs[n-1].isDefault || !docs[best.value].isDefault)
      then Some(n - 1) else best
  }

  // Default documents come before others, later ones before earlier ones.
  predicate Outranks(docs: seq<Doc>, a: nat, b: nat)
    requires a < |docs| && b < |docs|
  {
    (docs[a].isDefault && !docs[b].isDefault) || (docs[a].isDefault == docs[b].isDefault && a > b)
  }

  ghost predicate IsBest(docs: seq<Doc>, item: Item, exclude: Option<nat>, n: nat, r: Option<nat>)
    requires n <= |docs|
  {
    match r
    case None => forall k: nat | k < n :: !Candidate(docs[k], k, item, exclude)
    case Some(best) =>
      best < n && Candidate(docs[best], best, item, exclude)
      && forall k: nat | k < n && Candidate(docs[k], k, item, exclude) :: k == best || Outranks(docs, best, k)
  }

  lemma {:induction false} FallbackIsBest(docs: seq<Doc>, item: Item, exclude: Option<nat>, n: nat)
    requires n <= |docs|
    ensures IsBest(docs, item, exclude, n, Fallback(docs, item, exclude, n))
  {
    if n > 0 {
      FallbackIsBest(docs, item, exclude, n - 1);
    }
  }

  predicate Pointed(s: Store, item: Item, exclude: Option<nat>) {
    item in s.pointers && Some(s.pointers[item]) != exclude
    && s.pointers[item] < |s.docs| && Usable(s.docs[s.pointers[item]])
  }

  function FindItemBom(s: Store, item: Item, exclude: Option<nat>): (r: Option<nat>)
    ensures r.Some? ==> r.value < |s.docs| && Usable(s.docs[r.value]) && r != exclude
    ensures Pointed(s, item, exclude) ==> r == Some(s.pointers[item])
    ensures !Pointed(s, item, exclude) ==> IsBest(s.docs, item, exclude, |s.docs|, r)
  {
    FallbackIsBest(s.docs, item, exclude, |s.docs|);
    if Pointed(s, item, exclude) then Some(s.pointers[item])
    else Fallback(s.docs, item, exclude, |s.docs|)
  }

  function Items(s: Store): set<Item> {
    s.pointers.Keys + set d <- s.docs :: d.bom.produces
  }

  function View(s: Store, exclude: Option<nat>): Catalogue {
    map i | i in Items(s) && FindItemBom(s, i, exclude).Some?
      :: s.docs[FindItemBom(s, i, exclude).value].bom
  }

  function Selection(s: Store): Catalogue {
    View(s, None)
  }

  // A default pointer leads to a BOM that makes the item. Setting the pointer through the
  // item form does not ensure this; all other operations keep it.
  ghost predicate WellLinked(s: Store) {
    forall i <- s.pointers ::
      s.pointers[i] < |s.docs| && s.docs[s.pointers[i]].bom.produces == i
  }

  lemma ViewIsLookup(s: Store, item: Item, exclude: Option<nat>)
    ensures item in View(s, exclude) <==> FindItemBom(s, item, exclude).Some?
    ensures item in View(s, exclude) ==>
      View(s, exclude)[item] == s.docs[FindItemBom(s, item, exclude).value].bom
  {
    var r := FindItemBom(s, item, exclude);
    if r.Some? && !Pointed(s, item, exclude) {
      assert s.docs[r.value] in s.docs;
    }
  }

  lemma SelectionIsWellFormed(s: Store)
    requires WellLinked(s)
    ensures WellFormed(Selection(s))
  {
  }

  // --- Effects on the store ---

  // The default flags of an item's first n documents cleared, except that of one document.
  function ClearedDefaults(docs: seq<Doc>, item: Item, keep: nat, n: nat): (r: seq<Doc>)
    ensures |r| == |docs|
  {
    seq(|docs|, k requires 0 <= k < |docs| =>
      if k < n && docs[k].bom.produces == item && k != keep then docs[k].(isDefault := false) else docs[k])
  }

  lemma ClearOneMore(docs: seq<Doc>, item: Item, keep: nat, n: nat)
    requires n < |docs|
    ensures var r := ClearedDefaults(docs, item, keep, n);
      ClearedDefaults(docs, item, keep, n + 1) ==
        if r[n].bom.produces == item && n != keep && r[n].isDefault then r[n := r[n].(isDefault := false)] else r
  {
  }

  // Make the document the only default of its item and point the item at it.
  function MadeDefault(s: Store, id: nat): (r: Store)
    requires id < |s.docs|
    ensures |r.docs| == |s.docs|
  {
    var item := s.docs[id].bom.produces;
    Store(ClearedDefaults(s.docs, item, id, |s.docs|), s.pointers[item := id])
  }

  function Synced(s: Store, id: nat): (r: Store)
    requires id < |s.docs|
    ensures r.docs == s.docs
  {
    var doc := s.docs[id];
    var item := doc.bom.produces;
    if doc.isDefault && Usable(doc) then s.(pointers := s.pointers[item := id])
    else if item in s.pointers && s.pointers[item] == id then s.(pointers := s.pointers - {item})
    else s
  }

  function WithDoc(s: Store, id: nat, doc: Doc): (r: Store)
    requires id < |s.docs|
    ensures |r.docs| == |s.docs|
  {
    s.(docs := s.docs[id := doc])
  }

  function Submission(s: Store, id: nat): Store
    requires id < |s.docs|
  {
    var t := WithDoc(s, id, s.docs[id].(status := Submitted, active := true));
    var t := if t.docs[id].isDefault then MadeDefault(t, id) else t;
    Synced(t, id)
  }

  function Cancellation(s: Store, id: nat): Store
    requires id < |s.docs|
  {
    Synced(WithDoc(s, id, s.docs[id].(status := Cancelled, active := false, isDefault := false)), id)
  }

  function Activation(s: Store, id: nat, active: bool): Store
    requires id < |s.docs|
  {
    var doc := s.docs[id].(active := active);
    Synced(WithDoc(s, id, if active then doc else doc.(isDefault := false)), id)
  }

  function Creation(s: Store, bom: Bom, isDefault: bool): Store {
    var t := s.(docs := s.docs + [Doc(bom, Draft, true, isDefault)]);
    if isDefault then MadeDefault(t, |s.docs|) else t
  }

  // What editing a draft may replace; absent parts stay.
  datatype Changes = Changes(lines: Option<seq<Line>>, scrap: Option<seq<ScrapLine>>, batch: Option<real>,
                             phantom: Option<bool>, isDefault: Option<bool>, totalCost: real)

  function Revised(doc: Doc, c: Changes): (r: Doc)
    ensures r.bom.produces == doc.bom.produces && r.status == doc.status && r.active == doc.active
  {
    var bom := doc.bom.(lines := c.lines.GetOr(doc.bom.lines), scrap := c.scrap.GetOr(doc.bom.scrap),
                        batch := c.batch.GetOr(doc.bom.batch), phantom := c.phantom.GetOr(doc.bom.phantom),
                        totalCost := c.totalCost);
    doc.(bom := bom, isDefault := c.isDefault.GetOr(doc.isDefault))
  }

  function Edition(s: Store, id: nat, c: Changes): Store
    requires id < |s.docs|
  {
    var t := WithDoc(s, id, Revised(s.docs[id], c));
    if t.docs[id].isDefault then MadeDefault(t, id) else t
  }

  // The item form sets or clears the pointer, without asking what the BOM makes.
  function Pointing(s: Store, item: Item, to: Option<nat>): (r: Store)
    ensures r.docs == s.docs
  {
    s.(pointers := if to.Some? then s.pointers[item := to.value] else s.pointers - {item})
  }

  // --- The operations, in place ---

  class Register {
    var docs: seq<Doc>
    var pointers: map<Item, nat>

    function Now(): Store
      reads this
    {
      Store(docs, pointers)
    }

    method ClearOtherDefaults(id: nat)
      requires id < |docs|
      modifies this
      ensures Now() == MadeDefault(old(Now()), id)
    {
      var item := docs[id].bom.produces;
      assert ClearedDefaults(docs, item, id, 0) == docs;
      for k := 0 to |docs|
        invariant |docs| == old(|docs|) && pointers == old(pointers)
        invariant docs == ClearedDefaults(old(docs), item, id, k)
      {
        ClearOneMore(old(docs), item, id, k);
        if docs[k].bom.produces == item && k != id && docs[k].isDefault {
          docs := docs[k := docs[k].(isDefault := false)];
        }
      }
      pointers := pointers[item := id];
    }

    method SyncItemDefault(id: nat)
      requires id < |docs|
      modifies this
      ensures Now() == Synced(old(Now()), id)
    {
      var item := docs[id].bom.produces;
      if docs[id].isDefault && docs[id].status == Submitted && docs[id].active {
        pointers := pointers[item := id];
      } else if item in pointers && pointers[item] == id {
        pointers := pointers - {item};
      }
    }

    method Create(bom: Bom, isDefault: bool) returns (r: Result<nat, Refusal>)
      modifies this
      ensures r == if LeadsBack(Selection(old(Now())), bom, bom.produces) then Err(Cycle) else Ok(|old(docs)|)
      ensures Now() == if r.Ok? then Creation(old(Now()), bom, isDefault) else old(Now())
    {
      var free := AssertNoBomCycle(Selection(Now()), bom.produces, Components(bom));
      if !free {
        return Err(Cycle);
      }
      docs := docs + [Doc(bom, Draft, true, isDefault)];
      if isDefault {
        ClearOtherDefaults(|docs| - 1);
      }
      return Ok(|docs| - 1);
    }

    method Edit(id: nat, c: Changes) returns (r: Result<(), Refusal>)
      modifies this
      ensures r == EditVerdict(old(Now()), id, c)
      ensures Now() == if r.Ok? then Edition(old(Now()), id, c) else old(Now())
    {
      if id >= |docs| {
        return Err(NotFound);
      }
      if docs[id].status != Draft {
        return Err(WrongStatus);
      }
      var doc := Revised(docs[id], c);
      if c.lines.Some? {
        var free := AssertNoBomCycle(View(Now(), Some(id)), doc.bom.produces, Components(doc.bom));
        if !free {
          return Err(Cycle);
        }
      }
      docs := docs[id := doc];
      if docs[id].isDefault {
        ClearOtherDefaults(id);
      }
      return Ok(());
    }

    method Point(item: Item, to: Option<nat>) returns (r: Result<(), Refusal>)
      modifies this
      ensures r == PointVerdict(old(Now()), to)
      ensures Now() == if r.Ok? then Pointing(old(Now()), item, to) else old(Now())
    {
      if to.Some? && to.value >= |docs| {
        return Err(NotFound);
      }
      if to.Some? {
        pointers := pointers[item := to.value];
      } else {
        pointers := pointers - {item};
      }
      return Ok(());
    }

    method Submit(id: nat) returns (r: Result<(), Refusal>)
      modifies this
      ensures r == SubmitVerdict(old(Now()), id)
      ensures Now() == if r.Ok? then Submission(old(Now()), id) else old(Now())
    {
      if id >= |docs| {
        return Err(NotFound);
      }
      if docs[id].status != Draft {
        return Err(WrongStatus);
      }
      if docs[id].bom.lines == [] {
        return Err(NoComponents);
      }
      var bom := docs[id].bom;
      var free := AssertNoBomCycle(View(Now(), Some(id)), bom.produces, Components(bom));
      if !free {
        return Err(Cycle);
      }
      docs := docs[id := docs[id].(status := Submitted, active := true)];
      if docs[id].isDefault {
        ClearOtherDefaults(id);
      }
      SyncItemDefault(id);
      return Ok(());
    }

    method Cancel(id: nat, inUse: bool) returns (r: Result<(), Refusal>)
      modifies this
      ensures r == CancelVerdict(old(Now()), id, inUse)
      ensures Now() == if r.Ok? then Cancellation(old(Now()), id) else old(Now())
    {
      if id >= |docs| {
        return Err(NotFound);
      }
      if docs[id].status != Submitted {
        return Err(WrongStatus);
      }
      if inUse {
        return Err(InUse);
      }
      docs := docs[id := docs[id].(status := Cancelled)];
      docs := docs[id := docs[id].(active := false)];
      docs := docs[id := docs[id].(isDefault := false)];
      SyncItemDefault(id);
      return Ok(());
    }

    method SetActive(id: nat, active: bool) returns (r: Result<(), Refusal>)
      modifies this
      ensures r == CancelVerdict(old(Now()), id, false)
      ensures Now() == if r.Ok? then Activation(old(Now()), id, active) else old(Now())
    {
      if id >= |docs| {
        return Err(NotFound);
      }
      if docs[id].status != Submitted {
        return Err(WrongStatus);
      }
      docs := docs[id := docs[id].(active := active)];
      if !active {
        docs := docs[id := docs[id].(isDefault := false)];
      }
      SyncItemDefault(id);
      return Ok(());
    }
  }

  ghost function EditVerdict(s: Store, id: nat, c: Changes): Result<(), Refusal> {
    if id >= |s.docs| then Err(NotFound)
    else if s.docs[id].status != Draft then Err(WrongStatus)
    else if c.lines.Some? && LeadsBack(View(s, Some(id)), Revised(s.docs[id], c).bom, s.docs[id].bom.produces)
    then Err(Cycle)
    else Ok(())
  }

  // A pointer refers to a stored BOM.
  function PointVerdict(s: Store, to: Option<nat>): Result<(), Refusal> {
    if to.Some? && to.value >= |s.docs| then Err(NotFound) else Ok(())
  }

  ghost function SubmitVerdict(s: Store, id: nat): Result<(), Refusal> {
    if id >= |s.docs| then Err(NotFound)
    else if s.docs[id].status != Draft then Err(WrongStatus)
    else if s.docs[id].bom.lines == [] then Err(NoComponents)
    else if LeadsBack(View(s, Some(id)), s.docs[id].bom, s.docs[id].bom.produces) then Err(Cycle)
    else Ok(())
  }

  ghost function CancelVerdict(s: Store, id: nat, inUse: bool): Result<(), Refusal> {
    if id >= |s.docs| then Err(NotFound)
    else if s.docs[id].status != Submitted then Err(WrongStatus)
    else if inUse then Err(InUse)
    else Ok(())
  }
}
