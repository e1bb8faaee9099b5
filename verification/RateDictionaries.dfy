/** The per-item rates that the tax engine reads: dictionaries that items of one tax template
    share, and overrides merged into them in place. */
module RateDictionaries {
  import opened Prelude
  import opened GstRates

  // A detail row of a tax template.
  datatype Detail = Detail(template: TemplateId, account: AccountId, rate: real)

  type Templates = map<TemplateId, map<AccountId, real>>

  // Templates without detail rows are absent; the last row of an account counts.
  function TemplatesOf(details: seq<Detail>): Templates {
    if details == [] then map[]
    else
      var before, last := TemplatesOf(details[..|details|-1]), details[|details|-1];
      before[last.template := (if last.template in before then before[last.template] else map[])[last.account := last.rate]]
  }

  function TemplateOf(meta: map<ItemId, Meta>, k: Key): Option<TemplateId> {
    if k.Master? && k.item in meta then meta[k.item].template else None
  }

  // The dictionary that holds the rates of a key: one for all items of a template with detail
  // rows, one of its own for every other key.
  datatype Slot = Shared(template: TemplateId) | Own(key: Key)

  function SlotOf(meta: map<ItemId, Meta>, templates: Templates, k: Key): Slot {
    var t := TemplateOf(meta, k);
    if t.Some? && t.value in templates then Shared(t.value) else Own(k)
  }

  function TemplateKeys(lines: seq<Line>, meta: map<ItemId, Meta>, n: nat): set<Key>
    requires n <= |lines|
  {
    if n == 0 then {}
    else
      var k := KeyOf(lines[n-1], n - 1);
      TemplateKeys(lines, meta, n - 1) + if TemplateOf(meta, k).Some? then {k} else {}
  }

  function DetailsOf(meta: map<ItemId, Meta>, templates: Templates, k: Key): map<AccountId, real> {
    var t := TemplateOf(meta, k);
    if t.Some? && t.value in templates then templates[t.value] else map[]
  }

  // The rates of the items that have a template, before any override.
  function TemplateRates(lines: seq<Line>, meta: map<ItemId, Meta>, templates: Templates): (r: Rates)
    ensures r.Keys == TemplateKeys(lines, meta, |lines|)
  {
    map k | k in TemplateKeys(lines, meta, |lines|) :: DetailsOf(meta, templates, k)
  }

  lemma {:induction false} TemplateKeysMean(lines: seq<Line>, meta: map<ItemId, Meta>, n: nat, k: Key)
    requires n <= |lines|
    ensures k in TemplateKeys(lines, meta, n) <==>
      TemplateOf(meta, k).Some? && exists i | 0 <= i < n :: KeyOf(lines[i], i) == k
  {
    hide TemplateOf, KeyOf;
    if n > 0 {
      TemplateKeysMean(lines, meta, n - 1, k);
    }
  }

  // The last detail row that gives the account a rate in the template.
  ghost predicate LastDetail(details: seq<Detail>, template: TemplateId, account: AccountId, j: nat) {
    && j < |details| && details[j].template == template && details[j].account == account
    && forall k | j < k < |details| :: details[k].template != template || details[k].account != account
  }

  lemma {:induction false} TemplatesOfMeans(details: seq<Detail>, template: TemplateId, account: AccountId)
    ensures var t := TemplatesOf(details);
      && (template in t <==> exists j | 0 <= j < |details| :: details[j].template == template)
      && (template in t ==>
            && (account in t[template] <==> exists j: nat :: LastDetail(details, template, account, j))
            && forall j: nat | LastDetail(details, template, account, j) :: t[template][account] == details[j].rate)
  {
    if details != [] {
      var front, last := details[..|details|-1], details[|details|-1];
      TemplatesOfMeans(front, template, account);
      assert details == front + [last];
      LastDetailSnoc(front, last, template, account);
      assert forall j: nat :: LastDetail(front, template, account, j) ==> j < |front| && front[j].template == template;
      hide LastDetail;
      if last.template == template {
        assert details[|front|] == last;
        assert last.account == account ==> LastDetail(details, template, account, |front|);
      } else if template in TemplatesOf(front) {
        var j :| 0 <= j < |front| && front[j].template == template;
        assert details[j] == front[j];
      }
    }
  }

  lemma LastDetailSnoc(front: seq<Detail>, last: Detail, template: TemplateId, account: AccountId)
    ensures forall j: nat :: LastDetail(front + [last], template, account, j) <==>
      if last.template == template && last.account == account then j == |front| else LastDetail(front, template, account, j)
  {
    var details := front + [last];
    assert details[|front|] == last;
    assert forall j | 0 <= j < |front| :: details[j] == front[j];
  }

  /** A line of a known item with a template reads the rates of the template's detail rows, the last
      row for each account; no other line has rates at first. */
  lemma TemplateRatesMean(lines: seq<Line>, meta: map<ItemId, Meta>, details: seq<Detail>, i: nat, account: AccountId)
    requires i < |lines|
    ensures var r, k, line := TemplateRates(lines, meta, TemplatesOf(details)), KeyOf(lines[i], i), lines[i];
      if line.item.Some? && line.item.value in meta && meta[line.item.value].template.Some? then
        var template := meta[line.item.value].template.value;
        && k in r
        && (account in r[k] <==> exists j: nat :: LastDetail(details, template, account, j))
        && (forall j: nat | LastDetail(details, template, account, j) :: r[k][account] == details[j].rate)
      else k !in r
  {
    hide TemplateKeys, TemplatesOf;
    TemplateKeysMean(lines, meta, |lines|, KeyOf(lines[i], i));
    if lines[i].item.Some? && lines[i].item.value in meta && meta[lines[i].item.value].template.Some? {
      TemplatesOfMeans(details, meta[lines[i].item.value].template.value, account);
    }
  }

  // --- Overrides written one after another ---

  function At(r: Rates, k: Key): map<AccountId, real> {
    if k in r then r[k] else map[]
  }

  // Writing a key's override changes what every key with the same dictionary reads.
  function Written(r: Rates, meta: map<ItemId, Meta>, templates: Templates, k: Key, heads: map<AccountId, real>): Rates {
    map x | x in r.Keys + {k} ::
      if SlotOf(meta, templates, x) == SlotOf(meta, templates, k) then At(r, k) + heads else r[x]
  }

  function MergedRates(r: Rates, meta: map<ItemId, Meta>, templates: Templates, order: seq<Key>, over: Rates): Rates {
    if order == [] then r
    else
      var last := order[|order|-1];
      Written(MergedRates(r, meta, templates, order[..|order|-1], over), meta, templates, last, At(over, last))
  }

  // The last key in the order that has the same dictionary.
  function LastSharer(meta: map<ItemId, Meta>, templates: Templates, order: seq<Key>, k: Key): (w: Option<Key>)
    ensures w.Some? ==> w.value in order && SlotOf(meta, templates, w.value) == SlotOf(meta, templates, k)
    ensures w.None? ==> forall x <- order :: SlotOf(meta, templates, x) != SlotOf(meta, templates, k)
  {
    if order == [] then None
    else if SlotOf(meta, templates, order[|order|-1]) == SlotOf(meta, templates, k) then Some(order[|order|-1])
    else LastSharer(meta, templates, order[..|order|-1], k)
  }

  // Keys with one slot start with the same rates, and have them or not together with the slot.
  ghost predicate Coherent(r: Rates, meta: map<ItemId, Meta>, templates: Templates, order: seq<Key>) {
    && (forall x, y :: x in r && y in r && SlotOf(meta, templates, x) == SlotOf(meta, templates, y) ==> r[x] == r[y])
    && (forall x <- order :: x in r || SlotOf(meta, templates, x) == Own(x))
  }

  lemma TemplateRatesCoherent(lines: seq<Line>, meta: map<ItemId, Meta>, templates: Templates, keepTemplates: bool)
    ensures Coherent(TemplateRates(lines, meta, templates), meta, templates, Order(lines, meta, keepTemplates, |lines|))
  {
    var r, order := TemplateRates(lines, meta, templates), Order(lines, meta, keepTemplates, |lines|);
    hide TemplateOf, KeyOf, Order, TemplateKeys;
    forall x | x in order
      ensures x in r || SlotOf(meta, templates, x) == Own(x)
    {
      OrderIsOfLines(lines, meta, keepTemplates, |lines|, x);
      TemplateKeysMean(lines, meta, |lines|, x);
    }
  }

  lemma {:induction false} OrderIsOfLines(lines: seq<Line>, meta: map<ItemId, Meta>, keepTemplates: bool, n: nat, k: Key)
    requires n <= |lines| && k in Order(lines, meta, keepTemplates, n)
    ensures exists i | 0 <= i < n :: KeyOf(lines[i], i) == k && Rated(lines[i], meta, keepTemplates)
  {
    hide KeyOf, Rated;
    if k in Order(lines, meta, keepTemplates, n - 1) {
      OrderIsOfLines(lines, meta, keepTemplates, n - 1, k);
    }
  }

  lemma AddTwice(m: map<AccountId, real>, a: map<AccountId, real>, b: map<AccountId, real>)
    requires a.Keys == b.Keys
    ensures m + a + b == m + b
  {
  }

  // The rates that a key starts with under an override.
  function Topped(r: Rates, over: Rates, w: Option<Key>, k: Key): map<AccountId, real> {
    At(r, k) + if w.Some? then At(over, w.value) else map[]
  }

  lemma ToppedAgain(r: Rates, over: Rates, w: Option<Key>, last: Key, accounts: set<AccountId>, k: Key)
    requires At(r, last) == At(r, k) && At(over, last).Keys == accounts
    requires w.Some? ==> At(over, w.value).Keys == accounts
    ensures Topped(r, over, w, last) + At(over, last) == Topped(r, over, Some(last), k)
  {
    if w.Some? {
      AddTwice(At(r, k), At(over, w.value), At(over, last));
    }
  }

  lemma WrittenAt(r: Rates, meta: map<ItemId, Meta>, templates: Templates, last: Key, heads: map<AccountId, real>, k: Key)
    ensures var t := Written(r, meta, templates, last, heads);
      && t.Keys == r.Keys + {last}
      && (k in t ==>
            t[k] == (if SlotOf(meta, templates, k) == SlotOf(meta, templates, last) then At(r, last) + heads else At(r, k)))
  {
    hide SlotOf;
  }

  lemma SharersStartAlike(r: Rates, meta: map<ItemId, Meta>, templates: Templates, order: seq<Key>, last: Key, k: Key)
    requires Coherent(r, meta, templates, order) && last in order
    requires SlotOf(meta, templates, last) == SlotOf(meta, templates, k) && (k in r || k in order)
    ensures At(r, last) == At(r, k)
  {
    if last !in r {
      OwnIsAlone(meta, templates, k, last);
    } else if k !in r {
      OwnIsAlone(meta, templates, last, k);
    }
  }

  /** When all overrides are for the same accounts, each key ends with the rates it started with
      and, on top, the override of the last key written to its dictionary. */
  lemma {:induction false} MergedIsLast(r: Rates, meta: map<ItemId, Meta>, templates: Templates, order: seq<Key>,
                                        over: Rates, accounts: set<AccountId>, k: Key)
    requires Coherent(r, meta, templates, order)
    requires forall x <- order :: At(over, x).Keys == accounts
    ensures var merged := MergedRates(r, meta, templates, order, over);
      && (k in merged <==> k in r || k in order)
      && (k in merged ==> merged[k] == Topped(r, over, LastSharer(meta, templates, order, k), k))
  {
    hide SlotOf, Coherent, Written, Topped;
    if order == [] {
      assert At(r, k) + map[] == At(r, k);
      assert Topped(r, over, None, k) == At(r, k) + map[] by { ToppedByNone(r, over, k); }
    } else {
      var front, last := order[..|order|-1], order[|order|-1];
      assert order == front + [last];
      CoherentFront(r, meta, templates, front, last);
      MergedIsLast(r, meta, templates, front, over, accounts, k);
      MergedIsLast(r, meta, templates, front, over, accounts, last);
      var m := MergedRates(r, meta, templates, front, over);
      WrittenAt(m, meta, templates, last, At(over, last), k);
      if SlotOf(meta, templates, last) == SlotOf(meta, templates, k) && (k in r || k in order) {
        var w := LastSharer(meta, templates, front, last);
        SharersStartAlike(r, meta, templates, order, last, k);
        ToppedAgain(r, over, w, last, accounts, k);
        NotYetMerged(r, meta, templates, front, last, over, m);
      }
    }
  }

  lemma ToppedByNone(r: Rates, over: Rates, k: Key)
    ensures Topped(r, over, None, k) == At(r, k)
  {
    assert At(r, k) + map[] == At(r, k);
  }

  lemma CoherentFront(r: Rates, meta: map<ItemId, Meta>, templates: Templates, front: seq<Key>, last: Key)
    requires Coherent(r, meta, templates, front + [last])
    ensures Coherent(r, meta, templates, front)
    ensures last in r || SlotOf(meta, templates, last) == Own(last)
  {
    hide SlotOf;
    assert forall x <- front :: x in front + [last];
    assert last in front + [last];
  }

  // A key that has no rates so far shares its dictionary with nothing written so far.
  lemma NotYetMerged(r: Rates, meta: map<ItemId, Meta>, templates: Templates, front: seq<Key>, last: Key, over: Rates, m: Rates)
    requires last in r || SlotOf(meta, templates, last) == Own(last)
    requires last in m <==> last in r || last in front
    requires last in m ==> m[last] == Topped(r, over, LastSharer(meta, templates, front, last), last)
    ensures At(m, last) == Topped(r, over, LastSharer(meta, templates, front, last), last)
  {
    if last !in m {
      var w := LastSharer(meta, templates, front, last);
      if w.Some? {
        OwnIsAlone(meta, templates, w.value, last);
      }
      ToppedByNone(r, over, last);
    }
  }

  lemma {:induction false} LastSharerOfSlot(meta: map<ItemId, Meta>, templates: Templates, order: seq<Key>, x: Key, y: Key)
    requires SlotOf(meta, templates, x) == SlotOf(meta, templates, y)
    ensures LastSharer(meta, templates, order, x) == LastSharer(meta, templates, order, y)
  {
    hide SlotOf;
    if order != [] {
      LastSharerOfSlot(meta, templates, order[..|order|-1], x, y);
    }
  }

  // --- Whose override is written last ---

  // The first rated line of a key.
  ghost predicate FirstOfKey(lines: seq<Line>, meta: map<ItemId, Meta>, keepTemplates: bool, n: nat, k: Key, i: nat)
    requires n <= |lines|
  {
    && i < n && KeyOf(lines[i], i) == k && Rated(lines[i], meta, keepTemplates)
    && forall j | 0 <= j < i && KeyOf(lines[j], j) == k :: !Rated(lines[j], meta, keepTemplates)
  }

  // Overrides are written in the sequence of the first rated lines of their keys.
  lemma {:induction false} OrderByFirstLine(lines: seq<Line>, meta: map<ItemId, Meta>, keepTemplates: bool, n: nat)
    returns (firsts: seq<nat>)
    requires n <= |lines|
    ensures var order := Order(lines, meta, keepTemplates, n);
      && |firsts| == |order|
      && (forall p | 0 <= p < |order| :: FirstOfKey(lines, meta, keepTemplates, n, order[p], firsts[p]))
      && (forall p, q | 0 <= p < q < |order| :: firsts[p] < firsts[q])
    ensures forall i | 0 <= i < n && Rated(lines[i], meta, keepTemplates) ::
      KeyOf(lines[i], i) in Order(lines, meta, keepTemplates, n)
  {
    hide Rated, KeyOf;
    firsts := [];
    if n > 0 {
      firsts := OrderByFirstLine(lines, meta, keepTemplates, n - 1);
      var before := Order(lines, meta, keepTemplates, n - 1);
      if Rated(lines[n-1], meta, keepTemplates) && KeyOf(lines[n-1], n - 1) !in before {
        firsts := firsts + [n - 1];
      }
    }
  }

  // The last sharer is the one whose first rated line comes last.
  lemma {:induction false} LastSharerIsLast(meta: map<ItemId, Meta>, templates: Templates, order: seq<Key>, k: Key, p: nat)
    requires p < |order| && SlotOf(meta, templates, order[p]) == SlotOf(meta, templates, k)
    requires forall q | p < q < |order| :: SlotOf(meta, templates, order[q]) != SlotOf(meta, templates, k)
    ensures LastSharer(meta, templates, order, k) == Some(order[p])
  {
    hide SlotOf;
    if p < |order| - 1 {
      LastSharerIsLast(meta, templates, order[..|order|-1], k, p);
    }
  }

  lemma SharerByFirstLine(lines: seq<Line>, meta: map<ItemId, Meta>, templates: Templates, keepTemplates: bool, k: Key, i: nat)
    requires i < |lines| && FirstOfKey(lines, meta, keepTemplates, |lines|, KeyOf(lines[i], i), i)
    requires SlotOf(meta, templates, KeyOf(lines[i], i)) == SlotOf(meta, templates, k)
    requires forall j | i < j < |lines| && Rated(lines[j], meta, keepTemplates)
        && SlotOf(meta, templates, KeyOf(lines[j], j)) == SlotOf(meta, templates, k) ::
      !FirstOfKey(lines, meta, keepTemplates, |lines|, KeyOf(lines[j], j), j)
    ensures LastSharer(meta, templates, Order(lines, meta, keepTemplates, |lines|), k) == Some(KeyOf(lines[i], i))
  {
    hide Rated, KeyOf, SlotOf, Order;
    var firsts := OrderByFirstLine(lines, meta, keepTemplates, |lines|);
    var order := Order(lines, meta, keepTemplates, |lines|);
    var p :| 0 <= p < |order| && order[p] == KeyOf(lines[i], i);
    assert firsts[p] == i;
    LastSharerIsLast(meta, templates, order, k, p);
  }

  // One line, or lines of one item.
  ghost predicate OneKey(lines: seq<Line>, i: nat, j: nat)
    requires i < |lines| && j < |lines|
  {
    i == j || (lines[i].item.Some? && lines[i].item == lines[j].item)
  }

  // Lines of one key, or of two known items of one template that has a detail row.
  ghost predicate OneDictionary(lines: seq<Line>, meta: map<ItemId, Meta>, details: seq<Detail>, i: nat, j: nat)
    requires i < |lines| && j < |lines|
  {
    || OneKey(lines, i, j)
    || (lines[i].item.Some? && lines[j].item.Some? && lines[i].item.value in meta && lines[j].item.value in meta
        && var template := meta[lines[i].item.value].template;
        template.Some? && template == meta[lines[j].item.value].template
        && exists x | 0 <= x < |details| :: details[x].template == template.value)
  }

  lemma SharedDictionary(lines: seq<Line>, meta: map<ItemId, Meta>, details: seq<Detail>, i: nat, j: nat)
    requires i < |lines| && j < |lines|
    ensures KeyOf(lines[i], i) == KeyOf(lines[j], j) <==> OneKey(lines, i, j)
    ensures SlotOf(meta, TemplatesOf(details), KeyOf(lines[i], i)) == SlotOf(meta, TemplatesOf(details), KeyOf(lines[j], j))
       <==> OneDictionary(lines, meta, details, i, j)
  {
    hide TemplatesOf;
    if lines[i].item.Some? && lines[i].item.value in meta && meta[lines[i].item.value].template.Some? {
      TemplatesOfMeans(details, meta[lines[i].item.value].template.value, 0);
    }
    if lines[j].item.Some? && lines[j].item.value in meta && meta[lines[j].item.value].template.Some? {
      TemplatesOfMeans(details, meta[lines[j].item.value].template.value, 0);
    }
  }

  // --- In place ---

  class RateDict {
    var rates: map<AccountId, real>

    constructor (rates: map<AccountId, real>)
      ensures this.rates == rates
    {
      this.rates := rates;
    }
  }

  ghost predicate Represents(dicts: map<Key, RateDict>, r: Rates)
    reads dicts.Values
  {
    dicts.Keys == r.Keys && forall k <- dicts :: dicts[k].rates == r[k]
  }

  // Two keys have one dictionary exactly when they have one slot.
  ghost predicate SharedBySlot(dicts: map<Key, RateDict>, meta: map<ItemId, Meta>, templates: Templates) {
    forall x, y :: x in dicts && y in dicts ==>
      (dicts[x] == dicts[y] <==> SlotOf(meta, templates, x) == SlotOf(meta, templates, y))
  }

  method TemplateDicts(details: seq<Detail>) returns (shared: map<TemplateId, RateDict>)
    ensures shared.Keys == TemplatesOf(details).Keys
    ensures forall t <- shared :: fresh(shared[t]) && shared[t].rates == TemplatesOf(details)[t]
    ensures forall t, u :: t in shared && u in shared && shared[t] == shared[u] ==> t == u
  {
    shared := map[];
    for j := 0 to |details|
      invariant shared.Keys == TemplatesOf(details[..j]).Keys
      invariant forall t <- shared :: fresh(shared[t]) && shared[t].rates == TemplatesOf(details[..j])[t]
      invariant forall t, u :: t in shared && u in shared && shared[t] == shared[u] ==> t == u
    {
      var row := details[j];
      assert details[..j+1][..j] == details[..j];
      if row.template !in shared {
        var dict := new RateDict(map[]);
        shared := shared[row.template := dict];
      }
      shared[row.template].rates := shared[row.template].rates[row.account := row.rate];
    }
    assert details[..|details|] == details;
  }

  // The template's dictionary if it has one, and no template's dictionary otherwise.
  ghost predicate Placed(shared: map<TemplateId, RateDict>, template: Option<TemplateId>, dict: RateDict) {
    template.Some?
    && if template.value in shared then dict == shared[template.value] else forall t <- shared :: dict != shared[t]
  }

  // What is handed out for the items of the first n lines.
  ghost predicate HandedOut(dicts: map<Key, RateDict>, lines: seq<Line>, meta: map<ItemId, Meta>,
                            shared: map<TemplateId, RateDict>, n: nat)
    requires n <= |lines|
  {
    && dicts.Keys == TemplateKeys(lines, meta, n)
    && (forall k <- dicts :: Placed(shared, TemplateOf(meta, k), dicts[k]))
    && (forall x, y :: x in dicts && y in dicts && dicts[x] == dicts[y] ==>
          x == y || (TemplateOf(meta, x) == TemplateOf(meta, y) && TemplateOf(meta, x).value in shared))
  }

  method DictFor(shared: map<TemplateId, RateDict>, template: TemplateId) returns (dict: RateDict)
    ensures if template in shared then dict == shared[template] else fresh(dict) && dict.rates == map[]
  {
    if template in shared {
      dict := shared[template];
    } else {
      dict := new RateDict(map[]);
    }
  }

  lemma HandOutOneMore(dicts: map<Key, RateDict>, lines: seq<Line>, meta: map<ItemId, Meta>,
                       shared: map<TemplateId, RateDict>, n: nat, dict: RateDict)
    requires n < |lines| && HandedOut(dicts, lines, meta, shared, n)
    requires var k := KeyOf(lines[n], n); var t := TemplateOf(meta, k);
      && k !in dicts && Placed(shared, t, dict)
      && (t.value !in shared ==> forall x <- dicts :: dicts[x] != dict)
    requires forall t, u :: t in shared && u in shared && shared[t] == shared[u] ==> t == u
    ensures HandedOut(dicts[KeyOf(lines[n], n) := dict], lines, meta, shared, n + 1)
  {
    hide TemplateOf, KeyOf;
  }

  lemma HandOutNoMore(dicts: map<Key, RateDict>, lines: seq<Line>, meta: map<ItemId, Meta>,
                      shared: map<TemplateId, RateDict>, n: nat)
    requires n < |lines| && HandedOut(dicts, lines, meta, shared, n)
    requires TemplateOf(meta, KeyOf(lines[n], n)).None? || KeyOf(lines[n], n) in dicts
    ensures HandedOut(dicts, lines, meta, shared, n + 1)
  {
    hide TemplateOf, KeyOf;
  }

  // What the dictionaries handed out so far hold.
  ghost predicate Filled(dicts: map<Key, RateDict>, meta: map<ItemId, Meta>, templates: Templates)
    reads dicts.Values
  {
    forall k <- dicts :: dicts[k].rates == DetailsOf(meta, templates, k)
  }

  /** The dictionaries handed to the items that have a template. */
  method ItemTaxRates(lines: seq<Line>, meta: map<ItemId, Meta>, details: seq<Detail>)
    returns (dicts: map<Key, RateDict>)
    ensures Represents(dicts, TemplateRates(lines, meta, TemplatesOf(details)))
    ensures SharedBySlot(dicts, meta, TemplatesOf(details))
    ensures forall k <- dicts :: fresh(dicts[k])
  {
    hide TemplateOf, KeyOf, TemplatesOf, HandedOut, SharedBySlot;
    var shared := TemplateDicts(details);
    dicts := map[];
    NothingHandedOut(lines, meta, shared);
    for i := 0 to |lines|
      invariant HandedOut(dicts, lines, meta, shared, i)
      invariant forall k <- dicts :: fresh(dicts[k])
      invariant forall t <- shared :: shared[t].rates == TemplatesOf(details)[t]
      invariant Filled(dicts, meta, TemplatesOf(details))
    {
      var key := KeyOf(lines[i], i);
      var template := TemplateOf(meta, key);
      if template.Some? && key !in dicts {
        var dict := DictFor(shared, template.value);
        HandOutOneMore(dicts, lines, meta, shared, i, dict);
        dicts := dicts[key := dict];
      } else {
        HandOutNoMore(dicts, lines, meta, shared, i);
      }
    }
    SlotsOfHandedOut(dicts, lines, meta, shared, TemplatesOf(details));
  }

  lemma NothingHandedOut(lines: seq<Line>, meta: map<ItemId, Meta>, shared: map<TemplateId, RateDict>)
    ensures HandedOut(map[], lines, meta, shared, 0)
  {
  }

  lemma SlotsOfHandedOut(dicts: map<Key, RateDict>, lines: seq<Line>, meta: map<ItemId, Meta>,
                         shared: map<TemplateId, RateDict>, templates: Templates)
    requires HandedOut(dicts, lines, meta, shared, |lines|) && shared.Keys == templates.Keys
    requires forall t, u :: t in shared && u in shared && shared[t] == shared[u] ==> t == u
    ensures SharedBySlot(dicts, meta, templates)
    ensures dicts.Keys == TemplateKeys(lines, meta, |lines|)
  {
    hide TemplateOf, TemplateKeys;
  }

  lemma OwnIsAlone(meta: map<ItemId, Meta>, templates: Templates, x: Key, k: Key)
    requires SlotOf(meta, templates, x) == Own(k)
    ensures x == k
  {
  }

  lemma WrittenToNew(r: Rates, meta: map<ItemId, Meta>, templates: Templates, k: Key, heads: map<AccountId, real>)
    ensures k !in r ==>
      Written(r[k := map[]], meta, templates, k, heads) == Written(r, meta, templates, k, heads)
  {
  }

  // A new dictionary for a key that has none.
  method SetDefault(dicts: map<Key, RateDict>, k: Key,
                    ghost r: Rates, ghost meta: map<ItemId, Meta>, ghost templates: Templates)
    returns (merged: map<Key, RateDict>)
    requires Represents(dicts, r) && SharedBySlot(dicts, meta, templates)
    requires k !in dicts && SlotOf(meta, templates, k) == Own(k)
    ensures Represents(merged, r[k := map[]]) && SharedBySlot(merged, meta, templates)
    ensures fresh(merged[k]) && merged == dicts[k := merged[k]]
  {
    var dict := new RateDict(map[]);
    merged := dicts[k := dict];
    forall x | x in dicts
      ensures SlotOf(meta, templates, x) != SlotOf(meta, templates, k)
    {
      if SlotOf(meta, templates, x) == Own(k) {
        OwnIsAlone(meta, templates, x, k);
      }
    }
    hide SlotOf;
  }

  // The update is seen by every key that has the dictionary.
  method Update(dicts: map<Key, RateDict>, k: Key, heads: map<AccountId, real>,
                ghost r: Rates, ghost meta: map<ItemId, Meta>, ghost templates: Templates)
    requires Represents(dicts, r) && SharedBySlot(dicts, meta, templates) && k in dicts
    modifies dicts[k]
    ensures Represents(dicts, Written(r, meta, templates, k, heads))
  {
    hide SlotOf;
    dicts[k].rates := dicts[k].rates + heads;
  }

  // One override: a key without a dictionary gets a new one.
  method WriteOverride(dicts: map<Key, RateDict>, k: Key, heads: map<AccountId, real>,
                       ghost r: Rates, ghost meta: map<ItemId, Meta>, ghost templates: Templates)
    returns (merged: map<Key, RateDict>)
    requires Represents(dicts, r) && SharedBySlot(dicts, meta, templates)
    requires k !in dicts ==> SlotOf(meta, templates, k) == Own(k)
    modifies dicts.Values
    ensures Represents(merged, Written(r, meta, templates, k, heads))
    ensures SharedBySlot(merged, meta, templates)
    ensures forall x <- dicts :: x in merged
    ensures forall x <- merged :: if x in dicts then merged[x] == dicts[x] else fresh(merged[x])
  {
    assert Represents(dicts, r) ==> dicts.Keys == r.Keys;
    hide Represents, SharedBySlot, SlotOf, Written;
    merged := dicts;
    if k in dicts {
      Update(dicts, k, heads, r, meta, templates);
    } else {
      WrittenToNew(r, meta, templates, k, heads);
      merged := SetDefault(dicts, k, r, meta, templates);
      Update(merged, k, heads, r[k := map[]], meta, templates);
    }
  }

  /** Writes the overrides in their order. */
  method MergeOverrides(dicts: map<Key, RateDict>, order: seq<Key>, over: Rates,
                        ghost r: Rates, ghost meta: map<ItemId, Meta>, ghost templates: Templates)
    returns (merged: map<Key, RateDict>)
    requires Represents(dicts, r) && SharedBySlot(dicts, meta, templates)
    requires forall k <- order :: k in over && (k !in dicts ==> SlotOf(meta, templates, k) == Own(k))
    modifies dicts.Values
    ensures Represents(merged, MergedRates(r, meta, templates, order, over))
    ensures SharedBySlot(merged, meta, templates)
    ensures forall k <- merged :: if k in dicts then merged[k] == dicts[k] else fresh(merged[k])
  {
    hide Represents, SharedBySlot, SlotOf, Written;
    merged := dicts;
    for i := 0 to |order|
      invariant Represents(merged, MergedRates(r, meta, templates, order[..i], over))
      invariant SharedBySlot(merged, meta, templates)
      invariant forall k <- dicts :: k in merged
      invariant forall k <- merged :: if k in dicts then merged[k] == dicts[k] else fresh(merged[k])
    {
      ghost var before := MergedRates(r, meta, templates, order[..i], over);
      assert order[..i+1][..i] == order[..i];
      assert order[i] in order;
      merged := WriteOverride(merged, order[i], over[order[i]], before, meta, templates);
    }
    assert order[..|order|] == order;
  }

  // --- One document ---

  datatype Doc = Doc(lines: seq<Line>, meta: map<ItemId, Meta>, rates: map<string, real>, inter: bool,
                     accounts: Accounts, details: seq<Detail>)

  function TemplateRatesOf(d: Doc): Rates {
    TemplateRates(d.lines, d.meta, TemplatesOf(d.details))
  }

  function OrderOf(d: Doc, keepTemplates: bool): seq<Key> {
    Order(d.lines, d.meta, keepTemplates, |d.lines|)
  }

  function TotalsOf(d: Doc, keepTemplates: bool): map<Key, real> {
    Totals(d.lines, d.meta, d.rates, keepTemplates, |d.lines|)
  }

  function MergedOf(d: Doc, keepTemplates: bool, over: Rates): Rates {
    MergedRates(TemplateRatesOf(d), d.meta, TemplatesOf(d.details), OrderOf(d, keepTemplates), over)
  }

  function SlotIn(d: Doc, k: Key): Slot {
    SlotOf(d.meta, TemplatesOf(d.details), k)
  }

  // The rate that the tax engine uses for a line and a row.
  function RateAt(merged: Rates, k: Key, row: TaxRow): real {
    if row.account in At(merged, k) then At(merged, k)[row.account] else row.rate
  }

  // All overrides of a document are for the accounts of its heads.
  lemma {:induction false} HeadRatesKeys(total: real, heads: seq<Head>)
    ensures HeadRates(total, heads).Keys == set h <- heads :: h.account
  {
    if heads != [] {
      var front, last := heads[..|heads|-1], heads[|heads|-1];
      HeadRatesKeys(total, front);
      assert heads == front + [last];
    }
  }

  // What a key ends with, whichever of the two derivations made the overrides.
  lemma MergedOfDoc(d: Doc, keepTemplates: bool, heads: seq<Head>, k: Key)
    ensures var over := Overrides(TotalsOf(d, keepTemplates), heads);
      var merged, r := MergedOf(d, keepTemplates, over), TemplateRatesOf(d);
      var w := LastSharer(d.meta, TemplatesOf(d.details), OrderOf(d, keepTemplates), k);
      && (k in merged <==> k in r || k in TotalsOf(d, keepTemplates))
      && (k in merged ==> merged[k] == Topped(r, over, w, k))
      && (w.Some? ==> w.value in TotalsOf(d, keepTemplates) && SlotIn(d, w.value) == SlotIn(d, k))
      && (k in TotalsOf(d, keepTemplates) ==> w.Some?)
  {
    hide Topped, SlotOf, MergedRates, Coherent, TemplatesOf, HeadRates;
    var over, order := Overrides(TotalsOf(d, keepTemplates), heads), OrderOf(d, keepTemplates);
    TemplateRatesCoherent(d.lines, d.meta, TemplatesOf(d.details), keepTemplates);
    OrderHasTotals(d.lines, d.meta, d.rates, keepTemplates, |d.lines|);
    forall x | x in order
      ensures At(over, x).Keys == set h <- heads :: h.account
    {
      HeadRatesKeys(TotalsOf(d, keepTemplates)[x], heads);
    }
    MergedIsLast(TemplateRatesOf(d), d.meta, TemplatesOf(d.details), order, over, set h <- heads :: h.account, k);
  }

  // --- Lines without a code ---

  // A free-text line without a code of its own has no rates in either derivation.
  lemma FreeTextWithoutCode(d: Doc, keepTemplates: bool, heads: seq<Head>, i: nat)
    requires i < |d.lines| && d.lines[i].item.None? && d.lines[i].hsn == ""
    ensures KeyOf(d.lines[i], i) !in MergedOf(d, keepTemplates, Overrides(TotalsOf(d, keepTemplates), heads))
  {
    hide MergedOf, Overrides;
    var k := KeyOf(d.lines[i], i);
    MergedOfDoc(d, keepTemplates, heads, k);
    TemplateKeysMean(d.lines, d.meta, |d.lines|, k);
    TotalsAreLast(d.lines, d.meta, d.rates, keepTemplates, |d.lines|, k);
  }

  /** So it is taxed at the header rate of every row, and left untaxed if and only if that is 0:
      unless the lines agree on one positive rate for the account. */
  lemma FreeTextUntaxedIff(d: Doc, keepTemplates: bool, heads: seq<Head>, i: nat, account: AccountId, deduct: bool)
    requires i < |d.lines| && d.lines[i].item.None? && d.lines[i].hsn == ""
    ensures var over := Overrides(TotalsOf(d, keepTemplates), heads);
      var row := TaxRow(account, RowRate(d.lines, account, over, TemplateRatesOf(d)), deduct);
      var rate := RateAt(MergedOf(d, keepTemplates, over), KeyOf(d.lines[i], i), row);
      && rate == row.rate
      && (rate == 0.0 <==> forall v :: RateSet(d.lines, account, over, TemplateRatesOf(d), |d.lines|) != {v})
  {
    hide MergedOf, Overrides, RateSet;
    FreeTextWithoutCode(d, keepTemplates, heads, i);
    var over := Overrides(TotalsOf(d, keepTemplates), heads);
    RateSetPositive(d.lines, account, over, TemplateRatesOf(d), |d.lines|);
    SoleZeroIff(RateSet(d.lines, account, over, TemplateRatesOf(d), |d.lines|));
  }

  lemma {:induction false} RateSetPositive(lines: seq<Line>, account: AccountId, over: Rates, existing: Rates, n: nat)
    requires n <= |lines|
    ensures forall x <- RateSet(lines, account, over, existing, n) :: x > 0.0
  {
    hide Given;
    if n > 0 {
      RateSetPositive(lines, account, over, existing, n - 1);
    }
  }

  lemma SoleZeroIff(vals: set<real>)
    requires forall x <- vals :: x > 0.0
    ensures Sole(vals) == 0.0 <==> forall v :: vals != {v}
  {
    if v :| vals == {v} {
      assert v in vals;
      assert Sole(vals) in {v};
    }
  }

  // --- Derived GST: the merge leaves templates alone ---

  function AutoHeadsOf(d: Doc, isSales: bool): Option<seq<Head>> {
    AutoHeads(isSales, d.inter, d.accounts)
  }

  // Derived overrides are for keys without a template, which share nothing.
  lemma AutoKeys(d: Doc, k: Key)
    ensures k in TotalsOf(d, true) ==> TemplateOf(d.meta, k).None? && k !in TemplateRatesOf(d)
    ensures LastSharer(d.meta, TemplatesOf(d.details), OrderOf(d, true), k) == if k in TotalsOf(d, true) then Some(k) else None
  {
    hide Order, TemplatesOf, Totals;
    var order, templates := OrderOf(d, true), TemplatesOf(d.details);
    OrderHasTotals(d.lines, d.meta, d.rates, true, |d.lines|);
    TemplateKeysMean(d.lines, d.meta, |d.lines|, k);
    forall x | x in order
      ensures TemplateOf(d.meta, x).None?
    {
      OrderIsOfLines(d.lines, d.meta, true, |d.lines|, x);
    }
    hide TemplateOf;
    var w := LastSharer(d.meta, templates, order, k);
    if w.Some? {
      OwnIsAlone(d.meta, templates, k, w.value);
    }
  }

  /** After derived GST is merged, an item with a template keeps the rates of the template, every
      other rated line has its override, and all other lines have no rates. */
  lemma AutoMerged(d: Doc, heads: seq<Head>, k: Key)
    ensures var over := Overrides(TotalsOf(d, true), heads);
      var merged := MergedOf(d, true, over);
      && (k in TemplateRatesOf(d) ==> k in merged && merged[k] == TemplateRatesOf(d)[k])
      && (k in TotalsOf(d, true) ==> k in merged && merged[k] == over[k])
      && (k !in TemplateRatesOf(d) && k !in TotalsOf(d, true) ==> k !in merged)
  {
    hide MergedOf, TotalsOf, TemplateRatesOf, LastSharer, OrderOf;
    AutoKeys(d, k);
    MergedOfDoc(d, true, heads, k);
    var over, r := Overrides(TotalsOf(d, true), heads), TemplateRatesOf(d);
    if k in r {
      ToppedByNone(r, over, k);
    }
    if k in TotalsOf(d, true) {
      assert map[] + over[k] == over[k];
    }
  }

  // --- The whole resolution of rows and rates ---

  function Snapshot(dicts: map<Key, RateDict>): (r: Rates)
    reads dicts.Values
    ensures Represents(dicts, r)
  {
    map k | k in dicts :: dicts[k].rates
  }

  // The overrides of a derivation, written into the dictionaries of its document.
  method MergeInto(dicts: map<Key, RateDict>, order: seq<Key>, over: Rates, ghost d: Doc, ghost keepTemplates: bool)
    returns (merged: map<Key, RateDict>)
    requires Represents(dicts, TemplateRatesOf(d)) && SharedBySlot(dicts, d.meta, TemplatesOf(d.details))
    requires order == OrderOf(d, keepTemplates) && over.Keys == TotalsOf(d, keepTemplates).Keys
    modifies dicts.Values
    ensures Represents(merged, MergedOf(d, keepTemplates, over))
  {
    ghost var templates := TemplatesOf(d.details);
    TemplateRatesCoherent(d.lines, d.meta, templates, keepTemplates);
    OrderHasTotals(d.lines, d.meta, d.rates, keepTemplates, |d.lines|);
    hide SlotOf, Order, Totals, TemplatesOf, SharedBySlot, MergedRates;
    merged := MergeOverrides(dicts, order, over, TemplateRatesOf(d), d.meta, templates);
  }
}
