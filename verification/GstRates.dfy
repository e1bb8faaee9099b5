/** GST derived from invoice lines: HSN rates, the split over tax accounts, and the
    reverse-charge rows that are meant to cancel out. */
module GstRates {
  import opened Prelude
  import opened Rounding
  import opened Texts

  type ItemId = nat
  type AccountId = nat
  type TemplateId = nat

  // A document line; an empty code stands for none.
  datatype Line = Line(item: Option<ItemId>, hsn: string)

  // What the item master knows.
  datatype Meta = Meta(hsn: string, treatment: string, template: Option<TemplateId>)

  datatype Key = Master(item: ItemId) | FreeText(index: nat)

  datatype Head = Head(account: AccountId, share: real)

  datatype TaxRow = TaxRow(account: AccountId, rate: real, deduct: bool)

  type Rates = map<Key, map<AccountId, real>>

  // --- HSN rates ---

  // One group of the reference table: a code, one of its rates, and how many rows share it.
  datatype HsnRow = HsnRow(code: string, rate: real, count: nat)

  predicate Beats(a: HsnRow, b: HsnRow) {
    a.count > b.count || (a.count == b.count && a.rate > b.rate)
  }

  ghost predicate IsBest(rows: seq<HsnRow>, row: HsnRow) {
    row in rows && forall r <- rows :: r.code == row.code ==> !Beats(r, row)
  }

  // The rate of a code is that of its most frequent group, the higher rate on a tie.
  ghost predicate AreHsnRates(rows: seq<HsnRow>, codes: set<string>, rates: map<string, real>) {
    && (forall c :: c in rates <==> c in codes && exists r <- rows :: r.code == c)
    && (forall c <- rates :: exists r :: IsBest(rows, r) && r.code == c && r.rate == rates[c])
  }

  ghost predicate AreBest(rows: seq<HsnRow>, codes: set<string>, best: map<string, HsnRow>) {
    && (forall c :: c in best <==> c in codes && exists r <- rows :: r.code == c)
    && (forall c <- best :: best[c].code == c && IsBest(rows, best[c]))
  }

  lemma OneMoreGroup(front: seq<HsnRow>, row: HsnRow, codes: set<string>, best: map<string, HsnRow>)
    requires AreBest(front, codes, best)
    ensures AreBest(front + [row], codes,
                    if row.code in codes && (row.code !in best || Beats(row, best[row.code]))
                    then best[row.code := row] else best)
  {
    assert forall r :: r in front + [row] <==> r in front || r == row;
  }

  method HsnRates(rows: seq<HsnRow>, codes: set<string>) returns (rates: map<string, real>)
    ensures AreHsnRates(rows, codes, rates)
  {
    var best: map<string, HsnRow> := map[];
    for i := 0 to |rows|
      invariant AreBest(rows[..i], codes, best)
    {
      hide AreBest, IsBest;
      var row := rows[i];
      assert rows[..i+1] == rows[..i] + [row];
      OneMoreGroup(rows[..i], row, codes, best);
      if row.code in codes && (row.code !in best || Beats(row, best[row.code])) {
        best := best[row.code := row];
      }
    }
    assert rows[..|rows|] == rows;
    rates := map c | c in best :: best[c].rate;
    forall c | c in rates
      ensures exists r :: IsBest(rows, r) && r.code == c && r.rate == rates[c]
    {
      assert IsBest(rows, best[c]);
    }
  }

  /** The chosen rates do not depend on the order in which the groups arrive. */
  lemma HsnRatesIgnoreOrder(rows: seq<HsnRow>, rows': seq<HsnRow>, codes: set<string>,
                            rates: map<string, real>, rates': map<string, real>)
    requires multiset(rows) == multiset(rows')
    requires AreHsnRates(rows, codes, rates) && AreHsnRates(rows', codes, rates')
    ensures rates == rates'
  {
    forall r
      ensures r in rows <==> r in rows'
    {
      assert r in rows <==> r in multiset(rows);
      assert r in rows' <==> r in multiset(rows');
    }
    forall c
      ensures c in rates <==> c in rates'
    {
      assert (exists r <- rows :: r.code == c) <==> (exists r <- rows' :: r.code == c);
    }
    forall c | c in rates
      ensures rates[c] == rates'[c]
    {
      hide Beats;
      BestIsUnique(rows, rows', c, rates[c], rates'[c]);
    }
  }

  lemma BestIsUnique(rows: seq<HsnRow>, rows': seq<HsnRow>, c: string, x: real, y: real)
    requires forall r :: r in rows <==> r in rows'
    requires exists r :: IsBest(rows, r) && r.code == c && r.rate == x
    requires exists r :: IsBest(rows', r) && r.code == c && r.rate == y
    ensures x == y
  {
    var a :| IsBest(rows, a) && a.code == c && a.rate == x;
    var b :| IsBest(rows', b) && b.code == c && b.rate == y;
    assert !Beats(a, b) && !Beats(b, a);
  }

  // --- Lines ---

  function KeyOf(line: Line, index: nat): Key {
    if line.item.Some? then Master(line.item.value) else FreeText(index)
  }

  function MetaOf(line: Line, meta: map<ItemId, Meta>): Option<Meta> {
    if line.item.Some? && line.item.value in meta then Some(meta[line.item.value]) else None
  }

  function EffectiveHsn(line: Line, m: Option<Meta>): string {
    if line.hsn != "" then line.hsn else if m.Some? then m.value.hsn else ""
  }

  datatype Treated = Treated(hsn: string, treatment: string)

  function TreatmentOf(line: Line, m: Option<Meta>): Option<Treated> {
    if m.Some? then Some(Treated(EffectiveHsn(line, m), m.value.treatment))
    else if line.hsn != "" then Some(Treated(line.hsn, "Taxable"))
    else None
  }

  function HsnRate(t: Treated, rates: map<string, real>): (r: real)
    ensures r >= 0.0
  {
    if t.treatment == "Taxable" && t.hsn in rates && rates[t.hsn] > 0.0 then rates[t.hsn] else 0.0
  }

  // Lines that receive an explicit rate; where templates matter, those keep their own.
  predicate Rated(line: Line, meta: map<ItemId, Meta>, keepTemplates: bool) {
    var m := MetaOf(line, meta);
    TreatmentOf(line, m).Some? && !(keepTemplates && m.Some? && m.value.template.Some?)
  }

  function RateOf(line: Line, meta: map<ItemId, Meta>, rates: map<string, real>): (r: real)
    requires TreatmentOf(line, MetaOf(line, meta)).Some?
    ensures r >= 0.0
  {
    HsnRate(TreatmentOf(line, MetaOf(line, meta)).value, rates)
  }

  // Rates by key over the first n lines; a later line of the same key overwrites.
  function Totals(lines: seq<Line>, meta: map<ItemId, Meta>, rates: map<string, real>, keepTemplates: bool, n: nat)
    : map<Key, real>
    requires n <= |lines|
  {
    if n == 0 then map[]
    else
      var before := Totals(lines, meta, rates, keepTemplates, n - 1);
      var line := lines[n-1];
      if Rated(line, meta, keepTemplates) then before[KeyOf(line, n - 1) := RateOf(line, meta, rates)] else before
  }

  // The last rated line of a key among the first n.
  ghost predicate LastOfKey(lines: seq<Line>, meta: map<ItemId, Meta>, keepTemplates: bool, n: nat, k: Key, i: nat)
    requires n <= |lines|
  {
    && i < n && KeyOf(lines[i], i) == k && Rated(lines[i], meta, keepTemplates)
    && forall j | i < j < n && KeyOf(lines[j], j) == k :: !Rated(lines[j], meta, keepTemplates)
  }

  lemma {:induction false} TotalsAreLast(lines: seq<Line>, meta: map<ItemId, Meta>, rates: map<string, real>,
                                         keepTemplates: bool, n: nat, k: Key)
    requires n <= |lines|
    ensures var totals := Totals(lines, meta, rates, keepTemplates, n);
      && (k in totals <==> exists i: nat :: LastOfKey(lines, meta, keepTemplates, n, k, i))
      && (forall i: nat | LastOfKey(lines, meta, keepTemplates, n, k, i) :: totals[k] == RateOf(lines[i], meta, rates))
  {
    if n > 0 {
      TotalsAreLast(lines, meta, rates, keepTemplates, n - 1, k);
      var totals := Totals(lines, meta, rates, keepTemplates, n);
      LastOfOneMore(lines, meta, keepTemplates, n, k);
      hide LastOfKey, Rated, RateOf, KeyOf;
      if KeyOf(lines[n-1], n - 1) == k && Rated(lines[n-1], meta, keepTemplates) {
        assert LastOfKey(lines, meta, keepTemplates, n, k, n - 1);
      } else if k in totals {
        var i: nat :| LastOfKey(lines, meta, keepTemplates, n - 1, k, i);
        assert LastOfKey(lines, meta, keepTemplates, n, k, i);
      }
    }
  }

  // The next line takes over if it is a rated line of the key.
  lemma LastOfOneMore(lines: seq<Line>, meta: map<ItemId, Meta>, keepTemplates: bool, n: nat, k: Key)
    requires 0 < n <= |lines|
    ensures forall i: nat :: LastOfKey(lines, meta, keepTemplates, n, k, i) <==>
      if KeyOf(lines[n-1], n - 1) == k && Rated(lines[n-1], meta, keepTemplates) then i == n - 1
      else LastOfKey(lines, meta, keepTemplates, n - 1, k, i)
  {
    hide Rated, KeyOf;
  }

  lemma {:induction false} TotalsNonNegative(lines: seq<Line>, meta: map<ItemId, Meta>, rates: map<string, real>,
                                             keepTemplates: bool, n: nat)
    requires n <= |lines|
    ensures forall k <- Totals(lines, meta, rates, keepTemplates, n) ::
      Totals(lines, meta, rates, keepTemplates, n)[k] >= 0.0
  {
    if n > 0 {
      TotalsNonNegative(lines, meta, rates, keepTemplates, n - 1);
    }
  }

  // Every rated line has its key among the totals.
  lemma RatedIsTotalled(lines: seq<Line>, meta: map<ItemId, Meta>, rates: map<string, real>, keepTemplates: bool,
                        n: nat, i: nat)
    requires i < n <= |lines| && Rated(lines[i], meta, keepTemplates)
    ensures KeyOf(lines[i], i) in Totals(lines, meta, rates, keepTemplates, n)
  {
    if i < n - 1 {
      RatedIsTotalled(lines, meta, rates, keepTemplates, n - 1, i);
    }
  }

  // The keys of the rated lines among the first n, each where it occurs first.
  function Order(lines: seq<Line>, meta: map<ItemId, Meta>, keepTemplates: bool, n: nat): (r: seq<Key>)
    requires n <= |lines|
    ensures forall i, j | 0 <= i < j < |r| :: r[i] != r[j]
  {
    if n == 0 then []
    else
      var before := Order(lines, meta, keepTemplates, n - 1);
      var k := KeyOf(lines[n-1], n - 1);
      if Rated(lines[n-1], meta, keepTemplates) && k !in before then before + [k] else before
  }

  lemma {:induction false} OrderHasTotals(lines: seq<Line>, meta: map<ItemId, Meta>, rates: map<string, real>,
                                          keepTemplates: bool, n: nat)
    requires n <= |lines|
    ensures forall k :: k in Order(lines, meta, keepTemplates, n) <==> k in Totals(lines, meta, rates, keepTemplates, n)
  {
    hide Rated, RateOf;
    if n > 0 {
      OrderHasTotals(lines, meta, rates, keepTemplates, n - 1);
    }
  }

  // A dictionary keeps its keys in the order in which they were first stored.
  method CollectTotals(lines: seq<Line>, meta: map<ItemId, Meta>, table: seq<HsnRow>, keepTemplates: bool)
    returns (totals: map<Key, real>, order: seq<Key>, hasTemplate: bool, rates: map<string, real>)
    ensures AreHsnRates(table, TaxableCodes(lines, meta, |lines|), rates)
    ensures totals == Totals(lines, meta, rates, keepTemplates, |lines|)
    ensures order == Order(lines, meta, keepTemplates, |lines|)
    ensures hasTemplate <==> keepTemplates && exists i | 0 <= i < |lines| ::
      MetaOf(lines[i], meta).Some? && MetaOf(lines[i], meta).value.template.Some?
  {
    hide AreHsnRates, EffectiveHsn;
    var codes: set<string> := {};
    for i := 0 to |lines|
      invariant codes == TaxableCodes(lines, meta, i)
    {
      var t := TreatmentOf(lines[i], MetaOf(lines[i], meta));
      if t.Some? && t.value.treatment == "Taxable" && t.value.hsn != "" {
        codes := codes + {t.value.hsn};
      }
    }
    var found := HsnRates(table, codes);
    rates := found;
    totals, order := map[], [];
    hasTemplate := false;
    for i := 0 to |lines|
      invariant totals == Totals(lines, meta, rates, keepTemplates, i)
      invariant order == Order(lines, meta, keepTemplates, i)
      invariant hasTemplate <==> keepTemplates && exists j | 0 <= j < i ::
        MetaOf(lines[j], meta).Some? && MetaOf(lines[j], meta).value.template.Some?
    {
      var m := MetaOf(lines[i], meta);
      var t := TreatmentOf(lines[i], m);
      if t.None? {
        continue;
      }
      if keepTemplates && m.Some? && m.value.template.Some? {
        hasTemplate := true;
        continue;
      }
      var rate := 0.0;
      if t.value.treatment == "Taxable" && t.value.hsn in found && found[t.value.hsn] > 0.0 {
        rate := found[t.value.hsn];
      }
      OrderHasTotals(lines, meta, rates, keepTemplates, i);
      if KeyOf(lines[i], i) !in totals {
        order := order + [KeyOf(lines[i], i)];
      }
      totals := totals[KeyOf(lines[i], i) := rate];
    }
  }

  function TaxableCodes(lines: seq<Line>, meta: map<ItemId, Meta>, n: nat): set<string>
    requires n <= |lines|
  {
    if n == 0 then {}
    else
      var t := TreatmentOf(lines[n-1], MetaOf(lines[n-1], meta));
      TaxableCodes(lines, meta, n - 1)
      + if t.Some? && t.value.treatment == "Taxable" && t.value.hsn != "" then {t.value.hsn} else {}
  }

  // --- Overrides per head ---

  // Rates by account, a later head of the same account overwriting.
  function HeadRates(total: real, heads: seq<Head>): map<AccountId, real> {
    if heads == [] then map[]
    else
      var last := heads[|heads|-1];
      HeadRates(total, heads[..|heads|-1])[last.account := Scaled(total, last.share)]
  }

  function Overrides(totals: map<Key, real>, heads: seq<Head>): Rates {
    map k | k in totals :: HeadRates(totals[k], heads)
  }

  function Given(lines: seq<Line>, i: nat, account: AccountId, over: Rates, existing: Rates): Option<real>
    requires i < |lines|
  {
    var k := KeyOf(lines[i], i);
    if k in over && account in over[k] then Some(over[k][account])
    else if k in existing && account in existing[k] then Some(existing[k][account])
    else None
  }

  // The positive rates that the first n lines give an account.
  function RateSet(lines: seq<Line>, account: AccountId, over: Rates, existing: Rates, n: nat): set<real>
    requires n <= |lines|
  {
    if n == 0 then {}
    else
      var r := Given(lines, n - 1, account, over, existing);
      RateSet(lines, account, over, existing, n - 1)
      + if r.Some? && r.value > 0.0 then {r.value} else {}
  }

  // The only member of a set, 0 when there is none or more than one.
  ghost function Sole(s: set<real>): real {
    if v :| s == {v} then v else 0.0
  }

  ghost function RowRate(lines: seq<Line>, account: AccountId, over: Rates, existing: Rates): real {
    Sole(RateSet(lines, account, over, existing, |lines|))
  }

  lemma NoRatesYet(lines: seq<Line>, account: AccountId, over: Rates, existing: Rates)
    ensures RateSet(lines, account, over, existing, 0) == {}
    ensures RowRate(lines, account, over, existing) == Sole(RateSet(lines, account, over, existing, |lines|))
  {
  }

  lemma OneMoreRate(lines: seq<Line>, account: AccountId, over: Rates, existing: Rates, n: nat)
    requires n < |lines|
    ensures var r := Given(lines, n, account, over, existing);
      RateSet(lines, account, over, existing, n + 1) ==
        RateSet(lines, account, over, existing, n) + if r.Some? && r.value > 0.0 then {r.value} else {}
  {
  }

  method ComputeRowRate(lines: seq<Line>, account: AccountId, over: Rates, existing: Rates) returns (rate: real)
    ensures rate == RowRate(lines, account, over, existing)
  {
    hide *;
    var vals: set<real> := {};
    ghost var some := 0.0;
    NoRatesYet(lines, account, over, existing);
    for i := 0 to |lines|
      invariant vals == RateSet(lines, account, over, existing, i)
      invariant vals == {} || some in vals
    {
      OneMoreRate(lines, account, over, existing, i);
      var r := Given(lines, i, account, over, existing);
      if r.Some? && r.value > 0.0 {
        vals := vals + {r.value};
        some := r.value;
      }
    }
    SoleIs(vals, some);
    rate := 0.0;
    if |vals| == 1 {
      assert some in vals;
      var v :| v in vals;
      rate := v;
    }
  }

  lemma SoleIs(vals: set<real>, some: real)
    requires vals == {} || some in vals
    ensures Sole(vals) == if |vals| == 1 then some else 0.0
    ensures |vals| == 1 ==> vals == {some}
  {
    SoleBySize(vals, some);
    if |vals| == 1 {
      assert vals == {some};
      assert Sole(vals) in {some};
    }
  }

  lemma SoleBySize(vals: set<real>, some: real)
    requires vals == {} || some in vals
    ensures |vals| == 1 ==> vals == {some}
    ensures |vals| != 1 ==> forall v :: vals != {v}
  {
    if vals != {} {
      assert vals == {some} + (vals - {some});
      assert |vals| == 1 + |vals - {some}|;
      if |vals| != 1 {
        forall v
          ensures vals != {v}
        {
          assert |{v}| == 1;
        }
      }
    } else {
      forall v
        ensures vals != {v}
      {
        assert v in {v};
      }
    }
  }

  // --- Where a supply takes place ---

  // The state code that a registration number of 15 characters starts with.
  function GstinState(value: string): Option<string> {
    var s := Strip(value);
    if |s| == 15 && AllDigits(s[..2]) then Some(s[..2]) else None
  }

  // The party's registration decides, then the place of supply.
  function PartyState(gstin: string, place: string): Option<string> {
    var code := if |place| < 2 then place else place[..2];
    if GstinState(gstin).Some? then GstinState(gstin) else if code != "" && AllDigits(code) then Some(code) else None
  }

  // The names that a document gives for both sides; an empty text stands for none.
  datatype Sides = Sides(company: string, party: string, place: string)

  predicate Interstate(d: Sides) {
    GstinState(d.company).Some? && PartyState(d.party, d.place).Some?
    && GstinState(d.company) != PartyState(d.party, d.place)
  }

  // --- The tax accounts, found by name ---

  datatype TaxAccount = TaxAccount(id: AccountId, name: string)

  predicate Holds(name: string, parts: seq<string>) {
    forall part <- parts :: Contains(name, part)
  }

  // The first account, in the order of names, whose name holds all parts.
  function FindAccount(table: seq<TaxAccount>, parts: seq<string>): (r: Option<AccountId>)
    ensures r.None? ==> forall t <- table :: !Holds(t.name, parts)
    ensures r.Some? ==> exists k | 0 <= k < |table| ::
      table[k].id == r.value && Holds(table[k].name, parts) && forall j | 0 <= j < k :: !Holds(table[j].name, parts)
  {
    if table == [] then None
    else if Holds(table[0].name, parts) then Some(table[0].id)
    else
      var rest := FindAccount(table[1..], parts);
      assert rest.Some? ==> forall k | 0 < k < |table| :: table[k] == table[1..][k-1];
      rest
  }

  function OutputAccount(table: seq<TaxAccount>, kind: string): Option<AccountId> {
    var output := FindAccount(table, ["Output", kind]);
    if output.Some? then output else FindAccount(table, [kind])
  }

  datatype Accounts = Accounts(input: Option<AccountId>, igst: Option<AccountId>,
                               cgst: Option<AccountId>, sgst: Option<AccountId>)

  function AccountsOf(table: seq<TaxAccount>): Accounts {
    Accounts(FindAccount(table, ["Input GST"]), OutputAccount(table, "IGST"),
             OutputAccount(table, "CGST"), OutputAccount(table, "SGST"))
  }

  // --- The two derivations ---

  // The output side: one integrated head between states, two halves within one.
  function OutputHeads(inter: bool, a: Accounts): Option<seq<Head>> {
    if inter then if a.igst.Some? then Some([Head(a.igst.value, 1.0)]) else None
    else if a.cgst.Some? && a.sgst.Some? then Some([Head(a.cgst.value, 0.5), Head(a.sgst.value, 0.5)])
    else None
  }

  function AutoHeads(isSales: bool, inter: bool, a: Accounts): Option<seq<Head>> {
    if isSales then OutputHeads(inter, a)
    else if a.input.Some? then Some([Head(a.input.value, 1.0)]) else None
  }

  predicate AnyPositive(totals: map<Key, real>) {
    exists k <- totals :: totals[k] > 0.0
  }

  ghost function RowsFor(lines: seq<Line>, heads: seq<Head>, deduct: bool, over: Rates, existing: Rates): seq<TaxRow> {
    seq(|heads|, j requires 0 <= j < |heads| =>
      TaxRow(heads[j].account, RowRate(lines, heads[j].account, over, existing), deduct))
  }

  method BuildRows(lines: seq<Line>, heads: seq<Head>, deduct: bool, over: Rates, existing: Rates)
    returns (rows: seq<TaxRow>)
    ensures rows == RowsFor(lines, heads, deduct, over, existing)
  {
    rows := [];
    for j := 0 to |heads|
      invariant rows == RowsFor(lines, heads, deduct, over, existing)[..j]
    {
      var rate := ComputeRowRate(lines, heads[j].account, over, existing);
      rows := rows + [TaxRow(heads[j].account, rate, deduct)];
    }
  }

  method AutoGst(lines: seq<Line>, meta: map<ItemId, Meta>, table: seq<HsnRow>, sides: Sides, isSales: bool,
                 chart: seq<TaxAccount>, existing: Rates)
    returns (rows: seq<TaxRow>, over: Rates, order: seq<Key>, rates: map<string, real>)
    ensures AreHsnRates(table, TaxableCodes(lines, meta, |lines|), rates)
    ensures rows != [] ==> AutoHeads(isSales, Interstate(sides), AccountsOf(chart)).Some?
    ensures rows != [] ==>
      var heads := AutoHeads(isSales, Interstate(sides), AccountsOf(chart)).value;
      && over == Overrides(Totals(lines, meta, rates, true, |lines|), heads)
      && rows == RowsFor(lines, heads, false, over, existing)
    ensures rows == [] ==> over == map[]
    ensures rows != [] ==> order == Order(lines, meta, true, |lines|)
    ensures rows == [] <==>
      AutoHeads(isSales, Interstate(sides), AccountsOf(chart)).None?
      || (!AnyPositive(Totals(lines, meta, rates, true, |lines|))
          && forall i | 0 <= i < |lines| ::
               !(MetaOf(lines[i], meta).Some? && MetaOf(lines[i], meta).value.template.Some?))
  {
    hide Interstate, AccountsOf;
    var totals, hasTemplate;
    totals, order, hasTemplate, rates := CollectTotals(lines, meta, table, true);
    if !AnyPositive(totals) && !hasTemplate {
      return [], map[], [], rates;
    }
    var heads := AutoHeads(isSales, Interstate(sides), AccountsOf(chart));
    if heads.None? {
      return [], map[], [], rates;
    }
    over := Overrides(totals, heads.value);
    rows := BuildRows(lines, heads.value, false, over, existing);
  }

  method ReverseCharge(lines: seq<Line>, meta: map<ItemId, Meta>, table: seq<HsnRow>, sides: Sides,
                       chart: seq<TaxAccount>, existing: Rates)
    returns (rows: seq<TaxRow>, over: Rates, order: seq<Key>, rates: map<string, real>)
    ensures AreHsnRates(table, TaxableCodes(lines, meta, |lines|), rates)
    ensures rows == [] ==> over == map[]
    ensures rows != [] ==> order == Order(lines, meta, false, |lines|)
    ensures rows == [] <==>
      AccountsOf(chart).input.None? || OutputHeads(Interstate(sides), AccountsOf(chart)).None?
      || !AnyPositive(Totals(lines, meta, rates, false, |lines|))
    ensures rows != [] ==> AccountsOf(chart).input.Some? && OutputHeads(Interstate(sides), AccountsOf(chart)).Some?
    ensures rows != [] ==>
      var totals := Totals(lines, meta, rates, false, |lines|);
      var heads := OutputHeads(Interstate(sides), AccountsOf(chart)).value;
      && AnyPositive(totals)
      && over == RcmOverrides(totals, AccountsOf(chart).input.value, heads)
      && rows == RcmRows(lines, AccountsOf(chart).input.value, heads, over, existing)
  {
    hide Interstate, AccountsOf;
    var accounts := AccountsOf(chart);
    var totals, ignored;
    totals, order, ignored, rates := CollectTotals(lines, meta, table, false);
    if !AnyPositive(totals) {
      return [], map[], [], rates;
    }
    if accounts.input.None? {
      return [], map[], [], rates;
    }
    var heads := OutputHeads(Interstate(sides), accounts);
    if heads.None? {
      return [], map[], [], rates;
    }
    over := RcmOverrides(totals, accounts.input.value, heads.value);
    var add := BuildRows(lines, [Head(accounts.input.value, 1.0)], false, over, existing);
    var deduct := BuildRows(lines, heads.value, true, over, existing);
    rows := add + deduct;
  }

  // Input at the full rate first, then the output heads on top.
  function RcmOverrides(totals: map<Key, real>, input: AccountId, heads: seq<Head>): Rates {
    Overrides(totals, [Head(input, 1.0)] + heads)
  }

  ghost function RcmRows(lines: seq<Line>, input: AccountId, heads: seq<Head>, over: Rates, existing: Rates): seq<TaxRow> {
    RowsFor(lines, [Head(input, 1.0)], false, over, existing) + RowsFor(lines, heads, true, over, existing)
  }

  // --- The split preserves the rate ---

  ghost function HeadSum(m: map<AccountId, real>, heads: seq<Head>): real {
    if heads == [] then 0.0
    else
      var last := heads[|heads|-1];
      HeadSum(m, heads[..|heads|-1]) + if last.account in m then m[last.account] else 0.0
  }

  lemma SplitSums(total: real, isSales: bool, inter: bool, a: Accounts)
    requires AutoHeads(isSales, inter, a).Some?
    ensures var heads := AutoHeads(isSales, inter, a).value; HeadSum(HeadRates(total, heads), heads) == total
  {
    var heads := AutoHeads(isSales, inter, a).value;
    if |heads| == 1 {
      assert heads[..0] == [];
    } else {
      assert heads[..1] == [heads[0]] && [heads[0]][..0] == [];
      assert HeadRates(total, [heads[0]]) == map[heads[0].account := Scaled(total, 0.5)];
      var m := HeadRates(total, heads);
      assert m == HeadRates(total, [heads[0]])[heads[1].account := Scaled(total, 0.5)];
      assert HeadSum(m, []) == 0.0;
      assert HeadSum(m, [heads[0]]) == m[heads[0].account] == Scaled(total, 0.5);
      assert HeadSum(m, heads) == HeadSum(m, [heads[0]]) + m[heads[1].account];
    }
  }

  /** Over all heads the overrides of a line without a template sum to the HSN rate of the last
      such line with its key, within one state, between states and on purchases alike. */
  lemma SplitPreservesRate(lines: seq<Line>, meta: map<ItemId, Meta>, rates: map<string, real>,
                           isSales: bool, inter: bool, a: Accounts, i: nat)
    requires AutoHeads(isSales, inter, a).Some? && i < |lines| && Rated(lines[i], meta, true)
    ensures var heads := AutoHeads(isSales, inter, a).value;
      var over := Overrides(Totals(lines, meta, rates, true, |lines|), heads);
      var k := KeyOf(lines[i], i);
      && k in over
      && (exists last: nat :: LastOfKey(lines, meta, true, |lines|, k, last))
      && forall last: nat | LastOfKey(lines, meta, true, |lines|, k, last) ::
        HeadSum(over[k], heads) == RateOf(lines[last], meta, rates)
  {
    var k := KeyOf(lines[i], i);
    RatedIsTotalled(lines, meta, rates, true, |lines|, i);
    TotalsAreLast(lines, meta, rates, true, |lines|, k);
    SplitSums(Totals(lines, meta, rates, true, |lines|)[k], isSales, inter, a);
  }

  // What the line receives over all heads.
  ghost function Received(lines: seq<Line>, meta: map<ItemId, Meta>, rates: map<string, real>, heads: seq<Head>, i: nat): real
    requires i < |lines|
  {
    var over := Overrides(Totals(lines, meta, rates, true, |lines|), heads);
    var k := KeyOf(lines[i], i);
    if k in over then HeadSum(over[k], heads) else 0.0
  }

  // Nobody else shares the key of a free-text line, so it always receives its own rate.
  lemma FreeTextReceivesOwnRate(lines: seq<Line>, meta: map<ItemId, Meta>, rates: map<string, real>,
                                isSales: bool, inter: bool, a: Accounts, i: nat)
    requires AutoHeads(isSales, inter, a).Some? && i < |lines| && Rated(lines[i], meta, true) && lines[i].item.None?
    ensures Received(lines, meta, rates, AutoHeads(isSales, inter, a).value, i) == RateOf(lines[i], meta, rates)
  {
    hide AutoHeads, Totals, Overrides, HeadSum, RateOf;
    SplitPreservesRate(lines, meta, rates, isSales, inter, a, i);
    var last: nat :| LastOfKey(lines, meta, true, |lines|, KeyOf(lines[i], i), last);
    assert last == i;
  }

  // Rated lines of one item agree on the rate.
  ghost predicate ItemsAgree(lines: seq<Line>, meta: map<ItemId, Meta>, rates: map<string, real>) {
    forall i, j | 0 <= i < |lines| && 0 <= j < |lines| && lines[i].item.Some? && lines[i].item == lines[j].item
      && Rated(lines[i], meta, true) && Rated(lines[j], meta, true) ::
      RateOf(lines[i], meta, rates) == RateOf(lines[j], meta, rates)
  }

  /** Every line without a template receives its own HSN rate if and only if any two such lines
      of one item have the same rate. */
  lemma OwnRatesIff(lines: seq<Line>, meta: map<ItemId, Meta>, rates: map<string, real>,
                    isSales: bool, inter: bool, a: Accounts)
    requires AutoHeads(isSales, inter, a).Some?
    ensures (forall i: nat | i < |lines| && Rated(lines[i], meta, true) ::
               Received(lines, meta, rates, AutoHeads(isSales, inter, a).value, i) == RateOf(lines[i], meta, rates))
       <==> ItemsAgree(lines, meta, rates)
  {
    hide AutoHeads, Totals, Overrides, HeadSum, RateOf;
    var heads := AutoHeads(isSales, inter, a).value;
    if ItemsAgree(lines, meta, rates) {
      forall i: nat | i < |lines| && Rated(lines[i], meta, true)
        ensures Received(lines, meta, rates, heads, i) == RateOf(lines[i], meta, rates)
      {
        if lines[i].item.None? {
          FreeTextReceivesOwnRate(lines, meta, rates, isSales, inter, a, i);
        } else {
          SplitPreservesRate(lines, meta, rates, isSales, inter, a, i);
          var last: nat :| LastOfKey(lines, meta, true, |lines|, KeyOf(lines[i], i), last);
          assert lines[last].item == lines[i].item;
        }
      }
    }
    forall i: nat, j: nat | i < |lines| && j < |lines| && lines[i].item.Some? && lines[i].item == lines[j].item
      ensures Received(lines, meta, rates, heads, i) == Received(lines, meta, rates, heads, j)
    {
    }
  }

  /** Two lines of one item with codes of their own, at 5% and 18%: the first is taxed at 18%. */
  lemma FirstLineTakesSecondRate(inter: bool)
    ensures var lines := [Line(Some(7), "1001"), Line(Some(7), "1002")];
      var meta := map[7 := Meta("", "Taxable", None)];
      var rates := map["1001" := 5.0, "1002" := 18.0];
      var heads := AutoHeads(true, inter, Accounts(Some(1), Some(2), Some(3), Some(4))).value;
      && RateOf(lines[0], meta, rates) == 5.0
      && Received(lines, meta, rates, heads, 0) == 18.0
  {
    var lines := [Line(Some(7), "1001"), Line(Some(7), "1002")];
    var meta: map<ItemId, Meta> := map[7 := Meta("", "Taxable", None)];
    var rates := map["1001" := 5.0, "1002" := 18.0];
    var a := Accounts(Some(1), Some(2), Some(3), Some(4));
    SplitPreservesRate(lines, meta, rates, true, inter, a, 0);
    assert LastOfKey(lines, meta, true, 2, Master(7), 1);
    assert "1001"[3] != "1002"[3];
  }
}
