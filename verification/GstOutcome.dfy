/** What both GST derivations amount to, told from registration numbers, places, account names
    and the HSN table: who charges what, on which accounts, at which rate. */
module GstOutcome {
  import opened Prelude
  import opened Rounding
  import opened Texts
  import opened GstRates
  import opened RateDictionaries
  import opened ReverseChargeBalance
  import opened TaxResolution

  // --- Where a supply takes place ---

  // White space around it aside, the text is a number of 15 characters that begins with the two
  // digits of a state.
  ghost predicate NamesState(text: string, state: string) {
    exists before: string, rest: string, after: string ::
      && text == before + (state + rest) + after
      && AllSpaces(before) && AllSpaces(after)
      && |state| == 2 && AllDigits(state)
      && |rest| == 13 && !IsSpace(rest[12])
  }

  lemma NumberStrips(text: string, state: string)
    requires NamesState(text, state)
    ensures GstinState(text) == Some(state)
  {
    var before: string, rest: string, after: string :|
      && text == before + (state + rest) + after
      && AllSpaces(before) && AllSpaces(after)
      && |state| == 2 && AllDigits(state)
      && |rest| == 13 && !IsSpace(rest[12]);
    var body := state + rest;
    assert body[0] == state[0] && body[14] == rest[12] && body[..2] == state;
    StripOf(before, body, after);
  }

  lemma StateIsNamed(text: string)
    requires GstinState(text).Some?
    ensures NamesState(text, GstinState(text).value)
  {
    var before, after := StripParts(text);
    hide StripStart, StripEnd;
    var body := Strip(text);
    var state, rest := body[..2], body[2..];
    assert body == state + rest && rest[12] == body[14];
    assert text == before + (state + rest) + after;
  }

  lemma GstinStateMeans(text: string, state: string)
    ensures GstinState(text) == Some(state) <==> NamesState(text, state)
  {
    hide GstinState, NamesState;
    if GstinState(text).Some? {
      StateIsNamed(text);
    }
    if NamesState(text, state) {
      NumberStrips(text, state);
    }
  }

  // The state of the party: that of its registration number, and only where it names none, that
  // of the place of supply, whose first two characters have to be digits.
  ghost predicate PartyIn(party: string, place: string, state: string) {
    || NamesState(party, state)
    || ((forall s :: !NamesState(party, s))
        && state != "" && AllDigits(state) && state <= place && (|state| == 2 || (|state| < 2 && state == place)))
  }

  // Both states are known, and they differ.
  ghost predicate BetweenStates(d: Sides) {
    exists own, other :: NamesState(d.company, own) && PartyIn(d.party, d.place, other) && own != other
  }

  lemma PartyStateMeans(party: string, place: string, state: string)
    ensures PartyState(party, place) == Some(state) <==> PartyIn(party, place, state)
  {
    forall s
      ensures GstinState(party) == Some(s) <==> NamesState(party, s)
    {
      GstinStateMeans(party, s);
    }
    hide GstinState, NamesState;
    if GstinState(party).Some? {
      assert NamesState(party, GstinState(party).value);
    } else {
      var code := if |place| < 2 then place else place[..2];
      assert |state| == 2 && state <= place ==> state == place[..2];
      assert PartyIn(party, place, state) <==> state == code && code != "" && AllDigits(code);
    }
  }

  /** A supply is between states exactly when the company's number names a state and the party's
      number, or else the place of supply, names another one. */
  lemma InterstateIff(d: Sides)
    ensures Interstate(d) <==> BetweenStates(d)
  {
    hide GstinState, PartyState, NamesState, PartyIn;
    forall s
      ensures GstinState(d.company) == Some(s) <==> NamesState(d.company, s)
      ensures PartyState(d.party, d.place) == Some(s) <==> PartyIn(d.party, d.place, s)
    {
      GstinStateMeans(d.company, s);
      PartyStateMeans(d.party, d.place, s);
    }
    if Interstate(d) {
      var own, other := GstinState(d.company).value, PartyState(d.party, d.place).value;
      assert NamesState(d.company, own) && PartyIn(d.party, d.place, other);
    }
  }

  // A number names one state at most, so the party's number prevails over any place.
  lemma PartyNumberPrevails(d: Sides, own: string, other: string)
    requires NamesState(d.company, own) && NamesState(d.party, other)
    ensures BetweenStates(d) <==> own != other
  {
    hide NamesState;
    forall s
      ensures NamesState(d.company, s) <==> s == own
      ensures NamesState(d.party, s) <==> s == other
    {
      GstinStateMeans(d.company, s);
      GstinStateMeans(d.company, own);
      GstinStateMeans(d.party, s);
      GstinStateMeans(d.party, other);
    }
    if own != other {
      assert PartyIn(d.party, d.place, other);
    }
  }

  // --- The accounts ---

  ghost predicate HoldsAll(name: string, parts: seq<string>) {
    forall part <- parts :: exists i: nat :: OccursAt(name, part, i)
  }

  // The first account, in the order of names, that holds all parts.
  ghost predicate FirstNamed(chart: seq<TaxAccount>, parts: seq<string>, id: AccountId) {
    exists k | 0 <= k < |chart| ::
      chart[k].id == id && HoldsAll(chart[k].name, parts) && forall j | 0 <= j < k :: !HoldsAll(chart[j].name, parts)
  }

  ghost predicate NoneNamed(chart: seq<TaxAccount>, parts: seq<string>) {
    forall t <- chart :: !HoldsAll(t.name, parts)
  }

  // An account of the kind that is named as an output one if there is any.
  ghost predicate OutputNamed(chart: seq<TaxAccount>, kind: string, id: AccountId) {
    FirstNamed(chart, ["Output", kind], id) || (NoneNamed(chart, ["Output", kind]) && FirstNamed(chart, [kind], id))
  }

  ghost predicate NoOutput(chart: seq<TaxAccount>, kind: string) {
    NoneNamed(chart, ["Output", kind]) && NoneNamed(chart, [kind])
  }

  lemma HoldsMeans(name: string, parts: seq<string>)
    ensures Holds(name, parts) <==> HoldsAll(name, parts)
  {
    hide Contains, OccursAt;
    forall part | part in parts
      ensures Contains(name, part) <==> exists i: nat :: OccursAt(name, part, i)
    {
      ContainsMeans(name, part);
    }
  }

  lemma FindAccountMeans(chart: seq<TaxAccount>, parts: seq<string>)
    ensures var r := FindAccount(chart, parts);
      if r.Some? then FirstNamed(chart, parts, r.value) && !NoneNamed(chart, parts) else NoneNamed(chart, parts)
  {
    hide Holds, HoldsAll, FindAccount;
    forall k | 0 <= k < |chart|
      ensures Holds(chart[k].name, parts) <==> HoldsAll(chart[k].name, parts)
    {
      HoldsMeans(chart[k].name, parts);
    }
  }

  lemma OutputAccountMeans(chart: seq<TaxAccount>, kind: string)
    ensures var r := OutputAccount(chart, kind);
      if r.Some? then OutputNamed(chart, kind, r.value) && !NoOutput(chart, kind) else NoOutput(chart, kind)
  {
    hide FindAccount, FirstNamed, NoneNamed;
    FindAccountMeans(chart, ["Output", kind]);
    FindAccountMeans(chart, [kind]);
  }

  // --- What the heads come to ---

  // One account takes the whole rate of every key.
  ghost predicate Whole(over: Rates, totals: map<Key, real>, account: AccountId) {
    over.Keys == totals.Keys && forall k <- totals :: over[k] == map[account := totals[k]]
  }

  // Two accounts take half the rate of every key each.
  ghost predicate Halved(over: Rates, totals: map<Key, real>, a: AccountId, b: AccountId) {
    && over.Keys == totals.Keys
    && forall k <- totals ::
      over[k].Keys == {a, b} && over[k][a] + over[k][a] == totals[k] && over[k][b] + over[k][b] == totals[k]
  }

  // The accounts that derived GST needs are missing.
  ghost predicate AutoMissing(chart: seq<TaxAccount>, sides: Sides, isSales: bool) {
    if !isSales then NoneNamed(chart, ["Input GST"])
    else if BetweenStates(sides) then NoOutput(chart, "IGST")
    else NoOutput(chart, "CGST") || NoOutput(chart, "SGST")
  }

  // One row on the input side of a purchase and for a sale between states, two for one within.
  ghost predicate AutoCharges(chart: seq<TaxAccount>, sides: Sides, isSales: bool, totals: map<Key, real>,
                              rows: seq<TaxRow>, over: Rates) {
    && (forall row <- rows :: !row.deduct)
    && if isSales && !BetweenStates(sides) then
         && |rows| == 2 && OutputNamed(chart, "CGST", rows[0].account) && OutputNamed(chart, "SGST", rows[1].account)
         && Halved(over, totals, rows[0].account, rows[1].account)
       else
         && |rows| == 1 && Whole(over, totals, rows[0].account)
         && if isSales then OutputNamed(chart, "IGST", rows[0].account)
            else FirstNamed(chart, ["Input GST"], rows[0].account)
  }

  lemma OneHead(totals: map<Key, real>, account: AccountId)
    ensures Whole(Overrides(totals, [Head(account, 1.0)]), totals, account)
  {
    forall k | k in totals
      ensures HeadRates(totals[k], [Head(account, 1.0)]) == map[account := totals[k]]
    {
      HeadRatesSnoc(totals[k], [], Head(account, 1.0));
      assert [] + [Head(account, 1.0)] == [Head(account, 1.0)];
      HalvesAddUp(totals[k]);
    }
  }

  lemma TwoHeads(totals: map<Key, real>, a: AccountId, b: AccountId)
    ensures Halved(Overrides(totals, [Head(a, 0.5), Head(b, 0.5)]), totals, a, b)
  {
    forall k | k in totals
      ensures HeadRates(totals[k], [Head(a, 0.5), Head(b, 0.5)])
           == map[a := Scaled(totals[k], 0.5), b := Scaled(totals[k], 0.5)]
    {
      HeadRatesSnoc(totals[k], [], Head(a, 0.5));
      assert [] + [Head(a, 0.5)] == [Head(a, 0.5)];
      HeadRatesSnoc(totals[k], [Head(a, 0.5)], Head(b, 0.5));
      assert [Head(a, 0.5)] + [Head(b, 0.5)] == [Head(a, 0.5), Head(b, 0.5)];
    }
    hide HeadRates, Scaled;
    forall k | k in totals
      ensures Scaled(totals[k], 0.5) + Scaled(totals[k], 0.5) == totals[k]
    {
      HalvesAddUp(totals[k]);
    }
  }

  /** Derived GST, from the registration numbers and account names: a sale within a state, or one
      whose states are not both known, is charged half the rate on the CGST and half on the SGST
      account, a sale between states the whole rate on the IGST account, a purchase the whole rate
      on the input account; nothing is deducted. It is given up exactly when an account it needs
      is missing. */
  lemma AutoOutcome(lines: seq<Line>, totals: map<Key, real>, sides: Sides, isSales: bool, chart: seq<TaxAccount>,
                    existing: Rates)
    ensures var heads := AutoHeads(isSales, Interstate(sides), AccountsOf(chart));
      && (heads.None? <==> AutoMissing(chart, sides, isSales))
      && (heads.Some? ==>
            var over := Overrides(totals, heads.value);
            AutoCharges(chart, sides, isSales, totals, RowsFor(lines, heads.value, false, over, existing), over))
  {
    var heads := AutoHeads(isSales, Interstate(sides), AccountsOf(chart));
    hide Interstate, BetweenStates, FindAccount, OutputAccount, FirstNamed, NoneNamed, OutputNamed, NoOutput,
         Whole, Halved, Overrides, RowRate;
    InterstateIff(sides);
    FindAccountMeans(chart, ["Input GST"]);
    OutputsMean(chart);
    if heads.Some? {
      if |heads.value| == 1 {
        OneHead(totals, heads.value[0].account);
      } else {
        TwoHeads(totals, heads.value[0].account, heads.value[1].account);
      }
    }
  }

  lemma OutputsMean(chart: seq<TaxAccount>)
    ensures var a := AccountsOf(chart);
      && (if a.igst.Some? then OutputNamed(chart, "IGST", a.igst.value) && !NoOutput(chart, "IGST")
          else NoOutput(chart, "IGST"))
      && (if a.cgst.Some? then OutputNamed(chart, "CGST", a.cgst.value) && !NoOutput(chart, "CGST")
          else NoOutput(chart, "CGST"))
      && (if a.sgst.Some? then OutputNamed(chart, "SGST", a.sgst.value) && !NoOutput(chart, "SGST")
          else NoOutput(chart, "SGST"))
  {
    hide FindAccount, OutputAccount, OutputNamed, NoOutput;
    OutputAccountMeans(chart, "IGST");
    OutputAccountMeans(chart, "CGST");
    OutputAccountMeans(chart, "SGST");
  }

  // --- Reverse charge ---

  ghost predicate ReverseMissing(chart: seq<TaxAccount>, sides: Sides) {
    NoneNamed(chart, ["Input GST"]) || AutoMissing(chart, sides, true)
  }

  // The account takes the whole rate of every key, or half of it.
  ghost predicate Takes(over: Rates, totals: map<Key, real>, account: AccountId, half: bool) {
    over.Keys == totals.Keys
    && forall k <- totals ::
      account in over[k] && (if half then over[k][account] + over[k][account] else over[k][account]) == totals[k]
  }

  // The input side is added first, at half the rate only if it shares its account with a half; then
  // the output side is deducted, as a sale would be charged.
  ghost predicate ReverseCharges(chart: seq<TaxAccount>, sides: Sides, totals: map<Key, real>,
                                 rows: seq<TaxRow>, over: Rates) {
    && |rows| == (if BetweenStates(sides) then 2 else 3)
    && !rows[0].deduct && (forall j | 0 < j < |rows| :: rows[j].deduct)
    && FirstNamed(chart, ["Input GST"], rows[0].account)
    && Takes(over, totals, rows[0].account, !BetweenStates(sides) && rows[0].account in {rows[1].account, rows[2].account})
    && if BetweenStates(sides) then
         OutputNamed(chart, "IGST", rows[1].account) && Takes(over, totals, rows[1].account, false)
       else
         && OutputNamed(chart, "CGST", rows[1].account) && OutputNamed(chart, "SGST", rows[2].account)
         && Takes(over, totals, rows[1].account, true) && Takes(over, totals, rows[2].account, true)
  }

  // The overrides of one key.
  lemma ReverseHeads(total: real, input: AccountId, heads: seq<Head>)
    requires (exists a :: heads == [Head(a, 1.0)]) || (exists a, b :: heads == [Head(a, 0.5), Head(b, 0.5)])
    ensures var m := HeadRates(total, [Head(input, 1.0)] + heads);
      && input in m && (forall h <- heads :: h.account in m)
      && (if |heads| == 1 then m[input] == total && m[heads[0].account] == total
          else
            && (forall h <- heads :: m[h.account] + m[h.account] == total)
            && (if input in {heads[0].account, heads[1].account} then m[input] + m[input] else m[input]) == total)
  {
    HalvesAddUp(total);
    HeadRatesSnoc(total, [], Head(input, 1.0));
    assert [] + [Head(input, 1.0)] == [Head(input, 1.0)];
    HeadRatesSnoc(total, [Head(input, 1.0)], heads[0]);
    if |heads| == 1 {
      assert [Head(input, 1.0)] + heads == [Head(input, 1.0)] + [heads[0]];
    } else {
      HeadRatesSnoc(total, [Head(input, 1.0)] + [heads[0]], heads[1]);
      assert [Head(input, 1.0)] + heads == [Head(input, 1.0)] + [heads[0]] + [heads[1]];
    }
  }

  /** Reverse charge, likewise: the input account is added at the whole rate; deducted are the IGST
      account at the whole rate between states, the CGST and SGST accounts at half of it within one. */
  lemma ReverseOutcome(lines: seq<Line>, totals: map<Key, real>, sides: Sides, chart: seq<TaxAccount>, existing: Rates)
    ensures var a := AccountsOf(chart);
      var heads := OutputHeads(Interstate(sides), a);
      && (a.input.None? || heads.None? <==> ReverseMissing(chart, sides))
      && (a.input.Some? && heads.Some? ==>
            var over := RcmOverrides(totals, a.input.value, heads.value);
            ReverseCharges(chart, sides, totals, RcmRows(lines, a.input.value, heads.value, over, existing), over))
  {
    var a := AccountsOf(chart);
    var heads := OutputHeads(Interstate(sides), a);
    hide Interstate, BetweenStates, FindAccount, OutputAccount, FirstNamed, NoneNamed, OutputNamed, NoOutput,
         HeadRates, RowRate;
    InterstateIff(sides);
    FindAccountMeans(chart, ["Input GST"]);
    OutputsMean(chart);
    if a.input.Some? && heads.Some? {
      forall k | k in totals
        ensures var m := HeadRates(totals[k], [Head(a.input.value, 1.0)] + heads.value);
          && a.input.value in m && (forall h <- heads.value :: h.account in m)
          && (if |heads.value| == 1 then m[a.input.value] == totals[k] && m[heads.value[0].account] == totals[k]
              else
                && (forall h <- heads.value :: m[h.account] + m[h.account] == totals[k])
                && (if a.input.value in {heads.value[0].account, heads.value[1].account}
                    then m[a.input.value] + m[a.input.value] else m[a.input.value]) == totals[k])
      {
        ReverseHeads(totals[k], a.input.value, heads.value);
      }
    }
  }

  // --- The rate of a line ---

  predicate Known(line: Line, meta: map<ItemId, Meta>) {
    line.item.Some? && line.item.value in meta
  }

  // Lines of known items, and free-text lines that carry a code.
  predicate CarriesGst(line: Line, meta: map<ItemId, Meta>) {
    Known(line, meta) || line.hsn != ""
  }

  predicate HasTemplate(line: Line, meta: map<ItemId, Meta>) {
    Known(line, meta) && meta[line.item.value].template.Some?
  }

  // The line's own code, or else that of its item, unless the item is not taxable.
  function TaxedCode(line: Line, meta: map<ItemId, Meta>): string {
    if Known(line, meta) && meta[line.item.value].treatment != "Taxable" then ""
    else if line.hsn != "" || !Known(line, meta) then line.hsn else meta[line.item.value].hsn
  }

  // The most frequent rate of the code, the highest of those.
  ghost predicate TableRate(table: seq<HsnRow>, code: string, rate: real) {
    exists r <- table ::
      && r.code == code && r.rate == rate
      && forall q <- table :: q.code == code ==> q.count < r.count || (q.count == r.count && q.rate <= r.rate)
  }

  // A line is charged the positive rate that its code has, and nothing without one.
  ghost predicate Charged(line: Line, meta: map<ItemId, Meta>, table: seq<HsnRow>, rate: real) {
    var code := TaxedCode(line, meta);
    if code != "" && exists x :: x > 0.0 && TableRate(table, code, x) then rate > 0.0 && TableRate(table, code, rate)
    else rate == 0.0
  }

  lemma {:induction false} CodesAreLooked(lines: seq<Line>, meta: map<ItemId, Meta>, n: nat, i: nat)
    requires i < n <= |lines| && TaxedCode(lines[i], meta) != ""
    ensures TaxedCode(lines[i], meta) in TaxableCodes(lines, meta, n)
  {
    hide TaxedCode;
    if i < n - 1 {
      CodesAreLooked(lines, meta, n - 1, i);
    } else {
      CodeOfLine(lines[i], meta);
    }
  }

  lemma {:induction false} NoEmptyCode(lines: seq<Line>, meta: map<ItemId, Meta>, n: nat)
    requires n <= |lines|
    ensures "" !in TaxableCodes(lines, meta, n)
  {
    if n > 0 {
      NoEmptyCode(lines, meta, n - 1);
    }
  }

  lemma CodeOfLine(line: Line, meta: map<ItemId, Meta>)
    ensures var t := TreatmentOf(line, MetaOf(line, meta));
      && (t.Some? <==> CarriesGst(line, meta))
      && (t.Some? && t.value.treatment == "Taxable" ==> t.value.hsn == TaxedCode(line, meta))
      && (t.Some? && t.value.treatment != "Taxable" ==> TaxedCode(line, meta) == "")
      && (t.None? ==> TaxedCode(line, meta) == "")
  {
  }

  lemma BestIsTableRate(table: seq<HsnRow>, code: string, rate: real)
    ensures (exists r :: IsBest(table, r) && r.code == code && r.rate == rate) <==> TableRate(table, code, rate)
  {
    if TableRate(table, code, rate) {
      var r :| r in table && r.code == code && r.rate == rate
        && forall q <- table :: q.code == code ==> q.count < r.count || (q.count == r.count && q.rate <= r.rate);
      assert IsBest(table, r);
    }
  }

  /** A line is rated when it carries GST and, where templates keep their own rates, has none. Its
      rate is the one that the table gives most often for its code, the higher on a tie, if that is
      positive. */
  lemma RateFromTable(lines: seq<Line>, meta: map<ItemId, Meta>, table: seq<HsnRow>, rates: map<string, real>, i: nat,
                      keepTemplates: bool)
    requires i < |lines| && AreHsnRates(table, TaxableCodes(lines, meta, |lines|), rates)
    ensures Rated(lines[i], meta, keepTemplates) <==>
      CarriesGst(lines[i], meta) && !(keepTemplates && HasTemplate(lines[i], meta))
    ensures Rated(lines[i], meta, keepTemplates) ==> Charged(lines[i], meta, table, RateOf(lines[i], meta, rates))
  {
    var code := TaxedCode(lines[i], meta);
    CodeOfLine(lines[i], meta);
    NoEmptyCode(lines, meta, |lines|);
    if code != "" {
      CodesAreLooked(lines, meta, |lines|, i);
      RatesAreTable(table, TaxableCodes(lines, meta, |lines|), rates, code);
    }
    hide TaxableCodes, TableRate, IsBest, TaxedCode;
  }

  lemma RatesAreTable(table: seq<HsnRow>, codes: set<string>, rates: map<string, real>, code: string)
    requires AreHsnRates(table, codes, rates) && code in codes
    ensures forall x :: TableRate(table, code, x) <==> code in rates && x == rates[code]
  {
    forall x
      ensures TableRate(table, code, x) <==> code in rates && x == rates[code]
    {
      hide Beats;
      BestIsTableRate(table, code, x);
      if TableRate(table, code, x) {
        assert code in rates;
        BestIsUnique(table, table, code, x, rates[code]);
      }
    }
  }

  /** With derived GST, a line that has no template and that no later line of its item follows is
      taxed over all rows at the rate that the table gives its code. */
  lemma LineIsCharged(lines: seq<Line>, meta: map<ItemId, Meta>, table: seq<HsnRow>, rates: map<string, real>,
                      details: seq<Detail>, sides: Sides, chart: seq<TaxAccount>, isSales: bool, i: nat)
    requires AreHsnRates(table, TaxableCodes(lines, meta, |lines|), rates)
    requires AutoApplies(DocOf(lines, meta, rates, details, sides, chart), isSales)
    requires i < |lines| && CarriesGst(lines[i], meta) && !HasTemplate(lines[i], meta)
    requires lines[i].item.Some? ==> forall j | i < j < |lines| :: lines[j].item != lines[i].item
    ensures Charged(lines[i], meta, table, DerivedRate(DocOf(lines, meta, rates, details, sides, chart), isSales, i))
  {
    hide AreHsnRates, TaxableCodes, AutoApplies, DerivedRate, Charged, CarriesGst, HasTemplate, Rated, RateOf,
         Interstate, AccountsOf, Received, AutoHeads, HeadSum, Overrides, Totals;
    var d := DocOf(lines, meta, rates, details, sides, chart);
    RateFromTable(lines, meta, table, rates, i, true);
    DerivedIsReceived(d, isSales, i);
    HasAutoHeads(d, isSales);
    SoleLineReceives(lines, meta, rates, isSales, d.inter, d.accounts, i);
  }

  lemma HasAutoHeads(d: Doc, isSales: bool)
    requires AutoApplies(d, isSales)
    ensures AutoHeads(isSales, d.inter, d.accounts).Some? && AutoHeadsOf(d, isSales) == AutoHeads(isSales, d.inter, d.accounts)
  {
    hide AutoHeads, AnyPositive;
  }

  // The last line of a key receives its own rate.
  lemma SoleLineReceives(lines: seq<Line>, meta: map<ItemId, Meta>, rates: map<string, real>, isSales: bool, inter: bool,
                         a: Accounts, i: nat)
    requires AutoHeads(isSales, inter, a).Some? && i < |lines| && Rated(lines[i], meta, true)
    requires lines[i].item.Some? ==> forall j | i < j < |lines| :: lines[j].item != lines[i].item
    ensures Received(lines, meta, rates, AutoHeads(isSales, inter, a).value, i) == RateOf(lines[i], meta, rates)
  {
    hide AutoHeads, Totals, Overrides, HeadSum, RateOf, Rated;
    SplitPreservesRate(lines, meta, rates, isSales, inter, a, i);
    assert LastOfKey(lines, meta, true, |lines|, KeyOf(lines[i], i), i);
  }

  /** With reverse charge, where lines that share a dictionary agree, every line is credited at the
      rate that the table gives its code, and the deducted rows take that away again. */
  lemma LineIsReversed(lines: seq<Line>, meta: map<ItemId, Meta>, table: seq<HsnRow>, rates: map<string, real>,
                       details: seq<Detail>, sides: Sides, chart: seq<TaxAccount>, i: nat)
    requires AreHsnRates(table, TaxableCodes(lines, meta, |lines|), rates)
    requires var d := DocOf(lines, meta, rates, details, sides, chart);
      Applies(d) && HeadsApart(d) && SharersAgree(d)
    requires i < |lines| && CarriesGst(lines[i], meta)
    ensures var d := DocOf(lines, meta, rates, details, sides, chart);
      Charged(lines[i], meta, table, LineRate(d, i, 0)) && LineGap(d, i) == 0.0
  {
    hide AreHsnRates, TaxableCodes, Charged, CarriesGst, HasTemplate, Rated, RateOf, Interstate, AccountsOf, Applies,
         SharersAgree, LineRate, LineGap;
    var d := DocOf(lines, meta, rates, details, sides, chart);
    RateFromTable(lines, meta, table, rates, i, false);
    ReverseChargeNeutralIff(d);
    ReverseChargeBalance.OwnRatesIff(d);
  }

  // The last line to carry GST with the item of a line that is the first to do so.
  ghost predicate FirstAndLast(lines: seq<Line>, meta: map<ItemId, Meta>, first: nat, last: nat) {
    && first <= last < |lines| && OneKey(lines, first, last)
    && CarriesGst(lines[first], meta) && CarriesGst(lines[last], meta)
    && (forall j | 0 <= j < first && OneKey(lines, j, first) :: !CarriesGst(lines[j], meta))
    && (forall j | last < j < |lines| && OneKey(lines, j, first) :: !CarriesGst(lines[j], meta))
  }

  // No line after this one is the first of another item to write to the line's dictionary.
  ghost predicate LastToWrite(lines: seq<Line>, meta: map<ItemId, Meta>, details: seq<Detail>, i: nat, first: nat)
    requires i < |lines| && first < |lines|
  {
    OneDictionary(lines, meta, details, first, i)
    && forall j | first < j < |lines| && CarriesGst(lines[j], meta) && OneDictionary(lines, meta, details, j, i) ::
      exists h | 0 <= h < j :: OneKey(lines, h, j) && CarriesGst(lines[h], meta)
  }

  /** With reverse charge, of all items that share a line's dictionary the one decides whose first
      line comes last: the line is credited at the rate that the table gives the last line of that item. */
  lemma LineTakesRateOf(lines: seq<Line>, meta: map<ItemId, Meta>, table: seq<HsnRow>, rates: map<string, real>,
                        details: seq<Detail>, sides: Sides, chart: seq<TaxAccount>, i: nat, first: nat, last: nat)
    requires AreHsnRates(table, TaxableCodes(lines, meta, |lines|), rates)
    requires var d := DocOf(lines, meta, rates, details, sides, chart); Applies(d) && HeadsApart(d)
    requires i < |lines| && CarriesGst(lines[i], meta) && FirstAndLast(lines, meta, first, last)
    requires LastToWrite(lines, meta, details, i, first)
    ensures Charged(lines[last], meta, table, LineRate(DocOf(lines, meta, rates, details, sides, chart), i, 0))
  {
    hide AreHsnRates, TaxableCodes, Charged, CarriesGst, HasTemplate, Rated, RateOf, Interstate, AccountsOf, Applies, LineRate;
    var d := DocOf(lines, meta, rates, details, sides, chart);
    forall j | 0 <= j < |lines|
      ensures Rated(lines[j], meta, false) <==> CarriesGst(lines[j], meta)
    {
      RateFromTable(lines, meta, table, rates, j, false);
    }
    RateFromTable(lines, meta, table, rates, last, false);
    WinnerByFirstLine(d, i, first, last);
    RatedIsTotalled(lines, meta, rates, false, |lines|, i);
    UsedRates(d, i);
  }

  lemma WinnerByFirstLine(d: Doc, i: nat, first: nat, last: nat)
    requires i < |d.lines| && FirstAndLast(d.lines, d.meta, first, last) && LastToWrite(d.lines, d.meta, d.details, i, first)
    requires forall j | 0 <= j < |d.lines| :: Rated(d.lines[j], d.meta, false) <==> CarriesGst(d.lines[j], d.meta)
    ensures UsedTotal(d, KeyOf(d.lines[i], i)) == RateOf(d.lines[last], d.meta, d.rates)
  {
    hide CarriesGst, Rated, RateOf, KeyOf, SlotOf, OneKey, OneDictionary, TemplatesOf, Totals;
    forall j: nat, h: nat | j < |d.lines| && h < |d.lines|
      ensures KeyOf(d.lines[j], j) == KeyOf(d.lines[h], h) <==> OneKey(d.lines, j, h)
      ensures SlotIn(d, KeyOf(d.lines[j], j)) == SlotIn(d, KeyOf(d.lines[h], h))
         <==> OneDictionary(d.lines, d.meta, d.details, j, h)
    {
      SharedDictionary(d.lines, d.meta, d.details, j, h);
    }
    var k, w := KeyOf(d.lines[i], i), KeyOf(d.lines[first], first);
    assert FirstOfKey(d.lines, d.meta, false, |d.lines|, w, first);
    SharerByFirstLine(d.lines, d.meta, TemplatesOf(d.details), false, k, first);
    assert LastOfKey(d.lines, d.meta, false, |d.lines|, w, last);
    TotalsAreLast(d.lines, d.meta, d.rates, false, |d.lines|, w);
  }

  // --- The header rate ---

  // What a line gives an account: its override, or else its template's rate.
  ghost predicate Gives(lines: seq<Line>, i: nat, account: AccountId, over: Rates, existing: Rates, rate: real)
    requires i < |lines|
  {
    var k := KeyOf(lines[i], i);
    if k in over && account in over[k] then over[k][account] == rate
    else k in existing && account in existing[k] && existing[k][account] == rate
  }

  // Some line gives the account this positive rate, and none another one.
  ghost predicate SoleRate(lines: seq<Line>, account: AccountId, over: Rates, existing: Rates, x: real) {
    && x > 0.0 && (exists i | 0 <= i < |lines| :: Gives(lines, i, account, over, existing, x))
    && forall i, y: real | 0 <= i < |lines| && Gives(lines, i, account, over, existing, y) :: y > 0.0 ==> y == x
  }

  /** The header rate is positive exactly when the positive rates that lines give the account are
      one and the same, and then it is that rate; otherwise it is 0. */
  lemma HeaderRateMeans(lines: seq<Line>, account: AccountId, over: Rates, existing: Rates, x: real)
    ensures var rate := RowRate(lines, account, over, existing);
      rate >= 0.0 && (x > 0.0 ==> (rate == x <==> SoleRate(lines, account, over, existing, x)))
  {
    var given := RateSet(lines, account, over, existing, |lines|);
    RateSetPositive(lines, account, over, existing, |lines|);
    forall y: real
      ensures y in given <==> y > 0.0 && exists i | 0 <= i < |lines| :: Gives(lines, i, account, over, existing, y)
    {
      RateSetMembers(lines, account, over, existing, |lines|, y);
      GivesMeans(lines, account, over, existing, y);
    }
    hide Gives, RateSet, Given;
    SoleMeans(given, x);
    if SoleRate(lines, account, over, existing, x) {
      assert given == {x};
    }
    if x > 0.0 && given == {x} {
      forall i, y: real | 0 <= i < |lines| && Gives(lines, i, account, over, existing, y)
        ensures y > 0.0 ==> y == x
      {
        assert y > 0.0 ==> y in given;
      }
    }
  }

  lemma GivesMeans(lines: seq<Line>, account: AccountId, over: Rates, existing: Rates, x: real)
    ensures forall i: nat | i < |lines| ::
      Given(lines, i, account, over, existing) == Some(x) <==> Gives(lines, i, account, over, existing, x)
  {
  }

  lemma SoleMeans(given: set<real>, x: real)
    requires forall y <- given :: y > 0.0
    ensures Sole(given) >= 0.0
    ensures x > 0.0 ==> (Sole(given) == x <==> given == {x})
    ensures given == {x} ==> x in given && forall y <- given :: y == x
  {
    if v :| given == {v} {
      assert v in given && Sole(given) in {v};
      assert given == {x} ==> x in given;
    }
  }
}
