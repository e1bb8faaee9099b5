/** From the lines of a document to its tax rows and to the rates that the tax engine reads:
    reverse charge first, derived GST where no rows are at hand. */
module TaxResolution {
  import opened GstRates
  import opened RateDictionaries
  import opened ReverseChargeBalance

  // --- From the lines to the rows and the rates that the engine reads ---

  function DocOf(lines: seq<Line>, meta: map<ItemId, Meta>, rates: map<string, real>, details: seq<Detail>,
                 sides: Sides, chart: seq<TaxAccount>): Doc {
    Doc(lines, meta, rates, Interstate(sides), AccountsOf(chart), details)
  }

  // Derived GST yields rows.
  ghost predicate AutoApplies(d: Doc, isSales: bool) {
    AutoHeadsOf(d, isSales).Some?
    && (AnyPositive(TotalsOf(d, true))
        || exists i | 0 <= i < |d.lines| ::
             MetaOf(d.lines[i], d.meta).Some? && MetaOf(d.lines[i], d.meta).value.template.Some?)
  }

  ghost function AutoOver(d: Doc, isSales: bool): Rates
    requires AutoApplies(d, isSales)
  {
    Overrides(TotalsOf(d, true), AutoHeadsOf(d, isSales).value)
  }

  ghost function AutoRows(d: Doc, isSales: bool): (rows: seq<TaxRow>)
    requires AutoApplies(d, isSales)
    ensures rows != []
  {
    RowsFor(d.lines, AutoHeadsOf(d, isSales).value, false, AutoOver(d, isSales), TemplateRatesOf(d))
  }

  // --- What derived GST amounts to for a line ---

  // The rate of a line over all rows, added or deducted as they say.
  ghost function RateOver(merged: Rates, k: Key, rows: seq<TaxRow>): real {
    if rows == [] then 0.0
    else
      var last := rows[|rows|-1];
      RateOver(merged, k, rows[..|rows|-1]) + if last.deduct then -RateAt(merged, k, last) else RateAt(merged, k, last)
  }

  lemma {:induction false} RateOverHeads(merged: Rates, k: Key, rows: seq<TaxRow>, heads: seq<Head>)
    requires |rows| == |heads| && forall j | 0 <= j < |rows| :: rows[j].account == heads[j].account && !rows[j].deduct
    requires forall h <- heads :: h.account in At(merged, k)
    ensures RateOver(merged, k, rows) == HeadSum(At(merged, k), heads)
  {
    if rows != [] {
      var last := |rows| - 1;
      assert heads[last] in heads;
      assert forall h <- heads[..last] :: h in heads;
      RateOverHeads(merged, k, rows[..last], heads[..last]);
    }
  }

  ghost function DerivedRate(d: Doc, isSales: bool, i: nat): real
    requires AutoApplies(d, isSales) && i < |d.lines|
  {
    RateOver(MergedOf(d, true, AutoOver(d, isSales)), KeyOf(d.lines[i], i), AutoRows(d, isSales))
  }

  // After the merge a rated line reads exactly its override.
  lemma DerivedIsReceived(d: Doc, isSales: bool, i: nat)
    requires AutoApplies(d, isSales) && i < |d.lines| && Rated(d.lines[i], d.meta, true)
    ensures DerivedRate(d, isSales, i) ==
      Received(d.lines, d.meta, d.rates, AutoHeadsOf(d, isSales).value, i)
  {
    var k, heads := KeyOf(d.lines[i], i), AutoHeadsOf(d, isSales).value;
    RatedIsTotalled(d.lines, d.meta, d.rates, true, |d.lines|, i);
    HeadRatesKeys(TotalsOf(d, true)[k], heads);
    hide MergedOf, Rated, Totals, AutoHeadsOf;
    AutoMerged(d, heads, k);
    RateOverHeads(MergedOf(d, true, AutoOver(d, isSales)), k, AutoRows(d, isSales), heads);
  }

  /** In derived GST every line without a template is taxed at its own HSN rate over all rows if
      and only if any two such lines of one item have the same rate; templates do not matter. */
  lemma DerivedOwnRatesIff(d: Doc, isSales: bool)
    requires AutoApplies(d, isSales)
    ensures (forall i: nat | i < |d.lines| && Rated(d.lines[i], d.meta, true) ::
               DerivedRate(d, isSales, i) == RateOf(d.lines[i], d.meta, d.rates))
       <==> ItemsAgree(d.lines, d.meta, d.rates)
  {
    hide DerivedRate, Received, ItemsAgree, AnyPositive, AutoHeads;
    forall i: nat | i < |d.lines| && Rated(d.lines[i], d.meta, true)
      ensures DerivedRate(d, isSales, i) == Received(d.lines, d.meta, d.rates, AutoHeadsOf(d, isSales).value, i)
    {
      DerivedIsReceived(d, isSales, i);
    }
    GstRates.OwnRatesIff(d.lines, d.meta, d.rates, isSales, d.inter, d.accounts);
  }

  // --- The resolution ---

  ghost predicate Resolved(d: Doc, isSales: bool, reverse: bool, given: seq<TaxRow>, rows: seq<TaxRow>,
                           dicts: map<Key, RateDict>)
    reads dicts.Values
  {
    if !isSales && reverse && Applies(d) then rows == RowsOf(d) && Represents(dicts, ReadRates(d))
    else if given == [] && AutoApplies(d, isSales) then
      rows == AutoRows(d, isSales) && Represents(dicts, MergedOf(d, true, AutoOver(d, isSales)))
    else rows == given && Represents(dicts, TemplateRatesOf(d))
  }

  method ChargeReverse(dicts: map<Key, RateDict>, lines: seq<Line>, meta: map<ItemId, Meta>, table: seq<HsnRow>,
                       ghost details: seq<Detail>, sides: Sides, chart: seq<TaxAccount>)
    returns (rows: seq<TaxRow>, merged: map<Key, RateDict>, rates: map<string, real>)
    requires Represents(dicts, TemplateRates(lines, meta, TemplatesOf(details)))
    requires SharedBySlot(dicts, meta, TemplatesOf(details))
    modifies dicts.Values
    ensures AreHsnRates(table, TaxableCodes(lines, meta, |lines|), rates)
    ensures var d := DocOf(lines, meta, rates, details, sides, chart);
      if Applies(d) then rows == RowsOf(d) && Represents(merged, ReadRates(d))
      else rows == [] && merged == dicts && Represents(merged, TemplateRatesOf(d))
  {
    hide *;
    var existing := Snapshot(dicts);
    var over, order;
    rows, over, order, rates := ReverseCharge(lines, meta, table, sides, chart, existing);
    merged := dicts;
    ghost var d := DocOf(lines, meta, rates, details, sides, chart);
    DocParts(lines, meta, rates, details, sides, chart);
    ChargedIff(d);
    SnapshotIs(dicts, existing, TemplateRatesOf(d));
    if rows != [] {
      ChargedIs(d, existing, over, rows);
      OverridesKeys(TotalsOf(d, false), [Head(Input(d), 1.0)] + Outputs(d));
      merged := MergeInto(dicts, order, over, d, false);
    }
  }

  method DeriveGst(dicts: map<Key, RateDict>, lines: seq<Line>, meta: map<ItemId, Meta>, table: seq<HsnRow>,
                   ghost details: seq<Detail>, sides: Sides, isSales: bool, chart: seq<TaxAccount>)
    returns (rows: seq<TaxRow>, merged: map<Key, RateDict>, rates: map<string, real>)
    requires Represents(dicts, TemplateRates(lines, meta, TemplatesOf(details)))
    requires SharedBySlot(dicts, meta, TemplatesOf(details))
    modifies dicts.Values
    ensures AreHsnRates(table, TaxableCodes(lines, meta, |lines|), rates)
    ensures var d := DocOf(lines, meta, rates, details, sides, chart);
      if AutoApplies(d, isSales) then rows == AutoRows(d, isSales) && Represents(merged, MergedOf(d, true, AutoOver(d, isSales)))
      else rows == [] && merged == dicts && Represents(merged, TemplateRatesOf(d))
  {
    hide *;
    var existing := Snapshot(dicts);
    var over, order;
    rows, over, order, rates := AutoGst(lines, meta, table, sides, isSales, chart, existing);
    merged := dicts;
    ghost var d := DocOf(lines, meta, rates, details, sides, chart);
    DocParts(lines, meta, rates, details, sides, chart);
    DerivedIff(d, isSales);
    SnapshotIs(dicts, existing, TemplateRatesOf(d));
    if rows != [] {
      DerivedIs(d, isSales, existing, over, rows);
      OverridesKeys(TotalsOf(d, true), AutoHeadsOf(d, isSales).value);
      merged := MergeInto(dicts, order, over, d, true);
    }
  }

  lemma DocParts(lines: seq<Line>, meta: map<ItemId, Meta>, rates: map<string, real>, details: seq<Detail>,
                 sides: Sides, chart: seq<TaxAccount>)
    ensures var d := DocOf(lines, meta, rates, details, sides, chart);
      && d.lines == lines && d.meta == meta && d.inter == Interstate(sides) && d.accounts == AccountsOf(chart)
      && d.details == details
      && TemplateRatesOf(d) == TemplateRates(lines, meta, TemplatesOf(details))
      && TotalsOf(d, false) == Totals(lines, meta, rates, false, |lines|)
      && TotalsOf(d, true) == Totals(lines, meta, rates, true, |lines|)
      && OrderOf(d, false) == Order(lines, meta, false, |lines|)
      && OrderOf(d, true) == Order(lines, meta, true, |lines|)
  {
  }

  lemma ChargedIff(d: Doc)
    ensures Applies(d) <==>
      d.accounts.input.Some? && OutputHeads(d.inter, d.accounts).Some? && AnyPositive(TotalsOf(d, false))
    ensures Applies(d) ==> Input(d) == d.accounts.input.value && Outputs(d) == OutputHeads(d.inter, d.accounts).value
  {
  }

  lemma DerivedIff(d: Doc, isSales: bool)
    ensures AutoHeadsOf(d, isSales) == AutoHeads(isSales, d.inter, d.accounts)
    ensures !AutoApplies(d, isSales) <==>
      AutoHeads(isSales, d.inter, d.accounts).None?
      || (!AnyPositive(TotalsOf(d, true))
          && forall i | 0 <= i < |d.lines| ::
               !(MetaOf(d.lines[i], d.meta).Some? && MetaOf(d.lines[i], d.meta).value.template.Some?))
  {
    hide AnyPositive, AutoHeads, Totals;
  }

  lemma DerivedIs(d: Doc, isSales: bool, existing: Rates, over: Rates, rows: seq<TaxRow>)
    requires AutoApplies(d, isSales) && existing == TemplateRatesOf(d)
    requires over == Overrides(TotalsOf(d, true), AutoHeadsOf(d, isSales).value)
    requires rows == RowsFor(d.lines, AutoHeadsOf(d, isSales).value, false, over, existing)
    ensures over == AutoOver(d, isSales) && rows == AutoRows(d, isSales)
  {
  }

  /** Reverse charge replaces the rows at hand; derived GST steps in when there are none. */
  method ResolveTaxes(lines: seq<Line>, meta: map<ItemId, Meta>, table: seq<HsnRow>, details: seq<Detail>, sides: Sides,
                      isSales: bool, reverse: bool, chart: seq<TaxAccount>, given: seq<TaxRow>)
    returns (rows: seq<TaxRow>, dicts: map<Key, RateDict>, rates: map<string, real>)
    ensures (!isSales && reverse) || given == [] ==> AreHsnRates(table, TaxableCodes(lines, meta, |lines|), rates)
    ensures Resolved(DocOf(lines, meta, rates, details, sides, chart), isSales, reverse, given, rows, dicts)
  {
    hide AreHsnRates, Represents, SharedBySlot, AutoApplies, Applies, AutoRows, RowsOf, ReadRates, MergedOf, AutoOver,
         TemplateRates, TemplatesOf, Interstate, AccountsOf, TaxableCodes;
    rows, rates := given, map[];
    dicts := ItemTaxRates(lines, meta, details);
    if !isSales && reverse {
      var charged;
      charged, dicts, rates := ChargeReverse(dicts, lines, meta, table, details, sides, chart);
      if charged != [] {
        rows := charged;
      }
    }
    ghost var before, d := rates, DocOf(lines, meta, rates, details, sides, chart);
    DocParts(lines, meta, rates, details, sides, chart);
    if rows == [] {
      var derived;
      derived, dicts, rates := DeriveGst(dicts, lines, meta, table, details, sides, isSales, chart);
      if !isSales && reverse {
        HsnRatesIgnoreOrder(table, table, TaxableCodes(lines, meta, |lines|), before, rates);
      }
      d := DocOf(lines, meta, rates, details, sides, chart);
      DocParts(lines, meta, rates, details, sides, chart);
      if derived != [] {
        rows := derived;
      }
    }
  }

  lemma SnapshotIs(dicts: map<Key, RateDict>, a: Rates, b: Rates)
    requires Represents(dicts, a) && Represents(dicts, b)
    ensures a == b
  {
  }

  lemma OverridesKeys(totals: map<Key, real>, heads: seq<Head>)
    ensures Overrides(totals, heads).Keys == totals.Keys
  {
  }

  lemma ChargedIs(d: Doc, existing: Rates, over: Rates, charged: seq<TaxRow>)
    requires d.accounts.input.Some? && OutputHeads(d.inter, d.accounts).Some? && AnyPositive(TotalsOf(d, false))
    requires existing == TemplateRatesOf(d)
    requires over == RcmOverrides(TotalsOf(d, false), Input(d), Outputs(d))
    requires charged == RcmRows(d.lines, Input(d), Outputs(d), over, existing)
    ensures Applies(d) && charged == RowsOf(d) && ReadRates(d) == MergedOf(d, false, over)
    ensures over == Overrides(TotalsOf(d, false), [Head(Input(d), 1.0)] + Outputs(d))
  {
  }
}
