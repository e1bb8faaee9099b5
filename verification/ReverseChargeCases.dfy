/** Documents under reverse charge on which something goes wrong. */
module ReverseChargeCases {
  import opened Prelude
  import opened Rounding
  import opened Texts
  import opened GstRates
  import opened RateDictionaries
  import opened ReverseChargeBalance

  // One free-text line at 18% within a state.
  function OneLine(accounts: Accounts): Doc {
    Doc([Line(None, "9983")], map[], map["9983" := 18.0], false, accounts, [])
  }

  lemma OneLineTotals(accounts: Accounts)
    requires accounts.input.Some? && accounts.cgst.Some? && accounts.sgst.Some?
    ensures var d := OneLine(accounts);
      Applies(d) && FreeText(0) in Totalled(d) && Totalled(d)[FreeText(0)] == 18.0 && UsedTotal(d, FreeText(0)) == 18.0
  {
    var d := OneLine(accounts);
    assert Totals(d.lines, d.meta, d.rates, false, 0) == map[];
    var totals := map[FreeText(0) := 18.0];
    assert Totalled(d) == totals;
    assert FreeText(0) in totals && totals[FreeText(0)] > 0.0;
    WinnerRates(d, FreeText(0));
  }

  // A chart whose account for the input tax is named after one of its halves, too.
  const MIXED_CHART := [TaxAccount(1, "Input GST CGST"), TaxAccount(2, "SGST")]

  lemma MixedChartAccounts()
    ensures AccountsOf(MIXED_CHART) == Accounts(Some(1), None, Some(1), Some(2))
  {
    hide Contains, FindAccount, Holds;
    MixedHolds();
    PlainHolds();
    FindInMixed(["Input GST"]);
    FindOutput("IGST");
    FindOutput("CGST");
    FindOutput("SGST");
    HoldsOne("Input GST CGST", "Input GST");
  }

  lemma FindInMixed(parts: seq<string>)
    ensures FindAccount(MIXED_CHART, parts) ==
      if Holds("Input GST CGST", parts) then Some(1) else if Holds("SGST", parts) then Some(2) else None
  {
    hide Holds;
    assert MIXED_CHART[1..] == [MIXED_CHART[1]] && [MIXED_CHART[1]][1..] == [];
    assert FindAccount([MIXED_CHART[1]], parts) == if Holds("SGST", parts) then Some(2) else None;
  }

  lemma HoldsOne(name: string, part: string)
    ensures Holds(name, [part]) <==> Contains(name, part)
  {
    hide Contains;
    assert part in [part];
  }

  lemma FindOutput(kind: string)
    requires !Contains("Input GST CGST", "Output") && !Contains("SGST", "Output")
    ensures OutputAccount(MIXED_CHART, kind) ==
      if Contains("Input GST CGST", kind) then Some(1) else if Contains("SGST", kind) then Some(2) else None
  {
    FindInMixed(["Output", kind]);
    FindInMixed([kind]);
    HoldsOne("Input GST CGST", kind);
    HoldsOne("SGST", kind);
    hide Contains, FindAccount;
    assert "Output" in ["Output", kind];
  }

  lemma UpperParts()
    ensures Upper("CGST") == "CGST" && Upper("SGST") == "SGST" && Upper("IGST") == "IGST"
    ensures Upper("Input GST") == "INPUT GST" && Upper("Output") == "OUTPUT"
  {
  }

  lemma UpperMixed()
    ensures Upper("Input GST CGST") == "INPUT GST CGST"
  {
  }

  // What follows the letters I and S in the mixed name, which has no O.
  lemma MixedPairs(i: nat)
    requires i < 13
    ensures var t := "INPUT GST CGST";
      t[i] != 'O' && (t[i] == 'I' ==> t[i+1] == 'N') && (t[i] == 'S' ==> t[i+1] == 'T')
  {
  }

  lemma MixedHolds()
    ensures var name := "Input GST CGST";
      && Contains(name, "Input GST") && Contains(name, "CGST")
      && !Contains(name, "Output") && !Contains(name, "IGST") && !Contains(name, "SGST")
  {
    UpperParts();
    UpperMixed();
    hide Upper;
    assert "INPUT GST CGST"[0..] == "INPUT GST" + " CGST" && "INPUT GST CGST"[10..] == "CGST";
    forall i: nat | i < 13
      ensures var t := "INPUT GST CGST";
        t[i] != 'O' && (t[i] == 'I' ==> t[i+1] == 'N') && (t[i] == 'S' ==> t[i+1] == 'T')
    {
      MixedPairs(i);
    }
    PairAbsent("Input GST CGST", "Output");
    PairAbsent("Input GST CGST", "IGST");
    PairAbsent("Input GST CGST", "SGST");
  }

  lemma PlainHolds()
    ensures Contains("SGST", "SGST")
    ensures !Contains("SGST", "Output") && !Contains("SGST", "IGST") && !Contains("SGST", "CGST")
  {
    UpperParts();
    hide Upper;
    assert "SGST"[0..] == "SGST";
    PairAbsent("SGST", "Output");
    PairAbsent("SGST", "IGST");
    PairAbsent("SGST", "CGST");
  }

  // A text without the first two letters of a part, one after the other, does not hold it.
  lemma PairAbsent(text: string, part: string)
    requires |Upper(part)| >= 2
    requires forall i | 0 <= i < |Upper(text)| - 1 :: Upper(text)[i] != Upper(part)[0] || Upper(text)[i+1] != Upper(part)[1]
    ensures !Contains(text, part)
  {
    assert |Upper(text)| == |text|;
    hide Upper;
    forall i | 0 <= i <= |text|
      ensures !(Upper(part) <= Upper(text)[i..])
    {
      var rest := Upper(text)[i..];
      assert |rest| >= 2 ==> rest[0] == Upper(text)[i] && rest[1] == Upper(text)[i+1];
    }
  }

  /** With that chart one account serves as credit and as one half: a line at 18% is credited 9%
      and charged twice 9%. */
  lemma SharedHeadUnbalances()
    ensures var d := OneLine(AccountsOf(MIXED_CHART));
      && Applies(d) && !HeadsApart(d) && |RowsOf(d)| == 3
      && LineRates(d, 0) == [9.0, 9.0, 9.0] && LineGap(d, 0) == -9.0
  {
    hide *;
    MixedChartAccounts();
    OneLineShared();
    LineGapIs(OneLine(Accounts(Some(1), None, Some(1), Some(2))), 0);
  }

  lemma OneLineShared()
    ensures var d := OneLine(Accounts(Some(1), None, Some(1), Some(2)));
      && Applies(d) && !HeadsApart(d) && !d.inter && |d.lines| == 1 && |RowsOf(d)| == 3
      && LineRate(d, 0, 0) == LineRate(d, 0, 1) == LineRate(d, 0, 2) == 9.0
  {
    var d := OneLine(Accounts(Some(1), None, Some(1), Some(2)));
    OneLineTotals(d.accounts);
    hide LineRate, UsedTotal, Totalled;
    CollisionRates(d, 0);
  }

  /** Half a rupee at 18% within a state: a credit of 9 hundredths against 5 on either half, so
      that the supplier is paid one hundredth less. */
  lemma OneHundredthLeft()
    ensures var d := OneLine(Accounts(Some(1), None, Some(2), Some(3)));
      Applies(d) && HeadsApart(d) && PayableGap(d, [0.5]) == -1.0
  {
    hide *;
    var d := OneLine(Accounts(Some(1), None, Some(2), Some(3)));
    OneLineApart();
    NineHundredths();
    RowAmountOfOne(d, 0.5, 0);
    AmountInShares(d, [0.5], 0, 1);
    AmountInShares(d, [0.5], 1, 1);
    PayableGapIs(d, [0.5]);
  }

  lemma OneLineApart()
    ensures var d := OneLine(Accounts(Some(1), None, Some(2), Some(3)));
      && Applies(d) && HeadsApart(d) && !d.inter && |d.lines| == 1
      && Outputs(d) == [Head(2, 0.5), Head(3, 0.5)] && |RowsOf(d)| == 3 && LineRate(d, 0, 0) == 18.0
  {
    var d := OneLine(Accounts(Some(1), None, Some(2), Some(3)));
    OneLineTotals(d.accounts);
    hide LineRate, UsedTotal, Totalled;
    UsedRates(d, 0);
  }

  lemma NineHundredths()
    ensures Scaled(18.0 / 100.0, 0.5) == 0.09 && Scaled(0.09, 0.5) == 0.045
    ensures Hundredths(0.09) == 9 && Hundredths(0.045) == 5
  {
  }

  // --- Items of one template ---

  // Two items of one template with codes of their own.
  function TwoItems(treatment: string, accounts: Accounts): Doc {
    Doc([Line(Some(1), "A"), Line(Some(2), "B")],
        map[1 := Meta("", "Taxable", Some(5)), 2 := Meta("", treatment, Some(5))],
        map["A" := 18.0, "B" := 12.0], false, accounts, [Detail(5, 9, 18.0)])
  }

  const APART := Accounts(Some(1), None, Some(2), Some(3))

  lemma TwoItemsTotals(treatment: string, accounts: Accounts)
    requires accounts.input.Some? && accounts.cgst.Some? && accounts.sgst.Some?
    ensures var d := TwoItems(treatment, accounts);
      Applies(d) && Totalled(d) == map[Master(1) := 18.0, Master(2) := if treatment == "Taxable" then 12.0 else 0.0]
  {
    var d := TwoItems(treatment, accounts);
    assert "A"[0] != "B"[0];
    assert Totals(d.lines, d.meta, d.rates, false, 0) == map[];
    assert Totals(d.lines, d.meta, d.rates, false, 1) == map[Master(1) := 18.0];
    var totals := map[Master(1) := 18.0, Master(2) := if treatment == "Taxable" then 12.0 else 0.0];
    assert Totalled(d) == totals;
    assert Master(1) in totals && totals[Master(1)] > 0.0;
  }

  lemma TwoItemsWinner(treatment: string, accounts: Accounts, k: Key)
    requires k in {Master(1), Master(2)}
    ensures Winner(TwoItems(treatment, accounts), k) == Some(Master(2))
  {
    var d := TwoItems(treatment, accounts);
    var templates := TemplatesOf(d.details);
    assert d.details[..0] == [];
    assert TemplatesOf([]) == map[];
    assert 5 in templates;
    assert Order(d.lines, d.meta, false, 0) == [];
    assert Order(d.lines, d.meta, false, 1) == [Master(1)];
    assert OrderOf(d, false) == [Master(1), Master(2)];
    assert SlotOf(d.meta, templates, k) == Shared(5) == SlotOf(d.meta, templates, Master(2));
  }

  lemma TwoItemsUsed(treatment: string, accounts: Accounts, i: nat)
    requires accounts.input.Some? && accounts.cgst.Some? && accounts.sgst.Some? && i < 2
    ensures var d := TwoItems(treatment, accounts);
      && Applies(d) && KeyOf(d.lines[i], i) == Master(i + 1) && Master(i + 1) in Totalled(d)
      && UsedTotal(d, Master(i + 1)) == if treatment == "Taxable" then 12.0 else 0.0
  {
    TwoItemsTotals(treatment, accounts);
    TwoItemsWinner(treatment, accounts, Master(i + 1));
  }

  /** Items of one template at 18% and 12%: both lines are taxed at 12%. Of nets of 0.50 and 0.25
      the credit is then 9 hundredths and not 12, and one hundredth is left over. */
  lemma TemplateTakesLastRate()
    ensures var d := TwoItems("Taxable", APART);
      && Applies(d) && HeadsApart(d)
      && RateOf(d.lines[0], d.meta, d.rates) == 18.0
      && LineRate(d, 0, 0) == LineRate(d, 1, 0) == 12.0
      && PayableGap(d, [0.5, 0.25]) == -1.0
  {
    hide *;
    var d := TwoItems("Taxable", APART);
    TwoItemsApart("Taxable");
    TwoItemsRate("Taxable", 0);
    TwoItemsRate("Taxable", 1);
    NineHundredths();
    RowAmountOfTwo(d, 0.5, 0.25, 0);
    TwelvePercent();
    AmountInShares(d, [0.5, 0.25], 0, 2);
    AmountInShares(d, [0.5, 0.25], 1, 2);
    PayableGapIs(d, [0.5, 0.25]);
  }

  lemma TwoItemsApart(treatment: string)
    ensures var d := TwoItems(treatment, APART);
      && Applies(d) && HeadsApart(d) && !d.inter && |d.lines| == 2
      && Outputs(d) == [Head(2, 0.5), Head(3, 0.5)] && |RowsOf(d)| == 3
      && TreatmentOf(d.lines[0], MetaOf(d.lines[0], d.meta)).Some? && RateOf(d.lines[0], d.meta, d.rates) == 18.0
  {
    TwoItemsTotals(treatment, APART);
    assert "A"[0] != "B"[0];
  }

  lemma TwoItemsRate(treatment: string, i: nat)
    requires i < 2
    ensures var d := TwoItems(treatment, APART);
      && Applies(d) && HeadsApart(d) && |d.lines| == 2
      && LineRate(d, i, 0) == if treatment == "Taxable" then 12.0 else 0.0
  {
    hide LineRate, UsedTotal, Totalled, RateOf;
    TwoItemsUsed(treatment, APART, i);
    UsedRates(TwoItems(treatment, APART), i);
  }

  lemma TwelvePercent()
    ensures Scaled(12.0 / 100.0, 0.5) + Scaled(12.0 / 100.0, 0.25) == 0.09
  {
  }

  /** A taxable item at 18% followed by an exempt one of the same template: its tax vanishes; and
      so the lines balance even with a shared account. */
  lemma ExemptItemUntaxesTemplate()
    ensures var d := TwoItems("Exempt", APART);
      && Applies(d) && HeadsApart(d)
      && RateOf(d.lines[0], d.meta, d.rates) == 18.0 && LineRate(d, 0, 0) == 0.0
    ensures var d := TwoItems("Exempt", Accounts(Some(1), None, Some(1), Some(2)));
      Applies(d) && !HeadsApart(d) && Neutral(d)
  {
    hide *;
    TwoItemsApart("Exempt");
    assert "Exempt"[0] != "Taxable"[0];
    TwoItemsRate("Exempt", 0);
    ExemptShared();
  }

  lemma ExemptShared()
    ensures var d := TwoItems("Exempt", Accounts(Some(1), None, Some(1), Some(2)));
      Applies(d) && !HeadsApart(d) && Neutral(d)
  {
    hide *;
    var accounts := Accounts(Some(1), None, Some(1), Some(2));
    var d := TwoItems("Exempt", accounts);
    TwoItemsShare();
    assert "Exempt"[0] != "Taxable"[0];
    TwoItemsUsed("Exempt", accounts, 0);
    TwoItemsUsed("Exempt", accounts, 1);
    AllZeroIsUntaxed(d);
    ReverseChargeNeutralIff(d);
  }

  lemma TwoItemsShare()
    ensures var d := TwoItems("Exempt", Accounts(Some(1), None, Some(1), Some(2)));
      Applies(d) && !HeadsApart(d) && |d.lines| == 2
  {
    TwoItemsTotals("Exempt", Accounts(Some(1), None, Some(1), Some(2)));
  }

  lemma AllZeroIsUntaxed(d: Doc)
    requires Applies(d) && |d.lines| == 2
    requires KeyOf(d.lines[0], 0) in Totalled(d) && UsedTotal(d, KeyOf(d.lines[0], 0)) == 0.0
    requires KeyOf(d.lines[1], 1) in Totalled(d) && UsedTotal(d, KeyOf(d.lines[1], 1)) == 0.0
    ensures NothingTaxed(d)
  {
    hide Totalled, UsedTotal, KeyOf;
  }

  // A free-text line at 18% and one without a code.
  function WithUncoded(accounts: Accounts): Doc {
    Doc([Line(None, "9983"), Line(None, "")], map[], map["9983" := 18.0], false, accounts, [])
  }

  /** The line without a code is taxed at 18% like the other one. */
  lemma UncodedLineIsTaxed()
    ensures var d := WithUncoded(APART);
      Applies(d) && HeadsApart(d) && d.lines[1].item.None? && d.lines[1].hsn == "" && LineRate(d, 1, 0) == 18.0
  {
    var d := WithUncoded(APART);
    assert Totals(d.lines, d.meta, d.rates, false, 0) == map[];
    assert Totals(d.lines, d.meta, d.rates, false, 1) == map[FreeText(0) := 18.0];
    var totals := map[FreeText(0) := 18.0];
    assert Totalled(d) == totals;
    assert FreeText(0) in totals && totals[FreeText(0)] > 0.0;
    InputRates(d, 18.0);
    FreeTextUntaxedIffMixed(d, 1);
    hide LineRate, RateSet;
    SoleInput(d, 18.0);
  }
}
