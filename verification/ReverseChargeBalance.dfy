/** Reverse charge books the tax twice, as credit and as liability: when the two sides cancel
    line by line, in total, and after rounding to hundredths. */
module ReverseChargeBalance {
  import opened Prelude
  import opened Rounding
  import opened Texts
  import opened GstRates
  import opened RateDictionaries

  // --- One reverse-charge document ---

  function Totalled(d: Doc): map<Key, real> {
    TotalsOf(d, false)
  }

  // Reverse charge applies.
  ghost predicate Applies(d: Doc) {
    d.accounts.input.Some? && OutputHeads(d.inter, d.accounts).Some? && AnyPositive(Totalled(d))
  }

  function Input(d: Doc): AccountId
    requires d.accounts.input.Some?
  {
    d.accounts.input.value
  }

  function Outputs(d: Doc): seq<Head>
    requires OutputHeads(d.inter, d.accounts).Some?
  {
    OutputHeads(d.inter, d.accounts).value
  }

  ghost function OverOf(d: Doc): Rates
    requires Applies(d)
  {
    RcmOverrides(Totalled(d), Input(d), Outputs(d))
  }

  ghost function RowsOf(d: Doc): (rows: seq<TaxRow>)
    requires Applies(d)
    ensures |rows| == 1 + |Outputs(d)|
  {
    RcmRows(d.lines, Input(d), Outputs(d), OverOf(d), TemplateRatesOf(d))
  }

  // What the engine reads: the overrides written into the templates' dictionaries.
  ghost function ReadRates(d: Doc): Rates
    requires Applies(d)
  {
    MergedOf(d, false, OverOf(d))
  }

  // The key whose override a key reads: the last one written to the same dictionary.
  function Winner(d: Doc, k: Key): Option<Key> {
    LastSharer(d.meta, TemplatesOf(d.details), OrderOf(d, false), k)
  }

  // The rate that the lines of a key are really taxed at.
  ghost function UsedTotal(d: Doc, k: Key): real {
    if Winner(d, k).Some? && Winner(d, k).value in Totalled(d) then Totalled(d)[Winner(d, k).value] else 0.0
  }

  // The credit account is not also one of two liability halves.
  predicate HeadsApart(d: Doc)
    requires d.accounts.input.Some? && OutputHeads(d.inter, d.accounts).Some?
  {
    d.inter || Input(d) !in {d.accounts.cgst.value, d.accounts.sgst.value}
  }

  // --- Rates of a key that has totals ---

  lemma KeyRates(d: Doc, k: Key)
    requires Applies(d) && k in Totalled(d)
    ensures var m, t := OverOf(d)[k], Totalled(d)[k];
      && k in OverOf(d) && Input(d) in m
      && (HeadsApart(d) ==> m[Input(d)] == t)
      && (!HeadsApart(d) ==> m[Input(d)] == Scaled(t, 0.5))
      && forall j | 0 <= j < |Outputs(d)| ::
           Outputs(d)[j].account in m && m[Outputs(d)[j].account] == Scaled(t, Outputs(d)[j].share)
  {
    var t, input := Totalled(d)[k], Head(Input(d), 1.0);
    HalvesAddUp(t);
    HeadRatesSnoc(t, [], input);
    assert [] + [input] == [input];
    HeadRatesSnoc(t, [input], Outputs(d)[0]);
    if d.inter {
      assert [input] + Outputs(d) == [input] + [Outputs(d)[0]];
    } else {
      HeadRatesSnoc(t, [input] + [Outputs(d)[0]], Outputs(d)[1]);
      assert [input] + Outputs(d) == [input] + [Outputs(d)[0]] + [Outputs(d)[1]];
    }
  }

  lemma HeadRatesSnoc(t: real, heads: seq<Head>, h: Head)
    ensures HeadRates(t, heads + [h]) == HeadRates(t, heads)[h.account := Scaled(t, h.share)]
  {
    assert (heads + [h])[..|heads|] == heads;
  }

  // Without totals a key has no rates at all; with them it reads those of its winner.
  lemma KeyWithoutRates(d: Doc, i: nat)
    requires Applies(d) && i < |d.lines| && KeyOf(d.lines[i], i) !in Totalled(d)
    ensures KeyOf(d.lines[i], i) !in ReadRates(d) && KeyOf(d.lines[i], i) !in TemplateRatesOf(d)
    ensures KeyOf(d.lines[i], i) !in OverOf(d)
  {
    var k := KeyOf(d.lines[i], i);
    TemplateKeysMean(d.lines, d.meta, |d.lines|, k);
    if Rated(d.lines[i], d.meta, false) {
      RatedIsTotalled(d.lines, d.meta, d.rates, false, |d.lines|, i);
    }
    hide MergedOf, Totals;
    MergedOfDoc(d, false, [Head(Input(d), 1.0)] + Outputs(d), k);
  }

  lemma WinnerRates(d: Doc, k: Key)
    requires Applies(d) && k in Totalled(d)
    ensures Winner(d, k).Some? && Winner(d, k).value in Totalled(d) && SlotIn(d, Winner(d, k).value) == SlotIn(d, k)
    ensures k in ReadRates(d)
    ensures var m, t := ReadRates(d)[k], UsedTotal(d, k);
      && Input(d) in m
      && (HeadsApart(d) ==> m[Input(d)] == t)
      && (!HeadsApart(d) ==> m[Input(d)] == Scaled(t, 0.5))
      && forall j | 0 <= j < |Outputs(d)| ::
           Outputs(d)[j].account in m && m[Outputs(d)[j].account] == Scaled(t, Outputs(d)[j].share)
  {
    hide MergedOf, TotalsOf, Outputs, SlotOf;
    MergedOfDoc(d, false, [Head(Input(d), 1.0)] + Outputs(d), k);
    KeyRates(d, Winner(d, k).value);
  }

  ghost function GivenOf(d: Doc, i: nat, account: AccountId): Option<real>
    requires Applies(d) && i < |d.lines|
  {
    Given(d.lines, i, account, OverOf(d), TemplateRatesOf(d))
  }

  // A line gives an output head its share of what it gives the input account.
  lemma GivenInShares(d: Doc, i: nat, j: nat)
    requires Applies(d) && HeadsApart(d) && i < |d.lines| && j < |Outputs(d)|
    ensures var given, share := GivenOf(d, i, Input(d)), GivenOf(d, i, Outputs(d)[j].account);
      && (given.None? <==> share.None?)
      && (given.Some? ==> share.value == Scaled(given.value, Outputs(d)[j].share))
  {
    if KeyOf(d.lines[i], i) in Totalled(d) {
      KeyRates(d, KeyOf(d.lines[i], i));
    } else {
      KeyWithoutRates(d, i);
    }
  }

  lemma {:induction false} RateSetMembers(lines: seq<Line>, account: AccountId, over: Rates, existing: Rates, n: nat, x: real)
    requires n <= |lines|
    ensures x in RateSet(lines, account, over, existing, n) <==>
      x > 0.0 && exists i | 0 <= i < n :: Given(lines, i, account, over, existing) == Some(x)
  {
    hide Given;
    if n > 0 {
      RateSetMembers(lines, account, over, existing, n - 1, x);
    }
  }

  lemma SoleScaled(a: set<real>, b: set<real>, s: real)
    requires s > 0.0
    requires forall x <- a :: Scaled(x, s) in b
    requires forall y <- b :: exists x <- a :: y == Scaled(x, s)
    ensures Sole(b) == Scaled(Sole(a), s)
  {
    if v :| a == {v} {
      assert v in a;
      forall y | y in b
        ensures y == Scaled(v, s)
      {
        var x :| x in a && y == Scaled(x, s);
      }
      assert Scaled(v, s) in b;
      assert b == {Scaled(v, s)};
      assert Sole(a) in {v} && Sole(b) in {Scaled(v, s)};
    } else {
      forall w
        ensures b != {w}
      {
        if b == {w} {
          var x := SoleBackwards(a, b, s, w);
        }
      }
    }
  }

  lemma SoleBackwards(a: set<real>, b: set<real>, s: real, w: real) returns (x: real)
    requires s > 0.0 && b == {w}
    requires forall x <- a :: Scaled(x, s) in b
    requires forall y <- b :: exists x <- a :: y == Scaled(x, s)
    ensures a == {x}
  {
    assert w in b;
    x :| x in a && w == Scaled(x, s);
    forall y | y in a
      ensures y == x
    {
      assert Scaled(y, s) in b;
      ScaledCancel(y, x, s);
    }
    assert a == {x};
  }

  lemma ScaledCancel(x: real, y: real, s: real)
    requires s > 0.0 && x * s == y * s
    ensures x == y
  {
    assert (x - y) * s == 0.0;
  }

  // The header rate of an output row is its share of the header rate of the input row.
  lemma HeaderInShares(d: Doc, j: nat)
    requires Applies(d) && HeadsApart(d) && j < |Outputs(d)|
    ensures RowsOf(d)[1 + j].rate == Scaled(RowsOf(d)[0].rate, Outputs(d)[j].share)
  {
    hide Given, OverOf, Sole;
    var n, share, account := |d.lines|, Outputs(d)[j].share, Outputs(d)[j].account;
    var a := RateSet(d.lines, Input(d), OverOf(d), TemplateRatesOf(d), n);
    var b := RateSet(d.lines, account, OverOf(d), TemplateRatesOf(d), n);
    forall x | x in a
      ensures Scaled(x, share) in b
    {
      RateSetMembers(d.lines, Input(d), OverOf(d), TemplateRatesOf(d), n, x);
      var i :| 0 <= i < n && Given(d.lines, i, Input(d), OverOf(d), TemplateRatesOf(d)) == Some(x);
      GivenInShares(d, i, j);
      RateSetMembers(d.lines, account, OverOf(d), TemplateRatesOf(d), n, Scaled(x, share));
    }
    forall y | y in b
      ensures exists x <- a :: y == Scaled(x, share)
    {
      RateSetMembers(d.lines, account, OverOf(d), TemplateRatesOf(d), n, y);
      var i :| 0 <= i < n && Given(d.lines, i, account, OverOf(d), TemplateRatesOf(d)) == Some(y);
      GivenInShares(d, i, j);
      var x := Given(d.lines, i, Input(d), OverOf(d), TemplateRatesOf(d)).value;
      PositiveFactor(x, share);
      RateSetMembers(d.lines, Input(d), OverOf(d), TemplateRatesOf(d), n, x);
      assert x in a;
    }
    SoleScaled(a, b, share);
  }

  lemma PositiveFactor(x: real, s: real)
    requires s > 0.0 && Scaled(x, s) > 0.0
    ensures x > 0.0
  {
  }

  lemma RowAccounts(d: Doc, j: nat)
    requires Applies(d) && j < |Outputs(d)|
    ensures RowsOf(d)[0].account == Input(d) && RowsOf(d)[1 + j].account == Outputs(d)[j].account
  {
  }

  ghost function LineRate(d: Doc, i: nat, row: nat): real
    requires Applies(d) && i < |d.lines| && row < |RowsOf(d)|
  {
    RateAt(ReadRates(d), KeyOf(d.lines[i], i), RowsOf(d)[row])
  }

  lemma LineInShares(d: Doc, i: nat, j: nat)
    requires Applies(d) && HeadsApart(d) && i < |d.lines| && j < |Outputs(d)|
    ensures LineRate(d, i, 1 + j) == Scaled(LineRate(d, i, 0), Outputs(d)[j].share)
  {
    hide Outputs, Totalled, ReadRates, RowsOf;
    RowAccounts(d, j);
    if KeyOf(d.lines[i], i) in Totalled(d) {
      WinnerRates(d, KeyOf(d.lines[i], i));
    } else {
      KeyWithoutRates(d, i);
      HeaderInShares(d, j);
    }
  }

  // --- Neutral or not ---

  // What the rows make of one amount each: added, or deducted where the row says so.
  ghost function Signed(rows: seq<TaxRow>, amounts: seq<real>): real
    requires |rows| == |amounts|
  {
    if rows == [] then 0.0
    else
      var last := |rows| - 1;
      Signed(rows[..last], amounts[..last]) + if rows[last].deduct then -amounts[last] else amounts[last]
  }

  // The credit is added, the liabilities are deducted.
  lemma SignedRows(d: Doc, amounts: seq<real>)
    requires Applies(d) && |amounts| == |RowsOf(d)|
    ensures Signed(RowsOf(d), amounts) == amounts[0] - amounts[1] - if d.inter then 0.0 else amounts[2]
  {
    var rows := RowsOf(d);
    assert rows[..1][..0] == [] && amounts[..1][..0] == [];
    assert Signed(rows[..1], amounts[..1]) == amounts[0];
    assert rows[..2][..1] == rows[..1] && amounts[..2][..1] == amounts[..1];
    assert Signed(rows[..2], amounts[..2]) == amounts[0] - amounts[1];
    assert rows[..|rows|] == rows && amounts[..|rows|] == amounts;
  }

  ghost function LineRates(d: Doc, i: nat): (r: seq<real>)
    requires Applies(d) && i < |d.lines|
    ensures |r| == |RowsOf(d)|
    ensures forall row | 0 <= row < |r| :: r[row] == LineRate(d, i, row)
  {
    seq(|RowsOf(d)|, row requires 0 <= row < |RowsOf(d)| => LineRate(d, i, row))
  }

  // What the rows leave of a line's rates.
  ghost function LineGap(d: Doc, i: nat): real
    requires Applies(d) && i < |d.lines|
  {
    Signed(RowsOf(d), LineRates(d, i))
  }

  lemma LineGapIs(d: Doc, i: nat)
    requires Applies(d) && i < |d.lines|
    ensures LineGap(d, i) == LineRate(d, i, 0) - LineRate(d, i, 1) - if d.inter then 0.0 else LineRate(d, i, 2)
  {
    hide LineRate, RowsOf, Signed;
    SignedRows(d, LineRates(d, i));
  }

  ghost predicate Neutral(d: Doc)
    requires Applies(d)
  {
    forall i | 0 <= i < |d.lines| :: LineGap(d, i) == 0.0
  }

  lemma HalvesAddUp(t: real)
    ensures Scaled(t, 0.5) + Scaled(t, 0.5) == t && Scaled(t, 1.0) == t
  {
  }

  // With a shared account a line with totals is credited half of its tax and charged all of it.
  lemma CollisionRates(d: Doc, i: nat)
    requires Applies(d) && !HeadsApart(d) && i < |d.lines| && KeyOf(d.lines[i], i) in Totalled(d)
    ensures LineRate(d, i, 0) == LineRate(d, i, 1) == LineRate(d, i, 2) == Scaled(UsedTotal(d, KeyOf(d.lines[i], i)), 0.5)
  {
    hide Totalled, RowsOf, ReadRates, UsedTotal;
    RowAccounts(d, 0);
    RowAccounts(d, 1);
    WinnerRates(d, KeyOf(d.lines[i], i));
  }

  // With a shared account all three rows are given the same rates, and so the same header rate.
  lemma {:induction false} SameRateSet(d: Doc, j: nat, n: nat)
    requires Applies(d) && !HeadsApart(d) && j < 2 && n <= |d.lines|
    ensures RateSet(d.lines, Outputs(d)[j].account, OverOf(d), TemplateRatesOf(d), n)
         == RateSet(d.lines, Input(d), OverOf(d), TemplateRatesOf(d), n)
  {
    hide OverOf;
    if n > 0 {
      SameRateSet(d, j, n - 1);
      if KeyOf(d.lines[n-1], n - 1) in Totalled(d) {
        KeyRates(d, KeyOf(d.lines[n-1], n - 1));
      } else {
        KeyWithoutRates(d, n - 1);
      }
    }
  }

  ghost function Headers(d: Doc): (r: seq<real>)
    requires Applies(d)
    ensures |r| == |RowsOf(d)|
    ensures forall row | 0 <= row < |r| :: r[row] == RowsOf(d)[row].rate
  {
    seq(|RowsOf(d)|, row requires 0 <= row < |RowsOf(d)| => RowsOf(d)[row].rate)
  }

  ghost predicate HeaderBalanced(d: Doc)
    requires Applies(d)
  {
    Signed(RowsOf(d), Headers(d)) == 0.0
  }

  lemma UsedRates(d: Doc, i: nat)
    requires Applies(d) && HeadsApart(d) && i < |d.lines| && KeyOf(d.lines[i], i) in Totalled(d)
    ensures LineRate(d, i, 0) == UsedTotal(d, KeyOf(d.lines[i], i))
  {
    hide Totalled, RowsOf, ReadRates, UsedTotal;
    RowAccounts(d, 0);
    WinnerRates(d, KeyOf(d.lines[i], i));
  }

  // A line without totals reads the header rates.
  lemma HeaderRates(d: Doc, i: nat, row: nat)
    requires Applies(d) && i < |d.lines| && KeyOf(d.lines[i], i) !in Totalled(d) && row < |RowsOf(d)|
    ensures LineRate(d, i, row) == RowsOf(d)[row].rate
  {
    hide ReadRates, RowsOf, Totalled;
    KeyWithoutRates(d, i);
  }

  lemma ApartNeutral(d: Doc)
    requires Applies(d) && HeadsApart(d)
    ensures Neutral(d) && HeaderBalanced(d)
  {
    hide LineRate, RowsOf, Scaled, LineGap, Signed;
    SignedRows(d, Headers(d));
    forall i | 0 <= i < |d.lines|
      ensures LineGap(d, i) == 0.0
    {
      LineGapIs(d, i);
      LineInShares(d, i, 0);
      if !d.inter { LineInShares(d, i, 1); }
      HalvesAddUp(LineRate(d, i, 0));
    }
    HeaderInShares(d, 0);
    if !d.inter { HeaderInShares(d, 1); }
    HalvesAddUp(RowsOf(d)[0].rate);
  }

  lemma SameHeaderRates(d: Doc)
    requires Applies(d) && !HeadsApart(d)
    ensures !d.inter && RowsOf(d)[0].rate == RowsOf(d)[1].rate == RowsOf(d)[2].rate
  {
    SameRateSet(d, 0, |d.lines|);
    SameRateSet(d, 1, |d.lines|);
  }

  // No line is taxed: every dictionary ends with a rate of 0, and so do the headers that lines
  // without totals read.
  ghost predicate NothingTaxed(d: Doc)
    requires Applies(d)
  {
    forall i | 0 <= i < |d.lines| ::
      if KeyOf(d.lines[i], i) in Totalled(d) then UsedTotal(d, KeyOf(d.lines[i], i)) == 0.0 else RowsOf(d)[0].rate == 0.0
  }

  lemma CollisionNeutralIff(d: Doc)
    requires Applies(d) && !HeadsApart(d)
    ensures Neutral(d) <==> NothingTaxed(d)
  {
    hide LineRate, RowsOf, Scaled, UsedTotal, Totalled, LineGap;
    SameHeaderRates(d);
    forall i | 0 <= i < |d.lines|
      ensures LineGap(d, i) == 0.0 <==>
        if KeyOf(d.lines[i], i) in Totalled(d) then UsedTotal(d, KeyOf(d.lines[i], i)) == 0.0 else RowsOf(d)[0].rate == 0.0
    {
      LineGapIs(d, i);
      if KeyOf(d.lines[i], i) in Totalled(d) {
        CollisionRates(d, i);
        HalvesAddUp(UsedTotal(d, KeyOf(d.lines[i], i)));
      } else {
        HeaderRates(d, i, 0);
        HeaderRates(d, i, 1);
        HeaderRates(d, i, 2);
      }
    }
  }

  /** With the overrides written into the shared dictionaries, the rates of every line cancel, added
      and deducted as the rows say, whatever the mix of slabs, templates and free-text lines, if
      and only if the credit account is not one of the two halves or no line ends up taxed. So do
      the header rates, if and only if the accounts are apart or they are all 0. */
  lemma ReverseChargeNeutralIff(d: Doc)
    requires Applies(d)
    ensures Neutral(d) <==> HeadsApart(d) || NothingTaxed(d)
    ensures HeaderBalanced(d) <==> HeadsApart(d) || RowsOf(d)[0].rate == 0.0
  {
    hide Neutral, NothingTaxed, RowsOf, HeadsApart, Signed;
    if HeadsApart(d) {
      ApartNeutral(d);
    } else {
      CollisionNeutralIff(d);
      SameHeaderRates(d);
      SignedRows(d, Headers(d));
    }
  }

  // --- Whose rate a line is taxed at ---

  // Lines whose keys have one dictionary, being of one item or of items of one template with
  // detail rows, agree on the rate.
  ghost predicate SharersAgree(d: Doc) {
    forall i, j | 0 <= i < |d.lines| && 0 <= j < |d.lines|
      && Rated(d.lines[i], d.meta, false) && Rated(d.lines[j], d.meta, false)
      && SlotIn(d, KeyOf(d.lines[i], i)) == SlotIn(d, KeyOf(d.lines[j], j)) ::
      RateOf(d.lines[i], d.meta, d.rates) == RateOf(d.lines[j], d.meta, d.rates)
  }

  // The rate used for a line is that of some line with the same dictionary.
  lemma UsedTotalIsShared(d: Doc, i: nat) returns (j: nat)
    requires Applies(d) && i < |d.lines| && Rated(d.lines[i], d.meta, false)
    ensures j < |d.lines| && Rated(d.lines[j], d.meta, false)
    ensures KeyOf(d.lines[i], i) in Totalled(d) && SlotIn(d, KeyOf(d.lines[j], j)) == SlotIn(d, KeyOf(d.lines[i], i))
    ensures UsedTotal(d, KeyOf(d.lines[i], i)) == RateOf(d.lines[j], d.meta, d.rates)
  {
    hide ReadRates, SlotIn, Outputs;
    RatedIsTotalled(d.lines, d.meta, d.rates, false, |d.lines|, i);
    var k := KeyOf(d.lines[i], i);
    WinnerRates(d, k);
    var w := Winner(d, k).value;
    TotalsAreLast(d.lines, d.meta, d.rates, false, |d.lines|, w);
    j :| LastOfKey(d.lines, d.meta, false, |d.lines|, w, j);
  }

  /** Under reverse charge every line keeps its own HSN rate if and only if lines of one item
      agree on it, and so do the lines of all items of one template with detail rows. */
  lemma OwnRatesIff(d: Doc)
    requires Applies(d) && HeadsApart(d)
    ensures (forall i: nat | i < |d.lines| && Rated(d.lines[i], d.meta, false) ::
               LineRate(d, i, 0) == RateOf(d.lines[i], d.meta, d.rates))
       <==> SharersAgree(d)
  {
    hide LineRate, RateOf, Totalled, SlotOf, UsedTotal, HeadsApart;
    if SharersAgree(d) {
      forall i: nat | i < |d.lines| && Rated(d.lines[i], d.meta, false)
        ensures LineRate(d, i, 0) == RateOf(d.lines[i], d.meta, d.rates)
      {
        var j := UsedTotalIsShared(d, i);
        UsedRates(d, i);
      }
    }
    forall i: nat, j: nat | i < |d.lines| && j < |d.lines|
      && Rated(d.lines[i], d.meta, false) && Rated(d.lines[j], d.meta, false)
      && SlotIn(d, KeyOf(d.lines[i], i)) == SlotIn(d, KeyOf(d.lines[j], j))
      ensures LineRate(d, i, 0) == LineRate(d, j, 0)
    {
      var i' := UsedTotalIsShared(d, i);
      var j' := UsedTotalIsShared(d, j);
      UsedRates(d, i);
      UsedRates(d, j);
      SharersUseOne(d, KeyOf(d.lines[i], i), KeyOf(d.lines[j], j));
    }
  }

  lemma SharersUseOne(d: Doc, x: Key, y: Key)
    requires SlotIn(d, x) == SlotIn(d, y)
    ensures Winner(d, x) == Winner(d, y) && UsedTotal(d, x) == UsedTotal(d, y)
  {
    hide SlotOf;
    LastSharerOfSlot(d.meta, TemplatesOf(d.details), OrderOf(d, false), x, y);
  }

  ghost predicate MixedSlabs(d: Doc) {
    exists k, l :: k in Totalled(d) && l in Totalled(d) && 0.0 < Totalled(d)[k] < Totalled(d)[l]
  }

  // The positive rates given for the input account are the positive totals.
  lemma InputRates(d: Doc, x: real)
    requires Applies(d) && HeadsApart(d)
    ensures x in RateSet(d.lines, Input(d), OverOf(d), TemplateRatesOf(d), |d.lines|) <==>
      x > 0.0 && exists k <- Totalled(d) :: Totalled(d)[k] == x
  {
    hide Totalled, TemplateRatesOf, OverOf, Given;
    RateSetMembers(d.lines, Input(d), OverOf(d), TemplateRatesOf(d), |d.lines|, x);
    forall i | 0 <= i < |d.lines|
      ensures var k := KeyOf(d.lines[i], i);
        Given(d.lines, i, Input(d), OverOf(d), TemplateRatesOf(d)) ==
          if k in Totalled(d) then Some(Totalled(d)[k]) else None
    {
      InputGiven(d, i);
    }
    forall k | k in Totalled(d)
      ensures exists i: nat :: i < |d.lines| && KeyOf(d.lines[i], i) == k
    {
      TotalHasLine(d, k);
    }
  }

  lemma TotalHasLine(d: Doc, k: Key)
    requires k in Totalled(d)
    ensures exists i: nat :: i < |d.lines| && KeyOf(d.lines[i], i) == k
  {
    TotalsAreLast(d.lines, d.meta, d.rates, false, |d.lines|, k);
    var i: nat :| LastOfKey(d.lines, d.meta, false, |d.lines|, k, i);
  }

  lemma InputGiven(d: Doc, i: nat)
    requires Applies(d) && HeadsApart(d) && i < |d.lines|
    ensures var k := KeyOf(d.lines[i], i);
      Given(d.lines, i, Input(d), OverOf(d), TemplateRatesOf(d)) ==
        if k in Totalled(d) then Some(Totalled(d)[k]) else None
  {
    hide Totalled, TemplateRatesOf, OverOf;
    var k := KeyOf(d.lines[i], i);
    if k in Totalled(d) {
      KeyRates(d, k);
    } else {
      KeyWithoutRates(d, i);
    }
  }

  /** A free-text line without a code is credited at the header rate, hence untaxed if and only if
      two positive rates differ among the other lines. */
  lemma FreeTextUntaxedIffMixed(d: Doc, i: nat)
    requires Applies(d) && HeadsApart(d) && i < |d.lines| && d.lines[i].item.None? && d.lines[i].hsn == ""
    ensures LineRate(d, i, 0) == RowsOf(d)[0].rate
    ensures LineRate(d, i, 0) == 0.0 <==> MixedSlabs(d)
  {
    FreeTextUntaxedIff(d, false, [Head(Input(d), 1.0)] + Outputs(d), i, Input(d), false);
    hide RateSet, ReadRates, Totalled, Sole, OverOf;
    var given := RateSet(d.lines, Input(d), OverOf(d), TemplateRatesOf(d), |d.lines|);
    forall x
      ensures x in given <==> x > 0.0 && exists k <- Totalled(d) :: Totalled(d)[k] == x
    {
      InputRates(d, x);
    }
    NotSoleIffMixed(d, given);
  }

  lemma NotSoleIffMixed(d: Doc, rates: set<real>)
    requires AnyPositive(Totalled(d))
    requires forall x :: x in rates <==> x > 0.0 && exists k <- Totalled(d) :: Totalled(d)[k] == x
    ensures (forall v :: rates != {v}) <==> MixedSlabs(d)
  {
    hide Totalled;
    var k :| k in Totalled(d) && Totalled(d)[k] > 0.0;
    assert Totalled(d)[k] in rates;
    if MixedSlabs(d) {
      var a, b :| a in Totalled(d) && b in Totalled(d) && 0.0 < Totalled(d)[a] < Totalled(d)[b];
      assert Totalled(d)[a] in rates && Totalled(d)[b] in rates;
    } else {
      forall x | x in rates
        ensures x == Totalled(d)[k]
      {
        var l :| l in Totalled(d) && Totalled(d)[l] == x;
      }
      assert rates == {Totalled(d)[k]};
    }
  }

  // --- Accounts found by name ---

  // With one name per account, and no name that holds both sides, the heads are apart.
  lemma NamesKeepHeadsApart(chart: seq<TaxAccount>)
    requires forall t, u :: t in chart && u in chart && t.id == u.id ==> t.name == u.name
    requires forall t <- chart :: Contains(t.name, "Input GST") ==>
      !Contains(t.name, "CGST") && !Contains(t.name, "SGST")
    ensures var a := AccountsOf(chart);
      a.input.Some? && a.cgst.Some? && a.sgst.Some? ==> a.input.value !in {a.cgst.value, a.sgst.value}
  {
    hide Contains, FindAccount, OutputAccount;
    var a := AccountsOf(chart);
    if a.input.Some? && a.cgst.Some? && a.sgst.Some? {
      FoundIsNamed(chart, ["Input GST"], "Input GST");
      OutputIsNamed(chart, "CGST");
      OutputIsNamed(chart, "SGST");
    }
  }

  lemma FoundIsNamed(chart: seq<TaxAccount>, parts: seq<string>, part: string)
    requires FindAccount(chart, parts).Some? && part in parts
    ensures exists t <- chart :: t.id == FindAccount(chart, parts).value && Contains(t.name, part)
  {
    hide Contains;
    var k :| 0 <= k < |chart| && chart[k].id == FindAccount(chart, parts).value && Holds(chart[k].name, parts);
    assert chart[k] in chart;
  }

  lemma OutputIsNamed(chart: seq<TaxAccount>, kind: string)
    requires OutputAccount(chart, kind).Some?
    ensures exists t <- chart :: t.id == OutputAccount(chart, kind).value && Contains(t.name, kind)
  {
    hide Contains, FindAccount;
    if FindAccount(chart, ["Output", kind]).Some? {
      FoundIsNamed(chart, ["Output", kind], kind);
    } else {
      FoundIsNamed(chart, [kind], kind);
    }
  }

  // --- Amounts ---

  // Tax of one row over the first n lines, before rounding.
  ghost function RowAmount(d: Doc, nets: seq<real>, row: nat, n: nat): real
    requires Applies(d) && |nets| == |d.lines| && row < |RowsOf(d)| && n <= |d.lines|
  {
    if n == 0 then 0.0
    else RowAmount(d, nets, row, n - 1) + Scaled(LineRate(d, n - 1, row) / 100.0, nets[n-1])
  }

  lemma {:induction false} AmountInShares(d: Doc, nets: seq<real>, j: nat, n: nat)
    requires Applies(d) && HeadsApart(d) && |nets| == |d.lines| && j < |Outputs(d)| && n <= |d.lines|
    ensures RowAmount(d, nets, 1 + j, n) == Scaled(RowAmount(d, nets, 0, n), Outputs(d)[j].share)
  {
    hide LineRate, Scaled;
    ZeroShare(Outputs(d)[j].share);
    if n > 0 {
      AmountInShares(d, nets, j, n - 1);
      LineInShares(d, n - 1, j);
      ShareOfSum(RowAmount(d, nets, 0, n - 1), LineRate(d, n - 1, 0), nets[n-1], Outputs(d)[j].share);
    }
  }

  lemma ZeroShare(share: real)
    ensures Scaled(0.0, share) == 0.0
  {
  }

  lemma ShareOfSum(before: real, rate: real, net: real, share: real)
    ensures Scaled(before + Scaled(rate / 100.0, net), share)
         == Scaled(before, share) + Scaled(Scaled(rate, share) / 100.0, net)
  {
    calc {
      (before + rate / 100.0 * net) * share;
      before * share + rate / 100.0 * net * share;
      { assert rate / 100.0 * net * share == rate * share / 100.0 * net; }
      before * share + rate * share / 100.0 * net;
    }
  }

  ghost function RowAmounts(d: Doc, nets: seq<real>): (r: seq<real>)
    requires Applies(d) && |nets| == |d.lines|
    ensures |r| == |RowsOf(d)|
    ensures forall row | 0 <= row < |r| :: r[row] == RowAmount(d, nets, row, |d.lines|)
  {
    seq(|RowsOf(d)|, row requires 0 <= row < |RowsOf(d)| => RowAmount(d, nets, row, |d.lines|))
  }

  /** For any net amounts, the amounts of the rows cancel before rounding, added and deducted as
      the rows say. */
  lemma AmountsCancel(d: Doc, nets: seq<real>)
    requires Applies(d) && HeadsApart(d) && |nets| == |d.lines|
    ensures Signed(RowsOf(d), RowAmounts(d, nets)) == 0.0
  {
    hide RowAmount, Scaled, RowsOf, Totalled, Hundredths, Signed;
    SignedRows(d, RowAmounts(d, nets));
    AmountInShares(d, nets, 0, |d.lines|);
    if !d.inter { AmountInShares(d, nets, 1, |d.lines|); }
    HalvesAddUp(RowAmount(d, nets, 0, |d.lines|));
  }

  function Rounded(amounts: seq<real>): (r: seq<real>)
    ensures |r| == |amounts|
  {
    seq(|amounts|, j requires 0 <= j < |amounts| => Hundredths(amounts[j]) as real)
  }

  // What the supplier is paid beyond the net total, in hundredths: every row is rounded on
  // its own before it is added or deducted.
  ghost function PayableGap(d: Doc, nets: seq<real>): real
    requires Applies(d) && |nets| == |d.lines|
  {
    Signed(RowsOf(d), Rounded(RowAmounts(d, nets)))
  }

  lemma PayableGapIs(d: Doc, nets: seq<real>)
    requires Applies(d) && |nets| == |d.lines|
    ensures var n := |d.lines|;
      PayableGap(d, nets) == (Hundredths(RowAmount(d, nets, 0, n)) - Hundredths(RowAmount(d, nets, 1, n))
                              - if d.inter then 0 else Hundredths(RowAmount(d, nets, 2, n))) as real
  {
    hide RowAmount, RowsOf, Hundredths, Signed;
    SignedRows(d, Rounded(RowAmounts(d, nets)));
  }

  // Rounding twice the half against rounding the whole.
  lemma HalfRounding(t: real)
    ensures Hundredths(t) - 2 * Hundredths(Scaled(t, 0.5)) in {-1, 0, 1}
    ensures Hundredths(t) == 2 * Hundredths(Scaled(t, 0.5)) <==> Hundredths(t) % 2 == 0
  {
    var y := t * 100.0;
    assert Scaled(t, 0.5) * 100.0 == y / 2.0;
    if y >= 0.0 {
      HalfRoundingUp(y);
    } else {
      HalfRoundingUp(-y);
      NearestUpIsOdd(y);
      NearestUpIsOdd(y / 2.0);
      assert -y / 2.0 == -(y / 2.0);
    }
  }

  lemma HalfRoundingUp(y: real)
    requires y >= 0.0
    ensures NearestUp(y) - 2 * NearestUp(y / 2.0) in {-1, 0, 1}
    ensures NearestUp(y) == 2 * NearestUp(y / 2.0) <==> NearestUp(y) % 2 == 0
  {
    var n, h := NearestUp(y), NearestUp(y / 2.0);
    assert n as real <= y + 0.5 < n as real + 1.0;
    assert h as real <= y / 2.0 + 0.5 < h as real + 1.0;
  }

  /** The payable returns to the net total exactly when the tax is between states or the
      rounded credit is an even number of hundredths; otherwise one hundredth is left over. */
  lemma PayableNeutralIff(d: Doc, nets: seq<real>)
    requires Applies(d) && HeadsApart(d) && |nets| == |d.lines|
    ensures PayableGap(d, nets) == 0.0 <==>
      d.inter || Hundredths(RowAmount(d, nets, 0, |d.lines|)) % 2 == 0
    ensures PayableGap(d, nets) in {-1.0, 0.0, 1.0}
  {
    hide RowAmount, Scaled, RowsOf, Hundredths, PayableGap;
    PayableGapIs(d, nets);
    AmountInShares(d, nets, 0, |d.lines|);
    var t := RowAmount(d, nets, 0, |d.lines|);
    HalvesAddUp(t);
    if !d.inter {
      AmountInShares(d, nets, 1, |d.lines|);
      HalfRounding(t);
    }
  }

  lemma RowAmountOfOne(d: Doc, net: real, row: nat)
    requires Applies(d) && |d.lines| == 1 && row < |RowsOf(d)|
    ensures RowAmount(d, [net], row, 1) == Scaled(LineRate(d, 0, row) / 100.0, net)
  {
    hide Scaled, LineRate, Totalled;
    assert RowAmount(d, [net], row, 0) == 0.0;
  }

  lemma RowAmountOfTwo(d: Doc, x: real, y: real, row: nat)
    requires Applies(d) && |d.lines| == 2 && row < |RowsOf(d)|
    ensures RowAmount(d, [x, y], row, 2)
         == Scaled(LineRate(d, 0, row) / 100.0, x) + Scaled(LineRate(d, 1, row) / 100.0, y)
  {
    hide Scaled, LineRate;
    assert RowAmount(d, [x, y], row, 0) == 0.0;
    assert RowAmount(d, [x, y], row, 1) == RowAmount(d, [x, y], row, 0) + Scaled(LineRate(d, 0, row) / 100.0, x);
  }

  // With a single positive total the header rate is that total.
  lemma SoleInput(d: Doc, x: real)
    requires Applies(d) && HeadsApart(d) && x > 0.0
    requires exists k <- Totalled(d) :: Totalled(d)[k] == x
    requires forall k <- Totalled(d) :: Totalled(d)[k] > 0.0 ==> Totalled(d)[k] == x
    ensures RowsOf(d)[0].rate == x
  {
    hide Totalled, RateSet, OverOf, TemplateRatesOf;
    var given := RateSet(d.lines, Input(d), OverOf(d), TemplateRatesOf(d), |d.lines|);
    forall y
      ensures y in given <==> y == x
    {
      InputRates(d, y);
    }
    assert given == {x};
    assert Sole(given) in {x};
  }
}
