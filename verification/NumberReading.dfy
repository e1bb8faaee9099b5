/** A reader of number words, and what it finds in the two renderings: the number itself up
    to the bound of each grouping, and the number modulo that bound beyond. */
module NumberReading {
  import opened Prelude
  import opened Texts
  import opened NumberWords

  // --- The reader ---

  // Position of a word in a table, 0 when absent.
  function Lookup(table: seq<string>, w: string, n: nat): (i: nat)
    requires n <= |table|
    ensures i < n || i == 0
  {
    if n <= 1 then 0 else if table[n-1] == w then n - 1 else Lookup(table, w, n - 1)
  }

  // 1 to 99, hyphenated or not; 0 for anything else.
  function SmallValue(w: string): nat {
    var parts := Split(w, '-');
    if |parts| == 1 then
      var one := Lookup(ONES, w, 20);
      if one > 0 then one else 10 * Lookup(TENS, w, 10)
    else if |parts| == 2 then 10 * Lookup(TENS, parts[0], 10) + Lookup(ONES, parts[1], 20)
    else 0
  }

  // Words that act on the number read so far, and what the scales among them are worth.
  const MARKERS: seq<string> := [
    "", "Zero", "Hundred", "Thousand", "Million", "Billion", "Trillion", "Lakh", "Crore", "Arab", "Kharab"]

  function Worth(m: nat): nat {
    if m == 3 then 1000
    else if m == 4 then 1_000_000
    else if m == 5 then 1_000_000_000
    else if m == 6 then 1_000_000_000_000
    else if m == 7 then 100_000
    else if m == 8 then 10_000_000
    else if m == 9 then 1_000_000_000
    else if m == 10 then 100_000_000_000
    else 1
  }

  // What is complete, and the number still being read.
  datatype Tally = Tally(total: nat, current: nat)

  function Take(t: Tally, w: string): Option<Tally> {
    var m := Lookup(MARKERS, w, 11);
    if m == 1 then Some(t)
    else if m == 2 then Some(Tally(t.total, t.current * 100))
    else if m > 2 then Some(Tally(t.total + t.current * Worth(m), 0))
    else
      var small := SmallValue(w);
      if small > 0 then Some(Tally(t.total, t.current + small)) else None
  }

  function ReadFrom(t: Tally, ws: seq<string>): Option<Tally>
    decreases |ws|
  {
    if ws == [] then Some(t)
    else
      match Take(t, ws[0])
      case None => None
      case Some(next) => ReadFrom(next, ws[1..])
  }

  function Read(ws: seq<string>): Option<nat> {
    match ReadFrom(Tally(0, 0), ws)
    case None => None
    case Some(t) => Some(t.total + t.current)
  }

  lemma {:induction false} ReadConcat(t: Tally, a: seq<string>, b: seq<string>)
    ensures ReadFrom(t, a + b) ==
      match ReadFrom(t, a) case None => None case Some(next) => ReadFrom(next, b)
    decreases |a|
  {
    if a == [] {
      assert a + b == b;
    } else {
      assert (a + b)[1..] == a[1..] + b;
      match Take(t, a[0])
      case None =>
      case Some(next) => ReadConcat(next, a[1..], b);
    }
  }

  lemma ReadNothing(t: Tally)
    ensures ReadFrom(t, []) == Some(t)
  {
  }

  lemma ReadOne(t: Tally, w: string)
    ensures ReadFrom(t, [w]) == Take(t, w)
  {
  }

  // --- The vocabulary is unambiguous ---

  lemma OnesDistinct(i: nat, j: nat)
    requires 1 <= i < 20 && 1 <= j < 20 && ONES[i] == ONES[j]
    ensures i == j
  {
  }

  lemma TensDistinct(i: nat, j: nat)
    requires 2 <= i < 10 && 2 <= j < 10 && TENS[i] == TENS[j]
    ensures i == j
  {
  }

  lemma OnesAreNotTens(i: nat, j: nat)
    requires 1 <= i < 20 && 2 <= j < 10
    ensures ONES[i] != TENS[j]
  {
    assert TENS[j][|TENS[j]|-1] == 'y';
    assert ONES[i][|ONES[i]|-1] != 'y';
  }

  lemma NoHyphens(i: nat, j: nat)
    requires 1 <= i < 20 && 2 <= j < 10
    ensures '-' !in ONES[i] && '-' !in TENS[j]
  {
  }

  lemma {:induction false} LookupOnes(i: nat, n: nat)
    requires 1 <= i < n <= 20
    ensures Lookup(ONES, ONES[i], n) == i
    decreases n
  {
    if n - 1 > i {
      if ONES[n-1] == ONES[i] { OnesDistinct(n - 1, i); }
      LookupOnes(i, n - 1);
    }
  }

  lemma {:induction false} LookupTens(i: nat, n: nat)
    requires 2 <= i < n <= 10
    ensures Lookup(TENS, TENS[i], n) == i
    decreases n
  {
    if n - 1 > i {
      if TENS[n-1] == TENS[i] { TensDistinct(n - 1, i); }
      LookupTens(i, n - 1);
    }
  }

  lemma {:induction false} TensNotInOnes(j: nat, n: nat)
    requires 2 <= j < 10 && n <= 20
    ensures Lookup(ONES, TENS[j], n) == 0
    decreases n
  {
    if n > 1 {
      OnesAreNotTens(n - 1, j);
      TensNotInOnes(j, n - 1);
    }
  }

  lemma SmallWordsReadBack(n: nat)
    requires 0 < n < 100
    ensures SmallValue(UnderHundredWords(n)[0]) == n
  {
    if n >= 20 {
      var t, o := n / 10, n % 10;
      NoHyphens(1, t);
      LookupTens(t, 10);
      if o == 0 {
        SplitWord(TENS[t], '-');
        TensNotInOnes(t, 20);
      } else {
        NoHyphens(o, t);
        LookupOnes(o, 20);
        SplitHead(TENS[t], ONES[o], '-');
        SplitWord(ONES[o], '-');
        assert TENS[t] + "-" + ONES[o] == TENS[t] + ['-'] + ONES[o];
      }
    } else {
      NoHyphens(n, 2);
      SplitWord(ONES[n], '-');
      LookupOnes(n, 20);
    }
  }

  lemma MarkersDistinct(i: nat, j: nat)
    requires 1 <= i < 11 && 1 <= j < 11 && MARKERS[i] == MARKERS[j]
    ensures i == j
  {
  }

  lemma {:induction false} LookupMarkers(i: nat, n: nat)
    requires 1 <= i < n <= 11
    ensures Lookup(MARKERS, MARKERS[i], n) == i
    decreases n
  {
    if n - 1 > i {
      if MARKERS[n-1] == MARKERS[i] { MarkersDistinct(n - 1, i); }
      LookupMarkers(i, n - 1);
    }
  }

  lemma OnesAreNoMarkers(i: nat, m: nat)
    requires 1 <= i < 20 && 1 <= m < 11
    ensures ONES[i] != MARKERS[m]
  {
  }

  lemma MarkersHaveNoHyphen(m: nat)
    requires 1 <= m < 11
    ensures '-' !in MARKERS[m] && MARKERS[m] != "" && MARKERS[m][|MARKERS[m]|-1] != 'y'
  {
  }

  lemma TensEndInY(i: nat)
    requires 2 <= i < 10
    ensures TENS[i] != "" && TENS[i][|TENS[i]|-1] == 'y'
  {
  }

  lemma {:induction false} SmallWordsAreNoMarkers(n: nat, m: nat)
    requires 0 < n < 100 && m <= 11
    ensures Lookup(MARKERS, UnderHundredWords(n)[0], m) == 0
    decreases m
  {
    if m > 1 {
      SmallWordsAreNoMarkers(n, m - 1);
      MarkersHaveNoHyphen(m - 1);
      if n >= 20 {
        TensEndInY(n / 10);
        if n % 10 != 0 {
          assert UnderHundredWords(n)[0][|TENS[n / 10]|] == '-';
        }
      } else {
        OnesAreNoMarkers(n, m - 1);
      }
    }
  }

  // --- Reading back ---

  lemma TakeSmall(t: Tally, w: string)
    requires Lookup(MARKERS, w, 11) == 0 && SmallValue(w) > 0
    ensures Take(t, w) == Some(Tally(t.total, t.current + SmallValue(w)))
  {
    hide Lookup, SmallValue;
  }

  lemma TakeScale(t: Tally, m: nat)
    requires 3 <= m < 11
    ensures Take(t, MARKERS[m]) == Some(Tally(t.total + t.current * Worth(m), 0))
  {
    hide Lookup, SmallValue, Worth;
    LookupMarkers(m, 11);
  }

  lemma ReadUnderHundred(t: Tally, n: nat)
    requires n < 100
    ensures ReadFrom(t, UnderHundredWords(n)) == Some(Tally(t.total, t.current + n))
  {
    hide Take, SmallValue, Lookup;
    ReadNothing(t);
    if n > 0 {
      var w := UnderHundredWords(n)[0];
      assert UnderHundredWords(n) == [w];
      SmallWordsReadBack(n);
      SmallWordsAreNoMarkers(n, 11);
      TakeSmall(t, w);
      ReadOne(t, w);
    }
  }

  lemma ReadHundreds(total: nat, h: nat)
    requires 1 <= h < 10
    ensures ReadFrom(Tally(total, 0), [ONES[h], "Hundred"]) == Some(Tally(total, h * 100))
  {
    assert UnderHundredWords(h) == [ONES[h]];
    ReadUnderHundred(Tally(total, 0), h);
    ReadConcat(Tally(total, 0), [ONES[h]], ["Hundred"]);
    ReadOne(Tally(total, h), "Hundred");
    LookupMarkers(2, 11);
    assert [ONES[h]] + ["Hundred"] == [ONES[h], "Hundred"];
  }

  lemma UnderThousandParts(n: nat)
    requires n < 1000
    ensures n < 100 ==> UnderThousandWords(n) == UnderHundredWords(n)
    ensures n >= 100 ==> UnderThousandWords(n) == [ONES[n / 100], "Hundred"] + UnderHundredWords(n % 100)
  {
    if n < 100 {
      assert n % 100 == n;
      assert [] + UnderHundredWords(n) == UnderHundredWords(n);
    }
  }

  lemma ReadAboveHundred(total: nat, h: nat, m: nat, ws: seq<string>)
    requires 1 <= h < 10 && m < 100 && ws == [ONES[h], "Hundred"] + UnderHundredWords(m)
    ensures ReadFrom(Tally(total, 0), ws) == Some(Tally(total, h * 100 + m))
  {
    hide ReadFrom, UnderHundredWords;
    ReadHundreds(total, h);
    ReadUnderHundred(Tally(total, h * 100), m);
    ReadConcat(Tally(total, 0), [ONES[h], "Hundred"], UnderHundredWords(m));
  }

  lemma ReadUnderThousand(total: nat, n: nat)
    requires n < 1000
    ensures ReadFrom(Tally(total, 0), UnderThousandWords(n)) == Some(Tally(total, n))
  {
    hide ReadFrom, UnderThousandWords, UnderHundredWords;
    UnderThousandParts(n);
    if n >= 100 {
      ReadAboveHundred(total, n / 100, n % 100, UnderThousandWords(n));
    } else {
      ReadUnderHundred(Tally(total, 0), n);
    }
  }

  // A number followed by the scale word at position m.
  lemma ReadScaled(total: nat, n: nat, m: nat, ws: seq<string>)
    requires n < 1000 && 3 <= m < 11 && ws == UnderThousandWords(n) + [MARKERS[m]]
    ensures ReadFrom(Tally(total, 0), ws) == Some(Tally(total + n * Worth(m), 0))
  {
    hide ReadFrom, UnderThousandWords, Take, Worth;
    ReadUnderThousand(total, n);
    ReadConcat(Tally(total, 0), UnderThousandWords(n), [MARKERS[m]]);
    ReadOne(Tally(total, n), MARKERS[m]);
    TakeScale(Tally(total, n), m);
  }

  // --- International grouping ---

  // What the groups from g on contribute, the loop stopping after trillions.
  function GroupsValue(n: nat, g: nat): nat
    requires 1 <= g <= 5
    decreases 5 - g
  {
    if n == 0 || g == 5 then 0 else GroupsValue(n / 1000, g + 1) + n % 1000 * Worth(g + 2)
  }

  lemma ReadGroup(total: nat, chunk: nat, g: nat)
    requires chunk < 1000 && 1 <= g < 5
    ensures ReadFrom(Tally(total, 0), GroupWords(chunk, g)) == Some(Tally(total + chunk * Worth(g + 2), 0))
  {
    hide ReadFrom, UnderThousandWords, Worth;
    ReadNothing(Tally(total, 0));
    if chunk != 0 {
      assert GROUPS[g] == MARKERS[g + 2];
      ReadScaled(total, chunk, g + 2, GroupWords(chunk, g));
    }
  }

  lemma {:induction false} ReadGroups(n: nat, g: nat)
    requires 1 <= g <= 5
    ensures ReadFrom(Tally(0, 0), InternationalGroups(n, g)) == Some(Tally(GroupsValue(n, g), 0))
    decreases 5 - g
  {
    hide ReadFrom, GroupWords, UnitWords, Worth;
    ReadNothing(Tally(0, 0));
    if n != 0 && g < 5 {
      ReadGroups(n / 1000, g + 1);
      ReadGroup(GroupsValue(n / 1000, g + 1), n % 1000, g);
      ReadConcat(Tally(0, 0), InternationalGroups(n / 1000, g + 1), GroupWords(n % 1000, g));
    }
  }

  lemma GroupsValueIs(n: nat)
    ensures GroupsValue(n / 1000, 1) + n % 1000 == n % INTERNATIONAL_BOUND
  {
    var a := n / 1000;
    var b := a / 1000;
    var c := b / 1000;
    var d := c / 1000;
    var e := d / 1000;
    assert GroupsValue(e, 5) == 0;
    assert GroupsValue(d, 4) == d % 1000 * 1_000_000_000_000;
    assert GroupsValue(c, 3) == GroupsValue(d, 4) + c % 1000 * 1_000_000_000;
    assert GroupsValue(b, 2) == GroupsValue(c, 3) + b % 1000 * 1_000_000;
    assert GroupsValue(a, 1) == GroupsValue(b, 2) + a % 1000 * 1000;
    InternationalDigits(n);
  }

  lemma InternationalDigits(n: nat)
    ensures var a, b, c, d := n / 1000, n / 1000 / 1000, n / 1000 / 1000 / 1000, n / 1000 / 1000 / 1000 / 1000;
      d % 1000 * 1_000_000_000_000 + c % 1000 * 1_000_000_000 + b % 1000 * 1_000_000 + a % 1000 * 1000 + n % 1000
        == n % INTERNATIONAL_BOUND
  {
    var a := n / 1000;
    var b := a / 1000;
    var c := b / 1000;
    var d := c / 1000;
    var e := d / 1000;
    assert n == e * INTERNATIONAL_BOUND
      + (d % 1000 * 1_000_000_000_000 + c % 1000 * 1_000_000_000 + b % 1000 * 1_000_000 + a % 1000 * 1000 + n % 1000);
  }

  lemma InternationalParts(n: nat)
    ensures InternationalWords(n) ==
      if n == 0 then ["Zero"] else InternationalGroups(n / 1000, 1) + UnderThousandWords(n % 1000)
  {
    if n % 1000 == 0 {
      assert UnderThousandWords(0) == [];
    } else {
      assert UnderThousandWords(n % 1000) + [] == UnderThousandWords(n % 1000);
    }
  }

  lemma ReadInternationalParts(thousands: nat, rest: nat, ws: seq<string>)
    requires rest < 1000 && ws == InternationalGroups(thousands, 1) + UnderThousandWords(rest)
    ensures Read(ws) == Some(GroupsValue(thousands, 1) + rest)
  {
    hide ReadFrom, UnderThousandWords, InternationalGroups, IndianUnits, GroupsValue, UnitsValue;
    ReadGroups(thousands, 1);
    ReadUnderThousand(GroupsValue(thousands, 1), rest);
    ReadConcat(Tally(0, 0), InternationalGroups(thousands, 1), UnderThousandWords(rest));
  }

  lemma ReadZero()
    ensures Read(["Zero"]) == Some(0)
  {
    ReadOne(Tally(0, 0), "Zero");
    LookupMarkers(1, 11);
  }

  /** Reading the international words of any number gives it modulo 10^15. */
  lemma ReadInternational(n: nat)
    ensures Read(InternationalWords(n)) == Some(n % INTERNATIONAL_BOUND)
  {
    hide Read, InternationalGroups, UnderThousandWords, InternationalWords, GroupsValue;
    InternationalParts(n);
    if n == 0 {
      ReadZero();
    } else {
      ReadInternationalParts(n / 1000, n % 1000, InternationalWords(n));
      GroupsValueIs(n);
    }
  }

  // --- Indian grouping ---

  // Where the unit words stand among the markers.
  function UnitMarker(u: nat): (m: nat)
    requires u < 5
    ensures 3 <= m < 11
  {
    if u == 0 then 3 else 6 + u
  }

  function UnitsValue(n: nat, u: nat): nat
    requires u <= 5
    decreases 5 - u
  {
    if n == 0 || u == 5 then 0 else UnitsValue(n / 100, u + 1) + n % 100 * Worth(UnitMarker(u))
  }

  lemma ReadUnit(total: nat, pair: nat, u: nat)
    requires pair < 100 && u < 5
    ensures ReadFrom(Tally(total, 0), UnitWords(pair, u)) == Some(Tally(total + pair * Worth(UnitMarker(u)), 0))
  {
    hide ReadFrom, UnderThousandWords, Worth;
    ReadNothing(Tally(total, 0));
    if pair != 0 {
      assert UNITS[u] == MARKERS[UnitMarker(u)];
      ReadScaled(total, pair, UnitMarker(u), UnitWords(pair, u));
    }
  }

  lemma {:induction false} ReadUnits(n: nat, u: nat)
    requires u <= 5
    ensures ReadFrom(Tally(0, 0), IndianUnits(n, u)) == Some(Tally(UnitsValue(n, u), 0))
    decreases 5 - u
  {
    hide ReadFrom, GroupWords, UnitWords, Worth;
    ReadNothing(Tally(0, 0));
    if n != 0 && u < 5 {
      ReadUnits(n / 100, u + 1);
      ReadUnit(UnitsValue(n / 100, u + 1), n % 100, u);
      ReadConcat(Tally(0, 0), IndianUnits(n / 100, u + 1), UnitWords(n % 100, u));
    }
  }

  lemma UnitsValueIs(n: nat)
    ensures UnitsValue(n / 1000, 0) + n % 1000 == n % INDIAN_BOUND
  {
    var a := n / 1000;
    var b := a / 100;
    var c := b / 100;
    var d := c / 100;
    var e := d / 100;
    var f := e / 100;
    assert UnitsValue(f, 5) == 0;
    assert UnitsValue(e, 4) == e % 100 * 100_000_000_000;
    assert UnitsValue(d, 3) == UnitsValue(e, 4) + d % 100 * 1_000_000_000;
    assert UnitsValue(c, 2) == UnitsValue(d, 3) + c % 100 * 10_000_000;
    assert UnitsValue(b, 1) == UnitsValue(c, 2) + b % 100 * 100_000;
    assert UnitsValue(a, 0) == UnitsValue(b, 1) + a % 100 * 1000;
    IndianDigits(n);
  }

  lemma IndianDigits(n: nat)
    ensures var a := n / 1000;
      var b, c, d, e := a / 100, a / 100 / 100, a / 100 / 100 / 100, a / 100 / 100 / 100 / 100;
      e % 100 * 100_000_000_000 + d % 100 * 1_000_000_000 + c % 100 * 10_000_000 + b % 100 * 100_000
        + a % 100 * 1000 + n % 1000 == n % INDIAN_BOUND
  {
    var a := n / 1000;
    var b := a / 100;
    var c := b / 100;
    var d := c / 100;
    var e := d / 100;
    var f := e / 100;
    assert n == f * INDIAN_BOUND
      + (e % 100 * 100_000_000_000 + d % 100 * 1_000_000_000 + c % 100 * 10_000_000 + b % 100 * 100_000
         + a % 100 * 1000 + n % 1000);
  }

  lemma ReadIndianParts(thousands: nat, rest: nat, ws: seq<string>)
    requires rest < 1000 && ws == IndianUnits(thousands, 0) + UnderThousandWords(rest)
    ensures Read(ws) == Some(UnitsValue(thousands, 0) + rest)
  {
    hide ReadFrom, UnderThousandWords, InternationalGroups, IndianUnits, GroupsValue, UnitsValue;
    ReadUnits(thousands, 0);
    ReadUnderThousand(UnitsValue(thousands, 0), rest);
    ReadConcat(Tally(0, 0), IndianUnits(thousands, 0), UnderThousandWords(rest));
  }

  lemma IndianParts(n: nat)
    ensures IndianWords(n) == if n == 0 then ["Zero"] else IndianUnits(n / 1000, 0) + UnderThousandWords(n % 1000)
  {
    hide IndianUnits, UnderThousandWords;
  }

  /** Reading the Indian words of any number gives it modulo 10^13. */
  lemma ReadIndian(n: nat)
    ensures Read(IndianWords(n)) == Some(n % INDIAN_BOUND)
  {
    hide Read, IndianUnits, UnderThousandWords, IndianWords, UnitsValue;
    IndianParts(n);
    if n == 0 {
      ReadZero();
    } else {
      ReadIndianParts(n / 1000, n % 1000, IndianWords(n));
      UnitsValueIs(n);
    }
  }

  /** Each rendering names its number exactly below its bound and never at or beyond it; where
      both apply they denote the same number. */
  lemma WordsRoundTrip(n: nat)
    ensures Read(IndianWords(n)) == Some(n) <==> n < INDIAN_BOUND
    ensures Read(InternationalWords(n)) == Some(n) <==> n < INTERNATIONAL_BOUND
    ensures n < INDIAN_BOUND ==> Read(IndianWords(n)) == Read(InternationalWords(n))
  {
    hide Read, IndianWords, InternationalWords;
    ReadIndian(n);
    ReadInternational(n);
    BelowBound(n, INDIAN_BOUND);
    BelowBound(n, INTERNATIONAL_BOUND);
  }

  lemma BelowBound(n: nat, b: nat)
    requires b > 0
    ensures n % b == n <==> n < b
  {
  }
}
