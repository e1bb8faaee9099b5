/** Whole numbers in words, in international and in Indian grouping, and reading them back. */
module NumberWords {
  import opened Texts

  const ONES: seq<string> := [
    "", "One", "Two", "Three", "Four", "Five", "Six", "Seven", "Eight", "Nine",
    "Ten", "Eleven", "Twelve", "Thirteen", "Fourteen", "Fifteen", "Sixteen",
    "Seventeen", "Eighteen", "Nineteen"]
  const TENS: seq<string> := ["", "", "Twenty", "Thirty", "Forty", "Fifty", "Sixty", "Seventy", "Eighty", "Ninety"]
  const GROUPS: seq<string> := ["", "Thousand", "Million", "Billion", "Trillion"]
  const UNITS: seq<string> := ["Thousand", "Lakh", "Crore", "Arab", "Kharab"]

  const INTERNATIONAL_BOUND := 1_000_000_000_000_000
  const INDIAN_BOUND := 10_000_000_000_000

  // --- The words, as sequences ---

  function UnderHundredWords(n: nat): seq<string>
    requires n < 100
  {
    if n >= 20 then [if n % 10 != 0 then TENS[n / 10] + "-" + ONES[n % 10] else TENS[n / 10]]
    else if n > 0 then [ONES[n]] else []
  }

  function UnderThousandWords(n: nat): seq<string>
    requires n < 1000
  {
    (if n >= 100 then [ONES[n / 100], "Hundred"] else []) + UnderHundredWords(n % 100)
  }

  function GroupWords(chunk: nat, g: nat): seq<string>
    requires chunk < 1000 && g < 5
  {
    if chunk == 0 then [] else UnderThousandWords(chunk) + if g == 0 then [] else [GROUPS[g]]
  }

  // Groups g and above, most significant first.
  function InternationalGroups(n: nat, g: nat): seq<string>
    requires g <= 5
    decreases 5 - g
  {
    if n == 0 || g == 5 then []
    else InternationalGroups(n / 1000, g + 1) + GroupWords(n % 1000, g)
  }

  function InternationalWords(n: nat): seq<string> {
    if n == 0 then ["Zero"] else InternationalGroups(n, 0)
  }

  function UnitWords(pair: nat, u: nat): seq<string>
    requires pair < 100 && u < 5
  {
    if pair == 0 then [] else UnderThousandWords(pair) + [UNITS[u]]
  }

  function IndianUnits(n: nat, u: nat): seq<string>
    requires u <= 5
    decreases 5 - u
  {
    if n == 0 || u == 5 then []
    else IndianUnits(n / 100, u + 1) + UnitWords(n % 100, u)
  }

  function IndianWords(n: nat): seq<string> {
    if n == 0 then ["Zero"] else IndianUnits(n / 1000, 0) + UnderThousandWords(n % 1000)
  }

  // --- The loops that build the text ---

  function Reversed(s: seq<string>): seq<string> {
    if s == [] then [] else [s[|s|-1]] + Reversed(s[..|s|-1])
  }

  lemma ReversedSnoc(s: seq<string>, x: string)
    ensures Reversed(s + [x]) == [x] + Reversed(s)
  {
    assert (s + [x])[..|s|] == s;
  }

  method UnderThousand(number: nat) returns (text: string)
    requires number < 1000
    ensures text == Join(UnderThousandWords(number), ' ')
  {
    var n := number;
    var parts: seq<string> := [];
    if n >= 100 {
      parts := parts + [ONES[n / 100] + " Hundred"];
      n := n % 100;
    }
    ghost var hundreds := parts;
    assert n == number % 100;
    if n >= 20 {
      var word := TENS[n / 10];
      if n % 10 != 0 {
        word := word + "-" + ONES[n % 10];
      }
      assert UnderHundredWords(n) == [word];
      parts := parts + [word];
    } else if n > 0 {
      assert UnderHundredWords(n) == [ONES[n]];
      parts := parts + [ONES[n]];
    } else {
      assert UnderHundredWords(n) == [] && parts + [] == parts;
    }
    assert parts == hundreds + UnderHundredWords(n);
    HundredText(number, hundreds);
    text := Join(parts, ' ');
  }

  lemma HundredText(n: nat, hundreds: seq<string>)
    requires n < 1000
    requires hundreds == if n >= 100 then [ONES[n / 100] + " Hundred"] else []
    ensures Join(hundreds + UnderHundredWords(n % 100), ' ') == Join(UnderThousandWords(n), ' ')
  {
    if n >= 100 {
      var words := [ONES[n / 100], "Hundred"];
      assert words[1..] == ["Hundred"] && " Hundred" == " " + "Hundred";
      assert ONES[n / 100] + [' '] + "Hundred" == ONES[n / 100] + " Hundred";
      PhrasesJoin(hundreds, words, UnderHundredWords(n % 100));
    }
  }

  // Joining a finished phrase with more words equals joining all words.
  lemma PhrasesJoin(phrases: seq<string>, words: seq<string>, more: seq<string>)
    requires phrases != [] && words != [] && Join(phrases, ' ') == Join(words, ' ')
    ensures Join(phrases + more, ' ') == Join(words + more, ' ')
  {
    if more == [] {
      assert phrases + more == phrases && words + more == words;
    } else {
      JoinConcat(phrases, more, ' ');
      JoinConcat(words, more, ' ');
    }
  }

  // Phrases and words side by side: same text, empty together.
  ghost predicate SameText(phrases: seq<string>, words: seq<string>) {
    Join(phrases, ' ') == Join(words, ' ') && (phrases == [] <==> words == [])
  }

  lemma SameTextSnoc(phrases: seq<string>, words: seq<string>, more: seq<string>)
    requires SameText(phrases, words) && more != []
    ensures SameText(phrases + [Join(more, ' ')], words + more)
  {
    if phrases == [] {
      assert phrases + [Join(more, ' ')] == [Join(more, ' ')] && words + more == more;
    } else {
      JoinConcat(phrases, [Join(more, ' ')], ' ');
      JoinConcat(words, more, ' ');
    }
  }

  ghost function InternationalPhrases(n: nat, g: nat): seq<string>
    requires g <= 5
    decreases 5 - g
  {
    if n == 0 || g == 5 then []
    else
      var phrase := if n % 1000 == 0 then [] else [Join(GroupWords(n % 1000, g), ' ')];
      InternationalPhrases(n / 1000, g + 1) + phrase
  }

  lemma {:induction false} InternationalSameText(n: nat, g: nat)
    requires g <= 5
    ensures SameText(InternationalPhrases(n, g), InternationalGroups(n, g))
    decreases 5 - g
  {
    if n != 0 && g < 5 {
      InternationalSameText(n / 1000, g + 1);
      if n % 1000 != 0 {
        SomeWords(n % 1000);
        SameTextSnoc(InternationalPhrases(n / 1000, g + 1), InternationalGroups(n / 1000, g + 1), GroupWords(n % 1000, g));
      } else {
        assert InternationalPhrases(n, g) == InternationalPhrases(n / 1000, g + 1);
        assert InternationalGroups(n, g) == InternationalGroups(n / 1000, g + 1);
      }
    }
  }

  lemma SomeWords(n: nat)
    requires 0 < n < 1000
    ensures UnderThousandWords(n) != []
  {
  }

  const GROUP_TEXTS: seq<string> := ["", " Thousand", " Million", " Billion", " Trillion"]
  const UNIT_TEXTS: seq<string> := [" Thousand", " Lakh", " Crore", " Arab", " Kharab"]

  // One turn of the loop moves one group from the number to the front of the list.
  lemma GroupStep(n: nat, g: nat, out: seq<string>, phrase: string)
    requires n > 0 && g < 5
    requires n % 1000 != 0 ==> phrase == Join(GroupWords(n % 1000, g), ' ')
    ensures InternationalPhrases(n, g) + Reversed(out)
         == InternationalPhrases(n / 1000, g + 1) + Reversed(if n % 1000 != 0 then out + [phrase] else out)
  {
    ReversedSnoc(out, phrase);
  }

  lemma UnitStep(n: nat, u: nat, out: seq<string>, phrase: string)
    requires n > 0 && u < 5
    requires n % 100 != 0 ==> phrase == Join(UnitWords(n % 100, u), ' ')
    ensures IndianPhrases(n, u) + Reversed(out)
         == IndianPhrases(n / 100, u + 1) + Reversed(if n % 100 != 0 then out + [phrase] else out)
  {
    ReversedSnoc(out, phrase);
  }

  lemma GroupText(chunk: nat, g: nat)
    requires 0 < chunk < 1000 && g < 5
    ensures Join(UnderThousandWords(chunk), ' ') + GROUP_TEXTS[g] == Join(GroupWords(chunk, g), ' ')
  {
    SomeWords(chunk);
    if g == 0 {
      assert UnderThousandWords(chunk) + [] == UnderThousandWords(chunk);
    } else {
      assert GROUP_TEXTS[g] == " " + GROUPS[g];
      JoinConcat(UnderThousandWords(chunk), [GROUPS[g]], ' ');
    }
  }

  lemma UnitText(pair: nat, u: nat)
    requires 0 < pair < 100 && u < 5
    ensures Join(UnderThousandWords(pair), ' ') + UNIT_TEXTS[u] == Join(UnitWords(pair, u), ' ')
  {
    SomeWords(pair);
    assert UNIT_TEXTS[u] == " " + UNITS[u];
    JoinConcat(UnderThousandWords(pair), [UNITS[u]], ' ');
  }

  method IntWordsInternational(number: nat) returns (text: string)
    ensures text == Join(InternationalWords(number), ' ')
  {
    if number == 0 {
      return "Zero";
    }
    var out: seq<string> := [];
    var n, g := number, 0;
    while n > 0 && g < 5
      invariant 0 <= n && 0 <= g <= 5
      invariant InternationalPhrases(number, 0) == InternationalPhrases(n, g) + Reversed(out)
      decreases 5 - g
    {
      var chunk := n % 1000;
      ghost var before := out;
      ghost var phrase := "";
      if chunk != 0 {
        var words := UnderThousand(chunk);
        GroupText(chunk, g);
        phrase := words + GROUP_TEXTS[g];
        out := out + [words + GROUP_TEXTS[g]];
      }
      GroupStep(n, g, before, phrase);
      n := n / 1000;
      g := g + 1;
    }
    assert InternationalPhrases(n, g) == [];
    assert InternationalPhrases(number, 0) == Reversed(out);
    InternationalSameText(number, 0);
    text := Join(Reversed(out), ' ');
  }

  ghost function IndianPhrases(n: nat, u: nat): seq<string>
    requires u <= 5
    decreases 5 - u
  {
    if n == 0 || u == 5 then []
    else
      var phrase := if n % 100 == 0 then [] else [Join(UnitWords(n % 100, u), ' ')];
      IndianPhrases(n / 100, u + 1) + phrase
  }

  lemma {:induction false} IndianSameText(n: nat, u: nat)
    requires u <= 5
    ensures SameText(IndianPhrases(n, u), IndianUnits(n, u))
    decreases 5 - u
  {
    if n != 0 && u < 5 {
      IndianSameText(n / 100, u + 1);
      if n % 100 != 0 {
        SameTextSnoc(IndianPhrases(n / 100, u + 1), IndianUnits(n / 100, u + 1), UnitWords(n % 100, u));
      } else {
        assert IndianPhrases(n, u) == IndianPhrases(n / 100, u + 1);
        assert IndianUnits(n, u) == IndianUnits(n / 100, u + 1);
      }
    }
  }

  method IntWordsIndian(number: nat) returns (text: string)
    ensures text == Join(IndianWords(number), ' ')
  {
    if number == 0 {
      return "Zero";
    }
    var last3 := number % 1000;
    var n, u := number / 1000, 0;
    var out: seq<string> := [];
    while n > 0 && u < 5
      invariant 0 <= n && 0 <= u <= 5
      invariant IndianPhrases(number / 1000, 0) == IndianPhrases(n, u) + Reversed(out)
      decreases 5 - u
    {
      var pair := n % 100;
      ghost var before := out;
      ghost var phrase := "";
      if pair != 0 {
        var words := UnderThousand(pair);
        UnitText(pair, u);
        phrase := words + UNIT_TEXTS[u];
        out := out + [words + UNIT_TEXTS[u]];
      }
      UnitStep(n, u, before, phrase);
      n := n / 100;
      u := u + 1;
    }
    var head := Join(Reversed(out), ' ');
    var tail := UnderThousand(last3);
    text := Strip(head + " " + tail);
    assert IndianPhrases(n, u) == [];
    assert IndianPhrases(number / 1000, 0) == Reversed(out);
    IndianText(number);
  }

  lemma IndianText(n: nat)
    requires n != 0
    ensures Strip(Join(IndianPhrases(n / 1000, 0), ' ') + " " + Join(UnderThousandWords(n % 1000), ' '))
         == Join(IndianWords(n), ' ')
  {
    IndianSameText(n / 1000, 0);
    AllTrim(n);
    IndianTail(IndianUnits(n / 1000, 0), UnderThousandWords(n % 1000));
  }

  // --- Stripping ---

  // A text that neither starts nor ends in white space.
  ghost predicate Trim(s: string) {
    s != "" && Flush(s)
  }

  ghost predicate TrimWords(ws: seq<string>) {
    forall w <- ws :: Trim(w)
  }

  lemma {:induction false} JoinTrim(ws: seq<string>)
    requires ws != [] && TrimWords(ws)
    ensures Trim(Join(ws, ' '))
  {
    assert ws[0] in ws;
    if |ws| > 1 {
      JoinTrim(ws[1..]);
      var rest := Join(ws[1..], ' ');
      assert Join(ws, ' ')[|Join(ws, ' ')| - 1] == rest[|rest| - 1];
      assert Join(ws, ' ')[0] == ws[0][0];
    }
  }

  lemma StripAround(s: string)
    requires Trim(s)
    ensures Strip(s) == Strip(" " + s) == Strip(s + " ") == s
  {
    assert (" " + s)[1..] == s;
    assert (s + " ")[..|s|] == s;
  }

  lemma IndianTail(head: seq<string>, tail: seq<string>)
    requires TrimWords(head) && TrimWords(tail)
    ensures Strip(Join(head, ' ') + " " + Join(tail, ' ')) == Join(head + tail, ' ')
  {
    if head == [] && tail == [] {
      assert Strip(" ") == "" by { assert " "[1..] == ""; }
      assert "" + " " + "" == " ";
    } else if head == [] {
      JoinTrim(tail);
      StripAround(Join(tail, ' '));
      assert head + tail == tail && "" + " " + Join(tail, ' ') == " " + Join(tail, ' ');
    } else if tail == [] {
      JoinTrim(head);
      StripAround(Join(head, ' '));
      assert head + tail == head && Join(head, ' ') + " " + "" == Join(head, ' ') + " ";
    } else {
      JoinConcat(head, tail, ' ');
      JoinTrim(head + tail);
      StripAround(Join(head + tail, ' '));
    }
  }

  // --- Every word is trim, starts in upper case and holds no blank ---

  ghost predicate PlainWord(w: string) {
    w != "" && 'A' <= w[0] <= 'Z' && !IsSpace(w[|w|-1]) && ' ' !in w
  }

  ghost predicate PlainWords(ws: seq<string>) {
    forall w <- ws :: PlainWord(w)
  }

  lemma PlainIsTrim(ws: seq<string>)
    requires PlainWords(ws)
    ensures TrimWords(ws)
  {
  }

  lemma OnePlain(n: nat)
    requires 1 <= n < 20
    ensures PlainWord(ONES[n])
  {
  }

  lemma TenPlain(n: nat)
    requires 2 <= n < 10
    ensures PlainWord(TENS[n])
  {
  }

  lemma HyphenatedPlain(t: string, o: string)
    requires PlainWord(t) && PlainWord(o)
    ensures PlainWord(t + "-" + o)
  {
    var w := t + "-" + o;
    assert w[0] == t[0] && w[|w|-1] == o[|o|-1];
  }

  lemma UnderHundredPlain(n: nat)
    requires n < 100
    ensures PlainWords(UnderHundredWords(n))
  {
    if n >= 20 {
      TenPlain(n / 10);
      if n % 10 != 0 {
        OnePlain(n % 10);
        HyphenatedPlain(TENS[n / 10], ONES[n % 10]);
      }
    } else if n > 0 {
      OnePlain(n);
    }
  }

  lemma UnderThousandPlain(n: nat)
    requires n < 1000
    ensures PlainWords(UnderThousandWords(n))
  {
    if n >= 100 {
      OnePlain(n / 100);
    }
    UnderHundredPlain(n % 100);
  }

  lemma ScalesPlain(i: nat)
    requires i < 5
    ensures PlainWord(UNITS[i]) && (i > 0 ==> PlainWord(GROUPS[i]))
  {
  }

  lemma {:induction false} InternationalPlain(n: nat, g: nat)
    requires g <= 5
    ensures PlainWords(InternationalGroups(n, g))
    decreases 5 - g
  {
    if n != 0 && g < 5 {
      InternationalPlain(n / 1000, g + 1);
      UnderThousandPlain(n % 1000);
      ScalesPlain(g);
    }
  }

  lemma {:induction false} IndianPlain(n: nat, u: nat)
    requires u <= 5
    ensures PlainWords(IndianUnits(n, u))
    decreases 5 - u
  {
    if n != 0 && u < 5 {
      IndianPlain(n / 100, u + 1);
      UnderThousandPlain(n % 100);
      ScalesPlain(u);
    }
  }

  lemma AllTrim(n: nat)
    ensures TrimWords(IndianUnits(n / 1000, 0)) && TrimWords(UnderThousandWords(n % 1000))
  {
    IndianPlain(n / 1000, 0);
    UnderThousandPlain(n % 1000);
    PlainIsTrim(IndianUnits(n / 1000, 0));
    PlainIsTrim(UnderThousandWords(n % 1000));
  }

  // --- Numbers spelled out, between them with every word of the tables ---

  lemma OneMoreGroup(n: nat, g: nat, more: seq<string>, words: seq<string>)
    requires n > 0 && g < 5 && InternationalGroups(n / 1000, g + 1) == more && GroupWords(n % 1000, g) == words
    ensures InternationalGroups(n, g) == more + words
  {
  }

  lemma OneMoreUnit(n: nat, u: nat, more: seq<string>, words: seq<string>)
    requires n > 0 && u < 5 && IndianUnits(n / 100, u + 1) == more && UnitWords(n % 100, u) == words
    ensures IndianUnits(n, u) == more + words
  {
  }

  lemma NoGroups(g: nat)
    requires g <= 5
    ensures InternationalGroups(0, g) == []
  {
  }

  lemma NoUnits(u: nat)
    requires u <= 5
    ensures IndianUnits(0, u) == []
  {
  }

  lemma SpelledHighTeens()
    ensures InternationalWords(19018017016015) ==
      ["Nineteen", "Trillion", "Eighteen", "Billion", "Seventeen", "Million", "Sixteen", "Thousand", "Fifteen"]
  {
    hide InternationalGroups, IndianUnits;
    NoGroups(5);
    OneMoreGroup(19, 4, [], ["Nineteen", "Trillion"]);
    OneMoreGroup(19018, 3, ["Nineteen", "Trillion"], ["Eighteen", "Billion"]);
    OneMoreGroup(19018017, 2, ["Nineteen", "Trillion", "Eighteen", "Billion"], ["Seventeen", "Million"]);
    OneMoreGroup(19018017016, 1, ["Nineteen", "Trillion", "Eighteen", "Billion", "Seventeen", "Million"],
                 ["Sixteen", "Thousand"]);
    OneMoreGroup(19018017016015, 0, ["Nineteen", "Trillion", "Eighteen", "Billion", "Seventeen", "Million",
                                     "Sixteen", "Thousand"], ["Fifteen"]);
  }

  lemma SpelledTens()
    ensures IndianWords(2030405060700) ==
      ["Twenty", "Kharab", "Thirty", "Arab", "Forty", "Crore", "Fifty", "Lakh", "Sixty", "Thousand", "Seven", "Hundred"]
  {
    hide InternationalGroups, IndianUnits, UnitWords, UnderThousandWords;
    NoUnits(5);
    TenUnits();
    OneMoreUnit(20, 4, [], ["Twenty", "Kharab"]);
    OneMoreUnit(2030, 3, ["Twenty", "Kharab"], ["Thirty", "Arab"]);
    OneMoreUnit(203040, 2, ["Twenty", "Kharab", "Thirty", "Arab"], ["Forty", "Crore"]);
    OneMoreUnit(20304050, 1, ["Twenty", "Kharab", "Thirty", "Arab", "Forty", "Crore"], ["Fifty", "Lakh"]);
    OneMoreUnit(2030405060, 0, ["Twenty", "Kharab", "Thirty", "Arab", "Forty", "Crore", "Fifty", "Lakh"],
                ["Sixty", "Thousand"]);
  }

  lemma TenUnits()
    ensures UnitWords(20, 4) == ["Twenty", "Kharab"] && UnitWords(30, 3) == ["Thirty", "Arab"]
    ensures UnitWords(40, 2) == ["Forty", "Crore"] && UnitWords(50, 1) == ["Fifty", "Lakh"]
    ensures UnitWords(60, 0) == ["Sixty", "Thousand"] && UnderThousandWords(700) == ["Seven", "Hundred"]
  {
    hide UnitWords, UnderThousandWords;
    UnitOf(20, 4, "Twenty");
    UnitOf(30, 3, "Thirty");
    UnitOf(40, 2, "Forty");
    UnitOf(50, 1, "Fifty");
    UnitOf(60, 0, "Sixty");
    SevenHundred();
  }

  lemma UnitOf(pair: nat, u: nat, word: string)
    requires 0 < pair < 100 && u < 5 && UnderHundredWords(pair) == [word]
    ensures UnitWords(pair, u) == [word, UNITS[u]]
  {
    hide UnderHundredWords;
  }

  lemma SevenHundred()
    ensures UnderThousandWords(700) == ["Seven", "Hundred"]
  {
    assert UnderHundredWords(0) == [];
  }

  lemma SpelledBelowSixty()
    ensures UnderHundredWords(10) == ["Ten"] && UnderHundredWords(11) == ["Eleven"] && UnderHundredWords(12) == ["Twelve"]
    ensures UnderHundredWords(13) == ["Thirteen"] && UnderHundredWords(14) == ["Fourteen"]
    ensures UnderHundredWords(21) == ["Twenty-One"] && UnderHundredWords(32) == ["Thirty-Two"]
    ensures UnderHundredWords(43) == ["Forty-Three"] && UnderHundredWords(54) == ["Fifty-Four"]
  {
    assert "Twenty" + "-" + "One" == "Twenty-One" && "Thirty" + "-" + "Two" == "Thirty-Two";
    assert "Forty" + "-" + "Three" == "Forty-Three" && "Fifty" + "-" + "Four" == "Fifty-Four";
  }

  lemma SpelledAboveSixty()
    ensures UnderHundredWords(65) == ["Sixty-Five"] && UnderHundredWords(76) == ["Seventy-Six"]
    ensures UnderHundredWords(87) == ["Eighty-Seven"] && UnderHundredWords(98) == ["Ninety-Eight"]
    ensures UnderHundredWords(99) == ["Ninety-Nine"]
  {
    assert "Sixty" + "-" + "Five" == "Sixty-Five" && "Seventy" + "-" + "Six" == "Seventy-Six";
    assert "Eighty" + "-" + "Seven" == "Eighty-Seven" && "Ninety" + "-" + "Eight" == "Ninety-Eight";
    assert "Ninety" + "-" + "Nine" == "Ninety-Nine";
  }
}
