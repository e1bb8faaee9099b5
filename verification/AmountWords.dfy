/** Amounts of money in words on printed documents, and reading them back. */
module AmountWords {
  import opened Prelude
  import opened Texts
  import opened Rounding
  import opened NumberWords
  import opened NumberReading

  datatype Currency = Currency(major: string, minor: string, indian: bool)

  const CURRENCIES: map<string, Currency> := map[
    "INR" := Currency("Rupees", "Paise", true),
    "USD" := Currency("Dollars", "Cents", false),
    "EUR" := Currency("Euros", "Cents", false),
    "GBP" := Currency("Pounds", "Pence", false),
    "AUD" := Currency("Dollars", "Cents", false),
    "CAD" := Currency("Dollars", "Cents", false),
    "SGD" := Currency("Dollars", "Cents", false),
    "AED" := Currency("Dirhams", "Fils", false),
    "JPY" := Currency("Yen", "Sen", false),
    "CNY" := Currency("Yuan", "Fen", false)]

  // An unknown code stands for itself, without a name for its hundredths.
  function CurrencyOf(code: string): Currency {
    if Upper(code) in CURRENCIES then CURRENCIES[Upper(code)] else Currency(code, "", false)
  }

  function Abs(x: real): real {
    if x < 0.0 then -x else x
  }

  // The magnitude in hundredths, rounded half up.
  function Cents(amount: real): (n: nat)
  {
    var n := Hundredths(Abs(amount));
    assert Abs(amount) * 100.0 >= 0.0;
    n
  }

  // The signed amount in hundredths, rounded half away from zero.
  function SignedCents(amount: real): int {
    if amount < 0.0 then 0 - Cents(amount) else Cents(amount)
  }

  // The nearest whole number of hundredths; a tie goes away from zero.
  lemma SignedCentsAreNearest(amount: real)
    ensures var gap := SignedCents(amount) as real - amount * 100.0;
      -0.5 <= gap <= 0.5 && (gap == 0.5 ==> amount > 0.0) && (gap == -0.5 ==> amount < 0.0)
  {
    hide NearestUp;
    assert Abs(amount) * 100.0 == if amount < 0.0 then -(amount * 100.0) else amount * 100.0;
  }

  function MajorWords(n: nat, c: Currency): seq<string> {
    if c.indian then IndianWords(n) else InternationalWords(n)
  }

  function MinorWords(n: nat, c: Currency): seq<string>
    requires n < 100
  {
    if n == 0 then [] else ["and"] + UnderThousandWords(n) + [c.minor]
  }

  function Body(cents: nat, c: Currency): seq<string> {
    [c.major] + MajorWords(cents / 100, c) + MinorWords(cents % 100, c) + ["Only"]
  }

  function AmountInWordsOf(amount: real, c: Currency): seq<string> {
    (if amount < 0.0 then ["Minus"] else []) + Body(Cents(amount), c)
  }

  // --- The text, built step by step ---

  // A currency whose names are single words, as all listed ones are.
  ghost predicate Named(c: Currency) {
    PlainWord(c.major) && PlainWord(c.minor) && c.major != "Minus"
  }

  lemma ListedAreNamed(code: string)
    requires Upper(code) in CURRENCIES
    ensures Named(CurrencyOf(code))
  {
  }

  function MinorTextOf(n: nat, c: Currency): string
    requires n < 100
  {
    if n == 0 then "" else StripEnd(" and " + Join(UnderThousandWords(n), ' ') + " " + c.minor)
  }

  // What is printed for any currency, listed or not.
  function AmountText(amount: real, c: Currency): string {
    var cents := Cents(amount);
    (if amount < 0.0 then "Minus " else "")
    + (Strip(c.major + " " + Join(MajorWords(cents / 100, c), ' ')) + MinorTextOf(cents % 100, c) + " Only")
  }

  method AmountInWords(amount: real, code: string) returns (text: string)
    ensures text == AmountText(amount, CurrencyOf(code))
    ensures Upper(code) in CURRENCIES ==> text == Join(AmountInWordsOf(amount, CurrencyOf(code)), ' ')
  {
    hide Cents, UnderThousandWords, Strip, StripEnd, IndianWords, InternationalWords, AmountInWordsOf, Join, CurrencyOf;
    var negative := amount < 0.0;
    var cents := Cents(amount);
    var major, minor := cents / 100, cents % 100;
    var c := CurrencyOf(code);
    var words: string;
    if c.indian {
      words := IntWordsIndian(major);
    } else {
      words := IntWordsInternational(major);
    }
    text := Strip(c.major + " " + words);
    if minor != 0 {
      var minorWords := UnderThousand(minor);
      text := text + StripEnd(" and " + minorWords + " " + c.minor);
    }
    text := text + " Only";
    if negative {
      text := "Minus " + text;
    }
    if Upper(code) in CURRENCIES {
      ListedAreNamed(code);
      AmountTextIsWords(amount, c);
    }
  }

  // With single-word names the text is the words joined by blanks.
  lemma AmountTextIsWords(amount: real, c: Currency)
    requires Named(c)
    ensures AmountText(amount, c) == Join(AmountInWordsOf(amount, c), ' ')
  {
    hide Cents, UnderThousandWords, Strip, StripEnd, MajorWords, AmountInWordsOf, Join, Body;
    BodyText(Cents(amount), c);
    SignedText(amount, c);
  }

  lemma SignedText(amount: real, c: Currency)
    ensures Join(AmountInWordsOf(amount, c), ' ')
         == (if amount < 0.0 then "Minus " else "") + Join(Body(Cents(amount), c), ' ')
  {
    hide Cents, MajorWords, MinorWords;
    var body := Body(Cents(amount), c);
    if amount < 0.0 {
      JoinConcat(["Minus"], body, ' ');
      assert "Minus " == "Minus" + [' '];
    } else {
      assert [] + body == body;
    }
  }

  lemma MajorWordsPlain(n: nat, c: Currency)
    ensures PlainWords(MajorWords(n, c))
  {
    if c.indian {
      IndianPlain(n / 1000, 0);
      UnderThousandPlain(n % 1000);
    } else {
      InternationalPlain(n, 0);
    }
  }

  lemma NamedHead(c: Currency)
    requires Named(c)
    ensures TrimWords([c.major]) && Join([c.major], ' ') == c.major
  {
    assert forall w <- [c.major] :: w == c.major;
  }

  lemma MajorText(n: nat, c: Currency)
    requires Named(c)
    ensures Strip(c.major + " " + Join(MajorWords(n, c), ' ')) == Join([c.major] + MajorWords(n, c), ' ')
  {
    hide *;
    NamedHead(c);
    MajorWordsPlain(n, c);
    PlainIsTrim(MajorWords(n, c));
    IndianTail([c.major], MajorWords(n, c));
  }

  lemma MinorText(n: nat, c: Currency)
    requires Named(c) && 0 < n < 100
    ensures MinorWords(n, c) != []
    ensures StripEnd(" and " + Join(UnderThousandWords(n), ' ') + " " + c.minor) == " " + Join(MinorWords(n, c), ' ')
  {
    hide Join, StripEnd;
    SomeWords(n);
    AndText(UnderThousandWords(n), c.minor);
  }

  lemma AndText(words: seq<string>, last: string)
    requires words != [] && PlainWord(last)
    ensures StripEnd(" and " + Join(words, ' ') + " " + last) == " " + Join(["and"] + words + [last], ' ')
  {
    JoinConcat(["and"] + words, [last], ' ');
    JoinConcat(["and"], words, ' ');
    var text := " and " + Join(words, ' ') + " " + last;
    assert " and " == " " + "and" + " ";
    assert text == " " + ("and" + " " + Join(words, ' ') + " " + last);
    assert text[|text|-1] == last[|last|-1];
  }

  lemma BodyText(cents: nat, c: Currency)
    requires Named(c)
    ensures Join(Body(cents, c), ' ') ==
      Strip(c.major + " " + Join(MajorWords(cents / 100, c), ' ')) + MinorTextOf(cents % 100, c) + " Only"
  {
    hide MajorWords, MinorWords, UnderThousandWords, Strip, StripEnd, Join;
    MajorText(cents / 100, c);
    var head := [c.major] + MajorWords(cents / 100, c);
    if cents % 100 != 0 {
      MinorText(cents % 100, c);
      EndText(head, MinorWords(cents % 100, c));
    } else {
      NoMinor(c);
      EndText(head, []);
    }
  }

  lemma NoMinor(c: Currency)
    ensures MinorWords(0, c) == []
  {
  }

  lemma EndText(head: seq<string>, minor: seq<string>)
    requires head != []
    ensures Join(head + minor + ["Only"], ' ')
         == Join(head, ' ') + (if minor != [] then " " + Join(minor, ' ') else "") + " Only"
  {
    JoinConcat(head + minor, ["Only"], ' ');
    assert " Only" == " " + "Only";
    if minor != [] {
      JoinConcat(head, minor, ' ');
      assert Join(head + minor, ' ') == Join(head, ' ') + (" " + Join(minor, ' '));
    } else {
      assert head + minor == head;
    }
  }

  // --- What is printed ---

  /** The listed names, whatever the case of the code; others stand for themselves. */
  lemma CurrencyNames(code: string)
    ensures Upper(code) == "INR" ==> CurrencyOf(code) == Currency("Rupees", "Paise", true)
    ensures Upper(code) in {"USD", "AUD", "CAD", "SGD"} ==> CurrencyOf(code) == Currency("Dollars", "Cents", false)
    ensures Upper(code) == "EUR" ==> CurrencyOf(code) == Currency("Euros", "Cents", false)
    ensures Upper(code) == "GBP" ==> CurrencyOf(code) == Currency("Pounds", "Pence", false)
    ensures Upper(code) == "AED" ==> CurrencyOf(code) == Currency("Dirhams", "Fils", false)
    ensures Upper(code) == "JPY" ==> CurrencyOf(code) == Currency("Yen", "Sen", false)
    ensures Upper(code) == "CNY" ==> CurrencyOf(code) == Currency("Yuan", "Fen", false)
    ensures Upper(code) !in {"INR", "USD", "EUR", "GBP", "AUD", "CAD", "SGD", "AED", "JPY", "CNY"} ==>
      CurrencyOf(code) == Currency(code, "", false)
  {
    hide Upper;
  }

  // With a blank between them if neither is empty.
  function Spaced(a: string, b: string): string {
    if a == "" then b else if b == "" then a else a + " " + b
  }

  /** A currency without a name for its hundredths: its code, if any, the words of the whole part, and
      those of the hundredths if there are any. */
  lemma UnlistedText(amount: real, c: Currency)
    requires Flush(c.major) && c.minor == ""
    ensures var major, minor := Cents(amount) / 100, Cents(amount) % 100;
      AmountText(amount, c) ==
        (if amount < 0.0 then "Minus " else "")
        + (Spaced(c.major, Join(MajorWords(major, c), ' '))
           + (if minor == 0 then "" else " and " + Join(UnderThousandWords(minor), ' ')) + " Only")
  {
    hide Cents, MajorWords, UnderThousandWords, Strip, StripEnd, Join, Flush;
    UnlistedMajor(Cents(amount) / 100, c);
    if Cents(amount) % 100 != 0 {
      UnlistedMinor(Cents(amount) % 100, c);
    }
  }

  lemma UnlistedMajor(n: nat, c: Currency)
    requires Flush(c.major)
    ensures Strip(c.major + " " + Join(MajorWords(n, c), ' ')) == Spaced(c.major, Join(MajorWords(n, c), ' '))
  {
    hide MajorWords, Strip, Join;
    var words := Join(MajorWords(n, c), ' ');
    MajorWordsPlain(n, c);
    PlainIsTrim(MajorWords(n, c));
    if MajorWords(n, c) == [] {
      JoinNothing();
    } else {
      JoinTrim(MajorWords(n, c));
    }
    hide Trim;
    SpacedStrips(c.major, words);
  }

  lemma JoinNothing()
    ensures Join([], ' ') == ""
  {
  }

  lemma SpacedStrips(a: string, b: string)
    requires Flush(a) && Flush(b)
    ensures Strip(a + " " + b) == Spaced(a, b)
  {
    hide Strip;
    assert IsSpace(' ');
    if a == "" {
      StripOf(" ", b, "");
      assert a + " " + b == " " + b + "";
    } else if b == "" {
      StripOf("", a, " ");
      assert a + " " + b == "" + a + " ";
    } else {
      var text := a + " " + b;
      assert text[0] == a[0] && text[|text|-1] == b[|b|-1];
      StripOf("", text, "");
      assert "" + text + "" == text;
    }
  }

  lemma UnlistedMinor(n: nat, c: Currency)
    requires 0 < n < 100 && c.minor == ""
    ensures StripEnd(" and " + Join(UnderThousandWords(n), ' ') + " " + c.minor) == " and " + Join(UnderThousandWords(n), ' ')
  {
    hide UnderThousandWords, StripEnd, Join;
    var words := Join(UnderThousandWords(n), ' ');
    SomeWords(n);
    UnderThousandPlain(n);
    PlainIsTrim(UnderThousandWords(n));
    JoinTrim(UnderThousandWords(n));
    assert IsSpace(' ');
    var body := " and " + words;
    assert body[|body|-1] == words[|words|-1];
    StripEndOf(body, " ");
    assert " and " + words + " " + c.minor == body + " ";
  }

  // --- Reading an amount ---

  function IndexOfAnd(ws: seq<string>): (i: nat)
    ensures i <= |ws|
    ensures i < |ws| ==> ws[i] == "and"
  {
    if ws == [] || ws[0] == "and" then 0 else 1 + IndexOfAnd(ws[1..])
  }

  // Hundredths from the words after the sign.
  function ReadBody(ws: seq<string>, c: Currency): Option<nat> {
    if |ws| < 2 || ws[0] != c.major || ws[|ws|-1] != "Only" then None
    else
      var core := ws[1..|ws|-1];
      var i := IndexOfAnd(core);
      if i == |core| then
        match Read(core) case None => None case Some(n) => Some(n * 100)
      else if i == |core| - 1 || core[|core|-1] != c.minor then None
      else
        match (Read(core[..i]), Read(core[i+1..|core|-1]))
        case (Some(n), Some(m)) => Some(n * 100 + m)
        case _ => None
  }

  function ReadAmount(text: string, c: Currency): Option<int> {
    var ws := Split(text, ' ');
    if ws[0] == "Minus" then
      match ReadBody(ws[1..], c) case None => None case Some(n) => Some(0 - n)
    else
      match ReadBody(ws, c) case None => None case Some(n) => Some(n)
  }

  lemma {:induction false} AndComesAfter(a: seq<string>, b: seq<string>)
    requires PlainWords(a)
    requires b == [] || b[0] == "and"
    ensures IndexOfAnd(a + b) == |a|
  {
    if a != [] {
      assert a[0] in a && PlainWord(a[0]) && a[0] != "and";
      assert (a + b)[1..] == a[1..] + b;
      AndComesAfter(a[1..], b);
    } else {
      assert a + b == b;
    }
  }

  predicate InRange(cents: nat, c: Currency) {
    cents / 100 < if c.indian then INDIAN_BOUND else INTERNATIONAL_BOUND
  }

  lemma ReadMajor(n: nat, c: Currency)
    requires n < if c.indian then INDIAN_BOUND else INTERNATIONAL_BOUND
    ensures Read(MajorWords(n, c)) == Some(n)
  {
    hide Read, IndianWords, InternationalWords;
    WordsRoundTrip(n);
  }

  lemma ReadMinor(n: nat)
    requires n < 100
    ensures Read(UnderThousandWords(n)) == Some(n)
  {
    hide ReadFrom, UnderThousandWords;
    ReadUnderThousand(0, n);
  }

  lemma ReadBodyBack(cents: nat, c: Currency)
    requires Named(c) && InRange(cents, c)
    ensures ReadBody(Body(cents, c), c) == Some(cents)
  {
    hide Read, MajorWords, UnderThousandWords;
    var n, m := cents / 100, cents % 100;
    var ws, major, minor := Body(cents, c), MajorWords(n, c), MinorWords(m, c);
    assert ws[1..|ws|-1] == major + minor;
    MajorWordsPlain(n, c);
    AndComesAfter(major, minor);
    ReadMajor(n, c);
    var core := major + minor;
    if m == 0 {
      assert core == major;
    } else {
      assert core[..|major|] == major;
      assert core[|major|+1..|core|-1] == UnderThousandWords(m);
      ReadMinor(m);
    }
  }

  lemma NoBlanks(amount: real, c: Currency)
    requires Named(c)
    ensures forall w <- AmountInWordsOf(amount, c) :: ' ' !in w
  {
    hide MajorWords, UnderThousandWords;
    var cents := Cents(amount);
    MajorWordsPlain(cents / 100, c);
    UnderThousandPlain(cents % 100);
    forall w | w in AmountInWordsOf(amount, c)
      ensures ' ' !in w
    {
      if w in MajorWords(cents / 100, c) || w in UnderThousandWords(cents % 100) {
        assert PlainWord(w);
      }
    }
  }

  /** For every listed currency and every amount in range, the printed text reads back as the
      signed amount rounded half up to hundredths. */
  lemma AmountRoundTrip(amount: real, code: string)
    requires Upper(code) in CURRENCIES && InRange(Cents(amount), CurrencyOf(code))
    ensures var c := CurrencyOf(code); ReadAmount(AmountText(amount, c), c) == Some(SignedCents(amount))
  {
    hide Read, MajorWords, UnderThousandWords, Split, Join, Cents, ReadBody, AmountText;
    var c := CurrencyOf(code);
    ListedAreNamed(code);
    AmountTextIsWords(amount, c);
    var ws := AmountInWordsOf(amount, c);
    NoBlanks(amount, c);
    SplitJoin(ws, ' ');
    ReadBodyBack(Cents(amount), c);
    if amount < 0.0 {
      assert ws[1..] == Body(Cents(amount), c);
    } else {
      assert ws == Body(Cents(amount), c);
    }
  }

  // The sign is taken before rounding, in every currency.
  lemma SignAndCentsDecide(a: real, b: real, c: Currency)
    requires Cents(a) == Cents(b)
    ensures AmountText(a, c) == AmountText(b, c) <==> (a < 0.0 <==> b < 0.0)
  {
    hide Cents, MajorWords, MinorTextOf, Strip;
    if (a < 0.0) != (b < 0.0) {
      assert |AmountText(a, c)| != |AmountText(b, c)|;
    }
  }

  /** Two amounts in range print alike in a listed currency if and only if they are the same
      once rounded and, where that is zero, both or neither were negative. */
  lemma PrintAlikeIff(a: real, b: real, code: string)
    requires Upper(code) in CURRENCIES
    requires InRange(Cents(a), CurrencyOf(code)) && InRange(Cents(b), CurrencyOf(code))
    ensures AmountText(a, CurrencyOf(code)) == AmountText(b, CurrencyOf(code)) <==>
      SignedCents(a) == SignedCents(b) && (SignedCents(a) == 0 ==> (a < 0.0 <==> b < 0.0))
  {
    hide ReadAmount, AmountText, Cents, CurrencyOf;
    AmountRoundTrip(a, code);
    AmountRoundTrip(b, code);
    if Cents(a) == Cents(b) {
      SignAndCentsDecide(a, b, CurrencyOf(code));
    }
  }

  /** An amount that rounds to zero prints unlike zero if and only if it is a loss of less than
      half a hundredth. */
  lemma MinusZeroIff(a: real, c: Currency)
    ensures SignedCents(a) == 0 && AmountText(a, c) != AmountText(0.0, c) <==> -0.005 < a < 0.0
  {
    hide AmountText;
    assert Abs(0.0) == 0.0 && Cents(0.0) == 0;
    if Cents(a) == 0 {
      SignAndCentsDecide(a, 0.0, c);
    }
  }
}
