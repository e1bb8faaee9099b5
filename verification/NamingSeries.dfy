/** Document names: patterns, padded counters, and reservation under concurrent transactions. */
module NamingSeries {
  import opened Texts

  // --- Patterns ---

  // A posting date as its strftime renderings.
  datatype DateText = DateText(yyyy: string, yy: string, mm: string, dd: string)

  predicate IsHashRun(part: string) {
    part != "" && forall c <- part :: c == '#'
  }

  function Expand(part: string, date: DateText): string {
    if part == "YYYY" then date.yyyy
    else if part == "YY" then date.yy
    else if part == "MM" then date.mm
    else if part == "DD" then date.dd
    else part
  }

  predicate IsDateToken(part: string) {
    part in {"YYYY", "YY", "MM", "DD"}
  }

  function PrefixOf(parts: seq<string>, date: DateText): string {
    if parts == [] then ""
    else
      var last := parts[|parts|-1];
      PrefixOf(parts[..|parts|-1], date) + if IsHashRun(last) then "" else Expand(last, date)
  }

  // The width of the last run of hashes, five by default.
  function WidthOf(parts: seq<string>): (w: nat)
    ensures w >= 1
  {
    if parts == [] then 5
    else
      var last := parts[|parts|-1];
      if IsHashRun(last) then |last| else WidthOf(parts[..|parts|-1])
  }

  method ExpandSeries(pattern: string, date: DateText) returns (prefix: string, digits: nat)
    ensures prefix == PrefixOf(Split(pattern, '.'), date)
    ensures digits == WidthOf(Split(pattern, '.'))
  {
    var parts := Split(pattern, '.');
    digits := 5;
    prefix := "";
    for i := 0 to |parts|
      invariant prefix == PrefixOf(parts[..i], date) && digits == WidthOf(parts[..i])
    {
      var part := parts[i];
      assert parts[..i+1][..i] == parts[..i];
      if IsDateToken(part) {
        NotHashes(part);
        prefix := prefix + Expand(part, date);
      } else if IsHashRun(part) {
        digits := |part|;
      } else {
        prefix := prefix + part;
      }
    }
    assert parts[..|parts|] == parts;
  }

  lemma NotHashes(part: string)
    requires IsDateToken(part)
    ensures !IsHashRun(part)
  {
    NotHashRun(part);
  }

  function WithoutHashes(parts: seq<string>): seq<string> {
    if parts == [] then []
    else
      var last := parts[|parts|-1];
      WithoutHashes(parts[..|parts|-1]) + if IsHashRun(last) then [] else [last]
  }

  // Runs of hashes never reach the prefix, wherever they stand.
  lemma {:induction false} HashesLeaveNoTrace(parts: seq<string>, date: DateText)
    ensures PrefixOf(WithoutHashes(parts), date) == PrefixOf(parts, date)
  {
    if parts != [] {
      var front, last := parts[..|parts|-1], parts[|parts|-1];
      HashesLeaveNoTrace(front, date);
      var kept := WithoutHashes(front);
      if !IsHashRun(last) {
        assert (kept + [last])[..|kept|] == kept;
      } else {
        assert kept + [] == kept;
      }
    }
  }

  // --- What a pattern stands for ---

  // Tokens take their part of the date, runs of hashes vanish, all other parts stand for themselves.
  ghost predicate Renders(part: string, date: DateText, text: string) {
    if part == "YYYY" then text == date.yyyy
    else if part == "YY" then text == date.yy
    else if part == "MM" then text == date.mm
    else if part == "DD" then text == date.dd
    else if part != "" && forall c <- part :: c == '#' then text == ""
    else text == part
  }

  ghost function Glue(texts: seq<string>): string {
    if texts == [] then "" else texts[0] + Glue(texts[1..])
  }

  lemma {:induction false} GlueSnoc(texts: seq<string>, last: string)
    ensures Glue(texts + [last]) == Glue(texts) + last
  {
    if texts == [] {
      assert [last][1..] == [] && [] + [last] == [last];
    } else {
      assert (texts + [last])[1..] == texts[1..] + [last];
      GlueSnoc(texts[1..], last);
    }
  }

  function Piece(part: string, date: DateText): string {
    if IsHashRun(part) then "" else Expand(part, date)
  }

  lemma RendersPiece(part: string, date: DateText)
    ensures forall text :: Renders(part, date, text) <==> text == Piece(part, date)
  {
    if IsDateToken(part) {
      NotHashes(part);
    }
  }

  lemma PrefixSnoc(front: seq<string>, last: string, date: DateText)
    ensures PrefixOf(front + [last], date) == PrefixOf(front, date) + Piece(last, date)
  {
    assert (front + [last])[..|front|] == front;
  }

  /** The prefix is what the parts of the pattern stand for, put together. */
  lemma {:induction false} PrefixIsParts(parts: seq<string>, date: DateText, texts: seq<string>)
    requires |texts| == |parts| && forall i | 0 <= i < |parts| :: Renders(parts[i], date, texts[i])
    ensures PrefixOf(parts, date) == Glue(texts)
  {
    hide Renders, Piece;
    if parts != [] {
      var last := |parts| - 1;
      hide Glue, PrefixOf;
      PrefixIsParts(parts[..last], date, texts[..last]);
      assert texts == texts[..last] + [texts[last]] && parts == parts[..last] + [parts[last]];
      GlueSnoc(texts[..last], texts[last]);
      PrefixSnoc(parts[..last], parts[last], date);
      RendersPiece(parts[last], date);
    }
  }

  /** The width is the length of the last run of hashes, and five where there is none. */
  lemma {:induction false} WidthIsLastRun(parts: seq<string>) returns (i: int)
    ensures -1 <= i < |parts| && forall j | i < j < |parts| :: !IsHashRun(parts[j])
    ensures WidthOf(parts) == if i < 0 then 5 else |parts[i]|
    ensures i >= 0 ==> IsHashRun(parts[i])
  {
    i := |parts| - 1;
    if parts != [] && !IsHashRun(parts[i]) {
      i := WidthIsLastRun(parts[..|parts|-1]);
    }
  }

  ghost predicate ExpandsTo(pattern: string, date: DateText, prefix: string, digits: nat) {
    PrefixOf(Split(pattern, '.'), date) == prefix && WidthOf(Split(pattern, '.')) == digits
  }

  // A part and a dot before a pattern.
  lemma PartBefore(part: string, text: string, rest: string, date: DateText, prefix: string, digits: nat)
    requires '.' !in part && !IsHashRun(part) && Renders(part, date, text)
    requires ExpandsTo(rest, date, prefix, digits)
    ensures ExpandsTo(part + "." + rest, date, text + prefix, digits)
  {
    hide Split, Renders, PrefixOf, WidthOf, Piece;
    SplitHead(part, rest, '.');
    RendersPiece(part, date);
    PrefixCons(part, Split(rest, '.'), date);
    WidthCons(part, Split(rest, '.'));
  }

  lemma {:induction false} PrefixCons(part: string, rest: seq<string>, date: DateText)
    ensures PrefixOf([part] + rest, date) == Piece(part, date) + PrefixOf(rest, date)
  {
    assert PrefixOf([], date) == "";
    hide Piece, PrefixOf;
    if rest == [] {
      PrefixSnoc([], part, date);
      assert [part] + rest == [] + [part];
    } else {
      var front, last := rest[..|rest|-1], rest[|rest|-1];
      PrefixCons(part, front, date);
      PrefixSnoc([part] + front, last, date);
      PrefixSnoc(front, last, date);
      assert [part] + rest == [part] + front + [last] && rest == front + [last];
    }
  }

  lemma {:induction false} WidthCons(part: string, rest: seq<string>)
    requires !IsHashRun(part)
    ensures WidthOf([part] + rest) == WidthOf(rest)
  {
    hide IsHashRun;
    if rest == [] {
      assert [part] + rest == [part] && [part][..0] == [];
    } else {
      WidthCons(part, rest[..|rest|-1]);
      assert ([part] + rest)[..|rest|] == [part] + rest[..|rest|-1];
    }
  }

  // A pattern of one part.
  lemma LastPart(part: string, date: DateText, text: string)
    requires '.' !in part && Renders(part, date, text)
    ensures ExpandsTo(part, date, text, if IsHashRun(part) then |part| else 5)
  {
    SplitWord(part, '.');
    RendersPiece(part, date);
    PrefixSnoc([], part, date);
    assert [part][..0] == [] && [] + [part] == [part];
    assert text == Piece(part, date);
    assert PrefixOf([part], date) == "" + text == text;
    assert WidthOf([part]) == if IsHashRun(part) then |part| else 5;
  }

  lemma DashRenders(date: DateText)
    ensures Renders("-", date, "-") && !IsHashRun("-")
    ensures !IsHashRun("YYYY") && !IsHashRun("YY") && !IsHashRun("MM") && !IsHashRun("DD")
  {
    NotHashRun("-");
    NotHashRun("YYYY");
    NotHashRun("YY");
    NotHashRun("MM");
    NotHashRun("DD");
  }

  // A literal part longer than any token.
  lemma LiteralRenders(part: string, date: DateText)
    requires |part| > 4 || (part != "" && part[|part|-1] == '-')
    requires part[0] != '#'
    ensures Renders(part, date, part) && !IsHashRun(part)
  {
    NotHashRun(part);
  }

  /** The documented patterns: literals, tokens for the date between dots, a width of five unless
      hashes say otherwise. */
  lemma DocumentedPatterns(date: DateText)
    ensures ExpandsTo("SINV-.YYYY.-", date, "SINV-" + (date.yyyy + "-"), 5)
    ensures ExpandsTo("JV-.YYYY.-.###", date, "JV-" + (date.yyyy + ("-" + "")), 3)
    ensures ExpandsTo("PO-.YY.-.MM.-.DD.-.#####", date,
                      "PO-" + (date.yy + ("-" + (date.mm + ("-" + (date.dd + ("-" + "")))))), 5)
  {
    hide ExpandsTo, IsHashRun;
    DashRenders(date);
    LiteralRenders("SINV-", date);
    LiteralRenders("JV-", date);
    LiteralRenders("PO-", date);
    LastPart("-", date, "-");
    PartBefore("YYYY", date.yyyy, "-", date, "-", 5);
    PartBefore("SINV-", "SINV-", "YYYY" + "." + "-", date, date.yyyy + "-", 5);
    HashesEnd(date);
    PartBefore("-", "-", "###", date, "", 3);
    PartBefore("YYYY", date.yyyy, "-" + "." + "###", date, "-" + "", 3);
    PartBefore("JV-", "JV-", "YYYY" + "." + ("-" + "." + "###"), date, date.yyyy + ("-" + ""), 3);
    assert "SINV-.YYYY.-" == "SINV-" + "." + ("YYYY" + "." + "-");
    assert "JV-.YYYY.-.###" == "JV-" + "." + ("YYYY" + "." + ("-" + "." + "###"));
    FullPattern(date);
  }

  lemma HashesEnd(date: DateText)
    ensures ExpandsTo("###", date, "", 3) && ExpandsTo("#####", date, "", 5)
  {
    LastPart("###", date, "");
    LastPart("#####", date, "");
  }

  lemma FullPattern(date: DateText)
    ensures ExpandsTo("PO-.YY.-.MM.-.DD.-.#####", date,
                      "PO-" + (date.yy + ("-" + (date.mm + ("-" + (date.dd + ("-" + "")))))), 5)
  {
    hide ExpandsTo, IsHashRun;
    DashRenders(date);
    LiteralRenders("PO-", date);
    HashesEnd(date);
    var p1 := "-" + "." + "#####";
    var p2 := "DD" + "." + p1;
    var p3 := "-" + "." + p2;
    var p4 := "MM" + "." + p3;
    var p5 := "-" + "." + p4;
    var p6 := "YY" + "." + p5;
    PartBefore("-", "-", "#####", date, "", 5);
    PartBefore("DD", date.dd, p1, date, "-" + "", 5);
    PartBefore("-", "-", p2, date, date.dd + ("-" + ""), 5);
    PartBefore("MM", date.mm, p3, date, "-" + (date.dd + ("-" + "")), 5);
    PartBefore("-", "-", p4, date, date.mm + ("-" + (date.dd + ("-" + ""))), 5);
    PartBefore("YY", date.yy, p5, date, "-" + (date.mm + ("-" + (date.dd + ("-" + "")))), 5);
    PartBefore("PO-", "PO-", p6, date, date.yy + ("-" + (date.mm + ("-" + (date.dd + ("-" + ""))))), 5);
    assert "PO-.YY.-.MM.-.DD.-.#####" == "PO-" + "." + p6;
  }

  // --- Padded decimals ---

  function Digit(d: nat): char
    requires d < 10
  {
    ('0' as int + d) as char
  }

  function Decimal(n: nat): (s: string)
    ensures s != "" && AllDigits(s)
  {
    if n < 10 then [Digit(n)] else Decimal(n / 10) + [Digit(n % 10)]
  }

  function ZeroPad(s: string, width: nat): (r: string)
    ensures AllDigits(s) ==> AllDigits(r)
    ensures |r| == if |s| < width then width else |s|
    decreases width - |s|
  {
    if |s| >= width then s else ZeroPad("0" + s, width)
  }

  function FormatName(prefix: string, value: nat, digits: nat): string {
    prefix + ZeroPad(Decimal(value), digits)
  }

  function Parse(s: string): nat
    requires AllDigits(s)
  {
    if s == "" then 0 else 10 * Parse(s[..|s|-1]) + (s[|s|-1] as int - '0' as int)
  }

  lemma {:induction false} ParseDecimal(n: nat)
    ensures Parse(Decimal(n)) == n
  {
    if n >= 10 {
      ParseDecimal(n / 10);
      assert Decimal(n)[..|Decimal(n)|-1] == Decimal(n / 10);
    }
  }

  lemma {:induction false} ParseZero(s: string)
    requires AllDigits(s)
    ensures AllDigits("0" + s) && Parse("0" + s) == Parse(s)
  {
    if s == "" {
      assert "0"[..0] == "";
    } else {
      ParseZero(s[..|s|-1]);
      assert ("0" + s)[..|s|] == "0" + s[..|s|-1];
    }
  }

  lemma {:induction false} ParsePadded(s: string, width: nat)
    requires AllDigits(s)
    ensures Parse(ZeroPad(s, width)) == Parse(s)
    decreases width - |s|
  {
    if |s| < width {
      ParseZero(s);
      ParsePadded("0" + s, width);
    }
  }

  /** With one prefix, different numbers never give the same name, whatever the widths. */
  lemma WidthsNeverCollide(prefix: string, v: nat, w: nat, digits: nat, digits': nat)
    requires FormatName(prefix, v, digits) == FormatName(prefix, w, digits')
    ensures v == w
  {
    var a, b := ZeroPad(Decimal(v), digits), ZeroPad(Decimal(w), digits');
    assert (prefix + a)[|prefix|..] == a && (prefix + b)[|prefix|..] == b;
    ParseDecimal(v);
    ParseDecimal(w);
    ParsePadded(Decimal(v), digits);
    ParsePadded(Decimal(w), digits');
  }

  // Patterns that differ in their runs of hashes only draw from one counter, without clashes.
  lemma PatternsShareWithoutClash(pattern: string, pattern': string, date: DateText, v: nat, w: nat)
    requires WithoutHashes(Split(pattern, '.')) == WithoutHashes(Split(pattern', '.'))
    ensures PrefixOf(Split(pattern, '.'), date) == PrefixOf(Split(pattern', '.'), date)
    ensures v != w ==>
      FormatName(PrefixOf(Split(pattern, '.'), date), v, WidthOf(Split(pattern, '.')))
        != FormatName(PrefixOf(Split(pattern', '.'), date), w, WidthOf(Split(pattern', '.')))
  {
    HashesLeaveNoTrace(Split(pattern, '.'), date);
    HashesLeaveNoTrace(Split(pattern', '.'), date);
    if v != w && FormatName(PrefixOf(Split(pattern, '.'), date), v, WidthOf(Split(pattern, '.')))
        == FormatName(PrefixOf(Split(pattern', '.'), date), w, WidthOf(Split(pattern', '.'))) {
      WidthsNeverCollide(PrefixOf(Split(pattern, '.'), date), v, w,
                         WidthOf(Split(pattern, '.')), WidthOf(Split(pattern', '.')));
    }
  }

  // --- Names of different series ---

  // Some numbers that the two series hand out, at some widths, carry one name.
  ghost predicate Clash(p: string, q: string) {
    exists v: nat, w: nat, digits: nat, digits': nat ::
      v >= 1 && w >= 1 && digits >= 1 && digits' >= 1 && FormatName(p, v, digits) == FormatName(q, w, digits')
  }

  // q is p followed by digits only.
  predicate ExtendedByDigits(p: string, q: string) {
    p < q && AllDigits(q[|p|..])
  }

  lemma {:induction false} SameDigits(a: string, b: string)
    requires |a| == |b| && AllDigits(a) && AllDigits(b) && Parse(a) == Parse(b)
    ensures a == b
  {
    if a != "" {
      SameDigits(a[..|a|-1], b[..|b|-1]);
      assert a == a[..|a|-1] + [a[|a|-1]] && b == b[..|b|-1] + [b[|b|-1]];
    }
  }

  lemma {:induction false} DecimalIsShortest(s: string)
    requires s != "" && AllDigits(s)
    ensures |Decimal(Parse(s))| <= |s|
  {
    var front := s[..|s|-1];
    if front == "" {
      assert Parse(front) == 0;
    } else {
      DecimalIsShortest(front);
      var d := s[|s|-1] as int - '0' as int;
      assert Parse(s) == 10 * Parse(front) + d && Parse(s) / 10 == Parse(front);
    }
  }

  // Every string of digits is some number, padded to its length.
  lemma DigitsArePadded(s: string)
    requires s != "" && AllDigits(s)
    ensures ZeroPad(Decimal(Parse(s)), |s|) == s
  {
    DecimalIsShortest(s);
    ParseDecimal(Parse(s));
    ParsePadded(Decimal(Parse(s)), |s|);
    SameDigits(ZeroPad(Decimal(Parse(s)), |s|), s);
  }

  lemma ClashMeansExtension(p: string, q: string, v: nat, w: nat, digits: nat, digits': nat)
    requires |p| <= |q| && p != q && FormatName(p, v, digits) == FormatName(q, w, digits')
    ensures ExtendedByDigits(p, q)
  {
    hide Decimal, ZeroPad;
    var a, b := ZeroPad(Decimal(v), digits), ZeroPad(Decimal(w), digits');
    var name := p + a;
    assert name == q + b;
    assert p == name[..|p|] == q[..|p|];
    forall i | 0 <= i < |q[|p|..]|
      ensures '0' <= q[|p|..][i] <= '9'
    {
      assert q[|p|..][i] == name[|p| + i] == a[i];
    }
  }

  // The first number of the longer series at width one.
  lemma ExtensionClashes(p: string, q: string)
    requires ExtendedByDigits(p, q)
    ensures Clash(p, q) && Clash(q, p)
  {
    var digits := q[|p|..] + "1";
    var v := Parse(digits);
    assert digits[..|digits|-1] == q[|p|..] && v >= 1;
    DigitsArePadded(digits);
    assert p + digits == q + "1";
    assert FormatName(p, v, |digits|) == FormatName(q, 1, 1);
  }

  /** Two series can produce one name if and only if the prefix of one is that of the other
      followed by digits only. */
  lemma SeriesClashIff(p: string, q: string)
    requires p != q
    ensures Clash(p, q) <==> ExtendedByDigits(p, q) || ExtendedByDigits(q, p)
  {
    if Clash(p, q) {
      var v: nat, w: nat, digits: nat, digits': nat :| v >= 1 && w >= 1 && digits >= 1 && digits' >= 1
        && FormatName(p, v, digits) == FormatName(q, w, digits');
      if |p| <= |q| {
        ClashMeansExtension(p, q, v, w, digits, digits');
      } else {
        ClashMeansExtension(q, p, w, v, digits', digits);
      }
    }
    if ExtendedByDigits(p, q) {
      ExtensionClashes(p, q);
    }
    if ExtendedByDigits(q, p) {
      ExtensionClashes(q, p);
    }
  }

  /** Two patterns that draw from different counters: the eleventh document of "X.#" and the
      first one of "X1.#" are both named X11. */
  lemma SeriesCanCollide(date: DateText)
    ensures var p, q := Split("X.#", '.'), Split("X1.#", '.');
      && PrefixOf(p, date) != PrefixOf(q, date)
      && FormatName(PrefixOf(p, date), 11, WidthOf(p)) == FormatName(PrefixOf(q, date), 1, WidthOf(q)) == "X11"
  {
    hide Split, PrefixOf, WidthOf, FormatName, IsHashRun;
    NotHashRun("X");
    NotHashRun("X1");
    HashPattern("X", date);
    HashPattern("X1", date);
    assert "X" + "." + "#" == "X.#" && "X1" + "." + "#" == "X1.#";
    BothX11();
    assert |"X"| != |"X1"|;
  }

  lemma NotHashRun(literal: string)
    requires literal != "" && literal[0] != '#'
    ensures !IsHashRun(literal)
  {
    assert literal[0] in literal;
  }

  lemma BothX11()
    ensures FormatName("X", 11, 1) == FormatName("X1", 1, 1) == "X11"
  {
    assert Decimal(11) == Decimal(1) + [Digit(1)] == "11";
    assert "X" + "11" == "X1" + "1" == "X11";
  }

  lemma HashPattern(literal: string, date: DateText)
    requires '.' !in literal && !IsDateToken(literal) && !IsHashRun(literal)
    ensures PrefixOf(Split(literal + "." + "#", '.'), date) == literal
    ensures WidthOf(Split(literal + "." + "#", '.')) == 1
  {
    SplitHead(literal, "#", '.');
    SplitWord("#", '.');
    var parts := [literal, "#"];
    assert Split(literal + "." + "#", '.') == parts;
    assert parts[..1] == [literal] && [literal][..0] == [];
    assert IsHashRun("#");
    assert PrefixOf([literal], date) == "" + literal;
    assert PrefixOf(parts, date) == PrefixOf([literal], date) + "";
  }

  // --- One session ---

  datatype Series = Series(prefix: string, company: nat)

  function CounterOf(counters: map<Series, nat>, s: Series): nat {
    if s in counters then counters[s] else 0
  }

  class Namer {
    var counters: map<Series, nat>

    method GetNextName(pattern: string, company: nat, date: DateText) returns (name: string)
      modifies this
      ensures var s := Series(PrefixOf(Split(pattern, '.'), date), company);
        && counters == old(counters)[s := CounterOf(old(counters), s) + 1]
        && name == FormatName(s.prefix, counters[s], WidthOf(Split(pattern, '.')))
    {
      var prefix, digits := ExpandSeries(pattern, date);
      var s := Series(prefix, company);
      if s in counters {
        counters := counters[s := counters[s] + 1];
      } else {
        counters := counters[s := 1];
      }
      name := FormatName(prefix, counters[s], digits);
    }

    method PeekNextName(pattern: string, company: nat, date: DateText) returns (name: string)
      ensures var s := Series(PrefixOf(Split(pattern, '.'), date), company);
        name == FormatName(s.prefix, CounterOf(counters, s) + 1, WidthOf(Split(pattern, '.')))
    {
      var prefix, digits := ExpandSeries(pattern, date);
      var current := 0;
      if Series(prefix, company) in counters {
        current := counters[Series(prefix, company)];
      }
      name := FormatName(prefix, current + 1, digits);
    }
  }

  // A preview is what the next reservation yields when nothing comes in between.
  method PeekThenGet(n: Namer, pattern: string, company: nat, date: DateText) returns (peeked: string, got: string)
    modifies n
    ensures peeked == got
  {
    peeked := n.PeekNextName(pattern, company, date);
    got := n.GetNextName(pattern, company, date);
  }
}
