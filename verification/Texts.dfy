/** Splitting at a separator and joining again, stripping white space, upper case, search. */
module Texts {

  function Join(ws: seq<string>, sep: char): string {
    if ws == [] then "" else if |ws| == 1 then ws[0]
    else ws[0] + [sep] + Join(ws[1..], sep)
  }

  function Split(s: string, sep: char): (r: seq<string>)
    ensures |r| >= 1
    ensures forall w <- r :: sep !in w
  {
    if s == "" then [""]
    else
      var rest := Split(s[1..], sep);
      if s[0] == sep then [""] + rest else [[s[0]] + rest[0]] + rest[1..]
  }

  lemma {:induction false} SplitWord(w: string, sep: char)
    requires sep !in w
    ensures Split(w, sep) == [w]
  {
    if w != "" {
      SplitWord(w[1..], sep);
      assert [w[0]] + w[1..] == w;
    }
  }

  lemma {:induction false} SplitHead(w: string, rest: string, sep: char)
    requires sep !in w
    ensures Split(w + [sep] + rest, sep) == [w] + Split(rest, sep)
  {
    var s := w + [sep] + rest;
    if w == "" {
      assert s[1..] == rest;
    } else {
      SplitHead(w[1..], rest, sep);
      assert s[1..] == w[1..] + [sep] + rest;
      assert [w[0]] + w[1..] == w;
    }
  }

  // Words that do not hold the separator survive joining and splitting.
  lemma {:induction false} SplitJoin(ws: seq<string>, sep: char)
    requires ws != [] && forall w <- ws :: sep !in w
    ensures Split(Join(ws, sep), sep) == ws
  {
    if |ws| == 1 {
      SplitWord(ws[0], sep);
    } else {
      SplitJoin(ws[1..], sep);
      SplitHead(ws[0], Join(ws[1..], sep), sep);
    }
  }

  // Splitting loses nothing.
  lemma {:induction false} JoinSplit(s: string, sep: char)
    ensures Join(Split(s, sep), sep) == s
  {
    if s != "" {
      JoinSplit(s[1..], sep);
      var rest := Split(s[1..], sep);
      assert s == [s[0]] + s[1..];
      if s[0] == sep {
        assert ([""] + rest)[1..] == rest;
      } else {
        var words := [[s[0]] + rest[0]] + rest[1..];
        assert words[1..] == rest[1..];
      }
    }
  }

  lemma {:induction false} JoinConcat(a: seq<string>, b: seq<string>, sep: char)
    requires a != [] && b != []
    ensures Join(a + b, sep) == Join(a, sep) + [sep] + Join(b, sep)
  {
    if |a| == 1 {
      assert (a + b)[1..] == b;
    } else {
      assert (a + b)[1..] == a[1..] + b;
      JoinConcat(a[1..], b, sep);
    }
  }

  // --- Stripping ---

  // What Python's str.strip removes.
  predicate IsSpace(c: char) {
    var n := c as int;
    9 <= n <= 13 || 28 <= n <= 32 || n in {0x85, 0xa0, 0x1680, 0x2028, 0x2029, 0x202f, 0x205f, 0x3000}
    || 0x2000 <= n <= 0x200a
  }

  function StripStart(s: string): (r: string)
    ensures |r| <= |s|
  {
    if s != "" && IsSpace(s[0]) then StripStart(s[1..]) else s
  }

  function StripEnd(s: string): (r: string)
    ensures |r| <= |s|
  {
    if s != "" && IsSpace(s[|s|-1]) then StripEnd(s[..|s|-1]) else s
  }

  function Strip(s: string): string {
    StripEnd(StripStart(s))
  }

  predicate AllSpaces(s: string) {
    forall c <- s :: IsSpace(c)
  }

  // No white space at either end.
  predicate Flush(s: string) {
    s != "" ==> !IsSpace(s[0]) && !IsSpace(s[|s|-1])
  }

  // Stripping removes all white space around, and nothing else.
  lemma {:induction false} StripOf(before: string, body: string, after: string)
    requires AllSpaces(before) && AllSpaces(after) && Flush(body)
    ensures Strip(before + body + after) == body
  {
    if before != "" {
      assert before[0] in before;
      assert (before + body + after)[1..] == before[1..] + body + after;
      assert forall c <- before[1..] :: c in before;
      StripOf(before[1..], body, after);
    } else {
      assert before + body + after == body + after;
      if body == "" {
        assert body + after == after;
        StripSpaces(after);
      } else {
        assert StripStart(body + after) == body + after;
        StripEndOf(body, after);
      }
    }
  }

  lemma {:induction false} StripSpaces(s: string)
    requires AllSpaces(s)
    ensures StripStart(s) == ""
  {
    if s != "" {
      assert s[0] in s;
      assert forall c <- s[1..] :: c in s;
      StripSpaces(s[1..]);
    }
  }

  lemma {:induction false} StripEndOf(body: string, after: string)
    requires AllSpaces(after) && body != "" && !IsSpace(body[|body|-1])
    ensures StripEnd(body + after) == body
  {
    if after == "" {
      assert body + after == body;
    } else {
      var last := |after| - 1;
      assert after[last] in after;
      assert (body + after)[..|body + after| - 1] == body + after[..last];
      assert forall c <- after[..last] :: c in after;
      StripEndOf(body, after[..last]);
    }
  }

  lemma StripParts(s: string) returns (before: string, after: string)
    ensures s == before + Strip(s) + after && AllSpaces(before) && AllSpaces(after) && Flush(Strip(s))
  {
    before := StripStartParts(s);
    after := StripEndParts(StripStart(s));
    hide IsSpace, StripStart, StripEnd;
    var t := Strip(s);
    assert t == StripEnd(StripStart(s)) && StripStart(s) == t + after;
    if t != "" {
      assert t[0] == StripStart(s)[0];
    }
  }

  lemma {:induction false} StripStartParts(s: string) returns (before: string)
    ensures s == before + StripStart(s) && AllSpaces(before)
    ensures StripStart(s) != "" ==> !IsSpace(StripStart(s)[0])
  {
    before := "";
    if s != "" && IsSpace(s[0]) {
      var rest := StripStartParts(s[1..]);
      before := [s[0]] + rest;
      assert s == [s[0]] + s[1..];
    }
  }

  lemma {:induction false} StripEndParts(s: string) returns (after: string)
    ensures s == StripEnd(s) + after && AllSpaces(after)
    ensures StripEnd(s) != "" ==> !IsSpace(StripEnd(s)[|StripEnd(s)|-1])
  {
    after := "";
    if s != "" && IsSpace(s[|s|-1]) {
      var rest := StripEndParts(s[..|s|-1]);
      after := rest + [s[|s|-1]];
      assert s == s[..|s|-1] + [s[|s|-1]];
    }
  }

  // --- Characters ---

  predicate AllDigits(s: string) {
    forall i | 0 <= i < |s| :: '0' <= s[i] <= '9'
  }

  function Upper(s: string): string {
    seq(|s|, i requires 0 <= i < |s| => if 'a' <= s[i] <= 'z' then (s[i] as int - 32) as char else s[i])
  }

  // The text holds the other one, letters compared without case.
  predicate Contains(text: string, part: string) {
    exists i | 0 <= i <= |text| :: Upper(part) <= Upper(text)[i..]
  }

  // One letter in both cases, or one character.
  predicate SameLetter(c: char, d: char) {
    c == d || ('a' <= c <= 'z' && c as int - 32 == d as int) || ('a' <= d <= 'z' && d as int - 32 == c as int)
  }

  ghost predicate OccursAt(text: string, part: string, i: nat) {
    i + |part| <= |text| && forall m | 0 <= m < |part| :: SameLetter(text[i+m], part[m])
  }

  lemma ContainsMeans(text: string, part: string)
    ensures Contains(text, part) <==> exists i: nat :: OccursAt(text, part, i)
  {
    if Contains(text, part) {
      var i :| 0 <= i <= |text| && Upper(part) <= Upper(text)[i..];
      UpperOccurs(text, part, i);
    }
    if i: nat :| OccursAt(text, part, i) {
      UpperOccurs(text, part, i);
    }
  }

  lemma UpperOccurs(text: string, part: string, i: nat)
    requires i <= |text|
    ensures Upper(part) <= Upper(text)[i..] <==> OccursAt(text, part, i)
  {
    var rest := Upper(text)[i..];
    if Upper(part) <= rest {
      forall m | 0 <= m < |part|
        ensures SameLetter(text[i+m], part[m])
      {
        assert Upper(part)[m] == rest[m] == Upper(text)[i+m];
      }
    }
    if OccursAt(text, part, i) {
      forall m | 0 <= m < |part|
        ensures Upper(part)[m] == rest[m]
      {
        assert SameLetter(text[i+m], part[m]) && rest[m] == Upper(text)[i+m];
      }
      assert rest[..|part|] == Upper(part);
    }
  }
}
