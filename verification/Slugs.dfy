/** Turning an account name into a path label. */
module Slugs {
  import opened Texts

  predicate Allowed(c: char) {
    'a' <= c <= 'z' || '0' <= c <= '9' || c == '_'
  }

  function Lower(c: char): char {
    if 'A' <= c <= 'Z' then (c as int + 32) as char else c
  }

  function LowerAll(s: string): (r: string)
    ensures |r| == |s|
  {
    seq(|s|, i requires 0 <= i < |s| => Lower(s[i]))
  }

  // Every maximal run of other characters becomes one underscore.
  function Collapse(s: string, inRun: bool): (r: string)
    ensures forall c <- r :: Allowed(c)
  {
    if s == "" then ""
    else if Allowed(s[0]) then [s[0]] + Collapse(s[1..], false)
    else (if inRun then "" else "_") + Collapse(s[1..], true)
  }

  function StripLeft(s: string): (r: string)
    ensures forall c <- r :: c in s
    ensures r != "" ==> r[0] != '_'
  {
    if s != "" && s[0] == '_' then StripLeft(s[1..]) else s
  }

  function StripRight(s: string): (r: string)
    ensures r <= s
    ensures r != "" ==> r[|r|-1] != '_'
  {
    if s != "" && s[|s|-1] == '_' then StripRight(s[..|s|-1]) else s
  }

  function Slugify(text: string): string {
    var slug := StripRight(StripLeft(Collapse(LowerAll(text), false)));
    if slug == "" then "node" else slug
  }

  ghost predicate IsLabel(s: string) {
    s != "" && s[0] != '_' && s[|s|-1] != '_'
    && forall c <- s :: 'a' <= c <= 'z' || '0' <= c <= '9' || c == '_'
  }

  /** A slug is never empty, holds only lower-case letters, digits and inner underscores, and
      so never a dot. */
  lemma SlugIsLabel(text: string)
    ensures IsLabel(Slugify(text)) && '.' !in Slugify(text)
  {
    var c := Collapse(LowerAll(text), false);
    var l := StripLeft(c);
    var r := StripRight(l);
    hide Collapse, StripLeft, StripRight, LowerAll;
    forall i | 0 <= i < |r|
      ensures Allowed(r[i])
    {
      assert r[i] == l[i] && l[i] in l;
    }
    if r == "" {
      NodeIsLabel();
    } else {
      assert r[0] == l[0];
    }
  }

  lemma NodeIsLabel()
    ensures IsLabel("node") && '.' !in "node"
  {
    assert "node"[0] == 'n' && "node"[3] == 'e';
  }

  lemma {:induction false} CollapseKeepsLabels(s: string, inRun: bool)
    requires forall c <- s :: Allowed(c)
    ensures Collapse(s, inRun) == s
  {
    if s != "" {
      CollapseKeepsLabels(s[1..], false);
    }
  }

  // A label is its own slug; hence slugs are exactly the labels.
  lemma LabelIsItsSlug(s: string)
    requires IsLabel(s)
    ensures Slugify(s) == s
  {
    LowerKeepsLabels(s);
    CollapseKeepsLabels(s, false);
    hide LowerAll, Collapse;
  }

  lemma LowerKeepsLabels(s: string)
    requires forall c <- s :: Allowed(c)
    ensures LowerAll(s) == s
  {
    forall i | 0 <= i < |s|
      ensures LowerAll(s)[i] == s[i]
    {
      assert s[i] in s;
    }
  }

  // --- What a slug is made of ---

  // Lower-case letters, digits and underscores.
  ghost predicate IsWord(s: string) {
    s != "" && forall c <- s :: 'a' <= c <= 'z' || '0' <= c <= '9' || c == '_'
  }

  // No letter of either case, no digit and no underscore.
  ghost predicate IsGap(s: string) {
    s != "" && forall c <- s :: !('a' <= c <= 'z' || 'A' <= c <= 'Z' || '0' <= c <= '9' || c == '_')
  }

  // Nothing that a slug could begin or end with.
  ghost predicate IsMargin(s: string) {
    forall c <- s :: !('a' <= c <= 'z' || 'A' <= c <= 'Z' || '0' <= c <= '9')
  }

  // Words with a gap between any two.
  ghost function Woven(words: seq<string>, gaps: seq<string>): string
    requires |words| == |gaps| + 1
  {
    if |words| == 1 then words[0] else words[0] + gaps[0] + Woven(words[1..], gaps[1..])
  }

  lemma LowerConcat(a: string, b: string)
    ensures LowerAll(a + b) == LowerAll(a) + LowerAll(b)
  {
  }

  lemma {:induction false} CollapseWord(w: string, rest: string, inRun: bool)
    requires IsWord(w)
    ensures Collapse(w + rest, inRun) == w + Collapse(rest, false)
  {
    assert w[0] in w && (w + rest)[1..] == w[1..] + rest;
    if |w| > 1 {
      assert forall c <- w[1..] :: c in w;
      CollapseWord(w[1..], rest, false);
    } else {
      assert w[1..] + rest == rest;
    }
  }

  lemma {:induction false} CollapseGap(gap: string, rest: string, inRun: bool)
    requires IsGap(gap)
    ensures Collapse(gap + rest, inRun) == (if inRun then "" else "_") + Collapse(rest, true)
  {
    assert gap[0] in gap && (gap + rest)[1..] == gap[1..] + rest;
    if |gap| > 1 {
      assert forall c <- gap[1..] :: c in gap;
      CollapseGap(gap[1..], rest, true);
    } else {
      assert gap[1..] + rest == rest;
    }
  }

  // A margin leaves underscores.
  lemma {:induction false} CollapseMargin(margin: string, rest: string, inRun: bool) returns (dashes: string, flag: bool)
    requires IsMargin(margin)
    ensures Collapse(margin + rest, inRun) == dashes + Collapse(rest, flag) && forall c <- dashes :: c == '_'
  {
    if margin == "" {
      dashes, flag := "", inRun;
      assert margin + rest == rest;
    } else {
      assert margin[0] in margin && (margin + rest)[1..] == margin[1..] + rest;
      assert forall c <- margin[1..] :: c in margin;
      var c := margin[0];
      var more;
      more, flag := CollapseMargin(margin[1..], rest, c != '_');
      dashes := (if c == '_' || !inRun then "_" else "") + more;
    }
  }

  lemma {:induction false} CollapseWoven(words: seq<string>, gaps: seq<string>, after: string, inRun: bool)
    requires |words| == |gaps| + 1
    requires (forall w <- words :: IsWord(w)) && (forall g <- gaps :: IsGap(g))
    ensures Collapse(Woven(words, gaps) + after, inRun) == Join(words, '_') + Collapse(after, false)
    decreases |words|
  {
    hide IsWord, IsGap, Collapse;
    assert words[0] in words;
    if |words| == 1 {
      CollapseWord(words[0], after, inRun);
    } else {
      assert gaps[0] in gaps;
      var rest := Woven(words[1..], gaps[1..]) + after;
      assert Woven(words, gaps) + after == words[0] + (gaps[0] + rest);
      CollapseWord(words[0], gaps[0] + rest, inRun);
      CollapseGap(gaps[0], rest, false);
      CollapseWoven(words[1..], gaps[1..], after, true);
      var tail := Collapse(after, false);
      assert words[0] + ("_" + (Join(words[1..], '_') + tail)) == words[0] + "_" + Join(words[1..], '_') + tail;
    }
  }

  lemma {:induction false} StripLeftOf(dashes: string, rest: string)
    requires (forall c <- dashes :: c == '_') && (rest != "" ==> rest[0] != '_')
    ensures StripLeft(dashes + rest) == rest
  {
    if dashes != "" {
      assert dashes[0] in dashes && (dashes + rest)[1..] == dashes[1..] + rest;
      assert forall c <- dashes[1..] :: c in dashes;
      StripLeftOf(dashes[1..], rest);
    } else {
      assert dashes + rest == rest;
    }
  }

  lemma {:induction false} StripRightOf(body: string, dashes: string)
    requires (forall c <- dashes :: c == '_') && (body != "" ==> body[|body|-1] != '_')
    ensures StripRight(body + dashes) == body
  {
    if dashes != "" {
      var last := |dashes| - 1;
      assert dashes[last] in dashes && (body + dashes)[..|body + dashes| - 1] == body + dashes[..last];
      assert forall c <- dashes[..last] :: c in dashes;
      StripRightOf(body, dashes[..last]);
    } else {
      assert body + dashes == body;
    }
  }

  // The same text, letters compared without case.
  ghost predicate SameButCase(a: string, b: string) {
    |a| == |b| && forall i | 0 <= i < |a| :: SameLetter(a[i], b[i])
  }

  lemma LowerIgnoresCase(a: string, b: string)
    requires SameButCase(a, b)
    ensures LowerAll(a) == LowerAll(b)
  {
  }

  // A text of words with gaps between them and margins around.
  ghost predicate MadeOf(text: string, before: string, words: seq<string>, gaps: seq<string>, after: string) {
    && |words| == |gaps| + 1 && (forall w <- words :: IsWord(w)) && (forall g <- gaps :: IsGap(g))
    && IsMargin(before) && IsMargin(after)
    && (var first, last := words[0], words[|gaps|];
        first != "" && first[0] != '_' && last != "" && last[|last|-1] != '_')
    && text == before + (Woven(words, gaps) + after)
  }

  lemma {:induction false} JoinEnds(words: seq<string>)
    requires words != [] && forall w <- words :: w != ""
    ensures words[0] != "" && words[|words|-1] != ""
    ensures var s := Join(words, '_');
      s != "" && s[0] == words[0][0] && s[|s|-1] == words[|words|-1][|words[|words|-1]|-1]
  {
    assert words[0] in words;
    if |words| > 1 {
      assert forall w <- words[1..] :: w in words;
      JoinEnds(words[1..]);
      assert words[1..][|words|-2] == words[|words|-1];
    }
  }

  lemma LowerKeepsWords(s: string)
    requires IsWord(s)
    ensures LowerAll(s) == s
  {
    forall i | 0 <= i < |s|
      ensures LowerAll(s)[i] == s[i]
    {
      assert s[i] in s;
    }
  }

  lemma {:induction false} LowerKeepsWoven(words: seq<string>, gaps: seq<string>)
    requires |words| == |gaps| + 1 && (forall w <- words :: IsWord(w)) && (forall g <- gaps :: IsGap(g))
    ensures LowerAll(Woven(words, gaps)) == Woven(words, gaps)
    decreases |words|
  {
    hide IsWord, IsGap, LowerAll;
    assert words[0] in words;
    LowerKeepsWords(words[0]);
    if |words| > 1 {
      assert gaps[0] in gaps;
      LowerKeepsGap(gaps[0]);
      LowerKeepsWoven(words[1..], gaps[1..]);
      LowerConcat(words[0] + gaps[0], Woven(words[1..], gaps[1..]));
      LowerConcat(words[0], gaps[0]);
    }
  }

  lemma LowerKeepsGap(s: string)
    requires IsGap(s) || IsMargin(s)
    ensures LowerAll(s) == s
  {
    forall i | 0 <= i < |s|
      ensures LowerAll(s)[i] == s[i]
    {
      assert s[i] in s;
    }
  }

  /** Whatever case its letters have, the slug of a text is its words joined by single underscores: a
      gap of any length leaves one underscore, and margins vanish. */
  lemma SlugJoinsWords(text: string, lower: string, before: string, words: seq<string>, gaps: seq<string>, after: string)
    requires SameButCase(text, lower) && MadeOf(lower, before, words, gaps, after)
    ensures Slugify(text) == Join(words, '_')
  {
    LowerIgnoresCase(text, lower);
    LowerKeepsMade(lower, before, words, gaps, after);
    SlugOfLower(lower, before, words, gaps, after);
    hide LowerAll, Collapse, StripLeft, StripRight, MadeOf;
  }

  lemma LowerDecides(a: string, b: string)
    requires LowerAll(a) == LowerAll(b)
    ensures Slugify(a) == Slugify(b)
  {
  }

  // Two labels with a gap between them.
  lemma GapBecomesOne(text: string, a: string, gap: string, b: string)
    requires SameButCase(text, a + gap + b) && IsLabel(a) && IsLabel(b) && IsGap(gap)
    ensures Slugify(text) == a + "_" + b
  {
    var words, gaps := [a, b], [gap];
    assert words[1..] == [b] && gaps[1..] == [];
    assert Woven([b], []) == b && Woven(words, gaps) == a + gap + b;
    assert a + gap + b == "" + (Woven(words, gaps) + "");
    assert MadeOf(a + gap + b, "", words, gaps, "");
    SlugJoinsWords(text, a + gap + b, "", words, gaps, "");
    hide Slugify;
    assert Join([b], '_') == b;
  }

  lemma LowerKeepsMade(lower: string, before: string, words: seq<string>, gaps: seq<string>, after: string)
    requires MadeOf(lower, before, words, gaps, after)
    ensures LowerAll(lower) == lower
  {
    hide LowerAll, IsWord, IsGap, IsMargin;
    LowerKeepsGap(before);
    LowerKeepsGap(after);
    LowerKeepsWoven(words, gaps);
    LowerConcat(before, Woven(words, gaps) + after);
    LowerConcat(Woven(words, gaps), after);
  }

  lemma SlugOfLower(lower: string, before: string, words: seq<string>, gaps: seq<string>, after: string)
    requires MadeOf(lower, before, words, gaps, after)
    ensures StripRight(StripLeft(Collapse(lower, false))) == Join(words, '_') != ""
  {
    forall w | w in words
      ensures w != ""
    {
      assert IsWord(w);
    }
    hide Collapse, StripLeft, StripRight, IsWord, IsGap, IsMargin, Woven, Join;
    JoinEnds(words);
    var slug := Join(words, '_');
    var dashes, flag := CollapseMargin(before, Woven(words, gaps) + after, false);
    CollapseWoven(words, gaps, after, flag);
    var more, ignored := CollapseMargin(after, "", false);
    assert after + "" == after;
    CollapseNothing(ignored);
    assert Collapse(lower, false) == dashes + (slug + more);
    StripLeftOf(dashes, slug + more);
    StripRightOf(slug, more);
  }

  lemma CollapseNothing(inRun: bool)
    ensures Collapse("", inRun) == ""
  {
  }

  /** A text without a letter or digit becomes "node". */
  lemma SlugOfMargin(text: string)
    requires IsMargin(text)
    ensures Slugify(text) == "node"
  {
    LowerKeepsGap(text);
    var dashes, flag := CollapseMargin(text, "", false);
    assert text + "" == text && dashes + "" == dashes;
    StripLeftOf(dashes, "");
    hide Collapse, LowerAll, StripLeft;
    CollapseNothing(flag);
  }

  // --- Every text is made like that ---

  lemma AllowedIsWord(s: string)
    requires s != "" && forall c <- s :: Allowed(c)
    ensures IsWord(s)
  {
  }

  lemma OtherIsGap(s: string)
    requires s != "" && forall c <- s :: !Allowed(c) && !('A' <= c <= 'Z')
    ensures IsGap(s)
  {
  }

  ghost predicate Decomposes(body: string, words: seq<string>, gaps: seq<string>) {
    && |words| == |gaps| + 1 && (forall w <- words :: IsWord(w)) && (forall g <- gaps :: IsGap(g))
    && Woven(words, gaps) == body
  }

  lemma OneMoreWord(body: string, i: nat, j: nat, rest: seq<string>, more: seq<string>)
    requires 0 < i < j < |body| && Decomposes(body[j..], rest, more) && IsWord(body[..i]) && IsGap(body[i..j])
    ensures Decomposes(body, [body[..i]] + rest, [body[i..j]] + more)
  {
    hide IsWord, IsGap;
    var words, gaps := [body[..i]] + rest, [body[i..j]] + more;
    assert words[1..] == rest && gaps[1..] == more;
    assert body == body[..i] + body[i..j] + body[j..];
  }

  // The end of the word that a text begins with.
  lemma WordEnd(body: string) returns (i: nat)
    requires body != "" && Allowed(body[0])
    ensures 0 < i <= |body| && (forall k | 0 <= k < i :: Allowed(body[k])) && (i < |body| ==> !Allowed(body[i]))
  {
    i := 1;
    while i < |body| && Allowed(body[i])
      invariant 0 < i <= |body| && forall k | 0 <= k < i :: Allowed(body[k])
    {
      i := i + 1;
    }
  }

  lemma GapEnd(body: string, i: nat) returns (j: nat)
    requires i < |body| && !Allowed(body[i]) && Allowed(body[|body|-1])
    ensures i < j < |body| && Allowed(body[j]) && forall k | i <= k < j :: !Allowed(body[k])
  {
    j := i + 1;
    while !Allowed(body[j])
      invariant i < j < |body| && forall k | i <= k < j :: !Allowed(body[k])
      decreases |body| - j
    {
      j := j + 1;
    }
  }

  lemma {:induction false} Weave(body: string) returns (words: seq<string>, gaps: seq<string>)
    requires body != "" && Allowed(body[0]) && Allowed(body[|body|-1])
    requires forall k | 0 <= k < |body| :: !('A' <= body[k] <= 'Z')
    ensures Decomposes(body, words, gaps)
    ensures words[0] <= body
    ensures |words[|gaps|]| <= |body| && body[|body|-|words[|gaps|]|..] == words[|gaps|]
    decreases |body|
  {
    hide Allowed, IsWord, IsGap, Woven;
    var i := WordEnd(body);
    AllowedIsWord(body[..i]);
    if i == |body| {
      words, gaps := [body], [];
      assert body[..i] == body;
      WovenOne(body);
    } else {
      var j := GapEnd(body, i);
      OtherIsGap(body[i..j]);
      var rest, more := Weave(body[j..]);
      words, gaps := [body[..i]] + rest, [body[i..j]] + more;
      OneMoreWord(body, i, j, rest, more);
    }
  }

  lemma WovenOne(w: string)
    ensures Woven([w], []) == w
  {
  }

  // The first and the last letter or digit.
  lemma Ends(s: string) returns (i: nat, j: nat)
    requires !IsMargin(s)
    ensures i <= j < |s| && IsMargin(s[..i]) && IsMargin(s[j+1..])
    ensures !IsMargin([s[i]]) && !IsMargin([s[j]])
  {
    i, j := 0, |s| - 1;
    while IsMargin([s[i]])
      invariant i < |s| && IsMargin(s[..i])
      decreases |s| - i
    {
      MarginGrows(s[..i], [s[i]]);
      assert s[..i] + [s[i]] == s[..i+1];
      assert s[..|s|] == s;
      i := i + 1;
    }
    assert s[|s|..] == "";
    while IsMargin([s[j]])
      invariant i <= j < |s| && IsMargin(s[j+1..])
      decreases j
    {
      MarginGrows([s[j]], s[j+1..]);
      assert [s[j]] + s[j+1..] == s[j..];
      j := j - 1;
    }
  }

  lemma MarginGrows(a: string, b: string)
    requires IsMargin(a) && IsMargin(b)
    ensures IsMargin(a + b)
  {
  }

  lemma LetterInside(c: char)
    requires !IsMargin([c]) && !('A' <= c <= 'Z')
    ensures Allowed(c) && c != '_'
  {
    assert forall d <- [c] :: d == c;
  }

  lemma LowerIsSame(text: string)
    ensures SameButCase(text, LowerAll(text))
    ensures forall k | 0 <= k < |text| :: !('A' <= LowerAll(text)[k] <= 'Z')
    ensures IsMargin(LowerAll(text)) ==> IsMargin(text)
  {
    var lower := LowerAll(text);
    if !IsMargin(text) {
      var k :| 0 <= k < |text|
        && ('a' <= text[k] <= 'z' || 'A' <= text[k] <= 'Z' || '0' <= text[k] <= '9');
      assert lower[k] in lower;
    }
  }

  /** Every text with a letter or a digit is made like that, up to case. */
  lemma EveryTextIsMade(text: string)
    returns (lower: string, before: string, words: seq<string>, gaps: seq<string>, after: string)
    requires !IsMargin(text)
    ensures SameButCase(text, lower) && MadeOf(lower, before, words, gaps, after)
  {
    hide LowerAll, IsMargin, SameButCase, Allowed, Woven, IsGap;
    lower := LowerAll(text);
    LowerIsSame(text);
    var i, j := Ends(lower);
    LetterInside(lower[i]);
    LetterInside(lower[j]);
    var body := lower[i..j+1];
    before, after := lower[..i], lower[j+1..];
    words, gaps := Weave(body);
    assert IsWord(words[0]) && IsWord(words[|gaps|]);
    assert lower == before + (body + after);
  }
}
