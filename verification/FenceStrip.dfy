/** `strip_code_blocks` and `extract_json_object`: the linear forms, and the regular
    expressions they stand for. `json.loads` is a parameter. */
module FenceStrip {
  import opened Wrappers
  import opened PyText

  const FENCE := "```"

  // ---- The code ----------------------------------------------------------------------

  /** One character against a lower-case letter, ignoring case as Python does: the long s
      and the Kelvin sign fold too. */
  predicate Folds(c: char, letter: char) {
    || c == letter
    || ('a' <= letter <= 'z' && c as int == letter as int - 32)
    || (letter == 's' && c == '\U{17F}')
    || (letter == 'k' && c == '\U{212A}')
  }

  predicate FoldsTo(s: string, word: string) {
    |s| == |word| && forall i | 0 <= i < |s| :: Folds(s[i], word[i])
  }

  /** How much of s the optional `json|markdown` takes. */
  function LanguageLength(s: string): (n: nat)
    ensures n <= |s|
  {
    if |s| >= 4 && FoldsTo(s[..4], "json") then 4
    else if |s| >= 8 && FoldsTo(s[..8], "markdown") then 8
    else 0
  }

  /** What is left after the opening fence, if there is one. */
  function DropOpening(s: string): string {
    var t := LStrip(s);
    if FENCE <= t then LStrip(t[|FENCE|..][LanguageLength(t[|FENCE|..])..]) else s
  }

  predicate EndsWith(s: string, suffix: string) {
    |suffix| <= |s| && s[|s| - |suffix|..] == suffix
  }

  /** The closing fence by `rstrip`. */
  function DropClosing(s: string): string {
    var tail := RStrip(s);
    if EndsWith(tail, FENCE) then tail[..|tail| - |FENCE|] else s
  }

  function StripCodeBlocks(s: string): string {
    Strip(DropClosing(DropOpening(s)))
  }

  /** str.find, -1 when absent. */
  function Find(s: string, c: char): (i: int)
    ensures -1 <= i < |s|
  {
    if s == "" then -1
    else if s[0] == c then 0
    else if Find(s[1..], c) == -1 then -1
    else 1 + Find(s[1..], c)
  }

  /** str.rfind, -1 when absent. */
  function RFind(s: string, c: char): (i: int)
    ensures -1 <= i < |s|
  {
    if s == "" then -1
    else if s[|s| - 1] == c then |s| - 1
    else RFind(s[..|s| - 1], c)
  }

  /** The text from the first opening brace to the last closing one. */
  function ObjectText(s: string): Option<string> {
    var start, end := Find(s, '{'), RFind(s, '}');
    if start == -1 || end <= start then None else Some(s[start..end + 1])
  }

  /** `{}` stands for no object and for text that does not parse. */
  function ExtractJsonObject<J>(loads: string -> Option<J>, empty: J, s: string): J {
    if s == "" then empty
    else match ObjectText(StripCodeBlocks(s))
      case None => empty
      case Some(text) => match loads(text) case Some(v) => v case None => empty
  }

  // ---- The opening fence -------------------------------------------------------------

  /** `\s*```(?:json|markdown)?\s*\n?`, matched against the whole of m. */
  ghost predicate OpeningMatch(m: string) {
    exists a: string, lang: string, b: string, nl: string ::
      && m == a + (FENCE + (lang + (b + nl)))
      && AllSpace(a) && AllSpace(b) && nl in {"", "\n"} && IsLanguage(lang)
  }

  lemma LStripPads(pad: string, s: string)
    requires AllSpace(pad)
    ensures LStrip(pad + s) == LStrip(s) && |LStrip(s)| <= |s|
  {
    LStripSplits(s);
    var inner := s[..|s| - |LStrip(s)|];
    assert pad + s == (pad + inner) + LStrip(s);
    LStripUnique(pad + inner, LStrip(s));
  }

  lemma LanguageFound(lang: string, rest: string)
    requires FoldsTo(lang, "json") || FoldsTo(lang, "markdown")
    ensures LanguageLength(lang + rest) == |lang| && |lang| > 0 && !IsSpace(lang[0])
  {
    var s := lang + rest;
    assert s[..|lang|] == lang;
    if FoldsTo(lang, "markdown") {
      assert s[..4][0] == lang[0] && !Folds(lang[0], 'j');
    }
  }

  lemma NoLanguage(u: string)
    requires u != "" && IsSpace(u[0])
    ensures LanguageLength(u) == 0
  {
    if |u| >= 4 { assert u[..4][0] == u[0] && !Folds(u[0], 'j'); }
    if |u| >= 8 { assert u[..8][0] == u[0] && !Folds(u[0], 'm'); }
  }

  predicate IsLanguage(lang: string) {
    lang == "" || FoldsTo(lang, "json") || FoldsTo(lang, "markdown")
  }

  /** Character i of s is one of these. */
  ghost predicate OneOf(s: string, i: nat, options: string) {
    i < |s| && s[i] in options
  }

  /** The language tags are the two words in any mixture of cases; as Python folds cases, a
      long s and a Kelvin sign pass too. */
  lemma IsLanguageMeans(lang: string)
    ensures IsLanguage(lang) <==>
            || lang == ""
            || (|lang| == 4 && OneOf(lang, 0, "jJ") && OneOf(lang, 1, "sS\U{17F}") && OneOf(lang, 2, "oO") && OneOf(lang, 3, "nN"))
            || (|lang| == 8 && OneOf(lang, 0, "mM") && OneOf(lang, 1, "aA") && OneOf(lang, 2, "rR")
                && OneOf(lang, 3, "kK\U{212A}") && OneOf(lang, 4, "dD") && OneOf(lang, 5, "oO") && OneOf(lang, 6, "wW")
                && OneOf(lang, 7, "nN"))
  {
    JsonMeans(lang);
    MarkdownMeans(lang);
  }

  lemma JsonMeans(lang: string)
    ensures FoldsTo(lang, "json") <==>
            |lang| == 4 && OneOf(lang, 0, "jJ") && OneOf(lang, 1, "sS\U{17F}") && OneOf(lang, 2, "oO") && OneOf(lang, 3, "nN")
  {
    if |lang| == 4 {
      assert FoldsTo(lang, "json") <==>
             Folds(lang[0], 'j') && Folds(lang[1], 's') && Folds(lang[2], 'o') && Folds(lang[3], 'n');
      FoldMeans(lang[0], lang[1], lang[2], lang[3]);
    }
  }

  lemma FoldMeans(j: char, s: char, o: char, n: char)
    ensures Folds(j, 'j') <==> j in "jJ"
    ensures Folds(s, 's') <==> s in "sS\U{17F}"
    ensures Folds(o, 'o') <==> o in "oO"
    ensures Folds(n, 'n') <==> n in "nN"
  {
    assert 'J' as int == 'j' as int - 32 && 'S' as int == 's' as int - 32;
    assert 'O' as int == 'o' as int - 32 && 'N' as int == 'n' as int - 32;
  }

  lemma FoldMeansToo(m: char, a: char, r: char, k: char, d: char, w: char)
    ensures Folds(m, 'm') <==> m in "mM"
    ensures Folds(a, 'a') <==> a in "aA"
    ensures Folds(r, 'r') <==> r in "rR"
    ensures Folds(k, 'k') <==> k in "kK\U{212A}"
    ensures Folds(d, 'd') <==> d in "dD"
    ensures Folds(w, 'w') <==> w in "wW"
  {
    assert 'M' as int == 'm' as int - 32 && 'A' as int == 'a' as int - 32 && 'R' as int == 'r' as int - 32;
    assert 'K' as int == 'k' as int - 32 && 'D' as int == 'd' as int - 32 && 'W' as int == 'w' as int - 32;
  }

  lemma MarkdownMeans(lang: string)
    ensures FoldsTo(lang, "markdown") <==>
            |lang| == 8 && OneOf(lang, 0, "mM") && OneOf(lang, 1, "aA") && OneOf(lang, 2, "rR")
            && OneOf(lang, 3, "kK\U{212A}") && OneOf(lang, 4, "dD") && OneOf(lang, 5, "oO") && OneOf(lang, 6, "wW")
            && OneOf(lang, 7, "nN")
  {
    if |lang| == 8 {
      assert FoldsTo(lang, "markdown") <==>
             && Folds(lang[0], 'm') && Folds(lang[1], 'a') && Folds(lang[2], 'r') && Folds(lang[3], 'k')
             && Folds(lang[4], 'd') && Folds(lang[5], 'o') && Folds(lang[6], 'w') && Folds(lang[7], 'n');
      FoldMeans('j', 's', lang[5], lang[7]);
      FoldMeansToo(lang[0], lang[1], lang[2], lang[3], lang[4], lang[6]);
    }
  }

  lemma AfterLanguage(lang: string, gap: string, rest: string)
    requires IsLanguage(lang) && AllSpace(gap)
    ensures var u := lang + (gap + rest);
            |LStrip(u[LanguageLength(u)..])| <= |rest|
  {
    LStripPads(gap, rest);
    var u := lang + (gap + rest);
    if lang != "" {
      LanguageFound(lang, gap + rest);
      assert u[|lang|..] == gap + rest;
    } else {
      assert u == gap + rest;
      if gap != "" {
        assert u[0] == gap[0];
        NoLanguage(u);
        assert u[0..] == u;
      } else {
        LStripPads("", u[LanguageLength(u)..]);
      }
    }
  }

  lemma AfterFence(u: string)
    ensures FENCE <= FENCE + u && (FENCE + u)[|FENCE|..] == u && LStrip(FENCE + u) == FENCE + u
  {
    LStripUnique("", FENCE + u);
    assert "" + (FENCE + u) == FENCE + u;
  }

  lemma OpeningOf(a: string, u: string)
    requires AllSpace(a)
    ensures FENCE <= LStrip(a + (FENCE + u)) && DropOpening(a + (FENCE + u)) == LStrip(u[LanguageLength(u)..])
  {
    AfterFence(u);
    LStripPads(a, FENCE + u);
  }

  lemma Reassociate(a: string, b: string, c: string, d: string, e: string)
    ensures a + (b + (c + (d + e))) == (a + (b + (c + d))) + e
  {
  }

  /** The code takes away the longest prefix the regular expression matches. */
  lemma OpeningIsLongest(s: string, n: nat)
    requires n <= |s| && OpeningMatch(s[..n])
    ensures FENCE <= LStrip(s) && |DropOpening(s)| <= |s| - n
  {
    var a: string, lang: string, b: string, nl: string :|
      && s[..n] == a + (FENCE + (lang + (b + nl)))
      && AllSpace(a) && AllSpace(b) && nl in {"", "\n"} && IsLanguage(lang);
    var gap := b + nl;
    Reassociate(a, FENCE, lang, gap, s[n..]);
    assert s == s[..n] + s[n..];
    OpeningOf(a, lang + (gap + s[n..]));
    AfterLanguage(lang, gap, s[n..]);
  }

  lemma LanguageIs(u: string)
    ensures IsLanguage(u[..LanguageLength(u)])
  {
  }

  lemma IndentSplit(s: string) returns (pad: string)
    ensures s == pad + LStrip(s) && AllSpace(pad)
  {
    LStripSplits(s);
    pad := s[..|s| - |LStrip(s)|];
  }

  lemma LanguageSplit(u: string) returns (lang: string, gap: string)
    ensures u == lang + (gap + LStrip(u[LanguageLength(u)..])) && IsLanguage(lang) && AllSpace(gap)
  {
    LanguageIs(u);
    var n := LanguageLength(u);
    assert u == u[..n] + u[n..];
    lang := u[..n];
    gap := IndentSplit(u[n..]);
  }

  lemma OpeningParts(s: string) returns (a: string, lang: string, gap: string)
    requires FENCE <= LStrip(s)
    ensures s == a + (FENCE + (lang + (gap + DropOpening(s))))
    ensures AllSpace(a) && AllSpace(gap) && IsLanguage(lang)
  {
    a := IndentSplit(s);
    var u := LStrip(s)[|FENCE|..];
    assert LStrip(s) == FENCE + u;
    lang, gap := LanguageSplit(u);
  }

  lemma MatchTaken(a: string, lang: string, gap: string, rest: string)
    requires AllSpace(a) && AllSpace(gap) && IsLanguage(lang)
    ensures OpeningMatch(a + (FENCE + (lang + gap)))
    ensures a + (FENCE + (lang + (gap + rest))) == (a + (FENCE + (lang + gap))) + rest
  {
    Reassociate(a, FENCE, lang, gap, rest);
    assert gap + "" == gap;
    assert a + (FENCE + (lang + gap)) == a + (FENCE + (lang + (gap + "")));
  }

  lemma CutAt(m: string, rest: string)
    ensures (m + rest)[..|m + rest| - |rest|] == m && (m + rest)[|m + rest| - |rest|..] == rest
  {
  }

  /** And what it takes away is such a prefix, or nothing. */
  lemma OpeningMatches(s: string)
    ensures |DropOpening(s)| <= |s| && DropOpening(s) == s[|s| - |DropOpening(s)|..]
    ensures if FENCE <= LStrip(s) then OpeningMatch(s[..|s| - |DropOpening(s)|]) else DropOpening(s) == s
  {
    if FENCE <= LStrip(s) {
      var a, lang, gap := OpeningParts(s);
      var rest := DropOpening(s);
      MatchTaken(a, lang, gap, rest);
      CutAt(a + (FENCE + (lang + gap)), rest);
    }
  }

  // ---- The closing fence -------------------------------------------------------------

  /** `\n?\s*```\s*$` matches from i on. */
  ghost predicate ClosingMatch(s: string, i: nat) {
    i <= |s| && exists nl: string, a: string, b: string ::
      s[i..] == (nl + a) + (FENCE + b) && nl in {"", "\n"} && AllSpace(a) && AllSpace(b)
  }

  /** Where `re.sub` would cut: the leftmost match runs to the end. */
  ghost predicate CutsAt(s: string, i: nat) {
    ClosingMatch(s, i) && forall j: nat | j < i :: !ClosingMatch(s, j)
  }

  /** A match, taken apart. */
  lemma ClosingParts(s: string, i: nat) returns (pad: string, b: string)
    requires ClosingMatch(s, i)
    ensures s == (s[..i] + pad) + (FENCE + b) && AllSpace(pad) && AllSpace(b)
  {
    var nl: string, a: string, b': string :|
      s[i..] == (nl + a) + (FENCE + b') && nl in {"", "\n"} && AllSpace(a) && AllSpace(b');
    pad, b := nl + a, b';
    assert s == s[..i] + s[i..];
  }

  lemma ClosingFrom(s: string, i: nat, pad: string, b: string)
    requires i <= |s| && s[i..] == pad + (FENCE + b) && AllSpace(pad) && AllSpace(b)
    ensures ClosingMatch(s, i)
  {
    assert s[i..] == ("" + pad) + (FENCE + b);
  }

  /** A fence and whitespace at the end: only x is left. */
  lemma ClosingOf(x: string, b: string)
    requires AllSpace(b)
    ensures EndsWith(RStrip(x + (FENCE + b)), FENCE) && DropClosing(x + (FENCE + b)) == x
  {
    var tail := x + FENCE;
    assert tail[|tail| - 1] == '`' && !IsSpace('`');
    RStripUnique(tail, b);
    assert x + (FENCE + b) == tail + b;
    assert tail[|tail| - |FENCE|..] == FENCE && tail[..|tail| - |FENCE|] == x;
  }

  /** The leftmost match reaches back over all whitespace. */
  lemma NothingToStrip(s: string, i: nat)
    requires CutsAt(s, i)
    ensures RStrip(s[..i]) == s[..i]
  {
    if i > 0 && IsSpace(s[i - 1]) {
      var pad, b := ClosingParts(s, i);
      assert s[i..] == pad + (FENCE + b);
      assert s[i - 1..] == [s[i - 1]] + s[i..] == ([s[i - 1]] + pad) + (FENCE + b);
      ClosingFrom(s, i - 1, [s[i - 1]] + pad, b);
    }
  }

  /** There is a match exactly when the right-stripped text ends in a fence. */
  lemma ClosingExists(s: string)
    ensures EndsWith(RStrip(s), FENCE) <==> exists i: nat :: ClosingMatch(s, i)
  {
    if EndsWith(RStrip(s), FENCE) {
      RStripSplits(s);
      var tail := RStrip(s);
      var i := |tail| - |FENCE|;
      var b := s[|tail|..];
      assert s[i..] == s[i..|tail|] + b == "" + (FENCE + b);
      ClosingFrom(s, i, "", b);
    }
    if i: nat :| ClosingMatch(s, i) {
      var pad, b := ClosingParts(s, i);
      ClosingOf(s[..i] + pad, b);
    }
  }

  /** Where there is a match there is a leftmost one. */
  lemma {:induction false} CutExists(s: string, i: nat) returns (j: nat)
    requires ClosingMatch(s, i)
    ensures j <= i && CutsAt(s, j)
  {
    if k: nat :| k < i && ClosingMatch(s, k) {
      j := CutExists(s, k);
    } else {
      j := i;
    }
  }

  /** For every text: where the regular expression matches nowhere the linear form changes
      nothing either; where it does, `re.sub` cuts at one place, and what it leaves is the
      linear form's result without its trailing whitespace. So the two agree up to the
      final strip. */
  lemma ClosingIsRegex(s: string)
    ensures (forall i: nat :: !ClosingMatch(s, i)) ==> DropClosing(s) == s
    ensures (exists i: nat :: ClosingMatch(s, i)) ==> exists j: nat :: CutsAt(s, j)
    ensures forall i: nat | CutsAt(s, i) :: s[..i] == RStrip(DropClosing(s)) && Strip(DropClosing(s)) == Strip(s[..i])
  {
    ClosingExists(s);
    if i: nat :| ClosingMatch(s, i) {
      var j := CutExists(s, i);
    }
    forall i: nat | CutsAt(s, i)
      ensures s[..i] == RStrip(DropClosing(s)) && Strip(DropClosing(s)) == Strip(s[..i])
    {
      var pad, b := ClosingParts(s, i);
      ClosingOf(s[..i] + pad, b);
      RStripPad(s[..i], pad);
      NothingToStrip(s, i);
    }
  }

  // ---- Braces ------------------------------------------------------------------------

  /** `\{[\s\S]*\}` matches s[i..j]. */
  predicate BraceMatch(s: string, i: nat, j: nat) {
    i + 2 <= j <= |s| && s[i] == '{' && s[j - 1] == '}'
  }

  /** Leftmost start, and the longest from there. */
  ghost predicate GreedyMatch(s: string, i: nat, j: nat) {
    && BraceMatch(s, i, j)
    && forall k: nat, l: nat | BraceMatch(s, k, l) :: i <= k && (k == i ==> l <= j)
  }

  lemma {:induction false} Found(s: string, c: char)
    ensures Find(s, c) == -1 <==> c !in s
    ensures Find(s, c) != -1 ==> s[Find(s, c)] == c
  {
    if s != "" {
      assert s == [s[0]] + s[1..];
      Found(s[1..], c);
    }
  }

  lemma {:induction false} RFound(s: string, c: char)
    ensures RFind(s, c) == -1 <==> c !in s
    ensures RFind(s, c) != -1 ==> s[RFind(s, c)] == c
  {
    if s != "" {
      assert s == s[..|s| - 1] + [s[|s| - 1]];
      RFound(s[..|s| - 1], c);
    }
  }

  lemma {:induction false} FindIsLeast(s: string, i: nat, c: char)
    requires i < |s| && s[i] == c
    ensures 0 <= Find(s, c) <= i
  {
    if s[0] != c { FindIsLeast(s[1..], i - 1, c); }
  }

  lemma {:induction false} RFindIsGreatest(s: string, i: nat, c: char)
    requires i < |s| && s[i] == c
    ensures i <= RFind(s, c)
  {
    if s[|s| - 1] != c { RFindIsGreatest(s[..|s| - 1], i, c); }
  }

  lemma WithinObject(s: string, i: nat, j: nat)
    requires BraceMatch(s, i, j)
    ensures 0 <= Find(s, '{') <= i < j - 1 <= RFind(s, '}')
  {
    FindIsLeast(s, i, '{');
    RFindIsGreatest(s, j - 1, '}');
  }

  /** First brace to last brace is the greedy match: there is one exactly when the code
      finds text, and it is that text. */
  lemma ObjectTextIsGreedy(s: string)
    ensures ObjectText(s) == None <==> forall i: nat, j: nat :: !BraceMatch(s, i, j)
    ensures ObjectText(s).Some? ==> GreedyMatch(s, Find(s, '{'), RFind(s, '}') + 1)
    ensures forall i: nat, j: nat | GreedyMatch(s, i, j) :: ObjectText(s) == Some(s[i..j])
  {
    var start, end := Find(s, '{'), RFind(s, '}');
    Found(s, '{');
    RFound(s, '}');
    if start != -1 && start < end {
      assert BraceMatch(s, start, end + 1);
    }
    forall i: nat, j: nat | BraceMatch(s, i, j) ensures ObjectText(s).Some? && start <= i && j <= end + 1 {
      WithinObject(s, i, j);
    }
    forall i: nat, j: nat | GreedyMatch(s, i, j) ensures ObjectText(s) == Some(s[i..j]) {
      WithinObject(s, i, j);
    }
  }

  lemma {:induction false} FindPast(pre: string, s: string, c: char)
    requires c !in pre
    ensures Find(pre + s, c) == if Find(s, c) == -1 then -1 else |pre| + Find(s, c)
  {
    if pre == "" {
      assert pre + s == s;
    } else {
      assert pre[0] != c && forall x | x in pre[1..] :: x in pre;
      assert (pre + s)[1..] == pre[1..] + s;
      FindPast(pre[1..], s, c);
    }
  }

  lemma {:induction false} FindHere(s: string, post: string, c: char)
    requires Find(s, c) != -1
    ensures Find(s + post, c) == Find(s, c)
  {
    if s[0] != c {
      assert (s + post)[1..] == s[1..] + post;
      FindHere(s[1..], post, c);
    }
  }

  lemma {:induction false} RFindBefore(s: string, post: string, c: char)
    requires c !in post
    ensures RFind(s + post, c) == RFind(s, c)
  {
    if post == "" {
      assert s + post == s;
    } else {
      assert post[|post| - 1] != c && forall x | x in post[..|post| - 1] :: x in post;
      assert (s + post)[..|s + post| - 1] == s + post[..|post| - 1];
      RFindBefore(s, post[..|post| - 1], c);
    }
  }

  lemma {:induction false} RFindHere(pre: string, s: string, c: char)
    requires RFind(s, c) != -1
    ensures RFind(pre + s, c) == |pre| + RFind(s, c)
  {
    if s[|s| - 1] != c {
      assert (pre + s)[..|pre + s| - 1] == pre + s[..|s| - 1];
      RFindHere(pre, s[..|s| - 1], c);
    }
  }

  lemma SameSlice(pre: string, s: string, post: string, a: nat, b: nat)
    requires a <= b <= |s|
    ensures (pre + s)[|pre| + a..|pre| + b] == s[a..b] == (s + post)[a..b]
  {
  }

  /** Text in front makes no difference if it has no opening brace. */
  lemma FrontDoesNotMatter(pre: string, s: string)
    requires '{' !in pre
    ensures ObjectText(pre + s) == ObjectText(s)
  {
    FindPast(pre, s, '{');
    var a, b := Find(s, '{'), RFind(s, '}');
    if b != -1 {
      RFindHere(pre, s, '}');
      if 0 <= a < b { SameSlice(pre, s, "", a, b + 1); }
    } else {
      RFound(s, '}');
      RFindBefore(pre, s, '}');
    }
  }

  /** Nor does text behind without a closing one. */
  lemma BackDoesNotMatter(s: string, post: string)
    requires '}' !in post
    ensures ObjectText(s + post) == ObjectText(s)
  {
    RFindBefore(s, post, '}');
    var a, b := Find(s, '{'), RFind(s, '}');
    if a != -1 {
      FindHere(s, post, '{');
      if a < b { SameSlice("", s, post, a, b + 1); }
    } else {
      Found(s, '{');
      FindPast(s, post, '{');
    }
  }

  // ---- Together ----------------------------------------------------------------------

  lemma LanguageHasNoBrace(lang: string)
    requires IsLanguage(lang)
    ensures '{' !in lang
  {
    assert forall i | 0 <= i < |lang| :: lang[i] != '{';
  }

  lemma OpeningHasNoBrace(m: string)
    requires OpeningMatch(m)
    ensures '{' !in m
  {
    var a: string, lang: string, b: string, nl: string :|
      && m == a + (FENCE + (lang + (b + nl)))
      && AllSpace(a) && AllSpace(b) && nl in {"", "\n"} && IsLanguage(lang);
    LanguageHasNoBrace(lang);
    assert '{' !in FENCE && '{' !in a && '{' !in b + nl;
  }

  lemma ClosingTakesNoBrace(s: string)
    ensures DropClosing(s) <= s && '}' !in s[|DropClosing(s)|..]
  {
    var tail := RStrip(s);
    RStripSplits(s);
    if EndsWith(tail, FENCE) {
      var r := tail[..|tail| - |FENCE|];
      assert s[|r|..] == FENCE + s[|tail|..];
      assert '}' !in FENCE && '}' !in s[|tail|..];
    }
  }

  lemma StripTakesNoBrace(s: string)
    ensures ObjectText(Strip(s)) == ObjectText(s)
  {
    var right := RStrip(s);
    RStripSplits(s);
    LStripSplits(right);
    var left := right[..|right| - |Strip(s)|];
    assert s == right + s[|right|..] && right == left + Strip(s);
    BackDoesNotMatter(right, s[|right|..]);
    FrontDoesNotMatter(left, Strip(s));
  }

  lemma OpeningDoesNotMatter(s: string)
    ensures ObjectText(DropOpening(s)) == ObjectText(s)
  {
    OpeningMatches(s);
    var n := |s| - |DropOpening(s)|;
    if FENCE <= LStrip(s) {
      OpeningHasNoBrace(s[..n]);
      assert s == s[..n] + s[n..];
      FrontDoesNotMatter(s[..n], s[n..]);
    }
  }

  lemma ClosingDoesNotMatter(s: string)
    ensures ObjectText(DropClosing(s)) == ObjectText(s)
  {
    ClosingTakesNoBrace(s);
    var n := |DropClosing(s)|;
    assert s == s[..n] + s[n..] && DropClosing(s) == s[..n];
    BackDoesNotMatter(s[..n], s[n..]);
  }

  /** Taking fences and whitespace off never changes which object is found. */
  lemma FencesDoNotMatter(s: string)
    ensures ObjectText(StripCodeBlocks(s)) == ObjectText(s)
  {
    OpeningDoesNotMatter(s);
    ClosingDoesNotMatter(DropOpening(s));
    StripTakesNoBrace(DropClosing(DropOpening(s)));
  }

  /** An object with no opening brace before it and no closing brace after it is found
      exactly, whatever prose and fences stand around it. */
  lemma ObjectInProse(pre: string, obj: string, post: string)
    requires |obj| >= 2 && obj[0] == '{' && obj[|obj| - 1] == '}'
    requires '{' !in pre && '}' !in post
    ensures ObjectText(StripCodeBlocks(pre + (obj + post))) == Some(obj)
  {
    FencesDoNotMatter(pre + (obj + post));
    FrontDoesNotMatter(pre, obj + post);
    BackDoesNotMatter(obj, post);
    WholeObject(obj);
  }

  lemma WholeObject(obj: string)
    requires |obj| >= 2 && obj[0] == '{' && obj[|obj| - 1] == '}'
    ensures ObjectText(obj) == Some(obj)
  {
    WithinObject(obj, 0, |obj|);
    assert obj[0..|obj|] == obj;
  }

  /** So that object is what gets parsed. */
  lemma ObjectInProseParsed<J>(loads: string -> Option<J>, empty: J, pre: string, obj: string, post: string)
    requires |obj| >= 2 && obj[0] == '{' && obj[|obj| - 1] == '}'
    requires '{' !in pre && '}' !in post
    ensures ExtractJsonObject(loads, empty, pre + (obj + post))
         == match loads(obj) case Some(v) => v case None => empty
  {
    ObjectInProse(pre, obj, post);
  }

  /** A text without an opening brace somewhere before a closing one gives no object. */
  lemma NoObjectIsEmpty<J>(loads: string -> Option<J>, empty: J, s: string)
    requires forall i: nat, j: nat | i < j < |s| :: !(s[i] == '{' && s[j] == '}')
    ensures ExtractJsonObject(loads, empty, s) == empty
  {
    FencesDoNotMatter(s);
    ObjectTextIsGreedy(s);
    forall i: nat, j: nat ensures !BraceMatch(s, i, j) {
      if 0 < j { assert !(i < j - 1 < |s| && s[i] == '{' && s[j - 1] == '}'); }
    }
  }

  /** What `DropOpening` leaves of a fenced text. */
  lemma OpeningTaken(lang: string, inner: string)
    requires IsLanguage(lang) && inner != "" && IsSpace(inner[0])
    ensures DropOpening(FENCE + (lang + inner)) == LStrip(inner)
  {
    OpeningOf("", lang + inner);
    assert "" + (FENCE + (lang + inner)) == FENCE + (lang + inner);
    if lang == "" {
      assert lang + inner == inner;
      NoLanguage(inner);
      assert inner[0..] == inner;
    } else {
      LanguageFound(lang, inner);
      assert (lang + inner)[|lang|..] == inner;
    }
  }

  /** And `DropClosing` of what is then left: only the fence goes. */
  lemma ClosingTaken(text: string)
    requires text != "" ==> !IsSpace(text[0])
    ensures DropClosing(LStrip(text + ("\n" + FENCE))) == if text == "" then "" else text + "\n"
  {
    if text == "" {
      assert text + ("\n" + FENCE) == "\n" + (FENCE + "");
      LStripPads("\n", FENCE + "");
      AfterFence("");
      ClosingOf("", "");
      assert "" + (FENCE + "") == FENCE + "";
    } else {
      var rest := text + ("\n" + FENCE);
      LStripUnique("", rest);
      assert "" + rest == rest == (text + "\n") + (FENCE + "");
      ClosingOf(text + "\n", "");
    }
  }

  /** Between the fences: what is left of the text, from its first character on. */
  lemma BetweenFences(pad: string, text: string)
    requires AllSpace(pad) && LStrip(text) == text && (text != "" ==> !IsSpace(text[0]))
    ensures DropClosing(LStrip("\n" + ((pad + text) + ("\n" + FENCE)))) == if text == "" then "" else text + "\n"
  {
    var closing := "\n" + FENCE;
    LStripPads("\n", (pad + text) + closing);
    assert (pad + text) + closing == pad + (text + closing);
    LStripPads(pad, text + closing);
    ClosingTaken(text);
  }

  lemma StripPadded(pad: string, text: string)
    requires AllSpace(pad)
    ensures Strip(text + "\n") == Strip(pad + text) && Strip("") == ""
  {
    RStripPad(text, "\n");
    StripsCommute(pad, text);
  }

  /** Text put between fences comes back, stripped. */
  lemma FencedTextComesBack(lang: string, body: string)
    requires IsLanguage(lang)
    ensures StripCodeBlocks(FENCE + (lang + ("\n" + (body + ("\n" + FENCE))))) == Strip(body)
  {
    OpeningTaken(lang, "\n" + (body + ("\n" + FENCE)));
    var pad := IndentSplit(body);
    var text := LStrip(body);
    LStripSplits(body);
    LStripUnique("", text);
    assert "" + text == text;
    BetweenFences(pad, text);
    StripPadded(pad, text);
    if text == "" { StripsCommute(pad, text); }
  }

  /** Whitespace in front makes no difference to a strip. */
  lemma StripsCommute(pad: string, s: string)
    requires AllSpace(pad)
    ensures Strip(pad + s) == Strip(s)
  {
    RStripSplits(s);
    var r := RStrip(s);
    var t := s[|r|..];
    assert s == r + t;
    if r == "" {
      assert s == t;
      RStripUnique("", pad + s);
      assert "" + (pad + s) == pad + s;
    } else {
      assert pad + s == (pad + r) + t;
      RStripUnique(pad + r, t);
      LStripPads(pad, r);
    }
  }
}
